/** The interrupt handlers of the calibration as methods on an object whose
    fields are the program's globals, the registers the handlers touch
    (INTFLAGS, RTC.PER, INPUTCTRLB, CTRLA), and CMPBCLR, which setup writes
    once and which fixes the wrap modulus.
    Each handler runs atomically (AVR interrupts do not nest), so any
    interleaving of the two interrupt sources is a sequence of method calls.
 */
module CalibrationIsr {
  import opened TcdCalibration

  class Tcd0Calibration {
    var tcdIsrCount: u32        // volatile uint32_t tcd_isr_count
    var tcdCaptureValue: u16    // volatile uint16_t tcd_capture_value
    var first: bool             // volatile bool first
    var intFlags: bv8           // TCD0.INTFLAGS
    var rtcPer: u16             // RTC.PER
    var inputCtrlB: bv8         // TCD0.INPUTCTRLB
    var ctrlA: bv8              // TCD0.CTRLA
    var cmpbClr: u16            // TCD0.CMPBCLR

    function Snapshot(): Regs
      reads this
    {
      Regs(tcdIsrCount, tcdCaptureValue, first, intFlags, rtcPer, inputCtrlB, ctrlA, cmpbClr)
    }

    ghost predicate Valid()
      reads this
    {
      Consistent(Snapshot())
    }

    /** The globals' initialisers and the register values written by
        TCD_frequency_calibration before the first interrupt is served. */
    constructor ()
      ensures tcdIsrCount == 0 && tcdCaptureValue == 0 && first
      ensures intFlags == 0 && rtcPer == RTC_SYNC_PERIOD && inputCtrlB == TCD_INPUTMODE3_bm
      ensures ctrlA == TCD_ENABLE_bm | TCD_CLKSEL_EXTCLK_gc && cmpbClr == TCD_CMPBCLR_VALUE
      ensures Snapshot() == Initial() && Valid()
    {
      tcdIsrCount, tcdCaptureValue, first := 0, 0, true;
      intFlags := 0;
      cmpbClr := TCD_CMPBCLR_VALUE;
      inputCtrlB := TCD_INPUTMODE3_bm;
      rtcPer := RTC_SYNC_PERIOD;
      ctrlA := TCD_ENABLE_bm | TCD_CLKSEL_EXTCLK_gc;
    }

    /** ISR(TCD0_OVF_vect): count one more wrap of the 12-bit counter and
        acknowledge the overflow flag. */
    method OnOverflow()
      modifies this
      ensures tcdIsrCount as int == (old(tcdIsrCount) as int + 1) % U32_MODULUS
      ensures intFlags == Acknowledge(old(intFlags), TCD_OVF_bm)
      ensures tcdCaptureValue == old(tcdCaptureValue) && first == old(first)
      ensures rtcPer == old(rtcPer) && inputCtrlB == old(inputCtrlB)
      ensures ctrlA == old(ctrlA) && cmpbClr == old(cmpbClr)
      ensures Snapshot() == Overflow(old(Snapshot()))
      ensures old(Valid()) ==> Valid()
    {
      tcdIsrCount := Increment32(tcdIsrCount);
      intFlags := Acknowledge(intFlags, TCD_OVF_bm);
    }

    /** ISR(TCD0_TRIG_vect), given the value latched in TCD0.CAPTUREB: the
        first call discards the capture and switches to the one-second
        period; a later call keeps the final capture and stops the counter. */
    method OnTrigger(captureB: u16)
      modifies this
      ensures intFlags == Acknowledge(old(intFlags), TCD_TRIGB_bm)
      ensures tcdCaptureValue == captureB && !first && cmpbClr == old(cmpbClr)
      ensures old(first) ==>
        rtcPer == RTC_PERIOD_VALUE && inputCtrlB == 0 && tcdIsrCount == 0 && ctrlA == old(ctrlA)
      ensures !old(first) ==>
        ctrlA == 0 && tcdIsrCount == old(tcdIsrCount) &&
        rtcPer == old(rtcPer) && inputCtrlB == old(inputCtrlB)
      ensures Snapshot() == Trigger(old(Snapshot()), captureB)
      ensures old(Valid()) ==> Valid()
    {
      intFlags := Acknowledge(intFlags, TCD_TRIGB_bm);
      if first {
        tcdCaptureValue := captureB;
        rtcPer := RTC_PERIOD_VALUE;
        inputCtrlB := 0;
        tcdIsrCount := 0;
        first := false;
        return;
      }
      tcdCaptureValue := captureB;
      ctrlA := 0;
    }

    /** One hardware event: the counter sets the event's flag in INTFLAGS and
        the interrupt vector runs the matching handler. */
    method Interrupt(e: Event)
      modifies this
      ensures Snapshot() == Deliver(old(Snapshot()), e)
      ensures old(Valid()) ==> Valid()
    {
      intFlags := intFlags | Flag(e);
      ghost var raised := Snapshot();
      assert raised == old(Snapshot()).(intFlags := old(intFlags) | Flag(e));
      match e {
        case OverflowIrq => OnOverflow();
        case TriggerIrq(c) => OnTrigger(c);
      }
    }

    /** Serve a sequence of hardware events, one at a time. */
    method Serve(events: seq<Event>)
      modifies this
      ensures Snapshot() == Run(old(Snapshot()), events)
      ensures old(Valid()) ==> Valid()
    {
      var i := 0;
      while i < |events|
        invariant 0 <= i <= |events|
        invariant Snapshot() == Run(old(Snapshot()), events[..i])
        invariant old(Valid()) ==> Valid()
      {
        ghost var before := Snapshot();
        Interrupt(events[i]);
        RunAppend(old(Snapshot()), events[..i], [events[i]]);
        assert events[..i + 1] == events[..i] + [events[i]];
        assert Run(before, [events[i]]) == Deliver(before, events[i]);
        i := i + 1;
      }
      assert events[..i] == events;
    }
  }

  /** One calibration run driven through the handlers: k overflows, the
      first trigger (capture discarded), n overflows, the second trigger
      with capture c. Returns what a consumer reads once the counter is off,
      and the RTC period and input mode the alignment left behind. */
  method MeasureOnePeriod(k: nat, discarded: u16, n: nat, c: u16)
    returns (count: u32, capture: u16, total: nat, enabled: bool, rtcPer: u16, inputCtrlB: bv8)
    ensures count as int == n % U32_MODULUS && capture == c && !enabled
    ensures rtcPer == RTC_PERIOD_VALUE && inputCtrlB == 0
    ensures total == (n % U32_MODULUS) * TCD_WRAP_MODULUS + c as int
    ensures n < U32_MODULUS ==> total == n * TCD_WRAP_MODULUS + c as int
  {
    var m := new Tcd0Calibration();
    var i := 0;
    while i < k
      invariant 0 <= i <= k
      invariant m.first && m.Valid()
    {
      m.OnOverflow();
      i := i + 1;
    }
    m.OnTrigger(discarded);
    i := 0;
    while i < n
      invariant 0 <= i <= n
      invariant m.tcdIsrCount as int == i % U32_MODULUS
      invariant !m.first && m.Valid()
    {
      m.OnOverflow();
      ModIncrement32(i);
      i := i + 1;
    }
    m.OnTrigger(c);
    count, capture, total, enabled := m.tcdIsrCount, m.tcdCaptureValue, TotalCycles(m.Snapshot()), Enabled(m.Snapshot());
    rtcPer, inputCtrlB := m.rtcPer, m.inputCtrlB;
  }
}
