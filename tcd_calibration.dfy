/** Value-level model of the TCD0 overflow/capture reconciliation of the
    ATtiny817 RTC frequency calibration: the register and variable state the
    two interrupt handlers read and write, the handlers as functions on that
    state, and event sequences (one handler invocation per hardware event).
 */
module TcdCalibration {

  newtype u16 = x: int | 0 <= x < 0x1_0000
  newtype u32 = x: int | 0 <= x < 0x1_0000_0000

  const U32_MODULUS: int := 0x1_0000_0000

  // TCD0.INTFLAGS / TCD0.INTCTRL bits (device header values)
  const TCD_OVF_bm: bv8 := 0x01
  const TCD_TRIGB_bm: bv8 := 0x08
  // TCD0.CTRLA: enable bit and external clock source selection
  const TCD_ENABLE_bm: bv8 := 0x01
  const TCD_CLKSEL_EXTCLK_gc: bv8 := 0x40
  // TCD0.INPUTCTRLB: input mode 3 (edge trigger)
  const TCD_INPUTMODE3_bm: bv8 := 0x08

  /** Short RTC period written during setup, so that the first event comes early. */
  const RTC_SYNC_PERIOD: u16 := 0x09
  /** RTC period of one second with an accurate 32.768 kHz crystal. */
  const RTC_PERIOD_VALUE: u16 := 0x7fff
  /** TCD0.CMPBCLR: the counter counts 0 .. 0x0FFF and then wraps. */
  const TCD_CMPBCLR_VALUE: u16 := 0x0FFF
  /** 2^12: the number of TCD cycles between two overflows. */
  const TCD_WRAP_MODULUS: nat := 4096

  /** The globals, the registers the two interrupt handlers touch (INTFLAGS,
      RTC.PER, INPUTCTRLB, CTRLA), and CMPBCLR, which setup writes once and
      which fixes the wrap modulus. */
  datatype Regs = Regs(
    tcdIsrCount: u32,       // uint32_t tcd_isr_count
    tcdCaptureValue: u16,   // uint16_t tcd_capture_value
    first: bool,            // bool first
    intFlags: bv8,          // TCD0.INTFLAGS: pending interrupt flags
    rtcPer: u16,            // RTC.PER
    inputCtrlB: bv8,        // TCD0.INPUTCTRLB
    ctrlA: bv8,             // TCD0.CTRLA
    cmpbClr: u16            // TCD0.CMPBCLR
  )

  /** The state once TCD_frequency_calibration has finished its setup and
      before the first interrupt is served. */
  function Initial(): (r: Regs)
    ensures r.tcdIsrCount == 0 && r.tcdCaptureValue == 0 && r.first && r.intFlags == 0
    ensures Consistent(r) && Enabled(r)
    ensures r.cmpbClr as nat + 1 == TCD_WRAP_MODULUS
  {
    Regs(0, 0, true, 0, RTC_SYNC_PERIOD, TCD_INPUTMODE3_bm,
         TCD_ENABLE_bm | TCD_CLKSEL_EXTCLK_gc, TCD_CMPBCLR_VALUE)
  }

  /** The post-increment of a uint32_t: wraps to 0 after 2^32 - 1. */
  function Increment32(x: u32): (r: u32)
    ensures r as int == (x as int + 1) % U32_MODULUS
  {
    if x == 0xFFFF_FFFF then 0 else x + 1
  }

  /** Writing a mask to INTFLAGS clears the flags whose bits are set in the
      mask and leaves the others. */
  function Acknowledge(flags: bv8, mask: bv8): (r: bv8)
    ensures r & mask == 0
    ensures r | mask == flags | mask
  {
    flags & !mask
  }

  /** Each handler's acknowledgement clears its own flag and no other. */
  lemma AcknowledgeOwnFlagOnly(flags: bv8)
    ensures Acknowledge(flags, TCD_OVF_bm) & TCD_OVF_bm == 0
    ensures Acknowledge(flags, TCD_OVF_bm) & TCD_TRIGB_bm == flags & TCD_TRIGB_bm
    ensures Acknowledge(flags, TCD_TRIGB_bm) & TCD_TRIGB_bm == 0
    ensures Acknowledge(flags, TCD_TRIGB_bm) & TCD_OVF_bm == flags & TCD_OVF_bm
  {
  }

  predicate Enabled(s: Regs) {
    s.ctrlA & TCD_ENABLE_bm != 0
  }

  /** ISR(TCD0_OVF_vect): one more wrap counted, modulo 2^32, the overflow
      flag acknowledged, nothing else changed. */
  function Overflow(s: Regs): (r: Regs)
    ensures r.tcdIsrCount as int == (s.tcdIsrCount as int + 1) % U32_MODULUS
    ensures r.intFlags == Acknowledge(s.intFlags, TCD_OVF_bm)
    ensures r.(tcdIsrCount := s.tcdIsrCount, intFlags := s.intFlags) == s
  {
    s.(tcdIsrCount := Increment32(s.tcdIsrCount),
       intFlags := Acknowledge(s.intFlags, TCD_OVF_bm))
  }

  /** ISR(TCD0_TRIG_vect), with the value of TCD0.CAPTUREB at that moment. */
  function Trigger(s: Regs, captureB: u16): (r: Regs)
    ensures r.intFlags == Acknowledge(s.intFlags, TCD_TRIGB_bm)
    ensures r.tcdCaptureValue == captureB && !r.first && r.cmpbClr == s.cmpbClr
    ensures s.first ==>
      r.tcdIsrCount == 0 && r.rtcPer == RTC_PERIOD_VALUE && r.inputCtrlB == 0 && r.ctrlA == s.ctrlA
    ensures !s.first ==>
      r.tcdIsrCount == s.tcdIsrCount && r.ctrlA == 0 && r.rtcPer == s.rtcPer && r.inputCtrlB == s.inputCtrlB
  {
    var acked := s.(intFlags := Acknowledge(s.intFlags, TCD_TRIGB_bm));
    if s.first then
      acked.(tcdCaptureValue := captureB, rtcPer := RTC_PERIOD_VALUE,
             inputCtrlB := 0, tcdIsrCount := 0, first := false)
    else
      acked.(tcdCaptureValue := captureB, ctrlA := 0)
  }

  /** A hardware interrupt: the counter wrapped, or the RTC event made the
      counter capture its value into CAPTUREB. */
  datatype Event = OverflowIrq | TriggerIrq(captureB: u16)

  function Flag(e: Event): bv8 {
    match e
    case OverflowIrq => TCD_OVF_bm
    case TriggerIrq(_) => TCD_TRIGB_bm
  }

  /** The hardware raises the event's flag, then the handler for it runs to
      completion (handlers do not nest). */
  function Deliver(s: Regs, e: Event): (r: Regs)
    ensures r.intFlags & Flag(e) == 0
    ensures r.intFlags | Flag(e) == s.intFlags | Flag(e)
    ensures Consistent(s) ==> Consistent(r)
  {
    var raised := s.(intFlags := s.intFlags | Flag(e));
    match e
    case OverflowIrq => Overflow(raised)
    case TriggerIrq(c) => Trigger(raised, c)
  }

  /** Every state reached from a consistent state is consistent. */
  function Run(s: Regs, events: seq<Event>): (r: Regs)
    ensures Consistent(s) ==> Consistent(r)
    decreases |events|
  {
    if events == [] then s else Run(Deliver(s, events[0]), events[1..])
  }

  function Overflows(n: nat): (evs: seq<Event>)
    ensures |evs| == n
    ensures forall i :: 0 <= i < n ==> evs[i] == OverflowIrq
  {
    if n == 0 then [] else [OverflowIrq] + Overflows(n - 1)
  }

  function Triggers(captureB: u16, n: nat): (evs: seq<Event>)
    ensures |evs| == n
    ensures forall i :: 0 <= i < n ==> evs[i] == TriggerIrq(captureB)
  {
    if n == 0 then [] else [TriggerIrq(captureB)] + Triggers(captureB, n - 1)
  }

  /** Cycles counted in one RTC period: tcd_isr_count * 2^12 + tcd_capture_value. */
  function TotalCycles(s: Regs): (t: nat)
    ensures t >= s.tcdCaptureValue as nat
    ensures s.tcdCaptureValue <= TCD_CMPBCLR_VALUE ==>
      t / TCD_WRAP_MODULUS == s.tcdIsrCount as int && t % TCD_WRAP_MODULUS == s.tcdCaptureValue as int
  {
    s.tcdIsrCount as nat * TCD_WRAP_MODULUS + s.tcdCaptureValue as nat
  }

  /** What holds of every state the handlers can reach from Initial(): while
      waiting for alignment the setup values are in place and the counter
      runs; afterwards the one-second period is set and the input mode is
      cleared, for good. */
  predicate Consistent(s: Regs) {
    s.cmpbClr == TCD_CMPBCLR_VALUE &&
    (s.first ==> s.rtcPer == RTC_SYNC_PERIOD && s.inputCtrlB == TCD_INPUTMODE3_bm &&
                 s.ctrlA == TCD_ENABLE_bm | TCD_CLKSEL_EXTCLK_gc) &&
    (!s.first ==> s.rtcPer == RTC_PERIOD_VALUE && s.inputCtrlB == 0)
  }

  /** The measurement is over: the second trigger has disabled the counter. */
  predicate Terminal(s: Regs) {
    !s.first && !Enabled(s)
  }

  /** Handlers are served only while the counter is enabled. This is an
      assumption about the hardware, not something the handlers ensure. */
  predicate Admissible(s: Regs, events: seq<Event>)
    decreases |events|
  {
    events == [] || (Enabled(s) && Admissible(Deliver(s, events[0]), events[1..]))
  }

  // ---------------------------------------------------------------------
  // One handler invocation

  /** Once aligned, the trigger handler is idempotent. */
  lemma TriggerIdempotent(s: Regs, captureB: u16)
    requires !s.first
    ensures Trigger(Trigger(s, captureB), captureB) == Trigger(s, captureB)
  {
  }

  /** A disabled counter means the first trigger has been served. */
  lemma DisabledMeansAligned(s: Regs)
    requires Consistent(s) && !Enabled(s)
    ensures !s.first && Terminal(s)
  {
  }

  // ---------------------------------------------------------------------
  // Event sequences

  lemma {:induction false} RunAppend(s: Regs, a: seq<Event>, b: seq<Event>)
    ensures Run(s, a + b) == Run(Run(s, a), b)
    decreases |a|
  {
    if a != [] {
      assert (a + b)[0] == a[0];
      assert (a + b)[1..] == a[1..] + b;
      RunAppend(Deliver(s, a[0]), a[1..], b);
    } else {
      assert a + b == b;
    }
  }

  /** n overflows add n to the tally, modulo 2^32, leave no overflow flag
      pending, leave a pending trigger flag alone, and change nothing else. */
  lemma {:induction false} RunOverflows(s: Regs, n: nat)
    ensures Run(s, Overflows(n)).tcdIsrCount as int == (s.tcdIsrCount as int + n) % U32_MODULUS
    ensures n > 0 ==> Run(s, Overflows(n)).intFlags & TCD_OVF_bm == 0
    ensures Run(s, Overflows(n)).intFlags & TCD_TRIGB_bm == s.intFlags & TCD_TRIGB_bm
    ensures Run(s, Overflows(n)).(tcdIsrCount := s.tcdIsrCount, intFlags := s.intFlags) == s
    decreases n
  {
    if n > 0 {
      var t := Deliver(s, OverflowIrq);
      assert Overflows(n)[0] == OverflowIrq && Overflows(n)[1..] == Overflows(n - 1);
      RunOverflows(t, n - 1);
      assert t.tcdIsrCount as int == (s.tcdIsrCount as int + 1) % U32_MODULUS;
      if s.tcdIsrCount as int + 1 == U32_MODULUS {
        ModShift32(s.tcdIsrCount as int + n - U32_MODULUS);
      }
    }
  }

  /** Adding 2^32 does not change a value modulo 2^32. */
  lemma ModShift32(x: int)
    ensures (x + U32_MODULUS) % U32_MODULUS == x % U32_MODULUS
  {
  }

  /** Counting one more, modulo 2^32. */
  lemma ModIncrement32(i: int)
    ensures (i % U32_MODULUS + 1) % U32_MODULUS == (i + 1) % U32_MODULUS
  {
    if i % U32_MODULUS + 1 == U32_MODULUS {
      ModShift32(i + 1 - U32_MODULUS);
    }
  }

  /** The first trigger discards everything counted before it, however many
      overflows came before it. */
  lemma {:induction false} FirstTriggerDiscards(s: Regs, k: nat, discarded: u16)
    requires s.first
    ensures Run(s, Overflows(k) + [TriggerIrq(discarded)]).tcdIsrCount == 0
    ensures !Run(s, Overflows(k) + [TriggerIrq(discarded)]).first
    ensures Run(s, Overflows(k) + [TriggerIrq(discarded)]).tcdCaptureValue == discarded
    ensures Run(s, Overflows(k) + [TriggerIrq(discarded)]).rtcPer == RTC_PERIOD_VALUE
    ensures Run(s, Overflows(k) + [TriggerIrq(discarded)]).inputCtrlB == 0
    ensures Run(s, Overflows(k) + [TriggerIrq(discarded)]).ctrlA == s.ctrlA
  {
    RunAppend(s, Overflows(k), [TriggerIrq(discarded)]);
    RunOverflows(s, k);
    var t := Run(s, Overflows(k));
    assert Run(t, [TriggerIrq(discarded)]) == Deliver(t, TriggerIrq(discarded));
  }

  /** k overflows, the first trigger, n overflows and the second trigger with
      capture c leave tally n (mod 2^32) and capture c, whatever k and the
      discarded capture were, and the counter disabled. */
  lemma {:induction false} MeasuredPeriod(k: nat, discarded: u16, n: nat, c: u16)
    ensures Run(Initial(), Overflows(k) + [TriggerIrq(discarded)] + Overflows(n) + [TriggerIrq(c)]).tcdIsrCount as int
            == n % U32_MODULUS
    ensures Run(Initial(), Overflows(k) + [TriggerIrq(discarded)] + Overflows(n) + [TriggerIrq(c)]).tcdCaptureValue == c
    ensures Terminal(Run(Initial(), Overflows(k) + [TriggerIrq(discarded)] + Overflows(n) + [TriggerIrq(c)]))
    ensures Consistent(Run(Initial(), Overflows(k) + [TriggerIrq(discarded)] + Overflows(n) + [TriggerIrq(c)]))
    ensures TotalCycles(Run(Initial(), Overflows(k) + [TriggerIrq(discarded)] + Overflows(n) + [TriggerIrq(c)]))
            == (n % U32_MODULUS) * TCD_WRAP_MODULUS + c as int
    ensures n < U32_MODULUS ==>
      TotalCycles(Run(Initial(), Overflows(k) + [TriggerIrq(discarded)] + Overflows(n) + [TriggerIrq(c)]))
      == n * TCD_WRAP_MODULUS + c as int
  {
    var head := Overflows(k) + [TriggerIrq(discarded)];
    var evs := head + Overflows(n) + [TriggerIrq(c)];
    RunAppend(Initial(), head + Overflows(n), [TriggerIrq(c)]);
    RunAppend(Initial(), head, Overflows(n));
    FirstTriggerDiscards(Initial(), k, discarded);
    var aligned := Run(Initial(), head);
    RunOverflows(aligned, n);
    var before := Run(aligned, Overflows(n));
    assert Run(before, [TriggerIrq(c)]) == Deliver(before, TriggerIrq(c));
    assert Run(Initial(), evs) == Deliver(before, TriggerIrq(c));
  }

  /** first only ever goes from true to false. */
  lemma {:induction false} FirstNeverReturns(s: Regs, events: seq<Event>)
    requires !s.first
    ensures !Run(s, events).first
    ensures Run(s, events).rtcPer == s.rtcPer && Run(s, events).inputCtrlB == s.inputCtrlB
    decreases |events|
  {
    if events != [] {
      FirstNeverReturns(Deliver(s, events[0]), events[1..]);
    }
  }

  /** Before any trigger, the setup values of RTC.PER, INPUTCTRLB and CTRLA
      stay in place. */
  lemma {:induction false} OverflowsKeepSetup(n: nat)
    ensures Run(Initial(), Overflows(n)).first
    ensures Run(Initial(), Overflows(n)).rtcPer == RTC_SYNC_PERIOD
    ensures Run(Initial(), Overflows(n)).inputCtrlB == TCD_INPUTMODE3_bm
    ensures Enabled(Run(Initial(), Overflows(n)))
  {
    RunOverflows(Initial(), n);
  }

  /** After alignment, a second delivery of the same trigger changes nothing. */
  lemma TriggerTwice(s: Regs, captureB: u16)
    requires !s.first
    ensures Deliver(Deliver(s, TriggerIrq(captureB)), TriggerIrq(captureB)) == Deliver(s, TriggerIrq(captureB))
  {
    var t := Deliver(s, TriggerIrq(captureB));
    assert t.intFlags == s.intFlags & !TCD_TRIGB_bm;
    assert (t.intFlags | TCD_TRIGB_bm) & !TCD_TRIGB_bm == t.intFlags;
  }

  /** After alignment, any number of triggers with the same capture act as one. */
  lemma {:induction false} RepeatedTriggers(s: Regs, captureB: u16, n: nat)
    requires !s.first && n > 0
    ensures Run(s, Triggers(captureB, n)) == Deliver(s, TriggerIrq(captureB))
    decreases n
  {
    var t := Deliver(s, TriggerIrq(captureB));
    assert Triggers(captureB, n) == [TriggerIrq(captureB)] + Triggers(captureB, n - 1);
    assert Run(s, Triggers(captureB, n)) == Run(t, Triggers(captureB, n - 1));
    if n > 1 {
      RepeatedTriggers(t, captureB, n - 1);
      TriggerTwice(s, captureB);
    }
  }

  /** If handlers are served only while the counter is enabled, nothing can
      follow the second trigger and the pair (tcd_isr_count, tcd_capture_value)
      stays as it is. */
  lemma FrozenAfterMeasurement(s: Regs, events: seq<Event>)
    requires Terminal(s) && Admissible(s, events)
    ensures events == [] && Run(s, events) == s
  {
  }

  /** Nothing in the trigger handler masks the overflow interrupt: an overflow
      flag raised before CTRLA was cleared and served afterwards still moves
      the tally of a finished measurement. */
  lemma LateOverflowMovesTally(s: Regs)
    requires Terminal(s)
    ensures Run(s, [OverflowIrq]).tcdIsrCount != s.tcdIsrCount
    ensures Run(s, [OverflowIrq]).tcdIsrCount as int == (s.tcdIsrCount as int + 1) % U32_MODULUS
    ensures Terminal(Run(s, [OverflowIrq]))
  {
    assert Run(s, [OverflowIrq]) == Deliver(s, OverflowIrq);
  }

  // ---------------------------------------------------------------------
  // Three worked measurements

  /** 3 wraps before alignment, 5 in the period, final capture 100. */
  lemma FiveWrapsCapture100(discarded: u16)
    ensures TotalCycles(Run(Initial(), Overflows(3) + [TriggerIrq(discarded)] + Overflows(5) + [TriggerIrq(100)]))
            == 20580
  {
    MeasuredPeriod(3, discarded, 5, 100);
  }

  /** Two back-to-back triggers: the total is the second capture. */
  lemma BackToBackTriggers(discarded: u16, c: u16)
    ensures Run(Initial(), [TriggerIrq(discarded), TriggerIrq(c)]).tcdIsrCount == 0
    ensures TotalCycles(Run(Initial(), [TriggerIrq(discarded), TriggerIrq(c)])) == c as nat
  {
    MeasuredPeriod(0, discarded, 0, c);
    assert Overflows(0) + [TriggerIrq(discarded)] + Overflows(0) + [TriggerIrq(c)]
        == [TriggerIrq(discarded), TriggerIrq(c)];
  }

  /** 17 wraps in the period, final capture 50. */
  lemma SeventeenWrapsCapture50(discarded: u16)
    ensures TotalCycles(Run(Initial(), [TriggerIrq(discarded)] + Overflows(17) + [TriggerIrq(50)]))
            == 69682
  {
    MeasuredPeriod(0, discarded, 17, 50);
    assert Overflows(0) + [TriggerIrq(discarded)] == [TriggerIrq(discarded)];
  }
}
