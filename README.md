# TCD0 overflow/capture reconciliation of the ATtiny817 RTC frequency calibration

The application measures the frequency of a clock against a reference clock. The RTC runs from the
32.768 kHz crystal. The Event System routes the RTC's periodic event to TCD0, which captures its own
count into CAPTUREB. TCD0 is a 12-bit counter: `CMPBCLR = 0x0FFF` makes it wrap every 4096 cycles.
The overflow interrupt counts the wraps in `tcd_isr_count`. The trigger interrupt keeps the captured
remainder in `tcd_capture_value`. One RTC period therefore lasts
`tcd_isr_count * 2^12 + tcd_capture_value` cycles of the measured clock.

The first trigger is not trusted. It serves only to align the counter with the RTC. That trigger
discards its capture, resets the tally, moves `RTC.PER` from the short sync value `0x09` to the
one-second value `0x7fff`, and clears `TCD0.INPUTCTRLB`. The second trigger keeps its capture and
stops the counter (`TCD0.CTRLA = 0`). From then on the pair of counters is the result.

The project has two modules:

- `TcdCalibration` (`tcd_calibration.dfy`) is the value-level model. `Regs` holds the three globals,
  the registers the handlers touch (INTFLAGS, RTC.PER, INPUTCTRLB, CTRLA), and CMPBCLR. No handler
  touches CMPBCLR. Setup writes it once (main.c:156), and it fixes the wrap modulus.
  `Overflow` and `Trigger` are the two handlers. `Deliver` is one hardware event: the event's flag is
  set in INTFLAGS, then its handler runs. `Run` is a sequence of such events. AVR interrupts do not
  nest, so every interleaving of the two sources is one such sequence. The lemmas state what one
  handler does, which invariants hold over any event sequence, and what one measured period yields.
- `CalibrationIsr` (`calibration_isr.dfy`) is the imperative model. The class `Tcd0Calibration` has
  one field per global and register. The constructor is the state after setup. `OnOverflow` and
  `OnTrigger` are the interrupt handlers and update the fields in place. `Interrupt` and `Serve`
  dispatch hardware events to them. `MeasureOnePeriod` drives one full calibration through the
  handlers and returns what a consumer reads at the end.

Register encodings come from the device header, which is not part of this model:
`TCD_OVF_bm = 0x01`, `TCD_TRIGB_bm = 0x08`, `TCD_ENABLE_bm = 0x01`, `TCD_CLKSEL_EXTCLK_gc = 0x40`,
`TCD_INPUTMODE3_bm = 0x08`. The acknowledgement results depend on the two flag bits being
different. The phase results depend on `TCD_ENABLE_bm` being set in the CTRLA value written at
setup.
INTFLAGS is modelled as the pending-flag register it is in hardware: writing a mask clears the flags
set in the mask (`Acknowledge`).

Two consequences of the code itself:

- `tcd_isr_count` is a `uint32_t`, so `++` wraps modulo 2^32 (`Increment32`). The period results are
  stated modulo 2^32, and exactly for fewer than 2^32 overflows.
- Every trigger after the first takes the same branch (main.c:125-127): it captures again and writes
  `CTRLA = 0` again. `RepeatedTriggers` shows that repeating that branch with the same capture
  changes nothing. `FrozenAfterMeasurement` shows that nothing follows the second trigger, but only
  under the assumption that handlers are served only while the counter is enabled.
  `LateOverflowMovesTally` shows why that is an assumption: the trigger handler does not mask the
  overflow interrupt, so an overflow served after `CTRLA = 0` still changes the tally.

## Model

| member | source | states |
|---|---|---|
| `TcdCalibration.Initial` | RTCInternalFrequencyCalibration/main.c:99-177 | the state after setup: tally 0, capture 0, `first` set, no flag pending, the phase invariant holding (`RTC.PER = 0x09`, INPUTCTRLB in edge-trigger mode, counter enabled), and `CMPBCLR + 1` equal to 2^12, the modulus of the result formula |
| `TcdCalibration.Increment32` | RTCInternalFrequencyCalibration/main.c:108 | `tcd_isr_count++` on a `uint32_t` gives the old value plus one, modulo 2^32 |
| `TcdCalibration.Acknowledge` | RTCInternalFrequencyCalibration/main.c:109-114 | writing a mask to INTFLAGS leaves none of the mask's flags pending and keeps every other flag as it was |
| `TcdCalibration.AcknowledgeOwnFlagOnly` | RTCInternalFrequencyCalibration/main.c:109-114 | writing `TCD_OVF_bm` to INTFLAGS clears the overflow flag and keeps the trigger flag. Writing `TCD_TRIGB_bm` does the reverse. Both hold for any pending flags |
| `TcdCalibration.Overflow` | RTCInternalFrequencyCalibration/main.c:106-110 | the overflow handler adds one to the tally modulo 2^32, acknowledges the overflow flag (all of INTFLAGS is given), and changes no other field or register |
| `TcdCalibration.Trigger` | RTCInternalFrequencyCalibration/main.c:112-128 | the trigger handler always acknowledges the trigger flag (all of INTFLAGS is given), stores CAPTUREB and leaves `first` false. On the first trigger it sets `RTC.PER = 0x7fff` and `INPUTCTRLB = 0`, resets the tally and keeps CTRLA. On a later trigger it clears CTRLA and keeps the tally, RTC.PER and INPUTCTRLB |
| `TcdCalibration.TriggerIdempotent` | RTCInternalFrequencyCalibration/main.c:125-127 | once `first` is false, running the trigger handler twice with the same capture gives the same state as running it once |
| `TcdCalibration.Deliver` | RTCInternalFrequencyCalibration/main.c:106-128 | one event, served atomically: afterwards its own flag is not pending, every other flag is as before, and the phase invariant is kept. Before alignment the invariant means `RTC.PER = 0x09`, INPUTCTRLB in edge-trigger mode and the counter enabled. After alignment it means `RTC.PER = 0x7fff` and `INPUTCTRLB = 0`. In both phases `CMPBCLR = 0x0FFF` |
| `TcdCalibration.Run` | RTCInternalFrequencyCalibration/main.c:106-128 | any sequence of events, served one after another, keeps the phase invariant |
| `TcdCalibration.TotalCycles` | RTCInternalFrequencyCalibration/main.c:94-98 | `tcd_isr_count * 2^12 + tcd_capture_value` is at least the capture. When the capture is at most `0x0FFF`, dividing by 4096 gives back the tally and the remainder gives back the capture |
| `TcdCalibration.DisabledMeansAligned` | RTCInternalFrequencyCalibration/main.c:115-127 | in a consistent state, a disabled counter implies that the first trigger has been handled, so the state is terminal |
| `TcdCalibration.RunOverflows` | RTCInternalFrequencyCalibration/main.c:106-110 | n overflow events add n to the tally modulo 2^32, leave no overflow flag pending, keep the trigger flag, and change nothing else |
| `TcdCalibration.FirstTriggerDiscards` | RTCInternalFrequencyCalibration/main.c:115-123 | from any state that awaits alignment, k overflows and then a trigger give tally 0, `first` false, the discarded capture stored, `RTC.PER = 0x7fff`, `INPUTCTRLB = 0` and CTRLA unchanged, for every k |
| `TcdCalibration.MeasuredPeriod` | RTCInternalFrequencyCalibration/main.c:94-128 | from the setup state, k overflows, a trigger, n overflows and a trigger with capture c give tally n mod 2^32 and capture c, for every k and every discarded capture. The counter ends disabled in a consistent state. The total is `(n mod 2^32) * 4096 + c`, which is `n * 4096 + c` when n < 2^32 |
| `TcdCalibration.FirstNeverReturns` | RTCInternalFrequencyCalibration/main.c:104-121 | once `first` is false, no event sequence sets it again or changes `RTC.PER` or INPUTCTRLB |
| `TcdCalibration.OverflowsKeepSetup` | RTCInternalFrequencyCalibration/main.c:156-177 | before any trigger, overflows leave `first` set, `RTC.PER = 0x09`, INPUTCTRLB in edge-trigger mode and the counter enabled |
| `TcdCalibration.TriggerTwice` | RTCInternalFrequencyCalibration/main.c:112-127 | after alignment, a second trigger event with the same capture leaves the state as the first one left it, flags included |
| `TcdCalibration.RepeatedTriggers` | RTCInternalFrequencyCalibration/main.c:125-127 | after alignment, any positive number of trigger events with the same capture has the effect of one |
| `TcdCalibration.FrozenAfterMeasurement` | RTCInternalFrequencyCalibration/main.c:125-127 | assuming handlers are served only while the counter is enabled, the only event sequence possible after the measurement ends is the empty one |
| `TcdCalibration.LateOverflowMovesTally` | RTCInternalFrequencyCalibration/main.c:106-127 | after the measurement ends, an overflow that is still served changes the tally (plus one modulo 2^32), and the state stays terminal: clearing CTRLA does not stop the overflow handler |
| `TcdCalibration.FiveWrapsCapture100` | RTCInternalFrequencyCalibration/main.c:94-98 | 3 overflows, a trigger, 5 overflows and a trigger capturing 100 give 20580 cycles |
| `TcdCalibration.BackToBackTriggers` | RTCInternalFrequencyCalibration/main.c:94-98 | two back-to-back triggers give tally 0 and a total equal to the second capture |
| `TcdCalibration.SeventeenWrapsCapture50` | RTCInternalFrequencyCalibration/main.c:94-98 | a trigger, 17 overflows and a trigger capturing 50 give 69682 cycles |
| `CalibrationIsr.Tcd0Calibration.constructor` | RTCInternalFrequencyCalibration/main.c:99-177 | initial state: tally 0, capture 0, `first` true, no flags pending, `RTC.PER = 0x09`, INPUTCTRLB edge-trigger, CTRLA enabled with the external clock, `CMPBCLR = 0x0FFF`; it is the value `Initial()` and satisfies the invariant |
| `CalibrationIsr.Tcd0Calibration.OnOverflow` | RTCInternalFrequencyCalibration/main.c:106-110 | the new tally is the old one plus one modulo 2^32. The overflow flag is acknowledged. Every other field is unchanged. The new state is `Overflow` of the old, and the invariant is kept |
| `CalibrationIsr.Tcd0Calibration.OnTrigger` | RTCInternalFrequencyCalibration/main.c:112-128 | the trigger flag is acknowledged and the capture is stored in both branches. The first-call branch and the later-call branch each give the exact field values of `Trigger` applied to the old state, and the invariant is kept |
| `CalibrationIsr.Tcd0Calibration.Interrupt` | RTCInternalFrequencyCalibration/main.c:106-128 | raising an event's flag and running its handler gives `Deliver` of the old state and keeps the invariant |
| `CalibrationIsr.Tcd0Calibration.Serve` | RTCInternalFrequencyCalibration/main.c:106-128 | serving a sequence of events one at a time gives `Run` of the old state over the sequence and keeps the invariant |
| `CalibrationIsr.MeasureOnePeriod` | RTCInternalFrequencyCalibration/main.c:94-128 | calling the handlers for k overflows, the first trigger, n overflows and the second trigger with capture c reads back tally n mod 2^32 and capture c, with the counter disabled, `RTC.PER = 0x7fff` and `INPUTCTRLB = 0`. The total is `(n mod 2^32) * 4096 + c`, and `n * 4096 + c` when n < 2^32 |

## Left out

- Clock, Event System and RTC configuration (main.c:142-154, 165, 169): one-time register writes with no logic. Only the values the handlers read or overwrite appear, as the initial state.
- The busy-waits on `RTC.STATUS` and `CLKCTRL_MCLKSTATUS` (main.c:162-163, 173-174): they poll hardware, and whether they finish depends on the oscillator.
- `_PROTECTED_WRITE`, `sei()`, `volatile` and interrupt priority: each handler is one atomic step, and steps run in sequence. The code also has no interrupt before setup ends: the counter is enabled only at main.c:177.
- The TCD hardware itself (counting, wrapping at CMPBCLR, latching CAPTUREB, setting INTFLAGS) is not modelled. CAPTUREB is an input to the trigger handler. Setting a flag is only the first half of `Deliver`.
- `TotalCycles` uses the constant 2^12 from the code's comment. `Initial` ties that constant to `CMPBCLR + 1`.
- FrozenAfterMeasurement: the result is final only under an assumption (`Admissible`): handlers run only while the counter is enabled. The code does not ensure this. main.c:127 clears only CTRLA, and leaves INTCTRL (main.c:154) and INTFLAGS alone. An overflow flag raised just before the second trigger and served after it would still change the tally (`LateOverflowMovesTally`).
- The event model cannot show a flag that stays pending across other handlers: `Deliver` raises a flag and serves it in one step.
- The frequency or ppm computation is not in the code. The idle `while (1)` in `main` (main.c:185-186) is not modelled either.
