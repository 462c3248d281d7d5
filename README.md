# Analog_to_Servo in Dafny

This project models `Analog_to_Servo`, the header-only Arduino class that links
analog sensors (potentiometers, flex sensors, photo resistors) to standard
servos. The class keeps a fixed-capacity table of links in nine parallel arrays
and a cursor `current_first` that points at the next free slot. When a linked
sensor is read:

1. the pair's observed span `[a_MIN, a_MAX]` is widened to take in the sample
   (auto-calibration; at most one bound moves, and the maximum is checked first);
2. the sample is rescaled onto the pair's servo range with Arduino's integer
   `map`, whose division truncates toward zero as in C++;
3. the servo is commanded only when the new degree has moved at least `change`
   away from the last degree written (a hysteresis gate).

The project has two modules:

- `PairStep` (`pair_step.dfy`) holds the per-pair algorithm as pure functions.
  It has calibration, C++ truncating division, `map` as the source writes it
  and a guarded version of it, the gate, and `StepPair` for one pair and one
  sample. The lemmas about them are in the same module.
- `AnalogServo` (`registry.dfy`) holds the registry as a class over arrays.
  - `AnalogToServo` keeps the arrays in a `SlotArrays` bundle, with the
    capacity `pairs`, the cursor `currentFirst` and a log `writes` of servo
    commands.
  - Its methods (`Link`, `Init`, `FindSlot`, `ReadAndWrite`, `ReadAndWriteAll`)
    change those fields in place.
  - Each method is proved against the ghost view `Pairs()`, the slots read off
    the arrays as a sequence of `Pair` values.

Some things the model treats as outside inputs:

- **Sensor readings.** `analogRead` is hardware, so each sample is a parameter.
- **Servo commands.** `Servo::write` is a library call, so each command becomes
  an entry `ServoWrite(slot, degree)` appended to `writes`.
- **The delay.** `delay(d)` is a clock, so `d` is accepted and has no effect.

Behaviour of the code that is easy to get wrong, modelled as written:

- **`init` and the cursor.** `init` reallocates the arrays but does not reset
  `current_first` (`analogServo.h:84-97`). After an `init`, the next link can
  therefore fail, or the cursor can point past the new capacity. `Init` keeps
  the cursor, and `InitKeepsCursor` shows the consequence.
- **`read_and_write_all` visits every slot.** It loops over all `pairs` slots,
  not only the linked ones (`analogServo.h:200`). A never-linked slot holds
  zeros: analog pin 0, span `[0, 0]`, servo range `[0, 0]`, last value 0,
  change 0. Such a slot is stepped too. On a sample of 0 its span stays
  `[0, 0]`, and the source's `map` (`analogServo.h:213`) divides by zero; the
  model's guard answers `s_MIN`, which is 0 (`NeverLinkedZeroSpan`; see
  Findings). On any other sample its span opens and its degree is 0, the only
  value in its servo range `[0, 0]`.
- **The first sample of a default link.** A link made with only its two pins
  starts with `a_MIN = 1027` and `a_MAX = 0`. For a first sample `v` with
  `0 < v < 1027`:
  - only `a_MAX` moves, to `v`;
  - the span is `v - 1027`, which is negative and not zero;
  - the degree is therefore 180, not 0 (`FirstSampleOfDefaultPair`).

  Feeding the same sample again then hits the zero-span case
  (`DefaultPairSameSampleTwice`).
- **Idempotence.** Repeating a sample is guaranteed to give the same degree
  once `a_MIN <= a_MAX` (`RepeatedSampleSameDegree`). From a fresh default link
  it does not (`DefaultPairSameSampleTwice`).
- **`read_and_write` finds never-linked slots.** The search also runs over all
  `pairs` slots (`analogServo.h:147-155`), and a never-linked slot holds analog
  pin 0. Suppose no linked slot holds pin 0 and the cursor is below capacity.
  Then `read_and_write(0)` steps the first never-linked slot and writes its
  servo; it does not report the pin as not found
  (`UnlinkedPinZeroFindsFreeSlot`).
- **The servo range bounds every write.** For a nonzero span, whatever the
  sample, the degree lies between `s_MIN` and `s_MAX`. On a zero span the
  source divides by zero, and the bound comes from the model's guard, which
  gives `s_MIN` (see Findings). `StepPairDegreeInRange` proves the bound for
  the model in both cases. Each command that `ReadAndWrite` or
  `ReadAndWriteAll` appends is therefore in range for its slot.

## Model

| member | source | states |
|---|---|---|
| PairStep.Calibrate | analogServo.h:162-170 | Both bounds only widen, and at most one of them moves. The maximum moves exactly when the sample exceeds it. The minimum moves exactly when the sample is below it and not above the maximum. A moved bound equals the sample. Afterwards the sample is at most the maximum, and it lies inside the span when the span was proper. |
| PairStep.CalibrateInsideIsIdentity | analogServo.h:162-170 | A sample already inside a proper span leaves both bounds unchanged. |
| PairStep.CalibrateTwiceContains | analogServo.h:162-170 | Calibrating twice on the same sample, from any span including the inverted link defaults, leaves a span that contains the sample. |
| PairStep.TruncDivIsCpp | analogServo.h:173 | The division in `map` is C++ integer division: quotient times divisor plus remainder gives the dividend; the remainder is smaller than the divisor in magnitude and has the dividend's sign (rounding toward zero). |
| PairStep.TruncDiv | analogServo.h:173 | C++ `/` as `map` uses it. The quotient is 0 exactly when the dividend is smaller than the divisor in magnitude. A positive quotient means the operands have the same sign, and a negative one means they have opposite signs. |
| PairStep.MapDegreeEndpoints | analogServo.h:173 | `map` sends the observed minimum to `s_MIN` and the observed maximum to `s_MAX`, for an inverted span too. |
| PairStep.MapDegreeInRange | analogServo.h:173 | A sample inside a proper observed span maps to a degree between `s_MIN` and `s_MAX`, whichever way round the servo range is given. |
| PairStep.MapAsWritten | analogServo.h:173 | Arduino `map` exactly as called at lines 173 and 213, defined only for a nonzero span. The observed minimum maps to `s_MIN`, and a one-point servo range maps every sample to it. |
| PairStep.MapDegree | analogServo.h:173 | The rescale every step uses. A zero observed span gives `s_MIN`, and any other span gives `map` as written. |
| PairStep.GateExact | analogServo.h:175 | The write condition holds exactly when the threshold is not positive or the degree moved by at least the threshold. A threshold of 0 always writes. |
| PairStep.Gate | analogServo.h:175 | The write condition of lines 175 and 215. A threshold of 0 or less always opens it. An unchanged degree opens it exactly when the threshold is 0 or less. |
| PairStep.StepPair | analogServo.h:159-180 | One sample on one pair keeps the pins, servo range and threshold. The new span is the calibrated one and the degree is `map` over it. The servo is written exactly when the gate condition holds. `last_val` becomes the degree on a write and is otherwise unchanged. |
| PairStep.StepPairInRange | analogServo.h:162-180 | The special case of `StepPairDegreeInRange` where a proper span already holds the sample and the servo range is ordered: the step keeps the span, and the degree lies within `[s_MIN, s_MAX]`. |
| PairStep.StepPairDegreeInRange | analogServo.h:162-180 | On any pair and any sample, the degree lies between the two ends of the pair's servo range, whichever way round they are given. This covers steps that move a bound and the zero span. |
| PairStep.RepeatedSampleSameDegree | analogServo.h:162-180 | On a calibrated pair (`a_MIN <= a_MAX`), a second step on the same sample gives the same degree and leaves the pair exactly as the first step left it. It writes again exactly when the threshold is not positive. |
| PairStep.StepManyBounds | analogServo.h:162-170 | Over any run of samples the observed minimum never rises and the maximum never falls. Every sample seen is at most the final maximum. From a calibrated pair, every sample seen lies inside the final span. |
| PairStep.FirstSampleOfDefaultPair | analogServo.h:162-180 | A link made with only its pins (defaults from line 115), on a first sample `0 < v < 1027`: `a_MAX` becomes `v`, `a_MIN` stays 1027, degree 180 is written. |
| PairStep.DefaultPairSameSampleTwice | analogServo.h:162-180 | A default link fed the same `v` twice writes 180 and then 0. The second degree comes from the zero-span case. |
| PairStep.ZeroSampleOfDefaultPair | analogServo.h:162-173 | A default link fed 0 lowers `a_MIN` to 0, which equals `a_MAX`: the span is zero. The degree is the default `s_MIN` (0), and it is written. |
| PairStep.NeverLinkedZeroSpan | analogServo.h:203-213 | A never-linked slot (span `[0, 0]`) keeps a zero span exactly when its sample is 0, so the sweep's `map` call meets a zero divisor there. |
| PairStep.ZeroSpanReachable | analogServo.h:173 | A default link reaches `a_MIN == a_MAX == v` just before `map` is called. This happens on a first sample 0, or on a second sample equal to a first sample in 1..1026. In that state the source's `map` divides by zero. |
| AnalogServo.FirstMatch | analogServo.h:147-155 | The search answers the lowest index whose analog pin matches, and says "not found" exactly when no slot matches. |
| AnalogServo.WriteLog | analogServo.h:215-220 | The servo commands of a sweep, at most one per slot. |
| AnalogServo.SweepWritesInRange | analogServo.h:215-220 | Every command of a sweep names a slot and sends a degree inside that slot's servo range. |
| AnalogServo.WriteLogSound | analogServo.h:200-224 | Every servo command of a sweep belongs to a slot whose gate opened, and sends that slot's degree. Commands come in increasing slot order. |
| AnalogServo.WriteLogComplete | analogServo.h:200-224 | Every slot whose gate opened during a sweep appears in the command log with its degree. |
| AnalogServo.WriteLogAllWhenNoThreshold | analogServo.h:215-220 | When every slot's threshold is 0 or less, a sweep commands every slot's servo with its mapped degree, in slot order. |
| AnalogServo.SlotArrays.constructor | analogServo.h:54-62 | Eight fresh, distinct, zero-filled arrays of the requested capacity. |
| AnalogServo.AnalogToServo.constructor | analogServo.h:50-62 | A new registry has the requested capacity, every slot zero-filled, the cursor at 0 and no servo commands. |
| AnalogServo.AnalogToServo.Init | analogServo.h:84-97 | Reinitialising replaces the arrays with fresh zero-filled ones of the new capacity. It keeps the cursor and the command log. |
| AnalogServo.AnalogToServo.Link | analogServo.h:115-137 | Linking succeeds exactly when the cursor is below capacity, and on failure nothing changes. On success the slot at the cursor holds the given pins, bounds, servo range and threshold with `last_val = 0`. The other slots are untouched and the cursor advances by one. |
| AnalogServo.AnalogToServo.FindSlot | analogServo.h:147-155 | The scan returns the lowest slot, over the whole capacity, whose analog pin equals the pin. It returns none when no slot's analog pin equals it, and changes nothing. A never-linked slot holds pin 0. |
| AnalogServo.AnalogToServo.StepSlot | analogServo.h:159-180 | Only the given slot changes, and it becomes `StepPair` of its old value. The degree is returned, and the log grows by one command exactly when the gate opened. |
| AnalogServo.AnalogToServo.ReadAndWrite | analogServo.h:142-193 | A pin that no slot's analog pin equals gives `NotFound` and changes nothing. A never-linked slot holds pin 0. Otherwise the call steps the first matching slot and reports the pin, the sample, that slot's servo pin and the degree mapped. Any command it appends is in range for its slot. |
| AnalogServo.AnalogToServo.ReadAndWriteAll | analogServo.h:198-226 | A sweep steps every slot, linked or not, on its own sample. The new slots are the step results. The log grows by exactly the commands of the slots whose gates opened, in slot order, and each of them is in range for its slot. |
| AnalogServo.AnalogToServo.SweepSlot | analogServo.h:202-220 | One iteration of the sweep: if slots before `i` already hold their step results and the log holds their commands, then afterwards the same holds through slot `i`. |
| AnalogServo.LinkUntilFull | analogServo.h:115-137 | On a fresh registry, repeated links succeed exactly for the first `capacity` attempts. |
| AnalogServo.UnlinkedPinZeroFindsFreeSlot | analogServo.h:147-180 | Capacity 2, `link(5, 9)`, then `read_and_write(0)` on a sample of 300. The search stops at never-linked slot 1 (pin 0), which is stepped; the report is found, with servo pin 0 and degree 0, and servo 1 is written with degree 0. |
| AnalogServo.LinkedOnce | analogServo.h:115-137 | After constructing a capacity-2 registry and linking pin 5, slot 1 is still zero-filled. The search for pin 0 answers slot 1, and no servo has been commanded. |
| AnalogServo.FreeSlotStep | analogServo.h:162-180 | A never-linked slot sampled at 300 widens its span to `[0, 300]` and writes degree 0. |
| AnalogServo.InitKeepsCursor | analogServo.h:84-97 | Link twice into capacity 2, then reinitialise to capacity 1: the next link fails, because the cursor stays at 2. |

## Left out

- **Hardware calls.** These are outside the model.
  - `analogRead` is a sample parameter.
  - `Servo::attach` is not modelled, and neither is the array of `Servo` objects.
  - `Servo::write` is an entry in the `writes` log. Any clamping the Servo library applies to the degree is not part of this model.
  - `delay(d)` accepts `d` and does nothing.
- **The report string.** `read_and_write` builds its report by adding integers to string literals (pointer arithmetic in C++). `Report` keeps the values the report is meant to show, not the text.
- **Memory management.** `new[]`/`delete[]`, the destructor and `delete_arrays` are left out. `Init` leaves the old arrays to the garbage collector.
- **Integer width.** Arithmetic uses mathematical integers. The model does not capture the 16-bit `int` or 32-bit `long` overflow of the Arduino `map` product `(x - in_min) * (out_max - out_min)`, nor overflow of the gate bounds `last_val ± change`.
- **Negative capacity.** The capacity is a `nat`. A negative `num_pairs`, which makes C++ array `new` fail, is not modelled. Neither is the signed/unsigned comparison of the `unsigned int` loop counter with `pairs`.
- `SERVO_MAX`/`SERVO_MIN` are `#ifndef` macros a sketch may override (`analogServo.h:20-27`); the model fixes them at their defaults 180 and 0 (`ServoMax`, `ServoMin`).
- Arduino's `map` itself is not part of this model: its expression is restated here as `MapAsWritten`.
- PairStep.MapDegree: the zero-span guard, which returns `s_MIN`, is model behaviour. The source's `map` is undefined there. See Findings.

## Findings

| source | as written | input that shows it | evidently intended | confidence | as-written member | corrected member |
|---|---|---|---|---|---|---|
| analogServo.h:173 | `map(curr_val, a_MINS[pin], a_MAXS[pin], ...)` divides by `a_MAX - a_MIN` with no guard (the same call is at line 213). | A link with default bounds (1027, 0) read once with the value 0, or read twice with any value from 1 to 1026; or a never-linked slot swept by `read_and_write_all` on a sample of 0. The span is zero and `map` divides by zero. | A zero observed span maps to a defined degree inside the servo range. | not executed | PairStep.MapAsWritten, PairStep.ZeroSpanReachable, PairStep.NeverLinkedZeroSpan | PairStep.MapDegree, PairStep.StepPairDegreeInRange |
