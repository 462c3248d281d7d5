/// The pair registry `Analog_to_Servo`: a fixed-capacity table of
/// sensor-to-servo links kept in parallel arrays, with a cursor on the next
/// free slot.  Reading a sensor is an injected sample; commanding a servo
/// appends a `ServoWrite` to the `writes` log.
module AnalogServo {
  import opened PairStep

  datatype Option<T> = None | Some(value: T)

  /// One servo command: the slot whose servo is written and the degree sent.
  datatype ServoWrite = ServoWrite(slot: nat, degree: int)

  /// What `read_and_write` reports: the pin was not linked, or the sample
  /// read, the servo pin of the pair, and the degree mapped (written or not).
  datatype Report =
    | NotFound
    | Reported(analogPin: int, value: int, servoPin: int, degree: int)

  /// The slots of the registry, read off the parallel arrays.
  ghost function Zip(ap: seq<int>, sp: seq<int>, lo: seq<int>, hi: seq<int>,
                     smin: seq<int>, smax: seq<int>, last: seq<int>, cge: seq<int>): (ps: seq<Pair>)
    requires |sp| == |lo| == |hi| == |smin| == |smax| == |last| == |cge| == |ap|
    ensures |ps| == |ap|
  {
    seq(|ap|, i requires 0 <= i < |ap| =>
      Pair(ap[i], sp[i], lo[i], hi[i], smin[i], smax[i], last[i], cge[i]))
  }

  /// A registry of `n` never-linked slots.
  ghost function Zeros(n: nat): (ps: seq<Pair>)
    ensures |ps| == n
  {
    seq(n, _ => ZeroPair)
  }

  /// Eight zero-filled arrays of length `n` hold `n` never-linked slots.
  lemma ZipZeros(n: nat, ap: seq<int>, sp: seq<int>, lo: seq<int>, hi: seq<int>,
                 smin: seq<int>, smax: seq<int>, last: seq<int>, cge: seq<int>)
    requires |ap| == |sp| == |lo| == |hi| == |smin| == |smax| == |last| == |cge| == n
    requires forall j :: 0 <= j < n ==> ap[j] == 0 && sp[j] == 0 && lo[j] == 0 && hi[j] == 0
    requires forall j :: 0 <= j < n ==> smin[j] == 0 && smax[j] == 0 && last[j] == 0 && cge[j] == 0
    ensures Zip(ap, sp, lo, hi, smin, smax, last, cge) == Zeros(n)
  {
  }

  // ---------------------------------------------------------------------------
  // Search
  // ---------------------------------------------------------------------------

  /// The lowest index holding `pin`, if any.
  function FirstMatch(pins: seq<int>, pin: int): (r: Option<nat>)
    ensures r.Some? ==> r.value < |pins| && pins[r.value] == pin
    ensures r.Some? ==> forall j :: 0 <= j < r.value ==> pins[j] != pin
    ensures r.None? <==> forall j :: 0 <= j < |pins| ==> pins[j] != pin
  {
    if |pins| == 0 then None
    else if pins[0] == pin then Some(0)
    else match FirstMatch(pins[1..], pin)
      case None => None
      case Some(k) => Some(k + 1)
  }

  // ---------------------------------------------------------------------------
  // Processing every slot
  // ---------------------------------------------------------------------------

  /// The per-pair step applied to every slot, slot `i` on sample `vs[i]`.
  ghost function StepAll(ps: seq<Pair>, vs: seq<int>): (outs: seq<StepOutcome>)
    requires |ps| == |vs|
  {
    seq(|ps|, i requires 0 <= i < |ps| => StepPair(ps[i], vs[i]))
  }

  /// The pairs the steps leave behind.
  ghost function Nexts(outs: seq<StepOutcome>): (ps: seq<Pair>)
    ensures |ps| == |outs|
  {
    seq(|outs|, i requires 0 <= i < |outs| => outs[i].next)
  }

  /// The servo commands the steps issue, in slot order.
  function WriteLog(outs: seq<StepOutcome>): (log: seq<ServoWrite>)
    ensures |log| <= |outs|
  {
    if |outs| == 0 then []
    else
      var k := |outs| - 1;
      WriteLog(outs[..k]) + (if outs[k].wrote then [ServoWrite(k, outs[k].degree)] else [])
  }

  /// Every command in the log belongs to a slot whose step wrote, carries
  /// that step's degree, and the slots appear in strictly increasing order
  /// (so each slot is commanded at most once per sweep).
  lemma {:induction false} WriteLogSound(outs: seq<StepOutcome>)
    ensures forall w :: w in WriteLog(outs) ==>
              w.slot < |outs| && outs[w.slot].wrote && w.degree == outs[w.slot].degree
    ensures forall a, b :: 0 <= a < b < |WriteLog(outs)| ==>
              WriteLog(outs)[a].slot < WriteLog(outs)[b].slot
  {
    if |outs| > 0 {
      var k := |outs| - 1;
      WriteLogSound(outs[..k]);
      var prev := WriteLog(outs[..k]);
      assert forall w :: w in prev ==> w.slot < k;
      forall w | w in prev ensures outs[w.slot] == outs[..k][w.slot] { }
    }
  }

  /// Every slot whose step wrote is in the log.
  lemma {:induction false} WriteLogComplete(outs: seq<StepOutcome>, j: nat)
    requires j < |outs| && outs[j].wrote
    ensures ServoWrite(j, outs[j].degree) in WriteLog(outs)
  {
    var k := |outs| - 1;
    if j < k {
      WriteLogComplete(outs[..k], j);
    }
  }

  /// With every threshold at zero or below, a sweep commands every slot,
  /// in order, with its mapped degree.
  lemma {:induction false} WriteLogAllWhenNoThreshold(ps: seq<Pair>, vs: seq<int>)
    requires |ps| == |vs|
    requires forall i :: 0 <= i < |ps| ==> ps[i].change <= 0
    ensures var outs := StepAll(ps, vs);
            WriteLog(outs) == seq(|ps|, i requires 0 <= i < |ps| => ServoWrite(i, outs[i].degree))
  {
    if |ps| > 0 {
      var k := |ps| - 1;
      WriteLogAllWhenNoThreshold(ps[..k], vs[..k]);
      var outs := StepAll(ps, vs);
      assert StepAll(ps[..k], vs[..k]) == outs[..k];
      GateExact(outs[k].degree, ps[k].lastVal, ps[k].change);
    }
  }

  /// Every command in `log` names a slot of `ps` and sends a degree inside
  /// that slot's servo range.
  predicate LogInRange(log: seq<ServoWrite>, ps: seq<Pair>) {
    forall w :: w in log ==> w.slot < |ps| && InServoRange(ps[w.slot], w.degree)
  }

  /// Every command of a sweep sends a degree inside the servo range of the
  /// slot it commands.
  lemma SweepWritesInRange(ps: seq<Pair>, vs: seq<int>)
    requires |ps| == |vs|
    ensures LogInRange(WriteLog(StepAll(ps, vs)), ps)
  {
    var outs := StepAll(ps, vs);
    WriteLogSound(outs);
    forall w | w in WriteLog(outs) ensures InServoRange(ps[w.slot], w.degree) {
      StepPairDegreeInRange(ps[w.slot], vs[w.slot]);
    }
  }

  /// The commands a sweep appends to a log are in range for their slots.
  lemma SweepTailInRange(prefix: seq<ServoWrite>, ps: seq<Pair>, vs: seq<int>, all: seq<ServoWrite>)
    requires |ps| == |vs| && all == prefix + WriteLog(StepAll(ps, vs))
    ensures |all| >= |prefix| && LogInRange(all[|prefix|..], ps)
  {
    var log := WriteLog(StepAll(ps, vs));
    assert all[|prefix|..] == log;
    SweepWritesInRange(ps, vs);
  }

  /// One iteration of the sweep on values: slot `i` still holds its old
  /// pair, and stepping it extends both the done prefix and the log.
  lemma SweepStep(before: seq<Pair>, vs: seq<int>, i: nat, cur: seq<Pair>,
                  w0: seq<ServoWrite>, log: seq<ServoWrite>)
    requires |before| == |vs| && i < |before|
    requires cur == Nexts(StepAll(before, vs))[..i] + before[i..]
    requires log == w0 + WriteLog(StepAll(before, vs)[..i])
    ensures cur[i] == before[i]
    ensures var outs := StepAll(before, vs);
            && cur[i := outs[i].next] == Nexts(outs)[..i + 1] + before[i + 1..]
            && log + (if outs[i].wrote then [ServoWrite(i, outs[i].degree)] else []) ==
               w0 + WriteLog(outs[..i + 1])
  {
    var outs := StepAll(before, vs);
    assert outs[..i + 1][..i] == outs[..i];
    PrefixStep(Nexts(outs), before, i);
  }

  /// Helper for the sweep: replacing slot `i` of "first `i` done, rest as
  /// before" with its new value gives "first `i + 1` done".
  lemma PrefixStep(done: seq<Pair>, before: seq<Pair>, i: nat)
    requires |done| == |before| && i < |done|
    ensures (done[..i] + before[i..])[i := done[i]] == done[..i + 1] + before[i + 1..]
  {
  }

  // ---------------------------------------------------------------------------
  // Storage
  // ---------------------------------------------------------------------------

  /// No two of the eight parallel arrays are the same array.
  predicate Distinct(ap: array<int>, sp: array<int>, lo: array<int>, hi: array<int>,
                     smin: array<int>, smax: array<int>, last: array<int>, cge: array<int>)
  {
    && ap != sp && ap != lo && ap != hi && ap != smin && ap != smax && ap != last && ap != cge
    && sp != lo && sp != hi && sp != smin && sp != smax && sp != last && sp != cge
    && lo != hi && lo != smin && lo != smax && lo != last && lo != cge
    && hi != smin && hi != smax && hi != last && hi != cge
    && smin != smax && smin != last && smin != cge
    && smax != last && smax != cge
    && last != cge
  }

  /// The parallel arrays of one allocation (`new int[pairs]()` for each),
  /// all of length `size`.  The registry replaces the whole set on `init`.
  class SlotArrays {
    const size: nat
    const analogPins: array<int>  // pin each sensor is read from
    const servoPins: array<int>   // pin each servo is attached to
    const aMins: array<int>       // observed minimum per pair
    const aMaxs: array<int>       // observed maximum per pair
    const sMins: array<int>       // lowest servo degree per pair
    const sMaxs: array<int>       // highest servo degree per pair
    const lastVal: array<int>     // last degree written per pair
    const change: array<int>      // hysteresis threshold per pair
    ghost const Repr: set<object>

    /// Every array has one entry per slot and no two arrays are the same.
    ghost predicate Valid() {
      && Repr == {analogPins, servoPins, aMins, aMaxs, sMins, sMaxs, lastVal, change}
      && analogPins.Length == size && servoPins.Length == size
      && aMins.Length == size && aMaxs.Length == size
      && sMins.Length == size && sMaxs.Length == size
      && lastVal.Length == size && change.Length == size
      && Distinct(analogPins, servoPins, aMins, aMaxs, sMins, sMaxs, lastVal, change)
    }

    /// The slots, slot `i` being what the arrays hold at index `i`.
    ghost function Contents(): (ps: seq<Pair>)
      requires Valid()
      reads Repr
      ensures |ps| == size
    {
      Zip(analogPins[..], servoPins[..], aMins[..], aMaxs[..],
          sMins[..], sMaxs[..], lastVal[..], change[..])
    }

    /// Allocates `n` zero-filled slots.
    constructor (n: nat)
      ensures Valid() && fresh(Repr) && size == n && Contents() == Zeros(n)
    {
      size := n;
      analogPins := new int[n](_ => 0);
      servoPins := new int[n](_ => 0);
      aMins := new int[n](_ => 0);
      aMaxs := new int[n](_ => 0);
      sMins := new int[n](_ => 0);
      sMaxs := new int[n](_ => 0);
      lastVal := new int[n](_ => 0);
      change := new int[n](_ => 0);
      Repr := {analogPins, servoPins, aMins, aMaxs, sMins, sMaxs, lastVal, change};
      new;
      ZipZeros(n, analogPins[..], servoPins[..], aMins[..], aMaxs[..],
               sMins[..], sMaxs[..], lastVal[..], change[..]);
    }
  }

  // ---------------------------------------------------------------------------
  // The registry
  // ---------------------------------------------------------------------------

  class AnalogToServo {
    var slots: SlotArrays        // the parallel arrays
    var pairs: nat               // capacity
    var currentFirst: nat        // next free slot
    var writes: seq<ServoWrite>  // servo commands issued so far

    /// The object invariant: one array entry per slot of capacity.
    ghost predicate Valid()
      reads this`slots, this`pairs
    {
      slots.Valid() && slots.size == pairs
    }

    /// The slots of the registry.
    ghost function Pairs(): (ps: seq<Pair>)
      requires Valid()
      reads this`slots, this`pairs, slots.Repr
      ensures |ps| == pairs
    {
      slots.Contents()
    }

    /// Creates a registry of `numPairs` zero-filled slots with the cursor at 0.
    constructor (numPairs: nat)
      ensures Valid() && fresh(slots) && fresh(slots.Repr)
      ensures pairs == numPairs && currentFirst == 0
      ensures Pairs() == Zeros(numPairs) && writes == []
    {
      slots := new SlotArrays(numPairs);
      pairs := numPairs;
      currentFirst := 0;
      writes := [];
    }

    /// Replaces every array by a zero-filled one of length `numPairs`.  The
    /// cursor is NOT reset, so after shrinking it may exceed the capacity.
    method Init(numPairs: nat)
      modifies this`slots, this`pairs
      ensures Valid() && fresh(slots) && fresh(slots.Repr)
      ensures pairs == numPairs && Pairs() == Zeros(numPairs)
      ensures currentFirst == old(currentFirst) && writes == old(writes)
    {
      slots := new SlotArrays(numPairs);
      pairs := numPairs;
    }

    /// Stores a new pair in the next free slot and moves the cursor on; when
    /// the cursor has reached the capacity, fails and changes nothing.
    method Link(aPin: int, servPin: int, min: int := DefaultAnalogMin, max: int := DefaultAnalogMax,
                sMin: int := ServoMin, sMax: int := ServoMax, cge: int := 0)
      returns (ok: bool)
      requires Valid()
      modifies this`currentFirst, slots.Repr
      ensures Valid()
      ensures ok <==> old(currentFirst) < pairs
      ensures !ok ==> currentFirst == old(currentFirst) && unchanged(slots.Repr)
      ensures ok ==> currentFirst == old(currentFirst) + 1
      ensures ok ==> Pairs() == old(Pairs())[old(currentFirst) := Pair(aPin, servPin, min, max, sMin, sMax, 0, cge)]
      ensures old(currentFirst) <= pairs ==> currentFirst <= pairs
    {
      if currentFirst >= pairs {
        return false;
      }
      var s := slots;
      s.analogPins[currentFirst] := aPin;
      s.servoPins[currentFirst] := servPin;
      s.aMins[currentFirst] := min;
      s.aMaxs[currentFirst] := max;
      s.sMins[currentFirst] := sMin;
      s.sMaxs[currentFirst] := sMax;
      s.lastVal[currentFirst] := 0;
      s.change[currentFirst] := cge;
      currentFirst := currentFirst + 1;
      return true;
    }

    /// The search loop of `read_and_write`: the lowest slot, across the whole
    /// capacity, whose analog pin is `aPin`.
    method FindSlot(aPin: int) returns (slot: Option<nat>)
      requires Valid()
      ensures slot == FirstMatch(slots.analogPins[..], aPin)
    {
      var pins := slots.analogPins;
      var i := 0;
      while i < pairs
        invariant 0 <= i <= pairs
        invariant forall j :: 0 <= j < i ==> pins[j] != aPin
      {
        if pins[i] == aPin {
          return Some(i);
        }
        i := i + 1;
      }
      return None;
    }

    /// One pair's step on sample `v`: calibrate, map, and command the servo
    /// when the hysteresis gate lets the degree through.
    method StepSlot(i: nat, v: int) returns (degree: int)
      requires Valid() && i < pairs
      modifies this`writes, slots.aMins, slots.aMaxs, slots.lastVal
      ensures var o := StepPair(old(Pairs())[i], v);
              && Pairs() == old(Pairs())[i := o.next]
              && degree == o.degree
              && writes == old(writes) + (if o.wrote then [ServoWrite(i, o.degree)] else [])
    {
      var s := slots;
      ghost var o := StepPair(Pairs()[i], v);
      if v > s.aMaxs[i] {
        s.aMaxs[i] := v;
      } else if v < s.aMins[i] {
        s.aMins[i] := v;
      }
      degree := MapDegree(v, s.aMins[i], s.aMaxs[i], s.sMins[i], s.sMaxs[i]);
      if degree >= s.lastVal[i] + s.change[i] || degree <= s.lastVal[i] - s.change[i] {
        s.lastVal[i] := degree;
        writes := writes + [ServoWrite(i, degree)];
      }
      assert Pairs()[i] == o.next;
    }

    /// Processes the first pair linked to `aPin` on sample `sample`; when no
    /// slot holds `aPin`, reports it and changes nothing.
    method ReadAndWrite(aPin: int, sample: int) returns (report: Report)
      requires Valid()
      modifies this`writes, slots.aMins, slots.aMaxs, slots.lastVal
      ensures match FirstMatch(slots.analogPins[..], aPin)
        case None =>
          report == NotFound && Pairs() == old(Pairs()) && writes == old(writes)
        case Some(i) =>
          var o := StepPair(old(Pairs())[i], sample);
          && Pairs() == old(Pairs())[i := o.next]
          && writes == old(writes) + (if o.wrote then [ServoWrite(i, o.degree)] else [])
          && report == Reported(aPin, sample, slots.servoPins[i], o.degree)
      ensures |writes| >= |old(writes)|
      ensures LogInRange(writes[|old(writes)|..], old(Pairs()))
    {
      var found := FindSlot(aPin);
      match found
      case None =>
        report := NotFound;
      case Some(pin) =>
        StepPairDegreeInRange(Pairs()[pin], sample);
        var degree := StepSlot(pin, sample);
        report := Reported(aPin, sample, slots.servoPins[pin], degree);
    }

    /// One iteration of `ReadAndWriteAll`: slot `i` is stepped on its sample,
    /// which extends the prefix of stepped slots, and their commands, by one.
    method SweepSlot(samples: seq<int>, i: nat, ghost before: seq<Pair>, ghost w0: seq<ServoWrite>)
      requires Valid() && |samples| == pairs == |before| && i < pairs
      requires Pairs() == Nexts(StepAll(before, samples))[..i] + before[i..]
      requires writes == w0 + WriteLog(StepAll(before, samples)[..i])
      modifies this`writes, slots.aMins, slots.aMaxs, slots.lastVal
      ensures Pairs() == Nexts(StepAll(before, samples))[..i + 1] + before[i + 1..]
      ensures writes == w0 + WriteLog(StepAll(before, samples)[..i + 1])
    {
      SweepStep(before, samples, i, Pairs(), w0, writes);
      var _ := StepSlot(i, samples[i]);
    }

    /// Processes every slot, linked or not, in increasing order, slot `i` on
    /// sample `samples[i]`.  The delay `d` only paces the hardware.
    method ReadAndWriteAll(samples: seq<int>, d: int := 0)
      requires Valid() && |samples| == pairs
      modifies this`writes, slots.aMins, slots.aMaxs, slots.lastVal
      ensures var outs := StepAll(old(Pairs()), samples);
              Pairs() == Nexts(outs) && writes == old(writes) + WriteLog(outs)
      ensures |writes| >= |old(writes)|
      ensures LogInRange(writes[|old(writes)|..], old(Pairs()))
    {
      ghost var before := Pairs();
      ghost var outs := StepAll(before, samples);
      for i := 0 to pairs
        invariant Pairs() == Nexts(outs)[..i] + before[i..]
        invariant writes == old(writes) + WriteLog(outs[..i])
      {
        SweepSlot(samples, i, before, old(writes));
      }
      assert outs[..pairs] == outs;
      SweepTailInRange(old(writes), before, samples, writes);
    }
  }

  // ---------------------------------------------------------------------------
  // Client scenarios
  // ---------------------------------------------------------------------------

  /// On a fresh registry of capacity `capacity`, `attempts` calls of `link`
  /// succeed exactly for the first `capacity` calls.
  method LinkUntilFull(capacity: nat, attempts: nat) returns (results: seq<bool>)
    ensures |results| == attempts
    ensures forall k :: 0 <= k < attempts ==> (results[k] <==> k < capacity)
  {
    var r := new AnalogToServo(capacity);
    results := [];
    for k := 0 to attempts
      invariant r.Valid() && fresh(r.slots.Repr) && r.pairs == capacity
      invariant r.currentFirst == if k < capacity then k else capacity
      invariant |results| == k
      invariant forall j :: 0 <= j < k ==> (results[j] <==> j < capacity)
    {
      var ok := r.Link(k, k);
      results := results + [ok];
    }
  }

  /// A never-linked slot sampled at 300 opens its span to `[0, 300]` and
  /// writes degree 0, the only degree its servo range `[0, 0]` allows.
  lemma FreeSlotStep()
    ensures StepPair(ZeroPair, 300) == StepOutcome(ZeroPair.(aMax := 300), 0, true)
  {
    assert MapDegree(300, 0, 300, 0, 0) == 0;
  }

  /// A never-linked slot holds analog pin 0 and the search runs over the
  /// whole capacity: with pin 0 unlinked and a free slot left,
  /// `read_and_write(0)` steps that free slot and commands its servo instead
  /// of reporting the pin as not found.
  method UnlinkedPinZeroFindsFreeSlot() returns (report: Report, log: seq<ServoWrite>)
    ensures report == Reported(0, 300, 0, 0) && log == [ServoWrite(1, 0)]
  {
    var r := LinkedOnce();
    ghost var before := r.Pairs();
    report := r.ReadAndWrite(0, 300);
    ghost var o := StepPair(before[1], 300);
    assert report == Reported(0, 300, r.slots.servoPins[1], o.degree);
    assert r.writes == (if o.wrote then [ServoWrite(1, o.degree)] else []);
    FreeSlotStep();
    log := r.writes;
  }

  /// A registry of capacity 2 after `link(5, 9)`: pin 5 in slot 0, and slot 1
  /// still never-linked, so the search for pin 0 stops at slot 1.
  method LinkedOnce() returns (r: AnalogToServo)
    ensures r.Valid() && fresh(r) && fresh(r.slots.Repr) && r.pairs == 2
    ensures r.Pairs()[1] == ZeroPair && r.slots.servoPins[1] == 0
    ensures FirstMatch(r.slots.analogPins[..], 0) == Some(1) && r.writes == []
  {
    r := new AnalogToServo(2);
    var ok := r.Link(5, 9);
    assert r.writes == [];
    assert r.Pairs()[1] == ZeroPair;
    assert r.slots.analogPins[0] == r.Pairs()[0].analogPin == 5;
    assert r.slots.analogPins[1] == 0 && r.slots.servoPins[1] == 0;
  }

  /// `init` keeps the cursor: after two links and `init(1)` the cursor is
  /// past the capacity and every further `link` fails.
  method InitKeepsCursor() returns (ok: bool, cursor: nat, capacity: nat)
    ensures !ok && cursor == 2 && capacity == 1
  {
    var r := new AnalogToServo(2);
    var a := r.Link(5, 9);
    var b := r.Link(6, 10);
    r.Init(1);
    ok := r.Link(7, 11);
    cursor, capacity := r.currentFirst, r.pairs;
  }
}
