/// The per-pair algorithm of the analog-to-servo registry: auto-calibration
/// of the observed sensor span, Arduino's integer `map` rescale (with C++
/// truncating division), and the hysteresis gate that decides whether the
/// servo is commanded.  Everything here is a pure function of one pair's
/// fields and one raw sample; the registry applies it slot by slot.
module PairStep {

  /// Default upper end of the servo sweep (`SERVO_MAX`).
  const ServoMax := 180
  /// Default lower end of the servo sweep (`SERVO_MIN`).
  const ServoMin := 0
  /// Default observed minimum given to a new link: above any 10-bit reading,
  /// so that the first samples widen the span.
  const DefaultAnalogMin := 1027
  /// Default observed maximum given to a new link.
  const DefaultAnalogMax := 0

  /// One slot of the registry: the values the parallel arrays hold at one index.
  datatype Pair = Pair(
    analogPin: int,  // pin the sensor is read from
    servoPin: int,   // pin the servo is attached to
    aMin: int,       // observed minimum raw reading
    aMax: int,       // observed maximum raw reading
    sMin: int,       // lowest servo degree allowed
    sMax: int,       // highest servo degree allowed
    lastVal: int,    // last degree written to the servo
    change: int)     // degree change needed between writes

  /// What a never-linked slot holds: every array is zero-filled on allocation.
  const ZeroPair := Pair(0, 0, 0, 0, 0, 0, 0, 0)

  /// The pair `link` stores when only the two pins are given.
  function DefaultPair(aPin: int, servPin: int): Pair {
    Pair(aPin, servPin, DefaultAnalogMin, DefaultAnalogMax, ServoMin, ServoMax, 0, 0)
  }

  /// Observed span of a sensor after calibration.
  datatype Span = Span(lo: int, hi: int)

  // ---------------------------------------------------------------------------
  // Auto-calibration
  // ---------------------------------------------------------------------------

  /// Widen the observed span to take in sample `v`: the maximum is checked
  /// first, and the minimum only when the maximum did not move.
  function Calibrate(v: int, lo: int, hi: int): (r: Span)
    ensures r.hi >= hi && r.lo <= lo
    ensures r.lo == lo || r.hi == hi
    ensures v <= r.hi
    ensures lo <= hi ==> r.lo <= v <= r.hi
    ensures r.hi != hi <==> v > hi
    ensures r.lo != lo <==> hi >= v && v < lo
    ensures r.hi != hi ==> r.hi == v
    ensures r.lo != lo ==> r.lo == v
  {
    if v > hi then Span(lo, v)
    else if v < lo then Span(v, hi)
    else Span(lo, hi)
  }

  /// A sample inside the observed span leaves the span as it is.
  lemma CalibrateInsideIsIdentity(v: int, lo: int, hi: int)
    requires lo <= v <= hi
    ensures Calibrate(v, lo, hi) == Span(lo, hi)
  {
  }

  /// Seeing the same sample twice always brings it inside the span, even
  /// from an inverted span such as the link defaults (1027, 0).
  lemma CalibrateTwiceContains(v: int, lo: int, hi: int)
    ensures var s := Calibrate(v, lo, hi);
            var t := Calibrate(v, s.lo, s.hi);
            t.lo <= v <= t.hi
  {
  }

  // ---------------------------------------------------------------------------
  // Arduino map with C++ integer division
  // ---------------------------------------------------------------------------

  function Abs(x: int): nat {
    if x < 0 then -x else x
  }

  /// C++ integer division: the quotient is truncated toward zero (Dafny's
  /// own `/` is Euclidean).
  function TruncDiv(a: int, b: int): (r: int)
    requires b != 0
    ensures r == 0 <==> Abs(a) < Abs(b)
    ensures r > 0 ==> (a < 0) == (b < 0)
    ensures r < 0 ==> (a < 0) != (b < 0)
  {
    DivZeroExactlyWhen(Abs(a), Abs(b));
    var q := Abs(a) / Abs(b);
    if (a < 0) == (b < 0) then q else -q
  }

  lemma MulNonneg(a: int, b: int)
    requires a >= 0 && b >= 0
    ensures a * b >= 0
  {
  }

  lemma MulAtLeast(a: int, d: int)
    requires a >= 1 && d > 0
    ensures a * d >= d
  {
    MulNonneg(a - 1, d);
    assert a * d == (a - 1) * d + d;
  }

  /// Euclidean division is determined by quotient and remainder.
  lemma DivUnique(n: int, d: int, q: int, r: int)
    requires d > 0 && 0 <= r < d && n == q * d + r
    ensures n / d == q
  {
    var q0, r0 := n / d, n % d;
    assert n == q0 * d + r0 && 0 <= r0 < d;
    assert (q - q0) * d == r0 - r;
    if q > q0 {
      MulAtLeast(q - q0, d);
      assert false;
    } else if q < q0 {
      MulAtLeast(q0 - q, d);
      assert false;
    }
  }

  /// A natural quotient is zero exactly when the dividend is below the divisor.
  lemma DivZeroExactlyWhen(n: nat, d: nat)
    requires d > 0
    ensures n / d == 0 <==> n < d
  {
    if n < d {
      DivUnique(n, d, 0, n);
    } else {
      var q, r := n / d, n % d;
      assert n == q * d + r && r < d;
      if q == 0 {
        assert false;
      }
    }
  }

  lemma AbsMul(a: int, b: int)
    ensures Abs(a * b) == Abs(a) * Abs(b)
    ensures a > 0 && b > 0 ==> a * b > 0
    ensures a < 0 && b < 0 ==> a * b > 0
    ensures a > 0 && b < 0 ==> a * b < 0
    ensures a < 0 && b > 0 ==> a * b < 0
  {
    MulNonneg(Abs(a), Abs(b));
    if a < 0 && b < 0 {
      assert a * b == (-a) * (-b);
    } else if a < 0 {
      assert a * b == -((-a) * b);
    } else if b < 0 {
      assert a * b == -(a * (-b));
    }
    if a != 0 && b != 0 {
      MulAtLeast(Abs(a), Abs(b));
    }
  }

  /// The C++ guarantees of `/`: the remainder `a - q*b` is smaller than the
  /// divisor in magnitude and never has the opposite sign of the dividend.
  lemma TruncDivIsCpp(a: int, b: int)
    requires b != 0
    ensures var r := a - TruncDiv(a, b) * b;
            Abs(r) < Abs(b) && (a >= 0 ==> r >= 0) && (a <= 0 ==> r <= 0)
  {
    var q := Abs(a) / Abs(b);
    var m := Abs(a) % Abs(b);
    RemainderOfTruncation(a, b, q, m);
  }

  /// The remainder left by a quotient of magnitude `q` signed as C++ signs it,
  /// where the magnitudes satisfy `|a| == q*|b| + m` with `0 <= m < |b|`.
  lemma RemainderOfTruncation(a: int, b: int, q: int, m: int)
    requires b != 0 && 0 <= m < Abs(b) && Abs(a) == q * Abs(b) + m
    ensures var t := if (a < 0) == (b < 0) then q else -q;
            var r := a - t * b;
            Abs(r) < Abs(b) && (a >= 0 ==> r >= 0) && (a <= 0 ==> r <= 0)
  {
    var bb: int := Abs(b);
    var t := if (a < 0) == (b < 0) then q else -q;
    NegMul(q, bb);
    var p := q * bb;
    if a >= 0 && b > 0 {
      assert t * b == p && a == p + m;
    } else if a >= 0 {
      assert t * b == (-q) * (-bb) == p && a == p + m;
    } else if b > 0 {
      assert t * b == (-q) * bb == -p && a == -(p + m);
    } else {
      assert t * b == q * (-bb) == -p && a == -(p + m);
    }
  }

  /// Sign rules of multiplication.
  lemma NegMul(x: int, y: int)
    ensures (-x) * (-y) == x * y && (-x) * y == -(x * y) && x * (-y) == -(x * y)
  {
  }

  /// Truncating division is exact on multiples of the divisor.
  lemma TruncDivMultiple(k: int, d: int)
    requires d != 0
    ensures TruncDiv(k * d, d) == k
  {
    AbsMul(k, d);
    DivUnique(Abs(k) * Abs(d), Abs(d), Abs(k), 0);
  }

  /// Helper: a numerator in [0, s*d] divided by s lands in [0, d].
  lemma DivBounds(n: int, s: int, d: int)
    requires s > 0 && d >= 0 && 0 <= n <= s * d
    ensures 0 <= n / s <= d
  {
    var q, r := n / s, n % s;
    assert n == q * s + r && 0 <= r < s;
    if q < 0 {
      MulAtLeast(-q, s);
      assert false;
    } else if q > d {
      MulAtLeast(q - d, s);
      assert false;
    }
  }

  /// Helper: 0 <= a <= b and c >= 0 give 0 <= a*c <= b*c.
  lemma MulMono(a: int, b: int, c: int)
    requires 0 <= a <= b && c >= 0
    ensures 0 <= a * c <= b * c
  {
    MulNonneg(a, c);
    MulNonneg(b - a, c);
    assert b * c == a * c + (b - a) * c;
  }

  /// Arduino's `map` exactly as the source calls it; the division by the
  /// observed span is undefined behaviour when the span is zero.
  function MapAsWritten(x: int, inMin: int, inMax: int, outMin: int, outMax: int): (r: int)
    requires inMax != inMin
    ensures x == inMin ==> r == outMin
    ensures outMin == outMax ==> r == outMin
  {
    TruncDiv((x - inMin) * (outMax - outMin), inMax - inMin) + outMin
  }

  /// The rescale the registry uses: `map`, with a zero observed span
  /// answering the lowest servo degree instead of dividing by zero.
  function MapDegree(x: int, inMin: int, inMax: int, outMin: int, outMax: int): (r: int)
    ensures inMax == inMin ==> r == outMin
    ensures inMax != inMin ==> r == MapAsWritten(x, inMin, inMax, outMin, outMax)
  {
    if inMax == inMin then outMin else MapAsWritten(x, inMin, inMax, outMin, outMax)
  }

  /// The ends of the observed span go to the ends of the servo range, for
  /// an inverted span as well as an ordered one.
  lemma MapDegreeEndpoints(inMin: int, inMax: int, outMin: int, outMax: int)
    requires inMin != inMax
    ensures MapDegree(inMin, inMin, inMax, outMin, outMax) == outMin
    ensures MapDegree(inMax, inMin, inMax, outMin, outMax) == outMax
  {
    var span := inMax - inMin;
    var d := outMax - outMin;
    assert (inMin - inMin) * d == 0;
    assert Abs(0) / Abs(span) == 0;
    assert span * d == d * span;
    TruncDivMultiple(d, span);
  }

  /// A sample inside a proper observed span maps inside the servo range,
  /// whichever way round the servo range is given.
  lemma MapDegreeInRange(x: int, inMin: int, inMax: int, outMin: int, outMax: int)
    requires inMin < inMax && inMin <= x <= inMax
    ensures var r := MapDegree(x, inMin, inMax, outMin, outMax);
            (outMin <= outMax ==> outMin <= r <= outMax) &&
            (outMax <= outMin ==> outMax <= r <= outMin)
  {
    var span := inMax - inMin;
    var k := x - inMin;
    var d := outMax - outMin;
    if d >= 0 {
      MulMono(k, span, d);
      assert span * d == d * span;
      DivBounds(k * d, span, d * 1);
      assert TruncDiv(k * d, span) == (k * d) / span;
    } else {
      MulMono(k, span, -d);
      assert k * d == -(k * (-d));
      DivBounds(k * (-d), span, -d);
      assert Abs(k * d) == k * (-d);
      assert TruncDiv(k * d, span) == -((k * (-d)) / span);
    }
  }

  // ---------------------------------------------------------------------------
  // Hysteresis gate
  // ---------------------------------------------------------------------------

  /// The servo is commanded when the new degree has moved at least `change`
  /// away from the last degree written, in either direction.
  predicate Gate(degree: int, last: int, change: int): (open: bool)
    ensures change <= 0 ==> open
    ensures degree == last ==> (open <==> change <= 0)
  {
    degree >= last + change || degree <= last - change
  }

  /// The gate is exactly "a non-positive threshold, or a move of at least
  /// the threshold", so a threshold of zero always writes.
  lemma GateExact(degree: int, last: int, change: int)
    ensures Gate(degree, last, change) <==> change <= 0 || Abs(degree - last) >= change
  {
  }

  // ---------------------------------------------------------------------------
  // One step of one pair
  // ---------------------------------------------------------------------------

  /// The result of processing one pair on one sample: the pair's new fields,
  /// the mapped degree, and whether the servo was commanded.
  datatype StepOutcome = StepOutcome(next: Pair, degree: int, wrote: bool)

  /// Calibrate on `v`, map `v` over the updated span, then pass the degree
  /// through the hysteresis gate.
  function StepPair(p: Pair, v: int): (o: StepOutcome)
    ensures o.next.analogPin == p.analogPin && o.next.servoPin == p.servoPin
    ensures o.next.sMin == p.sMin && o.next.sMax == p.sMax && o.next.change == p.change
    ensures Span(o.next.aMin, o.next.aMax) == Calibrate(v, p.aMin, p.aMax)
    ensures o.degree == MapDegree(v, o.next.aMin, o.next.aMax, p.sMin, p.sMax)
    ensures o.wrote <==> Gate(o.degree, p.lastVal, p.change)
    ensures o.next.lastVal == if o.wrote then o.degree else p.lastVal
  {
    var s := Calibrate(v, p.aMin, p.aMax);
    var degree := MapDegree(v, s.lo, s.hi, p.sMin, p.sMax);
    var wrote := Gate(degree, p.lastVal, p.change);
    StepOutcome(p.(aMin := s.lo, aMax := s.hi, lastVal := if wrote then degree else p.lastVal),
                degree, wrote)
  }

  /// The special case of `StepPairDegreeInRange` where the span already
  /// holds the sample: the step leaves the span as it is, and the degree is
  /// within the ordered servo range.
  lemma StepPairInRange(p: Pair, v: int)
    requires p.aMin < p.aMax && p.aMin <= v <= p.aMax && p.sMin <= p.sMax
    ensures var o := StepPair(p, v);
            p.sMin <= o.degree <= p.sMax && o.next.aMin == p.aMin && o.next.aMax == p.aMax
  {
    CalibrateInsideIsIdentity(v, p.aMin, p.aMax);
    MapDegreeInRange(v, p.aMin, p.aMax, p.sMin, p.sMax);
  }

  /// The degree lies between the two ends of the pair's servo range,
  /// whichever way round they are given.
  predicate InServoRange(p: Pair, degree: int) {
    && (p.sMin <= p.sMax ==> p.sMin <= degree <= p.sMax)
    && (p.sMax <= p.sMin ==> p.sMax <= degree <= p.sMin)
  }

  /// Every step, on any pair and any sample, maps into the pair's servo
  /// range: a calibrating step leaves the sample at an end of the span or
  /// inside it, and a zero span answers `sMin`.
  lemma StepPairDegreeInRange(p: Pair, v: int)
    ensures InServoRange(p, StepPair(p, v).degree)
  {
    var s := Calibrate(v, p.aMin, p.aMax);
    if s.lo == s.hi {
    } else if s.lo < s.hi && s.lo <= v {
      MapDegreeInRange(v, s.lo, s.hi, p.sMin, p.sMax);
    } else {
      assert v == s.hi;
      MapDegreeEndpoints(s.lo, s.hi, p.sMin, p.sMax);
    }
  }

  /// Two steps on the same sample from a calibrated pair map to the same
  /// degree, the second leaves the pair as the first left it, and it commands
  /// the servo again exactly when the threshold is zero or less.
  lemma RepeatedSampleSameDegree(p: Pair, v: int)
    requires p.aMin <= p.aMax
    ensures var o1 := StepPair(p, v);
            var o2 := StepPair(o1.next, v);
            o2.degree == o1.degree &&
            o2.next == o1.next &&
            (o2.wrote <==> p.change <= 0)
  {
    var o1 := StepPair(p, v);
    assert o1.next.aMin <= v <= o1.next.aMax;
    CalibrateInsideIsIdentity(v, o1.next.aMin, o1.next.aMax);
    GateExact(o1.degree, p.lastVal, p.change);
    GateExact(o1.degree, o1.next.lastVal, p.change);
  }

  /// The pair after processing samples `vs` one call after another.
  function StepMany(p: Pair, vs: seq<int>): Pair
    decreases |vs|
  {
    if |vs| == 0 then p else StepMany(StepPair(p, vs[0]).next, vs[1..])
  }

  /// Over any run of samples the observed maximum never decreases, the
  /// observed minimum never increases, every sample ends up at or below the
  /// maximum, and from a calibrated pair every sample ends up inside the span.
  lemma {:induction false} StepManyBounds(p: Pair, vs: seq<int>)
    ensures var q := StepMany(p, vs);
            && q.aMax >= p.aMax && q.aMin <= p.aMin
            && (forall k :: 0 <= k < |vs| ==> vs[k] <= q.aMax)
            && (p.aMin <= p.aMax ==> forall k :: 0 <= k < |vs| ==> q.aMin <= vs[k] <= q.aMax)
    decreases |vs|
  {
    if |vs| > 0 {
      var p1 := StepPair(p, vs[0]).next;
      StepManyBounds(p1, vs[1..]);
      var q := StepMany(p, vs);
      assert q == StepMany(p1, vs[1..]);
      forall k | 1 <= k < |vs| ensures vs[k] == vs[1..][k - 1] { }
    }
  }

  /// With the link defaults, any first sample strictly between 0 and 1027
  /// raises the maximum only, leaves the span inverted, and maps to the top
  /// of the servo range, which is written (threshold 0).
  lemma FirstSampleOfDefaultPair(aPin: int, servPin: int, v: int)
    requires 0 < v < DefaultAnalogMin
    ensures var o := StepPair(DefaultPair(aPin, servPin), v);
            o.next.aMin == DefaultAnalogMin && o.next.aMax == v &&
            o.degree == ServoMax && o.wrote && o.next.lastVal == ServoMax
  {
    var span := v - DefaultAnalogMin;
    assert (v - DefaultAnalogMin) * (ServoMax - ServoMin) == ServoMax * span;
    TruncDivMultiple(ServoMax, span);
  }

  /// On a default link the same sample `v` in (0, 1027) seen twice maps to
  /// 180 and then, the span having closed onto `v`, to 0 through the guard:
  /// repeating a sample is not idempotent before the span is calibrated.
  lemma DefaultPairSameSampleTwice(aPin: int, servPin: int, v: int)
    requires 0 < v < DefaultAnalogMin
    ensures var p := DefaultPair(aPin, servPin);
            var o1 := StepPair(p, v);
            var o2 := StepPair(o1.next, v);
            && o1 == StepOutcome(p.(aMax := v, lastVal := ServoMax), ServoMax, true)
            && o2 == StepOutcome(p.(aMin := v, aMax := v, lastVal := ServoMin), ServoMin, true)
  {
    FirstSampleOfDefaultPair(aPin, servPin, v);
  }

  /// A first sample of 0 on a default link lowers the minimum to 0, which
  /// equals the maximum: the span is zero and the guarded map gives 0.
  lemma ZeroSampleOfDefaultPair(aPin: int, servPin: int)
    ensures var o := StepPair(DefaultPair(aPin, servPin), 0);
            o.next.aMin == 0 && o.next.aMax == 0 && o.degree == ServoMin && o.wrote
  {
  }

  /// A never-linked slot holds the span `[0, 0]`: a sample of 0 leaves it
  /// zero, and any other sample opens it.
  lemma NeverLinkedZeroSpan(v: int)
    ensures var s := Calibrate(v, ZeroPair.aMin, ZeroPair.aMax);
            s.lo == s.hi <==> v == 0
  {
  }

  /// The source divides by a zero span: on a default link, a sample of 0,
  /// or any sample in (0, 1027) seen twice in a row, leaves the observed
  /// span empty right before `map` is called, so the division
  /// `MapAsWritten` performs has a zero divisor.
  lemma ZeroSpanReachable(aPin: int, servPin: int, v: int)
    requires 0 <= v < DefaultAnalogMin
    ensures var p := DefaultPair(aPin, servPin);
            var s := if v == 0 then Calibrate(v, p.aMin, p.aMax)
                     else var o := StepPair(p, v); Calibrate(v, o.next.aMin, o.next.aMax);
            s.lo == s.hi == v
  {
  }
}
