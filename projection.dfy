/**
 * The projection arithmetic of the attendance assistant: classes needed to
 * reach a target percentage, classes that can still be missed before falling
 * below a threshold, projected percentages and the two-half trend.
 *
 * Percentages are exact reals. JavaScript's 0/0 is NaN; it is modelled by
 * Pct.NaN, and every ordering comparison with it is false, as in IEEE 754.
 */
module Projection {

  /** The number of further classes to attend; Unreachable replaces the source's Infinity. */
  datatype Needed = Classes(n: nat) | Unreachable

  /**
   * What calculateMissableClasses returns: a deficit (the source's negative
   * number, whose magnitude is the classes needed), a number of classes that
   * may be missed, or the Infinity and NaN it yields for a 0% threshold.
   */
  datatype Missable = Deficit(needed: Needed) | Spare(k: nat) | Unlimited | Undefined

  /** A percentage as JavaScript computes it: a value, or NaN after 0/0. */
  datatype Pct = Value(v: real) | NaN

  /** `p >= x` in IEEE terms: false when p is NaN. */
  predicate AtLeast(p: Pct, x: real) { p.Value? && p.v >= x }

  /** `p < x` in IEEE terms: false when p is NaN. */
  predicate Below(p: Pct, x: real) { p.Value? && p.v < x }

  /** Math.floor. */
  function Floor(x: real): (r: int)
    ensures r as real <= x < r as real + 1.0
  {
    x.Floor
  }

  /** Math.ceil: the least integer not below x. */
  function Ceil(x: real): (r: int)
    ensures r as real - 1.0 < x <= r as real
  {
    var f := x.Floor;
    if f as real == x then f else f + 1
  }

  /** Math.max(0, x). */
  function Max0(x: int): (r: nat)
    ensures r >= x && (r == 0 || r == x)
  {
    if x < 0 then 0 else x
  }

  /**
   * `(part / whole) * 100` for non-negative operands. A zero whole only ever
   * comes with a zero part here, and then JavaScript yields NaN.
   */
  function Rate(part: real, whole: real): (p: Pct)
    requires 0.0 <= part && 0.0 <= whole
    requires whole == 0.0 ==> part == 0.0
    ensures p.NaN? <==> whole == 0.0
    ensures p.Value? ==> 0.0 <= p.v && (part <= whole ==> p.v <= 100.0)
  {
    if whole == 0.0 then NaN else Value(part / whole * 100.0)
  }

  /** The percentage after attending `extra` more classes, all present. */
  function AttendMore(attended: nat, total: nat, extra: nat): Pct
    requires attended <= total
  {
    Rate((attended + extra) as real, (total + extra) as real)
  }

  /** The percentage after missing `extra` more classes. */
  function MissMore(attended: nat, total: nat, extra: nat): Pct
    requires attended <= total
  {
    Rate(attended as real, (total + extra) as real)
  }

  /**
   * calculateClassesForTarget: x solving (attended + x) / (total + x) = target / 100,
   * rounded up, with negative solutions clamped to 0; Unreachable when the
   * denominator 100 - target is not positive.
   */
  function ClassesForTarget(attended: nat, total: nat, target: nat): (r: Needed)
    ensures r.Unreachable? <==> target >= 100
  {
    var numerator := target * total - 100 * attended;
    var denominator := 100 - target;
    if denominator <= 0 then Unreachable
    else
      var result := numerator as real / denominator as real;
      if result < 0.0 then Classes(0) else Classes(Ceil(result))
  }

  /**
   * calculateMissableClasses. The current percentage (attended / total) * 100
   * is NaN or +Infinity when total is 0; neither is below the threshold.
   * With a 0% threshold, 100 * attended / 0 is NaN or +Infinity as well.
   */
  function MissableClasses(attended: nat, total: nat, threshold: nat): Missable
  {
    if total > 0 && attended as real / total as real * 100.0 < threshold as real then
      Deficit(ClassesForTarget(attended, total, threshold))
    else if threshold == 0 then
      if attended == 0 then Undefined else Unlimited
    else
      var maxTotal := (100 * attended) as real / threshold as real;
      Spare(Max0(Floor(maxTotal - total as real)))
  }

  // ---------------------------------------------------------------------------
  // Arithmetic bridges between percentages and cross-multiplied integers

  lemma QuotientScale(num: int, den: int)
    requires den > 0
    ensures (num as real / den as real) * den as real == num as real
  {
  }

  /** Comparing a percentage part/whole*100 with p is comparing 100*part with p*whole. */
  lemma RateVersus(part: nat, whole: nat, p: nat)
    requires whole > 0
    ensures AtLeast(Rate(part as real, whole as real), p as real) <==> 100 * part >= p * whole
    ensures Below(Rate(part as real, whole as real), p as real) <==> 100 * part < p * whole
  {
    var q := part as real / whole as real;
    QuotientScale(part, whole);
    assert (q * 100.0) * whole as real == (100 * part) as real;
    if q * 100.0 >= p as real {
      assert (q * 100.0) * whole as real >= (p as real) * whole as real;
    } else {
      assert (q * 100.0) * whole as real < (p as real) * whole as real;
    }
  }

  /** Bounds on y / d for a positive d carry over to y and c * d. */
  lemma DivBounds(y: int, d: int, c: int)
    requires d > 0
    ensures (y as real / d as real <= c as real) ==> y <= c * d
    ensures (y as real / d as real < c as real) ==> y < c * d
    ensures (c as real <= y as real / d as real) ==> c * d <= y
    ensures (c as real < y as real / d as real) ==> c * d < y
  {
    var q := y as real / d as real;
    QuotientScale(y, d);
    if q <= c as real {
      assert q * d as real <= c as real * d as real;
    } else {
      assert c as real * d as real < q * d as real;
    }
    if q < c as real {
      assert q * d as real < c as real * d as real;
    } else {
      assert c as real * d as real <= q * d as real;
    }
  }

  // ---------------------------------------------------------------------------
  // calculateClassesForTarget

  /** The returned count reaches the target, and one class fewer does not. */
  lemma {:induction false} ClassesForTargetMinimal(attended: nat, total: nat, target: nat)
    requires target < 100
    ensures var n := ClassesForTarget(attended, total, target).n;
      100 * (attended + n) >= target * (total + n) &&
      (n > 0 ==> 100 * (attended + n - 1) < target * (total + n - 1))
  {
    var numerator := target * total - 100 * attended;
    var denominator := 100 - target;
    var result := numerator as real / denominator as real;
    var n := ClassesForTarget(attended, total, target).n;
    if result < 0.0 {
      assert n == 0;
      DivBounds(numerator, denominator, 0);
    } else {
      assert n == Ceil(result);
      DivBounds(numerator, denominator, n);
      DivBounds(numerator, denominator, n - 1);
      assert numerator <= n * denominator;
      if n > 0 {
        assert (n - 1) * denominator < numerator;
      }
    }
  }

  /**
   * The target is already met exactly when nothing more is needed: for a
   * target below 100, a positive count comes exactly with 100*attended < target*total.
   */
  lemma {:induction false} ClassesForTargetPositive(attended: nat, total: nat, target: nat)
    requires target < 100
    ensures ClassesForTarget(attended, total, target).n > 0 <==> 100 * attended < target * total
  {
    var numerator := target * total - 100 * attended;
    var denominator := 100 - target;
    var result := numerator as real / denominator as real;
    DivBounds(numerator, denominator, 0);
    ClassesForTargetMinimal(attended, total, target);
  }

  /** The same minimality, read through the attend-more formula of `Chatbot.tsx` lines 148-150. */
  lemma ClassesForTargetReaches(attended: nat, total: nat, target: nat)
    requires attended <= total && target < 100
    ensures var n := ClassesForTarget(attended, total, target).n;
      (total + n > 0 ==> AtLeast(AttendMore(attended, total, n), target as real)) &&
      (n > 0 ==> total > 0 && Below(AttendMore(attended, total, n - 1), target as real))
  {
    var n := ClassesForTarget(attended, total, target).n;
    ClassesForTargetMinimal(attended, total, target);
    ClassesForTargetPositive(attended, total, target);
    if total + n > 0 {
      RateVersus(attended + n, total + n, target);
    }
    if n > 0 {
      assert target * total > 0;
      RateVersus(attended + n - 1, total + n - 1, target);
    }
  }

  // ---------------------------------------------------------------------------
  // calculateMissableClasses

  /** A deficit is reported exactly when the current percentage is below the threshold. */
  lemma MissableDeficitIff(attended: nat, total: nat, threshold: nat)
    ensures MissableClasses(attended, total, threshold).Deficit? <==>
      total > 0 && 100 * attended < threshold * total
  {
    if total > 0 {
      RateVersus(attended, total, threshold);
    }
  }

  /**
   * A deficit carries exactly the classes needed to reach the threshold: at least
   * one whenever the threshold is below 100, Unreachable otherwise.
   */
  lemma MissableDeficitMagnitude(attended: nat, total: nat, threshold: nat)
    requires MissableClasses(attended, total, threshold).Deficit?
    ensures MissableClasses(attended, total, threshold).needed == ClassesForTarget(attended, total, threshold)
    ensures threshold < 100 ==> ClassesForTarget(attended, total, threshold).n >= 1
    ensures threshold >= 100 ==> MissableClasses(attended, total, threshold).needed.Unreachable?
  {
    MissableDeficitIff(attended, total, threshold);
    if threshold < 100 {
      ClassesForTargetPositive(attended, total, threshold);
    }
  }

  /**
   * When no deficit is reported and the threshold is positive, k classes may be
   * missed: missing k keeps 100*attended >= threshold*(total + k), missing
   * k + 1 would not. The clamp to 0 never changes the answer.
   */
  lemma {:induction false} MissableSpareExact(attended: nat, total: nat, threshold: nat)
    requires !MissableClasses(attended, total, threshold).Deficit? && threshold > 0
    ensures MissableClasses(attended, total, threshold).Spare?
    ensures var k := MissableClasses(attended, total, threshold).k;
      threshold * (total + k) <= 100 * attended < threshold * (total + k + 1)
  {
    MissableDeficitIff(attended, total, threshold);
    var maxTotal := (100 * attended) as real / threshold as real;
    var f := Floor(maxTotal - total as real);
    var k := MissableClasses(attended, total, threshold).k;
    DivBounds(100 * attended, threshold, total);
    assert f >= 0 by {
      if total > 0 {
        assert threshold * total <= 100 * attended;
        QuotientScale(100 * attended, threshold);
        assert maxTotal * threshold as real == (100 * attended) as real;
        assert maxTotal * threshold as real >= total as real * threshold as real;
      }
    }
    assert k == f;
    DivBounds(100 * attended, threshold, total + k);
    DivBounds(100 * attended, threshold, total + k + 1);
  }

  /** The same, read as the percentage after missing k and k + 1 classes (line 267's formula). */
  lemma MissableSparePercent(attended: nat, total: nat, threshold: nat)
    requires attended <= total && threshold > 0
    requires !MissableClasses(attended, total, threshold).Deficit?
    ensures var k := MissableClasses(attended, total, threshold).k;
      (total + k > 0 ==> AtLeast(MissMore(attended, total, k), threshold as real)) &&
      Below(MissMore(attended, total, k + 1), threshold as real)
  {
    MissableSpareExact(attended, total, threshold);
    var k := MissableClasses(attended, total, threshold).k;
    if total + k > 0 {
      RateVersus(attended, total + k, threshold);
    }
    RateVersus(attended, total + k + 1, threshold);
  }

  /** A 0% threshold is the only way to get the source's Infinity or NaN. */
  lemma MissableZeroThreshold(attended: nat, total: nat, threshold: nat)
    ensures var m := MissableClasses(attended, total, threshold);
      (m.Unlimited? <==> threshold == 0 && attended > 0) &&
      (m.Undefined? <==> threshold == 0 && attended == 0)
  {
    MissableDeficitIff(attended, total, threshold);
  }
}

/** The two-half trend of the attendance history (Chatbot.tsx, history branch). */
module Trend {
  import opened Attendance
  import opened Projection

  /** The outcome of comparing the later half of the history with the earlier one. */
  datatype Direction = Improving(earlier: real, later: real) | Declining(earlier: real, later: real) | Consistent(level: Pct)

  /** Present records as a percentage of a slice of the history; NaN for an empty slice. */
  function PresentRate(records: seq<Record>): Pct
  {
    Rate(PresentCount(records) as real, |records| as real)
  }

  /** `p > q` in IEEE terms. */
  predicate Greater(p: Pct, q: Pct) { p.Value? && q.Value? && p.v > q.v }

  /**
   * Split at floor(n/2) and compare the halves' present-rates. For one record
   * the first half is empty, its rate NaN, and both comparisons fail.
   */
  function TrendOf(details: seq<Record>): Direction
  {
    var mid := |details| / 2;
    var first := PresentRate(details[..mid]);
    var second := PresentRate(details[mid..]);
    if Greater(second, first) then Improving(first.v, second.v)
    else if Greater(first, second) then Declining(first.v, second.v)
    else Consistent(first)
  }

  /** With a single record the trend is "consistent" at NaN. */
  lemma TrendOfSingle(details: seq<Record>)
    requires |details| == 1
    ensures TrendOf(details) == Consistent(NaN)
  {
  }

  /** p1/n1 < p2/n2 exactly when p1 * n2 < p2 * n1, for positive n1, n2. */
  lemma CrossMultiply(p1: nat, n1: nat, p2: nat, n2: nat)
    requires n1 > 0 && n2 > 0
    ensures p1 as real / n1 as real * 100.0 < p2 as real / n2 as real * 100.0 <==> p1 * n2 < p2 * n1
  {
    var q1 := p1 as real / n1 as real;
    var q2 := p2 as real / n2 as real;
    QuotientScale(p1, n1);
    QuotientScale(p2, n2);
    assert q1 * (n1 * n2) as real == (p1 * n2) as real;
    assert q2 * (n1 * n2) as real == (p2 * n1) as real;
    if q1 < q2 {
      assert q1 * (n1 * n2) as real < q2 * (n1 * n2) as real;
    } else {
      assert q2 * (n1 * n2) as real <= q1 * (n1 * n2) as real;
    }
  }

  /**
   * For at least two records the direction is decided by cross-multiplying the
   * present counts p1, p2 of the halves with their lengths n1 = floor(n/2), n2.
   */
  lemma TrendOfDirection(details: seq<Record>)
    requires |details| >= 2
    ensures var mid := |details| / 2;
      var p1 := PresentCount(details[..mid]);
      var p2 := PresentCount(details[mid..]);
      var n1 := mid;
      var n2 := |details| - mid;
      (TrendOf(details).Improving? <==> p1 * n2 < p2 * n1) &&
      (TrendOf(details).Declining? <==> p2 * n1 < p1 * n2) &&
      (TrendOf(details).Consistent? <==> p1 * n2 == p2 * n1)
  {
    var mid := |details| / 2;
    var p1 := PresentCount(details[..mid]);
    var p2 := PresentCount(details[mid..]);
    CrossMultiply(p1, mid, p2, |details| - mid);
    CrossMultiply(p2, |details| - mid, p1, mid);
  }

  lemma MultiplyStrict(x: nat, y: nat, m: nat)
    requires x < y && m > 0
    ensures x * m < y * m
  {
  }

  /** An absent-only first half followed by a later half with some presence is improving. */
  lemma TrendImproving(details: seq<Record>)
    requires |details| >= 2
    requires forall i :: 0 <= i < |details| / 2 ==> details[i].status != Present
    requires exists i :: |details| / 2 <= i < |details| && details[i].status == Present
    ensures TrendOf(details).Improving?
  {
    var mid := |details| / 2;
    var first, second := details[..mid], details[mid..];
    PresentCountZero(first);
    PresentCountZero(second);
    var i :| mid <= i < |details| && details[i].status == Present;
    assert second[i - mid].status == Present;
    TrendOfDirection(details);
  }

  /** A present-only first half followed by a later half with some miss is declining. */
  lemma TrendDeclining(details: seq<Record>)
    requires |details| >= 2
    requires forall i :: 0 <= i < |details| / 2 ==> details[i].status == Present
    requires exists i :: |details| / 2 <= i < |details| && details[i].status != Present
    ensures TrendOf(details).Declining?
  {
    var mid := |details| / 2;
    var first, second := details[..mid], details[mid..];
    assert forall i :: 0 <= i < |first| ==> first[i].status == Present by {
      forall i | 0 <= i < |first| ensures first[i].status == Present {
        assert first[i] == details[i];
      }
    }
    PresentCountFull(first);
    var p1 := PresentCount(first);
    assert p1 == mid;
    var i :| mid <= i < |details| && details[i].status != Present;
    assert second[i - mid].status != Present;
    PresentCountFull(second);
    var n2, p2 := |details| - mid, PresentCount(second);
    assert p2 < n2;
    assert p2 * mid < n2 * mid by { MultiplyStrict(p2, n2, mid); }
    assert p2 * mid < p1 * n2;
    TrendOfDirection(details);
  }

  /** Two halves that are each exactly half present are consistent. */
  lemma TrendEvenSplit(details: seq<Record>)
    requires |details| >= 2
    requires 2 * PresentCount(details[..|details| / 2]) == |details| / 2
    requires 2 * PresentCount(details[|details| / 2..]) == |details| - |details| / 2
    ensures TrendOf(details).Consistent?
  {
    TrendOfDirection(details);
  }
}
