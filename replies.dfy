/**
 * What the handlers' replies promise, stated against the projection
 * arithmetic: the numbers a reply shows are the ones the formulas guarantee.
 */
module Replies {
  import opened Optional
  import opened Attendance
  import opened Projection
  import opened Text
  import opened Intents
  import opened Assistant

  /** With classes held, the snapshot percentage is the engine's rate. */
  lemma SnapshotRate(d: Snapshot)
    requires d.Valid() && d.totalClasses > 0
    ensures Rate(d.attendedClasses as real, d.totalClasses as real) == Value(d.Percentage())
  {
  }

  /** The snapshot percentage against a threshold, cross-multiplied. */
  lemma SnapshotBelow(d: Snapshot, threshold: nat)
    requires d.Valid()
    ensures d.Percentage() < threshold as real <==>
      (d.totalClasses > 0 && 100 * d.attendedClasses < threshold * d.totalClasses) ||
      (d.totalClasses == 0 && threshold > 0)
  {
    if d.totalClasses > 0 {
      RateVersus(d.attendedClasses, d.totalClasses, threshold);
    }
  }

  /**
   * "You're doing well": when the risk check finds the student at or above the
   * threshold, the missable count it quotes is never a deficit, and for a
   * positive threshold it is exactly the number of classes that can be missed.
   */
  lemma RiskSafeQuotesSpare(q: string, d: Snapshot)
    requires d.Valid()
    requires RiskHandler(q, d).risk.Safe?
    ensures var r := RiskHandler(q, d);
      r.risk.buffer >= 0.0 && !r.risk.canMiss.Deficit? &&
      (r.threshold > 0 ==>
        r.risk.canMiss.Spare? && r.threshold * (d.totalClasses + r.risk.canMiss.k) <= 100 * d.attendedClasses)
  {
    var threshold := PercentOr75(q);
    SnapshotBelow(d, threshold);
    MissableDeficitIff(d.attendedClasses, d.totalClasses, threshold);
    if threshold > 0 {
      MissableSpareExact(d.attendedClasses, d.totalClasses, threshold);
    }
  }

  /**
   * Below the threshold the risk check reports the deficit and the classes
   * needed: Unreachable exactly for a threshold of 100 or more, otherwise at least
   * one class once any class was held, and then enough to reach the threshold.
   */
  lemma RiskBehindQuotesNeeded(q: string, d: Snapshot)
    requires d.Valid()
    requires RiskHandler(q, d).risk.Behind?
    ensures var r := RiskHandler(q, d);
      r.risk.deficit > 0.0 &&
      (r.risk.needed.Unreachable? <==> r.threshold >= 100) &&
      (r.risk.needed.Classes? && d.totalClasses > 0 ==>
        r.risk.needed.n >= 1 &&
        AtLeast(AttendMore(d.attendedClasses, d.totalClasses, r.risk.needed.n), r.threshold as real))
  {
    var threshold := PercentOr75(q);
    SnapshotBelow(d, threshold);
    if threshold < 100 {
      ClassesForTargetPositive(d.attendedClasses, d.totalClasses, threshold);
      ClassesForTargetReaches(d.attendedClasses, d.totalClasses, threshold);
    }
  }

  /**
   * The reach-a-target handler: the target counts as met exactly when the current
   * percentage is at or above it; a plan quotes the fewest classes that reach it.
   */
  lemma TargetPlanMinimal(q: string, d: Snapshot)
    requires d.Valid()
    ensures var r := TargetHandler(q, d);
      (r.TargetMet? <==> d.Percentage() >= PercentOr75(q) as real) &&
      (r.TargetPlan? && d.totalClasses > 0 ==>
        r.target < 100 && r.needed >= 1 && AtLeast(r.to, r.target as real) &&
        Below(AttendMore(d.attendedClasses, d.totalClasses, r.needed - 1), r.target as real))
  {
    var target := PercentOr75(q);
    SnapshotBelow(d, target);
    if target < 100 {
      ClassesForTargetPositive(d.attendedClasses, d.totalClasses, target);
      ClassesForTargetReaches(d.attendedClasses, d.totalClasses, target);
    }
  }

  /**
   * "Mathematically impossible" is said only for targets of 100 or more, and the
   * quoted best case, after 500 more classes, never exceeds 100%; with any class
   * missed so far it stays below the target.
   */
  lemma TargetImpossibleBestCase(q: string, d: Snapshot)
    requires d.Valid()
    requires TargetHandler(q, d).TargetImpossible?
    ensures var r := TargetHandler(q, d);
      r.target >= 100 && r.best.Value? && r.best.v <= 100.0 &&
      (d.attendedClasses < d.totalClasses ==> r.best.v < r.target as real)
  {
    var a, t := d.attendedClasses, d.totalClasses;
    if a < t {
      RateVersus(a + BestCaseClasses, t + BestCaseClasses, 100);
    }
  }

  /**
   * When nothing has been held yet, a reach-a-target query below 100% gets the
   * as-written plan of 0 classes ending at NaN%.
   */
  lemma TargetPlanWithoutClasses(q: string, d: Snapshot)
    requires d.Valid() && d.totalClasses == 0
    requires 0 < PercentOr75(q) < 100
    ensures TargetHandler(q, d) == TargetPlan(PercentOr75(q), 0, 0.0, NaN)
  {
  }

  /**
   * The projection handler's note: reaching the minimum is announced only for a
   * student below it whom the projection lifts to it; a remaining shortfall is
   * at least one class and exactly enough to reach the minimum.
   */
  lemma ProjectionNoteSound(q: string, d: Snapshot)
    requires d.Valid()
    ensures var r := ProjectionHandler(q, d);
      (r.note.ReachesMinimum? ==> r.from < Minimum as real && AtLeast(r.to, Minimum as real)) &&
      (r.note.StillShort? ==>
        r.note.needed.Classes? && r.note.needed.n >= 1 &&
        AtLeast(AttendMore(d.attendedClasses + r.extra, d.totalClasses + r.extra, r.note.needed.n), Minimum as real))
  {
    var k := CountOr(q, 5);
    var a, t := d.attendedClasses + k, d.totalClasses + k;
    var r := ProjectionHandler(q, d);
    if r.note.StillShort? {
      assert t > 0;
      RateVersus(a, t, Minimum);
      ClassesForTargetPositive(a, t, Minimum);
      ClassesForTargetReaches(a, t, Minimum);
    }
  }

  /**
   * The improvement handler never reaches its "not mathematically possible"
   * branches (90 and 75 are below 100), and between 75% and 90% it always asks
   * for at least one more class.
   */
  lemma ImprovementAdviceReachable(d: Snapshot)
    requires d.Valid()
    ensures var r := ImprovementHandler(d);
      (r.advice.TowardExcellent? ==> r.advice.needed.Classes? && r.advice.needed.n >= 1) &&
      (r.advice.TowardMinimum? ==>
        r.advice.needed.Classes? && (d.totalClasses > 0 ==> r.advice.needed.n >= 1))
  {
    SnapshotBelow(d, Excellent);
    SnapshotBelow(d, Minimum);
    ClassesForTargetPositive(d.attendedClasses, d.totalClasses, Excellent);
    ClassesForTargetPositive(d.attendedClasses, d.totalClasses, Minimum);
  }

  /**
   * Analytics: the "cannot reach minimum" standing never occurs and the
   * scenarios are always computed; once classes were held, the standing is
   * below requirement exactly when the missable count is a deficit, and the two
   * quote the same number of classes.
   */
  lemma AnalyticsConsistent(d: Snapshot)
    requires d.Valid()
    ensures var r := AnalyticsHandler(d);
      r.standing != CannotReach && r.scenarios != NoScenario &&
      (d.totalClasses > 0 ==>
        (r.standing.BelowRequirement? <==> r.missable.Deficit?) &&
        (r.missable.Deficit? ==> r.missable.needed == Classes(r.standing.needed) && r.standing.needed >= 1))
  {
    SnapshotBelow(d, Minimum);
    MissableDeficitIff(d.attendedClasses, d.totalClasses, Minimum);
    ClassesForTargetPositive(d.attendedClasses, d.totalClasses, Minimum);
  }

  lemma DivMonotone(x: real, y: real, d: real)
    requires x <= y && d > 0.0
    ensures x / d <= y / d
  {
    var qx, qy := x / d, y / d;
    assert qx * d == x && qy * d == y;
  }

  /** Attending half the remaining classes never projects higher than attending all of them. */
  lemma AnalyticsScenariosOrdered(d: Snapshot)
    requires d.Valid() && d.totalRemainingClasses.Some?
    ensures var s := AnalyticsHandler(d).scenarios;
      s.Outlook? && (s.attendAll.NaN? <==> s.attendHalf.NaN?) &&
      (s.attendAll.Value? ==> s.attendHalf.v <= s.attendAll.v <= 100.0)
  {
    var a, t, left := d.attendedClasses, d.totalClasses, d.totalRemainingClasses.value;
    if t + left > 0 {
      var den := (t + left) as real;
      DivMonotone(a as real + left as real / 2.0, (a + left) as real, den);
    }
  }

  /**
   * The summary never says "mathematically impossible", never quotes a deficit
   * as classes that can be missed, and asks for at least one class once classes
   * were held.
   */
  lemma SummaryRequirementSound(d: Snapshot)
    requires d.Valid()
    ensures var r := StatusHandler(d);
      !r.requirement.MinimumImpossible? &&
      (r.requirement.MayMiss? ==> !r.requirement.canMiss.Deficit?) &&
      (r.requirement.MustAttend? && d.totalClasses > 0 ==> r.requirement.n >= 1)
  {
    SnapshotBelow(d, Minimum);
    MissableDeficitIff(d.attendedClasses, d.totalClasses, Minimum);
    ClassesForTargetPositive(d.attendedClasses, d.totalClasses, Minimum);
  }

  /** Spreading the same attended count over more classes never raises the ratio. */
  lemma RatioShrinks(a: nat, t: nat, k: nat)
    requires t > 0
    ensures a as real / (t + k) as real <= a as real / t as real
  {
    var x, y := a as real / (t + k) as real, a as real / t as real;
    assert x * (t + k) as real == a as real && y * t as real == a as real;
    assert y >= 0.0;
    assert y * (t + k) as real >= y * t as real;
  }

  /**
   * The what-if-miss reply: missing classes never raises the percentage, so the
   * quoted decrease is never negative; a warning is attached only when the
   * projected percentage falls below the threshold, and "this would put you
   * below" only for a student who is at or above it now.
   */
  lemma MissImpactSound(q: string, d: Snapshot)
    requires d.Valid()
    ensures var r := WhatIfMissHandler(q, d);
      (r.to.Value? ==> r.drop.Value? && r.to.v <= r.from && r.drop.v >= 0.0) &&
      (!r.missRisk.NotRisky? ==> Below(r.to, r.threshold as real)) &&
      (r.missRisk.FallsBelow? ==> r.from >= r.threshold as real) &&
      (r.missRisk.FurtherBelow? ==> r.from < r.threshold as real)
  {
    var k := CountOr(q, 1);
    if d.totalClasses > 0 {
      RatioShrinks(d.attendedClasses, d.totalClasses, k);
    }
  }

  /** With no "in <word>" in the query, the subject falls back to "this course", and only then. */
  lemma SubjectDefault(q: string)
    ensures SubjectOf(q) == "this course" <==> forall a :: !InPhrase(q, a)
  {
    FirstSubjectSpec(q);
    if SubjectFrom(q, 0).Some? {
      var w := SubjectFrom(q, 0).value;
      assert w != "this course" by {
        if |w| == 11 {
          assert IsLetter(w[4]) && "this course"[4] == ' ';
        }
      }
    }
  }

  /**
   * The subject handler's lookup: the key is the subject itself, already lower
   * case, and the "no subject-specific data" reply comes exactly when the table
   * lacks it.
   */
  lemma SubjectLookup(q: string, d: Snapshot)
    ensures Lower(SubjectOf(q)) == SubjectOf(q)
    ensures SubjectHandler(q, d).NoSubjectData? <==> SubjectOf(q) !in d.subjectWise
  {
    FirstSubjectSpec(q);
    var s := SubjectOf(q);
    assert forall i :: 0 <= i < |s| ==> !IsUpper(s[i]);
  }

  /** A subject reply shows the table's entry, its percentage rounded, and that entry's risk line. */
  lemma SubjectReplyContents(q: string, d: Snapshot)
    requires SubjectOf(q) in d.subjectWise
    ensures var r := SubjectHandler(q, d);
      r.SubjectReply? && r.subject == SubjectOf(q) && r.stats == d.subjectWise[SubjectOf(q)] &&
      r.percentage == Round2(r.stats.percentage) && r.subjectRisk == SubjectRiskOf(r.stats)
  {
    SubjectLookup(q, d);
  }

  /**
   * The subject risk line for an entry whose percentage agrees with its counts.
   * "Short" comes exactly when the percentage is below 74.995, since the
   * comparison is made after rounding; it then names the fewest further classes
   * that reach 75%. At 75% or more, the spare count is the most classes that
   * can be missed. Between 74.995 and 75 the spare branch is taken with a
   * deficit, which the reply shows as a negative count.
   */
  lemma {:induction false} SubjectRiskMeaning(stats: SubjectStats)
    requires stats.Consistent()
    ensures SubjectRiskOf(stats).SubjectShort? <==> stats.percentage < 74.995
    ensures var r := SubjectRiskOf(stats); var a, t := stats.attended, stats.total;
      r.SubjectShort? ==>
        r.needed.Classes? && (t > 0 <==> r.needed.n >= 1) &&
        (t > 0 ==> AtLeast(AttendMore(a, t, r.needed.n), 75.0) && Below(AttendMore(a, t, r.needed.n - 1), 75.0))
    ensures var r := SubjectRiskOf(stats); var a, t := stats.attended, stats.total;
      r.SubjectSpare? && stats.percentage >= 75.0 ==>
        r.canMiss.Spare? && 75 * (t + r.canMiss.k) <= 100 * a < 75 * (t + r.canMiss.k + 1)
    ensures var r := SubjectRiskOf(stats);
      r.SubjectSpare? && stats.percentage < 75.0 ==>
        r.canMiss.Deficit? && r.canMiss.needed.Classes? && r.canMiss.needed.n >= 1
  {
    var a, t := stats.attended, stats.total;
    Round2BelowMinimum(stats.percentage);
    if t > 0 {
      RateVersus(a, t, Minimum);
      assert Rate(a as real, t as real) == Value(stats.percentage);
    }
    MissableDeficitIff(a, t, Minimum);
    ClassesForTargetPositive(a, t, Minimum);
    ClassesForTargetReaches(a, t, Minimum);
    if !MissableClasses(a, t, Minimum).Deficit? {
      MissableSpareExact(a, t, Minimum);
    } else {
      MissableDeficitMagnitude(a, t, Minimum);
    }
  }

  /**
   * The boundary case: 18749 of 25000 is 74.996%, shown as 75.00, so the spare
   * branch is taken although four more attended classes are still needed.
   */
  lemma SubjectRiskAtRoundingBoundary(stats: SubjectStats)
    requires stats == SubjectStats(18749, 25000, 74.996)
    ensures stats.Consistent()
    ensures Round2(stats.percentage) == 75.0
    ensures SubjectRiskOf(stats) == SubjectSpare(Deficit(Classes(4)))
  {
    Round2BelowMinimum(stats.percentage);
    assert Round2(stats.percentage) == 75.0 by {
      assert (stats.percentage * 100.0 + 0.5).Floor == 7500;
    }
    assert ClassesForTarget(18749, 25000, 75) == Classes(4) by {
      assert (75 * 25000 - 100 * 18749) as real / 25 as real == 4.0;
    }
  }
}
