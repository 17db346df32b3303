/**
 * The response composer and the query handler: given a query and the current
 * snapshot, pick the intent and compute what the reply states. A reply is an
 * intent tag with the numbers its text shows; the wording and the two-decimal
 * display formatting are not modelled.
 */
module Assistant {
  import opened Optional
  import opened Attendance
  import opened Projection
  import opened Trend
  import opened Text
  import opened Intents

  /** The minimum requirement several handlers use, and the "excellent" level. */
  const Minimum: nat := 75
  const Excellent: nat := 90
  /** The number of classes the best-case estimate assumes. */
  const BestCaseClasses: nat := 500

  datatype Risk = Safe(buffer: real, canMiss: Missable) | Behind(deficit: real, needed: Needed)
  datatype ProjectionNote = NoNote | ReachesMinimum | StillShort(needed: Needed)
  datatype MissRisk = NotRisky | FallsBelow(needed: Needed) | FurtherBelow(needed: Needed)
  datatype SubjectRisk = SubjectShort(needed: Needed) | SubjectSpare(canMiss: Missable)
  datatype Advice = Maintain | TowardExcellent(needed: Needed) | TowardMinimum(needed: Needed)
  datatype Standing = Outstanding | Satisfactory | BelowRequirement(needed: nat) | CannotReach
  datatype RecentComparison = RecentHigher(recent: real) | RecentLower(recent: real) | RecentSame(recent: real)
  datatype Level = ExcellentLevel | GoodLevel | AtRiskLevel
  datatype Requirement = MayMiss(canMiss: Missable) | MinimumImpossible | MustAttend(n: nat)
  /** Projections for attending all, or half, of the remaining classes. */
  datatype Outlook = Outlook(attendAll: Pct, attendHalf: Pct) | NoScenario

  datatype Response =
    | NoData
    | CurrentPercentageReply(percentage: real, attended: nat, total: nat)
    | LeavesReply(threshold: nat, missable: Missable)
    | ProjectionReply(extra: nat, from: real, to: Pct, note: ProjectionNote)
    | RiskReply(threshold: nat, percentage: real, risk: Risk)
    | AttendedReply(attended: nat, total: nat, percentage: real)
    | MissedReply(missed: nat, total: nat, absenceRate: real)
    | TargetMet(percentage: real, target: nat)
    | TargetImpossible(target: nat, best: Pct)
    | TargetPlan(target: nat, needed: nat, from: real, to: Pct)
    | MissImpact(missCount: nat, from: real, to: Pct, drop: Pct, threshold: nat, missRisk: MissRisk)
    | HistoryReply(lastFive: seq<Record>, trend: Direction, overall: real)
    | NoHistory(overall: real)
    | SubjectReply(subject: string, stats: SubjectStats, percentage: real, subjectRisk: SubjectRisk)
    | NoSubjectData(subject: string, overall: real)
    | ImprovementReply(percentage: real, advice: Advice)
    | AnalyticsReply(present: nat, absent: nat, presentRate: real, absentRate: real,
                     standing: Standing, recent: Option<RecentComparison>, missable: Missable,
                     scenarios: Outlook, toMinimum: Needed, toExcellent: Needed)
    | SummaryReply(level: Level, percentage: real, requirement: Requirement, recentRate: Option<real>,
                   total: nat, attended: nat)
    | HelpReply

  /** The intent whose handler produced a reply; the no-data reply is the short-circuit before any. */
  function IntentOf(r: Response): Intent
  {
    match r
    case NoData => Help
    case CurrentPercentageReply(_, _, _) => CurrentPercentage
    case LeavesReply(_, _) => Leaves
    case ProjectionReply(_, _, _, _) => ProjectAttendance
    case RiskReply(_, _, _) => AtRisk
    case AttendedReply(_, _, _) => ClassesAttended
    case MissedReply(_, _, _) => ClassesMissed
    case TargetMet(_, _) => ReachTarget
    case TargetImpossible(_, _) => ReachTarget
    case TargetPlan(_, _, _, _) => ReachTarget
    case MissImpact(_, _, _, _, _, _) => WhatIfMiss
    case HistoryReply(_, _, _) => History
    case NoHistory(_) => History
    case SubjectReply(_, _, _, _) => Subject
    case NoSubjectData(_, _) => Subject
    case ImprovementReply(_, _) => Improvement
    case AnalyticsReply(_, _, _, _, _, _, _, _, _, _) => Analytics
    case SummaryReply(_, _, _, _, _, _) => StatusSummary
    case HelpReply => Help
  }

  /** `parseFloat(x.toFixed(2))`: nearest hundredth, ties away from zero. */
  function Round2(x: real): real
  {
    if x < 0.0 then -((-x * 100.0 + 0.5).Floor as real / 100.0)
    else (x * 100.0 + 0.5).Floor as real / 100.0
  }

  /** Rounding moves a value by at most half a hundredth. */
  lemma Round2Close(x: real)
    ensures -0.005 <= Round2(x) - x <= 0.005
  {
  }

  /** Rounded to hundredths, a percentage is below 75 exactly when it is below 74.995. */
  lemma Round2BelowMinimum(x: real)
    ensures Round2(x) < 75.0 <==> x < 74.995
  {
    if x >= 0.0 {
      var f := (x * 100.0 + 0.5).Floor;
      assert f as real <= x * 100.0 + 0.5 < f as real + 1.0;
      assert Round2(x) == f as real / 100.0;
      assert Round2(x) < 75.0 <==> f < 7500;
    } else {
      var f := (-x * 100.0 + 0.5).Floor;
      assert f >= 0;
    }
  }

  /** `x - p` where p may be NaN. */
  function Minus(x: real, p: Pct): Pct
  {
    match p
    case Value(v) => Value(x - v)
    case NaN => NaN
  }

  /** `details.slice(-5)`. */
  function LastFive(details: seq<Record>): (r: seq<Record>)
    ensures |r| == if |details| < 5 then |details| else 5
    ensures r == details[|details| - |r|..]
  {
    if |details| <= 5 then details else details[|details| - 5..]
  }

  /** `(presentCount / 5) * 100` over the last five records. */
  function RecentRate(details: seq<Record>): real
  {
    PresentCount(LastFive(details)) as real / 5.0 * 100.0
  }

  // ---------------------------------------------------------------------------
  // The handlers, in chain order

  function PercentageHandler(d: Snapshot): (r: Response)
    ensures IntentOf(r) == CurrentPercentage
  {
    CurrentPercentageReply(d.Percentage(), d.attendedClasses, d.totalClasses)
  }

  function LeavesHandler(q: string, d: Snapshot): (r: Response)
    ensures IntentOf(r) == Leaves
  {
    var threshold := PercentOr75(q);
    LeavesReply(threshold, MissableClasses(d.attendedClasses, d.totalClasses, threshold))
  }

  function ProjectionHandler(q: string, d: Snapshot): (r: Response)
    requires d.Valid()
    ensures IntentOf(r) == ProjectAttendance
  {
    var extra := CountOr(q, 5);
    var a, t := d.attendedClasses, d.totalClasses;
    var newPercentage := AttendMore(a, t, extra);
    var current := d.Percentage();
    var note :=
      if current < Minimum as real && AtLeast(newPercentage, Minimum as real) then ReachesMinimum
      else if current < Minimum as real && Below(newPercentage, Minimum as real) then
        StillShort(ClassesForTarget(a + extra, t + extra, Minimum))
      else NoNote;
    ProjectionReply(extra, current, newPercentage, note)
  }

  function RiskHandler(q: string, d: Snapshot): (r: Response)
    ensures IntentOf(r) == AtRisk
  {
    var threshold := PercentOr75(q);
    var current := d.Percentage();
    var a, t := d.attendedClasses, d.totalClasses;
    if current < threshold as real then
      RiskReply(threshold, current, Behind(threshold as real - current, ClassesForTarget(a, t, threshold)))
    else
      RiskReply(threshold, current, Safe(current - threshold as real, MissableClasses(a, t, threshold)))
  }

  function AttendedHandler(d: Snapshot): (r: Response)
    ensures IntentOf(r) == ClassesAttended
  {
    AttendedReply(d.attendedClasses, d.totalClasses, d.Percentage())
  }

  function MissedHandler(d: Snapshot): (r: Response)
    requires d.Valid()
    ensures IntentOf(r) == ClassesMissed
  {
    MissedReply(d.totalClasses - d.attendedClasses, d.totalClasses, 100.0 - d.Percentage())
  }

  function TargetHandler(q: string, d: Snapshot): (r: Response)
    requires d.Valid()
    ensures IntentOf(r) == ReachTarget
  {
    var target := PercentOr75(q);
    var a, t := d.attendedClasses, d.totalClasses;
    var current := d.Percentage();
    if current >= target as real then TargetMet(current, target)
    else
      match ClassesForTarget(a, t, target)
      case Unreachable => TargetImpossible(target, AttendMore(a, t, BestCaseClasses))
      case Classes(n) => TargetPlan(target, n, current, AttendMore(a, t, n))
  }

  function WhatIfMissHandler(q: string, d: Snapshot): (r: Response)
    requires d.Valid()
    ensures IntentOf(r) == WhatIfMiss
  {
    var missCount := CountOr(q, 1);
    var a, t := d.attendedClasses, d.totalClasses;
    var current := d.Percentage();
    var newPercentage := MissMore(a, t, missCount);
    var threshold := PercentOr75(q);
    var risk :=
      if !Below(newPercentage, threshold as real) then NotRisky
      else if current >= threshold as real then FallsBelow(ClassesForTarget(a, t + missCount, threshold))
      else FurtherBelow(ClassesForTarget(a, t + missCount, threshold));
    MissImpact(missCount, current, newPercentage, Minus(current, newPercentage), threshold, risk)
  }

  function HistoryHandler(d: Snapshot): (r: Response)
    ensures IntentOf(r) == History
  {
    if |d.details| > 0 then HistoryReply(LastFive(d.details), TrendOf(d.details), d.Percentage())
    else NoHistory(d.Percentage())
  }

  /**
   * The risk line of the subject reply: the comparison with the minimum is made
   * on the rounded percentage, the figures are then recomputed from the counts.
   */
  function SubjectRiskOf(stats: SubjectStats): SubjectRisk
  {
    if Round2(stats.percentage) < Minimum as real then SubjectShort(ClassesForTarget(stats.attended, stats.total, Minimum))
    else SubjectSpare(MissableClasses(stats.attended, stats.total, Minimum))
  }

  function SubjectHandler(q: string, d: Snapshot): (r: Response)
    ensures IntentOf(r) == Subject
  {
    var subject := SubjectOf(q);
    var key := Lower(subject);
    if key in d.subjectWise then
      var stats := d.subjectWise[key];
      SubjectReply(subject, stats, Round2(stats.percentage), SubjectRiskOf(stats))
    else NoSubjectData(subject, d.Percentage())
  }

  function ImprovementHandler(d: Snapshot): (r: Response)
    ensures IntentOf(r) == Improvement
  {
    var current := d.Percentage();
    var a, t := d.attendedClasses, d.totalClasses;
    if current >= Excellent as real then ImprovementReply(current, Maintain)
    else if current >= Minimum as real then ImprovementReply(current, TowardExcellent(ClassesForTarget(a, t, Excellent)))
    else ImprovementReply(current, TowardMinimum(ClassesForTarget(a, t, Minimum)))
  }

  function AnalyticsHandler(d: Snapshot): (r: Response)
    requires d.Valid()
    ensures IntentOf(r) == Analytics
  {
    var a, t := d.attendedClasses, d.totalClasses;
    var present := d.Percentage();
    var recent :=
      if |d.details| >= 5 then
        var r := RecentRate(d.details);
        Some(if r > present then RecentHigher(r) else if r < present then RecentLower(r) else RecentSame(r))
      else None;
    var toMinimum := ClassesForTarget(a, t, Minimum);
    var toExcellent := ClassesForTarget(a, t, Excellent);
    var standing :=
      if present >= 90.0 then Outstanding
      else if present >= Minimum as real then Satisfactory
      else if toMinimum.Classes? then BelowRequirement(toMinimum.n)
      else CannotReach;
    var scenarios :=
      if toMinimum.Classes? then
        match d.totalRemainingClasses
        case None => Outlook(NaN, NaN)
        case Some(left) =>
          Outlook(Rate((a + left) as real, (t + left) as real),
                    Rate(a as real + left as real / 2.0, (t + left) as real))
      else NoScenario;
    AnalyticsReply(a, t - a, present, 100.0 - present, standing, recent,
                   MissableClasses(a, t, Minimum), scenarios, toMinimum, toExcellent)
  }

  function StatusHandler(d: Snapshot): (r: Response)
    ensures IntentOf(r) == StatusSummary
  {
    var current := d.Percentage();
    var a, t := d.attendedClasses, d.totalClasses;
    var level := if current >= 90.0 then ExcellentLevel else if current >= Minimum as real then GoodLevel else AtRiskLevel;
    var needed := ClassesForTarget(a, t, Minimum);
    var requirement :=
      if current >= Minimum as real then MayMiss(MissableClasses(a, t, Minimum))
      else if needed.Unreachable? then MinimumImpossible
      else MustAttend(needed.n);
    var recentRate := if |d.details| >= 5 then Some(RecentRate(d.details)) else None;
    SummaryReply(level, current, requirement, recentRate, t, a)
  }

  /**
   * generateResponse: the no-data short-circuit, then the handler of the first
   * intent whose predicate holds for the lower-cased query.
   */
  function Respond(query: string, data: Option<Snapshot>): (r: Response)
    requires data.Some? ==> data.value.Valid()
    ensures data.None? <==> r == NoData
    ensures data.Some? ==> IntentOf(r) == Classify(Lower(query))
  {
    match data
    case None => NoData
    case Some(d) =>
      var q := Lower(query);
      match Classify(q)
      case CurrentPercentage => PercentageHandler(d)
      case Leaves => LeavesHandler(q, d)
      case ProjectAttendance => ProjectionHandler(q, d)
      case AtRisk => RiskHandler(q, d)
      case ClassesAttended => AttendedHandler(d)
      case ClassesMissed => MissedHandler(d)
      case ReachTarget => TargetHandler(q, d)
      case WhatIfMiss => WhatIfMissHandler(q, d)
      case History => HistoryHandler(d)
      case Subject => SubjectHandler(q, d)
      case Improvement => ImprovementHandler(d)
      case Analytics => AnalyticsHandler(d)
      case StatusSummary => StatusHandler(d)
      case Help => HelpReply
  }
}
