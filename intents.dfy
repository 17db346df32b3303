/**
 * The intent matcher: an ordered chain of predicates over the lower-cased
 * query, built from substring tests and small regular expressions. The first
 * predicate that holds wins; when none does, the help text is the answer.
 */
module Intents {
  import opened Text

  datatype Intent =
    | CurrentPercentage | Leaves | ProjectAttendance | AtRisk | ClassesAttended | ClassesMissed
    | ReachTarget | WhatIfMiss | History | Subject | Improvement | Analytics | StatusSummary | Help

  /** "attendance percentage", "my attendance", or /percentage|how (am i|i'm) doing/. */
  predicate AsksPercentage(q: string)
  {
    Contains(q, "attendance percentage") || Contains(q, "my attendance") ||
    Contains(q, "percentage") || Contains(q, "how am i doing") || Contains(q, "how i'm doing")
  }

  predicate AsksLeaves(q: string)
  {
    Contains(q, "leaves") || Contains(q, "absence") || Contains(q, "absent") ||
    Contains(q, "miss") || Contains(q, "skip") || Contains(q, "how many classes can i miss")
  }

  predicate AsksProjection(q: string)
  {
    Contains(q, "if i attend") || (Contains(q, "will") && Contains(q, "percentage")) ||
    Contains(q, "project")
  }

  predicate AsksRisk(q: string)
  {
    Contains(q, "at risk") || Contains(q, "danger") || Contains(q, "failing") ||
    (Contains(q, "will") && Contains(q, "pass")) || Contains(q, "minimum")
  }

  predicate AsksAttended(q: string)
  {
    Contains(q, "classes attended") || Contains(q, "how many classes") || Contains(q, "total classes")
  }

  predicate AsksMissed(q: string)
  {
    Contains(q, "missed") || Contains(q, "absences") || Contains(q, "not attended")
  }

  /** `(reach || achieve || get to) && /\d+%/ || (need && to attend)`, with `&&` binding tighter. */
  predicate AsksTarget(q: string)
  {
    ((Contains(q, "reach") || Contains(q, "achieve") || Contains(q, "get to")) && HasPercentNumber(q)) ||
    (Contains(q, "need") && Contains(q, "to attend"))
  }

  predicate AsksWhatIfMiss(q: string)
  {
    (Contains(q, "miss") || Contains(q, "skip")) && HasDigit(q)
  }

  predicate AsksHistory(q: string)
  {
    Contains(q, "history") || Contains(q, "trend") || Contains(q, "pattern")
  }

  /** "subject", "course", or /in (Immunology|Computational Biology|english|history|physics|chemistry)/i. */
  predicate AsksSubject(q: string)
  {
    Contains(q, "subject") || Contains(q, "course") ||
    Contains(q, "in immunology") || Contains(q, "in computational biology") || Contains(q, "in english") ||
    Contains(q, "in history") || Contains(q, "in physics") || Contains(q, "in chemistry")
  }

  predicate AsksImprovement(q: string)
  {
    Contains(q, "improve") || Contains(q, "get better") || Contains(q, "increase")
  }

  predicate AsksAnalytics(q: string)
  {
    Contains(q, "analytics") || Contains(q, "statistics") || Contains(q, "analysis") ||
    Contains(q, "detailed info")
  }

  predicate AsksStatus(q: string)
  {
    Contains(q, "status") || Contains(q, "summary") || Contains(q, "overview") ||
    (Contains(q, "how") && Contains(q, "doing"))
  }

  /** The predicate guarding each intent's handler; Help's is the fallback and always holds. */
  predicate Matches(intent: Intent, q: string)
  {
    match intent
    case CurrentPercentage => AsksPercentage(q)
    case Leaves => AsksLeaves(q)
    case ProjectAttendance => AsksProjection(q)
    case AtRisk => AsksRisk(q)
    case ClassesAttended => AsksAttended(q)
    case ClassesMissed => AsksMissed(q)
    case ReachTarget => AsksTarget(q)
    case WhatIfMiss => AsksWhatIfMiss(q)
    case History => AsksHistory(q)
    case Subject => AsksSubject(q)
    case Improvement => AsksImprovement(q)
    case Analytics => AsksAnalytics(q)
    case StatusSummary => AsksStatus(q)
    case Help => true
  }

  /** The declaration order of the handlers. */
  const Chain: seq<Intent> :=
    [CurrentPercentage, Leaves, ProjectAttendance, AtRisk, ClassesAttended, ClassesMissed,
     ReachTarget, WhatIfMiss, History, Subject, Improvement, Analytics, StatusSummary]

  /** The chain of `if` statements of the query handler, in source order. */
  function Classify(q: string): Intent
  {
    if AsksPercentage(q) then CurrentPercentage
    else if AsksLeaves(q) then Leaves
    else if AsksProjection(q) then ProjectAttendance
    else if AsksRisk(q) then AtRisk
    else if AsksAttended(q) then ClassesAttended
    else if AsksMissed(q) then ClassesMissed
    else if AsksTarget(q) then ReachTarget
    else if AsksWhatIfMiss(q) then WhatIfMiss
    else if AsksHistory(q) then History
    else if AsksSubject(q) then Subject
    else if AsksImprovement(q) then Improvement
    else if AsksAnalytics(q) then Analytics
    else if AsksStatus(q) then StatusSummary
    else Help
  }

  /** Reference dispatch: walk a table of intents and take the first whose predicate holds. */
  function FirstMatch(table: seq<Intent>, q: string): Intent
  {
    if table == [] then Help
    else if Matches(table[0], q) then table[0]
    else FirstMatch(table[1..], q)
  }

  /** First-match search returns the earliest entry whose predicate holds, Help when none does. */
  lemma {:induction false} FirstMatchSpec(table: seq<Intent>, q: string)
    requires Help !in table
    ensures FirstMatch(table, q) == Help <==> forall i :: 0 <= i < |table| ==> !Matches(table[i], q)
    ensures FirstMatch(table, q) != Help ==>
      exists i :: 0 <= i < |table| && table[i] == FirstMatch(table, q) && Matches(table[i], q) &&
        forall j :: 0 <= j < i ==> !Matches(table[j], q)
  {
    if table != [] && !Matches(table[0], q) {
      FirstMatchSpec(table[1..], q);
      assert forall i :: 1 <= i < |table| ==> table[i] == table[1..][i - 1];
      if FirstMatch(table, q) != Help {
        var i :| 0 <= i < |table[1..]| && table[1..][i] == FirstMatch(table, q) && Matches(table[1..][i], q) &&
          forall j :: 0 <= j < i ==> !Matches(table[1..][j], q);
        assert table[i + 1] == FirstMatch(table, q);
      }
    } else if table != [] {
      assert table[0] != Help;
    }
  }

  /** One step of the walk over the declaration order. */
  lemma FirstMatchStep(k: nat, q: string)
    requires k < |Chain|
    ensures FirstMatch(Chain[k..], q) == if Matches(Chain[k], q) then Chain[k] else FirstMatch(Chain[k + 1..], q)
  {
    assert Chain[k..][0] == Chain[k] && Chain[k..][1..] == Chain[k + 1..];
  }

  /** Position 0 of the walk: CurrentPercentage, or the rest of the chain. */
  lemma ChainAt0(q: string)
    ensures FirstMatch(Chain[0..], q) == if AsksPercentage(q) then CurrentPercentage else FirstMatch(Chain[1..], q)
  {
    FirstMatchStep(0, q);
  }

  /** Position 1 of the walk: Leaves, or the rest of the chain. */
  lemma ChainAt1(q: string)
    ensures FirstMatch(Chain[1..], q) == if AsksLeaves(q) then Leaves else FirstMatch(Chain[2..], q)
  {
    FirstMatchStep(1, q);
  }

  /** Position 2 of the walk: ProjectAttendance, or the rest of the chain. */
  lemma ChainAt2(q: string)
    ensures FirstMatch(Chain[2..], q) == if AsksProjection(q) then ProjectAttendance else FirstMatch(Chain[3..], q)
  {
    FirstMatchStep(2, q);
  }

  /** Position 3 of the walk: AtRisk, or the rest of the chain. */
  lemma ChainAt3(q: string)
    ensures FirstMatch(Chain[3..], q) == if AsksRisk(q) then AtRisk else FirstMatch(Chain[4..], q)
  {
    FirstMatchStep(3, q);
  }

  /** Position 4 of the walk: ClassesAttended, or the rest of the chain. */
  lemma ChainAt4(q: string)
    ensures FirstMatch(Chain[4..], q) == if AsksAttended(q) then ClassesAttended else FirstMatch(Chain[5..], q)
  {
    FirstMatchStep(4, q);
  }

  /** Position 5 of the walk: ClassesMissed, or the rest of the chain. */
  lemma ChainAt5(q: string)
    ensures FirstMatch(Chain[5..], q) == if AsksMissed(q) then ClassesMissed else FirstMatch(Chain[6..], q)
  {
    FirstMatchStep(5, q);
  }

  /** Position 6 of the walk: ReachTarget, or the rest of the chain. */
  lemma ChainAt6(q: string)
    ensures FirstMatch(Chain[6..], q) == if AsksTarget(q) then ReachTarget else FirstMatch(Chain[7..], q)
  {
    FirstMatchStep(6, q);
  }

  /** Position 7 of the walk: WhatIfMiss, or the rest of the chain. */
  lemma ChainAt7(q: string)
    ensures FirstMatch(Chain[7..], q) == if AsksWhatIfMiss(q) then WhatIfMiss else FirstMatch(Chain[8..], q)
  {
    FirstMatchStep(7, q);
  }

  /** Position 8 of the walk: History, or the rest of the chain. */
  lemma ChainAt8(q: string)
    ensures FirstMatch(Chain[8..], q) == if AsksHistory(q) then History else FirstMatch(Chain[9..], q)
  {
    FirstMatchStep(8, q);
  }

  /** Position 9 of the walk: Subject, or the rest of the chain. */
  lemma ChainAt9(q: string)
    ensures FirstMatch(Chain[9..], q) == if AsksSubject(q) then Subject else FirstMatch(Chain[10..], q)
  {
    FirstMatchStep(9, q);
  }

  /** Position 10 of the walk: Improvement, or the rest of the chain. */
  lemma ChainAt10(q: string)
    ensures FirstMatch(Chain[10..], q) == if AsksImprovement(q) then Improvement else FirstMatch(Chain[11..], q)
  {
    FirstMatchStep(10, q);
  }

  /** Position 11 of the walk: Analytics, or the rest of the chain. */
  lemma ChainAt11(q: string)
    ensures FirstMatch(Chain[11..], q) == if AsksAnalytics(q) then Analytics else FirstMatch(Chain[12..], q)
  {
    FirstMatchStep(11, q);
  }

  /** Position 12 of the walk: StatusSummary, or the help fallback. */
  lemma ChainAt12(q: string)
    ensures FirstMatch(Chain[12..], q) == if AsksStatus(q) then StatusSummary else Help
  {
    FirstMatchStep(12, q);
    assert Chain[13..] == [];
  }

  /** The if-chain is first-match dispatch over the declaration order. */
  lemma ClassifyIsFirstMatch(q: string)
    ensures Classify(q) == FirstMatch(Chain, q)
  {
    assert Chain[0..] == Chain;
    ChainAt0(q);
    ChainAt1(q);
    ChainAt2(q);
    ChainAt3(q);
    ChainAt4(q);
    ChainAt5(q);
    ChainAt6(q);
    ChainAt7(q);
    ChainAt8(q);
    ChainAt9(q);
    ChainAt10(q);
    ChainAt11(q);
    ChainAt12(q);
  }

  /**
   * Classify answers Help exactly when no handler's predicate holds, and otherwise
   * names the earliest handler in declaration order whose predicate holds.
   */
  lemma ClassifySpec(q: string)
    ensures Classify(q) == Help <==> forall i :: 0 <= i < |Chain| ==> !Matches(Chain[i], q)
    ensures Classify(q) != Help ==>
      exists i :: 0 <= i < |Chain| && Chain[i] == Classify(q) && Matches(Chain[i], q) &&
        forall j :: 0 <= j < i ==> !Matches(Chain[j], q)
  {
    ClassifyIsFirstMatch(q);
    FirstMatchSpec(Chain, q);
  }

  /**
   * The what-if-miss handler is dead code: its predicate needs "miss" or "skip",
   * and the leaves predicate, earlier in the chain, already accepts both.
   */
  lemma WhatIfMissNeverChosen(q: string)
    ensures Classify(q) != WhatIfMiss
  {
  }

  /**
   * The missed-classes handler only fires through "not attended": "missed"
   * contains "miss" and "absences" contains "absence", both taken by leaves.
   */
  lemma ClassesMissedOnlyNotAttended(q: string)
    ensures Classify(q) == ClassesMissed ==> Contains(q, "not attended")
  {
    if Contains(q, "missed") {
      assert "missed" == "miss" + "ed";
      ContainsPrefix(q, "miss", "ed");
    }
    if Contains(q, "absences") {
      assert "absences" == "absence" + "s";
      ContainsPrefix(q, "absence", "s");
    }
  }

  /**
   * The projection handler never fires through "will" and "percentage": any query
   * containing "percentage" is answered by the percentage handler first.
   */
  lemma ProjectionTriggers(q: string)
    ensures Classify(q) == ProjectAttendance ==> Contains(q, "if i attend") || Contains(q, "project")
  {
  }

  /**
   * The subject handler never fires through "in history": "history" makes the
   * history handler, earlier in the chain, answer.
   */
  lemma SubjectTriggers(q: string)
    ensures Classify(q) == Subject ==> !Contains(q, "in history")
  {
    if Contains(q, "in history") {
      InHistoryMentionsHistory(q);
      assert AsksHistory(q);
    }
  }

  /** A query containing "in history" contains "history". */
  lemma InHistoryMentionsHistory(q: string)
    requires Contains(q, "in history")
    ensures Contains(q, "history")
  {
    ContainsIff(q, "in history");
    var i :| OccursAt(q, "in history", i);
    assert q[i + 3..i + 10] == "history";
    assert OccursAt(q, "history", i + 3);
    ContainsIff(q, "history");
  }
}
