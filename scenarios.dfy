/** Worked examples of the assistant, each evaluated from the definitions. */
module Scenarios {
  import opened Optional
  import opened Attendance
  import opened Projection
  import opened Text
  import opened Intents
  import opened Assistant

  /** 74 of 100 needs four more attended classes to reach 75%: 78/104 = 75%. */
  lemma SeventyFourOfHundred()
    ensures ClassesForTarget(74, 100, 75) == Classes(4)
  {
  }

  /** At 20 of 40 (50%) the student is 40 classes short of 75%. */
  lemma TwentyOfForty()
    ensures MissableClasses(20, 40, 75) == Deficit(Classes(40))
  {
  }

  /** Lower-casing "What's my attendance?", character by character. */
  lemma LowerPercentageQuery(query: string)
    requires query == "What's my attendance?"
    ensures Lower(query) == "what's my attendance?"
  {
    LowerPointwise(query, "what's my attendance?");
  }

  /** "what's my attendance?" contains "my attendance". */
  lemma PercentageQueryMatches(q: string)
    requires q == "what's my attendance?"
    ensures Contains(q, "my attendance")
  {
    assert OccursAt(q, "my attendance", 7);
    ContainsIff(q, "my attendance");
  }

  /** Respond hands a query the percentage triggers select to the percentage handler. */
  lemma RespondPercentage(query: string, d: Snapshot)
    requires d.Valid() && Contains(Lower(query), "my attendance")
    ensures Respond(query, Some(d)) == PercentageHandler(d)
  {
  }

  /** "What's my attendance?" is lower-cased, matches "my attendance", and quotes 30/40 = 75%. */
  lemma AskPercentage(query: string, d: Snapshot)
    requires query == "What's my attendance?" && d == Snapshot(40, 30, [], map[], None)
    ensures Respond(query, Some(d)) == CurrentPercentageReply(75.0, 30, 40)
  {
    assert Contains(Lower(query), "my attendance") by {
      LowerPercentageQuery(query);
      PercentageQueryMatches(Lower(query));
    }
    RespondPercentage(query, d);
  }

  /** A query without '%' names no threshold. */
  lemma NoPercentSign(q: string)
    requires '%' !in q
    ensures FirstPercentNumber(q) == None
  {
    FirstPercentNumberSpec(q);
  }

  /** Every percentage trigger contains a 't', a 'p' or a 'd'. */
  lemma NotPercentageQuery(q: string)
    requires 't' !in q && 'p' !in q && 'd' !in q
    ensures !AsksPercentage(q)
  {
    MissingCharNotContained(q, "attendance percentage", 1);
    MissingCharNotContained(q, "my attendance", 4);
    MissingCharNotContained(q, "percentage", 0);
    MissingCharNotContained(q, "how am i doing", 9);
    MissingCharNotContained(q, "how i'm doing", 8);
  }

  /** Past the percentage triggers, any mention of "miss" selects the leaves handler. */
  lemma MissSelectsLeaves(q: string)
    requires !AsksPercentage(q) && Contains(q, "miss")
    ensures Classify(q) == Leaves
  {
  }

  /** Lower-casing "How many classes can I miss?", character by character. */
  lemma LowerMissQuery(query: string)
    requires query == "How many classes can I miss?"
    ensures Lower(query) == "how many classes can i miss?"
  {
    LowerPointwise(query, "how many classes can i miss?");
  }

  /** "how many classes can i miss?" has no 't', 'p', 'd' or '%'. */
  lemma MissQueryLetters(q: string)
    requires q == "how many classes can i miss?"
    ensures 't' !in q && 'p' !in q && 'd' !in q && '%' !in q
  {
  }

  /** "how many classes can i miss?" contains "miss". */
  lemma MissQueryContainsMiss(q: string)
    requires q == "how many classes can i miss?"
    ensures Contains(q, "miss")
  {
    assert OccursAt(q, "miss", 23);
    ContainsIff(q, "miss");
  }

  /** Respond hands a query the leaves trigger selects to the leaves handler. */
  lemma RespondLeaves(query: string, d: Snapshot)
    requires d.Valid() && Classify(Lower(query)) == Leaves
    ensures Respond(query, Some(d)) == LeavesHandler(Lower(query), d)
  {
  }

  /** "How many classes can I miss?" at 20 of 40 is answered with the leaves reply at the default 75%. */
  lemma AskMissable(query: string, d: Snapshot)
    requires query == "How many classes can I miss?" && d == Snapshot(40, 20, [], map[], None)
    ensures Respond(query, Some(d)) == LeavesReply(75, Deficit(Classes(40)))
  {
    var q := Lower(query);
    assert 't' !in q && 'p' !in q && 'd' !in q && '%' !in q && Contains(q, "miss") by {
      LowerMissQuery(query);
      MissQueryLetters(q);
      MissQueryContainsMiss(q);
    }
    NotPercentageQuery(q);
    MissSelectsLeaves(q);
    NoPercentSign(q);
    RespondLeaves(query, d);
    TwentyOfForty();
  }
}
