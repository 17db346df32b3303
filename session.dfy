/**
 * The chat widget's conversation state and its send handler. Submitting
 * appends the user's turn at once and schedules the bot's turn; the timer that
 * later appends it is the separate step Deliver. Timers of one fixed delay fire
 * in the order they were set, so scheduled replies form a queue.
 */
module Session {
  import opened Optional
  import opened Attendance
  import opened Text
  import opened Assistant

  /** A turn of the log: the opening greeting, a user's query, or a bot reply. */
  datatype Turn = Greeting | UserTurn(text: string) | BotTurn(reply: Response)

  /** The user queries of a log, in order. */
  function Queries(turns: seq<Turn>): seq<string>
  {
    if turns == [] then []
    else (if turns[0].UserTurn? then [turns[0].text] else []) + Queries(turns[1..])
  }

  /** The bot replies of a log, in order. */
  function BotReplies(turns: seq<Turn>): seq<Response>
  {
    if turns == [] then []
    else (if turns[0].BotTurn? then [turns[0].reply] else []) + BotReplies(turns[1..])
  }

  lemma {:induction false} QueriesAppend(a: seq<Turn>, b: seq<Turn>)
    ensures Queries(a + b) == Queries(a) + Queries(b)
  {
    if a == [] {
      assert a + b == b;
    } else {
      assert (a + b)[0] == a[0] && (a + b)[1..] == a[1..] + b;
      QueriesAppend(a[1..], b);
    }
  }

  lemma {:induction false} BotRepliesAppend(a: seq<Turn>, b: seq<Turn>)
    ensures BotReplies(a + b) == BotReplies(a) + BotReplies(b)
  {
    if a == [] {
      assert a + b == b;
    } else {
      assert (a + b)[0] == a[0] && (a + b)[1..] == a[1..] + b;
      BotRepliesAppend(a[1..], b);
    }
  }

  class Chat {
    /** The displayed log. */
    var messages: seq<Turn>
    /** The text box. */
    var input: string
    /** Replies already computed whose display timer has not fired yet. */
    var pending: seq<Response>
    /** The snapshot each accepted query was answered against. */
    ghost var snapshots: seq<Option<Snapshot>>

    /**
     * The log opens with the greeting; the i-th user query is answered by the
     * i-th reply, displayed or still pending, computed from that query and the
     * snapshot of the moment; no blank query was accepted.
     */
    ghost predicate Valid()
      reads this
    {
      |messages| >= 1 && messages[0] == Greeting &&
      (forall i :: 1 <= i < |messages| ==> !messages[i].Greeting?) &&
      |Queries(messages)| == |snapshots| == |BotReplies(messages)| + |pending| &&
      (forall i :: 0 <= i < |snapshots| ==> snapshots[i].Some? ==> snapshots[i].value.Valid()) &&
      (forall i :: 0 <= i < |snapshots| ==>
        (BotReplies(messages) + pending)[i] == Respond(Queries(messages)[i], snapshots[i])) &&
      (forall i :: 0 <= i < |Queries(messages)| ==> !IsBlank(Queries(messages)[i]))
    }

    constructor ()
      ensures Valid()
      ensures messages == [Greeting] && input == "" && pending == [] && snapshots == []
    {
      messages := [Greeting];
      input := "";
      pending := [];
      snapshots := [];
    }

    /** The text box's change handler. */
    method SetInput(text: string)
      requires Valid()
      modifies this
      ensures Valid()
      ensures input == text
      ensures messages == old(messages) && pending == old(pending) && snapshots == old(snapshots)
    {
      input := text;
    }

    /**
     * handleSend against the snapshot of the moment: a blank input is ignored;
     * otherwise the query is logged, its reply computed and scheduled, and the
     * text box cleared.
     */
    method Send(data: Option<Snapshot>)
      requires Valid()
      requires data.Some? ==> data.value.Valid()
      modifies this
      ensures Valid()
      ensures IsBlank(old(input)) ==>
        messages == old(messages) && input == old(input) && pending == old(pending) &&
        snapshots == old(snapshots)
      ensures !IsBlank(old(input)) ==>
        messages == old(messages) + [UserTurn(old(input))] &&
        pending == old(pending) + [Respond(old(input), data)] &&
        input == "" && snapshots == old(snapshots) + [data]
    {
      TrimEmptyIff(input);
      if Trim(input) == "" {
        return;
      }
      var query := input;
      var reply := Respond(query, data);
      ghost var before := messages;
      messages := messages + [UserTurn(query)];
      QueriesAppend(before, [UserTurn(query)]);
      BotRepliesAppend(before, [UserTurn(query)]);
      assert Queries([UserTurn(query)]) == [query];
      assert BotReplies([UserTurn(query)]) == [];
      pending := pending + [reply];
      snapshots := snapshots + [data];
      input := "";
      assert BotReplies(messages) + pending == (BotReplies(before) + old(pending)) + [reply];
      assert Queries(messages) == Queries(before) + [query];
    }

    /** The display timer of the oldest scheduled reply fires and appends it. */
    method Deliver()
      requires Valid() && pending != []
      modifies this
      ensures Valid()
      ensures messages == old(messages) + [BotTurn(old(pending)[0])]
      ensures pending == old(pending)[1..] && input == old(input) && snapshots == old(snapshots)
    {
      var reply := pending[0];
      ghost var before := messages;
      messages := messages + [BotTurn(reply)];
      QueriesAppend(before, [BotTurn(reply)]);
      BotRepliesAppend(before, [BotTurn(reply)]);
      assert Queries([BotTurn(reply)]) == [];
      assert BotReplies([BotTurn(reply)]) == [reply];
      pending := pending[1..];
      assert BotReplies(messages) + pending == BotReplies(before) + old(pending);
    }
  }
}
