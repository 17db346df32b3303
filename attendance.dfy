/**
 * The attendance snapshot the dashboard hands to the assistant for the active
 * course. The core only reads it.
 */
module Attendance {
  import opened Optional

  /**
   * A record's status. The backend's records carry no status field at all;
   * `record.status === 'present'` is then false, which Unmarked stands for.
   */
  datatype Status = Present | Absent | Unmarked

  /** One attendance record; the date is only ever displayed. */
  datatype Record = Record(date: int, status: Status)

  /** One entry of the per-subject table; its percentage is supplied, not derived. */
  datatype SubjectStats = SubjectStats(attended: nat, total: nat, percentage: real)
  {
    /** An entry whose percentage agrees with its counts, by the snapshot's own formula. */
    predicate Consistent()
    {
      attended <= total &&
      percentage == if total > 0 then attended as real / total as real * 100.0 else 0.0
    }
  }

  /**
   * The snapshot. Absent optional parts are modelled as an empty history, an
   * empty subject table and a None for the classes left in the term.
   */
  datatype Snapshot = Snapshot(
    totalClasses: nat,
    attendedClasses: nat,
    details: seq<Record>,
    subjectWise: map<string, SubjectStats>,
    totalRemainingClasses: Option<nat>)
  {
    /** The data invariant: no more classes attended than held. */
    predicate Valid() { attendedClasses <= totalClasses }

    /** The percentage field as the backend fills it: 0 when no class was held. */
    function Percentage(): (p: real)
      ensures 0.0 <= p
      ensures Valid() ==> p <= 100.0
      ensures totalClasses == 0 ==> p == 0.0
    {
      if totalClasses > 0 then attendedClasses as real / totalClasses as real * 100.0 else 0.0
    }
  }

  /** `records.filter(r => r.status === 'present').length`. */
  function PresentCount(records: seq<Record>): (c: nat)
    ensures c <= |records|
  {
    if records == [] then 0
    else (if records[0].status == Present then 1 else 0) + PresentCount(records[1..])
  }

  /** Counting present records distributes over concatenation. */
  lemma {:induction false} PresentCountAppend(a: seq<Record>, b: seq<Record>)
    ensures PresentCount(a + b) == PresentCount(a) + PresentCount(b)
  {
    if a == [] {
      assert a + b == b;
    } else {
      assert (a + b)[0] == a[0] && (a + b)[1..] == a[1..] + b;
      PresentCountAppend(a[1..], b);
    }
  }

  /** No record is present exactly when the count is 0. */
  lemma {:induction false} PresentCountZero(records: seq<Record>)
    ensures PresentCount(records) == 0 <==> forall i :: 0 <= i < |records| ==> records[i].status != Present
  {
    if records != [] {
      PresentCountZero(records[1..]);
      assert forall i :: 1 <= i < |records| ==> records[i] == records[1..][i - 1];
    }
  }

  /** Every record is present exactly when the count is the length. */
  lemma {:induction false} PresentCountFull(records: seq<Record>)
    ensures PresentCount(records) == |records| <==> forall i :: 0 <= i < |records| ==> records[i].status == Present
  {
    if records != [] {
      PresentCountFull(records[1..]);
      assert forall i :: 1 <= i < |records| ==> records[i] == records[1..][i - 1];
    }
  }
}
