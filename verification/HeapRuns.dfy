/**
  Whole runs of a record file: what any sequence of insertions, reservations, publications,
  cancellations, deletions and updates does to the records and to the slots set aside.
  */
module HeapRuns {
  import opened Options
  import opened IndexKeys
  import opened IndexPages
  import opened HeapFile

  datatype Op =
    | Insert(row: Row)
    | Reserve
    | Publish(r: Rid, row: Row)
    | Cancel(r: Rid)
    | Delete(r: Rid)
    | Update(r: Rid, row: Row)

  /** A rid given out, or the end of an operation on a rid of the caller's. */
  datatype Answer = Given(r: Rid) | Ended(e: Option<RecordError>)

  /** The published records and the slots set aside. */
  datatype Slots = Slots(live: map<Rid, Row>, pending: set<Rid>)

  /** The caller names slots of record pages, be they there yet or not. */
  predicate OpOk(op: Op, perPage: nat) {
    (op.Publish? || op.Cancel? || op.Delete? || op.Update?) ==> op.r.pageNo != RM_FILE_HDR_PAGE && 0 <= op.r.slotNo < perPage
  }

  /** What an operation may answer and do; a rid that is given out is in no use. */
  predicate Allowed(op: Op, s: Slots, a: Answer, s': Slots) {
    match op
    case Insert(row) => a.Given? && a.r !in s.live && a.r !in s.pending && s' == Slots(s.live[a.r := row], s.pending)
    case Reserve => a.Given? && a.r !in s.live && a.r !in s.pending && s' == Slots(s.live, s.pending + {a.r})
    case Publish(r, row) =>
      if r in s.pending then a == Ended(None) && s' == Slots(s.live[r := row], s.pending - {r})
      else a == Ended(Some(NotReserved)) && s' == s
    case Cancel(r) => a == Ended(None) && s' == Slots(s.live, s.pending - {r})
    case Delete(r) => a.Ended? && (a.e.None? <==> r in s.live) && s' == Slots(s.live - {r}, s.pending)
    case Update(r, row) => a.Ended? && (a.e.None? <==> r in s.live) && s' == Slots(if a.e.None? then s.live[r := row] else s.live, s.pending)
  }

  /** The file goes from state to state as the operations say. */
  ghost predicate History(ops: seq<Op>, answers: seq<Answer>, trace: seq<Slots>) {
    && |answers| == |ops| && |trace| == |ops| + 1
    && forall i :: 0 <= i < |ops| ==> Allowed(ops[i], trace[i], answers[i], trace[i + 1])
  }

  ghost function SlotsOf(file: File): Slots
    reads file
  {
    Slots(file.Live(), file.Pending())
  }

  method Step(file: File, op: Op) returns (a: Answer)
    requires file.Valid() && OpOk(op, file.perPage)
    modifies file
    ensures file.Valid() && Allowed(op, old(SlotsOf(file)), a, SlotsOf(file))
  {
    hide PagesOk, Records, RidsOf, KeyRid, RidKey, IsLive;
    match op {
      case Insert(row) =>
        var r := file.InsertRecord(row);
        a := Given(r);
      case Reserve =>
        var r := file.ReserveInsertSlot();
        a := Given(r);
      case Publish(r, row) =>
        var e := file.PublishInsertSlot(r, row);
        a := Ended(e);
      case Cancel(r) =>
        file.CancelInsertSlot(r);
        a := Ended(None);
      case Delete(r) =>
        var e := file.DeleteRecord(r);
        a := Ended(e);
      case Update(r, row) =>
        var e := file.UpdateRecord(r, row);
        a := Ended(e);
    }
  }

  /** Any run of operations on a new file; the scan then visits exactly the published records. */
  method Run(recordSize: int, ops: seq<Op>) returns (file: File, answers: seq<Answer>, rids: seq<Rid>, ghost trace: seq<Slots>)
    requires 1 <= recordSize <= RM_MAX_RECORD_SIZE
    requires forall i :: 0 <= i < |ops| ==> OpOk(ops[i], RecordsPerPage(recordSize))
    ensures fresh(file) && file.Valid()
    ensures History(ops, answers, trace) && trace[0] == Slots(map[], {}) && trace[|ops|] == SlotsOf(file)
    ensures Ascending(rids) && forall r :: r in rids <==> r in trace[|ops|].live
  {
    hide PagesOk, Records, RidsOf, KeyRid, RidKey, IsLive, Allowed, OpOk;
    file := new File(recordSize);
    answers := [];
    trace := [SlotsOf(file)];
    for n := 0 to |ops|
      invariant fresh(file) && file.Valid() && file.perPage == RecordsPerPage(recordSize)
      invariant |answers| == n && |trace| == n + 1 && trace[0] == Slots(map[], {}) && trace[n] == SlotsOf(file)
      invariant forall i :: 0 <= i < n ==> Allowed(ops[i], trace[i], answers[i], trace[i + 1])
    {
      var a := Step(file, ops[n]);
      answers := answers + [a];
      trace := trace + [SlotsOf(file)];
    }
    rids := ScanAll(file);
  }

  ghost predicate InUse(s: Slots, r: Rid) {
    r in s.live || r in s.pending
  }

  /** No slot is in use for a record and set aside for another. */
  lemma {:induction false} NeverBoth(ops: seq<Op>, answers: seq<Answer>, trace: seq<Slots>, n: nat, r: Rid)
    requires History(ops, answers, trace) && trace[0] == Slots(map[], {}) && n <= |ops|
    ensures !(r in trace[n].live && r in trace[n].pending)
  {
    if n > 0 {
      NeverBoth(ops, answers, trace, n - 1, r);
      assert Allowed(ops[n - 1], trace[n - 1], answers[n - 1], trace[n]);
    }
  }

  predicate Releases(op: Op, r: Rid) {
    op == Delete(r) || op == Cancel(r)
  }

  lemma {:induction false} StaysInUse(ops: seq<Op>, answers: seq<Answer>, trace: seq<Slots>, i: nat, n: nat, r: Rid)
    requires History(ops, answers, trace) && i < n <= |ops| && answers[i] == Given(r)
    requires forall k :: i < k < n ==> !Releases(ops[k], r)
    ensures InUse(trace[n], r)
    decreases n - i
  {
    assert Allowed(ops[n - 1], trace[n - 1], answers[n - 1], trace[n]);
    if n > i + 1 {
      StaysInUse(ops, answers, trace, i, n - 1, r);
    }
  }

  /** A slot is given out a second time only after a deletion or a cancellation of it in between. */
  lemma GivenOnce(ops: seq<Op>, answers: seq<Answer>, trace: seq<Slots>, i: nat, j: nat)
    requires History(ops, answers, trace) && i < j < |ops| && answers[i].Given? && answers[i] == answers[j]
    ensures exists k :: i < k < j && Releases(ops[k], answers[i].r)
  {
    var r := answers[i].r;
    assert Allowed(ops[j], trace[j], answers[j], trace[j + 1]);
    assert !InUse(trace[j], r);
    if forall k :: i < k < j ==> !Releases(ops[k], r) {
      StaysInUse(ops, answers, trace, i, j, r);
    }
  }
}
