/**
  The index nested-loop join: for each left row one lookup in a unique index of the right table.
  With every index column bound it returns what the nested-loop join returns; with a column left
  unbound it returns nothing.
  */
module IndexJoin {
  import opened Options
  import opened IndexKeys
  import opened ScanBounds
  import opened IndexPages
  import opened IndexShape
  import opened IndexHandle
  import opened HeapFile
  import opened ScanExec
  import opened TableStore
  import opened JoinQuery
  import opened JoinPlanner
  import opened JoinExec
  import opened Streams

  /** The rows of rids, in order. */
  ghost function RowsIn(heap: Heap, rids: seq<Rid>): (rows: seq<Row>)
    requires forall r :: r in rids ==> r in heap
    ensures |rows| == |rids| && forall i :: 0 <= i < |rids| ==> rows[i] == heap[rids[i]]
  {
    seq(|rids|, i requires 0 <= i < |rids| => heap[rids[i]])
  }

  /** What the lookups are built from: the right table's place and index, the conditions its scan
      has, and those of the join. */
  datatype Probe = Probe(s: Schemas, n: nat, t: Table, scanConds: seq<Conjunct>, joinConds: seq<Conjunct>)

  ghost predicate ProbeOk(p: Probe) {
    && p.n < |p.s| && TableOk(p.t) && p.t.cols == p.s[p.n]
    && ConjunctsOk(p.s, p.scanConds) && ConjunctsOk(p.s, p.joinConds)
    && (forall i :: 0 <= i < |p.scanConds| ==> OnlyOn(p.scanConds[i], p.n))
    && (forall i :: 0 <= i < |p.joinConds| ==> JoinsAt(p.joinConds[i], p.n))
  }

  lemma BothOk(p: Probe)
    requires ProbeOk(p)
    ensures ConjunctsOk(p.s, p.scanConds + p.joinConds)
  {
    hide ConjunctOk;
  }

  predicate LeftRowOk(p: Probe, e: Joined) {
    |e| == p.n && JoinedOk(p.s, e)
  }

  /** All conditions on a joined row. */
  predicate Passes(p: Probe, e: Joined, row: Row)
    requires ProbeOk(p) && LeftRowOk(p, e) && KeyFits(row, p.t.cols)
  {
    EvalAll(p.s, p.scanConds + p.joinConds, e + [row])
  }

  /** A value that every right row passing the conditions has in a column. */
  ghost predicate Forced(p: Probe, e: Joined, col: nat, v: Value)
    requires ProbeOk(p) && LeftRowOk(p, e) && col < |p.t.cols|
  {
    Fits(v, p.t.cols[col]) && forall row :: KeyFits(row, p.t.cols) && Passes(p, e, row) ==> row[col] == v
  }

  /** An equality that holds gives the other operand's value. */
  lemma ForcedByConst(p: Probe, e: Joined, i: nat, col: nat)
    requires ProbeOk(p) && LeftRowOk(p, e) && col < |p.t.cols| && i < |p.scanConds|
    requires p.scanConds[i].rhs.Val? && p.scanConds[i].op.EQ? && p.scanConds[i].lhs == TabCol(p.n, col)
    ensures Forced(p, e, col, p.scanConds[i].rhs.v)
  {
    hide CompareColumn, Fits;
    var c := p.scanConds[i];
    forall row | KeyFits(row, p.t.cols) && Passes(p, e, row) ensures row[col] == c.rhs.v {
      assert (p.scanConds + p.joinConds)[i] == c;
      CompareIsEqual(row[col], c.rhs.v, p.t.cols[col]);
    }
  }

  lemma CompareIsEqual(a: Value, b: Value, c: Column)
    requires Fits(a, c) && Fits(b, c)
    ensures CompareColumn(a, b, c) == 0 <==> a == b
  {
  }

  /** The left column of a join equality on a column of the right table. */
  function LeftSide(c: Conjunct, col: TabCol): (l: TabCol)
    requires c.rhs.Col? && (c.lhs == col || c.rhs.c == col)
  {
    if c.lhs == col then c.rhs.c else c.lhs
  }

  lemma ForcedByLeft(p: Probe, e: Joined, i: nat, col: nat)
    requires ProbeOk(p) && LeftRowOk(p, e) && col < |p.t.cols| && i < |p.joinConds|
    requires p.joinConds[i].rhs.Col? && p.joinConds[i].op.EQ?
    requires p.joinConds[i].lhs == TabCol(p.n, col) || p.joinConds[i].rhs.c == TabCol(p.n, col)
    ensures var l := LeftSide(p.joinConds[i], TabCol(p.n, col));
            l.tab < |e| && l.col < |e[l.tab]| && Forced(p, e, col, e[l.tab][l.col])
  {
    hide CompareColumn, Fits;
    var c := p.joinConds[i];
    var l := LeftSide(c, TabCol(p.n, col));
    assert JoinsAt(c, p.n) && ConjunctOk(p.s, c);
    assert KeyFits(e[l.tab], p.s[l.tab]);
    forall row | KeyFits(row, p.t.cols) && Passes(p, e, row) ensures row[col] == e[l.tab][l.col] {
      assert (p.scanConds + p.joinConds)[|p.scanConds| + i] == c;
      var f := e + [row];
      CompareIsEqual(f[c.lhs.tab][c.lhs.col], f[c.rhs.c.tab][c.rhs.c.col], p.t.cols[col]);
    }
  }

  /** The value for one key column: a constant of the scan first, else a column of the left row. */
  method KeyValue(p: Probe, e: Joined, col: nat) returns (v: Option<Value>)
    requires ProbeOk(p) && LeftRowOk(p, e) && col < |p.t.cols|
    ensures v.Some? <==> IsBound(p.n, col, p.scanConds, p.joinConds)
    ensures v.Some? ==> Forced(p, e, col, v.value)
  {
    hide Forced, LeftRowOk, ConjunctOk, OnlyOn, JoinsAt;
    for i := 0 to |p.scanConds|
      invariant forall j :: 0 <= j < i ==> !(p.scanConds[j].rhs.Val? && p.scanConds[j].op.EQ? && p.scanConds[j].lhs == TabCol(p.n, col))
    {
      var c := p.scanConds[i];
      if c.rhs.Val? && c.op.EQ? && c.lhs == TabCol(p.n, col) {
        ForcedByConst(p, e, i, col);
        return Some(c.rhs.v);
      }
    }
    for i := 0 to |p.joinConds|
      invariant forall j :: 0 <= j < i ==>
                  !(p.joinConds[j].rhs.Col? && p.joinConds[j].op.EQ? &&
                    (p.joinConds[j].lhs == TabCol(p.n, col) || p.joinConds[j].rhs.c == TabCol(p.n, col)))
    {
      var c := p.joinConds[i];
      if c.rhs.Col? && c.op.EQ? && (c.lhs == TabCol(p.n, col) || c.rhs.c == TabCol(p.n, col)) {
        ForcedByLeft(p, e, i, col);
        var l := LeftSide(c, TabCol(p.n, col));
        return Some(e[l.tab][l.col]);
      }
    }
    v := None;
  }

  /** The key every right row passing the conditions has. */
  ghost predicate KeyForced(p: Probe, e: Joined, key: seq<Value>)
    requires ProbeOk(p) && LeftRowOk(p, e)
  {
    KeyFits(key, KeyCols(p.t)) && forall row :: KeyFits(row, p.t.cols) && Passes(p, e, row) ==> KeyOf(p.t, row) == key
  }

  method BuildLookupKey(p: Probe, e: Joined) returns (key: Option<seq<Value>>)
    requires ProbeOk(p) && LeftRowOk(p, e)
    ensures key.Some? <==> FullyBound(p.n, p.t.index, p.scanConds, p.joinConds)
    ensures key.Some? ==> KeyFits(key.value, KeyCols(p.t)) && KeyForced(p, e, key.value)
  {
    hide IsBound, Forced, LeftRowOk, ConjunctsOk, OnlyOn, JoinsAt, Fits;
    var k: seq<Value> := [];
    for i := 0 to |p.t.index|
      invariant |k| == i && forall j :: 0 <= j < i ==> IsBound(p.n, p.t.index[j], p.scanConds, p.joinConds)
      invariant forall j :: 0 <= j < i ==> Forced(p, e, p.t.index[j], k[j])
    {
      var v := KeyValue(p, e, p.t.index[i]);
      if v.None? {
        return None;
      }
      k := k + [v.value];
    }
    AllForced(p, e, k);
    key := Some(k);
  }

  lemma AllForced(p: Probe, e: Joined, key: seq<Value>)
    requires ProbeOk(p) && LeftRowOk(p, e) && |key| == |p.t.index|
    requires forall j :: 0 <= j < |key| ==> Forced(p, e, p.t.index[j], key[j])
    ensures KeyForced(p, e, key)
  {
    hide Passes, LeftRowOk, ConjunctsOk, OnlyOn, JoinsAt, Fits;
    assert forall j :: 0 <= j < |key| ==> Forced(p, e, p.t.index[j], key[j]);
    forall row | KeyFits(row, p.t.cols) && Passes(p, e, row) ensures KeyOf(p.t, row) == key {
      forall j | 0 <= j < |key| ensures KeyOf(p.t, row)[j] == key[j] {
      }
    }
  }

  // -------------------------------------------------------------------------------------------
  // What a lookup finds

  ghost function Combined(p: Probe, e: Joined, rows: seq<Row>): seq<Joined>
    requires ProbeOk(p) && LeftRowOk(p, e) && TableRowsOk(p.s, p.n, rows)
  {
    ExtendOk(p.s, e, rows);
    Keep(p.s, p.scanConds + p.joinConds, Extend(e, rows))
  }

  lemma {:induction false} CombinedNone(p: Probe, e: Joined, rows: seq<Row>)
    requires ProbeOk(p) && LeftRowOk(p, e) && TableRowsOk(p.s, p.n, rows)
    requires forall i :: 0 <= i < |rows| ==> !Passes(p, e, rows[i])
    ensures Combined(p, e, rows) == []
  {
    hide ConjunctsOk, EvalAll, JoinedOk;
    if rows != [] {
      CombinedNone(p, e, rows[1..]);
      CombinedCons(p, e, rows);
    }
  }

  lemma CombinedCons(p: Probe, e: Joined, rows: seq<Row>)
    requires ProbeOk(p) && LeftRowOk(p, e) && TableRowsOk(p.s, p.n, rows) && rows != []
    ensures KeyFits(rows[0], p.t.cols) && TableRowsOk(p.s, p.n, rows[1..])
    ensures Combined(p, e, rows) == (if Passes(p, e, rows[0]) then [e + [rows[0]]] else []) + Combined(p, e, rows[1..])
  {
    BothOk(p);
    hide ConjunctsOk, EvalAll, JoinedOk, Keep, Extend, OnlyOn, JoinsAt, Fits;
    RestRowsOk(p.s, p.n, rows);
    ExtendFirst(e, rows, 0);
    assert rows[0..] == rows;
    ExtendOk(p.s, e, rows);
    ExtendOk(p.s, e, rows[1..]);
    KeepOne(p.s, p.scanConds + p.joinConds, e + [rows[0]], Extend(e, rows[1..]));
  }

  /** If only one row can pass, it alone decides. */
  lemma {:induction false} CombinedOne(p: Probe, e: Joined, rows: seq<Row>, k: nat)
    requires ProbeOk(p) && LeftRowOk(p, e) && TableRowsOk(p.s, p.n, rows) && k < |rows|
    requires forall i :: 0 <= i < |rows| && i != k ==> !Passes(p, e, rows[i])
    ensures Combined(p, e, rows) == if Passes(p, e, rows[k]) then [e + [rows[k]]] else []
  {
    hide Passes, Combined, LeftRowOk, Fits, OnlyOn, JoinsAt;
    CombinedCons(p, e, rows);
    if k == 0 {
      CombinedNone(p, e, rows[1..]);
    } else {
      CombinedOne(p, e, rows[1..], k - 1);
    }
  }

  /** The records of the right table as the index and the file have them. */
  ghost predicate RightOk(p: Probe, heap: Heap, rids: seq<Rid>, m: map<int, Rid>)
    requires ProbeOk(p)
  {
    && HeapFits(p.t, heap) && IndexAgrees(p.t, heap, m) && Ascending(rids)
    && (forall r :: r in rids <==> r in heap) && TableRowsOk(p.s, p.n, RowsIn(heap, rids))
  }

  /** The lookup finds every row that can pass. */
  lemma LookupExact(p: Probe, e: Joined, key: seq<Value>, heap: Heap, rids: seq<Rid>, m: map<int, Rid>)
    requires ProbeOk(p) && LeftRowOk(p, e) && KeyForced(p, e, key) && RightOk(p, heap, rids, m)
    ensures var rank := Rank(key, KeyCols(p.t));
            && (rank !in m ==> Combined(p, e, RowsIn(heap, rids)) == [])
            && (rank in m ==> m[rank] in heap)
            && (rank in m ==> Combined(p, e, RowsIn(heap, rids)) == if Passes(p, e, heap[m[rank]]) then [e + [heap[m[rank]]]] else [])
  {
    hide Passes, Combined, LeftRowOk, Fits, OnlyOn, JoinsAt, Rank, ConjunctsOk, TableRowsOk, Ascending;
    var rank, rows := Rank(key, KeyCols(p.t)), RowsIn(heap, rids);
    AgreeUnique(p.t, heap, m);
    forall i | 0 <= i < |rids| && Passes(p, e, rows[i]) ensures rank in m && m[rank] == rids[i] {
      assert rids[i] in rids;
      assert KeyOf(p.t, rows[i]) == key;
    }
    if rank !in m {
      CombinedNone(p, e, rows);
    } else {
      assert m[rank] in rids;
      var k :| 0 <= k < |rids| && rids[k] == m[rank];
      DistinctPlaces(rids);
      CombinedOne(p, e, rows, k);
    }
  }

  lemma DistinctPlaces(rids: seq<Rid>)
    requires Ascending(rids)
    ensures forall i, j :: 0 <= i < j < |rids| ==> rids[i] != rids[j]
  {
  }

  // -------------------------------------------------------------------------------------------
  // The executor

  /** What the join returns for a list of left rows: the nested-loop result if the index is fully
      bound, otherwise nothing. */
  ghost function Probed(p: Probe, L: seq<Joined>, rows: seq<Row>): seq<Joined>
    requires ProbeOk(p) && TableRowsOk(p.s, p.n, rows) && forall e :: e in L ==> LeftRowOk(p, e)
  {
    if L == [] then [] else ProbedRow(p, L[0], rows) + Probed(p, L[1..], rows)
  }

  ghost function ProbedRow(p: Probe, e: Joined, rows: seq<Row>): seq<Joined>
    requires ProbeOk(p) && LeftRowOk(p, e) && TableRowsOk(p.s, p.n, rows)
  {
    if FullyBound(p.n, p.t.index, p.scanConds, p.joinConds) then Combined(p, e, rows) else []
  }

  /** Fully bound, the index join is the nested-loop join with all conditions. */
  lemma {:induction false} ProbedBound(p: Probe, L: seq<Joined>, rows: seq<Row>)
    requires ProbeOk(p) && TableRowsOk(p.s, p.n, rows) && (forall e :: e in L ==> LeftRowOk(p, e))
    requires FullyBound(p.n, p.t.index, p.scanConds, p.joinConds)
    ensures AllJoined(p.s, Product(L, rows), p.n + 1)
    ensures Probed(p, L, rows) == Keep(p.s, p.scanConds + p.joinConds, Product(L, rows))
  {
    hide ConjunctsOk, EvalAll, JoinedOk, FullyBound, TableRowsOk, Extend, OnlyOn, JoinsAt;
    ProductOk(p.s, L, rows, p.n);
    if L != [] {
      ProbedBound(p, L[1..], rows);
      BothOk(p);
      ExtendOk(p.s, L[0], rows);
      KeepConcat(p.s, p.scanConds + p.joinConds, Extend(L[0], rows), Product(L[1..], rows));
    }
  }

  /** With an unbound column it returns nothing, whatever the tables hold. */
  lemma {:induction false} ProbedUnbound(p: Probe, L: seq<Joined>, rows: seq<Row>)
    requires ProbeOk(p) && TableRowsOk(p.s, p.n, rows) && (forall e :: e in L ==> LeftRowOk(p, e))
    requires !FullyBound(p.n, p.t.index, p.scanConds, p.joinConds)
    ensures Probed(p, L, rows) == []
  {
    hide ConjunctsOk, FullyBound, TableRowsOk, LeftRowOk, OnlyOn, JoinsAt;
    if L != [] {
      ProbedUnbound(p, L[1..], rows);
    }
  }

  class IndexNestedLoopJoin {
    const p: Probe
    const left: Stream<Joined>
    const ih: Handle
    const file: File
    var leftRec: Option<Joined>
    var rightHits: seq<Rid>
    var hitIdx: nat
    var isEnd: bool

    ghost predicate Formed() {
      ProbeOk(p) && forall e :: e in left.rows ==> LeftRowOk(p, e)
    }

    ghost predicate Stored()
      reads file, ih
    {
      ProbeOk(p) && file.Valid() && ih.Valid() && RightOk(p, file.Live(), file.Rids(), ih.Contents())
    }

    /** The right table's rows. */
    ghost function Rows(): seq<Row>
      requires Stored()
      reads file, ih
    {
      RowsIn(file.Live(), file.Rids())
    }

    /** The hits of the current left row: at most one record of the right table. */
    ghost predicate HitsOk()
      requires Stored()
      reads `leftRec, `rightHits, `hitIdx, file, ih
    {
      |rightHits| <= 1 && hitIdx <= |rightHits| && (forall r :: r in rightHits ==> r in file.Live())
      && (leftRec.Some? ==> LeftRowOk(p, leftRec.value))
    }

    ghost predicate Valid()
      reads this, left, file, ih
    {
      Formed() && Stored() && HitsOk() && left.pos <= |left.rows|
      && (!isEnd ==> AtHit())
    }

    ghost predicate AtHit()
      requires Formed() && Stored() && HitsOk()
      reads `leftRec, `rightHits, `hitIdx, left, file, ih
    {
      left.pos < |left.rows| && leftRec == Some(left.rows[left.pos]) && hitIdx < |rightHits| && HitPasses(hitIdx)
    }

    ghost predicate HitPasses(i: nat)
      requires Stored() && HitsOk() && leftRec.Some? && i < |rightHits|
      reads `leftRec, `rightHits, `hitIdx, file, ih
    {
      KeyFits(file.Live()[rightHits[i]], p.t.cols) && Passes(p, leftRec.value, file.Live()[rightHits[i]])
    }

    /** The current left row's hits from hitIdx on that pass. */
    ghost function FromHits(): seq<Joined>
      requires Stored() && HitsOk() && leftRec.Some?
      reads `leftRec, `rightHits, `hitIdx, file, ih
    {
      if hitIdx < |rightHits| && HitPasses(hitIdx) then [leftRec.value + [file.Live()[rightHits[hitIdx]]]] else []
    }

    /** What is still to be returned from the left child's position on. */
    ghost function Ahead(): seq<Joined>
      requires Formed() && Stored() && HitsOk() && left.pos <= |left.rows|
      reads `leftRec, `rightHits, `hitIdx, left, file, ih
    {
      if leftRec.None? || left.pos == |left.rows| then Probed(p, left.rows[left.pos..], Rows())
      else FromHits() + Probed(p, left.rows[left.pos + 1..], Rows())
    }

    ghost function Pending(): seq<Joined>
      requires Valid()
      reads this, left, file, ih
    {
      if isEnd then [] else Ahead()
    }

    constructor (p: Probe, left: Stream<Joined>, ih: Handle, file: File)
      requires ProbeOk(p) && (forall e :: e in left.rows ==> LeftRowOk(p, e)) && left.pos == 0
      requires file.Valid() && ih.Valid() && RightOk(p, file.Live(), file.Rids(), ih.Contents())
      ensures Valid() && this.p == p && this.left == left && this.ih == ih && this.file == file
    {
      this.p, this.left, this.ih, this.file := p, left, ih, file;
      leftRec, rightHits, hitIdx, isEnd := None, [], 0, true;
    }

    /** Looks the current left row's key up. */
    method ProbeRightIndex()
      requires Formed() && Stored() && leftRec.Some? && LeftRowOk(p, leftRec.value)
      modifies this`rightHits, this`hitIdx, ih`pins
      ensures Stored() && Rows() == old(Rows()) && HitsOk() && FromHits() == ProbedRow(p, leftRec.value, Rows())
    {
      hide Shape, Listed, ToMap, Entries, IndexAgrees, LeftRowOk, PagesOk, Records, KeyRid, RecordsFrom, Combined, Passes, Rank,
           FullyBound, TableRowsOk, Fits, KeyForced, OnlyOn, JoinsAt, ConjunctsOk, Ascending;
      rightHits, hitIdx := [], 0;
      var key := BuildLookupKey(p, leftRec.value);
      if key.None? {
        return;
      }
      LookupExact(p, leftRec.value, key.value, file.Live(), file.Rids(), ih.Contents());
      var found, rid := ih.GetValue(Rank(key.value, KeyCols(p.t)));
      if found {
        rightHits := [rid];
      }
    }

    /** Takes the left row at the position and looks it up. */
    method TakeLeft()
      requires Formed() && Stored() && HitsOk() && left.pos < |left.rows| && leftRec.None?
      modifies this`leftRec, this`rightHits, this`hitIdx, ih`pins
      ensures Stored() && Rows() == old(Rows()) && HitsOk()
      ensures leftRec == Some(left.rows[left.pos]) && Ahead() == old(Ahead())
    {
      hide Shape, Listed, ToMap, Entries, IndexAgrees, LeftRowOk, PagesOk, Records, KeyRid, RecordsFrom, Combined, Passes,
           FullyBound, TableRowsOk, Fits, OnlyOn, JoinsAt, ConjunctsOk, Ascending, RightOk, ProbedRow;
      leftRec := Some(left.Next());
      assert left.rows[left.pos] in left.rows;
      assert left.rows[left.pos..][1..] == left.rows[left.pos + 1..];
      ProbeRightIndex();
    }

    /** Goes on to the next left row when no hit is left. */
    method LeaveLeft()
      requires Formed() && Stored() && HitsOk() && left.pos < |left.rows| && leftRec.Some? && FromHits() == []
      modifies this`leftRec, left
      ensures Stored() && Rows() == old(Rows()) && HitsOk() && leftRec.None? && left.pos == old(left.pos) + 1
      ensures Ahead() == old(Ahead())
    {
      hide Shape, Listed, ToMap, Entries, IndexAgrees, LeftRowOk, PagesOk, Records, KeyRid, RecordsFrom, Combined, Passes,
           FullyBound, TableRowsOk, Fits, OnlyOn, JoinsAt, ConjunctsOk, Ascending, RightOk, ProbedRow;
      left.NextTuple();
      leftRec := None;
    }

    /** From the left child's position on, the next hit that passes. */
    method FindNextValidTuple()
      requires Formed() && Stored() && HitsOk() && left.pos <= |left.rows|
      requires leftRec.Some? ==> left.pos < |left.rows| && leftRec == Some(left.rows[left.pos])
      modifies this`leftRec, this`rightHits, this`hitIdx, this`isEnd, left, ih`pins
      ensures Valid() && Rows() == old(Rows()) && Pending() == old(Ahead())
    {
      hide Stored, Rows, FromHits, Ahead, HitPasses, ProbeOk, LeftRowOk;
      while !left.IsEnd()
        invariant Formed() && Stored() && Rows() == old(Rows()) && HitsOk() && left.pos <= |left.rows|
        invariant leftRec.Some? ==> left.pos < |left.rows| && leftRec == Some(left.rows[left.pos])
        invariant Ahead() == old(Ahead())
        decreases |left.rows| - left.pos
      {
        if leftRec.None? {
          TakeLeft();
        }
        var found := NextPassingHit();
        if found {
          isEnd := false;
          return;
        }
        LeaveLeft();
      }
      NothingAhead();
      isEnd := true;
    }

    lemma NothingAhead()
      requires Formed() && Stored() && HitsOk() && left.pos == |left.rows|
      ensures Ahead() == []
    {
    }

    /** The next of the current row's hits that passes all conditions. */
    method NextPassingHit() returns (found: bool)
      requires Formed() && Stored() && HitsOk() && left.pos < |left.rows| && leftRec == Some(left.rows[left.pos])
      modifies this`hitIdx
      ensures Stored() && Rows() == old(Rows()) && HitsOk() && Ahead() == old(Ahead())
      ensures if found then AtHit() else FromHits() == []
    {
      hide Shape, Listed, ToMap, Entries, IndexAgrees, LeftRowOk, PagesOk, Records, KeyRid, RecordsFrom, Passes,
           TableRowsOk, Fits, Ascending, ProbeOk, Probed;
      while hitIdx < |rightHits|
        invariant HitsOk() && FromHits() == old(FromHits())
        decreases |rightHits| - hitIdx
      {
        var row := file.ReadSlot(rightHits[hitIdx]);
        var pass := EvalJoinedConds(leftRec.value, row);
        if pass {
          return true;
        }
        hitIdx := hitIdx + 1;
      }
      found := false;
    }

    method EvalJoinedConds(e: Joined, row: Row) returns (b: bool)
      requires ProbeOk(p) && LeftRowOk(p, e) && KeyFits(row, p.t.cols)
      ensures b == Passes(p, e, row)
    {
      BothOk(p);
      hide Eval, ConjunctOk, OnlyOn, JoinsAt, Fits;
      var conds := p.scanConds + p.joinConds;
      for i := 0 to |conds|
        invariant forall j :: 0 <= j < i ==> Eval(p.s, conds[j], e + [row])
      {
        if !Eval(p.s, conds[i], e + [row]) {
          return false;
        }
      }
      b := true;
    }

    method BeginTuple()
      requires Valid()
      modifies this`leftRec, this`rightHits, this`hitIdx, this`isEnd, left, ih`pins
      ensures Valid() && Rows() == old(Rows()) && Pending() == Probed(p, left.rows, Rows())
    {
      hide Shape, Listed, ToMap, Entries, IndexAgrees, LeftRowOk, PagesOk, Records, KeyRid, RecordsFrom, Combined, Passes,
           FullyBound, TableRowsOk, Fits, OnlyOn, JoinsAt, ConjunctsOk, Ascending, RightOk, ProbedRow;
      left.BeginTuple();
      assert left.rows[0..] == left.rows;
      leftRec := None;
      isEnd := left.IsEnd();
      if !isEnd {
        FindNextValidTuple();
      }
    }

    method NextTuple()
      requires Valid()
      modifies this`leftRec, this`rightHits, this`hitIdx, this`isEnd, left, ih`pins
      ensures Valid() && Rows() == old(Rows()) && Pending() == if old(Pending()) == [] then [] else old(Pending())[1..]
    {
      hide Shape, Listed, ToMap, Entries, IndexAgrees, LeftRowOk, PagesOk, Records, KeyRid, RecordsFrom, Combined, Passes,
           FullyBound, TableRowsOk, Fits, OnlyOn, JoinsAt, ConjunctsOk, Ascending, RightOk, ProbedRow, Probed;
      if isEnd {
        return;
      }
      hitIdx := hitIdx + 1;
      assert Ahead() == old(Pending())[1..];
      FindNextValidTuple();
    }

    lemma NothingPending()
      requires Valid() && isEnd
      ensures Pending() == []
    {
    }

    method Next() returns (e: Joined)
      requires Valid() && !isEnd
      ensures Pending() != [] && e == Pending()[0]
    {
      hide Shape, Listed, ToMap, Entries, IndexAgrees, LeftRowOk, PagesOk, Records, KeyRid, RecordsFrom, Combined, Passes,
           FullyBound, TableRowsOk, Fits, OnlyOn, JoinsAt, ConjunctsOk, Ascending, RightOk, ProbedRow, Probed;
      var row := file.ReadSlot(rightHits[hitIdx]);
      e := leftRec.value + [row];
    }
  }

  /** Running the join to its end. */
  method DrainIndexJoin(j: IndexNestedLoopJoin) returns (out: seq<Joined>)
    requires j.Valid()
    modifies j, j.left, j.ih`pins
    ensures j.Valid() && j.Rows() == old(j.Rows()) && out == Probed(j.p, j.left.rows, j.Rows())
  {
    hide IndexNestedLoopJoin.Stored, IndexNestedLoopJoin.Rows, IndexNestedLoopJoin.HitsOk, IndexNestedLoopJoin.AtHit,
         IndexNestedLoopJoin.Pending;
    hide ProbeOk, LeftRowOk, Probed;
    j.BeginTuple();
    ghost var all := j.Pending();
    out := [];
    while !j.isEnd
      invariant j.Valid() && j.Rows() == old(j.Rows())
      invariant |out| <= |all| && out == all[..|out|] && j.Pending() == all[|out|..]
      decreases |all| - |out|
    {
      var e := j.Next();
      out := out + [e];
      j.NextTuple();
    }
    j.NothingPending();
  }
}
