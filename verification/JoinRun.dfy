/**
  From a query to its rows: derive equalities, plan, and run the plan on the stored tables.  The
  rows are those of the cross product that satisfy the conditions, in some order, under two
  conditions a caller can check; without them it is shown what comes out instead.
  */
module JoinRun {
  import opened Sequences
  import opened Options
  import opened IndexKeys
  import opened ScanBounds
  import opened IndexPages
  import opened IndexShape
  import opened IndexHandle
  import opened HeapFile
  import opened ScanExec
  import opened TableStore
  import opened Statements
  import opened JoinQuery
  import opened ExplainBuild
  import opened JoinDerive
  import opened JoinPlanner
  import opened JoinBags
  import opened JoinExec
  import opened Streams
  import opened IndexJoin
  import opened JoinExact

  // -------------------------------------------------------------------------------------------
  // Stored tables

  /** A stored table holds the rows of the model, in rid order. */
  ghost predicate Holds(s: Schemas, defs: IndexDefs, st: Store, t: nat, rows: seq<Row>)
    requires t < |s| && |defs| == |s|
    reads st, st.file, st.ihs
  {
    && st.Valid() && st.schema == Schema(s[t], defs[t]) && (forall r :: r in st.file.Rids() ==> r in st.file.Live())
    && rows == RowsIn(st.file.Live(), st.file.Rids())
  }

  function HandlesOf(stores: seq<Store>): set<Handle> {
    set st, h | st in stores && h in st.ihs :: h
  }

  /** As many stored tables as the model has; no two of them share an index. */
  ghost predicate Formed(s: Schemas, defs: IndexDefs, stores: seq<Store>, db: seq<seq<Row>>) {
    && |stores| == |s| == |defs| == |db| && DefsOk(s, defs) && TablesOk(s, db)
    && (forall t, u :: 0 <= t < u < |stores| ==> Apart(stores[t], stores[u]))
  }

  lemma Sizes(s: Schemas, defs: IndexDefs, stores: seq<Store>, db: seq<seq<Row>>)
    requires Formed(s, defs, stores, db)
    ensures |stores| == |s| == |defs| == |db| && DefsOk(s, defs) && TablesOk(s, db)
  {
  }

  ghost predicate Apart(a: Store, b: Store) {
    forall i, j :: 0 <= i < |a.ihs| && 0 <= j < |b.ihs| ==> a.ihs[i] != b.ihs[j]
  }

  lemma HandlesIn(stores: seq<Store>, t: nat)
    requires t < |stores|
    ensures forall h :: h in stores[t].ihs ==> h in HandlesOf(stores)
  {
    assert stores[t] in stores;
  }

  // -------------------------------------------------------------------------------------------
  // Scans of one table

  /** A condition on one table in the form the scans take. */
  function ToCond(c: Conjunct): Cond {
    Cond(c.lhs.col, c.op, match c.rhs case Val(v) => Const(v) case Col(k) => ColumnRef(k.col))
  }

  function ToConds(conds: seq<Conjunct>): (r: seq<Cond>)
    ensures |r| == |conds| && forall i :: 0 <= i < |r| ==> r[i] == ToCond(conds[i])
  {
    seq(|conds|, i requires 0 <= i < |conds| => ToCond(conds[i]))
  }

  lemma ToCondsMean(s: Schemas, conds: seq<Conjunct>, t: nat, row: Row)
    requires ConjunctsOk(s, conds) && t < |s| && KeyFits(row, s[t]) && forall i :: 0 <= i < |conds| ==> OnlyOn(conds[i], t)
    ensures CondsOk(ToConds(conds), s[t]) && Satisfies(ToConds(conds), row, s[t]) == EvalRowAll(s, conds, t, row)
  {
    hide Fits, CompareColumn, OpHolds;
    assert forall i :: 0 <= i < |conds| ==>
             ConjunctOk(s, conds[i]) && CondOk(ToConds(conds)[i], s[t])
             && ScanBounds.Holds(ToConds(conds)[i], row, s[t]) == EvalRow(s, conds[i], t, row);
  }

  lemma ToCondsOk(s: Schemas, conds: seq<Conjunct>, t: nat)
    requires ConjunctsOk(s, conds) && t < |s| && forall i :: 0 <= i < |conds| ==> OnlyOn(conds[i], t)
    ensures CondsOk(ToConds(conds), s[t])
  {
    hide Fits;
    assert forall i :: 0 <= i < |conds| ==> ConjunctOk(s, conds[i]);
  }

  /** Filtering rids and filtering rows. */
  lemma {:induction false} FilteredRows(s: Schemas, conds: seq<Conjunct>, t: nat, heap: Heap, rids: seq<Rid>)
    requires ConjunctsOk(s, conds) && t < |s| && (forall i :: 0 <= i < |conds| ==> OnlyOn(conds[i], t))
    requires CondsOk(ToConds(conds), s[t]) && forall r :: r in rids ==> r in heap && KeyFits(heap[r], s[t])
    ensures TableRowsOk(s, t, RowsIn(heap, rids))
    ensures forall r :: r in Filtered(ToConds(conds), s[t], heap, rids) ==> r in heap
    ensures RowsIn(heap, Filtered(ToConds(conds), s[t], heap, rids)) == KeepRows(s, conds, t, RowsIn(heap, rids))
  {
    hide Satisfies, EvalRowAll, Fits, OnlyOn, ConjunctsOk, CondsOk, ToConds;
    if rids != [] {
      var rest := rids[1..];
      FilteredRows(s, conds, t, heap, rest);
      ToCondsMean(s, conds, t, heap[rids[0]]);
      assert RowsIn(heap, rids)[1..] == RowsIn(heap, rest);
      var f := Filtered(ToConds(conds), s[t], heap, rest);
      assert RowsIn(heap, [rids[0]] + f) == [heap[rids[0]]] + RowsIn(heap, f);
      assert [] + f == f;
    }
  }

  lemma {:induction false} RowsReordered(heap: Heap, a: seq<Rid>, b: seq<Rid>)
    requires Reordered(a, b) && forall r :: r in a ==> r in heap
    ensures forall r :: r in b ==> r in heap
    ensures Reordered(RowsIn(heap, a), RowsIn(heap, b))
  {
    SameMembers(a, b);
    if a == [] {
      assert RowsIn(heap, a) == RowsIn(heap, b);
    } else {
      hide RowsIn, Reordered;
      var i := TakeOut(a, b);
      var l, x, r := b[..i], [a[0]], b[i + 1..];
      assert forall q :: q in l || q in r || q in x ==> q in b;
      RowsReordered(heap, a[1..], l + r);
      assert a == x + a[1..];
      RowsMoved(heap, x, a[1..], l, r);
    }
  }

  lemma RowsMoved(heap: Heap, x: seq<Rid>, rest: seq<Rid>, l: seq<Rid>, r: seq<Rid>)
    requires forall q :: q in x || q in rest || q in l || q in r ==> q in heap
    requires Reordered(RowsIn(heap, rest), RowsIn(heap, l + r))
    ensures Reordered(RowsIn(heap, x + rest), RowsIn(heap, l + x + r))
  {
    hide RowsIn;
    RowsConcat(heap, x, rest);
    RowsConcat(heap, l + x, r);
    RowsConcat(heap, l, x);
    RowsConcat(heap, l, r);
  }

  lemma RowsConcat(heap: Heap, a: seq<Rid>, b: seq<Rid>)
    requires (forall r :: r in a ==> r in heap) && (forall r :: r in b ==> r in heap)
    ensures RowsIn(heap, a + b) == RowsIn(heap, a) + RowsIn(heap, b)
  {
  }

  lemma SelectedRows(s: Schemas, conds: seq<Conjunct>, t: nat, heap: Heap, all: seq<Rid>, rids: seq<Rid>)
    requires ConjunctsOk(s, conds) && t < |s| && (forall i :: 0 <= i < |conds| ==> OnlyOn(conds[i], t))
    requires CondsOk(ToConds(conds), s[t]) && Ascending(all) && (forall r :: r in all <==> r in heap)
    requires forall r :: r in heap ==> KeyFits(heap[r], s[t])
    requires NoDup(rids) && forall r :: r in rids <==> r in heap && Satisfies(ToConds(conds), heap[r], s[t])
    ensures TableRowsOk(s, t, RowsIn(heap, all))
    ensures Reordered(RowsIn(heap, rids), KeepRows(s, conds, t, RowsIn(heap, all)))
  {
    hide Satisfies, EvalRowAll, Fits, OnlyOn, ConjunctsOk, CondsOk, ToConds, Ascending, KeepRows, Filtered, TableRowsOk;
    var f := Filtered(ToConds(conds), s[t], heap, all);
    FilteredMembers(ToConds(conds), s[t], heap, all);
    AscendingDistinct(f);
    SameBag(rids, f);
    FilteredRows(s, conds, t, heap, all);
    RowsReordered(heap, rids, f);
  }

  method ReadRows(file: File, rids: seq<Rid>) returns (rows: seq<Row>)
    requires file.Valid() && forall r :: r in rids ==> r in file.Live()
    ensures rows == RowsIn(file.Live(), rids)
  {
    hide PagesOk, Records, KeyRid;
    rows := [];
    for i := 0 to |rids|
      invariant |rows| == i && forall j :: 0 <= j < i ==> rows[j] == file.Live()[rids[j]]
    {
      var row := file.ReadSlot(rids[i]);
      rows := rows + [row];
    }
  }

  /** Runs a scan that could be built; conditions a full scan carries for other tables are not applied. */
  method ScanTable(s: Schemas, defs: IndexDefs, st: Store, t: nat, scan: ScanPlan, ghost rows: seq<Row>) returns (out: seq<Row>)
    requires scan.table == t && AllPopped(scan.conds, t) && ScanBuilds(scan)
    requires t < |s| && |defs| == |s| && ConjunctsOk(s, scan.conds) && (scan.index.Some? ==> scan.index.value < |defs[t]|)
    requires Holds(s, defs, st, t, rows)
    modifies st.ihs
    ensures Holds(s, defs, st, t, rows) && TableRowsOk(s, t, rows) && ConjunctsOk(s, On(scan.conds, t))
    ensures Reordered(out, KeepRows(s, On(scan.conds, t), t, rows))
  {
    hide PagesOk, KeyRid, RecordsFrom, ConjunctOk, OnlyOn, Fits, KeepRows, On, IsLive, ValidRid;
    var on := CondsOn(scan.conds, t);
    OnAtOk(s, scan.conds, t);
    ToCondsOk(s, on, t);
    st.Facts();
    AllRecordsExact(st.file.pages, st.file.perPage, st.file.numPages);
    var rids := Select(st, ToConds(on), scan.index);
    SelectedRows(s, on, t, st.file.Live(), st.file.Rids(), rids);
    out := ReadRows(st.file, rids);
  }

  // -------------------------------------------------------------------------------------------
  // Running a plan

  /** Runs a plan from its left end; every join reads what the part before it returned. */
  method RunPlan(s: Schemas, defs: IndexDefs, stores: seq<Store>, conds: seq<Conjunct>, k: nat, p: Plan, ghost db: seq<seq<Row>>)
    returns (out: seq<Joined>)
    requires ConjunctsOk(s, conds) && Formed(s, defs, stores, db) && IsPlan(defs, conds, k, p) && PlanBuilds(p)
    requires forall t :: 0 <= t < |stores| ==> Holds(s, defs, stores[t], t, db[t])
    modifies HandlesOf(stores)
    ensures forall t :: 0 <= t < |stores| ==> Holds(s, defs, stores[t], t, db[t])
    ensures Reordered(out, PlanRows(s, defs, db, conds, k, p))
    decreases p
  {
    hide *;
    Sizes(s, defs, stores, db);
    match p {
      case Leaf(scan) =>
        LeafFacts(s, defs, conds, k, p);
        var rows := ScanOne(s, defs, stores, 0, scan, db);
        out := AsJoined(rows);
        LeafRows(s, defs, db, conds, k, p, rows);
      case NestLoop(left, scan, jc) =>
        LoopRows(s, defs, db, conds, k, p);
        var L := RunPlan(s, defs, stores, conds, k - 1, left, db);
        var rows := ScanOne(s, defs, stores, k - 1, scan, db);
        out := RunLoop(s, jc, k - 1, L, rows, PlanRows(s, defs, db, conds, k - 1, left), KeepRows(s, scan.conds, k - 1, db[k - 1]));
      case IndexNestLoop(left, scan, jc) =>
        ProbeRows(s, defs, db, conds, k, p);
        var L := RunPlan(s, defs, stores, conds, k - 1, left, db);
        out := RunProbe(s, defs, stores, k - 1, scan, jc, L, PlanRows(s, defs, db, conds, k - 1, left), db);
    }
  }

  lemma LeafFacts(s: Schemas, defs: IndexDefs, conds: seq<Conjunct>, k: nat, p: Plan)
    requires ConjunctsOk(s, conds) && |defs| == |s| && IsPlan(defs, conds, k, p) && p.Leaf? && PlanBuilds(p)
    ensures p.scan.table == 0 && AllPopped(p.scan.conds, 0) && ScanBuilds(p.scan)
    ensures |s| > 0 && ConjunctsOk(s, p.scan.conds) && (p.scan.index.Some? ==> p.scan.index.value < |defs[0]|)
  {
    TakenOk(s, conds, 0);
    TakenPopped(conds, 0);
  }

  lemma LeafRows(s: Schemas, defs: IndexDefs, db: seq<seq<Row>>, conds: seq<Conjunct>, k: nat, p: Plan, rows: seq<Row>)
    requires ConjunctsOk(s, conds) && TablesOk(s, db) && DefsOk(s, defs) && IsPlan(defs, conds, k, p) && p.Leaf?
    requires ConjunctsOk(s, On(p.scan.conds, 0)) && TableRowsOk(s, 0, db[0])
    requires Reordered(rows, KeepRows(s, On(p.scan.conds, 0), 0, db[0]))
    ensures Reordered(Extend([], rows), PlanRows(s, defs, db, conds, k, p))
  {
    hide ConjunctsOk, On, KeepRows, Taken, Extend, Reordered, TableRowsOk;
    ExtendBag([], rows, KeepRows(s, On(p.scan.conds, 0), 0, db[0]));
  }

  /** Conditions that are all on one table stay when the table's conditions are picked. */
  lemma {:induction false} OnAll(conds: seq<Conjunct>, t: nat)
    requires forall i :: 0 <= i < |conds| ==> OnlyOn(conds[i], t)
    ensures On(conds, t) == conds
  {
    hide OnlyOn;
    if conds != [] {
      hide On;
      var n := |conds| - 1;
      OnAll(conds[..n], t);
      OnSnoc(conds[..n], conds[n], true, t);
      assert conds == conds[..n] + [conds[n]];
    }
  }

  lemma LoopRows(s: Schemas, defs: IndexDefs, db: seq<seq<Row>>, conds: seq<Conjunct>, k: nat, p: Plan)
    requires ConjunctsOk(s, conds) && TablesOk(s, db) && DefsOk(s, defs) && IsPlan(defs, conds, k, p) && p.NestLoop?
    ensures p.scan.table == k - 1 && AllPopped(p.scan.conds, k - 1) && (PlanBuilds(p) <==> PlanBuilds(p.left) && ScanBuilds(p.scan))
    ensures k > 1 && IsPlan(defs, conds, k - 1, p.left) && k <= |s| && TableRowsOk(s, k - 1, db[k - 1])
    ensures p.scan.index.Some? ==> p.scan.index.value < |defs[k - 1]|
    ensures ConjunctsOk(s, p.scan.conds) && ConjunctsOk(s, p.conds) && On(p.scan.conds, k - 1) == p.scan.conds
    ensures forall i :: 0 <= i < |p.scan.conds| ==> OnlyOn(p.scan.conds[i], k - 1)
    ensures var L, rows := PlanRows(s, defs, db, conds, k - 1, p.left), KeepRows(s, p.scan.conds, k - 1, db[k - 1]);
            AllJoined(s, L, k - 1) && AllJoined(s, Product(L, rows), k) && PlanRows(s, defs, db, conds, k, p) == Keep(s, p.conds, Product(L, rows))
  {
    hide ConjunctsOk, KeepRows, Taken, On, JoinQuery.At, Effective, JoinIndexIs, Keep, Product, JoinedOk, TableRowsOk;
    assert TableRowsOk(s, k - 1, db[k - 1]);
    JoinOperands(s, conds, k - 1);
    OnAll(p.scan.conds, k - 1);
    ProductOk(s, PlanRows(s, defs, db, conds, k - 1, p.left), KeepRows(s, p.scan.conds, k - 1, db[k - 1]), k - 1);
  }

  lemma ProbeRows(s: Schemas, defs: IndexDefs, db: seq<seq<Row>>, conds: seq<Conjunct>, k: nat, p: Plan)
    requires ConjunctsOk(s, conds) && TablesOk(s, db) && DefsOk(s, defs) && IsPlan(defs, conds, k, p) && p.IndexNestLoop?
    ensures PlanBuilds(p) <==> PlanBuilds(p.left)
    ensures k > 1 && IsPlan(defs, conds, k - 1, p.left) && k <= |s| && TableRowsOk(s, k - 1, db[k - 1])
    ensures p.scan.table == k - 1 && p.scan.index.Some? && p.scan.index.value < |defs[k - 1]|
    ensures ConjunctsOk(s, p.scan.conds) && ConjunctsOk(s, p.conds) && ConjunctsOk(s, p.scan.conds + p.conds)
    ensures forall i :: 0 <= i < |p.scan.conds| ==> OnlyOn(p.scan.conds[i], k - 1)
    ensures forall i :: 0 <= i < |p.conds| ==> JoinsAt(p.conds[i], k - 1)
    ensures var L := PlanRows(s, defs, db, conds, k - 1, p.left);
            AllJoined(s, L, k - 1) && AllJoined(s, Product(L, db[k - 1]), k)
            && PlanRows(s, defs, db, conds, k, p)
               == if ProbeBound(defs, p.scan, p.conds) then Keep(s, p.scan.conds + p.conds, Product(L, db[k - 1])) else []
  {
    hide ConjunctsOk, KeepRows, Taken, On, JoinQuery.At, Effective, JoinIndexIs, Keep, Product, JoinedOk, TableRowsOk, ProbeBound, JoinsAt;
    assert TableRowsOk(s, k - 1, db[k - 1]);
    JoinOperands(s, conds, k - 1);
    ProductOk(s, PlanRows(s, defs, db, conds, k - 1, p.left), db[k - 1], k - 1);
  }

  /** A nested-loop join over reordered inputs. */
  method RunLoop(s: Schemas, jc: seq<Conjunct>, t: nat, L: seq<Joined>, rows: seq<Row>, ghost M: seq<Joined>, ghost kept: seq<Row>)
    returns (out: seq<Joined>)
    requires ConjunctsOk(s, jc) && AllJoined(s, M, t) && TableRowsOk(s, t, kept) && Reordered(L, M) && Reordered(rows, kept)
    ensures AllJoined(s, Product(M, kept), t + 1) && Reordered(out, Keep(s, jc, Product(M, kept)))
  {
    hide ConjunctsOk, JoinedOk, Fits, Keep, Product, Reordered;
    BagsTurn(L, M);
    BagsTurn(rows, kept);
    SameMembers(M, L);
    SameRows(s, t, rows, kept);
    JoinBag(s, jc, t, L, M, rows, kept);
    var left := new Stream<Joined>(L);
    var right := new Stream<Row>(rows);
    var j := new NestedLoopJoin(s, jc, t, left, right);
    out := DrainNestedLoop(j);
  }

  lemma BagsTurn<T>(a: seq<T>, b: seq<T>)
    requires Reordered(a, b)
    ensures Reordered(b, a)
  {
  }

  lemma SameRows(s: Schemas, t: nat, a: seq<Row>, b: seq<Row>)
    requires Reordered(a, b) && TableRowsOk(s, t, b)
    ensures TableRowsOk(s, t, a)
  {
    SameMembers(a, b);
    assert forall i :: 0 <= i < |a| ==> a[i] in b;
  }

  /** An index join with a stored table over a reordered left input. */
  method RunProbe(s: Schemas, defs: IndexDefs, stores: seq<Store>, t: nat, scan: ScanPlan, jc: seq<Conjunct>, L: seq<Joined>,
                  ghost M: seq<Joined>, ghost db: seq<seq<Row>>) returns (out: seq<Joined>)
    requires Formed(s, defs, stores, db) && t < |s| && scan.table == t && scan.index.Some? && scan.index.value < |defs[t]|
    requires ConjunctsOk(s, scan.conds) && ConjunctsOk(s, jc) && ConjunctsOk(s, scan.conds + jc)
    requires forall i :: 0 <= i < |scan.conds| ==> OnlyOn(scan.conds[i], t)
    requires forall i :: 0 <= i < |jc| ==> JoinsAt(jc[i], t)
    requires AllJoined(s, M, t) && AllJoined(s, Product(M, db[t]), t + 1) && Reordered(L, M)
    requires forall u :: 0 <= u < |stores| ==> Holds(s, defs, stores[u], u, db[u])
    modifies HandlesOf(stores)
    ensures forall u :: 0 <= u < |stores| ==> Holds(s, defs, stores[u], u, db[u])
    ensures Reordered(out, if ProbeBound(defs, scan, jc) then Keep(s, scan.conds + jc, Product(M, db[t])) else [])
  {
    hide Holds, ConjunctsOk, OnlyOn, JoinsAt, Keep, Product, JoinedOk, Reordered;
    BagsTurn(L, M);
    SameMembers(M, L);
    var p := Probe(s, t, Table(s[t], defs[t][scan.index.value]), scan.conds, jc);
    HandlesIn(stores, t);
    out := ProbeStore(s, defs, stores[t], p, scan.index.value, L, db[t]);
    forall u | 0 <= u < |stores| && u != t ensures Holds(s, defs, stores[u], u, db[u]) {
      assert Apart(stores[if u < t then u else t], stores[if u < t then t else u]);
      assert old(Holds(s, defs, stores[u], u, db[u]));
    }
    ProbedRows(s, defs, p, scan, L, M, db[t]);
  }

  lemma ProbedRows(s: Schemas, defs: IndexDefs, p: Probe, scan: ScanPlan, L: seq<Joined>, M: seq<Joined>, rows: seq<Row>)
    requires ProbeOk(p) && p.s == s && TableRowsOk(s, p.n, rows) && (forall e :: e in L ==> LeftRowOk(p, e))
    requires scan.table == p.n < |defs| && scan.index.Some? && scan.index.value < |defs[p.n]| && p.t.index == defs[p.n][scan.index.value]
    requires scan.conds == p.scanConds && ConjunctsOk(s, scan.conds + p.joinConds)
    requires AllJoined(s, M, p.n) && AllJoined(s, Product(M, rows), p.n + 1) && Reordered(L, M)
    ensures Reordered(Probed(p, L, rows), if ProbeBound(defs, scan, p.joinConds) then Keep(s, scan.conds + p.joinConds, Product(M, rows)) else [])
  {
    hide ConjunctsOk, OnlyOn, JoinsAt, Keep, Product, JoinedOk, Reordered, FullyBound, Probed, TableRowsOk;
    if FullyBound(p.n, p.t.index, p.scanConds, p.joinConds) {
      ProbedBound(p, L, rows);
      BagsSame(rows);
      JoinBag(s, scan.conds + p.joinConds, p.n, L, M, rows, rows);
    } else {
      ProbedUnbound(p, L, rows);
      BagsSame<Joined>([]);
    }
  }

  lemma BagsSame<T>(a: seq<T>)
    ensures Reordered(a, a)
  {
  }

  method ProbeStore(s: Schemas, defs: IndexDefs, st: Store, p: Probe, i: nat, L: seq<Joined>, ghost rows: seq<Row>) returns (out: seq<Joined>)
    requires p.n < |s| && |defs| == |s| && p.s == s && i < |defs[p.n]| && p.t == Table(s[p.n], defs[p.n][i])
    requires ConjunctsOk(s, p.scanConds) && ConjunctsOk(s, p.joinConds)
    requires forall k :: 0 <= k < |p.scanConds| ==> OnlyOn(p.scanConds[k], p.n)
    requires forall k :: 0 <= k < |p.joinConds| ==> JoinsAt(p.joinConds[k], p.n)
    requires (forall e :: e in L ==> LeftRowOk(p, e)) && Holds(s, defs, st, p.n, rows)
    modifies st.ihs
    ensures Holds(s, defs, st, p.n, rows) && ProbeOk(p) && TableRowsOk(s, p.n, rows) && out == Probed(p, L, rows)
  {
    hide ConjunctsOk, OnlyOn, JoinsAt, LeftRowOk, Probed, PagesOk, Records, KeyRid, IndexAgrees, Shape, Listed, ToMap, Ascending,
         RecordsFrom, Fits;
    st.Facts();
    ghost var heap := st.file.Live();
    assert st.IndexOk(i, heap);
    AllRecordsExact(st.file.pages, st.file.perPage, st.file.numPages);
    RightFacts(p, heap, st.file.Rids(), st.ihs[i].Contents());
    var left := new Stream<Joined>(L);
    var j := new IndexNestedLoopJoin(p, left, st.ihs[i], st.file);
    out := DrainIndexJoin(j);
    assert st.IndexOk(i, heap);
  }

  lemma RightFacts(p: Probe, heap: Heap, rids: seq<Rid>, m: map<int, Rid>)
    requires ProbeOk(p) && HeapFits(p.t, heap) && IndexAgrees(p.t, heap, m) && Ascending(rids) && forall r :: r in rids <==> r in heap
    ensures RightOk(p, heap, rids, m)
  {
    hide IndexAgrees, Ascending, Fits;
    forall i | 0 <= i < |rids| ensures KeyFits(RowsIn(heap, rids)[i], p.s[p.n]) {
      assert rids[i] in rids;
    }
  }

  method AsJoined(rows: seq<Row>) returns (out: seq<Joined>)
    ensures out == Extend([], rows)
  {
    out := [];
    for i := 0 to |rows|
      invariant |out| == i && forall j :: 0 <= j < i ==> out[j] == [] + [rows[j]]
    {
      out := out + [[] + [rows[i]]];
    }
  }

  /** A scan of one of the stored tables leaves all of them as they are. */
  method ScanOne(s: Schemas, defs: IndexDefs, stores: seq<Store>, t: nat, scan: ScanPlan, ghost db: seq<seq<Row>>) returns (out: seq<Row>)
    requires Formed(s, defs, stores, db) && t < |s| && ConjunctsOk(s, scan.conds)
    requires scan.table == t && AllPopped(scan.conds, t) && ScanBuilds(scan)
    requires scan.index.Some? ==> scan.index.value < |defs[t]|
    requires forall u :: 0 <= u < |stores| ==> Holds(s, defs, stores[u], u, db[u])
    modifies HandlesOf(stores)
    ensures forall u :: 0 <= u < |stores| ==> Holds(s, defs, stores[u], u, db[u])
    ensures TableRowsOk(s, t, db[t]) && ConjunctsOk(s, On(scan.conds, t))
    ensures Reordered(out, KeepRows(s, On(scan.conds, t), t, db[t]))
  {
    hide Holds, ConjunctOk, On, TableRowsOk, KeepRows;
    HandlesIn(stores, t);
    out := ScanTable(s, defs, stores[t], t, scan, db[t]);
    forall u | 0 <= u < |stores| && u != t ensures Holds(s, defs, stores[u], u, db[u]) {
      assert Apart(stores[if u < t then u else t], stores[if u < t then t else u]);
      assert old(Holds(s, defs, stores[u], u, db[u]));
    }
  }

  // -------------------------------------------------------------------------------------------
  // Queries

  lemma {:induction false} EffectiveAll(conds: seq<Conjunct>)
    requires NoSelfLater(conds)
    ensures Effective(conds) == conds
  {
    if conds != [] {
      EffectiveAll(conds[..|conds| - 1]);
    }
  }

  /** The rows a query's plan stands for. */
  lemma QueryRows(s: Schemas, defs: IndexDefs, db: seq<seq<Row>>, conds: seq<Conjunct>, extra: seq<Conjunct>, p: Plan)
    requires |s| > 0 && ConjunctsOk(s, conds) && AllImplied(s, conds, extra) && ConjunctsOk(s, conds + extra)
    requires forall d :: d in extra ==> IsConstEquality(d)
    requires TablesOk(s, db) && DefsOk(s, defs) && IsPlan(defs, conds + extra, |s|, p)
    ensures AllJoined(s, Cross(db, |s|), |s|) && ConjunctsOk(s, Effective(conds + extra))
    ensures !ProbesBound(defs, p) ==> PlanRows(s, defs, db, conds + extra, |s|, p) == []
    ensures ProbesBound(defs, p) ==> PlanRows(s, defs, db, conds + extra, |s|, p) == Keep(s, Effective(conds + extra), Cross(db, |s|))
    ensures ProbesBound(defs, p) && NoSelfLater(conds) ==>
              PlanRows(s, defs, db, conds + extra, |s|, p) == Keep(s, conds, Cross(db, |s|))
  {
    hide ConjunctOk, Cross, PlanRows, TableRowsOk, JoinedOk, Effective, Keep, KeepKnown, IsPlan, Implied, ProbesBound, DefsOk;
    var all := conds + extra;
    PlanExact(s, defs, db, all, |s|, p);
    KnownIsAll(s, Effective(all), Cross(db, |s|));
    ExtraNoSelf(conds, extra);
    if NoSelfLater(conds) {
      EffectiveAll(all);
      ImpliedKeeps(s, conds, extra, Cross(db, |s|));
    }
  }

  /** Rows, or the end of the program in the constructor of an index scan. */
  datatype Answer = Rows(rows: seq<Joined>) | Aborted

  ghost function PlanAnswer(s: Schemas, defs: IndexDefs, db: seq<seq<Row>>, conds: seq<Conjunct>, p: Plan): Answer
    requires ConjunctsOk(s, conds) && TablesOk(s, db) && DefsOk(s, defs) && IsPlan(defs, conds, |s|, p)
  {
    if PlanBuilds(p) then Rows(PlanRows(s, defs, db, conds, |s|, p)) else Aborted
  }

  /** What the plan of a query comes to, for all queries. */
  lemma QueryExact(s: Schemas, defs: IndexDefs, db: seq<seq<Row>>, conds: seq<Conjunct>, extra: seq<Conjunct>, p: Plan)
    requires |s| > 0 && ConjunctsOk(s, conds) && AllImplied(s, conds, extra) && ConjunctsOk(s, conds + extra)
    requires forall d :: d in extra ==> IsConstEquality(d)
    requires TablesOk(s, db) && DefsOk(s, defs) && IsPlan(defs, conds + extra, |s|, p)
    ensures AllJoined(s, Cross(db, |s|), |s|) && ConjunctsOk(s, Effective(conds + extra))
    ensures PlanAnswer(s, defs, db, conds + extra, p)
            == if FirstIndexed(defs, conds + extra) && !NoSelfLater(conds) then Aborted
               else if ProbesBound(defs, p) then Rows(Keep(s, Effective(conds + extra), Cross(db, |s|)))
               else Rows([])
    ensures NoSelfLater(conds) && ProbesBound(defs, p) ==>
              PlanAnswer(s, defs, db, conds + extra, p) == Rows(Keep(s, conds, Cross(db, |s|)))
  {
    hide ConjunctOk, Cross, PlanRows, TableRowsOk, JoinedOk, Effective, Keep, IsPlan, Implied, ProbesBound, DefsOk, NoSelfLater,
         FirstIndexed, PlanBuilds;
    BuildsExactly(defs, conds + extra, |s|, p);
    ExtraNoSelf(conds, extra);
    QueryRows(s, defs, db, conds, extra, p);
  }

  lemma ExtraNoSelf(conds: seq<Conjunct>, extra: seq<Conjunct>)
    requires forall d :: d in extra ==> IsConstEquality(d)
    ensures NoSelfLater(conds + extra) <==> NoSelfLater(conds)
  {
    assert forall i :: 0 <= i < |conds| ==> (conds + extra)[i] == conds[i];
    if NoSelfLater(conds) {
      forall i | 0 <= i < |conds + extra| ensures !SelfLater((conds + extra)[i]) {
        assert i >= |conds| ==> extra[i - |conds|] in extra;
      }
    }
  }

  lemma {:induction false} KeepFewer(s: Schemas, A: seq<Conjunct>, B: seq<Conjunct>, L: seq<Joined>)
    requires ConjunctsOk(s, A) && ConjunctsOk(s, B) && forall e :: e in L ==> JoinedOk(s, e)
    requires forall e :: e in L && EvalAll(s, A, e) ==> EvalAll(s, B, e)
    ensures |Keep(s, A, L)| <= |Keep(s, B, L)|
    ensures if forall e :: e in L && EvalAll(s, B, e) ==> EvalAll(s, A, e) then Keep(s, A, L) == Keep(s, B, L)
            else |Keep(s, A, L)| < |Keep(s, B, L)|
  {
    hide EvalAll, JoinedOk, ConjunctsOk;
    if L != [] {
      KeepFewer(s, A, B, L[1..]);
      assert L == [L[0]] + L[1..];
    }
  }

  lemma {:induction false} KeepNothing(s: Schemas, A: seq<Conjunct>, L: seq<Joined>)
    requires ConjunctsOk(s, A) && forall e :: e in L ==> JoinedOk(s, e)
    ensures Keep(s, A, L) == [] <==> forall e :: e in L ==> !EvalAll(s, A, e)
  {
    hide EvalAll, JoinedOk, ConjunctsOk;
    if L != [] {
      KeepNothing(s, A, L[1..]);
      assert L == [L[0]] + L[1..];
    }
  }

  lemma {:induction false} EffectiveFewer(s: Schemas, conds: seq<Conjunct>, e: Joined)
    requires ConjunctsOk(s, conds) && JoinedOk(s, e) && EvalAll(s, conds, e)
    ensures ConjunctsOk(s, Effective(conds)) && EvalAll(s, Effective(conds), e)
  {
    hide Eval, ConjunctOk, JoinedOk;
    if conds != [] {
      EffectiveFewer(s, conds[..|conds| - 1], e);
    }
  }

  /** What makes the plan's rows the right ones: with an unbound probe, that there is nothing to
      find; otherwise, that the conditions that are applied leave nothing for the dropped ones. */
  ghost predicate PlanSuffices(s: Schemas, defs: IndexDefs, db: seq<seq<Row>>, conds: seq<Conjunct>, extra: seq<Conjunct>, p: Plan)
    requires |db| == |s| && ConjunctsOk(s, conds) && ConjunctsOk(s, Effective(conds + extra)) && AllJoined(s, Cross(db, |s|), |s|)
  {
    if ProbesBound(defs, p) then
      forall e :: e in Cross(db, |s|) && EvalAll(s, Effective(conds + extra), e) ==> EvalAll(s, conds, e)
    else
      forall e :: e in Cross(db, |s|) ==> !EvalAll(s, conds, e)
  }

  /** The rows of a query's plan are the filtered cross product exactly if the plan suffices. */
  lemma QueryRight(s: Schemas, defs: IndexDefs, db: seq<seq<Row>>, conds: seq<Conjunct>, extra: seq<Conjunct>, p: Plan, out: seq<Joined>)
    requires |s| > 0 && ConjunctsOk(s, conds) && AllImplied(s, conds, extra) && ConjunctsOk(s, conds + extra)
    requires forall d :: d in extra ==> IsConstEquality(d)
    requires TablesOk(s, db) && DefsOk(s, defs) && IsPlan(defs, conds + extra, |s|, p)
    requires Reordered(out, PlanRows(s, defs, db, conds + extra, |s|, p))
    ensures AllJoined(s, Cross(db, |s|), |s|) && ConjunctsOk(s, Effective(conds + extra))
    ensures Reordered(out, Keep(s, conds, Cross(db, |s|))) <==> PlanSuffices(s, defs, db, conds, extra, p)
  {
    hide ConjunctOk, Cross, PlanRows, TableRowsOk, JoinedOk, Effective, Keep, IsPlan, Implied, ProbesBound, DefsOk, EvalAll, Reordered;
    var L := Cross(db, |s|);
    QueryRows(s, defs, db, conds, extra, p);
    BagsEqual(out, PlanRows(s, defs, db, conds + extra, |s|, p), Keep(s, conds, L));
    KeepNothing(s, conds, L);
    forall e | e in L && EvalAll(s, conds, e) ensures EvalAll(s, Effective(conds + extra), e) {
      ImpliedEval(s, conds, extra, e);
      EffectiveFewer(s, conds + extra, e);
    }
    KeepFewer(s, conds, Effective(conds + extra), L);
  }

  lemma BagsEqual<T>(out: seq<T>, a: seq<T>, b: seq<T>)
    requires Reordered(out, a)
    ensures Reordered(out, b) <==> Reordered(a, b)
    ensures a == b ==> Reordered(a, b)
    ensures Reordered(a, b) ==> |a| == |b|
  {
    assert |multiset(a)| == |a| && |multiset(b)| == |b|;
  }

  /** Analysis, planning and execution of a query. */
  method RunQuery(s: Schemas, defs: IndexDefs, stores: seq<Store>, conds: seq<Conjunct>, ghost db: seq<seq<Row>>)
    returns (r: Answer, p: Plan, ghost extra: seq<Conjunct>)
    requires |s| > 0 && ConjunctsOk(s, conds) && Formed(s, defs, stores, db)
    requires forall t :: 0 <= t < |stores| ==> Holds(s, defs, stores[t], t, db[t])
    modifies HandlesOf(stores)
    ensures forall t :: 0 <= t < |stores| ==> Holds(s, defs, stores[t], t, db[t])
    ensures ConjunctsOk(s, conds + extra) && AllImplied(s, conds, extra) && IsPlan(defs, conds + extra, |s|, p)
    ensures AllJoined(s, Cross(db, |s|), |s|) && ConjunctsOk(s, Effective(conds + extra))
    ensures (r.Aborted? <==> FirstIndexed(defs, conds + extra) && !NoSelfLater(conds))
    ensures NoSelfLater(conds) && ProbesBound(defs, p) ==> r.Rows? && Reordered(r.rows, Keep(s, conds, Cross(db, |s|)))
    ensures r.Rows? && ProbesBound(defs, p) ==> Reordered(r.rows, Keep(s, Effective(conds + extra), Cross(db, |s|)))
    ensures r.Rows? && !ProbesBound(defs, p) ==> r.rows == []
    ensures r.Rows? ==> (Reordered(r.rows, Keep(s, conds, Cross(db, |s|))) <==> PlanSuffices(s, defs, db, conds, extra, p))
  {
    hide Holds, ConjunctOk, Cross, PlanRows, TableRowsOk, JoinedOk, Effective, Keep, IsPlan, Implied, ProbesBound, Formed, DefsOk, Tied,
         NoSelfLater, FirstIndexed, PlanBuilds, PlanSuffices;
    Sizes(s, defs, stores, db);
    var all, pushed;
    all, extra := DeriveEqualities(s, conds);
    p, pushed := MakeOneRel(s, defs, all);
    BuildsExactly(defs, all, |s|, p);
    ExtraNoSelf(conds, extra);
    QueryRows(s, defs, db, conds, extra, p);
    var ok := BuildPlan(p);
    if !ok {
      return Aborted, p, extra;
    }
    var out := RunPlan(s, defs, stores, all, |s|, p, db);
    QueryRight(s, defs, db, conds, extra, p, out);
    SameMembers(out, PlanRows(s, defs, db, all, |s|, p));
    r := Rows(out);
  }

  // -------------------------------------------------------------------------------------------
  // Why the conditions are needed

  /** A table of one column and one of two. */
  const TWO_TABLES: Schemas := [[IntColumn], [IntColumn, IntColumn]]

  /** A query with one condition on two tables of one row each. */
  lemma PairAnswer(s: Schemas, defs: IndexDefs, a: Row, b: Row, c: Conjunct, p: Plan)
    requires |s| == 2 && KeyFits(a, s[0]) && KeyFits(b, s[1]) && ConjunctOk(s, c)
    requires DefsOk(s, defs) && IsPlan(defs, [c], 2, p) && !FirstIndexed(defs, [c])
    ensures ConjunctsOk(s, [c]) && TablesOk(s, [[a], [b]]) && JoinedOk(s, [a, b]) && ConjunctsOk(s, Effective([c]))
    ensures AllJoined(s, Cross([[a], [b]], 2), 2)
    ensures Keep(s, [c], Cross([[a], [b]], 2)) == if EvalAll(s, [c], [a, b]) then [[a, b]] else []
    ensures PlanAnswer(s, defs, [[a], [b]], [c], p)
            == Rows(if ProbesBound(defs, p) && EvalAll(s, Effective([c]), [a, b]) then [[a, b]] else [])
  {
    hide *;
    var db := [[a], [b]];
    TwoRows(s, db, a, b, c);
    OneCondition(s, c);
    KeepPair(s, [c], [a, b]);
    KeepPair(s, Effective([c]), [a, b]);
    QueryExact(s, defs, db, [c], [], p);
  }

  lemma OneCondition(s: Schemas, c: Conjunct)
    requires ConjunctOk(s, c)
    ensures ConjunctsOk(s, [c]) && AllImplied(s, [c], []) && [c] + [] == [c]
    ensures Effective([c]) == (if SelfLater(c) then [] else [c]) && ConjunctsOk(s, Effective([c]))
  {
    hide ConjunctOk;
    assert [c][..0] == [] && [] + [c] == [c];
    assert Effective([]) == [];
  }

  /** A comparison within the second table is taken by the first table's full scan and not applied:
      every plan of the query returns a row, and none satisfies the condition. */
  lemma SelfComparisonDropped(p: Plan, c: Conjunct, a: Row, b: Row)
    requires c == Conjunct(TabCol(1, 0), EQ, Col(TabCol(1, 1))) && IsPlan([[], []], [c], 2, p)
    requires a == [IntValue(0)] && b == [IntValue(1), IntValue(2)]
    ensures ConjunctsOk(TWO_TABLES, [c]) && TablesOk(TWO_TABLES, [[a], [b]]) && AllJoined(TWO_TABLES, Cross([[a], [b]], 2), 2)
    ensures PlanAnswer(TWO_TABLES, [[], []], [[a], [b]], [c], p) == Rows([[a, b]])
    ensures Keep(TWO_TABLES, [c], Cross([[a], [b]], 2)) == []
  {
    hide Cross, TablesOk, Keep, PlanAnswer, PlanRows, IsPlan, Taken, ScanMatch, Effective, ProbesBound;
    NoProbe(p, c);
    OneCondition(TWO_TABLES, c);
    PairAnswer(TWO_TABLES, [[], []], a, b, c, p);
    assert !Eval(TWO_TABLES, [c][0], [a, b]);
  }

  /** Without an index nothing is probed. */
  lemma NoProbe(p: Plan, c: Conjunct)
    requires IsPlan([[], []], [c], 2, p)
    ensures ProbesBound([[], []], p)
  {
  }

  /** The same condition beside one that makes the first table's scan use an index: every plan ends
      the program. */
  lemma SelfComparisonAborts(p: Plan)
    requires IsPlan([[[0]], []], [Conjunct(TabCol(0, 0), EQ, Val(IntValue(5))), Conjunct(TabCol(1, 0), EQ, Col(TabCol(1, 1)))], 2, p)
    ensures !PlanBuilds(p)
  {
    var k := Conjunct(TabCol(0, 0), EQ, Val(IntValue(5)));
    var conds := [k, Conjunct(TabCol(1, 0), EQ, Col(TabCol(1, 1)))];
    assert conds[..1] == [k] && [k][..0] == [];
    assert Taken([], 0) == [] && Taken([k], 0) == [k] && Taken(conds, 0) == conds;
    assert conds[0] == k;
    assert HasEqOn(conds, TabCol(0, 0));
    assert ScanMatch(0, [0], conds) > 0;
    assert [[[0]], []][0][0] == [0];
    assert FirstIndexed([[[0]], []], conds);
    assert SelfLater(conds[1]);
    BuildsExactly([[[0]], []], conds, 2, p);
  }

  /** Two tables of one row each. */
  lemma TwoRows(s: Schemas, db: seq<seq<Row>>, a: Row, b: Row, c: Conjunct)
    requires |s| == 2 && db == [[a], [b]] && KeyFits(a, s[0]) && KeyFits(b, s[1]) && ConjunctOk(s, c)
    ensures ConjunctsOk(s, [c]) && TablesOk(s, db) && JoinedOk(s, [a, b]) && AllJoined(s, Cross(db, 2), 2) && Cross(db, 2) == [[a, b]]
  {
    hide Fits, ConjunctOk, Cross;
    CrossOk(s, db, 2);
    CrossPair(db, a, b);
  }

  lemma CrossPair(db: seq<seq<Row>>, a: Row, b: Row)
    requires db == [[a], [b]]
    ensures Cross(db, 2) == [[a, b]]
  {
    CrossOne(db);
    CrossNext(db, 1);
    var one: seq<Joined> := [[a]];
    assert Extend([], [a])[0] == [a];
    assert Cross(db, 1) == one;
    ProductOne([a], [b]);
    assert Extend([a], [b])[0] == [a, b];
  }

  /** An index on two columns of which a join binds the first: every plan of the query probes it and
      returns nothing, though a row satisfies the condition. */
  lemma PartlyBoundProbe(p: Plan, c: Conjunct, a: Row, b: Row)
    requires c == Conjunct(TabCol(0, 0), EQ, Col(TabCol(1, 0))) && IsPlan([[], [[0, 1]]], [c], 2, p)
    requires a == [IntValue(1)] && b == [IntValue(1), IntValue(2)]
    ensures ConjunctsOk(TWO_TABLES, [c]) && TablesOk(TWO_TABLES, [[a], [b]]) && AllJoined(TWO_TABLES, Cross([[a], [b]], 2), 2)
    ensures DefsOk(TWO_TABLES, [[], [[0, 1]]])
    ensures PlanAnswer(TWO_TABLES, [[], [[0, 1]]], [[a], [b]], [c], p) == Rows([])
    ensures Keep(TWO_TABLES, [c], Cross([[a], [b]], 2)) == [[a, b]]
  {
    hide Cross, TablesOk, Keep, PlanAnswer, PlanRows, IsPlan, Taken, ScanMatch, Effective, ProbesBound;
    HalfProbe(p, c);
    PairAnswer(TWO_TABLES, [[], [[0, 1]]], a, b, c, p);
    assert Eval(TWO_TABLES, [c][0], [a, b]);
  }

  /** Every plan probes the index, and one of its columns is not bound. */
  lemma HalfProbe(p: Plan, c: Conjunct)
    requires c == Conjunct(TabCol(0, 0), EQ, Col(TabCol(1, 0))) && IsPlan([[], [[0, 1]]], [c], 2, p)
    ensures !ProbesBound([[], [[0, 1]]], p)
  {
    hide JoinMatch, HasJoinEqOn, FullyBound, ScanIndexIs;
    assert [c][..0] == [];
    assert Effective([]) == [] && On([], 1) == [] && JoinQuery.At([], 1) == [];
    assert Effective([c]) == [c];
    assert On([c], 1) == [] && JoinQuery.At([c], 1) == [c];
    PartlyBound(c);
    OnlyProbe([c]);
  }

  /** With one index there is no choice between probing it and not. */
  lemma OnlyProbe(jc: seq<Conjunct>)
    requires JoinIndexIs(1, [[0, 1]], [], jc, Some(0))
    ensures !JoinIndexIs(1, [[0, 1]], [], jc, None)
  {
    hide JoinMatch, HasJoinEqOn;
  }

  lemma PartlyBound(c: Conjunct)
    requires c == Conjunct(TabCol(0, 0), EQ, Col(TabCol(1, 0)))
    ensures JoinIndexIs(1, [[0, 1]], [], [c], Some(0)) && !FullyBound(1, [0, 1], [], [c])
  {
    assert [c][0].rhs.Col? && [c][0].op.EQ? && [c][0].rhs.c == TabCol(1, 0);
    assert HasJoinEqOn([c], TabCol(1, 0)) && !HasJoinEqOn([c], TabCol(1, 1));
    assert IsBound(1, [0, 1][0], [], [c]) && !IsBound(1, [0, 1][1], [], [c]);
    assert [0, 1][1..] == [1];
    assert JoinMatch(1, [0, 1], [], [c]) == 1;
    assert [[0, 1]][0] == [0, 1];
  }

  lemma KeepPair(s: Schemas, conds: seq<Conjunct>, e: Joined)
    requires ConjunctsOk(s, conds) && JoinedOk(s, e)
    ensures Keep(s, conds, [e]) == if EvalAll(s, conds, e) then [e] else []
  {
    hide EvalAll, ConjunctsOk, JoinedOk;
    var none: seq<Joined> := [];
    assert [e][1..] == none;
  }
}
