/**
  Runs of statements on one table: every SELECT sees exactly the satisfying records by whichever
  access path, and after every statement each index is the key-rid map of the records.
  */
module Statements {
  import opened Sequences
  import opened Options
  import opened IndexKeys
  import opened ScanBounds
  import opened IndexPages
  import opened IndexShape
  import opened ScanExec
  import opened HeapFile
  import opened TableStore

  /** A statement and the access path its rows are found by: an index, or the full scan. */
  datatype Stmt =
    | InsertStmt(values: seq<Value>)
    | UpdateStmt(sets: seq<SetClause>, conds: seq<Cond>, path: Option<nat>)
    | DeleteStmt(conds: seq<Cond>, path: Option<nat>)

  predicate StmtOk(s: Schema, st: Stmt) {
    match st
    case InsertStmt(values) => LiteralsOk(values)
    case UpdateStmt(sets, conds, path) => SetsOk(sets, s.cols) && CondsOk(conds, s.cols) && PathOk(s, path)
    case DeleteStmt(conds, path) => CondsOk(conds, s.cols) && PathOk(s, path)
  }

  predicate PathOk(s: Schema, path: Option<nat>) {
    path.Some? ==> path.value < |s.indexes|
  }

  /** The rids are those of the satisfying records, each once. */
  ghost predicate Selected(s: Schema, conds: seq<Cond>, heap: Heap, rids: seq<Rid>)
    requires CondsOk(conds, s.cols) && RowsFit(s, heap)
  {
    NoDup(rids) && forall r :: r in rids <==> r in heap && Satisfies(conds, heap[r], s.cols)
  }

  /** What a statement may do to the records; no word about access paths or indexes. */
  ghost predicate Effect(s: Schema, st: Stmt, h: Heap, h': Heap)
    requires SchemaOk(s) && StmtOk(s, st) && RowsFit(s, h)
  {
    match st
    case InsertStmt(values) => exists rows, rids, out :: InsertEffect(s, values, h, h', rows, rids, out)
    case UpdateStmt(sets, conds, _) =>
      exists rids :: Selected(s, conds, h, rids) && Ascending(rids) && h' == UpdateAll(s, sets, h, rids)
    case DeleteStmt(conds, _) => exists rids :: Selected(s, conds, h, rids) && h' == h - SetOf(rids)
  }

  /** Rows of the values were placed at unused rids until the values ended or one was refused. */
  ghost predicate InsertEffect(s: Schema, values: seq<Value>, h: Heap, h': Heap, rows: seq<Row>, rids: seq<Rid>, out: Outcome)
    requires SchemaOk(s) && LiteralsOk(values)
  {
    && |rows| == |rids| && h' == PlaceAll(h, rows, rids) && RowsFit(s, h')
    && if |values| % |s.cols| != 0 then rows == [] && out == Error(InvalidValueCount)
       else InsertedPrefix(s, values, h, rows, rids) && StoppedAt(s, values, h', |rows|, out)
  }

  /** The rows a WHERE clause selects, by an index or by the full scan. */
  method Select(st: Store, conds: seq<Cond>, path: Option<nat>) returns (rids: seq<Rid>)
    requires st.Valid() && CondsOk(conds, st.schema.cols) && PathOk(st.schema, path)
    modifies st.ihs
    ensures st.Valid() && st.file.Live() == old(st.file.Live())
    ensures RowsFit(st.schema, st.file.Live()) && Selected(st.schema, conds, st.file.Live(), rids)
  {
    hide Satisfies, PagesOk, Records, KeyRid, Fits, Ascending, IndexAgrees, EntriesAgree, Matching, Shape, Listed;
    st.Facts();
    match path {
      case None =>
        rids := SeqScanAll(st.schema.cols, conds, st.file);
        AscendingDistinct(rids);
      case Some(i) =>
        rids := SelectByIndex(st, i, conds);
    }
  }

  method SelectByIndex(st: Store, i: nat, conds: seq<Cond>) returns (rids: seq<Rid>)
    requires st.Valid() && CondsOk(conds, st.schema.cols) && i < |st.schema.indexes|
    modifies st.ihs
    ensures st.Valid() && st.file.Live() == old(st.file.Live())
    ensures RowsFit(st.schema, st.file.Live()) && Selected(st.schema, conds, st.file.Live(), rids)
  {
    hide Satisfies, PagesOk, Records, KeyRid, Fits, Ascending, IndexAgrees, EntriesAgree, Matching, Shape, Listed, ToMap, RowsFit;
    st.Facts();
    ghost var heap := st.file.Live();
    assert st.IndexOk(i, heap);
    rids := IndexScanAll(IndexTable(st.schema, i), conds, st.ihs[i], st.file);
    assert st.IndexOk(i, heap);
  }

  lemma SelectedRids(s: Schema, conds: seq<Cond>, heap: Heap, rids: seq<Rid>)
    requires SchemaOk(s) && CondsOk(conds, s.cols) && RowsFit(s, heap) && Selected(s, conds, heap, rids)
    ensures NoDup(rids) && forall r :: r in rids ==> r in heap
    ensures Ascending(SortRids(rids)) && NoDup(SortRids(rids)) && Selected(s, conds, heap, SortRids(rids))
    ensures forall r :: r in SortRids(rids) <==> r in rids
  {
    hide Satisfies, SortRids, Ascending;
    SortRidsSorts(rids);
    AscendingDistinct(SortRids(rids));
  }

  method Execute(st: Store, stmt: Stmt)
    requires st.Valid() && StmtOk(st.schema, stmt)
    modifies st.file, st.ihs
    ensures st.Valid() && RowsFit(st.schema, old(st.file.Live()))
    ensures Effect(st.schema, stmt, old(st.file.Live()), st.file.Live())
  {
    hide Satisfies, Fits, LiteralsOk, SetOk, Selected, UpdateAll, SortRids, PagesOk, Records, KeyRid, InsertedPrefix, StoppedAt,
         PlaceAll, RowsFit, Ascending;
    st.Facts();
    ghost var heap := st.file.Live();
    match stmt {
      case InsertStmt(values) =>
        var out;
        ghost var rows, rids;
        out, rows, rids := st.Insert(values);
        NonePlaced(heap, rows, rids);
        assert InsertEffect(st.schema, values, heap, st.file.Live(), rows, rids, out);
      case UpdateStmt(sets, conds, path) =>
        var rids := Select(st, conds, path);
        SelectedRids(st.schema, conds, heap, rids);
        st.Update(sets, rids);
      case DeleteStmt(conds, path) =>
        var rids := Select(st, conds, path);
        SelectedRids(st.schema, conds, heap, rids);
        st.Delete(rids);
    }
  }

  /** Any run of statements: the records go from state to state as the statements say, and the
      table, indexes included, is consistent at the end of each. */
  method Run(st: Store, stmts: seq<Stmt>) returns (ghost trace: seq<Heap>)
    requires st.Valid() && forall k :: 0 <= k < |stmts| ==> StmtOk(st.schema, stmts[k])
    modifies st.file, st.ihs
    ensures st.Valid()
    ensures |trace| == |stmts| + 1 && trace[0] == old(st.file.Live()) && trace[|stmts|] == st.file.Live()
    ensures forall k :: 0 <= k < |stmts| ==> RowsFit(st.schema, trace[k]) && Effect(st.schema, stmts[k], trace[k], trace[k + 1])
  {
    hide Effect, RowsFit, StmtOk, PagesOk, Records, KeyRid;
    trace := [st.file.Live()];
    st.Facts();
    for n := 0 to |stmts|
      invariant st.Valid() && |trace| == n + 1 && trace[0] == old(st.file.Live()) && trace[n] == st.file.Live()
      invariant forall k :: 0 <= k < n ==> RowsFit(st.schema, trace[k]) && Effect(st.schema, stmts[k], trace[k], trace[k + 1])
    {
      Execute(st, stmts[n]);
      trace := trace + [st.file.Live()];
    }
  }

  // -------------------------------------------------------------------------------------------
  // What the statement semantics promises about the records alone

  /** An UPDATE leaves the records it does not select alone, and makes each selected one either its
      old self or the assignments applied to its old values. */
  lemma {:induction false} UpdateAllRows(s: Schema, sets: seq<SetClause>, heap: Heap, rids: seq<Rid>)
    requires SchemaOk(s) && SetsOk(sets, s.cols) && RowsFit(s, heap) && NoDup(rids) && forall r :: r in rids ==> r in heap
    ensures var h := UpdateAll(s, sets, heap, rids);
            && (forall r :: r in heap && r !in rids ==> h[r] == heap[r])
            && (forall r :: r in rids ==> h[r] == heap[r] || AppliedTo(sets, heap[r], h[r], s.cols))
  {
    hide Clashes, AppliedTo, SetsOk, Fits;
    if rids != [] {
      var n := |rids| - 1;
      UpdateAllRows(s, sets, heap, rids[..n]);
      assert rids == rids[..n] + [rids[n]] && rids[n] !in rids[..n];
      ApplySetsMeaning(sets, heap[rids[n]], s.cols);
    }
  }

  /** It never makes two records share a key of an index. */
  lemma {:induction false} UpdateAllUnique(s: Schema, sets: seq<SetClause>, heap: Heap, rids: seq<Rid>, i: nat)
    requires SchemaOk(s) && SetsOk(sets, s.cols) && RowsFit(s, heap) && (forall r :: r in rids ==> r in heap)
    requires i < |s.indexes| && Unique(IndexTable(s, i), heap)
    ensures Unique(IndexTable(s, i), UpdateAll(s, sets, heap, rids))
  {
    hide SetsOk, Fits, UpdateOne, Unique;
    if rids != [] {
      var n := |rids| - 1;
      UpdateAllUnique(s, sets, heap, rids[..n], i);
      UpdateOneUnique(s, sets, UpdateAll(s, sets, heap, rids[..n]), rids[n], i);
    }
  }

  lemma UpdateOneUnique(s: Schema, sets: seq<SetClause>, heap: Heap, r: Rid, i: nat)
    requires SchemaOk(s) && SetsOk(sets, s.cols) && RowsFit(s, heap) && r in heap
    requires i < |s.indexes| && Unique(IndexTable(s, i), heap)
    ensures Unique(IndexTable(s, i), UpdateOne(s, sets, heap, r))
  {
    hide SetsOk, Fits, ApplySets;
    var row := ApplySets(sets, heap[r], s.cols);
    assert !Clashes(s, heap, row, Some(r)) ==> !ClashesIn(IndexTable(s, i), heap, row, Some(r));
  }

  /** Two rows with one key, for a table of one unique column. */
  const KEY_TABLE := Schema([IntColumn], [[0]])
  const TWO_EQUAL_ROWS := [IntValue(1), IntValue(1)]

  /** The INSERT of two equal rows into an empty table is one that fails and keeps its first row. */
  lemma SecondRowFails(r: Rid)
    ensures InsertEffect(KEY_TABLE, TWO_EQUAL_ROWS, map[], map[r := [IntValue(1)]], [[IntValue(1)]], [r], Failure)
    ensures !RefusedAtOnce(KEY_TABLE, TWO_EQUAL_ROWS, map[])
  {
    var row := [IntValue(1)];
    var h: Heap := map[r := row];
    assert Chunk(TWO_EQUAL_ROWS, 1, 0) == row && Chunk(TWO_EQUAL_ROWS, 1, 1) == row;
    NonePlaced(map[], [row][..0], [r][..0]);
    assert PlaceAll(map[], [row], [r]) == h;
    assert KeyFits(row, KEY_TABLE.cols) && RowIs(row, KEY_TABLE.cols, Made(row));
    assert r in h && KeyOf(IndexTable(KEY_TABLE, 0), h[r]) == KeyOf(IndexTable(KEY_TABLE, 0), row);
    assert ClashesIn(IndexTable(KEY_TABLE, 0), h, row, None);
    NextNotRefused(KEY_TABLE, TWO_EQUAL_ROWS, map[], row);
  }
}
