/**
  A table with its record file and its unique indexes, and the INSERT, UPDATE and DELETE executors
  on it, with row versioning off.  Every index is kept equal to the key-rid map of the records.
  */
module TableStore {
  import opened Sequences
  import opened Options
  import opened IndexKeys
  import opened ScanBounds
  import opened IndexPages
  import opened IndexShape
  import opened IndexHandle
  import opened ScanExec
  import opened HeapFile

  // -------------------------------------------------------------------------------------------
  // Schema and keys

  /** The columns of a table and, for each of its indexes, the columns the index covers. */
  datatype Schema = Schema(cols: seq<Column>, indexes: seq<seq<nat>>)

  predicate SchemaOk(s: Schema) {
    s.cols != [] && forall i :: 0 <= i < |s.indexes| ==> TableOk(IndexTable(s, i))
  }

  function IndexTable(s: Schema, i: nat): Table
    requires i < |s.indexes|
  {
    Table(s.cols, s.indexes[i])
  }

  ghost predicate RowsFit(s: Schema, heap: Heap) {
    forall r :: r in heap ==> KeyFits(heap[r], s.cols)
  }

  /** Some record other than self has the row's key in some index. */
  ghost predicate Clashes(s: Schema, heap: Heap, row: Row, self: Option<Rid>)
    requires SchemaOk(s) && RowsFit(s, heap) && KeyFits(row, s.cols)
  {
    exists i :: 0 <= i < |s.indexes| && ClashesIn(IndexTable(s, i), heap, row, self)
  }

  ghost predicate ClashesIn(t: Table, heap: Heap, row: Row, self: Option<Rid>)
    requires TableOk(t) && HeapFits(t, heap) && KeyFits(row, t.cols)
  {
    exists q :: q in heap && self != Some(q) && KeyOf(t, heap[q]) == KeyOf(t, row)
  }

  /** No two records share a key of an index. */
  ghost predicate Unique(t: Table, heap: Heap)
    requires TableOk(t) && HeapFits(t, heap)
  {
    forall r, q :: r in heap && q in heap && KeyOf(t, heap[r]) == KeyOf(t, heap[q]) ==> r == q
  }

  lemma RankInjective(t: Table, a: Row, b: Row)
    requires TableOk(t) && KeyFits(a, t.cols) && KeyFits(b, t.cols)
    ensures KeyRank(t, a) == KeyRank(t, b) <==> KeyOf(t, a) == KeyOf(t, b)
  {
    hide Rank, Fits;
    if KeyOf(t, a) != KeyOf(t, b) {
      var i := FirstDifference(KeyOf(t, a), KeyOf(t, b), KeyCols(t));
    }
  }

  /** An index that agrees with the records makes them unique, and its entry for a key is the
      record with that key. */
  lemma AgreeUnique(t: Table, heap: Heap, m: map<int, Rid>)
    requires TableOk(t) && HeapFits(t, heap) && IndexAgrees(t, heap, m)
    ensures Unique(t, heap)
  {
    hide KeyRank, Fits;
    forall r, q | r in heap && q in heap && KeyOf(t, heap[r]) == KeyOf(t, heap[q]) ensures r == q {
      RankInjective(t, heap[r], heap[q]);
    }
  }

  lemma AgreeClash(t: Table, heap: Heap, m: map<int, Rid>, row: Row, self: Option<Rid>)
    requires TableOk(t) && HeapFits(t, heap) && IndexAgrees(t, heap, m) && KeyFits(row, t.cols)
    ensures ClashesIn(t, heap, row, self) <==> KeyRank(t, row) in m && Some(m[KeyRank(t, row)]) != self
  {
    hide KeyRank, Fits;
    forall q | q in heap ensures KeyRank(t, heap[q]) == KeyRank(t, row) <==> KeyOf(t, heap[q]) == KeyOf(t, row) {
      RankInjective(t, heap[q], row);
    }
  }

  lemma AgreeNone(t: Table)
    requires TableOk(t)
    ensures HeapFits(t, map[]) && IndexAgrees(t, map[], map[])
  {
  }

  lemma AgreeInsert(t: Table, heap: Heap, m: map<int, Rid>, r: Rid, row: Row)
    requires TableOk(t) && HeapFits(t, heap) && IndexAgrees(t, heap, m) && KeyFits(row, t.cols)
    requires r !in heap && KeyRank(t, row) !in m
    ensures HeapFits(t, heap[r := row]) && IndexAgrees(t, heap[r := row], m[KeyRank(t, row) := r])
  {
    hide KeyRank, Fits;
  }

  lemma AgreeRemove(t: Table, heap: Heap, m: map<int, Rid>, r: Rid)
    requires TableOk(t) && HeapFits(t, heap) && IndexAgrees(t, heap, m) && r in heap
    ensures HeapFits(t, heap - {r}) && IndexAgrees(t, heap - {r}, m - {KeyRank(t, heap[r])})
  {
    hide KeyRank, Fits;
  }

  lemma AgreeSameKey(t: Table, heap: Heap, m: map<int, Rid>, r: Rid, row: Row)
    requires TableOk(t) && HeapFits(t, heap) && IndexAgrees(t, heap, m) && r in heap && KeyFits(row, t.cols)
    requires KeyOf(t, row) == KeyOf(t, heap[r])
    ensures HeapFits(t, heap[r := row]) && IndexAgrees(t, heap[r := row], m)
  {
    hide Fits, Rank;
  }

  // -------------------------------------------------------------------------------------------
  // Values for columns

  datatype DmlError = InvalidValueCount | IncompatibleType | StringOverflow

  datatype Made<T> = Made(value: T) | Bad(error: DmlError)

  /** A literal as the bytes of a column: the types must match, and a short string is padded. */
  function ToColumn(v: Value, c: Column): (r: Made<Value>)
    requires v.IntValue? ==> INT_MIN <= v.i <= INT_MAX
    ensures r.Made? ==> Fits(r.value, c)
  {
    match c
    case IntColumn => if v.IntValue? then Made(v) else Bad(IncompatibleType)
    case StringColumn(len) =>
      if !v.StringValue? then Bad(IncompatibleType)
      else if len < |v.bytes| then Bad(StringOverflow)
      else Made(StringValue(v.bytes + ExtremeBytes(len - |v.bytes|, 0)))
  }

  predicate LiteralsOk(vs: seq<Value>) {
    forall i :: 0 <= i < |vs| && vs[i].IntValue? ==> INT_MIN <= vs[i].i <= INT_MAX
  }

  /** Values for all columns, or the error of the first one that has no place in its column. */
  ghost predicate RowIs(vs: seq<Value>, cols: seq<Column>, r: Made<Row>)
    requires LiteralsOk(vs) && |vs| == |cols|
  {
    match r
    case Made(row) => |row| == |cols| && forall i :: 0 <= i < |cols| ==> ToColumn(vs[i], cols[i]) == Made(row[i])
    case Bad(e) =>
      exists i :: 0 <= i < |cols| && ToColumn(vs[i], cols[i]) == Bad(e)
                  && forall j :: 0 <= j < i ==> ToColumn(vs[j], cols[j]).Made?
  }

  method MakeRow(vs: seq<Value>, cols: seq<Column>) returns (r: Made<Row>)
    requires LiteralsOk(vs) && |vs| == |cols|
    ensures RowIs(vs, cols, r) && (r.Made? ==> KeyFits(r.value, cols))
  {
    var row := [];
    for i := 0 to |cols|
      invariant |row| == i && forall j :: 0 <= j < i ==> ToColumn(vs[j], cols[j]) == Made(row[j])
    {
      var v := ToColumn(vs[i], cols[i]);
      if v.Bad? {
        return Bad(v.error);
      }
      row := row + [v.value];
    }
    r := Made(row);
  }

  // -------------------------------------------------------------------------------------------
  // SET clauses

  datatype SetClause =
    | SetValue(col: nat, value: Value)
    | SetArith(col: nat, rhsCol: nat, delta: int, negative: bool)

  /** The value has the column's type; arithmetic reads and writes integer columns. */
  predicate SetOk(c: SetClause, cols: seq<Column>) {
    c.col < |cols| &&
    match c
    case SetValue(_, v) => Fits(v, cols[c.col])
    case SetArith(_, k, d, _) => k < |cols| && cols[k].IntColumn? && cols[c.col].IntColumn? && INT_MIN <= d <= INT_MAX
  }

  predicate SetsOk(sets: seq<SetClause>, cols: seq<Column>) {
    forall i :: 0 <= i < |sets| ==> SetOk(sets[i], cols)
  }

  /** Two's-complement value of the low 32 bits. */
  function Wrap32(x: int): (r: int)
    ensures INT_MIN <= r <= INT_MAX && (r - x) % 0x1_0000_0000 == 0
  {
    (x - INT_MIN) % 0x1_0000_0000 + INT_MIN
  }

  /** The value a clause assigns, read off a row. */
  function SetResult(c: SetClause, row: Row, cols: seq<Column>): (v: Value)
    requires SetOk(c, cols) && KeyFits(row, cols)
    ensures Fits(v, cols[c.col])
  {
    match c
    case SetValue(_, v) => v
    case SetArith(_, k, d, negative) => IntValue(Wrap32(row[k].i + if negative then Wrap32(-d) else d))
  }

  /** Every column that clauses assign has the value its last clause gives on the old row; the
      other columns keep theirs. */
  ghost predicate AppliedTo(sets: seq<SetClause>, old': Row, new': Row, cols: seq<Column>)
    requires SetsOk(sets, cols) && KeyFits(old', cols)
  {
    && KeyFits(new', cols)
    && (forall c :: 0 <= c < |cols| && (forall i :: 0 <= i < |sets| ==> sets[i].col != c) ==> new'[c] == old'[c])
    && (forall i :: 0 <= i < |sets| && (forall j :: i < j < |sets| ==> sets[j].col != sets[i].col) ==>
          new'[sets[i].col] == SetResult(sets[i], old', cols))
  }

  function ApplySets(sets: seq<SetClause>, row: Row, cols: seq<Column>): (r: Row)
    requires SetsOk(sets, cols) && KeyFits(row, cols)
    ensures KeyFits(r, cols)
  {
    if sets == [] then row else
      var c := sets[|sets| - 1];
      ApplySets(sets[..|sets| - 1], row, cols)[c.col := SetResult(c, row, cols)]
  }

  lemma ApplySetsMeaning(sets: seq<SetClause>, row: Row, cols: seq<Column>)
    requires SetsOk(sets, cols) && KeyFits(row, cols)
    ensures AppliedTo(sets, row, ApplySets(sets, row, cols), cols)
  {
    hide Fits, SetResult, ApplySets;
    forall c | 0 <= c < |cols| && (forall i :: 0 <= i < |sets| ==> sets[i].col != c)
      ensures ApplySets(sets, row, cols)[c] == row[c]
    {
      AppliedFrom(sets, row, cols, 0, c);
      AppliedNone(row, cols);
    }
    forall i | 0 <= i < |sets| && (forall j :: i < j < |sets| ==> sets[j].col != sets[i].col)
      ensures ApplySets(sets, row, cols)[sets[i].col] == SetResult(sets[i], row, cols)
    {
      AppliedAt(sets, row, cols, i);
    }
  }

  lemma AppliedAt(sets: seq<SetClause>, row: Row, cols: seq<Column>, i: nat)
    requires SetsOk(sets, cols) && KeyFits(row, cols) && i < |sets| && forall j :: i < j < |sets| ==> sets[j].col != sets[i].col
    ensures ApplySets(sets, row, cols)[sets[i].col] == SetResult(sets[i], row, cols)
  {
    hide Fits, SetResult, ApplySets;
    AppliedFrom(sets, row, cols, i + 1, sets[i].col);
    assert sets[..i + 1][|sets[..i + 1]| - 1] == sets[i];
    AppliedLast(sets[..i + 1], row, cols);
  }

  /** Clauses from n on that do not assign a column leave it as the first n clauses made it. */
  lemma {:induction false} AppliedFrom(sets: seq<SetClause>, row: Row, cols: seq<Column>, n: nat, c: nat)
    requires SetsOk(sets, cols) && KeyFits(row, cols) && n <= |sets| && c < |cols|
    requires forall i :: n <= i < |sets| ==> sets[i].col != c
    ensures ApplySets(sets, row, cols)[c] == ApplySets(sets[..n], row, cols)[c]
  {
    hide Fits, SetResult;
    if n < |sets| {
      var front := sets[..|sets| - 1];
      assert front[..n] == sets[..n];
      AppliedFrom(front, row, cols, n, c);
    } else {
      assert sets[..n] == sets;
    }
  }

  lemma AppliedNone(row: Row, cols: seq<Column>)
    requires KeyFits(row, cols)
    ensures ApplySets([], row, cols) == row
  {
  }

  lemma AppliedLast(sets: seq<SetClause>, row: Row, cols: seq<Column>)
    requires SetsOk(sets, cols) && KeyFits(row, cols) && sets != []
    ensures var c := sets[|sets| - 1];
            ApplySets(sets, row, cols)[c.col] == SetResult(c, row, cols)
  {
    hide Fits, SetResult;
  }

  /** AppliedTo leaves no choice for the new row. */
  lemma AppliedUnique(sets: seq<SetClause>, row: Row, a: Row, b: Row, cols: seq<Column>)
    requires SetsOk(sets, cols) && KeyFits(row, cols) && AppliedTo(sets, row, a, cols) && AppliedTo(sets, row, b, cols)
    ensures a == b
  {
    hide Fits, SetResult;
    forall c | 0 <= c < |cols| ensures a[c] == b[c] {
      if exists i :: 0 <= i < |sets| && sets[i].col == c {
        var i := LastOn(sets, c);
      }
    }
  }

  lemma LastOn(sets: seq<SetClause>, c: nat) returns (i: nat)
    requires exists i :: 0 <= i < |sets| && sets[i].col == c
    ensures i < |sets| && sets[i].col == c && forall j :: i < j < |sets| ==> sets[j].col != c
  {
    i := |sets| - 1;
    while sets[i].col != c
      invariant i < |sets| && forall j :: i < j < |sets| ==> sets[j].col != c
      decreases i
    {
      i := i - 1;
    }
  }

  /** The loop over the clauses; every clause reads the old row. */
  method ApplySetLoop(sets: seq<SetClause>, row: Row, cols: seq<Column>) returns (r: Row)
    requires SetsOk(sets, cols) && KeyFits(row, cols)
    ensures r == ApplySets(sets, row, cols) && AppliedTo(sets, row, r, cols)
  {
    hide Fits, SetResult, AppliedTo;
    r := row;
    for i := 0 to |sets|
      invariant r == ApplySets(sets[..i], row, cols)
    {
      assert sets[..i + 1][..i] == sets[..i];
      r := r[sets[i].col := SetResult(sets[i], row, cols)];
    }
    assert sets[..|sets|] == sets;
    ApplySetsMeaning(sets, row, cols);
  }

  /** Some clause assigns a column of the index. */
  predicate Touches(sets: seq<SetClause>, index: seq<nat>) {
    exists i, k :: 0 <= i < |index| && 0 <= k < |sets| && sets[k].col == index[i]
  }

  lemma UntouchedKey(t: Table, sets: seq<SetClause>, row: Row)
    requires TableOk(t) && SetsOk(sets, t.cols) && KeyFits(row, t.cols) && !Touches(sets, t.index)
    ensures KeyOf(t, ApplySets(sets, row, t.cols)) == KeyOf(t, row)
  {
    hide Fits, SetResult;
    ApplySetsMeaning(sets, row, t.cols);
    var new' := ApplySets(sets, row, t.cols);
    forall i | 0 <= i < |t.index| ensures new'[t.index[i]] == row[t.index[i]] {
      assert forall k :: 0 <= k < |sets| ==> sets[k].col != t.index[i];
    }
  }

  // -------------------------------------------------------------------------------------------
  // What the statements do to the records

  /** Rows put at rids, in order. */
  ghost function PlaceAll(heap: Heap, rows: seq<Row>, rids: seq<Rid>): Heap
    requires |rows| == |rids|
  {
    if rows == [] then heap else
      var n := |rows| - 1;
      PlaceAll(heap, rows[..n], rids[..n])[rids[n] := rows[n]]
  }

  /** One record of an UPDATE: rejected if the new row's key belongs to another record. */
  ghost function UpdateOne(s: Schema, sets: seq<SetClause>, heap: Heap, r: Rid): (h: Heap)
    requires SchemaOk(s) && SetsOk(sets, s.cols) && RowsFit(s, heap) && r in heap
    ensures RowsFit(s, h) && h.Keys == heap.Keys
  {
    var row := ApplySets(sets, heap[r], s.cols);
    if Clashes(s, heap, row, Some(r)) then heap else heap[r := row]
  }

  ghost function UpdateAll(s: Schema, sets: seq<SetClause>, heap: Heap, rids: seq<Rid>): (h: Heap)
    requires SchemaOk(s) && SetsOk(sets, s.cols) && RowsFit(s, heap) && forall r :: r in rids ==> r in heap
    ensures RowsFit(s, h) && h.Keys == heap.Keys
  {
    if rids == [] then heap else
      var n := |rids| - 1;
      UpdateOne(s, sets, UpdateAll(s, sets, heap, rids[..n]), rids[n])
  }

  lemma UpdateStep(s: Schema, sets: seq<SetClause>, heap: Heap, rids: seq<Rid>, n: nat)
    requires SchemaOk(s) && SetsOk(sets, s.cols) && RowsFit(s, heap) && (forall r :: r in rids ==> r in heap) && n < |rids|
    ensures rids[n] in heap
    ensures UpdateAll(s, sets, heap, rids[..n + 1]) == UpdateOne(s, sets, UpdateAll(s, sets, heap, rids[..n]), rids[n])
  {
    hide UpdateOne, SetsOk, RowsFit;
    assert rids[..n + 1][..n] == rids[..n];
  }

  lemma UpdateNone(s: Schema, sets: seq<SetClause>, heap: Heap)
    requires SchemaOk(s) && SetsOk(sets, s.cols) && RowsFit(s, heap)
    ensures UpdateAll(s, sets, heap, []) == heap
  {
  }

  // -------------------------------------------------------------------------------------------
  // Rids in order

  function InsertSorted(r: Rid, rs: seq<Rid>): seq<Rid> {
    if rs == [] || !RidBefore(rs[0], r) then [r] + rs else [rs[0]] + InsertSorted(r, rs[1..])
  }

  function SortRids(rs: seq<Rid>): seq<Rid> {
    if rs == [] then [] else InsertSorted(rs[0], SortRids(rs[1..]))
  }

  lemma {:induction false} InsertSortedMembers(r: Rid, rs: seq<Rid>)
    requires Ascending(rs) && r !in rs
    ensures Ascending(InsertSorted(r, rs)) && forall q :: q in InsertSorted(r, rs) <==> q == r || q in rs
  {
    if rs == [] || !RidBefore(rs[0], r) {
      assert forall q :: q in rs ==> RidBefore(r, q);
      AscendingCons(r, rs);
    } else {
      InsertSortedMembers(r, rs[1..]);
      AscendingCons(rs[0], InsertSorted(r, rs[1..]));
    }
  }

  /** Sorting distinct rids keeps the set and puts it in ascending order. */
  lemma {:induction false} SortRidsSorts(rs: seq<Rid>)
    requires NoDup(rs)
    ensures Ascending(SortRids(rs)) && forall q :: q in SortRids(rs) <==> q in rs
  {
    if rs != [] {
      SortRidsSorts(rs[1..]);
      InsertSortedMembers(rs[0], SortRids(rs[1..]));
    }
  }

  // -------------------------------------------------------------------------------------------
  // The table

  function All(n: nat): (s: seq<bool>)
    ensures |s| == n && forall i :: 0 <= i < n ==> s[i]
  {
    seq(n, i => true)
  }

  function Not(mark: seq<bool>): (s: seq<bool>)
    ensures |s| == |mark| && forall i :: 0 <= i < |s| ==> s[i] == !mark[i]
  {
    seq(|mark|, i requires 0 <= i < |mark| => !mark[i])
  }

  /** Some other record has the row's key in one of the indexes to look at. */
  ghost predicate SomeClash(s: Schema, heap: Heap, row: Row, self: Option<Rid>, look: seq<bool>)
    requires SchemaOk(s) && RowsFit(s, heap) && KeyFits(row, s.cols) && |look| == |s.indexes|
  {
    exists i :: 0 <= i < |look| && look[i] && ClashesIn(IndexTable(s, i), heap, row, self)
  }

  lemma ClashAll(s: Schema, heap: Heap, row: Row, self: Option<Rid>, look: seq<bool>)
    requires SchemaOk(s) && RowsFit(s, heap) && KeyFits(row, s.cols) && look == All(|s.indexes|)
    ensures SomeClash(s, heap, row, self, look) <==> Clashes(s, heap, row, self)
  {
    hide ClashesIn, Fits;
  }

  /** Row n of the flat list of values. */
  predicate InChunk(values: seq<Value>, w: nat, n: nat) {
    (n + 1) * w <= |values|
  }

  function Chunk(values: seq<Value>, w: nat, n: nat): (c: seq<Value>)
    requires InChunk(values, w, n)
    ensures |c| == w && (LiteralsOk(values) ==> LiteralsOk(c))
  {
    assert 0 <= n * w <= n * w + w <= |values|;
    values[n * w..n * w + w]
  }

  lemma ChunkOk(values: seq<Value>, w: nat, nrows: nat, n: nat)
    requires w > 0 && |values| % w == 0 && nrows == |values| / w && n < nrows
    ensures InChunk(values, w, n)
  {
    assert |values| == nrows * w;
    assert (n + 1) * w <= nrows * w;
  }

  /** Only indexes with an assigned column can clash: the others keep the record's own key. */
  lemma TouchedClash(s: Schema, sets: seq<SetClause>, heap: Heap, r: Rid, touched: seq<bool>)
    requires SchemaOk(s) && RowsFit(s, heap) && SetsOk(sets, s.cols) && r in heap && |touched| == |s.indexes|
    requires forall i :: 0 <= i < |touched| ==> touched[i] == Touches(sets, s.indexes[i])
    requires forall i :: 0 <= i < |touched| ==> Unique(IndexTable(s, i), heap)
    ensures var row := ApplySets(sets, heap[r], s.cols);
            SomeClash(s, heap, row, Some(r), touched) <==> Clashes(s, heap, row, Some(r))
  {
    hide Fits, ApplySets, Touches, ClashesIn;
    var row := ApplySets(sets, heap[r], s.cols);
    forall i | 0 <= i < |touched| && !touched[i] ensures !ClashesIn(IndexTable(s, i), heap, row, Some(r)) {
      UntouchedKey(IndexTable(s, i), sets, heap[r]);
      SameKeyNoClash(IndexTable(s, i), heap, row, r);
    }
  }

  lemma RecordFits(s: Schema, heap: Heap, r: Rid)
    requires RowsFit(s, heap) && r in heap
    ensures KeyFits(heap[r], s.cols)
  {
  }

  lemma SameKeyNoClash(t: Table, heap: Heap, row: Row, r: Rid)
    requires TableOk(t) && HeapFits(t, heap) && KeyFits(row, t.cols) && r in heap && Unique(t, heap)
    requires KeyOf(t, row) == KeyOf(t, heap[r])
    ensures !ClashesIn(t, heap, row, Some(r))
  {
    hide Fits;
  }

  lemma NoClashWithout(s: Schema, heap: Heap, r: Rid, row: Row, look: seq<bool>)
    requires SchemaOk(s) && RowsFit(s, heap) && KeyFits(row, s.cols) && |look| == |s.indexes|
    ensures !SomeClash(s, heap, row, Some(r), look) ==> !SomeClash(s, heap - {r}, row, None, look)
  {
    hide Fits;
  }

  lemma {:induction false} PlaceDomain(heap: Heap, rows: seq<Row>, rids: seq<Rid>)
    requires |rows| == |rids|
    ensures forall r :: r in PlaceAll(heap, rows, rids) <==> r in heap || r in rids
  {
    if rows != [] {
      var n := |rows| - 1;
      PlaceDomain(heap, rows[..n], rids[..n]);
      assert rids == rids[..n] + [rids[n]];
    }
  }

  lemma PlaceOne(heap: Heap, rows: seq<Row>, rids: seq<Rid>, row: Row, r: Rid)
    requires |rows| == |rids|
    ensures PlaceAll(heap, rows + [row], rids + [r]) == PlaceAll(heap, rows, rids)[r := row]
  {
    assert (rows + [row])[..|rows|] == rows && (rids + [r])[..|rows|] == rids;
  }

  lemma NonePlaced(heap: Heap, rows: seq<Row>, rids: seq<Rid>)
    requires |rows| == |rids|
    ensures rows == [] ==> PlaceAll(heap, rows, rids) == heap
  {
  }

  ghost function SetOf(rids: seq<Rid>): set<Rid> {
    set r | r in rids
  }

  lemma NextToDelete(heap: Heap, rs: seq<Rid>, n: nat)
    requires Ascending(rs) && n < |rs| && forall r :: r in rs ==> r in heap
    ensures rs[n] in heap - SetOf(rs[..n])
    ensures heap - SetOf(rs[..n + 1]) == heap - SetOf(rs[..n]) - {rs[n]}
  {
    assert rs[n] in rs && rs[n] !in rs[..n] && rs[..n + 1] == rs[..n] + [rs[n]];
  }


  datatype Outcome = Done | Failure | Error(error: DmlError)

  /** Row n of the values, which clashes with none of the records. */
  ghost predicate NextRow(s: Schema, values: seq<Value>, heap: Heap, n: nat, row: Row)
    requires SchemaOk(s) && LiteralsOk(values)
  {
    && InChunk(values, |s.cols|, n) && RowIs(Chunk(values, |s.cols|, n), s.cols, Made(row))
    && RowsFit(s, heap) && KeyFits(row, s.cols) && !Clashes(s, heap, row, None)
  }

  /** The rows inserted so far are the first of the values, none clashed when its turn came, and
      every one has a rid of its own that was unused. */
  ghost predicate InsertedPrefix(s: Schema, values: seq<Value>, heap: Heap, rows: seq<Row>, rids: seq<Rid>)
    requires SchemaOk(s) && LiteralsOk(values) && |rows| == |rids|
  {
    && (forall n :: 0 <= n < |rows| ==> NextRow(s, values, PlaceAll(heap, rows[..n], rids[..n]), n, rows[n]))
    && NoDup(rids) && (forall r :: r in rids ==> r !in heap)
  }

  lemma NothingPlaced(s: Schema, values: seq<Value>, heap: Heap)
    requires SchemaOk(s) && LiteralsOk(values)
    ensures InsertedPrefix(s, values, heap, [], []) && PlaceAll(heap, [], []) == heap
  {
    hide NextRow;
  }

  lemma AllDone(s: Schema, values: seq<Value>, heap: Heap, n: nat)
    requires SchemaOk(s) && LiteralsOk(values) && RowsFit(s, heap)
    requires |values| % |s.cols| == 0 && n == |values| / |s.cols|
    ensures StoppedAt(s, values, heap, n, Done)
  {
  }

  lemma ExtendPrefix(s: Schema, values: seq<Value>, heap: Heap, rows: seq<Row>, rids: seq<Rid>, row: Row, r: Rid)
    requires SchemaOk(s) && LiteralsOk(values) && |rows| == |rids| && InsertedPrefix(s, values, heap, rows, rids)
    requires NextRow(s, values, PlaceAll(heap, rows, rids), |rows|, row) && r !in PlaceAll(heap, rows, rids)
    ensures InsertedPrefix(s, values, heap, rows + [row], rids + [r])
    ensures PlaceAll(heap, rows + [row], rids + [r]) == PlaceAll(heap, rows, rids)[r := row]
  {
    hide NextRow, LiteralsOk, PlaceAll;
    PlaceOne(heap, rows, rids, row, r);
    PlaceDomain(heap, rows, rids);
    var rows', rids' := rows + [row], rids + [r];
    assert rows[..|rows|] == rows && rids[..|rows|] == rids;
    forall n | 0 <= n < |rows'| ensures NextRow(s, values, PlaceAll(heap, rows'[..n], rids'[..n]), n, rows'[n]) {
      assert rows'[..n] == rows[..n] && rids'[..n] == rids[..n];
    }
  }

  /** Why the statement ended after n rows. */
  ghost predicate StoppedAt(s: Schema, values: seq<Value>, heap: Heap, n: nat, out: Outcome)
    requires SchemaOk(s) && LiteralsOk(values) && RowsFit(s, heap)
  {
    var w := |s.cols|;
    match out
    case Done => n * w == |values|
    case Error(e) => InChunk(values, w, n) && RowIs(Chunk(values, w, n), s.cols, Bad(e))
    case Failure =>
      InChunk(values, w, n) &&
      exists row :: RowIs(Chunk(values, w, n), s.cols, Made(row)) && KeyFits(row, s.cols)
                    && Clashes(s, heap, row, None)
  }

  /** A caller could check this beforehand: the number of values is wrong, or the first row is
      refused against the records as they are. */
  ghost predicate RefusedAtOnce(s: Schema, values: seq<Value>, heap: Heap)
    requires SchemaOk(s) && LiteralsOk(values) && RowsFit(s, heap)
  {
    |values| % |s.cols| != 0 || exists out: Outcome :: !out.Done? && StoppedAt(s, values, heap, 0, out)
  }

  lemma RowIsUnique(vs: seq<Value>, cols: seq<Column>, row: Row, r: Made<Row>)
    requires LiteralsOk(vs) && |vs| == |cols| && RowIs(vs, cols, Made(row)) && RowIs(vs, cols, r)
    ensures r == Made(row)
  {
    hide ToColumn;
    if r.Made? {
      assert forall i :: 0 <= i < |cols| ==> Made(row[i]) == ToColumn(vs[i], cols[i]) == Made(r.value[i]);
      assert row == r.value;
    }
  }

  /** A row that can be inserted is not one that is refused. */
  lemma NextNotRefused(s: Schema, values: seq<Value>, heap: Heap, row: Row)
    requires SchemaOk(s) && LiteralsOk(values) && |values| % |s.cols| == 0 && NextRow(s, values, heap, 0, row)
    ensures !RefusedAtOnce(s, values, heap)
  {
    hide RowIs, Clashes, LiteralsOk, RowsFit, Fits, InChunk;
    var first := Chunk(values, |s.cols|, 0);
    forall r | RowIs(first, s.cols, r) ensures r == Made(row) {
      RowIsUnique(first, s.cols, row, r);
    }
  }

  /** An INSERT that fails leaves the records as they were exactly if it was refused at once;
      otherwise the rows before the failing one stay. */
  lemma FailedInsertKeeps(s: Schema, values: seq<Value>, heap: Heap, rows: seq<Row>, rids: seq<Rid>, out: Outcome)
    requires SchemaOk(s) && LiteralsOk(values) && RowsFit(s, heap) && |rows| == |rids| && !out.Done?
    requires |values| % |s.cols| == 0 && InsertedPrefix(s, values, heap, rows, rids)
    requires RowsFit(s, PlaceAll(heap, rows, rids)) && StoppedAt(s, values, PlaceAll(heap, rows, rids), |rows|, out)
    ensures PlaceAll(heap, rows, rids) == heap <==> RefusedAtOnce(s, values, heap)
  {
    hide StoppedAt, NextRow, RowsFit, LiteralsOk;
    NonePlaced(heap, rows[..0], rids[..0]);
    if rows != [] {
      NextNotRefused(s, values, heap, rows[0]);
      PlaceDomain(heap, rows, rids);
      assert rids[0] in PlaceAll(heap, rows, rids);
    }
  }

  class Store {
    const schema: Schema
    const file: File
    const ihs: seq<Handle>

    /** Index i maps the keys of the given records. */
    ghost predicate IndexOk(i: nat, heap: Heap)
      requires SchemaOk(schema) && |ihs| == |schema.indexes| && i < |ihs| && RowsFit(schema, heap)
      reads ihs[i]
    {
      ihs[i].Valid() && IndexAgrees(IndexTable(schema, i), heap, ihs[i].Contents())
    }

    ghost predicate Formed() {
      SchemaOk(schema) && |ihs| == |schema.indexes| && NoDup(ihs)
    }

    /** The marked indexes map the keys of the given records. */
    ghost predicate MarkedOk(mark: seq<bool>, heap: Heap)
      reads ihs
    {
      && Formed() && RowsFit(schema, heap) && |mark| == |ihs|
      && forall i :: 0 <= i < |ihs| && mark[i] ==> IndexOk(i, heap)
    }

    ghost predicate Valid()
      reads this, file, ihs
    {
      Formed() && file.Valid() && MarkedOk(All(|ihs|), file.Live())
    }

    lemma Facts()
      requires Valid()
      ensures Formed() && file.Valid() && RowsFit(schema, file.Live())
    {
    }

    /** A table of no records with a new file and new indexes. */
    constructor (schema: Schema, file: File, ihs: seq<Handle>)
      requires SchemaOk(schema) && |ihs| == |schema.indexes| && NoDup(ihs)
      requires file.Valid() && file.Live() == map[]
      requires forall i :: 0 <= i < |ihs| ==> ihs[i].Valid() && ihs[i].Contents() == map[]
      ensures Valid() && this.schema == schema && this.file == file && this.ihs == ihs
    {
      hide Shape, Listed, ToMap, PagesOk, Records, KeyRid, IndexAgrees, KeyRank, Fits;
      this.schema, this.file, this.ihs := schema, file, ihs;
      new;
      forall i | 0 <= i < |ihs| ensures IndexOk(i, map[]) {
        AgreeNone(IndexTable(schema, i));
      }
    }

    function KeyIn(i: nat, row: Row): int
      requires Formed() && i < |ihs| && KeyFits(row, schema.cols)
    {
      KeyRank(IndexTable(schema, i), row)
    }

    /** Whether another record has the row's key in index i. */
    method FindClash(i: nat, row: Row, self: Option<Rid>, ghost heap: Heap) returns (clash: bool)
      requires Formed() && i < |ihs| && KeyFits(row, schema.cols) && RowsFit(schema, heap) && IndexOk(i, heap)
      modifies ihs[i]
      ensures IndexOk(i, heap)
      ensures clash <==> ClashesIn(IndexTable(schema, i), heap, row, self)
    {
      hide Shape, Listed, ToMap, KeyRank, ClashesIn, IndexAgrees, Fits;
      var found, rid := ihs[i].GetValue(KeyIn(i, row));
      AgreeClash(IndexTable(schema, i), heap, ihs[i].Contents(), row, self);
      clash := found && self != Some(rid);
    }

    method AddKey(i: nat, row: Row, r: Rid, ghost heap: Heap)
      requires Formed() && i < |ihs| && KeyFits(row, schema.cols) && RowsFit(schema, heap) && IndexOk(i, heap)
      requires r !in heap && !ClashesIn(IndexTable(schema, i), heap, row, None)
      modifies ihs[i]
      ensures IndexOk(i, heap[r := row])
    {
      hide Shape, Listed, ToMap, KeyRank, ClashesIn, IndexAgrees, Fits;
      AgreeClash(IndexTable(schema, i), heap, ihs[i].Contents(), row, None);
      AgreeInsert(IndexTable(schema, i), heap, ihs[i].Contents(), r, row);
      var leaf := ihs[i].InsertEntry(KeyIn(i, row), r);
    }

    method DropKey(i: nat, row: Row, r: Rid, ghost heap: Heap)
      requires Formed() && i < |ihs| && RowsFit(schema, heap) && IndexOk(i, heap)
      requires r in heap && row == heap[r]
      modifies ihs[i]
      ensures IndexOk(i, heap - {r})
    {
      hide Shape, Listed, ToMap, KeyRank, IndexAgrees, Fits;
      AgreeRemove(IndexTable(schema, i), heap, ihs[i].Contents(), r);
      var deleted := ihs[i].DeleteEntry(KeyIn(i, row));
    }

    // -----------------------------------------------------------------------------------------
    // INSERT

    /** Whether another record has the row's key in one of the indexes to look at. */
    method FindAnyClash(row: Row, self: Option<Rid>, look: seq<bool>, ghost heap: Heap) returns (clash: bool)
      requires MarkedOk(All(|ihs|), heap) && KeyFits(row, schema.cols) && |look| == |ihs|
      modifies ihs
      ensures MarkedOk(All(|ihs|), heap)
      ensures clash <==> SomeClash(schema, heap, row, self, look)
    {
      hide IndexOk, ClashesIn, Fits;
      for i := 0 to |ihs|
        invariant forall j :: 0 <= j < |ihs| ==> IndexOk(j, heap)
        invariant forall j :: 0 <= j < i && look[j] ==> !ClashesIn(IndexTable(schema, j), heap, row, self)
      {
        if look[i] {
          clash := FindClash(i, row, self, heap);
          if clash {
            return;
          }
        }
      }
      clash := false;
    }

    /** Enters a record into the marked indexes; the others stay as they are. */
    method AddKeys(row: Row, r: Rid, mark: seq<bool>, ghost heap: Heap, ghost other: Heap)
      requires MarkedOk(mark, heap) && MarkedOk(Not(mark), other) && KeyFits(row, schema.cols) && r !in heap
      requires !SomeClash(schema, heap, row, None, mark)
      modifies ihs
      ensures MarkedOk(mark, heap[r := row]) && MarkedOk(Not(mark), other)
    {
      hide IndexOk, ClashesIn, Fits;
      ghost var heap' := heap[r := row];
      for i := 0 to |ihs|
        invariant forall j :: 0 <= j < i && mark[j] ==> IndexOk(j, heap')
        invariant forall j :: i <= j < |ihs| && mark[j] ==> IndexOk(j, heap)
        invariant forall j :: 0 <= j < |ihs| && !mark[j] ==> IndexOk(j, other)
      {
        if mark[i] {
          AddKey(i, row, r, heap);
        }
      }
    }

    /** Removes a record from the marked indexes; the others stay as they are. */
    method DropKeys(row: Row, r: Rid, mark: seq<bool>, ghost heap: Heap, ghost other: Heap)
      requires MarkedOk(mark, heap) && MarkedOk(Not(mark), other) && r in heap && row == heap[r]
      modifies ihs
      ensures MarkedOk(mark, heap - {r}) && MarkedOk(Not(mark), other)
    {
      hide IndexOk, Fits;
      ghost var heap' := heap - {r};
      for i := 0 to |ihs|
        invariant forall j :: 0 <= j < i && mark[j] ==> IndexOk(j, heap')
        invariant forall j :: i <= j < |ihs| && mark[j] ==> IndexOk(j, heap)
        invariant forall j :: 0 <= j < |ihs| && !mark[j] ==> IndexOk(j, other)
      {
        if mark[i] {
          DropKey(i, row, r, heap);
        }
      }
    }

    lemma MarkedSplit(mark: seq<bool>, heap: Heap)
      requires Formed() && |mark| == |ihs|
      ensures MarkedOk(All(|ihs|), heap) <==> MarkedOk(mark, heap) && MarkedOk(Not(mark), heap)
    {
      hide IndexOk, RowsFit;
    }

    lemma NoneMarked(heap: Heap)
      requires Formed() && RowsFit(schema, heap)
      ensures MarkedOk(Not(All(|ihs|)), heap)
    {
    }

    /** One row of an INSERT: refused if its key is taken in some index. */
    method InsertRow(row: Row) returns (ok: bool, r: Rid)
      requires Valid() && KeyFits(row, schema.cols)
      modifies file, ihs
      ensures Valid()
      ensures RowsFit(schema, old(file.Live())) && (ok <==> !Clashes(schema, old(file.Live()), row, None))
      ensures if ok then r !in old(file.Live()) && file.Live() == old(file.Live())[r := row]
              else file.Live() == old(file.Live())
    {
      hide MarkedOk, SomeClash, Clashes, Fits, RowsFit;
      Facts();
      ghost var heap := file.Live();
      var all := All(|ihs|);
      ClashAll(schema, heap, row, None, all);
      var clash := FindAnyClash(row, None, all, heap);
      assert file.Valid() && file.Live() == heap;
      if clash {
        return false, Rid(-1, -1);
      }
      ok := true;
      NoneMarked(heap);
      r := file.InsertRecord(row);
      assert MarkedOk(all, heap) && MarkedOk(Not(all), heap);
      AddKeys(row, r, all, heap, heap);
      assert file.Valid() && file.Live() == heap[r := row];
    }

    /** An INSERT of any number of rows, given flat; the first bad row ends the statement. */
    method Insert(values: seq<Value>) returns (out: Outcome, ghost rows: seq<Row>, ghost rids: seq<Rid>)
      requires Valid() && LiteralsOk(values)
      modifies file, ihs
      ensures Valid() && RowsFit(schema, old(file.Live())) && RowsFit(schema, file.Live())
      ensures |rows| == |rids| && file.Live() == PlaceAll(old(file.Live()), rows, rids)
      ensures |values| % |schema.cols| != 0 ==> out == Error(InvalidValueCount) && rows == []
      ensures |values| % |schema.cols| == 0 ==>
                InsertedPrefix(schema, values, old(file.Live()), rows, rids) && StoppedAt(schema, values, file.Live(), |rows|, out)
      ensures !out.Done? ==> (file.Live() == old(file.Live()) <==> RefusedAtOnce(schema, values, old(file.Live())))
    {
      hide MarkedOk, Clashes, Fits, RowIs, LiteralsOk, PlaceAll, RowsFit, InsertedPrefix, StoppedAt, InChunk;
      rows, rids := [], [];
      Facts();
      ghost var heap := file.Live();
      NothingPlaced(schema, values, heap);
      if |values| % |schema.cols| != 0 {
        return Error(InvalidValueCount), rows, rids;
      }
      var nrows := |values| / |schema.cols|;
      for n := 0 to nrows
        invariant Valid() && |rows| == |rids| == n && file.Live() == PlaceAll(heap, rows, rids)
        invariant RowsFit(schema, heap) && InsertedPrefix(schema, values, heap, rows, rids)
      {
        ChunkOk(values, |schema.cols|, nrows, n);
        Facts();
        ghost var row, r;
        out, row, r := InsertChunk(values, n);
        Facts();
        if !out.Done? {
          FailedInsertKeeps(schema, values, heap, rows, rids, out);
          return;
        }
        ExtendPrefix(schema, values, heap, rows, rids, row, r);
        rows, rids := rows + [row], rids + [r];
      }
      Facts();
      out := Done;
      AllDone(schema, values, file.Live(), nrows);
    }

    /** Builds row n of the values and inserts it. */
    method InsertChunk(values: seq<Value>, n: nat) returns (out: Outcome, ghost row: Row, ghost r: Rid)
      requires Valid() && LiteralsOk(values) && InChunk(values, |schema.cols|, n)
      modifies file, ihs
      ensures Valid() && RowsFit(schema, file.Live()) && RowsFit(schema, old(file.Live()))
      ensures !out.Done? ==> file.Live() == old(file.Live()) && StoppedAt(schema, values, file.Live(), n, out)
      ensures out.Done? ==> file.Live() == old(file.Live())[r := row] && r !in old(file.Live())
                            && NextRow(schema, values, old(file.Live()), n, row)
    {
      hide MarkedOk, Clashes, Fits, RowIs, LiteralsOk, RowsFit, InChunk;
      Facts();
      row, r := [], Rid(-1, -1);
      var made := MakeRow(Chunk(values, |schema.cols|, n), schema.cols);
      if made.Bad? {
        return Error(made.error), row, r;
      }
      var ok, rid := InsertRow(made.value);
      Facts();
      if ok {
        return Done, made.value, rid;
      }
      out := Failure;
    }

    // -----------------------------------------------------------------------------------------
    // DELETE

    method DeleteRow(r: Rid)
      requires Valid() && r in file.Live()
      modifies file, ihs
      ensures Valid() && file.Live() == old(file.Live()) - {r}
    {
      hide MarkedOk, Fits, RowsFit, PagesOk, Records, KeyRid, ValidRid, IsLive;
      Facts();
      ghost var heap := file.Live();
      NoneMarked(heap);
      var row := file.ReadSlot(r);
      DropKeys(row, r, All(|ihs|), heap, heap);
      assert file.Valid() && file.Live() == heap;
      file.Free(r);
      assert file.Live() == heap - {r};
    }

    /** Deletes records, in rid order. */
    method Delete(rids: seq<Rid>)
      requires Valid() && NoDup(rids) && forall r :: r in rids ==> r in file.Live()
      modifies file, ihs
      ensures Valid() && file.Live() == old(file.Live()) - SetOf(rids)
    {
      hide Valid, SortRids, Ascending;
      ghost var heap := file.Live();
      SortRidsSorts(rids);
      var ordered := SortRids(rids);
      for n := 0 to |ordered|
        invariant Valid() && file.Live() == heap - SetOf(ordered[..n])
      {
        NextToDelete(heap, ordered, n);
        DeleteRow(ordered[n]);
      }
      assert ordered[..|ordered|] == ordered && SetOf(ordered) == SetOf(rids);
    }

    // -----------------------------------------------------------------------------------------
    // UPDATE

    function Touched(sets: seq<SetClause>): (s: seq<bool>)
      ensures |s| == |schema.indexes| && forall i :: 0 <= i < |s| ==> s[i] == Touches(sets, schema.indexes[i])
    {
      seq(|schema.indexes|, i requires 0 <= i < |schema.indexes| => Touches(sets, schema.indexes[i]))
    }

    /** One record: refused if its new key in an index with an assigned column is another's. */
    method UpdateRow(sets: seq<SetClause>, r: Rid)
      requires Valid() && SetsOk(sets, schema.cols) && r in file.Live()
      modifies file, ihs
      ensures RowsFit(schema, old(file.Live()))
      ensures Valid() && file.Live() == UpdateOne(schema, sets, old(file.Live()), r)
    {
      hide MarkedOk, Fits, Clashes, SomeClash, AppliedTo, ApplySets, Touches, RowsFit;
      Facts();
      ghost var heap := file.Live();
      RecordsUnique(heap);
      RecordFits(schema, heap, r);
      var row := file.ReadSlot(r);
      var new' := ApplySetLoop(sets, row, schema.cols);
      var touched := Touched(sets);
      TouchedClash(schema, sets, heap, r, touched);
      NoClashWithout(schema, heap, r, new', touched);
      var clash := FindAnyClash(new', Some(r), touched, heap);
      assert file.Valid() && file.Live() == heap;
      if clash {
        return;
      }
      MoveRecord(sets, r, row, new', touched, heap);
    }

    /** Takes the old keys out of the touched indexes, writes the record, puts the new keys in. */
    method MoveRecord(sets: seq<SetClause>, r: Rid, row: Row, new': Row, touched: seq<bool>, ghost heap: Heap)
      requires Valid() && file.Live() == heap && r in heap && row == heap[r]
      requires SetsOk(sets, schema.cols) && new' == ApplySets(sets, row, schema.cols) && touched == Touched(sets)
      requires !SomeClash(schema, heap - {r}, new', None, touched)
      modifies file, ihs
      ensures Valid() && file.Live() == heap[r := new']
    {
      hide MarkedOk, Fits, SomeClash, ApplySets, Touches, RowsFit, PagesOk, Records, KeyRid, ValidRid, IsLive, SetOk;
      Facts();
      MarkedSplit(touched, heap);
      DropKeys(row, r, touched, heap, heap);
      assert file.Valid() && file.Live() == heap;
      file.WriteSlot(r, new');
      ghost var without := heap - {r};
      assert without[r := new'] == heap[r := new'];
      AddKeys(new', r, touched, without, heap);
      assert file.Valid() && file.Live() == heap[r := new'];
      UntouchedIndexes(sets, heap, r, touched);
      MarkedSplit(touched, heap[r := new']);
    }

    lemma RecordsUnique(heap: Heap)
      requires MarkedOk(All(|ihs|), heap)
      ensures forall i :: 0 <= i < |ihs| ==> Unique(IndexTable(schema, i), heap)
    {
      hide Shape, Listed, IndexAgrees, Unique, ToMap;
      forall i | 0 <= i < |ihs| ensures Unique(IndexTable(schema, i), heap) {
        assert IndexOk(i, heap);
        AgreeUnique(IndexTable(schema, i), heap, ihs[i].Contents());
      }
    }

    lemma UntouchedIndexes(sets: seq<SetClause>, heap: Heap, r: Rid, touched: seq<bool>)
      requires Formed() && RowsFit(schema, heap) && SetsOk(sets, schema.cols) && r in heap && touched == Touched(sets)
      requires MarkedOk(Not(touched), heap)
      ensures MarkedOk(Not(touched), heap[r := ApplySets(sets, heap[r], schema.cols)])
    {
      hide Shape, Listed, IndexAgrees, ToMap, ApplySets, Touches;
      forall j | 0 <= j < |ihs| && !touched[j] ensures IndexOk(j, heap[r := ApplySets(sets, heap[r], schema.cols)]) {
        assert IndexOk(j, heap);
        UntouchedKey(IndexTable(schema, j), sets, heap[r]);
        AgreeSameKey(IndexTable(schema, j), heap, ihs[j].Contents(), r, ApplySets(sets, heap[r], schema.cols));
      }
    }

    /** Updates records one after the other, in rid order. */
    method Update(sets: seq<SetClause>, rids: seq<Rid>)
      requires Valid() && SetsOk(sets, schema.cols) && NoDup(rids) && forall r :: r in rids ==> r in file.Live()
      modifies file, ihs
      ensures Valid() && RowsFit(schema, old(file.Live())) && forall r :: r in SortRids(rids) ==> r in old(file.Live())
      ensures file.Live() == UpdateAll(schema, sets, old(file.Live()), SortRids(rids))
    {
      hide MarkedOk, Fits, UpdateOne, UpdateAll, SortRids, SetOk;
      ghost var heap := file.Live();
      SortRidsSorts(rids);
      var ordered := SortRids(rids);
      Facts();
      UpdateNone(schema, sets, heap);
      for n := 0 to |ordered|
        invariant Valid() && file.Live() == UpdateAll(schema, sets, heap, ordered[..n])
      {
        assert ordered[n] in ordered;
        UpdateStep(schema, sets, heap, ordered, n);
        UpdateRow(sets, ordered[n]);
      }
      assert ordered[..|ordered|] == ordered;
    }

  }
}
