/**
  How EXPLAIN ANALYZE builds its plan tree: conditions on one table go to a filter over its scan,
  conditions over two tables to the join that brings the later one.
  */
module ExplainBuild {
  import opened Sequences
  import opened Options
  import opened IndexKeys
  import opened ScanBounds
  import opened JoinQuery
  import opened ExplainPlan

  /** A SELECT over the tables of the schemas, which are numbered in FROM order. */
  datatype Query = Query(conds: seq<Conjunct>, selectAll: bool, cols: seq<TabCol>)

  predicate QueryOk(s: Schemas, q: Query) {
    |s| > 0 && ConjunctsOk(s, q.conds)
  }

  /** The conditions attached to the nodes of a tree. */
  function CondsOf(n: Node): seq<Conjunct> {
    match n
    case ScanNode(_, _) => []
    case FilterNode(_, conds, c) => CondsOf(c) + conds
    case ProjectNode(_, _, c) => CondsOf(c)
    case JoinNode(_, conds, l, r) => CondsOf(l) + CondsOf(r) + conds
  }

  function Iota(n: nat): (r: seq<nat>)
    ensures |r| == n && forall i :: 0 <= i < n ==> r[i] == i
  {
    seq(n, i requires 0 <= i < n => i)
  }

  // -------------------------------------------------------------------------------------------
  // Looking columns up by table

  lemma {:induction false} PlaceAt(tables: seq<nat>, p: nat)
    requires p < |tables| && NoDup(tables)
    ensures FindTable(tables, tables[p]) == Some(p)
  {
    if p > 0 {
      PlaceAt(tables[1..], p - 1);
    }
  }

  lemma EvalOnAll(s: Schemas, conds: seq<Conjunct>, n: nat, e: Joined)
    requires ConjunctsOk(s, conds) && |e| == n <= |s|
    ensures RowOk(s, Iota(n), e) <==> JoinedOk(s, e)
    ensures JoinedOk(s, e) ==> EvalInAll(s, Iota(n), conds, e) == EvalAll(s, conds, e)
  {
    hide CompareColumn, OpHolds, Fits, Iota;
    if JoinedOk(s, e) {
      forall c: Conjunct | ConjunctOk(s, c) ensures EvalIn(s, Iota(n), c, e) == Eval(s, c, e) {
        if c.lhs.tab < n {
          PlaceAt(Iota(n), c.lhs.tab);
        }
        if c.rhs.Col? && c.rhs.c.tab < n {
          PlaceAt(Iota(n), c.rhs.c.tab);
        }
      }
    }
  }

  lemma EvalOnOne(s: Schemas, conds: seq<Conjunct>, t: nat, row: Row)
    requires ConjunctsOk(s, conds) && t < |s| && KeyFits(row, s[t]) && forall i :: 0 <= i < |conds| ==> OnlyOn(conds[i], t)
    ensures RowOk(s, [t], [row]) && EvalInAll(s, [t], conds, [row]) == EvalRowAll(s, conds, t, row)
  {
    hide CompareColumn, OpHolds, Fits;
    PlaceAt([t], 0);
    forall c: Conjunct | ConjunctOk(s, c) && OnlyOn(c, t) ensures EvalIn(s, [t], c, [row]) == EvalRow(s, c, t, row) {
    }
  }

  lemma ExtendNone(rows: seq<Row>)
    ensures forall i :: 0 <= i < |rows| ==> Extend([], rows)[i] == [rows[i]]
  {
    forall i | 0 <= i < |rows| ensures Extend([], rows)[i] == [rows[i]] {
      assert [] + [rows[i]] == [rows[i]];
    }
  }

  /** The filter over a scan keeps the rows that satisfy the table's own conditions. */
  lemma {:induction false} PickRows(s: Schemas, conds: seq<Conjunct>, t: nat, rows: seq<Row>)
    requires ConjunctsOk(s, conds) && TableRowsOk(s, t, rows) && forall i :: 0 <= i < |conds| ==> OnlyOn(conds[i], t)
    ensures RowsOk(s, [t], Extend([], rows))
    ensures Pick(s, [t], conds, Extend([], rows)) == Extend([], KeepRows(s, conds, t, rows))
  {
    hide EvalInAll, EvalRowAll, ConjunctsOk;
    if rows != [] {
      var rest := rows[1..];
      PickRows(s, conds, t, rest);
      EvalOnOne(s, conds, t, rows[0]);
      ExtendNone(rows);
      ExtendNone(rest);
      assert Extend([], rows) == [[rows[0]]] + Extend([], rest);
      PickConcat(s, [t], conds, [[rows[0]]], Extend([], rest));
      PickSingle(s, [t], conds, [rows[0]]);
      assert KeepRows(s, conds, t, rows) ==
             (if EvalRowAll(s, conds, t, rows[0]) then [rows[0]] else []) + KeepRows(s, conds, t, rest);
    }
  }

  lemma PickSingle(s: Schemas, tables: seq<nat>, conds: seq<Conjunct>, e: Joined)
    requires ConjunctsOk(s, conds) && RowOk(s, tables, e)
    ensures Pick(s, tables, conds, [e]) == if EvalInAll(s, tables, conds, e) then [e] else []
  {
    hide EvalInAll, ConjunctsOk;
    assert [e][..0] == [];
  }

  lemma {:induction false} ProductConcat(A: seq<Joined>, B: seq<Joined>, rows: seq<Row>)
    ensures Product(A + B, rows) == Product(A, rows) + Product(B, rows)
  {
    if A == [] {
      assert A + B == B;
    } else {
      assert (A + B)[1..] == A[1..] + B;
      ProductConcat(A[1..], B, rows);
    }
  }

  lemma {:induction false} PairsIsProduct(L: seq<Joined>, rows: seq<Row>)
    ensures Pairs(L, Extend([], rows)) == Product(L, rows)
  {
    if L != [] {
      var n := |L| - 1;
      PairsIsProduct(L[..n], rows);
      ProductConcat(L[..n], [L[n]], rows);
      assert L == L[..n] + [L[n]];
      ExtendNone(rows);
      assert Prefixed(L[n], Extend([], rows)) == Extend(L[n], rows);
      assert Product([L[n]], rows) == Extend(L[n], rows) by { assert [L[n]][1..] == []; }
    }
  }

  lemma {:induction false} PickIsKeep(s: Schemas, conds: seq<Conjunct>, n: nat, L: seq<Joined>)
    requires ConjunctsOk(s, conds) && AllJoined(s, L, n) && n <= |s|
    ensures RowsOk(s, Iota(n), L) && Pick(s, Iota(n), conds, L) == Keep(s, conds, L)
  {
    hide EvalInAll, EvalAll, ConjunctsOk, JoinedOk, RowOk;
    forall e | e in L ensures RowOk(s, Iota(n), e) {
      EvalOnAll(s, conds, n, e);
    }
    if L != [] {
      var k := |L| - 1;
      PickIsKeep(s, conds, n, L[..k]);
      EvalOnAll(s, conds, n, L[k]);
      assert L == L[..k] + [L[k]];
      KeepConcat(s, conds, L[..k], [L[k]]);
      assert Keep(s, conds, [L[k]]) == if EvalAll(s, conds, L[k]) then [L[k]] else [] by { assert [L[k]][1..] == []; }
    }
  }

  // -------------------------------------------------------------------------------------------
  // The builder

  /** What every subtree over table t alone promises. */
  ghost predicate IsBranch(s: Schemas, conds: seq<Conjunct>, t: nat, n: Node)
    requires ConjunctsOk(s, conds) && t < |s|
  {
    && NodeOk(s, n) && Tables(n) == [t] && Distinct(n) && ConjunctsOk(s, On(conds, t)) && CondsOf(n) == On(conds, t)
    && forall db :: TablesOk(s, db) ==> Out(s, db, n) == Extend([], KeepRows(s, On(conds, t), t, db[t]))
  }

  /** What the tree over the first k tables promises: the cross product, filtered by the conditions
      it can know, in nested-loop order, and each of those conditions on one node. */
  ghost predicate IsTree(s: Schemas, conds: seq<Conjunct>, k: nat, n: Node)
    requires ConjunctsOk(s, conds) && k <= |s|
  {
    && NodeOk(s, n) && Tables(n) == Iota(k) && Distinct(n) && multiset(CondsOf(n)) == multiset(Placed(conds, k))
    && forall db :: TablesOk(s, db) ==> Emits(s, db, conds, k, n)
  }

  ghost predicate Emits(s: Schemas, db: seq<seq<Row>>, conds: seq<Conjunct>, k: nat, n: Node)
    requires ConjunctsOk(s, conds) && NodeOk(s, n) && TablesOk(s, db) && k <= |s|
  {
    AllJoined(s, Cross(db, k), k) && Out(s, db, n) == KeepKnown(s, conds, Cross(db, k))
  }

  /** The conditions placed with the first k tables. */
  function Placed(conds: seq<Conjunct>, k: nat): seq<Conjunct> {
    if k == 0 then [] else Placed(conds, k - 1) + On(conds, k - 1) + At(conds, k - 1)
  }

  lemma {:induction false} OnCount(conds: seq<Conjunct>, t: nat, c: Conjunct)
    ensures multiset(On(conds, t))[c] == if OnlyOn(c, t) then multiset(conds)[c] else 0
  {
    hide OnlyOn;
    if conds != [] {
      var n := |conds| - 1;
      OnCount(conds[..n], t, c);
      assert conds == conds[..n] + [conds[n]];
      LastCount(conds[..n], conds[n], true, c);
      LastCount(On(conds[..n], t), conds[n], OnlyOn(conds[n], t), c);
    }
  }

  lemma {:induction false} AtCount(conds: seq<Conjunct>, t: nat, c: Conjunct)
    ensures multiset(At(conds, t))[c] == if JoinsAt(c, t) then multiset(conds)[c] else 0
  {
    hide JoinsAt;
    if conds != [] {
      var n := |conds| - 1;
      AtCount(conds[..n], t, c);
      assert conds == conds[..n] + [conds[n]];
      LastCount(conds[..n], conds[n], true, c);
      LastCount(At(conds[..n], t), conds[n], JoinsAt(conds[n], t), c);
    }
  }

  lemma LastCount(A: seq<Conjunct>, x: Conjunct, add: bool, c: Conjunct)
    ensures multiset(A + if add then [x] else [])[c] == multiset(A)[c] + if add && x == c then 1 else 0
  {
    assert A + [] == A;
  }

  lemma {:induction false} PlacedCount(conds: seq<Conjunct>, k: nat, c: Conjunct)
    ensures multiset(Placed(conds, k))[c] == if Covered(c, k) then multiset(conds)[c] else 0
  {
    hide On, At, OnlyOn, JoinsAt, Covered;
    CoverStep(c, k);
    if k > 0 {
      PlacedCount(conds, k - 1, c);
      OnCount(conds, k - 1, c);
      AtCount(conds, k - 1, c);
      var P, O, A := Placed(conds, k - 1), On(conds, k - 1), At(conds, k - 1);
      ThreeParts(P, O, A, c);
    }
  }

  lemma ThreeParts(P: seq<Conjunct>, O: seq<Conjunct>, A: seq<Conjunct>, c: Conjunct)
    ensures multiset(P + O + A)[c] == multiset(P)[c] + multiset(O)[c] + multiset(A)[c]
  {
  }

  /** The table whose turn it is decides where a condition goes. */
  lemma CoverStep(c: Conjunct, k: nat)
    ensures !Covered(c, 0)
    ensures k > 0 ==> (Covered(c, k) <==> Covered(c, k - 1) || OnlyOn(c, k - 1) || JoinsAt(c, k - 1))
    ensures k > 0 && Covered(c, k - 1) ==> !OnlyOn(c, k - 1) && !JoinsAt(c, k - 1)
    ensures k > 0 && OnlyOn(c, k - 1) ==> !JoinsAt(c, k - 1)
  {
  }

  /** Every condition is placed exactly once. */
  lemma AllPlaced(s: Schemas, conds: seq<Conjunct>)
    requires ConjunctsOk(s, conds)
    ensures multiset(Placed(conds, |s|)) == multiset(conds)
  {
    forall c ensures multiset(Placed(conds, |s|))[c] == multiset(conds)[c] {
      PlacedCount(conds, |s|, c);
      assert multiset(conds)[c] > 0 ==> c in conds;
    }
  }

  method CondsOn(conds: seq<Conjunct>, t: nat) returns (r: seq<Conjunct>)
    ensures r == On(conds, t)
  {
    r := [];
    for i := 0 to |conds|
      invariant r == On(conds[..i], t)
    {
      assert conds[..i + 1][..i] == conds[..i];
      if OnlyOn(conds[i], t) {
        r := r + [conds[i]];
      }
    }
    assert conds[..|conds|] == conds;
  }

  method CondsAt(conds: seq<Conjunct>, t: nat) returns (r: seq<Conjunct>)
    ensures r == At(conds, t)
  {
    r := [];
    for i := 0 to |conds|
      invariant r == At(conds[..i], t)
    {
      assert conds[..i + 1][..i] == conds[..i];
      if JoinsAt(conds[i], t) {
        r := r + [conds[i]];
      }
    }
    assert conds[..|conds|] == conds;
  }

  /** The nodes of a branch: a projection on the needed columns only for one of several tables and a
      column list, a filter only for a table with conditions, and the scan. */
  ghost predicate BranchForm(q: Query, t: nat, multi: bool, n: Node) {
    && (n.ProjectNode? <==> multi && !q.selectAll)
    && (n.ProjectNode? ==> NoDup(n.cols) && forall c :: c in n.cols <==> Needed(q, t, c))
    && var core := if n.ProjectNode? then n.child else n;
       if On(q.conds, t) == [] then core.ScanNode? && core.table == t
       else core.FilterNode? && core.conds == On(q.conds, t) && core.child.ScanNode? && core.child.table == t
  }

  /** A left-deep tree over the first k tables with one branch for each, in FROM order, and on every
      join the conditions whose later table it brings. */
  ghost predicate TreeForm(q: Query, k: nat, multi: bool, n: Node)
    decreases n
  {
    if k == 1 then BranchForm(q, 0, multi, n)
    else k > 1 && n.JoinNode? && n.conds == At(q.conds, k - 1) && TreeForm(q, k - 1, multi, n.left) && BranchForm(q, k - 1, multi, n.right)
  }

  /** Scan, then a filter if the table has conditions, then a projection if there are other tables. */
  method BuildBranch(s: Schemas, q: Query, t: nat, multi: bool, next: nat) returns (n: Node, next': nat)
    requires QueryOk(s, q) && t < |s|
    ensures IsBranch(s, q.conds, t, n) && BranchForm(q, t, multi, n)
    ensures next <= next' && forall id :: id in Ids(n) ==> next <= id < next'
  {
    hide KeepRows, Out, TableRowsOk, ConjunctOk, IsBranch, On, Needed;
    OnAtOk(s, q.conds, t);
    var scan := ScanNode(next, t);
    n, next' := scan, next + 1;
    var fconds := CondsOn(q.conds, t);
    if fconds != [] {
      n, next' := FilterNode(next', fconds, scan), next' + 1;
    }
    FilterOut(s, q.conds, t, next, n);
    if multi && !q.selectAll {
      var cols := NeededCols(q, t);
      ProjectOut(s, q.conds, t, next', cols, n);
      n, next' := ProjectNode(next', cols, n), next' + 1;
    }
  }

  /** The columns of a table that a condition over two tables or the output needs, each once. */
  method NeededCols(q: Query, t: nat) returns (cols: seq<TabCol>)
    ensures NoDup(cols) && forall c :: c in cols <==> Needed(q, t, c)
  {
    cols := [];
    for i := 0 to |q.conds|
      invariant NoDup(cols) && forall c :: c in cols <==> exists j :: 0 <= j < i && NeededBy(q.conds[j], t, c)
    {
      var k := q.conds[i];
      if k.rhs.Col? {
        if k.lhs.tab == t && k.rhs.c.tab != t {
          cols := AddCol(cols, k.lhs);
        }
        if k.rhs.c.tab == t && k.lhs.tab != t {
          cols := AddCol(cols, k.rhs.c);
        }
      }
    }
    ghost var joinCols := cols;
    for i := 0 to |q.cols|
      invariant NoDup(cols) && forall c :: c in cols <==> c in joinCols || (c.tab == t && c in q.cols[..i])
    {
      assert q.cols[..i + 1] == q.cols[..i] + [q.cols[i]];
      if q.cols[i].tab == t {
        cols := AddCol(cols, q.cols[i]);
      }
    }
  }

  function AddCol(cols: seq<TabCol>, c: TabCol): (r: seq<TabCol>)
    requires NoDup(cols)
    ensures NoDup(r) && forall x :: x in r <==> x == c || x in cols
  {
    if c in cols then cols else cols + [c]
  }

  predicate NeededBy(k: Conjunct, t: nat, c: TabCol) {
    k.rhs.Col? && c.tab == t && k.lhs.tab != k.rhs.c.tab && (c == k.lhs || c == k.rhs.c)
  }

  ghost predicate Needed(q: Query, t: nat, c: TabCol) {
    (exists j :: 0 <= j < |q.conds| && NeededBy(q.conds[j], t, c)) || (c.tab == t && c in q.cols)
  }

  lemma ScanFacts(s: Schemas, id: nat, t: nat)
    requires t < |s|
    ensures var n := ScanNode(id, t); NodeOk(s, n) && Distinct(n) && Ids(n) == {id} && Tables(n) == [t] && CondsOf(n) == []
  {
  }

  lemma FilterFacts(s: Schemas, id: nat, conds: seq<Conjunct>, c: Node)
    requires ConjunctsOk(s, conds) && NodeOk(s, c) && Distinct(c) && id !in Ids(c)
    ensures var n := FilterNode(id, conds, c);
            NodeOk(s, n) && Distinct(n) && Tables(n) == Tables(c) && CondsOf(n) == CondsOf(c) + conds
  {
  }

  lemma FilterOut(s: Schemas, conds: seq<Conjunct>, t: nat, next: nat, n: Node)
    requires ConjunctsOk(s, conds) && t < |s| && ConjunctsOk(s, On(conds, t))
    requires n == if On(conds, t) == [] then ScanNode(next, t) else FilterNode(next + 1, On(conds, t), ScanNode(next, t))
    ensures IsBranch(s, conds, t, n)
  {
    hide On, KeepRows, Extend, ConjunctsOk, Pick;
    ScanFacts(s, next, t);
    FilterFacts(s, next + 1, On(conds, t), ScanNode(next, t));
    forall db | TablesOk(s, db) ensures NodeOk(s, n) && Out(s, db, n) == Extend([], KeepRows(s, On(conds, t), t, db[t])) {
      assert TableRowsOk(s, t, db[t]);
      PickRows(s, On(conds, t), t, db[t]);
      if On(conds, t) == [] {
        KeepRowsAll(s, t, db[t]);
      }
    }
  }

  lemma {:induction false} KeepRowsAll(s: Schemas, t: nat, rows: seq<Row>)
    requires TableRowsOk(s, t, rows)
    ensures KeepRows(s, [], t, rows) == rows
  {
    if rows != [] {
      KeepRowsAll(s, t, rows[1..]);
    }
  }

  lemma ProjectOut(s: Schemas, conds: seq<Conjunct>, t: nat, id: nat, cols: seq<TabCol>, n: Node)
    requires ConjunctsOk(s, conds) && t < |s| && IsBranch(s, conds, t, n) && id !in Ids(n)
    ensures IsBranch(s, conds, t, ProjectNode(id, cols, n))
  {
    hide TablesOk, On, KeepRows, Extend, ConjunctsOk;
  }

  lemma TreeStart(s: Schemas, conds: seq<Conjunct>, n: Node)
    requires ConjunctsOk(s, conds) && |s| > 0 && IsBranch(s, conds, 0, n)
    ensures IsTree(s, conds, 1, n)
  {
    hide On, At, KeepRows, KeepKnown, Extend, ConjunctsOk, TableRowsOk, Out, Tables, NodeOk, Distinct, JoinedOk;
    assert Iota(1) == [0];
    assert |At(conds, 0)| > 0 ==> At(conds, 0)[0] in At(conds, 0) && JoinsAt(At(conds, 0)[0], 0);
    assert Placed(conds, 0) == [];
    assert Placed(conds, 1) == On(conds, 0);
    forall db | TablesOk(s, db) ensures Emits(s, db, conds, 1, n) {
      assert TableRowsOk(s, 0, db[0]);
      FirstTable(s, conds, db[0]);
      CrossOne(db);
    }
  }

  lemma CrossOne(db: seq<seq<Row>>)
    requires |db| > 0
    ensures Cross(db, 1) == Extend([], db[0])
  {
    var none: seq<Joined> := [[]];
    assert Cross(db, 0) == none && none[1..] == [];
    assert Product([], db[0]) == [];
  }

  lemma TreeStep(s: Schemas, conds: seq<Conjunct>, k: nat, id: nat, l: Node, r: Node)
    requires ConjunctsOk(s, conds) && 0 < k < |s| && IsTree(s, conds, k, l) && IsBranch(s, conds, k, r)
    requires Ids(l) !! Ids(r) && id !in Ids(l) + Ids(r)
    ensures IsTree(s, conds, k + 1, JoinNode(id, At(conds, k), l, r))
  {
    hide On, At, KeepRows, KeepKnown, Extend, ConjunctsOk, TableRowsOk, Out, JoinedOk, Pick, Pairs, Product, Keep, Iota, Emits;
    OnAtOk(s, conds, k);
    var n := JoinNode(id, At(conds, k), l, r);
    assert Iota(k + 1) == Iota(k) + [k];
    forall db | TablesOk(s, db) ensures Emits(s, db, conds, k + 1, n) {
      TreeStepOut(s, conds, k, n, db);
    }
  }

  lemma TreeStepOut(s: Schemas, conds: seq<Conjunct>, k: nat, n: Node, db: seq<seq<Row>>)
    requires ConjunctsOk(s, conds) && 0 < k < |s| && n.JoinNode? && NodeOk(s, n) && n.conds == At(conds, k)
    requires ConjunctsOk(s, On(conds, k)) && TablesOk(s, db) && Tables(n) == Iota(k + 1)
    requires Emits(s, db, conds, k, n.left)
    requires Out(s, db, n.right) == Extend([], KeepRows(s, On(conds, k), k, db[k]))
    ensures Emits(s, db, conds, k + 1, n)
  {
    hide On, At, KeepRows, KeepKnown, Extend, ConjunctsOk, TableRowsOk, Out, JoinedOk, Pick, Pairs, Product, Keep, Iota, Tables, Cross;
    assert TableRowsOk(s, k, db[k]);
    JoinParts(s, db, n);
    JoinStep(s, conds, k, Cross(db, k), db[k]);
    var kept := KeepRows(s, On(conds, k), k, db[k]);
    PairsIsProduct(Out(s, db, n.left), kept);
    PickIsKeep(s, At(conds, k), k + 1, Product(KeepKnown(s, conds, Cross(db, k)), kept));
    assert Cross(db, k + 1) == Product(Cross(db, k), db[k]) by { CrossNext(db, k); }
  }

  lemma CrossNext(db: seq<seq<Row>>, k: nat)
    requires k < |db|
    ensures Cross(db, k + 1) == Product(Cross(db, k), db[k])
  {
  }

  /** The left-deep join tree in FROM order. */
  method BuildTree(s: Schemas, q: Query) returns (n: Node, next: nat)
    requires QueryOk(s, q)
    ensures IsTree(s, q.conds, |s|, n) && TreeForm(q, |s|, |s| > 1, n) && forall id :: id in Ids(n) ==> id < next
  {
    hide IsTree, IsBranch, Ids, ConjunctOk, BranchForm;
    var multi := |s| > 1;
    n, next := BuildBranch(s, q, 0, multi, 0);
    TreeStart(s, q.conds, n);
    for k := 1 to |s|
      invariant IsTree(s, q.conds, k, n) && TreeForm(q, k, multi, n) && forall id :: id in Ids(n) ==> id < next
    {
      var right, next' := BuildBranch(s, q, k, multi, next);
      var jconds := CondsAt(q.conds, k);
      TreeStep(s, q.conds, k, next', n, right);
      JoinIds(next', jconds, n, right);
      n, next := JoinNode(next', jconds, n, right), next' + 1;
    }
  }

  lemma JoinIds(id: nat, conds: seq<Conjunct>, l: Node, r: Node)
    ensures Ids(JoinNode(id, conds, l, r)) == {id} + Ids(l) + Ids(r)
  {
  }

  /** The tree with the projection on top, and its execution: the rows are those of the filtered
      cross product in nested-loop order, every condition sits on one node, and every counter holds
      what the passes over its node emitted. */
  method Explain(s: Schemas, q: Query, db: seq<seq<Row>>) returns (root: Node, x: Execution, out: seq<Joined>)
    requires QueryOk(s, q) && TablesOk(s, db)
    ensures NodeOk(s, root) && Distinct(root) && multiset(CondsOf(root)) == multiset(q.conds)
    ensures root.ProjectNode? && root.cols == q.cols && TreeForm(q, |s|, |s| > 1, root.child)
    ensures fresh(x) && AllJoined(s, Cross(db, |s|), |s|) && out == Keep(s, q.conds, Cross(db, |s|))
    ensures forall id :: x.Count(id) == Added(s, db, root, id)
  {
    hide Out, Added, Emits, ConjunctOk, TableRowsOk, JoinedOk, Keep, KeepKnown, Cross, Placed, Tables, NodeOk, Distinct, Ids, CondsOf,
         TreeForm;
    var body, next := BuildTree(s, q);
    RootFacts(s, next, q.cols, body);
    root := ProjectNode(next, q.cols, body);
    AllPlaced(s, q.conds);
    assert Emits(s, db, q.conds, |s|, body);
    EmitsAll(s, db, q.conds, body);
    x := new Execution(s, db);
    out := x.Stream(root);
  }

  lemma RootFacts(s: Schemas, id: nat, cols: seq<TabCol>, n: Node)
    requires NodeOk(s, n) && Distinct(n) && forall i :: i in Ids(n) ==> i < id
    ensures var root := ProjectNode(id, cols, n);
            && NodeOk(s, root) && Distinct(root) && CondsOf(root) == CondsOf(n)
            && forall db :: TablesOk(s, db) ==> Out(s, db, root) == Out(s, db, n)
  {
    hide TablesOk;
  }

  lemma EmitsAll(s: Schemas, db: seq<seq<Row>>, conds: seq<Conjunct>, n: Node)
    requires ConjunctsOk(s, conds) && NodeOk(s, n) && TablesOk(s, db) && Emits(s, db, conds, |s|, n)
    ensures AllJoined(s, Cross(db, |s|), |s|) && Out(s, db, n) == Keep(s, conds, Cross(db, |s|))
  {
    hide Out, ConjunctsOk, Cross, KeepKnown, Keep, JoinedOk;
    KnownIsAll(s, conds, Cross(db, |s|));
  }
}
