/**
  EXPLAIN ANALYZE: the plan tree it builds for a query and the row counters its execution leaves
  on the nodes.  A node's rows are lists of table rows, one for each table of the node in order.
  */
module ExplainPlan {
  import opened Options
  import opened IndexKeys
  import opened ScanBounds
  import opened JoinQuery

  /** Every node has a number of its own, under which its counter is kept. */
  datatype Node =
    | ScanNode(id: nat, table: nat)
    | FilterNode(id: nat, conds: seq<Conjunct>, child: Node)
    | ProjectNode(id: nat, cols: seq<TabCol>, child: Node)
    | JoinNode(id: nat, conds: seq<Conjunct>, left: Node, right: Node)

  function Tables(n: Node): seq<nat> {
    match n
    case ScanNode(_, t) => [t]
    case FilterNode(_, _, c) => Tables(c)
    case ProjectNode(_, _, c) => Tables(c)
    case JoinNode(_, _, l, r) => Tables(l) + Tables(r)
  }

  predicate NodeOk(s: Schemas, n: Node) {
    match n
    case ScanNode(_, t) => t < |s|
    case FilterNode(_, conds, c) => ConjunctsOk(s, conds) && NodeOk(s, c)
    case ProjectNode(_, _, c) => NodeOk(s, c)
    case JoinNode(_, conds, l, r) => ConjunctsOk(s, conds) && NodeOk(s, l) && NodeOk(s, r)
  }

  /** The first place of a table in a node's list of tables. */
  function FindTable(tables: seq<nat>, t: nat): (r: Option<nat>)
    ensures r.Some? ==> r.value < |tables| && tables[r.value] == t
    ensures r.None? ==> t !in tables
  {
    if tables == [] then None
    else if tables[0] == t then Some(0)
    else match FindTable(tables[1..], t) case None => None case Some(p) => Some(p + 1)
  }

  predicate RowOk(s: Schemas, tables: seq<nat>, e: Joined) {
    |e| == |tables| && forall i :: 0 <= i < |e| ==> tables[i] < |s| && KeyFits(e[i], s[tables[i]])
  }

  /** A condition on a node's row: the columns are looked up by table; false if one is missing. */
  predicate EvalIn(s: Schemas, tables: seq<nat>, c: Conjunct, e: Joined)
    requires ConjunctOk(s, c) && RowOk(s, tables, e)
  {
    match FindTable(tables, c.lhs.tab)
    case None => false
    case Some(p) =>
      match c.rhs
      case Val(v) => OpHolds(c.op, CompareColumn(e[p][c.lhs.col], v, s[c.lhs.tab][c.lhs.col]))
      case Col(k) =>
        match FindTable(tables, k.tab)
        case None => false
        case Some(q) => OpHolds(c.op, CompareColumn(e[p][c.lhs.col], e[q][k.col], s[c.lhs.tab][c.lhs.col]))
  }

  predicate EvalInAll(s: Schemas, tables: seq<nat>, conds: seq<Conjunct>, e: Joined)
    requires ConjunctsOk(s, conds) && RowOk(s, tables, e)
  {
    forall i :: 0 <= i < |conds| ==> EvalIn(s, tables, conds[i], e)
  }

  ghost predicate RowsOk(s: Schemas, tables: seq<nat>, L: seq<Joined>) {
    forall e :: e in L ==> RowOk(s, tables, e)
  }

  function Pick(s: Schemas, tables: seq<nat>, conds: seq<Conjunct>, L: seq<Joined>): (r: seq<Joined>)
    requires ConjunctsOk(s, conds) && RowsOk(s, tables, L)
    ensures forall e :: e in r ==> e in L
  {
    if L == [] then [] else
      var n := |L| - 1;
      Pick(s, tables, conds, L[..n]) + if EvalInAll(s, tables, conds, L[n]) then [L[n]] else []
  }

  function Prefixed(e: Joined, R: seq<Joined>): (r: seq<Joined>)
    ensures |r| == |R| && forall i :: 0 <= i < |r| ==> r[i] == e + R[i]
  {
    seq(|R|, i requires 0 <= i < |R| => e + R[i])
  }

  function Pairs(L: seq<Joined>, R: seq<Joined>): seq<Joined> {
    if L == [] then [] else
      var n := |L| - 1;
      Pairs(L[..n], R) + Prefixed(L[n], R)
  }

  lemma {:induction false} PairsOk(s: Schemas, ta: seq<nat>, tb: seq<nat>, L: seq<Joined>, R: seq<Joined>)
    requires RowsOk(s, ta, L) && RowsOk(s, tb, R)
    ensures RowsOk(s, ta + tb, Pairs(L, R))
  {
    hide RowOk;
    if L != [] {
      var n := |L| - 1;
      PairsOk(s, ta, tb, L[..n], R);
      PrefixedOk(s, ta, tb, L[n], R);
    }
  }

  lemma PrefixedOk(s: Schemas, ta: seq<nat>, tb: seq<nat>, e: Joined, R: seq<Joined>)
    requires RowOk(s, ta, e) && RowsOk(s, tb, R)
    ensures RowsOk(s, ta + tb, Prefixed(e, R))
  {
    forall x | x in Prefixed(e, R) ensures RowOk(s, ta + tb, x) {
      var i :| 0 <= i < |R| && x == e + R[i];
      assert R[i] in R;
    }
  }

  /** The rows a node emits in one pass. */
  function Out(s: Schemas, db: seq<seq<Row>>, n: Node): (r: seq<Joined>)
    requires NodeOk(s, n) && TablesOk(s, db)
    ensures RowsOk(s, Tables(n), r)
  {
    match n
    case ScanNode(_, t) => Extend([], db[t])
    case FilterNode(_, conds, c) => Pick(s, Tables(c), conds, Out(s, db, c))
    case ProjectNode(_, _, c) => Out(s, db, c)
    case JoinNode(_, conds, l, r) =>
      PairsOk(s, Tables(l), Tables(r), Out(s, db, l), Out(s, db, r));
      Pick(s, Tables(n), conds, Pairs(Out(s, db, l), Out(s, db, r)))
  }

  /** What one pass over a node adds to the counter with the given number: the right child of a join
      is passed over once for every row of the left one. */
  function Added(s: Schemas, db: seq<seq<Row>>, n: Node, id: nat): nat
    requires NodeOk(s, n) && TablesOk(s, db)
  {
    (if n.id == id then |Out(s, db, n)| else 0) +
    match n
    case ScanNode(_, _) => 0
    case FilterNode(_, _, c) => Added(s, db, c, id)
    case ProjectNode(_, _, c) => Added(s, db, c, id)
    case JoinNode(_, _, l, r) => Added(s, db, l, id) + |Out(s, db, l)| * Added(s, db, r, id)
  }

  function Ids(n: Node): set<nat> {
    {n.id} + match n
             case ScanNode(_, _) => {}
             case FilterNode(_, _, c) => Ids(c)
             case ProjectNode(_, _, c) => Ids(c)
             case JoinNode(_, _, l, r) => Ids(l) + Ids(r)
  }

  predicate Distinct(n: Node) {
    match n
    case ScanNode(_, _) => true
    case FilterNode(id, _, c) => id !in Ids(c) && Distinct(c)
    case ProjectNode(id, _, c) => id !in Ids(c) && Distinct(c)
    case JoinNode(id, _, l, r) => id !in Ids(l) + Ids(r) && Ids(l) !! Ids(r) && Distinct(l) && Distinct(r)
  }

  // -------------------------------------------------------------------------------------------
  // Execution with counters

  class Execution {
    const s: Schemas
    const db: seq<seq<Row>>
    var rows: map<nat, nat>
    var cache: map<Node, seq<Row>>

    ghost predicate Valid()
      reads this
    {
      TablesOk(s, db) && forall n :: n in cache ==> n.ScanNode? && n.table < |db| && cache[n] == db[n.table]
    }

    function Count(id: nat): nat
      reads this
    {
      if id in rows then rows[id] else 0
    }

    constructor (s: Schemas, db: seq<seq<Row>>)
      requires TablesOk(s, db)
      ensures Valid() && this.s == s && this.db == db && forall id :: Count(id) == 0
    {
      this.s, this.db, rows, cache := s, db, map[], map[];
    }

    method Bump(id: nat)
      requires Valid()
      modifies this`rows
      ensures forall i :: Count(i) == old(Count(i)) + if i == id then 1 else 0
    {
      rows := rows[id := Count(id) + 1];
    }

    /** One pass over a node; what it emits, row by row, is collected in order. */
    method Stream(n: Node) returns (out: seq<Joined>)
      requires Valid() && NodeOk(s, n)
      modifies this
      ensures Valid() && out == Out(s, db, n)
      ensures forall id :: Count(id) == old(Count(id)) + Added(s, db, n, id)
      decreases n, 1
    {
      match n {
        case ScanNode(id, t) => out := StreamScan(n);
        case FilterNode(id, conds, c) =>
          var L := Stream(c);
          out := EmitPassing(id, Tables(c), conds, L);
        case ProjectNode(id, cols, c) =>
          var L := Stream(c);
          out := EmitAll(id, L);
        case JoinNode(id, conds, l, r) => out := StreamJoin(n);
      }
    }

    /** Reads the table once, then replays it from memory. */
    method StreamScan(n: Node) returns (out: seq<Joined>)
      requires Valid() && n.ScanNode? && n.table < |s|
      modifies this
      ensures Valid() && out == Extend([], db[n.table])
      ensures forall id :: Count(id) == old(Count(id)) + if id == n.id then |out| else 0
    {
      if n !in cache {
        cache := cache[n := db[n.table]];
      }
      var rs := cache[n];
      out := [];
      for i := 0 to |rs|
        invariant Valid() && out == Extend([], rs)[..i]
        invariant forall id :: Count(id) == old(Count(id)) + if id == n.id then i else 0
      {
        Bump(n.id);
        assert Extend([], rs)[i] == [rs[i]];
        out := out + [[rs[i]]];
      }
    }

    method EmitAll(id: nat, L: seq<Joined>) returns (out: seq<Joined>)
      requires Valid()
      modifies this
      ensures Valid() && out == L
      ensures forall i :: Count(i) == old(Count(i)) + if i == id then |L| else 0
    {
      out := [];
      for k := 0 to |L|
        invariant Valid() && out == L[..k]
        invariant forall i :: Count(i) == old(Count(i)) + if i == id then k else 0
      {
        Bump(id);
        out := out + [L[k]];
      }
    }

    /** Counts and emits the rows that pass all conditions. */
    method EmitPassing(id: nat, tables: seq<nat>, conds: seq<Conjunct>, L: seq<Joined>) returns (out: seq<Joined>)
      requires Valid() && ConjunctsOk(s, conds) && RowsOk(s, tables, L)
      modifies this
      ensures Valid() && out == Pick(s, tables, conds, L)
      ensures forall i :: Count(i) == old(Count(i)) + if i == id then |out| else 0
    {
      out := [];
      for k := 0 to |L|
        invariant Valid() && out == Pick(s, tables, conds, L[..k])
        invariant forall i :: Count(i) == old(Count(i)) + if i == id then |out| else 0
      {
        PickSnoc(s, tables, conds, L, k);
        var pass := Passes(s, tables, conds, L[k]);
        if pass {
          Bump(id);
          out := out + [L[k]];
        }
      }
      assert L[..|L|] == L;
    }

    /** The left child once; the right child again for every row of the left one. */
    method StreamJoin(n: Node) returns (out: seq<Joined>)
      requires Valid() && n.JoinNode? && NodeOk(s, n)
      modifies this
      ensures Valid() && out == Out(s, db, n)
      ensures forall id :: Count(id) == old(Count(id)) + Added(s, db, n, id)
      decreases n, 0
    {
      hide Pick, Pairs, Out, Added, RowOk, NodeOk, Tables, TablesOk;
      JoinParts(s, db, n);
      ghost var R := Out(s, db, n.right);
      var L := Stream(n.left);
      JoinStart(s, db, n);
      out := [];
      for k := 0 to |L|
        invariant Valid() && RowsOk(s, Tables(n), Pairs(L[..k], R)) && out == Pick(s, Tables(n), n.conds, Pairs(L[..k], R))
        invariant forall id :: Count(id) == old(Count(id)) + Added(s, db, n.left, id) + Times(k, Added(s, db, n.right, id))
                                            + if id == n.id then |out| else 0
      {
        var right := Stream(n.right);
        JoinNext(s, db, n, k);
        var part := EmitPassing(n.id, Tables(n), n.conds, Prefixed(L[k], right));
        out := out + part;
      }
      assert L[..|L|] == L;
    }
  }

  function Times(k: nat, x: nat): nat {
    if k == 0 then 0 else Times(k - 1, x) + x
  }

  lemma {:induction false} TimesIs(k: nat, x: nat)
    ensures Times(k, x) == k * x
  {
    if k > 0 {
      TimesIs(k - 1, x);
    }
  }

  lemma JoinParts(s: Schemas, db: seq<seq<Row>>, n: Node)
    requires n.JoinNode? && NodeOk(s, n) && TablesOk(s, db)
    ensures NodeOk(s, n.left) && NodeOk(s, n.right) && ConjunctsOk(s, n.conds)
    ensures var L, R := Out(s, db, n.left), Out(s, db, n.right);
            RowsOk(s, Tables(n), Pairs(L, R)) && Out(s, db, n) == Pick(s, Tables(n), n.conds, Pairs(L, R))
    ensures forall id :: Added(s, db, n, id) == (if id == n.id then |Out(s, db, n)| else 0) + Added(s, db, n.left, id)
                                                + Times(|Out(s, db, n.left)|, Added(s, db, n.right, id))
  {
    hide Pick, Pairs, RowOk, TablesOk, ConjunctsOk;
    PairsOk(s, Tables(n.left), Tables(n.right), Out(s, db, n.left), Out(s, db, n.right));
    forall id ensures Times(|Out(s, db, n.left)|, Added(s, db, n.right, id)) == |Out(s, db, n.left)| * Added(s, db, n.right, id) {
      TimesIs(|Out(s, db, n.left)|, Added(s, db, n.right, id));
    }
  }

  lemma JoinStart(s: Schemas, db: seq<seq<Row>>, n: Node)
    requires n.JoinNode? && NodeOk(s, n) && TablesOk(s, db)
    ensures ConjunctsOk(s, n.conds) && RowsOk(s, Tables(n), Pairs([], Out(s, db, n.right)))
    ensures Pick(s, Tables(n), n.conds, Pairs([], Out(s, db, n.right))) == []
  {
  }

  lemma JoinNext(s: Schemas, db: seq<seq<Row>>, n: Node, k: nat)
    requires n.JoinNode? && NodeOk(s, n) && TablesOk(s, db) && NodeOk(s, n.left) && k < |Out(s, db, n.left)|
    ensures ConjunctsOk(s, n.conds) && NodeOk(s, n.right)
    ensures var L, R := Out(s, db, n.left), Out(s, db, n.right);
            && RowsOk(s, Tables(n), Pairs(L[..k], R)) && RowsOk(s, Tables(n), Prefixed(L[k], R))
            && RowsOk(s, Tables(n), Pairs(L[..k + 1], R))
            && Pick(s, Tables(n), n.conds, Pairs(L[..k + 1], R))
               == Pick(s, Tables(n), n.conds, Pairs(L[..k], R)) + Pick(s, Tables(n), n.conds, Prefixed(L[k], R))
  {
    hide Pick, RowOk, TablesOk, ConjunctsOk, Out;
    var L, R := Out(s, db, n.left), Out(s, db, n.right);
    assert L[..k + 1][..k] == L[..k];
    PairsOk(s, Tables(n.left), Tables(n.right), L[..k], R);
    PrefixedOk(s, Tables(n.left), Tables(n.right), L[k], R);
    PickConcat(s, Tables(n), n.conds, Pairs(L[..k], R), Prefixed(L[k], R));
  }

  method Passes(s: Schemas, tables: seq<nat>, conds: seq<Conjunct>, e: Joined) returns (pass: bool)
    requires ConjunctsOk(s, conds) && RowOk(s, tables, e)
    ensures pass == EvalInAll(s, tables, conds, e)
  {
    hide EvalIn, RowOk;
    for i := 0 to |conds|
      invariant forall j :: 0 <= j < i ==> EvalIn(s, tables, conds[j], e)
    {
      if !EvalIn(s, tables, conds[i], e) {
        return false;
      }
    }
    pass := true;
  }

  lemma PickSnoc(s: Schemas, tables: seq<nat>, conds: seq<Conjunct>, L: seq<Joined>, k: nat)
    requires ConjunctsOk(s, conds) && RowsOk(s, tables, L) && k < |L|
    ensures RowOk(s, tables, L[k]) && RowsOk(s, tables, L[..k]) && RowsOk(s, tables, L[..k + 1])
    ensures Pick(s, tables, conds, L[..k + 1]) ==
            Pick(s, tables, conds, L[..k]) + if EvalInAll(s, tables, conds, L[k]) then [L[k]] else []
  {
    hide EvalInAll, RowOk;
    assert L[..k + 1][..k] == L[..k];
  }

  lemma {:induction false} PickConcat(s: Schemas, tables: seq<nat>, conds: seq<Conjunct>, A: seq<Joined>, B: seq<Joined>)
    requires ConjunctsOk(s, conds) && RowsOk(s, tables, A) && RowsOk(s, tables, B)
    ensures RowsOk(s, tables, A + B)
    ensures Pick(s, tables, conds, A + B) == Pick(s, tables, conds, A) + Pick(s, tables, conds, B)
  {
    hide EvalInAll, RowOk;
    if B == [] {
      assert A + B == A;
    } else {
      var n := |B| - 1;
      assert (A + B)[..|A + B| - 1] == A + B[..n];
      PickConcat(s, tables, conds, A, B[..n]);
    }
  }

  // -------------------------------------------------------------------------------------------
  // Reading the counters

  lemma {:induction false} AddedOutside(s: Schemas, db: seq<seq<Row>>, n: Node, id: nat)
    requires NodeOk(s, n) && TablesOk(s, db) && id !in Ids(n)
    ensures Added(s, db, n, id) == 0
  {
    hide Out, TablesOk, ConjunctsOk;
    match n
    case ScanNode(_, _) =>
    case FilterNode(_, _, c) => AddedOutside(s, db, c, id);
    case ProjectNode(_, _, c) => AddedOutside(s, db, c, id);
    case JoinNode(_, _, l, r) => AddedOutside(s, db, l, id); AddedOutside(s, db, r, id);
  }

  /** One pass over a node counts its own rows on its own counter. */
  lemma OwnCounter(s: Schemas, db: seq<seq<Row>>, n: Node)
    requires NodeOk(s, n) && TablesOk(s, db) && Distinct(n)
    ensures Added(s, db, n, n.id) == |Out(s, db, n)|
  {
    hide Out, TablesOk, ConjunctsOk;
    match n
    case ScanNode(_, _) =>
    case FilterNode(_, _, c) => AddedOutside(s, db, c, n.id);
    case ProjectNode(_, _, c) => AddedOutside(s, db, c, n.id);
    case JoinNode(_, _, l, r) => AddedOutside(s, db, l, n.id); AddedOutside(s, db, r, n.id);
  }

  /** Counters below a join: the left side counts one pass, the right side one for every left row. */
  lemma JoinCounters(s: Schemas, db: seq<seq<Row>>, n: Node, id: nat)
    requires n.JoinNode? && NodeOk(s, n) && TablesOk(s, db) && Distinct(n)
    ensures id in Ids(n.left) ==> Added(s, db, n, id) == Added(s, db, n.left, id)
    ensures id in Ids(n.right) ==> Added(s, db, n, id) == |Out(s, db, n.left)| * Added(s, db, n.right, id)
    ensures Added(s, db, n, n.left.id) == |Out(s, db, n.left)|
    ensures Added(s, db, n, n.right.id) == |Out(s, db, n.left)| * |Out(s, db, n.right)|
  {
    hide Out, TablesOk, ConjunctsOk;
    OwnCounter(s, db, n.left);
    OwnCounter(s, db, n.right);
    if id in Ids(n.left) {
      AddedOutside(s, db, n.right, id);
    }
    if id in Ids(n.right) {
      AddedOutside(s, db, n.left, id);
    }
    AddedOutside(s, db, n.right, n.left.id);
    AddedOutside(s, db, n.left, n.right.id);
  }
}
