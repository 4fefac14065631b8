/**
  Queries over several tables: conjunctive conditions on the columns of the FROM list, the cross
  product in nested-loop order, and its filtering.  A joined row is the list of the rows of the
  tables joined so far; a table is named by its place in the FROM list.
  */
module JoinQuery {
  import opened IndexKeys
  import opened ScanBounds

  datatype TabCol = TabCol(tab: nat, col: nat)

  datatype Operand = Val(v: Value) | Col(c: TabCol)

  datatype Conjunct = Conjunct(lhs: TabCol, op: CompOp, rhs: Operand)

  /** The columns of the tables. */
  type Schemas = seq<seq<Column>>

  type Joined = seq<Row>

  predicate ColOk(s: Schemas, c: TabCol) {
    c.tab < |s| && c.col < |s[c.tab]|
  }

  /** A conjunct compares a column with a constant of its type or with a column of the same type. */
  predicate ConjunctOk(s: Schemas, c: Conjunct) {
    ColOk(s, c.lhs) &&
    match c.rhs
    case Val(v) => Fits(v, s[c.lhs.tab][c.lhs.col])
    case Col(k) => ColOk(s, k) && s[k.tab][k.col] == s[c.lhs.tab][c.lhs.col]
  }

  predicate ConjunctsOk(s: Schemas, conds: seq<Conjunct>) {
    forall i :: 0 <= i < |conds| ==> ConjunctOk(s, conds[i])
  }

  predicate JoinedOk(s: Schemas, e: Joined) {
    |e| <= |s| && forall t :: 0 <= t < |e| ==> KeyFits(e[t], s[t])
  }

  predicate TableRowsOk(s: Schemas, t: nat, rows: seq<Row>) {
    t < |s| && forall i :: 0 <= i < |rows| ==> KeyFits(rows[i], s[t])
  }

  predicate TablesOk(s: Schemas, db: seq<seq<Row>>) {
    |db| == |s| && forall t :: 0 <= t < |s| ==> TableRowsOk(s, t, db[t])
  }

  /** The columns of a conjunct belong to the first n tables. */
  predicate Covered(c: Conjunct, n: nat) {
    c.lhs.tab < n && (c.rhs.Col? ==> c.rhs.c.tab < n)
  }

  /** A conjunct on a joined row; false if a column is not found in it. */
  predicate Eval(s: Schemas, c: Conjunct, e: Joined)
    requires ConjunctOk(s, c) && JoinedOk(s, e)
  {
    Covered(c, |e|) &&
    var lhs := e[c.lhs.tab][c.lhs.col];
    var rhs := match c.rhs case Val(v) => v case Col(k) => e[k.tab][k.col];
    OpHolds(c.op, CompareColumn(lhs, rhs, s[c.lhs.tab][c.lhs.col]))
  }

  predicate EvalAll(s: Schemas, conds: seq<Conjunct>, e: Joined)
    requires ConjunctsOk(s, conds) && JoinedOk(s, e)
  {
    forall i :: 0 <= i < |conds| ==> Eval(s, conds[i], e)
  }

  /** All columns of a conjunct belong to table t. */
  predicate OnlyOn(c: Conjunct, t: nat) {
    c.lhs.tab == t && (c.rhs.Col? ==> c.rhs.c.tab == t)
  }

  /** A conjunct on a row of the one table it is about. */
  predicate EvalRow(s: Schemas, c: Conjunct, t: nat, row: Row)
    requires ConjunctOk(s, c) && t < |s| && KeyFits(row, s[t]) && OnlyOn(c, t)
  {
    var rhs := match c.rhs case Val(v) => v case Col(k) => row[k.col];
    OpHolds(c.op, CompareColumn(row[c.lhs.col], rhs, s[t][c.lhs.col]))
  }

  predicate EvalRowAll(s: Schemas, conds: seq<Conjunct>, t: nat, row: Row)
    requires ConjunctsOk(s, conds) && t < |s| && KeyFits(row, s[t]) && forall i :: 0 <= i < |conds| ==> OnlyOn(conds[i], t)
  {
    forall i :: 0 <= i < |conds| ==> EvalRow(s, conds[i], t, row)
  }

  // -------------------------------------------------------------------------------------------
  // Products and filters

  ghost predicate AllJoined(s: Schemas, L: seq<Joined>, n: nat) {
    forall e :: e in L ==> |e| == n && JoinedOk(s, e)
  }

  /** A joined row with every row of a further table. */
  function Extend(e: Joined, rows: seq<Row>): (r: seq<Joined>)
    ensures |r| == |rows| && forall i :: 0 <= i < |r| ==> r[i] == e + [rows[i]]
  {
    seq(|rows|, i requires 0 <= i < |rows| => e + [rows[i]])
  }

  /** The nested loop: for each joined row, all rows of the further table. */
  function Product(L: seq<Joined>, rows: seq<Row>): seq<Joined> {
    if L == [] then [] else Extend(L[0], rows) + Product(L[1..], rows)
  }

  /** The cross product of the first n tables. */
  function Cross(db: seq<seq<Row>>, n: nat): seq<Joined>
    requires n <= |db|
  {
    if n == 0 then [[]] else Product(Cross(db, n - 1), db[n - 1])
  }

  function Keep(s: Schemas, conds: seq<Conjunct>, L: seq<Joined>): seq<Joined>
    requires ConjunctsOk(s, conds) && forall e :: e in L ==> JoinedOk(s, e)
  {
    if L == [] then [] else (if EvalAll(s, conds, L[0]) then [L[0]] else []) + Keep(s, conds, L[1..])
  }

  function KeepRows(s: Schemas, conds: seq<Conjunct>, t: nat, rows: seq<Row>): (r: seq<Row>)
    requires ConjunctsOk(s, conds) && TableRowsOk(s, t, rows) && forall i :: 0 <= i < |conds| ==> OnlyOn(conds[i], t)
    ensures TableRowsOk(s, t, r)
  {
    if rows == [] then [] else
      (if EvalRowAll(s, conds, t, rows[0]) then [rows[0]] else []) + KeepRows(s, conds, t, rows[1..])
  }

  /** The conjuncts whose columns are all there hold. */
  predicate Known(s: Schemas, conds: seq<Conjunct>, e: Joined)
    requires ConjunctsOk(s, conds) && JoinedOk(s, e)
  {
    forall i :: 0 <= i < |conds| && Covered(conds[i], |e|) ==> Eval(s, conds[i], e)
  }

  function KeepKnown(s: Schemas, conds: seq<Conjunct>, L: seq<Joined>): seq<Joined>
    requires ConjunctsOk(s, conds) && forall e :: e in L ==> JoinedOk(s, e)
  {
    if L == [] then [] else (if Known(s, conds, L[0]) then [L[0]] else []) + KeepKnown(s, conds, L[1..])
  }

  lemma {:induction false} KeepConcat(s: Schemas, conds: seq<Conjunct>, A: seq<Joined>, B: seq<Joined>)
    requires ConjunctsOk(s, conds) && (forall e :: e in A ==> JoinedOk(s, e)) && (forall e :: e in B ==> JoinedOk(s, e))
    ensures Keep(s, conds, A + B) == Keep(s, conds, A) + Keep(s, conds, B)
  {
    hide EvalAll, JoinedOk, ConjunctsOk;
    if A == [] {
      assert A + B == B;
    } else {
      assert (A + B)[1..] == A[1..] + B;
      KeepConcat(s, conds, A[1..], B);
    }
  }

  lemma {:induction false} KeepKnownConcat(s: Schemas, conds: seq<Conjunct>, A: seq<Joined>, B: seq<Joined>)
    requires ConjunctsOk(s, conds) && (forall e :: e in A ==> JoinedOk(s, e)) && (forall e :: e in B ==> JoinedOk(s, e))
    ensures KeepKnown(s, conds, A + B) == KeepKnown(s, conds, A) + KeepKnown(s, conds, B)
  {
    hide Known, JoinedOk, ConjunctsOk;
    if A == [] {
      assert A + B == B;
    } else {
      assert (A + B)[1..] == A[1..] + B;
      KeepKnownConcat(s, conds, A[1..], B);
    }
  }

  /** With all tables joined, every conjunct is known. */
  lemma {:induction false} KnownIsAll(s: Schemas, conds: seq<Conjunct>, L: seq<Joined>)
    requires ConjunctsOk(s, conds) && AllJoined(s, L, |s|)
    ensures forall e :: e in L ==> JoinedOk(s, e)
    ensures KeepKnown(s, conds, L) == Keep(s, conds, L)
  {
    if L != [] {
      KnownIsAll(s, conds, L[1..]);
    }
  }

  lemma ExtendOk(s: Schemas, e: Joined, rows: seq<Row>)
    requires JoinedOk(s, e) && TableRowsOk(s, |e|, rows)
    ensures forall x :: x in Extend(e, rows) ==> |x| == |e| + 1 && JoinedOk(s, x)
  {
  }

  lemma {:induction false} ProductOk(s: Schemas, L: seq<Joined>, rows: seq<Row>, n: nat)
    requires AllJoined(s, L, n) && TableRowsOk(s, n, rows)
    ensures AllJoined(s, Product(L, rows), n + 1)
  {
    hide JoinedOk, TableRowsOk;
    if L != [] {
      ExtendOk(s, L[0], rows);
      ProductOk(s, L[1..], rows, n);
    }
  }

  lemma {:induction false} CrossOk(s: Schemas, db: seq<seq<Row>>, n: nat)
    requires TablesOk(s, db) && n <= |s|
    ensures AllJoined(s, Cross(db, n), n)
  {
    hide TableRowsOk;
    if n > 0 {
      CrossOk(s, db, n - 1);
      ProductOk(s, Cross(db, n - 1), db[n - 1], n - 1);
    }
  }

  // -------------------------------------------------------------------------------------------
  // Where conjuncts go: to the table they are about, or to the join that brings their last table

  /** The join with table t brings the last column of a conjunct over several tables. */
  predicate JoinsAt(c: Conjunct, t: nat) {
    c.rhs.Col? && c.lhs.tab != c.rhs.c.tab && (c.lhs.tab == t || c.rhs.c.tab == t) && Covered(c, t + 1)
  }

  function On(conds: seq<Conjunct>, t: nat): (r: seq<Conjunct>)
    ensures forall i :: 0 <= i < |r| ==> OnlyOn(r[i], t) && r[i] in conds
    ensures forall c :: c in r <==> c in conds && OnlyOn(c, t)
  {
    if conds == [] then [] else
      var n := |conds| - 1;
      On(conds[..n], t) + if OnlyOn(conds[n], t) then [conds[n]] else []
  }

  function At(conds: seq<Conjunct>, t: nat): (r: seq<Conjunct>)
    ensures forall c :: c in r <==> c in conds && JoinsAt(c, t)
  {
    if conds == [] then [] else
      var n := |conds| - 1;
      At(conds[..n], t) + if JoinsAt(conds[n], t) then [conds[n]] else []
  }

  lemma OnAtOk(s: Schemas, conds: seq<Conjunct>, t: nat)
    requires ConjunctsOk(s, conds)
    ensures ConjunctsOk(s, On(conds, t)) && ConjunctsOk(s, At(conds, t))
  {
    hide ConjunctOk, On, At;
    assert forall i :: 0 <= i < |On(conds, t)| ==> On(conds, t)[i] in conds;
    assert forall i :: 0 <= i < |At(conds, t)| ==> At(conds, t)[i] in At(conds, t);
  }

  /** What is known of a joined row with one more row. */
  lemma KnownStep(s: Schemas, conds: seq<Conjunct>, e: Joined, row: Row)
    requires ConjunctsOk(s, conds) && JoinedOk(s, e) && |e| < |s| && KeyFits(row, s[|e|])
    ensures JoinedOk(s, e + [row]) && ConjunctsOk(s, On(conds, |e|)) && ConjunctsOk(s, At(conds, |e|))
    ensures Known(s, conds, e + [row]) <==>
            Known(s, conds, e) && EvalRowAll(s, On(conds, |e|), |e|, row) && EvalAll(s, At(conds, |e|), e + [row])
  {
    hide On, At, Fits, OpHolds, CompareColumn;
    OnAtOk(s, conds, |e|);
    var n, f := |e|, e + [row];
    forall c | c in conds ensures ConjunctOk(s, c) && (Covered(c, n) ==> Eval(s, c, f) == Eval(s, c, e))
      && (OnlyOn(c, n) ==> Eval(s, c, f) == EvalRow(s, c, n, row)) {
    }
    if Known(s, conds, f) {
      forall i | 0 <= i < |On(conds, n)| ensures EvalRow(s, On(conds, n)[i], n, row) {
        assert On(conds, n)[i] in conds;
      }
      forall i | 0 <= i < |At(conds, n)| ensures Eval(s, At(conds, n)[i], f) {
        assert At(conds, n)[i] in At(conds, n);
      }
    }
    if Known(s, conds, e) && EvalRowAll(s, On(conds, n), n, row) && EvalAll(s, At(conds, n), f) {
      forall i | 0 <= i < |conds| && Covered(conds[i], n + 1) ensures Eval(s, conds[i], f) {
        var c := conds[i];
        assert c in conds;
        assert OnlyOn(c, n) ==> c in On(conds, n);
        assert JoinsAt(c, n) ==> c in At(conds, n);
      }
    }
  }

  /** One joined row: filtering the further table and the combinations, or only what is known. */
  lemma {:induction false} ExtendStep(s: Schemas, conds: seq<Conjunct>, e: Joined, rows: seq<Row>)
    requires ConjunctsOk(s, conds) && JoinedOk(s, e) && TableRowsOk(s, |e|, rows)
    ensures ConjunctsOk(s, On(conds, |e|)) && ConjunctsOk(s, At(conds, |e|))
    ensures forall x :: x in Extend(e, rows) ==> JoinedOk(s, x)
    ensures forall x :: x in Extend(e, KeepRows(s, On(conds, |e|), |e|, rows)) ==> JoinedOk(s, x)
    ensures KeepKnown(s, conds, Extend(e, rows)) ==
            if Known(s, conds, e) then Keep(s, At(conds, |e|), Extend(e, KeepRows(s, On(conds, |e|), |e|, rows))) else []
  {
    hide On, At, Known, EvalAll, EvalRowAll, JoinedOk, ConjunctsOk, Extend, KeepRows, TableRowsOk, Keep, KeepKnown;
    OnAtOk(s, conds, |e|);
    var on, at := On(conds, |e|), At(conds, |e|);
    var kept := KeepRows(s, on, |e|, rows);
    ExtendOk(s, e, rows);
    ExtendOk(s, e, kept);
    RowsSplit(s, on, |e|, rows);
    if rows == [] {
      KeepNone(s, conds);
      KeepNone(s, at);
      assert Extend(e, rows) == [] && Extend(e, kept) == [];
    } else {
      var row, kept' := rows[0], KeepRows(s, on, |e|, rows[1..]);
      ExtendStep(s, conds, e, rows[1..]);
      KnownStep(s, conds, e, row);
      assert Extend(e, rows) == [e + [row]] + Extend(e, rows[1..]);
      KeepOne(s, conds, e + [row], Extend(e, rows[1..]));
      if EvalRowAll(s, on, |e|, row) {
        assert Extend(e, kept) == [e + [row]] + Extend(e, kept');
        KeepOne(s, at, e + [row], Extend(e, kept'));
      }
    }
  }

  lemma RowsSplit(s: Schemas, conds: seq<Conjunct>, t: nat, rows: seq<Row>)
    requires ConjunctsOk(s, conds) && TableRowsOk(s, t, rows) && forall i :: 0 <= i < |conds| ==> OnlyOn(conds[i], t)
    ensures t < |s| && (rows == [] ==> KeepRows(s, conds, t, rows) == [])
    ensures rows != [] ==> TableRowsOk(s, t, rows[1..]) && KeyFits(rows[0], s[t])
    ensures rows != [] ==>
              KeepRows(s, conds, t, rows) ==
              if EvalRowAll(s, conds, t, rows[0]) then [rows[0]] + KeepRows(s, conds, t, rows[1..]) else KeepRows(s, conds, t, rows[1..])
  {
    hide EvalRowAll, ConjunctsOk;
  }

  lemma KeepNone(s: Schemas, conds: seq<Conjunct>)
    requires ConjunctsOk(s, conds)
    ensures Keep(s, conds, []) == [] && KeepKnown(s, conds, []) == []
  {
  }

  lemma KeepOne(s: Schemas, conds: seq<Conjunct>, e: Joined, L: seq<Joined>)
    requires ConjunctsOk(s, conds) && JoinedOk(s, e) && forall x :: x in L ==> JoinedOk(s, x)
    ensures Keep(s, conds, [e] + L) == if EvalAll(s, conds, e) then [e] + Keep(s, conds, L) else Keep(s, conds, L)
    ensures KeepKnown(s, conds, [e] + L) == if Known(s, conds, e) then [e] + KeepKnown(s, conds, L) else KeepKnown(s, conds, L)
  {
    hide EvalAll, Known, JoinedOk, ConjunctsOk;
    assert ([e] + L)[1..] == L;
  }

  /** Filtering early, table by table and join by join, keeps exactly the rows filtering late keeps. */
  lemma {:induction false} JoinStep(s: Schemas, conds: seq<Conjunct>, n: nat, L: seq<Joined>, rows: seq<Row>)
    requires ConjunctsOk(s, conds) && AllJoined(s, L, n) && TableRowsOk(s, n, rows)
    ensures ConjunctsOk(s, On(conds, n)) && ConjunctsOk(s, At(conds, n))
    ensures AllJoined(s, Product(L, rows), n + 1)
    ensures AllJoined(s, Product(KeepKnown(s, conds, L), KeepRows(s, On(conds, n), n, rows)), n + 1)
    ensures Keep(s, At(conds, n), Product(KeepKnown(s, conds, L), KeepRows(s, On(conds, n), n, rows)))
            == KeepKnown(s, conds, Product(L, rows))
  {
    hide On, At, Known, EvalAll, JoinedOk, ConjunctsOk, Extend, KeepRows, TableRowsOk;
    OnAtOk(s, conds, n);
    var kept := KeepRows(s, On(conds, n), n, rows);
    KeepKnownMembers(s, conds, L);
    ProductOk(s, L, rows, n);
    ProductOk(s, KeepKnown(s, conds, L), kept, n);
    if L != [] {
      JoinStep(s, conds, n, L[1..], rows);
      ExtendStep(s, conds, L[0], rows);
      ExtendOk(s, L[0], rows);
      ExtendOk(s, L[0], kept);
      KeepKnownConcat(s, conds, Extend(L[0], rows), Product(L[1..], rows));
      var rest := KeepKnown(s, conds, L[1..]);
      KeepConcat(s, At(conds, n), Extend(L[0], kept), Product(rest, kept));
      if Known(s, conds, L[0]) {
        assert KeepKnown(s, conds, L)[1..] == rest;
      } else {
        assert KeepKnown(s, conds, L) == rest;
      }
    }
  }

  lemma {:induction false} KeepKnownMembers(s: Schemas, conds: seq<Conjunct>, L: seq<Joined>)
    requires ConjunctsOk(s, conds) && forall e :: e in L ==> JoinedOk(s, e)
    ensures forall e :: e in KeepKnown(s, conds, L) ==> e in L
  {
    hide Known, JoinedOk, ConjunctsOk;
    if L != [] {
      KeepKnownMembers(s, conds, L[1..]);
    }
  }

  /** The first table alone. */
  lemma FirstTable(s: Schemas, conds: seq<Conjunct>, rows: seq<Row>)
    requires ConjunctsOk(s, conds) && TableRowsOk(s, 0, rows)
    ensures ConjunctsOk(s, On(conds, 0)) && JoinedOk(s, []) && AllJoined(s, Extend([], rows), 1)
    ensures Extend([], KeepRows(s, On(conds, 0), 0, rows)) == KeepKnown(s, conds, Extend([], rows))
  {
    hide *;
    NothingJoined(s, conds);
    OnAtOk(s, conds, 0);
    ExtendStep(s, conds, [], rows);
    FirstExtended(s, rows);
    KeepAll(s, Extend([], KeepRows(s, On(conds, 0), 0, rows)));
  }

  lemma FirstExtended(s: Schemas, rows: seq<Row>)
    requires TableRowsOk(s, 0, rows)
    ensures AllJoined(s, Extend([], rows), 1)
  {
    ExtendOk(s, [], rows);
  }

  lemma NothingJoined(s: Schemas, conds: seq<Conjunct>)
    requires ConjunctsOk(s, conds)
    ensures JoinedOk(s, []) && Known(s, conds, []) && At(conds, 0) == []
  {
    hide At;
    assert |At(conds, 0)| > 0 ==> At(conds, 0)[0] in At(conds, 0) && JoinsAt(At(conds, 0)[0], 0);
  }

  lemma {:induction false} KeepAll(s: Schemas, L: seq<Joined>)
    requires forall e :: e in L ==> JoinedOk(s, e)
    ensures Keep(s, [], L) == L
  {
    hide JoinedOk;
    if L != [] {
      KeepAll(s, L[1..]);
    }
  }
}
