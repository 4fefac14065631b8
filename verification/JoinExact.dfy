/**
  What a plan stands for.  If every index it probes is bound in all its columns, a plan keeps the
  rows of the cross product that satisfy the conditions; with an unbound one it keeps nothing.
  */
module JoinExact {
  import opened IndexKeys
  import opened ScanBounds
  import opened JoinQuery
  import opened ExplainBuild
  import opened JoinPlanner

  // -------------------------------------------------------------------------------------------
  // What a plan stands for

  /** The rows of a plan's joins when every child comes in table order. */
  ghost function PlanRows(s: Schemas, defs: IndexDefs, db: seq<seq<Row>>, conds: seq<Conjunct>, k: nat, p: Plan): (L: seq<Joined>)
    requires ConjunctsOk(s, conds) && TablesOk(s, db) && DefsOk(s, defs) && IsPlan(defs, conds, k, p)
    ensures AllJoined(s, L, k)
    decreases p
  {
    match p
    case Leaf(scan) =>
      TakenOk(s, conds, 0);
      FirstScan(s, scan.conds, db[0])
    case NestLoop(left, scan, jc) =>
      JoinOperands(s, conds, k - 1);
      JoinRows(s, jc, k - 1, PlanRows(s, defs, db, conds, k - 1, left), KeepRows(s, scan.conds, k - 1, db[k - 1]))
    case IndexNestLoop(left, scan, jc) =>
      JoinOperands(s, conds, k - 1);
      var L := JoinRows(s, scan.conds + jc, k - 1, PlanRows(s, defs, db, conds, k - 1, left), db[k - 1]);
      if ProbeBound(defs, scan, jc) then L else []
  }

  /** The first table's own conditions among those its scan carries. */
  ghost function FirstScan(s: Schemas, conds: seq<Conjunct>, rows: seq<Row>): (L: seq<Joined>)
    requires ConjunctsOk(s, conds) && TableRowsOk(s, 0, rows)
    ensures AllJoined(s, L, 1)
    ensures ConjunctsOk(s, On(conds, 0)) && L == Extend([], KeepRows(s, On(conds, 0), 0, rows))
  {
    OnAtOk(s, conds, 0);
    ExtendOk(s, [], KeepRows(s, On(conds, 0), 0, rows));
    Extend([], KeepRows(s, On(conds, 0), 0, rows))
  }

  ghost function JoinRows(s: Schemas, conds: seq<Conjunct>, t: nat, L: seq<Joined>, rows: seq<Row>): (r: seq<Joined>)
    requires ConjunctsOk(s, conds) && AllJoined(s, L, t) && TableRowsOk(s, t, rows)
    ensures AllJoined(s, Product(L, rows), t + 1) && AllJoined(s, r, t + 1) && r == Keep(s, conds, Product(L, rows))
  {
    ProductOk(s, L, rows, t);
    KeepMembers(s, conds, Product(L, rows));
    Keep(s, conds, Product(L, rows))
  }

  lemma {:induction false} KeepMembers(s: Schemas, conds: seq<Conjunct>, L: seq<Joined>)
    requires ConjunctsOk(s, conds) && forall e :: e in L ==> JoinedOk(s, e)
    ensures forall e :: e in Keep(s, conds, L) ==> e in L
  {
    hide EvalAll, JoinedOk, ConjunctsOk;
    if L != [] {
      KeepMembers(s, conds, L[1..]);
    }
  }

  lemma {:induction false} EffectiveOk(s: Schemas, conds: seq<Conjunct>)
    requires ConjunctsOk(s, conds)
    ensures ConjunctsOk(s, Effective(conds))
  {
    hide ConjunctOk;
    if conds != [] {
      EffectiveOk(s, conds[..|conds| - 1]);
    }
  }

  lemma {:induction false} TakenOk(s: Schemas, conds: seq<Conjunct>, t: nat)
    requires ConjunctsOk(s, conds)
    ensures ConjunctsOk(s, Taken(conds, t))
  {
    hide ConjunctOk;
    if conds != [] {
      TakenOk(s, conds[..|conds| - 1], t);
    }
  }

  lemma JoinOperands(s: Schemas, conds: seq<Conjunct>, t: nat)
    requires ConjunctsOk(s, conds)
    ensures ConjunctsOk(s, Effective(conds))
    ensures ConjunctsOk(s, On(Effective(conds), t)) && ConjunctsOk(s, At(Effective(conds), t))
    ensures ConjunctsOk(s, On(Effective(conds), t) + At(Effective(conds), t))
    ensures forall i :: 0 <= i < |At(Effective(conds), t)| ==> JoinsAt(At(Effective(conds), t)[i], t)
  {
    hide ConjunctOk, Effective;
    EffectiveOk(s, conds);
    OnAtOk(s, Effective(conds), t);
    assert forall i :: 0 <= i < |At(Effective(conds), t)| ==> At(Effective(conds), t)[i] in At(Effective(conds), t);
  }

  /** Applying a table's own conditions together with the join's, or before. */
  lemma {:induction false} EarlyRows(s: Schemas, conds: seq<Conjunct>, e: Joined, rows: seq<Row>)
    requires ConjunctsOk(s, conds) && JoinedOk(s, e) && TableRowsOk(s, |e|, rows)
    ensures ConjunctsOk(s, On(conds, |e|)) && ConjunctsOk(s, At(conds, |e|)) && ConjunctsOk(s, On(conds, |e|) + At(conds, |e|))
    ensures forall x :: x in Extend(e, rows) ==> JoinedOk(s, x)
    ensures forall x :: x in Extend(e, KeepRows(s, On(conds, |e|), |e|, rows)) ==> JoinedOk(s, x)
    ensures Keep(s, On(conds, |e|) + At(conds, |e|), Extend(e, rows))
            == Keep(s, At(conds, |e|), Extend(e, KeepRows(s, On(conds, |e|), |e|, rows)))
  {
    hide *;
    OnAtOk(s, conds, |e|);
    BothLists(s, On(conds, |e|), At(conds, |e|));
    var on, at := On(conds, |e|), At(conds, |e|);
    var kept := KeepRows(s, on, |e|, rows);
    ExtendAllOk(s, e, rows);
    ExtendAllOk(s, e, kept);
    RowsSplit(s, on, |e|, rows);
    if rows == [] {
      KeepNone(s, on + at);
      KeepNone(s, at);
      ExtendEmpty(e);
    } else {
      var row, kept' := rows[0], KeepRows(s, on, |e|, rows[1..]);
      EarlyRows(s, conds, e, rows[1..]);
      EarlyRow(s, on, at, e, row);
      assert rows == [row] + rows[1..];
      ExtendCons(e, row, rows[1..]);
      KeepOne(s, on + at, e + [row], Extend(e, rows[1..]));
      if EvalRowAll(s, on, |e|, row) {
        ExtendCons(e, row, kept');
        KeepOne(s, at, e + [row], Extend(e, kept'));
      }
    }
  }

  lemma ExtendAllOk(s: Schemas, e: Joined, rows: seq<Row>)
    requires JoinedOk(s, e) && TableRowsOk(s, |e|, rows)
    ensures forall x :: x in Extend(e, rows) ==> JoinedOk(s, x)
  {
    ExtendOk(s, e, rows);
  }

  lemma BothLists(s: Schemas, a: seq<Conjunct>, b: seq<Conjunct>)
    requires ConjunctsOk(s, a) && ConjunctsOk(s, b)
    ensures ConjunctsOk(s, a + b)
  {
    hide ConjunctOk;
  }

  lemma ExtendEmpty(e: Joined)
    ensures Extend(e, []) == []
  {
  }

  lemma ExtendCons(e: Joined, row: Row, rows: seq<Row>)
    ensures Extend(e, [row] + rows) == [e + [row]] + Extend(e, rows)
  {
  }

  lemma EarlyRow(s: Schemas, on: seq<Conjunct>, at: seq<Conjunct>, e: Joined, row: Row)
    requires ConjunctsOk(s, on) && ConjunctsOk(s, at) && ConjunctsOk(s, on + at) && JoinedOk(s, e)
    requires |e| < |s| && KeyFits(row, s[|e|]) && forall i :: 0 <= i < |on| ==> OnlyOn(on[i], |e|)
    ensures JoinedOk(s, e + [row])
    ensures EvalAll(s, on + at, e + [row]) <==> EvalRowAll(s, on, |e|, row) && EvalAll(s, at, e + [row])
  {
    hide Fits, OpHolds, CompareColumn;
    var f := e + [row];
    assert forall i :: 0 <= i < |on| ==> ConjunctOk(s, on[i]) && Eval(s, on[i], f) == EvalRow(s, on[i], |e|, row);
    assert forall i :: 0 <= i < |on| ==> (on + at)[i] == on[i];
    assert forall i :: 0 <= i < |at| ==> (on + at)[|on| + i] == at[i];
  }

  lemma {:induction false} EarlyProduct(s: Schemas, conds: seq<Conjunct>, n: nat, L: seq<Joined>, rows: seq<Row>)
    requires ConjunctsOk(s, conds) && AllJoined(s, L, n) && TableRowsOk(s, n, rows)
    ensures ConjunctsOk(s, On(conds, n)) && ConjunctsOk(s, At(conds, n)) && ConjunctsOk(s, On(conds, n) + At(conds, n))
    ensures AllJoined(s, Product(L, rows), n + 1) && AllJoined(s, Product(L, KeepRows(s, On(conds, n), n, rows)), n + 1)
    ensures Keep(s, On(conds, n) + At(conds, n), Product(L, rows)) == Keep(s, At(conds, n), Product(L, KeepRows(s, On(conds, n), n, rows)))
  {
    OnAtOk(s, conds, n);
    BothLists(s, On(conds, n), At(conds, n));
    hide On, At, EvalAll, JoinedOk, ConjunctsOk, Extend, KeepRows, TableRowsOk;
    var on, at := On(conds, n), At(conds, n);
    var kept := KeepRows(s, on, n, rows);
    ProductOk(s, L, rows, n);
    ProductOk(s, L, kept, n);
    if L != [] {
      EarlyProduct(s, conds, n, L[1..], rows);
      EarlyRows(s, conds, L[0], rows);
      KeepConcat(s, on + at, Extend(L[0], rows), Product(L[1..], rows));
      KeepConcat(s, at, Extend(L[0], kept), Product(L[1..], kept));
    }
  }

  /** A plan is exact if all its probed indexes are bound, and otherwise it is empty. */
  lemma {:induction false} PlanExact(s: Schemas, defs: IndexDefs, db: seq<seq<Row>>, conds: seq<Conjunct>, k: nat, p: Plan)
    requires ConjunctsOk(s, conds) && TablesOk(s, db) && DefsOk(s, defs) && IsPlan(defs, conds, k, p)
    ensures 0 < k <= |s| && ConjunctsOk(s, Effective(conds)) && AllJoined(s, Cross(db, k), k)
    ensures PlanRows(s, defs, db, conds, k, p) == if ProbesBound(defs, p) then KeepKnown(s, Effective(conds), Cross(db, k)) else []
    decreases p
  {
    hide On, At, Taken, ConjunctsOk, KeepRows, Cross, TableRowsOk, Effective, KeepKnown, Extend, Keep, Product, PlanRows;
    EffectiveOk(s, conds);
    PlanSize(defs, conds, k, p);
    CrossOk(s, db, k);
    match p
    case Leaf(scan) => PlanExactLeaf(s, defs, db, conds, k, p);
    case NestLoop(left, scan, jc) =>
      PlanExact(s, defs, db, conds, k - 1, left);
      PlanExactLoop(s, defs, db, conds, k, p);
    case IndexNestLoop(left, scan, jc) =>
      PlanExact(s, defs, db, conds, k - 1, left);
      PlanExactProbe(s, defs, db, conds, k, p);
  }

  lemma PlanExactLeaf(s: Schemas, defs: IndexDefs, db: seq<seq<Row>>, conds: seq<Conjunct>, k: nat, p: Plan)
    requires ConjunctsOk(s, conds) && TablesOk(s, db) && DefsOk(s, defs) && IsPlan(defs, conds, k, p) && p.Leaf?
    requires |s| > 0 && ConjunctsOk(s, Effective(conds)) && AllJoined(s, Cross(db, 1), 1)
    ensures k == 1 && PlanRows(s, defs, db, conds, k, p) == KeepKnown(s, Effective(conds), Cross(db, k))
  {
    hide On, Taken, ConjunctsOk, KeepRows, Cross, TableRowsOk, JoinedOk, Effective, KeepKnown, Extend;
    FirstTakes(conds);
    assert TableRowsOk(s, 0, db[0]);
    FirstTable(s, Effective(conds), db[0]);
    CrossOne(db);
  }

  lemma PlanSize(defs: IndexDefs, conds: seq<Conjunct>, k: nat, p: Plan)
    requires IsPlan(defs, conds, k, p)
    ensures 0 < k <= |defs|
  {
  }

  /** The join step shared by both kinds of joins. */
  lemma StepExact(s: Schemas, db: seq<seq<Row>>, conds: seq<Conjunct>, t: nat, bound: bool, L: seq<Joined>)
    requires ConjunctsOk(s, conds) && TablesOk(s, db) && t < |s| && AllJoined(s, Cross(db, t), t)
    requires L == if bound then KeepKnown(s, conds, Cross(db, t)) else []
    ensures ConjunctsOk(s, On(conds, t)) && ConjunctsOk(s, At(conds, t)) && TableRowsOk(s, t, db[t])
    ensures AllJoined(s, Cross(db, t + 1), t + 1) && AllJoined(s, Product(L, KeepRows(s, On(conds, t), t, db[t])), t + 1)
    ensures Keep(s, At(conds, t), Product(L, KeepRows(s, On(conds, t), t, db[t])))
            == if bound then KeepKnown(s, conds, Cross(db, t + 1)) else []
  {
    OnAtOk(s, conds, t);
    CrossNext(db, t);
    hide On, At, ConjunctsOk, KeepRows, Cross, TableRowsOk, JoinedOk;
    assert TableRowsOk(s, t, db[t]);
    JoinStep(s, conds, t, Cross(db, t), db[t]);
  }

  lemma PlanExactLoop(s: Schemas, defs: IndexDefs, db: seq<seq<Row>>, conds: seq<Conjunct>, k: nat, p: Plan)
    requires ConjunctsOk(s, conds) && TablesOk(s, db) && DefsOk(s, defs) && IsPlan(defs, conds, k, p) && p.NestLoop?
    requires 1 < k <= |s| && ConjunctsOk(s, Effective(conds)) && AllJoined(s, Cross(db, k), k) && AllJoined(s, Cross(db, k - 1), k - 1)
    requires PlanRows(s, defs, db, conds, k - 1, p.left)
             == if ProbesBound(defs, p.left) then KeepKnown(s, Effective(conds), Cross(db, k - 1)) else []
    ensures PlanRows(s, defs, db, conds, k, p) == if ProbesBound(defs, p) then KeepKnown(s, Effective(conds), Cross(db, k)) else []
  {
    hide On, At, ConjunctsOk, KeepRows, Cross, TableRowsOk, JoinedOk, Effective, Keep, KeepKnown, Product, JoinIndexIs, ProbeBound, IndexOk;
    var t := k - 1;
    JoinOperands(s, conds, t);
    StepExact(s, db, Effective(conds), t, ProbesBound(defs, p.left), PlanRows(s, defs, db, conds, t, p.left));
  }

  lemma PlanExactProbe(s: Schemas, defs: IndexDefs, db: seq<seq<Row>>, conds: seq<Conjunct>, k: nat, p: Plan)
    requires ConjunctsOk(s, conds) && TablesOk(s, db) && DefsOk(s, defs) && IsPlan(defs, conds, k, p) && p.IndexNestLoop?
    requires 1 < k <= |s| && ConjunctsOk(s, Effective(conds)) && AllJoined(s, Cross(db, k), k) && AllJoined(s, Cross(db, k - 1), k - 1)
    requires PlanRows(s, defs, db, conds, k - 1, p.left)
             == if ProbesBound(defs, p.left) then KeepKnown(s, Effective(conds), Cross(db, k - 1)) else []
    ensures PlanRows(s, defs, db, conds, k, p) == if ProbesBound(defs, p) then KeepKnown(s, Effective(conds), Cross(db, k)) else []
  {
    hide On, At, ConjunctsOk, KeepRows, Cross, TableRowsOk, JoinedOk, Effective, Keep, KeepKnown, Product, JoinIndexIs, ProbeBound, IndexOk;
    var t := k - 1;
    var L := PlanRows(s, defs, db, conds, t, p.left);
    JoinOperands(s, conds, t);
    StepExact(s, db, Effective(conds), t, ProbesBound(defs, p.left), L);
    EarlyProduct(s, Effective(conds), t, L, db[t]);
  }
}
