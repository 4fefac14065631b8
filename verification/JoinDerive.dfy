/** The equalities with constants that analysis derives from equalities between columns. */
module JoinDerive {
  import opened Options
  import opened IndexKeys
  import opened ScanBounds
  import opened JoinQuery

  /** A condition of the right types that every joined row satisfying the conditions satisfies. */
  ghost predicate Implied(s: Schemas, conds: seq<Conjunct>, d: Conjunct)
    requires ConjunctsOk(s, conds)
  {
    ConjunctOk(s, d) && forall e :: JoinedOk(s, e) && EvalAll(s, conds, e) ==> Eval(s, d, e)
  }

  ghost predicate AllImplied(s: Schemas, conds: seq<Conjunct>, ds: seq<Conjunct>)
    requires ConjunctsOk(s, conds)
  {
    forall i :: 0 <= i < |ds| ==> Implied(s, conds, ds[i])
  }

  predicate IsColumnEquality(c: Conjunct) {
    c.op.EQ? && c.rhs.Col?
  }

  predicate IsConstEquality(c: Conjunct) {
    c.op.EQ? && c.rhs.Val?
  }

  /** The column an equality with cc's column makes equal to cc's constant. */
  function OtherSide(j: Conjunct, cc: Conjunct): Option<TabCol>
    requires j.rhs.Col?
  {
    if cc.lhs == j.lhs then Some(j.rhs.c) else if cc.lhs == j.rhs.c then Some(j.lhs) else None
  }

  lemma CompareZero(a: Value, b: Value, c: Column)
    requires Fits(a, c) && Fits(b, c)
    ensures CompareColumn(a, b, c) == 0 <==> a == b
  {
  }

  /** An equality of columns carries a constant from one side to the other. */
  lemma Transitive(s: Schemas, j: Conjunct, cc: Conjunct, e: Joined)
    requires ConjunctOk(s, j) && ConjunctOk(s, cc) && JoinedOk(s, e) && IsColumnEquality(j) && IsConstEquality(cc)
    requires OtherSide(j, cc).Some? && Eval(s, j, e) && Eval(s, cc, e)
    ensures var d := Conjunct(OtherSide(j, cc).value, EQ, cc.rhs); ConjunctOk(s, d) && Eval(s, d, e)
  {
    hide CompareColumn, Fits;
    var col := s[j.lhs.tab][j.lhs.col];
    CompareZero(e[j.lhs.tab][j.lhs.col], e[j.rhs.c.tab][j.rhs.c.col], col);
    CompareZero(e[cc.lhs.tab][cc.lhs.col], cc.rhs.v, col);
    CompareZero(cc.rhs.v, cc.rhs.v, col);
  }

  lemma DerivedImplied(s: Schemas, conds: seq<Conjunct>, j: Conjunct, cc: Conjunct)
    requires ConjunctsOk(s, conds) && j in conds && cc in conds && IsColumnEquality(j) && IsConstEquality(cc)
    requires OtherSide(j, cc).Some?
    ensures Implied(s, conds, Conjunct(OtherSide(j, cc).value, EQ, cc.rhs))
  {
    hide ConjunctOk, Eval, JoinedOk;
    DerivedOk(s, j, cc);
    forall e | JoinedOk(s, e) && EvalAll(s, conds, e) ensures Eval(s, Conjunct(OtherSide(j, cc).value, EQ, cc.rhs), e) {
      Transitive(s, j, cc, e);
    }
  }

  lemma DerivedOk(s: Schemas, j: Conjunct, cc: Conjunct)
    requires ConjunctOk(s, j) && ConjunctOk(s, cc) && IsColumnEquality(j) && IsConstEquality(cc) && OtherSide(j, cc).Some?
    ensures ConjunctOk(s, Conjunct(OtherSide(j, cc).value, EQ, cc.rhs))
  {
  }

  /** Implication passes through implied conditions. */
  lemma ImpliedTrans(s: Schemas, conds: seq<Conjunct>, extra: seq<Conjunct>, ds: seq<Conjunct>)
    requires ConjunctsOk(s, conds) && AllImplied(s, conds, extra) && ConjunctsOk(s, conds + extra) && AllImplied(s, conds + extra, ds)
    ensures AllImplied(s, conds, extra + ds)
  {
    hide ConjunctOk, Eval, JoinedOk;
    forall e | JoinedOk(s, e) && EvalAll(s, conds, e) ensures EvalAll(s, conds + extra, e) {
      assert forall i :: 0 <= i < |extra| ==> Implied(s, conds, extra[i]);
    }
    forall i | 0 <= i < |extra + ds| ensures Implied(s, conds, (extra + ds)[i]) {
      if i < |extra| {
        assert Implied(s, conds, extra[i]);
      } else {
        assert Implied(s, conds + extra, ds[i - |extra|]);
      }
    }
  }

  lemma ImpliedOk(s: Schemas, conds: seq<Conjunct>, ds: seq<Conjunct>)
    requires ConjunctsOk(s, conds) && AllImplied(s, conds, ds)
    ensures ConjunctsOk(s, conds + ds)
  {
    hide ConjunctOk, Eval, JoinedOk;
    assert forall i :: 0 <= i < |ds| ==> Implied(s, conds, ds[i]);
  }

  /** Implied conditions filter nothing out. */
  lemma {:induction false} ImpliedKeeps(s: Schemas, conds: seq<Conjunct>, ds: seq<Conjunct>, L: seq<Joined>)
    requires ConjunctsOk(s, conds) && AllImplied(s, conds, ds) && forall e :: e in L ==> JoinedOk(s, e)
    ensures ConjunctsOk(s, conds + ds) && Keep(s, conds + ds, L) == Keep(s, conds, L)
  {
    hide ConjunctOk, Eval, JoinedOk, Implied;
    ImpliedOk(s, conds, ds);
    if L != [] {
      ImpliedKeeps(s, conds, ds, L[1..]);
      ImpliedEval(s, conds, ds, L[0]);
    }
  }

  lemma ImpliedEval(s: Schemas, conds: seq<Conjunct>, ds: seq<Conjunct>, e: Joined)
    requires ConjunctsOk(s, conds) && ConjunctsOk(s, conds + ds) && AllImplied(s, conds, ds) && JoinedOk(s, e)
    ensures EvalAll(s, conds + ds, e) == EvalAll(s, conds, e)
  {
    hide ConjunctOk, Eval, JoinedOk;
    assert forall i :: 0 <= i < |ds| ==> Implied(s, conds, ds[i]);
    assert forall i :: 0 <= i < |conds| ==> (conds + ds)[i] == conds[i];
    if EvalAll(s, conds, e) {
      forall i | 0 <= i < |conds + ds| ensures Eval(s, (conds + ds)[i], e) {
      }
    }
  }

  /** An equality of columns and an equality with a constant have left their mark: the other column
      has a constant by now. */
  ghost predicate Served(conds: seq<Conjunct>, derived: seq<Conjunct>, j: Conjunct, cc: Conjunct) {
    IsColumnEquality(j) && IsConstEquality(cc) && OtherSide(j, cc).Some? ==>
      HasConst(conds, OtherSide(j, cc).value) || HasColumn(derived, OtherSide(j, cc).value)
  }

  lemma UnequalServed(conds: seq<Conjunct>, derived: seq<Conjunct>, j: Conjunct)
    ensures !IsColumnEquality(j) ==> forall cc :: Served(conds, derived, j, cc)
  {
  }

  lemma ServedStays(conds: seq<Conjunct>, derived: seq<Conjunct>, d: Conjunct)
    ensures HasColumn(derived + [d], d.lhs)
    ensures forall j, cc :: Served(conds, derived, j, cc) ==> Served(conds, derived + [d], j, cc)
  {
    forall c | HasColumn(derived, c) ensures HasColumn(derived + [d], c) {
      var i :| 0 <= i < |derived| && derived[i].lhs == c;
      assert (derived + [d])[i].lhs == c;
    }
    assert (derived + [d])[|derived|].lhs == d.lhs;
  }

  method DerivePair(s: Schemas, conds: seq<Conjunct>, derived: seq<Conjunct>, j: Conjunct, cc: Conjunct) returns (r: seq<Conjunct>)
    requires ConjunctsOk(s, conds) && j in conds && cc in conds && IsColumnEquality(j) && DerivedSoFar(s, conds, derived)
    ensures DerivedSoFar(s, conds, r) && Served(conds, r, j, cc)
    ensures forall a, b :: Served(conds, derived, a, b) ==> Served(conds, r, a, b)
  {
    hide ConjunctOk, Eval, JoinedOk, Implied;
    r := derived;
    if IsConstEquality(cc) && OtherSide(j, cc).Some? {
      var dst := OtherSide(j, cc).value;
      if !HasConst(conds, dst) && !HasColumn(derived, dst) {
        DerivedImplied(s, conds, j, cc);
        ServedStays(conds, derived, Conjunct(dst, EQ, cc.rhs));
        r := derived + [Conjunct(dst, EQ, cc.rhs)];
      }
    }
  }

  /** One pass over all pairs of an equality of columns and an equality with a constant. */
  method DerivePass(s: Schemas, conds: seq<Conjunct>) returns (derived: seq<Conjunct>)
    requires ConjunctsOk(s, conds)
    ensures AllImplied(s, conds, derived)
    ensures forall d :: d in derived ==> IsConstEquality(d) && !HasConst(conds, d.lhs)
    ensures forall a, b :: 0 <= a < b < |derived| ==> derived[a].lhs != derived[b].lhs
    ensures forall a, b :: 0 <= a < |conds| && 0 <= b < |conds| ==> Served(conds, derived, conds[a], conds[b])
  {
    hide ConjunctOk, Eval, JoinedOk, Implied, HasConst, HasColumn, Served;
    derived := [];
    for a := 0 to |conds|
      invariant DerivedSoFar(s, conds, derived)
      invariant forall i, b :: 0 <= i < a && 0 <= b < |conds| ==> Served(conds, derived, conds[i], conds[b])
    {
      var j := conds[a];
      if IsColumnEquality(j) {
        for b := 0 to |conds|
          invariant DerivedSoFar(s, conds, derived)
          invariant forall i, k :: 0 <= i < a && 0 <= k < |conds| ==> Served(conds, derived, conds[i], conds[k])
          invariant forall k :: 0 <= k < b ==> Served(conds, derived, j, conds[k])
        {
          derived := DerivePair(s, conds, derived, j, conds[b]);
        }
      }
      UnequalServed(conds, derived, j);
    }
  }

  predicate HasConst(conds: seq<Conjunct>, c: TabCol) {
    exists i :: 0 <= i < |conds| && IsConstEquality(conds[i]) && conds[i].lhs == c
  }

  predicate HasColumn(ds: seq<Conjunct>, c: TabCol) {
    exists i :: 0 <= i < |ds| && ds[i].lhs == c
  }

  ghost predicate DerivedSoFar(s: Schemas, conds: seq<Conjunct>, derived: seq<Conjunct>)
    requires ConjunctsOk(s, conds)
  {
    && AllImplied(s, conds, derived)
    && (forall d :: d in derived ==> IsConstEquality(d) && !HasConst(conds, d.lhs))
    && (forall a, b :: 0 <= a < b < |derived| ==> derived[a].lhs != derived[b].lhs)
  }

  /** Every column that an equality ties to a column with a constant has a constant. */
  ghost predicate Tied(conds: seq<Conjunct>, all: seq<Conjunct>) {
    forall a, b :: 0 <= a < |conds| && 0 <= b < |conds| ==> Served(all, [], conds[a], conds[b])
  }

  lemma TiedAfterPass(conds: seq<Conjunct>, derived: seq<Conjunct>)
    requires forall d :: d in derived ==> IsConstEquality(d)
    requires forall a, b :: 0 <= a < |conds| && 0 <= b < |conds| ==> Served(conds, derived, conds[a], conds[b])
    ensures Tied(conds, conds + derived)
  {
    forall c | HasConst(conds, c) || HasColumn(derived, c) ensures HasConst(conds + derived, c) {
      if HasConst(conds, c) {
        var i :| 0 <= i < |conds| && IsConstEquality(conds[i]) && conds[i].lhs == c;
        assert (conds + derived)[i] == conds[i];
      } else {
        var i :| 0 <= i < |derived| && derived[i].lhs == c;
        assert (conds + derived)[|conds| + i] == derived[i] && derived[i] in derived;
      }
    }
    assert forall a, b :: 0 <= a < |conds| && 0 <= b < |conds| ==> Served(conds, derived, conds[a], conds[b]);
  }

  lemma TiedStays(conds: seq<Conjunct>, all: seq<Conjunct>, more: seq<Conjunct>)
    requires Tied(conds, all)
    ensures Tied(conds, all + more)
  {
    forall c | HasConst(all, c) ensures HasConst(all + more, c) {
      var i :| 0 <= i < |all| && IsConstEquality(all[i]) && all[i].lhs == c;
      assert (all + more)[i] == all[i];
    }
  }

  const MAX_PASSES := 3

  /** Up to three passes append derived conditions; none of them changes the meaning of the query. */
  method DeriveEqualities(s: Schemas, conds: seq<Conjunct>) returns (all: seq<Conjunct>, ghost extra: seq<Conjunct>)
    requires ConjunctsOk(s, conds)
    ensures all == conds + extra && AllImplied(s, conds, extra) && ConjunctsOk(s, all)
    ensures (forall d :: d in extra ==> IsConstEquality(d)) && Tied(conds, all)
  {
    hide ConjunctOk, Eval, JoinedOk, Implied, Tied, Served;
    all, extra := conds, [];
    for pass := 0 to MAX_PASSES
      invariant all == conds + extra && AllImplied(s, conds, extra) && ConjunctsOk(s, all)
      invariant forall d :: d in extra ==> IsConstEquality(d)
      invariant pass == 0 ==> extra == []
      invariant pass > 0 ==> Tied(conds, all)
    {
      var derived := DerivePass(s, all);
      if pass == 0 {
        assert all == conds;
        TiedAfterPass(conds, derived);
      } else {
        TiedStays(conds, all, derived);
      }
      ImpliedTrans(s, conds, extra, derived);
      ImpliedOk(s, conds, extra + derived);
      assert all + derived == conds + (extra + derived);
      extra, all := extra + derived, all + derived;
      if derived == [] {
        break;
      }
    }
  }
}
