/** Reordering the inputs of a join or a filter reorders its output and does no more. */
module JoinBags {
  import opened IndexKeys
  import opened JoinQuery
  import opened ExplainBuild

  ghost predicate Reordered<T>(a: seq<T>, b: seq<T>) {
    multiset(a) == multiset(b)
  }

  lemma SameMembers<T(!new)>(a: seq<T>, b: seq<T>)
    requires Reordered(a, b)
    ensures |a| == |b| && forall x :: x in a <==> x in b
  {
    forall x ensures x in a <==> x in b {
      assert x in a <==> x in multiset(a);
      assert x in b <==> x in multiset(b);
    }
    assert |a| == |multiset(a)| && |b| == |multiset(b)|;
  }

  /** The first element of one list, found in the other, with what is left on both sides. */
  lemma TakeOut<T>(a: seq<T>, b: seq<T>) returns (i: nat)
    requires Reordered(a, b) && a != []
    ensures i < |b| && b == b[..i] + [a[0]] + b[i + 1..] && Reordered(a[1..], b[..i] + b[i + 1..])
  {
    assert a == [a[0]] + a[1..];
    assert a[0] in multiset(a);
    assert a[0] in b;
    i :| 0 <= i < |b| && b[i] == a[0];
    assert b == b[..i] + [a[0]] + b[i + 1..];
    var l, x, r := b[..i], [a[0]], b[i + 1..];
    assert multiset(b) == multiset(l + x + r) == multiset(l) + multiset(x) + multiset(r);
    assert multiset(a) == multiset(x + a[1..]) == multiset(x) + multiset(a[1..]);
    assert multiset(l + r) == multiset(l) + multiset(r);
    assert multiset(a[1..]) == multiset(a) - multiset(x);
    assert multiset(l + r) == multiset(b) - multiset(x);
  }

  lemma {:induction false} ExtendBag(e: Joined, a: seq<Row>, b: seq<Row>)
    requires Reordered(a, b)
    ensures Reordered(Extend(e, a), Extend(e, b))
  {
    if a == [] {
      SameMembers(a, b);
      assert Extend(e, a) == Extend(e, b);
    } else {
      var i := TakeOut(a, b);
      var l, r := b[..i], b[i + 1..];
      ExtendBag(e, a[1..], l + r);
      assert Extend(e, a) == [e + [a[0]]] + Extend(e, a[1..]);
      assert Extend(e, b) == Extend(e, l) + [e + [a[0]]] + Extend(e, r);
      assert Extend(e, l + r) == Extend(e, l) + Extend(e, r);
    }
  }

  lemma {:induction false} ProductBagRight(L: seq<Joined>, a: seq<Row>, b: seq<Row>)
    requires Reordered(a, b)
    ensures Reordered(Product(L, a), Product(L, b))
  {
    if L != [] {
      ExtendBag(L[0], a, b);
      ProductBagRight(L[1..], a, b);
    }
  }

  lemma {:induction false} ProductBagLeft(L: seq<Joined>, M: seq<Joined>, rows: seq<Row>)
    requires Reordered(L, M)
    ensures Reordered(Product(L, rows), Product(M, rows))
  {
    if L == [] {
      SameMembers(L, M);
    } else {
      var i := TakeOut(L, M);
      var l, r := M[..i], M[i + 1..];
      ProductBagLeft(L[1..], l + r, rows);
      ProductConcat(l, r, rows);
      ProductConcat(l + [L[0]], r, rows);
      ProductConcat(l, [L[0]], rows);
      ProductOne(L[0], rows);
    }
  }

  lemma ProductOne(e: Joined, rows: seq<Row>)
    ensures Product([e], rows) == Extend(e, rows)
  {
    assert [e][1..] == [];
  }

  lemma {:induction false} KeepBag(s: Schemas, conds: seq<Conjunct>, L: seq<Joined>, M: seq<Joined>)
    requires Reordered(L, M) && ConjunctsOk(s, conds) && forall e :: e in L ==> JoinedOk(s, e)
    ensures forall e :: e in M ==> JoinedOk(s, e)
    ensures Reordered(Keep(s, conds, L), Keep(s, conds, M))
  {
    hide EvalAll, JoinedOk, ConjunctsOk, Keep;
    SameMembers(L, M);
    if L != [] {
      var i := TakeOut(L, M);
      var l, r := M[..i], M[i + 1..];
      KeepBag(s, conds, L[1..], l + r);
      assert forall e :: e in l || e in r || e in [L[0]] ==> e in M;
      KeepConcat(s, conds, l, r);
      KeepConcat(s, conds, l + [L[0]], r);
      KeepConcat(s, conds, l, [L[0]]);
      KeepOne(s, conds, L[0], []);
      KeepOne(s, conds, L[0], L[1..]);
      KeepNone(s, conds);
      BagOne(Keep(s, conds, l), if EvalAll(s, conds, L[0]) then [L[0]] else [], Keep(s, conds, r), Keep(s, conds, L[1..]));
      assert [L[0]] + L[1..] == L && [L[0]] + [] == [L[0]];
    }
  }

  lemma BagOne<T>(a: seq<T>, x: seq<T>, b: seq<T>, c: seq<T>)
    requires Reordered(c, a + b)
    ensures Reordered(x + c, a + x + b) && [] + c == c
  {
  }

  /** Joining reordered inputs gives the same bag of rows. */
  lemma JoinBag(s: Schemas, conds: seq<Conjunct>, n: nat, L: seq<Joined>, M: seq<Joined>, a: seq<Row>, b: seq<Row>)
    requires ConjunctsOk(s, conds) && AllJoined(s, L, n) && TableRowsOk(s, n, a) && Reordered(L, M) && Reordered(a, b)
    ensures AllJoined(s, Product(L, a), n + 1) && AllJoined(s, Product(M, b), n + 1)
    ensures Reordered(Keep(s, conds, Product(L, a)), Keep(s, conds, Product(M, b)))
  {
    hide EvalAll, JoinedOk, ConjunctsOk, Product, Keep, TableRowsOk;
    ProductOk(s, L, a, n);
    ProductBagRight(L, a, b);
    ProductBagLeft(L, M, b);
    SameMembers(Product(L, a), Product(M, b));
    KeepBag(s, conds, Product(L, a), Product(M, b));
  }
}
