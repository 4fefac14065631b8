/**
  Whole runs of the index: what any sequence of insertions, deletions and lookups leaves behind,
  read off the pages themselves by descending from the root and by following the leaf ring.
  */
module IndexRuns {
  import opened Sequences
  import opened IndexPages
  import opened IndexTree
  import opened IndexShape
  import opened IndexHandle

  datatype Op = Insert(key: int, rid: Rid) | Delete(key: int) | Lookup(key: int)

  /** The answer a map gives to an operation: whether the key is there beforehand. */
  function Present(op: Op, m: map<int, Rid>): bool { op.key in m }

  function Apply(op: Op, m: map<int, Rid>): map<int, Rid> {
    match op
    case Insert(k, r) => if k in m then m else m[k := r]
    case Delete(k) => m - {k}
    case Lookup(_) => m
  }

  function Replay(ops: seq<Op>, m: map<int, Rid>): map<int, Rid> {
    if ops == [] then m else Apply(ops[|ops| - 1], Replay(ops[..|ops| - 1], m))
  }

  /** One operation; deletions and lookups report whether the key was there. */
  method Step(ih: Handle, op: Op) returns (answer: bool)
    requires ih.Valid()
    modifies ih
    ensures ih.Valid() && ih.Contents() == Apply(op, old(ih.Contents()))
    ensures !op.Insert? ==> answer == Present(op, old(ih.Contents()))
  {
    hide Shape, ToMap, Entries, Listed;
    answer := true;
    match op {
      case Insert(k, r) =>
        var leaf := ih.InsertEntry(k, r);
      case Delete(k) =>
        answer := ih.DeleteEntry(k);
      case Lookup(k) =>
        var rid;
        answer, rid := ih.GetValue(k);
    }
  }

  /** Any run of operations on a new index. */
  method Run(order: int, ops: seq<Op>) returns (ih: Handle, answers: seq<bool>)
    requires order >= 3
    ensures fresh(ih) && ih.Valid() && ih.Contents() == Replay(ops, map[])
    ensures |answers| == |ops|
    ensures forall i :: 0 <= i < |ops| && !ops[i].Insert? ==> answers[i] == Present(ops[i], Replay(ops[..i], map[]))
  {
    hide Shape, ToMap, Entries, Listed, Present, Apply;
    ih := new Handle(order);
    answers := [];
    for n := 0 to |ops|
      invariant fresh(ih) && ih.Valid() && ih.Contents() == Replay(ops[..n], map[])
      invariant |answers| == n
      invariant forall i :: 0 <= i < n && !ops[i].Insert? ==> answers[i] == Present(ops[i], Replay(ops[..i], map[]))
    {
      assert ops[..n + 1][..n] == ops[..n] && ops[..n + 1][n] == ops[n];
      var answer := Step(ih, ops[n]);
      answers := answers + [answer];
    }
    assert ops[..|ops|] == ops;
  }

  // -------------------------------------------------------------------------------------------
  // The leaves as the pages give them

  /** The pages found d levels below p, from left to right. */
  ghost function Leaves(pg: Pages, p: int, d: nat): seq<int>
    decreases d, 0
  {
    if d == 0 then [p] else if p in pg then LeavesBelow(pg, pg[p].entries, d - 1) else []
  }

  ghost function LeavesBelow(pg: Pages, es: seq<Entry>, d: nat): seq<int>
    decreases d, |es| + 1
  {
    if es == [] then [] else Leaves(pg, es[0].rid.pageNo, d) + LeavesBelow(pg, es[1..], d)
  }

  /** The pages d levels below a run of pages. */
  ghost function LeavesUnder(pg: Pages, L: seq<int>, d: nat): seq<int> {
    if L == [] then [] else Leaves(pg, L[0], d) + LeavesUnder(pg, L[1..], d)
  }

  lemma {:induction false} LeavesBelowConcat(pg: Pages, es: seq<Entry>, fs: seq<Entry>, d: nat)
    ensures LeavesBelow(pg, es + fs, d) == LeavesBelow(pg, es, d) + LeavesBelow(pg, fs, d)
  {
    if es == [] {
      assert es + fs == fs;
    } else {
      assert (es + fs)[1..] == es[1..] + fs;
      LeavesBelowConcat(pg, es[1..], fs, d);
    }
  }

  lemma {:induction false} LeavesOfLevel(pg: Pages, L: seq<int>, d: nat)
    requires InPages(pg, L)
    ensures LeavesUnder(pg, L, d + 1) == LeavesBelow(pg, Flat(pg, L), d)
  {
    if L != [] {
      LeavesOfLevel(pg, L[1..], d);
      LeavesBelowConcat(pg, pg[L[0]].entries, Flat(pg, L[1..]), d);
    }
  }

  lemma {:induction false} LeavesNamed(pg: Pages, es: seq<Entry>, L: seq<int>, d: nat)
    requires |es| == |L| && forall i :: 0 <= i < |L| ==> es[i].rid.pageNo == L[i]
    ensures LeavesBelow(pg, es, d) == LeavesUnder(pg, L, d)
  {
    if L != [] {
      LeavesNamed(pg, es[1..], L[1..], d);
    }
  }

  lemma {:induction false} LeavesSelf(pg: Pages, L: seq<int>)
    ensures LeavesUnder(pg, L, 0) == L
  {
    if L != [] {
      LeavesSelf(pg, L[1..]);
    }
  }

  lemma {:induction false} LeavesUnderLevel(t: Tree, h: nat)
    requires Known(t) && LinkedBut(t, -1) && h < |t.levels|
    ensures LeavesUnder(t.pages, t.levels[h], h) == t.levels[0]
  {
    hide Ring, Sorted, Heads, ChildParents;
    if h == 0 {
      LeavesSelf(t.pages, t.levels[0]);
    } else {
      LeavesUnderLevel(t, h - 1);
      LevelFacts(t, h);
      assert LinkedAt(t, h - 1);
      LeavesOfLevel(t.pages, t.levels[h], h - 1);
      LeavesNamed(t.pages, Flat(t.pages, t.levels[h]), t.levels[h - 1], h - 1);
    }
  }

  /** Descending from the root by the same number of steps everywhere gives exactly the leaves. */
  lemma RootReachesLeaves(t: Tree)
    requires Shape(t)
    ensures |t.levels| >= 1 && Leaves(t.pages, t.root, |t.levels| - 1) == t.levels[0]
    ensures forall i :: 0 <= i < |t.levels[0]| ==> t.levels[0][i] in t.pages && t.pages[t.levels[0][i]].isLeaf
  {
    hide Known, LinkedBut, SizedBut;
    RootFacts(t);
    LeavesUnderLevel(t, |t.levels| - 1);
    assert LeavesUnder(t.pages, [t.root], |t.levels| - 1) == Leaves(t.pages, t.root, |t.levels| - 1);
    forall i | 0 <= i < |t.levels[0]| ensures t.levels[0][i] in t.pages && t.pages[t.levels[0][i]].isLeaf {
      PageFacts(t, 0, i);
    }
  }

  // -------------------------------------------------------------------------------------------
  // The leaf ring

  /** The pages met from p on, following next-leaf links until the header page. */
  ghost function Forward(pg: Pages, p: int, steps: nat): seq<int>
    decreases steps
  {
    if steps == 0 || p == LEAF_HEADER_PAGE || p !in pg then [] else [p] + Forward(pg, pg[p].nextLeaf, steps - 1)
  }

  lemma {:induction false} ForwardFrom(t: Tree, i: nat, steps: nat)
    requires Known(t) && i <= |t.levels[0]| && steps >= |t.levels[0]| - i
    ensures Forward(t.pages, if i < |t.levels[0]| then t.levels[0][i] else LEAF_HEADER_PAGE, steps) == t.levels[0][i..]
    decreases |t.levels[0]| - i
  {
    hide Sorted, Flat;
    if i < |t.levels[0]| {
      PageFacts(t, 0, i);
      assert RingAt(t.pages, t.levels[0], i);
      ForwardFrom(t, i + 1, steps - 1);
    }
  }

  /** From page 2 the next-leaf links visit every leaf of the tree once, in key order, and then reach
      the header page; the previous-leaf links undo them, also across the header page. */
  lemma LeafRing(t: Tree, steps: nat)
    requires Shape(t) && |t.levels| >= 1 && steps >= |t.levels[0]|
    ensures Forward(t.pages, INIT_ROOT_PAGE, steps) == Leaves(t.pages, t.root, |t.levels| - 1)
    ensures var L := Forward(t.pages, INIT_ROOT_PAGE, steps);
            && NoDup(L) && |L| > 0 && L[|L| - 1] == t.lastLeaf && InPages(t.pages, L) && Sorted(Flat(t.pages, L))
            && t.pages[t.lastLeaf].nextLeaf == LEAF_HEADER_PAGE
            && (forall p :: p in L || p == LEAF_HEADER_PAGE ==>
                  && p in t.pages && t.pages[p].nextLeaf in t.pages && t.pages[p].prevLeaf in t.pages
                  && t.pages[t.pages[p].nextLeaf].prevLeaf == p && t.pages[t.pages[p].prevLeaf].nextLeaf == p)
  {
    RootReachesLeaves(t);
    hide LinkedBut, SizedBut, Rooted, Sorted, Flat, Leaves, Forward;
    LevelFacts(t, 0);
    ForwardFrom(t, 0, steps);
    var L := t.levels[0];
    assert L[0..] == L;
    forall p | p in L
      ensures && p in t.pages && t.pages[p].nextLeaf in t.pages && t.pages[p].prevLeaf in t.pages
              && t.pages[t.pages[p].nextLeaf].prevLeaf == p && t.pages[t.pages[p].prevLeaf].nextLeaf == p
    {
      var k :| 0 <= k < |L| && L[k] == p;
      assert RingAt(t.pages, L, k);
      if k > 0 { assert RingAt(t.pages, L, k - 1); }
      if k + 1 < |L| { assert RingAt(t.pages, L, k + 1); }
    }
    assert RingAt(t.pages, L, 0) && RingAt(t.pages, L, |L| - 1);
  }
}
