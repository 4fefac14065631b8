/**
  Structural steps of deletion: borrowing an entry from a sibling, merging two siblings and
  replacing a root that has a single child.
  */
module IndexRemoval {
  import opened Sequences
  import opened IndexPages
  import opened IndexTree
  import opened IndexShape

  /** Node i of level h may be one entry short; all else is well. */
  ghost predicate Underfull(t: Tree, h: nat, i: nat) {
    && Known(t) && Rooted(t) && LinkedBut(t, -1)
    && h < |t.levels| && i < |t.levels[h]| && SizedBut(t, t.levels[h][i])
    && var p := t.levels[h][i];
       && |t.pages[p].entries| <= t.order
       && (p != t.root ==> MinSize(t.order) - 1 <= |t.pages[p].entries|)
       && (p == t.root && !t.pages[p].isLeaf ==> 1 <= |t.pages[p].entries|)
  }

  /** Right after page l of the lower level comes, in the same parent, page l + 1. */
  lemma Siblings(pg: Pages, Up: seq<int>, Down: seq<int>, l: nat, u: nat, j: nat)
    requires Names(pg, Up, Down) && l < |Down| && At(pg, Up, l, u, j) && j + 1 < |pg[Up[u]].entries|
    ensures l + 1 < |Down| && At(pg, Up, l + 1, u, j + 1)
    ensures pg[Up[u]].entries[j].rid.pageNo == Down[l] && pg[Up[u]].entries[j + 1].rid.pageNo == Down[l + 1]
  {
    Position(pg, Up, u, j + 1);
  }

  // -------------------------------------------------------------------------------------------
  // Borrowing

  ghost function BorrowLeft(left: seq<Entry>, right: seq<Entry>, toLeft: bool): seq<Entry>
    requires left != [] && right != []
  {
    if toLeft then InsertAt(left, |left|, right[0]) else RemoveAt(left, |left| - 1)
  }

  ghost function BorrowRight(left: seq<Entry>, right: seq<Entry>, toLeft: bool): seq<Entry>
    requires left != [] && right != []
  {
    if toLeft then RemoveAt(right, 0) else InsertAt(right, 0, left[|left| - 1])
  }

  ghost function Borrowed(left: seq<Entry>, right: seq<Entry>, toLeft: bool): int
    requires left != [] && right != []
  {
    if toLeft then right[0].rid.pageNo else left[|left| - 1].rid.pageNo
  }

  /** The pages below two siblings, one of which hands an entry to the other. */
  lemma LinkBorrow(pg: Pages, pg': Pages, U: seq<int>, D: seq<int>, l: nat, toLeft: bool)
    requires Link(pg, U, D) && NoDup(U) && NoDup(D) && l + 1 < |U|
    requires InPages(pg', U) && InPages(pg', D) && SameEntries(pg, pg', D)
    requires pg[U[l]].entries != [] && pg[U[l + 1]].entries != []
    requires forall k :: 0 <= k < |U| && k != l && k != l + 1 ==> pg'[U[k]].entries == pg[U[k]].entries
    requires pg'[U[l]].entries == BorrowLeft(pg[U[l]].entries, pg[U[l + 1]].entries, toLeft)
    requires pg'[U[l + 1]].entries == BorrowRight(pg[U[l]].entries, pg[U[l + 1]].entries, toLeft)
    requires forall k :: 0 <= k < |D| ==>
               pg'[D[k]].parent == if D[k] == Borrowed(pg[U[l]].entries, pg[U[l + 1]].entries, toLeft)
                                   then U[if toLeft then l else l + 1] else pg[D[k]].parent
    ensures Link(pg', U, D)
  {
    var left, right := pg[U[l]].entries, pg[U[l + 1]].entries;
    BorrowKeeps(left, right, toLeft);
    FlatShift(pg, pg', U, l);
    assert Heads(pg', D) == Heads(pg, D);
    var mv, mk := if toLeft then l + 1 else l, if toLeft then 0 else |left| - 1;
    forall v, k | 0 <= v < |U| && 0 <= k < |pg'[U[v]].entries|
      ensures pg'[U[v]].entries[k].rid.pageNo in pg' && pg'[pg'[U[v]].entries[k].rid.pageNo].parent == U[v]
    {
      var v0 := if v == l && toLeft && k == |left| then l + 1 else if v == l + 1 && !toLeft && k == 0 then l else v;
      var k0 := if v == l && toLeft && k == |left| then 0
                else if v == l + 1 && !toLeft && k == 0 then |left| - 1
                else if v == l + 1 then (if toLeft then k + 1 else k - 1)
                else k;
      assert pg'[U[v]].entries[k] == pg[U[v0]].entries[k0];
      Position(pg, U, v0, k0);
      if pg[U[v0]].entries[k0].rid.pageNo == pg[U[mv]].entries[mk].rid.pageNo {
        NamedOnce(pg, U, D, v0, k0, mv, mk);
      }
    }
  }

  lemma BorrowKeeps(left: seq<Entry>, right: seq<Entry>, toLeft: bool)
    requires left != [] && right != []
    ensures BorrowLeft(left, right, toLeft) + BorrowRight(left, right, toLeft) == left + right
  {
  }

  /** Page l + 1 of level h gives its first entry to page l, or takes page l's last one; the parent,
      page u of the level above, has entries j and j + 1 for them. */
  ghost predicate BorrowOf(t: Tree, t': Tree, h: nat, l: nat, u: nat, j: nat, toLeft: bool) {
    && h + 1 < |t.levels| && l + 1 < |t.levels[h]| && u < |t.levels[h + 1]|
    && var L, R, q := t.levels[h][l], t.levels[h][l + 1], t.levels[h + 1][u];
       && L in t.pages && R in t.pages && q in t.pages && q != L && q != R && L != R
       && j + 1 < |t.pages[q].entries|
       && var left, right, es := t.pages[L].entries, t.pages[R].entries, t.pages[q].entries;
          && left != [] && right != [] && BorrowRight(left, right, toLeft) != []
          && t' == t.(pages := t'.pages) && t'.pages.Keys == t.pages.Keys
          && forall p :: p in t.pages ==>
               && t'.pages[p].isLeaf == t.pages[p].isLeaf && SameLinks(t.pages[p], t'.pages[p])
               && t'.pages[p].parent == (if h > 0 && p == Borrowed(left, right, toLeft)
                                         then (if toLeft then L else R) else t.pages[p].parent)
               && t'.pages[p].entries == (if p == L then BorrowLeft(left, right, toLeft)
                                          else if p == R then BorrowRight(left, right, toLeft)
                                          else if p == q then es[j + 1 := Entry(BorrowRight(left, right, toLeft)[0].key, es[j + 1].rid)]
                                          else t.pages[p].entries)
  }

  lemma BorrowFlat(t: Tree, t': Tree, h: nat, l: nat, u: nat, j: nat, toLeft: bool)
    requires Known(t) && BorrowOf(t, t', h, l, u, j, toLeft)
    ensures InPages(t'.pages, t.levels[h]) && Flat(t'.pages, t.levels[h]) == Flat(t.pages, t.levels[h])
  {
    assert LevelKnown(t.pages, t.height, t.levels[h], h);
    assert LevelKnown(t.pages, t.height, t.levels[h + 1], h + 1);
    BorrowKeeps(t.pages[t.levels[h][l]].entries, t.pages[t.levels[h][l + 1]].entries, toLeft);
    FlatShift(t.pages, t'.pages, t.levels[h], l);
  }

  lemma BorrowKnown(t: Tree, t': Tree, h: nat, l: nat, u: nat, j: nat, toLeft: bool)
    requires Known(t) && BorrowOf(t, t', h, l, u, j, toLeft)
    ensures Known(t') && Entries(t') == Entries(t)
  {
    assert LevelKnown(t.pages, t.height, t.levels[0], 0);
    assert LevelKnown(t.pages, t.height, t.levels[h], h);
    assert LevelKnown(t.pages, t.height, t.levels[h + 1], h + 1);
    if h == 0 {
      BorrowFlat(t, t', h, l, u, j, toLeft);
    } else {
      FlatFrame(t.pages, t'.pages, t.levels[0]);
    }
    RingFrame(t.pages, t'.pages, t.levels[0], t.lastLeaf);
    forall g | 0 <= g < |t'.levels| ensures LevelKnown(t'.pages, t'.height, t'.levels[g], g) {
      LevelFrame(t.pages, t.height, t'.pages, t'.height, t.levels[g], g);
    }
  }

  lemma BorrowParentKept(t: Tree, t': Tree, h: nat, l: nat, u: nat, j: nat, toLeft: bool, g: nat, k: nat)
    requires Known(t) && LinkedBut(t, -1) && BorrowOf(t, t', h, l, u, j, toLeft)
    requires g < |t.levels| && g + 1 != h && k < |t.levels[g]|
    ensures t.levels[g][k] in t.pages && t.levels[g][k] in t'.pages
    ensures t'.pages[t.levels[g][k]].parent == t.pages[t.levels[g][k]].parent
  {
    assert LevelKnown(t.pages, t.height, t.levels[g], g);
    if h > 0 {
      assert LinkedAt(t, h - 1);
      var mv := if toLeft then l + 1 else l;
      var mk := if toLeft then 0 else |t.pages[t.levels[h][l]].entries| - 1;
      NamedBelow(t.pages, t.height, t.levels[h], t.levels[h - 1], h - 1, mv, mk);
    }
  }

  lemma BorrowLinkHere(t: Tree, t': Tree, h: nat, l: nat, u: nat, j: nat, toLeft: bool)
    requires Known(t) && LinkedBut(t, -1) && BorrowOf(t, t', h, l, u, j, toLeft)
    requires At(t.pages, t.levels[h + 1], l, u, j)
    requires BorrowLeft(t.pages[t.levels[h][l]].entries, t.pages[t.levels[h][l + 1]].entries, toLeft) != []
    ensures LinkedAt(t', h)
  {
    hide At, Names, Ring, Sorted, Flat, Heads;
    var pg, pg', U, D := t.pages, t'.pages, t.levels[h + 1], t.levels[h];
    assert LinkedAt(t, h);
    assert LevelKnown(pg, t.height, D, h);
    assert LevelKnown(pg, t.height, U, h + 1);
    Siblings(pg, U, D, l, u, j);
    BorrowHeads(t, t', h, l, u, j, toLeft);
    LinkRekey(pg, pg', U, D, l + 1, u, j + 1);
  }

  lemma BorrowHeads(t: Tree, t': Tree, h: nat, l: nat, u: nat, j: nat, toLeft: bool)
    requires Known(t) && LinkedBut(t, -1) && BorrowOf(t, t', h, l, u, j, toLeft)
    requires BorrowLeft(t.pages[t.levels[h][l]].entries, t.pages[t.levels[h][l + 1]].entries, toLeft) != []
    ensures InPages(t.pages, t.levels[h]) && Inhabited(t.pages, t.levels[h])
    ensures InPages(t'.pages, t.levels[h]) && Inhabited(t'.pages, t.levels[h])
    ensures forall k :: 0 <= k < |t.levels[h]| ==>
              && (k != l + 1 ==> t'.pages[t.levels[h][k]].entries[0].key == t.pages[t.levels[h][k]].entries[0].key)
              && t'.pages[t.levels[h][k]].parent == t.pages[t.levels[h][k]].parent
  {
    assert LinkedAt(t, h);
    assert LevelKnown(t.pages, t.height, t.levels[h], h);
    assert LevelKnown(t.pages, t.height, t.levels[h + 1], h + 1);
    forall k | 0 <= k < |t.levels[h]| ensures t'.pages[t.levels[h][k]].parent == t.pages[t.levels[h][k]].parent {
      BorrowParentKept(t, t', h, l, u, j, toLeft, h, k);
    }
  }

  lemma BorrowLinkBelow(t: Tree, t': Tree, h: nat, l: nat, u: nat, j: nat, toLeft: bool)
    requires Known(t) && LinkedBut(t, -1) && BorrowOf(t, t', h, l, u, j, toLeft) && h > 0
    ensures LinkedAt(t', h - 1)
  {
    assert LinkedAt(t, h - 1);
    assert LevelKnown(t.pages, t.height, t.levels[h - 1], h - 1);
    assert LevelKnown(t.pages, t.height, t.levels[h], h);
    assert LevelKnown(t.pages, t.height, t.levels[h + 1], h + 1);
    LinkBorrow(t.pages, t'.pages, t.levels[h], t.levels[h - 1], l, toLeft);
  }

  lemma BorrowLinkElsewhere(t: Tree, t': Tree, h: nat, l: nat, u: nat, j: nat, toLeft: bool, g: nat)
    requires Known(t) && LinkedBut(t, -1) && BorrowOf(t, t', h, l, u, j, toLeft)
    requires g + 1 < |t.levels| && g + 1 != h && g != h
    ensures LinkedAt(t', g)
  {
    hide Ring, Flat, Sorted, Heads;
    assert LinkedAt(t, g);
    assert LevelKnown(t.pages, t.height, t.levels[g], g);
    assert LevelKnown(t.pages, t.height, t.levels[g + 1], g + 1);
    assert LevelKnown(t.pages, t.height, t.levels[h], h);
    assert LevelKnown(t.pages, t.height, t.levels[h + 1], h + 1);
    forall k | 0 <= k < |t.levels[g]| ensures t'.pages[t.levels[g][k]].parent == t.pages[t.levels[g][k]].parent {
      BorrowParentKept(t, t', h, l, u, j, toLeft, g, k);
    }
    LinkFrame(t.pages, t'.pages, t.levels[g + 1], t.levels[g]);
  }

  lemma BorrowLinked(t: Tree, t': Tree, h: nat, l: nat, u: nat, j: nat, toLeft: bool)
    requires Known(t) && LinkedBut(t, -1) && BorrowOf(t, t', h, l, u, j, toLeft)
    requires At(t.pages, t.levels[h + 1], l, u, j)
    requires BorrowLeft(t.pages[t.levels[h][l]].entries, t.pages[t.levels[h][l + 1]].entries, toLeft) != []
    ensures LinkedBut(t', -1)
  {
    hide Known, LinkedAt, At;
    BorrowLinkHere(t, t', h, l, u, j, toLeft);
    if h > 0 {
      BorrowLinkBelow(t, t', h, l, u, j, toLeft);
    }
    forall g | 0 <= g < |t'.levels| - 1 && g != h && g + 1 != h ensures LinkedAt(t', g) {
      BorrowLinkElsewhere(t, t', h, l, u, j, toLeft, g);
    }
  }

  lemma BorrowSizes(t: Tree, t': Tree, h: nat, l: nat, u: nat, j: nat, toLeft: bool)
    requires Known(t) && Rooted(t) && BorrowOf(t, t', h, l, u, j, toLeft)
    requires SizedBut(t, t.levels[h][if toLeft then l else l + 1])
    requires var n := |t.pages[t.levels[h][if toLeft then l else l + 1]].entries|;
             var s := |t.pages[t.levels[h][if toLeft then l + 1 else l]].entries|;
             n == MinSize(t.order) - 1 && n + s >= 2 * MinSize(t.order)
    ensures SizedBut(t', NO_PAGE)
  {
    var L, R := t.levels[h][l], t.levels[h][l + 1];
    assert LevelKnown(t.pages, t.height, t.levels[h], h);
    assert LevelKnown(t.pages, t.height, t.levels[|t.levels| - 1], |t.levels| - 1);
    assert t.levels[|t.levels| - 1][0] == t.root;
    assert L != t.root && R != t.root;
    assert SizeOk(t, t.levels[h][if toLeft then l + 1 else l]);
    assert SizeOk(t', L) && SizeOk(t', R);
    forall g, k | 0 <= g < |t'.levels| && 0 <= k < |t'.levels[g]| ensures SizeOk(t', t'.levels[g][k]) {
      var p := t.levels[g][k];
      if p != L && p != R {
        assert SizeOk(t, p);
      }
    }
  }

  lemma BorrowStep(t: Tree, t': Tree, h: nat, i: nat, l: nat, u: nat, j: nat, toLeft: bool)
    requires Underfull(t, h, i) && BorrowOf(t, t', h, l, u, j, toLeft)
    requires i == if toLeft then l else l + 1
    requires At(t.pages, t.levels[h + 1], l, u, j)
    requires var n := |t.pages[t.levels[h][i]].entries|;
             var s := |t.pages[t.levels[h][if toLeft then l + 1 else l]].entries|;
             n < MinSize(t.order) && n + s >= 2 * MinSize(t.order)
    ensures Shape(t') && Entries(t') == Entries(t)
  {
    hide LinkedBut, At, Ring, Sorted, Flat, BorrowRight, Borrowed;
    assert LevelKnown(t.pages, t.height, t.levels[h], h);
    assert LevelKnown(t.pages, t.height, t.levels[|t.levels| - 1], |t.levels| - 1);
    assert t.levels[|t.levels| - 1][0] == t.root;
    assert t.levels[h][i] != t.root;
    BorrowKnown(t, t', h, l, u, j, toLeft);
    BorrowLinked(t, t', h, l, u, j, toLeft);
    BorrowSizes(t, t', h, l, u, j, toLeft);
    BorrowParentKept(t, t', h, l, u, j, toLeft, |t.levels| - 1, 0);
  }

  // -------------------------------------------------------------------------------------------
  // Merging

  lemma LinkMerge(pg: Pages, pg': Pages, U: seq<int>, D: seq<int>, l: nat)
    requires Link(pg, U, D) && NoDup(D) && l + 1 < |U|
    requires InPages(pg', RemoveAt(U, l + 1)) && InPages(pg', D) && SameEntries(pg, pg', D)
    requires forall k :: 0 <= k < |U| && k != l && k != l + 1 ==> U[k] in pg' && pg'[U[k]].entries == pg[U[k]].entries
    requires U[l] in pg' && pg'[U[l]].entries == pg[U[l]].entries + pg[U[l + 1]].entries
    requires forall k :: 0 <= k < |D| ==>
               pg'[D[k]].parent == if Named(pg[U[l + 1]].entries, D[k]) then U[l] else pg[D[k]].parent
    ensures Link(pg', RemoveAt(U, l + 1), D)
  {
    var left, right, U' := pg[U[l]].entries, pg[U[l + 1]].entries, RemoveAt(U, l + 1);
    FlatMerge(pg, pg', U, l);
    assert Heads(pg', D) == Heads(pg, D);
    forall v, k | 0 <= v < |U'| && 0 <= k < |pg'[U'[v]].entries|
      ensures pg'[U'[v]].entries[k].rid.pageNo in pg' && pg'[pg'[U'[v]].entries[k].rid.pageNo].parent == U'[v]
    {
      var v0 := if v < l then v else if v == l then (if k < |left| then l else l + 1) else v + 1;
      var k0 := if v == l && k >= |left| then k - |left| else k;
      assert pg'[U'[v]].entries[k] == pg[U[v0]].entries[k0];
      Position(pg, U, v0, k0);
      LinkMergeChild(pg, U, D, l + 1, v0, k0);
    }
  }

  lemma LinkMergeChild(pg: Pages, U: seq<int>, D: seq<int>, r: nat, v: nat, k: nat)
    requires Names(pg, U, D) && NoDup(D) && r < |U| && v < |U| && k < |pg[U[v]].entries|
    ensures Named(pg[U[r]].entries, pg[U[v]].entries[k].rid.pageNo) <==> v == r
  {
    var es, c := pg[U[r]].entries, pg[U[v]].entries[k].rid.pageNo;
    if Named(es, c) {
      var j :| 0 <= j < |es| && es[j].rid.pageNo == c;
      NamedOnce(pg, U, D, v, k, r, j);
    }
  }

  /** Page l of level h takes over all entries of page l + 1, which leaves the tree. */
  ghost predicate MergeOf(t: Tree, t': Tree, h: nat, l: nat, u: nat, j: nat) {
    && h + 1 < |t.levels| && l + 1 < |t.levels[h]| && u < |t.levels[h + 1]|
    && var L, R, q := t.levels[h][l], t.levels[h][l + 1], t.levels[h + 1][u];
       && L in t.pages && R in t.pages && q in t.pages && q != L && q != R && L != R
       && j + 1 < |t.pages[q].entries| && t.pages[L].entries != []
       && t'.order == t.order && t'.root == t.root && t'.numPages == t.numPages
       && t'.levels == t.levels[h := RemoveAt(t.levels[h], l + 1)] && t'.height == t.height
       && t'.pages.Keys == t.pages.Keys - {R}
       && Ring(t'.pages, t'.levels[0], t'.lastLeaf)
       && forall p :: p in t'.pages ==>
            && t'.pages[p].isLeaf == t.pages[p].isLeaf
            && t'.pages[p].parent == (if h > 0 && Named(t.pages[R].entries, p) then L else t.pages[p].parent)
            && t'.pages[p].entries == (if p == L then t.pages[L].entries + t.pages[R].entries
                                       else if p == q then RemoveAt(t.pages[q].entries, j + 1)
                                       else t.pages[p].entries)
  }

  lemma LevelRemove(pg: Pages, height: map<int, nat>, pg': Pages, L: seq<int>, h: nat, pos: nat)
    requires LevelKnown(pg, height, L, h) && pos < |L| && |L| > 1
    requires forall i :: 0 <= i < |L| && i != pos ==> L[i] in pg' && pg'[L[i]].isLeaf == pg[L[i]].isLeaf
    ensures LevelKnown(pg', height, RemoveAt(L, pos), h)
  {
    var L' := RemoveAt(L, pos);
    assert forall i :: 0 <= i < |L'| ==> L'[i] == L[if i < pos then i else i + 1];
  }

  lemma MergeLevels(t: Tree, t': Tree, h: nat, l: nat, u: nat, j: nat)
    requires Known(t) && MergeOf(t, t', h, l, u, j)
    ensures Levels(t'.pages, t'.height, t'.levels)
  {
    assert LevelKnown(t.pages, t.height, t.levels[h], h);
    forall g | 0 <= g < |t'.levels| ensures LevelKnown(t'.pages, t'.height, t'.levels[g], g) {
      assert LevelKnown(t.pages, t.height, t.levels[g], g);
      if g == h {
        LevelRemove(t.pages, t.height, t'.pages, t.levels[h], h, l + 1);
      }
    }
  }

  lemma MergeKnown(t: Tree, t': Tree, h: nat, l: nat, u: nat, j: nat)
    requires Known(t) && MergeOf(t, t', h, l, u, j)
    ensures Known(t') && Entries(t') == Entries(t)
  {
    MergeLevels(t, t', h, l, u, j);
    assert LevelKnown(t.pages, t.height, t.levels[0], 0);
    assert LevelKnown(t.pages, t.height, t.levels[h], h);
    assert LevelKnown(t.pages, t.height, t.levels[h + 1], h + 1);
    assert LevelKnown(t'.pages, t'.height, t'.levels[0], 0);
    if h == 0 {
      FlatMerge(t.pages, t'.pages, t.levels[0], l);
    } else {
      FlatFrame(t.pages, t'.pages, t.levels[0]);
    }
  }

  lemma MergeParentKept(t: Tree, t': Tree, h: nat, l: nat, u: nat, j: nat, g: nat, k: nat)
    requires Known(t) && LinkedBut(t, -1) && MergeOf(t, t', h, l, u, j)
    requires g < |t.levels| && g + 1 != h && k < |t.levels[g]| && t.levels[g][k] in t'.pages
    ensures t'.pages[t.levels[g][k]].parent == t.pages[t.levels[g][k]].parent
  {
    assert LevelKnown(t.pages, t.height, t.levels[g], g);
    var p, es := t.levels[g][k], t.pages[t.levels[h][l + 1]].entries;
    if h > 0 && Named(es, p) {
      var m :| 0 <= m < |es| && es[m].rid.pageNo == p;
      assert LinkedAt(t, h - 1);
      NamedBelow(t.pages, t.height, t.levels[h], t.levels[h - 1], h - 1, l + 1, m);
    }
  }

  lemma MergeLinkHere(t: Tree, t': Tree, h: nat, l: nat, u: nat, j: nat)
    requires Known(t) && LinkedBut(t, -1) && MergeOf(t, t', h, l, u, j)
    requires At(t.pages, t.levels[h + 1], l, u, j)
    ensures LinkedAt(t', h)
  {
    hide At, Names, Ring, Sorted, Flat, Heads;
    var pg, pg', U, D := t.pages, t'.pages, t.levels[h + 1], t.levels[h];
    assert LinkedAt(t, h);
    assert LevelKnown(pg, t.height, D, h);
    assert LevelKnown(pg, t.height, U, h + 1);
    Siblings(pg, U, D, l, u, j);
    MergeHeads(t, t', h, l, u, j);
    LinkRemove(pg, pg', U, D, l + 1, u, j + 1);
  }

  lemma MergeHeads(t: Tree, t': Tree, h: nat, l: nat, u: nat, j: nat)
    requires Known(t) && LinkedBut(t, -1) && MergeOf(t, t', h, l, u, j)
    ensures InPages(t.pages, t.levels[h]) && Inhabited(t.pages, t.levels[h])
    ensures InPages(t'.pages, RemoveAt(t.levels[h], l + 1)) && Inhabited(t'.pages, RemoveAt(t.levels[h], l + 1))
    ensures forall k :: 0 <= k < |t.levels[h]| && k != l + 1 ==>
              && t.levels[h][k] in t'.pages && |t'.pages[t.levels[h][k]].entries| > 0
              && t'.pages[t.levels[h][k]].entries[0].key == t.pages[t.levels[h][k]].entries[0].key
              && t'.pages[t.levels[h][k]].parent == t.pages[t.levels[h][k]].parent
  {
    assert LinkedAt(t, h);
    assert LevelKnown(t.pages, t.height, t.levels[h], h);
    assert LevelKnown(t.pages, t.height, t.levels[h + 1], h + 1);
    forall k | 0 <= k < |t.levels[h]| && k != l + 1
      ensures t.levels[h][k] in t'.pages && t'.pages[t.levels[h][k]].parent == t.pages[t.levels[h][k]].parent
    {
      MergeParentKept(t, t', h, l, u, j, h, k);
    }
  }

  lemma MergeLinkBelow(t: Tree, t': Tree, h: nat, l: nat, u: nat, j: nat)
    requires Known(t) && LinkedBut(t, -1) && MergeOf(t, t', h, l, u, j) && h > 0
    ensures LinkedAt(t', h - 1)
  {
    hide Ring, Flat, Sorted, Heads;
    assert LinkedAt(t, h - 1);
    assert LevelKnown(t.pages, t.height, t.levels[h - 1], h - 1);
    assert LevelKnown(t.pages, t.height, t.levels[h], h);
    assert LevelKnown(t.pages, t.height, t.levels[h + 1], h + 1);
    LinkMerge(t.pages, t'.pages, t.levels[h], t.levels[h - 1], l);
  }

  lemma MergeLinkElsewhere(t: Tree, t': Tree, h: nat, l: nat, u: nat, j: nat, g: nat)
    requires Known(t) && LinkedBut(t, -1) && MergeOf(t, t', h, l, u, j)
    requires g + 1 < |t.levels| && g + 1 != h && g != h
    ensures LinkedAt(t', g)
  {
    hide Ring, Flat, Sorted, Heads;
    assert LinkedAt(t, g);
    assert LevelKnown(t.pages, t.height, t.levels[g], g);
    assert LevelKnown(t.pages, t.height, t.levels[g + 1], g + 1);
    assert LevelKnown(t.pages, t.height, t.levels[h], h);
    assert LevelKnown(t.pages, t.height, t.levels[h + 1], h + 1);
    forall k | 0 <= k < |t.levels[g]| ensures t'.pages[t.levels[g][k]].parent == t.pages[t.levels[g][k]].parent {
      MergeParentKept(t, t', h, l, u, j, g, k);
    }
    LinkFrame(t.pages, t'.pages, t.levels[g + 1], t.levels[g]);
  }

  lemma MergeLinked(t: Tree, t': Tree, h: nat, l: nat, u: nat, j: nat)
    requires Known(t) && LinkedBut(t, -1) && MergeOf(t, t', h, l, u, j)
    requires At(t.pages, t.levels[h + 1], l, u, j)
    ensures LinkedBut(t', -1)
  {
    hide Known, LinkedAt, At, Ring;
    MergeLinkHere(t, t', h, l, u, j);
    if h > 0 {
      MergeLinkBelow(t, t', h, l, u, j);
    }
    forall g | 0 <= g < |t'.levels| - 1 && g != h && g + 1 != h ensures LinkedAt(t', g) {
      MergeLinkElsewhere(t, t', h, l, u, j, g);
    }
  }

  lemma MergeSizeHere(t: Tree, t': Tree, h: nat, i: nat, l: nat, u: nat, j: nat)
    requires Underfull(t, h, i) && MergeOf(t, t', h, l, u, j) && (i == l || i == l + 1)
    requires |t.pages[t.levels[h][i]].entries| < MinSize(t.order)
    requires |t.pages[t.levels[h][l]].entries| + |t.pages[t.levels[h][l + 1]].entries| < 2 * MinSize(t.order)
    ensures SizeOk(t', t.levels[h][l])
    ensures var q := t.levels[h + 1][u];
            |t'.pages[q].entries| <= t.order && SizeOk(t, q) && |t'.pages[q].entries| == |t.pages[q].entries| - 1
  {
    hide Ring, LinkedBut, Sorted, Flat, Levels;
    PageFacts(t, h, l);
    PageFacts(t, h, l + 1);
    PageFacts(t, h + 1, u);
    RootIsTop(t, h, l);
    RootIsTop(t, h, l + 1);
    assert SizeOk(t, t.levels[h + 1][u]);
    assert SizeOk(t, t.levels[h][if i == l then l + 1 else l]);
  }

  lemma MergeSizes(t: Tree, t': Tree, h: nat, i: nat, l: nat, u: nat, j: nat)
    requires Underfull(t, h, i) && MergeOf(t, t', h, l, u, j) && (i == l || i == l + 1)
    requires |t.pages[t.levels[h][i]].entries| < MinSize(t.order)
    requires |t.pages[t.levels[h][l]].entries| + |t.pages[t.levels[h][l + 1]].entries| < 2 * MinSize(t.order)
    ensures SizedBut(t', t.levels[h + 1][u])
    ensures var q := t.levels[h + 1][u];
            |t'.pages[q].entries| <= t.order && SizeOk(t, q) && |t'.pages[q].entries| == |t.pages[q].entries| - 1
  {
    hide Known, Rooted, LinkedBut, SizeOk, Ring;
    MergeSizeHere(t, t', h, i, l, u, j);
    forall g, k | 0 <= g < |t'.levels| && 0 <= k < |t'.levels[g]| && t'.levels[g][k] != t.levels[h + 1][u]
      ensures SizeOk(t', t'.levels[g][k])
    {
      var k0 := if g == h && k > l then k + 1 else k;
      assert t'.levels[g][k] == t.levels[g][k0];
      if t.levels[g][k0] == t.levels[h][l + 1] {
        OnlyOnce(t, g, k0, h, l + 1);
      } else if t.levels[g][k0] != t.levels[h][l] {
        assert SizeOk(t, t.levels[g][k0]);
        MergeSizeKept(t, t', h, l, u, j, g, k0);
      }
    }
  }

  lemma MergeSizeKept(t: Tree, t': Tree, h: nat, l: nat, u: nat, j: nat, g: nat, k: nat)
    requires Known(t) && MergeOf(t, t', h, l, u, j) && g < |t.levels| && k < |t.levels[g]|
    requires t.levels[g][k] != t.levels[h][l] && t.levels[g][k] != t.levels[h][l + 1]
    requires t.levels[g][k] != t.levels[h + 1][u] && SizeOk(t, t.levels[g][k])
    ensures SizeOk(t', t.levels[g][k])
  {
    hide Ring, Sorted, Flat;
  }

  lemma MergeRooted(t: Tree, t': Tree, h: nat, l: nat, u: nat, j: nat)
    requires Known(t) && Rooted(t) && LinkedBut(t, -1) && MergeOf(t, t', h, l, u, j)
    ensures Rooted(t')
  {
    hide Known, LinkedBut, Ring;
    RootFacts(t);
    RootIsTop(t, h, l + 1);
    MergeParentKept(t, t', h, l, u, j, |t.levels| - 1, 0);
  }

  lemma MergeStep(t: Tree, t': Tree, h: nat, i: nat, l: nat, u: nat, j: nat)
    requires Underfull(t, h, i) && MergeOf(t, t', h, l, u, j) && (i == l || i == l + 1)
    requires At(t.pages, t.levels[h + 1], l, u, j)
    requires |t.pages[t.levels[h][i]].entries| < MinSize(t.order)
    requires |t.pages[t.levels[h][l]].entries| + |t.pages[t.levels[h][l + 1]].entries| < 2 * MinSize(t.order)
    ensures Underfull(t', h + 1, u) && Entries(t') == Entries(t)
  {
    hide Known, Rooted, LinkedBut, SizedBut, At, Ring;
    MergeKnown(t, t', h, l, u, j);
    MergeLinked(t, t', h, l, u, j);
    MergeSizes(t, t', h, i, l, u, j);
    MergeRooted(t, t', h, l, u, j);
    RootIsTop(t, h + 1, u);
    PageFacts(t, h + 1, u);
  }

  // -------------------------------------------------------------------------------------------
  // A root with a single child

  ghost predicate DropRootOf(t: Tree, t': Tree) {
    && |t.levels| > 1 && t.root in t.pages && |t.pages[t.root].entries| == 1
    && var child := t.pages[t.root].entries[0].rid.pageNo;
       && child in t.pages && child != t.root
       && t' == t.(pages := t'.pages, root := child, levels := t.levels[..|t.levels| - 1])
       && t'.pages.Keys == t.pages.Keys - {t.root}
       && forall p :: p in t'.pages ==>
                        t'.pages[p] == if p == child then t.pages[p].(parent := NO_PAGE) else t.pages[p]
  }

  lemma DropRootTop(t: Tree)
    requires Known(t) && Rooted(t) && LinkedBut(t, -1) && |t.levels| > 1 && |t.pages[t.root].entries| == 1
    ensures t.levels[|t.levels| - 2] == [t.pages[t.root].entries[0].rid.pageNo]
  {
    var top := |t.levels| - 1;
    assert LinkedAt(t, top - 1);
    assert Flat(t.pages, [t.root]) == t.pages[t.root].entries;
    assert t.levels[top - 1] == [t.levels[top - 1][0]];
  }

  lemma DropRootKnown(t: Tree, t': Tree)
    requires Known(t) && Rooted(t) && LinkedBut(t, -1) && DropRootOf(t, t')
    ensures Known(t') && Entries(t') == Entries(t)
  {
    var top := |t.levels| - 1;
    assert LevelKnown(t.pages, t.height, t.levels[top], top);
    assert t.levels[top][0] == t.root;
    forall g | 0 <= g < top ensures LevelKnown(t'.pages, t'.height, t'.levels[g], g) {
      assert LevelKnown(t.pages, t.height, t.levels[g], g);
    }
    assert LevelKnown(t.pages, t.height, t.levels[0], 0);
    assert LEAF_HEADER_PAGE in t'.pages;
    FlatFrame(t.pages, t'.pages, t.levels[0]);
    RingFrame(t.pages, t'.pages, t.levels[0], t.lastLeaf);
  }

  lemma DropRootLinked(t: Tree, t': Tree, g: nat)
    requires Known(t) && Rooted(t) && LinkedBut(t, -1) && DropRootOf(t, t') && g + 1 < |t'.levels|
    ensures LinkedAt(t', g)
  {
    hide Ring, Sorted, Flat, Heads, ChildParents;
    var top := |t.levels| - 1;
    DropRootTop(t);
    assert LinkedAt(t, g);
    assert t.levels[top][0] == t.root;
    assert t.levels[top - 1][0] == t'.root;
    assert LevelKnown(t.pages, t.height, t.levels[g], g);
    assert LevelKnown(t.pages, t.height, t.levels[g + 1], g + 1);
    assert LevelKnown(t.pages, t.height, t.levels[top], top);
    assert LevelKnown(t.pages, t.height, t.levels[top - 1], top - 1);
    LinkFrame(t.pages, t'.pages, t.levels[g + 1], t.levels[g]);
  }

  lemma DropRootSize(t: Tree, t': Tree, i: nat, g: nat, k: nat)
    requires DropRootOf(t, t') && Underfull(t, |t.levels| - 1, i) && g < |t'.levels| && k < |t'.levels[g]|
    ensures SizeOk(t', t'.levels[g][k])
  {
    hide Ring, Sorted, Flat, LinkedBut;
    RootFacts(t);
    PageFacts(t, g, k);
    PageFacts(t, |t.levels| - 1, 0);
    assert SizeOk(t, t.levels[g][k]);
  }

  lemma DropRootStep(t: Tree, t': Tree, i: nat)
    requires DropRootOf(t, t') && Underfull(t, |t.levels| - 1, i)
    ensures Shape(t') && Entries(t') == Entries(t)
  {
    hide Known, Link, SizeOk;
    DropRootTop(t);
    DropRootKnown(t, t');
    RootFacts(t);
    forall g | 0 <= g < |t'.levels| - 1 ensures LinkedAt(t', g) {
      DropRootLinked(t, t', g);
    }
    forall g, k | 0 <= g < |t'.levels| && 0 <= k < |t'.levels[g]| ensures SizeOk(t', t'.levels[g][k]) {
      DropRootSize(t, t', i, g, k);
    }
  }

  // -------------------------------------------------------------------------------------------
  // The steps as they are written out in pages

  /** What the search for a sibling finds: page u of the level above is the parent of page i, and
      names it at position j; with the sibling to its left, or to its right when j is 0, it forms
      the pair (l, l + 1), named at positions lj and lj + 1. */
  ghost predicate Pair(t: Tree, h: nat, i: nat, u: nat, j: nat, l: nat, lj: nat) {
    && h + 1 < |t.levels| && i < |t.levels[h]| && l + 1 < |t.levels[h]| && u < |t.levels[h + 1]|
    && (if j == 0 then l == i && lj == 0 else l + 1 == i && lj + 1 == j)
    && InPages(t.pages, t.levels[h + 1]) && At(t.pages, t.levels[h + 1], l, u, lj)
    && var L, R, q := t.levels[h][l], t.levels[h][l + 1], t.levels[h + 1][u];
       && L in t.pages && R in t.pages && q in t.pages && L != R && L != q && R != q
       && 0 < L < t.numPages && 0 < R < t.numPages && 0 < q < t.numPages
       && L != t.root && R != t.root
       && t.pages[t.levels[h][i]].parent == q && lj + 1 < |t.pages[q].entries|
       && t.pages[q].entries[lj].rid.pageNo == L && t.pages[q].entries[lj + 1].rid.pageNo == R
       && (forall k :: 0 <= k < |t.pages[q].entries| ==> (t.pages[q].entries[k].rid.pageNo == t.levels[h][i] <==> k == j))
       && L in t.height && R in t.height && q in t.height
       && t.height[L] == h && t.height[R] == h && t.height[q] == h + 1
       && t.pages[L].isLeaf == (h == 0) && t.pages[R].isLeaf == (h == 0)
  }

  lemma FindPair(t: Tree, h: nat, i: nat) returns (u: nat, j: nat, l: nat, lj: nat)
    requires Underfull(t, h, i) && t.levels[h][i] in t.pages && t.pages[t.levels[h][i]].parent != NO_PAGE
    ensures Pair(t, h, i, u, j, l, lj)
  {
    hide Ring, Sorted, Flat, Heads, At, SizedBut;
    RootIsTop(t, h, i);
    LevelFacts(t, h);
    LevelFacts(t, h + 1);
    assert LinkedAt(t, h);
    u, j := ParentOf(t.pages, t.levels[h + 1], t.levels[h], i);
    ParentSize(t, h, i, u, j);
    l, lj := PairUp(t.pages, t.levels[h + 1], t.levels[h], i, u, j);
    PageFacts(t, h, l);
    PageFacts(t, h, l + 1);
    PageFacts(t, h + 1, u);
    RootIsTop(t, h, l);
    RootIsTop(t, h, l + 1);
  }

  lemma ParentSize(t: Tree, h: nat, i: nat, u: nat, j: nat)
    requires Underfull(t, h, i) && h + 1 < |t.levels| && u < |t.levels[h + 1]| && At(t.pages, t.levels[h + 1], i, u, j)
    ensures t.levels[h + 1][u] in t.pages && |t.pages[t.levels[h + 1][u]].entries| >= 2
    ensures j < |t.pages[t.levels[h + 1][u]].entries|
  {
    hide Ring, Sorted, Flat, LinkedBut;
    PageFacts(t, h + 1, u);
    PageFacts(t, h, i);
    RootIsTop(t, h + 1, u);
    assert SizeOk(t, t.levels[h + 1][u]);
  }

  lemma PairUp(pg: Pages, Up: seq<int>, Down: seq<int>, i: nat, u: nat, j: nat) returns (l: nat, lj: nat)
    requires Names(pg, Up, Down) && i < |Down| && At(pg, Up, i, u, j) && |pg[Up[u]].entries| >= 2
    ensures l + 1 < |Down| && At(pg, Up, l, u, lj) && lj + 1 < |pg[Up[u]].entries|
    ensures if j == 0 then l == i && lj == 0 else l + 1 == i && lj + 1 == j
    ensures pg[Up[u]].entries[lj].rid.pageNo == Down[l] && pg[Up[u]].entries[lj + 1].rid.pageNo == Down[l + 1]
  {
    if j == 0 {
      l, lj := i, 0;
    } else {
      Position(pg, Up, u, j - 1);
      l, lj := i - 1, j - 1;
    }
    Siblings(pg, Up, Down, l, u, lj);
  }

  /** Borrowing: the receiver, the page handed over, the giver, the parent's key. */
  ghost function BorrowPages(pg: Pages, left: int, right: int, parent: int, idx: nat, toLeft: bool, internal: bool): Pages
    requires left in pg && right in pg && parent in pg && pg[left].entries != [] && pg[right].entries != []
    requires internal ==> Borrowed(pg[left].entries, pg[right].entries, toLeft) in pg
    requires idx < |pg[parent].entries| && left != right && left != parent && right != parent
    requires BorrowRight(pg[left].entries, pg[right].entries, toLeft) != []
  {
    var es, fs := pg[left].entries, pg[right].entries;
    var to, from := if toLeft then left else right, if toLeft then right else left;
    var c := Borrowed(es, fs, toLeft);
    var pg1 := pg[to := pg[to].(entries := if toLeft then BorrowLeft(es, fs, toLeft) else BorrowRight(es, fs, toLeft))];
    var pg2 := if internal then pg1[c := pg1[c].(parent := to)] else pg1;
    var pg3 := pg2[from := pg2[from].(entries := if toLeft then BorrowRight(es, fs, toLeft) else BorrowLeft(es, fs, toLeft))];
    var ps := pg3[parent].entries;
    pg3[parent := pg3[parent].(entries := ps[idx := Entry(BorrowRight(es, fs, toLeft)[0].key, ps[idx].rid)])]
  }

  /** The child handed over by a borrow lies below both siblings. */
  lemma BorrowedChild(t: Tree, h: nat, l: nat, toLeft: bool)
    requires Known(t) && LinkedBut(t, -1) && 0 < h < |t.levels| && l + 1 < |t.levels[h]|
    requires t.levels[h][l] in t.pages && t.levels[h][l + 1] in t.pages
    requires t.pages[t.levels[h][l]].entries != [] && t.pages[t.levels[h][l + 1]].entries != []
    ensures var c := Borrowed(t.pages[t.levels[h][l]].entries, t.pages[t.levels[h][l + 1]].entries, toLeft);
            c in t.pages && 0 < c < t.numPages && c in t.height && t.height[c] == h - 1
  {
    hide Known, LinkedBut;
    if toLeft {
      ChildFacts(t, h, l + 1, 0);
    } else {
      ChildFacts(t, h, l, |t.pages[t.levels[h][l]].entries| - 1);
    }
  }

  lemma BorrowWrittenOf(t: Tree, t': Tree, h: nat, l: nat, u: nat, lj: nat, toLeft: bool)
    requires h + 1 < |t.levels| && l + 1 < |t.levels[h]| && u < |t.levels[h + 1]|
    requires var L, R, q := t.levels[h][l], t.levels[h][l + 1], t.levels[h + 1][u];
             && L in t.pages && R in t.pages && q in t.pages && q != L && q != R && L != R
             && lj + 1 < |t.pages[q].entries|
             && t.pages[L].entries != [] && t.pages[R].entries != []
             && (h > 0 ==> var c := Borrowed(t.pages[L].entries, t.pages[R].entries, toLeft);
                           c in t.pages && c != L && c != R && c != q)
             && BorrowRight(t.pages[L].entries, t.pages[R].entries, toLeft) != []
             && t' == t.(pages := BorrowPages(t.pages, L, R, q, lj + 1, toLeft, h > 0))
    ensures BorrowOf(t, t', h, l, u, lj, toLeft)
  {
    hide BorrowLeft, BorrowRight, Borrowed;
  }

  lemma BorrowWritten(t: Tree, h: nat, i: nat, u: nat, j: nat, l: nat, lj: nat) returns (t': Tree)
    requires Underfull(t, h, i) && Pair(t, h, i, u, j, l, lj)
    requires var n := |t.pages[t.levels[h][i]].entries|;
             var s := |t.pages[t.levels[h][if j == 0 then l + 1 else l]].entries|;
             n < MinSize(t.order) && n + s >= 2 * MinSize(t.order)
    ensures var L, R, q := t.levels[h][l], t.levels[h][l + 1], t.levels[h + 1][u];
            && t.pages[L].entries != [] && t.pages[R].entries != []
            && (h > 0 ==> var c := Borrowed(t.pages[L].entries, t.pages[R].entries, j == 0); c in t.pages && 0 < c < t.numPages)
            && BorrowRight(t.pages[L].entries, t.pages[R].entries, j == 0) != []
            && t' == t.(pages := BorrowPages(t.pages, L, R, q, lj + 1, j == 0, h > 0))
    ensures InPages(t.pages, t.levels[0]) && Shape(t') && Entries(t') == Entries(t)
    ensures t'.pages.Keys == t.pages.Keys
  {
    hide Ring, Sorted, Flat, Heads, SizedBut, LinkedBut, At;
    var L, R, q := t.levels[h][l], t.levels[h][l + 1], t.levels[h + 1][u];
    LevelFacts(t, 0);
    assert t.order >= 3;
    if h > 0 {
      BorrowedChild(t, h, l, j == 0);
    }
    t' := t.(pages := BorrowPages(t.pages, L, R, q, lj + 1, j == 0, h > 0));
    BorrowWrittenOf(t, t', h, l, u, lj, j == 0);
    BorrowStep(t, t', h, i, l, u, lj, j == 0);
  }

  /** Merging two leaves: entries, then the ring. */
  ghost function MergeLeafPages(pg: Pages, left: int, right: int): Pages
    requires left in pg && right in pg && pg[right].nextLeaf in pg
  {
    var next := pg[right].nextLeaf;
    var pg1 := pg[left := pg[left].(entries := pg[left].entries + pg[right].entries)];
    var pg2 := pg1[left := pg1[left].(nextLeaf := next)];
    pg2[next := pg2[next].(prevLeaf := left)]
  }

  /** The parent forgets the right page and the page goes away. */
  ghost function DropChild(pg: Pages, parent: int, idx: nat, right: int): Pages
    requires parent in pg && idx < |pg[parent].entries|
  {
    pg[parent := pg[parent].(entries := RemoveAt(pg[parent].entries, idx))] - {right}
  }

  lemma MergeLeafRing(pg: Pages, pg': Pages, L: seq<int>, lastLeaf: int, l: nat, parent: int, idx: nat)
    requires Ring(pg, L, lastLeaf) && NoDup(L) && l + 1 < |L| && LEAF_HEADER_PAGE !in L
    requires parent in pg && parent !in L && parent != LEAF_HEADER_PAGE && idx < |pg[parent].entries|
    requires pg[L[l + 1]].nextLeaf in pg && parent in MergeLeafPages(pg, L[l], L[l + 1])
    requires MergeLeafPages(pg, L[l], L[l + 1])[parent] == pg[parent]
    requires pg' == DropChild(MergeLeafPages(pg, L[l], L[l + 1]), parent, idx, L[l + 1])
    ensures lastLeaf == L[l + 1] <==> l + 2 == |L|
    ensures Ring(pg', RemoveAt(L, l + 1), if lastLeaf == L[l + 1] then L[l] else lastLeaf)
  {
    assert RingAt(pg, L, l + 1) && RingAt(pg, L, l);
    assert forall k :: 0 <= k < |L| ==> L[k] != parent && L[k] != LEAF_HEADER_PAGE;
    RingUnlink(pg, pg', L, lastLeaf, if lastLeaf == L[l + 1] then L[l] else lastLeaf, l);
  }

  lemma NextLeafFacts(t: Tree, k: nat)
    requires Known(t) && k < |t.levels[0]|
    ensures t.levels[0][k] in t.pages
    ensures var n := t.pages[t.levels[0][k]].nextLeaf;
            && n in t.pages && 0 < n < t.numPages && n != t.levels[0][k]
            && (n == LEAF_HEADER_PAGE || (k + 1 < |t.levels[0]| && n == t.levels[0][k + 1] && n in t.height && t.height[n] == 0))
  {
    hide Sorted, Flat;
    PageFacts(t, 0, k);
    assert RingAt(t.pages, t.levels[0], k);
    if k + 1 < |t.levels[0]| {
      PageFacts(t, 0, k + 1);
      LevelFacts(t, 0);
    }
  }

  lemma MergeLeafWritten(t: Tree, i: nat, u: nat, j: nat, l: nat, lj: nat) returns (t': Tree)
    requires Underfull(t, 0, i) && Pair(t, 0, i, u, j, l, lj)
    requires |t.pages[t.levels[0][i]].entries| < MinSize(t.order)
    requires |t.pages[t.levels[0][l]].entries| + |t.pages[t.levels[0][l + 1]].entries| < 2 * MinSize(t.order)
    ensures var L, R, q := t.levels[0][l], t.levels[0][l + 1], t.levels[1][u];
            && t.pages[R].nextLeaf in t.pages && 0 < t.pages[R].nextLeaf < t.numPages
            && q in MergeLeafPages(t.pages, L, R) && MergeLeafPages(t.pages, L, R)[q] == t.pages[q]
            && t' == t.(pages := DropChild(MergeLeafPages(t.pages, L, R), q, lj + 1, R),
                        lastLeaf := if t.lastLeaf == R then L else t.lastLeaf,
                        levels := t.levels[0 := RemoveAt(t.levels[0], l + 1)])
    ensures Underfull(t', 1, u) && InPages(t.pages, t.levels[0]) && InPages(t'.pages, t'.levels[0]) && Entries(t') == Entries(t)
  {
    hide Sorted, Flat, Heads, SizedBut, LinkedBut, At, Underfull, RingAt;
    UnderfullFacts(t, 0, i);
    var L, R, q := t.levels[0][l], t.levels[0][l + 1], t.levels[1][u];
    LevelFacts(t, 0);
    NextLeafFacts(t, l + 1);
    forall k | 0 <= k < |t.levels[0]| ensures t.levels[0][k] != LEAF_HEADER_PAGE && t.levels[0][k] != q {
      PageFacts(t, 0, k);
    }
    PageFacts(t, 1, u);
    t' := t.(pages := DropChild(MergeLeafPages(t.pages, L, R), q, lj + 1, R),
             lastLeaf := if t.lastLeaf == R then L else t.lastLeaf,
             levels := t.levels[0 := RemoveAt(t.levels[0], l + 1)]);
    MergeLeafRing(t.pages, t'.pages, t.levels[0], t.lastLeaf, l, q, lj + 1);
    UnderfullNonempty(t, 0, i, l);
    assert MergeOf(t, t', 0, l, u, lj);
    MergeStep(t, t', 0, i, l, u, lj);
    UnderfullFacts(t', 1, u);
  }

  lemma UnderfullFacts(t: Tree, h: nat, i: nat)
    requires Underfull(t, h, i)
    ensures Known(t) && Rooted(t) && LinkedBut(t, -1) && h < |t.levels| && i < |t.levels[h]| && t.levels[h][i] in t.pages
    ensures InPages(t.pages, t.levels[0]) && t.order >= 3
    ensures t.pages[t.levels[h][i]].parent == NO_PAGE <==> h + 1 == |t.levels|
    ensures t.levels[h][i] == t.root <==> h + 1 == |t.levels|
    ensures t.pages[t.levels[h][i]].isLeaf == (h == 0) && 0 < t.levels[h][i] < t.numPages
    ensures t.levels[h][i] in t.height && t.height[t.levels[h][i]] == h
  {
    hide Ring, Sorted, Flat, Heads, SizedBut, LinkedBut;
    LevelFacts(t, 0);
    PageFacts(t, h, i);
    RootIsTop(t, h, i);
  }

  lemma UnderfullNonempty(t: Tree, h: nat, i: nat, l: nat)
    requires Underfull(t, h, i) && h + 1 < |t.levels| && l < |t.levels[h]| && t.levels[h][l] in t.pages
    ensures t.pages[t.levels[h][l]].entries != []
  {
    hide Ring, Sorted, Flat, LinkedBut;
    PageFacts(t, h, l);
    RootIsTop(t, h, l);
    if l != i && t.levels[h][l] != t.levels[h][i] {
      assert SizeOk(t, t.levels[h][l]);
    }
  }

  lemma MergeInternalWritten(t: Tree, pgm: Pages, h: nat, i: nat, u: nat, j: nat, l: nat, lj: nat) returns (t': Tree)
    requires Underfull(t, h, i) && Pair(t, h, i, u, j, l, lj) && h > 0
    requires |t.pages[t.levels[h][i]].entries| < MinSize(t.order)
    requires |t.pages[t.levels[h][l]].entries| + |t.pages[t.levels[h][l + 1]].entries| < 2 * MinSize(t.order)
    requires var L, R := t.levels[h][l], t.levels[h][l + 1];
             Repointed(t.pages[L := t.pages[L].(entries := t.pages[L].entries + t.pages[R].entries)],
                       pgm, t.pages[R].entries, L)
    ensures var L, R, q := t.levels[h][l], t.levels[h][l + 1], t.levels[h + 1][u];
            && q in pgm && pgm[q].entries == t.pages[q].entries
            && t' == t.(pages := DropChild(pgm, q, lj + 1, R), levels := t.levels[h := RemoveAt(t.levels[h], l + 1)])
    ensures Underfull(t', h + 1, u) && InPages(t.pages, t.levels[0]) && InPages(t'.pages, t'.levels[0]) && Entries(t') == Entries(t)
  {
    hide Sorted, Flat, Heads, SizedBut, LinkedBut, At, Underfull, RingAt;
    UnderfullFacts(t, h, i);
    var L, R, q := t.levels[h][l], t.levels[h][l + 1], t.levels[h + 1][u];
    LevelFacts(t, 0);
    t' := t.(pages := DropChild(pgm, q, lj + 1, R), levels := t.levels[h := RemoveAt(t.levels[h], l + 1)]);
    forall k | 0 <= k < |t.levels[0]| ensures t.levels[0][k] in t'.pages {
      PageFacts(t, 0, k);
    }
    RingFrame(t.pages, t'.pages, t.levels[0], t.lastLeaf);
    UnderfullNonempty(t, h, i, l);
    assert MergeOf(t, t', h, l, u, lj);
    MergeStep(t, t', h, i, l, u, lj);
    UnderfullFacts(t', h + 1, u);
  }

  /** A node that is not short of entries, or a root that may stay: nothing more to do. */
  lemma Enough(t: Tree, h: nat, i: nat)
    requires Underfull(t, h, i) && t.levels[h][i] in t.pages
    requires if h + 1 == |t.levels| then h == 0 || |t.pages[t.levels[h][i]].entries| >= 2
             else |t.pages[t.levels[h][i]].entries| >= MinSize(t.order)
    ensures Shape(t)
  {
    hide Known, LinkedBut;
    UnderfullFacts(t, h, i);
    assert SizeOk(t, t.levels[h][i]);
  }

  lemma DropRootWritten(t: Tree, i: nat) returns (t': Tree)
    requires |t.levels| > 1 && Underfull(t, |t.levels| - 1, i) && t.root in t.pages && |t.pages[t.root].entries| == 1
    ensures var c := t.pages[t.root].entries[0].rid.pageNo;
            && c in t.pages && 0 < c < t.numPages && c != t.root
            && t' == t.(pages := t.pages[c := t.pages[c].(parent := NO_PAGE)] - {t.root}, root := c,
                        levels := t.levels[..|t.levels| - 1])
    ensures InPages(t.pages, t.levels[0]) && Shape(t') && Entries(t') == Entries(t)
  {
    hide Ring, Sorted, Flat, Heads, SizedBut, LinkedBut;
    var top := |t.levels| - 1;
    UnderfullFacts(t, top, i);
    ChildFacts(t, top, i, 0);
    var c := t.pages[t.root].entries[0].rid.pageNo;
    t' := t.(pages := t.pages[c := t.pages[c].(parent := NO_PAGE)] - {t.root}, root := c,
             levels := t.levels[..|t.levels| - 1]);
    DropRootStep(t, t', i);
  }

  // -------------------------------------------------------------------------------------------
  // Pins

  /** The node is pinned once, and all other pins are on pages further down. */
  ghost predicate Alone(pins: multiset<int>, height: map<int, nat>, node: int, h: nat) {
    && pins[node] == 1
    && forall p :: p in pins && p != node ==> p in height && height[p] < h
  }

  /** With the parent and the sibling pinned as well, giving back one of the two siblings leaves no
      pin on it, and the parent is alone again. */
  lemma AloneParent(pins: multiset<int>, height: map<int, nat>, node: int, h: nat, q: int, s: int, right: int)
    requires Alone(pins, height, node, h) && node in height && height[node] == h && s != node
    requires q in height && height[q] == h + 1 && s in height && height[s] == h && (right == node || right == s)
    ensures right in pins + multiset{q} + multiset{s}
    ensures right !in pins + multiset{q} + multiset{s} - multiset{right}
    ensures Alone(pins + multiset{q} + multiset{s} - multiset{right}, height, q, h + 1)
  {
  }

  lemma MergePins(pins: multiset<int>, node: int, q: int, s: int, right: int)
    requires node in pins && q != s && q != node && s != node && (right == node || right == s)
    ensures var held := pins + multiset{q} + multiset{s} - multiset{right};
            && q in held && held - multiset{q} == pins + multiset{s} - multiset{right}
    ensures pins + multiset{s} - multiset{s} == pins
    ensures s in pins + multiset{s} - multiset{node}
    ensures pins + multiset{s} - multiset{node} - multiset{s} == pins - multiset{node}
  {
  }

  /** Pages only go away, and only from level h upwards. */
  ghost predicate Shrunk(pg: Pages, pg': Pages, height: map<int, nat>, h: nat) {
    && pg'.Keys <= pg.Keys
    && forall p :: p in pg && p !in pg' ==> p in height && height[p] >= h
  }

  lemma ShrunkSame(pg: Pages, pg': Pages, height: map<int, nat>, h: nat)
    requires pg'.Keys == pg.Keys
    ensures Shrunk(pg, pg', height, h)
  {
  }

  lemma ShrunkDrop(pg: Pages, pg': Pages, height: map<int, nat>, h: nat, p: int)
    requires pg'.Keys == pg.Keys - {p} && p in height && height[p] == h
    ensures Shrunk(pg, pg', height, h)
  {
  }

  lemma ShrunkTwice(pg: Pages, pg1: Pages, pg2: Pages, height: map<int, nat>, h: nat, right: int, left: int)
    requires pg1.Keys == pg.Keys - {right} && right in height && height[right] == h && Shrunk(pg1, pg2, height, h + 1)
    requires left in pg && left != right && left in height && height[left] == h
    ensures Shrunk(pg, pg2, height, h) && right !in pg2 && left in pg2
  {
  }

  lemma RemoveAbsent(m: map<int, Rid>, k: int)
    requires k !in m
    ensures m - {k} == m
  {
  }

  lemma SingleLinked(t: Tree)
    requires Known(t) && Rooted(t) && |t.levels| == 1
    ensures LinkedBut(t, -1)
  {
  }

  lemma UnderfullRoot(t: Tree, h: nat, i: nat)
    requires Underfull(t, h, i) && h + 1 == |t.levels| && t.levels[h][i] in t.pages
    requires h == 0 || |t.pages[t.levels[h][i]].entries| != 1
    ensures h == 0 || |t.pages[t.levels[h][i]].entries| >= 2
  {
    hide Known, LinkedBut, SizedBut;
    UnderfullFacts(t, h, i);
  }

  /** A leaf that has just lost an entry is at most one short. */
  lemma RemovedFacts(t: Tree, t': Tree, i: nat)
    requires Shape(t) && Known(t') && Rooted(t') && LinkedBut(t', -1) && t'.levels == t.levels && t'.order == t.order
    requires t'.root == t.root && i < |t.levels[0]| && SizedBut(t', t.levels[0][i])
    requires t.levels[0][i] in t.pages && t.levels[0][i] in t'.pages
    requires |t'.pages[t.levels[0][i]].entries| == |t.pages[t.levels[0][i]].entries| - 1
    ensures Underfull(t', 0, i)
    ensures Sorted(Entries(t)) && Sorted(Entries(t'))
  {
    hide Ring, LinkedBut, SizedBut, Rooted;
    NodeSize(t, 0, i);
    PageFacts(t', 0, i);
    RootIsTop(t, 0, i);
  }

  // -------------------------------------------------------------------------------------------
  // A new tree

  lemma EmptyTree(t: Tree)
    requires t.order >= 3 && t.numPages == INIT_NUM_PAGES && t.root == t.lastLeaf == INIT_ROOT_PAGE
    requires t.levels == [[INIT_ROOT_PAGE]] && t.height == map[INIT_ROOT_PAGE := 0]
    requires t.pages == map[LEAF_HEADER_PAGE := Page(NO_PAGE, true, INIT_ROOT_PAGE, INIT_ROOT_PAGE, []),
                            INIT_ROOT_PAGE := Page(NO_PAGE, true, LEAF_HEADER_PAGE, LEAF_HEADER_PAGE, [])]
    ensures Shape(t) && Entries(t) == []
  {
    var L := t.levels[0];
    assert L == [INIT_ROOT_PAGE];
    assert LevelKnown(t.pages, t.height, L, 0);
    assert Flat(t.pages, L) == [];
    assert Ring(t.pages, L, t.lastLeaf) by {
      assert RingAt(t.pages, L, 0);
    }
    assert SizeOk(t, t.root);
  }
}
