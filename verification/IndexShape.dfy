/**
  The invariant of a whole B+ tree and the effect of one structural step on it: descending,
  splitting a page, entering the new page in its parent, borrowing, merging and dropping the root.
  */
module IndexShape {
  import opened Sequences
  import opened IndexPages
  import opened IndexTree

  // -------------------------------------------------------------------------------------------
  // The leaf ring through the header page

  ghost function Next(L: seq<int>, i: nat): int
    requires i < |L|
  {
    if i + 1 < |L| then L[i + 1] else LEAF_HEADER_PAGE
  }

  ghost function Prev(L: seq<int>, i: nat): int
    requires i < |L|
  {
    if i > 0 then L[i - 1] else LEAF_HEADER_PAGE
  }

  ghost predicate Ring(pg: Pages, L: seq<int>, lastLeaf: int) {
    && L != [] && InPages(pg, L) && LEAF_HEADER_PAGE in pg
    && L[0] == INIT_ROOT_PAGE && lastLeaf == L[|L| - 1]
    && pg[LEAF_HEADER_PAGE].nextLeaf == L[0] && pg[LEAF_HEADER_PAGE].prevLeaf == lastLeaf
    && forall i :: 0 <= i < |L| ==> RingAt(pg, L, i)
  }

  ghost predicate RingAt(pg: Pages, L: seq<int>, i: nat) {
    i < |L| && L[i] in pg && pg[L[i]].nextLeaf == Next(L, i) && pg[L[i]].prevLeaf == Prev(L, i)
  }

  ghost predicate SameLinks(x: Page, y: Page) {
    y.nextLeaf == x.nextLeaf && y.prevLeaf == x.prevLeaf
  }

  lemma RingFrame(pg: Pages, pg': Pages, L: seq<int>, lastLeaf: int)
    requires Ring(pg, L, lastLeaf) && InPages(pg', L) && LEAF_HEADER_PAGE in pg'
    requires forall p :: p in pg && p in pg' ==> SameLinks(pg[p], pg'[p])
    ensures Ring(pg', L, lastLeaf)
  {
    forall i | 0 <= i < |L| ensures RingAt(pg', L, i) {
      assert RingAt(pg, L, i);
      var p := L[i];
      assert p in pg && p in pg';
      assert SameLinks(pg[p], pg'[p]);
    }
    assert SameLinks(pg[LEAF_HEADER_PAGE], pg'[LEAF_HEADER_PAGE]);
  }

  /** A newcomer spliced in after leaf i, and the page after it pointed back at the newcomer. */
  lemma RingSplice(pg: Pages, pg': Pages, L: seq<int>, lastLeaf: int, lastLeaf': int, i: nat, newcomer: int)
    requires Ring(pg, L, lastLeaf) && i < |L|
    requires InPages(pg', L) && newcomer in pg' && LEAF_HEADER_PAGE in pg'
    requires lastLeaf' == if i + 1 == |L| then newcomer else lastLeaf
    requires pg'[LEAF_HEADER_PAGE].nextLeaf == L[0] && pg'[LEAF_HEADER_PAGE].prevLeaf == lastLeaf'
    requires pg'[newcomer].nextLeaf == Next(L, i) && pg'[newcomer].prevLeaf == L[i]
    requires forall k :: 0 <= k < |L| ==>
               && pg'[L[k]].nextLeaf == (if k == i then newcomer else pg[L[k]].nextLeaf)
               && pg'[L[k]].prevLeaf == (if k == i + 1 then newcomer else pg[L[k]].prevLeaf)
    ensures Ring(pg', InsertAt(L, i + 1, newcomer), lastLeaf')
  {
    var L' := InsertAt(L, i + 1, newcomer);
    forall k | 0 <= k < |L'| ensures RingAt(pg', L', k) {
      assert k != i + 1 ==> RingAt(pg, L, if k <= i then k else k - 1);
    }
  }

  /** Leaf i + 1 taken out of the ring. */
  lemma RingUnlink(pg: Pages, pg': Pages, L: seq<int>, lastLeaf: int, lastLeaf': int, i: nat)
    requires Ring(pg, L, lastLeaf) && i + 1 < |L|
    requires InPages(pg', RemoveAt(L, i + 1)) && LEAF_HEADER_PAGE in pg'
    requires lastLeaf' == if i + 2 == |L| then L[i] else lastLeaf
    requires pg'[LEAF_HEADER_PAGE].nextLeaf == L[0] && pg'[LEAF_HEADER_PAGE].prevLeaf == lastLeaf'
    requires forall k :: 0 <= k < |L| && k != i + 1 ==>
               && L[k] in pg'
               && pg'[L[k]].nextLeaf == (if k == i then Next(L, i + 1) else pg[L[k]].nextLeaf)
               && pg'[L[k]].prevLeaf == (if k == i + 2 then L[i] else pg[L[k]].prevLeaf)
    ensures Ring(pg', RemoveAt(L, i + 1), lastLeaf')
  {
    var L' := RemoveAt(L, i + 1);
    forall k | 0 <= k < |L'| ensures RingAt(pg', L', k) {
      assert RingAt(pg, L, if k <= i then k else k + 1);
    }
  }

  // -------------------------------------------------------------------------------------------
  // The whole tree

  /** L lists distinct pages of height h. */
  ghost predicate LevelKnown(pg: Pages, height: map<int, nat>, L: seq<int>, h: nat) {
    && L != [] && NoDup(L) && InPages(pg, L)
    && forall i :: 0 <= i < |L| ==>
                     && L[i] >= INIT_ROOT_PAGE && pg[L[i]].isLeaf == (h == 0)
                     && L[i] in height && height[L[i]] == h
  }

  lemma LevelInsert(pg: Pages, height: map<int, nat>, L: seq<int>, h: nat, pos: nat, x: int)
    requires LevelKnown(pg, height, L, h) && pos <= |L| && x !in L
    requires x in pg && x >= INIT_ROOT_PAGE && pg[x].isLeaf == (h == 0) && x in height && height[x] == h
    ensures LevelKnown(pg, height, InsertAt(L, pos, x), h)
  {
    var L' := InsertAt(L, pos, x);
    assert forall i :: 0 <= i < |L'| && i != pos ==> L'[i] == L[if i < pos then i else i - 1];
  }

  ghost predicate Levels(pg: Pages, height: map<int, nat>, levels: seq<seq<int>>) {
    forall h :: 0 <= h < |levels| ==> LevelKnown(pg, height, levels[h], h)
  }

  lemma LevelFrame(pg: Pages, height: map<int, nat>, pg': Pages, height': map<int, nat>, L: seq<int>, h: nat)
    requires LevelKnown(pg, height, L, h)
    requires forall p :: p in pg ==> p in pg' && pg'[p].isLeaf == pg[p].isLeaf
    requires forall i :: 0 <= i < |L| ==> L[i] in height' && height'[L[i]] == height[L[i]]
    ensures LevelKnown(pg', height', L, h)
  {
  }

  /** Pages and levels agree; no page occurs twice; leaves are marked; the ring is closed; the
      leaf entries are sorted.  This holds inside every operation as well as between them. */
  ghost predicate Known(t: Tree) {
    && t.order >= 3 && |t.levels| >= 1
    && (forall p :: p in t.pages ==> 0 < p < t.numPages)
    && LEAF_HEADER_PAGE in t.pages
    && Levels(t.pages, t.height, t.levels)
    && Ring(t.pages, t.levels[0], t.lastLeaf)
    && Sorted(Flat(t.pages, t.levels[0]))
  }

  /** The key-rid pairs of the tree, in key order. */
  ghost function Entries(t: Tree): seq<Entry>
    requires |t.levels| >= 1 && InPages(t.pages, t.levels[0])
  {
    Flat(t.pages, t.levels[0])
  }

  ghost predicate Rooted(t: Tree) {
    && |t.levels| >= 1 && t.levels[|t.levels| - 1] == [t.root]
    && t.root in t.pages && t.pages[t.root].parent == NO_PAGE
  }

  ghost predicate LinkedAt(t: Tree, h: nat)
    requires h + 1 < |t.levels|
  {
    Link(t.pages, t.levels[h + 1], t.levels[h])
  }

  /** Every level is linked to the one above it, except possibly level x. */
  ghost predicate LinkedBut(t: Tree, x: int) {
    forall h :: 0 <= h < |t.levels| - 1 && h != x ==> LinkedAt(t, h)
  }

  ghost predicate SizeOk(t: Tree, p: int) {
    && p in t.pages && |t.pages[p].entries| <= t.order
    && (p != t.root ==> MinSize(t.order) <= |t.pages[p].entries|)
    && (p == t.root && !t.pages[p].isLeaf ==> 2 <= |t.pages[p].entries|)
  }

  /** Every node obeys the size limits, except possibly page x. */
  ghost predicate SizedBut(t: Tree, x: int) {
    forall h, i :: 0 <= h < |t.levels| && 0 <= i < |t.levels[h]| && t.levels[h][i] != x ==> SizeOk(t, t.levels[h][i])
  }

  /** The invariant between operations. */
  ghost predicate Shape(t: Tree) {
    Known(t) && Rooted(t) && LinkedBut(t, -1) && SizedBut(t, NO_PAGE)
  }

  lemma OnlyOnce(t: Tree, g: nat, i: nat, h: nat, j: nat)
    requires Known(t) && g < |t.levels| && i < |t.levels[g]| && h < |t.levels| && j < |t.levels[h]|
    requires t.levels[g][i] == t.levels[h][j]
    ensures g == h && i == j
  {
    assert LevelKnown(t.pages, t.height, t.levels[g], g);
  }

  lemma PageFacts(t: Tree, h: nat, i: nat)
    requires Known(t) && h < |t.levels| && i < |t.levels[h]|
    ensures var p := t.levels[h][i];
            && INIT_ROOT_PAGE <= p < t.numPages && p in t.pages && t.pages[p].isLeaf == (h == 0)
            && p in t.height && t.height[p] == h
    ensures t.numPages !in t.pages
  {
    hide Ring, Sorted, Flat;
    assert LevelKnown(t.pages, t.height, t.levels[h], h);
  }

  lemma LevelFacts(t: Tree, h: nat)
    requires Known(t) && h < |t.levels|
    ensures InPages(t.pages, t.levels[h]) && t.levels[h] != [] && NoDup(t.levels[h])
  {
    hide Ring, Sorted, Flat;
    assert LevelKnown(t.pages, t.height, t.levels[h], h);
  }

  lemma RootFacts(t: Tree)
    requires Known(t) && Rooted(t)
    ensures |t.levels| >= 1 && t.levels[|t.levels| - 1] == [t.root] && t.root in t.pages && 0 < t.root < t.numPages
    ensures t.pages[t.root].isLeaf == (|t.levels| == 1)
  {
    hide Ring, Sorted, Flat;
    assert t.levels[|t.levels| - 1][0] == t.root;
    PageFacts(t, |t.levels| - 1, 0);
  }

  /** A page is the root exactly when it has no parent, and then it is the only page of its level. */
  lemma RootIsTop(t: Tree, h: nat, i: nat)
    requires Known(t) && Rooted(t) && LinkedBut(t, -1) && h < |t.levels| && i < |t.levels[h]|
    ensures t.levels[h][i] in t.pages
    ensures t.pages[t.levels[h][i]].parent == NO_PAGE <==> h + 1 == |t.levels|
    ensures h + 1 == |t.levels| <==> t.levels[h][i] == t.root
    ensures h + 1 == |t.levels| ==> i == 0
  {
    hide Ring, Sorted, Flat, Heads;
    PageFacts(t, h, i);
    RootFacts(t);
    if h + 1 < |t.levels| {
      assert LinkedAt(t, h);
      LevelFacts(t, h);
      LevelFacts(t, h + 1);
      var u, j := ParentOf(t.pages, t.levels[h + 1], t.levels[h], i);
      PageFacts(t, h + 1, u);
      assert t.levels[|t.levels| - 1][0] == t.root;
      PageFacts(t, |t.levels| - 1, 0);
    }
  }

  lemma NodeSorted(t: Tree, h: nat, i: nat)
    requires Known(t) && LinkedBut(t, -1) && h < |t.levels| && i < |t.levels[h]|
    ensures t.levels[h][i] in t.pages && Sorted(t.pages[t.levels[h][i]].entries)
  {
    hide Ring, LinkedBut, Flat;
    PageFacts(t, h, i);
    LevelFacts(t, h);
    LevelSorted(t, h);
    SortedPage(t.pages, t.levels[h], i);
  }

  lemma NodeSize(t: Tree, h: nat, i: nat)
    requires Shape(t) && h < |t.levels| && i < |t.levels[h]|
    ensures SizeOk(t, t.levels[h][i])
    ensures |t.pages[t.levels[h][i]].entries| <= t.order
    ensures h + 1 < |t.levels| ==> |t.pages[t.levels[h][i]].entries| >= MinSize(t.order)
    ensures h > 0 || |t.levels| > 1 ==> |t.pages[t.levels[h][i]].entries| >= 2
  {
    hide Ring, Sorted, LinkedBut;
    PageFacts(t, h, i);
    RootIsTop(t, h, i);
  }

  /** Every level is sorted, not only the leaves. */
  lemma {:induction false} LevelSorted(t: Tree, h: nat)
    requires Known(t) && LinkedBut(t, -1) && h < |t.levels|
    ensures Sorted(Flat(t.pages, t.levels[h]))
  {
    if h > 0 {
      LevelSorted(t, h - 1);
      assert LinkedAt(t, h - 1);
      SortedHeads(t.pages, t.levels[h - 1]);
    }
  }

  // -------------------------------------------------------------------------------------------
  // Descent

  /** Page i of the level is the one responsible for key k. */
  ghost predicate Covers(pg: Pages, L: seq<int>, i: nat, k: int) {
    && InPages(pg, L) && i < |L|
    && (i > 0 ==> |pg[L[i]].entries| > 0 && pg[L[i]].entries[0].key <= k)
    && (i + 1 < |L| ==> |pg[L[i + 1]].entries| > 0 && k < pg[L[i + 1]].entries[0].key)
  }

  lemma DescendStep(t: Tree, h: nat, i: nat, k: int, idx: nat) returns (i': nat)
    requires Known(t) && LinkedBut(t, -1) && 0 < h < |t.levels| && Covers(t.pages, t.levels[h], i, k)
    requires var es := t.pages[t.levels[h][i]].entries;
             && 1 <= idx <= |es|
             && (forall j :: 1 <= j < idx ==> es[j].key <= k)
             && (forall j :: idx <= j < |es| ==> k < es[j].key)
    ensures i' < |t.levels[h - 1]|
    ensures t.levels[h - 1][i'] == t.pages[t.levels[h][i]].entries[idx - 1].rid.pageNo
    ensures Covers(t.pages, t.levels[h - 1], i', k)
  {
    var pg, L, D := t.pages, t.levels[h], t.levels[h - 1];
    var es := pg[L[i]].entries;
    assert LinkedAt(t, h - 1);
    i' := |Flat(pg, L[..i])| + idx - 1;
    Position(pg, L, i, idx - 1);
    assert Heads(pg, D)[i'] == es[idx - 1];
    if i' > 0 && idx == 1 && i == 0 {
      assert L[..0] == [];
    }
    if i' + 1 < |D| {
      if idx < |es| {
        Position(pg, L, i, idx);
        assert Heads(pg, D)[i' + 1] == es[idx];
      } else {
        FlatAround(pg, L, i);
        FlatConcat(pg, L[..i], [L[i]]);
        assert L[..i + 1] == L[..i] + [L[i]];
        Position(pg, L, i + 1, 0);
        assert Heads(pg, D)[i' + 1] == pg[L[i + 1]].entries[0];
      }
    }
  }

  /** The leaf responsible for k holds every entry with key k, and splits the others. */
  lemma LeafOwns(pg: Pages, L: seq<int>, i: nat, k: int)
    requires Covers(pg, L, i, k) && Sorted(Flat(pg, L))
    ensures forall e :: e in Flat(pg, L[..i]) ==> e.key < k
    ensures forall e :: e in Flat(pg, L[i + 1..]) ==> k < e.key
  {
    FlatAround(pg, L, i);
    var A, es, B := Flat(pg, L[..i]), pg[L[i]].entries, Flat(pg, L[i + 1..]);
    if i > 0 {
      forall e | e in A ensures e.key < k {
        var a :| 0 <= a < |A| && A[a] == e;
        assert Flat(pg, L)[a] == e && Flat(pg, L)[|A|] == es[0];
      }
    } else {
      assert L[..0] == [];
    }
    if i + 1 < |L| {
      var b0 := pg[L[i + 1]].entries[0];
      assert L[i + 1..][0] == L[i + 1];
      assert B[0] == b0;
      forall e | e in B ensures k < e.key {
        var b :| 0 <= b < |B| && B[b] == e;
        assert Flat(pg, L)[|A| + |es| + b] == e && Flat(pg, L)[|A| + |es|] == b0;
      }
    } else {
      assert L[i + 1..] == [];
    }
  }

  // -------------------------------------------------------------------------------------------
  // Steps

  /** Changes confined to parent pointers and to internal entries leave Known alone. */
  lemma KnownFrame(t: Tree, t': Tree)
    requires Known(t) && t'.order == t.order && t'.lastLeaf == t.lastLeaf
    requires t'.levels == t.levels && t'.height == t.height
    requires forall p :: p in t.pages ==>
               p in t'.pages && t'.pages[p].isLeaf == t.pages[p].isLeaf && SameLinks(t.pages[p], t'.pages[p])
    requires forall p :: p in t'.pages ==> 0 < p < t'.numPages
    requires forall i :: 0 <= i < |t.levels[0]| ==> t'.pages[t.levels[0][i]].entries == t.pages[t.levels[0][i]].entries
    ensures Known(t') && Entries(t') == Entries(t)
  {
    FlatFrame(t.pages, t'.pages, t.levels[0]);
    RingFrame(t.pages, t'.pages, t.levels[0], t.lastLeaf);
    forall h | 0 <= h < |t'.levels| ensures LevelKnown(t'.pages, t'.height, t'.levels[h], h) {
      LevelFrame(t.pages, t.height, t'.pages, t'.height, t.levels[h], h);
    }
  }

  ghost predicate Named(es: seq<Entry>, p: int) {
    exists j :: 0 <= j < |es| && es[j].rid.pageNo == p
  }

  lemma NamedOnce(pg: Pages, Up: seq<int>, Down: seq<int>, u: nat, j: nat, v: nat, k: nat)
    requires Names(pg, Up, Down) && NoDup(Down)
    requires u < |Up| && j < |pg[Up[u]].entries| && v < |Up| && k < |pg[Up[v]].entries|
    requires pg[Up[u]].entries[j].rid.pageNo == pg[Up[v]].entries[k].rid.pageNo
    ensures u == v && j == k
  {
    Position(pg, Up, u, j);
    Position(pg, Up, v, k);
    if (u, j) != (v, k) {
      AtInjective(pg, Up, u, j, v, k);
    }
  }

  /** Node i of level h holds one entry too many; all else is well. */
  ghost predicate Overfull(t: Tree, h: nat, i: nat) {
    && Known(t) && Rooted(t) && LinkedBut(t, -1)
    && h < |t.levels| && i < |t.levels[h]| && SizedBut(t, t.levels[h][i])
    && |t.pages[t.levels[h][i]].entries| == MaxSize(t.order)
  }

  /** Page i + 1 of level h has just been split off page i, and the level above does not name it. */
  ghost predicate Orphan(t: Tree, h: nat, i: nat) {
    && Known(t) && LinkedBut(t, h) && SizedBut(t, NO_PAGE)
    && h < |t.levels| && i + 1 < |t.levels[h]| && |t.pages[t.levels[h][i]].entries| >= MinSize(t.order)
    && t.root in t.pages && t.pages[t.root].parent == NO_PAGE
    && Unnamed(t, h, i)
  }

  ghost predicate Unnamed(t: Tree, h: nat, i: nat)
    requires h < |t.levels| && i + 1 < |t.levels[h]|
  {
    if h + 1 == |t.levels| then
      |t.levels[h]| == 2 && t.levels[h][0] == t.root
    else
      t.levels[|t.levels| - 1] == [t.root] && Link(t.pages, t.levels[h + 1], RemoveAt(t.levels[h], i + 1))
  }

  /** What split does to entries and levels ... */
  ghost predicate SplitOf(t: Tree, t': Tree, h: nat, i: nat)
    requires h < |t.levels| && i < |t.levels[h]| && t.levels[h][i] in t.pages
  {
    var node, newcomer := t.levels[h][i], t.numPages;
    var es := t.pages[node].entries;
    && t'.order == t.order && t'.root == t.root && t'.numPages == t.numPages + 1
    && t'.levels == t.levels[h := InsertAt(t.levels[h], i + 1, newcomer)] && t'.height == t.height[newcomer := h]
    && t'.pages.Keys == t.pages.Keys + {newcomer}
    && t'.pages[newcomer].entries == es[|es| / 2..] && t'.pages[newcomer].isLeaf == (h == 0)
    && (forall p :: p in t.pages ==>
          && t'.pages[p].entries == (if p == node then es[..|es| / 2] else t.pages[p].entries)
          && t'.pages[p].isLeaf == t.pages[p].isLeaf)
    && Ring(t'.pages, t'.levels[0], t'.lastLeaf)
  }

  /** ... and to parent pointers: the pages handed over to the newcomer point at it. */
  ghost predicate SplitParents(t: Tree, t': Tree, h: nat, i: nat)
    requires h < |t.levels| && i < |t.levels[h]| && t.levels[h][i] in t.pages
  {
    var es := t.pages[t.levels[h][i]].entries;
    forall p :: p in t.pages ==>
      p in t'.pages && t'.pages[p].parent == if h > 0 && Named(es[|es| / 2..], p) then t.numPages else t.pages[p].parent
  }

  lemma SplitLevels(t: Tree, t': Tree, h: nat, i: nat)
    requires Levels(t.pages, t.height, t.levels) && (forall p :: p in t.pages ==> p < t.numPages)
    requires LEAF_HEADER_PAGE in t.pages && h < |t.levels| && i < |t.levels[h]| && SplitOf(t, t', h, i)
    ensures Levels(t'.pages, t'.height, t'.levels)
  {
    hide Ring;
    forall g | 0 <= g < |t'.levels| ensures LevelKnown(t'.pages, t'.height, t'.levels[g], g) {
      LevelFrame(t.pages, t.height, t'.pages, t'.height, t.levels[g], g);
      if g == h {
        LevelInsert(t'.pages, t'.height, t.levels[h], h, i + 1, t.numPages);
      }
    }
  }

  lemma SplitFlat(t: Tree, t': Tree, h: nat, i: nat)
    requires Overfull(t, h, i) && SplitOf(t, t', h, i)
    ensures InPages(t'.pages, t'.levels[h]) && Flat(t'.pages, t'.levels[h]) == Flat(t.pages, t.levels[h])
  {
    assert LevelKnown(t.pages, t.height, t.levels[h], h);
    FlatSplit(t.pages, t'.pages, t.levels[h], i, t.numPages);
  }

  lemma SplitKnown(t: Tree, t': Tree, h: nat, i: nat)
    requires Overfull(t, h, i) && SplitOf(t, t', h, i)
    ensures Known(t') && Entries(t') == Entries(t)
  {
    SplitLevels(t, t', h, i);
    SplitFlat(t, t', h, i);
    if h > 0 {
      FlatFrame(t.pages, t'.pages, t.levels[0]);
    }
  }

  /** The pages below a split internal node: those handed over now point at the newcomer. */
  lemma LinkSplit(pg: Pages, pg': Pages, U: seq<int>, D: seq<int>, i: nat, m: nat, newcomer: int)
    requires Link(pg, U, D) && NoDup(D) && i < |U| && m <= |pg[U[i]].entries|
    requires InPages(pg', U) && InPages(pg', D) && SameEntries(pg, pg', D) && newcomer in pg'
    requires forall k :: 0 <= k < |U| && k != i ==> pg'[U[k]].entries == pg[U[k]].entries
    requires pg'[U[i]].entries == pg[U[i]].entries[..m] && pg'[newcomer].entries == pg[U[i]].entries[m..]
    requires forall k :: 0 <= k < |D| ==>
               pg'[D[k]].parent == if Named(pg[U[i]].entries[m..], D[k]) then newcomer else pg[D[k]].parent
    ensures Link(pg', InsertAt(U, i + 1, newcomer), D)
  {
    var es, U' := pg[U[i]].entries, InsertAt(U, i + 1, newcomer);
    assert es[..m] + es[m..] == es;
    FlatSplit(pg, pg', U, i, newcomer);
    assert Heads(pg', D) == Heads(pg, D);
    forall v, k | 0 <= v < |U'| && 0 <= k < |pg'[U'[v]].entries|
      ensures pg'[U'[v]].entries[k].rid.pageNo in pg' && pg'[pg'[U'[v]].entries[k].rid.pageNo].parent == U'[v]
    {
      var v' := if v <= i then v else v - 1;
      var k' := if v == i + 1 then m + k else k;
      assert U'[v] == if v == i + 1 then newcomer else U[v'];
      assert pg'[U'[v]].entries[k] == pg[U[v']].entries[k'];
      Position(pg, U, v', k');
      LinkSplitChild(pg, U, D, i, m, v', k');
    }
  }

  lemma LinkSplitChild(pg: Pages, U: seq<int>, D: seq<int>, i: nat, m: nat, v: nat, k: nat)
    requires Names(pg, U, D) && NoDup(D) && i < |U| && m <= |pg[U[i]].entries|
    requires v < |U| && k < |pg[U[v]].entries|
    ensures Named(pg[U[i]].entries[m..], pg[U[v]].entries[k].rid.pageNo) <==> v == i && k >= m
  {
    var es, c := pg[U[i]].entries[m..], pg[U[v]].entries[k].rid.pageNo;
    if v == i && k >= m {
      assert es[k - m].rid.pageNo == c;
    }
    if Named(es, c) {
      var j :| 0 <= j < |es| && es[j].rid.pageNo == c;
      NamedOnce(pg, U, D, v, k, i, m + j);
    }
  }

  lemma SplitLinkBelow(t: Tree, t': Tree, h: nat, i: nat)
    requires Overfull(t, h, i) && SplitOf(t, t', h, i) && SplitParents(t, t', h, i) && h > 0
    ensures LinkedAt(t', h - 1)
  {
    assert LinkedAt(t, h - 1);
    LinkSplit(t.pages, t'.pages, t.levels[h], t.levels[h - 1], i, |t.pages[t.levels[h][i]].entries| / 2, t.numPages);
  }

  /** Whatever a page names lies one level below it. */
  lemma NamedBelow(pg: Pages, height: map<int, nat>, U: seq<int>, D: seq<int>, h: nat, i: nat, k: nat)
    requires Names(pg, U, D) && LevelKnown(pg, height, D, h) && i < |U| && k < |pg[U[i]].entries|
    ensures var p := pg[U[i]].entries[k].rid.pageNo; p in height && height[p] == h
  {
    Position(pg, U, i, k);
  }

  lemma SplitParentKept(t: Tree, t': Tree, h: nat, i: nat, g: nat, k: nat)
    requires Overfull(t, h, i) && SplitParents(t, t', h, i)
    requires g < |t.levels| && g + 1 != h && k < |t.levels[g]|
    ensures t.levels[g][k] in t.pages && t.levels[g][k] in t'.pages
    ensures t'.pages[t.levels[g][k]].parent == t.pages[t.levels[g][k]].parent
  {
    var p, es := t.levels[g][k], t.pages[t.levels[h][i]].entries;
    assert LevelKnown(t.pages, t.height, t.levels[g], g);
    if h > 0 && Named(es[|es| / 2..], p) {
      var j :| 0 <= j < |es[|es| / 2..]| && es[|es| / 2..][j].rid.pageNo == p;
      assert LinkedAt(t, h - 1);
      NamedBelow(t.pages, t.height, t.levels[h], t.levels[h - 1], h - 1, i, |es| / 2 + j);
    }
  }

  lemma SplitLinkElsewhere(t: Tree, t': Tree, h: nat, i: nat, g: nat)
    requires Overfull(t, h, i) && SplitOf(t, t', h, i) && SplitParents(t, t', h, i)
    requires g + 1 < |t.levels| && g + 1 != h
    ensures InPages(t'.pages, t.levels[g + 1]) && Link(t'.pages, t.levels[g + 1], t.levels[g])
  {
    var pg, pg' := t.pages, t'.pages;
    assert LinkedAt(t, g);
    forall k | 0 <= k < |t.levels[g]| ensures pg'[t.levels[g][k]].parent == pg[t.levels[g][k]].parent {
      SplitParentKept(t, t', h, i, g, k);
    }
    LinkFrame(pg, pg', t.levels[g + 1], t.levels[g]);
  }

  lemma SplitLinked(t: Tree, t': Tree, h: nat, i: nat)
    requires Overfull(t, h, i) && SplitOf(t, t', h, i) && SplitParents(t, t', h, i)
    ensures LinkedBut(t', h)
  {
    hide Known, Link;
    forall g | 0 <= g < |t'.levels| - 1 && g != h ensures LinkedAt(t', g) {
      if g + 1 == h {
        SplitLinkBelow(t, t', h, i);
      } else {
        SplitLinkElsewhere(t, t', h, i, g);
      }
    }
  }

  lemma SplitUnnamed(t: Tree, t': Tree, h: nat, i: nat)
    requires Overfull(t, h, i) && SplitOf(t, t', h, i) && SplitParents(t, t', h, i)
    ensures Unnamed(t', h, i)
  {
    hide Ring, Sorted, Flat, Link, LevelKnown, SizedBut, LinkedBut;
    RemoveInserted(t.levels[h], i + 1, t.numPages);
    assert RemoveAt(t'.levels[h], i + 1) == t.levels[h];
    if h + 1 < |t.levels| {
      SplitLinkElsewhere(t, t', h, i, h);
      assert t'.levels[h + 1] == t.levels[h + 1];
    }
  }

  lemma SplitTip(t: Tree, t': Tree, h: nat, i: nat)
    requires Overfull(t, h, i) && SplitOf(t, t', h, i) && SplitParents(t, t', h, i)
    ensures h < |t'.levels| && i + 1 < |t'.levels[h]| && t'.levels[h][i] in t'.pages
    ensures |t'.pages[t'.levels[h][i]].entries| >= MinSize(t'.order)
    ensures t'.root in t'.pages && t'.pages[t'.root].parent == NO_PAGE
  {
    assert t'.levels[h][i] == t.levels[h][i];
    assert t.levels[|t.levels| - 1][0] == t.root;
    SplitParentKept(t, t', h, i, |t.levels| - 1, 0);
  }

  lemma SplitStep(t: Tree, t': Tree, h: nat, i: nat)
    requires Overfull(t, h, i) && SplitOf(t, t', h, i) && SplitParents(t, t', h, i)
    ensures Orphan(t', h, i) && Entries(t') == Entries(t)
  {
    SplitTip(t, t', h, i);
    SplitKnown(t, t', h, i);
    SplitLinked(t, t', h, i);
    SplitSizes(t, t', h, i);
    SplitUnnamed(t, t', h, i);
  }

  lemma SplitSizes(t: Tree, t': Tree, h: nat, i: nat)
    requires Overfull(t, h, i) && SplitOf(t, t', h, i)
    ensures SizedBut(t', NO_PAGE)
  {
    hide Ring, Sorted, Flat, LinkedBut;
    var node, newcomer := t.levels[h][i], t.numPages;
    assert SizeOk(t', newcomer) by {
      assert t.levels[|t.levels| - 1][0] == t.root;
    }
    assert SizeOk(t', node);
    forall g, k | 0 <= g < |t'.levels| && 0 <= k < |t'.levels[g]| ensures SizeOk(t', t'.levels[g][k]) {
      var p := t'.levels[g][k];
      if p != newcomer && p != node {
        var k' := if g == h && k > i then k - 1 else k;
        assert p == t.levels[g][k'];
        assert SizeOk(t, t.levels[g][k']);
      }
    }
  }

  /** A leaf split as written out in pages: the newcomer, the leaf, then the page after it. */
  ghost function SplitLeafPages(pg: Pages, node: int, newcomer: int, mid: nat): Pages
    requires node in pg && pg[node].nextLeaf in pg && newcomer !in pg && mid <= |pg[node].entries|
  {
    var es, next := pg[node].entries, pg[node].nextLeaf;
    var pg0 := pg[newcomer := Page(pg[node].parent, pg[node].isLeaf, 0, 0, [])];
    var pg1 := pg0[newcomer := pg0[newcomer].(prevLeaf := node, nextLeaf := next, entries := es[mid..])]
                  [node := pg0[node].(entries := es[..mid], nextLeaf := newcomer)];
    pg1[next := pg1[next].(prevLeaf := newcomer)]
  }

  lemma SplitLeafRing(pg: Pages, L: seq<int>, lastLeaf: int, i: nat, newcomer: int, mid: nat)
    requires Ring(pg, L, lastLeaf) && NoDup(L) && i < |L| && newcomer !in pg && LEAF_HEADER_PAGE !in L
    requires mid <= |pg[L[i]].entries|
    ensures L[i] in pg && pg[L[i]].nextLeaf in pg && pg[L[i]].nextLeaf == Next(L, i)
    ensures lastLeaf == L[i] <==> i + 1 == |L|
    ensures Ring(SplitLeafPages(pg, L[i], newcomer, mid), InsertAt(L, i + 1, newcomer),
                 if lastLeaf == L[i] then newcomer else lastLeaf)
  {
    assert RingAt(pg, L, i);
    var pg' := SplitLeafPages(pg, L[i], newcomer, mid);
    forall k | 0 <= k < |L|
      ensures pg'[L[k]].nextLeaf == (if k == i then newcomer else pg[L[k]].nextLeaf)
      ensures pg'[L[k]].prevLeaf == (if k == i + 1 then newcomer else pg[L[k]].prevLeaf)
    {
    }
    RingSplice(pg, pg', L, lastLeaf, if lastLeaf == L[i] then newcomer else lastLeaf, i, newcomer);
  }

  lemma SplitLeaf(t: Tree, i: nat) returns (t': Tree)
    requires Overfull(t, 0, i)
    ensures t.levels[0][i] in t.pages && t.pages[t.levels[0][i]].nextLeaf in t.pages
    ensures 0 < t.pages[t.levels[0][i]].nextLeaf < t.numPages
    ensures t.numPages !in t.pages
    ensures var node, newcomer := t.levels[0][i], t.numPages;
            t' == t.(pages := SplitLeafPages(t.pages, node, newcomer, |t.pages[node].entries| / 2),
                     numPages := t.numPages + 1,
                     lastLeaf := if t.lastLeaf == node then newcomer else t.lastLeaf,
                     levels := t.levels[0 := InsertAt(t.levels[0], i + 1, newcomer)],
                     height := t.height[newcomer := 0])
    ensures Orphan(t', 0, i) && InPages(t.pages, t.levels[0]) && InPages(t'.pages, t'.levels[0]) && Entries(t') == Entries(t)
  {
    hide Sorted, Flat, LinkedBut, SizedBut, Orphan, RingAt;
    LevelFacts(t, 0);
    PageFacts(t, 0, i);
    var node, newcomer := t.levels[0][i], t.numPages;
    var mid := |t.pages[node].entries| / 2;
    forall k | 0 <= k < |t.levels[0]| ensures t.levels[0][k] != LEAF_HEADER_PAGE { PageFacts(t, 0, k); }
    SplitLeafRing(t.pages, t.levels[0], t.lastLeaf, i, newcomer, mid);
    t' := t.(pages := SplitLeafPages(t.pages, node, newcomer, mid),
             numPages := t.numPages + 1,
             lastLeaf := if t.lastLeaf == node then newcomer else t.lastLeaf,
             levels := t.levels[0 := InsertAt(t.levels[0], i + 1, newcomer)],
             height := t.height[newcomer := 0]);
    assert SplitOf(t, t', 0, i);
    assert SplitParents(t, t', 0, i);
    SplitStep(t, t', 0, i);
    SplitOrphanLevel(t', 0, i);
  }

  lemma SplitOrphanLevel(t: Tree, h: nat, i: nat)
    requires Orphan(t, h, i)
    ensures |t.levels| >= 1 && InPages(t.pages, t.levels[0])
  {
    hide Ring, Sorted, Flat;
    LevelFacts(t, 0);
  }

  /** The first k of the entries handed to the newcomer have had their pages repointed. */
  ghost predicate Repointed(pg: Pages, pg': Pages, es: seq<Entry>, newParent: int) {
    && pg'.Keys == pg.Keys
    && forall p :: p in pg ==> pg'[p] == if Named(es, p) then pg[p].(parent := newParent) else pg[p]
  }

  lemma RepointStep(pg: Pages, pg': Pages, es: seq<Entry>, k: nat, newParent: int)
    requires k < |es| && Repointed(pg, pg', es[..k], newParent) && es[k].rid.pageNo in pg'
    ensures Repointed(pg, pg'[es[k].rid.pageNo := pg'[es[k].rid.pageNo].(parent := newParent)], es[..k + 1], newParent)
  {
    var c := es[k].rid.pageNo;
    forall p | p in pg ensures Named(es[..k + 1], p) <==> Named(es[..k], p) || p == c {
      if Named(es[..k], p) {
        var j :| 0 <= j < |es[..k]| && es[..k][j].rid.pageNo == p;
        assert es[..k + 1][j].rid.pageNo == p;
      }
      if p == c {
        assert es[..k + 1][k].rid.pageNo == p;
      }
      if Named(es[..k + 1], p) && p != c {
        var j :| 0 <= j < |es[..k + 1]| && es[..k + 1][j].rid.pageNo == p;
        assert es[..k][j].rid.pageNo == p;
      }
    }
  }

  /** Children of an internal page are pages of the level below. */
  lemma ChildFacts(t: Tree, h: nat, i: nat, k: nat)
    requires Known(t) && LinkedBut(t, -1) && 0 < h < |t.levels| && i < |t.levels[h]|
    requires t.levels[h][i] in t.pages && k < |t.pages[t.levels[h][i]].entries|
    ensures var c := t.pages[t.levels[h][i]].entries[k].rid.pageNo;
            c in t.pages && 0 < c < t.numPages && c in t.height && t.height[c] == h - 1
            && t.pages[c].parent == t.levels[h][i]
  {
    hide Ring, Sorted, Flat, Heads;
    assert LinkedAt(t, h - 1);
    NamedBelow2(t, h, i, k);
  }

  lemma NamedBelow2(t: Tree, h: nat, i: nat, k: nat)
    requires Known(t) && 0 < h < |t.levels| && i < |t.levels[h]| && Names(t.pages, t.levels[h], t.levels[h - 1])
    requires t.levels[h][i] in t.pages && k < |t.pages[t.levels[h][i]].entries|
    ensures var c := t.pages[t.levels[h][i]].entries[k].rid.pageNo; c in t.height && t.height[c] == h - 1
  {
    hide Ring, Sorted, Flat, Heads;
    assert LevelKnown(t.pages, t.height, t.levels[h - 1], h - 1);
    NamedBelow(t.pages, t.height, t.levels[h], t.levels[h - 1], h - 1, i, k);
  }

  lemma SplitInternal(t: Tree, t': Tree, h: nat, i: nat, newcomerPage: Page)
    requires Overfull(t, h, i) && h > 0 && t.levels[h][i] in t.pages && t.numPages !in t.pages
    requires var node, newcomer := t.levels[h][i], t.numPages;
             var es := t.pages[node].entries;
             var mid := |es| / 2;
             && newcomerPage.entries == es[mid..] && !newcomerPage.isLeaf
             && t' == t.(pages := t'.pages, numPages := t.numPages + 1,
                         levels := t.levels[h := InsertAt(t.levels[h], i + 1, newcomer)],
                         height := t.height[newcomer := h])
             && Repointed(t.pages[newcomer := newcomerPage][node := t.pages[node].(entries := es[..mid])],
                          t'.pages, es[mid..], newcomer)
    ensures Orphan(t', h, i) && InPages(t.pages, t.levels[0]) && InPages(t'.pages, t'.levels[0]) && Entries(t') == Entries(t)
  {
    hide Sorted, Flat, LinkedBut, SizedBut, Orphan, RingAt;
    LevelFacts(t, 0);
    PageFacts(t, h, i);
    RingFrame(t.pages, t'.pages, t.levels[0], t.lastLeaf);
    assert SplitOf(t, t', h, i);
    assert SplitParents(t, t', h, i);
    SplitStep(t, t', h, i);
    SplitOrphanLevel(t', h, i);
  }

  // -------------------------------------------------------------------------------------------
  // Naming an orphan in the level above

  /** The old root and the orphan become the two children of a new root. */
  ghost predicate NewRootOf(t: Tree, t': Tree)
    requires |t.levels| >= 1 && |t.levels[|t.levels| - 1]| == 2
  {
    var L := t.levels[|t.levels| - 1];
    && L[0] in t.pages && L[1] in t.pages && |t.pages[L[0]].entries| > 0 && |t.pages[L[1]].entries| > 0
    && t'.order == t.order && t'.root == t.numPages && t'.numPages == t.numPages + 1 && t'.lastLeaf == t.lastLeaf
    && t'.levels == t.levels + [[t.numPages]] && t'.height == t.height[t.numPages := |t.levels|]
    && t'.pages.Keys == t.pages.Keys + {t.numPages}
    && !t'.pages[t.numPages].isLeaf && t'.pages[t.numPages].parent == NO_PAGE
    && t'.pages[t.numPages].entries ==
         [Entry(t.pages[L[0]].entries[0].key, Rid(L[0], -1)), Entry(t.pages[L[1]].entries[0].key, Rid(L[1], -1))]
    && (forall p :: p in t.pages ==>
          t'.pages[p] == if p == L[0] || p == L[1] then t.pages[p].(parent := t.numPages) else t.pages[p])
  }

  lemma NewRootKnown(t: Tree, t': Tree, h: nat)
    requires Orphan(t, h, 0) && h + 1 == |t.levels| && NewRootOf(t, t')
    ensures Known(t') && Entries(t') == Entries(t)
  {
    FlatFrame(t.pages, t'.pages, t.levels[0]);
    RingFrame(t.pages, t'.pages, t.levels[0], t.lastLeaf);
    forall g | 0 <= g < |t'.levels| ensures LevelKnown(t'.pages, t'.height, t'.levels[g], g) {
      if g < |t.levels| {
        LevelFrame(t.pages, t.height, t'.pages, t'.height, t.levels[g], g);
      }
    }
  }

  lemma NewRootLinked(t: Tree, t': Tree, h: nat, g: nat)
    requires Orphan(t, h, 0) && h + 1 == |t.levels| && NewRootOf(t, t') && g <= h
    ensures LinkedAt(t', g)
  {
    var pg, pg', r := t.pages, t'.pages, t.numPages;
    if g < h {
      assert LinkedAt(t, g);
      LinkFrame(pg, pg', t.levels[g + 1], t.levels[g]);
    } else {
      assert Flat(pg', [r]) == pg'[r].entries;
    }
  }

  lemma NewRootStep(t: Tree, t': Tree, h: nat)
    requires Orphan(t, h, 0) && h + 1 == |t.levels| && NewRootOf(t, t')
    ensures Shape(t') && Entries(t') == Entries(t)
  {
    NewRootKnown(t, t', h);
    forall g | 0 <= g < |t'.levels| - 1 ensures LinkedAt(t', g) {
      NewRootLinked(t, t', h, g);
    }
    NewRootSizes(t, t', h);
  }

  lemma NewRootSizes(t: Tree, t': Tree, h: nat)
    requires Orphan(t, h, 0) && h + 1 == |t.levels| && NewRootOf(t, t')
    ensures SizedBut(t', NO_PAGE)
  {
    assert SizeOk(t', t'.root);
    forall g, k | 0 <= g < |t.levels| && 0 <= k < |t.levels[g]| ensures SizeOk(t', t.levels[g][k]) {
      assert SizeOk(t, t.levels[g][k]);
    }
  }

  /** The parent q = levels[h + 1][u] of page i gets an entry for the orphan right after page i's. */
  ghost function Adopt(t: Tree, q: int, newcomer: int, pos: nat): Tree
    requires q in t.pages && newcomer in t.pages && |t.pages[newcomer].entries| > 0
    requires pos <= |t.pages[q].entries|
  {
    var e := Entry(t.pages[newcomer].entries[0].key, Rid(newcomer, -1));
    t.(pages := t.pages[q := t.pages[q].(entries := InsertAt(t.pages[q].entries, pos, e))]
                       [newcomer := t.pages[newcomer].(parent := q)])
  }

  lemma OrphanFacts(t: Tree, h: nat, i: nat)
    requires Orphan(t, h, i) && h + 1 < |t.levels|
    ensures InPages(t.pages, t.levels[h + 1]) && t.levels[h][i + 1] in t.pages
    ensures |t.pages[t.levels[h][i + 1]].entries| > 0
    ensures Inhabited(t.pages, t.levels[h])
  {
    assert LevelKnown(t.pages, t.height, t.levels[h], h);
    assert LevelKnown(t.pages, t.height, t.levels[h + 1], h + 1);
    assert t.levels[|t.levels| - 1][0] == t.root;
    forall k | 0 <= k < |t.levels[h]| ensures |t.pages[t.levels[h][k]].entries| > 0 {
      assert SizeOk(t, t.levels[h][k]);
    }
  }

  lemma AdoptLinkHere(t: Tree, t': Tree, h: nat, i: nat, u: nat, j: nat)
    requires Orphan(t, h, i) && h + 1 < |t.levels| && At(t.pages, t.levels[h + 1], i, u, j)
    requires var q, newcomer := t.levels[h + 1][u], t.levels[h][i + 1];
             && q in t.pages && newcomer in t.pages && |t.pages[newcomer].entries| > 0
             && t' == Adopt(t, q, newcomer, j + 1)
    ensures LinkedAt(t', h)
  {
    hide Ring, Flat, Heads;
    var L := t.levels[h];
    assert LevelKnown(t.pages, t.height, L, h);
    assert LevelKnown(t.pages, t.height, t.levels[h + 1], h + 1);
    InsertRemoved(L, i + 1);
    LinkInsert(t.pages, t'.pages, t.levels[h + 1], RemoveAt(L, i + 1), i, u, j, L[i + 1]);
  }

  lemma AdoptLinkElsewhere(t: Tree, t': Tree, h: nat, i: nat, u: nat, j: nat, g: nat)
    requires Orphan(t, h, i) && h + 1 < |t.levels| && At(t.pages, t.levels[h + 1], i, u, j)
    requires var q, newcomer := t.levels[h + 1][u], t.levels[h][i + 1];
             && q in t.pages && newcomer in t.pages && |t.pages[newcomer].entries| > 0
             && t' == Adopt(t, q, newcomer, j + 1)
    requires g + 1 < |t.levels| && g != h
    ensures LinkedAt(t', g)
  {
    assert LinkedAt(t, g);
    assert LevelKnown(t.pages, t.height, t.levels[g], g);
    assert LevelKnown(t.pages, t.height, t.levels[g + 1], g + 1);
    LinkFrame(t.pages, t'.pages, t.levels[g + 1], t.levels[g]);
  }

  lemma AdoptStep(t: Tree, t': Tree, h: nat, i: nat, u: nat, j: nat)
    requires Orphan(t, h, i) && h + 1 < |t.levels| && At(t.pages, t.levels[h + 1], i, u, j)
    requires var q, newcomer := t.levels[h + 1][u], t.levels[h][i + 1];
             && q in t.pages && newcomer in t.pages && |t.pages[newcomer].entries| > 0
             && t' == Adopt(t, q, newcomer, j + 1)
    ensures Known(t') && Entries(t') == Entries(t) && Rooted(t') && LinkedBut(t', -1)
    ensures SizedBut(t', t.levels[h + 1][u])
  {
    assert LevelKnown(t.pages, t.height, t.levels[h + 1], h + 1);
    KnownFrame(t, t');
    forall g | 0 <= g < |t'.levels| - 1 ensures LinkedAt(t', g) {
      if g == h {
        AdoptLinkHere(t, t', h, i, u, j);
      } else {
        AdoptLinkElsewhere(t, t', h, i, u, j, g);
      }
    }
    forall g, k | 0 <= g < |t'.levels| && 0 <= k < |t'.levels[g]| && t'.levels[g][k] != t.levels[h + 1][u]
      ensures SizeOk(t', t'.levels[g][k])
    {
      assert SizeOk(t, t.levels[g][k]);
    }
    assert t.levels[|t.levels| - 1][0] == t.root;
  }

  lemma OrphanParent(t: Tree, h: nat, i: nat) returns (u: nat, j: nat)
    requires Orphan(t, h, i)
    ensures h < |t.levels| && i + 1 < |t.levels[h]| && t.numPages !in t.pages
    ensures t.levels[h][i] in t.pages && t.levels[h][i + 1] in t.pages
    ensures |t.pages[t.levels[h][i]].entries| > 0 && |t.pages[t.levels[h][i + 1]].entries| > 0
    ensures t.pages[t.levels[h][i]].parent == NO_PAGE <==> h + 1 == |t.levels|
    ensures h + 1 == |t.levels| ==> i == 0 && t.levels[h] == [t.levels[h][0], t.levels[h][1]]
    ensures h + 1 < |t.levels| ==>
      && At(t.pages, t.levels[h + 1], i, u, j) && u < |t.levels[h + 1]|
      && var q := t.levels[h + 1][u];
         && q in t.pages && j < |t.pages[q].entries|
         && q == t.pages[t.levels[h][i]].parent && q in t.pages && 0 < q < t.numPages && |t.pages[q].entries| <= t.order
         && q != t.levels[h][i + 1]
         && forall k :: 0 <= k < |t.pages[q].entries| ==>
                          (t.pages[q].entries[k].rid.pageNo == t.levels[h][i] <==> k == j)
  {
    hide Ring, Sorted, Flat, LinkedBut, Heads;
    u, j := 0, 0;
    PageFacts(t, h, i);
    PageFacts(t, h, i + 1);
    LevelFacts(t, h);
    assert SizeOk(t, t.levels[h][i + 1]);
    if h + 1 < |t.levels| {
      OrphanFacts(t, h, i);
      var D := RemoveAt(t.levels[h], i + 1);
      assert NoDup(D) by {
        assert forall k :: 0 <= k < |D| ==> D[k] == t.levels[h][if k <= i then k else k + 1];
      }
      u, j := ParentOf(t.pages, t.levels[h + 1], D, i);
      PageFacts(t, h + 1, u);
      assert SizeOk(t, t.levels[h + 1][u]);
    }
  }

  /** The new root as written out in pages. */
  lemma NewRoot(t: Tree, h: nat, i: nat, rootPage: Page) returns (t': Tree)
    requires Orphan(t, h, i) && h + 1 == |t.levels|
    requires t.levels[h][i] in t.pages && t.levels[h][i + 1] in t.pages
    requires |t.pages[t.levels[h][i]].entries| > 0 && |t.pages[t.levels[h][i + 1]].entries| > 0
    requires var left, right := t.levels[h][i], t.levels[h][i + 1];
             && !rootPage.isLeaf && rootPage.parent == NO_PAGE
             && rootPage.entries == [Entry(t.pages[left].entries[0].key, Rid(left, -1)),
                                     Entry(t.pages[right].entries[0].key, Rid(right, -1))]
    ensures t.numPages !in t.pages && t.levels[h][i] != t.levels[h][i + 1]
    ensures var left, right, r := t.levels[h][i], t.levels[h][i + 1], t.numPages;
            t' == t.(pages := t.pages[r := rootPage][left := t.pages[left].(parent := r)]
                                     [right := t.pages[right].(parent := r)],
                     numPages := r + 1, root := r, levels := t.levels + [[r]], height := t.height[r := |t.levels|])
    ensures InPages(t.pages, t.levels[0])
    ensures Shape(t') && Entries(t') == Entries(t)
  {
    hide Ring, Sorted, Flat, LinkedBut, SizedBut;
    LevelFacts(t, 0);
    LevelFacts(t, h);
    PageFacts(t, h, i);
    PageFacts(t, h, i + 1);
    var left, right, r := t.levels[h][i], t.levels[h][i + 1], t.numPages;
    t' := t.(pages := t.pages[r := rootPage][left := t.pages[left].(parent := r)]
                             [right := t.pages[right].(parent := r)],
             numPages := r + 1, root := r, levels := t.levels + [[r]], height := t.height[r := |t.levels|]);
    NewRootStep(t, t', h);
  }

  /** After adoption the parent is within bounds, or holds exactly one entry too many. */
  lemma Adopted(t: Tree, t': Tree, h: nat, i: nat, u: nat, j: nat)
    requires Orphan(t, h, i) && h + 1 < |t.levels| && At(t.pages, t.levels[h + 1], i, u, j)
    requires var q, newcomer := t.levels[h + 1][u], t.levels[h][i + 1];
             && q in t.pages && newcomer in t.pages && q != newcomer && |t.pages[newcomer].entries| > 0
             && |t.pages[q].entries| <= t.order
             && t' == Adopt(t, q, newcomer, j + 1)
    ensures InPages(t.pages, t.levels[0]) && InPages(t'.pages, t'.levels[0]) && Entries(t') == Entries(t)
    ensures var n := |t'.pages[t.levels[h + 1][u]].entries|;
            if n >= MaxSize(t.order) then Overfull(t', h + 1, u) else Shape(t')
  {
    hide Ring, Sorted, Flat, LinkedBut;
    LevelFacts(t, 0);
    PageFacts(t, h + 1, u);
    assert SizeOk(t, t.levels[h + 1][u]);
    AdoptStep(t, t', h, i, u, j);
    assert |t'.pages[t.levels[h + 1][u]].entries| == |t.pages[t.levels[h + 1][u]].entries| + 1;
  }

  // -------------------------------------------------------------------------------------------
  // Editing a leaf and carrying its first key upwards

  /** All is well except that the level above h may give page i of level h a wrong key. */
  ghost predicate Drifting(t: Tree, h: nat, i: nat) {
    && Known(t) && Rooted(t) && h < |t.levels| && i < |t.levels[h]| && LinkedBut(t, h)
    && (h + 1 < |t.levels| ==> Drift(t.pages, t.levels[h + 1], t.levels[h], i))
  }

  lemma DriftIsLink(pg: Pages, Up: seq<int>, Down: seq<int>, i: nat, u: nat, j: nat)
    requires Drift(pg, Up, Down, i) && At(pg, Up, i, u, j)
    requires pg[Up[u]].entries[j].key == pg[Down[i]].entries[0].key
    ensures Link(pg, Up, Down)
  {
    assert Flat(pg, Up)[i] == Heads(pg, Down)[i];
  }

  lemma DriftingFacts(t: Tree, h: nat, i: nat)
    requires Drifting(t, h, i)
    ensures h < |t.levels| && i < |t.levels[h]|
    ensures Known(t) && Rooted(t) && InPages(t.pages, t.levels[0]) && t.levels[h][i] in t.pages
    ensures h + 1 < |t.levels| ==> |t.pages[t.levels[h][i]].entries| > 0
  {
    hide Ring, Sorted, Flat, LinkedBut;
    LevelFacts(t, 0);
    LevelFacts(t, h);
  }

  lemma DriftingParent(t: Tree, h: nat, i: nat) returns (u: nat, j: nat)
    requires Drifting(t, h, i) && t.levels[h][i] in t.pages && t.pages[t.levels[h][i]].parent != NO_PAGE
    ensures h + 1 < |t.levels| && At(t.pages, t.levels[h + 1], i, u, j)
    ensures var q := t.pages[t.levels[h][i]].parent;
            && q == t.levels[h + 1][u] && q != t.levels[0][0] && q !in t.levels[0] && q in t.pages && 0 < q < t.numPages
            && forall k :: 0 <= k < |t.pages[q].entries| ==>
                             (t.pages[q].entries[k].rid.pageNo == t.levels[h][i] <==> k == j)
  {
    hide Ring, Sorted, Flat, LinkedBut;
    RootFacts(t);
    LevelFacts(t, h);
    LevelFacts(t, h + 1);
    u, j := ParentOf(t.pages, t.levels[h + 1], t.levels[h], i);
    PageFacts(t, h + 1, u);
    forall k | 0 <= k < |t.levels[0]| ensures t.levels[0][k] != t.levels[h + 1][u] {
      PageFacts(t, 0, k);
    }
  }

  lemma DriftingDone(t: Tree, h: nat, i: nat, u: nat, j: nat)
    requires Drifting(t, h, i) && h + 1 < |t.levels| && At(t.pages, t.levels[h + 1], i, u, j)
    requires |t.pages[t.levels[h][i]].entries| > 0
    requires t.pages[t.levels[h + 1][u]].entries[j].key == t.pages[t.levels[h][i]].entries[0].key
    ensures Known(t) && Rooted(t) && LinkedBut(t, -1)
  {
    hide Known, Flat, Drift;
    DriftIsLink(t.pages, t.levels[h + 1], t.levels[h], i, u, j);
    assert LinkedAt(t, h);
  }

  lemma DriftingTop(t: Tree, h: nat, i: nat)
    requires Drifting(t, h, i) && t.levels[h][i] in t.pages && t.pages[t.levels[h][i]].parent == NO_PAGE
    ensures Known(t) && Rooted(t) && LinkedBut(t, -1)
  {
    hide Ring, Sorted, Flat;
    if h + 1 < |t.levels| {
      LevelFacts(t, h);
      LevelFacts(t, h + 1);
      var u, j := ParentOf(t.pages, t.levels[h + 1], t.levels[h], i);
      PageFacts(t, h + 1, u);
      assert false;
    }
  }

  lemma LeafEdit(t: Tree, t': Tree, i: nat, es: seq<Entry>)
    requires Shape(t) && i < |t.levels[0]| && t.levels[0][i] in t.pages
    requires t' == t.(pages := t.pages[t.levels[0][i] := t.pages[t.levels[0][i]].(entries := es)])
    requires |t.levels| > 1 ==> es != []
    requires InPages(t'.pages, t.levels[0]) && Sorted(Flat(t'.pages, t.levels[0]))
    ensures Drifting(t', 0, i) && SizedBut(t', t.levels[0][i])
  {
    hide Ring, Flat, Heads, ChildParents;
    var leaf := t.levels[0][i];
    assert LevelKnown(t.pages, t.height, t.levels[0], 0);
    RingFrame(t.pages, t'.pages, t.levels[0], t.lastLeaf);
    forall h | 0 <= h < |t'.levels| ensures LevelKnown(t'.pages, t'.height, t'.levels[h], h) {
      LevelFrame(t.pages, t.height, t'.pages, t'.height, t.levels[h], h);
    }
    forall h | 0 <= h < |t'.levels| - 1 && h != 0 ensures LinkedAt(t', h) {
      assert LinkedAt(t, h);
      assert LevelKnown(t.pages, t.height, t.levels[h], h);
      assert LevelKnown(t.pages, t.height, t.levels[h + 1], h + 1);
      LinkFrame(t.pages, t'.pages, t.levels[h + 1], t.levels[h]);
    }
    if |t.levels| > 1 {
      assert LinkedAt(t, 0);
      assert LevelKnown(t.pages, t.height, t.levels[1], 1);
      LinkDrift(t.pages, t'.pages, t.levels[1], t.levels[0], i);
    }
    forall g, k | 0 <= g < |t'.levels| && 0 <= k < |t'.levels[g]| && t'.levels[g][k] != leaf
      ensures SizeOk(t', t'.levels[g][k])
    {
      assert SizeOk(t, t.levels[g][k]);
    }
  }

  /** Writing the first key of page i into its parent moves the drift one level up. */
  lemma ClimbStep(t: Tree, t': Tree, h: nat, i: nat, u: nat, j: nat)
    requires Drifting(t, h, i) && h + 1 < |t.levels| && At(t.pages, t.levels[h + 1], i, u, j)
    requires var q := t.levels[h + 1][u];
             && |t.pages[t.levels[h][i]].entries| > 0
             && t' == t.(pages := t.pages[q := t.pages[q].(entries := t.pages[q].entries[
                               j := Entry(t.pages[t.levels[h][i]].entries[0].key, t.pages[q].entries[j].rid)])])
    ensures Drifting(t', h + 1, u) && Entries(t') == Entries(t)
  {
    hide Ring, Sorted, Flat, Heads, ChildParents;
    var pg, pg' := t.pages, t'.pages;
    assert LevelKnown(pg, t.height, t.levels[h], h);
    assert LevelKnown(pg, t.height, t.levels[h + 1], h + 1);
    KnownFrame(t, t');
    LinkRepair(pg, pg', t.levels[h + 1], t.levels[h], i, u, j);
    if h + 2 < |t.levels| {
      assert LinkedAt(t, h + 1);
      assert LevelKnown(pg, t.height, t.levels[h + 2], h + 2);
      LinkDrift(pg, pg', t.levels[h + 2], t.levels[h + 1], u);
    }
    forall g | 0 <= g < |t'.levels| - 1 && g != h && g != h + 1 ensures LinkedAt(t', g) {
      assert LinkedAt(t, g);
      assert LevelKnown(pg, t.height, t.levels[g], g);
      assert LevelKnown(pg, t.height, t.levels[g + 1], g + 1);
      LinkFrame(pg, pg', t.levels[g + 1], t.levels[g]);
    }
  }

  ghost predicate SameSizes(pg: Pages, pg': Pages) {
    && pg'.Keys == pg.Keys
    && forall p :: p in pg ==> pg'[p].isLeaf == pg[p].isLeaf && |pg'[p].entries| == |pg[p].entries|
  }

  lemma SizedFrame(t: Tree, t': Tree, x: int)
    requires SizedBut(t, x) && SameSizes(t.pages, t'.pages)
    requires t'.order == t.order && t'.root == t.root && t'.levels == t.levels
    ensures SizedBut(t', x)
  {
    forall g, k | 0 <= g < |t'.levels| && 0 <= k < |t'.levels[g]| && t'.levels[g][k] != x
      ensures SizeOk(t', t'.levels[g][k])
    {
      assert SizeOk(t, t.levels[g][k]);
    }
  }

  lemma MiddleBound(A: seq<Entry>, es: seq<Entry>, B: seq<Entry>, pos: nat, k: int)
    requires pos <= |es|
    requires forall e :: e in A ==> e.key < k
    requires forall e :: e in B ==> k < e.key
    requires forall j :: 0 <= j < pos ==> es[j].key < k
    requires forall j :: pos <= j < |es| ==> k < es[j].key
    ensures forall j :: 0 <= j < |A| + pos ==> (A + es + B)[j].key < k
    ensures forall j :: |A| + pos <= j < |A + es + B| ==> k < (A + es + B)[j].key
  {
    var F := A + es + B;
    forall j | 0 <= j < |A| + pos ensures F[j].key < k {
      if j < |A| { assert F[j] == A[j]; } else { assert F[j] == es[j - |A|]; }
    }
    forall j | |A| + pos <= j < |F| ensures k < F[j].key {
      if j < |A| + |es| { assert F[j] == es[j - |A|]; } else { assert F[j] == B[j - |A| - |es|]; }
    }
  }

  lemma FlatLeafInsert(pg: Pages, pg': Pages, L: seq<int>, i: nat, pos: nat, e: Entry)
    requires Covers(pg, L, i, e.key) && NoDup(L) && Sorted(Flat(pg, L)) && pos <= |pg[L[i]].entries|
    requires forall j :: 0 <= j < pos ==> pg[L[i]].entries[j].key < e.key
    requires forall j :: pos <= j < |pg[L[i]].entries| ==> e.key < pg[L[i]].entries[j].key
    requires pg' == pg[L[i] := pg[L[i]].(entries := InsertAt(pg[L[i]].entries, pos, e))]
    ensures InPages(pg', L) && Sorted(Flat(pg', L)) && e.key !in ToMap(Flat(pg, L))
    ensures ToMap(Flat(pg', L)) == ToMap(Flat(pg, L))[e.key := e.rid]
  {
    LeafOwns(pg, L, i, e.key);
    FlatAround(pg, L, i);
    MiddleBound(Flat(pg, L[..i]), pg[L[i]].entries, Flat(pg, L[i + 1..]), pos, e.key);
    FlatInsert(pg, pg', L, i, pos, e);
    var F, F', n := Flat(pg, L), Flat(pg', L), |Flat(pg, L[..i])| + pos;
    assert F' == InsertAt(F, n, e);
    ToMapInsert(F, n, e);
  }

  /** Inserting a key the tree does not hold into the leaf responsible for it. */
  lemma LeafInsert(t: Tree, t': Tree, i: nat, pos: nat, e: Entry)
    requires Shape(t) && Covers(t.pages, t.levels[0], i, e.key) && pos <= |t.pages[t.levels[0][i]].entries|
    requires forall j :: 0 <= j < pos ==> t.pages[t.levels[0][i]].entries[j].key < e.key
    requires forall j :: pos <= j < |t.pages[t.levels[0][i]].entries| ==> e.key < t.pages[t.levels[0][i]].entries[j].key
    requires t' == t.(pages := t.pages[t.levels[0][i] :=
                        t.pages[t.levels[0][i]].(entries := InsertAt(t.pages[t.levels[0][i]].entries, pos, e))])
    ensures Drifting(t', 0, i) && SizedBut(t', t.levels[0][i])
    ensures e.key !in ToMap(Entries(t))
    ensures ToMap(Entries(t')) == ToMap(Entries(t))[e.key := e.rid]
  {
    assert LevelKnown(t.pages, t.height, t.levels[0], 0);
    FlatLeafInsert(t.pages, t'.pages, t.levels[0], i, pos, e);
    LeafEdit(t, t', i, InsertAt(t.pages[t.levels[0][i]].entries, pos, e));
  }

  /** An edit that keeps the leaf's first key leaves every link in place. */
  lemma LeafEditLinked(t: Tree, t': Tree, i: nat)
    requires Shape(t) && i < |t.levels[0]| && Drifting(t', 0, i)
    requires t.levels[0][i] in t.pages && t' == t.(pages := t'.pages)
    requires t'.pages.Keys == t.pages.Keys && forall p :: p in t.pages && p != t.levels[0][i] ==> t'.pages[p] == t.pages[p]
    requires |t.levels| > 1 ==> var es, es' := t.pages[t.levels[0][i]].entries, t'.pages[t.levels[0][i]].entries;
                                |es| > 0 && |es'| > 0 && es'[0].key == es[0].key
    requires t'.pages[t.levels[0][i]].parent == t.pages[t.levels[0][i]].parent
    ensures LinkedBut(t', -1)
  {
    hide Ring, Sorted, Flat, Heads, ChildParents;
    if |t.levels| > 1 {
      assert LinkedAt(t, 0);
      LevelFacts(t, 0);
      LevelFacts(t, 1);
      forall k | 0 <= k < |t.levels[1]| ensures t.levels[1][k] != t.levels[0][i] {
        PageFacts(t, 1, k);
        PageFacts(t, 0, i);
      }
      LinkFrame(t.pages, t'.pages, t.levels[1], t.levels[0]);
      assert LinkedAt(t', 0);
    }
  }

  /** At most one page of a level is responsible for a key. */
  lemma CoversUnique(pg: Pages, L: seq<int>, i: nat, j: nat, k: int)
    requires InPages(pg, L) && Sorted(Flat(pg, L)) && Covers(pg, L, i, k) && Covers(pg, L, j, k)
    ensures i == j
  {
    hide Flat;
    if i < j {
      CoversApart(pg, L, i, j, k);
    } else if j < i {
      CoversApart(pg, L, j, i, k);
    }
  }

  lemma CoversApart(pg: Pages, L: seq<int>, i: nat, j: nat, k: int)
    requires InPages(pg, L) && Sorted(Flat(pg, L)) && Covers(pg, L, i, k) && i < j < |L|
    ensures !Covers(pg, L, j, k)
  {
    LeafOwns(pg, L, i, k);
    if |pg[L[j]].entries| > 0 {
      var R := L[i + 1..];
      assert R[j - i - 1] == L[j];
      Position(pg, R, j - i - 1, 0);
      assert pg[L[j]].entries[0] in Flat(pg, R);
    }
  }

  lemma NodeOrdered(t: Tree, h: nat, i: nat)
    requires Shape(t) && h < |t.levels| && i < |t.levels[h]|
    ensures t.levels[h][i] in t.pages && Sorted(t.pages[t.levels[h][i]].entries)
  {
    hide Known, LinkedBut, SizedBut, Sorted;
    NodeSorted(t, h, i);
  }

  lemma OverfullLeaf(t: Tree, i: nat)
    requires Known(t) && Rooted(t) && LinkedBut(t, -1) && i < |t.levels[0]| && SizedBut(t, t.levels[0][i])
    requires t.levels[0][i] in t.pages && |t.pages[t.levels[0][i]].entries| == MaxSize(t.order)
    ensures Overfull(t, 0, i)
  {
    hide Known, LinkedBut, SizedBut, Rooted;
    RootFacts(t);
    PageFacts(t, 0, i);
  }

  lemma ShapeAgain(t: Tree, i: nat)
    requires Known(t) && Rooted(t) && LinkedBut(t, -1) && i < |t.levels[0]| && SizedBut(t, t.levels[0][i])
    requires t.levels[0][i] in t.pages && |t.pages[t.levels[0][i]].entries| <= t.order
    requires |t.levels| > 1 ==> |t.pages[t.levels[0][i]].entries| >= MinSize(t.order)
    ensures Shape(t)
  {
    hide Known, LinkedBut, Rooted;
    RootFacts(t);
    PageFacts(t, 0, i);
    RootIsTop(t, 0, i);
    assert SizeOk(t, t.levels[0][i]);
  }

  ghost predicate Listed(L: seq<int>, p: int) {
    p in L
  }

  lemma InsertKeeps(L: seq<int>, pos: nat, x: int, p: int)
    requires pos <= |L| && Listed(L, p)
    ensures Listed(InsertAt(L, pos, x), p)
  {
    var k :| 0 <= k < |L| && L[k] == p;
    assert InsertAt(L, pos, x)[if k < pos then k else k + 1] == p;
  }

  lemma ListedAt(L: seq<int>, k: nat)
    requires k < |L|
    ensures Listed(L, L[k])
  {
  }

  lemma LastFacts(t: Tree)
    requires Shape(t)
    ensures Known(t) && |t.levels| >= 1
    ensures t.lastLeaf in t.pages && 0 < t.lastLeaf < t.numPages && t.pages[t.lastLeaf].isLeaf
    ensures t.levels[0] != [] && t.lastLeaf == t.levels[0][|t.levels[0]| - 1]
  {
    hide Sorted, Flat;
    PageFacts(t, 0, |t.levels[0]| - 1);
  }

  lemma InsertedFacts(t: Tree, i: nat)
    requires Shape(t) && i < |t.levels[0]|
    ensures Known(t) && Rooted(t) && |t.levels| >= 1
    ensures InPages(t.pages, t.levels[0]) && t.levels[0][i] in t.pages && t.levels[0][i] != NO_PAGE
    ensures |t.levels| > 1 ==> |t.pages[t.levels[0][i]].entries| >= 2
  {
    hide Sorted, Flat, LinkedBut, SizedBut, Ring;
    LevelFacts(t, 0);
    PageFacts(t, 0, i);
    NodeSize(t, 0, i);
  }

  /** A key not below the first key of the last leaf belongs to the last leaf. */
  lemma LastCovers(t: Tree, k: int)
    requires Known(t) && t.lastLeaf in t.pages
    requires |t.pages[t.lastLeaf].entries| > 0 && t.pages[t.lastLeaf].entries[0].key <= k
    ensures |t.levels[0]| > 0 && t.levels[0][|t.levels[0]| - 1] == t.lastLeaf
    ensures Covers(t.pages, t.levels[0], |t.levels[0]| - 1, k)
  {
    hide Sorted, Flat;
    LevelFacts(t, 0);
  }

  lemma FlatLeafRemove(pg: Pages, pg': Pages, L: seq<int>, i: nat, pos: nat)
    requires InPages(pg, L) && NoDup(L) && Sorted(Flat(pg, L)) && i < |L| && pos < |pg[L[i]].entries|
    requires pg' == pg[L[i] := pg[L[i]].(entries := RemoveAt(pg[L[i]].entries, pos))]
    ensures InPages(pg', L) && Sorted(Flat(pg', L)) && pg[L[i]].entries[pos].key in ToMap(Flat(pg, L))
    ensures ToMap(Flat(pg', L)) == ToMap(Flat(pg, L)) - {pg[L[i]].entries[pos].key}
  {
    FlatRemove(pg, pg', L, i, pos);
    var F, F', n := Flat(pg, L), Flat(pg', L), |Flat(pg, L[..i])| + pos;
    assert F' == RemoveAt(F, n);
    ToMapRemove(F, n);
  }

  /** Removing an entry of leaf i. */
  lemma LeafRemove(t: Tree, t': Tree, i: nat, pos: nat)
    requires Shape(t) && i < |t.levels[0]| && t.levels[0][i] in t.pages && pos < |t.pages[t.levels[0][i]].entries|
    requires |t.levels| > 1 ==> |t.pages[t.levels[0][i]].entries| > 1
    requires t' == t.(pages := t.pages[t.levels[0][i] :=
                        t.pages[t.levels[0][i]].(entries := RemoveAt(t.pages[t.levels[0][i]].entries, pos))])
    ensures Drifting(t', 0, i) && SizedBut(t', t.levels[0][i])
    ensures t.pages[t.levels[0][i]].entries[pos].key in ToMap(Entries(t))
    ensures ToMap(Entries(t')) == ToMap(Entries(t)) - {t.pages[t.levels[0][i]].entries[pos].key}
  {
    assert LevelKnown(t.pages, t.height, t.levels[0], 0);
    FlatLeafRemove(t.pages, t'.pages, t.levels[0], i, pos);
    LeafEdit(t, t', i, RemoveAt(t.pages[t.levels[0][i]].entries, pos));
  }

  /** The first position not below k in the responsible leaf decides whether the tree holds k. */
  lemma LeafLookup(t: Tree, i: nat, k: int, idx: nat)
    requires Known(t) && i < |t.levels[0]| && Covers(t.pages, t.levels[0], i, k)
    requires LowerBoundAt(t.pages[t.levels[0][i]].entries, k, idx)
    ensures var es, m := t.pages[t.levels[0][i]].entries, ToMap(Entries(t));
            && (k in m <==> idx < |es| && es[idx].key == k)
            && (k in m ==> m[k] == es[idx].rid)
  {
    FlatLookup(t.pages, t.levels[0], i, k, idx);
  }

  lemma FlatLookup(pg: Pages, L: seq<int>, i: nat, k: int, idx: nat)
    requires Covers(pg, L, i, k) && Sorted(Flat(pg, L)) && idx <= |pg[L[i]].entries|
    requires forall j :: 0 <= j < idx ==> pg[L[i]].entries[j].key < k
    requires forall j :: idx <= j < |pg[L[i]].entries| ==> k <= pg[L[i]].entries[j].key
    ensures var es, m := pg[L[i]].entries, ToMap(Flat(pg, L));
            && (k in m <==> idx < |es| && es[idx].key == k)
            && (k in m ==> m[k] == es[idx].rid)
  {
    LeafOwns(pg, L, i, k);
    FlatAround(pg, L, i);
    SortedPage(pg, L, i);
    MiddleLookup(Flat(pg, L[..i]), pg[L[i]].entries, Flat(pg, L[i + 1..]), k, idx);
  }

  lemma MiddleLookup(A: seq<Entry>, es: seq<Entry>, B: seq<Entry>, k: int, idx: nat)
    requires Sorted(A + es + B) && Sorted(es) && idx <= |es|
    requires forall e :: e in A ==> e.key < k
    requires forall e :: e in B ==> k < e.key
    requires forall j :: 0 <= j < idx ==> es[j].key < k
    requires forall j :: idx <= j < |es| ==> k <= es[j].key
    ensures var m := ToMap(A + es + B);
            && (k in m <==> idx < |es| && es[idx].key == k)
            && (k in m ==> m[k] == es[idx].rid)
  {
    var F := A + es + B;
    if idx < |es| && es[idx].key == k {
      assert F[|A| + idx] == es[idx];
      assert es[idx] in F;
    }
    if k in ToMap(F) {
      var e :| e in F && e.key == k;
      assert e !in A && e !in B;
      assert e in es;
      var j :| 0 <= j < |es| && es[j] == e;
    }
  }
}
