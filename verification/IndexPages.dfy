/**
  Pages of the B+ tree file: the header page of the leaf ring, leaf pages and internal pages,
  kept in a map from page number to page.  Keys are integers; module IndexKeys shows that the
  column-by-column comparison of real keys is order-isomorphic to integer comparison.
  */
module IndexPages {
  import opened Sequences

  const NO_PAGE := -1
  const LEAF_HEADER_PAGE := 1
  const INIT_ROOT_PAGE := 2
  const INIT_NUM_PAGES := 3

  datatype Rid = Rid(pageNo: int, slotNo: int)

  datatype Entry = Entry(key: int, rid: Rid)

  datatype Page = Page(parent: int, isLeaf: bool, prevLeaf: int, nextLeaf: int, entries: seq<Entry>)

  type Pages = map<int, Page>

  // -------------------------------------------------------------------------------------------
  // Sorted entry sequences and the map they denote

  ghost predicate Sorted(es: seq<Entry>) {
    forall i, j :: 0 <= i < j < |es| ==> es[i].key < es[j].key
  }

  ghost function ToMap(es: seq<Entry>): (m: map<int, Rid>)
    requires Sorted(es)
    ensures Denotes(es, m)
  {
    if es == [] then map[] else
      var n := |es| - 1;
      assert es == es[..n] + [es[n]];
      ToMap(es[..n])[es[n].key := es[n].rid]
  }

  /** The map m holds exactly the key-rid pairs of es. */
  ghost predicate Denotes(es: seq<Entry>, m: map<int, Rid>) {
    && (forall e :: e in es ==> e.key in m && m[e.key] == e.rid)
    && (forall k :: k in m ==> exists e :: e in es && e.key == k)
  }

  lemma DenotesUnique(es: seq<Entry>, m: map<int, Rid>, m': map<int, Rid>)
    requires Denotes(es, m) && Denotes(es, m')
    ensures m == m'
  {
    forall k | k in m ensures k in m' && m'[k] == m[k] {
      var e :| e in es && e.key == k;
    }
    forall k | k in m' ensures k in m {
      var e :| e in es && e.key == k;
    }
  }

  lemma SortedInsert(es: seq<Entry>, pos: nat, e: Entry)
    requires Sorted(es) && pos <= |es|
    requires forall j :: 0 <= j < pos ==> es[j].key < e.key
    requires forall j :: pos <= j < |es| ==> e.key < es[j].key
    ensures Sorted(InsertAt(es, pos, e))
    ensures forall x :: x in InsertAt(es, pos, e) <==> x in es || x == e
    ensures forall x :: x in es ==> x.key != e.key
  {
    var r := InsertAt(es, pos, e);
    assert r[pos] == e;
    forall x | x in es ensures x in r {
      var j :| 0 <= j < |es| && es[j] == x;
      assert r[if j < pos then j else j + 1] == x;
    }
  }

  lemma ToMapInsert(es: seq<Entry>, pos: nat, e: Entry)
    requires Sorted(es) && pos <= |es|
    requires forall j :: 0 <= j < pos ==> es[j].key < e.key
    requires forall j :: pos <= j < |es| ==> e.key < es[j].key
    ensures Sorted(InsertAt(es, pos, e))
    ensures ToMap(InsertAt(es, pos, e)) == ToMap(es)[e.key := e.rid]
    ensures e.key !in ToMap(es)
  {
    SortedInsert(es, pos, e);
    var r, m := InsertAt(es, pos, e), ToMap(es)[e.key := e.rid];
    forall k | k in m ensures exists x :: x in r && x.key == k {
      if k == e.key {
        assert e in r;
      } else {
        var x :| x in es && x.key == k;
        assert x in r;
      }
    }
    assert Denotes(r, m);
    DenotesUnique(r, ToMap(r), m);
  }

  lemma SortedRemove(es: seq<Entry>, pos: nat)
    requires Sorted(es) && pos < |es|
    ensures Sorted(RemoveAt(es, pos))
    ensures forall x :: x in RemoveAt(es, pos) <==> x in es && x.key != es[pos].key
  {
    var r := RemoveAt(es, pos);
    assert forall j :: 0 <= j < |r| ==> r[j] == es[if j < pos then j else j + 1];
    forall x | x in es && x.key != es[pos].key ensures x in r {
      var j :| 0 <= j < |es| && es[j] == x;
      assert r[if j < pos then j else j - 1] == x;
    }
  }

  lemma ToMapRemove(es: seq<Entry>, pos: nat)
    requires Sorted(es) && pos < |es|
    ensures Sorted(RemoveAt(es, pos))
    ensures ToMap(RemoveAt(es, pos)) == ToMap(es) - {es[pos].key}
    ensures es[pos].key in ToMap(es)
  {
    SortedRemove(es, pos);
    var m, r := ToMap(es), RemoveAt(es, pos);
    assert es[pos] in es;
    forall k | k in m - {es[pos].key} ensures exists e :: e in r && e.key == k {
      var e :| e in es && e.key == k;
      assert e in r;
    }
    assert Denotes(r, m - {es[pos].key});
    DenotesUnique(r, ToMap(r), m - {es[pos].key});
  }

  // -------------------------------------------------------------------------------------------
  // Searching one node

  /** Position pos separates the keys below the target from the others. */
  ghost predicate LowerBoundAt(es: seq<Entry>, target: int, pos: nat) {
    && pos <= |es|
    && (forall j :: 0 <= j < pos ==> es[j].key < target)
    && (forall j :: pos <= j < |es| ==> target <= es[j].key)
  }

  /** First position whose key is at least the target. */
  method NodeLowerBound(es: seq<Entry>, target: int) returns (l: nat)
    requires Sorted(es)
    ensures l <= |es| && LowerBoundAt(es, target, l)
  {
    l := 0;
    var r := |es|;
    while l < r
      invariant 0 <= l <= r <= |es|
      invariant forall j :: 0 <= j < l ==> es[j].key < target
      invariant forall j :: r <= j < |es| ==> target <= es[j].key
    {
      var mid := (l + r) / 2;
      if es[mid].key >= target {
        r := mid;
      } else {
        l := mid + 1;
      }
    }
  }

  /** First position from 1 on whose key exceeds the target: position 0 of an internal node
      is taken by every key below position 1, however small. */
  method NodeUpperBound(es: seq<Entry>, target: int) returns (l: nat)
    requires Sorted(es)
    ensures 1 <= l && (|es| > 0 ==> l <= |es|)
    ensures forall j :: 1 <= j < l && j < |es| ==> es[j].key <= target
    ensures forall j :: l <= j < |es| ==> target < es[j].key
  {
    l := 1;
    var r := |es|;
    while l < r
      invariant 1 <= l && (|es| > 0 ==> l <= r <= |es|) && (|es| == 0 ==> r == 0)
      invariant forall j :: 1 <= j < l && j < |es| ==> es[j].key <= target
      invariant forall j :: r <= j < |es| ==> target < es[j].key
    {
      var mid := (l + r) / 2;
      if es[mid].key > target {
        r := mid;
      } else {
        l := mid + 1;
      }
    }
  }

  /** Position of a child in its parent: the loop of find_child. */
  method FindChild(es: seq<Entry>, child: int) returns (idx: nat)
    requires exists j :: 0 <= j < |es| && es[j].rid.pageNo == child
    ensures idx < |es| && es[idx].rid.pageNo == child
    ensures forall j :: 0 <= j < idx ==> es[j].rid.pageNo != child
  {
    idx := 0;
    while es[idx].rid.pageNo != child
      invariant 0 <= idx < |es|
      invariant forall j :: 0 <= j < idx ==> es[j].rid.pageNo != child
      invariant exists j :: idx <= j < |es| && es[j].rid.pageNo == child
      decreases |es| - idx
    {
      idx := idx + 1;
    }
  }

  // -------------------------------------------------------------------------------------------
  // One level of the tree: its pages from left to right

  ghost predicate InPages(pg: Pages, L: seq<int>) {
    forall i :: 0 <= i < |L| ==> L[i] in pg
  }

  ghost predicate Inhabited(pg: Pages, L: seq<int>)
    requires InPages(pg, L)
  {
    forall i :: 0 <= i < |L| ==> |pg[L[i]].entries| > 0
  }

  ghost predicate SameEntries(pg: Pages, pg': Pages, L: seq<int>)
    requires InPages(pg, L) && InPages(pg', L)
  {
    forall i :: 0 <= i < |L| ==> pg'[L[i]].entries == pg[L[i]].entries
  }

  /** The entries of a run of pages, concatenated. */
  ghost function Flat(pg: Pages, L: seq<int>): seq<Entry>
    requires InPages(pg, L)
  {
    if L == [] then [] else pg[L[0]].entries + Flat(pg, L[1..])
  }

  /** What the level above must say about a level: each page's first key and its number. */
  ghost function Heads(pg: Pages, L: seq<int>): seq<Entry>
    requires InPages(pg, L) && Inhabited(pg, L)
  {
    seq(|L|, i requires 0 <= i < |L| => Entry(pg[L[i]].entries[0].key, Rid(L[i], -1)))
  }

  lemma {:induction false} FlatConcat(pg: Pages, A: seq<int>, B: seq<int>)
    requires InPages(pg, A)
    requires InPages(pg, B)
    ensures InPages(pg, A + B)
    ensures Flat(pg, A + B) == Flat(pg, A) + Flat(pg, B)
  {
    if A == [] {
      assert A + B == B;
    } else {
      assert (A + B)[0] == A[0] && (A + B)[1..] == A[1..] + B;
      FlatConcat(pg, A[1..], B);
    }
  }

  /** A level's entries, split around one of its pages. */
  lemma {:induction false} FlatAround(pg: Pages, L: seq<int>, i: nat)
    requires InPages(pg, L)
    requires i < |L|
    ensures Flat(pg, L) == Flat(pg, L[..i]) + pg[L[i]].entries + Flat(pg, L[i + 1..])
  {
    assert L == L[..i] + L[i..];
    FlatConcat(pg, L[..i], L[i..]);
    assert L[i..][0] == L[i] && L[i..][1..] == L[i + 1..];
  }

  lemma {:induction false} FlatFrame(pg: Pages, pg': Pages, L: seq<int>)
    requires InPages(pg, L) && InPages(pg', L) && SameEntries(pg, pg', L)
    ensures Flat(pg', L) == Flat(pg, L)
  {
    if L != [] {
      FlatFrame(pg, pg', L[1..]);
    }
  }

  /** Position i of a level's entries lies in page L[u] at offset j. */
  ghost predicate At(pg: Pages, L: seq<int>, i: nat, u: nat, j: nat)
    requires InPages(pg, L)
  {
    && u < |L| && j < |pg[L[u]].entries|
    && i == |Flat(pg, L[..u])| + j
    && i < |Flat(pg, L)| && Flat(pg, L)[i] == pg[L[u]].entries[j]
  }

  lemma {:induction false} Locate(pg: Pages, L: seq<int>, i: nat) returns (u: nat, j: nat)
    requires InPages(pg, L)
    requires i < |Flat(pg, L)|
    ensures At(pg, L, i, u, j)
  {
    var n := |pg[L[0]].entries|;
    if i < n {
      u, j := 0, i;
      assert L[..0] == [];
    } else {
      var u', j' := Locate(pg, L[1..], i - n);
      u, j := u' + 1, j';
      assert L[..u][0] == L[0] && L[..u][1..] == L[1..][..u'];
    }
  }

  /** The converse: every entry of every page has a position. */
  lemma {:induction false} Position(pg: Pages, L: seq<int>, u: nat, j: nat)
    requires InPages(pg, L)
    requires u < |L| && j < |pg[L[u]].entries|
    ensures At(pg, L, |Flat(pg, L[..u])| + j, u, j)
  {
    FlatAround(pg, L, u);
  }
}
