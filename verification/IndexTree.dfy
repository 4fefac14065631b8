/**
  Shape of the B+ tree over a page map.  A tree is described by its levels: levels[0] lists the
  leaves from left to right, the last level holds the root alone, and the entries of level h + 1,
  read from left to right, name the pages of level h with their first keys.  Splits, merges and
  borrows rearrange pages inside one level and leave its entries alone, so each of them can only
  disturb the link to the level above.
  */
module IndexTree {
  import opened Sequences
  import opened IndexPages

  datatype Tree = Tree(order: int, pages: Pages, numPages: int, root: int, lastLeaf: int,
                       levels: seq<seq<int>>, height: map<int, nat>)

  function MaxSize(order: int): int { order + 1 }

  function MinSize(order: int): int { MaxSize(order) / 2 }

  // -------------------------------------------------------------------------------------------
  // Entries of a level when one or two of its pages change

  lemma FlatUpdate(pg: Pages, pg': Pages, L: seq<int>, i: nat)
    requires InPages(pg, L) && InPages(pg', L) && i < |L|
    requires forall k :: 0 <= k < |L| && k != i ==> pg'[L[k]].entries == pg[L[k]].entries
    ensures Flat(pg', L) == Flat(pg, L[..i]) + pg'[L[i]].entries + Flat(pg, L[i + 1..])
    ensures Flat(pg', L[..i]) == Flat(pg, L[..i])
  {
    FlatAround(pg', L, i);
    FlatFrame(pg, pg', L[..i]);
    FlatFrame(pg, pg', L[i + 1..]);
  }

  lemma FlatInsert(pg: Pages, pg': Pages, L: seq<int>, u: nat, j: nat, e: Entry)
    requires InPages(pg, L) && InPages(pg', L) && u < |L| && j <= |pg[L[u]].entries|
    requires forall k :: 0 <= k < |L| && k != u ==> pg'[L[k]].entries == pg[L[k]].entries
    requires pg'[L[u]].entries == InsertAt(pg[L[u]].entries, j, e)
    ensures |Flat(pg, L[..u])| + j <= |Flat(pg, L)|
    ensures Flat(pg', L) == InsertAt(Flat(pg, L), |Flat(pg, L[..u])| + j, e)
  {
    FlatUpdate(pg, pg', L, u);
    FlatAround(pg, L, u);
    InsertMiddle(Flat(pg, L[..u]), pg[L[u]].entries, Flat(pg, L[u + 1..]), j, e);
  }

  lemma FlatRemove(pg: Pages, pg': Pages, L: seq<int>, u: nat, j: nat)
    requires InPages(pg, L) && InPages(pg', L) && u < |L| && j < |pg[L[u]].entries|
    requires forall k :: 0 <= k < |L| && k != u ==> pg'[L[k]].entries == pg[L[k]].entries
    requires pg'[L[u]].entries == RemoveAt(pg[L[u]].entries, j)
    ensures |Flat(pg, L[..u])| + j < |Flat(pg, L)|
    ensures Flat(pg', L) == RemoveAt(Flat(pg, L), |Flat(pg, L[..u])| + j)
    ensures Flat(pg, L)[|Flat(pg, L[..u])| + j] == pg[L[u]].entries[j]
  {
    FlatUpdate(pg, pg', L, u);
    FlatAround(pg, L, u);
    RemoveMiddle(Flat(pg, L[..u]), pg[L[u]].entries, Flat(pg, L[u + 1..]), j);
  }

  lemma FlatSet(pg: Pages, pg': Pages, L: seq<int>, u: nat, j: nat, e: Entry)
    requires InPages(pg, L) && InPages(pg', L) && u < |L| && j < |pg[L[u]].entries|
    requires forall k :: 0 <= k < |L| && k != u ==> pg'[L[k]].entries == pg[L[k]].entries
    requires pg'[L[u]].entries == pg[L[u]].entries[j := e]
    ensures |Flat(pg, L[..u])| + j < |Flat(pg, L)|
    ensures Flat(pg', L) == Flat(pg, L)[|Flat(pg, L[..u])| + j := e]
  {
    FlatUpdate(pg, pg', L, u);
    FlatAround(pg, L, u);
  }

  /** Splitting a page in two, in place, keeps the level's entries. */
  lemma FlatSplit(pg: Pages, pg': Pages, L: seq<int>, i: nat, newcomer: int)
    requires InPages(pg, L) && InPages(pg', L) && i < |L| && newcomer in pg'
    requires forall k :: 0 <= k < |L| && k != i ==> pg'[L[k]].entries == pg[L[k]].entries
    requires pg'[L[i]].entries + pg'[newcomer].entries == pg[L[i]].entries
    ensures InPages(pg', InsertAt(L, i + 1, newcomer))
    ensures Flat(pg', InsertAt(L, i + 1, newcomer)) == Flat(pg, L)
  {
    var L' := InsertAt(L, i + 1, newcomer);
    FlatAround(pg', L', i + 1);
    assert L'[..i + 1] == L[..i] + [L[i]] && L'[i + 2..] == L[i + 1..];
    FlatConcat(pg', L[..i], [L[i]]);
    FlatFrame(pg, pg', L[..i]);
    FlatFrame(pg, pg', L[i + 1..]);
    FlatAround(pg, L, i);
    assert Flat(pg', [L[i]]) == pg'[L[i]].entries;
  }

  /** Absorbing the right neighbour keeps the level's entries. */
  lemma FlatMerge(pg: Pages, pg': Pages, L: seq<int>, i: nat)
    requires InPages(pg, L) && i + 1 < |L| && InPages(pg', RemoveAt(L, i + 1))
    requires forall k :: 0 <= k < |L| && k != i && k != i + 1 ==> L[k] in pg' && pg'[L[k]].entries == pg[L[k]].entries
    requires L[i] in pg' && pg'[L[i]].entries == pg[L[i]].entries + pg[L[i + 1]].entries
    ensures Flat(pg', RemoveAt(L, i + 1)) == Flat(pg, L)
  {
    var L' := RemoveAt(L, i + 1);
    FlatAround(pg', L', i);
    assert L'[..i] == L[..i] && L'[i + 1..] == L[i + 2..];
    FlatFrame(pg, pg', L[..i]);
    FlatFrame(pg, pg', L[i + 2..]);
    FlatAround(pg, L, i);
    assert L[i + 1..][0] == L[i + 1] && L[i + 1..][1..] == L[i + 2..];
  }

  lemma FlatAroundPair(pg: Pages, L: seq<int>, i: nat)
    requires InPages(pg, L) && i + 1 < |L|
    ensures Flat(pg, L) == Flat(pg, L[..i]) + (pg[L[i]].entries + pg[L[i + 1]].entries) + Flat(pg, L[i + 2..])
  {
    FlatAround(pg, L, i);
    assert L[i + 1..][0] == L[i + 1] && L[i + 1..][1..] == L[i + 2..];
  }

  /** Moving entries across the border of two neighbours keeps the level's entries. */
  lemma FlatShift(pg: Pages, pg': Pages, L: seq<int>, i: nat)
    requires InPages(pg, L) && InPages(pg', L) && i + 1 < |L|
    requires forall k :: 0 <= k < |L| && k != i && k != i + 1 ==> pg'[L[k]].entries == pg[L[k]].entries
    requires pg'[L[i]].entries + pg'[L[i + 1]].entries == pg[L[i]].entries + pg[L[i + 1]].entries
    ensures Flat(pg', L) == Flat(pg, L)
  {
    hide Flat;
    FlatAroundPair(pg, L, i);
    FlatAroundPair(pg', L, i);
    FlatFrame(pg, pg', L[..i]);
    FlatFrame(pg, pg', L[i + 2..]);
  }

  // -------------------------------------------------------------------------------------------
  // The link between two adjacent levels

  /** Every entry of the upper level names a page whose parent pointer leads back. */
  ghost predicate ChildParents(pg: Pages, Up: seq<int>)
    requires InPages(pg, Up)
  {
    forall u, j :: 0 <= u < |Up| && 0 <= j < |pg[Up[u]].entries| ==>
      pg[Up[u]].entries[j].rid.pageNo in pg && pg[pg[Up[u]].entries[j].rid.pageNo].parent == Up[u]
  }

  /** The upper level names the pages of the lower one in order, whatever keys it gives them. */
  ghost predicate Names(pg: Pages, Up: seq<int>, Down: seq<int>) {
    && InPages(pg, Up) && InPages(pg, Down) && Inhabited(pg, Down)
    && |Flat(pg, Up)| == |Down|
    && (forall k :: 0 <= k < |Down| ==> Flat(pg, Up)[k].rid == Rid(Down[k], -1))
    && ChildParents(pg, Up)
  }

  ghost predicate Link(pg: Pages, Up: seq<int>, Down: seq<int>) {
    Names(pg, Up, Down) && Flat(pg, Up) == Heads(pg, Down)
  }

  /** The link holds but for the key given to page i of the lower level. */
  ghost predicate Drift(pg: Pages, Up: seq<int>, Down: seq<int>, i: nat) {
    && Names(pg, Up, Down) && i < |Down|
    && forall k :: 0 <= k < |Down| && k != i ==> Flat(pg, Up)[k] == Heads(pg, Down)[k]
  }

  /** Where the parent of a page sits, and that it names the page once. */
  lemma ParentOf(pg: Pages, Up: seq<int>, Down: seq<int>, i: nat) returns (u: nat, j: nat)
    requires Names(pg, Up, Down) && NoDup(Down) && i < |Down|
    ensures At(pg, Up, i, u, j)
    ensures pg[Down[i]].parent == Up[u]
    ensures forall k :: 0 <= k < |pg[Up[u]].entries| ==>
                          (pg[Up[u]].entries[k].rid.pageNo == Down[i] <==> k == j)
  {
    u, j := Locate(pg, Up, i);
    forall k | 0 <= k < |pg[Up[u]].entries| && pg[Up[u]].entries[k].rid.pageNo == Down[i] ensures k == j {
      Position(pg, Up, u, k);
    }
  }

  /** Changes that keep the upper level's entries and the lower level's first keys and parents. */
  lemma LinkFrame(pg: Pages, pg': Pages, Up: seq<int>, Down: seq<int>)
    requires Link(pg, Up, Down)
    requires InPages(pg', Up) && SameEntries(pg, pg', Up)
    requires InPages(pg', Down) && Inhabited(pg', Down)
    requires forall k :: 0 <= k < |Down| ==>
               pg'[Down[k]].entries[0].key == pg[Down[k]].entries[0].key && pg'[Down[k]].parent == pg[Down[k]].parent
    ensures Link(pg', Up, Down)
  {
    FlatFrame(pg, pg', Up);
    forall u, j | 0 <= u < |Up| && 0 <= j < |pg'[Up[u]].entries|
      ensures pg'[Up[u]].entries[j].rid.pageNo in pg' && pg'[pg'[Up[u]].entries[j].rid.pageNo].parent == Up[u]
    {
      Position(pg, Up, u, j);
    }
  }

  /** Only the first key of lower page i changed: the link drifts there at most. */
  lemma LinkDrift(pg: Pages, pg': Pages, Up: seq<int>, Down: seq<int>, i: nat)
    requires Link(pg, Up, Down) && i < |Down|
    requires InPages(pg', Up) && SameEntries(pg, pg', Up)
    requires InPages(pg', Down) && Inhabited(pg', Down)
    requires forall k :: 0 <= k < |Down| ==>
               (k != i ==> pg'[Down[k]].entries[0].key == pg[Down[k]].entries[0].key) && pg'[Down[k]].parent == pg[Down[k]].parent
    ensures Drift(pg', Up, Down, i)
  {
    FlatFrame(pg, pg', Up);
    forall u, j | 0 <= u < |Up| && 0 <= j < |pg'[Up[u]].entries|
      ensures pg'[Up[u]].entries[j].rid.pageNo in pg' && pg'[pg'[Up[u]].entries[j].rid.pageNo].parent == Up[u]
    {
      Position(pg, Up, u, j);
    }
  }

  /** Writing the true first key into the parent repairs a drift. */
  lemma LinkRepair(pg: Pages, pg': Pages, Up: seq<int>, Down: seq<int>, i: nat, u: nat, j: nat)
    requires Drift(pg, Up, Down, i) && At(pg, Up, i, u, j) && NoDup(Up)
    requires InPages(pg', Up) && InPages(pg', Down) && SameEntries(pg, pg', Down)
    requires forall k :: 0 <= k < |Down| ==> pg'[Down[k]].parent == pg[Down[k]].parent
    requires forall k :: 0 <= k < |Up| && k != u ==> pg'[Up[k]].entries == pg[Up[k]].entries
    requires pg'[Up[u]].entries ==
             pg[Up[u]].entries[j := Entry(pg[Down[i]].entries[0].key, pg[Up[u]].entries[j].rid)]
    ensures Link(pg', Up, Down)
  {
    FlatSet(pg, pg', Up, u, j, Entry(pg[Down[i]].entries[0].key, pg[Up[u]].entries[j].rid));
    assert Flat(pg', Up) == Heads(pg', Down);
    forall v, k | 0 <= v < |Up| && 0 <= k < |pg'[Up[v]].entries|
      ensures pg'[Up[v]].entries[k].rid.pageNo in pg' && pg'[pg'[Up[v]].entries[k].rid.pageNo].parent == Up[v]
    {
      Position(pg, Up, v, k);
    }
  }

  /** Page i of the lower level has a new first key, and its parent has been told. */
  lemma LinkRekey(pg: Pages, pg': Pages, Up: seq<int>, Down: seq<int>, i: nat, u: nat, j: nat)
    requires Link(pg, Up, Down) && i < |Down| && At(pg, Up, i, u, j)
    requires InPages(pg', Up) && InPages(pg', Down) && Inhabited(pg', Down)
    requires forall k :: 0 <= k < |Down| ==>
               (k != i ==> pg'[Down[k]].entries[0].key == pg[Down[k]].entries[0].key) && pg'[Down[k]].parent == pg[Down[k]].parent
    requires forall k :: 0 <= k < |Up| && k != u ==> pg'[Up[k]].entries == pg[Up[k]].entries
    requires pg'[Up[u]].entries ==
             pg[Up[u]].entries[j := Entry(pg'[Down[i]].entries[0].key, pg[Up[u]].entries[j].rid)]
    ensures Link(pg', Up, Down)
  {
    FlatSet(pg, pg', Up, u, j, Entry(pg'[Down[i]].entries[0].key, pg[Up[u]].entries[j].rid));
    assert Flat(pg', Up) == Heads(pg', Down);
    forall v, k | 0 <= v < |Up| && 0 <= k < |pg'[Up[v]].entries|
      ensures pg'[Up[v]].entries[k].rid.pageNo in pg' && pg'[pg'[Up[v]].entries[k].rid.pageNo].parent == Up[v]
    {
      Position(pg, Up, v, k);
    }
  }

  /** A new page of the lower level, entered in the parent of its left neighbour. */
  lemma LinkInsert(pg: Pages, pg': Pages, Up: seq<int>, Down: seq<int>, i: nat, u: nat, j: nat, newcomer: int)
    requires Link(pg, Up, Down) && i < |Down| && At(pg, Up, i, u, j) && NoDup(Up)
    requires InPages(pg', Up) && InPages(pg', Down) && SameEntries(pg, pg', Down)
    requires forall k :: 0 <= k < |Down| ==> pg'[Down[k]].parent == pg[Down[k]].parent
    requires forall k :: 0 <= k < |Up| && k != u ==> pg'[Up[k]].entries == pg[Up[k]].entries
    requires newcomer in pg' && |pg'[newcomer].entries| > 0 && pg'[newcomer].parent == Up[u]
    requires pg'[Up[u]].entries ==
             InsertAt(pg[Up[u]].entries, j + 1, Entry(pg'[newcomer].entries[0].key, Rid(newcomer, -1)))
    ensures Link(pg', Up, InsertAt(Down, i + 1, newcomer))
  {
    hide Flat;
    var e := Entry(pg'[newcomer].entries[0].key, Rid(newcomer, -1));
    var Down' := InsertAt(Down, i + 1, newcomer);
    FlatInsert(pg, pg', Up, u, j + 1, e);
    assert Heads(pg', Down') == InsertAt(Heads(pg, Down), i + 1, e);
    forall v, k | 0 <= v < |Up| && 0 <= k < |pg'[Up[v]].entries|
      ensures pg'[Up[v]].entries[k].rid.pageNo in pg' && pg'[pg'[Up[v]].entries[k].rid.pageNo].parent == Up[v]
    {
      if v != u {
        Position(pg, Up, v, k);
      } else if k != j + 1 {
        Position(pg, Up, v, if k <= j then k else k - 1);
      }
    }
  }

  /** Page i + 1 of the lower level goes away together with its entry in the parent. */
  lemma LinkRemove(pg: Pages, pg': Pages, Up: seq<int>, Down: seq<int>, i: nat, u: nat, j: nat)
    requires Link(pg, Up, Down) && i < |Down| && At(pg, Up, i, u, j) && NoDup(Up)
    requires InPages(pg', Up) && InPages(pg', RemoveAt(Down, i)) && Inhabited(pg', RemoveAt(Down, i))
    requires forall k :: 0 <= k < |Down| && k != i ==>
               && Down[k] in pg' && |pg'[Down[k]].entries| > 0
               && pg'[Down[k]].entries[0].key == pg[Down[k]].entries[0].key && pg'[Down[k]].parent == pg[Down[k]].parent
    requires forall k :: 0 <= k < |Up| && k != u ==> pg'[Up[k]].entries == pg[Up[k]].entries
    requires pg'[Up[u]].entries == RemoveAt(pg[Up[u]].entries, j)
    ensures Link(pg', Up, RemoveAt(Down, i))
  {
    hide Flat;
    FlatRemove(pg, pg', Up, u, j);
    assert Heads(pg', RemoveAt(Down, i)) == RemoveAt(Heads(pg, Down), i);
    forall v, k | 0 <= v < |Up| && 0 <= k < |pg'[Up[v]].entries|
      ensures pg'[Up[v]].entries[k].rid.pageNo in pg' && pg'[pg'[Up[v]].entries[k].rid.pageNo].parent == Up[v]
    {
      var k' := if v == u && k >= j then k + 1 else k;
      Position(pg, Up, v, k');
      AtInjective(pg, Up, v, k', u, j);
    }
  }

  lemma AtInjective(pg: Pages, L: seq<int>, u: nat, j: nat, v: nat, k: nat)
    requires InPages(pg, L) && u < |L| && j < |pg[L[u]].entries| && v < |L| && k < |pg[L[v]].entries|
    requires (u, j) != (v, k)
    ensures |Flat(pg, L[..u])| + j != |Flat(pg, L[..v])| + k
  {
    if u < v {
      FlatPrefix(pg, L, u, v);
    } else if v < u {
      FlatPrefix(pg, L, v, u);
    }
  }

  lemma FlatPrefix(pg: Pages, L: seq<int>, u: nat, v: nat)
    requires InPages(pg, L) && u < v <= |L|
    ensures |Flat(pg, L[..u])| + |pg[L[u]].entries| <= |Flat(pg, L[..v])|
  {
    FlatAround(pg, L[..v], u);
    assert L[..v][..u] == L[..u] && L[..v][u] == L[u];
  }

  lemma SortedHeads(pg: Pages, L: seq<int>)
    requires InPages(pg, L) && Inhabited(pg, L) && Sorted(Flat(pg, L))
    ensures Sorted(Heads(pg, L))
  {
    forall i, j | 0 <= i < j < |L| ensures Heads(pg, L)[i].key < Heads(pg, L)[j].key {
      Position(pg, L, i, 0);
      Position(pg, L, j, 0);
      FlatPrefix(pg, L, i, j);
    }
  }

  /** Sortedness of each page of a sorted level. */
  lemma SortedPage(pg: Pages, L: seq<int>, i: nat)
    requires InPages(pg, L) && i < |L| && Sorted(Flat(pg, L))
    ensures Sorted(pg[L[i]].entries)
  {
    forall a, b | 0 <= a < b < |pg[L[i]].entries| ensures pg[L[i]].entries[a].key < pg[L[i]].entries[b].key {
      Position(pg, L, i, a);
      Position(pg, L, i, b);
    }
  }
}
