/**
  The B+ tree handle.  Its pages are a map updated in place; a page handle is a page number plus
  one pin in the buffer pool.  Every public operation runs under the tree latch, so it is one step.
  */
module IndexHandle {
  import opened Sequences
  import opened IndexPages
  import opened IndexTree
  import opened IndexShape
  import opened IndexRemoval

  class Handle {
    const order: int
    const firstLeaf: int
    var pages: Pages
    var numPages: int
    var root: int
    var lastLeaf: int
    var cachedLeaf: int
    var pinnedLeaf: int
    var pins: multiset<int>
    ghost var levels: seq<seq<int>>
    ghost var height: map<int, nat>

    ghost function T(): Tree
      reads this`pages, this`numPages, this`root, this`lastLeaf, this`levels, this`height
    {
      Tree(order, pages, numPages, root, lastLeaf, levels, height)
    }

    /** The key-rid map the tree stands for. */
    ghost function Contents(): map<int, Rid>
      requires Shape(T())
      reads this`pages, this`numPages, this`root, this`lastLeaf, this`levels, this`height
    {
      ToMap(Entries(T()))
    }

    /** The pins the handle keeps between operations: one for a held leaf, none otherwise. */
    ghost function HeldPins(): multiset<int>
      reads this
    {
      if pinnedLeaf == NO_PAGE then multiset{} else multiset{pinnedLeaf}
    }

    /** The pins while an operation uses a leaf, under the held pin or under one of its own. */
    ghost function LocalPins(leaf: int, owned: bool): multiset<int>
      reads this
    {
      if owned then multiset{leaf} else HeldPins() + multiset{leaf}
    }

    ghost predicate Valid()
      reads this
    {
      && Shape(T()) && firstLeaf == INIT_ROOT_PAGE
      && pins == HeldPins()
      && (pinnedLeaf != NO_PAGE ==> Listed(levels[0], pinnedLeaf))
    }

    /** A new index file: the ring's header page and one empty leaf, which is the root. */
    constructor (order: int)
      requires order >= 3
      ensures Valid() && Contents() == map[] && this.order == order
    {
      this.order, firstLeaf := order, INIT_ROOT_PAGE;
      pages := map[LEAF_HEADER_PAGE := Page(NO_PAGE, true, INIT_ROOT_PAGE, INIT_ROOT_PAGE, []),
                   INIT_ROOT_PAGE := Page(NO_PAGE, true, LEAF_HEADER_PAGE, LEAF_HEADER_PAGE, [])];
      numPages, root, lastLeaf := INIT_NUM_PAGES, INIT_ROOT_PAGE, INIT_ROOT_PAGE;
      cachedLeaf, pinnedLeaf, pins := NO_PAGE, NO_PAGE, multiset{};
      levels, height := [[INIT_ROOT_PAGE]], map[INIT_ROOT_PAGE := 0];
      new;
      EmptyTree(T());
    }

    // ---------------------------------------------------------------------------------------
    // Pages and pins

    method FetchNode(p: int)
      requires p in pages && 0 < p < numPages
      modifies this`pins
      ensures pins == old(pins) + multiset{p}
    {
      pins := pins + multiset{p};
    }

    method UnpinPage(p: int)
      requires p in pins
      modifies this`pins
      ensures pins == old(pins) - multiset{p}
    {
      pins := pins - multiset{p};
    }

    method ReleasePinnedLeaf()
      requires pinnedLeaf != NO_PAGE ==> pinnedLeaf in pins
      modifies this`pins, this`pinnedLeaf
      ensures pinnedLeaf == NO_PAGE
      ensures pins == if old(pinnedLeaf) == NO_PAGE then old(pins) else old(pins) - multiset{old(pinnedLeaf)}
    {
      if pinnedLeaf != NO_PAGE {
        UnpinPage(pinnedLeaf);
        pinnedLeaf := NO_PAGE;
      }
    }

    // ---------------------------------------------------------------------------------------
    // Search

    /** Descends from the root to the leaf responsible for the key. */
    method FindLeafPage(key: int) returns (leaf: int, ghost i: nat)
      requires Shape(T())
      modifies this`pins
      ensures |levels| >= 1 && i < |levels[0]| && Covers(pages, levels[0], i, key) && leaf == levels[0][i]
      ensures pins == old(pins) + multiset{leaf}
    {
      hide Known, Rooted, LinkedBut, SizedBut;
      ghost var h := |levels| - 1;
      RootFacts(T());
      leaf, i := root, 0;
      FetchNode(leaf);
      while !pages[leaf].isLeaf
        invariant 0 <= h < |levels| && Covers(pages, levels[h], i, key) && leaf == levels[h][i]
        invariant leaf in pages && pages[leaf].isLeaf == (h == 0)
        invariant pins == old(pins) + multiset{leaf}
        decreases h
      {
        NodeSorted(T(), h, i);
        NodeSize(T(), h, i);
        var idx := NodeUpperBound(pages[leaf].entries, key);
        var child := pages[leaf].entries[idx - 1].rid.pageNo;
        i := DescendStep(T(), h, i, key, idx);
        h := h - 1;
        PageFacts(T(), h, i);
        UnpinPage(leaf);
        leaf := child;
        FetchNode(leaf);
      }
    }

    method GetValue(key: int) returns (found: bool, rid: Rid)
      requires Valid()
      modifies this`pins
      ensures Valid() && T() == old(T())
      ensures found <==> key in Contents()
      ensures found ==> rid == Contents()[key]
    {
      hide Shape, Covers, LowerBoundAt, ToMap, Entries, Listed;
      var leaf;
      ghost var i: nat;
      leaf, i := FindLeafPage(key);
      var idx;
      found, idx := LeafSearch(leaf, key, i);
      rid := if found then pages[leaf].entries[idx].rid else Rid(NO_PAGE, -1);
      UnpinPage(leaf);
    }

    /** Looks for the key in the leaf responsible for it. */
    method LeafSearch(leaf: int, key: int, ghost i: nat) returns (found: bool, pos: nat)
      requires Shape(T()) && i < |levels[0]| && leaf == levels[0][i] && Covers(pages, levels[0], i, key)
      ensures leaf in pages && LowerBoundAt(pages[leaf].entries, key, pos)
      ensures found <==> pos < |pages[leaf].entries| && pages[leaf].entries[pos].key == key
      ensures found <==> key in ToMap(Entries(T()))
      ensures found ==> ToMap(Entries(T()))[key] == pages[leaf].entries[pos].rid
    {
      hide Known, Rooted, LinkedBut, SizedBut, Covers, LowerBoundAt, ToMap, Flat;
      RootFacts(T());
      NodeSorted(T(), 0, i);
      pos := NodeLowerBound(pages[leaf].entries, key);
      LeafLookup(T(), i, key, pos);
      found := pos < |pages[leaf].entries| && pages[leaf].entries[pos].key == key;
    }

    // ---------------------------------------------------------------------------------------
    // Insertion

    /** Carries a changed first key upwards until an ancestor already has it. */
    method MaintainParent(node: int, ghost i: nat)
      requires Drifting(T(), 0, i) && node == levels[0][i]
      requires |levels| > 1 ==> |pages[node].entries| > 0
      modifies this`pages, this`pins
      ensures Known(T()) && Rooted(T()) && LinkedBut(T(), -1)
      ensures Entries(T()) == old(Entries(T())) && SameSizes(old(pages), pages)
      ensures node in pages && pages[node].entries == old(pages[node].entries)
      ensures pins == old(pins)
    {
      hide Drifting, Known, Rooted, LinkedBut, Flat, Names, Drift, Entries, InPages;
      DriftingFacts(T(), 0, i);
      var curr := node;
      ghost var h: nat, c: nat := 0, i;
      while pages[curr].parent != NO_PAGE
        invariant Drifting(T(), h, c) && h < |levels| && c < |levels[h]| && curr == levels[h][c] && curr in pages
        invariant InPages(pages, levels[0])
        invariant Entries(T()) == old(Entries(T())) && SameSizes(old(pages), pages)
        invariant node in pages && pages[node].entries == old(pages[node].entries)
        invariant pins == old(pins)
        invariant h + 1 < |levels| ==> |pages[curr].entries| > 0
        decreases |levels| - h
      {
        var parent := pages[curr].parent;
        ghost var u, j := DriftingParent(T(), h, c);
        FetchNode(parent);
        assert pages[parent].entries[j].rid.pageNo == curr;
        var rank := FindChild(pages[parent].entries, curr);
        if pages[parent].entries[rank].key == pages[curr].entries[0].key {
          UnpinPage(parent);
          DriftingDone(T(), h, c, u, j);
          return;
        }
        ghost var t := T();
        pages := pages[parent := pages[parent].(entries := pages[parent].entries[
                                   rank := Entry(pages[curr].entries[0].key, pages[parent].entries[rank].rid)])];
        ClimbStep(t, T(), h, c, u, j);
        h, c := h + 1, u;
        curr := parent;
        DriftingFacts(T(), h, c);
        UnpinPage(parent);
      }
      DriftingTop(T(), h, c);
    }

    /** A fresh page, pinned: page numbers are never reused. */
    method CreateNode(parent: int, isLeaf: bool) returns (p: int)
      modifies this`pages, this`numPages, this`pins
      ensures p == old(numPages) && numPages == p + 1
      ensures pages == old(pages)[p := Page(parent, isLeaf, 0, 0, [])]
      ensures pins == old(pins) + multiset{p}
    {
      p := numPages;
      numPages := numPages + 1;
      pages := pages[p := Page(parent, isLeaf, 0, 0, [])];
      pins := pins + multiset{p};
    }

    /** Points the child at position idx of a page back at that page. */
    method MaintainChild(node: int, idx: nat)
      requires node in pages && !pages[node].isLeaf && idx < |pages[node].entries|
      requires var c := pages[node].entries[idx].rid.pageNo; c in pages && 0 < c < numPages
      modifies this`pages, this`pins
      ensures var c := old(pages)[node].entries[idx].rid.pageNo;
              pages == old(pages)[c := old(pages)[c].(parent := node)]
      ensures pins == old(pins)
    {
      var child := pages[node].entries[idx].rid.pageNo;
      FetchNode(child);
      pages := pages[child := pages[child].(parent := node)];
      UnpinPage(child);
    }

    /** Points every child from position `from` on back at the page. */
    method MaintainChildren(node: int, from: nat)
      requires node in pages && !pages[node].isLeaf && from <= |pages[node].entries|
      requires forall k :: from <= k < |pages[node].entries| ==>
                 var c := pages[node].entries[k].rid.pageNo; c in pages && 0 < c < numPages
      modifies this`pages, this`pins
      ensures Repointed(old(pages), pages, old(pages)[node].entries[from..], node)
      ensures pins == old(pins)
    {
      ghost var es := pages[node].entries[from..];
      var k := from;
      assert es[..0] == [];
      while k < |pages[node].entries|
        invariant from <= k <= |old(pages)[node].entries|
        invariant Repointed(old(pages), pages, es[..k - from], node)
        invariant pins == old(pins)
        decreases |old(pages)[node].entries| - k
      {
        assert es[k - from] == pages[node].entries[k];
        RepointStep(old(pages), pages, es, k - from, node);
        MaintainChild(node, k);
        k := k + 1;
      }
      assert es[..k - from] == es;
    }

    /** Moves the right half of an overfull page to a new page on its right. */
    method Split(node: int, ghost h: nat, ghost i: nat) returns (newNode: int)
      requires Overfull(T(), h, i) && node == levels[h][i]
      modifies this`pages, this`numPages, this`lastLeaf, this`pins, this`levels, this`height
      ensures Orphan(T(), h, i)
      ensures levels == old(levels)[h := InsertAt(old(levels)[h], i + 1, newNode)]
      ensures InPages(old(pages), old(levels)[0]) && InPages(pages, levels[0]) && Entries(T()) == old(Entries(T()))
      ensures pins == old(pins) + multiset{newNode}
    {
      hide Known, Rooted, LinkedBut, SizedBut, Flat, Orphan, Entries;
      PageFacts(T(), h, i);
      if pages[node].isLeaf {
        newNode := SplitLeafNode(node, i);
      } else {
        newNode := SplitInternalNode(node, h, i);
      }
    }

    /** The leaf branch of split: entries move and the ring is relinked. */
    method SplitLeafNode(node: int, ghost i: nat) returns (newNode: int)
      requires Overfull(T(), 0, i) && node == levels[0][i]
      modifies this`pages, this`numPages, this`lastLeaf, this`pins, this`levels, this`height
      ensures Orphan(T(), 0, i)
      ensures levels == old(levels)[0 := InsertAt(old(levels)[0], i + 1, newNode)]
      ensures InPages(old(pages), old(levels)[0]) && InPages(pages, levels[0]) && Entries(T()) == old(Entries(T()))
      ensures pins == old(pins) + multiset{newNode}
    {
      hide Known, Rooted, LinkedBut, SizedBut, Flat, Orphan, Entries;
      ghost var t := T();
      ghost var t' := SplitLeaf(t, i);
      PageFacts(t, 0, i);
      newNode := CreateNode(pages[node].parent, pages[node].isLeaf);
      var es := pages[node].entries;
      var splitPos := |es| / 2;
      var oldNext := pages[node].nextLeaf;
      pages := pages[newNode := pages[newNode].(prevLeaf := node, nextLeaf := oldNext, entries := es[splitPos..])]
                    [node := pages[node].(entries := es[..splitPos], nextLeaf := newNode)];
      FetchNode(oldNext);
      pages := pages[oldNext := pages[oldNext].(prevLeaf := newNode)];
      UnpinPage(oldNext);
      if node == lastLeaf {
        lastLeaf := newNode;
      }
      levels := levels[0 := InsertAt(levels[0], i + 1, newNode)];
      height := height[newNode := 0];
      assert T().pages == t'.pages;
    }

    /** The internal branch of split: the pages handed over are pointed at the new page. */
    method SplitInternalNode(node: int, ghost h: nat, ghost i: nat) returns (newNode: int)
      requires Overfull(T(), h, i) && node == levels[h][i] && h > 0
      modifies this`pages, this`numPages, this`pins, this`levels, this`height
      ensures Orphan(T(), h, i)
      ensures levels == old(levels)[h := InsertAt(old(levels)[h], i + 1, newNode)]
      ensures InPages(old(pages), old(levels)[0]) && InPages(pages, levels[0]) && Entries(T()) == old(Entries(T()))
      ensures pins == old(pins) + multiset{newNode}
    {
      hide Known, Rooted, LinkedBut, SizedBut, Flat, Orphan, Entries;
      ghost var t := T();
      PageFacts(t, h, i);
      newNode := CreateNode(pages[node].parent, pages[node].isLeaf);
      var es := pages[node].entries;
      var splitPos := |es| / 2;
      pages := pages[newNode := pages[newNode].(entries := es[splitPos..])][node := pages[node].(entries := es[..splitPos])];
      forall k | 0 <= k < |pages[newNode].entries|
        ensures var c := pages[newNode].entries[k].rid.pageNo; c in pages && 0 < c < numPages
      {
        ChildFacts(t, h, i, splitPos + k);
      }
      ghost var newPage, pg := pages[newNode], pages;
      MaintainChildren(newNode, 0);
      assert es[splitPos..][0..] == es[splitPos..];
      levels := levels[h := InsertAt(levels[h], i + 1, newNode)];
      height := height[newNode := h];
      assert pg == t.pages[newNode := newPage][node := t.pages[node].(entries := es[..splitPos])];
      SplitInternal(t, T(), h, i, newPage);
    }

    /** Enters a page split off to the right of oldNode into the level above. */
    method InsertIntoParent(oldNode: int, newNode: int, ghost h: nat, ghost i: nat)
      requires Orphan(T(), h, i) && oldNode == levels[h][i] && newNode == levels[h][i + 1]
      requires InPages(pages, levels[0])
      modifies this`pages, this`numPages, this`root, this`lastLeaf, this`pins, this`levels, this`height
      ensures Shape(T()) && Entries(T()) == old(Entries(T()))
      ensures |levels| > h && forall g :: 0 <= g <= h ==> levels[g] == old(levels)[g]
      ensures pins == old(pins)
      decreases |levels| - h, 0
    {
      hide Shape, Flat, Orphan, Overfull, At, Entries, InPages;
      ghost var u, j := OrphanParent(T(), h, i);
      if pages[oldNode].parent == NO_PAGE {
        GrowRoot(oldNode, newNode, h, i);
      } else {
        var parent := pages[oldNode].parent;
        FetchNode(parent);
        EnterInParent(parent, oldNode, newNode, h, i, u, j);
        if |pages[parent].entries| >= MaxSize(order) {
          var newParent := SplitAndInsert(parent, h + 1, u);
        }
        UnpinPage(parent);
      }
    }

    /** Splits an overfull page and enters the new page in the level above. */
    method SplitAndInsert(node: int, ghost h: nat, ghost i: nat) returns (newNode: int)
      requires Overfull(T(), h, i) && node == levels[h][i] && InPages(pages, levels[0])
      modifies this`pages, this`numPages, this`root, this`lastLeaf, this`pins, this`levels, this`height
      ensures Shape(T()) && Entries(T()) == old(Entries(T()))
      ensures |levels| > h && forall g :: 0 <= g < h ==> levels[g] == old(levels)[g]
      ensures levels[h] == InsertAt(old(levels)[h], i + 1, newNode)
      ensures pins == old(pins)
      decreases |levels| - h, 1
    {
      hide Known, Rooted, LinkedBut, SizedBut, Flat, Orphan, Entries, InPages;
      newNode := Split(node, h, i);
      InsertIntoParent(node, newNode, h, i);
      UnpinPage(newNode);
    }

    /** Puts a new root above the old root and the page split off it. */
    method GrowRoot(oldNode: int, newNode: int, ghost h: nat, ghost i: nat)
      requires Orphan(T(), h, i) && oldNode == levels[h][i] && newNode == levels[h][i + 1]
      requires h + 1 == |levels| && InPages(pages, levels[0])
      modifies this`pages, this`numPages, this`root, this`pins, this`levels, this`height
      ensures Shape(T()) && Entries(T()) == old(Entries(T()))
      ensures levels == old(levels) + [[root]]
      ensures pins == old(pins)
    {
      hide Shape, Flat, Orphan, Entries;
      ghost var t := T();
      ghost var u, j := OrphanParent(t, h, i);
      var newRoot := CreateNode(NO_PAGE, false);
      ghost var rootPage := Page(NO_PAGE, false, 0, 0, [Entry(pages[oldNode].entries[0].key, Rid(oldNode, -1)),
                                                        Entry(pages[newNode].entries[0].key, Rid(newNode, -1))]);
      ghost var t' := NewRoot(t, h, i, rootPage);
      pages := pages[newRoot := pages[newRoot].(entries :=
                       [Entry(pages[oldNode].entries[0].key, Rid(oldNode, -1)),
                        Entry(pages[newNode].entries[0].key, Rid(newNode, -1))])];
      pages := pages[oldNode := pages[oldNode].(parent := newRoot)];
      pages := pages[newNode := pages[newNode].(parent := newRoot)];
      root := newRoot;
      levels := levels + [[newRoot]];
      height := height[newRoot := |t.levels|];
      assert T().pages == t'.pages;
      UnpinPage(newRoot);
    }

    /** Gives the parent of oldNode an entry for newNode right after oldNode's. */
    method EnterInParent(parent: int, oldNode: int, newNode: int, ghost h: nat, ghost i: nat, ghost u: nat, ghost j: nat)
      requires Orphan(T(), h, i) && oldNode == levels[h][i] && newNode == levels[h][i + 1]
      requires h + 1 < |levels| && InPages(pages, levels[0]) && At(pages, levels[h + 1], i, u, j)
      requires parent == levels[h + 1][u] && parent in pages && parent != newNode
      requires newNode in pages && |pages[newNode].entries| > 0 && |pages[parent].entries| <= order
      requires j < |pages[parent].entries|
      requires forall k :: 0 <= k < |pages[parent].entries| ==> (pages[parent].entries[k].rid.pageNo == oldNode <==> k == j)
      modifies this`pages
      ensures InPages(pages, levels[0]) && Entries(T()) == old(Entries(T())) && parent in pages
      ensures if |pages[parent].entries| >= MaxSize(order) then Overfull(T(), h + 1, u) else Shape(T())
    {
      hide Shape, Overfull, Flat, Orphan, At, Entries;
      ghost var t := T();
      assert pages[parent].entries[j].rid.pageNo == oldNode;
      var oldIdx := FindChild(pages[parent].entries, oldNode);
      pages := pages[parent := pages[parent].(entries := InsertAt(pages[parent].entries, oldIdx + 1,
                                              Entry(pages[newNode].entries[0].key, Rid(newNode, -1))))];
      pages := pages[newNode := pages[newNode].(parent := parent)];
      assert T() == Adopt(t, parent, newNode, j + 1);
      Adopted(t, T(), h, i, u, j);
    }

    /** The remembered rightmost leaf, if the key is not below its first key; else NO_PAGE.
        `owned` says that the pin used is the one held between calls. */
    method RememberedLeaf(key: int) returns (leaf: int, owned: bool)
      requires Valid()
      modifies this`pins
      ensures owned ==> leaf != NO_PAGE && pinnedLeaf == leaf
      ensures leaf != NO_PAGE ==> |levels[0]| > 0 && leaf == levels[0][|levels[0]| - 1]
                                  && Covers(pages, levels[0], |levels[0]| - 1, key)
      ensures pins == if leaf == NO_PAGE || owned then old(pins) else old(pins) + multiset{leaf}
    {
      hide Shape, Covers;
      leaf, owned := NO_PAGE, false;
      if cachedLeaf != NO_PAGE && cachedLeaf == lastLeaf {
        LastFacts(T());
        if pinnedLeaf == cachedLeaf {
          if pages[pinnedLeaf].isLeaf && |pages[pinnedLeaf].entries| > 0 && key >= pages[pinnedLeaf].entries[0].key {
            LastCovers(T(), key);
            leaf, owned := pinnedLeaf, true;
          }
        } else {
          FetchNode(cachedLeaf);
          if pages[cachedLeaf].isLeaf && |pages[cachedLeaf].entries| > 0 && key >= pages[cachedLeaf].entries[0].key {
            LastCovers(T(), key);
            leaf := cachedLeaf;
          } else {
            UnpinPage(cachedLeaf);
          }
        }
      }
    }

    /** The leaf an insertion goes to: the remembered one, otherwise the leaf found from the root.
        Either way it is the only leaf responsible for the key. */
    method PickLeaf(key: int) returns (leaf: int, owned: bool, ghost i: nat)
      requires Valid()
      modifies this`pins
      ensures i < |levels[0]| && leaf == levels[0][i] && Covers(pages, levels[0], i, key)
      ensures owned ==> pinnedLeaf == leaf && leaf != NO_PAGE
      ensures pins == LocalPins(leaf, owned)
    {
      hide Shape, Covers;
      leaf, owned := RememberedLeaf(key);
      if leaf == NO_PAGE {
        leaf, i := FindLeafPage(key);
      } else {
        LastFacts(T());
        i := |levels[0]| - 1;
      }
    }

    /** Puts a new key into the leaf responsible for it and tells the ancestors of a new first key. */
    method InsertIntoLeaf(leaf: int, pos: nat, key: int, rid: Rid, ghost i: nat)
      requires Shape(T()) && i < |levels[0]| && leaf == levels[0][i] && Covers(pages, levels[0], i, key)
      requires leaf in pages && pos <= |pages[leaf].entries|
      requires forall j :: 0 <= j < pos ==> pages[leaf].entries[j].key < key
      requires forall j :: pos <= j < |pages[leaf].entries| ==> key < pages[leaf].entries[j].key
      modifies this`pages, this`pins
      ensures Known(T()) && Rooted(T()) && LinkedBut(T(), -1) && SizedBut(T(), leaf)
      ensures key !in ToMap(old(Entries(T()))) && ToMap(Entries(T())) == ToMap(old(Entries(T())))[key := rid]
      ensures leaf in pages && |pages[leaf].entries| == |old(pages)[leaf].entries| + 1
      ensures InPages(pages, levels[0]) && pages[leaf].isLeaf == old(pages)[leaf].isLeaf
      ensures pins == old(pins)
    {
      hide Shape, Known, Rooted, LinkedBut, SizedBut, Covers, Flat, Entries, ToMap, InPages;
      ghost var t := T();
      InsertedFacts(t, i);
      pages := pages[leaf := pages[leaf].(entries := InsertAt(pages[leaf].entries, pos, Entry(key, rid)))];
      ghost var t1 := T();
      LeafInsert(t, t1, i, pos, Entry(key, rid));
      if pages[leaf].entries[0].key == key {
        MaintainParent(leaf, i);
        SizedFrame(t1, T(), leaf);
      } else {
        LeafEditLinked(t, t1, i);
      }
      DriftingFacts(t1, 0, i);
      LevelFacts(T(), 0);
    }

    /** Inserts a key unless the tree holds it; returns the leaf that was responsible for it. */
    method InsertEntry(key: int, rid: Rid) returns (leafPage: int)
      requires Valid()
      modifies this
      ensures Valid()
      ensures Contents() == if key in old(Contents()) then old(Contents()) else old(Contents())[key := rid]
      ensures key in old(Contents()) ==> T() == old(T())
      ensures exists i: nat :: Covers(old(pages), old(levels)[0], i, key) && leafPage == old(levels)[0][i]
    {
      hide Shape, Covers, LowerBoundAt, ToMap, Entries, Listed;
      var owned;
      ghost var i: nat;
      leafPage, owned, i := PickLeaf(key);
      var found, pos := LeafSearch(leafPage, key, i);
      if found {
        DropLeaf(leafPage, owned);
      } else {
        InsertFresh(leafPage, owned, pos, key, rid, i);
      }
    }

    /** Gives back an operation's own pin on a leaf. */
    method DropLeaf(leaf: int, owned: bool)
      requires pins == LocalPins(leaf, owned) && (owned ==> pinnedLeaf == leaf && leaf != NO_PAGE)
      modifies this`pins
      ensures pins == HeldPins()
    {
      if !owned {
        UnpinPage(leaf);
      }
    }

    /** Inserts a key the tree does not hold. */
    method InsertFresh(leaf: int, owned: bool, pos: nat, key: int, rid: Rid, ghost i: nat)
      requires Shape(T()) && firstLeaf == INIT_ROOT_PAGE
      requires i < |levels[0]| && leaf == levels[0][i] && Covers(pages, levels[0], i, key)
      requires leaf in pages && LowerBoundAt(pages[leaf].entries, key, pos)
      requires pos < |pages[leaf].entries| ==> pages[leaf].entries[pos].key != key
      requires pinnedLeaf != NO_PAGE ==> Listed(levels[0], pinnedLeaf)
      requires owned ==> pinnedLeaf == leaf
      requires pins == LocalPins(leaf, owned)
      modifies this
      ensures Valid()
      ensures Contents() == old(Contents())[key := rid]
    {
      hide Shape, Covers, Flat, ToMap, Entries, Known, Rooted, LinkedBut, SizedBut, Overfull, InPages, SizeOk, Listed;
      InsertedFacts(T(), i);
      NodeSize(T(), 0, i);
      NodeOrdered(T(), 0, i);
      InsertIntoLeaf(leaf, pos, key, rid, i);
      if |pages[leaf].entries| >= MaxSize(order) {
        OverfullLeaf(T(), i);
        FinishSplit(leaf, owned, i);
      } else {
        ShapeAgain(T(), i);
        ListedAt(levels[0], i);
        FinishInPlace(leaf, owned);
      }
    }

    /** The leaf is overfull: it is split, and the pin held on it, if any, is given back. */
    method FinishSplit(leaf: int, owned: bool, ghost i: nat)
      requires Overfull(T(), 0, i) && |levels| >= 1 && i < |levels[0]| && leaf == levels[0][i] && firstLeaf == INIT_ROOT_PAGE
      requires InPages(pages, levels[0])
      requires pinnedLeaf != NO_PAGE ==> Listed(levels[0], pinnedLeaf)
      requires owned ==> pinnedLeaf == leaf
      requires pins == LocalPins(leaf, owned)
      modifies this
      ensures Valid() && Entries(T()) == old(Entries(T()))
    {
      hide Shape, Flat, Entries, InPages, Overfull, Listed;
      ghost var t, L := T(), levels[0];
      if owned {
        pinnedLeaf := NO_PAGE;
      }
      assert T() == t && pins == HeldPins() + multiset{leaf};
      var newLeaf := SplitAndInsert(leaf, 0, i);
      if pinnedLeaf != NO_PAGE {
        InsertKeeps(L, i + 1, newLeaf, pinnedLeaf);
      }
      ghost var t' := T();
      cachedLeaf := lastLeaf;
      UnpinPage(leaf);
      assert T() == t' && pins == HeldPins();
    }

    /** The leaf still has room: it is remembered and stays pinned in place of the one held before. */
    method FinishInPlace(leaf: int, owned: bool)
      requires Shape(T()) && |levels| >= 1 && Listed(levels[0], leaf) && leaf != NO_PAGE && firstLeaf == INIT_ROOT_PAGE
      requires owned ==> pinnedLeaf == leaf
      requires pins == LocalPins(leaf, owned)
      modifies this`cachedLeaf, this`pins, this`pinnedLeaf
      ensures Valid()
    {
      hide Shape, Listed;
      cachedLeaf := leaf;
      if !owned {
        ReleasePinnedLeaf();
        pinnedLeaf := leaf;
      }
    }

    // ---------------------------------------------------------------------------------------
    // Deletion

    /** A page that nobody has pinned goes away; its number is not used again. */
    method DeletePage(p: int)
      requires p in pages && p !in pins
      modifies this`pages
      ensures pages == old(pages) - {p}
    {
      pages := pages - {p};
    }

    /** Removes a key if the tree holds it, and says whether it did. */
    method DeleteEntry(key: int) returns (deleted: bool)
      requires Valid()
      modifies this
      ensures Valid()
      ensures deleted <==> key in old(Contents())
      ensures Contents() == old(Contents()) - {key}
      ensures !deleted ==> T() == old(T())
    {
      hide Shape, Covers, LowerBoundAt, ToMap, Entries, Listed;
      cachedLeaf := NO_PAGE;
      ReleasePinnedLeaf();
      var leaf;
      ghost var i: nat;
      leaf, i := FindLeafPage(key);
      var pos;
      deleted, pos := LeafSearch(leaf, key, i);
      if deleted {
        RemoveHeld(leaf, pos, key, i);
      } else {
        UnpinPage(leaf);
        RemoveAbsent(Contents(), key);
      }
    }

    /** Removes the entry at a position of a leaf that this operation alone has pinned. */
    method RemoveHeld(leaf: int, pos: nat, key: int, ghost i: nat)
      requires Shape(T()) && firstLeaf == INIT_ROOT_PAGE && pinnedLeaf == NO_PAGE
      requires |levels| >= 1 && i < |levels[0]| && leaf == levels[0][i] && leaf in pages
      requires pos < |pages[leaf].entries| && pages[leaf].entries[pos].key == key
      requires pins == multiset{leaf}
      modifies this
      ensures Valid()
      ensures Contents() == old(Contents()) - {key}
    {
      hide Shape, ToMap, Entries, Listed, Underfull, InPages;
      RemoveFromLeaf(leaf, pos, i);
      UnderfullFacts(T(), 0, i);
      var nodeDeleted := CoalesceOrRedistribute(leaf, 0, i);
      if !nodeDeleted {
        UnpinPage(leaf);
      }
    }

    /** Takes an entry out of a leaf and tells the ancestors of a new first key. */
    method RemoveFromLeaf(leaf: int, pos: nat, ghost i: nat)
      requires Shape(T()) && |levels| >= 1 && i < |levels[0]| && leaf == levels[0][i] && leaf in pages
      requires pos < |pages[leaf].entries|
      modifies this`pages, this`pins
      ensures Underfull(T(), 0, i)
      ensures InPages(old(pages), old(levels)[0]) && InPages(pages, levels[0]) && Sorted(Entries(T())) && Sorted(old(Entries(T())))
      ensures ToMap(Entries(T())) == ToMap(old(Entries(T()))) - {old(pages)[leaf].entries[pos].key}
      ensures pins == old(pins)
    {
      hide Shape, Known, Rooted, LinkedBut, SizedBut, Flat, Entries, ToMap, InPages, Sorted, SizeOk;
      ghost var t := T();
      InsertedFacts(t, i);
      NodeSize(t, 0, i);
      pages := pages[leaf := pages[leaf].(entries := RemoveAt(pages[leaf].entries, pos))];
      ghost var t1 := T();
      LeafRemove(t, t1, i, pos);
      DriftingFacts(t1, 0, i);
      if |pages[leaf].entries| > 0 {
        MaintainParent(leaf, i);
        SizedFrame(t1, T(), leaf);
      } else {
        SingleLinked(t1);
      }
      LevelFacts(T(), 0);
      RemovedFacts(t, T(), i);
    }

    /** Repairs a node that may be one entry short.  The result says exactly whether the node's own
        page left the tree; the node's pin goes with it, and all other pins stay as they were. */
    method CoalesceOrRedistribute(node: int, ghost h: nat, ghost i: nat) returns (deleted: bool)
      requires Underfull(T(), h, i) && h < |levels| && i < |levels[h]| && node == levels[h][i]
      requires InPages(pages, levels[0])
      requires Alone(pins, height, node, h)
      modifies this`pages, this`root, this`lastLeaf, this`pins, this`levels
      ensures Shape(T()) && Entries(T()) == old(Entries(T()))
      ensures deleted <==> node !in pages
      ensures pins == if deleted then old(pins) - multiset{node} else old(pins)
      ensures Shrunk(old(pages), pages, height, h)
      decreases |levels| - h, 1
    {
      hide Shape, Entries, InPages, Underfull, Alone, Pair;
      ghost var t := T();
      UnderfullFacts(t, h, i);
      if pages[node].parent == NO_PAGE {
        deleted := AdjustRoot(node, h, i);
      } else if |pages[node].entries| >= MinSize(order) {
        Enough(t, h, i);
        ShrunkSame(pages, pages, height, h);
        deleted := false;
      } else {
        deleted := BalanceWithSibling(node, h, i);
      }
    }

    /** An internal root with one child hands the root over to that child. */
    method AdjustRoot(node: int, ghost h: nat, ghost i: nat) returns (deleted: bool)
      requires Underfull(T(), h, i) && h < |levels| && i < |levels[h]| && node == levels[h][i] && h + 1 == |levels|
      requires InPages(pages, levels[0])
      requires Alone(pins, height, node, h)
      modifies this`pages, this`root, this`pins, this`levels
      ensures Shape(T()) && Entries(T()) == old(Entries(T()))
      ensures deleted <==> node !in pages
      ensures pins == if deleted then old(pins) - multiset{node} else old(pins)
      ensures Shrunk(old(pages), pages, height, h)
    {
      hide Shape, Entries, InPages, Underfull, Shrunk;
      ghost var t := T();
      UnderfullFacts(t, h, i);
      if !pages[node].isLeaf && |pages[node].entries| == 1 {
        PromoteChild(node, h, i);
        deleted := true;
      } else {
        UnderfullRoot(t, h, i);
        Enough(t, h, i);
        ShrunkSame(pages, pages, height, h);
        deleted := false;
      }
    }

    /** The only child of the root becomes the root; the old root's page is deleted. */
    method PromoteChild(node: int, ghost h: nat, ghost i: nat)
      requires Underfull(T(), h, i) && h > 0 && node == root && h + 1 == |levels|
      requires node in pages && |pages[node].entries| == 1
      requires node in height && height[node] == h
      requires Alone(pins, height, node, h)
      modifies this`pages, this`root, this`pins, this`levels
      ensures InPages(old(pages), old(levels)[0]) && Shape(T()) && Entries(T()) == old(Entries(T()))
      ensures node !in pages
      ensures pins == old(pins) - multiset{node}
      ensures Shrunk(old(pages), pages, height, h)
    {
      hide Shape, Entries, InPages, Underfull, Shrunk;
      ghost var t := T();
      ghost var t' := DropRootWritten(t, i);
      var childPage := pages[node].entries[0].rid.pageNo;
      FetchNode(childPage);
      pages := pages[childPage := pages[childPage].(parent := NO_PAGE)];
      root := childPage;
      UnpinPage(childPage);
      assert pins == old(pins);
      UnpinPage(node);
      DeletePage(node);
      levels := levels[..|levels| - 1];
      assert T() == t';
      ShrunkDrop(t.pages, pages, height, h, node);
    }

    /** A node short of entries borrows from its sibling, or the two are merged. */
    method BalanceWithSibling(node: int, ghost h: nat, ghost i: nat) returns (deleted: bool)
      requires Underfull(T(), h, i) && h < |levels| && i < |levels[h]| && node == levels[h][i]
      requires node in pages && pages[node].parent != NO_PAGE && |pages[node].entries| < MinSize(order)
      requires InPages(pages, levels[0])
      requires Alone(pins, height, node, h)
      modifies this`pages, this`root, this`lastLeaf, this`pins, this`levels
      ensures Shape(T()) && Entries(T()) == old(Entries(T()))
      ensures deleted <==> node !in pages
      ensures pins == if deleted then old(pins) - multiset{node} else old(pins)
      ensures Shrunk(old(pages), pages, height, h)
      decreases |levels| - h, 0, 2
    {
      hide Shape, Entries, InPages, Underfull, Alone, Shrunk, At;
      ghost var u, j, l, lj := FindPair(T(), h, i);
      var parent := pages[node].parent;
      FetchNode(parent);
      assert pages[parent].entries[j].rid.pageNo == node;
      var idx := FindChild(pages[parent].entries, node);
      var siblingIdx := if idx == 0 then 1 else idx - 1;
      var sibling := pages[parent].entries[siblingIdx].rid.pageNo;
      FetchNode(sibling);
      if |pages[node].entries| + |pages[sibling].entries| >= 2 * MinSize(order) {
        Redistribute(sibling, node, parent, idx, h, i, u, l, lj);
        ShrunkSame(old(pages), pages, height, h);
        deleted := false;
        UnpinPage(sibling);
        UnpinPage(parent);
      } else {
        deleted := MergeWithSibling(sibling, node, parent, idx, old(pins), h, i, u, l, lj);
      }
    }

    /** Merges the node with its sibling and gives back the pins taken for it. */
    method MergeWithSibling(sibling: int, node: int, parent: int, idx: nat, ghost before: multiset<int>,
                            ghost h: nat, ghost i: nat, ghost u: nat, ghost l: nat, ghost lj: nat)
      returns (deleted: bool)
      requires Underfull(T(), h, i) && Pair(T(), h, i, u, idx, l, lj)
      requires node == levels[h][i] && parent == levels[h + 1][u] && sibling == levels[h][if idx == 0 then l + 1 else l]
      requires InPages(pages, levels[0])
      requires |pages[node].entries| < MinSize(order)
      requires |pages[node].entries| + |pages[sibling].entries| < 2 * MinSize(order)
      requires Alone(before, height, node, h) && pins == before + multiset{parent} + multiset{sibling}
      modifies this`pages, this`root, this`lastLeaf, this`pins, this`levels
      ensures Shape(T()) && Entries(T()) == old(Entries(T()))
      ensures deleted <==> node !in pages
      ensures pins == if deleted then before - multiset{node} else before
      ensures Shrunk(old(pages), pages, height, h)
      decreases |levels| - h, 0, 1
    {
      hide Shape, Entries, InPages, Underfull, Shrunk, At;
      assert node != sibling && parent != node && parent != sibling && node in before;
      hide Pair, Alone;
      var parentDied := Coalesce(sibling, node, parent, idx, before, h, i, u, l, lj);
      ReleasePair(sibling, node, parent, idx, parentDied, before);
      deleted := idx != 0;
    }

    /** Gives back the pins on the parent and on a sibling that stays, after a merge. */
    method ReleasePair(sibling: int, node: int, parent: int, idx: nat, parentDied: bool, ghost before: multiset<int>)
      requires node in before && parent != node && parent != sibling && node != sibling
      requires var right := if idx == 0 then sibling else node;
               var held := before + multiset{parent} + multiset{sibling} - multiset{right};
               pins == if parentDied then held - multiset{parent} else held
      modifies this`pins
      ensures pins == if idx == 0 then before else before - multiset{node}
    {
      MergePins(before, node, parent, sibling, if idx == 0 then sibling else node);
      if !parentDied {
        UnpinPage(parent);
      }
      if idx != 0 {
        UnpinPage(sibling);
      }
    }

    /** Moves one entry from the sibling to the node and corrects the parent's key. */
    method Redistribute(sibling: int, node: int, parent: int, idx: nat,
                        ghost h: nat, ghost i: nat, ghost u: nat, ghost l: nat, ghost lj: nat)
      requires Underfull(T(), h, i) && Pair(T(), h, i, u, idx, l, lj)
      requires node == levels[h][i] && parent == levels[h + 1][u] && sibling == levels[h][if idx == 0 then l + 1 else l]
      requires |pages[node].entries| < MinSize(order)
      requires |pages[node].entries| + |pages[sibling].entries| >= 2 * MinSize(order)
      modifies this`pages, this`pins
      ensures InPages(old(pages), levels[0]) && Shape(T()) && Entries(T()) == old(Entries(T()))
      ensures pages.Keys == old(pages).Keys && pins == old(pins)
    {
      hide Shape, Entries, InPages, Underfull, At;
      ghost var t := T();
      ghost var t' := BorrowWritten(t, h, i, u, idx, l, lj);
      if idx == 0 {
        TakeFirst(sibling, node, parent);
      } else {
        TakeLast(sibling, node, parent, idx);
      }
      assert T() == t';
    }

    /** The right sibling's first entry goes to the end of the node. */
    method TakeFirst(sibling: int, node: int, parent: int)
      requires node in pages && sibling in pages && parent in pages && node != sibling && node != parent && sibling != parent
      requires pages[node].entries != [] && |pages[sibling].entries| > 1 && |pages[parent].entries| > 1
      requires !pages[node].isLeaf ==> var c := pages[sibling].entries[0].rid.pageNo; c in pages && 0 < c < numPages
      modifies this`pages, this`pins
      ensures pages == BorrowPages(old(pages), node, sibling, parent, 1, true, !old(pages)[node].isLeaf)
      ensures pins == old(pins)
    {
      var nodeSize := |pages[node].entries|;
      pages := pages[node := pages[node].(entries := InsertAt(pages[node].entries, nodeSize, pages[sibling].entries[0]))];
      if !pages[node].isLeaf {
        MaintainChild(node, nodeSize);
      }
      pages := pages[sibling := pages[sibling].(entries := RemoveAt(pages[sibling].entries, 0))];
      pages := pages[parent := pages[parent].(entries := pages[parent].entries[
                                 1 := Entry(pages[sibling].entries[0].key, pages[parent].entries[1].rid)])];
    }

    /** The left sibling's last entry goes to the front of the node. */
    method TakeLast(sibling: int, node: int, parent: int, idx: nat)
      requires node in pages && sibling in pages && parent in pages && node != sibling && node != parent && sibling != parent
      requires pages[node].entries != [] && pages[sibling].entries != [] && idx < |pages[parent].entries|
      requires !pages[node].isLeaf ==>
                 var c := pages[sibling].entries[|pages[sibling].entries| - 1].rid.pageNo; c in pages && 0 < c < numPages
      modifies this`pages, this`pins
      ensures pages == BorrowPages(old(pages), sibling, node, parent, idx, false, !old(pages)[node].isLeaf)
      ensures pins == old(pins)
    {
      var siblingSize := |pages[sibling].entries|;
      pages := pages[node := pages[node].(entries := InsertAt(pages[node].entries, 0, pages[sibling].entries[siblingSize - 1]))];
      if !pages[node].isLeaf {
        MaintainChild(node, 0);
      }
      pages := pages[sibling := pages[sibling].(entries := RemoveAt(pages[sibling].entries, siblingSize - 1))];
      pages := pages[parent := pages[parent].(entries := pages[parent].entries[
                                 idx := Entry(pages[node].entries[0].key, pages[parent].entries[idx].rid)])];
    }

    /** Merges the right one of two siblings into the left one, and repairs the parent. */
    method Coalesce(sibling: int, node: int, parent: int, idx: nat, ghost before: multiset<int>,
                    ghost h: nat, ghost i: nat, ghost u: nat, ghost l: nat, ghost lj: nat)
      returns (parentDied: bool)
      requires Underfull(T(), h, i) && Pair(T(), h, i, u, idx, l, lj)
      requires node == levels[h][i] && parent == levels[h + 1][u] && sibling == levels[h][if idx == 0 then l + 1 else l]
      requires InPages(pages, levels[0])
      requires |pages[node].entries| < MinSize(order)
      requires |pages[node].entries| + |pages[sibling].entries| < 2 * MinSize(order)
      requires Alone(before, height, node, h) && pins == before + multiset{parent} + multiset{sibling}
      modifies this`pages, this`root, this`lastLeaf, this`pins, this`levels
      ensures Shape(T()) && Entries(T()) == old(Entries(T()))
      ensures Shrunk(old(pages), pages, height, h)
      ensures var right := if idx == 0 then sibling else node;
              && right !in pages && (if idx == 0 then node else sibling) in pages
              && pins == if parentDied then old(pins) - multiset{right} - multiset{parent} else old(pins) - multiset{right}
      decreases |levels| - h, 0, 0
    {
      hide Shape, Entries, InPages, Underfull, Alone, Shrunk, At;
      var left, right, index := sibling, node, idx;
      if idx == 0 {
        left, right, index := node, sibling, 1;
      }
      ghost var pg := pages;
      MergeSiblings(left, right, parent, index, before, h, i, u, idx, l, lj);
      ghost var pg1 := pages;
      UnderfullFacts(T(), h + 1, u);
      parentDied := CoalesceOrRedistribute(parent, h + 1, u);
      ShrunkTwice(pg, pg1, pages, height, h, right, left);
    }

    /** Moves the right page's entries over, relinks the ring or the children, drops the right page. */
    method MergeSiblings(left: int, right: int, parent: int, index: nat, ghost before: multiset<int>,
                         ghost h: nat, ghost i: nat, ghost u: nat, ghost j: nat, ghost l: nat, ghost lj: nat)
      requires Underfull(T(), h, i) && Pair(T(), h, i, u, j, l, lj)
      requires left == levels[h][l] && right == levels[h][l + 1] && parent == levels[h + 1][u] && index == lj + 1
      requires InPages(pages, levels[0])
      requires |pages[levels[h][i]].entries| < MinSize(order)
      requires |pages[left].entries| + |pages[right].entries| < 2 * MinSize(order)
      requires Alone(before, height, levels[h][i], h)
      requires pins == before + multiset{parent} + multiset{if j == 0 then right else left}
      modifies this`pages, this`lastLeaf, this`pins, this`levels
      ensures Underfull(T(), h + 1, u) && InPages(pages, levels[0]) && Entries(T()) == old(Entries(T()))
      ensures |levels| == |old(levels)| && levels[h + 1] == old(levels)[h + 1]
      ensures pages.Keys == old(pages).Keys - {right}
      ensures pins == old(pins) - multiset{right} && Alone(pins, height, parent, h + 1)
    {
      hide Shape, Entries, InPages, Underfull, Alone, At;
      ghost var t := T();
      AloneParent(before, height, t.levels[h][i], h, parent, if j == 0 then right else left, right);
      ghost var t';
      if pages[right].isLeaf {
        t' := MergeLeafWritten(t, i, u, j, l, lj);
        AbsorbLeaf(left, right);
      } else {
        AbsorbChildren(left, right, h, i, l);
        t' := MergeInternalWritten(t, pages, h, i, u, j, l, lj);
      }
      DropRight(parent, index, right);
      levels := levels[h := RemoveAt(levels[h], l + 1)];
      assert T() == t';
    }

    /** The parent forgets the right page, which is given back and deleted. */
    method DropRight(parent: int, index: nat, right: int)
      requires parent in pages && index < |pages[parent].entries| && parent != right && right in pages
      requires right in pins && right !in pins - multiset{right}
      modifies this`pages, this`pins
      ensures pages == DropChild(old(pages), parent, index, right)
      ensures pins == old(pins) - multiset{right}
    {
      pages := pages[parent := pages[parent].(entries := RemoveAt(pages[parent].entries, index))];
      UnpinPage(right);
      DeletePage(right);
    }

    /** Appends the right leaf's entries to the left one and takes the right leaf out of the ring. */
    method AbsorbLeaf(left: int, right: int)
      requires left in pages && right in pages && left != right && pages[right].nextLeaf in pages
      requires 0 < pages[right].nextLeaf < numPages
      modifies this`pages, this`lastLeaf, this`pins
      ensures pages == MergeLeafPages(old(pages), left, right)
      ensures lastLeaf == if old(lastLeaf) == right then left else old(lastLeaf)
      ensures pins == old(pins)
    {
      pages := pages[left := pages[left].(entries := pages[left].entries + pages[right].entries)];
      var rightNext := pages[right].nextLeaf;
      pages := pages[left := pages[left].(nextLeaf := rightNext)];
      FetchNode(rightNext);
      pages := pages[rightNext := pages[rightNext].(prevLeaf := left)];
      UnpinPage(rightNext);
      if right == lastLeaf {
        lastLeaf := left;
      }
    }

    /** Appends the right internal page's entries to the left one and repoints their pages. */
    method AbsorbChildren(left: int, right: int, ghost h: nat, ghost i: nat, ghost l: nat)
      requires Underfull(T(), h, i) && h > 0 && h < |levels| && l + 1 < |levels[h]|
      requires left == levels[h][l] && right == levels[h][l + 1] && left in pages && right in pages && left != right
      requires !pages[left].isLeaf
      modifies this`pages, this`pins
      ensures Repointed(old(pages)[left := old(pages)[left].(entries := old(pages)[left].entries + old(pages)[right].entries)],
                        pages, old(pages)[right].entries, left)
      ensures pins == old(pins)
    {
      hide Underfull;
      ghost var t := T();
      UnderfullFacts(t, h, i);
      var leftSize := |pages[left].entries|;
      pages := pages[left := pages[left].(entries := pages[left].entries + pages[right].entries)];
      forall k | leftSize <= k < |pages[left].entries|
        ensures var c := pages[left].entries[k].rid.pageNo; c in pages && 0 < c < numPages
      {
        ChildFacts(t, h, l + 1, k - leftSize);
      }
      assert pages[left].entries[leftSize..] == t.pages[right].entries;
      MaintainChildren(left, leftSize);
    }
  }
}
