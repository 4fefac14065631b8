/**
  Positions in the leaf entries of a tree, the two bounds of the index handle, and the cursor that
  walks the leaf ring between two positions.  The tree does not change while a cursor is open.
  */
module IndexScan {
  import opened Sequences
  import opened IndexPages
  import opened IndexTree
  import opened IndexShape
  import opened IndexRemoval
  import opened IndexHandle

  datatype Iid = Iid(pageNo: int, slotNo: int)

  /** Position iid is slot iid.slotNo of leaf k and stands for place n among the tree's entries.
      Only the last leaf has a place after its entries. */
  ghost predicate PosAt(t: Tree, iid: Iid, k: nat, n: nat)
    requires |t.levels| >= 1 && InPages(t.pages, t.levels[0])
  {
    && k < |t.levels[0]| && iid.pageNo == t.levels[0][k]
    && 0 <= iid.slotNo <= |t.pages[iid.pageNo].entries|
    && (iid.slotNo == |t.pages[iid.pageNo].entries| ==> k + 1 == |t.levels[0]|)
    && n == |Flat(t.pages, t.levels[0][..k])| + iid.slotNo
  }

  lemma LeafLevel(t: Tree)
    requires Shape(t)
    ensures Known(t) && |t.levels| >= 1 && InPages(t.pages, t.levels[0]) && NoDup(t.levels[0])
    ensures Sorted(Entries(t))
    ensures |t.levels[0]| > 1 ==> forall k :: 0 <= k < |t.levels[0]| ==> |t.pages[t.levels[0][k]].entries| > 0
  {
    hide Ring, Flat, LinkedBut, SizedBut;
    LevelFacts(t, 0);
    if |t.levels[0]| > 1 {
      forall k | 0 <= k < |t.levels[0]| ensures |t.pages[t.levels[0][k]].entries| > 0 {
        RootFacts(t);
        NodeSize(t, 0, k);
      }
    }
  }

  lemma PosEntry(t: Tree, iid: Iid, k: nat, n: nat)
    requires Shape(t) && |t.levels| >= 1 && InPages(t.pages, t.levels[0]) && PosAt(t, iid, k, n)
    ensures n <= |Entries(t)|
    ensures n < |Entries(t)| <==> iid.slotNo < |t.pages[iid.pageNo].entries|
    ensures n < |Entries(t)| ==> Entries(t)[n] == t.pages[iid.pageNo].entries[iid.slotNo]
  {
    hide Shape;
    var pg, L := t.pages, t.levels[0];
    FlatAround(pg, L, k);
    if iid.slotNo < |pg[L[k]].entries| {
      Position(pg, L, k, iid.slotNo);
    } else {
      assert L[k + 1..] == [];
    }
  }

  /** Places and positions correspond one to one. */
  lemma PosUnique(t: Tree, a: Iid, k: nat, n: nat, b: Iid, j: nat, m: nat)
    requires Shape(t) && |t.levels| >= 1 && InPages(t.pages, t.levels[0])
    requires PosAt(t, a, k, n) && PosAt(t, b, j, m)
    ensures a == b <==> n == m
  {
    LeafLevel(t);
    hide Shape, Flat;
    PosEntry(t, a, k, n);
    PosEntry(t, b, j, m);
    var pg, L := t.pages, t.levels[0];
    if n < |Entries(t)| && m < |Entries(t)| && (k, a.slotNo) != (j, b.slotNo) {
      AtInjective(pg, L, k, a.slotNo, j, b.slotNo);
    }
  }

  /** One step to the right. */
  lemma PosNext(t: Tree, iid: Iid, k: nat, n: nat)
    requires Shape(t) && |t.levels| >= 1 && InPages(t.pages, t.levels[0])
    requires PosAt(t, iid, k, n) && iid.slotNo < |t.pages[iid.pageNo].entries|
    ensures var size, next := |t.pages[iid.pageNo].entries|, t.pages[iid.pageNo].nextLeaf;
            if iid.slotNo + 1 == size && k + 1 < |t.levels[0]| then
              next == t.levels[0][k + 1] && PosAt(t, Iid(next, 0), k + 1, n + 1)
            else
              PosAt(t, Iid(iid.pageNo, iid.slotNo + 1), k, n + 1)
  {
    LeafLevel(t);
    hide Shape;
    NextLeafFacts(t, k);
    var pg, L := t.pages, t.levels[0];
    if k + 1 < |L| {
      RingNext(t, k);
      assert L[..k + 1] == L[..k] + [L[k]];
      FlatConcat(pg, L[..k], [L[k]]);
      assert Flat(pg, [L[k]]) == pg[L[k]].entries;
    }
  }

  lemma RingNext(t: Tree, k: nat)
    requires Known(t) && k < |t.levels[0]|
    ensures t.levels[0][k] in t.pages && t.pages[t.levels[0][k]].nextLeaf == Next(t.levels[0], k)
  {
    hide Sorted, Flat;
    assert RingAt(t.pages, t.levels[0], k);
  }

  /** The place a slot of the leaf responsible for a key stands for, skipping on from a leaf's end. */
  lemma PosOfSlot(t: Tree, k: nat, slot: nat) returns (iid: Iid, k': nat, n: nat)
    requires Shape(t) && |t.levels| >= 1 && InPages(t.pages, t.levels[0]) && k < |t.levels[0]|
    requires slot <= |t.pages[t.levels[0][k]].entries|
    ensures var leaf := t.levels[0][k];
            iid == if slot < |t.pages[leaf].entries| || leaf == t.lastLeaf then Iid(leaf, slot) else Iid(t.pages[leaf].nextLeaf, 0)
    ensures PosAt(t, iid, k', n) && n == |Flat(t.pages, t.levels[0][..k])| + slot
  {
    LeafLevel(t);
    LastFacts(t);
    hide Shape;
    var leaf, L, pg := t.levels[0][k], t.levels[0], t.pages;
    n := |Flat(pg, L[..k])| + slot;
    if slot < |pg[leaf].entries| || leaf == t.lastLeaf {
      iid, k' := Iid(leaf, slot), k;
    } else {
      RingNext(t, k);
      iid, k' := Iid(pg[leaf].nextLeaf, 0), k + 1;
      assert L[..k + 1] == L[..k] + [L[k]];
      FlatConcat(pg, L[..k], [L[k]]);
      assert Flat(pg, [L[k]]) == pg[L[k]].entries;
    }
  }

  /** Place n separates the entries with smaller keys from the others. */
  lemma LeafBound(t: Tree, i: nat, key: int, pos: nat, strict: bool)
    requires Shape(t) && |t.levels| >= 1 && InPages(t.pages, t.levels[0])
    requires i < |t.levels[0]| && Covers(t.pages, t.levels[0], i, key)
    requires var es := t.pages[t.levels[0][i]].entries;
             && pos <= |es|
             && (forall j :: 0 <= j < pos ==> Below(es[j].key, key, strict))
             && (forall j :: pos <= j < |es| ==> !Below(es[j].key, key, strict))
    ensures BoundAt(Entries(t), key, strict, |Flat(t.pages, t.levels[0][..i])| + pos)
  {
    LeafLevel(t);
    hide Shape;
    var pg, L := t.pages, t.levels[0];
    LeafOwns(pg, L, i, key);
    FlatAround(pg, L, i);
    MiddleSeparates(Flat(pg, L[..i]), pg[L[i]].entries, Flat(pg, L[i + 1..]), pos, key, strict);
  }

  lemma MiddleSeparates(A: seq<Entry>, es: seq<Entry>, B: seq<Entry>, pos: nat, k: int, strict: bool)
    requires pos <= |es|
    requires forall e :: e in A ==> e.key < k
    requires forall e :: e in B ==> k < e.key
    requires forall j :: 0 <= j < pos ==> Below(es[j].key, k, strict)
    requires forall j :: pos <= j < |es| ==> !Below(es[j].key, k, strict)
    ensures BoundAt(A + es + B, k, strict, |A| + pos)
  {
    var F := A + es + B;
    forall j | 0 <= j < |A| + pos ensures Below(F[j].key, k, strict) {
      if j < |A| { assert F[j] == A[j]; } else { assert F[j] == es[j - |A|]; }
    }
    forall j | |A| + pos <= j < |F| ensures !Below(F[j].key, k, strict) {
      if j < |A| + |es| { assert F[j] == es[j - |A|]; } else { assert F[j] == B[j - |A| - |es|]; }
    }
  }

  /** A key lies before the bound: keys below k for a lower bound, keys up to k for an upper bound. */
  predicate Below(key: int, k: int, strict: bool) {
    if strict then key < k else key <= k
  }

  ghost predicate BoundAt(es: seq<Entry>, k: int, strict: bool, n: nat) {
    && n <= |es|
    && (forall j :: 0 <= j < n ==> Below(es[j].key, k, strict))
    && (forall j :: n <= j < |es| ==> !Below(es[j].key, k, strict))
  }

  // -------------------------------------------------------------------------------------------
  // The bounds of the index handle

  /** First position with a key of at least the given one. */
  method LowerBound(ih: Handle, key: int) returns (iid: Iid, ghost k: nat, ghost n: nat)
    requires ih.Valid()
    modifies ih`pins
    ensures ih.Valid() && ih.T() == old(ih.T())
    ensures |ih.levels| >= 1 && InPages(ih.pages, ih.levels[0])
    ensures PosAt(ih.T(), iid, k, n) && BoundAt(Entries(ih.T()), key, true, n)
  {
    hide Shape, Covers, PosAt, BoundAt, Entries, Listed, Flat;
    LeafLevel(ih.T());
    var leaf;
    ghost var i: nat;
    leaf, i := ih.FindLeafPage(key);
    NodeOrdered(ih.T(), 0, i);
    var slot := NodeLowerBound(ih.pages[leaf].entries, key);
    LeafBound(ih.T(), i, key, slot, true);
    ghost var iid', k', n' := PosOfSlot(ih.T(), i, slot);
    k, n := k', n';
    iid := if slot < |ih.pages[leaf].entries| || leaf == ih.lastLeaf then Iid(leaf, slot) else Iid(ih.pages[leaf].nextLeaf, 0);
    ih.UnpinPage(leaf);
  }

  /** First position with a key above the given one. */
  method UpperBound(ih: Handle, key: int) returns (iid: Iid, ghost k: nat, ghost n: nat)
    requires ih.Valid()
    modifies ih`pins
    ensures ih.Valid() && ih.T() == old(ih.T())
    ensures |ih.levels| >= 1 && InPages(ih.pages, ih.levels[0])
    ensures PosAt(ih.T(), iid, k, n) && BoundAt(Entries(ih.T()), key, false, n)
  {
    hide Shape, Covers, PosAt, BoundAt, Entries, Listed, Flat;
    LeafLevel(ih.T());
    var leaf;
    ghost var i: nat;
    leaf, i := ih.FindLeafPage(key);
    NodeOrdered(ih.T(), 0, i);
    var slot := NodeLowerBound(ih.pages[leaf].entries, key);
    if slot < |ih.pages[leaf].entries| && ih.pages[leaf].entries[slot].key == key {
      slot := slot + 1;
    }
    LeafBound(ih.T(), i, key, slot, false);
    ghost var iid', k', n' := PosOfSlot(ih.T(), i, slot);
    k, n := k', n';
    iid := if slot < |ih.pages[leaf].entries| || leaf == ih.lastLeaf then Iid(leaf, slot) else Iid(ih.pages[leaf].nextLeaf, 0);
    ih.UnpinPage(leaf);
  }

  /** The position of the first entry. */
  method LeafBegin(ih: Handle) returns (iid: Iid, ghost k: nat, ghost n: nat)
    requires ih.Valid()
    ensures |ih.levels| >= 1 && InPages(ih.pages, ih.levels[0])
    ensures PosAt(ih.T(), iid, k, n) && n == 0
  {
    LeafLevel(ih.T());
    FirstFacts(ih.T());
    iid, k, n := Iid(ih.firstLeaf, 0), 0, 0;
    assert ih.levels[0][..0] == [];
  }

  lemma FirstFacts(t: Tree)
    requires Shape(t)
    ensures |t.levels| >= 1 && |t.levels[0]| > 0 && t.levels[0][0] == INIT_ROOT_PAGE
  {
    hide Sorted, Flat, LinkedBut, SizedBut;
    LevelFacts(t, 0);
  }

  /** The position after the last entry. */
  method LeafEnd(ih: Handle) returns (iid: Iid, ghost k: nat, ghost n: nat)
    requires ih.Valid()
    modifies ih`pins
    ensures ih.Valid() && ih.T() == old(ih.T())
    ensures |ih.levels| >= 1 && InPages(ih.pages, ih.levels[0])
    ensures PosAt(ih.T(), iid, k, n) && n == |Entries(ih.T())|
  {
    hide Shape, Listed;
    LeafLevel(ih.T());
    LastFacts(ih.T());
    ih.FetchNode(ih.lastLeaf);
    iid := Iid(ih.lastLeaf, |ih.pages[ih.lastLeaf].entries|);
    k := |ih.levels[0]| - 1;
    n := |Flat(ih.pages, ih.levels[0][..k])| + iid.slotNo;
    PosEntry(ih.T(), iid, k, n);
    ih.UnpinPage(ih.lastLeaf);
  }

  // -------------------------------------------------------------------------------------------
  // The cursor

  /** What is left to visit from place n with the end at place e: if the end lies behind, the walk
      never meets it and runs to the last entry. */
  ghost function RestFrom(es: seq<Entry>, n: nat, e: nat): seq<Entry>
    requires n <= |es| && e <= |es|
  {
    if n <= e then es[n..e] else es[n..]
  }

  class Cursor {
    const ih: Handle
    var iid: Iid
    const end: Iid
    ghost const endLeaf: nat
    ghost const endPlace: nat
    ghost var leafIdx: nat
    ghost var place: nat

    ghost predicate Valid()
      reads this, ih
    {
      && Shape(ih.T()) && |ih.levels| >= 1 && InPages(ih.pages, ih.levels[0])
      && PosAt(ih.T(), end, endLeaf, endPlace) && endPlace <= |Entries(ih.T())|
      && PosAt(ih.T(), iid, leafIdx, place) && place <= |Entries(ih.T())|
    }

    /** The entries still to come. */
    ghost function Rest(): seq<Entry>
      requires Valid()
      reads this, ih
    {
      RestFrom(Entries(ih.T()), place, endPlace)
    }

    constructor (ih: Handle, lower: Iid, upper: Iid, ghost k: nat, ghost n: nat, ghost k': nat, ghost n': nat)
      requires Shape(ih.T()) && |ih.levels| >= 1 && InPages(ih.pages, ih.levels[0])
      requires PosAt(ih.T(), lower, k, n) && PosAt(ih.T(), upper, k', n')
      ensures Valid() && this.ih == ih
      ensures n <= |Entries(ih.T())| && n' <= |Entries(ih.T())| && Rest() == RestFrom(Entries(ih.T()), n, n')
    {
      PosEntry(ih.T(), lower, k, n);
      PosEntry(ih.T(), upper, k', n');
      this.ih, iid, end, endLeaf, endPlace, leafIdx, place := ih, lower, upper, k', n', k, n;
    }

    predicate PageNoValid(p: int)
      reads ih
    {
      p > NO_PAGE && p != LEAF_HEADER_PAGE && p < ih.numPages
    }

    /** The first position of the leaf after page p, or the end when the ring is back at the header. */
    method AdvanceToNextLeaf(p: int, ghost k: nat) returns (r: Iid)
      requires Shape(ih.T()) && |ih.levels| >= 1 && k < |ih.levels[0]| && p == ih.levels[0][k]
      ensures r == if k + 1 < |ih.levels[0]| then Iid(ih.levels[0][k + 1], 0) else end
    {
      hide Shape;
      CursorNext(ih.T(), k);
      var nextPage := ih.pages[p].nextLeaf;
      r := if !PageNoValid(nextPage) then end else Iid(nextPage, 0);
    }

    /** Ends the walk if the position lies past the last entry. */
    method NormalizePosition()
      requires Valid()
      modifies this`iid, this`leafIdx, this`place
      ensures Valid() && Rest() == old(Rest())
      ensures iid == end <==> Rest() == []
      ensures iid == end <==> place == endPlace
      ensures iid != end ==> iid.pageNo in ih.pages && iid.slotNo < |ih.pages[iid.pageNo].entries| && PageNoValid(iid.pageNo)
    {
      hide Shape, PosAt, Entries;
      ghost var t := ih.T();
      PosUnique(t, iid, leafIdx, place, end, endLeaf, endPlace);
      CursorPage(t, iid, leafIdx, place);
      PosEntry(t, iid, leafIdx, place);
      while iid != end
        invariant Valid() && Rest() == old(Rest())
        invariant iid == end <==> place == endPlace
        invariant iid != end ==> iid == old(iid) && leafIdx == old(leafIdx) && place == old(place)
        decreases if iid != end then 1 else 0
      {
        var next := end;
        if PageNoValid(iid.pageNo) {
          if iid.slotNo < |ih.pages[iid.pageNo].entries| {
            return;
          }
          next := AdvanceToNextLeaf(iid.pageNo, leafIdx);
        }
        iid := next;
        leafIdx, place := endLeaf, endPlace;
      }
    }

    method IsEnd() returns (b: bool)
      requires Valid()
      modifies this`iid, this`leafIdx, this`place
      ensures Valid() && Rest() == old(Rest())
      ensures b <==> Rest() == []
    {
      NormalizePosition();
      b := iid == end;
    }

    /** The rid at the position, or an invalid one at the end. */
    method CurrentRid() returns (rid: Rid)
      requires Valid()
      modifies this`iid, this`leafIdx, this`place
      ensures Valid() && Rest() == old(Rest())
      ensures rid == if Rest() == [] then Rid(-1, -1) else Rest()[0].rid
    {
      hide Shape, PosAt, Entries;
      NormalizePosition();
      if iid == end {
        rid := Rid(-1, -1);
      } else {
        PosEntry(ih.T(), iid, leafIdx, place);
        CursorPage(ih.T(), iid, leafIdx, place);
        rid := ih.pages[iid.pageNo].entries[iid.slotNo].rid;
      }
    }

    method Advance()
      requires Valid()
      modifies this`iid, this`leafIdx, this`place
      ensures Valid()
      ensures Rest() == if old(Rest()) == [] then [] else old(Rest())[1..]
    {
      hide Shape, PosAt, Entries;
      NormalizePosition();
      if iid == end {
        return;
      }
      ghost var t := ih.T();
      PosEntry(t, iid, leafIdx, place);
      CursorPage(t, iid, leafIdx, place);
      CursorStep(t, iid, leafIdx, place, end, endLeaf, endPlace);
      var page := iid.pageNo;
      iid := Iid(page, iid.slotNo + 1);
      if iid == end {
        place := place + 1;
        return;
      }
      if iid.slotNo >= |ih.pages[page].entries| {
        iid := AdvanceToNextLeaf(page, leafIdx);
        if leafIdx + 1 < |ih.levels[0]| {
          leafIdx, place := leafIdx + 1, place + 1;
        } else {
          leafIdx, place := endLeaf, endPlace;
        }
      } else {
        place := place + 1;
      }
    }
  }

  lemma CursorPage(t: Tree, iid: Iid, k: nat, n: nat)
    requires Shape(t) && |t.levels| >= 1 && InPages(t.pages, t.levels[0]) && PosAt(t, iid, k, n)
    ensures k < |t.levels[0]| && iid.pageNo == t.levels[0][k] && iid.pageNo in t.pages
    ensures iid.pageNo > NO_PAGE && iid.pageNo != LEAF_HEADER_PAGE && iid.pageNo < t.numPages
    ensures 0 <= iid.slotNo
    ensures iid.slotNo >= |t.pages[iid.pageNo].entries| ==> k + 1 == |t.levels[0]| && n == |Entries(t)|
  {
    PosEntry(t, iid, k, n);
    LeafLevel(t);
    hide Shape, Entries, Flat;
    PageFacts(t, 0, k);
  }

  lemma CursorNext(t: Tree, k: nat)
    requires Shape(t) && |t.levels| >= 1 && k < |t.levels[0]|
    ensures t.levels[0][k] in t.pages
    ensures var n := t.pages[t.levels[0][k]].nextLeaf;
            if k + 1 < |t.levels[0]| then
              n == t.levels[0][k + 1] && n > NO_PAGE && n != LEAF_HEADER_PAGE && n < t.numPages
            else n == LEAF_HEADER_PAGE
  {
    LeafLevel(t);
    hide Shape, Entries, Flat;
    RingNext(t, k);
    if k + 1 < |t.levels[0]| {
      PageFacts(t, 0, k + 1);
    }
  }

  /** Where one step leads, and whether that is the end. */
  lemma CursorStep(t: Tree, iid: Iid, k: nat, n: nat, end: Iid, ek: nat, e: nat)
    requires Shape(t) && |t.levels| >= 1 && InPages(t.pages, t.levels[0])
    requires PosAt(t, iid, k, n) && PosAt(t, end, ek, e) && iid.pageNo in t.pages
    requires iid.slotNo < |t.pages[iid.pageNo].entries| && n != e
    ensures k < |t.levels[0]| && n < |Entries(t)| && e <= |Entries(t)|
    ensures var next := Iid(iid.pageNo, iid.slotNo + 1);
            var last := iid.slotNo + 1 == |t.pages[iid.pageNo].entries|;
            if last && k + 1 < |t.levels[0]| then
              next != end && PosAt(t, Iid(t.levels[0][k + 1], 0), k + 1, n + 1)
            else
              && PosAt(t, next, k, n + 1) && (next == end <==> n + 1 == e)
              && (last && next != end ==> n + 1 == |Entries(t)| && e < n)
  {
    LeafLevel(t);
    PosNext(t, iid, k, n);
    PosEntry(t, iid, k, n);
    PosEntry(t, end, ek, e);
    hide Shape, Flat;
    var next := Iid(iid.pageNo, iid.slotNo + 1);
    if iid.slotNo + 1 == |t.pages[iid.pageNo].entries| && k + 1 < |t.levels[0]| {
    } else {
      PosUnique(t, next, k, n + 1, end, ek, e);
      PosEntry(t, next, k, n + 1);
    }
  }

  // -------------------------------------------------------------------------------------------
  // Range scans

  ghost function RidsOf(es: seq<Entry>): seq<Rid> {
    seq(|es|, i requires 0 <= i < |es| => es[i].rid)
  }

  /** The entries whose keys lie from the lower bound on and before the upper bound. */
  ghost function Within(es: seq<Entry>, a: int, aStrict: bool, b: int, bStrict: bool): seq<Entry> {
    if es == [] then [] else
      var e := es[|es| - 1];
      Within(es[..|es| - 1], a, aStrict, b, bStrict) + if !Below(e.key, a, aStrict) && Below(e.key, b, bStrict) then [e] else []
  }

  /** The bounds cross over an entry: it lies before the lower bound and not before the upper one. */
  ghost predicate Crossed(es: seq<Entry>, a: int, aStrict: bool, b: int, bStrict: bool) {
    exists e :: e in es && Below(e.key, a, aStrict) && !Below(e.key, b, bStrict)
  }

  lemma {:induction false} WithinIsSlice(es: seq<Entry>, a: int, aStrict: bool, b: int, bStrict: bool, n: nat, m: nat)
    requires BoundAt(es, a, aStrict, n) && BoundAt(es, b, bStrict, m)
    ensures Within(es, a, aStrict, b, bStrict) == if n <= m then es[n..m] else []
  {
    if es != [] {
      var k := |es| - 1;
      var front := es[..k];
      var n', m' := if n > k then k else n, if m > k then k else m;
      WithinIsSlice(front, a, aStrict, b, bStrict, n', m');
      if n <= m {
        assert n' <= m' && front[n'..m'] == es[n'..m'];
        assert es[n..m] == if n <= k && m == |es| then es[n'..m'] + [es[k]] else es[n'..m'];
      }
    }
  }

  lemma CrossedIsBehind(es: seq<Entry>, a: int, aStrict: bool, b: int, bStrict: bool, n: nat, m: nat)
    requires BoundAt(es, a, aStrict, n) && BoundAt(es, b, bStrict, m)
    ensures Crossed(es, a, aStrict, b, bStrict) <==> m < n
  {
    if m < n {
      assert es[m] in es && Below(es[m].key, a, aStrict) && !Below(es[m].key, b, bStrict);
    }
    if Crossed(es, a, aStrict, b, bStrict) {
      var e :| e in es && Below(e.key, a, aStrict) && !Below(e.key, b, bStrict);
      var j :| 0 <= j < |es| && es[j] == e;
    }
  }

  /** Draining a cursor visits the rest, each entry once and in order. */
  method Drain(c: Cursor) returns (rids: seq<Rid>)
    requires c.Valid()
    modifies c`iid, c`leafIdx, c`place
    ensures c.Valid() && rids == RidsOf(old(c.Rest()))
  {
    hide Shape, PosAt, Entries, RestFrom, InPages;
    rids := [];
    ghost var all := c.Rest();
    var atEnd := c.IsEnd();
    while !atEnd
      invariant c.Valid()
      invariant |rids| <= |all| && c.Rest() == all[|rids|..] && rids == RidsOf(all)[..|rids|]
      invariant atEnd <==> c.Rest() == []
      decreases |c.Rest()|
    {
      var rid := c.CurrentRid();
      rids := rids + [rid];
      c.Advance();
      atEnd := c.IsEnd();
    }
  }

  /** A scan from a lower to an upper bound visits exactly the entries between them, unless the
      bounds cross over an entry: then it visits everything from the lower bound on. */
  method RangeScan(ih: Handle, a: int, aStrict: bool, b: int, bStrict: bool) returns (rids: seq<Rid>)
    requires ih.Valid()
    modifies ih`pins
    ensures ih.Valid() && ih.T() == old(ih.T())
    ensures InPages(ih.pages, ih.levels[0])
    ensures !Crossed(Entries(ih.T()), a, aStrict, b, bStrict) ==>
              rids == RidsOf(Within(Entries(ih.T()), a, aStrict, b, bStrict))
    ensures Crossed(Entries(ih.T()), a, aStrict, b, bStrict) ==>
              exists n: nat :: BoundAt(Entries(ih.T()), a, aStrict, n) && rids == RidsOf(Entries(ih.T())[n..])
  {
    hide Shape, PosAt, Entries, BoundAt, Crossed, Within, InPages, Listed;
    var lower, upper;
    ghost var k, n, k', n';
    if aStrict {
      lower, k, n := LowerBound(ih, a);
    } else {
      lower, k, n := UpperBound(ih, a);
    }
    if bStrict {
      upper, k', n' := LowerBound(ih, b);
    } else {
      upper, k', n' := UpperBound(ih, b);
    }
    var c := new Cursor(ih, lower, upper, k, n, k', n');
    ghost var es := Entries(ih.T());
    WithinIsSlice(es, a, aStrict, b, bStrict, n, n');
    CrossedIsBehind(es, a, aStrict, b, bStrict, n, n');
    rids := Drain(c);
  }
}
