/**
  The record file of a table: pages with a bitmap of used slots, insertion through a cached page,
  slots reserved ahead of their publication, and the scan over all records.  A record is a row of
  column values.
  */
module HeapFile {
  import opened Options
  import opened Bitmaps
  import opened IndexKeys
  import opened IndexPages

  const RM_NO_PAGE := -1
  const RM_FILE_HDR_PAGE := 0
  const RM_FIRST_RECORD_PAGE := 1
  const RM_MAX_RECORD_SIZE := 512
  const PAGE_SIZE := 4096
  const OFFSET_PAGE_HDR := 4
  const SIZEOF_PAGE_HDR := 8
  const SIZEOF_FILE_HDR := 20

  // -------------------------------------------------------------------------------------------
  // Page layout

  function RecordsPerPage(recordSize: int): int
    requires 1 <= recordSize
  {
    (BITMAP_WIDTH * (PAGE_SIZE - 1 - SIZEOF_FILE_HDR) + 1) / (1 + recordSize * BITMAP_WIDTH)
  }

  function BitmapSize(perPage: int): int {
    (perPage + BITMAP_WIDTH - 1) / BITMAP_WIDTH
  }

  /** The page headers, the bitmap and the slots fit a page, and a page holds at least one record. */
  lemma LayoutFits(recordSize: int)
    requires 1 <= recordSize <= RM_MAX_RECORD_SIZE
    ensures var n := RecordsPerPage(recordSize);
            && 1 <= n <= BITMAP_WIDTH * BitmapSize(n)
            && OFFSET_PAGE_HDR + SIZEOF_PAGE_HDR + BitmapSize(n) + n * recordSize <= PAGE_SIZE
  {
    var n, d := RecordsPerPage(recordSize), 1 + recordSize * BITMAP_WIDTH;
    assert n * d <= 32601 < (n + 1) * d by {
      Quotient(32601, d);
    }
    assert n * d == n + BITMAP_WIDTH * (n * recordSize);
    assert n < 1 ==> (n + 1) * d <= 1 * d;
  }

  lemma Quotient(a: int, d: int)
    requires d > 0
    ensures a / d * d <= a < (a / d + 1) * d
  {
  }

  // -------------------------------------------------------------------------------------------
  // Pages and what they hold

  datatype HeapPage = HeapPage(nextFree: int, numRecords: int, bitmap: Bits, slots: seq<Row>)

  type HeapPages = map<int, HeapPage>

  /** A page number that ends the free list or names a record page. */
  predicate LinkOk(p: int, numPages: int) {
    p == RM_NO_PAGE || RM_FIRST_RECORD_PAGE <= p < numPages
  }

  ghost predicate PageOk(g: HeapPage, perPage: nat, numPages: int) {
    && perPage <= BITMAP_WIDTH * |g.bitmap| && |g.slots| == perPage
    && g.numRecords == Count(g.bitmap, perPage) && LinkOk(g.nextFree, numPages)
  }

  ghost predicate PagesOk(pages: HeapPages, perPage: nat, numPages: int) {
    && (forall p :: p in pages <==> RM_FIRST_RECORD_PAGE <= p < numPages)
    && (forall p :: p in pages ==> PageOk(pages[p], perPage, numPages))
  }

  /** A slot of a record page. */
  predicate ValidRid(r: Rid, perPage: nat, numPages: int) {
    RM_FIRST_RECORD_PAGE <= r.pageNo < numPages && 0 <= r.slotNo < perPage
  }

  predicate IsLive(pages: HeapPages, perPage: nat, r: Rid) {
    r.pageNo in pages && 0 <= r.slotNo < perPage && InBits(pages[r.pageNo].bitmap, r.slotNo)
    && r.slotNo < |pages[r.pageNo].slots| && IsSet(pages[r.pageNo].bitmap, r.slotNo)
  }

  /** The records of the file by their rids. */
  ghost function Records(pages: HeapPages, perPage: nat): (m: map<Rid, Row>)
    ensures forall r :: r in m <==> IsLive(pages, perPage, r)
    ensures forall r :: r in m ==> IsLive(pages, perPage, r) && m[r] == pages[r.pageNo].slots[r.slotNo]
  {
    map r | r in RidsOf(pages, perPage) && IsLive(pages, perPage, r) :: pages[r.pageNo].slots[r.slotNo]
  }

  ghost function RidsOf(pages: HeapPages, perPage: nat): (s: set<Rid>)
    ensures forall r :: r in s <==> r.pageNo in pages && 0 <= r.slotNo < perPage
  {
    set p, s | p in pages && 0 <= s < perPage :: Rid(p, s)
  }

  /** The key under which a rid is remembered: the page number above 32 bits of slot number. */
  function RidKey(r: Rid): int {
    r.pageNo * 0x1_0000_0000 + r.slotNo % 0x1_0000_0000
  }

  function KeyRid(k: int): Rid {
    Rid(k / 0x1_0000_0000, k % 0x1_0000_0000)
  }

  lemma RidKeyInverse(r: Rid)
    requires 0 <= r.slotNo < 0x1_0000_0000
    ensures KeyRid(RidKey(r)) == r
  {
  }

  lemma KeyRidInverse(k: int)
    ensures RidKey(KeyRid(k)) == k && 0 <= KeyRid(k).slotNo < 0x1_0000_0000
  {
  }

  function Occupied(g: HeapPage, slot: int, row: Row): HeapPage
    requires InBits(g.bitmap, slot) && slot < |g.slots|
  {
    g.(slots := g.slots[slot := row], bitmap := Set(g.bitmap, slot), numRecords := g.numRecords + 1)
  }

  function Freed(g: HeapPage, slot: int): HeapPage
    requires InBits(g.bitmap, slot)
  {
    g.(bitmap := Reset(g.bitmap, slot), numRecords := g.numRecords - 1)
  }

  function EmptyPage(perPage: nat, bitmapSize: nat): HeapPage {
    HeapPage(RM_NO_PAGE, 0, Init(bitmapSize), seq(perPage, i => []))
  }

  lemma OccupiedOk(pages: HeapPages, perPage: nat, numPages: int, r: Rid, row: Row)
    requires PagesOk(pages, perPage, numPages) && ValidRid(r, perPage, numPages) && !IsLive(pages, perPage, r)
    ensures InBits(pages[r.pageNo].bitmap, r.slotNo) && r.slotNo < |pages[r.pageNo].slots|
    ensures var pages' := pages[r.pageNo := Occupied(pages[r.pageNo], r.slotNo, row)];
            && PagesOk(pages', perPage, numPages)
            && Records(pages', perPage) == Records(pages, perPage)[r := row]
            && (forall q :: IsLive(pages', perPage, q) <==> q == r || IsLive(pages, perPage, q))
  {
    hide IsSet, Set, Count;
    var g := pages[r.pageNo];
    var pages' := pages[r.pageNo := Occupied(g, r.slotNo, row)];
    CountSet(g.bitmap, perPage, r.slotNo);
    forall q ensures IsLive(pages', perPage, q) <==> q == r || IsLive(pages, perPage, q) {
      if q.pageNo == r.pageNo && InBits(g.bitmap, q.slotNo) {
        SetOne(g.bitmap, r.slotNo, q.slotNo);
      }
    }
  }

  /** A record that is stored over another one is counted twice. */
  lemma LiveTwice(pages: HeapPages, perPage: nat, numPages: int, r: Rid, row: Row)
    requires PagesOk(pages, perPage, numPages) && IsLive(pages, perPage, r)
    ensures var pages' := pages[r.pageNo := Occupied(pages[r.pageNo], r.slotNo, row)];
            && !PagesOk(pages', perPage, numPages)
            && Records(pages', perPage) == Records(pages, perPage)[r := row]
  {
    hide IsSet, Set, Count;
    var g := pages[r.pageNo];
    var pages' := pages[r.pageNo := Occupied(g, r.slotNo, row)];
    CountSet(g.bitmap, perPage, r.slotNo);
    forall q ensures IsLive(pages', perPage, q) <==> IsLive(pages, perPage, q) {
      if q.pageNo == r.pageNo && InBits(g.bitmap, q.slotNo) {
        SetOne(g.bitmap, r.slotNo, q.slotNo);
      }
    }
  }

  lemma FreedOk(pages: HeapPages, perPage: nat, numPages: int, r: Rid)
    requires PagesOk(pages, perPage, numPages) && IsLive(pages, perPage, r)
    ensures var pages' := pages[r.pageNo := Freed(pages[r.pageNo], r.slotNo)];
            && PagesOk(pages', perPage, numPages)
            && Records(pages', perPage) == Records(pages, perPage) - {r}
            && (forall q :: IsLive(pages', perPage, q) <==> q != r && IsLive(pages, perPage, q))
  {
    hide IsSet, Reset, Count;
    var g := pages[r.pageNo];
    var pages' := pages[r.pageNo := Freed(g, r.slotNo)];
    CountReset(g.bitmap, perPage, r.slotNo);
    forall q ensures IsLive(pages', perPage, q) <==> q != r && IsLive(pages, perPage, q) {
      if q.pageNo == r.pageNo && InBits(g.bitmap, q.slotNo) {
        ResetOne(g.bitmap, r.slotNo, q.slotNo);
      }
    }
  }

  /** Writing a record in place. */
  lemma RewrittenOk(pages: HeapPages, perPage: nat, numPages: int, r: Rid, row: Row)
    requires PagesOk(pages, perPage, numPages) && IsLive(pages, perPage, r)
    ensures var g := pages[r.pageNo];
            var pages' := pages[r.pageNo := g.(slots := g.slots[r.slotNo := row])];
            && PagesOk(pages', perPage, numPages)
            && Records(pages', perPage) == Records(pages, perPage)[r := row]
            && (forall q :: IsLive(pages', perPage, q) <==> IsLive(pages, perPage, q))
  {
    hide IsSet, Count;
  }

  /** Changing a free-list link leaves the records alone. */
  lemma RelinkedOk(pages: HeapPages, perPage: nat, numPages: int, p: int, next: int)
    requires PagesOk(pages, perPage, numPages) && p in pages && LinkOk(next, numPages)
    ensures var pages' := pages[p := pages[p].(nextFree := next)];
            && PagesOk(pages', perPage, numPages)
            && Records(pages', perPage) == Records(pages, perPage)
            && (forall q :: IsLive(pages', perPage, q) <==> IsLive(pages, perPage, q))
  {
    hide IsSet, Count;
  }

  lemma GrownOk(pages: HeapPages, perPage: nat, numPages: int, next: int)
    requires PagesOk(pages, perPage, numPages) && numPages >= 1 && LinkOk(next, numPages)
    ensures perPage <= BITMAP_WIDTH * BitmapSize(perPage)
    ensures var pages' := pages[numPages := EmptyPage(perPage, BitmapSize(perPage)).(nextFree := next)];
            && PagesOk(pages', perPage, numPages + 1)
            && Records(pages', perPage) == Records(pages, perPage)
            && (forall q :: IsLive(pages', perPage, q) <==> IsLive(pages, perPage, q))
  {
    hide IsSet, Count, Init;
    CountInit(BitmapSize(perPage), perPage);
    var pages' := pages[numPages := EmptyPage(perPage, BitmapSize(perPage)).(nextFree := next)];
    forall q ensures IsLive(pages', perPage, q) <==> IsLive(pages, perPage, q) {
      if q.pageNo == numPages && 0 <= q.slotNo < perPage {
        InitClear(BitmapSize(perPage), q.slotNo);
      }
    }
  }

  // -------------------------------------------------------------------------------------------
  // The file handle

  datatype RecordError = PageNotExist | RecordNotFound | NotReserved

  class File {
    const perPage: nat
    var numPages: int
    var firstFree: int
    var pages: HeapPages
    var cachedPage: int
    var reserved: set<int>

    ghost predicate Valid()
      reads this
    {
      && 1 <= perPage < 0x1_0000_0000 && numPages >= 1
      && PagesOk(pages, perPage, numPages) && LinkOk(firstFree, numPages)
      && (cachedPage == RM_NO_PAGE || cachedPage in pages)
      && forall k :: k in reserved ==> ValidRid(KeyRid(k), perPage, numPages) && !IsLive(pages, perPage, KeyRid(k))
    }

    /** The published records. */
    ghost function Live(): map<Rid, Row>
      reads this
    {
      Records(pages, perPage)
    }

    /** The rids of the published records in rid order. */
    ghost function Rids(): seq<Rid>
      reads this
    {
      AllRecords(pages, perPage, numPages)
    }

    /** The rids reserved for records that are not published yet. */
    ghost function Pending(): set<Rid>
      reads this
    {
      set k | k in reserved :: KeyRid(k)
    }

    constructor (recordSize: int)
      requires 1 <= recordSize <= RM_MAX_RECORD_SIZE
      ensures Valid() && Live() == map[] && Pending() == {} && perPage == RecordsPerPage(recordSize)
    {
      LayoutFits(recordSize);
      assert RecordsPerPage(recordSize) <= 32601;
      perPage := RecordsPerPage(recordSize);
      numPages, firstFree, pages, cachedPage, reserved := 1, RM_NO_PAGE, map[], RM_NO_PAGE, {};
    }

    lemma PendingIs(r: Rid)
      requires Valid() && 0 <= r.slotNo < 0x1_0000_0000
      ensures RidKey(r) in reserved <==> r in Pending()
      ensures r in Pending() ==> ValidRid(r, perPage, numPages) && r !in Live()
    {
      RidKeyInverse(r);
      forall k | k in reserved && KeyRid(k) == r ensures RidKey(r) == k {
        KeyRidInverse(k);
      }
    }

    /** A slot of the cached page that is neither used nor reserved, or -1. */
    method FindFreeSlot() returns (slot: int)
      requires Valid()
      ensures slot >= 0 ==> cachedPage in pages && slot < perPage && Rid(cachedPage, slot) !in Live() && Rid(cachedPage, slot) !in Pending()
      ensures slot < 0 && cachedPage != RM_NO_PAGE ==>
                forall s :: 0 <= s < perPage ==> Rid(cachedPage, s) in Live() || Rid(cachedPage, s) in Pending()
    {
      hide IsSet, Count;
      if cachedPage == RM_NO_PAGE {
        return -1;
      }
      slot := -1;
      while true
        invariant -1 <= slot < perPage
        invariant forall s :: 0 <= s <= slot ==> Rid(cachedPage, s) in Live() || Rid(cachedPage, s) in Pending()
        decreases perPage - slot
      {
        ghost var prev := slot;
        slot := NextBit(false, pages[cachedPage].bitmap, perPage, slot);
        if slot >= perPage {
          assert forall s :: prev < s < perPage ==> IsLive(pages, perPage, Rid(cachedPage, s));
          return -1;
        }
        PendingIs(Rid(cachedPage, slot));
        if RidKey(Rid(cachedPage, slot)) !in reserved {
          return;
        }
        assert forall s :: prev < s < slot ==> IsLive(pages, perPage, Rid(cachedPage, s));
      }
    }

    /** Appends an empty page, caches it and puts it at the head of the free list. */
    method CreatePage()
      requires Valid() && cachedPage == RM_NO_PAGE
      modifies this
      ensures Valid() && Live() == old(Live()) && Pending() == old(Pending())
      ensures cachedPage == firstFree == old(numPages) && numPages == old(numPages) + 1
      ensures cachedPage in pages && pages[cachedPage].nextFree == old(firstFree)
      ensures forall s :: 0 <= s < perPage ==> Rid(cachedPage, s) !in Live() && Rid(cachedPage, s) !in Pending()
    {
      hide IsSet, Count, Init, PagesOk, Records, RidsOf, KeyRid, EmptyPage, IsLive;
      GrownOk(pages, perPage, numPages, firstFree);
      PageRange(pages, perPage, numPages);
      NothingBeyond(pages, perPage, numPages, reserved);
      pages := pages[numPages := EmptyPage(perPage, BitmapSize(perPage)).(nextFree := firstFree)];
      cachedPage, firstFree, numPages := numPages, numPages, numPages + 1;
    }

    /** Leaves a page cached that has a slot to give away. */
    method EnsureInsertPageCached()
      requires Valid()
      modifies this
      ensures Valid() && Live() == old(Live()) && Pending() == old(Pending())
      ensures cachedPage in pages
      ensures exists s :: 0 <= s < perPage && Rid(cachedPage, s) !in Live() && Rid(cachedPage, s) !in Pending()
    {
      hide IsSet, Count, PagesOk, IsLive, Records, RidsOf;
      var slot := FindFreeSlot();
      if slot >= 0 {
        return;
      }
      cachedPage := RM_NO_PAGE;
      if firstFree != RM_NO_PAGE {
        PageRange(pages, perPage, numPages);
        cachedPage := firstFree;
        slot := FindFreeSlot();
        if slot >= 0 {
          return;
        }
        cachedPage := RM_NO_PAGE;
      }
      CreatePage();
      assert Rid(cachedPage, 0) !in Live() && Rid(cachedPage, 0) !in Pending();
    }

    /** Stores a record in an unused slot.  When that fills the page, the page after it becomes the head
        of the free list. */
    method Occupy(r: Rid, row: Row)
      requires Valid() && ValidRid(r, perPage, numPages) && r !in Live() && r !in Pending()
      modifies this`pages, this`firstFree
      ensures Valid() && Live() == old(Live())[r := row]
      ensures r.pageNo in old(pages) && r.pageNo in pages && pages[r.pageNo].nextFree == old(pages)[r.pageNo].nextFree
      ensures firstFree == if pages[r.pageNo].numRecords == perPage then old(pages)[r.pageNo].nextFree else old(firstFree)
    {
      hide IsSet, Count, PagesOk;
      OccupiedOk(pages, perPage, numPages, r, row);
      PageRange(pages, perPage, numPages);
      forall k | k in reserved ensures KeyRid(k) != r {
        assert KeyRid(k) in Pending();
      }
      pages := pages[r.pageNo := Occupied(pages[r.pageNo], r.slotNo, row)];
      PageLinks(pages, perPage, numPages, r.pageNo);
      if pages[r.pageNo].numRecords == perPage {
        firstFree := pages[r.pageNo].nextFree;
      }
    }

    /** Lets go of the cached page if it is full. */
    method LeaveFullPage(p: int)
      requires Valid() && p in pages
      modifies this`cachedPage
      ensures Valid() && Live() == old(Live())
      ensures cachedPage == if old(cachedPage) == p && pages[p].numRecords == perPage then RM_NO_PAGE else old(cachedPage)
    {
      hide PagesOk, IsLive, Records, RidsOf, KeyRid;
      if cachedPage == p && pages[p].numRecords == perPage {
        cachedPage := RM_NO_PAGE;
      }
    }

    /** Inserts a record at a place of the file's choosing. */
    method InsertRecord(row: Row) returns (r: Rid)
      requires Valid()
      modifies this
      ensures Valid() && ValidRid(r, perPage, numPages)
      ensures r !in old(Live()) && r !in old(Pending())
      ensures Live() == old(Live())[r := row] && Pending() == old(Pending())
    {
      hide IsSet, Count, PagesOk, IsLive, Records, RidsOf, KeyRid;
      EnsureInsertPageCached();
      PageRange(pages, perPage, numPages);
      ghost var s :| 0 <= s < perPage && Rid(cachedPage, s) !in Live() && Rid(cachedPage, s) !in Pending();
      var slot := FindFreeSlot();
      r := Rid(cachedPage, slot);
      Occupy(r, row);
      LeaveFullPage(r.pageNo);
    }

    /** Sets a slot aside without publishing a record in it. */
    method ReserveInsertSlot() returns (r: Rid)
      requires Valid()
      modifies this
      ensures Valid() && ValidRid(r, perPage, numPages)
      ensures r !in old(Live()) && r !in old(Pending())
      ensures Live() == old(Live()) && Pending() == old(Pending()) + {r}
    {
      hide IsSet, Count, PagesOk, Records, RidsOf, KeyRid, RidKey;
      EnsureInsertPageCached();
      PageRange(pages, perPage, numPages);
      ghost var s :| 0 <= s < perPage && Rid(cachedPage, s) !in Live() && Rid(cachedPage, s) !in Pending();
      var slot := FindFreeSlot();
      r := Rid(cachedPage, slot);
      RidKeyInverse(r);
      reserved := reserved + {RidKey(r)};
      AddPending(old(reserved), r);
    }

    /** Publishes a record in a slot reserved for it. */
    method PublishInsertSlot(r: Rid, row: Row) returns (e: Option<RecordError>)
      requires Valid() && 0 <= r.slotNo < perPage
      modifies this
      ensures Valid()
      ensures e == if r in old(Pending()) then None else Some(NotReserved)
      ensures e.None? ==> Live() == old(Live())[r := row] && Pending() == old(Pending()) - {r}
      ensures e.Some? ==> Live() == old(Live()) && Pending() == old(Pending())
    {
      hide IsSet, Count, PagesOk, Records, RidsOf, KeyRid, RidKey;
      PendingIs(r);
      if RidKey(r) !in reserved {
        return Some(NotReserved);
      }
      RemovePending(reserved, r);
      reserved := reserved - {RidKey(r)};
      Occupy(r, row);
      LeaveFullPage(r.pageNo);
      e := None;
    }

    /** Gives a reserved slot back. */
    method CancelInsertSlot(r: Rid)
      requires Valid() && 0 <= r.slotNo < perPage
      modifies this`reserved
      ensures Valid() && Live() == old(Live()) && Pending() == old(Pending()) - {r}
    {
      hide IsSet, Count, PagesOk, Records, RidsOf, KeyRid, RidKey;
      RemovePending(reserved, r);
      reserved := reserved - {RidKey(r)};
    }

    /** Puts a record back at a given place without looking whether the slot is in use; the file stays
        valid exactly if it is not. */
    method InsertRecordAt(r: Rid, row: Row) returns (e: Option<RecordError>)
      requires Valid() && r.pageNo != RM_FILE_HDR_PAGE && 0 <= r.slotNo < perPage
      modifies this`pages, this`firstFree
      ensures Pending() == old(Pending())
      ensures e == if RM_FIRST_RECORD_PAGE <= r.pageNo < old(numPages) then None else Some(PageNotExist)
      ensures Live() == if e.None? then old(Live())[r := row] else old(Live())
      ensures Valid() <==> e.Some? || (r !in old(Live()) && r !in old(Pending()))
      ensures e.None? ==> r.pageNo in pages
      ensures firstFree == if e.None? && pages[r.pageNo].numRecords == perPage then pages[r.pageNo].nextFree else old(firstFree)
    {
      hide IsSet, Count, PagesOk, RidsOf, KeyRid, RidKey;
      if r.pageNo >= numPages || r.pageNo < 0 {
        return Some(PageNotExist);
      }
      PageRange(pages, perPage, numPages);
      if r in Live() {
        LiveTwice(pages, perPage, numPages, r, row);
      } else {
        OccupiedOk(pages, perPage, numPages, r, row);
        PendingKey(r);
      }
      pages := pages[r.pageNo := Occupied(pages[r.pageNo], r.slotNo, row)];
      if pages[r.pageNo].numRecords == perPage {
        firstFree := pages[r.pageNo].nextFree;
      }
      e := None;
    }

    lemma PendingKey(r: Rid)
      requires Valid()
      ensures r in Pending() <==> exists k :: k in reserved && KeyRid(k) == r
    {
    }

    /** Clears the bit of a record; a page that was full returns to the free list. */
    method Free(r: Rid)
      requires Valid() && r in Live()
      modifies this`pages, this`firstFree
      ensures Valid() && Live() == old(Live()) - {r}
      ensures r.pageNo in old(pages) && r.pageNo in pages
      ensures var wasFull := old(pages)[r.pageNo].numRecords == perPage;
              && firstFree == (if wasFull then r.pageNo else old(firstFree))
              && pages[r.pageNo].nextFree == (if wasFull then old(firstFree) else old(pages)[r.pageNo].nextFree)
    {
      hide IsSet, Count, PagesOk;
      FreedOk(pages, perPage, numPages, r);
      PageRange(pages, perPage, numPages);
      var wasFull := pages[r.pageNo].numRecords == perPage;
      pages := pages[r.pageNo := Freed(pages[r.pageNo], r.slotNo)];
      if wasFull {
        RelinkedOk(pages, perPage, numPages, r.pageNo, firstFree);
        PageRange(pages, perPage, numPages);
        pages := pages[r.pageNo := pages[r.pageNo].(nextFree := firstFree)];
        firstFree := r.pageNo;
      }
    }

    method DeleteRecord(r: Rid) returns (e: Option<RecordError>)
      requires Valid() && r.pageNo != RM_FILE_HDR_PAGE && 0 <= r.slotNo < perPage
      modifies this`pages, this`firstFree
      ensures Valid() && Pending() == old(Pending())
      ensures e == if r in old(Live()) then None
                   else if r.pageNo in old(pages) then Some(RecordNotFound) else Some(PageNotExist)
      ensures Live() == old(Live()) - {r}
    {
      hide IsSet, Count, PagesOk, Records, RidsOf, KeyRid, RidKey;
      PageRange(pages, perPage, numPages);
      if r.pageNo >= numPages || r.pageNo < 0 {
        assert old(Live()) - {r} == old(Live());
        return Some(PageNotExist);
      }
      if !IsSet(pages[r.pageNo].bitmap, r.slotNo) {
        assert old(Live()) - {r} == old(Live());
        return Some(RecordNotFound);
      }
      Free(r);
      e := None;
    }

    method UpdateRecord(r: Rid, row: Row) returns (e: Option<RecordError>)
      requires Valid() && r.pageNo != RM_FILE_HDR_PAGE && 0 <= r.slotNo < perPage
      modifies this`pages
      ensures Valid() && Pending() == old(Pending())
      ensures e == if r in old(Live()) then None
                   else if r.pageNo in old(pages) then Some(RecordNotFound) else Some(PageNotExist)
      ensures Live() == if e.None? then old(Live())[r := row] else old(Live())
    {
      hide IsSet, Count, PagesOk, Records, RidsOf, KeyRid, RidKey;
      PageRange(pages, perPage, numPages);
      if r.pageNo >= numPages || r.pageNo < 0 {
        return Some(PageNotExist);
      }
      if !IsSet(pages[r.pageNo].bitmap, r.slotNo) {
        return Some(RecordNotFound);
      }
      WriteSlot(r, row);
      e := None;
    }

    /** Overwrites the slot of a record. */
    method WriteSlot(r: Rid, row: Row)
      requires Valid() && r in Live()
      modifies this`pages
      ensures Valid() && Live() == old(Live())[r := row]
    {
      hide IsSet, Count, PagesOk, RidsOf, KeyRid, RidKey;
      RewrittenOk(pages, perPage, numPages, r, row);
      PageRange(pages, perPage, numPages);
      pages := pages[r.pageNo := pages[r.pageNo].(slots := pages[r.pageNo].slots[r.slotNo := row])];
    }

    /** Reads the slot of a record without looking at its bit. */
    method ReadSlot(r: Rid) returns (row: Row)
      requires Valid() && r in Live()
      ensures row == Live()[r]
    {
      hide IsSet, Count, PagesOk, RidsOf, KeyRid, RidKey;
      row := pages[r.pageNo].slots[r.slotNo];
    }

    method GetRecord(r: Rid) returns (row: Option<Row>)
      requires Valid() && r.pageNo != RM_FILE_HDR_PAGE && 0 <= r.slotNo < perPage
      ensures row == if r in Live() then Some(Live()[r]) else None
    {
      hide IsSet, Count, PagesOk, RidsOf, KeyRid, RidKey;
      PageRange(pages, perPage, numPages);
      if r.pageNo >= numPages || r.pageNo < 0 || !IsSet(pages[r.pageNo].bitmap, r.slotNo) {
        return None;
      }
      row := Some(pages[r.pageNo].slots[r.slotNo]);
    }
  }

  lemma PageRange(pages: HeapPages, perPage: nat, numPages: int)
    requires PagesOk(pages, perPage, numPages)
    ensures forall p :: p in pages <==> RM_FIRST_RECORD_PAGE <= p < numPages
    ensures forall p :: p in pages ==> perPage <= BITMAP_WIDTH * |pages[p].bitmap| && |pages[p].slots| == perPage
    ensures forall p :: p in pages ==> LinkOk(pages[p].nextFree, numPages)
  {
  }

  lemma NothingBeyond(pages: HeapPages, perPage: nat, numPages: int, reserved: set<int>)
    requires PagesOk(pages, perPage, numPages) && forall k :: k in reserved ==> ValidRid(KeyRid(k), perPage, numPages)
    ensures forall s :: Rid(numPages, s) !in Records(pages, perPage) && Rid(numPages, s) !in (set k | k in reserved :: KeyRid(k))
  {
    hide IsSet, Count, PageOk, KeyRid;
  }

  lemma PageLinks(pages: HeapPages, perPage: nat, numPages: int, p: int)
    requires PagesOk(pages, perPage, numPages) && p in pages
    ensures LinkOk(pages[p].nextFree, numPages)
  {
  }

  lemma AddPending(reserved: set<int>, r: Rid)
    requires 0 <= r.slotNo < 0x1_0000_0000
    ensures (set k | k in reserved + {RidKey(r)} :: KeyRid(k)) == (set k | k in reserved :: KeyRid(k)) + {r}
  {
    hide KeyRid, RidKey;
    RidKeyInverse(r);
    assert RidKey(r) in reserved + {RidKey(r)};
  }

  lemma RemovePending(reserved: set<int>, r: Rid)
    requires 0 <= r.slotNo < 0x1_0000_0000
    ensures (set k | k in reserved - {RidKey(r)} :: KeyRid(k)) == (set k | k in reserved :: KeyRid(k)) - {r}
  {
    hide KeyRid, RidKey;
    RidKeyInverse(r);
    forall k ensures KeyRid(k) == r ==> k == RidKey(r) {
      KeyRidInverse(k);
    }
  }

  // -------------------------------------------------------------------------------------------
  // The scan

  /** Rids by page, then by slot. */
  predicate RidBefore(a: Rid, b: Rid) {
    a.pageNo < b.pageNo || (a.pageNo == b.pageNo && a.slotNo < b.slotNo)
  }

  ghost predicate Ascending(rs: seq<Rid>) {
    forall i, j :: 0 <= i < j < |rs| ==> RidBefore(rs[i], rs[j])
  }

  /** The records from slot s of page p on, in rid order. */
  ghost function RecordsFrom(pages: HeapPages, perPage: nat, numPages: int, p: int, s: int): (rs: seq<Rid>)
    decreases numPages - p, perPage - s
  {
    if p >= numPages then []
    else if s >= perPage then RecordsFrom(pages, perPage, numPages, p + 1, 0)
    else (if IsLive(pages, perPage, Rid(p, s)) then [Rid(p, s)] else []) + RecordsFrom(pages, perPage, numPages, p, s + 1)
  }

  /** They are exactly the records at or after the position, each once and in order. */
  lemma {:induction false} RecordsFromExact(pages: HeapPages, perPage: nat, numPages: int, p: int, s: int)
    requires PagesOk(pages, perPage, numPages) && 0 <= s
    ensures var rs := RecordsFrom(pages, perPage, numPages, p, s);
            && Ascending(rs)
            && forall r :: r in rs <==> IsLive(pages, perPage, r) && !RidBefore(r, Rid(p, s))
    decreases numPages - p, perPage - s
  {
    hide IsLive, Ascending, PagesOk;
    NoneAscending();
    if p >= numPages {
      LivePlaces(pages, perPage, numPages);
    } else if s >= perPage {
      LivePlaces(pages, perPage, numPages);
      RecordsFromExact(pages, perPage, numPages, p + 1, 0);
    } else {
      RecordsFromExact(pages, perPage, numPages, p, s + 1);
      var rest := RecordsFrom(pages, perPage, numPages, p, s + 1);
      AscendingCons(Rid(p, s), rest);
      assert [] + rest == rest;
    }
  }

  lemma NoneAscending()
    ensures Ascending([])
  {
  }

  lemma LivePlaces(pages: HeapPages, perPage: nat, numPages: int)
    requires PagesOk(pages, perPage, numPages)
    ensures forall r :: IsLive(pages, perPage, r) ==> ValidRid(r, perPage, numPages)
  {
    hide IsSet, PageOk;
  }

  lemma AscendingCons(r: Rid, rest: seq<Rid>)
    requires Ascending(rest) && forall q :: q in rest ==> RidBefore(r, q)
    ensures Ascending([r] + rest)
  {
  }

  /** Passing over unused slots changes nothing. */
  lemma {:induction false} SkipUnused(pages: HeapPages, perPage: nat, numPages: int, p: int, s: int, n: int)
    requires p < numPages && 0 <= s <= n <= perPage && forall i :: s <= i < n ==> !IsLive(pages, perPage, Rid(p, i))
    ensures RecordsFrom(pages, perPage, numPages, p, s) == RecordsFrom(pages, perPage, numPages, p, n)
    decreases n - s
  {
    if s < n {
      SkipUnused(pages, perPage, numPages, p, s + 1, n);
    }
  }

  /** The scan over an unchanging file. */
  class Scan {
    const file: File
    var rid: Rid

    ghost predicate Valid()
      reads this, file
    {
      && file.Valid() && rid.pageNo >= RM_FIRST_RECORD_PAGE && -1 <= rid.slotNo
      && (rid.pageNo < file.numPages ==> rid in file.Live())
    }

    /** The records still to be visited, the current one included. */
    ghost function Rest(): seq<Rid>
      reads this, file
    {
      RecordsFrom(file.pages, file.perPage, file.numPages, rid.pageNo, rid.slotNo)
    }

    constructor (file: File)
      requires file.Valid()
      ensures Valid() && this.file == file
      ensures Rest() == file.Rids()
    {
      this.file, rid := file, Rid(RM_FIRST_RECORD_PAGE, -1);
      new;
      Seek();
    }

    /** Goes to the first record after the current position. */
    method Seek()
      requires file.Valid() && rid.pageNo >= RM_FIRST_RECORD_PAGE && -1 <= rid.slotNo < file.perPage
      modifies this
      ensures Valid()
      ensures Rest() == old(RecordsFrom(file.pages, file.perPage, file.numPages, rid.pageNo, rid.slotNo + 1))
    {
      hide IsSet, PagesOk, Records, RidsOf, KeyRid;
      PageRange(file.pages, file.perPage, file.numPages);
      while rid.pageNo < file.numPages
        invariant file.Valid() && rid.pageNo >= RM_FIRST_RECORD_PAGE && -1 <= rid.slotNo < file.perPage
        invariant RecordsFrom(file.pages, file.perPage, file.numPages, rid.pageNo, rid.slotNo + 1)
                  == old(RecordsFrom(file.pages, file.perPage, file.numPages, rid.pageNo, rid.slotNo + 1))
        decreases file.numPages - rid.pageNo
      {
        var next := NextBit(true, file.pages[rid.pageNo].bitmap, file.perPage, rid.slotNo);
        SkipUnused(file.pages, file.perPage, file.numPages, rid.pageNo, rid.slotNo + 1, next);
        if next < file.perPage {
          rid := rid.(slotNo := next);
          return;
        }
        rid := Rid(rid.pageNo + 1, -1);
      }
    }

    method Next()
      requires Valid()
      modifies this
      ensures Valid() && Rest() == if old(Rest()) == [] then [] else old(Rest())[1..]
    {
      hide IsSet, PagesOk, Records, RidsOf, KeyRid;
      PageRange(file.pages, file.perPage, file.numPages);
      if rid.pageNo < file.numPages {
        Seek();
      }
    }

    method IsEnd() returns (b: bool)
      requires Valid()
      ensures b <==> Rest() == []
      ensures !b ==> rid == Rest()[0]
    {
      hide IsSet, PagesOk, RidsOf, KeyRid;
      PageRange(file.pages, file.perPage, file.numPages);
      b := rid.pageNo >= file.numPages;
    }
  }

  ghost function AllRecords(pages: HeapPages, perPage: nat, numPages: int): seq<Rid> {
    RecordsFrom(pages, perPage, numPages, RM_FIRST_RECORD_PAGE, 0)
  }

  /** A scan visits every published record once, in rid order, and nothing else. */
  method ScanAll(file: File) returns (rs: seq<Rid>)
    requires file.Valid()
    ensures Ascending(rs) && forall r :: r in rs <==> r in file.Live()
    ensures rs == file.Rids()
  {
    hide IsSet, PagesOk, RecordsFrom, Count, Records, RidsOf, KeyRid;
    ghost var all := file.Rids();
    var scan := new Scan(file);
    rs := [];
    var atEnd := scan.IsEnd();
    while !atEnd
      invariant scan.Valid() && scan.file == file
      invariant |rs| <= |all| && rs == all[..|rs|] && scan.Rest() == all[|rs|..]
      invariant atEnd <==> scan.Rest() == []
      invariant !atEnd ==> scan.rid == scan.Rest()[0]
      decreases |scan.Rest()|
    {
      rs := rs + [scan.rid];
      scan.Next();
      atEnd := scan.IsEnd();
    }
    AllRecordsExact(file.pages, file.perPage, file.numPages);
  }

  lemma AllRecordsExact(pages: HeapPages, perPage: nat, numPages: int)
    requires PagesOk(pages, perPage, numPages)
    ensures var rs := AllRecords(pages, perPage, numPages);
            Ascending(rs) && forall r :: r in rs <==> r in Records(pages, perPage)
  {
    hide IsSet, PageOk;
    RecordsFromExact(pages, perPage, numPages, RM_FIRST_RECORD_PAGE, 0);
  }
}
