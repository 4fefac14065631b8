/**
  The index scan executor over a B+ tree index and the heap it indexes, with row versioning off.
  It is shown to return exactly the rows a full scan filtered by the same conditions returns, in
  key order.
  */
module ScanExec {
  import opened Sequences
  import opened Options
  import opened IndexKeys
  import opened ScanBounds
  import opened IndexPages
  import opened IndexShape
  import opened IndexHandle
  import opened IndexScan
  import opened HeapFile

  type Heap = map<Rid, Row>

  ghost predicate HeapFits(t: Table, heap: Heap) {
    forall r :: r in heap ==> KeyFits(heap[r], t.cols)
  }

  /** The index maps the key of every row to the row, and nothing else. */
  ghost predicate IndexAgrees(t: Table, heap: Heap, m: map<int, Rid>)
    requires TableOk(t) && HeapFits(t, heap)
  {
    && (forall r :: r in heap ==> KeyRank(t, heap[r]) in m && m[KeyRank(t, heap[r])] == r)
    && (forall k :: k in m ==> m[k] in heap && KeyRank(t, heap[m[k]]) == k)
  }

  /** Index entries that lead to rows with the key of the entry. */
  ghost predicate EntriesAgree(t: Table, heap: Heap, es: seq<Entry>)
    requires TableOk(t) && HeapFits(t, heap)
  {
    forall e :: e in es ==> e.rid in heap && KeyRank(t, heap[e.rid]) == e.key
  }

  /** The rids of the entries whose rows satisfy the conditions, in the order of the entries. */
  ghost function Matching(t: Table, heap: Heap, conds: seq<Cond>, es: seq<Entry>): seq<Rid>
    requires TableOk(t) && HeapFits(t, heap) && CondsOk(conds, t.cols) && EntriesAgree(t, heap, es)
  {
    if es == [] then [] else
      (if Satisfies(conds, heap[es[0].rid], t.cols) then [es[0].rid] else []) + Matching(t, heap, conds, es[1..])
  }

  lemma {:induction false} MatchingConcat(t: Table, heap: Heap, conds: seq<Cond>, es: seq<Entry>, fs: seq<Entry>)
    requires TableOk(t) && HeapFits(t, heap) && CondsOk(conds, t.cols)
    requires EntriesAgree(t, heap, es) && EntriesAgree(t, heap, fs)
    ensures EntriesAgree(t, heap, es + fs)
    ensures Matching(t, heap, conds, es + fs) == Matching(t, heap, conds, es) + Matching(t, heap, conds, fs)
  {
    hide Satisfies, KeyRank;
    if es == [] {
      assert es + fs == fs;
    } else {
      assert (es + fs)[1..] == es[1..] + fs;
      MatchingConcat(t, heap, conds, es[1..], fs);
    }
  }

  lemma {:induction false} MatchingNone(t: Table, heap: Heap, conds: seq<Cond>, es: seq<Entry>)
    requires TableOk(t) && HeapFits(t, heap) && CondsOk(conds, t.cols) && EntriesAgree(t, heap, es)
    requires forall e :: e in es ==> !Satisfies(conds, heap[e.rid], t.cols)
    ensures Matching(t, heap, conds, es) == []
  {
    hide Satisfies, KeyRank;
    if es != [] {
      MatchingNone(t, heap, conds, es[1..]);
    }
  }

  lemma {:induction false} MatchingContents(t: Table, heap: Heap, conds: seq<Cond>, es: seq<Entry>)
    requires TableOk(t) && HeapFits(t, heap) && CondsOk(conds, t.cols) && EntriesAgree(t, heap, es) && Sorted(es)
    ensures forall r :: r in Matching(t, heap, conds, es) <==> exists e :: e in es && e.rid == r && Satisfies(conds, heap[r], t.cols)
    ensures NoDup(Matching(t, heap, conds, es))
    ensures |Matching(t, heap, conds, es)| <= |es|
  {
    hide Satisfies, KeyRank;
    if es != [] {
      RidsDiffer(t, heap, es);
      hide Fits;
      var rest := Matching(t, heap, conds, es[1..]);
      MatchingContents(t, heap, conds, es[1..]);
      assert es == [es[0]] + es[1..];
      assert es[0].rid !in rest;
      DistinctCons(es[0].rid, rest);
    }
  }

  /** The first of sorted entries leads to another record than the rest. */
  lemma RidsDiffer(t: Table, heap: Heap, es: seq<Entry>)
    requires TableOk(t) && HeapFits(t, heap) && EntriesAgree(t, heap, es) && Sorted(es) && es != []
    ensures Sorted(es[1..]) && EntriesAgree(t, heap, es[1..]) && forall e :: e in es[1..] ==> e.rid != es[0].rid
  {
    hide KeyRank;
    assert es[0] in es;
    forall e | e in es[1..] ensures e.key != es[0].key && e in es {
    }
  }

  lemma DistinctCons(r: Rid, rest: seq<Rid>)
    requires NoDup(rest) && r !in rest
    ensures NoDup([r] + rest) && [] + rest == rest
  {
  }

  /** Prefix and bounds as derived from the conditions. */
  ghost predicate BoundsFor(t: Table, conds: seq<Cond>, prefix: seq<Value>, lower: Option<Bound>, upper: Option<Bound>)
    requires TableOk(t) && CondsOk(conds, t.cols)
  {
    && IsPrefix(t, conds, prefix)
    && BoundsFit(KeyCols(t), |prefix|, lower, upper)
    && (|prefix| == |t.index| ==> lower.None? && upper.None?)
    && (|prefix| < |t.index| ==>
          && LowerIs(conds, t.cols, t.index[|prefix|], |conds|, lower)
          && UpperIs(conds, t.cols, t.index[|prefix|], |conds|, upper))
  }

  method DeriveBounds(t: Table, conds: seq<Cond>) returns (prefix: seq<Value>, lower: Option<Bound>, upper: Option<Bound>)
    requires TableOk(t) && CondsOk(conds, t.cols)
    ensures BoundsFor(t, conds, prefix, lower, upper)
    ensures forall i :: 0 <= i < |prefix| ==> Fits(prefix[i], KeyCols(t)[i])
  {
    prefix := AnalyzeConditions(t, conds);
    lower, upper := None, None;
    if |prefix| < |t.index| {
      lower, upper := RangeBounds(conds, t.cols, t.index[|prefix|]);
    }
    forall i | 0 <= i < |prefix| ensures Fits(prefix[i], KeyCols(t)[i]) {
      assert HasEq(conds, t.index[i], prefix[i]);
    }
  }

  lemma SatisfiedHasPrefix(t: Table, conds: seq<Cond>, row: Row, prefix: seq<Value>)
    requires TableOk(t) && CondsOk(conds, t.cols) && KeyFits(row, t.cols) && Satisfies(conds, row, t.cols)
    requires IsPrefix(t, conds, prefix)
    ensures KeyOf(t, row)[..|prefix|] == prefix
  {
    forall i | 0 <= i < |prefix| ensures KeyOf(t, row)[i] == prefix[i] {
      assert HasEq(conds, t.index[i], prefix[i]);
      var c :| 0 <= c < |conds| && IsConstOn(conds[c], t.index[i]) && conds[c].op.EQ? && conds[c].rhs.value == prefix[i];
      assert Holds(conds[c], row, t.cols);
      ColumnOrder(row[t.index[i]], prefix[i], t.cols[t.index[i]]);
    }
  }

  /** A row that satisfies the conditions has a wanted key. */
  lemma SatisfiedIsWanted(t: Table, conds: seq<Cond>, row: Row, prefix: seq<Value>, lower: Option<Bound>, upper: Option<Bound>)
    requires TableOk(t) && CondsOk(conds, t.cols) && KeyFits(row, t.cols) && Satisfies(conds, row, t.cols)
    requires BoundsFor(t, conds, prefix, lower, upper)
    ensures Wanted(KeyOf(t, row), KeyCols(t), prefix, lower, upper)
  {
    SatisfiedHasPrefix(t, conds, row, prefix);
    if |prefix| < |t.index| {
      var col := t.index[|prefix|];
      if lower.Some? {
        var c :| 0 <= c < |conds| && IsLowerOn(conds[c], col) && conds[c].rhs.value == lower.value.value
                 && conds[c].op.GE? == lower.value.inclusive;
        assert Holds(conds[c], row, t.cols);
        ColumnOrder(row[col], lower.value.value, t.cols[col]);
      }
      if upper.Some? {
        var c :| 0 <= c < |conds| && IsUpperOn(conds[c], col) && conds[c].rhs.value == upper.value.value
                 && conds[c].op.LE? == upper.value.inclusive;
        assert Holds(conds[c], row, t.cols);
        ColumnOrder(row[col], upper.value.value, t.cols[col]);
      }
    }
  }

  /** The first entry off the prefix ends the search: neither it nor any later one matches. */
  lemma OffPrefixNoMatch(t: Table, heap: Heap, conds: seq<Cond>, prefix: seq<Value>, start: seq<Value>, es: seq<Entry>)
    requires TableOk(t) && HeapFits(t, heap) && CondsOk(conds, t.cols) && EntriesAgree(t, heap, es) && Sorted(es)
    requires IsPrefix(t, conds, prefix) && KeyFits(start, KeyCols(t)) && start[..|prefix|] == prefix
    requires es != [] && Rank(start, KeyCols(t)) <= es[0].key
    requires KeyOf(t, heap[es[0].rid])[..|prefix|] != prefix
    ensures Matching(t, heap, conds, es) == []
  {
    hide Rank, Satisfies, Fits, IsPrefix;
    PrefixFits(t, conds, prefix);
    forall e | e in es ensures !Satisfies(conds, heap[e.rid], t.cols) {
      var j :| 0 <= j < |es| && es[j] == e;
      assert es[0].key <= e.key;
      PrefixLeft(KeyCols(t), start, |prefix|, KeyOf(t, heap[es[0].rid]), KeyOf(t, heap[e.rid]));
      if Satisfies(conds, heap[e.rid], t.cols) {
        SatisfiedHasPrefix(t, conds, heap[e.rid], prefix);
      }
    }
    MatchingNone(t, heap, conds, es);
  }

  lemma PrefixFits(t: Table, conds: seq<Cond>, prefix: seq<Value>)
    requires IsPrefix(t, conds, prefix)
    ensures |prefix| <= |t.index|
  {
  }

  /** Entries before the start of the range, or from its end on, belong to rows that do not match. */
  lemma OutsideNoMatch(t: Table, heap: Heap, conds: seq<Cond>, e: Entry, r: KeyRange,
                       prefix: seq<Value>, lower: Option<Bound>, upper: Option<Bound>)
    requires TableOk(t) && HeapFits(t, heap) && CondsOk(conds, t.cols) && EntriesAgree(t, heap, [e])
    requires BoundsFor(t, conds, prefix, lower, upper) && RangeOk(r, KeyCols(t), prefix, lower, upper)
    requires Outside(e.key, r, KeyCols(t))
    ensures e.rid in heap && !Satisfies(conds, heap[e.rid], t.cols)
  {
    hide Rank, Satisfies, Fits, Contradict, Wanted;
    assert e in [e];
    if Satisfies(conds, heap[e.rid], t.cols) {
      SatisfiedIsWanted(t, conds, heap[e.rid], prefix, lower, upper);
    }
  }

  /** Place n of the entries is where a range starts (or, for its end, stops). */
  ghost predicate PlaceOk(es: seq<Entry>, atTreeEnd: bool, treeEnd: nat, bound: int, strict: bool, n: nat) {
    n <= |es| && if atTreeEnd then n == treeEnd else BoundAt(es, bound, strict, n)
  }

  /** A derived range does not run backwards, and holds every match. */
  lemma RangeFinds(t: Table, heap: Heap, conds: seq<Cond>, es: seq<Entry>, r: KeyRange,
                   prefix: seq<Value>, lower: Option<Bound>, upper: Option<Bound>, n: nat, m: nat)
    requires TableOk(t) && HeapFits(t, heap) && CondsOk(conds, t.cols) && EntriesAgree(t, heap, es)
    requires BoundsFor(t, conds, prefix, lower, upper) && RangeOk(r, KeyCols(t), prefix, lower, upper)
    requires PlaceOk(es, r.fromBegin, 0, Rank(r.startKey, KeyCols(t)), r.startStrict, n)
    requires PlaceOk(es, r.toEnd, |es|, Rank(r.endKey, KeyCols(t)), r.endStrict, m)
    ensures n <= |es| && m <= |es|
    ensures r.empty ==> Matching(t, heap, conds, es) == []
    ensures !r.empty ==> n <= m && EntriesAgree(t, heap, es[n..m])
                         && Matching(t, heap, conds, es) == Matching(t, heap, conds, es[n..m])
  {
    hide Rank, Satisfies, Fits, KeyRank, BoundsFor, RangeOk, Matching, PlaceOk;
    DerivedFits(t, conds, prefix, lower, upper);
    RangeForward(es, r, KeyCols(t), prefix, lower, upper, n, m);
    forall e | e in es && Outside(e.key, r, KeyCols(t)) ensures e.rid in heap && !Satisfies(conds, heap[e.rid], t.cols) {
      assert EntriesAgree(t, heap, [e]);
      OutsideNoMatch(t, heap, conds, e, r, prefix, lower, upper);
    }
    if r.empty {
      MatchingNone(t, heap, conds, es);
    } else {
      MiddleMatches(t, heap, conds, es, n, m);
    }
  }

  /** Keys a range does not reach. */
  ghost predicate Outside(key: int, r: KeyRange, cols: seq<Column>)
    requires KeyFits(r.startKey, cols) && KeyFits(r.endKey, cols)
  {
    r.empty || (!r.fromBegin && Before(key, Rank(r.startKey, cols), r.startStrict))
            || (!r.toEnd && !Before(key, Rank(r.endKey, cols), r.endStrict))
  }

  lemma MiddleMatches(t: Table, heap: Heap, conds: seq<Cond>, es: seq<Entry>, n: nat, m: nat)
    requires TableOk(t) && HeapFits(t, heap) && CondsOk(conds, t.cols) && EntriesAgree(t, heap, es) && n <= m <= |es|
    requires forall j :: 0 <= j < |es| && (j < n || m <= j) ==> !Satisfies(conds, heap[es[j].rid], t.cols)
    ensures EntriesAgree(t, heap, es[n..m]) && Matching(t, heap, conds, es) == Matching(t, heap, conds, es[n..m])
  {
    hide Satisfies, KeyRank, Matching, HeapFits;
    MatchingNone(t, heap, conds, es[..n]);
    MatchingNone(t, heap, conds, es[m..]);
    MatchingConcat(t, heap, conds, es[..n], es[n..m]);
    MatchingConcat(t, heap, conds, es[..n] + es[n..m], es[m..]);
    assert es == es[..n] + es[n..m] + es[m..];
  }

  lemma RangeForward(es: seq<Entry>, r: KeyRange, cols: seq<Column>, prefix: seq<Value>, lower: Option<Bound>, upper: Option<Bound>,
                     n: nat, m: nat)
    requires |prefix| <= |cols| && BoundsFit(cols, |prefix|, lower, upper) && RangeOk(r, cols, prefix, lower, upper)
    requires PlaceOk(es, r.fromBegin, 0, Rank(r.startKey, cols), r.startStrict, n)
    requires PlaceOk(es, r.toEnd, |es|, Rank(r.endKey, cols), r.endStrict, m)
    ensures KeyFits(r.startKey, cols) && KeyFits(r.endKey, cols)
    ensures n <= |es| && m <= |es| && (!r.empty ==> n <= m)
    ensures forall j :: 0 <= j < |es| && (r.empty || j < n || m <= j) ==> Outside(es[j].key, r, cols)
  {
    hide Rank, Fits, Wanted, Contradict;
    assert m < n ==> r.empty || (Below(es[m].key, Rank(r.startKey, cols), r.startStrict) && !r.fromBegin && !r.toEnd);
    assert forall x, b: int, s: bool :: Below(x, b, s) == Before(x, b, s);
  }

  /** Entries of the range are not below its start key. */
  lemma RangeFromStart(es: seq<Entry>, cols: seq<Column>, r: KeyRange, n: nat)
    requires KeyFits(r.startKey, cols) && !r.fromBegin
    requires PlaceOk(es, r.fromBegin, 0, Rank(r.startKey, cols), r.startStrict, n)
    ensures forall j :: n <= j < |es| ==> Rank(r.startKey, cols) <= es[j].key
  {
    hide Rank, Fits;
  }

  lemma ContentsAgree(t: Table, heap: Heap, es: seq<Entry>, m: map<int, Rid>)
    requires TableOk(t) && HeapFits(t, heap) && Denotes(es, m) && IndexAgrees(t, heap, m)
    ensures EntriesAgree(t, heap, es)
  {
    hide KeyRank;
  }

  // -------------------------------------------------------------------------------------------
  // The executor

  /** The entries a scan still visits are in key order, belong to rows, and none of them lies below
      the first key with the prefix. */
  ghost predicate Ready(t: Table, heap: Heap, conds: seq<Cond>, prefix: seq<Value>, start: seq<Value>, rest: seq<Entry>)
    requires TableOk(t) && HeapFits(t, heap)
  {
    && Sorted(rest) && EntriesAgree(t, heap, rest) && IsPrefix(t, conds, prefix)
    && (prefix != [] ==>
          && KeyFits(start, KeyCols(t)) && start[..|prefix|] == prefix
          && forall e :: e in rest ==> Rank(start, KeyCols(t)) <= e.key)
  }

  lemma ReadyTail(t: Table, heap: Heap, conds: seq<Cond>, prefix: seq<Value>, start: seq<Value>, rest: seq<Entry>)
    requires TableOk(t) && HeapFits(t, heap) && rest != [] && Ready(t, heap, conds, prefix, start, rest)
    ensures Ready(t, heap, conds, prefix, start, rest[1..])
  {
    hide KeyRank, IsPrefix, Rank, Fits;
    assert forall e :: e in rest[1..] ==> e in rest;
  }

  /** What the head of the entries contributes to the result. */
  lemma ReadyHead(t: Table, heap: Heap, conds: seq<Cond>, prefix: seq<Value>, start: seq<Value>, rest: seq<Entry>)
    requires TableOk(t) && HeapFits(t, heap) && CondsOk(conds, t.cols) && Ready(t, heap, conds, prefix, start, rest)
    ensures EntriesAgree(t, heap, rest) && |prefix| <= |t.index|
    ensures rest != [] ==> rest[0].rid in heap && EntriesAgree(t, heap, rest[1..])
    ensures rest == [] ==> Matching(t, heap, conds, rest) == []
    ensures rest != [] && KeyOf(t, heap[rest[0].rid])[..|prefix|] != prefix ==> Matching(t, heap, conds, rest) == []
    ensures rest != [] ==>
              Matching(t, heap, conds, rest) ==
              (if Satisfies(conds, heap[rest[0].rid], t.cols) then [rest[0].rid] else []) + Matching(t, heap, conds, rest[1..])
  {
    hide Satisfies, Rank, Fits, KeyRank;
    PrefixFits(t, conds, prefix);
    if rest != [] {
      assert rest[0] in rest;
      assert forall e :: e in rest[1..] ==> e in rest;
      if prefix != [] && KeyOf(t, heap[rest[0].rid])[..|prefix|] != prefix {
        OffPrefixNoMatch(t, heap, conds, prefix, start, rest);
      }
    }
  }

  class IndexScanExecutor {
    const t: Table
    const conds: seq<Cond>
    const file: File
    const prefix: seq<Value>
    const needEval: bool
    const needPrefixCheck: bool
    const scan: Cursor
    var rangeExhausted: bool
    var rid: Rid
    ghost const heap: Heap
    ghost const start: seq<Value>

    ghost predicate Valid()
      reads this, file, scan, scan.ih
    {
      && TableOk(t) && CondsOk(conds, t.cols) && file.Valid() && file.Live() == heap && HeapFits(t, heap) && scan.Valid()
      && Ready(t, heap, conds, prefix, start, scan.Rest()) && EntriesAgree(t, heap, scan.Rest())
      && needEval == (conds != []) && needPrefixCheck == (prefix != [])
    }

    /** The rids still to be returned, the current one included. */
    ghost function Pending(): seq<Rid>
      requires Valid()
      reads this, file, scan, scan.ih
    {
      if rangeExhausted then [] else Matching(t, heap, conds, scan.Rest())
    }

    /** The current row, if there is one, satisfies the conditions. */
    ghost predicate AtMatch()
      requires Valid()
      reads this, file, scan, scan.ih
    {
      rangeExhausted || scan.Rest() == [] ||
      (rid == scan.Rest()[0].rid && rid in heap && Satisfies(conds, heap[rid], t.cols))
    }

    /** Derives the range from the conditions, opens the cursor and goes to the first match. */
    constructor BeginTuple(t: Table, conds: seq<Cond>, ih: Handle, file: File)
      requires TableOk(t) && CondsOk(conds, t.cols) && file.Valid() && HeapFits(t, file.Live())
      requires ih.Valid() && IndexAgrees(t, file.Live(), ih.Contents())
      modifies ih`pins
      ensures Valid() && ih.Valid() && ih.T() == old(ih.T())
      ensures scan.ih == ih && fresh(scan)
      ensures this.t == t && this.conds == conds && this.file == file
      ensures EntriesAgree(t, file.Live(), EntriesOf(ih))
      ensures Pending() == Matching(t, file.Live(), conds, EntriesOf(ih))
      ensures AtMatch()
    {
      hide Shape, PosAt, KeyRank, IndexAgrees, EntriesAgree, Satisfies, Rank, Fits, Ready, Matching, Entries, RestFrom, Listed, PagesOk, Records, KeyRid;
      var prefix, start, empty, cursor := OpenCursor(t, conds, ih, file.Live());
      this.t, this.conds, this.file, this.heap, this.prefix := t, conds, file, file.Live(), prefix;
      needEval, needPrefixCheck := conds != [], prefix != [];
      scan, rangeExhausted, rid := cursor, empty, Rid(-1, -1);
      this.start := start;
      new;
      if !rangeExhausted {
        PositionToMatch();
      }
    }

    method PrefixMatches(row: Row) returns (b: bool)
      requires TableOk(t) && KeyFits(row, t.cols) && |prefix| <= |t.index|
      ensures b <==> KeyOf(t, row)[..|prefix|] == prefix
    {
      hide Fits;
      for i := 0 to |prefix|
        invariant forall j :: 0 <= j < i ==> row[t.index[j]] == prefix[j]
      {
        if row[t.index[i]] != prefix[i] {
          assert KeyOf(t, row)[..|prefix|][i] != prefix[i];
          return false;
        }
      }
      assert KeyOf(t, row)[..|prefix|] == prefix;
      return true;
    }

    /** The checks on the current row: stop for good, return it, or pass over it. */
    method CheckRow(row: Row) returns (stop: bool, matches: bool)
      requires TableOk(t) && KeyFits(row, t.cols) && |prefix| <= |t.index| && CondsOk(conds, t.cols)
      requires needEval == (conds != []) && needPrefixCheck == (prefix != [])
      ensures stop <==> KeyOf(t, row)[..|prefix|] != prefix
      ensures !stop ==> matches == Satisfies(conds, row, t.cols)
    {
      hide Fits;
      stop, matches := false, true;
      if needPrefixCheck {
        var onPrefix := PrefixMatches(row);
        if !onPrefix {
          return true, false;
        }
      }
      if needEval {
        matches := EvalConds(conds, row, t.cols);
      }
    }

    /** The checks on the row of the current entry. */
    method CheckCurrent() returns (stop: bool, matches: bool)
      requires Valid() && !rangeExhausted && scan.Rest() != [] && rid == scan.Rest()[0].rid
      ensures stop ==> Pending() == []
      ensures !stop && matches ==> AtMatch()
      ensures !stop && !matches ==>
                EntriesAgree(t, heap, scan.Rest()[1..]) && Pending() == Matching(t, heap, conds, scan.Rest()[1..])
    {
      hide Shape, PosAt, KeyRank, Rank, Satisfies, Fits, Ready, Matching, EntriesAgree, Entries, RestFrom, PagesOk, Records, KeyRid;
      ReadyHead(t, heap, conds, prefix, start, scan.Rest());
      var row := file.ReadSlot(rid);
      stop, matches := CheckRow(row);
    }

    /** Takes the cursor over one entry. */
    method StepOver()
      requires Valid() && scan.Rest() != []
      modifies scan`iid, scan`leafIdx, scan`place
      ensures Valid() && scan.Rest() == old(scan.Rest())[1..]
    {
      hide Shape, PosAt, KeyRank, Rank, Satisfies, Fits, Ready, Matching, EntriesAgree, Entries, RestFrom, PagesOk, Records, KeyRid;
      ReadyHead(t, heap, conds, prefix, start, scan.Rest());
      ReadyTail(t, heap, conds, prefix, start, scan.Rest());
      scan.Advance();
    }

    /** Moves on to the next match; a row off the prefix ends the scan. */
    method PositionToMatch()
      requires Valid()
      modifies this`rangeExhausted, this`rid, scan`iid, scan`leafIdx, scan`place
      ensures Valid() && Pending() == old(Pending()) && AtMatch()
    {
      hide Shape, PosAt, KeyRank, Rank, Satisfies, Fits, Ready, Matching, EntriesAgree, Entries, RestFrom, PagesOk, Records, KeyRid;
      var atEnd := scan.IsEnd();
      while !rangeExhausted && !atEnd
        invariant Valid() && Pending() == old(Pending())
        invariant atEnd <==> scan.Rest() == []
        decreases |scan.Rest()|
      {
        rid := scan.CurrentRid();
        var stop, matches := CheckCurrent();
        if stop {
          rangeExhausted := true;
          return;
        }
        if matches {
          return;
        }
        StepOver();
        atEnd := scan.IsEnd();
      }
    }

    /** One row forward. */
    method NextTuple()
      requires Valid() && AtMatch()
      modifies this`rangeExhausted, this`rid, scan`iid, scan`leafIdx, scan`place
      ensures Valid() && AtMatch()
      ensures Pending() == if old(Pending()) == [] then [] else old(Pending())[1..]
    {
      hide Shape, PosAt, KeyRank, Rank, Satisfies, Fits, Ready, Matching, EntriesAgree, Entries, RestFrom, PagesOk, Records, KeyRid;
      ReadyHead(t, heap, conds, prefix, start, scan.Rest());
      var atEnd := scan.IsEnd();
      if rangeExhausted || atEnd {
        return;
      }
      StepOver();
      PositionToMatch();
    }

    method IsEnd() returns (b: bool)
      requires Valid() && AtMatch()
      modifies scan`iid, scan`leafIdx, scan`place
      ensures Valid() && AtMatch() && Pending() == old(Pending())
      ensures b <==> Pending() == []
      ensures !b ==> rid == Pending()[0]
    {
      hide Shape, PosAt, KeyRank, Rank, Satisfies, Fits, Ready, Matching, EntriesAgree, Entries, RestFrom, PagesOk, Records, KeyRid;
      ReadyHead(t, heap, conds, prefix, start, scan.Rest());
      var atEnd := scan.IsEnd();
      b := rangeExhausted || atEnd;
    }
  }

  /** The cursor over the key range of the conditions; its rest holds every match. */
  method OpenCursor(t: Table, conds: seq<Cond>, ih: Handle, ghost heap: Heap)
    returns (prefix: seq<Value>, start: seq<Value>, empty: bool, cursor: Cursor)
    requires TableOk(t) && CondsOk(conds, t.cols) && HeapFits(t, heap)
    requires ih.Valid() && IndexAgrees(t, heap, ih.Contents())
    modifies ih`pins
    ensures ih.Valid() && ih.T() == old(ih.T())
    ensures fresh(cursor) && cursor.ih == ih && cursor.Valid()
    ensures Ready(t, heap, conds, prefix, start, cursor.Rest()) && EntriesAgree(t, heap, cursor.Rest())
    ensures EntriesAgree(t, heap, EntriesOf(ih))
    ensures Matching(t, heap, conds, EntriesOf(ih)) == if empty then [] else Matching(t, heap, conds, cursor.Rest())
  {
    hide Shape, Listed, PosAt, KeyRank, BoundsFor, RangeOk, Matching, IndexAgrees, EntriesAgree, Satisfies, Rank, BoundAt, Fits,
         PlaceOk, Ready, Entries, RestFrom, IsPrefix;
    var lower, upper;
    prefix, lower, upper := DeriveBounds(t, conds);
    DerivedFits(t, conds, prefix, lower, upper);
    var r := BuildRange(KeyCols(t), prefix, lower, upper);
    RangeParts(r, KeyCols(t), prefix, lower, upper);
    start, empty := r.startKey, r.empty;
    var lo, hi;
    ghost var k, n, k', n';
    lo, k, n := StartOf(ih, r, KeyCols(t));
    hi, k', n' := EndOf(ih, r, KeyCols(t));
    ghost var es := EntriesOf(ih);
    EntriesFacts(t, heap, ih);
    RangeFinds(t, heap, conds, es, r, prefix, lower, upper, n, n');
    RangeReady(t, heap, conds, es, r, prefix, n, if empty then n else n');
    if empty {
      cursor := new Cursor(ih, lo, lo, k, n, k, n);
    } else {
      cursor := new Cursor(ih, lo, hi, k, n, k', n');
    }
    RestIs(es, n, if empty then n else n');
  }

  lemma RestIs(es: seq<Entry>, n: nat, m: nat)
    requires n <= m <= |es|
    ensures RestFrom(es, n, m) == es[n..m]
  {
  }

  lemma EntriesFacts(t: Table, heap: Heap, ih: Handle)
    requires TableOk(t) && HeapFits(t, heap)
    requires ih.Valid() && IndexAgrees(t, heap, ih.Contents())
    ensures Sorted(EntriesOf(ih)) && EntriesAgree(t, heap, EntriesOf(ih)) && Denotes(EntriesOf(ih), ih.Contents())
  {
    hide Shape, Listed, KeyRank;
    LeafLevel(ih.T());
    var es := EntriesOf(ih);
    ContentsAgree(t, heap, es, ih.Contents());
  }

  lemma RangeReady(t: Table, heap: Heap, conds: seq<Cond>, es: seq<Entry>, r: KeyRange, prefix: seq<Value>, n: nat, m: nat)
    requires TableOk(t) && HeapFits(t, heap) && n <= m <= |es| && Sorted(es) && EntriesAgree(t, heap, es)
    requires IsPrefix(t, conds, prefix) && KeyFits(r.startKey, KeyCols(t))
    requires prefix != [] ==> !r.fromBegin && r.startKey[..|prefix|] == prefix
    requires PlaceOk(es, r.fromBegin, 0, Rank(r.startKey, KeyCols(t)), r.startStrict, n)
    ensures Ready(t, heap, conds, prefix, r.startKey, es[n..m]) && EntriesAgree(t, heap, es[n..m])
  {
    hide KeyRank, Rank, Fits, IsPrefix;
    assert forall e :: e in es[n..m] ==> e in es;
    if prefix != [] {
      RangeFromStart(es, KeyCols(t), r, n);
    }
  }

  ghost function EntriesOf(ih: Handle): seq<Entry>
    requires Shape(ih.T())
    reads ih
  {
    LeafLevel(ih.T());
    Entries(ih.T())
  }

  lemma DerivedFits(t: Table, conds: seq<Cond>, prefix: seq<Value>, lower: Option<Bound>, upper: Option<Bound>)
    requires TableOk(t) && CondsOk(conds, t.cols) && BoundsFor(t, conds, prefix, lower, upper)
    ensures |prefix| <= |t.index| && IsPrefix(t, conds, prefix) && BoundsFit(KeyCols(t), |prefix|, lower, upper)
  {
  }

  lemma RangeParts(r: KeyRange, cols: seq<Column>, prefix: seq<Value>, lower: Option<Bound>, upper: Option<Bound>)
    requires |prefix| <= |cols| && BoundsFit(cols, |prefix|, lower, upper) && RangeOk(r, cols, prefix, lower, upper)
    ensures KeyFits(r.startKey, cols) && KeyFits(r.endKey, cols)
    ensures prefix != [] ==> !r.fromBegin && r.startKey[..|prefix|] == prefix
  {
    hide Rank, Wanted, Contradict;
  }

  method StartOf(ih: Handle, r: KeyRange, cols: seq<Column>) returns (iid: Iid, ghost k: nat, ghost n: nat)
    requires ih.Valid() && KeyFits(r.startKey, cols)
    modifies ih`pins
    ensures ih.Valid() && ih.T() == old(ih.T()) && |ih.levels| >= 1 && InPages(ih.pages, ih.levels[0])
    ensures PosAt(ih.T(), iid, k, n) && PlaceOk(EntriesOf(ih), r.fromBegin, 0, Rank(r.startKey, cols), r.startStrict, n)
  {
    hide Shape, Listed, PosAt, Rank, BoundAt, Entries, Fits;
    if r.fromBegin {
      iid, k, n := LeafBegin(ih);
    } else if r.startStrict {
      iid, k, n := LowerBound(ih, Rank(r.startKey, cols));
    } else {
      iid, k, n := UpperBound(ih, Rank(r.startKey, cols));
    }
    PosEntry(ih.T(), iid, k, n);
  }

  method EndOf(ih: Handle, r: KeyRange, cols: seq<Column>) returns (iid: Iid, ghost k: nat, ghost n: nat)
    requires ih.Valid() && KeyFits(r.endKey, cols)
    modifies ih`pins
    ensures ih.Valid() && ih.T() == old(ih.T()) && |ih.levels| >= 1 && InPages(ih.pages, ih.levels[0])
    ensures PosAt(ih.T(), iid, k, n) && PlaceOk(EntriesOf(ih), r.toEnd, |EntriesOf(ih)|, Rank(r.endKey, cols), r.endStrict, n)
  {
    hide Shape, Listed, PosAt, Rank, BoundAt, Entries, Fits;
    if r.toEnd {
      iid, k, n := LeafEnd(ih);
    } else if r.endStrict {
      iid, k, n := LowerBound(ih, Rank(r.endKey, cols));
    } else {
      iid, k, n := UpperBound(ih, Rank(r.endKey, cols));
    }
    PosEntry(ih.T(), iid, k, n);
  }

  // -------------------------------------------------------------------------------------------
  // Index scan and full scan

  /** The executor protocol: begin, then take rows until the end. */
  method IndexScanAll(t: Table, conds: seq<Cond>, ih: Handle, file: File) returns (rids: seq<Rid>)
    requires TableOk(t) && CondsOk(conds, t.cols) && file.Valid() && HeapFits(t, file.Live())
    requires ih.Valid() && IndexAgrees(t, file.Live(), ih.Contents())
    modifies ih`pins
    ensures ih.Valid() && ih.T() == old(ih.T())
    ensures EntriesAgree(t, file.Live(), EntriesOf(ih)) && rids == Matching(t, file.Live(), conds, EntriesOf(ih))
    ensures NoDup(rids) && forall r :: r in rids <==> r in file.Live() && Satisfies(conds, file.Live()[r], t.cols)
  {
    hide Shape, Listed, PosAt, KeyRank, IndexAgrees, EntriesAgree, Satisfies, Rank, Fits, Ready, Matching, Entries, RestFrom,
         PagesOk, Records, KeyRid;
    EntriesFacts(t, file.Live(), ih);
    AllMatches(t, file.Live(), conds, EntriesOf(ih), ih.Contents());
    var x := new IndexScanExecutor.BeginTuple(t, conds, ih, file);
    rids := Collect(x);
  }

  method Collect(x: IndexScanExecutor) returns (rids: seq<Rid>)
    requires x.Valid() && x.AtMatch()
    modifies x`rangeExhausted, x`rid, x.scan`iid, x.scan`leafIdx, x.scan`place
    ensures x.Valid() && rids == old(x.Pending())
  {
    hide Shape, PosAt, KeyRank, EntriesAgree, Satisfies, Rank, Fits, Ready, Matching, Entries, RestFrom, PagesOk, Records, KeyRid;
    ghost var all := x.Pending();
    rids := [];
    var atEnd := x.IsEnd();
    while !atEnd
      invariant x.Valid() && x.AtMatch()
      invariant |rids| <= |all| && rids == all[..|rids|] && x.Pending() == all[|rids|..]
      invariant atEnd <==> x.Pending() == []
      invariant !atEnd ==> x.rid == x.Pending()[0]
      decreases |x.Pending()|
    {
      rids := rids + [x.rid];
      x.NextTuple();
      atEnd := x.IsEnd();
    }
  }

  /** The matches are the rows that satisfy the conditions, each once. */
  lemma AllMatches(t: Table, heap: Heap, conds: seq<Cond>, es: seq<Entry>, m: map<int, Rid>)
    requires TableOk(t) && HeapFits(t, heap) && CondsOk(conds, t.cols) && Sorted(es)
    requires Denotes(es, m) && IndexAgrees(t, heap, m) && EntriesAgree(t, heap, es)
    ensures NoDup(Matching(t, heap, conds, es))
    ensures forall r :: r in Matching(t, heap, conds, es) <==> r in heap && Satisfies(conds, heap[r], t.cols)
  {
    hide KeyRank, Satisfies, Matching;
    MatchingContents(t, heap, conds, es);
    MatchingIsFilter(t, heap, conds, es, m);
  }

  lemma MatchingIsFilter(t: Table, heap: Heap, conds: seq<Cond>, es: seq<Entry>, m: map<int, Rid>)
    requires TableOk(t) && HeapFits(t, heap) && CondsOk(conds, t.cols) && Sorted(es)
    requires Denotes(es, m) && IndexAgrees(t, heap, m) && EntriesAgree(t, heap, es)
    ensures forall r :: (exists e :: e in es && e.rid == r && r in heap && Satisfies(conds, heap[r], t.cols))
                        <==> r in heap && Satisfies(conds, heap[r], t.cols)
  {
    hide KeyRank, Satisfies;
    forall r | r in heap && Satisfies(conds, heap[r], t.cols)
      ensures exists e :: e in es && e.rid == r && r in heap && Satisfies(conds, heap[r], t.cols)
    {
      var k := KeyRank(t, heap[r]);
      var e :| e in es && e.key == k;
    }
  }

  // -------------------------------------------------------------------------------------------
  // The full scan

  /** The rids of the records that satisfy the conditions, in the given order. */
  ghost function Filtered(conds: seq<Cond>, cols: seq<Column>, heap: Heap, rids: seq<Rid>): seq<Rid>
    requires CondsOk(conds, cols) && forall r :: r in rids ==> r in heap && KeyFits(heap[r], cols)
  {
    if rids == [] then [] else
      (if Satisfies(conds, heap[rids[0]], cols) then [rids[0]] else []) + Filtered(conds, cols, heap, rids[1..])
  }

  lemma {:induction false} FilteredMembers(conds: seq<Cond>, cols: seq<Column>, heap: Heap, rids: seq<Rid>)
    requires CondsOk(conds, cols) && Ascending(rids) && forall r :: r in rids ==> r in heap && KeyFits(heap[r], cols)
    ensures var rs := Filtered(conds, cols, heap, rids);
            Ascending(rs) && forall r :: r in rs <==> r in rids && Satisfies(conds, heap[r], cols)
  {
    hide Satisfies;
    if rids != [] {
      FilteredMembers(conds, cols, heap, rids[1..]);
      var rest := Filtered(conds, cols, heap, rids[1..]);
      AscendingCons(rids[0], rest);
      assert [] + rest == rest;
    }
  }

  lemma AscendingDistinct(rs: seq<Rid>)
    requires Ascending(rs)
    ensures NoDup(rs)
  {
  }

  class SeqScanExecutor {
    const cols: seq<Column>
    const conds: seq<Cond>
    const file: File
    const scan: Scan
    var rid: Rid

    ghost predicate Valid()
      reads this, file, scan
    {
      && CondsOk(conds, cols) && scan.file == file && scan.Valid()
      && forall r :: r in scan.Rest() ==> r in file.Live() && KeyFits(file.Live()[r], cols)
    }

    /** The rids still to be returned, the current one included. */
    ghost function Pending(): seq<Rid>
      requires Valid()
      reads this, file, scan
    {
      Filtered(conds, cols, file.Live(), scan.Rest())
    }

    ghost predicate AtMatch()
      requires Valid()
      reads this, file, scan
    {
      scan.Rest() == [] || (rid == scan.Rest()[0] && Satisfies(conds, file.Live()[rid], cols))
    }

    constructor BeginTuple(cols: seq<Column>, conds: seq<Cond>, file: File)
      requires CondsOk(conds, cols) && file.Valid() && forall r :: r in file.Live() ==> KeyFits(file.Live()[r], cols)
      ensures Valid() && AtMatch() && fresh(scan)
      ensures this.cols == cols && this.conds == conds && this.file == file
      ensures (forall r :: r in file.Rids() <==> r in file.Live())
      ensures Pending() == Filtered(conds, cols, file.Live(), file.Rids())
    {
      hide PagesOk, Records, KeyRid, RecordsFrom, Satisfies;
      AllRecordsExact(file.pages, file.perPage, file.numPages);
      var s := new Scan(file);
      this.cols, this.conds, this.file, scan, rid := cols, conds, file, s, Rid(-1, -1);
      new;
      PositionToNextMatch();
    }

    method StepOver()
      requires Valid() && scan.Rest() != []
      modifies scan
      ensures Valid() && scan.Rest() == old(scan.Rest())[1..]
    {
      hide PagesOk, Records, KeyRid, RecordsFrom, Satisfies, Filtered;
      assert forall r :: r in scan.Rest()[1..] ==> r in scan.Rest();
      scan.Next();
    }

    method PositionToNextMatch()
      requires Valid()
      modifies this`rid, scan
      ensures Valid() && AtMatch() && Pending() == old(Pending())
    {
      hide PagesOk, Records, KeyRid, RecordsFrom, Satisfies;
      var atEnd := scan.IsEnd();
      while !atEnd
        invariant Valid() && Pending() == old(Pending())
        invariant atEnd <==> scan.Rest() == []
        invariant !atEnd ==> scan.rid == scan.Rest()[0]
        decreases |scan.Rest()|
      {
        rid := scan.rid;
        assert rid in scan.Rest();
        var row := file.ReadSlot(rid);
        var matches := EvalConds(conds, row, cols);
        if matches {
          return;
        }
        StepOver();
        atEnd := scan.IsEnd();
      }
    }

    method NextTuple()
      requires Valid() && AtMatch()
      modifies this`rid, scan
      ensures Valid() && AtMatch()
      ensures Pending() == if old(Pending()) == [] then [] else old(Pending())[1..]
    {
      hide PagesOk, Records, KeyRid, RecordsFrom, Satisfies;
      var atEnd := scan.IsEnd();
      if atEnd {
        return;
      }
      StepOver();
      PositionToNextMatch();
    }

    method IsEnd() returns (b: bool)
      requires Valid() && AtMatch()
      ensures b <==> Pending() == []
      ensures !b ==> rid == Pending()[0]
    {
      hide PagesOk, Records, KeyRid, RecordsFrom, Satisfies;
      b := scan.IsEnd();
    }
  }

  /** The full scan returns the satisfying records in rid order. */
  method SeqScanAll(cols: seq<Column>, conds: seq<Cond>, file: File) returns (rids: seq<Rid>)
    requires CondsOk(conds, cols) && file.Valid() && forall r :: r in file.Live() ==> KeyFits(file.Live()[r], cols)
    ensures Ascending(rids) && forall r :: r in rids <==> r in file.Live() && Satisfies(conds, file.Live()[r], cols)
  {
    hide PagesOk, Records, KeyRid, RecordsFrom, Satisfies, Filtered;
    var x := new SeqScanExecutor.BeginTuple(cols, conds, file);
    AllRecordsExact(file.pages, file.perPage, file.numPages);
    FilteredMembers(conds, cols, file.Live(), file.Rids());
    rids := CollectAll(x);
  }

  method CollectAll(x: SeqScanExecutor) returns (rids: seq<Rid>)
    requires x.Valid() && x.AtMatch()
    modifies x`rid, x.scan
    ensures rids == old(x.Pending())
  {
    hide PagesOk, Records, KeyRid, RecordsFrom, Satisfies, Filtered;
    ghost var all := x.Pending();
    rids := [];
    var atEnd := x.IsEnd();
    while !atEnd
      invariant x.Valid() && x.AtMatch()
      invariant |rids| <= |all| && rids == all[..|rids|] && x.Pending() == all[|rids|..]
      invariant atEnd <==> x.Pending() == []
      invariant !atEnd ==> x.rid == x.Pending()[0]
      decreases |x.Pending()|
    {
      rids := rids + [x.rid];
      x.NextTuple();
      atEnd := x.IsEnd();
    }
  }

  /** Two duplicate-free lists with the same members hold the same rows equally often. */
  lemma {:induction false} SameBag(a: seq<Rid>, b: seq<Rid>)
    requires NoDup(a) && NoDup(b) && forall r :: r in a <==> r in b
    ensures multiset(a) == multiset(b)
  {
    forall r ensures multiset(a)[r] == multiset(b)[r] {
      OnceAtMost(a, r);
      OnceAtMost(b, r);
    }
  }

  lemma {:induction false} OnceAtMost(a: seq<Rid>, r: Rid)
    requires NoDup(a)
    ensures multiset(a)[r] == if r in a then 1 else 0
  {
    if a != [] {
      var n := |a| - 1;
      OnceAtMost(a[..n], r);
      assert a == a[..n] + [a[n]];
    }
  }

  /** Index scan and full scan return the same rows. */
  method CompareScans(t: Table, conds: seq<Cond>, ih: Handle, file: File) returns (viaIndex: seq<Rid>, viaHeap: seq<Rid>)
    requires TableOk(t) && CondsOk(conds, t.cols) && file.Valid() && HeapFits(t, file.Live())
    requires ih.Valid() && IndexAgrees(t, file.Live(), ih.Contents())
    modifies ih`pins
    ensures ih.Valid() && multiset(viaIndex) == multiset(viaHeap)
  {
    hide Shape, Listed, KeyRank, IndexAgrees, EntriesAgree, Satisfies, Matching, PagesOk, Records, KeyRid, Ascending;
    viaIndex := IndexScanAll(t, conds, ih, file);
    viaHeap := SeqScanAll(t.cols, conds, file);
    AscendingDistinct(viaHeap);
    SameBag(viaIndex, viaHeap);
  }
}
