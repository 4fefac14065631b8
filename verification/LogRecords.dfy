/**
  The serialised forms of log records.  Reading walks over the bytes from front to back, as the
  original advances an offset; reading past the end of the bytes yields nothing.
  */
module LogRecords {
  import opened Sequences
  import opened Options
  import opened LogFormat
  import opened LogDelta

  const MAX_TABLE_NAME := 255

  datatype Rid = Rid(pageNo: int, slotNo: int)

  datatype Payload =
    | Mark(kind: int)
    | Inserted(value: seq<Byte>, rid: Rid, table: seq<Byte>)
    | Deleted(value: seq<Byte>, rid: Rid, table: seq<Byte>)
    | Updated(oldValue: seq<Byte>, newValue: seq<Byte>, rid: Rid, table: seq<Byte>)
    | Delta(table: seq<Byte>, rid: Rid, ranges: seq<Range>)

  /** Transaction begin, commit, abort and checkpoint records are a header alone. */
  const UPDATE := 0
  const INSERT := 1
  const DELETE := 2
  const BEGIN := 3
  const COMMIT := 4
  const ABORT := 5
  const CKPT := 6
  const UPDATE_DELTA := 7

  datatype LogRecord = LogRecord(lsn: int, tid: int, prevLsn: int, payload: Payload)

  // -------------------------------------------------------------------------------------------
  // Fields

  predicate Is32(n: int) { -0x8000_0000 <= n < 0x8000_0000 }

  predicate Is64(n: int) { -0x8000_0000_0000_0000 <= n < 0x8000_0000_0000_0000 }

  function I32(n: int): (s: seq<Byte>)
    requires Is32(n)
    ensures |s| == 4
  {
    Le32(if n < 0 then n + WORD else n)
  }

  function U64(n: int): (s: seq<Byte>)
    requires 0 <= n < WORD * WORD
    ensures |s| == 8
  {
    Le32(n % WORD) + Le32(n / WORD)
  }

  function I64(n: int): (s: seq<Byte>)
    requires Is64(n)
    ensures |s| == 8
  {
    U64(if n < 0 then n + WORD * WORD else n)
  }

  function U16Bytes(n: int): (s: seq<Byte>)
    requires 0 <= n < 65536
    ensures |s| == 2
  {
    [n % 256, n / 256]
  }

  function TakeBytes(s: seq<Byte>, n: nat): (r: Option<(seq<Byte>, seq<Byte>)>)
  {
    if n <= |s| then Some((s[..n], s[n..])) else None
  }

  function TakeU8(s: seq<Byte>): (r: Option<(int, seq<Byte>)>)
    ensures r.Some? ==> 0 <= r.value.0 < 256
  {
    if |s| >= 1 then Some((s[0], s[1..])) else None
  }

  function TakeU16(s: seq<Byte>): (r: Option<(int, seq<Byte>)>)
    ensures r.Some? ==> 0 <= r.value.0 < 65536
  {
    if |s| >= 2 then
      var lo: int, hi: int := s[0], s[1];
      Some((lo + 256 * hi, s[2..]))
    else None
  }

  function TakeU32(s: seq<Byte>): (r: Option<(int, seq<Byte>)>)
    ensures r.Some? ==> 0 <= r.value.0 < WORD
  {
    if |s| >= 4 then Some((Read32(s, 0), s[4..])) else None
  }

  function TakeI32(s: seq<Byte>): (r: Option<(int, seq<Byte>)>)
  {
    var (n, s1) :- TakeU32(s);
    Some((if n >= 0x8000_0000 then n - WORD else n, s1))
  }

  function TakeU64(s: seq<Byte>): (r: Option<(int, seq<Byte>)>)
    ensures r.Some? ==> 0 <= r.value.0 < WORD * WORD
  {
    var (lo, s1) :- TakeU32(s);
    var (hi, s2) :- TakeU32(s1);
    Some((lo + WORD * hi, s2))
  }

  function TakeI64(s: seq<Byte>): (r: Option<(int, seq<Byte>)>)
  {
    var (n, s1) :- TakeU64(s);
    Some((if n >= 0x8000_0000_0000_0000 then n - WORD * WORD else n, s1))
  }

  lemma U32Back(n: int, tail: seq<Byte>)
    requires 0 <= n < WORD
    ensures TakeU32(Le32(n) + tail) == Some((n, tail))
  {
    WordBack(n);
    ReadPrefix(Le32(n), tail, 0);
  }

  lemma I32Back(n: int, tail: seq<Byte>)
    requires Is32(n)
    ensures TakeI32(I32(n) + tail) == Some((n, tail))
  {
    U32Back(if n < 0 then n + WORD else n, tail);
  }

  lemma U64Back(n: int, tail: seq<Byte>)
    requires 0 <= n < WORD * WORD
    ensures TakeU64(U64(n) + tail) == Some((n, tail))
  {
    hide Le32, TakeU32;
    var lo, hi := n % WORD, n / WORD;
    assert U64(n) + tail == Le32(lo) + (Le32(hi) + tail);
    U32Back(lo, Le32(hi) + tail);
    U32Back(hi, tail);
  }

  lemma I64Back(n: int, tail: seq<Byte>)
    requires Is64(n)
    ensures TakeI64(I64(n) + tail) == Some((n, tail))
  {
    hide U64, TakeU64;
    U64Back(if n < 0 then n + WORD * WORD else n, tail);
  }

  lemma U16Back(n: int, tail: seq<Byte>)
    requires 0 <= n < 65536
    ensures TakeU16(U16Bytes(n) + tail) == Some((n, tail))
  {
  }

  lemma BytesBack(b: seq<Byte>, tail: seq<Byte>)
    ensures TakeBytes(b + tail, |b|) == Some((b, tail))
  {
  }

  /** A byte string after its 32-bit length. */
  function Sized(b: seq<Byte>): seq<Byte>
    requires |b| < 0x8000_0000
  {
    I32(|b|) + b
  }

  function TakeSized(s: seq<Byte>): Option<(seq<Byte>, seq<Byte>)> {
    var (n, s1) :- TakeI32(s);
    if n < 0 then None else TakeBytes(s1, n)
  }

  lemma SizedBack(b: seq<Byte>, tail: seq<Byte>)
    requires |b| < 0x8000_0000
    ensures TakeSized(Sized(b) + tail) == Some((b, tail))
  {
    hide I32, TakeI32;
    assert Sized(b) + tail == I32(|b|) + (b + tail);
    I32Back(|b|, b + tail);
    BytesBack(b, tail);
  }

  /** A table name after its 64-bit length. */
  function Name64(b: seq<Byte>): seq<Byte>
    requires |b| < WORD
  {
    U64(|b|) + b
  }

  function TakeName64(s: seq<Byte>): Option<(seq<Byte>, seq<Byte>)> {
    var (n, s1) :- TakeU64(s);
    TakeBytes(s1, n)
  }

  lemma Name64Back(b: seq<Byte>, tail: seq<Byte>)
    requires |b| < WORD
    ensures TakeName64(Name64(b) + tail) == Some((b, tail))
  {
    hide U64, TakeU64;
    assert Name64(b) + tail == U64(|b|) + (b + tail);
    U64Back(|b|, b + tail);
    BytesBack(b, tail);
  }

  predicate RidFits(r: Rid) { Is32(r.pageNo) && Is32(r.slotNo) }

  function RidBytes(r: Rid): (s: seq<Byte>)
    requires RidFits(r)
    ensures |s| == 8
  {
    I32(r.pageNo) + I32(r.slotNo)
  }

  function TakeRid(s: seq<Byte>): Option<(Rid, seq<Byte>)> {
    var (p, s1) :- TakeI32(s);
    var (n, s2) :- TakeI32(s1);
    Some((Rid(p, n), s2))
  }

  lemma RidBack(r: Rid, tail: seq<Byte>)
    requires RidFits(r)
    ensures TakeRid(RidBytes(r) + tail) == Some((r, tail))
  {
    hide I32, TakeI32;
    assert RidBytes(r) + tail == I32(r.pageNo) + (I32(r.slotNo) + tail);
    I32Back(r.pageNo, I32(r.slotNo) + tail);
    I32Back(r.slotNo, tail);
  }

  // -------------------------------------------------------------------------------------------
  // Ranges of a delta record

  predicate RangeFits(x: Range) {
    x.off < 65536 && |x.oldBytes| == |x.newBytes| < 65536
  }

  function RangeBytes(x: Range): (s: seq<Byte>)
    requires RangeFits(x)
    ensures |s| == 4 + 2 * |x.newBytes|
  {
    U16Bytes(x.off) + U16Bytes(|x.newBytes|) + x.oldBytes + x.newBytes
  }

  function TakeRange(s: seq<Byte>): Option<(Range, seq<Byte>)> {
    var (off, s1) :- TakeU16(s);
    var (len, s2) :- TakeU16(s1);
    var (o, s3) :- TakeBytes(s2, len);
    var (n, s4) :- TakeBytes(s3, len);
    Some((Range(off, o, n), s4))
  }

  lemma RangeBack(x: Range, tail: seq<Byte>)
    requires RangeFits(x)
    ensures TakeRange(RangeBytes(x) + tail) == Some((x, tail))
  {
    hide U16Bytes, TakeU16, TakeBytes;
    var len := |x.newBytes|;
    assert RangeBytes(x) + tail == U16Bytes(x.off) + (U16Bytes(len) + (x.oldBytes + (x.newBytes + tail)));
    U16Back(x.off, U16Bytes(len) + (x.oldBytes + (x.newBytes + tail)));
    U16Back(len, x.oldBytes + (x.newBytes + tail));
    BytesBack(x.oldBytes, x.newBytes + tail);
    BytesBack(x.newBytes, tail);
  }

  function RangesBytes(rs: seq<Range>): seq<Byte>
    requires forall i :: 0 <= i < |rs| ==> RangeFits(rs[i])
  {
    if rs == [] then [] else RangeBytes(rs[0]) + RangesBytes(rs[1..])
  }

  function TakeRanges(s: seq<Byte>, n: nat): Option<(seq<Range>, seq<Byte>)>
    decreases n
  {
    if n == 0 then Some(([], s)) else
      var (x, s1) :- TakeRange(s);
      var (xs, s2) :- TakeRanges(s1, n - 1);
      Some(([x] + xs, s2))
  }

  lemma {:induction false} RangesBack(rs: seq<Range>, tail: seq<Byte>)
    requires forall i :: 0 <= i < |rs| ==> RangeFits(rs[i])
    ensures TakeRanges(RangesBytes(rs) + tail, |rs|) == Some((rs, tail))
  {
    hide RangeBytes, TakeRange, RangeFits;
    if rs == [] {
      assert RangesBytes(rs) + tail == tail;
    } else {
      assert RangesBytes(rs) + tail == RangeBytes(rs[0]) + (RangesBytes(rs[1..]) + tail);
      RangeBack(rs[0], RangesBytes(rs[1..]) + tail);
      RangesBack(rs[1..], tail);
      assert [rs[0]] + rs[1..] == rs;
    }
  }

  function RangesSize(rs: seq<Range>): nat {
    if rs == [] then 0 else 4 + 2 * |rs[0].newBytes| + RangesSize(rs[1..])
  }

  lemma {:induction false} RangesLength(rs: seq<Range>)
    requires forall i :: 0 <= i < |rs| ==> RangeFits(rs[i])
    ensures |RangesBytes(rs)| == RangesSize(rs)
  {
    hide RangeFits;
    if rs != [] {
      RangesLength(rs[1..]);
    }
  }

  // -------------------------------------------------------------------------------------------
  // Whole records

  function TypeOf(p: Payload): int {
    match p
    case Mark(kind) => kind
    case Inserted(_, _, _) => INSERT
    case Deleted(_, _, _) => DELETE
    case Updated(_, _, _, _) => UPDATE
    case Delta(_, _, _) => UPDATE_DELTA
  }

  /** The record length as the constructors compute it. */
  function TotalLength(p: Payload): int {
    LOG_HEADER_SIZE +
    match p
    case Mark(_) => 0
    case Inserted(v, _, t) => 4 + |v| + 8 + 8 + |t|
    case Deleted(v, _, t) => 4 + |v| + 8 + 8 + |t|
    case Updated(o, n, _, t) => 4 + |o| + 4 + |n| + 8 + 8 + |t|
    case Delta(t, _, rs) => 1 + |t| + 8 + 1 + RangesSize(rs)
  }

  predicate Fits(r: LogRecord) {
    && Is32(r.lsn) && Is64(r.tid) && Is32(r.prevLsn) && TotalLength(r.payload) < 0x8000_0000
    && match r.payload
       case Mark(kind) => BEGIN <= kind <= CKPT
       case Inserted(_, rid, _) => RidFits(rid)
       case Deleted(_, rid, _) => RidFits(rid)
       case Updated(_, _, rid, _) => RidFits(rid)
       case Delta(t, rid, rs) =>
         RidFits(rid) && |t| <= MAX_TABLE_NAME && |rs| < 256 && forall i :: 0 <= i < |rs| ==> RangeFits(rs[i])
  }

  function HeaderBytes(kind: int, lsn: int, total: int, tid: int, prevLsn: int): (s: seq<Byte>)
    requires Is32(kind) && Is32(lsn) && 0 <= total < WORD && Is64(tid) && Is32(prevLsn)
    ensures |s| == LOG_HEADER_SIZE
  {
    I32(kind) + I32(lsn) + Le32(total) + I64(tid) + I32(prevLsn)
  }

  function PayloadBytes(r: LogRecord): seq<Byte>
    requires Fits(r)
  {
    match r.payload
    case Mark(_) => []
    case Inserted(v, rid, t) => Sized(v) + RidBytes(rid) + Name64(t)
    case Deleted(v, rid, t) => Sized(v) + RidBytes(rid) + Name64(t)
    case Updated(o, n, rid, t) => Sized(o) + Sized(n) + RidBytes(rid) + Name64(t)
    case Delta(t, rid, rs) => [|t|] + t + RidBytes(rid) + [|rs|] + RangesBytes(rs)
  }

  function Encode(r: LogRecord): seq<Byte>
    requires Fits(r)
  {
    HeaderBytes(TypeOf(r.payload), r.lsn, TotalLength(r.payload), r.tid, r.prevLsn) + PayloadBytes(r)
  }

  function DecodePayload(kind: int, s: seq<Byte>): Option<(Payload, seq<Byte>)> {
    if kind == INSERT || kind == DELETE then
      var (v, s1) :- TakeSized(s);
      var (rid, s2) :- TakeRid(s1);
      var (t, s3) :- TakeName64(s2);
      Some((if kind == INSERT then Inserted(v, rid, t) else Deleted(v, rid, t), s3))
    else if kind == UPDATE then
      var (o, s1) :- TakeSized(s);
      var (n, s2) :- TakeSized(s1);
      var (rid, s3) :- TakeRid(s2);
      var (t, s4) :- TakeName64(s3);
      Some((Updated(o, n, rid, t), s4))
    else if kind == UPDATE_DELTA then
      var (len, s1) :- TakeU8(s);
      var (t, s2) :- TakeBytes(s1, len);
      var (rid, s3) :- TakeRid(s2);
      var (n, s4) :- TakeU8(s3);
      var (rs, s5) :- TakeRanges(s4, n);
      Some((Delta(t, rid, rs), s5))
    else
      Some((Mark(kind), s))
  }

  /** A record read from the front of some bytes, the length its header gives, and what follows. */
  function Decode(s: seq<Byte>): Option<(LogRecord, int, seq<Byte>)> {
    var (kind, s1) :- TakeI32(s);
    var (lsn, s2) :- TakeI32(s1);
    var (total, s3) :- TakeU32(s2);
    var (tid, s4) :- TakeI64(s3);
    var (prevLsn, s5) :- TakeI32(s4);
    var (p, s6) :- DecodePayload(kind, s5);
    Some((LogRecord(lsn, tid, prevLsn, p), total, s6))
  }

  lemma PayloadBack(r: LogRecord, tail: seq<Byte>)
    requires Fits(r)
    ensures DecodePayload(TypeOf(r.payload), PayloadBytes(r) + tail) == Some((r.payload, tail))
  {
    hide Sized, TakeSized, RidBytes, TakeRid, Name64, TakeName64, TakeBytes, RangesBytes, TakeRanges, RangesSize;
    match r.payload
    case Mark(_) =>
      assert PayloadBytes(r) + tail == tail;
    case Inserted(v, rid, t) =>
      ValueBack(v, rid, t, tail);
    case Deleted(v, rid, t) =>
      ValueBack(v, rid, t, tail);
    case Updated(o, n, rid, t) =>
      assert PayloadBytes(r) + tail == Sized(o) + (Sized(n) + (RidBytes(rid) + (Name64(t) + tail)));
      SizedBack(o, Sized(n) + (RidBytes(rid) + (Name64(t) + tail)));
      SizedBack(n, RidBytes(rid) + (Name64(t) + tail));
      RidBack(rid, Name64(t) + tail);
      Name64Back(t, tail);
    case Delta(t, rid, rs) =>
      var c: Byte, k: Byte := |rs|, |t|;
      var s4 := RangesBytes(rs) + tail;
      var s3 := [c] + s4;
      var s2 := RidBytes(rid) + s3;
      var s1 := t + s2;
      assert PayloadBytes(r) + tail == [k] + s1;
      BytesBack(t, s2);
      RidBack(rid, s3);
      assert s3[1..] == s4;
      RangesBack(rs, tail);
  }

  lemma ValueBack(v: seq<Byte>, rid: Rid, t: seq<Byte>, tail: seq<Byte>)
    requires |v| < 0x8000_0000 && RidFits(rid) && |t| < WORD
    ensures TakeSized(Sized(v) + RidBytes(rid) + Name64(t) + tail) == Some((v, RidBytes(rid) + (Name64(t) + tail)))
    ensures TakeRid(RidBytes(rid) + (Name64(t) + tail)) == Some((rid, Name64(t) + tail))
    ensures TakeName64(Name64(t) + tail) == Some((t, tail))
  {
    hide Sized, TakeSized, RidBytes, TakeRid, Name64, TakeName64;
    assert Sized(v) + RidBytes(rid) + Name64(t) + tail == Sized(v) + (RidBytes(rid) + (Name64(t) + tail));
    SizedBack(v, RidBytes(rid) + (Name64(t) + tail));
    RidBack(rid, Name64(t) + tail);
    Name64Back(t, tail);
  }

  /** What was serialised is read back, field by field, and exactly its bytes are consumed. */
  lemma RecordBack(r: LogRecord, tail: seq<Byte>)
    requires Fits(r)
    ensures Decode(Encode(r) + tail) == Some((r, TotalLength(r.payload), tail))
  {
    hide I32, TakeI32, TakeU32, Le32, I64, TakeI64, PayloadBytes, DecodePayload, RangesSize;
    var p, total := PayloadBytes(r) + tail, TotalLength(r.payload);
    var s4 := I32(r.prevLsn) + p;
    var s3 := I64(r.tid) + s4;
    var s2 := Le32(total) + s3;
    var s1 := I32(r.lsn) + s2;
    assert Encode(r) + tail == I32(TypeOf(r.payload)) + s1;
    I32Back(TypeOf(r.payload), s1);
    I32Back(r.lsn, s2);
    U32Back(total, s3);
    I64Back(r.tid, s4);
    I32Back(r.prevLsn, p);
    PayloadBack(r, tail);
  }

  /** The header's length field is the length of the serialised record, so recovery can walk over it. */
  lemma RecordLength(r: LogRecord)
    requires Fits(r)
    ensures |Encode(r)| == TotalLength(r.payload) && IsRecord(Encode(r))
  {
    hide I32, Le32, I64, Read32, RangesBytes;
    var total := TotalLength(r.payload);
    if r.payload.Delta? {
      RangesLength(r.payload.ranges);
    }
    var a := I32(TypeOf(r.payload)) + I32(r.lsn);
    var rest := I64(r.tid) + I32(r.prevLsn) + PayloadBytes(r);
    assert Encode(r) == a + (Le32(total) + rest);
    WordBack(total);
    ReadPrefix(Le32(total), rest, 0);
    ReadSuffix(a, Le32(total) + rest, 0);
  }

  // -------------------------------------------------------------------------------------------
  // Delta records for updates

  /** The ranges as the delta constructor copies them out of the two images. */
  function UpdateRanges(before: seq<Byte>, after: seq<Byte>): seq<Range>
    requires |before| == |after|
  {
    RangesOf(before, after, Runs(Marks(before, after), 0))
  }

  function FullPayload(size: nat, nameLength: nat): int {
    2 * 4 + 2 * size + 8 + 8 + nameLength
  }

  /** A delta record is worth while: one to eight ranges, and at least a third saved. */
  predicate Useful(before: seq<Byte>, after: seq<Byte>, nameLength: nat)
    requires |before| == |after|
  {
    var rs := UpdateRanges(before, after);
    1 <= |rs| <= MAX_RANGES && 10 + nameLength + RangesSize(rs) < FullPayload(|before|, nameLength) * 2 / 3
  }

  /** Builds a delta from the two images of a row; rows are at most 512 bytes long, so that offsets
      and lengths fit 16 bits.  Long table names are cut. */
  method MakeDelta(before: seq<Byte>, after: seq<Byte>, rid: Rid, tableName: seq<Byte>) returns (r: Option<Payload>)
    requires |before| == |after| < 65536
    ensures var t := if |tableName| > MAX_TABLE_NAME then tableName[..MAX_TABLE_NAME] else tableName;
            r == if Useful(before, after, |t|) then Some(Delta(t, rid, UpdateRanges(before, after))) else None
  {
    hide Marks, Runs;
    var t := if |tableName| > MAX_TABLE_NAME then tableName[..MAX_TABLE_NAME] else tableName;
    ghost var rs := Runs(Marks(before, after), 0);
    var nr, diffs := WalByteDiff(before, after);
    if nr <= 0 {
      return None;
    }
    var deltaPayload := 1 + |t| + 8 + 1;
    var ranges: seq<Range> := [];
    for i := 0 to nr
      invariant ranges == UpdateRanges(before, after)[..i]
      invariant deltaPayload == 10 + |t| + RangesSize(UpdateRanges(before, after)[..i])
    {
      var (off, len) := diffs[i];
      assert diffs[i] == Stored(rs[i]) && off == rs[i].start && len == rs[i].end - rs[i].start;
      RangesSizeSnoc(UpdateRanges(before, after), i);
      deltaPayload := deltaPayload + 4 + 2 * len;
      ranges := ranges + [Range(off, before[off..off + len], after[off..off + len])];
    }
    assert UpdateRanges(before, after)[..nr] == UpdateRanges(before, after);
    if deltaPayload >= FullPayload(|before|, |t|) * 2 / 3 {
      return None;
    }
    r := Some(Delta(t, rid, ranges));
  }

  lemma {:induction false} RangesSizeSnoc(rs: seq<Range>, i: nat)
    requires i < |rs|
    ensures RangesSize(rs[..i + 1]) == RangesSize(rs[..i]) + 4 + 2 * |rs[i].newBytes|
  {
    if i > 0 {
      RangesSizeSnoc(rs[1..], i - 1);
      assert rs[1..][..i] == rs[..i + 1][1..] && rs[1..][..i - 1] == rs[..i][1..];
    }
  }

  /** A useful delta record survives being written and read, in exactly the length its header gives,
      and what is read back turns the old row into the new one and the new row into the old one. */
  lemma DeltaRecordWorks(before: seq<Byte>, after: seq<Byte>, rid: Rid, t: seq<Byte>, lsn: int, tid: int, prevLsn: int, tail: seq<Byte>)
    requires |before| == |after| < 65536 && RidFits(rid) && |t| <= MAX_TABLE_NAME && Useful(before, after, |t|)
    requires Is32(lsn) && Is64(tid) && Is32(prevLsn)
    ensures var r := LogRecord(lsn, tid, prevLsn, Delta(t, rid, UpdateRanges(before, after)));
            && Fits(r) && |Encode(r)| == TotalLength(r.payload)
            && Decode(Encode(r) + tail) == Some((r, |Encode(r)|, tail))
            && Patched(before, r.payload.ranges, true) == after && Patched(after, r.payload.ranges, false) == before
  {
    hide Decode, Encode, Patched, Marks, Runs;
    var r := LogRecord(lsn, tid, prevLsn, Delta(t, rid, UpdateRanges(before, after)));
    RecordBack(r, tail);
    RecordLength(r);
    DeltaPatches(before, after);
  }

  /** The loop over the ranges of a delta record. */
  method AppendRanges(front: seq<Byte>, rs: seq<Range>) returns (out: seq<Byte>)
    requires forall i :: 0 <= i < |rs| ==> RangeFits(rs[i])
    ensures out == front + RangesBytes(rs)
  {
    hide RangeBytes, RangeFits;
    out := front;
    for i := 0 to |rs|
      invariant out + RangesBytes(rs[i..]) == front + RangesBytes(rs)
    {
      assert rs[i..][1..] == rs[i + 1..];
      assert out + RangesBytes(rs[i..]) == (out + RangeBytes(rs[i])) + RangesBytes(rs[i + 1..]);
      out := out + RangeBytes(rs[i]);
    }
    assert rs[|rs|..] == [] && out + [] == out;
  }

  /** Serialising a delta record: fixed fields, then the ranges. */
  method SerializeDelta(r: LogRecord) returns (out: seq<Byte>)
    requires Fits(r) && r.payload.Delta?
    ensures out == Encode(r)
  {
    hide HeaderBytes, RangesBytes, RidBytes, RangeFits;
    var p := r.payload;
    var header := HeaderBytes(TypeOf(p), r.lsn, TotalLength(p), r.tid, r.prevLsn);
    var fixed := [|p.table|] + p.table + RidBytes(p.rid) + [|p.ranges|];
    out := AppendRanges(header + fixed, p.ranges);
    Assoc(header, fixed, RangesBytes(p.ranges));
  }

  lemma Assoc(a: seq<Byte>, b: seq<Byte>, c: seq<Byte>)
    ensures (a + b) + c == a + (b + c)
  {
  }
}
