/**
  The bytes of the write-ahead log: little-endian words, the checksum of a batch, the frame a batch
  is written in, and the scan that recovery uses to get the records back out of a file.
  */
module LogFormat {
  import opened Sequences
  import opened Options

  const LOG_HEADER_SIZE := 24
  const OFFSET_LOG_TOT_LEN := 8
  const WAL_BATCH_HDR_SIZE := 12
  const WAL_BATCH_MAGIC := 0x574C4247
  const WORD := 0x1_0000_0000

  // -------------------------------------------------------------------------------------------
  // Words

  function Le32(n: int): (s: seq<Byte>)
    requires 0 <= n < WORD
    ensures |s| == 4
  {
    [n % 256, n / 256 % 256, n / 65536 % 256, n / 16777216]
  }

  function Read32(s: seq<Byte>, at: nat): (n: int)
    requires at + 4 <= |s|
    ensures 0 <= n < WORD
  {
    var a: int, b: int, c: int, d: int := s[at], s[at + 1], s[at + 2], s[at + 3];
    a + 256 * b + 65536 * c + 16777216 * d
  }

  lemma WordBack(n: int)
    requires 0 <= n < WORD
    ensures Read32(Le32(n), 0) == n
  {
    assert n / 65536 == n / 256 / 256 && n / 16777216 == n / 65536 / 256;
  }

  // -------------------------------------------------------------------------------------------
  // The checksum.  Registers are 32 bits, least significant first.

  function Bits(n: nat, b: bool): (s: seq<bool>)
    ensures |s| == n && forall i :: 0 <= i < n ==> s[i] == b
  {
    if n == 0 then [] else [b] + Bits(n - 1, b)
  }

  function ToBits(n: nat, width: nat): (s: seq<bool>)
    ensures |s| == width
  {
    if width == 0 then [] else [n % 2 == 1] + ToBits(n / 2, width - 1)
  }

  function FromBits(s: seq<bool>): nat {
    if s == [] then 0 else (if s[0] then 1 else 0) + 2 * FromBits(s[1..])
  }

  function Power2(n: nat): (p: nat)
    ensures p >= 1
  {
    if n == 0 then 1 else 2 * Power2(n - 1)
  }

  lemma {:induction false} FromBitsRange(s: seq<bool>)
    ensures FromBits(s) < Power2(|s|)
  {
    if s != [] {
      FromBitsRange(s[1..]);
    }
  }

  lemma {:induction false} ZeroBits(width: nat)
    ensures ToBits(0, width) == Bits(width, false)
  {
    if width > 0 {
      ZeroBits(width - 1);
    }
  }

  /** A number read from few bits and written with many has the same bits, then zeros. */
  lemma {:induction false} BitsBack(s: seq<bool>, width: nat)
    requires |s| <= width
    ensures ToBits(FromBits(s), width) == s + Bits(width - |s|, false)
  {
    if s == [] {
      ZeroBits(width);
    } else {
      BitsBack(s[1..], width - 1);
      assert FromBits(s) / 2 == FromBits(s[1..]);
      assert s + Bits(width - |s|, false) == [s[0]] + (s[1..] + Bits(width - |s|, false));
    }
  }

  /** A small number has no high bits. */
  lemma {:induction false} HighBitsClear(n: nat, width: nat, k: nat)
    requires k <= width && n < Power2(k)
    ensures forall i :: k <= i < width ==> !ToBits(n, width)[i]
  {
    if k == 0 {
      ZeroBits(width);
    } else {
      HighBitsClear(n / 2, width - 1, k - 1);
    }
  }

  type Register = s: seq<bool> | |s| == 32 witness Bits(32, false)

  function Xor(a: Register, b: Register): Register {
    seq(32, i requires 0 <= i < 32 => a[i] != b[i])
  }

  /** The reflected polynomial of section 8 of RFC 1952. */
  const POLYNOMIAL: Register := ToBits(0xEDB88320, 32)
  const ALL_ONES: Register := Bits(32, true)

  function ShiftRight(c: Register, n: nat): Register
    requires n <= 32
  {
    c[n..] + Bits(n, false)
  }

  /** One bit of CRC-32. */
  function CrcShift(c: Register): Register {
    if c[0] then Xor(POLYNOMIAL, ShiftRight(c, 1)) else ShiftRight(c, 1)
  }

  function CrcShifts(c: Register, n: nat): Register
    decreases n
  {
    if n == 0 then c else CrcShifts(CrcShift(c), n - 1)
  }

  /** The register after feeding bytes bit by bit. */
  function CrcFold(c: Register, data: seq<Byte>): Register {
    if data == [] then c else CrcShifts(Xor(CrcFold(c, data[..|data| - 1]), ToBits(data[|data| - 1], 32)), 8)
  }

  function Crc(data: seq<Byte>): (c: int)
    ensures 0 <= c < WORD
  {
    var bits := Xor(CrcFold(ALL_ONES, data), ALL_ONES);
    FromBitsRange(bits);
    assert Power2(32) == WORD by { Power2Of32(); }
    FromBits(bits)
  }

  lemma Power2Of32()
    ensures Power2(8) == 256 && Power2(32) == WORD
  {
    assert Power2(8) == 4 * Power2(6) == 16 * Power2(4) == 64 * Power2(2) == 256;
    assert Power2(16) == 4 * Power2(14) == 16 * Power2(12) == 64 * Power2(10) == 256 * Power2(8);
    assert Power2(24) == 4 * Power2(22) == 16 * Power2(20) == 64 * Power2(18) == 256 * Power2(16);
    assert Power2(32) == 4 * Power2(30) == 16 * Power2(28) == 64 * Power2(26) == 256 * Power2(24);
  }

  lemma CrcShiftXor(a: Register, b: Register)
    ensures CrcShift(Xor(a, b)) == Xor(CrcShift(a), CrcShift(b))
  {
    assert ShiftRight(Xor(a, b), 1) == Xor(ShiftRight(a, 1), ShiftRight(b, 1));
  }

  lemma {:induction false} CrcShiftsXor(a: Register, b: Register, n: nat)
    ensures CrcShifts(Xor(a, b), n) == Xor(CrcShifts(a, n), CrcShifts(b, n))
    decreases n
  {
    if n > 0 {
      CrcShiftXor(a, b);
      CrcShiftsXor(CrcShift(a), CrcShift(b), n - 1);
    }
  }

  /** With n low zero bits, n shifts only move bits down. */
  lemma {:induction false} ClearShifts(c: Register, n: nat)
    requires n <= 32 && forall i :: 0 <= i < n ==> !c[i]
    ensures CrcShifts(c, n) == ShiftRight(c, n)
    decreases n
  {
    if n > 0 {
      assert CrcShift(c) == ShiftRight(c, 1);
      ClearShifts(ShiftRight(c, 1), n - 1);
      assert ShiftRight(ShiftRight(c, 1), n - 1) == ShiftRight(c, n);
    } else {
      assert ShiftRight(c, 0) == c;
    }
  }

  function LowByte(c: Register): Register {
    c[..8] + Bits(24, false)
  }

  /** Eight shifts at once by looking up the low byte. */
  lemma TableStep(c: Register)
    ensures CrcShifts(c, 8) == Xor(CrcShifts(LowByte(c), 8), ShiftRight(c, 8))
  {
    var high: Register := Bits(8, false) + c[8..];
    assert c == Xor(LowByte(c), high);
    CrcShiftsXor(LowByte(c), high, 8);
    ClearShifts(high, 8);
    assert ShiftRight(high, 8) == ShiftRight(c, 8);
  }

  /** The table-driven checksum loop computes the bit-by-bit CRC-32. */
  method WalCrc32(data: seq<Byte>) returns (r: int)
    ensures r == Crc(data)
  {
    hide Xor, ShiftRight, ToBits, FromBits, Bits;
    var table := new Register[256];
    for i := 0 to 256
      invariant forall j :: 0 <= j < i ==> table[j] == CrcShifts(ToBits(j, 32), 8)
    {
      var c: Register := ToBits(i, 32);
      for k := 0 to 8
        invariant CrcShifts(c, 8 - k) == CrcShifts(ToBits(i, 32), 8)
        invariant forall j :: 0 <= j < i ==> table[j] == CrcShifts(ToBits(j, 32), 8)
      {
        c := if c[0] then Xor(POLYNOMIAL, ShiftRight(c, 1)) else ShiftRight(c, 1);
      }
      table[i] := c;
    }
    var crc := ALL_ONES;
    for n := 0 to |data|
      invariant crc == CrcFold(ALL_ONES, data[..n])
      invariant forall j :: 0 <= j < 256 ==> table[j] == CrcShifts(ToBits(j, 32), 8)
    {
      assert data[..n + 1][..n] == data[..n] && data[..n + 1][n] == data[n];
      var x := Xor(crc, ToBits(data[n], 32));
      TableLookup(x, crc, data[n]);
      crc := Xor(table[FromBits(x[..8])], ShiftRight(crc, 8));
    }
    assert data[..|data|] == data;
    r := FromBits(Xor(crc, ALL_ONES));
  }

  lemma TableLookup(x: Register, crc: Register, b: Byte)
    requires x == Xor(crc, ToBits(b, 32))
    ensures FromBits(x[..8]) < 256
    ensures CrcShifts(x, 8) == Xor(CrcShifts(ToBits(FromBits(x[..8]), 32), 8), ShiftRight(crc, 8))
  {
    hide CrcShifts, FromBits, ToBits, Bits;
    Power2Of32();
    FromBitsRange(x[..8]);
    BitsBack(x[..8], 32);
    TableStep(x);
    HighBitsClear(b, 32, 8);
    assert ShiftRight(x, 8) == ShiftRight(crc, 8);
  }

  // -------------------------------------------------------------------------------------------
  // Records, frames and the recovery scan

  type Record = seq<Byte>

  /** A serialised record carries its own length in its header. */
  predicate IsRecord(r: Record) {
    |r| >= LOG_HEADER_SIZE && Read32(r, OFFSET_LOG_TOT_LEN) == |r|
  }

  function Concat(rs: seq<Record>): seq<Byte> {
    if rs == [] then [] else Concat(rs[..|rs| - 1]) + rs[|rs| - 1]
  }

  function Header(body: seq<Byte>): (h: seq<Byte>)
    requires |body| < WORD
    ensures |h| == WAL_BATCH_HDR_SIZE
  {
    Le32(WAL_BATCH_MAGIC) + Le32(|body|) + Le32(Crc(body))
  }

  /** A batch as it lies in the file. */
  function Frame(body: seq<Byte>): seq<Byte>
    requires |body| < WORD
  {
    Header(body) + body
  }

  /** The body of the frame at the front of s, if there is an intact one. */
  function FrontBatch(s: seq<Byte>): (r: Option<seq<Byte>>)
    ensures r.Some? ==> 0 < |r.value| && WAL_BATCH_HDR_SIZE + |r.value| <= |s|
  {
    if |s| < WAL_BATCH_HDR_SIZE then None else
      var len := Read32(s, 4);
      if Read32(s, 0) != WAL_BATCH_MAGIC || len == 0 || WAL_BATCH_HDR_SIZE + len > |s| then None else
        var body := s[WAL_BATCH_HDR_SIZE..WAL_BATCH_HDR_SIZE + len];
        if Crc(body) != Read32(s, 8) then None else Some(body)
  }

  /** The record at the front of s, if it is not cut off. */
  function FrontRecord(s: seq<Byte>): (r: Option<Record>)
    ensures r.Some? ==> LOG_HEADER_SIZE <= |r.value| <= |s|
  {
    if |s| < LOG_HEADER_SIZE then None else
      var len := Read32(s, OFFSET_LOG_TOT_LEN);
      if len < LOG_HEADER_SIZE || len > |s| then None else Some(s[..len])
  }

  function ScanRecords(s: seq<Byte>): seq<Record> {
    match FrontRecord(s)
    case None => []
    case Some(r) => [r] + ScanRecords(s[|r|..])
  }

  /** Every record of every intact frame, up to the first frame that is not intact. */
  function ScanBatches(s: seq<Byte>): seq<Record> {
    match FrontBatch(s)
    case None => []
    case Some(body) => ScanRecords(body) + ScanBatches(s[WAL_BATCH_HDR_SIZE + |body|..])
  }

  /** What reading a frame at an offset reports: its span and body, or a span of 0. */
  predicate BatchAt(file: seq<Byte>, offset: nat, logEnd: nat, span: nat, bodyOff: nat, bodyLen: nat)
    requires offset <= logEnd <= |file|
  {
    match FrontBatch(file[offset..logEnd])
    case None => span == 0
    case Some(body) =>
      && span == WAL_BATCH_HDR_SIZE + bodyLen && offset + span <= logEnd
      && bodyOff == offset + WAL_BATCH_HDR_SIZE && body == file[bodyOff..bodyOff + bodyLen]
  }

  lemma BatchStep(file: seq<Byte>, offset: nat, span: nat, bodyOff: nat, bodyLen: nat)
    requires offset <= |file| && BatchAt(file, offset, |file|, span, bodyOff, bodyLen)
    ensures span == 0 ==> ScanBatches(file[offset..]) == []
    ensures span > 0 ==>
              && offset + span <= |file| && bodyOff + bodyLen <= |file|
              && ScanBatches(file[offset..]) ==
                   ScanRecords(file[bodyOff..bodyOff + bodyLen]) + ScanBatches(file[offset + span..])
  {
    hide FrontBatch, ScanRecords;
    assert file[offset..|file|] == file[offset..];
    if span > 0 {
      assert file[offset..][span..] == file[offset + span..];
    }
  }

  /** One frame read at an offset; a span of 0 ends the scan. */
  method ReadBatch(file: seq<Byte>, offset: nat, logEnd: nat) returns (span: nat, bodyOff: nat, bodyLen: nat)
    requires offset <= logEnd <= |file|
    ensures BatchAt(file, offset, logEnd, span, bodyOff, bodyLen)
  {
    hide Crc;
    span, bodyOff, bodyLen := 0, 0, 0;
    ghost var s := file[offset..logEnd];
    if offset + WAL_BATCH_HDR_SIZE > logEnd {
      return;
    }
    var magic, len, expected := Read32(file, offset), Read32(file, offset + 4), Read32(file, offset + 8);
    assert magic == Read32(s, 0) && len == Read32(s, 4) && expected == Read32(s, 8);
    if magic != WAL_BATCH_MAGIC || len == 0 || offset + WAL_BATCH_HDR_SIZE + len > logEnd {
      return;
    }
    var body := file[offset + WAL_BATCH_HDR_SIZE..offset + WAL_BATCH_HDR_SIZE + len];
    assert body == s[WAL_BATCH_HDR_SIZE..WAL_BATCH_HDR_SIZE + len];
    var crc := WalCrc32(body);
    if crc != expected {
      return;
    }
    span, bodyOff, bodyLen := WAL_BATCH_HDR_SIZE + len, offset + WAL_BATCH_HDR_SIZE, len;
  }

  predicate RecordAt(file: seq<Byte>, offset: nat, logEnd: nat, len: nat)
    requires offset <= logEnd <= |file|
  {
    match FrontRecord(file[offset..logEnd])
    case None => len == 0
    case Some(r) => len == |r| > 0 && offset + len <= logEnd && r == file[offset..offset + len]
  }

  /** One record read at an offset; a length of 0 ends the scan. */
  method ReadOne(file: seq<Byte>, offset: nat, logEnd: nat) returns (len: nat)
    requires offset <= logEnd <= |file|
    ensures RecordAt(file, offset, logEnd, len)
  {
    ghost var s := file[offset..logEnd];
    if offset + LOG_HEADER_SIZE > logEnd {
      return 0;
    }
    var total := Read32(file, offset + OFFSET_LOG_TOT_LEN);
    assert total == Read32(s, OFFSET_LOG_TOT_LEN);
    if total < LOG_HEADER_SIZE || offset + total > logEnd {
      return 0;
    }
    assert s[..total] == file[offset..offset + total];
    len := total;
  }

  /** The nested loops of the recovery scan. */
  method Scan(file: seq<Byte>, start: nat) returns (records: seq<Record>)
    requires start <= |file|
    ensures records == ScanBatches(file[start..])
  {
    hide BatchAt, ScanBatches, ScanRecords;
    records := [];
    var pos := start;
    var span, bodyOff, bodyLen := ReadBatch(file, pos, |file|);
    BatchStep(file, pos, span, bodyOff, bodyLen);
    while span > 0
      invariant start <= pos <= |file| && BatchAt(file, pos, |file|, span, bodyOff, bodyLen)
      invariant ScanBatches(file[start..]) == records + ScanBatches(file[pos..])
      invariant span == 0 ==> ScanBatches(file[pos..]) == []
      decreases |file| - pos
    {
      BatchStep(file, pos, span, bodyOff, bodyLen);
      var batch := ScanBody(file, bodyOff, bodyOff + bodyLen);
      records := records + batch;
      pos := pos + span;
      span, bodyOff, bodyLen := ReadBatch(file, pos, |file|);
      BatchStep(file, pos, span, bodyOff, bodyLen);
    }
  }

  lemma RecordStep(file: seq<Byte>, offset: nat, logEnd: nat, len: nat)
    requires offset <= logEnd <= |file| && RecordAt(file, offset, logEnd, len)
    ensures len == 0 ==> ScanRecords(file[offset..logEnd]) == []
    ensures len > 0 ==>
              && offset + len <= logEnd
              && ScanRecords(file[offset..logEnd]) == [file[offset..offset + len]] + ScanRecords(file[offset + len..logEnd])
  {
    hide FrontRecord;
    if len > 0 {
      assert file[offset..logEnd][len..] == file[offset + len..logEnd];
    }
  }

  method ScanBody(file: seq<Byte>, from: nat, logEnd: nat) returns (records: seq<Record>)
    requires from <= logEnd <= |file|
    ensures records == ScanRecords(file[from..logEnd])
  {
    hide RecordAt, ScanRecords;
    records := [];
    var pos := from;
    var len := ReadOne(file, pos, logEnd);
    RecordStep(file, pos, logEnd, len);
    while len > 0
      invariant from <= pos <= logEnd && RecordAt(file, pos, logEnd, len)
      invariant ScanRecords(file[from..logEnd]) == records + ScanRecords(file[pos..logEnd])
      invariant len == 0 ==> ScanRecords(file[pos..logEnd]) == []
      decreases logEnd - pos
    {
      RecordStep(file, pos, logEnd, len);
      records := records + [file[pos..pos + len]];
      pos := pos + len;
      len := ReadOne(file, pos, logEnd);
      RecordStep(file, pos, logEnd, len);
    }
  }

  lemma {:induction false} ConcatFront(r: Record, rs: seq<Record>)
    ensures Concat([r] + rs) == r + Concat(rs)
  {
    var all := [r] + rs;
    if rs == [] {
      assert Concat(all) == Concat([]) + r;
    } else {
      assert all[..|all| - 1] == [r] + rs[..|rs| - 1];
      ConcatFront(r, rs[..|rs| - 1]);
    }
  }

  /** Records written one after another are read back one after another. */
  lemma {:induction false} ScanRecordsBack(rs: seq<Record>)
    requires forall i :: 0 <= i < |rs| ==> IsRecord(rs[i])
    ensures ScanRecords(Concat(rs)) == rs
  {
    hide Read32, Concat;
    if rs == [] {
      assert Concat(rs) == [] by { ConcatEmpty(); }
    } else {
      var r, rest := rs[0], rs[1..];
      assert rs == [r] + rest;
      ConcatFront(r, rest);
      var s := Concat(rs);
      ReadPrefix(r, Concat(rest), OFFSET_LOG_TOT_LEN);
      assert s[..|r|] == r && s[|r|..] == Concat(rest);
      assert FrontRecord(s) == Some(r);
      ScanRecordsBack(rest);
    }
  }

  lemma ConcatEmpty()
    ensures Concat([]) == []
  {
  }

  lemma ReadPrefix(a: seq<Byte>, b: seq<Byte>, at: nat)
    requires at + 4 <= |a|
    ensures Read32(a + b, at) == Read32(a, at)
  {
  }

  lemma ReadSuffix(a: seq<Byte>, b: seq<Byte>, at: nat)
    requires at + 4 <= |b|
    ensures Read32(a + b, |a| + at) == Read32(b, at)
  {
  }

  lemma HeaderWords(body: seq<Byte>)
    requires |body| < WORD
    ensures Read32(Header(body), 0) == WAL_BATCH_MAGIC
    ensures Read32(Header(body), 4) == |body|
    ensures Read32(Header(body), 8) == Crc(body)
  {
    hide Crc, Read32, Le32;
    var a, b, c := Le32(WAL_BATCH_MAGIC), Le32(|body|), Le32(Crc(body));
    WordBack(WAL_BATCH_MAGIC);
    WordBack(|body|);
    WordBack(Crc(body));
    ReadPrefix(a, b, 0);
    ReadPrefix(a + b, c, 0);
    ReadSuffix(a, b, 0);
    ReadPrefix(a + b, c, 4);
    ReadSuffix(a + b, c, 0);
  }

  /** A frame, whatever follows it, is read back as its body. */
  lemma FrameBack(body: seq<Byte>, tail: seq<Byte>)
    requires 0 < |body| < WORD
    ensures FrontBatch(Frame(body) + tail) == Some(body)
    ensures ScanBatches(Frame(body) + tail) == ScanRecords(body) + ScanBatches(tail)
  {
    hide Crc, Read32, Header, ScanRecords;
    var h := Header(body);
    var s := Frame(body) + tail;
    HeaderWords(body);
    assert s == h + (body + tail);
    ReadPrefix(h, body + tail, 0);
    ReadPrefix(h, body + tail, 4);
    ReadPrefix(h, body + tail, 8);
    assert s[WAL_BATCH_HDR_SIZE..WAL_BATCH_HDR_SIZE + |body|] == body;
    assert s[WAL_BATCH_HDR_SIZE + |body|..] == tail;
  }
}
