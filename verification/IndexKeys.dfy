/**
  Keys of several columns and the space they take in a page.  The index compares keys column by
  column; the comparison is shown to be that of integers, which is what the tree model uses.
  */
module IndexKeys {
  import opened Sequences

  // -------------------------------------------------------------------------------------------
  // Comparing keys

  /** A column holds a 32-bit integer or a string of a fixed number of bytes. */
  datatype Column = IntColumn | StringColumn(len: nat)

  datatype Value = IntValue(i: int) | StringValue(bytes: seq<Byte>)

  /** The values of a record, one for each column. */
  type Row = seq<Value>

  const INT_MIN := -0x8000_0000
  const INT_MAX := 0x7FFF_FFFF

  predicate Fits(v: Value, c: Column) {
    match c
    case IntColumn => v.IntValue? && INT_MIN <= v.i <= INT_MAX
    case StringColumn(len) => v.StringValue? && |v.bytes| == len
  }

  predicate KeyFits(key: seq<Value>, cols: seq<Column>) {
    |key| == |cols| && forall i :: 0 <= i < |cols| ==> Fits(key[i], cols[i])
  }

  /** The sign of the first difference of two byte strings of one length, as memcmp gives it. */
  function CompareBytes(a: seq<Byte>, b: seq<Byte>): (r: int)
    requires |a| == |b|
    ensures r == 0 <==> a == b
  {
    if a == [] then 0
    else if a[0] < b[0] then -1
    else if a[0] > b[0] then 1
    else
      var r := CompareBytes(a[1..], b[1..]);
      assert a == [a[0]] + a[1..] && b == [b[0]] + b[1..];
      r
  }

  function CompareColumn(a: Value, b: Value, c: Column): int
    requires Fits(a, c) && Fits(b, c)
  {
    match c
    case IntColumn => if a.i < b.i then -1 else if a.i > b.i then 1 else 0
    case StringColumn(_) => CompareBytes(a.bytes, b.bytes)
  }

  /** The column loop of the key comparison. */
  method CompareKeys(a: seq<Value>, b: seq<Value>, cols: seq<Column>) returns (r: int)
    requires KeyFits(a, cols) && KeyFits(b, cols)
    ensures r < 0 <==> Rank(a, cols) < Rank(b, cols)
    ensures r == 0 <==> Rank(a, cols) == Rank(b, cols)
    ensures r == 0 <==> a == b
  {
    var i := 0;
    while i < |cols|
      invariant 0 <= i <= |cols| && a[..i] == b[..i]
      invariant Rank(a[..i], cols[..i]) == Rank(b[..i], cols[..i])
    {
      r := CompareColumn(a[i], b[i], cols[i]);
      ColumnOrder(a[i], b[i], cols[i]);
      if r != 0 {
        assert a[i] != b[i];
        DecidedAt(a, b, cols, i);
        return;
      }
      assert a[..i + 1] == a[..i] + [a[i]] && b[..i + 1] == b[..i] + [b[i]];
      i := i + 1;
    }
    assert a[..i] == a && b[..i] == b && cols[..i] == cols;
    r := 0;
  }

  /** How many values a column can hold. */
  function Width(c: Column): (w: nat)
    ensures w >= 1
  {
    match c
    case IntColumn => 0x1_0000_0000
    case StringColumn(len) => Power256(len)
  }

  function Power256(n: nat): (p: nat)
    ensures p >= 1
  {
    if n == 0 then 1 else 256 * Power256(n - 1)
  }

  /** The place of a value among all values of its column. */
  function Place(v: Value, c: Column): int
    requires Fits(v, c)
  {
    match c
    case IntColumn => v.i - INT_MIN
    case StringColumn(_) => BytePlace(v.bytes)
  }

  function BytePlace(s: seq<Byte>): int {
    if s == [] then 0 else s[0] * Power256(|s| - 1) + BytePlace(s[1..])
  }

  /** The place of a key among all keys: columns are digits, the first one the most significant. */
  function Rank(key: seq<Value>, cols: seq<Column>): int
    requires KeyFits(key, cols)
  {
    if key == [] then 0 else
      var n := |key| - 1;
      Rank(key[..n], cols[..n]) * Width(cols[n]) + Place(key[n], cols[n])
  }

  lemma {:induction false} BytePlaceRange(s: seq<Byte>)
    ensures 0 <= BytePlace(s) < Power256(|s|)
  {
    if s != [] {
      BytePlaceRange(s[1..]);
      DigitRange(s[0], Power256(|s| - 1));
    }
  }

  lemma DigitRange(d: Byte, p: nat)
    ensures 0 <= d * p <= 255 * p
  {
    assert d * p + (255 - d) * p == 255 * p;
  }

  lemma {:induction false} BytePlaceOrder(a: seq<Byte>, b: seq<Byte>)
    requires |a| == |b|
    ensures CompareBytes(a, b) < 0 <==> BytePlace(a) < BytePlace(b)
    ensures CompareBytes(a, b) == 0 <==> BytePlace(a) == BytePlace(b)
  {
    if a != [] {
      BytePlaceRange(a[1..]);
      BytePlaceRange(b[1..]);
      BytePlaceOrder(a[1..], b[1..]);
      Digits(a[0], BytePlace(a[1..]), b[0], BytePlace(b[1..]), Power256(|a| - 1));
    }
  }

  lemma MulGrows(d: int, w: nat)
    ensures d >= 1 ==> d * w >= w
    ensures d <= -1 ==> d * w + w <= 0
  {
    if d >= 1 {
      assert d * w == (d - 1) * w + w;
    } else if d <= -1 {
      assert d * w == (d + 1) * w - w;
    }
  }

  /** Two-digit numbers compare by the first digit, then by the second. */
  lemma Digits(x: int, lo: int, y: int, lo': int, w: int)
    requires 0 <= lo < w && 0 <= lo' < w
    ensures x * w + lo < y * w + lo' <==> x < y || (x == y && lo < lo')
    ensures x * w + lo == y * w + lo' <==> x == y && lo == lo'
  {
    MulGrows(y - x, w);
    assert y * w == x * w + (y - x) * w;
  }

  lemma ColumnOrder(a: Value, b: Value, c: Column)
    requires Fits(a, c) && Fits(b, c)
    ensures 0 <= Place(a, c) < Width(c) && 0 <= Place(b, c) < Width(c)
    ensures CompareColumn(a, b, c) < 0 <==> Place(a, c) < Place(b, c)
    ensures CompareColumn(a, b, c) == 0 <==> Place(a, c) == Place(b, c)
    ensures CompareColumn(a, b, c) == 0 <==> a == b
  {
    if c.StringColumn? {
      BytePlaceRange(a.bytes);
      BytePlaceRange(b.bytes);
      BytePlaceOrder(a.bytes, b.bytes);
    }
  }

  /** Keys that agree before column i and differ there are ordered by that column alone. */
  lemma {:induction false} DecidedAt(a: seq<Value>, b: seq<Value>, cols: seq<Column>, i: nat)
    requires KeyFits(a, cols) && KeyFits(b, cols) && i < |cols| && a[..i] == b[..i]
    requires Place(a[i], cols[i]) != Place(b[i], cols[i])
    ensures Rank(a, cols) < Rank(b, cols) <==> Place(a[i], cols[i]) < Place(b[i], cols[i])
    ensures Rank(a, cols) != Rank(b, cols)
  {
    var n := |cols| - 1;
    ColumnOrder(a[n], b[n], cols[n]);
    if i < n {
      assert a[..n][..i] == a[..i] && b[..n][..i] == b[..i];
      DecidedAt(a[..n], b[..n], cols[..n], i);
    }
    Digits(Rank(a[..n], cols[..n]), Place(a[n], cols[n]), Rank(b[..n], cols[..n]), Place(b[n], cols[n]), Width(cols[n]));
  }

  // -------------------------------------------------------------------------------------------
  // Space in a page

  const PAGE_SIZE := 4096
  const PAGE_HEADER_SIZE := 24
  const RID_SIZE := 8
  const MAX_KEY_LENGTH := 512

  function Order(keyLength: nat): int {
    (PAGE_SIZE - PAGE_HEADER_SIZE) / (keyLength + RID_SIZE) - 1
  }

  datatype Created = Opened(order: int, keysSize: int) | InvalidColLength(length: int)

  /** Adds up the column lengths and derives the node capacity; too long a key is refused. */
  method CreateIndex(lengths: seq<nat>) returns (r: Created)
    requires |lengths| > 0 && forall i :: 0 <= i < |lengths| ==> lengths[i] > 0
    ensures r.InvalidColLength? <==> Total(lengths) > MAX_KEY_LENGTH
    ensures r.Opened? ==>
              && r.order >= 3 && r.keysSize == (r.order + 1) * Total(lengths)
              && PAGE_HEADER_SIZE + r.keysSize + (r.order + 1) * RID_SIZE <= PAGE_SIZE
              && PAGE_HEADER_SIZE + (r.order + 2) * (Total(lengths) + RID_SIZE) > PAGE_SIZE
  {
    var total := 0;
    for i := 0 to |lengths|
      invariant total == Total(lengths[..i])
    {
      assert lengths[..i + 1][..i] == lengths[..i];
      total := total + lengths[i];
    }
    assert lengths[..|lengths|] == lengths;
    if total > MAX_KEY_LENGTH {
      return InvalidColLength(total);
    }
    TotalPositive(lengths);
    NodeFits(total);
    r := Opened(Order(total), (Order(total) + 1) * total);
  }

  function Total(lengths: seq<nat>): nat {
    if lengths == [] then 0 else Total(lengths[..|lengths| - 1]) + lengths[|lengths| - 1]
  }

  lemma TotalPositive(lengths: seq<nat>)
    requires |lengths| > 0 && lengths[|lengths| - 1] > 0
    ensures Total(lengths) > 0
  {
  }

  /** A node of order + 1 entries fits its page, one more would not, and the order suits the tree. */
  lemma NodeFits(keyLength: nat)
    requires 1 <= keyLength <= MAX_KEY_LENGTH
    ensures Order(keyLength) >= 3
    ensures PAGE_HEADER_SIZE + (Order(keyLength) + 1) * keyLength + (Order(keyLength) + 1) * RID_SIZE <= PAGE_SIZE
    ensures PAGE_HEADER_SIZE + (Order(keyLength) + 2) * (keyLength + RID_SIZE) > PAGE_SIZE
  {
    var w, n := keyLength + RID_SIZE, (PAGE_SIZE - PAGE_HEADER_SIZE) / (keyLength + RID_SIZE);
    assert n * w <= PAGE_SIZE - PAGE_HEADER_SIZE < (n + 1) * w;
    assert n * w == n * keyLength + n * RID_SIZE;
    MulGrows(4 - n, w);
    assert 4 * w == n * w + (4 - n) * w;
  }
}
