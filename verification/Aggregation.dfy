/**
  Grouping and aggregation: a map from group keys to accumulators, filled in one pass over the
  input, and the list of group keys in the order of their first row.
  */
module Aggregation {
  import opened Sequences
  import opened IndexKeys
  import opened LogRecords
  import TableStore
  import opened Streams

  // -------------------------------------------------------------------------------------------
  // Group keys

  function ColumnSize(c: Column): nat {
    match c
    case IntColumn => 4
    case StringColumn(len) => len
  }

  function ColumnBytes(v: Value, c: Column): (s: seq<Byte>)
    requires IndexKeys.Fits(v, c)
    ensures |s| == ColumnSize(c)
  {
    match c
    case IntColumn => I32(v.i)
    case StringColumn(_) => v.bytes
  }

  /** The value a column's bytes stand for. */
  function FromBytes(s: seq<Byte>, c: Column): Value
    requires |s| == ColumnSize(c)
  {
    match c
    case IntColumn => IntValue(match TakeI32(s) case Some(p) => p.0 case None => 0)
    case StringColumn(_) => StringValue(s)
  }

  lemma FromBytesBack(v: Value, c: Column)
    requires IndexKeys.Fits(v, c)
    ensures FromBytes(ColumnBytes(v, c), c) == v
  {
    if c.IntColumn? {
      I32Back(v.i, []);
      assert I32(v.i) + [] == I32(v.i);
    }
  }

  /** The columns rows are grouped by, among the input's columns. */
  datatype Grouping = Grouping(cols: seq<Column>, on: seq<nat>)

  predicate GroupingOk(g: Grouping) {
    forall i :: 0 <= i < |g.on| ==> g.on[i] < |g.cols|
  }

  function Zeros(n: nat): (s: seq<Byte>)
    ensures |s| == n
  {
    seq(n, i => 0)
  }

  /** One bit for every grouping column, set for a missing value; no value is ever missing. */
  function NullBitmap(g: Grouping): seq<Byte> {
    Zeros((|g.on| + 7) / 8)
  }

  /** The bytes of the first n grouping columns, one after the other. */
  function KeyBytes(g: Grouping, row: Row, n: nat): (s: seq<Byte>)
    requires GroupingOk(g) && KeyFits(row, g.cols) && n <= |g.on|
    ensures |s| == Offset(g, n)
  {
    if n == 0 then [] else KeyBytes(g, row, n - 1) + ColumnBytes(row[g.on[n - 1]], g.cols[g.on[n - 1]])
  }

  function Offset(g: Grouping, n: nat): nat
    requires GroupingOk(g) && n <= |g.on|
  {
    if n == 0 then 0 else Offset(g, n - 1) + ColumnSize(g.cols[g.on[n - 1]])
  }

  function GroupKey(g: Grouping, row: Row): seq<Byte>
    requires GroupingOk(g) && KeyFits(row, g.cols)
  {
    if g.on == [] then [] else NullBitmap(g) + KeyBytes(g, row, |g.on|)
  }

  /** The loop over the grouping columns. */
  method MakeGroupKey(g: Grouping, row: Row) returns (key: seq<Byte>)
    requires GroupingOk(g) && KeyFits(row, g.cols)
    ensures key == GroupKey(g, row)
  {
    if g.on == [] {
      return [];
    }
    key := [];
    for i := 0 to |g.on|
      invariant key == KeyBytes(g, row, i)
    {
      key := key + ColumnBytes(row[g.on[i]], g.cols[g.on[i]]);
    }
    key := NullBitmap(g) + key;
  }

  predicate SameGroup(g: Grouping, a: Row, b: Row)
    requires GroupingOk(g) && KeyFits(a, g.cols) && KeyFits(b, g.cols)
  {
    forall i :: 0 <= i < |g.on| ==> a[g.on[i]] == b[g.on[i]]
  }

  lemma {:induction false} KeyBytesSlice(g: Grouping, row: Row, n: nat, i: nat)
    requires GroupingOk(g) && KeyFits(row, g.cols) && i < n <= |g.on|
    ensures Offset(g, i) + ColumnSize(g.cols[g.on[i]]) <= Offset(g, n)
    ensures KeyBytes(g, row, n)[Offset(g, i)..Offset(g, i) + ColumnSize(g.cols[g.on[i]])]
            == ColumnBytes(row[g.on[i]], g.cols[g.on[i]])
  {
    hide ColumnBytes, IndexKeys.Fits, ColumnSize;
    var front, last := KeyBytes(g, row, n - 1), ColumnBytes(row[g.on[n - 1]], g.cols[g.on[n - 1]]);
    assert KeyBytes(g, row, n) == front + last;
    if i < n - 1 {
      KeyBytesSlice(g, row, n - 1, i);
      SliceBefore(front, last, Offset(g, i), ColumnSize(g.cols[g.on[i]]));
    } else {
      assert (front + last)[|front|..|front| + |last|] == last;
    }
  }

  lemma SliceBefore(a: seq<Byte>, b: seq<Byte>, o: nat, size: nat)
    requires o + size <= |a|
    ensures (a + b)[o..o + size] == a[o..o + size]
  {
  }

  /** Where a grouping column lies in a key. */
  lemma KeySlice(g: Grouping, row: Row, i: nat)
    requires GroupingOk(g) && KeyFits(row, g.cols) && i < |g.on|
    ensures var off := |NullBitmap(g)| + Offset(g, i);
            var size := ColumnSize(g.cols[g.on[i]]);
            && off + size <= |GroupKey(g, row)|
            && GroupKey(g, row)[off..off + size] == ColumnBytes(row[g.on[i]], g.cols[g.on[i]])
            && FromBytes(GroupKey(g, row)[off..off + size], g.cols[g.on[i]]) == row[g.on[i]]
  {
    hide ColumnBytes, FromBytes, IndexKeys.Fits, KeyBytes, Offset, ColumnSize, NullBitmap;
    KeyBytesSlice(g, row, |g.on|, i);
    FromBytesBack(row[g.on[i]], g.cols[g.on[i]]);
    SliceAfter(NullBitmap(g), KeyBytes(g, row, |g.on|), Offset(g, i), ColumnSize(g.cols[g.on[i]]));
  }

  lemma SliceAfter(b: seq<Byte>, k: seq<Byte>, o: nat, size: nat)
    requires o + size <= |k|
    ensures (b + k)[|b| + o..|b| + o + size] == k[o..o + size]
  {
  }

  /** Keys are equal exactly when all grouping columns are. */
  lemma KeysEqual(g: Grouping, a: Row, b: Row)
    requires GroupingOk(g) && KeyFits(a, g.cols) && KeyFits(b, g.cols)
    ensures GroupKey(g, a) == GroupKey(g, b) <==> SameGroup(g, a, b)
  {
    if GroupKey(g, a) == GroupKey(g, b) {
      forall i | 0 <= i < |g.on| ensures a[g.on[i]] == b[g.on[i]] {
        KeySlice(g, a, i);
        KeySlice(g, b, i);
      }
    }
    if SameGroup(g, a, b) {
      SameBytes(g, a, b, |g.on|);
    }
  }

  lemma {:induction false} SameBytes(g: Grouping, a: Row, b: Row, n: nat)
    requires GroupingOk(g) && KeyFits(a, g.cols) && KeyFits(b, g.cols) && SameGroup(g, a, b) && n <= |g.on|
    ensures KeyBytes(g, a, n) == KeyBytes(g, b, n)
  {
    if n > 0 {
      SameBytes(g, a, b, n - 1);
    }
  }

  lemma BitmapLength(g: Grouping)
    ensures |NullBitmap(g)| == (|g.on| + 7) / 8
  {
  }

  /** Reads the grouping columns back from a key, at offsets that add up column by column. */
  method GroupColumns(g: Grouping, key: seq<Byte>, ghost row: Row) returns (vals: seq<Value>)
    requires GroupingOk(g) && KeyFits(row, g.cols) && key == GroupKey(g, row)
    ensures |vals| == |g.on| && forall i :: 0 <= i < |vals| ==> vals[i] == row[g.on[i]]
  {
    hide FromBytes, GroupKey, IndexKeys.Fits, ColumnSize, NullBitmap;
    vals := [];
    assert |NullBitmap(g)| == (|g.on| + 7) / 8 by { BitmapLength(g); }
    var off := (|g.on| + 7) / 8;
    for i := 0 to |g.on|
      invariant |vals| == i && off == |NullBitmap(g)| + Offset(g, i)
      invariant forall j :: 0 <= j < i ==> vals[j] == row[g.on[j]]
    {
      KeySlice(g, row, i);
      var c := g.cols[g.on[i]];
      vals := vals + [FromBytes(key[off..off + ColumnSize(c)], c)];
      off := off + ColumnSize(c);
    }
  }

  // -------------------------------------------------------------------------------------------
  // Accumulators

  datatype Agg = CountAll | Count(col: nat, distinct: bool) | Sum(col: nat) | Max(col: nat) | Min(col: nat)

  predicate AggOk(a: Agg, cols: seq<Column>) {
    match a
    case CountAll => true
    case Count(c, _) => c < |cols|
    case Sum(c) => c < |cols| && cols[c].IntColumn?
    case Max(c) => c < |cols|
    case Min(c) => c < |cols|
  }

  datatype AggState = AggState(count: nat, intSum: int, intMax: int, intMin: int, strMax: seq<Byte>, strMin: seq<Byte>,
                               hasValue: bool, seen: set<seq<Byte>>)

  const INITIAL := AggState(0, 0, INT_MIN, INT_MAX, [], [], false, {})

  /** The bytes before the first zero byte. */
  function Trim(s: seq<Byte>): (r: seq<Byte>)
    ensures |r| <= |s| && r == s[..|r|] && 0 !in r && (|r| < |s| ==> s[|r|] == 0)
  {
    if s == [] || s[0] == 0 then [] else [s[0]] + Trim(s[1..])
  }

  /** Byte strings in order; a proper prefix comes first. */
  predicate Less(a: seq<Byte>, b: seq<Byte>) {
    if b == [] then false
    else if a == [] then true
    else if a[0] != b[0] then a[0] < b[0]
    else Less(a[1..], b[1..])
  }

  /** What one row does to an accumulator. */
  function Step(a: Agg, cols: seq<Column>, st: AggState, row: Row): AggState
    requires AggOk(a, cols) && KeyFits(row, cols)
  {
    match a
    case CountAll => st.(count := st.count + 1)
    case Count(c, distinct) =>
      if !distinct then st.(count := st.count + 1)
      else
        var key := ColumnBytes(row[c], cols[c]);
        if key in st.seen then st else st.(seen := st.seen + {key}, count := st.count + 1)
    case _ =>
      match cols[a.col]
      case IntColumn =>
        var v := row[a.col].i;
        var st' := if !st.hasValue then st.(intMax := v, intMin := v, hasValue := true)
                   else st.(intMax := if st.intMax < v then v else st.intMax, intMin := if v < st.intMin then v else st.intMin);
        st'.(intSum := st.intSum + v)
      case StringColumn(_) =>
        var s := Trim(row[a.col].bytes);
        if !st.hasValue then st.(strMax := s, strMin := s, hasValue := true)
        else st.(strMax := if Less(st.strMax, s) then s else st.strMax, strMin := if Less(s, st.strMin) then s else st.strMin)
  }

  ghost predicate InputFits(cols: seq<Column>, rows: seq<Row>) {
    forall i :: 0 <= i < |rows| ==> KeyFits(rows[i], cols)
  }

  function Fold(a: Agg, cols: seq<Column>, rows: seq<Row>): AggState
    requires AggOk(a, cols) && InputFits(cols, rows)
  {
    if rows == [] then INITIAL else
      var n := |rows| - 1;
      Step(a, cols, Fold(a, cols, rows[..n]), rows[n])
  }

  // -------------------------------------------------------------------------------------------
  // What the accumulators mean

  function SumOf(rows: seq<Row>, c: nat): int
    requires forall i :: 0 <= i < |rows| ==> c < |rows[i]| && rows[i][c].IntValue?
  {
    if rows == [] then 0 else SumOf(rows[..|rows| - 1], c) + rows[|rows| - 1][c].i
  }

  ghost function ValuesOf(rows: seq<Row>, c: nat): set<Value>
    requires forall i :: 0 <= i < |rows| ==> c < |rows[i]|
  {
    set i | 0 <= i < |rows| :: rows[i][c]
  }

  ghost predicate IntBounds(rows: seq<Row>, c: nat, st: AggState)
    requires forall i :: 0 <= i < |rows| ==> c < |rows[i]| && rows[i][c].IntValue?
  {
    && st.hasValue == (rows != [])
    && (rows != [] ==> (exists i :: 0 <= i < |rows| && rows[i][c].i == st.intMax) && (exists i :: 0 <= i < |rows| && rows[i][c].i == st.intMin))
    && forall i :: 0 <= i < |rows| ==> st.intMin <= rows[i][c].i <= st.intMax
  }

  ghost predicate StrBounds(rows: seq<Row>, c: nat, st: AggState)
    requires forall i :: 0 <= i < |rows| ==> c < |rows[i]| && rows[i][c].StringValue?
  {
    && st.hasValue == (rows != [])
    && (rows != [] ==> (exists i :: 0 <= i < |rows| && Trim(rows[i][c].bytes) == st.strMax)
                       && (exists i :: 0 <= i < |rows| && Trim(rows[i][c].bytes) == st.strMin))
    && forall i :: 0 <= i < |rows| ==> !Less(st.strMax, Trim(rows[i][c].bytes)) && !Less(Trim(rows[i][c].bytes), st.strMin)
  }

  lemma {:induction false} FoldCount(a: Agg, cols: seq<Column>, rows: seq<Row>)
    requires AggOk(a, cols) && InputFits(cols, rows) && (a.CountAll? || (a.Count? && !a.distinct))
    ensures Fold(a, cols, rows).count == |rows|
  {
    hide IndexKeys.Fits;
    if rows != [] {
      FoldCount(a, cols, rows[..|rows| - 1]);
    }
  }

  lemma RowsKind(cols: seq<Column>, rows: seq<Row>, c: nat)
    requires InputFits(cols, rows) && c < |cols|
    ensures forall i :: 0 <= i < |rows| ==> c < |rows[i]|
    ensures cols[c].IntColumn? ==> forall i :: 0 <= i < |rows| ==> rows[i][c].IntValue?
    ensures cols[c].StringColumn? ==> forall i :: 0 <= i < |rows| ==> rows[i][c].StringValue?
  {
  }

  ghost function BytesOf(rows: seq<Row>, c: nat, col: Column): set<seq<Byte>>
    requires forall i :: 0 <= i < |rows| ==> c < |rows[i]| && IndexKeys.Fits(rows[i][c], col)
  {
    set i | 0 <= i < |rows| :: ColumnBytes(rows[i][c], col)
  }

  /** Values and their bytes repeat together. */
  lemma LastRepeats(rows: seq<Row>, c: nat, col: Column)
    requires rows != [] && forall i :: 0 <= i < |rows| ==> c < |rows[i]| && IndexKeys.Fits(rows[i][c], col)
    ensures var n := |rows| - 1;
            && BytesOf(rows, c, col) == BytesOf(rows[..n], c, col) + {ColumnBytes(rows[n][c], col)}
            && ValuesOf(rows, c) == ValuesOf(rows[..n], c) + {rows[n][c]}
            && (ColumnBytes(rows[n][c], col) in BytesOf(rows[..n], c, col) <==> rows[n][c] in ValuesOf(rows[..n], c))
  {
    hide IndexKeys.Fits, ColumnBytes;
    var n := |rows| - 1;
    var front := rows[..n];
    assert forall i :: 0 <= i < n ==> front[i] == rows[i];
    forall i | 0 <= i < n ensures ColumnBytes(front[i][c], col) == ColumnBytes(rows[n][c], col) <==> front[i][c] == rows[n][c] {
      FromBytesBack(front[i][c], col);
      FromBytesBack(rows[n][c], col);
    }
  }

  lemma {:induction false} FoldDistinct(c: nat, cols: seq<Column>, rows: seq<Row>)
    requires c < |cols| && InputFits(cols, rows)
    ensures forall i :: 0 <= i < |rows| ==> c < |rows[i]| && IndexKeys.Fits(rows[i][c], cols[c])
    ensures Fold(Count(c, true), cols, rows).seen == BytesOf(rows, c, cols[c])
    ensures Fold(Count(c, true), cols, rows).count == |ValuesOf(rows, c)|
  {
    hide IndexKeys.Fits, ColumnBytes, BytesOf, ValuesOf, Step;
    ColumnFits(cols, rows, c);
    if rows == [] {
      NoValues(c, cols[c]);
    } else {
      var n := |rows| - 1;
      FoldDistinct(c, cols, rows[..n]);
      DistinctStep(c, cols, rows, Fold(Count(c, true), cols, rows[..n]));
    }
  }

  lemma ColumnFits(cols: seq<Column>, rows: seq<Row>, c: nat)
    requires c < |cols| && InputFits(cols, rows)
    ensures forall i :: 0 <= i < |rows| ==> c < |rows[i]| && IndexKeys.Fits(rows[i][c], cols[c])
  {
    hide IndexKeys.Fits;
  }

  lemma DistinctStep(c: nat, cols: seq<Column>, rows: seq<Row>, st: AggState)
    requires c < |cols| && rows != [] && InputFits(cols, rows)
    requires forall i :: 0 <= i < |rows| ==> c < |rows[i]| && IndexKeys.Fits(rows[i][c], cols[c])
    requires st.seen == BytesOf(rows[..|rows| - 1], c, cols[c]) && st.count == |ValuesOf(rows[..|rows| - 1], c)|
    ensures KeyFits(rows[|rows| - 1], cols)
    ensures var st' := Step(Count(c, true), cols, st, rows[|rows| - 1]);
            st'.seen == BytesOf(rows, c, cols[c]) && st'.count == |ValuesOf(rows, c)|
  {
    hide IndexKeys.Fits, ColumnBytes, BytesOf, ValuesOf;
    LastRepeats(rows, c, cols[c]);
    var n := |rows| - 1;
    var old', v := ValuesOf(rows[..n], c), rows[n][c];
    assert old' + {v} == if v in old' then old' else old' + {v};
  }

  lemma NoValues(c: nat, col: Column)
    ensures BytesOf([], c, col) == {} && ValuesOf([], c) == {}
  {
  }

  lemma {:induction false} FoldInts(a: Agg, cols: seq<Column>, rows: seq<Row>)
    requires AggOk(a, cols) && InputFits(cols, rows) && (a.Sum? || a.Max? || a.Min?) && cols[a.col].IntColumn?
    ensures forall i :: 0 <= i < |rows| ==> a.col < |rows[i]| && rows[i][a.col].IntValue?
    ensures Fold(a, cols, rows).intSum == SumOf(rows, a.col) && IntBounds(rows, a.col, Fold(a, cols, rows))
  {
    hide IndexKeys.Fits;
    RowsKind(cols, rows, a.col);
    if rows != [] {
      var n := |rows| - 1;
      FoldInts(a, cols, rows[..n]);
      IntStep(rows, a.col, Fold(a, cols, rows[..n]), Fold(a, cols, rows));
    }
  }

  lemma IntStep(rows: seq<Row>, c: nat, st: AggState, st': AggState)
    requires rows != [] && forall i :: 0 <= i < |rows| ==> c < |rows[i]| && rows[i][c].IntValue?
    requires IntBounds(rows[..|rows| - 1], c, st) && st'.hasValue
    requires var v := rows[|rows| - 1][c].i;
             st'.intMax == (if st.hasValue && v <= st.intMax then st.intMax else v)
             && st'.intMin == (if st.hasValue && st.intMin <= v then st.intMin else v)
    ensures IntBounds(rows, c, st')
  {
    var n := |rows| - 1;
    if st.hasValue {
      var i :| 0 <= i < n && rows[..n][i][c].i == st.intMax;
      var j :| 0 <= j < n && rows[..n][j][c].i == st.intMin;
      assert rows[i][c].i == st.intMax && rows[j][c].i == st.intMin;
    }
    assert rows[n][c].i == st'.intMax || st'.intMax == st.intMax;
    forall i | 0 <= i < n ensures rows[..n][i] == rows[i] {
    }
  }

  lemma {:induction false} LessTotal(a: seq<Byte>, b: seq<Byte>, c: seq<Byte>)
    ensures !Less(a, a)
    ensures Less(a, b) && Less(b, c) ==> Less(a, c)
    ensures Less(a, b) || Less(b, a) || a == b
    ensures !Less(a, b) && !Less(b, c) ==> !Less(a, c)
    decreases |a| + |b| + |c|
  {
    if a != [] {
      LessTotal(a[1..], if b == [] then [] else b[1..], if c == [] then [] else c[1..]);
    }
    if a != [] && b != [] && a[0] == b[0] && a[1..] == b[1..] {
      assert a == [a[0]] + a[1..] == [b[0]] + b[1..] == b;
    }
  }

  lemma {:induction false} FoldStrings(a: Agg, cols: seq<Column>, rows: seq<Row>)
    requires AggOk(a, cols) && InputFits(cols, rows) && (a.Max? || a.Min?) && cols[a.col].StringColumn?
    ensures forall i :: 0 <= i < |rows| ==> a.col < |rows[i]| && rows[i][a.col].StringValue?
    ensures StrBounds(rows, a.col, Fold(a, cols, rows))
  {
    hide IndexKeys.Fits, Less, Trim;
    RowsKind(cols, rows, a.col);
    if rows != [] {
      var n := |rows| - 1;
      FoldStrings(a, cols, rows[..n]);
      StrStep(rows, a.col, Fold(a, cols, rows[..n]), Fold(a, cols, rows));
    }
  }

  lemma StrStep(rows: seq<Row>, c: nat, st: AggState, st': AggState)
    requires rows != [] && forall i :: 0 <= i < |rows| ==> c < |rows[i]| && rows[i][c].StringValue?
    requires StrBounds(rows[..|rows| - 1], c, st) && st'.hasValue
    requires var s := Trim(rows[|rows| - 1][c].bytes);
             st'.strMax == (if st.hasValue && !Less(st.strMax, s) then st.strMax else s)
             && st'.strMin == (if st.hasValue && !Less(s, st.strMin) then st.strMin else s)
    ensures StrBounds(rows, c, st')
  {
    hide Less, Trim;
    var n := |rows| - 1;
    var s := Trim(rows[n][c].bytes);
    if st.hasValue {
      var i :| 0 <= i < n && Trim(rows[..n][i][c].bytes) == st.strMax;
      var j :| 0 <= j < n && Trim(rows[..n][j][c].bytes) == st.strMin;
      assert Trim(rows[i][c].bytes) == st.strMax && Trim(rows[j][c].bytes) == st.strMin;
    }
    forall i | 0 <= i < |rows| ensures !Less(st'.strMax, Trim(rows[i][c].bytes)) && !Less(Trim(rows[i][c].bytes), st'.strMin) {
      var x := Trim(rows[i][c].bytes);
      LessTotal(s, s, s);
      LessTotal(s, st.strMax, x);
      LessTotal(st.strMax, s, x);
      LessTotal(x, st.strMin, s);
      LessTotal(x, s, st.strMin);
      LessTotal(st.strMin, st.strMin, st.strMin);
      assert i < n ==> rows[..n][i] == rows[i];
    }
  }

  // -------------------------------------------------------------------------------------------
  // Groups

  /** The rows with a key, in input order. */
  function RowsWith(g: Grouping, rows: seq<Row>, key: seq<Byte>): (r: seq<Row>)
    requires GroupingOk(g) && InputFits(g.cols, rows)
    ensures InputFits(g.cols, r)
  {
    if rows == [] then [] else
      var n := |rows| - 1;
      RowsWith(g, rows[..n], key) + if GroupKey(g, rows[n]) == key then [rows[n]] else []
  }

  /** The keys in the order of their first row. */
  function KeysInOrder(g: Grouping, rows: seq<Row>): seq<seq<Byte>>
    requires GroupingOk(g) && InputFits(g.cols, rows)
  {
    if rows == [] then [] else
      var n := |rows| - 1;
      var front := KeysInOrder(g, rows[..n]);
      if GroupKey(g, rows[n]) in front then front else front + [GroupKey(g, rows[n])]
  }

  /** Place i of the input is the first with its key. */
  ghost predicate IsFirst(g: Grouping, rows: seq<Row>, i: nat)
    requires GroupingOk(g) && InputFits(g.cols, rows) && i < |rows|
  {
    forall j :: 0 <= j < i ==> GroupKey(g, rows[j]) != GroupKey(g, rows[i])
  }

  /** The list of keys has one entry for every first row, in input order: firsts[k] is the place of
      the first row with key number k. */
  lemma {:induction false} FirstAppearance(g: Grouping, rows: seq<Row>) returns (firsts: seq<nat>)
    requires GroupingOk(g) && InputFits(g.cols, rows)
    ensures var keys := KeysInOrder(g, rows);
            && |firsts| == |keys| && NoDup(keys)
            && (forall k :: 0 <= k < |keys| ==> firsts[k] < |rows| && IsFirst(g, rows, firsts[k]) && GroupKey(g, rows[firsts[k]]) == keys[k])
            && (forall j, k :: 0 <= j < k < |keys| ==> firsts[j] < firsts[k])
            && (forall i :: 0 <= i < |rows| ==> GroupKey(g, rows[i]) in keys)
  {
    hide GroupKey, IndexKeys.Fits;
    firsts := [];
    if rows != [] {
      var n := |rows| - 1;
      firsts := FirstAppearance(g, rows[..n]);
      var front := KeysInOrder(g, rows[..n]);
      assert forall i :: 0 <= i < n ==> rows[..n][i] == rows[i];
      assert forall k :: 0 <= k < |front| ==> IsFirst(g, rows[..n], firsts[k]) && IsFirst(g, rows, firsts[k]);
      if GroupKey(g, rows[n]) !in front {
        assert IsFirst(g, rows, n);
        firsts := firsts + [n];
      }
    }
  }

  /** The value of an aggregate over the rows of a group. */
  function AggValue(a: Agg, cols: seq<Column>, st: AggState): Value
    requires AggOk(a, cols)
  {
    match a
    case CountAll => IntValue(TableStore.Wrap32(st.count))
    case Count(_, _) => IntValue(TableStore.Wrap32(st.count))
    case Sum(_) => IntValue(TableStore.Wrap32(st.intSum))
    case Max(c) => Extremum(cols[c], st.hasValue, st.intMax, st.strMax)
    case Min(c) => Extremum(cols[c], st.hasValue, st.intMin, st.strMin)
  }

  /** An output column of zero bytes, overwritten if there is a value; strings are padded with zeros. */
  function Extremum(c: Column, hasValue: bool, i: int, s: seq<Byte>): Value {
    match c
    case IntColumn => IntValue(if hasValue then i else 0)
    case StringColumn(len) => StringValue(if !hasValue then Zeros(len) else if |s| <= len then s + Zeros(len - |s|) else s[..len])
  }

  predicate AggsOk(aggs: seq<Agg>, cols: seq<Column>) {
    forall i :: 0 <= i < |aggs| ==> AggOk(aggs[i], cols)
  }

  lemma OneMore(g: Grouping, rows: seq<Row>, row: Row)
    requires GroupingOk(g) && InputFits(g.cols, rows) && KeyFits(row, g.cols)
    ensures InputFits(g.cols, rows + [row])
    ensures forall key :: RowsWith(g, rows + [row], key) == if GroupKey(g, row) == key then RowsWith(g, rows, key) + [row] else RowsWith(g, rows, key)
    ensures KeysInOrder(g, rows + [row]) ==
            if GroupKey(g, row) in KeysInOrder(g, rows) then KeysInOrder(g, rows) else KeysInOrder(g, rows) + [GroupKey(g, row)]
  {
    hide GroupKey, IndexKeys.Fits;
    assert (rows + [row])[..|rows|] == rows;
  }

  lemma FoldOne(a: Agg, cols: seq<Column>, rows: seq<Row>, row: Row)
    requires AggOk(a, cols) && InputFits(cols, rows) && KeyFits(row, cols)
    ensures InputFits(cols, rows + [row]) && Fold(a, cols, rows + [row]) == Step(a, cols, Fold(a, cols, rows), row)
  {
    hide Step, IndexKeys.Fits;
    assert (rows + [row])[..|rows|] == rows;
  }

  /** A key that has not been seen has no rows. */
  lemma {:induction false} NoRowsYet(g: Grouping, rows: seq<Row>, key: seq<Byte>)
    requires GroupingOk(g) && InputFits(g.cols, rows) && key !in KeysInOrder(g, rows)
    ensures RowsWith(g, rows, key) == []
  {
    hide GroupKey, IndexKeys.Fits;
    if rows != [] {
      NoRowsYet(g, rows[..|rows| - 1], key);
    }
  }

  lemma NewGroup(g: Grouping, aggs: seq<Agg>, rows: seq<Row>, key: seq<Byte>)
    requires GroupingOk(g) && AggsOk(aggs, g.cols) && InputFits(g.cols, rows)
    ensures key !in KeysInOrder(g, rows) ==> forall i :: 0 <= i < |aggs| ==> Fold(aggs[i], g.cols, RowsWith(g, rows, key)) == INITIAL
  {
    hide GroupKey, IndexKeys.Fits, KeysInOrder, RowsWith;
    if key !in KeysInOrder(g, rows) {
      NoRowsYet(g, rows, key);
    }
  }

  /** The keys that get an output row. */
  function Results(g: Grouping, rows: seq<Row>): seq<seq<Byte>>
    requires GroupingOk(g) && InputFits(g.cols, rows)
  {
    if rows == [] && g.on == [] then [[]] else KeysInOrder(g, rows)
  }

  /** An output row: the grouping columns as every row of the group has them, and the value of every
      aggregate over the rows of the group. */
  ghost predicate IsResult(g: Grouping, aggs: seq<Agg>, rows: seq<Row>, key: seq<Byte>, row: seq<Value>)
    requires GroupingOk(g) && AggsOk(aggs, g.cols) && InputFits(g.cols, rows)
  {
    && |row| == |g.on| + |aggs|
    && (forall i, r :: 0 <= i < |g.on| && 0 <= r < |rows| && GroupKey(g, rows[r]) == key ==> row[i] == rows[r][g.on[i]])
    && (forall j :: 0 <= j < |aggs| ==> IsAggregate(aggs[j], g.cols, RowsWith(g, rows, key), row[|g.on| + j]))
  }

  lemma KeyHasRow(g: Grouping, rows: seq<Row>, key: seq<Byte>) returns (i: nat)
    requires GroupingOk(g) && InputFits(g.cols, rows) && key in KeysInOrder(g, rows)
    ensures i < |rows| && GroupKey(g, rows[i]) == key
  {
    hide GroupKey, IndexKeys.Fits, KeysInOrder;
    var firsts := FirstAppearance(g, rows);
    var k :| 0 <= k < |KeysInOrder(g, rows)| && KeysInOrder(g, rows)[k] == key;
    i := firsts[k];
  }

  lemma SharedColumns(g: Grouping, rows: seq<Row>, first: nat, vals: seq<Value>)
    requires GroupingOk(g) && InputFits(g.cols, rows) && first < |rows|
    requires |vals| == |g.on| && forall i :: 0 <= i < |vals| ==> vals[i] == rows[first][g.on[i]]
    ensures forall i, r :: 0 <= i < |g.on| && 0 <= r < |rows| && GroupKey(g, rows[r]) == GroupKey(g, rows[first]) ==> vals[i] == rows[r][g.on[i]]
  {
    hide GroupKey, IndexKeys.Fits;
    forall r | 0 <= r < |rows| && GroupKey(g, rows[r]) == GroupKey(g, rows[first]) ensures SameGroup(g, rows[r], rows[first]) {
      KeysEqual(g, rows[r], rows[first]);
    }
  }

  /** Without rows there is no group, and without groups there are no rows. */
  lemma NoGroup(g: Grouping, aggs: seq<Agg>, rows: seq<Row>)
    requires GroupingOk(g) && AggsOk(aggs, g.cols) && InputFits(g.cols, rows)
    ensures KeysInOrder(g, rows) == [] <==> rows == []
    ensures rows == [] ==> forall i :: 0 <= i < |aggs| ==> Fold(aggs[i], g.cols, RowsWith(g, rows, [])) == INITIAL
  {
    hide GroupKey, IndexKeys.Fits;
  }

  /** The textbook value of an aggregate over rows; counts and sums are cut to 32 bits. */
  ghost predicate IsAggregate(a: Agg, cols: seq<Column>, rows: seq<Row>, v: Value)
    requires AggOk(a, cols) && InputFits(cols, rows)
  {
    if a.CountAll? then v == IntValue(TableStore.Wrap32(|rows|))
    else
      RowsKind(cols, rows, a.col);
      if a.Count? then v == IntValue(TableStore.Wrap32(if a.distinct then |ValuesOf(rows, a.col)| else |rows|))
      else if a.Sum? then v == IntValue(TableStore.Wrap32(SumOf(rows, a.col)))
      else IsExtreme(rows, a.col, cols[a.col], a.Max?, v)
  }

  /** Every accumulator delivers it. */
  lemma AggMeaning(a: Agg, cols: seq<Column>, rows: seq<Row>)
    requires AggOk(a, cols) && InputFits(cols, rows)
    ensures IsAggregate(a, cols, rows, AggValue(a, cols, Fold(a, cols, rows)))
  {
    if !a.CountAll? {
      RowsKind(cols, rows, a.col);
    }
    match a
    case CountAll => FoldCount(a, cols, rows);
    case Count(c, distinct) =>
      if distinct { FoldDistinct(c, cols, rows); } else { FoldCount(a, cols, rows); }
    case Sum(c) => FoldInts(a, cols, rows);
    case Max(c) => ExtremeMeaning(a, cols, rows);
    case Min(c) => ExtremeMeaning(a, cols, rows);
  }

  /** A string as it is compared and written out: cut at the first zero byte, padded with zeros. */
  function Clean(s: seq<Byte>): (r: seq<Byte>)
    ensures |r| == |s|
  {
    Trim(s) + Zeros(|s| - |Trim(s)|)
  }

  /** The value belongs to some row and no row's is beyond it; without rows it is all zeros. */
  ghost predicate IsExtreme(rows: seq<Row>, c: nat, col: Column, max: bool, v: Value)
    requires forall i :: 0 <= i < |rows| ==> c < |rows[i]| && (if col.IntColumn? then rows[i][c].IntValue? else rows[i][c].StringValue?)
  {
    match col
    case IntColumn =>
      && v.IntValue? && (rows == [] ==> v.i == 0)
      && (rows != [] ==> exists i :: 0 <= i < |rows| && rows[i][c].i == v.i)
      && forall i :: 0 <= i < |rows| ==> if max then rows[i][c].i <= v.i else v.i <= rows[i][c].i
    case StringColumn(len) =>
      && v.StringValue? && (rows == [] ==> v.bytes == Zeros(len))
      && (rows != [] ==> exists i :: 0 <= i < |rows| && Clean(rows[i][c].bytes) == v.bytes)
      && forall i :: 0 <= i < |rows| ==>
           if max then !Less(Trim(v.bytes), Trim(rows[i][c].bytes)) else !Less(Trim(rows[i][c].bytes), Trim(v.bytes))
  }

  lemma ExtremeMeaning(a: Agg, cols: seq<Column>, rows: seq<Row>)
    requires AggOk(a, cols) && InputFits(cols, rows) && (a.Max? || a.Min?)
    ensures forall i :: 0 <= i < |rows| ==> a.col < |rows[i]| && (if cols[a.col].IntColumn? then rows[i][a.col].IntValue? else rows[i][a.col].StringValue?)
    ensures IsExtreme(rows, a.col, cols[a.col], a.Max?, AggValue(a, cols, Fold(a, cols, rows)))
  {
    hide Fold, IsExtreme, AggValue;
    RowsKind(cols, rows, a.col);
    if cols[a.col].IntColumn? {
      IntExtreme(a, cols, rows);
    } else {
      StrExtreme(a, cols, rows);
    }
  }

  lemma IntExtreme(a: Agg, cols: seq<Column>, rows: seq<Row>)
    requires AggOk(a, cols) && InputFits(cols, rows) && (a.Max? || a.Min?) && cols[a.col].IntColumn?
    ensures forall i :: 0 <= i < |rows| ==> a.col < |rows[i]| && rows[i][a.col].IntValue?
    ensures IsExtreme(rows, a.col, cols[a.col], a.Max?, AggValue(a, cols, Fold(a, cols, rows)))
  {
    hide Fold, IndexKeys.Fits;
    FoldInts(a, cols, rows);
  }

  lemma StrExtreme(a: Agg, cols: seq<Column>, rows: seq<Row>)
    requires AggOk(a, cols) && InputFits(cols, rows) && (a.Max? || a.Min?) && cols[a.col].StringColumn?
    ensures forall i :: 0 <= i < |rows| ==> a.col < |rows[i]| && rows[i][a.col].StringValue?
    ensures IsExtreme(rows, a.col, cols[a.col], a.Max?, AggValue(a, cols, Fold(a, cols, rows)))
  {
    hide Fold, Trim, Less, Zeros, Clean, AggValue;
    FoldStrings(a, cols, rows);
    var st := Fold(a, cols, rows);
    if rows == [] {
      NoExtreme(a, cols);
    } else {
      var s := if a.Max? then st.strMax else st.strMin;
      var i :| 0 <= i < |rows| && Trim(rows[i][a.col].bytes) == s;
      FullWidth(cols, rows, i, a.col);
      ExtremeString(a, cols, st, rows[i][a.col].bytes);
    }
  }

  lemma NoExtreme(a: Agg, cols: seq<Column>)
    requires AggOk(a, cols) && (a.Max? || a.Min?) && cols[a.col].StringColumn?
    ensures AggValue(a, cols, Fold(a, cols, [])) == StringValue(Zeros(cols[a.col].len))
  {
  }

  /** The extreme string written out in full width. */
  lemma ExtremeString(a: Agg, cols: seq<Column>, st: AggState, full: seq<Byte>)
    requires AggOk(a, cols) && (a.Max? || a.Min?) && cols[a.col].StringColumn? && |full| == cols[a.col].len
    requires st.hasValue && Trim(full) == if a.Max? then st.strMax else st.strMin
    ensures AggValue(a, cols, st) == StringValue(Clean(full)) && Trim(Clean(full)) == Trim(full)
  {
    hide Trim, Zeros, Clean;
    Padded(full, cols[a.col].len);
  }

  lemma FullWidth(cols: seq<Column>, rows: seq<Row>, i: nat, c: nat)
    requires InputFits(cols, rows) && i < |rows| && c < |cols| && cols[c].StringColumn?
    ensures c < |rows[i]| && rows[i][c].StringValue? && |rows[i][c].bytes| == cols[c].len
  {
    assert KeyFits(rows[i], cols);
  }

  /** Padding a trimmed string to its width is cleaning it. */
  lemma Padded(s: seq<Byte>, len: nat)
    requires |s| == len
    ensures |Trim(s)| <= len && Trim(s) + Zeros(len - |Trim(s)|) == Clean(s) && Trim(Clean(s)) == Trim(s)
  {
    TrimClean(s);
  }

  lemma TrimClean(s: seq<Byte>)
    ensures Trim(Clean(s)) == Trim(s)
  {
    TrimPadded(Trim(s), |s| - |Trim(s)|);
  }

  lemma {:induction false} TrimPadded(s: seq<Byte>, n: nat)
    requires 0 !in s
    ensures Trim(s + Zeros(n)) == s
  {
    if s == [] {
      assert s + Zeros(n) == Zeros(n);
    } else {
      assert (s + Zeros(n))[1..] == s[1..] + Zeros(n);
      TrimPadded(s[1..], n);
    }
  }

  class AggExecutor {
    const g: Grouping
    const aggs: seq<Agg>
    const prev: Stream<Row>
    var groups: map<seq<Byte>, seq<AggState>>
    var groupOrder: seq<seq<Byte>>
    var iterIdx: nat

    ghost predicate Formed() {
      GroupingOk(g) && AggsOk(aggs, g.cols) && InputFits(g.cols, prev.rows)
    }

    /** Groups and accumulators stand for the rows seen so far. */
    ghost predicate Absorbed(rows: seq<Row>)
      requires GroupingOk(g) && AggsOk(aggs, g.cols) && InputFits(g.cols, rows)
      reads this
    {
      && groupOrder == KeysInOrder(g, rows) && (forall k :: k in groups <==> k in groupOrder)
      && forall k :: k in groups ==> StatesFor(groups[k], rows, k)
    }

    ghost predicate StatesFor(states: seq<AggState>, rows: seq<Row>, key: seq<Byte>)
      requires GroupingOk(g) && AggsOk(aggs, g.cols) && InputFits(g.cols, rows)
    {
      |states| == |aggs| && forall i :: 0 <= i < |aggs| ==> states[i] == Fold(aggs[i], g.cols, RowsWith(g, rows, key))
    }

    constructor (g: Grouping, aggs: seq<Agg>, prev: Stream<Row>)
      requires GroupingOk(g) && AggsOk(aggs, g.cols) && InputFits(g.cols, prev.rows)
      ensures Formed() && this.g == g && this.aggs == aggs && this.prev == prev
    {
      this.g, this.aggs, this.prev := g, aggs, prev;
      groups, groupOrder, iterIdx := map[], [], 0;
    }

    /** One input row. */
    method Absorb(row: Row, ghost rows: seq<Row>)
      requires Formed() && InputFits(g.cols, rows) && KeyFits(row, g.cols) && Absorbed(rows)
      modifies this`groups, this`groupOrder
      ensures InputFits(g.cols, rows + [row]) && Absorbed(rows + [row])
    {
      hide GroupKey, Fold, Step, IndexKeys.Fits, RowsWith, KeysInOrder;
      ghost var before := groups;
      var key := MakeGroupKey(g, row);
      OneMore(g, rows, row);
      if key !in groups {
        NewGroup(g, aggs, rows, key);
        groups := groups[key := Blank(|aggs|)];
        groupOrder := groupOrder + [key];
      }
      var states := StepAll(groups[key], row, rows, key);
      groups := groups[key := states];
      forall k | k in groups ensures StatesFor(groups[k], rows + [row], k) {
        assert k != key ==> k in before && groups[k] == before[k] && StatesFor(before[k], rows, k);
        assert k != key ==> RowsWith(g, rows + [row], k) == RowsWith(g, rows, k);
      }
    }

    /** The row's group takes the row into every accumulator. */
    method StepAll(old': seq<AggState>, row: Row, ghost rows: seq<Row>, ghost key: seq<Byte>) returns (states: seq<AggState>)
      requires Formed() && InputFits(g.cols, rows) && KeyFits(row, g.cols) && key == GroupKey(g, row) && StatesFor(old', rows, key)
      ensures InputFits(g.cols, rows + [row]) && StatesFor(states, rows + [row], key)
    {
      hide GroupKey, Fold, Step, IndexKeys.Fits, RowsWith;
      OneMore(g, rows, row);
      states := old';
      for i := 0 to |aggs|
        invariant |states| == |aggs|
        invariant forall j :: i <= j < |aggs| ==> states[j] == old'[j]
        invariant forall j :: 0 <= j < i ==> states[j] == Fold(aggs[j], g.cols, RowsWith(g, rows + [row], key))
      {
        FoldOne(aggs[i], g.cols, RowsWith(g, rows, key), row);
        states := states[i := Step(aggs[i], g.cols, states[i], row)];
      }
    }

    function Blank(n: nat): seq<AggState> {
      seq(n, i => INITIAL)
    }

    /** Reads the whole input, then stands before the first group; without grouping columns there is
        always one group. */
    method BeginTuple()
      requires Formed()
      modifies this`groups, this`groupOrder, this`iterIdx, prev
      ensures iterIdx == 0 && |groupOrder| == |Results(g, prev.rows)| && Ready()
    {
      hide GroupKey, Fold, IndexKeys.Fits, RowsWith, KeysInOrder;
      groups, groupOrder := map[], [];
      prev.BeginTuple();
      NothingYet();
      while !prev.IsEnd()
        invariant Formed() && prev.pos <= |prev.rows| && InputFits(g.cols, prev.rows[..prev.pos]) && Absorbed(prev.rows[..prev.pos])
        decreases |prev.rows| - prev.pos
      {
        assert prev.rows[..prev.pos + 1] == prev.rows[..prev.pos] + [prev.Next()];
        Absorb(prev.Next(), prev.rows[..prev.pos]);
        prev.NextTuple();
      }
      assert prev.rows[..prev.pos] == prev.rows;
      NoGroup(g, aggs, prev.rows);
      assert groupOrder != [] ==> groupOrder[0] in groupOrder && groupOrder[0] in groups;
      assert groups != map[] ==> groupOrder != [];
      if groups == map[] && g.on == [] {
        groups := map[[] := Blank(|aggs|)];
        groupOrder := [[]];
      }
      iterIdx := 0;
    }

    /** Every key of the result has the accumulators of its rows. */
    ghost predicate Ready()
      reads this, prev
    {
      && Formed() && groupOrder == Results(g, prev.rows)
      && forall k :: k in groupOrder ==> k in groups && StatesFor(groups[k], prev.rows, k)
    }

    lemma NothingYet()
      requires Formed() && groups == map[] && groupOrder == []
      ensures InputFits(g.cols, prev.rows[..0]) && Absorbed(prev.rows[..0])
    {
    }

    predicate IsEnd()
      reads this
    {
      iterIdx >= |groupOrder|
    }

    method NextTuple()
      requires Ready()
      modifies this`iterIdx
      ensures Ready() && iterIdx == if old(IsEnd()) then old(iterIdx) else old(iterIdx) + 1
    {
      if iterIdx < |groupOrder| {
        iterIdx := iterIdx + 1;
      }
    }

    /** The output row of the current group: the grouping columns, then the aggregates. */
    method BuildCur() returns (row: seq<Value>)
      requires Ready() && !IsEnd()
      ensures IsResult(g, aggs, prev.rows, groupOrder[iterIdx], row)
    {
      hide GroupKey, Fold, IndexKeys.Fits, RowsWith, KeysInOrder, AggValue, SameGroup, IsAggregate;
      var key := groupOrder[iterIdx];
      var states := groups[key];
      assert key in groupOrder;
      var vals: seq<Value> := [];
      if g.on != [] {
        ghost var first := KeyHasRow(g, prev.rows, key);
        vals := GroupColumns(g, key, prev.rows[first]);
        SharedColumns(g, prev.rows, first, vals);
      }
      row := vals;
      for i := 0 to |aggs|
        invariant |row| == |g.on| + i && row[..|g.on|] == vals
        invariant forall j :: 0 <= j < i ==> row[|g.on| + j] == AggValue(aggs[j], g.cols, states[j])
      {
        row := row + [AggValue(aggs[i], g.cols, states[i])];
      }
      assert forall i :: 0 <= i < |g.on| ==> row[i] == row[..|g.on|][i];
      forall j | 0 <= j < |aggs| ensures IsAggregate(aggs[j], g.cols, RowsWith(g, prev.rows, key), row[|g.on| + j]) {
        AggMeaning(aggs[j], g.cols, RowsWith(g, prev.rows, key));
      }
    }
  }

  // -------------------------------------------------------------------------------------------
  // The output without a word about keys

  /** The rows that agree with a row in all grouping columns, in input order. */
  function GroupOf(g: Grouping, rows: seq<Row>, row: Row): (r: seq<Row>)
    requires GroupingOk(g) && InputFits(g.cols, rows) && KeyFits(row, g.cols)
    ensures InputFits(g.cols, r)
  {
    if rows == [] then [] else
      var n := |rows| - 1;
      GroupOf(g, rows[..n], row) + if SameGroup(g, rows[n], row) then [rows[n]] else []
  }

  /** Place i of the input is the first of its group. */
  ghost predicate StartsGroup(g: Grouping, rows: seq<Row>, i: nat)
    requires GroupingOk(g) && InputFits(g.cols, rows)
  {
    i < |rows| && forall j :: 0 <= j < i ==> !SameGroup(g, rows[j], rows[i])
  }

  /** The places where groups start, in input order. */
  ghost predicate GroupStarts(g: Grouping, rows: seq<Row>, firsts: seq<nat>)
    requires GroupingOk(g) && InputFits(g.cols, rows)
  {
    && (forall j, k :: 0 <= j < k < |firsts| ==> firsts[j] < firsts[k])
    && (forall i: nat :: i in firsts <==> StartsGroup(g, rows, i))
  }

  /** An output row: the grouping columns of the group's first row, and the textbook value of every
      aggregate over the rows of the group. */
  ghost predicate IsGroupRow(g: Grouping, aggs: seq<Agg>, rows: seq<Row>, first: nat, row: seq<Value>)
    requires GroupingOk(g) && AggsOk(aggs, g.cols) && InputFits(g.cols, rows)
  {
    && first < |rows| && |row| == |g.on| + |aggs| && (forall i :: 0 <= i < |g.on| ==> row[i] == rows[first][g.on[i]])
    && (forall j :: 0 <= j < |aggs| ==> IsAggregate(aggs[j], g.cols, GroupOf(g, rows, rows[first]), row[|g.on| + j]))
  }

  lemma {:induction false} GroupOfKey(g: Grouping, rows: seq<Row>, row: Row)
    requires GroupingOk(g) && InputFits(g.cols, rows) && KeyFits(row, g.cols)
    ensures RowsWith(g, rows, GroupKey(g, row)) == GroupOf(g, rows, row)
  {
    hide GroupKey, SameGroup, IndexKeys.Fits;
    if rows != [] {
      var n := |rows| - 1;
      KeysEqual(g, rows[n], row);
      GroupOfKey(g, rows[..n], row);
    }
  }

  lemma FirstStarts(g: Grouping, rows: seq<Row>, i: nat)
    requires GroupingOk(g) && InputFits(g.cols, rows) && i < |rows|
    ensures IsFirst(g, rows, i) <==> StartsGroup(g, rows, i)
  {
    hide GroupKey, SameGroup, IndexKeys.Fits;
    forall j | 0 <= j < i ensures GroupKey(g, rows[j]) == GroupKey(g, rows[i]) <==> SameGroup(g, rows[j], rows[i]) {
      KeysEqual(g, rows[j], rows[i]);
    }
  }

  lemma KeyStarts(g: Grouping, rows: seq<Row>) returns (firsts: seq<nat>)
    requires GroupingOk(g) && InputFits(g.cols, rows)
    ensures GroupStarts(g, rows, firsts) && |firsts| == |KeysInOrder(g, rows)|
    ensures forall k :: 0 <= k < |firsts| ==> firsts[k] < |rows| && GroupKey(g, rows[firsts[k]]) == KeysInOrder(g, rows)[k]
  {
    hide GroupKey, IndexKeys.Fits, KeysInOrder, SameGroup;
    firsts := FirstAppearance(g, rows);
    var keys := KeysInOrder(g, rows);
    forall i: nat ensures i in firsts <==> StartsGroup(g, rows, i) {
      if i < |rows| {
        FirstStarts(g, rows, i);
        if IsFirst(g, rows, i) {
          assert GroupKey(g, rows[i]) in keys;
          var k :| 0 <= k < |keys| && keys[k] == GroupKey(g, rows[i]);
          assert firsts[k] == i;
        }
      }
    }
  }

  lemma ResultMeans(g: Grouping, aggs: seq<Agg>, rows: seq<Row>, first: nat, row: seq<Value>)
    requires GroupingOk(g) && AggsOk(aggs, g.cols) && InputFits(g.cols, rows) && first < |rows|
    requires IsResult(g, aggs, rows, GroupKey(g, rows[first]), row)
    ensures IsGroupRow(g, aggs, rows, first, row)
  {
    hide GroupKey, IndexKeys.Fits, IsAggregate, RowsWith, GroupOf;
    GroupOfKey(g, rows, rows[first]);
  }

  /** Without grouping columns all rows have the one key. */
  lemma {:induction false} OneGroup(g: Grouping, rows: seq<Row>)
    requires GroupingOk(g) && InputFits(g.cols, rows) && g.on == []
    ensures KeysInOrder(g, rows) == (if rows == [] then [] else [[]]) && RowsWith(g, rows, []) == rows
  {
    hide IndexKeys.Fits, GroupKey;
    if rows != [] {
      var n := |rows| - 1;
      OneGroup(g, rows[..n]);
      NoKey(g, rows[n]);
      assert rows == rows[..n] + [rows[n]];
    }
  }

  lemma NoKey(g: Grouping, row: Row)
    requires GroupingOk(g) && KeyFits(row, g.cols) && g.on == []
    ensures GroupKey(g, row) == []
  {
  }

  /** Running the executor to its end: one row for every group, in order of first appearance; without
      grouping columns, one row for the whole input, be it empty. */
  method Aggregate(x: AggExecutor) returns (out: seq<seq<Value>>, ghost firsts: seq<nat>)
    requires x.Formed()
    modifies x, x.prev
    ensures InputFits(x.g.cols, x.prev.rows)
    ensures x.g.on != [] ==> GroupStarts(x.g, x.prev.rows, firsts) && |out| == |firsts|
    ensures x.g.on != [] ==> forall k :: 0 <= k < |out| ==> IsGroupRow(x.g, x.aggs, x.prev.rows, firsts[k], out[k])
    ensures x.g.on == [] ==> |out| == 1 && |out[0]| == |x.aggs|
    ensures x.g.on == [] ==> forall j :: 0 <= j < |x.aggs| ==> IsAggregate(x.aggs[j], x.g.cols, x.prev.rows, out[0][j])
  {
    hide IsGroupRow, IsAggregate, GroupKey, Fold, IndexKeys.Fits, RowsWith, KeysInOrder, GroupStarts;
    out := Collect(x);
    ghost var rows := x.prev.rows;
    firsts := KeyStarts(x.g, rows);
    if x.g.on == [] {
      OneGroup(x.g, rows);
    } else {
      forall k | 0 <= k < |out| ensures IsGroupRow(x.g, x.aggs, rows, firsts[k], out[k]) {
        ResultMeans(x.g, x.aggs, rows, firsts[k], out[k]);
      }
    }
  }

  method Collect(x: AggExecutor) returns (out: seq<seq<Value>>)
    requires x.Formed()
    modifies x, x.prev
    ensures InputFits(x.g.cols, x.prev.rows) && |out| == |Results(x.g, x.prev.rows)|
    ensures forall k :: 0 <= k < |out| ==> IsResult(x.g, x.aggs, x.prev.rows, Results(x.g, x.prev.rows)[k], out[k])
  {
    hide IsResult, Results, GroupKey, Fold, IndexKeys.Fits, RowsWith, KeysInOrder;
    x.BeginTuple();
    out := [];
    while !x.IsEnd()
      invariant x.Ready() && |out| == x.iterIdx <= |x.groupOrder|
      invariant forall k :: 0 <= k < |out| ==> IsResult(x.g, x.aggs, x.prev.rows, x.groupOrder[k], out[k])
      decreases |x.groupOrder| - x.iterIdx
    {
      var row := x.BuildCur();
      out := out + [row];
      x.NextTuple();
    }
  }
}
