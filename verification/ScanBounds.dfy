/**
  Rows, conditions and the key bounds an index scan derives from its conditions: equality on a
  prefix of the index columns, then the tightest range on the next column.
  */
module ScanBounds {
  import opened Sequences
  import opened Options
  import opened IndexKeys

  datatype CompOp = EQ | NE | LT | GT | LE | GE

  datatype Rhs = Const(value: Value) | ColumnRef(col: nat)

  datatype Cond = Cond(lhs: nat, op: CompOp, rhs: Rhs)

  /** A condition compares a column with a constant of its type or with a column of the same type. */
  predicate CondOk(c: Cond, cols: seq<Column>) {
    c.lhs < |cols| &&
    match c.rhs
    case Const(v) => Fits(v, cols[c.lhs])
    case ColumnRef(k) => k < |cols| && cols[k] == cols[c.lhs]
  }

  predicate CondsOk(conds: seq<Cond>, cols: seq<Column>) {
    forall i :: 0 <= i < |conds| ==> CondOk(conds[i], cols)
  }

  /** What a comparison sign means for an operator. */
  predicate OpHolds(op: CompOp, sign: int) {
    match op
    case EQ => sign == 0
    case NE => sign != 0
    case LT => sign < 0
    case GT => sign > 0
    case LE => sign <= 0
    case GE => sign >= 0
  }

  predicate Holds(c: Cond, row: Row, cols: seq<Column>)
    requires CondOk(c, cols) && KeyFits(row, cols)
  {
    var rhs := match c.rhs case Const(v) => v case ColumnRef(k) => row[k];
    OpHolds(c.op, CompareColumn(row[c.lhs], rhs, cols[c.lhs]))
  }

  /** A row satisfies a conjunction. */
  predicate Satisfies(conds: seq<Cond>, row: Row, cols: seq<Column>)
    requires CondsOk(conds, cols) && KeyFits(row, cols)
  {
    forall i :: 0 <= i < |conds| ==> Holds(conds[i], row, cols)
  }

  method EvalConds(conds: seq<Cond>, row: Row, cols: seq<Column>) returns (b: bool)
    requires CondsOk(conds, cols) && KeyFits(row, cols)
    ensures b == Satisfies(conds, row, cols)
  {
    for i := 0 to |conds|
      invariant forall j :: 0 <= j < i ==> Holds(conds[j], row, cols)
    {
      if !Holds(conds[i], row, cols) {
        return false;
      }
    }
    return true;
  }

  // -------------------------------------------------------------------------------------------
  // Keys in order

  /** Two different keys differ first in some column, which orders them. */
  lemma FirstDifference(a: seq<Value>, b: seq<Value>, cols: seq<Column>) returns (i: nat)
    requires KeyFits(a, cols) && KeyFits(b, cols) && a != b
    ensures i < |cols| && a[..i] == b[..i] && a[i] != b[i] && Place(a[i], cols[i]) != Place(b[i], cols[i])
    ensures Rank(a, cols) < Rank(b, cols) <==> Place(a[i], cols[i]) < Place(b[i], cols[i])
    ensures Rank(a, cols) != Rank(b, cols)
  {
    i := 0;
    while i < |cols| && a[i] == b[i]
      invariant i <= |cols| && a[..i] == b[..i]
    {
      i := i + 1;
    }
    assert a[..|cols|] == a && b[..|cols|] == b;
    ColumnOrder(a[i], b[i], cols[i]);
    DecidedAt(a, b, cols, i);
  }

  /** Keys that share a prefix and are ordered in the next column. */
  lemma DecidedBy(a: seq<Value>, b: seq<Value>, cols: seq<Column>, i: nat)
    requires KeyFits(a, cols) && KeyFits(b, cols) && i < |cols| && a[..i] == b[..i]
    requires Place(a[i], cols[i]) < Place(b[i], cols[i])
    ensures Rank(a, cols) < Rank(b, cols)
  {
    DecidedAt(a, b, cols, i);
  }

  /** The type extremes a key is filled up with. */
  predicate IsMin(v: Value, c: Column) {
    Fits(v, c) && Place(v, c) == 0
  }

  predicate IsMax(v: Value, c: Column) {
    Fits(v, c) && Place(v, c) == Width(c) - 1
  }

  /** Filled up with the smallest values, a prefix is not above any key that begins with it. */
  lemma FilledMin(s: seq<Value>, k: seq<Value>, cols: seq<Column>, n: nat)
    requires KeyFits(s, cols) && KeyFits(k, cols) && n <= |cols| && s[..n] == k[..n]
    requires forall j :: n <= j < |cols| ==> IsMin(s[j], cols[j])
    ensures Rank(s, cols) <= Rank(k, cols)
  {
    if s != k {
      var i := FirstDifference(s, k, cols);
      assert forall j :: 0 <= j < n ==> s[j] == s[..n][j] == k[..n][j];
      ColumnOrder(k[i], k[i], cols[i]);
    }
  }

  lemma FilledMax(s: seq<Value>, k: seq<Value>, cols: seq<Column>, n: nat)
    requires KeyFits(s, cols) && KeyFits(k, cols) && n <= |cols| && s[..n] == k[..n]
    requires forall j :: n <= j < |cols| ==> IsMax(s[j], cols[j])
    ensures Rank(k, cols) <= Rank(s, cols)
  {
    if s != k {
      var i := FirstDifference(s, k, cols);
      assert forall j :: 0 <= j < n ==> s[j] == s[..n][j] == k[..n][j];
      ColumnOrder(k[i], k[i], cols[i]);
    }
  }

  function ExtremeBytes(n: nat, b: Byte): (s: seq<Byte>)
    ensures |s| == n
  {
    if n == 0 then [] else [b] + ExtremeBytes(n - 1, b)
  }

  function Extreme(c: Column, wantMax: bool): (v: Value)
    ensures Fits(v, c)
  {
    match c
    case IntColumn => IntValue(if wantMax then INT_MAX else INT_MIN)
    case StringColumn(len) => StringValue(ExtremeBytes(len, if wantMax then 255 else 0))
  }

  lemma {:induction false} ExtremeBytesPlace(n: nat)
    ensures BytePlace(ExtremeBytes(n, 0)) == 0
    ensures BytePlace(ExtremeBytes(n, 255)) == Power256(n) - 1
  {
    if n > 0 {
      ExtremeBytesPlace(n - 1);
      assert ExtremeBytes(n, 0)[1..] == ExtremeBytes(n - 1, 0) && ExtremeBytes(n, 255)[1..] == ExtremeBytes(n - 1, 255);
    }
  }

  lemma ExtremePlace(c: Column)
    ensures IsMin(Extreme(c, false), c) && IsMax(Extreme(c, true), c)
  {
    if c.StringColumn? {
      ExtremeBytesPlace(c.len);
    }
  }

  /** Replaces the values from a column on by extremes of their types. */
  method FillExtremeFrom(key: seq<Value>, cols: seq<Column>, from: nat, wantMax: bool) returns (r: seq<Value>)
    requires KeyFits(key, cols)
    ensures KeyFits(r, cols) && (from <= |cols| ==> r[..from] == key[..from])
    ensures forall j :: from <= j < |cols| ==> if wantMax then IsMax(r[j], cols[j]) else IsMin(r[j], cols[j])
  {
    r := key;
    for i := 0 to |cols|
      invariant KeyFits(r, cols)
      invariant forall j :: 0 <= j < |cols| && (j < from || j >= i) ==> r[j] == key[j]
      invariant forall j :: from <= j < i ==> if wantMax then IsMax(r[j], cols[j]) else IsMin(r[j], cols[j])
    {
      if i >= from {
        ExtremePlace(cols[i]);
        r := r[i := Extreme(cols[i], wantMax)];
      }
    }
  }

  // -------------------------------------------------------------------------------------------
  // The table, its index, and what the conditions say about index columns

  /** Columns of a table and which of them an index covers, in index order. */
  datatype Table = Table(cols: seq<Column>, index: seq<nat>)

  predicate TableOk(t: Table) {
    |t.index| > 0 && forall i :: 0 <= i < |t.index| ==> t.index[i] < |t.cols|
  }

  function KeyCols(t: Table): (c: seq<Column>)
    requires TableOk(t)
    ensures |c| == |t.index|
  {
    seq(|t.index|, i requires 0 <= i < |t.index| => t.cols[t.index[i]])
  }

  function KeyOf(t: Table, row: Row): (k: seq<Value>)
    requires TableOk(t) && KeyFits(row, t.cols)
    ensures KeyFits(k, KeyCols(t))
  {
    seq(|t.index|, i requires 0 <= i < |t.index| => row[t.index[i]])
  }

  function KeyRank(t: Table, row: Row): int
    requires TableOk(t) && KeyFits(row, t.cols)
  {
    Rank(KeyOf(t, row), KeyCols(t))
  }

  predicate IsConstOn(c: Cond, col: nat) {
    c.lhs == col && c.rhs.Const?
  }

  ghost predicate HasEq(conds: seq<Cond>, col: nat, v: Value) {
    exists k :: 0 <= k < |conds| && IsConstOn(conds[k], col) && conds[k].op.EQ? && conds[k].rhs.value == v
  }

  /** Constants that equality conditions give for the leading index columns. */
  ghost predicate IsPrefix(t: Table, conds: seq<Cond>, prefix: seq<Value>) {
    |prefix| <= |t.index| && forall i :: 0 <= i < |prefix| ==> HasEq(conds, t.index[i], prefix[i])
  }

  /** Collects the constants of the leading index columns until one has no equality condition. */
  method AnalyzeConditions(t: Table, conds: seq<Cond>) returns (prefix: seq<Value>)
    requires TableOk(t) && CondsOk(conds, t.cols)
    ensures IsPrefix(t, conds, prefix)
    ensures |prefix| < |t.index| ==> forall v :: !HasEq(conds, t.index[|prefix|], v)
  {
    prefix := [];
    while |prefix| < |t.index|
      invariant IsPrefix(t, conds, prefix)
      decreases |t.index| - |prefix|
    {
      var col := t.index[|prefix|];
      var k := 0;
      while k < |conds| && !(conds[k].rhs.Const? && conds[k].op.EQ? && conds[k].lhs == col)
        invariant 0 <= k <= |conds|
        invariant forall j :: 0 <= j < k && IsConstOn(conds[j], col) ==> !conds[j].op.EQ?
      {
        k := k + 1;
      }
      if k == |conds| {
        break;
      }
      assert HasEq(conds, col, conds[k].rhs.value);
      prefix := prefix + [conds[k].rhs.value];
    }
  }

  datatype Bound = Bound(value: Value, inclusive: bool)

  predicate IsLowerOn(c: Cond, col: nat) { IsConstOn(c, col) && (c.op.GT? || c.op.GE?) }

  predicate IsUpperOn(c: Cond, col: nat) { IsConstOn(c, col) && (c.op.LT? || c.op.LE?) }

  /** The bound is the constant of one of the conditions, and none of them has a tighter constant. */
  ghost predicate LowerIs(conds: seq<Cond>, cols: seq<Column>, col: nat, n: nat, b: Option<Bound>)
    requires CondsOk(conds, cols) && col < |cols| && n <= |conds|
  {
    match b
    case None => forall k :: 0 <= k < n ==> !IsLowerOn(conds[k], col)
    case Some(x) =>
      && Fits(x.value, cols[col])
      && (exists k :: 0 <= k < n && IsLowerOn(conds[k], col) && conds[k].rhs.value == x.value && conds[k].op.GE? == x.inclusive)
      && forall k :: 0 <= k < n && IsLowerOn(conds[k], col) ==> Place(conds[k].rhs.value, cols[col]) <= Place(x.value, cols[col])
  }

  ghost predicate UpperIs(conds: seq<Cond>, cols: seq<Column>, col: nat, n: nat, b: Option<Bound>)
    requires CondsOk(conds, cols) && col < |cols| && n <= |conds|
  {
    match b
    case None => forall k :: 0 <= k < n ==> !IsUpperOn(conds[k], col)
    case Some(x) =>
      && Fits(x.value, cols[col])
      && (exists k :: 0 <= k < n && IsUpperOn(conds[k], col) && conds[k].rhs.value == x.value && conds[k].op.LE? == x.inclusive)
      && forall k :: 0 <= k < n && IsUpperOn(conds[k], col) ==> Place(x.value, cols[col]) <= Place(conds[k].rhs.value, cols[col])
  }

  /** The loop over the conditions on one column that keeps the tightest bounds. */
  method RangeBounds(conds: seq<Cond>, cols: seq<Column>, col: nat) returns (lower: Option<Bound>, upper: Option<Bound>)
    requires CondsOk(conds, cols) && col < |cols|
    ensures LowerIs(conds, cols, col, |conds|, lower) && UpperIs(conds, cols, col, |conds|, upper)
  {
    lower, upper := None, None;
    for i := 0 to |conds|
      invariant LowerIs(conds, cols, col, i, lower) && UpperIs(conds, cols, col, i, upper)
    {
      var c := conds[i];
      if c.rhs.Const? && c.lhs == col {
        var v := c.rhs.value;
        if c.op.GT? || c.op.GE? {
          if lower.Some? {
            ColumnOrder(v, lower.value.value, cols[col]);
          }
          if lower.None? || CompareColumn(v, lower.value.value, cols[col]) > 0 {
            lower := Some(Bound(v, c.op.GE?));
          }
        } else if c.op.LT? || c.op.LE? {
          if upper.Some? {
            ColumnOrder(v, upper.value.value, cols[col]);
          }
          if upper.None? || CompareColumn(v, upper.value.value, cols[col]) < 0 {
            upper := Some(Bound(v, c.op.LE?));
          }
        }
      }
    }
  }

  // -------------------------------------------------------------------------------------------
  // The key range of a scan

  /** Where a scan starts and stops: at the tree's ends or at the bound of a key.  A strict bound is
      the first key not below the given one, the other kind the first key above it. */
  datatype KeyRange = KeyRange(
    fromBegin: bool, startKey: seq<Value>, startStrict: bool,
    toEnd: bool, endKey: seq<Value>, endStrict: bool,
    empty: bool)

  /** A key lies before a bound. */
  predicate Before(x: int, bound: int, strict: bool) {
    if strict then x < bound else x <= bound
  }

  predicate Contradict(lower: Bound, upper: Bound, c: Column)
    requires Fits(lower.value, c) && Fits(upper.value, c)
  {
    Place(lower.value, c) > Place(upper.value, c) ||
    (Place(lower.value, c) == Place(upper.value, c) && !(lower.inclusive && upper.inclusive))
  }

  /** What the bounds ask of the column after the prefix. */
  predicate WithinBounds(v: Value, lower: Option<Bound>, upper: Option<Bound>, c: Column)
    requires Fits(v, c)
    requires (lower.Some? ==> Fits(lower.value.value, c)) && (upper.Some? ==> Fits(upper.value.value, c))
  {
    && (lower.Some? ==> Place(lower.value.value, c) < Place(v, c) || (lower.value.inclusive && Place(lower.value.value, c) == Place(v, c)))
    && (upper.Some? ==> Place(v, c) < Place(upper.value.value, c) || (upper.value.inclusive && Place(upper.value.value, c) == Place(v, c)))
  }

  /** Keys with the prefix and within the bounds. */
  predicate Wanted(k: seq<Value>, cols: seq<Column>, prefix: seq<Value>, lower: Option<Bound>, upper: Option<Bound>)
    requires KeyFits(k, cols) && |prefix| <= |cols| && BoundsFit(cols, |prefix|, lower, upper)
  {
    && k[..|prefix|] == prefix
    && (|prefix| < |cols| ==> WithinBounds(k[|prefix|], lower, upper, cols[|prefix|]))
  }

  predicate BoundsFit(cols: seq<Column>, n: nat, lower: Option<Bound>, upper: Option<Bound>) {
    && (lower.Some? ==> n < |cols| && Fits(lower.value.value, cols[n]))
    && (upper.Some? ==> n < |cols| && Fits(upper.value.value, cols[n]))
  }

  /** The range starts at the prefix, holds every wanted key, and does not run backwards. */
  ghost predicate RangeOk(r: KeyRange, cols: seq<Column>, prefix: seq<Value>, lower: Option<Bound>, upper: Option<Bound>)
    requires |prefix| <= |cols| && BoundsFit(cols, |prefix|, lower, upper)
  {
    && KeyFits(r.startKey, cols) && KeyFits(r.endKey, cols)
    && (prefix != [] ==> !r.fromBegin && r.startKey[..|prefix|] == prefix)
    && (r.empty <==> lower.Some? && upper.Some? && Contradict(lower.value, upper.value, cols[|prefix|]))
    && (forall k :: KeyFits(k, cols) && Wanted(k, cols, prefix, lower, upper) ==>
          && !r.empty
          && (r.fromBegin || !Before(Rank(k, cols), Rank(r.startKey, cols), r.startStrict))
          && (r.toEnd || Before(Rank(k, cols), Rank(r.endKey, cols), r.endStrict)))
    && (!r.empty && !r.fromBegin && !r.toEnd ==>
          forall x :: Before(x, Rank(r.startKey, cols), r.startStrict) ==> Before(x, Rank(r.endKey, cols), r.endStrict))
  }

  function ZeroValue(c: Column): (v: Value)
    ensures Fits(v, c)
  {
    match c
    case IntColumn => IntValue(0)
    case StringColumn(len) => StringValue(ExtremeBytes(len, 0))
  }

  /** A key buffer of zero bytes with the prefix written at its front. */
  function PrefixKey(prefix: seq<Value>, cols: seq<Column>): (k: seq<Value>)
    requires |prefix| <= |cols| && forall i :: 0 <= i < |prefix| ==> Fits(prefix[i], cols[i])
    ensures KeyFits(k, cols) && k[..|prefix|] == prefix
  {
    seq(|cols|, i requires 0 <= i < |cols| => if i < |prefix| then prefix[i] else ZeroValue(cols[i]))
  }

  /** The start and end keys of a scan and the guard for crossed bounds. */
  method BuildRange(cols: seq<Column>, prefix: seq<Value>, lower: Option<Bound>, upper: Option<Bound>) returns (r: KeyRange)
    requires |prefix| <= |cols| && (forall i :: 0 <= i < |prefix| ==> Fits(prefix[i], cols[i]))
    requires BoundsFit(cols, |prefix|, lower, upper)
    ensures RangeOk(r, cols, prefix, lower, upper)
  {
    hide Rank, Fits, Place, IsMin, IsMax;
    var n := |prefix|;
    var start, startStrict := StartKey(cols, prefix, lower);
    var end, endStrict, toEnd := EndKey(cols, prefix, upper);
    r := KeyRange(lower.None? && prefix == [], start, startStrict, toEnd, end, endStrict, false);
    if lower.Some? && upper.Some? {
      var kc := CompareKeys(start, end, cols);
      GuardExact(cols, prefix, lower.value, upper.value, start, end);
      r := r.(empty := kc > 0 || (kc == 0 && !(lower.value.inclusive && upper.value.inclusive)));
    } else if !r.fromBegin && !r.toEnd {
      StartNotAfterEnd(cols, prefix, start, end);
    }
    forall k | KeyFits(k, cols) && Wanted(k, cols, prefix, lower, upper)
      ensures r.fromBegin || !Before(Rank(k, cols), Rank(start, cols), startStrict)
      ensures r.toEnd || Before(Rank(k, cols), Rank(end, cols), endStrict)
    {
      WantedAfterStart(k, cols, prefix, lower, upper, start, startStrict);
      WantedBeforeEnd(k, cols, prefix, lower, upper, end, endStrict, toEnd);
    }
  }

  /** How the start key is filled: the lower bound, then minima (or maxima, to skip the bound itself). */
  ghost predicate IsStart(start: seq<Value>, strict: bool, cols: seq<Column>, prefix: seq<Value>, lower: Option<Bound>) {
    && KeyFits(start, cols) && |prefix| <= |cols| && start[..|prefix|] == prefix
    && match lower
       case None => strict && forall j :: |prefix| <= j < |cols| ==> IsMin(start[j], cols[j])
       case Some(b) =>
         && |prefix| < |cols| && start[|prefix|] == b.value && strict == b.inclusive
         && forall j :: |prefix| < j < |cols| ==> if b.inclusive then IsMin(start[j], cols[j]) else IsMax(start[j], cols[j])
  }

  method StartKey(cols: seq<Column>, prefix: seq<Value>, lower: Option<Bound>) returns (start: seq<Value>, strict: bool)
    requires |prefix| <= |cols| && (forall i :: 0 <= i < |prefix| ==> Fits(prefix[i], cols[i]))
    requires BoundsFit(cols, |prefix|, lower, None)
    ensures IsStart(start, strict, cols, prefix, lower)
  {
    hide Fits, IsMin, IsMax;
    var n := |prefix|;
    start, strict := PrefixKey(prefix, cols), true;
    if lower.Some? {
      start := start[n := lower.value.value];
      strict := lower.value.inclusive;
      start := FillExtremeFrom(start, cols, n + 1, !strict);
      assert start[..n] == start[..n + 1][..n] && start[n] == start[..n + 1][n];
    } else {
      start := FillExtremeFrom(start, cols, n, false);
    }
  }

  ghost predicate IsEnd(end: seq<Value>, strict: bool, toEnd: bool, cols: seq<Column>, prefix: seq<Value>, upper: Option<Bound>) {
    && KeyFits(end, cols) && |prefix| <= |cols| && end[..|prefix|] == prefix
    && match upper
       case None => if toEnd then |prefix| < |cols| else |prefix| == |cols| && !strict
       case Some(b) =>
         && !toEnd && |prefix| < |cols| && end[|prefix|] == b.value && strict == !b.inclusive
         && forall j :: |prefix| < j < |cols| ==> if b.inclusive then IsMax(end[j], cols[j]) else IsMin(end[j], cols[j])
  }

  method EndKey(cols: seq<Column>, prefix: seq<Value>, upper: Option<Bound>) returns (end: seq<Value>, strict: bool, toEnd: bool)
    requires |prefix| <= |cols| && (forall i :: 0 <= i < |prefix| ==> Fits(prefix[i], cols[i]))
    requires BoundsFit(cols, |prefix|, None, upper)
    ensures IsEnd(end, strict, toEnd, cols, prefix, upper)
  {
    hide Fits, IsMin, IsMax;
    var n := |prefix|;
    end, strict, toEnd := PrefixKey(prefix, cols), false, false;
    if upper.Some? {
      end := end[n := upper.value.value];
      strict := !upper.value.inclusive;
      end := FillExtremeFrom(end, cols, n + 1, upper.value.inclusive);
      assert end[..n] == end[..n + 1][..n] && end[n] == end[..n + 1][n];
    } else {
      toEnd := n != |cols|;
    }
  }

  lemma WantedAfterStart(k: seq<Value>, cols: seq<Column>, prefix: seq<Value>, lower: Option<Bound>, upper: Option<Bound>,
                         start: seq<Value>, strict: bool)
    requires KeyFits(k, cols) && |prefix| <= |cols| && BoundsFit(cols, |prefix|, lower, upper)
    requires Wanted(k, cols, prefix, lower, upper) && IsStart(start, strict, cols, prefix, lower)
    ensures !Before(Rank(k, cols), Rank(start, cols), strict)
  {
    hide Rank, Fits, IsMin, IsMax;
    var n := |prefix|;
    if lower.None? {
      FilledMin(start, k, cols, n);
    } else {
      ColumnOrder(k[n], start[n], cols[n]);
      if Place(start[n], cols[n]) < Place(k[n], cols[n]) {
        DecidedBy(start, k, cols, n);
      } else {
        assert start[..n + 1] == start[..n] + [start[n]] && k[..n + 1] == k[..n] + [k[n]];
        FilledMin(start, k, cols, n + 1);
      }
    }
  }

  lemma WantedBeforeEnd(k: seq<Value>, cols: seq<Column>, prefix: seq<Value>, lower: Option<Bound>, upper: Option<Bound>,
                        end: seq<Value>, strict: bool, toEnd: bool)
    requires KeyFits(k, cols) && |prefix| <= |cols| && BoundsFit(cols, |prefix|, lower, upper)
    requires Wanted(k, cols, prefix, lower, upper) && IsEnd(end, strict, toEnd, cols, prefix, upper)
    ensures toEnd || Before(Rank(k, cols), Rank(end, cols), strict)
  {
    hide Rank, Fits, IsMin, IsMax;
    var n := |prefix|;
    if upper.Some? {
      ColumnOrder(k[n], end[n], cols[n]);
      if Place(k[n], cols[n]) < Place(end[n], cols[n]) {
        DecidedBy(k, end, cols, n);
      } else {
        assert end[..n + 1] == end[..n] + [end[n]] && k[..n + 1] == k[..n] + [k[n]];
        FilledMax(end, k, cols, n + 1);
      }
    } else if !toEnd {
      assert k[..n] == k && end[..n] == end;
    }
  }

  lemma StartNotAfterEnd(cols: seq<Column>, prefix: seq<Value>, start: seq<Value>, end: seq<Value>)
    requires |prefix| <= |cols| && KeyFits(start, cols) && KeyFits(end, cols)
    requires start[..|prefix|] == prefix == end[..|prefix|]
    ensures (forall j :: |prefix| <= j < |cols| ==> IsMin(start[j], cols[j])) ==> Rank(start, cols) <= Rank(end, cols)
  {
    hide Rank, Fits, IsMin;
    if forall j :: |prefix| <= j < |cols| ==> IsMin(start[j], cols[j]) {
      FilledMin(start, end, cols, |prefix|);
    }
  }

  /** The comparison of the filled keys tells contradictory bounds from the others. */
  lemma GuardExact(cols: seq<Column>, prefix: seq<Value>, lower: Bound, upper: Bound, start: seq<Value>, end: seq<Value>)
    requires |prefix| < |cols| && BoundsFit(cols, |prefix|, Some(lower), Some(upper))
    requires IsStart(start, lower.inclusive, cols, prefix, Some(lower))
    requires IsEnd(end, !upper.inclusive, false, cols, prefix, Some(upper))
    ensures var s, e := Rank(start, cols), Rank(end, cols);
            (s > e || (s == e && !(lower.inclusive && upper.inclusive))) <==> Contradict(lower, upper, cols[|prefix|])
    ensures !Contradict(lower, upper, cols[|prefix|]) ==>
              Rank(start, cols) < Rank(end, cols) || (Rank(start, cols) == Rank(end, cols) && lower.inclusive && upper.inclusive)
  {
    hide Rank, Fits, IsMin, IsMax;
    var n := |prefix|;
    ColumnOrder(start[n], end[n], cols[n]);
    if Place(start[n], cols[n]) < Place(end[n], cols[n]) {
      DecidedBy(start, end, cols, n);
    } else if Place(end[n], cols[n]) < Place(start[n], cols[n]) {
      DecidedBy(end, start, cols, n);
    } else {
      assert start[..n + 1] == start[..n] + [start[n]] && end[..n + 1] == end[..n] + [end[n]];
      if lower.inclusive {
        FilledMin(start, end, cols, n + 1);
      } else {
        FilledMax(start, end, cols, n + 1);
      }
      if upper.inclusive {
        FilledMax(end, start, cols, n + 1);
      } else {
        FilledMin(end, start, cols, n + 1);
      }
    }
  }

  /** Once a key from the start of the range on has left the prefix, so have all greater keys. */
  lemma PrefixLeft(cols: seq<Column>, start: seq<Value>, n: nat, a: seq<Value>, b: seq<Value>)
    requires KeyFits(start, cols) && KeyFits(a, cols) && KeyFits(b, cols) && n <= |cols|
    requires Rank(start, cols) <= Rank(a, cols) <= Rank(b, cols) && a[..n] != start[..n]
    ensures b[..n] != start[..n]
  {
    hide Rank, Fits;
    if b[..n] == start[..n] {
      var i := FirstDifference(start, a, cols);
      FirstInPrefix(start, a, n, i);
      assert b[..i] == b[..n][..i] == start[..n][..i] && b[i] == b[..n][i] == start[..n][i];
      DecidedBy(b, a, cols, i);
    }
  }

  lemma FirstInPrefix(s: seq<Value>, a: seq<Value>, n: nat, i: nat)
    requires |s| == |a| && n <= |s| && i < |s| && s[..i] == a[..i] && a[..n] != s[..n]
    ensures i < n
  {
    assert forall m :: 0 <= m <= i ==> a[..m] == a[..i][..m] && s[..m] == s[..i][..m];
  }
}
