/**
  The byte difference of two row images as a list of ranges, and what putting the new (or old)
  bytes of those ranges into the other image gives.
  */
module LogDelta {
  import opened Sequences

  const MAX_RANGES := 8
  const MERGE_GAP := 8

  /** Bytes start up to but not including end. */
  datatype Run = Run(start: nat, end: nat)

  // -------------------------------------------------------------------------------------------
  // The ranges a difference consists of, in terms of which bytes differ

  function Marks(a: seq<Byte>, b: seq<Byte>): (d: seq<bool>)
    requires |a| == |b|
    ensures |d| == |a| && forall i :: 0 <= i < |a| ==> d[i] == (a[i] != b[i])
  {
    seq(|a|, i requires 0 <= i < |a| => a[i] != b[i])
  }

  /** Eight positions without a mark. */
  ghost predicate Clear(d: seq<bool>, p: int) {
    0 <= p && p + MERGE_GAP <= |d| && forall k :: p <= k < p + MERGE_GAP ==> !d[k]
  }

  /** A range begins and ends on a mark and holds no eight positions in a row without one. */
  ghost predicate RunOk(d: seq<bool>, r: Run) {
    && r.start < r.end <= |d| && d[r.start] && d[r.end - 1]
    && forall p :: r.start <= p <= r.end - MERGE_GAP ==> !Clear(d, p)
  }

  ghost predicate Covered(rs: seq<Run>, k: int) {
    exists i :: 0 <= i < |rs| && rs[i].start <= k < rs[i].end
  }

  /** Ranges from position `from` on, in order and at least eight apart, that cover every mark. */
  ghost predicate IsDiff(d: seq<bool>, from: nat, rs: seq<Run>) {
    && (forall i :: 0 <= i < |rs| ==> from <= rs[i].start && RunOk(d, rs[i]))
    && (forall i, j :: 0 <= i < j < |rs| ==> rs[i].end + MERGE_GAP <= rs[j].start)
    && (forall k :: from <= k < |d| && d[k] ==> Covered(rs, k))
  }

  /** The first mark from i on, or the length. */
  function NextDiff(d: seq<bool>, i: nat): (m: nat)
    requires i <= |d|
    ensures i <= m <= |d| && (m < |d| ==> d[m])
    ensures forall k :: i <= k < m ==> !d[k]
    decreases |d| - i
  {
    if i == |d| || d[i] then i else NextDiff(d, i + 1)
  }

  /** Where a range that reaches up to e, just past a mark, ends. */
  function RunEnd(d: seq<bool>, e: nat): (r: nat)
    requires 0 < e <= |d| && d[e - 1]
    ensures e <= r <= |d| && d[r - 1]
    decreases |d| - e
  {
    var m := NextDiff(d, e);
    if m < |d| && m < e + MERGE_GAP then RunEnd(d, m + 1) else e
  }

  function Runs(d: seq<bool>, from: nat): (rs: seq<Run>)
    requires from <= |d|
    ensures forall i :: 0 <= i < |rs| ==> rs[i].start <= rs[i].end <= |d|
    decreases |d| - from
  {
    var s := NextDiff(d, from);
    if s == |d| then [] else
      var e := RunEnd(d, s + 1);
      [Run(s, e)] + Runs(d, e)
  }

  /** Inside a range there are no eight clear positions; after it there are, or the end comes first. */
  lemma {:induction false} RunEndGaps(d: seq<bool>, e: nat)
    requires 0 < e <= |d| && d[e - 1]
    ensures forall p :: e - 1 <= p <= RunEnd(d, e) - MERGE_GAP ==> !Clear(d, p)
    ensures forall k :: RunEnd(d, e) <= k < RunEnd(d, e) + MERGE_GAP && k < |d| ==> !d[k]
    decreases |d| - e
  {
    var m := NextDiff(d, e);
    if m < |d| && m < e + MERGE_GAP {
      RunEndGaps(d, m + 1);
      forall p | e - 1 <= p <= RunEnd(d, e) - MERGE_GAP ensures !Clear(d, p) {
        if p < m {
          assert d[if p == e - 1 then p else m];
        }
      }
    }
  }

  lemma RunHere(d: seq<bool>, s: nat)
    requires s < |d| && d[s]
    ensures RunOk(d, Run(s, RunEnd(d, s + 1)))
    ensures forall k :: RunEnd(d, s + 1) <= k < RunEnd(d, s + 1) + MERGE_GAP && k < |d| ==> !d[k]
  {
    hide Clear, RunEnd;
    RunEndGaps(d, s + 1);
  }

  lemma {:induction false} RunsIsDiff(d: seq<bool>, from: nat)
    requires from <= |d|
    ensures IsDiff(d, from, Runs(d, from))
    decreases |d| - from
  {
    hide RunOk, RunEnd, NextDiff, IsDiff;
    var s := NextDiff(d, from);
    if s < |d| {
      var e := RunEnd(d, s + 1);
      RunHere(d, s);
      RunsIsDiff(d, e);
      DiffCons(d, from, Run(s, e), Runs(d, e));
    } else {
      NoDiff(d, from);
    }
  }

  lemma NoDiff(d: seq<bool>, from: nat)
    requires from <= |d| && NextDiff(d, from) == |d|
    ensures IsDiff(d, from, [])
  {
    hide NextDiff, RunOk, Covered;
  }

  lemma DiffCons(d: seq<bool>, from: nat, r: Run, rest: seq<Run>)
    requires from <= r.start && RunOk(d, r) && IsDiff(d, r.end, rest)
    requires forall k :: from <= k < r.start && k < |d| ==> !d[k]
    requires forall k :: r.end <= k < r.end + MERGE_GAP && k < |d| ==> !d[k]
    ensures IsDiff(d, from, [r] + rest)
  {
    hide Covered, RunOk;
    var rs := [r] + rest;
    RunMarks(d, r);
    forall i | 0 <= i < |rest| ensures r.end + MERGE_GAP <= rest[i].start && rs[i + 1] == rest[i] {
      RunMarks(d, rest[i]);
    }
    forall k | from <= k < |d| && d[k] ensures Covered(rs, k) {
      CoveredCons(r, rest, k);
    }
    OrderCons(r, rest);
  }

  lemma RunMarks(d: seq<bool>, r: Run)
    requires RunOk(d, r)
    ensures r.start < r.end <= |d| && d[r.start] && d[r.end - 1]
  {
  }

  lemma CoveredCons(r: Run, rest: seq<Run>, k: int)
    ensures r.start <= k < r.end || Covered(rest, k) ==> Covered([r] + rest, k)
  {
    var rs := [r] + rest;
    if Covered(rest, k) {
      var i :| 0 <= i < |rest| && rest[i].start <= k < rest[i].end;
      assert rs[i + 1].start <= k < rs[i + 1].end;
    } else {
      assert rs[0] == r;
    }
  }

  lemma OrderCons(r: Run, rest: seq<Run>)
    requires forall i :: 0 <= i < |rest| ==> r.end + MERGE_GAP <= rest[i].start
    requires forall i, j :: 0 <= i < j < |rest| ==> rest[i].end + MERGE_GAP <= rest[j].start
    ensures var rs := [r] + rest; forall i, j :: 0 <= i < j < |rs| ==> rs[i].end + MERGE_GAP <= rs[j].start
  {
    var rs := [r] + rest;
    assert forall j :: 0 < j < |rs| ==> rs[j] == rest[j - 1];
  }

  /** There is only one such list of ranges. */
  lemma {:induction false} DiffUnique(d: seq<bool>, from: nat, rs: seq<Run>)
    requires from <= |d| && IsDiff(d, from, rs)
    ensures rs == Runs(d, from)
    decreases |d| - from
  {
    hide Clear, RunEnd, Covered;
    var s := NextDiff(d, from);
    if s == |d| {
      assert rs == [] by {
        if rs != [] { NoRun(d, from, rs); }
      }
    } else {
      FirstRun(d, from, rs);
      DiffRest(d, from, rs);
      DiffUnique(d, rs[0].end, rs[1..]);
      assert rs == [rs[0]] + rs[1..];
    }
  }

  lemma NoRun(d: seq<bool>, from: nat, rs: seq<Run>)
    requires from <= |d| && IsDiff(d, from, rs) && rs != []
    ensures NextDiff(d, from) < |d|
  {
    hide Clear, Covered;
    assert RunOk(d, rs[0]);
  }

  lemma DiffRest(d: seq<bool>, from: nat, rs: seq<Run>)
    requires from <= |d| && IsDiff(d, from, rs) && rs != []
    ensures from < rs[0].end <= |d| && IsDiff(d, rs[0].end, rs[1..])
  {
    hide RunOk;
    var rest, e := rs[1..], rs[0].end;
    RunBounds(d, rs[0]);
    assert forall i :: 0 <= i < |rest| ==> rest[i] == rs[i + 1];
    assert forall i :: 0 <= i < |rest| ==> e + MERGE_GAP <= rest[i].start;
    forall k | e <= k < |d| && d[k] ensures Covered(rest, k) {
      assert Covered(rs, k);
      var i :| 0 <= i < |rs| && rs[i].start <= k < rs[i].end;
      assert rest[i - 1].start <= k < rest[i - 1].end;
    }
  }

  lemma RunBounds(d: seq<bool>, r: Run)
    requires RunOk(d, r)
    ensures r.start < r.end <= |d| && d[r.start] && d[r.end - 1]
  {
    hide Clear;
  }

  ghost predicate StartsWith(d: seq<bool>, from: nat, rs: seq<Run>)
    requires from <= |d| && NextDiff(d, from) < |d|
  {
    rs != [] && rs[0] == Run(NextDiff(d, from), RunEnd(d, NextDiff(d, from) + 1))
  }

  lemma FirstRun(d: seq<bool>, from: nat, rs: seq<Run>)
    requires from <= |d| && NextDiff(d, from) < |d| && IsDiff(d, from, rs)
    ensures StartsWith(d, from, rs)
  {
    hide IsDiff, RunOk, RunEnd, NextDiff;
    var s := NextDiff(d, from);
    FirstStart(d, from, rs);
    var x, e := rs[0].end, RunEnd(d, s + 1);
    RunHere(d, s);
    if x < e {
      InsideRun(d, s + 1, x);
      var k :| x <= k < x + MERGE_GAP && k < |d| && d[k];
      StopBefore(d, from, rs, k);
    } else {
      BeyondEnd(d, e, rs[0]);
    }
  }

  lemma FirstStart(d: seq<bool>, from: nat, rs: seq<Run>)
    requires from <= |d| && IsDiff(d, from, rs) && NextDiff(d, from) < |d|
    ensures rs != [] && rs[0].start == NextDiff(d, from) && rs[0].end > NextDiff(d, from)
    ensures from <= rs[0].start && RunOk(d, rs[0])
  {
    hide Clear;
    var s := NextDiff(d, from);
    assert Covered(rs, s);
    var i :| 0 <= i < |rs| && rs[i].start <= s < rs[i].end;
    assert RunOk(d, rs[i]) && RunOk(d, rs[0]);
  }

  /** A range does not stop less than eight positions before another mark. */
  lemma StopBefore(d: seq<bool>, from: nat, rs: seq<Run>, k: nat)
    requires IsDiff(d, from, rs) && rs != [] && from <= rs[0].start && rs[0].end <= k < |d| && d[k] && rs[0].start < rs[0].end
    ensures rs[0].end + MERGE_GAP <= k
  {
    hide RunOk;
    assert Covered(rs, k);
    var j :| 0 <= j < |rs| && rs[j].start <= k < rs[j].end;
    assert j > 0;
  }

  /** Nor does it reach past eight clear positions. */
  lemma BeyondEnd(d: seq<bool>, e: nat, r: Run)
    requires RunOk(d, r) && r.start < e && forall k :: e <= k < e + MERGE_GAP && k < |d| ==> !d[k]
    ensures r.end <= e
  {
    assert e + MERGE_GAP < r.end ==> Clear(d, e);
  }

  /** A stop inside a range is followed by a mark within reach. */
  lemma {:induction false} InsideRun(d: seq<bool>, e: nat, x: nat)
    requires 0 < e <= |d| && d[e - 1] && e <= x < RunEnd(d, e)
    ensures exists k :: x <= k < x + MERGE_GAP && k < |d| && d[k]
    decreases |d| - e
  {
    var m := NextDiff(d, e);
    if x <= m {
      assert d[m];
    } else {
      InsideRun(d, m + 1, x);
    }
  }

  // -------------------------------------------------------------------------------------------
  // The scanning loops

  function U16(n: int): int
    requires n >= 0
  {
    n % 65536
  }

  /** A range as it is stored: offset and length in 16 bits each. */
  function Stored(r: Run): (int, int)
    requires r.start <= r.end
  {
    (U16(r.start), U16(r.end - r.start))
  }

  /** Scans two images of one length.  The count is -1 exactly when there are more than eight ranges. */
  method WalByteDiff(a: seq<Byte>, b: seq<Byte>) returns (nr: int, out: seq<(int, int)>)
    requires |a| == |b|
    ensures nr == if |Runs(Marks(a, b), 0)| > MAX_RANGES then -1 else |Runs(Marks(a, b), 0)|
    ensures nr >= 0 ==> |out| == nr && forall i :: 0 <= i < nr ==> out[i] == Stored(Runs(Marks(a, b), 0)[i])
  {
    hide RunEnd, U16, Marks;
    var n := |a|;
    ghost var d, done := Marks(a, b), [];
    out := [];
    var i := 0;
    while i < n
      invariant 0 <= i <= n && Runs(d, 0) == done + Runs(d, i)
      invariant |out| == |done| <= MAX_RANGES
      invariant forall k :: 0 <= k < |done| ==> done[k].start <= done[k].end && out[k] == Stored(done[k])
      decreases n - i
    {
      ghost var from := i;
      while i < n && a[i] == b[i]
        invariant from <= i <= n && NextDiff(d, from) == NextDiff(d, i)
      {
        i := i + 1;
      }
      if i >= n {
        break;
      }
      var start := i;
      var end := ScanRun(a, b, i + 1);
      assert Runs(d, from) == [Run(start, end)] + Runs(d, end);
      if |out| >= MAX_RANGES {
        return -1, out;
      }
      out := out + [Stored(Run(start, end))];
      done := done + [Run(start, end)];
      i := end;
    }
    nr := |out|;
  }

  /** Runs over equal bytes up to a limit. */
  method ScanEqual(a: seq<Byte>, b: seq<Byte>, from: nat, limit: nat) returns (look: nat)
    requires |a| == |b| && from <= limit <= |a|
    ensures from <= look <= limit && NextDiff(Marks(a, b), look) == NextDiff(Marks(a, b), from)
    ensures look < limit ==> a[look] != b[look]
  {
    look := from;
    while look < limit && a[look] == b[look]
      invariant from <= look <= limit && NextDiff(Marks(a, b), look) == NextDiff(Marks(a, b), from)
    {
      look := look + 1;
    }
  }

  lemma RunEndStep(d: seq<bool>, e: nat)
    requires 0 < e <= |d| && d[e - 1]
    ensures var m := NextDiff(d, e);
            if m < |d| && m < e + MERGE_GAP then d[m] && RunEnd(d, e) == RunEnd(d, m + 1) else RunEnd(d, e) == e
  {
  }

  lemma NextHere(d: seq<bool>, i: nat)
    requires i < |d| && d[i]
    ensures NextDiff(d, i) == i
  {
  }

  /** The inner loop: swallows equal bytes while a difference follows within eight. */
  method ScanRun(a: seq<Byte>, b: seq<Byte>, e: nat) returns (end: nat)
    requires |a| == |b| && 0 < e <= |a| && a[e - 1] != b[e - 1]
    ensures end == RunEnd(Marks(a, b), e)
  {
    hide Marks, RunEnd, NextDiff;
    ghost var d := Marks(a, b);
    var n := |a|;
    end := e;
    while end < n
      invariant e <= end <= n && d[end - 1] && RunEnd(d, end) == RunEnd(d, e)
      decreases n - end
    {
      RunEndStep(d, end);
      if a[end] != b[end] {
        NextHere(d, end);
        end := end + 1;
        continue;
      }
      var gapEnd := if end + MERGE_GAP < n then end + MERGE_GAP else n;
      var look := ScanEqual(a, b, end, gapEnd);
      if look >= gapEnd {
        return;
      }
      NextHere(d, look);
      end := look + 1;
    }
    RunEndStep(d, end);
  }

  // -------------------------------------------------------------------------------------------
  // Patching one image into the other

  /** Offset, old bytes and new bytes of one range. */
  datatype Range = Range(off: nat, oldBytes: seq<Byte>, newBytes: seq<Byte>)

  function RangesOf(before: seq<Byte>, after: seq<Byte>, rs: seq<Run>): (r: seq<Range>)
    requires |before| == |after| && forall i :: 0 <= i < |rs| ==> rs[i].start <= rs[i].end <= |before|
    ensures |r| == |rs|
    ensures forall i :: 0 <= i < |r| ==> r[i] == Range(rs[i].start, before[rs[i].start..rs[i].end], after[rs[i].start..rs[i].end])
  {
    seq(|rs|, i requires 0 <= i < |rs| => Range(rs[i].start, before[rs[i].start..rs[i].end], after[rs[i].start..rs[i].end]))
  }

  /** Writes bytes over a buffer at an offset; bytes that would pass its end are skipped. */
  function Overwrite(buf: seq<Byte>, off: nat, bytes: seq<Byte>): (r: seq<Byte>)
    ensures |r| == |buf|
  {
    if off + |bytes| > |buf| then buf else buf[..off] + bytes + buf[off + |bytes|..]
  }

  /** Recovery's loop over the ranges of a record, with the new bytes (redo) or the old ones (undo). */
  method Patch(buf: seq<Byte>, ranges: seq<Range>, forward: bool) returns (r: seq<Byte>)
    ensures r == Patched(buf, ranges, forward)
  {
    r := buf;
    for i := 0 to |ranges|
      invariant r == Patched(buf, ranges[..i], forward)
    {
      assert ranges[..i + 1][..i] == ranges[..i];
      r := Overwrite(r, ranges[i].off, if forward then ranges[i].newBytes else ranges[i].oldBytes);
    }
    assert ranges[..|ranges|] == ranges;
  }

  function Patched(buf: seq<Byte>, ranges: seq<Range>, forward: bool): (r: seq<Byte>)
    ensures |r| == |buf|
  {
    if ranges == [] then buf else
      var last := ranges[|ranges| - 1];
      Overwrite(Patched(buf, ranges[..|ranges| - 1], forward), last.off, if forward then last.newBytes else last.oldBytes)
  }

  lemma CoveredSnoc(rs: seq<Run>, n: nat, k: int)
    requires 0 < n <= |rs|
    ensures Covered(rs[..n], k) <==> Covered(rs[..n - 1], k) || rs[n - 1].start <= k < rs[n - 1].end
  {
    if Covered(rs[..n - 1], k) {
      var i :| 0 <= i < |rs[..n - 1]| && rs[..n - 1][i].start <= k < rs[..n - 1][i].end;
      assert rs[..n][i].start <= k < rs[..n][i].end;
    }
    if rs[n - 1].start <= k < rs[n - 1].end {
      assert rs[..n][n - 1].start <= k < rs[..n][n - 1].end;
    }
    if Covered(rs[..n], k) {
      var i :| 0 <= i < |rs[..n]| && rs[..n][i].start <= k < rs[..n][i].end;
      assert i < n - 1 ==> rs[..n - 1][i].start <= k < rs[..n - 1][i].end;
    }
  }

  /** Range i of a patch carries, in the direction used, the bytes of the target image. */
  ghost predicate Carries(to: seq<Byte>, r: Run, x: Range, forward: bool) {
    && r.start <= r.end <= |to| && x.off == r.start
    && (if forward then x.newBytes else x.oldBytes) == to[r.start..r.end]
  }

  /** After n ranges, the covered positions hold the target's bytes and the others are untouched. */
  lemma {:induction false} PatchedAt(from: seq<Byte>, to: seq<Byte>, rs: seq<Run>, ranges: seq<Range>, forward: bool, n: nat, k: nat)
    requires |from| == |to| && n <= |rs| == |ranges| && k < |from|
    requires forall i :: 0 <= i < |rs| ==> Carries(to, rs[i], ranges[i], forward)
    ensures Patched(from, ranges[..n], forward)[k] == if Covered(rs[..n], k) then to[k] else from[k]
  {
    hide Covered, Overwrite;
    if n > 0 {
      assert Carries(to, rs[n - 1], ranges[n - 1], forward);
      OverwriteAt(Patched(from, ranges[..n - 1], forward), rs[n - 1].start, to[rs[n - 1].start..rs[n - 1].end], k);
      PatchedAt(from, to, rs, ranges, forward, n - 1, k);
      CoveredSnoc(rs, n, k);
      assert ranges[..n][..n - 1] == ranges[..n - 1];
    } else {
      assert !Covered(rs[..0], k) by { CoveredEmpty(rs, k); }
    }
  }

  lemma OverwriteAt(buf: seq<Byte>, off: nat, bytes: seq<Byte>, k: nat)
    requires off + |bytes| <= |buf| && k < |buf|
    ensures Overwrite(buf, off, bytes)[k] == if off <= k < off + |bytes| then bytes[k - off] else buf[k]
  {
  }

  lemma CoveredEmpty(rs: seq<Run>, k: int)
    ensures !Covered(rs[..0], k)
  {
  }

  lemma PatchTurns(from: seq<Byte>, to: seq<Byte>, rs: seq<Run>, ranges: seq<Range>, forward: bool)
    requires |from| == |to| && |rs| == |ranges|
    requires forall i :: 0 <= i < |rs| ==> Carries(to, rs[i], ranges[i], forward)
    requires forall k :: 0 <= k < |from| && from[k] != to[k] ==> Covered(rs, k)
    ensures Patched(from, ranges, forward) == to
  {
    hide Covered, Patched, Carries;
    assert rs[..|rs|] == rs && ranges[..|rs|] == ranges;
    forall k | 0 <= k < |from| ensures Patched(from, ranges, forward)[k] == to[k] {
      PatchedAt(from, to, rs, ranges, forward, |rs|, k);
    }
  }

  /** The new bytes of the ranges turn the old image into the new one, the old bytes turn it back. */
  lemma DeltaPatches(before: seq<Byte>, after: seq<Byte>)
    requires |before| == |after|
    ensures var ranges := RangesOf(before, after, Runs(Marks(before, after), 0));
            Patched(before, ranges, true) == after && Patched(after, ranges, false) == before
  {
    hide Covered, Patched, RunOk, Runs;
    var rs := Runs(Marks(before, after), 0);
    RunsIsDiff(Marks(before, after), 0);
    var ranges := RangesOf(before, after, rs);
    PatchTurns(before, after, rs, ranges, true);
    PatchTurns(after, before, rs, ranges, false);
  }
}
