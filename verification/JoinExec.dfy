/** The nested-loop join.  A child executor is the stream of rows it returns. */
module JoinExec {
  import opened IndexKeys
  import opened JoinQuery
  import opened Streams

  // -------------------------------------------------------------------------------------------
  // Nested loops

  lemma {:induction false} ProductNoRows(L: seq<Joined>)
    ensures Product(L, []) == []
  {
    if L != [] {
      ProductNoRows(L[1..]);
    }
  }

  /** The left rows from pos on with all right rows. */
  ghost function Later(s: Schemas, conds: seq<Conjunct>, n: nat, buf: seq<Row>, L: seq<Joined>, pos: nat): seq<Joined>
    requires ConjunctsOk(s, conds) && AllJoined(s, L, n) && TableRowsOk(s, n, buf) && pos <= |L|
  {
    ProductOk(s, L[pos..], buf, n);
    Keep(s, conds, Product(L[pos..], buf))
  }

  /** A left row with the right rows from idx on. */
  ghost function Now(s: Schemas, conds: seq<Conjunct>, cur: Joined, buf: seq<Row>, idx: nat): seq<Joined>
    requires ConjunctsOk(s, conds) && JoinedOk(s, cur) && TableRowsOk(s, |cur|, buf) && idx <= |buf|
  {
    ExtendOk(s, cur, buf[idx..]);
    Keep(s, conds, Extend(cur, buf[idx..]))
  }

  /** What is left to return. */
  ghost function Remaining(s: Schemas, conds: seq<Conjunct>, cur: Joined, buf: seq<Row>, idx: nat, L: seq<Joined>, pos: nat): seq<Joined>
    requires ConjunctsOk(s, conds) && JoinedOk(s, cur) && AllJoined(s, L, |cur|) && TableRowsOk(s, |cur|, buf)
    requires idx <= |buf| && pos <= |L|
  {
    Now(s, conds, cur, buf, idx) + Later(s, conds, |cur|, buf, L, pos)
  }

  lemma RestRowsOk(s: Schemas, n: nat, buf: seq<Row>)
    requires TableRowsOk(s, n, buf)
    ensures forall i :: 0 <= i <= |buf| ==> TableRowsOk(s, n, buf[i..])
  {
  }

  lemma ExtendFirst(cur: Joined, buf: seq<Row>, idx: nat)
    requires idx < |buf|
    ensures Extend(cur, buf[idx..]) == [cur + [buf[idx]]] + Extend(cur, buf[idx + 1..])
    ensures cur + [buf[idx]] in Extend(cur, buf[idx..])
  {
    assert Extend(cur, buf[idx..])[0] == cur + [buf[idx]];
  }

  /** One right row further. */
  lemma RemainingStep(s: Schemas, conds: seq<Conjunct>, cur: Joined, buf: seq<Row>, idx: nat, L: seq<Joined>, pos: nat)
    requires ConjunctsOk(s, conds) && JoinedOk(s, cur) && AllJoined(s, L, |cur|) && TableRowsOk(s, |cur|, buf)
    requires idx < |buf| && pos <= |L|
    ensures JoinedOk(s, cur + [buf[idx]])
    ensures Remaining(s, conds, cur, buf, idx, L, pos) ==
            (if EvalAll(s, conds, cur + [buf[idx]]) then [cur + [buf[idx]]] else []) + Remaining(s, conds, cur, buf, idx + 1, L, pos)
  {
    hide EvalAll, ConjunctsOk, JoinedOk, Now, Later, TableRowsOk, AllJoined;
    NowStep(s, conds, cur, buf, idx);
    var tail, rest := Now(s, conds, cur, buf, idx + 1), Later(s, conds, |cur|, buf, L, pos);
    assert [] + tail == tail && ([cur + [buf[idx]]] + tail) + rest == [cur + [buf[idx]]] + (tail + rest);
  }

  lemma NowStep(s: Schemas, conds: seq<Conjunct>, cur: Joined, buf: seq<Row>, idx: nat)
    requires ConjunctsOk(s, conds) && JoinedOk(s, cur) && TableRowsOk(s, |cur|, buf) && idx < |buf|
    ensures JoinedOk(s, cur + [buf[idx]])
    ensures Now(s, conds, cur, buf, idx) ==
            (if EvalAll(s, conds, cur + [buf[idx]]) then [cur + [buf[idx]]] else []) + Now(s, conds, cur, buf, idx + 1)
  {
    hide EvalAll, ConjunctsOk, JoinedOk, Keep, Extend, TableRowsOk;
    RestRowsOk(s, |cur|, buf);
    ExtendOk(s, cur, buf[idx..]);
    ExtendOk(s, cur, buf[idx + 1..]);
    ExtendFirst(cur, buf, idx);
    KeepOne(s, conds, cur + [buf[idx]], Extend(cur, buf[idx + 1..]));
  }

  /** The next left row. */
  lemma RemainingTurn(s: Schemas, conds: seq<Conjunct>, cur: Joined, buf: seq<Row>, L: seq<Joined>, pos: nat)
    requires ConjunctsOk(s, conds) && JoinedOk(s, cur) && AllJoined(s, L, |cur|) && TableRowsOk(s, |cur|, buf) && pos <= |L|
    ensures pos == |L| ==> Remaining(s, conds, cur, buf, |buf|, L, pos) == []
    ensures pos < |L| ==> JoinedOk(s, L[pos]) && |L[pos]| == |cur|
    ensures pos < |L| ==> Remaining(s, conds, cur, buf, |buf|, L, pos) == Remaining(s, conds, L[pos], buf, 0, L, pos + 1)
  {
    hide EvalAll, ConjunctsOk, JoinedOk;
    assert Extend(cur, buf[|buf|..]) == [];
    if pos < |L| {
      assert L[pos] in L;
      assert L[pos..][1..] == L[pos + 1..] && buf[0..] == buf;
      ExtendOk(s, L[pos], buf);
      ProductOk(s, L[pos + 1..], buf, |cur|);
      KeepConcat(s, conds, Extend(L[pos], buf), Product(L[pos + 1..], buf));
    }
  }

  class NestedLoopJoin {
    const s: Schemas
    const conds: seq<Conjunct>
    const n: nat
    const left: Stream<Joined>
    const right: Stream<Row>
    var isEnd: bool
    var curLeft: Joined
    var rightBuf: seq<Row>
    var rightIdx: nat

    ghost predicate Formed() {
      ConjunctsOk(s, conds) && AllJoined(s, left.rows, n) && TableRowsOk(s, n, right.rows)
    }

    /** Between a left row and its next right row. */
    ghost predicate Running()
      reads this, left
    {
      && Formed() && TableRowsOk(s, n, rightBuf) && !isEnd && left.pos < |left.rows|
      && JoinedOk(s, curLeft) && |curLeft| == n && rightIdx <= |rightBuf|
    }

    ghost predicate Valid()
      reads this, left
    {
      Formed() && (!isEnd ==> Running() && AtMatch())
    }

    ghost predicate AtMatch()
      requires Running()
      reads this, left
    {
      rightIdx < |rightBuf| && CurrentOk() && EvalAll(s, conds, curLeft + [rightBuf[rightIdx]])
    }

    ghost predicate CurrentOk()
      requires Running() && rightIdx < |rightBuf|
      reads this, left
    {
      JoinedOk(s, curLeft + [rightBuf[rightIdx]])
    }

    /** The joined rows still to be returned, the current one included. */
    ghost function Pending(): seq<Joined>
      requires Valid()
      reads this, left
    {
      if isEnd then [] else Remaining(s, conds, curLeft, rightBuf, rightIdx, left.rows, left.pos + 1)
    }

    constructor (s: Schemas, conds: seq<Conjunct>, n: nat, left: Stream<Joined>, right: Stream<Row>)
      requires ConjunctsOk(s, conds) && AllJoined(s, left.rows, n) && TableRowsOk(s, n, right.rows)
      ensures Valid() && this.s == s && this.conds == conds && this.n == n && this.left == left && this.right == right
    {
      this.s, this.conds, this.n, this.left, this.right := s, conds, n, left, right;
      isEnd, curLeft, rightBuf, rightIdx := true, [], [], 0;
    }

    /** Reads the right child once. */
    method BufferRight()
      requires Formed()
      modifies this`rightBuf, right
      ensures rightBuf == right.rows
    {
      rightBuf := [];
      right.BeginTuple();
      while !right.IsEnd()
        invariant right.pos <= |right.rows| && rightBuf == right.rows[..right.pos]
        decreases |right.rows| - right.pos
      {
        rightBuf := rightBuf + [right.Next()];
        right.NextTuple();
      }
    }

    method EvalJoinConds(e: Joined) returns (b: bool)
      requires ConjunctsOk(s, conds) && JoinedOk(s, e)
      ensures b == EvalAll(s, conds, e)
    {
      hide Eval, JoinedOk;
      for i := 0 to |conds|
        invariant forall j :: 0 <= j < i ==> Eval(s, conds[j], e)
      {
        if !Eval(s, conds[i], e) {
          return false;
        }
      }
      b := true;
    }

    /** From a pair of places on, the next pair that satisfies the conditions. */
    method FindNextMatch()
      requires Running()
      modifies this`isEnd, this`curLeft, this`rightIdx, left
      ensures Valid()
      ensures Pending() == old(Remaining(s, conds, curLeft, rightBuf, rightIdx, left.rows, left.pos + 1))
    {
      hide EvalAll, ConjunctsOk, JoinedOk, Remaining, TableRowsOk, AllJoined;
      while !isEnd
        invariant Formed() && (isEnd || Running())
        invariant isEnd ==> old(Remaining(s, conds, curLeft, rightBuf, rightIdx, left.rows, left.pos + 1)) == []
        invariant !isEnd ==> Remaining(s, conds, curLeft, rightBuf, rightIdx, left.rows, left.pos + 1)
                             == old(Remaining(s, conds, curLeft, rightBuf, rightIdx, left.rows, left.pos + 1))
        decreases !isEnd, |left.rows| - left.pos, |rightBuf| - rightIdx
      {
        if rightIdx >= |rightBuf| {
          RemainingTurn(s, conds, curLeft, rightBuf, left.rows, left.pos + 1);
          left.NextTuple();
          if left.IsEnd() {
            isEnd := true;
            return;
          }
          rightIdx := 0;
          curLeft := left.Next();
        } else {
          RemainingStep(s, conds, curLeft, rightBuf, rightIdx, left.rows, left.pos + 1);
          var match' := EvalJoinConds(curLeft + [rightBuf[rightIdx]]);
          if match' {
            return;
          }
          rightIdx := rightIdx + 1;
        }
      }
    }

    /** Starts over; what will be returned is the filtered product in nested-loop order. */
    method BeginTuple()
      requires Valid()
      modifies this`isEnd, this`curLeft, this`rightBuf, this`rightIdx, left, right
      ensures Valid() && AllJoined(s, Product(left.rows, right.rows), n + 1)
      ensures Pending() == Keep(s, conds, Product(left.rows, right.rows))
    {
      hide EvalAll, ConjunctsOk, JoinedOk, Remaining, TableRowsOk, Keep, Product;
      ProductOk(s, left.rows, right.rows, n);
      StartFacts(s, conds, n, left.rows, right.rows);
      left.BeginTuple();
      if left.IsEnd() {
        isEnd := true;
        return;
      }
      BufferRight();
      if rightBuf == [] {
        isEnd := true;
        return;
      }
      rightIdx, isEnd := 0, false;
      curLeft := left.Next();
      FindNextMatch();
    }

    method NextTuple()
      requires Valid()
      modifies this`isEnd, this`curLeft, this`rightIdx, left
      ensures Valid() && Pending() == if old(Pending()) == [] then [] else old(Pending())[1..]
    {
      hide EvalAll, ConjunctsOk, JoinedOk, Remaining, TableRowsOk, AllJoined;
      if isEnd {
        return;
      }
      RemainingStep(s, conds, curLeft, rightBuf, rightIdx, left.rows, left.pos + 1);
      rightIdx := rightIdx + 1;
      FindNextMatch();
    }

    /** The current joined row. */
    method Next() returns (e: Joined)
      requires Valid() && !isEnd
      ensures Pending() != [] && e == Pending()[0]
    {
      hide EvalAll, ConjunctsOk, JoinedOk, Remaining, TableRowsOk, AllJoined;
      RemainingStep(s, conds, curLeft, rightBuf, rightIdx, left.rows, left.pos + 1);
      e := curLeft + [rightBuf[rightIdx]];
    }
  }

  lemma StartFacts(s: Schemas, conds: seq<Conjunct>, n: nat, L: seq<Joined>, rows: seq<Row>)
    requires ConjunctsOk(s, conds) && AllJoined(s, L, n) && TableRowsOk(s, n, rows)
    ensures AllJoined(s, Product(L, rows), n + 1)
    ensures L == [] || rows == [] ==> Keep(s, conds, Product(L, rows)) == []
    ensures L != [] ==> JoinedOk(s, L[0]) && |L[0]| == n
    ensures L != [] ==> Keep(s, conds, Product(L, rows)) == Remaining(s, conds, L[0], rows, 0, L, 1)
  {
    hide EvalAll, ConjunctsOk, JoinedOk;
    ProductOk(s, L, rows, n);
    ProductNoRows(L);
    if L != [] {
      assert rows[0..] == rows && L[0] in L;
      ExtendOk(s, L[0], rows);
      ProductOk(s, L[1..], rows, n);
      KeepConcat(s, conds, Extend(L[0], rows), Product(L[1..], rows));
    }
  }

  /** Running the join to its end. */
  method DrainNestedLoop(j: NestedLoopJoin) returns (out: seq<Joined>)
    requires j.Valid()
    modifies j, j.left, j.right
    ensures AllJoined(j.s, Product(j.left.rows, j.right.rows), j.n + 1)
    ensures out == Keep(j.s, j.conds, Product(j.left.rows, j.right.rows))
  {
    hide EvalAll, ConjunctsOk, JoinedOk, Remaining, TableRowsOk, AllJoined, Keep, Product;
    j.BeginTuple();
    ghost var all := j.Pending();
    out := [];
    while !j.isEnd
      invariant j.Valid() && |out| <= |all| && out == all[..|out|] && j.Pending() == all[|out|..]
      decreases |all| - |out|
    {
      var e := j.Next();
      out := out + [e];
      j.NextTuple();
    }
  }
}
