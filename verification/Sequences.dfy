/** Positional surgery on sequences, shared by the page, level and log models. */
module Sequences {

  type Byte = b: int | 0 <= b < 256

  function InsertAt<T>(s: seq<T>, pos: nat, x: T): (r: seq<T>)
    requires pos <= |s|
    ensures |r| == |s| + 1
    ensures forall i :: 0 <= i < |r| ==> r[i] == if i < pos then s[i] else if i == pos then x else s[i - 1]
  {
    seq(|s| + 1, i requires 0 <= i <= |s| => if i < pos then s[i] else if i == pos then x else s[i - 1])
  }

  function RemoveAt<T>(s: seq<T>, pos: nat): (r: seq<T>)
    requires pos < |s|
    ensures |r| == |s| - 1
    ensures forall i :: 0 <= i < |r| ==> r[i] == if i < pos then s[i] else s[i + 1]
  {
    seq(|s| - 1, i requires 0 <= i < |s| - 1 => if i < pos then s[i] else s[i + 1])
  }

  ghost predicate NoDup<T>(s: seq<T>) {
    forall i, j :: 0 <= i < j < |s| ==> s[i] != s[j]
  }

  lemma InsertMiddle<T>(A: seq<T>, s: seq<T>, B: seq<T>, j: nat, x: T)
    requires j <= |s|
    ensures A + InsertAt(s, j, x) + B == InsertAt(A + s + B, |A| + j, x)
  {
    assert (A + s + B)[..|A| + j] == A + s[..j];
    assert (A + s + B)[|A| + j..] == s[j..] + B;
  }

  lemma RemoveMiddle<T>(A: seq<T>, s: seq<T>, B: seq<T>, j: nat)
    requires j < |s|
    ensures A + RemoveAt(s, j) + B == RemoveAt(A + s + B, |A| + j)
  {
    assert (A + s + B)[..|A| + j] == A + s[..j];
    assert (A + s + B)[|A| + j + 1..] == s[j + 1..] + B;
  }

  lemma RemoveInserted<T>(s: seq<T>, pos: nat, x: T)
    requires pos <= |s|
    ensures RemoveAt(InsertAt(s, pos, x), pos) == s
  {
  }

  lemma InsertRemoved<T>(s: seq<T>, pos: nat)
    requires pos < |s|
    ensures InsertAt(RemoveAt(s, pos), pos, s[pos]) == s
  {
  }
}
