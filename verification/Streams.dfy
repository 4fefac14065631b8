/** Child executors as operators see them. */
module Streams {

  /** A child executor: the rows it returns, and where it stands. */
  class Stream<T> {
    const rows: seq<T>
    var pos: nat

    constructor (rows: seq<T>)
      ensures this.rows == rows && pos == 0
    {
      this.rows, pos := rows, 0;
    }

    method BeginTuple()
      modifies this
      ensures pos == 0
    {
      pos := 0;
    }

    predicate IsEnd()
      reads this
    {
      pos >= |rows|
    }

    method NextTuple()
      modifies this
      ensures pos == old(pos) + 1
    {
      pos := pos + 1;
    }

    function Next(): T
      requires !IsEnd()
      reads this
    {
      rows[pos]
    }
  }
}
