/** Positions in a text buffer and their document order. */
module Positions {

  /** A (line, column) pair. The editor counts both from 1; nothing here depends on that. */
  datatype Position = Position(lineNumber: int, column: int)

  /** `a` comes strictly before `b`: an earlier line, or the same line and an earlier column. */
  predicate IsBefore(a: Position, b: Position) {
    a.lineNumber < b.lineNumber || (a.lineNumber == b.lineNumber && a.column < b.column)
  }

  /** `a` comes before `b` or is `b`. */
  predicate IsBeforeOrEqual(a: Position, b: Position) {
    a.lineNumber < b.lineNumber || (a.lineNumber == b.lineNumber && a.column <= b.column)
  }

  /** Document order is a total order, and `IsBefore` is its strict part. */
  lemma DocumentOrderIsTotal(a: Position, b: Position, c: Position)
    ensures IsBeforeOrEqual(a, a)
    ensures IsBeforeOrEqual(a, b) && IsBeforeOrEqual(b, a) ==> a == b
    ensures IsBeforeOrEqual(a, b) && IsBeforeOrEqual(b, c) ==> IsBeforeOrEqual(a, c)
    ensures IsBeforeOrEqual(a, b) || IsBeforeOrEqual(b, a)
    ensures IsBefore(a, b) <==> IsBeforeOrEqual(a, b) && a != b
  {
  }
}
