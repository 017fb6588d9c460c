/**
 * The part of the editor's Range that a Selection relies on. Range itself is
 * not part of this model: only its constructor's normalization is, which puts
 * the earlier of the two given points first.
 */
module Ranges {
  import opened Positions

  /** A span of the buffer whose start does not come after its end. */
  datatype Range = Range(start: Position, end: Position)

  /**
   * The range spanned by two points given in either order: they are swapped
   * exactly when the second comes strictly before the first.
   */
  function FromPoints(a: Position, b: Position): (r: Range)
    ensures IsBeforeOrEqual(r.start, r.end)
    ensures (r.start == a && r.end == b) || (r.start == b && r.end == a)
    ensures IsBeforeOrEqual(r.start, a) && IsBeforeOrEqual(r.start, b)
    ensures IsBeforeOrEqual(a, r.end) && IsBeforeOrEqual(b, r.end)
  {
    if IsBefore(b, a) then Range(b, a) else Range(a, b)
  }

  /** The span does not depend on the order the two points are given in. */
  lemma FromPointsSymmetric(a: Position, b: Position)
    ensures FromPoints(a, b) == FromPoints(b, a)
  {
  }
}
