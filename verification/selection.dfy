/**
 * The editor's directional text selection: a range of the buffer together with
 * the point where the selection gesture began (the anchor, stored by the
 * source as `selectionStartLineNumber`/`selectionStartColumn`) and the point
 * where it currently ends (the caret, `positionLineNumber`/`positionColumn`).
 * Every operation builds a new value.
 */
module Selections {
  import opened Positions
  import opened Ranges
  import Decimal

  datatype Option<T> = None | Some(value: T)

  /** LTR: the anchor is the earlier end. RTL: the caret is strictly before the anchor. */
  datatype SelectionDirection = LTR | RTL

  /** The structural view of a selection that other code passes around: anchor and caret only. */
  datatype ISelection = ISelection(anchor: Position, caret: Position)

  /**
   * A selection: the normalized range it inherits, and its anchor and caret.
   * `Valid` is what the constructor establishes; no operation changes a value.
   */
  datatype Selection = Selection(range: Range, anchor: Position, caret: Position) {

    /** The stored range is the normalized span of anchor and caret. */
    predicate Valid() {
      range == FromPoints(anchor, caret)
    }

    /** This selection seen as an ISelection. */
    function View(): ISelection {
      ISelection(anchor, caret)
    }

    /** A copy: a value indistinguishable from this one. */
    function Clone(): (r: Selection)
      requires Valid()
      ensures r.Valid()
      ensures r == this
    {
      New(anchor, caret)
    }

    /** `[anchorLine,anchorColumn -> caretLine,caretColumn]`: anchor first, whatever the direction. */
    function ToString(): string {
      Display(Decimal.IntToString(anchor.lineNumber), Decimal.IntToString(anchor.column),
              Decimal.IntToString(caret.lineNumber), Decimal.IntToString(caret.column))
    }

    /** Whether `other` has the same anchor and caret. */
    function EqualsSelection(other: ISelection): (r: bool)
      ensures r <==> anchor == other.anchor && caret == other.caret
    {
      SelectionsEqual(View(), other)
    }

    /** LTR exactly when the anchor is the start of the stored range. */
    function GetDirection(): (d: SelectionDirection)
      requires Valid()
      ensures d == LTR <==> IsBeforeOrEqual(anchor, caret)
      ensures d == RTL <==> IsBefore(caret, anchor)
      ensures anchor == caret ==> d == LTR
    {
      if anchor.lineNumber == range.start.lineNumber && anchor.column == range.start.column then
        LTR
      else
        RTL
    }

    /**
     * A selection whose range runs from this one's start to `p`. The start is
     * kept where it is: for LTR that is the anchor and `p` becomes the caret;
     * for RTL that is the caret and `p` becomes the anchor.
     */
    function SetEndPosition(p: Position): (r: Selection)
      requires Valid()
      ensures r.Valid()
      ensures r.range == FromPoints(range.start, p)
      ensures IsBeforeOrEqual(range.start, p) ==> r.range == Range(range.start, p)
      ensures IsBefore(p, range.start) ==> r.range == Range(p, range.start)
      ensures GetDirection() == LTR ==> r.anchor == anchor && r.caret == p
      ensures GetDirection() == RTL ==> r.anchor == p && r.caret == caret
      ensures IsBefore(range.start, p) ==> r.GetDirection() == GetDirection()
      ensures p == range.start ==> r.GetDirection() == LTR
      ensures IsBefore(p, range.start) ==> r.GetDirection() != GetDirection()
    {
      if GetDirection() == LTR then
        New(range.start, p)
      else
        New(p, range.start)
    }

    /**
     * A selection whose range runs from `p` to this one's end. The end is kept
     * where it is: for LTR that is the caret and `p` becomes the anchor; for
     * RTL that is the anchor and `p` becomes the caret.
     */
    function SetStartPosition(p: Position): (r: Selection)
      requires Valid()
      ensures r.Valid()
      ensures r.range == FromPoints(p, range.end)
      ensures IsBeforeOrEqual(p, range.end) ==> r.range == Range(p, range.end)
      ensures IsBefore(range.end, p) ==> r.range == Range(range.end, p)
      ensures GetDirection() == LTR ==> r.anchor == p && r.caret == caret
      ensures GetDirection() == RTL ==> r.anchor == anchor && r.caret == p
      ensures IsBefore(p, range.end) ==> r.GetDirection() == GetDirection()
      ensures p == range.end ==> r.GetDirection() == LTR
      ensures IsBefore(range.end, p) ==> r.GetDirection() != GetDirection()
    {
      if GetDirection() == LTR then
        New(p, range.end)
      else
        New(range.end, p)
    }
  }

  /** The text `[al,ac -> cl,cc]` built from four number texts. */
  function Display(al: string, ac: string, cl: string, cc: string): string {
    "[" + al + "," + ac + " -> " + cl + "," + cc + "]"
  }

  /**
   * The constructor: anchor and caret are kept as given, and the stored range
   * starts at the earlier of the two and ends at the later.
   */
  function New(anchor: Position, caret: Position): (s: Selection)
    ensures s.Valid()
    ensures s.anchor == anchor && s.caret == caret
    ensures IsBeforeOrEqual(s.range.start, s.range.end)
    ensures IsBeforeOrEqual(s.range.start, anchor) && IsBeforeOrEqual(s.range.start, caret)
    ensures IsBeforeOrEqual(anchor, s.range.end) && IsBeforeOrEqual(caret, s.range.end)
    ensures s.range.start in {anchor, caret} && s.range.end in {anchor, caret}
  {
    Selection(FromPoints(anchor, caret), anchor, caret)
  }

  /** A selection with the given anchor and caret. */
  function CreateSelection(anchor: Position, caret: Position): (r: Selection)
    ensures r.Valid()
    ensures SelectionsEqual(r.View(), ISelection(anchor, caret))
  {
    New(anchor, caret)
  }

  /** The selection with the anchor and caret of `sel`. */
  function LiftSelection(sel: ISelection): (r: Selection)
    ensures r.Valid()
    ensures r.View() == sel
  {
    New(sel.anchor, sel.caret)
  }

  /** Field-wise comparison of anchor and caret: line and column of each. */
  function SelectionsEqual(a: ISelection, b: ISelection): (r: bool)
    ensures r <==> a == b
  {
    a.anchor.lineNumber == b.anchor.lineNumber
    && a.anchor.column == b.anchor.column
    && a.caret.lineNumber == b.caret.lineNumber
    && a.caret.column == b.caret.column
  }

  /**
   * A selection over the span from `start` to `end`: with LTR the anchor is
   * `start` and the caret `end`, with RTL the other way round. When `start`
   * is strictly before `end` the result has the requested direction; when
   * they coincide it is LTR either way.
   */
  function CreateWithDirection(start: Position, end: Position, direction: SelectionDirection): (r: Selection)
    ensures r.Valid()
    ensures direction == LTR ==> r.anchor == start && r.caret == end
    ensures direction == RTL ==> r.anchor == end && r.caret == start
    ensures IsBeforeOrEqual(start, end) ==> r.range == Range(start, end)
    ensures IsBefore(start, end) ==> r.GetDirection() == direction
    ensures start == end ==> r.GetDirection() == LTR
  {
    if direction == LTR then
      New(start, end)
    else
      New(end, start)
  }

  // ---- Arrays of selections

  /**
   * When two possibly absent arrays of selections count as equal: both
   * absent, or both present with the same length and equal selections at
   * every index.
   */
  predicate SelectionArraysMatch(a: Option<seq<ISelection>>, b: Option<seq<ISelection>>) {
    (a.None? && b.None?)
    || (a.Some? && b.Some? && |a.value| == |b.value|
        && forall i | 0 <= i < |a.value| :: SelectionsEqual(a.value[i], b.value[i]))
  }

  /**
   * Compares two possibly absent arrays of selections: exactly one absent is
   * unequal, both absent is equal, different lengths are unequal, and
   * otherwise the selections are compared index by index, stopping at the
   * first difference.
   */
  method SelectionsArrEqual(a: Option<seq<ISelection>>, b: Option<seq<ISelection>>) returns (r: bool)
    ensures r == SelectionArraysMatch(a, b)
    ensures r <==> a == b
  {
    if (a.Some? && b.None?) || (a.None? && b.Some?) {
      return false;
    }
    if a.None? && b.None? {
      return true;
    }
    if |a.value| != |b.value| {
      return false;
    }
    var xs, ys := a.value, b.value;
    for i := 0 to |xs|
      invariant forall j | 0 <= j < i :: xs[j] == ys[j]
    {
      if !SelectionsEqual(xs[i], ys[i]) {
        return false;
      }
    }
    assert xs == ys;
    return true;
  }

  // ---- Shape check

  /** A value a plain object field can hold, as far as the shape check looks at it. */
  datatype JsValue = JsNumber(n: int) | JsOther

  /** A plain object's four selection fields; `None` is a missing field. */
  datatype PlainObject = PlainObject(
    selectionStartLineNumber: Option<JsValue>,
    selectionStartColumn: Option<JsValue>,
    positionLineNumber: Option<JsValue>,
    positionColumn: Option<JsValue>)

  predicate IsNumber(v: Option<JsValue>) {
    v.Some? && v.value.JsNumber?
  }

  /** The plain object that carries the anchor and caret of `sel`. */
  function ToPlain(sel: ISelection): PlainObject {
    PlainObject(
      Some(JsNumber(sel.anchor.lineNumber)), Some(JsNumber(sel.anchor.column)),
      Some(JsNumber(sel.caret.lineNumber)), Some(JsNumber(sel.caret.column)))
  }

  /** A present object whose four selection fields all hold numbers; `None` is null or undefined. */
  function IsISelection(obj: Option<PlainObject>): (r: bool) {
    obj.Some?
    && IsNumber(obj.value.selectionStartLineNumber)
    && IsNumber(obj.value.selectionStartColumn)
    && IsNumber(obj.value.positionLineNumber)
    && IsNumber(obj.value.positionColumn)
  }

  // ---- Properties

  /** The shape check accepts exactly the plain forms of selections. */
  lemma IsISelectionExactlyPlainSelections(obj: Option<PlainObject>)
    ensures IsISelection(obj) <==> exists sel :: obj == Some(ToPlain(sel))
  {
    if IsISelection(obj) {
      var o := obj.value;
      var sel := ISelection(
        Position(o.selectionStartLineNumber.value.n, o.selectionStartColumn.value.n),
        Position(o.positionLineNumber.value.n, o.positionColumn.value.n));
      assert obj == Some(ToPlain(sel));
    }
  }

  /** Rebuilding a selection from its range and its direction gives the selection back. */
  lemma CreateWithDirectionRoundTrip(s: Selection)
    requires s.Valid()
    ensures SelectionsEqual(CreateWithDirection(s.range.start, s.range.end, s.GetDirection()).View(), s.View())
    ensures CreateWithDirection(s.range.start, s.range.end, s.GetDirection()) == s
  {
  }

  /** A selection is determined by its anchor and caret: the stored range is derived from them. */
  lemma EqualAnchorAndCaretMeansEqual(s: Selection, t: Selection)
    requires s.Valid() && t.Valid()
    ensures s.EqualsSelection(t.View()) <==> s == t
  {
  }

  /** Lifting an ISelection and viewing a selection are inverse to each other. */
  lemma LiftSelectionRoundTrip(s: Selection, sel: ISelection)
    requires s.Valid()
    ensures LiftSelection(s.View()) == s
    ensures LiftSelection(sel).View() == sel
  {
  }

  /** Selection equality is an equivalence. */
  lemma SelectionsEqualIsEquivalence(a: ISelection, b: ISelection, c: ISelection)
    ensures SelectionsEqual(a, a)
    ensures SelectionsEqual(a, b) ==> SelectionsEqual(b, a)
    ensures SelectionsEqual(a, b) && SelectionsEqual(b, c) ==> SelectionsEqual(a, c)
  {
  }

  /**
   * Equality sees direction: swapping anchor and caret of a non-empty
   * selection keeps its range but gives an unequal selection.
   */
  lemma SwappedSelectionDiffers(s: Selection)
    requires s.Valid() && s.anchor != s.caret
    ensures New(s.caret, s.anchor).range == s.range
    ensures !SelectionsEqual(New(s.caret, s.anchor).View(), s.View())
    ensures New(s.caret, s.anchor).GetDirection() != s.GetDirection()
  {
    FromPointsSymmetric(s.anchor, s.caret);
  }

  /** Array comparison: absent arrays, lengths, and order all matter. */
  lemma SelectionArraysMatchCases(xs: seq<ISelection>, ys: seq<ISelection>, x: ISelection, y: ISelection)
    ensures SelectionArraysMatch(None, None)
    ensures !SelectionArraysMatch(None, Some(ys)) && !SelectionArraysMatch(Some(xs), None)
    ensures SelectionArraysMatch(Some([]), Some([]))
    ensures |xs| != |ys| ==> !SelectionArraysMatch(Some(xs), Some(ys))
    ensures x != y ==> !SelectionArraysMatch(Some([x, y]), Some([y, x]))
  {
    if x != y {
      assert !SelectionsEqual([x, y][0], [y, x][0]);
    }
  }

  /** A separator that cannot occur in the first parts splits two joined strings the same way. */
  lemma SeparatorSplits(x: string, y: string, x': string, y': string, c: char)
    requires c !in x && c !in x'
    requires x + [c] + y == x' + [c] + y'
    ensures x == x' && y == y'
  {
    var u := x + [c] + y;
    assert u[|x|] == c;
    assert (x' + [c] + y')[|x'|] == c;
    if |x| == |x'| {
      assert x == u[..|x|] == x';
      assert y == u[|x| + 1..] == y';
    }
  }

  /** No decimal text of an integer holds a comma or a space. */
  lemma NumberTextHasNoSeparator(n: int)
    ensures ',' !in Decimal.IntToString(n) && ' ' !in Decimal.IntToString(n)
  {
  }

  /** Anchor and caret texts can be read back from the displayed text. */
  lemma DisplayInjective(a1: string, a2: string, c1: string, c2: string,
                         b1: string, b2: string, d1: string, d2: string)
    requires ',' !in a1 && ',' !in b1 && ',' !in c1 && ',' !in d1
    requires ' ' !in a2 && ' ' !in b2
    requires Display(a1, a2, c1, c2) == Display(b1, b2, d1, d2)
    ensures a1 == b1 && a2 == b2 && c1 == d1 && c2 == d2
  {
    var restS := "-> " + c1 + "," + c2 + "]";
    var restT := "-> " + d1 + "," + d2 + "]";
    assert Display(a1, a2, c1, c2)[1..] == a1 + [','] + (a2 + [' '] + restS);
    assert Display(b1, b2, d1, d2)[1..] == b1 + [','] + (b2 + [' '] + restT);
    SeparatorSplits(a1, a2 + [' '] + restS, b1, b2 + [' '] + restT, ',');
    SeparatorSplits(a2, restS, b2, restT, ' ');
    assert restS[3..] == c1 + [','] + (c2 + "]");
    assert restT[3..] == d1 + [','] + (d2 + "]");
    SeparatorSplits(c1, c2 + "]", d1, d2 + "]", ',');
    assert c2 == (c2 + "]")[..|c2|] == d2;
  }

  /** The displayed text determines anchor and caret: two selections print alike exactly when they are equal. */
  lemma ToStringDeterminesSelection(s: Selection, t: Selection)
    ensures s.ToString() == t.ToString() <==> SelectionsEqual(s.View(), t.View())
  {
    if s.ToString() == t.ToString() {
      NumberTextHasNoSeparator(s.anchor.lineNumber);
      NumberTextHasNoSeparator(s.anchor.column);
      NumberTextHasNoSeparator(s.caret.lineNumber);
      NumberTextHasNoSeparator(t.anchor.lineNumber);
      NumberTextHasNoSeparator(t.anchor.column);
      NumberTextHasNoSeparator(t.caret.lineNumber);
      DisplayInjective(
        Decimal.IntToString(s.anchor.lineNumber), Decimal.IntToString(s.anchor.column),
        Decimal.IntToString(s.caret.lineNumber), Decimal.IntToString(s.caret.column),
        Decimal.IntToString(t.anchor.lineNumber), Decimal.IntToString(t.anchor.column),
        Decimal.IntToString(t.caret.lineNumber), Decimal.IntToString(t.caret.column));
      Decimal.IntToStringInjective(s.anchor.lineNumber, t.anchor.lineNumber);
      Decimal.IntToStringInjective(s.anchor.column, t.anchor.column);
      Decimal.IntToStringInjective(s.caret.lineNumber, t.caret.lineNumber);
      Decimal.IntToStringInjective(s.caret.column, t.caret.column);
    }
  }

  // ---- Worked examples

  /** Moving the caret of an LTR selection back onto its anchor gives an empty LTR selection. */
  lemma ExampleCollapseToAnchor()
    ensures var s := New(Position(1, 1), Position(1, 5)).SetEndPosition(Position(1, 1));
      s.anchor == Position(1, 1) && s.caret == Position(1, 1) && s.GetDirection() == LTR
  {
  }

  /** Moving the caret of an LTR selection before its anchor flips it to RTL. */
  lemma ExampleCaretCrossesAnchor()
    ensures var s := New(Position(2, 1), Position(2, 10)).SetEndPosition(Position(1, 1));
      s.anchor == Position(2, 1) && s.caret == Position(1, 1) && s.GetDirection() == RTL
      && s.range == Range(Position(1, 1), Position(2, 1))
  {
  }

  /** On an RTL selection, SetEndPosition moves the anchor and leaves the caret alone. */
  lemma ExampleSetEndPositionOnRtl()
    ensures var s := New(Position(3, 4), Position(1, 2)).SetEndPosition(Position(5, 6));
      s.anchor == Position(5, 6) && s.caret == Position(1, 2) && s.GetDirection() == RTL
  {
  }
}
