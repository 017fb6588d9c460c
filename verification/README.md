# Directional text selections

This project is a Dafny model of the editor's `Selection` value type (`src/vs/editor/common/core/selection.ts`).

A selection is a span of a text buffer that also remembers its two ends:
- the **anchor**, where the selection gesture began (`selectionStartLineNumber`, `selectionStartColumn`);
- the **caret**, where the gesture currently ends (`positionLineNumber`, `positionColumn`).

It also carries the normalized range it inherits from `Range`, whose start never comes after its end. Its **direction** is LTR when the anchor is the start of that range. Otherwise it is RTL.

Every operation builds a new value, so the model is pure. The one loop in the source, in `selectionsArrEqual`, is a method whose loop invariant carries the proof.

Files:
- `positions.dfy` (module `Positions`): a (line, column) position and document order.
- `ranges.dfy` (module `Ranges`): the normalized range. `Range` itself is not part of this model. Only the normalization its constructor performs is modelled, because `Selection`'s constructor relies on it (selection.ts:34). The two points are swapped exactly when the second lies strictly before the first.
- `decimal.dfy` (module `Decimal`): decimal text of integers, used by `toString`.
- `selection.dfy` (module `Selections`): the selection itself, its operations and the properties proved about them.

Representation choices:
- The source's instance methods are member functions of the datatype `Selection`. Its static helpers are module-level functions.
- `ISelection`, the interface with only the four anchor/caret fields, is the datatype `ISelection`. `Selection.View()` is a selection seen through that interface.
- Operations take a `Position` where the source takes a line number and a column.
- `Selection.Valid()` states what the constructor establishes: the stored range is the normalized span of anchor and caret. Every operation that takes a selection requires it, and every operation that returns one ensures it.
- An absent (`null`/`undefined`) array is `None`.

About `setEndPosition` and `setStartPosition`: their doc comments say they replace the caret (selection.ts:71-73) and the anchor (selection.ts:81-83). The code does that only for an LTR selection. What it does in both directions is keep one end of the normalized range and replace the other:
- On an RTL selection, `setEndPosition` moves the anchor and keeps the caret (selection.ts:78).
- On an RTL selection, `setStartPosition` moves the caret and keeps the anchor (selection.ts:88).

The model follows the code. `ExampleSetEndPositionOnRtl` shows a concrete case.

## Model

| member | source | states |
|---|---|---|
| `Ranges.FromPoints` | src/vs/editor/common/core/selection.ts:34 | The range built from two points starts at the earlier one and ends at the later one in (line, column) order. Its two ends are exactly the two given points. |
| `Selections.New` | src/vs/editor/common/core/selection.ts:33-39 | The constructor keeps anchor and caret as given. The stored range starts at the earlier of the two and ends at the later. |
| `Selections.Selection.Clone` | src/vs/editor/common/core/selection.ts:44-46 | The copy is the same value as the original, including the derived range. |
| `Selections.Selection.EqualsSelection` | src/vs/editor/common/core/selection.ts:55-59 | True exactly when the other selection has the same anchor and the same caret. |
| `Selections.Selection.GetDirection` | src/vs/editor/common/core/selection.ts:64-69 | LTR exactly when the anchor does not come after the caret. RTL exactly when the caret is strictly before the anchor. An empty selection is LTR. |
| `Selections.Selection.SetEndPosition` | src/vs/editor/common/core/selection.ts:74-79 | The new range spans the old start and the given point. LTR: anchor kept, caret becomes the point. RTL: caret kept, anchor becomes the point. Direction: kept if the point is after the old start, LTR if it equals it, flipped if it is before it. |
| `Selections.Selection.SetStartPosition` | src/vs/editor/common/core/selection.ts:84-89 | The new range spans the given point and the old end. LTR: caret kept, anchor becomes the point. RTL: anchor kept, caret becomes the point. Direction: kept if the point is before the old end, LTR if it equals it, flipped if it is after it. |
| `Selections.CreateSelection` | src/vs/editor/common/core/selection.ts:93-95 | The result is a valid selection whose anchor and caret equal the given ones field by field. |
| `Selections.LiftSelection` | src/vs/editor/common/core/selection.ts:97-99 | The result is a valid selection whose anchor and caret are those of the given ISelection. |
| `Selections.LiftSelectionRoundTrip` | src/vs/editor/common/core/selection.ts:97-99 | Lifting and viewing are mutually inverse. Lifting the view of a selection gives back the whole selection. Viewing a lifted ISelection gives back the ISelection. |
| `Selections.SelectionsEqual` | src/vs/editor/common/core/selection.ts:101-108 | Comparing the four line/column fields is exactly equality of anchor and caret. |
| `Selections.SelectionsEqualIsEquivalence` | src/vs/editor/common/core/selection.ts:101-108 | Selection equality is reflexive, symmetric and transitive. |
| `Selections.SwappedSelectionDiffers` | src/vs/editor/common/core/selection.ts:101-108 | Take a non-empty selection and swap its anchor and caret. The result has the same range, is not equal to the original, and has the opposite direction. |
| `Selections.EqualAnchorAndCaretMeansEqual` | src/vs/editor/common/core/selection.ts:33-39 | Two valid selections are equal by `equalsSelection` exactly when they are the same value: the range is determined by anchor and caret. |
| `Selections.SelectionsArrEqual` | src/vs/editor/common/core/selection.ts:110-126 | The result follows the array-matching rule: both absent, or both present with the same length and pairwise-equal selections. That holds exactly when the two arrays are equal, element by element and in order. |
| `Selections.SelectionArraysMatchCases` | src/vs/editor/common/core/selection.ts:110-126 | Both absent: equal. Exactly one absent: unequal. Two empty arrays: equal. Different lengths: unequal. Two distinct selections in swapped order: unequal. |
| `Selections.IsISelectionExactlyPlainSelections` | src/vs/editor/common/core/selection.ts:128-136 | The shape check accepts exactly the objects that are present and carry a number in each of the four selection fields. That is, exactly the plain forms of some anchor and caret. |
| `Selections.CreateWithDirection` | src/vs/editor/common/core/selection.ts:138-145 | LTR: anchor is the start and caret the end. RTL: anchor is the end and caret the start. For an ordered span the range is that span. If start is strictly before end, the result has the requested direction. If start equals end, the result is LTR. |
| `Selections.CreateWithDirectionRoundTrip` | src/vs/editor/common/core/selection.ts:138-145 | Rebuilding any selection from its range start, range end and direction gives the same selection back. |
| `Selections.ToStringDeterminesSelection` | src/vs/editor/common/core/selection.ts:48-50 | The text lists anchor then caret. Two selections print the same exactly when they have equal anchor and caret, so the text preserves direction. |
| `Decimal.IntToStringInjective` | src/vs/editor/common/core/selection.ts:49 | Different integers have different decimal texts, so a printed coordinate determines the coordinate. |
| `Selections.ExampleCollapseToAnchor` | src/vs/editor/common/core/selection.ts:74-79 | Setting the end of the LTR selection (1,1)->(1,5) to (1,1) gives the empty selection (1,1)->(1,1), which is LTR. |
| `Selections.ExampleCaretCrossesAnchor` | src/vs/editor/common/core/selection.ts:74-79 | Setting the end of the LTR selection (2,1)->(2,10) to (1,1) gives anchor (2,1), caret (1,1), direction RTL and range (1,1)-(2,1). |
| `Selections.ExampleSetEndPositionOnRtl` | src/vs/editor/common/core/selection.ts:78 | Setting the end of the RTL selection (3,4)->(1,2) to (5,6) moves the anchor to (5,6) and keeps the caret at (1,2). |

## Left out

- `src/vs/workbench/parts/debug/browser/debugModules.ts`: a debug view that renders a table of loaded modules. It is DOM construction and event wiring with no logic to state.
- `Range` (`vs/editor/common/core/range`) is not part of this model. Only the normalization its constructor performs is modelled, in `Ranges.FromPoints`.
- Coordinates are unbounded integers. JavaScript numbers are doubles, but nothing here uses fractions, NaN or precision loss. The source does no range checks, so the model requires none.
- `toString`: integers are rendered in plain decimal. JavaScript switches to exponent notation at magnitudes of 10^21 and above. That case is not modelled.
- `Selections.IsISelectionExactlyPlainSelections`: a field counts as a number only when it holds an integer. Other JavaScript values, including non-integral numbers, are all `JsOther`. JavaScript truthiness of the object is reduced to present or absent.
- Public fields of a `Selection` object could be reassigned by other code, which would break the stored range. The model treats a selection as immutable, as every member of the class does.
