# Matrix Image — a Dafny model of the dot-matrix renderer

Matrix Image draws a matrix of values as a grid of absolutely positioned
square elements. The matrix holds one or more frames, and each frame is a
sequence of rows. Every cell of frame 0 gets a clone of a template
element. Its opacity says whether the cell is "printed". Its background
is the cell's colour, when the cell has one. Click and hover callbacks
from the options are bound to each cell's element.

The model follows `js/matrix-image.js` function by function:

- `dom.dfy` (`Dom`): JavaScript values and their truthiness, and property
  reads. Also the three DOM objects the renderer touches: an element
  (inline style, listeners, `cloneNode`), the canvas (size, children,
  `appendChild`) and a dispatched event (its two flags).
- `traversal.dfy` (`Traversal`): the visit order of `MMatrix.each`, and
  lemmas about it (exactly once, row-major, counts).
- `matrix.dfy` (`Matrix`): `getMatrix`, and the `MMatrix` class with
  `each` and the in-place `prepare`.
- `grid.dfy` (`Grid`): the `MGrid` class with `getSize` and `render`.
- `display.dfy` (`Display`): the parts of `MImage` and `addEvent`:
  - `prepareOptions`;
  - the `ret === false` listener rule;
  - the event binding of `init`;
  - the refresh `r`;
  - `init` itself.

State the source changes in place is modelled in place:
- frames are a `seq` field of `MMatrix`;
- the canvas children are a `seq` field of `Canvas`;
- styles and listeners are fields of `Element`;
- the options object is a `map` field of `JsObject`.

Each traversal is a method that loops over the visits `Each` returns. The
loop does per visit what the source's callback does.

## Model

| member | source | states |
|---|---|---|
| Matrix.GetMatrix | js/matrix-image.js:15-31 | `hc` rows, each of `wc` entries; every entry is `v` when `v` is truthy and `0` otherwise |
| Matrix.FillValue | js/matrix-image.js:16 | `v \|\| 0`: a truthy `v` is kept as it is, and a falsy `v` becomes `0` |
| Matrix.ColorOf | js/matrix-image.js:109 | `index.color \|\| null`: the entry's `color` when it is truthy, `null` otherwise; values other than objects and records have no colour |
| Matrix.Normalize | js/matrix-image.js:107-113 | the record written for an entry has no element, `print` iff the entry is truthy, the entry's colour and its own coordinates |
| Matrix.NormalizeFrame | js/matrix-image.js:105-115 | normalising frame 0 keeps its shape; the cell at row `y`, column `x` becomes the record `Normalize` builds from that entry, carrying its own row and column |
| Matrix.NormalizeTwice | js/matrix-image.js:107-113 | normalising a record again keeps its colour and coordinates and sets `print`; a falsy entry's record changes, so `prepare` is not idempotent |
| Matrix.PrepareTwiceLightsAll | js/matrix-image.js:105-115 | after a second `prepare`, every cell of frame 0 is printed and otherwise equals its first normalisation |
| Matrix.MMatrix.Each | js/matrix-image.js:121-134 | the callback receives exactly the visits `Visits(frames[k])`, where `k` is `frame \|\| 0`; nothing is visited past the last frame |
| Matrix.MMatrix.Prepare | js/matrix-image.js:105-115 | frame 0 is replaced by its normalisation and every other frame is unchanged |
| Traversal.VisitedExactlyOnce | js/matrix-image.js:121-134 | every entry is visited, as visit number `Offset(y) + x`, carrying its own value, and no other visit is to it |
| Traversal.RowMajor | js/matrix-image.js:124-129 | earlier visits come strictly before later ones: rows ascending, and columns ascending within a row |
| Traversal.VisitsSound | js/matrix-image.js:126-129 | every visit is to an existing entry and carries that entry |
| Traversal.VisitCount | js/matrix-image.js:121-134 | a frame of rows of `c` entries is visited `rows * c` times, and row `y` starts at visit `y * c` |
| Traversal.SameShapeVisits | js/matrix-image.js:121-134 | frames with the same row lengths are visited at the same positions in the same order; so rewriting entries in place does not change the traversal |
| Grid.MGrid.GetSize | js/matrix-image.js:170-175 | the height spans every row and the width the first row, each ending at the far edge of the last box; a template without a margin gives no size (NaN) |
| Grid.ExtentFitsCells | js/matrix-image.js:144-175 | every placed box lies inside the reported height; a box in a column within the first row's length lies inside the reported width, and a box of non-zero size past it (in a longer row) does not |
| Grid.Placed | js/matrix-image.js:159-160 | a clone for column `x`, row `y` has `top = y * pitch` and `left = x * pitch`; every other style property is the template's |
| Grid.Attach | js/matrix-image.js:161 | attaching the clones keeps the frame's shape |
| Grid.MGrid.Render | js/matrix-image.js:144-163 | the canvas is sized from `getSize` before the margin is zeroed. One fresh clone per frame-0 cell is appended, in traversal order; the clones are distinct. Clone `i` sits at visit `i`'s position, with spacing equal to the margin or 15, and is attached to that cell. The template's margin is zeroed |
| Grid.MGrid.PlaceClones | js/matrix-image.js:157-163 | the traversal appends one distinct, fresh, placed clone per visit and attaches clone `i` to the cell of visit `i` |
| Grid.MGrid.PlaceClone | js/matrix-image.js:158-162 | one callback: a fresh clone with the template's style at the visit's position, stored in that cell only, and appended to the canvas |
| Display.WithDefaults | js/matrix-image.js:225-235 | the keys are the union of both key sets; an undefined user value takes the default; other user values, `null` included, are kept; keys outside the defaults are untouched |
| Display.WithDefaultsIdempotent | js/matrix-image.js:225-235 | defaulting twice is defaulting once |
| Display.PrepareOptions | js/matrix-image.js:225-235 | the caller's own object is filled in place with the defaults and then returned |
| Display.EventsNotMerged | js/matrix-image.js:230-231 | a user `events` object is kept whole, so a handler it lacks is not taken from the defaults and is not bound |
| Display.OnlyFalseSuppresses | js/matrix-image.js:43 | only `false` suppresses, under strict comparison; `undefined`, `null`, `0`, `""` and `true` do not |
| Display.ListenHandler | js/matrix-image.js:41-48 | the event's propagation is stopped and its default prevented exactly when the callback returned `false`; the result is passed back unchanged |
| Display.Bindings | js/matrix-image.js:206-216 | one click listener iff `onClick` is a function, then one mouseover listener iff `onHover` is one, and nothing else; each carries the callback found at binding time and the cell |
| Display.BindCell | js/matrix-image.js:207-216 | one cell's element gains exactly that cell's bindings; its style is unchanged |
| Display.BindEvents | js/matrix-image.js:206-217 | every frame-0 element gains its cell's bindings; styles are unchanged; no element changes when no callback is a function |
| Display.Restyle | js/matrix-image.js:322-334 | opacity is 1 iff the cell is printed; the background is the cell's colour when it is not null, and is kept otherwise; nothing else changes |
| Display.RestyleIdempotent | js/matrix-image.js:317-334 | refreshing twice leaves the same styles as refreshing once |
| Display.Refresh | js/matrix-image.js:317-334 | every frame-0 element is restyled from its cell; its position and listeners are unchanged |
| Display.RenderedOwned | js/matrix-image.js:156-163 | after rendering, each frame-0 cell holds the clone appended for it, at the same position, and no two cells share an element |
| Display.Init | js/matrix-image.js:198-219 | the canvas is sized from the template before its margin is zeroed; one fresh, distinct clone per frame-0 cell is appended. Each cell owns the clone appended for it: placed at its row and column, restyled from its `print` and `color`, and listening for exactly the configured callbacks. The template's margin is zeroed and the frames are normalised |
| Display.Build | js/matrix-image.js:199-204 | a new grid over the canvas with a new matrix of the frames, rendered: the canvas is sized from the template, one fresh, distinct, placed clone per cell is appended and attached, and the template's margin is zeroed |
| Display.Wire | js/matrix-image.js:206-218 | binding then refreshing freshly placed clones leaves each one restyled and carrying exactly its cell's bindings |

## Left out

- The DOM: `document.createElement`, `innerHTML` and `document.body.appendChild` are not modelled. An element is reduced to an inline style and a list of listeners. `cloneNode` and `appendChild` are abstract methods.
- `MCanvas.prepare` and `MCanvas.clear` (js/matrix-image.js:180-188) and `MImage.clear`: host lookups and clearing. `Display.Init` takes the canvas element directly.
- The `attachEvent` fallback for old browsers (js/matrix-image.js:50-57, 62), and real event dispatch: only the decision after the callback returns is modelled. The callback's return value is an input.
- CSS parsing: lengths are held as already-parsed integers, as `parseInt` would return them. An unset margin is `None`, and `getSize` then yields no size where the source yields NaN lengths.
- Grid.MGrid.Render, Display.Build, Display.Init: a negative width is recorded as written, although the browser ignores it. With an empty first row and a positive margin, `getSize` gives `w = -margin`, and the source assigns that as a `px` length, which CSS rejects, so the canvas keeps its old width. The model sets the width to that negative value, unlike the NaN case, where it keeps the old size.
- Negative margins: CSS allows them and `parseInt` passes them through to `getSize` and the spacing, but the margin is a natural number here, so a negative margin is not modelled. Negative heights and border widths, which the browser rejects, are not modelled either.
- Opacity is the integer 0 or 1, not the floats `0.0` and `1.0`.
- The `for ... in` keys are strings in the source and coerced in arithmetic. Here they are natural-number indices. The visit order is the index order a dense array gives.
- Values the renderer never distinguishes are not modelled: NaN, string and boolean wrapper objects, and arrays as entries.
- `getMatrix` builds the row with `Array.apply(...).map(valueOf, v)`. For a number or an object fill, this yields `v` itself, which is what `Matrix.GetMatrix` stores. For a string or `true` fill, `Object.prototype.valueOf` yields a wrapper object, not the primitive. The model stores the primitive, so the wrapper objects are not modelled. Only non-empty strings and `true` end up wrapped, since `v || 0` has already turned `""` and `false` into `0`; their truthiness is the same either way.
- The `MImage` constructor's `options || {}` and the default options literal (js/matrix-image.js:236-310): static data. `Display.PrepareOptions` takes the defaults as a parameter, and its key order is left open.
- `pause`, the animation branch, and the unused `fc`, `f` and `frame` of `r`: they do nothing.
- Display.Bindings: a listener records the cell the source's closure captures. The model stores the cell's value rather than a reference to the shared record.
- Display.Bindings: the source's wrapper reads `options.events.onClick` and `onHover` again each time the event fires. `options` is the caller's own object, so replacing a handler after `init` changes what fires. The model stores the handler found at binding time, so a later replacement is not modelled.
- `Display.Init`: `options.matrix` and the `MMatrix`'s frames are the same array in the source, so a second `init` on the same options sees normalised records. The model copies the frames into the new `MMatrix`. What a second normalisation does is stated by `Matrix.PrepareTwiceLightsAll`.
- Display.Refresh and `Display.BindEvents` require that each frame-0 cell owns a distinct element, which is what `render` establishes (`Display.RenderedOwned`). Cells sharing an element are not modelled.
- Matrix.MMatrix.Prepare, Grid.MGrid.Render: aliasing between frames and rows is not modelled. Frames and rows are values here. In the source, a row array used twice in frame 0 (or frame 0 reused as another frame) is rewritten through both uses. So `prepare` re-wraps the first use's records at the second visit: every such cell is printed and carries the second row's coordinates. `render` then overwrites `index.el`, orphaning the first use's clones, which `r` never restyles.
- Matrix.MMatrix.Prepare, Grid.MGrid.Render, Display.Init: throwing inputs are excluded by their requires and not modelled.
  - An `undefined` or `null` entry in frame 0 makes `prepare` throw at `index.color`. By then `render` has already sized the canvas and zeroed the template's margin.
  - `Display.Init` and `Display.BindEvents` also exclude `events` set to `null` or `undefined`, which throws when the first cell is bound.
- An empty matrix: `getSize` reads `matrix[0]` and `render` requires it. The model requires frame 0 to have at least one row, and adds no special case.
