/** `MGrid`: the layout of a frame as absolutely positioned square cells
    (`getSize`) and its materialisation as one cloned element per cell
    (`render`). */
module Grid {
  import opened Dom
  import opened Traversal
  import opened Matrix

  /** The canvas extent `getSize` reports, in pixels. */
  datatype Extent = Extent(h: int, w: int)

  /** The spacing `render` puts between cells: the template's margin, or
      15 when the template has no margin. */
  function Spacing(margin: Option<nat>): nat
  {
    if margin.Some? then margin.value else 15
  }

  /** The side of one cell's box: cells are squares sized by the height,
      plus a border on either side. */
  function BoxSize(s: Style): nat
  {
    s.height + 2 * s.borderWidth
  }

  /** The distance from one cell's origin to the next one's. */
  function Pitch(s: Style, spacing: nat): nat
  {
    BoxSize(s) + spacing
  }

  /** A clone of the template placed at column `x`, row `y`. */
  function Placed(s: Style, pitch: nat, x: nat, y: nat): (p: Style)
    ensures p.top == y * pitch && p.left == x * pitch
    ensures p.(top := s.top, left := s.left) == s
  {
    s.(top := y * pitch, left := x * pitch)
  }

  /** The margin `render` leaves on the template: zero if it had one. */
  function ZeroedMargin(margin: Option<nat>): Option<nat>
  {
    if margin.Some? then Some(0) else None
  }

  /** Frame `g` with element `clones[Offset(g, y) + x]` attached to the
      cell at row `y`, column `x`. */
  function Attach(g: Frame, clones: seq<Element>): (r: Frame)
    ensures Shape(r) == Shape(g)
  {
    seq(|g|, y requires 0 <= y < |g| =>
      seq(|g[y]|, x requires 0 <= x < |g[y]| =>
        if Offset(g, y) + x < |clones| && g[y][x].Cell?
        then g[y][x].(el := Some(clones[Offset(g, y) + x]))
        else g[y][x]))
  }

  /** A frame of cells whose cell at row `y`, column `x` carries element
      `clones[Offset(g, y) + x]` is `Attach(g, clones)`. */
  lemma AttachAll(g: Frame, clones: seq<Element>, h: Frame)
    requires |clones| == |Visits(g)|
    requires |h| == |g| && forall y | 0 <= y < |g| :: |h[y]| == |g[y]|
    requires forall y, x | 0 <= y < |g| && 0 <= x < |g[y]| ::
      g[y][x].Cell? &&
      h[y][x] == if Offset(g, y) + x < |clones| then g[y][x].(el := Some(clones[Offset(g, y) + x])) else g[y][x]
    ensures h == Attach(g, clones)
  {
    var a := Attach(g, clones);
    forall y | 0 <= y < |g|
      ensures h[y] == a[y]
    {
      assert |a[y]| == |g[y]|;
    }
  }

  /** Visit `i` of the frame with elements attached is visit `i` of the
      frame before, now carrying element `clones[i]`. */
  lemma AttachedVisits(g: Frame, clones: seq<Element>, i: nat)
    requires forall y, x | 0 <= y < |g| && 0 <= x < |g[y]| :: g[y][x].Cell?
    requires |clones| == |Visits(g)| && i < |Visits(g)| && Visits(g)[i].value.Cell?
    ensures |Visits(Attach(g, clones))| == |Visits(g)|
    ensures Visits(Attach(g, clones))[i] == Visits(g)[i].(value := Visits(g)[i].value.(el := Some(clones[i])))
  {
    var a := Attach(g, clones);
    SameShapeVisits(a, g);
    VisitIndex(a, |a|, i);
    var v := Visits(a)[i];
    assert |Shape(a)| == |a| && |Shape(g)| == |g|;
    assert Shape(a)[v.y] == Shape(g)[v.y];
    OffsetShape(a, g, v.y);
    VisitAt(g, |g|, v.y, v.x);
  }

  lemma MulMono(a: nat, b: nat, p: nat)
    requires a <= b
    ensures a * p <= b * p
  {
  }

  class MGrid {
    const canvas: Canvas
    const matrix: MMatrix

    constructor (canvas: Canvas, matrix: MMatrix)
      ensures this.canvas == canvas && this.matrix == matrix
    {
      this.canvas := canvas;
      this.matrix := matrix;
    }

    /** `getSize(el)`: the frame-0 extent for template style `el`. The
        height spans the rows, the width the entries of the first row;
        each ends at the far edge of the last cell's box, so the gap after
        the last cell is not counted. A template without a margin gives NaN
        (`parseInt("")`), modelled as `None`. */
    function GetSize(el: Style): (r: Option<Extent>)
      reads this, matrix
      requires |matrix.frames| > 0 && |matrix.frames[0]| > 0
      ensures r.Some? <==> el.margin.Some?
      ensures r.Some? ==> var pitch := Pitch(el, el.margin.value);
        r.value.h == (|matrix.frames[0]| - 1) * pitch + BoxSize(el) &&
        (|matrix.frames[0][0]| > 0 ==> r.value.w == (|matrix.frames[0][0]| - 1) * pitch + BoxSize(el)) &&
        (|matrix.frames[0][0]| == 0 ==> r.value.w + el.margin.value == 0)
    {
      if el.margin.None? then None
      else
        var m := el.margin.value;
        var pitch := el.height + el.borderWidth * 2 + m;
        Some(Extent(pitch * |matrix.frames[0]| - m, pitch * |matrix.frames[0][0]| - m))
    }

    /** `render(el)`: sizes the canvas from `getSize` (before the margin is
        consumed), takes the spacing from the template's margin (15 if it
        has none) and zeroes that margin, normalises frame 0, then appends
        one clone of the template per cell in traversal order, placing the
        clone of visit `i` at `(x * pitch, y * pitch)` and attaching it to
        that cell. */
    method Render(el: Element)
      requires |matrix.frames| > 0 && |matrix.frames[0]| > 0 && Normalizable(matrix.frames[0])
      modifies canvas, matrix, el
      ensures var size := old(GetSize(el.style));
        (size.Some? ==> canvas.height == Some(size.value.h) && canvas.width == Some(size.value.w)) &&
        (size.None? ==> canvas.height == old(canvas.height) && canvas.width == old(canvas.width))
      ensures el.style == old(el.style).(margin := ZeroedMargin(old(el.style.margin)))
      ensures el.listeners == old(el.listeners)
      ensures |canvas.children| == old(|canvas.children|) + |Visits(old(matrix.frames[0]))|
      ensures canvas.children[..old(|canvas.children|)] == old(canvas.children)
      ensures matrix.frames == old(matrix.frames)[0 :=
        Attach(NormalizeFrame(old(matrix.frames[0])), canvas.children[old(|canvas.children|)..])]
      ensures forall i | old(|canvas.children|) <= i < |canvas.children| ::
        fresh(canvas.children[i]) && canvas.children[i].listeners == []
      ensures forall i, j | old(|canvas.children|) <= i < j < |canvas.children| ::
        canvas.children[i] != canvas.children[j]
      ensures forall i | 0 <= i < |Visits(old(matrix.frames[0]))| ::
        var v := Visits(old(matrix.frames[0]))[i];
        canvas.children[old(|canvas.children|) + i].style ==
          Placed(el.style, Pitch(el.style, Spacing(old(el.style.margin))), v.x, v.y)
    {
      ghost var f0 := matrix.frames[0];
      ghost var c0 := |canvas.children|;
      var s := 15;
      var size := GetSize(el.style);
      if size.Some? {
        canvas.height := Some(size.value.h);
        canvas.width := Some(size.value.w);
      }
      if el.style.margin.Some? {
        s := el.style.margin.value;
        el.style := el.style.(margin := Some(0));
      }
      matrix.Prepare();
      var visits := matrix.Each(None);
      PlaceClones(el, s, visits);
      SameShapeVisits(f0, NormalizeFrame(f0));
    }

    /** The traversal of `render`: for each visit, a clone of the template
        placed at `(x * pitch, y * pitch)`, attached to the visited cell and
        appended to the canvas. */
    method PlaceClones(el: Element, s: nat, visits: seq<Visit>)
      requires |matrix.frames| > 0 && visits == Visits(matrix.frames[0])
      requires forall y, x | 0 <= y < |matrix.frames[0]| && 0 <= x < |matrix.frames[0][y]| ::
        matrix.frames[0][y][x].Cell?
      modifies canvas, matrix
      ensures canvas.height == old(canvas.height) && canvas.width == old(canvas.width)
      ensures |canvas.children| == old(|canvas.children|) + |visits|
      ensures canvas.children[..old(|canvas.children|)] == old(canvas.children)
      ensures matrix.frames == old(matrix.frames)[0 :=
        Attach(old(matrix.frames[0]), canvas.children[old(|canvas.children|)..])]
      ensures forall i | old(|canvas.children|) <= i < |canvas.children| ::
        fresh(canvas.children[i]) && canvas.children[i].listeners == []
      ensures forall i, j | old(|canvas.children|) <= i < j < |canvas.children| ::
        canvas.children[i] != canvas.children[j]
      ensures forall i | 0 <= i < |visits| ::
        canvas.children[old(|canvas.children|) + i].style == Placed(el.style, Pitch(el.style, s), visits[i].x, visits[i].y)
    {
      ghost var g := matrix.frames[0];
      ghost var c0 := |canvas.children|;
      ghost var start := matrix.frames;
      VisitsUpToLength(g, |g|);
      for i := 0 to |visits|
        invariant |canvas.children| == c0 + i
        invariant canvas.children[..c0] == old(canvas.children)
        invariant canvas.height == old(canvas.height) && canvas.width == old(canvas.width)
        invariant |matrix.frames| == |start| && matrix.frames == start[0 := matrix.frames[0]]
        invariant |matrix.frames[0]| == |g|
        invariant forall y | 0 <= y < |g| :: |matrix.frames[0][y]| == |g[y]|
        invariant forall y, x | 0 <= y < |g| && 0 <= x < |g[y]| ::
          matrix.frames[0][y][x] ==
            if Offset(g, y) + x < i then g[y][x].(el := Some(canvas.children[c0 + Offset(g, y) + x]))
            else g[y][x]
        invariant forall j | c0 <= j < c0 + i ::
          fresh(canvas.children[j]) && canvas.children[j].listeners == [] &&
          canvas.children[j].style == Placed(el.style, Pitch(el.style, s), visits[j - c0].x, visits[j - c0].y)
        invariant forall j, k | c0 <= j < k < c0 + i :: canvas.children[j] != canvas.children[k]
      {
        var v := visits[i];
        VisitIndex(g, |g|, i);
        ghost var before := matrix.frames[0];
        var clone := PlaceClone(el, s, v);
        forall y, x | 0 <= y < |g| && 0 <= x < |g[y]|
          ensures matrix.frames[0][y][x] ==
            if Offset(g, y) + x < i + 1 then g[y][x].(el := Some(canvas.children[c0 + Offset(g, y) + x]))
            else g[y][x]
        {
          if Offset(g, y) + x == i {
            PositionUnique(g, y, x, v.y, v.x);
          } else {
            assert matrix.frames[0][y][x] == before[y][x];
          }
        }
      }
      AttachAll(g, canvas.children[c0..], matrix.frames[0]);
    }

    /** The callback `render` hands to `each`, for one visit: clone the
        template, place the clone, attach it to the visited cell and append
        it to the canvas. */
    method PlaceClone(el: Element, s: nat, v: Visit) returns (clone: Element)
      requires |matrix.frames| > 0 && v.y < |matrix.frames[0]| && v.x < |matrix.frames[0][v.y]|
      requires v.value.Cell?
      modifies canvas, matrix
      ensures fresh(clone) && clone.listeners == []
      ensures clone.style == Placed(el.style, Pitch(el.style, s), v.x, v.y)
      ensures canvas.children == old(canvas.children) + [clone]
      ensures canvas.height == old(canvas.height) && canvas.width == old(canvas.width)
      ensures matrix.frames == old(matrix.frames)[0 :=
        old(matrix.frames[0])[v.y := old(matrix.frames[0][v.y])[v.x := v.value.(el := Some(clone))]]]
    {
      clone := el.CloneNode();
      clone.style := clone.style.(top := v.y * (clone.style.height + clone.style.borderWidth * 2 + s));
      clone.style := clone.style.(left := v.x * (clone.style.height + clone.style.borderWidth * 2 + s));
      var row := matrix.frames[0][v.y][v.x := v.value.(el := Some(clone))];
      matrix.frames := matrix.frames[0 := matrix.frames[0][v.y := row]];
      canvas.AppendChild(clone);
    }
  }

  /** With a template that has a margin, every cell box `render` places in
      a row of at most the first row's length lies inside the extent
      `getSize` reports; a cell of non-zero size past the first row's
      length (in a longer, ragged row) reaches outside it, as the width
      follows the first row only. */
  lemma {:induction false} ExtentFitsCells(grid: MGrid, el: Style, y: nat, x: nat)
    requires |grid.matrix.frames| > 0 && y < |grid.matrix.frames[0]| && el.margin.Some?
    ensures var size := grid.GetSize(el).value;
      var p := Pitch(el, el.margin.value);
      y * p + BoxSize(el) <= size.h &&
      (x < |grid.matrix.frames[0][0]| ==> x * p + BoxSize(el) <= size.w) &&
      (x >= |grid.matrix.frames[0][0]| && BoxSize(el) > 0 ==> x * p + BoxSize(el) > size.w)
  {
    var f := grid.matrix.frames[0];
    var p := Pitch(el, el.margin.value);
    MulMono(y, |f| - 1, p);
    if x < |f[0]| {
      MulMono(x, |f[0]| - 1, p);
    } else {
      MulMono(|f[0]|, x, p);
    }
  }
}
