/** The order in which `MMatrix.each` visits the entries of one frame:
    rows by ascending index, and within a row the columns by ascending
    index (for-in over a dense array yields its indices in order). */
module Traversal {
  import opened Dom

  /** One frame: a sequence of rows, each a sequence of entries. Rows may
      differ in length; the traversal follows each row's own length. */
  type Frame = seq<seq<Value>>

  /** One callback invocation of `each`: the entry and its column and row. */
  datatype Visit = Visit(value: Value, x: nat, y: nat)

  function RowVisits(row: seq<Value>, y: nat): seq<Visit>
  {
    seq(|row|, x requires 0 <= x < |row| => Visit(row[x], x, y))
  }

  /** The visits made to rows 0 .. n-1. */
  function VisitsUpTo(f: Frame, n: nat): seq<Visit>
    requires n <= |f|
  {
    if n == 0 then [] else VisitsUpTo(f, n - 1) + RowVisits(f[n - 1], n - 1)
  }

  /** Every visit `each` makes to frame `f`, in order. */
  function Visits(f: Frame): seq<Visit>
  {
    VisitsUpTo(f, |f|)
  }

  /** The number of entries in the rows above row `y`. */
  function Offset(f: Frame, y: nat): nat
    requires y <= |f|
  {
    if y == 0 then 0 else Offset(f, y - 1) + |f[y - 1]|
  }

  /** The row lengths of a frame. */
  function Shape(f: Frame): seq<nat>
  {
    seq(|f|, y requires 0 <= y < |f| => |f[y]|)
  }

  /** Visit `i` comes strictly before visit `j` in row-major order. */
  predicate Before(a: Visit, b: Visit)
  {
    a.y < b.y || (a.y == b.y && a.x < b.x)
  }

  lemma {:induction false} VisitsUpToLength(f: Frame, n: nat)
    requires n <= |f|
    ensures |VisitsUpTo(f, n)| == Offset(f, n)
  {
    if n > 0 {
      VisitsUpToLength(f, n - 1);
    }
  }

  lemma {:induction false} OffsetGrows(f: Frame, y: nat, z: nat)
    requires y < z <= |f|
    ensures Offset(f, y) + |f[y]| <= Offset(f, z)
  {
    if z > y + 1 {
      OffsetGrows(f, y, z - 1);
    }
  }

  /** The entry at row `y`, column `x` is visit number `Offset(f, y) + x`. */
  lemma {:induction false} VisitAt(f: Frame, n: nat, y: nat, x: nat)
    requires y < n <= |f| && x < |f[y]|
    ensures Offset(f, y) + x < |VisitsUpTo(f, n)|
    ensures VisitsUpTo(f, n)[Offset(f, y) + x] == Visit(f[y][x], x, y)
  {
    VisitsUpToLength(f, n - 1);
    if y < n - 1 {
      VisitAt(f, n - 1, y, x);
    }
  }

  /** Visit number `i` is the entry at its own row and column. */
  lemma {:induction false} VisitIndex(f: Frame, n: nat, i: nat)
    requires n <= |f| && i < |VisitsUpTo(f, n)|
    ensures var v := VisitsUpTo(f, n)[i];
      v.y < n && v.x < |f[v.y]| && Offset(f, v.y) + v.x == i && v.value == f[v.y][v.x]
  {
    VisitsUpToLength(f, n - 1);
    if i < |VisitsUpTo(f, n - 1)| {
      VisitIndex(f, n - 1, i);
    }
  }

  /** Distinct positions have distinct visit numbers. */
  lemma PositionUnique(f: Frame, y1: nat, x1: nat, y2: nat, x2: nat)
    requires y1 < |f| && x1 < |f[y1]| && y2 < |f| && x2 < |f[y2]|
    requires Offset(f, y1) + x1 == Offset(f, y2) + x2
    ensures y1 == y2 && x1 == x2
  {
    if y1 < y2 {
      OffsetGrows(f, y1, y2);
    } else if y2 < y1 {
      OffsetGrows(f, y2, y1);
    }
  }

  /** Every visit is to an existing entry, and carries that entry. */
  lemma VisitsSound(f: Frame, i: nat)
    requires i < |Visits(f)|
    ensures Visits(f)[i].y < |f| && Visits(f)[i].x < |f[Visits(f)[i].y]|
    ensures Visits(f)[i].value == f[Visits(f)[i].y][Visits(f)[i].x]
  {
    VisitIndex(f, |f|, i);
  }

  /** Every entry of the frame is visited, and exactly once. */
  lemma VisitedExactlyOnce(f: Frame, y: nat, x: nat)
    requires y < |f| && x < |f[y]|
    ensures Offset(f, y) + x < |Visits(f)|
    ensures Visits(f)[Offset(f, y) + x] == Visit(f[y][x], x, y)
    ensures forall i | 0 <= i < |Visits(f)| && Visits(f)[i].x == x && Visits(f)[i].y == y ::
      i == Offset(f, y) + x
  {
    VisitAt(f, |f|, y, x);
    forall i | 0 <= i < |Visits(f)| && Visits(f)[i].x == x && Visits(f)[i].y == y
      ensures i == Offset(f, y) + x
    {
      VisitIndex(f, |f|, i);
    }
  }

  /** The visits are in strict row-major order. */
  lemma RowMajor(f: Frame, i: nat, j: nat)
    requires i < j < |Visits(f)|
    ensures Before(Visits(f)[i], Visits(f)[j])
  {
    var v, w := Visits(f)[i], Visits(f)[j];
    VisitIndex(f, |f|, i);
    VisitIndex(f, |f|, j);
    if w.y < v.y {
      OffsetGrows(f, w.y, v.y);
    }
  }

  /** The number of visits is the number of entries; for an R x C frame it is R*C. */
  lemma {:induction false} VisitCount(f: Frame, c: nat)
    requires forall y | 0 <= y < |f| :: |f[y]| == c
    ensures |Visits(f)| == |f| * c
    ensures forall y | 0 <= y <= |f| :: Offset(f, y) == y * c
  {
    VisitsUpToLength(f, |f|);
    forall y | 0 <= y <= |f|
      ensures Offset(f, y) == y * c
    {
      OffsetRect(f, c, y);
    }
  }

  lemma {:induction false} OffsetRect(f: Frame, c: nat, y: nat)
    requires y <= |f|
    requires forall k | 0 <= k < |f| :: |f[k]| == c
    ensures Offset(f, y) == y * c
  {
    if y > 0 {
      OffsetRect(f, c, y - 1);
    }
  }

  /** Frames of the same shape have the same offsets. */
  lemma {:induction false} OffsetShape(f: Frame, g: Frame, y: nat)
    requires Shape(f) == Shape(g) && y <= |f|
    ensures |g| == |f| && Offset(f, y) == Offset(g, y)
  {
    assert |Shape(f)| == |f| && |Shape(g)| == |g|;
    if y > 0 {
      assert Shape(f)[y - 1] == Shape(g)[y - 1];
      OffsetShape(f, g, y - 1);
    }
  }

  /** Frames of the same shape are visited at the same positions. */
  lemma SameShapeVisits(f: Frame, g: Frame)
    requires Shape(f) == Shape(g)
    ensures |Visits(f)| == |Visits(g)|
    ensures forall i | 0 <= i < |Visits(f)| ::
      Visits(f)[i].x == Visits(g)[i].x && Visits(f)[i].y == Visits(g)[i].y
  {
    assert |Shape(f)| == |f| && |Shape(g)| == |g|;
    VisitsUpToLength(f, |f|);
    VisitsUpToLength(g, |g|);
    OffsetShape(f, g, |f|);
    forall i | 0 <= i < |Visits(f)|
      ensures Visits(f)[i].x == Visits(g)[i].x && Visits(f)[i].y == Visits(g)[i].y
    {
      VisitIndex(f, |f|, i);
      VisitIndex(g, |g|, i);
      var v, w := Visits(f)[i], Visits(g)[i];
      OffsetShape(f, g, v.y);
      OffsetShape(f, g, w.y);
      assert Shape(f)[v.y] == Shape(g)[v.y];
      assert Shape(f)[w.y] == Shape(g)[w.y];
      PositionUnique(f, v.y, v.x, w.y, w.x);
    }
  }
}
