/** `getMatrix` and `MMatrix`: the frames of raw entries, their
    normalisation into cell records (`prepare`) and their traversal
    (`each`). */
module Matrix {
  import opened Dom
  import opened Traversal

  /** `v || 0`: the value `getMatrix` fills its rows with. */
  function FillValue(v: Value): (r: Value)
    ensures Truthy(v) ==> r == v
    ensures !Truthy(v) ==> r == Num(0)
  {
    if Truthy(v) then v else Num(0)
  }

  /** `getMatrix(wc, hc, v)`: `hc` rows of `wc` entries, every entry `v || 0`.
      For a number `v` the row is mapped with Number.prototype.valueOf, for
      any other value with Object.prototype.valueOf; both give back `v`. */
  method GetMatrix(wc: nat, hc: nat, v: Value) returns (matrix: seq<seq<Value>>)
    ensures |matrix| == hc
    ensures forall y | 0 <= y < hc :: |matrix[y]| == wc
    ensures forall y, x | 0 <= y < hc && 0 <= x < wc ::
      matrix[y][x] == (if Truthy(v) then v else Num(0))
  {
    var fill := FillValue(v);
    matrix := [];
    var y := 0;
    while y < hc
      invariant y <= hc && |matrix| == y
      invariant forall k | 0 <= k < y :: matrix[k] == seq(wc, _ => fill)
    {
      matrix := matrix + [seq(wc, _ => fill)];
      y := y + 1;
    }
  }

  /** `value.color || null`, defined for every value but `undefined` and
      `null` (on which reading `.color` throws). */
  function ColorOf(v: Value): (c: Value)
    requires v != Undefined && v != Null
    ensures c == Null || Truthy(c)
    ensures Truthy(Prop(v, "color")) ==> c == Prop(v, "color")
    ensures !Truthy(Prop(v, "color")) ==> c == Null
    ensures !v.Obj? && !v.Cell? ==> c == Null
  {
    var raw := Prop(v, "color");
    if Truthy(raw) then raw else Null
  }

  /** The record `prepare` writes in place of the entry `v` at row `y`, column `x`. */
  function Normalize(v: Value, x: nat, y: nat): (c: Value)
    requires v != Undefined && v != Null
    ensures c.Cell? && c.el == None && c.x == x && c.y == y
    ensures c.printed <==> Truthy(v)
    ensures c.color == ColorOf(v)
  {
    Cell(None, ColorOf(v), Truthy(v), y, x)
  }

  /** No entry of the frame is `undefined` or `null`. */
  predicate Normalizable(f: Frame)
  {
    forall y, x | 0 <= y < |f| && 0 <= x < |f[y]| :: f[y][x] != Undefined && f[y][x] != Null
  }

  /** The frame after `prepare` rewrote every entry. */
  function NormalizeFrame(f: Frame): (g: Frame)
    requires Normalizable(f)
    ensures Shape(g) == Shape(f)
    ensures forall y, x | 0 <= y < |g| && 0 <= x < |g[y]| ::
      g[y][x].Cell? && g[y][x].x == x && g[y][x].y == y
    ensures forall y, x | 0 <= y < |f| && 0 <= x < |f[y]| ::
      |g[y]| == |f[y]| && g[y][x] == Normalize(f[y][x], x, y)
  {
    seq(|f|, y requires 0 <= y < |f| =>
      seq(|f[y]|, x requires 0 <= x < |f[y]| => Normalize(f[y][x], x, y)))
  }

  /** Normalising a cell record again keeps its colour and coordinates,
      drops its element and switches it on: records are objects, so
      `Boolean(record)` is true whatever the record's own `print` was. */
  lemma NormalizeTwice(v: Value, x: nat, y: nat)
    requires v != Undefined && v != Null
    ensures Normalize(Normalize(v, x, y), x, y) == Cell(None, ColorOf(v), true, y, x)
    ensures !Truthy(v) ==> Normalize(Normalize(v, x, y), x, y) != Normalize(v, x, y)
  {
  }

  /** So a second `prepare` lights every cell of frame 0: `prepare` is not idempotent. */
  lemma {:induction false} PrepareTwiceLightsAll(f: Frame)
    requires Normalizable(f)
    ensures Normalizable(NormalizeFrame(f))
    ensures var g := NormalizeFrame(NormalizeFrame(f));
      forall y, x | 0 <= y < |f| && 0 <= x < |f[y]| ::
        g[y][x] == NormalizeFrame(f)[y][x].(printed := true)
  {
    var g1 := NormalizeFrame(f);
    assert Shape(g1) == Shape(f);
    forall y | 0 <= y < |f|
      ensures |g1[y]| == |f[y]|
    {
      assert Shape(g1)[y] == Shape(f)[y];
    }
    var g2 := NormalizeFrame(g1);
    forall y, x | 0 <= y < |f| && 0 <= x < |f[y]|
      ensures g2[y][x] == g1[y][x].(printed := true)
    {
      NormalizeTwice(f[y][x], x, y);
    }
  }

  /** The frame index `each` uses: `frame || 0`. */
  function FrameIndex(frame: Option<nat>): nat
  {
    if frame.Some? then frame.value else 0
  }

  class MMatrix {
    /** The frames, each a sequence of rows. */
    var frames: seq<Frame>

    constructor (frames: seq<Frame>)
      ensures this.frames == frames
    {
      this.frames := frames;
    }

    /** `each(callback, frame)`: the visits the callback receives, in order.
        A frame index past the last frame visits nothing. */
    method Each(frame: Option<nat>) returns (visits: seq<Visit>)
      ensures FrameIndex(frame) < |frames| ==> visits == Visits(frames[FrameIndex(frame)])
      ensures FrameIndex(frame) >= |frames| ==> visits == []
    {
      var k := if frame.Some? then frame.value else 0;
      visits := [];
      if k < |frames| {
        var m := frames[k];
        var y := 0;
        while y < |m|
          invariant y <= |m|
          invariant visits == VisitsUpTo(m, y)
        {
          var x := 0;
          while x < |m[y]|
            invariant x <= |m[y]|
            invariant visits == VisitsUpTo(m, y) + RowVisits(m[y], y)[..x]
          {
            visits := visits + [Visit(m[y][x], x, y)];
            x := x + 1;
          }
          y := y + 1;
        }
      }
    }

    /** `prepare()`: every entry of frame 0 is replaced, in place, by its
        cell record; the other frames are left alone. */
    method Prepare()
      requires |frames| > 0 ==> Normalizable(frames[0])
      modifies this
      ensures |old(frames)| == 0 ==> frames == old(frames)
      ensures |old(frames)| > 0 ==> frames == old(frames)[0 := NormalizeFrame(old(frames)[0])]
    {
      var visits := Each(None);
      if |frames| > 0 {
        ghost var f0 := frames[0];
        for i := 0 to |visits|
          invariant |frames| == |old(frames)| && frames == old(frames)[0 := frames[0]]
          invariant |frames[0]| == |f0|
          invariant forall y | 0 <= y < |f0| :: |frames[0][y]| == |f0[y]|
          invariant forall y, x | 0 <= y < |f0| && 0 <= x < |f0[y]| ::
            frames[0][y][x] == if Offset(f0, y) + x < i then Normalize(f0[y][x], x, y) else f0[y][x]
        {
          var v := visits[i];
          VisitIndex(f0, |f0|, i);
          ghost var before := frames[0];
          var row := frames[0][v.y][v.x := Normalize(v.value, v.x, v.y)];
          frames := frames[0 := frames[0][v.y := row]];
          forall y, x | 0 <= y < |f0| && 0 <= x < |f0[y]|
            ensures frames[0][y][x] ==
              if Offset(f0, y) + x < i + 1 then Normalize(f0[y][x], x, y) else f0[y][x]
          {
            if Offset(f0, y) + x == i {
              PositionUnique(f0, y, x, v.y, v.x);
            } else {
              assert frames[0][y][x] == before[y][x];
            }
          }
        }
        VisitsUpToLength(f0, |f0|);
        ghost var g := NormalizeFrame(f0);
        assert |g| == |f0|;
        forall y | 0 <= y < |f0|
          ensures frames[0][y] == g[y]
        {
          assert |g[y]| == |f0[y]|;
          forall x | 0 <= x < |f0[y]|
            ensures frames[0][y][x] == g[y][x]
          {
            VisitAt(f0, |f0|, y, x);
          }
        }
        assert frames[0] == g;
      }
    }
  }
}
