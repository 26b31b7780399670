/** src/lib/shapes/rectangle.ts: an axis-aligned rectangle given by two
    corners. Shapes are immutable values here: `copy` is the value itself,
    and `mutate` returns a new value, so the receiver is never touched. */
module Rectangles {
  import opened Numbers
  import opened Random
  import opened Scanlines
  import Svg
  import Core

  /** A rectangle on a `width` x `height` canvas with corners `(x1, y1)` and
      `(x2, y2)`, in either order. */
  datatype Rectangle = Rectangle(width: int, height: int, x1: real, y1: real, x2: real, y2: real)

  /** Both corners lie on the canvas. Construction establishes this and
      `mutate` keeps it. */
  predicate InCanvas(s: Rectangle)
  {
    && 0.0 <= s.x1 <= (s.width - 1) as real && 0.0 <= s.x2 <= (s.width - 1) as real
    && 0.0 <= s.y1 <= (s.height - 1) as real && 0.0 <= s.y2 <= (s.height - 1) as real
  }

  /** The largest step `mutate` scales a normal draw by. */
  const M: real := 16.0

  /** The constructor with options: corner 1 anywhere on the canvas, corner 2
      within 16 pixels of it on each axis, clamped. The four draws are the
      four `int` calls, in order. */
  function New(width: int, height: int, rx: Rand, ry: Rand, rdx: Rand, rdy: Rand): (s: Rectangle)
    ensures s.width == width && s.height == height
    ensures s.x1 == s.x1.Floor as real && s.y1 == s.y1.Floor as real
  {
    var x1 := Int(rx, 0, width - 1) as real;
    var y1 := Int(ry, 0, height - 1) as real;
    Rectangle(width, height, x1, y1,
      Clamp(0.0, (width - 1) as real, x1 + Int(rdx, -16, 16) as real),
      Clamp(0.0, (height - 1) as real, y1 + Int(rdy, -16, 16) as real))
  }

  /** On a non-empty canvas a new rectangle lies on the canvas and its
      corners are at most 16 pixels apart on each axis. */
  lemma NewInCanvas(width: int, height: int, rx: Rand, ry: Rand, rdx: Rand, rdy: Rand)
    requires width >= 1 && height >= 1
    ensures InCanvas(New(width, height, rx, ry, rdx, rdy))
    ensures var s := New(width, height, rx, ry, rdx, rdy);
      -M <= s.x2 - s.x1 <= M && -M <= s.y2 - s.y1 <= M
  {
    IntInRange(rx, 0, width - 1);
    IntInRange(ry, 0, height - 1);
    IntInRange(rdx, -16, 16);
    IntInRange(rdy, -16, 16);
  }

  /** `ShapeBounds`. */
  datatype Box = Box(x1: real, y1: real, x2: real, y2: real)

  /** `bounds()`: the same coordinates, swapped into order on each axis. */
  function Bounds(s: Rectangle): (b: Box)
    ensures b.x1 <= b.x2 && b.y1 <= b.y2
    ensures multiset{b.x1, b.x2} == multiset{s.x1, s.x2}
    ensures multiset{b.y1, b.y2} == multiset{s.y1, s.y2}
  {
    var (x1, x2) := if s.x1 > s.x2 then (s.x2, s.x1) else (s.x1, s.x2);
    var (y1, y2) := if s.y1 > s.y2 then (s.y2, s.y1) else (s.y1, s.y2);
    Box(x1, y1, x2, y2)
  }

  /** `mutate()` on the draws it makes: `pick` is the `int(0, 1)` that
      chooses the corner, `n1` and `n2` the two `normal()` values. Case 0
      moves corner 1, case 1 moves corner 2; the other corner and the canvas
      size stay as they were. */
  function Mutate(s: Rectangle, pick: Rand, n1: real, n2: real): (r: Rectangle)
    ensures r.width == s.width && r.height == s.height
    ensures Int(pick, 0, 1) == 0 ==> r.x2 == s.x2 && r.y2 == s.y2
    ensures Int(pick, 0, 1) == 1 ==> r.x1 == s.x1 && r.y1 == s.y1
  {
    var w, h := (s.width - 1) as real, (s.height - 1) as real;
    match Int(pick, 0, 1)
    case 0 => s.(x1 := Clamp(0.0, w, s.x1 + n1 * M), y1 := Clamp(0.0, h, s.y1 + n2 * M))
    case 1 => s.(x2 := Clamp(0.0, w, s.x2 + n1 * M), y2 := Clamp(0.0, h, s.y2 + n2 * M))
    case _ => s
  }

  /** `mutate` keeps the rectangle on the canvas, moves exactly one of the two
      corners, and moves it exactly by the scaled draws whenever that target
      lies on the canvas. */
  lemma MutateMovesOneCorner(s: Rectangle, pick: Rand, n1: real, n2: real)
    requires InCanvas(s)
    ensures var r := Mutate(s, pick, n1, n2);
      && InCanvas(r)
      && ((r.x1, r.y1) == (s.x1, s.y1) || (r.x2, r.y2) == (s.x2, s.y2))
    ensures var r := Mutate(s, pick, n1, n2);
      var (tx, ty) := if Int(pick, 0, 1) == 0 then (s.x1 + n1 * M, s.y1 + n2 * M) else (s.x2 + n1 * M, s.y2 + n2 * M);
      var (mx, my) := if Int(pick, 0, 1) == 0 then (r.x1, r.y1) else (r.x2, r.y2);
      (0.0 <= tx <= (s.width - 1) as real ==> mx == tx) && (0.0 <= ty <= (s.height - 1) as real ==> my == ty)
  {
    IntDefaultIsBit(pick);
  }

  /** The number of rows `for (let y = y1; y <= y2; ++y)` visits. */
  function RowCount(b: Box): nat
  {
    if b.y1 <= b.y2 then (b.y2 - b.y1).Floor + 1 else 0
  }

  /** The lines `rasterize` emits: one per visited row, each spanning the
      bounds' columns. */
  function Lines(s: Rectangle): (lines: seq<Scanline>)
    ensures |lines| == RowCount(Bounds(s))
  {
    var b := Bounds(s);
    seq(RowCount(b), k => Scanlines.New(b.y1 + k as real, b.x1, b.x2))
  }

  /** `rasterize()`. */
  method Rasterize(s: Rectangle) returns (lines: seq<Scanline>)
    ensures lines == Lines(s)
  {
    var b := Bounds(s);
    lines := [];
    var y := b.y1;
    while y <= b.y2
      invariant y == b.y1 + |lines| as real
      invariant |lines| <= RowCount(b)
      invariant y <= b.y2 <==> |lines| < RowCount(b)
      invariant forall k :: 0 <= k < |lines| ==> lines[k] == Scanlines.New(b.y1 + k as real, b.x1, b.x2)
      decreases RowCount(b) - |lines|
    {
      lines := lines + [Scanlines.New(y, b.x1, b.x2)];
      y := y + 1.0;
    }
  }

  /** On the canvas, line `k` lies on row `trunc(y1) + k` and spans columns
      `trunc(x1) .. trunc(x2)` of the bounds: the rows ascend one at a time
      and the lines are in bounds. */
  lemma LinesShape(s: Rectangle)
    requires InCanvas(s)
    ensures var b, lines := Bounds(s), Lines(s);
      forall k :: 0 <= k < |lines| ==>
        lines[k] == Scanline(b.y1.Floor + k, b.x1.Floor, b.x2.Floor)
    ensures AllInBounds(Lines(s), s.width, s.height)
  {
    var b, lines := Bounds(s), Lines(s);
    forall k | 0 <= k < |lines|
      ensures lines[k] == Scanline(b.y1.Floor + k, b.x1.Floor, b.x2.Floor)
      ensures InBounds(lines[k], s.width, s.height)
    {
      assert (b.y1 + k as real).Floor == b.y1.Floor + k;
      assert b.y1 + k as real <= b.y2;
    }
  }

  /** With integer corners there is exactly one line for each row from `y1`
      to `y2` of the bounds, and none for any other row. */
  lemma LinesIntegral(s: Rectangle, y: int)
    requires InCanvas(s)
    requires s.y1 == s.y1.Floor as real && s.y2 == s.y2.Floor as real
    ensures var b, lines := Bounds(s), Lines(s);
      (exists k :: 0 <= k < |lines| && lines[k].y == y) <==> b.y1 <= y as real <= b.y2
  {
    var b, lines := Bounds(s), Lines(s);
    LinesShape(s);
    if b.y1 <= y as real <= b.y2 {
      var k := y - b.y1.Floor;
      assert 0 <= k < |lines| && lines[k].y == y;
    }
  }

  /** No pixel of a rectangle on the canvas is covered twice, so the exact
      incremental update of the core applies to it. */
  lemma LinesDistinct(s: Rectangle)
    requires InCanvas(s)
    ensures Core.Distinct(Core.Covered(Lines(s), s.width))
  {
    LinesShape(s);
    Core.DistinctRowsCovered(Lines(s), s.width, s.height);
  }

  /** `toSVG()`: a `rect` at the bounds' top-left corner whose size counts
      both edge pixels. */
  function ToSvg(s: Rectangle): (e: Svg.Element)
    ensures e.Rect? && e.width >= 1.0 && e.height >= 1.0
    ensures var b := Bounds(s);
      e.x == b.x1 && e.y == b.y1 && e.x + e.width - 1.0 == b.x2 && e.y + e.height - 1.0 == b.y2
  {
    var b := Bounds(s);
    Svg.Rect(b.x1, b.y1, b.x2 - b.x1 + 1.0, b.y2 - b.y1 + 1.0)
  }
}
