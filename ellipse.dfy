/** lib/shapes/ellipse.ts: an axis-aligned ellipse, or a circle when the
    `circle` flag is set. Shapes are immutable values here: `copy` is the
    value itself and `mutate` returns a new value. */
module Ellipses {
  import opened Numbers
  import opened Random
  import opened Scanlines
  import Svg
  import Core

  datatype Ellipse = Ellipse(width: int, height: int, circle: bool, x: real, y: real, rx: real, ry: real)

  /** The centre lies on the canvas, both radii are at least 1, and a circle
      has equal radii. Construction establishes this and `mutate` keeps it. */
  predicate WellFormed(s: Ellipse)
  {
    && 0.0 <= s.x <= (s.width - 1) as real && 0.0 <= s.y <= (s.height - 1) as real
    && s.rx >= 1.0 && s.ry >= 1.0
    && (s.circle ==> s.rx == s.ry)
  }

  /** The largest step `mutate` scales a normal draw by. */
  const M: real := 16.0

  /** The constructor with options. The draws are the `int` calls in order;
      a circle makes no fourth draw and `rry` is then unused. */
  function New(width: int, height: int, circle: bool, rx: Rand, ry: Rand, rrx: Rand, rry: Rand): (s: Ellipse)
    ensures s.width == width && s.height == height && s.circle == circle
    ensures s.circle ==> s.rx == s.ry
  {
    var radius := Int(rrx, 1, 32) as real;
    Ellipse(width, height, circle, Int(rx, 0, width - 1) as real, Int(ry, 0, height - 1) as real,
      radius, if circle then radius else Int(rry, 1, 32) as real)
  }

  /** On a non-empty canvas a new ellipse is well formed, its radii are
      integers in `[1, 32]` and its centre is a pixel. */
  lemma NewWellFormed(width: int, height: int, circle: bool, rx: Rand, ry: Rand, rrx: Rand, rry: Rand)
    requires width >= 1 && height >= 1
    ensures var s := New(width, height, circle, rx, ry, rrx, rry);
      && WellFormed(s)
      && 1.0 <= s.rx <= 32.0 && 1.0 <= s.ry <= 32.0
      && s.rx == s.rx.Floor as real && s.ry == s.ry.Floor as real
      && s.x == s.x.Floor as real && s.y == s.y.Floor as real
  {
    IntInRange(rx, 0, width - 1);
    IntInRange(ry, 0, height - 1);
    IntInRange(rrx, 1, 32);
    IntInRange(rry, 1, 32);
  }

  /** `mutate()` on its draws: `pick` is the `int(0, 2)` choosing the group,
      `n1` and `n2` the `normal()` values (case 0 uses both, cases 1 and 2
      only `n1`). Exactly one group changes: the centre, or `rx` (and `ry`
      with it for a circle), or `ry` (and `rx` with it for a circle). */
  function Mutate(s: Ellipse, pick: Rand, n1: real, n2: real): (r: Ellipse)
    ensures r.width == s.width && r.height == s.height && r.circle == s.circle
    ensures Int(pick, 0, 2) == 0 ==> r.rx == s.rx && r.ry == s.ry
    ensures Int(pick, 0, 2) == 1 ==> r.x == s.x && r.y == s.y && (!s.circle ==> r.ry == s.ry)
    ensures Int(pick, 0, 2) == 2 ==> r.x == s.x && r.y == s.y && (!s.circle ==> r.rx == s.rx)
  {
    var w, h := (s.width - 1) as real, (s.height - 1) as real;
    match Int(pick, 0, 2)
    case 0 => s.(x := Clamp(0.0, w, s.x + n1 * M), y := Clamp(0.0, h, s.y + n2 * M))
    case 1 =>
      var rx := Clamp(1.0, w, s.rx + n1 * M);
      s.(rx := rx, ry := if s.circle then rx else s.ry)
    case 2 =>
      var ry := Clamp(1.0, h, s.ry + n1 * M);
      s.(ry := ry, rx := if s.circle then ry else s.rx)
    case _ => s
  }

  /** `mutate` keeps an ellipse well formed (in particular a circle stays a
      circle) and can change nothing but the centre or the radii; a changed
      `rx` is clamped to `[1, max(1, w - 1)]` and a changed `ry` to
      `[1, max(1, h - 1)]`, the other radius of a circle following. */
  lemma MutateWellFormed(s: Ellipse, pick: Rand, n1: real, n2: real)
    requires WellFormed(s)
    ensures WellFormed(Mutate(s, pick, n1, n2))
    ensures var r := Mutate(s, pick, n1, n2);
      (r.x, r.y) == (s.x, s.y) || (r.rx, r.ry) == (s.rx, s.ry)
    ensures Int(pick, 0, 2) == 1 ==> var r := Mutate(s, pick, n1, n2);
      1.0 <= r.rx <= MaxR(1.0, (s.width - 1) as real) && (s.circle ==> r.ry == r.rx)
    ensures Int(pick, 0, 2) == 2 ==> var r := Mutate(s, pick, n1, n2);
      1.0 <= r.ry <= MaxR(1.0, (s.height - 1) as real) && (s.circle ==> r.rx == r.ry)
  {
    IntInRange(pick, 0, 2);
  }

  /** The number of values `dy = 0, 1, ...` with `dy < ry`. */
  function DyCount(ry: real): nat
  {
    if ry <= 0.0 then 0 else -((-ry).Floor)
  }

  lemma DyCountIs(ry: real, dy: nat)
    ensures dy as real < ry <==> dy < DyCount(ry)
  {
  }

  /** A pixel row of the canvas, tested on the real value before
      truncation. */
  predicate OnCanvasRow(y: real, height: int)
  {
    y >= 0.0 && y < height as real
  }

  /** `Math.sqrt(ry * ry - dy * dy) * aspect` with `aspect = rx / ry`. */
  function HalfWidth(s: Ellipse, sqrt: real -> real, dy: nat): real
    requires s.ry > 0.0
  {
    sqrt(s.ry * s.ry - (dy * dy) as real) * (s.rx / s.ry)
  }

  /** The lines one pass of the `dy` loop pushes. `sqrt` is `Math.sqrt`,
      left abstract. */
  function Step(s: Ellipse, sqrt: real -> real, dy: nat): (lines: seq<Scanline>)
    requires (dy as real) < s.ry
  {
    var y1, y2 := s.y - dy as real, s.y + dy as real;
    if !OnCanvasRow(y1, s.height) && !OnCanvasRow(y2, s.height) then []
    else
      var half := HalfWidth(s, sqrt, dy);
      var x1, x2 := MaxR(0.0, s.x - half), MinR((s.width - 1) as real, s.x + half);
      (if OnCanvasRow(y1, s.height) then [Scanlines.New(y1, x1, x2)] else [])
        + (if OnCanvasRow(y2, s.height) && dy > 0 then [Scanlines.New(y2, x1, x2)] else [])
  }

  /** The lines of the first `n` passes. */
  function LinesUpTo(s: Ellipse, sqrt: real -> real, n: nat): seq<Scanline>
    requires n <= DyCount(s.ry)
  {
    if n == 0 then [] else LinesUpTo(s, sqrt, n - 1) + Step(s, sqrt, n - 1)
  }

  /** The lines `rasterize` returns. */
  function Lines(s: Ellipse, sqrt: real -> real): seq<Scanline>
  {
    LinesUpTo(s, sqrt, DyCount(s.ry))
  }

  /** One pass of the `dy` loop of `rasterize()`: the skip test, the span,
      then the upper and the lower row. */
  method Pass(s: Ellipse, sqrt: real -> real, dy: nat) returns (step: seq<Scanline>)
    requires (dy as real) < s.ry
    ensures step == Step(s, sqrt, dy)
  {
    var y1, y2 := s.y - dy as real, s.y + dy as real;
    if (y1 < 0.0 || y1 >= s.height as real) && (y2 < 0.0 || y2 >= s.height as real) {
      return [];
    }
    var half := HalfWidth(s, sqrt, dy);
    var x1 := MaxR(0.0, s.x - half);
    var x2 := MinR((s.width - 1) as real, s.x + half);
    var upper: seq<Scanline> := [];
    var lower: seq<Scanline> := [];
    if y1 >= 0.0 && y1 < s.height as real {
      upper := [Scanlines.New(y1, x1, x2)];
    }
    if y2 >= 0.0 && y2 < s.height as real && dy > 0 {
      lower := [Scanlines.New(y2, x1, x2)];
    }
    step := upper + lower;
  }

  /** `rasterize()`. */
  method Rasterize(s: Ellipse, sqrt: real -> real) returns (lines: seq<Scanline>)
    ensures lines == Lines(s, sqrt)
  {
    lines := [];
    var dy := 0;
    DyCountIs(s.ry, 0);
    while (dy as real) < s.ry
      invariant 0 <= dy <= DyCount(s.ry)
      invariant lines == LinesUpTo(s, sqrt, dy)
      invariant (dy as real) < s.ry <==> dy < DyCount(s.ry)
      decreases DyCount(s.ry) - dy
    {
      var step := Pass(s, sqrt, dy);
      lines := lines + step;
      dy := dy + 1;
      DyCountIs(s.ry, dy);
    }
  }

  /** Every line `rasterize` emits lies on a row of the canvas. */
  lemma {:induction false} LinesOnRows(s: Ellipse, sqrt: real -> real, n: nat)
    requires n <= DyCount(s.ry)
    ensures forall k :: 0 <= k < |LinesUpTo(s, sqrt, n)| ==> 0 <= LinesUpTo(s, sqrt, n)[k].y < s.height
  {
    if n > 0 {
      LinesOnRows(s, sqrt, n - 1);
      DyCountIs(s.ry, n - 1);
    }
  }

  /** The lines of one pass: the upper row `y - dy` first, then the lower row
      `y + dy`, only for `dy > 0`, so the centre row appears once. The two
      mirrored rows share one span. */
  lemma StepRows(s: Ellipse, sqrt: real -> real, dy: nat)
    requires s.y >= 0.0 && (dy as real) < s.ry
    ensures MirrorRows(Step(s, sqrt, dy), s.y.Floor, dy)
    ensures var st := Step(s, sqrt, dy);
      |st| == 2 ==> st[0].x1 == st[1].x1 && st[0].x2 == st[1].x2
  {
    var c := s.y.Floor;
    assert (s.y + dy as real).Floor == c + dy;
    if s.y - dy as real >= 0.0 {
      assert (s.y - dy as real).Floor == c - dy;
    }
  }

  /** At most two lines, on rows `c - d` and `c + d`, in that order when
      there are two, and then `d > 0`. */
  predicate MirrorRows(st: seq<Scanline>, c: int, d: int)
  {
    && |st| <= 2
    && (forall k :: 0 <= k < |st| ==> st[k].y == c - d || st[k].y == c + d)
    && (|st| == 2 ==> d > 0 && st[0].y == c - d && st[1].y == c + d)
  }

  /** The half-width is never negative when `Math.sqrt` is not. */
  lemma HalfWidthNonNegative(s: Ellipse, sqrt: real -> real, dy: nat)
    requires WellFormed(s) && (dy as real) < s.ry
    requires forall v :: 0.0 <= v ==> 0.0 <= sqrt(v)
    ensures HalfWidth(s, sqrt, dy) >= 0.0
  {
    var d := dy as real;
    assert (dy * dy) as real == d * d;
    SquaresOrdered(d, s.ry);
    var v := s.ry * s.ry - (dy * dy) as real;
    assert 0.0 <= sqrt(v);
    QuotientPositive(s.rx, s.ry);
    ProductNonNegative(sqrt(v), s.rx / s.ry);
  }

  lemma SquaresOrdered(d: real, r: real)
    requires 0.0 <= d <= r
    ensures d * d <= r * r
  {
    assert d * d <= d * r;
    assert d * r <= r * r;
  }

  lemma QuotientPositive(a: real, b: real)
    requires a > 0.0 && b > 0.0
    ensures a / b > 0.0
  {
  }

  lemma ProductNonNegative(a: real, b: real)
    requires a >= 0.0 && b >= 0.0
    ensures a * b >= 0.0
  {
  }

  /** For a well-formed ellipse every span lies on the canvas and contains the
      centre column. */
  lemma {:induction false} LinesInBounds(s: Ellipse, sqrt: real -> real, n: nat)
    requires WellFormed(s) && n <= DyCount(s.ry)
    requires forall v :: 0.0 <= v ==> 0.0 <= sqrt(v)
    ensures AllInBounds(LinesUpTo(s, sqrt, n), s.width, s.height)
    ensures forall k :: 0 <= k < |LinesUpTo(s, sqrt, n)| ==>
      LinesUpTo(s, sqrt, n)[k].x1 <= s.x.Floor <= LinesUpTo(s, sqrt, n)[k].x2
  {
    if n > 0 {
      LinesInBounds(s, sqrt, n - 1);
      DyCountIs(s.ry, n - 1);
      StepInBounds(s, sqrt, n - 1);
      AppendSpans(LinesUpTo(s, sqrt, n - 1), Step(s, sqrt, n - 1), s.width, s.height, s.x.Floor);
    }
  }

  /** The lines of one pass lie on the canvas and contain the centre
      column. */
  lemma StepInBounds(s: Ellipse, sqrt: real -> real, dy: nat)
    requires WellFormed(s) && (dy as real) < s.ry
    requires forall v :: 0.0 <= v ==> 0.0 <= sqrt(v)
    ensures Spans(Step(s, sqrt, dy), s.width, s.height, s.x.Floor)
  {
    var st := Step(s, sqrt, dy);
    if |st| > 0 {
      HalfWidthNonNegative(s, sqrt, dy);
      var half := HalfWidth(s, sqrt, dy);
      TruncMonotone(MaxR(0.0, s.x - half), s.x);
      TruncMonotone(s.x, MinR((s.width - 1) as real, s.x + half));
      TruncMonotone(MinR((s.width - 1) as real, s.x + half), (s.width - 1) as real);
      TruncOfInt(s.width - 1);
      assert Trunc(s.x) == s.x.Floor;
    }
  }

  /** Lines on a `width` x `height` canvas whose spans contain column `c`. */
  predicate Spans(lines: seq<Scanline>, width: int, height: int, c: int)
  {
    AllInBounds(lines, width, height) && forall k :: 0 <= k < |lines| ==> lines[k].x1 <= c <= lines[k].x2
  }

  lemma AppendSpans(a: seq<Scanline>, b: seq<Scanline>, width: int, height: int, c: int)
    requires Spans(a, width, height, c) && Spans(b, width, height, c)
    ensures Spans(a + b, width, height, c)
  {
    forall k | 0 <= k < |a + b| ensures InBounds((a + b)[k], width, height) && (a + b)[k].x1 <= c <= (a + b)[k].x2 {
      if k < |a| { assert (a + b)[k] == a[k]; } else { assert (a + b)[k] == b[k - |a|]; }
    }
  }

  /** Every row lies strictly within `n` of row `c`. */
  predicate NearCentre(lines: seq<Scanline>, c: int, n: int)
  {
    forall k :: 0 <= k < |lines| ==> c - n < lines[k].y < c + n
  }

  /** The rows of the first `n` passes are pairwise different and lie within
      `n - 1` of the centre row. */
  lemma {:induction false} RowsDistinct(s: Ellipse, sqrt: real -> real, n: nat)
    requires s.y >= 0.0 && n <= DyCount(s.ry)
    ensures NearCentre(LinesUpTo(s, sqrt, n), s.y.Floor, n)
    ensures DistinctRows(LinesUpTo(s, sqrt, n))
  {
    if n > 0 {
      RowsDistinct(s, sqrt, n - 1);
      DyCountIs(s.ry, n - 1);
      StepRows(s, sqrt, n - 1);
      AppendRows(LinesUpTo(s, sqrt, n - 1), Step(s, sqrt, n - 1), s.y.Floor, n - 1);
      assert LinesUpTo(s, sqrt, n) == LinesUpTo(s, sqrt, n - 1) + Step(s, sqrt, n - 1);
    }
  }

  /** Appending the rows `c - d` and `c + d` (the latter only for `d > 0`)
      to rows that are distinct and strictly within `d` of `c` keeps them
      distinct, now within `d + 1`. */
  lemma AppendRows(prev: seq<Scanline>, st: seq<Scanline>, c: int, d: nat)
    requires NearCentre(prev, c, d) && DistinctRows(prev)
    requires MirrorRows(st, c, d)
    ensures NearCentre(prev + st, c, d + 1) && DistinctRows(prev + st)
  {
    var ls := prev + st;
    forall i, j | 0 <= i < j < |ls|
      ensures ls[i].y != ls[j].y
    {
      if j < |prev| {
        assert ls[i] == prev[i] && ls[j] == prev[j];
      } else if i < |prev| {
        assert ls[i] == prev[i] && ls[j] == st[j - |prev|];
      } else {
        assert ls[i] == st[0] && ls[j] == st[1];
      }
    }
    forall k | 0 <= k < |ls|
      ensures c - (d + 1) < ls[k].y < c + (d + 1)
    {
      if k < |prev| {
        assert ls[k] == prev[k];
      } else {
        assert ls[k] == st[k - |prev|];
      }
    }
  }

  /** No pixel of a well-formed ellipse is covered twice, so the exact
      incremental update of the core applies to it. */
  lemma LinesDistinct(s: Ellipse, sqrt: real -> real)
    requires WellFormed(s)
    requires forall v :: 0.0 <= v ==> 0.0 <= sqrt(v)
    ensures Core.Distinct(Core.Covered(Lines(s, sqrt), s.width))
  {
    LinesInBounds(s, sqrt, DyCount(s.ry));
    RowsDistinct(s, sqrt, DyCount(s.ry));
    Core.DistinctRowsCovered(Lines(s, sqrt), s.width, s.height);
  }

  /** `toSVG()`: an `ellipse` element with the same centre and radii; for a
      well-formed shape both radii are at least 1, and equal for a circle. */
  function ToSvg(s: Ellipse): (e: Svg.Element)
    ensures e.Ellipse? && e.cx == s.x && e.cy == s.y && e.rx == s.rx && e.ry == s.ry
    ensures WellFormed(s) ==> e.rx >= 1.0 && e.ry >= 1.0 && (s.circle ==> e.rx == e.ry)
  {
    Svg.Ellipse(s.x, s.y, s.rx, s.ry)
  }
}
