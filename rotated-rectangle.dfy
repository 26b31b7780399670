/** src/lib/shapes/rotated-rectangle.ts: a rectangle given by two corners
    and turned by `angle` degrees about its centre, rasterised as the
    polygon through its four turned corners. Shapes are immutable values
    here: `copy` is the value itself and `mutate` returns a new value.
    `Math.cos` and `Math.sin` of the angle are parameters `c` and `sn`. */
module RotatedRectangles {
  import opened Numbers
  import opened Random
  import opened Scanlines
  import opened Polygons = Rasterize
  import Svg
  import Core

  datatype RotatedRectangle = RotatedRectangle(width: int, height: int, x1: real, y1: real, x2: real, y2: real, angle: real)

  /** Both corners lie on the canvas. Construction establishes this and
      `mutate` keeps it; the angle is not constrained. */
  predicate InCanvas(s: RotatedRectangle)
  {
    && 0.0 <= s.x1 <= (s.width - 1) as real && 0.0 <= s.x2 <= (s.width - 1) as real
    && 0.0 <= s.y1 <= (s.height - 1) as real && 0.0 <= s.y2 <= (s.height - 1) as real
  }

  /** The largest step `mutate` scales a normal draw by. */
  const M: real := 16.0

  /** The constructor with options: corner 1 anywhere on the canvas, corner 2
      within 16 pixels of it on each axis, clamped, and an angle
      `float() * 360`. The draws are the four `int` calls and the `float`
      call, in order. */
  function New(width: int, height: int, rx: Rand, ry: Rand, rdx: Rand, rdy: Rand, ra: Rand): (s: RotatedRectangle)
    ensures s.width == width && s.height == height
    ensures s.angle == Float(ra) * 360.0
  {
    var x1 := Int(rx, 0, width - 1) as real;
    var y1 := Int(ry, 0, height - 1) as real;
    RotatedRectangle(width, height, x1, y1,
      Clamp(0.0, (width - 1) as real, x1 + Int(rdx, -16, 16) as real),
      Clamp(0.0, (height - 1) as real, y1 + Int(rdy, -16, 16) as real),
      Float(ra) * 360.0)
  }

  /** On a non-empty canvas a new shape lies on the canvas, its corners are
      at most 16 pixels apart on each axis and its angle lies in
      `[0, 360)`. */
  lemma NewInCanvas(width: int, height: int, rx: Rand, ry: Rand, rdx: Rand, rdy: Rand, ra: Rand)
    requires width >= 1 && height >= 1
    ensures var s := New(width, height, rx, ry, rdx, rdy, ra);
      && InCanvas(s)
      && -M <= s.x2 - s.x1 <= M && -M <= s.y2 - s.y1 <= M
      && 0.0 <= s.angle < 360.0
  {
    IntInRange(rx, 0, width - 1);
    IntInRange(ry, 0, height - 1);
    IntInRange(rdx, -16, 16);
    IntInRange(rdy, -16, 16);
  }

  /** `mutate()` on its draws: `pick` is the `int(0, 2)` choosing the case,
      `n1` and `n2` the `normal()` values (case 2 uses only `n1`). Case 0
      moves corner 1 and case 1 corner 2, each clamped to the canvas; case 2
      turns the shape, with no clamping or wrapping of the angle. */
  function Mutate(s: RotatedRectangle, pick: Rand, n1: real, n2: real): (r: RotatedRectangle)
    ensures r.width == s.width && r.height == s.height
    ensures Int(pick, 0, 2) == 0 ==> r.x2 == s.x2 && r.y2 == s.y2 && r.angle == s.angle
    ensures Int(pick, 0, 2) == 1 ==> r.x1 == s.x1 && r.y1 == s.y1 && r.angle == s.angle
    ensures Int(pick, 0, 2) == 2 ==> r == s.(angle := s.angle + n1 * M)
  {
    var w, h := (s.width - 1) as real, (s.height - 1) as real;
    match Int(pick, 0, 2)
    case 0 => s.(x1 := Clamp(0.0, w, s.x1 + n1 * M), y1 := Clamp(0.0, h, s.y1 + n2 * M))
    case 1 => s.(x2 := Clamp(0.0, w, s.x2 + n1 * M), y2 := Clamp(0.0, h, s.y2 + n2 * M))
    case 2 => s.(angle := s.angle + n1 * M)
    case _ => s
  }

  /** `mutate` keeps the corners on the canvas and changes one thing only:
      the first corner, the second corner, or the angle. */
  lemma MutateInCanvas(s: RotatedRectangle, pick: Rand, n1: real, n2: real)
    requires InCanvas(s)
    ensures var r := Mutate(s, pick, n1, n2);
      && InCanvas(r)
      && (|| (r.x2, r.y2, r.angle) == (s.x2, s.y2, s.angle)
          || (r.x1, r.y1, r.angle) == (s.x1, s.y1, s.angle)
          || (r.x1, r.y1, r.x2, r.y2) == (s.x1, s.y1, s.x2, s.y2))
  {
    IntInRange(pick, 0, 2);
  }

  /** The centre of the corners' bounding box. */
  function Centre(s: RotatedRectangle): Vertex
  {
    Vertex((MinR(s.x1, s.x2) + MaxR(s.x1, s.x2)) / 2.0, (MinR(s.y1, s.y2) + MaxR(s.y1, s.y2)) / 2.0)
  }

  /** The offset `(ox, oy)` from the centre turned by the angle whose cosine
      is `c` and sine is `sn`, put back at the centre: a corner before `|0`. */
  function Turned(s: RotatedRectangle, c: real, sn: real, ox: real, oy: real): Vertex
  {
    var o := Centre(s);
    Vertex(ox * c - oy * sn + o.x, ox * sn + oy * c + o.y)
  }

  /** The corner offsets from the centre: `(ox1, oy1)` toward the top left,
      `(ox2, oy2)` toward the bottom right. */
  function Offsets(s: RotatedRectangle): (o: (real, real, real, real))
    ensures o.1 == -o.0 && o.3 == -o.2 && o.0 <= 0.0 && o.2 <= 0.0
  {
    var o := Centre(s);
    (MinR(s.x1, s.x2) - o.x, MaxR(s.x1, s.x2) - o.x, MinR(s.y1, s.y2) - o.y, MaxR(s.y1, s.y2) - o.y)
  }

  function TruncPoint(v: Vertex): Vertex
  {
    Vertex(Trunc(v.x) as real, Trunc(v.y) as real)
  }

  /** `getPoints()`: the four turned corners, truncated with `|0`, in the
      order upper left, upper right, bottom right, bottom left. */
  function Points(s: RotatedRectangle, c: real, sn: real): (ps: seq<Vertex>)
    ensures |ps| == 4
  {
    var (ox1, ox2, oy1, oy2) := Offsets(s);
    [ TruncPoint(Turned(s, c, sn, ox1, oy1)), TruncPoint(Turned(s, c, sn, ox2, oy1)),
      TruncPoint(Turned(s, c, sn, ox2, oy2)), TruncPoint(Turned(s, c, sn, ox1, oy2)) ]
  }

  /** Opposite corners, before truncation, are mirror images through the
      centre: the shape is turned about its centre. */
  lemma OppositeCorners(s: RotatedRectangle, c: real, sn: real)
    ensures var (ox1, ox2, oy1, oy2) := Offsets(s);
      var o := Centre(s);
      var ul, br := Turned(s, c, sn, ox1, oy1), Turned(s, c, sn, ox2, oy2);
      var ur, bl := Turned(s, c, sn, ox2, oy1), Turned(s, c, sn, ox1, oy2);
      && ul.x + br.x == 2.0 * o.x && ul.y + br.y == 2.0 * o.y
      && ur.x + bl.x == 2.0 * o.x && ur.y + bl.y == 2.0 * o.y
  {
    var (ox1, ox2, oy1, oy2) := Offsets(s);
    assert ox2 * c == -(ox1 * c) && oy2 * sn == -(oy1 * sn);
    assert ox2 * sn == -(ox1 * sn) && oy2 * c == -(oy1 * c);
  }

  /** A turn by an angle with `c^2 + sn^2 == 1` keeps every corner at its
      distance from the centre. */
  lemma TurnKeepsDistance(s: RotatedRectangle, c: real, sn: real, ox: real, oy: real)
    requires c * c + sn * sn == 1.0
    ensures var o, v := Centre(s), Turned(s, c, sn, ox, oy);
      (v.x - o.x) * (v.x - o.x) + (v.y - o.y) * (v.y - o.y) == ox * ox + oy * oy
  {
    var o, v := Centre(s), Turned(s, c, sn, ox, oy);
    var a, b := ox * c - oy * sn, ox * sn + oy * c;
    assert v.x - o.x == a && v.y - o.y == b;
    calc {
      a * a + b * b;
      (ox * ox) * (c * c) + (oy * oy) * (sn * sn) - 2.0 * (ox * oy) * (c * sn)
        + (ox * ox) * (sn * sn) + (oy * oy) * (c * c) + 2.0 * (ox * oy) * (c * sn);
      (ox * ox) * (c * c + sn * sn) + (oy * oy) * (c * c + sn * sn);
    }
  }

  /** With no turn (`c = 1`, `sn = 0`) the points are the bounding box's
      corners, truncated. */
  lemma UnturnedPoints(s: RotatedRectangle)
    ensures var xl, xh, yl, yh := Trunc(MinR(s.x1, s.x2)) as real, Trunc(MaxR(s.x1, s.x2)) as real,
        Trunc(MinR(s.y1, s.y2)) as real, Trunc(MaxR(s.y1, s.y2)) as real;
      Points(s, 1.0, 0.0) == [Vertex(xl, yl), Vertex(xh, yl), Vertex(xh, yh), Vertex(xl, yh)]
  {
  }

  /** `rasterize()`: the polygon through the points, clipped by `filter`. */
  function Lines(s: RotatedRectangle, c: real, sn: real): seq<Scanline>
  {
    Filter(Polygon(Points(s, c, sn)), s.width, s.height)
  }

  /** `rasterize()`. */
  method Rasterize(s: RotatedRectangle, c: real, sn: real) returns (lines: seq<Scanline>)
    ensures lines == Lines(s, c, sn)
  {
    var points := Points(s, c, sn);
    var raw := RasterizePolygon(points);
    lines := Filter(raw, s.width, s.height);
  }

  /** The lines lie on the canvas, one per row, so no pixel is visited twice
      and the partial energy of the core is exact for this shape. */
  lemma LinesDistinct(s: RotatedRectangle, c: real, sn: real)
    ensures AllInBounds(Lines(s, c, sn), s.width, s.height)
    ensures DistinctRows(Lines(s, c, sn))
    ensures Core.Distinct(Core.Covered(Lines(s, c, sn), s.width))
  {
    var raw := Polygon(Points(s, c, sn));
    PolygonRowsDistinct(Points(s, c, sn));
    FilterDistinctRows(raw, s.width, s.height);
    FilterInBounds(raw, s.width, s.height);
    Core.DistinctRowsCovered(Lines(s, c, sn), s.width, s.height);
  }

  /** `toSVG()`: a polygon through the same four points. */
  function ToSvg(s: RotatedRectangle, c: real, sn: real): (e: Svg.Element)
    ensures e.Polygon? && e.points == Points(s, c, sn)
  {
    Svg.Polygon(Points(s, c, sn))
  }
}
