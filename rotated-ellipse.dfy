/** src/lib/shapes/rotated-ellipse.ts: an ellipse with radii `rx` and `ry`
    turned by `angle` degrees about its centre, rasterised as the polygon
    through points sampled around its outline. Shapes are immutable values
    here: `copy` is the value itself and `mutate` returns a new value.
    Cosine and sine, taken in degrees (the source converts to radians
    first), are the parameters `cosd` and `sind`. */
module RotatedEllipses {
  import opened Numbers
  import opened Random
  import opened Scanlines
  import opened Polygons = Rasterize
  import Svg
  import Core

  datatype RotatedEllipse = RotatedEllipse(width: int, height: int, x: real, y: real, rx: real, ry: real, angle: real)

  /** The centre lies on the canvas and both radii are at least 1.
      Construction establishes this and `mutate` keeps it. */
  predicate WellFormed(s: RotatedEllipse)
  {
    && 0.0 <= s.x <= (s.width - 1) as real && 0.0 <= s.y <= (s.height - 1) as real
    && s.rx >= 1.0 && s.ry >= 1.0
  }

  /** The largest step `mutate` scales a normal draw by. */
  const M: real := 16.0

  /** The default of `getPoints`' `numPoints`. */
  const DefaultPoints: nat := 20

  /** The constructor with options: the four `int` draws and the `float`
      draw, in order. */
  function New(width: int, height: int, rx: Rand, ry: Rand, rrx: Rand, rry: Rand, ra: Rand): (s: RotatedEllipse)
    ensures s.width == width && s.height == height
    ensures s.angle == Float(ra) * 360.0
  {
    RotatedEllipse(width, height, Int(rx, 0, width - 1) as real, Int(ry, 0, height - 1) as real,
      Int(rrx, 1, 32) as real, Int(rry, 1, 32) as real, Float(ra) * 360.0)
  }

  /** On a non-empty canvas a new shape is well formed, with its centre on a
      pixel, integer radii in `[1, 32]` and an angle in `[0, 360)`. */
  lemma NewWellFormed(width: int, height: int, rx: Rand, ry: Rand, rrx: Rand, rry: Rand, ra: Rand)
    requires width >= 1 && height >= 1
    ensures var s := New(width, height, rx, ry, rrx, rry, ra);
      && WellFormed(s)
      && 1.0 <= s.rx <= 32.0 && 1.0 <= s.ry <= 32.0
      && s.rx == s.rx.Floor as real && s.ry == s.ry.Floor as real
      && s.x == s.x.Floor as real && s.y == s.y.Floor as real
      && 0.0 <= s.angle < 360.0
  {
    IntInRange(rx, 0, width - 1);
    IntInRange(ry, 0, height - 1);
    IntInRange(rrx, 1, 32);
    IntInRange(rry, 1, 32);
  }

  /** `mutate()` on its draws: `pick` is the `int(0, 2)` choosing the case,
      `n1` and `n2` the `normal()` values (case 2 uses only `n1`). Case 0
      moves the centre and case 1 changes both radii, each clamped; case 2
      turns the shape, with no clamping or wrapping of the angle. */
  function Mutate(s: RotatedEllipse, pick: Rand, n1: real, n2: real): (r: RotatedEllipse)
    ensures r.width == s.width && r.height == s.height
    ensures Int(pick, 0, 2) == 0 ==> r.rx == s.rx && r.ry == s.ry && r.angle == s.angle
    ensures Int(pick, 0, 2) == 1 ==> r.x == s.x && r.y == s.y && r.angle == s.angle
    ensures Int(pick, 0, 2) == 2 ==> r == s.(angle := s.angle + n1 * M)
  {
    var w, h := (s.width - 1) as real, (s.height - 1) as real;
    match Int(pick, 0, 2)
    case 0 => s.(x := Clamp(0.0, w, s.x + n1 * M), y := Clamp(0.0, h, s.y + n2 * M))
    case 1 => s.(rx := Clamp(1.0, w, s.rx + n1 * M), ry := Clamp(1.0, h, s.ry + n2 * M))
    case 2 => s.(angle := s.angle + n1 * M)
    case _ => s
  }

  /** `mutate` keeps the shape well formed, changes one group only, and a
      radius exceeds 1 only up to the canvas extent on its axis. */
  lemma MutateWellFormed(s: RotatedEllipse, pick: Rand, n1: real, n2: real)
    requires WellFormed(s)
    ensures var r := Mutate(s, pick, n1, n2);
      && WellFormed(r)
      && (|| (r.rx, r.ry, r.angle) == (s.rx, s.ry, s.angle)
          || (r.x, r.y, r.angle) == (s.x, s.y, s.angle)
          || (r.x, r.y, r.rx, r.ry) == (s.x, s.y, s.rx, s.ry))
    ensures Int(pick, 0, 2) == 1 ==> var r := Mutate(s, pick, n1, n2);
      r.rx <= MaxR(1.0, (s.width - 1) as real) && r.ry <= MaxR(1.0, (s.height - 1) as real)
  {
    IntInRange(pick, 0, 2);
  }

  /** Sample `i` of `numPoints` before truncation: the point at `360 / n * i`
      degrees around the unturned ellipse, turned by the angle about the
      centre. */
  function Sample(s: RotatedEllipse, cosd: real -> real, sind: real -> real, n: nat, i: nat): Vertex
    requires n > 0
  {
    Scaled(s, cosd(s.angle), sind(s.angle), cosd(Rot(n, i)), sind(Rot(n, i)))
  }

  /** The point `(k, l)` scaled by the radii, then turned by the angle with
      cosine `c` and sine `sn` and put at the centre. */
  function Scaled(s: RotatedEllipse, c: real, sn: real, k: real, l: real): Vertex
  {
    Turn(s, c, sn, s.rx * k, s.ry * l)
  }

  /** The angle of sample `i` of `n`, in degrees. */
  function Rot(n: nat, i: nat): real
    requires n > 0
  {
    360.0 / n as real * i as real
  }

  /** The offset `(a, b)` turned by the angle with cosine `c` and sine `sn`,
      put at the centre. */
  function Turn(s: RotatedEllipse, c: real, sn: real, a: real, b: real): Vertex
  {
    Vertex(a * c - b * sn + s.x, a * sn + b * c + s.y)
  }

  function TruncPoint(v: Vertex): Vertex
  {
    Vertex(Trunc(v.x) as real, Trunc(v.y) as real)
  }

  /** `getPoints(numPoints)`: the `numPoints` samples, truncated with `|0`. */
  function Points(s: RotatedEllipse, cosd: real -> real, sind: real -> real, n: nat): (ps: seq<Vertex>)
    ensures |ps| == n
  {
    if n == 0 then [] else seq(n, i requires 0 <= i < n => TruncPoint(Sample(s, cosd, sind, n, i)))
  }

  /** `getPoints(numPoints)`. */
  method GetPoints(s: RotatedEllipse, cosd: real -> real, sind: real -> real, n: nat) returns (points: seq<Vertex>)
    ensures points == Points(s, cosd, sind, n)
  {
    points := [];
    for i := 0 to n
      invariant |points| == i
      invariant forall k :: 0 <= k < i ==> points[k] == TruncPoint(Sample(s, cosd, sind, n, k))
    {
      points := points + [TruncPoint(Sample(s, cosd, sind, n, i))];
    }
  }

  /** Cosine and sine satisfy the Pythagorean identity everywhere. */
  ghost predicate Pythagorean(cosd: real -> real, sind: real -> real)
  {
    forall t :: cosd(t) * cosd(t) + sind(t) * sind(t) == 1.0
  }

  /** `v` lies on the ellipse with the shape's centre and radii, turned by
      the angle with cosine `c` and sine `sn`: turning its offset back gives
      a point of the unturned ellipse. */
  predicate OnOutline(s: RotatedEllipse, c: real, sn: real, v: Vertex)
    requires s.rx > 0.0 && s.ry > 0.0
  {
    var dx, dy := v.x - s.x, v.y - s.y;
    var u, w := (dx * c + dy * sn) / s.rx, (dy * c - dx * sn) / s.ry;
    u * u + w * w == 1.0
  }

  /** Turning `(a, b)` by an angle and back again gives `(a, b)`. */
  lemma Unturn(c: real, sn: real, a: real, b: real)
    requires c * c + sn * sn == 1.0
    ensures (a * c - b * sn) * c + (a * sn + b * c) * sn == a
    ensures (a * sn + b * c) * c - (a * c - b * sn) * sn == b
  {
    calc {
      (a * c - b * sn) * c + (a * sn + b * c) * sn;
      a * (c * c + sn * sn);
    }
    calc {
      (a * sn + b * c) * c - (a * c - b * sn) * sn;
      b * (c * c + sn * sn);
    }
  }

  /** A point turned from offset `(a, b)` lies on the outline exactly when
      `(a / rx, b / ry)` lies on the unit circle. */
  lemma TurnedOnOutline(s: RotatedEllipse, c: real, sn: real, a: real, b: real)
    requires s.rx > 0.0 && s.ry > 0.0 && c * c + sn * sn == 1.0
    ensures OnOutline(s, c, sn, Turn(s, c, sn, a, b))
      <==> (a / s.rx) * (a / s.rx) + (b / s.ry) * (b / s.ry) == 1.0
  {
    var v := Turn(s, c, sn, a, b);
    assert v.x - s.x == a * c - b * sn && v.y - s.y == a * sn + b * c;
    Unturn(c, sn, a, b);
  }

  /** Before truncation every sample lies on the turned ellipse. */
  lemma SampleOnOutline(s: RotatedEllipse, cosd: real -> real, sind: real -> real, n: nat, i: nat)
    requires WellFormed(s) && n > 0 && Pythagorean(cosd, sind)
    ensures OnOutline(s, cosd(s.angle), sind(s.angle), Sample(s, cosd, sind, n, i))
  {
    var k, l := cosd(Rot(n, i)), sind(Rot(n, i));
    var c, sn := cosd(s.angle), sind(s.angle);
    assert c * c + sn * sn == 1.0 && k * k + l * l == 1.0;
    UnitOnOutline(s, c, sn, k, l);
  }

  /** A point of the unit circle, scaled by the radii and turned, lies on the
      outline. */
  lemma UnitOnOutline(s: RotatedEllipse, c: real, sn: real, k: real, l: real)
    requires s.rx > 0.0 && s.ry > 0.0 && c * c + sn * sn == 1.0 && k * k + l * l == 1.0
    ensures OnOutline(s, c, sn, Scaled(s, c, sn, k, l))
  {
    ScaledUnit(s.rx, s.ry, k, l);
    TurnedOnOutline(s, c, sn, s.rx * k, s.ry * l);
  }

  /** Scaling a point of the unit circle by the radii and back. */
  lemma ScaledUnit(rx: real, ry: real, k: real, l: real)
    requires rx > 0.0 && ry > 0.0 && k * k + l * l == 1.0
    ensures (rx * k / rx) * (rx * k / rx) + (ry * l / ry) * (ry * l / ry) == 1.0
  {
    assert rx * k / rx == k;
    assert ry * l / ry == l;
  }

  /** `rasterize()`: the polygon through the default 20 points, clipped by
      `filter`. */
  function Lines(s: RotatedEllipse, cosd: real -> real, sind: real -> real): seq<Scanline>
  {
    Filter(Polygon(Points(s, cosd, sind, DefaultPoints)), s.width, s.height)
  }

  /** `rasterize()`. */
  method Rasterize(s: RotatedEllipse, cosd: real -> real, sind: real -> real) returns (lines: seq<Scanline>)
    ensures lines == Lines(s, cosd, sind)
  {
    var points := GetPoints(s, cosd, sind, DefaultPoints);
    var raw := RasterizePolygon(points);
    lines := Filter(raw, s.width, s.height);
  }

  /** The lines lie on the canvas, one per row, so no pixel is visited twice
      and the partial energy of the core is exact for this shape. */
  lemma LinesDistinct(s: RotatedEllipse, cosd: real -> real, sind: real -> real)
    ensures AllInBounds(Lines(s, cosd, sind), s.width, s.height)
    ensures DistinctRows(Lines(s, cosd, sind))
    ensures Core.Distinct(Core.Covered(Lines(s, cosd, sind), s.width))
  {
    var points := Points(s, cosd, sind, DefaultPoints);
    var raw := Polygon(points);
    PolygonRowsDistinct(points);
    FilterDistinctRows(raw, s.width, s.height);
    FilterInBounds(raw, s.width, s.height);
    Core.DistinctRowsCovered(Lines(s, cosd, sind), s.width, s.height);
  }

  /** `toSVG()`: a polygon through the same 20 points. */
  function ToSvg(s: RotatedEllipse, cosd: real -> real, sind: real -> real): (e: Svg.Element)
    ensures e.Polygon? && e.points == Points(s, cosd, sind, DefaultPoints)
  {
    Svg.Polygon(Points(s, cosd, sind, DefaultPoints))
  }
}
