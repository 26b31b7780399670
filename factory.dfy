/** lib/shapes/factory.ts, with the members every shape of lib/shapes/shape.ts
    provides: a sum of the five shape kinds, the factory that builds one from
    a shape type name and options, and `mutate`, `rasterize` and `toSVG`
    dispatched on the kind. */
module Shapes {
  import opened Random
  import opened Wrappers
  import opened Scanlines
  import Rectangles
  import Ellipses
  import RotatedRectangles
  import RotatedEllipses
  import Triangles
  import Svg
  import Core

  /** `ShapeType`: the names the factory accepts. */
  datatype ShapeType =
    | RectangleType | RectType | RotatedRectangleType | RotatedRectType
    | CircleType | EllipseType | RotatedEllipseType | TriangleType | RandomType

  /** The shape types `random` chooses among. */
  const Choices: seq<ShapeType> := [RotatedEllipseType, RotatedRectangleType, TriangleType]

  /** The options: the canvas size and, for ellipses, the optional `circle`
      flag (`None` when absent). */
  datatype Options = Options(width: int, height: int, circle: Option<bool>)

  datatype Shape =
    | Rect(rect: Rectangles.Rectangle)
    | RotRect(rrect: RotatedRectangles.RotatedRectangle)
    | Ell(ell: Ellipses.Ellipse)
    | RotEll(rell: RotatedEllipses.RotatedEllipse)
    | Tri(tri: Triangles.Triangle)

  /** The floating-point functions the shapes call: `Math.sqrt`, cosine and
      sine in degrees, and the triangle's `isValid` angle test. */
  datatype Geometry = Geometry(sqrt: real -> real, cosd: real -> real, sind: real -> real, valid: Triangles.Triangle -> bool)

  /** The draws of one construction: `pick` for `random`, five `int` or
      `float` draws for the constructors that make a fixed number, and the
      attempts of the triangle's retry loop. */
  datatype NewDraws = NewDraws(pick: Rand, d1: Rand, d2: Rand, d3: Rand, d4: Rand, d5: Rand, attempts: seq<Triangles.Attempt>)

  /** The draws of one `mutate`: the case pick and two normal values, and
      the draws of the triangle's retry loop. */
  datatype MutateDraws = MutateDraws(pick: Rand, n1: real, n2: real, tri: seq<Triangles.Draw>)

  function Width(sh: Shape): int
  {
    match sh
    case Rect(s) => s.width
    case RotRect(s) => s.width
    case Ell(s) => s.width
    case RotEll(s) => s.width
    case Tri(s) => s.width
  }

  function Height(sh: Shape): int
  {
    match sh
    case Rect(s) => s.height
    case RotRect(s) => s.height
    case Ell(s) => s.height
    case RotEll(s) => s.height
    case Tri(s) => s.height
  }

  /** The invariant of each kind that construction establishes and `mutate`
      keeps. */
  predicate WellFormed(sh: Shape)
  {
    match sh
    case Rect(s) => Rectangles.InCanvas(s)
    case RotRect(s) => RotatedRectangles.InCanvas(s)
    case Ell(s) => Ellipses.WellFormed(s)
    case RotEll(s) => RotatedEllipses.WellFormed(s)
    case Tri(s) => Triangles.InMargin(s) && s.width >= 1 && s.height >= 1
  }

  // ---------------------------------------------------------------------
  // The random shape type

  /** `randomShapeType` as written: `int(SHAPES.length - 1)` passes the
      length as `min` and leaves `max` at its default 1, an empty range, so
      the index is always 2 and the choice is always `triangle`. */
  function RandomShapeTypeAsWritten(pick: Rand): (t: ShapeType)
    ensures t == TriangleType
  {
    IntEmptyRange(pick, 2);
    Choices[Int(pick, |Choices| - 1)]
  }

  /** `randomShapeType` as evidently intended: `int(0, SHAPES.length - 1)`,
      an index anywhere in the list. */
  function RandomShapeType(pick: Rand): (t: ShapeType)
    ensures t in Choices
  {
    IntInRange(pick, 0, |Choices| - 1);
    Choices[Int(pick, 0, |Choices| - 1)]
  }

  /** Every listed shape type is chosen by some draw. */
  lemma RandomShapeTypeReaches(i: int) returns (pick: Rand)
    requires 0 <= i < |Choices|
    ensures RandomShapeType(pick) == Choices[i]
  {
    pick := [0, 1431655766, 2863311531][i];
    assert Float(pick) * 3.0 == pick as real * 3.0 / TwoTo32 as real;
    assert i as real <= Float(pick) * 3.0 < i as real + 1.0;
  }

  // ---------------------------------------------------------------------
  // The factory

  /** `factory(shapeType, opts)`. An ellipse for `circle` has `circle`
      defaulted to true and then overridden by the options' own flag (the
      spread comes after); an `ellipse` takes `!!opts.circle`. `random`
      recurses on `randomShapeType()` as written, which is always
      `triangle`. `None` stands for triangle attempts that never pass
      `isValid`. */
  function New(t: ShapeType, opts: Options, d: NewDraws, g: Geometry): (r: Option<Shape>)
    ensures r.Some? ==> Width(r.value) == opts.width && Height(r.value) == opts.height
    ensures r.None? ==> t in {TriangleType, RandomType}
    decreases t == RandomType
  {
    var w, h := opts.width, opts.height;
    match t
    case RectangleType | RectType => Some(Rect(Rectangles.New(w, h, d.d1, d.d2, d.d3, d.d4)))
    case RotatedRectangleType | RotatedRectType => Some(RotRect(RotatedRectangles.New(w, h, d.d1, d.d2, d.d3, d.d4, d.d5)))
    case CircleType =>
      var circle := if opts.circle.Some? then opts.circle.value else true;
      Some(Ell(Ellipses.New(w, h, circle, d.d1, d.d2, d.d3, d.d4)))
    case EllipseType => Some(Ell(Ellipses.New(w, h, opts.circle == Some(true), d.d1, d.d2, d.d3, d.d4)))
    case RotatedEllipseType => Some(RotEll(RotatedEllipses.New(w, h, d.d1, d.d2, d.d3, d.d4, d.d5)))
    case TriangleType =>
      var r := Triangles.FirstValid(w, h, d.attempts, g.valid);
      if r.Some? then Some(Tri(r.value)) else None
    case RandomType => New(RandomShapeTypeAsWritten(d.pick), opts, d, g)
  }

  /** The kind the factory builds for each name: the two spellings of the
      rectangles agree, `circle` builds a circle unless the options say
      otherwise, `ellipse` builds a circle only when asked, and only the
      triangle's retry loop can fail, exactly when no attempt is valid. */
  lemma NewKinds(t: ShapeType, opts: Options, d: NewDraws, g: Geometry)
    ensures var r := New(t, opts, d, g);
      && (t in {RectangleType, RectType} ==> r.Some? && r.value.Rect?)
      && (t in {RotatedRectangleType, RotatedRectType} ==> r.Some? && r.value.RotRect?)
      && (t == CircleType ==> r.Some? && r.value.Ell? && r.value.ell.circle == (opts.circle != Some(false)))
      && (t == EllipseType ==> r.Some? && r.value.Ell? && r.value.ell.circle == (opts.circle == Some(true)))
      && (t == RotatedEllipseType ==> r.Some? && r.value.RotEll?)
      && (t == TriangleType ==> (r.None? <==>
            forall i :: 0 <= i < |d.attempts| ==> !g.valid(Triangles.Candidate(opts.width, opts.height, d.attempts[i]))))
      && (t == TriangleType && r.Some? ==> r.value.Tri? && g.valid(r.value.tri))
      && (t == RandomType ==> r == New(TriangleType, opts, d, g))
  {
  }

  /** As written, `random` builds what `triangle` builds from the same
      draws: a triangle, or nothing when no attempt passes `isValid`. */
  lemma NewRandomKind(opts: Options, d: NewDraws, g: Geometry)
    ensures var r := New(RandomType, opts, d, g);
      && r == New(TriangleType, opts, d, g)
      && (r.Some? ==> r.value.Tri?)
  {
    NewKinds(TriangleType, opts, d, g);
  }

  /** The factory as evidently intended: `random` recurses on the corrected
      choice among the three listed types; every other name builds what the
      factory builds. */
  function NewIntended(t: ShapeType, opts: Options, d: NewDraws, g: Geometry): (r: Option<Shape>)
    ensures t != RandomType ==> r == New(t, opts, d, g)
    ensures r.Some? ==> Width(r.value) == opts.width && Height(r.value) == opts.height
  {
    if t == RandomType then New(RandomShapeType(d.pick), opts, d, g) else New(t, opts, d, g)
  }

  /** The intended `random` builds a rotated ellipse, a rotated rectangle or
      a triangle, never one of the redundant kinds. */
  lemma NewIntendedKind(opts: Options, d: NewDraws, g: Geometry)
    ensures var r := NewIntended(RandomType, opts, d, g);
      r.Some? ==> r.value.RotEll? || r.value.RotRect? || r.value.Tri?
  {
    var t := RandomShapeType(d.pick);
    assert t in Choices;
    match t
    case RotatedEllipseType =>
    case RotatedRectangleType =>
    case TriangleType =>
  }

  /** Each of the three listed types is what the intended `random` builds
      for some `pick` draw, the other draws being the same. */
  lemma NewIntendedReaches(i: int, opts: Options, d: NewDraws, g: Geometry) returns (pick: Rand)
    requires 0 <= i < |Choices|
    ensures NewIntended(RandomType, opts, d.(pick := pick), g) == New(Choices[i], opts, d, g)
  {
    pick := RandomShapeTypeReaches(i);
    NewDrawsPick(Choices[i], opts, d, pick, g);
  }

  /** Apart from `random`, the factory never reads the `pick` draw. */
  lemma NewDrawsPick(t: ShapeType, opts: Options, d: NewDraws, pick: Rand, g: Geometry)
    requires t != RandomType
    ensures New(t, opts, d.(pick := pick), g) == New(t, opts, d, g)
  {
  }

  /** On a non-empty canvas every shape the factory builds is well formed. */
  lemma NewWellFormed(t: ShapeType, opts: Options, d: NewDraws, g: Geometry)
    requires opts.width >= 1 && opts.height >= 1
    ensures var r := New(t, opts, d, g); r.Some? ==> WellFormed(r.value)
    decreases t == RandomType
  {
    var w, h := opts.width, opts.height;
    match t
    case RectangleType | RectType => Rectangles.NewInCanvas(w, h, d.d1, d.d2, d.d3, d.d4);
    case RotatedRectangleType | RotatedRectType => RotatedRectangles.NewInCanvas(w, h, d.d1, d.d2, d.d3, d.d4, d.d5);
    case CircleType =>
      var circle := if opts.circle.Some? then opts.circle.value else true;
      Ellipses.NewWellFormed(w, h, circle, d.d1, d.d2, d.d3, d.d4);
    case EllipseType => Ellipses.NewWellFormed(w, h, opts.circle == Some(true), d.d1, d.d2, d.d3, d.d4);
    case RotatedEllipseType => RotatedEllipses.NewWellFormed(w, h, d.d1, d.d2, d.d3, d.d4, d.d5);
    case TriangleType =>
      if Triangles.FirstValid(w, h, d.attempts, g.valid).Some? {
        var i := Triangles.NewBounds(w, h, d.attempts, g.valid);
      }
    case RandomType => NewWellFormed(TriangleType, opts, d, g);
  }

  /** The intended factory builds well-formed shapes too. */
  lemma NewIntendedWellFormed(t: ShapeType, opts: Options, d: NewDraws, g: Geometry)
    requires opts.width >= 1 && opts.height >= 1
    ensures var r := NewIntended(t, opts, d, g); r.Some? ==> WellFormed(r.value)
  {
    if t == RandomType {
      NewWellFormed(RandomShapeType(d.pick), opts, d, g);
    } else {
      NewWellFormed(t, opts, d, g);
    }
  }

  // ---------------------------------------------------------------------
  // The shape members

  /** `mutate()` of each kind. Only a triangle can fail (its retry loop ran
      out of draws); the kind and the canvas size never change. */
  function Mutate(sh: Shape, md: MutateDraws, g: Geometry): (r: Option<Shape>)
    ensures r.Some? ==> Width(r.value) == Width(sh) && Height(r.value) == Height(sh)
    ensures r.Some? ==>
      && (r.value.Rect? <==> sh.Rect?) && (r.value.RotRect? <==> sh.RotRect?)
      && (r.value.Ell? <==> sh.Ell?) && (r.value.RotEll? <==> sh.RotEll?) && (r.value.Tri? <==> sh.Tri?)
    ensures r.None? ==> sh.Tri?
  {
    match sh
    case Rect(s) => Some(Rect(Rectangles.Mutate(s, md.pick, md.n1, md.n2)))
    case RotRect(s) => Some(RotRect(RotatedRectangles.Mutate(s, md.pick, md.n1, md.n2)))
    case Ell(s) => Some(Ell(Ellipses.Mutate(s, md.pick, md.n1, md.n2)))
    case RotEll(s) => Some(RotEll(RotatedEllipses.Mutate(s, md.pick, md.n1, md.n2)))
    case Tri(s) =>
      var r := Triangles.MutateOf(s, md.tri, g.valid);
      if r.Some? then Some(Tri(r.value)) else None
  }

  /** `mutate` keeps a well-formed shape well formed. */
  lemma MutateWellFormed(sh: Shape, md: MutateDraws, g: Geometry)
    requires WellFormed(sh)
    ensures var r := Mutate(sh, md, g); r.Some? ==> WellFormed(r.value)
  {
    match sh
    case Rect(s) => Rectangles.MutateMovesOneCorner(s, md.pick, md.n1, md.n2);
    case RotRect(s) => RotatedRectangles.MutateInCanvas(s, md.pick, md.n1, md.n2);
    case Ell(s) => Ellipses.MutateWellFormed(s, md.pick, md.n1, md.n2);
    case RotEll(s) => RotatedEllipses.MutateWellFormed(s, md.pick, md.n1, md.n2);
    case Tri(s) => Triangles.MutateInMargin(s, md.tri, g.valid);
  }

  /** The lines of `rasterize()` of each kind. */
  function Lines(sh: Shape, g: Geometry): seq<Scanline>
  {
    match sh
    case Rect(s) => Rectangles.Lines(s)
    case RotRect(s) => RotatedRectangles.Lines(s, g.cosd(s.angle), g.sind(s.angle))
    case Ell(s) => Ellipses.Lines(s, g.sqrt)
    case RotEll(s) => RotatedEllipses.Lines(s, g.cosd, g.sind)
    case Tri(s) => Triangles.Clipped(s)
  }

  /** `rasterize()`. */
  method Rasterize(sh: Shape, g: Geometry) returns (lines: seq<Scanline>)
    ensures lines == Lines(sh, g)
  {
    match sh
    case Rect(s) => lines := Rectangles.Rasterize(s);
    case RotRect(s) => lines := RotatedRectangles.Rasterize(s, g.cosd(s.angle), g.sind(s.angle));
    case Ell(s) => lines := Ellipses.Rasterize(s, g.sqrt);
    case RotEll(s) => lines := RotatedEllipses.Rasterize(s, g.cosd, g.sind);
    case Tri(s) => lines := Triangles.Rasterize(s);
  }

  /** `Math.sqrt` is non-negative on non-negative arguments. */
  ghost predicate SqrtNonNegative(g: Geometry)
  {
    forall v :: 0.0 <= v ==> 0.0 <= g.sqrt(v)
  }

  /** Every line of a well-formed shape lies on its canvas, as the energy
      functions of the core require. */
  lemma LinesInBounds(sh: Shape, g: Geometry)
    requires WellFormed(sh) && SqrtNonNegative(g)
    ensures AllInBounds(Lines(sh, g), Width(sh), Height(sh))
  {
    match sh
    case Rect(s) => Rectangles.LinesShape(s);
    case RotRect(s) => RotatedRectangles.LinesDistinct(s, g.cosd(s.angle), g.sind(s.angle));
    case Ell(s) => Ellipses.LinesInBounds(s, g.sqrt, Ellipses.DyCount(s.ry));
    case RotEll(s) => RotatedEllipses.LinesDistinct(s, g.cosd, g.sind);
    case Tri(s) => Triangles.ClippedInBounds(s);
  }

  /** Every kind but the triangle visits each pixel at most once, so the
      partial energy of the core is exact for it. */
  lemma LinesDistinct(sh: Shape, g: Geometry)
    requires WellFormed(sh) && SqrtNonNegative(g) && !sh.Tri?
    ensures Core.Distinct(Core.Covered(Lines(sh, g), Width(sh)))
  {
    match sh
    case Rect(s) => Rectangles.LinesDistinct(s);
    case RotRect(s) => RotatedRectangles.LinesDistinct(s, g.cosd(s.angle), g.sind(s.angle));
    case Ell(s) => Ellipses.LinesDistinct(s, g.sqrt);
    case RotEll(s) => RotatedEllipses.LinesDistinct(s, g.cosd, g.sind);
  }

  /** The triangle is the exception: a well-formed one can visit a pixel
      twice. */
  lemma TriangleRepeatsPixel(g: Geometry)
    ensures var sh := Tri(Triangles.Triangle(10, 10, 0.0, 0.0, 4.0, 2.0, 0.0, 4.0));
      WellFormed(sh) && !Core.Distinct(Core.Covered(Lines(sh, g), 10))
  {
    Triangles.SplitRowOverlap();
  }

  /** `toSVG()` of each kind: a `rect` for a rectangle, an `ellipse` for an
      ellipse and a `polygon` through the rasterised points for the
      others. */
  function ToSvg(sh: Shape, g: Geometry): (e: Svg.Element)
    ensures e.Rect? <==> sh.Rect?
    ensures e.Ellipse? <==> sh.Ell?
    ensures sh.RotRect? ==> e == Svg.Polygon(RotatedRectangles.Points(sh.rrect, g.cosd(sh.rrect.angle), g.sind(sh.rrect.angle)))
    ensures sh.RotEll? ==> e == Svg.Polygon(RotatedEllipses.Points(sh.rell, g.cosd, g.sind, RotatedEllipses.DefaultPoints))
  {
    match sh
    case Rect(s) => Rectangles.ToSvg(s)
    case RotRect(s) => RotatedRectangles.ToSvg(s, g.cosd(s.angle), g.sind(s.angle))
    case Ell(s) => Ellipses.ToSvg(s)
    case RotEll(s) => RotatedEllipses.ToSvg(s, g.cosd, g.sind)
    case Tri(s) => Triangles.ToSvg(s)
  }
}
