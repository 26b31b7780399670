/** src/lib/model.ts: the driver of the approximation. A model holds the
    canvas built so far, its energy, and three parallel logs of the committed
    shapes, their colours and the energies after each commit. A step asks
    every worker for its best hill-climbed candidate, commits the first-seen
    best, and then runs the extras loop. */
module Models {
  import opened Numbers
  import opened Wrappers
  import opened Scanlines
  import opened Color
  import opened Context
  import opened Core
  import opened Workers
  import opened States
  import opened Optimize
  import Shapes
  import Svg

  /** The size of the SVG document and the scale of its group. */
  datatype Output = Output(sw: int, sh: int, scale: real)

  /** The output sizing of the constructor. With an `outputSize` the longer
      side becomes `outputSize` and the shorter one is scaled by the aspect
      ratio and truncated; without one (absent or 0, here 0) the document
      has the target's size and scale 1. */
  function OutputSize(width: int, height: int, outputSize: int): (o: Output)
    requires width > 0 && height > 0
    ensures outputSize == 0 ==> o == Output(width, height, 1.0)
    ensures outputSize != 0 && width >= height ==> o.sw == outputSize
    ensures outputSize != 0 && width < height ==> o.sh == outputSize
  {
    var aspect := width as real / height as real;
    AspectOrder(width, height);
    if outputSize != 0 then
      if aspect >= 1.0 then
        Output(outputSize, Trunc(outputSize as real / aspect), outputSize as real / width as real)
      else
        Output(Trunc(outputSize as real * aspect), outputSize, outputSize as real / height as real)
    else
      Output(width, height, 1.0)
  }

  /** A target side times the document's scale, truncated. */
  function Scaled(scale: real, side: int): int
  {
    Trunc(scale * side as real)
  }

  /** Whatever the orientation, each side of the document is its target
      side times `scale`, truncated, and with a positive `outputSize` both
      sides lie within it. */
  lemma OutputSizeIsScaled(width: int, height: int, outputSize: int)
    requires width > 0 && height > 0
    ensures var o := OutputSize(width, height, outputSize);
      && o.sw == Scaled(o.scale, width) && o.sh == Scaled(o.scale, height)
      && (outputSize > 0 ==> 0 <= o.sw <= outputSize && 0 <= o.sh <= outputSize)
  {
    AspectOrder(width, height);
    if outputSize == 0 {
      TruncOfInt(width);
      TruncOfInt(height);
    } else if width >= height {
      Landscape(width, height, outputSize);
    } else {
      Portrait(width, height, outputSize);
    }
  }

  lemma Landscape(width: int, height: int, outputSize: int)
    requires 0 < height <= width && outputSize != 0
    ensures var o := OutputSize(width, height, outputSize);
      && o.sw == Scaled(o.scale, width) && o.sh == Scaled(o.scale, height)
      && (outputSize > 0 ==> 0 <= o.sw <= outputSize && 0 <= o.sh <= outputSize)
  {
    AspectOrder(width, height);
    var o := OutputSize(width, height, outputSize);
    var other := outputSize as real / (width as real / height as real);
    DivDiv(outputSize as real, width as real, height as real);
    ScaledSide(outputSize, width, height, o.scale, other, o.sw, o.sh);
  }

  lemma Portrait(width: int, height: int, outputSize: int)
    requires 0 < width < height && outputSize != 0
    ensures var o := OutputSize(width, height, outputSize);
      && o.sw == Scaled(o.scale, width) && o.sh == Scaled(o.scale, height)
      && (outputSize > 0 ==> 0 <= o.sw <= outputSize && 0 <= o.sh <= outputSize)
  {
    AspectOrder(width, height);
    var o := OutputSize(width, height, outputSize);
    var other := outputSize as real * (width as real / height as real);
    MulDiv(outputSize as real, width as real, height as real);
    ScaledSide(outputSize, height, width, o.scale, other, o.sh, o.sw);
  }

  /** One orientation: `long` is the longer side, scaled to `outputSize` by
      `scale`, and `other`, the short side as the source computes it, is
      the short side times `scale`; so both sides of the document are the
      target's sides times `scale`, truncated. */
  lemma ScaledSide(outputSize: int, long: int, short: int, scale: real, other: real, longSide: int, shortSide: int)
    requires long > 0 && short > 0 && scale == outputSize as real / long as real
    requires other == scale * short as real && longSide == outputSize && shortSide == Trunc(other)
    ensures longSide == Scaled(scale, long) && shortSide == Scaled(scale, short)
    ensures outputSize > 0 && short <= long ==> 0 <= shortSide <= outputSize
  {
    ScaledLong(outputSize, long, scale);
    if outputSize > 0 && short <= long {
      ShortWithin(outputSize, long, short, scale, other);
    }
  }

  lemma ScaledLong(outputSize: int, long: int, scale: real)
    requires long > 0 && scale == outputSize as real / long as real
    ensures Scaled(scale, long) == outputSize
  {
    DivMul(outputSize as real, long as real);
    TruncOfInt(outputSize);
  }

  lemma ShortWithin(outputSize: int, long: int, short: int, scale: real, other: real)
    requires 0 < short <= long && 0 < outputSize && scale == outputSize as real / long as real
    requires other == scale * short as real
    ensures 0 <= Trunc(other) <= outputSize
  {
    DivMul(outputSize as real, long as real);
    MulMonotone(scale, short as real, long as real);
    TruncMonotone(0.0, other);
    TruncMonotone(other, outputSize as real);
    TruncOfInt(0);
    TruncOfInt(outputSize);
  }

  lemma DivMul(a: real, b: real)
    requires b != 0.0
    ensures a / b * b == a
  {
  }

  lemma DivDiv(a: real, b: real, c: real)
    requires b != 0.0 && c != 0.0
    ensures a / (b / c) == a / b * c
  {
  }

  lemma MulDiv(a: real, b: real, c: real)
    requires c != 0.0
    ensures a * (b / c) == a / c * b
  {
  }

  lemma MulMonotone(s: real, a: real, b: real)
    requires s >= 0.0 && 0.0 <= a <= b
    ensures 0.0 <= s * a <= s * b
  {
  }

  /** `width / height >= 1` exactly when the width is the longer side. */
  lemma AspectOrder(width: int, height: int)
    requires width > 0 && height > 0
    ensures width as real / height as real >= 1.0 <==> width >= height
  {
    if width >= height {
      assert width as real / height as real * height as real == width as real;
    }
  }

  /** The score `add` records after drawing a shape whose lines are `lines`
      at `alpha` over `c0`: the incremental update from the full snapshot
      `c0` on the partial path, a full recomputation otherwise. */
  function AddedScore(partials: bool, t: seq<Byte>, c0: seq<Byte>, w: int, h: int, score: Energy,
                      lines: seq<Scanline>, alpha: int): Energy
    requires |c0| == |t| && alpha != 0
  {
    var after := Drawn(c0, w, ComputeColorOf(t, c0, w, lines, alpha), lines);
    if partials then PartialOf(w, h, t, c0, after, score, lines).value
    else DifferenceOf(w, h, t, after).value
  }

  /** Because `add` snapshots the whole canvas before drawing, its score is
      exact on both paths whenever the previous score was and no pixel is
      covered twice; unlike a worker's partial path, no condition on stale
      pixels is needed. */
  lemma AddIsExact(partials: bool, t: seq<Byte>, c0: seq<Byte>, w: int, h: int, score: Energy,
                   lines: seq<Scanline>, alpha: int)
    requires w >= 0 && h >= 0 && |t| == w * h * 4 && |c0| == |t| && alpha != 0
    requires AllInBounds(lines, w, h) && Distinct(Covered(lines, w))
    requires score == DifferenceOf(w, h, t, c0).value
    ensures AddedScore(partials, t, c0, w, h, score, lines, alpha)
         == DifferenceOf(w, h, t, Drawn(c0, w, ComputeColorOf(t, c0, w, lines, alpha), lines)).value
  {
    DrawnIsExact(w, h, t, c0, ComputeColorOf(t, c0, w, lines, alpha), lines);
  }

  /** One committed shape as `toSVG` paints it. */
  function Paint(sh: Shapes.Shape, c: RGBA, g: Shapes.Geometry): Svg.Painted
  {
    Svg.Painted(Shapes.ToSvg(sh, g), Hex(c), c.a as real / 255.0)
  }

  /** The group body of `toSVG`: `shapes.map(...)`, one painted element per
      committed shape, in commit order. */
  function Body(shapes: seq<Shapes.Shape>, colors: seq<RGBA>, g: Shapes.Geometry): seq<Svg.Painted>
    requires |colors| == |shapes|
  {
    seq(|shapes|, i requires 0 <= i < |shapes| => Paint(shapes[i], colors[i], g))
  }

  /** Each `add` appends exactly one element to the picture. */
  lemma BodyAppend(shapes: seq<Shapes.Shape>, colors: seq<RGBA>, sh: Shapes.Shape, c: RGBA, g: Shapes.Geometry)
    requires |colors| == |shapes|
    ensures Body(shapes + [sh], colors + [c], g) == Body(shapes, colors, g) + [Paint(sh, c, g)]
  {
    assert (shapes + [sh])[..|shapes|] == shapes;
    assert (colors + [c])[..|colors|] == colors;
  }

  /** `b <= a` on energies: false when either is `NaN`. */
  predicate AtMost(b: Energy, a: Energy)
  {
    a.Sum? && b.Sum? && b.n <= a.n
  }

  /** Worker `i` ran the search `searches[i]` against the target `t`, the
      canvas `cur` and its score `score`, and returned a state holding
      `states[i]`, for every `i`. */
  ghost predicate AllSearched(workers: seq<Worker>, opts: GetStateOptions, stream: nat -> Draws, t: seq<Byte>,
                              cur: seq<Byte>, score: Energy, states: seq<StateValue>, searches: seq<Search>,
                              g: Shapes.Geometry)
  {
    && |states| == |workers| && |searches| == |workers|
    && forall i :: 0 <= i < |workers| ==> SearchedAt(workers, opts, stream, t, cur, score, states, searches, g, i)
  }

  /** The search of worker `i` alone. */
  ghost predicate SearchedAt(workers: seq<Worker>, opts: GetStateOptions, stream: nat -> Draws, t: seq<Byte>,
                             cur: seq<Byte>, score: Energy, states: seq<StateValue>, searches: seq<Search>,
                             g: Shapes.Geometry, i: int)
    requires |states| == |workers| && |searches| == |workers| && 0 <= i < |workers|
  {
    Searched(searches[i], workers[i], opts, stream, t, cur, score, states[i], g)
  }

  /** Every worker's search, one at a time. */
  lemma AllSearchedAt(workers: seq<Worker>, opts: GetStateOptions, stream: nat -> Draws, t: seq<Byte>,
                      cur: seq<Byte>, score: Energy, states: seq<StateValue>, searches: seq<Search>,
                      g: Shapes.Geometry, i: int)
    requires AllSearched(workers, opts, stream, t, cur, score, states, searches, g) && 0 <= i < |workers|
    ensures Searched(searches[i], workers[i], opts, stream, t, cur, score, states[i], g)
  {
    assert SearchedAt(workers, opts, stream, t, cur, score, states, searches, g, i);
  }

  /** One more worker's search. */
  lemma AllSearchedSnoc(workers: seq<Worker>, opts: GetStateOptions, stream: nat -> Draws, t: seq<Byte>,
                        cur: seq<Byte>, score: Energy, states: seq<StateValue>, searches: seq<Search>,
                        g: Shapes.Geometry, w: Worker, v: StateValue, search: Search)
    requires AllSearched(workers, opts, stream, t, cur, score, states, searches, g)
    requires Searched(search, w, opts, stream, t, cur, score, v, g)
    ensures AllSearched(workers + [w], opts, stream, t, cur, score, states + [v], searches + [search], g)
  {
    var ws, vs, ss := workers + [w], states + [v], searches + [search];
    forall i | 0 <= i < |ws|
      ensures SearchedAt(ws, opts, stream, t, cur, score, vs, ss, g, i)
    {
      if i < |workers| {
        assert SearchedAt(workers, opts, stream, t, cur, score, states, searches, g, i);
        assert ws[i] == workers[i] && vs[i] == states[i] && ss[i] == searches[i];
      }
    }
  }

  /** The sum of the workers' counters, `workers.reduce(...)`. */
  function Counters(ws: seq<Worker>): nat
    reads set w | w in ws
  {
    if |ws| == 0 then 0 else Counters(ws[..|ws| - 1]) + ws[|ws| - 1].counter
  }

  /** The options of one step; a `numCandidateExtras` of 0 stands for an
      absent one. */
  datatype StepOptions = StepOptions(shapeType: Shapes.ShapeType, shapeAlpha: int, numCandidateShapes: int,
                                     numCandidateMutations: int, numCandidateExtras: int)
  {
    /** The options `step` hands to each worker's search. */
    function SearchOptions(): GetStateOptions
    {
      GetStateOptions(numCandidateShapes, numCandidateMutations, shapeType, shapeAlpha)
    }
  }

  /** The constructor's loop `for (let i = 0; i < numCandidates; ++i)
      workers.push(new Worker(...))`: `numCandidates` fresh, uninitialised
      workers on the target, none when the count is not positive. */
  method NewWorkers(partials: bool, target: Image, numCandidates: int) returns (ws: seq<Worker>)
    requires Context.Valid(target) && target.width > 0 && target.height > 0
    ensures |ws| == Max(0, numCandidates)
    ensures forall k :: 0 <= k < |ws| ==>
      && fresh(ws[k]) && fresh(ws[k].buffer.data) && ws[k].counter == 0 && ws[k].current == None
      && ws[k].Valid() && ws[k].target == target && ws[k].partials == partials
  {
    ws := [];
    var i := 0;
    while i < numCandidates
      invariant 0 <= i && (i == 0 || i <= numCandidates) && |ws| == i
      invariant forall k :: 0 <= k < |ws| ==>
        && fresh(ws[k]) && fresh(ws[k].buffer.data) && ws[k].counter == 0 && ws[k].current == None
        && ws[k].Valid() && ws[k].target == target && ws[k].partials == partials
    {
      var worker := new Worker(partials, target);
      ws := ws + [worker];
      i := i + 1;
    }
  }

  class Model {
    /** `context.PARTIALS`. */
    const partials: bool
    const target: Image
    const backgroundColor: RGBA
    const sw: int
    const sh: int
    const scale: real
    const current: Image
    var score: Energy
    var shapes: seq<Shapes.Shape>
    var colors: seq<RGBA>
    var scores: seq<Energy>
    const workers: seq<Worker>
    /** Allocated only on the partial path. */
    const before: Option<Image>

    /** A worker scores against this model's target, takes the model's path,
        and its scratch buffer is neither the canvas nor the snapshot. */
    predicate Fits(w: Worker)
    {
      && w.Valid() && w.target == target && w.partials == partials
      && w.buffer.data != current.data && (before.Some? ==> w.buffer.data != before.value.data)
    }

    predicate Valid()
      reads this
    {
      && Context.Valid(target) && target.width > 0 && target.height > 0
      && Context.Valid(current) && current.width == target.width && current.height == target.height
      && current.data != target.data
      && (before.Some? <==> partials)
      && (before.Some? ==>
            && Context.Valid(before.value) && before.value.width == target.width && before.value.height == target.height
            && before.value.data != current.data && before.value.data != target.data)
      && |colors| == |shapes| && |scores| == |shapes|
      && (forall i :: 0 <= i < |workers| ==> Fits(workers[i]))
    }

    /** `score` is the energy of the canvas. */
    ghost predicate Exact()
      reads this, current.data, target.data
    {
      Valid() && score == DifferenceOf(target.width, target.height, target.data[..], current.data[..]).value
    }

    /** The snapshot buffer, when there is one. */
    ghost function Snapshot(): set<object>
    {
      if before.Some? then {before.value.data} else {}
    }

    /** `new Model({ context, target, backgroundColor, outputSize,
        numCandidates })`: the output size, a canvas filled with the
        background and its exact energy, `numCandidates` fresh workers and
        empty logs. */
    constructor (partials: bool, target: Image, backgroundColor: RGBA, outputSize: int, numCandidates: int := 1)
      requires Context.Valid(target) && target.width > 0 && target.height > 0
      ensures Valid() && Exact()
      ensures this.partials == partials && this.target == target && this.backgroundColor == backgroundColor
      ensures Output(sw, sh, scale) == OutputSize(target.width, target.height, outputSize)
      ensures fresh(current.data) && current.data[..] == Filled(target.width * target.height, Some(backgroundColor))
      ensures shapes == [] && colors == [] && scores == []
      ensures |workers| == Max(0, numCandidates)
      ensures forall i :: 0 <= i < |workers| ==>
        fresh(workers[i]) && fresh(workers[i].buffer.data) && workers[i].counter == 0 && workers[i].current == None
    {
      var w, h := target.width, target.height;
      var o := OutputSize(w, h, outputSize);
      var c := CreateImage(w, h, Some(backgroundColor));
      var cur := c.value;
      var d := Difference(target, cur);
      var ws := NewWorkers(partials, target, numCandidates);
      var b: Option<Image> := None;
      if partials {
        var bi := CreateImage(w, h, None);
        b := Some(bi.value);
      }
      this.partials := partials;
      this.target := target;
      this.backgroundColor := backgroundColor;
      sw, sh, scale := o.sw, o.sh, o.scale;
      current := cur;
      score := d.value;
      shapes, colors, scores := [], [], [];
      workers := ws;
      before := b;
    }

    /** `add(shape, alpha)`: draws the shape over the canvas with the colour
        `computeColor` chooses, records the new score, and appends one entry
        to each log. */
    method Add(shape: Shapes.Shape, alpha: int, g: Shapes.Geometry)
      requires Valid() && alpha != 0 && Shapes.SqrtNonNegative(g)
      requires Shapes.WellFormed(shape) && Shapes.Width(shape) == target.width && Shapes.Height(shape) == target.height
      modifies this, current.data, Snapshot()
      ensures Valid()
      ensures var lines := Shapes.Lines(shape, g);
        var color := ComputeColorOf(target.data[..], old(current.data[..]), target.width, lines, alpha);
        && current.data[..] == Drawn(old(current.data[..]), target.width, color, lines)
        && score == AddedScore(partials, target.data[..], old(current.data[..]), target.width, target.height,
                               old(score), lines, alpha)
        && shapes == old(shapes) + [shape] && colors == old(colors) + [color] && scores == old(scores) + [score]
      ensures partials ==> before.value.data[..] == old(current.data[..])
      ensures old(Exact()) && Distinct(Covered(Shapes.Lines(shape, g), target.width)) ==> Exact()
    {
      var color, s := Composite(shape, alpha, g);
      Log(shape, color, s);
    }

    /** The bookkeeping half of `add`: the score and the three logs. */
    method Log(shape: Shapes.Shape, color: RGBA, s: Energy)
      requires Valid()
      modifies this
      ensures Valid() && score == s && current.data[..] == old(current.data[..])
      ensures shapes == old(shapes) + [shape] && colors == old(colors) + [color] && scores == old(scores) + [s]
      ensures DifferenceOf(target.width, target.height, target.data[..], current.data[..])
           == old(DifferenceOf(target.width, target.height, target.data[..], current.data[..]))
      ensures before.Some? ==> before.value.data[..] == old(before.value.data[..])
    {
      score := s;
      shapes := shapes + [shape];
      colors := colors + [color];
      scores := scores + [s];
    }

    /** The drawing half of `add`: the colour `computeColor` chooses; on
        the partial path the canvas is first copied into `before`; then the
        lines are drawn over the canvas and the new score is taken
        incrementally or in full. */
    method Composite(shape: Shapes.Shape, alpha: int, g: Shapes.Geometry) returns (color: RGBA, s: Energy)
      requires Valid() && alpha != 0 && Shapes.SqrtNonNegative(g)
      requires Shapes.WellFormed(shape) && Shapes.Width(shape) == target.width && Shapes.Height(shape) == target.height
      modifies current.data, Snapshot()
      ensures var lines := Shapes.Lines(shape, g);
        && color == ComputeColorOf(target.data[..], old(current.data[..]), target.width, lines, alpha)
        && current.data[..] == Drawn(old(current.data[..]), target.width, color, lines)
        && s == AddedScore(partials, target.data[..], old(current.data[..]), target.width, target.height,
                           score, lines, alpha)
      ensures partials ==> before.value.data[..] == old(current.data[..])
      ensures old(Exact()) && Distinct(Covered(Shapes.Lines(shape, g), target.width))
        ==> s == DifferenceOf(target.width, target.height, target.data[..], current.data[..]).value
    {
      ghost var c0, t0 := current.data[..], target.data[..];
      var lines := Shapes.Rasterize(shape, g);
      Shapes.LinesInBounds(shape, g);
      assert current.data[..] == c0 && target.data[..] == t0;
      color := ComputeColor(target, current, lines, alpha);
      assert current.data[..] == c0;
      if partials {
        var b := before.value;
        Set(b.data, current.data);
        assert b.data[..] == c0;
        DrawLines(current, color, lines);
        var r := DifferencePartial(target, b, current, score, lines);
        s := r.value;
      } else {
        DrawLines(current, color, lines);
        var r := Difference(target, current);
        s := r.value;
      }
      assert target.data[..] == t0 && current.data[..] == Drawn(c0, target.width, color, lines);
      if old(Exact()) && Distinct(Covered(lines, target.width)) {
        AddIsExact(partials, t0, c0, target.width, target.height, score, lines, alpha);
      }
    }

    /** `_getBestCandidateState(opts)`: every worker is re-initialised with
        the canvas and its score and searched by `getBestHillClimbState`,
        then the first-seen minimum of the states they return is returned.
        `states[i]` holds the fields of worker `i`'s result. `None` when
        there is no worker or a search returns none. */
    method GetBestCandidateState(opts: GetStateOptions, rng: Rng, g: Shapes.Geometry)
      returns (r: Option<State>, ghost states: seq<StateValue>, ghost es: seq<Energy>, ghost searches: seq<Search>)
      requires Valid() && Shapes.SqrtNonNegative(g)
      modifies set w | w in workers, set w | w in workers :: w.buffer.data, rng
      ensures |workers| == 0 || opts.numCandidateShapes <= 0 ==> r.None?
      ensures rng.pos >= old(rng.pos)
      ensures |workers| > 0 && opts.numCandidateShapes > 0
              && BuildsFrom(opts.shapeType, target.width, target.height, rng.stream, old(rng.pos), g)
              ==> r.Some?
      ensures r.Some? ==>
        && (forall i :: 0 <= i < |workers| ==> workers[i].current == Some(current) && workers[i].score == score)
        && |states| == |workers| && |es| == |workers| && (forall i :: 0 <= i < |workers| ==> states[i].score == Some(es[i]))
        && AllSearched(workers, opts, rng.stream, target.data[..], current.data[..], score, states, searches, g)
        && searches[0].start == old(rng.pos)
        && fresh(r.value) && r.value.Valid() && r.value.worker in workers && r.value.Value() == states[Pick(es)]
    {
      var found;
      found, states, searches := SearchAll(opts, rng, g);
      if found.None? {
        return None, [], [], [];
      }
      r, es := Select(found.value);
      if r.Some? {
        assert r.value == found.value[Pick(es)];
      }
    }

    /** The `map` of `_getBestCandidateState`: each worker in turn is
        re-initialised and searched. `None` when a search returns none. */
    method SearchAll(opts: GetStateOptions, rng: Rng, g: Shapes.Geometry)
      returns (r: Option<seq<State>>, ghost states: seq<StateValue>, ghost searches: seq<Search>)
      requires Valid() && Shapes.SqrtNonNegative(g)
      modifies set w | w in workers, set w | w in workers :: w.buffer.data, rng
      ensures |workers| > 0 && opts.numCandidateShapes <= 0 ==> r.None?
      ensures rng.pos >= old(rng.pos)
      ensures |workers| == 0
              || (opts.numCandidateShapes > 0
                  && BuildsFrom(opts.shapeType, target.width, target.height, rng.stream, old(rng.pos), g))
              ==> r.Some?
      ensures r.Some? ==>
        && (forall i :: 0 <= i < |workers| ==> workers[i].current == Some(current) && workers[i].score == score)
        && |r.value| == |workers| && |states| == |workers| && |searches| == |workers|
        && (forall i :: 0 <= i < |workers| ==>
              && fresh(r.value[i]) && r.value[i].Valid() && r.value[i].worker == workers[i]
              && r.value[i].Value() == states[i] && r.value[i].score.Some?)
        && AllSearched(workers, opts, rng.stream, target.data[..], current.data[..], score, states, searches, g)
        && (|workers| > 0 ==> searches[0].start == old(rng.pos))
    {
      var found: seq<State> := [];
      states, searches := [], [];
      ghost var pos, t, cur := rng.pos, target.data[..], current.data[..];
      for i := 0 to |workers|
        invariant |found| == i && |states| == i && |searches| == i && (opts.numCandidateShapes <= 0 ==> i == 0)
        invariant i == 0 ==> rng.pos == pos
        invariant rng.pos >= pos
        invariant target.data[..] == t && current.data[..] == cur
        invariant i > 0 ==> searches[0].start == pos
        invariant forall k :: 0 <= k < i ==>
          && fresh(found[k]) && found[k].Valid() && found[k].worker == workers[k] && found[k].Value() == states[k]
          && found[k].score.Some? && workers[k].current == Some(current) && workers[k].score == score
        invariant AllSearched(workers[..i], opts, rng.stream, t, cur, score, states, searches, g)
      {
        var s, search := SearchOne(i, opts, rng, g, states, searches, pos);
        if s.None? {
          return None, [], [];
        }
        found, states, searches := found + [s.value], states + [s.value.Value()], searches + [search];
      }
      assert workers[..|workers|] == workers;
      r := Some(found);
    }

    /** One element of that `map`: `worker.init(this.current, this.score)`
        and `getBestHillClimbState(worker, opts)`. */
    method SearchOne(i: nat, opts: GetStateOptions, rng: Rng, g: Shapes.Geometry,
                     ghost states: seq<StateValue>, ghost searches: seq<Search>, ghost from: nat)
      returns (r: Option<State>, ghost search: Search)
      requires Valid() && Shapes.SqrtNonNegative(g) && i < |workers|
      requires AllSearched(workers[..i], opts, rng.stream, target.data[..], current.data[..], score, states, searches, g)
      requires from <= rng.pos
      modifies workers[i], workers[i].buffer.data, rng
      ensures workers[i].current == Some(current) && workers[i].score == score
      ensures target.data[..] == old(target.data[..]) && current.data[..] == old(current.data[..])
      ensures rng.pos >= old(rng.pos)
      ensures r.Some? <==>
        opts.numCandidateShapes > 0
        && AllBuild(opts.shapeType, target.width, target.height, rng.stream, old(rng.pos), opts.numCandidateShapes, g)
      ensures r.None? ==>
        !(opts.numCandidateShapes > 0 && BuildsFrom(opts.shapeType, target.width, target.height, rng.stream, from, g))
      ensures r.Some? ==>
        && fresh(r.value) && r.value.Valid() && r.value.worker == workers[i] && r.value.score.Some?
        && AllSearched(workers[..i + 1], opts, rng.stream, target.data[..], current.data[..], score,
                       states + [r.value.Value()], searches + [search], g)
        && search.start == old(rng.pos)
    {
      var w := workers[i];
      assert Fits(w);
      w.Init(Some(current), score);
      ghost var at := rng.pos;
      r, search := GetBestHillClimbState(w, opts, rng, g);
      if r.None? && opts.numCandidateShapes > 0 && BuildsFrom(opts.shapeType, target.width, target.height, rng.stream, from, g) {
        BuildsFromAll(opts.shapeType, target.width, target.height, rng.stream, from, at, opts.numCandidateShapes, g);
      }
      if r.Some? {
        AllSearchedSnoc(workers[..i], opts, rng.stream, target.data[..], current.data[..], score, states, searches, g,
                        w, r.value.Value(), search);
        assert workers[..i] + [w] == workers[..i + 1];
      }
    }

    /** The selection loop of `_getBestCandidateState`. Every state has
        been scored by its search, so `energy()` returns the cached score
        and changes nothing; the loop reads those scores and keeps the
        first-seen minimum. */
    static method Select(states: seq<State>) returns (r: Option<State>, ghost es: seq<Energy>)
      requires forall k :: 0 <= k < |states| ==> states[k].score.Some?
      ensures |es| == |states| && forall k :: 0 <= k < |states| ==> states[k].score == Some(es[k])
      ensures |states| == 0 ==> r.None?
      ensures |states| > 0 ==> r == Some(states[Pick(es)])
    {
      var bestEnergy := NaN;
      var best := 0;
      r := None;
      es := [];
      for i := 0 to |states|
        invariant |es| == i && forall k :: 0 <= k < i ==> states[k].score == Some(es[k])
        invariant i == 0 ==> r.None?
        invariant i > 0 ==> best == Pick(es) && r == Some(states[best]) && bestEnergy == es[best]
      {
        var s := states[i];
        var e := s.score.value;
        if i > 0 {
          PickSnoc(es, e);
        }
        if i == 0 || Less(e, bestEnergy) {
          bestEnergy := e;
          best := i;
          r := Some(s);
        }
        es := es + [e];
      }
    }

    /** `this.add(state.shape, state.alpha)` as `step` calls it. */
    method Commit(state: State, g: Shapes.Geometry)
      requires Valid() && Shapes.SqrtNonNegative(g) && state.Valid() && state.worker in workers
      modifies this, current.data, Snapshot()
      ensures Valid() && shapes == old(shapes) + [state.shape]
    {
      var sh, alpha := state.shape, state.alpha;
      assert Fits(state.worker);
      assert Shapes.WellFormed(sh) && Shapes.Width(sh) == target.width && Shapes.Height(sh) == target.height;
      Add(sh, alpha, g);
    }

    /** One round of the extras loop up to its test: the winning worker is
        re-armed with the canvas, `a` and `b` are the state's energy before
        and after `hillClimb`, and `stop` is the source's `b <= a`. Both
        energies are cached, and a hill climb returns its input or a state
        of strictly lower energy, so the test holds unless `a` is `NaN`, in
        which case the state comes back unchanged. */
    method Extra(state: State, numCandidateMutations: int, rng: Rng, g: Shapes.Geometry)
      returns (next: State, stop: bool)
      requires Valid() && Shapes.SqrtNonNegative(g)
      requires state.Valid() && state.worker in workers && state.score.Some?
      modifies state, state.worker, state.worker.buffer.data, rng
      ensures state.worker.current == Some(current) && state.worker.score == score
      ensures unchanged(state)
      ensures next.Valid() && next.worker == state.worker && next.score.Some?
      ensures stop <==> old(state.score).value.Sum?
      ensures !stop ==> next == state
    {
      assert Fits(state.worker);
      state.worker.Init(Some(current), score);
      var a := state.Energy(g);
      next := HillClimb(state, numCandidateMutations, rng, g);
      var b := next.Energy(g);
      stop := AtMost(b, a);
    }

    /** The extras loop of `step`, after the first commit of `state`: it
        re-adds `state`'s shape on each of its `numCandidateExtras` rounds
        when that state's energy is `NaN`, and adds nothing otherwise. */
    method Extras(state: State, numCandidateExtras: int, numCandidateMutations: int, rng: Rng, g: Shapes.Geometry)
      requires Valid() && Shapes.SqrtNonNegative(g)
      requires state.Valid() && state.worker in workers && state.score.Some?
      modifies this, current.data, Snapshot(), state, state.worker, state.worker.buffer.data, rng
      ensures Valid() && unchanged(state)
      ensures var added := if old(state.score).value.NaN? then Max(0, numCandidateExtras) else 0;
        && |shapes| == |old(shapes)| + added && shapes[..|old(shapes)|] == old(shapes)
        && forall k :: |old(shapes)| <= k < |shapes| ==> shapes[k] == old(state.shape)
    {
      var i := 0;
      var s := state;
      while i < numCandidateExtras
        invariant Valid() && s.Valid() && s.worker in workers && s.score == old(state.score) && unchanged(state)
        invariant (s == state || fresh(s)) && s.shape == old(state.shape) && s.worker == state.worker
        invariant old(state.score).value.Sum? ==> i == 0
        invariant 0 <= i && (i == 0 || i <= numCandidateExtras)
        invariant |shapes| == |old(shapes)| + i && shapes[..|old(shapes)|] == old(shapes)
        invariant forall k :: |old(shapes)| <= k < |shapes| ==> shapes[k] == old(state.shape)
      {
        var next, stop := Extra(s, numCandidateMutations, rng, g);
        if stop {
          break;
        }
        s := next;
        Commit(s, g);
        i := i + 1;
      }
    }

    /** The part of `step` after the search: `add` of the chosen state, then
        the extras loop. The chosen shape is added once, and again on each
        extra round only when its energy is `NaN`. */
    method Place(state: State, opts: StepOptions, rng: Rng, g: Shapes.Geometry)
      requires Valid() && Shapes.SqrtNonNegative(g)
      requires state.Valid() && state.worker in workers && state.score.Some?
      modifies this, current.data, Snapshot(), state, state.worker, state.worker.buffer.data, rng
      ensures Valid() && target.data[..] == old(target.data[..])
      ensures var added := if old(state.score).value.NaN? then Max(0, opts.numCandidateExtras) else 0;
        && |shapes| == |old(shapes)| + 1 + added && shapes[..|old(shapes)|] == old(shapes)
        && forall k :: |old(shapes)| <= k < |shapes| ==> shapes[k] == old(state.shape)
    {
      ghost var s0 := shapes;
      Commit(state, g);
      ghost var s1 := shapes;
      Extras(state, opts.numCandidateExtras, opts.numCandidateMutations, rng, g);
      assert shapes[..|s1|] == s1 && s1[..|s0|] == s0;
      assert shapes[..|s0|] == s0 by { assert shapes[..|s0|] == shapes[..|s1|][..|s0|]; }
      forall k | |s0| <= k < |shapes| ensures shapes[k] == old(state.shape) {
        if k == |s0| { assert shapes[k] == s1[k]; }
      }
    }

    /** `step(opts)`: commits the first-seen minimum of the states the
        workers' searches return, then runs the extras loop, and returns the
        workers' total evaluation count. The extras loop adds a shape only
        when the committed state's energy is `NaN`; then it re-adds the same
        shape on every one of its `numCandidateExtras` rounds. `None` when no
        candidate was found, where the source would fail on a `null` state. */
    method Step(opts: StepOptions, rng: Rng, g: Shapes.Geometry)
      returns (r: Option<nat>, ghost states: seq<StateValue>, ghost es: seq<Energy>, ghost searches: seq<Search>)
      requires Valid() && Shapes.SqrtNonNegative(g)
      modifies this, current.data, Snapshot(), set w | w in workers, set w | w in workers :: w.buffer.data, rng
      ensures Valid()
      ensures |workers| == 0 || opts.numCandidateShapes <= 0 ==> r.None?
      ensures |workers| > 0 && opts.numCandidateShapes > 0
              && BuildsFrom(opts.shapeType, target.width, target.height, rng.stream, old(rng.pos), g)
              ==> r.Some?
      ensures r.None? ==> shapes == old(shapes)
      ensures r.Some? ==>
        && r.value == Counters(workers)
        && |states| == |workers| && |es| == |workers| && (forall i :: 0 <= i < |workers| ==> states[i].score == Some(es[i]))
        && AllSearched(workers, opts.SearchOptions(), rng.stream, target.data[..], old(current.data[..]), old(score),
                       states, searches, g)
        && searches[0].start == old(rng.pos)
        && |shapes| == |old(shapes)| + 1 + (if es[Pick(es)].NaN? then Max(0, opts.numCandidateExtras) else 0)
        && shapes[..|old(shapes)|] == old(shapes)
        && forall k :: |old(shapes)| <= k < |shapes| ==> shapes[k] == states[Pick(es)].shape
    {
      var best;
      best, states, es, searches := GetBestCandidateState(opts.SearchOptions(), rng, g);
      if best.None? {
        return None, states, es, searches;
      }
      var state := best.value;
      assert state.shape == states[Pick(es)].shape && state.score == Some(es[Pick(es)]);
      Place(state, opts, rng, g);
      r := Some(Counters(workers));
    }

    /** `toSVG()`: a document of the output size whose background is the
        `#rrggbb` form of the background colour, under a group scaled by
        `scale`, holding one painted element per committed shape in commit
        order, each with its recorded colour as fill and `a / 255` as
        opacity. */
    function ToSvg(g: Shapes.Geometry): (d: Svg.Document)
      requires Valid()
      reads this
      ensures d.width == sw && d.height == sh && d.scale == scale && d.background == Hex(backgroundColor)
      ensures |d.body| == |shapes|
      ensures forall k :: 0 <= k < |shapes| ==>
        && d.body[k].element == Shapes.ToSvg(shapes[k], g)
        && d.body[k].fill == Hex(colors[k]) && d.body[k].opacity == colors[k].a as real / 255.0
    {
      Svg.Document(sw, sh, Hex(backgroundColor), scale, Body(shapes, colors, g))
    }
  }
}
