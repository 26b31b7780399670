/** lib/rasterize.ts: the generic polygon rasteriser. The closed edge path is
    traced pixel by pixel with Bresenham's algorithm, the edge pixels are
    grouped by row (a `Map<number, Set<number>>`, both iterated in insertion
    order), and each row becomes one span from its smallest to its largest
    edge column as computed by `minMaxElements`. */
module Rasterize {
  import opened Numbers
  import opened Scanlines
  import opened Wrappers

  datatype Point = Point(x: int, y: int)

  // ---------------------------------------------------------------------
  // Bresenham

  /** The loop of `bresenham` along its major axis, as (major, minor) pairs:
      `a` is the major coordinate, `b` the minor one, `e` the error term,
      `a2` the major end, `ia`/`ib` the signs and `da`/`db` the doubled
      absolute extents. The tie rule `error !== 0 || i > 0` looks at the sign
      of the major axis. */
  function Walk(a: int, b: int, e: int, a2: int, ia: int, ib: int, da: int, db: int): seq<(int, int)>
    requires a == a2 || ia == Sign(a2 - a)
    decreases Abs(a2 - a)
  {
    if a == a2 then []
    else
      var step := e >= 0 && (e != 0 || ia > 0);
      var b' := if step then b + ib else b;
      var e' := (if step then e - da else e) + db;
      [(a + ia, b')] + Walk(a + ia, b', e', a2, ia, ib, da, db)
  }

  /** A (major, minor) pair back as a point. */
  function ToPoint(p: (int, int), yMajor: bool): Point
  {
    if yMajor then Point(p.1, p.0) else Point(p.0, p.1)
  }

  /** Turns (major, minor) pairs back into points. */
  function Orient(pairs: seq<(int, int)>, yMajor: bool): (ps: seq<Point>)
    ensures |ps| == |pairs|
    ensures forall k :: 0 <= k < |pairs| ==> ps[k] == ToPoint(pairs[k], yMajor)
  {
    if |pairs| == 0 then []
    else Orient(pairs[..|pairs| - 1], yMajor) + [ToPoint(pairs[|pairs| - 1], yMajor)]
  }

  /** The walk `bresenham` takes from `(a1, b1)` to `(a2, b2)` when `a` is
      the longer axis: the extents are doubled and the error term starts at
      `db - da/2`. */
  function MajorWalk(a1: int, b1: int, a2: int, b2: int): seq<(int, int)>
  {
    var da, db := Abs(a2 - a1) * 2, Abs(b2 - b1) * 2;
    Walk(a1, b1, db - da / 2, a2, Sign(a2 - a1), Sign(b2 - b1), da, db)
  }

  /** `bresenham(x1, y1, x2, y2)`. */
  function Bresenham(x1: int, y1: int, x2: int, y2: int): seq<Point>
  {
    [Point(x1, y1)] +
      if Abs(x2 - x1) >= Abs(y2 - y1) then Orient(MajorWalk(x1, y1, x2, y2), false)
      else Orient(MajorWalk(y1, x1, y2, x2), true)
  }

  lemma OrientAppend(p: seq<(int, int)>, q: seq<(int, int)>, yMajor: bool)
    ensures Orient(p + q, yMajor) == Orient(p, yMajor) + Orient(q, yMajor)
  {
  }

  lemma OrientSnoc(p: seq<(int, int)>, q: (int, int), yMajor: bool)
    ensures Orient(p + [q], yMajor) == Orient(p, yMajor) + [ToPoint(q, yMajor)]
  {
    assert (p + [q])[..|p|] == p;
  }

  lemma {:induction false} WalkLength(a: int, b: int, e: int, a2: int, ia: int, ib: int, da: int, db: int)
    requires a == a2 || ia == Sign(a2 - a)
    ensures |Walk(a, b, e, a2, ia, ib, da, db)| == Abs(a2 - a)
    decreases Abs(a2 - a)
  {
    if a != a2 {
      var step := e >= 0 && (e != 0 || ia > 0);
      var b' := if step then b + ib else b;
      var e' := (if step then e - da else e) + db;
      WalkLength(a + ia, b', e', a2, ia, ib, da, db);
    }
  }

  /** The pair before position `k` of a walk that starts after `(a, b)`. */
  function Prev(a: int, b: int, w: seq<(int, int)>, k: int): (int, int)
    requires 0 <= k < |w|
  {
    if k == 0 then (a, b) else w[k - 1]
  }

  /** Each pair of `w` is one step after the one before it (the first after
      `(a, b)`): the major coordinate moves by `ia`, the minor one by `0` or
      `ib`. */
  predicate Steps(a: int, b: int, w: seq<(int, int)>, ia: int, ib: int)
  {
    forall k {:trigger Prev(a, b, w, k)} :: 0 <= k < |w| ==>
      w[k].0 == Prev(a, b, w, k).0 + ia && (w[k].1 == Prev(a, b, w, k).1 || w[k].1 == Prev(a, b, w, k).1 + ib)
  }

  /** The last pair of a walk that starts after `(a, b)`. */
  function LastOr(a: int, b: int, w: seq<(int, int)>): (int, int)
  {
    if |w| == 0 then (a, b) else w[|w| - 1]
  }

  lemma StepsCons(a: int, b: int, p: (int, int), rest: seq<(int, int)>, ia: int, ib: int)
    requires p.0 == a + ia && (p.1 == b || p.1 == b + ib)
    requires Steps(p.0, p.1, rest, ia, ib)
    ensures Steps(a, b, [p] + rest, ia, ib)
  {
    var w := [p] + rest;
    forall k | 0 <= k < |w|
      ensures w[k].0 == Prev(a, b, w, k).0 + ia && (w[k].1 == Prev(a, b, w, k).1 || w[k].1 == Prev(a, b, w, k).1 + ib)
    {
      if k > 0 {
        assert w[k] == rest[k - 1];
        assert Prev(a, b, w, k) == Prev(p.0, p.1, rest, k - 1);
      }
    }
  }

  lemma {:induction false} WalkSteps(a: int, b: int, e: int, a2: int, ia: int, ib: int, da: int, db: int)
    requires a == a2 || ia == Sign(a2 - a)
    ensures Steps(a, b, Walk(a, b, e, a2, ia, ib, da, db), ia, ib)
    decreases Abs(a2 - a)
  {
    if a != a2 {
      var step := e >= 0 && (e != 0 || ia > 0);
      var b' := if step then b + ib else b;
      var e' := (if step then e - da else e) + db;
      WalkUnfold(a, b, e, a2, ia, ib, da, db);
      WalkSteps(a + ia, b', e', a2, ia, ib, da, db);
      StepsCons(a, b, (a + ia, b'), Walk(a + ia, b', e', a2, ia, ib, da, db), ia, ib);
    }
  }

  lemma MulBounds(r: int, d: int)
    requires d > 0
    ensures r >= 1 ==> r * d >= d
    ensures r <= -1 ==> r * d <= -d
  {
    if r >= 1 {
      assert r * d == d + (r - 1) * d;
    }
    if r <= -1 {
      assert r * d == -d + (r + 1) * d;
    }
  }

  lemma MulPred(x: int, y: int)
    ensures (x - 1) * y == x * y - y
  {
  }

  lemma LastOrCons(a: int, b: int, p: (int, int), rest: seq<(int, int)>)
    ensures LastOr(a, b, [p] + rest) == LastOr(p.0, p.1, rest)
  {
  }

  /** The walk ends on `(a2, b2)`. `r` counts the minor steps still needed;
      the quantity `e + k*db - r*da` (with `k` the major steps still to go) is
      conserved by every step, and the error term stays within
      `[db - da, db]`, so no minor step is missed or taken twice. */
  lemma {:induction false} WalkEnd(a: int, b: int, e: int, a2: int, ia: int, ib: int, da: int, db: int, b2: int, r: int)
    requires a == a2 || ia == Sign(a2 - a)
    requires da > 0 && da % 2 == 0 && 0 <= db <= da
    requires db - da <= e <= db
    requires e + Abs(a2 - a) * db - r * da == db - da / 2
    requires b2 == b + r * ib
    ensures LastOr(a, b, Walk(a, b, e, a2, ia, ib, da, db)) == (a2, b2)
    decreases Abs(a2 - a)
  {
    if a == a2 {
      NoStepsLeft(e, r, da, db, b, ib, b2);
    } else {
      var step := e >= 0 && (e != 0 || ia > 0);
      var b' := if step then b + ib else b;
      var e' := (if step then e - da else e) + db;
      var r' := if step then r - 1 else r;
      assert Abs(a2 - (a + ia)) == Abs(a2 - a) - 1;
      ConservedStep(e, Abs(a2 - a), r, da, db, b, ib, b2, step);
      WalkEnd(a + ia, b', e', a2, ia, ib, da, db, b2, r');
      WalkUnfold(a, b, e, a2, ia, ib, da, db);
      LastOrCons(a, b, (a + ia, b'), Walk(a + ia, b', e', a2, ia, ib, da, db));
    }
  }

  /** With no major step left the error bounds leave no minor step
      either. */
  lemma NoStepsLeft(e: int, r: int, da: int, db: int, b: int, ib: int, b2: int)
    requires da > 0 && da % 2 == 0 && db - da <= e <= db
    requires e - r * da == db - da / 2 && b2 == b + r * ib
    ensures b2 == b
  {
    MulBounds(r, da);
    assert r == 0;
  }

  /** One step keeps `e + k*db - r*da` and `b + r*ib`: a minor step lowers
      both the error term by `da` and `r` by one, and every step adds `db` to
      the error term while one major step fewer remains. */
  lemma ConservedStep(e: int, k: int, r: int, da: int, db: int, b: int, ib: int, b2: int, step: bool)
    requires b2 == b + r * ib
    ensures var e', r', b' := (if step then e - da else e) + db, (if step then r - 1 else r), (if step then b + ib else b);
      && e' + (k - 1) * db - r' * da == e + k * db - r * da
      && b2 == b' + r' * ib
  {
    MulPred(k, db);
    MulPred(r, da);
    MulPred(r, ib);
  }

  lemma SignTimesAbs(x: int)
    ensures Abs(x) * Sign(x) == x
  {
  }

  /** The walk along the longer axis has `|a2 - a1|` pairs, ends on
      `(a2, b2)` and moves one step at a time. */
  lemma MajorWalkShape(a1: int, b1: int, a2: int, b2: int)
    requires Abs(a2 - a1) >= Abs(b2 - b1)
    ensures |MajorWalk(a1, b1, a2, b2)| == Abs(a2 - a1)
    ensures LastOr(a1, b1, MajorWalk(a1, b1, a2, b2)) == (a2, b2)
    ensures Steps(a1, b1, MajorWalk(a1, b1, a2, b2), Sign(a2 - a1), Sign(b2 - b1))
  {
    var k: int, r: int := Abs(a2 - a1), Abs(b2 - b1);
    var da, db := k * 2, r * 2;
    var ia, ib := Sign(a2 - a1), Sign(b2 - b1);
    WalkLength(a1, b1, db - da / 2, a2, ia, ib, da, db);
    WalkSteps(a1, b1, db - da / 2, a2, ia, ib, da, db);
    if a1 != a2 {
      MajorWalkEnd(a1, b1, a2, b2);
    }
  }

  lemma MajorWalkEnd(a1: int, b1: int, a2: int, b2: int)
    requires a1 != a2 && Abs(a2 - a1) >= Abs(b2 - b1)
    ensures LastOr(a1, b1, MajorWalk(a1, b1, a2, b2)) == (a2, b2)
  {
    var k: int, r: int := Abs(a2 - a1), Abs(b2 - b1);
    var da, db := k * 2, r * 2;
    var ia, ib := Sign(a2 - a1), Sign(b2 - b1);
    SignTimesAbs(b2 - b1);
    CrossDoubled(k, r);
    WalkEnd(a1, b1, db - da / 2, a2, ia, ib, da, db, b2, r);
  }

  lemma CrossDoubled(k: int, r: int)
    ensures k * (r * 2) == r * (k * 2)
  {
  }

  /** True when `q` is one Bresenham step after `p`: exactly one pixel along
      the major axis and at most one along the minor axis. */
  predicate Adjacent(p: Point, q: Point, xMajor: bool)
  {
    if xMajor then Abs(q.x - p.x) == 1 && Abs(q.y - p.y) <= 1
    else Abs(q.y - p.y) == 1 && Abs(q.x - p.x) <= 1
  }

  predicate Connected(ps: seq<Point>, xMajor: bool)
  {
    forall k :: 0 <= k < |ps| - 1 ==> Adjacent(ps[k], ps[k + 1], xMajor)
  }

  /** `bresenham` returns `max(|dx|, |dy|) + 1` points, starting at the start
      point, ending at the end point, each one step after the previous. */
  lemma BresenhamShape(x1: int, y1: int, x2: int, y2: int)
    ensures var ps := Bresenham(x1, y1, x2, y2);
      && |ps| == Max(Abs(x2 - x1), Abs(y2 - y1)) + 1
      && ps[0] == Point(x1, y1)
      && ps[|ps| - 1] == Point(x2, y2)
      && Connected(ps, Abs(x2 - x1) >= Abs(y2 - y1))
  {
    if Abs(x2 - x1) >= Abs(y2 - y1) {
      MajorWalkShape(x1, y1, x2, y2);
      WalkPoints(x1, y1, MajorWalk(x1, y1, x2, y2), Sign(x2 - x1), Sign(y2 - y1), false);
    } else {
      MajorWalkShape(y1, x1, y2, x2);
      WalkPoints(y1, x1, MajorWalk(y1, x1, y2, x2), Sign(y2 - y1), Sign(x2 - x1), true);
    }
  }

  /** A walk of unit steps from `(a, b)`, turned into points after the
      start point: it ends on the walk's last pair and each point is one
      step after the previous. */
  lemma WalkPoints(a: int, b: int, w: seq<(int, int)>, ia: int, ib: int, yMajor: bool)
    requires (|w| == 0 || Abs(ia) == 1) && Abs(ib) <= 1 && Steps(a, b, w, ia, ib)
    ensures var ps := [ToPoint((a, b), yMajor)] + Orient(w, yMajor);
      && |ps| == |w| + 1
      && ps[|ps| - 1] == ToPoint(LastOr(a, b, w), yMajor)
      && Connected(ps, !yMajor)
  {
    var o := Orient(w, yMajor);
    var ps := [ToPoint((a, b), yMajor)] + o;
    assert |ps| == |w| + 1;
    if |w| > 0 {
      assert ps[|ps| - 1] == o[|w| - 1];
    }
    forall k | 0 <= k < |ps| - 1
      ensures Adjacent(ps[k], ps[k + 1], !yMajor)
    {
      var p := Prev(a, b, w, k);
      assert w[k].0 == p.0 + ia && (w[k].1 == p.1 || w[k].1 == p.1 + ib);
      StepAdjacent(p, w[k], ia, ib, yMajor);
      PointsOfWalk(a, b, w, yMajor, k);
    }
  }

  /** Point `k` and point `k + 1` of a walk turned into points are the pair
      before position `k` and the pair at it. */
  lemma PointsOfWalk(a: int, b: int, w: seq<(int, int)>, yMajor: bool, k: int)
    requires 0 <= k < |w|
    ensures var ps := [ToPoint((a, b), yMajor)] + Orient(w, yMajor);
      ps[k] == ToPoint(Prev(a, b, w, k), yMajor) && ps[k + 1] == ToPoint(w[k], yMajor)
  {
    var o := Orient(w, yMajor);
    var ps := [ToPoint((a, b), yMajor)] + o;
    assert ps[k + 1] == o[k];
    if k > 0 {
      assert ps[k] == o[k - 1];
    }
  }

  lemma StepAdjacent(p: (int, int), q: (int, int), ia: int, ib: int, yMajor: bool)
    requires Abs(ia) == 1 && Abs(ib) <= 1 && q.0 == p.0 + ia && (q.1 == p.1 || q.1 == p.1 + ib)
    ensures Adjacent(ToPoint(p, yMajor), ToPoint(q, yMajor), !yMajor)
  {
  }

  /** A degenerate segment is a single point. */
  lemma BresenhamDegenerate(x: int, y: int)
    ensures Bresenham(x, y, x, y) == [Point(x, y)]
  {
  }

  /** One step of the walk, unfolded. */
  lemma WalkUnfold(a: int, b: int, e: int, a2: int, ia: int, ib: int, da: int, db: int)
    requires a != a2 && ia == Sign(a2 - a)
    ensures var step := e >= 0 && (e != 0 || ia > 0);
      var b' := if step then b + ib else b;
      var e' := (if step then e - da else e) + db;
      && (a + ia == a2 || ia == Sign(a2 - (a + ia)))
      && Walk(a, b, e, a2, ia, ib, da, db) == [(a + ia, b')] + Walk(a + ia, b', e', a2, ia, ib, da, db)
  {
  }

  /** One of the two while loops of `bresenham`, the x-major one when
      `yMajor` is false and the y-major one when it is true: `a` runs along
      the major axis, `b` along the minor one. */
  method WalkLoop(a1: int, b1: int, e1: int, a2: int, ia: int, ib: int, da: int, db: int, yMajor: bool)
    returns (points: seq<Point>)
    requires a1 == a2 || ia == Sign(a2 - a1)
    ensures points == Orient(Walk(a1, b1, e1, a2, ia, ib, da, db), yMajor)
  {
    points := [];
    ghost var pairs: seq<(int, int)> := [];
    var a, b, error := a1, b1, e1;
    while a != a2
      invariant a == a2 || ia == Sign(a2 - a)
      invariant pairs + Walk(a, b, error, a2, ia, ib, da, db) == Walk(a1, b1, e1, a2, ia, ib, da, db)
      invariant points == Orient(pairs, yMajor)
      decreases Abs(a2 - a)
    {
      WalkUnfold(a, b, error, a2, ia, ib, da, db);
      ghost var rest0 := Walk(a, b, error, a2, ia, ib, da, db);
      if error >= 0 && (error != 0 || ia > 0) {
        error := error - da;
        b := b + ib;
      }
      error := error + db;
      a := a + ia;
      ghost var rest := Walk(a, b, error, a2, ia, ib, da, db);
      assert rest0 == [(a, b)] + rest;
      AppendAssoc(pairs, [(a, b)], rest);
      OrientSnoc(pairs, (a, b), yMajor);
      pairs := pairs + [(a, b)];
      points := points + [if yMajor then Point(b, a) else Point(a, b)];
    }
    assert pairs + [] == pairs;
  }

  lemma AppendAssoc<T>(x: seq<T>, y: seq<T>, z: seq<T>)
    ensures (x + y) + z == x + (y + z)
  {
  }

  /** `bresenham`: the start point followed by the loop along the longer
      axis. */
  method BresenhamLine(x1: int, y1: int, x2: int, y2: int) returns (points: seq<Point>)
    ensures points == Bresenham(x1, y1, x2, y2)
  {
    var dx := x2 - x1;
    var ix := Sign(dx);
    dx := Abs(dx) * 2;
    var dy := y2 - y1;
    var iy := Sign(dy);
    dy := Abs(dy) * 2;
    var rest;
    if dx >= dy {
      rest := WalkLoop(x1, y1, dy - dx / 2, x2, ix, iy, dx, dy, false);
    } else {
      rest := WalkLoop(y1, x1, dx - dy / 2, y2, iy, ix, dy, dx, true);
    }
    points := [Point(x1, y1)] + rest;
  }

  // ---------------------------------------------------------------------
  // minMaxElements

  /** `!min`: a running bound that is unset or 0 counts as missing. */
  predicate Falsy(o: Option<int>)
  {
    o.None? || o.value == 0
  }

  /** The running `(min, max)` of `minMaxElements` after the values `xs`. */
  function MinMaxAcc(xs: seq<int>): (Option<int>, Option<int>)
  {
    if |xs| == 0 then (None, None)
    else
      var acc := MinMaxAcc(xs[..|xs| - 1]);
      var v := xs[|xs| - 1];
      (if Falsy(acc.0) || v < acc.0.value then Some(v) else acc.0,
       if Falsy(acc.1) || v > acc.1.value then Some(v) else acc.1)
  }

  /** `minMaxElements(xs)`; `None` is `undefined`. */
  function MinMax(xs: seq<int>): Option<(int, int)>
  {
    var acc := MinMaxAcc(xs);
    if acc.0.Some? && acc.1.Some? then Some((acc.0.value, acc.1.value)) else None
  }

  lemma {:induction false} MinMaxAccMembers(xs: seq<int>)
    ensures (MinMaxAcc(xs).0.Some? <==> |xs| > 0) && (MinMaxAcc(xs).1.Some? <==> |xs| > 0)
    ensures MinMaxAcc(xs).0.Some? ==> MinMaxAcc(xs).0.value in xs
    ensures MinMaxAcc(xs).1.Some? ==> MinMaxAcc(xs).1.value in xs
  {
    if |xs| > 0 {
      MinMaxAccMembers(xs[..|xs| - 1]);
      assert xs == xs[..|xs| - 1] + [xs[|xs| - 1]];
    }
  }

  /** `minMaxElements` is `undefined` exactly on an empty input, and both of
      its results are elements of the input. */
  lemma MinMaxDefined(xs: seq<int>)
    ensures MinMax(xs).Some? <==> |xs| > 0
    ensures MinMax(xs).Some? ==> MinMax(xs).value.0 in xs && MinMax(xs).value.1 in xs
  {
    MinMaxAccMembers(xs);
  }

  lemma {:induction false} MinMaxAccNoZero(xs: seq<int>)
    requires |xs| > 0 && 0 !in xs
    ensures MinMaxAcc(xs).0.Some? && MinMaxAcc(xs).1.Some?
    ensures forall v :: v in xs ==> MinMaxAcc(xs).0.value <= v <= MinMaxAcc(xs).1.value
  {
    var init := xs[..|xs| - 1];
    assert xs == init + [xs[|xs| - 1]];
    if |init| > 0 {
      MinMaxAccNoZero(init);
      MinMaxAccMembers(init);
    }
  }

  /** On an input without a 0, `minMaxElements` returns the true minimum and
      maximum. */
  lemma MinMaxNoZero(xs: seq<int>)
    requires |xs| > 0 && 0 !in xs
    ensures MinMax(xs).Some?
    ensures MinMax(xs).value.0 in xs && MinMax(xs).value.1 in xs
    ensures forall v :: v in xs ==> MinMax(xs).value.0 <= v <= MinMax(xs).value.1
  {
    MinMaxAccNoZero(xs);
    MinMaxAccMembers(xs);
  }

  /** A 0 counts as unset: after a 0 the next value overwrites the minimum
      even when it is larger, so `[0, 5]` gives `(5, 5)` and not `(0, 5)`. */
  lemma MinMaxZeroIsUnset()
    ensures MinMax([0, 5]) == Some((5, 5))
  {
    assert [0, 5][..1] == [0];
    assert [0][..0] == [];
  }

  /** `minMaxElements` with its for-of loop. */
  method MinMaxElements(xs: seq<int>) returns (r: Option<(int, int)>)
    ensures r == MinMax(xs)
  {
    var min: Option<int> := None;
    var max: Option<int> := None;
    for i := 0 to |xs|
      invariant (min, max) == MinMaxAcc(xs[..i])
    {
      var v := xs[i];
      assert xs[..i + 1][..i] == xs[..i];
      if Falsy(min) || v < min.value {
        min := Some(v);
      }
      if Falsy(max) || v > max.value {
        max := Some(v);
      }
    }
    assert xs[..|xs|] == xs;
    if min.Some? && max.Some? {
      r := Some((min.value, max.value));
    } else {
      r := None;
    }
  }

  // ---------------------------------------------------------------------
  // The polygon rasteriser

  /** A polygon vertex; shape coordinates are not necessarily integral. */
  datatype Vertex = Vertex(x: real, y: real)

  /** The edge from vertex `i` to the next one; the last vertex closes the
      path back to the first. Coordinates are truncated with `|0`. */
  function Edge(points: seq<Vertex>, i: int): seq<Point>
    requires 0 <= i < |points|
  {
    var p1 := points[i];
    var p2 := if i >= |points| - 1 then points[0] else points[i + 1];
    Bresenham(Trunc(p1.x), Trunc(p1.y), Trunc(p2.x), Trunc(p2.y))
  }

  /** The pixels of the first `n` edges, in order. */
  function EdgesUpTo(points: seq<Vertex>, n: int): seq<Point>
    requires 0 <= n <= |points|
  {
    if n == 0 then [] else EdgesUpTo(points, n - 1) + Edge(points, n - 1)
  }

  function Edges(points: seq<Vertex>): seq<Point>
  {
    EdgesUpTo(points, |points|)
  }

  function TruncVertex(v: Vertex): Point
  {
    Point(Trunc(v.x), Trunc(v.y))
  }

  /** Edge `i` runs from vertex `i` to vertex `(i + 1) mod n`, both
      truncated: the edges form the closed path around the polygon. */
  lemma EdgeEnds(points: seq<Vertex>, i: int)
    requires 0 <= i < |points|
    ensures |Edge(points, i)| >= 1
    ensures Edge(points, i)[0] == TruncVertex(points[i])
    ensures Edge(points, i)[|Edge(points, i)| - 1] == TruncVertex(points[(i + 1) % |points|])
  {
    var p2 := if i >= |points| - 1 then points[0] else points[i + 1];
    assert p2 == points[(i + 1) % |points|];
    BresenhamShape(Trunc(points[i].x), Trunc(points[i].y), Trunc(p2.x), Trunc(p2.y));
  }

  /** The `Map<number, Set<number>>` from rows to edge columns: the keys in
      insertion order, and for each key its columns in insertion order. */
  datatype Rows = Rows(keys: seq<int>, xs: map<int, seq<int>>)

  /** `Set.add`: a value already present is not added again. */
  function Insert(s: seq<int>, x: int): (r: seq<int>)
    ensures x in r && (forall v :: v in r <==> v in s || v == x)
  {
    if x in s then s else s + [x]
  }

  /** One iteration of the grouping loop. */
  function AddPoint(g: Rows, p: Point): Rows
  {
    if p.y in g.xs then Rows(g.keys, g.xs[p.y := Insert(g.xs[p.y], p.x)])
    else Rows(g.keys + [p.y], g.xs[p.y := [p.x]])
  }

  /** The grouping loop over the edge pixels. */
  function Group(edges: seq<Point>): Rows
  {
    if |edges| == 0 then Rows([], map[])
    else AddPoint(Group(edges[..|edges| - 1]), edges[|edges| - 1])
  }

  /** The keys are listed once each and are exactly the map's keys, and no
      key maps to an empty set. */
  ghost predicate WellFormed(g: Rows)
  {
    && (forall i, j :: 0 <= i < j < |g.keys| ==> g.keys[i] != g.keys[j])
    && (forall y :: y in g.xs <==> y in g.keys)
    && (forall y :: y in g.xs ==> |g.xs[y]| > 0)
  }

  /** The grouped rows are exactly the rows of the edge pixels, and the
      columns of a row are exactly the columns of its edge pixels. */
  lemma {:induction false} GroupContents(edges: seq<Point>)
    ensures WellFormed(Group(edges))
    ensures forall y :: y in Group(edges).xs <==> exists p :: p in edges && p.y == y
    ensures forall y, x :: y in Group(edges).xs ==> (x in Group(edges).xs[y] <==> Point(x, y) in edges)
  {
    if |edges| > 0 {
      var init := edges[..|edges| - 1];
      var p := edges[|edges| - 1];
      GroupContents(init);
      assert edges == init + [p];
      var g := Group(init);
      var g' := Group(edges);
      assert g' == AddPoint(g, p);
      if p.y !in g.xs {
        forall i, j | 0 <= i < j < |g'.keys|
          ensures g'.keys[i] != g'.keys[j]
        {
          if j == |g.keys| {
            assert g.keys[i] in g.xs;
          }
        }
      }
      forall y
        ensures y in g'.xs <==> exists q :: q in edges && q.y == y
      {
        if y in g'.xs && y != p.y {
          var q :| q in init && q.y == y;
          assert q in edges;
        }
        if y == p.y {
          assert p in edges;
        }
      }
      forall y, x | y in g'.xs
        ensures x in g'.xs[y] <==> Point(x, y) in edges
      {
        assert Point(x, y) in edges <==> Point(x, y) in init || Point(x, y) == p;
      }
    }
  }

  /** The `forEach` over the map: one line per row whose columns yield a
      `minMaxElements` result. */
  function Emit(keys: seq<int>, xs: map<int, seq<int>>): seq<Scanline>
    requires forall y :: y in keys ==> y in xs
  {
    if |keys| == 0 then []
    else
      var y := keys[|keys| - 1];
      Emit(keys[..|keys| - 1], xs)
        + match MinMax(xs[y])
          case Some(mm) => [New(y as real, mm.0 as real, mm.1 as real)]
          case None => []
  }

  /** On well-formed rows, `Emit` produces exactly one line per key, in key
      order, spanning the row's `minMaxElements`. */
  lemma {:induction false} EmitPerKey(keys: seq<int>, xs: map<int, seq<int>>)
    requires forall y :: y in keys ==> y in xs && |xs[y]| > 0
    ensures |Emit(keys, xs)| == |keys|
    ensures forall i :: 0 <= i < |keys| ==>
      MinMax(xs[keys[i]]).Some? &&
      Emit(keys, xs)[i] == Scanline(keys[i], Min(MinMax(xs[keys[i]]).value.0, MinMax(xs[keys[i]]).value.1),
                                             Max(MinMax(xs[keys[i]]).value.0, MinMax(xs[keys[i]]).value.1))
  {
    if |keys| > 0 {
      var init := keys[..|keys| - 1];
      var y := keys[|keys| - 1];
      assert forall v :: v in init ==> v in keys;
      EmitPerKey(init, xs);
      MinMaxDefined(xs[y]);
      var mm := MinMax(xs[y]).value;
      TruncOfInt(y);
      TruncOfInt(mm.0);
      TruncOfInt(mm.1);
      forall i | 0 <= i < |keys| ensures MinMax(xs[keys[i]]).Some?
      {
        MinMaxDefined(xs[keys[i]]);
      }
    }
  }

  /** The default export of lib/rasterize.ts, on the vertex list. */
  function Polygon(points: seq<Vertex>): seq<Scanline>
  {
    var g := Group(Edges(points));
    GroupContents(Edges(points));
    Emit(g.keys, g.xs)
  }

  lemma PolygonLines(points: seq<Vertex>)
    ensures var g := Group(Edges(points));
      && |Polygon(points)| == |g.keys|
      && forall i :: 0 <= i < |g.keys| ==> Polygon(points)[i].y == g.keys[i]
  {
    var g := Group(Edges(points));
    GroupContents(Edges(points));
    EmitPerKey(g.keys, g.xs);
  }

  /** At most one line per row. */
  lemma PolygonRowsDistinct(points: seq<Vertex>)
    ensures DistinctRows(Polygon(points))
  {
    var g := Group(Edges(points));
    GroupContents(Edges(points));
    PolygonLines(points);
  }

  /** A row gets a line exactly when some traced edge pixel lies in it. */
  lemma PolygonRowIff(points: seq<Vertex>, y: int)
    ensures HasRow(Polygon(points), y) <==> exists p :: p in Edges(points) && p.y == y
  {
    var g := Group(Edges(points));
    var lines := Polygon(points);
    GroupContents(Edges(points));
    PolygonLines(points);
    if y in g.xs {
      var i :| 0 <= i < |g.keys| && g.keys[i] == y;
      assert lines[i].y == y;
    }
    if HasRow(lines, y) {
      var i :| 0 <= i < |lines| && lines[i].y == y;
      assert g.keys[i] in g.xs;
    }
  }

  /** Each line spans from one edge pixel of its row to another; when no edge
      pixel of the row is in column 0 it covers every edge pixel of the row. */
  lemma PolygonSpan(points: seq<Vertex>, i: int)
    requires 0 <= i < |Polygon(points)|
    ensures var l := Polygon(points)[i];
      && l.x1 <= l.x2
      && Point(l.x1, l.y) in Edges(points) && Point(l.x2, l.y) in Edges(points)
      && ((forall p :: p in Edges(points) && p.y == l.y ==> p.x != 0) ==>
           forall p :: p in Edges(points) && p.y == l.y ==> l.x1 <= p.x <= l.x2)
  {
    var edges := Edges(points);
    var g := Group(edges);
    GroupContents(edges);
    EmitPerKey(g.keys, g.xs);
    var y := g.keys[i];
    var cols := g.xs[y];
    MinMaxDefined(cols);
    var l := Polygon(points)[i];
    if forall p :: p in edges && p.y == l.y ==> p.x != 0 {
      assert Point(0, y) !in edges;
      assert 0 !in cols;
      MinMaxNoZero(cols);
      forall p | p in edges && p.y == l.y
        ensures l.x1 <= p.x <= l.x2
      {
        assert p.x in cols;
      }
    }
  }

  /** The first loop of the rasteriser: the edge pixels of the closed path. */
  method TraceEdges(points: seq<Vertex>) returns (edges: seq<Point>)
    ensures edges == Edges(points)
  {
    edges := [];
    for i := 0 to |points|
      invariant edges == EdgesUpTo(points, i)
    {
      var p1p2 := TraceEdge(points, i);
      edges := edges + p1p2;
    }
  }

  /** One round of the first loop: the line from vertex `i` to the next. */
  method TraceEdge(points: seq<Vertex>, i: int) returns (p1p2: seq<Point>)
    requires 0 <= i < |points|
    ensures p1p2 == Edge(points, i)
  {
    var p1 := points[i];
    var p2 := if i >= |points| - 1 then points[0] else points[i + 1];
    p1p2 := BresenhamLine(Trunc(p1.x), Trunc(p1.y), Trunc(p2.x), Trunc(p2.y));
  }

  /** The second loop: edge pixels grouped by row into the map `yToXs`,
      whose key order is kept in `keys`. */
  method GroupByRow(edges: seq<Point>) returns (keys: seq<int>, yToXs: map<int, seq<int>>)
    ensures Rows(keys, yToXs) == Group(edges)
  {
    keys := [];
    yToXs := map[];
    for i := 0 to |edges|
      invariant Rows(keys, yToXs) == Group(edges[..i])
    {
      var point := edges[i];
      assert edges[..i + 1][..i] == edges[..i];
      if point.y in yToXs {
        yToXs := yToXs[point.y := Insert(yToXs[point.y], point.x)];
      } else {
        keys := keys + [point.y];
        yToXs := yToXs[point.y := [point.x]];
      }
    }
    assert edges[..|edges|] == edges;
  }

  /** The default export of lib/rasterize.ts: trace, group, then the
      `forEach` loop emitting one line per row. */
  method RasterizePolygon(points: seq<Vertex>) returns (lines: seq<Scanline>)
    ensures lines == Polygon(points)
  {
    var edges := TraceEdges(points);
    var keys, yToXs := GroupByRow(edges);
    GroupContents(edges);
    lines := [];
    for i := 0 to |keys|
      invariant lines == Emit(keys[..i], yToXs)
    {
      var y := keys[i];
      assert keys[..i + 1][..i] == keys[..i];
      var minMax := MinMaxElements(yToXs[y]);
      if minMax.Some? {
        lines := lines + [New(y as real, minMax.value.0 as real, minMax.value.1 as real)];
      }
    }
    assert keys[..|keys|] == keys;
  }
}
