/** src/lib/shapes/triangle.ts: a triangle given by three vertices, its
    random construction and mutation (both retry until the angle test
    `isValid` passes) and the flat-bottom / flat-top scan converter. Shapes
    are immutable values here: `copy` is the value itself and `mutate`
    returns a new value. `isValid` is floating-point trigonometry and is a
    parameter `valid`. */
module Triangles {
  import opened Numbers
  import opened Random
  import opened Wrappers
  import opened Scanlines
  import opened Polygons = Rasterize
  import Core
  import Svg

  datatype Triangle = Triangle(width: int, height: int, x1: real, y1: real, x2: real, y2: real, x3: real, y3: real)

  /** The step scale of `mutate`, and the margin around the canvas that
      mutated vertices are clamped to. */
  const M: real := 16.0

  /** Every vertex lies within the margin of 16 pixels around the canvas:
      `[-16, width - 1 + 16] x [-16, height - 1 + 16]`. */
  predicate InMargin(s: Triangle)
  {
    var xm, ym := (s.width - 1) as real + M, (s.height - 1) as real + M;
    && -M <= s.x1 <= xm && -M <= s.x2 <= xm && -M <= s.x3 <= xm
    && -M <= s.y1 <= ym && -M <= s.y2 <= ym && -M <= s.y3 <= ym
  }

  // ---------------------------------------------------------------------
  // Construction

  /** The six `int` draws of one pass of the constructor's `do` loop. */
  datatype Attempt = Attempt(rx: Rand, ry: Rand, dx2: Rand, dy2: Rand, dx3: Rand, dy3: Rand)

  /** One pass of the `do` loop: vertex 1 anywhere on the canvas, vertices 2
      and 3 within 15 pixels of it on each axis. */
  function Candidate(width: int, height: int, a: Attempt): (s: Triangle)
    ensures s.width == width && s.height == height
  {
    var x1, y1 := Int(a.rx, 0, width - 1), Int(a.ry, 0, height - 1);
    Triangle(width, height, x1 as real, y1 as real,
      (x1 + Int(a.dx2, -15, 15)) as real, (y1 + Int(a.dy2, -15, 15)) as real,
      (x1 + Int(a.dx3, -15, 15)) as real, (y1 + Int(a.dy3, -15, 15)) as real)
  }

  /** The shape the constructor settles on: the first attempt that passes
      `valid`. `None` stands for a run of draws that never passes; the
      source keeps drawing. */
  function FirstValid(width: int, height: int, attempts: seq<Attempt>, valid: Triangle -> bool): (r: Option<Triangle>)
    ensures r.Some? ==> valid(r.value) && r.value.width == width && r.value.height == height
    ensures r.None? <==> forall i :: 0 <= i < |attempts| ==> !valid(Candidate(width, height, attempts[i]))
  {
    if |attempts| == 0 then None
    else if valid(Candidate(width, height, attempts[0])) then Some(Candidate(width, height, attempts[0]))
    else
      var r := FirstValid(width, height, attempts[1..], valid);
      assert forall i :: 1 <= i < |attempts| ==> attempts[i] == attempts[1..][i - 1];
      r
  }

  /** The constructor's `do { ... } while (!this.isValid())` loop. */
  method New(width: int, height: int, attempts: seq<Attempt>, valid: Triangle -> bool) returns (r: Option<Triangle>)
    ensures r == FirstValid(width, height, attempts, valid)
  {
    var i := 0;
    while i < |attempts|
      invariant 0 <= i <= |attempts|
      invariant FirstValid(width, height, attempts, valid) == FirstValid(width, height, attempts[i..], valid)
    {
      var s := Candidate(width, height, attempts[i]);
      assert attempts[i..][1..] == attempts[i + 1..];
      if valid(s) {
        return Some(s);
      }
      i := i + 1;
    }
    return None;
  }

  /** On a non-empty canvas every candidate has vertex 1 on the canvas, the
      other two within 15 pixels of it, and so lies within the margin. */
  lemma CandidateBounds(width: int, height: int, a: Attempt)
    requires width >= 1 && height >= 1
    ensures var s := Candidate(width, height, a);
      && 0.0 <= s.x1 <= (width - 1) as real && 0.0 <= s.y1 <= (height - 1) as real
      && -15.0 <= s.x2 - s.x1 <= 15.0 && -15.0 <= s.y2 - s.y1 <= 15.0
      && -15.0 <= s.x3 - s.x1 <= 15.0 && -15.0 <= s.y3 - s.y1 <= 15.0
      && InMargin(s)
  {
    IntInRange(a.rx, 0, width - 1);
    IntInRange(a.ry, 0, height - 1);
    IntInRange(a.dx2, -15, 15);
    IntInRange(a.dy2, -15, 15);
    IntInRange(a.dx3, -15, 15);
    IntInRange(a.dy3, -15, 15);
  }

  /** A constructed triangle passes `valid`, is the first attempt that does,
      and lies within the margin. */
  lemma {:induction false} NewBounds(width: int, height: int, attempts: seq<Attempt>, valid: Triangle -> bool)
      returns (i: int)
    requires width >= 1 && height >= 1
    requires FirstValid(width, height, attempts, valid).Some?
    ensures 0 <= i < |attempts|
    ensures FirstValid(width, height, attempts, valid).value == Candidate(width, height, attempts[i])
    ensures forall j :: 0 <= j < i ==> !valid(Candidate(width, height, attempts[j]))
    ensures InMargin(FirstValid(width, height, attempts, valid).value)
  {
    if valid(Candidate(width, height, attempts[0])) {
      i := 0;
    } else {
      var k := NewBounds(width, height, attempts[1..], valid);
      i := k + 1;
      assert forall j :: 1 <= j <= i ==> attempts[j] == attempts[1..][j - 1];
    }
    CandidateBounds(width, height, attempts[i]);
  }

  // ---------------------------------------------------------------------
  // Mutation

  /** The draws of one pass of `mutate`'s loop: the `int(0, 2)` choosing the
      vertex and the two `normal()` values. */
  datatype Draw = Draw(pick: Rand, n1: real, n2: real)

  /** The `switch` of one pass: the chosen vertex moves by the scaled draws,
      clamped into the margin; the other two vertices stay. */
  function Perturb(c: Triangle, d: Draw): (r: Triangle)
    ensures r.width == c.width && r.height == c.height
    ensures Int(d.pick, 0, 2) != 0 ==> r.x1 == c.x1 && r.y1 == c.y1
    ensures Int(d.pick, 0, 2) != 1 ==> r.x2 == c.x2 && r.y2 == c.y2
    ensures Int(d.pick, 0, 2) != 2 ==> r.x3 == c.x3 && r.y3 == c.y3
  {
    var xm, ym := (c.width - 1) as real + M, (c.height - 1) as real + M;
    match Int(d.pick, 0, 2)
    case 0 => c.(x1 := Clamp(-M, xm, c.x1 + d.n1 * M), y1 := Clamp(-M, ym, c.y1 + d.n2 * M))
    case 1 => c.(x2 := Clamp(-M, xm, c.x2 + d.n1 * M), y2 := Clamp(-M, ym, c.y2 + d.n2 * M))
    case 2 => c.(x3 := Clamp(-M, xm, c.x3 + d.n1 * M), y3 := Clamp(-M, ym, c.y3 + d.n2 * M))
    case _ => c
  }

  /** A perturbation keeps a triangle within the margin. */
  lemma PerturbInMargin(c: Triangle, d: Draw)
    requires InMargin(c) && c.width >= 1 && c.height >= 1
    ensures InMargin(Perturb(c, d))
  {
    IntInRange(d.pick, 0, 2);
  }

  /** The failures after which `mutate` starts again from the original. */
  const Patience: nat := 128

  /** `mutate`'s loop from the state `cur` with `n` failures counted since
      the last restart: the first perturbation that passes `valid` is
      returned; after more than 128 failures the loop restarts from the
      original `s`. `None` stands for a run of draws that never passes. */
  function Search(s: Triangle, cur: Triangle, n: nat, ds: seq<Draw>, valid: Triangle -> bool): (r: Option<Triangle>)
    ensures r.Some? ==> valid(r.value)
    ensures r.Some? && cur.width == s.width && cur.height == s.height ==>
      r.value.width == s.width && r.value.height == s.height
    decreases |ds|
  {
    if |ds| == 0 then None
    else
      var next := Perturb(cur, ds[0]);
      if valid(next) then Some(next)
      else if n + 1 > Patience then Search(s, s, 0, ds[1..], valid)
      else Search(s, next, n + 1, ds[1..], valid)
  }

  /** The result of `mutate()`: a valid triangle on the same canvas. */
  function MutateOf(s: Triangle, ds: seq<Draw>, valid: Triangle -> bool): (r: Option<Triangle>)
    ensures r.Some? ==> valid(r.value) && r.value.width == s.width && r.value.height == s.height
  {
    Search(s, s, 0, ds, valid)
  }

  /** `mutate()`: the `while (true)` loop over a copy, with the failure
      counter `n`. */
  method Mutate(s: Triangle, ds: seq<Draw>, valid: Triangle -> bool) returns (r: Option<Triangle>)
    ensures r == MutateOf(s, ds, valid)
  {
    var shape := s;
    var n := 0;
    var i := 0;
    while i < |ds|
      invariant 0 <= i <= |ds| && 0 <= n <= Patience
      invariant MutateOf(s, ds, valid) == Search(s, shape, n, ds[i..], valid)
    {
      assert ds[i..][0] == ds[i] && ds[i..][1..] == ds[i + 1..];
      shape := Perturb(shape, ds[i]);
      if valid(shape) {
        return Some(shape);
      }
      n := n + 1;
      if n > Patience {
        shape := s;
        n := 0;
      }
      i := i + 1;
    }
    return None;
  }

  /** A mutated triangle keeps the canvas size and stays within the
      margin. */
  lemma {:induction false} SearchInMargin(s: Triangle, cur: Triangle, n: nat, ds: seq<Draw>, valid: Triangle -> bool)
    requires InMargin(s) && s.width >= 1 && s.height >= 1
    requires InMargin(cur) && cur.width == s.width && cur.height == s.height
    ensures var r := Search(s, cur, n, ds, valid);
      r.Some? ==> InMargin(r.value) && r.value.width == s.width && r.value.height == s.height
    decreases |ds|
  {
    if |ds| > 0 {
      PerturbInMargin(cur, ds[0]);
      SearchInMargin(s, s, 0, ds[1..], valid);
      SearchInMargin(s, Perturb(cur, ds[0]), n + 1, ds[1..], valid);
    }
  }

  lemma MutateInMargin(s: Triangle, ds: seq<Draw>, valid: Triangle -> bool)
    requires InMargin(s) && s.width >= 1 && s.height >= 1
    ensures var r := MutateOf(s, ds, valid);
      r.Some? ==> valid(r.value) && InMargin(r.value) && r.value.width == s.width && r.value.height == s.height
  {
    SearchInMargin(s, s, 0, ds, valid);
  }

  /** The triangle reached from `s` by the perturbations `ds`, in order. */
  function Chain(s: Triangle, ds: seq<Draw>): Triangle
  {
    if |ds| == 0 then s else Perturb(Chain(s, ds[..|ds| - 1]), ds[|ds| - 1])
  }

  /** The triangle `mutate` tests in pass `t` of its loop: the restarts every
      129 failures mean it is the original perturbed by the draws since the
      last multiple of 129. */
  function Tried(s: Triangle, ds: seq<Draw>, t: int): Triangle
    requires 0 <= t < |ds|
  {
    Chain(s, ds[t - t % (Patience + 1) .. t + 1])
  }

  /** The state `mutate` holds before pass `p`: the original perturbed by
      the draws since the last restart. */
  function Before(s: Triangle, ds: seq<Draw>, p: int): Triangle
    requires 0 <= p <= |ds|
  {
    Chain(s, ds[p - p % (Patience + 1) .. p])
  }

  /** Pass `p` perturbs the state before it. */
  lemma TriedStep(s: Triangle, ds: seq<Draw>, p: int)
    requires 0 <= p < |ds|
    ensures Tried(s, ds, p) == Perturb(Before(s, ds, p), ds[p])
  {
    var run := ds[p - p % (Patience + 1) .. p + 1];
    assert run[..|run| - 1] == ds[p - p % (Patience + 1) .. p];
  }

  /** After a failed pass the counter either restarts from the original or
      keeps the tried triangle. */
  lemma FailedStep(s: Triangle, ds: seq<Draw>, p: int)
    requires 0 <= p < |ds|
    ensures p % (Patience + 1) + 1 > Patience ==> (p + 1) % (Patience + 1) == 0 && Before(s, ds, p + 1) == s
    ensures p % (Patience + 1) + 1 <= Patience ==>
      (p + 1) % (Patience + 1) == p % (Patience + 1) + 1 && Before(s, ds, p + 1) == Tried(s, ds, p)
  {
    if p % (Patience + 1) + 1 > Patience {
      assert (p + 1) % (Patience + 1) == 0;
      assert ds[p + 1 .. p + 1] == [];
    } else {
      assert (p + 1) % (Patience + 1) == p % (Patience + 1) + 1;
    }
  }

  /** From pass `p` on, `mutate` returns the first triangle it tries that
      passes `valid`. */
  lemma {:induction false} SearchFrom(s: Triangle, ds: seq<Draw>, p: int, valid: Triangle -> bool) returns (t: int)
    requires 0 <= p <= |ds|
    requires Search(s, Before(s, ds, p), p % (Patience + 1), ds[p..], valid).Some?
    ensures p <= t < |ds|
    ensures Search(s, Before(s, ds, p), p % (Patience + 1), ds[p..], valid).value == Tried(s, ds, t)
    ensures forall u :: p <= u < t ==> !valid(Tried(s, ds, u))
    decreases |ds| - p
  {
    SearchStep(s, ds, p, valid);
    if valid(Tried(s, ds, p)) {
      t := p;
    } else {
      t := SearchFrom(s, ds, p + 1, valid);
      assert forall u :: p + 1 <= u < t ==> !valid(Tried(s, ds, u));
      forall u | p <= u < t ensures !valid(Tried(s, ds, u)) {
        if u > p {
          assert p + 1 <= u < t;
        }
      }
    }
  }

  /** One pass of the search from pass `p`: it stops on the tried triangle
      when that passes `valid`, and otherwise goes on from pass `p + 1`. */
  lemma SearchStep(s: Triangle, ds: seq<Draw>, p: int, valid: Triangle -> bool)
    requires 0 <= p < |ds|
    ensures valid(Tried(s, ds, p)) ==>
      Search(s, Before(s, ds, p), p % (Patience + 1), ds[p..], valid) == Some(Tried(s, ds, p))
    ensures !valid(Tried(s, ds, p)) ==>
      Search(s, Before(s, ds, p), p % (Patience + 1), ds[p..], valid)
        == Search(s, Before(s, ds, p + 1), (p + 1) % (Patience + 1), ds[p + 1..], valid)
  {
    assert ds[p..][0] == ds[p] && ds[p..][1..] == ds[p + 1..];
    TriedStep(s, ds, p);
    FailedStep(s, ds, p);
  }

  /** `mutate` returns the first triangle it tries that passes `valid`, and
      every triangle it tries is the original perturbed by at most 129
      consecutive draws: after more than 128 failures it starts again from
      the original. */
  lemma MutateRestarts(s: Triangle, ds: seq<Draw>, valid: Triangle -> bool) returns (t: int)
    requires MutateOf(s, ds, valid).Some?
    ensures 0 <= t < |ds| && MutateOf(s, ds, valid).value == Tried(s, ds, t)
    ensures forall u :: 0 <= u < t ==> !valid(Tried(s, ds, u))
  {
    assert ds[0..0] == [] && ds[0..] == ds;
    assert Before(s, ds, 0) == s;
    t := SearchFrom(s, ds, 0, valid);
  }

  // ---------------------------------------------------------------------
  // Scan conversion

  /** The first compare-and-swap of the module-level `rasterize`: vertices
      1 and 3. */
  function Swap13(v: (Vertex, Vertex, Vertex)): (Vertex, Vertex, Vertex)
  {
    if v.0.y > v.2.y then (v.2, v.1, v.0) else v
  }

  /** The second: vertices 1 and 2. */
  function Swap12(v: (Vertex, Vertex, Vertex)): (Vertex, Vertex, Vertex)
  {
    if v.0.y > v.1.y then (v.1, v.0, v.2) else v
  }

  /** The third: vertices 2 and 3. */
  function Swap23(v: (Vertex, Vertex, Vertex)): (Vertex, Vertex, Vertex)
  {
    if v.1.y > v.2.y then (v.0, v.2, v.1) else v
  }

  /** The three vertices after the three compare-and-swap steps: ordered by
      `y`, and a rearrangement of the input. */
  function SortByY(v1: Vertex, v2: Vertex, v3: Vertex): (r: (Vertex, Vertex, Vertex))
    ensures r.0.y <= r.1.y <= r.2.y
    ensures multiset{r.0, r.1, r.2} == multiset{v1, v2, v3}
  {
    Swap23(Swap12(Swap13((v1, v2, v3))))
  }

  /** The three swaps through the temporary `t`. */
  method Sort(x1: real, y1: real, x2: real, y2: real, x3: real, y3: real)
    returns (a: Vertex, b: Vertex, c: Vertex)
    ensures (a, b, c) == SortByY(Vertex(x1, y1), Vertex(x2, y2), Vertex(x3, y3))
  {
    ghost var v := (Vertex(x1, y1), Vertex(x2, y2), Vertex(x3, y3));
    var x1, y1, x2, y2, x3, y3 := x1, y1, x2, y2, x3, y3;
    var t: real;
    if y1 > y3 {
      t := x1; x1 := x3; x3 := t;
      t := y1; y1 := y3; y3 := t;
    }
    assert (Vertex(x1, y1), Vertex(x2, y2), Vertex(x3, y3)) == Swap13(v);
    if y1 > y2 {
      t := x1; x1 := x2; x2 := t;
      t := y1; y1 := y2; y2 := t;
    }
    assert (Vertex(x1, y1), Vertex(x2, y2), Vertex(x3, y3)) == Swap12(Swap13(v));
    if y2 > y3 {
      t := x2; x2 := x3; x3 := t;
      t := y2; y2 := y3; y3 := t;
    }
    a, b, c := Vertex(x1, y1), Vertex(x2, y2), Vertex(x3, y3);
  }

  /** The number of passes of a loop stepping one row at a time from `from`
      up to `to` inclusive (or down, for `rasterizeTop`). */
  function RowCount(from: real, to: real): nat
  {
    if from <= to then (to - from).Floor + 1 else 0
  }

  lemma RowCountIs(from: real, to: real, k: nat)
    ensures from + k as real <= to <==> k < RowCount(from, to)
  {
  }

  /** An edge slope of `rasterizeBottom`. A zero `dy` happens only for a
      triangle flat in `y`; the slope is then never applied, since the loop
      runs once and emits the apex before stepping, so 0 stands for the
      JavaScript infinity. */
  function Slope(dx: real, dy: real): real
  {
    if dy == 0.0 then 0.0 else dx / dy
  }

  /** An edge position `k` rows from `x` along slope `s` (forwards). */
  function Ahead(x: real, s: real, k: int): real
  {
    x + k as real * s
  }

  /** An edge position `k` rows from `x` along slope `s` (backwards). */
  function Behind(x: real, s: real, k: int): real
  {
    x - k as real * s
  }

  lemma AheadStep(x: real, s: real, k: int)
    ensures Ahead(x, s, k) + s == Ahead(x, s, k + 1)
  {
  }

  lemma BehindStep(x: real, s: real, k: int)
    ensures Behind(x, s, k) - s == Behind(x, s, k + 1)
  {
  }

  /** Line `k` of `rasterizeBottom(x1, y1, x2, y2, x3, y3)`: the two edges
      from the apex `(x1, y1)` after `k` steps. */
  function BottomLine(v1: Vertex, v2: Vertex, v3: Vertex, k: int): Scanline
  {
    var s1, s2 := Slope(v2.x - v1.x, v2.y - v1.y), Slope(v3.x - v1.x, v3.y - v1.y);
    Scanlines.New(v1.y + k as real, Ahead(v1.x, s1, k), Ahead(v1.x, s2, k))
  }

  /** The lines of `rasterizeBottom`: rows `y1, y1 + 1, ...` while at most
      `y2`. */
  function Bottom(v1: Vertex, v2: Vertex, v3: Vertex): seq<Scanline>
  {
    seq(RowCount(v1.y, v2.y), k => BottomLine(v1, v2, v3, k))
  }

  /** `rasterizeBottom`. */
  method RasterizeBottom(x1: real, y1: real, x2: real, y2: real, x3: real, y3: real) returns (lines: seq<Scanline>)
    ensures lines == Bottom(Vertex(x1, y1), Vertex(x2, y2), Vertex(x3, y3))
  {
    ghost var v1, v2, v3 := Vertex(x1, y1), Vertex(x2, y2), Vertex(x3, y3);
    var s1, s2 := Slope(x2 - x1, y2 - y1), Slope(x3 - x1, y3 - y1);
    var ax, bx := x1, x1;
    lines := [];
    var y := y1;
    RowCountIs(y1, y2, 0);
    while y <= y2
      invariant y == y1 + |lines| as real && |lines| <= RowCount(y1, y2)
      invariant ax == Ahead(x1, s1, |lines|) && bx == Ahead(x1, s2, |lines|)
      invariant y <= y2 <==> |lines| < RowCount(y1, y2)
      invariant forall k :: 0 <= k < |lines| ==> lines[k] == BottomLine(v1, v2, v3, k)
      decreases RowCount(y1, y2) - |lines|
    {
      AheadStep(x1, s1, |lines|);
      AheadStep(x1, s2, |lines|);
      var a, b := ax, bx;
      ax := ax + s1;
      bx := bx + s2;
      lines := lines + [Scanlines.New(y, a, b)];
      y := y + 1.0;
      RowCountIs(y1, y2, |lines|);
    }
  }

  /** Line `k` of `rasterizeTop(x1, y1, x2, y2, x3, y3)`: both edge
      positions are stepped before the line is pushed, so line `k` spans the
      edges toward `(x1, y1)` and `(x2, y2)` after `k + 1` steps back from
      the apex `(x3, y3)`. */
  function TopLine(v1: Vertex, v2: Vertex, v3: Vertex, k: int): Scanline
    requires v1.y != v3.y && v2.y != v3.y
  {
    var s1, s2 := (v3.x - v1.x) / (v3.y - v1.y), (v3.x - v2.x) / (v3.y - v2.y);
    Scanlines.New(v3.y - k as real, Behind(v3.x, s1, k + 1), Behind(v3.x, s2, k + 1))
  }

  /** The lines of `rasterizeTop`: rows `y3, y3 - 1, ...` while at least
      `y1`. Its callers pass `y1` and `y2` different from `y3`, so neither
      slope divides by zero. */
  function Top(v1: Vertex, v2: Vertex, v3: Vertex): seq<Scanline>
    requires v1.y != v3.y && v2.y != v3.y
  {
    seq(RowCount(v1.y, v3.y), k => TopLine(v1, v2, v3, k))
  }

  /** `rasterizeTop`. */
  method RasterizeTop(x1: real, y1: real, x2: real, y2: real, x3: real, y3: real) returns (lines: seq<Scanline>)
    requires y1 != y3 && y2 != y3
    ensures lines == Top(Vertex(x1, y1), Vertex(x2, y2), Vertex(x3, y3))
  {
    ghost var v1, v2, v3 := Vertex(x1, y1), Vertex(x2, y2), Vertex(x3, y3);
    var s1, s2 := (x3 - x1) / (y3 - y1), (x3 - x2) / (y3 - y2);
    var ax, bx := x3, x3;
    lines := [];
    var y := y3;
    RowCountIs(y1, y3, 0);
    while y >= y1
      invariant y == y3 - |lines| as real && |lines| <= RowCount(y1, y3)
      invariant ax == Behind(x3, s1, |lines|) && bx == Behind(x3, s2, |lines|)
      invariant y >= y1 <==> |lines| < RowCount(y1, y3)
      invariant forall k :: 0 <= k < |lines| ==> lines[k] == TopLine(v1, v2, v3, k)
      decreases RowCount(y1, y3) - |lines|
    {
      BehindStep(x3, s1, |lines|);
      BehindStep(x3, s2, |lines|);
      ax := ax - s1;
      bx := bx - s2;
      lines := lines + [Scanlines.New(y, ax, bx)];
      y := y - 1.0;
      RowCountIs(y1, y3, |lines|);
    }
  }

  /** The split point on the long edge at the middle vertex's row, its `x`
      truncated with `|0`. */
  function SplitPoint(a: Vertex, b: Vertex, c: Vertex): Vertex
    requires a.y != c.y
  {
    Vertex(Trunc(a.x + (b.y - a.y) / (c.y - a.y) * (c.x - a.x)) as real, b.y)
  }

  /** The dispatch of the module-level `rasterize` on vertices sorted by
      `y`: a flat-bottom half, a flat-top half, or both halves of the
      triangle split at the middle vertex's row. */
  function SortedLines(a: Vertex, b: Vertex, c: Vertex): seq<Scanline>
    requires a.y <= b.y <= c.y
  {
    if b.y == c.y then Bottom(a, b, c)
    else if a.y == b.y then Top(a, b, c)
    else
      var d := SplitPoint(a, b, c);
      Bottom(a, b, d) + Top(b, d, c)
  }

  /** The module-level `rasterize`. */
  function Lines(v1: Vertex, v2: Vertex, v3: Vertex): seq<Scanline>
  {
    var r := SortByY(v1, v2, v3);
    SortedLines(r.0, r.1, r.2)
  }

  /** The dispatch after sorting. */
  method RasterizeSorted(a: Vertex, b: Vertex, c: Vertex) returns (lines: seq<Scanline>)
    requires a.y <= b.y <= c.y
    ensures lines == SortedLines(a, b, c)
  {
    if b.y == c.y {
      lines := RasterizeBottom(a.x, a.y, b.x, b.y, c.x, c.y);
    } else if a.y == b.y {
      lines := RasterizeTop(a.x, a.y, b.x, b.y, c.x, c.y);
    } else {
      var d := SplitPoint(a, b, c);
      var bottom := RasterizeBottom(a.x, a.y, b.x, b.y, d.x, d.y);
      var top := RasterizeTop(b.x, b.y, d.x, d.y, c.x, c.y);
      lines := bottom + top;
    }
  }

  /** The module-level `rasterize`. */
  method RasterizeVertices(x1: real, y1: real, x2: real, y2: real, x3: real, y3: real) returns (lines: seq<Scanline>)
    ensures lines == Lines(Vertex(x1, y1), Vertex(x2, y2), Vertex(x3, y3))
  {
    var a, b, c := Sort(x1, y1, x2, y2, x3, y3);
    lines := RasterizeSorted(a, b, c);
  }

  /** The lines of `Triangle.rasterize()`: the module-level rasteriser
      clipped by `Scanline.filter`. */
  function Clipped(s: Triangle): seq<Scanline>
  {
    Filter(Lines(Vertex(s.x1, s.y1), Vertex(s.x2, s.y2), Vertex(s.x3, s.y3)), s.width, s.height)
  }

  /** Every clipped line lies on the canvas. */
  lemma ClippedInBounds(s: Triangle)
    ensures AllInBounds(Clipped(s), s.width, s.height)
  {
    FilterInBounds(Lines(Vertex(s.x1, s.y1), Vertex(s.x2, s.y2), Vertex(s.x3, s.y3)), s.width, s.height);
  }

  /** `Triangle.rasterize()`. */
  method Rasterize(s: Triangle) returns (lines: seq<Scanline>)
    ensures lines == Clipped(s)
    ensures AllInBounds(lines, s.width, s.height)
  {
    var raw := RasterizeVertices(s.x1, s.y1, s.x2, s.y2, s.x3, s.y3);
    lines := Filter(raw, s.width, s.height);
    FilterInBounds(raw, s.width, s.height);
  }

  /** `toSVG()`: a polygon through the three vertices in their own order. */
  function ToSvg(s: Triangle): (e: Svg.Element)
    ensures e.Polygon? && |e.points| == 3
    ensures e.points[0] == Vertex(s.x1, s.y1) && e.points[1] == Vertex(s.x2, s.y2) && e.points[2] == Vertex(s.x3, s.y3)
  {
    Svg.Polygon([Vertex(s.x1, s.y1), Vertex(s.x2, s.y2), Vertex(s.x3, s.y3)])
  }

  // ---------------------------------------------------------------------
  // Properties of the scan converter

  /** The first line of a flat-bottom half is the apex pixel alone. */
  lemma BottomStartsAtApex(v1: Vertex, v2: Vertex, v3: Vertex)
    requires v1.y <= v2.y
    ensures |Bottom(v1, v2, v3)| >= 1
    ensures Bottom(v1, v2, v3)[0] == Scanline(Trunc(v1.y), Trunc(v1.x), Trunc(v1.x))
  {
    assert Ahead(v1.x, Slope(v2.x - v1.x, v2.y - v1.y), 0) == v1.x;
    assert Ahead(v1.x, Slope(v3.x - v1.x, v3.y - v1.y), 0) == v1.x;
  }

  /** On non-negative rows the flat-bottom half moves one row per line:
      its rows strictly ascend. */
  lemma BottomAscends(v1: Vertex, v2: Vertex, v3: Vertex)
    requires v1.y >= 0.0
    ensures forall i, j :: 0 <= i < j < |Bottom(v1, v2, v3)| ==> Bottom(v1, v2, v3)[i].y < Bottom(v1, v2, v3)[j].y
  {
    var lines := Bottom(v1, v2, v3);
    forall i, j | 0 <= i < j < |lines|
      ensures lines[i].y < lines[j].y
    {
      TruncSeparates(v1.y + i as real, j - i);
      assert v1.y + i as real + (j - i) as real == v1.y + j as real;
    }
  }

  /** Likewise the flat-top half walks up one row per line from the apex. */
  lemma TopDescends(v1: Vertex, v2: Vertex, v3: Vertex)
    requires v1.y != v3.y && v2.y != v3.y && v1.y >= 0.0
    ensures forall i, j :: 0 <= i < j < |Top(v1, v2, v3)| ==> Top(v1, v2, v3)[i].y > Top(v1, v2, v3)[j].y
  {
    var lines := Top(v1, v2, v3);
    forall i, j | 0 <= i < j < |lines|
      ensures lines[i].y > lines[j].y
    {
      RowCountIs(v1.y, v3.y, j);
      TruncSeparates(v3.y - j as real, j - i);
      assert v3.y - j as real + (j - i) as real == v3.y - i as real;
    }
  }

  /** Above row 0 truncation toward zero merges two rows: a flat-bottom half
      starting at `y = -0.5` emits row 0 for its first two lines. */
  lemma NegativeRowsMerge()
    ensures var lines := Bottom(Vertex(0.0, -0.5), Vertex(0.0, 0.5), Vertex(0.0, 0.5));
      |lines| == 2 && lines[0].y == 0 && lines[1].y == 0
  {
    assert RowCount(-0.5, 0.5) == 2;
  }

  /** Every line lies between the rows of the lowest and the highest
      vertex. */
  lemma {:induction false} SortedLinesRows(a: Vertex, b: Vertex, c: Vertex)
    requires a.y <= b.y <= c.y
    ensures forall k :: 0 <= k < |SortedLines(a, b, c)| ==>
      Trunc(a.y) <= SortedLines(a, b, c)[k].y <= Trunc(c.y)
  {
    if b.y == c.y {
      BottomRows(a, b, c);
    } else if a.y == b.y {
      TopRows(a, b, c);
    } else {
      var d := SplitPoint(a, b, c);
      BottomRows(a, b, d);
      TopRows(b, d, c);
      TruncMonotone(a.y, b.y);
      TruncMonotone(b.y, c.y);
    }
  }

  lemma BottomRows(v1: Vertex, v2: Vertex, v3: Vertex)
    ensures forall k :: 0 <= k < |Bottom(v1, v2, v3)| ==> Trunc(v1.y) <= Bottom(v1, v2, v3)[k].y <= Trunc(v2.y)
  {
    forall k | 0 <= k < |Bottom(v1, v2, v3)|
      ensures Trunc(v1.y) <= Bottom(v1, v2, v3)[k].y <= Trunc(v2.y)
    {
      RowCountIs(v1.y, v2.y, k);
      TruncMonotone(v1.y, v1.y + k as real);
      TruncMonotone(v1.y + k as real, v2.y);
    }
  }

  lemma TopRows(v1: Vertex, v2: Vertex, v3: Vertex)
    requires v1.y != v3.y && v2.y != v3.y
    ensures forall k :: 0 <= k < |Top(v1, v2, v3)| ==> Trunc(v1.y) <= Top(v1, v2, v3)[k].y <= Trunc(v3.y)
  {
    forall k | 0 <= k < |Top(v1, v2, v3)|
      ensures Trunc(v1.y) <= Top(v1, v2, v3)[k].y <= Trunc(v3.y)
    {
      RowCountIs(v1.y, v3.y, k);
      TruncMonotone(v1.y, v3.y - k as real);
      TruncMonotone(v3.y - k as real, v3.y);
    }
  }

  /** A real with no fractional part. */
  predicate Integral(x: real)
  {
    x.Floor as real == x
  }

  /** When the middle vertex lies strictly between the others and all rows
      are whole numbers (as for every triangle the constructor builds), both
      halves end on the middle vertex's row, so that row is emitted twice. */
  lemma SplitRowTwice(a: Vertex, b: Vertex, c: Vertex)
    requires a.y < b.y < c.y
    requires Integral(a.y) && Integral(b.y) && Integral(c.y)
    ensures var d := SplitPoint(a, b, c);
      var lower, upper := Bottom(a, b, d), Top(b, d, c);
      && |lower| >= 1 && |upper| >= 1
      && lower[|lower| - 1].y == Trunc(b.y) && upper[|upper| - 1].y == Trunc(b.y)
    ensures !DistinctRows(SortedLines(a, b, c))
  {
    var d := SplitPoint(a, b, c);
    var lower, upper := Bottom(a, b, d), Top(b, d, c);
    var m, n := b.y.Floor - a.y.Floor, c.y.Floor - b.y.Floor;
    assert (b.y - a.y).Floor == m;
    assert (c.y - b.y).Floor == n;
    assert a.y + m as real == b.y;
    assert c.y - n as real == b.y;
    var lines := SortedLines(a, b, c);
    assert lines == lower + upper;
    assert lines[m].y == lines[|lower| + n].y;
  }

  // ---------------------------------------------------------------------
  // The repeated row on a concrete canvas

  /** Covered pixels of a line recur among the covered pixels of any longer
      prefix. */
  lemma {:induction false} LineCovered(lines: seq<Scanline>, w: int, i: int, m: int, p: int)
    requires 0 <= i < m <= |lines| && p in Core.LinePixels(lines[i], w)
    ensures p in Core.Covered(lines[..m], w)
    decreases m
  {
    Core.CoveredNext(lines, m - 1, w);
    if i < m - 1 {
      LineCovered(lines, w, i, m - 1, p);
    }
  }

  /** The covered pixels of a prefix of the lines start those of all of the
      lines. */
  lemma {:induction false} CoveredPrefix(lines: seq<Scanline>, w: int, m: int)
    requires 0 <= m <= |lines|
    ensures Core.Covered(lines[..m], w) <= Core.Covered(lines, w)
    decreases |lines| - m
  {
    if m < |lines| {
      CoveredPrefix(lines, w, m + 1);
      Core.CoveredNext(lines, m, w);
    } else {
      assert lines[..m] == lines;
    }
  }

  /** Two lines sharing a pixel make the covered pixels repeat, so the
      exactness condition of the partial energy fails. */
  lemma SharedPixelRepeats(lines: seq<Scanline>, w: int, i: int, j: int, p: int)
    requires 0 <= i < j < |lines|
    requires p in Core.LinePixels(lines[i], w) && p in Core.LinePixels(lines[j], w)
    ensures !Core.Distinct(Core.Covered(lines, w))
  {
    LineCovered(lines, w, i, j, p);
    Core.CoveredNext(lines, j, w);
    CoveredPrefix(lines, w, j + 1);
    var front, back := Core.Covered(lines[..j], w), Core.LinePixels(lines[j], w);
    var u :| 0 <= u < |front| && front[u] == p;
    var v :| 0 <= v < |back| && back[v] == p;
    var all := Core.Covered(lines, w);
    assert all[u] == (front + back)[u] == p;
    assert all[|front| + v] == (front + back)[|front| + v] == p;
  }

  /** The lower half of the triangle (0, 0), (4, 2), (0, 4), split at
      (0, 2). */
  lemma OverlapLower()
    ensures Bottom(Vertex(0.0, 0.0), Vertex(4.0, 2.0), Vertex(0.0, 2.0))
      == [Scanline(0, 0, 0), Scanline(1, 0, 2), Scanline(2, 0, 4)]
  {
    var a, b, d := Vertex(0.0, 0.0), Vertex(4.0, 2.0), Vertex(0.0, 2.0);
    assert RowCount(0.0, 2.0) == 3;
    assert Slope(4.0, 2.0) == 2.0 && Slope(0.0, 2.0) == 0.0;
    assert BottomLine(a, b, d, 0) == Scanline(0, 0, 0);
    assert BottomLine(a, b, d, 1) == Scanline(1, 0, 2);
    assert BottomLine(a, b, d, 2) == Scanline(2, 0, 4);
  }

  /** Its upper half. */
  lemma OverlapUpper()
    ensures Top(Vertex(4.0, 2.0), Vertex(0.0, 2.0), Vertex(0.0, 4.0))
      == [Scanline(4, 0, 2), Scanline(3, 0, 4), Scanline(2, 0, 6)]
  {
    var b, d, c := Vertex(4.0, 2.0), Vertex(0.0, 2.0), Vertex(0.0, 4.0);
    assert RowCount(2.0, 4.0) == 3;
    assert TopLine(b, d, c, 0) == Scanline(4, 0, 2);
    assert TopLine(b, d, c, 1) == Scanline(3, 0, 4);
    assert TopLine(b, d, c, 2) == Scanline(2, 0, 6);
  }

  /** `filter` on a 10 x 10 canvas drops the single-pixel apex line of the
      lower half ... */
  lemma OverlapLowerFiltered()
    ensures Filter([Scanline(0, 0, 0), Scanline(1, 0, 2), Scanline(2, 0, 4)], 10, 10)
      == [Scanline(1, 0, 2), Scanline(2, 0, 4)]
  {
    var lower := [Scanline(0, 0, 0), Scanline(1, 0, 2), Scanline(2, 0, 4)];
    assert lower[..2] == [Scanline(0, 0, 0), Scanline(1, 0, 2)];
    assert lower[..2][..1] == [Scanline(0, 0, 0)];
    assert Filter([Scanline(0, 0, 0)], 10, 10) == [];
  }

  /** ... and keeps every line of the upper half. */
  lemma OverlapUpperFiltered()
    ensures Filter([Scanline(4, 0, 2), Scanline(3, 0, 4), Scanline(2, 0, 6)], 10, 10)
      == [Scanline(4, 0, 2), Scanline(3, 0, 4), Scanline(2, 0, 6)]
  {
    var upper := [Scanline(4, 0, 2), Scanline(3, 0, 4), Scanline(2, 0, 6)];
    assert upper[..2] == [Scanline(4, 0, 2), Scanline(3, 0, 4)];
    assert upper[..2][..1] == [Scanline(4, 0, 2)];
  }

  /** The lines of the triangle (0, 0), (4, 2), (0, 4), before clipping. */
  lemma OverlapRaw()
    ensures Lines(Vertex(0.0, 0.0), Vertex(4.0, 2.0), Vertex(0.0, 4.0))
      == [Scanline(0, 0, 0), Scanline(1, 0, 2), Scanline(2, 0, 4)] + [Scanline(4, 0, 2), Scanline(3, 0, 4), Scanline(2, 0, 6)]
  {
    var a, b, c, d := Vertex(0.0, 0.0), Vertex(4.0, 2.0), Vertex(0.0, 4.0), Vertex(0.0, 2.0);
    assert SortByY(a, b, c) == (a, b, c);
    assert SplitPoint(a, b, c) == d;
    assert Lines(a, b, c) == SortedLines(a, b, c) == Bottom(a, b, d) + Top(b, d, c);
    OverlapLower();
    OverlapUpper();
  }

  /** The clipped lines of that triangle on a 10 x 10 canvas. */
  lemma OverlapLines()
    ensures Filter(Lines(Vertex(0.0, 0.0), Vertex(4.0, 2.0), Vertex(0.0, 4.0)), 10, 10)
      == [Scanline(1, 0, 2), Scanline(2, 0, 4)] + [Scanline(4, 0, 2), Scanline(3, 0, 4), Scanline(2, 0, 6)]
  {
    OverlapRaw();
    FilterAppend([Scanline(0, 0, 0), Scanline(1, 0, 2), Scanline(2, 0, 4)], [Scanline(4, 0, 2), Scanline(3, 0, 4), Scanline(2, 0, 6)], 10, 10);
    OverlapLowerFiltered();
    OverlapUpperFiltered();
  }

  /** On that canvas the lower half ends with the line (row 2, columns 0 to
      4) and the upper half with (row 2, columns 0 to 6), both kept by
      `filter`, so pixel (0, 2) is drawn twice and the covered pixels
      repeat. */
  lemma SplitRowOverlap()
    ensures var lines := Filter(Lines(Vertex(0.0, 0.0), Vertex(4.0, 2.0), Vertex(0.0, 4.0)), 10, 10);
      |lines| == 5 && lines[1] == Scanline(2, 0, 4) && lines[4] == Scanline(2, 0, 6)
      && !Core.Distinct(Core.Covered(lines, 10))
  {
    OverlapLines();
    var lines := [Scanline(1, 0, 2), Scanline(2, 0, 4)] + [Scanline(4, 0, 2), Scanline(3, 0, 4), Scanline(2, 0, 6)];
    assert lines[1] == Scanline(2, 0, 4) && lines[4] == Scanline(2, 0, 6);
    Core.RowPixelsMember(10, 2, 0, 5, 20);
    Core.RowPixelsMember(10, 2, 0, 7, 20);
    SharedPixelRepeats(lines, 10, 1, 4, 20);
  }
}
