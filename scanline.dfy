/** lib/scanline.ts: a horizontal pixel span and the clipping filter applied
    to the output of the polygon and triangle rasterisers. */
module Scanlines {
  import opened Numbers

  /** One span: row `y`, columns `x1..x2` inclusive. */
  datatype Scanline = Scanline(y: int, x1: int, x2: int)

  /** `new Scanline(y, x1, x2)`: swap the ends into order, then truncate. */
  function New(y: real, x1: real, x2: real): (l: Scanline)
    ensures l.x1 <= l.x2
    ensures l.y == Trunc(y)
    ensures l.x1 == Trunc(MinR(x1, x2)) && l.x2 == Trunc(MaxR(x1, x2))
  {
    if x1 > x2 then
      TruncMonotone(x2, x1);
      Scanline(Trunc(y), Trunc(x2), Trunc(x1))
    else
      TruncMonotone(x1, x2);
      Scanline(Trunc(y), Trunc(x1), Trunc(x2))
  }

  /** A span every pixel of which lies on a `width` x `height` canvas. The
      energy functions of the core read and write exactly these pixels. */
  predicate InBounds(l: Scanline, width: int, height: int)
  {
    0 <= l.y < height && 0 <= l.x1 <= l.x2 < width
  }

  predicate AllInBounds(lines: seq<Scanline>, width: int, height: int)
  {
    forall k :: 0 <= k < |lines| ==> InBounds(lines[k], width, height)
  }

  /** No two lines share a row. */
  predicate DistinctRows(lines: seq<Scanline>)
  {
    forall i, j :: 0 <= i < j < |lines| ==> lines[i].y != lines[j].y
  }

  /** Some line lies on row `y`. */
  predicate HasRow(lines: seq<Scanline>, y: int)
  {
    exists i :: 0 <= i < |lines| && lines[i].y == y
  }

  /** The row test and the column test of `filter`, before any clamping. */
  predicate Passes(l: Scanline, width: int, height: int)
  {
    !(l.y < 0 || l.y >= height) && !(l.x1 >= width || l.x2 < 0)
  }

  /** The in-place clamp that `filter` applies to a line that passed. */
  function Clamped(l: Scanline, width: int): Scanline
  {
    Scanline(l.y, ClampInt(0, width - 1, l.x1), ClampInt(0, width - 1, l.x2))
  }

  /** The callback's verdict: passes, and is more than one pixel wide after
      clamping. */
  predicate Kept(l: Scanline, width: int, height: int)
  {
    Passes(l, width, height) && Clamped(l, width).x1 < Clamped(l, width).x2
  }

  /** `Scanline.filter(lines, width, height)`: the kept lines, clamped. */
  function Filter(lines: seq<Scanline>, width: int, height: int): (r: seq<Scanline>)
    ensures |r| <= |lines|
    ensures forall k :: 0 <= k < |r| ==>
      0 <= r[k].y < height && 0 <= r[k].x1 < r[k].x2 <= width - 1
  {
    if |lines| == 0 then []
    else
      var last := lines[|lines| - 1];
      Filter(lines[..|lines| - 1], width, height)
        + (if Kept(last, width, height) then [Clamped(last, width)] else [])
  }

  /** Every line of `filter`'s output is in bounds in the sense of the core. */
  lemma FilterInBounds(lines: seq<Scanline>, width: int, height: int)
    ensures AllInBounds(Filter(lines, width, height), width, height)
  {
  }

  /** The positions of the input lines that `filter` keeps, in order. */
  function KeptIndices(lines: seq<Scanline>, width: int, height: int): seq<nat>
  {
    if |lines| == 0 then []
    else
      KeptIndices(lines[..|lines| - 1], width, height)
        + (if Kept(lines[|lines| - 1], width, height) then [|lines| - 1] else [])
  }

  /** `filter`'s output is an order-preserving subsequence of its input: the
      k-th output line is the clamp of input line `idx[k]`, the positions are
      strictly increasing, and a position is listed exactly when its line is
      kept (so lines failing the row or column test never reach the output). */
  lemma {:induction false} FilterIsSubsequence(lines: seq<Scanline>, width: int, height: int)
    ensures var idx, out := KeptIndices(lines, width, height), Filter(lines, width, height);
      && |idx| == |out|
      && (forall k :: 0 <= k < |idx| ==> idx[k] < |lines| && out[k] == Clamped(lines[idx[k]], width))
      && (forall k, m :: 0 <= k < m < |idx| ==> idx[k] < idx[m])
      && (forall i :: 0 <= i < |lines| ==> (Kept(lines[i], width, height) <==> i in idx))
  {
    if |lines| > 0 {
      var init := lines[..|lines| - 1];
      FilterIsSubsequence(init, width, height);
      assert forall i :: 0 <= i < |init| ==> init[i] == lines[i];
    }
  }

  /** `filter` keeps rows apart: it drops and clamps lines but never moves
      one to another row or reorders them. */
  lemma FilterDistinctRows(lines: seq<Scanline>, width: int, height: int)
    requires DistinctRows(lines)
    ensures DistinctRows(Filter(lines, width, height))
  {
    FilterIsSubsequence(lines, width, height);
  }

  /** A line that survives `filter` is unchanged by another pass. */
  lemma KeptLineIsFixed(l: Scanline, width: int, height: int)
    requires 0 <= l.y < height && 0 <= l.x1 < l.x2 <= width - 1
    ensures Kept(l, width, height) && Clamped(l, width) == l
  {
  }

  /** `filter` is idempotent. */
  lemma {:induction false} FilterIdempotent(lines: seq<Scanline>, width: int, height: int)
    ensures Filter(Filter(lines, width, height), width, height) == Filter(lines, width, height)
  {
    if |lines| > 0 {
      var init := lines[..|lines| - 1];
      var last := lines[|lines| - 1];
      var f := Filter(init, width, height);
      var tail := if Kept(last, width, height) then [Clamped(last, width)] else [];
      FilterIdempotent(init, width, height);
      FilterAppend(f, tail, width, height);
      if Kept(last, width, height) {
        KeptLineIsFixed(Clamped(last, width), width, height);
        assert Filter(tail, width, height) == Filter([], width, height) + [Clamped(last, width)];
      }
    }
  }

  lemma {:induction false} FilterAppend(a: seq<Scanline>, b: seq<Scanline>, width: int, height: int)
    ensures Filter(a + b, width, height) == Filter(a, width, height) + Filter(b, width, height)
    decreases |b|
  {
    if |b| == 0 {
      assert a + b == a;
    } else {
      var b' := b[..|b| - 1];
      assert (a + b)[..|a + b| - 1] == a + b';
      FilterAppend(a, b', width, height);
    }
  }

  /** `filter` run on an array of line objects: the callback overwrites `x1`
      and `x2` of every line that passes the row and column tests, including
      lines it then rejects as too narrow; lines rejected by those tests are
      untouched. The result lists the kept lines. */
  method FilterInPlace(lines: array<Scanline>, width: int, height: int) returns (kept: seq<Scanline>)
    modifies lines
    ensures kept == Filter(old(lines[..]), width, height)
    ensures forall i :: 0 <= i < lines.Length ==>
      lines[i] == if Passes(old(lines[i]), width, height) then Clamped(old(lines[i]), width) else old(lines[i])
  {
    ghost var input := lines[..];
    kept := [];
    var i := 0;
    while i < lines.Length
      invariant 0 <= i <= lines.Length
      invariant kept == Filter(input[..i], width, height)
      invariant forall k :: 0 <= k < i ==>
        lines[k] == if Passes(input[k], width, height) then Clamped(input[k], width) else input[k]
      invariant forall k :: i <= k < lines.Length ==> lines[k] == input[k]
    {
      var line := lines[i];
      var keep := false;
      if !(line.y < 0 || line.y >= height) && !(line.x1 >= width || line.x2 < 0) {
        line := line.(x1 := Max(0, Min(width - 1, line.x1)));
        line := line.(x2 := Max(0, Min(width - 1, line.x2)));
        lines[i] := line;
        keep := line.x1 < line.x2;
      }
      assert input[..i + 1][..i] == input[..i];
      if keep {
        kept := kept + [line];
      }
      i := i + 1;
    }
    assert input[..lines.Length] == input;
  }
}
