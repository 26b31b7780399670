/** lib/core.ts: the energy arithmetic of the engine on flat RGBA buffers.
    An energy `sqrt(sum / (w * h * 3)) / 255` is represented by its integer
    sum of squared channel errors `sum`; for a fixed canvas the map from
    `sum` to the energy is strictly increasing, so every comparison the
    engine makes is the comparison of the sums. */
module Core {
  import opened Numbers
  import opened Wrappers
  import opened Scanlines
  import opened Color
  import opened Context

  // ---------------------------------------------------------------------
  // Pixels and energies

  /** Channel `c` of pixel `p`, or 0 outside the buffer. */
  function Px(data: seq<Byte>, p: int, c: int): int
  {
    var k := p * 4 + c;
    if 0 <= k < |data| then data[k] else 0
  }

  function Sq(x: int): nat
  {
    x * x
  }

  /** The squared error of pixel `p` over the colour channels. */
  function ErrAt(a: seq<Byte>, b: seq<Byte>, p: int): nat
  {
    Sq(Px(a, p, 0) - Px(b, p, 0)) + Sq(Px(a, p, 1) - Px(b, p, 1)) + Sq(Px(a, p, 2) - Px(b, p, 2))
  }

  /** The squared error summed over pixels `0 .. n-1`. */
  function DiffSum(a: seq<Byte>, b: seq<Byte>, n: int): nat
  {
    if n <= 0 then 0 else DiffSum(a, b, n - 1) + ErrAt(a, b, n - 1)
  }

  /** `sqrt(sum / (w * h * 3)) / 255` as a sum of squares: `NaN` for the
      square root of a negative sum and for `0 / 0` on an empty canvas. */
  datatype Energy = Sum(n: nat) | NaN

  /** `a < b` on energies; a comparison with `NaN` is false. */
  predicate Less(a: Energy, b: Energy)
  {
    a.Sum? && b.Sum? && a.n < b.n
  }

  function Normalise(sum: int, pixels: int): (e: Energy)
    ensures e.Sum? <==> pixels != 0 && sum >= 0
    ensures e.Sum? ==> e.n == sum
  {
    if pixels == 0 || sum < 0 then NaN else Sum(sum)
  }

  lemma RowIndex(i: int, j: int, w: int, h: int)
    requires 0 <= i < h && 0 <= j < w
    ensures 0 <= i * w + j < w * h
  {
    assert i * w <= (h - 1) * w by {
      MulMono(i, h - 1, w);
    }
  }

  lemma MulMono(a: int, b: int, c: int)
    requires a <= b && c >= 0
    ensures a * c <= b * c
  {
    assert b * c - a * c == (b - a) * c;
  }

  lemma NextRow(i: int, w: int)
    ensures i * w + w == (i + 1) * w
  {
  }

  // ---------------------------------------------------------------------
  // difference

  /** `difference(imageA, imageB)` on a `w` x `h` canvas. */
  function DifferenceOf(w: int, h: int, a: seq<Byte>, b: seq<Byte>): Result<Energy>
  {
    if |a| != |b| then Err("image.difference incompatible images")
    else Ok(Normalise(DiffSum(a, b, w * h), w * h))
  }

  /** One step of the column loop of `difference`. */
  lemma DiffSumStep(a: seq<Byte>, b: seq<Byte>, p: int, dr: int, dg: int, db: int)
    requires 0 <= p && p * 4 + 2 < |a| && p * 4 + 2 < |b|
    requires dr == a[p * 4] as int - b[p * 4] as int && dg == a[p * 4 + 1] as int - b[p * 4 + 1] as int
    requires db == a[p * 4 + 2] as int - b[p * 4 + 2] as int
    ensures DiffSum(a, b, p + 1) == DiffSum(a, b, p) + dr * dr + dg * dg + db * db
  {
  }

  /** `difference` with its nested row and column loops. */
  method Difference(imageA: Image, imageB: Image) returns (r: Result<Energy>)
    requires Valid(imageA)
    ensures r == DifferenceOf(imageA.width, imageA.height, imageA.data[..], imageB.data[..])
  {
    var w, h := imageA.width, imageA.height;
    var dataA, dataB := imageA.data, imageB.data;
    if dataA.Length != dataB.Length {
      return Err("image.difference incompatible images");
    }
    ghost var a, b := dataA[..], dataB[..];
    var sum := 0;
    for i := 0 to h
      invariant sum == DiffSum(a, b, i * w)
    {
      for j := 0 to w
        invariant sum == DiffSum(a, b, i * w + j)
      {
        RowIndex(i, j, w, h);
        var o := (i * w + j) * 4;
        var dr: int := dataA[o + 0] as int - dataB[o + 0] as int;
        var dg: int := dataA[o + 1] as int - dataB[o + 1] as int;
        var db: int := dataA[o + 2] as int - dataB[o + 2] as int;
        DiffSumStep(a, b, i * w + j, dr, dg, db);
        sum := sum + dr * dr + dg * dg + db * db;
      }
      NextRow(i, w);
    }
    assert h * w == w * h;
    r := Ok(Normalise(sum, w * h));
  }

  /** `difference` is symmetric. */
  lemma {:induction false} DiffSumSymmetric(a: seq<Byte>, b: seq<Byte>, n: int)
    ensures DiffSum(a, b, n) == DiffSum(b, a, n)
  {
    if n > 0 {
      DiffSumSymmetric(a, b, n - 1);
      assert ErrAt(a, b, n - 1) == ErrAt(b, a, n - 1);
    }
  }

  /** Two buffers agree on the colour channels of pixel `p`. */
  predicate SameColor(a: seq<Byte>, b: seq<Byte>, p: int)
  {
    Px(a, p, 0) == Px(b, p, 0) && Px(a, p, 1) == Px(b, p, 1) && Px(a, p, 2) == Px(b, p, 2)
  }

  /** Only the colour channels count: the alpha bytes never change the sum. */
  lemma {:induction false} DiffSumIgnoresAlpha(a: seq<Byte>, a': seq<Byte>, b: seq<Byte>, n: int)
    requires forall p :: 0 <= p < n ==> SameColor(a, a', p)
    ensures DiffSum(a, b, n) == DiffSum(a', b, n)
  {
    if n > 0 {
      DiffSumIgnoresAlpha(a, a', b, n - 1);
      assert SameColor(a, a', n - 1);
    }
  }

  /** An image has no difference from itself. */
  lemma {:induction false} DiffSumSelf(a: seq<Byte>, n: int)
    ensures DiffSum(a, a, n) == 0
  {
    if n > 0 {
      DiffSumSelf(a, n - 1);
    }
  }

  /** `difference` throws exactly on a length mismatch, is symmetric, and is
      zero from an image to itself. */
  lemma DifferenceProperties(w: int, h: int, a: seq<Byte>, b: seq<Byte>)
    requires w * h > 0
    ensures DifferenceOf(w, h, a, b).Err? <==> |a| != |b|
    ensures DifferenceOf(w, h, a, b) == DifferenceOf(w, h, b, a)
    ensures DifferenceOf(w, h, a, a) == Ok(Sum(0))
  {
    DiffSumSymmetric(a, b, w * h);
    DiffSumSelf(a, w * h);
  }

  // ---------------------------------------------------------------------
  // Covered pixels

  /** Pixels `x1 .. x2-1` of row `y`. */
  function RowPixels(w: int, y: int, x1: int, x2: int): seq<int>
    decreases x2 - x1
  {
    if x2 <= x1 then [] else RowPixels(w, y, x1, x2 - 1) + [y * w + x2 - 1]
  }

  lemma {:induction false} RowPixelsAre(w: int, y: int, x1: int, x2: int)
    ensures |RowPixels(w, y, x1, x2)| == Max(0, x2 - x1)
    ensures forall k :: 0 <= k < |RowPixels(w, y, x1, x2)| ==> RowPixels(w, y, x1, x2)[k] == y * w + x1 + k
    decreases x2 - x1
  {
    if x2 > x1 {
      RowPixelsAre(w, y, x1, x2 - 1);
    }
  }

  /** Pixel `p` is one of the pixels `x1 .. x2-1` of row `y`. */
  lemma RowPixelsMember(w: int, y: int, x1: int, x2: int, p: int)
    ensures p in RowPixels(w, y, x1, x2) <==> y * w + x1 <= p < y * w + x2
  {
    RowPixelsAre(w, y, x1, x2);
    if y * w + x1 <= p < y * w + x2 {
      assert RowPixels(w, y, x1, x2)[p - y * w - x1] == p;
    }
  }

  /** The pixels of one line, `x1 .. x2` inclusive. */
  function LinePixels(l: Scanline, w: int): seq<int>
  {
    RowPixels(w, l.y, l.x1, l.x2 + 1)
  }

  /** The pixels the loops over `lines` visit, in order, repeats included. */
  function Covered(lines: seq<Scanline>, w: int): seq<int>
  {
    if |lines| == 0 then []
    else Covered(lines[..|lines| - 1], w) + LinePixels(lines[|lines| - 1], w)
  }

  /** No pixel is visited twice. */
  predicate Distinct(ps: seq<int>)
  {
    forall i, j :: 0 <= i < j < |ps| ==> ps[i] != ps[j]
  }

  /** A covered pixel of in-bounds lines lies on the canvas. */
  lemma {:induction false} CoveredInCanvas(lines: seq<Scanline>, w: int, h: int)
    requires AllInBounds(lines, w, h)
    ensures forall p :: p in Covered(lines, w) ==> 0 <= p < w * h
  {
    if |lines| > 0 {
      var init := lines[..|lines| - 1];
      var l := lines[|lines| - 1];
      assert AllInBounds(init, w, h);
      CoveredInCanvas(init, w, h);
      assert InBounds(l, w, h);
      forall p | p in LinePixels(l, w)
        ensures 0 <= p < w * h
      {
        RowPixelsMember(w, l.y, l.x1, l.x2 + 1, p);
        RowIndex(l.y, p - l.y * w, w, h);
      }
    }
  }

  /** The covered pixels of a prefix of the lines and then of the next line. */
  lemma CoveredNext(lines: seq<Scanline>, i: int, w: int)
    requires 0 <= i < |lines|
    ensures Covered(lines[..i + 1], w) == Covered(lines[..i], w) + LinePixels(lines[i], w)
  {
    assert lines[..i + 1][..i] == lines[..i];
  }

  /** A covered pixel lies on some line. */
  lemma {:induction false} CoveredAt(lines: seq<Scanline>, w: int, p: int) returns (j: int)
    requires p in Covered(lines, w)
    ensures 0 <= j < |lines| && p in LinePixels(lines[j], w)
  {
    var init := lines[..|lines| - 1];
    if p in Covered(init, w) {
      j := CoveredAt(init, w, p);
      assert lines[j] == init[j];
    } else {
      j := |lines| - 1;
    }
  }

  /** Two lists without repeats that share no element concatenate to a list
      without repeats. */
  lemma DistinctConcat(ps: seq<int>, qs: seq<int>)
    requires Distinct(ps) && Distinct(qs)
    requires forall p :: p in ps ==> p !in qs
    ensures Distinct(ps + qs)
  {
    forall i, j | 0 <= i < j < |ps + qs|
      ensures (ps + qs)[i] != (ps + qs)[j]
    {
      if j < |ps| {
        assert (ps + qs)[i] == ps[i] && (ps + qs)[j] == ps[j];
      } else if i >= |ps| {
        assert (ps + qs)[i] == qs[i - |ps|] && (ps + qs)[j] == qs[j - |ps|];
      } else {
        assert (ps + qs)[i] == ps[i] && ps[i] in ps;
        assert (ps + qs)[j] == qs[j - |ps|];
      }
    }
  }

  /** In-bounds lines on pairwise different rows cover no pixel twice. The
      rectangle and ellipse rasterisers produce such lines. */
  lemma {:induction false} DistinctRowsCovered(lines: seq<Scanline>, w: int, h: int)
    requires AllInBounds(lines, w, h)
    requires DistinctRows(lines)
    ensures Distinct(Covered(lines, w))
  {
    if |lines| > 0 {
      var init, l := lines[..|lines| - 1], lines[|lines| - 1];
      assert AllInBounds(init, w, h);
      DistinctRowsCovered(init, w, h);
      var ps, qs := Covered(init, w), LinePixels(l, w);
      RowPixelsAre(w, l.y, l.x1, l.x2 + 1);
      assert Distinct(qs);
      assert InBounds(l, w, h);
      forall p | p in ps
        ensures p !in qs
      {
        var j := CoveredAt(init, w, p);
        var m := init[j];
        assert m == lines[j] && InBounds(m, w, h);
        if p in qs {
          RowPixelsMember(w, m.y, m.x1, m.x2 + 1, p);
          RowPixelsMember(w, l.y, l.x1, l.x2 + 1, p);
          SamePixel(w, m.y, p - m.y * w, l.y, p - l.y * w);
          assert false;
        }
      }
      DistinctConcat(ps, qs);
    }
  }

  // ---------------------------------------------------------------------
  // differencePartial

  /** The change of the squared error at pixel `p` from `before` to
      `after`. */
  function DeltaAt(t: seq<Byte>, before: seq<Byte>, after: seq<Byte>, p: int): int
  {
    ErrAt(t, after, p) - ErrAt(t, before, p)
  }

  /** The changes summed over the listed pixels. */
  function DeltaSeq(t: seq<Byte>, before: seq<Byte>, after: seq<Byte>, ps: seq<int>): int
  {
    if |ps| == 0 then 0
    else DeltaSeq(t, before, after, ps[..|ps| - 1]) + DeltaAt(t, before, after, ps[|ps| - 1])
  }

  lemma {:induction false} DeltaSeqAppend(t: seq<Byte>, before: seq<Byte>, after: seq<Byte>, ps: seq<int>, qs: seq<int>)
    ensures DeltaSeq(t, before, after, ps + qs) == DeltaSeq(t, before, after, ps) + DeltaSeq(t, before, after, qs)
    decreases |qs|
  {
    if |qs| == 0 {
      assert ps + qs == ps;
    } else {
      assert (ps + qs)[..|ps + qs| - 1] == ps + qs[..|qs| - 1];
      DeltaSeqAppend(t, before, after, ps, qs[..|qs| - 1]);
    }
  }

  lemma DeltaSeqSnoc(t: seq<Byte>, before: seq<Byte>, after: seq<Byte>, ps: seq<int>, p: int)
    ensures DeltaSeq(t, before, after, ps + [p]) == DeltaSeq(t, before, after, ps) + DeltaAt(t, before, after, p)
  {
    assert (ps + [p])[..|ps|] == ps;
  }

  /** One step of the pixel loop of `differencePartial`. */
  lemma DeltaStep(t: seq<Byte>, before: seq<Byte>, after: seq<Byte>, w: int, y: int, x1: int, j: int)
    requires x1 <= j
    ensures DeltaSeq(t, before, after, RowPixels(w, y, x1, j + 1))
         == DeltaSeq(t, before, after, RowPixels(w, y, x1, j))
            - ErrAt(t, before, y * w + j) + ErrAt(t, after, y * w + j)
  {
    var p := y * w + j;
    assert RowPixels(w, y, x1, j + 1) == RowPixels(w, y, x1, j) + [p];
    DeltaSeqSnoc(t, before, after, RowPixels(w, y, x1, j), p);
  }

  /** The squared colour error of pixel `p` that the loops of `difference`
      and `differencePartial` compute from the three channel differences. */
  method PixelError(dataT: array<Byte>, dataX: array<Byte>, p: int) returns (e: int)
    requires 0 <= p && p * 4 + 2 < dataT.Length && p * 4 + 2 < dataX.Length
    ensures e == ErrAt(dataT[..], dataX[..], p)
  {
    var o := p * 4;
    var dr: int := dataT[o + 0] as int - dataX[o + 0] as int;
    var dg: int := dataT[o + 1] as int - dataX[o + 1] as int;
    var db: int := dataT[o + 2] as int - dataX[o + 2] as int;
    e := dr * dr + dg * dg + db * db;
  }

  /** `differencePartial(target, before, after, score, lines)`: the sum
      recovered from `score`, less the old errors and plus the new errors of
      every visited pixel. */
  function PartialOf(w: int, h: int, t: seq<Byte>, before: seq<Byte>, after: seq<Byte>,
                     score: Energy, lines: seq<Scanline>): Result<Energy>
  {
    if |t| != |before| || |t| != |after| then Err("image.differencePartial incompatible images")
    else if score.NaN? then Ok(NaN)
    else Ok(Normalise(score.n + DeltaSeq(t, before, after, Covered(lines, w)), w * h))
  }

  /** The inner loop of `differencePartial` over the pixels of one line:
      each pixel's old error is taken off `sum` and its new error added. */
  method PartialLine(dataT: array<Byte>, dataB: array<Byte>, dataA: array<Byte>, w: int, h: int,
                     line: Scanline, sum0: int) returns (sum: int)
    requires dataT.Length == w * h * 4 && dataB.Length == dataT.Length && dataA.Length == dataT.Length
    requires InBounds(line, w, h)
    ensures sum == sum0 + DeltaSeq(dataT[..], dataB[..], dataA[..], LinePixels(line, w))
  {
    ghost var t, b, a := dataT[..], dataB[..], dataA[..];
    sum := sum0;
    for j := line.x1 to line.x2 + 1
      invariant sum == sum0 + DeltaSeq(t, b, a, RowPixels(w, line.y, line.x1, j))
    {
      sum := DeltaPixel(dataT, dataB, dataA, w, h, line.y, line.x1, j, sum0, sum);
    }
  }

  /** One round of the pixel loop of `differencePartial`: pixel `(j, y)`'s
      old error taken off and its new error added. */
  method DeltaPixel(dataT: array<Byte>, dataB: array<Byte>, dataA: array<Byte>, w: int, h: int,
                    y: int, x1: int, j: int, sum0: int, sum: int) returns (sum': int)
    requires dataT.Length == w * h * 4 && dataB.Length == dataT.Length && dataA.Length == dataT.Length
    requires 0 <= y < h && 0 <= x1 <= j < w
    requires sum == sum0 + DeltaSeq(dataT[..], dataB[..], dataA[..], RowPixels(w, y, x1, j))
    ensures sum' == sum0 + DeltaSeq(dataT[..], dataB[..], dataA[..], RowPixels(w, y, x1, j + 1))
  {
    RowIndex(y, j, w, h);
    var p := y * w + j;
    var e1 := PixelError(dataT, dataB, p);
    var e2 := PixelError(dataT, dataA, p);
    sum' := sum - e1;
    sum' := sum' + e2;
    DeltaStep(dataT[..], dataB[..], dataA[..], w, y, x1, j);
  }

  /** `differencePartial` with its loops over the lines and their pixels. */
  method DifferencePartial(target: Image, before: Image, after: Image, score: Energy, lines: seq<Scanline>)
    returns (r: Result<Energy>)
    requires Valid(target)
    requires AllInBounds(lines, target.width, target.height)
    ensures r == PartialOf(target.width, target.height, target.data[..], before.data[..], after.data[..], score, lines)
  {
    var w, h := target.width, target.height;
    var dataT, dataB, dataA := target.data, before.data, after.data;
    if dataT.Length != dataB.Length || dataT.Length != dataA.Length {
      return Err("image.differencePartial incompatible images");
    }
    ghost var t, b, a := dataT[..], dataB[..], dataA[..];
    var isNaN := score.NaN?;
    var sum: int := if score.Sum? then score.n else 0;
    ghost var start := sum;
    for i := 0 to |lines|
      invariant sum == start + DeltaSeq(t, b, a, Covered(lines[..i], w))
    {
      var line := lines[i];
      assert InBounds(line, w, h);
      sum := PartialLine(dataT, dataB, dataA, w, h, line, sum);
      CoveredNext(lines, i, w);
      DeltaSeqAppend(t, b, a, Covered(lines[..i], w), LinePixels(line, w));
    }
    assert lines[..|lines|] == lines;
    if isNaN {
      r := Ok(NaN);
    } else {
      r := Ok(Normalise(sum, w * h));
    }
  }
  // ---------------------------------------------------------------------
  // The incremental update agrees with a full recomputation

  /** The changes summed over every pixel `0 .. n-1`. */
  function DeltaSum(t: seq<Byte>, before: seq<Byte>, after: seq<Byte>, n: int): int
  {
    if n <= 0 then 0 else DeltaSum(t, before, after, n - 1) + DeltaAt(t, before, after, n - 1)
  }

  /** The changes summed over the pixels `0 .. n-1` that `ps` does not list. */
  function DeltaOutside(t: seq<Byte>, before: seq<Byte>, after: seq<Byte>, n: int, ps: seq<int>): int
  {
    if n <= 0 then 0
    else DeltaOutside(t, before, after, n - 1, ps) + (if n - 1 in ps then 0 else DeltaAt(t, before, after, n - 1))
  }

  lemma {:induction false} DiffSumDelta(t: seq<Byte>, before: seq<Byte>, after: seq<Byte>, n: int)
    ensures DiffSum(t, after, n) == DiffSum(t, before, n) + DeltaSum(t, before, after, n)
  {
    if n > 0 {
      DiffSumDelta(t, before, after, n - 1);
    }
  }

  lemma {:induction false} DeltaOutsideSame(t: seq<Byte>, before: seq<Byte>, after: seq<Byte>, n: int, ps: seq<int>, qs: seq<int>)
    requires forall p :: 0 <= p < n ==> (p in ps <==> p in qs)
    ensures DeltaOutside(t, before, after, n, ps) == DeltaOutside(t, before, after, n, qs)
  {
    if n > 0 {
      DeltaOutsideSame(t, before, after, n - 1, ps, qs);
    }
  }

  /** Where `after` keeps `before`'s colour the error does not change, so
      the pixels off the list contribute nothing. */
  lemma {:induction false} DeltaOutsideZero(t: seq<Byte>, before: seq<Byte>, after: seq<Byte>, n: int, ps: seq<int>)
    requires forall p :: 0 <= p < n && p !in ps ==> SameColor(before, after, p)
    ensures DeltaOutside(t, before, after, n, ps) == 0
  {
    if n > 0 {
      DeltaOutsideZero(t, before, after, n - 1, ps);
    }
  }

  /** Removing the entry at position `k` of a list. */
  lemma DeltaSeqRemove(t: seq<Byte>, before: seq<Byte>, after: seq<Byte>, ps: seq<int>, k: int)
    requires 0 <= k < |ps|
    ensures DeltaSeq(t, before, after, ps) == DeltaSeq(t, before, after, ps[..k] + ps[k + 1..]) + DeltaAt(t, before, after, ps[k])
  {
    assert ps == ps[..k] + [ps[k]] + ps[k + 1..];
    DeltaSeqAppend(t, before, after, ps[..k] + [ps[k]], ps[k + 1..]);
    DeltaSeqSnoc(t, before, after, ps[..k], ps[k]);
    DeltaSeqAppend(t, before, after, ps[..k], ps[k + 1..]);
  }

  /** Dropping one entry of a list without repeats drops exactly that pixel. */
  lemma RemoveOne(ps: seq<int>, k: int)
    requires Distinct(ps) && 0 <= k < |ps|
    ensures Distinct(ps[..k] + ps[k + 1..])
    ensures forall p :: p in ps[..k] + ps[k + 1..] <==> p in ps && p != ps[k]
  {
    var qs := ps[..k] + ps[k + 1..];
    assert forall i :: 0 <= i < |qs| ==> qs[i] == (if i < k then ps[i] else ps[i + 1]);
    forall p | p in ps && p != ps[k]
      ensures p in qs
    {
      var i :| 0 <= i < |ps| && ps[i] == p;
      if i < k { assert qs[i] == p; } else { assert qs[i - 1] == p; }
    }
  }

  lemma FirstIn(ps: seq<int>)
    requires |ps| > 0
    ensures ps[0] in ps
  {
  }

  /** The step of `DeltaSumSplit` when the last pixel `n - 1` is listed, at
      position `k`: the split for the list without it gives the split for
      the whole list. */
  lemma SplitListed(t: seq<Byte>, before: seq<Byte>, after: seq<Byte>, n: int, ps: seq<int>, k: int)
    requires Distinct(ps) && n > 0 && 0 <= k < |ps| && ps[k] == n - 1
    requires var qs := ps[..k] + ps[k + 1..];
      DeltaSum(t, before, after, n - 1) == DeltaSeq(t, before, after, qs) + DeltaOutside(t, before, after, n - 1, qs)
    ensures DeltaSum(t, before, after, n) == DeltaSeq(t, before, after, ps) + DeltaOutside(t, before, after, n, ps)
  {
    var qs := ps[..k] + ps[k + 1..];
    RemoveOne(ps, k);
    DeltaSeqRemove(t, before, after, ps, k);
    DeltaOutsideSame(t, before, after, n - 1, ps, qs);
  }

  /** Summing over all pixels splits into the listed pixels and the rest,
      when no pixel is listed twice. */
  lemma {:induction false} DeltaSumSplit(t: seq<Byte>, before: seq<Byte>, after: seq<Byte>, n: int, ps: seq<int>)
    requires Distinct(ps)
    requires forall p :: p in ps ==> 0 <= p < n
    ensures DeltaSum(t, before, after, n) == DeltaSeq(t, before, after, ps) + DeltaOutside(t, before, after, n, ps)
  {
    if n <= 0 {
      if |ps| > 0 {
        FirstIn(ps);
        assert false;
      }
    } else if n - 1 in ps {
      var k :| 0 <= k < |ps| && ps[k] == n - 1;
      var qs := ps[..k] + ps[k + 1..];
      RemoveOne(ps, k);
      forall p | p in qs
        ensures 0 <= p < n - 1
      {
        assert p in ps && p != ps[k];
      }
      DeltaSumSplit(t, before, after, n - 1, qs);
      SplitListed(t, before, after, n, ps, k);
    } else {
      DeltaSumSplit(t, before, after, n - 1, ps);
    }
  }

  /** The central invariant of the incremental update: when `after` differs
      from `before` only on the pixels the lines cover, no pixel is covered
      twice, and `score` is the energy of `before`, `differencePartial`
      returns exactly what `difference(target, after)` returns. */
  lemma PartialIsExact(w: int, h: int, t: seq<Byte>, before: seq<Byte>, after: seq<Byte>, lines: seq<Scanline>)
    requires w >= 0 && h >= 0 && |t| == w * h * 4 && |before| == |t| && |after| == |t|
    requires AllInBounds(lines, w, h)
    requires Distinct(Covered(lines, w))
    requires forall p :: 0 <= p < w * h && p !in Covered(lines, w) ==> SameColor(before, after, p)
    ensures DifferenceOf(w, h, t, before).Ok?
    ensures PartialOf(w, h, t, before, after, DifferenceOf(w, h, t, before).value, lines) == DifferenceOf(w, h, t, after)
  {
    var n, cov := w * h, Covered(lines, w);
    var score := DifferenceOf(w, h, t, before).value;
    if n == 0 {
      assert score == NaN;
    } else {
      assert score == Sum(DiffSum(t, before, n));
      CoveredInCanvas(lines, w, h);
      DiffSumDelta(t, before, after, n);
      DeltaSumSplit(t, before, after, n, cov);
      DeltaOutsideZero(t, before, after, n, cov);
      assert DiffSum(t, before, n) + DeltaSeq(t, before, after, cov) == DiffSum(t, after, n);
    }
  }
  // ---------------------------------------------------------------------
  // copyLines

  /** Byte `k` belongs to one of the pixels `x1 .. x2-1` of row `y`
      exactly when it lies in the byte range of those pixels. */
  lemma ByteInRow(w: int, y: int, x1: int, x2: int, k: int)
    requires k >= 0
    ensures (y * w + x1) * 4 <= k < (y * w + x2) * 4 <==> k / 4 in RowPixels(w, y, x1, x2)
  {
    RowPixelsMember(w, y, x1, x2, k / 4);
  }

  /** The pixels `copyLines` copies: each line's `x1 .. x2-1`, so pixel `x2`
      of each line is left out. */
  function CopiedPixels(lines: seq<Scanline>, w: int): seq<int>
  {
    if |lines| == 0 then []
    else CopiedPixels(lines[..|lines| - 1], w) + RowPixels(w, lines[|lines| - 1].y, lines[|lines| - 1].x1, lines[|lines| - 1].x2)
  }

  /** `dest` after `copyLines(dest, src, lines)`: the bytes of the copied
      pixels come from `src`, every other byte is `dest`'s own. */
  function CopiedOf(dest: seq<Byte>, src: seq<Byte>, lines: seq<Scanline>, w: int): (r: seq<Byte>)
    requires |dest| == |src|
    ensures |r| == |dest|
  {
    seq(|dest|, k requires 0 <= k < |dest| => if k / 4 in CopiedPixels(lines, w) then src[k] else dest[k])
  }

  /** One iteration of the line loop of `copyLines`: the byte range of the
      line is overwritten from `src`. */
  lemma CopyStep(dest: seq<Byte>, src: seq<Byte>, lines: seq<Scanline>, w: int, i: int, o1: int, o2: int, now: seq<Byte>)
    requires |dest| == |src| == |now| && 0 <= i < |lines|
    requires now == CopiedOf(dest, src, lines[..i], w)
    requires o1 == (lines[i].y * w + lines[i].x1) * 4 && o2 == (lines[i].y * w + lines[i].x2) * 4
    ensures CopiedOf(dest, src, lines[..i + 1], w)
         == seq(|now|, k requires 0 <= k < |now| => if o1 <= k < o2 then src[k] else now[k])
  {
    assert lines[..i + 1][..i] == lines[..i];
    var l := lines[i];
    forall k | 0 <= k < |now|
      ensures CopiedOf(dest, src, lines[..i + 1], w)[k] == if o1 <= k < o2 then src[k] else now[k]
    {
      ByteInRow(w, l.y, l.x1, l.x2, k);
      assert CopiedPixels(lines[..i + 1], w) == CopiedPixels(lines[..i], w) + RowPixels(w, l.y, l.x1, l.x2);
    }
  }

  /** `copyLines(dest, src, lines)`: throws on a length mismatch; otherwise
      copies the byte range `[(y*w+x1)*4, (y*w+x2)*4)` of every line, each end
      clamped to `w*h*4`, from `src` into `dest`. */
  method CopyLines(dest: Image, src: Image, lines: seq<Scanline>) returns (r: Result<()>)
    requires Valid(src)
    requires AllInBounds(lines, src.width, src.height)
    requires dest.data != src.data
    modifies dest.data
    ensures r.Err? <==> dest.data.Length != src.data.Length
    ensures r.Err? ==> dest.data[..] == old(dest.data[..])
    ensures r.Ok? ==> dest.data[..] == CopiedOf(old(dest.data[..]), src.data[..], lines, src.width)
  {
    var w, h := src.width, src.height;
    var m := w * h * 4;
    if dest.data.Length != src.data.Length {
      return Err("image.copyLines incompatible images");
    }
    ghost var d0, s := dest.data[..], src.data[..];
    assert CopiedPixels(lines[..0], w) == [];
    assert CopiedOf(d0, s, lines[..0], w) == d0;
    for i := 0 to |lines|
      invariant dest.data[..] == CopiedOf(d0, s, lines[..i], w)
    {
      var line := lines[i];
      assert InBounds(line, w, h);
      RowIndex(line.y, line.x2, w, h);
      var o1 := Min(m, (line.y * w + line.x1) * 4);
      var o2 := Min(m, (line.y * w + line.x2) * 4);
      ghost var now := dest.data[..];
      CopyStep(d0, s, lines, w, i, o1, o2, now);
      forall k | o1 <= k < o2 {
        dest.data[k] := src.data[k];
      }
      assert dest.data[..] == seq(|now|, k requires 0 <= k < |now| => if o1 <= k < o2 then s[k] else now[k]);
    }
    assert lines[..|lines|] == lines;
    r := Ok(());
  }
  /** The last pixel of a line, the one `copyLines` does not copy. */
  function LineEnd(l: Scanline, w: int): int
  {
    l.y * w + l.x2
  }

  predicate IsLineEnd(lines: seq<Scanline>, w: int, p: int)
  {
    exists i :: 0 <= i < |lines| && LineEnd(lines[i], w) == p
  }

  /** The copied pixels are covered pixels, and a covered pixel that is not
      copied is the last pixel of one of the lines. */
  lemma {:induction false} CopiedPixelsCovered(lines: seq<Scanline>, w: int)
    ensures forall p :: p in CopiedPixels(lines, w) ==> p in Covered(lines, w)
    ensures forall p :: p in Covered(lines, w) && p !in CopiedPixels(lines, w) ==> IsLineEnd(lines, w, p)
  {
    if |lines| > 0 {
      var init, l := lines[..|lines| - 1], lines[|lines| - 1];
      CopiedPixelsCovered(init, w);
      forall p | p in Covered(lines, w) && p !in CopiedPixels(lines, w)
        ensures IsLineEnd(lines, w, p)
      {
        RowPixelsMember(w, l.y, l.x1, l.x2 + 1, p);
        RowPixelsMember(w, l.y, l.x1, l.x2, p);
        if p in Covered(init, w) {
          var i :| 0 <= i < |init| && LineEnd(init[i], w) == p;
          assert lines[i] == init[i];
        } else {
          assert LineEnd(lines[|lines| - 1], w) == p;
        }
      }
      forall p | p in CopiedPixels(lines, w)
        ensures p in Covered(lines, w)
      {
        RowPixelsMember(w, l.y, l.x1, l.x2 + 1, p);
        RowPixelsMember(w, l.y, l.x1, l.x2, p);
      }
    }
  }

  /** Two pixels on a row of width `w` are the same only in the same row and
      column. */
  lemma SamePixel(w: int, y: int, x: int, y': int, x': int)
    requires 0 <= x < w && 0 <= x' < w && y * w + x == y' * w + x'
    ensures y == y' && x == x'
  {
    if y < y' {
      MulMono(y + 1, y', w);
    } else if y' < y {
      MulMono(y' + 1, y, w);
    }
  }

  /** The stale pixel: when no other line lies on its row, pixel `x2` of a
      line keeps the bytes `dest` had before `copyLines`. */
  lemma CopyLeavesLineEnd(dest: seq<Byte>, src: seq<Byte>, lines: seq<Scanline>, w: int, h: int, i: int, c: int)
    requires |dest| == |src| && AllInBounds(lines, w, h) && 0 <= i < |lines| && 0 <= c < 4
    requires forall j :: 0 <= j < |lines| && j != i ==> lines[j].y != lines[i].y
    requires 0 <= LineEnd(lines[i], w) * 4 + c < |dest|
    ensures CopiedOf(dest, src, lines, w)[LineEnd(lines[i], w) * 4 + c] == dest[LineEnd(lines[i], w) * 4 + c]
  {
    var e := LineEnd(lines[i], w);
    assert (e * 4 + c) / 4 == e;
    if e in CopiedPixels(lines, w) {
      var j := CopiedAt(lines, w, e);
      var l := lines[j];
      assert InBounds(l, w, h) && InBounds(lines[i], w, h);
      RowPixelsMember(w, l.y, l.x1, l.x2, e);
      SamePixel(w, l.y, e - l.y * w, lines[i].y, lines[i].x2);
      assert false;
    }
  }

  /** A copied pixel is among the copied pixels of some line. */
  lemma {:induction false} CopiedAt(lines: seq<Scanline>, w: int, p: int) returns (j: int)
    requires p in CopiedPixels(lines, w)
    ensures 0 <= j < |lines| && p in RowPixels(w, lines[j].y, lines[j].x1, lines[j].x2)
  {
    var init := lines[..|lines| - 1];
    if p in CopiedPixels(init, w) {
      j := CopiedAt(init, w, p);
      assert lines[j] == init[j];
    } else {
      j := |lines| - 1;
    }
  }
  // ---------------------------------------------------------------------
  // drawLines

  /** One colour channel composited over a byte: `d * (1 - a/255) + s * a/255`
      truncated by `|0`, then stored into the clamped byte array. The exact
      rational value stands for the floating-point one. */
  function Blend(d: int, s: int, a: int): Byte
  {
    ToByte(Trunc((d * (255 - a) + s * a) as real / 255.0))
  }

  /** Byte `k` is a colour byte of one of the pixels `x1 .. x2-1` of row `y`. */
  predicate InSpan(w: int, y: int, x1: int, x2: int, k: int)
  {
    (y * w + x1) * 4 <= k < (y * w + x2) * 4 && k % 4 < 3
  }

  /** The buffer after the colour bytes of pixels `x1 .. x2-1` of row `y`
      have been composited with `color`. */
  function DrawSpan(d: seq<Byte>, w: int, color: RGBA, y: int, x1: int, x2: int): (r: seq<Byte>)
    ensures |r| == |d|
  {
    seq(|d|, k requires 0 <= k < |d| =>
      if InSpan(w, y, x1, x2, k) then Blend(d[k], Channel(color, k % 4), color.a) else d[k])
  }

  /** The buffer after one line, `x1 .. x2` inclusive, has been drawn. */
  function DrawLine(d: seq<Byte>, w: int, color: RGBA, l: Scanline): (r: seq<Byte>)
    ensures |r| == |d|
  {
    DrawSpan(d, w, color, l.y, l.x1, l.x2 + 1)
  }

  /** `drawLines(image, color, lines)`: the lines drawn one after another, a
      pixel covered twice being composited twice. */
  function Drawn(d: seq<Byte>, w: int, color: RGBA, lines: seq<Scanline>): (r: seq<Byte>)
    ensures |r| == |d|
  {
    if |lines| == 0 then d
    else DrawLine(Drawn(d, w, color, lines[..|lines| - 1]), w, color, lines[|lines| - 1])
  }

  /** One pixel of the column loop of `drawLines`: its three colour bytes are
      replaced by their blends, which extends the drawn span by one pixel. */
  lemma DrawStep(start: seq<Byte>, w: int, color: RGBA, y: int, x1: int, j: int, now: seq<Byte>)
    requires x1 <= j && 0 <= (y * w + j) * 4 && (y * w + j) * 4 + 3 < |start|
    requires now == DrawSpan(start, w, color, y, x1, j)
    ensures var o := (y * w + j) * 4;
      DrawSpan(start, w, color, y, x1, j + 1)
        == now[o := Blend(now[o], color.r, color.a)]
              [o + 1 := Blend(now[o + 1], color.g, color.a)]
              [o + 2 := Blend(now[o + 2], color.b, color.a)]
  {
    var o := (y * w + j) * 4;
    var next := DrawSpan(start, w, color, y, x1, j + 1);
    var upd := now[o := Blend(now[o], color.r, color.a)]
                  [o + 1 := Blend(now[o + 1], color.g, color.a)]
                  [o + 2 := Blend(now[o + 2], color.b, color.a)];
    assert (y * w + (j + 1)) * 4 == o + 4;
    forall k | 0 <= k < |start|
      ensures next[k] == upd[k]
    {
      if o <= k < o + 4 {
        PixelByte(y * w + j, k);
        assert !InSpan(w, y, x1, j, k);
        assert now[k] == start[k];
      }
    }
    assert next == upd;
  }

  /** Byte `k` of pixel `p` is its channel `k - p * 4`. */
  lemma PixelByte(p: int, k: int)
    requires p * 4 <= k < p * 4 + 4
    ensures k % 4 == k - p * 4
  {
  }

  /** `drawLines` with its loops over the lines and their pixels. */
  method DrawLines(image: Image, color: RGBA, lines: seq<Scanline>)
    requires Valid(image)
    requires AllInBounds(lines, image.width, image.height)
    modifies image.data
    ensures image.data[..] == Drawn(old(image.data[..]), image.width, color, lines)
  {
    var data, w := image.data, image.width;
    ghost var d0 := data[..];
    for i := 0 to |lines|
      invariant data[..] == Drawn(d0, w, color, lines[..i])
    {
      var line := lines[i];
      assert InBounds(line, w, image.height);
      DrawLineInPlace(data, w, image.height, color, line);
      assert lines[..i + 1][..i] == lines[..i];
    }
    assert lines[..|lines|] == lines;
  }

  /** The column loop of `drawLines` over one line. */
  method DrawLineInPlace(data: array<Byte>, w: int, h: int, color: RGBA, line: Scanline)
    requires data.Length == w * h * 4 && InBounds(line, w, h)
    modifies data
    ensures data[..] == DrawLine(old(data[..]), w, color, line)
  {
    ghost var start := data[..];
    assert DrawSpan(start, w, color, line.y, line.x1, line.x1) == start;
    for j := line.x1 to line.x2 + 1
      invariant data[..] == DrawSpan(start, w, color, line.y, line.x1, j)
    {
      DrawPixel(data, w, h, color, line.y, line.x1, j, start);
    }
  }

  /** One round of the column loop: the three colour bytes of pixel `(j, y)`
      blended with the colour. */
  method DrawPixel(data: array<Byte>, w: int, h: int, color: RGBA, y: int, x1: int, j: int, ghost start: seq<Byte>)
    requires data.Length == w * h * 4 && 0 <= y < h && 0 <= x1 <= j < w
    requires data[..] == DrawSpan(start, w, color, y, x1, j) && |start| == data.Length
    modifies data
    ensures data[..] == DrawSpan(start, w, color, y, x1, j + 1)
  {
    RowIndex(y, j, w, h);
    var o := (y * w + j) * 4;
    DrawStep(start, w, color, y, x1, j, data[..]);
    var dr, dg, db := data[o + 0], data[o + 1], data[o + 2];
    data[o + 0] := Blend(dr, color.r, color.a);
    data[o + 1] := Blend(dg, color.g, color.a);
    data[o + 2] := Blend(db, color.b, color.a);
  }
  /** A colour byte is in a line's span exactly when its pixel is one the
      line covers. */
  lemma InLineSpan(w: int, l: Scanline, k: int)
    requires k >= 0
    ensures InSpan(w, l.y, l.x1, l.x2 + 1, k) <==> k % 4 < 3 && k / 4 in LinePixels(l, w)
  {
    ByteInRow(w, l.y, l.x1, l.x2 + 1, k);
  }

  /** `drawLines` writes only the colour bytes of covered pixels: alpha bytes
      and every byte of every other pixel keep their value. */
  lemma {:induction false} DrawnUnchanged(d: seq<Byte>, w: int, color: RGBA, lines: seq<Scanline>, k: int)
    requires 0 <= k < |d|
    requires k % 4 == 3 || k / 4 !in Covered(lines, w)
    ensures Drawn(d, w, color, lines)[k] == d[k]
  {
    if |lines| > 0 {
      var init, l := lines[..|lines| - 1], lines[|lines| - 1];
      DrawnUnchanged(d, w, color, init, k);
      InLineSpan(w, l, k);
    }
  }

  /** A fully opaque blend is the source channel. */
  lemma BlendOpaque(d: int, s: int)
    requires 0 <= s <= 255
    ensures Blend(d, s, 255) == s
  {
    assert (d * (255 - 255) + s * 255) as real / 255.0 == s as real;
    TruncOfInt(s);
  }

  /** With `a = 255` every colour byte of a covered pixel becomes the colour's
      channel, however often the pixel is covered. */
  lemma {:induction false} DrawnOpaque(d: seq<Byte>, w: int, color: RGBA, lines: seq<Scanline>, k: int)
    requires 0 <= k < |d| && IsByteColor(color) && color.a == 255
    requires k % 4 < 3 && k / 4 in Covered(lines, w)
    ensures Drawn(d, w, color, lines)[k] == Channel(color, k % 4)
  {
    var init, l := lines[..|lines| - 1], lines[|lines| - 1];
    InLineSpan(w, l, k);
    if k / 4 in LinePixels(l, w) {
      BlendOpaque(Drawn(d, w, color, init)[k], Channel(color, k % 4));
    } else {
      DrawnOpaque(d, w, color, init, k);
    }
  }

  /** Each byte of the result depends only on the same byte of the input. */
  lemma {:induction false} DrawnLocal(d1: seq<Byte>, d2: seq<Byte>, w: int, color: RGBA, lines: seq<Scanline>, k: int)
    requires |d1| == |d2| && 0 <= k < |d1| && d1[k] == d2[k]
    ensures Drawn(d1, w, color, lines)[k] == Drawn(d2, w, color, lines)[k]
  {
    if |lines| > 0 {
      DrawnLocal(d1, d2, w, color, lines[..|lines| - 1], k);
    }
  }

  /** When no pixel is covered twice, a covered colour byte is blended
      exactly once, from its original value. */
  lemma {:induction false} DrawnOnce(d: seq<Byte>, w: int, color: RGBA, lines: seq<Scanline>, k: int)
    requires 0 <= k < |d| && Distinct(Covered(lines, w))
    requires k % 4 < 3 && k / 4 in Covered(lines, w)
    ensures Drawn(d, w, color, lines)[k] == Blend(d[k], Channel(color, k % 4), color.a)
  {
    var init, l := lines[..|lines| - 1], lines[|lines| - 1];
    InLineSpan(w, l, k);
    DistinctSplit(Covered(init, w), LinePixels(l, w));
    if k / 4 in LinePixels(l, w) {
      DrawnUnchanged(d, w, color, init, k);
    } else {
      DrawnOnce(d, w, color, init, k);
    }
  }

  /** The two halves of a list without repeats have none and share none. */
  lemma DistinctSplit(ps: seq<int>, qs: seq<int>)
    requires Distinct(ps + qs)
    ensures Distinct(ps) && Distinct(qs)
    ensures forall p :: p in ps ==> p !in qs
  {
    forall i, j | 0 <= i < j < |ps|
      ensures ps[i] != ps[j]
    {
      assert (ps + qs)[i] == ps[i] && (ps + qs)[j] == ps[j];
    }
    forall i, j | 0 <= i < j < |qs|
      ensures qs[i] != qs[j]
    {
      assert (ps + qs)[|ps| + i] == qs[i] && (ps + qs)[|ps| + j] == qs[j];
    }
    forall p | p in ps
      ensures p !in qs
    {
      var i :| 0 <= i < |ps| && ps[i] == p;
      forall j | 0 <= j < |qs|
        ensures qs[j] != p
      {
        assert (ps + qs)[i] == ps[i] && (ps + qs)[|ps| + j] == qs[j];
      }
    }
  }
  // ---------------------------------------------------------------------
  // The partial path of a worker

  /** The changes over a list of pixels read `after` only on those pixels. */
  lemma {:induction false} DeltaSeqSameAfter(t: seq<Byte>, before: seq<Byte>, a1: seq<Byte>, a2: seq<Byte>, ps: seq<int>)
    requires forall p :: p in ps ==> SameColor(a1, a2, p)
    ensures DeltaSeq(t, before, a1, ps) == DeltaSeq(t, before, a2, ps)
  {
    if |ps| > 0 {
      DeltaSeqSameAfter(t, before, a1, a2, ps[..|ps| - 1]);
      assert ps[|ps| - 1] in ps;
    }
  }

  /** The partial score reads the new buffer only on the covered pixels. */
  lemma PartialOfSameAfter(w: int, h: int, t: seq<Byte>, before: seq<Byte>, a1: seq<Byte>, a2: seq<Byte>,
                           score: Energy, lines: seq<Scanline>)
    requires |a1| == |a2|
    requires forall p :: p in Covered(lines, w) ==> SameColor(a1, a2, p)
    ensures PartialOf(w, h, t, before, a1, score, lines) == PartialOf(w, h, t, before, a2, score, lines)
  {
    DeltaSeqSameAfter(t, before, a1, a2, Covered(lines, w));
  }

  /** The bytes that `SameColor` compares. */
  lemma SameColorBytes(a: seq<Byte>, b: seq<Byte>, p: int)
    requires 0 <= p && p * 4 + 3 < |a| && |a| == |b|
    ensures SameColor(a, b, p) <==> a[p * 4] == b[p * 4] && a[p * 4 + 1] == b[p * 4 + 1] && a[p * 4 + 2] == b[p * 4 + 2]
  {
  }

  /** The scratch buffer after `copyLines(buffer, current, lines)` and then
      `drawLines(buffer, color, lines)`. */
  function PartialBuffer(buf: seq<Byte>, cur: seq<Byte>, w: int, color: RGBA, lines: seq<Scanline>): (r: seq<Byte>)
    requires |buf| == |cur|
    ensures |r| == |buf|
  {
    Drawn(CopiedOf(buf, cur, lines, w), w, color, lines)
  }

  /** Drawing leaves the colour of an uncovered pixel alone. */
  lemma DrawnKeepsPixel(d: seq<Byte>, w: int, color: RGBA, lines: seq<Scanline>, p: int)
    requires 0 <= p && p * 4 + 3 < |d| && p !in Covered(lines, w)
    ensures SameColor(d, Drawn(d, w, color, lines), p)
  {
    assert (p * 4) / 4 == p && (p * 4 + 1) / 4 == p && (p * 4 + 2) / 4 == p;
    DrawnUnchanged(d, w, color, lines, p * 4);
    DrawnUnchanged(d, w, color, lines, p * 4 + 1);
    DrawnUnchanged(d, w, color, lines, p * 4 + 2);
    SameColorBytes(d, Drawn(d, w, color, lines), p);
  }

  /** The condition under which the two paths agree on one covered pixel. */
  predicate FreshEnds(buf: seq<Byte>, cur: seq<Byte>, w: int, color: RGBA, lines: seq<Scanline>)
  {
    color.a == 255 || forall i :: 0 <= i < |lines| ==> SameColor(buf, cur, LineEnd(lines[i], w))
  }

  /** On a covered colour byte the two paths agree: an opaque colour
      overwrites both, otherwise both blend the same byte of `current`. */
  lemma PartialByte(buf: seq<Byte>, cur: seq<Byte>, w: int, color: RGBA, lines: seq<Scanline>, p: int, c: int)
    requires |buf| == |cur| && 0 <= p && p * 4 + 3 < |cur| && 0 <= c < 3
    requires p in Covered(lines, w) && IsByteColor(color) && FreshEnds(buf, cur, w, color, lines)
    ensures PartialBuffer(buf, cur, w, color, lines)[p * 4 + c] == Drawn(cur, w, color, lines)[p * 4 + c]
  {
    var k := p * 4 + c;
    var copied := CopiedOf(buf, cur, lines, w);
    PixelByte(p, k);
    if color.a == 255 {
      DrawnOpaque(copied, w, color, lines, k);
      DrawnOpaque(cur, w, color, lines, k);
    } else {
      CopiedCurrent(buf, cur, w, lines, p, k);
      DrawnLocal(copied, cur, w, color, lines, k);
    }
  }

  /** After `copyLines` a covered pixel holds `current`'s colour when every
      line's last pixel already did. */
  lemma CopiedCurrent(buf: seq<Byte>, cur: seq<Byte>, w: int, lines: seq<Scanline>, p: int, k: int)
    requires |buf| == |cur| && 0 <= p && p * 4 <= k < p * 4 + 3 && k < |cur|
    requires p in Covered(lines, w)
    requires forall i :: 0 <= i < |lines| ==> SameColor(buf, cur, LineEnd(lines[i], w))
    ensures CopiedOf(buf, cur, lines, w)[k] == cur[k]
  {
    PixelByte(p, k);
    if p !in CopiedPixels(lines, w) {
      CopiedPixelsCovered(lines, w);
      var i :| 0 <= i < |lines| && LineEnd(lines[i], w) == p;
      assert SameColor(buf, cur, p);
    }
  }

  lemma PartialPixel(buf: seq<Byte>, cur: seq<Byte>, w: int, color: RGBA, lines: seq<Scanline>, p: int)
    requires |buf| == |cur| && 0 <= p && p * 4 + 3 < |cur|
    requires p in Covered(lines, w) && IsByteColor(color) && FreshEnds(buf, cur, w, color, lines)
    ensures SameColor(PartialBuffer(buf, cur, w, color, lines), Drawn(cur, w, color, lines), p)
  {
    var after, full := PartialBuffer(buf, cur, w, color, lines), Drawn(cur, w, color, lines);
    PartialByte(buf, cur, w, color, lines, p, 0);
    PartialByte(buf, cur, w, color, lines, p, 1);
    PartialByte(buf, cur, w, color, lines, p, 2);
    assert after[p * 4] == full[p * 4] && after[p * 4 + 1] == full[p * 4 + 1] && after[p * 4 + 2] == full[p * 4 + 2];
    SameColorBytes(after, full, p);
  }

  /** Drawing changes only covered pixels, so when no pixel is covered twice
      the incremental update from a full snapshot of the image before drawing
      gives exactly the energy of the image after drawing. */
  lemma DrawnIsExact(w: int, h: int, t: seq<Byte>, cur: seq<Byte>, color: RGBA, lines: seq<Scanline>)
    requires w >= 0 && h >= 0 && |t| == w * h * 4 && |cur| == |t|
    requires AllInBounds(lines, w, h) && Distinct(Covered(lines, w))
    ensures DifferenceOf(w, h, t, cur).Ok?
    ensures PartialOf(w, h, t, cur, Drawn(cur, w, color, lines), DifferenceOf(w, h, t, cur).value, lines)
         == DifferenceOf(w, h, t, Drawn(cur, w, color, lines))
  {
    var full := Drawn(cur, w, color, lines);
    forall p | 0 <= p < w * h && p !in Covered(lines, w)
      ensures SameColor(cur, full, p)
    {
      RowIndex(0, p, w * h, 1);
      DrawnKeepsPixel(cur, w, color, lines, p);
    }
    PartialIsExact(w, h, t, cur, full, lines);
  }

  /** The partial path of `Worker.energy` agrees with the full path when the
      lines cover no pixel twice and either the colour is opaque or the
      scratch buffer already holds `current`'s colour at the last pixel of
      every line, the one pixel per line that `copyLines` does not refresh. */
  lemma PartialPathExact(w: int, h: int, t: seq<Byte>, cur: seq<Byte>, buf: seq<Byte>, color: RGBA, lines: seq<Scanline>)
    requires w >= 0 && h >= 0 && |t| == w * h * 4 && |cur| == |t| && |buf| == |t|
    requires AllInBounds(lines, w, h) && Distinct(Covered(lines, w)) && IsByteColor(color)
    requires FreshEnds(buf, cur, w, color, lines)
    ensures DifferenceOf(w, h, t, cur).Ok?
    ensures PartialOf(w, h, t, cur, PartialBuffer(buf, cur, w, color, lines), DifferenceOf(w, h, t, cur).value, lines)
         == DifferenceOf(w, h, t, Drawn(cur, w, color, lines))
  {
    var cov := Covered(lines, w);
    var full := Drawn(cur, w, color, lines);
    var after := PartialBuffer(buf, cur, w, color, lines);
    DrawnIsExact(w, h, t, cur, color, lines);
    CoveredInCanvas(lines, w, h);
    forall p | p in cov
      ensures SameColor(after, full, p)
    {
      RowIndex(0, p, w * h, 1);
      PartialPixel(buf, cur, w, color, lines, p);
    }
    PartialOfSameAfter(w, h, t, cur, after, full, DifferenceOf(w, h, t, cur).value, lines);
  }
  // ---------------------------------------------------------------------
  // getMeanColor

  /** Channel `ch` summed over pixels `0 .. n-1`. */
  function ChannelTotal(data: seq<Byte>, ch: int, n: int): nat
  {
    if n <= 0 then 0 else ChannelTotal(data, ch, n - 1) + Px(data, n - 1, ch)
  }

  /** `(total / n) | 0`; the `0 / 0` of an empty image is `NaN`, which `|0`
      turns into 0. */
  function MeanOf(total: nat, n: int): int
  {
    if n <= 0 then 0 else total / n
  }

  /** `getMeanColor` of an image of `n` pixels. */
  function MeanColorOf(data: seq<Byte>, n: int): RGBA
  {
    RGBA(MeanOf(ChannelTotal(data, 0, n), n), MeanOf(ChannelTotal(data, 1, n), n),
         MeanOf(ChannelTotal(data, 2, n), n), 255)
  }

  /** `getMeanColor(image)` with its nested row and column loops. */
  method GetMeanColor(image: Image) returns (color: RGBA)
    requires Valid(image)
    ensures color == MeanColorOf(image.data[..], image.width * image.height)
  {
    var data, w, h := image.data, image.width, image.height;
    ghost var d := data[..];
    var r, g, b := 0, 0, 0;
    for i := 0 to h
      invariant r == ChannelTotal(d, 0, i * w) && g == ChannelTotal(d, 1, i * w) && b == ChannelTotal(d, 2, i * w)
    {
      for j := 0 to w
        invariant r == ChannelTotal(d, 0, i * w + j) && g == ChannelTotal(d, 1, i * w + j) && b == ChannelTotal(d, 2, i * w + j)
      {
        RowIndex(i, j, w, h);
        var o := (i * w + j) * 4;
        assert o + 3 < data.Length;
        r := r + data[o + 0];
        g := g + data[o + 1];
        b := b + data[o + 2];
      }
      NextRow(i, w);
    }
    assert h * w == w * h;
    var n := w * h;
    if n == 0 {
      color := RGBA(0, 0, 0, 255);
    } else {
      color := RGBA(r / n, g / n, b / n, 255);
    }
  }

  lemma {:induction false} ChannelTotalBound(data: seq<Byte>, ch: int, n: int)
    ensures ChannelTotal(data, ch, n) <= 255 * Max(0, n)
  {
    if n > 0 {
      ChannelTotalBound(data, ch, n - 1);
    }
  }

  lemma MeanOfBound(total: nat, n: int)
    requires total <= 255 * Max(0, n)
    ensures 0 <= MeanOf(total, n) <= 255
  {
    if n > 0 && total / n > 255 {
      assert total / n * n >= 256 * n by {
        MulMono(256, total / n, n);
      }
    }
  }

  /** The mean colour is opaque and every channel is a byte. */
  lemma MeanColorIsByte(data: seq<Byte>, n: int)
    ensures IsByteColor(MeanColorOf(data, n)) && MeanColorOf(data, n).a == 255
  {
    ChannelTotalBound(data, 0, n);
    ChannelTotalBound(data, 1, n);
    ChannelTotalBound(data, 2, n);
    MeanOfBound(ChannelTotal(data, 0, n), n);
    MeanOfBound(ChannelTotal(data, 1, n), n);
    MeanOfBound(ChannelTotal(data, 2, n), n);
  }

  lemma {:induction false} ChannelTotalUniform(data: seq<Byte>, ch: int, n: int, v: int)
    requires forall p :: 0 <= p < n ==> Px(data, p, ch) == v
    ensures ChannelTotal(data, ch, n) == v * Max(0, n)
  {
    if n > 0 {
      ChannelTotalUniform(data, ch, n - 1, v);
    }
  }

  /** On an image whose pixels all have the colour `(r, g, b)` the mean is
      exactly `(r, g, b, 255)`. */
  lemma MeanColorUniform(data: seq<Byte>, n: int, r: int, g: int, b: int)
    requires n > 0
    requires forall p :: 0 <= p < n ==> Px(data, p, 0) == r && Px(data, p, 1) == g && Px(data, p, 2) == b
    ensures MeanColorOf(data, n) == RGBA(r, g, b, 255)
  {
    ChannelTotalUniform(data, 0, n, r);
    ChannelTotalUniform(data, 1, n, g);
    ChannelTotalUniform(data, 2, n, b);
    assert Px(data, 0, 0) == r && Px(data, 0, 1) == g && Px(data, 0, 2) == b;
    DivExact(r, n);
    DivExact(g, n);
    DivExact(b, n);
  }

  lemma DivExact(v: int, n: int)
    requires n > 0
    ensures (v * n) / n == v
  {
    var q, m := (v * n) / n, (v * n) % n;
    assert q * n + m == v * n;
    if q < v {
      MulMono(q + 1, v, n);
    } else if q > v {
      MulMono(v + 1, q, n);
    }
  }
  // ---------------------------------------------------------------------
  // computeColor

  /** What one covered pixel adds to channel `ch`:
      `(t - c) * (255 / alpha) + c`. */
  function Term(t: seq<Byte>, c: seq<Byte>, p: int, ch: int, alpha: int): real
    requires alpha != 0
  {
    (Px(t, p, ch) - Px(c, p, ch)) as real * (255.0 / alpha as real) + Px(c, p, ch) as real
  }

  /** The terms summed over the listed pixels. */
  function ChannelSum(t: seq<Byte>, c: seq<Byte>, ps: seq<int>, ch: int, alpha: int): real
    requires alpha != 0
  {
    if |ps| == 0 then 0.0
    else ChannelSum(t, c, ps[..|ps| - 1], ch, alpha) + Term(t, c, ps[|ps| - 1], ch, alpha)
  }

  /** `Math.max(0, Math.min(255, sum / count)) | 0` when some pixel was
      covered, and the initial 0 otherwise. */
  function MeanChannel(sum: real, count: int): (v: int)
    ensures count > 0 ==> 0 <= v <= 255
    ensures count <= 0 ==> v == 0
  {
    if count > 0 then Trunc(Clamp(0.0, 255.0, sum / count as real)) else 0
  }

  /** `computeColor(target, current, lines, alpha)`: the colour that,
      composited at `alpha` over `current`, reproduces the target's mean over
      the covered pixels, clamped to bytes. */
  function ComputeColorOf(t: seq<Byte>, c: seq<Byte>, w: int, lines: seq<Scanline>, alpha: int): (color: RGBA)
    requires alpha != 0
    ensures color.a == alpha
    ensures |Covered(lines, w)| > 0 ==> 0 <= color.r <= 255 && 0 <= color.g <= 255 && 0 <= color.b <= 255
    ensures |Covered(lines, w)| == 0 ==> color.r == 0 && color.g == 0 && color.b == 0
  {
    var ps := Covered(lines, w);
    RGBA(MeanChannel(ChannelSum(t, c, ps, 0, alpha), |ps|), MeanChannel(ChannelSum(t, c, ps, 1, alpha), |ps|),
         MeanChannel(ChannelSum(t, c, ps, 2, alpha), |ps|), alpha)
  }

  lemma {:induction false} ChannelSumAppend(t: seq<Byte>, c: seq<Byte>, ps: seq<int>, qs: seq<int>, ch: int, alpha: int)
    requires alpha != 0
    ensures ChannelSum(t, c, ps + qs, ch, alpha) == ChannelSum(t, c, ps, ch, alpha) + ChannelSum(t, c, qs, ch, alpha)
    decreases |qs|
  {
    if |qs| == 0 {
      assert ps + qs == ps;
    } else {
      assert (ps + qs)[..|ps + qs| - 1] == ps + qs[..|qs| - 1];
      ChannelSumAppend(t, c, ps, qs[..|qs| - 1], ch, alpha);
    }
  }

  /** One pixel of the column loop of `computeColor`, for channel `ch`. */
  lemma ColorStep(t: seq<Byte>, c: seq<Byte>, w: int, y: int, x1: int, j: int, ch: int, alpha: int)
    requires alpha != 0 && x1 <= j
    ensures ChannelSum(t, c, RowPixels(w, y, x1, j + 1), ch, alpha)
         == ChannelSum(t, c, RowPixels(w, y, x1, j), ch, alpha) + Term(t, c, y * w + j, ch, alpha)
  {
    var ps := RowPixels(w, y, x1, j);
    assert RowPixels(w, y, x1, j + 1) == ps + [y * w + j];
    assert (ps + [y * w + j])[..|ps|] == ps;
  }

  /** What pixel `p` adds to channel `ch` in the column loop of
      `computeColor`, with `a = 255 / alpha`. */
  method PixelTerm(dataT: array<Byte>, dataC: array<Byte>, p: int, ch: int, alpha: int, a: real) returns (v: real)
    requires 0 <= p && 0 <= ch < 3 && p * 4 + ch < dataT.Length && p * 4 + ch < dataC.Length
    requires alpha != 0 && a == 255.0 / alpha as real
    ensures v == Term(dataT[..], dataC[..], p, ch, alpha)
  {
    var tv, cv := dataT[p * 4 + ch], dataC[p * 4 + ch];
    v := (tv as int - cv as int) as real * a + cv as real;
  }

  /** The column loop of `computeColor` over one line: the three channel
      sums of its pixels and their number. */
  method ColorLine(dataT: array<Byte>, dataC: array<Byte>, w: int, h: int, line: Scanline, alpha: int, a: real)
    returns (r: real, g: real, b: real, count: int)
    requires dataT.Length == w * h * 4 && dataC.Length == dataT.Length
    requires InBounds(line, w, h) && alpha != 0 && a == 255.0 / alpha as real
    ensures count == |LinePixels(line, w)|
    ensures r == ChannelSum(dataT[..], dataC[..], LinePixels(line, w), 0, alpha)
    ensures g == ChannelSum(dataT[..], dataC[..], LinePixels(line, w), 1, alpha)
    ensures b == ChannelSum(dataT[..], dataC[..], LinePixels(line, w), 2, alpha)
  {
    ghost var t, c := dataT[..], dataC[..];
    r, g, b, count := 0.0, 0.0, 0.0, 0;
    RowPixelsAre(w, line.y, line.x1, line.x1);
    for j := line.x1 to line.x2 + 1
      invariant count == j - line.x1
      invariant r == ChannelSum(t, c, RowPixels(w, line.y, line.x1, j), 0, alpha)
      invariant g == ChannelSum(t, c, RowPixels(w, line.y, line.x1, j), 1, alpha)
      invariant b == ChannelSum(t, c, RowPixels(w, line.y, line.x1, j), 2, alpha)
    {
      r, g, b := ColorPixel(dataT, dataC, w, h, line.y, line.x1, j, alpha, a, r, g, b);
      count := count + 1;
    }
    RowPixelsAre(w, line.y, line.x1, line.x2 + 1);
  }

  /** One round of the column loop of `computeColor`: pixel `(j, y)` added
      to the three channel sums of the pixels `x1 .. j - 1` of row `y`. */
  method ColorPixel(dataT: array<Byte>, dataC: array<Byte>, w: int, h: int, y: int, x1: int, j: int,
                    alpha: int, a: real, r: real, g: real, b: real)
    returns (r': real, g': real, b': real)
    requires dataT.Length == w * h * 4 && dataC.Length == dataT.Length
    requires 0 <= y < h && 0 <= x1 <= j < w && alpha != 0 && a == 255.0 / alpha as real
    requires r == ChannelSum(dataT[..], dataC[..], RowPixels(w, y, x1, j), 0, alpha)
    requires g == ChannelSum(dataT[..], dataC[..], RowPixels(w, y, x1, j), 1, alpha)
    requires b == ChannelSum(dataT[..], dataC[..], RowPixels(w, y, x1, j), 2, alpha)
    ensures r' == ChannelSum(dataT[..], dataC[..], RowPixels(w, y, x1, j + 1), 0, alpha)
    ensures g' == ChannelSum(dataT[..], dataC[..], RowPixels(w, y, x1, j + 1), 1, alpha)
    ensures b' == ChannelSum(dataT[..], dataC[..], RowPixels(w, y, x1, j + 1), 2, alpha)
  {
    RowIndex(y, j, w, h);
    var p := y * w + j;
    var dr := PixelTerm(dataT, dataC, p, 0, alpha, a);
    var dg := PixelTerm(dataT, dataC, p, 1, alpha, a);
    var db := PixelTerm(dataT, dataC, p, 2, alpha, a);
    ColorStep(dataT[..], dataC[..], w, y, x1, j, 0, alpha);
    ColorStep(dataT[..], dataC[..], w, y, x1, j, 1, alpha);
    ColorStep(dataT[..], dataC[..], w, y, x1, j, 2, alpha);
    r', g', b' := r + dr, g + dg, b + db;
  }

  /** `computeColor` with its loops over the lines and their pixels. */
  method ComputeColor(target: Image, current: Image, lines: seq<Scanline>, alpha: int) returns (color: RGBA)
    requires Valid(target) && current.data.Length == target.data.Length
    requires AllInBounds(lines, target.width, target.height)
    requires alpha != 0
    ensures color == ComputeColorOf(target.data[..], current.data[..], target.width, lines, alpha)
  {
    var w, h := target.width, target.height;
    var dataT, dataC := target.data, current.data;
    ghost var t, c := dataT[..], dataC[..];
    var a := 255.0 / alpha as real;
    var count := 0;
    var r, g, b := 0.0, 0.0, 0.0;
    for i := 0 to |lines|
      invariant count == |Covered(lines[..i], w)|
      invariant r == ChannelSum(t, c, Covered(lines[..i], w), 0, alpha)
      invariant g == ChannelSum(t, c, Covered(lines[..i], w), 1, alpha)
      invariant b == ChannelSum(t, c, Covered(lines[..i], w), 2, alpha)
    {
      var line := lines[i];
      assert InBounds(line, w, h);
      ghost var done := Covered(lines[..i], w);
      var lr, lg, lb, n := ColorLine(dataT, dataC, w, h, line, alpha, a);
      r, g, b, count := r + lr, g + lg, b + lb, count + n;
      CoveredNext(lines, i, w);
      ChannelSumAppend(t, c, done, LinePixels(line, w), 0, alpha);
      ChannelSumAppend(t, c, done, LinePixels(line, w), 1, alpha);
      ChannelSumAppend(t, c, done, LinePixels(line, w), 2, alpha);
    }
    assert lines[..|lines|] == lines;
    var cr, cg, cb := 0, 0, 0;
    if count > 0 {
      cr := Trunc(Clamp(0.0, 255.0, r / count as real));
      cg := Trunc(Clamp(0.0, 255.0, g / count as real));
      cb := Trunc(Clamp(0.0, 255.0, b / count as real));
    }
    color := RGBA(cr, cg, cb, alpha);
  }
  /** Channel `ch` of the target summed over the listed pixels. */
  function TargetTotal(t: seq<Byte>, ps: seq<int>, ch: int): nat
  {
    if |ps| == 0 then 0 else TargetTotal(t, ps[..|ps| - 1], ch) + Px(t, ps[|ps| - 1], ch)
  }

  /** At `alpha = 255` each term is the target's own channel. */
  lemma {:induction false} ChannelSumOpaque(t: seq<Byte>, c: seq<Byte>, ps: seq<int>, ch: int)
    ensures ChannelSum(t, c, ps, ch, 255) == TargetTotal(t, ps, ch) as real
    ensures TargetTotal(t, ps, ch) <= 255 * |ps|
  {
    if |ps| > 0 {
      ChannelSumOpaque(t, c, ps[..|ps| - 1], ch);
      assert 255.0 / 255 as real == 1.0;
    }
  }

  lemma MulMonoReal(a: real, b: real, c: real)
    requires a <= b && c >= 0.0
    ensures a * c <= b * c
  {
    assert b * c - a * c == (b - a) * c;
  }

  /** Truncating an exact quotient of naturals is integer division. */
  lemma TruncQuotient(n: nat, m: int)
    requires m > 0
    ensures Trunc(n as real / m as real) == n / m
  {
    var q, r := n / m, n % m;
    var x, mr := n as real / m as real, m as real;
    assert x * mr == n as real;
    assert n as real == q as real * mr + r as real;
    assert r as real < mr;
    if x < q as real {
      MulMonoReal(x, q as real, mr);
    }
    if x >= q as real + 1.0 {
      MulMonoReal(q as real + 1.0, x, mr);
      assert false;
    }
    assert q >= 0 && q as real <= x < q as real + 1.0;
    assert x.Floor == q;
  }

  lemma MeanChannelOpaque(total: nat, count: int)
    requires count > 0 && total <= 255 * count
    ensures MeanChannel(total as real, count) == total / count
  {
    var x, cr := total as real / count as real, count as real;
    assert x * cr == total as real;
    if x > 255.0 {
      MulMonoReal(255.0, x, cr);
    }
    TruncQuotient(total, count);
  }

  /** With `alpha = 255` the colour is the truncated mean of the target over
      the covered pixels. */
  lemma ComputeColorOpaque(t: seq<Byte>, c: seq<Byte>, w: int, lines: seq<Scanline>)
    requires |Covered(lines, w)| > 0
    ensures var ps := Covered(lines, w);
      ComputeColorOf(t, c, w, lines, 255)
        == RGBA(TargetTotal(t, ps, 0) / |ps|, TargetTotal(t, ps, 1) / |ps|, TargetTotal(t, ps, 2) / |ps|, 255)
  {
    var ps := Covered(lines, w);
    ChannelSumOpaque(t, c, ps, 0);
    ChannelSumOpaque(t, c, ps, 1);
    ChannelSumOpaque(t, c, ps, 2);
    MeanChannelOpaque(TargetTotal(t, ps, 0), |ps|);
    MeanChannelOpaque(TargetTotal(t, ps, 1), |ps|);
    MeanChannelOpaque(TargetTotal(t, ps, 2), |ps|);
  }
}
