# archaic, modelled in Dafny

archaic approximates a target RGBA picture by a sequence of semi-transparent
primitives (rectangles, rotated rectangles, ellipses and circles, rotated
ellipses, triangles). Each step draws random candidate shapes, scores each
one by the squared colour error the picture would have with that shape
composited in the best colour, improves the best candidate by hill climbing,
and commits it to the canvas. This project models that engine in five
layers, each in the form the source has:

- **Scan conversion** (`scanline.dfy`, `rasterize.dfy` and the shape
  files): the `Scanline` constructor and `filter`, the Bresenham-based
  polygon rasteriser with `minMaxElements`, and each shape's own
  rasteriser.
- **Energy arithmetic** (`core.dfy`, `context.dfy`, `color.dfy`): mean
  colour, the blend colour of `computeColor`, the full squared error of
  `difference`, the incremental update of `differencePartial`, and the
  in-place `copyLines` and `drawLines` over flat byte buffers, with
  `createImage` and `hex`.
- **Shapes** (`rectangle.dfy`, `ellipse.dfy`, `triangle.dfy`,
  `rotated-rectangle.dfy`, `rotated-ellipse.dfy`, `factory.dfy`,
  `random.dfy`): random construction, `mutate`, rasterisation and the SVG
  element, as values; the random draws are parameters.
- **Search** (`state.dfy`, `optimize.dfy`): the `State` class with its
  alpha policy and cached score, `hillClimb`, `getBestRandomState` and
  `getBestHillClimbState` as loops over objects.
- **Coordination** (`worker.dfy`, `model.dfy`): the `Worker` class with its
  private scratch buffer and its two scoring paths, and the `Model` class
  with output scaling, `add`, candidate selection, the extras loop and
  `toSVG` (`svg.dfy` holds the element types).

Energies are the integer sums of squared channel errors that the source
turns into `sqrt(sum / (w*h*3)) / 255`; that last step is monotone, so every
comparison the search makes is also a comparison of sums. An energy is
`Sum(n)` or `NaN` (the square root of a negative reconstructed sum, or
`0/0` on an empty canvas). The central theorem is `Core.PartialIsExact`:
when `after` differs from `before` only on the covered pixels, no pixel is
covered twice and the incoming score is `before`'s energy,
`differencePartial` returns exactly `difference(target, after)`.
`Core.PartialPathExact` and `Workers.PathsAgree` carry it to the two paths
of `Worker.energy`, and `Models.AddIsExact` to `Model.add`, whose score
stays exact as long as no committed shape covers a pixel twice.

Some behaviours of the source are exposed as lemmas rather than hidden: a split
triangle emits its middle row from both halves
(`Triangles.SplitRowTwice`, `Triangles.SplitRowOverlap`,
`Shapes.TriangleRepeatsPixel`), so the no-repeat condition fails for it;
and `copyLines` does not copy the last pixel of a line
(`Core.CopyLeavesLineEnd`), so the partial path of `Worker.energy` agrees
with the full one only under `Core.FreshEnds`. The `!min` and `!max` tests
of `minMaxElements` take a 0 for an unset bound; the model keeps that
behaviour (`Rasterize.MinMaxZeroIsUnset`) and proves exact bounds only for
rows without a column 0 (`Rasterize.MinMaxNoZero`). The one defect logged
under "## Findings", the choice of `randomShapeType`, is modelled both as
written and corrected. The factory `Shapes.New`, which `State.create` and
the searches use, follows the code as written, so `random` always builds a
triangle there; `Shapes.NewIntended` is the factory with the corrected
choice, and the three-kind property is proved about it.

## Model

| member | source | states |
|---|---|---|
| Numbers.Trunc | lib/scanline.ts:13-15 | `x \| 0` truncates toward zero: the result is the integer part, at most `x` and above `x - 1` for `x >= 0`, at least `x` and below `x + 1` for negative `x` |
| Numbers.TruncMonotone | lib/scanline.ts:7-15 | truncation never reverses an order, so the swapped ends stay ordered after `\|0` |
| Numbers.ClampInt | lib/scanline.ts:27-28 | `Math.max(lo, Math.min(hi, v))` lies in `[lo, hi]` when `lo <= hi`, is `v` inside the range, and is one of `lo`, `hi`, `v` |
| Numbers.Clamp | src/lib/shapes/rectangle.ts:63-73 | the same clamp on reals, used by every `mutate` |
| Random.Float | lib/random.ts:1-6 | `rand / 2^32` lies in `[0, 1)` for every 32-bit draw |
| Random.IntInRange | lib/random.ts:8-9 | for `min <= max`, `int(min, max)` lies in `[min, max]` |
| Random.IntDefaultIsBit | lib/random.ts:8 | with the defaults `min = 0`, `max = 1`, `int()` is 0 or 1 |
| Random.IntEmptyRange | lib/random.ts:8-9 | `int(min, min - 1)` is `min` whatever was drawn |
| Color.ToBase16 | src/lib/color.ts:11-13 | `toString(16)` of a non-negative value is a non-empty string of lowercase hexadecimal digits |
| Color.PadStart | src/lib/color.ts:11-13 | `padStart(n, '0')` has length `max(n, \|s\|)`, keeps `s` at its end and fills the front with `0` |
| Color.GroupOfByte | src/lib/color.ts:11-13 | a byte is written as exactly two lowercase digits, high digit first, with a leading `0` below 16 |
| Color.GroupRoundTrip | src/lib/color.ts:11-13 | the two digits of a byte read back as that byte |
| Color.HexRoundTrip | src/lib/color.ts:8-14 | for byte channels `hex` is 7 characters, `#` then the groups of `r`, `g`, `b` in that order, each reading back as its channel |
| Color.HexIgnoresAlpha | src/lib/color.ts:8-14 | the alpha channel does not change `hex` |
| Context.ToByte | src/lib/context.ts:57-60 | a store into a `Uint8ClampedArray` keeps a byte value unchanged |
| Context.FilledPixels | src/lib/context.ts:52-62 | without a colour every byte is 0; with a byte colour every pixel's four bytes are `(r, g, b, a)` |
| Context.SetPixel | src/lib/context.ts:56-60 | one fill step writes the four channels at offset `o` and no other byte |
| Context.Set | lib/worker.ts:61 | `dest.set(src)` copies `src` onto the front of `dest` and keeps the rest |
| Context.CreateImage | src/lib/context.ts:44-69 | non-positive dimensions are rejected before allocation; otherwise a fresh buffer of `width*height*4` bytes with the dimensions echoed, holding `Filled` (all zero, or the colour on every pixel); the twin at lib/context.ts:35-60 is the same |
| Scanlines.New | lib/scanline.ts:6-16 | the ends are put in order before truncation, so `x1 <= x2`; `y`, `x1`, `x2` are the truncations of `y`, the smaller and the larger end |
| Scanlines.Filter | lib/scanline.ts:18-32 | at most as many lines as the input, and every kept line has `0 <= y < height` and `0 <= x1 < x2 <= width - 1` |
| Scanlines.FilterInBounds | lib/scanline.ts:20-30 | every kept line lies on the canvas in the sense the core needs |
| Scanlines.FilterIsSubsequence | lib/scanline.ts:19-31 | the output is the clamp of an increasing list of input positions, and a position is listed exactly when its line passes the row test, the column test (both before any clamping) and the width test |
| Scanlines.FilterDistinctRows | lib/scanline.ts:19-31 | when the input lines lie on pairwise different rows, so do the kept lines |
| Scanlines.KeptLineIsFixed | lib/scanline.ts:20-30 | a line that satisfies the output bounds passes again and is not changed by the clamp |
| Scanlines.FilterIdempotent | lib/scanline.ts:20-30 | filtering the output of `filter` gives the same lines |
| Scanlines.FilterAppend | lib/scanline.ts:19 | `filter` treats each line on its own, so it distributes over concatenation |
| Scanlines.FilterInPlace | lib/scanline.ts:18-32 | the callback loop returns `Filter` of the input, overwrites `x1`/`x2` of every line that passed the row and column tests (also those then dropped as too narrow) and leaves every other line untouched |
| Rectangles.New | src/lib/shapes/rectangle.ts:13-25 | the constructor keeps the canvas size and takes integer corners from the four `int` draws |
| Rectangles.NewInCanvas | src/lib/shapes/rectangle.ts:20-24 | on a non-empty canvas both corners lie on the canvas and are at most 16 pixels apart on each axis |
| Rectangles.Bounds | src/lib/shapes/rectangle.ts:38-55 | `bounds()` returns the same two x values and the same two y values, each pair swapped into order |
| Rectangles.Mutate | src/lib/shapes/rectangle.ts:57-75 | case 0 of `int(0, 1)` moves only corner 1, case 1 only corner 2; the canvas size is kept |
| Rectangles.MutateMovesOneCorner | src/lib/shapes/rectangle.ts:57-75 | `mutate` keeps the rectangle on the canvas, leaves one corner where it was, and moves the other exactly by `normal() * 16` on each axis where that stays on the canvas (otherwise to the clamp) |
| Rectangles.Lines | src/lib/shapes/rectangle.ts:77-86 | one line for each row the loop `y1 <= y <= y2` of the bounds visits |
| Rectangles.Rasterize | src/lib/shapes/rectangle.ts:77-86 | the row loop pushes exactly `Lines` |
| Rectangles.LinesShape | src/lib/shapes/rectangle.ts:77-86 | line `k` lies on row `trunc(y1) + k` of the bounds and spans the bounds' truncated columns, so the rows ascend one by one; every line is on the canvas |
| Rectangles.LinesIntegral | src/lib/shapes/rectangle.ts:81-83 | with integer corners a row gets a line exactly when it lies between the bounds' `y1` and `y2` |
| Rectangles.LinesDistinct | src/lib/shapes/rectangle.ts:77-86 | a rectangle covers no pixel twice, so the incremental energy is exact for it |
| Rectangles.ToSvg | src/lib/shapes/rectangle.ts:92-98 | a `rect` at the bounds' top-left corner with `width = x2 - x1 + 1 >= 1` and `height = y2 - y1 + 1 >= 1` |
| Ellipses.New | lib/shapes/ellipse.ts:20-33 | the constructor keeps the canvas size and the `circle` option, and a circle's `ry` is its `rx` |
| Ellipses.NewWellFormed | lib/shapes/ellipse.ts:27-32 | on a non-empty canvas the centre is a pixel of the canvas, both radii are integers in `[1, 32]`, and a circle has equal radii |
| Ellipses.Mutate | lib/shapes/ellipse.ts:66-93 | exactly one group changes: the centre (case 0), `rx` (case 1) or `ry` (case 2), the other radius following along only for a circle; canvas size and `circle` are kept |
| Ellipses.MutateWellFormed | lib/shapes/ellipse.ts:66-93 | `mutate` keeps the ellipse well formed, changes either the centre or the radii, clamps a changed `rx` to `[1, max(1, w-1)]` and a changed `ry` to `[1, max(1, h-1)]`, and a circle's other radius follows |
| Ellipses.DyCountIs | lib/shapes/ellipse.ts:100 | the loop visits exactly the `dy = 0, 1, ...` below `ry` |
| Ellipses.Pass | lib/shapes/ellipse.ts:101-118 | one pass of the `dy` loop: skip when both rows are off the canvas, else the span from `sqrt(ry^2 - dy^2) * rx / ry` and the rows that are on the canvas |
| Ellipses.Rasterize | lib/shapes/ellipse.ts:95-122 | the `dy` loop pushes exactly `Lines` |
| Ellipses.LinesOnRows | lib/shapes/ellipse.ts:104-118 | every emitted row lies in `[0, height)` |
| Ellipses.StepRows | lib/shapes/ellipse.ts:108-118 | a pass emits at most the upper row `y - dy` and then the lower row `y + dy`, the latter only for `dy > 0` so the centre row appears once; the two mirrored rows share one span |
| Ellipses.HalfWidthNonNegative | lib/shapes/ellipse.ts:108 | the half-width `s` is never negative when the square root is not |
| Ellipses.StepInBounds | lib/shapes/ellipse.ts:108-110 | every span of a pass has `x1 >= 0`, `x2 <= width - 1` and contains the centre column |
| Ellipses.LinesInBounds | lib/shapes/ellipse.ts:95-122 | every emitted line lies on the canvas and contains the centre column |
| Ellipses.AppendSpans | lib/shapes/ellipse.ts:113-117 | pushing lines that lie on the canvas around the centre column keeps that property |
| Ellipses.RowsDistinct | lib/shapes/ellipse.ts:100-119 | the rows of the first `n` passes are pairwise different and within `n - 1` of the centre row |
| Ellipses.AppendRows | lib/shapes/ellipse.ts:112-118 | adding the mirrored pair of rows `y - dy`, `y + dy` to rows strictly closer to the centre keeps all rows different |
| Ellipses.LinesDistinct | lib/shapes/ellipse.ts:95-122 | an ellipse covers no pixel twice, so the incremental energy is exact for it |
| Ellipses.ToSvg | lib/shapes/ellipse.ts:128-130 | an `ellipse` element with the shape's centre and radii; for a well-formed shape both radii are at least 1, and equal for a circle |
| Triangles.Candidate | src/lib/shapes/triangle.ts:23-30 | one pass of the constructor's `do` loop keeps the canvas size |
| Triangles.CandidateBounds | src/lib/shapes/triangle.ts:22-31 | on a non-empty canvas vertex 1 is on the canvas and vertices 2 and 3 are within 15 pixels of it on each axis, so all lie within `[-16, dim + 16)` |
| Triangles.FirstValid | src/lib/shapes/triangle.ts:22-31 | the constructor's result passes `isValid` and keeps the canvas size; there is none exactly when no attempt passes |
| Triangles.New | src/lib/shapes/triangle.ts:15-32 | the `do ... while (!isValid())` loop returns `FirstValid` of its attempts |
| Triangles.NewBounds | src/lib/shapes/triangle.ts:22-31 | a constructed triangle is the first attempt that passes `isValid`, all earlier attempts fail it, and it lies within the margin |
| Triangles.Perturb | src/lib/shapes/triangle.ts:54-87 | the `switch` moves only the vertex `int(0, 2)` chooses; the other two and the canvas size stay |
| Triangles.PerturbInMargin | src/lib/shapes/triangle.ts:54-87 | the moved vertex is clamped into `[-16, w - 1 + 16] x [-16, h - 1 + 16]`, so the triangle stays within the margin |
| Triangles.Search | src/lib/shapes/triangle.ts:53-97 | the retry loop returns only triangles that pass `isValid`, on the canvas of the original |
| Triangles.MutateOf | src/lib/shapes/triangle.ts:47-98 | `mutate()` returns a triangle that passes `isValid` and keeps the canvas size |
| Triangles.Mutate | src/lib/shapes/triangle.ts:47-98 | the `while (true)` loop over a copy, with the failure counter, returns `MutateOf`; the receiver is a value and is not touched |
| Triangles.SearchInMargin | src/lib/shapes/triangle.ts:53-97 | every triangle the loop reaches stays within the margin and on the original's canvas |
| Triangles.MutateInMargin | src/lib/shapes/triangle.ts:47-98 | a mutated triangle passes `isValid`, lies within the margin and keeps `width` and `height` |
| Triangles.TriedStep | src/lib/shapes/triangle.ts:54-87 | each pass perturbs the state the previous pass left |
| Triangles.FailedStep | src/lib/shapes/triangle.ts:93-96 | after a failed pass the counter `n` goes up by one, or, once it exceeds 128, the state restarts from a copy of the original with `n = 0` |
| Triangles.SearchStep | src/lib/shapes/triangle.ts:89-96 | a pass whose triangle passes `isValid` ends the loop with it; otherwise the loop goes on from the next pass |
| Triangles.SearchFrom | src/lib/shapes/triangle.ts:53-97 | from any pass on, the loop returns the first triangle it tries that passes `isValid` |
| Triangles.MutateRestarts | src/lib/shapes/triangle.ts:89-96 | `mutate` returns the first tried triangle that passes `isValid`, and every tried triangle is the original perturbed by the draws since the last restart, at most 129 of them |
| Triangles.SortByY | src/lib/shapes/triangle.ts:176-204 | after the three compare-and-swaps `y1 <= y2 <= y3`, and the vertices are a permutation of the input's |
| Triangles.Sort | src/lib/shapes/triangle.ts:174-204 | the swaps through the temporary `t` compute `SortByY` |
| Triangles.RowCountIs | src/lib/shapes/triangle.ts:236-264 | a row loop stepping by one from `from` visits exactly the rows up to `to` |
| Triangles.RasterizeBottom | src/lib/shapes/triangle.ts:221-247 | the `ax`/`bx` loop pushes exactly `Bottom`: line `k` spans the two edges from the apex after `k` steps |
| Triangles.RasterizeTop | src/lib/shapes/triangle.ts:249-272 | the loop pushes exactly `Top`: both edges are stepped before each line is pushed |
| Triangles.BottomStartsAtApex | src/lib/shapes/triangle.ts:233-243 | the first line of `rasterizeBottom` is `(y1, x1, x1)` |
| Triangles.BottomRows | src/lib/shapes/triangle.ts:236 | `rasterizeBottom`'s rows lie between `trunc(y1)` and `trunc(y2)` |
| Triangles.TopRows | src/lib/shapes/triangle.ts:264 | `rasterizeTop`'s rows lie between `trunc(y1)` and `trunc(y3)` |
| Triangles.BottomAscends | src/lib/shapes/triangle.ts:236-244 | on non-negative rows `rasterizeBottom`'s rows strictly ascend |
| Triangles.TopDescends | src/lib/shapes/triangle.ts:264-269 | on non-negative rows `rasterizeTop`'s rows strictly descend |
| Triangles.NegativeRowsMerge | src/lib/shapes/triangle.ts:236-243 | truncation toward zero maps two rows onto row 0: a half starting at `y = -0.5` emits row 0 twice |
| Triangles.RasterizeSorted | src/lib/shapes/triangle.ts:206-218 | the dispatch: only the bottom half when `y2 == y3`, else only the top half when `y1 == y2`, else both halves split at `(trunc(x4), y2)` |
| Triangles.RasterizeVertices | src/lib/shapes/triangle.ts:166-219 | sort, then dispatch, computes `Lines` |
| Triangles.SortedLinesRows | src/lib/shapes/triangle.ts:206-218 | every line lies between the rows of the lowest and the highest vertex |
| Triangles.SplitRowTwice | src/lib/shapes/triangle.ts:214-264 | for a split triangle with whole-number rows both halves end on row `y2`, so the lines are not on distinct rows |
| Triangles.SharedPixelRepeats | src/lib/shapes/triangle.ts:214-217 | two lines sharing a pixel make the covered pixels repeat |
| Triangles.OverlapRaw | src/lib/shapes/triangle.ts:166-219 | the triangle (0,0), (4,2), (0,4) rasterises to the three bottom-half lines followed by the three top-half lines, row 2 in both |
| Triangles.OverlapLines | src/lib/shapes/triangle.ts:148 | after `filter` on a 10 x 10 canvas the apex line is dropped and both row-2 lines remain |
| Triangles.SplitRowOverlap | src/lib/shapes/triangle.ts:214-264 | the clipped lines of that triangle draw pixel (0, 2) twice, so the no-repeat condition of the exact partial energy fails for real triangles |
| Triangles.ClippedInBounds | src/lib/shapes/triangle.ts:148 | every clipped line lies on the canvas |
| Triangles.Rasterize | src/lib/shapes/triangle.ts:138-149 | `rasterize()` returns the module rasteriser's lines through `filter`, all on the canvas |
| Triangles.ToSvg | src/lib/shapes/triangle.ts:159-161 | a polygon through exactly the three vertices, in their own order |
| RotatedRectangles.New | src/lib/shapes/rotated-rectangle.ts:15-29 | a new shape keeps the canvas size and takes the angle `float() * 360` |
| RotatedRectangles.NewInCanvas | src/lib/shapes/rotated-rectangle.ts:22-28 | on a non-empty canvas both corners lie on the canvas, at most 16 pixels apart on each axis, and the angle lies in `[0, 360)` |
| RotatedRectangles.Mutate | src/lib/shapes/rotated-rectangle.ts:43-65 | case 0 moves only corner 1, case 1 only corner 2, case 2 only turns the angle by `16 * normal()`; the canvas size stays |
| RotatedRectangles.MutateInCanvas | src/lib/shapes/rotated-rectangle.ts:48-62 | a mutation keeps both corners on the canvas and changes just one of corner 1, corner 2 or the angle |
| RotatedRectangles.Offsets | src/lib/shapes/rotated-rectangle.ts:76-87 | the corner offsets from the centre are opposite pairs, the first of each non-positive |
| RotatedRectangles.Points | src/lib/shapes/rotated-rectangle.ts:73-120 | `getPoints()` gives four points |
| RotatedRectangles.OppositeCorners | src/lib/shapes/rotated-rectangle.ts:81-100 | before truncation opposite corners are mirror images through the centre, so the shape turns about its centre |
| RotatedRectangles.TurnKeepsDistance | src/lib/shapes/rotated-rectangle.ts:89-100 | for `cos^2 + sin^2 = 1` each turned corner keeps its distance from the centre |
| RotatedRectangles.UnturnedPoints | src/lib/shapes/rotated-rectangle.ts:76-119 | at angle 0 the points are the bounding box's truncated corners in the order upper left, upper right, lower right, lower left |
| RotatedRectangles.Rasterize | src/lib/shapes/rotated-rectangle.ts:67-71 | `rasterize()` is the polygon rasteriser over the points, through `filter` |
| RotatedRectangles.LinesDistinct | src/lib/shapes/rotated-rectangle.ts:67-71 | the lines lie on the canvas, on distinct rows, and cover no pixel twice |
| RotatedRectangles.ToSvg | src/lib/shapes/rotated-rectangle.ts:126-132 | a polygon through exactly the four points of `getPoints()` |
| RotatedEllipses.New | src/lib/shapes/rotated-ellipse.ts:15-29 | a new shape keeps the canvas size and takes the angle `float() * 360` |
| RotatedEllipses.NewWellFormed | src/lib/shapes/rotated-ellipse.ts:22-28 | on a non-empty canvas the centre is a pixel of the canvas, the radii are whole numbers in `[1, 32]` and the angle lies in `[0, 360)` |
| RotatedEllipses.Mutate | src/lib/shapes/rotated-ellipse.ts:43-65 | case 0 moves only the centre, case 1 only the radii, case 2 only turns the angle, unclamped; the canvas size stays |
| RotatedEllipses.MutateWellFormed | src/lib/shapes/rotated-ellipse.ts:48-62 | a mutation keeps the shape well formed, changes one group of fields only, and case 1 leaves each radius at most `max(1, dim - 1)` |
| RotatedEllipses.Points | src/lib/shapes/rotated-ellipse.ts:73-92 | `getPoints(n)` gives `n` points |
| RotatedEllipses.GetPoints | src/lib/shapes/rotated-ellipse.ts:73-92 | the `for` loop pushes exactly the `n` truncated samples, in order |
| RotatedEllipses.Unturn | src/lib/shapes/rotated-ellipse.ts:85-86 | turning back by the same angle undoes the turn when `cos^2 + sin^2 = 1` |
| RotatedEllipses.TurnedOnOutline | src/lib/shapes/rotated-ellipse.ts:85-86 | the point turned from offset `(a, b)` lies on the turned outline exactly when `(a / rx, b / ry)` lies on the unit circle |
| RotatedEllipses.SampleOnOutline | src/lib/shapes/rotated-ellipse.ts:80-87 | every sample, before truncation, lies on the turned ellipse `(u / rx)^2 + (v / ry)^2 = 1` |
| RotatedEllipses.UnitOnOutline | src/lib/shapes/rotated-ellipse.ts:82-86 | a unit-circle point scaled by the radii and turned lies on the outline |
| RotatedEllipses.ScaledUnit | src/lib/shapes/rotated-ellipse.ts:82-83 | scaling a unit-circle point by `rx` and `ry` stays on the ellipse of those radii |
| RotatedEllipses.Rasterize | src/lib/shapes/rotated-ellipse.ts:67-71 | `rasterize()` is the polygon rasteriser over the 20 points, through `filter` |
| RotatedEllipses.LinesDistinct | src/lib/shapes/rotated-ellipse.ts:67-71 | the lines lie on the canvas, on distinct rows, and cover no pixel twice |
| RotatedEllipses.ToSvg | src/lib/shapes/rotated-ellipse.ts:98-105 | a polygon through exactly the 20 points of `getPoints()` |
| Shapes.RandomShapeTypeAsWritten | lib/shapes/factory.ts:50 | as written, `int(SHAPES.length - 1)` is `int(2, 1)`, whose range is empty, so every draw picks `triangle` |
| Shapes.RandomShapeType | lib/shapes/factory.ts:23-50 | the corrected choice `int(0, SHAPES.length - 1)` is always one of the three listed types |
| Shapes.RandomShapeTypeReaches | lib/shapes/factory.ts:23-50 | each of the three listed types is chosen by some draw |
| Shapes.New | lib/shapes/factory.ts:50-83 | the factory as written: `random` recurses on `randomShapeType()`, which is always `triangle`; the shape keeps the canvas size of the options, and only `triangle` (directly or through `random`) can fail |
| Shapes.NewKinds | lib/shapes/factory.ts:50-82 | both spellings of each rectangle build that kind; `circle` builds a circle unless the options set `circle: false`; `ellipse` builds a circle only when asked; a triangle fails exactly when no attempt passes `isValid`; `random` builds exactly what `triangle` builds |
| Shapes.NewRandomKind | lib/shapes/factory.ts:50-81 | as written, `random` builds exactly what `triangle` builds from the same draws, so only triangles |
| Shapes.NewWellFormed | lib/shapes/factory.ts:52-83 | on a non-empty canvas every shape the factory builds is well formed |
| Shapes.NewIntended | lib/shapes/factory.ts:50-83 | the factory with the corrected `randomShapeType`: every name but `random` builds what `Shapes.New` builds, and the canvas size is kept |
| Shapes.NewIntendedKind | lib/shapes/factory.ts:23-81 | the corrected `random` builds a rotated ellipse, a rotated rectangle or a triangle and never a redundant kind |
| Shapes.NewIntendedReaches | lib/shapes/factory.ts:23-81 | for each of the three listed types some draw makes the corrected `random` build exactly what that type builds |
| Shapes.NewIntendedWellFormed | lib/shapes/factory.ts:50-83 | on a non-empty canvas every shape the corrected factory builds is well formed |
| Shapes.Mutate | lib/shapes/shape.ts:15-25 | `mutate()` keeps the kind and the canvas size; only a triangle can fail |
| Shapes.MutateWellFormed | lib/shapes/shape.ts:15-25 | `mutate()` keeps a well-formed shape well formed |
| Shapes.Rasterize | lib/shapes/shape.ts:26 | dispatches `rasterize()` to the shape's kind |
| Shapes.LinesInBounds | lib/shapes/shape.ts:15-26 | the lines of every well-formed shape lie on its canvas |
| Shapes.LinesDistinct | lib/shapes/shape.ts:26 | every kind but the triangle covers each pixel at most once |
| Shapes.TriangleRepeatsPixel | src/lib/shapes/triangle.ts:206-219 | a well-formed triangle can cover a pixel twice |
| Shapes.ToSvg | lib/shapes/shape.ts:28 | a `rect` exactly for rectangles, an `ellipse` exactly for ellipses, and for the rotated kinds a polygon through the points of `getPoints()` |
| Rasterize.WalkLength | lib/rasterize.ts:63-85 | a loop along the major axis pushes one point per unit of the major distance |
| Rasterize.WalkSteps | lib/rasterize.ts:63-85 | each round moves one unit along the major axis and at most one unit, toward the end, along the minor axis |
| Rasterize.WalkEnd | lib/rasterize.ts:60-86 | while the error term keeps its invariant, the loop ends exactly on the end point |
| Rasterize.ConservedStep | lib/rasterize.ts:64-70 | one round keeps `error + remaining * dy - steps left * dx` constant |
| Rasterize.MajorWalkShape | lib/rasterize.ts:60-86 | the loop along the longer axis pushes `|da|` points and ends on the end point, each one step after the previous |
| Rasterize.BresenhamShape | lib/rasterize.ts:47-89 | `bresenham` returns `max(\|dx\|, \|dy\|) + 1` points from the start point to the end point, each one step after the previous along the longer axis |
| Rasterize.BresenhamDegenerate | lib/rasterize.ts:58-63 | a line from a point to itself is that one point |
| Rasterize.WalkPoints | lib/rasterize.ts:58-86 | a walk following the start point is a chain of adjacent points ending on the walk's last pair |
| Rasterize.WalkLoop | lib/rasterize.ts:63-85 | each `while` loop pushes exactly the points of the walk, swapped back to `(x, y)` for the y-major loop |
| Rasterize.BresenhamLine | lib/rasterize.ts:47-89 | the method computes `Bresenham`: the start point, then the loop along the longer axis (`dx >= dy` picks x) |
| Rasterize.MinMaxDefined | lib/rasterize.ts:91-109 | `minMaxElements` is `undefined` exactly on an empty input, and both results are elements of it |
| Rasterize.MinMaxNoZero | lib/rasterize.ts:97-104 | on values without a 0 the results are the true minimum and maximum |
| Rasterize.MinMaxZeroIsUnset | lib/rasterize.ts:98-101 | the `!min` test takes a 0 for unset, so `[0, 5]` gives `(5, 5)` |
| Rasterize.MinMaxElements | lib/rasterize.ts:91-109 | the `for ... of` loop computes `MinMax`, including the `!min` and `!max` tests |
| Rasterize.EdgeEnds | lib/rasterize.ts:15-20 | edge `i` runs from vertex `i`, truncated with `\|0`, to the next vertex, the last closing the path back to the first |
| Rasterize.Insert | lib/rasterize.ts:28 | `Set.add` keeps the old members, adds the new one and adds nothing else |
| Rasterize.GroupContents | lib/rasterize.ts:22-34 | the map has a row exactly for each row of an edge pixel, its keys are distinct, and row `y` holds column `x` exactly when `(x, y)` is an edge pixel |
| Rasterize.EmitPerKey | lib/rasterize.ts:36-42 | the `forEach` emits one line per key, in key order, spanning that row's `minMaxElements` |
| Rasterize.PolygonLines | lib/rasterize.ts:11-45 | one line per row of the map, in insertion order |
| Rasterize.PolygonRowsDistinct | lib/rasterize.ts:22-42 | at most one line per row |
| Rasterize.PolygonRowIff | lib/rasterize.ts:22-42 | a row gets a line exactly when some edge pixel lies in it |
| Rasterize.PolygonSpan | lib/rasterize.ts:36-42 | each line runs between two edge pixels of its row, and covers all of them when none is in column 0 |
| Rasterize.TraceEdges | lib/rasterize.ts:15-20 | the first loop concatenates the edges of the closed path |
| Rasterize.TraceEdge | lib/rasterize.ts:16-18 | one round traces the line from vertex `i` to the next, or to the first after the last |
| Rasterize.GroupByRow | lib/rasterize.ts:22-34 | the second loop builds exactly `Group` of the edge pixels |
| Rasterize.RasterizePolygon | lib/rasterize.ts:11-45 | the default export computes `Polygon`: trace, group, then one line per row |
| Core.Normalise | lib/core.ts:110 | `sqrt(sum / (w * h * 3)) / 255` is a number exactly when the canvas has pixels and the sum is non-negative, and then it is determined by the sum |
| Core.DiffSumStep | lib/core.ts:102-106 | one round of the column loop adds the pixel's squared errors `dr^2 + dg^2 + db^2` |
| Core.Difference | lib/core.ts:76-111 | the nested loops with the length check compute `DifferenceOf`: an error exactly when the buffers differ in length, otherwise the energy of the summed squared errors |
| Core.DiffSumSymmetric | lib/core.ts:102-106 | the squared error does not depend on the order of the two pictures |
| Core.DiffSumIgnoresAlpha | lib/core.ts:94-104 | only channels 0 to 2 matter; the alpha byte is never read |
| Core.DiffSumSelf | lib/core.ts:102-106 | a picture has no error against itself |
| Core.DifferenceProperties | lib/core.ts:76-111 | `difference` throws exactly on buffers of different lengths, is symmetric, and is 0 for a picture against itself |
| Core.RowPixelsAre | lib/core.ts:134-135 | the pixels of a span are `y * w + x1 + k`, one per column |
| Core.CoveredInCanvas | lib/core.ts:131-135 | every pixel a line on the canvas visits lies on the canvas |
| Core.DistinctRowsCovered | lib/core.ts:131-135 | lines on the canvas and on distinct rows never visit a pixel twice |
| Core.DeltaSeqAppend | lib/core.ts:131-160 | the change of the sum over two runs of pixels is the sum of their changes |
| Core.PartialLine | lib/core.ts:134-159 | the inner loop takes each visited pixel's old error off `sum` and adds its new error |
| Core.DeltaPixel | lib/core.ts:135-158 | one round of the inner loop adds `after`'s error and takes off `before`'s error at one pixel |
| Core.DifferencePartial | lib/core.ts:113-163 | the method computes `PartialOf`: an error exactly when a buffer length differs, `NaN` from a `NaN` score, otherwise the score's sum less the old and plus the new errors of every visited pixel |
| Core.DiffSumDelta | lib/core.ts:129-162 | the summed error of `after` is that of `before` plus the per-pixel changes |
| Core.DeltaOutsideZero | lib/core.ts:131-160 | pixels whose colour did not change contribute no change |
| Core.DeltaSumSplit | lib/core.ts:131-160 | over distinct pixels on the canvas, the total change splits into their changes and the changes outside them |
| Core.PartialIsExact | lib/core.ts:113-163 | when no pixel is visited twice and only visited pixels changed, the incremental update from the exact score of `before` equals `difference(target, after)` |
| Core.ByteInRow | lib/core.ts:179-181 | a byte lies in `[o1, o2)` of a line exactly when its pixel is in the line's span `[x1, x2)` |
| Core.CopyLines | lib/core.ts:165-183 | throws exactly on buffers of different lengths and then writes nothing; otherwise each byte of the span `[o1, o2)` of every line comes from `src` and every other byte is kept |
| Core.CopiedPixelsCovered | lib/core.ts:179-181 | every copied pixel is visited by some line, and a visited pixel that is not copied is the last pixel `x2` of a line |
| Core.CopyLeavesLineEnd | lib/core.ts:179-181 | on lines with distinct rows, the last pixel of each line is never copied |
| Core.DrawSpan | lib/core.ts:202-212 | drawing a span keeps the length of the buffer |
| Core.DrawLines | lib/core.ts:185-214 | the method computes `Drawn`: every colour byte of every visited pixel is blended `(d * (1 - a / 255) + s * a / 255) \| 0`, one line after the other |
| Core.DrawLineInPlace | lib/core.ts:202-212 | the inner loop draws one line in place |
| Core.DrawPixel | lib/core.ts:203-211 | one round blends the three colour bytes of one pixel |
| Core.DrawnUnchanged | lib/core.ts:202-212 | `drawLines` leaves the alpha byte of every pixel and every byte of an unvisited pixel as it was |
| Core.BlendOpaque | lib/core.ts:199-211 | an opaque colour overwrites the byte |
| Core.DrawnOpaque | lib/core.ts:199-211 | with an opaque colour every visited colour byte ends as the colour's channel |
| Core.DrawnLocal | lib/core.ts:202-212 | a drawn byte depends only on the byte it started from |
| Core.DrawnOnce | lib/core.ts:199-211 | when no pixel is visited twice, each visited colour byte is blended exactly once |
| Core.DrawnKeepsPixel | lib/core.ts:202-212 | an unvisited pixel keeps its colour |
| Core.PartialBuffer | lib/worker.ts:50-54 | `copyLines` then `drawLines` keeps the length of the buffer |
| Core.PartialPixel | lib/core.ts:179-211 | on a visited pixel, copy-then-draw gives the colour of drawing on `current` when the colour is opaque or the line ends were already equal |
| Core.DrawnIsExact | lib/core.ts:113-214 | drawing lines that visit no pixel twice onto the snapshot, then the incremental update from its exact score, gives the full `difference` |
| Core.PartialPathExact | lib/core.ts:165-214 | the same for the scratch buffer of the partial path: copy, draw, then update equals the full `difference` of drawing on `current` |
| Core.ChannelTotalBound | lib/core.ts:12-19 | a channel total over `n` pixels is at most `255 * n` |
| Core.MeanOfBound | lib/core.ts:21-23 | the truncated mean of such a total is a byte |
| Core.GetMeanColor | lib/core.ts:5-26 | the nested loops compute `MeanColorOf`: the channel totals over all pixels, each divided by the pixel count and truncated, with alpha 255 |
| Core.MeanColorIsByte | lib/core.ts:5-26 | the mean colour is a byte colour with alpha 255 |
| Core.MeanColorUniform | lib/core.ts:5-26 | a picture of one colour has that colour as its mean |
| Core.MeanChannel | lib/core.ts:67-71 | with a positive count the channel is clamped into `[0, 255]` and truncated; with no pixels it stays 0 |
| Core.ComputeColorOf | lib/core.ts:28-74 | the colour keeps the requested alpha; its channels are bytes when some pixel is visited and 0 when none is |
| Core.ChannelSumAppend | lib/core.ts:45-65 | the channel sums of two runs of pixels add up |
| Core.PixelTerm | lib/core.ts:51-61 | one pixel adds `(t - c) * 255 / alpha + c` to the channel sum |
| Core.ColorLine | lib/core.ts:48-64 | the inner loop counts the line's pixels and adds their terms to the three sums |
| Core.ColorPixel | lib/core.ts:49-63 | one round extends the three sums by one pixel |
| Core.ComputeColor | lib/core.ts:28-74 | the method computes `ComputeColorOf` |
| Core.ChannelSumOpaque | lib/core.ts:38-61 | with `alpha = 255` each term is the target's byte, so the sum is the target's total, at most `255` per pixel |
| Core.TruncQuotient | lib/core.ts:68-70 | truncating a non-negative real quotient of integers is integer division |
| Core.MeanChannelOpaque | lib/core.ts:67-71 | for a total of bytes the clamp does nothing and the channel is `total / count` |
| Core.ComputeColorOpaque | lib/core.ts:28-74 | with `alpha = 255` the colour is the truncated mean of the target over the visited pixels |
| Workers.Scratch | lib/worker.ts:50-62 | the scratch buffer keeps its length; on the full path it is the snapshot with the lines drawn |
| Workers.PathsAgree | lib/worker.ts:43-68 | both scoring paths of `energy` return the same energy when the snapshot's score is exact, no pixel is visited twice, and the colour is opaque or the scratch buffer already agrees with the snapshot at each line's last pixel |
| Workers.Worker.constructor | lib/worker.ts:24-35 | counter 0, no snapshot, score 0, and a fresh transparent scratch buffer of the target's size |
| Workers.Worker.Init | lib/worker.ts:37-41 | `init` installs the snapshot and its score and resets the counter |
| Workers.Worker.Energy | lib/worker.ts:43-68 | one more evaluation; the result is `EnergyOf` the shape's lines on the worker's path against the target and the snapshot, and the scratch buffer becomes `Scratch` of those lines (`Scores`); nothing else changes |
| States.Rng.constructor | lib/random.ts:1-6 | a generator at the start of its stream of draws |
| States.Rng.Next | lib/random.ts:1-6 | each construction or mutation takes the next draws of the stream, which moves on by one |
| States.Jittered | lib/state.ts:55-60 | the mutated alpha is in `[1, 255]`, moves by at most 10 from a byte alpha, and by exactly the `int(-10, 10)` draw away from the bounds |
| States.State.constructor | lib/state.ts:19-31 | no score (`-1`); a falsy alpha becomes 128 and mutable, any other alpha is kept fixed; the twin at lib/state.js:5-21 is the same |
| States.State.Copy | lib/state.ts:33-42 | a fresh state with every field equal, the shape shared; the twin at lib/state.js:23-31 is the same |
| States.State.Energy | lib/state.ts:44-50 | a cached score is returned without touching the state, the worker or its buffer; otherwise the result is what the worker's `energy` gives this state's lines and alpha (`Scores`), and it is cached; the twin at lib/state.js:33-39 is the same |
| States.State.Mutate | lib/state.ts:52-63 | a fresh unscored state on the same worker whose shape is `Shapes.Mutate` of the receiver's shape from the next draws, whose alpha is `Jittered` only when it is mutable (`MutatedFrom`); the receiver is unchanged; the twin at lib/state.js:41-52 is the same |
| States.State.Create | lib/state.ts:65-76 | a fresh unscored state on the worker holding `Shapes.New` of the shape type at the worker's canvas size from the next draws, with the constructor's alpha policy (`Built`); none exactly when the factory builds none; the twin at lib/state.js:54-65 is the same |
| Optimize.Pick | lib/optimize.ts:49-57 | the index the selection loop settles on is an index of the list |
| Optimize.PickIsFirstMinimum | lib/optimize.ts:53 | `!i \|\| energy < bestEnergy` picks the first-seen minimum: the first energy if it is `NaN`, otherwise the first numeric energy of least value |
| Optimize.FirstMinimumIsPick | lib/optimize.ts:53 | the first-seen minimum is unique, so it is what the loop picks |
| Optimize.PickSnoc | lib/optimize.ts:53-56 | one more energy replaces the pick exactly when it is strictly smaller |
| Optimize.Challenger | lib/optimize.ts:10-11 | `bestState.mutate()` then `energy()`: none exactly when `Shapes.Mutate` of the best shape fails on the next draws; otherwise a fresh state `MutatedFrom` the best one, scored with the worker's `EnergyOf` its lines (`Scores`), one evaluation, the snapshot and its score untouched |
| Optimize.Attempt | lib/optimize.ts:10-11 | one hill-climb attempt: none exactly when `Shapes.Mutate` of the best shape fails on the next draws; otherwise a fresh state on the same worker `MutatedFrom` the best one, whose cached energy `e` is the worker's `energy` of its lines (`Scores`), with the counter one higher; the current canvas and score are left unchanged and one draw is used |
| Optimize.Candidate | lib/optimize.ts:50-51 | `State.create` then `energy()`: none exactly when `Shapes.New` fails on the next draws; otherwise a fresh state `Built` by the factory and scored with the worker's `EnergyOf` its lines (`Scores`), one evaluation |
| Optimize.Round | lib/optimize.ts:49-51 | one round fails exactly when the factory builds nothing from the next stream element; otherwise it extends the trace by the new candidate, its energy and the scratch buffer it leaves, keeping `Created`, `ScoredInOrder` and `AllBuild` of the elements used so far |
| Optimize.Consider | lib/optimize.ts:49-57 | one loop round: it fails exactly when the run of stream elements no longer builds; otherwise the trace grows by one `Created`, `ScoredInOrder` candidate and the kept state is the trace's first-seen minimum |
| Optimize.Keep | lib/optimize.ts:53-56 | after one more candidate the kept state is that candidate or the earlier one, and it is the first-seen minimum of the longer trace |
| Optimize.CreatedExtend | lib/optimize.ts:49-50 | a trace of states each built from its own stream element stays so when the next state is built from the next element |
| Optimize.ScoredExtend | lib/optimize.ts:49-51 | a trace of candidates scored one after the other on the scratch buffer stays so when the next candidate is scored on the buffer the last one left |
| Optimize.NeverFailsBuildsFrom | lib/shapes/factory.ts:52-82 | every shape type but `triangle` and `random` builds a shape from every stream element |
| Optimize.AllBuildSnoc | lib/optimize.ts:49-50 | a run of stream elements that builds grows by one exactly when the next element builds |
| Optimize.AllBuildPrefix | lib/optimize.ts:49-50 | a shorter run from the same element builds too |
| Optimize.BuildsFromAll | lib/optimize.ts:49-50 | when every element from a position on builds, so does every run that starts later |
| Optimize.HillClimb | lib/optimize.ts:5-21 | the result is the input or a fresh state of strictly lower energy, and the input itself when `maxAge <= 0`; an input that was already scored is left unchanged |
| Optimize.GetBestRandomState | lib/optimize.ts:38-60 | a state exactly when `numCandidateShapes > 0` and each of the `numCandidateShapes` stream elements from the start builds a shape (`AllBuild`); then candidate `k` is `Built` by the factory from element `start + k` and scored in order on the worker (`Created`, `ScoredInOrder`), one evaluation each, and the result holds the first-seen minimum `cands[Pick(energies)]` |
| Optimize.GetBestHillClimbState | lib/optimize.ts:30-36 | a state exactly when the random search finds one (`AllBuild`, as above), since `hillClimb` always returns one; the random search is `Searched`, and the result is its first-seen minimum or a state of strictly lower energy |
| Models.OutputSize | src/lib/model.ts:52-69 | without `outputSize` the document has the target's size and scale 1; with one, the longer side becomes `outputSize` |
| Models.OutputSizeIsScaled | src/lib/model.ts:55-69 | each side of the document is the target's side times `scale`, truncated, and both lie within a positive `outputSize` |
| Models.Landscape | src/lib/model.ts:56-59 | the same for `aspect >= 1` |
| Models.Portrait | src/lib/model.ts:60-64 | the same for `aspect < 1` |
| Models.AddIsExact | src/lib/model.ts:102-126 | because `add` snapshots the whole canvas into `before`, its new score equals the full `difference` on both paths whenever the old score was exact and no pixel is visited twice |
| Models.BodyAppend | src/lib/model.ts:122-125 | each `add` appends exactly one element to the picture |
| Models.NewWorkers | src/lib/model.ts:83-90 | `numCandidates` fresh, unscored workers on the target, none when the count is not positive |
| Models.AllSearchedAt | src/lib/model.ts:150-153 | from the record of every worker's search, the search of worker `i` alone |
| Models.AllSearchedSnoc | src/lib/model.ts:150-153 | the record of the workers' searches grows by one worker's search |
| Models.Model.constructor | src/lib/model.ts:45-100 | the output size, a canvas filled with the background, its exact energy, empty logs, `numCandidates` fresh workers, and `before` only on the partial path |
| Models.Model.Add | src/lib/model.ts:102-126 | the canvas becomes the shape's lines drawn with `computeColor`'s colour; one entry is appended to each log; the score stays exact when no pixel is visited twice |
| Models.Model.Log | src/lib/model.ts:122-125 | the score and the three logs grow by this shape's entry; the canvas is untouched |
| Models.Model.Composite | src/lib/model.ts:103-120 | the colour and the new canvas of `add`, with the score taken incrementally from `before` or in full |
| Models.Model.GetBestCandidateState | src/lib/model.ts:149-169 | a state whenever there are workers and candidates and every stream element from the start builds a shape, none without workers or candidates; every worker is re-initialised with the canvas and its score; worker `i`'s search is `Searched` and returns `states[i]` (`AllSearched`); the result holds `states[Pick(es)]`, the first-seen minimum of their energies |
| Models.Model.SearchAll | src/lib/model.ts:150-153 | the `map` returns one fresh state per worker, in worker order, each the result of that worker's `Searched` search after `init`; it returns them whenever there is no worker, or there are candidates and every stream element from the start builds a shape (so for every type but `triangle` and `random`) |
| Models.Model.SearchOne | src/lib/model.ts:150-153 | one element of the `map`: the worker holds the canvas and its score; a state exactly when its `getBestHillClimbState` finds one (`AllBuild` from the stream position it starts at); then the search is `Searched`, extending `AllSearched` by one worker; the canvas and the target are untouched |
| Models.Model.Select | src/lib/model.ts:155-168 | the selection loop over cached scores returns the first-seen minimum |
| Models.Model.Commit | src/lib/model.ts:130 | committing a state appends its shape to the log |
| Models.Model.Extra | src/lib/model.ts:133-140 | after `hillClimb` the test `b <= a` holds exactly when `a` was a number; otherwise the state comes back unchanged, and so does a state that was already scored |
| Models.Model.Extras | src/lib/model.ts:132-144 | the extras loop adds nothing when the committed energy is a number, and otherwise re-adds the same shape on each of its rounds; the committed state is left unchanged |
| Models.Model.Step | src/lib/model.ts:128-147 | a result whenever there are workers and candidates and every stream element from the start builds a shape, none without workers or candidates; then the workers' searches are `AllSearched` from the old canvas; the shape committed is `states[Pick(es)].shape`, the first-seen minimum; it is added once, plus `numCandidateExtras` more times only when its energy was `NaN`; earlier shapes are kept; the result is the workers' total evaluation count |
| Models.Model.Place | src/lib/model.ts:130-144 | the chosen shape is appended once, and again on each extras round only when its energy is `NaN`; every appended entry is that shape, the earlier shapes and the target are kept |
| Models.Model.ToSvg | src/lib/model.ts:171-190 | a document of the output size and background colour, scaled by `scale`, with one painted element per committed shape in commit order, each with its colour as fill and `a / 255` as opacity |

## Left out

- Floating point: colour arithmetic (`computeColor`, `drawLines`), shape coordinates and the output scale are exact reals with an explicit truncation toward zero for `| 0`. IEEE rounding is not modelled, nor the 32-bit wrap of `| 0` on values beyond 2^31, which no pixel coordinate reaches.
- The final `Math.sqrt(sum / (w * h * 3)) / 255` of `difference` and `differencePartial` is not computed. An energy is its sum of squares, which orders the same way; `Math.pow(score * 255, 2) * w * h * 3` recovering the sum from a score is taken as exact.
- `Math.cos`, `Math.sin` and `Math.sqrt` are parameters (the `Geometry` of the shapes). `Triangle.isValid`, whose angle test uses `acos` and `sqrt`, is an abstract predicate. The ellipse's half-width is any non-negative value.
- `crypto.getRandomValues` and the polar-method `normal` are not computed: each 32-bit draw and each `normal()` value is an input. The generator is a stream of such inputs.
- Triangles.New and Triangles.Mutate: the source's retry loops do not terminate if no attempt ever passes `isValid`. Here they run over a finite list of draws and return `None` when it is used up, and `None` then flows up through `Shapes.New`, `Shapes.Mutate`, `State.create`, `State.mutate` and the searches.
- Shapes are immutable values, so `copy()` of every shape is the value itself, and "`mutate` does not touch the receiver" holds by construction. The identity of a copied object is not modelled.
- `Scanline` objects are values held in an array, which `Scanlines.FilterInPlace` overwrites slot by slot; a line object shared by several arrays, whose clamp the others would see, is not modelled.
- `createImage` without a colour: a fresh zero-filled buffer. The source allocates a typed array that the runtime zero-fills.
- `loadImage`, `saveImage`, `saveGIF`, src/lib/browser-context.ts, the entry points, the archaic glue (lib/archaic.ts, lib/archaic.js, src/lib/archaic.ts) and the test harnesses are I/O, drivers or concurrency wrappers and are not part of this model.
- The `draw` methods, `Model.toFrames` (throws), `Ellipse.bounds` (reads fields that are never set) and `cssrgba` are not modelled.
- `toSVG` is modelled as a structure (`Svg.Element`, `Svg.Document`): element kind, coordinates, fill, opacity, order. The group's constant `translate(0.5 0.5)` (src/lib/model.ts:185) is not recorded, only its `scale`. The number-to-text formatting of JavaScript and the `attrs` string are not modelled.
- The `new State()` without options of lib/state.js (used only by `copy`, which sets every field at once) is not a separate member; `States.State.Copy` builds the copy with the constructor and then overwrites every field.
- An alpha of 0 stands for an absent alpha in `State`'s constructor; both are falsy in the source.
- Optimize.HillClimb: states that its result is its input or a fresh state of strictly lower energy, but not that each mutation is drawn from the current best state or that the loop ends after `maxAge` rejections in a row; both hold in the loop body, where `Challenger` is called on `best` and `age` is reset to -1 on an acceptance.
- Optimize.GetBestHillClimbState: with `numCandidateShapes <= 0` the source passes `null` to `hillClimb` and throws; the model returns `None`.
- Models.Model.Step: when no candidate is found the source would throw on a `null` state; the model returns `None` and commits nothing.
- Models.Model.GetBestCandidateState: does not state the scratch buffer each worker's search starts from, nor the stream positions at which the searches after the first start; each search is stated from its own start (`Searched`).
- Models.Model.Step, Models.Model.Place and Models.Model.Extras: state the committed shape and how often it is added, but not the colours, scores and canvas that each `add` of src/lib/model.ts:130-144 leaves; those are stated by `Models.Model.Add`, which `Commit` and each extras round call.
- Workers.Worker.constructor: requires a target with at least one pixel; there `createImage` (lib/context.ts:40-41) throws when a side is zero, so the source's constructor throws rather than returning.
- Models.Model.constructor: requires a target with at least one pixel; there `createImage` (src/lib/context.ts:49-50) throws when a side is zero, so building the canvas or the workers throws in the source.
- Models.Model.SearchAll, Models.Model.GetBestCandidateState and Models.Model.Step: state a sufficient condition for a result (every stream element from the start builds a shape, which holds for every type but `triangle` and `random`), not the exact one; the exact one depends on how many draws each worker's `hillClimb` takes, which the contracts do not count. `Models.Model.SearchOne` and the searches of `Optimize` state the exact condition.
- Models.Model.Select: reads the cached scores of the searched states; the call `state.energy()` in the source returns that cache and changes nothing, so it is not repeated.
- Models.Model.Commit: states only that the shape is appended; the colour and score it appends are those of `Models.Model.Add`, which it calls.
- Workers.Worker.Energy and Models.Model.Add: the workers run one after the other, as in the source's `map`; no concurrency is modelled.

## Findings

| source | as written | input that shows it | evidently intended | confidence | as-written member | corrected member |
|---|---|---|---|---|---|---|
| lib/shapes/factory.ts:50 | `SHAPES[int(SHAPES.length - 1)]` calls `int(2)`, that is `int(min = 2, max = 1)`, whose range is empty: `floor(float() * 0) + 2` is always 2 | any draw; `factory('random', opts)` always builds a triangle | `int(0, SHAPES.length - 1)`: a uniform choice among the rotated ellipse, the rotated rectangle and the triangle | high, not executed | Shapes.RandomShapeTypeAsWritten, Shapes.NewRandomKind | Shapes.RandomShapeType, Shapes.NewIntended, Shapes.NewIntendedKind |
