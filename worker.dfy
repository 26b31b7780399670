/** lib/worker.ts: one candidate evaluator. A worker owns a private scratch
    buffer; `energy` composites a shape into that buffer and scores it
    against the target, either by a full recomputation or by the incremental
    update over the covered pixels. The shared snapshot `current` and the
    target are only read. */
module Workers {
  import opened Wrappers
  import opened Scanlines
  import opened Color
  import opened Context
  import opened Core
  import Shapes

  /** The scratch buffer after `energy`: on the partial path `copyLines`
      from `current` followed by `drawLines`; on the full path a copy of
      `current` with the lines drawn. */
  function Scratch(partials: bool, cur: seq<Byte>, buf: seq<Byte>, w: int, color: RGBA, lines: seq<Scanline>): (r: seq<Byte>)
    requires |buf| == |cur|
    ensures |r| == |cur|
    ensures !partials ==> r == Drawn(cur, w, color, lines)
  {
    if partials then PartialBuffer(buf, cur, w, color, lines) else Drawn(cur, w, color, lines)
  }

  /** The score `energy` returns for a shape whose lines are `lines`, given
      the target `t`, the snapshot `cur`, the scratch buffer `buf` as the
      previous call left it and the snapshot's score. */
  function EnergyOf(partials: bool, t: seq<Byte>, cur: seq<Byte>, buf: seq<Byte>, w: int, h: int,
                    score: Energy, lines: seq<Scanline>, alpha: int): Energy
    requires |cur| == |t| && |buf| == |t| && alpha != 0
  {
    var color := ComputeColorOf(t, cur, w, lines, alpha);
    var after := Scratch(partials, cur, buf, w, color, lines);
    if partials then PartialOf(w, h, t, cur, after, score, lines).value
    else DifferenceOf(w, h, t, after).value
  }

  /** One `energy` call on a worker with target `t`, snapshot `cur` and
      snapshot score `score`, for a shape with lines `lines` and alpha
      `alpha`: the scratch buffer held `buf`, the call returns `e` and
      leaves `after` in the buffer. */
  ghost predicate Scores(partials: bool, t: seq<Byte>, cur: seq<Byte>, w: int, h: int, score: Energy,
                         lines: seq<Scanline>, alpha: int, buf: seq<Byte>, e: Energy, after: seq<Byte>)
  {
    && |cur| == |t| && |buf| == |t| && alpha != 0
    && e == EnergyOf(partials, t, cur, buf, w, h, score, lines, alpha)
    && after == Scratch(partials, cur, buf, w, ComputeColorOf(t, cur, w, lines, alpha), lines)
  }

  /** The two paths of `energy` agree when the snapshot's score is exact,
      no pixel is covered twice, and the scratch buffer already holds the
      snapshot's colour at the last pixel of every line (the pixel
      `copyLines` skips), or the colour is opaque. */
  lemma PathsAgree(t: seq<Byte>, cur: seq<Byte>, buf: seq<Byte>, w: int, h: int, score: Energy,
                   lines: seq<Scanline>, alpha: int)
    requires w >= 0 && h >= 0 && |t| == w * h * 4 && |cur| == |t| && |buf| == |t| && 0 < alpha <= 255
    requires AllInBounds(lines, w, h) && Distinct(Covered(lines, w))
    requires score == DifferenceOf(w, h, t, cur).value
    requires FreshEnds(buf, cur, w, ComputeColorOf(t, cur, w, lines, alpha), lines)
    ensures EnergyOf(true, t, cur, buf, w, h, score, lines, alpha) == EnergyOf(false, t, cur, buf, w, h, score, lines, alpha)
  {
    PartialPathExact(w, h, t, cur, buf, ComputeColorOf(t, cur, w, lines, alpha), lines);
  }

  class Worker {
    /** `context.PARTIALS`: whether `energy` takes the incremental path. */
    const partials: bool
    const target: Image
    const width: int
    const height: int
    var counter: nat
    /** `null` until `init`. */
    var current: Option<Image>
    var score: Energy
    const buffer: Image

    /** The fixed layout: a valid non-empty target, and a scratch buffer of
        the same size that is not the target. */
    predicate Valid()
    {
      && Context.Valid(target) && width == target.width && height == target.height && width > 0 && height > 0
      && Context.Valid(buffer) && buffer.width == width && buffer.height == height
      && buffer.data != target.data
    }

    /** `init` has installed a snapshot of the canvas size, distinct from
        the scratch buffer. */
    predicate Ready()
      reads this
    {
      && current.Some? && Context.Valid(current.value)
      && current.value.width == width && current.value.height == height
      && current.value.data != buffer.data
    }

    /** `new Worker({ context, target })`: `createImage` rejects a canvas
        without pixels, so the target must have some. */
    constructor (partials: bool, target: Image)
      requires Context.Valid(target) && target.width > 0 && target.height > 0
      ensures Valid() && this.partials == partials && this.target == target
      ensures counter == 0 && current == None && score == Sum(0)
      ensures fresh(buffer.data) && buffer.data[..] == Filled(target.width * target.height, None)
    {
      var r := CreateImage(target.width, target.height, None);
      this.partials := partials;
      this.target := target;
      width := target.width;
      height := target.height;
      counter := 0;
      current := None;
      score := Sum(0);
      buffer := r.value;
    }

    /** `init(current, score)`. */
    method Init(current: Option<Image>, score: Energy)
      modifies this
      ensures this.current == current && this.score == score && counter == 0
    {
      this.current := current;
      this.score := score;
      counter := 0;
    }

    /** `energy(shape, alpha)`: one more evaluation; only the scratch buffer
        is written. */
    method Energy(shape: Shapes.Shape, alpha: int, g: Shapes.Geometry) returns (e: Energy)
      requires Valid() && Ready() && alpha != 0
      requires Shapes.WellFormed(shape) && Shapes.Width(shape) == width && Shapes.Height(shape) == height
      requires Shapes.SqrtNonNegative(g)
      modifies this, buffer.data
      ensures current == old(current) && score == old(score) && counter == old(counter) + 1
      ensures Scores(partials, target.data[..], current.value.data[..], width, height, score,
                     Shapes.Lines(shape, g), alpha, old(buffer.data[..]), e, buffer.data[..])
    {
      counter := counter + 1;
      var lines := Shapes.Rasterize(shape, g);
      Shapes.LinesInBounds(shape, g);
      var cur := current.value;
      var color := ComputeColor(target, cur, lines, alpha);
      if partials {
        var copied := CopyLines(buffer, cur, lines);
        DrawLines(buffer, color, lines);
        var r := DifferencePartial(target, cur, buffer, score, lines);
        e := r.value;
      } else {
        Set(buffer.data, cur.data);
        assert buffer.data[..] == cur.data[..];
        DrawLines(buffer, color, lines);
        var r := Difference(target, buffer);
        e := r.value;
      }
    }
  }
}
