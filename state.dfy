/** lib/state.ts (and its JavaScript twin lib/state.js): a candidate of the
    search, that is, a shape, the alpha it is drawn with and its lazily
    computed energy, bound to the worker that scores it. */
module States {
  import opened Numbers
  import opened Random
  import opened Wrappers
  import opened Core
  import opened Workers
  import Shapes

  /** The random values one operation takes from the generator: those of a
      shape construction, those of a shape mutation, and the alpha jitter of
      `mutate`. */
  datatype Draws = Draws(create: Shapes.NewDraws, mutation: Shapes.MutateDraws, jitter: Rand)

  /** The random generator: an unbounded stream of draws, consumed one
      element per construction or mutation. */
  class Rng {
    const stream: nat -> Draws
    var pos: nat

    constructor (stream: nat -> Draws)
      ensures this.stream == stream && pos == 0
    {
      this.stream := stream;
      pos := 0;
    }

    method Next() returns (d: Draws)
      modifies this
      ensures d == stream(old(pos)) && pos == old(pos) + 1
    {
      d := stream(pos);
      pos := pos + 1;
    }
  }

  /** `Math.max(1, Math.min(255, (alpha + int(-10, 10)) | 0))`: the alpha
      of a mutated state. It stays a byte alpha and moves by at most 10. */
  function Jittered(alpha: int, jitter: Rand): (a: int)
    ensures 1 <= a <= 255
    ensures 1 <= alpha <= 255 ==> Abs(a - alpha) <= 10
    ensures 11 <= alpha <= 245 ==> a - alpha == Int(jitter, -10, 10)
  {
    IntInRange(jitter, -10, 10);
    ClampInt(1, 255, alpha + Int(jitter, -10, 10))
  }

  /** The fields of a state at one moment, as a value. */
  datatype StateValue = StateValue(worker: Worker, shape: Shapes.Shape, alpha: int, mutateAlpha: bool, score: Option<Energy>)

  /** `v` holds what `State.create(worker, shapeType, alpha)` builds from
      the draws `d`: the factory's shape on the worker's canvas, with the
      constructor's alpha policy. */
  ghost predicate Built(v: StateValue, worker: Worker, shapeType: Shapes.ShapeType, alpha: int, d: Shapes.NewDraws,
                        g: Shapes.Geometry)
  {
    var sh := Shapes.New(shapeType, Shapes.Options(worker.width, worker.height, None), d, g);
    && sh.Some? && v.worker == worker && v.shape == sh.value
    && (alpha == 0 ==> v.alpha == 128 && v.mutateAlpha)
    && (alpha != 0 ==> v.alpha == alpha && !v.mutateAlpha)
  }

  /** `v` holds what `mutate()` of the state `s` builds from the draws `d`,
      apart from the score. */
  ghost predicate MutatedFrom(v: StateValue, s: StateValue, d: Draws, g: Shapes.Geometry)
  {
    var m := Shapes.Mutate(s.shape, d.mutation, g);
    && m.Some? && v.worker == s.worker && v.shape == m.value && v.mutateAlpha == s.mutateAlpha
    && v.alpha == if s.mutateAlpha then Jittered(s.alpha, d.jitter) else s.alpha
  }

  class State {
    const worker: Worker
    var shape: Shapes.Shape
    /** `None` is the source's `-1`: not yet scored. */
    var score: Option<Energy>
    var alpha: int
    var mutateAlpha: bool

    /** The fields of this state, as a value. */
    function Value(): StateValue
      reads this
    {
      StateValue(worker, shape, alpha, mutateAlpha, score)
    }

    /** A shape on the worker's canvas and an alpha `computeColor` can
        divide by; a mutable alpha is a byte. */
    predicate Valid()
      reads this
    {
      && worker.Valid()
      && Shapes.WellFormed(shape) && Shapes.Width(shape) == worker.width && Shapes.Height(shape) == worker.height
      && alpha != 0 && (mutateAlpha ==> 1 <= alpha <= 255)
    }

    /** `new State({ worker, shape, alpha })`: a falsy alpha (absent or 0)
        becomes 128 and may be mutated; any other alpha is kept fixed. */
    constructor (worker: Worker, shape: Shapes.Shape, alpha: int)
      ensures this.worker == worker && this.shape == shape && score == None
      ensures alpha == 0 ==> this.alpha == 128 && mutateAlpha
      ensures alpha != 0 ==> this.alpha == alpha && !mutateAlpha
    {
      this.worker := worker;
      this.shape := shape;
      score := None;
      if alpha == 0 {
        this.alpha := 128;
        mutateAlpha := true;
      } else {
        this.alpha := alpha;
        mutateAlpha := false;
      }
    }

    /** `copy()`: a new state sharing the shape (shapes are values here) with
        every field equal. */
    method Copy() returns (s: State)
      ensures fresh(s)
      ensures s.worker == worker && s.shape == shape && s.score == score
      ensures s.alpha == alpha && s.mutateAlpha == mutateAlpha
    {
      s := new State(worker, shape, 0);
      s.score := score;
      s.alpha := alpha;
      s.mutateAlpha := mutateAlpha;
    }

    /** `energy()`: asks the worker only while no score is cached, then
        caches it. */
    method Energy(g: Shapes.Geometry) returns (e: Energy)
      requires Valid() && worker.Ready() && Shapes.SqrtNonNegative(g)
      modifies this, worker, worker.buffer.data
      ensures score == Some(e)
      ensures shape == old(shape) && alpha == old(alpha) && mutateAlpha == old(mutateAlpha)
      ensures worker.current == old(worker.current) && worker.score == old(worker.score)
      ensures old(score).Some? ==> e == old(score).value && unchanged(this, worker, worker.buffer.data)
      ensures old(score).None? ==>
        && worker.counter == old(worker.counter) + 1
        && Scores(worker.partials, worker.target.data[..], worker.current.value.data[..], worker.width,
                  worker.height, worker.score, Shapes.Lines(shape, g), alpha, old(worker.buffer.data[..]), e,
                  worker.buffer.data[..])
    {
      if score.None? {
        var s := worker.Energy(shape, alpha, g);
        score := Some(s);
      }
      e := score.value;
    }

    /** `mutate()`: a fresh state with the mutated shape, the jittered alpha
        when it is mutable, and no score; the receiver is not touched. `None`
        when a triangle's retry loop runs out of draws. */
    method Mutate(rng: Rng, g: Shapes.Geometry) returns (r: Option<State>)
      requires Valid()
      modifies rng
      ensures rng.pos == old(rng.pos) + 1
      ensures var d := rng.stream(old(rng.pos)); var m := Shapes.Mutate(shape, d.mutation, g);
        && (r.None? <==> m.None?)
        && (r.Some? ==>
              && fresh(r.value) && r.value.Valid() && r.value.score == None
              && MutatedFrom(r.value.Value(), Value(), d, g))
    {
      var d := rng.Next();
      var m := Shapes.Mutate(shape, d.mutation, g);
      if m.None? {
        return None;
      }
      Shapes.MutateWellFormed(shape, d.mutation, g);
      var s := Copy();
      s.shape := m.value;
      if s.mutateAlpha {
        s.alpha := Jittered(s.alpha, d.jitter);
      }
      s.score := None;
      r := Some(s);
    }

    /** `State.create(worker, shapeType, alpha)`: a shape of the worker's
        canvas size built by the factory, behind the constructor's alpha
        policy. `None` when a triangle's retry loop runs out of draws. */
    static method Create(worker: Worker, shapeType: Shapes.ShapeType, alpha: int, rng: Rng, g: Shapes.Geometry)
      returns (r: Option<State>)
      requires worker.Valid()
      modifies rng
      ensures rng.pos == old(rng.pos) + 1
      ensures var sh := Shapes.New(shapeType, Shapes.Options(worker.width, worker.height, None), rng.stream(old(rng.pos)).create, g);
        && (r.None? <==> sh.None?)
        && (r.Some? ==>
              && fresh(r.value) && r.value.Valid() && r.value.score == None
              && Built(r.value.Value(), worker, shapeType, alpha, rng.stream(old(rng.pos)).create, g))
    {
      var d := rng.Next();
      var opts := Shapes.Options(worker.width, worker.height, None);
      var sh := Shapes.New(shapeType, opts, d.create, g);
      if sh.None? {
        return None;
      }
      Shapes.NewWellFormed(shapeType, opts, d.create, g);
      var s := new State(worker, sh.value, alpha);
      r := Some(s);
    }
  }
}
