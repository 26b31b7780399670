/** lib/optimize.ts: the search for the next shape. Random candidates are
    scored and the first-seen best is kept; that candidate is then improved
    by hill climbing, which accepts a mutation only on a strict decrease of
    the energy and gives up after `maxAge` rejections in a row. */
module Optimize {
  import opened Wrappers
  import opened Context
  import opened Core
  import opened Workers
  import opened States
  import Shapes

  // ---------------------------------------------------------------------
  // Selection

  /** The index the selection loops `if (!i || energy < bestEnergy)` settle
      on: the first element, replaced only by a strictly smaller energy. */
  function Pick(es: seq<Energy>): (i: nat)
    requires |es| > 0
    ensures i < |es|
  {
    if |es| == 1 then 0
    else
      var j := Pick(es[..|es| - 1]);
      if Less(es[|es| - 1], es[j]) then |es| - 1 else j
  }

  /** The first-seen minimum, stated independently of the loop. A `NaN`
      first energy is never displaced, since no comparison with `NaN` holds;
      otherwise the choice is the first of the numeric energies of least
      value, later `NaN`s being passed over. */
  predicate IsFirstMinimum(es: seq<Energy>, i: int)
  {
    && 0 <= i < |es|
    && (es[0].NaN? ==> i == 0)
    && (es[0].Sum? ==>
          && es[i].Sum?
          && (forall j :: 0 <= j < |es| && es[j].Sum? ==> es[i].n <= es[j].n)
          && (forall j :: 0 <= j < i && es[j].Sum? ==> es[i].n < es[j].n))
  }

  /** The selection loops return the first-seen minimum. */
  lemma {:induction false} PickIsFirstMinimum(es: seq<Energy>)
    requires |es| > 0
    ensures IsFirstMinimum(es, Pick(es))
  {
    if |es| > 1 {
      var init := es[..|es| - 1];
      PickIsFirstMinimum(init);
      assert forall j :: 0 <= j < |init| ==> init[j] == es[j];
    }
  }

  /** There is only one first-seen minimum, so it is what the loops pick. */
  lemma FirstMinimumIsPick(es: seq<Energy>, i: int)
    requires IsFirstMinimum(es, i)
    ensures i == Pick(es)
  {
    PickIsFirstMinimum(es);
  }

  /** The energies of a prefix and the one that follows. */
  lemma PickSnoc(es: seq<Energy>, e: Energy)
    requires |es| > 0
    ensures Pick(es + [e]) == if Less(e, es[Pick(es)]) then |es| else Pick(es)
  {
    assert (es + [e])[..|es|] == es;
  }

  // ---------------------------------------------------------------------
  // Search

  /** One round of `hillClimb`: a mutation of the best state so far, drawn
      from the next element of the stream, and the energy the worker gives
      it. */
  method Challenger(best: State, rng: Rng, g: Shapes.Geometry) returns (r: Option<State>, e: Energy)
    requires best.Valid() && best.worker.Ready() && Shapes.SqrtNonNegative(g)
    modifies best.worker, best.worker.buffer.data, rng
    ensures best.worker.current == old(best.worker.current) && best.worker.score == old(best.worker.score)
    ensures rng.pos == old(rng.pos) + 1
    ensures var d := rng.stream(old(rng.pos)); var w := best.worker;
      && (r.None? <==> Shapes.Mutate(best.shape, d.mutation, g).None?)
      && (r.Some? ==>
            && fresh(r.value) && r.value.Valid() && r.value.score == Some(e)
            && MutatedFrom(r.value.Value(), best.Value(), d, g)
            && w.counter == old(w.counter) + 1
            && Scores(w.partials, w.target.data[..], w.current.value.data[..], w.width, w.height, w.score,
                      Shapes.Lines(r.value.shape, g), r.value.alpha, old(w.buffer.data[..]), e, w.buffer.data[..]))
  {
    r := best.Mutate(rng, g);
    e := NaN;
    if r.Some? {
      e := r.value.Energy(g);
    }
  }

  /** A challenger `v` of `best`: a mutation of it on draws `d`, whose
      energy `e` is its worker's `energy`, which leaves `after` in the
      scratch buffer that held `before`. */
  ghost predicate Tried(v: StateValue, best: StateValue, d: Draws, g: Shapes.Geometry, partials: bool,
                        t: seq<Byte>, cur: seq<Byte>, w: int, h: int, score: Energy,
                        before: seq<Byte>, e: Energy, after: seq<Byte>)
  {
    && MutatedFrom(v, best, d, g)
    && Scores(partials, t, cur, w, h, score, Shapes.Lines(v.shape, g), v.alpha, before, e, after)
  }

  /** A `Challenger` as the loop of `hillClimb` sees it: a fresh, valid
      state on the same worker that is a mutation of `best`, scored by the
      worker's `energy`, or none, at the cost of one draw. */
  method Attempt(best: State, rng: Rng, g: Shapes.Geometry) returns (r: Option<State>, e: Energy)
    requires best.Valid() && best.worker.Ready() && Shapes.SqrtNonNegative(g)
    modifies best.worker, best.worker.buffer.data, rng
    ensures best.worker.current == old(best.worker.current) && best.worker.score == old(best.worker.score)
    ensures rng.pos == old(rng.pos) + 1
    ensures r.None? <==> Shapes.Mutate(best.shape, rng.stream(old(rng.pos)).mutation, g).None?
    ensures r.Some? ==> fresh(r.value) && r.value.Valid() && r.value.worker == best.worker && r.value.score == Some(e)
    ensures var w := best.worker;
      r.Some? ==>
        && w.counter == old(w.counter) + 1
        && Tried(r.value.Value(), best.Value(), rng.stream(old(rng.pos)), g, w.partials, w.target.data[..],
                 w.current.value.data[..], w.width, w.height, w.score, old(w.buffer.data[..]), e, w.buffer.data[..])
  {
    r, e := Challenger(best, rng, g);
  }

  /** `hillClimb(state, maxAge)`: mutations of the current best state are
      scored; a strictly better one replaces it and resets `age`. The result
      is the input itself, or a fresh state of strictly lower energy; with
      `maxAge <= 0` nothing is tried. The model also stops when a triangle's
      retry loop runs out of draws. */
  method HillClimb(state: State, maxAge: int, rng: Rng, g: Shapes.Geometry) returns (best: State)
    requires state.Valid() && state.worker.Ready() && Shapes.SqrtNonNegative(g)
    modifies state, state.worker, state.worker.buffer.data, rng
    ensures best.Valid() && best.worker == state.worker && state.score.Some? && best.score.Some?
    ensures best == state || (fresh(best) && Less(best.score.value, state.score.value))
    ensures maxAge <= 0 ==> best == state
    ensures state.shape == old(state.shape) && state.alpha == old(state.alpha)
    ensures old(state.score).Some? ==> unchanged(state)
    ensures state.worker.current == old(state.worker.current) && state.worker.score == old(state.worker.score)
    ensures rng.pos >= old(rng.pos)
  {
    var w := state.worker;
    best := state;
    var bestEnergy := state.Energy(g);
    ghost var start := bestEnergy;
    var age := 0;
    while age < maxAge
      invariant best.Valid() && best.worker == w && best.score == Some(bestEnergy) && state.score == Some(start)
      invariant best == state || (fresh(best) && Less(bestEnergy, start))
      invariant maxAge <= 0 ==> best == state
      invariant state.shape == old(state.shape) && state.alpha == old(state.alpha)
      invariant old(state.score).Some? ==> unchanged(state)
      invariant w.current == old(w.current) && w.score == old(w.score)
      invariant rng.pos >= old(rng.pos)
      decreases if bestEnergy.Sum? then bestEnergy.n + 1 else 0, maxAge - age
    {
      var m, newEnergy := Attempt(best, rng, g);
      if m.None? {
        return;
      }
      var newState := m.value;
      if Less(newEnergy, bestEnergy) {
        bestEnergy := newEnergy;
        best := newState;
        age := -1;
      }
      age := age + 1;
    }
  }

  /** The options of one search. */
  datatype GetStateOptions = GetStateOptions(numCandidateShapes: int, numCandidateMutations: int,
                                             shapeType: Shapes.ShapeType, shapeAlpha: int)

  /** The trace of one `getBestRandomState`: the stream position of its
      first draw, the candidates in creation order (their fields once
      scored), their energies, and the worker's scratch buffer before each
      candidate and after the last. */
  datatype Search = Search(start: nat, cands: seq<StateValue>, energies: seq<Energy>, bufs: seq<seq<Byte>>)

  /** Candidate `k` of `s` is the state `State.create` built from the draws
      at stream position `s.start + k`, scored with energy `s.energies[k]`. */
  ghost predicate Created(s: Search, worker: Worker, shapeType: Shapes.ShapeType, alpha: int,
                          stream: nat -> Draws, g: Shapes.Geometry)
  {
    && |s.energies| == |s.cands|
    && (forall k :: 0 <= k < |s.cands| ==> s.cands[k].score == Some(s.energies[k]))
    && forall k :: 0 <= k < |s.cands| ==> CreatedAt(s, k, worker, shapeType, alpha, stream, g)
  }

  /** Candidate `k` of `s` is `State.create` from stream element `s.start + k`. */
  ghost predicate CreatedAt(s: Search, k: int, worker: Worker, shapeType: Shapes.ShapeType, alpha: int,
                            stream: nat -> Draws, g: Shapes.Geometry)
    requires 0 <= k < |s.cands|
  {
    Built(s.cands[k], worker, shapeType, alpha, stream(s.start + k).create, g)
  }

  /** The worker scored the candidates of `s` one after the other, against
      the target `t` and the snapshot `cur` of score `score`: its scratch
      buffer held `s.bufs[k]` before candidate `k` and `s.bufs[k + 1]`
      after. */
  ghost predicate ScoredInOrder(s: Search, worker: Worker, t: seq<Byte>, cur: seq<Byte>, score: Energy, g: Shapes.Geometry)
  {
    && |s.energies| == |s.cands| && |s.bufs| == |s.cands| + 1
    && forall k :: 0 <= k < |s.cands| ==> ScoredAt(s, k, worker, t, cur, score, g)
  }

  /** Scoring candidate `k` of `s` gave `s.energies[k]` and took the scratch
      buffer from `s.bufs[k]` to `s.bufs[k + 1]`. */
  ghost predicate ScoredAt(s: Search, k: int, worker: Worker, t: seq<Byte>, cur: seq<Byte>, score: Energy, g: Shapes.Geometry)
    requires |s.energies| == |s.cands| && |s.bufs| == |s.cands| + 1 && 0 <= k < |s.cands|
  {
    Scores(worker.partials, t, cur, worker.width, worker.height, score, Shapes.Lines(s.cands[k].shape, g),
           s.cands[k].alpha, s.bufs[k], s.energies[k], s.bufs[k + 1])
  }

  /** `best` is what `getBestHillClimbState(worker, opts)` returns after the
      random search `s`: `numCandidateShapes` created and scored candidates,
      then the first-seen minimum among them, or a state of strictly lower
      energy that hill climbing found. */
  ghost predicate Searched(s: Search, worker: Worker, opts: GetStateOptions, stream: nat -> Draws,
                           t: seq<Byte>, cur: seq<Byte>, score: Energy, best: StateValue, g: Shapes.Geometry)
  {
    && |s.cands| > 0 && |s.cands| == opts.numCandidateShapes
    && Created(s, worker, opts.shapeType, opts.shapeAlpha, stream, g)
    && ScoredInOrder(s, worker, t, cur, score, g)
    && best.worker == worker && best.score.Some?
    && (best == s.cands[Pick(s.energies)] || Less(best.score.value, s.energies[Pick(s.energies)]))
  }

  /** One round of `getBestRandomState`: `State.create` from the next
      element of the stream, and the energy the worker gives the new state,
      which costs one evaluation. */
  method Candidate(worker: Worker, shapeType: Shapes.ShapeType, shapeAlpha: int, rng: Rng, g: Shapes.Geometry)
    returns (r: Option<State>, e: Energy)
    requires worker.Valid() && worker.Ready() && Shapes.SqrtNonNegative(g)
    modifies worker, worker.buffer.data, rng
    ensures worker.current == old(worker.current) && worker.score == old(worker.score)
    ensures rng.pos == old(rng.pos) + 1
    ensures var d := rng.stream(old(rng.pos)).create;
      && (r.None? <==> Shapes.New(shapeType, Shapes.Options(worker.width, worker.height, None), d, g).None?)
      && (r.Some? ==>
            && fresh(r.value) && r.value.Valid() && r.value.score == Some(e)
            && Built(r.value.Value(), worker, shapeType, shapeAlpha, d, g)
            && worker.counter == old(worker.counter) + 1
            && Scores(worker.partials, worker.target.data[..], worker.current.value.data[..], worker.width,
                      worker.height, worker.score, Shapes.Lines(r.value.shape, g), r.value.alpha,
                      old(worker.buffer.data[..]), e, worker.buffer.data[..]))
  {
    r := State.Create(worker, shapeType, shapeAlpha, rng, g);
    e := NaN;
    if r.Some? {
      e := r.value.Energy(g);
    }
  }

  /** The factory builds a shape of type `shapeType` on a `w` by `h`
      canvas from stream element `pos`. */
  ghost predicate Builds(shapeType: Shapes.ShapeType, w: int, h: int, stream: nat -> Draws, pos: nat, g: Shapes.Geometry)
  {
    Shapes.New(shapeType, Shapes.Options(w, h, None), stream(pos).create, g).Some?
  }

  /** Each of the `n` stream elements from `start` on builds a shape. */
  ghost predicate AllBuild(shapeType: Shapes.ShapeType, w: int, h: int, stream: nat -> Draws, start: nat, n: int,
                           g: Shapes.Geometry)
  {
    forall p: nat :: start <= p < start + n ==> Builds(shapeType, w, h, stream, p, g)
  }

  /** Every stream element from `start` on builds a shape. */
  ghost predicate BuildsFrom(shapeType: Shapes.ShapeType, w: int, h: int, stream: nat -> Draws, start: nat,
                             g: Shapes.Geometry)
  {
    forall p: nat :: start <= p ==> Builds(shapeType, w, h, stream, p, g)
  }

  /** Only the triangle's retry loop can fail, so every other type builds
      from every stream element on. */
  lemma NeverFailsBuildsFrom(shapeType: Shapes.ShapeType, w: int, h: int, stream: nat -> Draws, start: nat,
                             g: Shapes.Geometry)
    requires shapeType !in {Shapes.TriangleType, Shapes.RandomType}
    ensures BuildsFrom(shapeType, w, h, stream, start, g)
  {
    forall p: nat | start <= p
      ensures Builds(shapeType, w, h, stream, p, g)
    {
      var r := Shapes.New(shapeType, Shapes.Options(w, h, None), stream(p).create, g);
      assert r.None? ==> shapeType in {Shapes.TriangleType, Shapes.RandomType};
    }
  }

  /** A run that builds grows by one element exactly when that element
      builds. */
  lemma AllBuildSnoc(shapeType: Shapes.ShapeType, w: int, h: int, stream: nat -> Draws, start: nat, n: nat, pos: nat,
                     g: Shapes.Geometry)
    requires AllBuild(shapeType, w, h, stream, start, n, g) && pos == start + n
    ensures AllBuild(shapeType, w, h, stream, start, n + 1, g) <==> Builds(shapeType, w, h, stream, pos, g)
  {
  }

  /** A shorter run from the same element builds too. */
  lemma AllBuildPrefix(shapeType: Shapes.ShapeType, w: int, h: int, stream: nat -> Draws, start: nat, n: int, m: int,
                       g: Shapes.Geometry)
    requires AllBuild(shapeType, w, h, stream, start, n, g) && m <= n
    ensures AllBuild(shapeType, w, h, stream, start, m, g)
  {
  }

  /** A run of stream elements inside one where every element builds. */
  lemma BuildsFromAll(shapeType: Shapes.ShapeType, w: int, h: int, stream: nat -> Draws, start: nat, pos: nat, n: int,
                      g: Shapes.Geometry)
    requires BuildsFrom(shapeType, w, h, stream, start, g) && start <= pos
    ensures AllBuild(shapeType, w, h, stream, pos, n, g)
  {
  }

  /** `getBestRandomState(worker, opts)`: exactly `numCandidateShapes` new
      states are created from consecutive draws and scored in order, and the
      first-seen minimum of them is returned. `None` (the source's `null`)
      exactly when there is no candidate or the factory builds nothing from
      one of those draws, which only a triangle's retry loop can do. */
  method GetBestRandomState(worker: Worker, numCandidateShapes: int, shapeType: Shapes.ShapeType, shapeAlpha: int,
                            rng: Rng, g: Shapes.Geometry)
    returns (r: Option<State>, ghost s: Search)
    requires worker.Valid() && worker.Ready() && Shapes.SqrtNonNegative(g)
    modifies worker, worker.buffer.data, rng
    ensures worker.current == old(worker.current) && worker.score == old(worker.score)
    ensures rng.pos >= old(rng.pos)
    ensures r.Some? <==>
      numCandidateShapes > 0 && AllBuild(shapeType, worker.width, worker.height, rng.stream, old(rng.pos), numCandidateShapes, g)
    ensures r.Some? ==>
      && |s.cands| == numCandidateShapes && s.start == old(rng.pos) && rng.pos == old(rng.pos) + numCandidateShapes
      && worker.counter == old(worker.counter) + numCandidateShapes
      && fresh(r.value) && r.value.Valid() && r.value.worker == worker
      && Created(s, worker, shapeType, shapeAlpha, rng.stream, g)
      && ScoredInOrder(s, worker, worker.target.data[..], worker.current.value.data[..], worker.score, g)
      && s.bufs[0] == old(worker.buffer.data[..]) && s.bufs[|s.cands|] == worker.buffer.data[..]
      && r.value.Value() == s.cands[Pick(s.energies)]
  {
    ghost var t, cur := worker.target.data[..], worker.current.value.data[..];
    var bestEnergy := NaN;
    var best: Option<State> := None;
    s := Search(rng.pos, [], [], [worker.buffer.data[..]]);
    var i := 0;
    while i < numCandidateShapes
      invariant 0 <= i && (i == 0 || i <= numCandidateShapes)
      invariant |s.cands| == i && s.start == old(rng.pos) && rng.pos == old(rng.pos) + i
      invariant worker.counter == old(worker.counter) + i
      invariant worker.current == old(worker.current) && worker.score == old(worker.score)
      invariant worker.target.data[..] == t && worker.current.value.data[..] == cur
      invariant Created(s, worker, shapeType, shapeAlpha, rng.stream, g)
      invariant ScoredInOrder(s, worker, t, cur, worker.score, g)
      invariant s.bufs[0] == old(worker.buffer.data[..]) && s.bufs[i] == worker.buffer.data[..]
      invariant best.None? <==> i == 0
      invariant AllBuild(shapeType, worker.width, worker.height, rng.stream, old(rng.pos), i, g)
      invariant best.Some? ==>
        && fresh(best.value) && best.value.Valid() && best.value.worker == worker
        && best.value.Value() == s.cands[Pick(s.energies)] && bestEnergy == s.energies[Pick(s.energies)]
    {
      var found;
      found, best, bestEnergy, s := Consider(worker, shapeType, shapeAlpha, rng, g, s, t, cur, i, best, bestEnergy);
      if !found {
        if numCandidateShapes > 0 && AllBuild(shapeType, worker.width, worker.height, rng.stream, old(rng.pos), numCandidateShapes, g) {
          AllBuildPrefix(shapeType, worker.width, worker.height, rng.stream, old(rng.pos), numCandidateShapes, i + 1, g);
        }
        return None, s;
      }
      i := i + 1;
    }
    r := best;
  }

  /** The body of the loop of `getBestRandomState`: a `Round`, then the
      `Keep` test, so that the kept state stays the first-seen minimum of
      the trace. `found` is false when the factory builds nothing. */
  method Consider(worker: Worker, shapeType: Shapes.ShapeType, shapeAlpha: int, rng: Rng, g: Shapes.Geometry,
                  ghost s: Search, ghost t: seq<Byte>, ghost cur: seq<Byte>, i: nat, best: Option<State>, bestEnergy: Energy)
    returns (found: bool, best': Option<State>, bestEnergy': Energy, ghost s': Search)
    requires worker.Valid() && worker.Ready() && Shapes.SqrtNonNegative(g)
    requires t == worker.target.data[..] && cur == worker.current.value.data[..]
    requires Created(s, worker, shapeType, shapeAlpha, rng.stream, g) && ScoredInOrder(s, worker, t, cur, worker.score, g)
    requires rng.pos == s.start + |s.cands| && s.bufs[|s.cands|] == worker.buffer.data[..]
    requires AllBuild(shapeType, worker.width, worker.height, rng.stream, s.start, |s.cands|, g)
    requires i == |s.cands| && (best.None? <==> i == 0)
    requires best.Some? ==>
      && best.value.Valid() && best.value.worker == worker
      && best.value.Value() == s.cands[Pick(s.energies)] && bestEnergy == s.energies[Pick(s.energies)]
    modifies worker, worker.buffer.data, rng
    ensures worker.current == old(worker.current) && worker.score == old(worker.score) && rng.pos == old(rng.pos) + 1
    ensures worker.target.data[..] == t && worker.current.value.data[..] == cur
    ensures !found ==> !AllBuild(shapeType, worker.width, worker.height, rng.stream, s.start, |s.cands| + 1, g)
    ensures found ==>
      && AllBuild(shapeType, worker.width, worker.height, rng.stream, s.start, |s.cands| + 1, g)
      && worker.counter == old(worker.counter) + 1
      && |s'.cands| == |s.cands| + 1 && s'.start == s.start
      && Created(s', worker, shapeType, shapeAlpha, rng.stream, g) && ScoredInOrder(s', worker, t, cur, worker.score, g)
      && s'.bufs[0] == s.bufs[0] && s'.bufs[|s'.cands|] == worker.buffer.data[..]
      && best'.Some? && (best' == best || fresh(best'.value))
      && best'.value.Valid() && best'.value.worker == worker
      && best'.value.Value() == s'.cands[Pick(s'.energies)] && bestEnergy' == s'.energies[Pick(s'.energies)]
  {
    var c, e;
    c, e, s' := Round(worker, shapeType, shapeAlpha, rng, g, s, t, cur);
    found, best', bestEnergy' := c.Some?, best, bestEnergy;
    if found {
      best', bestEnergy' := Keep(i, best, bestEnergy, c.value, e, s, s');
    }
  }

  /** The test `!i || energy < bestEnergy` of `getBestRandomState`: after
      one more candidate `c` of energy `e`, the state kept is the first-seen
      minimum of the longer trace. */
  method Keep(i: nat, best: Option<State>, bestEnergy: Energy, c: State, e: Energy, ghost prev: Search, ghost s: Search)
    returns (best': Option<State>, bestEnergy': Energy)
    requires |prev.cands| == i && |prev.energies| == i
    requires s.energies == prev.energies + [e] && s.cands == prev.cands + [c.Value()]
    requires best.None? <==> i == 0
    requires best.Some? ==>
      best.value.Value() == prev.cands[Pick(prev.energies)] && bestEnergy == prev.energies[Pick(prev.energies)]
    ensures best' == best || best' == Some(c)
    ensures best'.Some? && best'.value.Value() == s.cands[Pick(s.energies)] && bestEnergy' == s.energies[Pick(s.energies)]
  {
    if i > 0 {
      PickSnoc(prev.energies, e);
      assert s.cands[Pick(prev.energies)] == prev.cands[Pick(prev.energies)];
    }
    best', bestEnergy' := best, bestEnergy;
    if i == 0 || Less(e, bestEnergy) {
      best', bestEnergy' := Some(c), e;
    }
  }

  /** One round of the loop of `getBestRandomState`: a `Candidate`, and the
      trace `s` extended by it. */
  method Round(worker: Worker, shapeType: Shapes.ShapeType, shapeAlpha: int, rng: Rng, g: Shapes.Geometry,
               ghost s: Search, ghost t: seq<Byte>, ghost cur: seq<Byte>)
    returns (c: Option<State>, e: Energy, ghost s': Search)
    requires worker.Valid() && worker.Ready() && Shapes.SqrtNonNegative(g)
    requires t == worker.target.data[..] && cur == worker.current.value.data[..]
    requires Created(s, worker, shapeType, shapeAlpha, rng.stream, g) && ScoredInOrder(s, worker, t, cur, worker.score, g)
    requires rng.pos == s.start + |s.cands| && s.bufs[|s.cands|] == worker.buffer.data[..]
    requires AllBuild(shapeType, worker.width, worker.height, rng.stream, s.start, |s.cands|, g)
    modifies worker, worker.buffer.data, rng
    ensures worker.current == old(worker.current) && worker.score == old(worker.score) && rng.pos == old(rng.pos) + 1
    ensures worker.target.data[..] == t && worker.current.value.data[..] == cur
    ensures c.None? <==> !Builds(shapeType, worker.width, worker.height, rng.stream, old(rng.pos), g)
    ensures c.None? ==> !AllBuild(shapeType, worker.width, worker.height, rng.stream, s.start, |s.cands| + 1, g)
    ensures c.Some? ==> AllBuild(shapeType, worker.width, worker.height, rng.stream, s.start, |s.cands| + 1, g)
    ensures c.Some? ==>
      && fresh(c.value) && c.value.Valid() && c.value.worker == worker && c.value.score == Some(e)
      && worker.counter == old(worker.counter) + 1
      && s' == Extend(s, c.value.Value(), e, worker.buffer.data[..])
      && Created(s', worker, shapeType, shapeAlpha, rng.stream, g) && ScoredInOrder(s', worker, t, cur, worker.score, g)
  {
    ghost var pos := rng.pos;
    c, e := Candidate(worker, shapeType, shapeAlpha, rng, g);
    AllBuildSnoc(shapeType, worker.width, worker.height, rng.stream, s.start, |s.cands|, pos, g);
    s' := s;
    if c.Some? {
      CreatedExtend(s, c.value.Value(), e, worker.buffer.data[..], worker, shapeType, shapeAlpha, rng.stream, pos, g);
      ScoredExtend(s, c.value.Value(), e, worker.buffer.data[..], worker, t, cur, worker.score, g);
      s' := Extend(s, c.value.Value(), e, worker.buffer.data[..]);
    }
  }

  /** The trace `s` with one more candidate `c` of energy `e`, after which
      the scratch buffer holds `buf`. */
  function Extend(s: Search, c: StateValue, e: Energy, buf: seq<Byte>): (r: Search)
    ensures r.start == s.start && r.cands == s.cands + [c] && r.energies == s.energies + [e] && r.bufs == s.bufs + [buf]
  {
    Search(s.start, s.cands + [c], s.energies + [e], s.bufs + [buf])
  }

  lemma CreatedExtend(s: Search, c: StateValue, e: Energy, buf: seq<Byte>, worker: Worker, shapeType: Shapes.ShapeType,
                      alpha: int, stream: nat -> Draws, pos: nat, g: Shapes.Geometry)
    requires Created(s, worker, shapeType, alpha, stream, g) && pos == s.start + |s.cands|
    requires c.score == Some(e) && Built(c, worker, shapeType, alpha, stream(pos).create, g)
    ensures Created(Extend(s, c, e, buf), worker, shapeType, alpha, stream, g)
  {
    var r := Extend(s, c, e, buf);
    forall k | 0 <= k < |r.cands|
      ensures r.cands[k].score == Some(r.energies[k])
      ensures CreatedAt(r, k, worker, shapeType, alpha, stream, g)
    {
      if k < |s.cands| {
        assert r.cands[k] == s.cands[k] && r.energies[k] == s.energies[k];
        assert CreatedAt(s, k, worker, shapeType, alpha, stream, g);
      }
    }
  }

  lemma ScoredExtend(s: Search, c: StateValue, e: Energy, buf: seq<Byte>, worker: Worker, t: seq<Byte>, cur: seq<Byte>,
                     score: Energy, g: Shapes.Geometry)
    requires ScoredInOrder(s, worker, t, cur, score, g)
    requires Scores(worker.partials, t, cur, worker.width, worker.height, score, Shapes.Lines(c.shape, g), c.alpha,
                    s.bufs[|s.cands|], e, buf)
    ensures ScoredInOrder(Extend(s, c, e, buf), worker, t, cur, score, g)
  {
    var r := Extend(s, c, e, buf);
    forall k | 0 <= k < |r.cands|
      ensures ScoredAt(r, k, worker, t, cur, score, g)
    {
      if k < |s.cands| {
        assert r.cands[k] == s.cands[k] && r.energies[k] == s.energies[k];
        assert r.bufs[k] == s.bufs[k] && r.bufs[k + 1] == s.bufs[k + 1];
        assert ScoredAt(s, k, worker, t, cur, score, g);
      }
    }
  }

  /** `getBestHillClimbState(worker, opts)`: the best random candidate,
      improved by `hillClimb`; never worse than that candidate. */
  method GetBestHillClimbState(worker: Worker, opts: GetStateOptions, rng: Rng, g: Shapes.Geometry)
    returns (r: Option<State>, ghost s: Search)
    requires worker.Valid() && worker.Ready() && Shapes.SqrtNonNegative(g)
    modifies worker, worker.buffer.data, rng
    ensures worker.current == old(worker.current) && worker.score == old(worker.score)
    ensures rng.pos >= old(rng.pos)
    ensures r.Some? <==>
      opts.numCandidateShapes > 0
      && AllBuild(opts.shapeType, worker.width, worker.height, rng.stream, old(rng.pos), opts.numCandidateShapes, g)
    ensures r.Some? ==>
      && Searched(s, worker, opts, rng.stream, worker.target.data[..], worker.current.value.data[..], worker.score,
                  r.value.Value(), g)
      && s.start == old(rng.pos) && s.bufs[0] == old(worker.buffer.data[..]) && fresh(r.value) && r.value.Valid()
  {
    var c;
    c, s := GetBestRandomState(worker, opts.numCandidateShapes, opts.shapeType, opts.shapeAlpha, rng, g);
    if c.None? {
      return None, s;
    }
    ghost var k := Pick(s.energies);
    assert c.value.score == Some(s.energies[k]);
    var b := HillClimb(c.value, opts.numCandidateMutations, rng, g);
    r := Some(b);
  }
}
