/** The two iteration drivers, the `Iterate` overloads, as the traces they
    produce. The fixed-step driver runs the stream-collision pipeline a given
    number of times and checkpoints periodically; the threshold driver
    checkpoints periodically until the largest residual falls below a
    criterion. Both announce the run and tear the model down once at the
    end. */
module Drivers {
  import opened Model
  import opened Ops
  import opened Residual
  import opened Pipeline

  // ---------------------------------------------------------------------
  // Integer division by the checkpoint period

  lemma MulLe(a: int, b: int, p: int)
    requires a <= b && p >= 0
    ensures a * p <= b * p
  {
    assert b * p - a * p == (b - a) * p;
  }

  /** Euclidean division by a positive period has one quotient and one
      remainder. */
  lemma DivUnique(x: int, p: int, q: int, r: int)
    requires p > 0 && 0 <= r < p && x == q * p + r
    ensures x / p == q && x % p == r
  {
    var q', r' := x / p, x % p;
    assert x == q' * p + r' && 0 <= r' < p;
    if q' < q {
      assert (q' + 1) * p == q' * p + p;
      MulLe(q' + 1, q, p);
      assert false;
    } else if q' > q {
      assert (q + 1) * p == q * p + p;
      MulLe(q + 1, q', p);
      assert false;
    }
  }

  lemma MulMod(c: nat, p: nat, r: nat)
    requires p > 0 && r < p
    ensures (c * p + r) % p == r && (c * p + r) / p == c
  {
    DivUnique(c * p + r, p, c, r);
  }

  /** Stepping `k` by one adds one to `k / p` exactly at the multiples of `p`. */
  lemma DivStep(k: int, p: int)
    requires p > 0 && k >= 1
    ensures k / p == (k - 1) / p + (if k % p == 0 then 1 else 0)
  {
    var q, r := (k - 1) / p, (k - 1) % p;
    assert k - 1 == q * p + r;
    if r + 1 == p {
      assert k == (q + 1) * p + 0;
      DivUnique(k, p, q + 1, 0);
    } else {
      DivUnique(k, p, q, r + 1);
    }
  }

  // ---------------------------------------------------------------------
  // Observing a trace

  /** The values `f` picks out of the events of `es`, in trace order. */
  function Pick<T>(es: seq<Event>, f: Event -> Option<T>): seq<T>
    decreases |es|
  {
    if es == [] then []
    else Pick(es[..|es| - 1], f) + (match f(es[|es| - 1]) case Some(v) => [v] case None => [])
  }

  lemma {:induction false} PickAppend<T>(xs: seq<Event>, ys: seq<Event>, f: Event -> Option<T>)
    ensures Pick(xs + ys, f) == Pick(xs, f) + Pick(ys, f)
    decreases |ys|
  {
    if ys == [] {
      assert xs + ys == xs;
    } else {
      var init := ys[..|ys| - 1];
      assert (xs + ys)[..|xs + ys| - 1] == xs + init;
      PickAppend(xs, init, f);
    }
  }

  /** Nothing is picked exactly when no event is picked. */
  lemma {:induction false} PickNone<T>(es: seq<Event>, f: Event -> Option<T>)
    ensures Pick(es, f) == [] <==> forall e :: e in es ==> f(e).None?
    decreases |es|
  {
    if es != [] {
      var init := es[..|es| - 1];
      var last := es[|es| - 1];
      assert es == init + [last];
      assert forall e :: e in es <==> e in init || e == last;
      PickNone(init, f);
    }
  }

  lemma PickOne<T>(e: Event, f: Event -> Option<T>)
    ensures Pick([e], f) == match f(e) case Some(v) => [v] case None => []
  {
    assert [e][..0] == [];
  }

  /** The time of a body-force update: one per pipeline run. */
  function ForceTime(e: Event): Option<real> {
    if e.UpdateMacroscopicBodyForce? then Some(e.time) else None
  }

  /** The iteration of a residual display: one per checkpoint. */
  function DisplayIter(e: Event): Option<nat> {
    if e.DisplayResidual? then Some(e.iter) else None
  }

  /** The events that end a run. */
  predicate TeardownEvent(e: Event) {
    e.DestroyModel? || e.DestroyFlowfield? || e == Printf(Finished)
  }

  function TeardownMark(e: Event): Option<Event> {
    if TeardownEvent(e) then Some(e) else None
  }

  /** The stage of an event of a pipeline stage after the macroscopic
      update: envelope copy, body-force update, body-force and collision
      terms, streaming, halo exchange or boundary treatment. */
  function StageMark(e: Event): Option<Stage> {
    if Rank(StageOf(e)) >= 2 then Some(StageOf(e)) else None
  }

  /** Events of pipeline stages are neither displays nor teardown events,
      and are body-force updates only where that stage is in range. */
  lemma StagedPicks(es: seq<Event>, lo: nat, hi: nat)
    requires RanksIn(es, lo, hi) && 1 <= lo
    ensures Pick(es, DisplayIter) == [] && Pick(es, TeardownMark) == []
    ensures 3 < lo || hi < 3 ==> Pick(es, ForceTime) == []
  {
    PickNone(es, DisplayIter);
    PickNone(es, TeardownMark);
    PickNone(es, ForceTime);
  }

  /** An event of the checkpoint's bookkeeping: the macroscopic update or
      the convergence monitor. */
  predicate Bookkeeping(e: Event) {
    MonitorCall(e) || (e.ParLoop? && e.call.Physics? && e.call.kernel == KerCalcMacroVars3D)
  }

  lemma BookkeepingPicks(es: seq<Event>)
    requires forall e :: e in es ==> Bookkeeping(e)
    ensures Pick(es, ForceTime) == [] && Pick(es, DisplayIter) == []
    ensures Pick(es, TeardownMark) == [] && Pick(es, StageMark) == []
  {
    PickNone(es, ForceTime);
    PickNone(es, DisplayIter);
    PickNone(es, TeardownMark);
    PickNone(es, StageMark);
  }

  lemma MacroVarsPicks(cfg: Config)
    ensures var es := MacroVarsEvents(cfg);
            Pick(es, ForceTime) == [] && Pick(es, DisplayIter) == [] &&
            Pick(es, TeardownMark) == [] && Pick(es, StageMark) == []
  {
    var es := MacroVarsEvents(cfg);
    forall e | e in es ensures Bookkeeping(e) {
      var b :| 0 <= b < |es| && es[b] == e;
    }
    BookkeepingPicks(es);
  }

  lemma ResidualPicks(cfg: Config)
    ensures var es := ResidualEvents(cfg);
            Pick(es, ForceTime) == [] && Pick(es, DisplayIter) == [] &&
            Pick(es, TeardownMark) == [] && Pick(es, StageMark) == []
  {
    ResidualCallsOnly(cfg);
    BookkeepingPicks(ResidualEvents(cfg));
  }

  // ---------------------------------------------------------------------
  // Checkpoints

  /** `checkPointPeriod * TimeStep()`, the `checkPeriod` both drivers hand
      to `DispResidualError3D` and to `GetMaximumResidual`. */
  function CheckPeriod(cfg: Config, p: nat): real {
    p as real * cfg.timeStep
  }

  /** The three HDF5 writers a checkpoint calls, in call order. */
  function Writes3(iter: nat): seq<Event> {
    [WriteFlowfield(iter), WriteDistributions(iter), WriteNodeProperty(iter)]
  }

  /** A checkpoint of either driver at iteration `iter`: the macroscopic
      update, the residual calculation, its display, then the writers. */
  function CheckpointEvents(cfg: Config, iter: nat, checkPeriod: real): seq<Event> {
    MacroVarsEvents(cfg) + ResidualEvents(cfg) + [DisplayResidual(iter, checkPeriod)] + Writes3(iter)
  }

  lemma CheckpointSplit<T>(cfg: Config, iter: nat, checkPeriod: real, f: Event -> Option<T>)
    ensures Pick(CheckpointEvents(cfg, iter, checkPeriod), f) ==
            Pick(MacroVarsEvents(cfg), f) + Pick(ResidualEvents(cfg), f) +
            Pick([DisplayResidual(iter, checkPeriod)], f) + Pick(Writes3(iter), f)
  {
    var a, b, d := MacroVarsEvents(cfg), ResidualEvents(cfg), [DisplayResidual(iter, checkPeriod)];
    PickAppend(a, b, f);
    PickAppend(a + b, d, f);
    PickAppend(a + b + d, Writes3(iter), f);
  }

  lemma OutputPicks(iter: nat, checkPeriod: real)
    ensures var d := [DisplayResidual(iter, checkPeriod)];
            Pick(d, ForceTime) == [] && Pick(d, DisplayIter) == [iter] &&
            Pick(d, TeardownMark) == [] && Pick(d, StageMark) == []
    ensures var w := Writes3(iter);
            Pick(w, ForceTime) == [] && Pick(w, DisplayIter) == [] &&
            Pick(w, TeardownMark) == [] && Pick(w, StageMark) == []
  {
    var d := DisplayResidual(iter, checkPeriod);
    PickOne(d, ForceTime);
    PickOne(d, DisplayIter);
    PickOne(d, TeardownMark);
    PickOne(d, StageMark);
    PickNone(Writes3(iter), ForceTime);
    PickNone(Writes3(iter), DisplayIter);
    PickNone(Writes3(iter), TeardownMark);
    PickNone(Writes3(iter), StageMark);
  }

  /** A checkpoint updates no body force, runs no pipeline stage but the
      macroscopic update, tears nothing down, and displays the residual
      once, for its own iteration. */
  lemma CheckpointPicks(cfg: Config, iter: nat, checkPeriod: real)
    ensures var es := CheckpointEvents(cfg, iter, checkPeriod);
            Pick(es, ForceTime) == [] && Pick(es, DisplayIter) == [iter] &&
            Pick(es, TeardownMark) == [] && Pick(es, StageMark) == []
  {
    MacroVarsPicks(cfg);
    ResidualPicks(cfg);
    OutputPicks(iter, checkPeriod);
    CheckpointSplit(cfg, iter, checkPeriod, ForceTime);
    CheckpointSplit(cfg, iter, checkPeriod, DisplayIter);
    CheckpointSplit(cfg, iter, checkPeriod, TeardownMark);
    CheckpointSplit(cfg, iter, checkPeriod, StageMark);
  }

  /** The pipeline updates the body force once, at its own time. */
  lemma PipelineForceTimes(cfg: Config, time: real)
    requires cfg.WellFormed()
    ensures Pick(PipelineEvents(cfg, time), ForceTime) == [time]
  {
    var u := UpdateMacroscopicBodyForce(time);
    PipelineAroundForce(cfg, time);
    BeforeForceRanks(cfg);
    AfterForceRanks(cfg);
    StagedPicks(BeforeForce(cfg), 1, 2);
    StagedPicks(AfterForce(cfg), 4, 8);
    PickOne(u, ForceTime);
    PickAppend(BeforeForce(cfg), [u], ForceTime);
    PickAppend(BeforeForce(cfg) + [u], AfterForce(cfg), ForceTime);
  }

  /** The pipeline displays nothing and tears nothing down. */
  lemma PipelineQuiet(cfg: Config, time: real)
    requires cfg.WellFormed()
    ensures Pick(PipelineEvents(cfg, time), DisplayIter) == []
    ensures Pick(PipelineEvents(cfg, time), TeardownMark) == []
  {
    PipelineStageOrder(cfg, time);
    StagedPicks(PipelineEvents(cfg, time), 1, 8);
  }

  // ---------------------------------------------------------------------
  // The fixed-step driver: Iterate(steps, checkPointPeriod)

  /** The simulated time of iteration `iter`: `iter * TimeStep()`. */
  function IterTime(cfg: Config, iter: nat): real {
    iter as real * cfg.timeStep
  }

  /** Iteration `iter` of the counted loop: the pipeline at time
      `iter * TimeStep()`, then a checkpoint when `iter` is a positive
      multiple of the period. */
  function FixedIteration(cfg: Config, iter: nat, p: nat): seq<Event>
    requires cfg.WellFormed() && p > 0
  {
    PipelineEvents(cfg, IterTime(cfg, iter)) +
    (if iter % p == 0 && iter != 0 then CheckpointEvents(cfg, iter, CheckPeriod(cfg, p)) else [])
  }

  /** Iterations 0 .. k-1 of the counted loop. */
  function FixedLoop(cfg: Config, k: nat, p: nat): seq<Event>
    requires cfg.WellFormed() && (k > 0 ==> p > 0)
  {
    if k == 0 then [] else FixedLoop(cfg, k - 1, p) + FixedIteration(cfg, k - 1, p)
  }

  /** The announcement and the teardown around a run. */
  function StartEvents(): seq<Event> {
    [Printf(Starting)]
  }

  function TeardownEvents(): seq<Event> {
    [Printf(Finished), DestroyModel, DestroyFlowfield]
  }

  /** The trace of `Iterate(steps, checkPointPeriod)`: the loop runs only
      for the stream-collision scheme. */
  function FixedRunEvents(cfg: Config, steps: nat, p: nat): seq<Event>
    requires cfg.WellFormed() && (cfg.scheme.StreamCollision? && steps > 0 ==> p > 0)
  {
    StartEvents() + (if cfg.scheme.StreamCollision? then FixedLoop(cfg, steps, p) else []) + TeardownEvents()
  }

  lemma IterationPicks(cfg: Config, iter: nat, p: nat)
    requires cfg.WellFormed() && p > 0
    ensures Pick(FixedIteration(cfg, iter, p), ForceTime) == [IterTime(cfg, iter)]
    ensures Pick(FixedIteration(cfg, iter, p), DisplayIter) == if iter % p == 0 && iter != 0 then [iter] else []
    ensures Pick(FixedIteration(cfg, iter, p), TeardownMark) == []
  {
    var time := IterTime(cfg, iter);
    var pipe := PipelineEvents(cfg, time);
    var tail := if iter % p == 0 && iter != 0 then CheckpointEvents(cfg, iter, CheckPeriod(cfg, p)) else [];
    assert FixedIteration(cfg, iter, p) == pipe + tail;
    PipelineForceTimes(cfg, time);
    PipelineQuiet(cfg, time);
    CheckpointPicks(cfg, iter, CheckPeriod(cfg, p));
    PickAppend(pipe, tail, ForceTime);
    PickAppend(pipe, tail, DisplayIter);
    PickAppend(pipe, tail, TeardownMark);
  }

  /** The times of iterations 0 .. k-1, in order. */
  predicate TimesUpTo(cfg: Config, ts: seq<real>, k: nat) {
    |ts| == k && forall i :: 0 <= i < k ==> ts[i] == IterTime(cfg, i)
  }

  lemma TimesSnoc(cfg: Config, ts: seq<real>, k: nat)
    requires TimesUpTo(cfg, ts, k)
    ensures TimesUpTo(cfg, ts + [IterTime(cfg, k)], k + 1)
  {
  }

  /** The counted loop runs the pipeline once per iteration, at times
      0, dt, 2 dt, ..., (k-1) dt in that order. */
  lemma {:induction false} FixedLoopTimes(cfg: Config, k: nat, p: nat)
    requires cfg.WellFormed() && (k > 0 ==> p > 0)
    ensures TimesUpTo(cfg, Pick(FixedLoop(cfg, k, p), ForceTime), k)
  {
    if k > 0 {
      var prev, it := FixedLoop(cfg, k - 1, p), FixedIteration(cfg, k - 1, p);
      assert FixedLoop(cfg, k, p) == prev + it;
      FixedLoopTimes(cfg, k - 1, p);
      IterationPicks(cfg, k - 1, p);
      PickAppend(prev, it, ForceTime);
      TimesSnoc(cfg, Pick(prev, ForceTime), k - 1);
    }
  }

  /** `d` lists the positive multiples of `p` below `k`, each once, in
      increasing order. */
  predicate MultiplesBelow(d: seq<nat>, k: nat, p: nat) {
    p > 0 &&
    (forall i :: 0 <= i < |d| ==> 0 < d[i] < k && d[i] % p == 0) &&
    (forall x :: 0 < x < k && x % p == 0 ==> x in d) &&
    (forall i, j :: 0 <= i < j < |d| ==> d[i] < d[j])
  }

  lemma MultiplesSnoc(d: seq<nat>, k: nat, p: nat)
    requires MultiplesBelow(d, k, p)
    ensures MultiplesBelow(d + (if k % p == 0 && k != 0 then [k] else []), k + 1, p)
  {
  }

  lemma CountSnoc(d: seq<nat>, k: nat, p: nat)
    requires p > 0 && k >= 1 && |d| == (k - 1) / p
    ensures |d + (if k % p == 0 && k != 0 then [k] else [])| == k / p
  {
    DivStep(k, p);
  }

  /** The counted loop checkpoints exactly at the positive multiples of the
      period below `k`, in increasing order. */
  lemma {:induction false} FixedLoopCheckpoints(cfg: Config, k: nat, p: nat)
    requires cfg.WellFormed() && p > 0
    ensures MultiplesBelow(Pick(FixedLoop(cfg, k, p), DisplayIter), k, p)
  {
    if k > 0 {
      var prev, it := FixedLoop(cfg, k - 1, p), FixedIteration(cfg, k - 1, p);
      assert FixedLoop(cfg, k, p) == prev + it;
      FixedLoopCheckpoints(cfg, k - 1, p);
      IterationPicks(cfg, k - 1, p);
      PickAppend(prev, it, DisplayIter);
      MultiplesSnoc(Pick(prev, DisplayIter), k - 1, p);
    }
  }

  /** There are (k-1) / p of them. */
  lemma {:induction false} FixedLoopCheckpointCount(cfg: Config, k: nat, p: nat)
    requires cfg.WellFormed() && p > 0 && k >= 1
    ensures |Pick(FixedLoop(cfg, k, p), DisplayIter)| == (k - 1) / p
  {
    var prev, it := FixedLoop(cfg, k - 1, p), FixedIteration(cfg, k - 1, p);
    assert FixedLoop(cfg, k, p) == prev + it;
    IterationPicks(cfg, k - 1, p);
    PickAppend(prev, it, DisplayIter);
    if k > 1 {
      FixedLoopCheckpointCount(cfg, k - 1, p);
      CountSnoc(Pick(prev, DisplayIter), k - 1, p);
    } else {
      assert Pick(prev, DisplayIter) == [] && Pick(it, DisplayIter) == [];
    }
  }

  lemma {:induction false} FixedLoopNoTeardown(cfg: Config, k: nat, p: nat)
    requires cfg.WellFormed() && (k > 0 ==> p > 0)
    ensures Pick(FixedLoop(cfg, k, p), TeardownMark) == []
  {
    if k > 0 {
      var prev, it := FixedLoop(cfg, k - 1, p), FixedIteration(cfg, k - 1, p);
      assert FixedLoop(cfg, k, p) == prev + it;
      FixedLoopNoTeardown(cfg, k - 1, p);
      IterationPicks(cfg, k - 1, p);
      PickAppend(prev, it, TeardownMark);
    }
  }

  /** A loop free of teardown events, between the announcement and the
      teardown: the run ends with the teardown, which happens once. */
  lemma TeardownOnce(loop: seq<Event>)
    requires Pick(loop, TeardownMark) == []
    ensures var es := StartEvents() + loop + TeardownEvents();
            es[0] == Printf(Starting) && |es| >= 3 && es[|es| - 3..] == TeardownEvents() &&
            multiset(es)[DestroyModel] == 1 && multiset(es)[DestroyFlowfield] == 1
  {
    var es := StartEvents() + loop + TeardownEvents();
    PickNone(loop, TeardownMark);
    assert es[|es| - 3..] == TeardownEvents();
    assert TeardownMark(DestroyModel).Some? && TeardownMark(DestroyFlowfield).Some?;
    assert DestroyModel !in loop && DestroyFlowfield !in loop;
    assert multiset(es) == multiset(StartEvents()) + multiset(loop) + multiset(TeardownEvents());
  }

  /** What the announcement and the teardown add to a run: nothing, for a
      mark neither of them carries. */
  lemma RunPick<T>(loop: seq<Event>, f: Event -> Option<T>)
    requires Pick(StartEvents(), f) == [] && Pick(TeardownEvents(), f) == []
    ensures Pick(StartEvents() + loop + TeardownEvents(), f) == Pick(loop, f)
  {
    PickAppend(StartEvents(), loop, f);
    PickAppend(StartEvents() + loop, TeardownEvents(), f);
  }

  /** The announcement and the teardown neither update a body force, nor
      display a residual, nor belong to a pipeline stage. */
  lemma EndsQuiet()
    ensures Pick(StartEvents(), ForceTime) == [] && Pick(TeardownEvents(), ForceTime) == []
    ensures Pick(StartEvents(), DisplayIter) == [] && Pick(TeardownEvents(), DisplayIter) == []
    ensures Pick(StartEvents(), StageMark) == [] && Pick(TeardownEvents(), StageMark) == []
  {
    PickNone(StartEvents(), ForceTime);
    PickNone(TeardownEvents(), ForceTime);
    PickNone(StartEvents(), DisplayIter);
    PickNone(TeardownEvents(), DisplayIter);
    PickNone(StartEvents(), StageMark);
    PickNone(TeardownEvents(), StageMark);
  }

  /** The fixed-step schedule: `steps` pipeline runs at times iter *
      TimeStep() for iter = 0 .. steps-1; checkpoints exactly at the
      positive multiples of the period below `steps`, (steps-1) / period of
      them, never at iteration 0; the teardown once, at the end. */
  lemma FixedRunSchedule(cfg: Config, steps: nat, p: nat)
    requires cfg.WellFormed() && cfg.scheme.StreamCollision? && steps > 0 && p > 0
    ensures var es := FixedRunEvents(cfg, steps, p);
            var times := Pick(es, ForceTime);
            var checks := Pick(es, DisplayIter);
            |times| == steps && (forall i :: 0 <= i < steps ==> times[i] == IterTime(cfg, i)) &&
            (forall x :: x in checks <==> 0 < x < steps && x % p == 0) &&
            (forall i, j :: 0 <= i < j < |checks| ==> checks[i] < checks[j]) &&
            |checks| == (steps - 1) / p &&
            es[|es| - 3..] == TeardownEvents() &&
            multiset(es)[DestroyModel] == 1 && multiset(es)[DestroyFlowfield] == 1
  {
    var loop := FixedLoop(cfg, steps, p);
    FixedLoopTimes(cfg, steps, p);
    FixedLoopCheckpoints(cfg, steps, p);
    FixedLoopCheckpointCount(cfg, steps, p);
    FixedLoopNoTeardown(cfg, steps, p);
    TeardownOnce(loop);
    EndsQuiet();
    RunPick(loop, ForceTime);
    RunPick(loop, DisplayIter);
  }

  /** The trace of a run, call by call. */
  lemma RunTrace(t0: seq<Event>, loop: seq<Event>)
    ensures t0 + [Printf(Starting)] + loop + [Printf(Finished)] + [DestroyModel] + [DestroyFlowfield] ==
            t0 + (StartEvents() + loop + TeardownEvents())
  {
  }

  /** The announcement and the teardown leave the state alone: a run has
      the effect of its loop. */
  lemma RunReplay(kb: KernelBodies, s: State, loop: seq<Event>)
    ensures Replay(kb, s, StartEvents() + loop + TeardownEvents()) == Replay(kb, s, loop)
  {
    ReplayInert(kb, s, StartEvents());
    ReplayAppend(kb, s, StartEvents(), loop);
    ReplayInert(kb, Replay(kb, s, loop), TeardownEvents());
    ReplayAppend(kb, s, StartEvents() + loop, TeardownEvents());
  }

  /** A run whose loop does nothing: no body-force update, no display, no
      change to the state, and the teardown once. */
  lemma EmptyRun(kb: KernelBodies, s: State)
    ensures var es := StartEvents() + [] + TeardownEvents();
            Pick(es, ForceTime) == [] && Pick(es, DisplayIter) == [] &&
            Replay(kb, s, es) == s &&
            multiset(es)[DestroyModel] == 1 && multiset(es)[DestroyFlowfield] == 1
  {
    var es := StartEvents() + [] + TeardownEvents();
    assert es == [Printf(Starting), Printf(Finished), DestroyModel, DestroyFlowfield];
    QuietRun(kb, s);
  }

  /** The announcement and the teardown alone. */
  lemma QuietRun(kb: KernelBodies, s: State)
    ensures var es := [Printf(Starting), Printf(Finished), DestroyModel, DestroyFlowfield];
            Pick(es, ForceTime) == [] && Pick(es, DisplayIter) == [] &&
            Replay(kb, s, es) == s &&
            multiset(es)[DestroyModel] == 1 && multiset(es)[DestroyFlowfield] == 1
  {
    var es := [Printf(Starting), Printf(Finished), DestroyModel, DestroyFlowfield];
    QuietEvents();
    ReplayInert(kb, s, es);
  }

  lemma QuietEvents()
    ensures var es := [Printf(Starting), Printf(Finished), DestroyModel, DestroyFlowfield];
            Pick(es, ForceTime) == [] && Pick(es, DisplayIter) == [] &&
            multiset(es)[DestroyModel] == 1 && multiset(es)[DestroyFlowfield] == 1
  {
    var es := [Printf(Starting), Printf(Finished), DestroyModel, DestroyFlowfield];
    QuietPicks(es);
    assert multiset(es) == multiset{Printf(Starting), Printf(Finished), DestroyModel, DestroyFlowfield};
  }

  lemma QuietPicks(es: seq<Event>)
    requires es == [Printf(Starting), Printf(Finished), DestroyModel, DestroyFlowfield]
    ensures Pick(es, ForceTime) == [] && Pick(es, DisplayIter) == []
  {
    PickNone(es, ForceTime);
    PickNone(es, DisplayIter);
  }

  /** Any other scheme: no iteration at all, so no pipeline, no checkpoint
      and no change to the state, and still the teardown, once. */
  lemma FixedRunOtherScheme(kb: KernelBodies, s: State, cfg: Config, steps: nat, p: nat)
    requires cfg.WellFormed() && !cfg.scheme.StreamCollision?
    ensures var es := FixedRunEvents(cfg, steps, p);
            Pick(es, ForceTime) == [] && Pick(es, DisplayIter) == [] &&
            Replay(kb, s, es) == s &&
            multiset(es)[DestroyModel] == 1 && multiset(es)[DestroyFlowfield] == 1
  {
    assert FixedRunEvents(cfg, steps, p) == StartEvents() + [] + TeardownEvents();
    EmptyRun(kb, s);
  }

  // ---------------------------------------------------------------------
  // The threshold driver: Iterate(convergenceCriteria, checkPointPeriod)

  /** The iteration of the threshold driver's checkpoint `j`: `j * p`,
      counted up one period at a time as the loop reaches it. */
  function CheckIter(p: nat, j: nat): nat {
    if j == 0 then 0 else CheckIter(p, j - 1) + p
  }

  lemma {:induction false} CheckIterValue(p: nat, j: nat)
    ensures CheckIter(p, j) == j * p
  {
    if j > 0 {
      CheckIterValue(p, j - 1);
      assert (j - 1) * p + p == j * p;
    }
  }

  /** Between checkpoint `c-1` and checkpoint `c`, the iteration counter is a
      multiple of the period only when it reaches checkpoint `c`. */
  lemma CheckpointDue(p: nat, c: nat, iter: nat)
    requires p > 0 && (c == 0 ==> iter == 0) && (c > 0 ==> CheckIter(p, c) - p < iter <= CheckIter(p, c))
    ensures iter % p == 0 <==> iter == CheckIter(p, c)
  {
    CheckIterValue(p, c);
    if iter < CheckIter(p, c) {
      CheckIterValue(p, c - 1);
      MulMod(c - 1, p, iter - CheckIter(p, c - 1));
    } else {
      MulMod(c, p, 0);
    }
  }

  /** The bracket `CheckIter(p, c) - p < iter <= CheckIter(p, c)` of the
      threshold loop moves on to `iter + 1`, with one more checkpoint
      exactly when `iter` is a multiple of `p`. */
  lemma NextBracket(p: nat, c: nat, iter: nat, c': nat)
    requires p > 0 && (c == 0 ==> iter == 0) && (c > 0 ==> CheckIter(p, c) - p < iter <= CheckIter(p, c))
    requires c' == if iter % p == 0 then c + 1 else c
    ensures c' > 0 && CheckIter(p, c') - p < iter + 1 <= CheckIter(p, c')
  {
    CheckpointDue(p, c, iter);
  }

  lemma CheckIterMono(p: nat, c: nat, k: nat)
    requires c <= k
    ensures CheckIter(p, c) <= CheckIter(p, k)
  {
    CheckIterValue(p, c);
    CheckIterValue(p, k);
    MulLe(c, k, p);
  }

  /** The first `c` checkpoints of the threshold driver, at iterations 0,
      p, 2p, ..., (c-1)p. */
  function Checkpoints(cfg: Config, p: nat, c: nat): seq<Event> {
    if c == 0 then [] else Checkpoints(cfg, p, c - 1) + CheckpointEvents(cfg, CheckIter(p, c - 1), CheckPeriod(cfg, p))
  }

  lemma CheckpointsSnoc(cfg: Config, p: nat, c: nat)
    ensures Checkpoints(cfg, p, c + 1) == Checkpoints(cfg, p, c) + CheckpointEvents(cfg, CheckIter(p, c), CheckPeriod(cfg, p))
  {
  }

  /** What the threshold loop shows of its checkpoints: the residual
      displays at the first `c` multiples of `p`, and no body-force update,
      pipeline stage past the macroscopic update or teardown. */
  predicate CheckpointsShown(es: seq<Event>, c: nat, p: nat) {
    var d := Pick(es, DisplayIter);
    |d| == c && (forall j :: 0 <= j < c ==> d[j] == j * p) &&
    Pick(es, ForceTime) == [] && Pick(es, StageMark) == [] && Pick(es, TeardownMark) == []
  }

  lemma ShownSnoc(prev: seq<Event>, last: seq<Event>, c: nat, p: nat)
    requires CheckpointsShown(prev, c, p)
    requires Pick(last, DisplayIter) == [c * p] && Pick(last, ForceTime) == []
    requires Pick(last, StageMark) == [] && Pick(last, TeardownMark) == []
    ensures CheckpointsShown(prev + last, c + 1, p)
  {
    PickAppend(prev, last, DisplayIter);
    PickAppend(prev, last, ForceTime);
    PickAppend(prev, last, StageMark);
    PickAppend(prev, last, TeardownMark);
  }

  /** The first `c` checkpoints display the residual at iterations 0, p,
      ..., (c-1)p, update no body force, and run no pipeline stage but the
      macroscopic update: no envelope copy, body force, collision,
      streaming, halo exchange or boundary treatment. */
  lemma {:induction false} CheckpointsSchedule(cfg: Config, p: nat, c: nat)
    ensures CheckpointsShown(Checkpoints(cfg, p, c), c, p)
  {
    if c > 0 {
      var iter := CheckIter(p, c - 1);
      CheckIterValue(p, c - 1);
      var prev := Checkpoints(cfg, p, c - 1);
      var last := CheckpointEvents(cfg, iter, CheckPeriod(cfg, p));
      assert Checkpoints(cfg, p, c) == prev + last;
      CheckpointsSchedule(cfg, p, c - 1);
      CheckpointPicks(cfg, iter, CheckPeriod(cfg, p));
      ShownSnoc(prev, last, c - 1, p);
    }
  }

  /** The trace of `Iterate(convergenceCriteria, checkPointPeriod)` when it
      stops after `c` checkpoints. */
  function ThresholdRunEvents(cfg: Config, p: nat, c: nat): seq<Event> {
    StartEvents() + (if cfg.scheme.StreamCollision? then Checkpoints(cfg, p, c) else []) + TeardownEvents()
  }

  /** The state after the first `c` checkpoints, from `s`, checkpoint by
      checkpoint. */
  function CheckState(kb: KernelBodies, s: State, cfg: Config, p: nat, c: nat): State {
    if c == 0 then s
    else Replay(kb, CheckState(kb, s, cfg, p, c - 1), CheckpointEvents(cfg, CheckIter(p, c - 1), CheckPeriod(cfg, p)))
  }

  /** ... which is the state the trace of those checkpoints replays to. */
  lemma {:induction false} CheckStateReplay(kb: KernelBodies, s: State, cfg: Config, p: nat, c: nat)
    ensures CheckState(kb, s, cfg, p, c) == Replay(kb, s, Checkpoints(cfg, p, c))
  {
    if c > 0 {
      CheckStateReplay(kb, s, cfg, p, c - 1);
      ReplayAppend(kb, s, Checkpoints(cfg, p, c - 1), CheckpointEvents(cfg, CheckIter(p, c - 1), CheckPeriod(cfg, p)));
    }
  }

  /** `residualError` after checkpoint j: `GetMaximumResidual(checkPeriod)`,
      a function of the residual slots supplied by the solver, on the state
      after the first j+1 checkpoints. */
  function CheckResidual(kb: KernelBodies, s: State, cfg: Config, maxResidual: (seq<real>, real) -> real, p: nat, j: nat): real {
    maxResidual(CheckState(kb, s, cfg, p, j + 1).residual, CheckPeriod(cfg, p))
  }

  /** Checkpoint `c-1` is the first whose maximum residual is below the
      criterion. */
  predicate StopsAfter(kb: KernelBodies, s: State, cfg: Config, maxResidual: (seq<real>, real) -> real, p: nat,
                       criteria: real, c: nat) {
    c > 0 && CheckResidual(kb, s, cfg, maxResidual, p, c - 1) < criteria &&
    Unconverged(kb, s, cfg, maxResidual, p, criteria, c - 1)
  }

  /** None of the first `c` checkpoints is below the criterion. */
  predicate Unconverged(kb: KernelBodies, s: State, cfg: Config, maxResidual: (seq<real>, real) -> real, p: nat,
                        criteria: real, c: nat) {
    c == 0 ||
    (Unconverged(kb, s, cfg, maxResidual, p, criteria, c - 1) && CheckResidual(kb, s, cfg, maxResidual, p, c - 1) >= criteria)
  }

  /** `Unconverged` checkpoint by checkpoint, as one statement about all of
      them. */
  lemma {:induction false} UnconvergedAll(kb: KernelBodies, s: State, cfg: Config, maxResidual: (seq<real>, real) -> real,
                                          p: nat, criteria: real, c: nat)
    ensures Unconverged(kb, s, cfg, maxResidual, p, criteria, c) <==>
            forall j :: 0 <= j < c ==> CheckResidual(kb, s, cfg, maxResidual, p, j) >= criteria
  {
    if c > 0 {
      UnconvergedAll(kb, s, cfg, maxResidual, p, criteria, c - 1);
    }
  }

  /** If not all of the first `c` checkpoints are above the criterion, one
      of them is the first below it. */
  lemma {:induction false} FirstBelow(kb: KernelBodies, s: State, cfg: Config, maxResidual: (seq<real>, real) -> real,
                                      p: nat, criteria: real, c: nat) returns (k: nat)
    requires !Unconverged(kb, s, cfg, maxResidual, p, criteria, c)
    ensures k < c && StopsAfter(kb, s, cfg, maxResidual, p, criteria, k + 1)
  {
    if Unconverged(kb, s, cfg, maxResidual, p, criteria, c - 1) {
      k := c - 1;
    } else {
      k := FirstBelow(kb, s, cfg, maxResidual, p, criteria, c - 1);
    }
  }

  /** A checkpoint below the criterion bounds how many can be above it. */
  lemma {:induction false} UnconvergedBound(kb: KernelBodies, s: State, cfg: Config, maxResidual: (seq<real>, real) -> real,
                                            p: nat, criteria: real, c: nat, k: nat)
    requires Unconverged(kb, s, cfg, maxResidual, p, criteria, c)
    requires CheckResidual(kb, s, cfg, maxResidual, p, k) < criteria
    ensures c <= k
  {
    if c > 0 {
      assert CheckResidual(kb, s, cfg, maxResidual, p, c - 1) >= criteria;
      UnconvergedBound(kb, s, cfg, maxResidual, p, criteria, c - 1, k);
      assert c - 1 != k;
    }
  }

  /** One pass of the threshold loop, checkpoint `k` being the first below
      the criterion: a pass that made checkpoint `c` ends the loop exactly
      when `c` is `k`, and a pass that made none keeps the loop going. */
  lemma ThresholdAdvance(kb: KernelBodies, s: State, cfg: Config, maxResidual: (seq<real>, real) -> real,
                         p: nat, criteria: real, k: nat, c: nat, r0: real, r: real, c': nat)
    requires StopsAfter(kb, s, cfg, maxResidual, p, criteria, k + 1) && c <= k
    requires c > 0 ==> r0 >= criteria
    requires (c' == c + 1 && r == CheckResidual(kb, s, cfg, maxResidual, p, c)) || (c' == c && c > 0 && r == r0)
    ensures r < criteria ==> StopsAfter(kb, s, cfg, maxResidual, p, criteria, c')
    ensures r >= criteria ==> c' <= k
  {
    if c' == c + 1 && r < criteria {
      UnconvergedBound(kb, s, cfg, maxResidual, p, criteria, k, c);
    }
  }

  /** The threshold schedule: checkpoints at iterations 0, p, ..., (c-1)p
      (iteration 0 always, the loop being post-test), no pipeline stage but
      the macroscopic update and no body-force update anywhere in the run,
      and the teardown once, at the end. */
  lemma ThresholdRunSchedule(cfg: Config, p: nat, c: nat)
    requires cfg.scheme.StreamCollision?
    ensures var es := ThresholdRunEvents(cfg, p, c);
            var checks := Pick(es, DisplayIter);
            |checks| == c && (forall j :: 0 <= j < c ==> checks[j] == j * p) &&
            Pick(es, ForceTime) == [] &&
            (forall e :: e in es ==> Rank(StageOf(e)) <= 1) &&
            es[|es| - 3..] == TeardownEvents() &&
            multiset(es)[DestroyModel] == 1 && multiset(es)[DestroyFlowfield] == 1
  {
    var loop := Checkpoints(cfg, p, c);
    var es := ThresholdRunEvents(cfg, p, c);
    CheckpointsSchedule(cfg, p, c);
    TeardownOnce(loop);
    EndsQuiet();
    RunPick(loop, ForceTime);
    RunPick(loop, DisplayIter);
    RunPick(loop, StageMark);
    PickNone(es, StageMark);
  }

  /** Any other scheme: no checkpoint, no change to the state, and the
      teardown once. */
  lemma ThresholdRunOtherScheme(kb: KernelBodies, s: State, cfg: Config, p: nat, c: nat)
    requires !cfg.scheme.StreamCollision?
    ensures var es := ThresholdRunEvents(cfg, p, c);
            Pick(es, DisplayIter) == [] && Replay(kb, s, es) == s &&
            multiset(es)[DestroyModel] == 1 && multiset(es)[DestroyFlowfield] == 1
  {
    assert ThresholdRunEvents(cfg, p, c) == StartEvents() + [] + TeardownEvents();
    EmptyRun(kb, s);
  }
}
