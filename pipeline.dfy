/** The stream-collision pipeline `StreamCollision3D(time)`: its trace, the
    order of its stages, and what it leaves alone. */
module Pipeline {
  import opened Grid
  import opened Model
  import opened Ops
  import opened Dispatch
  import opened Envelope

  /** One launch of `kernel` over the Whole range of each of blocks
      0 .. n-1, in block order: the loop of `UpdateMacroVars3D` and of
      `Stream3D`. */
  function BlockLoop(cfg: Config, kernel: PhysicsKernel, arg: KernelArg, n: nat): (es: seq<Event>)
    ensures |es| == n
    ensures forall b :: 0 <= b < n ==> es[b] == ParLoop(Physics(kernel, b, cfg.WholeRange(b), arg))
  {
    if n == 0 then [] else BlockLoop(cfg, kernel, arg, n - 1) + [ParLoop(Physics(kernel, n - 1, cfg.WholeRange(n - 1), arg))]
  }

  lemma BlockLoopSnoc(cfg: Config, kernel: PhysicsKernel, arg: KernelArg, n: nat)
    ensures BlockLoop(cfg, kernel, arg, n + 1) ==
            BlockLoop(cfg, kernel, arg, n) + [ParLoop(Physics(kernel, n, cfg.WholeRange(n), arg))]
  {
  }

  /** `UpdateMacroVars3D`: `KerCalcMacroVars3D` on every block, handed the time step. */
  function MacroVarsEvents(cfg: Config): seq<Event> {
    BlockLoop(cfg, KerCalcMacroVars3D, TimeStepArg(cfg.timeStep), cfg.blockNum)
  }

  /** `Stream3D`: `KerStream3D` on every block. */
  function StreamEvents(cfg: Config): seq<Event> {
    BlockLoop(cfg, KerStream3D, NoArg, cfg.blockNum)
  }

  /** `ops_halo_transfer(HaloGroup())`, only when there is a halo group. */
  function HaloEvents(cfg: Config): seq<Event> {
    if cfg.haloGroup then [HaloTransfer] else []
  }

  /** The trace of `StreamCollision3D(time)`. */
  function PipelineEvents(cfg: Config, time: real): seq<Event>
    requires cfg.WellFormed()
  {
    ConfiguredTermsReady(cfg);
    MacroVarsEvents(cfg) +
    CopyEvents(cfg, BlockEnvelope, FStage, F, cfg.blockNum) +
    [UpdateMacroscopicBodyForce(time)] +
    DispatchEvents(cfg, BodyForceTermsOf(cfg), cfg.blockNum) +
    DispatchEvents(cfg, CollisionTermsOf(cfg), cfg.blockNum) +
    StreamEvents(cfg) +
    HaloEvents(cfg) +
    [ImplementBoundaryConditions]
  }

  // ---------------------------------------------------------------------
  // Stages

  /** The stages of the pipeline, and `Outside` for events no stage emits. */
  datatype Stage =
    | MacroVarsUpdate
    | EnvelopeCopy
    | ForceUpdate
    | BodyForceTerm
    | CollisionTerm
    | Streaming
    | HaloExchange
    | Boundary
    | Outside

  function Rank(st: Stage): nat {
    match st
    case MacroVarsUpdate => 1
    case EnvelopeCopy => 2
    case ForceUpdate => 3
    case BodyForceTerm => 4
    case CollisionTerm => 5
    case Streaming => 6
    case HaloExchange => 7
    case Boundary => 8
    case Outside => 0
  }

  /** The stage an event belongs to, read off the event alone: the kernel
      launched, or the diagnostic printed, or the collaborator called. */
  function StageOf(e: Event): Stage {
    match e
    case ParLoop(call) => CallStage(call)
    case Printf(msg) => MessageStage(msg)
    case UpdateMacroscopicBodyForce(_) => ForceUpdate
    case HaloTransfer => HaloExchange
    case ImplementBoundaryConditions => Boundary
    case _ => Outside
  }

  function CallStage(call: KernelCall): Stage {
    match call
    case Physics(k, _, _, _) => KernelStage(k)
    case CopyF(_, _, _, _) => EnvelopeCopy
    case _ => Outside
  }

  function KernelStage(k: PhysicsKernel): Stage {
    match k
    case KerCalcMacroVars3D => MacroVarsUpdate
    case KerCalcBodyForce1ST3D => BodyForceTerm
    case KerCalcBodyForceNone3D => BodyForceTerm
    case KerCollideBGKIsothermal3D => CollisionTerm
    case KerCollideBGKThermal3D => CollisionTerm
    case KerStream3D => Streaming
    case _ => Outside
  }

  /** The diagnostics of the body-force and collision dispatchers belong to
      their stages. */
  function MessageStage(msg: Message): Stage {
    match msg
    case ForceNotImplemented => BodyForceTerm
    case CollisionNotImplemented => CollisionTerm
    case _ => Outside
  }

  /** The stage of a dispatcher's variant. */
  function VariantStage(v: Variant): Stage {
    match v
    case Collision(_) => CollisionTerm
    case BodyForce(_) => BodyForceTerm
    case Initial(_) => Outside
  }

  predicate AllIn(es: seq<Event>, st: Stage) {
    forall e :: e in es ==> StageOf(e) == st
  }

  /** Events are in stage order: no event of a later stage comes before one
      of an earlier stage. */
  predicate StageSorted(es: seq<Event>) {
    forall i, j :: 0 <= i <= j < |es| ==> Rank(StageOf(es[i])) <= Rank(StageOf(es[j]))
  }

  lemma LaunchStage(cfg: Config, b: nat, t: Term)
    requires t.variant.Collision? ==> t.compoId < |cfg.tauRef|
    ensures StageOf(Launch(cfg, b, t)) == VariantStage(t.variant)
  {
  }

  lemma {:induction false} BlockEventsStage(cfg: Config, b: nat, ts: seq<Term>, st: Stage)
    requires TermsReady(cfg, ts)
    requires forall t :: t in ts ==> VariantStage(t.variant) == st
    ensures AllIn(BlockEvents(cfg, b, ts), st)
    decreases |ts|
  {
    if ts != [] {
      var init := ts[..|ts| - 1];
      assert forall t :: t in init ==> t in ts;
      assert ts[|ts| - 1] in ts;
      BlockEventsStage(cfg, b, init, st);
      LaunchStage(cfg, b, ts[|ts| - 1]);
    }
  }

  lemma {:induction false} DispatchStage(cfg: Config, ts: seq<Term>, n: nat, st: Stage)
    requires TermsReady(cfg, ts)
    requires forall t :: t in ts ==> VariantStage(t.variant) == st
    ensures AllIn(DispatchEvents(cfg, ts, n), st)
  {
    if n > 0 {
      DispatchStage(cfg, ts, n - 1, st);
      BlockEventsStage(cfg, n - 1, ts, st);
    }
  }

  lemma CopyStage(cfg: Config, kind: CopyKind, dest: FieldId, src: FieldId, n: nat)
    ensures AllIn(CopyEvents(cfg, kind, dest, src, n), EnvelopeCopy)
  {
    CopyEventsBlocks(cfg, kind, dest, src, n);
    BlockCopiesStage((b: nat) => RangesOf(cfg, kind, b), dest, src, n);
  }

  lemma {:induction false} BlockCopiesStage(rsOf: nat -> seq<Box>, dest: FieldId, src: FieldId, n: nat)
    ensures AllIn(BlockCopies(rsOf, dest, src, n), EnvelopeCopy)
  {
    if n > 0 {
      BlockCopiesStage(rsOf, dest, src, n - 1);
      CopiesStage(n - 1, rsOf(n - 1), dest, src);
      AllInAppend(BlockCopies(rsOf, dest, src, n - 1), Copies(n - 1, rsOf(n - 1), dest, src), EnvelopeCopy);
    }
  }

  lemma CopiesStage(b: nat, rs: seq<Box>, dest: FieldId, src: FieldId)
    ensures AllIn(Copies(b, rs, dest, src), EnvelopeCopy)
  {
    var es := Copies(b, rs, dest, src);
    forall e | e in es ensures StageOf(e) == EnvelopeCopy {
      var q :| 0 <= q < |es| && es[q] == e;
    }
  }

  lemma AllInAppend(xs: seq<Event>, ys: seq<Event>, st: Stage)
    requires AllIn(xs, st) && AllIn(ys, st)
    ensures AllIn(xs + ys, st)
  {
  }

  lemma MacroVarsStage(cfg: Config)
    ensures AllIn(MacroVarsEvents(cfg), MacroVarsUpdate)
  {
    var es := MacroVarsEvents(cfg);
    forall e | e in es ensures StageOf(e) == MacroVarsUpdate {
      var b :| 0 <= b < |es| && es[b] == e;
    }
  }

  lemma StreamStage(cfg: Config)
    ensures AllIn(StreamEvents(cfg), Streaming)
  {
    var es := StreamEvents(cfg);
    forall e | e in es ensures StageOf(e) == Streaming {
      var b :| 0 <= b < |es| && es[b] == e;
    }
  }

  /** Every entry of the body-force map is a body-force term and every entry
      of the collision map a collision term. */
  lemma TermsStages(cfg: Config)
    ensures forall t :: t in BodyForceTermsOf(cfg) ==> VariantStage(t.variant) == BodyForceTerm
    ensures forall t :: t in CollisionTermsOf(cfg) ==> VariantStage(t.variant) == CollisionTerm
  {
    forall t | t in BodyForceTermsOf(cfg) ensures VariantStage(t.variant) == BodyForceTerm {
      var k :| 0 <= k < |BodyForceTermsOf(cfg)| && BodyForceTermsOf(cfg)[k] == t;
    }
    forall t | t in CollisionTermsOf(cfg) ensures VariantStage(t.variant) == CollisionTerm {
      var k :| 0 <= k < |CollisionTermsOf(cfg)| && CollisionTermsOf(cfg)[k] == t;
    }
  }

  /** Every event of `es` belongs to a stage ranked `lo` .. `hi`. */
  predicate RanksIn(es: seq<Event>, lo: nat, hi: nat) {
    forall e :: e in es ==> lo <= Rank(StageOf(e)) <= hi
  }

  lemma RanksAppend(xs: seq<Event>, ys: seq<Event>, lo1: nat, hi1: nat, lo2: nat, hi2: nat)
    requires RanksIn(xs, lo1, hi1) && RanksIn(ys, lo2, hi2) && lo1 <= lo2 && hi1 <= hi2
    ensures RanksIn(xs + ys, lo1, hi2)
  {
  }

  /** A segment of stage `s1` followed by one of a later stage `s2` is in
      stage order. */
  lemma GroupSorted(xs: seq<Event>, ys: seq<Event>, s1: Stage, s2: Stage)
    requires AllIn(xs, s1) && AllIn(ys, s2) && Rank(s1) < Rank(s2)
    ensures StageSorted(xs + ys)
    ensures RanksIn(xs + ys, Rank(s1), Rank(s2))
  {
    forall i | 0 <= i < |xs + ys|
      ensures StageOf((xs + ys)[i]) == if i < |xs| then s1 else s2
    {
      if i < |xs| {
        assert xs[i] in xs;
      } else {
        assert (xs + ys)[i] == ys[i - |xs|];
        assert ys[i - |xs|] in ys;
      }
    }
  }

  /** Two traces in stage order, the first wholly of stages ranked `lo` ..
      `k` and the second of stages ranked above `k` up to `hi`, make one
      trace in stage order. */
  lemma SortedJoin(xs: seq<Event>, ys: seq<Event>, lo: nat, k: nat, hi: nat)
    requires StageSorted(xs) && StageSorted(ys)
    requires RanksIn(xs, lo, k) && RanksIn(ys, k + 1, hi) && lo <= k < hi
    ensures StageSorted(xs + ys)
    ensures RanksIn(xs + ys, lo, hi)
  {
    forall i, j | 0 <= i <= j < |xs + ys|
      ensures Rank(StageOf((xs + ys)[i])) <= Rank(StageOf((xs + ys)[j]))
    {
      if i < |xs| && j >= |xs| {
        assert xs[i] in xs;
        assert ys[j - |xs|] in ys;
      } else if j < |xs| {
        assert (xs + ys)[i] == xs[i] && (xs + ys)[j] == xs[j];
      } else {
        assert (xs + ys)[i] == ys[i - |xs|] && (xs + ys)[j] == ys[j - |xs|];
      }
    }
    RanksAppend(xs, ys, lo, k, k + 1, hi);
  }

  /** The stages before the collision terms. */
  function FrontEvents(cfg: Config, time: real): seq<Event>
    requires cfg.WellFormed()
  {
    ConfiguredTermsReady(cfg);
    (MacroVarsEvents(cfg) + CopyEvents(cfg, BlockEnvelope, FStage, F, cfg.blockNum)) +
    ([UpdateMacroscopicBodyForce(time)] + DispatchEvents(cfg, BodyForceTermsOf(cfg), cfg.blockNum))
  }

  /** The stages from the collision terms on. */
  function BackEvents(cfg: Config): seq<Event>
    requires cfg.WellFormed()
  {
    ConfiguredTermsReady(cfg);
    (DispatchEvents(cfg, CollisionTermsOf(cfg), cfg.blockNum) + StreamEvents(cfg)) +
    (HaloEvents(cfg) + [ImplementBoundaryConditions])
  }

  lemma PipelineSplit(cfg: Config, time: real)
    requires cfg.WellFormed()
    ensures PipelineEvents(cfg, time) == FrontEvents(cfg, time) + BackEvents(cfg)
  {
    ConfiguredTermsReady(cfg);
    RegroupHalves(MacroVarsEvents(cfg), CopyEvents(cfg, BlockEnvelope, FStage, F, cfg.blockNum),
      [UpdateMacroscopicBodyForce(time)], DispatchEvents(cfg, BodyForceTermsOf(cfg), cfg.blockNum),
      DispatchEvents(cfg, CollisionTermsOf(cfg), cfg.blockNum), StreamEvents(cfg),
      HaloEvents(cfg), [ImplementBoundaryConditions]);
  }

  lemma FrontSorted(cfg: Config, time: real)
    requires cfg.WellFormed()
    ensures StageSorted(FrontEvents(cfg, time)) && RanksIn(FrontEvents(cfg, time), 1, 4)
  {
    ConfiguredTermsReady(cfg);
    TermsStages(cfg);
    MacroVarsStage(cfg);
    CopyStage(cfg, BlockEnvelope, FStage, F, cfg.blockNum);
    DispatchStage(cfg, BodyForceTermsOf(cfg), cfg.blockNum, BodyForceTerm);
    var g1 := MacroVarsEvents(cfg) + CopyEvents(cfg, BlockEnvelope, FStage, F, cfg.blockNum);
    var g2 := [UpdateMacroscopicBodyForce(time)] + DispatchEvents(cfg, BodyForceTermsOf(cfg), cfg.blockNum);
    GroupSorted(MacroVarsEvents(cfg), CopyEvents(cfg, BlockEnvelope, FStage, F, cfg.blockNum), MacroVarsUpdate, EnvelopeCopy);
    GroupSorted([UpdateMacroscopicBodyForce(time)], DispatchEvents(cfg, BodyForceTermsOf(cfg), cfg.blockNum), ForceUpdate, BodyForceTerm);
    SortedJoin(g1, g2, 1, 2, 4);
  }

  lemma BackSorted(cfg: Config)
    requires cfg.WellFormed()
    ensures StageSorted(BackEvents(cfg)) && RanksIn(BackEvents(cfg), 5, 8)
  {
    ConfiguredTermsReady(cfg);
    TermsStages(cfg);
    DispatchStage(cfg, CollisionTermsOf(cfg), cfg.blockNum, CollisionTerm);
    StreamStage(cfg);
    var g3 := DispatchEvents(cfg, CollisionTermsOf(cfg), cfg.blockNum) + StreamEvents(cfg);
    var g4 := HaloEvents(cfg) + [ImplementBoundaryConditions];
    GroupSorted(DispatchEvents(cfg, CollisionTermsOf(cfg), cfg.blockNum), StreamEvents(cfg), CollisionTerm, Streaming);
    TailSorted(cfg);
    SortedJoin(g3, g4, 5, 6, 8);
  }

  /** The halo exchange (when there is one) and then the boundary treatment. */
  lemma TailSorted(cfg: Config)
    ensures StageSorted(HaloEvents(cfg) + [ImplementBoundaryConditions])
    ensures RanksIn(HaloEvents(cfg) + [ImplementBoundaryConditions], 7, 8)
  {
    HaloStage(cfg);
    assert AllIn([ImplementBoundaryConditions], Boundary) by {
      assert forall e :: e in [ImplementBoundaryConditions] ==> e == ImplementBoundaryConditions;
    }
    GroupSorted(HaloEvents(cfg), [ImplementBoundaryConditions], HaloExchange, Boundary);
  }

  /** The halo exchange is the only stage of `HaloEvents`. */
  lemma HaloStage(cfg: Config)
    ensures AllIn(HaloEvents(cfg), HaloExchange)
  {
    if cfg.haloGroup {
      assert forall e :: e in HaloEvents(cfg) ==> e == HaloTransfer;
    }
  }

  /** Pipeline stage order: the events of `StreamCollision3D` run through
      the stages in the order macroscopic update, envelope copy, body-force
      update, body-force terms, collision terms, streaming, halo exchange,
      boundary treatment, and every event belongs to one of them. */
  lemma PipelineStageOrder(cfg: Config, time: real)
    requires cfg.WellFormed()
    ensures StageSorted(PipelineEvents(cfg, time))
    ensures forall e :: e in PipelineEvents(cfg, time) ==> StageOf(e) != Outside
    ensures RanksIn(PipelineEvents(cfg, time), 1, 8)
  {
    PipelineSplit(cfg, time);
    FrontSorted(cfg, time);
    BackSorted(cfg);
    SortedJoin(FrontEvents(cfg, time), BackEvents(cfg), 1, 4, 8);
    RankedInside(PipelineEvents(cfg, time), 1, 8);
  }

  /** Events of rank 1 or more belong to a stage. */
  lemma RankedInside(es: seq<Event>, lo: nat, hi: nat)
    requires RanksIn(es, lo, hi) && lo >= 1
    ensures forall e :: e in es ==> StageOf(e) != Outside
  {
    forall e | e in es
      ensures StageOf(e) != Outside
    {
      assert Rank(StageOf(e)) >= 1;
    }
  }

  /** An event between events of strictly earlier stages and events of
      strictly later stages occurs once, and is the only event of its
      stage. */
  lemma OnlyOfItsStage(xs: seq<Event>, u: Event, ys: seq<Event>, lo: nat, k: nat, hi: nat)
    requires Rank(StageOf(u)) == k + 1
    requires RanksIn(xs, lo, k) && RanksIn(ys, k + 2, hi)
    ensures multiset(xs + [u] + ys)[u] == 1
    ensures forall e :: e in xs + [u] + ys && StageOf(e) == StageOf(u) ==> e == u
  {
    assert u !in xs && u !in ys;
    assert multiset(xs + [u] + ys) == multiset(xs) + multiset([u]) + multiset(ys);
  }

  /** The events before the body-force update: the macroscopic update and
      the envelope copy. */
  function BeforeForce(cfg: Config): seq<Event> {
    MacroVarsEvents(cfg) + CopyEvents(cfg, BlockEnvelope, FStage, F, cfg.blockNum)
  }

  /** The events after the body-force update. */
  function AfterForce(cfg: Config): seq<Event>
    requires cfg.WellFormed()
  {
    ConfiguredTermsReady(cfg);
    DispatchEvents(cfg, BodyForceTermsOf(cfg), cfg.blockNum) + BackEvents(cfg)
  }

  lemma PipelineAroundForce(cfg: Config, time: real)
    requires cfg.WellFormed()
    ensures PipelineEvents(cfg, time) == BeforeForce(cfg) + [UpdateMacroscopicBodyForce(time)] + AfterForce(cfg)
  {
    ConfiguredTermsReady(cfg);
    RegroupAroundThird(MacroVarsEvents(cfg), CopyEvents(cfg, BlockEnvelope, FStage, F, cfg.blockNum),
      [UpdateMacroscopicBodyForce(time)], DispatchEvents(cfg, BodyForceTermsOf(cfg), cfg.blockNum),
      DispatchEvents(cfg, CollisionTermsOf(cfg), cfg.blockNum), StreamEvents(cfg),
      HaloEvents(cfg), [ImplementBoundaryConditions]);
  }

  lemma BeforeForceRanks(cfg: Config)
    ensures RanksIn(BeforeForce(cfg), 1, 2)
  {
    MacroVarsStage(cfg);
    CopyStage(cfg, BlockEnvelope, FStage, F, cfg.blockNum);
    GroupSorted(MacroVarsEvents(cfg), CopyEvents(cfg, BlockEnvelope, FStage, F, cfg.blockNum), MacroVarsUpdate, EnvelopeCopy);
  }

  lemma AfterForceRanks(cfg: Config)
    requires cfg.WellFormed()
    ensures RanksIn(AfterForce(cfg), 4, 8)
  {
    ConfiguredTermsReady(cfg);
    TermsStages(cfg);
    DispatchStage(cfg, BodyForceTermsOf(cfg), cfg.blockNum, BodyForceTerm);
    BackSorted(cfg);
    AllInRanks(DispatchEvents(cfg, BodyForceTermsOf(cfg), cfg.blockNum), BodyForceTerm);
    RanksAppend(DispatchEvents(cfg, BodyForceTermsOf(cfg), cfg.blockNum), BackEvents(cfg), 4, 4, 5, 8);
  }

  lemma AllInRanks(es: seq<Event>, st: Stage)
    requires AllIn(es, st)
    ensures RanksIn(es, Rank(st), Rank(st))
  {
  }

  /** The body-force update happens exactly once per pipeline, for the
      pipeline's time. */
  lemma ForceUpdateOnce(cfg: Config, time: real)
    requires cfg.WellFormed()
    ensures multiset(PipelineEvents(cfg, time))[UpdateMacroscopicBodyForce(time)] == 1
    ensures forall e :: e in PipelineEvents(cfg, time) && e.UpdateMacroscopicBodyForce? ==> e.time == time
  {
    PipelineAroundForce(cfg, time);
    BeforeForceRanks(cfg);
    AfterForceRanks(cfg);
    OnlyOfItsStage(BeforeForce(cfg), UpdateMacroscopicBodyForce(time), AfterForce(cfg), 1, 2, 8);
  }

  /** The events before the halo exchange: the front stages, the collision
      terms and the streaming. */
  function BeforeHalo(cfg: Config, time: real): seq<Event>
    requires cfg.WellFormed()
  {
    ConfiguredTermsReady(cfg);
    FrontEvents(cfg, time) + (DispatchEvents(cfg, CollisionTermsOf(cfg), cfg.blockNum) + StreamEvents(cfg))
  }

  lemma PipelineAroundHalo(cfg: Config, time: real)
    requires cfg.WellFormed()
    ensures PipelineEvents(cfg, time) == BeforeHalo(cfg, time) + HaloEvents(cfg) + [ImplementBoundaryConditions]
  {
    ConfiguredTermsReady(cfg);
    RegroupLastTwo(MacroVarsEvents(cfg), CopyEvents(cfg, BlockEnvelope, FStage, F, cfg.blockNum),
      [UpdateMacroscopicBodyForce(time)], DispatchEvents(cfg, BodyForceTermsOf(cfg), cfg.blockNum),
      DispatchEvents(cfg, CollisionTermsOf(cfg), cfg.blockNum), StreamEvents(cfg),
      HaloEvents(cfg), [ImplementBoundaryConditions]);
  }

  lemma BeforeHaloRanks(cfg: Config, time: real)
    requires cfg.WellFormed()
    ensures RanksIn(BeforeHalo(cfg, time), 1, 6)
  {
    ConfiguredTermsReady(cfg);
    FrontSorted(cfg, time);
    CollideStreamRanks(cfg);
    RanksAppend(FrontEvents(cfg, time), DispatchEvents(cfg, CollisionTermsOf(cfg), cfg.blockNum) + StreamEvents(cfg), 1, 4, 5, 6);
  }

  lemma CollideStreamRanks(cfg: Config)
    requires cfg.WellFormed()
    ensures TermsReady(cfg, CollisionTermsOf(cfg))
    ensures RanksIn(DispatchEvents(cfg, CollisionTermsOf(cfg), cfg.blockNum) + StreamEvents(cfg), 5, 6)
  {
    ConfiguredTermsReady(cfg);
    TermsStages(cfg);
    DispatchStage(cfg, CollisionTermsOf(cfg), cfg.blockNum, CollisionTerm);
    StreamStage(cfg);
    GroupSorted(DispatchEvents(cfg, CollisionTermsOf(cfg), cfg.blockNum), StreamEvents(cfg), CollisionTerm, Streaming);
  }

  lemma HaloCountOf(pre: seq<Event>, halo: seq<Event>, group: bool)
    requires RanksIn(pre, 1, 6)
    requires halo == if group then [HaloTransfer] else []
    ensures multiset(pre + halo + [ImplementBoundaryConditions])[HaloTransfer] == if group then 1 else 0
  {
    if group {
      OnlyOfItsStage(pre, HaloTransfer, [ImplementBoundaryConditions], 1, 6, 8);
    } else {
      assert pre + halo + [ImplementBoundaryConditions] == pre + [ImplementBoundaryConditions];
      assert HaloTransfer !in pre;
    }
  }

  /** The halo transfer happens once per pipeline if there is a halo group,
      and not at all otherwise. */
  lemma HaloCount(cfg: Config, time: real)
    requires cfg.WellFormed()
    ensures multiset(PipelineEvents(cfg, time))[HaloTransfer] == if cfg.haloGroup then 1 else 0
  {
    PipelineAroundHalo(cfg, time);
    BeforeHaloRanks(cfg, time);
    HaloCountOf(BeforeHalo(cfg, time), HaloEvents(cfg), cfg.haloGroup);
  }

  /** The boundary treatment is the pipeline's last event. */
  lemma LastIsBoundary(cfg: Config, time: real)
    requires cfg.WellFormed()
    ensures PipelineEvents(cfg, time)[|PipelineEvents(cfg, time)| - 1] == ImplementBoundaryConditions
  {
  }

  lemma BlockLoopSpares(cfg: Config, kernel: PhysicsKernel, arg: KernelArg, n: nat, id: FieldId)
    requires id !in Writes(kernel)
    ensures forall e :: e in BlockLoop(cfg, kernel, arg, n) ==> Spares(e, id)
  {
    var es := BlockLoop(cfg, kernel, arg, n);
    forall e | e in es ensures Spares(e, id) {
      var b :| 0 <= b < |es| && es[b] == e;
    }
  }

  lemma {:induction false} CopySpares(cfg: Config, kind: CopyKind, dest: FieldId, src: FieldId, n: nat, id: FieldId)
    requires dest != id
    ensures forall e :: e in CopyEvents(cfg, kind, dest, src, n) ==> Spares(e, id)
  {
    if n > 0 {
      CopySpares(cfg, kind, dest, src, n - 1, id);
    }
  }

  /** No event of the pipeline writes `g_MacroVarsCopy`. */
  lemma PipelineEventsSpareCopy(cfg: Config, time: real)
    requires cfg.WellFormed()
    ensures forall e :: e in PipelineEvents(cfg, time) ==> Spares(e, MacroVarsCopy)
  {
    ConfiguredTermsReady(cfg);
    var n := cfg.blockNum;
    BlockLoopSpares(cfg, KerCalcMacroVars3D, TimeStepArg(cfg.timeStep), n, MacroVarsCopy);
    CopySpares(cfg, BlockEnvelope, FStage, F, n, MacroVarsCopy);
    DispatchSparesAll(cfg, BodyForceTermsOf(cfg), n, MacroVarsCopy);
    DispatchSparesAll(cfg, CollisionTermsOf(cfg), n, MacroVarsCopy);
    BlockLoopSpares(cfg, KerStream3D, NoArg, n, MacroVarsCopy);
  }

  /** The pipeline leaves the convergence monitor's state alone:
      `g_MacroVarsCopy`, the reduction handles and the residual slots. */
  lemma PipelineSparesMonitor(kb: KernelBodies, s: State, cfg: Config, time: real)
    requires cfg.WellFormed()
    ensures var s' := Replay(kb, s, PipelineEvents(cfg, time));
            |s'.blocks| == |s.blocks| && s'.handles == s.handles && s'.residual == s.residual &&
            forall b :: 0 <= b < |s.blocks| ==> s'.blocks[b].macroVarsCopy == s.blocks[b].macroVarsCopy
  {
    PipelineEventsSpareCopy(cfg, time);
    SparesMonitor(kb, s, PipelineEvents(cfg, time));
  }

  /** No event after the body-force update writes `g_MacroBodyforce`. */
  lemma AfterForceSparesForce(cfg: Config)
    requires cfg.WellFormed()
    ensures forall e :: e in AfterForce(cfg) ==> Spares(e, MacroBodyforce)
  {
    ConfiguredTermsReady(cfg);
    var n := cfg.blockNum;
    DispatchSparesAll(cfg, BodyForceTermsOf(cfg), n, MacroBodyforce);
    DispatchSparesAll(cfg, CollisionTermsOf(cfg), n, MacroBodyforce);
    BlockLoopSpares(cfg, KerStream3D, NoArg, n, MacroBodyforce);
  }

  /** The body force the pipeline leaves in every block is the one the
      collaborator supplies for the pipeline's `time`, from the blocks as the
      macroscopic update and the envelope copy leave them; so the state after
      `StreamCollision3D(time)` depends on `time`. */
  lemma PipelineForceField(kb: KernelBodies, s: State, cfg: Config, time: real)
    requires cfg.WellFormed()
    ensures var mid := Replay(kb, s, BeforeForce(cfg));
            var s' := Replay(kb, s, PipelineEvents(cfg, time));
            |s'.blocks| == |s.blocks| &&
            forall b :: 0 <= b < |s.blocks| ==> s'.blocks[b].macroBodyforce == kb.bodyForce(time, b, mid.blocks)
  {
    var mid := Replay(kb, s, BeforeForce(cfg));
    var forced := Step(kb, mid, UpdateMacroscopicBodyForce(time));
    PipelineAroundForce(cfg, time);
    ReplayAppend(kb, s, BeforeForce(cfg) + [UpdateMacroscopicBodyForce(time)], AfterForce(cfg));
    ReplaySnoc(kb, s, BeforeForce(cfg), UpdateMacroscopicBodyForce(time));
    ReplayShape(kb, s, BeforeForce(cfg));
    ForceUpdateEffect(kb, mid, time);
    AfterForceSparesForce(cfg);
    ReplaySpares(kb, forced, AfterForce(cfg), MacroBodyforce);
  }

  /** A trace that leaves `g_MacroVarsCopy` alone leaves the monitor's
      state (the copy, the residual handles and slots) as it was. */
  lemma SparesMonitor(kb: KernelBodies, s: State, es: seq<Event>)
    requires forall e :: e in es ==> Spares(e, MacroVarsCopy)
    ensures var s' := Replay(kb, s, es);
            |s'.blocks| == |s.blocks| && s'.handles == s.handles && s'.residual == s.residual &&
            forall b :: 0 <= b < |s.blocks| ==> s'.blocks[b].macroVarsCopy == s.blocks[b].macroVarsCopy
  {
    ReplaySpares(kb, s, es, MacroVarsCopy);
  }
}
