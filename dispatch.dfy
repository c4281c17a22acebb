/** The kernel dispatcher: for every block, and for every component of an
    ordered component-to-variant map, the launch of the kernel the variant
    selects over the block's Whole range, or a diagnostic when the variant is
    not implemented; and the boundary dispatch of `TreatBlockBoundary3D`. */
module Dispatch {
  import opened Grid
  import opened Model
  import opened Ops

  /** A variant of one of the three dispatchers. */
  datatype Variant =
    | Collision(collision: CollisionType)
    | BodyForce(force: BodyForceType)
    | Initial(initial: InitialType)

  /** One entry of a component-to-variant map. */
  datatype Term = Term(compoId: nat, variant: Variant)

  function CollisionTermsOf(cfg: Config): (ts: seq<Term>)
    ensures |ts| == |cfg.collisionTerms|
  {
    seq(|cfg.collisionTerms|, n requires 0 <= n < |cfg.collisionTerms| =>
      Term(cfg.collisionTerms[n].0, Collision(cfg.collisionTerms[n].1)))
  }

  function BodyForceTermsOf(cfg: Config): (ts: seq<Term>)
    ensures |ts| == |cfg.bodyForceTerms|
  {
    seq(|cfg.bodyForceTerms|, n requires 0 <= n < |cfg.bodyForceTerms| =>
      Term(cfg.bodyForceTerms[n].0, BodyForce(cfg.bodyForceTerms[n].1)))
  }

  function InitialTermsOf(cfg: Config): (ts: seq<Term>)
    ensures |ts| == |cfg.initialTerms|
  {
    seq(|cfg.initialTerms|, n requires 0 <= n < |cfg.initialTerms| =>
      Term(cfg.initialTerms[n].0, Initial(cfg.initialTerms[n].1)))
  }

  /** The kernel each implemented variant selects; `None` for the variants
      that fall to the `default:` branch. */
  function KernelFor(v: Variant): Option<PhysicsKernel> {
    match v
    case Collision(BGKIsothermal2nd) => Some(KerCollideBGKIsothermal3D)
    case Collision(BGKThermal4th) => Some(KerCollideBGKThermal3D)
    case Collision(OtherCollision(_)) => None
    case BodyForce(BodyForce1st) => Some(KerCalcBodyForce1ST3D)
    case BodyForce(BodyForceNone) => Some(KerCalcBodyForceNone3D)
    case BodyForce(OtherBodyForce(_)) => None
    case Initial(BGKFeq2nd) => Some(KerInitialiseBGK2nd3D)
    case Initial(OtherInitial(_)) => None
  }

  predicate Implemented(v: Variant) {
    KernelFor(v).Some?
  }

  /** The diagnostic each dispatcher prints for a variant it does not implement. */
  function NotImplemented(v: Variant): Message {
    match v
    case Collision(_) => CollisionNotImplemented
    case BodyForce(_) => ForceNotImplemented
    case Initial(_) => InitialNotImplemented
  }

  /** A map whose collision entries can look up their relaxation time. */
  predicate TermsReady(cfg: Config, ts: seq<Term>) {
    forall t :: t in ts && t.variant.Collision? ==> t.compoId < |cfg.tauRef|
  }

  lemma ConfiguredTermsReady(cfg: Config)
    requires cfg.WellFormed()
    ensures TermsReady(cfg, CollisionTermsOf(cfg))
    ensures TermsReady(cfg, BodyForceTermsOf(cfg))
    ensures TermsReady(cfg, InitialTermsOf(cfg))
  {
    forall t | t in CollisionTermsOf(cfg)
      ensures t.compoId < |cfg.tauRef|
    {
      var n :| 0 <= n < |CollisionTermsOf(cfg)| && CollisionTermsOf(cfg)[n] == t;
      assert cfg.collisionTerms[n] in cfg.collisionTerms;
    }
  }

  /** The global arguments a dispatched kernel is launched with: the
      collision kernels take `tau`, the time step and the component id, the
      body-force and initial-condition kernels the component id. */
  function ArgFor(cfg: Config, t: Term): (a: KernelArg)
    requires t.variant.Collision? ==> t.compoId < |cfg.tauRef|
    ensures (a.Collide? || a.Compo?) && a.compoId == t.compoId
    ensures t.variant.Collision? <==> a.Collide?
    ensures a.Collide? ==> a.tau == cfg.tauRef[t.compoId] && a.dt == cfg.timeStep
  {
    if t.variant.Collision? then Collide(cfg.tauRef[t.compoId], cfg.timeStep, t.compoId)
    else Compo(t.compoId)
  }

  /** What the dispatcher does for entry `t` on block `b`. */
  function Launch(cfg: Config, b: nat, t: Term): (e: Event)
    requires t.variant.Collision? ==> t.compoId < |cfg.tauRef|
    ensures e.ParLoop? <==> Implemented(t.variant)
    ensures e.ParLoop? ==> e.call.Physics? && e.call.kernel == KernelFor(t.variant).value &&
                           e.call.block == b && e.call.range == cfg.WholeRange(b) &&
                           e.call.arg == ArgFor(cfg, t)
    ensures !e.ParLoop? ==> e == Printf(NotImplemented(t.variant))
  {
    match KernelFor(t.variant)
    case Some(k) => ParLoop(Physics(k, b, cfg.WholeRange(b), ArgFor(cfg, t)))
    case None => Printf(NotImplemented(t.variant))
  }

  /** The inner loop on block `b`: the map's entries, in map order. */
  function BlockEvents(cfg: Config, b: nat, ts: seq<Term>): (es: seq<Event>)
    requires TermsReady(cfg, ts)
    ensures |es| == |ts|
    decreases |ts|
  {
    if ts == [] then []
    else BlockEvents(cfg, b, ts[..|ts| - 1]) + [Launch(cfg, b, ts[|ts| - 1])]
  }

  /** The whole dispatcher over blocks 0 .. n-1, blocks outermost. */
  function DispatchEvents(cfg: Config, ts: seq<Term>, n: nat): seq<Event>
    requires TermsReady(cfg, ts)
  {
    if n == 0 then [] else DispatchEvents(cfg, ts, n - 1) + BlockEvents(cfg, n - 1, ts)
  }

  lemma {:induction false} BlockEventsLayout(cfg: Config, b: nat, ts: seq<Term>)
    requires TermsReady(cfg, ts)
    ensures |BlockEvents(cfg, b, ts)| == |ts|
    ensures forall t :: 0 <= t < |ts| ==> BlockEvents(cfg, b, ts)[t] == Launch(cfg, b, ts[t])
    decreases |ts|
  {
    if ts != [] {
      BlockEventsLayout(cfg, b, ts[..|ts| - 1]);
    }
  }

  lemma {:induction false} DispatchLength(cfg: Config, ts: seq<Term>, n: nat)
    requires TermsReady(cfg, ts)
    ensures |DispatchEvents(cfg, ts, n)| == n * |ts|
  {
    if n > 0 {
      DispatchLength(cfg, ts, n - 1);
      BlockEventsLayout(cfg, n - 1, ts);
      assert n * |ts| == (n - 1) * |ts| + |ts|;
    }
  }

  /** The dispatcher's trace for blocks 0 .. b-1 is where its trace for
      blocks 0 .. n-1 starts. */
  lemma {:induction false} DispatchPrefix(cfg: Config, ts: seq<Term>, b: nat, n: nat)
    requires TermsReady(cfg, ts) && b <= n
    ensures DispatchEvents(cfg, ts, b) <= DispatchEvents(cfg, ts, n)
    decreases n
  {
    if b < n {
      DispatchPrefix(cfg, ts, b, n - 1);
    }
  }

  /** Blocks form the outer loop in index order: block b's launches (the
      map's entries in map order, `BlockEventsLayout`) are the events that
      follow those of blocks 0 .. b-1. */
  lemma DispatchLayout(cfg: Config, ts: seq<Term>, n: nat, b: nat)
    requires TermsReady(cfg, ts) && b < n
    ensures DispatchEvents(cfg, ts, b) + BlockEvents(cfg, b, ts) <= DispatchEvents(cfg, ts, n)
  {
    DispatchPrefix(cfg, ts, b + 1, n);
  }

  /** The entries of a map whose variants are implemented, in map order. */
  function Recognised(ts: seq<Term>): (r: seq<Term>)
    ensures forall t :: t in r ==> t in ts && Implemented(t.variant)
    decreases |ts|
  {
    if ts == [] then []
    else Recognised(ts[..|ts| - 1]) + (if Implemented(ts[|ts| - 1].variant) then [ts[|ts| - 1]] else [])
  }

  /** The number of kernel launches in a trace. */
  function Launches(es: seq<Event>): nat {
    if es == [] then 0 else (if es[0].ParLoop? then 1 else 0) + Launches(es[1..])
  }

  /** The number of diagnostics in a trace. */
  function Diagnostics(es: seq<Event>): nat {
    if es == [] then 0 else (if es[0].Printf? then 1 else 0) + Diagnostics(es[1..])
  }

  lemma {:induction false} CountsAppend(xs: seq<Event>, ys: seq<Event>)
    ensures Launches(xs + ys) == Launches(xs) + Launches(ys)
    ensures Diagnostics(xs + ys) == Diagnostics(xs) + Diagnostics(ys)
    decreases |xs|
  {
    if xs == [] {
      assert xs + ys == ys;
    } else {
      assert (xs + ys)[1..] == xs[1..] + ys;
      CountsAppend(xs[1..], ys);
    }
  }

  lemma {:induction false} BlockCounts(cfg: Config, b: nat, ts: seq<Term>)
    requires TermsReady(cfg, ts)
    ensures Launches(BlockEvents(cfg, b, ts)) == |Recognised(ts)|
    ensures Diagnostics(BlockEvents(cfg, b, ts)) == |ts| - |Recognised(ts)|
    ensures |Recognised(ts)| <= |ts|
    decreases |ts|
  {
    if ts != [] {
      var init := ts[..|ts| - 1];
      BlockCounts(cfg, b, init);
      CountsAppend(BlockEvents(cfg, b, init), [Launch(cfg, b, ts[|ts| - 1])]);
    }
  }

  /** Every block launches one kernel per implemented entry and prints one
      diagnostic per other entry, and nothing else. */
  lemma {:induction false} DispatchCounts(cfg: Config, ts: seq<Term>, n: nat)
    requires TermsReady(cfg, ts)
    ensures Launches(DispatchEvents(cfg, ts, n)) == n * |Recognised(ts)|
    ensures Diagnostics(DispatchEvents(cfg, ts, n)) == n * (|ts| - |Recognised(ts)|)
  {
    if n > 0 {
      DispatchCounts(cfg, ts, n - 1);
      BlockCounts(cfg, n - 1, ts);
      CountsAppend(DispatchEvents(cfg, ts, n - 1), BlockEvents(cfg, n - 1, ts));
      assert n * |Recognised(ts)| == (n - 1) * |Recognised(ts)| + |Recognised(ts)|;
      assert n * (|ts| - |Recognised(ts)|) == (n - 1) * (|ts| - |Recognised(ts)|) + (|ts| - |Recognised(ts)|);
    }
  }

  lemma RecognisedReady(cfg: Config, ts: seq<Term>)
    requires TermsReady(cfg, ts)
    ensures TermsReady(cfg, Recognised(ts))
  {
  }

  lemma {:induction false} BlockFailSoft(kb: KernelBodies, s: State, cfg: Config, b: nat, ts: seq<Term>)
    requires TermsReady(cfg, ts)
    ensures TermsReady(cfg, Recognised(ts))
    ensures Replay(kb, s, BlockEvents(cfg, b, ts)) == Replay(kb, s, BlockEvents(cfg, b, Recognised(ts)))
    decreases |ts|
  {
    RecognisedReady(cfg, ts);
    if ts != [] {
      var init := ts[..|ts| - 1];
      var t := ts[|ts| - 1];
      BlockFailSoft(kb, s, cfg, b, init);
      if Implemented(t.variant) {
        var r := Recognised(ts);
        assert r == Recognised(init) + [t];
        assert r[..|r| - 1] == Recognised(init);
      } else {
        assert Recognised(ts) == Recognised(init);
      }
    }
  }

  /** The dispatcher's trace is its blocks' traces in block order. */
  lemma {:induction false} DispatchPieces(cfg: Config, ts: seq<Term>, n: nat)
    requires TermsReady(cfg, ts)
    ensures DispatchEvents(cfg, ts, n) == Concat((b: nat) => BlockEvents(cfg, b, ts), n)
  {
    if n > 0 {
      DispatchPieces(cfg, ts, n - 1);
    }
  }

  /** Fail-soft default: a variant without an implementation changes no
      field, no handle and no residual slot on any block; the dispatcher
      leaves the state exactly as the implemented entries alone would. */
  lemma DispatchFailSoft(kb: KernelBodies, s: State, cfg: Config, ts: seq<Term>, n: nat)
    requires TermsReady(cfg, ts)
    ensures TermsReady(cfg, Recognised(ts))
    ensures Replay(kb, s, DispatchEvents(cfg, ts, n)) == Replay(kb, s, DispatchEvents(cfg, Recognised(ts), n))
  {
    RecognisedReady(cfg, ts);
    var rs := Recognised(ts);
    forall m: State, b: nat | b < n
      ensures Replay(kb, m, BlockEvents(cfg, b, ts)) == Replay(kb, m, BlockEvents(cfg, b, rs))
    {
      BlockFailSoft(kb, m, cfg, b, ts);
    }
    ReplayConcatAgree(kb, s, (b: nat) => BlockEvents(cfg, b, ts), (b: nat) => BlockEvents(cfg, b, rs), n);
    DispatchPieces(cfg, ts, n);
    DispatchPieces(cfg, rs, n);
  }

  lemma {:induction false} RecognisedNone(ts: seq<Term>)
    requires forall t :: t in ts ==> !Implemented(t.variant)
    ensures Recognised(ts) == []
    decreases |ts|
  {
    if ts != [] {
      assert ts[|ts| - 1] in ts;
      assert forall t :: t in ts[..|ts| - 1] ==> t in ts;
      RecognisedNone(ts[..|ts| - 1]);
    }
  }

  /** A map none of whose variants is implemented: the dispatcher only
      prints, and the state is exactly as before. */
  lemma NothingImplementedIsNoOp(kb: KernelBodies, s: State, cfg: Config, ts: seq<Term>, n: nat)
    requires TermsReady(cfg, ts)
    requires forall t :: t in ts ==> !Implemented(t.variant)
    ensures Replay(kb, s, DispatchEvents(cfg, ts, n)) == s
  {
    DispatchFailSoft(kb, s, cfg, ts, n);
    RecognisedNone(ts);
    EmptyDispatch(cfg, n);
  }

  lemma {:induction false} EmptyDispatch(cfg: Config, n: nat)
    ensures DispatchEvents(cfg, [], n) == []
  {
    if n > 0 {
      EmptyDispatch(cfg, n - 1);
    }
  }

  lemma {:induction false} DispatchSparesAll(cfg: Config, ts: seq<Term>, n: nat, id: FieldId)
    requires TermsReady(cfg, ts)
    requires forall t :: t in ts && Implemented(t.variant) ==> id !in Writes(KernelFor(t.variant).value)
    ensures forall e :: e in DispatchEvents(cfg, ts, n) ==> Spares(e, id)
  {
    if n > 0 {
      DispatchSparesAll(cfg, ts, n - 1, id);
      BlockEventsLayout(cfg, n - 1, ts);
      forall e | e in BlockEvents(cfg, n - 1, ts)
        ensures Spares(e, id)
      {
        var t :| 0 <= t < |ts| && BlockEvents(cfg, n - 1, ts)[t] == e;
        assert ts[t] in ts;
      }
    }
  }

  /** The collision and body-force dispatchers read `g_f` and never write
      it, the body-force kernels read `g_MacroBodyforce` and no dispatcher
      writes it, and no dispatcher touches `g_MacroVarsCopy`, the handles or
      the residual slots. */
  lemma DispatchFootprint(kb: KernelBodies, s: State, cfg: Config, ts: seq<Term>, n: nat)
    requires TermsReady(cfg, ts)
    ensures var s' := Replay(kb, s, DispatchEvents(cfg, ts, n));
            |s'.blocks| == |s.blocks| && s'.handles == s.handles && s'.residual == s.residual &&
            forall b :: 0 <= b < |s.blocks| ==>
              s'.blocks[b].macroVarsCopy == s.blocks[b].macroVarsCopy && s'.blocks[b].macroBodyforce == s.blocks[b].macroBodyforce
    ensures (forall t :: t in ts ==> !t.variant.Initial?) ==>
            var s' := Replay(kb, s, DispatchEvents(cfg, ts, n));
            |s'.blocks| == |s.blocks| && forall b :: 0 <= b < |s.blocks| ==> s'.blocks[b].f == s.blocks[b].f
  {
    DispatchSparesAll(cfg, ts, n, MacroVarsCopy);
    ReplaySpares(kb, s, DispatchEvents(cfg, ts, n), MacroVarsCopy);
    DispatchSparesAll(cfg, ts, n, MacroBodyforce);
    ReplaySpares(kb, s, DispatchEvents(cfg, ts, n), MacroBodyforce);
    if forall t :: t in ts ==> !t.variant.Initial? {
      DispatchSparesAll(cfg, ts, n, F);
      ReplaySpares(kb, s, DispatchEvents(cfg, ts, n), F);
    }
  }

  // ---------------------------------------------------------------------
  // Boundary dispatch (TreatBlockBoundary3D)

  /** The kernel each recognised boundary type selects. */
  function BoundaryKernel(t: VertexType): Option<PhysicsKernel> {
    match t
    case ExtrapolPressure1ST => Some(KerCutCellExtrapolPressure1ST3D)
    case EQMDiffuseRefl => Some(KerCutCellEQMDiffuseRefl3D)
    case NoslipEQN => Some(KerCutCellNoslipEQN3D)
    case Periodic => Some(KerCutCellPeriodic3D)
    case OtherVertex(_) => None
  }

  /** The global arguments each boundary kernel takes: the pressure
      extrapolation only the given macroscopic values, the periodic kernel
      only the component id, the other two both. */
  function BoundaryArg(t: VertexType, givenVars: seq<real>, componentId: nat): KernelArg {
    match t
    case ExtrapolPressure1ST => Given(givenVars)
    case Periodic => Compo(componentId)
    case _ => GivenCompo(givenVars, componentId)
  }

  /** What `TreatBlockBoundary3D` does: one launch over the caller's range
      for a recognised type, nothing at all otherwise. */
  function BoundaryEvents(blockIndex: nat, componentId: nat, givenVars: seq<real>, range: Box, t: VertexType): seq<Event> {
    match BoundaryKernel(t)
    case Some(k) => [ParLoop(Physics(k, blockIndex, range, BoundaryArg(t, givenVars, componentId)))]
    case None => []
  }

  /** Exactly one kernel event over the caller-supplied range on the given
      block for the four recognised types; for any other type no event at
      all, and in particular no diagnostic. The launch can change only
      `g_f` of that block, and that only at the points of `range`. */
  lemma BoundaryDispatch(kb: KernelBodies, s: State, blockIndex: nat, componentId: nat, givenVars: seq<real>, range: Box, t: VertexType)
    ensures |BoundaryEvents(blockIndex, componentId, givenVars, range, t)| ==
            if t.OtherVertex? then 0 else 1
    ensures forall e :: e in BoundaryEvents(blockIndex, componentId, givenVars, range, t) ==>
              e.ParLoop? && e.call.Physics? && e.call.block == blockIndex && e.call.range == range
    ensures Diagnostics(BoundaryEvents(blockIndex, componentId, givenVars, range, t)) == 0
    ensures var s' := Replay(kb, s, BoundaryEvents(blockIndex, componentId, givenVars, range, t));
            |s'.blocks| == |s.blocks| && s'.handles == s.handles && s'.residual == s.residual &&
            (forall b :: 0 <= b < |s.blocks| && b != blockIndex ==> s'.blocks[b] == s.blocks[b]) &&
            (forall b :: 0 <= b < |s.blocks| ==>
               s'.blocks[b].fStage == s.blocks[b].fStage && s'.blocks[b].macroVars == s.blocks[b].macroVars &&
               s'.blocks[b].macroVarsCopy == s.blocks[b].macroVarsCopy &&
               s'.blocks[b].macroBodyforce == s.blocks[b].macroBodyforce) &&
            (blockIndex < |s.blocks| ==>
               forall p, c :: !range.Contains(p) ==> s'.blocks[blockIndex].f(p, c) == s.blocks[blockIndex].f(p, c))
  {
    var es := BoundaryEvents(blockIndex, componentId, givenVars, range, t);
    if es != [] {
      assert es[..0] == [];
    }
  }
}
