/** What the core asks of the OPS library and of its collaborators, as a
    trace of events, and what each event does to the state: `Step` gives the
    effect of one event, `Replay` of a whole trace. */
module Ops {
  import opened Grid
  import opened Model

  /** The physics kernels this core launches; their bodies live outside it. */
  datatype PhysicsKernel =
    | KerCollideBGKIsothermal3D
    | KerCollideBGKThermal3D
    | KerCalcBodyForce1ST3D
    | KerCalcBodyForceNone3D
    | KerInitialiseBGK2nd3D
    | KerCalcMacroVars3D
    | KerStream3D
    | KerCutCellExtrapolPressure1ST3D
    | KerCutCellEQMDiffuseRefl3D
    | KerCutCellNoslipEQN3D
    | KerCutCellPeriodic3D

  /** The global (`ops_arg_gbl`) arguments of a physics kernel launch. */
  datatype KernelArg =
    | NoArg
    | TimeStepArg(dt: real)
    | Collide(tau: real, dt: real, compoId: nat)
    | Compo(compoId: nat)
    | Given(givenVars: seq<real>)
    | GivenCompo(givenVars: seq<real>, compoId: nat)

  /** The two reduction kernels of the residual computation:
      `KerCalcMacroVarSquareofDifference` and `KerCalcMacroVarSquare`. */
  datatype Reduction = SquareOfDifference | Square

  /** One `ops_par_loop` over `range` of block `block`. */
  datatype KernelCall =
    | Physics(kernel: PhysicsKernel, block: nat, range: Box, arg: KernelArg)
    | CopyF(block: nat, range: Box, dest: FieldId, src: FieldId)
    | CopyMacroVars(block: nat, range: Box)
    | Reduce(sum: Reduction, block: nat, range: Box, macroVarIdx: nat)

  /** The texts `ops_printf` shows that matter to the control flow. */
  datatype Message =
    | Starting
    | Finished
    | CollisionNotImplemented
    | ForceNotImplemented
    | InitialNotImplemented

  /** One call of the core into the library or into a collaborator. */
  datatype Event =
    | ParLoop(call: KernelCall)
    | ReductionResult(handle: nat, slot: nat)
    | Printf(msg: Message)
    | UpdateMacroscopicBodyForce(time: real)
    | HaloTransfer
    | ImplementBoundaryConditions
    | DisplayResidual(iter: nat, checkPeriod: real)
    | WriteFlowfield(iter: nat)
    | WriteDistributions(iter: nat)
    | WriteNodeProperty(iter: nat)
    | DestroyModel
    | DestroyFlowfield

  /** The fields a physics kernel may change: those it is handed with
      `OPS_WRITE` or `OPS_RW`. */
  function Writes(k: PhysicsKernel): set<FieldId> {
    match k
    case KerCollideBGKIsothermal3D => {FStage, MacroVars}
    case KerCollideBGKThermal3D => {FStage, MacroVars}
    case KerCalcBodyForce1ST3D => {FStage, MacroVars}
    case KerCalcBodyForceNone3D => {FStage, MacroVars}
    case KerInitialiseBGK2nd3D => {F, MacroVars}
    case KerCalcMacroVars3D => {MacroVars}
    case KerStream3D => {F}
    case KerCutCellExtrapolPressure1ST3D => {F}
    case KerCutCellEQMDiffuseRefl3D => {F}
    case KerCutCellNoslipEQN3D => {F}
    case KerCutCellPeriodic3D => {F}
  }

  /** What the solver supplies from outside this core: the bodies of the
      physics kernels (the new fields of the launched block, from its current
      fields), `UpdateMacroscopicBodyForce(time)` (the new `g_MacroBodyforce`
      of block `b`), the halo transfer and `ImplementBoundaryConditions` (the
      new `g_f` of block `b`, from all blocks). */
  datatype KernelBodies = KernelBodies(
    kernel: (KernelCall, BlockFields) -> BlockFields,
    bodyForce: (real, nat, seq<BlockFields>) -> Field,
    halo: (nat, seq<BlockFields>) -> Field,
    boundary: (nat, seq<BlockFields>) -> Field)

  /** Keeps from `updated` only the fields in `ws`, and those only at the
      points of the launch range `r`: an `ops_par_loop` writes nothing
      outside its iteration range. */
  function Restrict(updated: BlockFields, before: BlockFields, ws: set<FieldId>, r: Box): (res: BlockFields)
  {
    BlockFields(
      if F in ws then CopyOn(before.f, updated.f, r) else before.f,
      if FStage in ws then CopyOn(before.fStage, updated.fStage, r) else before.fStage,
      if MacroVars in ws then CopyOn(before.macroVars, updated.macroVars, r) else before.macroVars,
      if MacroVarsCopy in ws then CopyOn(before.macroVarsCopy, updated.macroVarsCopy, r) else before.macroVarsCopy,
      if MacroBodyforce in ws then CopyOn(before.macroBodyforce, updated.macroBodyforce, r) else before.macroBodyforce)
  }

  /** Every block with field `id` replaced by `v(b)`, the value a
      collaborator computes for block `b` from all blocks. */
  function SetEach(blocks: seq<BlockFields>, id: FieldId, v: (nat, seq<BlockFields>) -> Field): (r: seq<BlockFields>)
    ensures |r| == |blocks|
    ensures forall b :: 0 <= b < |r| ==> r[b] == blocks[b].With(id, v(b, blocks))
  {
    seq(|blocks|, b requires 0 <= b < |blocks| => blocks[b].With(id, v(b, blocks)))
  }

  /** The per-point contribution of a reduction kernel for variable `idx`. */
  function Integrand(sum: Reduction, bf: BlockFields, idx: nat): Point -> real {
    match sum
    case SquareOfDifference =>
      (p: Point) => (bf.macroVars(p, idx) - bf.macroVarsCopy(p, idx)) * (bf.macroVars(p, idx) - bf.macroVarsCopy(p, idx))
    case Square =>
      (p: Point) => bf.macroVars(p, idx) * bf.macroVars(p, idx)
  }

  /** What one reduction kernel adds to its handle on block `bf`. */
  function BlockSum(sum: Reduction, bf: BlockFields, r: Box, idx: nat): real {
    SumOver(Points(r), Integrand(sum, bf, idx))
  }

  /** The effect of one `ops_par_loop`. */
  function Execute(kb: KernelBodies, s: State, call: KernelCall): State {
    if call.block >= |s.blocks| then s
    else
      var bf := s.blocks[call.block];
      match call
      case Physics(kernel, b, _, _) =>
        s.(blocks := s.blocks[b := Restrict(kb.kernel(call, bf), bf, Writes(kernel), call.range)])
      case CopyF(b, r, dest, src) =>
        s.(blocks := s.blocks[b := bf.With(dest, CopyOn(bf.Get(dest), bf.Get(src), r))])
      case CopyMacroVars(b, r) =>
        s.(blocks := s.blocks[b := bf.(macroVarsCopy := CopyOn(bf.macroVarsCopy, bf.macroVars, r))])
      case Reduce(sum, b, r, idx) =>
        if idx < |s.handles|
        then s.(handles := s.handles[idx := s.handles[idx] + BlockSum(sum, bf, r, idx)])
        else s
  }

  /** The effect of one event. `ops_reduction_result` stores a handle's
      accumulated value into a residual slot and starts the handle afresh;
      the body-force update sets `g_MacroBodyforce` and the halo transfer
      and the boundary treatment set `g_f`, as the solver supplies; messages,
      writers and teardown leave the modelled state alone. */
  function Step(kb: KernelBodies, s: State, e: Event): State {
    if e.ParLoop? then Execute(kb, s, e.call)
    else if e.ReductionResult? then Collect(s, e.handle, e.slot)
    else Collaborate(kb, s, e)
  }

  /** The effect of an event that is neither a kernel launch nor a
      reduction result. */
  function Collaborate(kb: KernelBodies, s: State, e: Event): State {
    match e
    case UpdateMacroscopicBodyForce(time) =>
      s.(blocks := SetEach(s.blocks, MacroBodyforce, (b, bs) => kb.bodyForce(time, b, bs)))
    case HaloTransfer => s.(blocks := SetEach(s.blocks, F, kb.halo))
    case ImplementBoundaryConditions => s.(blocks := SetEach(s.blocks, F, kb.boundary))
    case _ => s
  }

  /** `UpdateMacroscopicBodyForce(time)`: every block's `g_MacroBodyforce`
      becomes the supplied force at `time`; nothing else changes. */
  lemma ForceUpdateEffect(kb: KernelBodies, s: State, time: real)
    ensures var s' := Step(kb, s, UpdateMacroscopicBodyForce(time));
            |s'.blocks| == |s.blocks| && s'.handles == s.handles && s'.residual == s.residual &&
            forall b, id :: 0 <= b < |s.blocks| ==>
              s'.blocks[b].Get(id) == if id == MacroBodyforce then kb.bodyForce(time, b, s.blocks) else s.blocks[b].Get(id)
  {
  }

  /** The halo transfer and the boundary treatment: every block's `g_f`
      becomes what the collaborator supplies; nothing else changes. */
  lemma DistributionCallEffect(kb: KernelBodies, s: State, e: Event)
    requires e.HaloTransfer? || e.ImplementBoundaryConditions?
    ensures var s' := Step(kb, s, e);
            var g: (nat, seq<BlockFields>) -> Field := if e.HaloTransfer? then kb.halo else kb.boundary;
            |s'.blocks| == |s.blocks| && s'.handles == s.handles && s'.residual == s.residual &&
            forall b, id :: 0 <= b < |s.blocks| ==>
              s'.blocks[b].Get(id) == if id == F then g(b, s.blocks) else s.blocks[b].Get(id)
  {
  }

  /** `ops_reduction_result` of handle `h` into residual slot `slot`. */
  function Collect(s: State, h: nat, slot: nat): State {
    if h < |s.handles| && slot < |s.residual|
    then s.(handles := s.handles[h := 0.0], residual := s.residual[slot := s.handles[h]])
    else s
  }

  /** The state after the events `es`, started from `s`. */
  function Replay(kb: KernelBodies, s: State, es: seq<Event>): State
    decreases |es|
  {
    if es == [] then s else Step(kb, Replay(kb, s, es[..|es| - 1]), es[|es| - 1])
  }

  /** Replaying a trace in two pieces is replaying it whole. */
  lemma {:induction false} ReplayAppend(kb: KernelBodies, s: State, xs: seq<Event>, ys: seq<Event>)
    ensures Replay(kb, s, xs + ys) == Replay(kb, Replay(kb, s, xs), ys)
    decreases |ys|
  {
    if ys == [] {
      assert xs + ys == xs;
    } else {
      var zs := ys[..|ys| - 1];
      assert (xs + ys)[..|xs + ys| - 1] == xs + zs;
      assert (xs + ys)[|xs + ys| - 1] == ys[|ys| - 1];
      ReplayAppend(kb, s, xs, zs);
    }
  }

  lemma ReplayAppendAt(kb: KernelBodies, s: State, es: seq<Event>, xs: seq<Event>, ys: seq<Event>)
    requires es == xs + ys
    ensures Replay(kb, s, es) == Replay(kb, Replay(kb, s, xs), ys)
  {
    ReplayAppend(kb, s, xs, ys);
  }

  /** Two traces in two pieces whose pieces have the same effects have the
      same effect. */
  lemma ReplayPieces(kb: KernelBodies, s: State, xs: seq<Event>, ys: seq<Event>, xs': seq<Event>, ys': seq<Event>)
    requires Replay(kb, s, xs) == Replay(kb, s, xs')
    requires Replay(kb, Replay(kb, s, xs), ys) == Replay(kb, Replay(kb, s, xs), ys')
    ensures Replay(kb, s, xs + ys) == Replay(kb, s, xs' + ys')
  {
    ReplayAppend(kb, s, xs, ys);
    ReplayAppend(kb, s, xs', ys');
  }

  /** The events of `n` pieces in order, piece `b` being `piece(b)`. */
  function Concat(piece: nat -> seq<Event>, n: nat): seq<Event> {
    if n == 0 then [] else Concat(piece, n - 1) + piece(n - 1)
  }

  /** Pieces that replay alike from every state concatenate to traces that
      replay alike. */
  lemma {:induction false} ReplayConcatAgree(kb: KernelBodies, s: State, p: nat -> seq<Event>, q: nat -> seq<Event>, n: nat)
    requires forall m: State, b: nat :: b < n ==> Replay(kb, m, p(b)) == Replay(kb, m, q(b))
    ensures Replay(kb, s, Concat(p, n)) == Replay(kb, s, Concat(q, n))
  {
    if n > 0 {
      ReplayConcatAgree(kb, s, p, q, n - 1);
      ReplayPieces(kb, s, Concat(p, n - 1), p(n - 1), Concat(q, n - 1), q(n - 1));
    }
  }

  /** `s'` is `s` with `add(h)` added to every handle `h < n`; the blocks,
      the other handles and the residual slots are as in `s`. */
  ghost predicate Accumulated(s: State, s': State, add: nat -> real, n: nat) {
    s'.blocks == s.blocks && s'.residual == s.residual && |s'.handles| == |s.handles| &&
    forall h :: 0 <= h < |s.handles| ==> s'.handles[h] == if h < n then s.handles[h] + add(h) else s.handles[h]
  }

  lemma AccumulatedOneMore(s: State, mid: State, add: nat -> real, n: nat)
    requires 0 < n <= |s.handles| && Accumulated(s, mid, add, n - 1)
    ensures Accumulated(s, mid.(handles := mid.handles[n - 1 := mid.handles[n - 1] + add(n - 1)]), add, n)
  {
  }

  /** Pieces each of which adds `add(h)` to handle `h` alone, on the blocks
      of `s`, add all of them when replayed in order. */
  lemma {:induction false} ReplayConcatAccumulates(kb: KernelBodies, s: State, p: nat -> seq<Event>, add: nat -> real, n: nat)
    requires n <= |s.handles|
    requires forall m: State, h: nat {:trigger Replay(kb, m, p(h))} :: m.blocks == s.blocks && h < n && h < |m.handles| ==>
               Replay(kb, m, p(h)) == m.(handles := m.handles[h := m.handles[h] + add(h)])
    ensures Accumulated(s, Replay(kb, s, Concat(p, n)), add, n)
  {
    if n > 0 {
      ReplayConcatAccumulates(kb, s, p, add, n - 1);
      var mid := Replay(kb, s, Concat(p, n - 1));
      ReplayAppend(kb, s, Concat(p, n - 1), p(n - 1));
      AccumulatedOneMore(s, mid, add, n);
    }
  }

  lemma ReplaySnoc(kb: KernelBodies, s: State, es: seq<Event>, e: Event)
    ensures Replay(kb, s, es + [e]) == Step(kb, Replay(kb, s, es), e)
  {
    assert (es + [e])[..|es|] == es;
  }

  /** A routine that appended `piece` to the trace and took the state from
      `mid` to `s'`, run after the calls `done` since `s0` and `t0`. */
  lemma ReplayChain(kb: KernelBodies, s0: State, t0: seq<Event>, done: seq<Event>, piece: seq<Event>,
                    mid: State, s': State, tr: seq<Event>)
    requires mid == Replay(kb, s0, done) && s' == Replay(kb, mid, piece) && tr == t0 + done + piece
    ensures s' == Replay(kb, s0, done + piece) && tr == t0 + (done + piece)
  {
    ReplayAppend(kb, s0, done, piece);
    Assoc(t0, done, piece);
  }

  /** No event changes how many blocks, handles or residual slots there are. */
  lemma {:induction false} ReplayShape(kb: KernelBodies, s: State, es: seq<Event>)
    ensures |Replay(kb, s, es).blocks| == |s.blocks|
    ensures |Replay(kb, s, es).handles| == |s.handles|
    ensures |Replay(kb, s, es).residual| == |s.residual|
    decreases |es|
  {
    if es != [] {
      ReplayShape(kb, s, es[..|es| - 1]);
    }
  }

  /** Events that neither launch a kernel, nor collect a reduction, nor
      call a collaborator that writes a field leave the state as it was: a
      trace of them replays to its start. */
  predicate Inert(e: Event) {
    !e.ParLoop? && !e.ReductionResult? && !e.UpdateMacroscopicBodyForce? && !e.HaloTransfer? &&
    !e.ImplementBoundaryConditions?
  }

  lemma {:induction false} ReplayInert(kb: KernelBodies, s: State, es: seq<Event>)
    requires forall e :: e in es ==> Inert(e)
    ensures Replay(kb, s, es) == s
    decreases |es|
  {
    if es != [] {
      assert es[|es| - 1] in es;
      assert forall e :: e in es[..|es| - 1] ==> e in es;
      ReplayInert(kb, s, es[..|es| - 1]);
    }
  }

  /** An event that cannot change field `id` of any block, nor the handles
      or slots: an inert event, a physics kernel that is not handed `id` for writing, a
      `KerCopyf` into another field, the body-force update unless `id` is
      `g_MacroBodyforce`, or the halo transfer or boundary treatment unless
      `id` is `g_f`. */
  predicate Spares(e: Event, id: FieldId) {
    Inert(e) ||
    (e.UpdateMacroscopicBodyForce? && id != MacroBodyforce) ||
    ((e.HaloTransfer? || e.ImplementBoundaryConditions?) && id != F) ||
    (e.ParLoop? && e.call.Physics? && id !in Writes(e.call.kernel)) ||
    (e.ParLoop? && e.call.CopyF? && e.call.dest != id)
  }

  /** A trace of such events leaves field `id` of every block, the handles
      and the residual slots as they were. */
  lemma {:induction false} ReplaySpares(kb: KernelBodies, s: State, es: seq<Event>, id: FieldId)
    requires forall e :: e in es ==> Spares(e, id)
    ensures |Replay(kb, s, es).blocks| == |s.blocks|
    ensures forall b :: 0 <= b < |s.blocks| ==> Replay(kb, s, es).blocks[b].Get(id) == s.blocks[b].Get(id)
    ensures Replay(kb, s, es).handles == s.handles
    ensures Replay(kb, s, es).residual == s.residual
    decreases |es|
  {
    if es != [] {
      var init := es[..|es| - 1];
      assert es[|es| - 1] in es;
      assert forall e :: e in init ==> e in es;
      ReplaySpares(kb, s, init, id);
    }
  }
}
