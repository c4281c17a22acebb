/** The evolution core as the solver runs it: one object holding the
    per-block fields, the reduction handles and the residual slots, whose
    methods are the routines of the core. Every call into the OPS library or
    into a collaborator goes through `Call`, which records it in `trace` and
    applies its effect; each routine promises the trace it appends and, with
    it, the state it leaves, as the functions of the other modules describe
    them. */
module Evolution {
  import opened Grid
  import opened Model
  import opened Ops
  import opened Dispatch
  import opened Envelope
  import opened Residual
  import opened Pipeline
  import opened Drivers

  class Solver {
    /** The configuration of the run, fixed for its duration. */
    const cfg: Config
    /** The physics kernel bodies, supplied by the solver. */
    const kernels: KernelBodies
    /** `GetMaximumResidual(checkPeriod)`: the largest residual the slots
        show, computed outside this core. */
    const maxResidual: (seq<real>, real) -> real

    /** `g_f`, `g_fStage`, `g_MacroVars`, `g_MacroVarsCopy` and
        `g_MacroBodyforce` of every block. */
    var blocks: seq<BlockFields>
    /** `g_ResidualErrorHandle`: one reduction accumulator per variable. */
    var handles: seq<real>
    /** `g_ResidualError`: two slots per variable. */
    var residual: seq<real>
    /** The calls made so far, in order. */
    var trace: seq<Event>

    function Snapshot(): State
      reads this
    {
      State(blocks, handles, residual)
    }

    /** One bundle per block, one handle per variable, two slots per
        variable, and relaxation times for every collision entry. */
    predicate Valid()
      reads this
    {
      cfg.WellFormed() && |blocks| == cfg.blockNum &&
      |handles| == cfg.macroVarsNum && |residual| == 2 * cfg.macroVarsNum
    }

    /** No reduction is under way: every handle is idle. */
    predicate Idle()
      reads this
    {
      forall h :: 0 <= h < |handles| ==> handles[h] == 0.0
    }

    constructor(cfg: Config, kernels: KernelBodies, maxResidual: (seq<real>, real) -> real, blocks: seq<BlockFields>)
      requires cfg.WellFormed() && |blocks| == cfg.blockNum
      ensures Valid() && Idle()
      ensures this.cfg == cfg && this.kernels == kernels && this.maxResidual == maxResidual
      ensures this.blocks == blocks && trace == []
    {
      this.cfg := cfg;
      this.kernels := kernels;
      this.maxResidual := maxResidual;
      this.blocks := blocks;
      this.handles := seq(cfg.macroVarsNum, _ => 0.0);
      this.residual := seq(2 * cfg.macroVarsNum, _ => 0.0);
      this.trace := [];
    }

    /** One call into the library or a collaborator: recorded, and applied. */
    method Call(e: Event)
      requires Valid()
      modifies this
      ensures Valid()
      ensures trace == old(trace) + [e]
      ensures Snapshot() == Step(kernels, old(Snapshot()), e)
    {
      var s := Step(kernels, Snapshot(), e);
      blocks, handles, residual := s.blocks, s.handles, s.residual;
      trace := trace + [e];
    }

    /** `Call`, seen from a loop that has made the calls `done` since the
        state `s0` and the trace `t0`. */
    method Record(e: Event, ghost s0: State, ghost t0: seq<Event>, ghost done: seq<Event>)
      requires Valid() && trace == t0 + done && Snapshot() == Replay(kernels, s0, done)
      modifies this
      ensures Valid() && trace == t0 + (done + [e]) && Snapshot() == Replay(kernels, s0, done + [e])
    {
      ReplaySnoc(kernels, s0, done, e);
      Assoc(t0, done, [e]);
      Call(e);
    }

    // -------------------------------------------------------------------
    // Kernel loops

    /** `kernel` over the Whole range of every block, in block order: the
        loop of `UpdateMacroVars3D` and of `Stream3D`. */
    method EveryBlock(kernel: PhysicsKernel, arg: KernelArg)
      requires Valid()
      modifies this
      ensures Valid()
      ensures trace == old(trace) + BlockLoop(cfg, kernel, arg, cfg.blockNum)
      ensures Snapshot() == Replay(kernels, old(Snapshot()), BlockLoop(cfg, kernel, arg, cfg.blockNum))
    {
      ghost var s0, t0 := Snapshot(), trace;
      ghost var done: seq<Event> := [];
      var blockIndex := 0;
      while blockIndex < cfg.blockNum
        invariant 0 <= blockIndex <= cfg.blockNum && Valid()
        invariant done == BlockLoop(cfg, kernel, arg, blockIndex)
        invariant trace == t0 + done
        invariant Snapshot() == Replay(kernels, s0, done)
      {
        var e := ParLoop(Physics(kernel, blockIndex, cfg.WholeRange(blockIndex), arg));
        Record(e, s0, t0, done);
        BlockLoopSnoc(cfg, kernel, arg, blockIndex);
        done := done + [e];
        blockIndex := blockIndex + 1;
      }
    }

    /** `UpdateMacroVars3D`. */
    method UpdateMacroVars3D()
      requires Valid()
      modifies this
      ensures Valid()
      ensures trace == old(trace) + MacroVarsEvents(cfg)
      ensures Snapshot() == Replay(kernels, old(Snapshot()), MacroVarsEvents(cfg))
    {
      EveryBlock(KerCalcMacroVars3D, TimeStepArg(cfg.timeStep));
    }

    /** `Stream3D`. */
    method Stream3D()
      requires Valid()
      modifies this
      ensures Valid()
      ensures trace == old(trace) + StreamEvents(cfg)
      ensures Snapshot() == Replay(kernels, old(Snapshot()), StreamEvents(cfg))
    {
      EveryBlock(KerStream3D, NoArg);
    }

    /** The body of the term loop of the dispatcher: the kernel the variant
        of term `ts[j]` selects over the Whole range of block `blockIndex`,
        or the variant's diagnostic, after the launches of the terms before
        it. */
    method DispatchTerm(blockIndex: nat, ts: seq<Term>, j: nat, ghost s0: State, ghost t0: seq<Event>, ghost pre: seq<Event>)
      requires Valid() && TermsReady(cfg, ts) && j < |ts|
      requires trace == t0 + (pre + BlockEvents(cfg, blockIndex, ts[..j]))
      requires Snapshot() == Replay(kernels, s0, pre + BlockEvents(cfg, blockIndex, ts[..j]))
      modifies this
      ensures Valid()
      ensures trace == t0 + (pre + BlockEvents(cfg, blockIndex, ts[..j + 1]))
      ensures Snapshot() == Replay(kernels, s0, pre + BlockEvents(cfg, blockIndex, ts[..j + 1]))
    {
      var t := ts[j];
      var e;
      match KernelFor(t.variant) {
        case Some(k) =>
          e := ParLoop(Physics(k, blockIndex, cfg.WholeRange(blockIndex), ArgFor(cfg, t)));
        case None =>
          e := Printf(NotImplemented(t.variant));
      }
      assert ts[..j + 1][..j] == ts[..j];
      Assoc(pre, BlockEvents(cfg, blockIndex, ts[..j]), [e]);
      Record(e, s0, t0, pre + BlockEvents(cfg, blockIndex, ts[..j]));
    }

    /** The body of the block loop of the dispatcher: every term of `ts` in
        map order on block `blockIndex`, after the blocks before it. */
    method DispatchBlock(blockIndex: nat, ts: seq<Term>, ghost s0: State, ghost t0: seq<Event>)
      requires Valid() && TermsReady(cfg, ts)
      requires trace == t0 + DispatchEvents(cfg, ts, blockIndex)
      requires Snapshot() == Replay(kernels, s0, DispatchEvents(cfg, ts, blockIndex))
      modifies this
      ensures Valid()
      ensures trace == t0 + DispatchEvents(cfg, ts, blockIndex + 1)
      ensures Snapshot() == Replay(kernels, s0, DispatchEvents(cfg, ts, blockIndex + 1))
    {
      ghost var pre := DispatchEvents(cfg, ts, blockIndex);
      assert ts[..0] == [];
      assert pre + BlockEvents(cfg, blockIndex, ts[..0]) == pre;
      var j := 0;
      while j < |ts|
        invariant 0 <= j <= |ts| && Valid()
        invariant trace == t0 + (pre + BlockEvents(cfg, blockIndex, ts[..j]))
        invariant Snapshot() == Replay(kernels, s0, pre + BlockEvents(cfg, blockIndex, ts[..j]))
      {
        DispatchTerm(blockIndex, ts, j, s0, t0, pre);
        j := j + 1;
      }
      assert ts[..|ts|] == ts;
    }

    /** The dispatcher shared by the collision, body-force and
        initial-condition routines: blocks outermost, the map's entries in
        map order, the selected kernel over the block's Whole range, or the
        variant's diagnostic. */
    method DispatchTerms(ts: seq<Term>)
      requires Valid() && TermsReady(cfg, ts)
      modifies this
      ensures Valid()
      ensures trace == old(trace) + DispatchEvents(cfg, ts, cfg.blockNum)
      ensures Snapshot() == Replay(kernels, old(Snapshot()), DispatchEvents(cfg, ts, cfg.blockNum))
    {
      ghost var s0, t0 := Snapshot(), trace;
      var blockIndex := 0;
      while blockIndex < cfg.blockNum
        invariant 0 <= blockIndex <= cfg.blockNum && Valid()
        invariant trace == t0 + DispatchEvents(cfg, ts, blockIndex)
        invariant Snapshot() == Replay(kernels, s0, DispatchEvents(cfg, ts, blockIndex))
      {
        DispatchBlock(blockIndex, ts, s0, t0);
        blockIndex := blockIndex + 1;
      }
    }

    /** `PreDefinedCollision3D`. */
    method PreDefinedCollision3D()
      requires Valid()
      modifies this
      ensures Valid()
      ensures trace == old(trace) + DispatchEvents(cfg, CollisionTermsOf(cfg), cfg.blockNum)
      ensures Snapshot() == Replay(kernels, old(Snapshot()), DispatchEvents(cfg, CollisionTermsOf(cfg), cfg.blockNum))
    {
      ConfiguredTermsReady(cfg);
      DispatchTerms(CollisionTermsOf(cfg));
    }

    /** `PreDefinedBodyForce3D`. */
    method PreDefinedBodyForce3D()
      requires Valid()
      modifies this
      ensures Valid()
      ensures trace == old(trace) + DispatchEvents(cfg, BodyForceTermsOf(cfg), cfg.blockNum)
      ensures Snapshot() == Replay(kernels, old(Snapshot()), DispatchEvents(cfg, BodyForceTermsOf(cfg), cfg.blockNum))
    {
      ConfiguredTermsReady(cfg);
      DispatchTerms(BodyForceTermsOf(cfg));
    }

    /** `PreDefinedInitialCondition3D`. */
    method PreDefinedInitialCondition3D()
      requires Valid()
      modifies this
      ensures Valid()
      ensures trace == old(trace) + DispatchEvents(cfg, InitialTermsOf(cfg), cfg.blockNum)
      ensures Snapshot() == Replay(kernels, old(Snapshot()), DispatchEvents(cfg, InitialTermsOf(cfg), cfg.blockNum))
    {
      ConfiguredTermsReady(cfg);
      DispatchTerms(InitialTermsOf(cfg));
    }

    /** `TreatBlockBoundary3D`: the kernel of a recognised boundary type over
        the caller's range; nothing at all for any other type. Only `g_f` of
        the given block can change, and only at the points of `range`. */
    method TreatBlockBoundary3D(blockIndex: nat, componentId: nat, givenVars: seq<real>, range: Box, boundaryType: VertexType)
      requires Valid()
      modifies this
      ensures Valid()
      ensures trace == old(trace) + BoundaryEvents(blockIndex, componentId, givenVars, range, boundaryType)
      ensures Snapshot() == Replay(kernels, old(Snapshot()), BoundaryEvents(blockIndex, componentId, givenVars, range, boundaryType))
      ensures boundaryType.OtherVertex? ==> Snapshot() == old(Snapshot())
      ensures handles == old(handles) && residual == old(residual)
      ensures forall b :: 0 <= b < |blocks| && b != blockIndex ==> blocks[b] == old(blocks)[b]
      ensures forall b :: 0 <= b < |blocks| ==>
                blocks[b].fStage == old(blocks)[b].fStage && blocks[b].macroVars == old(blocks)[b].macroVars &&
                blocks[b].macroVarsCopy == old(blocks)[b].macroVarsCopy &&
                blocks[b].macroBodyforce == old(blocks)[b].macroBodyforce
      ensures blockIndex < |blocks| ==>
                forall p, c :: !range.Contains(p) ==> blocks[blockIndex].f(p, c) == old(blocks)[blockIndex].f(p, c)
    {
      BoundaryDispatch(kernels, Snapshot(), blockIndex, componentId, givenVars, range, boundaryType);
      match BoundaryKernel(boundaryType) {
        case Some(k) =>
          var e := ParLoop(Physics(k, blockIndex, range, BoundaryArg(boundaryType, givenVars, componentId)));
          assert [e][..0] == [];
          Call(e);
        case None =>
      }
    }

    // -------------------------------------------------------------------
    // Distribution copies

    /** `CopyDistribution3D(fDest, fSrc)`: `KerCopyf` over the Whole range
        of every block. */
    method CopyDistribution3D(dest: FieldId, src: FieldId)
      requires Valid()
      modifies this
      ensures Valid()
      ensures trace == old(trace) + CopyEvents(cfg, WholeDomain, dest, src, cfg.blockNum)
      ensures Snapshot() == Replay(kernels, old(Snapshot()), CopyEvents(cfg, WholeDomain, dest, src, cfg.blockNum))
    {
      ghost var s0, t0 := Snapshot(), trace;
      ghost var done: seq<Event> := [];
      var blockIndex := 0;
      while blockIndex < cfg.blockNum
        invariant 0 <= blockIndex <= cfg.blockNum && Valid()
        invariant done == CopyEvents(cfg, WholeDomain, dest, src, blockIndex)
        invariant trace == t0 + done
        invariant Snapshot() == Replay(kernels, s0, done)
      {
        var iterRng := cfg.iterRng(blockIndex, Whole);
        var e := ParLoop(CopyF(blockIndex, iterRng, dest, src));
        WholeCopySnoc(cfg, blockIndex, dest, src);
        Record(e, s0, t0, done);
        done := done + [e];
        blockIndex := blockIndex + 1;
      }
    }

    /** The body of the block loop of `CopyBlockEnvelopDistribution3D`:
        `KerCopyf` over the Imin, Imax, Jmin, Jmax, Kmin and Kmax ranges of
        block `blockIndex`, in that order, after the copies of the blocks
        before it. */
    method CopyBlockEnvelop(blockIndex: nat, dest: FieldId, src: FieldId, ghost s0: State, ghost t0: seq<Event>)
      requires Valid()
      requires trace == t0 + CopyEvents(cfg, BlockEnvelope, dest, src, blockIndex)
      requires Snapshot() == Replay(kernels, s0, CopyEvents(cfg, BlockEnvelope, dest, src, blockIndex))
      modifies this
      ensures Valid()
      ensures trace == t0 + CopyEvents(cfg, BlockEnvelope, dest, src, blockIndex + 1)
      ensures Snapshot() == Replay(kernels, s0, CopyEvents(cfg, BlockEnvelope, dest, src, blockIndex + 1))
    {
      ghost var done := CopyEvents(cfg, BlockEnvelope, dest, src, blockIndex);
      ghost var d := done;
      var iterRng := cfg.iterRng(blockIndex, Imin);
      var e := ParLoop(CopyF(blockIndex, iterRng, dest, src));
      ghost var e0 := e;
      Record(e, s0, t0, d);
      d := d + [e];
      iterRng := cfg.iterRng(blockIndex, Imax);
      e := ParLoop(CopyF(blockIndex, iterRng, dest, src));
      ghost var e1 := e;
      Record(e, s0, t0, d);
      d := d + [e];
      iterRng := cfg.iterRng(blockIndex, Jmin);
      e := ParLoop(CopyF(blockIndex, iterRng, dest, src));
      ghost var e2 := e;
      Record(e, s0, t0, d);
      d := d + [e];
      iterRng := cfg.iterRng(blockIndex, Jmax);
      e := ParLoop(CopyF(blockIndex, iterRng, dest, src));
      ghost var e3 := e;
      Record(e, s0, t0, d);
      d := d + [e];
      iterRng := cfg.iterRng(blockIndex, Kmin);
      e := ParLoop(CopyF(blockIndex, iterRng, dest, src));
      ghost var e4 := e;
      Record(e, s0, t0, d);
      d := d + [e];
      iterRng := cfg.iterRng(blockIndex, Kmax);
      e := ParLoop(CopyF(blockIndex, iterRng, dest, src));
      ghost var e5 := e;
      Record(e, s0, t0, d);
      EnvelopeCopies(cfg, blockIndex, dest, src);
      CopySnoc(cfg, BlockEnvelope, dest, src, blockIndex);
      AppendSix(done, e0, e1, e2, e3, e4, e5);
    }

    /** `CopyBlockEnvelopDistribution3D(fDest, fSrc)`: on every block,
        `KerCopyf` over the Imin, Imax, Jmin, Jmax, Kmin and Kmax ranges in
        that order. */
    method CopyBlockEnvelopDistribution3D(dest: FieldId, src: FieldId)
      requires Valid()
      modifies this
      ensures Valid()
      ensures trace == old(trace) + CopyEvents(cfg, BlockEnvelope, dest, src, cfg.blockNum)
      ensures Snapshot() == Replay(kernels, old(Snapshot()), CopyEvents(cfg, BlockEnvelope, dest, src, cfg.blockNum))
    {
      ghost var s0, t0 := Snapshot(), trace;
      var blockIndex := 0;
      while blockIndex < cfg.blockNum
        invariant 0 <= blockIndex <= cfg.blockNum && Valid()
        invariant trace == t0 + CopyEvents(cfg, BlockEnvelope, dest, src, blockIndex)
        invariant Snapshot() == Replay(kernels, s0, CopyEvents(cfg, BlockEnvelope, dest, src, blockIndex))
      {
        CopyBlockEnvelop(blockIndex, dest, src, s0, t0);
        blockIndex := blockIndex + 1;
      }
    }

    // -------------------------------------------------------------------
    // The convergence monitor

    /** The inner loop of a reduction pass: the reduction kernel `sum` for
        variable `macroVarIdx` over the Whole range of every block. */
    method ReduceVariable(sum: Reduction, macroVarIdx: nat)
      requires Valid()
      modifies this
      ensures Valid()
      ensures trace == old(trace) + ReduceBlocks(cfg, sum, macroVarIdx, cfg.blockNum)
      ensures Snapshot() == Replay(kernels, old(Snapshot()), ReduceBlocks(cfg, sum, macroVarIdx, cfg.blockNum))
    {
      ghost var s0, t0 := Snapshot(), trace;
      ghost var done: seq<Event> := [];
      var blockIndex := 0;
      while blockIndex < cfg.blockNum
        invariant 0 <= blockIndex <= cfg.blockNum && Valid()
        invariant done == ReduceBlocks(cfg, sum, macroVarIdx, blockIndex)
        invariant trace == t0 + done
        invariant Snapshot() == Replay(kernels, s0, done)
      {
        var e := ParLoop(Reduce(sum, blockIndex, cfg.WholeRange(blockIndex), macroVarIdx));
        Record(e, s0, t0, done);
        done := done + [e];
        blockIndex := blockIndex + 1;
      }
    }

    /** One reduction pass of `CalcResidualError3D`: for every macroscopic
        variable, the reduction kernel `sum` over the Whole range of every
        block into that variable's handle. */
    method ReduceAll(sum: Reduction)
      requires Valid()
      modifies this
      ensures Valid()
      ensures trace == old(trace) + ReducePass(cfg, sum, cfg.macroVarsNum)
      ensures Snapshot() == Replay(kernels, old(Snapshot()), ReducePass(cfg, sum, cfg.macroVarsNum))
    {
      ghost var s0, t0 := Snapshot(), trace;
      ghost var done: seq<Event> := [];
      var macroVarIdx := 0;
      while macroVarIdx < cfg.macroVarsNum
        invariant 0 <= macroVarIdx <= cfg.macroVarsNum && Valid()
        invariant done == ReducePass(cfg, sum, macroVarIdx)
        invariant trace == t0 + done
        invariant Snapshot() == Replay(kernels, s0, done)
      {
        ghost var mid := Snapshot();
        ReduceVariable(sum, macroVarIdx);
        ReplayChain(kernels, s0, t0, done, ReduceBlocks(cfg, sum, macroVarIdx, cfg.blockNum), mid, Snapshot(), trace);
        done := done + ReduceBlocks(cfg, sum, macroVarIdx, cfg.blockNum);
        macroVarIdx := macroVarIdx + 1;
      }
    }

    /** `ops_reduction_result` of every handle, into slot `2 * i + parity`. */
    method CollectAll(parity: nat)
      requires Valid()
      modifies this
      ensures Valid()
      ensures trace == old(trace) + Results(cfg.macroVarsNum, parity)
      ensures Snapshot() == Replay(kernels, old(Snapshot()), Results(cfg.macroVarsNum, parity))
    {
      ghost var s0, t0 := Snapshot(), trace;
      ghost var done: seq<Event> := [];
      var macroVarIdx := 0;
      while macroVarIdx < cfg.macroVarsNum
        invariant 0 <= macroVarIdx <= cfg.macroVarsNum && Valid()
        invariant done == Results(macroVarIdx, parity)
        invariant trace == t0 + done
        invariant Snapshot() == Replay(kernels, s0, done)
      {
        var e := ReductionResult(macroVarIdx, 2 * macroVarIdx + parity);
        Record(e, s0, t0, done);
        done := done + [e];
        macroVarIdx := macroVarIdx + 1;
      }
    }

    /** `KerCopyMacroVars` over the Whole range of every block. */
    method SnapshotAll()
      requires Valid()
      modifies this
      ensures Valid()
      ensures trace == old(trace) + SnapshotEvents(cfg, cfg.blockNum)
      ensures Snapshot() == Replay(kernels, old(Snapshot()), SnapshotEvents(cfg, cfg.blockNum))
    {
      ghost var s0, t0 := Snapshot(), trace;
      ghost var done: seq<Event> := [];
      var blockIndex := 0;
      while blockIndex < cfg.blockNum
        invariant 0 <= blockIndex <= cfg.blockNum && Valid()
        invariant done == SnapshotEvents(cfg, blockIndex)
        invariant trace == t0 + done
        invariant Snapshot() == Replay(kernels, s0, done)
      {
        var e := ParLoop(CopyMacroVars(blockIndex, cfg.WholeRange(blockIndex)));
        Record(e, s0, t0, done);
        done := done + [e];
        blockIndex := blockIndex + 1;
      }
    }

    /** `CalcResidualError3D`. With idle handles on entry, slot 2*i ends up
        holding the sum of squared differences between MacroVars and
        MacroVarsCopy of variable i, slot 2*i+1 the sum of squares of
        MacroVars (both as they were on entry), the handles are idle again,
        and MacroVarsCopy equals MacroVars on every Whole range. */
    method CalcResidualError3D()
      requires Valid()
      modifies this
      ensures Valid()
      ensures trace == old(trace) + ResidualEvents(cfg)
      ensures Snapshot() == Replay(kernels, old(Snapshot()), ResidualEvents(cfg))
      ensures old(Idle()) ==> Idle()
      ensures old(Idle()) ==>
                forall i :: 0 <= i < cfg.macroVarsNum ==>
                  residual[2 * i] == Numerator(cfg, old(blocks), i) && residual[2 * i + 1] == Denominator(cfg, old(blocks), i)
      ensures old(Idle()) ==>
                forall b, p, c :: 0 <= b < |blocks| ==>
                  blocks[b].macroVarsCopy(p, c) ==
                  if cfg.WholeRange(b).Contains(p) then old(blocks)[b].macroVars(p, c) else old(blocks)[b].macroVarsCopy(p, c)
    {
      ghost var s0, t0 := Snapshot(), trace;
      ghost var idle := Idle();
      ReduceAll(SquareOfDifference);
      ghost var done := ReducePass(cfg, SquareOfDifference, cfg.macroVarsNum);
      ghost var mid := Snapshot();
      CollectAll(0);
      ReplayChain(kernels, s0, t0, done, Results(cfg.macroVarsNum, 0), mid, Snapshot(), trace);
      done := done + Results(cfg.macroVarsNum, 0);
      mid := Snapshot();
      SnapshotAll();
      ReplayChain(kernels, s0, t0, done, SnapshotEvents(cfg, cfg.blockNum), mid, Snapshot(), trace);
      done := done + SnapshotEvents(cfg, cfg.blockNum);
      mid := Snapshot();
      ReduceAll(Square);
      ReplayChain(kernels, s0, t0, done, ReducePass(cfg, Square, cfg.macroVarsNum), mid, Snapshot(), trace);
      done := done + ReducePass(cfg, Square, cfg.macroVarsNum);
      mid := Snapshot();
      CollectAll(1);
      ReplayChain(kernels, s0, t0, done, Results(cfg.macroVarsNum, 1), mid, Snapshot(), trace);
      done := done + Results(cfg.macroVarsNum, 1);
      assert done == ResidualEvents(cfg);
      if idle {
        ResidualSlots(kernels, s0, cfg);
        ResidualSnapshot(kernels, s0, cfg);
      }
    }

    /** `DispResidualError3D(iter, checkPeriod)`: the residual of every
        macroscopic variable, slot 2*i over slot 2*i+1 over
        `checkPeriod * TimeStep()`, shown once the header is printed. The
        slots and the fields are untouched. */
    method DispResidualError3D(iter: nat, checkPeriod: real) returns (shown: seq<Option<real>>)
      requires Valid()
      modifies this
      ensures Valid()
      ensures trace == old(trace) + [DisplayResidual(iter, checkPeriod)]
      ensures Snapshot() == old(Snapshot())
      ensures shown == Displayed(residual, cfg.macroVarsNum, checkPeriod, cfg.timeStep)
    {
      Call(DisplayResidual(iter, checkPeriod));
      shown := [];
      var macroVarIdx := 0;
      while macroVarIdx < cfg.macroVarsNum
        invariant 0 <= macroVarIdx <= cfg.macroVarsNum
        invariant |shown| == macroVarIdx
        invariant forall i :: 0 <= i < macroVarIdx ==>
                    shown[i] == ResidualRatio(residual[2 * i], residual[2 * i + 1], checkPeriod, cfg.timeStep)
      {
        var residualError := ResidualRatio(residual[2 * macroVarIdx], residual[2 * macroVarIdx + 1], checkPeriod, cfg.timeStep);
        shown := shown + [residualError];
        macroVarIdx := macroVarIdx + 1;
      }
    }

    // -------------------------------------------------------------------
    // The pipeline and the drivers

    /** `StreamCollision3D(time)`: the macroscopic update, the envelope copy
        into fStage, the body-force update at `time`, the body-force and
        collision terms, streaming, the halo exchange when there is a halo
        group, and the boundary conditions. */
    method StreamCollision3D(time: real)
      requires Valid()
      modifies this
      ensures Valid()
      ensures trace == old(trace) + PipelineEvents(cfg, time)
      ensures Snapshot() == Replay(kernels, old(Snapshot()), PipelineEvents(cfg, time))
    {
      ghost var s0, t0 := Snapshot(), trace;
      UpdateMacroVars3D();
      ghost var done := MacroVarsEvents(cfg);
      ghost var mid := Snapshot();
      CopyBlockEnvelopDistribution3D(FStage, F);
      ReplayChain(kernels, s0, t0, done, CopyEvents(cfg, BlockEnvelope, FStage, F, cfg.blockNum), mid, Snapshot(), trace);
      done := done + CopyEvents(cfg, BlockEnvelope, FStage, F, cfg.blockNum);
      Record(UpdateMacroscopicBodyForce(time), s0, t0, done);
      done := done + [UpdateMacroscopicBodyForce(time)];
      mid := Snapshot();
      PreDefinedBodyForce3D();
      ReplayChain(kernels, s0, t0, done, DispatchEvents(cfg, BodyForceTermsOf(cfg), cfg.blockNum), mid, Snapshot(), trace);
      done := done + DispatchEvents(cfg, BodyForceTermsOf(cfg), cfg.blockNum);
      mid := Snapshot();
      PreDefinedCollision3D();
      ReplayChain(kernels, s0, t0, done, DispatchEvents(cfg, CollisionTermsOf(cfg), cfg.blockNum), mid, Snapshot(), trace);
      done := done + DispatchEvents(cfg, CollisionTermsOf(cfg), cfg.blockNum);
      mid := Snapshot();
      Stream3D();
      ReplayChain(kernels, s0, t0, done, StreamEvents(cfg), mid, Snapshot(), trace);
      done := done + StreamEvents(cfg);
      mid := Snapshot();
      if cfg.haloGroup {
        Call(HaloTransfer);
      } else {
        assert trace == trace + [];
      }
      ReplayChain(kernels, s0, t0, done, HaloEvents(cfg), mid, Snapshot(), trace);
      done := done + HaloEvents(cfg);
      Record(ImplementBoundaryConditions, s0, t0, done);
      done := done + [ImplementBoundaryConditions];
      assert done == PipelineEvents(cfg, time);
    }

    /** A checkpoint of either driver: `UpdateMacroVars3D`,
        `CalcResidualError3D`, `DispResidualError3D(iter, checkPeriod)`,
        then the three HDF5 writers for `iter`. */
    method Checkpoint(iter: nat, checkPeriod: real)
      requires Valid()
      modifies this
      ensures Valid()
      ensures trace == old(trace) + CheckpointEvents(cfg, iter, checkPeriod)
      ensures Snapshot() == Replay(kernels, old(Snapshot()), CheckpointEvents(cfg, iter, checkPeriod))
    {
      ghost var s0, t0 := Snapshot(), trace;
      UpdateMacroVars3D();
      ghost var done := MacroVarsEvents(cfg);
      ghost var mid := Snapshot();
      CalcResidualError3D();
      ReplayChain(kernels, s0, t0, done, ResidualEvents(cfg), mid, Snapshot(), trace);
      done := done + ResidualEvents(cfg);
      var shown := DispResidualError3D(iter, checkPeriod);
      ReplaySnoc(kernels, s0, done, DisplayResidual(iter, checkPeriod));
      Assoc(t0, done, [DisplayResidual(iter, checkPeriod)]);
      done := done + [DisplayResidual(iter, checkPeriod)];
      ghost var pre := done;
      Record(WriteFlowfield(iter), s0, t0, done);
      done := done + [WriteFlowfield(iter)];
      Record(WriteDistributions(iter), s0, t0, done);
      done := done + [WriteDistributions(iter)];
      Record(WriteNodeProperty(iter), s0, t0, done);
      done := done + [WriteNodeProperty(iter)];
      AppendThree(pre, WriteFlowfield(iter), WriteDistributions(iter), WriteNodeProperty(iter));
    }

    /** One pass of the counted loop's body: `StreamCollision3D` at
        `iter * TimeStep()`, then a checkpoint when `iter` is a positive
        multiple of `checkPointPeriod`. */
    method FixedStep(iter: nat, checkPointPeriod: nat)
      requires Valid() && checkPointPeriod > 0
      modifies this
      ensures Valid()
      ensures trace == old(trace) + FixedIteration(cfg, iter, checkPointPeriod)
      ensures Snapshot() == Replay(kernels, old(Snapshot()), FixedIteration(cfg, iter, checkPointPeriod))
    {
      ghost var s0, t0 := Snapshot(), trace;
      var time := IterTime(cfg, iter);
      StreamCollision3D(time);
      ghost var pipe := PipelineEvents(cfg, time);
      if iter % checkPointPeriod == 0 && iter != 0 {
        ghost var mid := Snapshot();
        var checkPeriod := CheckPeriod(cfg, checkPointPeriod);
        Checkpoint(iter, checkPeriod);
        ReplayChain(kernels, s0, t0, pipe, CheckpointEvents(cfg, iter, checkPeriod), mid, Snapshot(), trace);
      } else {
        assert pipe + [] == pipe;
      }
    }

    /** `Iterate(steps, checkPointPeriod)`, the fixed-step driver: the
        announcement, `steps` passes of the loop for the stream-collision
        scheme and none for any other, then the teardown. */
    method Iterate(steps: nat, checkPointPeriod: nat)
      requires Valid() && (cfg.scheme.StreamCollision? && steps > 0 ==> checkPointPeriod > 0)
      modifies this
      ensures Valid()
      ensures trace == old(trace) + FixedRunEvents(cfg, steps, checkPointPeriod)
      ensures Snapshot() == Replay(kernels, old(Snapshot()), FixedRunEvents(cfg, steps, checkPointPeriod))
    {
      ghost var s0, t0 := Snapshot(), trace;
      Call(Printf(Starting));
      ghost var t1 := trace;
      ghost var loop: seq<Event> := [];
      match cfg.scheme {
        case StreamCollision =>
          var iter := 0;
          while iter < steps
            invariant 0 <= iter <= steps && Valid()
            invariant loop == FixedLoop(cfg, iter, checkPointPeriod)
            invariant trace == t1 + loop
            invariant Snapshot() == Replay(kernels, s0, loop)
          {
            ghost var mid := Snapshot();
            FixedStep(iter, checkPointPeriod);
            ReplayChain(kernels, s0, t1, loop, FixedIteration(cfg, iter, checkPointPeriod), mid, Snapshot(), trace);
            loop := loop + FixedIteration(cfg, iter, checkPointPeriod);
            iter := iter + 1;
          }
        case OtherScheme(_) =>
      }
      Call(Printf(Finished));
      Call(DestroyModel);
      Call(DestroyFlowfield);
      RunTrace(t0, loop);
      RunReplay(kernels, s0, loop);
    }

    /** One pass of the threshold loop that reaches checkpoint `c`: the
        checkpoint, then `GetMaximumResidual`, which is that checkpoint's
        residual as `CheckResidual` numbers it. */
    method CheckAndMeasure(iter: nat, checkPointPeriod: nat, ghost s0: State, ghost t0: seq<Event>, ghost c: nat)
      returns (residualError: real)
      requires Valid() && iter == CheckIter(checkPointPeriod, c)
      requires trace == t0 + Checkpoints(cfg, checkPointPeriod, c)
      requires Snapshot() == CheckState(kernels, s0, cfg, checkPointPeriod, c)
      modifies this
      ensures Valid()
      ensures trace == t0 + Checkpoints(cfg, checkPointPeriod, c + 1)
      ensures Snapshot() == CheckState(kernels, s0, cfg, checkPointPeriod, c + 1)
      ensures residualError == CheckResidual(kernels, s0, cfg, maxResidual, checkPointPeriod, c)
    {
      ghost var mid := Snapshot();
      var checkPeriod := CheckPeriod(cfg, checkPointPeriod);
      Checkpoint(iter, checkPeriod);
      residualError := maxResidual(residual, checkPeriod);
      CheckpointsSnoc(cfg, checkPointPeriod, c);
      Assoc(t0, Checkpoints(cfg, checkPointPeriod, c), CheckpointEvents(cfg, iter, checkPeriod));
    }

    /** One pass of the threshold loop's body: when `iter` is a multiple
        of `checkPointPeriod` (the next checkpoint due), the checkpoint and
        its maximum residual; otherwise nothing. */
    method CheckIfDue(iter: nat, checkPointPeriod: nat, residualError: real,
                      ghost s0: State, ghost t0: seq<Event>, ghost c: nat) returns (r: real, ghost c': nat)
      requires Valid() && checkPointPeriod > 0
      requires trace == t0 + Checkpoints(cfg, checkPointPeriod, c)
      requires Snapshot() == CheckState(kernels, s0, cfg, checkPointPeriod, c)
      requires c == 0 ==> iter == 0
      requires c > 0 ==> CheckIter(checkPointPeriod, c) - checkPointPeriod < iter <= CheckIter(checkPointPeriod, c)
      modifies this
      ensures Valid()
      ensures trace == t0 + Checkpoints(cfg, checkPointPeriod, c')
      ensures Snapshot() == CheckState(kernels, s0, cfg, checkPointPeriod, c')
      ensures c' > 0 && CheckIter(checkPointPeriod, c') - checkPointPeriod < iter + 1 <= CheckIter(checkPointPeriod, c')
      ensures iter % checkPointPeriod == 0 ==>
                c' == c + 1 && r == CheckResidual(kernels, s0, cfg, maxResidual, checkPointPeriod, c)
      ensures iter % checkPointPeriod != 0 ==> c' == c && r == residualError
    {
      NextBracket(checkPointPeriod, c, iter, if iter % checkPointPeriod == 0 then c + 1 else c);
      if iter % checkPointPeriod == 0 {
        r := CheckAndMeasure(iter, checkPointPeriod, s0, t0, c);
        c' := c + 1;
      } else {
        r, c' := residualError, c;
      }
    }

    /** The post-test loop of the threshold driver: from iteration 0 on,
        a checkpoint at every multiple of `checkPointPeriod`, each followed
        by the maximum residual, until one is below the criterion; no
        pipeline pass is made. `checks` is the number of checkpoints, and
        the requirement that some checkpoint falls below the criterion is
        what makes the loop end. */
    method CheckUntilConverged(convergenceCriteria: real, checkPointPeriod: nat) returns (ghost checks: nat)
      requires Valid() && checkPointPeriod > 0
      requires exists k: nat :: CheckResidual(kernels, Snapshot(), cfg, maxResidual, checkPointPeriod, k) < convergenceCriteria
      modifies this
      ensures Valid()
      ensures trace == old(trace) + Checkpoints(cfg, checkPointPeriod, checks)
      ensures Snapshot() == CheckState(kernels, old(Snapshot()), cfg, checkPointPeriod, checks)
      ensures StopsAfter(kernels, old(Snapshot()), cfg, maxResidual, checkPointPeriod, convergenceCriteria, checks)
    {
      ghost var s0, t1 := Snapshot(), trace;
      ghost var below: nat :| CheckResidual(kernels, s0, cfg, maxResidual, checkPointPeriod, below) < convergenceCriteria;
      ghost var k := FirstBelow(kernels, s0, cfg, maxResidual, checkPointPeriod, convergenceCriteria, below + 1);
      checks := 0;
      var iter := 0;
      var residualError := 1.0;
      ghost var last := CheckIter(checkPointPeriod, k);
      while true
        invariant Valid()
        invariant trace == t1 + Checkpoints(cfg, checkPointPeriod, checks)
        invariant Snapshot() == CheckState(kernels, s0, cfg, checkPointPeriod, checks)
        invariant checks == 0 ==> iter == 0
        invariant checks > 0 ==> CheckIter(checkPointPeriod, checks) - checkPointPeriod < iter <= CheckIter(checkPointPeriod, checks)
        invariant checks > 0 ==> residualError >= convergenceCriteria
        invariant checks <= k
        decreases last + 1 - iter
      {
        ghost var c, r0 := checks, residualError;
        residualError, checks := CheckIfDue(iter, checkPointPeriod, residualError, s0, t1, checks);
        ThresholdAdvance(kernels, s0, cfg, maxResidual, checkPointPeriod, convergenceCriteria, k, c, r0, residualError, checks);
        iter := iter + 1;
        if residualError < convergenceCriteria {
          break;
        }
        CheckIterMono(checkPointPeriod, checks, k);
        assert iter <= last;
      }
    }

    /** `Iterate(convergenceCriteria, checkPointPeriod)`, the threshold
        driver: the announcement, the checkpoint loop for the
        stream-collision scheme and nothing for any other, then the
        teardown. */
    method IterateToConvergence(convergenceCriteria: real, checkPointPeriod: nat) returns (ghost checks: nat)
      requires Valid()
      requires cfg.scheme.StreamCollision? ==>
                 checkPointPeriod > 0 &&
                 exists k: nat :: CheckResidual(kernels, Snapshot(), cfg, maxResidual, checkPointPeriod, k) < convergenceCriteria
      modifies this
      ensures Valid()
      ensures trace == old(trace) + ThresholdRunEvents(cfg, checkPointPeriod, checks)
      ensures Snapshot() == Replay(kernels, old(Snapshot()), ThresholdRunEvents(cfg, checkPointPeriod, checks))
      ensures cfg.scheme.StreamCollision? ==>
                StopsAfter(kernels, old(Snapshot()), cfg, maxResidual, checkPointPeriod, convergenceCriteria, checks)
      ensures !cfg.scheme.StreamCollision? ==> checks == 0
    {
      ghost var s0, t0 := Snapshot(), trace;
      Call(Printf(Starting));
      ghost var loop: seq<Event> := [];
      checks := 0;
      match cfg.scheme {
        case StreamCollision =>
          checks := CheckUntilConverged(convergenceCriteria, checkPointPeriod);
          loop := Checkpoints(cfg, checkPointPeriod, checks);
          CheckStateReplay(kernels, s0, cfg, checkPointPeriod, checks);
        case OtherScheme(_) =>
      }
      Call(Printf(Finished));
      Call(DestroyModel);
      Call(DestroyFlowfield);
      RunTrace(t0, loop);
      RunReplay(kernels, s0, loop);
    }
  }
}