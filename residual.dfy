/** The convergence monitor: `CalcResidualError3D` as its trace of reduction
    launches, reduction results and snapshot copies, what that trace does to
    the residual slots and to `g_MacroVarsCopy`, and the ratio
    `DispResidualError3D` shows. */
module Residual {
  import opened Grid
  import opened Model
  import opened Ops

  /** The reductions of variable `idx` over blocks 0 .. n-1. */
  function ReduceBlocks(cfg: Config, sum: Reduction, idx: nat, n: nat): seq<Event> {
    if n == 0 then []
    else ReduceBlocks(cfg, sum, idx, n - 1) + [ParLoop(Reduce(sum, n - 1, cfg.WholeRange(n - 1), idx))]
  }

  /** One reduction pass: variables 0 .. m-1 outermost, blocks innermost. */
  function ReducePass(cfg: Config, sum: Reduction, m: nat): seq<Event> {
    if m == 0 then [] else ReducePass(cfg, sum, m - 1) + ReduceBlocks(cfg, sum, m - 1, cfg.blockNum)
  }

  /** `ops_reduction_result` of handles 0 .. m-1 into slots 2*i + parity. */
  function Results(m: nat, parity: nat): seq<Event> {
    if m == 0 then [] else Results(m - 1, parity) + [ReductionResult(m - 1, 2 * (m - 1) + parity)]
  }

  /** `KerCopyMacroVars` over the Whole range of blocks 0 .. n-1. */
  function SnapshotEvents(cfg: Config, n: nat): seq<Event> {
    if n == 0 then [] else SnapshotEvents(cfg, n - 1) + [ParLoop(CopyMacroVars(n - 1, cfg.WholeRange(n - 1)))]
  }

  /** The trace of `CalcResidualError3D`: squared differences, their results
      into the even slots, the snapshot copy, squares, their results into the
      odd slots. */
  function ResidualEvents(cfg: Config): seq<Event> {
    ReducePass(cfg, SquareOfDifference, cfg.macroVarsNum) + Results(cfg.macroVarsNum, 0) +
    SnapshotEvents(cfg, cfg.blockNum) +
    ReducePass(cfg, Square, cfg.macroVarsNum) + Results(cfg.macroVarsNum, 1)
  }

  /** An event of the convergence monitor: a reduction launch, a
      `KerCopyMacroVars` launch or a reduction result. */
  predicate MonitorCall(e: Event) {
    e.ReductionResult? || (e.ParLoop? && (e.call.Reduce? || e.call.CopyMacroVars?))
  }

  lemma {:induction false} ReduceBlocksCalls(cfg: Config, sum: Reduction, idx: nat, n: nat)
    ensures forall e :: e in ReduceBlocks(cfg, sum, idx, n) ==> MonitorCall(e)
  {
    if n > 0 {
      ReduceBlocksCalls(cfg, sum, idx, n - 1);
    }
  }

  lemma {:induction false} ReducePassCalls(cfg: Config, sum: Reduction, m: nat)
    ensures forall e :: e in ReducePass(cfg, sum, m) ==> MonitorCall(e)
  {
    if m > 0 {
      ReducePassCalls(cfg, sum, m - 1);
      ReduceBlocksCalls(cfg, sum, m - 1, cfg.blockNum);
    }
  }

  lemma {:induction false} ResultsCalls(m: nat, parity: nat)
    ensures forall e :: e in Results(m, parity) ==> MonitorCall(e)
  {
    if m > 0 {
      ResultsCalls(m - 1, parity);
    }
  }

  lemma {:induction false} SnapshotCalls(cfg: Config, n: nat)
    ensures forall e :: e in SnapshotEvents(cfg, n) ==> MonitorCall(e)
  {
    if n > 0 {
      SnapshotCalls(cfg, n - 1);
    }
  }

  /** `CalcResidualError3D` only launches the reductions and the snapshot
      copy and collects reduction results: it prints nothing, calls no
      collaborator and launches no physics kernel. */
  lemma ResidualCallsOnly(cfg: Config)
    ensures forall e :: e in ResidualEvents(cfg) ==> MonitorCall(e)
  {
    ReducePassCalls(cfg, SquareOfDifference, cfg.macroVarsNum);
    ResultsCalls(cfg.macroVarsNum, 0);
    SnapshotCalls(cfg, cfg.blockNum);
    ReducePassCalls(cfg, Square, cfg.macroVarsNum);
    ResultsCalls(cfg.macroVarsNum, 1);
  }

  /** The sum, over blocks 0 .. n-1 and the points of their Whole ranges, of
      a reduction kernel's contributions for variable `idx`. */
  function Total(cfg: Config, blocks: seq<BlockFields>, sum: Reduction, idx: nat, n: nat): real
    requires n <= |blocks|
  {
    if n == 0 then 0.0
    else Total(cfg, blocks, sum, idx, n - 1) + BlockSum(sum, blocks[n - 1], cfg.WholeRange(n - 1), idx)
  }

  /** Sum over blocks and points of (MacroVars[idx] - MacroVarsCopy[idx])^2. */
  function Numerator(cfg: Config, blocks: seq<BlockFields>, idx: nat): real
    requires cfg.blockNum <= |blocks|
  {
    Total(cfg, blocks, SquareOfDifference, idx, cfg.blockNum)
  }

  /** Sum over blocks and points of MacroVars[idx]^2. */
  function Denominator(cfg: Config, blocks: seq<BlockFields>, idx: nat): real
    requires cfg.blockNum <= |blocks|
  {
    Total(cfg, blocks, Square, idx, cfg.blockNum)
  }

  /** The state `CalcResidualError3D` starts from: one block bundle per
      block, one idle handle per macroscopic variable, two slots per
      variable. */
  predicate Ready(cfg: Config, s: State) {
    |s.blocks| == cfg.blockNum && |s.handles| == cfg.macroVarsNum &&
    2 * cfg.macroVarsNum <= |s.residual| &&
    forall h :: 0 <= h < |s.handles| ==> s.handles[h] == 0.0
  }

  lemma {:induction false} ReduceBlocksEffect(kb: KernelBodies, s: State, cfg: Config, sum: Reduction, idx: nat, n: nat)
    requires n <= |s.blocks| && idx < |s.handles|
    ensures Replay(kb, s, ReduceBlocks(cfg, sum, idx, n)) ==
            s.(handles := s.handles[idx := s.handles[idx] + Total(cfg, s.blocks, sum, idx, n)])
  {
    if n > 0 {
      var e := ParLoop(Reduce(sum, n - 1, cfg.WholeRange(n - 1), idx));
      ReduceBlocksEffect(kb, s, cfg, sum, idx, n - 1);
      ReplaySnoc(kb, s, ReduceBlocks(cfg, sum, idx, n - 1), e);
      ReduceStep(kb, s.(handles := s.handles[idx := s.handles[idx] + Total(cfg, s.blocks, sum, idx, n - 1)]), sum, n - 1, cfg.WholeRange(n - 1), idx);
    }
  }

  lemma ReduceStep(kb: KernelBodies, s: State, sum: Reduction, b: nat, r: Box, idx: nat)
    requires b < |s.blocks| && idx < |s.handles|
    ensures Step(kb, s, ParLoop(Reduce(sum, b, r, idx))) ==
            s.(handles := s.handles[idx := s.handles[idx] + BlockSum(sum, s.blocks[b], r, idx)])
  {
  }

  /** A reduction pass is its variables' block loops in variable order. */
  lemma {:induction false} ReducePassPieces(cfg: Config, sum: Reduction, m: nat)
    ensures ReducePass(cfg, sum, m) == Concat((h: nat) => ReduceBlocks(cfg, sum, h, cfg.blockNum), m)
  {
    if m > 0 {
      ReducePassPieces(cfg, sum, m - 1);
    }
  }

  lemma ReducePassEffect(kb: KernelBodies, s: State, cfg: Config, sum: Reduction, m: nat)
    requires cfg.blockNum <= |s.blocks| && m <= |s.handles|
    ensures var s' := Replay(kb, s, ReducePass(cfg, sum, m));
            s'.blocks == s.blocks && s'.residual == s.residual && |s'.handles| == |s.handles| &&
            forall h :: 0 <= h < |s.handles| ==>
              s'.handles[h] == if h < m then s.handles[h] + Total(cfg, s.blocks, sum, h, cfg.blockNum) else s.handles[h]
  {
    var p := (h: nat) => ReduceBlocks(cfg, sum, h, cfg.blockNum);
    var add := (h: nat) => Total(cfg, s.blocks, sum, h, cfg.blockNum);
    ReduceBlocksFromAny(kb, s.blocks, cfg, sum);
    ReplayConcatAccumulates(kb, s, p, add, m);
    ReducePassPieces(cfg, sum, m);
  }

  lemma ReduceBlocksFromAny(kb: KernelBodies, blocks: seq<BlockFields>, cfg: Config, sum: Reduction)
    requires cfg.blockNum <= |blocks|
    ensures forall m: State, h: nat {:trigger Replay(kb, m, ReduceBlocks(cfg, sum, h, cfg.blockNum))} ::
              m.blocks == blocks && h < |m.handles| ==>
              Replay(kb, m, ReduceBlocks(cfg, sum, h, cfg.blockNum)) ==
              m.(handles := m.handles[h := m.handles[h] + Total(cfg, blocks, sum, h, cfg.blockNum)])
  {
    forall m: State, h: nat {:trigger Replay(kb, m, ReduceBlocks(cfg, sum, h, cfg.blockNum))} | m.blocks == blocks && h < |m.handles| {
      ReduceBlocksEffect(kb, m, cfg, sum, h, cfg.blockNum);
    }
  }

  /** The last result of `Results(m, parity)`: handle `m - 1` into its slot. */
  lemma ResultsSnoc(kb: KernelBodies, s: State, m: nat, parity: nat)
    requires 0 < m <= |s.handles| && parity < 2 && 2 * m <= |s.residual|
    ensures var mid := Replay(kb, s, Results(m - 1, parity));
            |mid.blocks| == |s.blocks| && |mid.handles| == |s.handles| && |mid.residual| == |s.residual| &&
            Replay(kb, s, Results(m, parity)) ==
            mid.(handles := mid.handles[m - 1 := 0.0], residual := mid.residual[2 * (m - 1) + parity := mid.handles[m - 1]])
  {
    var prev := Results(m - 1, parity);
    ReplayShape(kb, s, prev);
    ReplaySnoc(kb, s, prev, ReductionResult(m - 1, 2 * (m - 1) + parity));
    ResultStep(kb, Replay(kb, s, prev), m - 1, 2 * (m - 1) + parity);
  }

  lemma {:induction false} ResultsHandles(kb: KernelBodies, s: State, m: nat, parity: nat)
    requires m <= |s.handles| && parity < 2 && 2 * m <= |s.residual|
    ensures var s' := Replay(kb, s, Results(m, parity));
            s'.blocks == s.blocks && |s'.handles| == |s.handles| && |s'.residual| == |s.residual| &&
            (forall h :: 0 <= h < |s.handles| ==> s'.handles[h] == if h < m then 0.0 else s.handles[h])
  {
    if m > 0 {
      ResultsHandles(kb, s, m - 1, parity);
      ResultsSnoc(kb, s, m, parity);
    }
  }

  lemma {:induction false} ResultsOwnSlots(kb: KernelBodies, s: State, m: nat, parity: nat)
    requires m <= |s.handles| && parity < 2 && 2 * m <= |s.residual|
    ensures var s' := Replay(kb, s, Results(m, parity));
            |s'.residual| == |s.residual| &&
            (forall i :: 0 <= i < m ==> s'.residual[2 * i + parity] == s.handles[i]) &&
            (forall i :: m <= i && 2 * i + parity < |s.residual| ==> s'.residual[2 * i + parity] == s.residual[2 * i + parity])
  {
    ReplayShape(kb, s, Results(m, parity));
    if m > 0 {
      var prev := Results(m - 1, parity);
      var mid := Replay(kb, s, prev);
      var slot := 2 * (m - 1) + parity;
      ResultsOwnSlots(kb, s, m - 1, parity);
      ResultsHandles(kb, s, m - 1, parity);
      ReplaySnoc(kb, s, prev, ReductionResult(m - 1, slot));
      ResultStep(kb, mid, m - 1, slot);
      OwnSlotsStep(s.residual, s.handles, mid.residual, m, parity, mid.handles[m - 1]);
    }
  }

  /** Writing handle `m - 1` into slot `2 * (m - 1) + parity` extends the
      slots of that parity filled from the handles by one. */
  lemma OwnSlotsStep(before: seq<real>, hs: seq<real>, rs: seq<real>, m: nat, parity: nat, v: real)
    requires 0 < m <= |hs| && parity < 2 && |rs| == |before| && 2 * m <= |rs| && v == hs[m - 1]
    requires forall i :: 0 <= i < m - 1 ==> rs[2 * i + parity] == hs[i]
    requires forall i :: m - 1 <= i && 2 * i + parity < |before| ==> rs[2 * i + parity] == before[2 * i + parity]
    ensures forall i :: 0 <= i < m ==> rs[2 * (m - 1) + parity := v][2 * i + parity] == hs[i]
    ensures forall i :: m <= i && 2 * i + parity < |before| ==> rs[2 * (m - 1) + parity := v][2 * i + parity] == before[2 * i + parity]
  {
  }

  lemma {:induction false} ResultsOtherSlots(kb: KernelBodies, s: State, m: nat, parity: nat)
    requires m <= |s.handles| && parity < 2 && 2 * m <= |s.residual|
    ensures var s' := Replay(kb, s, Results(m, parity));
            |s'.residual| == |s.residual| &&
            (forall i :: 0 <= i && 2 * i + 1 - parity < |s.residual| ==> s'.residual[2 * i + 1 - parity] == s.residual[2 * i + 1 - parity])
  {
    ReplayShape(kb, s, Results(m, parity));
    if m > 0 {
      var mid := Replay(kb, s, Results(m - 1, parity));
      ResultsOtherSlots(kb, s, m - 1, parity);
      ResultsSnoc(kb, s, m, parity);
      OtherParityKept(s.residual, mid.residual, m - 1, parity, mid.handles[m - 1]);
    }
  }

  /** Writing slot `2 * j + parity` keeps the slots of the other parity. */
  lemma OtherParityKept(before: seq<real>, rs: seq<real>, j: nat, parity: nat, v: real)
    requires parity < 2 && |rs| == |before| && 2 * j + parity < |rs|
    requires forall i :: 0 <= i && 2 * i + 1 - parity < |before| ==> rs[2 * i + 1 - parity] == before[2 * i + 1 - parity]
    ensures forall i :: 0 <= i && 2 * i + 1 - parity < |before| ==> rs[2 * j + parity := v][2 * i + 1 - parity] == before[2 * i + 1 - parity]
  {
    forall i | 0 <= i && 2 * i + 1 - parity < |before|
      ensures rs[2 * j + parity := v][2 * i + 1 - parity] == before[2 * i + 1 - parity]
    {
      ParityDiffers(i, j, parity);
    }
  }

  lemma ParityDiffers(i: int, j: int, parity: nat)
    requires parity < 2
    ensures 2 * i + 1 - parity != 2 * j + parity
  {
  }

  /** Collecting the results of handles 0 .. m-1 into the slots of parity
      `parity`: slot 2i+parity receives handle i, which starts afresh at 0;
      every other slot, every other handle and the blocks are unchanged. */
  lemma ResultsEffect(kb: KernelBodies, s: State, m: nat, parity: nat)
    requires m <= |s.handles| && parity < 2 && 2 * m <= |s.residual|
    ensures var s' := Replay(kb, s, Results(m, parity));
            s'.blocks == s.blocks && |s'.handles| == |s.handles| && |s'.residual| == |s.residual| &&
            (forall h :: 0 <= h < |s.handles| ==> s'.handles[h] == if h < m then 0.0 else s.handles[h]) &&
            (forall i :: 0 <= i < m ==> s'.residual[2 * i + parity] == s.handles[i]) &&
            (forall i :: m <= i && 2 * i + parity < |s.residual| ==> s'.residual[2 * i + parity] == s.residual[2 * i + parity]) &&
            (forall i :: 0 <= i && 2 * i + 1 - parity < |s.residual| ==> s'.residual[2 * i + 1 - parity] == s.residual[2 * i + 1 - parity])
  {
    ResultsHandles(kb, s, m, parity);
    ResultsOwnSlots(kb, s, m, parity);
    ResultsOtherSlots(kb, s, m, parity);
  }

  lemma ResultStep(kb: KernelBodies, s: State, h: nat, slot: nat)
    requires h < |s.handles| && slot < |s.residual|
    ensures Step(kb, s, ReductionResult(h, slot)) == s.(handles := s.handles[h := 0.0], residual := s.residual[slot := s.handles[h]])
  {
  }

  lemma {:induction false} SnapshotEffect(kb: KernelBodies, s: State, cfg: Config, n: nat)
    requires n <= |s.blocks|
    ensures var s' := Replay(kb, s, SnapshotEvents(cfg, n));
            |s'.blocks| == |s.blocks| && s'.handles == s.handles && s'.residual == s.residual &&
            (forall b :: n <= b < |s.blocks| ==> s'.blocks[b] == s.blocks[b]) &&
            (forall b :: 0 <= b < n ==>
               s'.blocks[b] == s.blocks[b].(macroVarsCopy := CopyOn(s.blocks[b].macroVarsCopy, s.blocks[b].macroVars, cfg.WholeRange(b))))
  {
    if n > 0 {
      SnapshotEffect(kb, s, cfg, n - 1);
      ReplaySnoc(kb, s, SnapshotEvents(cfg, n - 1), ParLoop(CopyMacroVars(n - 1, cfg.WholeRange(n - 1))));
    }
  }

  /** A reduction of squares reads only `g_MacroVars`. */
  lemma {:induction false} SquareTotalReadsMacroVars(cfg: Config, xs: seq<BlockFields>, ys: seq<BlockFields>, idx: nat, n: nat)
    requires n <= |xs| && n <= |ys|
    requires forall b :: 0 <= b < n ==> xs[b].macroVars == ys[b].macroVars
    ensures Total(cfg, xs, Square, idx, n) == Total(cfg, ys, Square, idx, n)
  {
    if n > 0 {
      SquareTotalReadsMacroVars(cfg, xs, ys, idx, n - 1);
      SumOverCongruent(Points(cfg.WholeRange(n - 1)), Integrand(Square, xs[n - 1], idx), Integrand(Square, ys[n - 1], idx));
    }
  }

  /** One measurement: a reduction pass, then its results into the slots of
      parity `parity`; the handles are idle again and nothing else changes. */
  lemma MeasurePhase(kb: KernelBodies, s: State, cfg: Config, sum: Reduction, parity: nat)
    requires Ready(cfg, s) && parity < 2
    ensures var s' := Replay(kb, s, ReducePass(cfg, sum, cfg.macroVarsNum) + Results(cfg.macroVarsNum, parity));
            Ready(cfg, s') && s'.blocks == s.blocks && |s'.residual| == |s.residual| &&
            (forall i :: 0 <= i < cfg.macroVarsNum ==> s'.residual[2 * i + parity] == Total(cfg, s.blocks, sum, i, cfg.blockNum)) &&
            (forall i :: cfg.macroVarsNum <= i && 2 * i + parity < |s.residual| ==> s'.residual[2 * i + parity] == s.residual[2 * i + parity]) &&
            (forall i :: 0 <= i && 2 * i + 1 - parity < |s.residual| ==> s'.residual[2 * i + 1 - parity] == s.residual[2 * i + 1 - parity])
  {
    var m := cfg.macroVarsNum;
    var e1 := ReducePass(cfg, sum, m);
    ReplayAppend(kb, s, e1, Results(m, parity));
    ReducePassEffect(kb, s, cfg, sum, m);
    ResultsEffect(kb, Replay(kb, s, e1), m, parity);
  }

  lemma MeasureEven(kb: KernelBodies, s: State, cfg: Config)
    requires Ready(cfg, s)
    ensures var s' := Replay(kb, s, ReducePass(cfg, SquareOfDifference, cfg.macroVarsNum) + Results(cfg.macroVarsNum, 0));
            Ready(cfg, s') && s'.blocks == s.blocks && |s'.residual| == |s.residual| &&
            (forall i :: 0 <= i < cfg.macroVarsNum ==> s'.residual[2 * i] == Numerator(cfg, s.blocks, i)) &&
            (forall i :: cfg.macroVarsNum <= i && 2 * i < |s.residual| ==> s'.residual[2 * i] == s.residual[2 * i]) &&
            (forall i :: 0 <= i && 2 * i + 1 < |s.residual| ==> s'.residual[2 * i + 1] == s.residual[2 * i + 1])
  {
    MeasurePhase(kb, s, cfg, SquareOfDifference, 0);
    var s' := Replay(kb, s, ReducePass(cfg, SquareOfDifference, cfg.macroVarsNum) + Results(cfg.macroVarsNum, 0));
    forall i | 0 <= i < cfg.macroVarsNum ensures s'.residual[2 * i] == Numerator(cfg, s.blocks, i) {
      assert 2 * i == 2 * i + 0;
    }
    forall i | cfg.macroVarsNum <= i && 2 * i < |s.residual| ensures s'.residual[2 * i] == s.residual[2 * i] {
      assert 2 * i == 2 * i + 0;
    }
    forall i | 0 <= i && 2 * i + 1 < |s.residual| ensures s'.residual[2 * i + 1] == s.residual[2 * i + 1] {
      assert 2 * i + 1 == 2 * i + 1 - 0;
    }
  }

  lemma MeasureOdd(kb: KernelBodies, s: State, cfg: Config)
    requires Ready(cfg, s)
    ensures var s' := Replay(kb, s, ReducePass(cfg, Square, cfg.macroVarsNum) + Results(cfg.macroVarsNum, 1));
            Ready(cfg, s') && s'.blocks == s.blocks && |s'.residual| == |s.residual| &&
            (forall i :: 0 <= i < cfg.macroVarsNum ==> s'.residual[2 * i + 1] == Total(cfg, s.blocks, Square, i, cfg.blockNum)) &&
            (forall i :: cfg.macroVarsNum <= i && 2 * i + 1 < |s.residual| ==> s'.residual[2 * i + 1] == s.residual[2 * i + 1]) &&
            (forall i :: 0 <= i && 2 * i < |s.residual| ==> s'.residual[2 * i] == s.residual[2 * i])
  {
    MeasurePhase(kb, s, cfg, Square, 1);
    var s' := Replay(kb, s, ReducePass(cfg, Square, cfg.macroVarsNum) + Results(cfg.macroVarsNum, 1));
    forall i | 0 <= i && 2 * i < |s.residual| ensures s'.residual[2 * i] == s.residual[2 * i] {
      assert 2 * i == 2 * i + 1 - 1;
    }
  }

  /** The three phases of `CalcResidualError3D` and the states between them. */
  lemma ResidualPhases(kb: KernelBodies, s: State, cfg: Config)
    requires Ready(cfg, s)
    ensures var s2 := Replay(kb, s, ReducePass(cfg, SquareOfDifference, cfg.macroVarsNum) + Results(cfg.macroVarsNum, 0));
            var s3 := Replay(kb, s2, SnapshotEvents(cfg, cfg.blockNum));
            Replay(kb, s, ResidualEvents(cfg)) == Replay(kb, s3, ReducePass(cfg, Square, cfg.macroVarsNum) + Results(cfg.macroVarsNum, 1))
  {
    var m := cfg.macroVarsNum;
    var first := ReducePass(cfg, SquareOfDifference, m) + Results(m, 0);
    var snap := SnapshotEvents(cfg, cfg.blockNum);
    var second := ReducePass(cfg, Square, m) + Results(m, 1);
    assert ResidualEvents(cfg) == first + snap + second;
    ReplayAppend(kb, s, first, snap);
    ReplayAppend(kb, s, first + snap, second);
  }

  /** How the slots come out of the two measurements, whatever the snapshot
      between them did to the blocks, as long as it kept MacroVars. */
  lemma SlotsCombine(cfg: Config, s: State, s2: State, s3: State, s5: State)
    requires Ready(cfg, s) && |s2.residual| == |s.residual| && s2.blocks == s.blocks
    requires forall i :: 0 <= i < cfg.macroVarsNum ==> s2.residual[2 * i] == Numerator(cfg, s.blocks, i)
    requires forall i :: 0 <= i && 2 * i + 1 < |s.residual| ==> s2.residual[2 * i + 1] == s.residual[2 * i + 1]
    requires forall i :: cfg.macroVarsNum <= i && 2 * i < |s.residual| ==> s2.residual[2 * i] == s.residual[2 * i]
    requires s3.residual == s2.residual && |s3.blocks| == |s.blocks|
    requires forall b :: 0 <= b < |s.blocks| ==> s3.blocks[b].macroVars == s.blocks[b].macroVars
    requires |s5.residual| == |s.residual|
    requires forall i :: 0 <= i < cfg.macroVarsNum ==> s5.residual[2 * i + 1] == Total(cfg, s3.blocks, Square, i, cfg.blockNum)
    requires forall i :: 0 <= i && 2 * i < |s.residual| ==> s5.residual[2 * i] == s3.residual[2 * i]
    requires forall i :: cfg.macroVarsNum <= i && 2 * i + 1 < |s.residual| ==> s5.residual[2 * i + 1] == s3.residual[2 * i + 1]
    ensures forall i :: 0 <= i < cfg.macroVarsNum ==>
              s5.residual[2 * i] == Numerator(cfg, s.blocks, i) &&
              s5.residual[2 * i + 1] == Denominator(cfg, s.blocks, i)
    ensures forall j :: 2 * cfg.macroVarsNum <= j < |s.residual| ==> s5.residual[j] == s.residual[j]
  {
    forall i | 0 <= i < cfg.macroVarsNum
      ensures s5.residual[2 * i + 1] == Denominator(cfg, s.blocks, i)
    {
      SquareTotalReadsMacroVars(cfg, s3.blocks, s.blocks, i, cfg.blockNum);
    }
    forall j | 2 * cfg.macroVarsNum <= j < |s.residual|
      ensures s5.residual[j] == s.residual[j]
    {
      var i := j / 2;
      if j % 2 == 0 {
        assert j == 2 * i;
      } else {
        assert j == 2 * i + 1;
      }
    }
  }

  /** Slot layout of `CalcResidualError3D`: slot 2*i holds the sum of squared
      differences between MacroVars and the copy taken at the previous check,
      slot 2*i+1 the sum of squares of MacroVars, the slots past the variables
      are as they were and the handles are idle again. */
  lemma ResidualSlots(kb: KernelBodies, s: State, cfg: Config)
    requires Ready(cfg, s)
    ensures var s' := Replay(kb, s, ResidualEvents(cfg));
            Ready(cfg, s') && |s'.residual| == |s.residual| &&
            (forall i :: 0 <= i < cfg.macroVarsNum ==>
               s'.residual[2 * i] == Numerator(cfg, s.blocks, i) &&
               s'.residual[2 * i + 1] == Denominator(cfg, s.blocks, i)) &&
            (forall j :: 2 * cfg.macroVarsNum <= j < |s.residual| ==> s'.residual[j] == s.residual[j])
  {
    var m := cfg.macroVarsNum;
    var n := cfg.blockNum;
    var s2 := Replay(kb, s, ReducePass(cfg, SquareOfDifference, m) + Results(m, 0));
    var s3 := Replay(kb, s2, SnapshotEvents(cfg, n));
    var s5 := Replay(kb, s3, ReducePass(cfg, Square, m) + Results(m, 1));
    ResidualPhases(kb, s, cfg);
    MeasureEven(kb, s, cfg);
    SnapshotEffect(kb, s2, cfg, n);
    MeasureOdd(kb, s3, cfg);
    SlotsCombine(cfg, s, s2, s3, s5);
  }

  /** Copy ordering of `CalcResidualError3D`: after it, MacroVarsCopy equals
      MacroVars on every Whole range and is untouched outside it; the other
      fields are as they were. */
  lemma ResidualSnapshot(kb: KernelBodies, s: State, cfg: Config)
    requires Ready(cfg, s)
    ensures var s' := Replay(kb, s, ResidualEvents(cfg));
            |s'.blocks| == |s.blocks| &&
            forall b :: 0 <= b < |s.blocks| ==>
              s'.blocks[b].f == s.blocks[b].f && s'.blocks[b].fStage == s.blocks[b].fStage &&
              s'.blocks[b].macroVars == s.blocks[b].macroVars && s'.blocks[b].macroBodyforce == s.blocks[b].macroBodyforce &&
              forall p, c :: s'.blocks[b].macroVarsCopy(p, c) ==
                if cfg.WholeRange(b).Contains(p) then s.blocks[b].macroVars(p, c) else s.blocks[b].macroVarsCopy(p, c)
  {
    var m := cfg.macroVarsNum;
    var s2 := Replay(kb, s, ReducePass(cfg, SquareOfDifference, m) + Results(m, 0));
    var s3 := Replay(kb, s2, SnapshotEvents(cfg, cfg.blockNum));
    ResidualPhases(kb, s, cfg);
    MeasurePhase(kb, s, cfg, SquareOfDifference, 0);
    SnapshotEffect(kb, s2, cfg, cfg.blockNum);
    MeasurePhase(kb, s3, cfg, Square, 1);
  }

  /** Zero residual when unchanged: if MacroVars equals MacroVarsCopy on every
      Whole range, the sum of squared differences of every variable is 0. */
  lemma ZeroWhenUnchanged(cfg: Config, blocks: seq<BlockFields>, idx: nat)
    requires cfg.blockNum <= |blocks|
    requires forall b, p :: 0 <= b < cfg.blockNum && cfg.WholeRange(b).Contains(p) ==>
               blocks[b].macroVars(p, idx) == blocks[b].macroVarsCopy(p, idx)
    ensures Numerator(cfg, blocks, idx) == 0.0
  {
    TotalZero(cfg, blocks, idx, cfg.blockNum);
  }

  lemma {:induction false} TotalZero(cfg: Config, blocks: seq<BlockFields>, idx: nat, n: nat)
    requires n <= |blocks|
    requires forall b, p :: 0 <= b < n && cfg.WholeRange(b).Contains(p) ==>
               blocks[b].macroVars(p, idx) == blocks[b].macroVarsCopy(p, idx)
    ensures Total(cfg, blocks, SquareOfDifference, idx, n) == 0.0
  {
    if n > 0 {
      TotalZero(cfg, blocks, idx, n - 1);
      var r := cfg.WholeRange(n - 1);
      forall p | p in Points(r)
        ensures Integrand(SquareOfDifference, blocks[n - 1], idx)(p) == 0.0
      {
        PointsCover(r, p);
      }
      SumOverZero(Points(r), Integrand(SquareOfDifference, blocks[n - 1], idx));
    }
  }

  /** Two checks with no change in between: the snapshot the first check
      takes is what the second check's differences are against, so the
      second check's even slots are all 0. */
  lemma ConsecutiveChecksComparable(kb: KernelBodies, s: State, cfg: Config)
    requires Ready(cfg, s)
    ensures Ready(cfg, Replay(kb, s, ResidualEvents(cfg)))
    ensures var s'' := Replay(kb, Replay(kb, s, ResidualEvents(cfg)), ResidualEvents(cfg));
            Ready(cfg, s'') && forall i :: 0 <= i < cfg.macroVarsNum ==> s''.residual[2 * i] == 0.0
  {
    var s' := Replay(kb, s, ResidualEvents(cfg));
    ResidualSlots(kb, s, cfg);
    ResidualSnapshot(kb, s, cfg);
    ResidualSlots(kb, s', cfg);
    forall i | 0 <= i < cfg.macroVarsNum
      ensures Numerator(cfg, s'.blocks, i) == 0.0
    {
      ZeroWhenUnchanged(cfg, s'.blocks, i);
    }
  }

  /** The residual `DispResidualError3D` shows for one variable:
      num / den / (checkPeriod * TimeStep()); `None` where the double
      division would divide by zero. */
  function ResidualRatio(num: real, den: real, checkPeriod: real, dt: real): (r: Option<real>)
    ensures r.Some? <==> den != 0.0 && checkPeriod * dt != 0.0
    ensures r.Some? ==> r.value * den * (checkPeriod * dt) == num
  {
    if den != 0.0 && checkPeriod * dt != 0.0 then Some(num / den / (checkPeriod * dt)) else None
  }

  /** The residuals shown for variables 0 .. m-1 from the slots `residual`:
      variable i's is the change in slot 2i over the size in slot 2i+1,
      per unit of `checkPeriod * dt`, shown wherever neither divisor is
      zero. */
  function Displayed(residual: seq<real>, m: nat, checkPeriod: real, dt: real): (shown: seq<Option<real>>)
    requires 2 * m <= |residual|
    ensures |shown| == m
    ensures forall i :: 0 <= i < m ==> (shown[i].Some? <==> residual[2 * i + 1] != 0.0 && checkPeriod * dt != 0.0)
    ensures forall i :: 0 <= i < m && shown[i].Some? ==> shown[i].value * residual[2 * i + 1] * (checkPeriod * dt) == residual[2 * i]
  {
    seq(m, i requires 0 <= i < m => ResidualRatio(residual[2 * i], residual[2 * i + 1], checkPeriod, dt))
  }
}
