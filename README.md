# Evolution core of the MPLB lattice Boltzmann solver, in Dafny

This project models the time-integration core of MPLB, a multi-block,
multi-component lattice Boltzmann solver built on the OPS library
(`Src/evolution3d.cpp`). The core does not compute physics itself. It
launches kernels, and what it controls is how they are arranged:

- which kernel each component's collision, body-force and initial-condition
  variant selects (a diagnostic for variants it does not implement);
- the order of the stream-collision pipeline;
- the copies of the distribution over a block's Whole range or its six face
  layers;
- the residual computation through OPS reductions;
- the two iteration drivers, one with a fixed step count and one that runs
  to a convergence threshold.

The model is a class, `Evolution.Solver`, with one method per routine of
the core. Its fields are the per-block fields `g_f`, `g_fStage`,
`g_MacroVars`, `g_MacroVarsCopy` and `g_MacroBodyforce` (the sequence
`blocks`), the reduction
handles (`handles`), the residual slots `g_ResidualError` (`residual`) and
`trace`, the calls made so far. Every call into OPS or into a collaborator
goes through `Solver.Call`. It appends an `Event` to `trace` and applies the
event's effect (`Ops.Step`).

Each method states two things:

- the exact trace it appends, as a function of the configuration
  (`DispatchEvents`, `CopyEvents`, `ResidualEvents`, `PipelineEvents`,
  `FixedRunEvents`, `ThresholdRunEvents`, ...);
- that its new state is the replay of that trace (`Ops.Replay`).

The lemmas beside those functions prove what the routines promise. These
include the dispatch layout and the fail-soft default, what the envelope
copy writes, the residual slot layout, the pipeline's stage order and the
two drivers' checkpoint schedules.

The effects of the kernels are modelled as follows:

- `KerCopyf` and `KerCopyMacroVars` copy one field into another on the
  points of their range.
- The two residual reductions add, over the points of the range, the square
  of the difference between MacroVars and MacroVarsCopy, or the square of
  MacroVars.
- `ops_reduction_result` moves a handle's value into a slot and resets the
  handle.
- The physics kernels' bodies are supplied (`KernelBodies.kernel`). A
  launch can change only the fields the source hands it with write access,
  and those only at the points of its launch range.
- The collaborators the pipeline calls are supplied effects too.
  `UpdateMacroscopicBodyForce(time)` sets every block's `g_MacroBodyforce`
  to a supplied function of `time` and the blocks; the body-force kernels
  read that field. `ops_halo_transfer` and `ImplementBoundaryConditions`
  set every block's `g_f` to a supplied function of the blocks. None of
  the three touches any other field, the handles or the slots.

Modules, one file each: `Grid` (points, ranges, reductions over them),
`Model` (variants, configuration, fields), `Ops` (events and their
effects), `Dispatch`, `Envelope`, `Residual`, `Pipeline`, `Drivers`,
`Evolution`.

### Behaviour of the code worth noting

- **Fixed-step driver.** It checkpoints at the positive multiples of the
  period *below* `steps`, which makes `(steps - 1) / P` checkpoints. When
  `P` divides `steps`, iteration `steps` is never checkpointed.
  `Drivers.FixedRunSchedule` proves this count.
- **Residual divisor.** Both drivers pass `checkPeriod = P * TimeStep()` to
  `DispResidualError3D`, which divides by `checkPeriod * TimeStep()`. The
  divisor is therefore `P * dt * dt`. `Residual.ResidualRatio` and
  `Drivers.CheckPeriod` model it this way.
- **Threshold driver and the pipeline.** The threshold driver never calls
  `StreamCollision3D`. Its loop only checkpoints and measures.
  `Drivers.ThresholdRunSchedule` proves that no pipeline stage other than
  the macroscopic update, and no body-force update, happens in such a run.
- **Stopping at iteration 0.** The threshold driver evaluates the residual
  of iteration 0 and may stop on it. `residualError` starts at 1 but is
  always overwritten before the first test, because iteration 0 is a
  multiple of every period.

## Model

| member | source | states |
|---|---|---|
| Evolution.Solver.UpdateMacroVars3D | Src/evolution3d.cpp:115-130 | appends `KerCalcMacroVars3D` over the Whole range of every block in block order, handed the time step; the new state is the replay of those launches |
| Evolution.Solver.Stream3D | Src/evolution3d.cpp:100-113 | appends `KerStream3D` over the Whole range of every block in block order; the new state is their replay |
| Evolution.Solver.DispatchTerms | Src/evolution3d.cpp:51-97 | blocks outermost, the component map's entries in map order within a block, each entry's launch or diagnostic (`Dispatch.Launch`); the new state is the replay of exactly that trace |
| Evolution.Solver.PreDefinedCollision3D | Src/evolution3d.cpp:50-98 | the dispatch trace of the collision map over all blocks, and the state it replays to |
| Evolution.Solver.PreDefinedBodyForce3D | Src/evolution3d.cpp:132-175 | the dispatch trace of the body-force map over all blocks, and the state it replays to |
| Evolution.Solver.PreDefinedInitialCondition3D | Src/evolution3d.cpp:252-278 | the dispatch trace of the initial-condition map over all blocks, and the state it replays to |
| Evolution.Solver.TreatBlockBoundary3D | Src/evolution3d.cpp:178-234 | one kernel over the caller's range for a recognised boundary type and nothing for any other (state unchanged); only `g_f` of the given block can change, and only at the points of the range; handles and slots untouched |
| Evolution.Solver.CopyDistribution3D | Src/evolution3d.cpp:280-290 | one `KerCopyf` from src to dest over the Whole range of every block, in block order, and the state it replays to |
| Evolution.Solver.CopyBlockEnvelopDistribution3D | Src/evolution3d.cpp:292-338 | six `KerCopyf` per block over its Imin, Imax, Jmin, Jmax, Kmin, Kmax layers in that order, blocks in index order, and the state it replays to |
| Evolution.Solver.ReduceAll | Src/evolution3d.cpp:364-378 | for every variable (outer) and block (inner) the reduction kernel over the Whole range into that variable's handle, and the state it replays to |
| Evolution.Solver.CollectAll | Src/evolution3d.cpp:379-382 | `ops_reduction_result` of handle i into slot 2i+parity for every variable, in variable order |
| Evolution.Solver.SnapshotAll | Src/evolution3d.cpp:383-391 | `KerCopyMacroVars` over the Whole range of every block, in block order |
| Evolution.Solver.CalcResidualError3D | Src/evolution3d.cpp:363-415 | the five-phase trace; with idle handles on entry, slot 2i holds the sum of squared differences between MacroVars and MacroVarsCopy and slot 2i+1 the sum of squares of MacroVars (both as on entry); the handles end idle; MacroVarsCopy equals MacroVars on every Whole range and is unchanged outside it |
| Evolution.Solver.DispResidualError3D | Src/evolution3d.cpp:417-426 | returns, per variable, slot 2i over slot 2i+1 over (checkPeriod * TimeStep()); one display event; the fields and slots are unchanged |
| Evolution.Solver.StreamCollision3D | Src/evolution3d.cpp:484-516 | macroscopic update, envelope copy into fStage, body-force update at `time`, body-force terms, collision terms, streaming, halo transfer only with a halo group, boundary conditions, in that order, and the state they replay to (which holds the body force for `time`, `Pipeline.PipelineForceField`) |
| Evolution.Solver.Checkpoint | Src/evolution3d.cpp:436-443 | macroscopic update, residual calculation, display for `iter`, then the flow-field, distribution and node-property writers for `iter` |
| Evolution.Solver.FixedStep | Src/evolution3d.cpp:434-443 | the pipeline at `iter * TimeStep()`, then a checkpoint exactly when `iter` is a positive multiple of the period |
| Evolution.Solver.Iterate | Src/evolution3d.cpp:428-452 | the announcement, `steps` loop passes for the stream-collision scheme and none otherwise, then the teardown: the trace is `FixedRunEvents` and the state its replay |
| Evolution.Solver.CheckAndMeasure | Src/evolution3d.cpp:463-470 | checkpoint number c at its iteration; `residualError` becomes the maximum residual of the slots after that checkpoint |
| Evolution.Solver.CheckIfDue | Src/evolution3d.cpp:462-473 | a checkpoint and a new `residualError` exactly when `iter` is a multiple of the period, otherwise nothing and `residualError` kept; the iteration counter stays within the bracket of the next checkpoint |
| Evolution.Solver.CheckUntilConverged | Src/evolution3d.cpp:459-474 | the post-test loop ends after exactly the checkpoints up to and including the first one whose maximum residual is below the criterion (`StopsAfter`) |
| Evolution.Solver.IterateToConvergence | Src/evolution3d.cpp:454-482 | the announcement, the checkpoint loop for the stream-collision scheme (stopping at the first checkpoint below the criterion) and nothing otherwise, then the teardown |
| Dispatch.Launch | Src/evolution3d.cpp:58-95 | a kernel launch exactly for implemented variants, with the selected kernel on the given block's Whole range and the entry's arguments; otherwise the variant's not-implemented diagnostic |
| Dispatch.ArgFor | Src/evolution3d.cpp:54-73 | a collision launch takes tau of its component, the time step and the component id; the others take the component id |
| Dispatch.BlockEventsLayout | Src/evolution3d.cpp:53-96 | entry t of block b's events is the launch for map entry t, so map order is kept |
| Dispatch.DispatchLayout | Src/evolution3d.cpp:51-97 | block b's events come right after the events of blocks 0 .. b-1: blocks form the outer loop in index order |
| Dispatch.DispatchLength | Src/evolution3d.cpp:51-97 | the dispatcher makes n times (number of map entries) calls over n blocks |
| Dispatch.DispatchCounts | Src/evolution3d.cpp:51-97 | n launches per implemented entry and n diagnostics per other entry over n blocks |
| Dispatch.DispatchFailSoft | Src/evolution3d.cpp:91-94 | the state after a dispatch equals the state after dispatching only the implemented entries: the default branch changes nothing |
| Dispatch.NothingImplementedIsNoOp | Src/evolution3d.cpp:168-171 | a map of unimplemented variants leaves the state unchanged |
| Dispatch.DispatchFootprint | Src/evolution3d.cpp:63-153 | a dispatch never changes MacroVarsCopy or `g_MacroBodyforce` (the body-force kernels only read it), and without initial-condition entries never changes `g_f` |
| Dispatch.BoundaryDispatch | Src/evolution3d.cpp:181-232 | exactly one launch on the given block and range for the four recognised types and none for any other; no diagnostic; only `g_f` of that block can change, and only at the points of the range |
| Envelope.EnvelopeCopies | Src/evolution3d.cpp:292-338 | a block's envelope copy is six `KerCopyf` over Imin, Imax, Jmin, Jmax, Kmin, Kmax in that order |
| Envelope.CopyLayout | Src/evolution3d.cpp:292-338 | block b's copies sit at offset b * (ranges per block), in range order: blocks outermost |
| Envelope.CopyLength | Src/evolution3d.cpp:280-338 | a copy over n blocks makes n launches for the Whole copy and 6n for the envelope copy |
| Envelope.CopyEffect | Src/evolution3d.cpp:280-338 | dest takes src at the points the block's ranges cover, on blocks below n; every other field, point and block is unchanged |
| Envelope.EnvelopeCopyEffect | Src/evolution3d.cpp:292-338 | fDest equals fSrc on the union of the six face layers of every block and keeps its value elsewhere; the other fields are unchanged |
| Envelope.WholeCopyEffect | Src/evolution3d.cpp:280-290 | fDest equals fSrc on the Whole range of every block and keeps its value elsewhere; the other fields are unchanged |
| Residual.ResidualCallsOnly | Src/evolution3d.cpp:363-415 | the residual calculation only launches reductions and the MacroVars copy and collects reduction results |
| Residual.ReducePassEffect | Src/evolution3d.cpp:364-378 | a reduction pass adds to handle h the kernel's sum over all blocks' Whole ranges for h < m; blocks and slots are unchanged |
| Residual.ResultsEffect | Src/evolution3d.cpp:379-382 | slot 2i+parity receives handle i and the handle is reset to 0; every slot of the other parity, every later slot and the blocks are unchanged |
| Residual.SnapshotEffect | Src/evolution3d.cpp:383-391 | MacroVarsCopy of each block below n takes MacroVars on its Whole range; everything else is unchanged |
| Residual.SquareTotalReadsMacroVars | Src/evolution3d.cpp:392-403 | the sum of squares depends only on MacroVars, so the snapshot copy before it does not change it |
| Residual.MeasurePhase | Src/evolution3d.cpp:364-382 | one reduction pass plus its results leaves idle handles, unchanged blocks and the pass's totals in the slots of its parity, with the other slots unchanged |
| Residual.ResidualPhases | Src/evolution3d.cpp:363-415 | the residual calculation is the even measurement, then the snapshot, then the odd measurement |
| Residual.ResidualSlots | Src/evolution3d.cpp:363-415 | slot 2i holds the squared-difference sum and slot 2i+1 the square sum of the entry MacroVars; later slots are unchanged and the handles idle |
| Residual.ResidualSnapshot | Src/evolution3d.cpp:383-391 | afterwards MacroVarsCopy equals the entry MacroVars on every Whole range, is unchanged outside it, and f, fStage, MacroVars and the body force are unchanged |
| Residual.ZeroWhenUnchanged | Src/evolution3d.cpp:364-378 | if MacroVars equals MacroVarsCopy on every Whole range, the squared-difference sum is 0 |
| Residual.ConsecutiveChecksComparable | Src/evolution3d.cpp:363-415 | two residual calculations with nothing between them: the second finds every even slot 0, because the first snapshot is what it compares against |
| Residual.ResidualRatio | Src/evolution3d.cpp:420-422 | the shown residual r satisfies r * den * (checkPeriod * dt) == num, and is defined exactly when both divisors are non-zero |
| Residual.Displayed | Src/evolution3d.cpp:419-425 | one shown value per variable; variable i's is shown exactly when slot 2i+1 and checkPeriod * dt are non-zero, and then value * slot[2i+1] * (checkPeriod * dt) == slot[2i] |
| Pipeline.BlockLoop | Src/evolution3d.cpp:116-129 | one launch per block, block b's launch on its own Whole range |
| Pipeline.PipelineStageOrder | Src/evolution3d.cpp:484-516 | every event of `StreamCollision3D` belongs to a stage, and the stages come in order: macroscopic update, envelope copy, force update, body force, collision, streaming, halo exchange, boundary |
| Pipeline.ForceUpdateOnce | Src/evolution3d.cpp:493 | the body-force update happens exactly once per pipeline, for the pipeline's time |
| Pipeline.HaloCount | Src/evolution3d.cpp:507-509 | the halo transfer happens once when there is a halo group and never otherwise |
| Pipeline.LastIsBoundary | Src/evolution3d.cpp:515 | the boundary treatment is the last event of the pipeline |
| Pipeline.PipelineEventsSpareCopy | Src/evolution3d.cpp:484-516 | no event of the pipeline writes `g_MacroVarsCopy` |
| Pipeline.PipelineSparesMonitor | Src/evolution3d.cpp:484-516 | the pipeline leaves the handles, the residual slots and every block's MacroVarsCopy unchanged |
| Pipeline.PipelineForceField | Src/evolution3d.cpp:489-515 | after the pipeline at `time`, every block's `g_MacroBodyforce` is the force supplied for `time` from the blocks as the macroscopic update and the envelope copy leave them; no later stage writes it |
| Ops.ForceUpdateEffect | Src/evolution3d.cpp:493 | the body-force update sets every block's `g_MacroBodyforce` to the supplied force at `time` and changes nothing else |
| Ops.DistributionCallEffect | Src/evolution3d.cpp:507-515 | the halo transfer and the boundary treatment set every block's `g_f` to the supplied value and change nothing else |
| Drivers.PipelineForceTimes | Src/evolution3d.cpp:493 | the only body-force time a pipeline run records is its own |
| Drivers.CheckpointPicks | Src/evolution3d.cpp:436-443 | a checkpoint displays the residual once, for its own iteration, updates no body force, runs no pipeline stage after the macroscopic update and tears nothing down |
| Drivers.FixedLoopTimes | Src/evolution3d.cpp:433-435 | the counted loop runs the pipeline once per iteration, at times 0, dt, ..., (k-1) dt in order |
| Drivers.FixedLoopCheckpoints | Src/evolution3d.cpp:433-443 | the counted loop checkpoints exactly at the positive multiples of the period below k, each once, in increasing order |
| Drivers.FixedLoopCheckpointCount | Src/evolution3d.cpp:433-443 | the counted loop makes (k-1) / P checkpoints |
| Drivers.TeardownOnce | Src/evolution3d.cpp:449-451 | a run starts with the announcement and ends with the teardown, and DestroyModel and DestroyFlowfield happen exactly once |
| Drivers.FixedRunSchedule | Src/evolution3d.cpp:428-452 | `steps` pipeline runs at iter * dt; checkpoints exactly at the positive multiples of P below `steps`, increasing, (steps-1)/P of them; the teardown once at the end |
| Drivers.FixedRunOtherScheme | Src/evolution3d.cpp:446-452 | for any other scheme: no pipeline, no checkpoint, no state change, and the teardown once |
| Drivers.RunReplay | Src/evolution3d.cpp:449-451 | the announcement and the teardown leave the modelled state alone |
| Drivers.CheckIterValue | Src/evolution3d.cpp:462 | the threshold driver's checkpoint j is at iteration j * P |
| Drivers.CheckpointDue | Src/evolution3d.cpp:462 | between two checkpoints the counter is a multiple of P only when it reaches the next checkpoint |
| Drivers.NextBracket | Src/evolution3d.cpp:462-472 | after one pass the counter is still within the bracket of the next checkpoint, with one more checkpoint exactly when it was a multiple of P |
| Drivers.CheckpointsSchedule | Src/evolution3d.cpp:461-474 | the first c checkpoints display at iterations 0, P, ..., (c-1)P, update no body force and run no pipeline stage after the macroscopic update |
| Drivers.CheckStateReplay | Src/evolution3d.cpp:461-474 | the state after c checkpoints, one at a time, is the replay of their trace |
| Drivers.UnconvergedAll | Src/evolution3d.cpp:474 | "no checkpoint so far is below the criterion" holds exactly when every one of the first c residuals is at least the criterion |
| Drivers.FirstBelow | Src/evolution3d.cpp:474 | if some checkpoint is below the criterion, there is a first one, and the loop stops after it |
| Drivers.UnconvergedBound | Src/evolution3d.cpp:474 | a checkpoint below the criterion bounds how many checkpoints can be at or above it |
| Drivers.ThresholdAdvance | Src/evolution3d.cpp:461-474 | one pass ends the loop exactly when it made the first checkpoint below the criterion, and otherwise stays within the first k checkpoints |
| Drivers.ThresholdRunSchedule | Src/evolution3d.cpp:454-482 | checkpoints at iterations 0, P, ..., (c-1)P; no body-force update and no pipeline stage after the macroscopic update anywhere; the teardown once at the end |
| Drivers.ThresholdRunOtherScheme | Src/evolution3d.cpp:476-482 | for any other scheme: no checkpoint, no state change, and the teardown once |

## Left out

- Kernel bodies are not part of this model. The physics kernels (collision, body force, initial condition, streaming, macroscopic variables, cut-cell boundaries) are a supplied function (`KernelBodies.kernel`), restricted to the fields the source hands them with write access and to the points of the launch range.
- OPS parallelism and stencils are not modelled. An `ops_par_loop` is one atomic event.
- `UpdateMacroscopicBodyForce`, `ops_halo_transfer` and `ImplementBoundaryConditions` belong to other modules. Their computations are supplied functions (`KernelBodies.bodyForce`, `.halo`, `.boundary`); the model fixes only which field each writes. Which halo points the transfer fills, and which boundary points the boundary treatment touches, are not modelled.
- The HDF5 writers, `DestroyModel` and `DestroyFlowfield` belong to other modules. They are events with no modelled effect.
- `GetMaximumResidual` is computed outside this core. It is a supplied function of the residual slots and the check period.
- `ops_printf` text is reduced to the messages that matter to control flow (the not-implemented diagnostics, the announcement, the end message, the residual display). The `DebugLevel` progress messages are omitted.
- Doubles are modelled as reals: no rounding, infinity or NaN.
- Residual.ResidualRatio: returns `None` where the source divides a double by zero and shows infinity or NaN.
- `CalcTotalMass3D` and `NormaliseF3D` are not modelled. They are not called by the routines modelled here.
- `TreatEmbeddedBoundary3D` is commented out in the source.
- Evolution.Solver.Iterate: requires a positive checkpoint period when it runs at least one step of the stream-collision scheme. The source takes the remainder by the period, which is undefined for 0.
- Evolution.Solver.IterateToConvergence: requires a positive checkpoint period, and that some checkpoint's maximum residual falls below the criterion. Otherwise the source loops forever.
- Block indices, component ids and iteration counters are unbounded naturals. The source's `int` overflow is not modelled.
- `CopyBlockEnvelopDistribution3D`, the dispatchers, the reductions and both drivers keep their loops. Their bodies are split into helper methods (`DispatchBlock`, `DispatchTerm`, `CopyBlockEnvelop`, `ReduceVariable`, `FixedStep`, `Checkpoint`, `CheckAndMeasure`, `CheckIfDue`, `CheckUntilConverged`) that keep the same order of calls.
