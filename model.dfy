/** Data model of the evolution core: the physics variants a component can be
    assigned, the run configuration the core reads, and the per-block field
    bundle it evolves. */
module Model {
  import opened Grid

  datatype Option<T> = None | Some(value: T)

  /** `CollisionType`: the two variants this core implements, and every
      other member of the enumeration (declared outside this core). */
  datatype CollisionType = BGKIsothermal2nd | BGKThermal4th | OtherCollision(code: int)

  /** `BodyForceType`. */
  datatype BodyForceType = BodyForce1st | BodyForceNone | OtherBodyForce(code: int)

  /** `InitialType`. */
  datatype InitialType = BGKFeq2nd | OtherInitial(code: int)

  /** `VertexTypes` as a boundary-condition tag. */
  datatype VertexType = ExtrapolPressure1ST | EQMDiffuseRefl | NoslipEQN | Periodic | OtherVertex(code: int)

  /** `SchemeType`: only the stream-collision scheme has a driver. */
  datatype SchemeType = StreamCollision | OtherScheme(code: int)

  /** What the evolution core reads from the rest of the solver, fixed for a
      run: the block count and each block's named ranges (`BlockNum`,
      `BlockIterRng`), the ordered component-to-variant maps
      (`CollisionTerms`, `BodyForceTerms`, `InitialTerms`), the relaxation
      times (`TauRef`), `TimeStep`, `MacroVarsNum`, whether a halo group
      exists (`HaloGroup() != nullptr`) and the scheme (`Scheme`). */
  datatype Config = Config(
    blockNum: nat,
    iterRng: (nat, RangeName) -> Box,
    collisionTerms: seq<(nat, CollisionType)>,
    bodyForceTerms: seq<(nat, BodyForceType)>,
    initialTerms: seq<(nat, InitialType)>,
    tauRef: seq<real>,
    timeStep: real,
    macroVarsNum: nat,
    haloGroup: bool,
    scheme: SchemeType)
  {
    /** The collision dispatcher reads `TauRef()[compoId]` for every entry of
        the collision map before it looks at the variant. */
    predicate WellFormed() {
      forall t :: t in collisionTerms ==> t.0 < |tauRef|
    }

    function WholeRange(b: nat): Box {
      iterRng(b, Whole)
    }
  }

  /** A per-point field: the value of entry `c` (lattice direction or
      macroscopic variable) at point `p`. */
  type Field = (Point, nat) -> real

  /** The five per-block fields the core touches: `g_f`, `g_fStage`,
      `g_MacroVars`, `g_MacroVarsCopy` and `g_MacroBodyforce`. */
  datatype FieldId = F | FStage | MacroVars | MacroVarsCopy | MacroBodyforce

  /** The per-block state bundle. */
  datatype BlockFields = BlockFields(f: Field, fStage: Field, macroVars: Field, macroVarsCopy: Field, macroBodyforce: Field)
  {
    function Get(id: FieldId): Field {
      match id
      case F => f
      case FStage => fStage
      case MacroVars => macroVars
      case MacroVarsCopy => macroVarsCopy
      case MacroBodyforce => macroBodyforce
    }

    function With(id: FieldId, v: Field): (r: BlockFields)
      ensures r.Get(id) == v
      ensures forall other :: other != id ==> r.Get(other) == Get(other)
    {
      match id
      case F => this.(f := v)
      case FStage => this.(fStage := v)
      case MacroVars => this.(macroVars := v)
      case MacroVarsCopy => this.(macroVarsCopy := v)
      case MacroBodyforce => this.(macroBodyforce := v)
    }
  }

  /** `KerCopyf` / `KerCopyMacroVars` over range `r`: `dest` takes `src`'s
      values inside `r` and keeps its own outside. */
  function CopyOn(dest: Field, src: Field, r: Box): Field {
    (p: Point, c: nat) => if r.Contains(p) then src(p, c) else dest(p, c)
  }

  /** Everything the core evolves: the per-block fields, the accumulators of
      the residual reduction handles (`g_ResidualErrorHandle`) and the
      residual slots (`g_ResidualError`). */
  datatype State = State(blocks: seq<BlockFields>, handles: seq<real>, residual: seq<real>)
}
