/** What each of the three sequence-copy passes decides for an instruction and which code it
    emits instead. `SsaModule` holds the loops that do this in place. */
module CopyLowering {
  import opened Prelude
  import opened SsaSyntax

  const UNROLL_LIMIT: nat := 256
  const REBUILD_LIMIT: nat := 512

  /** Run in this order: static windows, constant windows over views, dynamic offsets. */
  datatype Pass = StaticPass | WindowPass | OffsetPass

  /** Declared types of a function's names, and its 64-bit unsigned constants. */
  datatype Context = Context(types: map<Id, Type>, constants: map<Id, int>)

  datatype LoweringError =
    | BadShape(copy: Id)
    | NegativeWindow(copy: Id)
    | EvidenceViolated(copy: Id)
    | OffsetsNotU64(copy: Id)
    | MissingType(copy: Id)
    | TypesDisagree(copy: Id)

  datatype Plan =
    | Keep
    | Empty
    | Rebuild(dstAt: nat, srcAt: nat, length: nat)
    | Unroll(dstOffset: Option<nat>, srcOffset: Option<nat>, count: nat)
    | EmptyViews

  // ----- Which plan a pass picks -----

  function Lookup<T>(m: map<Id, T>, id: Id): Option<T> {
    if id in m then Some(m[id]) else None
  }

  /** The common last check: both sequences and the result must have their declared types. */
  function CheckTypes(ctx: Context, i: Instruction, plan: Plan): Result<Plan, LoweringError>
    requires i.kind.Copy? && |i.inputs| == 5 && |i.outputs| == 1
  {
    var dstType, srcType := Lookup(ctx.types, i.inputs[0]), Lookup(ctx.types, i.inputs[2]);
    var expected := Sequence(i.kind.elementType, i.kind.dstBound);
    if dstType.None? || srcType.None? then Err(MissingType(i.identity))
    else if dstType.value != expected
            || srcType.value != Sequence(i.kind.elementType, i.kind.srcBound)
            || i.outputs[0].ty != expected then Err(TypesDisagree(i.identity))
    else Ok(plan)
  }

  function DecideStatic(ctx: Context, i: Instruction): Result<Plan, LoweringError> {
    if !(i.kind.Copy? && i.kind.evidence.StaticExact? && i.kind.dstBound.Exact? && i.kind.srcBound.Exact?) then Ok(Keep)
    else if |i.inputs| != 5 || |i.outputs| != 1 then Err(BadShape(i.identity))
    else
      var dstAt, srcAt, length :=
        Lookup(ctx.constants, i.inputs[1]), Lookup(ctx.constants, i.inputs[3]), Lookup(ctx.constants, i.inputs[4]);
      if dstAt.None? || srcAt.None? || length.None? then Ok(Keep)
      else if dstAt.value < 0 || srcAt.value < 0 || length.value < 0 then Err(NegativeWindow(i.identity))
      else if dstAt.value + length.value > i.kind.dstBound.length || srcAt.value + length.value > i.kind.srcBound.length then
        Err(EvidenceViolated(i.identity))
      else if length.value > UNROLL_LIMIT && i.kind.dstBound.length > REBUILD_LIMIT then Ok(Keep)
      else
        CheckTypes(ctx, i,
          if length.value == 0 then Empty
          else if length.value > UNROLL_LIMIT then Rebuild(dstAt.value, srcAt.value, length.value)
          else Unroll(Some(dstAt.value), Some(srcAt.value), length.value))
  }

  function DecideWindow(ctx: Context, i: Instruction): Result<Plan, LoweringError> {
    if !(i.kind.Copy? && i.kind.evidence.RuntimeChecked? && i.kind.dstBound.Exact?) then Ok(Keep)
    else if |i.inputs| != 5 || |i.outputs| != 1 then Err(BadShape(i.identity))
    else
      var dstAt, srcAt, length :=
        Lookup(ctx.constants, i.inputs[1]), Lookup(ctx.constants, i.inputs[3]), Lookup(ctx.constants, i.inputs[4]);
      if dstAt.None? || srcAt.None? || length.None? then Ok(Keep)
      else if dstAt.value < 0 || srcAt.value < 0 || length.value < 0 then Ok(Keep)
      else if dstAt.value + length.value > i.kind.dstBound.length
              || srcAt.value + length.value >= U64_LIMIT
              || length.value > UNROLL_LIMIT
              || (length.value == 0 && srcAt.value != 0) then Ok(Keep)
      else
        CheckTypes(ctx, i,
          if length.value == 0 then Empty else Unroll(Some(dstAt.value), Some(srcAt.value), length.value))
  }

  function DecideOffset(ctx: Context, i: Instruction): Result<Plan, LoweringError> {
    if !(i.kind.Copy? && i.kind.evidence.RuntimeChecked? && i.kind.dstBound.Exact?) then Ok(Keep)
    else if |i.inputs| != 5 || |i.outputs| != 1 then Err(BadShape(i.identity))
    else
      var length := Lookup(ctx.constants, i.inputs[4]);
      if length.None? || length.value < 0 || length.value > UNROLL_LIMIT then Ok(Keep)
      else
        var dstAt, srcAt := Lookup(ctx.constants, i.inputs[1]), Lookup(ctx.constants, i.inputs[3]);
        if (dstAt.Some? && dstAt.value < 0) || (srcAt.Some? && srcAt.value < 0)
           || (dstAt.Some? && srcAt.Some? && length.value != 0) then Ok(Keep)
        else if exists k :: k in {1, 3, 4} && Lookup(ctx.types, i.inputs[k]) != Some(U64) then
          Err(OffsetsNotU64(i.identity))
        else
          CheckTypes(ctx, i,
            if length.value == 0 then EmptyViews
            else Unroll(
              if dstAt.Some? then Some(dstAt.value) else None,
              if srcAt.Some? then Some(srcAt.value) else None,
              length.value))
  }

  function Decide(pass: Pass, ctx: Context, i: Instruction): Result<Plan, LoweringError> {
    match pass
    case StaticPass => DecideStatic(ctx, i)
    case WindowPass => DecideWindow(ctx, i)
    case OffsetPass => DecideOffset(ctx, i)
  }

  /** A chain is only planned when there is something to copy. */
  predicate Planned(plan: Plan) {
    !plan.Keep? && (plan.Unroll? ==> plan.count > 0)
  }

  lemma DecidesPlanned(pass: Pass, ctx: Context, i: Instruction)
    requires Decide(pass, ctx, i).Ok? && !Decide(pass, ctx, i).value.Keep?
    ensures i.kind.Copy? && |i.inputs| == 5 && |i.outputs| == 1 && Planned(Decide(pass, ctx, i).value)
  {
  }

  // ----- The code a plan emits -----

  /** `result` is what the transformation record names as the output. */
  datatype Emission = Emission(code: seq<Instruction>, obligations: seq<ObligationRecord>, result: Id)

  /** Code that leaves an index in `value`, and the next unused ordinal. */
  datatype Index = Index(code: seq<Instruction>, obligations: seq<ObligationRecord>, value: Id, ordinal: nat)

  function Generate(identity: Id, kind: Kind, inputs: seq<Id>, output: SsaValue, failure: Option<FailureMode>): Instruction {
    Instruction(identity, None, kind, inputs, [output], [], failure)
  }

  function GeneratedValue(owner: Id, role: Role, ordinal: nat, ty: Type, producer: Id, block: Id): SsaValue {
    SsaValue(Generated(owner, role, ordinal), ty, Some(producer), block)
  }

  function ConstantCode(owner: Id, block: Id, ordinal: nat, value: nat): Instruction {
    var identity := Generated(owner, ConstantOp, ordinal);
    Generate(identity, Constant(value, U64), [], GeneratedValue(owner, ConstantValue, ordinal + 1, U64, identity, block), None)
  }

  function ConstantIndex(owner: Id, block: Id, ordinal: nat, value: nat): Index {
    Index([ConstantCode(owner, block, ordinal, value)], [], Generated(owner, ConstantValue, ordinal + 1), ordinal + 1)
  }

  /** The operation a generated obligation and its add speak for. */
  function OperationOf(c: Instruction): Id {
    if c.semanticIdentity.Some? then c.semanticIdentity.value else c.identity
  }

  function AddCode(owner: Id, block: Id, ordinal: nat, base: Id, increment: Id, failure: FailureMode): Instruction {
    var identity := Generated(owner, OffsetAdd, ordinal);
    Generate(identity, AddChecked, [base, increment],
             GeneratedValue(owner, OffsetAddValue, ordinal + 1, U64, identity, block), Some(failure))
    .(obligations := [Generated(owner, OffsetAddObligation, ordinal + 1)])
  }

  function AddObligation(owner: Id, ordinal: nat, operation: Id): ObligationRecord {
    ObligationRecord(
      Generated(owner, OffsetAddObligation, ordinal + 1),
      Generated(owner, OffsetAdd, ordinal),
      Generated(owner, OffsetAddRequirement, ordinal + 1),
      [operation])
  }

  /** base + increment as a checked 64-bit addition, folded when the base is a constant and the
      sum is in range. */
  function DynamicIndex(c: Instruction, block: Id, ordinal: nat, base: Id, constant: Option<nat>, increment: nat, failure: FailureMode): Index {
    if increment == 0 then Index([], [], base, ordinal)
    else if constant.Some? && constant.value + increment < U64_LIMIT then
      ConstantIndex(c.identity, block, ordinal, constant.value + increment)
    else
      var step := ConstantIndex(c.identity, block, ordinal, increment);
      Index(
        step.code + [AddCode(c.identity, block, step.ordinal, base, step.value, failure)],
        [AddObligation(c.identity, step.ordinal, OperationOf(c))],
        Generated(c.identity, OffsetAddValue, step.ordinal + 1),
        step.ordinal + 1)
  }

  function FailureOf(c: Instruction): FailureMode
    requires c.kind.Copy?
  {
    match c.kind.evidence
    case StaticExact => ""
    case RuntimeChecked(failure) => failure
  }

  function IndexCode(pass: Pass, c: Instruction, block: Id, ordinal: nat, base: Id, constant: Option<nat>, increment: nat): Index
    requires c.kind.Copy?
  {
    if pass.OffsetPass? || constant.None? then DynamicIndex(c, block, ordinal, base, constant, increment, FailureOf(c))
    else ConstantIndex(c.identity, block, ordinal, constant.value + increment)
  }

  /** The roles and checks in which the three unrolled chains differ. */
  function ProjectRole(pass: Pass): Role {
    match pass case StaticPass => StaticProject case WindowPass => RuntimeProject case OffsetPass => OffsetProject
  }

  function ProjectValueRole(pass: Pass): Role {
    match pass case StaticPass => StaticProjectValue case WindowPass => RuntimeProjectValue case OffsetPass => OffsetProjectValue
  }

  function ReplaceRole(pass: Pass, final: bool): Role {
    match pass
    case StaticPass => if final then StaticResult else StaticReplace
    case WindowPass => if final then RuntimeResult else RuntimeReplace
    case OffsetPass => if final then OffsetResult else OffsetReplace
  }

  function ReplaceValueRole(pass: Pass): Role {
    match pass case StaticPass => StaticReplaceValue case WindowPass => RuntimeReplaceValue case OffsetPass => OffsetReplaceValue
  }

  function ProjectCode(pass: Pass, c: Instruction, block: Id, ordinal: nat, index: Id): Instruction
    requires c.kind.Copy? && |c.inputs| == 5
  {
    var identity := Generated(c.identity, ProjectRole(pass), ordinal);
    Generate(identity, Project(c.kind.srcBound, c.kind.evidence), [c.inputs[2], index],
             GeneratedValue(c.identity, ProjectValueRole(pass), ordinal + 1, c.kind.elementType, identity, block),
             if pass.StaticPass? then None else Some(FailureOf(c)))
  }

  /** The last replace of a chain defines the copy's own result and carries its provenance. */
  function ReplaceCode(pass: Pass, c: Instruction, block: Id, ordinal: nat, final: bool, current: Id, index: Id, element: Id): Instruction
    requires c.kind.Copy? && |c.outputs| == 1
  {
    var identity := Generated(c.identity, ReplaceRole(pass, final), ordinal);
    var evidence := if pass.OffsetPass? then c.kind.evidence else StaticExact;
    var output :=
      if final then c.outputs[0].(producer := Some(identity))
      else GeneratedValue(c.identity, ReplaceValueRole(pass), ordinal + 1, Sequence(c.kind.elementType, c.kind.dstBound), identity, block);
    var failure :=
      match pass
      case StaticPass => if final then c.failure else None
      case WindowPass => None
      case OffsetPass => Some(FailureOf(c));
    Instruction(
      identity,
      if final then c.semanticIdentity else None,
      Replace(c.kind.elementType, c.kind.dstBound, evidence),
      [current, index, element],
      [output],
      if final then c.obligations else [],
      failure)
  }

  /** One byte of a copy: two indices, a read of the source, an update of the destination. */
  function StepCode(pass: Pass, c: Instruction, block: Id, plan: Plan, offset: nat, current: Id, ordinal: nat): Index
    requires c.kind.Copy? && |c.inputs| == 5 && |c.outputs| == 1 && plan.Unroll?
  {
    var to := IndexCode(pass, c, block, ordinal, c.inputs[1], plan.dstOffset, offset);
    var from := IndexCode(pass, c, block, to.ordinal, c.inputs[3], plan.srcOffset, offset);
    var project := ProjectCode(pass, c, block, from.ordinal, from.value);
    var replace := ReplaceCode(pass, c, block, from.ordinal + 1, offset + 1 == plan.count, current, to.value, project.outputs[0].identity);
    Index(to.code + from.code + [project, replace], to.obligations + from.obligations, replace.outputs[0].identity, from.ordinal + 2)
  }

  /** The rest of a chain from `offset` on. */
  function ChainCode(pass: Pass, c: Instruction, block: Id, plan: Plan, offset: nat, current: Id, ordinal: nat): Emission
    requires c.kind.Copy? && |c.inputs| == 5 && |c.outputs| == 1 && plan.Unroll? && offset <= plan.count
    decreases plan.count - offset
  {
    if offset == plan.count then Emission([], [], current)
    else
      var step := StepCode(pass, c, block, plan, offset, current, ordinal);
      var rest := ChainCode(pass, c, block, plan, offset + 1, step.value, step.ordinal);
      Emission(step.code + rest.code, step.obligations + rest.obligations, rest.result)
  }

  /** Where element `k` of the rebuilt destination comes from. */
  function RebuildSource(c: Instruction, plan: Plan, k: nat): (Id, Bound, nat)
    requires c.kind.Copy? && |c.inputs| == 5 && plan.Rebuild?
  {
    if plan.dstAt <= k < plan.dstAt + plan.length then (c.inputs[2], c.kind.srcBound, plan.srcAt + (k - plan.dstAt))
    else (c.inputs[0], c.kind.dstBound, k)
  }

  /** Two ordinals are used per element. */
  function RebuildElement(c: Instruction, block: Id, plan: Plan, k: nat): seq<Instruction>
    requires c.kind.Copy? && |c.inputs| == 5 && plan.Rebuild?
  {
    var (sequence, bound, at) := RebuildSource(c, plan, k);
    var index := ConstantIndex(c.identity, block, 2 * k, at);
    var identity := Generated(c.identity, RebuildProject, index.ordinal);
    index.code +
    [Generate(identity, Project(bound, StaticExact), [sequence, index.value],
              GeneratedValue(c.identity, RebuildProjectValue, index.ordinal + 1, c.kind.elementType, identity, block), None)]
  }

  function RebuildElements(c: Instruction, block: Id, plan: Plan, count: nat): seq<Instruction>
    requires c.kind.Copy? && |c.inputs| == 5 && plan.Rebuild?
  {
    if count == 0 then [] else RebuildElements(c, block, plan, count - 1) + RebuildElement(c, block, plan, count - 1)
  }

  function RebuiltElement(c: Instruction, k: nat): Id {
    Generated(c.identity, RebuildProjectValue, 2 * k + 2)
  }

  function RebuiltElements(c: Instruction, count: nat): seq<Id> {
    seq(count, k requires 0 <= k => RebuiltElement(c, k))
  }

  /** The copy itself, turned into another operation that still defines the same value. */
  function Turned(c: Instruction, identity: Id, kind: Kind, inputs: seq<Id>): Instruction
    requires |c.outputs| == 1
  {
    c.(identity := identity, kind := kind, inputs := inputs, outputs := [c.outputs[0].(producer := Some(identity))])
  }

  function RebuildCode(c: Instruction, block: Id, plan: Plan): Emission
    requires c.kind.Copy? && |c.inputs| == 5 && |c.outputs| == 1 && plan.Rebuild?
  {
    var count := c.kind.dstBound.Max();
    var identity := Generated(c.identity, RebuildResult, 2 * count);
    var construct := Turned(c, identity, Construct(c.kind.elementType, count), RebuiltElements(c, count));
    Emission(RebuildElements(c, block, plan, count) + [construct], [], identity)
  }

  function EmptyCode(pass: Pass, c: Instruction, block: Id): Emission
    requires c.kind.Copy? && |c.inputs| == 5 && |c.outputs| == 1
  {
    var static_ := pass.StaticPass?;
    var identity := Generated(c.identity, if static_ then EmptyCondition else RuntimeEmptyCondition, 0);
    var condition := GeneratedValue(c.identity, if static_ then EmptyConditionValue else RuntimeEmptyConditionValue, 1, Bool, identity, block);
    var result := Generated(c.identity, if static_ then EmptyResult else RuntimeEmptyResult, 1);
    var select := Turned(c, result, Select(Sequence(c.kind.elementType, c.kind.dstBound)), [condition.identity, c.inputs[0], c.inputs[0]]);
    Emission(
      [Generate(identity, Constant(1, Bool), [], condition, None), if static_ then select else select.(failure := None)],
      [], result)
  }

  function ViewCode(c: Instruction, block: Id, source: bool): seq<Instruction>
    requires c.kind.Copy? && |c.inputs| == 5
  {
    var ordinal := if source then 2 else 0;
    var sequence, at := c.inputs[if source then 2 else 0], c.inputs[if source then 3 else 1];
    var viewId := Generated(c.identity, if source then EmptySourceView else EmptyDestinationView, ordinal);
    var view := GeneratedValue(c.identity, if source then EmptySourceViewValue else EmptyDestinationViewValue, ordinal + 1,
                               Sequence(c.kind.elementType, UpTo(0)), viewId, block);
    var lengthId := Generated(c.identity, if source then EmptySourceLength else EmptyDestinationLength, ordinal + 1);
    var length := GeneratedValue(c.identity, if source then EmptySourceLengthValue else EmptyDestinationLengthValue, ordinal + 2,
                                 U64, lengthId, block);
    [Generate(viewId, View(if source then c.kind.srcBound else c.kind.dstBound, UpTo(0)), [sequence, at, at], view, Some(FailureOf(c))),
     Generate(lengthId, Length(UpTo(0)), [view.identity], length, None)]
  }

  function CheckCode(c: Instruction, block: Id, source: bool): Instruction {
    var ordinal := if source then 6 else 5;
    var identity := Generated(c.identity, if source then EmptySourceCheck else EmptyDestinationCheck, ordinal);
    var length :=
      if source then Generated(c.identity, EmptySourceLengthValue, 4) else Generated(c.identity, EmptyDestinationLengthValue, 2);
    Generate(identity, CompareEq, [length, Generated(c.identity, ConstantValue, 5)],
             GeneratedValue(c.identity, if source then EmptySourceCheckValue else EmptyDestinationCheckValue, ordinal + 1, Bool, identity, block),
             None)
  }

  /** Checked empty views keep both offsets bounded; the value is the destination either way. */
  function EmptyViewsCode(c: Instruction, block: Id): Emission
    requires c.kind.Copy? && |c.inputs| == 5 && |c.outputs| == 1
  {
    var conditionId := Generated(c.identity, EmptyViewsCondition, 7);
    var condition := GeneratedValue(c.identity, EmptyViewsConditionValue, 8, Bool, conditionId, block);
    var result := Generated(c.identity, EmptyViewsResult, 8);
    var select := Turned(c, result, Select(Sequence(c.kind.elementType, c.kind.dstBound)), [condition.identity, c.inputs[0], c.inputs[0]]);
    Emission(
      ViewCode(c, block, false) + ViewCode(c, block, true) +
      [ConstantCode(c.identity, block, 4, 0), CheckCode(c, block, false), CheckCode(c, block, true),
       Generate(conditionId, And,
                [Generated(c.identity, EmptyDestinationCheckValue, 6), Generated(c.identity, EmptySourceCheckValue, 7)],
                condition, None),
       select.(failure := None)],
      [], result)
  }

  function PlanCode(pass: Pass, c: Instruction, block: Id, plan: Plan): Emission
    requires c.kind.Copy? && |c.inputs| == 5 && |c.outputs| == 1 && !plan.Keep?
  {
    match plan
    case Empty => EmptyCode(pass, c, block)
    case Rebuild(_, _, _) => RebuildCode(c, block, plan)
    case Unroll(_, _, _) => ChainCode(pass, c, block, plan, 0, c.inputs[0], 0)
    case EmptyViews => EmptyViewsCode(c, block)
  }

  const STATIC_RULE := "vm-static-exact-sequence-copy-to-project-replace/1"
  const REBUILD_RULE := "vm-static-exact-sequence-copy-to-project-construct/1"
  const RUNTIME_RULE := "vm-runtime-checked-sequence-copy-to-project-replace/1"
  const EMPTY_RULE := "vm-runtime-checked-sequence-copy-to-empty-selection/1"
  const OFFSETS_RULE := "vm-runtime-checked-sequence-copy-dynamic-offsets-to-project-replace/1"
  const EMPTY_VIEWS_RULE := "vm-runtime-checked-sequence-copy-zero-length-to-checked-empty-views/1"

  function RuleOf(pass: Pass, plan: Plan): string
    requires !plan.Keep?
  {
    match plan
    case Rebuild(_, _, _) => REBUILD_RULE
    case EmptyViews => EMPTY_VIEWS_RULE
    case Empty =>
      if pass.StaticPass? then STATIC_RULE
      else EMPTY_RULE
    case Unroll(_, _, _) =>
      match pass
      case StaticPass => STATIC_RULE
      case WindowPass => RUNTIME_RULE
      case OffsetPass => OFFSETS_RULE
  }

  function RecordOf(c: Instruction, emission: Emission, rule: string): TransformationRecord {
    TransformationRecord(c.identity, emission.result, rule, OperationOf(c), c.obligations + IdentitiesOf(emission.obligations))
  }

  function IdentitiesOf(obligations: seq<ObligationRecord>): seq<Id> {
    seq(|obligations|, k requires 0 <= k < |obligations| => obligations[k].identity)
  }

  // ----- A pass over instructions, blocks and functions -----

  /** Rewritten items with the records and obligations that the rewriting adds. */
  datatype Output<T> = Output(items: seq<T>, records: seq<TransformationRecord>, obligations: seq<ObligationRecord>)

  function Nothing<T>(): Output<T> {
    Output([], [], [])
  }

  function Join<T>(a: Output<T>, b: Output<T>): Output<T> {
    Output(a.items + b.items, a.records + b.records, a.obligations + b.obligations)
  }

  function LowerInstruction(pass: Pass, ctx: Context, block: Id, i: Instruction): Result<Output<Instruction>, LoweringError> {
    match Decide(pass, ctx, i)
    case Err(e) => Err(e)
    case Ok(plan) =>
      if plan.Keep? then Ok(Output([i], [], []))
      else
        var emission := PlanCode(pass, i, block, plan);
        Ok(Output(emission.code, [RecordOf(i, emission, RuleOf(pass, plan))], emission.obligations))
  }

  function LowerInstructions(pass: Pass, ctx: Context, block: Id, code: seq<Instruction>): Result<Output<Instruction>, LoweringError> {
    if code == [] then Ok(Nothing())
    else
      match LowerInstruction(pass, ctx, block, code[0])
      case Err(e) => Err(e)
      case Ok(first) =>
        match LowerInstructions(pass, ctx, block, code[1..])
        case Err(e) => Err(e)
        case Ok(rest) => Ok(Join(first, rest))
  }

  function LowerBlock(pass: Pass, ctx: Context, b: Block): Result<Output<Block>, LoweringError> {
    match LowerInstructions(pass, ctx, b.identity, b.instructions)
    case Err(e) => Err(e)
    case Ok(out) => Ok(Output([b.(instructions := out.items)], out.records, out.obligations))
  }

  function LowerBlocks(pass: Pass, ctx: Context, blocks: seq<Block>): Result<Output<Block>, LoweringError> {
    if blocks == [] then Ok(Nothing())
    else
      match LowerBlock(pass, ctx, blocks[0])
      case Err(e) => Err(e)
      case Ok(first) =>
        match LowerBlocks(pass, ctx, blocks[1..])
        case Err(e) => Err(e)
        case Ok(rest) => Ok(Join(first, rest))
  }

  // ----- The facts a pass collects about a function -----

  function AddTypes(types: map<Id, Type>, values: seq<SsaValue>): map<Id, Type>
    decreases |values|
  {
    if values == [] then types else AddTypes(types[values[0].identity := values[0].ty], values[1..])
  }

  function AddInstruction(ctx: Context, i: Instruction): Context {
    Context(
      AddTypes(ctx.types, i.outputs),
      if i.kind.Constant? && i.outputs != [] && i.kind.ty == U64 then ctx.constants[i.outputs[0].identity := i.kind.value]
      else ctx.constants)
  }

  function AddInstructions(ctx: Context, code: seq<Instruction>): Context
    decreases |code|
  {
    if code == [] then ctx else AddInstructions(AddInstruction(ctx, code[0]), code[1..])
  }

  function AddBlocks(ctx: Context, blocks: seq<Block>): Context
    decreases |blocks|
  {
    if blocks == [] then ctx
    else AddBlocks(AddInstructions(ctx.(types := AddTypes(ctx.types, blocks[0].parameters)), blocks[0].instructions), blocks[1..])
  }

  function Collect(f: Function): Context {
    AddBlocks(Context(AddTypes(AddTypes(map[], f.inputs), f.outputs), map[]), f.blocks)
  }

  function LowerFunction(pass: Pass, f: Function): Result<Output<Function>, LoweringError> {
    match LowerBlocks(pass, Collect(f), f.blocks)
    case Err(e) => Err(e)
    case Ok(out) => Ok(Output([f.(blocks := out.items)], out.records, out.obligations))
  }

  function LowerFunctions(pass: Pass, functions: seq<Function>): Result<Output<Function>, LoweringError> {
    if functions == [] then Ok(Nothing())
    else
      match LowerFunction(pass, functions[0])
      case Err(e) => Err(e)
      case Ok(first) =>
        match LowerFunctions(pass, functions[1..])
        case Err(e) => Err(e)
        case Ok(rest) => Ok(Join(first, rest))
  }

  /** The three passes in their fixed order. */
  function LowerAll(functions: seq<Function>): Result<Output<Function>, LoweringError> {
    match LowerFunctions(StaticPass, functions)
    case Err(e) => Err(e)
    case Ok(a) =>
      match LowerFunctions(WindowPass, a.items)
      case Err(e) => Err(e)
      case Ok(b) =>
        match LowerFunctions(OffsetPass, b.items)
        case Err(e) => Err(e)
        case Ok(c) => Ok(Output(c.items, a.records + b.records + c.records, a.obligations + b.obligations + c.obligations))
  }
}
