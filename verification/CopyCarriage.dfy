/** What the code that replaces a copy carries over from it: its provenance, its obligations, its
    result and how it may fail; and what the rest of that code is named and owes. */
module CopyCarriage {
  import opened Prelude
  import opened SsaSyntax
  import opened CopyLowering

  /** The mode in which a copy fails; a static one does not. */
  ghost function ModeOf(c: Instruction): Option<FailureMode> {
    if !c.kind.Copy? then None
    else
      match c.kind.evidence
      case StaticExact => None
      case RuntimeChecked(failure) => Some(failure)
  }

  /** What a generated instruction that is not the last one can be: its role, that of its value, what it does,
      the type of its value, and how it may fail. */
  ghost predicate InnerIs(pass: Pass, c: Instruction, role: Role, value: Role, kind: Kind, ty: Type, failure: Option<FailureMode>) {
    && c.kind.Copy?
    && var Copy(element, dst, src, evidence) := c.kind;
    match role
    case ConstantOp => value == ConstantValue && kind.Constant? && kind.ty == U64 && ty == U64 && failure == None
    case OffsetAdd => pass.OffsetPass? && value == OffsetAddValue && kind == AddChecked && ty == U64 && failure.Some? && failure == ModeOf(c)
    case EmptyCondition => pass.StaticPass? && value == EmptyConditionValue && kind == Constant(1, Bool) && ty == Bool && failure == None
    case RuntimeEmptyCondition =>
      pass.WindowPass? && value == RuntimeEmptyConditionValue && kind == Constant(1, Bool) && ty == Bool && failure == None
    case RebuildProject =>
      && pass.StaticPass? && value == RebuildProjectValue && (kind == Project(src, StaticExact) || kind == Project(dst, StaticExact))
      && ty == element && failure == None
    case StaticProject => pass.StaticPass? && value == StaticProjectValue && kind == Project(src, StaticExact) && ty == element && failure == None
    case StaticReplace =>
      && pass.StaticPass? && value == StaticReplaceValue && kind == Replace(element, dst, StaticExact)
      && ty == Sequence(element, dst) && failure == None
    case RuntimeProject =>
      && pass.WindowPass? && value == RuntimeProjectValue && kind == Project(src, evidence)
      && ty == element && failure.Some? && failure == ModeOf(c)
    case RuntimeReplace =>
      && pass.WindowPass? && value == RuntimeReplaceValue && kind == Replace(element, dst, StaticExact)
      && ty == Sequence(element, dst) && failure == None
    case OffsetProject =>
      && pass.OffsetPass? && value == OffsetProjectValue && kind == Project(src, evidence)
      && ty == element && failure.Some? && failure == ModeOf(c)
    case OffsetReplace =>
      && pass.OffsetPass? && value == OffsetReplaceValue && kind == Replace(element, dst, evidence)
      && ty == Sequence(element, dst) && failure.Some? && failure == ModeOf(c)
    case EmptyDestinationView =>
      && pass.OffsetPass? && value == EmptyDestinationViewValue && kind == View(dst, UpTo(0))
      && ty == Sequence(element, UpTo(0)) && failure.Some? && failure == ModeOf(c)
    case EmptySourceView =>
      && pass.OffsetPass? && value == EmptySourceViewValue && kind == View(src, UpTo(0))
      && ty == Sequence(element, UpTo(0)) && failure.Some? && failure == ModeOf(c)
    case EmptyDestinationLength => pass.OffsetPass? && value == EmptyDestinationLengthValue && kind == Length(UpTo(0)) && ty == U64 && failure == None
    case EmptySourceLength => pass.OffsetPass? && value == EmptySourceLengthValue && kind == Length(UpTo(0)) && ty == U64 && failure == None
    case EmptyDestinationCheck => pass.OffsetPass? && value == EmptyDestinationCheckValue && kind == CompareEq && ty == Bool && failure == None
    case EmptySourceCheck => pass.OffsetPass? && value == EmptySourceCheckValue && kind == CompareEq && ty == Bool && failure == None
    case EmptyViewsCondition => pass.OffsetPass? && value == EmptyViewsConditionValue && kind == And && ty == Bool && failure == None
    case _ => false
  }

  /** The n-th instruction of the code, not the last: it and its one value are named after the copy, and it
      belongs to the block and owes nothing; but an addition owes the obligation named with its value. */
  ghost predicate Inner(pass: Pass, c: Instruction, block: Id, i: Instruction, n: nat) {
    && i.identity.Generated? && i.identity.owner == c.identity && i.identity.ordinal == n
    && i.semanticIdentity == None
    && |i.outputs| == 1
    && var o := i.outputs[0];
    && o.identity.Generated? && o.identity.owner == c.identity && o.identity.ordinal == n + 1
    && o.producer == Some(i.identity) && o.block == block
    && i.obligations == (if i.identity.role == OffsetAdd then [Generated(c.identity, OffsetAddObligation, n + 1)] else [])
    && InnerIs(pass, c, i.identity.role, o.identity.role, i.kind, o.ty, i.failure)
  }

  /** What the last instruction can be, by its role. */
  ghost predicate OuterIs(pass: Pass, c: Instruction, role: Role, kind: Kind, failure: Option<FailureMode>) {
    && c.kind.Copy?
    && var Copy(element, dst, src, evidence) := c.kind;
    match role
    case StaticResult => pass.StaticPass? && kind == Replace(element, dst, StaticExact) && failure == c.failure
    case RebuildResult => pass.StaticPass? && dst.Exact? && kind == Construct(element, dst.length) && failure == c.failure
    case EmptyResult => pass.StaticPass? && kind == Select(Sequence(element, dst)) && failure == c.failure
    case RuntimeResult => pass.WindowPass? && kind == Replace(element, dst, StaticExact) && failure == None
    case RuntimeEmptyResult => pass.WindowPass? && kind == Select(Sequence(element, dst)) && failure == None
    case OffsetResult => pass.OffsetPass? && kind == Replace(element, dst, evidence) && failure.Some? && failure == ModeOf(c)
    case EmptyViewsResult => pass.OffsetPass? && kind == Select(Sequence(element, dst)) && failure == None
    case _ => false
  }

  /** The last instruction takes the copy's place: it defines the copy's own result, of the same type and in the
      same block, and has the copy's provenance and obligations. */
  ghost predicate TakesPlace(c: Instruction, i: Instruction) {
    && i.identity.Generated? && i.identity.owner == c.identity && !i.kind.Copy?
    && |c.outputs| == 1
    && i.outputs == [SsaValue(c.outputs[0].identity, c.outputs[0].ty, Some(i.identity), c.outputs[0].block)]
    && i.semanticIdentity == c.semanticIdentity
    && i.obligations == c.obligations
  }

  ghost predicate Outer(pass: Pass, c: Instruction, i: Instruction, n: nat) {
    && TakesPlace(c, i) && i.identity.ordinal == n
    && OuterIs(pass, c, i.identity.role, i.kind, i.failure)
  }

  ghost predicate InnerCode(pass: Pass, c: Instruction, block: Id, code: seq<Instruction>, start: nat) {
    forall k :: 0 <= k < |code| ==> Inner(pass, c, block, code[k], start + k)
  }

  /** The obligation of the n-th instruction, an addition, speaks for the copy's operation. */
  ghost predicate ObligationIs(c: Instruction, o: ObligationRecord, n: nat) {
    && o.identity == Generated(c.identity, OffsetAddObligation, n + 1)
    && o.subject == Generated(c.identity, OffsetAdd, n)
    && o.requirement == Generated(c.identity, OffsetAddRequirement, n + 1)
    && (match c.semanticIdentity
        case Some(operation) => o.dependencies == [operation]
        case None => o.dependencies == [c.identity])
  }

  ghost predicate ObligationOf(c: Instruction, o: ObligationRecord) {
    exists n: nat :: ObligationIs(c, o, n)
  }

  ghost predicate ObligationsOf(c: Instruction, obligations: seq<ObligationRecord>) {
    forall o :: o in obligations ==> ObligationOf(c, o)
  }

  /** The rule of a record, by the role of the instruction that takes the copy's place. */
  ghost function RuleNamed(role: Role): string {
    match role
    case StaticResult => STATIC_RULE
    case EmptyResult => STATIC_RULE
    case RebuildResult => REBUILD_RULE
    case RuntimeResult => RUNTIME_RULE
    case RuntimeEmptyResult => EMPTY_RULE
    case OffsetResult => OFFSETS_RULE
    case EmptyViewsResult => EMPTY_VIEWS_RULE
    case _ => ""
  }

  /** What the rules are called. */
  lemma RuleTexts()
    ensures STATIC_RULE == "vm-static-exact-sequence-copy-to-project-replace/1"
    ensures REBUILD_RULE == "vm-static-exact-sequence-copy-to-project-construct/1"
    ensures RUNTIME_RULE == "vm-runtime-checked-sequence-copy-to-project-replace/1"
    ensures EMPTY_RULE == "vm-runtime-checked-sequence-copy-to-empty-selection/1"
    ensures OFFSETS_RULE == "vm-runtime-checked-sequence-copy-dynamic-offsets-to-project-replace/1"
    ensures EMPTY_VIEWS_RULE == "vm-runtime-checked-sequence-copy-zero-length-to-checked-empty-views/1"
  {
  }

  /** The record of a copy names it, its rule, and what took its place: the value of a chain, and otherwise
      the instruction. */
  ghost predicate Records(t: TransformationRecord, c: Instruction, i: Instruction, more: seq<Id>) {
    && TakesPlace(c, i)
    && t.input == c.identity
    && t.operation == (match c.semanticIdentity case Some(operation) => operation case None => c.identity)
    && t.output == (if i.identity.role in {StaticResult, RuntimeResult, OffsetResult} then c.outputs[0].identity else i.identity)
    && t.rule == RuleNamed(i.identity.role)
    && t.obligationsRequired == c.obligations + more
  }

  /** Code that takes the place of a copy. */
  ghost predicate Carries(pass: Pass, c: Instruction, block: Id, code: seq<Instruction>) {
    && c.kind.Copy? && code != []
    && InnerCode(pass, c, block, code[..|code| - 1], 0)
    && Outer(pass, c, code[|code| - 1], |code| - 1)
  }

  // ----- What each pass can plan -----

  ghost predicate Picked(pass: Pass, c: Instruction, plan: Plan) {
    && c.kind.Copy? && |c.inputs| == 5 && |c.outputs| == 1 && c.kind.dstBound.Exact? && Planned(plan)
    && (pass.StaticPass? <==> c.kind.evidence.StaticExact?)
    && (plan.Empty? ==> !pass.OffsetPass?)
    && (plan.Rebuild? ==> pass.StaticPass?)
    && (plan.EmptyViews? ==> pass.OffsetPass?)
    && (plan.Unroll? && !pass.OffsetPass? ==> plan.dstOffset.Some? && plan.srcOffset.Some?)
  }

  lemma DecidesPicked(pass: Pass, ctx: Context, c: Instruction)
    requires Decide(pass, ctx, c).Ok? && !Decide(pass, ctx, c).value.Keep?
    ensures Picked(pass, c, Decide(pass, ctx, c).value)
  {
    hide CheckTypes;
    CheckedPlan(pass, ctx, c);
  }

  lemma CheckedPlan(pass: Pass, ctx: Context, c: Instruction)
    ensures c.kind.Copy? && |c.inputs| == 5 && |c.outputs| == 1 ==>
              forall plan :: CheckTypes(ctx, c, plan).Ok? ==> CheckTypes(ctx, c, plan).value == plan
  {
  }

  // ----- Code, piece by piece -----

  lemma InnerAppend(pass: Pass, c: Instruction, block: Id, a: seq<Instruction>, b: seq<Instruction>, start: nat)
    requires InnerCode(pass, c, block, a, start) && InnerCode(pass, c, block, b, start + |a|)
    ensures InnerCode(pass, c, block, a + b, start)
  {
    hide Inner;
    var code := a + b;
    forall k | 0 <= k < |code| ensures Inner(pass, c, block, code[k], start + k) {
      if k >= |a| {
        assert Inner(pass, c, block, b[k - |a|], start + |a| + (k - |a|));
      }
    }
  }

  lemma InnerOne(pass: Pass, c: Instruction, block: Id, i: Instruction, n: nat)
    requires Inner(pass, c, block, i, n)
    ensures InnerCode(pass, c, block, [i], n)
  {
    hide Inner;
  }

  /** The inner code, and then what takes the copy's place. */
  ghost predicate CarriesFrom(pass: Pass, c: Instruction, block: Id, code: seq<Instruction>, start: nat) {
    && code != []
    && InnerCode(pass, c, block, code[..|code| - 1], start)
    && Outer(pass, c, code[|code| - 1], start + |code| - 1)
  }

  lemma CarriesAfter(pass: Pass, c: Instruction, block: Id, a: seq<Instruction>, b: seq<Instruction>, start: nat)
    requires InnerCode(pass, c, block, a, start) && CarriesFrom(pass, c, block, b, start + |a|)
    ensures CarriesFrom(pass, c, block, a + b, start)
  {
    hide InnerCode, Outer;
    assert (a + b)[..|a + b| - 1] == a + b[..|b| - 1];
    InnerAppend(pass, c, block, a, b[..|b| - 1], start);
  }

  lemma CarriesLast(pass: Pass, c: Instruction, block: Id, a: seq<Instruction>, i: Instruction, start: nat)
    requires InnerCode(pass, c, block, a, start) && Outer(pass, c, i, start + |a|)
    ensures CarriesFrom(pass, c, block, a + [i], start)
  {
    assert (a + [i])[..|a + [i]| - 1] == a;
  }

  lemma ConstantCarries(pass: Pass, c: Instruction, block: Id, ordinal: nat, value: nat)
    requires c.kind.Copy?
    ensures Inner(pass, c, block, ConstantCode(c.identity, block, ordinal, value), ordinal)
  {
  }

  lemma AddCarries(c: Instruction, block: Id, ordinal: nat, base: Id, increment: Id)
    requires c.kind.Copy? && c.kind.evidence.RuntimeChecked?
    ensures Inner(OffsetPass, c, block, AddCode(c.identity, block, ordinal, base, increment, FailureOf(c)), ordinal)
    ensures ObligationIs(c, AddObligation(c.identity, ordinal, OperationOf(c)), ordinal)
  {
  }

  lemma IndexCarries(pass: Pass, c: Instruction, block: Id, ordinal: nat, base: Id, constant: Option<nat>, increment: nat)
    requires c.kind.Copy? && (pass.OffsetPass? || constant.Some?) && (pass.OffsetPass? ==> c.kind.evidence.RuntimeChecked?)
    ensures var x := IndexCode(pass, c, block, ordinal, base, constant, increment);
            && InnerCode(pass, c, block, x.code, ordinal) && x.ordinal == ordinal + |x.code|
            && ObligationsOf(c, x.obligations)
  {
    hide Inner, ConstantCode, AddCode, AddObligation, ObligationIs, FailureOf;
    var x := IndexCode(pass, c, block, ordinal, base, constant, increment);
    if |x.code| == 1 {
      ConstantCarries(pass, c, block, ordinal, (if constant.Some? then constant.value else 0) + increment);
    } else if |x.code| == 2 {
      ConstantCarries(pass, c, block, ordinal, increment);
      AddCarries(c, block, ordinal + 1, base, Generated(c.identity, ConstantValue, ordinal + 1));
      assert ObligationIs(c, x.obligations[0], ordinal + 1);
    }
  }

  ghost predicate EndsChain(c: Instruction, value: Id, last: Instruction) {
    && |c.outputs| == 1 && value == c.outputs[0].identity
    && last.identity.Generated? && last.identity.role in {StaticResult, RuntimeResult, OffsetResult}
  }

  lemma StepCarries(pass: Pass, c: Instruction, block: Id, plan: Plan, offset: nat, current: Id, ordinal: nat)
    requires Picked(pass, c, plan) && plan.Unroll? && offset < plan.count
    ensures var x := StepCode(pass, c, block, plan, offset, current, ordinal);
            && x.ordinal == ordinal + |x.code| && ObligationsOf(c, x.obligations)
            && (offset + 1 < plan.count ==> InnerCode(pass, c, block, x.code, ordinal))
            && |x.code| > 0
            && (offset + 1 == plan.count ==> CarriesFrom(pass, c, block, x.code, ordinal) && EndsChain(c, x.value, x.code[|x.code| - 1]))
  {
    hide IndexCode, InnerCode, ObligationOf, Inner, Outer, CarriesFrom, TakesPlace, ProjectCode, ReplaceCode;
    var to := IndexCode(pass, c, block, ordinal, c.inputs[1], plan.dstOffset, offset);
    var from := IndexCode(pass, c, block, to.ordinal, c.inputs[3], plan.srcOffset, offset);
    IndexCarries(pass, c, block, ordinal, c.inputs[1], plan.dstOffset, offset);
    IndexCarries(pass, c, block, to.ordinal, c.inputs[3], plan.srcOffset, offset);
    InnerAppend(pass, c, block, to.code, from.code, ordinal);
    var final := offset + 1 == plan.count;
    ProjectCarries(pass, c, block, plan, from.ordinal, from.value);
    var project := ProjectCode(pass, c, block, from.ordinal, from.value);
    var replace := ReplaceCode(pass, c, block, from.ordinal + 1, final, current, to.value, ElementOf(project));
    PickedOffsets(pass, c, plan);
    InnerOne(pass, c, block, project, from.ordinal);
    InnerAppend(pass, c, block, to.code + from.code, [project], ordinal);
    var code := to.code + from.code + [project];
    assert to.code + from.code + [project, replace] == code + [replace];
    if final {
      LastReplaceCarries(pass, c, block, plan, from.ordinal + 1, current, to.value, ElementOf(project));
      CarriesLast(pass, c, block, code, replace, ordinal);
    } else {
      ReplaceCarries(pass, c, block, plan, from.ordinal + 1, current, to.value, ElementOf(project));
      InnerOne(pass, c, block, replace, from.ordinal + 1);
      InnerAppend(pass, c, block, code, [replace], ordinal);
    }
  }

  lemma ProjectCarries(pass: Pass, c: Instruction, block: Id, plan: Plan, ordinal: nat, index: Id)
    requires Picked(pass, c, plan)
    ensures |ProjectCode(pass, c, block, ordinal, index).outputs| == 1
    ensures Inner(pass, c, block, ProjectCode(pass, c, block, ordinal, index), ordinal)
  {
  }

  lemma ReplaceCarries(pass: Pass, c: Instruction, block: Id, plan: Plan, ordinal: nat, current: Id, at: Id, element: Id)
    requires Picked(pass, c, plan)
    ensures Inner(pass, c, block, ReplaceCode(pass, c, block, ordinal, false, current, at, element), ordinal)
  {
  }

  lemma LastReplaceCarries(pass: Pass, c: Instruction, block: Id, plan: Plan, ordinal: nat, current: Id, at: Id, element: Id)
    requires Picked(pass, c, plan)
    ensures var replace := ReplaceCode(pass, c, block, ordinal, true, current, at, element);
            Outer(pass, c, replace, ordinal) && EndsChain(c, replace.outputs[0].identity, replace)
  {
  }

  function ElementOf(project: Instruction): Id
    requires |project.outputs| == 1
  {
    project.outputs[0].identity
  }

  lemma PickedOffsets(pass: Pass, c: Instruction, plan: Plan)
    requires Picked(pass, c, plan) && plan.Unroll?
    ensures c.kind.Copy? && (pass.OffsetPass? || (plan.dstOffset.Some? && plan.srcOffset.Some?)) && (pass.OffsetPass? ==> c.kind.evidence.RuntimeChecked?)
  {
  }

  ghost predicate ChainIs(pass: Pass, c: Instruction, block: Id, code: seq<Instruction>, ordinal: nat, result: Id) {
    CarriesFrom(pass, c, block, code, ordinal) && code != [] && EndsChain(c, result, code[|code| - 1])
  }

  lemma ChainAfter(pass: Pass, c: Instruction, block: Id, a: seq<Instruction>, b: seq<Instruction>, ordinal: nat, result: Id)
    requires InnerCode(pass, c, block, a, ordinal) && ChainIs(pass, c, block, b, ordinal + |a|, result)
    ensures ChainIs(pass, c, block, a + b, ordinal, result)
  {
    hide InnerCode, CarriesFrom, EndsChain;
    CarriesAfter(pass, c, block, a, b, ordinal);
    assert (a + b)[|a + b| - 1] == b[|b| - 1];
  }

  lemma {:induction false} ChainCarries(pass: Pass, c: Instruction, block: Id, plan: Plan, offset: nat, current: Id, ordinal: nat)
    requires Picked(pass, c, plan) && plan.Unroll? && offset < plan.count
    ensures var x := ChainCode(pass, c, block, plan, offset, current, ordinal);
            && CarriesFrom(pass, c, block, x.code, ordinal) && ObligationsOf(c, x.obligations)
            && x.code != [] && EndsChain(c, x.result, x.code[|x.code| - 1])
    decreases plan.count - offset
  {
    hide StepCode, InnerCode, ObligationOf, EndsChain, CarriesFrom, Picked;
    PickedCopy(pass, c, plan);
    var step := StepCode(pass, c, block, plan, offset, current, ordinal);
    var rest := ChainCode(pass, c, block, plan, offset + 1, step.value, step.ordinal);
    StepCarries(pass, c, block, plan, offset, current, ordinal);
    if offset + 1 < plan.count {
      ChainCarries(pass, c, block, plan, offset + 1, step.value, step.ordinal);
      ChainAfter(pass, c, block, step.code, rest.code, ordinal, rest.result);
    } else {
      assert rest == Emission([], [], step.value);
      assert step.code + [] == step.code;
    }
  }

  lemma RebuildElementCarries(c: Instruction, block: Id, plan: Plan, k: nat)
    requires Picked(StaticPass, c, plan) && plan.Rebuild?
    ensures var code := RebuildElement(c, block, plan, k);
            |code| == 2 && Inner(StaticPass, c, block, code[0], 2 * k) && Inner(StaticPass, c, block, code[1], 2 * k + 1)
  {
  }

  lemma InnerTwo(pass: Pass, c: Instruction, block: Id, code: seq<Instruction>, start: nat)
    requires |code| == 2 && Inner(pass, c, block, code[0], start) && Inner(pass, c, block, code[1], start + 1)
    ensures InnerCode(pass, c, block, code, start)
  {
    hide Inner;
  }

  lemma {:induction false} RebuildElementsCarry(c: Instruction, block: Id, plan: Plan, count: nat)
    requires Picked(StaticPass, c, plan) && plan.Rebuild?
    ensures var code := RebuildElements(c, block, plan, count);
            |code| == 2 * count && InnerCode(StaticPass, c, block, code, 0)
    decreases count
  {
    hide Inner, RebuildElement;
    if count > 0 {
      var k := count - 1;
      var element := RebuildElement(c, block, plan, k);
      RebuildElementCarries(c, block, plan, k);
      InnerTwo(StaticPass, c, block, element, 2 * k);
      RebuildElementsCarry(c, block, plan, k);
      hide InnerCode;
      InnerAppend(StaticPass, c, block, RebuildElements(c, block, plan, k), element, 0);
    }
  }

  lemma RebuildCarries(c: Instruction, block: Id, plan: Plan)
    requires Picked(StaticPass, c, plan) && plan.Rebuild?
    ensures var x := RebuildCode(c, block, plan);
            && CarriesFrom(StaticPass, c, block, x.code, 0)
            && x.result == x.code[|x.code| - 1].identity && x.result.Generated? && x.result.role == RebuildResult
  {
    hide InnerCode, RebuildElements, RebuiltElements;
    var count := c.kind.dstBound.Max();
    RebuildElementsCarry(c, block, plan, count);
    var x := RebuildCode(c, block, plan);
    CarriesLast(StaticPass, c, block, RebuildElements(c, block, plan, count), x.code[|x.code| - 1], 0);
  }

  lemma DestinationViewCarries(c: Instruction, block: Id)
    requires c.kind.Copy? && |c.inputs| == 5 && c.kind.evidence.RuntimeChecked?
    ensures var code := ViewCode(c, block, false); |code| == 2 && Inner(OffsetPass, c, block, code[0], 0) && Inner(OffsetPass, c, block, code[1], 1)
  {
  }

  lemma SourceViewCarries(c: Instruction, block: Id)
    requires c.kind.Copy? && |c.inputs| == 5 && c.kind.evidence.RuntimeChecked?
    ensures var code := ViewCode(c, block, true); |code| == 2 && Inner(OffsetPass, c, block, code[0], 2) && Inner(OffsetPass, c, block, code[1], 3)
  {
  }

  lemma ChecksCarry(c: Instruction, block: Id)
    requires c.kind.Copy?
    ensures Inner(OffsetPass, c, block, CheckCode(c, block, false), 5) && Inner(OffsetPass, c, block, CheckCode(c, block, true), 6)
  {
  }

  /** The parts of the code for checked empty views. */
  lemma EmptyViewsParts(c: Instruction, block: Id) returns (condition: Instruction, select: Instruction)
    requires Picked(OffsetPass, c, EmptyViews)
    ensures Inner(OffsetPass, c, block, condition, 7) && Outer(OffsetPass, c, select, 8)
    ensures EmptyViewsCode(c, block).code ==
              ViewCode(c, block, false) + ViewCode(c, block, true) +
              ([ConstantCode(c.identity, block, 4, 0), CheckCode(c, block, false), CheckCode(c, block, true), condition] + [select])
    ensures EmptyViewsCode(c, block).result == select.identity && select.identity.Generated? && select.identity.role == EmptyViewsResult
  {
    hide ViewCode, CheckCode, ConstantCode;
    var x := EmptyViewsCode(c, block);
    condition, select := x.code[|x.code| - 2], x.code[|x.code| - 1];
    assert [ConstantCode(c.identity, block, 4, 0), CheckCode(c, block, false), CheckCode(c, block, true), condition, select] ==
           [ConstantCode(c.identity, block, 4, 0), CheckCode(c, block, false), CheckCode(c, block, true), condition] + [select];
  }

  lemma EmptyViewsCarry(c: Instruction, block: Id)
    requires Picked(OffsetPass, c, EmptyViews)
    ensures var x := EmptyViewsCode(c, block);
            && CarriesFrom(OffsetPass, c, block, x.code, 0)
            && x.result == x.code[|x.code| - 1].identity && x.result.Generated? && x.result.role == EmptyViewsResult
  {
    hide Inner, Outer, ViewCode, CheckCode, ConstantCode, EmptyViewsCode, CarriesFrom, InnerCode, Picked;
    PickedCopy(OffsetPass, c, EmptyViews);
    var condition, select := EmptyViewsParts(c, block);
    DestinationViewCarries(c, block);
    SourceViewCarries(c, block);
    ConstantCarries(OffsetPass, c, block, 4, 0);
    ChecksCarry(c, block);
    var a, b := ViewCode(c, block, false), ViewCode(c, block, true);
    var d := [ConstantCode(c.identity, block, 4, 0), CheckCode(c, block, false), CheckCode(c, block, true), condition];
    FourCarry(c, block, d);
    PartsCarry(c, block, a, b, d, select);
    assert EmptyViewsCode(c, block).code == a + b + (d + [select]);
  }

  lemma PickedCopy(pass: Pass, c: Instruction, plan: Plan)
    requires Picked(pass, c, plan)
    ensures c.kind.Copy? && |c.inputs| == 5 && |c.outputs| == 1 && (c.kind.evidence.RuntimeChecked? <==> !pass.StaticPass?)
  {
  }

  lemma FourCarry(c: Instruction, block: Id, d: seq<Instruction>)
    requires |d| == 4 && Inner(OffsetPass, c, block, d[0], 4) && Inner(OffsetPass, c, block, d[1], 5)
    requires Inner(OffsetPass, c, block, d[2], 6) && Inner(OffsetPass, c, block, d[3], 7)
    ensures InnerCode(OffsetPass, c, block, d, 4)
  {
    hide Inner;
  }

  lemma PartsCarry(c: Instruction, block: Id, a: seq<Instruction>, b: seq<Instruction>, d: seq<Instruction>, select: Instruction)
    requires |a| == 2 && Inner(OffsetPass, c, block, a[0], 0) && Inner(OffsetPass, c, block, a[1], 1)
    requires |b| == 2 && Inner(OffsetPass, c, block, b[0], 2) && Inner(OffsetPass, c, block, b[1], 3)
    requires |d| == 4 && InnerCode(OffsetPass, c, block, d, 4) && Outer(OffsetPass, c, select, 8)
    ensures CarriesFrom(OffsetPass, c, block, a + b + (d + [select]), 0)
    ensures var code := a + b + (d + [select]); code[|code| - 1] == select
  {
    hide Inner, Outer;
    InnerAppend(OffsetPass, c, block, a, b, 0);
    InnerAppend(OffsetPass, c, block, a + b, d, 0);
    assert a + b + (d + [select]) == a + b + d + [select];
    CarriesLast(OffsetPass, c, block, a + b + d, select, 0);
  }

  lemma EmptyParts(pass: Pass, c: Instruction, block: Id)
    requires Picked(pass, c, Empty)
    ensures var code := EmptyCode(pass, c, block).code;
            |code| == 2 && Inner(pass, c, block, code[0], 0) && Outer(pass, c, code[1], 1)
  {
  }

  lemma EmptyRole(pass: Pass, c: Instruction, block: Id)
    requires Picked(pass, c, Empty)
    ensures var x := EmptyCode(pass, c, block);
            |x.code| == 2 && x.result == x.code[1].identity && x.result.Generated? && x.result.role == if pass.StaticPass? then EmptyResult else RuntimeEmptyResult
  {
  }

  lemma EmptyCarries(pass: Pass, c: Instruction, block: Id)
    requires Picked(pass, c, Empty)
    ensures var x := EmptyCode(pass, c, block);
            && CarriesFrom(pass, c, block, x.code, 0)
            && x.result == x.code[|x.code| - 1].identity && x.result.Generated? && x.result.role == if pass.StaticPass? then EmptyResult else RuntimeEmptyResult
  {
    EmptyParts(pass, c, block);
    EmptyRole(pass, c, block);
    hide Inner, Outer, EmptyCode;
    var x := EmptyCode(pass, c, block);
    assert x.code == [x.code[0]] + [x.code[1]];
    InnerOne(pass, c, block, x.code[0], 0);
    CarriesLast(pass, c, block, [x.code[0]], x.code[1], 0);
  }

  lemma CarriesWhole(pass: Pass, c: Instruction, block: Id, code: seq<Instruction>)
    requires c.kind.Copy? && CarriesFrom(pass, c, block, code, 0)
    ensures Carries(pass, c, block, code)
    ensures var last := code[|code| - 1]; TakesPlace(c, last) && OuterIs(pass, c, last.identity.role, last.kind, last.failure)
  {
    hide InnerCode, OuterIs;
  }

  /** The role of what takes a copy's place, for each plan, and what the emission names. */
  ghost predicate Ends(pass: Pass, c: Instruction, plan: Plan, result: Id, last: Instruction) {
    match plan
    case Keep => false
    case Empty => last.identity.Generated? && last.identity.role == (if pass.StaticPass? then EmptyResult else RuntimeEmptyResult) && result == last.identity
    case Rebuild(_, _, _) => last.identity.Generated? && last.identity.role == RebuildResult && result == last.identity
    case Unroll(_, _, _) => EndsChain(c, result, last)
    case EmptyViews => last.identity.Generated? && last.identity.role == EmptyViewsResult && result == last.identity
  }

  lemma RuleMeans(pass: Pass, c: Instruction, plan: Plan, last: Instruction)
    requires !plan.Keep? && last.identity.Generated? && RoleIs(pass, plan, last.identity.role)
    ensures RuleOf(pass, plan) == RuleNamed(last.identity.role)
  {
  }

  /** The role of what takes the place of a copy under a plan. */
  ghost predicate RoleIs(pass: Pass, plan: Plan, role: Role) {
    match plan
    case Keep => false
    case Empty => role == if pass.StaticPass? then EmptyResult else RuntimeEmptyResult
    case Rebuild(_, _, _) => role == RebuildResult
    case Unroll(_, _, _) => (pass.StaticPass? && role == StaticResult) || (pass.WindowPass? && role == RuntimeResult) || (pass.OffsetPass? && role == OffsetResult)
    case EmptyViews => role == EmptyViewsResult
  }

  lemma RoleMeans(pass: Pass, c: Instruction, plan: Plan, result: Id, last: Instruction)
    requires Picked(pass, c, plan) && Ends(pass, c, plan, result, last) && OuterIs(pass, c, last.identity.role, last.kind, last.failure)
    ensures RoleIs(pass, plan, last.identity.role)
  {
    hide Planned;
  }

  lemma RecordMeans(pass: Pass, c: Instruction, plan: Plan, x: Emission, last: Instruction)
    requires Picked(pass, c, plan) && TakesPlace(c, last) && Ends(pass, c, plan, x.result, last)
    requires RuleOf(pass, plan) == RuleNamed(last.identity.role)
    ensures Records(RecordOf(c, x, RuleOf(pass, plan)), c, last, IdentitiesOf(x.obligations))
  {
    hide IdentitiesOf, RuleNamed, RuleOf;
  }

  lemma PlanEnds(pass: Pass, c: Instruction, block: Id, plan: Plan)
    requires Picked(pass, c, plan)
    ensures var x := PlanCode(pass, c, block, plan);
            && CarriesFrom(pass, c, block, x.code, 0) && x.code != [] && ObligationsOf(c, x.obligations)
            && Ends(pass, c, plan, x.result, x.code[|x.code| - 1])
  {
    hide ChainCode, EmptyCode, EmptyViewsCode, RebuildCode, InnerCode, Outer;
    match plan
    case Empty =>
      EmptyCarries(pass, c, block);
      EmptyOwesNothing(pass, c, block);
    case Rebuild(_, _, _) =>
      RebuildCarries(c, block, plan);
      RebuildOwesNothing(c, block, plan);
    case Unroll(_, _, _) =>
      ChainCarries(pass, c, block, plan, 0, c.inputs[0], 0);
    case EmptyViews =>
      EmptyViewsCarry(c, block);
      EmptyOwesNothing(pass, c, block);
  }

  /** Whatever a pass emits for a copy takes its place, and its record and obligations say so. */
  lemma PlanCarries(pass: Pass, c: Instruction, block: Id, plan: Plan)
    requires Picked(pass, c, plan)
    ensures var x := PlanCode(pass, c, block, plan);
            && Carries(pass, c, block, x.code) && ObligationsOf(c, x.obligations)
            && Records(RecordOf(c, x, RuleOf(pass, plan)), c, x.code[|x.code| - 1], IdentitiesOf(x.obligations))
            && RoleIs(pass, plan, x.code[|x.code| - 1].identity.role)
  {
    hide PlanCode, CarriesFrom, Records, RecordOf, RuleOf, RuleNamed, RoleIs, Carries, IdentitiesOf, OuterIs, TakesPlace, Ends, ObligationOf;
    var x := PlanCode(pass, c, block, plan);
    PlanEnds(pass, c, block, plan);
    CarriesWhole(pass, c, block, x.code);
    var last := x.code[|x.code| - 1];
    PlaceIsNamed(c, last);
    RoleMeans(pass, c, plan, x.result, last);
    RuleMeans(pass, c, plan, last);
    RecordMeans(pass, c, plan, x, last);
  }

  lemma PlaceIsNamed(c: Instruction, i: Instruction)
    requires TakesPlace(c, i)
    ensures i.identity.Generated?
  {
  }

  lemma RebuildOwesNothing(c: Instruction, block: Id, plan: Plan)
    requires c.kind.Copy? && |c.inputs| == 5 && |c.outputs| == 1 && plan.Rebuild?
    ensures RebuildCode(c, block, plan).obligations == []
  {
    hide RebuildElements;
  }

  lemma EmptyOwesNothing(pass: Pass, c: Instruction, block: Id)
    requires c.kind.Copy? && |c.inputs| == 5 && |c.outputs| == 1
    ensures EmptyCode(pass, c, block).obligations == [] && EmptyViewsCode(c, block).obligations == []
  {
  }
}
