/** Lowering keeps a program in SSA form: every name is defined once and before its uses, generated
    names are new, and each checked addition carries exactly one obligation. */
module CopyNames {
  import opened Prelude
  import opened SsaSyntax
  import opened CopyLowering

  // ----- The names a program defines -----

  function ValueNames(values: seq<SsaValue>): (r: seq<Id>)
    ensures |r| == |values| && forall k :: 0 <= k < |r| ==> r[k] == values[k].identity
  {
    seq(|values|, k requires 0 <= k < |values| => values[k].identity)
  }

  /** An instruction's own identity and the names of its results. */
  function InstructionNames(i: Instruction): seq<Id> {
    [i.identity] + ValueNames(i.outputs)
  }

  function CodeNames(code: seq<Instruction>): seq<Id> {
    if code == [] then [] else InstructionNames(code[0]) + CodeNames(code[1..])
  }

  function BlockNames(b: Block): seq<Id> {
    ValueNames(b.parameters) + CodeNames(b.instructions)
  }

  function BlocksNames(blocks: seq<Block>): seq<Id> {
    if blocks == [] then [] else BlockNames(blocks[0]) + BlocksNames(blocks[1..])
  }

  function FunctionNames(f: Function): seq<Id> {
    ValueNames(f.inputs) + BlocksNames(f.blocks)
  }

  function ProgramNames(program: seq<Function>): seq<Id> {
    if program == [] then [] else FunctionNames(program[0]) + ProgramNames(program[1..])
  }

  /** Names generated earlier belong to copies that are gone. */
  ghost predicate Fresh(names: seq<Id>) {
    forall n :: n in names && n.Generated? ==> n.owner.Source? && n.owner !in names
  }

  predicate SourceCopies(code: seq<Instruction>) {
    forall k :: 0 <= k < |code| && code[k].kind.Copy? ==> code[k].identity.Source?
  }

  lemma {:induction false} CodeNamesAppend(a: seq<Instruction>, b: seq<Instruction>)
    ensures CodeNames(a + b) == CodeNames(a) + CodeNames(b)
    decreases |a|
  {
    if a == [] {
      assert a + b == b;
    } else {
      assert (a + b)[0] == a[0] && (a + b)[1..] == a[1..] + b;
      CodeNamesAppend(a[1..], b);
      assert CodeNames(a + b) == InstructionNames(a[0]) + (CodeNames(a[1..]) + CodeNames(b));
    }
  }

  // ----- Generated names ascend -----

  predicate ValueRole(role: Role) {
    match role
    case ConstantValue => true
    case EmptyConditionValue => true
    case RebuildProjectValue => true
    case StaticProjectValue => true
    case StaticReplaceValue => true
    case RuntimeEmptyConditionValue => true
    case RuntimeProjectValue => true
    case RuntimeReplaceValue => true
    case OffsetProjectValue => true
    case OffsetReplaceValue => true
    case OffsetAddValue => true
    case EmptyDestinationViewValue => true
    case EmptyDestinationLengthValue => true
    case EmptyDestinationCheckValue => true
    case EmptySourceViewValue => true
    case EmptySourceLengthValue => true
    case EmptySourceCheckValue => true
    case EmptyViewsConditionValue => true
    case _ => false
  }

  /** An operation takes ordinal o and its value o + 1, so ranks are even and then odd. */
  function Rank(n: Id): int
    requires n.Generated?
  {
    if ValueRole(n.role) then 2 * n.ordinal - 1 else 2 * n.ordinal
  }

  ghost predicate Owned(names: seq<Id>, owner: Id, low: int, high: int) {
    forall k :: 0 <= k < |names| ==> names[k].Generated? && names[k].owner == owner && low <= Rank(names[k]) < high
  }

  /** All generated for `owner`, with ranks from `low` up to but not including `high`, rising. */
  ghost predicate Ascending(names: seq<Id>, owner: Id, low: int, high: int) {
    && Owned(names, owner, low, high)
    && forall i, j :: 0 <= i < j < |names| ==> Rank(names[i]) < Rank(names[j])
  }

  lemma AscendingAppend(a: seq<Id>, b: seq<Id>, owner: Id, low: int, middle: int, high: int)
    requires Ascending(a, owner, low, middle) && Ascending(b, owner, middle, high) && low <= middle <= high
    ensures Ascending(a + b, owner, low, high)
  {
    var s := a + b;
    forall k | 0 <= k < |s| ensures s[k].Generated? && s[k].owner == owner && low <= Rank(s[k]) < high {
      assert s[k] == if k < |a| then a[k] else b[k - |a|];
    }
    forall i, j | 0 <= i < j < |s| ensures Rank(s[i]) < Rank(s[j]) {
      assert s[i] == if i < |a| then a[i] else b[i - |a|];
      assert s[j] == if j < |a| then a[j] else b[j - |a|];
    }
  }

  /** An operation that takes an ordinal and its generated value, which takes the next. */
  ghost predicate Allots(i: Instruction, owner: Id, ordinal: nat) {
    && |i.outputs| == 1
    && i.identity.Generated? && i.identity.owner == owner && i.identity.ordinal == ordinal && !ValueRole(i.identity.role)
    && var v := i.outputs[0].identity;
       v.Generated? && v.owner == owner && v.ordinal == ordinal + 1 && ValueRole(v.role)
  }

  lemma SingleNames(i: Instruction)
    requires |i.outputs| == 1
    ensures CodeNames([i]) == [i.identity, i.outputs[0].identity]
  {
    assert [i][1..] == [];
  }

  lemma AllotmentAscends(i: Instruction, owner: Id, ordinal: nat)
    requires Allots(i, owner, ordinal)
    ensures Ascending(CodeNames([i]), owner, 2 * ordinal, 2 * ordinal + 2)
  {
    SingleNames(i);
  }

  ghost predicate Rises(code: seq<Instruction>, owner: Id, from: nat, to: nat) {
    from <= to && Ascending(CodeNames(code), owner, 2 * from, 2 * to)
  }

  lemma RisesAppend(a: seq<Instruction>, b: seq<Instruction>, owner: Id, from: nat, middle: nat, to: nat)
    requires Rises(a, owner, from, middle) && Rises(b, owner, middle, to)
    ensures Rises(a + b, owner, from, to)
  {
    hide Rank;
    CodeNamesAppend(a, b);
    AscendingAppend(CodeNames(a), CodeNames(b), owner, 2 * from, 2 * middle, 2 * to);
  }

  lemma RisesOne(i: Instruction, owner: Id, ordinal: nat)
    requires Allots(i, owner, ordinal)
    ensures Rises([i], owner, ordinal, ordinal + 1)
  {
    AllotmentAscends(i, owner, ordinal);
  }

  /** Generated code, then one instruction under a new name that defines the copy's own result. */
  ghost predicate Finishes(code: seq<Instruction>, c: Instruction, from: nat)
    requires |c.outputs| == 1
  {
    && code != []
    && var last := code[|code| - 1];
       && |last.outputs| == 1 && last.outputs[0].identity == c.outputs[0].identity
       && last.identity.Generated? && last.identity.owner == c.identity && !ValueRole(last.identity.role)
       && Rises(code[..|code| - 1], c.identity, from, last.identity.ordinal)
  }

  lemma FinishesAfter(a: seq<Instruction>, b: seq<Instruction>, c: Instruction, from: nat, middle: nat)
    requires |c.outputs| == 1 && Rises(a, c.identity, from, middle) && Finishes(b, c, middle)
    ensures Finishes(a + b, c, from)
  {
    hide Rises;
    RisesAppend(a, b[..|b| - 1], c.identity, from, middle, b[|b| - 1].identity.ordinal);
    assert (a + b)[..|a + b| - 1] == a + b[..|b| - 1];
  }

  lemma FinishesOne(i: Instruction, c: Instruction, ordinal: nat)
    requires |c.outputs| == |i.outputs| == 1 && i.outputs[0].identity == c.outputs[0].identity
    requires i.identity.Generated? && i.identity.owner == c.identity && !ValueRole(i.identity.role)
    requires i.identity.ordinal == ordinal
    ensures Finishes([i], c, ordinal)
  {
    assert [i][..0] == [];
  }

  /** All names that finished code defines are different. */
  lemma FinishedNames(code: seq<Instruction>, c: Instruction, from: nat)
    requires |c.outputs| == 1 && Finishes(code, c, from)
    ensures exists generated :: CodeNames(code) == generated + [c.outputs[0].identity]
                             && Distinct(generated) && forall n :: n in generated ==> n.Generated? && n.owner == c.identity
  {
    var before, last := code[..|code| - 1], code[|code| - 1];
    assert code == before + [last];
    CodeNamesAppend(before, [last]);
    SingleNames(last);
    var o := last.identity.ordinal;
    AscendingAppend(CodeNames(before), [last.identity], c.identity, 2 * from, 2 * o, 2 * o + 1);
    var generated := CodeNames(before) + [last.identity];
    assert CodeNames(code) == generated + [c.outputs[0].identity];
  }

  // ----- The code of each plan -----

  lemma IndexRises(pass: Pass, c: Instruction, block: Id, ordinal: nat, base: Id, constant: Option<nat>, increment: nat)
    requires c.kind.Copy?
    ensures var x := IndexCode(pass, c, block, ordinal, base, constant, increment); Rises(x.code, c.identity, ordinal, x.ordinal)
  {
    hide Rises, Allots, ConstantCode, AddCode, ValueRole;
    var x := IndexCode(pass, c, block, ordinal, base, constant, increment);
    if x.code == [] {
      RisesNothing(c.identity, ordinal);
    } else {
      ConstantAllots(c.identity, block, ordinal);
      RisesOne(x.code[0], c.identity, ordinal);
      if |x.code| == 2 {
        AddAllots(c.identity, block, ordinal + 1);
        RisesOne(x.code[1], c.identity, ordinal + 1);
        RisesAppend([x.code[0]], [x.code[1]], c.identity, ordinal, ordinal + 1, ordinal + 2);
        assert x.code == [x.code[0]] + [x.code[1]];
      } else {
        assert x.code == [x.code[0]];
      }
    }
  }

  lemma ConstantAllots(owner: Id, block: Id, ordinal: nat)
    ensures forall value: nat :: Allots(ConstantCode(owner, block, ordinal, value), owner, ordinal)
  {
  }

  lemma AddAllots(owner: Id, block: Id, ordinal: nat)
    ensures forall base, increment, failure :: Allots(AddCode(owner, block, ordinal, base, increment, failure), owner, ordinal)
  {
  }

  lemma RisesNothing(owner: Id, ordinal: nat)
    ensures Rises([], owner, ordinal, ordinal)
  {
  }

  /** A step rises, and the last one finishes. */
  lemma StepRises(pass: Pass, c: Instruction, block: Id, plan: Plan, offset: nat, current: Id, ordinal: nat)
    requires c.kind.Copy? && |c.inputs| == 5 && |c.outputs| == 1 && plan.Unroll? && offset < plan.count
    ensures var x := StepCode(pass, c, block, plan, offset, current, ordinal);
            if offset + 1 < plan.count then Rises(x.code, c.identity, ordinal, x.ordinal) else Finishes(x.code, c, ordinal)
  {
    hide IndexCode, Rises, Finishes;
    var x := StepCode(pass, c, block, plan, offset, current, ordinal);
    var to := IndexCode(pass, c, block, ordinal, c.inputs[1], plan.dstOffset, offset);
    var from := IndexCode(pass, c, block, to.ordinal, c.inputs[3], plan.srcOffset, offset);
    var project := ProjectCode(pass, c, block, from.ordinal, from.value);
    var replace := ReplaceCode(pass, c, block, from.ordinal + 1, offset + 1 == plan.count, current, to.value, project.outputs[0].identity);
    IndexRises(pass, c, block, ordinal, c.inputs[1], plan.dstOffset, offset);
    IndexRises(pass, c, block, to.ordinal, c.inputs[3], plan.srcOffset, offset);
    RisesAppend(to.code, from.code, c.identity, ordinal, to.ordinal, from.ordinal);
    RisesOne(project, c.identity, from.ordinal);
    var before := to.code + from.code + [project];
    RisesAppend(to.code + from.code, [project], c.identity, ordinal, from.ordinal, from.ordinal + 1);
    assert x.code == before + [replace];
    if offset + 1 < plan.count {
      RisesOne(replace, c.identity, from.ordinal + 1);
      RisesAppend(before, [replace], c.identity, ordinal, from.ordinal + 1, from.ordinal + 2);
    } else {
      FinishesOne(replace, c, from.ordinal + 1);
      FinishesAfter(before, [replace], c, ordinal, from.ordinal + 1);
    }
  }

  lemma {:induction false} ChainFinishes(pass: Pass, c: Instruction, block: Id, plan: Plan, offset: nat, current: Id, ordinal: nat)
    requires c.kind.Copy? && |c.inputs| == 5 && |c.outputs| == 1 && plan.Unroll? && offset < plan.count
    ensures Finishes(ChainCode(pass, c, block, plan, offset, current, ordinal).code, c, ordinal)
    decreases plan.count - offset
  {
    hide StepCode, Rises, Finishes;
    var x := StepCode(pass, c, block, plan, offset, current, ordinal);
    var rest := ChainCode(pass, c, block, plan, offset + 1, x.value, x.ordinal);
    StepRises(pass, c, block, plan, offset, current, ordinal);
    if offset + 1 == plan.count {
      assert x.code + rest.code == x.code;
    } else {
      ChainFinishes(pass, c, block, plan, offset + 1, x.value, x.ordinal);
      FinishesAfter(x.code, rest.code, c, ordinal, x.ordinal);
    }
  }

  lemma {:induction false} RebuildElementsRise(c: Instruction, block: Id, plan: Plan, count: nat)
    requires c.kind.Copy? && |c.inputs| == 5 && plan.Rebuild?
    ensures Rises(RebuildElements(c, block, plan, count), c.identity, 0, 2 * count)
  {
    hide Rises;
    if count == 0 {
      RisesNothing(c.identity, 0);
    } else {
      RebuildElementsRise(c, block, plan, count - 1);
      var before, last := RebuildElements(c, block, plan, count - 1), RebuildElement(c, block, plan, count - 1);
      RisesOne(last[0], c.identity, 2 * count - 2);
      RisesOne(last[1], c.identity, 2 * count - 1);
      RisesAppend([last[0]], [last[1]], c.identity, 2 * count - 2, 2 * count - 1, 2 * count);
      assert last == [last[0]] + [last[1]];
      RisesAppend(before, last, c.identity, 0, 2 * count - 2, 2 * count);
    }
  }

  lemma RebuildFinishes(c: Instruction, block: Id, plan: Plan)
    requires c.kind.Copy? && |c.inputs| == 5 && |c.outputs| == 1 && plan.Rebuild?
    ensures Finishes(RebuildCode(c, block, plan).code, c, 0)
  {
    hide RebuildElements, Rises, Finishes;
    var count := c.kind.dstBound.Max();
    var elements, code := RebuildElements(c, block, plan, count), RebuildCode(c, block, plan).code;
    RebuildElementsRise(c, block, plan, count);
    FinishesOne(code[|elements|], c, 2 * count);
    FinishesAfter(elements, [code[|elements|]], c, 0, 2 * count);
    assert code == elements + [code[|elements|]];
  }

  lemma EmptyFinishes(pass: Pass, c: Instruction, block: Id)
    requires c.kind.Copy? && |c.inputs| == 5 && |c.outputs| == 1
    ensures Finishes(EmptyCode(pass, c, block).code, c, 0)
  {
    hide Rises, Finishes;
    var code := EmptyCode(pass, c, block).code;
    RisesOne(code[0], c.identity, 0);
    FinishesOne(code[1], c, 1);
    FinishesAfter([code[0]], [code[1]], c, 0, 1);
    assert code == [code[0]] + [code[1]];
  }

  lemma {:induction false} AllotmentsFinish(code: seq<Instruction>, c: Instruction, from: nat)
    requires |c.outputs| == 1 && code != []
    requires forall k :: 0 <= k < |code| - 1 ==> Allots(code[k], c.identity, from + k)
    requires Finishes([code[|code| - 1]], c, from + |code| - 1)
    ensures Finishes(code, c, from)
    decreases |code|
  {
    hide Rises, Finishes;
    if |code| == 1 {
      assert code == [code[0]];
    } else {
      RisesOne(code[0], c.identity, from);
      AllotmentsFinish(code[1..], c, from + 1);
      FinishesAfter([code[0]], code[1..], c, from, from + 1);
      assert code == [code[0]] + code[1..];
    }
  }

  lemma ViewAllots(c: Instruction, block: Id, source: bool)
    requires c.kind.Copy? && |c.inputs| == 5
    ensures var code, ordinal := ViewCode(c, block, source), if source then 2 else 0;
            |code| == 2 && Allots(code[0], c.identity, ordinal) && Allots(code[1], c.identity, ordinal + 1)
  {
  }

  lemma CheckAllots(c: Instruction, block: Id, source: bool)
    ensures Allots(CheckCode(c, block, source), c.identity, if source then 6 else 5)
  {
  }

  lemma ViewsThenChecks(c: Instruction, block: Id)
    requires c.kind.Copy? && |c.inputs| == 5 && |c.outputs| == 1
    ensures var code := EmptyViewsCode(c, block).code;
            |code| == 9 && code == ViewCode(c, block, false) + ViewCode(c, block, true) + code[4..]
  {
    hide CheckCode;
  }

  lemma ChecksParts(c: Instruction, block: Id)
    requires c.kind.Copy? && |c.inputs| == 5 && |c.outputs| == 1
    ensures |EmptyViewsCode(c, block).code| == 9
    ensures var rest := EmptyViewsCode(c, block).code[4..];
            && |rest| == 5 && rest[0] == ConstantCode(c.identity, block, 4, 0)
            && rest[1] == CheckCode(c, block, false) && rest[2] == CheckCode(c, block, true) && Allots(rest[3], c.identity, 7)
            && |rest[4].outputs| == 1 && rest[4].outputs[0].identity == c.outputs[0].identity
            && rest[4].identity == Generated(c.identity, EmptyViewsResult, 8)
            && !ValueRole(rest[4].identity.role)
  {
    hide ViewCode, CheckCode, ConstantCode;
    ViewAllots(c, block, false);
    ViewAllots(c, block, true);
  }

  lemma ChecksFinish(c: Instruction, block: Id)
    requires c.kind.Copy? && |c.inputs| == 5 && |c.outputs| == 1
    ensures Finishes(EmptyViewsCode(c, block).code[4..], c, 4)
  {
    hide Rises, Finishes, EmptyViewsCode, Allots, ValueRole, CheckCode, ConstantCode;
    ChecksParts(c, block);
    CheckAllots(c, block, false);
    CheckAllots(c, block, true);
    ConstantAllots(c.identity, block, 4);
    var rest := EmptyViewsCode(c, block).code[4..];
    FinishesOne(rest[4], c, 8);
    assert [rest[4]] == [rest[|rest| - 1]];
    AllotmentsFinish(rest, c, 4);
  }

  lemma EmptyViewsFinish(c: Instruction, block: Id)
    requires c.kind.Copy? && |c.inputs| == 5 && |c.outputs| == 1
    ensures Finishes(EmptyViewsCode(c, block).code, c, 0)
  {
    hide Rises, Finishes, ViewCode, CheckCode, EmptyViewsCode;
    var code := EmptyViewsCode(c, block).code;
    var destination, source := ViewCode(c, block, false), ViewCode(c, block, true);
    ViewAllots(c, block, false);
    ViewAllots(c, block, true);
    ViewsThenChecks(c, block);
    var rest := code[4..];
    ChecksFinish(c, block);
    RisesOne(source[0], c.identity, 2);
    RisesOne(source[1], c.identity, 3);
    RisesAppend([source[0]], [source[1]], c.identity, 2, 3, 4);
    assert source == [source[0]] + [source[1]];
    RisesOne(destination[0], c.identity, 0);
    RisesOne(destination[1], c.identity, 1);
    RisesAppend([destination[0]], [destination[1]], c.identity, 0, 1, 2);
    assert destination == [destination[0]] + [destination[1]];
    RisesAppend(destination, source, c.identity, 0, 2, 4);
    FinishesAfter(destination + source, rest, c, 0, 4);
  }

  lemma PlanFinishes(pass: Pass, c: Instruction, block: Id, plan: Plan)
    requires c.kind.Copy? && |c.inputs| == 5 && |c.outputs| == 1 && Planned(plan)
    ensures Finishes(PlanCode(pass, c, block, plan).code, c, 0)
  {
    match plan
    case Empty => EmptyFinishes(pass, c, block);
    case Rebuild(_, _, _) => RebuildFinishes(c, block, plan);
    case Unroll(_, _, _) => ChainFinishes(pass, c, block, plan, 0, c.inputs[0], 0);
    case EmptyViews => EmptyViewsFinish(c, block);
  }

  // ----- Lowering a whole program keeps names apart -----

  /** `R` is what became of the names `N`: some of them, and names generated for instructions
      that are no longer there; all different. */
  ghost predicate Renames(N: seq<Id>, R: seq<Id>) {
    && Distinct(R)
    && forall n :: n in R ==> n in N || (n.Generated? && n.owner.Source? && n.owner in N && n.owner !in R)
  }

  /** The names a pass starts from. */
  ghost predicate Apart(N: seq<Id>) {
    Distinct(N) && Fresh(N)
  }

  lemma ApartParts(a: seq<Id>, b: seq<Id>)
    requires Apart(a + b)
    ensures Apart(a) && Apart(b) && Disjoint(a, b)
    ensures forall n :: n in a + b && n.Generated? ==> n.owner !in a && n.owner !in b
  {
    DistinctAppend(a, b);
    assert forall n :: n in a || n in b ==> n in a + b;
  }

  lemma RenamesAppend(a: seq<Id>, b: seq<Id>, a': seq<Id>, b': seq<Id>)
    requires Apart(a + b) && Renames(a, a') && Renames(b, b')
    ensures Renames(a + b, a' + b')
  {
    ApartParts(a, b);
    assert forall n :: n in a || n in b ==> n in a + b;
    forall x | x in a' ensures x !in b' {
      if x in a {
        assert x !in b && (x.Generated? ==> x.owner !in b);
      } else {
        assert x.owner in a && x.owner !in b;
        assert x in b ==> x in a + b;
      }
    }
    DistinctAppend(a', b');
  }

  lemma RenamesNothing(N: seq<Id>)
    requires Apart(N)
    ensures Renames(N, N)
  {
  }

  lemma OneRenames(pass: Pass, ctx: Context, block: Id, i: Instruction)
    requires LowerInstruction(pass, ctx, block, i).Ok? && Apart(InstructionNames(i))
    requires i.kind.Copy? ==> i.identity.Source?
    ensures Renames(InstructionNames(i), CodeNames(LowerInstruction(pass, ctx, block, i).value.items))
  {
    hide DecideStatic, DecideWindow, DecideOffset, PlanCode, Finishes;
    var plan := Decide(pass, ctx, i).value;
    if plan.Keep? {
      assert [i][1..] == [];
      assert CodeNames([i]) == InstructionNames(i);
    } else {
      DecidesPlanned(pass, ctx, i);
      PlanFinishes(pass, i, block, plan);
      var code := PlanCode(pass, i, block, plan).code;
      FinishedNames(code, i, 0);
      var out := i.outputs[0].identity;
      var generated :| CodeNames(code) == generated + [out]
                    && Distinct(generated) && forall n :: n in generated ==> n.Generated? && n.owner == i.identity;
      var N := InstructionNames(i);
      assert N[0] == i.identity && N[1] == out;
      DistinctAppend(generated, [out]);
    }
  }

  lemma {:induction false} CodeRenames(pass: Pass, ctx: Context, block: Id, code: seq<Instruction>)
    requires LowerInstructions(pass, ctx, block, code).Ok? && Apart(CodeNames(code)) && SourceCopies(code)
    ensures Renames(CodeNames(code), CodeNames(LowerInstructions(pass, ctx, block, code).value.items))
    decreases |code|
  {
    hide LowerInstruction, Renames, Apart;
    if code == [] {
      RenamesNothing([]);
    } else {
      var first, rest := LowerInstruction(pass, ctx, block, code[0]).value, LowerInstructions(pass, ctx, block, code[1..]).value;
      ApartParts(InstructionNames(code[0]), CodeNames(code[1..]));
      OneRenames(pass, ctx, block, code[0]);
      CodeRenames(pass, ctx, block, code[1..]);
      RenamesAppend(InstructionNames(code[0]), CodeNames(code[1..]), CodeNames(first.items), CodeNames(rest.items));
      CodeNamesAppend(first.items, rest.items);
    }
  }

  lemma BlockRenames(pass: Pass, ctx: Context, b: Block)
    requires LowerBlock(pass, ctx, b).Ok? && Apart(BlockNames(b)) && SourceCopies(b.instructions)
    ensures Renames(BlockNames(b), BlocksNames(LowerBlock(pass, ctx, b).value.items))
  {
    hide LowerInstructions, Renames, Apart;
    var lowered := LowerBlock(pass, ctx, b).value.items;
    ApartParts(ValueNames(b.parameters), CodeNames(b.instructions));
    RenamesNothing(ValueNames(b.parameters));
    CodeRenames(pass, ctx, b.identity, b.instructions);
    RenamesAppend(ValueNames(b.parameters), CodeNames(b.instructions), ValueNames(b.parameters), CodeNames(lowered[0].instructions));
    assert lowered[1..] == [];
    assert BlocksNames(lowered) == BlockNames(lowered[0]);
  }

  lemma {:induction false} BlocksNamesAppend(a: seq<Block>, b: seq<Block>)
    ensures BlocksNames(a + b) == BlocksNames(a) + BlocksNames(b)
    decreases |a|
  {
    if a == [] {
      assert a + b == b;
    } else {
      assert (a + b)[0] == a[0] && (a + b)[1..] == a[1..] + b;
      BlocksNamesAppend(a[1..], b);
      assert BlocksNames(a + b) == BlockNames(a[0]) + (BlocksNames(a[1..]) + BlocksNames(b));
    }
  }

  ghost predicate SourceCopiesIn(blocks: seq<Block>) {
    forall k :: 0 <= k < |blocks| ==> SourceCopies(blocks[k].instructions)
  }

  lemma {:induction false} BlocksRename(pass: Pass, ctx: Context, blocks: seq<Block>)
    requires LowerBlocks(pass, ctx, blocks).Ok? && Apart(BlocksNames(blocks)) && SourceCopiesIn(blocks)
    ensures Renames(BlocksNames(blocks), BlocksNames(LowerBlocks(pass, ctx, blocks).value.items))
    decreases |blocks|
  {
    hide LowerBlock, Renames, Apart, BlockNames;
    if blocks == [] {
      RenamesNothing([]);
    } else {
      var first, rest := LowerBlock(pass, ctx, blocks[0]).value, LowerBlocks(pass, ctx, blocks[1..]).value;
      ApartParts(BlockNames(blocks[0]), BlocksNames(blocks[1..]));
      BlockRenames(pass, ctx, blocks[0]);
      BlocksRename(pass, ctx, blocks[1..]);
      RenamesAppend(BlockNames(blocks[0]), BlocksNames(blocks[1..]), BlocksNames(first.items), BlocksNames(rest.items));
      BlocksNamesAppend(first.items, rest.items);
    }
  }

  lemma FunctionRenames(pass: Pass, f: Function)
    requires LowerFunction(pass, f).Ok? && Apart(FunctionNames(f)) && SourceCopiesIn(f.blocks)
    ensures Renames(FunctionNames(f), ProgramNames(LowerFunction(pass, f).value.items))
  {
    hide LowerBlocks, Renames, Apart, Collect;
    var lowered := LowerFunction(pass, f).value.items;
    ApartParts(ValueNames(f.inputs), BlocksNames(f.blocks));
    RenamesNothing(ValueNames(f.inputs));
    BlocksRename(pass, Collect(f), f.blocks);
    RenamesAppend(ValueNames(f.inputs), BlocksNames(f.blocks), ValueNames(f.inputs), BlocksNames(lowered[0].blocks));
    assert lowered[1..] == [];
    assert ProgramNames(lowered) == FunctionNames(lowered[0]);
  }

  lemma {:induction false} ProgramNamesAppend(a: seq<Function>, b: seq<Function>)
    ensures ProgramNames(a + b) == ProgramNames(a) + ProgramNames(b)
    decreases |a|
  {
    if a == [] {
      assert a + b == b;
    } else {
      assert (a + b)[0] == a[0] && (a + b)[1..] == a[1..] + b;
      ProgramNamesAppend(a[1..], b);
      assert ProgramNames(a + b) == FunctionNames(a[0]) + (ProgramNames(a[1..]) + ProgramNames(b));
    }
  }

  /** Every name is defined once, and names generated by an earlier pass stay out of the way. */
  ghost predicate NamedApart(program: seq<Function>) {
    Apart(ProgramNames(program)) && forall k :: 0 <= k < |program| ==> SourceCopiesIn(program[k].blocks)
  }

  /** A pass defines every name once, and every new name is generated for a copy it removed. */
  lemma {:induction false} ProgramRenames(pass: Pass, program: seq<Function>)
    requires LowerFunctions(pass, program).Ok? && NamedApart(program)
    ensures Renames(ProgramNames(program), ProgramNames(LowerFunctions(pass, program).value.items))
    decreases |program|
  {
    hide LowerFunction, Renames, Apart, FunctionNames;
    if program == [] {
      RenamesNothing([]);
    } else {
      var first, rest := LowerFunction(pass, program[0]).value, LowerFunctions(pass, program[1..]).value;
      ApartParts(FunctionNames(program[0]), ProgramNames(program[1..]));
      FunctionRenames(pass, program[0]);
      ProgramRenames(pass, program[1..]);
      RenamesAppend(FunctionNames(program[0]), ProgramNames(program[1..]), ProgramNames(first.items), ProgramNames(rest.items));
      ProgramNamesAppend(first.items, rest.items);
    }
  }

  /** What a pass leaves can be the input of the next one, as far as names go. */
  lemma RenamedApart(N: seq<Id>, R: seq<Id>)
    requires Apart(N) && Renames(N, R)
    ensures Apart(R)
  {
    forall n | n in R && n.Generated? ensures n.owner.Source? && n.owner !in R {
      if n in N {
        var o := n.owner;
        assert o.Source? && o !in N;
        assert o in R ==> o in N || o.Generated?;
      }
    }
  }

  // ----- Emitted code holds no copies, calls or opaque operations -----

  predicate Simple(i: Instruction) {
    !i.kind.Copy? && !i.kind.Call? && !i.kind.Other?
  }

  predicate AllSimple(code: seq<Instruction>) {
    forall k :: 0 <= k < |code| ==> Simple(code[k])
  }

  lemma StepSimple(pass: Pass, c: Instruction, block: Id, plan: Plan, offset: nat, current: Id, ordinal: nat)
    requires c.kind.Copy? && |c.inputs| == 5 && |c.outputs| == 1 && plan.Unroll?
    ensures AllSimple(StepCode(pass, c, block, plan, offset, current, ordinal).code)
  {
    hide IndexCode;
    var to := IndexCode(pass, c, block, ordinal, c.inputs[1], plan.dstOffset, offset);
    IndexSimple(pass, c, block, ordinal, c.inputs[1], plan.dstOffset, offset);
    IndexSimple(pass, c, block, to.ordinal, c.inputs[3], plan.srcOffset, offset);
  }

  lemma IndexSimple(pass: Pass, c: Instruction, block: Id, ordinal: nat, base: Id, constant: Option<nat>, increment: nat)
    requires c.kind.Copy?
    ensures AllSimple(IndexCode(pass, c, block, ordinal, base, constant, increment).code)
  {
  }

  lemma {:induction false} ChainSimple(pass: Pass, c: Instruction, block: Id, plan: Plan, offset: nat, current: Id, ordinal: nat)
    requires c.kind.Copy? && |c.inputs| == 5 && |c.outputs| == 1 && plan.Unroll? && offset <= plan.count
    ensures AllSimple(ChainCode(pass, c, block, plan, offset, current, ordinal).code)
    decreases plan.count - offset
  {
    hide StepCode;
    if offset < plan.count {
      var x := StepCode(pass, c, block, plan, offset, current, ordinal);
      StepSimple(pass, c, block, plan, offset, current, ordinal);
      ChainSimple(pass, c, block, plan, offset + 1, x.value, x.ordinal);
    }
  }

  lemma {:induction false} RebuildElementsSimple(c: Instruction, block: Id, plan: Plan, count: nat)
    requires c.kind.Copy? && |c.inputs| == 5 && plan.Rebuild?
    ensures AllSimple(RebuildElements(c, block, plan, count))
  {
    if count > 0 {
      RebuildElementsSimple(c, block, plan, count - 1);
    }
  }

  lemma PlanSimple(pass: Pass, c: Instruction, block: Id, plan: Plan)
    requires c.kind.Copy? && |c.inputs| == 5 && |c.outputs| == 1 && !plan.Keep?
    ensures AllSimple(PlanCode(pass, c, block, plan).code)
  {
    hide ChainCode, RebuildElements;
    match plan
    case Empty =>
    case Rebuild(_, _, _) => RebuildElementsSimple(c, block, plan, c.kind.dstBound.Max());
    case Unroll(_, _, _) => ChainSimple(pass, c, block, plan, 0, c.inputs[0], 0);
    case EmptyViews =>
  }

  lemma {:induction false} CodeKeepsSourceCopies(pass: Pass, ctx: Context, block: Id, code: seq<Instruction>)
    requires LowerInstructions(pass, ctx, block, code).Ok? && SourceCopies(code)
    ensures SourceCopies(LowerInstructions(pass, ctx, block, code).value.items)
    decreases |code|
  {
    hide Decide, PlanCode;
    if code != [] {
      CodeKeepsSourceCopies(pass, ctx, block, code[1..]);
      var plan := Decide(pass, ctx, code[0]).value;
      if !plan.Keep? {
        DecidesPlanned(pass, ctx, code[0]);
        PlanSimple(pass, code[0], block, plan);
      }
    }
  }

  lemma {:induction false} BlocksKeepSourceCopies(pass: Pass, ctx: Context, blocks: seq<Block>)
    requires LowerBlocks(pass, ctx, blocks).Ok? && SourceCopiesIn(blocks)
    ensures SourceCopiesIn(LowerBlocks(pass, ctx, blocks).value.items)
    decreases |blocks|
  {
    hide LowerInstructions;
    if blocks != [] {
      BlocksKeepSourceCopies(pass, ctx, blocks[1..]);
      CodeKeepsSourceCopies(pass, ctx, blocks[0].identity, blocks[0].instructions);
    }
  }

  lemma {:induction false} ProgramKeepsSourceCopies(pass: Pass, program: seq<Function>)
    requires LowerFunctions(pass, program).Ok? && forall k :: 0 <= k < |program| ==> SourceCopiesIn(program[k].blocks)
    ensures var r := LowerFunctions(pass, program).value.items; forall k :: 0 <= k < |r| ==> SourceCopiesIn(r[k].blocks)
    decreases |program|
  {
    hide LowerBlocks, Collect;
    if program != [] {
      ProgramKeepsSourceCopies(pass, program[1..]);
      BlocksKeepSourceCopies(pass, Collect(program[0]), program[0].blocks);
    }
  }

  /** Each pass may be followed by another: names stay defined once and generated names apart. */
  lemma PassKeepsNames(pass: Pass, program: seq<Function>)
    requires LowerFunctions(pass, program).Ok? && NamedApart(program)
    ensures NamedApart(LowerFunctions(pass, program).value.items)
    ensures Renames(ProgramNames(program), ProgramNames(LowerFunctions(pass, program).value.items))
  {
    hide LowerFunctions, Renames, Apart;
    ProgramRenames(pass, program);
    RenamedApart(ProgramNames(program), ProgramNames(LowerFunctions(pass, program).value.items));
    ProgramKeepsSourceCopies(pass, program);
  }
}
