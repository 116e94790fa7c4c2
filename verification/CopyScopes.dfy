/** Lowered code uses only names that are defined before it, whenever the original does. */
module CopyScopes {
  import opened Prelude
  import opened SsaSyntax
  import opened CopyLowering

  ghost function Names(values: seq<SsaValue>): set<Id> {
    set v | v in values :: v.identity
  }

  ghost predicate Uses(ids: seq<Id>, scope: set<Id>) {
    forall k :: 0 <= k < |ids| ==> ids[k] in scope
  }

  /** The names in scope after some code. */
  ghost function After(code: seq<Instruction>, scope: set<Id>): set<Id>
    decreases |code|
  {
    if code == [] then scope else After(code[1..], scope + Names(code[0].outputs))
  }

  /** Every operand is in scope where it is used. */
  ghost predicate Scoped(code: seq<Instruction>, scope: set<Id>)
    decreases |code|
  {
    code != [] ==> Uses(code[0].inputs, scope) && Scoped(code[1..], scope + Names(code[0].outputs))
  }

  /** `entry[k]` is in scope on every way into block k: a certificate that definitions dominate
      their uses. */
  ghost predicate BlockScoped(b: Block, k: nat, entry: seq<set<Id>>)
    requires k < |entry|
  {
    var scope := entry[k] + Names(b.parameters);
    && Scoped(b.instructions, scope)
    && Uses(b.terminator.operands, After(b.instructions, scope))
    && forall t :: t in b.terminator.targets && t < |entry| ==> entry[t] <= After(b.instructions, scope)
  }

  ghost predicate FunctionScoped(f: Function, entry: seq<set<Id>>) {
    && |entry| == |f.blocks|
    && (entry != [] ==> entry[0] <= Names(f.inputs))
    && forall k :: 0 <= k < |f.blocks| ==> BlockScoped(f.blocks[k], k, entry)
  }

  lemma {:induction false} ScopedAppend(a: seq<Instruction>, b: seq<Instruction>, scope: set<Id>)
    ensures After(a + b, scope) == After(b, After(a, scope))
    ensures Scoped(a + b, scope) <==> Scoped(a, scope) && Scoped(b, After(a, scope))
    decreases |a|
  {
    if a == [] {
      assert a + b == b;
    } else {
      assert (a + b)[0] == a[0] && (a + b)[1..] == a[1..] + b;
      ScopedAppend(a[1..], b, scope + Names(a[0].outputs));
    }
  }

  lemma ScopedOne(i: Instruction, scope: set<Id>)
    ensures After([i], scope) == scope + Names(i.outputs)
    ensures Scoped([i], scope) <==> Uses(i.inputs, scope)
  {
    assert [i][1..] == [];
  }

  /** Code that can run in `scope` and leaves `value` defined. */
  ghost predicate Supplies(code: seq<Instruction>, scope: set<Id>, value: Id) {
    Scoped(code, scope) && value in After(code, scope) && scope <= After(code, scope)
  }

  lemma SuppliesOne(i: Instruction, scope: set<Id>)
    requires Uses(i.inputs, scope) && |i.outputs| == 1
    ensures Supplies([i], scope, i.outputs[0].identity)
  {
    ScopedOne(i, scope);
    assert i.outputs[0] in i.outputs;
  }

  lemma SuppliesAfter(a: seq<Instruction>, b: seq<Instruction>, scope: set<Id>, x: Id, y: Id)
    requires Supplies(a, scope, x) && Supplies(b, After(a, scope), y)
    ensures Supplies(a + b, scope, y) && x in After(a + b, scope)
  {
    ScopedAppend(a, b, scope);
  }

  lemma IndexSupplies(pass: Pass, c: Instruction, block: Id, ordinal: nat, base: Id, constant: Option<nat>, increment: nat, scope: set<Id>)
    requires c.kind.Copy? && base in scope
    ensures var x := IndexCode(pass, c, block, ordinal, base, constant, increment); Supplies(x.code, scope, x.value)
  {
    hide Supplies;
    var x := IndexCode(pass, c, block, ordinal, base, constant, increment);
    if x.code == [] {
      SuppliesNothing(scope, base);
    } else {
      SuppliesOne(x.code[0], scope);
      if |x.code| == 2 {
        SuppliesScope(x.code[..1], scope, x.code[0].outputs[0].identity);
        assert x.code[..1] == [x.code[0]];
        SuppliesOne(x.code[1], After(x.code[..1], scope));
        SuppliesAfter(x.code[..1], [x.code[1]], scope, x.code[0].outputs[0].identity, x.value);
        assert x.code == x.code[..1] + [x.code[1]];
      } else {
        assert x.code == [x.code[0]];
      }
    }
  }

  lemma SuppliesNothing(scope: set<Id>, value: Id)
    requires value in scope
    ensures Supplies([], scope, value)
  {
  }

  lemma SuppliesScope(code: seq<Instruction>, scope: set<Id>, value: Id)
    requires Supplies(code, scope, value)
    ensures value in After(code, scope) && scope <= After(code, scope)
  {
  }

  lemma StepSupplies(pass: Pass, c: Instruction, block: Id, plan: Plan, offset: nat, current: Id, ordinal: nat, scope: set<Id>)
    requires c.kind.Copy? && |c.inputs| == 5 && |c.outputs| == 1 && plan.Unroll? && Uses(c.inputs, scope) && current in scope
    ensures var x := StepCode(pass, c, block, plan, offset, current, ordinal); Supplies(x.code, scope, x.value)
  {
    hide Supplies, IndexCode, After;
    var x := StepCode(pass, c, block, plan, offset, current, ordinal);
    var to := IndexCode(pass, c, block, ordinal, c.inputs[1], plan.dstOffset, offset);
    var from := IndexCode(pass, c, block, to.ordinal, c.inputs[3], plan.srcOffset, offset);
    var project := ProjectCode(pass, c, block, from.ordinal, from.value);
    var replace := ReplaceCode(pass, c, block, from.ordinal + 1, offset + 1 == plan.count, current, to.value, project.outputs[0].identity);
    IndexSupplies(pass, c, block, ordinal, c.inputs[1], plan.dstOffset, offset, scope);
    SuppliesScope(to.code, scope, to.value);
    var s1 := After(to.code, scope);
    IndexSupplies(pass, c, block, to.ordinal, c.inputs[3], plan.srcOffset, offset, s1);
    SuppliesAfter(to.code, from.code, scope, to.value, from.value);
    SuppliesScope(to.code + from.code, scope, from.value);
    var s2 := After(to.code + from.code, scope);
    SuppliesOne(project, s2);
    SuppliesScope([project], s2, project.outputs[0].identity);
    var s3 := After([project], s2);
    SuppliesOne(replace, s3);
    SuppliesAfter([project], [replace], s2, project.outputs[0].identity, x.value);
    assert [project] + [replace] == [project, replace];
    SuppliesAfter(to.code + from.code, [project, replace], scope, from.value, x.value);
  }

  lemma {:induction false} ChainSupplies(pass: Pass, c: Instruction, block: Id, plan: Plan, offset: nat, current: Id, ordinal: nat, scope: set<Id>)
    requires c.kind.Copy? && |c.inputs| == 5 && |c.outputs| == 1 && plan.Unroll? && offset < plan.count
    requires Uses(c.inputs, scope) && current in scope
    ensures Supplies(ChainCode(pass, c, block, plan, offset, current, ordinal).code, scope, c.outputs[0].identity)
    decreases plan.count - offset
  {
    hide Supplies, StepCode, After;
    var x := StepCode(pass, c, block, plan, offset, current, ordinal);
    StepSupplies(pass, c, block, plan, offset, current, ordinal, scope);
    var rest := ChainCode(pass, c, block, plan, offset + 1, x.value, x.ordinal);
    if offset + 1 == plan.count {
      assert x.code + rest.code == x.code;
      LastStepValue(pass, c, block, plan, offset, current, ordinal);
    } else {
      SuppliesScope(x.code, scope, x.value);
      ChainSupplies(pass, c, block, plan, offset + 1, x.value, x.ordinal, After(x.code, scope));
      SuppliesAfter(x.code, rest.code, scope, x.value, c.outputs[0].identity);
    }
  }

  lemma LastStepValue(pass: Pass, c: Instruction, block: Id, plan: Plan, offset: nat, current: Id, ordinal: nat)
    requires c.kind.Copy? && |c.inputs| == 5 && |c.outputs| == 1 && plan.Unroll? && offset + 1 == plan.count
    ensures StepCode(pass, c, block, plan, offset, current, ordinal).value == c.outputs[0].identity
  {
    hide IndexCode;
  }

  lemma {:induction false} RebuildElementsSupply(c: Instruction, block: Id, plan: Plan, count: nat, scope: set<Id>)
    requires c.kind.Copy? && |c.inputs| == 5 && plan.Rebuild? && Uses(c.inputs, scope)
    ensures var code := RebuildElements(c, block, plan, count);
            && Scoped(code, scope) && scope <= After(code, scope)
            && forall k :: 0 <= k < count ==> RebuiltElement(c, k) in After(code, scope)
  {
    hide RebuildSource;
    if count > 0 {
      RebuildElementsSupply(c, block, plan, count - 1, scope);
      var before, last := RebuildElements(c, block, plan, count - 1), RebuildElement(c, block, plan, count - 1);
      var s1 := After(before, scope);
      assert last[1].inputs[0] in s1 by { RebuildSourceKnown(c, plan, count - 1); }
      SuppliesOne(last[0], s1);
      var s2 := After([last[0]], s1);
      SuppliesOne(last[1], s2);
      SuppliesAfter([last[0]], [last[1]], s1, last[0].outputs[0].identity, RebuiltElement(c, count - 1));
      assert last == [last[0]] + [last[1]];
      ScopedAppend(before, last, scope);
    }
  }

  lemma RebuildSourceKnown(c: Instruction, plan: Plan, k: nat)
    requires c.kind.Copy? && |c.inputs| == 5 && plan.Rebuild?
    ensures RebuildSource(c, plan, k).0 in {c.inputs[0], c.inputs[2]}
  {
  }

  lemma RebuildSupplies(c: Instruction, block: Id, plan: Plan, scope: set<Id>)
    requires c.kind.Copy? && |c.inputs| == 5 && |c.outputs| == 1 && plan.Rebuild? && Uses(c.inputs, scope)
    ensures Supplies(RebuildCode(c, block, plan).code, scope, c.outputs[0].identity)
  {
    hide RebuildElements;
    var count := c.kind.dstBound.Max();
    var elements, code := RebuildElements(c, block, plan, count), RebuildCode(c, block, plan).code;
    RebuildElementsSupply(c, block, plan, count, scope);
    var construct := code[|elements|];
    SuppliesOne(construct, After(elements, scope));
    ScopedAppend(elements, [construct], scope);
    assert code == elements + [construct];
  }

  lemma EmptySupplies(pass: Pass, c: Instruction, block: Id, scope: set<Id>)
    requires c.kind.Copy? && |c.inputs| == 5 && |c.outputs| == 1 && Uses(c.inputs, scope)
    ensures Supplies(EmptyCode(pass, c, block).code, scope, c.outputs[0].identity)
  {
    var code := EmptyCode(pass, c, block).code;
    SuppliesOne(code[0], scope);
    SuppliesOne(code[1], After([code[0]], scope));
    SuppliesAfter([code[0]], [code[1]], scope, code[0].outputs[0].identity, c.outputs[0].identity);
    assert code == [code[0]] + [code[1]];
  }

  lemma ViewSupplies(c: Instruction, block: Id, source: bool, scope: set<Id>)
    requires c.kind.Copy? && |c.inputs| == 5 && Uses(c.inputs, scope)
    ensures Supplies(ViewCode(c, block, source), scope,
                     if source then Generated(c.identity, EmptySourceLengthValue, 4) else Generated(c.identity, EmptyDestinationLengthValue, 2))
  {
    hide Supplies, After;
    var code := ViewCode(c, block, source);
    SuppliesOne(code[0], scope);
    SuppliesScope([code[0]], scope, code[0].outputs[0].identity);
    SuppliesOne(code[1], After([code[0]], scope));
    SuppliesAfter([code[0]], [code[1]], scope, code[0].outputs[0].identity, code[1].outputs[0].identity);
    assert code == [code[0]] + [code[1]];
  }

  /** Code each of whose operands is in scope already or was defined by an earlier instruction. */
  lemma {:induction false} SingleResultsScoped(code: seq<Instruction>, scope: set<Id>)
    requires forall k :: 0 <= k < |code| ==> |code[k].outputs| == 1
    requires forall k, j :: 0 <= k < |code| && 0 <= j < |code[k].inputs| ==>
               code[k].inputs[j] in scope || exists n :: 0 <= n < k && code[n].outputs[0].identity == code[k].inputs[j]
    ensures Scoped(code, scope) && scope <= After(code, scope)
    ensures code != [] ==> code[|code| - 1].outputs[0].identity in After(code, scope)
    decreases |code|
  {
    if code != [] {
      var first, rest := code[0], code[1..];
      assert Names(first.outputs) == {first.outputs[0].identity};
      forall k, j | 0 <= k < |rest| && 0 <= j < |rest[k].inputs|
        ensures rest[k].inputs[j] in scope + Names(first.outputs) || exists n :: 0 <= n < k && rest[n].outputs[0].identity == rest[k].inputs[j]
      {
        var id := code[k + 1].inputs[j];
        if id !in scope {
          var n :| 0 <= n < k + 1 && code[n].outputs[0].identity == id;
          assert n > 0 ==> rest[n - 1].outputs[0].identity == id;
        }
      }
      SingleResultsScoped(rest, scope + Names(first.outputs));
      if rest == [] {
        ScopedOne(first, scope);
        assert code == [first];
      }
    }
  }

  lemma EmptyViewsSupply(c: Instruction, block: Id, scope: set<Id>)
    requires c.kind.Copy? && |c.inputs| == 5 && |c.outputs| == 1 && Uses(c.inputs, scope)
    ensures Supplies(EmptyViewsCode(c, block).code, scope, c.outputs[0].identity)
  {
    hide ViewCode, Supplies, After;
    var code := EmptyViewsCode(c, block).code;
    var destination, source := ViewCode(c, block, false), ViewCode(c, block, true);
    ViewCodeShape(c, block);
    var d, s := Generated(c.identity, EmptyDestinationLengthValue, 2), Generated(c.identity, EmptySourceLengthValue, 4);
    ViewSupplies(c, block, false, scope);
    SuppliesScope(destination, scope, d);
    ViewSupplies(c, block, true, After(destination, scope));
    SuppliesAfter(destination, source, scope, d, s);
    SuppliesScope(destination + source, scope, s);
    var rest := code[4..];
    assert code == destination + source + rest;
    ChecksSupply(c, block, After(destination + source, scope));
    SuppliesAfter(destination + source, rest, scope, s, c.outputs[0].identity);
  }

  lemma ViewCodeShape(c: Instruction, block: Id)
    requires c.kind.Copy? && |c.inputs| == 5
    ensures |ViewCode(c, block, false)| == |ViewCode(c, block, true)| == 2
  {
  }

  lemma ChecksSupply(c: Instruction, block: Id, scope: set<Id>)
    requires c.kind.Copy? && |c.inputs| == 5 && |c.outputs| == 1 && Uses(c.inputs, scope)
    requires Generated(c.identity, EmptyDestinationLengthValue, 2) in scope && Generated(c.identity, EmptySourceLengthValue, 4) in scope
    ensures Supplies(EmptyViewsCode(c, block).code[4..], scope, c.outputs[0].identity)
  {
    var code := EmptyViewsCode(c, block).code[4..];
    assert code[0].outputs[0].identity == code[1].inputs[1] == code[2].inputs[1];
    assert code[1].outputs[0].identity == code[3].inputs[0] && code[2].outputs[0].identity == code[3].inputs[1];
    assert code[3].outputs[0].identity == code[4].inputs[0];
    assert code[4].inputs[1] == code[4].inputs[2] == c.inputs[0];
    SingleResultsScoped(code, scope);
  }

  lemma PlanSupplies(pass: Pass, c: Instruction, block: Id, plan: Plan, scope: set<Id>)
    requires c.kind.Copy? && |c.inputs| == 5 && |c.outputs| == 1 && Planned(plan)
    requires Uses(c.inputs, scope)
    ensures Supplies(PlanCode(pass, c, block, plan).code, scope, c.outputs[0].identity)
  {
    match plan
    case Empty => EmptySupplies(pass, c, block, scope);
    case Rebuild(_, _, _) => RebuildSupplies(c, block, plan, scope);
    case Unroll(_, _, _) => ChainSupplies(pass, c, block, plan, 0, c.inputs[0], 0, scope);
    case EmptyViews => EmptyViewsSupply(c, block, scope);
  }

  // ----- Whole functions -----

  lemma {:induction false} CodeScoped(pass: Pass, ctx: Context, block: Id, code: seq<Instruction>, scope: set<Id>, more: set<Id>)
    requires LowerInstructions(pass, ctx, block, code).Ok? && Scoped(code, scope) && scope <= more
    ensures var lowered := LowerInstructions(pass, ctx, block, code).value.items;
            Scoped(lowered, more) && After(code, scope) <= After(lowered, more)
    decreases |code|
  {
    hide Decide, PlanCode;
    if code != [] {
      var first, rest := LowerInstruction(pass, ctx, block, code[0]).value, LowerInstructions(pass, ctx, block, code[1..]).value;
      var plan := Decide(pass, ctx, code[0]).value;
      if plan.Keep? {
        ScopedOne(code[0], more);
      } else {
        DecidesPlanned(pass, ctx, code[0]);
        PlanSupplies(pass, code[0], block, plan, more);
        assert Names(code[0].outputs) == {code[0].outputs[0].identity};
      }
      CodeScoped(pass, ctx, block, code[1..], scope + Names(code[0].outputs), After(first.items, more));
      ScopedAppend(first.items, rest.items, more);
    }
  }

  lemma {:induction false} LoweredBlockAt(pass: Pass, ctx: Context, blocks: seq<Block>, k: nat)
    requires LowerBlocks(pass, ctx, blocks).Ok?
    ensures |LowerBlocks(pass, ctx, blocks).value.items| == |blocks|
    ensures k < |blocks| ==>
      var lowered := LowerInstructions(pass, ctx, blocks[k].identity, blocks[k].instructions);
      lowered.Ok? && LowerBlocks(pass, ctx, blocks).value.items[k] == blocks[k].(instructions := lowered.value.items)
    decreases |blocks|
  {
    hide LowerInstructions;
    if blocks != [] {
      LoweredBlockAt(pass, ctx, blocks[1..], if k == 0 then 0 else k - 1);
    }
  }

  /** A certificate for a function is one for its lowered form. */
  lemma FunctionStaysScoped(pass: Pass, f: Function, entry: seq<set<Id>>)
    requires LowerFunction(pass, f).Ok? && FunctionScoped(f, entry)
    ensures FunctionScoped(LowerFunction(pass, f).value.items[0], entry)
  {
    hide LowerBlocks, Collect, LowerInstructions;
    var ctx, f' := Collect(f), LowerFunction(pass, f).value.items[0];
    LoweredBlockAt(pass, ctx, f.blocks, 0);
    forall k | 0 <= k < |f.blocks| ensures BlockScoped(f'.blocks[k], k, entry) {
      var b := f.blocks[k];
      LoweredBlockAt(pass, ctx, f.blocks, k);
      var scope := entry[k] + Names(b.parameters);
      CodeScoped(pass, ctx, b.identity, b.instructions, scope, scope);
    }
  }
}
