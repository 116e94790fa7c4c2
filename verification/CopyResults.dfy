/** What else is true of the passes: which copies survive, when a pass gives up, that the two
    strategies agree, and that every checked addition is accounted for. */
module CopyResults {
  import opened Prelude
  import opened SsaSyntax
  import opened SsaSemantics
  import opened CopyLowering
  import opened CopyMeaning

  // ----- Which copies survive -----

  /** A copy as the validated module carries it. */
  ghost predicate WellTypedCopy(ctx: Context, i: Instruction) {
    && i.kind.Copy? && |i.inputs| == 5 && |i.outputs| == 1
    && CheckTypes(ctx, i, Keep).Ok?
    && (forall k :: k in {1, 3, 4} ==> Lookup(ctx.types, i.inputs[k]) == Some(U64))
    && (forall n :: n in ctx.constants ==> 0 <= ctx.constants[n] < U64_LIMIT)
  }

  /** A statically exact copy survives exactly when its window is not constant, or is longer than
      256 over a destination longer than 512; it is refused exactly when its constant window
      breaks the static promise. */
  lemma StaticSurvivors(ctx: Context, i: Instruction)
    requires WellTypedCopy(ctx, i) && i.kind.evidence.StaticExact? && i.kind.dstBound.Exact? && i.kind.srcBound.Exact?
    ensures var dstAt, srcAt, length := Lookup(ctx.constants, i.inputs[1]), Lookup(ctx.constants, i.inputs[3]), Lookup(ctx.constants, i.inputs[4]);
            var known := dstAt.Some? && srcAt.Some? && length.Some?;
            var inside := known && dstAt.value + length.value <= i.kind.dstBound.length && srcAt.value + length.value <= i.kind.srcBound.length;
            && (Decide(StaticPass, ctx, i).Err? <==> known && !inside)
            && (Decide(StaticPass, ctx, i) == Ok(Keep) <==> !known || (inside && length.value > 256 && i.kind.dstBound.length > 512))
  {
    assert 1 in {1, 3, 4} && 3 in {1, 3, 4} && 4 in {1, 3, 4};
  }

  /** A runtime-checked copy into an exact destination outlives both later passes exactly when its
      length is not a constant of at most 256, or its whole window is constant, not empty, and
      leaves the destination or 64 bits. Neither pass refuses it. */
  lemma RuntimeSurvivors(ctx: Context, i: Instruction)
    requires WellTypedCopy(ctx, i) && i.kind.evidence.RuntimeChecked? && i.kind.dstBound.Exact?
    ensures var dstAt, srcAt, length := Lookup(ctx.constants, i.inputs[1]), Lookup(ctx.constants, i.inputs[3]), Lookup(ctx.constants, i.inputs[4]);
            && Decide(WindowPass, ctx, i).Ok? && Decide(OffsetPass, ctx, i).Ok?
            && (Decide(WindowPass, ctx, i).value.Keep? && Decide(OffsetPass, ctx, i).value.Keep? <==>
                || length.None? || length.value > 256
                || (length.value > 0 && dstAt.Some? && srcAt.Some?
                    && (dstAt.value + length.value > i.kind.dstBound.length || srcAt.value + length.value >= U64_LIMIT)))
  {
    assert 1 in {1, 3, 4} && 3 in {1, 3, 4} && 4 in {1, 3, 4};
  }

  // ----- When a pass gives up -----

  ghost predicate Refuses(pass: Pass, ctx: Context, blocks: seq<Block>) {
    exists b, k :: 0 <= b < |blocks| && 0 <= k < |blocks[b].instructions| && Decide(pass, ctx, blocks[b].instructions[k]).Err?
  }

  lemma {:induction false} CodeFails(pass: Pass, ctx: Context, block: Id, code: seq<Instruction>)
    ensures LowerInstructions(pass, ctx, block, code).Err? <==> exists k :: 0 <= k < |code| && Decide(pass, ctx, code[k]).Err?
    decreases |code|
  {
    hide Decide;
    if code != [] {
      CodeFails(pass, ctx, block, code[1..]);
      assert forall k :: 0 < k < |code| ==> code[k] == code[1..][k - 1];
      if k :| 0 <= k < |code[1..]| && Decide(pass, ctx, code[1..][k]).Err? {
        assert code[k + 1] == code[1..][k];
      }
    }
  }

  lemma {:induction false} BlocksFail(pass: Pass, ctx: Context, blocks: seq<Block>)
    ensures LowerBlocks(pass, ctx, blocks).Err? <==> Refuses(pass, ctx, blocks)
    decreases |blocks|
  {
    hide Decide, LowerInstructions;
    if blocks != [] {
      BlocksFail(pass, ctx, blocks[1..]);
      CodeFails(pass, ctx, blocks[0].identity, blocks[0].instructions);
      assert forall k :: 0 < k < |blocks| ==> blocks[k] == blocks[1..][k - 1];
      if b, k :| 0 <= b < |blocks[1..]| && 0 <= k < |blocks[1..][b].instructions| && Decide(pass, ctx, blocks[1..][b].instructions[k]).Err? {
        assert blocks[b + 1] == blocks[1..][b];
      }
    }
  }

  /** A pass fails exactly when it meets a copy it must refuse, wherever that copy is. */
  lemma {:induction false} PassFails(pass: Pass, program: seq<Function>)
    ensures LowerFunctions(pass, program).Err? <==> exists k :: 0 <= k < |program| && Refuses(pass, Collect(program[k]), program[k].blocks)
    decreases |program|
  {
    hide Refuses, LowerBlocks, Collect;
    if program != [] {
      PassFails(pass, program[1..]);
      BlocksFail(pass, Collect(program[0]), program[0].blocks);
      assert forall k :: 0 < k < |program| ==> program[k] == program[1..][k - 1];
      if k :| 0 <= k < |program[1..]| && Refuses(pass, Collect(program[1..][k]), program[1..][k].blocks) {
        assert program[k + 1] == program[1..][k];
      }
    }
  }

  /** The first refusal of a block, of a function's blocks, and of a program's functions. */
  ghost predicate CodeRefusesAs(pass: Pass, ctx: Context, code: seq<Instruction>, e: LoweringError) {
    exists k :: 0 <= k < |code| && Decide(pass, ctx, code[k]) == Err(e) && forall j :: 0 <= j < k ==> Decide(pass, ctx, code[j]).Ok?
  }

  ghost predicate BlocksRefuseAs(pass: Pass, ctx: Context, blocks: seq<Block>, e: LoweringError) {
    exists b :: 0 <= b < |blocks| && CodeRefusesAs(pass, ctx, blocks[b].instructions, e) && !Refuses(pass, ctx, blocks[..b])
  }

  ghost predicate ProgramRefusesAs(pass: Pass, program: seq<Function>, e: LoweringError) {
    exists f :: 0 <= f < |program| && BlocksRefuseAs(pass, Collect(program[f]), program[f].blocks, e) && LowerFunctions(pass, program[..f]).Ok?
  }

  lemma {:induction false} CodeFailsFirst(pass: Pass, ctx: Context, block: Id, code: seq<Instruction>, e: LoweringError)
    requires LowerInstructions(pass, ctx, block, code) == Err(e)
    ensures CodeRefusesAs(pass, ctx, code, e)
    decreases |code|
  {
    hide Decide, PlanCode;
    if Decide(pass, ctx, code[0]).Err? {
      assert Decide(pass, ctx, code[0]) == Err(e);
    } else {
      CodeFailsFirst(pass, ctx, block, code[1..], e);
      var k :| 0 <= k < |code[1..]| && Decide(pass, ctx, code[1..][k]) == Err(e) && forall j :: 0 <= j < k ==> Decide(pass, ctx, code[1..][j]).Ok?;
      var next := k + 1;
      assert code[next] == code[1..][k];
      forall j | 0 <= j < next ensures Decide(pass, ctx, code[j]).Ok? {
        assert j > 0 ==> code[j] == code[1..][j - 1];
      }
    }
  }

  lemma {:induction false} BlocksFailFirst(pass: Pass, ctx: Context, blocks: seq<Block>, e: LoweringError)
    requires LowerBlocks(pass, ctx, blocks) == Err(e)
    ensures BlocksRefuseAs(pass, ctx, blocks, e)
    decreases |blocks|
  {
    hide Decide, LowerInstructions, CodeRefusesAs, Refuses;
    var first := LowerInstructions(pass, ctx, blocks[0].identity, blocks[0].instructions);
    if first.Err? {
      CodeFailsFirst(pass, ctx, blocks[0].identity, blocks[0].instructions, e);
      NoneRefuse(pass, ctx);
      assert blocks[..0] == [];
    } else {
      BlocksFailFirst(pass, ctx, blocks[1..], e);
      var b :| 0 <= b < |blocks[1..]| && CodeRefusesAs(pass, ctx, blocks[1..][b].instructions, e) && !Refuses(pass, ctx, blocks[1..][..b]);
      var next := b + 1;
      assert blocks[next] == blocks[1..][b];
      assert blocks[..next][1..] == blocks[1..][..b];
      BlocksFail(pass, ctx, blocks[1..][..b]);
      BlocksFail(pass, ctx, blocks[..next]);
    }
  }

  lemma NoneRefuse(pass: Pass, ctx: Context)
    ensures !Refuses(pass, ctx, [])
  {
  }

  /** A pass fails with its refusal of the first copy that it must refuse. */
  lemma {:induction false} PassFailsFirst(pass: Pass, program: seq<Function>, e: LoweringError)
    requires LowerFunctions(pass, program) == Err(e)
    ensures ProgramRefusesAs(pass, program, e)
    decreases |program|
  {
    hide LowerBlocks, BlocksRefuseAs, Collect;
    if LowerFunction(pass, program[0]).Err? {
      BlocksFailFirst(pass, Collect(program[0]), program[0].blocks, e);
      assert program[..0] == [];
    } else {
      PassFailsFirst(pass, program[1..], e);
      var f :| 0 <= f < |program[1..]| && BlocksRefuseAs(pass, Collect(program[1..][f]), program[1..][f].blocks, e) && LowerFunctions(pass, program[1..][..f]).Ok?;
      var next := f + 1;
      assert program[next] == program[1..][f] && program[..next][1..] == program[1..][..f];
    }
  }

  // ----- Unrolling and rebuilding agree -----

  /** Wherever both strategies apply, also when source and destination are the same value, they
      leave the same sequence under the copy's name, and it is the span copy. */
  lemma StrategiesAgree(c: Instruction, block: Id, w: Window, e: Env)
    requires Typed(c, w) && Operands(e, c, w) && InBounds(w) && 0 < w.length <= UNROLL_LIMIT && c.kind.evidence.StaticExact?
    ensures var unrolled := RunCode(PlanCode(StaticPass, c, block, Unroll(Some(w.dstAt), Some(w.srcAt), w.length)).code, e);
            var rebuilt := RunCode(PlanCode(StaticPass, c, block, Rebuild(w.dstAt, w.srcAt, w.length)).code, e);
            var out := c.outputs[0].identity;
            && unrolled.Go? && rebuilt.Go? && out in unrolled.env && out in rebuilt.env
            && unrolled.env[out] == rebuilt.env[out] == SeqV(SpanCopy(w.dst, w.dstAt, w.src, w.srcAt, w.length))
  {
    hide RunCode, StepCode, RebuildElements, StepPure;
    var unroll, rebuild := Unroll(Some(w.dstAt), Some(w.srcAt), w.length), Rebuild(w.dstAt, w.srcAt, w.length);
    assert Read(e, c.inputs)[0] == SeqV(w.dst);
    ChainRuns(StaticPass, c, block, unroll, 0, c.inputs[0], 0, w, e);
    RebuildRuns(c, block, rebuild, w, e);
  }

  // ----- Checked additions and their obligations -----

  function Adds(code: seq<Instruction>): seq<Instruction> {
    if code == [] then []
    else Added(code[0]) + Adds(code[1..])
  }

  function Added(i: Instruction): seq<Instruction> {
    if i.kind.AddChecked? then [i] else []
  }

  lemma {:induction false} AddsAppend(a: seq<Instruction>, b: seq<Instruction>)
    ensures Adds(a + b) == Adds(a) + Adds(b)
    decreases |a|
  {
    hide Added;
    if a == [] {
      assert a + b == b;
    } else {
      assert (a + b)[0] == a[0] && (a + b)[1..] == a[1..] + b;
      AddsAppend(a[1..], b);
      assert Added(a[0]) + (Adds(a[1..]) + Adds(b)) == Added(a[0]) + Adds(a[1..]) + Adds(b);
    }
  }

  lemma {:induction false} NoAdds(code: seq<Instruction>)
    requires forall k :: 0 <= k < |code| ==> !code[k].kind.AddChecked?
    ensures Adds(code) == []
    decreases |code|
  {
    if code != [] {
      NoAdds(code[1..]);
    }
  }

  /** The k-th obligation is about the k-th addition, which points back to it; names rise. */
  ghost predicate Accounted(code: seq<Instruction>, obligations: seq<ObligationRecord>, c: Instruction, low: nat, high: nat) {
    && low <= high && |obligations| == |Adds(code)|
    && (forall k :: 0 <= k < |obligations| ==>
          && obligations[k].subject == Adds(code)[k].identity
          && obligations[k].dependencies == [OperationOf(c)]
          && Adds(code)[k].obligations == [obligations[k].identity])
    && (forall k :: 0 <= k < |obligations| ==>
          obligations[k].identity.Generated? && obligations[k].identity.owner == c.identity
          && obligations[k].identity.role == OffsetAddObligation && low < obligations[k].identity.ordinal <= high)
    && (forall j, k :: 0 <= j < k < |obligations| ==> obligations[j].identity.ordinal < obligations[k].identity.ordinal)
  }

  lemma AccountedAppend(a: seq<Instruction>, oa: seq<ObligationRecord>, b: seq<Instruction>, ob: seq<ObligationRecord>, c: Instruction,
                        low: nat, middle: nat, high: nat)
    requires Accounted(a, oa, c, low, middle) && Accounted(b, ob, c, middle, high)
    ensures Accounted(a + b, oa + ob, c, low, high)
  {
    AddsAppend(a, b);
    hide Adds;
    var o, adds := oa + ob, Adds(a) + Adds(b);
    assert forall k :: 0 <= k < |o| ==> o[k] == if k < |oa| then oa[k] else ob[k - |oa|];
    assert forall k :: 0 <= k < |o| ==> adds[k] == if k < |oa| then Adds(a)[k] else Adds(b)[k - |oa|];
  }

  lemma NothingAccounted(code: seq<Instruction>, c: Instruction, low: nat, high: nat)
    requires low <= high && forall k :: 0 <= k < |code| ==> !code[k].kind.AddChecked?
    ensures Accounted(code, [], c, low, high)
  {
    NoAdds(code);
  }

  lemma AddAccounted(c: Instruction, block: Id, ordinal: nat, base: Id, increment: Id, failure: FailureMode)
    ensures Accounted([AddCode(c.identity, block, ordinal, base, increment, failure)], [AddObligation(c.identity, ordinal, OperationOf(c))],
                      c, ordinal, ordinal + 1)
  {
    var add := AddCode(c.identity, block, ordinal, base, increment, failure);
    assert [add][1..] == [];
    assert Adds([add]) == [add];
  }

  lemma IndexAccounted(pass: Pass, c: Instruction, block: Id, ordinal: nat, base: Id, constant: Option<nat>, increment: nat)
    requires c.kind.Copy?
    ensures var x := IndexCode(pass, c, block, ordinal, base, constant, increment);
            Accounted(x.code, x.obligations, c, ordinal, x.ordinal)
  {
    hide Accounted;
    var x := IndexCode(pass, c, block, ordinal, base, constant, increment);
    if |x.code| == 2 {
      var step := ConstantIndex(c.identity, block, ordinal, increment);
      NothingAccounted(step.code, c, ordinal, ordinal + 1);
      AddAccounted(c, block, ordinal + 1, base, step.value, FailureOf(c));
      AccountedAppend(step.code, [], [x.code[1]], x.obligations, c, ordinal, ordinal + 1, ordinal + 2);
      assert [] + x.obligations == x.obligations;
    } else {
      NothingAccounted(x.code, c, ordinal, x.ordinal);
    }
  }

  lemma StepAccounted(pass: Pass, c: Instruction, block: Id, plan: Plan, offset: nat, current: Id, ordinal: nat)
    requires c.kind.Copy? && |c.inputs| == 5 && |c.outputs| == 1 && plan.Unroll?
    ensures var x := StepCode(pass, c, block, plan, offset, current, ordinal); Accounted(x.code, x.obligations, c, ordinal, x.ordinal)
  {
    hide IndexCode, Accounted;
    var x := StepCode(pass, c, block, plan, offset, current, ordinal);
    var to := IndexCode(pass, c, block, ordinal, c.inputs[1], plan.dstOffset, offset);
    var from := IndexCode(pass, c, block, to.ordinal, c.inputs[3], plan.srcOffset, offset);
    IndexAccounted(pass, c, block, ordinal, c.inputs[1], plan.dstOffset, offset);
    IndexAccounted(pass, c, block, to.ordinal, c.inputs[3], plan.srcOffset, offset);
    AccountedAppend(to.code, to.obligations, from.code, from.obligations, c, ordinal, to.ordinal, from.ordinal);
    var tail := x.code[|to.code + from.code|..];
    assert x.code == to.code + from.code + tail;
    NothingAccounted(tail, c, from.ordinal, x.ordinal);
    AccountedAppend(to.code + from.code, to.obligations + from.obligations, tail, [], c, ordinal, from.ordinal, x.ordinal);
    assert to.obligations + from.obligations + [] == x.obligations;
  }

  lemma {:induction false} ChainAccounted(pass: Pass, c: Instruction, block: Id, plan: Plan, offset: nat, current: Id, ordinal: nat)
    returns (high: nat)
    requires c.kind.Copy? && |c.inputs| == 5 && |c.outputs| == 1 && plan.Unroll? && offset <= plan.count
    ensures var x := ChainCode(pass, c, block, plan, offset, current, ordinal); Accounted(x.code, x.obligations, c, ordinal, high)
    decreases plan.count - offset
  {
    hide StepCode, Accounted;
    if offset == plan.count {
      high := ordinal;
      NothingAccounted([], c, ordinal, high);
    } else {
      var x := StepCode(pass, c, block, plan, offset, current, ordinal);
      StepAccounted(pass, c, block, plan, offset, current, ordinal);
      high := ChainAccounted(pass, c, block, plan, offset + 1, x.value, x.ordinal);
      var rest := ChainCode(pass, c, block, plan, offset + 1, x.value, x.ordinal);
      AccountedAppend(x.code, x.obligations, rest.code, rest.obligations, c, ordinal, x.ordinal, high);
    }
  }

  lemma {:induction false} RebuildHasNoAdds(c: Instruction, block: Id, plan: Plan, count: nat)
    requires c.kind.Copy? && |c.inputs| == 5 && plan.Rebuild?
    ensures Adds(RebuildElements(c, block, plan, count)) == []
  {
    if count > 0 {
      RebuildHasNoAdds(c, block, plan, count - 1);
      NoAdds(RebuildElement(c, block, plan, count - 1));
      AddsAppend(RebuildElements(c, block, plan, count - 1), RebuildElement(c, block, plan, count - 1));
    }
  }

  lemma PlanAccounted(pass: Pass, c: Instruction, block: Id, plan: Plan) returns (high: nat)
    requires c.kind.Copy? && |c.inputs| == 5 && |c.outputs| == 1 && !plan.Keep?
    ensures var x := PlanCode(pass, c, block, plan); Accounted(x.code, x.obligations, c, 0, high)
  {
    hide ChainCode, RebuildElements, EmptyCode, EmptyViewsCode, Adds;
    var x := PlanCode(pass, c, block, plan);
    high := 0;
    match plan
    case Unroll(_, _, _) =>
      high := ChainAccounted(pass, c, block, plan, 0, c.inputs[0], 0);
    case Rebuild(_, _, _) =>
      var elements := RebuildElements(c, block, plan, c.kind.dstBound.Max());
      RebuildHasNoAdds(c, block, plan, c.kind.dstBound.Max());
      NoAdds([x.code[|elements|]]);
      AddsAppend(elements, [x.code[|elements|]]);
      assert x.code == elements + [x.code[|elements|]];
    case Empty => EmptyAccounted(pass, c, block, high);
    case EmptyViews => EmptyViewsAccounted(c, block, high);
  }

  lemma EmptyAccounted(pass: Pass, c: Instruction, block: Id, high: nat)
    requires c.kind.Copy? && |c.inputs| == 5 && |c.outputs| == 1
    ensures var x := EmptyCode(pass, c, block); Accounted(x.code, x.obligations, c, 0, high)
  {
    hide Adds;
    NoAdds(EmptyCode(pass, c, block).code);
  }

  lemma EmptyViewsAccounted(c: Instruction, block: Id, high: nat)
    requires c.kind.Copy? && |c.inputs| == 5 && |c.outputs| == 1
    ensures var x := EmptyViewsCode(c, block); Accounted(x.code, x.obligations, c, 0, high)
  {
    hide Adds;
    NoAdds(EmptyViewsCode(c, block).code);
  }

  /** Every lowered copy comes with exactly one new obligation per checked addition, in order, all
      different, and its transformation record requires each of them. */
  lemma ObligationsMatchAdditions(pass: Pass, c: Instruction, block: Id, plan: Plan)
    requires c.kind.Copy? && |c.inputs| == 5 && |c.outputs| == 1 && !plan.Keep?
    ensures var x := PlanCode(pass, c, block, plan);
            && |x.obligations| == |Adds(x.code)|
            && (forall k :: 0 <= k < |x.obligations| ==>
                  x.obligations[k].subject == Adds(x.code)[k].identity && Adds(x.code)[k].obligations == [x.obligations[k].identity])
            && Distinct(IdentitiesOf(x.obligations))
            && (forall k :: 0 <= k < |x.obligations| ==>
                  x.obligations[k].identity in RecordOf(c, x, RuleOf(pass, plan)).obligationsRequired)
  {
    hide PlanCode, Adds, RuleOf;
    var x := PlanCode(pass, c, block, plan);
    var high := PlanAccounted(pass, c, block, plan);
    forall k | 0 <= k < |x.obligations| ensures x.obligations[k].identity in RecordOf(c, x, RuleOf(pass, plan)).obligationsRequired {
      assert IdentitiesOf(x.obligations)[k] == x.obligations[k].identity;
    }
  }
}
