/** What the three passes leave of a program's copies: in every block the same copies in the same
    order, less those whose windows the passes could resolve. A later pass decides in the facts it
    collects from code that earlier passes rewrote; about the operands of a copy those facts are
    still the ones of the original function. */
module CopySurvivors {
  import opened Prelude
  import opened SsaSyntax
  import opened CopyLowering
  import R = CopyResults
  import N = CopyNames
  import S = CopyScopes
  import P = CopyPreservation

  // ----- Picking copies out of code -----

  function Filter<T>(p: T -> bool, s: seq<T>): seq<T> {
    if s == [] then [] else (if p(s[0]) then [s[0]] else []) + Filter(p, s[1..])
  }

  /** The copies of a block in their order. */
  function Copies(code: seq<Instruction>): seq<Instruction> {
    Filter(IsCopy(), code)
  }

  function IsCopy(): Instruction -> bool {
    (i: Instruction) => i.kind.Copy?
  }

  lemma {:induction false} FilterAppend<T>(p: T -> bool, a: seq<T>, b: seq<T>)
    ensures Filter(p, a + b) == Filter(p, a) + Filter(p, b)
    decreases |a|
  {
    if a == [] {
      assert a + b == b;
    } else {
      assert (a + b)[0] == a[0] && (a + b)[1..] == a[1..] + b;
      FilterAppend(p, a[1..], b);
      var head := if p(a[0]) then [a[0]] else [];
      assert Filter(p, a + b) == head + Filter(p, a[1..] + b);
      assert head + (Filter(p, a[1..]) + Filter(p, b)) == head + Filter(p, a[1..]) + Filter(p, b);
    }
  }

  lemma {:induction false} FilterTwice<T>(p: T -> bool, q: T -> bool, both: T -> bool, s: seq<T>)
    requires forall x :: x in s ==> both(x) == (p(x) && q(x))
    ensures Filter(q, Filter(p, s)) == Filter(both, s)
    decreases |s|
  {
    if s != [] {
      FilterTwice(p, q, both, s[1..]);
      var head := if p(s[0]) then [s[0]] else [];
      FilterAppend(q, head, Filter(p, s[1..]));
      assert head == [] || head[1..] == [];
    }
  }

  lemma {:induction false} FilterSame<T>(p: T -> bool, q: T -> bool, s: seq<T>)
    requires forall x :: x in s ==> p(x) == q(x)
    ensures Filter(p, s) == Filter(q, s)
    decreases |s|
  {
    if s != [] {
      FilterSame(p, q, s[1..]);
    }
  }

  lemma {:induction false} FilterMembers<T>(p: T -> bool, s: seq<T>)
    ensures forall x :: x in Filter(p, s) <==> x in s && p(x)
    decreases |s|
  {
    if s != [] {
      FilterMembers(p, s[1..]);
      assert forall x :: x in s <==> x == s[0] || x in s[1..];
    }
  }

  // ----- Rewriting leaves the facts about other names alone -----

  /** Both contexts say the same about a name. */
  predicate Agree(a: Context, b: Context, n: Id) {
    Lookup(a.types, n) == Lookup(b.types, n) && Lookup(a.constants, n) == Lookup(b.constants, n)
  }

  /** `n` is not a name that lowering a copy of this code could generate. */
  predicate Foreign(n: Id, code: seq<Instruction>) {
    forall k :: 0 <= k < |code| && code[k].kind.Copy? && n.Generated? ==> n.owner != code[k].identity
  }

  lemma DecideAgrees(pass: Pass, a: Context, b: Context, i: Instruction)
    requires forall k :: 0 <= k < |i.inputs| ==> Agree(a, b, i.inputs[k])
    ensures Decide(pass, a, i) == Decide(pass, b, i)
  {
  }

  lemma {:induction false} AddTypesElsewhere(types: map<Id, Type>, values: seq<SsaValue>, n: Id)
    requires n !in N.ValueNames(values)
    ensures Lookup(AddTypes(types, values), n) == Lookup(types, n)
    decreases |values|
  {
    if values != [] {
      assert N.ValueNames(values)[0] == values[0].identity;
      assert N.ValueNames(values) == [values[0].identity] + N.ValueNames(values[1..]);
      AddTypesElsewhere(types[values[0].identity := values[0].ty], values[1..], n);
    }
  }

  lemma {:induction false} AddTypesAgree(a: map<Id, Type>, b: map<Id, Type>, values: seq<SsaValue>, n: Id)
    requires Lookup(a, n) == Lookup(b, n)
    ensures Lookup(AddTypes(a, values), n) == Lookup(AddTypes(b, values), n)
    decreases |values|
  {
    if values != [] {
      var v := values[0];
      AddTypesAgree(a[v.identity := v.ty], b[v.identity := v.ty], values[1..], n);
    }
  }

  lemma {:induction false} AddElsewhere(ctx: Context, code: seq<Instruction>, n: Id)
    requires n !in N.CodeNames(code)
    ensures Agree(AddInstructions(ctx, code), ctx, n)
    decreases |code|
  {
    hide AddTypes;
    if code != [] {
      var outputs := code[0].outputs;
      assert forall x :: x in N.ValueNames(outputs) || x in N.CodeNames(code[1..]) ==> x in N.CodeNames(code);
      assert outputs != [] ==> N.ValueNames(outputs)[0] == outputs[0].identity;
      AddTypesElsewhere(ctx.types, outputs, n);
      AddElsewhere(AddInstruction(ctx, code[0]), code[1..], n);
    }
  }

  lemma AddAgrees(a: Context, b: Context, i: Instruction, n: Id)
    requires Agree(a, b, n)
    ensures Agree(AddInstruction(a, i), AddInstruction(b, i), n)
  {
    hide AddTypes;
    AddTypesAgree(a.types, b.types, i.outputs, n);
  }

  lemma {:induction false} AddInstructionsAppend(ctx: Context, a: seq<Instruction>, b: seq<Instruction>)
    ensures AddInstructions(ctx, a + b) == AddInstructions(AddInstructions(ctx, a), b)
    decreases |a|
  {
    hide AddInstruction;
    if a == [] {
      assert a + b == b;
    } else {
      assert (a + b)[0] == a[0] && (a + b)[1..] == a[1..] + b;
      AddInstructionsAppend(AddInstruction(ctx, a[0]), a[1..], b);
    }
  }

  /** The last instruction of a plan defines the copy's result with its type, and no constant. */
  predicate Closes(code: seq<Instruction>, c: Instruction) {
    && code != [] && |c.outputs| == 1
    && var last := code[|code| - 1];
       !last.kind.Constant? && |last.outputs| == 1
       && last.outputs[0].identity == c.outputs[0].identity && last.outputs[0].ty == c.outputs[0].ty
  }

  lemma {:induction false} ChainCloses(pass: Pass, c: Instruction, block: Id, plan: Plan, offset: nat, current: Id, ordinal: nat)
    requires c.kind.Copy? && |c.inputs| == 5 && |c.outputs| == 1 && plan.Unroll? && offset < plan.count
    ensures Closes(ChainCode(pass, c, block, plan, offset, current, ordinal).code, c)
    decreases plan.count - offset
  {
    hide IndexCode;
    var x := StepCode(pass, c, block, plan, offset, current, ordinal);
    if offset + 1 < plan.count {
      ChainCloses(pass, c, block, plan, offset + 1, x.value, x.ordinal);
    }
  }

  lemma PlanCloses(pass: Pass, c: Instruction, block: Id, plan: Plan)
    requires c.kind.Copy? && |c.inputs| == 5 && |c.outputs| == 1 && Planned(plan)
    ensures Closes(PlanCode(pass, c, block, plan).code, c)
  {
    hide ChainCode, RebuildElements, ViewCode, CheckCode;
    if plan.Unroll? {
      ChainCloses(pass, c, block, plan, 0, c.inputs[0], 0);
    }
  }

  /** A plan's code records what the copy recorded, but for names generated for that copy. */
  lemma PlanAgrees(pass: Pass, c: Instruction, block: Id, plan: Plan, a: Context, b: Context, n: Id)
    requires c.kind.Copy? && |c.inputs| == 5 && |c.outputs| == 1 && Planned(plan)
    requires Agree(a, b, n) && (n.Generated? ==> n.owner != c.identity)
    ensures Agree(AddInstruction(a, c), AddInstructions(b, PlanCode(pass, c, block, plan).code), n)
  {
    hide PlanCode, Agree;
    var code := PlanCode(pass, c, block, plan).code;
    N.PlanFinishes(pass, c, block, plan);
    PlanCloses(pass, c, block, plan);
    var before, last := code[..|code| - 1], code[|code| - 1];
    assert code == before + [last];
    assert n !in N.CodeNames(before);
    AddElsewhere(b, before, n);
    var b' := AddInstructions(b, before);
    AddInstructionsAppend(b, before, [last]);
    AddOne(b', last);
    AgreeThrough(a, b, b', n);
    LastAgrees(a, b', c, last, n);
  }

  lemma AgreeThrough(a: Context, b: Context, b': Context, n: Id)
    requires Agree(a, b, n) && Agree(b', b, n)
    ensures Agree(a, b', n)
  {
  }

  lemma LastAgrees(a: Context, b: Context, c: Instruction, last: Instruction, n: Id)
    requires Agree(a, b, n) && c.kind.Copy? && Closes([last], c)
    ensures Agree(AddInstruction(a, c), AddInstruction(b, last), n)
  {
    assert c.outputs == [c.outputs[0]] && last.outputs == [last.outputs[0]];
    AddTypesOne(a.types, c.outputs[0]);
    AddTypesOne(b.types, last.outputs[0]);
  }

  lemma AddTypesOne(types: map<Id, Type>, v: SsaValue)
    ensures AddTypes(types, [v]) == types[v.identity := v.ty]
  {
    assert [v][1..] == [];
  }

  lemma AddOne(ctx: Context, i: Instruction)
    ensures AddInstructions(ctx, [i]) == AddInstruction(ctx, i)
  {
    assert [i][1..] == [];
  }

  lemma {:induction false} CodeAgrees(pass: Pass, ctx: Context, block: Id, code: seq<Instruction>, a: Context, b: Context, n: Id)
    requires LowerInstructions(pass, ctx, block, code).Ok? && Agree(a, b, n) && Foreign(n, code)
    ensures Agree(AddInstructions(a, code), AddInstructions(b, LowerInstructions(pass, ctx, block, code).value.items), n)
    decreases |code|
  {
    hide Decide, PlanCode, Agree, AddInstruction;
    if code != [] {
      var first, rest := LowerInstruction(pass, ctx, block, code[0]).value, LowerInstructions(pass, ctx, block, code[1..]).value;
      var b' := AddInstructions(b, first.items);
      if Decide(pass, ctx, code[0]).value.Keep? {
        AddOne(b, code[0]);
        AddAgrees(a, b, code[0], n);
      } else {
        DecidesPlanned(pass, ctx, code[0]);
        PlanAgrees(pass, code[0], block, Decide(pass, ctx, code[0]).value, a, b, n);
      }
      assert forall k :: 0 <= k < |code| - 1 ==> code[1..][k] == code[k + 1];
      CodeAgrees(pass, ctx, block, code[1..], AddInstruction(a, code[0]), b', n);
      AddInstructionsAppend(b, first.items, rest.items);
    }
  }

  predicate ForeignTo(n: Id, blocks: seq<Block>) {
    forall k :: 0 <= k < |blocks| ==> Foreign(n, blocks[k].instructions)
  }

  lemma {:induction false} BlocksAgree(pass: Pass, ctx: Context, blocks: seq<Block>, a: Context, b: Context, n: Id)
    requires LowerBlocks(pass, ctx, blocks).Ok? && Agree(a, b, n) && ForeignTo(n, blocks)
    ensures Agree(AddBlocks(a, blocks), AddBlocks(b, LowerBlocks(pass, ctx, blocks).value.items), n)
    decreases |blocks|
  {
    hide LowerInstructions, AddInstructions, AddTypes, Foreign;
    if blocks != [] {
      var first, rest := LowerBlock(pass, ctx, blocks[0]).value.items[0], LowerBlocks(pass, ctx, blocks[1..]).value.items;
      var parameters := blocks[0].parameters;
      AddTypesAgree(a.types, b.types, parameters, n);
      var a1, b1 := a.(types := AddTypes(a.types, parameters)), b.(types := AddTypes(b.types, parameters));
      CodeAgrees(pass, ctx, blocks[0].identity, blocks[0].instructions, a1, b1, n);
      assert forall k :: 0 <= k < |blocks| - 1 ==> blocks[1..][k] == blocks[k + 1];
      BlocksAgree(pass, ctx, blocks[1..], AddInstructions(a1, blocks[0].instructions), AddInstructions(b1, first.instructions), n);
      assert ([first] + rest)[1..] == rest;
    }
  }

  /** What a pass collects about a name is not changed by an earlier pass, unless that pass
      generated the name. */
  lemma FactsStay(pass: Pass, f: Function, n: Id)
    requires LowerFunction(pass, f).Ok? && ForeignTo(n, f.blocks)
    ensures Agree(Collect(f), Collect(LowerFunction(pass, f).value.items[0]), n)
  {
    hide LowerBlocks, AddBlocks, AddTypes;
    var ctx := Context(AddTypes(AddTypes(map[], f.inputs), f.outputs), map[]);
    BlocksAgree(pass, Collect(f), f.blocks, ctx, ctx, n);
  }

  // ----- One pass keeps the copies it decides to keep -----

  function Keeps(pass: Pass, ctx: Context): Instruction -> bool {
    (i: Instruction) => Decide(pass, ctx, i) == Ok(Keep)
  }

  lemma {:induction false} NoCopies(code: seq<Instruction>)
    requires forall k :: 0 <= k < |code| ==> !code[k].kind.Copy?
    ensures Copies(code) == []
    decreases |code|
  {
    if code != [] {
      NoCopies(code[1..]);
    }
  }

  lemma {:induction false} CopiesKept(pass: Pass, ctx: Context, block: Id, code: seq<Instruction>)
    requires LowerInstructions(pass, ctx, block, code).Ok?
    ensures Copies(LowerInstructions(pass, ctx, block, code).value.items) == Filter(Keeps(pass, ctx), Copies(code))
    decreases |code|
  {
    hide Decide, PlanCode;
    if code != [] {
      var c := code[0];
      var first, rest := LowerInstruction(pass, ctx, block, c).value.items, LowerInstructions(pass, ctx, block, code[1..]).value.items;
      CopiesKept(pass, ctx, block, code[1..]);
      FilterAppend(IsCopy(), first, rest);
      if Decide(pass, ctx, c).value.Keep? {
        assert [c][1..] == [];
      } else {
        DecidesPlanned(pass, ctx, c);
        N.PlanSimple(pass, c, block, Decide(pass, ctx, c).value);
        NoCopies(first);
      }
      var head := if c.kind.Copy? then [c] else [];
      FilterAppend(Keeps(pass, ctx), head, Copies(code[1..]));
      assert head == [] || head[1..] == [];
    }
  }

  // ----- All three passes -----

  /** Every copy of the function is typed as in a validated module, and reads names the function defines. */
  ghost predicate TypedCopies(f: Function) {
    forall b, k :: 0 <= b < |f.blocks| && 0 <= k < |f.blocks[b].instructions| && f.blocks[b].instructions[k].kind.Copy? ==>
      var i := f.blocks[b].instructions[k];
      R.WellTypedCopy(Collect(f), i) && forall n :: n in i.inputs ==> n in N.FunctionNames(f)
  }

  /** Which copies no pass resolves: static ones whose window is not constant, or too long to
      unroll over a destination too long to rebuild; checked ones whose length is no constant to
      unroll, or whose constant window leaves the destination or 64 bits; and those over sequences
      of no exact length. */
  predicate Survives(ctx: Context, i: Instruction) {
    && i.kind.Copy? && |i.inputs| == 5
    && var dstAt, srcAt, length := Lookup(ctx.constants, i.inputs[1]), Lookup(ctx.constants, i.inputs[3]), Lookup(ctx.constants, i.inputs[4]);
       var known := dstAt.Some? && srcAt.Some? && length.Some?;
       match i.kind.evidence
       case StaticExact =>
         i.kind.dstBound.Exact? && i.kind.srcBound.Exact? && known ==> length.value > 256 && i.kind.dstBound.length > 512
       case RuntimeChecked(_) =>
         i.kind.dstBound.Exact? && length.Some? && length.value <= 256 ==>
           length.value > 0 && known && (dstAt.value + length.value > i.kind.dstBound.length || srcAt.value + length.value >= U64_LIMIT)
  }

  /** A static copy whose constant window breaks its static promise. */
  predicate Broken(ctx: Context, i: Instruction) {
    && i.kind.Copy? && |i.inputs| == 5 && i.kind.evidence.StaticExact? && i.kind.dstBound.Exact? && i.kind.srcBound.Exact?
    && var dstAt, srcAt, length := Lookup(ctx.constants, i.inputs[1]), Lookup(ctx.constants, i.inputs[3]), Lookup(ctx.constants, i.inputs[4]);
       && dstAt.Some? && srcAt.Some? && length.Some?
       && (dstAt.value + length.value > i.kind.dstBound.length || srcAt.value + length.value > i.kind.srcBound.length)
  }

  /** In one context, the three decisions together. */
  lemma DecisionsTogether(ctx: Context, i: Instruction)
    requires R.WellTypedCopy(ctx, i)
    ensures Decide(StaticPass, ctx, i).Err? <==> Broken(ctx, i)
    ensures Decide(WindowPass, ctx, i).Ok? && Decide(OffsetPass, ctx, i).Ok?
    ensures !Broken(ctx, i) ==>
              (Survives(ctx, i) <==> forall pass :: Decide(pass, ctx, i) == Ok(Keep))
  {
    hide DecideStatic, DecideWindow, DecideOffset;
    if i.kind.evidence.StaticExact? {
      StaticNeverChecked(ctx, i);
      if i.kind.dstBound.Exact? && i.kind.srcBound.Exact? {
        R.StaticSurvivors(ctx, i);
      }
    } else {
      CheckedNeverStatic(ctx, i);
      if i.kind.dstBound.Exact? {
        R.RuntimeSurvivors(ctx, i);
      }
    }
    ThreePasses(ctx, i);
  }

  lemma ThreePasses(ctx: Context, i: Instruction)
    ensures (forall pass :: Decide(pass, ctx, i) == Ok(Keep)) <==>
            Decide(StaticPass, ctx, i) == Ok(Keep) && Decide(WindowPass, ctx, i) == Ok(Keep) && Decide(OffsetPass, ctx, i) == Ok(Keep)
  {
    hide DecideStatic, DecideWindow, DecideOffset;
  }

  lemma StaticNeverChecked(ctx: Context, i: Instruction)
    requires i.kind.Copy? && i.kind.evidence.StaticExact?
    ensures Decide(WindowPass, ctx, i) == Decide(OffsetPass, ctx, i) == Ok(Keep)
    ensures !(i.kind.dstBound.Exact? && i.kind.srcBound.Exact?) ==> Decide(StaticPass, ctx, i) == Ok(Keep)
  {
  }

  lemma CheckedNeverStatic(ctx: Context, i: Instruction)
    requires i.kind.Copy? && i.kind.evidence.RuntimeChecked?
    ensures Decide(StaticPass, ctx, i) == Ok(Keep)
    ensures !i.kind.dstBound.Exact? ==> Decide(WindowPass, ctx, i) == Decide(OffsetPass, ctx, i) == Ok(Keep)
  {
  }

  /** `g` is what some passes made of `f`: the same blocks with no copies but those of `f`, and
      the same facts about what they read. */
  ghost predicate Descends(f: Function, g: Function) {
    && |g.blocks| == |f.blocks|
    && (forall b, i :: 0 <= b < |f.blocks| && i in Copies(g.blocks[b].instructions) ==> i in Copies(f.blocks[b].instructions))
    && (forall b, i, n :: 0 <= b < |f.blocks| && i in Copies(f.blocks[b].instructions) && n in i.inputs ==> Agree(Collect(f), Collect(g), n))
  }

  lemma CopiesInside(f: Function, b: nat, i: Instruction)
    requires b < |f.blocks| && i in Copies(f.blocks[b].instructions)
    ensures i.kind.Copy? && i in f.blocks[b].instructions && i.identity in N.FunctionNames(f)
  {
    hide N.InstructionNames;
    var code := f.blocks[b].instructions;
    FilterMembers(IsCopy(), code);
    var k :| 0 <= k < |code| && code[k] == i;
    P.BlocksNamesInside(f.blocks, b);
    P.CodeNamesInside(code, k);
    assert i.identity in N.InstructionNames(i) by { P.NamesOfInstruction(i); }
    assert i.identity in N.BlockNames(f.blocks[b]) by { P.BlockNamesParts(f.blocks[b]); }
  }

  lemma CopyTyped(f: Function, b: nat, i: Instruction)
    requires TypedCopies(f) && b < |f.blocks| && i in Copies(f.blocks[b].instructions)
    ensures R.WellTypedCopy(Collect(f), i) && forall n :: n in i.inputs ==> n in N.FunctionNames(f)
  {
    hide Collect, R.WellTypedCopy;
    CopiesInside(f, b, i);
    var k :| 0 <= k < |f.blocks[b].instructions| && f.blocks[b].instructions[k] == i;
  }

  /** What a copy reads was not generated for another copy of its function. */
  lemma OperandsForeign(f: Function, g: Function, n: Id)
    requires Descends(f, g) && N.Apart(N.FunctionNames(f)) && n in N.FunctionNames(f)
    ensures ForeignTo(n, g.blocks)
  {
    hide Copies, Collect, N.FunctionNames;
    forall b, k | 0 <= b < |g.blocks| && 0 <= k < |g.blocks[b].instructions| && g.blocks[b].instructions[k].kind.Copy? && n.Generated?
      ensures n.owner != g.blocks[b].instructions[k].identity
    {
      var code := g.blocks[b].instructions;
      CopyPicked(code, k);
      assert code[k] in Copies(f.blocks[b].instructions);
      CopiesInside(f, b, code[k]);
    }
  }

  lemma CopyPicked(code: seq<Instruction>, k: nat)
    requires k < |code| && code[k].kind.Copy?
    ensures code[k] in Copies(code)
  {
    FilterMembers(IsCopy(), code);
  }

  lemma LoweredCopies(pass: Pass, g: Function, g': Function, b: nat)
    requires LowerFunction(pass, g).Ok? && LowerFunction(pass, g).value.items == [g']
    ensures |g'.blocks| == |g.blocks|
    ensures b < |g.blocks| ==>
              Copies(g'.blocks[b].instructions) == Filter(Keeps(pass, Collect(g)), Copies(g.blocks[b].instructions))
  {
    hide LowerBlocks, LowerInstructions, Collect, Copies, Keeps, Filter;
    S.LoweredBlockAt(pass, Collect(g), g.blocks, b);
    if b < |g.blocks| {
      CopiesKept(pass, Collect(g), g.blocks[b].identity, g.blocks[b].instructions);
    }
  }

  /** A pass over what earlier passes left keeps the copies it would keep in the original. */
  lemma PassDescends(pass: Pass, f: Function, g: Function, g': Function, b: nat)
    requires Descends(f, g) && TypedCopies(f) && N.Apart(N.FunctionNames(f))
    requires LowerFunction(pass, g).Ok? && LowerFunction(pass, g).value.items == [g'] && b < |f.blocks|
    ensures |g'.blocks| == |f.blocks|
    ensures Copies(g'.blocks[b].instructions) == Filter(Keeps(pass, Collect(f)), Copies(g.blocks[b].instructions))
  {
    hide LowerFunction, Collect, Copies, Filter, TypedCopies, Decide, Agree;
    LoweredCopies(pass, g, g', b);
    forall i | i in Copies(g.blocks[b].instructions)
      ensures Decide(pass, Collect(g), i) == Decide(pass, Collect(f), i)
    {
      DecideAgrees(pass, Collect(f), Collect(g), i);
    }
    FilterSame(Keeps(pass, Collect(g)), Keeps(pass, Collect(f)), Copies(g.blocks[b].instructions));
  }

  lemma StillDescends(pass: Pass, f: Function, g: Function, g': Function)
    requires Descends(f, g) && TypedCopies(f) && N.Apart(N.FunctionNames(f))
    requires LowerFunction(pass, g).Ok? && LowerFunction(pass, g).value.items == [g']
    ensures Descends(f, g')
  {
    hide LowerFunction, Collect, Copies, Filter, TypedCopies, Agree, N.Apart, N.FunctionNames;
    LoweredCopies(pass, g, g', 0);
    forall b, i | 0 <= b < |f.blocks| && i in Copies(g'.blocks[b].instructions) ensures i in Copies(f.blocks[b].instructions) {
      LoweredCopies(pass, g, g', b);
      FilterMembers(Keeps(pass, Collect(g)), Copies(g.blocks[b].instructions));
    }
    forall b, i, n | 0 <= b < |f.blocks| && i in Copies(f.blocks[b].instructions) && n in i.inputs
      ensures Agree(Collect(f), Collect(g'), n)
    {
      CopyTyped(f, b, i);
      OperandsForeign(f, g, n);
      FactsStay(pass, g, n);
      StillAgree(Collect(f), Collect(g), Collect(g'), n);
    }
  }

  lemma StillAgree(a: Context, b: Context, c: Context, n: Id)
    requires Agree(a, b, n) && Agree(b, c, n)
    ensures Agree(a, c, n)
  {
  }

  function Survivors(ctx: Context, code: seq<Instruction>): seq<Instruction> {
    Filter(Surviving(ctx), code)
  }

  function Surviving(ctx: Context): Instruction -> bool {
    (i: Instruction) => Survives(ctx, i)
  }

  /** No copy of a function is broken. */
  ghost predicate Unbroken(f: Function) {
    forall b, i :: 0 <= b < |f.blocks| && i in Copies(f.blocks[b].instructions) ==> !Broken(Collect(f), i)
  }

  lemma ThriceFiltered(f: Function, b: nat)
    requires TypedCopies(f) && Unbroken(f) && b < |f.blocks|
    ensures var ctx, c := Collect(f), Copies(f.blocks[b].instructions);
            Filter(Keeps(OffsetPass, ctx), Filter(Keeps(WindowPass, ctx), Filter(Keeps(StaticPass, ctx), c)))
            == Survivors(ctx, f.blocks[b].instructions)
  {
    hide Collect, TypedCopies, Decide, Broken, Survives, Filter;
    var ctx, code := Collect(f), f.blocks[b].instructions;
    var c := Copies(code);
    var s, w, o := Keeps(StaticPass, ctx), Keeps(WindowPass, ctx), Keeps(OffsetPass, ctx);
    var sw := (i: Instruction) => s(i) && w(i);
    FilterTwice(s, w, sw, c);
    forall i | i in c ensures Surviving(ctx)(i) == (sw(i) && o(i)) {
      CopyTyped(f, b, i);
      DecisionsTogether(ctx, i);
      ThreePasses(ctx, i);
    }
    FilterTwice(sw, o, Surviving(ctx), c);
    forall i | i in code ensures Surviving(ctx)(i) == (IsCopy()(i) && Surviving(ctx)(i)) {
      SurvivorIsCopy(ctx, i);
    }
    FilterTwice(IsCopy(), Surviving(ctx), Surviving(ctx), code);
  }

  lemma SurvivorIsCopy(ctx: Context, i: Instruction)
    ensures Survives(ctx, i) ==> i.kind.Copy?
  {
  }

  lemma DescendsFromItself(f: Function)
    ensures Descends(f, f)
  {
    hide Collect, Copies;
  }

  lemma FunctionSurvivors(f: Function, f1: Function, f2: Function, f3: Function, b: nat)
    requires TypedCopies(f) && Unbroken(f) && N.Apart(N.FunctionNames(f))
    requires LowerFunction(StaticPass, f).Ok? && LowerFunction(StaticPass, f).value.items == [f1]
    requires LowerFunction(WindowPass, f1).Ok? && LowerFunction(WindowPass, f1).value.items == [f2]
    requires LowerFunction(OffsetPass, f2).Ok? && LowerFunction(OffsetPass, f2).value.items == [f3]
    ensures |f3.blocks| == |f.blocks|
    ensures b < |f.blocks| ==> Copies(f3.blocks[b].instructions) == Survivors(Collect(f), f.blocks[b].instructions)
  {
    hide LowerFunction, Collect, Copies, Filter, TypedCopies, Keeps, Descends, Unbroken, Survivors, N.Apart, N.FunctionNames;
    DescendsFromItself(f);
    StillDescends(StaticPass, f, f, f1);
    StillDescends(WindowPass, f, f1, f2);
    LoweredCopies(StaticPass, f, f1, b);
    LoweredCopies(WindowPass, f1, f2, b);
    LoweredCopies(OffsetPass, f2, f3, b);
    if b < |f.blocks| {
      PassDescends(StaticPass, f, f, f1, b);
      PassDescends(WindowPass, f, f1, f2, b);
      PassDescends(OffsetPass, f, f2, f3, b);
      ThriceFiltered(f, b);
    }
  }

  // ----- Whole programs -----

  /** Names defined once, and every copy as a validated module has it. */
  ghost predicate TypedProgram(p: seq<Function>) {
    N.Apart(N.ProgramNames(p)) && forall k :: 0 <= k < |p| ==> TypedCopies(p[k])
  }

  lemma OnlyCopiesRefused(pass: Pass, ctx: Context, i: Instruction)
    ensures Decide(pass, ctx, i).Err? ==> i.kind.Copy?
  {
  }

  /** The first pass refuses exactly broken copies. */
  lemma RefusedWhenBroken(f: Function)
    requires TypedCopies(f)
    ensures R.Refuses(StaticPass, Collect(f), f.blocks) <==> !Unbroken(f)
  {
    hide Collect, TypedCopies, Decide, Broken, Copies;
    if b, k :| 0 <= b < |f.blocks| && 0 <= k < |f.blocks[b].instructions| && Decide(StaticPass, Collect(f), f.blocks[b].instructions[k]).Err? {
      var i := f.blocks[b].instructions[k];
      OnlyCopiesRefused(StaticPass, Collect(f), i);
      CopyPicked(f.blocks[b].instructions, k);
      CopyTyped(f, b, i);
      DecisionsTogether(Collect(f), i);
    }
    if b, i :| 0 <= b < |f.blocks| && i in Copies(f.blocks[b].instructions) && Broken(Collect(f), i) {
      CopyTyped(f, b, i);
      CopiesInside(f, b, i);
      DecisionsTogether(Collect(f), i);
      var k :| 0 <= k < |f.blocks[b].instructions| && f.blocks[b].instructions[k] == i;
    }
  }

  /** The later passes refuse nothing. */
  lemma DescendantsPass(pass: Pass, f: Function, g: Function)
    requires Descends(f, g) && TypedCopies(f) && !pass.StaticPass?
    ensures !R.Refuses(pass, Collect(g), g.blocks)
  {
    hide Collect, TypedCopies, Decide, Copies, Agree;
    forall b, k | 0 <= b < |g.blocks| && 0 <= k < |g.blocks[b].instructions|
      ensures Decide(pass, Collect(g), g.blocks[b].instructions[k]).Ok?
    {
      var i := g.blocks[b].instructions[k];
      OnlyCopiesRefused(pass, Collect(g), i);
      if i.kind.Copy? {
        CopyPicked(g.blocks[b].instructions, k);
        CopyTyped(f, b, i);
        DecideAgrees(pass, Collect(f), Collect(g), i);
        DecisionsTogether(Collect(f), i);
      }
    }
  }

  ghost predicate AllDescend(p: seq<Function>, q: seq<Function>) {
    |q| == |p| && forall k :: 0 <= k < |p| ==> Descends(p[k], q[k])
  }

  lemma FunctionsDescend(pass: Pass, p: seq<Function>, q: seq<Function>)
    requires TypedProgram(p) && AllDescend(p, q) && LowerFunctions(pass, q).Ok?
    ensures AllDescend(p, LowerFunctions(pass, q).value.items)
  {
    hide LowerFunctions, LowerFunction, TypedCopies, Descends, N.Apart, N.FunctionNames;
    var r := LowerFunctions(pass, q).value.items;
    P.LoweredAt(pass, q, 0);
    forall k | 0 <= k < |p| ensures Descends(p[k], r[k]) {
      P.LoweredAt(pass, q, k);
      P.FunctionNamesApart(p, p[k]);
      StillDescends(pass, p[k], q[k], r[k]);
    }
  }

  lemma LaterPasses(pass: Pass, p: seq<Function>, q: seq<Function>)
    requires TypedProgram(p) && AllDescend(p, q) && !pass.StaticPass?
    ensures LowerFunctions(pass, q).Ok?
  {
    hide LowerFunctions, TypedCopies, Descends, Collect, R.Refuses, N.Apart;
    R.PassFails(pass, q);
    forall k | 0 <= k < |q| ensures !R.Refuses(pass, Collect(q[k]), q[k].blocks) {
      DescendantsPass(pass, p[k], q[k]);
    }
  }

  /** Lowering a program of typed copies fails exactly when a static copy somewhere has a constant
      window that breaks its promise: no later pass finds anything to refuse. */
  lemma LoweringFails(p: seq<Function>)
    requires TypedProgram(p)
    ensures LowerAll(p).Err? <==> exists k :: 0 <= k < |p| && !Unbroken(p[k])
  {
    hide LowerFunctions, TypedCopies, Descends, Collect, R.Refuses, N.Apart, Unbroken;
    R.PassFails(StaticPass, p);
    forall k | 0 <= k < |p| ensures R.Refuses(StaticPass, Collect(p[k]), p[k].blocks) <==> !Unbroken(p[k]) {
      RefusedWhenBroken(p[k]);
    }
    if LowerFunctions(StaticPass, p).Ok? {
      forall k | 0 <= k < |p| ensures Descends(p[k], p[k]) {
        DescendsFromItself(p[k]);
      }
      var a := LowerFunctions(StaticPass, p).value.items;
      FunctionsDescend(StaticPass, p, p);
      LaterPasses(WindowPass, p, a);
      FunctionsDescend(WindowPass, p, a);
      LaterPasses(OffsetPass, p, LowerFunctions(WindowPass, a).value.items);
    }
  }

  lemma BrokenEvidence(ctx: Context, i: Instruction, e: LoweringError)
    requires R.WellTypedCopy(ctx, i) && Decide(StaticPass, ctx, i) == Err(e)
    ensures e == EvidenceViolated(i.identity) && Broken(ctx, i)
  {
    assert 1 in {1, 3, 4} && 3 in {1, 3, 4} && 4 in {1, 3, 4};
  }

  /** Then the error is that of a copy whose constant window breaks its promise. */
  lemma LoweringFailsAs(p: seq<Function>)
    requires TypedProgram(p) && LowerAll(p).Err?
    ensures exists k, b, i :: 0 <= k < |p| && 0 <= b < |p[k].blocks| && i in p[k].blocks[b].instructions
              && Broken(Collect(p[k]), i) && LowerAll(p).error == EvidenceViolated(i.identity)
    ensures R.ProgramRefusesAs(StaticPass, p, LowerAll(p).error)
  {
    hide LowerFunctions, TypedCopies, Descends, Collect, R.Refuses, N.Apart, Unbroken, Decide, Broken, R.WellTypedCopy;
    OnlyFirstFails(p);
    var e := LowerAll(p).error;
    R.PassFailsFirst(StaticPass, p, e);
    var k :| 0 <= k < |p| && R.BlocksRefuseAs(StaticPass, Collect(p[k]), p[k].blocks, e) && LowerFunctions(StaticPass, p[..k]).Ok?;
    var b :| 0 <= b < |p[k].blocks| && R.CodeRefusesAs(StaticPass, Collect(p[k]), p[k].blocks[b].instructions, e)
                && !R.Refuses(StaticPass, Collect(p[k]), p[k].blocks[..b]);
    var code := p[k].blocks[b].instructions;
    var n :| 0 <= n < |code| && Decide(StaticPass, Collect(p[k]), code[n]) == Err(e);
    OnlyCopiesRefused(StaticPass, Collect(p[k]), code[n]);
    CopyPicked(code, n);
    CopyTyped(p[k], b, code[n]);
    BrokenEvidence(Collect(p[k]), code[n], e);
  }

  lemma OnlyFirstFails(p: seq<Function>)
    requires TypedProgram(p) && LowerAll(p).Err?
    ensures LowerFunctions(StaticPass, p) == Err(LowerAll(p).error)
  {
    hide LowerFunctions, TypedCopies, Descends, N.Apart;
    if LowerFunctions(StaticPass, p).Ok? {
      forall k | 0 <= k < |p| ensures Descends(p[k], p[k]) {
        DescendsFromItself(p[k]);
      }
      var a := LowerFunctions(StaticPass, p).value.items;
      FunctionsDescend(StaticPass, p, p);
      LaterPasses(WindowPass, p, a);
      FunctionsDescend(WindowPass, p, a);
      LaterPasses(OffsetPass, p, LowerFunctions(WindowPass, a).value.items);
    }
  }

  /** Every block of `g` has the surviving copies of that block of `f`, in their order. */
  ghost predicate HoldsSurvivors(f: Function, g: Function) {
    && |g.blocks| == |f.blocks|
    && forall b :: 0 <= b < |f.blocks| ==> Copies(g.blocks[b].instructions) == Survivors(Collect(f), f.blocks[b].instructions)
  }

  /** When the three passes succeed, the copies of every block are the surviving ones of the
      original block, in their order, each decided by what its own original function says. */
  lemma CopiesLeft(p: seq<Function>)
    requires TypedProgram(p) && LowerAll(p).Ok?
    ensures var r := LowerAll(p).value.items;
            |r| == |p| && forall k :: 0 <= k < |p| ==> HoldsSurvivors(p[k], r[k])
  {
    hide LowerFunctions, LowerFunction, TypedCopies, Collect, N.Apart, Unbroken, Copies, Survivors, N.FunctionNames;
    var p1 := LowerFunctions(StaticPass, p).value.items;
    var p2 := LowerFunctions(WindowPass, p1).value.items;
    var p3 := LowerFunctions(OffsetPass, p2).value.items;
    LoweringFails(p);
    P.LoweredAt(StaticPass, p, 0);
    P.LoweredAt(WindowPass, p1, 0);
    P.LoweredAt(OffsetPass, p2, 0);
    forall k | 0 <= k < |p| ensures HoldsSurvivors(p[k], p3[k]) {
      P.FunctionNamesApart(p, p[k]);
      P.LoweredAt(StaticPass, p, k);
      P.LoweredAt(WindowPass, p1, k);
      P.LoweredAt(OffsetPass, p2, k);
      FunctionSurvivors(p[k], p1[k], p2[k], p3[k], 0);
      forall b | 0 <= b < |p[k].blocks|
        ensures Copies(p3[k].blocks[b].instructions) == Survivors(Collect(p[k]), p[k].blocks[b].instructions)
      {
        FunctionSurvivors(p[k], p1[k], p2[k], p3[k], b);
      }
    }
  }

  /** One copy at a time: it is in the lowered block exactly when it was in the original block
      and survives there. */
  lemma CopySurvives(p: seq<Function>, k: nat, b: nat, i: Instruction)
    requires TypedProgram(p) && LowerAll(p).Ok? && k < |p| && b < |p[k].blocks| && i.kind.Copy?
    ensures var r := LowerAll(p).value.items;
            && |r| == |p| && |r[k].blocks| == |p[k].blocks|
            && (i in r[k].blocks[b].instructions <==> i in p[k].blocks[b].instructions && Survives(Collect(p[k]), i))
  {
    hide LowerAll, TypedProgram, Collect, Survives, Filter;
    assert HoldsSurvivors(p[k], LowerAll(p).value.items[k]) by { CopiesLeft(p); }
    CopiesLeft(p);
    var r := LowerAll(p).value.items;
    FilterMembers(IsCopy(), r[k].blocks[b].instructions);
    FilterMembers(Surviving(Collect(p[k])), p[k].blocks[b].instructions);
  }
}
