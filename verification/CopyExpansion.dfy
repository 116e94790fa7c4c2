/** The lowered program instruction by instruction: what was not a copy, or was left, stands where it stood,
    and in the place of every other copy stands code that carries over what it had. */
module CopyExpansion {
  import opened Prelude
  import opened SsaSyntax
  import opened CopyLowering
  import opened CopyCarriage
  import N = CopyNames
  import R = CopyResults
  import S = CopyScopes
  import P = CopyPreservation
  import U = CopySurvivors

  // ----- One block -----

  /** Which roles are right for the instruction that takes a copy's place. */
  type Choice = (Instruction, Role) -> bool

  ghost predicate Replaces(pass: Pass, right: Choice, block: Id, c: Instruction, part: seq<Instruction>) {
    Carries(pass, c, block, part) && right(c, part[|part| - 1].identity.role)
  }

  /** What stands for an instruction: itself, or code in the place of a copy. */
  ghost predicate Stands(right: Choice, block: Id, i: Instruction, part: seq<Instruction>) {
    part == [i] || exists pass :: Replaces(pass, right, block, i, part)
  }

  /** The second code is the first one, with something standing for each instruction in turn. */
  ghost predicate Expands(right: Choice, block: Id, code: seq<Instruction>, code': seq<Instruction>)
    decreases |code|
  {
    if code == [] then code' == []
    else exists n :: 0 < n <= |code'| && Stands(right, block, code[0], code'[..n]) && Expands(right, block, code[1..], code'[n..])
  }

  lemma {:induction false} ExpandsToItself(right: Choice, block: Id, code: seq<Instruction>)
    ensures Expands(right, block, code, code)
    decreases |code|
  {
    if code != [] {
      ExpandsToItself(right, block, code[1..]);
      assert code[..1] == [code[0]];
    }
  }

  lemma {:induction false} LowersApart(pass: Pass, ctx: Context, block: Id, a: seq<Instruction>, b: seq<Instruction>)
    requires LowerInstructions(pass, ctx, block, a + b).Ok?
    ensures LowerInstructions(pass, ctx, block, a).Ok? && LowerInstructions(pass, ctx, block, b).Ok?
    ensures LowerInstructions(pass, ctx, block, a + b).value ==
              Join(LowerInstructions(pass, ctx, block, a).value, LowerInstructions(pass, ctx, block, b).value)
    decreases |a|
  {
    hide LowerInstruction;
    if a == [] {
      assert a + b == b;
      JoinNothing(LowerInstructions(pass, ctx, block, b).value);
    } else {
      assert (a + b)[0] == a[0] && (a + b)[1..] == a[1..] + b;
      LowersApart(pass, ctx, block, a[1..], b);
      JoinThrice(LowerInstruction(pass, ctx, block, a[0]).value, LowerInstructions(pass, ctx, block, a[1..]).value,
                 LowerInstructions(pass, ctx, block, b).value);
    }
  }

  lemma JoinNothing<T>(a: Output<T>)
    ensures Join(Nothing(), a) == a && Join(a, Nothing()) == a
  {
    assert a.items + [] == a.items && a.records + [] == a.records && a.obligations + [] == a.obligations;
  }

  lemma JoinThrice<T>(a: Output<T>, b: Output<T>, c: Output<T>)
    ensures Join(a, Join(b, c)) == Join(Join(a, b), c)
  {
    assert a.items + (b.items + c.items) == a.items + b.items + c.items;
    assert a.records + (b.records + c.records) == a.records + b.records + c.records;
    assert a.obligations + (b.obligations + c.obligations) == a.obligations + b.obligations + c.obligations;
  }

  lemma {:induction false} NoCopiesStay(pass: Pass, ctx: Context, block: Id, code: seq<Instruction>)
    requires forall k :: 0 <= k < |code| ==> !code[k].kind.Copy?
    ensures LowerInstructions(pass, ctx, block, code) == Ok(Output(code, [], []))
    decreases |code|
  {
    hide Decide;
    if code != [] {
      OthersAreKept(pass, ctx, code[0]);
      NoCopiesStay(pass, ctx, block, code[1..]);
      JoinPlain(code[0], code[1..]);
      assert [code[0]] + code[1..] == code;
    }
  }

  lemma JoinPlain(i: Instruction, rest: seq<Instruction>)
    ensures Join(Output([i], [], []), Output(rest, [], [])) == Output([i] + rest, [], [])
  {
  }

  lemma OthersAreKept(pass: Pass, ctx: Context, i: Instruction)
    requires !i.kind.Copy?
    ensures Decide(pass, ctx, i) == Ok(Keep)
  {
  }

  lemma LowersOne(pass: Pass, ctx: Context, block: Id, i: Instruction)
    requires LowerInstructions(pass, ctx, block, [i]).Ok?
    ensures LowerInstruction(pass, ctx, block, i).Ok?
    ensures LowerInstructions(pass, ctx, block, [i]).value == LowerInstruction(pass, ctx, block, i).value
  {
    hide LowerInstruction;
    assert [i][1..] == [];
    JoinNothing(LowerInstruction(pass, ctx, block, i).value);
  }

  lemma CarriedHasNoCopies(pass: Pass, c: Instruction, block: Id, code: seq<Instruction>)
    requires Carries(pass, c, block, code)
    ensures code != [] && code[|code| - 1].identity.Generated? && forall k :: 0 <= k < |code| ==> !code[k].kind.Copy?
  {
    hide OuterIs;
    forall k | 0 <= k < |code| - 1 ensures !code[k].kind.Copy? {
      assert Inner(pass, c, block, code[..|code| - 1][k], k);
      InnerIsNoCopy(pass, c, block, code[k], k);
    }
  }

  lemma InnerIsNoCopy(pass: Pass, c: Instruction, block: Id, i: Instruction, n: nat)
    requires Inner(pass, c, block, i, n)
    ensures !i.kind.Copy?
  {
  }

  /** Whatever plan the pass decides on for a copy gets a role that is right. */
  ghost predicate Chooses(pass: Pass, ctx: Context, right: Choice, i: Instruction) {
    i.kind.Copy? ==> forall role :: Decide(pass, ctx, i).Ok? && RoleIs(pass, Decide(pass, ctx, i).value, role) ==> right(i, role)
  }

  lemma InstructionStands(pass: Pass, ctx: Context, right: Choice, block: Id, i: Instruction)
    requires LowerInstruction(pass, ctx, block, i).Ok? && Chooses(pass, ctx, right, i)
    ensures var part := LowerInstruction(pass, ctx, block, i).value.items; part != [] && Stands(right, block, i, part)
  {
    hide Decide, PlanCode, Carries, RecordOf, RuleOf, RoleIs, Records, Picked;
    var plan := Decide(pass, ctx, i).value;
    if !plan.Keep? {
      DecidesPicked(pass, ctx, i);
      DecidesPlanned(pass, ctx, i);
      assert i.kind.Copy?;
      PlanCarries(pass, i, block, plan);
      var code := PlanCode(pass, i, block, plan).code;
      CarriedHasNoCopies(pass, i, block, code);
      assert Replaces(pass, right, block, i, code);
    }
  }

  lemma PartStands(pass: Pass, ctx: Context, right: Choice, block: Id, i: Instruction, part: seq<Instruction>)
    requires part != [] && Stands(right, block, i, part) && (forall j :: j in part ==> Chooses(pass, ctx, right, j)) && LowerInstructions(pass, ctx, block, part).Ok?
    ensures var part' := LowerInstructions(pass, ctx, block, part).value.items; part' != [] && Stands(right, block, i, part')
  {
    hide LowerInstruction, Carries, Chooses;
    if part == [i] {
      assert i in part;
      LowersOne(pass, ctx, block, i);
      hide Stands;
      InstructionStands(pass, ctx, right, block, i);
    } else {
      var before :| Replaces(before, right, block, i, part);
      CarriedHasNoCopies(before, i, block, part);
      NoCopiesStay(pass, ctx, block, part);
    }
  }

  /** A pass over expanded code leaves expanded code. */
  lemma {:induction false} CodeExpands(pass: Pass, ctx: Context, right: Choice, block: Id, code: seq<Instruction>, code': seq<Instruction>)
    requires Expands(right, block, code, code') && LowerInstructions(pass, ctx, block, code').Ok?
    requires forall i :: i in code' ==> Chooses(pass, ctx, right, i)
    ensures Expands(right, block, code, LowerInstructions(pass, ctx, block, code').value.items)
    decreases |code|
  {
    hide LowerInstruction, Stands, Chooses;
    if code != [] {
      var n :| 0 < n <= |code'| && Stands(right, block, code[0], code'[..n]) && Expands(right, block, code[1..], code'[n..]);
      assert code' == code'[..n] + code'[n..];
      LowersApart(pass, ctx, block, code'[..n], code'[n..]);
      PartStands(pass, ctx, right, block, code[0], code'[..n]);
      CodeExpands(pass, ctx, right, block, code[1..], code'[n..]);
      var part, rest := LowerInstructions(pass, ctx, block, code'[..n]).value.items, LowerInstructions(pass, ctx, block, code'[n..]).value.items;
      assert (part + rest)[..|part|] == part && (part + rest)[|part|..] == rest;
    }
  }

  // ----- Functions and programs -----

  /** Only the instructions of a block are others. */
  ghost predicate BlockExpands(right: Choice, b: Block, b': Block) {
    && b'.identity == b.identity && b'.parameters == b.parameters && b'.terminator == b.terminator
    && Expands(right, b.identity, b.instructions, b'.instructions)
  }

  ghost predicate FunctionExpands(right: Choice, f: Function, f': Function) {
    && f'.semanticIdentity == f.semanticIdentity && f'.inputs == f.inputs && f'.outputs == f.outputs
    && |f'.blocks| == |f.blocks|
    && forall b :: 0 <= b < |f.blocks| ==> BlockExpands(right, f.blocks[b], f'.blocks[b])
  }

  lemma FunctionExpandsToItself(right: Choice, f: Function)
    ensures FunctionExpands(right, f, f)
  {
    forall b | 0 <= b < |f.blocks| ensures BlockExpands(right, f.blocks[b], f.blocks[b]) {
      ExpandsToItself(right, f.blocks[b].identity, f.blocks[b].instructions);
    }
  }

  ghost predicate FunctionChooses(pass: Pass, ctx: Context, right: Choice, f: Function) {
    forall b, i :: 0 <= b < |f.blocks| && i in f.blocks[b].instructions ==> Chooses(pass, ctx, right, i)
  }

  lemma PassExpands(pass: Pass, right: Choice, f: Function, g: Function, g': Function)
    requires FunctionExpands(right, f, g) && FunctionChooses(pass, Collect(g), right, g)
    requires LowerFunction(pass, g).Ok? && LowerFunction(pass, g).value.items == [g']
    ensures FunctionExpands(right, f, g')
  {
    hide LowerBlocks, LowerInstructions, Collect, Chooses, Expands;
    S.LoweredBlockAt(pass, Collect(g), g.blocks, 0);
    forall b | 0 <= b < |f.blocks| ensures BlockExpands(right, f.blocks[b], g'.blocks[b]) {
      S.LoweredBlockAt(pass, Collect(g), g.blocks, b);
      assert BlockExpands(right, f.blocks[b], g.blocks[b]);
      CodeExpands(pass, Collect(g), right, f.blocks[b].identity, f.blocks[b].instructions, g.blocks[b].instructions);
    }
  }

  function AnyRole(): Choice {
    (i, role) => true
  }

  ghost predicate ProgramExpands(p: seq<Function>, q: seq<Function>) {
    |q| == |p| && forall k :: 0 <= k < |p| ==> FunctionExpands(AnyRole(), p[k], q[k])
  }

  lemma ProgramPassExpands(pass: Pass, p: seq<Function>, q: seq<Function>)
    requires ProgramExpands(p, q) && LowerFunctions(pass, q).Ok?
    ensures ProgramExpands(p, LowerFunctions(pass, q).value.items)
  {
    hide LowerFunctions, LowerFunction, FunctionExpands, Collect, RoleIs, Decide;
    P.LoweredAt(pass, q, 0);
    forall k | 0 <= k < |p| ensures FunctionExpands(AnyRole(), p[k], LowerFunctions(pass, q).value.items[k]) {
      P.LoweredAt(pass, q, k);
      PassExpands(pass, AnyRole(), p[k], q[k], LowerFunctions(pass, q).value.items[k]);
    }
  }

  /** After all three passes every function has its interface and its blocks, and every block its identity, its
      parameters, its terminator and, in their order, its instructions; only in the place of copies can there be
      code that carries over what they had. */
  lemma LoweringExpands(p: seq<Function>)
    requires LowerAll(p).Ok?
    ensures ProgramExpands(p, LowerAll(p).value.items)
  {
    hide LowerFunctions, FunctionExpands;
    forall k | 0 <= k < |p| ensures FunctionExpands(AnyRole(), p[k], p[k]) {
      FunctionExpandsToItself(AnyRole(), p[k]);
    }
    var a := LowerFunctions(StaticPass, p).value.items;
    ProgramPassExpands(StaticPass, p, p);
    ProgramPassExpands(WindowPass, p, a);
    ProgramPassExpands(OffsetPass, p, LowerFunctions(WindowPass, a).value.items);
  }

  // ----- Which strategy a copy gets -----

  /** By the constants of its own function: a static copy is unrolled up to 256 bytes, and rebuilt up to a
      destination of 512; a checked one of at most 256 bytes is unrolled, with static checks of the destination
      if its window is constant and stays inside, and else with all checks and dynamic offsets; but not if its window is
      constant and leaves the destination or 64 bits. */
  function Strategy(ctx: Context, c: Instruction): Option<Role> {
    if !(c.kind.Copy? && |c.inputs| == 5 && c.kind.dstBound.Exact?) then None
    else
      var dstAt, srcAt, length := Lookup(ctx.constants, c.inputs[1]), Lookup(ctx.constants, c.inputs[3]), Lookup(ctx.constants, c.inputs[4]);
      var known := dstAt.Some? && srcAt.Some? && length.Some?;
      match c.kind.evidence
      case StaticExact =>
        if !known || !c.kind.srcBound.Exact? then None
        else if length.value == 0 then Some(EmptyResult)
        else if length.value <= 256 then Some(StaticResult)
        else if c.kind.dstBound.length <= 512 then Some(RebuildResult)
        else None
      case RuntimeChecked(_) =>
        if length.None? || length.value > 256 then None
        else if known && dstAt.value + length.value <= c.kind.dstBound.length
                && srcAt.value + length.value < 0x1_0000_0000_0000_0000 && (length.value == 0 ==> srcAt.value == 0) then
          Some(if length.value == 0 then RuntimeEmptyResult else RuntimeResult)
        else if length.value == 0 then Some(EmptyViewsResult)
        else if dstAt.Some? && srcAt.Some? then None
        else Some(OffsetResult)
  }

  ghost predicate EarlierKeep(pass: Pass, ctx: Context, i: Instruction) {
    && (!pass.StaticPass? ==> Decide(StaticPass, ctx, i) == Ok(Keep))
    && (pass.OffsetPass? ==> Decide(WindowPass, ctx, i) == Ok(Keep))
  }

  lemma StaticStrategy(ctx: Context, i: Instruction, role: Role)
    requires R.WellTypedCopy(ctx, i) && DecideStatic(ctx, i).Ok? && RoleIs(StaticPass, DecideStatic(ctx, i).value, role)
    ensures Strategy(ctx, i) == Some(role)
  {
    hide CheckTypes;
    CheckedPlan(StaticPass, ctx, i);
  }

  lemma WindowStrategy(ctx: Context, i: Instruction, role: Role)
    requires R.WellTypedCopy(ctx, i) && DecideWindow(ctx, i).Ok? && RoleIs(WindowPass, DecideWindow(ctx, i).value, role)
    ensures Strategy(ctx, i) == Some(role)
  {
    hide CheckTypes;
    CheckedPlan(WindowPass, ctx, i);
  }

  lemma OffsetStrategy(ctx: Context, i: Instruction, role: Role)
    requires R.WellTypedCopy(ctx, i) && DecideOffset(ctx, i).Ok? && RoleIs(OffsetPass, DecideOffset(ctx, i).value, role)
    requires DecideWindow(ctx, i) == Ok(Keep)
    ensures Strategy(ctx, i) == Some(role)
  {
    hide CheckTypes;
    CheckedPlan(OffsetPass, ctx, i);
    TypesChecked(ctx, i);
  }

  lemma TypesChecked(ctx: Context, i: Instruction)
    requires R.WellTypedCopy(ctx, i)
    ensures forall plan :: CheckTypes(ctx, i, plan).Ok?
  {
  }

  function ByStrategy(ctx: Context): Choice {
    (i: Instruction, role: Role) => Strategy(ctx, i) == Some(role)
  }

  lemma StrategyChosen(pass: Pass, ctx: Context, i: Instruction)
    requires R.WellTypedCopy(ctx, i) && EarlierKeep(pass, ctx, i)
    ensures Chooses(pass, ctx, ByStrategy(ctx), i)
  {
    hide DecideStatic, DecideWindow, DecideOffset, RoleIs, Strategy;
    forall role | Decide(pass, ctx, i).Ok? && RoleIs(pass, Decide(pass, ctx, i).value, role) ensures Strategy(ctx, i) == Some(role) {
      match pass
      case StaticPass => StaticStrategy(ctx, i, role);
      case WindowPass => WindowStrategy(ctx, i, role);
      case OffsetPass => OffsetStrategy(ctx, i, role);
    }
  }

  // ----- Strategies of a typed program -----

  /** A pass that sees a copy was not forestalled, and decides by what the original function says. */
  lemma SeenBy(pass: Pass, f: Function, g: Function)
    requires U.Descends(f, g) && U.TypedCopies(f)
    requires forall b, i :: 0 <= b < |f.blocks| && i in U.Copies(g.blocks[b].instructions) ==> EarlierKeep(pass, Collect(f), i)
    ensures FunctionChooses(pass, Collect(g), ByStrategy(Collect(f)), g)
  {
    hide Collect, U.Copies, U.TypedCopies, Decide, EarlierKeep, RoleIs, ByStrategy, R.WellTypedCopy, U.Agree;
    forall b, i | 0 <= b < |g.blocks| && i in g.blocks[b].instructions && i.kind.Copy?
      ensures Chooses(pass, Collect(g), ByStrategy(Collect(f)), i)
    {
      var code := g.blocks[b].instructions;
      var k :| 0 <= k < |code| && code[k] == i;
      U.CopyPicked(code, k);
      U.CopyTyped(f, b, i);
      U.DecideAgrees(pass, Collect(f), Collect(g), i);
      StrategyChosen(pass, Collect(f), i);
    }
  }

  ghost predicate AllKept(pass: Pass, f: Function, g: Function) {
    |g.blocks| == |f.blocks| && forall b, i :: 0 <= b < |f.blocks| && i in U.Copies(g.blocks[b].instructions) ==> Decide(pass, Collect(f), i) == Ok(Keep)
  }

  ghost predicate NoMoreCopies(g: Function, g': Function) {
    && |g'.blocks| == |g.blocks|
    && forall b, i :: 0 <= b < |g.blocks| && i in U.Copies(g'.blocks[b].instructions) ==> i in U.Copies(g.blocks[b].instructions)
  }

  lemma PassLeavesKept(pass: Pass, f: Function, g: Function, g': Function)
    requires U.Descends(f, g) && U.TypedCopies(f) && N.Apart(N.FunctionNames(f))
    requires LowerFunction(pass, g).Ok? && LowerFunction(pass, g).value.items == [g']
    ensures AllKept(pass, f, g')
    ensures NoMoreCopies(g, g')
  {
    hide LowerFunction, Collect, U.Copies, U.Filter, U.TypedCopies, Decide, U.Agree, N.Apart, N.FunctionNames;
    U.StillDescends(pass, f, g, g');
    forall b, i | 0 <= b < |f.blocks| && i in U.Copies(g'.blocks[b].instructions)
      ensures Decide(pass, Collect(f), i) == Ok(Keep)
    {
      U.PassDescends(pass, f, g, g', b);
      U.FilterMembers(U.Keeps(pass, Collect(f)), U.Copies(g.blocks[b].instructions));
    }
    forall b, i | 0 <= b < |g.blocks| && i in U.Copies(g'.blocks[b].instructions) ensures i in U.Copies(g.blocks[b].instructions) {
      U.PassDescends(pass, f, g, g', b);
      U.FilterMembers(U.Keeps(pass, Collect(f)), U.Copies(g.blocks[b].instructions));
    }
  }

  lemma FunctionStrategies(f: Function, f1: Function, f2: Function, f3: Function)
    requires U.TypedCopies(f) && N.Apart(N.FunctionNames(f))
    requires LowerFunction(StaticPass, f).Ok? && LowerFunction(StaticPass, f).value.items == [f1]
    requires LowerFunction(WindowPass, f1).Ok? && LowerFunction(WindowPass, f1).value.items == [f2]
    requires LowerFunction(OffsetPass, f2).Ok? && LowerFunction(OffsetPass, f2).value.items == [f3]
    ensures FunctionExpands(ByStrategy(Collect(f)), f, f3)
  {
    hide LowerFunction, Collect, U.Copies, U.TypedCopies, U.Descends, N.Apart, N.FunctionNames, FunctionExpands, FunctionChooses, ByStrategy, Decide;
    var right := ByStrategy(Collect(f));
    FunctionExpandsToItself(right, f);
    U.DescendsFromItself(f);
    U.StillDescends(StaticPass, f, f, f1);
    U.StillDescends(WindowPass, f, f1, f2);
    PassLeavesKept(StaticPass, f, f, f1);
    PassLeavesKept(WindowPass, f, f1, f2);
    SeenBy(StaticPass, f, f);
    PassExpands(StaticPass, right, f, f, f1);
    SeenBy(WindowPass, f, f1);
    PassExpands(WindowPass, right, f, f1, f2);
    SeenBy(OffsetPass, f, f2);
    PassExpands(OffsetPass, right, f, f2, f3);
  }

  /** In a program of typed copies, what takes the place of a copy is what its own function's constants say. */
  lemma StrategiesAreChosen(p: seq<Function>, k: nat)
    requires U.TypedProgram(p) && LowerAll(p).Ok? && k < |p|
    ensures |LowerAll(p).value.items| == |p| && FunctionExpands(ByStrategy(Collect(p[k])), p[k], LowerAll(p).value.items[k])
  {
    hide LowerFunctions, LowerFunction, U.TypedCopies, Collect, N.Apart, FunctionExpands, N.FunctionNames;
    var p1 := LowerFunctions(StaticPass, p).value.items;
    var p2 := LowerFunctions(WindowPass, p1).value.items;
    var p3 := LowerFunctions(OffsetPass, p2).value.items;
    P.LoweredAt(StaticPass, p, k);
    P.LoweredAt(WindowPass, p1, k);
    P.LoweredAt(OffsetPass, p2, k);
    P.FunctionNamesApart(p, p[k]);
    FunctionStrategies(p[k], p1[k], p2[k], p3[k]);
  }
}
