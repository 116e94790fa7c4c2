/** The passes as loops that rewrite a module in place, proved to do what `CopyLowering` specifies. */
module CopyPasses {
  import opened Prelude
  import opened SsaSyntax
  import opened CopyLowering
  import M = SsaSemantics
  import P = CopyPreservation
  import N = CopyNames
  import O = CopyObligations
  import A = CopyCarriage
  import X = CopyExpansion
  import T = CopyRecords

  function Then<T>(done: Output<T>, rest: Result<Output<T>, LoweringError>): Result<Output<T>, LoweringError> {
    match rest
    case Err(e) => Err(e)
    case Ok(out) => Ok(Join(done, out))
  }

  lemma JoinAssociates<T>(a: Output<T>, b: Output<T>, c: Result<Output<T>, LoweringError>)
    ensures Then(a, Then(b, c)) == Then(Join(a, b), c)
  {
    if c.Ok? {
      assert a.items + (b.items + c.value.items) == a.items + b.items + c.value.items;
      assert a.records + (b.records + c.value.records) == a.records + b.records + c.value.records;
      assert a.obligations + (b.obligations + c.value.obligations) == a.obligations + b.obligations + c.value.obligations;
    }
  }

  lemma ThenNothing<T>(a: Output<T>)
    ensures Then(a, Ok(Nothing())) == Ok(a) && Join(Nothing(), a) == a
  {
    assert a.items + [] == a.items && a.records + [] == a.records && a.obligations + [] == a.obligations;
  }

  method RecordTypes(types: map<Id, Type>, values: seq<SsaValue>) returns (r: map<Id, Type>)
    ensures r == AddTypes(types, values)
  {
    r := types;
    for n := 0 to |values|
      invariant AddTypes(r, values[n..]) == AddTypes(types, values)
    {
      assert values[n..][1..] == values[n + 1..];
      r := r[values[n].identity := values[n].ty];
    }
    assert values[|values|..] == [];
  }

  method CollectInstructions(before: Context, code: seq<Instruction>) returns (r: Context)
    ensures r == AddInstructions(before, code)
  {
    r := before;
    for n := 0 to |code|
      invariant AddInstructions(r, code[n..]) == AddInstructions(before, code)
    {
      assert code[n..][1..] == code[n + 1..];
      var i := code[n];
      var types := RecordTypes(r.types, i.outputs);
      var constants := r.constants;
      if i.kind.Constant? && i.outputs != [] && i.kind.ty == U64 {
        constants := constants[i.outputs[0].identity := i.kind.value];
      }
      r := Context(types, constants);
    }
    assert code[|code|..] == [];
  }

  method CollectFunction(f: Function) returns (r: Context)
    ensures r == Collect(f)
  {
    var inputs := RecordTypes(map[], f.inputs);
    var types := RecordTypes(inputs, f.outputs);
    ghost var start := Context(types, map[]);
    r := Context(types, map[]);
    for n := 0 to |f.blocks|
      invariant AddBlocks(r, f.blocks[n..]) == AddBlocks(start, f.blocks)
    {
      assert f.blocks[n..][1..] == f.blocks[n + 1..];
      var parameters := RecordTypes(r.types, f.blocks[n].parameters);
      r := CollectInstructions(r.(types := parameters), f.blocks[n].instructions);
    }
    assert f.blocks[|f.blocks|..] == [];
  }

  method EmitChain(pass: Pass, c: Instruction, block: Id, plan: Plan) returns (r: Emission)
    requires c.kind.Copy? && |c.inputs| == 5 && |c.outputs| == 1 && plan.Unroll?
    ensures r == ChainCode(pass, c, block, plan, 0, c.inputs[0], 0)
    ensures A.Picked(pass, c, plan) ==> A.CarriesFrom(pass, c, block, r.code, 0) && A.ObligationsOf(c, r.obligations)
  {
    hide StepCode, A.CarriesFrom, A.ObligationsOf;
    if A.Picked(pass, c, plan) {
      A.ChainCarries(pass, c, block, plan, 0, c.inputs[0], 0);
    }
    var rewritten, obligations, currentSequence, ordinal := [], [], c.inputs[0], 0;
    for offset := 0 to plan.count
      invariant var rest := ChainCode(pass, c, block, plan, offset, currentSequence, ordinal);
                Emission(rewritten + rest.code, obligations + rest.obligations, rest.result) == ChainCode(pass, c, block, plan, 0, c.inputs[0], 0)
    {
      var step := StepCode(pass, c, block, plan, offset, currentSequence, ordinal);
      ghost var rest := ChainCode(pass, c, block, plan, offset + 1, step.value, step.ordinal);
      assert rewritten + (step.code + rest.code) == rewritten + step.code + rest.code;
      assert obligations + (step.obligations + rest.obligations) == obligations + step.obligations + rest.obligations;
      rewritten, obligations := rewritten + step.code, obligations + step.obligations;
      currentSequence, ordinal := step.value, step.ordinal;
    }
    r := Emission(rewritten, obligations, currentSequence);
  }

  method EmitRebuild(c: Instruction, block: Id, plan: Plan) returns (r: Emission)
    requires c.kind.Copy? && |c.inputs| == 5 && |c.outputs| == 1 && plan.Rebuild?
    ensures r == RebuildCode(c, block, plan)
  {
    var rewritten, projected, count := [], [], c.kind.dstBound.Max();
    for destinationOffset := 0 to count
      invariant rewritten == RebuildElements(c, block, plan, destinationOffset)
      invariant projected == RebuiltElements(c, destinationOffset)
    {
      var element := RebuildElement(c, block, plan, destinationOffset);
      rewritten := rewritten + element;
      projected := projected + [element[1].outputs[0].identity];
    }
    var identity := Generated(c.identity, RebuildResult, 2 * count);
    r := Emission(rewritten + [Turned(c, identity, Construct(c.kind.elementType, count), projected)], [], identity);
  }

  method EmitPlan(pass: Pass, c: Instruction, block: Id, plan: Plan) returns (r: Emission)
    requires c.kind.Copy? && |c.inputs| == 5 && |c.outputs| == 1 && !plan.Keep?
    ensures r == PlanCode(pass, c, block, plan)
    ensures A.Picked(pass, c, plan) ==> A.Carries(pass, c, block, r.code) && A.ObligationsOf(c, r.obligations)
  {
    hide A.Carries, A.CarriesFrom, A.ObligationsOf;
    if A.Picked(pass, c, plan) {
      A.PlanCarries(pass, c, block, plan);
    }
    match plan
    case Empty => r := EmptyCode(pass, c, block);
    case Rebuild(_, _, _) => r := EmitRebuild(c, block, plan);
    case Unroll(_, _, _) => r := EmitChain(pass, c, block, plan);
    case EmptyViews => r := EmptyViewsCode(c, block);
  }

  method RewriteInstructions(pass: Pass, ctx: Context, block: Id, code: seq<Instruction>) returns (r: Result<Output<Instruction>, LoweringError>)
    ensures r == LowerInstructions(pass, ctx, block, code)
  {
    hide Decide, PlanCode;
    var out: Output<Instruction> := Nothing();
    assert code[0..] == code;
    if LowerInstructions(pass, ctx, block, code).Ok? {
      ThenNothing(LowerInstructions(pass, ctx, block, code).value);
    }
    for n := 0 to |code|
      invariant Then(out, LowerInstructions(pass, ctx, block, code[n..])) == LowerInstructions(pass, ctx, block, code)
    {
      assert code[n..][1..] == code[n + 1..];
      var i := code[n];
      var decision := Decide(pass, ctx, i);
      if decision.Err? {
        return Err(decision.error);
      }
      var plan := decision.value;
      ghost var before := out;
      if plan.Keep? {
        out := Join(out, Output([i], [], []));
      } else {
        DecidesPlanned(pass, ctx, i);
        var emission := EmitPlan(pass, i, block, plan);
        out := Join(out, Output(emission.code, [RecordOf(i, emission, RuleOf(pass, plan))], emission.obligations));
      }
      JoinAssociates(before, LowerInstruction(pass, ctx, block, i).value, LowerInstructions(pass, ctx, block, code[n + 1..]));
    }
    assert code[|code|..] == [];
    ThenNothing(out);
    r := Ok(out);
  }

  method RewriteBlocks(pass: Pass, ctx: Context, blocks: seq<Block>) returns (r: Result<Output<Block>, LoweringError>)
    ensures r == LowerBlocks(pass, ctx, blocks)
  {
    hide LowerInstructions;
    var out: Output<Block> := Nothing();
    assert blocks[0..] == blocks;
    if LowerBlocks(pass, ctx, blocks).Ok? {
      ThenNothing(LowerBlocks(pass, ctx, blocks).value);
    }
    for n := 0 to |blocks|
      invariant Then(out, LowerBlocks(pass, ctx, blocks[n..])) == LowerBlocks(pass, ctx, blocks)
    {
      assert blocks[n..][1..] == blocks[n + 1..];
      var b := blocks[n];
      var rewritten := RewriteInstructions(pass, ctx, b.identity, b.instructions);
      if rewritten.Err? {
        return Err(rewritten.error);
      }
      var lowered := Output([b.(instructions := rewritten.value.items)], rewritten.value.records, rewritten.value.obligations);
      JoinAssociates(out, lowered, LowerBlocks(pass, ctx, blocks[n + 1..]));
      out := Join(out, lowered);
    }
    assert blocks[|blocks|..] == [];
    ThenNothing(out);
    r := Ok(out);
  }

  /** The module that the emitter owns while it prepares an artifact. */
  class SsaModule {
    var functions: seq<Function>
    var transformations: seq<TransformationRecord>
    var obligations: seq<ObligationRecord>

    constructor (functions: seq<Function>, transformations: seq<TransformationRecord>, obligations: seq<ObligationRecord>)
      ensures this.functions == functions && this.transformations == transformations && this.obligations == obligations
    {
      this.functions, this.transformations, this.obligations := functions, transformations, obligations;
    }

    /** One pass: all functions are rewritten, one record is added per lowered copy, and the
        obligations of generated additions join the module's. An error abandons the module. */
    method LowerSequenceCopies(pass: Pass) returns (r: Result<nat, LoweringError>)
      modifies this
      ensures match LowerFunctions(pass, old(functions))
              case Err(e) => r == Err(e)
              case Ok(out) =>
                && r == Ok(|out.records|)
                && functions == out.items
                && transformations == old(transformations) + out.records
                && obligations == old(obligations) + out.obligations
      ensures r.Ok? && Distinct(N.ProgramNames(old(functions))) ==>
                T.Accounts(T.ProgramCode(old(functions)), T.ProgramCode(functions),
                           transformations[|old(transformations)|..], obligations[|old(obligations)|..])
      ensures r.Ok? ==>
                T.InOrder(T.ProgramCode(old(functions)), T.ProgramCode(functions),
                          transformations[|old(transformations)|..], obligations[|old(obligations)|..])
    {
      hide T.InOrder, LowerBlocks, Collect, T.Accounts, T.ProgramCode, N.ProgramNames, Distinct;
      var out: Output<Function> := Nothing();
      ghost var original := functions;
      assert original[0..] == original;
      if LowerFunctions(pass, original).Ok? {
        ThenNothing(LowerFunctions(pass, original).value);
      }
      for n := 0 to |functions|
        invariant functions == original && transformations == old(transformations) && obligations == old(obligations)
        invariant Then(out, LowerFunctions(pass, original[n..])) == LowerFunctions(pass, original)
      {
        assert original[n..][1..] == original[n + 1..];
        var f := functions[n];
        var ctx := CollectFunction(f);
        var blocks := RewriteBlocks(pass, ctx, f.blocks);
        if blocks.Err? {
          return Err(blocks.error);
        }
        var lowered := Output([f.(blocks := blocks.value.items)], blocks.value.records, blocks.value.obligations);
        JoinAssociates(out, lowered, LowerFunctions(pass, original[n + 1..]));
        out := Join(out, lowered);
      }
      assert original[|original|..] == [];
      ThenNothing(out);
      functions := out.items;
      T.PassInOrder(pass, original);
      if Distinct(N.ProgramNames(original)) {
        T.PassAccounts(pass, original);
      }
      transformations := transformations + out.records;
      obligations := obligations + out.obligations;
      r := Ok(|out.records|);
    }

    /** The emitter's three calls. When all succeed, only copies have been replaced, by code that carries
        over what they had. Every callable of a well-formed module still does what it did, there is one new
        record for each copy that is gone, and the new obligations have different names and answer one for one
        for the new checked additions. */
    method LowerForVm() returns (r: Result<(nat, nat, nat), LoweringError>)
      modifies this
      ensures r.Ok? <==> LowerAll(old(functions)).Ok?
      ensures r.Err? ==> r.error == LowerAll(old(functions)).error
      ensures r.Ok? ==> r.value.0 + r.value.1 + r.value.2 == |transformations| - |old(transformations)|
      ensures r.Ok? ==>
                && functions == LowerAll(old(functions)).value.items
                && transformations == old(transformations) + LowerAll(old(functions)).value.records
                && obligations == old(obligations) + LowerAll(old(functions)).value.obligations
      ensures r.Ok? ==> X.ProgramExpands(old(functions), functions)
      ensures r.Ok? && P.WellFormed(old(functions)) ==>
                T.Recorded(old(functions), functions, transformations[|old(transformations)|..], obligations[|old(obligations)|..])
      ensures r.Ok? && P.WellFormed(old(functions)) ==>
                var added := obligations[|old(obligations)|..];
                && O.Named(added, N.ProgramNames(old(functions)), N.ProgramNames(functions))
                && O.Answered(added, O.ProgramAdds(old(functions)), O.ProgramAdds(functions))
      ensures r.Ok? && P.WellFormed(old(functions)) ==>
                P.WellFormed(functions) && forall m, callee, args, trace, fuel ::
                  M.RunFunction(m, functions, callee, args, trace, fuel) == M.RunFunction(m, old(functions), callee, args, trace, fuel)
    {
      hide X.ProgramExpands, T.Recorded, T.Accounts, T.ProgramCode, LowerFunctions, M.RunFunction, P.WellFormed, O.Named, O.Answered, O.ProgramAdds, N.ProgramNames;
      var s := LowerSequenceCopies(StaticPass);
      if s.Err? {
        return Err(s.error);
      }
      var w := LowerSequenceCopies(WindowPass);
      if w.Err? {
        return Err(w.error);
      }
      var o := LowerSequenceCopies(OffsetPass);
      if o.Err? {
        return Err(o.error);
      }
      r := Ok((s.value, w.value, o.value));
      X.LoweringExpands(old(functions));
      assert transformations[|old(transformations)|..] == LowerAll(old(functions)).value.records;
      assert obligations[|old(obligations)|..] == LowerAll(old(functions)).value.obligations;
      if P.WellFormed(old(functions)) {
        forall m, callee, args, trace, fuel
          ensures M.RunFunction(m, functions, callee, args, trace, fuel) == M.RunFunction(m, old(functions), callee, args, trace, fuel)
        {
          P.LoweringPreservesMeaning(old(functions), m, callee, args, trace, fuel);
        }
        KeepsWellFormed(old(functions));
        NamesApart(old(functions));
        O.LoweringOwes(old(functions));
        T.LoweringIsRecorded(old(functions));
      }
    }
  }

  lemma NamesApart(program: seq<Function>)
    requires P.WellFormed(program)
    ensures N.NamedApart(program)
  {
  }

  lemma KeepsWellFormed(program: seq<Function>)
    requires P.WellFormed(program) && LowerAll(program).Ok?
    ensures P.WellFormed(LowerAll(program).value.items)
  {
    var m := M.Machine((_, _, _) => M.Stuck([]), (_, _) => M.Abort(""));
    P.LoweringPreservesMeaning(program, m, Source(""), [], [], 0);
  }
}
