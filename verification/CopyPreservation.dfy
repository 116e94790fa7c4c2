/** The three passes preserve what programs compute, on every machine, for every input and any
    amount of fuel: the same results, the same effects, the same failures. */
module CopyPreservation {
  import opened Prelude
  import opened SsaSyntax
  import opened SsaSemantics
  import opened CopyLowering
  import opened CopyMeaning
  import N = CopyNames
  import S = CopyScopes

  // ----- What a pass collects is true of the function -----

  /** Declared types are recorded, and so is just what is defined by a 64-bit unsigned constant. */
  ghost predicate InstructionCoherent(ctx: Context, i: Instruction) {
    && (forall v :: v in i.outputs ==> v.identity in ctx.types && ctx.types[v.identity] == v.ty)
    && (forall v :: v in i.outputs && v.identity in ctx.constants ==>
          i.kind == Constant(ctx.constants[v.identity], U64) && v == i.outputs[0])
    && (i.kind.Constant? && i.kind.ty == U64 && i.outputs != [] ==> i.outputs[0].identity in ctx.constants)
  }

  ghost predicate ValuesCoherent(ctx: Context, values: seq<SsaValue>) {
    forall v :: v in values ==> v.identity in ctx.types && ctx.types[v.identity] == v.ty && v.identity !in ctx.constants
  }

  ghost predicate CodeCoherent(ctx: Context, code: seq<Instruction>) {
    forall k :: 0 <= k < |code| ==> InstructionCoherent(ctx, code[k])
  }

  ghost predicate BlocksCoherent(ctx: Context, blocks: seq<Block>) {
    forall k :: 0 <= k < |blocks| ==> ValuesCoherent(ctx, blocks[k].parameters) && CodeCoherent(ctx, blocks[k].instructions)
  }

  /** Names outside `names` keep what was recorded about them. */
  ghost predicate Untouched(before: Context, after: Context, names: seq<Id>) {
    && (forall n :: n !in names ==> (n in after.types <==> n in before.types) && (n in before.types ==> after.types[n] == before.types[n]))
    && (forall n :: n !in names ==>
          (n in after.constants <==> n in before.constants) && (n in before.constants ==> after.constants[n] == before.constants[n]))
  }

  lemma {:induction false} AddTypesRecords(types: map<Id, Type>, values: seq<SsaValue>)
    requires Distinct(N.ValueNames(values))
    ensures forall v :: v in values ==> v.identity in AddTypes(types, values) && AddTypes(types, values)[v.identity] == v.ty
    ensures forall n :: n !in N.ValueNames(values) ==>
              (n in AddTypes(types, values) <==> n in types) && (n in types ==> AddTypes(types, values)[n] == types[n])
    decreases |values|
  {
    if values != [] {
      var names, rest := N.ValueNames(values), N.ValueNames(values[1..]);
      assert names == [names[0]] + rest;
      DistinctAppend([names[0]], rest);
      AddTypesRecords(types[values[0].identity := values[0].ty], values[1..]);
      assert values[0].identity in [names[0]];
      assert forall v :: v in values ==> v == values[0] || v in values[1..];
      assert forall n :: n !in names ==> n !in rest && n != names[0];
    }
  }

  lemma UntouchedTrans(a: Context, b: Context, c: Context, first: seq<Id>, second: seq<Id>)
    requires Untouched(a, b, first) && Untouched(b, c, second)
    ensures Untouched(a, c, first + second)
  {
    assert forall n :: n !in first + second ==> n !in first && n !in second;
  }

  lemma StillCoherent(before: Context, after: Context, names: seq<Id>, i: Instruction)
    requires InstructionCoherent(before, i) && Untouched(before, after, names) && Disjoint(N.InstructionNames(i), names)
    ensures InstructionCoherent(after, i)
  {
    assert forall v :: v in i.outputs ==> v.identity in N.ValueNames(i.outputs) by { OutputNamed(i.outputs); }
    assert forall n :: n in N.ValueNames(i.outputs) ==> n in N.InstructionNames(i);
  }

  lemma OutputNamed(values: seq<SsaValue>)
    ensures forall v :: v in values ==> v.identity in N.ValueNames(values)
  {
    forall v | v in values ensures v.identity in N.ValueNames(values) {
      var k :| 0 <= k < |values| && values[k] == v;
      assert N.ValueNames(values)[k] == v.identity;
    }
  }

  lemma ValuesStillCoherent(before: Context, after: Context, names: seq<Id>, values: seq<SsaValue>)
    requires ValuesCoherent(before, values) && Untouched(before, after, names) && Disjoint(N.ValueNames(values), names)
    ensures ValuesCoherent(after, values)
  {
    OutputNamed(values);
  }

  ghost predicate NotConstants(ctx: Context, names: seq<Id>) {
    forall n :: n in names ==> n !in ctx.constants
  }

  /** The name of an instruction's first output, if it has one. */
  lemma NamesOfInstruction(i: Instruction)
    ensures forall n :: n in N.InstructionNames(i) <==> n == i.identity || n in N.ValueNames(i.outputs)
    ensures Distinct(N.InstructionNames(i)) ==> Distinct(N.ValueNames(i.outputs))
    ensures i.outputs != [] ==> i.outputs[0].identity in N.ValueNames(i.outputs)
  {
    var names := N.ValueNames(i.outputs);
    DistinctAppend([i.identity], names);
    assert i.outputs != [] ==> names[0] == i.outputs[0].identity;
  }

  lemma ConstantIsFirst(ctx: Context, i: Instruction, v: SsaValue)
    requires Distinct(N.ValueNames(i.outputs)) && NotConstants(ctx, N.ValueNames(i.outputs))
    requires v in i.outputs && v.identity in AddInstruction(ctx, i).constants
    ensures i.kind == Constant(AddInstruction(ctx, i).constants[v.identity], U64) && v == i.outputs[0]
  {
    hide AddTypes;
    var names := N.ValueNames(i.outputs);
    var k :| 0 <= k < |i.outputs| && i.outputs[k] == v;
    assert names[k] == v.identity && names[0] == i.outputs[0].identity;
    assert names[k] in names;
  }

  lemma AddInstructionRecords(ctx: Context, i: Instruction)
    requires Distinct(N.InstructionNames(i)) && NotConstants(ctx, N.InstructionNames(i))
    ensures InstructionCoherent(AddInstruction(ctx, i), i) && Untouched(ctx, AddInstruction(ctx, i), N.InstructionNames(i))
  {
    NamesOfInstruction(i);
    hide Distinct, N.InstructionNames, N.ValueNames, AddTypes;
    AddTypesRecords(ctx.types, i.outputs);
    forall v | v in i.outputs && v.identity in AddInstruction(ctx, i).constants
      ensures i.kind == Constant(AddInstruction(ctx, i).constants[v.identity], U64) && v == i.outputs[0]
    {
      ConstantIsFirst(ctx, i, v);
    }
  }

  lemma {:induction false} AddInstructionsRecords(ctx: Context, code: seq<Instruction>)
    requires Distinct(N.CodeNames(code)) && NotConstants(ctx, N.CodeNames(code))
    ensures CodeCoherent(AddInstructions(ctx, code), code) && Untouched(ctx, AddInstructions(ctx, code), N.CodeNames(code))
    decreases |code|
  {
    hide InstructionCoherent, Untouched, N.InstructionNames, AddInstruction;
    if code == [] {
      NothingUntouched(ctx);
    } else {
      var first, rest := N.InstructionNames(code[0]), N.CodeNames(code[1..]);
      DistinctAppend(first, rest);
      assert forall n :: n in first || n in rest ==> n in N.CodeNames(code);
      AddInstructionRecords(ctx, code[0]);
      var ctx1 := AddInstruction(ctx, code[0]);
      StillNotConstants(ctx, ctx1, first, rest);
      AddInstructionsRecords(ctx1, code[1..]);
      var ctx2 := AddInstructions(ctx1, code[1..]);
      StillCoherent(ctx1, ctx2, rest, code[0]);
      UntouchedTrans(ctx, ctx1, ctx2, first, rest);
      assert forall k :: 0 < k < |code| ==> code[k] == code[1..][k - 1];
    }
  }

  lemma NothingUntouched(ctx: Context)
    ensures Untouched(ctx, ctx, [])
  {
  }

  lemma StillNotConstants(before: Context, after: Context, touched: seq<Id>, names: seq<Id>)
    requires Untouched(before, after, touched) && NotConstants(before, names) && Disjoint(touched, names)
    ensures NotConstants(after, names)
  {
  }

  lemma AddParametersRecord(ctx: Context, values: seq<SsaValue>)
    requires Distinct(N.ValueNames(values)) && NotConstants(ctx, N.ValueNames(values))
    ensures var after := ctx.(types := AddTypes(ctx.types, values));
            ValuesCoherent(after, values) && Untouched(ctx, after, N.ValueNames(values))
  {
    AddTypesRecords(ctx.types, values);
    OutputNamed(values);
  }

  lemma AddBlockRecords(ctx: Context, b: Block)
    requires Distinct(N.BlockNames(b)) && NotConstants(ctx, N.BlockNames(b))
    ensures var after := AddInstructions(ctx.(types := AddTypes(ctx.types, b.parameters)), b.instructions);
            ValuesCoherent(after, b.parameters) && CodeCoherent(after, b.instructions) && Untouched(ctx, after, N.BlockNames(b))
  {
    hide Untouched, ValuesCoherent, CodeCoherent;
    var parameters, code := N.ValueNames(b.parameters), N.CodeNames(b.instructions);
    DistinctAppend(parameters, code);
    assert forall n :: n in parameters || n in code ==> n in N.BlockNames(b);
    AddParametersRecord(ctx, b.parameters);
    var ctx1 := ctx.(types := AddTypes(ctx.types, b.parameters));
    AddInstructionsRecords(ctx1, b.instructions);
    var ctx2 := AddInstructions(ctx1, b.instructions);
    assert Disjoint(parameters, code);
    ValuesStillCoherent(ctx1, ctx2, code, b.parameters);
    UntouchedTrans(ctx, ctx1, ctx2, parameters, code);
  }

  lemma {:induction false} CodeStillCoherent(before: Context, after: Context, names: seq<Id>, code: seq<Instruction>)
    requires CodeCoherent(before, code) && Untouched(before, after, names) && Disjoint(N.CodeNames(code), names)
    ensures CodeCoherent(after, code)
    decreases |code|
  {
    hide InstructionCoherent, Untouched;
    if code != [] {
      assert forall n :: n in N.InstructionNames(code[0]) || n in N.CodeNames(code[1..]) ==> n in N.CodeNames(code);
      assert forall k :: 0 < k < |code| ==> code[k] == code[1..][k - 1];
      StillCoherent(before, after, names, code[0]);
      forall k | 0 <= k < |code[1..]| ensures InstructionCoherent(before, code[1..][k]) {
        assert code[1..][k] == code[k + 1];
      }
      CodeStillCoherent(before, after, names, code[1..]);
    }
  }

  lemma {:induction false} AddBlocksRecords(ctx: Context, blocks: seq<Block>)
    requires Distinct(N.BlocksNames(blocks)) && NotConstants(ctx, N.BlocksNames(blocks))
    ensures BlocksCoherent(AddBlocks(ctx, blocks), blocks) && Untouched(ctx, AddBlocks(ctx, blocks), N.BlocksNames(blocks))
    decreases |blocks|
  {
    hide Untouched, ValuesCoherent, CodeCoherent, N.BlockNames, AddInstructions;
    if blocks == [] {
      NothingUntouched(ctx);
    } else {
      var b := blocks[0];
      var first, rest := N.BlockNames(b), N.BlocksNames(blocks[1..]);
      DistinctAppend(first, rest);
      assert forall n :: n in first || n in rest ==> n in N.BlocksNames(blocks);
      AddBlockRecords(ctx, b);
      var ctx1 := AddInstructions(ctx.(types := AddTypes(ctx.types, b.parameters)), b.instructions);
      StillNotConstants(ctx, ctx1, first, rest);
      AddBlocksRecords(ctx1, blocks[1..]);
      var ctx2 := AddBlocks(ctx1, blocks[1..]);
      BlockNamesParts(b);
      assert Disjoint(N.ValueNames(b.parameters), rest) && Disjoint(N.CodeNames(b.instructions), rest);
      ValuesStillCoherent(ctx1, ctx2, rest, b.parameters);
      CodeStillCoherent(ctx1, ctx2, rest, b.instructions);
      UntouchedTrans(ctx, ctx1, ctx2, first, rest);
      assert forall k :: 0 < k < |blocks| ==> blocks[k] == blocks[1..][k - 1];
    }
  }

  lemma BlockNamesParts(b: Block)
    ensures forall n :: n in N.BlockNames(b) <==> n in N.ValueNames(b.parameters) || n in N.CodeNames(b.instructions)
  {
  }

  /** An input that is also listed as an output has one type. */
  ghost predicate InterfaceAgrees(f: Function) {
    forall i, o :: i in f.inputs && o in f.outputs && i.identity == o.identity ==> i.ty == o.ty
  }

  lemma {:induction false} LaterTypes(types: map<Id, Type>, values: seq<SsaValue>, n: Id)
    ensures n in AddTypes(types, values) ==>
              || (n in types && AddTypes(types, values)[n] == types[n])
              || exists v :: v in values && v.identity == n && v.ty == AddTypes(types, values)[n]
    ensures n in types ==> n in AddTypes(types, values)
    decreases |values|
  {
    if values != [] {
      LaterTypes(types[values[0].identity := values[0].ty], values[1..], n);
    }
  }

  ghost predicate FunctionCoherent(ctx: Context, f: Function) {
    BlocksCoherent(ctx, f.blocks) && ValuesCoherent(ctx, f.inputs)
  }

  /** The types and constants a pass collects are those of the one definition of each name. */
  lemma CollectIsCoherent(f: Function)
    requires Distinct(N.FunctionNames(f)) && InterfaceAgrees(f)
    ensures FunctionCoherent(Collect(f), f)
    ensures forall n :: n in Collect(f).constants ==> n in N.FunctionNames(f)
  {
    hide BlocksCoherent;
    var inputs, blocks := N.ValueNames(f.inputs), N.BlocksNames(f.blocks);
    DistinctAppend(inputs, blocks);
    AddTypesRecords(map[], f.inputs);
    var types := AddTypes(map[], f.inputs);
    var ctx := Context(AddTypes(types, f.outputs), map[]);
    forall v | v in f.inputs ensures v.identity in ctx.types && ctx.types[v.identity] == v.ty {
      LaterTypes(types, f.outputs, v.identity);
    }
    assert ValuesCoherent(ctx, f.inputs);
    AddBlocksRecords(ctx, f.blocks);
    ValuesStillCoherent(ctx, Collect(f), blocks, f.inputs);
  }

  // ----- One lowered copy -----

  /** Defined names hold values of their declared types, and recorded constants their value. */
  ghost predicate EnvOk(ctx: Context, names: seq<Id>, e: Env) {
    forall k :: k in e ==>
      && k in names
      && (k in ctx.types ==> HasType(e[k], ctx.types[k]))
      && (k in ctx.constants ==> e[k] == IntV(ctx.constants[k]))
  }

  ghost predicate PlanFits(pass: Pass, c: Instruction, w: Window, plan: Plan) {
    match plan
    case Keep => false
    case Empty => w.length == 0 && InBounds(w)
    case Rebuild(_, _, _) => Rebuildable(c, w, plan)
    case Unroll(_, _, _) => Unrollable(pass, c, w, plan) && plan.count > 0
    case EmptyViews => w.length == 0 && c.kind.Copy? && c.kind.evidence.RuntimeChecked?
  }

  lemma CheckedTypes(ctx: Context, names: seq<Id>, c: Instruction, plan: Plan, e: Env)
    requires c.kind.Copy? && |c.inputs| == 5 && |c.outputs| == 1 && CheckTypes(ctx, c, plan).Ok?
    requires EnvOk(ctx, names, e) && Reads(e, c.inputs)
    ensures HasType(e[c.inputs[0]], Sequence(c.kind.elementType, c.kind.dstBound))
    ensures HasType(e[c.inputs[2]], Sequence(c.kind.elementType, c.kind.srcBound))
    ensures c.outputs[0].ty == Sequence(c.kind.elementType, c.kind.dstBound)
    ensures CheckTypes(ctx, c, plan).value == plan
  {
    hide HasType;
    assert c.inputs[0] in e && c.inputs[2] in e;
  }

  lemma ConstantOperand(ctx: Context, names: seq<Id>, c: Instruction, k: nat, e: Env)
    requires EnvOk(ctx, names, e) && Reads(e, c.inputs) && k < |c.inputs|
    ensures Lookup(ctx.constants, c.inputs[k]).Some? ==> e[c.inputs[k]] == IntV(Lookup(ctx.constants, c.inputs[k]).value)
    ensures Lookup(ctx.types, c.inputs[k]) == Some(U64) ==> e[c.inputs[k]].IntV? && 0 <= e[c.inputs[k]].n < U64_LIMIT
  {
  }

  lemma StaticWindow(ctx: Context, names: seq<Id>, c: Instruction, e: Env) returns (w: Window)
    requires DecideStatic(ctx, c).Ok? && !DecideStatic(ctx, c).value.Keep?
    requires EnvOk(ctx, names, e) && Reads(e, c.inputs)
    ensures Finds(e, c, w) && Typed(c, w) && PlanFits(StaticPass, c, w, DecideStatic(ctx, c).value)
  {
    hide EnvOk;
    var plan := DecideStatic(ctx, c).value;
    CheckedTypes(ctx, names, c, plan, e);
    ConstantOperand(ctx, names, c, 1, e);
    ConstantOperand(ctx, names, c, 3, e);
    ConstantOperand(ctx, names, c, 4, e);
    w := Window(e[c.inputs[0]].elements, e[c.inputs[1]].n, e[c.inputs[2]].elements, e[c.inputs[3]].n, e[c.inputs[4]].n);
    assert Read(e, c.inputs) == [SeqV(w.dst), IntV(w.dstAt), SeqV(w.src), IntV(w.srcAt), IntV(w.length)];
  }

  lemma WindowWindow(ctx: Context, names: seq<Id>, c: Instruction, e: Env) returns (w: Window)
    requires DecideWindow(ctx, c).Ok? && !DecideWindow(ctx, c).value.Keep?
    requires EnvOk(ctx, names, e) && Reads(e, c.inputs)
    ensures Finds(e, c, w) && Typed(c, w) && PlanFits(WindowPass, c, w, DecideWindow(ctx, c).value)
  {
    hide EnvOk;
    var plan := DecideWindow(ctx, c).value;
    CheckedTypes(ctx, names, c, plan, e);
    ConstantOperand(ctx, names, c, 1, e);
    ConstantOperand(ctx, names, c, 3, e);
    ConstantOperand(ctx, names, c, 4, e);
    w := Window(e[c.inputs[0]].elements, e[c.inputs[1]].n, e[c.inputs[2]].elements, e[c.inputs[3]].n, e[c.inputs[4]].n);
    assert Read(e, c.inputs) == [SeqV(w.dst), IntV(w.dstAt), SeqV(w.src), IntV(w.srcAt), IntV(w.length)];
  }

  lemma OffsetWindow(ctx: Context, names: seq<Id>, c: Instruction, e: Env) returns (w: Window)
    requires DecideOffset(ctx, c).Ok? && !DecideOffset(ctx, c).value.Keep?
    requires EnvOk(ctx, names, e) && Reads(e, c.inputs)
    ensures Finds(e, c, w) && Typed(c, w) && PlanFits(OffsetPass, c, w, DecideOffset(ctx, c).value)
  {
    hide EnvOk;
    var plan := DecideOffset(ctx, c).value;
    CheckedTypes(ctx, names, c, plan, e);
    ConstantOperand(ctx, names, c, 1, e);
    ConstantOperand(ctx, names, c, 3, e);
    ConstantOperand(ctx, names, c, 4, e);
    assert 1 in {1, 3, 4} && 3 in {1, 3, 4} && 4 in {1, 3, 4};
    w := Window(e[c.inputs[0]].elements, e[c.inputs[1]].n, e[c.inputs[2]].elements, e[c.inputs[3]].n, e[c.inputs[4]].n);
    assert Read(e, c.inputs) == [SeqV(w.dst), IntV(w.dstAt), SeqV(w.src), IntV(w.srcAt), IntV(w.length)];
  }

  lemma FindWindow(pass: Pass, ctx: Context, names: seq<Id>, c: Instruction, e: Env) returns (w: Window)
    requires Decide(pass, ctx, c).Ok? && !Decide(pass, ctx, c).value.Keep?
    requires EnvOk(ctx, names, e) && Reads(e, c.inputs)
    ensures Finds(e, c, w) && Typed(c, w) && PlanFits(pass, c, w, Decide(pass, ctx, c).value)
  {
    hide DecideStatic, DecideWindow, DecideOffset, PlanFits, Typed, Finds;
    match pass
    case StaticPass => w := StaticWindow(ctx, names, c, e);
    case WindowPass => w := WindowWindow(ctx, names, c, e);
    case OffsetPass => w := OffsetWindow(ctx, names, c, e);
  }

  lemma PlanDelivers(pass: Pass, c: Instruction, block: Id, plan: Plan, w: Window, e: Env)
    requires Operands(e, c, w) && Typed(c, w) && PlanFits(pass, c, w, plan)
    ensures Delivers(PlanCode(pass, c, block, plan).code, c, w, e)
  {
    hide RunCode, Typed, Rebuildable, Unrollable;
    match plan
    case Empty => EmptyRuns(pass, c, block, w, e);
    case Rebuild(_, _, _) => RebuildRuns(c, block, plan, w, e);
    case Unroll(_, _, _) => UnrollRuns(pass, c, block, plan, w, e);
    case EmptyViews => EmptyViewsRun(c, block, w, e);
  }

  lemma UnrollRuns(pass: Pass, c: Instruction, block: Id, plan: Plan, w: Window, e: Env)
    requires Operands(e, c, w) && Typed(c, w) && Unrollable(pass, c, w, plan) && plan.count > 0
    ensures Delivers(PlanCode(pass, c, block, plan).code, c, w, e)
  {
    hide RunCode;
    assert Read(e, c.inputs)[0] == SeqV(w.dst);
    ChainRuns(pass, c, block, plan, 0, c.inputs[0], 0, w, e);
  }

  /** Lowered code does to a lowered run what the copy does to the original run. */
  lemma CopyRefines(pass: Pass, ctx: Context, block: Id, names: seq<Id>, c: Instruction, e: Env, e': Env)
    requires Decide(pass, ctx, c).Ok? && !Decide(pass, ctx, c).value.Keep?
    requires EnvOk(ctx, names, e) && Reads(e, c.inputs) && Agrees(e, e')
    requires forall k :: k in names ==> Old(k, c.identity, 0)
    ensures c.kind.Copy? && |c.inputs| == 5 && |c.outputs| == 1
    ensures var original := StepPure(c, e);
            var lowered := RunCode(PlanCode(pass, c, block, Decide(pass, ctx, c).value).code, e');
            if original.Go? then lowered.Go? && Agrees(original.env, lowered.env) else lowered == original
  {
    hide RunCode, DecideStatic, DecideWindow, DecideOffset, PlanCode, HasType;
    DecidesPlanned(pass, ctx, c);
    var plan := Decide(pass, ctx, c).value;
    var w := FindWindow(pass, ctx, names, c, e);
    assert Read(e', c.inputs) == Read(e, c.inputs);
    assert Operands(e', c, w);
    PlanDelivers(pass, c, block, plan, w, e');
    if !InBounds(w) {
      FailsInBounds(pass, c, w, plan);
      EvidenceOfPass(pass, ctx, c);
    }
    OriginalCopies(c, w, e);
    hide StepPure, Decide, Finds, Typed, PlanFits, Copied;
  }

  /** What the copy itself does with the operands it finds. */
  lemma OriginalCopies(c: Instruction, w: Window, e: Env)
    requires Finds(e, c, w) && Typed(c, w) && (!InBounds(w) ==> c.kind.evidence.RuntimeChecked?)
    ensures StepPure(c, e) == if InBounds(w) then Go(e[c.outputs[0].identity := SeqV(Copied(w))]) else Halt(FailureOf(c))
  {
    if InBounds(w) {
      SpanCopyTyped(c, w, w.length);
      StepDefines(c, e, SeqV(Copied(w)));
    }
  }

  lemma FailsInBounds(pass: Pass, c: Instruction, w: Window, plan: Plan)
    requires PlanFits(pass, c, w, plan) && !InBounds(w) && Typed(c, w)
    ensures c.kind.evidence.RuntimeChecked?
  {
  }

  lemma EvidenceOfPass(pass: Pass, ctx: Context, c: Instruction)
    requires Decide(pass, ctx, c).Ok? && !Decide(pass, ctx, c).value.Keep?
    ensures c.kind.Copy? && (pass.StaticPass? <==> c.kind.evidence.StaticExact?)
  {
  }

  // ----- Storing results -----

  lemma {:induction false} StoreKeepsEnv(ctx: Context, names: seq<Id>, e: Env, outputs: seq<SsaValue>, values: seq<Value>)
    requires EnvOk(ctx, names, e) && Fits(outputs, values)
    requires forall v :: v in outputs ==> v.identity in names && v.identity in ctx.types && ctx.types[v.identity] == v.ty
    requires forall k :: 0 <= k < |outputs| && outputs[k].identity in ctx.constants ==>
               values[k] == IntV(ctx.constants[outputs[k].identity])
    ensures EnvOk(ctx, names, Store(e, outputs, values))
    decreases |outputs|
  {
    hide HasType;
    if outputs != [] {
      var next := e[outputs[0].identity := values[0]];
      assert outputs[0] in outputs;
      assert EnvOk(ctx, names, next);
      StoreKeepsEnv(ctx, names, next, outputs[1..], values[1..]);
    }
  }

  lemma {:induction false} StoreAgrees(e: Env, e': Env, outputs: seq<SsaValue>, values: seq<Value>)
    requires Agrees(e, e') && |outputs| == |values|
    ensures Agrees(Store(e, outputs, values), Store(e', outputs, values))
    decreases |outputs|
  {
    if outputs != [] {
      StoreAgrees(e[outputs[0].identity := values[0]], e'[outputs[0].identity := values[0]], outputs[1..], values[1..]);
    }
  }

  // ----- Running lowered programs -----

  /** Both runs stopped alike, and the lowered one knows at least as much. */
  ghost predicate SameRun(a: Run<Env>, b: Run<Env>) {
    if a.Done? then b.Done? && Agrees(a.value, b.value) && b.trace == a.trace else b == a
  }

  lemma {:induction false} RunInstructionsAppend(m: Machine, program: seq<Function>, a: seq<Instruction>, b: seq<Instruction>, e: Env, trace: Trace, fuel: nat)
    ensures var first := RunInstructions(m, program, a, e, trace, fuel);
            RunInstructions(m, program, a + b, e, trace, fuel) ==
            if first.Done? then RunInstructions(m, program, b, first.value, first.trace, fuel) else first
    decreases |a|
  {
    hide RunInstruction;
    if a == [] {
      assert a + b == b;
    } else {
      assert (a + b)[0] == a[0] && (a + b)[1..] == a[1..] + b;
      var step := RunInstruction(m, program, a[0], e, trace, fuel);
      if step.Done? {
        RunInstructionsAppend(m, program, a[1..], b, step.value, step.trace, fuel);
      }
    }
  }

  lemma RunSingle(m: Machine, program: seq<Function>, i: Instruction, e: Env, trace: Trace, fuel: nat)
    ensures RunInstructions(m, program, [i], e, trace, fuel) == RunInstruction(m, program, i, e, trace, fuel)
  {
    hide RunInstruction;
    assert [i][1..] == [];
  }

  /** A program a validated SSA module can be: names defined once and before use. */
  ghost predicate WellFormed(program: seq<Function>) {
    && N.NamedApart(program)
    && forall k :: 0 <= k < |program| ==> InterfaceAgrees(program[k]) && exists entry :: S.FunctionScoped(program[k], entry)
  }

  ghost predicate Lowers(pass: Pass, program: seq<Function>, lowered: seq<Function>) {
    WellFormed(program) && LowerFunctions(pass, program).Ok? && lowered == LowerFunctions(pass, program).value.items
  }

  /** What a run inside a function may rely on. */
  ghost predicate Inside(ctx: Context, names: seq<Id>, i: Instruction) {
    && InstructionCoherent(ctx, i)
    && (forall v :: v in i.outputs ==> v.identity in names)
    && (i.kind.Copy? ==> forall k :: k in names ==> Old(k, i.identity, 0))
  }

  lemma StoreRunSame(ctx: Context, names: seq<Id>, i: Instruction, values: seq<Value>, e: Env, e': Env, trace: Trace)
    requires Inside(ctx, names, i) && EnvOk(ctx, names, e) && Agrees(e, e')
    requires i.kind.Constant? ==> values == [ConstantOf(i.kind.value, i.kind.ty)]
    ensures var a := StoreRun(e, i.outputs, values, trace);
            && SameRun(a, StoreRun(e', i.outputs, values, trace))
            && (a.Done? ==> EnvOk(ctx, names, a.value) && e.Keys + S.Names(i.outputs) <= a.value.Keys)
  {
    hide HasType;
    if Fits(i.outputs, values) {
      forall k | 0 <= k < |i.outputs| && i.outputs[k].identity in ctx.constants
        ensures values[k] == IntV(ctx.constants[i.outputs[k].identity])
      {
        assert i.outputs[k] in i.outputs;
      }
      StoreKeepsEnv(ctx, names, e, i.outputs, values);
      StoreAgrees(e, e', i.outputs, values);
    }
  }

  lemma SimulateLowered(m: Machine, pass: Pass, p: seq<Function>, p': seq<Function>, ctx: Context, block: Id, names: seq<Id>,
                        i: Instruction, e: Env, e': Env, trace: Trace, fuel: nat)
    requires Decide(pass, ctx, i).Ok? && !Decide(pass, ctx, i).value.Keep?
    requires Inside(ctx, names, i) && EnvOk(ctx, names, e) && Reads(e, i.inputs) && Agrees(e, e')
    ensures var a := RunInstruction(m, p, i, e, trace, fuel);
            && SameRun(a, RunInstructions(m, p', LowerInstruction(pass, ctx, block, i).value.items, e', trace, fuel))
            && (a.Done? ==> EnvOk(ctx, names, a.value) && e.Keys + S.Names(i.outputs) <= a.value.Keys)
  {
    hide Decide, PlanCode, HasType, Evaluate, RunCode, Store, Fits;
    DecidesPlanned(pass, ctx, i);
    var code := PlanCode(pass, i, block, Decide(pass, ctx, i).value).code;
    N.PlanSimple(pass, i, block, Decide(pass, ctx, i).value);
    PureCodeRuns(m, p', code, e', trace, fuel);
    CopyRefines(pass, ctx, block, names, i, e, e');
    assert RunInstruction(m, p, i, e, trace, fuel) == Lift(StepPure(i, e), trace);
    var result := Evaluate(i.kind, i.failure, Read(e, i.inputs));
    if result.Values? {
      StoreRunSame(ctx, names, i, result.values, e, e, trace);
    }
  }

  lemma ConstantEvaluates(i: Instruction, args: seq<Value>)
    requires i.kind.Constant? && Evaluate(i.kind, i.failure, args).Values?
    ensures Evaluate(i.kind, i.failure, args).values == [ConstantOf(i.kind.value, i.kind.ty)]
  {
  }

  lemma SimulateKept(m: Machine, pass: Pass, p: seq<Function>, p': seq<Function>, ctx: Context, names: seq<Id>,
                     i: Instruction, e: Env, e': Env, trace: Trace, fuel: nat)
    requires Lowers(pass, p, p')
    requires Inside(ctx, names, i) && EnvOk(ctx, names, e) && Reads(e, i.inputs) && Agrees(e, e')
    ensures var a := RunInstruction(m, p, i, e, trace, fuel);
            && SameRun(a, RunInstruction(m, p', i, e', trace, fuel))
            && (a.Done? ==> EnvOk(ctx, names, a.value) && e.Keys + S.Names(i.outputs) <= a.value.Keys)
    decreases fuel, 1, 0
  {
    hide HasType, RunFunction, StoreRun, Lowers, Inside, Evaluate, EnvOk;
    var args := Read(e, i.inputs);
    assert Read(e', i.inputs) == args;
    match i.kind
    case Call(callee) =>
      if fuel > 0 {
        SimulateFunction(m, pass, p, p', callee, args, trace, fuel - 1);
        var result := RunFunction(m, p, callee, args, trace, fuel - 1);
        if result.Done? {
          StoreRunSame(ctx, names, i, result.value, e, e', result.trace);
        }
      }
    case Other(opcode) =>
      var result := m.other(opcode, args, trace);
      if result.Produced? {
        StoreRunSame(ctx, names, i, result.values, e, e', result.after);
      }
    case _ =>
      var result := Evaluate(i.kind, i.failure, args);
      if result.Values? {
        if i.kind.Constant? {
          ConstantEvaluates(i, args);
        }
        StoreRunSame(ctx, names, i, result.values, e, e', trace);
      }
  }

  lemma SimulateInstruction(m: Machine, pass: Pass, p: seq<Function>, p': seq<Function>, ctx: Context, block: Id, names: seq<Id>,
                            i: Instruction, e: Env, e': Env, trace: Trace, fuel: nat)
    requires Lowers(pass, p, p') && LowerInstruction(pass, ctx, block, i).Ok?
    requires Inside(ctx, names, i) && EnvOk(ctx, names, e) && Reads(e, i.inputs) && Agrees(e, e')
    ensures var a := RunInstruction(m, p, i, e, trace, fuel);
            && SameRun(a, RunInstructions(m, p', LowerInstruction(pass, ctx, block, i).value.items, e', trace, fuel))
            && (a.Done? ==> EnvOk(ctx, names, a.value) && e.Keys + S.Names(i.outputs) <= a.value.Keys)
    decreases fuel, 2, 0
  {
    hide Decide, PlanCode, RunInstruction, RunInstructions, Lowers, SameRun, Inside, EnvOk;
    if Decide(pass, ctx, i).value.Keep? {
      RunSingle(m, p', i, e', trace, fuel);
      SimulateKept(m, pass, p, p', ctx, names, i, e, e', trace, fuel);
    } else {
      SimulateLowered(m, pass, p, p', ctx, block, names, i, e, e', trace, fuel);
    }
  }

  /** Each original name keeps its value through lowered code, and both runs stop alike. */
  lemma {:induction false} SimulateCode(m: Machine, pass: Pass, p: seq<Function>, p': seq<Function>, ctx: Context, block: Id, names: seq<Id>,
                                        code: seq<Instruction>, scope: set<Id>, e: Env, e': Env, trace: Trace, fuel: nat)
    requires Lowers(pass, p, p') && LowerInstructions(pass, ctx, block, code).Ok?
    requires forall k :: 0 <= k < |code| ==> Inside(ctx, names, code[k])
    requires EnvOk(ctx, names, e) && Agrees(e, e') && S.Scoped(code, scope) && scope <= e.Keys
    ensures var a := RunInstructions(m, p, code, e, trace, fuel);
            && SameRun(a, RunInstructions(m, p', LowerInstructions(pass, ctx, block, code).value.items, e', trace, fuel))
            && (a.Done? ==> EnvOk(ctx, names, a.value) && S.After(code, scope) <= a.value.Keys)
    decreases fuel, 3, |code|
  {
    hide LowerInstruction, RunInstruction, Lowers, Inside, EnvOk;
    if code != [] {
      var first, rest := LowerInstruction(pass, ctx, block, code[0]).value.items, LowerInstructions(pass, ctx, block, code[1..]).value.items;
      assert Inside(ctx, names, code[0]);
      SimulateInstruction(m, pass, p, p', ctx, block, names, code[0], e, e', trace, fuel);
      RunInstructionsAppend(m, p', first, rest, e', trace, fuel);
      var a, b := RunInstruction(m, p, code[0], e, trace, fuel), RunInstructions(m, p', first, e', trace, fuel);
      if a.Done? {
        SimulateCode(m, pass, p, p', ctx, block, names, code[1..], scope + S.Names(code[0].outputs), a.value, b.value, a.trace, fuel);
      }
    }
  }

  /** What is known about a function and its lowered form. */
  ghost predicate Pair(pass: Pass, f: Function, f': Function, entry: seq<set<Id>>) {
    && LowerFunction(pass, f).Ok? && LowerFunction(pass, f).value.items == [f']
    && FunctionCoherent(Collect(f), f) && S.FunctionScoped(f, entry)
    && N.Apart(N.FunctionNames(f))
  }

  lemma {:induction false} CodeNamesInside(code: seq<Instruction>, k: nat)
    requires k < |code|
    ensures forall n :: n in N.InstructionNames(code[k]) ==> n in N.CodeNames(code)
    decreases |code|
  {
    if k > 0 {
      CodeNamesInside(code[1..], k - 1);
      assert code[1..][k - 1] == code[k];
    }
  }

  lemma {:induction false} BlocksNamesInside(blocks: seq<Block>, k: nat)
    requires k < |blocks|
    ensures forall n :: n in N.BlockNames(blocks[k]) ==> n in N.BlocksNames(blocks)
    decreases |blocks|
  {
    if k > 0 {
      BlocksNamesInside(blocks[1..], k - 1);
      assert blocks[1..][k - 1] == blocks[k];
    }
  }

  lemma InsideBlock(pass: Pass, f: Function, f': Function, entry: seq<set<Id>>, b: nat, k: nat)
    requires Pair(pass, f, f', entry) && b < |f.blocks| && k < |f.blocks[b].instructions|
    ensures Inside(Collect(f), N.FunctionNames(f), f.blocks[b].instructions[k])
  {
    hide Collect, LowerFunction, S.FunctionScoped, InstructionCoherent;
    var code := f.blocks[b].instructions;
    var i := code[k];
    BlocksNamesInside(f.blocks, b);
    CodeNamesInside(code, k);
    OutputNamed(i.outputs);
    assert forall n :: n in N.InstructionNames(i) ==> n in N.CodeNames(code);
    assert forall n :: n in N.CodeNames(code) ==> n in N.BlockNames(f.blocks[b]);
    assert forall n :: n in N.BlocksNames(f.blocks) ==> n in N.FunctionNames(f);
    assert N.InstructionNames(i)[0] == i.identity;
    assert i.identity in N.FunctionNames(f);
    forall v | v in i.outputs ensures v.identity in N.FunctionNames(f) {
      assert v.identity in N.ValueNames(i.outputs);
      assert v.identity in N.InstructionNames(i);
    }
    assert forall n :: n in N.FunctionNames(f) && n.Generated? ==> n.owner !in N.FunctionNames(f);
  }

  /** Storing parameters or inputs, whose values the caller supplies. */
  lemma ParametersSame(ctx: Context, names: seq<Id>, values: seq<SsaValue>, args: seq<Value>, e: Env, e': Env)
    requires ValuesCoherent(ctx, values) && EnvOk(ctx, names, e) && Agrees(e, e')
    requires forall v :: v in values ==> v.identity in names
    requires Fits(values, args)
    ensures Agrees(Store(e, values, args), Store(e', values, args)) && EnvOk(ctx, names, Store(e, values, args))
  {
    hide HasType;
    assert forall k :: 0 <= k < |values| ==> values[k] in values;
    StoreKeepsEnv(ctx, names, e, values, args);
    StoreAgrees(e, e', values, args);
  }

  lemma SimulateBlock(m: Machine, pass: Pass, p: seq<Function>, p': seq<Function>, f: Function, f': Function, entry: seq<set<Id>>,
                      b: nat, args: seq<Value>, e: Env, e': Env, trace: Trace, fuel: nat)
    requires Lowers(pass, p, p') && Pair(pass, f, f', entry)
    requires EnvOk(Collect(f), N.FunctionNames(f), e) && Agrees(e, e') && (b < |entry| ==> entry[b] <= e.Keys)
    ensures RunBlock(m, p', f', b, args, e', trace, fuel) == RunBlock(m, p, f, b, args, e, trace, fuel)
    decreases fuel, 0, 0
  {
    hide Lowers, Collect, EnvOk, Pair, Fits, RunInstructions, RunTerminator, LowerInstructions, S.BlockScoped,
         S.Scoped, S.After, Agrees, Inside, ValuesCoherent, N.FunctionNames;
    LoweredShape(pass, f, f', entry);
    if fuel > 0 && b < |f.blocks| {
      var block := f.blocks[b];
      LoweredBlock(pass, f, f', entry, b);
      if Fits(block.parameters, args) {
        BlockParameters(pass, f, f', entry, b);
        var ctx, names := Collect(f), N.FunctionNames(f);
        FitsLength(block.parameters, args);
        ParametersSame(ctx, names, block.parameters, args, e, e');
        var e1, e1' := Store(e, block.parameters, args), Store(e', block.parameters, args);
        forall k | 0 <= k < |block.instructions| ensures Inside(ctx, names, block.instructions[k]) {
          InsideBlock(pass, f, f', entry, b, k);
        }
        var scope := entry[b] + S.Names(block.parameters);
        BlockScope(pass, f, f', entry, b);
        assert e1.Keys == e.Keys + S.Names(block.parameters);
        SimulateCode(m, pass, p, p', ctx, block.identity, names, block.instructions, scope, e1, e1', trace, fuel - 1);
        var a := RunInstructions(m, p, block.instructions, e1, trace, fuel - 1);
        var a' := RunInstructions(m, p', f'.blocks[b].instructions, e1', trace, fuel - 1);
        if a.Done? {
          SimulateTerminator(m, pass, p, p', f, f', entry, block.terminator, S.After(block.instructions, scope), a.value, a'.value, a.trace, fuel);
        }
      }
    }
  }

  lemma FitsLength(outputs: seq<SsaValue>, values: seq<Value>)
    requires Fits(outputs, values)
    ensures |outputs| == |values|
  {
  }

  lemma SimulateTerminator(m: Machine, pass: Pass, p: seq<Function>, p': seq<Function>, f: Function, f': Function, entry: seq<set<Id>>,
                           t: Terminator, scope: set<Id>, e: Env, e': Env, trace: Trace, fuel: nat)
    requires Lowers(pass, p, p') && Pair(pass, f, f', entry) && fuel > 0
    requires EnvOk(Collect(f), N.FunctionNames(f), e) && Agrees(e, e')
    requires scope <= e.Keys && S.Uses(t.operands, scope) && forall k :: k in t.targets && k < |entry| ==> entry[k] <= scope
    ensures RunTerminator(m, p', f', t, e', trace, fuel) == RunTerminator(m, p, f, t, e, trace, fuel)
    decreases fuel - 1, 4, 0
  {
    hide Lowers, Collect, EnvOk, Pair, Fits, RunBlock;
    LoweredShape(pass, f, f', entry);
    assert Reads(e, t.operands);
    assert Read(e', t.operands) == Read(e, t.operands);
    match m.branch(t.opcode, Read(e, t.operands))
    case Goto(target, arguments) =>
      if target in t.targets {
        SimulateBlock(m, pass, p, p', f, f', entry, target, arguments, e, e', trace, fuel - 1);
      }
    case Return(_) =>
    case Abort(_) =>
  }

  lemma LoweredShape(pass: Pass, f: Function, f': Function, entry: seq<set<Id>>)
    requires Pair(pass, f, f', entry)
    ensures |entry| == |f.blocks| == |f'.blocks| && f'.outputs == f.outputs && f'.inputs == f.inputs
    ensures f'.semanticIdentity == f.semanticIdentity
  {
    hide LowerBlocks, Collect, FunctionCoherent;
    S.LoweredBlockAt(pass, Collect(f), f.blocks, 0);
  }

  lemma LoweredBlock(pass: Pass, f: Function, f': Function, entry: seq<set<Id>>, b: nat)
    requires Pair(pass, f, f', entry) && b < |f.blocks|
    ensures |f'.blocks| == |f.blocks|
    ensures var lowered := LowerInstructions(pass, Collect(f), f.blocks[b].identity, f.blocks[b].instructions);
            lowered.Ok? && f'.blocks[b] == f.blocks[b].(instructions := lowered.value.items)
  {
    hide LowerBlocks, Collect, FunctionCoherent, LowerInstructions;
    S.LoweredBlockAt(pass, Collect(f), f.blocks, b);
  }

  lemma BlockParameters(pass: Pass, f: Function, f': Function, entry: seq<set<Id>>, b: nat)
    requires Pair(pass, f, f', entry) && b < |f.blocks|
    ensures ValuesCoherent(Collect(f), f.blocks[b].parameters)
    ensures forall v :: v in f.blocks[b].parameters ==> v.identity in N.FunctionNames(f)
  {
    hide Collect, LowerFunction, S.FunctionScoped, CodeCoherent, ValuesCoherent;
    OutputNamed(f.blocks[b].parameters);
    BlocksNamesInside(f.blocks, b);
    BlockNamesParts(f.blocks[b]);
  }

  lemma BlockScope(pass: Pass, f: Function, f': Function, entry: seq<set<Id>>, b: nat)
    requires Pair(pass, f, f', entry) && b < |f.blocks|
    ensures |entry| == |f.blocks|
    ensures var block := f.blocks[b];
            var scope := entry[b] + S.Names(block.parameters);
            && S.Scoped(block.instructions, scope)
            && S.Uses(block.terminator.operands, S.After(block.instructions, scope))
            && forall t :: t in block.terminator.targets && t < |entry| ==> entry[t] <= S.After(block.instructions, scope)
  {
    hide Collect, LowerFunction, FunctionCoherent;
    assert S.BlockScoped(f.blocks[b], b, entry);
  }

  // ----- From functions to programs -----

  lemma {:induction false} FindLowered(pass: Pass, p: seq<Function>, p': seq<Function>, callee: Id)
    requires LowerFunctions(pass, p).Ok? && p' == LowerFunctions(pass, p).value.items
    ensures FindFunction(p, callee).None? ==> FindFunction(p', callee).None?
    ensures FindFunction(p, callee).Some? ==>
              var f := FindFunction(p, callee).value;
              LowerFunction(pass, f).Ok? && FindFunction(p', callee).Some? && LowerFunction(pass, f).value.items == [FindFunction(p', callee).value]
    decreases |p|
  {
    hide LowerBlocks, Collect;
    if p != [] {
      FindLowered(pass, p[1..], LowerFunctions(pass, p[1..]).value.items, callee);
      assert p'[1..] == LowerFunctions(pass, p[1..]).value.items;
    }
  }

  lemma {:induction false} FunctionNamesApart(p: seq<Function>, f: Function)
    requires f in p && N.Apart(N.ProgramNames(p))
    ensures N.Apart(N.FunctionNames(f))
    decreases |p|
  {
    hide N.Apart, N.FunctionNames;
    N.ApartParts(N.FunctionNames(p[0]), N.ProgramNames(p[1..]));
    if f != p[0] {
      FunctionNamesApart(p[1..], f);
    }
  }

  lemma FindPair(pass: Pass, p: seq<Function>, p': seq<Function>, callee: Id) returns (entry: seq<set<Id>>)
    requires Lowers(pass, p, p') && FindFunction(p, callee).Some?
    ensures FindFunction(p', callee).Some? && Pair(pass, FindFunction(p, callee).value, FindFunction(p', callee).value, entry)
  {
    hide LowerFunctions, LowerFunction, Collect, FunctionCoherent, N.Apart, S.FunctionScoped;
    var f := FindFunction(p, callee).value;
    FindLowered(pass, p, p', callee);
    FunctionNamesApart(p, f);
    assert Distinct(N.FunctionNames(f)) by { ApartIsDistinct(N.FunctionNames(f)); }
    var k :| 0 <= k < |p| && p[k] == f;
    entry :| S.FunctionScoped(p[k], entry);
    CollectIsCoherent(f);
  }

  lemma ApartIsDistinct(names: seq<Id>)
    requires N.Apart(names)
    ensures Distinct(names)
  {
  }

  lemma FunctionEntry(pass: Pass, f: Function, f': Function, entry: seq<set<Id>>, args: seq<Value>)
    requires Pair(pass, f, f', entry) && Fits(f.inputs, args)
    ensures EnvOk(Collect(f), N.FunctionNames(f), Store(map[], f.inputs, args))
    ensures 0 < |entry| ==> entry[0] <= Store(map[], f.inputs, args).Keys
  {
    hide Collect, LowerFunction, HasType, BlocksCoherent, S.BlockScoped;
    OutputNamed(f.inputs);
    assert forall v :: v in f.inputs ==> v.identity in N.FunctionNames(f);
    ParametersSame(Collect(f), N.FunctionNames(f), f.inputs, args, map[], map[]);
  }

  lemma SimulateFunction(m: Machine, pass: Pass, p: seq<Function>, p': seq<Function>, callee: Id, args: seq<Value>, trace: Trace, fuel: nat)
    requires Lowers(pass, p, p')
    ensures RunFunction(m, p', callee, args, trace, fuel) == RunFunction(m, p, callee, args, trace, fuel)
    decreases fuel, 1, 0
  {
    hide LowerFunctions, LowerFunction, Collect, Pair, Fits, RunBlock, EnvOk, WellFormed;
    FindLowered(pass, p, p', callee);
    if FindFunction(p, callee).Some? {
      var entry := FindPair(pass, p, p', callee);
      var f, f' := FindFunction(p, callee).value, FindFunction(p', callee).value;
      LoweredShape(pass, f, f', entry);
      if Fits(f.inputs, args) {
        FunctionEntry(pass, f, f', entry, args);
        FitsLength(f.inputs, args);
        var e := Store(map[], f.inputs, args);
        SimulateBlock(m, pass, p, p', f, f', entry, 0, [], e, e, trace, fuel);
      }
    }
  }

  // ----- All three passes -----

  lemma {:induction false} LoweredAt(pass: Pass, p: seq<Function>, k: nat)
    requires LowerFunctions(pass, p).Ok?
    ensures |LowerFunctions(pass, p).value.items| == |p|
    ensures k < |p| ==> LowerFunction(pass, p[k]).Ok? && LowerFunction(pass, p[k]).value.items == [LowerFunctions(pass, p).value.items[k]]
    decreases |p|
  {
    hide LowerBlocks, Collect;
    if p != [] {
      LoweredAt(pass, p[1..], if k == 0 then 0 else k - 1);
    }
  }

  lemma PassKeepsWellFormed(pass: Pass, p: seq<Function>)
    requires WellFormed(p) && LowerFunctions(pass, p).Ok?
    ensures WellFormed(LowerFunctions(pass, p).value.items)
  {
    hide LowerFunctions, LowerFunction, S.FunctionScoped, N.NamedApart;
    var lowered := LowerFunctions(pass, p).value.items;
    N.PassKeepsNames(pass, p);
    LoweredAt(pass, p, 0);
    forall k | 0 <= k < |lowered| ensures InterfaceAgrees(lowered[k]) && exists entry :: S.FunctionScoped(lowered[k], entry) {
      LoweredAt(pass, p, k);
      assert InterfaceAgrees(p[k]);
      var entry :| S.FunctionScoped(p[k], entry);
      S.FunctionStaysScoped(pass, p[k], entry);
      LoweredInterface(pass, p[k]);
    }
  }

  lemma LoweredInterface(pass: Pass, f: Function)
    requires LowerFunction(pass, f).Ok?
    ensures var f' := LowerFunction(pass, f).value.items[0]; f'.inputs == f.inputs && f'.outputs == f.outputs
  {
    hide LowerBlocks, Collect;
  }

  /** The main result. Running the three passes in order over any well-formed program gives a
      well-formed program every one of whose functions, called with any arguments on any machine
      for any number of steps, returns the same values after the same effects, or fails in the
      same mode, traps or is still running, exactly as before. */
  lemma LoweringPreservesMeaning(p: seq<Function>, m: Machine, callee: Id, args: seq<Value>, trace: Trace, fuel: nat)
    requires WellFormed(p) && LowerAll(p).Ok?
    ensures WellFormed(LowerAll(p).value.items)
    ensures RunFunction(m, LowerAll(p).value.items, callee, args, trace, fuel) == RunFunction(m, p, callee, args, trace, fuel)
  {
    hide LowerFunctions, RunFunction, WellFormed;
    var a := LowerFunctions(StaticPass, p).value.items;
    PassKeepsWellFormed(StaticPass, p);
    SimulateFunction(m, StaticPass, p, a, callee, args, trace, fuel);
    var b := LowerFunctions(WindowPass, a).value.items;
    PassKeepsWellFormed(WindowPass, a);
    SimulateFunction(m, WindowPass, a, b, callee, args, trace, fuel);
    var c := LowerFunctions(OffsetPass, b).value.items;
    PassKeepsWellFormed(OffsetPass, b);
    SimulateFunction(m, OffsetPass, b, c, callee, args, trace, fuel);
  }
}
