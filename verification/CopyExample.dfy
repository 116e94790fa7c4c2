/** A program that the passes' preconditions describe and that they have something to do with: one
    checked copy of two bytes between offsets known only at run time. */
module CopyExample {
  import opened Prelude
  import opened SsaSyntax
  import opened CopyLowering
  import N = CopyNames
  import S = CopyScopes
  import P = CopyPreservation
  import R = CopyResults
  import V = CopySurvivors

  const FourBytes := Sequence(Named("byte"), Exact(4))

  function Parameter(name: string, ty: Type): SsaValue {
    SsaValue(Source(name), ty, None, Source("entry"))
  }

  function Defined(name: string, ty: Type, producer: string): SsaValue {
    SsaValue(Source(name), ty, Some(Source(producer)), Source("entry"))
  }

  const TwoCode := Instruction(Source("two-op"), None, Constant(2, U64), [], [Defined("two", U64, "two-op")], [], None)

  const CopyCode := Instruction(
    Source("copy-op"), None, Copy(Named("byte"), Exact(4), Exact(4), RuntimeChecked("out-of-bounds")),
    [Source("dst"), Source("dst-at"), Source("src"), Source("src-at"), Source("two")],
    [Defined("copied", FourBytes, "copy-op")], [], Some("out-of-bounds"))

  const Entry := Block(Source("entry"), [], [TwoCode, CopyCode], Terminator(0, [Source("copied")], []))

  const CopyFunction := Function(
    Source("f"),
    [Parameter("dst", FourBytes), Parameter("dst-at", U64), Parameter("src", FourBytes), Parameter("src-at", U64)],
    [],
    [Entry])

  lemma TwoNamed(a: Instruction, b: Instruction)
    ensures N.CodeNames([a, b]) == N.InstructionNames(a) + N.InstructionNames(b)
  {
    hide N.InstructionNames;
    assert [a, b][1..] == [b] && [b][1..] == [];
    assert N.CodeNames([b]) == N.InstructionNames(b);
  }

  lemma OneFunctionNamed(f: Function)
    requires |f.blocks| == 1 && f.blocks[0].parameters == []
    ensures N.ProgramNames([f]) == N.ValueNames(f.inputs) + N.CodeNames(f.blocks[0].instructions)
  {
    hide N.CodeNames;
    assert f.blocks[1..] == [] && [f][1..] == [];
    assert N.ValueNames(f.blocks[0].parameters) == [];
    assert N.BlocksNames(f.blocks) == N.BlockNames(f.blocks[0]);
    assert N.ProgramNames([f]) == N.FunctionNames(f);
  }

  lemma ExampleNames()
    ensures N.ProgramNames([CopyFunction]) ==
            [Source("dst"), Source("dst-at"), Source("src"), Source("src-at"), Source("two-op"), Source("two"), Source("copy-op"), Source("copied")]
  {
    hide N.CodeNames, N.ProgramNames;
    OneFunctionNamed(CopyFunction);
    TwoNamed(TwoCode, CopyCode);
  }

  lemma ExampleApart()
    ensures N.NamedApart([CopyFunction])
  {
    hide N.ProgramNames;
    ExampleNames();
  }

  lemma TwoScoped(a: Instruction, b: Instruction, scope: set<Id>)
    ensures S.Scoped([a, b], scope) <==> S.Uses(a.inputs, scope) && S.Uses(b.inputs, scope + S.Names(a.outputs))
    ensures S.After([a, b], scope) == scope + S.Names(a.outputs) + S.Names(b.outputs)
  {
    hide S.Uses, S.Names;
    assert [a, b][1..] == [b];
    S.ScopedOne(b, scope + S.Names(a.outputs));
  }

  lemma NamesOfAll(values: seq<SsaValue>)
    ensures forall k :: 0 <= k < |values| ==> values[k].identity in S.Names(values)
  {
    assert forall k :: 0 <= k < |values| ==> values[k] in values;
  }

  lemma ExampleScoped()
    ensures S.FunctionScoped(CopyFunction, [S.Names(CopyFunction.inputs)])
  {
    hide S.Names, S.Scoped, S.After;
    var f, scope := CopyFunction, S.Names(CopyFunction.inputs);
    NamesOfAll(f.inputs);
    assert f.inputs[0].identity in scope && f.inputs[1].identity in scope && f.inputs[2].identity in scope && f.inputs[3].identity in scope;
    NamesOfAll(TwoCode.outputs);
    NamesOfAll(CopyCode.outputs);
    assert TwoCode.outputs[0].identity in S.Names(TwoCode.outputs) && CopyCode.outputs[0].identity in S.Names(CopyCode.outputs);
    TwoScoped(TwoCode, CopyCode, scope);
    NoNames();
    assert scope + {} == scope;
    assert S.Uses(CopyCode.inputs, scope + S.Names(TwoCode.outputs)) by {
      ExampleUses(scope + S.Names(TwoCode.outputs));
    }
  }

  lemma NoNames()
    ensures S.Names([]) == {}
  {
  }

  lemma ExampleUses(scope: set<Id>)
    requires Source("dst") in scope && Source("dst-at") in scope && Source("src") in scope && Source("src-at") in scope
    requires Source("two") in scope
    ensures S.Uses(CopyCode.inputs, scope)
  {
  }

  lemma ExampleWellFormed()
    ensures P.WellFormed([CopyFunction])
  {
    hide N.NamedApart, S.FunctionScoped;
    ExampleApart();
    ExampleScoped();
  }

  lemma FourTypes(types: map<Id, Type>, values: seq<SsaValue>)
    requires |values| == 4
    ensures AddTypes(types, values) ==
            types[values[0].identity := values[0].ty][values[1].identity := values[1].ty][values[2].identity := values[2].ty][values[3].identity := values[3].ty]
  {
    var last, two, three := [values[3]], [values[2], values[3]], [values[1], values[2], values[3]];
    assert values[1..] == three && three[1..] == two && two[1..] == last;
    var t1 := types[values[0].identity := values[0].ty];
    var t2 := t1[values[1].identity := values[1].ty];
    var t3 := t2[values[2].identity := values[2].ty];
    V.AddTypesOne(t3, values[3]);
    assert AddTypes(t2, two) == AddTypes(t3, last);
    assert AddTypes(t1, three) == AddTypes(t2, two);
  }

  lemma TwoFacts(ctx: Context, a: Instruction, b: Instruction)
    ensures AddInstructions(ctx, [a, b]) == AddInstruction(AddInstruction(ctx, a), b)
  {
    hide AddInstruction;
    assert [a, b][1..] == [b];
    V.AddOne(AddInstruction(ctx, a), b);
  }

  lemma OneFunctionFacts(f: Function)
    requires |f.blocks| == 1 && f.blocks[0].parameters == [] && f.outputs == []
    ensures Collect(f) == AddInstructions(Context(AddTypes(map[], f.inputs), map[]), f.blocks[0].instructions)
  {
    hide AddInstructions;
    assert f.blocks[1..] == [];
    var types := AddTypes(map[], f.inputs);
    assert AddTypes(types, f.outputs) == types && AddTypes(types, f.blocks[0].parameters) == types;
    var start := Context(types, map[]);
    assert AddBlocks(start, f.blocks) == AddInstructions(start, f.blocks[0].instructions);
  }

  const InputTypes := map[Source("dst") := FourBytes, Source("dst-at") := U64, Source("src") := FourBytes, Source("src-at") := U64]

  /** What the passes collect about the function. */
  lemma ExampleFacts()
    ensures Collect(CopyFunction) ==
            Context(InputTypes[Source("two") := U64][Source("copied") := FourBytes], map[Source("two") := 2])
  {
    hide Collect, AddTypes, AddInstructions;
    OneFunctionFacts(CopyFunction);
    FourTypes(map[], CopyFunction.inputs);
    var start := Context(InputTypes, map[]);
    TwoFacts(start, TwoCode, CopyCode);
    V.AddTypesOne(InputTypes, TwoCode.outputs[0]);
    V.AddTypesOne(InputTypes[Source("two") := U64], CopyCode.outputs[0]);
  }

  lemma CopyIsTyped(ctx: Context)
    requires ctx == Context(InputTypes[Source("two") := U64][Source("copied") := FourBytes], map[Source("two") := 2])
    ensures R.WellTypedCopy(ctx, CopyCode) && !V.Survives(ctx, CopyCode) && !V.Broken(ctx, CopyCode)
  {
  }

  lemma FilterOne(p: Instruction -> bool, i: Instruction)
    ensures V.Filter(p, [i]) == if p(i) then [i] else []
  {
    assert [i][1..] == [];
  }

  lemma TwoCopies(a: Instruction, b: Instruction)
    requires !a.kind.Copy? && b.kind.Copy?
    ensures V.Copies([a, b]) == [b]
  {
    assert [a, b][1..] == [b];
    FilterOne(V.IsCopy(), b);
  }

  lemma TwoSurvivors(ctx: Context, a: Instruction, b: Instruction)
    requires !V.Survives(ctx, a) && !V.Survives(ctx, b)
    ensures V.Survivors(ctx, [a, b]) == []
  {
    hide V.Survives;
    assert [a, b][1..] == [b];
    FilterOne(V.Surviving(ctx), b);
  }

  lemma ExampleTyped()
    ensures V.TypedProgram([CopyFunction]) && V.Unbroken(CopyFunction)
  {
    hide N.ProgramNames, Collect, R.WellTypedCopy, V.Survives, V.Broken, N.Apart, N.FunctionNames, V.Copies;
    ExampleNames();
    ExampleApart();
    ExampleFacts();
    CopyIsTyped(Collect(CopyFunction));
    TwoCopies(TwoCode, CopyCode);
    assert N.ProgramNames([CopyFunction]) == N.FunctionNames(CopyFunction) by {
      OnlyFunction(CopyFunction);
    }
  }

  lemma OnlyFunction(f: Function)
    ensures N.ProgramNames([f]) == N.FunctionNames(f)
  {
    hide N.FunctionNames;
    assert [f][1..] == [];
  }

  /** The program meets what the main results ask for, all three passes succeed, and its copy, which
      was there, is not left. */
  lemma ExampleIsLowered()
    ensures P.WellFormed([CopyFunction]) && V.TypedProgram([CopyFunction])
    ensures V.Copies(CopyFunction.blocks[0].instructions) == [CopyCode]
    ensures LowerAll([CopyFunction]).Ok?
    ensures var r := LowerAll([CopyFunction]).value.items;
            |r| == 1 && |r[0].blocks| == 1 && V.Copies(r[0].blocks[0].instructions) == []
  {
    hide P.WellFormed, V.TypedProgram, LowerAll, Collect, V.Copies, V.Unbroken, V.Survives, V.Survivors, R.WellTypedCopy, V.Broken;
    ExampleWellFormed();
    ExampleTyped();
    V.LoweringFails([CopyFunction]);
    V.CopiesLeft([CopyFunction]);
    TwoCopies(TwoCode, CopyCode);
    ExampleFacts();
    CopyIsTyped(Collect(CopyFunction));
    V.SurvivorIsCopy(Collect(CopyFunction), TwoCode);
    TwoSurvivors(Collect(CopyFunction), TwoCode, CopyCode);
    assert V.HoldsSurvivors(CopyFunction, LowerAll([CopyFunction]).value.items[0]);
  }
}
