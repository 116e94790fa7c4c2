/** The obligations that the three passes add to a module: all under different names, one for each
    checked addition that was generated, each at the addition that owes it. */
module CopyObligations {
  import opened Prelude
  import opened SsaSyntax
  import opened CopyLowering
  import opened CopyNames
  import R = CopyResults

  function BlocksAdds(blocks: seq<Block>): seq<Instruction> {
    if blocks == [] then [] else R.Adds(blocks[0].instructions) + BlocksAdds(blocks[1..])
  }

  /** The checked additions of a program. */
  function ProgramAdds(program: seq<Function>): seq<Instruction> {
    if program == [] then [] else BlocksAdds(program[0].blocks) + ProgramAdds(program[1..])
  }

  /** The obligation is about this addition, and the addition refers to it alone. */
  predicate Speaks(o: ObligationRecord, i: Instruction) {
    i.kind.AddChecked? && o.subject == i.identity && i.obligations == [o.identity]
  }

  /** The obligations have different names, generated for copies that are gone. */
  ghost predicate Named(obligations: seq<ObligationRecord>, N: seq<Id>, N': seq<Id>) {
    && Distinct(IdentitiesOf(obligations))
    && forall o :: o in obligations ==>
         && o.identity.Generated? && o.identity.owner.Source? && o.identity.owner in N && o.identity.owner !in N'
         && o.subject.Generated? && o.subject.owner == o.identity.owner
  }

  /** The additions `after` are those of `before` and one more for each obligation. */
  ghost predicate Owed(obligations: seq<ObligationRecord>, before: seq<Instruction>, after: seq<Instruction>) {
    && |after| == |before| + |obligations|
    && (forall i :: i in before ==> i in after)
    && (forall i :: i in after ==> i in before || exists o :: o in obligations && Speaks(o, i))
    && (forall o :: o in obligations ==> exists i :: i in after && Speaks(o, i))
  }

  lemma IdentitiesAppend(a: seq<ObligationRecord>, b: seq<ObligationRecord>)
    ensures IdentitiesOf(a + b) == IdentitiesOf(a) + IdentitiesOf(b)
  {
  }

  lemma OwnersDiffer(a: seq<ObligationRecord>, b: seq<ObligationRecord>)
    requires Distinct(IdentitiesOf(a)) && Distinct(IdentitiesOf(b))
    requires forall o :: o in a + b ==> o.identity.Generated?
    requires forall o, u :: o in a && u in b ==> o.identity.owner != u.identity.owner
    ensures Distinct(IdentitiesOf(a + b))
  {
    IdentitiesAppend(a, b);
    forall x | x in IdentitiesOf(a) ensures x !in IdentitiesOf(b) {
      var i :| 0 <= i < |a| && IdentitiesOf(a)[i] == x;
      assert a[i] in a && a[i] in a + b;
      forall j | 0 <= j < |b| ensures IdentitiesOf(b)[j] != x {
        assert b[j] in b && b[j] in a + b;
      }
    }
    DistinctAppend(IdentitiesOf(a), IdentitiesOf(b));
  }

  lemma NamedAppend(a: seq<ObligationRecord>, b: seq<ObligationRecord>, N: seq<Id>, M: seq<Id>, N': seq<Id>, M': seq<Id>)
    requires Apart(N + M) && Renames(N, N') && Renames(M, M') && Named(a, N, N') && Named(b, M, M')
    ensures Named(a + b, N + M, N' + M')
  {
    ApartParts(N, M);
    hide IdentitiesOf, Distinct;
    OwnersDiffer(a, b);
  }

  /** One pass after another. */
  lemma NamedThen(a: seq<ObligationRecord>, b: seq<ObligationRecord>, N: seq<Id>, M: seq<Id>, K: seq<Id>)
    requires Renames(N, M) && Renames(M, K) && Named(a, N, M) && Named(b, M, K)
    ensures Named(a + b, N, K)
  {
    hide IdentitiesOf, Distinct;
    SourcesOnlyGo(N, M);
    SourcesOnlyGo(M, K);
    OwnersDiffer(a, b);
  }

  lemma RenamesThen(N: seq<Id>, M: seq<Id>, K: seq<Id>)
    requires Renames(N, M) && Renames(M, K)
    ensures Renames(N, K)
  {
    SourcesOnlyGo(N, M);
    SourcesOnlyGo(M, K);
    forall n | n in K ensures n in N || (n.Generated? && n.owner.Source? && n.owner in N && n.owner !in K) {
      if n in M {
        assert n in N || n.owner !in M;
      }
    }
  }

  lemma SourcesOnlyGo(N: seq<Id>, M: seq<Id>)
    requires Renames(N, M)
    ensures forall n: Id :: n.Source? && n in M ==> n in N
  {
    forall n: Id | n.Source? && n in M ensures n in N {
      assert !n.Generated?;
    }
  }

  lemma OwedAppend(a: seq<ObligationRecord>, b: seq<ObligationRecord>,
                   x: seq<Instruction>, y: seq<Instruction>, x': seq<Instruction>, y': seq<Instruction>)
    requires Owed(a, x, x') && Owed(b, y, y')
    ensures Owed(a + b, x + y, x' + y')
  {
    hide Speaks;
  }

  lemma OwedThen(a: seq<ObligationRecord>, b: seq<ObligationRecord>, x: seq<Instruction>, y: seq<Instruction>, z: seq<Instruction>)
    requires Owed(a, x, y) && Owed(b, y, z)
    ensures Owed(a + b, x, z)
  {
    hide Speaks;
  }

  lemma NothingOwed(N: seq<Id>, adds: seq<Instruction>)
    ensures Named([], N, N) && Owed([], adds, adds)
  {
  }

  // ----- One copy -----

  lemma AccountedOwed(code: seq<Instruction>, obligations: seq<ObligationRecord>, c: Instruction, low: nat, high: nat)
    requires R.Accounted(code, obligations, c, low, high)
    requires forall k :: 0 <= k < |R.Adds(code)| ==> R.Adds(code)[k].kind.AddChecked?
    ensures Owed(obligations, [], R.Adds(code)) && Distinct(IdentitiesOf(obligations))
    ensures forall o :: o in obligations ==> o.identity.Generated? && o.identity.owner == c.identity
    ensures forall o :: o in obligations ==> exists i :: i in R.Adds(code) && i.identity == o.subject
  {
    hide R.Adds;
    var adds := R.Adds(code);
    forall i | i in adds ensures exists o :: o in obligations && Speaks(o, i) {
      var k :| 0 <= k < |adds| && adds[k] == i;
      assert obligations[k] in obligations && Speaks(obligations[k], i);
    }
    forall o | o in obligations ensures exists i :: i in adds && Speaks(o, i) {
      var k :| 0 <= k < |obligations| && obligations[k] == o;
      assert adds[k] in adds && Speaks(o, adds[k]);
    }
  }

  lemma {:induction false} AddsAdd(code: seq<Instruction>)
    ensures forall k :: 0 <= k < |R.Adds(code)| ==> R.Adds(code)[k].kind.AddChecked?
    decreases |code|
  {
    if code != [] {
      AddsAdd(code[1..]);
    }
  }

  lemma InstructionOwes(pass: Pass, ctx: Context, block: Id, i: Instruction)
    requires LowerInstruction(pass, ctx, block, i).Ok? && Apart(InstructionNames(i))
    requires i.kind.Copy? ==> i.identity.Source?
    ensures var out := LowerInstruction(pass, ctx, block, i).value;
            && Named(out.obligations, InstructionNames(i), CodeNames(out.items))
            && Owed(out.obligations, R.Added(i), R.Adds(out.items))
  {
    hide DecideStatic, DecideWindow, DecideOffset, PlanCode, Finishes, R.Adds, R.Accounted, Owed, CodeNames, InstructionNames, Distinct;
    var plan := Decide(pass, ctx, i).value;
    var N := InstructionNames(i);
    if plan.Keep? {
      OneInstruction(i);
      NothingOwed(N, R.Added(i));
    } else {
      DecidesPlanned(pass, ctx, i);
      var emission := PlanCode(pass, i, block, plan);
      var high := R.PlanAccounted(pass, i, block, plan);
      AddsAdd(emission.code);
      AccountedOwed(emission.code, emission.obligations, i, 0, high);
      PlanFinishes(pass, i, block, plan);
      CopyNameGone(emission.code, i);
      SubjectsGenerated(emission.code, i, emission.obligations);
    }
  }

  lemma CopyNameGone(code: seq<Instruction>, c: Instruction)
    requires |c.outputs| == 1 && Finishes(code, c, 0) && c.identity.Source? && Apart(InstructionNames(c))
    ensures c.identity in InstructionNames(c) && c.identity !in CodeNames(code)
  {
    hide Finishes, CodeNames;
    FinishedNames(code, c, 0);
    var N := InstructionNames(c);
    assert N[0] == c.identity && N[1] == c.outputs[0].identity;
  }

  /** Every instruction of finished code has a generated name of its own. */
  lemma SubjectsGenerated(code: seq<Instruction>, c: Instruction, obligations: seq<ObligationRecord>)
    requires |c.outputs| == 1 && Finishes(code, c, 0) && c.identity.Source?
    requires forall o :: o in obligations ==> exists i :: i in R.Adds(code) && i.identity == o.subject
    ensures forall o :: o in obligations ==> o.subject.Generated? && o.subject.owner == c.identity
  {
    hide R.Adds, Finishes;
    forall o | o in obligations ensures o.subject.Generated? && o.subject.owner == c.identity {
      var i :| i in R.Adds(code) && i.identity == o.subject;
      AddsInside(code, i);
      FinishedOwns(code, c, i);
    }
  }

  lemma {:induction false} AddsInside(code: seq<Instruction>, i: Instruction)
    requires i in R.Adds(code)
    ensures i in code
    decreases |code|
  {
    if i !in R.Added(code[0]) {
      AddsInside(code[1..], i);
    }
  }

  lemma FinishedOwns(code: seq<Instruction>, c: Instruction, i: Instruction)
    requires |c.outputs| == 1 && Finishes(code, c, 0) && i in code
    ensures i.identity.Generated? && i.identity.owner == c.identity
  {
    hide Rank, Distinct, CodeNames;
    var n := |code| - 1;
    var k :| 0 <= k < |code| && code[k] == i;
    if k < n {
      var names := CodeNames(code[..n]);
      NamedInside(code[..n], k);
      var j :| 0 <= j < |names| && names[j] == i.identity;
    }
  }

  lemma {:induction false} NamedInside(code: seq<Instruction>, k: nat)
    requires k < |code|
    ensures code[k].identity in CodeNames(code)
    decreases k
  {
    if k == 0 {
      assert InstructionNames(code[0])[0] == code[0].identity;
    } else {
      NamedInside(code[1..], k - 1);
    }
  }

  lemma OneInstruction(i: Instruction)
    ensures CodeNames([i]) == InstructionNames(i) && R.Adds([i]) == R.Added(i)
  {
    assert [i][1..] == [];
  }

  // ----- Code, blocks, functions and programs -----

  lemma {:induction false} CodeOwes(pass: Pass, ctx: Context, block: Id, code: seq<Instruction>)
    requires LowerInstructions(pass, ctx, block, code).Ok? && Apart(CodeNames(code)) && SourceCopies(code)
    ensures var out := LowerInstructions(pass, ctx, block, code).value;
            && Named(out.obligations, CodeNames(code), CodeNames(out.items))
            && Owed(out.obligations, R.Adds(code), R.Adds(out.items))
    decreases |code|
  {
    hide LowerInstruction, Renames, Apart, Named, Owed, R.Added, InstructionNames;
    if code == [] {
      NothingOwed([], []);
    } else {
      var first, rest := LowerInstruction(pass, ctx, block, code[0]).value, LowerInstructions(pass, ctx, block, code[1..]).value;
      var N, M := InstructionNames(code[0]), CodeNames(code[1..]);
      ApartParts(N, M);
      OneRenames(pass, ctx, block, code[0]);
      CodeRenames(pass, ctx, block, code[1..]);
      InstructionOwes(pass, ctx, block, code[0]);
      CodeOwes(pass, ctx, block, code[1..]);
      NamedAppend(first.obligations, rest.obligations, N, M, CodeNames(first.items), CodeNames(rest.items));
      OwedAppend(first.obligations, rest.obligations, R.Added(code[0]), R.Adds(code[1..]), R.Adds(first.items), R.Adds(rest.items));
      CodeNamesAppend(first.items, rest.items);
      R.AddsAppend(first.items, rest.items);
    }
  }

  lemma BlockOwes(pass: Pass, ctx: Context, b: Block)
    requires LowerBlock(pass, ctx, b).Ok? && Apart(BlockNames(b)) && SourceCopies(b.instructions)
    ensures var out := LowerBlock(pass, ctx, b).value;
            && Named(out.obligations, BlockNames(b), BlocksNames(out.items))
            && Owed(out.obligations, R.Adds(b.instructions), BlocksAdds(out.items))
  {
    hide LowerInstructions, Renames, Apart, Named, Owed, R.Adds, CodeNames;
    var out := LowerBlock(pass, ctx, b).value;
    var parameters, lowered := ValueNames(b.parameters), out.items[0];
    ApartParts(parameters, CodeNames(b.instructions));
    RenamesNothing(parameters);
    NothingOwed(parameters, []);
    CodeRenames(pass, ctx, b.identity, b.instructions);
    CodeOwes(pass, ctx, b.identity, b.instructions);
    NamedAppend([], out.obligations, parameters, CodeNames(b.instructions), parameters, CodeNames(lowered.instructions));
    assert [] + out.obligations == out.obligations;
    assert out.items[1..] == [];
    assert BlocksNames(out.items) == BlockNames(lowered);
    assert BlocksAdds(out.items) == R.Adds(lowered.instructions);
  }

  lemma {:induction false} BlocksAddsAppend(a: seq<Block>, b: seq<Block>)
    ensures BlocksAdds(a + b) == BlocksAdds(a) + BlocksAdds(b)
    decreases |a|
  {
    hide R.Adds;
    if a == [] {
      assert a + b == b;
    } else {
      assert (a + b)[0] == a[0] && (a + b)[1..] == a[1..] + b;
      BlocksAddsAppend(a[1..], b);
      assert BlocksAdds(a + b) == R.Adds(a[0].instructions) + (BlocksAdds(a[1..]) + BlocksAdds(b));
    }
  }

  lemma {:induction false} BlocksOwe(pass: Pass, ctx: Context, blocks: seq<Block>)
    requires LowerBlocks(pass, ctx, blocks).Ok? && Apart(BlocksNames(blocks)) && SourceCopiesIn(blocks)
    ensures var out := LowerBlocks(pass, ctx, blocks).value;
            && Named(out.obligations, BlocksNames(blocks), BlocksNames(out.items))
            && Owed(out.obligations, BlocksAdds(blocks), BlocksAdds(out.items))
    decreases |blocks|
  {
    hide LowerBlock, Renames, Apart, Named, Owed, BlockNames, R.Adds;
    if blocks == [] {
      NothingOwed([], []);
    } else {
      var first, rest := LowerBlock(pass, ctx, blocks[0]).value, LowerBlocks(pass, ctx, blocks[1..]).value;
      var N, M := BlockNames(blocks[0]), BlocksNames(blocks[1..]);
      ApartParts(N, M);
      BlockRenames(pass, ctx, blocks[0]);
      BlocksRename(pass, ctx, blocks[1..]);
      BlockOwes(pass, ctx, blocks[0]);
      BlocksOwe(pass, ctx, blocks[1..]);
      NamedAppend(first.obligations, rest.obligations, N, M, BlocksNames(first.items), BlocksNames(rest.items));
      OwedAppend(first.obligations, rest.obligations, R.Adds(blocks[0].instructions), BlocksAdds(blocks[1..]),
                 BlocksAdds(first.items), BlocksAdds(rest.items));
      BlocksNamesAppend(first.items, rest.items);
      BlocksAddsAppend(first.items, rest.items);
    }
  }

  lemma FunctionOwes(pass: Pass, f: Function)
    requires LowerFunction(pass, f).Ok? && Apart(FunctionNames(f)) && SourceCopiesIn(f.blocks)
    ensures var out := LowerFunction(pass, f).value;
            && Named(out.obligations, FunctionNames(f), ProgramNames(out.items))
            && Owed(out.obligations, BlocksAdds(f.blocks), ProgramAdds(out.items))
  {
    hide LowerBlocks, Renames, Apart, Named, Owed, Collect, BlocksNames, BlocksAdds;
    var out := LowerFunction(pass, f).value;
    var inputs, lowered := ValueNames(f.inputs), out.items[0];
    ApartParts(inputs, BlocksNames(f.blocks));
    RenamesNothing(inputs);
    NothingOwed(inputs, []);
    BlocksRename(pass, Collect(f), f.blocks);
    BlocksOwe(pass, Collect(f), f.blocks);
    NamedAppend([], out.obligations, inputs, BlocksNames(f.blocks), inputs, BlocksNames(lowered.blocks));
    assert [] + out.obligations == out.obligations;
    assert out.items[1..] == [];
    assert ProgramNames(out.items) == FunctionNames(lowered);
    assert ProgramAdds(out.items) == BlocksAdds(lowered.blocks);
  }

  lemma {:induction false} ProgramAddsAppend(a: seq<Function>, b: seq<Function>)
    ensures ProgramAdds(a + b) == ProgramAdds(a) + ProgramAdds(b)
    decreases |a|
  {
    hide BlocksAdds;
    if a == [] {
      assert a + b == b;
    } else {
      assert (a + b)[0] == a[0] && (a + b)[1..] == a[1..] + b;
      ProgramAddsAppend(a[1..], b);
      assert ProgramAdds(a + b) == BlocksAdds(a[0].blocks) + (ProgramAdds(a[1..]) + ProgramAdds(b));
    }
  }

  lemma {:induction false} PassOwes(pass: Pass, program: seq<Function>)
    requires LowerFunctions(pass, program).Ok? && NamedApart(program)
    ensures var out := LowerFunctions(pass, program).value;
            && Named(out.obligations, ProgramNames(program), ProgramNames(out.items))
            && Owed(out.obligations, ProgramAdds(program), ProgramAdds(out.items))
    decreases |program|
  {
    hide LowerFunction, Renames, Apart, Named, Owed, FunctionNames, BlocksAdds;
    if program == [] {
      NothingOwed([], []);
    } else {
      var first, rest := LowerFunction(pass, program[0]).value, LowerFunctions(pass, program[1..]).value;
      var N, M := FunctionNames(program[0]), ProgramNames(program[1..]);
      ApartParts(N, M);
      FunctionRenames(pass, program[0]);
      ProgramRenames(pass, program[1..]);
      FunctionOwes(pass, program[0]);
      PassOwes(pass, program[1..]);
      NamedAppend(first.obligations, rest.obligations, N, M, ProgramNames(first.items), ProgramNames(rest.items));
      OwedAppend(first.obligations, rest.obligations, BlocksAdds(program[0].blocks), ProgramAdds(program[1..]),
                 ProgramAdds(first.items), ProgramAdds(rest.items));
      ProgramNamesAppend(first.items, rest.items);
      ProgramAddsAppend(first.items, rest.items);
    }
  }

  // ----- New additions -----

  function Identities(code: seq<Instruction>): seq<Id> {
    seq(|code|, k requires 0 <= k < |code| => code[k].identity)
  }

  lemma IdentitiesJoin(a: seq<Instruction>, b: seq<Instruction>)
    ensures Identities(a + b) == Identities(a) + Identities(b)
  {
  }

  /** Different names, all of them from `N`. */
  ghost predicate NamedFrom(code: seq<Instruction>, N: seq<Id>) {
    Distinct(Identities(code)) && forall n :: n in Identities(code) ==> n in N
  }

  lemma NamedFromJoin(a: seq<Instruction>, b: seq<Instruction>, N: seq<Id>, M: seq<Id>)
    requires NamedFrom(a, N) && NamedFrom(b, M) && Disjoint(N, M)
    ensures NamedFrom(a + b, N + M)
  {
    hide Identities;
    IdentitiesJoin(a, b);
    DistinctAppend(Identities(a), Identities(b));
  }

  lemma {:induction false} CodeAddsNamed(code: seq<Instruction>)
    requires Distinct(CodeNames(code))
    ensures NamedFrom(R.Adds(code), CodeNames(code))
    decreases |code|
  {
    hide InstructionNames, Distinct, R.Added, NamedFrom;
    if code == [] {
      NoneNamed([]);
    } else {
      DistinctAppend(InstructionNames(code[0]), CodeNames(code[1..]));
      CodeAddsNamed(code[1..]);
      OneNamed(code[0]);
      NamedFromJoin(R.Added(code[0]), R.Adds(code[1..]), InstructionNames(code[0]), CodeNames(code[1..]));
    }
  }

  lemma NoneNamed(N: seq<Id>)
    ensures NamedFrom([], N)
  {
  }

  lemma OneNamed(i: Instruction)
    ensures NamedFrom(R.Added(i), InstructionNames(i))
  {
    assert InstructionNames(i)[0] == i.identity;
  }

  lemma {:induction false} BlocksAddsNamed(blocks: seq<Block>)
    requires Distinct(BlocksNames(blocks))
    ensures NamedFrom(BlocksAdds(blocks), BlocksNames(blocks))
    decreases |blocks|
  {
    hide Distinct, R.Adds, NamedFrom, CodeNames;
    if blocks == [] {
      NoneNamed([]);
    } else {
      var b := blocks[0];
      DistinctAppend(BlockNames(b), BlocksNames(blocks[1..]));
      DistinctAppend(ValueNames(b.parameters), CodeNames(b.instructions));
      CodeAddsNamed(b.instructions);
      BlocksAddsNamed(blocks[1..]);
      NamedFromMore(R.Adds(b.instructions), CodeNames(b.instructions), ValueNames(b.parameters));
      NamedFromJoin(R.Adds(b.instructions), BlocksAdds(blocks[1..]), BlockNames(b), BlocksNames(blocks[1..]));
    }
  }

  lemma NamedFromMore(code: seq<Instruction>, N: seq<Id>, more: seq<Id>)
    requires NamedFrom(code, N)
    ensures NamedFrom(code, more + N)
  {
  }

  lemma {:induction false} ProgramAddsNamed(program: seq<Function>)
    requires Distinct(ProgramNames(program))
    ensures NamedFrom(ProgramAdds(program), ProgramNames(program))
    decreases |program|
  {
    hide Distinct, NamedFrom, BlocksNames, BlocksAdds;
    if program == [] {
      NoneNamed([]);
    } else {
      var f := program[0];
      DistinctAppend(FunctionNames(f), ProgramNames(program[1..]));
      DistinctAppend(ValueNames(f.inputs), BlocksNames(f.blocks));
      BlocksAddsNamed(f.blocks);
      ProgramAddsNamed(program[1..]);
      NamedFromMore(BlocksAdds(f.blocks), BlocksNames(f.blocks), ValueNames(f.inputs));
      NamedFromJoin(BlocksAdds(f.blocks), ProgramAdds(program[1..]), FunctionNames(f), ProgramNames(program[1..]));
    }
  }

  /** One for one: every addition is new or was there, has a name of its own, and the new ones and
      the obligations refer to each other, each to one of the other kind. */
  ghost predicate Answered(obligations: seq<ObligationRecord>, before: seq<Instruction>, after: seq<Instruction>) {
    && Distinct(IdentitiesOf(obligations)) && Distinct(Identities(after))
    && |after| == |before| + |obligations|
    && (forall i :: i in before ==> i in after)
    && (forall i :: i in after && i !in before ==> exists o :: o in obligations && Speaks(o, i))
    && (forall o :: o in obligations ==> exists i :: i in after && i !in before && Speaks(o, i))
  }

  lemma OwedIsAnswered(obligations: seq<ObligationRecord>, before: seq<Instruction>, after: seq<Instruction>, N: seq<Id>, N': seq<Id>)
    requires Apart(N) && Named(obligations, N, N') && Owed(obligations, before, after)
    requires NamedFrom(before, N) && NamedFrom(after, N')
    ensures Answered(obligations, before, after)
  {
    hide Distinct;
    forall i | i in before ensures i.identity in N {
      var k :| 0 <= k < |before| && before[k] == i;
      assert Identities(before)[k] == i.identity;
    }
    forall o | o in obligations ensures exists i :: i in after && i !in before && Speaks(o, i) {
      var i :| i in after && Speaks(o, i);
      assert o.subject !in N;
    }
  }

  /** Over all three passes: the obligations added to the module have different names, none of
      which an earlier table can hold that stays clear of names generated for this program, and
      they answer one for one for the additions added to it: each is about one of these, which refers
      to that obligation alone, and none of these is without one. */
  lemma LoweringOwes(program: seq<Function>)
    requires NamedApart(program) && LowerAll(program).Ok?
    ensures var out := LowerAll(program).value;
            && Named(out.obligations, ProgramNames(program), ProgramNames(out.items))
            && Answered(out.obligations, ProgramAdds(program), ProgramAdds(out.items))
  {
    hide LowerFunctions, Renames, NamedApart, Named, Owed, ProgramNames, ProgramAdds, Answered, NamedFrom;
    var a := LowerFunctions(StaticPass, program).value;
    PassOwes(StaticPass, program);
    PassKeepsNames(StaticPass, program);
    var b := LowerFunctions(WindowPass, a.items).value;
    PassOwes(WindowPass, a.items);
    PassKeepsNames(WindowPass, a.items);
    var c := LowerFunctions(OffsetPass, b.items).value;
    PassOwes(OffsetPass, b.items);
    PassKeepsNames(OffsetPass, b.items);
    var N, A, B, C := ProgramNames(program), ProgramNames(a.items), ProgramNames(b.items), ProgramNames(c.items);
    NamedThen(a.obligations, b.obligations, N, A, B);
    RenamesThen(N, A, B);
    NamedThen(a.obligations + b.obligations, c.obligations, N, B, C);
    OwedThen(a.obligations, b.obligations, ProgramAdds(program), ProgramAdds(a.items), ProgramAdds(b.items));
    OwedThen(a.obligations + b.obligations, c.obligations, ProgramAdds(program), ProgramAdds(b.items), ProgramAdds(c.items));
    NamesDistinct(program);
    NamesDistinct(c.items);
    ProgramAddsNamed(program);
    ProgramAddsNamed(c.items);
    OwedIsAnswered(a.obligations + b.obligations + c.obligations, ProgramAdds(program), ProgramAdds(c.items), N, C);
  }

  lemma NamesDistinct(program: seq<Function>)
    requires NamedApart(program)
    ensures Apart(ProgramNames(program)) && Distinct(ProgramNames(program))
  {
  }

  /** A table whose names no copy of the program can own takes the new obligations without a clash. */
  lemma TableStaysDistinct(table: seq<ObligationRecord>, program: seq<Function>)
    requires NamedApart(program) && LowerAll(program).Ok? && Distinct(IdentitiesOf(table))
    requires forall o :: o in table && o.identity.Generated? ==> o.identity.owner !in ProgramNames(program)
    ensures Distinct(IdentitiesOf(table + LowerAll(program).value.obligations))
  {
    hide LowerAll, NamedApart, ProgramNames, ProgramAdds, Answered;
    var added := LowerAll(program).value.obligations;
    LoweringOwes(program);
    IdentitiesAppend(table, added);
    forall x | x in IdentitiesOf(table) ensures x !in IdentitiesOf(added) {
      var i :| 0 <= i < |table| && IdentitiesOf(table)[i] == x;
      assert table[i] in table;
      forall j | 0 <= j < |added| ensures IdentitiesOf(added)[j] != x {
        assert added[j] in added;
      }
    }
    DistinctAppend(IdentitiesOf(table), IdentitiesOf(added));
  }
}
