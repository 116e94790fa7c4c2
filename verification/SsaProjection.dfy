/** Projecting a lowered module to the closure of selected roots: functions, then the record types they
    mention, then the obligations attached to them. */
module SsaProjection {
  import opened Prelude
  import opened Reachability
  import opened CallGraph

  /** Types, with what a search for record types looks at. */
  datatype Type =
    | Record(identity: Id)
    | Sequence(element: Type)
    | Vector(element: Type)
    | NamedType | BoolType | IntegerType | FloatType | ByteType | MaskType | FiniteType | GenericParam

  /** Instruction kinds, with the types and identities that the projection looks at. */
  datatype Kind =
    | Constant(ty: Type)
    | Select(ty: Type)
    | SequenceReplace(elementType: Type)
    | SequenceCopy(elementType: Type)
    | SequenceConstruct(elementType: Type)
    | VectorConstruct(elementType: Type)
    | VectorSplat(elementType: Type)
    | VectorExtract(elementType: Type)
    | VectorReplace(elementType: Type)
    | VectorBinary(elementType: Type)
    | VectorCompare(elementType: Type)
    | VectorReduce(elementType: Type)
    | Convert(source: Type, target: Type)
    | RecordConstruct(identity: Id)
    | RecordProject(identity: Id)
    | Invoke(callee: Id)
    | IntegerArithmetic | IntegerCompare
    | FloatConstant | FloatArithmetic | FloatCompare | FloatIntrinsic
    | BooleanOp | BooleanCompare | BooleanNot
    | ByteBitwise | ByteShift | ByteCompare
    | BoundCheck
    | MaskBinary | MaskNot | MaskReduce
    | SequenceProject | SequenceLength | ViewConstruct | ViewNarrow
    | FiniteConstruct | FinitePayloadProject | FiniteIsVariant
    | Effect | HostCall | RuntimeCheck

  datatype Value = Value(identity: Id, semantic: Option<Id>, ty: Type)

  datatype Instruction = Instruction(
    identity: Id, semantic: Option<Id>, hir: Option<Id>, kind: Kind, outputs: seq<Value>, obligations: seq<Id>)

  datatype Block = Block(identity: Id, semantic: Option<Id>, parameters: seq<Value>, instructions: seq<Instruction>)

  /** `points` are the preheader, the header, the entry of the body, the back edge and the exit. */
  datatype Iteration = Iteration(
    identity: Id, points: seq<Id>, bodyBlocks: seq<Id>, state: Type, element: Option<Type>, callees: seq<Id>, obligations: seq<Id>)

  datatype SsaFunction = SsaFunction(
    identity: Id, semantic: Id, inputs: seq<Value>, outputs: seq<Value>, iterations: seq<Iteration>, blocks: seq<Block>)

  function TypesOf(values: seq<Value>): seq<Type> {
    seq(|values|, k requires 0 <= k < |values| => values[k].ty)
  }

  datatype RecordType = RecordType(identity: Id, fields: seq<Type>)

  datatype Obligation = Obligation(identity: Id, dependencies: seq<Id>, assumptions: seq<Id>)

  /** What a semantic name became. */
  datatype TraceEntry = TraceEntry(semantic: Id, ssa: seq<Id>, hir: seq<Id>)

  datatype Transformation = Transformation(operation: Id, output: Id)

  datatype SsaModule = SsaModule(
    functions: seq<SsaFunction>, records: seq<RecordType>, obligations: seq<Obligation>,
    trace: seq<TraceEntry>, transformations: seq<Transformation>,
    specializations: seq<Specialization>, bindings: Option<seq<Id>>, proofs: nat)

  // Functions

  function InstructionCalls(code: seq<Instruction>): seq<Id> {
    if code == [] then []
    else InstructionCalls(code[..|code| - 1]) +
         var last := code[|code| - 1].kind; if last.Invoke? then [last.callee] else []
  }

  function BlocksCall(blocks: seq<Block>): seq<Id> {
    if blocks == [] then [] else BlocksCall(blocks[..|blocks| - 1]) + InstructionCalls(blocks[|blocks| - 1].instructions)
  }

  function IterationsCall(iterations: seq<Iteration>): seq<Id> {
    if iterations == [] then [] else IterationsCall(iterations[..|iterations| - 1]) + iterations[|iterations| - 1].callees
  }

  function SsaCallees(f: SsaFunction): seq<Id> {
    BlocksCall(f.blocks) + IterationsCall(f.iterations)
  }

  /** An instruction of some block invokes it, or some iteration lists it. */
  ghost predicate Calls(f: SsaFunction, x: Id) {
    || (exists b, k :: 0 <= b < |f.blocks| && 0 <= k < |f.blocks[b].instructions| && f.blocks[b].instructions[k].kind == Invoke(x))
    || exists i :: 0 <= i < |f.iterations| && x in f.iterations[i].callees
  }

  lemma {:induction false} InstructionCallsMean(code: seq<Instruction>, x: Id)
    ensures x in InstructionCalls(code) <==> exists k :: 0 <= k < |code| && code[k].kind == Invoke(x)
  {
    if code != [] {
      var before := code[..|code| - 1];
      InstructionCallsMean(before, x);
      if k :| 0 <= k < |before| && before[k].kind == Invoke(x) {
        assert code[k] == before[k];
      }
    }
  }

  lemma {:induction false} BlocksCallMeans(blocks: seq<Block>, x: Id)
    ensures x in BlocksCall(blocks) <==>
              exists b, k :: 0 <= b < |blocks| && 0 <= k < |blocks[b].instructions| && blocks[b].instructions[k].kind == Invoke(x)
  {
    if blocks != [] {
      var before, last := blocks[..|blocks| - 1], blocks[|blocks| - 1];
      BlocksCallMeans(before, x);
      InstructionCallsMean(last.instructions, x);
      if b, k :| 0 <= b < |before| && 0 <= k < |before[b].instructions| && before[b].instructions[k].kind == Invoke(x) {
        assert blocks[b].instructions[k] == before[b].instructions[k];
      }
      if k :| 0 <= k < |last.instructions| && last.instructions[k].kind == Invoke(x) {
        assert blocks[|blocks| - 1].instructions[k] == last.instructions[k];
      }
    }
  }

  lemma {:induction false} IterationsCallMeans(iterations: seq<Iteration>, x: Id)
    ensures x in IterationsCall(iterations) <==> exists i :: 0 <= i < |iterations| && x in iterations[i].callees
  {
    if iterations != [] {
      var before := iterations[..|iterations| - 1];
      IterationsCallMeans(before, x);
      if i :| 0 <= i < |before| && x in before[i].callees {
        assert x in iterations[i].callees;
      }
    }
  }

  /** The callees of a function are what it calls. */
  lemma SsaCalleesMean(f: SsaFunction, x: Id)
    ensures x in SsaCallees(f) <==> Calls(f, x)
  {
    BlocksCallMeans(f.blocks, x);
    IterationsCallMeans(f.iterations, x);
  }

  predicate Names(f: SsaFunction, id: Id) {
    f.semantic == id || f.identity == id
  }

  /** Where each name leads, the last function winning. */
  function Lookup(functions: seq<SsaFunction>): map<Id, nat> {
    if functions == [] then map[]
    else
      var k := |functions| - 1;
      Lookup(functions[..k])[functions[k].semantic := k][functions[k].identity := k]
  }

  ghost predicate Unambiguous(functions: seq<SsaFunction>) {
    forall j, k, id :: 0 <= j < k < |functions| && Names(functions[j], id) ==> !Names(functions[k], id)
  }

  lemma {:induction false} LookupFinds(functions: seq<SsaFunction>)
    ensures forall id :: id in Lookup(functions) ==> Lookup(functions)[id] < |functions| && Names(functions[Lookup(functions)[id]], id)
    ensures forall k, id :: 0 <= k < |functions| && Names(functions[k], id) ==> id in Lookup(functions)
  {
    if functions != [] {
      var before := functions[..|functions| - 1];
      LookupFinds(before);
      forall k, id | 0 <= k < |functions| && Names(functions[k], id) ensures id in Lookup(functions) {
        if k < |before| {
          assert before[k] == functions[k];
        }
      }
    }
  }

  lemma UnambiguousLookup(functions: seq<SsaFunction>, k: nat, id: Id)
    requires Unambiguous(functions) && k < |functions| && Names(functions[k], id)
    ensures id in Lookup(functions) && Lookup(functions)[id] == k
  {
    LookupFinds(functions);
  }

  /** A name other than the semantic one leads to the semantic one, and that one to the callees. */
  ghost function SsaEdges(functions: seq<SsaFunction>): map<Id, seq<Id>> {
    map id | id in Lookup(functions) :: NameEdges(functions, id)
  }

  ghost function NameEdges(functions: seq<SsaFunction>, id: Id): seq<Id>
    requires id in Lookup(functions)
  {
    var k := Lookup(functions)[id];
    if k >= |functions| then []
    else if functions[k].semantic == id then SsaCallees(functions[k])
    else [functions[k].semantic]
  }

  ghost function SsaReach(functions: seq<SsaFunction>, roots: set<Id>): set<Id> {
    Reach(SsaEdges(functions), roots)
  }

  /** Every name that execution needs leads to a function with blocks. */
  ghost predicate Resolvable(functions: seq<SsaFunction>, roots: set<Id>) {
    forall id :: id in SsaReach(functions, roots) ==> HasCode(functions, id)
  }

  ghost predicate HasCode(functions: seq<SsaFunction>, id: Id) {
    id in Lookup(functions) && Lookup(functions)[id] < |functions| && functions[Lookup(functions)[id]].blocks != []
  }

  function KeepFunctions(functions: seq<SsaFunction>, reachable: set<Id>): seq<SsaFunction> {
    if functions == [] then []
    else
      var last := functions[|functions| - 1];
      KeepFunctions(functions[..|functions| - 1], reachable) + if last.semantic in reachable then [last] else []
  }

  lemma {:induction false} KeptFunctionsMean(functions: seq<SsaFunction>, reachable: set<Id>)
    ensures forall f :: f in KeepFunctions(functions, reachable) <==> f in functions && f.semantic in reachable
  {
    if functions != [] {
      var before := functions[..|functions| - 1];
      KeptFunctionsMean(before, reachable);
      assert functions == before + [functions[|functions| - 1]];
    }
  }

  /** Some function of that name, semantic or not, is there, and has code. */
  ghost predicate Provides(functions: seq<SsaFunction>, id: Id) {
    exists f :: f in functions && (f.semantic == id || f.identity == id) && f.blocks != []
  }

  /** Everything a function calls is there. */
  ghost predicate CalleesProvided(functions: seq<SsaFunction>) {
    forall f, x :: f in functions && Calls(f, x) ==> Provides(functions, x)
  }

  /** A name that execution needs is that of a function that is kept. */
  lemma NeededIsProvided(functions: seq<SsaFunction>, roots: set<Id>, x: Id)
    requires Unambiguous(functions) && Resolvable(functions, roots) && x in SsaReach(functions, roots)
    ensures Provides(KeepFunctions(functions, Reachable(functions, roots)), x)
  {
    hide SsaCallees, Reach, Unambiguous, Lookup;
    assert HasCode(functions, x);
    EdgesOf(functions, x);
    LookupFinds(functions);
    var edges, f := SsaEdges(functions), functions[Lookup(functions)[x]];
    ReachIsLeast(edges, roots);
    if f.semantic != x {
      assert Successors(edges, x)[0] == f.semantic;
    }
    assert f.semantic in Reachable(functions, roots);
    KeptFunctionsMean(functions, Reachable(functions, roots));
    assert Names(f, x);
  }

  /** What is kept holds the roots and everything that it calls. */
  lemma KeptCallsKept(functions: seq<SsaFunction>, roots: set<Id>)
    requires Unambiguous(functions) && Resolvable(functions, roots)
    ensures var kept := KeepFunctions(functions, Reachable(functions, roots));
            CalleesProvided(kept) && forall x :: x in roots ==> Provides(kept, x)
  {
    hide Reach, Unambiguous, Lookup, Provides, Calls, Resolvable, SsaEdges, KeepFunctions;
    var edges, kept := SsaEdges(functions), KeepFunctions(functions, Reachable(functions, roots));
    ReachIsLeast(edges, roots);
    KeptFunctionsMean(functions, Reachable(functions, roots));
    forall f, x | f in kept && Calls(f, x) ensures Provides(kept, x) {
      EdgesOf(functions, f.semantic);
      SsaCalleesMean(f, x);
      SemanticFinds(functions, f);
      var k :| 0 <= k < |SsaCallees(f)| && SsaCallees(f)[k] == x;
      assert Successors(edges, f.semantic)[k] == x;
      NeededIsProvided(functions, roots, x);
    }
    forall x | x in roots ensures Provides(kept, x) {
      NeededIsProvided(functions, roots, x);
    }
  }

  /** What is kept is within every part of the module that holds the roots and everything that it calls. */
  lemma KeptIsLeast(functions: seq<SsaFunction>, roots: set<Id>, others: seq<SsaFunction>)
    requires Unambiguous(functions) && forall f :: f in others ==> f in functions
    requires CalleesProvided(others) && forall x :: x in roots ==> Provides(others, x)
    ensures forall f :: f in KeepFunctions(functions, Reachable(functions, roots)) ==> f in others
  {
    hide Reach, Unambiguous, Lookup, Provides, Calls, SsaEdges, KeepFunctions, SsaCallees;
    var edges := SsaEdges(functions);
    var names := set x | x in Lookup(functions) && Provides(others, x);
    forall x | Provides(others, x) ensures x in Lookup(functions) {
      ProviderFound(functions, others, x);
    }
    forall x, k | x in names && 0 <= k < |Successors(edges, x)| ensures Successors(edges, x)[k] in names {
      EdgesOf(functions, x);
      var f := functions[Lookup(functions)[x]];
      ProvidesBoth(functions, others, x);
      ProviderFound(functions, others, x);
      if Successors(edges, x)[k] != f.semantic {
        SsaCalleesMean(f, Successors(edges, x)[k]);
        assert SsaCallees(f)[k] in SsaCallees(f);
      }
    }
    ReachIsLeast(edges, roots);
    assert roots <= names && ClosedUnder(edges, names);
    KeptFunctionsMean(functions, Reachable(functions, roots));
    forall f | f in KeepFunctions(functions, Reachable(functions, roots)) ensures f in others {
      SemanticFinds(functions, f);
      assert f.semantic in SsaReach(functions, roots);
      assert f.semantic in names;
      ProviderFound(functions, others, f.semantic);
    }
  }

  lemma ProviderFound(functions: seq<SsaFunction>, others: seq<SsaFunction>, x: Id)
    requires Unambiguous(functions) && Provides(others, x) && forall f :: f in others ==> f in functions
    ensures x in Lookup(functions) && Lookup(functions)[x] < |functions| && functions[Lookup(functions)[x]] in others
  {
    hide Unambiguous, Lookup;
    var f :| f in others && (f.semantic == x || f.identity == x) && f.blocks != [];
    var k :| 0 <= k < |functions| && functions[k] == f;
    UnambiguousLookup(functions, k, x);
  }

  lemma ProvidesBoth(functions: seq<SsaFunction>, others: seq<SsaFunction>, x: Id)
    requires Unambiguous(functions) && Provides(others, x) && forall f :: f in others ==> f in functions
    ensures x in Lookup(functions) && Lookup(functions)[x] < |functions| && Provides(others, functions[Lookup(functions)[x]].semantic)
  {
    hide Unambiguous, Lookup;
    var f :| f in others && (f.semantic == x || f.identity == x) && f.blocks != [];
    var k :| 0 <= k < |functions| && functions[k] == f;
    UnambiguousLookup(functions, k, x);
  }

  lemma SemanticFinds(functions: seq<SsaFunction>, f: SsaFunction)
    requires Unambiguous(functions) && f in functions
    ensures f.semantic in Lookup(functions) && Lookup(functions)[f.semantic] < |functions| && functions[Lookup(functions)[f.semantic]] == f
  {
    hide Unambiguous, Lookup;
    var k :| 0 <= k < |functions| && functions[k] == f;
    UnambiguousLookup(functions, k, f.semantic);
  }

  method IndexNames(functions: seq<SsaFunction>) returns (unambiguous: bool, index: map<Id, nat>)
    ensures unambiguous <==> Unambiguous(functions)
    ensures unambiguous ==> index == Lookup(functions)
  {
    hide Unambiguous, Lookup;
    index := map[];
    NothingAmbiguous();
    assert functions[..0] == [];
    for k := 0 to |functions|
      invariant Unambiguous(functions[..k]) && index == Lookup(functions[..k])
    {
      var f := functions[k];
      NextName(functions[..k], f);
      assert functions[..k + 1] == functions[..k] + [f];
      if f.semantic in index && index[f.semantic] != k {
        AmbiguousPrefix(functions, k + 1);
        return false, index;
      }
      index := index[f.semantic := k];
      if f.identity in index && index[f.identity] != k {
        AmbiguousPrefix(functions, k + 1);
        return false, index;
      }
      index := index[f.identity := k];
    }
    assert functions[..|functions|] == functions;
    unambiguous := true;
  }

  lemma NothingAmbiguous()
    ensures Unambiguous([]) && Lookup([]) == map[]
  {
  }

  lemma AmbiguousPrefix(functions: seq<SsaFunction>, k: nat)
    requires k <= |functions| && !Unambiguous(functions[..k])
    ensures !Unambiguous(functions)
  {
  }

  lemma NextName(functions: seq<SsaFunction>, f: SsaFunction)
    requires Unambiguous(functions)
    ensures forall id :: id in Lookup(functions) ==> Lookup(functions)[id] < |functions|
    ensures Unambiguous(functions + [f]) <==> f.semantic !in Lookup(functions) && f.identity !in Lookup(functions)
    ensures Lookup(functions + [f]) == Lookup(functions)[f.semantic := |functions|][f.identity := |functions|]
  {
    var more := functions + [f];
    assert more[..|functions|] == functions;
    LookupFinds(functions);
    forall id | Names(f, id) && id in Lookup(functions) ensures !Unambiguous(more) {
      var k := Lookup(functions)[id];
      assert Names(more[k], id) && Names(more[|functions|], id);
    }
  }

  method QueueBlockCalls(code: seq<Instruction>, pending: seq<Id>) returns (next: seq<Id>)
    ensures next == pending + InstructionCalls(code)
  {
    next := pending;
    for k := 0 to |code|
      invariant next == pending + InstructionCalls(code[..k])
    {
      assert code[..k + 1][..k] == code[..k];
      if code[k].kind.Invoke? {
        next := next + [code[k].kind.callee];
      }
    }
    assert code[..|code|] == code;
  }

  method QueueCalls(f: SsaFunction, pending: seq<Id>) returns (next: seq<Id>)
    ensures next == pending + SsaCallees(f)
  {
    hide InstructionCalls;
    next := pending;
    for b := 0 to |f.blocks|
      invariant next == pending + BlocksCall(f.blocks[..b])
    {
      next := QueueBlockCalls(f.blocks[b].instructions, next);
      assert f.blocks[..b + 1][..b] == f.blocks[..b];
    }
    assert f.blocks[..|f.blocks|] == f.blocks;
    for i := 0 to |f.iterations|
      invariant next == pending + BlocksCall(f.blocks) + IterationsCall(f.iterations[..i])
    {
      assert f.iterations[..i + 1][..i] == f.iterations[..i];
      next := next + f.iterations[i].callees;
    }
    assert f.iterations[..|f.iterations|] == f.iterations;
  }

  /** A name from the queue, resolved to its function. */
  lemma Resolves(functions: seq<SsaFunction>, roots: set<Id>, seen: set<Id>, pending: seq<Id>, x: Id, rest: seq<Id>)
    requires Working(SsaEdges(functions), roots, seen, pending) && pending == [x] + rest
    requires Unambiguous(functions)
    ensures x in SsaReach(functions, roots)
    ensures x in Lookup(functions) ==>
      && Lookup(functions)[x] < |functions|
      && var f := functions[Lookup(functions)[x]];
      && f.semantic in SsaReach(functions, roots)
      && f.semantic in Lookup(functions) && Lookup(functions)[f.semantic] == Lookup(functions)[x]
      && (f.semantic in seen ==> Working(SsaEdges(functions), roots, seen + {x}, rest))
      && (f.semantic !in seen && (x in seen ==> x == f.semantic) ==>
        Working(SsaEdges(functions), roots, seen + {x} + {f.semantic}, rest + SsaCallees(f)))
  {
    hide Working, Reach, Lookup, Unambiguous, SsaCallees, SsaEdges;
    var edges := SsaEdges(functions);
    assert x in pending;
    if x in seen {
      WorkSkips(edges, roots, seen, pending, x, rest);
      assert seen + {x} == seen;
    }
    WorkGrows(edges, roots, seen, pending, x, rest, rest + Successors(edges, x));
    if x in Lookup(functions) {
      EdgesOf(functions, x);
      var f := functions[Lookup(functions)[x]];
      if f.semantic == x {
        assert seen + {x} + {x} == seen + {x};
      } else {
        AliasWorks(edges, roots, seen, x, f.semantic, rest, SsaCallees(f));
      }
    }
  }

  lemma EdgesOf(functions: seq<SsaFunction>, x: Id)
    requires Unambiguous(functions) && x in Lookup(functions)
    ensures Lookup(functions)[x] < |functions|
    ensures var f := functions[Lookup(functions)[x]];
            && f.semantic in Lookup(functions) && Lookup(functions)[f.semantic] == Lookup(functions)[x]
            && Successors(SsaEdges(functions), f.semantic) == SsaCallees(f)
            && (f.semantic != x ==> Successors(SsaEdges(functions), x) == [f.semantic])
  {
    hide Lookup, Unambiguous, SsaCallees;
    LookupFinds(functions);
    UnambiguousLookup(functions, Lookup(functions)[x], functions[Lookup(functions)[x]].semantic);
  }

  /** A name that leads to another: taking both at once is two steps of the search. */
  lemma AliasWorks(edges: map<Id, seq<Id>>, roots: set<Id>, seen: set<Id>, x: Id, y: Id, rest: seq<Id>, calls: seq<Id>)
    requires Working(edges, roots, seen, [x] + rest) && x != y && Successors(edges, x) == [y] && Successors(edges, y) == calls
    ensures y in Reach(edges, roots)
    ensures x !in seen && y in seen ==> Working(edges, roots, seen + {x}, rest)
    ensures x !in seen && y !in seen ==> Working(edges, roots, seen + {x} + {y}, rest + calls)
  {
    hide Working, Reach, Successors;
    assert x in [x] + rest;
    var queued := rest + [y];
    WorkGrows(edges, roots, seen, [x] + rest, x, rest, queued);
    if y in seen {
      WorkSkips(edges, roots, seen + {x}, queued, y, rest);
    }
    WorkGrows(edges, roots, seen + {x}, queued, y, rest, rest + calls);
  }

  ghost predicate IsSemantic(functions: seq<SsaFunction>, id: Id) {
    id in Lookup(functions) && Lookup(functions)[id] < |functions| && functions[Lookup(functions)[id]].semantic == id
  }

  /** What the search returns: the semantic names that execution needs. */
  ghost function Reachable(functions: seq<SsaFunction>, roots: set<Id>): set<Id> {
    set id | id in SsaReach(functions, roots) && IsSemantic(functions, id)
  }

  datatype Refusal =
    | NoRoots
    | Invalid
    | Ambiguous
    | Missing(id: Id)
    | Empty(id: Id)
    | Unresolved
    | DuplicateRecord(id: Id)
    | MissingRecord(id: Id)

  ghost predicate Entered(functions: seq<SsaFunction>, seen: set<Id>) {
    forall id :: id in seen ==> HasCode(functions, id) && functions[Lookup(functions)[id]].semantic in seen
  }

  lemma EnteredGrows(functions: seq<SsaFunction>, seen: set<Id>, x: Id)
    requires Unambiguous(functions) && Entered(functions, seen) && HasCode(functions, x)
    ensures Entered(functions, seen + {x} + {functions[Lookup(functions)[x]].semantic})
    ensures IsSemantic(functions, functions[Lookup(functions)[x]].semantic)
    ensures IsSemantic(functions, x) ==> functions[Lookup(functions)[x]].semantic == x
  {
    hide Lookup, Unambiguous;
    LookupFinds(functions);
    UnambiguousLookup(functions, Lookup(functions)[x], functions[Lookup(functions)[x]].semantic);
  }

  ghost predicate Searching(functions: seq<SsaFunction>, roots: set<Id>, seen: set<Id>, reachable: set<Id>, pending: seq<Id>) {
    && Working(SsaEdges(functions), roots, seen, pending)
    && seen <= Lookup(functions).Keys
    && Entered(functions, seen)
    && forall id :: id in reachable <==> id in seen && IsSemantic(functions, id)
  }

  lemma SearchStarts(functions: seq<SsaFunction>, roots: set<Id>, pending: seq<Id>)
    requires forall x :: x in pending <==> x in roots
    ensures Searching(functions, roots, {}, {}, pending)
  {
    hide Working, Reach;
    WorkStarts(SsaEdges(functions), roots, pending);
  }

  ghost function Left(functions: seq<SsaFunction>, seen: set<Id>): nat {
    |Lookup(functions).Keys - seen|
  }

  lemma LeftFalls(functions: seq<SsaFunction>, seen: set<Id>, x: Id, y: Id)
    ensures Left(functions, seen + {x}) <= Left(functions, seen)
    ensures y in Lookup(functions) && y !in seen ==> Left(functions, seen + {x} + {y}) < Left(functions, seen)
  {
    hide Lookup;
    var names := Lookup(functions).Keys;
    Smaller(names - (seen + {x}), names - seen);
    Smaller(names - (seen + {x} + {y}), names - seen);
  }

  lemma SearchStep(functions: seq<SsaFunction>, roots: set<Id>, seen: set<Id>, reachable: set<Id>, x: Id, rest: seq<Id>)
    requires Unambiguous(functions) && Searching(functions, roots, seen, reachable, [x] + rest)
    ensures x in SsaReach(functions, roots)
    ensures x in Lookup(functions) ==>
      && Lookup(functions)[x] < |functions|
      && var f := functions[Lookup(functions)[x]];
      && f.semantic in SsaReach(functions, roots) && f.semantic in Lookup(functions) && Lookup(functions)[f.semantic] == Lookup(functions)[x]
      && (f.semantic in reachable ==>
        && Searching(functions, roots, seen + {x}, reachable, rest)
        && Left(functions, seen + {x}) <= Left(functions, seen))
      && (f.semantic !in reachable && f.blocks != [] ==>
        && Searching(functions, roots, seen + {x} + {f.semantic}, reachable + {f.semantic}, rest + SsaCallees(f))
        && Left(functions, seen + {x} + {f.semantic}) < Left(functions, seen))
  {
    hide Working, Reach, Lookup, Unambiguous, SsaEdges, HasCode, SsaCallees, IsSemantic, Entered, Left;
    Resolves(functions, roots, seen, [x] + rest, x, rest);
    if x in Lookup(functions) {
      var f := functions[Lookup(functions)[x]];
      SeenSemantic(functions, seen, x);
      LeftFalls(functions, seen, x, f.semantic);
      if f.semantic !in reachable && f.blocks != [] {
        HasBlocks(functions, x);
        EnteredGrows(functions, seen, x);
      }
    }
  }

  lemma SearchEnds(functions: seq<SsaFunction>, roots: set<Id>, seen: set<Id>, reachable: set<Id>)
    requires Searching(functions, roots, seen, reachable, [])
    ensures reachable == Reachable(functions, roots) && Resolvable(functions, roots)
  {
    hide Working, Reach, Lookup, SsaEdges, HasCode;
    WorkDone(SsaEdges(functions), roots, seen);
  }

  /** The breadth-first search over names. */
  method FindFunctions(functions: seq<SsaFunction>, index: map<Id, nat>, start: seq<Id>, ghost roots: set<Id>)
    returns (r: Result<set<Id>, Refusal>)
    requires Unambiguous(functions) && index == Lookup(functions)
    requires forall x :: x in start <==> x in roots
    ensures r.Ok? <==> Resolvable(functions, roots)
    ensures r.Ok? ==> r.value == Reachable(functions, roots)
    ensures r.Err? ==> (r.error.Missing? || r.error.Empty?) && r.error.id in SsaReach(functions, roots) && !HasCode(functions, r.error.id)
    ensures r.Err? ==> (r.error.Missing? <==> r.error.id !in index)
  {
    hide Searching, Lookup, Unambiguous, SsaReach, HasCode, Left;
    ghost var seen: set<Id> := {};
    var reachable: set<Id> := {};
    var pending := start;
    SearchStarts(functions, roots, pending);
    while pending != []
      invariant Searching(functions, roots, seen, reachable, pending)
      decreases Left(functions, seen), |pending|
    {
      var identity := pending[0];
      assert pending == [identity] + pending[1..];
      pending := pending[1..];
      SearchStep(functions, roots, seen, reachable, identity, pending);
      if identity !in index {
        NoCode(functions, identity);
        return Err(Missing(identity));
      }
      var f := functions[index[identity]];
      if f.semantic in reachable {
        seen := seen + {identity};
        continue;
      }
      if f.blocks == [] {
        NoCode(functions, f.semantic);
        return Err(Empty(f.semantic));
      }
      seen := seen + {identity} + {f.semantic};
      reachable := reachable + {f.semantic};
      pending := QueueCalls(f, pending);
    }
    SearchEnds(functions, roots, seen, reachable);
    return Ok(reachable);
  }

  lemma Smaller(a: set<Id>, b: set<Id>)
    requires a <= b
    ensures |a| <= |b| && (a != b ==> |a| < |b|)
  {
    assert b == a + (b - a);
  }

  lemma HasBlocks(functions: seq<SsaFunction>, id: Id)
    requires id in Lookup(functions) && Lookup(functions)[id] < |functions| && functions[Lookup(functions)[id]].blocks != []
    ensures HasCode(functions, id)
  {
  }

  lemma NoCode(functions: seq<SsaFunction>, id: Id)
    requires id !in Lookup(functions) || (Lookup(functions)[id] < |functions| && functions[Lookup(functions)[id]].blocks == [])
    ensures !HasCode(functions, id)
  {
  }

  /** A name was seen before exactly when its semantic name was; then they were seen together. */
  lemma SeenSemantic(functions: seq<SsaFunction>, seen: set<Id>, x: Id)
    requires Unambiguous(functions) && Entered(functions, seen) && x in Lookup(functions)
    ensures Lookup(functions)[x] < |functions|
    ensures IsSemantic(functions, functions[Lookup(functions)[x]].semantic)
    ensures x in seen ==> functions[Lookup(functions)[x]].semantic in seen
    ensures functions[Lookup(functions)[x]].semantic in seen ==> Entered(functions, seen + {x})
    ensures IsSemantic(functions, x) ==> functions[Lookup(functions)[x]].semantic == x
  {
    hide Lookup, Unambiguous;
    LookupFinds(functions);
    UnambiguousLookup(functions, Lookup(functions)[x], functions[Lookup(functions)[x]].semantic);
  }

  method RetainFunctions(functions: seq<SsaFunction>, reachable: set<Id>) returns (kept: seq<SsaFunction>)
    ensures kept == KeepFunctions(functions, reachable)
  {
    kept := [];
    for k := 0 to |functions|
      invariant kept == KeepFunctions(functions[..k], reachable)
    {
      assert functions[..k + 1][..k] == functions[..k];
      if functions[k].semantic in reachable {
        kept := kept + [functions[k]];
      }
    }
    assert functions[..|functions|] == functions;
  }

  function SemanticNames(functions: seq<SsaFunction>): set<Id> {
    if functions == [] then {} else SemanticNames(functions[..|functions| - 1]) + {functions[|functions| - 1].semantic}
  }

  lemma {:induction false} SemanticNamesMean(functions: seq<SsaFunction>)
    ensures forall id :: id in SemanticNames(functions) <==> exists k :: 0 <= k < |functions| && functions[k].semantic == id
  {
    if functions != [] {
      var before := functions[..|functions| - 1];
      SemanticNamesMean(before);
      forall id | id in SemanticNames(functions) ensures exists k :: 0 <= k < |functions| && functions[k].semantic == id {
        if id in SemanticNames(before) {
          var k :| 0 <= k < |before| && before[k].semantic == id;
          assert functions[k].semantic == id;
        }
      }
      forall k | 0 <= k < |functions| ensures functions[k].semantic in SemanticNames(functions) {
        if k < |before| {
          assert before[k].semantic in SemanticNames(before);
        }
      }
    }
  }

  lemma NewSemanticName(functions: seq<SsaFunction>)
    requires functions != [] && Unambiguous(functions)
    ensures Unambiguous(functions[..|functions| - 1])
    ensures functions[|functions| - 1].semantic !in SemanticNames(functions[..|functions| - 1])
  {
    var before, last := functions[..|functions| - 1], functions[|functions| - 1];
    SemanticNamesMean(before);
    forall k | 0 <= k < |before| ensures before[k].semantic != last.semantic {
      assert Names(functions[k], before[k].semantic);
      assert !Names(functions[|before|], before[k].semantic);
    }
  }

  lemma {:induction false} KeptCount(functions: seq<SsaFunction>, s: set<Id>)
    requires Unambiguous(functions)
    ensures |KeepFunctions(functions, s)| == |s * SemanticNames(functions)|
  {
    if functions != [] {
      hide Unambiguous;
      var before, last := functions[..|functions| - 1], functions[|functions| - 1];
      NewSemanticName(functions);
      KeptCount(before, s);
      if last.semantic in s {
        assert s * SemanticNames(functions) == s * SemanticNames(before) + {last.semantic};
      } else {
        assert s * SemanticNames(functions) == s * SemanticNames(before);
      }
    }
  }

  /** The search resolves every selected function: the check that it did cannot fail. */
  lemma EverythingResolves(functions: seq<SsaFunction>, roots: set<Id>)
    requires Unambiguous(functions)
    ensures |KeepFunctions(functions, Reachable(functions, roots))| == |Reachable(functions, roots)|
  {
    hide SsaReach, KeepFunctions, Unambiguous;
    var s := Reachable(functions, roots);
    KeptCount(functions, s);
    SemanticNamesMean(functions);
    forall id | id in s ensures id in SemanticNames(functions) {
      assert functions[Lookup(functions)[id]].semantic == id;
    }
    assert s * SemanticNames(functions) == s;
  }
}
