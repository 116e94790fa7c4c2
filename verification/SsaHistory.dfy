/** What a projected module keeps of its lowering history: trace entries and transformation records that
    are about something in the kept functions, and of an entry only the names that are. */
module SsaHistory {
  import opened Prelude
  import opened CallGraph
  import opened SsaProjection

  /** The three sets of names that are collected in one pass, told apart by what they name. */
  datatype Name = Ssa(id: Id) | Semantic(id: Id) | Hir(id: Id)

  ghost function Members(s: seq<Name>): set<Name> {
    set x | x in s
  }

  function SsaNames(ids: seq<Id>): seq<Name> {
    seq(|ids|, k requires 0 <= k < |ids| => Ssa(ids[k]))
  }

  function SemanticName(id: Option<Id>): seq<Name> {
    if id.Some? then [Semantic(id.value)] else []
  }

  function ValuesNames(values: seq<Value>): seq<Name> {
    if values == [] then []
    else
      var last := values[|values| - 1];
      ValuesNames(values[..|values| - 1]) + ([Ssa(last.identity)] + SemanticName(last.semantic))
  }

  function InstructionNames(i: Instruction): seq<Name> {
    [Ssa(i.identity)] + SemanticName(i.semantic) + (if i.hir.Some? then [Hir(i.hir.value)] else []) + ValuesNames(i.outputs)
  }

  function CodeNames(code: seq<Instruction>): seq<Name> {
    if code == [] then [] else CodeNames(code[..|code| - 1]) + InstructionNames(code[|code| - 1])
  }

  function BlockNames(b: Block): seq<Name> {
    [Ssa(b.identity)] + SemanticName(b.semantic) + ValuesNames(b.parameters) + CodeNames(b.instructions)
  }

  function BlocksNames(blocks: seq<Block>): seq<Name> {
    if blocks == [] then [] else BlocksNames(blocks[..|blocks| - 1]) + BlockNames(blocks[|blocks| - 1])
  }

  function IterationNames(i: Iteration): seq<Name> {
    SsaNames([i.identity] + i.points + i.bodyBlocks)
  }

  function IterationsNames(iterations: seq<Iteration>): seq<Name> {
    if iterations == [] then [] else IterationsNames(iterations[..|iterations| - 1]) + IterationNames(iterations[|iterations| - 1])
  }

  function FunctionNames(f: SsaFunction): seq<Name> {
    [Ssa(f.identity), Semantic(f.semantic)] + ValuesNames(f.inputs) + ValuesNames(f.outputs) + IterationsNames(f.iterations) + BlocksNames(f.blocks)
  }

  function NamesIn(functions: seq<SsaFunction>): seq<Name> {
    if functions == [] then [] else NamesIn(functions[..|functions| - 1]) + FunctionNames(functions[|functions| - 1])
  }

  lemma MembersJoin(a: seq<Name>, b: seq<Name>)
    ensures Members(a + b) == Members(a) + Members(b)
  {
  }

  lemma MembersMean(s: seq<Name>)
    ensures Members([]) == {} && forall x :: x in Members(s) <==> x in s
  {
  }

  // The collecting loops

  method CollectValue(v: Value, into: set<Name>) returns (r: set<Name>)
    ensures r == into + Members([Ssa(v.identity)] + SemanticName(v.semantic))
  {
    r := into + {Ssa(v.identity)};
    if v.semantic.Some? {
      r := r + {Semantic(v.semantic.value)};
    }
  }

  method CollectValues(values: seq<Value>, into: set<Name>) returns (r: set<Name>)
    ensures r == into + Members(ValuesNames(values))
  {
    MembersMean([]);
    hide Members, SemanticName;
    r := into;
    for k := 0 to |values|
      invariant r == into + Members(ValuesNames(values[..k]))
    {
      assert values[..k + 1][..k] == values[..k];
      MembersJoin(ValuesNames(values[..k]), [Ssa(values[k].identity)] + SemanticName(values[k].semantic));
      r := CollectValue(values[k], r);
    }
    assert values[..|values|] == values;
  }

  method CollectInstruction(i: Instruction, into: set<Name>) returns (r: set<Name>)
    ensures r == into + Members(InstructionNames(i))
  {
    hide ValuesNames;
    r := into + {Ssa(i.identity)};
    if i.semantic.Some? {
      r := r + {Semantic(i.semantic.value)};
    }
    if i.hir.Some? {
      r := r + {Hir(i.hir.value)};
    }
    r := CollectValues(i.outputs, r);
    MembersJoin([Ssa(i.identity)] + SemanticName(i.semantic) + (if i.hir.Some? then [Hir(i.hir.value)] else []), ValuesNames(i.outputs));
  }

  method CollectBlock(b: Block, into: set<Name>) returns (r: set<Name>)
    ensures r == into + Members(BlockNames(b))
  {
    hide ValuesNames, InstructionNames;
    r := into + {Ssa(b.identity)};
    if b.semantic.Some? {
      r := r + {Semantic(b.semantic.value)};
    }
    var head := [Ssa(b.identity)] + SemanticName(b.semantic);
    assert r == into + Members(head);
    hide Members;
    r := CollectValues(b.parameters, r);
    MembersJoin(head, ValuesNames(b.parameters));
    MembersMean([]);
    ghost var before := r;
    for k := 0 to |b.instructions|
      invariant r == before + Members(CodeNames(b.instructions[..k]))
    {
      assert b.instructions[..k + 1][..k] == b.instructions[..k];
      MembersJoin(CodeNames(b.instructions[..k]), InstructionNames(b.instructions[k]));
      r := CollectInstruction(b.instructions[k], r);
    }
    assert b.instructions[..|b.instructions|] == b.instructions;
    MembersJoin(head + ValuesNames(b.parameters), CodeNames(b.instructions));
  }

  method CollectIterations(iterations: seq<Iteration>, into: set<Name>) returns (r: set<Name>)
    ensures r == into + Members(IterationsNames(iterations))
  {
    r := into;
    for k := 0 to |iterations|
      invariant r == into + Members(IterationsNames(iterations[..k]))
    {
      assert iterations[..k + 1][..k] == iterations[..k];
      MembersJoin(IterationsNames(iterations[..k]), IterationNames(iterations[k]));
      r := r + set x | x in IterationNames(iterations[k]);
    }
    assert iterations[..|iterations|] == iterations;
  }

  method CollectFunction(f: SsaFunction, into: set<Name>) returns (r: set<Name>)
    ensures r == into + Members(FunctionNames(f))
  {
    hide ValuesNames, IterationsNames, BlockNames;
    r := into + {Ssa(f.identity), Semantic(f.semantic)};
    var head := [Ssa(f.identity), Semantic(f.semantic)];
    assert r == into + Members(head);
    MembersMean([]);
    hide Members;
    r := CollectValues(f.inputs, r);
    MembersJoin(head, ValuesNames(f.inputs));
    r := CollectValues(f.outputs, r);
    MembersJoin(head + ValuesNames(f.inputs), ValuesNames(f.outputs));
    r := CollectIterations(f.iterations, r);
    MembersJoin(head + ValuesNames(f.inputs) + ValuesNames(f.outputs), IterationsNames(f.iterations));
    ghost var before := r;
    for k := 0 to |f.blocks|
      invariant r == before + Members(BlocksNames(f.blocks[..k]))
    {
      assert f.blocks[..k + 1][..k] == f.blocks[..k];
      MembersJoin(BlocksNames(f.blocks[..k]), BlockNames(f.blocks[k]));
      r := CollectBlock(f.blocks[k], r);
    }
    assert f.blocks[..|f.blocks|] == f.blocks;
    MembersJoin(head + ValuesNames(f.inputs) + ValuesNames(f.outputs) + IterationsNames(f.iterations), BlocksNames(f.blocks));
  }

  method CollectNames(functions: seq<SsaFunction>) returns (r: set<Name>)
    ensures r == Members(NamesIn(functions))
    ensures forall n :: n in r <==> exists k :: 0 <= k < |functions| && FunctionHas(functions[k], n)
  {
    forall n ensures n in NamesIn(functions) <==> exists k :: 0 <= k < |functions| && FunctionHas(functions[k], n) {
      NamesInMean(functions, n);
    }
    MembersMean(NamesIn(functions));
    hide FunctionNames, FunctionHas, Members;
    r := {};
    for k := 0 to |functions|
      invariant r == Members(NamesIn(functions[..k]))
    {
      assert functions[..k + 1][..k] == functions[..k];
      MembersJoin(NamesIn(functions[..k]), FunctionNames(functions[k]));
      r := CollectFunction(functions[k], r);
    }
    assert functions[..|functions|] == functions;
  }

  // What it means to be a name in a function

  ghost predicate ValueHas(v: Value, n: Name) {
    n == Ssa(v.identity) || (v.semantic.Some? && n == Semantic(v.semantic.value))
  }

  ghost predicate ValuesHave(values: seq<Value>, n: Name) {
    exists k :: 0 <= k < |values| && ValueHas(values[k], n)
  }

  ghost predicate InstructionHas(i: Instruction, n: Name) {
    || n == Ssa(i.identity) || (i.semantic.Some? && n == Semantic(i.semantic.value)) || (i.hir.Some? && n == Hir(i.hir.value))
    || ValuesHave(i.outputs, n)
  }

  ghost predicate BlockHas(b: Block, n: Name) {
    || n == Ssa(b.identity) || (b.semantic.Some? && n == Semantic(b.semantic.value))
    || ValuesHave(b.parameters, n)
    || exists k :: 0 <= k < |b.instructions| && InstructionHas(b.instructions[k], n)
  }

  ghost predicate IterationHas(i: Iteration, n: Name) {
    n.Ssa? && (n.id == i.identity || n.id in i.points || n.id in i.bodyBlocks)
  }

  /** The function's own names, or those of a value, a bounded iteration, a block or an instruction in it. */
  ghost predicate FunctionHas(f: SsaFunction, n: Name) {
    || n == Ssa(f.identity) || n == Semantic(f.semantic)
    || ValuesHave(f.inputs, n) || ValuesHave(f.outputs, n)
    || (exists k :: 0 <= k < |f.iterations| && IterationHas(f.iterations[k], n))
    || (exists k :: 0 <= k < |f.blocks| && BlockHas(f.blocks[k], n))
  }

  lemma {:induction false} ValuesNamesMean(values: seq<Value>, n: Name)
    ensures n in ValuesNames(values) <==> ValuesHave(values, n)
  {
    if values != [] {
      var before, last := values[..|values| - 1], values[|values| - 1];
      ValuesNamesMean(before, n);
      assert n in [Ssa(last.identity)] + SemanticName(last.semantic) <==> ValueHas(last, n);
      hide ValueHas, SemanticName;
      if k :| 0 <= k < |before| && ValueHas(before[k], n) {
        assert ValueHas(values[k], n);
      }
      assert forall k :: 0 <= k < |before| ==> before[k] == values[k];
    }
  }

  lemma InstructionNamesMean(i: Instruction, n: Name)
    ensures n in InstructionNames(i) <==> InstructionHas(i, n)
  {
    hide ValuesNames, ValuesHave;
    ValuesNamesMean(i.outputs, n);
  }

  lemma {:induction false} CodeNamesMean(code: seq<Instruction>, n: Name)
    ensures n in CodeNames(code) <==> exists k :: 0 <= k < |code| && InstructionHas(code[k], n)
  {
    hide InstructionNames, InstructionHas;
    if code != [] {
      var before := code[..|code| - 1];
      CodeNamesMean(before, n);
      InstructionNamesMean(code[|code| - 1], n);
      if k :| 0 <= k < |before| && InstructionHas(before[k], n) {
        assert InstructionHas(code[k], n);
      }
      assert forall k :: 0 <= k < |before| ==> before[k] == code[k];
    }
  }

  lemma BlockNamesMean(b: Block, n: Name)
    ensures n in BlockNames(b) <==> BlockHas(b, n)
  {
    hide ValuesNames, ValuesHave, CodeNames, InstructionHas;
    ValuesNamesMean(b.parameters, n);
    CodeNamesMean(b.instructions, n);
  }

  lemma {:induction false} BlocksNamesMean(blocks: seq<Block>, n: Name)
    ensures n in BlocksNames(blocks) <==> exists k :: 0 <= k < |blocks| && BlockHas(blocks[k], n)
  {
    hide BlockNames, BlockHas;
    if blocks != [] {
      var before := blocks[..|blocks| - 1];
      BlocksNamesMean(before, n);
      BlockNamesMean(blocks[|blocks| - 1], n);
      if k :| 0 <= k < |before| && BlockHas(before[k], n) {
        assert BlockHas(blocks[k], n);
      }
      assert forall k :: 0 <= k < |before| ==> before[k] == blocks[k];
    }
  }

  lemma IterationNamesMean(i: Iteration, n: Name)
    ensures n in IterationNames(i) <==> IterationHas(i, n)
  {
    var ids := [i.identity] + i.points + i.bodyBlocks;
    assert n.Ssa? ==> (n.id in ids <==> IterationHas(i, n));
    if IterationHas(i, n) {
      var k :| 0 <= k < |ids| && ids[k] == n.id;
      assert IterationNames(i)[k] == n;
    }
    if n in IterationNames(i) {
      var k :| 0 <= k < |ids| && IterationNames(i)[k] == n;
      assert ids[k] in ids;
    }
  }

  lemma {:induction false} IterationsNamesMean(iterations: seq<Iteration>, n: Name)
    ensures n in IterationsNames(iterations) <==> exists k :: 0 <= k < |iterations| && IterationHas(iterations[k], n)
  {
    hide IterationNames, IterationHas;
    if iterations != [] {
      var before := iterations[..|iterations| - 1];
      IterationsNamesMean(before, n);
      IterationNamesMean(iterations[|iterations| - 1], n);
      if k :| 0 <= k < |before| && IterationHas(before[k], n) {
        assert IterationHas(iterations[k], n);
      }
      assert forall k :: 0 <= k < |before| ==> before[k] == iterations[k];
    }
  }

  lemma FunctionNamesMean(f: SsaFunction, n: Name)
    ensures n in FunctionNames(f) <==> FunctionHas(f, n)
  {
    hide ValuesNames, ValuesHave, IterationsNames, BlocksNames, IterationHas, BlockHas;
    ValuesNamesMean(f.inputs, n);
    ValuesNamesMean(f.outputs, n);
    IterationsNamesMean(f.iterations, n);
    BlocksNamesMean(f.blocks, n);
  }

  lemma {:induction false} NamesInMean(functions: seq<SsaFunction>, n: Name)
    ensures n in NamesIn(functions) <==> exists k :: 0 <= k < |functions| && FunctionHas(functions[k], n)
  {
    hide FunctionNames, FunctionHas;
    if functions != [] {
      var before := functions[..|functions| - 1];
      NamesInMean(before, n);
      FunctionNamesMean(functions[|functions| - 1], n);
      if k :| 0 <= k < |before| && FunctionHas(before[k], n) {
        assert FunctionHas(functions[k], n);
      }
      assert forall k :: 0 <= k < |before| ==> before[k] == functions[k];
    }
  }

  // What is retained

  function FilterIds(ids: seq<Id>, good: Id -> bool): seq<Id> {
    if ids == [] then [] else FilterIds(ids[..|ids| - 1], good) + if good(ids[|ids| - 1]) then [ids[|ids| - 1]] else []
  }

  /** An entry without the names that are not there. */
  function Narrowed(e: TraceEntry, names: set<Name>): TraceEntry {
    TraceEntry(e.semantic, FilterIds(e.ssa, id => Ssa(id) in names), FilterIds(e.hir, id => Hir(id) in names))
  }

  predicate StaysTraced(e: TraceEntry, names: set<Name>) {
    Semantic(e.semantic) in names || Narrowed(e, names).ssa != [] || Narrowed(e, names).hir != []
  }

  function KeepTrace(trace: seq<TraceEntry>, names: set<Name>): seq<TraceEntry> {
    if trace == [] then []
    else
      var last := trace[|trace| - 1];
      KeepTrace(trace[..|trace| - 1], names) + if StaysTraced(last, names) then [Narrowed(last, names)] else []
  }

  predicate StaysTransformed(t: Transformation, names: set<Name>) {
    Semantic(t.operation) in names || Ssa(t.operation) in names || Ssa(t.output) in names
  }

  function KeepTransformations(records: seq<Transformation>, names: set<Name>): seq<Transformation> {
    if records == [] then []
    else
      var last := records[|records| - 1];
      KeepTransformations(records[..|records| - 1], names) + if StaysTransformed(last, names) then [last] else []
  }

  method RetainIds(ids: seq<Id>, good: Id -> bool) returns (kept: seq<Id>)
    ensures kept == FilterIds(ids, good)
  {
    kept := [];
    for k := 0 to |ids|
      invariant kept == FilterIds(ids[..k], good)
    {
      assert ids[..k + 1][..k] == ids[..k];
      if good(ids[k]) {
        kept := kept + [ids[k]];
      }
    }
    assert ids[..|ids|] == ids;
  }

  method RetainTrace(trace: seq<TraceEntry>, names: set<Name>) returns (kept: seq<TraceEntry>)
    ensures kept == KeepTrace(trace, names)
  {
    hide FilterIds;
    kept := [];
    for k := 0 to |trace|
      invariant kept == KeepTrace(trace[..k], names)
    {
      assert trace[..k + 1][..k] == trace[..k];
      var entry := trace[k];
      var ssa := RetainIds(entry.ssa, id => Ssa(id) in names);
      var hir := RetainIds(entry.hir, id => Hir(id) in names);
      assert TraceEntry(entry.semantic, ssa, hir) == Narrowed(entry, names);
      if Semantic(entry.semantic) in names || ssa != [] || hir != [] {
        kept := kept + [TraceEntry(entry.semantic, ssa, hir)];
      }
    }
    assert trace[..|trace|] == trace;
  }

  method RetainTransformations(records: seq<Transformation>, names: set<Name>) returns (kept: seq<Transformation>)
    ensures kept == KeepTransformations(records, names)
  {
    kept := [];
    for k := 0 to |records|
      invariant kept == KeepTransformations(records[..k], names)
    {
      assert records[..k + 1][..k] == records[..k];
      if StaysTransformed(records[k], names) {
        kept := kept + [records[k]];
      }
    }
    assert records[..|records|] == records;
  }

  // Retaining again, and part by part

  lemma {:induction false} FilterSettles(ids: seq<Id>, good: Id -> bool)
    ensures FilterIds(FilterIds(ids, good), good) == FilterIds(ids, good)
  {
    if ids != [] {
      var before, last := ids[..|ids| - 1], ids[|ids| - 1];
      FilterSettles(before, good);
      var kept := FilterIds(before, good);
      if good(last) {
        assert (kept + [last])[..|kept|] == kept;
      } else {
        assert kept + [] == kept;
      }
    }
  }

  lemma NarrowedSettles(e: TraceEntry, names: set<Name>)
    ensures Narrowed(Narrowed(e, names), names) == Narrowed(e, names)
    ensures StaysTraced(e, names) ==> StaysTraced(Narrowed(e, names), names)
  {
    hide FilterIds;
    FilterSettles(e.ssa, id => Ssa(id) in names);
    FilterSettles(e.hir, id => Hir(id) in names);
  }

  lemma {:induction false} TraceSettles(trace: seq<TraceEntry>, names: set<Name>)
    ensures KeepTrace(KeepTrace(trace, names), names) == KeepTrace(trace, names)
  {
    hide Narrowed, StaysTraced;
    if trace != [] {
      var before, last := trace[..|trace| - 1], trace[|trace| - 1];
      TraceSettles(before, names);
      NarrowedSettles(last, names);
      var kept := KeepTrace(before, names);
      if StaysTraced(last, names) {
        assert (kept + [Narrowed(last, names)])[..|kept|] == kept;
      } else {
        assert kept + [] == kept;
      }
    }
  }

  lemma {:induction false} TransformationsSettle(records: seq<Transformation>, names: set<Name>)
    ensures KeepTransformations(KeepTransformations(records, names), names) == KeepTransformations(records, names)
  {
    hide StaysTransformed;
    if records != [] {
      var before, last := records[..|records| - 1], records[|records| - 1];
      TransformationsSettle(before, names);
      var kept := KeepTransformations(before, names);
      if StaysTransformed(last, names) {
        assert (kept + [last])[..|kept|] == kept;
      } else {
        assert kept + [] == kept;
      }
    }
  }

  lemma {:induction false} TraceConcat(a: seq<TraceEntry>, b: seq<TraceEntry>, names: set<Name>)
    ensures KeepTrace(a + b, names) == KeepTrace(a, names) + KeepTrace(b, names)
    decreases |b|
  {
    hide Narrowed, StaysTraced;
    if b == [] {
      assert a + b == a;
    } else {
      TraceConcat(a, b[..|b| - 1], names);
      assert (a + b)[..|a + b| - 1] == a + b[..|b| - 1];
    }
  }

  lemma {:induction false} TransformationsConcat(a: seq<Transformation>, b: seq<Transformation>, names: set<Name>)
    ensures KeepTransformations(a + b, names) == KeepTransformations(a, names) + KeepTransformations(b, names)
    decreases |b|
  {
    hide StaysTransformed;
    if b == [] {
      assert a + b == a;
    } else {
      TransformationsConcat(a, b[..|b| - 1], names);
      assert (a + b)[..|a + b| - 1] == a + b[..|b| - 1];
    }
  }

  lemma {:induction false} NoTrace(trace: seq<TraceEntry>, names: set<Name>)
    ensures KeepTrace(trace, names) == [] <==> forall e :: e in trace ==> !StaysTraced(e, names)
  {
    hide Narrowed, StaysTraced;
    if trace != [] {
      var before, last := trace[..|trace| - 1], trace[|trace| - 1];
      NoTrace(before, names);
      assert trace == before + [last];
    }
  }

  lemma {:induction false} NoTransformations(records: seq<Transformation>, names: set<Name>)
    ensures KeepTransformations(records, names) == [] <==> forall t :: t in records ==> !StaysTransformed(t, names)
  {
    hide StaysTransformed;
    if records != [] {
      var before, last := records[..|records| - 1], records[|records| - 1];
      NoTransformations(before, names);
      assert records == before + [last];
    }
  }

  // What retaining means

  lemma {:induction false} FilterMeans(ids: seq<Id>, good: Id -> bool)
    ensures forall id :: id in FilterIds(ids, good) <==> id in ids && good(id)
  {
    if ids != [] {
      FilterMeans(ids[..|ids| - 1], good);
      assert ids == ids[..|ids| - 1] + [ids[|ids| - 1]];
    }
  }

  /** An entry stays exactly when its semantic name, or some name it leads to, is one of the names; and
      then it leads to just those of its names that are. */
  lemma EntryStays(e: TraceEntry, names: set<Name>)
    ensures StaysTraced(e, names) <==>
              || Semantic(e.semantic) in names
              || (exists id :: id in e.ssa && Ssa(id) in names)
              || exists id :: id in e.hir && Hir(id) in names
    ensures Narrowed(e, names).semantic == e.semantic
    ensures forall id :: id in Narrowed(e, names).ssa <==> id in e.ssa && Ssa(id) in names
    ensures forall id :: id in Narrowed(e, names).hir <==> id in e.hir && Hir(id) in names
  {
    hide FilterIds;
    FilterMeans(e.ssa, id => Ssa(id) in names);
    FilterMeans(e.hir, id => Hir(id) in names);
    var r := Narrowed(e, names);
    assert r.ssa != [] ==> r.ssa[0] in r.ssa;
    assert r.hir != [] ==> r.hir[0] in r.hir;
  }

  /** A name of a function, or of something in it, that is kept. */
  ghost predicate Named(functions: seq<SsaFunction>, n: Name) {
    exists k :: 0 <= k < |functions| && FunctionHas(functions[k], n)
  }

  /** The second entry is the first one without the names that are not those of the functions. */
  ghost predicate NarrowsTo(e: TraceEntry, r: TraceEntry, functions: seq<SsaFunction>) {
    && r.semantic == e.semantic
    && (forall id :: id in r.ssa <==> id in e.ssa && Named(functions, Ssa(id)))
    && forall id :: id in r.hir <==> id in e.hir && Named(functions, Hir(id))
  }

  ghost predicate Relevant(e: TraceEntry, functions: seq<SsaFunction>) {
    || Named(functions, Semantic(e.semantic))
    || (exists id :: id in e.ssa && Named(functions, Ssa(id)))
    || exists id :: id in e.hir && Named(functions, Hir(id))
  }

  lemma NarrowedMeans(e: TraceEntry, functions: seq<SsaFunction>)
    ensures var names := Members(NamesIn(functions));
            NarrowsTo(e, Narrowed(e, names), functions) && (StaysTraced(e, names) <==> Relevant(e, functions))
  {
    hide StaysTraced, Narrowed, NamesIn, Named;
    NamedWhen(functions);
    EntryStays(e, Members(NamesIn(functions)));
  }

  lemma NamedWhen(functions: seq<SsaFunction>)
    ensures forall n :: n in Members(NamesIn(functions)) <==> Named(functions, n)
  {
    hide NamesIn, FunctionHas;
    forall n ensures n in NamesIn(functions) <==> Named(functions, n) {
      NamesInMean(functions, n);
    }
  }

  /** What is kept of a trace for some functions is what names them, narrowed to their names. */
  lemma TraceMeans(trace: seq<TraceEntry>, functions: seq<SsaFunction>)
    ensures var kept := KeepTrace(trace, Members(NamesIn(functions)));
            && (forall r :: r in kept ==> exists e :: e in trace && Relevant(e, functions) && NarrowsTo(e, r, functions))
            && forall e :: e in trace && Relevant(e, functions) ==> exists r :: r in kept && NarrowsTo(e, r, functions)
  {
    hide StaysTraced, Narrowed, NamesIn, NarrowsTo, Relevant, KeepTrace;
    var names := Members(NamesIn(functions));
    var kept := KeepTrace(trace, names);
    KeptTraceMeans(trace, names);
    forall e ensures NarrowsTo(e, Narrowed(e, names), functions) && (StaysTraced(e, names) <==> Relevant(e, functions)) {
      NarrowedMeans(e, functions);
    }
    forall e | e in trace && Relevant(e, functions) ensures exists r :: r in kept && NarrowsTo(e, r, functions) {
      assert Narrowed(e, names) in kept;
    }
  }

  /** A transformation record stays exactly when what it is about, or what came of it, is named. */
  lemma {:induction false} TransformationsMean(records: seq<Transformation>, functions: seq<SsaFunction>)
    ensures forall t :: t in KeepTransformations(records, Members(NamesIn(functions))) <==>
              && t in records
              && (Named(functions, Semantic(t.operation)) || Named(functions, Ssa(t.operation)) || Named(functions, Ssa(t.output)))
  {
    hide NamesIn, Named;
    NamedWhen(functions);
    if records != [] {
      var before := records[..|records| - 1];
      TransformationsMean(before, functions);
      assert records == before + [records[|records| - 1]];
    }
  }

  /** What is kept of a trace. */
  lemma {:induction false} KeptTraceMeans(trace: seq<TraceEntry>, names: set<Name>)
    ensures forall r :: r in KeepTrace(trace, names) <==> exists e :: e in trace && StaysTraced(e, names) && r == Narrowed(e, names)
  {
    hide StaysTraced, Narrowed;
    if trace != [] {
      var before, last := trace[..|trace| - 1], trace[|trace| - 1];
      KeptTraceMeans(before, names);
      assert forall e :: e in trace <==> e in before || e == last by {
        assert trace == before + [last];
      }
    }
  }
}
