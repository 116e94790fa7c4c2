/** The tables beside a projected module's functions: the record types its code mentions and those
    nested in them, and the obligations attached to its code and those they rest on. */
module SsaTables {
  import opened Prelude
  import opened Reachability
  import opened CallGraph
  import opened SsaProjection

  ghost function Elements(s: seq<Id>): set<Id> {
    set x | x in s
  }

  function TypeRecords(ty: Type): seq<Id> {
    match ty
    case Record(identity) => [identity]
    case Sequence(element) => TypeRecords(element)
    case Vector(element) => TypeRecords(element)
    case _ => []
  }

  function TypesRecords(types: seq<Type>): seq<Id> {
    if types == [] then [] else TypesRecords(types[..|types| - 1]) + TypeRecords(types[|types| - 1])
  }

  function KindRecords(kind: Kind): seq<Id> {
    match kind
    case Constant(ty) => TypeRecords(ty)
    case Select(ty) => TypeRecords(ty)
    case SequenceReplace(element) => TypeRecords(element)
    case SequenceCopy(element) => TypeRecords(element)
    case SequenceConstruct(element) => TypeRecords(element)
    case VectorConstruct(element) => TypeRecords(element)
    case VectorSplat(element) => TypeRecords(element)
    case VectorExtract(element) => TypeRecords(element)
    case VectorReplace(element) => TypeRecords(element)
    case VectorBinary(element) => TypeRecords(element)
    case VectorCompare(element) => TypeRecords(element)
    case VectorReduce(element) => TypeRecords(element)
    case Convert(source, target) => TypeRecords(source) + TypeRecords(target)
    case RecordConstruct(identity) => [identity]
    case RecordProject(identity) => [identity]
    case _ => []
  }

  function CodeRecords(code: seq<Instruction>): seq<Id> {
    if code == [] then []
    else CodeRecords(code[..|code| - 1]) + (KindRecords(code[|code| - 1].kind) + TypesRecords(TypesOf(code[|code| - 1].outputs)))
  }

  function BlocksRecords(blocks: seq<Block>): seq<Id> {
    if blocks == [] then []
    else BlocksRecords(blocks[..|blocks| - 1]) + (TypesRecords(TypesOf(blocks[|blocks| - 1].parameters)) + CodeRecords(blocks[|blocks| - 1].instructions))
  }

  function IterationTypes(iteration: Iteration): seq<Type> {
    [iteration.state] + if iteration.element.Some? then [iteration.element.value] else []
  }

  function IterationsRecords(iterations: seq<Iteration>): seq<Id> {
    if iterations == [] then [] else IterationsRecords(iterations[..|iterations| - 1]) + TypesRecords(IterationTypes(iterations[|iterations| - 1]))
  }

  /** Every record type that a function mentions, anywhere in it. */
  function FunctionRecords(f: SsaFunction): seq<Id> {
    TypesRecords(TypesOf(f.inputs)) + TypesRecords(TypesOf(f.outputs)) + IterationsRecords(f.iterations) + BlocksRecords(f.blocks)
  }

  function MentionedRecords(functions: seq<SsaFunction>): seq<Id> {
    if functions == [] then [] else MentionedRecords(functions[..|functions| - 1]) + FunctionRecords(functions[|functions| - 1])
  }

  lemma ElementsJoin(a: seq<Id>, b: seq<Id>)
    ensures Elements(a + b) == Elements(a) + Elements(b)
  {
  }

  method CollectTypes(types: seq<Type>, into: set<Id>) returns (r: set<Id>)
    ensures r == into + Elements(TypesRecords(types))
  {
    r := into;
    for k := 0 to |types|
      invariant r == into + Elements(TypesRecords(types[..k]))
    {
      assert types[..k + 1][..k] == types[..k];
      ElementsJoin(TypesRecords(types[..k]), TypeRecords(types[k]));
      r := r + set x | x in TypeRecords(types[k]);
    }
    assert types[..|types|] == types;
  }

  method CollectType(ty: Type, into: set<Id>) returns (r: set<Id>)
    ensures r == into + Elements(TypeRecords(ty))
  {
    r := into + set x | x in TypeRecords(ty);
  }

  predicate HasElementType(kind: Kind) {
    || kind.SequenceReplace? || kind.SequenceCopy? || kind.SequenceConstruct?
    || kind.VectorConstruct? || kind.VectorSplat? || kind.VectorExtract? || kind.VectorReplace?
    || kind.VectorBinary? || kind.VectorCompare? || kind.VectorReduce?
  }

  method CollectKind(kind: Kind, into: set<Id>) returns (r: set<Id>)
    ensures r == into + Elements(KindRecords(kind))
  {
    r := into;
    if kind.Constant? || kind.Select? {
      r := CollectType(kind.ty, into);
    } else if HasElementType(kind) {
      r := CollectType(kind.elementType, into);
    } else if kind.Convert? {
      r := CollectType(kind.source, into);
      r := CollectType(kind.target, r);
      ElementsJoin(TypeRecords(kind.source), TypeRecords(kind.target));
    } else if kind.RecordConstruct? || kind.RecordProject? {
      r := r + {kind.identity};
    }
    KindRecordsAre(kind);
    hide KindRecords, TypeRecords;
  }

  lemma KindRecordsAre(kind: Kind)
    ensures KindRecords(kind) ==
            if kind.Constant? || kind.Select? then TypeRecords(kind.ty)
            else if HasElementType(kind) then TypeRecords(kind.elementType)
            else if kind.Convert? then TypeRecords(kind.source) + TypeRecords(kind.target)
            else if kind.RecordConstruct? || kind.RecordProject? then [kind.identity]
            else []
  {
    hide TypeRecords;
  }

  method CollectCode(code: seq<Instruction>, into: set<Id>) returns (r: set<Id>)
    ensures r == into + Elements(CodeRecords(code))
  {
    hide TypesRecords, Elements, KindRecords;
    r := into;
    NoElements();
    for k := 0 to |code|
      invariant r == into + Elements(CodeRecords(code[..k]))
    {
      assert code[..k + 1][..k] == code[..k];
      ElementsJoin(CodeRecords(code[..k]), KindRecords(code[k].kind) + TypesRecords(TypesOf(code[k].outputs)));
      ElementsJoin(KindRecords(code[k].kind), TypesRecords(TypesOf(code[k].outputs)));
      r := CollectKind(code[k].kind, r);
      r := CollectTypes(TypesOf(code[k].outputs), r);
    }
    assert code[..|code|] == code;
  }

  lemma NoElements()
    ensures Elements([]) == {}
  {
  }

  method CollectFunction(f: SsaFunction, into: set<Id>) returns (r: set<Id>)
    ensures r == into + Elements(FunctionRecords(f))
  {
    hide TypesRecords, CodeRecords, Elements, IterationTypes;
    NoElements();
    r := CollectTypes(TypesOf(f.inputs), into);
    r := CollectTypes(TypesOf(f.outputs), r);
    ghost var before := r;
    for k := 0 to |f.iterations|
      invariant r == before + Elements(IterationsRecords(f.iterations[..k]))
    {
      assert f.iterations[..k + 1][..k] == f.iterations[..k];
      ElementsJoin(IterationsRecords(f.iterations[..k]), TypesRecords(IterationTypes(f.iterations[k])));
      r := CollectTypes(IterationTypes(f.iterations[k]), r);
    }
    assert f.iterations[..|f.iterations|] == f.iterations;
    ghost var between := r;
    for k := 0 to |f.blocks|
      invariant r == between + Elements(BlocksRecords(f.blocks[..k]))
    {
      assert f.blocks[..k + 1][..k] == f.blocks[..k];
      ElementsJoin(BlocksRecords(f.blocks[..k]), TypesRecords(TypesOf(f.blocks[k].parameters)) + CodeRecords(f.blocks[k].instructions));
      ElementsJoin(TypesRecords(TypesOf(f.blocks[k].parameters)), CodeRecords(f.blocks[k].instructions));
      r := CollectTypes(TypesOf(f.blocks[k].parameters), r);
      r := CollectCode(f.blocks[k].instructions, r);
    }
    assert f.blocks[..|f.blocks|] == f.blocks;
    FunctionElements(f);
  }

  lemma FunctionElements(f: SsaFunction)
    ensures Elements(FunctionRecords(f)) ==
            Elements(TypesRecords(TypesOf(f.inputs))) + Elements(TypesRecords(TypesOf(f.outputs))) + Elements(IterationsRecords(f.iterations)) + Elements(BlocksRecords(f.blocks))
  {
    hide Elements;
    var a, b, c, d := TypesRecords(TypesOf(f.inputs)), TypesRecords(TypesOf(f.outputs)), IterationsRecords(f.iterations), BlocksRecords(f.blocks);
    ElementsJoin(a, b);
    ElementsJoin(a + b, c);
    ElementsJoin(a + b + c, d);
  }

  // What it means to mention a record type

  predicate TypeMentions(ty: Type, id: Id) {
    match ty
    case Record(identity) => identity == id
    case Sequence(element) => TypeMentions(element, id)
    case Vector(element) => TypeMentions(element, id)
    case _ => false
  }

  ghost predicate TypesMention(types: seq<Type>, id: Id) {
    exists k :: 0 <= k < |types| && TypeMentions(types[k], id)
  }

  ghost predicate ValuesMention(values: seq<Value>, id: Id) {
    exists k :: 0 <= k < |values| && TypeMentions(values[k].ty, id)
  }

  /** The kinds that name a type or a record type, one by one. */
  predicate KindMentions(kind: Kind, id: Id) {
    match kind
    case Constant(ty) => TypeMentions(ty, id)
    case Select(ty) => TypeMentions(ty, id)
    case SequenceReplace(element) => TypeMentions(element, id)
    case SequenceCopy(element) => TypeMentions(element, id)
    case SequenceConstruct(element) => TypeMentions(element, id)
    case VectorConstruct(element) => TypeMentions(element, id)
    case VectorSplat(element) => TypeMentions(element, id)
    case VectorExtract(element) => TypeMentions(element, id)
    case VectorReplace(element) => TypeMentions(element, id)
    case VectorBinary(element) => TypeMentions(element, id)
    case VectorCompare(element) => TypeMentions(element, id)
    case VectorReduce(element) => TypeMentions(element, id)
    case Convert(source, target) => TypeMentions(source, id) || TypeMentions(target, id)
    case RecordConstruct(identity) => identity == id
    case RecordProject(identity) => identity == id
    case _ => false
  }

  ghost predicate InstructionMentions(i: Instruction, id: Id) {
    KindMentions(i.kind, id) || ValuesMention(i.outputs, id)
  }

  ghost predicate BlockMentions(b: Block, id: Id) {
    ValuesMention(b.parameters, id) || exists k :: 0 <= k < |b.instructions| && InstructionMentions(b.instructions[k], id)
  }

  ghost predicate IterationMentions(i: Iteration, id: Id) {
    TypeMentions(i.state, id) || (i.element.Some? && TypeMentions(i.element.value, id))
  }

  /** In an input, an output, a bounded iteration, a block parameter, or an instruction of the function. */
  ghost predicate FunctionMentions(f: SsaFunction, id: Id) {
    || ValuesMention(f.inputs, id) || ValuesMention(f.outputs, id)
    || (exists k :: 0 <= k < |f.iterations| && IterationMentions(f.iterations[k], id))
    || (exists k :: 0 <= k < |f.blocks| && BlockMentions(f.blocks[k], id))
  }

  ghost predicate Mentions(functions: seq<SsaFunction>, id: Id) {
    exists k :: 0 <= k < |functions| && FunctionMentions(functions[k], id)
  }

  lemma {:induction false} TypeRecordsMean(ty: Type, id: Id)
    ensures id in TypeRecords(ty) <==> TypeMentions(ty, id)
  {
    match ty
    case Sequence(element) => TypeRecordsMean(element, id);
    case Vector(element) => TypeRecordsMean(element, id);
    case _ =>
  }

  lemma {:induction false} TypesRecordsMean(types: seq<Type>, id: Id)
    ensures id in TypesRecords(types) <==> TypesMention(types, id)
  {
    hide TypeRecords, TypeMentions;
    if types != [] {
      var before, last := types[..|types| - 1], types[|types| - 1];
      TypesRecordsMean(before, id);
      TypeRecordsMean(last, id);
      assert forall k :: 0 <= k < |before| ==> before[k] == types[k];
      if TypesMention(before, id) {
        var k :| 0 <= k < |before| && TypeMentions(before[k], id);
        assert TypeMentions(types[k], id);
      }
    }
  }

  lemma ValuesRecordsMean(values: seq<Value>, id: Id)
    ensures id in TypesRecords(TypesOf(values)) <==> ValuesMention(values, id)
  {
    hide TypesRecords, TypeMentions;
    TypesRecordsMean(TypesOf(values), id);
    if ValuesMention(values, id) {
      var k :| 0 <= k < |values| && TypeMentions(values[k].ty, id);
      assert TypeMentions(TypesOf(values)[k], id);
    }
  }

  lemma KindRecordsMean(kind: Kind, id: Id)
    ensures id in KindRecords(kind) <==> KindMentions(kind, id)
  {
    KindRecordsAre(kind);
    hide TypeRecords, TypeMentions, KindRecords;
    if kind.Constant? || kind.Select? {
      TypeRecordsMean(kind.ty, id);
    } else if HasElementType(kind) {
      TypeRecordsMean(kind.elementType, id);
    } else if kind.Convert? {
      TypeRecordsMean(kind.source, id);
      TypeRecordsMean(kind.target, id);
    }
  }

  lemma {:induction false} CodeRecordsMean(code: seq<Instruction>, id: Id)
    ensures id in CodeRecords(code) <==> exists k :: 0 <= k < |code| && InstructionMentions(code[k], id)
  {
    hide KindRecords, TypesRecords, KindMentions, ValuesMention, InstructionMentions;
    if code != [] {
      var before, last := code[..|code| - 1], code[|code| - 1];
      CodeRecordsMean(before, id);
      InstructionRecordsMean(last, id);
      assert forall k :: 0 <= k < |before| ==> before[k] == code[k];
      if k :| 0 <= k < |before| && InstructionMentions(before[k], id) {
        assert InstructionMentions(code[k], id);
      }
    }
  }

  lemma InstructionRecordsMean(i: Instruction, id: Id)
    ensures id in KindRecords(i.kind) + TypesRecords(TypesOf(i.outputs)) <==> InstructionMentions(i, id)
  {
    hide KindRecords, TypesRecords, KindMentions, ValuesMention;
    KindRecordsMean(i.kind, id);
    ValuesRecordsMean(i.outputs, id);
  }

  lemma {:induction false} BlocksRecordsMean(blocks: seq<Block>, id: Id)
    ensures id in BlocksRecords(blocks) <==> exists k :: 0 <= k < |blocks| && BlockMentions(blocks[k], id)
  {
    hide TypesRecords, CodeRecords, TypesMention, BlockMentions;
    if blocks != [] {
      var before, last := blocks[..|blocks| - 1], blocks[|blocks| - 1];
      BlocksRecordsMean(before, id);
      BlockRecordsMean(last, id);
      assert forall k :: 0 <= k < |before| ==> before[k] == blocks[k];
      if k :| 0 <= k < |before| && BlockMentions(before[k], id) {
        assert BlockMentions(blocks[k], id);
      }
    }
  }

  lemma BlockRecordsMean(b: Block, id: Id)
    ensures id in TypesRecords(TypesOf(b.parameters)) + CodeRecords(b.instructions) <==> BlockMentions(b, id)
  {
    hide TypesRecords, CodeRecords, ValuesMention, InstructionMentions;
    ValuesRecordsMean(b.parameters, id);
    CodeRecordsMean(b.instructions, id);
  }

  lemma {:induction false} IterationsRecordsMean(iterations: seq<Iteration>, id: Id)
    ensures id in IterationsRecords(iterations) <==> exists k :: 0 <= k < |iterations| && IterationMentions(iterations[k], id)
  {
    hide TypesRecords, IterationMentions, IterationTypes;
    if iterations != [] {
      var before, last := iterations[..|iterations| - 1], iterations[|iterations| - 1];
      IterationsRecordsMean(before, id);
      IterationRecordsMean(last, id);
      assert forall k :: 0 <= k < |before| ==> before[k] == iterations[k];
      if k :| 0 <= k < |before| && IterationMentions(before[k], id) {
        assert IterationMentions(iterations[k], id);
      }
    }
  }

  lemma IterationRecordsMean(i: Iteration, id: Id)
    ensures id in TypesRecords(IterationTypes(i)) <==> IterationMentions(i, id)
  {
    hide TypesRecords, TypeMentions;
    var types := IterationTypes(i);
    TypesRecordsMean(types, id);
    if IterationMentions(i, id) {
      assert TypeMentions(types[0], id) || TypeMentions(types[1], id);
    }
  }

  lemma FunctionRecordsMean(f: SsaFunction, id: Id)
    ensures id in FunctionRecords(f) <==> FunctionMentions(f, id)
  {
    hide TypesRecords, IterationsRecords, BlocksRecords, ValuesMention, IterationMentions, BlockMentions;
    ValuesRecordsMean(f.inputs, id);
    ValuesRecordsMean(f.outputs, id);
    IterationsRecordsMean(f.iterations, id);
    BlocksRecordsMean(f.blocks, id);
  }

  /** A record type is collected exactly when something in some kept function mentions it. */
  lemma {:induction false} MentionedRecordsMean(functions: seq<SsaFunction>, id: Id)
    ensures id in MentionedRecords(functions) <==> Mentions(functions, id)
  {
    hide FunctionRecords, FunctionMentions;
    if functions != [] {
      var before, last := functions[..|functions| - 1], functions[|functions| - 1];
      MentionedRecordsMean(before, id);
      FunctionRecordsMean(last, id);
      hide MentionedRecords;
      LastMentions(before, last, id);
      assert before + [last] == functions;
    }
  }

  lemma LastMentions(functions: seq<SsaFunction>, f: SsaFunction, id: Id)
    ensures Mentions(functions + [f], id) <==> Mentions(functions, id) || FunctionMentions(f, id)
  {
    hide FunctionMentions;
    var more := functions + [f];
    assert more[|functions|] == f;
    if k :| 0 <= k < |functions| && FunctionMentions(functions[k], id) {
      assert FunctionMentions(more[k], id);
    }
  }

  method CollectRecords(functions: seq<SsaFunction>) returns (r: set<Id>)
    ensures r == Elements(MentionedRecords(functions))
    ensures forall id :: id in r <==> Mentions(functions, id)
  {
    forall id ensures id in MentionedRecords(functions) <==> Mentions(functions, id) {
      MentionedRecordsMean(functions, id);
    }
    hide Mentions, FunctionRecords;
    r := {};
    for k := 0 to |functions|
      invariant r == Elements(MentionedRecords(functions[..k]))
    {
      assert functions[..k + 1][..k] == functions[..k];
      ElementsJoin(MentionedRecords(functions[..k]), FunctionRecords(functions[k]));
      r := CollectFunction(functions[k], r);
    }
    assert functions[..|functions|] == functions;
  }

  // Record types

  ghost predicate DistinctRecords(records: seq<RecordType>) {
    forall j, k :: 0 <= j < k < |records| ==> records[j].identity != records[k].identity
  }

  /** The record types nested in a record type's fields. */
  function Nested(records: seq<RecordType>): map<Id, seq<Id>> {
    if records == [] then map[]
    else
      var last := records[|records| - 1];
      Nested(records[..|records| - 1])[last.identity := TypesRecords(last.fields)]
  }

  ghost function RecordReach(records: seq<RecordType>, required: set<Id>): set<Id> {
    Reach(Nested(records), required)
  }

  ghost predicate RecordsResolve(records: seq<RecordType>, required: set<Id>) {
    RecordReach(records, required) <= Nested(records).Keys
  }

  function KeepRecords(records: seq<RecordType>, reachable: set<Id>): seq<RecordType> {
    if records == [] then []
    else
      var last := records[|records| - 1];
      KeepRecords(records[..|records| - 1], reachable) + if last.identity in reachable then [last] else []
  }

  lemma {:induction false} NestedHolds(records: seq<RecordType>)
    ensures forall id :: id in Nested(records) <==> exists k :: 0 <= k < |records| && records[k].identity == id
    ensures DistinctRecords(records) ==> forall k :: 0 <= k < |records| ==> Nested(records)[records[k].identity] == TypesRecords(records[k].fields)
  {
    if records != [] {
      var before, last := records[..|records| - 1], records[|records| - 1];
      NestedHolds(before);
      forall k | 0 <= k < |records|
        ensures records[k].identity in Nested(records)
        ensures DistinctRecords(records) ==> Nested(records)[records[k].identity] == TypesRecords(records[k].fields)
      {
        if k < |before| {
          assert before[k] == records[k];
        }
      }
      forall id | id in Nested(records) ensures exists k :: 0 <= k < |records| && records[k].identity == id {
        if id in Nested(before) {
          var k :| 0 <= k < |before| && before[k].identity == id;
          assert records[k].identity == id;
        } else {
          assert records[|before|].identity == id;
        }
      }
    }
  }

  method IndexRecords(records: seq<RecordType>) returns (r: Result<map<Id, nat>, Refusal>)
    ensures r.Ok? <==> DistinctRecords(records)
    ensures r.Ok? ==> RecordIndex(records, r.value)
    ensures r.Err? ==> r.error.DuplicateRecord?
  {
    hide Nested, RecordIndex;
    var index: map<Id, nat> := map[];
    for k := 0 to |records|
      invariant DistinctRecords(records[..k])
      invariant forall id :: id in index ==> index[id] < k && records[index[id]].identity == id
      invariant forall j :: 0 <= j < k ==> records[j].identity in index
    {
      if records[k].identity in index {
        assert records[index[records[k].identity]].identity == records[k].identity;
        return Err(DuplicateRecord(records[k].identity));
      }
      index := index[records[k].identity := k];
    }
    assert records[..|records|] == records;
    IndexedAll(records, index);
    return Ok(index);
  }

  lemma IndexedAll(records: seq<RecordType>, index: map<Id, nat>)
    requires DistinctRecords(records)
    requires forall id :: id in index ==> index[id] < |records| && records[index[id]].identity == id
    requires forall j :: 0 <= j < |records| ==> records[j].identity in index
    ensures RecordIndex(records, index)
  {
    hide Nested, DistinctRecords;
    NestedHolds(records);
    forall id | id in Nested(records) ensures id in index {
      var k :| 0 <= k < |records| && records[k].identity == id;
    }
    forall id | id in index ensures id in Nested(records) && Nested(records)[id] == TypesRecords(records[index[id]].fields) {
      assert records[index[id]].identity == id;
    }
  }

  /** One record type taken from the queue. */
  lemma RecordVisited(records: seq<RecordType>, required: set<Id>, seen: set<Id>, x: Id, rest: seq<Id>, queued: seq<Id>)
    requires Working(Nested(records), required, seen, [x] + rest)
    requires x in Nested(records) ==> forall y :: y in queued <==> y in Nested(records)[x]
    ensures x in RecordReach(records, required)
    ensures x in seen ==> Working(Nested(records), required, seen, rest)
    ensures x in Nested(records) ==> Working(Nested(records), required, seen + {x}, rest + queued)
  {
    hide Working, Reach, Nested;
    var edges := Nested(records);
    if x in seen {
      WorkSkips(edges, required, seen, [x] + rest, x, rest);
    }
    WorkGrows(edges, required, seen, [x] + rest, x, rest, rest + Successors(edges, x));
    if x in Nested(records) {
      WorkGrows(edges, required, seen, [x] + rest, x, rest, rest + queued);
    }
  }

  ghost function RecordsLeft(records: seq<RecordType>, seen: set<Id>): nat {
    |Nested(records).Keys - seen|
  }

  lemma FewerRecordsLeft(records: seq<RecordType>, seen: set<Id>, x: Id)
    requires x in Nested(records) && x !in seen
    ensures RecordsLeft(records, seen + {x}) < RecordsLeft(records, seen)
  {
    hide Nested;
    assert Nested(records).Keys - (seen + {x}) == Nested(records).Keys - seen - {x};
  }

  /** What the fields of one record type mention, queued. */
  method QueueNested(records: seq<RecordType>, index: map<Id, nat>, identity: Id) returns (queued: seq<Id>)
    requires RecordIndex(records, index) && identity in index
    ensures forall x :: x in queued <==> x in Nested(records)[identity]
  {
    hide Nested, TypesRecords;
    var nested := CollectTypes(records[index[identity]].fields, {});
    queued := QueueSet(nested);
  }

  ghost predicate RecordIndex(records: seq<RecordType>, index: map<Id, nat>) {
    && index.Keys == Nested(records).Keys
    && forall id :: id in index ==> index[id] < |records| && Nested(records)[id] == TypesRecords(records[index[id]].fields)
  }

  method FindRecords(records: seq<RecordType>, index: map<Id, nat>, required: set<Id>) returns (r: Result<set<Id>, Refusal>)
    requires RecordIndex(records, index)
    ensures r.Ok? <==> RecordsResolve(records, required)
    ensures r.Ok? ==> r.value == RecordReach(records, required)
    ensures r.Err? ==> r.error.MissingRecord? && r.error.id in RecordReach(records, required) && r.error.id !in Nested(records)
  {
    assert index.Keys == Nested(records).Keys;
    hide Working, Nested, RecordIndex, RecordsLeft, RecordsResolve, RecordReach;
    var pending := QueueSet(required);
    var reachable: set<Id> := {};
    WorkStarts(Nested(records), required, pending);
    while pending != []
      invariant Working(Nested(records), required, reachable, pending)
      invariant reachable <= index.Keys
      decreases RecordsLeft(records, reachable), |pending|
    {
      var identity := pending[0];
      assert pending == [identity] + pending[1..];
      pending := pending[1..];
      if identity in reachable {
        RecordVisited(records, required, reachable, identity, pending, Nested(records)[identity]);
        continue;
      }
      if identity !in index {
        RecordVisited(records, required, reachable, identity, pending, []);
        RecordsLack(records, required, identity);
        return Err(MissingRecord(identity));
      }
      var queued := QueueNested(records, index, identity);
      RecordVisited(records, required, reachable, identity, pending, queued);
      FewerRecordsLeft(records, reachable, identity);
      reachable := reachable + {identity};
      pending := pending + queued;
    }
    RecordsSettle(records, required, reachable);
    return Ok(reachable);
  }

  lemma RecordsSettle(records: seq<RecordType>, required: set<Id>, reachable: set<Id>)
    requires Working(Nested(records), required, reachable, []) && reachable <= Nested(records).Keys
    ensures reachable == RecordReach(records, required) && RecordsResolve(records, required)
  {
    hide Working, Reach, Nested;
    WorkDone(Nested(records), required, reachable);
  }

  lemma RecordsLack(records: seq<RecordType>, required: set<Id>, id: Id)
    requires id in RecordReach(records, required) && id !in Nested(records)
    ensures !RecordsResolve(records, required)
  {
    hide Reach, Nested;
  }

  /** Fails on a duplicate identity, or on a record type that is needed and missing; otherwise keeps
      exactly those that the required ones reach through their fields. */
  method RetainRecordClosure(records: seq<RecordType>, required: set<Id>) returns (r: Result<seq<RecordType>, Refusal>)
    ensures r.Ok? <==> DistinctRecords(records) && RecordsResolve(records, required)
    ensures r.Ok? ==> r.value == KeepRecords(records, RecordReach(records, required))
    ensures r.Err? ==>
      r.error.DuplicateRecord? || (r.error.MissingRecord? && r.error.id in RecordReach(records, required) && r.error.id !in Nested(records))
  {
    hide RecordReach, Nested, DistinctRecords, RecordIndex, RecordsResolve;
    var indexed := IndexRecords(records);
    if indexed.Err? {
      return Err(indexed.error);
    }
    var found := FindRecords(records, indexed.value, required);
    if found.Err? {
      return Err(found.error);
    }
    var kept := [];
    for k := 0 to |records|
      invariant kept == KeepRecords(records[..k], found.value)
    {
      assert records[..k + 1][..k] == records[..k];
      if records[k].identity in found.value {
        kept := kept + [records[k]];
      }
    }
    assert records[..|records|] == records;
    return Ok(kept);
  }

  lemma ElementsMean(s: seq<Id>)
    ensures forall x :: x in Elements(s) <==> x in s
  {
  }

  // What the record types kept are

  lemma {:induction false} KeptRecordsAre(records: seq<RecordType>, reachable: set<Id>)
    ensures forall r :: r in KeepRecords(records, reachable) <==> r in records && r.identity in reachable
  {
    if records != [] {
      var before := records[..|records| - 1];
      KeptRecordsAre(before, reachable);
      assert records == before + [records[|records| - 1]];
    }
  }

  ghost predicate Defines(records: seq<RecordType>, id: Id) {
    exists r :: r in records && r.identity == id
  }

  /** Every record type that the functions mention is there, and every one that a field mentions. */
  ghost predicate RecordsComplete(functions: seq<SsaFunction>, records: seq<RecordType>) {
    && (forall id :: Mentions(functions, id) ==> Defines(records, id))
    && forall r, id :: r in records && TypesMention(r.fields, id) ==> Defines(records, id)
  }

  lemma FieldsAreNested(records: seq<RecordType>, r: RecordType, id: Id)
    requires DistinctRecords(records) && r in records
    ensures r.identity in Nested(records) && (TypesMention(r.fields, id) <==> id in Successors(Nested(records), r.identity))
  {
    hide Nested, TypesMention;
    NestedHolds(records);
    TypesRecordsMean(r.fields, id);
    var k :| 0 <= k < |records| && records[k] == r;
    assert Nested(records)[records[k].identity] == TypesRecords(records[k].fields);
  }

  lemma ReachIsDefined(records: seq<RecordType>, required: set<Id>, id: Id)
    requires RecordsResolve(records, required) && id in RecordReach(records, required)
    ensures Defines(KeepRecords(records, RecordReach(records, required)), id)
  {
    hide Nested, Reach;
    NestedHolds(records);
    KeptRecordsAre(records, RecordReach(records, required));
    var k :| 0 <= k < |records| && records[k].identity == id;
    assert records[k] in records;
  }

  /** What is kept for some functions is complete for them. */
  lemma RecordsAreComplete(records: seq<RecordType>, functions: seq<SsaFunction>)
    requires DistinctRecords(records) && RecordsResolve(records, Elements(MentionedRecords(functions)))
    ensures RecordsComplete(functions, KeepRecords(records, RecordReach(records, Elements(MentionedRecords(functions)))))
  {
    hide Mentions, MentionedRecords, Reach, Nested, KeepRecords, Defines, TypesMention;
    var required := Elements(MentionedRecords(functions));
    var kept := KeepRecords(records, RecordReach(records, required));
    ReachIsLeast(Nested(records), required);
    KeptRecordsAre(records, RecordReach(records, required));
    forall id | Mentions(functions, id) ensures Defines(kept, id) {
      MentionedRecordsMean(functions, id);
      ReachIsDefined(records, required, id);
    }
    forall r, id | r in kept && TypesMention(r.fields, id) ensures Defines(kept, id) {
      FieldsAreNested(records, r, id);
      var k :| 0 <= k < |Successors(Nested(records), r.identity)| && Successors(Nested(records), r.identity)[k] == id;
      ReachIsDefined(records, required, id);
    }
  }

  /** And nothing else is kept: it is within every part of the table that is complete. */
  lemma RecordsAreLeast(records: seq<RecordType>, functions: seq<SsaFunction>, others: seq<RecordType>)
    requires DistinctRecords(records) && RecordsComplete(functions, others) && forall r :: r in others ==> r in records
    ensures forall r :: r in KeepRecords(records, RecordReach(records, Elements(MentionedRecords(functions)))) ==> r in others
  {
    hide Mentions, MentionedRecords, Reach, Nested, KeepRecords, TypesMention, DistinctRecords;
    var required := Elements(MentionedRecords(functions));
    var names := set r | r in others :: r.identity;
    forall id | id in required ensures id in names {
      MentionedRecordsMean(functions, id);
    }
    forall x, k | x in names && 0 <= k < |Successors(Nested(records), x)| ensures Successors(Nested(records), x)[k] in names {
      var r :| r in others && r.identity == x;
      var y := Successors(Nested(records), x)[k];
      assert y in Successors(Nested(records), x);
      FieldsAreNested(records, r, y);
      assert Defines(others, y);
    }
    assert ClosedUnder(Nested(records), names);
    ReachIsLeast(Nested(records), required);
    KeptRecordsAre(records, RecordReach(records, required));
    forall r | r in KeepRecords(records, RecordReach(records, required)) ensures r in others {
      var other :| other in others && other.identity == r.identity;
      OneRecord(records, r, other);
    }
  }

  lemma OneRecord(records: seq<RecordType>, a: RecordType, b: RecordType)
    requires DistinctRecords(records) && a in records && b in records && a.identity == b.identity
    ensures a == b
  {
    var j :| 0 <= j < |records| && records[j] == a;
    var k :| 0 <= k < |records| && records[k] == b;
  }

  // Obligations

  function CodeObligations(code: seq<Instruction>): seq<Id> {
    if code == [] then [] else CodeObligations(code[..|code| - 1]) + code[|code| - 1].obligations
  }

  function BlocksObligations(blocks: seq<Block>): seq<Id> {
    if blocks == [] then [] else BlocksObligations(blocks[..|blocks| - 1]) + CodeObligations(blocks[|blocks| - 1].instructions)
  }

  function IterationsObligations(iterations: seq<Iteration>): seq<Id> {
    if iterations == [] then [] else IterationsObligations(iterations[..|iterations| - 1]) + iterations[|iterations| - 1].obligations
  }

  /** Every obligation that code is tagged with. */
  function AttachedObligations(functions: seq<SsaFunction>): seq<Id> {
    if functions == [] then []
    else
      var last := functions[|functions| - 1];
      AttachedObligations(functions[..|functions| - 1]) + (IterationsObligations(last.iterations) + BlocksObligations(last.blocks))
  }

  /** Some bounded iteration or some instruction of the function is tagged with the obligation. */
  ghost predicate Carries(f: SsaFunction, id: Id) {
    || (exists k :: 0 <= k < |f.iterations| && id in f.iterations[k].obligations)
    || (exists k :: 0 <= k < |f.blocks| && BlockCarries(f.blocks[k], id))
  }

  ghost predicate BlockCarries(b: Block, id: Id) {
    exists k :: 0 <= k < |b.instructions| && id in b.instructions[k].obligations
  }

  lemma {:induction false} CodeObligationsMean(code: seq<Instruction>, id: Id)
    ensures id in CodeObligations(code) <==> exists k :: 0 <= k < |code| && id in code[k].obligations
  {
    if code != [] {
      var before := code[..|code| - 1];
      CodeObligationsMean(before, id);
      assert forall k :: 0 <= k < |before| ==> before[k] == code[k];
      if k :| 0 <= k < |before| && id in before[k].obligations {
        assert id in code[k].obligations;
      }
    }
  }

  lemma {:induction false} BlocksObligationsMean(blocks: seq<Block>, id: Id)
    ensures id in BlocksObligations(blocks) <==> exists k :: 0 <= k < |blocks| && BlockCarries(blocks[k], id)
  {
    hide CodeObligations;
    if blocks != [] {
      var before, last := blocks[..|blocks| - 1], blocks[|blocks| - 1];
      BlocksObligationsMean(before, id);
      CodeObligationsMean(last.instructions, id);
      assert BlockCarries(last, id) <==> id in CodeObligations(last.instructions);
      hide BlockCarries;
      assert forall k :: 0 <= k < |before| ==> before[k] == blocks[k];
      if k :| 0 <= k < |before| && BlockCarries(before[k], id) {
        assert BlockCarries(blocks[k], id);
      }
    }
  }

  lemma {:induction false} IterationsObligationsMean(iterations: seq<Iteration>, id: Id)
    ensures id in IterationsObligations(iterations) <==> exists k :: 0 <= k < |iterations| && id in iterations[k].obligations
  {
    if iterations != [] {
      var before := iterations[..|iterations| - 1];
      IterationsObligationsMean(before, id);
      assert forall k :: 0 <= k < |before| ==> before[k] == iterations[k];
      if k :| 0 <= k < |before| && id in before[k].obligations {
        assert id in iterations[k].obligations;
      }
    }
  }

  /** An obligation is attached exactly when something in some kept function is tagged with it. */
  lemma {:induction false} AttachedObligationsMean(functions: seq<SsaFunction>, id: Id)
    ensures id in AttachedObligations(functions) <==> exists k :: 0 <= k < |functions| && Carries(functions[k], id)
  {
    hide IterationsObligations, BlocksObligations, Carries;
    if functions != [] {
      var before, last := functions[..|functions| - 1], functions[|functions| - 1];
      AttachedObligationsMean(before, id);
      CarriedObligationsMean(last, id);
      hide AttachedObligations;
      LastCarries(before, last, id);
      assert before + [last] == functions;
    }
  }

  lemma CarriedObligationsMean(f: SsaFunction, id: Id)
    ensures id in IterationsObligations(f.iterations) + BlocksObligations(f.blocks) <==> Carries(f, id)
  {
    hide IterationsObligations, BlocksObligations, BlockCarries;
    IterationsObligationsMean(f.iterations, id);
    BlocksObligationsMean(f.blocks, id);
  }

  lemma LastCarries(functions: seq<SsaFunction>, f: SsaFunction, id: Id)
    ensures (exists k :: 0 <= k < |functions + [f]| && Carries((functions + [f])[k], id)) <==>
              (exists k :: 0 <= k < |functions| && Carries(functions[k], id)) || Carries(f, id)
  {
    hide Carries;
    var more := functions + [f];
    assert more[|functions|] == f;
    if k :| 0 <= k < |functions| && Carries(functions[k], id) {
      assert Carries(more[k], id);
    }
  }

  method CollectObligations(functions: seq<SsaFunction>) returns (r: set<Id>)
    ensures r == Elements(AttachedObligations(functions))
    ensures forall id :: id in r <==> exists k :: 0 <= k < |functions| && Carries(functions[k], id)
  {
    forall id ensures id in AttachedObligations(functions) <==> exists k :: 0 <= k < |functions| && Carries(functions[k], id) {
      AttachedObligationsMean(functions, id);
    }
    ElementsMean(AttachedObligations(functions));
    hide Elements, Carries;
    r := {};
    NoElements();
    for k := 0 to |functions|
      invariant r == Elements(AttachedObligations(functions[..k]))
    {
      assert functions[..k + 1][..k] == functions[..k];
      var f := functions[k];
      ElementsJoin(AttachedObligations(functions[..k]), IterationsObligations(f.iterations) + BlocksObligations(f.blocks));
      ElementsJoin(IterationsObligations(f.iterations), BlocksObligations(f.blocks));
      r := CollectIterationObligations(f.iterations, r);
      r := CollectBlockObligations(f.blocks, r);
    }
    assert functions[..|functions|] == functions;
  }

  method CollectIterationObligations(iterations: seq<Iteration>, into: set<Id>) returns (r: set<Id>)
    ensures r == into + Elements(IterationsObligations(iterations))
  {
    r := into;
    for k := 0 to |iterations|
      invariant r == into + Elements(IterationsObligations(iterations[..k]))
    {
      assert iterations[..k + 1][..k] == iterations[..k];
      ElementsJoin(IterationsObligations(iterations[..k]), iterations[k].obligations);
      r := r + set x | x in iterations[k].obligations;
    }
    assert iterations[..|iterations|] == iterations;
  }

  method CollectCodeObligations(code: seq<Instruction>, into: set<Id>) returns (r: set<Id>)
    ensures r == into + Elements(CodeObligations(code))
  {
    r := into;
    for k := 0 to |code|
      invariant r == into + Elements(CodeObligations(code[..k]))
    {
      assert code[..k + 1][..k] == code[..k];
      ElementsJoin(CodeObligations(code[..k]), code[k].obligations);
      r := r + set x | x in code[k].obligations;
    }
    assert code[..|code|] == code;
  }

  method CollectBlockObligations(blocks: seq<Block>, into: set<Id>) returns (r: set<Id>)
    ensures r == into + Elements(BlocksObligations(blocks))
  {
    hide Elements;
    NoElements();
    r := into;
    for k := 0 to |blocks|
      invariant r == into + Elements(BlocksObligations(blocks[..k]))
    {
      assert blocks[..k + 1][..k] == blocks[..k];
      ElementsJoin(BlocksObligations(blocks[..k]), CodeObligations(blocks[k].instructions));
      r := CollectCodeObligations(blocks[k].instructions, r);
    }
    assert blocks[..|blocks|] == blocks;
  }

  /** By identity; of obligations that share one, the last. */
  function ById(obligations: seq<Obligation>): map<Id, Obligation> {
    if obligations == [] then map[]
    else
      var last := obligations[|obligations| - 1];
      ById(obligations[..|obligations| - 1])[last.identity := last]
  }

  function KnownAmong(named: seq<Id>, known: set<Id>): seq<Id> {
    if named == [] then []
    else KnownAmong(named[..|named| - 1], known) + if named[|named| - 1] in known then [named[|named| - 1]] else []
  }

  lemma {:induction false} KnownAmongMeans(named: seq<Id>, known: set<Id>)
    ensures forall x :: x in KnownAmong(named, known) <==> x in named && x in known
  {
    if named != [] {
      KnownAmongMeans(named[..|named| - 1], known);
      assert named == named[..|named| - 1] + [named[|named| - 1]];
    }
  }

  function NamedBy(o: Obligation): seq<Id> {
    o.dependencies + o.assumptions
  }

  /** What an obligation rests on, as far as it is itself an obligation. */
  ghost function RestsOn(obligations: seq<Obligation>): map<Id, seq<Id>> {
    map id | id in ById(obligations) :: KnownAmong(NamedBy(ById(obligations)[id]), ById(obligations).Keys)
  }

  ghost function ObligationReach(obligations: seq<Obligation>, attached: set<Id>): set<Id> {
    Reach(RestsOn(obligations), attached)
  }

  function KeepObligations(obligations: seq<Obligation>, reachable: set<Id>): seq<Obligation> {
    if obligations == [] then []
    else
      var last := obligations[|obligations| - 1];
      KeepObligations(obligations[..|obligations| - 1], reachable) + if last.identity in reachable then [last] else []
  }

  // What the obligations kept are

  lemma {:induction false} KeptObligationsAre(obligations: seq<Obligation>, reachable: set<Id>)
    ensures forall o :: o in KeepObligations(obligations, reachable) <==> o in obligations && o.identity in reachable
  {
    if obligations != [] {
      var before := obligations[..|obligations| - 1];
      KeptObligationsAre(before, reachable);
      assert obligations == before + [obligations[|obligations| - 1]];
    }
  }

  /** The last obligation of its identity. */
  ghost predicate LastOf(obligations: seq<Obligation>, k: nat) {
    k < |obligations| && forall j :: k < j < |obligations| ==> obligations[j].identity != obligations[k].identity
  }

  lemma {:induction false} ByIdIsLast(obligations: seq<Obligation>, id: Id)
    ensures id in ById(obligations) <==> exists k :: 0 <= k < |obligations| && obligations[k].identity == id
    ensures id in ById(obligations) ==> exists k: nat :: LastOf(obligations, k) && obligations[k] == ById(obligations)[id] && obligations[k].identity == id
  {
    ByIdKnows(obligations, id);
    hide ById;
    if id in ById(obligations) {
      var k := FindLast(obligations, id);
    }
  }

  lemma {:induction false} ByIdKnows(obligations: seq<Obligation>, id: Id)
    ensures id in ById(obligations) <==> exists k :: 0 <= k < |obligations| && obligations[k].identity == id
  {
    if obligations != [] {
      var n := |obligations| - 1;
      var before := obligations[..n];
      ByIdKnows(before, id);
      if k :| 0 <= k < n && before[k].identity == id {
        assert obligations[k].identity == id;
      }
    }
  }

  lemma {:induction false} FindLast(obligations: seq<Obligation>, id: Id) returns (k: nat)
    requires id in ById(obligations)
    ensures LastOf(obligations, k) && obligations[k] == ById(obligations)[id] && obligations[k].identity == id
  {
    var n := |obligations| - 1;
    if obligations[n].identity == id {
      k := n;
    } else {
      k := FindLast(obligations[..n], id);
    }
  }

  lemma OneIsLast(obligations: seq<Obligation>, j: nat, k: nat)
    requires LastOf(obligations, j) && LastOf(obligations, k) && obligations[j].identity == obligations[k].identity
    ensures j == k
  {
  }

  ghost predicate Attached(functions: seq<SsaFunction>, id: Id) {
    exists k :: 0 <= k < |functions| && Carries(functions[k], id)
  }

  /** An obligation that is there depends on this one, or assumes it. */
  ghost predicate RestedOn(obligations: seq<Obligation>, some: seq<Obligation>, id: Id) {
    exists k: nat :: LastOf(obligations, k) && obligations[k] in some && (id in obligations[k].dependencies || id in obligations[k].assumptions)
  }

  /** Every obligation that the functions carry is there, and every one that another one there rests on. */
  ghost predicate ObligationsComplete(obligations: seq<Obligation>, functions: seq<SsaFunction>, some: seq<Obligation>) {
    forall o :: o in obligations && (Attached(functions, o.identity) || RestedOn(obligations, some, o.identity)) ==> o in some
  }

  lemma RestsOnMeans(obligations: seq<Obligation>, k: nat, id: Id)
    requires LastOf(obligations, k)
    ensures var x := obligations[k].identity;
            id in Successors(RestsOn(obligations), x) <==> id in ById(obligations) && (id in obligations[k].dependencies || id in obligations[k].assumptions)
  {
    hide KnownAmong, ById;
    var x := obligations[k].identity;
    ByIdIsLast(obligations, x);
    var j: nat :| LastOf(obligations, j) && obligations[j] == ById(obligations)[x] && obligations[j].identity == x;
    OneIsLast(obligations, j, k);
    KnownAmongMeans(NamedBy(obligations[k]), ById(obligations).Keys);
  }

  lemma ObligationsAreComplete(obligations: seq<Obligation>, functions: seq<SsaFunction>)
    ensures ObligationsComplete(obligations, functions, KeepObligations(obligations, ObligationReach(obligations, Elements(AttachedObligations(functions)))))
  {
    hide Carries, AttachedObligations, Reach, RestsOn, KeepObligations, ById;
    var attached := Elements(AttachedObligations(functions));
    var reach := ObligationReach(obligations, attached);
    var kept := KeepObligations(obligations, reach);
    KeptObligationsAre(obligations, reach);
    ReachIsLeast(RestsOn(obligations), attached);
    forall o | o in obligations && (Attached(functions, o.identity) || RestedOn(obligations, kept, o.identity)) ensures o in kept {
      AttachedObligationsMean(functions, o.identity);
      if !Attached(functions, o.identity) {
        var k: nat :| LastOf(obligations, k) && obligations[k] in kept && (o.identity in obligations[k].dependencies || o.identity in obligations[k].assumptions);
        var i :| 0 <= i < |obligations| && obligations[i] == o;
        ByIdIsLast(obligations, o.identity);
        RestsOnMeans(obligations, k, o.identity);
        var next := Successors(RestsOn(obligations), obligations[k].identity);
        var n :| 0 <= n < |next| && next[n] == o.identity;
      }
    }
  }

  lemma ObligationsAreLeast(obligations: seq<Obligation>, functions: seq<SsaFunction>, others: seq<Obligation>)
    requires ObligationsComplete(obligations, functions, others)
    ensures forall o :: o in KeepObligations(obligations, ObligationReach(obligations, Elements(AttachedObligations(functions)))) ==> o in others
  {
    hide Carries, AttachedObligations, Reach, RestsOn, KeepObligations, ById;
    var attached := Elements(AttachedObligations(functions));
    var edges := RestsOn(obligations);
    ReachIsLeast(edges, attached);
    var names := set x | x in Reach(edges, attached) && forall o :: o in obligations && o.identity == x ==> o in others;
    forall x | x in attached ensures x in names {
      AttachedObligationsMean(functions, x);
    }
    forall x, n | x in names && 0 <= n < |Successors(edges, x)| ensures Successors(edges, x)[n] in names {
      var y := Successors(edges, x)[n];
      OnlyKnownRest(obligations, x, y);
      ByIdIsLast(obligations, x);
      var k: nat :| LastOf(obligations, k) && obligations[k].identity == x;
      RestsOnMeans(obligations, k, y);
      assert obligations[k] in others;
      assert RestedOn(obligations, others, y);
    }
    assert ClosedUnder(edges, names);
    KeptObligationsAre(obligations, ObligationReach(obligations, attached));
  }

  lemma OnlyKnownRest(obligations: seq<Obligation>, x: Id, y: Id)
    requires y in Successors(RestsOn(obligations), x)
    ensures x in ById(obligations)
  {
  }

  /** Dependencies are marked when they are queued. */
  method QueueDependencies(named: seq<Id>, known: set<Id>, ids: set<Id>, pending: seq<Id>) returns (marked: set<Id>, queued: seq<Id>)
    ensures marked == ids + Elements(KnownAmong(named, known))
    ensures forall x :: x in queued <==> x in pending || x in marked - ids
    ensures marked == ids ==> queued == pending
  {
    marked, queued := ids, pending;
    for k := 0 to |named|
      invariant marked == ids + Elements(KnownAmong(named[..k], known))
      invariant forall x :: x in queued <==> x in pending || x in marked - ids
      invariant marked == ids ==> queued == pending
    {
      assert named[..k + 1][..k] == named[..k];
      if named[k] in known && named[k] !in marked {
        marked := marked + {named[k]};
        queued := queued + [named[k]];
      }
    }
    assert named[..|named|] == named;
  }

  /** Everything marked is waiting, or has had what it rests on marked. */
  ghost predicate Marking(edges: map<Id, seq<Id>>, roots: set<Id>, ids: set<Id>, pending: seq<Id>) {
    && roots <= ids && ids <= Reach(edges, roots)
    && (forall x :: x in pending ==> x in ids)
    && forall x, k :: x in ids && x !in pending && 0 <= k < |Successors(edges, x)| ==> Successors(edges, x)[k] in ids
  }

  lemma MarkingStarts(edges: map<Id, seq<Id>>, roots: set<Id>, pending: seq<Id>)
    requires forall x :: x in pending <==> x in roots
    ensures Marking(edges, roots, roots, pending)
  {
    ReachIsLeast(edges, roots);
  }

  lemma MarkingStep(edges: map<Id, seq<Id>>, roots: set<Id>, ids: set<Id>, pending: seq<Id>, x: Id, rest: seq<Id>, marked: set<Id>, queued: seq<Id>)
    requires Marking(edges, roots, ids, pending) && pending == rest + [x]
    requires marked == ids + Elements(Successors(edges, x))
    requires forall y :: y in queued <==> y in rest || y in marked - ids
    ensures Marking(edges, roots, marked, queued)
  {
    ReachIsLeast(edges, roots);
    forall y | y in marked ensures y in Reach(edges, roots) {
      if y !in ids {
        var k :| 0 <= k < |Successors(edges, x)| && Successors(edges, x)[k] == y;
      }
    }
    forall y, k | y in marked && y !in queued && 0 <= k < |Successors(edges, y)| ensures Successors(edges, y)[k] in marked {
      if y != x {
        assert y !in pending;
      }
    }
  }

  lemma MarkingEnds(edges: map<Id, seq<Id>>, roots: set<Id>, ids: set<Id>)
    requires Marking(edges, roots, ids, [])
    ensures ids == Reach(edges, roots)
  {
    ReachIsLeast(edges, roots);
    assert ClosedUnder(edges, ids);
  }

  method IndexObligations(obligations: seq<Obligation>) returns (index: map<Id, Obligation>)
    ensures index == ById(obligations)
  {
    index := map[];
    for k := 0 to |obligations|
      invariant index == ById(obligations[..k])
    {
      assert obligations[..k + 1][..k] == obligations[..k];
      index := index[obligations[k].identity := obligations[k]];
    }
    assert obligations[..|obligations|] == obligations;
  }

  ghost function ObligationsLeft(obligations: seq<Obligation>, ids: set<Id>): nat {
    |ById(obligations).Keys - ids|
  }

  lemma UnknownObligation(obligations: seq<Obligation>, attached: set<Id>, ids: set<Id>, x: Id, rest: seq<Id>)
    requires Marking(RestsOn(obligations), attached, ids, rest + [x]) && x !in ById(obligations)
    ensures Marking(RestsOn(obligations), attached, ids, rest)
  {
    hide Marking, Reach, ById;
    NoElements();
    MarkingStep(RestsOn(obligations), attached, ids, rest + [x], x, rest, ids, rest);
  }

  lemma KnownObligation(
    obligations: seq<Obligation>, attached: set<Id>, ids: set<Id>, x: Id, rest: seq<Id>, marked: set<Id>, queued: seq<Id>)
    requires Marking(RestsOn(obligations), attached, ids, rest + [x]) && x in ById(obligations)
    requires marked == ids + Elements(KnownAmong(NamedBy(ById(obligations)[x]), ById(obligations).Keys))
    requires forall y :: y in queued <==> y in rest || y in marked - ids
    ensures Marking(RestsOn(obligations), attached, marked, queued)
    ensures ObligationsLeft(obligations, marked) <= ObligationsLeft(obligations, ids)
    ensures marked != ids ==> ObligationsLeft(obligations, marked) < ObligationsLeft(obligations, ids)
  {
    hide Marking, Reach, ById, KnownAmong;
    MarkingStep(RestsOn(obligations), attached, ids, rest + [x], x, rest, marked, queued);
    var known := ById(obligations).Keys;
    KnownAmongMeans(NamedBy(ById(obligations)[x]), known);
    Smaller(known - marked, known - ids);
    if marked != ids {
      var more :| more in marked && more !in ids;
      assert more in known - ids;
    }
  }

  method FindObligations(obligations: seq<Obligation>, attached: set<Id>) returns (ids: set<Id>)
    ensures ids == ObligationReach(obligations, attached)
  {
    hide Marking, Reach, ById, Elements, KnownAmong, RestsOn, NamedBy, ObligationsLeft;
    var index := IndexObligations(obligations);
    ids := attached;
    var pending := QueueSet(attached);
    MarkingStarts(RestsOn(obligations), attached, pending);
    while pending != []
      invariant Marking(RestsOn(obligations), attached, ids, pending)
      decreases ObligationsLeft(obligations, ids), |pending|
    {
      var identity := pending[|pending| - 1];
      assert pending == pending[..|pending| - 1] + [identity];
      pending := pending[..|pending| - 1];
      if identity !in index {
        UnknownObligation(obligations, attached, ids, identity, pending);
        continue;
      }
      var marked, queued := QueueDependencies(NamedBy(index[identity]), index.Keys, ids, pending);
      KnownObligation(obligations, attached, ids, identity, pending, marked, queued);
      ids, pending := marked, queued;
    }
    MarkingEnds(RestsOn(obligations), attached, ids);
  }

  method RetainObligations(obligations: seq<Obligation>, attached: set<Id>) returns (kept: seq<Obligation>)
    ensures kept == KeepObligations(obligations, ObligationReach(obligations, attached))
  {
    var ids := FindObligations(obligations, attached);
    kept := [];
    for k := 0 to |obligations|
      invariant kept == KeepObligations(obligations[..k], ids)
    {
      assert obligations[..k + 1][..k] == obligations[..k];
      if obligations[k].identity in ids {
        kept := kept + [obligations[k]];
      }
    }
    assert obligations[..|obligations|] == obligations;
  }
}
