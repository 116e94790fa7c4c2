/** The program that an application is lowered from: bodies outside the call closure of the selected
    exports are dropped, every declaration stays. */
module ApplicationLowering {
  import opened Prelude
  import opened Reachability
  import opened CallGraph

  datatype Export = Export(namespace: string, name: string)

  datatype Refusal = NoRoots | Invalid | Missing(id: Id) | Generic(id: Id) | NoBody(id: Id) | Mismatched(id: Id)

  function ExportId(e: Export): Id {
    FunctionId(e.namespace, e.name)
  }

  ghost function RootSet(roots: set<Export>): set<Id> {
    set e | e in roots :: ExportId(e)
  }

  ghost function Closure(program: Program, roots: set<Export>): set<Id> {
    Reach(CallEdges(program.functions), RootSet(roots))
  }

  /** No call names a specialization other than its callee. */
  ghost predicate Specialized(body: Body) {
    forall b, k :: 0 <= b < |body.blocks| && 0 <= k < |body.blocks[b]| ==> OperationSpecialized(body.blocks[b][k])
  }

  predicate OperationSpecialized(o: Operation) {
    o.Call? && o.specialization.Some? ==> o.specialization.value == o.callee
  }

  ghost predicate Executable(program: Program, id: Id) {
    && id in Index(program.functions)
    && var f := Index(program.functions)[id];
    !f.isGeneric && f.body.Some? && Specialized(f.body.value)
  }

  ghost predicate Lowerable(program: Program, roots: set<Export>) {
    forall id :: id in Closure(program, roots) ==> Executable(program, id)
  }

  /** The refusal states a fact about the program. */
  ghost predicate Justified(program: Program, roots: set<Export>, valid: Program -> bool, refusal: Refusal) {
    var index := Index(program.functions);
    match refusal
    case NoRoots => roots == {}
    case Invalid => !valid(program)
    case Missing(id) => id in Closure(program, roots) && id !in index
    case Generic(id) => id in Closure(program, roots) && id in index && index[id].isGeneric
    case NoBody(id) => id in Closure(program, roots) && id in index && index[id].body.None?
    case Mismatched(id) => id in Closure(program, roots) && id in index && index[id].body.Some? && !Specialized(index[id].body.value)
  }

  function Stripped(f: Function, kept: bool): Function {
    if kept then f else f.(body := None)
  }

  ghost function StripOutside(functions: seq<Function>, kept: set<Id>): seq<Function> {
    seq(|functions|, k requires 0 <= k < |functions| => Stripped(functions[k], IdOf(functions[k]) in kept))
  }

  /** A call that names a specialization has it as its callee. */
  lemma SpecializedMeans(body: Body)
    ensures Specialized(body) <==>
              forall b, k, callee, s :: 0 <= b < |body.blocks| && 0 <= k < |body.blocks[b]| && body.blocks[b][k] == Call(callee, Some(s)) ==> s == callee
  {
    if forall b, k, callee, s :: 0 <= b < |body.blocks| && 0 <= k < |body.blocks[b]| && body.blocks[b][k] == Call(callee, Some(s)) ==> s == callee {
      forall b, k | 0 <= b < |body.blocks| && 0 <= k < |body.blocks[b]| ensures OperationSpecialized(body.blocks[b][k]) {
        var o := body.blocks[b][k];
        assert o.Call? && o.specialization.Some? ==> o == Call(o.callee, Some(o.specialization.value));
      }
    }
  }

  /** Every function stays in its place with its name; its body stays when it is one of these and is
      dropped when it is not. */
  lemma StripMeans(functions: seq<Function>, kept: set<Id>)
    ensures var r := StripOutside(functions, kept);
            && |r| == |functions|
            && forall k :: 0 <= k < |functions| ==>
                 var f := functions[k];
                 && r[k].namespace == f.namespace && r[k].name == f.name && r[k].isGeneric == f.isGeneric
                 && (FunctionId(f.namespace, f.name) in kept ==> r[k].body == f.body)
                 && (FunctionId(f.namespace, f.name) !in kept ==> r[k].body == None)
  {
  }

  /** Whatever is called from a body that is left is declared and is left whole, with its body. */
  ghost predicate CallsKeepBodies(original: seq<Function>, left: seq<Function>) {
    forall id, x :: id in Index(left) && Index(left)[id].body.Some? && CalledFrom(Index(left)[id].body.value, x) ==>
      x in Index(left) && Index(left)[x].body.Some? && x in Index(original) && Index(left)[x] == Index(original)[x]
  }

  lemma CalledStayWhole(program: Program, roots: set<Export>)
    requires Lowerable(program, roots)
    ensures CallsKeepBodies(program.functions, StripOutside(program.functions, Closure(program, roots)))
    ensures forall e :: e in roots ==>
              var id, left := FunctionId(e.namespace, e.name), StripOutside(program.functions, Closure(program, roots));
              id in Index(left) && Index(left)[id].body.Some?
  {
    hide CalledFrom, StripOutside, Specialized;
    var kept := Closure(program, roots);
    var left := StripOutside(program.functions, kept);
    StripIndexes(program.functions, kept);
    forall id, x | id in Index(left) && Index(left)[id].body.Some? && CalledFrom(Index(left)[id].body.value, x)
      ensures x in Index(left) && Index(left)[x].body.Some? && x in Index(program.functions) && Index(left)[x] == Index(program.functions)[x]
    {
      assert id in kept;
      CalleesAreReached(program.functions, RootSet(roots), id, x);
      assert Executable(program, x);
    }
    ReachIsLeast(CallEdges(program.functions), RootSet(roots));
    forall e | e in roots ensures FunctionId(e.namespace, e.name) in kept {
      assert ExportId(e) in RootSet(roots);
    }
  }

  method IndexFunctions(functions: seq<Function>) returns (index: map<Id, Function>)
    ensures index == Index(functions)
  {
    index := map[];
    for k := 0 to |functions|
      invariant index == Index(functions[..k])
    {
      assert functions[..k + 1][..k] == functions[..k];
      index := index[IdOf(functions[k]) := functions[k]];
    }
    assert functions[..|functions|] == functions;
  }

  method QueueBlockCalls(operations: seq<Operation>, pending: seq<Id>) returns (matched: bool, next: seq<Id>)
    ensures matched <==> forall k :: 0 <= k < |operations| ==> OperationSpecialized(operations[k])
    ensures matched ==> next == pending + OperationCalls(operations)
  {
    next := pending;
    for k := 0 to |operations|
      invariant next == pending + OperationCalls(operations[..k])
      invariant forall j :: 0 <= j < k ==> OperationSpecialized(operations[j])
    {
      assert operations[..k + 1][..k] == operations[..k];
      if operations[k].Call? {
        if operations[k].specialization.Some? && operations[k].specialization.value != operations[k].callee {
          assert !OperationSpecialized(operations[k]);
          return false, next;
        }
        next := next + [operations[k].callee];
      }
    }
    assert operations[..|operations|] == operations;
    matched := true;
  }

  method QueueCalls(body: Body, pending: seq<Id>) returns (matched: bool, next: seq<Id>)
    ensures matched <==> Specialized(body)
    ensures matched ==> next == pending + Callees(Some(body))
  {
    hide OperationSpecialized, OperationCalls;
    next := pending;
    for b := 0 to |body.blocks|
      invariant next == pending + BlockCalls(body.blocks[..b])
      invariant forall c, k :: 0 <= c < b && 0 <= k < |body.blocks[c]| ==> OperationSpecialized(body.blocks[c][k])
    {
      matched, next := QueueBlockCalls(body.blocks[b], next);
      if !matched {
        return;
      }
      assert body.blocks[..b + 1][..b] == body.blocks[..b];
    }
    hide BlockCalls;
    assert body.blocks[..|body.blocks|] == body.blocks;
    next := QueueIterations(body.iterations, next);
    CalleesAre(body, pending);
    matched := true;
  }

  method QueueRoots(roots: set<Export>) returns (pending: seq<Id>)
    ensures forall x :: x in pending <==> x in RootSet(roots)
  {
    var exports := QueueSet(roots);
    pending := [];
    for k := 0 to |exports|
      invariant forall x :: x in pending <==> exists e :: e in exports[..k] && ExportId(e) == x
    {
      assert exports[..k + 1] == exports[..k] + [exports[k]];
      pending := pending + [ExportId(exports[k])];
    }
    assert exports[..|exports|] == exports;
  }

  lemma Blocks(program: Program, roots: set<Export>, valid: Program -> bool, refusal: Refusal)
    requires refusal.Missing? || refusal.Generic? || refusal.NoBody? || refusal.Mismatched?
    requires Justified(program, roots, valid, refusal)
    ensures !Lowerable(program, roots)
  {
    hide Closure, Index, Specialized;
    assert !Executable(program, refusal.id);
  }

  /** What the search requires of a function before it queues the function's callees. */
  method Examine(ghost program: Program, index: map<Id, Function>, identity: Id, pending: seq<Id>) returns (r: Result<seq<Id>, Refusal>)
    requires index == Index(program.functions)
    ensures r.Ok? <==> Executable(program, identity)
    ensures r.Ok? ==> r.value == pending + Callees(index[identity].body)
    ensures r.Err? ==> !r.error.NoRoots? && !r.error.Invalid? && r.error.id == identity
    ensures r.Err? ==> forall roots, valid :: identity in Closure(program, roots) ==> Justified(program, roots, valid, r.error)
  {
    hide Closure, Index, Callees, Specialized;
    if identity !in index {
      return Err(Missing(identity));
    }
    if index[identity].isGeneric {
      return Err(Generic(identity));
    }
    if index[identity].body.None? {
      return Err(NoBody(identity));
    }
    var matched, next := QueueCalls(index[identity].body.value, pending);
    if !matched {
      return Err(Mismatched(identity));
    }
    assert Some(index[identity].body.value) == index[identity].body;
    return Ok(next);
  }

  lemma FewerLeft(all: set<Id>, seen: set<Id>, x: Id)
    requires x in all && x !in seen
    ensures |all - (seen + {x})| < |all - seen|
  {
    assert all - (seen + {x}) == all - seen - {x};
  }

  /** The breadth-first search: the closure, or a refusal that the program justifies. */
  method FindClosure(program: Program, roots: set<Export>, ghost valid: Program -> bool) returns (r: Result<set<Id>, Refusal>)
    ensures r.Ok? ==> r.value == Closure(program, roots) && Lowerable(program, roots)
    ensures r.Err? ==> Justified(program, roots, valid, r.error) && !Lowerable(program, roots)
  {
    hide Working, Reach, Specialized, Callees, Index, CallEdges;
    var index := IndexFunctions(program.functions);
    ghost var edges := CallEdges(program.functions);
    var pending := QueueRoots(roots);
    var reachable: set<Id> := {};
    WorkStarts(edges, RootSet(roots), pending);
    while pending != []
      invariant Working(edges, RootSet(roots), reachable, pending)
      invariant reachable <= index.Keys
      invariant forall id :: id in reachable ==> Executable(program, id)
      decreases |index.Keys - reachable|, |pending|
    {
      hide RootSet, Lowerable, Executable;
      assert pending == [pending[0]] + pending[1..];
      Visits(program.functions, RootSet(roots), reachable, pending, pending[0], pending[1..]);
      var identity := pending[0];
      pending := pending[1..];
      if identity in reachable {
        continue;
      }
      var examined := Examine(program, index, identity, pending);
      if examined.Err? {
        Blocks(program, roots, valid, examined.error);
        return Err(examined.error);
      }
      pending := examined.value;
      FewerLeft(index.Keys, reachable, identity);
      reachable := reachable + {identity};
    }
    WorkDone(edges, RootSet(roots), reachable);
    return Ok(reachable);
  }

  method StripBodies(functions: seq<Function>, kept: set<Id>) returns (r: seq<Function>)
    ensures r == StripOutside(functions, kept)
  {
    r := functions;
    for k := 0 to |functions|
      invariant |r| == |functions|
      invariant forall j :: 0 <= j < k ==> r[j] == Stripped(functions[j], IdOf(functions[j]) in kept)
      invariant forall j :: k <= j < |functions| ==> r[j] == functions[j]
    {
      if IdOf(r[k]) !in kept {
        r := r[k := r[k].(body := None)];
      }
    }
  }

  /** Succeeds exactly when there are roots, the program is valid and its closure can be executed;
      then it drops the bodies outside that closure and nothing else. */
  method LoweringProgram(program: Program, roots: set<Export>, valid: Program -> bool) returns (r: Result<Program, Refusal>)
    ensures r.Ok? <==> roots != {} && valid(program) && Lowerable(program, roots)
    ensures r.Ok? ==> r.value == program.(functions := StripOutside(program.functions, Closure(program, roots)))
    ensures r.Ok? ==> CallsKeepBodies(program.functions, r.value.functions)
    ensures r.Err? ==> Justified(program, roots, valid, r.error)
  {
    hide Lowerable, Closure, CallsKeepBodies;
    if roots == {} {
      return Err(NoRoots);
    }
    if !valid(program) {
      return Err(Invalid);
    }
    var closure := FindClosure(program, roots, valid);
    if closure.Err? {
      return Err(closure.error);
    }
    var functions := StripBodies(program.functions, closure.value);
    CalledStayWhole(program, roots);
    return Ok(program.(functions := functions));
  }

  lemma {:induction false} StripIndexes(functions: seq<Function>, kept: set<Id>)
    ensures Index(StripOutside(functions, kept)).Keys == Index(functions).Keys
    ensures forall id :: id in Index(functions) ==> Index(StripOutside(functions, kept))[id] == Stripped(Index(functions)[id], id in kept)
  {
    var stripped := StripOutside(functions, kept);
    if functions != [] {
      var before := functions[..|functions| - 1];
      StripIndexes(before, kept);
      assert stripped[..|stripped| - 1] == StripOutside(before, kept);
    }
  }

  /** Lowering a lowered program again, from the same exports, changes nothing; and its closure is the
      one of the program it came from. */
  lemma StrippingKeepsClosure(program: Program, roots: set<Export>)
    ensures var stripped := program.(functions := StripOutside(program.functions, Closure(program, roots)));
            && Closure(stripped, roots) == Closure(program, roots)
            && (Lowerable(stripped, roots) <==> Lowerable(program, roots))
            && StripOutside(stripped.functions, Closure(stripped, roots)) == stripped.functions
  {
    var kept := Closure(program, roots);
    var stripped := program.(functions := StripOutside(program.functions, kept));
    StripIndexes(program.functions, kept);
    SameReach(program.functions, stripped.functions, RootSet(roots));
    forall id | id in kept ensures Executable(stripped, id) <==> Executable(program, id) {
    }
  }
}
