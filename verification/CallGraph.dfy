/** Programs as the projections see them: functions, the calls in their bodies, and the records that
    tie a generic function to its specializations. */
module CallGraph {
  import opened Prelude
  import opened Reachability

  /** Identities are text; a function's is derived, injectively, from its namespace and name. */
  datatype Id = FunctionId(namespace: string, name: string) | Text(text: string)

  datatype Operation = Call(callee: Id, specialization: Option<Id>) | Compute

  datatype Body = Body(blocks: seq<seq<Operation>>, iterations: seq<seq<Id>>)

  datatype Function = Function(namespace: string, name: string, isGeneric: bool, body: Option<Body>)

  datatype Specialization = Specialization(generalized: Id, specialized: Id)

  datatype Program = Program(functions: seq<Function>, specializations: seq<Specialization>)

  function IdOf(f: Function): Id {
    FunctionId(f.namespace, f.name)
  }

  function Concat<T>(parts: seq<seq<T>>): seq<T> {
    if parts == [] then [] else Concat(parts[..|parts| - 1]) + parts[|parts| - 1]
  }

  function OperationCalls(operations: seq<Operation>): seq<Id> {
    if operations == [] then []
    else OperationCalls(operations[..|operations| - 1]) +
         var last := operations[|operations| - 1]; if last.Call? then [last.callee] else []
  }

  function BlockCalls(blocks: seq<seq<Operation>>): seq<Id> {
    if blocks == [] then [] else BlockCalls(blocks[..|blocks| - 1]) + OperationCalls(blocks[|blocks| - 1])
  }

  /** Everything a body calls: by a call operation or from a bounded iteration. */
  function Callees(body: Option<Body>): seq<Id> {
    if body.None? then [] else BlockCalls(body.value.blocks) + Concat(body.value.iterations)
  }

  /** A call operation of some block names it, or some iteration lists it. */
  ghost predicate CalledFrom(body: Body, x: Id) {
    || (exists b, k :: 0 <= b < |body.blocks| && 0 <= k < |body.blocks[b]| && body.blocks[b][k].Call? && body.blocks[b][k].callee == x)
    || exists i :: 0 <= i < |body.iterations| && x in body.iterations[i]
  }

  lemma {:induction false} OperationCallsMean(operations: seq<Operation>, x: Id)
    ensures x in OperationCalls(operations) <==> exists k :: 0 <= k < |operations| && operations[k].Call? && operations[k].callee == x
  {
    if operations != [] {
      var before, last := operations[..|operations| - 1], operations[|operations| - 1];
      OperationCallsMean(before, x);
      if k :| 0 <= k < |before| && before[k].Call? && before[k].callee == x {
        assert operations[k] == before[k];
      }
    }
  }

  lemma {:induction false} BlockCallsMean(blocks: seq<seq<Operation>>, x: Id)
    ensures x in BlockCalls(blocks) <==>
              exists b, k :: 0 <= b < |blocks| && 0 <= k < |blocks[b]| && blocks[b][k].Call? && blocks[b][k].callee == x
  {
    if blocks != [] {
      var before, last := blocks[..|blocks| - 1], blocks[|blocks| - 1];
      BlockCallsMean(before, x);
      OperationCallsMean(last, x);
      if b, k :| 0 <= b < |before| && 0 <= k < |before[b]| && before[b][k].Call? && before[b][k].callee == x {
        assert blocks[b][k] == before[b][k];
      }
      if k :| 0 <= k < |last| && last[k].Call? && last[k].callee == x {
        assert blocks[|blocks| - 1][k] == last[k];
      }
    }
  }

  lemma {:induction false} ConcatMeans<T>(parts: seq<seq<T>>, x: T)
    ensures x in Concat(parts) <==> exists i :: 0 <= i < |parts| && x in parts[i]
  {
    if parts != [] {
      var before := parts[..|parts| - 1];
      ConcatMeans(before, x);
      if i :| 0 <= i < |before| && x in before[i] {
        assert x in parts[i];
      }
    }
  }

  /** The callees of a body are what it calls. */
  lemma CalleesMean(body: Body, x: Id)
    ensures x in Callees(Some(body)) <==> CalledFrom(body, x)
  {
    BlockCallsMean(body.blocks, x);
    ConcatMeans(body.iterations, x);
  }

  /** What is called from what was reached is reached. */
  lemma CalleesAreReached(functions: seq<Function>, roots: set<Id>, id: Id, x: Id)
    requires id in Reach(CallEdges(functions), roots) && id in Index(functions)
    requires Index(functions)[id].body.Some? && CalledFrom(Index(functions)[id].body.value, x)
    ensures x in Reach(CallEdges(functions), roots)
  {
    hide Reach, CalledFrom;
    var body := Index(functions)[id].body.value;
    CalleesMean(body, x);
    var edges := CallEdges(functions);
    ReachIsLeast(edges, roots);
    assert Successors(edges, id) == Callees(Some(body));
    var k :| 0 <= k < |Successors(edges, id)| && Successors(edges, id)[k] == x;
  }

  /** By identity; of functions that share one, the last. */
  function Index(functions: seq<Function>): map<Id, Function> {
    if functions == [] then map[]
    else
      var last := functions[|functions| - 1];
      Index(functions[..|functions| - 1])[IdOf(last) := last]
  }

  ghost predicate Unique(functions: seq<Function>) {
    forall i, j :: 0 <= i < j < |functions| ==> IdOf(functions[i]) != IdOf(functions[j])
  }

  lemma {:induction false} IndexFinds(functions: seq<Function>)
    ensures forall k :: 0 <= k < |functions| ==> IdOf(functions[k]) in Index(functions)
    ensures forall id :: id in Index(functions) ==> IdOf(Index(functions)[id]) == id && Index(functions)[id] in functions
    ensures Unique(functions) ==> forall k :: 0 <= k < |functions| ==> Index(functions)[IdOf(functions[k])] == functions[k]
  {
    hide IdOf;
    if functions != [] {
      var before := functions[..|functions| - 1];
      IndexFinds(before);
      assert functions == before + [functions[|functions| - 1]];
      forall k | 0 <= k < |functions|
        ensures IdOf(functions[k]) in Index(functions) && (Unique(functions) ==> Index(functions)[IdOf(functions[k])] == functions[k])
      {
        if k < |before| {
          assert before[k] == functions[k];
        }
      }
    }
  }

  /** The last function of an identity is the one found. */
  lemma {:induction false} LastIsFound(functions: seq<Function>, id: Id, f: Function)
    ensures id in Index(functions) && Index(functions)[id] == f <==>
              exists k :: 0 <= k < |functions| && functions[k] == f && FunctionId(f.namespace, f.name) == id && NoneLater(functions, k, id)
  {
    if functions != [] {
      var n := |functions| - 1;
      var before := functions[..n];
      LastIsFound(before, id, f);
      if k :| 0 <= k < |before| && before[k] == f && FunctionId(f.namespace, f.name) == id && NoneLater(before, k, id) {
        if IdOf(functions[n]) != id {
          assert functions[k] == f && NoneLater(functions, k, id);
        }
      }
      if k :| 0 <= k < |functions| && functions[k] == f && FunctionId(f.namespace, f.name) == id && NoneLater(functions, k, id) {
        if k < n {
          assert FunctionId(functions[n].namespace, functions[n].name) != id;
          assert before[k] == f && NoneLater(before, k, id);
        }
      }
      assert NoneLater(functions, n, id);
    }
  }

  ghost predicate NoneLater(functions: seq<Function>, k: nat, id: Id) {
    forall j :: k < j < |functions| ==> FunctionId(functions[j].namespace, functions[j].name) != id
  }

  ghost function CallEdges(functions: seq<Function>): map<Id, seq<Id>> {
    map id | id in Index(functions) :: Callees(Index(functions)[id].body)
  }

  /** A step that changes bodies only, and never the body of a function that it keeps. */
  ghost predicate SameCalls(a: seq<Function>, b: seq<Function>, kept: set<Id>) {
    forall id :: id in kept ==> (id in Index(a) <==> id in Index(b)) && (id in Index(a) ==> Callees(Index(a)[id].body) == Callees(Index(b)[id].body))
  }

  lemma SameReach(a: seq<Function>, b: seq<Function>, roots: set<Id>)
    requires SameCalls(a, b, Reach(CallEdges(a), roots))
    ensures Reach(CallEdges(b), roots) == Reach(CallEdges(a), roots)
  {
    forall x, y | x in Reach(CallEdges(a), roots)
      ensures y in Successors(CallEdges(b), x) <==> y in Successors(CallEdges(a), x)
    {
    }
    ReachAgrees(CallEdges(a), CallEdges(b), roots);
  }

  /** One identity taken from either end of a worklist. */
  lemma Visits(functions: seq<Function>, roots: set<Id>, seen: set<Id>, pending: seq<Id>, x: Id, rest: seq<Id>)
    requires Working(CallEdges(functions), roots, seen, pending)
    requires pending == [x] + rest || pending == rest + [x]
    ensures x in Reach(CallEdges(functions), roots)
    ensures x in seen ==> Working(CallEdges(functions), roots, seen, rest)
    ensures x in Index(functions) ==> Working(CallEdges(functions), roots, seen + {x}, rest + Callees(Index(functions)[x].body))
  {
    hide Working, Reach, Callees, Index;
    var edges := CallEdges(functions);
    if x in seen {
      WorkSkips(edges, roots, seen, pending, x, rest);
    }
    WorkGrows(edges, roots, seen, pending, x, rest, rest + Successors(edges, x));
  }

  /** The callees of the bounded iterations, queued. */
  method QueueIterations(iterations: seq<seq<Id>>, pending: seq<Id>) returns (next: seq<Id>)
    ensures next == pending + Concat(iterations)
  {
    next := pending;
    for i := 0 to |iterations|
      invariant next == pending + Concat(iterations[..i])
    {
      assert iterations[..i + 1][..i] == iterations[..i];
      next := next + iterations[i];
    }
    assert iterations[..|iterations|] == iterations;
  }

  lemma CalleesAre(body: Body, pending: seq<Id>)
    ensures pending + BlockCalls(body.blocks) + Concat(body.iterations) == pending + Callees(Some(body))
  {
  }
}
