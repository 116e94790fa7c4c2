/** The in-place renumbering: a recursive walk fills one table, references are remapped, and the
    table's permutation cycles are rotated in the node buffer. */
module CodecOrder {
  import opened Prelude
  import opened CodecTrees
  import opened CodecGraphs
  import opened CodecCanonical
  import opened CodecEmission
  import opened CodecZeros
  import opened CodecMeaning
  import opened CodecBuilder

  const UNVISITED: nat := 0xFFFF_FFFF
  const VISITING: nat := 0xFFFF_FFFE
  const CONSUMED: nat := 0xFFFF_FFFF

  // ----- The walk -----

  /** The table holds the new id of every finished node and a mark for every other. */
  ghost predicate Numbered(mapped: seq<nat>, order: seq<nat>) {
    && Distinct(order) && AllBelow(order, |mapped|)
    && (forall k :: 0 <= k < |order| ==> mapped[order[k]] == k)
    && forall i :: 0 <= i < |mapped| && i !in order ==> mapped[i] == UNVISITED || mapped[i] == VISITING
  }

  /** Which nodes are being visited; all of them above `id`. */
  ghost predicate SameVisiting(before: seq<nat>, after: seq<nat>) {
    |after| == |before| && forall i :: 0 <= i < |before| ==> (after[i] == VISITING <==> before[i] == VISITING)
  }

  ghost predicate VisitingAbove(mapped: seq<nat>, id: nat) {
    forall i :: 0 <= i < |mapped| && mapped[i] == VISITING ==> i > id
  }

  /** New ids are never mistaken for marks. */
  lemma IdsAreNotMarks(mapped: seq<nat>, order: seq<nat>, i: nat)
    requires Numbered(mapped, order) && |mapped| < VISITING && i < |mapped|
    ensures i in order <==> mapped[i] != UNVISITED && mapped[i] != VISITING
    ensures i in order ==> mapped[i] < |order| && order[mapped[i]] == i
  {
    var n := |mapped|;
    DistinctFits(order, Range(n)) by {
      forall x | x in order ensures x in Range(n) {
        var k :| 0 <= k < |order| && order[k] == x;
      }
    }
    if i in order {
      var k :| 0 <= k < |order| && order[k] == i;
    }
  }

  lemma NumberedNext(mapped: seq<nat>, order: seq<nat>, id: nat)
    requires Numbered(mapped, order) && id < |mapped| && id !in order
    ensures Numbered(mapped[id := |order|], order + [id])
  {
    DistinctAppend(order, [id]);
  }

  /** `visit`: numbers everything below `id` that has no number yet, children first. The walk goes
      only to smaller ids, so it never meets a node that is being visited. */
  method Walk(id: nat, nodes: seq<Node>, mapped: array<nat>, next: nat, ghost order: seq<nat>) returns (new_: nat, next': nat, ghost order': seq<nat>)
    requires Backward(nodes) && id < |nodes| == mapped.Length < VISITING
    requires Numbered(mapped[..], order) && next == |order| && VisitingAbove(mapped[..], id)
    modifies mapped
    ensures order' == Visit(nodes, id, order) && next' == |order'|
    ensures Numbered(mapped[..], order') && SameVisiting(old(mapped[..]), mapped[..])
    ensures new_ < |order'| && order'[new_] == id
    decreases id
  {
    hide Backward, Numbered, Visit, VisitAll;
    IdsAreNotMarks(mapped[..], order, id);
    assert mapped[..][id] == mapped[id] != VISITING;
    if mapped[id] != UNVISITED {
      VisitKnown(nodes, id, order);
      return mapped[id], next, order;
    }
    ghost var start := mapped[..];
    mapped[id] := VISITING;
    MarkVisiting(start, order, id);
    assert mapped[..] == start[id := VISITING];
    var refs := Refs(nodes[id]);
    RefsBelow(nodes, id);
    next', order' := next, order;
    assert refs[0..] == refs;
    for k := 0 to |refs|
      invariant VisitAll(nodes, refs[k..], id, order') == VisitAll(nodes, refs, id, order)
      invariant Numbered(mapped[..], order') && next' == |order'|
      invariant SameVisiting(start[id := VISITING], mapped[..])
    {
      VisitAllStep(nodes, refs, k, id, order');
      var reference;
      reference, next', order' := Walk(refs[k], nodes, mapped, next', order');
    }
    assert refs[|refs|..] == [];
    VisitAllDone(nodes, id, order');
    VisitUnknown(nodes, id, order);
    VisitAllGrows(nodes, refs, id, order);
    GrewMembers(order, order', id);
    NumberedNext(mapped[..], order', id);
    new_ := next';
    next' := next' + 1;
    order' := order' + [id];
    ghost var before := mapped[..];
    mapped[id] := new_;
    assert mapped[..] == before[id := new_];
    OrderFits(mapped[..], order');
  }

  lemma VisitKnown(nodes: seq<Node>, id: nat, order: seq<nat>)
    requires Backward(nodes) && id < |nodes| && id in order
    ensures Visit(nodes, id, order) == order
  {
  }

  lemma VisitUnknown(nodes: seq<Node>, id: nat, order: seq<nat>)
    requires Backward(nodes) && id < |nodes| && id !in order
    ensures AllBelow(Refs(nodes[id]), id)
    ensures Visit(nodes, id, order) == VisitAll(nodes, Refs(nodes[id]), id, order) + [id]
  {
    RefsBelow(nodes, id);
  }

  lemma VisitAllStep(nodes: seq<Node>, refs: seq<nat>, k: nat, bound: nat, order: seq<nat>)
    requires Backward(nodes) && bound <= |nodes| && AllBelow(refs, bound) && k < |refs|
    ensures VisitAll(nodes, refs[k..], bound, order) == VisitAll(nodes, refs[k + 1..], bound, Visit(nodes, refs[k], order))
  {
    assert refs[k..][1..] == refs[k + 1..];
  }

  lemma VisitAllDone(nodes: seq<Node>, bound: nat, order: seq<nat>)
    requires Backward(nodes) && bound <= |nodes|
    ensures VisitAll(nodes, [], bound, order) == order
  {
  }

  lemma GrewMembers(before: seq<nat>, after: seq<nat>, id: nat)
    requires Grew(before, after, id) && id !in before
    ensures id !in after
  {
    forall k | 0 <= k < |after| ensures after[k] != id {
      assert k < |before| ==> after[k] == before[k];
    }
  }

  lemma MarkVisiting(mapped: seq<nat>, order: seq<nat>, id: nat)
    requires Numbered(mapped, order) && id < |mapped| && id !in order
    ensures Numbered(mapped[id := VISITING], order)
  {
  }

  lemma OrderFits(mapped: seq<nat>, order: seq<nat>)
    requires Numbered(mapped, order)
    ensures |order| <= |mapped|
  {
    forall x | x in order ensures x in Range(|mapped|) {
      var k :| 0 <= k < |order| && order[k] == x;
    }
    DistinctFits(order, Range(|mapped|));
  }

  // ----- Remapping references -----

  function Lookup(mapped: seq<nat>, id: nat): nat {
    if id < |mapped| then mapped[id] else 0
  }

  function RemapBy(n: Node, mapped: seq<nat>): Node {
    match n
    case A(items) => A(seq(|items|, k requires 0 <= k < |items| => Lookup(mapped, items[k])))
    case O(entries) =>
      O(seq(|entries|, k requires 0 <= k < |entries| => Entry(Lookup(mapped, entries[k].key), Lookup(mapped, entries[k].value))))
    case _ => n
  }

  /** Every node has a number. */
  ghost predicate Complete(mapped: seq<nat>, order: seq<nat>) {
    Numbered(mapped, order) && |order| == |mapped| && forall i :: 0 <= i < |mapped| ==> i in order
  }

  lemma CompleteLookup(mapped: seq<nat>, order: seq<nat>, id: nat)
    requires Complete(mapped, order) && id < |mapped|
    ensures Lookup(mapped, id) == IndexOf(id, order) < |mapped|
    ensures order[mapped[id]] == id
  {
    IndexOfAt(order, IndexOf(id, order));
  }

  lemma RemapByOrder(nodes: seq<Node>, id: nat, mapped: seq<nat>, order: seq<nat>)
    requires Backward(nodes) && id < |nodes| == |mapped| && Complete(mapped, order)
    ensures RemapBy(nodes[id], mapped) == Remap(nodes[id], order)
  {
    hide Complete;
    assert NodeBackward(nodes, nodes[id], id);
    match nodes[id]
    case A(items) =>
      forall k | 0 <= k < |items| ensures Lookup(mapped, items[k]) == IndexOf(items[k], order) {
        CompleteLookup(mapped, order, items[k]);
      }
    case O(entries) =>
      forall k | 0 <= k < |entries|
        ensures Lookup(mapped, entries[k].key) == IndexOf(entries[k].key, order)
        ensures Lookup(mapped, entries[k].value) == IndexOf(entries[k].value, order)
      {
        CompleteLookup(mapped, order, entries[k].key);
        CompleteLookup(mapped, order, entries[k].value);
      }
    case _ =>
  }

  // ----- Rotating cycles -----

  /** The permutation that sends old places to new ones: it and `order` undo each other. */
  ghost predicate Permutes(p: seq<nat>, order: seq<nat>) {
    && |p| == |order|
    && (forall i :: 0 <= i < |p| ==> p[i] < |p| && order[p[i]] == i)
    && (forall k :: 0 <= k < |order| ==> order[k] < |p| && p[order[k]] == k)
  }

  /** What the buffer holds part of the way: places whose old node was moved are consumed, and
      all others still hold what they held. A set of consumed places is a union of cycles. */
  ghost predicate Rotated(nodes: seq<Node>, mapped: seq<nat>, was: seq<Node>, p: seq<nat>, done: set<nat>) {
    && |nodes| == |mapped| == |was| == |p|
    && (forall i :: i in done ==> i < |p|)
    && (forall i :: 0 <= i < |p| ==> mapped[i] == if i in done then CONSUMED else p[i])
    && (forall i :: 0 <= i < |p| && i in done ==> p[i] < |p| && nodes[p[i]] == was[i])
  }

  ghost predicate Untouched(nodes: seq<Node>, was: seq<Node>, done: set<nat>, p: seq<nat>) {
    |nodes| == |was| == |p| && forall i :: 0 <= i < |p| && i !in done ==> nodes[i] == was[i]
  }

  /** No cycle is half consumed. */
  ghost predicate Whole(done: set<nat>, p: seq<nat>) {
    forall i :: 0 <= i < |p| ==> (i in done <==> p[i] in done)
  }

  /** Between two steps around the cycle of `start`: `node` was at `current`, which is next, and
      apart from the hole at `start` the buffer is as it should be. */
  ghost predicate Turning(nodes: seq<Node>, node: Node, start: nat, current: nat, was: seq<Node>, p: seq<nat>, done: set<nat>) {
    && |nodes| == |was| == |p| && start < |p| && current < |p| && current !in done
    && node == was[current]
    && (forall i :: 0 <= i < |p| && i !in done && i != start && i != current ==> nodes[i] == was[i])
    && (forall i :: 0 <= i < |p| && i in done ==> p[i] in done || p[i] == current)
    && (start == current || start in done)
    && (forall i :: 0 <= i < |p| && i !in done && p[i] in done ==> p[i] == start)
    && (start != current ==> forall i :: 0 <= i < |p| && p[i] == current ==> i in done)
  }

  lemma TurnMoves(nodes: seq<Node>, mapped: seq<nat>, node: Node, start: nat, current: nat, was: seq<Node>, p: seq<nat>, order: seq<nat>, done: set<nat>)
    requires Permutes(p, order) && Rotated(nodes, mapped, was, p, done) && Turning(nodes, node, start, current, was, p, done)
    ensures p[current] < |p| && (p[current] != start ==> p[current] !in done + {current})
    ensures Rotated(nodes[p[current] := node], mapped[current := CONSUMED], was, p, done + {current})
  {
    var destination, done', nodes' := p[current], done + {current}, nodes[p[current] := node];
    forall i | 0 <= i < |p| && i in done' ensures nodes'[p[i]] == was[i] {
      if i != current {
        assert order[p[i]] == i && order[destination] == current;
      }
    }
  }

  lemma TurnCloses(nodes: seq<Node>, node: Node, start: nat, current: nat, was: seq<Node>, p: seq<nat>, order: seq<nat>, done: set<nat>)
    requires Permutes(p, order) && Turning(nodes, node, start, current, was, p, done) && p[current] == start
    ensures Untouched(nodes[start := node], was, done + {current}, p) && Whole(done + {current}, p)
  {
    forall i | 0 <= i < |p| ensures i in done + {current} <==> p[i] in done + {current} {
      assert order[p[i]] == i;
    }
  }

  lemma TurnGoesOn(nodes: seq<Node>, node: Node, start: nat, current: nat, was: seq<Node>, p: seq<nat>, order: seq<nat>, done: set<nat>)
    requires Permutes(p, order) && Turning(nodes, node, start, current, was, p, done)
    requires p[current] != start && p[current] !in done + {current}
    ensures Turning(nodes[p[current] := node], nodes[p[current]], start, p[current], was, p, done + {current})
  {
    var destination, done' := p[current], done + {current};
    assert forall i :: 0 <= i < |p| && p[i] == destination ==> i == current by {
      assert forall i :: 0 <= i < |p| ==> order[p[i]] == i;
    }
    assert start != current ==> forall i :: 0 <= i < |p| && p[i] == current ==> i in done;
  }

  /** One swap: the node that belongs at `destination` is put there, and the one found there is
      picked up, unless the cycle has closed. */
  lemma TurnStep(nodes: seq<Node>, mapped: seq<nat>, node: Node, start: nat, current: nat, was: seq<Node>, p: seq<nat>, order: seq<nat>, done: set<nat>)
    requires Permutes(p, order) && Rotated(nodes, mapped, was, p, done) && Turning(nodes, node, start, current, was, p, done)
    ensures |nodes| == |mapped| == |p| && current < |p| && p[current] < |p|
    ensures Rotated(nodes[p[current] := node], mapped[current := CONSUMED], was, p, done + {current})
    ensures p[current] == start ==>
              Untouched(nodes[start := node], was, done + {current}, p) && Whole(done + {current}, p)
    ensures p[current] != start ==>
              Turning(nodes[p[current] := node], nodes[p[current]], start, p[current], was, p, done + {current})
  {
    CurrentFacts(nodes, mapped, node, start, current, was, p, done);
    TurnMoves(nodes, mapped, node, start, current, was, p, order, done);
    hide *;
    if p[current] == start {
      TurnCloses(nodes, node, start, current, was, p, order, done);
    } else {
      TurnGoesOn(nodes, node, start, current, was, p, order, done);
    }
  }

  lemma TurnStart(nodes: seq<Node>, mapped: seq<nat>, start: nat, was: seq<Node>, p: seq<nat>, done: set<nat>)
    requires Rotated(nodes, mapped, was, p, done) && Untouched(nodes, was, done, p) && Whole(done, p)
    requires start < |nodes| && start !in done
    ensures Rotated(nodes[start := N], mapped, was, p, done)
    ensures Turning(nodes[start := N], nodes[start], start, start, was, p, done)
  {
    assert forall i :: 0 <= i < |p| && i in done ==> p[i] != start;
  }

  lemma CurrentFacts(nodes: seq<Node>, mapped: seq<nat>, node: Node, start: nat, current: nat, was: seq<Node>, p: seq<nat>, done: set<nat>)
    requires Rotated(nodes, mapped, was, p, done) && Turning(nodes, node, start, current, was, p, done)
    ensures |nodes| == |mapped| == |p| && current < |p| && current !in done && mapped[current] == p[current]
  {
  }

  method RotateCycle(nodes: array<Node>, mapped: array<nat>, start: nat, ghost was: seq<Node>, ghost p: seq<nat>, ghost order: seq<nat>, ghost done: set<nat>)
    returns (ghost done': set<nat>)
    requires nodes.Length == mapped.Length == |was| < CONSUMED && start < nodes.Length && start !in done
    requires Permutes(p, order) && Rotated(nodes[..], mapped[..], was, p, done) && Untouched(nodes[..], was, done, p) && Whole(done, p)
    modifies nodes, mapped
    ensures Rotated(nodes[..], mapped[..], was, p, done') && Untouched(nodes[..], was, done', p) && Whole(done', p)
    ensures done <= done' && start in done'
  {
    hide Rotated, Untouched, Whole, Turning;
    var current := start;
    var node := nodes[start];
    ghost var before := nodes[..];
    nodes[start] := N;
    assert nodes[..] == before[start := N];
    TurnStart(before, mapped[..], start, was, p, done);
    done' := done;
    while true
      invariant Rotated(nodes[..], mapped[..], was, p, done')
      invariant Turning(nodes[..], node, start, current, was, p, done')
      invariant done <= done' && (start == current || start in done')
      decreases Range(|p|) - done'
    {
      ghost var nodes0, mapped0, node0 := nodes[..], mapped[..], node;
      TurnStep(nodes0, mapped0, node0, start, current, was, p, order, done');
      CurrentFacts(nodes0, mapped0, node0, start, current, was, p, done');
      var destination := mapped[current];
      assert destination == mapped0[current];
      mapped[current] := CONSUMED;
      var picked := nodes[destination];
      nodes[destination] := node;
      node := picked;
      assert nodes[..] == nodes0[destination := node0] && mapped[..] == mapped0[current := CONSUMED];
      assert current in Range(|p|);
      done' := done' + {current};
      if destination == start {
        break;
      }
      current := destination;
    }
  }

  // ----- The whole renumbering -----

  lemma CompletePermutes(mapped: seq<nat>, order: seq<nat>)
    requires Complete(mapped, order)
    ensures Permutes(mapped, order)
  {
    forall i | 0 <= i < |mapped| ensures mapped[i] < |mapped| && order[mapped[i]] == i {
      assert i in order;
      var k :| 0 <= k < |order| && order[k] == i;
    }
  }

  /** Once every place is consumed, each new place holds the node that belongs there. */
  lemma RotatedIsReference(nodes: seq<Node>, mapped: seq<nat>, was: seq<Node>, p: seq<nat>, order: seq<nat>, done: set<nat>)
    requires Permutes(p, order) && Rotated(nodes, mapped, was, p, done) && forall i :: 0 <= i < |p| ==> i in done
    ensures |nodes| == |order| && forall k :: 0 <= k < |order| ==> order[k] < |was| && nodes[k] == was[order[k]]
  {
    forall k | 0 <= k < |order| ensures nodes[k] == was[order[k]] {
      assert order[k] in done;
    }
  }

  /** A graph that interning can have left: small enough, and all of it reached from the root. */
  ghost predicate Interned(nodes: seq<Node>, root: nat) {
    && Backward(nodes) && root < |nodes| < VISITING
    && |Visit(nodes, root, [])| == |nodes|
    && forall k :: 0 <= k < |nodes| ==> k in Visit(nodes, root, [])
  }

  /** The walk from the root numbers every node. */
  method Number(nodes: seq<Node>, root: nat, mapped: array<nat>) returns (newRoot: nat)
    requires Interned(nodes, root) && mapped.Length == |nodes|
    requires forall i :: 0 <= i < mapped.Length ==> mapped[i] == UNVISITED
    modifies mapped
    ensures Complete(mapped[..], Visit(nodes, root, [])) && newRoot == |nodes| - 1
  {
    hide Backward, Visit, Numbered, Complete;
    NothingNumbered(mapped[..]);
    ghost var walked;
    var next;
    newRoot, next, walked := Walk(root, nodes, mapped, 0, []);
    assert next == |nodes|;
    AllNumbered(mapped[..], walked);
    RootIsLast(nodes, root);
    PlacesDiffer(walked, newRoot, |walked| - 1);
  }

  /** References are rewritten node by node. */
  method RemapAll(nodes: array<Node>, mapped: array<nat>, ghost order: seq<nat>)
    requires Backward(nodes[..]) && nodes.Length == mapped.Length && Complete(mapped[..], order)
    modifies nodes
    ensures forall k :: 0 <= k < nodes.Length ==> nodes[k] == Remap(old(nodes[k]), order)
  {
    hide Backward, Complete, Remap, RemapBy;
    ghost var original := nodes[..];
    for i := 0 to nodes.Length
      invariant forall k :: 0 <= k < i ==> nodes[k] == Remap(original[k], order)
      invariant forall k :: i <= k < nodes.Length ==> nodes[k] == original[k]
    {
      RemapByOrder(original, i, mapped[..], order);
      nodes[i] := RemapBy(nodes[i], mapped[..]);
    }
  }

  /** Every cycle of the table is rotated once. */
  method RotateAll(nodes: array<Node>, mapped: array<nat>, ghost order: seq<nat>)
    requires nodes.Length == mapped.Length < CONSUMED && Permutes(mapped[..], order)
    modifies nodes, mapped
    ensures nodes.Length == |order| && forall k :: 0 <= k < |order| ==> order[k] < nodes.Length && nodes[k] == old(nodes[order[k]])
  {
    hide Rotated, Untouched, Whole, Permutes;
    ghost var was, p, done := nodes[..], mapped[..], {};
    NothingRotated(was, p);
    for start := 0 to nodes.Length
      invariant Rotated(nodes[..], mapped[..], was, p, done) && Untouched(nodes[..], was, done, p) && Whole(done, p)
      invariant forall i :: 0 <= i < start ==> i in done
    {
      ConsumedMark(nodes[..], mapped[..], was, p, order, done, start);
      assert mapped[start] == mapped[..][start];
      if mapped[start] != CONSUMED {
        done := RotateCycle(nodes, mapped, start, was, p, order, done);
      }
    }
    RotatedIsReference(nodes[..], mapped[..], was, p, order, done);
    assert forall k :: 0 <= k < |order| ==> nodes[..][k] == was[order[k]];
  }

  /** In place, the buffer becomes the copying reference's graph. None of the assertions of the
      walk and the reachability count can fail. */
  method CanonicalOrder(nodes: array<Node>, root: nat) returns (newRoot: nat)
    requires Interned(nodes[..], root)
    modifies nodes
    ensures Graph(nodes[..], newRoot) == Reference(old(nodes[..]), root)
  {
    hide Backward, Visit, Complete, Permutes, Remap;
    ghost var original := nodes[..];
    ghost var order := Visit(original, root, []);
    var mapped := new nat[nodes.Length](_ => UNVISITED);
    newRoot := Number(nodes[..], root, mapped);
    assert nodes[..] == original;
    CompletePermutes(mapped[..], order);
    RemapAll(nodes, mapped, order);
    ghost var remapped := nodes[..];
    assert forall k :: 0 <= k < |original| ==> remapped[k] == Remap(original[k], order);
    RotateAll(nodes, mapped, order);
    assert forall k :: 0 <= k < |order| ==> nodes[..][k] == remapped[order[k]];
    ReferenceIs(original, root, order, nodes[..]);
  }

  lemma ReferenceIs(nodes: seq<Node>, root: nat, order: seq<nat>, result: seq<Node>)
    requires Backward(nodes) && root < |nodes| && order == Visit(nodes, root, []) && |result| == |order|
    requires AllBelow(order, |nodes|) && forall k :: 0 <= k < |order| ==> result[k] == Remap(nodes[order[k]], order)
    ensures Reference(nodes, root).nodes == result
  {
    hide Backward, Visit, Remap;
    VisitGrows(nodes, root, []);
    GrewKnown(nodes, [], order, root + 1);
    assert Reference(nodes, root).nodes == result;
  }

  lemma NothingNumbered(mapped: seq<nat>)
    requires forall i :: 0 <= i < |mapped| ==> mapped[i] == UNVISITED
    ensures Numbered(mapped, []) && forall id :: VisitingAbove(mapped, id)
  {
  }

  lemma AllNumbered(mapped: seq<nat>, order: seq<nat>)
    requires Numbered(mapped, order) && |order| == |mapped| && forall k :: 0 <= k < |mapped| ==> k in order
    ensures Complete(mapped, order)
  {
  }

  lemma RootIsLast(nodes: seq<Node>, root: nat)
    requires Backward(nodes) && root < |nodes|
    ensures var order := Visit(nodes, root, []); order != [] && order[|order| - 1] == root && Distinct(order)
  {
    VisitGrows(nodes, root, []);
  }

  lemma PlacesDiffer<T>(s: seq<T>, i: nat, j: nat)
    requires Distinct(s) && i < |s| && j < |s| && s[i] == s[j]
    ensures i == j
  {
  }

  lemma NothingRotated(was: seq<Node>, p: seq<nat>)
    requires |was| == |p|
    ensures Rotated(was, p, was, p, {}) && Untouched(was, was, {}, p) && Whole({}, p)
  {
  }

  lemma ConsumedMark(nodes: seq<Node>, mapped: seq<nat>, was: seq<Node>, p: seq<nat>, order: seq<nat>, done: set<nat>, i: nat)
    requires Permutes(p, order) && Rotated(nodes, mapped, was, p, done) && i < |p| < CONSUMED
    ensures i < |mapped| && (i in done <==> mapped[i] == CONSUMED)
  {
  }

  // ----- Encoding -----

  /** `encode` of what a value emits, every zero with the sign of the first, with None where the program would panic: when a value has more distinct parts than
      the table can number. */
  method Encode(e: Emitted, hash: Node -> nat) returns (r: Result<Option<Graph>, EmitError>)
    ensures match TreeOf(e)
            case Err(x) => r == Err(x)
            case Ok(t) => r == Ok(if |Terms(Canon(Settled(t)))| < 0xFFFF_FFFE then Some(CanonicalGraph(Canon(Settled(t)))) else None)
    ensures r.Ok? && r.value.Some? ==> KeysAscend(r.value.value.nodes)
  {
    hide KeysAscend;
    var builder := new Builder(hash);
    var serialized := builder.Serialize(e);
    if serialized.Err? {
      return Err(serialized.error);
    }
    var root := serialized.value;
    ghost var interned := builder.nodes;
    NoZeroYet();
    DifferentIsDistinct(interned);
    AddedReaches(interned, root, Canon(Settled(TreeOf(e).value)));
    ReferenceIsCanonical(interned, root);
    if |builder.nodes| >= VISITING {
      return Ok(None);
    }
    var nodes := new Node[|builder.nodes|](k requires 0 <= k < |builder.nodes| reads builder => builder.nodes[k]);
    assert nodes[..] == interned;
    var newRoot := CanonicalOrder(nodes, root);
    CanonIsCanonical(Settled(TreeOf(e).value));
    CanonicalGraphAscends(Canon(Settled(TreeOf(e).value)));
    r := Ok(Some(Graph(nodes[..], newRoot)));
  }

  lemma NoZeroYet()
    ensures ZeroOf([]) == None
  {
  }

  lemma AddedReaches(nodes: seq<Node>, root: nat, value: Tree)
    requires Added([], nodes, root, value) && Distinct(nodes)
    ensures |nodes| < VISITING ==> Interned(nodes, root)
    ensures |Terms(value)| == |nodes|
  {
    hide Backward, Decode, Visit;
    WalkReachesAll(nodes, root);
    WalksAgree(nodes, root, []);
    assert Decoded(nodes, []) == [];
  }
}
