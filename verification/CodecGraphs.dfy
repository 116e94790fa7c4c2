/** Node graphs: what they decode to, the order in which a depth-first walk finishes their nodes,
    and the one graph that stands for a value. */
module CodecGraphs {
  import opened Prelude
  import opened CodecTrees

  /** An object entry: the ids of a key node and a value node. */
  datatype Entry = Entry(key: nat, value: nat)

  datatype Node =
    | N
    | B(b: bool)
    | I(n: Num)
    | S(s: string)
    | A(items: seq<nat>)
    | O(entries: seq<Entry>)

  datatype Graph = Graph(nodes: seq<Node>, root: nat)

  ghost predicate AllBelow(refs: seq<nat>, bound: nat) {
    forall k :: 0 <= k < |refs| ==> refs[k] < bound
  }

  ghost predicate EntriesBelow(nodes: seq<Node>, entries: seq<Entry>, bound: nat) {
    && bound <= |nodes|
    && forall k :: 0 <= k < |entries| ==> entries[k].key < bound && entries[k].value < bound && nodes[entries[k].key].S?
  }

  /** References point to earlier nodes, and object keys to strings. */
  ghost predicate Backward(nodes: seq<Node>) {
    forall k :: 0 <= k < |nodes| ==> NodeBackward(nodes, nodes[k], k)
  }

  ghost predicate NodeBackward(nodes: seq<Node>, n: Node, bound: nat) {
    match n
    case A(items) => AllBelow(items, bound)
    case O(entries) => EntriesBelow(nodes, entries, bound)
    case _ => true
  }

  /** The references of a node, in the order in which they are followed. */
  function EntryRefs(entries: seq<Entry>): (r: seq<nat>)
    ensures |r| == 2 * |entries|
    ensures forall k :: 0 <= k < |entries| ==> r[2 * k] == entries[k].key && r[2 * k + 1] == entries[k].value
  {
    if entries == [] then [] else [entries[0].key, entries[0].value] + EntryRefs(entries[1..])
  }

  function Refs(n: Node): seq<nat> {
    match n
    case A(items) => items
    case O(entries) => EntryRefs(entries)
    case _ => []
  }

  lemma {:induction false} EntryRefsBelow(nodes: seq<Node>, entries: seq<Entry>, bound: nat)
    requires EntriesBelow(nodes, entries, bound)
    ensures AllBelow(EntryRefs(entries), bound)
  {
    if entries != [] {
      EntryRefsBelow(nodes, entries[1..], bound);
    }
  }

  lemma RefsBelow(nodes: seq<Node>, id: nat)
    requires Backward(nodes) && id < |nodes|
    ensures AllBelow(Refs(nodes[id]), id)
  {
    assert NodeBackward(nodes, nodes[id], id);
    if nodes[id].O? {
      EntryRefsBelow(nodes, nodes[id].entries, id);
    }
  }

  // ----- Decoding -----

  function Decode(nodes: seq<Node>, id: nat): Tree
    requires Backward(nodes) && id < |nodes|
    decreases id, 1, 0
  {
    assert NodeBackward(nodes, nodes[id], id);
    match nodes[id]
    case N => Null
    case B(b) => Boolean(b)
    case I(n) => Number(n)
    case S(s) => Text(s)
    case A(items) => Array(DecodeAll(nodes, items, id))
    case O(entries) => Object(DecodeEntries(nodes, entries, id))
  }

  function DecodeAll(nodes: seq<Node>, items: seq<nat>, bound: nat): (r: seq<Tree>)
    requires Backward(nodes) && bound <= |nodes| && AllBelow(items, bound)
    ensures |r| == |items| && forall k :: 0 <= k < |items| ==> r[k] == Decode(nodes, items[k])
    decreases bound, 0, |items|
  {
    if items == [] then [] else [Decode(nodes, items[0])] + DecodeAll(nodes, items[1..], bound)
  }

  function DecodeEntries(nodes: seq<Node>, entries: seq<Entry>, bound: nat): (r: seq<Field>)
    requires Backward(nodes) && EntriesBelow(nodes, entries, bound)
    ensures |r| == |entries|
    ensures forall k :: 0 <= k < |entries| ==> r[k] == Field(nodes[entries[k].key].s, Decode(nodes, entries[k].value))
    decreases bound, 0, |entries|
  {
    if entries == [] then []
    else [Field(nodes[entries[0].key].s, Decode(nodes, entries[0].value))] + DecodeEntries(nodes, entries[1..], bound)
  }

  /** Nodes appended later do not change what earlier ones decode to. */
  lemma {:induction false} DecodeKept(nodes: seq<Node>, more: seq<Node>, id: nat)
    requires Backward(nodes) && Backward(more) && nodes <= more && id < |nodes|
    ensures Decode(more, id) == Decode(nodes, id)
    decreases id
  {
    assert NodeBackward(nodes, nodes[id], id) && NodeBackward(more, more[id], id);
    match nodes[id]
    case A(items) =>
      forall k | 0 <= k < |items| ensures Decode(more, items[k]) == Decode(nodes, items[k]) {
        DecodeKept(nodes, more, items[k]);
      }
      assert DecodeAll(more, items, id) == DecodeAll(nodes, items, id);
    case O(entries) =>
      forall k | 0 <= k < |entries| ensures Decode(more, entries[k].value) == Decode(nodes, entries[k].value) {
        DecodeKept(nodes, more, entries[k].value);
      }
      assert DecodeEntries(more, entries, id) == DecodeEntries(nodes, entries, id);
    case _ =>
  }

  /** Without equal nodes, no two nodes decode to the same value. */
  lemma {:induction false} DecodeInjective(nodes: seq<Node>, i: nat, j: nat)
    requires Backward(nodes) && Distinct(nodes) && i < |nodes| && j < |nodes|
    requires Decode(nodes, i) == Decode(nodes, j)
    ensures i == j
    decreases i
  {
    assert NodeBackward(nodes, nodes[i], i) && NodeBackward(nodes, nodes[j], j);
    match nodes[i]
    case A(items) =>
      var others := nodes[j].items;
      assert DecodeAll(nodes, items, i) == DecodeAll(nodes, others, j);
      forall k | 0 <= k < |items| ensures items[k] == others[k] {
        assert DecodeAll(nodes, items, i)[k] == DecodeAll(nodes, others, j)[k];
        DecodeInjective(nodes, items[k], others[k]);
      }
      assert items == others;
    case O(entries) =>
      var others := nodes[j].entries;
      assert DecodeEntries(nodes, entries, i) == DecodeEntries(nodes, others, j);
      forall k | 0 <= k < |entries| ensures entries[k] == others[k] {
        assert DecodeEntries(nodes, entries, i)[k] == DecodeEntries(nodes, others, j)[k];
        assert nodes[entries[k].key] == nodes[others[k].key];
        DecodeInjective(nodes, entries[k].value, others[k].value);
      }
      assert entries == others;
    case _ =>
  }

  // ----- The walk over ids -----

  /** The ids a depth-first walk from `id` has finished, after those in `order`. */
  function Visit(nodes: seq<Node>, id: nat, order: seq<nat>): seq<nat>
    requires Backward(nodes) && id < |nodes|
    decreases id, 1, 0
  {
    RefsBelow(nodes, id);
    if id in order then order else VisitAll(nodes, Refs(nodes[id]), id, order) + [id]
  }

  function VisitAll(nodes: seq<Node>, refs: seq<nat>, bound: nat, order: seq<nat>): seq<nat>
    requires Backward(nodes) && bound <= |nodes| && AllBelow(refs, bound)
    decreases bound, 0, |refs|
  {
    if refs == [] then order else VisitAll(nodes, refs[1..], bound, Visit(nodes, refs[0], order))
  }

  /** A walk only adds ids, none of them above where it starts, and adds none twice. */
  ghost predicate Grew(before: seq<nat>, after: seq<nat>, bound: nat) {
    && before <= after
    && (forall k :: |before| <= k < |after| ==> after[k] < bound)
    && (Distinct(before) ==> Distinct(after))
  }

  lemma {:induction false} VisitGrows(nodes: seq<Node>, id: nat, order: seq<nat>)
    requires Backward(nodes) && id < |nodes|
    ensures Grew(order, Visit(nodes, id, order), id + 1) && id in Visit(nodes, id, order)
    decreases id, 1, 0
  {
    RefsBelow(nodes, id);
    if id !in order {
      var inner := VisitAll(nodes, Refs(nodes[id]), id, order);
      VisitAllGrows(nodes, Refs(nodes[id]), id, order);
      assert id !in inner;
      DistinctAppend(inner, [id]);
      assert (inner + [id])[|inner|] == id;
    }
  }

  lemma {:induction false} VisitAllGrows(nodes: seq<Node>, refs: seq<nat>, bound: nat, order: seq<nat>)
    requires Backward(nodes) && bound <= |nodes| && AllBelow(refs, bound)
    ensures var after := VisitAll(nodes, refs, bound, order); Grew(order, after, bound) && forall r :: r in refs ==> r in after
    decreases bound, 0, |refs|
  {
    if refs != [] {
      var first := Visit(nodes, refs[0], order);
      VisitGrows(nodes, refs[0], order);
      VisitAllGrows(nodes, refs[1..], bound, first);
      var after := VisitAll(nodes, refs, bound, order);
      assert forall x :: x in first ==> x in after;
      forall k | |order| <= k < |after| ensures after[k] < bound {
        assert k < |first| ==> after[k] == first[k];
      }
    }
  }

  // ----- The walk over values -----

  function KeyTree(f: Field): Tree {
    Text(f.key)
  }

  /** Distinct subterms of a value in the order in which they are finished; keys are terms too. */
  function Post(t: Tree, seen: seq<Tree>): seq<Tree>
    decreases t, 1
  {
    if t in seen then seen
    else
      (match t
       case Array(items) => PostAll(items, seen)
       case Object(fields) => PostFields(fields, seen)
       case _ => seen) + [t]
  }

  function PostAll(items: seq<Tree>, seen: seq<Tree>): seq<Tree>
    decreases items, 0
  {
    if items == [] then seen else PostAll(items[1..], Post(items[0], seen))
  }

  function PostText(s: string, seen: seq<Tree>): seq<Tree> {
    if Text(s) in seen then seen else seen + [Text(s)]
  }

  function PostFields(fields: seq<Field>, seen: seq<Tree>): seq<Tree>
    decreases fields, 0
  {
    if fields == [] then seen
    else PostFields(fields[1..], Post(fields[0].value, PostText(fields[0].key, seen)))
  }

  /** The distinct subterms of a value, children first. */
  function Terms(t: Tree): seq<Tree> {
    Post(t, [])
  }

  // ----- The two walks agree -----

  ghost function Decoded(nodes: seq<Node>, order: seq<nat>): (r: seq<Tree>)
    requires Backward(nodes) && AllBelow(order, |nodes|)
    ensures |r| == |order| && forall k :: 0 <= k < |order| ==> r[k] == Decode(nodes, order[k])
  {
    seq(|order|, k requires 0 <= k < |order| => Decode(nodes, order[k]))
  }

  lemma DecodedMember(nodes: seq<Node>, order: seq<nat>, id: nat)
    requires Backward(nodes) && Distinct(nodes) && id < |nodes| && AllBelow(order, |nodes|)
    ensures Decode(nodes, id) in Decoded(nodes, order) <==> id in order
  {
    if id in order {
      var k :| 0 <= k < |order| && order[k] == id;
      assert Decoded(nodes, order)[k] == Decode(nodes, id);
    }
    if Decode(nodes, id) in Decoded(nodes, order) {
      var k :| 0 <= k < |order| && Decoded(nodes, order)[k] == Decode(nodes, id);
      assert order[k] in order;
      DecodeInjective(nodes, id, order[k]);
    }
  }

  lemma GrewKnown(nodes: seq<Node>, before: seq<nat>, after: seq<nat>, bound: nat)
    requires AllBelow(before, |nodes|) && Grew(before, after, bound) && bound <= |nodes|
    ensures AllBelow(after, |nodes|)
  {
    forall k | 0 <= k < |after| ensures after[k] < |nodes| {
      assert k < |before| ==> after[k] == before[k];
    }
  }

  lemma DecodedAppend(nodes: seq<Node>, order: seq<nat>, id: nat)
    requires Backward(nodes) && AllBelow(order, |nodes|) && id < |nodes|
    ensures AllBelow(order + [id], |nodes|) && Decoded(nodes, order + [id]) == Decoded(nodes, order) + [Decode(nodes, id)]
  {
    hide Decode;
  }

  /** What decodes to the same children finishes in the same order. */
  lemma {:induction false} WalksAgree(nodes: seq<Node>, id: nat, order: seq<nat>)
    requires Backward(nodes) && Distinct(nodes) && id < |nodes| && AllBelow(order, |nodes|)
    ensures AllBelow(Visit(nodes, id, order), |nodes|)
    ensures Decoded(nodes, Visit(nodes, id, order)) == Post(Decode(nodes, id), Decoded(nodes, order))
    decreases id, 1, 0
  {
    hide VisitAll, Backward, PostAll, PostFields, DecodeAll, DecodeEntries;
    VisitGrows(nodes, id, order);
    GrewKnown(nodes, order, Visit(nodes, id, order), id + 1);
    DecodedMember(nodes, order, id);
    if id !in order {
      RefsBelow(nodes, id);
      var inner := VisitAll(nodes, Refs(nodes[id]), id, order);
      VisitAllGrows(nodes, Refs(nodes[id]), id, order);
      GrewKnown(nodes, order, inner, id);
      DecodedAppend(nodes, inner, id);
      BackwardAt(nodes, id);
      match nodes[id]
      case A(items) => WalkAllAgrees(nodes, items, id, order);
      case O(entries) => WalkEntriesAgrees(nodes, entries, id, order);
      case _ => NoRefs(nodes, id, order);
    }
  }

  lemma BackwardAt(nodes: seq<Node>, id: nat)
    requires Backward(nodes) && id < |nodes|
    ensures NodeBackward(nodes, nodes[id], id)
  {
  }

  lemma NoRefs(nodes: seq<Node>, id: nat, order: seq<nat>)
    requires Backward(nodes) && id < |nodes| && Refs(nodes[id]) == []
    ensures VisitAll(nodes, Refs(nodes[id]), id, order) == order
  {
  }

  lemma {:induction false} WalkAllAgrees(nodes: seq<Node>, items: seq<nat>, bound: nat, order: seq<nat>)
    requires Backward(nodes) && Distinct(nodes) && bound <= |nodes| && AllBelow(order, |nodes|) && AllBelow(items, bound)
    ensures AllBelow(VisitAll(nodes, items, bound, order), |nodes|)
    ensures Decoded(nodes, VisitAll(nodes, items, bound, order)) == PostAll(DecodeAll(nodes, items, bound), Decoded(nodes, order))
    decreases bound, 0, |items|
  {
    if items != [] {
      var first := Visit(nodes, items[0], order);
      WalksAgree(nodes, items[0], order);
      WalkAllAgrees(nodes, items[1..], bound, first);
      assert DecodeAll(nodes, items, bound)[1..] == DecodeAll(nodes, items[1..], bound);
    }
  }

  lemma VisitPair(nodes: seq<Node>, a: nat, b: nat, rest: seq<nat>, bound: nat, order: seq<nat>)
    requires Backward(nodes) && bound <= |nodes| && a < bound && b < bound && AllBelow(rest, bound)
    ensures AllBelow([a, b] + rest, bound)
    ensures VisitAll(nodes, [a, b] + rest, bound, order) == VisitAll(nodes, rest, bound, Visit(nodes, b, Visit(nodes, a, order)))
  {
    hide Visit;
    assert ([a, b] + rest)[1..] == [b] + rest && ([b] + rest)[1..] == rest;
    assert AllBelow([b] + rest, bound);
    assert VisitAll(nodes, [a, b] + rest, bound, order) == VisitAll(nodes, [b] + rest, bound, Visit(nodes, a, order));
  }

  lemma PostOfText(s: string, seen: seq<Tree>)
    ensures Post(Text(s), seen) == PostText(s, seen)
  {
  }

  lemma {:induction false} WalkEntriesAgrees(nodes: seq<Node>, entries: seq<Entry>, bound: nat, order: seq<nat>)
    requires Backward(nodes) && Distinct(nodes) && EntriesBelow(nodes, entries, bound) && AllBelow(order, |nodes|)
    requires AllBelow(EntryRefs(entries), bound)
    ensures AllBelow(VisitAll(nodes, EntryRefs(entries), bound, order), |nodes|)
    ensures Decoded(nodes, VisitAll(nodes, EntryRefs(entries), bound, order)) ==
            PostFields(DecodeEntries(nodes, entries, bound), Decoded(nodes, order))
    decreases bound, 0, |entries|
  {
    hide Visit, Post, Backward, Decode;
    if entries != [] {
      var e, rest := entries[0], entries[1..];
      EntryRefsBelow(nodes, rest, bound);
      VisitPair(nodes, e.key, e.value, EntryRefs(rest), bound, order);
      var withKey := Visit(nodes, e.key, order);
      WalksAgree(nodes, e.key, order);
      KeyDecodes(nodes, e.key);
      PostOfText(nodes[e.key].s, Decoded(nodes, order));
      var withValue := Visit(nodes, e.value, withKey);
      WalksAgree(nodes, e.value, withKey);
      WalkEntriesAgrees(nodes, rest, bound, withValue);
      assert DecodeEntries(nodes, entries, bound)[1..] == DecodeEntries(nodes, rest, bound);
    }
  }

  lemma KeyDecodes(nodes: seq<Node>, id: nat)
    requires Backward(nodes) && id < |nodes| && nodes[id].S?
    ensures Decode(nodes, id) == Text(nodes[id].s)
  {
  }
}
