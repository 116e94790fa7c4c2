/** The canonical graph of a value, and why renumbering any graph without equal nodes gives it. */
module CodecCanonical {
  import opened Prelude
  import opened CodecTrees
  import opened CodecGraphs

  /** Where an element first occurs; the length if it does not. */
  function IndexOf<T(==)>(x: T, s: seq<T>): (k: nat)
    ensures k <= |s| && (x in s <==> k < |s|) && (k < |s| ==> s[k] == x)
  {
    if s == [] || s[0] == x then 0 else 1 + IndexOf(x, s[1..])
  }

  lemma {:induction false} IndexOfAt<T>(s: seq<T>, k: nat)
    requires Distinct(s) && k < |s|
    ensures IndexOf(s[k], s) == k
  {
    assert s[IndexOf(s[k], s)] == s[k];
  }

  // ----- The canonical graph -----

  /** A term as a node, its children named by their places among the terms. */
  function NodeOf(t: Tree, terms: seq<Tree>): Node {
    match t
    case Null => N
    case Boolean(b) => B(b)
    case Number(n) => I(n)
    case Text(s) => S(s)
    case Array(items) => A(seq(|items|, k requires 0 <= k < |items| => IndexOf(items[k], terms)))
    case Object(fields) =>
      O(seq(|fields|, k requires 0 <= k < |fields| => Entry(IndexOf(KeyTree(fields[k]), terms), IndexOf(fields[k].value, terms))))
  }

  lemma {:induction false} TermsEndWithRoot(t: Tree)
    ensures Terms(t) != [] && Terms(t)[|Terms(t)| - 1] == t
  {
  }

  /** The i-th node is the i-th distinct subterm in sorted-key postorder. */
  function CanonicalGraph(t: Tree): Graph {
    var terms := Terms(t);
    TermsEndWithRoot(t);
    Graph(seq(|terms|, k requires 0 <= k < |terms| => NodeOf(terms[k], terms)), |terms| - 1)
  }

  // ----- Renumbering -----

  function Remap(n: Node, order: seq<nat>): Node {
    match n
    case A(items) => A(seq(|items|, k requires 0 <= k < |items| => IndexOf(items[k], order)))
    case O(entries) =>
      O(seq(|entries|, k requires 0 <= k < |entries| => Entry(IndexOf(entries[k].key, order), IndexOf(entries[k].value, order))))
    case _ => n
  }

  /** The copying reference: nodes taken out in walk order, references renumbered. */
  function Reference(nodes: seq<Node>, root: nat): Graph
    requires Backward(nodes) && root < |nodes|
  {
    var order := Visit(nodes, root, []);
    VisitGrows(nodes, root, []);
    GrewKnown(nodes, [], order, root + 1);
    Graph(seq(|order|, k requires 0 <= k < |order| => Remap(nodes[order[k]], order)), |order| - 1)
  }

  lemma {:induction false} IndexDecodes(nodes: seq<Node>, id: nat, order: seq<nat>)
    requires Backward(nodes) && Distinct(nodes) && id < |nodes| && AllBelow(order, |nodes|)
    ensures IndexOf(Decode(nodes, id), Decoded(nodes, order)) == IndexOf(id, order)
    decreases |order|
  {
    hide Decode, Backward;
    if order != [] {
      var rest := order[1..];
      assert Decoded(nodes, order)[1..] == Decoded(nodes, rest);
      IndexDecodes(nodes, id, rest);
      if Decode(nodes, id) == Decode(nodes, order[0]) {
        DecodeInjective(nodes, id, order[0]);
      }
    }
  }

  lemma RemapItems(nodes: seq<Node>, items: seq<nat>, bound: nat, order: seq<nat>)
    requires Backward(nodes) && Distinct(nodes) && bound <= |nodes| && AllBelow(items, bound) && AllBelow(order, |nodes|)
    ensures Remap(A(items), order) == NodeOf(Array(DecodeAll(nodes, items, bound)), Decoded(nodes, order))
  {
    hide Decode, Backward, IndexOf;
    var terms := Decoded(nodes, order);
    forall k | 0 <= k < |items| ensures IndexOf(Decode(nodes, items[k]), terms) == IndexOf(items[k], order) {
      IndexDecodes(nodes, items[k], order);
    }
  }

  lemma RemapEntries(nodes: seq<Node>, entries: seq<Entry>, bound: nat, order: seq<nat>)
    requires Backward(nodes) && Distinct(nodes) && EntriesBelow(nodes, entries, bound) && AllBelow(order, |nodes|)
    ensures Remap(O(entries), order) == NodeOf(Object(DecodeEntries(nodes, entries, bound)), Decoded(nodes, order))
  {
    hide Decode, Backward, IndexOf;
    var terms, fields := Decoded(nodes, order), DecodeEntries(nodes, entries, bound);
    forall k | 0 <= k < |entries|
      ensures IndexOf(KeyTree(fields[k]), terms) == IndexOf(entries[k].key, order)
      ensures IndexOf(fields[k].value, terms) == IndexOf(entries[k].value, order)
    {
      KeyDecodes(nodes, entries[k].key);
      IndexDecodes(nodes, entries[k].key, order);
      IndexDecodes(nodes, entries[k].value, order);
    }
  }

  lemma RemapIsNodeOf(nodes: seq<Node>, id: nat, order: seq<nat>)
    requires Backward(nodes) && Distinct(nodes) && id < |nodes| && AllBelow(order, |nodes|)
    ensures Remap(nodes[id], order) == NodeOf(Decode(nodes, id), Decoded(nodes, order))
  {
    hide Backward, Decoded, DecodeAll, DecodeEntries;
    BackwardAt(nodes, id);
    match nodes[id]
    case A(items) => RemapItems(nodes, items, id, order);
    case O(entries) => RemapEntries(nodes, entries, id, order);
    case _ =>
  }

  /** Renumbering in walk order gives the canonical graph of the value the graph stands for. */
  lemma ReferenceIsCanonical(nodes: seq<Node>, root: nat)
    requires Backward(nodes) && Distinct(nodes) && root < |nodes|
    ensures Reference(nodes, root) == CanonicalGraph(Decode(nodes, root))
  {
    hide Decode, Backward, Visit, Post;
    var order := Visit(nodes, root, []);
    VisitGrows(nodes, root, []);
    GrewKnown(nodes, [], order, root + 1);
    WalksAgree(nodes, root, []);
    var terms := Terms(Decode(nodes, root));
    assert Decoded(nodes, []) == [];
    assert terms == Decoded(nodes, order);
    forall k | 0 <= k < |order| ensures Remap(nodes[order[k]], order) == NodeOf(terms[k], terms) {
      RemapIsNodeOf(nodes, order[k], order);
    }
  }

  // ----- Every part of a value is among its terms -----

  ghost predicate Within(x: Tree, t: Tree) {
    || x == t
    || (match t
        case Array(items) => exists k :: 0 <= k < |items| && Within(x, items[k])
        case Object(fields) => exists k :: 0 <= k < |fields| && (x == KeyTree(fields[k]) || Within(x, fields[k].value))
        case _ => false)
  }

  ghost predicate Closed(s: seq<Tree>) {
    forall x, y :: y in s && Within(x, y) ==> x in s
  }

  ghost predicate Collects(before: seq<Tree>, after: seq<Tree>) {
    before <= after && (Closed(before) ==> Closed(after)) && (Distinct(before) ==> Distinct(after))
  }

  lemma CollectsTrans(a: seq<Tree>, b: seq<Tree>, c: seq<Tree>)
    requires Collects(a, b) && Collects(b, c)
    ensures Collects(a, c)
  {
  }

  lemma PrefixMembers<T>(a: seq<T>, b: seq<T>)
    requires a <= b
    ensures forall x :: x in a ==> x in b
  {
    forall x | x in a ensures x in b {
      var k :| 0 <= k < |a| && a[k] == x;
      assert b[k] == x;
    }
  }

  lemma ClosedWith(inner: seq<Tree>, t: Tree)
    requires Closed(inner)
    requires t.Array? ==> forall k :: 0 <= k < |t.items| ==> t.items[k] in inner
    requires t.Object? ==> forall k :: 0 <= k < |t.fields| ==> KeyTree(t.fields[k]) in inner && t.fields[k].value in inner
    ensures Closed(inner + [t])
  {
    forall x, y | y in inner + [t] && Within(x, y) ensures x in inner + [t] {
      if y !in inner {
        assert y == t;
      }
    }
  }

  lemma CollectsTerm(seen: seq<Tree>, inner: seq<Tree>, t: Tree)
    requires Collects(seen, inner) && t !in inner
    requires t.Array? ==> forall k :: 0 <= k < |t.items| ==> t.items[k] in inner
    requires t.Object? ==> forall k :: 0 <= k < |t.fields| ==> KeyTree(t.fields[k]) in inner && t.fields[k].value in inner
    ensures Collects(seen, inner + [t]) && t in inner + [t]
  {
    hide Closed;
    DistinctAppend(inner, [t]);
    if Closed(seen) {
      ClosedWith(inner, t);
    }
  }

  lemma {:induction false} PostCollects(t: Tree, seen: seq<Tree>)
    ensures Collects(seen, Post(t, seen)) && t in Post(t, seen)
    decreases t, 1
  {
    hide Closed, Collects;
    if t in seen {
      CollectsNothing(seen);
    } else {
      NotYet(t, seen);
      match t
      case Array(items) =>
        PostAllCollects(items, seen);
        CollectsTerm(seen, PostAll(items, seen), t);
      case Object(fields) =>
        PostFieldsCollects(fields, seen);
        CollectsTerm(seen, PostFields(fields, seen), t);
      case _ =>
        CollectsNothing(seen);
        CollectsTerm(seen, seen, t);
    }
  }

  /** A term is not among the terms of its own children. */
  lemma NotYet(t: Tree, seen: seq<Tree>)
    requires t !in seen
    ensures t.Array? ==> t !in PostAll(t.items, seen)
    ensures t.Object? ==> t !in PostFields(t.fields, seen)
  {
    if t.Array? {
      PostAllSmaller(t.items, seen, t);
    } else if t.Object? {
      PostFieldsSmaller(t.fields, seen, t);
    }
  }

  lemma {:induction false} PostSmaller(t: Tree, seen: seq<Tree>, x: Tree)
    requires x !in seen && Size(t) < Size(x)
    ensures x !in Post(t, seen)
    decreases t, 1
  {
    match t
    case Array(items) => PostAllSmaller(items, seen, x);
    case Object(fields) => PostFieldsSmaller(fields, seen, x);
    case _ =>
  }

  lemma {:induction false} PostAllSmaller(items: seq<Tree>, seen: seq<Tree>, x: Tree)
    requires x !in seen && SizeAll(items) < Size(x)
    ensures x !in PostAll(items, seen)
    decreases items, 0
  {
    if items != [] {
      PostSmaller(items[0], seen, x);
      PostAllSmaller(items[1..], Post(items[0], seen), x);
    }
  }

  lemma {:induction false} PostFieldsSmaller(fields: seq<Field>, seen: seq<Tree>, x: Tree)
    requires x !in seen && SizeFields(fields) < Size(x) && !x.Text?
    ensures x !in PostFields(fields, seen)
    decreases fields, 0
  {
    if fields != [] {
      var withKey := PostText(fields[0].key, seen);
      PostSmaller(fields[0].value, withKey, x);
      PostFieldsSmaller(fields[1..], Post(fields[0].value, withKey), x);
    }
  }

  lemma {:induction false} PostAllCollects(items: seq<Tree>, seen: seq<Tree>)
    ensures Collects(seen, PostAll(items, seen)) && forall k :: 0 <= k < |items| ==> items[k] in PostAll(items, seen)
    decreases items, 0
  {
    hide Closed;
    if items != [] {
      var first := Post(items[0], seen);
      PostCollects(items[0], seen);
      PostAllCollects(items[1..], first);
      PrefixMembers(first, PostAll(items, seen));
      assert forall k :: 0 < k < |items| ==> items[k] == items[1..][k - 1];
    }
  }

  lemma TextCollects(s: string, seen: seq<Tree>)
    ensures Collects(seen, PostText(s, seen)) && Text(s) in PostText(s, seen)
  {
    hide Closed;
    if Text(s) !in seen {
      DistinctAppend(seen, [Text(s)]);
      if Closed(seen) {
        ClosedWith(seen, Text(s));
      }
    }
  }

  lemma {:induction false} PostFieldsCollects(fields: seq<Field>, seen: seq<Tree>)
    ensures Collects(seen, PostFields(fields, seen))
    ensures forall k :: 0 <= k < |fields| ==> KeyTree(fields[k]) in PostFields(fields, seen) && fields[k].value in PostFields(fields, seen)
    decreases fields, 0
  {
    hide Closed, Collects;
    if fields == [] {
      CollectsNothing(seen);
    } else {
      var withKey := PostText(fields[0].key, seen);
      TextCollects(fields[0].key, seen);
      var first := Post(fields[0].value, withKey);
      PostCollects(fields[0].value, withKey);
      PostFieldsCollects(fields[1..], first);
      CollectsTrans(seen, withKey, first);
      CollectsTrans(seen, first, PostFields(fields, seen));
      CollectsPrefix(withKey, first);
      CollectsPrefix(first, PostFields(fields, seen));
      PrefixMembers(withKey, first);
      PrefixMembers(first, PostFields(fields, seen));
      assert forall k :: 0 < k < |fields| ==> fields[k] == fields[1..][k - 1];
    }
  }

  lemma CollectsNothing(s: seq<Tree>)
    ensures Collects(s, s)
  {
  }

  lemma CollectsPrefix(a: seq<Tree>, b: seq<Tree>)
    requires Collects(a, b)
    ensures a <= b
  {
  }

  /** The terms of a value are all its parts, each once. */
  lemma TermsComplete(t: Tree)
    ensures Distinct(Terms(t)) && forall x :: Within(x, t) ==> x in Terms(t)
  {
    PostCollects(t, []);
    assert Closed([]);
  }

  /** A graph all of whose nodes decode to parts of the root's value is reached completely. */
  lemma WalkReachesAll(nodes: seq<Node>, root: nat)
    requires Backward(nodes) && Distinct(nodes) && root < |nodes|
    requires forall k :: 0 <= k < |nodes| ==> Within(Decode(nodes, k), Decode(nodes, root))
    ensures var order := Visit(nodes, root, []);
            |order| == |nodes| && Distinct(order) && forall k :: 0 <= k < |nodes| ==> k in order
  {
    hide Decode, Backward, Visit, Within;
    var order := Visit(nodes, root, []);
    VisitGrows(nodes, root, []);
    GrewKnown(nodes, [], order, root + 1);
    WalksAgree(nodes, root, []);
    assert Decoded(nodes, []) == [];
    TermsComplete(Decode(nodes, root));
    forall k | 0 <= k < |nodes| ensures k in order {
      assert Within(Decode(nodes, k), Decode(nodes, root));
      DecodedMember(nodes, order, k);
    }
    PermutationLength(order, |nodes|);
  }

  lemma PermutationLength(order: seq<nat>, n: nat)
    requires Distinct(order) && AllBelow(order, n) && forall k :: 0 <= k < n ==> k in order
    ensures |order| == n
  {
    forall x | x in order ensures x in Range(n) {
      var k :| 0 <= k < |order| && order[k] == x;
    }
    DistinctFits(order, Range(n));
    var up := seq(n, k => k);
    var members := Members(order);
    forall x | x in up ensures x in members {
      var k :| 0 <= k < n && up[k] == x;
    }
    DistinctFits(up, members);
    SeqAsSet(order);
  }

  ghost function Range(n: nat): (r: set<nat>)
    ensures |r| == n && forall k :: k in r <==> 0 <= k < n
  {
    if n == 0 then {} else Range(n - 1) + {n - 1}
  }

  ghost function Members<T>(s: seq<T>): set<T> {
    set y | y in s
  }

  lemma {:induction false} SeqAsSet<T>(s: seq<T>)
    ensures |Members(s)| <= |s|
    decreases |s|
  {
    if s != [] {
      SeqAsSet(s[1..]);
      assert Members(s) == {s[0]} + Members(s[1..]);
    }
  }
}
