/** Encoding and decoding undo each other, exactly for the values the decoder's limits allow. */
module CodecRoundTrip {
  import opened Prelude
  import opened CodecTrees
  import opened CodecGraphs
  import opened CodecCanonical
  import opened CodecMeaning
  import opened CodecValidate
  import opened CodecZeros
  import B = CodecBuilder
  import O = CodecOrder

  /** What `CodecOrder.Encode` returns. */
  function Encoded(t: Tree): Option<Graph> {
    var kept := Canon(Settled(t));
    if |Terms(kept)| < 0xFFFF_FFFE then Some(CanonicalGraph(kept)) else None
  }

  /** What `deserialize` returns: nothing for a refused graph. */
  ghost function Deserialized(g: Graph): Option<Tree> {
    if ValidGraph(g) then Some(Decode(g.nodes, g.root)) else None
  }

  method Deserialize(g: Graph) returns (r: Option<Tree>)
    ensures r == Deserialized(g)
  {
    var ok := Validate(g);
    r := if ok then Some(Decode(g.nodes, g.root)) else None;
  }

  // ----- The canonical graph decodes to its value -----

  /** Every term's children come before it. */
  ghost predicate ChildrenIn(t: Tree, s: seq<Tree>) {
    && (t.Array? ==> forall k :: 0 <= k < |t.items| ==> t.items[k] in s)
    && (t.Object? ==> forall k :: 0 <= k < |t.fields| ==> KeyTree(t.fields[k]) in s && t.fields[k].value in s)
  }

  ghost predicate ChildrenFirst(s: seq<Tree>) {
    forall k :: 0 <= k < |s| ==> ChildrenIn(s[k], s[..k])
  }

  lemma ChildrenFirstAppend(s: seq<Tree>, t: Tree)
    requires ChildrenFirst(s) && ChildrenIn(t, s)
    ensures ChildrenFirst(s + [t])
  {
    var more := s + [t];
    forall k | 0 <= k < |more| ensures ChildrenIn(more[k], more[..k]) {
      if k < |s| {
        assert more[..k] == s[..k];
      } else {
        assert more[..k] == s;
      }
    }
  }

  lemma {:induction false} PostChildrenFirst(t: Tree, seen: seq<Tree>)
    requires ChildrenFirst(seen)
    ensures ChildrenFirst(Post(t, seen))
    decreases t, 1
  {
    hide ChildrenFirst, Collects;
    if t !in seen {
      match t
      case Array(items) =>
        PostAllChildrenFirst(items, seen);
        PostAllCollects(items, seen);
        ChildrenFirstAppend(PostAll(items, seen), t);
      case Object(fields) =>
        PostFieldsChildrenFirst(fields, seen);
        PostFieldsCollects(fields, seen);
        ChildrenFirstAppend(PostFields(fields, seen), t);
      case _ =>
        ChildrenFirstAppend(seen, t);
    }
  }

  lemma {:induction false} PostAllChildrenFirst(items: seq<Tree>, seen: seq<Tree>)
    requires ChildrenFirst(seen)
    ensures ChildrenFirst(PostAll(items, seen))
    decreases items, 0
  {
    if items != [] {
      PostChildrenFirst(items[0], seen);
      PostAllChildrenFirst(items[1..], Post(items[0], seen));
    }
  }

  lemma {:induction false} PostFieldsChildrenFirst(fields: seq<Field>, seen: seq<Tree>)
    requires ChildrenFirst(seen)
    ensures ChildrenFirst(PostFields(fields, seen))
    decreases fields, 0
  {
    if fields != [] {
      if Text(fields[0].key) !in seen {
        ChildrenFirstAppend(seen, Text(fields[0].key));
      }
      var withKey := PostText(fields[0].key, seen);
      PostChildrenFirst(fields[0].value, withKey);
      PostFieldsChildrenFirst(fields[1..], Post(fields[0].value, withKey));
    }
  }

  ghost function Nodes(terms: seq<Tree>): (r: seq<Node>)
    ensures |r| == |terms| && forall k :: 0 <= k < |terms| ==> r[k] == NodeOf(terms[k], terms)
  {
    seq(|terms|, k requires 0 <= k < |terms| => NodeOf(terms[k], terms))
  }

  lemma IndexInPrefix<T>(x: T, s: seq<T>, k: nat)
    requires k <= |s| && x in s[..k]
    ensures IndexOf(x, s) < k && s[IndexOf(x, s)] == x
  {
    var i :| 0 <= i < k && s[i] == x;
    IndexIsFirst(x, s, i);
  }

  lemma {:induction false} IndexIsFirst<T>(x: T, s: seq<T>, i: nat)
    requires i < |s| && s[i] == x
    ensures IndexOf(x, s) <= i
    decreases i
  {
    if i > 0 && s[0] != x {
      IndexIsFirst(x, s[1..], i - 1);
    }
  }

  /** Terms listed children first make a well-formed table. */
  lemma TermsBackward(terms: seq<Tree>)
    requires ChildrenFirst(terms)
    ensures Backward(Nodes(terms))
  {
    var nodes := Nodes(terms);
    forall k | 0 <= k < |nodes| ensures NodeBackward(nodes, nodes[k], k) {
      TermBackward(terms, k);
    }
  }

  lemma TermBackward(terms: seq<Tree>, k: nat)
    requires ChildrenFirst(terms) && k < |terms|
    ensures NodeBackward(Nodes(terms), NodeOf(terms[k], terms), k)
  {
    hide IndexOf;
    var t := terms[k];
    assert ChildrenIn(t, terms[..k]);
    match t
    case Array(items) =>
      forall i | 0 <= i < |items| ensures IndexOf(items[i], terms) < k {
        IndexInPrefix(items[i], terms, k);
      }
    case Object(fields) =>
      forall i | 0 <= i < |fields|
        ensures IndexOf(KeyTree(fields[i]), terms) < k && IndexOf(fields[i].value, terms) < k
        ensures terms[IndexOf(KeyTree(fields[i]), terms)] == KeyTree(fields[i])
      {
        IndexInPrefix(KeyTree(fields[i]), terms, k);
        IndexInPrefix(fields[i].value, terms, k);
      }
    case _ =>
  }

  ghost predicate DecodeBelow(terms: seq<Tree>, k: nat)
    requires Backward(Nodes(terms)) && k <= |terms|
  {
    forall i :: 0 <= i < k ==> Decode(Nodes(terms), i) == terms[i]
  }

  lemma ArrayDecodes(terms: seq<Tree>, k: nat)
    requires Backward(Nodes(terms)) && k < |terms| && terms[k].Array? && ChildrenIn(terms[k], terms[..k]) && DecodeBelow(terms, k)
    ensures Decode(Nodes(terms), k) == terms[k]
  {
    hide IndexOf, Backward;
    var nodes, items := Nodes(terms), terms[k].items;
    BackwardAt(nodes, k);
    var refs := nodes[k].items;
    forall i | 0 <= i < |items| ensures refs[i] < k && Decode(nodes, refs[i]) == items[i] {
      IndexInPrefix(items[i], terms, k);
    }
    assert DecodeAll(nodes, refs, k) == items;
  }

  lemma ObjectDecodes(terms: seq<Tree>, k: nat)
    requires Backward(Nodes(terms)) && k < |terms| && terms[k].Object? && ChildrenIn(terms[k], terms[..k]) && DecodeBelow(terms, k)
    ensures Decode(Nodes(terms), k) == terms[k]
  {
    hide IndexOf, Backward;
    var nodes, fields := Nodes(terms), terms[k].fields;
    BackwardAt(nodes, k);
    var entries := nodes[k].entries;
    forall i | 0 <= i < |fields|
      ensures entries[i].key < k && entries[i].value < k
      ensures nodes[entries[i].key] == S(fields[i].key) && Decode(nodes, entries[i].value) == fields[i].value
    {
      IndexInPrefix(KeyTree(fields[i]), terms, k);
      IndexInPrefix(fields[i].value, terms, k);
    }
    assert DecodeEntries(nodes, entries, k) == fields;
  }

  lemma {:induction false} TermDecodes(terms: seq<Tree>, k: nat)
    requires ChildrenFirst(terms) && Backward(Nodes(terms)) && k < |terms|
    ensures Decode(Nodes(terms), k) == terms[k]
    decreases k
  {
    hide IndexOf, Backward;
    assert ChildrenIn(terms[k], terms[..k]);
    hide ChildrenIn;
    forall i | 0 <= i < k ensures Decode(Nodes(terms), i) == terms[i] {
      TermDecodes(terms, i);
    }
    if terms[k].Array? {
      ArrayDecodes(terms, k);
    } else if terms[k].Object? {
      ObjectDecodes(terms, k);
    }
  }

  /** The canonical graph is a well-formed table whose k-th node stands for the k-th term. */
  lemma CanonicalGraphDecodes(t: Tree)
    ensures var g := CanonicalGraph(t);
            && g.nodes == Nodes(Terms(t)) && Backward(g.nodes) && g.root < |g.nodes|
            && Decode(g.nodes, g.root) == t
            && forall k :: 0 <= k < |g.nodes| ==> Decode(g.nodes, k) == Terms(t)[k]
  {
    hide Post, Decode, Backward, NodeOf;
    var terms := Terms(t);
    PostChildrenFirst(t, []);
    TermsBackward(terms);
    TermsEndWithRoot(t);
    assert CanonicalGraph(t).nodes == Nodes(terms);
    forall k | 0 <= k < |terms| ensures Decode(Nodes(terms), k) == terms[k] {
      TermDecodes(terms, k);
    }
  }

  /** An encoded graph has one node for every different part of the value that stays of the emitted one,
      in the order in which parts first occur behind their own parts, and the keys of its objects are in the
      order of a dictionary. */
  lemma EncodedMeans(t: Tree)
    requires Encoded(t).Some?
    ensures var g, kept := Encoded(t).value, Canon(Settled(t));
            && FirstOccurrences(Postorder(kept), Terms(kept)) && |g.nodes| == |Terms(kept)|
            && (forall k :: 0 <= k < |g.nodes| ==> StandsFor(g.nodes, k, Terms(kept)[k]))
            && g.root == |g.nodes| - 1 && StandsFor(g.nodes, g.root, kept)
            && KeysAscend(g.nodes)
  {
    hide Post, Decode, Backward, NodeOf, Canon, StandsFor, FirstOccurrences, KeysAscend;
    var g, kept := Encoded(t).value, Canon(Settled(t));
    CanonicalGraphDecodes(kept);
    TermsMean(kept);
    TermsEndWithRoot(kept);
    CanonIsCanonical(Settled(t));
    CanonicalGraphAscends(kept);
    forall k | 0 <= k < |g.nodes| ensures StandsFor(g.nodes, k, Terms(kept)[k]) {
      DecodeMeans(g.nodes, k, Terms(kept)[k]);
    }
  }

  // ----- Parts of a value -----

  lemma {:induction false} WithinMeasures(x: Tree, t: Tree)
    requires Within(x, t)
    ensures Size(x) <= Size(t) && Depth(x) <= Depth(t)
  {
    if x != t {
      match t
      case Array(items) =>
        var k :| 0 <= k < |items| && Within(x, items[k]);
        WithinMeasures(x, items[k]);
        ItemMeasures(items, k);
      case Object(fields) =>
        var k :| 0 <= k < |fields| && (x == KeyTree(fields[k]) || Within(x, fields[k].value));
        FieldMeasures(fields, k);
        if x != KeyTree(fields[k]) {
          WithinMeasures(x, fields[k].value);
        }
      case _ =>
    }
  }

  lemma {:induction false} ItemMeasures(items: seq<Tree>, k: nat)
    requires k < |items|
    ensures Size(items[k]) <= SizeAll(items) && Depth(items[k]) <= DepthAll(items)
    decreases |items|
  {
    if k > 0 {
      ItemMeasures(items[1..], k - 1);
    }
  }

  lemma {:induction false} FieldMeasures(fields: seq<Field>, k: nat)
    requires k < |fields|
    ensures 1 + Size(fields[k].value) <= SizeFields(fields) && Max(1, Depth(fields[k].value)) <= DepthFields(fields)
    decreases |fields|
  {
    if k > 0 {
      FieldMeasures(fields[1..], k - 1);
    }
  }

  lemma {:induction false} WithinHereditary(x: Tree, t: Tree)
    requires Within(x, t) && Canonical(t) && UniqueKeys(t)
    ensures Canonical(x) && UniqueKeys(x)
  {
    if x != t {
      match t
      case Array(items) =>
        var k :| 0 <= k < |items| && Within(x, items[k]);
        assert items[k] in items;
        WithinHereditary(x, items[k]);
      case Object(fields) =>
        var k :| 0 <= k < |fields| && (x == KeyTree(fields[k]) || Within(x, fields[k].value));
        assert fields[k] in fields;
        if x != KeyTree(fields[k]) {
          WithinHereditary(x, fields[k].value);
        }
      case _ =>
    }
  }

  lemma TermsAreWithin(t: Tree, x: Tree)
    requires x in Terms(t)
    ensures Within(x, t)
  {
    TermsMean(t);
    PartsAreWithin(t, x);
  }

  // ----- Reaching parts -----

  /** A part of a term lies within the term of one of its references. */
  lemma PartBelow(terms: seq<Tree>, k: nat, x: Tree) returns (c: nat)
    requires ChildrenFirst(terms) && k < |terms| && Within(x, terms[k]) && x != terms[k]
    ensures c < k && c in Refs(Nodes(terms)[k]) && Within(x, terms[c])
  {
    var t := terms[k];
    assert ChildrenIn(t, terms[..k]);
    if t.Array? {
      c := ItemBelow(terms, k, x);
    } else {
      c := FieldBelow(terms, k, x);
    }
  }

  lemma ItemBelow(terms: seq<Tree>, k: nat, x: Tree) returns (c: nat)
    requires k < |terms| && terms[k].Array? && ChildrenIn(terms[k], terms[..k]) && Within(x, terms[k]) && x != terms[k]
    ensures c < k && c in Refs(Nodes(terms)[k]) && Within(x, terms[c])
  {
    hide IndexOf;
    var items := terms[k].items;
    var i :| 0 <= i < |items| && Within(x, items[i]);
    hide Within;
    IndexInPrefix(items[i], terms, k);
    c := IndexOf(items[i], terms);
    assert Nodes(terms)[k].items[i] == c;
  }

  lemma FieldBelow(terms: seq<Tree>, k: nat, x: Tree) returns (c: nat)
    requires k < |terms| && terms[k].Object? && ChildrenIn(terms[k], terms[..k]) && Within(x, terms[k]) && x != terms[k]
    ensures c < k && c in Refs(Nodes(terms)[k]) && Within(x, terms[c])
  {
    hide IndexOf, NodeOf;
    var fields := terms[k].fields;
    var i :| 0 <= i < |fields| && (x == KeyTree(fields[i]) || Within(x, fields[i].value));
    IndexInPrefix(KeyTree(fields[i]), terms, k);
    IndexInPrefix(fields[i].value, terms, k);
    FieldRefs(terms, k, i);
    if x == KeyTree(fields[i]) {
      c := IndexOf(KeyTree(fields[i]), terms);
      assert Within(x, x);
    } else {
      c := IndexOf(fields[i].value, terms);
    }
  }

  lemma FieldRefs(terms: seq<Tree>, k: nat, i: nat)
    requires k < |terms| && terms[k].Object? && i < |terms[k].fields|
    ensures IndexOf(KeyTree(terms[k].fields[i]), terms) in Refs(Nodes(terms)[k])
    ensures IndexOf(terms[k].fields[i].value, terms) in Refs(Nodes(terms)[k])
  {
    hide IndexOf;
    var entries := Nodes(terms)[k].entries;
    var refs := EntryRefs(entries);
    assert refs[2 * i] == entries[i].key && refs[2 * i + 1] == entries[i].value;
  }

  /** References lead from a term to each of its parts. */
  lemma {:induction false} PartsReached(terms: seq<Tree>, root: nat, k: nat, x: Tree, j: nat)
    requires ChildrenFirst(terms) && Distinct(terms) && root < |terms| && k < |terms| && j < |terms| && terms[j] == x
    requires Within(x, terms[k]) && Reaches(Nodes(terms), root, k)
    ensures Reaches(Nodes(terms), root, j)
    decreases k
  {
    hide Within, Reaches, Refs, ChildrenFirst;
    if x == terms[k] {
      assert j == k;
    } else {
      var c := PartBelow(terms, k, x);
      ReachesNext(Nodes(terms), root, k, c);
      PartsReached(terms, root, c, x, j);
    }
  }

  lemma CanonicalReached(t: Tree)
    ensures var g := CanonicalGraph(t); AllReached(g.nodes, g.root)
  {
    hide Post, NodeOf, Within, Reaches;
    var g, terms := CanonicalGraph(t), Terms(t);
    CanonicalGraphDecodes(t);
    TermsEndWithRoot(t);
    TermsComplete(t);
    PostChildrenFirst(t, []);
    ReachesSelf(g.nodes, g.root);
    forall j | 0 <= j < |terms| ensures Reaches(g.nodes, g.root, j) {
      TermsAreWithin(t, terms[j]);
      PartsReached(terms, g.root, g.root, terms[j], j);
    }
  }

  // ----- Acceptance of canonical graphs -----

  /** An object node's keys rise exactly when its fields' keys do. */
  lemma KeysRiseDecoded(nodes: seq<Node>, k: nat)
    requires Backward(nodes) && k < |nodes| && nodes[k].O?
    ensures Decode(nodes, k).Object? && (KeysRise(nodes, nodes[k]) <==> Rising(Decode(nodes, k).fields, KeyOf))
  {
    hide Before;
    BackwardAt(nodes, k);
    var entries, fields := nodes[k].entries, Decode(nodes, k).fields;
    assert forall i :: 0 <= i < |entries| ==> B.EntryKey(nodes)(entries[i]) == KeyOf(fields[i]);
  }

  /** In a bounded graph every node decodes to a canonical value without repeated keys. */
  lemma {:induction false} BoundedDecodes(nodes: seq<Node>, k: nat)
    requires Bounded(nodes) && k < |nodes|
    ensures Canonical(Decode(nodes, k)) && UniqueKeys(Decode(nodes, k))
    decreases k
  {
    hide Rising;
    BackwardAt(nodes, k);
    var t := Decode(nodes, k);
    match nodes[k]
    case A(items) =>
      forall x | x in t.items ensures Canonical(x) && UniqueKeys(x) {
        var i :| 0 <= i < |items| && t.items[i] == x;
        BoundedDecodes(nodes, items[i]);
      }
    case O(entries) =>
      assert KeysRise(nodes, nodes[k]);
      KeysRiseDecoded(nodes, k);
      RisingIsUnique(t.fields, KeyOf);
      RisingIsOrdered(t.fields, KeyOf);
      forall f | f in t.fields ensures Canonical(f.value) && UniqueKeys(f.value) {
        var i :| 0 <= i < |entries| && t.fields[i] == f;
        BoundedDecodes(nodes, entries[i].value);
      }
    case _ =>
  }

  lemma RisingIsOrdered<T>(s: seq<T>, key: T -> string)
    requires Rising(s, key)
    ensures Ordered(s, key)
  {
    forall i, j | 0 <= i < j < |s| ensures !Before(key(s[j]), key(s[i])) {
      BeforeTotal(key(s[i]), key(s[j]));
    }
  }

  /** The decoder accepts the canonical graph of a canonical value exactly when the value has no
      repeated keys and its expanded tree is within the limits. */
  lemma CanonicalAccepted(t: Tree)
    requires Canonical(t)
    ensures ValidGraph(CanonicalGraph(t)) <==> UniqueKeys(t) && Size(t) <= MAX_EXPANDED_NODES && Depth(t) <= MAX_DEPTH
  {
    hide Post, NodeOf, Reaches, Decode, Backward, Rising, Within, Canonical, UniqueKeys, CanonicalGraph;
    var g, terms := CanonicalGraph(t), Terms(t);
    CanonicalGraphDecodes(t);
    CanonicalReached(t);
    TermsEndWithRoot(t);
    if ValidGraph(g) {
      BoundedDecodes(g.nodes, g.root);
    }
    if UniqueKeys(t) && Size(t) <= MAX_EXPANDED_NODES && Depth(t) <= MAX_DEPTH {
      forall k | 0 <= k < |g.nodes|
        ensures KeysRise(g.nodes, g.nodes[k])
        ensures Size(Decode(g.nodes, k)) <= MAX_EXPANDED_NODES && Depth(Decode(g.nodes, k)) <= MAX_DEPTH
      {
        TermsAreWithin(t, terms[k]);
        WithinMeasures(terms[k], t);
        WithinHereditary(terms[k], t);
        if g.nodes[k].O? {
          KeysRiseDecoded(g.nodes, k);
          ObjectRises(terms[k]);
        }
      }
      CanonicalRoot(t);
    }
  }

  lemma CanonicalRoot(t: Tree)
    ensures CanonicalGraph(t).root == |CanonicalGraph(t).nodes| - 1
  {
  }

  lemma ObjectRises(t: Tree)
    requires t.Object? && Canonical(t) && UniqueKeys(t)
    ensures Rising(t.fields, KeyOf)
  {
    OrderedUniqueRises(t.fields, KeyOf);
  }

  // ----- The round trip -----

  lemma {:induction false} PostBounded(t: Tree, seen: seq<Tree>)
    ensures |Post(t, seen)| <= |seen| + Size(t)
    decreases t, 1
  {
    match t
    case Array(items) => PostAllBounded(items, seen);
    case Object(fields) => PostFieldsBounded(fields, seen);
    case _ =>
  }

  lemma {:induction false} PostAllBounded(items: seq<Tree>, seen: seq<Tree>)
    ensures |PostAll(items, seen)| <= |seen| + SizeAll(items)
    decreases items, 0
  {
    if items != [] {
      PostBounded(items[0], seen);
      PostAllBounded(items[1..], Post(items[0], seen));
    }
  }

  lemma {:induction false} PostFieldsBounded(fields: seq<Field>, seen: seq<Tree>)
    ensures |PostFields(fields, seen)| <= |seen| + SizeFields(fields)
    decreases fields, 0
  {
    if fields != [] {
      var withKey := PostText(fields[0].key, seen);
      PostBounded(fields[0].value, withKey);
      PostFieldsBounded(fields[1..], Post(fields[0].value, withKey));
    }
  }

  /** What the decoder's limits allow. */
  ghost predicate WithinLimits(t: Tree) {
    UniqueKeys(t) && Size(t) <= MAX_EXPANDED_NODES && Depth(t) <= MAX_DEPTH
  }

  /** Decoding what was encoded gives the value back, fields in key order and all zeros with the
      sign of the first, exactly when no object repeats a key and the expanded tree has at most
      8,500,000 nodes, keys included, and depth at most 128. Otherwise the graph is refused, unless
      there was no graph to begin with. */
  lemma RoundTrip(t: Tree)
    ensures WithinLimits(t) ==> Encoded(t).Some? && Deserialized(Encoded(t).value) == Some(Canon(Settled(t)))
    ensures !WithinLimits(t) && Encoded(t).Some? ==> Deserialized(Encoded(t).value) == None
  {
    hide Terms, CanonicalGraph, ValidGraph, Canonical, UniqueKeys, Settle, FirstZero;
    var c := Canon(Settled(t));
    SettleMeasures(t, FirstZero(t));
    SettleUnique(t, FirstZero(t));
    CanonIsCanonical(Settled(t));
    CanonMeasures(Settled(t));
    CanonUnique(Settled(t));
    CanonicalAccepted(c);
    CanonicalGraphDecodes(c);
    assert |Terms(c)| <= Size(c) by { TermsBounded(c); }
  }

  /** Within the limits, encoding is lossless, up to the order of fields, exactly for values that do
      not hold both zeros; and what it loses is the sign of zeros. */
  lemma LosslessExactly(t: Tree)
    requires WithinLimits(t)
    ensures Encoded(t).Some? && Deserialized(Encoded(t).value).Some?
    ensures var kept := Deserialized(Encoded(t).value).value;
            && (kept == Canon(t) <==> OneZero(t))
            && forall zero :: IsZero(zero) ==> Settle(kept, Some(zero)) == Settle(Canon(t), Some(zero))
  {
    hide Encoded, Deserialized, Settle, Canon, OneZero, WithinLimits;
    RoundTrip(t);
    SettledSortsExactly(t);
    forall zero | IsZero(zero) ensures Settle(Canon(Settled(t)), Some(zero)) == Settle(Canon(t), Some(zero)) {
      SettlingChangesSigns(t, zero);
    }
  }

  /** A list of both zeros comes back as a list of one of them, twice. */
  lemma BothZerosAreNotKept()
    ensures var t := Array([Number(MinusZero), Number(Float(0.0))]);
            && WithinLimits(t) && Encoded(t).Some?
            && Deserialized(Encoded(t).value) == Some(Array([Number(MinusZero), Number(MinusZero)]))
            && Canon(t) == t
  {
    hide Encoded, Deserialized;
    var items := [Number(MinusZero), Number(Float(0.0))];
    var t := Array(items);
    assert items[1..] == [items[1]] && [items[1]][1..] == [];
    assert items[..1] == [items[0]] && [items[0]][..0] == [];
    assert FirstOfAll([items[0]]) == Some(MinusZero);
    assert FirstZero(t) == Some(MinusZero);
    assert CanonAll(items) == items;
    var kept := [Number(MinusZero), Number(MinusZero)];
    assert SettleAll(items, Some(MinusZero)) == kept;
    assert CanonAll(kept) == kept;
    assert SizeAll([items[1]]) == 1 && DepthAll([items[1]]) == 1;
    RoundTrip(t);
  }

  lemma TermsBounded(t: Tree)
    ensures |Terms(t)| <= Size(t)
  {
    PostBounded(t, []);
  }
}
