/** What the codec's graphs, orders and measures mean, told without the functions that compute them: which value a
    node stands for, the list of a value's parts, chains of values inside each other, and keys in the order of a
    dictionary. */
module CodecMeaning {
  import opened Prelude
  import opened CodecTrees
  import opened CodecGraphs
  import opened CodecCanonical

  // ----- What a node stands for -----

  ghost predicate StandsFor(nodes: seq<Node>, id: nat, t: Tree)
    decreases t
  {
    && id < |nodes|
    && match t
       case Null => nodes[id] == N
       case Boolean(b) => nodes[id] == B(b)
       case Number(n) => nodes[id] == I(n)
       case Text(s) => nodes[id] == S(s)
       case Array(items) =>
         && nodes[id].A? && |nodes[id].items| == |items|
         && forall k :: 0 <= k < |items| ==> StandsFor(nodes, nodes[id].items[k], items[k])
       case Object(fields) =>
         && nodes[id].O? && |nodes[id].entries| == |fields|
         && (forall k :: 0 <= k < |fields| ==> NodeIsKey(nodes, nodes[id].entries[k].key, fields[k].key))
         && forall k :: 0 <= k < |fields| ==> StandsFor(nodes, nodes[id].entries[k].value, fields[k].value)
  }

  ghost predicate NodeIsKey(nodes: seq<Node>, id: nat, key: string) {
    id < |nodes| && nodes[id] == S(key)
  }

  /** A node of a well-formed table decodes to the one value it stands for. */
  lemma {:induction false} DecodeMeans(nodes: seq<Node>, id: nat, t: Tree)
    requires Backward(nodes) && id < |nodes|
    ensures Decode(nodes, id) == t <==> StandsFor(nodes, id, t)
    decreases t
  {
    BackwardAt(nodes, id);
    match t
    case Array(items) => ArrayMeans(nodes, id, items);
    case Object(fields) => ObjectMeans(nodes, id, fields);
    case _ =>
  }

  lemma {:induction false} ArrayMeans(nodes: seq<Node>, id: nat, items: seq<Tree>)
    requires Backward(nodes) && id < |nodes| && NodeBackward(nodes, nodes[id], id)
    ensures Decode(nodes, id) == Array(items) <==> StandsFor(nodes, id, Array(items))
    decreases items
  {
    hide Backward, StandsFor;
    if nodes[id].A? && |nodes[id].items| == |items| {
      var refs := nodes[id].items;
      forall k | 0 <= k < |items| ensures Decode(nodes, refs[k]) == items[k] <==> StandsFor(nodes, refs[k], items[k]) {
        DecodeMeans(nodes, refs[k], items[k]);
      }
      assert DecodeAll(nodes, refs, id) == items <==> forall k :: 0 <= k < |items| ==> DecodeAll(nodes, refs, id)[k] == items[k];
    }
    hide DecodeAll;
    ArrayStands(nodes, id, items);
  }

  lemma ArrayStands(nodes: seq<Node>, id: nat, items: seq<Tree>)
    requires id < |nodes|
    ensures StandsFor(nodes, id, Array(items)) <==>
              && nodes[id].A? && |nodes[id].items| == |items|
              && forall k :: 0 <= k < |items| ==> StandsFor(nodes, nodes[id].items[k], items[k])
  {
  }

  lemma {:induction false} ObjectMeans(nodes: seq<Node>, id: nat, fields: seq<Field>)
    requires Backward(nodes) && id < |nodes| && NodeBackward(nodes, nodes[id], id)
    ensures Decode(nodes, id) == Object(fields) <==> StandsFor(nodes, id, Object(fields))
    decreases fields
  {
    hide Backward, StandsFor;
    if nodes[id].O? && |nodes[id].entries| == |fields| {
      var entries := nodes[id].entries;
      var decoded := DecodeEntries(nodes, entries, id);
      forall k | 0 <= k < |fields|
        ensures decoded[k] == fields[k] <==>
                  NodeIsKey(nodes, entries[k].key, fields[k].key) && StandsFor(nodes, entries[k].value, fields[k].value)
      {
        DecodeMeans(nodes, entries[k].value, fields[k].value);
      }
      assert decoded == fields <==> forall k :: 0 <= k < |fields| ==> decoded[k] == fields[k];
    }
    hide DecodeEntries;
    ObjectStands(nodes, id, fields);
  }

  lemma ObjectStands(nodes: seq<Node>, id: nat, fields: seq<Field>)
    requires id < |nodes|
    ensures StandsFor(nodes, id, Object(fields)) <==>
              && nodes[id].O? && |nodes[id].entries| == |fields|
              && forall k :: 0 <= k < |fields| ==>
                   NodeIsKey(nodes, nodes[id].entries[k].key, fields[k].key) && StandsFor(nodes, nodes[id].entries[k].value, fields[k].value)
  {
  }

  /** What a node refers to. */
  ghost predicate Names(n: Node, r: nat) {
    match n
    case A(items) => r in items
    case O(entries) => exists e :: e in entries && (r == e.key || r == e.value)
    case _ => false
  }

  lemma {:induction false} RefsMean(n: Node, r: nat)
    ensures r in Refs(n) <==> Names(n, r)
  {
    if n.O? {
      var refs := EntryRefs(n.entries);
      if r in refs {
        var k :| 0 <= k < |refs| && refs[k] == r;
        var e := n.entries[k / 2];
        assert k == 2 * (k / 2) || k == 2 * (k / 2) + 1;
        assert e in n.entries;
      }
      if Names(n, r) {
        var e :| e in n.entries && (r == e.key || r == e.value);
        var k :| 0 <= k < |n.entries| && n.entries[k] == e;
        assert refs[2 * k] in refs && refs[2 * k + 1] in refs;
      }
    }
  }

  // ----- The parts of a value -----

  /** Every part of a value, as often as it occurs, each after its own parts and each key before the
      value under it. */
  ghost function Postorder(t: Tree): seq<Tree>
    decreases t, 1
  {
    match t
    case Array(items) => PostorderAll(items) + [t]
    case Object(fields) => PostorderFields(fields) + [t]
    case _ => [t]
  }

  ghost function PostorderAll(items: seq<Tree>): seq<Tree>
    decreases items, 0
  {
    if items == [] then [] else Postorder(items[0]) + PostorderAll(items[1..])
  }

  ghost function PostorderFields(fields: seq<Field>): seq<Tree>
    decreases fields, 0
  {
    if fields == [] then [] else [Text(fields[0].key)] + Postorder(fields[0].value) + PostorderFields(fields[1..])
  }

  /** The size of a value is the number of its parts, as often as they occur. */
  lemma {:induction false} SizeMeans(t: Tree)
    ensures Size(t) == |Postorder(t)|
    decreases t, 1
  {
    match t
    case Array(items) => SizeAllMeans(items);
    case Object(fields) => SizeFieldsMeans(fields);
    case _ =>
  }

  lemma {:induction false} SizeAllMeans(items: seq<Tree>)
    ensures SizeAll(items) == |PostorderAll(items)|
    decreases items, 0
  {
    if items != [] {
      SizeMeans(items[0]);
      SizeAllMeans(items[1..]);
    }
  }

  lemma {:induction false} SizeFieldsMeans(fields: seq<Field>)
    ensures SizeFields(fields) == |PostorderFields(fields)|
    decreases fields, 0
  {
    if fields != [] {
      SizeMeans(fields[0].value);
      SizeFieldsMeans(fields[1..]);
    }
  }

  /** A list without repetitions, after what was seen before. */
  ghost function AddNew(seen: seq<Tree>, s: seq<Tree>): seq<Tree> {
    if s == [] then seen
    else
      var before := AddNew(seen, s[..|s| - 1]);
      if s[|s| - 1] in before then before else before + [s[|s| - 1]]
  }

  lemma {:induction false} AddNewAppend(seen: seq<Tree>, a: seq<Tree>, b: seq<Tree>)
    ensures AddNew(seen, a + b) == AddNew(AddNew(seen, a), b)
    decreases |b|
  {
    if b == [] {
      assert a + b == a;
    } else {
      assert (a + b)[..|a + b| - 1] == a + b[..|b| - 1];
      AddNewAppend(seen, a, b[..|b| - 1]);
    }
  }

  lemma AddOne(seen: seq<Tree>, t: Tree)
    ensures AddNew(seen, [t]) == if t in seen then seen else seen + [t]
  {
    assert [t][..0] == [];
    assert AddNew(seen, []) == seen;
  }

  lemma {:induction false} AddNothing(seen: seq<Tree>, s: seq<Tree>)
    requires forall x :: x in s ==> x in seen
    ensures AddNew(seen, s) == seen
  {
    if s != [] {
      AddNothing(seen, s[..|s| - 1]);
    }
  }

  /** Each part of a value is among its parts. */
  lemma {:induction false} PartsAreWithin(t: Tree, x: Tree)
    requires x in Postorder(t)
    ensures Within(x, t)
    decreases t, 1
  {
    match t
    case Array(items) =>
      if x != t {
        var k := PartOfItems(items, x);
      }
    case Object(fields) =>
      if x != t {
        var k := PartOfFields(fields, x);
      }
    case _ =>
  }

  lemma {:induction false} PartOfItems(items: seq<Tree>, x: Tree) returns (k: nat)
    requires x in PostorderAll(items)
    ensures k < |items| && Within(x, items[k])
    decreases items, 0
  {
    if x in Postorder(items[0]) {
      PartsAreWithin(items[0], x);
      k := 0;
    } else {
      var j := PartOfItems(items[1..], x);
      k := j + 1;
    }
  }

  lemma {:induction false} PartOfFields(fields: seq<Field>, x: Tree) returns (k: nat)
    requires x in PostorderFields(fields)
    ensures k < |fields| && (x == KeyTree(fields[k]) || Within(x, fields[k].value))
    decreases fields, 0
  {
    if x == Text(fields[0].key) {
      k := 0;
    } else if x in Postorder(fields[0].value) {
      PartsAreWithin(fields[0].value, x);
      k := 0;
    } else {
      var j := PartOfFields(fields[1..], x);
      k := j + 1;
    }
  }

  lemma {:induction false} PostAddsNew(t: Tree, seen: seq<Tree>)
    requires Closed(seen)
    ensures Post(t, seen) == AddNew(seen, Postorder(t))
    decreases t, 1
  {
    hide Closed, Collects, Within, AddNew;
    if t in seen {
      forall x | x in Postorder(t) ensures x in seen {
        PartsAreWithin(t, x);
        ClosedUnder(seen, x, t);
      }
      AddNothing(seen, Postorder(t));
    } else {
      NotYet(t, seen);
      match t
      case Array(items) =>
        PostAllAddsNew(items, seen);
        AddNewAppend(seen, PostorderAll(items), [t]);
        AddOne(PostAll(items, seen), t);
      case Object(fields) =>
        PostFieldsAddsNew(fields, seen);
        AddNewAppend(seen, PostorderFields(fields), [t]);
        AddOne(PostFields(fields, seen), t);
      case _ =>
        AddOne(seen, t);
    }
  }

  lemma ClosedUnder(s: seq<Tree>, x: Tree, y: Tree)
    requires Closed(s) && y in s && Within(x, y)
    ensures x in s
  {
    hide Within;
  }

  lemma StaysClosed(before: seq<Tree>, after: seq<Tree>)
    requires Collects(before, after) && Closed(before)
    ensures Closed(after)
  {
    hide Closed;
  }

  lemma {:induction false} PostAllAddsNew(items: seq<Tree>, seen: seq<Tree>)
    requires Closed(seen)
    ensures PostAll(items, seen) == AddNew(seen, PostorderAll(items))
    decreases items, 0
  {
    hide Closed, Collects, AddNew, Post, Postorder;
    if items == [] {
      AddNothing(seen, []);
    } else {
      PostAddsNew(items[0], seen);
      PostCollects(items[0], seen);
      StaysClosed(seen, Post(items[0], seen));
      PostAllAddsNew(items[1..], Post(items[0], seen));
      AddNewAppend(seen, Postorder(items[0]), PostorderAll(items[1..]));
    }
  }

  lemma {:induction false} PostFieldsAddsNew(fields: seq<Field>, seen: seq<Tree>)
    requires Closed(seen)
    ensures PostFields(fields, seen) == AddNew(seen, PostorderFields(fields))
    decreases fields, 0
  {
    hide Closed, Collects, AddNew, Post, Postorder;
    if fields == [] {
      AddNothing(seen, []);
    } else {
      var key, value := Text(fields[0].key), fields[0].value;
      AddOne(seen, key);
      var withKey := PostText(fields[0].key, seen);
      TextCollects(fields[0].key, seen);
      StaysClosed(seen, withKey);
      PostAddsNew(value, withKey);
      PostCollects(value, withKey);
      StaysClosed(withKey, Post(value, withKey));
      PostFieldsAddsNew(fields[1..], Post(value, withKey));
      AddNewAppend(seen, [key], Postorder(value));
      AddNewAppend(seen, [key] + Postorder(value), PostorderFields(fields[1..]));
    }
  }

  /** Each element of a list once, in the order in which they first occur in it. */
  ghost predicate FirstOccurrences(s: seq<Tree>, firsts: seq<Tree>) {
    && Distinct(firsts)
    && (forall x :: x in firsts <==> x in s)
    && forall i, j, p :: 0 <= i < j < |firsts| && 0 <= p < |s| && s[p] == firsts[j] ==> firsts[i] in s[..p]
  }

  lemma {:induction false} AddNewKeepsFirst(s: seq<Tree>)
    ensures FirstOccurrences(s, AddNew([], s))
  {
    if s != [] {
      var n := |s| - 1;
      var before, last := AddNew([], s[..n]), s[n];
      AddNewKeepsFirst(s[..n]);
      assert s == s[..n] + [last];
      if last !in before {
        DistinctAppend(before, [last]);
      }
      var firsts := AddNew([], s);
      forall i, j, p | 0 <= i < j < |firsts| && 0 <= p < |s| && s[p] == firsts[j] ensures firsts[i] in s[..p] {
        assert firsts[i] in before by { assert firsts[i] == before[i]; }
        if p < n {
          assert s[..n][..p] == s[..p] && s[..n][p] == s[p];
          assert j < |before| && before[j] == firsts[j] by {
            assert s[p] in before;
          }
        }
      }
    }
  }

  /** The terms of a value are its parts, each once, in the order in which they first occur. */
  lemma TermsMean(t: Tree)
    ensures FirstOccurrences(Postorder(t), Terms(t))
  {
    hide FirstOccurrences, Postorder, Post;
    assert Closed([]);
    PostAddsNew(t, []);
    AddNewKeepsFirst(Postorder(t));
  }

  // ----- Chains -----

  ghost predicate PartOf(x: Tree, t: Tree) {
    match t
    case Array(items) => x in items
    case Object(fields) => exists f :: f in fields && (x == Text(f.key) || x == f.value)
    case _ => false
  }

  /** Values each of which is directly inside the one before it; a key is inside its object. */
  ghost predicate Chain(t: Tree, p: seq<Tree>) {
    p != [] && p[0] == t && forall k :: 0 < k < |p| ==> PartOf(p[k], p[k - 1])
  }

  lemma {:induction false} ItemsDepth(items: seq<Tree>)
    ensures forall x :: x in items ==> Depth(x) <= DepthAll(items)
    ensures items != [] ==> exists x :: x in items && Depth(x) == DepthAll(items)
    decreases |items|
  {
    if items != [] {
      ItemsDepth(items[1..]);
      assert items[0] in items;
      assert items == [items[0]] + items[1..];
      if items[1..] != [] && Depth(items[0]) < DepthAll(items[1..]) {
        var x :| x in items[1..] && Depth(x) == DepthAll(items[1..]);
        assert x in items;
      } else {
        assert Depth(items[0]) == DepthAll(items);
      }
    }
  }

  lemma {:induction false} FieldsDepth(fields: seq<Field>)
    ensures forall f :: f in fields ==> 1 <= Depth(f.value) <= DepthFields(fields)
    ensures fields != [] ==> exists f :: f in fields && Depth(f.value) == DepthFields(fields)
    decreases |fields|
  {
    if fields != [] {
      FieldsDepth(fields[1..]);
      assert fields[0] in fields;
      assert fields == [fields[0]] + fields[1..];
      assert Depth(fields[0].value) >= 1;
      if fields[1..] != [] && Depth(fields[0].value) < DepthFields(fields[1..]) {
        var f :| f in fields[1..] && Depth(f.value) == DepthFields(fields[1..]);
        assert f in fields;
      } else {
        assert Depth(fields[0].value) == DepthFields(fields);
      }
    }
  }

  lemma PartIsShallower(x: Tree, t: Tree)
    requires PartOf(x, t)
    ensures Depth(x) < Depth(t)
  {
    match t
    case Array(items) => ItemsDepth(items);
    case Object(fields) => FieldsDepth(fields);
    case _ =>
  }

  lemma DeepestPart(t: Tree) returns (x: Tree)
    requires Depth(t) > 1
    ensures PartOf(x, t) && Depth(x) == Depth(t) - 1
  {
    match t
    case Array(items) =>
      ItemsDepth(items);
      x :| x in items && Depth(x) == DepthAll(items);
    case Object(fields) =>
      FieldsDepth(fields);
      var f :| f in fields && Depth(f.value) == DepthFields(fields);
      x := f.value;
    case _ =>
  }

  lemma {:induction false} ChainsAreBounded(t: Tree, p: seq<Tree>)
    requires Chain(t, p)
    ensures |p| <= Depth(t)
    decreases |p|
  {
    assert Depth(t) >= 1;
    if |p| > 1 {
      assert PartOf(p[1], p[0]);
      PartIsShallower(p[1], t);
      assert forall k :: 0 < k < |p[1..]| ==> p[1..][k] == p[k + 1] && p[1..][k - 1] == p[k];
      ChainsAreBounded(p[1], p[1..]);
    }
  }

  lemma {:induction false} DeepestChain(t: Tree) returns (p: seq<Tree>)
    ensures Chain(t, p) && |p| == Depth(t)
    decreases Depth(t)
  {
    if Depth(t) <= 1 {
      p := [t];
      assert Depth(t) == 1;
    } else {
      var x := DeepestPart(t);
      var rest := DeepestChain(x);
      p := [t] + rest;
      forall k | 0 < k < |p| ensures PartOf(p[k], p[k - 1]) {
        if k > 1 {
          assert p[k] == rest[k - 1] && p[k - 1] == rest[k - 2];
        }
      }
    }
  }

  /** The depth of a value is the length of its longest chain. */
  lemma DepthMeans(t: Tree, limit: nat)
    ensures Depth(t) <= limit <==> forall p :: Chain(t, p) ==> |p| <= limit
  {
    hide Depth;
    forall p | Chain(t, p) ensures |p| <= Depth(t) {
      ChainsAreBounded(t, p);
    }
    var longest := DeepestChain(t);
  }

  // ----- Keys of a graph -----

  /** The keys of an object are strings of the table, in the order of a dictionary. */
  ghost predicate EntriesAscend(nodes: seq<Node>, entries: seq<Entry>) {
    && (forall i :: 0 <= i < |entries| ==> entries[i].key < |nodes| && nodes[entries[i].key].S?)
    && forall i, j :: 0 <= i < j < |entries| ==>
         var a, b := nodes[entries[i].key].s, nodes[entries[j].key].s;
         a == b || Lexicographic(a, b)
  }

  ghost predicate KeysAscend(nodes: seq<Node>) {
    forall k :: 0 <= k < |nodes| && nodes[k].O? ==> EntriesAscend(nodes, nodes[k].entries)
  }

  /** Every part of a sorted value is sorted. */
  lemma {:induction false} PartsAreCanonical(t: Tree, x: Tree)
    requires Canonical(t) && Within(x, t)
    ensures Canonical(x)
    decreases t
  {
    if x != t {
      match t
      case Array(items) =>
        var k :| 0 <= k < |items| && Within(x, items[k]);
        assert items[k] in items;
        PartsAreCanonical(items[k], x);
      case Object(fields) =>
        var k :| 0 <= k < |fields| && (x == KeyTree(fields[k]) || Within(x, fields[k].value));
        assert fields[k] in fields;
        if x != KeyTree(fields[k]) {
          PartsAreCanonical(fields[k].value, x);
        }
    }
  }

  /** The canonical graph of a sorted value has its keys in the order of a dictionary. */
  lemma CanonicalGraphAscends(t: Tree)
    requires Canonical(t)
    ensures KeysAscend(CanonicalGraph(t).nodes)
  {
    hide Canonical, Within, Post, Postorder, EntriesAscend;
    var terms, nodes := Terms(t), CanonicalGraph(t).nodes;
    TermsMean(t);
    TermsComplete(t);
    forall k | 0 <= k < |nodes| && nodes[k].O? ensures EntriesAscend(nodes, nodes[k].entries) {
      assert terms[k] in terms;
      PartsAreWithin(t, terms[k]);
      PartsAreCanonical(t, terms[k]);
      var fields := terms[k].fields;
      forall i | 0 <= i < |fields| ensures KeyTree(fields[i]) in terms {
        KeyIsWithin(t, terms[k], i);
      }
      ObjectNodeAscends(t, k);
    }
  }

  lemma {:induction false} WithinTrans(x: Tree, y: Tree, t: Tree)
    requires Within(x, y) && Within(y, t)
    ensures Within(x, t)
    decreases t
  {
    if y != t {
      match t
      case Array(items) =>
        var k :| 0 <= k < |items| && Within(y, items[k]);
        WithinTrans(x, y, items[k]);
      case Object(fields) =>
        var k :| 0 <= k < |fields| && (y == KeyTree(fields[k]) || Within(y, fields[k].value));
        if y != KeyTree(fields[k]) {
          WithinTrans(x, y, fields[k].value);
        }
    }
  }

  lemma KeyIsWithin(t: Tree, y: Tree, i: nat)
    requires Within(y, t) && y.Object? && i < |y.fields|
    ensures Within(KeyTree(y.fields[i]), t)
  {
    WithinTrans(KeyTree(y.fields[i]), y, t);
  }

  lemma ObjectNodeAscends(t: Tree, k: nat)
    requires k < |Terms(t)| && Terms(t)[k].Object? && Canonical(Terms(t)[k])
    requires forall i :: 0 <= i < |Terms(t)[k].fields| ==> KeyTree(Terms(t)[k].fields[i]) in Terms(t)
    ensures var nodes := CanonicalGraph(t).nodes; nodes[k].O? && EntriesAscend(nodes, nodes[k].entries)
  {
    hide Terms, Lexicographic;
    var terms, nodes := Terms(t), CanonicalGraph(t).nodes;
    var fields, entries := terms[k].fields, nodes[k].entries;
    forall i | 0 <= i < |fields| ensures entries[i].key < |nodes| && nodes[entries[i].key] == S(fields[i].key) {
      assert terms[IndexOf(KeyTree(fields[i]), terms)] == KeyTree(fields[i]);
    }
    OrderedMeans(fields, KeyOf);
    forall i, j | 0 <= i < j < |entries|
      ensures var a, b := nodes[entries[i].key].s, nodes[entries[j].key].s; a == b || Lexicographic(a, b)
    {
      assert KeyOf(fields[i]) == KeyOf(fields[j]) || Lexicographic(KeyOf(fields[i]), KeyOf(fields[j]));
    }
  }
}
