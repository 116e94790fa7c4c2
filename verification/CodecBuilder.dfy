/** Interning: equal nodes share one id, whatever hash function fills the buckets. The two zeros are
    equal, so the zero that comes first stands for both. */
module CodecBuilder {
  import opened Prelude
  import opened CodecTrees
  import opened CodecGraphs
  import opened CodecCanonical
  import opened CodecMeaning
  import opened CodecEmission
  import opened CodecZeros

  /** The references that a new node may hold. */
  ghost predicate Fits(nodes: seq<Node>, n: Node) {
    NodeBackward(nodes, n, |nodes|)
  }

  lemma BackwardAppend(nodes: seq<Node>, n: Node)
    requires Backward(nodes) && Fits(nodes, n)
    ensures Backward(nodes + [n])
  {
    var more := nodes + [n];
    forall k | 0 <= k < |more| ensures NodeBackward(more, more[k], k) {
      if k < |nodes| {
        assert more[k] == nodes[k] && NodeBackward(nodes, nodes[k], k);
      }
    }
  }

  /** What `finish` sorts by: the string under an entry's key. */
  function EntryKey(nodes: seq<Node>): Entry -> string {
    (e: Entry) => if e.key < |nodes| && nodes[e.key].S? then nodes[e.key].s else ""
  }

  /** Sorting entries by the strings of their keys is sorting the fields they decode to. */
  lemma SortedEntriesDecode(nodes: seq<Node>, entries: seq<Entry>, bound: nat)
    requires Backward(nodes) && EntriesBelow(nodes, entries, bound)
    ensures EntriesBelow(nodes, SortBy(entries, EntryKey(nodes)), bound)
    ensures DecodeEntries(nodes, SortBy(entries, EntryKey(nodes)), bound) == SortBy(DecodeEntries(nodes, entries, bound), KeyOf)
  {
    hide Decode, Backward, SortBy, Before;
    var fields := DecodeEntries(nodes, entries, bound);
    var f := (e: Entry) =>
      if Backward(nodes) && e.key < |nodes| && nodes[e.key].S? && e.value < |nodes| then
        Field(nodes[e.key].s, Decode(nodes, e.value)) else Field("", Null);
    var sorted := SortBy(entries, EntryKey(nodes));
    SortMembers(entries, EntryKey(nodes));
    forall k | 0 <= k < |sorted| ensures sorted[k].key < bound && sorted[k].value < bound && nodes[sorted[k].key].S? {
      assert sorted[k] in entries;
    }
    SortMaps(entries, EntryKey(nodes), fields, KeyOf, f);
    assert DecodeEntries(nodes, sorted, bound) == SortBy(fields, KeyOf);
  }

  // ----- Equality of nodes -----

  /** Nodes are equal, and hash alike, when they differ in the sign of zero at most. */
  function Unsigned(node: Node): Node {
    if node.I? && IsZero(node.n) then I(Float(0.0)) else node
  }

  ghost predicate Different(nodes: seq<Node>) {
    forall i, j :: 0 <= i < j < |nodes| ==> Unsigned(nodes[i]) != Unsigned(nodes[j])
  }

  lemma DifferentIsDistinct(nodes: seq<Node>)
    requires Different(nodes)
    ensures Distinct(nodes)
  {
  }

  /** The zero in a table, if it has one. */
  ghost function ZeroOf(nodes: seq<Node>): (r: Option<Num>)
    ensures r.Some? ==> IsZero(r.value)
  {
    if I(Float(0.0)) in nodes then Some(Float(0.0)) else if I(MinusZero) in nodes then Some(MinusZero) else None
  }

  function NodeZero(node: Node): Option<Num> {
    if node.I? && IsZero(node.n) then Some(node.n) else None
  }

  /** The node that stands for this one in a table whose zero is given. */
  function KeptNode(node: Node, zero: Option<Num>): Node {
    if node.I? then I(SettleNum(node.n, zero)) else node
  }

  /** What a table has for a node it holds an equal of. */
  lemma FoundNode(nodes: seq<Node>, id: nat, node: Node)
    requires Different(nodes) && id < |nodes| && Unsigned(nodes[id]) == Unsigned(node)
    ensures nodes[id] == KeptNode(node, ZeroOf(nodes)) && ZeroOf(nodes) == Or(ZeroOf(nodes), NodeZero(node))
  {
    if NodeZero(node).Some? {
      assert nodes[id] in nodes;
      forall z | IsZero(z) && I(z) in nodes ensures I(z) == nodes[id] {
        var k :| 0 <= k < |nodes| && nodes[k] == I(z);
        assert Unsigned(nodes[k]) == Unsigned(nodes[id]);
      }
    }
  }

  /** What a table becomes by a node it holds no equal of. */
  lemma NewNode(nodes: seq<Node>, node: Node)
    requires Different(nodes) && forall k :: 0 <= k < |nodes| ==> Unsigned(nodes[k]) != Unsigned(node)
    ensures Different(nodes + [node])
    ensures ZeroOf(nodes + [node]) == Or(ZeroOf(nodes), NodeZero(node)) && node == KeptNode(node, ZeroOf(nodes + [node]))
  {
    assert forall n :: n in nodes + [node] <==> n in nodes || n == node;
    if NodeZero(node).Some? {
      forall z | IsZero(z) ensures I(z) !in nodes {
        assert Unsigned(I(z)) == Unsigned(node);
      }
    }
  }

  /** Every node's id is in the bucket of its hash, and buckets hold nothing but ids. */
  ghost predicate Indexed(hash: Node -> nat, nodes: seq<Node>, ids: map<nat, seq<nat>>) {
    && (forall k :: 0 <= k < |nodes| ==> hash(Unsigned(nodes[k])) in ids && k in ids[hash(Unsigned(nodes[k]))])
    && (forall h, k :: h in ids && 0 <= k < |ids[h]| ==> ids[h][k] < |nodes|)
  }

  lemma BucketFits(hash: Node -> nat, nodes: seq<Node>, ids: map<nat, seq<nat>>, h: nat)
    requires Indexed(hash, nodes, ids)
    ensures h in ids ==> forall k :: 0 <= k < |ids[h]| ==> ids[h][k] < |nodes|
  {
  }

  lemma NotInBucket(hash: Node -> nat, nodes: seq<Node>, ids: map<nat, seq<nat>>, node: Node, bucket: seq<nat>)
    requires Indexed(hash, nodes, ids) && bucket == if hash(Unsigned(node)) in ids then ids[hash(Unsigned(node))] else []
    requires forall j :: 0 <= j < |bucket| ==> bucket[j] < |nodes| && Unsigned(nodes[bucket[j]]) != Unsigned(node)
    ensures forall k :: 0 <= k < |nodes| ==> Unsigned(nodes[k]) != Unsigned(node)
  {
    hide Unsigned;
    forall k | 0 <= k < |nodes| ensures Unsigned(nodes[k]) != Unsigned(node) {
      if hash(Unsigned(nodes[k])) == hash(Unsigned(node)) {
        var j :| 0 <= j < |bucket| && bucket[j] == k;
      }
    }
  }

  lemma IndexedAppend(hash: Node -> nat, nodes: seq<Node>, ids: map<nat, seq<nat>>, node: Node)
    requires Indexed(hash, nodes, ids)
    ensures var h := hash(Unsigned(node));
            var bucket := if h in ids then ids[h] else [];
            Indexed(hash, nodes + [node], ids[h := bucket + [|nodes|]])
  {
    hide Unsigned;
    var h := hash(Unsigned(node));
    var bucket := if h in ids then ids[h] else [];
    var more, ids' := nodes + [node], ids[h := bucket + [|nodes|]];
    assert ids'[h][|bucket|] == |nodes|;
    forall k | 0 <= k < |more| ensures hash(Unsigned(more[k])) in ids' && k in ids'[hash(Unsigned(more[k]))] {
      if k < |nodes| {
        assert more[k] == nodes[k];
        assert k in ids[hash(Unsigned(nodes[k]))];
      }
    }
  }

  class Builder {
    var nodes: seq<Node>
    var ids: map<nat, seq<nat>>
    const hash: Node -> nat

    constructor (hash: Node -> nat)
      ensures Valid() && nodes == [] && this.hash == hash
    {
      this.hash := hash;
      nodes, ids := [], map[];
    }

    ghost predicate Valid()
      reads this
    {
      Backward(nodes) && Different(nodes) && Indexed(hash, nodes, ids)
    }

    /** The id of a node: an old one if an equal node is known, else the next. */
    method Intern(node: Node) returns (id: nat)
      requires Valid() && Fits(nodes, node)
      modifies this
      ensures Valid() && id < |nodes| && nodes[id] == KeptNode(node, ZeroOf(nodes))
      ensures nodes == if nodes[id] in old(nodes) then old(nodes) else old(nodes) + [nodes[id]]
      ensures nodes[id] !in old(nodes) ==> id == |old(nodes)|
      ensures ZeroOf(nodes) == Or(ZeroOf(old(nodes)), NodeZero(node))
    {
      hide Backward, Fits, Different, Indexed, Unsigned, ZeroOf, NodeZero, KeptNode, Or;
      var h := hash(Unsigned(node));
      var bucket := if h in ids then ids[h] else [];
      BucketFits(hash, nodes, ids, h);
      for k := 0 to |bucket|
        invariant forall j :: 0 <= j < k ==> Unsigned(nodes[bucket[j]]) != Unsigned(node)
      {
        if Unsigned(nodes[bucket[k]]) == Unsigned(node) {
          FoundNode(nodes, bucket[k], node);
          return bucket[k];
        }
      }
      NotInBucket(hash, nodes, ids, node, bucket);
      BackwardAppend(nodes, node);
      NewNode(nodes, node);
      IndexedAppend(hash, nodes, ids, node);
      id := |nodes|;
      ids := ids[h := bucket + [id]];
      nodes := nodes + [node];
    }

    /** Walks a value in emission order and returns the id of its root, or the first error. */
    method Serialize(e: Emitted) returns (r: Result<nat, EmitError>)
      requires Valid()
      modifies this
      ensures Valid() && old(nodes) <= nodes
      ensures match TreeOf(e)
              case Err(x) => r == Err(x)
              case Ok(t) => r.Ok? && Encodes(old(nodes), nodes, r.value, t)
      decreases e, 1
    {
      hide Backward, Encodes, TreesOf, FieldsOf;
      match e
      case Unit => r := SerializeLeaf(N);
      case Flag(b) => r := SerializeLeaf(B(b));
      case Whole(n) => r := SerializeLeaf(I(Integer(n)));
      case Wide(n) =>
        if !InRange(n) {
          return Err(OutsideRange);
        }
        r := SerializeLeaf(I(Integer(n)));
      case Real(finite) => r := SerializeLeaf(if finite.Some? then I(Float(finite.value)) else N);
      case NegativeZero => r := SerializeLeaf(I(MinusZero));
      case Str(s) => r := SerializeLeaf(S(s));
      case Items(items) => r := SerializeItems(items);
      case Mapping(pairs) => r := SerializePairs(pairs);
      case Variant(name, value) => r := SerializeVariant(name, value);
    }

    method SerializeLeaf(node: Node) returns (r: Result<nat, EmitError>)
      requires Valid() && !node.A? && !node.O?
      modifies this
      ensures Valid() && r.Ok? && Encodes(old(nodes), nodes, r.value, LeafTree(node)) && old(nodes) <= nodes
    {
      hide Backward, Within, ZeroOf;
      var id := Intern(node);
      LeafAdded(old(nodes), nodes, id);
      r := Ok(id);
    }

    method SerializeItems(items: seq<Emitted>) returns (r: Result<nat, EmitError>)
      requires Valid()
      modifies this
      ensures Valid() && old(nodes) <= nodes
      ensures match TreesOf(items)
              case Err(x) => r == Err(x)
              case Ok(trees) => r.Ok? && Encodes(old(nodes), nodes, r.value, Array(trees))
      decreases items, 0
    {
      hide Backward, Added, ItemsAdded, Canon, CanonAll, Settle, SettleAll, FirstZero, FirstOfAll, TreeOf, ZeroOf;
      var values := [];
      ghost var trees: seq<Tree> := [];
      NoItemsAdded(nodes);
      NoTrees(ZeroOf(nodes));
      for k := 0 to |items|
        invariant Valid() && TreesOf(items[..k]) == Ok(trees) && old(nodes) <= nodes
        invariant ZeroOf(nodes) == Or(ZeroOf(old(nodes)), FirstOfAll(trees))
        invariant ItemsAdded(old(nodes), nodes, values, CanonAll(SettleAll(trees, ZeroOf(nodes))))
      {
        ghost var before := nodes;
        assert items[..k + 1][..k] == items[..k];
        var value := Serialize(items[k]);
        if value.Err? {
          TreesStop(items, k + 1);
          return Err(value.error);
        }
        ghost var t := TreeOf(items[k]).value;
        NextTree(trees, t, ZeroOf(before), ZeroOf(nodes));
        ItemsStep(old(nodes), before, nodes, values, CanonAll(SettleAll(trees, ZeroOf(nodes))), value.value, Canon(Settle(t, ZeroOf(nodes))));
        values := values + [value.value];
        trees := trees + [t];
      }
      assert items[..|items|] == items;
      ghost var before := nodes;
      ItemsFit(old(nodes), before, values, CanonAll(SettleAll(trees, ZeroOf(nodes))));
      var id := Intern(A(values));
      ItemsFinish(old(nodes), before, nodes, values, CanonAll(SettleAll(trees, ZeroOf(nodes))), id);
      ArrayEncodes(old(nodes), nodes, id, trees);
      r := Ok(id);
    }

    method SerializePairs(pairs: seq<Pair>) returns (r: Result<nat, EmitError>)
      requires Valid()
      modifies this
      ensures Valid() && old(nodes) <= nodes
      ensures match FieldsOf(pairs)
              case Err(x) => r == Err(x)
              case Ok(fields) => r.Ok? && Encodes(old(nodes), nodes, r.value, Object(fields))
      decreases pairs, 0
    {
      hide Backward, Added, EntriesAdded, Different, Indexed, CanonFields, SettleFields, FirstOfFields, FirstZero, FieldOf, ZeroOf, Encodes;
      var entries := [];
      ghost var fields: seq<Field> := [];
      NoEntriesAdded(nodes);
      NoFields(ZeroOf(nodes));
      for k := 0 to |pairs|
        invariant Valid() && FieldsOf(pairs[..k]) == Ok(fields) && old(nodes) <= nodes
        invariant ZeroOf(nodes) == Or(ZeroOf(old(nodes)), FirstOfFields(fields))
        invariant EntriesAdded(old(nodes), nodes, entries, CanonFields(SettleFields(fields, ZeroOf(nodes))))
      {
        assert pairs[..k + 1][..k] == pairs[..k];
        var entry := SerializePair(old(nodes), entries, fields, pairs[k]);
        if entry.Err? {
          FieldsStop(pairs, k + 1);
          return Err(entry.error);
        }
        entries := entries + [entry.value];
        fields := fields + [FieldOf(pairs[k]).value];
      }
      assert pairs[..|pairs|] == pairs;
      var id := Finish(old(nodes), entries, fields);
      r := Ok(id);
    }

    /** A key is serialized like any value and must turn out to be a string. */
    method SerializePair(ghost start: seq<Node>, ghost entries: seq<Entry>, ghost fields: seq<Field>, p: Pair) returns (r: Result<Entry, EmitError>)
      requires Valid() && EntriesAdded(start, nodes, entries, CanonFields(SettleFields(fields, ZeroOf(nodes))))
      requires ZeroOf(nodes) == Or(ZeroOf(start), FirstOfFields(fields))
      modifies this
      ensures Valid() && old(nodes) <= nodes
      ensures match FieldOf(p)
              case Err(x) => r == Err(x)
              case Ok(f) =>
                && r.Ok? && EntriesAdded(start, nodes, entries + [r.value], CanonFields(SettleFields(fields + [f], ZeroOf(nodes))))
                && ZeroOf(nodes) == Or(ZeroOf(start), FirstOfFields(fields + [f]))
      decreases p, 2
    {
      hide Backward, Added, EntriesAdded, Canon, CanonFields, SettleFields, FirstOfFields, Settle, FirstZero, Different, Indexed, TreeOf, ZeroOf;
      var key := Serialize(p.key);
      if key.Err? {
        return Err(key.error);
      }
      ghost var keyed := nodes;
      ghost var name := TreeOf(p.key).value;
      KeyDecides(old(nodes), nodes, key.value, name);
      if !nodes[key.value].S? {
        return Err(KeyNotString);
      }
      KeyAdded(old(nodes), nodes, key.value, name.s);
      var value := Serialize(p.value);
      if value.Err? {
        return Err(value.error);
      }
      ghost var f := Field(name.s, TreeOf(p.value).value);
      NextField(fields, f, ZeroOf(keyed), ZeroOf(nodes));
      EntriesStep(start, old(nodes), keyed, nodes, entries, CanonFields(SettleFields(fields, ZeroOf(nodes))),
                  Entry(key.value, value.value), Field(f.key, Canon(Settle(f.value, ZeroOf(nodes)))));
      r := Ok(Entry(key.value, value.value));
    }

    /** A variant is an object with one key, whose string comes before its contents. */
    method SerializeVariant(name: string, value: Emitted) returns (r: Result<nat, EmitError>)
      requires Valid()
      modifies this
      ensures Valid() && old(nodes) <= nodes
      ensures match TreeOf(value)
              case Err(x) => r == Err(x)
              case Ok(t) => r.Ok? && Encodes(old(nodes), nodes, r.value, Object([Field(name, t)]))
      decreases value, 2
    {
      hide Backward, Added, EntriesAdded, Different, Indexed, TreeOf, Canon, CanonFields, SettleFields, FirstOfFields, Settle, FirstZero, ZeroOf;
      NoEntriesAdded(nodes);
      NoFields(ZeroOf(nodes));
      var key := Intern(S(name));
      ghost var keyed := nodes;
      var content := Serialize(value);
      if content.Err? {
        return content;
      }
      ghost var f := Field(name, TreeOf(value).value);
      var entry := Entry(key, content.value);
      NextField([], f, ZeroOf(keyed), ZeroOf(nodes));
      NoFields(ZeroOf(nodes));
      EntriesStep(old(nodes), old(nodes), keyed, nodes, [], [], entry, Field(name, Canon(Settle(f.value, ZeroOf(nodes)))));
      assert [] + [entry] == [entry] && [] + [f] == [f];
      var id := Finish(old(nodes), [entry], [f]);
      r := Ok(id);
    }

    /** Sorts an object's entries by key and interns the object. */
    method Finish(ghost start: seq<Node>, entries: seq<Entry>, ghost fields: seq<Field>) returns (id: nat)
      requires Valid() && EntriesAdded(start, nodes, entries, CanonFields(SettleFields(fields, ZeroOf(nodes))))
      requires ZeroOf(nodes) == Or(ZeroOf(start), FirstOfFields(fields))
      modifies this
      ensures Valid() && Encodes(start, nodes, id, Object(fields)) && start <= nodes && old(nodes) <= nodes
      ensures id < |nodes| && nodes[id].O? && EntriesAscend(nodes, nodes[id].entries) && multiset(nodes[id].entries) == multiset(entries)
      ensures forall k :: WithKey(nodes[id].entries, EntryKey(nodes), k) == WithKey(entries, EntryKey(nodes), k)
    {
      hide WithKey, EntriesAscend, Encodes, SortBy, Backward, EntriesAdded, ZeroOf, CanonFields, SettleFields, FirstOfFields;
      ghost var before, kept := nodes, CanonFields(SettleFields(fields, ZeroOf(nodes)));
      EntriesFit(start, before, entries, kept);
      var sorted := SortBy(entries, EntryKey(nodes));
      id := Intern(O(sorted));
      EntriesFinish(start, before, nodes, entries, kept, id);
      ObjectEncodes(start, nodes, id, fields);
      AddedBelow(start, before, entries, kept);
      SortedEntriesAscend(before, nodes, entries);
    }
  }

  lemma AddedBelow(start: seq<Node>, nodes: seq<Node>, entries: seq<Entry>, fields: seq<Field>)
    requires EntriesAdded(start, nodes, entries, fields)
    ensures EntriesBelow(nodes, entries, |nodes|)
  {
    hide Backward;
  }

  /** Sorted entries have their keys in the order of a dictionary, and keep the order in which those with one
      key were emitted, also in a table that grew. */
  lemma SortedEntriesAscend(before: seq<Node>, after: seq<Node>, entries: seq<Entry>)
    requires EntriesBelow(before, entries, |before|) && before <= after
    ensures var sorted := SortBy(entries, EntryKey(before));
            && EntriesAscend(after, sorted) && multiset(sorted) == multiset(entries)
            && forall k :: WithKey(sorted, EntryKey(after), k) == WithKey(entries, EntryKey(after), k)
  {
    hide SortBy, Lexicographic, WithKey;
    var sorted := SortBy(entries, EntryKey(before));
    SortMeans(entries, EntryKey(before));
    SortMembers(entries, EntryKey(before));
    forall i | 0 <= i < |sorted| ensures sorted[i].key < |before| && before[sorted[i].key].S? {
      assert sorted[i] in entries;
    }
    forall i, j | 0 <= i < j < |sorted|
      ensures var a, b := after[sorted[i].key].s, after[sorted[j].key].s; a == b || Lexicographic(a, b)
    {
      assert EntryKey(before)(sorted[i]) == EntryKey(before)(sorted[j]) || Lexicographic(EntryKey(before)(sorted[i]), EntryKey(before)(sorted[j]));
    }
    forall k ensures WithKey(sorted, EntryKey(after), k) == WithKey(entries, EntryKey(after), k) {
      SameKeys(before, after, sorted, k);
      SameKeys(before, after, entries, k);
    }
  }

  lemma {:induction false} SameKeys(before: seq<Node>, after: seq<Node>, entries: seq<Entry>, k: string)
    requires before <= after && forall i :: 0 <= i < |entries| ==> entries[i].key < |before|
    ensures WithKey(entries, EntryKey(after), k) == WithKey(entries, EntryKey(before), k)
  {
    if entries != [] {
      SameKeys(before, after, entries[..|entries| - 1], k);
    }
  }

  // ----- What adding values to the table leaves -----

  /** The id stands for the value, with sorted fields and the table's zero for all its zeros. */
  ghost predicate Encodes(before: seq<Node>, after: seq<Node>, id: nat, t: Tree) {
    && ZeroOf(after) == Or(ZeroOf(before), FirstZero(t))
    && Added(before, after, id, Canon(Settle(t, ZeroOf(after))))
  }

  lemma ArrayEncodes(before: seq<Node>, after: seq<Node>, id: nat, trees: seq<Tree>)
    requires ZeroOf(after) == Or(ZeroOf(before), FirstOfAll(trees))
    requires Added(before, after, id, Array(CanonAll(SettleAll(trees, ZeroOf(after)))))
    ensures Encodes(before, after, id, Array(trees))
  {
    hide Added, ZeroOf, Canon, Settle, FirstZero;
    ArrayKept(trees, ZeroOf(after));
  }

  lemma ObjectEncodes(before: seq<Node>, after: seq<Node>, id: nat, fields: seq<Field>)
    requires ZeroOf(after) == Or(ZeroOf(before), FirstOfFields(fields))
    requires Added(before, after, id, Object(SortBy(CanonFields(SettleFields(fields, ZeroOf(after))), KeyOf)))
    ensures Encodes(before, after, id, Object(fields))
  {
    hide Added, ZeroOf, Canon, Settle, FirstZero;
    ObjectKept(fields, ZeroOf(after));
  }

  lemma ArrayKept(trees: seq<Tree>, zero: Option<Num>)
    ensures Canon(Settle(Array(trees), zero)) == Array(CanonAll(SettleAll(trees, zero))) && FirstZero(Array(trees)) == FirstOfAll(trees)
  {
    hide CanonAll, SettleAll, FirstOfAll;
  }

  lemma ObjectKept(fields: seq<Field>, zero: Option<Num>)
    ensures Canon(Settle(Object(fields), zero)) == Object(SortBy(CanonFields(SettleFields(fields, zero)), KeyOf))
    ensures FirstZero(Object(fields)) == FirstOfFields(fields)
  {
    hide CanonFields, SettleFields, FirstOfFields, SortBy;
  }

  lemma NoTrees(zero: Option<Num>)
    ensures CanonAll(SettleAll([], zero)) == [] && FirstOfAll([]) == None
  {
  }

  lemma NoFields(zero: Option<Num>)
    ensures CanonFields(SettleFields([], zero)) == [] && FirstOfFields([]) == None
  {
  }

  /** A zero that comes with the next item is the first, or changes nothing. */
  lemma NextTree(trees: seq<Tree>, t: Tree, before: Option<Num>, after: Option<Num>)
    requires before.None? ==> FirstOfAll(trees).None?
    requires after == Or(before, FirstZero(t)) && (after.Some? ==> IsZero(after.value))
    ensures SettleAll(trees, before) == SettleAll(trees, after)
    ensures CanonAll(SettleAll(trees + [t], after)) == CanonAll(SettleAll(trees, after)) + [Canon(Settle(t, after))]
    ensures FirstOfAll(trees + [t]) == Or(FirstOfAll(trees), FirstZero(t))
  {
    hide Settle, Canon, FirstZero;
    var more := trees + [t];
    assert more[..|more| - 1] == trees;
    if before.None? {
      NoZeroSettlesAll(trees, before);
      NoZeroSettlesAll(trees, after);
    }
    assert SettleAll(trees, before) == SettleAll(trees, after);
    AllWithOneMore(trees, t, after);
  }

  lemma AllWithOneMore(trees: seq<Tree>, t: Tree, zero: Option<Num>)
    ensures CanonAll(SettleAll(trees + [t], zero)) == CanonAll(SettleAll(trees, zero)) + [Canon(Settle(t, zero))]
  {
    hide Settle, Canon, SettleAll, CanonAll;
    var more := trees + [t];
    var x, y := CanonAll(SettleAll(more, zero)), CanonAll(SettleAll(trees, zero)) + [Canon(Settle(t, zero))];
    forall k | 0 <= k < |more| ensures x[k] == y[k] {
      assert more[k] == if k < |trees| then trees[k] else t;
    }
  }

  lemma NoZeroSettlesAll(trees: seq<Tree>, zero: Option<Num>)
    requires FirstOfAll(trees).None? && (zero.Some? ==> IsZero(zero.value))
    ensures SettleAll(trees, zero) == trees
  {
    NoZeroSettles(Array(trees), zero);
  }

  lemma NextField(fields: seq<Field>, f: Field, before: Option<Num>, after: Option<Num>)
    requires before.None? ==> FirstOfFields(fields).None?
    requires after == Or(before, FirstZero(f.value)) && (after.Some? ==> IsZero(after.value))
    ensures SettleFields(fields, before) == SettleFields(fields, after)
    ensures CanonFields(SettleFields(fields + [f], after)) == CanonFields(SettleFields(fields, after)) + [Field(f.key, Canon(Settle(f.value, after)))]
    ensures FirstOfFields(fields + [f]) == Or(FirstOfFields(fields), FirstZero(f.value))
  {
    hide Settle, Canon, FirstZero;
    var more := fields + [f];
    assert more[..|more| - 1] == fields;
    if before.None? {
      NoZeroSettlesFields(fields, before);
      NoZeroSettlesFields(fields, after);
    }
    var x, y := CanonFields(SettleFields(more, after)), CanonFields(SettleFields(fields, after)) + [Field(f.key, Canon(Settle(f.value, after)))];
    forall k | 0 <= k < |more| ensures x[k] == y[k] {
      assert more[k] == if k < |fields| then fields[k] else f;
    }
  }

  lemma NoZeroSettlesFields(fields: seq<Field>, zero: Option<Num>)
    requires FirstOfFields(fields).None? && (zero.Some? ==> IsZero(zero.value))
    ensures SettleFields(fields, zero) == fields
  {
    NoZeroSettles(Object(fields), zero);
  }

  /** Only new nodes, each of which decodes to a part of the value; old ids keep their meaning. */
  ghost predicate Added(before: seq<Node>, after: seq<Node>, id: nat, value: Tree) {
    && Backward(after) && before <= after && id < |after|
    && Decode(after, id) == value
    && forall k :: |before| <= k < |after| ==> Within(Decode(after, k), value)
  }

  lemma LeafAdded(before: seq<Node>, after: seq<Node>, id: nat)
    requires Backward(after) && id < |after| && before <= after && |after| <= |before| + 1
    requires |after| > |before| ==> id == |before|
    ensures Added(before, after, id, Decode(after, id))
  {
  }

  lemma AllDecodeKept(nodes: seq<Node>, more: seq<Node>)
    requires Backward(nodes) && Backward(more) && nodes <= more
    ensures forall k :: 0 <= k < |nodes| ==> Decode(more, k) == Decode(nodes, k)
  {
    hide Backward;
    forall k | 0 <= k < |nodes| ensures Decode(more, k) == Decode(nodes, k) {
      DecodeKept(nodes, more, k);
    }
  }

  /** A node is a string exactly when it stands for one. */
  lemma KeyDecides(before: seq<Node>, nodes: seq<Node>, id: nat, key: Tree)
    requires Encodes(before, nodes, id, key)
    ensures id < |nodes| && before <= nodes && (nodes[id].S? <==> key.Text?)
    ensures key.Text? ==> Added(before, nodes, id, key) && ZeroOf(nodes) == ZeroOf(before)
  {
    hide Backward, Within, ZeroOf;
  }

  /** A string that was interned added at most the node under its own id. */
  lemma KeyAdded(before: seq<Node>, nodes: seq<Node>, id: nat, s: string)
    requires Added(before, nodes, id, Text(s)) && Different(nodes)
    ensures |nodes| <= |before| + 1 && nodes[id] == S(s) && (|nodes| > |before| ==> id == |before|)
  {
    hide Backward, Different;
    DifferentIsDistinct(nodes);
    forall k | |before| <= k < |nodes| ensures nodes[k] == S(s) {
      assert Within(Decode(nodes, k), Text(s));
    }
    assert nodes[id] == S(s);
    if |nodes| > |before| {
      SamePlace(nodes, |before|, id);
      SamePlace(nodes, |nodes| - 1, id);
    }
  }

  lemma SamePlace<T>(s: seq<T>, j: nat, k: nat)
    requires Distinct(s) && j < |s| && k < |s| && s[j] == s[k]
    ensures j == k
  {
  }

  /** What a node without references stands for. */
  function LeafTree(node: Node): Tree
    requires !node.A? && !node.O?
  {
    match node
    case N => Null
    case B(b) => Boolean(b)
    case I(n) => Number(n)
    case S(s) => Text(s)
  }

  ghost predicate ItemsAdded(start: seq<Node>, nodes: seq<Node>, values: seq<nat>, trees: seq<Tree>) {
    && Backward(nodes) && start <= nodes
    && |values| == |trees| && AllBelow(values, |nodes|)
    && (forall k :: 0 <= k < |values| ==> Decode(nodes, values[k]) == trees[k])
    && forall j :: |start| <= j < |nodes| ==> exists k :: 0 <= k < |trees| && Within(Decode(nodes, j), trees[k])
  }

  lemma NoItemsAdded(nodes: seq<Node>)
    requires Backward(nodes)
    ensures ItemsAdded(nodes, nodes, [], [])
  {
  }

  lemma ItemsStep(start: seq<Node>, before: seq<Node>, after: seq<Node>, values: seq<nat>, trees: seq<Tree>, id: nat, t: Tree)
    requires Backward(before) && ItemsAdded(start, before, values, trees) && Added(before, after, id, t)
    ensures ItemsAdded(start, after, values + [id], trees + [t])
  {
    hide Backward, Decode, Within;
    AllDecodeKept(before, after);
    var more := trees + [t];
    forall j | |start| <= j < |after| ensures exists k :: 0 <= k < |more| && Within(Decode(after, j), more[k]) {
      if j < |before| {
        var k :| 0 <= k < |trees| && Within(Decode(before, j), trees[k]);
        assert more[k] == trees[k];
      } else {
        assert more[|trees|] == t;
      }
    }
  }

  lemma ItemsFit(start: seq<Node>, nodes: seq<Node>, values: seq<nat>, trees: seq<Tree>)
    requires ItemsAdded(start, nodes, values, trees)
    ensures Fits(nodes, A(values))
  {
  }

  lemma ItemsFinish(start: seq<Node>, before: seq<Node>, after: seq<Node>, values: seq<nat>, trees: seq<Tree>, id: nat)
    requires ItemsAdded(start, before, values, trees)
    requires Backward(after) && before <= after && |after| <= |before| + 1 && id < |after| && after[id] == A(values)
    requires |after| > |before| ==> id == |before|
    ensures Added(start, after, id, Array(trees))
  {
    hide Backward;
    AllDecodeKept(before, after);
    BackwardAt(after, id);
    assert DecodeAll(after, values, id) == trees;
    forall j | |start| <= j < |after| ensures Within(Decode(after, j), Array(trees)) {
      if j < |before| {
        var k :| 0 <= k < |trees| && Within(Decode(before, j), trees[k]);
        assert Within(Decode(after, j), Array(trees).items[k]);
      }
    }
  }

  ghost predicate EntriesAdded(start: seq<Node>, nodes: seq<Node>, entries: seq<Entry>, fields: seq<Field>) {
    && Backward(nodes) && start <= nodes
    && EntriesBelow(nodes, entries, |nodes|) && DecodeEntries(nodes, entries, |nodes|) == fields
    && forall j :: |start| <= j < |nodes| ==> exists k :: 0 <= k < |fields| && OfField(Decode(nodes, j), fields[k])
  }

  ghost predicate OfField(t: Tree, f: Field) {
    t == KeyTree(f) || Within(t, f.value)
  }

  lemma NoEntriesAdded(nodes: seq<Node>)
    requires Backward(nodes)
    ensures EntriesAdded(nodes, nodes, [], [])
  {
  }

  lemma EntriesStep(start: seq<Node>, before: seq<Node>, keyed: seq<Node>, after: seq<Node>, entries: seq<Entry>, fields: seq<Field>, e: Entry, f: Field)
    requires EntriesAdded(start, before, entries, fields)
    requires Backward(keyed) && before <= keyed && |keyed| <= |before| + 1 && e.key < |keyed| && keyed[e.key] == S(f.key)
    requires |keyed| > |before| ==> e.key == |before|
    requires Added(keyed, after, e.value, f.value)
    ensures EntriesAdded(start, after, entries + [e], fields + [f])
  {
    hide Backward, Decode, Within;
    AllDecodeKept(before, keyed);
    AllDecodeKept(keyed, after);
    var moreEntries, moreFields := entries + [e], fields + [f];
    assert after[e.key] == S(f.key);
    forall k | 0 <= k < |moreEntries|
      ensures moreEntries[k].key < |after| && moreEntries[k].value < |after| && after[moreEntries[k].key].S?
      ensures Field(after[moreEntries[k].key].s, Decode(after, moreEntries[k].value)) == moreFields[k]
    {
      if k < |entries| {
        assert moreEntries[k] == entries[k] && DecodeEntries(before, entries, |before|)[k] == fields[k];
        assert after[entries[k].key] == before[entries[k].key];
      }
    }
    assert DecodeEntries(after, moreEntries, |after|) == moreFields;
    forall j | |start| <= j < |after| ensures exists k :: 0 <= k < |moreFields| && OfField(Decode(after, j), moreFields[k]) {
      if j < |before| {
        var k :| 0 <= k < |fields| && OfField(Decode(before, j), fields[k]);
        assert moreFields[k] == fields[k];
      } else {
        if j < |keyed| {
          KeyDecodes(keyed, j);
        }
        assert moreFields[|fields|] == f;
        assert OfField(Decode(after, j), f);
      }
    }
  }

  lemma EntriesFit(start: seq<Node>, nodes: seq<Node>, entries: seq<Entry>, fields: seq<Field>)
    requires EntriesAdded(start, nodes, entries, fields)
    ensures Fits(nodes, O(SortBy(entries, EntryKey(nodes))))
  {
    hide Backward;
    SortedEntriesDecode(nodes, entries, |nodes|);
  }

  lemma FinishedDecodes(before: seq<Node>, after: seq<Node>, entries: seq<Entry>, fields: seq<Field>, id: nat)
    requires Backward(before) && EntriesBelow(before, entries, |before|) && DecodeEntries(before, entries, |before|) == fields
    requires Backward(after) && before <= after && id < |after| && after[id] == O(SortBy(entries, EntryKey(before)))
    ensures Decode(after, id) == Object(SortBy(fields, KeyOf))
  {
    hide Backward, SortBy;
    var sorted := SortBy(entries, EntryKey(before));
    AllDecodeKept(before, after);
    SortedEntriesDecode(before, entries, |before|);
    BackwardAt(after, id);
    assert DecodeEntries(after, sorted, id) == DecodeEntries(before, sorted, |before|);
  }

  lemma AddedFor(start: seq<Node>, nodes: seq<Node>, entries: seq<Entry>, fields: seq<Field>, j: nat) returns (k: nat)
    requires EntriesAdded(start, nodes, entries, fields) && |start| <= j < |nodes|
    ensures k < |fields| && OfField(Decode(nodes, j), fields[k])
  {
    hide Backward, Decode, OfField;
    k :| 0 <= k < |fields| && OfField(Decode(nodes, j), fields[k]);
  }

  lemma EntriesFinish(start: seq<Node>, before: seq<Node>, after: seq<Node>, entries: seq<Entry>, fields: seq<Field>, id: nat)
    requires EntriesAdded(start, before, entries, fields)
    requires Backward(after) && before <= after && |after| <= |before| + 1 && id < |after|
    requires after[id] == O(SortBy(entries, EntryKey(before)))
    requires |after| > |before| ==> id == |before|
    ensures Added(start, after, id, Object(SortBy(fields, KeyOf)))
  {
    hide Backward, SortBy;
    var sorted, value := SortBy(entries, EntryKey(before)), Object(SortBy(fields, KeyOf));
    AllDecodeKept(before, after);
    assert Decode(after, id) == value by {
      FinishedDecodes(before, after, entries, fields, id);
    }
    hide Decode;
    SortMembers(fields, KeyOf);
    forall j | |start| <= j < |after| ensures Within(Decode(after, j), value) {
      if j < |before| {
        var k := AddedFor(start, before, entries, fields, j);
        assert fields[k] in SortBy(fields, KeyOf);
        var n :| 0 <= n < |value.fields| && value.fields[n] == fields[k];
        assert OfField(Decode(after, j), value.fields[n]);
      }
    }
  }
}
