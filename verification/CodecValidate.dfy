/** The decoder's gate: which graphs it accepts, and the two loops that decide it. */
module CodecValidate {
  import opened Prelude
  import opened CodecTrees
  import opened CodecGraphs
  import opened CodecMeaning
  import B = CodecBuilder

  const MAX_EXPANDED_NODES: nat := 8_500_000
  const MAX_DEPTH: nat := 128

  newtype U32 = n: int | 0 <= n < 0x1_0000_0000
  newtype U8 = n: int | 0 <= n < 0x100

  // ----- What acceptance means -----

  /** A walk along references. */
  ghost predicate Path(nodes: seq<Node>, p: seq<nat>) {
    && p != []
    && (forall k :: 0 <= k < |p| ==> p[k] < |nodes|)
    && forall k :: 0 < k < |p| ==> p[k] in Refs(nodes[p[k - 1]])
  }

  ghost predicate Reaches(nodes: seq<Node>, from: nat, to: nat) {
    exists p :: Path(nodes, p) && p[0] == from && p[|p| - 1] == to
  }

  ghost predicate KeysRise(nodes: seq<Node>, n: Node) {
    n.O? ==> Rising(n.entries, B.EntryKey(nodes))
  }

  /** Backward references, strictly sorted string keys, and trees within the limits. */
  ghost predicate Bounded(nodes: seq<Node>) {
    && Backward(nodes)
    && (forall k :: 0 <= k < |nodes| ==> KeysRise(nodes, nodes[k]))
    && forall k :: 0 <= k < |nodes| ==> Size(Decode(nodes, k)) <= MAX_EXPANDED_NODES && Depth(Decode(nodes, k)) <= MAX_DEPTH
  }

  ghost predicate ValidGraph(g: Graph) {
    && g.nodes != [] && g.root == |g.nodes| - 1
    && Bounded(g.nodes)
    && AllReached(g.nodes, g.root)
  }

  ghost predicate AllReached(nodes: seq<Node>, root: nat) {
    forall k :: 0 <= k < |nodes| ==> Reaches(nodes, root, k)
  }

  // ----- Sizes and depths from references -----

  function Sum(sizes: seq<nat>, refs: seq<nat>): nat {
    if refs == [] then 0 else Sum(sizes, refs[..|refs| - 1]) + (if refs[|refs| - 1] < |sizes| then sizes[refs[|refs| - 1]] else 0)
  }

  function Deepest(depths: seq<nat>, refs: seq<nat>): nat {
    if refs == [] then 0 else Max(Deepest(depths, refs[..|refs| - 1]), if refs[|refs| - 1] < |depths| then depths[refs[|refs| - 1]] else 0)
  }

  lemma {:induction false} SumAppend(sizes: seq<nat>, a: seq<nat>, b: seq<nat>)
    ensures Sum(sizes, a + b) == Sum(sizes, a) + Sum(sizes, b)
    ensures Deepest(sizes, a + b) == Max(Deepest(sizes, a), Deepest(sizes, b))
    decreases |b|
  {
    if b == [] {
      assert a + b == a;
    } else {
      var c := b[..|b| - 1];
      assert (a + b)[..|a + b| - 1] == a + c && (a + b)[|a + b| - 1] == b[|b| - 1];
      SumAppend(sizes, a, c);
    }
  }

  lemma SumOne(sizes: seq<nat>, r: nat)
    ensures Sum(sizes, [r]) == if r < |sizes| then sizes[r] else 0
    ensures Deepest(sizes, [r]) == if r < |sizes| then sizes[r] else 0
  {
    assert [r][..0] == [];
  }

  /** The tables hold each node's exact tree size and depth. */
  ghost predicate Measured(nodes: seq<Node>, sizes: seq<nat>, depths: seq<nat>) {
    && Backward(nodes) && |sizes| == |depths| == |nodes|
    && forall k :: 0 <= k < |nodes| ==> sizes[k] == Size(Decode(nodes, k)) && depths[k] == Depth(Decode(nodes, k))
  }

  lemma {:induction false} ItemsMeasured(nodes: seq<Node>, sizes: seq<nat>, depths: seq<nat>, items: seq<nat>, bound: nat)
    requires Measured(nodes, sizes, depths) && bound <= |nodes| && AllBelow(items, bound)
    ensures Sum(sizes, items) == SizeAll(DecodeAll(nodes, items, bound))
    ensures Deepest(depths, items) == DepthAll(DecodeAll(nodes, items, bound))
    decreases |items|
  {
    hide Decode, Backward;
    if items != [] {
      ItemsMeasured(nodes, sizes, depths, items[1..], bound);
      SumAppend(sizes, [items[0]], items[1..]);
      SumAppend(depths, [items[0]], items[1..]);
      SumOne(sizes, items[0]);
      SumOne(depths, items[0]);
      assert items == [items[0]] + items[1..];
      assert DecodeAll(nodes, items, bound)[1..] == DecodeAll(nodes, items[1..], bound);
    }
  }

  lemma {:induction false} EntriesMeasured(nodes: seq<Node>, sizes: seq<nat>, depths: seq<nat>, entries: seq<Entry>, bound: nat)
    requires Measured(nodes, sizes, depths) && EntriesBelow(nodes, entries, bound)
    ensures Sum(sizes, EntryRefs(entries)) == SizeFields(DecodeEntries(nodes, entries, bound))
    ensures Deepest(depths, EntryRefs(entries)) == DepthFields(DecodeEntries(nodes, entries, bound))
    decreases |entries|
  {
    hide Decode, Backward;
    if entries != [] {
      var e, rest := entries[0], EntryRefs(entries[1..]);
      EntriesMeasured(nodes, sizes, depths, entries[1..], bound);
      KeyDecodes(nodes, e.key);
      SumAppend(sizes, [e.key], [e.value]);
      SumAppend(sizes, [e.key, e.value], rest);
      SumAppend(depths, [e.key], [e.value]);
      SumAppend(depths, [e.key, e.value], rest);
      SumOne(sizes, e.key);
      SumOne(sizes, e.value);
      SumOne(depths, e.key);
      SumOne(depths, e.value);
      assert [e.key] + [e.value] == [e.key, e.value];
      assert EntryRefs(entries) == [e.key, e.value] + rest;
      assert DecodeEntries(nodes, entries, bound)[1..] == DecodeEntries(nodes, entries[1..], bound);
    }
  }

  /** A new node's tree is one larger and one deeper than its references' trees together. */
  lemma ArrayMeasured(nodes: seq<Node>, sizes: seq<nat>, depths: seq<nat>, more: seq<Node>, items: seq<nat>)
    requires Measured(nodes, sizes, depths) && Backward(more) && more == nodes + [A(items)] && AllBelow(items, |nodes|)
    ensures Size(Decode(more, |nodes|)) == 1 + Sum(sizes, items) && Depth(Decode(more, |nodes|)) == 1 + Deepest(depths, items)
  {
    hide Backward;
    B.AllDecodeKept(nodes, more);
    ItemsMeasured(nodes, sizes, depths, items, |nodes|);
    assert DecodeAll(more, items, |nodes|) == DecodeAll(nodes, items, |nodes|);
    assert Decode(more, |nodes|) == Array(DecodeAll(more, items, |nodes|));
  }

  lemma ObjectMeasured(nodes: seq<Node>, sizes: seq<nat>, depths: seq<nat>, more: seq<Node>, entries: seq<Entry>)
    requires Measured(nodes, sizes, depths) && Backward(more) && more == nodes + [O(entries)] && EntriesBelow(nodes, entries, |nodes|)
    ensures Size(Decode(more, |nodes|)) == 1 + Sum(sizes, EntryRefs(entries))
    ensures Depth(Decode(more, |nodes|)) == 1 + Deepest(depths, EntryRefs(entries))
  {
    hide Backward, Sum, Deepest, EntryRefs;
    B.AllDecodeKept(nodes, more);
    EntriesMeasured(nodes, sizes, depths, entries, |nodes|);
    BackwardAt(more, |nodes|);
    assert DecodeEntries(more, entries, |nodes|) == DecodeEntries(nodes, entries, |nodes|);
    assert Decode(more, |nodes|) == Object(DecodeEntries(more, entries, |nodes|));
  }

  lemma LeafMeasured(nodes: seq<Node>, n: Node)
    requires Backward(nodes + [n]) && !n.A? && !n.O?
    ensures Size(Decode(nodes + [n], |nodes|)) == 1 && Depth(Decode(nodes + [n], |nodes|)) == 1
  {
    hide Backward;
  }

  /** A new node's size and depth are one more than its references' sum and maximum. */
  lemma NodeMeasured(nodes: seq<Node>, sizes: seq<nat>, depths: seq<nat>, n: Node)
    requires Measured(nodes, sizes, depths) && NodeBackward(nodes, n, |nodes|)
    ensures Backward(nodes + [n])
    ensures Measured(nodes + [n], sizes + [1 + Sum(sizes, Refs(n))], depths + [1 + Deepest(depths, Refs(n))])
  {
    hide Backward, Decode, Size, Depth, EntryRefs, EntriesBelow, AllBelow;
    var more := nodes + [n];
    B.BackwardAppend(nodes, n);
    B.AllDecodeKept(nodes, more);
    match n
    case A(items) =>
      ArrayMeasured(nodes, sizes, depths, more, items);
    case O(entries) =>
      ObjectMeasured(nodes, sizes, depths, more, entries);
    case _ =>
      LeafMeasured(nodes, n);
  }

  // ----- The first loop -----

  function Saturating(n: nat): U32 {
    if n < 0x1_0000_0000 then n as U32 else 0xFFFF_FFFF
  }

  function Widened32(s: seq<U32>): (r: seq<nat>)
    ensures |r| == |s| && forall k :: 0 <= k < |s| ==> r[k] == s[k] as nat
  {
    seq(|s|, k requires 0 <= k < |s| => s[k] as nat)
  }

  function Widened8(s: seq<U8>): (r: seq<nat>)
    ensures |r| == |s| && forall k :: 0 <= k < |s| ==> r[k] == s[k] as nat
  {
    seq(|s|, k requires 0 <= k < |s| => s[k] as nat)
  }

  /** What the tables satisfy so far: exact, and within the limits. */
  ghost predicate Tables(nodes: seq<Node>, sizes: seq<U32>, depths: seq<U8>) {
    && Measured(nodes, Widened32(sizes), Widened8(depths))
    && (forall k :: 0 <= k < |sizes| ==> sizes[k] as nat <= MAX_EXPANDED_NODES)
    && (forall k :: 0 <= k < |depths| ==> depths[k] as nat <= MAX_DEPTH)
  }

  /** `account_ref` over all references of a node: the sum saturates at 32 bits, which is above the
      limit, and the depth stays within 8 bits. */
  method Account(refs: seq<nat>, index: nat, sizes: seq<U32>, depths: seq<U8>) returns (ok: bool, size: U32, depth: U8)
    requires |sizes| == |depths| == index
    requires forall k :: 0 <= k < index ==> sizes[k] as nat <= MAX_EXPANDED_NODES && depths[k] as nat <= MAX_DEPTH
    ensures ok <==> AllBelow(refs, index)
    ensures ok ==> size == Saturating(1 + Sum(Widened32(sizes), refs)) && depth as nat == 1 + Deepest(Widened8(depths), refs)
  {
    size, depth := 1, 1;
    for k := 0 to |refs|
      invariant AllBelow(refs[..k], index)
      invariant size == Saturating(1 + Sum(Widened32(sizes), refs[..k]))
      invariant depth as nat == 1 + Deepest(Widened8(depths), refs[..k]) <= MAX_DEPTH + 1
    {
      if refs[k] >= index {
        return false, size, depth;
      }
      assert refs[..k + 1][..|refs[..k + 1]| - 1] == refs[..k] && refs[..k + 1][k] == refs[k];
      size := if size as int + sizes[refs[k]] as int < 0x1_0000_0000 then size + sizes[refs[k]] else 0xFFFF_FFFF;
      depth := if depth < depths[refs[k]] + 1 then depths[refs[k]] + 1 else depth;
    }
    assert refs[..|refs|] == refs;
    ok := true;
  }

  ghost predicate StringKeys(nodes: seq<Node>, entries: seq<Entry>) {
    forall k :: 0 <= k < |entries| ==> entries[k].key < |nodes| && nodes[entries[k].key].S?
  }

  /** The keys are strings, each after all keys before it in the order of a dictionary. */
  ghost predicate KeysInOrder(nodes: seq<Node>, entries: seq<Entry>) {
    && StringKeys(nodes, entries)
    && forall i, j :: 0 <= i < j < |entries| ==> Lexicographic(nodes[entries[i].key].s, nodes[entries[j].key].s)
  }

  lemma EntriesRise(nodes: seq<Node>, entries: seq<Entry>, bound: nat)
    requires bound <= |nodes| && AllBelow(EntryRefs(entries), bound)
    ensures EntriesBelow(nodes, entries, bound) && Rising(entries, B.EntryKey(nodes)) <==> KeysInOrder(nodes, entries)
  {
    hide EntryRefs, Rising, AllBelow;
    forall k | 0 <= k < |entries| ensures entries[k].key < bound && entries[k].value < bound {
      EntryBelow(entries, bound, k);
    }
    assert EntriesBelow(nodes, entries, bound) <==> StringKeys(nodes, entries);
    hide EntriesBelow, StringKeys, KeysInOrder;
    RisesWhen(nodes, entries);
  }

  lemma RisesWhen(nodes: seq<Node>, entries: seq<Entry>)
    ensures KeysInOrder(nodes, entries) <==> StringKeys(nodes, entries) && Rising(entries, B.EntryKey(nodes))
  {
    hide Lexicographic, Rising;
    OrderedMeans(entries, B.EntryKey(nodes));
  }

  /** The key check of an object: strings, each after the one before it. */
  method CheckKeys(nodes: seq<Node>, entries: seq<Entry>, bound: nat) returns (ok: bool)
    requires bound <= |nodes| && AllBelow(EntryRefs(entries), bound)
    ensures ok <==> EntriesBelow(nodes, entries, bound) && Rising(entries, B.EntryKey(nodes))
    ensures ok <==> KeysInOrder(nodes, entries)
  {
    EntriesRise(nodes, entries, bound);
    hide Rising, AllBelow, EntryRefs, Before, KeysInOrder, StringKeys, Lexicographic, EntriesBelow;
    var previous: Option<string> := None;
    assert EntriesBelow(nodes, entries[..0], bound) && Rising(entries[..0], B.EntryKey(nodes)) by {
      NothingRises(B.EntryKey(nodes));
      NothingBelow(nodes, bound);
      assert entries[..0] == [];
    }
    for k := 0 to |entries|
      invariant EntriesBelow(nodes, entries[..k], bound) && Rising(entries[..k], B.EntryKey(nodes))
      invariant k == 0 <==> previous.None?
      invariant k > 0 ==> previous == Some(B.EntryKey(nodes)(entries[k - 1]))
    {
      EntryBelow(entries, bound, k);
      var key := nodes[entries[k].key];
      if !key.S? {
        NotBelow(nodes, entries, bound, k);
        return false;
      }
      if previous.Some? && !Before(previous.value, key.s) {
        NotRising(entries, B.EntryKey(nodes), k);
        return false;
      }
      KeysNext(nodes, entries, bound, k);
      previous := Some(key.s);
    }
    assert entries[..|entries|] == entries;
    ok := true;
  }

  lemma {:induction false} EntryBelow(entries: seq<Entry>, bound: nat, k: nat)
    requires k < |entries| && AllBelow(EntryRefs(entries), bound)
    ensures entries[k].key < bound && entries[k].value < bound
    decreases k
  {
    var refs := EntryRefs(entries);
    if k == 0 {
      assert refs[0] == entries[0].key && refs[1] == entries[0].value;
    } else {
      var rest := EntryRefs(entries[1..]);
      assert refs[2..] == rest;
      assert forall j :: 0 <= j < |rest| ==> rest[j] == refs[j + 2];
      EntryBelow(entries[1..], bound, k - 1);
    }
  }

  lemma KeysNext(nodes: seq<Node>, entries: seq<Entry>, bound: nat, k: nat)
    requires k < |entries| && EntriesBelow(nodes, entries[..k], bound) && Rising(entries[..k], B.EntryKey(nodes))
    requires entries[k].key < bound && entries[k].value < bound && nodes[entries[k].key].S?
    requires k > 0 ==> Before(B.EntryKey(nodes)(entries[k - 1]), B.EntryKey(nodes)(entries[k]))
    ensures EntriesBelow(nodes, entries[..k + 1], bound) && Rising(entries[..k + 1], B.EntryKey(nodes))
  {
    hide Rising, Before;
    RisingNext(entries, B.EntryKey(nodes), k);
    assert entries[..k + 1] == entries[..k] + [entries[k]];
  }

  lemma NothingBelow(nodes: seq<Node>, bound: nat)
    requires bound <= |nodes|
    ensures EntriesBelow(nodes, [], bound)
  {
  }

  lemma NotBelow(nodes: seq<Node>, entries: seq<Entry>, bound: nat, k: nat)
    requires k < |entries| && entries[k].key < |nodes| && !nodes[entries[k].key].S?
    ensures !EntriesBelow(nodes, entries, bound)
  {
  }

  lemma NothingRises<T>(key: T -> string)
    ensures Rising([], key)
  {
  }

  lemma NotRising<T>(s: seq<T>, key: T -> string, k: nat)
    requires 0 < k < |s| && !Before(key(s[k - 1]), key(s[k]))
    ensures !Rising(s, key)
  {
  }

  lemma RisingNext<T>(s: seq<T>, key: T -> string, k: nat)
    requires k < |s| && Rising(s[..k], key) && (k > 0 ==> Before(key(s[k - 1]), key(s[k])))
    ensures Rising(s[..k + 1], key)
  {
    var t := s[..k + 1];
    forall i, j | 0 <= i < j < |t| ensures Before(key(t[i]), key(t[j])) {
      assert i < k ==> t[i] == s[..k][i];
      assert j < k ==> t[j] == s[..k][j];
      if j == k && i < k - 1 {
        assert Before(key(s[..k][i]), key(s[..k][k - 1]));
        BeforeTrans(key(s[i]), key(s[k - 1]), key(s[k]));
      }
    }
  }

  lemma PrefixBackward(nodes: seq<Node>, i: nat)
    requires Backward(nodes) && i < |nodes|
    ensures Backward(nodes[..i]) && NodeBackward(nodes[..i], nodes[i], i)
  {
    forall k | 0 <= k < i ensures NodeBackward(nodes[..i], nodes[..i][k], k) {
      assert NodeBackward(nodes, nodes[k], k);
    }
    assert NodeBackward(nodes, nodes[i], i);
  }

  lemma NodeBackwardPrefix(nodes: seq<Node>, i: nat)
    requires i < |nodes| && AllBelow(Refs(nodes[i]), i)
    requires nodes[i].O? ==> EntriesBelow(nodes, nodes[i].entries, i)
    ensures NodeBackward(nodes[..i], nodes[i], i)
  {
  }

  /** What node i measures, if it is acceptable at all. */
  lemma MeasuredAt(nodes: seq<Node>, i: nat, sizes: seq<nat>, depths: seq<nat>)
    requires Backward(nodes) && i < |nodes| && Measured(nodes[..i], sizes, depths)
    ensures Size(Decode(nodes, i)) == 1 + Sum(sizes, Refs(nodes[i])) && Depth(Decode(nodes, i)) == 1 + Deepest(depths, Refs(nodes[i]))
  {
    hide Decode, Backward, Sum, Deepest;
    PrefixBackward(nodes, i);
    NodeMeasured(nodes[..i], sizes, depths, nodes[i]);
    var more := nodes[..i] + [nodes[i]];
    assert more == nodes[..i + 1];
    DecodeKept(more, nodes, i);
  }

  /** The first loop: one pass over the nodes with compact tables. */
  method Measure(nodes: seq<Node>) returns (ok: bool)
    ensures ok <==> Bounded(nodes)
  {
    hide Backward, Decode, Measured, Sum, Deepest, Rising, AllBelow;
    var sizes: seq<U32>, depths: seq<U8> := [], [];
    EmptyTables();
    assert nodes[..0] == [];
    for i := 0 to |nodes|
      invariant Tables(nodes[..i], sizes, depths) && |sizes| == |depths| == i
      invariant forall k :: 0 <= k < i ==> KeysRise(nodes, nodes[k])
    {
      var n := nodes[i];
      var inside, size, depth := Account(Refs(n), i, sizes, depths);
      if !inside {
        if Bounded(nodes) {
          RefsBelow(nodes, i);
        }
        return false;
      }
      if depth > 128 || size > 8_500_000 {
        if Bounded(nodes) {
          MeasuredAt(nodes, i, Widened32(sizes), Widened8(depths));
        }
        return false;
      }
      if n.O? {
        var sorted := CheckKeys(nodes, n.entries, i);
        if !sorted {
          if Bounded(nodes) {
            BackwardAt(nodes, i);
          }
          return false;
        }
      }
      TablesGrow(nodes, i, sizes, depths, size, depth);
      sizes, depths := sizes + [size], depths + [depth];
    }
    assert nodes[..|nodes|] == nodes;
    TablesBound(nodes, sizes, depths);
    ok := true;
  }

  /** The tables after one more node that keeps within the limits. */
  lemma TablesGrow(nodes: seq<Node>, i: nat, sizes: seq<U32>, depths: seq<U8>, size: U32, depth: U8)
    requires i < |nodes| && Tables(nodes[..i], sizes, depths) && AllBelow(Refs(nodes[i]), i)
    requires nodes[i].O? ==> EntriesBelow(nodes, nodes[i].entries, i)
    requires size as nat == 1 + Sum(Widened32(sizes), Refs(nodes[i])) <= MAX_EXPANDED_NODES
    requires depth as nat == 1 + Deepest(Widened8(depths), Refs(nodes[i])) <= MAX_DEPTH
    ensures Tables(nodes[..i + 1], sizes + [size], depths + [depth])
  {
    hide Backward, Decode, Measured, Sum, Deepest, AllBelow, EntriesBelow;
    assert Measured(nodes[..i], Widened32(sizes), Widened8(depths));
    assert |sizes| == |depths| == i by {
      MeasuredLengths(nodes[..i], Widened32(sizes), Widened8(depths));
    }
    NodeBackwardPrefix(nodes, i);
    NodeMeasured(nodes[..i], Widened32(sizes), Widened8(depths), nodes[i]);
    assert nodes[..i] + [nodes[i]] == nodes[..i + 1];
    assert Widened32(sizes + [size]) == Widened32(sizes) + [size as nat];
    assert Widened8(depths + [depth]) == Widened8(depths) + [depth as nat];
  }

  lemma MeasuredLengths(nodes: seq<Node>, sizes: seq<nat>, depths: seq<nat>)
    requires Measured(nodes, sizes, depths)
    ensures |sizes| == |depths| == |nodes|
  {
  }

  lemma EmptyTables()
    ensures Tables([], [], [])
  {
  }

  lemma TablesBound(nodes: seq<Node>, sizes: seq<U32>, depths: seq<U8>)
    requires Tables(nodes, sizes, depths) && forall k :: 0 <= k < |nodes| ==> KeysRise(nodes, nodes[k])
    ensures Bounded(nodes)
  {
    hide Decode;
    forall k | 0 <= k < |nodes| ensures Size(Decode(nodes, k)) <= MAX_EXPANDED_NODES && Depth(Decode(nodes, k)) <= MAX_DEPTH {
      assert Widened32(sizes)[k] == Size(Decode(nodes, k)) && Widened8(depths)[k] == Depth(Decode(nodes, k));
    }
  }

  // ----- The reverse sweep -----

  /** Referenced by a node at or above `from`. */
  ghost predicate Referenced(nodes: seq<Node>, k: nat, from: nat) {
    exists m :: from <= m < |nodes| && k in Refs(nodes[m])
  }

  ghost predicate Swept(nodes: seq<Node>, reached: seq<bool>, root: nat, from: nat) {
    |reached| == |nodes| && forall k :: 0 <= k < |nodes| ==> (reached[k] <==> k == root || Referenced(nodes, k, from))
  }

  lemma ReachesNext(nodes: seq<Node>, root: nat, m: nat, k: nat)
    requires root < |nodes| && m < |nodes| && k < |nodes| && k in Refs(nodes[m]) && Reaches(nodes, root, m)
    ensures Reaches(nodes, root, k)
  {
    var p :| Path(nodes, p) && p[0] == root && p[|p| - 1] == m;
    var q := p + [k];
    assert Path(nodes, q);
    assert q[0] == root && q[|q| - 1] == k;
  }

  lemma ReachesSelf(nodes: seq<Node>, root: nat)
    requires root < |nodes|
    ensures Reaches(nodes, root, root)
  {
    assert Path(nodes, [root]) && [root][0] == root;
  }

  /** Whatever the root reaches is the root or is referenced from further up. */
  lemma ReachedIsReferenced(nodes: seq<Node>, root: nat, k: nat)
    requires Backward(nodes) && root < |nodes| && k < |nodes| && Reaches(nodes, root, k)
    ensures k == root || Referenced(nodes, k, k + 1)
  {
    hide Refs;
    var p :| Path(nodes, p) && p[0] == root && p[|p| - 1] == k;
    if k != root {
      var m := p[|p| - 2];
      assert k in Refs(nodes[m]);
      RefsBelow(nodes, m);
      var j :| 0 <= j < |Refs(nodes[m])| && Refs(nodes[m])[j] == k;
      assert k < m;
    }
  }

  /** Flags set by the nodes above decide reachability: a node that no later node references is
      unreachable, and one that a reachable node references is reachable. */
  method Sweep(nodes: seq<Node>) returns (ok: bool)
    requires Backward(nodes) && nodes != []
    ensures ok <==> AllReached(nodes, |nodes| - 1)
  {
    hide Backward, Refs, Reaches;
    var root := |nodes| - 1;
    var reached := new bool[|nodes|](_ => false);
    reached[root] := true;
    var i := |nodes|;
    while i > 0
      invariant 0 <= i <= |nodes|
      invariant Swept(nodes, reached[..], root, i)
      invariant forall k :: i <= k < |nodes| ==> Reaches(nodes, root, k)
    {
      i := i - 1;
      assert reached[..][i] == reached[i];
      if !reached[i] {
        if Reaches(nodes, root, i) {
          ReachedIsReferenced(nodes, root, i);
        }
        return false;
      }
      if i == root {
        ReachesSelf(nodes, root);
      } else {
        var m :| i + 1 <= m < |nodes| && i in Refs(nodes[m]);
        ReachesNext(nodes, root, m, i);
      }
      ghost var before := reached[..];
      MarkAll(reached, nodes, i, root);
    }
    ok := true;
  }

  method MarkAll(reached: array<bool>, nodes: seq<Node>, i: nat, ghost root: nat)
    requires Backward(nodes) && i < |nodes| == reached.Length && root < |nodes|
    requires Swept(nodes, reached[..], root, i + 1)
    modifies reached
    ensures Swept(nodes, reached[..], root, i)
  {
    hide Backward, Refs;
    RefsBelow(nodes, i);
    var refs := Refs(nodes[i]);
    ghost var before := reached[..];
    for k := 0 to |refs|
      invariant forall j :: 0 <= j < |nodes| ==> (reached[j] <==> before[j] || j in refs[..k])
    {
      reached[refs[k]] := true;
      assert forall j :: j in refs[..k + 1] <==> j in refs[..k] || j == refs[k];
    }
    assert refs[..|refs|] == refs;
    forall j | 0 <= j < |nodes| ensures reached[..][j] <==> j == root || Referenced(nodes, j, i) {
      assert before[j] <==> j == root || Referenced(nodes, j, i + 1);
      assert Referenced(nodes, j, i) <==> Referenced(nodes, j, i + 1) || j in Refs(nodes[i]);
    }
  }

  // ----- What the gate accepts -----

  /** Each node refers only to nodes before it, and an object's keys are strings that rise in the
      order of a dictionary. */
  ghost predicate NodeInOrder(nodes: seq<Node>, k: nat) {
    k < |nodes| && (forall r: nat :: Names(nodes[k], r) ==> r < k) && (nodes[k].O? ==> KeysInOrder(nodes, nodes[k].entries))
  }

  /** The value has at most 8,500,000 parts, counted as often as they occur, none of them more than
      128 deep. */
  ghost predicate Limited(t: Tree) {
    |Postorder(t)| <= 8_500_000 && forall p :: Chain(t, p) ==> |p| <= 128
  }

  /** Each node of the path is named by the one before it. */
  ghost predicate Route(nodes: seq<Node>, p: seq<nat>) {
    p != [] && (forall k :: 0 <= k < |p| ==> p[k] < |nodes|) && forall k :: 0 < k < |p| ==> Names(nodes[p[k - 1]], p[k])
  }

  ghost predicate Leads(nodes: seq<Node>, root: nat, k: nat) {
    exists p :: Route(nodes, p) && p[0] == root && p[|p| - 1] == k
  }

  ghost predicate StandsForLimited(nodes: seq<Node>, k: nat) {
    exists t :: StandsFor(nodes, k, t) && Limited(t)
  }

  ghost predicate Acceptable(g: Graph) {
    && g.nodes != [] && g.root == |g.nodes| - 1
    && forall k :: 0 <= k < |g.nodes| ==> NodeInOrder(g.nodes, k) && StandsForLimited(g.nodes, k) && Leads(g.nodes, g.root, k)
  }

  lemma NodeOrder(nodes: seq<Node>, k: nat)
    requires k < |nodes|
    ensures NodeInOrder(nodes, k) <==> NodeBackward(nodes, nodes[k], k) && KeysRise(nodes, nodes[k])
  {
    hide Rising, Lexicographic, EntriesBelow, AllBelow, KeysInOrder;
    match nodes[k]
    case A(items) => ItemsBelow(items, k);
    case O(entries) =>
      EntriesNamed(nodes, entries, k);
      if EntriesBelow(nodes, entries, k) {
        EntryRefsBelow(nodes, entries, k);
      }
      if AllBelow(EntryRefs(entries), k) {
        EntriesRise(nodes, entries, k);
      }
    case _ =>
  }

  lemma ItemsBelow(items: seq<nat>, k: nat)
    ensures AllBelow(items, k) <==> forall r: nat :: Names(A(items), r) ==> r < k
  {
    assert forall i :: 0 <= i < |items| ==> Names(A(items), items[i]);
  }

  lemma EntriesNamed(nodes: seq<Node>, entries: seq<Entry>, k: nat)
    ensures AllBelow(EntryRefs(entries), k) <==> forall r: nat :: Names(O(entries), r) ==> r < k
  {
    hide Names, EntryRefs;
    var refs := EntryRefs(entries);
    assert forall i :: 0 <= i < |refs| ==> refs[i] in refs;
    forall r: nat ensures r in EntryRefs(entries) <==> Names(O(entries), r) {
      RefsMean(O(entries), r);
    }
  }

  lemma RoutesArePaths(nodes: seq<Node>, root: nat, k: nat)
    ensures Leads(nodes, root, k) <==> Reaches(nodes, root, k)
  {
    hide Refs, Names;
    forall n: Node, r: nat ensures r in Refs(n) <==> Names(n, r) {
      RefsMean(n, r);
    }
    if p :| Route(nodes, p) && p[0] == root && p[|p| - 1] == k {
      assert forall i :: 0 < i < |p| ==> p[i] < |nodes|;
      assert Path(nodes, p);
    }
    if p :| Path(nodes, p) && p[0] == root && p[|p| - 1] == k {
      assert Route(nodes, p);
    }
  }

  lemma LimitsMean(t: Tree)
    ensures Limited(t) <==> Size(t) <= MAX_EXPANDED_NODES && Depth(t) <= MAX_DEPTH
  {
    hide Size, Depth, Chain, Postorder;
    SizeMeans(t);
    DepthMeans(t, 128);
  }

  lemma StandsWhen(nodes: seq<Node>, k: nat)
    requires Backward(nodes) && k < |nodes|
    ensures StandsForLimited(nodes, k) <==> Size(Decode(nodes, k)) <= MAX_EXPANDED_NODES && Depth(Decode(nodes, k)) <= MAX_DEPTH
  {
    hide Backward, Decode, StandsFor, Limited;
    DecodeMeans(nodes, k, Decode(nodes, k));
    LimitsMean(Decode(nodes, k));
    if t :| StandsFor(nodes, k, t) && Limited(t) {
      DecodeMeans(nodes, k, t);
    }
  }

  /** A graph is valid exactly when its references lead backward and reach everything from the root at
      its end, keys are in order, and the value of every node is within the limits. */
  lemma ValidMeans(g: Graph)
    ensures ValidGraph(g) <==> Acceptable(g)
  {
    hide NodeBackward, KeysRise, Decode, StandsForLimited, NodeInOrder, Leads, Reaches;
    var nodes := g.nodes;
    forall k | 0 <= k < |nodes|
      ensures NodeInOrder(nodes, k) <==> NodeBackward(nodes, nodes[k], k) && KeysRise(nodes, nodes[k])
      ensures Leads(nodes, g.root, k) <==> Reaches(nodes, g.root, k)
    {
      NodeOrder(nodes, k);
      RoutesArePaths(nodes, g.root, k);
    }
    if Backward(nodes) {
      forall k | 0 <= k < |nodes|
        ensures StandsForLimited(nodes, k) <==> Size(Decode(nodes, k)) <= MAX_EXPANDED_NODES && Depth(Decode(nodes, k)) <= MAX_DEPTH
      {
        StandsWhen(nodes, k);
      }
    }
  }

  /** The whole gate. */
  method Validate(g: Graph) returns (ok: bool)
    ensures ok <==> ValidGraph(g)
    ensures ok <==> Acceptable(g)
  {
    hide Bounded, AllReached, Acceptable;
    ValidMeans(g);
    if g.nodes == [] || g.root != |g.nodes| - 1 {
      return false;
    }
    ok := Measure(g.nodes);
    if ok {
      BoundedBackward(g.nodes);
      ok := Sweep(g.nodes);
    }
  }

  lemma BoundedBackward(nodes: seq<Node>)
    requires Bounded(nodes)
    ensures Backward(nodes)
  {
  }
}
