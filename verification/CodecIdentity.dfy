/** A value has one graph, whatever order its fields were emitted in; a graph in canonical form is
    the one its value has; and the artifact accounting tool expands a graph to the same value. */
module CodecIdentity {
  import opened Prelude
  import opened CodecTrees
  import opened CodecGraphs
  import opened CodecCanonical
  import opened CodecValidate
  import opened CodecZeros
  import opened CodecRoundTrip
  import B = CodecBuilder

  // ----- Emission order -----

  /** Equal up to the order of fields. */
  ghost predicate SameValue(a: Tree, b: Tree)
    decreases a
  {
    match a
    case Array(items) =>
      b.Array? && |b.items| == |items| && forall k :: 0 <= k < |items| ==> SameValue(items[k], b.items[k])
    case Object(fields) =>
      && b.Object?
      && (forall f :: f in fields ==> exists g :: g in b.fields && SameField(f, g))
      && (forall g :: g in b.fields ==> exists f :: f in fields && SameField(f, g))
    case _ => a == b
  }

  ghost predicate SameField(f: Field, g: Field)
    decreases f
  {
    f.key == g.key && SameValue(f.value, g.value)
  }

  ghost predicate Includes<T>(t: seq<T>, s: seq<T>) {
    forall x :: x in s ==> x in t
  }

  /** Two rising lists with the same elements are the same list. */
  lemma {:induction false} RisingEqual<T>(s: seq<T>, t: seq<T>, key: T -> string)
    requires Rising(s, key) && Rising(t, key) && Includes(t, s) && Includes(s, t)
    ensures s == t
    decreases |s|
  {
    hide Before;
    assert forall k :: 0 <= k < |t| ==> t[k] in s by {
      assert forall k :: 0 <= k < |t| ==> t[k] in t;
    }
    if s != [] {
      assert s[0] in s;
      var j :| 0 <= j < |t| && t[j] == s[0];
      assert t[0] in t;
      var i :| 0 <= i < |s| && s[i] == t[0];
      BeforeTotal(key(s[0]), key(t[0]));
      assert s[0] == t[0];
      TailMembers(s, t, key);
      TailMembers(t, s, key);
      RisingTail(s, key);
      RisingTail(t, key);
      RisingEqual(s[1..], t[1..], key);
    }
  }

  lemma TailMembers<T>(s: seq<T>, t: seq<T>, key: T -> string)
    requires s != [] && t != [] && s[0] == t[0] && Rising(s, key) && Includes(t, s)
    ensures Includes(t[1..], s[1..])
  {
    hide Before;
    forall x | x in s[1..] ensures x in t[1..] {
      var i :| 0 <= i < |s[1..]| && s[1..][i] == x;
      assert s[i + 1] == x && x in s;
      BeforeTotal(key(s[0]), key(s[i + 1]));
      var j :| 0 <= j < |t| && t[j] == x;
      assert j > 0;
      assert t[1..][j - 1] == x;
    }
  }

  lemma RisingTail<T>(s: seq<T>, key: T -> string)
    requires s != [] && Rising(s, key)
    ensures Rising(s[1..], key)
  {
    hide Before;
    assert forall k :: 0 <= k < |s[1..]| ==> s[1..][k] == s[k + 1];
  }

  lemma SortedRises(fields: seq<Field>)
    requires UniqueBy(fields, KeyOf)
    ensures Rising(SortBy(CanonFields(fields), KeyOf), KeyOf)
  {
    var raw := CanonFields(fields);
    assert UniqueBy(raw, KeyOf) by {
      assert forall i :: 0 <= i < |fields| ==> KeyOf(raw[i]) == KeyOf(fields[i]);
    }
    SortUnique(raw, KeyOf);
    SortHolds(raw, KeyOf);
    OrderedUniqueRises(SortBy(raw, KeyOf), KeyOf);
  }

  function CanonField(f: Field): Field {
    Field(f.key, Canon(f.value))
  }

  /** The canonical fields of an object are its fields in canonical form. */
  lemma CanonMembers(fields: seq<Field>)
    ensures forall f :: f in fields ==> CanonField(f) in SortBy(CanonFields(fields), KeyOf)
    ensures forall c :: c in SortBy(CanonFields(fields), KeyOf) ==> exists f :: f in fields && CanonField(f) == c
  {
    hide SortBy;
    var raw := CanonFields(fields);
    SortMembers(raw, KeyOf);
    forall f | f in fields ensures CanonField(f) in SortBy(raw, KeyOf) {
      var k :| 0 <= k < |fields| && fields[k] == f;
      assert raw[k] in raw;
    }
    forall c | c in SortBy(raw, KeyOf) ensures exists f :: f in fields && CanonField(f) == c {
      assert c in raw;
      var k :| 0 <= k < |raw| && raw[k] == c;
      assert fields[k] in fields && CanonField(fields[k]) == c;
    }
  }

  /** The canonical form forgets the order of fields and nothing else. */
  lemma {:induction false} CanonIdentifies(a: Tree, b: Tree)
    requires UniqueKeys(a) && UniqueKeys(b)
    ensures Canon(a) == Canon(b) <==> SameValue(a, b)
    decreases a
  {
    hide SortBy, Rising, UniqueBy;
    match a
    case Array(items) =>
      if b.Array? && |b.items| == |items| {
        forall k | 0 <= k < |items| ensures Canon(items[k]) == Canon(b.items[k]) <==> SameValue(items[k], b.items[k]) {
          assert items[k] in items && b.items[k] in b.items;
          CanonIdentifies(items[k], b.items[k]);
        }
        assert CanonAll(items) == CanonAll(b.items) <==> forall k :: 0 <= k < |items| ==> Canon(items[k]) == Canon(b.items[k]);
      } else if b.Array? {
        assert |CanonAll(items)| != |CanonAll(b.items)|;
      }
    case Object(fields) =>
      if b.Object? {
        ObjectsIdentify(a, b);
      }
    case _ =>
  }

  /** Every field of one list has a field of the other with its canonical form. */
  ghost predicate Covered(fa: seq<Field>, fb: seq<Field>) {
    forall f :: f in fa ==> exists g :: g in fb && CanonField(g) == CanonField(f)
  }

  lemma CoveredSorted(fa: seq<Field>, fb: seq<Field>)
    ensures Covered(fa, fb) <==> Includes(SortBy(CanonFields(fb), KeyOf), SortBy(CanonFields(fa), KeyOf))
  {
    hide SortBy, CanonField, CanonFields;
    CanonMembers(fa);
    CanonMembers(fb);
    var sa, sb := SortBy(CanonFields(fa), KeyOf), SortBy(CanonFields(fb), KeyOf);
    if Covered(fa, fb) {
      forall c | c in sa ensures c in sb {
        var f :| f in fa && CanonField(f) == c;
        var g :| g in fb && CanonField(g) == CanonField(f);
      }
    }
    if Includes(sb, sa) {
      forall f | f in fa ensures exists g :: g in fb && CanonField(g) == CanonField(f) {
        assert CanonField(f) in sa;
        var g :| g in fb && CanonField(g) == CanonField(f);
      }
    }
  }

  lemma IncludesSelf<T>(s: seq<T>)
    ensures Includes(s, s)
  {
  }

  lemma SortedCovered(fa: seq<Field>, fb: seq<Field>)
    requires UniqueBy(fa, KeyOf) && UniqueBy(fb, KeyOf)
    ensures SortBy(CanonFields(fa), KeyOf) == SortBy(CanonFields(fb), KeyOf) <==> Covered(fa, fb) && Covered(fb, fa)
  {
    hide SortBy, Canon, Covered, Rising, Includes;
    CoveredSorted(fa, fb);
    CoveredSorted(fb, fa);
    IncludesSelf(SortBy(CanonFields(fa), KeyOf));
    if Covered(fa, fb) && Covered(fb, fa) {
      SortedRises(fa);
      SortedRises(fb);
      RisingEqual(SortBy(CanonFields(fa), KeyOf), SortBy(CanonFields(fb), KeyOf), KeyOf);
    }
  }

  ghost predicate SameFields(fa: seq<Field>, fb: seq<Field>) {
    SameForward(fa, fb) && SameBackward(fa, fb)
  }

  ghost predicate SameForward(fa: seq<Field>, fb: seq<Field>) {
    forall f :: f in fa ==> exists g :: g in fb && SameField(f, g)
  }

  ghost predicate SameBackward(fa: seq<Field>, fb: seq<Field>) {
    forall g :: g in fb ==> exists f :: f in fa && SameField(f, g)
  }

  lemma SameObjects(a: Tree, b: Tree)
    requires a.Object? && b.Object?
    ensures SameValue(a, b) <==> SameFields(a.fields, b.fields)
  {
    hide SameField;
  }

  ghost predicate PairsAgree(fa: seq<Field>, fb: seq<Field>) {
    forall f, g :: f in fa && g in fb ==> (CanonField(g) == CanonField(f) <==> SameField(f, g))
  }

  lemma CoveredForward(fa: seq<Field>, fb: seq<Field>)
    requires PairsAgree(fa, fb)
    ensures Covered(fa, fb) <==> SameForward(fa, fb)
  {
    hide SameField, CanonField;
    if Covered(fa, fb) {
      forall f | f in fa ensures exists g :: g in fb && SameField(f, g) {
        var g :| g in fb && CanonField(g) == CanonField(f);
      }
    }
    if SameForward(fa, fb) {
      forall f | f in fa ensures exists g :: g in fb && CanonField(g) == CanonField(f) {
        var g :| g in fb && SameField(f, g);
      }
    }
  }

  lemma CoveredBackward(fa: seq<Field>, fb: seq<Field>)
    requires PairsAgree(fa, fb)
    ensures Covered(fb, fa) <==> SameBackward(fa, fb)
  {
    hide SameField, CanonField;
    if Covered(fb, fa) {
      forall g | g in fb ensures exists f :: f in fa && SameField(f, g) {
        var f :| f in fa && CanonField(f) == CanonField(g);
      }
    }
    if SameBackward(fa, fb) {
      forall g | g in fb ensures exists f :: f in fa && CanonField(f) == CanonField(g) {
        var f :| f in fa && SameField(f, g);
      }
    }
  }

  lemma {:induction false} ObjectsIdentify(a: Tree, b: Tree)
    requires a.Object? && b.Object? && UniqueKeys(a) && UniqueKeys(b)
    ensures Canon(a) == Canon(b) <==> SameValue(a, b)
    decreases a, 0
  {
    hide SortBy, Canon, SameValue, Covered, SameForward, SameBackward;
    var fa, fb := a.fields, b.fields;
    CanonOfObject(a);
    CanonOfObject(b);
    SortedCovered(fa, fb);
    forall f, g | f in fa && g in fb ensures CanonField(g) == CanonField(f) <==> SameField(f, g) {
      CanonIdentifies(f.value, g.value);
    }
    CoveredForward(fa, fb);
    CoveredBackward(fa, fb);
    SameObjects(a, b);
  }

  lemma CanonOfObject(t: Tree)
    requires t.Object?
    ensures Canon(t) == Object(SortBy(CanonFields(t.fields), KeyOf))
  {
  }

  /** Two values without repeated keys have the same graph exactly when they are the same up to
      the order in which fields were emitted, once all zeros have the sign of the first. */
  lemma EncodingIsCanonical(a: Tree, b: Tree)
    requires UniqueKeys(a) && UniqueKeys(b) && Encoded(a).Some? && Encoded(b).Some?
    ensures Encoded(a) == Encoded(b) <==> SameValue(Settled(a), Settled(b))
  {
    hide Terms, CanonicalGraph, SameValue, UniqueKeys, Settle, FirstZero;
    SettleUnique(a, FirstZero(a));
    SettleUnique(b, FirstZero(b));
    CanonIdentifies(Settled(a), Settled(b));
    CanonicalGraphDecodes(Canon(Settled(a)));
    CanonicalGraphDecodes(Canon(Settled(b)));
  }

  /** The order in which a value's fields are emitted does not show in its graph exactly when it does
      not change which zero comes first. */
  lemma EmissionOrderShows(a: Tree, b: Tree)
    requires UniqueKeys(a) && UniqueKeys(b) && Encoded(a).Some? && Encoded(b).Some? && SameValue(a, b)
    ensures Encoded(a) == Encoded(b) <==> FirstZero(a) == FirstZero(b)
  {
    hide Terms, CanonicalGraph, SameValue, UniqueKeys, Settle, FirstZero;
    CanonIdentifies(a, b);
    FirstZeroDecides(a, b);
    CanonicalGraphDecodes(Canon(Settled(a)));
    CanonicalGraphDecodes(Canon(Settled(b)));
  }

  /** So for values without both zeros one graph means one value up to the order of fields. */
  lemma OneZeroIsCanonical(a: Tree, b: Tree)
    requires UniqueKeys(a) && UniqueKeys(b) && Encoded(a).Some? && Encoded(b).Some? && OneZero(a) && OneZero(b)
    ensures Encoded(a) == Encoded(b) <==> SameValue(a, b)
  {
    hide Encoded, SameValue, UniqueKeys, Settle, FirstZero, OneZero;
    EncodingIsCanonical(a, b);
    SettledExactly(a);
    SettledExactly(b);
  }

  function TwoZeros(first: Field, second: Field): Tree {
    Object([first, second])
  }

  /** One value with both zeros, its fields emitted in two orders: two graphs. */
  lemma TwoOrdersTwoGraphs()
    ensures var x, y := Field("x", Number(MinusZero)), Field("y", Number(Float(0.0)));
            var a, b := TwoZeros(x, y), TwoZeros(y, x);
            SameValue(a, b) && WithinLimits(a) && WithinLimits(b) && Encoded(a).Some? && Encoded(b).Some? && Encoded(a) != Encoded(b)
  {
    hide Encoded, Deserialized;
    var x, y := Field("x", Number(MinusZero)), Field("y", Number(Float(0.0)));
    var a, b := TwoZeros(x, y), TwoZeros(y, x);
    TwoFields(x, y);
    TwoFields(y, x);
    RoundTrip(a);
    RoundTrip(b);
    EmissionOrderShows(a, b);
  }

  lemma TwoFields(x: Field, y: Field)
    requires x.key != y.key && x.value.Number? && y.value.Number? && IsZero(x.value.n)
    ensures WithinLimits(TwoZeros(x, y)) && FirstZero(TwoZeros(x, y)) == Some(x.value.n)
    ensures SameValue(TwoZeros(x, y), TwoZeros(y, x))
  {
    var fields := [x, y];
    assert fields[1..] == [y] && [y][1..] == [] && fields[..1] == [x] && [x][..0] == [];
    assert FirstOfFields([x]) == Some(x.value.n);
    assert SizeFields([y]) == 2 && SizeFields(fields) == 4;
    assert Depth(x.value) == 1 && Depth(y.value) == 1 && DepthFields([y]) == 1;
    assert DepthFields(fields) == Max(Max(1, Depth(x.value)), DepthFields([y]));
    assert SameField(x, x) && SameField(y, y);
  }

  // ----- Canonical graphs -----

  /** No value's graph holds two equal nodes, and its nodes are numbered in walk order. */
  ghost predicate CanonicalForm(g: Graph)
    requires Backward(g.nodes) && g.root < |g.nodes|
  {
    B.Different(g.nodes) && Visit(g.nodes, g.root, []) == seq(|g.nodes|, k => k)
  }

  lemma EqualNodesDecodeEqual(nodes: seq<Node>, i: nat, j: nat)
    requires Backward(nodes) && i < |nodes| && j < |nodes| && nodes[i] == nodes[j]
    ensures Decode(nodes, i) == Decode(nodes, j)
  {
    BackwardAt(nodes, i);
    BackwardAt(nodes, j);
    match nodes[i]
    case A(items) => assert DecodeAll(nodes, items, i) == DecodeAll(nodes, items, j);
    case O(entries) => assert DecodeEntries(nodes, entries, i) == DecodeEntries(nodes, entries, j);
    case _ =>
  }

  lemma {:induction false} WithinHolds(x: Tree, t: Tree, n: Num)
    requires Within(x, t) && Holds(x, n)
    ensures Holds(t, n)
    decreases t
  {
    if x != t {
      match t
      case Array(items) =>
        var k :| 0 <= k < |items| && Within(x, items[k]);
        WithinHolds(x, items[k], n);
        assert items[k] in items;
      case Object(fields) =>
        var k :| 0 <= k < |fields| && (x == KeyTree(fields[k]) || Within(x, fields[k].value));
        WithinHolds(x, fields[k].value, n);
        assert fields[k] in fields;
      case _ =>
    }
  }

  /** The graph of a value without both zeros holds no two equal nodes. */
  lemma TermsDiffer(t: Tree)
    requires OneZero(t)
    ensures B.Different(CanonicalGraph(t).nodes)
  {
    hide Post, Backward, Decode, NodeOf, Visit, Holds, Within;
    var g, terms := CanonicalGraph(t), Terms(t);
    CanonicalGraphDecodes(t);
    TermsComplete(t);
    forall i, j | 0 <= i < j < |g.nodes| ensures B.Unsigned(g.nodes[i]) != B.Unsigned(g.nodes[j]) {
      if g.nodes[i] == g.nodes[j] {
        EqualNodesDecodeEqual(g.nodes, i, j);
      } else if g.nodes[i].I? && g.nodes[j].I? && IsZero(g.nodes[i].n) && IsZero(g.nodes[j].n) {
        NumberHeld(t, i);
        NumberHeld(t, j);
      }
    }
  }

  lemma NumberHeld(t: Tree, k: nat)
    requires k < |CanonicalGraph(t).nodes| && CanonicalGraph(t).nodes[k].I?
    ensures Holds(t, CanonicalGraph(t).nodes[k].n)
  {
    hide Post, Backward, NodeOf, Within;
    var g, terms := CanonicalGraph(t), Terms(t);
    CanonicalGraphDecodes(t);
    BackwardAt(g.nodes, k);
    TermsAreWithin(t, terms[k]);
    WithinHolds(terms[k], t, g.nodes[k].n);
  }

  /** What encoding gives holds no two equal nodes, all numbered in walk order. */
  lemma EncodedIsCanonicalForm(t: Tree)
    requires Encoded(t).Some?
    ensures var g := Encoded(t).value; Backward(g.nodes) && g.root < |g.nodes| && CanonicalForm(g)
  {
    hide Post, Backward, Decode, NodeOf, Visit, Canon, Settle, FirstZero, Holds, B.Different;
    var kept := Canon(Settled(t));
    SettledHasOneZero(t);
    CanonHolds(Settled(t), Float(0.0));
    CanonHolds(Settled(t), MinusZero);
    TermsDiffer(kept);
    WalkOrder(kept);
  }

  lemma WalkOrder(t: Tree)
    ensures var g := CanonicalGraph(t); Backward(g.nodes) && g.root < |g.nodes| && Visit(g.nodes, g.root, []) == seq(|g.nodes|, k => k)
  {
    hide Post, Backward, Decode, NodeOf, Visit;
    var g, terms := CanonicalGraph(t), Terms(t);
    CanonicalGraphDecodes(t);
    TermsComplete(t);
    forall i, j | 0 <= i < j < |g.nodes| ensures g.nodes[i] != g.nodes[j] {
      if g.nodes[i] == g.nodes[j] {
        EqualNodesDecodeEqual(g.nodes, i, j);
      }
    }
    var order := Visit(g.nodes, g.root, []);
    WalksAgree(g.nodes, g.root, []);
    assert Decoded(g.nodes, []) == [];
    forall k | 0 <= k < |order| ensures order[k] == k {
      assert Decoded(g.nodes, order)[k] == terms[k];
      DecodeInjective(g.nodes, order[k], k);
    }
  }

  /** A number in a value is a node of its graph. */
  lemma {:induction false} HeldIsNode(nodes: seq<Node>, id: nat, n: Num)
    requires Backward(nodes) && id < |nodes| && Holds(Decode(nodes, id), n)
    ensures I(n) in nodes
    decreases id
  {
    hide DecodeAll, DecodeEntries;
    BackwardAt(nodes, id);
    match nodes[id]
    case I(m) => assert nodes[id] in nodes;
    case A(items) =>
      var x :| x in DecodeAll(nodes, items, id) && Holds(x, n);
      var k :| 0 <= k < |items| && DecodeAll(nodes, items, id)[k] == x;
      HeldIsNode(nodes, items[k], n);
    case O(entries) =>
      var f :| f in DecodeEntries(nodes, entries, id) && Holds(f.value, n);
      var k :| 0 <= k < |entries| && DecodeEntries(nodes, entries, id)[k] == f;
      HeldIsNode(nodes, entries[k].value, n);
    case _ =>
  }

  lemma SameNode(nodes: seq<Node>, i: nat, j: nat)
    requires B.Different(nodes) && i < |nodes| && j < |nodes| && B.Unsigned(nodes[i]) == B.Unsigned(nodes[j])
    ensures i == j
  {
  }

  lemma DifferentHasOneZero(nodes: seq<Node>, id: nat)
    requires Backward(nodes) && id < |nodes| && B.Different(nodes)
    ensures OneZero(Decode(nodes, id))
  {
    hide Decode, Backward;
    if !OneZero(Decode(nodes, id)) {
      HeldIsNode(nodes, id, Float(0.0));
      HeldIsNode(nodes, id, MinusZero);
      var i :| 0 <= i < |nodes| && nodes[i] == I(Float(0.0));
      var j :| 0 <= j < |nodes| && nodes[j] == I(MinusZero);
      SameNode(nodes, i, j);
    }
  }

  lemma {:induction false} SortOfOrdered<T>(s: seq<T>, key: T -> string)
    requires Ordered(s, key)
    ensures SortBy(s, key) == s
    decreases |s|
  {
    hide Before;
    if s != [] {
      assert forall k :: 0 <= k < |s[1..]| ==> s[1..][k] == s[k + 1];
      SortOfOrdered(s[1..], key);
      assert Position(s[0], s[1..], key) == 0;
      assert [s[0]] + s[1..] == s;
    }
  }

  lemma {:induction false} CanonOfCanonical(t: Tree)
    requires Canonical(t)
    ensures Canon(t) == t
  {
    match t
    case Array(items) =>
      forall k | 0 <= k < |items| ensures Canon(items[k]) == items[k] {
        assert items[k] in items;
        CanonOfCanonical(items[k]);
      }
      assert CanonAll(items) == items;
    case Object(fields) =>
      forall k | 0 <= k < |fields| ensures Canon(fields[k].value) == fields[k].value {
        assert fields[k] in fields;
        CanonOfCanonical(fields[k].value);
      }
      assert CanonFields(fields) == fields;
      SortOfOrdered(fields, KeyOf);
    case _ =>
  }

  lemma RemapIdentity(n: Node, count: nat)
    requires AllBelow(Refs(n), count)
    ensures Remap(n, seq(count, k => k)) == n
  {
    hide IndexOf;
    var order := seq(count, k => k);
    assert Distinct(order);
    match n
    case A(items) =>
      forall k | 0 <= k < |items| ensures IndexOf(items[k], order) == items[k] {
        IndexOfAt(order, items[k]);
      }
    case O(entries) =>
      var refs := EntryRefs(entries);
      forall k | 0 <= k < |entries|
        ensures IndexOf(entries[k].key, order) == entries[k].key && IndexOf(entries[k].value, order) == entries[k].value
      {
        assert refs[2 * k] == entries[k].key && refs[2 * k + 1] == entries[k].value;
        IndexOfAt(order, entries[k].key);
        IndexOfAt(order, entries[k].value);
      }
    case _ =>
  }

  /** Encoding what an accepted graph decodes to gives that graph again exactly when the graph has
      no two equal nodes and is numbered in walk order; decoding it again changes no value but for
      the sign of zeros. */
  lemma Reencoding(g: Graph)
    requires ValidGraph(g)
    ensures Backward(g.nodes) && g.root < |g.nodes|
    ensures var t := Decode(g.nodes, g.root);
            && Encoded(t).Some? && Deserialized(Encoded(t).value) == Some(Settled(t))
            && (Encoded(t) == Some(g) <==> CanonicalForm(g))
  {
    hide Terms, Decode, Visit, Backward, ValidGraph, CanonicalGraph, Canonical, UniqueKeys, Bounded, Remap, Settle, FirstZero, B.Different,
      Encoded, OneZero, Canon;
    AcceptedFacts(g);
    var t := Decode(g.nodes, g.root);
    RoundTrip(t);
    CanonOfCanonical(t);
    SettleCanon(t, FirstZero(t));
    EncodedIsCanonicalForm(t);
    if CanonicalForm(g) {
      DifferentHasOneZero(g.nodes, g.root);
      SettledExactly(t);
      CanonicalReencodes(g);
    }
  }

  lemma CanonicalReencodes(g: Graph)
    requires Backward(g.nodes) && g.root == |g.nodes| - 1 && CanonicalForm(g)
    requires var t := Decode(g.nodes, g.root); Canon(t) == t && Settled(t) == t && Encoded(t).Some?
    ensures Encoded(Decode(g.nodes, g.root)) == Some(g)
  {
    hide Terms, Decode, Visit, Backward, CanonicalGraph, Remap, Settle, FirstZero;
    B.DifferentIsDistinct(g.nodes);
    ReferenceIsCanonical(g.nodes, g.root);
    forall k | 0 <= k < |g.nodes| ensures Remap(g.nodes[k], Visit(g.nodes, g.root, [])) == g.nodes[k] {
      RefsBelow(g.nodes, k);
      RemapIdentity(g.nodes[k], |g.nodes|);
    }
    assert Reference(g.nodes, g.root).nodes == g.nodes;
  }

  lemma AcceptedFacts(g: Graph)
    requires ValidGraph(g)
    ensures Backward(g.nodes) && g.root == |g.nodes| - 1
    ensures var t := Decode(g.nodes, g.root);
            Canonical(t) && UniqueKeys(t) && Size(t) <= MAX_EXPANDED_NODES && Depth(t) <= MAX_DEPTH
  {
    BoundedDecodes(g.nodes, g.root);
  }

  // ----- The accounting tool's expansion -----

  /** Python values: an object becomes a dictionary. */
  datatype Py =
    | PyNone
    | PyBool(b: bool)
    | PyNumber(n: Num)
    | PyStr(s: string)
    | PyList(items: seq<Py>)
    | PyDict(entries: map<string, Py>)

  /** `expand`: one comprehension per node, later keys replacing earlier ones. */
  function Expand(nodes: seq<Node>, id: nat): Py
    requires Backward(nodes) && id < |nodes|
    decreases id, 1, 0
  {
    BackwardAt(nodes, id);
    match nodes[id]
    case N => PyNone
    case B(b) => PyBool(b)
    case I(n) => PyNumber(n)
    case S(s) => PyStr(s)
    case A(items) => PyList(ExpandAll(nodes, items, id))
    case O(entries) => PyDict(ExpandEntries(nodes, entries, id))
  }

  function ExpandAll(nodes: seq<Node>, items: seq<nat>, bound: nat): seq<Py>
    requires Backward(nodes) && bound <= |nodes| && AllBelow(items, bound)
    decreases bound, 0, |items|
  {
    if items == [] then [] else [Expand(nodes, items[0])] + ExpandAll(nodes, items[1..], bound)
  }

  function ExpandEntries(nodes: seq<Node>, entries: seq<Entry>, bound: nat): map<string, Py>
    requires Backward(nodes) && EntriesBelow(nodes, entries, bound)
    decreases bound, 0, |entries|
  {
    if entries == [] then map[]
    else
      var last := entries[|entries| - 1];
      ExpandEntries(nodes, entries[..|entries| - 1], bound)[nodes[last.key].s := Expand(nodes, last.value)]
  }

  /** A decoded value as Python sees it. */
  function AsPy(t: Tree): Py
    decreases t, 1
  {
    match t
    case Null => PyNone
    case Boolean(b) => PyBool(b)
    case Number(n) => PyNumber(n)
    case Text(s) => PyStr(s)
    case Array(items) => PyList(AllAsPy(items))
    case Object(fields) => PyDict(FieldsAsPy(fields))
  }

  function AllAsPy(items: seq<Tree>): (r: seq<Py>)
    ensures |r| == |items| && forall k :: 0 <= k < |items| ==> r[k] == AsPy(items[k])
    decreases items, 0
  {
    if items == [] then [] else [AsPy(items[0])] + AllAsPy(items[1..])
  }

  function FieldsAsPy(fields: seq<Field>): map<string, Py>
    decreases fields, 0
  {
    if fields == [] then map[]
    else FieldsAsPy(fields[..|fields| - 1])[fields[|fields| - 1].key := AsPy(fields[|fields| - 1].value)]
  }

  /** The tool's expansion is the decoder's value, on every well-formed table. */
  lemma {:induction false} ExpandAgrees(nodes: seq<Node>, id: nat)
    requires Backward(nodes) && id < |nodes|
    ensures Expand(nodes, id) == AsPy(Decode(nodes, id))
    decreases id, 1, 0
  {
    hide ExpandAll, ExpandEntries, DecodeAll, DecodeEntries, AllAsPy, FieldsAsPy;
    BackwardAt(nodes, id);
    match nodes[id]
    case A(items) => ExpandAllAgrees(nodes, items, id);
    case O(entries) => ExpandEntriesAgrees(nodes, entries, id);
    case _ =>
  }

  lemma {:induction false} ExpandAllAgrees(nodes: seq<Node>, items: seq<nat>, bound: nat)
    requires Backward(nodes) && bound <= |nodes| && AllBelow(items, bound)
    ensures ExpandAll(nodes, items, bound) == AllAsPy(DecodeAll(nodes, items, bound))
    decreases bound, 0, |items|
  {
    hide Backward;
    if items != [] {
      ExpandAgrees(nodes, items[0]);
      ExpandAllAgrees(nodes, items[1..], bound);
      assert DecodeAll(nodes, items, bound)[1..] == DecodeAll(nodes, items[1..], bound);
    }
  }

  lemma {:induction false} ExpandEntriesAgrees(nodes: seq<Node>, entries: seq<Entry>, bound: nat)
    requires Backward(nodes) && EntriesBelow(nodes, entries, bound)
    ensures ExpandEntries(nodes, entries, bound) == FieldsAsPy(DecodeEntries(nodes, entries, bound))
    decreases bound, 0, |entries|
  {
    hide Backward;
    if entries != [] {
      var rest, last := entries[..|entries| - 1], entries[|entries| - 1];
      ExpandAgrees(nodes, last.value);
      ExpandEntriesAgrees(nodes, rest, bound);
      var fields := DecodeEntries(nodes, entries, bound);
      assert fields[..|fields| - 1] == DecodeEntries(nodes, rest, bound);
    }
  }

  lemma {:induction false} FieldsAsPyEntries(fields: seq<Field>)
    requires UniqueBy(fields, KeyOf)
    ensures forall k :: 0 <= k < |fields| ==> fields[k].key in FieldsAsPy(fields) && FieldsAsPy(fields)[fields[k].key] == AsPy(fields[k].value)
    ensures forall key :: key in FieldsAsPy(fields) ==> exists k :: 0 <= k < |fields| && fields[k].key == key
    decreases |fields|
  {
    if fields != [] {
      var rest := fields[..|fields| - 1];
      assert forall k :: 0 <= k < |rest| ==> rest[k] == fields[k];
      FieldsAsPyEntries(rest);
    }
  }

  /** Nothing is lost on the way to Python: values without repeated keys, in canonical form, stay
      different. So two accepted graphs expand to equal data exactly when they hold equal values. */
  lemma {:induction false} AsPyInjective(a: Tree, b: Tree)
    requires Canonical(a) && Canonical(b) && UniqueKeys(a) && UniqueKeys(b) && AsPy(a) == AsPy(b)
    ensures a == b
    decreases a
  {
    match a
    case Array(items) =>
      assert |AllAsPy(items)| == |AllAsPy(b.items)|;
      forall k | 0 <= k < |items| ensures items[k] == b.items[k] {
        assert items[k] in items && b.items[k] in b.items;
        assert AllAsPy(items)[k] == AllAsPy(b.items)[k];
        AsPyInjective(items[k], b.items[k]);
      }
      assert items == b.items;
    case Object(fields) => DictInjective(a, b);
    case _ =>
  }

  lemma {:induction false} DictInjective(a: Tree, b: Tree)
    requires a.Object? && b.Object? && Canonical(a) && Canonical(b) && UniqueKeys(a) && UniqueKeys(b) && AsPy(a) == AsPy(b)
    ensures a == b
    decreases a, 0
  {
    hide Before, Rising, Ordered, UniqueBy;
    var fa, fb := a.fields, b.fields;
    forall i, j | 0 <= i < |fa| && 0 <= j < |fb| && fa[i].key == fb[j].key && AsPy(fa[i].value) == AsPy(fb[j].value)
      ensures fa[i] == fb[j]
    {
      assert fa[i] in fa && fb[j] in fb;
      AsPyInjective(fa[i].value, fb[j].value);
    }
    SameEntries(fa, fb);
    SameEntries(fb, fa);
    OrderedUniqueRises(fa, KeyOf);
    OrderedUniqueRises(fb, KeyOf);
    RisingEqual(fa, fb, KeyOf);
  }

  /** Of fields with equal expansions, those of one list are in the other. */
  lemma SameEntries(fa: seq<Field>, fb: seq<Field>)
    requires UniqueBy(fa, KeyOf) && UniqueBy(fb, KeyOf) && FieldsAsPy(fa) == FieldsAsPy(fb)
    requires forall i, j :: 0 <= i < |fa| && 0 <= j < |fb| && fa[i].key == fb[j].key && AsPy(fa[i].value) == AsPy(fb[j].value) ==>
               fa[i] == fb[j]
    ensures Includes(fb, fa)
  {
    hide UniqueBy, AsPy, FieldsAsPy;
    FieldsAsPyEntries(fa);
    FieldsAsPyEntries(fb);
    forall f | f in fa ensures f in fb {
      var i :| 0 <= i < |fa| && fa[i] == f;
      var j :| 0 <= j < |fb| && fb[j].key == f.key;
    }
  }

  /** What a number is, apart from its type. */
  function Worth(n: Num): real {
    match n
    case Integer(i) => i as real
    case Float(value) => value
    case MinusZero => 0.0
  }

  function TruthNumber(b: bool): Num {
    Integer(if b then 1 else 0)
  }

  /** Python's `==`: numbers and truth values compare by what they are worth, the rest by shape. */
  ghost predicate PythonEqual(p: Py, q: Py) {
    match p
    case PyNone => q.PyNone?
    case PyBool(b) => NumberLike(q) && Worth(TruthNumber(b)) == Worth(AsNumber(q))
    case PyNumber(n) => NumberLike(q) && Worth(n) == Worth(AsNumber(q))
    case PyStr(s) => q == p
    case PyList(items) =>
      q.PyList? && |q.items| == |items| && forall k :: 0 <= k < |items| ==> PythonEqual(items[k], q.items[k])
    case PyDict(entries) =>
      q.PyDict? && q.entries.Keys == entries.Keys && forall key :: key in entries ==> PythonEqual(entries[key], q.entries[key])
  }

  predicate NumberLike(p: Py) {
    p.PyBool? || p.PyNumber?
  }

  function AsNumber(p: Py): Num
    requires NumberLike(p)
  {
    if p.PyBool? then TruthNumber(p.b) else p.n
  }

  /** One spelling for all numbers of one worth: the integer, if there is one. */
  function Plain(n: Num): Num {
    match n
    case Integer(_) => n
    case Float(value) => if value == value.Floor as real then Integer(value.Floor) else n
    case MinusZero => Integer(0)
  }

  lemma PlainMeansWorth(m: Num, n: Num)
    ensures Plain(m) == Plain(n) <==> Worth(m) == Worth(n)
  {
    if m.Integer? && n.Integer? {
      assert m.n as real == n.n as real <==> m.n == n.n;
    } else if m.Integer? {
      assert (m.n as real).Floor == m.n;
    } else if n.Integer? {
      assert (n.n as real).Floor == n.n;
    }
  }

  /** A value with every number spelled plainly and truth values as numbers, at any depth. */
  function Blurred(p: Py): Py {
    match p
    case PyBool(b) => PyNumber(TruthNumber(b))
    case PyNumber(n) => PyNumber(Plain(n))
    case PyList(items) => PyList(seq(|items|, k requires 0 <= k < |items| => Blurred(items[k])))
    case PyDict(entries) => PyDict(map k | k in entries :: Blurred(entries[k]))
    case _ => p
  }

  lemma {:induction false} EqualMeansBlurred(p: Py, q: Py)
    ensures PythonEqual(p, q) <==> Blurred(p) == Blurred(q)
  {
    match p
    case PyBool(b) => NumbersBlur(p, q);
    case PyNumber(n) => NumbersBlur(p, q);
    case PyList(items) =>
      if q.PyList? && |q.items| == |items| {
        ListsBlur(items, q.items);
        forall k | 0 <= k < |items| ensures PythonEqual(items[k], q.items[k]) <==> Blurred(items[k]) == Blurred(q.items[k]) {
          EqualMeansBlurred(items[k], q.items[k]);
        }
      } else if q.PyList? {
        assert |Blurred(p).items| != |Blurred(q).items|;
      }
    case PyDict(entries) =>
      if q.PyDict? && q.entries.Keys == entries.Keys {
        DictsBlur(entries, q.entries);
        forall key | key in entries ensures PythonEqual(entries[key], q.entries[key]) <==> Blurred(entries[key]) == Blurred(q.entries[key]) {
          EqualMeansBlurred(entries[key], q.entries[key]);
        }
      } else if q.PyDict? {
        assert Blurred(p).entries.Keys == entries.Keys && Blurred(q).entries.Keys == q.entries.Keys;
      }
    case _ =>
  }

  lemma NumbersBlur(p: Py, q: Py)
    requires NumberLike(p)
    ensures PythonEqual(p, q) <==> Blurred(p) == Blurred(q)
  {
    if NumberLike(q) {
      PlainMeansWorth(AsNumber(p), AsNumber(q));
    }
  }

  lemma ListsBlur(a: seq<Py>, b: seq<Py>)
    requires |a| == |b|
    ensures Blurred(PyList(a)) == Blurred(PyList(b)) <==> forall k :: 0 <= k < |a| ==> Blurred(a[k]) == Blurred(b[k])
  {
    var x, y := Blurred(PyList(a)).items, Blurred(PyList(b)).items;
    assert forall k :: 0 <= k < |a| ==> x[k] == Blurred(a[k]) && y[k] == Blurred(b[k]);
  }

  lemma DictsBlur(a: map<string, Py>, b: map<string, Py>)
    requires a.Keys == b.Keys
    ensures Blurred(PyDict(a)) == Blurred(PyDict(b)) <==> forall key :: key in a ==> Blurred(a[key]) == Blurred(b[key])
  {
    var x, y := Blurred(PyDict(a)).entries, Blurred(PyDict(b)).entries;
    assert forall key :: key in a ==> x[key] == Blurred(a[key]) && y[key] == Blurred(b[key]);
    if x == y {
      forall key | key in a ensures Blurred(a[key]) == Blurred(b[key]) {
        assert x[key] == y[key];
      }
    }
  }

  /** The same confusion on decoded values. */
  function Blur(t: Tree): Tree {
    match t
    case Boolean(b) => Number(TruthNumber(b))
    case Number(n) => Number(Plain(n))
    case Array(items) => Array(seq(|items|, k requires 0 <= k < |items| => Blur(items[k])))
    case Object(fields) => Object(seq(|fields|, k requires 0 <= k < |fields| => Field(fields[k].key, Blur(fields[k].value))))
    case _ => t
  }

  lemma {:induction false} BlurKeeps(t: Tree)
    requires Canonical(t) && UniqueKeys(t)
    ensures Canonical(Blur(t)) && UniqueKeys(Blur(t))
  {
    hide Before;
    match t
    case Array(items) =>
      forall x | x in Blur(t).items ensures Canonical(x) && UniqueKeys(x) {
        var k :| 0 <= k < |items| && Blur(t).items[k] == x;
        assert items[k] in items;
        BlurKeeps(items[k]);
      }
    case Object(fields) =>
      assert forall k :: 0 <= k < |fields| ==> KeyOf(Blur(t).fields[k]) == KeyOf(fields[k]);
      forall f | f in Blur(t).fields ensures Canonical(f.value) && UniqueKeys(f.value) {
        var k :| 0 <= k < |fields| && Blur(t).fields[k] == f;
        assert fields[k] in fields;
        BlurKeeps(fields[k].value);
      }
    case _ =>
  }

  lemma {:induction false} DictBlurs(fields: seq<Field>, blurred: seq<Field>)
    requires |blurred| == |fields|
    requires forall k :: 0 <= k < |fields| ==>
               KeyOf(blurred[k]) == KeyOf(fields[k]) && AsPy(blurred[k].value) == Blurred(AsPy(fields[k].value))
    ensures PyDict(FieldsAsPy(blurred)) == Blurred(PyDict(FieldsAsPy(fields)))
    decreases |fields|
  {
    hide AsPy;
    var n := |fields| - 1;
    if n >= 0 {
      DictBlurs(fields[..n], blurred[..n]);
      var a, b := FieldsAsPy(fields[..n]), FieldsAsPy(blurred[..n]);
      var key, value := fields[n].key, AsPy(fields[n].value);
      assert b == map k | k in a :: Blurred(a[k]);
      var more := a[key := value];
      assert b[key := Blurred(value)] == map k | k in more :: Blurred(more[k]);
    }
  }

  lemma {:induction false} BlurCommutes(t: Tree)
    requires UniqueKeys(t)
    ensures AsPy(Blur(t)) == Blurred(AsPy(t))
  {
    hide FieldsAsPy;
    match t
    case Array(items) =>
      forall k | 0 <= k < |items| ensures AsPy(Blur(items[k])) == Blurred(AsPy(items[k])) {
        assert items[k] in items;
        BlurCommutes(items[k]);
      }
      assert AllAsPy(Blur(t).items) == Blurred(AsPy(t)).items;
    case Object(fields) =>
      var blurred := Blur(t).fields;
      assert forall k :: 0 <= k < |fields| ==> KeyOf(blurred[k]) == KeyOf(fields[k]);
      forall k | 0 <= k < |fields| ensures AsPy(blurred[k].value) == Blurred(AsPy(fields[k].value)) {
        assert fields[k] in fields;
        BlurCommutes(fields[k].value);
      }
      DictBlurs(fields, blurred);
    case _ =>
  }

  /** The tool's check that two artifacts hold the same module compares their values with True and
      1, False and 0, and a whole number and the same number as a float, taken for each other; and
      nothing else. */
  lemma ExpansionComparesValues(g: Graph, h: Graph)
    requires ValidGraph(g) && ValidGraph(h)
    ensures Backward(g.nodes) && Backward(h.nodes) && g.root < |g.nodes| && h.root < |h.nodes|
    ensures PythonEqual(Expand(g.nodes, g.root), Expand(h.nodes, h.root)) <==>
            Blur(Decode(g.nodes, g.root)) == Blur(Decode(h.nodes, h.root))
  {
    hide Expand, Decode, Backward, ValidGraph, AsPy, Canonical, UniqueKeys, Blur, Blurred, PythonEqual;
    AcceptedFacts(g);
    AcceptedFacts(h);
    var a, b := Decode(g.nodes, g.root), Decode(h.nodes, h.root);
    ExpandAgrees(g.nodes, g.root);
    ExpandAgrees(h.nodes, h.root);
    EqualMeansBlurred(AsPy(a), AsPy(b));
    BlurCommutes(a);
    BlurCommutes(b);
    BlurKeeps(a);
    BlurKeeps(b);
    if Blurred(AsPy(a)) == Blurred(AsPy(b)) {
      AsPyInjective(Blur(a), Blur(b));
    }
  }

  // ----- Modules that the tool takes for each other -----

  /** What Python can loop over with every element meeting a condition that strings do not meet. */
  ghost predicate Each(p: Py, good: Py -> bool) {
    (p.PyList? && forall x :: x in p.items ==> good(x)) || p == PyStr("") || p == PyDict(map[])
  }

  /** `len` is defined. */
  predicate Sized(p: Py) {
    p.PyList? || p.PyStr? || p.PyDict?
  }

  predicate AccountsBlock(block: Py) {
    block.PyDict? && "instructions" in block.entries && Sized(block.entries["instructions"])
  }

  ghost predicate AccountsFunction(f: Py) {
    f.PyDict? && "blocks" in f.entries && Each(f.entries["blocks"], block => AccountsBlock(block))
  }

  /** The tool can account for a module and gets to its assertion: it counts functions, blocks and
      instructions first. */
  ghost predicate Accounts(p: Py) {
    p.PyDict? && "functions" in p.entries && Each(p.entries["functions"], f => AccountsFunction(f))
  }

  /** A module without functions that holds one more value. */
  function ModuleWith(v: Tree): Tree {
    Object([Field("functions", Array([])), Field("x", v)])
  }

  lemma ModuleFacts(v: Tree)
    requires v.Boolean? || v.Number?
    ensures Canonical(ModuleWith(v)) && WithinLimits(ModuleWith(v))
    ensures AsPy(ModuleWith(v)) == PyDict(map["functions" := PyList([]), "x" := AsPy(v)])
  {
    ModuleInOrder(v);
    ModuleExpands(v);
    ModuleUnique(v);
    ModuleMeasures(v);
  }

  lemma ModuleExpands(v: Tree)
    requires v.Boolean? || v.Number?
    ensures AsPy(ModuleWith(v)) == PyDict(map["functions" := PyList([]), "x" := AsPy(v)])
  {
    var x, y := Field("functions", Array([])), Field("x", v);
    var fields := [x, y];
    assert fields[..1] == [x] && [x][..0] == [];
    assert FieldsAsPy([x]) == map["functions" := PyList([])];
  }

  lemma ModuleUnique(v: Tree)
    requires v.Boolean? || v.Number?
    ensures UniqueKeys(ModuleWith(v))
  {
    assert KeyOf(Field("functions", Array([]))) != KeyOf(Field("x", v));
  }

  lemma ModuleMeasures(v: Tree)
    requires v.Boolean? || v.Number?
    ensures Size(ModuleWith(v)) == 5 && Depth(ModuleWith(v)) == 2
  {
    var x, y := Field("functions", Array([])), Field("x", v);
    var fields := [x, y];
    assert fields[1..] == [y] && [y][1..] == [];
    assert SizeFields([y]) == 2 && SizeFields(fields) == 4;
    assert Depth(x.value) == 1 && Depth(y.value) == 1 && DepthFields([y]) == 1;
    assert DepthFields(fields) == Max(Max(1, Depth(x.value)), DepthFields([y]));
  }

  lemma ModuleInOrder(v: Tree)
    requires v.Boolean? || v.Number?
    ensures Canonical(ModuleWith(v))
  {
    assert Before("functions", "x");
  }

  lemma ModuleHasOneZero(v: Tree)
    requires v.Boolean? || v.Number?
    ensures OneZero(ModuleWith(v))
  {
    assert forall n :: Holds(ModuleWith(v), n) ==> v == Number(n);
  }

  /** The module's artifact is accepted and expands to a module that the tool accounts for. */
  lemma ModuleIsAccounted(v: Tree)
    requires v.Boolean? || v.Number?
    ensures Encoded(ModuleWith(v)).Some?
    ensures var g := Encoded(ModuleWith(v)).value;
            && ValidGraph(g) && Backward(g.nodes) && g.root < |g.nodes| && Decode(g.nodes, g.root) == ModuleWith(v)
            && Expand(g.nodes, g.root) == PyDict(map["functions" := PyList([]), "x" := AsPy(v)])
            && Accounts(Expand(g.nodes, g.root))
  {
    hide Encoded, Canonical, WithinLimits, OneZero, Canon, ModuleWith, Settle, FirstZero, Expand, Decode, Backward, ValidGraph, AsPy;
    var t := ModuleWith(v);
    ModuleFacts(v);
    ModuleHasOneZero(v);
    RoundTrip(t);
    SettledSortsExactly(t);
    CanonOfCanonical(t);
    var g := Encoded(t).value;
    AcceptedFacts(g);
    ExpandAgrees(g.nodes, g.root);
  }

  /** So the check passes on different modules: one holds true, 1.0 or the negative zero where the
      other holds 1, 1 or the positive zero. */
  lemma DifferentModulesCompareEqual(v: Tree, w: Tree)
    requires (v, w) in {(Boolean(true), Number(Integer(1))), (Number(Float(1.0)), Number(Integer(1))), (Number(MinusZero), Number(Float(0.0)))}
    ensures Encoded(ModuleWith(v)).Some? && Encoded(ModuleWith(w)).Some?
    ensures var g, h := Encoded(ModuleWith(v)).value, Encoded(ModuleWith(w)).value;
            && ValidGraph(g) && ValidGraph(h) && Backward(g.nodes) && Backward(h.nodes) && g.root < |g.nodes| && h.root < |h.nodes|
            && Accounts(Expand(g.nodes, g.root)) && Accounts(Expand(h.nodes, h.root))
            && PythonEqual(Expand(g.nodes, g.root), Expand(h.nodes, h.root))
            && Decode(g.nodes, g.root) != Decode(h.nodes, h.root)
  {
    hide Encoded, Accounts, Expand, Decode, Backward, ValidGraph;
    ModuleIsAccounted(v);
    ModuleIsAccounted(w);
    assert ModuleWith(v).fields[1].value == v && ModuleWith(w).fields[1].value == w;
  }

  /** Two equal nodes under one array: accepted, and encoding what it stands for shares them. */
  lemma SharingIsNotRequired()
    ensures var g := Graph([N, N, A([0, 1])], 2);
            ValidGraph(g) && !CanonicalForm(g) && Encoded(Decode(g.nodes, g.root)) != Some(g)
  {
    hide Decode, Bounded, Backward, Visit, Encoded;
    var g := Graph([N, N, A([0, 1])], 2);
    ReachesSelf(g.nodes, 2);
    ReachesNext(g.nodes, 2, 2, 0);
    ReachesNext(g.nodes, 2, 2, 1);
    TwiceNull();
    assert g.nodes[0] == g.nodes[1];
    Reencoding(g);
  }

  lemma TwiceNullDecodes()
    ensures var nodes := [N, N, A([0, 1])];
            && Backward(nodes) && Decode(nodes, 0) == Null && Decode(nodes, 1) == Null && Decode(nodes, 2) == Array([Null, Null])
  {
    var nodes := [N, N, A([0, 1])];
    assert Backward(nodes);
    hide Backward;
    assert Decode(nodes, 2) == Array(DecodeAll(nodes, [0, 1], 2));
  }

  lemma TwiceNullMeasures()
    ensures Size(Null) == Depth(Null) == 1 && Size(Array([Null, Null])) == 3 && Depth(Array([Null, Null])) == 2
  {
    assert [Null, Null][1..] == [Null] && [Null][1..] == [];
  }

  lemma TwiceNull()
    ensures Backward([N, N, A([0, 1])]) && Bounded([N, N, A([0, 1])])
  {
    hide Backward, Decode, Size, Depth;
    TwiceNullDecodes();
    TwiceNullMeasures();
  }
}
