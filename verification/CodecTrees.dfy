/** Values as the artifact codec sees them: trees whose objects list their fields in the order in
    which they were emitted. */
module CodecTrees {

  /** A finite number, which keeps whether it was an integer or a floating-point number. `Float(0.0)` is the
      positive zero and `MinusZero` the other one. */
  datatype Num = Integer(n: int) | Float(value: real) | MinusZero

  datatype Field = Field(key: string, value: Tree)

  datatype Tree =
    | Null
    | Boolean(b: bool)
    | Number(n: Num)
    | Text(s: string)
    | Array(items: seq<Tree>)
    | Object(fields: seq<Field>)

  // ----- Keys in order -----

  predicate Before(a: string, b: string)
    decreases |a|
  {
    b != [] && (a == [] || a[0] < b[0] || (a[0] == b[0] && Before(a[1..], b[1..])))
  }

  lemma {:induction false} BeforeTotal(a: string, b: string)
    ensures Before(a, b) || a == b || Before(b, a)
    ensures !(Before(a, b) && Before(b, a)) && !Before(a, a)
    decreases |a|
  {
    if a != [] {
      if b != [] {
        BeforeTotal(a[1..], b[1..]);
        assert a == [a[0]] + a[1..] && b == [b[0]] + b[1..];
      }
      BeforeTotal(a[1..], a[1..]);
    }
  }

  lemma {:induction false} BeforeTrans(a: string, b: string, c: string)
    requires Before(a, b) && Before(b, c)
    ensures Before(a, c)
    decreases |a|
  {
    if a != [] && a[0] == b[0] == c[0] {
      BeforeTrans(a[1..], b[1..], c[1..]);
    }
  }

  /** The keys agree below an index, where the first has the smaller character. */
  ghost predicate SmallerAt(a: string, b: string, k: nat) {
    k < |a| && k < |b| && a[k] as int < b[k] as int && forall i :: 0 <= i < k ==> a[i] == b[i]
  }

  ghost predicate ProperPrefix(a: string, b: string) {
    |a| < |b| && forall i :: 0 <= i < |a| ==> a[i] == b[i]
  }

  /** The order of a dictionary: a proper prefix comes first, and otherwise what has the smaller
      character at the first index at which the two differ. */
  ghost predicate Lexicographic(a: string, b: string) {
    ProperPrefix(a, b) || exists k :: SmallerAt(a, b, k)
  }

  lemma SmallerLater(a: string, b: string, k: nat)
    requires a != [] && b != [] && a[0] == b[0]
    ensures SmallerAt(a, b, k + 1) <==> SmallerAt(a[1..], b[1..], k)
    ensures ProperPrefix(a, b) <==> ProperPrefix(a[1..], b[1..])
  {
    var c, d := a[1..], b[1..];
    assert forall i :: 0 < i < |a| ==> a[i] == c[i - 1];
    assert forall i :: 0 < i < |b| ==> b[i] == d[i - 1];
    assert forall i :: 0 <= i < |c| && i < |d| && a[i + 1] == b[i + 1] ==> c[i] == d[i];
  }

  lemma LexicographicLater(a: string, b: string)
    requires a != [] && b != [] && a[0] == b[0]
    ensures Lexicographic(a, b) <==> Lexicographic(a[1..], b[1..])
  {
    SmallerLater(a, b, 0);
    if k: nat :| SmallerAt(a, b, k) {
      assert k != 0;
      SmallerLater(a, b, k - 1);
    }
    if k: nat :| SmallerAt(a[1..], b[1..], k) {
      var next := k + 1;
      SmallerLater(a, b, k);
      assert SmallerAt(a, b, next);
    }
  }

  /** The comparison of keys is the order of a dictionary. */
  lemma {:induction false} BeforeMeans(a: string, b: string)
    ensures Before(a, b) <==> Lexicographic(a, b)
    decreases |a|
  {
    hide Lexicographic;
    if a != [] && b != [] && a[0] == b[0] {
      LexicographicLater(a, b);
      BeforeMeans(a[1..], b[1..]);
    } else {
      FirstDecides(a, b);
    }
  }

  lemma FirstDecides(a: string, b: string)
    requires a == [] || b == [] || a[0] != b[0]
    ensures Lexicographic(a, b) <==> b != [] && (a == [] || a[0] as int < b[0] as int)
  {
    if a != [] && b != [] {
      assert SmallerAt(a, b, 0) <==> a[0] as int < b[0] as int;
      assert forall k :: SmallerAt(a, b, k) ==> k == 0;
    }
  }

  /** Where the stable sort of `finish` puts an element: in front of the first that is not before it. */
  function Position<T>(x: T, s: seq<T>, key: T -> string): (k: nat)
    ensures k <= |s|
    ensures forall i :: 0 <= i < k ==> Before(key(s[i]), key(x))
    ensures k < |s| ==> !Before(key(s[k]), key(x))
  {
    if s == [] || !Before(key(s[0]), key(x)) then 0 else 1 + Position(x, s[1..], key)
  }

  function Insert<T>(x: T, s: seq<T>, key: T -> string): seq<T> {
    var k := Position(x, s, key);
    s[..k] + [x] + s[k..]
  }

  function SortBy<T>(s: seq<T>, key: T -> string): seq<T> {
    if s == [] then [] else Insert(s[0], SortBy(s[1..], key), key)
  }

  ghost predicate Ordered<T>(s: seq<T>, key: T -> string) {
    forall i, j :: 0 <= i < j < |s| ==> !Before(key(s[j]), key(s[i]))
  }

  ghost predicate Rising<T>(s: seq<T>, key: T -> string) {
    forall i, j :: 0 <= i < j < |s| ==> Before(key(s[i]), key(s[j]))
  }

  ghost predicate UniqueBy<T>(s: seq<T>, key: T -> string) {
    forall i, j :: 0 <= i < j < |s| ==> key(s[i]) != key(s[j])
  }

  /** Keys in the order of a dictionary, where repeated keys may stand together. */
  ghost predicate Ascending<T>(s: seq<T>, key: T -> string) {
    forall i, j :: 0 <= i < j < |s| ==> key(s[i]) == key(s[j]) || Lexicographic(key(s[i]), key(s[j]))
  }

  ghost predicate StrictlyAscending<T>(s: seq<T>, key: T -> string) {
    forall i, j :: 0 <= i < j < |s| ==> Lexicographic(key(s[i]), key(s[j]))
  }

  lemma OrderedMeans<T>(s: seq<T>, key: T -> string)
    ensures Ordered(s, key) <==> Ascending(s, key)
    ensures Rising(s, key) <==> StrictlyAscending(s, key)
  {
    hide Before, Lexicographic;
    forall i, j | 0 <= i < j < |s|
      ensures Before(key(s[i]), key(s[j])) <==> Lexicographic(key(s[i]), key(s[j]))
      ensures !Before(key(s[j]), key(s[i])) <==> key(s[i]) == key(s[j]) || Lexicographic(key(s[i]), key(s[j]))
    {
      BeforeMeans(key(s[i]), key(s[j]));
      BeforeTotal(key(s[i]), key(s[j]));
      BeforeTotal(key(s[j]), key(s[i]));
    }
    if Ascending(s, key) {
      forall i, j | 0 <= i < j < |s| ensures !Before(key(s[j]), key(s[i])) {
      }
    }
    if Ordered(s, key) {
      forall i, j | 0 <= i < j < |s| ensures key(s[i]) == key(s[j]) || Lexicographic(key(s[i]), key(s[j])) {
        assert !Before(key(s[j]), key(s[i]));
      }
    }
  }

  /** The elements with one key, in their order. */
  ghost function WithKey<T>(s: seq<T>, key: T -> string, k: string): seq<T> {
    if s == [] then [] else WithKey(s[..|s| - 1], key, k) + if key(s[|s| - 1]) == k then [s[|s| - 1]] else []
  }

  lemma {:induction false} WithKeyAppend<T>(a: seq<T>, b: seq<T>, key: T -> string, k: string)
    ensures WithKey(a + b, key, k) == WithKey(a, key, k) + WithKey(b, key, k)
    decreases |b|
  {
    if b == [] {
      assert a + b == a;
    } else {
      var c := b[..|b| - 1];
      assert (a + b)[..|a + b| - 1] == a + c;
      WithKeyAppend(a, c, key, k);
    }
  }

  lemma {:induction false} WithKeyNone<T>(s: seq<T>, key: T -> string, k: string)
    requires forall i :: 0 <= i < |s| ==> key(s[i]) != k
    ensures WithKey(s, key, k) == []
  {
    if s != [] {
      WithKeyNone(s[..|s| - 1], key, k);
    }
  }

  lemma InsertKeeps<T>(x: T, s: seq<T>, key: T -> string, k: string)
    ensures WithKey(Insert(x, s, key), key, k) == WithKey([x], key, k) + WithKey(s, key, k)
  {
    var p := Position(x, s, key);
    var a, b := s[..p], s[p..];
    forall i | 0 <= i < |a| ensures key(a[i]) != key(x) {
      BeforeTotal(key(s[i]), key(x));
    }
    SplitKeeps(x, a, b, key, k);
    assert s == a + b;
  }

  lemma SplitKeeps<T>(x: T, a: seq<T>, b: seq<T>, key: T -> string, k: string)
    requires forall i :: 0 <= i < |a| ==> key(a[i]) != key(x)
    ensures WithKey(a + [x] + b, key, k) == WithKey([x], key, k) + WithKey(a + b, key, k)
  {
    hide WithKey;
    WithKeyAppend(a + [x], b, key, k);
    WithKeyAppend(a, [x], key, k);
    WithKeyAppend(a, b, key, k);
    if key(x) == k {
      WithKeyNone(a, key, k);
    } else {
      WithKeyNone([x], key, k);
    }
  }

  /** Sorting puts keys in the order of a dictionary and elements with one key in the order they had. */
  lemma {:induction false} SortMeans<T>(s: seq<T>, key: T -> string)
    ensures multiset(SortBy(s, key)) == multiset(s) && Ascending(SortBy(s, key), key)
    ensures forall k :: WithKey(SortBy(s, key), key, k) == WithKey(s, key, k)
    decreases |s|
  {
    SortHolds(s, key);
    OrderedMeans(SortBy(s, key), key);
    if s != [] {
      SortMeans(s[1..], key);
      assert [s[0]] + s[1..] == s;
      forall k ensures WithKey(SortBy(s, key), key, k) == WithKey(s, key, k) {
        InsertKeeps(s[0], SortBy(s[1..], key), key, k);
        WithKeyAppend([s[0]], s[1..], key, k);
      }
    }
  }

  lemma InsertHolds<T>(x: T, s: seq<T>, key: T -> string)
    ensures multiset(Insert(x, s, key)) == multiset{x} + multiset(s)
    ensures Ordered(s, key) ==> Ordered(Insert(x, s, key), key)
  {
    var k := Position(x, s, key);
    assert s == s[..k] + s[k..];
    if Ordered(s, key) {
      InsertOrders(x, s, key);
    }
  }

  lemma InsertOrders<T>(x: T, s: seq<T>, key: T -> string)
    requires Ordered(s, key)
    ensures Ordered(Insert(x, s, key), key)
  {
    hide Before;
    var k, r := Position(x, s, key), Insert(x, s, key);
    forall i, j | 0 <= i < j < |r| ensures !Before(key(r[j]), key(r[i])) {
      if j < k {
        assert r[i] == s[i] && r[j] == s[j];
      } else if j == k {
        assert r[i] == s[i] && r[j] == x;
        BeforeTotal(key(s[i]), key(x));
      } else if i < k {
        assert r[i] == s[i] && r[j] == s[j - 1];
      } else if i == k {
        assert r[i] == x && r[j] == s[j - 1];
        if k < j - 1 {
          NotBeforeChain(key(s[j - 1]), key(s[k]), key(x));
        }
      } else {
        assert r[i] == s[i - 1] && r[j] == s[j - 1];
      }
    }
  }

  /** If neither b is after a nor c is after b, then c is not after a. */
  lemma NotBeforeChain(c: string, b: string, a: string)
    requires !Before(c, b) && !Before(b, a)
    ensures !Before(c, a)
  {
    BeforeTotal(b, c);
    BeforeTotal(a, b);
    BeforeTotal(c, a);
    if Before(a, b) && Before(b, c) {
      BeforeTrans(a, b, c);
    }
  }

  lemma {:induction false} SortHolds<T>(s: seq<T>, key: T -> string)
    ensures multiset(SortBy(s, key)) == multiset(s) && Ordered(SortBy(s, key), key)
    decreases |s|
  {
    if s != [] {
      SortHolds(s[1..], key);
      InsertHolds(s[0], SortBy(s[1..], key), key);
      assert s == [s[0]] + s[1..];
    }
  }

  lemma SortMembers<T>(s: seq<T>, key: T -> string)
    ensures |SortBy(s, key)| == |s|
    ensures forall x :: x in SortBy(s, key) <==> x in s
  {
    SortHolds(s, key);
    assert |multiset(SortBy(s, key))| == |multiset(s)|;
    forall x ensures x in SortBy(s, key) <==> x in s {
      assert x in SortBy(s, key) <==> x in multiset(SortBy(s, key));
      assert x in s <==> x in multiset(s);
    }
  }

  /** Sorting commutes with a renaming of the elements that keeps their keys. */
  lemma {:induction false} SortMaps<S, T>(s: seq<S>, key: S -> string, t: seq<T>, key': T -> string, f: S -> T)
    requires |s| == |t| && forall i :: 0 <= i < |s| ==> f(s[i]) == t[i] && key'(t[i]) == key(s[i])
    ensures var a, b := SortBy(s, key), SortBy(t, key');
            |a| == |b| && forall i :: 0 <= i < |a| ==> f(a[i]) == b[i] && key'(b[i]) == key(a[i])
    decreases |s|
  {
    if s != [] {
      SortMaps(s[1..], key, t[1..], key', f);
      InsertMaps(s[0], SortBy(s[1..], key), key, t[0], SortBy(t[1..], key'), key', f);
    }
  }

  lemma {:induction false} InsertMaps<S, T>(x: S, s: seq<S>, key: S -> string, y: T, t: seq<T>, key': T -> string, f: S -> T)
    requires f(x) == y && key'(y) == key(x)
    requires |s| == |t| && forall i :: 0 <= i < |s| ==> f(s[i]) == t[i] && key'(t[i]) == key(s[i])
    ensures Position(x, s, key) == Position(y, t, key')
    ensures var a, b := Insert(x, s, key), Insert(y, t, key');
            |a| == |b| && forall i :: 0 <= i < |a| ==> f(a[i]) == b[i] && key'(b[i]) == key(a[i])
    decreases |s|
  {
    if s != [] {
      assert f(s[0]) == t[0] && key'(t[0]) == key(s[0]);
      if Before(key(s[0]), key(x)) {
        InsertMaps(x, s[1..], key, y, t[1..], key', f);
      }
    }
  }

  lemma UniqueCons<T>(s: seq<T>, key: T -> string)
    requires s != []
    ensures UniqueBy(s, key) <==> UniqueBy(s[1..], key) && forall x :: x in s[1..] ==> key(x) != key(s[0])
  {
    assert forall i :: 0 < i < |s| ==> s[i] == s[1..][i - 1];
    if UniqueBy(s[1..], key) && forall x :: x in s[1..] ==> key(x) != key(s[0]) {
      forall i, j | 0 <= i < j < |s| ensures key(s[i]) != key(s[j]) {
        assert s[j] == s[1..][j - 1] && s[1..][j - 1] in s[1..];
        assert i > 0 ==> s[i] == s[1..][i - 1];
      }
    }
    if UniqueBy(s, key) {
      forall i, j | 0 <= i < j < |s[1..]| ensures key(s[1..][i]) != key(s[1..][j]) {
        assert s[1..][i] == s[i + 1] && s[1..][j] == s[j + 1];
      }
    }
  }

  ghost predicate KeysApart<T>(a: seq<T>, b: seq<T>, key: T -> string) {
    forall i, j :: 0 <= i < |a| && 0 <= j < |b| ==> key(a[i]) != key(b[j])
  }

  lemma UniqueAppend<T>(a: seq<T>, b: seq<T>, key: T -> string)
    ensures UniqueBy(a + b, key) <==> UniqueBy(a, key) && UniqueBy(b, key) && KeysApart(a, b, key)
  {
    var s := a + b;
    if UniqueBy(s, key) {
      forall i, j | 0 <= i < j < |a| ensures key(a[i]) != key(a[j]) {
        assert s[i] == a[i] && s[j] == a[j];
      }
      forall i, j | 0 <= i < j < |b| ensures key(b[i]) != key(b[j]) {
        assert s[|a| + i] == b[i] && s[|a| + j] == b[j];
      }
      forall i, j | 0 <= i < |a| && 0 <= j < |b| ensures key(a[i]) != key(b[j]) {
        assert s[i] == a[i] && s[|a| + j] == b[j];
      }
    }
  }

  lemma ApartFrom<T>(a: seq<T>, b: seq<T>, c: seq<T>, key: T -> string)
    ensures KeysApart(a, b + c, key) <==> KeysApart(a, b, key) && KeysApart(a, c, key)
  {
    var d := b + c;
    if KeysApart(a, d, key) {
      forall i, j | 0 <= i < |a| && 0 <= j < |b| ensures key(a[i]) != key(b[j]) {
        assert d[j] == b[j];
      }
      forall i, j | 0 <= i < |a| && 0 <= j < |c| ensures key(a[i]) != key(c[j]) {
        assert d[|b| + j] == c[j];
      }
    }
  }

  lemma ApartOne<T>(x: T, s: seq<T>, key: T -> string)
    ensures KeysApart([x], s, key) <==> forall y :: y in s ==> key(y) != key(x)
    ensures KeysApart(s, [x], key) <==> KeysApart([x], s, key)
  {
    if KeysApart([x], s, key) {
      forall j | 0 <= j < |s| ensures key(s[j]) != key(x) {
        assert key([x][0]) != key(s[j]);
      }
    }
    if KeysApart(s, [x], key) {
      forall j | 0 <= j < |s| ensures key(s[j]) != key(x) {
        assert key([x][0]) != key(s[j]);
      }
    }
  }

  lemma InsertUnique<T>(x: T, s: seq<T>, key: T -> string)
    ensures UniqueBy(Insert(x, s, key), key) <==> UniqueBy(s, key) && forall y :: y in s ==> key(y) != key(x)
  {
    var k := Position(x, s, key);
    var a, b := s[..k], s[k..];
    assert s == a + b && Insert(x, s, key) == a + ([x] + b);
    hide KeysApart, Position, Insert, UniqueBy;
    UniqueOne(x, key);
    UniqueAppend(a, b, key);
    UniqueAppend(a, [x] + b, key);
    UniqueAppend([x], b, key);
    ApartFrom(a, [x], b, key);
    ApartOne(x, a, key);
    ApartOne(x, b, key);
    ApartOne(x, s, key);
    ApartFrom([x], a, b, key);
  }

  lemma UniqueOne<T>(x: T, key: T -> string)
    ensures UniqueBy([x], key)
  {
  }

  /** Keys are unique in a list exactly when they are in its sorted form. */
  lemma {:induction false} SortUnique<T>(s: seq<T>, key: T -> string)
    ensures UniqueBy(SortBy(s, key), key) <==> UniqueBy(s, key)
    decreases |s|
  {
    hide Insert;
    if s == [] {
      assert SortBy(s, key) == s;
    } else {
      var rest := SortBy(s[1..], key);
      SortUnique(s[1..], key);
      SortHolds(s[1..], key);
      InsertUnique(s[0], rest, key);
      UniqueCons(s, key);
      if forall y :: y in rest ==> key(y) != key(s[0]) {
        forall x | x in s[1..] ensures key(x) != key(s[0]) {
          assert x in multiset(s[1..]);
          assert x in multiset(rest);
        }
      }
      if forall x :: x in s[1..] ==> key(x) != key(s[0]) {
        forall y | y in rest ensures key(y) != key(s[0]) {
          assert y in multiset(rest);
          assert y in multiset(s[1..]);
        }
      }
    }
  }

  lemma OrderedUniqueRises<T>(s: seq<T>, key: T -> string)
    requires Ordered(s, key) && UniqueBy(s, key)
    ensures Rising(s, key)
  {
    forall i, j | 0 <= i < j < |s| ensures Before(key(s[i]), key(s[j])) {
      BeforeTotal(key(s[i]), key(s[j]));
    }
  }

  lemma RisingIsUnique<T>(s: seq<T>, key: T -> string)
    requires Rising(s, key)
    ensures UniqueBy(s, key)
  {
    forall i, j | 0 <= i < j < |s| ensures key(s[i]) != key(s[j]) {
      BeforeTotal(key(s[i]), key(s[j]));
    }
  }

  // ----- The canonical form of a value -----

  function KeyOf(f: Field): string {
    f.key
  }

  /** Fields sorted by key, everywhere. */
  function Canon(t: Tree): Tree
    decreases t, 1
  {
    match t
    case Array(items) => Array(CanonAll(items))
    case Object(fields) => Object(SortBy(CanonFields(fields), KeyOf))
    case _ => t
  }

  function CanonAll(items: seq<Tree>): (r: seq<Tree>)
    ensures |r| == |items| && forall i :: 0 <= i < |items| ==> r[i] == Canon(items[i])
    decreases items, 0
  {
    if items == [] then [] else [Canon(items[0])] + CanonAll(items[1..])
  }

  function CanonFields(fields: seq<Field>): (r: seq<Field>)
    ensures |r| == |fields| && forall i :: 0 <= i < |fields| ==> r[i] == Field(fields[i].key, Canon(fields[i].value))
    decreases fields, 0
  {
    if fields == [] then [] else [Field(fields[0].key, Canon(fields[0].value))] + CanonFields(fields[1..])
  }

  /** Every object's keys are in sorted order already. */
  ghost predicate Canonical(t: Tree) {
    match t
    case Array(items) => forall x :: x in items ==> Canonical(x)
    case Object(fields) => Ordered(fields, KeyOf) && forall f :: f in fields ==> Canonical(f.value)
    case _ => true
  }

  /** No object has two fields with one key. */
  ghost predicate UniqueKeys(t: Tree) {
    match t
    case Array(items) => forall x :: x in items ==> UniqueKeys(x)
    case Object(fields) => UniqueBy(fields, KeyOf) && forall f :: f in fields ==> UniqueKeys(f.value)
    case _ => true
  }

  lemma {:induction false} CanonIsCanonical(t: Tree)
    ensures Canonical(Canon(t))
  {
    hide SortBy, Before, Ordered, Lexicographic;
    match t
    case Array(items) =>
      forall x | x in CanonAll(items) ensures Canonical(x) {
        var i :| 0 <= i < |items| && CanonAll(items)[i] == x;
        CanonIsCanonical(items[i]);
      }
    case Object(fields) =>
      var sorted := SortBy(CanonFields(fields), KeyOf);
      SortHolds(CanonFields(fields), KeyOf);
      SortMembers(CanonFields(fields), KeyOf);
      forall f | f in sorted ensures Canonical(f.value) {
        var i :| 0 <= i < |fields| && CanonFields(fields)[i] == f;
        CanonIsCanonical(fields[i].value);
      }
    case _ =>
  }

  // ----- Sizes -----

  /** The nodes of the expanded tree, keys included. */
  function Size(t: Tree): nat
    decreases t, 1
  {
    match t
    case Array(items) => 1 + SizeAll(items)
    case Object(fields) => 1 + SizeFields(fields)
    case _ => 1
  }

  function SizeAll(items: seq<Tree>): nat
    decreases items, 0
  {
    if items == [] then 0 else Size(items[0]) + SizeAll(items[1..])
  }

  function SizeFields(fields: seq<Field>): nat
    decreases fields, 0
  {
    if fields == [] then 0 else 1 + Size(fields[0].value) + SizeFields(fields[1..])
  }

  function Max(a: nat, b: nat): nat {
    if a < b then b else a
  }

  /** A leaf has depth 1, and so does a key below its object. */
  function Depth(t: Tree): nat
    decreases t, 1
  {
    match t
    case Array(items) => 1 + DepthAll(items)
    case Object(fields) => 1 + DepthFields(fields)
    case _ => 1
  }

  function DepthAll(items: seq<Tree>): nat
    decreases items, 0
  {
    if items == [] then 0 else Max(Depth(items[0]), DepthAll(items[1..]))
  }

  function DepthFields(fields: seq<Field>): nat
    decreases fields, 0
  {
    if fields == [] then 0 else Max(Max(1, Depth(fields[0].value)), DepthFields(fields[1..]))
  }

  lemma {:induction false} MeasuresAppend(a: seq<Field>, b: seq<Field>)
    ensures SizeFields(a + b) == SizeFields(a) + SizeFields(b)
    ensures DepthFields(a + b) == Max(DepthFields(a), DepthFields(b))
    decreases |a|
  {
    if a == [] {
      assert a + b == b;
    } else {
      assert (a + b)[0] == a[0] && (a + b)[1..] == a[1..] + b;
      MeasuresAppend(a[1..], b);
    }
  }

  lemma InsertMeasures(f: Field, fields: seq<Field>)
    ensures SizeFields(Insert(f, fields, KeyOf)) == 1 + Size(f.value) + SizeFields(fields)
    ensures DepthFields(Insert(f, fields, KeyOf)) == Max(Max(1, Depth(f.value)), DepthFields(fields))
  {
    hide SizeFields, DepthFields, Size, Depth, Position;
    var k := Position(f, fields, KeyOf);
    MeasuresAppend(fields[..k], [f]);
    MeasuresAppend(fields[..k] + [f], fields[k..]);
    MeasuresAppend(fields[..k], fields[k..]);
    assert fields[..k] + fields[k..] == fields;
    OneFieldMeasures(f);
  }

  lemma OneFieldMeasures(f: Field)
    ensures SizeFields([f]) == 1 + Size(f.value) && DepthFields([f]) == Max(1, Depth(f.value))
  {
    assert [f][1..] == [];
  }

  lemma {:induction false} SortMeasures(fields: seq<Field>)
    ensures SizeFields(SortBy(fields, KeyOf)) == SizeFields(fields)
    ensures DepthFields(SortBy(fields, KeyOf)) == DepthFields(fields)
    decreases |fields|
  {
    if fields != [] {
      SortMeasures(fields[1..]);
      InsertMeasures(fields[0], SortBy(fields[1..], KeyOf));
    }
  }

  /** Sorting fields changes neither the size nor the depth of a value. */
  lemma {:induction false} CanonMeasures(t: Tree)
    ensures Size(Canon(t)) == Size(t) && Depth(Canon(t)) == Depth(t)
    decreases t, 1
  {
    match t
    case Array(items) => CanonAllMeasures(items);
    case Object(fields) =>
      CanonFieldsMeasures(fields);
      SortMeasures(CanonFields(fields));
    case _ =>
  }

  lemma {:induction false} CanonAllMeasures(items: seq<Tree>)
    ensures SizeAll(CanonAll(items)) == SizeAll(items) && DepthAll(CanonAll(items)) == DepthAll(items)
    decreases items, 0
  {
    if items != [] {
      CanonMeasures(items[0]);
      CanonAllMeasures(items[1..]);
      assert CanonAll(items)[1..] == CanonAll(items[1..]);
    }
  }

  lemma {:induction false} CanonFieldsMeasures(fields: seq<Field>)
    ensures SizeFields(CanonFields(fields)) == SizeFields(fields) && DepthFields(CanonFields(fields)) == DepthFields(fields)
    decreases fields, 0
  {
    if fields != [] {
      CanonMeasures(fields[0].value);
      CanonFieldsMeasures(fields[1..]);
      assert CanonFields(fields)[1..] == CanonFields(fields[1..]);
    }
  }

  lemma UniqueItems(items: seq<Tree>, other: seq<Tree>)
    requires |items| == |other| && forall i :: 0 <= i < |items| ==> (UniqueKeys(other[i]) <==> UniqueKeys(items[i]))
    ensures UniqueKeys(Array(other)) <==> UniqueKeys(Array(items))
  {
    if UniqueKeys(Array(items)) {
      forall x | x in other ensures UniqueKeys(x) {
        var i :| 0 <= i < |other| && other[i] == x;
        assert items[i] in items;
      }
    }
    if UniqueKeys(Array(other)) {
      forall x | x in items ensures UniqueKeys(x) {
        var i :| 0 <= i < |items| && items[i] == x;
        assert other[i] in other;
      }
    }
  }

  ghost predicate UniqueValues(fields: seq<Field>) {
    forall f :: f in fields ==> UniqueKeys(f.value)
  }

  lemma UniqueObject(fields: seq<Field>)
    ensures UniqueKeys(Object(fields)) <==> UniqueBy(fields, KeyOf) && UniqueValues(fields)
  {
  }

  lemma UniqueFields(fields: seq<Field>, other: seq<Field>)
    requires |fields| == |other|
    requires forall i :: 0 <= i < |fields| ==> other[i].key == fields[i].key && (UniqueKeys(other[i].value) <==> UniqueKeys(fields[i].value))
    ensures UniqueBy(other, KeyOf) <==> UniqueBy(fields, KeyOf)
    ensures UniqueValues(other) <==> UniqueValues(fields)
  {
    hide UniqueKeys;
    assert forall i :: 0 <= i < |fields| ==> KeyOf(other[i]) == KeyOf(fields[i]);
    if UniqueValues(fields) {
      forall f | f in other ensures UniqueKeys(f.value) {
        var i :| 0 <= i < |other| && other[i] == f;
        assert fields[i] in fields;
      }
    }
    if UniqueValues(other) {
      forall f | f in fields ensures UniqueKeys(f.value) {
        var i :| 0 <= i < |fields| && fields[i] == f;
        assert other[i] in other;
      }
    }
  }

  lemma {:induction false} CanonUnique(t: Tree)
    ensures UniqueKeys(Canon(t)) <==> UniqueKeys(t)
  {
    match t
    case Array(items) =>
      forall i | 0 <= i < |items| ensures UniqueKeys(CanonAll(items)[i]) <==> UniqueKeys(items[i]) {
        CanonUnique(items[i]);
      }
      UniqueItems(items, CanonAll(items));
    case Object(fields) =>
      hide UniqueBy, SortBy, UniqueValues;
      var raw := CanonFields(fields);
      forall i | 0 <= i < |fields| ensures raw[i].key == fields[i].key && (UniqueKeys(raw[i].value) <==> UniqueKeys(fields[i].value)) {
        CanonUnique(fields[i].value);
      }
      hide UniqueKeys;
      UniqueFields(fields, raw);
      SortMembers(raw, KeyOf);
      SortUnique(raw, KeyOf);
      assert UniqueValues(SortBy(raw, KeyOf)) <==> UniqueValues(raw) by {
        SameValues(raw, SortBy(raw, KeyOf));
      }
      UniqueObject(fields);
      UniqueObject(SortBy(raw, KeyOf));
    case _ =>
  }

  lemma SameValues(a: seq<Field>, b: seq<Field>)
    requires forall f :: f in a <==> f in b
    ensures UniqueValues(a) <==> UniqueValues(b)
  {
    hide UniqueKeys;
  }
}
