/** The two floating-point zeros. They are equal, so a table holds one node for both, with the sign
    of the one that was emitted first; every zero of the value is read back with that sign. */
module CodecZeros {
  import opened Prelude
  import opened CodecTrees
  import opened CodecMeaning

  predicate IsZero(n: Num) {
    n == Float(0.0) || n == MinusZero
  }

  function Or(a: Option<Num>, b: Option<Num>): Option<Num> {
    if a.Some? then a else b
  }

  function SettleNum(n: Num, zero: Option<Num>): Num {
    if zero.Some? && IsZero(n) then zero.value else n
  }

  /** A value with all its zeros replaced by one, if one is given. */
  function Settle(t: Tree, zero: Option<Num>): Tree
    decreases t, 1
  {
    match t
    case Number(n) => Number(SettleNum(n, zero))
    case Array(items) => Array(SettleAll(items, zero))
    case Object(fields) => Object(SettleFields(fields, zero))
    case _ => t
  }

  function SettleAll(items: seq<Tree>, zero: Option<Num>): (r: seq<Tree>)
    ensures |r| == |items| && forall i :: 0 <= i < |items| ==> r[i] == Settle(items[i], zero)
    decreases items, 0
  {
    if items == [] then [] else [Settle(items[0], zero)] + SettleAll(items[1..], zero)
  }

  function SettleFields(fields: seq<Field>, zero: Option<Num>): (r: seq<Field>)
    ensures |r| == |fields| && forall i :: 0 <= i < |fields| ==> r[i] == Field(fields[i].key, Settle(fields[i].value, zero))
    decreases fields, 0
  {
    if fields == [] then [] else [Field(fields[0].key, Settle(fields[0].value, zero))] + SettleFields(fields[1..], zero)
  }

  /** The zero that is emitted first. */
  function FirstZero(t: Tree): Option<Num>
    decreases t, 1
  {
    match t
    case Number(n) => if IsZero(n) then Some(n) else None
    case Array(items) => FirstOfAll(items)
    case Object(fields) => FirstOfFields(fields)
    case _ => None
  }

  function FirstOfAll(items: seq<Tree>): Option<Num>
    decreases items, 0
  {
    if items == [] then None else Or(FirstOfAll(items[..|items| - 1]), FirstZero(items[|items| - 1]))
  }

  function FirstOfFields(fields: seq<Field>): Option<Num>
    decreases fields, 0
  {
    if fields == [] then None else Or(FirstOfFields(fields[..|fields| - 1]), FirstZero(fields[|fields| - 1].value))
  }

  /** What is left of a value by its encoding. */
  function Settled(t: Tree): Tree {
    Settle(t, FirstZero(t))
  }

  // ----- The first zero is the first of a value's parts that is one -----

  ghost predicate IsZeroPart(t: Tree) {
    t == Number(Float(0.0)) || t == Number(MinusZero)
  }

  ghost predicate FirstZeroOf(s: seq<Tree>, zero: Option<Num>) {
    match zero
    case None => forall k :: 0 <= k < |s| ==> !IsZeroPart(s[k])
    case Some(n) => exists k :: 0 <= k < |s| && s[k] == Number(n) && IsZeroPart(s[k]) && forall j :: 0 <= j < k ==> !IsZeroPart(s[j])
  }

  lemma FirstZeroAppend(a: seq<Tree>, b: seq<Tree>, first: Option<Num>, second: Option<Num>)
    requires FirstZeroOf(a, first) && FirstZeroOf(b, second)
    ensures FirstZeroOf(a + b, Or(first, second))
  {
    var s := a + b;
    assert forall k :: 0 <= k < |a| ==> s[k] == a[k];
    assert forall k :: |a| <= k < |s| ==> s[k] == b[k - |a|];
    if first.Some? {
      var k :| 0 <= k < |a| && a[k] == Number(first.value) && IsZeroPart(a[k]) && forall j :: 0 <= j < k ==> !IsZeroPart(a[j]);
      assert s[k] == a[k];
    } else if second.Some? {
      var k :| 0 <= k < |b| && b[k] == Number(second.value) && IsZeroPart(b[k]) && forall j :: 0 <= j < k ==> !IsZeroPart(b[j]);
      var m := |a| + k;
      assert s[m] == b[k];
      forall j | 0 <= j < m ensures !IsZeroPart(s[j]) {
        assert j >= |a| ==> !IsZeroPart(b[j - |a|]);
      }
    }
  }

  /** The first zero is the first of a value's parts, its own parts and then itself, that is a zero. */
  lemma {:induction false} FirstZeroMeans(t: Tree)
    ensures FirstZeroOf(Postorder(t), FirstZero(t))
    decreases t, 1
  {
    match t
    case Array(items) =>
      FirstOfAllMeans(items);
      FirstZeroAppend(PostorderAll(items), [t], FirstOfAll(items), None);
    case Object(fields) =>
      FirstOfFieldsMeans(fields);
      FirstZeroAppend(PostorderFields(fields), [t], FirstOfFields(fields), None);
    case Number(n) => assert Postorder(t)[0] == t;
    case _ =>
  }

  lemma {:induction false} FirstOfAllMeans(items: seq<Tree>)
    ensures FirstZeroOf(PostorderAll(items), FirstOfAll(items))
    decreases items, 0
  {
    if items != [] {
      var before, last := items[..|items| - 1], items[|items| - 1];
      FirstOfAllMeans(before);
      FirstZeroMeans(last);
      PostorderAllAppend(before, [last]);
      assert before + [last] == items && [last][1..] == [] && PostorderAll([last]) == Postorder(last);
      assert PostorderAll(items) == PostorderAll(before) + Postorder(last);
      hide FirstZeroOf;
      FirstZeroAppend(PostorderAll(before), Postorder(last), FirstOfAll(before), FirstZero(last));
    }
  }

  lemma {:induction false} FirstOfFieldsMeans(fields: seq<Field>)
    ensures FirstZeroOf(PostorderFields(fields), FirstOfFields(fields))
    decreases fields, 0
  {
    if fields != [] {
      var before, last := fields[..|fields| - 1], fields[|fields| - 1];
      FirstOfFieldsMeans(before);
      FirstZeroMeans(last.value);
      PostorderFieldsAppend(before, [last]);
      assert before + [last] == fields && [last][1..] == [];
      assert PostorderFields([last]) == [Text(last.key)] + Postorder(last.value);
      assert FirstZeroOf([Text(last.key)], None);
      hide FirstZeroOf;
      FirstZeroAppend([Text(last.key)], Postorder(last.value), None, FirstZero(last.value));
      FirstZeroAppend(PostorderFields(before), PostorderFields([last]), FirstOfFields(before), FirstZero(last.value));
    }
  }

  lemma {:induction false} PostorderAllAppend(a: seq<Tree>, b: seq<Tree>)
    ensures PostorderAll(a + b) == PostorderAll(a) + PostorderAll(b)
    decreases |a|
  {
    if a == [] {
      assert a + b == b;
    } else {
      assert (a + b)[1..] == a[1..] + b;
      PostorderAllAppend(a[1..], b);
    }
  }

  lemma {:induction false} PostorderFieldsAppend(a: seq<Field>, b: seq<Field>)
    ensures PostorderFields(a + b) == PostorderFields(a) + PostorderFields(b)
    decreases |a|
  {
    if a == [] {
      assert a + b == b;
    } else {
      assert (a + b)[1..] == a[1..] + b;
      PostorderFieldsAppend(a[1..], b);
    }
  }

  // ----- Which numbers a value holds -----

  ghost predicate Holds(t: Tree, n: Num) {
    match t
    case Number(m) => m == n
    case Array(items) => exists x :: x in items && Holds(x, n)
    case Object(fields) => exists f :: f in fields && Holds(f.value, n)
    case _ => false
  }

  /** Not both zeros. */
  ghost predicate OneZero(t: Tree) {
    !(Holds(t, Float(0.0)) && Holds(t, MinusZero))
  }

  lemma {:induction false} FirstIsHeld(t: Tree)
    ensures FirstZero(t).Some? ==> IsZero(FirstZero(t).value) && Holds(t, FirstZero(t).value)
    ensures FirstZero(t).None? ==> !Holds(t, Float(0.0)) && !Holds(t, MinusZero)
    decreases t, 1
  {
    match t
    case Array(items) => FirstIsHeldByAll(items);
    case Object(fields) => FirstIsHeldByFields(fields);
    case _ =>
  }

  lemma {:induction false} FirstIsHeldByAll(items: seq<Tree>)
    ensures FirstOfAll(items).Some? ==> IsZero(FirstOfAll(items).value) && exists x :: x in items && Holds(x, FirstOfAll(items).value)
    ensures FirstOfAll(items).None? ==> forall x :: x in items ==> !Holds(x, Float(0.0)) && !Holds(x, MinusZero)
    decreases items, 0
  {
    if items != [] {
      var before, last := items[..|items| - 1], items[|items| - 1];
      FirstIsHeldByAll(before);
      FirstIsHeld(last);
      assert items == before + [last];
      assert last in items;
      if FirstOfAll(before).Some? {
        var x :| x in before && Holds(x, FirstOfAll(before).value);
        assert x in items;
      }
    }
  }

  lemma {:induction false} FirstIsHeldByFields(fields: seq<Field>)
    ensures FirstOfFields(fields).Some? ==>
              IsZero(FirstOfFields(fields).value) && exists f :: f in fields && Holds(f.value, FirstOfFields(fields).value)
    ensures FirstOfFields(fields).None? ==> forall f :: f in fields ==> !Holds(f.value, Float(0.0)) && !Holds(f.value, MinusZero)
    decreases fields, 0
  {
    if fields != [] {
      var before, last := fields[..|fields| - 1], fields[|fields| - 1];
      FirstIsHeldByFields(before);
      FirstIsHeld(last.value);
      assert fields == before + [last];
      assert last in fields;
      if FirstOfFields(before).Some? {
        var f :| f in before && Holds(f.value, FirstOfFields(before).value);
        assert f in fields;
      }
    }
  }

  /** Settling on a zero changes nothing exactly when the value does not hold the other one. */
  lemma {:induction false} SettleChanges(t: Tree, zero: Num, other: Num)
    requires IsZero(zero) && IsZero(other) && zero != other
    ensures Settle(t, Some(zero)) == t <==> !Holds(t, other)
    decreases t
  {
    hide SettleAll, SettleFields;
    match t
    case Array(items) =>
      forall i | 0 <= i < |items| ensures Settle(items[i], Some(zero)) == items[i] <==> !Holds(items[i], other) {
        assert items[i] in items;
        SettleChanges(items[i], zero, other);
      }
      if Settle(t, Some(zero)) == t {
        forall x | x in items ensures !Holds(x, other) {
          var i :| 0 <= i < |items| && items[i] == x;
          assert SettleAll(items, Some(zero))[i] == x;
        }
      }
      assert (forall i :: 0 <= i < |items| ==> Settle(items[i], Some(zero)) == items[i]) ==> SettleAll(items, Some(zero)) == items;
    case Object(fields) =>
      forall i | 0 <= i < |fields| ensures Settle(fields[i].value, Some(zero)) == fields[i].value <==> !Holds(fields[i].value, other) {
        assert fields[i] in fields;
        SettleChanges(fields[i].value, zero, other);
      }
      if Settle(t, Some(zero)) == t {
        forall f | f in fields ensures !Holds(f.value, other) {
          var i :| 0 <= i < |fields| && fields[i] == f;
          assert SettleFields(fields, Some(zero))[i] == f;
        }
      }
      assert (forall i :: 0 <= i < |fields| ==> Settle(fields[i].value, Some(zero)) == fields[i].value) ==>
             SettleFields(fields, Some(zero)) == fields;
    case _ =>
  }

  lemma {:induction false} SettleNothing(t: Tree)
    ensures Settle(t, None) == t
    decreases t
  {
    match t
    case Array(items) =>
      forall i | 0 <= i < |items| ensures Settle(items[i], None) == items[i] {
        assert items[i] in items;
        SettleNothing(items[i]);
      }
      assert SettleAll(items, None) == items;
    case Object(fields) =>
      forall i | 0 <= i < |fields| ensures Settle(fields[i].value, None) == fields[i].value {
        assert fields[i] in fields;
        SettleNothing(fields[i].value);
      }
      assert SettleFields(fields, None) == fields;
    case _ =>
  }

  /** What is read back is what was emitted exactly when not both zeros were emitted. */
  lemma SettledExactly(t: Tree)
    ensures Settled(t) == t <==> OneZero(t)
  {
    hide Settle, Holds, FirstZero;
    FirstIsHeld(t);
    if FirstZero(t).None? {
      SettleNothing(t);
    } else {
      var zero := FirstZero(t).value;
      SettleChanges(t, zero, OtherZero(zero));
    }
  }

  /** A value without zeros settles to itself. */
  lemma NoZeroSettles(t: Tree, zero: Option<Num>)
    requires FirstZero(t).None? && (zero.Some? ==> IsZero(zero.value))
    ensures Settle(t, zero) == t
  {
    hide Settle, Holds, FirstZero;
    FirstIsHeld(t);
    SettleNothing(t);
    if zero.Some? {
      SettleChanges(t, zero.value, OtherZero(zero.value));
    }
  }

  // ----- Settling commutes with sorting and measures -----

  function SettleField(f: Field, zero: Option<Num>): Field {
    Field(f.key, Settle(f.value, zero))
  }

  lemma {:induction false} SettleCanon(t: Tree, zero: Option<Num>)
    ensures Canon(Settle(t, zero)) == Settle(Canon(t), zero)
    decreases t
  {
    hide SortBy, CanonFields, SettleFields, CanonAll, SettleAll;
    match t
    case Array(items) =>
      forall i | 0 <= i < |items| ensures Canon(SettleAll(items, zero)[i]) == Settle(CanonAll(items)[i], zero) {
        assert items[i] in items;
        SettleCanon(items[i], zero);
      }
      assert CanonAll(SettleAll(items, zero)) == SettleAll(CanonAll(items), zero);
    case Object(fields) =>
      var raw, settled := CanonFields(fields), CanonFields(SettleFields(fields, zero));
      forall i | 0 <= i < |fields| ensures SettleField(raw[i], zero) == settled[i] {
        assert fields[i] in fields;
        SettleCanon(fields[i].value, zero);
      }
      SettleSorted(raw, settled, zero);
    case _ =>
  }

  lemma SettleSorted(raw: seq<Field>, settled: seq<Field>, zero: Option<Num>)
    requires |raw| == |settled| && forall i :: 0 <= i < |raw| ==> SettleField(raw[i], zero) == settled[i]
    ensures SortBy(settled, KeyOf) == SettleFields(SortBy(raw, KeyOf), zero)
  {
    hide SortBy, Settle;
    SortMaps(raw, KeyOf, settled, KeyOf, f => SettleField(f, zero));
    assert SortBy(settled, KeyOf) == SettleFields(SortBy(raw, KeyOf), zero);
  }

  lemma {:induction false} SettleMeasures(t: Tree, zero: Option<Num>)
    ensures Size(Settle(t, zero)) == Size(t) && Depth(Settle(t, zero)) == Depth(t)
    decreases t, 1
  {
    match t
    case Array(items) => SettleAllMeasures(items, zero);
    case Object(fields) => SettleFieldsMeasures(fields, zero);
    case _ =>
  }

  lemma {:induction false} SettleAllMeasures(items: seq<Tree>, zero: Option<Num>)
    ensures SizeAll(SettleAll(items, zero)) == SizeAll(items) && DepthAll(SettleAll(items, zero)) == DepthAll(items)
    decreases items, 0
  {
    if items != [] {
      SettleMeasures(items[0], zero);
      SettleAllMeasures(items[1..], zero);
      assert SettleAll(items, zero)[1..] == SettleAll(items[1..], zero);
    }
  }

  lemma {:induction false} SettleFieldsMeasures(fields: seq<Field>, zero: Option<Num>)
    ensures SizeFields(SettleFields(fields, zero)) == SizeFields(fields) && DepthFields(SettleFields(fields, zero)) == DepthFields(fields)
    decreases fields, 0
  {
    if fields != [] {
      SettleMeasures(fields[0].value, zero);
      SettleFieldsMeasures(fields[1..], zero);
      assert SettleFields(fields, zero)[1..] == SettleFields(fields[1..], zero);
    }
  }

  lemma {:induction false} SettleUnique(t: Tree, zero: Option<Num>)
    ensures UniqueKeys(Settle(t, zero)) <==> UniqueKeys(t)
    decreases t
  {
    match t
    case Array(items) =>
      forall i | 0 <= i < |items| ensures UniqueKeys(SettleAll(items, zero)[i]) <==> UniqueKeys(items[i]) {
        assert items[i] in items;
        SettleUnique(items[i], zero);
      }
      UniqueItems(items, SettleAll(items, zero));
    case Object(fields) =>
      var settled := SettleFields(fields, zero);
      forall i | 0 <= i < |fields| ensures settled[i].key == fields[i].key && (UniqueKeys(settled[i].value) <==> UniqueKeys(fields[i].value)) {
        assert fields[i] in fields;
        SettleUnique(fields[i].value, zero);
      }
      hide UniqueKeys;
      UniqueFields(fields, settled);
    case _ =>
  }

  /** Settling again decides alone. */
  lemma {:induction false} SettleTwice(t: Tree, first: Num, second: Num)
    requires IsZero(first)
    ensures Settle(Settle(t, Some(first)), Some(second)) == Settle(t, Some(second))
    decreases t
  {
    hide SettleAll, SettleFields;
    match t
    case Array(items) =>
      forall i | 0 <= i < |items| ensures Settle(SettleAll(items, Some(first))[i], Some(second)) == Settle(items[i], Some(second)) {
        assert items[i] in items;
        SettleTwice(items[i], first, second);
      }
      assert SettleAll(SettleAll(items, Some(first)), Some(second)) == SettleAll(items, Some(second));
    case Object(fields) =>
      forall i | 0 <= i < |fields|
        ensures Settle(SettleFields(fields, Some(first))[i].value, Some(second)) == Settle(fields[i].value, Some(second))
      {
        assert fields[i] in fields;
        SettleTwice(fields[i].value, first, second);
      }
      assert SettleFields(SettleFields(fields, Some(first)), Some(second)) == SettleFields(fields, Some(second));
    case _ =>
  }

  lemma {:induction false} CanonHolds(t: Tree, n: Num)
    ensures Holds(Canon(t), n) <==> Holds(t, n)
    decreases t
  {
    hide SortBy, CanonFields, CanonAll;
    match t
    case Array(items) =>
      forall i | 0 <= i < |items| ensures Holds(CanonAll(items)[i], n) <==> Holds(items[i], n) {
        assert items[i] in items;
        CanonHolds(items[i], n);
      }
      SameItemsHold(items, CanonAll(items), n);
    case Object(fields) =>
      var raw := CanonFields(fields);
      forall i | 0 <= i < |fields| ensures Holds(raw[i].value, n) <==> Holds(fields[i].value, n) {
        assert fields[i] in fields;
        CanonHolds(fields[i].value, n);
      }
      SameFieldsHold(fields, raw, n);
      SortMembers(raw, KeyOf);
      assert Holds(Object(SortBy(raw, KeyOf)), n) <==> Holds(Object(raw), n);
    case _ =>
  }

  lemma SameItemsHold(items: seq<Tree>, other: seq<Tree>, n: Num)
    requires |items| == |other| && forall i :: 0 <= i < |items| ==> (Holds(other[i], n) <==> Holds(items[i], n))
    ensures Holds(Array(other), n) <==> Holds(Array(items), n)
  {
    hide Holds;
    HoldsInArray(items, n);
    HoldsInArray(other, n);
  }

  lemma HoldsInArray(items: seq<Tree>, n: Num)
    ensures Holds(Array(items), n) <==> exists i :: 0 <= i < |items| && Holds(items[i], n)
  {
    if x :| x in items && Holds(x, n) {
      var i :| 0 <= i < |items| && items[i] == x;
    }
  }

  lemma SameFieldsHold(fields: seq<Field>, other: seq<Field>, n: Num)
    requires |fields| == |other| && forall i :: 0 <= i < |fields| ==> (Holds(other[i].value, n) <==> Holds(fields[i].value, n))
    ensures Holds(Object(other), n) <==> Holds(Object(fields), n)
  {
    hide Holds;
    HoldsInObject(fields, n);
    HoldsInObject(other, n);
  }

  lemma HoldsInObject(fields: seq<Field>, n: Num)
    ensures Holds(Object(fields), n) <==> exists i :: 0 <= i < |fields| && Holds(fields[i].value, n)
  {
    if f :| f in fields && Holds(f.value, n) {
      var i :| 0 <= i < |fields| && fields[i] == f;
    }
  }

  /** A zero that is held is held as the one that was settled on. */
  lemma {:induction false} SettleHolds(t: Tree, held: Num, zero: Num)
    requires IsZero(held) && Holds(t, held)
    ensures Holds(Settle(t, Some(zero)), zero)
    decreases t
  {
    match t
    case Array(items) =>
      var x :| x in items && Holds(x, held);
      SettleHolds(x, held, zero);
      var i :| 0 <= i < |items| && items[i] == x;
      assert SettleAll(items, Some(zero))[i] in SettleAll(items, Some(zero));
    case Object(fields) =>
      var f :| f in fields && Holds(f.value, held);
      SettleHolds(f.value, held, zero);
      var i :| 0 <= i < |fields| && fields[i] == f;
      assert SettleFields(fields, Some(zero))[i] in SettleFields(fields, Some(zero));
    case _ =>
  }

  function OtherZero(zero: Num): Num {
    if zero == MinusZero then Float(0.0) else MinusZero
  }

  lemma SettledHasOneZero(t: Tree)
    ensures OneZero(Settled(t))
  {
    hide Settle, Holds, FirstZero;
    FirstIsHeld(t);
    if FirstZero(t).Some? {
      var zero := FirstZero(t).value;
      SettleTwice(t, zero, zero);
      SettleChanges(Settled(t), zero, OtherZero(zero));
    } else {
      SettleNothing(t);
    }
  }

  /** What is read back, with sorted fields, is the sorted value exactly when not both zeros are held. */
  lemma SettledSortsExactly(t: Tree)
    ensures Canon(Settled(t)) == Canon(t) <==> OneZero(t)
  {
    hide Settle, Holds, FirstZero, Canon;
    FirstIsHeld(t);
    SettleCanon(t, FirstZero(t));
    if FirstZero(t).Some? {
      var zero := FirstZero(t).value;
      SettleChanges(Canon(t), zero, OtherZero(zero));
      CanonHolds(t, OtherZero(zero));
    } else {
      SettleNothing(Canon(t));
    }
  }

  /** It differs in the signs of zeros at most: made alike, they are the same. */
  lemma SettlingChangesSigns(t: Tree, zero: Num)
    requires IsZero(zero)
    ensures Settle(Canon(Settled(t)), Some(zero)) == Settle(Canon(t), Some(zero))
  {
    hide Settle, Holds, FirstZero, Canon;
    FirstIsHeld(t);
    SettleCanon(t, FirstZero(t));
    if FirstZero(t).Some? {
      SettleTwice(Canon(t), FirstZero(t).value, zero);
    } else {
      SettleNothing(Canon(t));
    }
  }

  /** Values with one sorted form settle to one sorted form exactly when they emit one zero first. */
  lemma FirstZeroDecides(a: Tree, b: Tree)
    requires Canon(a) == Canon(b)
    ensures Canon(Settled(a)) == Canon(Settled(b)) <==> FirstZero(a) == FirstZero(b)
  {
    hide Settle, Holds, FirstZero, Canon;
    var c, za, zb := Canon(a), FirstZero(a), FirstZero(b);
    SettleCanon(a, za);
    SettleCanon(b, zb);
    FirstIsHeld(a);
    FirstIsHeld(b);
    forall n ensures Holds(a, n) <==> Holds(b, n) {
      CanonHolds(a, n);
      CanonHolds(b, n);
    }
    if za.Some? && zb.Some? && za != zb {
      assert zb.value == OtherZero(za.value);
      CanonHolds(a, za.value);
      SettleHolds(c, za.value, zb.value);
      SettleTwice(c, za.value, za.value);
      SettleChanges(Settle(c, za), za.value, zb.value);
    }
  }
}
