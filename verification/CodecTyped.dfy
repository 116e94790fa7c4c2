/** Reading a graph back at a type. The decoder presents nodes to a type's visitor: null as nothing
    to an optional type, a string or an object with one entry to an enumeration, and everything else
    as what it is. A type is given by its shape: what its derived visitor asks for and accepts. */
module CodecTyped {
  import opened Prelude
  import opened CodecTrees
  import opened CodecGraphs
  import opened CodecEmission
  import opened CodecZeros
  import opened CodecValidate
  import opened CodecRoundTrip
  import I = CodecIdentity

  /** Integers lie in bounds, within 64 bits or wide. A struct has a name for each of its shapes, and
      an arm of an enumeration has contents or is a unit. */
  datatype Shape =
    | UnitShape
    | FlagShape
    | WholeShape(low: int, high: int)
    | WideShape(low: int, high: int)
    | RealShape
    | StrShape
    | OptionShape(of: Shape)
    | ItemsShape(of: Shape)
    | MapShape(of: Shape)
    | TupleShape(shapes: seq<Shape>)
    | StructShape(names: seq<string>, shapes: seq<Shape>)
    | EnumShape(arms: seq<Arm>)

  datatype Arm = Arm(name: string, contents: Option<Shape>)

  /** A real without a number is infinite or not a number. A map lists its keys in order. */
  datatype Typed =
    | UnitOf
    | FlagOf(b: bool)
    | WholeOf(n: int)
    | WideOf(n: int)
    | RealOf(finite: Option<Num>)
    | StrOf(s: string)
    | NoneOf
    | SomeOf(value: Typed)
    | ItemsOf(items: seq<Typed>)
    | NamedOf(names: seq<string>, items: seq<Typed>)
    | ArmOf(name: string, contents: Option<Typed>)

  function FindArm(arms: seq<Arm>, name: string): (r: Option<Arm>)
    ensures r.Some? ==> r.value in arms && r.value.name == name
  {
    if arms == [] then None else if arms[0].name == name then Some(arms[0]) else FindArm(arms[1..], name)
  }

  /** A struct's names are different, and an integer's bounds are those of its width. */
  ghost predicate Declared(s: Shape)
    decreases s
  {
    match s
    case WholeShape(low, high) => InRange(low) && InRange(high)
    case OptionShape(of) => Declared(of)
    case ItemsShape(of) => Declared(of)
    case MapShape(of) => Declared(of)
    case TupleShape(shapes) => forall k :: 0 <= k < |shapes| ==> Declared(shapes[k])
    case StructShape(names, shapes) => |names| == |shapes| && Distinct(names) && forall k :: 0 <= k < |shapes| ==> Declared(shapes[k])
    case EnumShape(arms) => forall k :: 0 <= k < |arms| && arms[k].contents.Some? ==> Declared(arms[k].contents.value)
    case _ => true
  }

  ghost predicate Conforms(s: Shape, v: Typed)
    decreases s
  {
    match s
    case UnitShape => v.UnitOf?
    case FlagShape => v.FlagOf?
    case WholeShape(low, high) => v.WholeOf? && low <= v.n <= high
    case WideShape(low, high) => v.WideOf? && low <= v.n <= high
    case RealShape => v.RealOf? && (v.finite.Some? ==> !v.finite.value.Integer?)
    case StrShape => v.StrOf?
    case OptionShape(of) => v.NoneOf? || (v.SomeOf? && Conforms(of, v.value))
    case ItemsShape(of) => v.ItemsOf? && forall k :: 0 <= k < |v.items| ==> Conforms(of, v.items[k])
    case MapShape(of) =>
      && v.NamedOf? && |v.names| == |v.items| && Rising(v.names, Itself)
      && forall k :: 0 <= k < |v.items| ==> Conforms(of, v.items[k])
    case TupleShape(shapes) => v.ItemsOf? && |v.items| == |shapes| && forall k :: 0 <= k < |shapes| ==> Conforms(shapes[k], v.items[k])
    case StructShape(names, shapes) =>
      && v.NamedOf? && v.names == names && |v.items| == |names| == |shapes|
      && forall k :: 0 <= k < |shapes| ==> Conforms(shapes[k], v.items[k])
    case EnumShape(arms) =>
      && v.ArmOf? && FindArm(arms, v.name).Some?
      && var contents := FindArm(arms, v.name).value.contents;
         contents.Some? == v.contents.Some? && (contents.Some? ==> Conforms(contents.value, v.contents.value))
  }

  function Itself(s: string): string {
    s
  }

  // ----- Emission -----

  /** What serializing a value emits. */
  function Emit(v: Typed): Emitted {
    match v
    case UnitOf => Unit
    case FlagOf(b) => Flag(b)
    case WholeOf(n) => Whole(n)
    case WideOf(n) => Wide(n)
    case RealOf(finite) =>
      if finite.None? then Real(None)
      else if finite.value.Float? then Real(Some(finite.value.value))
      else NegativeZero
    case StrOf(s) => Str(s)
    case NoneOf => Unit
    case SomeOf(x) => Emit(x)
    case ItemsOf(items) => Items(seq(|items|, k requires 0 <= k < |items| => Emit(items[k])))
    case NamedOf(names, items) => Mapping(seq(|items|, k requires 0 <= k < |items| => EmitPair(names, items, k)))
    case ArmOf(name, contents) => if contents.Some? then Variant(name, Emit(contents.value)) else Str(name)
  }

  function EmitPair(names: seq<string>, items: seq<Typed>, k: nat): Pair
    requires k < |items|
    decreases items, 0
  {
    Pair(Str(if k < |names| then names[k] else ""), Emit(items[k]))
  }

  // ----- Reading -----

  function FindField(fields: seq<Field>, name: string): (r: Option<Field>)
    ensures r.Some? ==> r.value in fields && r.value.key == name
  {
    if fields == [] then None else if fields[0].key == name then Some(fields[0]) else FindField(fields[1..], name)
  }

  /** What a value of a decoded object reads as under a field's name: a missing option is none. */
  function ReadField(s: Shape, fields: seq<Field>, name: string): Option<Typed>
    decreases s, 1
  {
    var f := FindField(fields, name);
    if f.Some? then Read(s, f.value.value) else if s.OptionShape? then Some(NoneOf) else None
  }

  /** What a decoded value is at a shape, if it is of that shape. A tuple ignores items after its own,
      a struct is an object of whose fields it ignores those it does not know, or a tuple. */
  function Read(s: Shape, t: Tree): Option<Typed>
    decreases s, 0
  {
    match s
    case UnitShape => if t.Null? then Some(UnitOf) else None
    case FlagShape => if t.Boolean? then Some(FlagOf(t.b)) else None
    case WholeShape(low, high) => if t.Number? && t.n.Integer? && low <= t.n.n <= high then Some(WholeOf(t.n.n)) else None
    case WideShape(low, high) => if t.Number? && t.n.Integer? && low <= t.n.n <= high then Some(WideOf(t.n.n)) else None
    case RealShape =>
      if !t.Number? then None else Some(RealOf(Some(if t.n.Integer? then Float(t.n.n as real) else t.n)))
    case StrShape => if t.Text? then Some(StrOf(t.s)) else None
    case OptionShape(of) =>
      if t.Null? then Some(NoneOf)
      else
        (match Read(of, t)
         case None => None
         case Some(x) => Some(SomeOf(x)))
    case ItemsShape(of) => if t.Array? then ReadItems(of, t.items) else None
    case MapShape(of) => if t.Object? then ReadMap(of, t.fields) else None
    case TupleShape(shapes) =>
      if t.Array? && |t.items| >= |shapes| && forall k :: 0 <= k < |shapes| ==> Read(shapes[k], t.items[k]).Some? then
        Some(ItemsOf(seq(|shapes|, k requires 0 <= k < |shapes| => Read(shapes[k], t.items[k]).value)))
      else None
    case StructShape(names, shapes) =>
      if |names| != |shapes| then None
      else if t.Array? && |t.items| >= |shapes| && forall k :: 0 <= k < |shapes| ==> Read(shapes[k], t.items[k]).Some? then
        Some(NamedOf(names, seq(|shapes|, k requires 0 <= k < |shapes| => Read(shapes[k], t.items[k]).value)))
      else if t.Object? && forall k :: 0 <= k < |shapes| ==> ReadField(shapes[k], t.fields, names[k]).Some? then
        Some(NamedOf(names, seq(|shapes|, k requires 0 <= k < |shapes| => ReadField(shapes[k], t.fields, names[k]).value)))
      else None
    case EnumShape(arms) =>
      if t.Text? then ReadUnitArm(arms, t.s)
      else if t.Object? && |t.fields| == 1 then
        var arm := FindArm(arms, t.fields[0].key);
        if arm.None? then None
        else if arm.value.contents.None? then if t.fields[0].value.Null? then Some(ArmOf(arm.value.name, None)) else None
        else
          match Read(arm.value.contents.value, t.fields[0].value)
          case None => None
          case Some(x) => Some(ArmOf(arm.value.name, Some(x)))
      else None
  }

  function ReadItems(of: Shape, items: seq<Tree>): Option<Typed>
    decreases of, 1
  {
    if forall k :: 0 <= k < |items| ==> Read(of, items[k]).Some? then
      Some(ItemsOf(seq(|items|, k requires 0 <= k < |items| => Read(of, items[k]).value)))
    else None
  }

  function ReadMap(of: Shape, fields: seq<Field>): Option<Typed>
    decreases of, 1
  {
    if forall k :: 0 <= k < |fields| ==> Read(of, fields[k].value).Some? then
      Some(NamedOf(
        seq(|fields|, k requires 0 <= k < |fields| => fields[k].key),
        seq(|fields|, k requires 0 <= k < |fields| => Read(of, fields[k].value).value)))
    else None
  }

  function ReadUnitArm(arms: seq<Arm>, name: string): Option<Typed> {
    var arm := FindArm(arms, name);
    if arm.Some? && arm.value.contents.None? then Some(ArmOf(name, None)) else None
  }

  // ----- What is not lost -----

  /** Whether a value emits null. */
  predicate EmitsNull(v: Typed) {
    v.UnitOf? || v.NoneOf? || (v.RealOf? && v.finite.None?) || (v.SomeOf? && EmitsNull(v.value))
  }

  /** No real is infinite or not a number, and no optional value is one that emits null. */
  predicate Kept(v: Typed) {
    match v
    case RealOf(finite) => finite.Some?
    case SomeOf(x) => Kept(x) && !EmitsNull(x)
    case ItemsOf(items) => forall k :: 0 <= k < |items| ==> Kept(items[k])
    case NamedOf(_, items) => forall k :: 0 <= k < |items| ==> Kept(items[k])
    case ArmOf(_, contents) => contents.Some? ==> Kept(contents.value)
    case _ => true
  }

  // ----- Emitted trees, part by part -----

  lemma {:induction false} TreesOfAt(items: seq<Emitted>)
    requires TreesOf(items).Ok?
    ensures |TreesOf(items).value| == |items|
    ensures forall k :: 0 <= k < |items| ==> TreeOf(items[k]) == Ok(TreesOf(items).value[k])
    decreases |items|
  {
    if items != [] {
      TreesOfAt(items[..|items| - 1]);
    }
  }

  lemma {:induction false} FieldsOfAt(pairs: seq<Pair>)
    requires FieldsOf(pairs).Ok?
    ensures |FieldsOf(pairs).value| == |pairs|
    ensures forall k :: 0 <= k < |pairs| ==> FieldOf(pairs[k]) == Ok(FieldsOf(pairs).value[k])
    decreases |pairs|
  {
    if pairs != [] {
      FieldsOfAt(pairs[..|pairs| - 1]);
    }
  }

  /** A value reads back as itself exactly when nothing of it was lost on the way. */
  ghost predicate ReadsBack(s: Shape, v: Typed, zero: Option<Num>)
    requires TreeOf(Emit(v)).Ok?
  {
    var t := TreeOf(Emit(v)).value;
    Read(s, Canon(Settle(t, zero))) == Some(v) <==> Kept(v) && Settle(t, zero) == t
  }

  lemma {:induction false} NullWhen(v: Typed)
    requires TreeOf(Emit(v)).Ok?
    ensures TreeOf(Emit(v)).value.Null? <==> EmitsNull(v)
  {
    if v.SomeOf? {
      NullWhen(v.value);
    }
  }

  lemma StaysNull(t: Tree, zero: Option<Num>)
    ensures Canon(Settle(t, zero)).Null? <==> t.Null?
  {
  }

  lemma OptionBack(of: Shape, x: Typed, zero: Option<Num>)
    requires TreeOf(Emit(x)).Ok? && ReadsBack(of, x, zero)
    ensures ReadsBack(OptionShape(of), SomeOf(x), zero)
  {
    hide TreeOf, Canon, Settle;
    NullWhen(x);
    StaysNull(TreeOf(Emit(x)).value, zero);
  }

  ghost predicate AllEmit(items: seq<Typed>) {
    forall k :: 0 <= k < |items| ==> TreeOf(Emit(items[k])).Ok?
  }

  ghost predicate AllReadBack(shapes: seq<Shape>, items: seq<Typed>, zero: Option<Num>)
    requires AllEmit(items)
  {
    |shapes| == |items| && forall k :: 0 <= k < |items| ==> ReadsBack(shapes[k], items[k], zero)
  }

  /** Trees as they are kept: sorted and settled. */
  function KeptAll(trees: seq<Tree>, zero: Option<Num>): (r: seq<Tree>)
    ensures |r| == |trees| && forall k :: 0 <= k < |r| ==> r[k] == Canon(Settle(trees[k], zero))
  {
    seq(|trees|, k requires 0 <= k < |trees| => Canon(Settle(trees[k], zero)))
  }

  ghost predicate Unsettled(trees: seq<Tree>, zero: Option<Num>) {
    forall k :: 0 <= k < |trees| ==> Settle(trees[k], zero) == trees[k]
  }

  lemma ArrayParts(trees: seq<Tree>, zero: Option<Num>)
    ensures Canon(Settle(Array(trees), zero)) == Array(KeptAll(trees, zero))
    ensures Settle(Array(trees), zero) == Array(trees) <==> Unsettled(trees, zero)
  {
    hide CanonAll, SettleAll;
    assert CanonAll(SettleAll(trees, zero)) == KeptAll(trees, zero);
    assert SettleAll(trees, zero) == trees <==> forall k :: 0 <= k < |trees| ==> SettleAll(trees, zero)[k] == trees[k];
  }

  lemma ObjectParts(names: seq<string>, trees: seq<Tree>, zero: Option<Num>)
    requires |names| == |trees|
    ensures Canon(Settle(Object(FieldsWith(names, trees)), zero)) == Object(SortBy(FieldsWith(names, KeptAll(trees, zero)), KeyOf))
    ensures Settle(Object(FieldsWith(names, trees)), zero) == Object(FieldsWith(names, trees)) <==> Unsettled(trees, zero)
  {
    hide CanonFields, SettleFields, SortBy;
    var fields := FieldsWith(names, trees);
    assert CanonFields(SettleFields(fields, zero)) == FieldsWith(names, KeptAll(trees, zero));
    assert SettleFields(fields, zero) == fields <==> forall k :: 0 <= k < |fields| ==> SettleFields(fields, zero)[k] == fields[k];
  }

  function FieldsWith(names: seq<string>, trees: seq<Tree>): (r: seq<Field>)
    requires |names| == |trees|
    ensures |r| == |names| && forall k :: 0 <= k < |r| ==> r[k] == Field(names[k], trees[k])
  {
    seq(|names|, k requires 0 <= k < |names| => Field(names[k], trees[k]))
  }

  ghost predicate ReadAlike(shapes: seq<Shape>, trees: seq<Tree>, items: seq<Typed>) {
    |shapes| == |trees| == |items| && forall k :: 0 <= k < |items| ==> Read(shapes[k], trees[k]) == Some(items[k])
  }

  ghost function RawTrees(items: seq<Typed>): (r: seq<Tree>)
    requires AllEmit(items)
    ensures |r| == |items| && forall k :: 0 <= k < |items| ==> r[k] == TreeOf(Emit(items[k])).value
  {
    seq(|items|, k requires 0 <= k < |items| => TreeOf(Emit(items[k])).value)
  }

  lemma EmittedItems(items: seq<Typed>)
    requires TreeOf(Emit(ItemsOf(items))).Ok?
    ensures AllEmit(items) && TreeOf(Emit(ItemsOf(items))).value == Array(RawTrees(items))
  {
    var emitted := Emit(ItemsOf(items)).items;
    hide TreesOf;
    TreesOfAt(emitted);
    var trees := TreesOf(emitted).value;
    forall k | 0 <= k < |items| ensures TreeOf(Emit(items[k])) == Ok(trees[k]) {
      assert emitted[k] == Emit(items[k]);
    }
    hide TreeOf, Emit;
    assert trees == RawTrees(items);
  }

  /** Item by item, nothing is lost exactly when each item reads as its value. */
  lemma ItemsRead(shapes: seq<Shape>, items: seq<Typed>, zero: Option<Num>)
    requires AllEmit(items) && AllReadBack(shapes, items, zero)
    ensures ReadAlike(shapes, KeptAll(RawTrees(items), zero), items)
            <==> (forall k :: 0 <= k < |items| ==> Kept(items[k])) && Unsettled(RawTrees(items), zero)
  {
    hide TreeOf, Emit, Canon, Settle, Read, Kept;
    var trees := RawTrees(items);
    forall k | 0 <= k < |items|
      ensures Read(shapes[k], KeptAll(trees, zero)[k]) == Some(items[k]) <==> Kept(items[k]) && Settle(trees[k], zero) == trees[k]
    {
      assert ReadsBack(shapes[k], items[k], zero);
    }
  }

  lemma TupleBack(shapes: seq<Shape>, items: seq<Typed>, zero: Option<Num>)
    requires TreeOf(Emit(ItemsOf(items))).Ok? && AllEmit(items) && AllReadBack(shapes, items, zero)
    ensures ReadsBack(TupleShape(shapes), ItemsOf(items), zero)
  {
    hide TreeOf, Emit, Canon, Settle, Read, RawTrees, KeptAll, ReadAlike, Unsettled;
    EmittedItems(items);
    ArrayParts(RawTrees(items), zero);
    ItemsRead(shapes, items, zero);
    TupleReads(shapes, KeptAll(RawTrees(items), zero), items);
  }

  /** Reading a list gives these values exactly when each item reads as its value. */
  lemma TupleReads(shapes: seq<Shape>, trees: seq<Tree>, items: seq<Typed>)
    requires |shapes| == |trees| == |items|
    ensures Read(TupleShape(shapes), Array(trees)) == Some(ItemsOf(items)) <==> ReadAlike(shapes, trees, items)
  {
    var r := Read(TupleShape(shapes), Array(trees));
    if ReadAlike(shapes, trees, items) {
      assert r.value.items == items;
    }
    if r == Some(ItemsOf(items)) {
      forall k | 0 <= k < |items| ensures Read(shapes[k], trees[k]) == Some(items[k]) {
        assert r.value.items[k] == items[k];
      }
    }
  }

  lemma ListReads(of: Shape, trees: seq<Tree>, items: seq<Typed>)
    requires |trees| == |items|
    ensures Read(ItemsShape(of), Array(trees)) == Some(ItemsOf(items)) <==> ReadAlike(seq(|items|, _ => of), trees, items)
  {
    ListIs(of, trees);
    hide Read;
    var r := ReadItems(of, trees);
    if ReadAlike(seq(|items|, _ => of), trees, items) {
      assert forall k :: 0 <= k < |items| ==> Read(seq(|items|, _ => of)[k], trees[k]) == Some(items[k]);
      assert r.value.items == items;
    }
    if r == Some(ItemsOf(items)) {
      forall k | 0 <= k < |items| ensures Read(of, trees[k]) == Some(items[k]) {
        assert r.value.items[k] == items[k];
      }
    }
  }

  lemma ListIs(of: Shape, trees: seq<Tree>)
    ensures Read(ItemsShape(of), Array(trees)) == ReadItems(of, trees)
  {
    hide ReadItems;
  }

  lemma MapIs(of: Shape, fields: seq<Field>)
    ensures Read(MapShape(of), Object(fields)) == ReadMap(of, fields)
  {
    hide ReadMap;
  }

  lemma ItemsBack(of: Shape, items: seq<Typed>, zero: Option<Num>)
    requires TreeOf(Emit(ItemsOf(items))).Ok? && AllEmit(items) && AllReadBack(seq(|items|, _ => of), items, zero)
    ensures ReadsBack(ItemsShape(of), ItemsOf(items), zero)
  {
    hide TreeOf, Emit, Canon, Settle, Read, RawTrees, KeptAll, ReadAlike, Unsettled;
    EmittedItems(items);
    ArrayParts(RawTrees(items), zero);
    ItemsRead(seq(|items|, _ => of), items, zero);
    ListReads(of, KeptAll(RawTrees(items), zero), items);
  }

  // ----- Objects -----

  lemma EmittedFields(names: seq<string>, items: seq<Typed>)
    requires |names| == |items| && TreeOf(Emit(NamedOf(names, items))).Ok?
    ensures AllEmit(items) && TreeOf(Emit(NamedOf(names, items))).value == Object(FieldsWith(names, RawTrees(items)))
  {
    var emitted := Emit(NamedOf(names, items)).pairs;
    hide FieldsOf;
    FieldsOfAt(emitted);
    var fields := FieldsOf(emitted).value;
    forall k | 0 <= k < |items| ensures TreeOf(Emit(items[k])).Ok? && fields[k] == Field(names[k], TreeOf(Emit(items[k])).value) {
      assert emitted[k] == Pair(Str(names[k]), Emit(items[k]));
      PairEmits(names[k], Emit(items[k]), fields[k]);
    }
    hide TreeOf, Emit;
    assert fields == FieldsWith(names, RawTrees(items));
  }

  lemma PairEmits(name: string, e: Emitted, f: Field)
    requires FieldOf(Pair(Str(name), e)) == Ok(f)
    ensures TreeOf(e).Ok? && f == Field(name, TreeOf(e).value)
  {
  }

  lemma FieldsReadAlike(of: Shape, names: seq<string>, trees: seq<Tree>, items: seq<Typed>)
    requires |names| == |trees| == |items|
    ensures Read(MapShape(of), Object(FieldsWith(names, trees))) == Some(NamedOf(names, items))
            <==> ReadAlike(seq(|items|, _ => of), trees, items)
  {
    hide FieldsWith;
    var fields := FieldsWith(names, trees);
    MapIs(of, fields);
    hide Read;
    var r := ReadMap(of, fields);
    assert seq(|fields|, k requires 0 <= k < |fields| => fields[k].key) == names;
    if ReadAlike(seq(|items|, _ => of), trees, items) {
      forall k | 0 <= k < |items| ensures Read(of, fields[k].value) == Some(items[k]) {
        assert Read(seq(|items|, _ => of)[k], trees[k]) == Some(items[k]);
      }
      assert r.value.items == items;
    }
    if r == Some(NamedOf(names, items)) {
      forall k | 0 <= k < |items| ensures Read(of, trees[k]) == Some(items[k]) {
        assert r.value.items[k] == items[k];
      }
    }
  }

  /** Keys in order stay in order. */
  lemma MapReads(of: Shape, names: seq<string>, trees: seq<Tree>, items: seq<Typed>)
    requires |names| == |trees| == |items| && Rising(names, Itself)
    ensures Read(MapShape(of), Object(SortBy(FieldsWith(names, trees), KeyOf))) == Some(NamedOf(names, items))
            <==> ReadAlike(seq(|items|, _ => of), trees, items)
  {
    hide SortBy, Read, ReadAlike, Ordered, Rising;
    RisingOrders(FieldsWith(names, trees), names);
    I.SortOfOrdered(FieldsWith(names, trees), KeyOf);
    FieldsReadAlike(of, names, trees, items);
  }

  lemma RisingOrders(fields: seq<Field>, names: seq<string>)
    requires |fields| == |names| && Rising(names, Itself) && forall k :: 0 <= k < |fields| ==> fields[k].key == names[k]
    ensures Ordered(fields, KeyOf)
  {
    hide Before;
    forall i, j | 0 <= i < j < |fields| ensures !Before(KeyOf(fields[j]), KeyOf(fields[i])) {
      assert Before(Itself(names[i]), Itself(names[j]));
      BeforeTotal(names[i], names[j]);
    }
  }

  lemma MapBack(of: Shape, names: seq<string>, items: seq<Typed>, zero: Option<Num>)
    requires |names| == |items| && Rising(names, Itself)
    requires TreeOf(Emit(NamedOf(names, items))).Ok? && AllEmit(items) && AllReadBack(seq(|items|, _ => of), items, zero)
    ensures ReadsBack(MapShape(of), NamedOf(names, items), zero)
  {
    hide TreeOf, Emit, Canon, Settle, Read, RawTrees, KeptAll, ReadAlike, Unsettled, SortBy, FieldsWith;
    EmittedFields(names, items);
    ObjectParts(names, RawTrees(items), zero);
    ItemsRead(seq(|items|, _ => of), items, zero);
    MapReads(of, names, KeptAll(RawTrees(items), zero), items);
  }

  lemma {:induction false} FindsField(fields: seq<Field>, f: Field)
    requires f in fields && UniqueBy(fields, KeyOf)
    ensures FindField(fields, f.key) == Some(f)
    decreases |fields|
  {
    UniqueMembers(fields, f);
    if fields[0].key != f.key {
      UniqueTail(fields);
      FindsField(fields[1..], f);
    }
  }

  lemma UniqueMembers(fields: seq<Field>, f: Field)
    requires f in fields && UniqueBy(fields, KeyOf)
    ensures forall g :: g in fields && g.key == f.key ==> g == f
  {
    var i :| 0 <= i < |fields| && fields[i] == f;
    forall g | g in fields && g.key == f.key ensures g == f {
      var j :| 0 <= j < |fields| && fields[j] == g;
      assert KeyOf(fields[i]) == KeyOf(fields[j]);
    }
  }

  lemma UniqueTail(fields: seq<Field>)
    requires fields != [] && UniqueBy(fields, KeyOf)
    ensures UniqueBy(fields[1..], KeyOf)
  {
    assert forall k :: 0 <= k < |fields| - 1 ==> fields[1..][k] == fields[k + 1];
  }

  /** The fields of a struct are found under their names, wherever sorting put them. */
  lemma StructReads(names: seq<string>, shapes: seq<Shape>, trees: seq<Tree>, items: seq<Typed>)
    requires |names| == |shapes| == |trees| == |items| && Distinct(names)
    ensures Read(StructShape(names, shapes), Object(SortBy(FieldsWith(names, trees), KeyOf))) == Some(NamedOf(names, items))
            <==> ReadAlike(shapes, trees, items)
  {
    var fields := FieldsWith(names, trees);
    var sorted := SortBy(fields, KeyOf);
    SortMembers(fields, KeyOf);
    assert UniqueBy(fields, KeyOf) by {
      assert forall k :: 0 <= k < |fields| ==> KeyOf(fields[k]) == names[k];
    }
    SortUnique(fields, KeyOf);
    hide SortBy, UniqueBy, Distinct;
    forall k | 0 <= k < |names| ensures ReadField(shapes[k], sorted, names[k]) == Read(shapes[k], trees[k]) {
      assert fields[k] in fields;
      FindsField(sorted, fields[k]);
    }
    hide ReadField, FieldsWith;
    StructReadsFields(names, shapes, sorted, trees, items);
  }

  lemma StructReadsFields(names: seq<string>, shapes: seq<Shape>, fields: seq<Field>, trees: seq<Tree>, items: seq<Typed>)
    requires |names| == |shapes| == |trees| == |items|
    requires forall k :: 0 <= k < |names| ==> ReadField(shapes[k], fields, names[k]) == Read(shapes[k], trees[k])
    ensures Read(StructShape(names, shapes), Object(fields)) == Some(NamedOf(names, items)) <==> ReadAlike(shapes, trees, items)
  {
    hide ReadField;
    var r := Read(StructShape(names, shapes), Object(fields));
    if ReadAlike(shapes, trees, items) {
      assert r.value.items == items;
    }
    if r == Some(NamedOf(names, items)) {
      forall k | 0 <= k < |items| ensures Read(shapes[k], trees[k]) == Some(items[k]) {
        assert r.value.items[k] == items[k];
      }
    }
  }

  lemma StructBack(names: seq<string>, shapes: seq<Shape>, items: seq<Typed>, zero: Option<Num>)
    requires |names| == |shapes| == |items| && Distinct(names)
    requires TreeOf(Emit(NamedOf(names, items))).Ok? && AllEmit(items) && AllReadBack(shapes, items, zero)
    ensures ReadsBack(StructShape(names, shapes), NamedOf(names, items), zero)
  {
    hide TreeOf, Emit, Canon, Settle, Read, RawTrees, KeptAll, ReadAlike, Unsettled, SortBy, FieldsWith;
    EmittedFields(names, items);
    ObjectParts(names, RawTrees(items), zero);
    ItemsRead(shapes, items, zero);
    StructReads(names, shapes, KeptAll(RawTrees(items), zero), items);
  }

  lemma ArmBack(arms: seq<Arm>, name: string, x: Typed, zero: Option<Num>)
    requires FindArm(arms, name).Some? && FindArm(arms, name).value.contents.Some?
    requires TreeOf(Emit(x)).Ok? && ReadsBack(FindArm(arms, name).value.contents.value, x, zero)
    ensures TreeOf(Emit(ArmOf(name, Some(x)))).Ok? && ReadsBack(EnumShape(arms), ArmOf(name, Some(x)), zero)
  {
    hide FindArm, Canon, Settle;
    var inner := TreeOf(Emit(x)).value;
    assert TreeOf(Emit(ArmOf(name, Some(x)))) == Ok(Object([Field(name, inner)]));
    hide TreeOf, Emit;
    OneFieldKept(name, inner, zero);
    ArmReads(arms, name, Canon(Settle(inner, zero)), x);
  }

  lemma ArmReads(arms: seq<Arm>, name: string, t: Tree, x: Typed)
    requires FindArm(arms, name).Some? && FindArm(arms, name).value.contents.Some?
    ensures Read(EnumShape(arms), Object([Field(name, t)])) == Some(ArmOf(name, Some(x)))
            <==> Read(FindArm(arms, name).value.contents.value, t) == Some(x)
  {
    hide FindArm;
  }

  lemma OneFieldKept(name: string, t: Tree, zero: Option<Num>)
    ensures Canon(Settle(Object([Field(name, t)]), zero)) == Object([Field(name, Canon(Settle(t, zero)))])
    ensures Settle(Object([Field(name, t)]), zero) == Object([Field(name, t)]) <==> Settle(t, zero) == t
  {
    hide Canon, Settle, SortBy;
    ObjectParts([name], [t], zero);
    assert FieldsWith([name], [t]) == [Field(name, t)];
    var kept := [Field(name, Canon(Settle(t, zero)))];
    assert FieldsWith([name], KeptAll([t], zero)) == kept;
    I.SortOfOrdered(kept, KeyOf);
    assert Unsettled([t], zero) <==> Settle([t][0], zero) == [t][0];
  }

  lemma LeafBack(s: Shape, v: Typed, zero: Option<Num>)
    requires Conforms(s, v) && TreeOf(Emit(v)).Ok? && (zero.Some? ==> IsZero(zero.value))
    requires s.UnitShape? || s.FlagShape? || s.WholeShape? || s.WideShape? || s.StrShape?
    ensures ReadsBack(s, v, zero)
  {
  }

  lemma RealBack(v: Typed, zero: Option<Num>)
    requires Conforms(RealShape, v) && TreeOf(Emit(v)).Ok? && (zero.Some? ==> IsZero(zero.value))
    ensures ReadsBack(RealShape, v, zero)
  {
  }

  /** For every shape and every value of it: what is read back from the settled, sorted tree is the
      value exactly when no real in it is lost, no optional value in it emits null, and settling
      its zeros changed none. */
  lemma {:induction false} AllReadsBack(s: Shape, v: Typed, zero: Option<Num>)
    requires Declared(s) && Conforms(s, v) && TreeOf(Emit(v)).Ok? && (zero.Some? ==> IsZero(zero.value))
    ensures ReadsBack(s, v, zero)
    decreases s
  {
    hide TreeOf, Emit, ReadsBack, Read, Settle, Canon;
    match s
    case OptionShape(of) =>
      if v.SomeOf? {
        SomeEmits(v.value);
        AllReadsBack(of, v.value, zero);
        OptionBack(of, v.value, zero);
      } else {
        NoneBack(of, zero);
      }
    case ItemsShape(of) =>
      EmittedItems(v.items);
      forall k | 0 <= k < |v.items| ensures ReadsBack(of, v.items[k], zero) {
        AllReadsBack(of, v.items[k], zero);
      }
      ItemsBack(of, v.items, zero);
    case TupleShape(shapes) =>
      EmittedItems(v.items);
      forall k | 0 <= k < |v.items| ensures ReadsBack(shapes[k], v.items[k], zero) {
        AllReadsBack(shapes[k], v.items[k], zero);
      }
      TupleBack(shapes, v.items, zero);
    case MapShape(of) =>
      EmittedFields(v.names, v.items);
      forall k | 0 <= k < |v.items| ensures ReadsBack(of, v.items[k], zero) {
        AllReadsBack(of, v.items[k], zero);
      }
      MapBack(of, v.names, v.items, zero);
    case StructShape(names, shapes) =>
      EmittedFields(v.names, v.items);
      forall k | 0 <= k < |v.items| ensures ReadsBack(shapes[k], v.items[k], zero) {
        AllReadsBack(shapes[k], v.items[k], zero);
      }
      StructBack(names, shapes, v.items, zero);
    case EnumShape(arms) =>
      if v.contents.Some? {
        ArmEmits(v.name, v.contents.value);
        AllReadsBack(FindArm(arms, v.name).value.contents.value, v.contents.value, zero);
        ArmBack(arms, v.name, v.contents.value, zero);
      } else {
        UnitArmBack(arms, v.name, zero);
      }
    case RealShape => RealBack(v, zero);
    case _ => LeafBack(s, v, zero);
  }

  lemma SomeEmits(x: Typed)
    ensures Emit(SomeOf(x)) == Emit(x)
  {
  }

  lemma ArmEmits(name: string, x: Typed)
    requires TreeOf(Emit(ArmOf(name, Some(x)))).Ok?
    ensures TreeOf(Emit(x)).Ok?
  {
  }

  lemma NoneBack(of: Shape, zero: Option<Num>)
    requires TreeOf(Emit(NoneOf)).Ok?
    ensures ReadsBack(OptionShape(of), NoneOf, zero)
  {
  }

  lemma UnitArmBack(arms: seq<Arm>, name: string, zero: Option<Num>)
    requires FindArm(arms, name).Some? && FindArm(arms, name).value.contents.None? && TreeOf(Emit(ArmOf(name, None))).Ok?
    ensures ReadsBack(EnumShape(arms), ArmOf(name, None), zero)
  {
  }

  // ----- Reading nodes -----

  /** What the decoder hands to a visitor for a node, by what the visitor's type asks for. */
  function ReadNode(s: Shape, nodes: seq<Node>, id: nat): Option<Typed>
    requires Backward(nodes) && id < |nodes|
    decreases s, 0
  {
    BackwardAt(nodes, id);
    match s
    case OptionShape(of) =>
      if nodes[id].N? then Some(NoneOf)
      else
        (match ReadNode(of, nodes, id)
         case None => None
         case Some(x) => Some(SomeOf(x)))
    case ItemsShape(of) => if nodes[id].A? then ReadRefs(of, nodes, nodes[id].items, id) else None
    case MapShape(of) => if nodes[id].O? then ReadEntries(of, nodes, nodes[id].entries, id) else None
    case TupleShape(shapes) =>
      if nodes[id].A? && |nodes[id].items| >= |shapes| && forall k :: 0 <= k < |shapes| ==> ReadNode(shapes[k], nodes, nodes[id].items[k]).Some? then
        Some(ItemsOf(seq(|shapes|, k requires 0 <= k < |shapes| => ReadNode(shapes[k], nodes, nodes[id].items[k]).value)))
      else None
    case StructShape(names, shapes) =>
      if |names| != |shapes| then None
      else if nodes[id].A? && |nodes[id].items| >= |shapes| && forall k :: 0 <= k < |shapes| ==> ReadNode(shapes[k], nodes, nodes[id].items[k]).Some? then
        Some(NamedOf(names, seq(|shapes|, k requires 0 <= k < |shapes| => ReadNode(shapes[k], nodes, nodes[id].items[k]).value)))
      else if nodes[id].O? && forall k :: 0 <= k < |shapes| ==> ReadEntry(shapes[k], nodes, id, names[k]).Some? then
        Some(NamedOf(names, seq(|shapes|, k requires 0 <= k < |shapes| => ReadEntry(shapes[k], nodes, id, names[k]).value)))
      else None
    case EnumShape(arms) =>
      (match nodes[id]
       case S(name) => ReadUnitArm(arms, name)
       case O(entries) =>
         if |entries| != 1 then None
         else
           var arm := FindArm(arms, nodes[entries[0].key].s);
           if arm.None? then None
           else if arm.value.contents.None? then if nodes[entries[0].value].N? then Some(ArmOf(arm.value.name, None)) else None
           else
             (match ReadNode(arm.value.contents.value, nodes, entries[0].value)
              case None => None
              case Some(x) => Some(ArmOf(arm.value.name, Some(x))))
       case _ => None)
    case _ => ReadLeaf(s, nodes[id])
  }

  function ReadRefs(of: Shape, nodes: seq<Node>, items: seq<nat>, bound: nat): Option<Typed>
    requires Backward(nodes) && bound <= |nodes| && AllBelow(items, bound)
    decreases of, 1
  {
    if forall k :: 0 <= k < |items| ==> ReadNode(of, nodes, items[k]).Some? then
      Some(ItemsOf(seq(|items|, k requires 0 <= k < |items| => ReadNode(of, nodes, items[k]).value)))
    else None
  }

  function ReadEntries(of: Shape, nodes: seq<Node>, entries: seq<Entry>, bound: nat): Option<Typed>
    requires Backward(nodes) && EntriesBelow(nodes, entries, bound)
    decreases of, 1
  {
    if forall k :: 0 <= k < |entries| ==> ReadNode(of, nodes, entries[k].value).Some? then
      Some(NamedOf(
        seq(|entries|, k requires 0 <= k < |entries| => nodes[entries[k].key].s),
        seq(|entries|, k requires 0 <= k < |entries| => ReadNode(of, nodes, entries[k].value).value)))
    else None
  }

  /** `visit_unit`, `visit_bool`, `visit_str` and the visits of a number. */
  function ReadLeaf(s: Shape, n: Node): Option<Typed> {
    match (s, n)
    case (UnitShape, N) => Some(UnitOf)
    case (FlagShape, B(b)) => Some(FlagOf(b))
    case (WholeShape(low, high), I(Integer(i))) => if low <= i <= high then Some(WholeOf(i)) else None
    case (WideShape(low, high), I(Integer(i))) => if low <= i <= high then Some(WideOf(i)) else None
    case (RealShape, I(Integer(i))) => Some(RealOf(Some(Float(i as real))))
    case (RealShape, I(other)) => Some(RealOf(Some(other)))
    case (StrShape, S(text)) => Some(StrOf(text))
    case _ => None
  }

  function FindEntry(nodes: seq<Node>, entries: seq<Entry>, bound: nat, name: string): (r: Option<Entry>)
    requires EntriesBelow(nodes, entries, bound)
    ensures r.Some? ==> r.value in entries
    decreases |entries|
  {
    if entries == [] then None
    else if nodes[entries[0].key].s == name then Some(entries[0])
    else FindEntry(nodes, entries[1..], bound, name)
  }

  function ReadEntry(s: Shape, nodes: seq<Node>, id: nat, name: string): Option<Typed>
    requires Backward(nodes) && id < |nodes| && nodes[id].O?
    decreases s, 1
  {
    BackwardAt(nodes, id);
    var e := FindEntry(nodes, nodes[id].entries, id, name);
    if e.Some? then ReadNode(s, nodes, e.value.value) else if s.OptionShape? then Some(NoneOf) else None
  }

  lemma {:induction false} FindsEntry(nodes: seq<Node>, entries: seq<Entry>, bound: nat, name: string)
    requires Backward(nodes) && EntriesBelow(nodes, entries, bound)
    ensures var e, f := FindEntry(nodes, entries, bound, name), FindField(DecodeEntries(nodes, entries, bound), name);
            e.Some? == f.Some? && (e.Some? ==> e.value.value < bound && f.value.value == Decode(nodes, e.value.value))
    decreases |entries|
  {
    hide Backward, Decode;
    var fields := DecodeEntries(nodes, entries, bound);
    if entries != [] {
      assert fields[1..] == DecodeEntries(nodes, entries[1..], bound);
      assert fields[0] == Field(nodes[entries[0].key].s, Decode(nodes, entries[0].value));
      FindsEntry(nodes, entries[1..], bound, name);
    }
  }

  lemma EntryReads(s: Shape, nodes: seq<Node>, id: nat, name: string)
    requires Backward(nodes) && id < |nodes| && nodes[id].O?
    requires forall k: nat :: k < |nodes| ==> ReadNode(s, nodes, k) == Read(s, Decode(nodes, k))
    ensures Decode(nodes, id).Object? && ReadEntry(s, nodes, id, name) == ReadField(s, Decode(nodes, id).fields, name)
  {
    hide Backward, ReadNode, Read;
    BackwardAt(nodes, id);
    FindsEntry(nodes, nodes[id].entries, id, name);
  }

  /** Reading nodes is reading what they stand for. */
  lemma {:induction false} NodesReadAlike(s: Shape, nodes: seq<Node>, id: nat)
    requires Backward(nodes) && id < |nodes|
    ensures ReadNode(s, nodes, id) == Read(s, Decode(nodes, id))
    decreases s, 0
  {
    hide Backward, Decode, FindArm, Read, ReadNode;
    BackwardAt(nodes, id);
    match s
    case OptionShape(of) =>
      NodesReadAlike(of, nodes, id);
      OptionReadsAlike(of, nodes, id);
    case ItemsShape(of) =>
      if nodes[id].A? {
        ListReadsAlike(of, nodes, nodes[id].items, id);
      }
      ArrayReadsAlike(of, nodes, id);
    case MapShape(of) =>
      if nodes[id].O? {
        MapReadsAlike(of, nodes, nodes[id].entries, id);
      }
      ObjectReadsAlike(of, nodes, id);
    case TupleShape(shapes) => TupleReadsAlike(shapes, nodes, id);
    case StructShape(names, shapes) => StructReadsAlike(names, shapes, nodes, id);
    case EnumShape(arms) =>
      if nodes[id].O? && |nodes[id].entries| == 1 {
        var e := nodes[id].entries[0];
        var arm := FindArm(arms, nodes[e.key].s);
        if arm.Some? && arm.value.contents.Some? {
          NodesReadAlike(arm.value.contents.value, nodes, e.value);
        }
      }
      ArmReadsAlike(arms, nodes, id);
    case _ => LeafReadsAlike(s, nodes, id);
  }

  /** Once its items read alike, so does a list. */
  lemma ArrayReadsAlike(of: Shape, nodes: seq<Node>, id: nat)
    requires Backward(nodes) && id < |nodes| && NodeBackward(nodes, nodes[id], id)
    requires nodes[id].A? ==> ReadRefs(of, nodes, nodes[id].items, id) == ReadItems(of, DecodeAll(nodes, nodes[id].items, id))
    ensures ReadNode(ItemsShape(of), nodes, id) == Read(ItemsShape(of), Decode(nodes, id))
  {
    DecodedParts(nodes, id);
    hide Backward, Decode, DecodeAll, DecodeEntries, ReadRefs, ReadItems, ReadEntries, ReadMap, FindArm;
    assert ReadNode(ItemsShape(of), nodes, id) == if nodes[id].A? then ReadRefs(of, nodes, nodes[id].items, id) else None;
    hide ReadNode;
  }

  lemma ObjectReadsAlike(of: Shape, nodes: seq<Node>, id: nat)
    requires Backward(nodes) && id < |nodes| && NodeBackward(nodes, nodes[id], id)
    requires nodes[id].O? ==> ReadEntries(of, nodes, nodes[id].entries, id) == ReadMap(of, DecodeEntries(nodes, nodes[id].entries, id))
    ensures ReadNode(MapShape(of), nodes, id) == Read(MapShape(of), Decode(nodes, id))
  {
    DecodedParts(nodes, id);
    hide Backward, Decode, DecodeAll, DecodeEntries, ReadRefs, ReadItems, ReadEntries, ReadMap, FindArm;
    assert ReadNode(MapShape(of), nodes, id) == if nodes[id].O? then ReadEntries(of, nodes, nodes[id].entries, id) else None;
    hide ReadNode;
  }

  lemma OptionReadsAlike(of: Shape, nodes: seq<Node>, id: nat)
    requires Backward(nodes) && id < |nodes| && ReadNode(of, nodes, id) == Read(of, Decode(nodes, id))
    ensures ReadNode(OptionShape(of), nodes, id) == Read(OptionShape(of), Decode(nodes, id))
  {
    DecodedLeaf(nodes, id);
  }

  lemma LeafReadsAlike(s: Shape, nodes: seq<Node>, id: nat)
    requires Backward(nodes) && id < |nodes|
    requires s.UnitShape? || s.FlagShape? || s.WholeShape? || s.WideShape? || s.RealShape? || s.StrShape?
    ensures ReadNode(s, nodes, id) == Read(s, Decode(nodes, id))
  {
    hide Backward, DecodeAll, DecodeEntries, FindArm;
    BackwardAt(nodes, id);
  }

  lemma ArmReadsAlike(arms: seq<Arm>, nodes: seq<Node>, id: nat)
    requires Backward(nodes) && id < |nodes|
    requires NodeBackward(nodes, nodes[id], id)
    requires nodes[id].O? && |nodes[id].entries| == 1 ==>
               var e := nodes[id].entries[0];
               var arm := FindArm(arms, nodes[e.key].s);
               arm.Some? && arm.value.contents.Some? ==>
                 ReadNode(arm.value.contents.value, nodes, e.value) == Read(arm.value.contents.value, Decode(nodes, e.value))
    ensures ReadNode(EnumShape(arms), nodes, id) == Read(EnumShape(arms), Decode(nodes, id))
  {
    hide Backward, DecodeAll, DecodeEntries, FindArm;
    BackwardAt(nodes, id);
    if nodes[id].O? && |nodes[id].entries| == 1 {
      DecodedLeaf(nodes, nodes[id].entries[0].value);
    }
  }

  lemma DecodedParts(nodes: seq<Node>, id: nat)
    requires Backward(nodes) && id < |nodes|
    ensures NodeBackward(nodes, nodes[id], id)
    ensures Decode(nodes, id).Array? == nodes[id].A? && Decode(nodes, id).Object? == nodes[id].O?
    ensures nodes[id].A? ==> Decode(nodes, id) == Array(DecodeAll(nodes, nodes[id].items, id))
    ensures nodes[id].O? ==> Decode(nodes, id) == Object(DecodeEntries(nodes, nodes[id].entries, id))
  {
    hide Backward, DecodeAll, DecodeEntries;
    BackwardAt(nodes, id);
  }

  lemma DecodedLeaf(nodes: seq<Node>, id: nat)
    requires Backward(nodes) && id < |nodes|
    ensures Decode(nodes, id).Null? <==> nodes[id].N?
  {
  }

  lemma {:induction false} ListReadsAlike(of: Shape, nodes: seq<Node>, items: seq<nat>, bound: nat)
    requires Backward(nodes) && bound <= |nodes| && AllBelow(items, bound)
    ensures ReadRefs(of, nodes, items, bound) == ReadItems(of, DecodeAll(nodes, items, bound))
    decreases of, 1
  {
    hide Backward, Decode, DecodeAll, Read, ReadNode;
    var trees := DecodeAll(nodes, items, bound);
    forall k | 0 <= k < |items| ensures ReadNode(of, nodes, items[k]) == Read(of, trees[k]) {
      NodesReadAlike(of, nodes, items[k]);
    }
    var a, b := ReadRefs(of, nodes, items, bound), ReadItems(of, trees);
    if a.Some? && b.Some? {
      assert a.value.items == b.value.items;
    }
  }

  lemma {:induction false} MapReadsAlike(of: Shape, nodes: seq<Node>, entries: seq<Entry>, bound: nat)
    requires Backward(nodes) && EntriesBelow(nodes, entries, bound)
    ensures ReadEntries(of, nodes, entries, bound) == ReadMap(of, DecodeEntries(nodes, entries, bound))
    decreases of, 1
  {
    hide Backward, Decode, DecodeEntries, Read, ReadNode;
    var fields := DecodeEntries(nodes, entries, bound);
    forall k | 0 <= k < |entries| ensures ReadNode(of, nodes, entries[k].value) == Read(of, fields[k].value) {
      NodesReadAlike(of, nodes, entries[k].value);
    }
    var a, b := ReadEntries(of, nodes, entries, bound), ReadMap(of, fields);
    if a.Some? && b.Some? {
      assert a.value.items == b.value.items && a.value.names == b.value.names;
    }
  }

  lemma {:induction false} ItemsReadAlike(shapes: seq<Shape>, nodes: seq<Node>, items: seq<nat>, bound: nat)
    requires Backward(nodes) && bound <= |nodes| && AllBelow(items, bound) && |shapes| <= |items|
    ensures forall k :: 0 <= k < |shapes| ==> ReadNode(shapes[k], nodes, items[k]) == Read(shapes[k], DecodeAll(nodes, items, bound)[k])
    decreases shapes, 1
  {
    forall k | 0 <= k < |shapes| ensures ReadNode(shapes[k], nodes, items[k]) == Read(shapes[k], DecodeAll(nodes, items, bound)[k]) {
      NodesReadAlike(shapes[k], nodes, items[k]);
    }
  }

  lemma {:induction false} TupleReadsAlike(shapes: seq<Shape>, nodes: seq<Node>, id: nat)
    requires Backward(nodes) && id < |nodes|
    ensures ReadNode(TupleShape(shapes), nodes, id) == Read(TupleShape(shapes), Decode(nodes, id))
    decreases shapes, 2
  {
    hide Backward, Decode, DecodeAll, DecodeEntries;
    DecodedParts(nodes, id);
    BackwardAt(nodes, id);
    if nodes[id].A? && |nodes[id].items| >= |shapes| {
      var trees := DecodeAll(nodes, nodes[id].items, id);
      ItemsReadAlike(shapes, nodes, nodes[id].items, id);
      var a, b := ReadNode(TupleShape(shapes), nodes, id), Read(TupleShape(shapes), Array(trees));
      if a.Some? && b.Some? {
        assert a.value.items == b.value.items;
      }
    }
  }

  lemma {:induction false} StructReadsAlike(names: seq<string>, shapes: seq<Shape>, nodes: seq<Node>, id: nat)
    requires Backward(nodes) && id < |nodes|
    ensures ReadNode(StructShape(names, shapes), nodes, id) == Read(StructShape(names, shapes), Decode(nodes, id))
    decreases shapes, 2
  {
    hide Backward, Decode, DecodeAll, DecodeEntries;
    DecodedParts(nodes, id);
    BackwardAt(nodes, id);
    var s := StructShape(names, shapes);
    if |names| == |shapes| && nodes[id].A? && |nodes[id].items| >= |shapes| {
      var trees := DecodeAll(nodes, nodes[id].items, id);
      ItemsReadAlike(shapes, nodes, nodes[id].items, id);
      var a, b := ReadNode(s, nodes, id), Read(s, Array(trees));
      if a.Some? && b.Some? {
        assert a.value.items == b.value.items;
      }
    } else if |names| == |shapes| && nodes[id].O? {
      forall k | 0 <= k < |shapes| ensures ReadEntry(shapes[k], nodes, id, names[k]) == ReadField(shapes[k], Decode(nodes, id).fields, names[k]) {
        forall j: nat | j < |nodes| ensures ReadNode(shapes[k], nodes, j) == Read(shapes[k], Decode(nodes, j)) {
          NodesReadAlike(shapes[k], nodes, j);
        }
        EntryReads(shapes[k], nodes, id, names[k]);
      }
      var a, b := ReadNode(s, nodes, id), Read(s, Decode(nodes, id));
      if a.Some? && b.Some? {
        assert a.value.items == b.value.items;
      }
    }
  }

  // ----- Round trips at a type -----

  /** `deserialize`: a valid graph, read at its root. */
  method DeserializeAs(s: Shape, g: Graph) returns (r: Option<Typed>)
    ensures r == DeserializedAs(s, g)
  {
    var ok := Validate(g);
    if ok {
      NodesReadAlike(s, g.nodes, g.root);
      r := ReadNode(s, g.nodes, g.root);
    } else {
      r := None;
    }
  }

  ghost function DeserializedAs(s: Shape, g: Graph): Option<Typed> {
    var t := Deserialized(g);
    if t.Some? then Read(s, t.value) else None
  }

  /** A value of any declared type comes back from its graph exactly when the decoder's limits allow
      it, no real in it is infinite or not a number, no optional value in it emits null, and it does
      not hold both zeros. */
  lemma TypedRoundTrip(s: Shape, v: Typed)
    requires Declared(s) && Conforms(s, v) && TreeOf(Emit(v)).Ok? && Encoded(TreeOf(Emit(v)).value).Some?
    ensures var t := TreeOf(Emit(v)).value;
            DeserializedAs(s, Encoded(t).value) == Some(v) <==> WithinLimits(t) && Kept(v) && OneZero(t)
  {
    hide TreeOf, Emit, Read, Encoded, Deserialized, WithinLimits, Kept, OneZero, Declared, Conforms;
    var t := TreeOf(Emit(v)).value;
    RoundTrip(t);
    FirstIsHeld(t);
    AllReadsBack(s, v, FirstZero(t));
    SettledExactly(t);
  }

  /** An optional value that is there and empty comes back as missing, and a real that is not a
      number is refused. */
  lemma NullsAreNotKept()
    ensures var s, v := OptionShape(OptionShape(FlagShape)), SomeOf(NoneOf);
            && Declared(s) && Conforms(s, v) && TreeOf(Emit(v)) == Ok(Null) && Encoded(Null).Some?
            && DeserializedAs(s, Encoded(Null).value) == Some(NoneOf)
    ensures var v := RealOf(None);
            && Conforms(RealShape, v) && TreeOf(Emit(v)) == Ok(Null)
            && DeserializedAs(RealShape, Encoded(Null).value) == None
  {
    hide DeserializedAs, Encoded, Read, TreeOf, Emit, Declared, Conforms;
    EmptyOption();
    NoNumber();
    NullIsRead(OptionShape(OptionShape(FlagShape)));
    NullIsRead(RealShape);
  }

  lemma EmptyOption()
    ensures var s, v := OptionShape(OptionShape(FlagShape)), SomeOf(NoneOf);
            Declared(s) && Conforms(s, v) && TreeOf(Emit(v)) == Ok(Null) && Read(s, Null) == Some(NoneOf)
  {
    assert Emit(SomeOf(NoneOf)) == Emit(NoneOf) == Unit;
  }

  lemma NoNumber()
    ensures Conforms(RealShape, RealOf(None)) && TreeOf(Emit(RealOf(None))) == Ok(Null) && Read(RealShape, Null) == None
  {
  }

  lemma NullIsRead(s: Shape)
    ensures Encoded(Null).Some? && DeserializedAs(s, Encoded(Null).value) == Read(s, Null)
  {
    hide Encoded, Deserialized, Read;
    RoundTrip(Null);
    SettleNothing(Null);
  }
}
