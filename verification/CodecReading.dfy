/** What reading a value at a type means, told by relating the two: which typed values a decoded value
    can be read as at a shape. There is at most one, and reading finds it. */
module CodecReading {
  import opened Prelude
  import opened CodecTrees
  import opened CodecTyped

  /** The first arm of that name. */
  ghost predicate ArmAt(arms: seq<Arm>, name: string, k: nat) {
    k < |arms| && arms[k].name == name && forall j :: 0 <= j < k ==> arms[j].name != name
  }

  /** The first field of that name. */
  ghost predicate FieldAt(fields: seq<Field>, name: string, k: nat) {
    k < |fields| && fields[k].key == name && forall j :: 0 <= j < k ==> fields[j].key != name
  }

  ghost predicate DenoteAll(shapes: seq<Shape>, trees: seq<Tree>, items: seq<Typed>)
    decreases shapes, 0
  {
    |shapes| == |items| <= |trees| && forall k :: 0 <= k < |shapes| ==> Denotes(shapes[k], trees[k], items[k])
  }

  /** A struct's field is that of its name; one that is not there can only be a missing option. */
  ghost predicate DenotesField(s: Shape, fields: seq<Field>, name: string, v: Typed)
    decreases s, 1
  {
    || (exists k: nat :: FieldAt(fields, name, k) && Denotes(s, fields[k].value, v))
    || ((forall k :: 0 <= k < |fields| ==> fields[k].key != name) && s.OptionShape? && v == NoneOf)
  }

  ghost predicate DenotesArm(arms: seq<Arm>, t: Tree, v: Typed)
    decreases arms, 0
  {
    && v.ArmOf?
    && exists k: nat :: ArmAt(arms, v.name, k)
         && match arms[k].contents
            case None => v.contents == None && (t == Text(v.name) || t == Object([Field(v.name, Null)]))
            case Some(s) => v.contents.Some? && t.Object? && |t.fields| == 1 && t.fields[0].key == v.name && Denotes(s, t.fields[0].value, v.contents.value)
  }

  ghost predicate Denotes(s: Shape, t: Tree, v: Typed)
    decreases s, 0
  {
    match s
    case UnitShape => t == Null && v == UnitOf
    case FlagShape => t.Boolean? && v == FlagOf(t.b)
    case WholeShape(low, high) => v.WholeOf? && low <= v.n <= high && t == Number(Integer(v.n))
    case WideShape(low, high) => v.WideOf? && low <= v.n <= high && t == Number(Integer(v.n))
    case RealShape =>
      && v.RealOf? && v.finite.Some? && t.Number?
      && v.finite.value == if t.n.Integer? then Float(t.n.n as real) else t.n
    case StrShape => t.Text? && v == StrOf(t.s)
    case OptionShape(of) => if t.Null? then v == NoneOf else v.SomeOf? && Denotes(of, t, v.value)
    case ItemsShape(of) =>
      && t.Array? && v.ItemsOf? && |v.items| == |t.items|
      && forall k :: 0 <= k < |t.items| ==> Denotes(of, t.items[k], v.items[k])
    case MapShape(of) =>
      && t.Object? && v.NamedOf? && |v.names| == |v.items| == |t.fields|
      && forall k :: 0 <= k < |t.fields| ==> v.names[k] == t.fields[k].key && Denotes(of, t.fields[k].value, v.items[k])
    case TupleShape(shapes) => t.Array? && v.ItemsOf? && DenoteAll(shapes, t.items, v.items)
    case StructShape(names, shapes) =>
      && v.NamedOf? && v.names == names && |names| == |shapes| == |v.items|
      && (|| (t.Array? && DenoteAll(shapes, t.items, v.items))
          || (t.Object? && forall k :: 0 <= k < |shapes| ==> DenotesField(shapes[k], t.fields, names[k], v.items[k])))
    case EnumShape(arms) => DenotesArm(arms, t, v)
  }

  lemma {:induction false} FindArmMeans(arms: seq<Arm>, name: string) returns (k: nat)
    ensures FindArm(arms, name).None? ==> forall j :: !ArmAt(arms, name, j)
    ensures FindArm(arms, name).Some? ==> ArmAt(arms, name, k) && arms[k] == FindArm(arms, name).value && forall j :: ArmAt(arms, name, j) ==> j == k
    decreases |arms|
  {
    k := 0;
    if arms != [] && arms[0].name != name {
      var rest := arms[1..];
      assert forall j :: 0 <= j < |rest| ==> rest[j] == arms[j + 1];
      var before := FindArmMeans(rest, name);
      k := before + 1;
      forall j: nat | ArmAt(arms, name, j) ensures ArmAt(rest, name, j - 1) {
        assert j != 0;
      }
    }
  }

  lemma {:induction false} FindFieldMeans(fields: seq<Field>, name: string) returns (k: nat)
    ensures FindField(fields, name).None? ==> forall j :: 0 <= j < |fields| ==> fields[j].key != name
    ensures FindField(fields, name).Some? ==>
              FieldAt(fields, name, k) && fields[k] == FindField(fields, name).value && forall j :: FieldAt(fields, name, j) ==> j == k
    decreases |fields|
  {
    k := 0;
    if fields != [] && fields[0].key != name {
      var rest := fields[1..];
      assert forall j :: 0 <= j < |rest| ==> rest[j] == fields[j + 1];
      var before := FindFieldMeans(rest, name);
      k := before + 1;
      forall j: nat | FieldAt(fields, name, j) ensures FieldAt(rest, name, j - 1) {
        assert j != 0;
      }
      if FindField(fields, name).None? {
        forall j | 0 <= j < |fields| ensures fields[j].key != name {
          assert j > 0 ==> rest[j - 1].key != name;
        }
      }
    }
  }

  ghost predicate ReadsAs(s: Shape, t: Tree, v: Typed) {
    Read(s, t) == Some(v) <==> Denotes(s, t, v)
  }

  /** Reading a value at a shape gives exactly what it denotes there. */
  lemma {:induction false} ReadMeans(s: Shape, t: Tree, v: Typed)
    ensures ReadsAs(s, t, v)
    decreases s, 0
  {
    match s
    case OptionShape(of) => OptionMeans(of, t, v);
    case ItemsShape(of) => ItemsMean(of, t, v);
    case MapShape(of) => MapMeans(of, t, v);
    case TupleShape(shapes) => TupleMeans(shapes, t, v);
    case StructShape(names, shapes) => StructMeans(names, shapes, t, v);
    case EnumShape(arms) => EnumMeans(arms, t, v);
    case _ =>
  }

  lemma {:induction false} OptionMeans(of: Shape, t: Tree, v: Typed)
    ensures ReadsAs(OptionShape(of), t, v)
    decreases of, 1
  {
    if v.SomeOf? {
      ReadMeans(of, t, v.value);
    }
  }

  lemma {:induction false} ItemsMean(of: Shape, t: Tree, v: Typed)
    ensures ReadsAs(ItemsShape(of), t, v)
    decreases of, 1
  {
    if t.Array? {
      ListIs(of, t.items);
    }
    if t.Array? && v.ItemsOf? && |v.items| == |t.items| {
      forall k | 0 <= k < |t.items| ensures ReadsAs(of, t.items[k], v.items[k]) {
        ReadMeans(of, t.items[k], v.items[k]);
      }
      var r := ReadItems(of, t.items);
      assert r.Some? ==> (r.value.items == v.items <==> forall k :: 0 <= k < |v.items| ==> r.value.items[k] == v.items[k]);
    }
  }

  lemma {:induction false} MapMeans(of: Shape, t: Tree, v: Typed)
    ensures ReadsAs(MapShape(of), t, v)
    decreases of, 1
  {
    if t.Object? && v.NamedOf? && |v.items| == |t.fields| == |v.names| {
      forall k | 0 <= k < |t.fields| ensures ReadsAs(of, t.fields[k].value, v.items[k]) {
        ReadMeans(of, t.fields[k].value, v.items[k]);
      }
      MapIs(of, t.fields);
      var r := ReadMap(of, t.fields);
      assert r.Some? ==> (r.value.items == v.items <==> forall k :: 0 <= k < |v.items| ==> r.value.items[k] == v.items[k]);
      assert r.Some? ==> (r.value.names == v.names <==> forall k :: 0 <= k < |v.names| ==> r.value.names[k] == v.names[k]);
    }
  }

  lemma {:induction false} AllMean(shapes: seq<Shape>, trees: seq<Tree>, items: seq<Typed>)
    requires |shapes| == |items| <= |trees|
    ensures forall k :: 0 <= k < |shapes| ==> ReadsAs(shapes[k], trees[k], items[k])
    decreases shapes, 0
  {
    forall k | 0 <= k < |shapes| ensures ReadsAs(shapes[k], trees[k], items[k]) {
      ReadMeans(shapes[k], trees[k], items[k]);
    }
  }

  lemma {:induction false} TupleMeans(shapes: seq<Shape>, t: Tree, v: Typed)
    ensures ReadsAs(TupleShape(shapes), t, v)
    decreases shapes, 1
  {
    if t.Array? && v.ItemsOf? && |v.items| == |shapes| <= |t.items| {
      AllMean(shapes, t.items, v.items);
      var r := Read(TupleShape(shapes), t);
      assert r.Some? ==> (r.value.items == v.items <==> forall k :: 0 <= k < |v.items| ==> r.value.items[k] == v.items[k]);
    }
  }

  lemma {:induction false} FieldMeans(s: Shape, fields: seq<Field>, name: string, v: Typed)
    ensures ReadField(s, fields, name) == Some(v) <==> DenotesField(s, fields, name, v)
    decreases s, 1
  {
    hide FindField, Read, Denotes;
    var k := FindFieldMeans(fields, name);
    if FindField(fields, name).Some? {
      ReadMeans(s, fields[k].value, v);
    }
  }

  lemma {:induction false} StructMeans(names: seq<string>, shapes: seq<Shape>, t: Tree, v: Typed)
    ensures ReadsAs(StructShape(names, shapes), t, v)
    decreases shapes, 1
  {
    if v.NamedOf? && v.names == names && |names| == |shapes| == |v.items| {
      var r := Read(StructShape(names, shapes), t);
      assert r.Some? ==> (r.value.items == v.items <==> forall k :: 0 <= k < |v.items| ==> r.value.items[k] == v.items[k]);
      if t.Array? && |shapes| <= |t.items| {
        AllMean(shapes, t.items, v.items);
      } else if t.Object? {
        forall k | 0 <= k < |shapes|
          ensures ReadField(shapes[k], t.fields, names[k]) == Some(v.items[k]) <==> DenotesField(shapes[k], t.fields, names[k], v.items[k])
        {
          FieldMeans(shapes[k], t.fields, names[k], v.items[k]);
        }
      }
    }
  }

  /** What a value denotes as one arm. */
  ghost predicate DenotesAt(arm: Arm, t: Tree, v: Typed) {
    match arm.contents
    case None => v == ArmOf(arm.name, None) && (t == Text(arm.name) || t == Object([Field(arm.name, Null)]))
    case Some(s) =>
      && v.ArmOf? && v.name == arm.name && v.contents.Some?
      && t.Object? && |t.fields| == 1 && t.fields[0].key == arm.name && Denotes(s, t.fields[0].value, v.contents.value)
  }

  lemma ReadsArm(arms: seq<Arm>, t: Tree, v: Typed)
    requires v.ArmOf? && FindArm(arms, v.name).Some?
    requires var arm := FindArm(arms, v.name).value;
             arm.contents.Some? && v.contents.Some? && t.Object? && |t.fields| == 1 ==>
               ReadsAs(arm.contents.value, t.fields[0].value, v.contents.value)
    ensures Read(EnumShape(arms), t) == Some(v) <==> DenotesAt(FindArm(arms, v.name).value, t, v)
  {
    hide FindArm, Denotes;
    if t.Object? && |t.fields| == 1 {
      assert t.fields == [t.fields[0]] && t.fields[0] == Field(t.fields[0].key, t.fields[0].value);
      var arm := FindArm(arms, v.name).value;
      assert t == Object([Field(arm.name, Null)]) <==> t.fields[0].key == arm.name && t.fields[0].value == Null;
    }
  }

  lemma ReadsNoArm(arms: seq<Arm>, t: Tree, v: Typed)
    requires v.ArmOf? ==> FindArm(arms, v.name).None?
    ensures Read(EnumShape(arms), t) != Some(v)
  {
    hide FindArm;
  }

  lemma {:induction false} EnumMeans(arms: seq<Arm>, t: Tree, v: Typed)
    ensures ReadsAs(EnumShape(arms), t, v)
    decreases arms, 1
  {
    hide FindArm, Read;
    assert Denotes(EnumShape(arms), t, v) <==> DenotesArm(arms, t, v);
    if v.ArmOf? {
      var k := FindArmMeans(arms, v.name);
      if FindArm(arms, v.name).None? {
        ReadsNoArm(arms, t, v);
        assert !DenotesArm(arms, t, v);
      } else {
        if t.Object? && |t.fields| == 1 && arms[k].contents.Some? && v.contents.Some? {
          ReadMeans(arms[k].contents.value, t.fields[0].value, v.contents.value);
        }
        ReadsArm(arms, t, v);
        assert DenotesArm(arms, t, v) <==> DenotesAt(arms[k], t, v);
      }
    } else {
      ReadsNoArm(arms, t, v);
      assert !DenotesArm(arms, t, v);
    }
  }
}
