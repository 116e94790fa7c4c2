/** What a value emits when it is serialized, and the tree that stands for it. Optional values and
    newtype structs emit what they hold; a struct is a map whose keys are its field names, and every
    variant with contents is one key over them. */
module CodecEmission {
  import opened Prelude
  import opened CodecTrees

  /** `Wide` integers have 128 bits. A `Real` without a value is infinite or not a number, and the
      negative zero is apart from the numbers. */
  datatype Emitted =
    | Unit
    | Flag(b: bool)
    | Whole(n: int)
    | Wide(n: int)
    | Real(finite: Option<real>)
    | NegativeZero
    | Str(s: string)
    | Items(items: seq<Emitted>)
    | Mapping(pairs: seq<Pair>)
    | Variant(name: string, value: Emitted)

  datatype Pair = Pair(key: Emitted, value: Emitted)

  datatype EmitError = OutsideRange | KeyNotString

  /** What a JSON number can be: a signed or an unsigned 64-bit integer. */
  predicate InRange(n: int) {
    -0x8000_0000_0000_0000 <= n < 0x1_0000_0000_0000_0000
  }

  /** The tree of a value, or the first error in emission order. */
  function TreeOf(e: Emitted): Result<Tree, EmitError>
    decreases e, 1
  {
    match e
    case Unit => Ok(Null)
    case Flag(b) => Ok(Boolean(b))
    case Whole(n) => Ok(Number(Integer(n)))
    case Wide(n) => if InRange(n) then Ok(Number(Integer(n))) else Err(OutsideRange)
    case Real(finite) => Ok(if finite.Some? then Number(Float(finite.value)) else Null)
    case NegativeZero => Ok(Number(MinusZero))
    case Str(s) => Ok(Text(s))
    case Items(items) =>
      (match TreesOf(items)
       case Err(x) => Err(x)
       case Ok(trees) => Ok(Array(trees)))
    case Mapping(pairs) =>
      (match FieldsOf(pairs)
       case Err(x) => Err(x)
       case Ok(fields) => Ok(Object(fields)))
    case Variant(name, value) =>
      (match TreeOf(value)
       case Err(x) => Err(x)
       case Ok(t) => Ok(Object([Field(name, t)])))
  }

  function TreesOf(items: seq<Emitted>): Result<seq<Tree>, EmitError>
    decreases items, 0
  {
    if items == [] then Ok([])
    else
      match TreesOf(items[..|items| - 1])
      case Err(x) => Err(x)
      case Ok(trees) =>
        match TreeOf(items[|items| - 1])
        case Err(x) => Err(x)
        case Ok(t) => Ok(trees + [t])
  }

  function FieldsOf(pairs: seq<Pair>): Result<seq<Field>, EmitError>
    decreases pairs, 0
  {
    if pairs == [] then Ok([])
    else
      match FieldsOf(pairs[..|pairs| - 1])
      case Err(x) => Err(x)
      case Ok(fields) =>
        match FieldOf(pairs[|pairs| - 1])
        case Err(x) => Err(x)
        case Ok(f) => Ok(fields + [f])
  }

  function FieldOf(p: Pair): Result<Field, EmitError>
    decreases p, 2
  {
    match TreeOf(p.key)
    case Err(x) => Err(x)
    case Ok(key) =>
      if !key.Text? then Err(KeyNotString)
      else
        match TreeOf(p.value)
        case Err(x) => Err(x)
        case Ok(t) => Ok(Field(key.s, t))
  }

  lemma TreesNext(items: seq<Emitted>, e: Emitted)
    requires TreesOf(items).Ok? && TreeOf(e).Ok?
    ensures TreesOf(items + [e]) == Ok(TreesOf(items).value + [TreeOf(e).value])
  {
    var more := items + [e];
    assert more[..|more| - 1] == items;
  }

  lemma FieldsNext(pairs: seq<Pair>, p: Pair)
    requires FieldsOf(pairs).Ok? && FieldOf(p).Ok?
    ensures FieldsOf(pairs + [p]) == Ok(FieldsOf(pairs).value + [FieldOf(p).value])
  {
    var more := pairs + [p];
    assert more[..|more| - 1] == pairs;
  }

  /** The error of a prefix is the error of the whole. */
  lemma {:induction false} TreesStop(items: seq<Emitted>, k: nat)
    requires k <= |items| && TreesOf(items[..k]).Err?
    ensures TreesOf(items) == TreesOf(items[..k])
    decreases |items|
  {
    if k == |items| {
      assert items[..k] == items;
    } else {
      assert items[..|items| - 1][..k] == items[..k];
      TreesStop(items[..|items| - 1], k);
    }
  }

  lemma {:induction false} FieldsStop(pairs: seq<Pair>, k: nat)
    requires k <= |pairs| && FieldsOf(pairs[..k]).Err?
    ensures FieldsOf(pairs) == FieldsOf(pairs[..k])
    decreases |pairs|
  {
    if k == |pairs| {
      assert pairs[..k] == pairs;
    } else {
      assert pairs[..|pairs| - 1][..k] == pairs[..k];
      FieldsStop(pairs[..|pairs| - 1], k);
    }
  }

  // ----- What is refused -----

  /** Every wide integer is one that JSON can hold, and every key is a string. */
  ghost predicate Emittable(e: Emitted) {
    match e
    case Wide(n) => -9_223_372_036_854_775_808 <= n <= 18_446_744_073_709_551_615
    case Items(items) => forall x :: x in items ==> Emittable(x)
    case Mapping(pairs) => forall p :: p in pairs ==> p.key.Str? && Emittable(p.value)
    case Variant(_, value) => Emittable(value)
    case _ => true
  }

  lemma {:induction false} TreesExist(items: seq<Emitted>)
    ensures TreesOf(items).Ok? <==> forall x :: x in items ==> TreeOf(x).Ok?
    decreases |items|
  {
    if items != [] {
      var before, last := items[..|items| - 1], items[|items| - 1];
      TreesExist(before);
      assert forall x :: x in items <==> x in before || x == last by {
        assert items == before + [last];
      }
      assert last in items;
    }
  }

  lemma {:induction false} FieldsExist(pairs: seq<Pair>)
    ensures FieldsOf(pairs).Ok? <==> forall p :: p in pairs ==> FieldOf(p).Ok?
    decreases |pairs|
  {
    if pairs != [] {
      var before, last := pairs[..|pairs| - 1], pairs[|pairs| - 1];
      FieldsExist(before);
      assert forall p :: p in pairs <==> p in before || p == last by {
        assert pairs == before + [last];
      }
      assert last in pairs;
    }
  }

  /** Serialization refuses exactly integers outside of the range and keys that are not strings. */
  lemma {:induction false} EmitsExactly(e: Emitted)
    ensures TreeOf(e).Ok? <==> Emittable(e)
    decreases e
  {
    match e
    case Items(items) =>
      TreesExist(items);
      forall x | x in items ensures TreeOf(x).Ok? <==> Emittable(x) {
        EmitsExactly(x);
      }
    case Mapping(pairs) =>
      FieldsExist(pairs);
      forall p | p in pairs ensures FieldOf(p).Ok? <==> p.key.Str? && Emittable(p.value) {
        EmitsExactly(p.value);
      }
    case Variant(_, value) => EmitsExactly(value);
    case _ =>
  }

  /** The errors of a value in emission order, as if none of them stopped it. */
  ghost function Errors(e: Emitted): seq<EmitError>
    decreases e, 1
  {
    match e
    case Wide(n) => if -9_223_372_036_854_775_808 <= n <= 18_446_744_073_709_551_615 then [] else [OutsideRange]
    case Items(items) => ErrorsOfAll(items)
    case Mapping(pairs) => ErrorsOfPairs(pairs)
    case Variant(_, value) => Errors(value)
    case _ => []
  }

  ghost function ErrorsOfAll(items: seq<Emitted>): seq<EmitError>
    decreases items, 0
  {
    if items == [] then [] else ErrorsOfAll(items[..|items| - 1]) + Errors(items[|items| - 1])
  }

  ghost function ErrorsOfPairs(pairs: seq<Pair>): seq<EmitError>
    decreases pairs, 0
  {
    if pairs == [] then []
    else ErrorsOfPairs(pairs[..|pairs| - 1]) + ErrorsOfPair(pairs[|pairs| - 1])
  }

  ghost function ErrorsOfPair(p: Pair): seq<EmitError>
    decreases p, 2
  {
    Errors(p.key) + (if p.key.Str? then [] else [KeyNotString]) + Errors(p.value)
  }

  ghost predicate StopsAtFirst<T>(r: Result<T, EmitError>, errors: seq<EmitError>) {
    if errors == [] then r.Ok? else r == Err(errors[0])
  }

  /** Serialization stops at the first error. */
  lemma {:induction false} FirstErrorStops(e: Emitted)
    ensures StopsAtFirst(TreeOf(e), Errors(e))
    decreases e, 1
  {
    match e
    case Items(items) => FirstErrorOfAll(items);
    case Mapping(pairs) => FirstErrorOfPairs(pairs);
    case Variant(_, value) => FirstErrorStops(value);
    case _ =>
  }

  lemma {:induction false} FirstErrorOfAll(items: seq<Emitted>)
    ensures StopsAtFirst(TreesOf(items), ErrorsOfAll(items))
    decreases items, 0
  {
    if items != [] {
      FirstErrorOfAll(items[..|items| - 1]);
      FirstErrorStops(items[|items| - 1]);
    }
  }

  lemma {:induction false} FirstErrorOfPairs(pairs: seq<Pair>)
    ensures StopsAtFirst(FieldsOf(pairs), ErrorsOfPairs(pairs))
    decreases pairs, 0
  {
    if pairs != [] {
      FirstErrorOfPairs(pairs[..|pairs| - 1]);
      FirstErrorOfPair(pairs[|pairs| - 1]);
    }
  }

  lemma {:induction false} FirstErrorOfPair(p: Pair)
    ensures StopsAtFirst(FieldOf(p), ErrorsOfPair(p))
    decreases p, 2
  {
    FirstErrorStops(p.key);
    FirstErrorStops(p.value);
    assert TreeOf(p.key).Ok? ==> (TreeOf(p.key).value.Text? <==> p.key.Str?);
  }

  // ----- Every tree is emitted by some value -----

  function Emits(t: Tree): Emitted
    decreases t, 1
  {
    match t
    case Null => Unit
    case Boolean(b) => Flag(b)
    case Number(Integer(n)) => Whole(n)
    case Number(Float(value)) => Real(Some(value))
    case Number(MinusZero) => NegativeZero
    case Text(s) => Str(s)
    case Array(items) => Items(EmitsAll(items))
    case Object(fields) => Mapping(EmitsFields(fields))
  }

  function EmitsAll(items: seq<Tree>): (r: seq<Emitted>)
    ensures |r| == |items|
    decreases items, 0
  {
    if items == [] then [] else EmitsAll(items[..|items| - 1]) + [Emits(items[|items| - 1])]
  }

  function EmitsFields(fields: seq<Field>): (r: seq<Pair>)
    ensures |r| == |fields|
    decreases fields, 0
  {
    if fields == [] then []
    else EmitsFields(fields[..|fields| - 1]) + [Pair(Str(fields[|fields| - 1].key), Emits(fields[|fields| - 1].value))]
  }

  /** So whatever is proved of trees is about emitted values, and of all trees. */
  lemma {:induction false} EveryTreeIsEmitted(t: Tree)
    ensures TreeOf(Emits(t)) == Ok(t)
    decreases t, 1
  {
    match t
    case Array(items) => AllAreEmitted(items);
    case Object(fields) => FieldsAreEmitted(fields);
    case _ =>
  }

  lemma {:induction false} AllAreEmitted(items: seq<Tree>)
    ensures TreesOf(EmitsAll(items)) == Ok(items)
    decreases items, 0
  {
    if items != [] {
      var before, last := items[..|items| - 1], items[|items| - 1];
      AllAreEmitted(before);
      EveryTreeIsEmitted(last);
      assert EmitsAll(items) == EmitsAll(before) + [Emits(last)];
      hide TreeOf, TreesOf, Emits, EmitsAll;
      TreesNext(EmitsAll(before), Emits(last));
      assert before + [last] == items;
    }
  }

  lemma {:induction false} FieldsAreEmitted(fields: seq<Field>)
    ensures FieldsOf(EmitsFields(fields)) == Ok(fields)
    decreases fields, 0
  {
    if fields != [] {
      var before, last := fields[..|fields| - 1], fields[|fields| - 1];
      FieldsAreEmitted(before);
      EveryTreeIsEmitted(last.value);
      var pair := Pair(Str(last.key), Emits(last.value));
      assert FieldOf(pair) == Ok(last);
      assert EmitsFields(fields) == EmitsFields(before) + [pair];
      hide FieldOf, FieldsOf, Emits, EmitsFields;
      FieldsNext(EmitsFields(before), pair);
      assert before + [last] == fields;
    }
  }
}
