/** The generated classifier: dispatch on the plane, then a search of at most twelve steps. */
module UnicodeClassifier {
  import opened Prelude
  import opened UnicodeTables

  const STEPS := 12

  datatype RangeSearch = RangeSearch(low: Word, high: Word, found: bool)

  ghost predicate Searchable(table: seq<Word>) {
    && 0 < |table| < Pow2(STEPS)
    && Ordered(Unpacked(table), 0, 0x1F_FFFF)
  }

  /** What the search knows: no entry outside the window holds the value. */
  ghost predicate Narrowed(table: seq<Word>, value: Word, state: RangeSearch) {
    && state.low <= state.high && state.high as int <= |table|
    && (state.found ==> Covers(Unpacked(table), value as int))
    && (forall k :: 0 <= k < state.low as int ==> Unpacked(table)[k].high < value as int)
    && (forall k :: state.high as int <= k < |table| ==> Unpacked(table)[k].low > value as int)
  }

  lemma StepsDouble(k: nat)
    requires 0 < k
    ensures Pow2(k) == 2 * Pow2(k - 1)
  {
  }

  lemma LimitWithinSteps()
    ensures TABLE_LIMIT < Pow2(STEPS)
  {
    assert Pow2(6) == 64;
    assert Pow2(12) == 64 * Pow2(6);
  }

  /** Every read is in bounds, no sum overflows, and the steps suffice. */
  method Search(table: seq<Word>, value: Word) returns (found: bool)
    requires Searchable(table)
    ensures found <==> Covers(Unpacked(table), value as int)
  {
    hide Pow2;
    assert Pow2(STEPS) == 4096 by {
      FourThousand();
    }
    var state := RangeSearch(0, |table| as Word, false);
    for step := 0 to STEPS
      invariant Narrowed(table, value, state)
      invariant !state.found ==> (state.high - state.low) as int < Pow2(STEPS - step)
    {
      StepsDouble(STEPS - step);
      var active := state.low < state.high && !state.found;
      var midpoint: Word := if active then (state.low + state.high) / 2 else 0;
      var packed := table[midpoint as int];
      var low, high := UnpackedLow(packed), UnpackedHigh(packed);
      assert Unpacked(table)[midpoint as int] == Range(low as nat, high as nat);
      var updated :=
        if !active then state
        else if value < low then state.(high := midpoint)
        else if value > high then state.(low := midpoint + 1)
        else state.(found := true);
      if active && low <= value <= high {
        assert Holds(Unpacked(table)[midpoint as int], value as int);
      }
      state := updated;
    }
    found := state.found;
    assert Pow2(0) == 1 by {
      NoSteps();
    }
  }

  lemma FourThousand()
    ensures Pow2(STEPS) == 4096
  {
    assert Pow2(6) == 64;
    assert Pow2(12) == 64 * Pow2(6);
  }

  lemma NoSteps()
    ensures Pow2(0) == 1
  {
  }

  ghost predicate Generated(tables: seq<Table>, property: int -> bool) {
    TablesFor(tables, Runs(property, LAST + 1), PLANES)
  }

  lemma TableIsSearchable(tables: seq<Table>, property: int -> bool, plane: nat)
    requires Generated(tables, property) && plane < PLANES
    ensures |TableOf(tables, plane)| <= TABLE_LIMIT
    ensures TableOf(tables, plane) != [] ==> Searchable(TableOf(tables, plane))
    ensures forall value :: PlaneStart(plane) <= value <= PlaneEnd(plane) ==>
      (Covers(Unpacked(TableOf(tables, plane)), value) <==> FIRST <= value <= LAST && Included(property, value))
  {
    hide Runs, Included, Clipped, Pow2;
    RunsAreExact(property, LAST + 1);
    ClippingOrders(Runs(property, LAST + 1), plane, FIRST, LAST);
    ClippingIsExact(Runs(property, LAST + 1), plane, FIRST, LAST);
    LimitWithinSteps();
    TableIsShort(tables, plane);
    TableRange(TableOf(tables, plane), plane);
  }

  lemma {:induction false} TableIsShort(tables: seq<Table>, plane: nat)
    requires forall k :: 0 <= k < |tables| ==> |tables[k].packed| <= TABLE_LIMIT
    ensures |TableOf(tables, plane)| <= TABLE_LIMIT
  {
    if tables != [] {
      TableIsShort(tables[..|tables| - 1], plane);
    }
  }

  lemma TableRange(table: seq<Word>, plane: nat)
    requires plane < PLANES && Ordered(Unpacked(table), PlaneStart(plane), PlaneEnd(plane))
    ensures Ordered(Unpacked(table), 0, 0x1F_FFFF) && |Unpacked(table)| == |table|
  {
  }

  /** The generated classifier is the property, on every 64-bit value: true exactly of the scalar values
      above ASCII that have it. */
  method Classify(tables: seq<Table>, ghost property: int -> bool, value: Word) returns (r: bool)
    requires Generated(tables, property)
    ensures r <==> FIRST <= value as int <= LAST && Included(property, value as int)
    ensures r <==> 128 <= value as int <= 0x10FFFF && !(0xD800 <= value as int <= 0xDFFF) && property(value as int)
  {
    IncludedMeans(property, value as int);
    hide Generated, Included, TablesFor, Searchable, Covers;
    if value < 128 || value > 1114111 {
      return false;
    }
    var plane := (value / 65536) as nat;
    TableIsSearchable(tables, property, plane);
    var table := TableOf(tables, plane);
    if table == [] {
      NothingCovered(value as int);
      return false;
    }
    r := Search(table, value);
  }

  /** Scalar values are code points but for the surrogates. */
  lemma IncludedMeans(property: int -> bool, value: int)
    ensures FIRST <= value <= LAST && Included(property, value) <==> 128 <= value <= 0x10FFFF && !(0xD800 <= value <= 0xDFFF) && property(value)
  {
  }

  lemma NothingCovered(value: int)
    ensures !Covers(Unpacked([]), value)
  {
  }

  /** Generation and classification together. */
  method Classifier(property: int -> bool, value: Word) returns (r: Result<bool, nat>)
    ensures r.Ok? <==> Fits(property)
    ensures r.Ok? ==> (r.value <==> 128 <= value as int <= 0x10FFFF && !(0xD800 <= value as int <= 0xDFFF) && property(value as int))
  {
    hide Fits, TablesFor, Included;
    var tables := EmitProperty(property);
    if tables.Err? {
      return Err(tables.error);
    }
    var found := Classify(tables.value, property, value);
    return Ok(found);
  }
}
