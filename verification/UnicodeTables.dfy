/** From a property of Unicode scalar values to the packed tables of its classifier. */
module UnicodeTables {
  import opened Prelude

  const FIRST := 128
  const LAST := 0x10FFFF
  const PLANES := 17
  const PLANE_SIZE := 65536
  const TABLE_LIMIT := 1024
  const SHIFT := 21

  newtype Word = x: int | 0 <= x < 0x1_0000_0000_0000_0000

  /** Section 3.9 of the Unicode Standard, definition D76: a code point that is no surrogate. */
  predicate IsScalar(value: int) {
    0 <= value <= LAST && !(0xD800 <= value <= 0xDFFF)
  }

  predicate Included(property: int -> bool, value: int) {
    IsScalar(value) && property(value)
  }

  datatype Range = Range(low: nat, high: nat)

  predicate Holds(r: Range, value: int) {
    r.low <= value <= r.high
  }

  ghost predicate Covers(ranges: seq<Range>, value: int) {
    exists k :: 0 <= k < |ranges| && Holds(ranges[k], value)
  }

  /** One more included value: it continues the last run, or starts one. */
  function Extended(runs: seq<Range>, value: nat): seq<Range> {
    if runs != [] && runs[|runs| - 1].high == value - 1 then runs[..|runs| - 1] + [runs[|runs| - 1].(high := value)]
    else runs + [Range(value, value)]
  }

  /** The maximal runs of included values from 128 up to, but not including, `end`. */
  ghost function Runs(property: int -> bool, end: nat): seq<Range> {
    if end <= FIRST then []
    else
      var before := Runs(property, end - 1);
      if Included(property, end - 1) then Extended(before, end - 1) else before
  }

  ghost predicate Ordered(ranges: seq<Range>, low: int, high: int) {
    && (forall k :: 0 <= k < |ranges| ==> low <= ranges[k].low <= ranges[k].high <= high)
    && (forall j, k :: 0 <= j < k < |ranges| ==> ranges[j].high < ranges[k].low)
  }

  /** No run touches the next one. */
  ghost predicate Apart(ranges: seq<Range>) {
    forall j, k :: 0 <= j < k < |ranges| ==> ranges[j].high + 1 < ranges[k].low
  }

  lemma CoversOne(r: Range, value: int)
    ensures Covers([r], value) <==> Holds(r, value)
  {
    assert [r][0] == r;
  }

  lemma CoversAppend(a: seq<Range>, b: seq<Range>, value: int)
    ensures Covers(a + b, value) <==> Covers(a, value) || Covers(b, value)
  {
    if Covers(a, value) {
      var k :| 0 <= k < |a| && Holds(a[k], value);
      assert Holds((a + b)[k], value);
    }
    if Covers(b, value) {
      var k :| 0 <= k < |b| && Holds(b[k], value);
      assert Holds((a + b)[|a| + k], value);
    }
  }

  lemma CoversLast(a: seq<Range>, r: Range, value: int)
    ensures Covers(a + [r], value) <==> Covers(a, value) || Holds(r, value)
  {
    hide Covers;
    CoversOne(r, value);
    CoversAppend(a, [r], value);
  }

  lemma ExtendedCovers(runs: seq<Range>, v: nat, value: int)
    requires Ordered(runs, FIRST, v - 1)
    ensures Covers(Extended(runs, v), value) <==> Covers(runs, value) || value == v
  {
    hide Covers;
    if runs != [] && runs[|runs| - 1].high == v - 1 {
      var init, last := runs[..|runs| - 1], runs[|runs| - 1];
      assert runs == init + [last];
      CoversLast(init, last, value);
      CoversLast(init, last.(high := v), value);
    } else {
      CoversLast(runs, Range(v, v), value);
    }
  }

  lemma ExtendedOrdered(runs: seq<Range>, v: nat)
    requires FIRST <= v && Ordered(runs, FIRST, v - 1) && Apart(runs)
    ensures Ordered(Extended(runs, v), FIRST, v) && Apart(Extended(runs, v))
    ensures Extended(runs, v) != [] && Extended(runs, v)[|Extended(runs, v)| - 1].high == v
  {
    var r, n := Extended(runs, v), |runs|;
    if runs != [] && runs[n - 1].high == v - 1 {
      assert |r| == n && r[n - 1] == Range(runs[n - 1].low, v);
      assert forall k :: 0 <= k < n - 1 ==> r[k] == runs[k];
    } else {
      assert |r| == n + 1 && r[n] == Range(v, v);
      assert forall k :: 0 <= k < n ==> r[k] == runs[k];
      RunsEndBelow(runs, v);
    }
  }

  lemma RunsEndBelow(runs: seq<Range>, v: nat)
    requires Ordered(runs, FIRST, v - 1) && (runs == [] || runs[|runs| - 1].high != v - 1)
    ensures forall k :: 0 <= k < |runs| ==> runs[k].high + 1 < v
  {
  }

  lemma Widen(runs: seq<Range>, high: int)
    requires Ordered(runs, FIRST, high)
    ensures Ordered(runs, FIRST, high + 1)
    ensures runs != [] ==> runs[|runs| - 1].high <= high
  {
  }

  ghost predicate Exact(property: int -> bool, runs: seq<Range>, end: int) {
    forall value :: Covers(runs, value) <==> FIRST <= value < end && Included(property, value)
  }

  lemma ExactExtended(property: int -> bool, runs: seq<Range>, end: nat)
    requires FIRST < end && Exact(property, runs, end - 1) && Ordered(runs, FIRST, end - 2) && Included(property, end - 1)
    ensures Exact(property, Extended(runs, end - 1), end)
  {
    hide Included, Covers, Extended;
    forall value ensures Covers(Extended(runs, end - 1), value) <==> FIRST <= value < end && Included(property, value) {
      ExtendedCovers(runs, end - 1, value);
      assert Covers(runs, value) <==> FIRST <= value < end - 1 && Included(property, value);
    }
  }

  lemma ExactSkipped(property: int -> bool, runs: seq<Range>, end: nat)
    requires FIRST < end && Exact(property, runs, end - 1) && !Included(property, end - 1)
    ensures Exact(property, runs, end)
  {
    hide Included, Covers;
    forall value ensures Covers(runs, value) <==> FIRST <= value < end && Included(property, value) {
      assert Covers(runs, value) <==> FIRST <= value < end - 1 && Included(property, value);
    }
  }

  lemma RunsNext(property: int -> bool, end: nat)
    requires FIRST < end
    ensures Runs(property, end) ==
            if Included(property, end - 1) then Extended(Runs(property, end - 1), end - 1) else Runs(property, end - 1)
  {
  }

  lemma NoRuns(property: int -> bool, end: nat)
    requires end <= FIRST
    ensures Runs(property, end) == [] && Exact(property, [], end) && Ordered([], FIRST, end - 1) && Apart([])
  {
  }

  lemma {:induction false} RunsAreExact(property: int -> bool, end: nat)
    ensures Ordered(Runs(property, end), FIRST, end - 1) && Apart(Runs(property, end))
    ensures Exact(property, Runs(property, end), end)
    ensures var runs := Runs(property, end);
            runs != [] && runs[|runs| - 1].high == end - 1 <==> FIRST < end && Included(property, end - 1)
  {
    hide Included, Apart, Covers, Extended, Ordered, Exact, Runs;
    if end <= FIRST {
      NoRuns(property, end);
    } else {
      RunsAreExact(property, end - 1);
      RunsNext(property, end);
      var before := Runs(property, end - 1);
      Widen(before, end - 2);
      if Included(property, end - 1) {
        ExtendedOrdered(before, end - 1);
        ExactExtended(property, before, end);
      } else {
        ExactSkipped(property, before, end);
      }
    }
  }

  /** Ranges that are ordered, apart and cover the same values are the same ranges. */
  lemma {:induction false} RunsAreUnique(a: seq<Range>, b: seq<Range>, low: int, high: int)
    requires Ordered(a, low, high) && Ordered(b, low, high) && Apart(a) && Apart(b)
    requires forall value :: Covers(a, value) <==> Covers(b, value)
    ensures a == b
    decreases |a|
  {
    hide Apart, Covers, Ordered;
    if a == [] || b == [] {
      NothingIsEmpty(a, low, high);
      NothingIsEmpty(b, low, high);
    } else {
      SameFirst(a, b, low, high);
      SameFirst(b, a, low, high);
      var x, y := a[1..], b[1..];
      forall value ensures Covers(x, value) <==> Covers(y, value) {
        RestCovers(a, low, high, value);
        RestCovers(b, low, high, value);
      }
      RestOrdered(a, low, high);
      RestOrdered(b, low, high);
      RunsAreUnique(x, y, low, high);
      assert a == [a[0]] + x && b == [b[0]] + y;
    }
  }

  lemma NothingIsEmpty(a: seq<Range>, low: int, high: int)
    requires Ordered(a, low, high)
    ensures a == [] ==> forall value :: !Covers(a, value)
    ensures a != [] ==> Covers(a, a[0].low)
  {
    if a != [] {
      assert Holds(a[0], a[0].low);
    }
  }

  lemma RestOrdered(a: seq<Range>, low: int, high: int)
    requires a != [] && Ordered(a, low, high) && Apart(a)
    ensures Ordered(a[1..], low, high) && Apart(a[1..])
  {
  }

  lemma SameFirst(a: seq<Range>, b: seq<Range>, low: int, high: int)
    requires a != [] && b != [] && Ordered(a, low, high) && Ordered(b, low, high) && Apart(b)
    requires forall value :: Covers(a, value) ==> Covers(b, value)
    ensures b[0].low <= a[0].low && (a[0].low == b[0].low ==> a[0].high <= b[0].high)
  {
    assert Holds(a[0], a[0].low);
    assert Covers(a, a[0].low);
    var j :| 0 <= j < |b| && Holds(b[j], a[0].low);
    if a[0].low == b[0].low && a[0].high > b[0].high {
      assert Holds(a[0], b[0].high + 1);
      assert Covers(a, b[0].high + 1);
      var k :| 0 <= k < |b| && Holds(b[k], b[0].high + 1);
    }
  }

  lemma RestCovers(a: seq<Range>, low: int, high: int, value: int)
    requires a != [] && Ordered(a, low, high)
    ensures Covers(a[1..], value) <==> Covers(a, value) && !Holds(a[0], value)
  {
    if Covers(a, value) && !Holds(a[0], value) {
      var k :| 0 <= k < |a| && Holds(a[k], value);
      assert a[1..][k - 1] == a[k];
    }
    if Covers(a[1..], value) {
      var k :| 0 <= k < |a[1..]| && Holds(a[1..][k], value);
      assert Holds(a[k + 1], value);
    }
  }

  method PropertyRanges(property: int -> bool) returns (ranges: seq<Range>)
    ensures ranges == Runs(property, LAST + 1)
  {
    ranges := [];
    var start: Option<nat> := None;
    var previous: nat := 0;
    for scalar := FIRST to LAST + 1
      invariant start.None? ==> ranges == Runs(property, scalar) && (scalar == FIRST || !Included(property, scalar - 1))
      invariant start.Some? ==> scalar > FIRST && previous == scalar - 1 && Runs(property, scalar) == ranges + [Range(start.value, previous)]
    {
      RunsAreExact(property, scalar);
      var included := Included(property, scalar);
      if start.None? && included {
        start := Some(scalar);
      } else if start.Some? && !included {
        ranges := ranges + [Range(start.value, previous)];
        start := None;
      }
      previous := scalar;
    }
    if start.Some? {
      ranges := ranges + [Range(start.value, previous)];
    }
  }

  // One table for each plane

  function PlaneStart(plane: nat): nat {
    plane * PLANE_SIZE
  }

  function PlaneEnd(plane: nat): nat {
    PlaneStart(plane) + PLANE_SIZE - 1
  }

  function Clip(r: Range, plane: nat): seq<Range> {
    var low := if r.low < PlaneStart(plane) then PlaneStart(plane) else r.low;
    var high := if r.high > PlaneEnd(plane) then PlaneEnd(plane) else r.high;
    if r.low <= PlaneEnd(plane) && low <= high then [Range(low, high)] else []
  }

  /** The parts of the ranges that lie in a plane. */
  function Clipped(ranges: seq<Range>, plane: nat): seq<Range> {
    if ranges == [] then [] else Clipped(ranges[..|ranges| - 1], plane) + Clip(ranges[|ranges| - 1], plane)
  }

  lemma ClipHolds(r: Range, plane: nat, value: int)
    requires r.low <= r.high
    ensures Covers(Clip(r, plane), value) <==> PlaneStart(plane) <= value <= PlaneEnd(plane) && Holds(r, value)
  {
    if Clip(r, plane) != [] {
      CoversOne(Clip(r, plane)[0], value);
    }
  }

  function Max(a: int, b: int): int {
    if a < b then b else a
  }

  function Min(a: int, b: int): int {
    if a < b then a else b
  }

  lemma OrderedAppend(a: seq<Range>, b: seq<Range>, low: int, middle: int, high: int)
    requires Ordered(a, low, middle - 1) && Ordered(b, middle, high) && low <= middle <= high + 1
    ensures Ordered(a + b, low, high)
  {
    var c := a + b;
    forall k | 0 <= k < |c| ensures low <= c[k].low <= c[k].high <= high {
      assert c[k] == if k < |a| then a[k] else b[k - |a|];
    }
    forall j, k | 0 <= j < k < |c| ensures c[j].high < c[k].low {
      assert c[j] == if j < |a| then a[j] else b[j - |a|];
      assert c[k] == if k < |a| then a[k] else b[k - |a|];
    }
  }

  lemma ClipOrdered(r: Range, plane: nat, low: int, high: int)
    requires low <= r.low <= r.high <= high
    ensures Ordered(Clip(r, plane), Max(low, PlaneStart(plane)), Min(high, PlaneEnd(plane)))
  {
  }

  lemma Narrower(ranges: seq<Range>, low: int, high: int, low': int, high': int)
    requires Ordered(ranges, low, high) && low' <= low && high <= high'
    ensures Ordered(ranges, low', high')
  {
  }

  lemma OrderedPrefix(ranges: seq<Range>, low: int, high: int)
    requires ranges != [] && Ordered(ranges, low, high)
    ensures Ordered(ranges[..|ranges| - 1], low, ranges[|ranges| - 1].low - 1)
    ensures low <= ranges[|ranges| - 1].low <= ranges[|ranges| - 1].high <= high
  {
  }

  lemma {:induction false} ClippingWithin(ranges: seq<Range>, plane: nat, low: int, high: int)
    requires Ordered(ranges, low, high)
    ensures Ordered(Clipped(ranges, plane), Max(low, PlaneStart(plane)), Min(high, PlaneEnd(plane)))
  {
    if ranges == [] {
      assert Clipped(ranges, plane) == [];
    } else {
      hide Ordered, Clip;
      var before, last := ranges[..|ranges| - 1], ranges[|ranges| - 1];
      OrderedPrefix(ranges, low, high);
      ClippingWithin(before, plane, low, last.low - 1);
      ClipOrdered(last, plane, last.low, high);
      var start, end := Max(low, PlaneStart(plane)), Min(high, PlaneEnd(plane));
      var middle := Max(last.low, PlaneStart(plane));
      if middle <= end + 1 {
        Narrower(Clipped(before, plane), start, Min(last.low - 1, PlaneEnd(plane)), start, middle - 1);
        OrderedAppend(Clipped(before, plane), Clip(last, plane), start, middle, end);
      } else {
        ClipIsEmpty(last, plane, high);
        assert Clipped(before, plane) + [] == Clipped(before, plane);
        Narrower(Clipped(before, plane), start, Min(last.low - 1, PlaneEnd(plane)), start, end);
      }
    }
  }

  lemma ClipIsEmpty(r: Range, plane: nat, high: int)
    requires r.high <= high && Max(r.low, PlaneStart(plane)) > Min(high, PlaneEnd(plane)) + 1
    ensures Clip(r, plane) == []
  {
  }

  lemma ClippingOrders(ranges: seq<Range>, plane: nat, low: int, high: int)
    requires Ordered(ranges, low, high)
    ensures Ordered(Clipped(ranges, plane), PlaneStart(plane), PlaneEnd(plane))
    ensures Ordered(Clipped(ranges, plane), low, high)
  {
    hide Ordered, Clipped;
    ClippingWithin(ranges, plane, low, high);
    var start, end := Max(low, PlaneStart(plane)), Min(high, PlaneEnd(plane));
    Narrower(Clipped(ranges, plane), start, end, PlaneStart(plane), PlaneEnd(plane));
    Narrower(Clipped(ranges, plane), start, end, low, high);
  }

  lemma {:induction false} ClippingIsExact(ranges: seq<Range>, plane: nat, low: int, high: int)
    requires Ordered(ranges, low, high)
    ensures forall value :: Covers(Clipped(ranges, plane), value) <==> PlaneStart(plane) <= value <= PlaneEnd(plane) && Covers(ranges, value)
  {
    if ranges != [] {
      hide Covers, Clip;
      var before, last := ranges[..|ranges| - 1], ranges[|ranges| - 1];
      assert ranges == before + [last];
      ClippingIsExact(before, plane, low, high);
      forall value ensures Covers(Clipped(ranges, plane), value) <==> PlaneStart(plane) <= value <= PlaneEnd(plane) && Covers(ranges, value) {
        CoversAppend(Clipped(before, plane), Clip(last, plane), value);
        CoversLast(before, last, value);
        ClipHolds(last, plane, value);
      }
    }
  }

  // Packing

  function Pow2(k: nat): nat {
    if k == 0 then 1 else 2 * Pow2(k - 1)
  }

  /** Bitwise or. */
  function Or(a: nat, b: nat): nat
    decreases a + b
  {
    if a == 0 && b == 0 then 0
    else (if a % 2 == 1 || b % 2 == 1 then 1 else 0) + 2 * Or(a / 2, b / 2)
  }

  lemma {:induction false} OrNothing(a: nat)
    ensures Or(a, 0) == a
  {
    if a != 0 {
      OrNothing(a / 2);
    }
  }

  lemma OrDoubled(a: nat, b: nat)
    ensures Or(2 * a, b) == b % 2 + 2 * Or(a, b / 2)
  {
    assert 2 * a / 2 == a && 2 * a % 2 == 0;
    if 2 * a == 0 && b == 0 {
      assert Or(a, b / 2) == 0;
    }
  }

  /** Bits that do not overlap add up. */
  lemma {:induction false} OrOfDisjointBits(a: nat, b: nat, k: nat)
    requires b < Pow2(k)
    ensures Or(a * Pow2(k), b) == a * Pow2(k) + b
  {
    if k == 0 {
      OrNothing(a);
    } else {
      hide Or;
      OrOfDisjointBits(a, b / 2, k - 1);
      var half := a * Pow2(k - 1);
      OrDoubled(half, b);
      assert a * Pow2(k) == 2 * half by {
        Doubles(a, Pow2(k - 1));
      }
    }
  }

  lemma Doubles(a: nat, p: nat)
    ensures a * (2 * p) == 2 * (a * p)
  {
  }

  function Packed(r: Range): nat {
    Or(r.low * Pow2(SHIFT), r.high)
  }

  function UnpackedLow(packed: Word): Word {
    packed / 2097152
  }

  function UnpackedHigh(packed: Word): Word {
    packed % 2097152
  }

  lemma ShiftFactor()
    ensures Pow2(SHIFT) == 2097152
  {
    assert Pow2(7) == 128;
    assert Pow2(14) == 128 * Pow2(7);
    assert Pow2(21) == 128 * Pow2(14);
  }

  /** A packed range fits a word, and dividing takes it apart again. */
  lemma PackingRoundTrip(r: Range)
    requires r.low <= LAST && r.high <= LAST
    ensures Packed(r) < 0x1_0000_0000_0000_0000
    ensures UnpackedLow(Packed(r) as Word) as int == r.low && UnpackedHigh(Packed(r) as Word) as int == r.high
  {
    hide Or, Pow2;
    ShiftFactor();
    OrOfDisjointBits(r.low, r.high, SHIFT);
    var packed := r.low * 2097152 + r.high;
    assert packed / 2097152 == r.low && packed % 2097152 == r.high;
  }

  datatype Table = Table(plane: nat, packed: seq<Word>)

  function Unpacked(packed: seq<Word>): seq<Range> {
    seq(|packed|, k requires 0 <= k < |packed| => Range(UnpackedLow(packed[k]) as nat, UnpackedHigh(packed[k]) as nat))
  }

  function TableOf(tables: seq<Table>, plane: nat): seq<Word> {
    if tables == [] then []
    else if tables[|tables| - 1].plane == plane then tables[|tables| - 1].packed
    else TableOf(tables[..|tables| - 1], plane)
  }

  method Pack(local: seq<Range>) returns (packed: seq<Word>)
    requires forall k :: 0 <= k < |local| ==> local[k].low <= LAST && local[k].high <= LAST
    ensures Unpacked(packed) == local
  {
    hide Packed, UnpackedLow, UnpackedHigh;
    packed := [];
    for k := 0 to |local|
      invariant |packed| == k && Unpacked(packed) == local[..k]
    {
      PackingRoundTrip(local[k]);
      packed := packed + [Packed(local[k]) as Word];
    }
  }

  ghost predicate PlaneFits(property: int -> bool, plane: nat) {
    |Clipped(Runs(property, LAST + 1), plane)| <= TABLE_LIMIT
  }

  ghost predicate Fits(property: int -> bool) {
    forall plane :: 0 <= plane < PLANES ==> PlaneFits(property, plane)
  }

  ghost predicate ShortTables(property: int -> bool) {
    forall plane: nat :: plane < 17 ==> |Clipped(Runs(property, 0x11_0000), plane)| <= 1024
  }

  lemma FitsMeans(property: int -> bool)
    ensures Fits(property) <==> ShortTables(property)
  {
    hide Runs, Clipped;
    if ShortTables(property) {
      forall plane | 0 <= plane < PLANES ensures PlaneFits(property, plane) {
      }
    }
    if Fits(property) {
      forall plane: nat | plane < 17 ensures |Clipped(Runs(property, 0x11_0000), plane)| <= 1024 {
        assert PlaneFits(property, plane);
      }
    }
  }

  /** A table for every plane that has ranges: what the generated function looks up. */
  ghost predicate TablesFor(tables: seq<Table>, ranges: seq<Range>, planes: nat) {
    && (forall plane :: 0 <= plane < planes ==> Unpacked(TableOf(tables, plane)) == Clipped(ranges, plane))
    && (forall k :: 0 <= k < |tables| ==> tables[k].plane < planes && 0 < |tables[k].packed| <= TABLE_LIMIT)
    && (forall j, k :: 0 <= j < k < |tables| ==> tables[j].plane < tables[k].plane)
  }

  lemma {:induction false} TableNext(tables: seq<Table>, ranges: seq<Range>, plane: nat, packed: seq<Word>)
    requires TablesFor(tables, ranges, plane)
    requires Unpacked(packed) == Clipped(ranges, plane) && |packed| <= TABLE_LIMIT
    ensures TablesFor(if packed == [] then tables else tables + [Table(plane, packed)], ranges, plane + 1)
  {
    hide Unpacked;
    var more := tables + [Table(plane, packed)];
    assert more[..|more| - 1] == tables;
    NoTable(tables, plane);
  }

  lemma {:induction false} NoTable(tables: seq<Table>, plane: nat)
    requires forall k :: 0 <= k < |tables| ==> tables[k].plane < plane
    ensures TableOf(tables, plane) == []
  {
    if tables != [] {
      NoTable(tables[..|tables| - 1], plane);
    }
  }

  /** Fails exactly when some plane has more ranges than a table may hold. */
  method EmitProperty(property: int -> bool) returns (r: Result<seq<Table>, nat>)
    ensures r.Ok? <==> Fits(property)
    ensures r.Ok? <==> ShortTables(property)
    ensures r.Ok? ==> TablesFor(r.value, Runs(property, LAST + 1), PLANES)
    ensures r.Err? ==> r.error < 17 && |Clipped(Runs(property, 0x11_0000), r.error)| > 1024
  {
    FitsMeans(property);
    hide ShortTables, Runs, Unpacked, Clipped, Ordered, TablesFor, Included;
    var ranges := PropertyRanges(property);
    RunsAreExact(property, LAST + 1);
    var tables: seq<Table> := [];
    NoTablesYet(ranges);
    for plane := 0 to PLANES
      invariant TablesFor(tables, ranges, plane)
      invariant forall p :: 0 <= p < plane ==> PlaneFits(property, p)
    {
      var local := Clipped(ranges, plane);
      assert PlaneFits(property, plane) <==> |local| <= TABLE_LIMIT;
      if |local| > TABLE_LIMIT {
        return Err(plane);
      }
      ClippedBelowLast(ranges, plane);
      var packed := Pack(local);
      UnpackedLength(packed);
      TableNext(tables, ranges, plane, packed);
      if packed != [] {
        tables := tables + [Table(plane, packed)];
      }
    }
    return Ok(tables);
  }

  lemma NoTablesYet(ranges: seq<Range>)
    ensures TablesFor([], ranges, 0)
  {
  }

  lemma UnpackedLength(packed: seq<Word>)
    ensures |Unpacked(packed)| == |packed|
  {
  }

  lemma ClippedBelowLast(ranges: seq<Range>, plane: nat)
    requires plane < PLANES && Ordered(ranges, FIRST, LAST)
    ensures forall k :: 0 <= k < |Clipped(ranges, plane)| ==> Clipped(ranges, plane)[k].low <= LAST && Clipped(ranges, plane)[k].high <= LAST
  {
    ClippingOrders(ranges, plane, FIRST, LAST);
  }
}
