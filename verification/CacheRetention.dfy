/** Pruning and publishing in a directory of cache entries. */
module CacheRetention {
  import T = CodecTrees

  const U64_MAX: nat := 0xFFFF_FFFF_FFFF_FFFF

  /** A regular file, as far as retention looks at it, and what was written into it. */
  datatype File = File(modified: int, length: nat, payload: string)

  datatype Limits = Limits(bytes: nat, entries: nat, age: nat)

  datatype Entry = Entry(used: int, name: string, length: nat)

  predicate HexDigit(c: char) {
    '0' <= c <= '9' || 'a' <= c <= 'f'
  }

  /** Sixty-four hexadecimal digits and one of two suffixes. */
  predicate Managed(name: string) {
    && |name| >= 64
    && (forall k :: 0 <= k < 64 ==> HexDigit(name[k]))
    && (name[64..] == ".json.gz" || name[64..] == ".program.json.gz")
  }

  // The order in which entries are considered: least recently used first, then by name

  predicate Older(a: Entry, b: Entry) {
    a.used < b.used || (a.used == b.used && T.Before(a.name, b.name))
  }

  lemma OlderIsTotal(a: Entry, b: Entry)
    requires a.name != b.name
    ensures Older(a, b) <==> !Older(b, a)
  {
    T.BeforeTotal(a.name, b.name);
  }

  lemma OlderIsTransitive(a: Entry, b: Entry, c: Entry)
    requires Older(a, b) && Older(b, c)
    ensures Older(a, c)
  {
    if a.used == b.used == c.used {
      T.BeforeTrans(a.name, b.name, c.name);
    }
  }

  ghost predicate ByAge(entries: seq<Entry>) {
    forall i, j :: 0 <= i < j < |entries| ==> Older(entries[i], entries[j])
  }

  ghost predicate DistinctNames(entries: seq<Entry>) {
    forall i, j :: 0 <= i < j < |entries| ==> entries[i].name != entries[j].name
  }

  function Inserted(e: Entry, entries: seq<Entry>): seq<Entry> {
    if entries == [] || Older(e, entries[0]) then [e] + entries else [entries[0]] + Inserted(e, entries[1..])
  }

  function SortedByAge(entries: seq<Entry>): seq<Entry> {
    if entries == [] then [] else Inserted(entries[|entries| - 1], SortedByAge(entries[..|entries| - 1]))
  }

  lemma {:induction false} InsertedHolds(e: Entry, entries: seq<Entry>)
    requires ByAge(entries) && forall k :: 0 <= k < |entries| ==> entries[k].name != e.name
    ensures ByAge(Inserted(e, entries))
    ensures forall x :: x in Inserted(e, entries) <==> x == e || x in entries
    ensures multiset(Inserted(e, entries)) == multiset(entries) + multiset{e}
    decreases |entries|
  {
    hide Older;
    if entries != [] {
      assert entries == [entries[0]] + entries[1..];
      if Older(e, entries[0]) {
        forall k | 0 <= k < |entries| ensures Older(e, entries[k]) {
          if k > 0 {
            OlderIsTransitive(e, entries[0], entries[k]);
          }
        }
      } else {
        OlderIsTotal(e, entries[0]);
        InsertedHolds(e, entries[1..]);
        var rest := Inserted(e, entries[1..]);
        forall k | 0 <= k < |rest| ensures Older(entries[0], rest[k]) {
          assert rest[k] in rest;
        }
      }
    }
  }

  lemma {:induction false} SortingHolds(entries: seq<Entry>)
    requires DistinctNames(entries)
    ensures ByAge(SortedByAge(entries)) && multiset(SortedByAge(entries)) == multiset(entries)
    ensures forall x :: x in SortedByAge(entries) <==> x in entries
  {
    if entries != [] {
      var before, last := entries[..|entries| - 1], entries[|entries| - 1];
      assert entries == before + [last];
      SortingHolds(before);
      forall k | 0 <= k < |SortedByAge(before)| ensures SortedByAge(before)[k].name != last.name {
        assert SortedByAge(before)[k] in before;
      }
      InsertedHolds(last, SortedByAge(before));
    }
  }

  // Limits

  function Total(entries: seq<Entry>): nat {
    if entries == [] then 0 else entries[0].length + Total(entries[1..])
  }

  predicate Expired(e: Entry, now: int, limits: Limits) {
    now - e.used > limits.age
  }

  /** What may stay. */
  ghost predicate Allowed(entries: seq<Entry>, now: int, limits: Limits) {
    && (forall k :: 0 <= k < |entries| ==> !Expired(entries[k], now, limits))
    && Total(entries) <= limits.bytes
    && |entries| <= limits.entries
  }

  function SaturatingAdd(a: nat, b: nat): nat {
    if a + b > U64_MAX then U64_MAX else a + b
  }

  function SaturatingSub(a: nat, b: nat): nat {
    if a < b then 0 else a - b
  }

  function SaturatedTotal(entries: seq<Entry>): nat {
    if entries == [] then 0 else SaturatingAdd(SaturatedTotal(entries[..|entries| - 1]), entries[|entries| - 1].length)
  }

  lemma {:induction false} TotalAppend(a: seq<Entry>, b: seq<Entry>)
    ensures Total(a + b) == Total(a) + Total(b)
    decreases |a|
  {
    if a == [] {
      assert a + b == b;
    } else {
      assert (a + b)[1..] == a[1..] + b;
      TotalAppend(a[1..], b);
    }
  }

  lemma {:induction false} InsertedTotal(e: Entry, entries: seq<Entry>)
    ensures Total(Inserted(e, entries)) == Total(entries) + e.length
    decreases |entries|
  {
    if entries != [] && !Older(e, entries[0]) {
      InsertedTotal(e, entries[1..]);
    } else {
      assert ([e] + entries)[1..] == entries;
    }
  }

  lemma {:induction false} SortedTotal(entries: seq<Entry>)
    ensures Total(SortedByAge(entries)) == Total(entries)
  {
    if entries != [] {
      var before, last := entries[..|entries| - 1], entries[|entries| - 1];
      SortedTotal(before);
      InsertedTotal(last, SortedByAge(before));
      assert entries == before + [last];
      TotalAppend(before, [last]);
      assert [last][1..] == [];
    }
  }

  /** What 64 bits hold of a total. */
  function Saturated(total: nat): nat {
    if total <= U64_MAX then total else U64_MAX
  }

  lemma {:induction false} SaturatedIsTotal(entries: seq<Entry>)
    ensures SaturatedTotal(entries) == Saturated(Total(entries))
  {
    if entries != [] {
      var before, last := entries[..|entries| - 1], entries[|entries| - 1];
      SaturatedIsTotal(before);
      assert entries == before + [last];
      TotalAppend(before, [last]);
      assert [last][1..] == [];
    }
  }

  lemma SuffixAllowed(entries: seq<Entry>, k: nat, now: int, limits: Limits)
    requires k <= |entries| && Allowed(entries, now, limits)
    ensures Allowed(entries[k..], now, limits)
  {
    assert entries == entries[..k] + entries[k..];
    TotalAppend(entries[..k], entries[k..]);
  }

  /** `k` oldest entries go: none of the longer suffixes was allowed when it was considered, and what
      stays was allowed at the last look. */
  ghost predicate Cut(order: seq<Entry>, k: nat, clock: nat -> int, limits: Limits) {
    && k <= |order|
    && Allowed(order[k..], clock(k), limits)
    && forall j :: 0 <= j < k ==> !Allowed(order[j..], clock(j), limits)
  }

  /** The first entry decides whether a suffix is unexpired, because it is the oldest. */
  lemma OldestDecides(entries: seq<Entry>, now: int, limits: Limits)
    requires entries != [] && ByAge(entries)
    ensures Allowed(entries, now, limits) <==>
      !Expired(entries[0], now, limits) && Total(entries) <= limits.bytes && |entries| <= limits.entries
  {
  }

  lemma ByAgeSuffix(order: seq<Entry>, k: nat)
    requires k <= |order| && ByAge(order)
    ensures ByAge(order[k..])
  {
  }

  lemma NothingIsAllowed(now: int, limits: Limits)
    ensures Allowed([], now, limits)
  {
  }

  /** With one reading of the clock, a cut leaves exactly the longest allowed suffix. */
  lemma CutIsLongest(order: seq<Entry>, k: nat, clock: nat -> int, now: int, limits: Limits)
    requires Cut(order, k, clock, limits) && forall i :: clock(i) == now
    ensures forall j :: 0 <= j <= |order| ==> (Allowed(order[j..], now, limits) <==> k <= j)
  {
    hide Allowed;
    forall j | 0 <= j <= |order| ensures Allowed(order[j..], now, limits) <==> k <= j {
      assert clock(j) == clock(k) == now;
      if k <= j {
        SuffixAllowed(order[k..], j - k, now, limits);
        assert order[k..][j - k..] == order[j..];
      }
    }
  }

  /** A suffix that was allowed when it was considered is not cut into. */
  lemma AllowedStays(order: seq<Entry>, k: nat, j: nat, clock: nat -> int, limits: Limits)
    requires Cut(order, k, clock, limits) && j <= |order| && Allowed(order[j..], clock(j), limits)
    ensures k <= j
  {
  }

  /** The total as it is tracked after `k` removals. */
  function Tracked(order: seq<Entry>, k: nat): nat
    requires k <= |order|
  {
    if k == 0 then Saturated(Total(order)) else SaturatingSub(Tracked(order, k - 1), order[k - 1].length)
  }

  predicate Stops(order: seq<Entry>, k: nat, clock: nat -> int, limits: Limits)
    requires k < |order|
  {
    !Expired(order[k], clock(k), limits) && Tracked(order, k) <= limits.bytes && |order| - k <= limits.entries
  }

  /** Where eviction stops: at the first entry whose tests pass. */
  ghost predicate StopsFirst(order: seq<Entry>, k: nat, clock: nat -> int, limits: Limits) {
    && k <= |order|
    && (forall j :: 0 <= j < k ==> !Stops(order, j, clock, limits))
    && (k < |order| ==> Stops(order, k, clock, limits))
  }

  lemma {:induction false} TrackedIsExact(order: seq<Entry>, k: nat)
    requires k <= |order| && Total(order) <= U64_MAX
    ensures Tracked(order, k) == Total(order[k..])
  {
    if k == 0 {
      assert order[0..] == order;
    } else {
      TrackedIsExact(order, k - 1);
      assert order[k - 1..][1..] == order[k..];
    }
  }

  /** When the sizes add up within 64 bits, eviction leaves the most recent entries that are allowed. */
  lemma StopsAtCut(order: seq<Entry>, k: nat, clock: nat -> int, limits: Limits)
    requires ByAge(order) && StopsFirst(order, k, clock, limits) && Total(order) <= U64_MAX
    ensures Cut(order, k, clock, limits)
  {
    hide Allowed, ByAge, Tracked;
    forall j | 0 <= j <= k && j < |order| ensures Stops(order, j, clock, limits) <==> Allowed(order[j..], clock(j), limits) {
      TrackedIsExact(order, j);
      ByAgeSuffix(order, j);
      OldestDecides(order[j..], clock(j), limits);
    }
    if k == |order| {
      NothingIsAllowed(clock(k), limits);
      assert order[k..] == [];
    }
  }

  lemma OneReading(order: seq<Entry>, limits: Limits)
    requires order != [] && Total(order) > U64_MAX && limits == Limits(U64_MAX, |order|, 0)
    ensures StopsFirst(order, 0, _ => order[0].used, limits) && !Cut(order, 0, _ => order[0].used, limits)
  {
    assert order[0..] == order;
    assert Tracked(order, 0) == U64_MAX;
    assert Stops(order, 0, _ => order[0].used, limits);
  }

  /** Eviction leaves the most recent entries that are allowed, whatever the limits and the clock,
      exactly when the sizes add up within 64 bits. */
  lemma SaturationExactly(order: seq<Entry>)
    requires ByAge(order)
    ensures (forall k: nat, clock, limits :: StopsFirst(order, k, clock, limits) ==> Cut(order, k, clock, limits)) <==> Total(order) <= U64_MAX
  {
    hide ByAge, Cut, StopsFirst;
    if Total(order) <= U64_MAX {
      forall k: nat, clock, limits | StopsFirst(order, k, clock, limits) ensures Cut(order, k, clock, limits) {
        StopsAtCut(order, k, clock, limits);
      }
    } else {
      OneReading(order, Limits(U64_MAX, |order|, 0));
    }
  }

  lemma {:induction false} TrackedIsBelow(order: seq<Entry>, k: nat)
    requires k <= |order|
    ensures Tracked(order, k) <= Total(order[k..])
  {
    if k == 0 {
      assert order[0..] == order;
    } else {
      TrackedIsBelow(order, k - 1);
      assert order[k - 1..][1..] == order[k..];
    }
  }

  /** For one directory, one clock and one choice of limits: eviction is right exactly when what it
      leaves is within the byte limit. It never keeps too little, too many entries or an expired one. */
  lemma EvictionErrsByBytesOnly(order: seq<Entry>, k: nat, clock: nat -> int, limits: Limits)
    requires ByAge(order) && StopsFirst(order, k, clock, limits)
    ensures Cut(order, k, clock, limits) <==> Total(order[k..]) <= limits.bytes
    ensures forall j :: 0 <= j < k ==> !Allowed(order[j..], clock(j), limits)
  {
    hide Allowed, ByAge, Tracked;
    forall j | 0 <= j <= k && j < |order|
      ensures Allowed(order[j..], clock(j), limits) ==> Stops(order, j, clock, limits)
      ensures Stops(order, j, clock, limits) && Total(order[j..]) <= limits.bytes ==> Allowed(order[j..], clock(j), limits)
      ensures Allowed(order[j..], clock(j), limits) ==> Total(order[j..]) <= limits.bytes
    {
      TrackedIsBelow(order, j);
      ByAgeSuffix(order, j);
      OldestDecides(order[j..], clock(j), limits);
    }
    if k == |order| {
      NothingIsAllowed(clock(k), limits);
      assert order[k..] == [] && Total([]) == 0;
    }
  }

  // The directory

  function EntryOf(files: map<string, File>, name: string): Entry
    requires name in files
  {
    Entry(files[name].modified, name, files[name].length)
  }

  /** The managed entries of a directory, each once. */
  ghost predicate Lists(files: map<string, File>, entries: seq<Entry>) {
    && DistinctNames(entries)
    && (forall e :: e in entries ==> e.name in files && Managed(e.name) && e == EntryOf(files, e.name))
    && (forall name :: name in files && Managed(name) ==> EntryOf(files, name) in entries)
  }

  lemma FirstIsOldest(a: seq<Entry>)
    requires ByAge(a)
    ensures a != [] ==> a[0] in a && forall e :: e in a ==> e == a[0] || Older(a[0], e)
  {
  }

  lemma OlderIsOneWay(a: Entry, b: Entry)
    ensures !(Older(a, b) && Older(b, a))
  {
    T.BeforeTotal(a.name, b.name);
  }

  lemma RestMembers(a: seq<Entry>)
    requires a != [] && DistinctNames(a)
    ensures forall e :: e in a[1..] <==> e in a && e != a[0]
  {
    assert a == [a[0]] + a[1..];
  }

  /** The order of eviction is a function of the directory. */
  lemma {:induction false} OrderIsUnique(a: seq<Entry>, b: seq<Entry>)
    requires ByAge(a) && ByAge(b) && forall e :: e in a <==> e in b
    requires DistinctNames(a) && DistinctNames(b)
    ensures a == b
    decreases |a|
  {
    hide Older;
    FirstIsOldest(a);
    FirstIsOldest(b);
    if a != [] && b != [] {
      OlderIsOneWay(a[0], b[0]);
      var x, y := a[1..], b[1..];
      assert a == [a[0]] + x && b == [b[0]] + y;
      RestMembers(a);
      RestMembers(b);
      OrderIsUnique(x, y);
    }
  }

  // A directory that is left beyond its byte limit

  const LARGEST: nat := 0x7FFF_FFFF_FFFF_FFFF

  function ExampleName(digit: char): string {
    seq(64, _ => digit) + ".json.gz"
  }

  function ExampleEntry(used: int, digit: char): Entry {
    Entry(used, ExampleName(digit), LARGEST)
  }

  function ExampleOrder(): seq<Entry> {
    [ExampleEntry(0, 'a'), ExampleEntry(1, 'b'), ExampleEntry(2, 'c')]
  }

  function ExampleDirectory(): map<string, File> {
    map[ExampleName('a') := File(0, LARGEST, ""), ExampleName('b') := File(1, LARGEST, ""), ExampleName('c') := File(2, LARGEST, "")]
  }

  lemma ExampleNames()
    ensures forall digit :: HexDigit(digit) ==> Managed(ExampleName(digit))
    ensures forall x, y :: ExampleName(x) == ExampleName(y) ==> x == y
  {
    forall digit | HexDigit(digit) ensures Managed(ExampleName(digit)) {
      assert ExampleName(digit)[64..] == ".json.gz";
    }
    forall x, y | ExampleName(x) == ExampleName(y) ensures x == y {
      assert ExampleName(x)[0] == x && ExampleName(y)[0] == y;
    }
  }

  lemma ExampleIsListed()
    ensures ByAge(ExampleOrder()) && Lists(ExampleDirectory(), ExampleOrder())
  {
    hide Managed, ExampleName;
    ExampleNames();
    var files, order := ExampleDirectory(), ExampleOrder();
    assert order[0] == EntryOf(files, ExampleName('a')) && order[1] == EntryOf(files, ExampleName('b')) && order[2] == EntryOf(files, ExampleName('c'));
  }

  lemma TotalOne(e: Entry)
    ensures Total([e]) == e.length
  {
    assert [e][1..] == [];
  }

  /** Three managed files of the largest size a file can have: after one removal the tracked total is
      2^63, while two files of 2^63 - 1 bytes stay. */
  lemma SaturationHidesBytes()
    ensures var limits := Limits(LARGEST + 1, 3, 2);
            var order := ExampleOrder();
            && ByAge(order) && Lists(ExampleDirectory(), order)
            && StopsFirst(order, 1, _ => 2, limits)
            && Total(order[1..]) > limits.bytes && !Cut(order, 1, _ => 2, limits)
  {
    var limits, order := Limits(LARGEST + 1, 3, 2), ExampleOrder();
    ExampleIsListed();
    hide ExampleName, ByAge, Lists;
    TotalOne(order[2]);
    assert order[1..][1..] == [order[2]];
    assert Total(order[1..]) == order[1].length + Total([order[2]]);
    assert Total(order) == 3 * LARGEST;
    assert Tracked(order, 1) == LARGEST + 1;
    assert !Stops(order, 0, _ => 2, limits) && Stops(order, 1, _ => 2, limits);
  }
}
