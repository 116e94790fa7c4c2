/** The cache directory itself: pruning it in place, and publishing a finished entry into it. */
module CacheDirectory {
  import opened Prelude
  import opened CacheRetention
  import opened CacheNames

  /** What pruning asks of the system: which processes are alive, by number, and the time, look by look. */
  datatype World = World(alive: string -> bool, clock: nat -> int)

  ghost function Reaped(files: map<string, File>, alive: string -> bool): map<string, File> {
    map name | name in files && !Abandoned(name, alive) :: files[name]
  }

  // Pruning

  ghost function NamesOf(entries: seq<Entry>): set<string> {
    set k | 0 <= k < |entries| :: entries[k].name
  }

  /** `after` is what pruning leaves: abandoned files and the first `k` entries by age are gone, and
      nothing else is. */
  ghost predicate PrunedBy(before: map<string, File>, after: map<string, File>, order: seq<Entry>, k: int, world: World, limits: Limits) {
    && 0 <= k <= |order| && ByAge(order) && Lists(before, order)
    && StopsFirst(order, k, world.clock, limits)
    && after == Reaped(before, world.alive) - NamesOf(order[..k])
  }

  ghost predicate Pruned(before: map<string, File>, after: map<string, File>, world: World, limits: Limits) {
    exists order, k :: PrunedBy(before, after, order, k, world, limits)
  }

  lemma StopIsUnique(order: seq<Entry>, k: nat, j: nat, clock: nat -> int, limits: Limits)
    requires StopsFirst(order, k, clock, limits) && StopsFirst(order, j, clock, limits)
    ensures k == j
  {
    hide Stops;
  }

  lemma SameOrder(files: map<string, File>, a: seq<Entry>, b: seq<Entry>)
    requires ByAge(a) && ByAge(b) && Lists(files, a) && Lists(files, b)
    ensures a == b
  {
    hide ByAge;
    OrderIsUnique(a, b);
  }

  /** Neither the order in which the directory is read nor anything else is left to chance. */
  lemma PruningIsDeterministic(before: map<string, File>, a: map<string, File>, b: map<string, File>, world: World, limits: Limits)
    requires Pruned(before, a, world, limits) && Pruned(before, b, world, limits)
    ensures a == b
  {
    hide ByAge, Lists, Stops, Managed, Abandoned;
    var order, k :| PrunedBy(before, a, order, k, world, limits);
    var order', k' :| PrunedBy(before, b, order', k', world, limits);
    SameOrder(before, order, order');
    StopIsUnique(order, k, k', world.clock, limits);
  }

  lemma RemovedNames(files: map<string, File>, order: seq<Entry>, k: nat, name: string)
    requires Lists(files, order) && k <= |order| && name in files
    ensures name in NamesOf(order[..k]) ==> Managed(name)
    ensures Managed(name) && name !in NamesOf(order[..k]) ==> EntryOf(files, name) in order[k..]
  {
    hide Managed;
    if j :| 0 <= j < k && order[..k][j].name == name {
      assert order[j] in order;
    }
    if Managed(name) {
      var j :| 0 <= j < |order| && order[j] == EntryOf(files, name);
      if j < k {
        assert order[..k][j].name == name;
      } else {
        assert order[k..][j - k] == order[j];
      }
    }
  }

  lemma LaterName(order: seq<Entry>, k: nat, j: nat)
    requires DistinctNames(order) && k <= j < |order|
    ensures order[j].name !in NamesOf(order[..k])
  {
  }

  lemma ReapedKeepsManaged(files: map<string, File>, alive: string -> bool, name: string)
    requires name in files && Managed(name)
    ensures name in Reaped(files, alive)
  {
    hide Managed, Abandoned;
    if Abandoned(name, alive) {
      AbandonedIsNotManaged(name, alive);
    }
  }

  /** What pruning leaves of the managed entries is the suffix it stopped at; of other names only the
      abandoned ones go, and no file is changed. */
  lemma LeavesTheSuffix(before: map<string, File>, after: map<string, File>, order: seq<Entry>, k: int, world: World, limits: Limits)
    requires PrunedBy(before, after, order, k, world, limits)
    ensures ByAge(order[k..]) && Lists(after, order[k..])
    ensures forall name :: name in before && !Managed(name) ==> (name in after <==> !Abandoned(name, world.alive))
    ensures forall name :: name in after ==> name in before && after[name] == before[name]
  {
    hide Managed, Stops, Abandoned, Older;
    forall name | name in before
      ensures !Managed(name) ==> (name in after <==> !Abandoned(name, world.alive))
      ensures name in after && Managed(name) ==> EntryOf(after, name) in order[k..]
    {
      RemovedNames(before, order, k, name);
    }
    forall e | e in order[k..] ensures e.name in after && Managed(e.name) && e == EntryOf(after, e.name) {
      var j :| 0 <= j < |order[k..]| && order[k..][j] == e;
      assert order[k + j] == e && e in order;
      LaterName(order, k, k + j);
      ReapedKeepsManaged(before, world.alive, e.name);
    }
  }

  /** Pruning ends within every limit and keeps nothing expired, as long as the sizes add up within 64
      bits; with one reading of the clock what it keeps is the longest such run of recent entries. */
  lemma PruningMeetsLimits(before: map<string, File>, after: map<string, File>, order: seq<Entry>, k: int, world: World, limits: Limits)
    requires PrunedBy(before, after, order, k, world, limits) && Total(order) <= U64_MAX
    ensures Lists(after, order[k..]) && Allowed(order[k..], world.clock(k), limits)
    ensures (forall i :: world.clock(i) == world.clock(0)) ==>
      forall j :: 0 <= j <= |order| ==> (Allowed(order[j..], world.clock(0), limits) <==> k <= j)
  {
    hide Lists, Allowed, Stops, ByAge;
    LeavesTheSuffix(before, after, order, k, world, limits);
    StopsAtCut(order, k, world.clock, limits);
    hide PrunedBy, StopsFirst;
    if forall i :: world.clock(i) == world.clock(0) {
      CutIsLongest(order, k, world.clock, world.clock(0), limits);
    }
  }

  ghost predicate Newest(files: map<string, File>, name: string) {
    && name in files && Managed(name)
    && forall other :: other in files && Managed(other) && other != name ==> Older(EntryOf(files, other), EntryOf(files, name))
  }

  /** All managed entries and `more` bytes add up within 64 bits. */
  ghost predicate SizesFit(files: map<string, File>, more: nat) {
    forall order :: Lists(files, order) ==> Total(order) + more <= U64_MAX
  }

  /** The newest managed entry stays if it is not expired and fits by itself. */
  lemma NewestSurvives(before: map<string, File>, after: map<string, File>, name: string, world: World, limits: Limits)
    requires Pruned(before, after, world, limits) && Newest(before, name) && SizesFit(before, 0)
    requires forall i :: !Expired(EntryOf(before, name), world.clock(i), limits)
    requires before[name].length <= limits.bytes && limits.entries > 0
    ensures name in after && after[name] == before[name]
  {
    hide Stops, Allowed, Managed, Lists, Newest;
    var order, k :| PrunedBy(before, after, order, k, world, limits);
    NewestIsLast(before, order, name);
    StopsAtCut(order, k, world.clock, limits);
    LastFits(order, world.clock(|order| - 1), limits);
    AllowedStays(order, k, |order| - 1, world.clock, limits);
    LeavesTheSuffix(before, after, order, k, world, limits);
    assert order[k..][|order| - 1 - k] == order[|order| - 1];
    ListedIsThere(after, order[k..], order[|order| - 1]);
  }

  lemma ListedIsThere(files: map<string, File>, order: seq<Entry>, e: Entry)
    requires Lists(files, order) && e in order
    ensures e.name in files && e == EntryOf(files, e.name)
  {
  }

  lemma LastFits(order: seq<Entry>, now: int, limits: Limits)
    requires order != [] && !Expired(order[|order| - 1], now, limits)
    requires order[|order| - 1].length <= limits.bytes && limits.entries > 0
    ensures Allowed(order[|order| - 1..], now, limits)
  {
    var last := order[|order| - 1..];
    assert last == [order[|order| - 1]] && last[1..] == [];
    assert Total(last) == order[|order| - 1].length + Total([]);
  }

  lemma NewestIsLast(files: map<string, File>, order: seq<Entry>, name: string)
    requires ByAge(order) && Lists(files, order) && Newest(files, name)
    ensures order != [] && order[|order| - 1] == EntryOf(files, name)
  {
    hide Managed, Older;
    var e := EntryOf(files, name);
    var k :| 0 <= k < |order| && order[k] == e;
    var last := order[|order| - 1];
    assert last in order;
    OlderIsOneWay(e, last);
  }

  class Directory {
    var files: map<string, File>

    /** The managed entries in the order the directory yields them, and their tracked size. Abandoned
        temporary files are removed on the way. */
    method ReadEntries(alive: string -> bool) returns (entries: seq<Entry>, bytes: nat)
      modifies this
      ensures files == Reaped(old(files), alive)
      ensures Lists(old(files), entries) && bytes == SaturatedTotal(entries)
    {
      hide Managed, Abandoned;
      entries, bytes := [], 0;
      ghost var found := files;
      var left := files.Keys;
      while left != {}
        invariant left <= found.Keys
        invariant files == map name | name in found && !(name !in left && Abandoned(name, alive)) :: found[name]
        invariant DistinctNames(entries)
        invariant forall e :: e in entries ==> e.name in found && e.name !in left && Managed(e.name) && e == EntryOf(found, e.name)
        invariant forall name :: name in found && name !in left && Managed(name) ==> EntryOf(found, name) in entries
        invariant bytes == SaturatedTotal(entries)
      {
        var name :| name in left;
        left := left - {name};
        if Abandoned(name, alive) {
          AbandonedIsNotManaged(name, alive);
          files := files - {name};
        } else if Managed(name) {
          assert forall k :: 0 <= k < |entries| ==> entries[k] in entries;
          assert (entries + [EntryOf(files, name)])[..|entries|] == entries;
          bytes := SaturatingAdd(bytes, files[name].length);
          entries := entries + [EntryOf(files, name)];
        }
      }
    }

    method Prune(world: World, limits: Limits)
      modifies this
      ensures Pruned(old(files), files, world, limits)
      ensures forall name, process :: name in old(files) && TemporaryOf(name, process) ==> (name in files <==> world.alive(process))
    {
      hide TemporaryOf, Managed, ByAge, Older, Expired, Abandoned;
      ghost var before := files;
      var entries, bytes := ReadEntries(world.alive);
      var order := SortedByAge(entries);
      SortingHolds(entries);
      SortedTotal(entries);
      SaturatedIsTotal(entries);
      SortedLists(before, entries, order);
      ghost var k := Evict(order, bytes, world.clock, limits);
      assert PrunedBy(before, files, order, k, world, limits);
      forall name, process | name in before && TemporaryOf(name, process) ensures name in files <==> world.alive(process) {
        TemporariesGo(before, files, name, process, world, limits);
      }
    }

    /** Removes entries from the oldest on, until one may stay. */
    method Evict(order: seq<Entry>, tracked: nat, clock: nat -> int, limits: Limits) returns (ghost k: nat)
      requires tracked == Saturated(Total(order))
      modifies this
      ensures StopsFirst(order, k, clock, limits)
      ensures files == old(files) - NamesOf(order[..k])
    {
      hide Expired, Total;
      var bytes := tracked;
      var remaining := |order|;
      var n := 0;
      assert order[..0] == [];
      while n < |order|
        invariant n <= |order| && remaining == |order| - n
        invariant bytes == Tracked(order, n)
        invariant forall j :: 0 <= j < n ==> !Stops(order, j, clock, limits)
        invariant files == old(files) - NamesOf(order[..n])
      {
        hide NamesOf;
        if !Expired(order[n], clock(n), limits) && bytes <= limits.bytes && remaining <= limits.entries {
          break;
        }
        RemovesNext(order, n);
        files := files - {order[n].name};
        bytes := SaturatingSub(bytes, order[n].length);
        remaining := remaining - 1;
        n := n + 1;
      }
      return n;
    }

    /** Prunes, admits the temporary file under its final name unless it cannot fit, and prunes again. */
    method Publish(temporary: string, destination: string, first: World, later: World, limits: Limits) returns (r: Result<bool, string>)
      requires !Managed(temporary) && Managed(destination)
      modifies this
      ensures r.Ok? <==> temporary in old(files) && !Abandoned(temporary, first.alive)
      ensures exists pruned :: Published(old(files), pruned, files, temporary, destination, first, later, limits, r)
    {
      hide Managed, Abandoned;
      ghost var before := files;
      Prune(first, limits);
      ghost var pruned := files;
      UnmanagedStays(before, pruned, temporary, first, limits);
      if temporary !in files {
        assert Published(before, pruned, files, temporary, destination, first, later, limits, Err("no temporary file"));
        return Err("no temporary file");
      }
      if limits.entries == 0 || files[temporary].length > limits.bytes {
        files := files - {temporary};
        assert Published(before, pruned, files, temporary, destination, first, later, limits, Ok(false));
        return Ok(false);
      }
      files := Renamed(files, temporary, destination);
      Prune(later, limits);
      r := Ok(destination in files);
      assert Published(before, pruned, files, temporary, destination, first, later, limits, r);
    }
  }

  predicate Admits(limits: Limits, file: File) {
    limits.entries > 0 && file.length <= limits.bytes
  }

  function Renamed(files: map<string, File>, from: string, to: string): map<string, File>
    requires from in files
  {
    (files - {from})[to := files[from]]
  }

  /** The three ends of publishing: no temporary file, one that cannot fit, and one that was renamed. */
  ghost predicate Published(before: map<string, File>, pruned: map<string, File>, after: map<string, File>,
                            temporary: string, destination: string, first: World, later: World, limits: Limits, r: Result<bool, string>) {
    && Pruned(before, pruned, first, limits)
    && if temporary !in pruned then r.Err? && after == pruned
       else if !Admits(limits, pruned[temporary]) then r == Ok(false) && after == pruned - {temporary}
       else Pruned(Renamed(pruned, temporary, destination), after, later, limits) && r == Ok(destination in after)
  }

  lemma SortedLists(files: map<string, File>, entries: seq<Entry>, order: seq<Entry>)
    requires Lists(files, entries) && ByAge(order) && forall e :: e in order <==> e in entries
    ensures Lists(files, order)
  {
    hide Managed;
    forall i, j | 0 <= i < j < |order| ensures order[i].name != order[j].name {
      assert order[i] in order && order[j] in order;
      OlderIsOneWay(order[i], order[j]);
      assert Older(order[i], order[j]);
    }
  }

  /** Of the temporary files, pruning removes those whose process is gone and no other. */
  lemma TemporariesGo(before: map<string, File>, after: map<string, File>, name: string, process: string, world: World, limits: Limits)
    requires Pruned(before, after, world, limits) && name in before && TemporaryOf(name, process)
    ensures name in after <==> world.alive(process)
    ensures name in after ==> after[name] == before[name]
  {
    hide Pruned, Managed, Abandoned, TemporaryOf;
    TemporaryIsNotManaged(name, process);
    AbandonedMeans(name, world.alive);
    UnmanagedStays(before, after, name, world, limits);
  }

  lemma RemovesNext(order: seq<Entry>, k: nat)
    requires k < |order|
    ensures NamesOf(order[..k + 1]) == NamesOf(order[..k]) + {order[k].name}
  {
    var a, b := order[..k], order[..k + 1];
    assert b[k] == order[k];
    assert forall j :: 0 <= j < k ==> a[j] == b[j];
  }

  lemma UnmanagedStays(before: map<string, File>, after: map<string, File>, name: string, world: World, limits: Limits)
    requires Pruned(before, after, world, limits) && !Managed(name)
    ensures name in after <==> name in before && !Abandoned(name, world.alive)
    ensures name in after ==> after[name] == before[name]
  {
    hide Managed, Lists, ByAge, Stops, Abandoned;
    var order, k :| PrunedBy(before, after, order, k, world, limits);
    LeavesTheSuffix(before, after, order, k, world, limits);
  }

  // Sizes

  function Without(entries: seq<Entry>, k: nat): seq<Entry>
    requires k < |entries|
  {
    entries[..k] + entries[k + 1..]
  }

  lemma TotalWithout(entries: seq<Entry>, k: nat)
    requires k < |entries|
    ensures Total(entries) == Total(Without(entries, k)) + entries[k].length
  {
    var a, b := entries[..k], entries[k + 1..];
    assert entries == a + ([entries[k]] + b);
    TotalAppend(a, [entries[k]] + b);
    TotalAppend([entries[k]], b);
    TotalAppend(a, b);
    assert [entries[k]][1..] == [];
  }

  lemma WithoutMembers(entries: seq<Entry>, k: nat)
    requires k < |entries| && DistinctNames(entries)
    ensures DistinctNames(Without(entries, k))
    ensures forall e :: e in Without(entries, k) <==> e in entries && e.name != entries[k].name
  {
    var rest := Without(entries, k);
    assert forall i :: 0 <= i < |rest| ==> rest[i] == entries[if i < k then i else i + 1];
    forall e | e in entries && e.name != entries[k].name ensures e in rest {
      var i :| 0 <= i < |entries| && entries[i] == e;
      assert rest[if i < k then i else i - 1] == e;
    }
  }

  /** Distinct entries of a list weigh no more than the list. */
  lemma {:induction false} PartWeighsLess(part: seq<Entry>, whole: seq<Entry>)
    requires DistinctNames(part) && DistinctNames(whole) && forall e :: e in part ==> e in whole
    ensures Total(part) <= Total(whole)
    decreases |part|
  {
    if part != [] {
      hide DistinctNames;
      assert part[0] in whole;
      var k :| 0 <= k < |whole| && whole[k] == part[0];
      WithoutMembers(part, 0);
      WithoutMembers(whole, k);
      PartWeighsLess(Without(part, 0), Without(whole, k));
      TotalWithout(part, 0);
      TotalWithout(whole, k);
    }
  }

  lemma OthersWereThere(before: map<string, File>, pruned: map<string, File>, temporary: string, destination: string,
                        order: seq<Entry>, other: seq<Entry>, k: nat)
    requires forall name :: name in pruned ==> name in before && pruned[name] == before[name]
    requires temporary in pruned && !Managed(temporary) && Lists(before, order)
    requires Lists(Renamed(pruned, temporary, destination), other) && k < |other|
    requires other[k] == EntryOf(Renamed(pruned, temporary, destination), destination)
    ensures forall e :: e in Without(other, k) ==> e in order
    ensures DistinctNames(Without(other, k)) && DistinctNames(order)
  {
    hide Managed;
    WithoutMembers(other, k);
    forall e | e in Without(other, k) ensures e in order {
      assert e.name in pruned && EntryOf(before, e.name) in order;
    }
  }

  /** A file that replaces or joins the entries adds at most its own size. */
  lemma RenamedFits(before: map<string, File>, pruned: map<string, File>, temporary: string, destination: string, order: seq<Entry>)
    requires forall name :: name in pruned ==> name in before && pruned[name] == before[name]
    requires temporary in pruned && Managed(destination) && !Managed(temporary)
    requires SizesFit(before, pruned[temporary].length) && Lists(before, order)
    ensures SizesFit(Renamed(pruned, temporary, destination), 0)
  {
    hide Managed;
    var renamed := Renamed(pruned, temporary, destination);
    forall other | Lists(renamed, other) ensures Total(other) <= U64_MAX {
      var k :| 0 <= k < |other| && other[k] == EntryOf(renamed, destination);
      OthersWereThere(before, pruned, temporary, destination, order, other, k);
      hide Lists, Renamed;
      PartWeighsLess(Without(other, k), order);
      TotalWithout(other, k);
    }
  }

  ghost predicate WithinLimits(files: map<string, File>, world: World, limits: Limits) {
    exists order, i: nat :: ByAge(order) && Lists(files, order) && Allowed(order, world.clock(i), limits)
  }

  lemma PrunedWithinLimits(before: map<string, File>, after: map<string, File>, world: World, limits: Limits)
    requires Pruned(before, after, world, limits) && SizesFit(before, 0)
    ensures WithinLimits(after, world, limits)
  {
    hide Lists, ByAge, StopsFirst, Allowed;
    var order, k :| PrunedBy(before, after, order, k, world, limits);
    PruningMeetsLimits(before, after, order, k, world, limits);
    LeavesTheSuffix(before, after, order, k, world, limits);
    assert ByAge(order[k..]) && Lists(after, order[k..]) && Allowed(order[k..], world.clock(k), limits);
  }

  lemma LosesUnmanaged(files: map<string, File>, name: string, world: World, limits: Limits)
    requires WithinLimits(files, world, limits) && !Managed(name)
    ensures WithinLimits(files - {name}, world, limits)
  {
    hide ByAge, Allowed, Managed;
    var order, i: nat :| ByAge(order) && Lists(files, order) && Allowed(order, world.clock(i), limits);
    assert Lists(files - {name}, order);
  }

  /** However publishing ends, the directory is within its limits. What it reports as published is
      there, and a file that fits, is newer than all others and is not expired is published. */
  lemma PublishingMeetsLimits(before: map<string, File>, pruned: map<string, File>, after: map<string, File>,
                              temporary: string, destination: string, first: World, later: World, limits: Limits, r: Result<bool, string>)
    requires Published(before, pruned, after, temporary, destination, first, later, limits, r)
    requires !Managed(temporary) && Managed(destination)
    requires SizesFit(before, if temporary in before then before[temporary].length else 0)
    ensures WithinLimits(after, if r.Ok? && limits.entries > 0 && before[temporary].length <= limits.bytes then later else first, limits)
    ensures r.Ok? ==> temporary in before
    ensures r == Ok(true) ==> destination in after
    ensures r.Ok? && limits.entries > 0 && before[temporary].length <= limits.bytes
            && Newest(Renamed(pruned, temporary, destination), destination)
            && (forall i :: !Expired(EntryOf(Renamed(pruned, temporary, destination), destination), later.clock(i), limits)) ==>
              r == Ok(true) && after[destination] == before[temporary]
  {
    hide Managed, Lists, ByAge, Stops, Allowed, Older, Expired, Newest, Abandoned, StopsFirst, WithinLimits;
    assert SizesFit(before, 0);
    PrunedWithinLimits(before, pruned, first, limits);
    PrunedKeepsFiles(before, pruned, first, limits);
    if r.Ok? && limits.entries > 0 && before[temporary].length <= limits.bytes {
      var renamed := Renamed(pruned, temporary, destination);
      var order, k :| PrunedBy(before, pruned, order, k, first, limits);
      RenamedFits(before, pruned, temporary, destination, order);
      PrunedWithinLimits(renamed, after, later, limits);
      if Newest(renamed, destination) && forall i :: !Expired(EntryOf(renamed, destination), later.clock(i), limits) {
        NewestSurvives(renamed, after, destination, later, limits);
      }
    } else if r.Ok? {
      LosesUnmanaged(pruned, temporary, first, limits);
    }
  }

  lemma PrunedKeepsFiles(before: map<string, File>, after: map<string, File>, world: World, limits: Limits)
    requires Pruned(before, after, world, limits)
    ensures forall name :: name in after ==> name in before && after[name] == before[name]
  {
    hide Managed, Lists, ByAge, Stops, Abandoned;
    var order, k :| PrunedBy(before, after, order, k, world, limits);
    LeavesTheSuffix(before, after, order, k, world, limits);
  }

  /** A directory that pruning leaves beyond its byte limit, because its sizes do not add up within 64 bits. */
  lemma ExampleStaysOver()
    ensures var limits := Limits(LARGEST + 1, 3, 2);
            var world := World(_ => true, _ => 2);
            exists after, order :: Pruned(ExampleDirectory(), after, world, limits) && Lists(after, order) && Total(order) > limits.bytes
  {
    hide Managed, ExampleName, ExampleDirectory, ExampleOrder, ByAge, Lists, StopsFirst, Reaped, NamesOf, Cut, Total;
    var limits, world := Limits(LARGEST + 1, 3, 2), World(_ => true, _ => 2);
    SaturationHidesBytes();
    var order := ExampleOrder();
    ExampleLength();
    var after := Reaped(ExampleDirectory(), world.alive) - NamesOf(order[..1]);
    SameClock(order, 1, limits);
    assert PrunedBy(ExampleDirectory(), after, order, 1, world, limits);
    LeavesTheSuffix(ExampleDirectory(), after, order, 1, world, limits);
    assert Lists(after, order[1..]);
  }

  lemma ExampleLength()
    ensures |ExampleOrder()| == 3
  {
  }

  lemma SameClock(order: seq<Entry>, k: nat, limits: Limits)
    requires StopsFirst(order, k, _ => 2, limits)
    ensures StopsFirst(order, k, World(_ => true, _ => 2).clock, limits)
  {
    hide Expired, Tracked;
    var clock := World(_ => true, _ => 2).clock;
    forall j | 0 <= j < |order| ensures Stops(order, j, clock, limits) <==> Stops(order, j, _ => 2, limits) {
    }
  }
}
