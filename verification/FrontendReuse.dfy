/** Reuse of an elaborated program while the sources it depends on stay the same. */
module FrontendReuse {
  import opened Prelude
  import T = CodecTrees

  const SCHEMA := "probe-frontend-cache-metadata/1"

  datatype Resolution = Resolution(requested: string, declared: string, identity: string)

  datatype Program = Program(name: string, dependencies: seq<string>, body: string)

  datatype Source = Source(name: string, text: string)

  datatype Dependency = Dependency(name: string, hash: string)

  datatype Metadata = Metadata(
    schema: string, name: string, hash: string, dependencies: seq<string>, sources: seq<Dependency>, resolved: seq<Resolution>)

  /** What the elaborator answers; it may fail. */
  datatype Elaboration = Elaboration(program: Option<Program>, resolutions: seq<Resolution>)

  /** An elaborator is given a module's name and text, and the sources by name. */
  type Elaborator = (string, string, map<string, string>) -> Elaboration

  datatype Hashing = Hashing(hash: string -> string, identity: string -> string)

  ghost predicate Injective(f: string -> string) {
    forall a, b :: f(a) == f(b) ==> a == b
  }

  /** The sources by name; of sources that share one, the last. */
  function ByName(closure: seq<Source>): map<string, string> {
    if closure == [] then map[]
    else ByName(closure[..|closure| - 1])[closure[|closure| - 1].name := closure[|closure| - 1].text]
  }

  ghost predicate DistinctSources(closure: seq<Source>) {
    forall i, j :: 0 <= i < j < |closure| ==> closure[i].name != closure[j].name
  }

  ghost predicate Same(a: map<string, string>, b: map<string, string>, name: string) {
    (name in a <==> name in b) && (name in a ==> a[name] == b[name])
  }

  /** The answer depends on no source but those of the modules it says it resolved. */
  ghost predicate ReadsOnlyResolved(e: Elaborator) {
    forall name, text, a, b ::
      (forall k :: 0 <= k < |e(name, text, a).resolutions| ==> Same(a, b, e(name, text, a).resolutions[k].requested))
      ==> e(name, text, b) == e(name, text, a)
  }

  // Sorted lists of strings

  ghost predicate Ascending(s: seq<string>) {
    forall i, j :: 0 <= i < j < |s| ==> T.Before(s[i], s[j])
  }

  function Itself(s: string): string {
    s
  }

  function Sorted(s: seq<string>): seq<string> {
    T.SortBy(s, Itself)
  }

  lemma SortedAscends(s: seq<string>)
    requires Distinct(s)
    ensures Ascending(Sorted(s)) && forall x :: x in Sorted(s) <==> x in s
  {
    T.SortHolds(s, Itself);
    T.SortMembers(s, Itself);
    SortedDistinct(s);
    var q := Sorted(s);
    forall i, j | 0 <= i < j < |q| ensures T.Before(q[i], q[j]) {
      T.BeforeTotal(q[i], q[j]);
    }
  }

  lemma SortedDistinct(s: seq<string>)
    ensures Distinct(Sorted(s)) <==> Distinct(s)
  {
    T.SortHolds(s, Itself);
    DistinctByCount(s);
    DistinctByCount(Sorted(s));
  }

  lemma {:induction false} DistinctByCount(s: seq<string>)
    ensures Distinct(s) <==> forall x :: multiset(s)[x] <= 1
  {
    if s != [] {
      var before, last := s[..|s| - 1], s[|s| - 1];
      assert s == before + [last];
      DistinctByCount(before);
      DistinctAppend(before, [last]);
      assert multiset(s) == multiset(before) + multiset{last};
      if Distinct(s) {
        assert last in [last];
        assert last !in before;
        forall x ensures multiset(s)[x] <= 1 {
          assert multiset(before)[x] <= 1;
        }
      }
      if forall x :: multiset(s)[x] <= 1 {
        forall x ensures multiset(before)[x] <= 1 {
          assert multiset(s)[x] <= 1;
        }
        assert multiset(s)[last] <= 1;
        assert last !in multiset(before);
      }
    }
  }

  lemma {:induction false} AscendingUnique(a: seq<string>, b: seq<string>)
    requires Ascending(a) && Ascending(b) && forall x :: x in a <==> x in b
    ensures a == b
    decreases |a|
  {
    hide T.Before;
    FirstIsLeast(a);
    FirstIsLeast(b);
    if a != [] && b != [] {
      T.BeforeTotal(a[0], b[0]);
      TailMembers(a);
      TailMembers(b);
      AscendingUnique(a[1..], b[1..]);
      assert a == [a[0]] + a[1..] && b == [b[0]] + b[1..];
    }
  }

  lemma FirstIsLeast(a: seq<string>)
    requires Ascending(a)
    ensures a != [] ==> a[0] in a && forall x :: x in a ==> x == a[0] || T.Before(a[0], x)
  {
  }

  lemma TailMembers(a: seq<string>)
    requires a != [] && Ascending(a)
    ensures forall x :: x in a[1..] <==> x in a && x != a[0]
    ensures Ascending(a[1..])
  {
    assert a == [a[0]] + a[1..];
    T.BeforeTotal(a[0], a[0]);
    forall k | 1 <= k < |a| ensures a[k] != a[0] {
      T.BeforeTotal(a[0], a[k]);
    }
  }

  /** The elements of a set in order. */
  method Enumerate(s: set<string>) returns (q: seq<string>)
    ensures Ascending(q) && forall x :: x in q <==> x in s
  {
    var list := [];
    var left := s;
    while left != {}
      invariant left <= s && Distinct(list)
      invariant forall x :: x in list <==> x in s - left
    {
      var x :| x in left;
      assert x !in list;
      left := left - {x};
      list := list + [x];
    }
    SortedAscends(list);
    q := Sorted(list);
  }

  // Metadata

  /** Adjacent equal elements of a sorted list: something occurs twice. */
  predicate HasAdjacentTwins(s: seq<string>) {
    exists k :: 0 <= k < |s| - 1 && s[k] == s[k + 1]
  }

  lemma TwinsAreAdjacent(s: seq<string>)
    ensures HasAdjacentTwins(Sorted(s)) <==> !Distinct(s)
  {
    hide T.Before;
    T.SortHolds(s, Itself);
    SortedDistinct(s);
    var q := Sorted(s);
    if !HasAdjacentTwins(q) {
      forall i, j | 0 <= i < j < |q| ensures q[i] != q[j] {
        T.BeforeTotal(q[i], q[i + 1]);
        T.BeforeTotal(q[i + 1], q[j]);
        T.BeforeTotal(q[i], q[j]);
        if q[i] == q[j] {
          assert T.Before(q[i], q[i + 1]);
        }
      }
    }
  }

  ghost predicate Consistent(resolutions: seq<Resolution>) {
    forall i, j :: 0 <= i < |resolutions| && 0 <= j < |resolutions| && resolutions[i].requested == resolutions[j].requested ==>
      resolutions[i] == resolutions[j]
  }

  ghost function Requested(resolutions: seq<Resolution>): set<string> {
    set k | 0 <= k < |resolutions| :: resolutions[k].requested
  }

  ghost function Identities(resolutions: seq<Resolution>): set<string> {
    set k | 0 <= k < |resolutions| :: resolutions[k].identity
  }

  ghost function Members(s: seq<string>): set<string> {
    set x | x in s
  }

  ghost predicate Cacheable(h: Hashing, name: string, text: string, program: Program, resolutions: seq<Resolution>, closure: seq<Source>) {
    var sources := ByName(closure);
    && name in sources && sources[name] == text
    && Distinct(program.dependencies)
    && (forall k :: 0 <= k < |resolutions| ==>
      h.identity(resolutions[k].declared) == resolutions[k].identity && resolutions[k].requested in sources)
    && Consistent(resolutions)
    && Identities(resolutions) == Members(program.dependencies)
  }

  /** The rows, by requested name. */
  ghost predicate Describes(m: Metadata, h: Hashing, name: string, text: string, program: Program, resolutions: seq<Resolution>, sources: map<string, string>) {
    && m.schema == "probe-frontend-cache-metadata/1" && m.name == name && m.hash == h.hash(text)
    && m.dependencies == Sorted(program.dependencies)
    && |m.sources| == |m.resolved|
    && (forall i, j :: 0 <= i < j < |m.resolved| ==> T.Before(m.resolved[i].requested, m.resolved[j].requested))
    && (forall r :: r in m.resolved <==> r in resolutions)
    && (forall k :: 0 <= k < |m.resolved| ==>
      && m.resolved[k].requested in sources
      && m.sources[k] == Dependency(m.resolved[k].requested, h.hash(sources[m.resolved[k].requested])))
  }

  method IndexSources(closure: seq<Source>) returns (sources: map<string, string>)
    ensures sources == ByName(closure)
  {
    sources := map[];
    for k := 0 to |closure|
      invariant sources == ByName(closure[..k])
    {
      assert closure[..k + 1][..k] == closure[..k];
      sources := sources[closure[k].name := closure[k].text];
    }
    assert closure[..|closure|] == closure;
  }

  ghost predicate Rows(rows: map<string, Resolution>, resolutions: seq<Resolution>) {
    && (forall r :: r in resolutions ==> r.requested in rows && rows[r.requested] == r)
    && (forall name :: name in rows ==> rows[name].requested == name && rows[name] in resolutions)
  }

  method CollectRows(h: Hashing, resolutions: seq<Resolution>, sources: map<string, string>) returns (r: Option<map<string, Resolution>>)
    ensures r.Some? <==>
      && (forall k :: 0 <= k < |resolutions| ==>
        h.identity(resolutions[k].declared) == resolutions[k].identity && resolutions[k].requested in sources)
      && Consistent(resolutions)
    ensures r.Some? ==> Rows(r.value, resolutions)
  {
    var rows: map<string, Resolution> := map[];
    for k := 0 to |resolutions|
      invariant forall i :: 0 <= i < k ==> h.identity(resolutions[i].declared) == resolutions[i].identity && resolutions[i].requested in sources
      invariant Rows(rows, resolutions[..k])
    {
      var row := resolutions[k];
      if h.identity(row.declared) != row.identity || row.requested !in sources {
        return None;
      }
      if row.requested in rows && rows[row.requested] != row {
        var i :| 0 <= i < k && resolutions[..k][i] == rows[row.requested];
        assert resolutions[i].requested == row.requested;
        return None;
      }
      assert resolutions[..k + 1] == resolutions[..k] + [row];
      rows := rows[row.requested := row];
    }
    assert resolutions[..|resolutions|] == resolutions;
    return Some(rows);
  }

  /** What is recorded beside a program, if the sources and resolutions it came with fit together. */
  method CacheMetadata(h: Hashing, name: string, text: string, program: Program, resolutions: seq<Resolution>, closure: seq<Source>)
    returns (r: Option<Metadata>)
    ensures r.Some? <==> Cacheable(h, name, text, program, resolutions, closure)
    ensures r.Some? ==> Describes(r.value, h, name, text, program, resolutions, ByName(closure))
  {
    hide Sorted, Consistent, T.Before, Distinct, ByName, HasAdjacentTwins, Rows, Ascending, Identities;
    var sources := IndexSources(closure);
    if name !in sources || sources[name] != text {
      return None;
    }
    var dependencies := Sorted(program.dependencies);
    TwinsAreAdjacent(program.dependencies);
    if HasAdjacentTwins(dependencies) {
      return None;
    }
    var collected := CollectRows(h, resolutions, sources);
    if collected.None? {
      return None;
    }
    var rows := collected.value;
    var identities := set requested | requested in rows :: rows[requested].identity;
    RowIdentities(rows, resolutions);
    SortedAscends(program.dependencies);
    if identities != set x | x in dependencies {
      return None;
    }
    var requested := Enumerate(rows.Keys);
    RowsInSources(rows, resolutions, sources);
    var listed, resolved := ListRows(h, rows, sources, requested);
    RowsInOrder(rows, resolutions, requested, resolved);
    return Some(Metadata(SCHEMA, name, h.hash(text), dependencies, listed, resolved));
  }

  lemma RowIdentities(rows: map<string, Resolution>, resolutions: seq<Resolution>)
    requires Rows(rows, resolutions)
    ensures Identities(resolutions) == set requested | requested in rows :: rows[requested].identity
  {
    forall requested | requested in rows ensures rows[requested].identity in Identities(resolutions) {
      var k :| 0 <= k < |resolutions| && resolutions[k] == rows[requested];
    }
    forall k | 0 <= k < |resolutions| ensures resolutions[k].identity in set requested | requested in rows :: rows[requested].identity {
      assert resolutions[k] in resolutions;
      assert resolutions[k].requested in rows;
    }
  }

  lemma RowsInSources(rows: map<string, Resolution>, resolutions: seq<Resolution>, sources: map<string, string>)
    requires Rows(rows, resolutions) && forall k :: 0 <= k < |resolutions| ==> resolutions[k].requested in sources
    ensures rows.Keys <= sources.Keys
  {
  }

  method ListRows(h: Hashing, rows: map<string, Resolution>, sources: map<string, string>, requested: seq<string>)
    returns (listed: seq<Dependency>, resolved: seq<Resolution>)
    requires forall x :: x in requested ==> x in rows && x in sources
    ensures |listed| == |resolved| == |requested|
    ensures forall k :: 0 <= k < |requested| ==> resolved[k] == rows[requested[k]]
    ensures forall k :: 0 <= k < |requested| ==> listed[k] == Dependency(requested[k], h.hash(sources[requested[k]]))
  {
    listed, resolved := [], [];
    for k := 0 to |requested|
      invariant |listed| == |resolved| == k
      invariant forall i :: 0 <= i < k ==> resolved[i] == rows[requested[i]]
      invariant forall i :: 0 <= i < k ==> listed[i] == Dependency(requested[i], h.hash(sources[requested[i]]))
    {
      assert requested[k] in requested;
      resolved := resolved + [rows[requested[k]]];
      listed := listed + [Dependency(requested[k], h.hash(sources[requested[k]]))];
    }
  }

  lemma RowsInOrder(rows: map<string, Resolution>, resolutions: seq<Resolution>, requested: seq<string>, resolved: seq<Resolution>)
    requires Rows(rows, resolutions) && Ascending(requested) && forall x :: x in requested <==> x in rows
    requires |resolved| == |requested| && forall k :: 0 <= k < |requested| ==> resolved[k] == rows[requested[k]]
    ensures forall r :: r in resolved <==> r in resolutions
    ensures forall k :: 0 <= k < |resolved| ==> resolved[k].requested == requested[k]
    ensures forall i, j :: 0 <= i < j < |resolved| ==> T.Before(resolved[i].requested, resolved[j].requested)
  {
    hide T.Before;
    forall r | r in resolved ensures r in resolutions {
      var k :| 0 <= k < |resolved| && resolved[k] == r;
      assert requested[k] in requested;
    }
    forall r | r in resolutions ensures r in resolved {
      assert r.requested in requested;
      var k :| 0 <= k < |requested| && requested[k] == r.requested;
      assert resolved[k] == r;
    }
    forall k | 0 <= k < |resolved| ensures resolved[k].requested == requested[k] {
      assert requested[k] in requested;
    }
  }

  // Matching

  ghost predicate SourcesMatch(h: Hashing, m: Metadata, closure: seq<Source>) {
    && DistinctSources(closure)
    && (forall i, j :: 0 <= i < j < |m.sources| ==> m.sources[i].name != m.sources[j].name)
    && (forall k :: 0 <= k < |m.sources| ==> m.sources[k].name in ByName(closure) && h.hash(ByName(closure)[m.sources[k].name]) == m.sources[k].hash)
  }

  ghost function SourceNames(m: Metadata): set<string> {
    set k | 0 <= k < |m.sources| :: m.sources[k].name
  }

  ghost predicate ResolvedMatch(h: Hashing, m: Metadata) {
    && (forall i, j :: 0 <= i < j < |m.resolved| ==>
      m.resolved[i].requested != m.resolved[j].requested && m.resolved[i].identity != m.resolved[j].identity)
    && (forall k :: 0 <= k < |m.resolved| ==> h.identity(m.resolved[k].declared) == m.resolved[k].identity)
    && Requested(m.resolved) == SourceNames(m)
    && Ascending(m.dependencies) && Members(m.dependencies) == Identities(m.resolved)
  }

  ghost predicate Matches(h: Hashing, m: Metadata, name: string, text: string, program: Program, closure: seq<Source>) {
    && m.schema == "probe-frontend-cache-metadata/1" && m.name == name && program.name == name && m.hash == h.hash(text)
    && Distinct(program.dependencies) && Sorted(program.dependencies) == m.dependencies
    && SourcesMatch(h, m, closure)
    && ResolvedMatch(h, m)
  }

  lemma ByNameHolds(closure: seq<Source>)
    ensures forall name :: name in ByName(closure) <==> exists k :: 0 <= k < |closure| && closure[k].name == name
  {
    if closure != [] {
      var before := closure[..|closure| - 1];
      ByNameHolds(before);
      forall name | name in ByName(closure) ensures exists k :: 0 <= k < |closure| && closure[k].name == name {
        if name in ByName(before) {
          var k :| 0 <= k < |before| && before[k].name == name;
          assert closure[k].name == name;
        } else {
          assert closure[|before|].name == name;
        }
      }
      forall k | 0 <= k < |closure| ensures closure[k].name in ByName(closure) {
        if k < |before| {
          assert before[k] == closure[k];
        }
      }
    }
  }

  /** A later source of a name hides an earlier one. */
  lemma {:induction false} LastSourceWins(closure: seq<Source>, name: string, text: string)
    ensures name in ByName(closure) && ByName(closure)[name] == text <==>
              exists k :: 0 <= k < |closure| && closure[k] == Source(name, text) && NoneAfter(closure, k, name)
  {
    if closure != [] {
      var n := |closure| - 1;
      var before := closure[..n];
      LastSourceWins(before, name, text);
      if k :| 0 <= k < n && before[k] == Source(name, text) && NoneAfter(before, k, name) {
        if closure[n].name != name {
          assert closure[k] == Source(name, text) && NoneAfter(closure, k, name);
        }
      }
      if k :| 0 <= k <= n && closure[k] == Source(name, text) && NoneAfter(closure, k, name) {
        if k < n {
          assert closure[n].name != name;
          assert before[k] == Source(name, text) && NoneAfter(before, k, name);
        }
      }
      assert NoneAfter(closure, n, name);
    }
  }

  ghost predicate NoneAfter(closure: seq<Source>, k: nat, name: string) {
    forall j :: k < j < |closure| ==> closure[j].name != name
  }

  /** The sources by name, if no name occurs twice. */
  method IndexDistinct(closure: seq<Source>) returns (r: Option<map<string, string>>)
    ensures r.Some? <==> DistinctSources(closure)
    ensures r.Some? ==> r.value == ByName(closure)
  {
    var current: map<string, string> := map[];
    for k := 0 to |closure|
      invariant current == ByName(closure[..k]) && DistinctSources(closure[..k])
    {
      assert closure[..k + 1][..k] == closure[..k];
      ByNameHolds(closure[..k]);
      if closure[k].name in current {
        var i :| 0 <= i < k && closure[..k][i].name == closure[k].name;
        assert closure[i].name == closure[k].name;
        return None;
      }
      current := current[closure[k].name := closure[k].text];
    }
    assert closure[..|closure|] == closure;
    return Some(current);
  }

  method MatchSources(h: Hashing, m: Metadata, closure: seq<Source>) returns (r: bool, names: set<string>)
    ensures r <==> SourcesMatch(h, m, closure)
    ensures r ==> names == SourceNames(m)
  {
    hide DistinctSources, ByName;
    names := {};
    var indexed := IndexDistinct(closure);
    if indexed.None? {
      return false, names;
    }
    var current := indexed.value;
    for k := 0 to |m.sources|
      invariant names == set i | 0 <= i < k :: m.sources[i].name
      invariant forall i, j :: 0 <= i < j < k ==> m.sources[i].name != m.sources[j].name
      invariant forall i :: 0 <= i < k ==> m.sources[i].name in current && h.hash(current[m.sources[i].name]) == m.sources[i].hash
    {
      var source := m.sources[k];
      if source.name in names || source.name !in current || h.hash(current[source.name]) != source.hash {
        return false, names;
      }
      names := names + {source.name};
    }
    r := true;
  }

  method MatchResolved(h: Hashing, m: Metadata, names: set<string>) returns (r: bool)
    requires names == SourceNames(m)
    ensures r <==> ResolvedMatch(h, m)
  {
    hide SourceNames, T.Before;
    var requested, identities: set<string> := {}, {};
    for k := 0 to |m.resolved|
      invariant requested == set i | 0 <= i < k :: m.resolved[i].requested
      invariant identities == set i | 0 <= i < k :: m.resolved[i].identity
      invariant forall i, j :: 0 <= i < j < k ==>
        m.resolved[i].requested != m.resolved[j].requested && m.resolved[i].identity != m.resolved[j].identity
      invariant forall i :: 0 <= i < k ==> h.identity(m.resolved[i].declared) == m.resolved[i].identity
    {
      var row := m.resolved[k];
      if row.requested in requested || h.identity(row.declared) != row.identity || row.identity in identities || row.requested !in names {
        assert row.requested in Requested(m.resolved);
        return false;
      }
      requested := requested + {row.requested};
      identities := identities + {row.identity};
    }
    assert requested == Requested(m.resolved) && identities == Identities(m.resolved);
    var listed := Enumerate(identities);
    if listed == m.dependencies {
      assert Members(m.dependencies) == identities;
    } else if Ascending(m.dependencies) && Members(m.dependencies) == identities {
      AscendingUnique(listed, m.dependencies);
    }
    return requested == names && listed == m.dependencies;
  }

  method CacheMatches(h: Hashing, metadata: Option<Metadata>, name: string, text: string, program: Program, closure: seq<Source>) returns (r: bool)
    ensures r <==> metadata.Some? && Matches(h, metadata.value, name, text, program, closure)
  {
    hide SourcesMatch, ResolvedMatch, Sorted, HasAdjacentTwins, Distinct;
    if metadata.None? {
      return false;
    }
    var m := metadata.value;
    if m.schema != SCHEMA || m.name != name || program.name != name || m.hash != h.hash(text) {
      return false;
    }
    TwinsAreAdjacent(program.dependencies);
    var dependencies := Sorted(program.dependencies);
    if HasAdjacentTwins(dependencies) || dependencies != m.dependencies {
      return false;
    }
    var names;
    r, names := MatchSources(h, m, closure);
    if r {
      r := MatchResolved(h, m, names);
    }
  }

  // When a cached program is reused

  ghost predicate OneName(resolutions: seq<Resolution>) {
    forall i, j :: 0 <= i < |resolutions| && 0 <= j < |resolutions| && resolutions[i].identity == resolutions[j].identity ==>
      resolutions[i].requested == resolutions[j].requested
  }

  ghost predicate DependenciesUnchanged(resolutions: seq<Resolution>, before: map<string, string>, after: map<string, string>) {
    forall r :: r in resolutions ==> r.requested in before && r.requested in after && after[r.requested] == before[r.requested]
  }

  ghost predicate Reusable(name: string, text: string, program: Program, resolutions: seq<Resolution>, closure: seq<Source>,
                           newName: string, newText: string, newClosure: seq<Source>) {
    && newName == name == program.name && newText == text
    && DistinctSources(newClosure)
    && DependenciesUnchanged(resolutions, ByName(closure), ByName(newClosure))
    && OneName(resolutions)
  }

  /** A cached program is reused exactly when the module and the sources it resolved are unchanged, no
      source name occurs twice, and no two request names led to one module. */
  lemma ReuseIsExact(h: Hashing, m: Metadata, name: string, text: string, program: Program, resolutions: seq<Resolution>, closure: seq<Source>,
                     newName: string, newText: string, newClosure: seq<Source>)
    requires Injective(h.hash) && Cacheable(h, name, text, program, resolutions, closure)
    requires Describes(m, h, name, text, program, resolutions, ByName(closure))
    ensures Matches(h, m, newName, newText, program, newClosure) <==>
            Reusable(name, text, program, resolutions, closure, newName, newText, newClosure)
  {
    hide Sorted, Distinct, ByName, T.Before, Injective, DistinctSources, Consistent, SourcesMatch, ResolvedMatch, DependenciesUnchanged, OneName;
    assert m.hash == h.hash(newText) <==> newText == text by {
      SameHash(h, text, newText);
    }
    SourcesMatchExactly(h, m, name, text, program, resolutions, closure, newClosure);
    ResolvedMatchesExactly(h, m, name, text, program, resolutions, closure);
  }

  lemma SameHash(h: Hashing, a: string, b: string)
    requires Injective(h.hash)
    ensures h.hash(a) == h.hash(b) <==> a == b
  {
  }

  lemma SourcesMatchExactly(h: Hashing, m: Metadata, name: string, text: string, program: Program, resolutions: seq<Resolution>, closure: seq<Source>, newClosure: seq<Source>)
    requires Injective(h.hash)
    requires Describes(m, h, name, text, program, resolutions, ByName(closure))
    ensures SourcesMatch(h, m, newClosure) <==> DistinctSources(newClosure) && DependenciesUnchanged(resolutions, ByName(closure), ByName(newClosure))
  {
    hide Sorted, ByName, T.Before, Injective, DistinctSources;
    forall i, j | 0 <= i < j < |m.sources| ensures m.sources[i].name != m.sources[j].name {
      T.BeforeTotal(m.resolved[i].requested, m.resolved[j].requested);
    }
    var before, after := ByName(closure), ByName(newClosure);
    forall k | 0 <= k < |m.resolved| && m.resolved[k].requested in after
      ensures h.hash(after[m.resolved[k].requested]) == m.sources[k].hash <==> after[m.resolved[k].requested] == before[m.resolved[k].requested]
    {
      SameHash(h, after[m.resolved[k].requested], before[m.resolved[k].requested]);
    }
    if SourcesMatch(h, m, newClosure) {
      forall r | r in resolutions ensures r.requested in before && r.requested in after && after[r.requested] == before[r.requested] {
        var k :| 0 <= k < |m.resolved| && m.resolved[k] == r;
        assert m.sources[k].name in after;
      }
    }
    if DependenciesUnchanged(resolutions, before, after) {
      forall k | 0 <= k < |m.sources| ensures m.sources[k].name in after && h.hash(after[m.sources[k].name]) == m.sources[k].hash {
        assert m.resolved[k] in resolutions;
      }
    }
  }

  lemma ResolvedMatchesExactly(h: Hashing, m: Metadata, name: string, text: string, program: Program, resolutions: seq<Resolution>, closure: seq<Source>)
    requires Cacheable(h, name, text, program, resolutions, closure)
    requires Describes(m, h, name, text, program, resolutions, ByName(closure))
    ensures ResolvedMatch(h, m) <==> OneName(resolutions)
  {
    hide Sorted, ByName, T.Before, Distinct, Consistent, Identities, OneName, OneIdentity, Requested, SourceNames;
    SortedAscends(program.dependencies);
    forall k | 0 <= k < |m.resolved| ensures h.identity(m.resolved[k].declared) == m.resolved[k].identity {
      assert m.resolved[k] in resolutions;
    }
    SameNames(m);
    SameIdentities(m.resolved, resolutions);
    forall i, j | 0 <= i < j < |m.resolved| ensures m.resolved[i].requested != m.resolved[j].requested {
      T.BeforeTotal(m.resolved[i].requested, m.resolved[j].requested);
    }
    OneNameEach(m.resolved, resolutions);
    assert OneIdentity(m.resolved) <==> forall i, j :: 0 <= i < j < |m.resolved| ==> m.resolved[i].identity != m.resolved[j].identity by {
      OneIdentityMeans(m.resolved);
    }
  }

  ghost predicate OneIdentity(rows: seq<Resolution>) {
    forall i, j :: 0 <= i < j < |rows| ==> rows[i].identity != rows[j].identity
  }

  lemma OneIdentityMeans(rows: seq<Resolution>)
    ensures OneIdentity(rows) <==> forall i, j :: 0 <= i < j < |rows| ==> rows[i].identity != rows[j].identity
  {
  }

  lemma SameNames(m: Metadata)
    requires |m.sources| == |m.resolved| && forall k :: 0 <= k < |m.resolved| ==> m.sources[k].name == m.resolved[k].requested
    ensures Requested(m.resolved) == SourceNames(m)
  {
  }

  /** Rows under different names have different identities exactly when no identity has two names. */
  lemma OneNameEach(rows: seq<Resolution>, resolutions: seq<Resolution>)
    requires forall r :: r in rows <==> r in resolutions
    requires forall i, j :: 0 <= i < j < |rows| ==> rows[i].requested != rows[j].requested
    ensures OneIdentity(rows) <==> OneName(resolutions)
  {
    if OneIdentity(rows) {
      forall i, j | 0 <= i < |resolutions| && 0 <= j < |resolutions| && resolutions[i].identity == resolutions[j].identity
        ensures resolutions[i].requested == resolutions[j].requested
      {
        assert resolutions[i] in rows && resolutions[j] in rows;
        var a :| 0 <= a < |rows| && rows[a] == resolutions[i];
        var b :| 0 <= b < |rows| && rows[b] == resolutions[j];
      }
    }
    if OneName(resolutions) {
      forall i, j | 0 <= i < j < |rows| ensures rows[i].identity != rows[j].identity {
        assert rows[i] in resolutions && rows[j] in resolutions;
        var a :| 0 <= a < |resolutions| && resolutions[a] == rows[i];
        var b :| 0 <= b < |resolutions| && resolutions[b] == rows[j];
      }
    }
  }

  lemma SameIdentities(a: seq<Resolution>, b: seq<Resolution>)
    requires forall r :: r in a <==> r in b
    ensures Identities(a) == Identities(b)
  {
    forall k | 0 <= k < |a| ensures a[k].identity in Identities(b) {
      assert a[k] in b;
    }
    forall k | 0 <= k < |b| ensures b[k].identity in Identities(a) {
      assert b[k] in a;
    }
  }

  /** Reuse is sound: elaborating again, from the sources of now, would give the cached program. */
  lemma ReuseIsSound(e: Elaborator, h: Hashing, m: Metadata, name: string, text: string, program: Program, resolutions: seq<Resolution>, closure: seq<Source>,
                     newName: string, newText: string, newClosure: seq<Source>)
    requires Injective(h.hash) && ReadsOnlyResolved(e)
    requires e(name, text, ByName(closure)) == Elaboration(Some(program), resolutions)
    requires Cacheable(h, name, text, program, resolutions, closure)
    requires Describes(m, h, name, text, program, resolutions, ByName(closure))
    requires Matches(h, m, newName, newText, program, newClosure)
    ensures e(newName, newText, ByName(newClosure)) == Elaboration(Some(program), resolutions)
  {
    hide Matches, Cacheable, Describes, ByName, Injective;
    ReuseIsExact(h, m, name, text, program, resolutions, closure, newName, newText, newClosure);
    forall k | 0 <= k < |resolutions| ensures Same(ByName(closure), ByName(newClosure), resolutions[k].requested) {
      assert resolutions[k] in resolutions;
    }
  }

  /** Reuse is complete: edits to modules that were not resolved, even new or removed ones, never cost
      a cached program, if each module it resolved was requested under one name. */
  lemma EditsElsewhereReuse(h: Hashing, m: Metadata, name: string, text: string, program: Program, resolutions: seq<Resolution>, closure: seq<Source>, edited: seq<Source>)
    requires Injective(h.hash) && Cacheable(h, name, text, program, resolutions, closure)
    requires Describes(m, h, name, text, program, resolutions, ByName(closure))
    requires program.name == name && OneName(resolutions) && DistinctSources(edited)
    requires forall x :: x in Requested(resolutions) ==> Same(ByName(closure), ByName(edited), x)
    ensures Matches(h, m, name, text, program, edited)
  {
    hide Matches, Describes, ByName, Injective, OneName, Consistent, Sorted;
    ReuseIsExact(h, m, name, text, program, resolutions, closure, name, text, edited);
    forall r | r in resolutions
      ensures r.requested in ByName(closure) && r.requested in ByName(edited) && ByName(edited)[r.requested] == ByName(closure)[r.requested]
    {
      var k :| 0 <= k < |resolutions| && resolutions[k] == r;
      assert resolutions[k].requested in Requested(resolutions);
    }
  }

  function PlainHashing(): Hashing {
    Hashing(s => s, s => s)
  }

  const TwoNames := [Resolution("a", "d", "d"), Resolution("b", "d", "d")]
  const TwoNamesClosure := [Source("a", "x"), Source("b", "x"), Source("m", "t")]
  const TwoNamesMetadata :=
    Metadata(SCHEMA, "m", "t", ["d"], [Dependency("a", "x"), Dependency("b", "x")], TwoNames)

  /** A program whose elaboration resolved one module under two names is recorded, with metadata
      that describes it, and then never reused: not even when nothing changed. */
  lemma TwoNamesNeverMatch(newName: string, newText: string, newClosure: seq<Source>)
    ensures var h, program := PlainHashing(), Program("m", ["d"], "");
            && Cacheable(h, "m", "t", program, TwoNames, TwoNamesClosure)
            && Describes(TwoNamesMetadata, h, "m", "t", program, TwoNames, ByName(TwoNamesClosure))
            && !Matches(h, TwoNamesMetadata, newName, newText, program, newClosure)
  {
    hide Matches, Describes, Cacheable;
    var h, program := PlainHashing(), Program("m", ["d"], "");
    ExampleCacheable(h, program);
    ExampleDescribed(h, program);
    assert !OneName(TwoNames) by {
      assert TwoNames[0].identity == TwoNames[1].identity && TwoNames[0].requested != TwoNames[1].requested;
    }
    ReuseIsExact(h, TwoNamesMetadata, "m", "t", program, TwoNames, TwoNamesClosure, newName, newText, newClosure);
  }

  lemma ExampleSources()
    ensures ByName(TwoNamesClosure) == map["a" := "x", "b" := "x", "m" := "t"]
  {
    var c := TwoNamesClosure;
    assert c[..2] == [c[0], c[1]] && c[..2][..1] == [c[0]] && [c[0]][..0] == [];
    assert ByName([c[0]]) == map["a" := "x"];
    assert ByName(c[..2]) == map["a" := "x", "b" := "x"];
  }

  lemma ExampleCacheable(h: Hashing, program: Program)
    requires h == PlainHashing() && program == Program("m", ["d"], "")
    ensures Cacheable(h, "m", "t", program, TwoNames, TwoNamesClosure)
  {
    hide ByName;
    ExampleSources();
    assert TwoNames[0].identity == "d";
    assert Identities(TwoNames) == {"d"} == Members(["d"]);
  }

  lemma ExampleDescribed(h: Hashing, program: Program)
    requires h == PlainHashing() && program == Program("m", ["d"], "")
    ensures Describes(TwoNamesMetadata, h, "m", "t", program, TwoNames, ByName(TwoNamesClosure))
  {
    hide ByName;
    ExampleSources();
    assert T.Before("a", "b");
    assert Sorted(["d"]) == ["d"];
  }
}
