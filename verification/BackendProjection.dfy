/** The part of a program that a backend is given for a selection of root functions. */
module BackendProjection {
  import opened Prelude
  import opened Reachability
  import opened CallGraph
  import L = ApplicationLowering

  datatype Selector = Selector(namespace: Option<string>, name: string)

  datatype Refusal =
    | Duplicate(id: Id)
    | NoMatch(selector: string)
    | Ambiguous(selector: string)
    | NoSpecialization(id: Id)
    | Undeclared(id: Id)
    | Invalid

  predicate SeparatorAt(text: string, k: nat) {
    k + 2 <= |text| && text[k] == ':' && text[k + 1] == ':'
  }

  /** A selector is split at its last `::`, if it has one. */
  method Parse(text: string) returns (r: Selector)
    ensures r == Parsed(text)
  {
    var k := |text|;
    while k > 0
      invariant k <= |text|
      invariant forall j :: k <= j ==> !SeparatorAt(text, j)
    {
      k := k - 1;
      if SeparatorAt(text, k) {
        LastSeparator(text, k);
        return Selector(Some(text[..k]), text[k + 2..]);
      }
    }
    return Selector(None, text);
  }

  ghost function Parsed(text: string): Selector {
    if k: nat :| SeparatorAt(text, k) && forall j: nat :: SeparatorAt(text, j) ==> j <= k then
      Selector(Some(text[..k]), text[k + 2..])
    else
      Selector(None, text)
  }

  lemma LastSeparator(text: string, k: nat)
    requires SeparatorAt(text, k) && forall j: nat :: k < j ==> !SeparatorAt(text, j)
    ensures Parsed(text) == Selector(Some(text[..k]), text[k + 2..])
  {
  }

  ghost predicate Cuts(text: string, before: string, after: string) {
    text == before + "::" + after
  }

  lemma SeparatorMeans(text: string, k: nat)
    ensures SeparatorAt(text, k) <==> k + 2 <= |text| && Cuts(text, text[..k], text[k + 2..])
  {
    if k + 2 <= |text| {
      assert text == text[..k] + text[k..k + 2] + text[k + 2..];
      assert text[k..k + 2] == [text[k], text[k + 1]];
      assert Cuts(text, text[..k], text[k + 2..]) ==> text[k] == ':' && text[k + 1] == ':';
    }
  }

  /** Without a `::` a selector is a name; with one it is cut at the last. */
  lemma ParseMeans(text: string)
    ensures Parsed(text).namespace.None? ==> Parsed(text).name == text && forall a, b :: !Cuts(text, a, b)
    ensures Parsed(text).namespace.Some? ==>
              && Cuts(text, Parsed(text).namespace.value, Parsed(text).name)
              && forall a, b :: Cuts(text, a, b) ==> |a| <= |Parsed(text).namespace.value|
  {
    hide SeparatorAt;
    forall a, b | Cuts(text, a, b) ensures SeparatorAt(text, |a|) {
      assert text[..|a|] == a && text[|a| + 2..] == b;
      SeparatorMeans(text, |a|);
    }
    if k: nat :| SeparatorAt(text, k) {
      SeparatorMeans(text, k);
      FindLast(text, k);
    }
  }

  /** Where there is a separator there is a last one. */
  lemma FindLast(text: string, k: nat)
    requires SeparatorAt(text, k)
    ensures exists last: nat :: SeparatorAt(text, last) && (forall j: nat :: SeparatorAt(text, j) ==> j <= last)
              && last + 2 <= |text| && Parsed(text) == Selector(Some(text[..last]), text[last + 2..]) && Cuts(text, text[..last], text[last + 2..])
    decreases |text| - k
  {
    if later: nat :| k < later && SeparatorAt(text, later) {
      FindLast(text, later);
    } else {
      LastSeparator(text, k);
      SeparatorMeans(text, k);
    }
  }

  /** The function `id` answers the selector: by its name, and by its namespace if one is asked for. */
  ghost predicate Answers(functions: seq<Function>, selector: Selector, id: Id) {
    && id in Index(functions)
    && id.FunctionId? && id.name == selector.name
    && (selector.namespace.Some? ==> id.namespace == selector.namespace.value)
  }

  ghost predicate AnswersOnce(functions: seq<Function>, selector: Selector) {
    exists id :: Answers(functions, selector, id) && forall other :: Answers(functions, selector, other) ==> other == id
  }

  ghost predicate Selectable(functions: seq<Function>, selectors: seq<string>) {
    && Unique(functions)
    && forall k :: 0 <= k < |selectors| ==> AnswersOnce(functions, Parsed(selectors[k]))
  }

  ghost predicate IsSelected(functions: seq<Function>, selectors: seq<string>, id: Id) {
    exists k :: 0 <= k < |selectors| && Answers(functions, Parsed(selectors[k]), id)
  }

  ghost function Selected(functions: seq<Function>, selectors: seq<string>): set<Id> {
    set id | id in Index(functions) && IsSelected(functions, selectors, id)
  }

  lemma UniqueNext(functions: seq<Function>, f: Function)
    requires Unique(functions)
    ensures Unique(functions + [f]) <==> IdOf(f) !in Index(functions)
    ensures Index(functions + [f]) == Index(functions)[IdOf(f) := f]
  {
    hide IdOf;
    var more := functions + [f];
    assert more[..|more| - 1] == functions;
    IndexFinds(functions);
    if IdOf(f) in Index(functions) {
      var k :| 0 <= k < |functions| && functions[k] == Index(functions)[IdOf(f)];
      assert IdOf(more[k]) == IdOf(more[|functions|]);
    }
  }

  lemma UniquePrefix(functions: seq<Function>, k: nat)
    requires k <= |functions| && Unique(functions)
    ensures Unique(functions[..k])
  {
  }

  ghost predicate Repeated(functions: seq<Function>, id: Id) {
    exists j, k :: 0 <= j < k < |functions| && IdOf(functions[j]) == id == IdOf(functions[k])
  }

  method IndexUnique(functions: seq<Function>) returns (r: Result<map<Id, Function>, Refusal>)
    ensures r.Ok? <==> Unique(functions)
    ensures r.Ok? ==> r.value == Index(functions)
    ensures r.Err? ==> r.error.Duplicate? && Repeated(functions, r.error.id)
  {
    hide Unique, Index;
    var index := map[];
    assert functions[..0] == [];
    UniqueEmpty();
    for k := 0 to |functions|
      invariant index == Index(functions[..k]) && Unique(functions[..k])
    {
      var identity := IdOf(functions[k]);
      assert functions[..k + 1] == functions[..k] + [functions[k]];
      UniqueNext(functions[..k], functions[k]);
      if identity in index {
        if Unique(functions) {
          UniquePrefix(functions, k + 1);
        }
        IndexFinds(functions[..k]);
        var j :| 0 <= j < k && functions[..k][j] == index[identity];
        assert functions[j] == functions[..k][j];
        return Err(Duplicate(identity));
      }
      index := index[identity := functions[k]];
    }
    assert functions[..|functions|] == functions;
    return Ok(index);
  }

  lemma UniqueEmpty()
    ensures Unique([]) && Index([]) == map[]
  {
  }

  /** The identities of the functions that answer, in the program's order. */
  method Candidates(functions: seq<Function>, selector: Selector) returns (found: seq<Id>)
    requires Unique(functions)
    ensures forall id :: id in found <==> Answers(functions, selector, id)
    ensures Distinct(found)
  {
    found := [];
    IndexFinds(functions);
    for k := 0 to |functions|
      invariant forall id :: id in found ==> Answers(functions, selector, id)
      invariant forall id :: id in found ==> exists j :: 0 <= j < k && IdOf(functions[j]) == id
      invariant forall j :: 0 <= j < k && Answers(functions, selector, IdOf(functions[j])) ==> IdOf(functions[j]) in found
      invariant Distinct(found)
    {
      var f := functions[k];
      if f.name == selector.name && (selector.namespace.Some? ==> f.namespace == selector.namespace.value) {
        assert IdOf(f) !in found;
        found := found + [IdOf(f)];
      }
    }
    forall id | Answers(functions, selector, id) ensures id in found {
      var k :| 0 <= k < |functions| && functions[k] == Index(functions)[id];
    }
  }

  method SelectOne(functions: seq<Function>, text: string) returns (r: Result<Id, Refusal>)
    requires Unique(functions)
    ensures r.Ok? <==> AnswersOnce(functions, Parsed(text))
    ensures r.Ok? ==> forall id :: Answers(functions, Parsed(text), id) <==> id == r.value
    ensures r.Err? ==> SelectorRefused(functions, text, r.error)
  {
    hide Answers, AnswersOnce, TwoAnswer, Parsed, Unique, Distinct;
    var selector := Parse(text);
    var found := Candidates(functions, selector);
    HowMany(functions, selector, found);
    if |found| == 1 {
      return Ok(found[0]);
    }
    if found == [] {
      return Err(NoMatch(text));
    }
    return Err(Ambiguous(text));
  }

  /** No function answers the selector, or two do. */
  ghost predicate SelectorRefused(functions: seq<Function>, text: string, refusal: Refusal) {
    || (refusal == NoMatch(text) && forall id :: !Answers(functions, Parsed(text), id))
    || (refusal == Ambiguous(text) && TwoAnswer(functions, Parsed(text)))
  }

  ghost predicate TwoAnswer(functions: seq<Function>, selector: Selector) {
    exists a, b :: a != b && Answers(functions, selector, a) && Answers(functions, selector, b)
  }

  lemma HowMany(functions: seq<Function>, selector: Selector, found: seq<Id>)
    requires Distinct(found) && forall id :: id in found <==> Answers(functions, selector, id)
    ensures AnswersOnce(functions, selector) <==> |found| == 1
    ensures |found| == 1 ==> forall id :: Answers(functions, selector, id) <==> id == found[0]
    ensures found == [] <==> forall id :: !Answers(functions, selector, id)
    ensures |found| > 1 ==> TwoAnswer(functions, selector)
  {
    hide Answers, TwoAnswer;
    if |found| > 1 {
      ManyAnswer(functions, selector, found);
    }
    assert |found| > 0 ==> found[0] in found;
  }

  lemma ManyAnswer(functions: seq<Function>, selector: Selector, found: seq<Id>)
    requires Distinct(found) && |found| > 1 && forall id :: id in found <==> Answers(functions, selector, id)
    ensures TwoAnswer(functions, selector)
    ensures !AnswersOnce(functions, selector)
  {
    hide Answers;
    assert found[0] != found[1] && found[0] in found && found[1] in found;
    assert Answers(functions, selector, found[0]) && Answers(functions, selector, found[1]);
  }

  /** Every selector names one function; the functions they name are the roots. */
  method SelectRoots(functions: seq<Function>, selectors: seq<string>) returns (index: map<Id, Function>, r: Result<set<Id>, Refusal>)
    ensures r.Ok? <==> Selectable(functions, selectors)
    ensures r.Ok? ==> index == Index(functions) && r.value == Selected(functions, selectors)
    ensures r.Err? ==> SelectionRefused(functions, selectors, r.error)
  {
    hide Index, AnswersOnce, SelectorRefused, Repeated;
    var indexed := IndexUnique(functions);
    if indexed.Err? {
      return map[], Err(indexed.error);
    }
    index := indexed.value;
    var roots: set<Id> := {};
    for k := 0 to |selectors|
      invariant forall j :: 0 <= j < k ==> AnswersOnce(functions, Parsed(selectors[j]))
      invariant forall id :: id in roots <==> IsSelected(functions, selectors[..k], id)
    {
      var root := SelectOne(functions, selectors[k]);
      if root.Err? {
        return map[], Err(root.error);
      }
      assert selectors[..k + 1] == selectors[..k] + [selectors[k]];
      SelectedNext(functions, selectors[..k], selectors[k]);
      roots := roots + {root.value};
    }
    assert selectors[..|selectors|] == selectors;
    assert roots == Selected(functions, selectors);
    return index, Ok(roots);
  }

  ghost predicate SelectionRefused(functions: seq<Function>, selectors: seq<string>, refusal: Refusal) {
    || (refusal.Duplicate? && Repeated(functions, refusal.id))
    || exists k :: 0 <= k < |selectors| && SelectorRefused(functions, selectors[k], refusal)
  }

  lemma SelectedNext(functions: seq<Function>, selectors: seq<string>, last: string)
    ensures forall id :: IsSelected(functions, selectors + [last], id) <==>
                         IsSelected(functions, selectors, id) || Answers(functions, Parsed(last), id)
  {
    hide Answers;
    var all := selectors + [last];
    forall id ensures IsSelected(functions, all, id) <==> IsSelected(functions, selectors, id) || Answers(functions, Parsed(last), id) {
      if IsSelected(functions, selectors, id) {
        var k :| 0 <= k < |selectors| && Answers(functions, Parsed(selectors[k]), id);
        assert all[k] == selectors[k];
      }
      assert all[|selectors|] == last;
    }
  }

  ghost predicate IsGeneric(functions: seq<Function>, id: Id) {
    id in Index(functions) && Index(functions)[id].isGeneric
  }

  ghost function Templates(functions: seq<Function>, selected: set<Id>): set<Id> {
    set id | id in selected && IsGeneric(functions, id)
  }

  /** The concrete functions that the records give for these generic ones. */
  ghost function Targets(records: seq<Specialization>, owners: set<Id>): set<Id> {
    set k | 0 <= k < |records| && records[k].generalized in owners :: records[k].specialized
  }

  /** The generic functions that the records give for these concrete ones. */
  ghost function Owners(records: seq<Specialization>, targets: set<Id>): set<Id> {
    set k | 0 <= k < |records| && records[k].specialized in targets :: records[k].generalized
  }

  ghost predicate HasRecord(records: seq<Specialization>, owner: Id) {
    exists k :: 0 <= k < |records| && records[k].generalized == owner
  }

  /** A selected generic function stands for its specializations. */
  ghost function ExecutableRoots(program: Program, selected: set<Id>): set<Id> {
    var templates := Templates(program.functions, selected);
    selected - templates + Targets(program.specializations, templates)
  }

  ghost predicate Specializable(program: Program, selected: set<Id>) {
    forall id :: id in Templates(program.functions, selected) ==> HasRecord(program.specializations, id)
  }

  method SpecializationsOf(records: seq<Specialization>, owner: Id) returns (targets: seq<Id>)
    ensures forall x :: x in targets <==> x in Targets(records, {owner})
    ensures targets != [] <==> HasRecord(records, owner)
  {
    targets := [];
    for k := 0 to |records|
      invariant forall x :: x in targets ==> x in Targets(records, {owner})
      invariant forall j :: 0 <= j < k && records[j].generalized == owner ==> records[j].specialized in targets
      invariant targets != [] ==> HasRecord(records, owner)
    {
      if records[k].generalized == owner {
        targets := targets + [records[k].specialized];
      }
    }
  }

  lemma TargetsJoin(records: seq<Specialization>, a: set<Id>, b: set<Id>)
    ensures Targets(records, a + b) == Targets(records, a) + Targets(records, b)
  {
  }

  lemma RootsGrow(program: Program, seen: set<Id>, id: Id)
    requires id !in seen
    ensures var before, after := ExecutableRoots(program, seen), ExecutableRoots(program, seen + {id});
            if IsGeneric(program.functions, id) then
              && Templates(program.functions, seen + {id}) == Templates(program.functions, seen) + {id}
              && after == before + Targets(program.specializations, {id})
            else
              && Templates(program.functions, seen + {id}) == Templates(program.functions, seen)
              && after == before + {id}
  {
    hide IsGeneric, Targets;
    TargetsJoin(program.specializations, Templates(program.functions, seen), {id});
    var templates, grown := Templates(program.functions, seen), Templates(program.functions, seen + {id});
    if IsGeneric(program.functions, id) {
      assert grown == templates + {id};
      assert seen + {id} - grown == seen - templates;
    } else {
      assert grown == templates;
      assert seen + {id} - grown == seen - templates + {id};
    }
  }

  /** A selected generic function has no specialization. */
  ghost predicate WithoutRecord(program: Program, selected: set<Id>, refusal: Refusal) {
    refusal.NoSpecialization? && refusal.id in Templates(program.functions, selected) && !HasRecord(program.specializations, refusal.id)
  }

  /** The refusal states a fact: of the selection, of a selected generic function, of a function that is
      needed, or of what would be kept. */
  ghost predicate Justified(program: Program, selectors: seq<string>, needed: set<Id>, valid: bool, refusal: Refusal) {
    || SelectionRefused(program.functions, selectors, refusal)
    || WithoutRecord(program, Selected(program.functions, selectors), refusal)
    || (refusal.Undeclared? && refusal.id in needed && refusal.id !in Index(program.functions))
    || (refusal == Invalid && !valid)
  }

  /** The declarations that are kept for their records only, and where execution starts. */
  method ExpandRoots(program: Program, index: map<Id, Function>, selected: set<Id>) returns (templates: set<Id>, r: Result<seq<Id>, Refusal>)
    requires index == Index(program.functions) && selected <= index.Keys
    ensures r.Ok? <==> Specializable(program, selected)
    ensures r.Ok? ==> templates == Templates(program.functions, selected)
    ensures r.Ok? ==> forall x :: x in r.value <==> x in ExecutableRoots(program, selected)
    ensures r.Err? ==> WithoutRecord(program, selected, r.error)
  {
    hide ExecutableRoots, Targets, HasRecord;
    templates := {};
    var pending := [];
    var left := selected;
    assert ExecutableRoots(program, {}) == {} && Templates(program.functions, {}) == {} by {
      NoRoots(program);
    }
    assert selected - left == {};
    while left != {}
      invariant left <= selected
      invariant templates == Templates(program.functions, selected - left)
      invariant Specializable(program, selected - left)
      invariant forall x :: x in pending <==> x in ExecutableRoots(program, selected - left)
    {
      var root :| root in left;
      RootsGrow(program, selected - left, root);
      assert selected - (left - {root}) == selected - left + {root};
      if index[root].isGeneric {
        var targets := SpecializationsOf(program.specializations, root);
        if targets == [] {
          assert root in Templates(program.functions, selected);
          return templates, Err(NoSpecialization(root));
        }
        templates := templates + {root};
        pending := pending + targets;
      } else {
        pending := pending + [root];
      }
      left := left - {root};
    }
    assert selected - left == selected;
    return templates, Ok(pending);
  }

  lemma NoRoots(program: Program)
    ensures ExecutableRoots(program, {}) == {} && Templates(program.functions, {}) == {}
  {
  }

  ghost predicate Declares(program: Program, ids: set<Id>) {
    ids <= Index(program.functions).Keys
  }

  ghost function RootsOf(program: Program, selectors: seq<string>): set<Id> {
    ExecutableRoots(program, Selected(program.functions, selectors))
  }

  ghost predicate Startable(program: Program, selectors: seq<string>) {
    && Selectable(program.functions, selectors)
    && Specializable(program, Selected(program.functions, selectors))
  }

  /** The exports to emit for a selection: its executable roots, all of them declared. */
  method ExecutableExports(program: Program, selectors: seq<string>) returns (r: Result<set<L.Export>, Refusal>)
    ensures r.Ok? <==> Startable(program, selectors) && Declares(program, RootsOf(program, selectors))
    ensures r.Ok? ==> L.RootSet(r.value) == RootsOf(program, selectors)
    ensures r.Err? ==> Justified(program, selectors, RootsOf(program, selectors), true, r.error)
  {
    hide SelectionRefused, WithoutRecord, Selectable, Selected, Specializable, ExecutableRoots, Index;
    var index, selected := SelectRoots(program.functions, selectors);
    if selected.Err? {
      return Err(selected.error);
    }
    assert selected.value <= index.Keys by {
      SelectedDeclared(program.functions, selectors);
    }
    var templates, expanded := ExpandRoots(program, index, selected.value);
    if expanded.Err? {
      return Err(expanded.error);
    }
    IndexFinds(program.functions);
    var exports: set<L.Export> := {};
    for k := 0 to |expanded.value|
      invariant forall j :: 0 <= j < k ==> expanded.value[j] in index
      invariant forall x :: x in L.RootSet(exports) <==> x in expanded.value[..k]
    {
      var identity := expanded.value[k];
      if identity !in index {
        assert identity in expanded.value;
        return Err(Undeclared(identity));
      }
      var f := index[identity];
      ExportAdds(exports, L.Export(f.namespace, f.name));
      assert expanded.value[..k + 1] == expanded.value[..k] + [identity];
      exports := exports + {L.Export(f.namespace, f.name)};
    }
    assert expanded.value[..|expanded.value|] == expanded.value;
    return Ok(exports);
  }

  lemma SelectedDeclared(functions: seq<Function>, selectors: seq<string>)
    ensures Selected(functions, selectors) <= Index(functions).Keys
  {
  }

  lemma ExportAdds(exports: set<L.Export>, e: L.Export)
    ensures L.RootSet(exports + {e}) == L.RootSet(exports) + {L.ExportId(e)}
  {
  }

  ghost function BodyClosure(program: Program, selectors: seq<string>): set<Id> {
    Reach(CallEdges(program.functions), RootsOf(program, selectors))
  }

  /** The closure, the selected generic functions, and every generic function that owns a
      specialization in the closure. */
  ghost function Included(program: Program, selectors: seq<string>): set<Id> {
    var closure := BodyClosure(program, selectors);
    Templates(program.functions, Selected(program.functions, selectors)) + closure + Owners(program.specializations, closure)
  }

  /** What is left of a function: nothing, its declaration, or all of it. */
  function Retained(f: Function, included: set<Id>, closure: set<Id>): seq<Function> {
    if IdOf(f) !in included then [] else [L.Stripped(f, IdOf(f) in closure)]
  }

  function RetainFunctions(functions: seq<Function>, included: set<Id>, closure: set<Id>): seq<Function> {
    if functions == [] then []
    else RetainFunctions(functions[..|functions| - 1], included, closure) + Retained(functions[|functions| - 1], included, closure)
  }

  function RetainRecords(records: seq<Specialization>, included: set<Id>): seq<Specialization> {
    if records == [] then []
    else
      var last := records[|records| - 1];
      RetainRecords(records[..|records| - 1], included) + if last.generalized in included && last.specialized in included then [last] else []
  }

  ghost function Projection(program: Program, selectors: seq<string>): Program {
    var included := Included(program, selectors);
    Program(RetainFunctions(program.functions, included, BodyClosure(program, selectors)), RetainRecords(program.specializations, included))
  }

  method QueueOperations(operations: seq<Operation>, pending: seq<Id>) returns (next: seq<Id>)
    ensures next == pending + OperationCalls(operations)
  {
    next := pending;
    for k := 0 to |operations|
      invariant next == pending + OperationCalls(operations[..k])
    {
      assert operations[..k + 1][..k] == operations[..k];
      if operations[k].Call? {
        next := next + [operations[k].callee];
      }
    }
    assert operations[..|operations|] == operations;
  }

  method QueueCalls(body: Body, pending: seq<Id>) returns (next: seq<Id>)
    ensures next == pending + Callees(Some(body))
  {
    hide OperationCalls;
    next := pending;
    for b := 0 to |body.blocks|
      invariant next == pending + BlockCalls(body.blocks[..b])
    {
      next := QueueOperations(body.blocks[b], next);
      assert body.blocks[..b + 1][..b] == body.blocks[..b];
    }
    hide BlockCalls;
    assert body.blocks[..|body.blocks|] == body.blocks;
    next := QueueIterations(body.iterations, next);
    CalleesAre(body, pending);
  }

  method NoteOwners(records: seq<Specialization>, identity: Id, included: set<Id>, metadata: set<Id>) returns (included': set<Id>, metadata': set<Id>)
    ensures included' == included + Owners(records, {identity})
    ensures metadata' == metadata + Owners(records, {identity})
  {
    included', metadata' := included, metadata;
    for k := 0 to |records|
      invariant included' == included + Owners(records[..k], {identity})
      invariant metadata' == metadata + Owners(records[..k], {identity})
    {
      assert Owners(records[..k + 1], {identity}) == Owners(records[..k], {identity}) + Owners([records[k]], {identity}) by {
        OwnersAppend(records[..k], records[k], {identity});
      }
      if records[k].specialized == identity {
        included' := included' + {records[k].generalized};
        metadata' := metadata' + {records[k].generalized};
      }
    }
    assert records[..|records|] == records;
  }

  lemma OwnersAppend(records: seq<Specialization>, last: Specialization, targets: set<Id>)
    ensures Owners(records + [last], targets) == Owners(records, targets) + Owners([last], targets)
    ensures Owners([last], targets) == if last.specialized in targets then {last.generalized} else {}
  {
    var all := records + [last];
    assert all[|records|] == last && [last][0] == last;
    assert forall k :: 0 <= k < |records| ==> all[k] == records[k];
  }

  lemma OwnersJoin(records: seq<Specialization>, a: set<Id>, b: set<Id>)
    ensures Owners(records, a + b) == Owners(records, a) + Owners(records, b)
    ensures Owners(records, {}) == {}
  {
  }

  /** What the search has put where: a declaration is left in `metadata` only while no call reaches it,
      except that an owner may be noted again after its body was found to be needed. */
  ghost predicate Sorted(program: Program, templates: set<Id>, included: set<Id>, metadata: set<Id>, closure: set<Id>) {
    && closure <= Index(program.functions).Keys
    && included == templates + closure + Owners(program.specializations, closure)
    && included - closure <= metadata
  }

  lemma SortedNext(program: Program, templates: set<Id>, included: set<Id>, metadata: set<Id>, closure: set<Id>, x: Id)
    requires Sorted(program, templates, included, metadata, closure) && x in Index(program.functions) && x !in closure
    ensures var owners := Owners(program.specializations, {x});
            Sorted(program, templates, included + {x} + owners, metadata - {x} + owners, closure + {x})
    ensures |Index(program.functions).Keys - (closure + {x})| < |Index(program.functions).Keys - closure|
  {
    hide Index, Owners;
    OwnersJoin(program.specializations, closure, {x});
    assert Index(program.functions).Keys - (closure + {x}) == Index(program.functions).Keys - closure - {x};
  }

  lemma SortedStart(program: Program, templates: set<Id>)
    ensures Sorted(program, templates, templates, templates, {})
  {
    hide Index, Owners;
    OwnersJoin(program.specializations, {}, {});
  }

  lemma SortedEnds(program: Program, templates: set<Id>, included: set<Id>, metadata: set<Id>, closure: set<Id>)
    requires Sorted(program, templates, included, metadata, closure)
    ensures Declares(program, closure) && included == templates + closure + Owners(program.specializations, closure)
    ensures included - closure <= metadata
  {
  }

  lemma Undeclares(program: Program, ids: set<Id>, id: Id)
    requires id in ids && id !in Index(program.functions)
    ensures !Declares(program, ids)
  {
  }

  /** The depth-first search. */
  method FindClosure(program: Program, index: map<Id, Function>, templates: set<Id>, start: seq<Id>, ghost roots: set<Id>)
    returns (r: Result<(set<Id>, set<Id>, set<Id>), Refusal>)
    requires index == Index(program.functions)
    requires forall x :: x in start <==> x in roots
    ensures var closure := Reach(CallEdges(program.functions), roots);
            && (r.Ok? <==> Declares(program, closure))
            && (r.Ok? ==>
              && r.value.0 == templates + closure + Owners(program.specializations, closure)
              && r.value.2 == closure
              && r.value.0 - closure <= r.value.1)
            && (r.Err? ==> r.error.Undeclared? && r.error.id in closure && r.error.id !in index)
  {
    hide Working, Reach, CallEdges, Index, Owners, Callees, Sorted, Declares;
    var included, metadata, closure: set<Id> := templates, templates, {};
    var pending := start;
    WorkStarts(CallEdges(program.functions), roots, pending);
    SortedStart(program, templates);
    while pending != []
      invariant Working(CallEdges(program.functions), roots, closure, pending)
      invariant Sorted(program, templates, included, metadata, closure)
      decreases |index.Keys - closure|, |pending|
    {
      var identity := pending[|pending| - 1];
      ghost var before := pending;
      pending := pending[..|pending| - 1];
      assert before == pending + [identity];
      Visits(program.functions, roots, closure, before, identity, pending);
      if identity in closure {
        continue;
      }
      if identity !in index {
        Undeclares(program, Reach(CallEdges(program.functions), roots), identity);
        return Err(Undeclared(identity));
      }
      SortedNext(program, templates, included, metadata, closure, identity);
      closure := closure + {identity};
      included := included + {identity};
      metadata := metadata - {identity};
      included, metadata := NoteOwners(program.specializations, identity, included, metadata);
      pending := QueueBody(index[identity].body, pending);
    }
    WorkDone(CallEdges(program.functions), roots, closure);
    SortedEnds(program, templates, included, metadata, closure);
    return Ok((included, metadata, closure));
  }

  method QueueBody(body: Option<Body>, pending: seq<Id>) returns (next: seq<Id>)
    ensures next == pending + Callees(body)
  {
    hide Callees;
    if body.Some? {
      next := QueueCalls(body.value, pending);
      assert Some(body.value) == body;
    } else {
      NoCalls();
      next := pending;
    }
  }

  lemma NoCalls()
    ensures Callees(None) == []
  {
  }

  method KeepFunctions(functions: seq<Function>, included: set<Id>, metadata: set<Id>, closure: set<Id>) returns (kept: seq<Function>)
    requires included - closure <= metadata
    ensures kept == RetainFunctions(functions, included, closure)
  {
    kept := [];
    for k := 0 to |functions|
      invariant kept == RetainFunctions(functions[..k], included, closure)
    {
      assert functions[..k + 1][..k] == functions[..k];
      var f := functions[k];
      if IdOf(f) in included {
        if IdOf(f) in metadata && IdOf(f) !in closure {
          f := f.(body := None);
        }
        kept := kept + [f];
      }
    }
    assert functions[..|functions|] == functions;
  }

  method KeepRecords(records: seq<Specialization>, included: set<Id>) returns (kept: seq<Specialization>)
    ensures kept == RetainRecords(records, included)
  {
    kept := [];
    for k := 0 to |records|
      invariant kept == RetainRecords(records[..k], included)
    {
      assert records[..k + 1][..k] == records[..k];
      if records[k].generalized in included && records[k].specialized in included {
        kept := kept + [records[k]];
      }
    }
    assert records[..|records|] == records;
  }

  lemma {:induction false} RetainIndexes(functions: seq<Function>, included: set<Id>, closure: set<Id>)
    ensures Index(RetainFunctions(functions, included, closure)).Keys == Index(functions).Keys * included
    ensures forall id :: id in Index(functions) && id in included ==>
      Index(RetainFunctions(functions, included, closure))[id] == L.Stripped(Index(functions)[id], id in closure)
  {
    if functions != [] {
      var before, last := functions[..|functions| - 1], functions[|functions| - 1];
      var kept := RetainFunctions(before, included, closure);
      RetainIndexes(before, included, closure);
      if IdOf(last) in included {
        assert (kept + [L.Stripped(last, IdOf(last) in closure)])[..|kept|] == kept;
      } else {
        assert kept + [] == kept;
      }
    }
  }

  /** Whatever is called from a body that is left is declared, and is left whole. */
  ghost predicate CallsStayWhole(original: seq<Function>, left: seq<Function>) {
    forall id, x :: id in Index(left) && Index(left)[id].body.Some? && CalledFrom(Index(left)[id].body.value, x) ==>
      x in Index(left) && x in Index(original) && Index(left)[x] == Index(original)[x]
  }

  lemma CalledStayInProjection(program: Program, selectors: seq<string>)
    requires Declares(program, BodyClosure(program, selectors))
    ensures CallsStayWhole(program.functions, Projection(program, selectors).functions)
  {
    hide CalledFrom, RetainFunctions, Reach, Templates, Owners, Selected, ExecutableRoots, CallEdges;
    var included, closure := Included(program, selectors), BodyClosure(program, selectors);
    var left := Projection(program, selectors).functions;
    RetainIndexes(program.functions, included, closure);
    forall id, x | id in Index(left) && Index(left)[id].body.Some? && CalledFrom(Index(left)[id].body.value, x)
      ensures x in Index(left) && x in Index(program.functions) && Index(left)[x] == Index(program.functions)[x]
    {
      assert id in closure;
      CalleesAreReached(program.functions, RootsOf(program, selectors), id, x);
    }
  }

  datatype Outcome = Outcome(program: Program, roots: set<Id>, included: set<Id>)

  /** Succeeds exactly when the selection can start, its closure is declared and what is kept is valid. */
  method Project(program: Program, selectors: seq<string>, valid: Program -> bool) returns (r: Result<Outcome, Refusal>)
    ensures r.Ok? <==>
      && Startable(program, selectors)
      && Declares(program, BodyClosure(program, selectors))
      && valid(Projection(program, selectors))
    ensures r.Ok? ==> r.value == Outcome(Projection(program, selectors), Selected(program.functions, selectors), Included(program, selectors))
    ensures r.Ok? ==> CallsStayWhole(program.functions, r.value.program.functions)
    ensures r.Err? ==> Justified(program, selectors, BodyClosure(program, selectors), valid(Projection(program, selectors)), r.error)
  {
    hide SelectionRefused, WithoutRecord, CallsStayWhole;
    hide Selectable, Selected, Specializable, ExecutableRoots, Index, Reach, CallEdges, Templates, Owners, RetainFunctions, RetainRecords, Declares;
    var index, selected := SelectRoots(program.functions, selectors);
    if selected.Err? {
      return Err(selected.error);
    }
    SelectedDeclared(program.functions, selectors);
    var templates, expanded := ExpandRoots(program, index, selected.value);
    if expanded.Err? {
      return Err(expanded.error);
    }
    var found := FindClosure(program, index, templates, expanded.value, RootsOf(program, selectors));
    if found.Err? {
      return Err(found.error);
    }
    var (included, metadata, closure) := found.value;
    var functions := KeepFunctions(program.functions, included, metadata, closure);
    var records := KeepRecords(program.specializations, included);
    var projected := Program(functions, records);
    if !valid(projected) {
      return Err(Invalid);
    }
    CalledStayInProjection(program, selectors);
    return Ok(Outcome(projected, selected.value, included));
  }
}
