/** What the backend projection keeps, that projecting twice is projecting once, and that it agrees
    with the program an application is lowered from. */
module ProjectionAgreement {
  import opened Prelude
  import opened Reachability
  import opened CallGraph
  import opened BackendProjection
  import L = ApplicationLowering

  lemma {:induction false} RetainUnique(functions: seq<Function>, included: set<Id>, closure: set<Id>)
    requires Unique(functions)
    ensures Unique(RetainFunctions(functions, included, closure))
  {
    UniqueEmpty();
    if functions != [] {
      hide Unique, Index;
      var before, last := functions[..|functions| - 1], functions[|functions| - 1];
      assert functions == before + [last];
      UniquePrefix(functions, |before|);
      RetainUnique(before, included, closure);
      UniqueNext(before, last);
      RetainIndexes(before, included, closure);
      var kept := RetainFunctions(before, included, closure);
      UniqueNext(kept, L.Stripped(last, IdOf(last) in closure));
      assert kept + [] == kept;
    }
  }

  lemma {:induction false} RetainTwice(functions: seq<Function>, included: set<Id>, closure: set<Id>)
    ensures RetainFunctions(RetainFunctions(functions, included, closure), included, closure) == RetainFunctions(functions, included, closure)
  {
    if functions != [] {
      var before, last := functions[..|functions| - 1], functions[|functions| - 1];
      RetainTwice(before, included, closure);
      var kept := RetainFunctions(before, included, closure);
      var all := kept + Retained(last, included, closure);
      if IdOf(last) in included {
        assert all[..|all| - 1] == kept;
      } else {
        assert all == kept;
      }
    }
  }

  lemma {:induction false} RecordsKept(records: seq<Specialization>, included: set<Id>)
    ensures forall r :: r in RetainRecords(records, included) <==> r in records && r.generalized in included && r.specialized in included
  {
    if records != [] {
      RecordsKept(records[..|records| - 1], included);
      assert records == records[..|records| - 1] + [records[|records| - 1]];
    }
  }

  lemma {:induction false} RecordsTwice(records: seq<Specialization>, included: set<Id>)
    ensures RetainRecords(RetainRecords(records, included), included) == RetainRecords(records, included)
  {
    if records != [] {
      var before, last := records[..|records| - 1], records[|records| - 1];
      var kept := RetainRecords(before, included);
      RecordsTwice(before, included);
      if last.generalized in included && last.specialized in included {
        assert (kept + [last])[..|kept|] == kept;
      } else {
        assert kept + [] == kept;
      }
    }
  }

  lemma TargetsMeans(records: seq<Specialization>, owners: set<Id>)
    ensures forall x :: x in Targets(records, owners) <==> exists r :: r in records && r.generalized in owners && r.specialized == x
    ensures forall x :: x in Owners(records, owners) <==> exists r :: r in records && r.specialized in owners && r.generalized == x
    ensures forall x :: HasRecord(records, x) <==> exists r :: r in records && r.generalized == x
  {
    forall x | x in Targets(records, owners) ensures exists r :: r in records && r.generalized in owners && r.specialized == x {
      var k :| 0 <= k < |records| && records[k].generalized in owners && records[k].specialized == x;
      assert records[k] in records;
    }
    forall x | x in Owners(records, owners) ensures exists r :: r in records && r.specialized in owners && r.generalized == x {
      var k :| 0 <= k < |records| && records[k].specialized in owners && records[k].generalized == x;
      assert records[k] in records;
    }
    forall x | HasRecord(records, x) ensures exists r :: r in records && r.generalized == x {
      var k :| 0 <= k < |records| && records[k].generalized == x;
      assert records[k] in records;
    }
  }

  /** Targets of the templates, and owners of the closure, lose nothing when the records are filtered. */
  lemma FilteredRecords(records: seq<Specialization>, included: set<Id>, templates: set<Id>, closure: set<Id>)
    requires included == templates + closure + Owners(records, closure)
    requires Targets(records, templates) <= closure
    ensures var kept := RetainRecords(records, included);
            && Targets(kept, templates) == Targets(records, templates)
            && Owners(kept, closure) == Owners(records, closure)
            && forall x :: x in templates && HasRecord(records, x) ==> HasRecord(kept, x)
  {
    hide Targets, Owners, HasRecord, RetainRecords;
    var kept := RetainRecords(records, included);
    RecordsKept(records, included);
    TargetsMeans(records, templates);
    TargetsMeans(kept, templates);
    TargetsMeans(records, closure);
    TargetsMeans(kept, closure);
  }

  lemma RootsReached(program: Program, selectors: seq<string>)
    ensures RootsOf(program, selectors) <= BodyClosure(program, selectors)
    ensures var templates := Templates(program.functions, Selected(program.functions, selectors));
            && Targets(program.specializations, templates) <= BodyClosure(program, selectors)
            && Selected(program.functions, selectors) <= templates + BodyClosure(program, selectors)
  {
    hide Reach, Targets, Templates, Selected;
    ReachIsLeast(CallEdges(program.functions), RootsOf(program, selectors));
  }

  /** Selectors find in a projection what they found in the whole program. */
  lemma SelectionSurvives(functions: seq<Function>, projected: seq<Function>, included: set<Id>, selectors: seq<string>)
    requires Selectable(functions, selectors) && Unique(projected)
    requires Index(projected).Keys == Index(functions).Keys * included
    requires Selected(functions, selectors) <= included
    ensures Selectable(projected, selectors) && Selected(projected, selectors) == Selected(functions, selectors)
  {
    hide Parsed, Unique;
    forall k, id | 0 <= k < |selectors| && Answers(functions, Parsed(selectors[k]), id)
      ensures id in included && Answers(projected, Parsed(selectors[k]), id)
    {
      assert IsSelected(functions, selectors, id);
    }
    forall k | 0 <= k < |selectors| ensures AnswersOnce(projected, Parsed(selectors[k])) {
      var selector := Parsed(selectors[k]);
      assert AnswersOnce(functions, selector);
      var id :| Answers(functions, selector, id) && forall other :: Answers(functions, selector, other) ==> other == id;
      assert Answers(projected, selector, id);
      forall other | Answers(projected, selector, other) ensures other == id {
        assert Answers(functions, selector, other);
      }
    }
    forall id ensures IsSelected(projected, selectors, id) <==> IsSelected(functions, selectors, id) {
    }
  }

  ghost predicate SameSelection(program: Program, projected: Program, selectors: seq<string>) {
    && Startable(projected, selectors)
    && Selected(projected.functions, selectors) == Selected(program.functions, selectors)
    && Templates(projected.functions, Selected(program.functions, selectors)) == Templates(program.functions, Selected(program.functions, selectors))
    && RootsOf(projected, selectors) == RootsOf(program, selectors)
    && BodyClosure(projected, selectors) == BodyClosure(program, selectors)
    && Included(projected, selectors) == Included(program, selectors)
  }

  lemma IncludedParts(program: Program, selectors: seq<string>)
    ensures var templates := Templates(program.functions, Selected(program.functions, selectors));
            && templates <= Included(program, selectors)
            && BodyClosure(program, selectors) <= Included(program, selectors)
            && Selected(program.functions, selectors) <= Included(program, selectors)
  {
    RootsReached(program, selectors);
  }

  lemma ClosureSurvives(program: Program, projected: seq<Function>, selectors: seq<string>)
    requires projected == RetainFunctions(program.functions, Included(program, selectors), BodyClosure(program, selectors))
    ensures Reach(CallEdges(projected), RootsOf(program, selectors)) == BodyClosure(program, selectors)
  {
    hide RetainFunctions, Included, Callees, Selected, Templates;
    var included, closure := Included(program, selectors), BodyClosure(program, selectors);
    IncludedParts(program, selectors);
    RetainIndexes(program.functions, included, closure);
    SameReach(program.functions, projected, RootsOf(program, selectors));
  }

  lemma ProjectionSelectsTheSame(program: Program, selectors: seq<string>)
    requires Startable(program, selectors)
    ensures SameSelection(program, Projection(program, selectors), selectors)
  {
    hide RetainFunctions, RetainRecords, Reach, CallEdges, Index, Answers, Parsed, Targets, Owners, HasRecord, Unique;
    var included, closure := Included(program, selectors), BodyClosure(program, selectors);
    var projected := Projection(program, selectors);
    var selected := Selected(program.functions, selectors);
    var templates := Templates(program.functions, selected);
    IncludedParts(program, selectors);
    RootsReached(program, selectors);
    RetainIndexes(program.functions, included, closure);
    RetainUnique(program.functions, included, closure);
    SelectionSurvives(program.functions, projected.functions, included, selectors);
    assert Templates(projected.functions, selected) == templates;
    FilteredRecords(program.specializations, included, templates, closure);
    assert RootsOf(projected, selectors) == RootsOf(program, selectors);
    ClosureSurvives(program, projected.functions, selectors);
  }

  /** Projecting a projection, with the same selection, gives it back. */
  lemma ProjectionIsIdempotent(program: Program, selectors: seq<string>)
    requires Startable(program, selectors) && Declares(program, BodyClosure(program, selectors))
    ensures var projected := Projection(program, selectors);
            && Startable(projected, selectors)
            && Declares(projected, BodyClosure(projected, selectors))
            && Projection(projected, selectors) == projected
  {
    hide RetainFunctions, RetainRecords, Startable, BodyClosure, Included, RootsOf, Templates, Selected;
    var included, closure := Included(program, selectors), BodyClosure(program, selectors);
    ProjectionSelectsTheSame(program, selectors);
    IncludedParts(program, selectors);
    RetainIndexes(program.functions, included, closure);
    RetainTwice(program.functions, included, closure);
    RecordsTwice(program.specializations, included);
  }

  /** Execution starts at the selected functions that are not generic and at the specializations of those that are. */
  lemma RootsMean(program: Program, selectors: seq<string>, id: Id)
    ensures id in RootsOf(program, selectors) <==>
              || (id in Selected(program.functions, selectors) && !Index(program.functions)[id].isGeneric)
              || exists r :: r in program.specializations && r.specialized == id
                   && r.generalized in Selected(program.functions, selectors) && Index(program.functions)[r.generalized].isGeneric
  {
    hide IsSelected, Targets, Owners, HasRecord, Index;
    TargetsMeans(program.specializations, Templates(program.functions, Selected(program.functions, selectors)));
  }

  /** What is included is what execution needs, the selected generic functions, and the generic functions that
      have a specialization among what execution needs. */
  lemma IncludedMeans(program: Program, selectors: seq<string>, id: Id)
    ensures id in Included(program, selectors) <==>
              || id in BodyClosure(program, selectors)
              || (id in Selected(program.functions, selectors) && Index(program.functions)[id].isGeneric)
              || exists r :: r in program.specializations && r.generalized == id && r.specialized in BodyClosure(program, selectors)
  {
    hide IsSelected, Targets, Owners, HasRecord, Index, BodyClosure;
    TargetsMeans(program.specializations, BodyClosure(program, selectors));
  }

  /** A declared function keeps its body exactly when execution can reach it, and is kept at all
      exactly when it is included. */
  lemma BodiesOnTheClosure(program: Program, selectors: seq<string>, id: Id)
    requires id in Index(program.functions)
    ensures var projected := Index(Projection(program, selectors).functions);
            && (id in projected <==> id in Included(program, selectors))
            && (id in BodyClosure(program, selectors) ==> id in projected && projected[id] == Index(program.functions)[id])
            && (id in projected && id !in BodyClosure(program, selectors) ==> projected[id] == Index(program.functions)[id].(body := None))
  {
    hide RetainFunctions, BodyClosure, Selected, Templates, Owners;
    IncludedParts(program, selectors);
    RetainIndexes(program.functions, Included(program, selectors), BodyClosure(program, selectors));
  }

  ghost predicate NoDangling(program: Program) {
    forall r :: r in program.specializations ==> r.generalized in Index(program.functions) && r.specialized in Index(program.functions)
  }

  /** Every record of a function in the closure, or of a selected generic function, is kept with its
      generic declaration; and no kept record dangles unless it did before. */
  lemma SpecializationsStayWhole(program: Program, selectors: seq<string>)
    requires NoDangling(program)
    ensures NoDangling(Projection(program, selectors))
    ensures forall r :: r in program.specializations && r.specialized in BodyClosure(program, selectors) ==>
      r in Projection(program, selectors).specializations && r.generalized in Index(Projection(program, selectors).functions)
    ensures forall r :: r in program.specializations && r.generalized in Templates(program.functions, Selected(program.functions, selectors)) ==>
      r in Projection(program, selectors).specializations && r.specialized in BodyClosure(program, selectors)
  {
    hide RetainFunctions, RetainRecords, BodyClosure, Selected, Templates, Targets, Owners, Index;
    var included, closure := Included(program, selectors), BodyClosure(program, selectors);
    var templates := Templates(program.functions, Selected(program.functions, selectors));
    RecordsKept(program.specializations, included);
    RetainIndexes(program.functions, included, closure);
    TargetsMeans(program.specializations, closure);
    TargetsMeans(program.specializations, templates);
    RootsReached(program, selectors);
  }

  /** The exports of a selection have, as an application, the closure that the backend projection keeps;
      the two keep the same bodies; and lowering the projection changes nothing in it. */
  lemma ProjectionsAgree(program: Program, selectors: seq<string>, exports: set<L.Export>)
    requires Startable(program, selectors) && Declares(program, BodyClosure(program, selectors))
    requires L.RootSet(exports) == RootsOf(program, selectors)
    ensures L.Closure(program, exports) == BodyClosure(program, selectors)
    ensures forall id :: id in Index(program.functions) ==>
      var lowered := Index(L.StripOutside(program.functions, L.Closure(program, exports)));
      var projected := Index(Projection(program, selectors).functions);
      id in lowered && (if id in projected then lowered[id] == projected[id] else lowered[id].body.None?)
    ensures var projected := Projection(program, selectors);
            && L.Closure(projected, exports) == BodyClosure(program, selectors)
            && L.StripOutside(projected.functions, L.Closure(projected, exports)) == projected.functions
            && (L.Lowerable(projected, exports) <==> L.Lowerable(program, exports))
  {
    hide RetainFunctions, RetainRecords, Startable, Included, RootsOf, Templates, Selected, L.RootSet, Reach, CallEdges, Index, L.StripOutside;
    var included, closure := Included(program, selectors), BodyClosure(program, selectors);
    L.StripIndexes(program.functions, closure);
    RetainIndexes(program.functions, included, closure);
    IncludedParts(program, selectors);
    ClosureSurvives(program, Projection(program, selectors).functions, selectors);
    RetainedIsStripped(program.functions, included, closure);
    assert L.StripOutside(Projection(program, selectors).functions, closure) == Projection(program, selectors).functions;
    SameExecutables(program, Projection(program, selectors), included, closure);
  }

  lemma SameExecutables(program: Program, projected: Program, included: set<Id>, closure: set<Id>)
    requires projected.functions == RetainFunctions(program.functions, included, closure) && closure <= included
    ensures forall id :: id in closure ==> (L.Executable(projected, id) <==> L.Executable(program, id))
  {
    RetainIndexes(program.functions, included, closure);
  }

  lemma {:induction false} RetainedIsStripped(functions: seq<Function>, included: set<Id>, closure: set<Id>)
    ensures var kept := RetainFunctions(functions, included, closure);
            L.StripOutside(kept, closure) == kept
  {
    if functions != [] {
      RetainedIsStripped(functions[..|functions| - 1], included, closure);
      var before := RetainFunctions(functions[..|functions| - 1], included, closure);
      var kept := RetainFunctions(functions, included, closure);
      forall k | 0 <= k < |kept| ensures L.StripOutside(kept, closure)[k] == kept[k] {
        if k < |before| {
          assert kept[k] == before[k] == L.StripOutside(before, closure)[k];
        }
      }
    }
  }
}
