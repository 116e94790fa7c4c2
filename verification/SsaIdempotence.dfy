/** Projecting a projected module changes nothing: everything it needs is in it. */
module SsaIdempotence {
  import opened Prelude
  import opened Reachability
  import opened CallGraph
  import opened SsaProjection
  import opened SsaTables
  import opened SsaClosure
  import H = SsaHistory
  import C = SsaCommutation

  lemma {:induction false} KeptUnambiguous(functions: seq<SsaFunction>, s: set<Id>)
    ensures C.Within(KeepFunctions(functions, s), functions)
    ensures Unambiguous(functions) ==> Unambiguous(KeepFunctions(functions, s))
  {
    if functions != [] {
      hide Unambiguous, C.Within;
      var before, last := functions[..|functions| - 1], functions[|functions| - 1];
      KeptUnambiguous(before, s);
      C.WithinAppend(KeepFunctions(before, s), before, if last.semantic in s then Some(last) else None, Some(last));
      assert before + C.Listed(Some(last)) == functions;
    } else {
      assert C.Within([], []);
    }
  }

  lemma {:induction false} KeptIn(functions: seq<SsaFunction>, s: set<Id>)
    ensures forall f :: f in KeepFunctions(functions, s) <==> f in functions && f.semantic in s
  {
    if functions != [] {
      KeptIn(functions[..|functions| - 1], s);
      assert functions == functions[..|functions| - 1] + [functions[|functions| - 1]];
    }
  }

  lemma {:induction false} KeepTwice(functions: seq<SsaFunction>, s: set<Id>)
    ensures KeepFunctions(KeepFunctions(functions, s), s) == KeepFunctions(functions, s)
  {
    if functions != [] {
      var before, last := functions[..|functions| - 1], functions[|functions| - 1];
      KeepTwice(before, s);
      C.KeepAppends(KeepFunctions(before, s), if last.semantic in s then Some(last) else None, s);
    }
  }

  /** A name in the closure leads to a function that is kept. */
  lemma ReachedIsKept(functions: seq<SsaFunction>, roots: set<Id>, id: Id)
    requires Unambiguous(functions) && Resolvable(functions, roots) && id in SsaReach(functions, roots)
    ensures id in Lookup(functions) && Lookup(functions)[id] < |functions|
    ensures var f := functions[Lookup(functions)[id]];
            Names(f, id) && f.blocks != [] && f.semantic in Reachable(functions, roots) && f in KeepFunctions(functions, Reachable(functions, roots))
  {
    hide Reach, Lookup, Unambiguous, KeepFunctions, SsaCallees;
    assert HasCode(functions, id);
    LookupFinds(functions);
    var f := functions[Lookup(functions)[id]];
    C.NamedIs(functions, f, f.semantic);
    var edges := SsaEdges(functions);
    ReachIsLeast(edges, roots);
    if f.semantic != id {
      assert Successors(edges, id) == [f.semantic];
      assert Successors(edges, id)[0] == f.semantic;
    }
    KeptIn(functions, Reachable(functions, roots));
  }

  lemma FunctionsSettle(functions: seq<SsaFunction>, roots: set<Id>)
    requires Unambiguous(functions) && Resolvable(functions, roots)
    ensures var kept := KeepFunctions(functions, Reachable(functions, roots));
            && Unambiguous(kept) && Resolvable(kept, roots)
            && Reachable(kept, roots) == Reachable(functions, roots)
            && KeepFunctions(kept, Reachable(kept, roots)) == kept
  {
    hide Reach, Lookup, Unambiguous, KeepFunctions, SsaCallees;
    var kept := KeepFunctions(functions, Reachable(functions, roots));
    KeptUnambiguous(functions, Reachable(functions, roots));
    forall id | id in SsaReach(functions, roots)
      ensures HasCode(kept, id) && kept[Lookup(kept)[id]] == functions[Lookup(functions)[id]]
      ensures Successors(SsaEdges(kept), id) == Successors(SsaEdges(functions), id)
    {
      ReachedIsKept(functions, roots, id);
      C.NamedIs(kept, functions[Lookup(functions)[id]], id);
    }
    ReachAgrees(SsaEdges(functions), SsaEdges(kept), roots);
    assert SsaReach(kept, roots) == SsaReach(functions, roots);
    forall id | id in SsaReach(functions, roots) ensures IsSemantic(kept, id) <==> IsSemantic(functions, id) {
      assert HasCode(kept, id) && HasCode(functions, id);
    }
    KeepTwice(functions, Reachable(functions, roots));
  }

  lemma {:induction false} NestedKept(records: seq<RecordType>, s: set<Id>)
    ensures forall id :: id in s ==> (id in Nested(KeepRecords(records, s)) <==> id in Nested(records))
    ensures forall id :: id in s && id in Nested(records) ==> Nested(KeepRecords(records, s))[id] == Nested(records)[id]
    ensures KeepRecords(KeepRecords(records, s), s) == KeepRecords(records, s)
  {
    if records != [] {
      var before, last := records[..|records| - 1], records[|records| - 1];
      NestedKept(before, s);
      var kept := KeepRecords(before, s);
      if last.identity in s {
        assert (kept + [last])[..|kept|] == kept;
      } else {
        assert kept + [] == kept;
      }
    }
  }

  lemma {:induction false} DistinctKept(records: seq<RecordType>, s: set<Id>)
    requires DistinctRecords(records)
    ensures DistinctRecords(KeepRecords(records, s))
    ensures forall r :: r in KeepRecords(records, s) ==> r in records
  {
    if records != [] {
      var before, last := records[..|records| - 1], records[|records| - 1];
      DistinctKept(before, s);
      assert records == before + [last];
      var kept := KeepRecords(before, s);
      assert forall k :: 0 <= k < |kept| ==> kept[k] in before;
    }
  }

  lemma RecordsSettle(records: seq<RecordType>, required: set<Id>)
    requires DistinctRecords(records) && RecordsResolve(records, required)
    ensures var kept := KeepRecords(records, RecordReach(records, required));
            && DistinctRecords(kept) && RecordsResolve(kept, required)
            && KeepRecords(kept, RecordReach(kept, required)) == kept
  {
    hide Reach, Nested, KeepRecords, DistinctRecords;
    var reachable := RecordReach(records, required);
    var kept := KeepRecords(records, reachable);
    DistinctKept(records, reachable);
    NestedKept(records, reachable);
    ReachAgrees(Nested(records), Nested(kept), required);
  }

  lemma {:induction false} ByIdKept(obligations: seq<Obligation>, s: set<Id>)
    ensures forall id :: id in ById(KeepObligations(obligations, s)) <==> id in s && id in ById(obligations)
    ensures forall id :: id in s && id in ById(obligations) ==> ById(KeepObligations(obligations, s))[id] == ById(obligations)[id]
    ensures KeepObligations(KeepObligations(obligations, s), s) == KeepObligations(obligations, s)
  {
    if obligations != [] {
      var before, last := obligations[..|obligations| - 1], obligations[|obligations| - 1];
      ByIdKept(before, s);
      var kept := KeepObligations(before, s);
      if last.identity in s {
        assert (kept + [last])[..|kept|] == kept;
      } else {
        assert kept + [] == kept;
      }
    }
  }

  lemma ObligationsSettle(obligations: seq<Obligation>, attached: set<Id>)
    ensures var kept := KeepObligations(obligations, ObligationReach(obligations, attached));
            KeepObligations(kept, ObligationReach(kept, attached)) == kept
  {
    hide Reach, ById, KeepObligations, KnownAmong, NamedBy;
    var reachable := ObligationReach(obligations, attached);
    var kept := KeepObligations(obligations, reachable);
    ByIdKept(obligations, reachable);
    ReachIsLeast(RestsOn(obligations), attached);
    forall x, y | x in reachable ensures y in Successors(RestsOn(kept), x) <==> y in Successors(RestsOn(obligations), x) {
      if x in ById(obligations) {
        var named := NamedBy(ById(obligations)[x]);
        KnownAmongMeans(named, ById(obligations).Keys);
        KnownAmongMeans(named, ById(kept).Keys);
        if y in Successors(RestsOn(obligations), x) {
          var k :| 0 <= k < |Successors(RestsOn(obligations), x)| && Successors(RestsOn(obligations), x)[k] == y;
          assert y in reachable;
        }
      }
    }
    ReachAgrees(RestsOn(obligations), RestsOn(kept), attached);
  }

  lemma {:induction false} SpecializationsSettle(records: seq<Specialization>, s: set<Id>)
    ensures KeepSpecializations(KeepSpecializations(records, s), s) == KeepSpecializations(records, s)
  {
    if records != [] {
      var before, last := records[..|records| - 1], records[|records| - 1];
      SpecializationsSettle(before, s);
      var kept := KeepSpecializations(before, s);
      if last.specialized in s {
        assert (kept + [last])[..|kept|] == kept;
      } else {
        assert kept + [] == kept;
      }
    }
  }

  /** The application closure of an application closure, from the same roots, is itself. */
  lemma ProjectionSettles(ssa: SsaModule, roots: set<Id>)
    requires Projectable(ssa, roots)
    ensures Projectable(Projected(ssa, roots), roots)
    ensures Projected(Projected(ssa, roots), roots) == Projected(ssa, roots)
  {
    hide Unambiguous, Resolvable, Reachable, KeepFunctions, DistinctRecords, RecordsResolve, RecordReach, KeepRecords, ObligationReach,
      KeepObligations, KeepSpecializations, MentionedRecords, AttachedObligations, Elements, NamesOf, H.KeepTrace, H.KeepTransformations;
    var reachable := Reachable(ssa.functions, roots);
    var functions := KeepFunctions(ssa.functions, reachable);
    FunctionsSettle(ssa.functions, roots);
    RecordsSettle(ssa.records, Elements(MentionedRecords(functions)));
    ObligationsSettle(ssa.obligations, Elements(AttachedObligations(functions)));
    SpecializationsSettle(ssa.specializations, reachable);
    H.TraceSettles(ssa.trace, NamesOf(functions));
    H.TransformationsSettle(ssa.transformations, NamesOf(functions));
  }
}
