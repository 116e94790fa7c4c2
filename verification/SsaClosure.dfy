/** The application closure of a lowered module, and that it does not matter whether unreachable bodies
    are dropped before lowering or their lowered functions after it. */
module SsaClosure {
  import opened Prelude
  import opened CallGraph
  import opened SsaProjection
  import opened SsaTables
  import H = SsaHistory
  import L = ApplicationLowering

  function KeepSpecializations(records: seq<Specialization>, reachable: set<Id>): seq<Specialization> {
    if records == [] then []
    else
      var last := records[|records| - 1];
      KeepSpecializations(records[..|records| - 1], reachable) + if last.specialized in reachable then [last] else []
  }

  /** What trace entries and transformation records can be about. */
  ghost function NamesOf(functions: seq<SsaFunction>): set<H.Name> {
    H.Members(H.NamesIn(functions))
  }

  /** The tables that belong to these functions; the table of bindings is dropped. */
  ghost function WithFunctions(ssa: SsaModule, functions: seq<SsaFunction>, reachable: set<Id>): SsaModule {
    SsaModule(
      functions,
      KeepRecords(ssa.records, RecordReach(ssa.records, Elements(MentionedRecords(functions)))),
      KeepObligations(ssa.obligations, ObligationReach(ssa.obligations, Elements(AttachedObligations(functions)))),
      H.KeepTrace(ssa.trace, NamesOf(functions)),
      H.KeepTransformations(ssa.transformations, NamesOf(functions)),
      KeepSpecializations(ssa.specializations, reachable),
      None,
      ssa.proofs)
  }

  ghost function Projected(ssa: SsaModule, roots: set<Id>): SsaModule {
    var reachable := Reachable(ssa.functions, roots);
    WithFunctions(ssa, KeepFunctions(ssa.functions, reachable), reachable)
  }

  ghost predicate TablesResolve(ssa: SsaModule, functions: seq<SsaFunction>) {
    DistinctRecords(ssa.records) && RecordsResolve(ssa.records, Elements(MentionedRecords(functions)))
  }

  ghost predicate Projectable(ssa: SsaModule, roots: set<Id>) {
    && Unambiguous(ssa.functions)
    && Resolvable(ssa.functions, roots)
    && TablesResolve(ssa, KeepFunctions(ssa.functions, Reachable(ssa.functions, roots)))
  }

  lemma {:induction false} KeptSpecializationsMean(records: seq<Specialization>, reachable: set<Id>)
    ensures forall r :: r in KeepSpecializations(records, reachable) <==> r in records && r.specialized in reachable
  {
    if records != [] {
      var before := records[..|records| - 1];
      KeptSpecializationsMean(before, reachable);
      assert records == before + [records[|records| - 1]];
    }
  }

  method RetainSpecializations(records: seq<Specialization>, reachable: set<Id>) returns (kept: seq<Specialization>)
    ensures kept == KeepSpecializations(records, reachable)
  {
    kept := [];
    for k := 0 to |records|
      invariant kept == KeepSpecializations(records[..k], reachable)
    {
      assert records[..k + 1][..k] == records[..k];
      if records[k].specialized in reachable {
        kept := kept + [records[k]];
      }
    }
    assert records[..|records|] == records;
  }

  ghost predicate FunctionsBelong(ssa: SsaModule, p: SsaModule) {
    (forall f :: f in p.functions ==> f in ssa.functions) && CalleesProvided(p.functions)
  }

  ghost predicate RecordsBelong(ssa: SsaModule, p: SsaModule) {
    (forall r :: r in p.records ==> r in ssa.records) && RecordsComplete(p.functions, p.records)
  }

  ghost predicate ObligationsBelong(ssa: SsaModule, p: SsaModule) {
    (forall o :: o in p.obligations ==> o in ssa.obligations) && ObligationsComplete(ssa.obligations, p.functions, p.obligations)
  }

  /** History is about something that is kept, and narrowed to it. */
  ghost predicate HistoryBelongs(ssa: SsaModule, p: SsaModule) {
    && (forall r :: r in p.trace ==> exists e :: e in ssa.trace && H.Relevant(e, p.functions) && H.NarrowsTo(e, r, p.functions))
    && (forall e :: e in ssa.trace && H.Relevant(e, p.functions) ==> exists r :: r in p.trace && H.NarrowsTo(e, r, p.functions))
    && forall t :: t in p.transformations <==>
         && t in ssa.transformations
         && (H.Named(p.functions, H.Semantic(t.operation)) || H.Named(p.functions, H.Ssa(t.operation)) || H.Named(p.functions, H.Ssa(t.output)))
  }

  ghost predicate SpecializationsBelong(ssa: SsaModule, p: SsaModule) {
    forall s :: s in p.specializations <==> s in ssa.specializations && HasSemantic(p.functions, s.specialized)
  }

  /** The functions that are kept hold everything they call, and the tables are those of just these
      functions: record types and obligations complete, history narrowed, specializations that are
      among them. */
  ghost predicate Belongs(ssa: SsaModule, p: SsaModule) {
    && FunctionsBelong(ssa, p) && RecordsBelong(ssa, p) && ObligationsBelong(ssa, p) && HistoryBelongs(ssa, p) && SpecializationsBelong(ssa, p)
    && p.bindings == None && p.proofs == ssa.proofs
  }

  ghost predicate HasSemantic(functions: seq<SsaFunction>, id: Id) {
    exists f :: f in functions && f.semantic == id
  }

  lemma ReachedAreKept(functions: seq<SsaFunction>, roots: set<Id>)
    ensures forall id :: id in Reachable(functions, roots) <==> HasSemantic(KeepFunctions(functions, Reachable(functions, roots)), id)
  {
    hide SsaReach, Lookup, KeepFunctions;
    var reachable := Reachable(functions, roots);
    KeptFunctionsMean(functions, reachable);
    forall id | id in reachable ensures HasSemantic(KeepFunctions(functions, reachable), id) {
      var f := functions[Lookup(functions)[id]];
      assert f in functions && f.semantic == id;
    }
  }

  lemma ObligationsKept(ssa: SsaModule, functions: seq<SsaFunction>, reachable: set<Id>)
    ensures ObligationsBelong(ssa, WithFunctions(ssa, functions, reachable))
  {
    hide ObligationsComplete, KeepObligations, ObligationReach, AttachedObligations;
    ObligationsAreComplete(ssa.obligations, functions);
    KeptObligationsAre(ssa.obligations, ObligationReach(ssa.obligations, Elements(AttachedObligations(functions))));
  }

  lemma HistoryKept(ssa: SsaModule, functions: seq<SsaFunction>, reachable: set<Id>)
    ensures HistoryBelongs(ssa, WithFunctions(ssa, functions, reachable))
  {
    hide H.Relevant, H.NarrowsTo, H.Named, H.KeepTrace, H.KeepTransformations, H.Members, H.NamesIn;
    var p := WithFunctions(ssa, functions, reachable);
    assert NamesOf(functions) == H.Members(H.NamesIn(functions));
    H.TraceMeans(ssa.trace, functions);
    forall r | r in p.trace ensures exists e :: e in ssa.trace && H.Relevant(e, p.functions) && H.NarrowsTo(e, r, p.functions) {
      assert r in H.KeepTrace(ssa.trace, H.Members(H.NamesIn(functions)));
    }
    H.TransformationsMean(ssa.transformations, functions);
  }

  lemma RecordsKept(ssa: SsaModule, functions: seq<SsaFunction>, reachable: set<Id>)
    requires TablesResolve(ssa, functions)
    ensures RecordsBelong(ssa, WithFunctions(ssa, functions, reachable))
  {
    hide RecordsComplete, KeepRecords, RecordReach, MentionedRecords, DistinctRecords, RecordsResolve;
    RecordsAreComplete(ssa.records, functions);
    KeptRecordsAre(ssa.records, RecordReach(ssa.records, Elements(MentionedRecords(functions))));
  }

  lemma ProjectedBelongs(ssa: SsaModule, roots: set<Id>)
    requires Projectable(ssa, roots)
    ensures Belongs(ssa, Projected(ssa, roots))
  {
    hide Reachable, Unambiguous, Resolvable, TablesResolve, KeepFunctions, RecordsBelong, ObligationsBelong, HistoryBelongs, HasSemantic, CalleesProvided,
      Provides, KeepSpecializations;
    var reachable := Reachable(ssa.functions, roots);
    var functions := KeepFunctions(ssa.functions, reachable);
    KeptFunctionsMean(ssa.functions, reachable);
    KeptCallsKept(ssa.functions, roots);
    RecordsKept(ssa, functions, reachable);
    ObligationsKept(ssa, functions, reachable);
    HistoryKept(ssa, functions, reachable);
    KeptSpecializationsMean(ssa.specializations, reachable);
    ReachedAreKept(ssa.functions, roots);
  }

  /** Succeeds exactly when there are roots, the module is sound and carries no proofs, every name,
      record type and table it needs resolves, and what is left is accepted. */
  method Project(ssa: SsaModule, exports: set<L.Export>, identified: SsaModule -> bool, accepted: SsaModule -> bool)
    returns (r: Result<SsaModule, Refusal>)
    ensures var roots := L.RootSet(exports);
            && (r.Ok? <==>
              && exports != {} && identified(ssa) && ssa.proofs == 0
              && Projectable(ssa, roots)
              && accepted(Projected(ssa, roots)) && identified(Projected(ssa, roots)))
            && (r.Ok? ==> r.value == Projected(ssa, roots))
            && (r.Ok? ==> Belongs(ssa, r.value) && CalleesProvided(r.value.functions) && forall x :: x in roots ==> Provides(r.value.functions, x))
            && (r.Err? ==> !r.error.Unresolved?)
  {
    hide Belongs, Provides, CalleesProvided;
    hide L.RootSet, Unambiguous, Lookup, Resolvable, Reachable, DistinctRecords, RecordsResolve, RecordReach, ObligationReach, Elements,
      MentionedRecords, AttachedObligations, SsaProjection.KeepFunctions, H.Members, H.NamesIn, H.FunctionHas, H.KeepTrace, H.KeepTransformations;
    if exports == {} {
      return Err(NoRoots);
    }
    if !identified(ssa) || ssa.proofs != 0 {
      return Err(Invalid);
    }
    var unambiguous, index := IndexNames(ssa.functions);
    if !unambiguous {
      return Err(Ambiguous);
    }
    ghost var roots := L.RootSet(exports);
    var pending := L.QueueRoots(exports);
    var found := FindFunctions(ssa.functions, index, pending, roots);
    if found.Err? {
      return Err(found.error);
    }
    var functions := RetainFunctions(ssa.functions, found.value);
    EverythingResolves(ssa.functions, roots);
    KeptCallsKept(ssa.functions, roots);
    if |functions| != |found.value| {
      return Err(Unresolved);
    }
    var required := CollectRecords(functions);
    var records := RetainRecordClosure(ssa.records, required);
    if records.Err? {
      return Err(records.error);
    }
    var attached := CollectObligations(functions);
    var obligations := RetainObligations(ssa.obligations, attached);
    var names := H.CollectNames(functions);
    var trace := H.RetainTrace(ssa.trace, names);
    var transformations := H.RetainTransformations(ssa.transformations, names);
    var specializations := RetainSpecializations(ssa.specializations, found.value);
    var projected := SsaModule(functions, records.value, obligations, trace, transformations, specializations, None, ssa.proofs);
    if Projectable(ssa, roots) {
      ProjectedBelongs(ssa, roots);
    }
    if !accepted(projected) || !identified(projected) {
      return Err(Invalid);
    }
    return Ok(projected);
  }
}
