/** When the projected obligations, too, do not depend on which side of lowering bodies were dropped. */
module ObligationCommutation {
  import opened Prelude
  import opened Reachability
  import opened CallGraph
  import opened SsaProjection
  import opened SsaTables
  import opened SsaClosure
  import opened SsaCommutation
  import H = SsaHistory
  import L = ApplicationLowering

  ghost predicate Owes(l: Lowering, functions: seq<Function>, k: int, o: Obligation) {
    0 <= k < |functions| && o in l.obligations(functions[k])
  }

  /** No two obligations share an identity. */
  ghost predicate OwedOnce(l: Lowering, functions: seq<Function>) {
    forall j, k, o, p :: Owes(l, functions, j, o) && Owes(l, functions, k, p) && o.identity == p.identity ==> j == k && o == p
  }

  /** The identity of an obligation of a function outside the closure. */
  ghost predicate OwedOutside(l: Lowering, functions: seq<Function>, kept: set<Id>, id: Id) {
    exists k, o :: Owes(l, functions, k, o) && IdOf(functions[k]) !in kept && o.identity == id
  }

  ghost predicate OwedInside(l: Lowering, functions: seq<Function>, kept: set<Id>, o: Obligation) {
    exists k :: Owes(l, functions, k, o) && IdOf(functions[k]) in kept
  }

  lemma {:induction false} ByIdHolds(obligations: seq<Obligation>)
    ensures forall id :: id in ById(obligations) ==> ById(obligations)[id] in obligations && ById(obligations)[id].identity == id
    ensures forall o :: o in obligations ==> o.identity in ById(obligations)
  {
    if obligations != [] {
      ByIdHolds(obligations[..|obligations| - 1]);
      assert obligations == obligations[..|obligations| - 1] + [obligations[|obligations| - 1]];
    }
  }

  lemma {:induction false} LoweredObligations(l: Lowering, functions: seq<Function>)
    ensures forall o :: o in LowerObligations(l, functions) <==> exists k :: Owes(l, functions, k, o)
  {
    if functions != [] {
      var before := functions[..|functions| - 1];
      LoweredObligations(l, before);
      forall o | o in LowerObligations(l, functions) ensures exists k :: Owes(l, functions, k, o) {
        if o in LowerObligations(l, before) {
          var k :| Owes(l, before, k, o);
          assert Owes(l, functions, k, o);
        } else {
          assert Owes(l, functions, |before|, o);
        }
      }
      forall o, k | Owes(l, functions, k, o) ensures o in LowerObligations(l, functions) {
        if k < |before| {
          assert Owes(l, before, k, o);
        }
      }
    }
  }

  lemma StrippedObligations(l: Lowering, functions: seq<Function>, kept: set<Id>)
    requires Faithful(l)
    ensures forall o :: o in LowerObligations(l, L.StripOutside(functions, kept)) <==> OwedInside(l, functions, kept, o)
  {
    hide LowerObligations, Faithful;
    var stripped := L.StripOutside(functions, kept);
    LoweredObligations(l, stripped);
    forall k, o | Owes(l, stripped, k, o) ensures Owes(l, functions, k, o) && IdOf(functions[k]) in kept {
      OwesNothing(l, functions[k]);
    }
    forall k, o | Owes(l, functions, k, o) && IdOf(functions[k]) in kept ensures Owes(l, stripped, k, o) {
    }
  }

  lemma OwesNothing(l: Lowering, f: Function)
    requires Faithful(l)
    ensures l.obligations(f.(body := None)) == []
  {
    assert FaithfulAt(l, f);
  }

  /** How the obligations of the stripped program sit among all of them. */
  ghost predicate Split(full: seq<Obligation>, part: seq<Obligation>, outside: Id -> bool) {
    && (forall id :: id in ById(part) ==> id in ById(full) && ById(part)[id] == ById(full)[id] && !outside(id))
    && (forall id :: id in ById(full) && id !in ById(part) ==> outside(id))
    && (forall id :: outside(id) ==> id in ById(full))
  }

  lemma ObligationsSplit(l: Lowering, functions: seq<Function>, kept: set<Id>)
    requires Faithful(l) && OwedOnce(l, functions)
    ensures Split(LowerObligations(l, functions), LowerObligations(l, L.StripOutside(functions, kept)), id => OwedOutside(l, functions, kept, id))
  {
    hide LowerObligations, L.StripOutside, Faithful, ById;
    var full, part := LowerObligations(l, functions), LowerObligations(l, L.StripOutside(functions, kept));
    LoweredObligations(l, functions);
    StrippedObligations(l, functions, kept);
    ByIdHolds(full);
    ByIdHolds(part);
    forall id | id in ById(part) ensures id in ById(full) && ById(part)[id] == ById(full)[id] && !OwedOutside(l, functions, kept, id) {
      var o := ById(part)[id];
      var k :| Owes(l, functions, k, o) && IdOf(functions[k]) in kept;
      var p := ById(full)[id];
      var j :| Owes(l, functions, j, p);
    }
    forall id | id in ById(full) && id !in ById(part) ensures OwedOutside(l, functions, kept, id) {
      var o := ById(full)[id];
      var k :| Owes(l, functions, k, o);
      assert IdOf(functions[k]) in kept ==> OwedInside(l, functions, kept, o);
    }
    forall id | OwedOutside(l, functions, kept, id) ensures id in ById(full) {
      var k, o :| Owes(l, functions, k, o) && IdOf(functions[k]) !in kept && o.identity == id;
    }
  }

  /** Nothing that the stripped projection keeps, or is attached to its code, leads outside. */
  ghost predicate SelfContained(part: seq<Obligation>, attached: set<Id>, outside: Id -> bool) {
    && (forall id :: id in attached ==> !outside(id))
    && forall id, k :: id in ObligationReach(part, attached) && id in ById(part) && 0 <= k < |NamedBy(ById(part)[id])| ==> !outside(NamedBy(ById(part)[id])[k])
  }

  lemma SameRests(full: seq<Obligation>, part: seq<Obligation>, outside: Id -> bool, attached: set<Id>)
    requires Split(full, part, outside) && SelfContained(part, attached, outside)
    ensures ObligationReach(full, attached) == ObligationReach(part, attached)
  {
    hide Reach, ById, KnownAmong, NamedBy;
    forall x, y | x in ObligationReach(part, attached)
      ensures y in Successors(RestsOn(full), x) <==> y in Successors(RestsOn(part), x)
    {
      if x in ById(part) {
        var named := NamedBy(ById(part)[x]);
        KnownAmongMeans(named, ById(part).Keys);
        KnownAmongMeans(named, ById(full).Keys);
      } else {
        ReachedIsKnown(part, attached, x);
        assert x !in ById(full);
      }
    }
    ReachAgrees(RestsOn(part), RestsOn(full), attached);
  }

  /** Every obligation reached is attached, or known. */
  lemma ReachedIsKnown(obligations: seq<Obligation>, attached: set<Id>, x: Id)
    requires x in ObligationReach(obligations, attached)
    ensures x in attached || x in ById(obligations)
  {
    hide Reach, ById, KnownAmong;
    var edges := RestsOn(obligations);
    ReachIsLeast(edges, attached);
    var s := attached + ById(obligations).Keys;
    forall y, k | y in s && 0 <= k < |Successors(edges, y)| ensures Successors(edges, y)[k] in s {
      KnownAmongMeans(NamedBy(ById(obligations)[y]), ById(obligations).Keys);
      assert Successors(edges, y)[k] in Successors(edges, y);
    }
    assert ClosedUnder(edges, s);
  }

  lemma {:induction false} KeepIn(obligations: seq<Obligation>, reachable: set<Id>)
    ensures forall o :: o in KeepObligations(obligations, reachable) <==> o in obligations && o.identity in reachable
  {
    if obligations != [] {
      KeepIn(obligations[..|obligations| - 1], reachable);
      assert obligations == obligations[..|obligations| - 1] + [obligations[|obligations| - 1]];
    }
  }

  lemma {:induction false} KeepConcat(a: seq<Obligation>, b: seq<Obligation>, reachable: set<Id>)
    ensures KeepObligations(a + b, reachable) == KeepObligations(a, reachable) + KeepObligations(b, reachable)
    decreases |b|
  {
    if b == [] {
      assert a + b == a;
    } else {
      KeepConcat(a, b[..|b| - 1], reachable);
      assert (a + b)[..|a + b| - 1] == a + b[..|b| - 1];
    }
  }

  lemma {:induction false} KeepNone(obligations: seq<Obligation>, reachable: set<Id>)
    requires forall k :: 0 <= k < |obligations| ==> obligations[k].identity !in reachable
    ensures KeepObligations(obligations, reachable) == []
  {
    if obligations != [] {
      KeepNone(obligations[..|obligations| - 1], reachable);
    }
  }

  lemma {:induction false} KeepInside(l: Lowering, functions: seq<Function>, kept: set<Id>, reachable: set<Id>)
    requires Faithful(l)
    requires forall k, o :: Owes(l, functions, k, o) && IdOf(functions[k]) !in kept ==> o.identity !in reachable
    ensures KeepObligations(LowerObligations(l, functions), reachable) ==
            KeepObligations(LowerObligations(l, L.StripOutside(functions, kept)), reachable)
  {
    if functions != [] {
      hide Faithful, KeepObligations;
      var before, last := functions[..|functions| - 1], functions[|functions| - 1];
      var stripped := L.StripOutside(functions, kept);
      assert stripped[..|stripped| - 1] == L.StripOutside(before, kept);
      assert stripped[|stripped| - 1] == L.Stripped(last, IdOf(last) in kept);
      forall k, o | Owes(l, before, k, o) && IdOf(before[k]) !in kept ensures o.identity !in reachable {
        assert Owes(l, functions, k, o);
      }
      KeepInside(l, before, kept, reachable);
      KeepConcat(LowerObligations(l, before), l.obligations(last), reachable);
      KeepConcat(LowerObligations(l, L.StripOutside(before, kept)), l.obligations(L.Stripped(last, IdOf(last) in kept)), reachable);
      if IdOf(last) !in kept {
        OwesNothing(l, last);
        forall o | o in l.obligations(last) ensures o.identity !in reachable {
          assert Owes(l, functions, |before|, o);
        }
        KeepNone(l.obligations(last), reachable);
        KeepNone([], reachable);
      }
    }
  }

  /** Obligations commute with stripping when the closure's obligations are self-contained. */
  lemma SelfContainedCommutes(l: Lowering, functions: seq<Function>, kept: set<Id>, attached: set<Id>)
    requires Faithful(l) && OwedOnce(l, functions)
    requires SelfContained(LowerObligations(l, L.StripOutside(functions, kept)), attached, id => OwedOutside(l, functions, kept, id))
    ensures var full, part := LowerObligations(l, functions), LowerObligations(l, L.StripOutside(functions, kept));
            KeepObligations(full, ObligationReach(full, attached)) == KeepObligations(part, ObligationReach(part, attached))
  {
    hide LowerObligations, L.StripOutside, Faithful, ById, OwedOnce, ObligationReach, KeepObligations;
    var full, part := LowerObligations(l, functions), LowerObligations(l, L.StripOutside(functions, kept));
    ObligationsSplit(l, functions, kept);
    SameRests(full, part, id => OwedOutside(l, functions, kept, id), attached);
    var reachable := ObligationReach(part, attached);
    forall k, o | Owes(l, functions, k, o) && IdOf(functions[k]) !in kept ensures o.identity !in reachable {
      assert OwedOutside(l, functions, kept, o.identity);
      if o.identity in reachable {
        ReachedIsKnown(part, attached, o.identity);
        assert false;
      }
    }
    KeepInside(l, functions, kept, reachable);
  }

  lemma ReachGrows(edges: map<Id, seq<Id>>, more: map<Id, seq<Id>>, roots: set<Id>)
    requires forall x, y :: y in Successors(edges, x) ==> y in Successors(more, x)
    ensures Reach(edges, roots) <= Reach(more, roots)
  {
    hide Reach;
    ReachIsLeast(edges, roots);
    ReachIsLeast(more, roots);
    var s := Reach(more, roots);
    forall x, k | x in s && 0 <= k < |Successors(edges, x)| ensures Successors(edges, x)[k] in s {
      assert Successors(edges, x)[k] in Successors(edges, x);
      var j :| 0 <= j < |Successors(more, x)| && Successors(more, x)[j] == Successors(edges, x)[k];
    }
    assert ClosedUnder(edges, s);
  }

  /** What leads outside is kept from the full module and cannot be kept from the stripped one. */
  lemma LeakDiffers(full: seq<Obligation>, part: seq<Obligation>, outside: Id -> bool, attached: set<Id>)
    requires Split(full, part, outside) && !SelfContained(part, attached, outside)
    ensures KeepObligations(full, ObligationReach(full, attached)) != KeepObligations(part, ObligationReach(part, attached))
  {
    hide Reach, ById, KnownAmong, KeepObligations, NamedBy;
    ReachIsLeast(RestsOn(full), attached);
    var leak: Id;
    if id :| id in attached && outside(id) {
      leak := id;
    } else {
      var id, k :| id in ObligationReach(part, attached) && id in ById(part) && 0 <= k < |NamedBy(ById(part)[id])| && outside(NamedBy(ById(part)[id])[k]);
      leak := NamedBy(ById(part)[id])[k];
      forall x, y | y in Successors(RestsOn(part), x) ensures y in Successors(RestsOn(full), x) {
        if x in ById(part) {
          KnownAmongMeans(NamedBy(ById(part)[x]), ById(part).Keys);
          KnownAmongMeans(NamedBy(ById(part)[x]), ById(full).Keys);
        }
      }
      ReachGrows(RestsOn(part), RestsOn(full), attached);
      KnownAmongMeans(NamedBy(ById(full)[id]), ById(full).Keys);
      assert leak in Successors(RestsOn(full), id);
    }
    assert leak in ObligationReach(full, attached);
    ByIdHolds(full);
    ByIdHolds(part);
    KeepIn(full, ObligationReach(full, attached));
    KeepIn(part, ObligationReach(part, attached));
    assert ById(full)[leak] in KeepObligations(full, ObligationReach(full, attached));
  }

  ghost predicate ClosureSelfContained(l: Lowering, program: Program, exports: set<L.Export>) {
    var kept := L.Closure(program, exports);
    var functions := KeepFunctions(LowerFunctions(l, program.functions), kept);
    SelfContained(
      LowerObligations(l, L.StripOutside(program.functions, kept)),
      Elements(AttachedObligations(functions)),
      id => OwedOutside(l, program.functions, kept, id))
  }

  // History

  /** No trace entry and no transformation of a function outside the closure is about something in it. */
  ghost predicate HistoryApart(l: Lowering, program: Program, exports: set<L.Export>) {
    var kept := L.Closure(program, exports);
    var names := NamesOf(KeepFunctions(LowerFunctions(l, program.functions), kept));
    forall k :: 0 <= k < |program.functions| && IdOf(program.functions[k]) !in kept ==>
      && (forall e :: e in l.trace(program.functions[k]) ==> !H.StaysTraced(e, names))
      && (forall t :: t in l.transformations(program.functions[k]) ==> !H.StaysTransformed(t, names))
  }

  lemma {:induction false} TraceGathered(l: Lowering, functions: seq<Function>, names: set<H.Name>)
    ensures H.KeepTrace(Gathered(l.trace, functions), names) == Gathered((f: Function) => H.KeepTrace(l.trace(f), names), functions)
  {
    if functions != [] {
      var before := functions[..|functions| - 1];
      TraceGathered(l, before, names);
      H.TraceConcat(Gathered(l.trace, before), l.trace(functions[|functions| - 1]), names);
    }
  }

  lemma {:induction false} TransformationsGathered(l: Lowering, functions: seq<Function>, names: set<H.Name>)
    ensures H.KeepTransformations(Gathered(l.transformations, functions), names)
            == Gathered((f: Function) => H.KeepTransformations(l.transformations(f), names), functions)
  {
    if functions != [] {
      var before := functions[..|functions| - 1];
      TransformationsGathered(l, before, names);
      H.TransformationsConcat(Gathered(l.transformations, before), l.transformations(functions[|functions| - 1]), names);
    }
  }

  lemma BareHasNoHistory(l: Lowering, f: Function)
    requires Faithful(l)
    ensures l.trace(f.(body := None)) == [] && l.transformations(f.(body := None)) == []
  {
    assert FaithfulAt(l, f);
  }

  ghost predicate TraceApart(l: Lowering, functions: seq<Function>, kept: set<Id>, names: set<H.Name>) {
    forall k :: 0 <= k < |functions| && IdOf(functions[k]) !in kept ==> forall e :: e in l.trace(functions[k]) ==> !H.StaysTraced(e, names)
  }

  lemma TraceCommutes(l: Lowering, functions: seq<Function>, kept: set<Id>, names: set<H.Name>)
    requires Faithful(l)
    ensures H.KeepTrace(Gathered(l.trace, L.StripOutside(functions, kept)), names) == H.KeepTrace(Gathered(l.trace, functions), names)
            <==> TraceApart(l, functions, kept, names)
  {
    hide Faithful, L.StripOutside, H.KeepTrace, H.StaysTraced;
    var part := (f: Function) => H.KeepTrace(l.trace(f), names);
    forall f: Function ensures part(f.(body := None)) == [] {
      BareHasNoHistory(l, f);
      H.NoTrace([], names);
    }
    TraceGathered(l, functions, names);
    TraceGathered(l, L.StripOutside(functions, kept), names);
    GatheredStripped(part, functions, kept);
    forall k | 0 <= k < |functions| ensures part(functions[k]) == [] <==> forall e :: e in l.trace(functions[k]) ==> !H.StaysTraced(e, names) {
      H.NoTrace(l.trace(functions[k]), names);
    }
  }

  ghost predicate TransformationsApart(l: Lowering, functions: seq<Function>, kept: set<Id>, names: set<H.Name>) {
    forall k :: 0 <= k < |functions| && IdOf(functions[k]) !in kept ==>
      forall t :: t in l.transformations(functions[k]) ==> !H.StaysTransformed(t, names)
  }

  lemma TransformationsCommute(l: Lowering, functions: seq<Function>, kept: set<Id>, names: set<H.Name>)
    requires Faithful(l)
    ensures H.KeepTransformations(Gathered(l.transformations, L.StripOutside(functions, kept)), names)
            == H.KeepTransformations(Gathered(l.transformations, functions), names)
            <==> TransformationsApart(l, functions, kept, names)
  {
    hide Faithful, L.StripOutside, H.KeepTransformations, H.StaysTransformed;
    var part := (f: Function) => H.KeepTransformations(l.transformations(f), names);
    forall f: Function ensures part(f.(body := None)) == [] {
      BareHasNoHistory(l, f);
      H.NoTransformations([], names);
    }
    TransformationsGathered(l, functions, names);
    TransformationsGathered(l, L.StripOutside(functions, kept), names);
    GatheredStripped(part, functions, kept);
    forall k | 0 <= k < |functions|
      ensures part(functions[k]) == [] <==> forall t :: t in l.transformations(functions[k]) ==> !H.StaysTransformed(t, names)
    {
      H.NoTransformations(l.transformations(functions[k]), names);
    }
  }

  /** Stripping and then projecting succeeds when projecting does. It gives the same functions, record
      types and specializations; and the same module if and only if no obligation in it rests on one
      of a function outside the closure, and no history of such a function is about one inside. */
  lemma ProjectionCommutes(l: Lowering, program: Program, exports: set<L.Export>, records: seq<RecordType>)
    requires Faithful(l) && L.Lowerable(program, exports)
    requires Unambiguous(LowerFunctions(l, program.functions)) && OwedOnce(l, program.functions)
    ensures var full, part := LowerModule(l, program, records), LowerModule(l, StrippedProgram(program, exports), records);
            var roots := L.RootSet(exports);
            && (Projectable(part, roots) <==> Projectable(full, roots))
            && Projected(part, roots) == Projected(full, roots).(
                 obligations := Projected(part, roots).obligations,
                 trace := Projected(part, roots).trace,
                 transformations := Projected(part, roots).transformations)
            && (Projected(part, roots).obligations == Projected(full, roots).obligations <==> ClosureSelfContained(l, program, exports))
            && (Projected(part, roots) == Projected(full, roots) <==>
                  ClosureSelfContained(l, program, exports) && HistoryApart(l, program, exports))
  {
    hide Faithful, Unambiguous, OwedOnce, L.Lowerable, L.Closure, L.RootSet, LowerFunctions, LowerObligations, KeepFunctions, L.StripOutside,
      Reachable, Resolvable, SelfContained, ById, ObligationReach, KeepObligations, RecordReach, KeepRecords, Elements, AttachedObligations, MentionedRecords,
      NamesOf, Gathered, H.KeepTrace, H.KeepTransformations, H.StaysTraced, H.StaysTransformed;
    FunctionsCommute(l, program, exports);
    var kept := L.Closure(program, exports);
    var functions := KeepFunctions(LowerFunctions(l, program.functions), kept);
    var attached := Elements(AttachedObligations(functions));
    TraceCommutes(l, program.functions, kept, NamesOf(functions));
    TransformationsCommute(l, program.functions, kept, NamesOf(functions));
    if ClosureSelfContained(l, program, exports) {
      SelfContainedCommutes(l, program.functions, kept, attached);
    } else {
      ObligationsSplit(l, program.functions, kept);
      LeakDiffers(LowerObligations(l, program.functions), LowerObligations(l, L.StripOutside(program.functions, kept)),
                  id => OwedOutside(l, program.functions, kept, id), attached);
    }
  }

  // A module whose obligations do not commute: `f`'s rests on that of `g`, which nothing calls.

  function ExampleLowering(): Lowering {
    Lowering(
      (f: Function) =>
        if f.body.None? || f.isGeneric then None
        else
          var code := [Instruction(Text("op"), None, None, Effect, [], [Text(f.name)])];
          Some(SsaFunction(
            IdOf(f), IdOf(f), [], [], [Iteration(Text("loop"), [], [], BoolType, None, Callees(f.body), [])],
            [Block(Text("entry"), None, [], code)])),
      (f: Function) => if f.body.None? then [] else [Obligation(Text(f.name), [Text("g")], [])],
      _ => [], _ => [], _ => None)
  }

  function ExampleFunction(name: string): Function {
    Function("m", name, false, Some(Body([], [])))
  }

  function ExampleProgram(): Program {
    Program([ExampleFunction("f"), ExampleFunction("g")], [])
  }

  lemma ExampleIsFaithful()
    ensures Faithful(ExampleLowering())
  {
    var l := ExampleLowering();
    forall f ensures FaithfulAt(l, f) {
      if l.translate(f).Some? {
        var lowered := l.translate(f).value;
        var code := lowered.blocks[0].instructions;
        assert InstructionCalls(code) == [] by {
          assert code[..0] == [];
        }
        assert BlocksCall(lowered.blocks) == [] by {
          assert lowered.blocks[..0] == [];
        }
        assert IterationsCall(lowered.iterations) == Callees(f.body) by {
          assert lowered.iterations[..0] == [];
        }
      }
    }
  }

  lemma ExampleClosure()
    ensures L.Closure(ExampleProgram(), {L.Export("m", "f")}) == {FunctionId("m", "f")}
    ensures L.Lowerable(ExampleProgram(), {L.Export("m", "f")})
  {
    hide Reach;
    var functions := ExampleProgram().functions;
    var roots := L.RootSet({L.Export("m", "f")});
    var f := FunctionId("m", "f");
    assert roots == {f} by {
      assert L.ExportId(L.Export("m", "f")) == f;
    }
    assert functions[..1] == [functions[0]] && functions[..1][..0] == [];
    assert Index(functions)[f] == functions[0];
    assert Callees(functions[0].body) == [];
    ReachIsLeast(CallEdges(functions), roots);
    assert ClosedUnder(CallEdges(functions), {f});
  }

  lemma ExampleStripped()
    ensures LowerObligations(ExampleLowering(), L.StripOutside(ExampleProgram().functions, {FunctionId("m", "f")})) ==
            [Obligation(Text("f"), [Text("g")], [])]
  {
    var l, functions, kept := ExampleLowering(), ExampleProgram().functions, {FunctionId("m", "f")};
    var stripped := L.StripOutside(functions, kept);
    assert stripped == [functions[0], functions[1].(body := None)];
    assert stripped[..1] == [functions[0]] && stripped[..1][..0] == [];
    assert LowerObligations(l, [functions[0]]) == [] + l.obligations(functions[0]);
    assert LowerObligations(l, stripped) == LowerObligations(l, stripped[..1]) + l.obligations(stripped[1]);
  }

  lemma ExampleOwes()
    ensures OwedOnce(ExampleLowering(), ExampleProgram().functions)
    ensures OwedOutside(ExampleLowering(), ExampleProgram().functions, {FunctionId("m", "f")}, Text("g"))
  {
    assert Owes(ExampleLowering(), ExampleProgram().functions, 1, Obligation(Text("g"), [Text("g")], []));
  }

  lemma ExampleIsNotSelfContained()
    ensures Faithful(ExampleLowering()) && L.Lowerable(ExampleProgram(), {L.Export("m", "f")})
    ensures OwedOnce(ExampleLowering(), ExampleProgram().functions)
    ensures !ClosureSelfContained(ExampleLowering(), ExampleProgram(), {L.Export("m", "f")})
  {
    hide Reach, Faithful, L.Lowerable, Callees, LowerObligations, L.StripOutside, LowerFunctions, KeepFunctions, AttachedObligations, L.Closure;
    hide OwedOutside, OwedOnce, ExampleLowering, ExampleProgram;
    ExampleIsFaithful();
    ExampleClosure();
    ExampleOwes();
    var l, functions, kept := ExampleLowering(), ExampleProgram().functions, {FunctionId("m", "f")};
    var stripped := L.StripOutside(functions, kept);
    var part := LowerObligations(l, stripped);
    var o := Obligation(Text("f"), [Text("g")], []);
    assert part == [o] by {
      ExampleStripped();
    }
    var lowered := KeepFunctions(LowerFunctions(l, functions), kept);
    var attached := Elements(AttachedObligations(lowered));
    assert Text("f") in attached by {
      ExampleAttaches();
    }
    ReachIsLeast(RestsOn(part), attached);
    assert ById(part)[Text("f")] == o by {
      assert part[..0] == [];
    }
    assert NamedBy(o)[0] == Text("g");
  }

  lemma ExampleAttaches()
    ensures Text("f") in AttachedObligations(KeepFunctions(LowerFunctions(ExampleLowering(), ExampleProgram().functions), {FunctionId("m", "f")}))
  {
    hide Callees;
    var l, functions, kept := ExampleLowering(), ExampleProgram().functions, {FunctionId("m", "f")};
    var f, g := l.translate(functions[0]).value, l.translate(functions[1]).value;
    assert LowerFunctions(l, functions) == [f, g] by {
      assert functions[..1] == [functions[0]] && functions[..1][..0] == [];
    }
    KeepAppends([], Some(f), kept);
    KeepAppends([f], Some(g), kept);
    assert [] + Listed(Some(f)) == [f] && [f] + Listed(Some(g)) == [f, g];
    assert AttachedObligations([f]) == IterationsObligations(f.iterations) + BlocksObligations(f.blocks) by {
      assert [f][..0] == [];
    }
    assert BlocksObligations(f.blocks) == CodeObligations(f.blocks[0].instructions) by {
      assert f.blocks[..0] == [];
    }
    assert CodeObligations(f.blocks[0].instructions) == [Text("f")] by {
      assert f.blocks[0].instructions[..0] == [];
    }
    assert IterationsObligations(f.iterations) == [] by {
      assert f.iterations[..0] == [];
    }
  }

  lemma ExampleIsUnambiguous()
    ensures Unambiguous(LowerFunctions(ExampleLowering(), ExampleProgram().functions))
    ensures MentionedRecords(KeepFunctions(LowerFunctions(ExampleLowering(), ExampleProgram().functions), {FunctionId("m", "f")})) == []
  {
    hide Callees;
    var l, functions, kept := ExampleLowering(), ExampleProgram().functions, {FunctionId("m", "f")};
    var f, g := l.translate(functions[0]).value, l.translate(functions[1]).value;
    assert LowerFunctions(l, functions) == [f, g] by {
      assert functions[..1] == [functions[0]] && functions[..1][..0] == [];
    }
    hide LowerFunctions;
    ExampleKeeps(f, g, kept);
    forall id ensures id !in MentionedRecords([f]) {
      ExampleMentionsNothing(f, id);
    }
    hide MentionedRecords;
    NoElement(MentionedRecords([f]));
  }

  lemma ExampleKeeps(f: SsaFunction, g: SsaFunction, kept: set<Id>)
    requires f.semantic in kept && g.semantic !in kept
    ensures KeepFunctions([f, g], kept) == [f]
  {
    KeepAppends([], Some(f), kept);
    KeepAppends([f], Some(g), kept);
    assert [] + Listed(Some(f)) == [f] && [f] + Listed(Some(g)) == [f, g];
  }

  lemma NoElement(s: seq<Id>)
    ensures s != [] ==> s[0] in s
  {
  }

  lemma ExampleMentionsNothing(f: SsaFunction, id: Id)
    requires ExampleLowering().translate(ExampleFunction("f")) == Some(f)
    ensures id !in MentionedRecords([f])
  {
    hide Callees;
    MentionedRecordsMean([f], id);
    hide MentionedRecords, FunctionRecords;
  }

  /** Dropping `g`'s body before lowering gives another module than dropping it after: the obligation of
      `g` is kept only in the second. Both projections succeed. */
  lemma ExampleLeaks()
    ensures var l, program, exports := ExampleLowering(), ExampleProgram(), {L.Export("m", "f")};
            var full, part := LowerModule(l, program, []), LowerModule(l, StrippedProgram(program, exports), []);
            var roots := L.RootSet(exports);
            && Faithful(l) && L.Lowerable(program, exports)
            && Unambiguous(full.functions) && OwedOnce(l, program.functions)
            && Projectable(full, roots) && Projectable(part, roots)
            && Projected(part, roots) != Projected(full, roots)
  {
    hide Faithful, Unambiguous, OwedOnce, L.Lowerable, L.Closure, L.RootSet, LowerFunctions, LowerObligations, KeepFunctions, StrippedProgram,
      ClosureSelfContained, Projected, Reachable, Resolvable, MentionedRecords, ExampleLowering, ExampleProgram;
    var l, program, exports := ExampleLowering(), ExampleProgram(), {L.Export("m", "f")};
    ExampleIsNotSelfContained();
    ExampleIsUnambiguous();
    ExampleClosure();
    FunctionsCommute(l, program, exports);
    NothingNeeded();
    ProjectionCommutes(l, program, exports, []);
  }

  lemma NothingNeeded()
    ensures DistinctRecords([]) && RecordsResolve([], Elements([]))
  {
    ReachIsLeast(Nested([]), {});
    NoElements();
    assert ClosedUnder(Nested([]), {});
  }
}
