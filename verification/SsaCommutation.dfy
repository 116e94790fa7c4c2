/** Dropping unreachable bodies before lowering, or their lowered functions after it, is the same. */
module SsaCommutation {
  import opened Prelude
  import opened Reachability
  import opened CallGraph
  import opened SsaProjection
  import L = ApplicationLowering

  /** Lowering works function by function, but for the table of bindings. */
  datatype Lowering = Lowering(
    translate: Function -> Option<SsaFunction>, obligations: Function -> seq<Obligation>,
    trace: Function -> seq<TraceEntry>, transformations: Function -> seq<Transformation>,
    bindings: Program -> Option<seq<Id>>)

  ghost predicate SameMembers(a: seq<Id>, b: seq<Id>) {
    forall x :: x in a <==> x in b
  }

  ghost predicate FaithfulAt(l: Lowering, f: Function) {
    var lowered, declared := l.translate(f), l.translate(f.(body := None));
    && (lowered.Some? ==> lowered.value.semantic == IdOf(f))
    && (f.body.Some? && !f.isGeneric ==>
      lowered.Some? && lowered.value.blocks != [] && SameMembers(SsaCallees(lowered.value), Callees(f.body)))
    && (declared.Some? ==> lowered.Some? && lowered.value.identity == declared.value.identity && declared.value.semantic == IdOf(f))
    && l.obligations(f.(body := None)) == []
    && l.trace(f.(body := None)) == [] && l.transformations(f.(body := None)) == []
  }

  /** A function keeps its identity and its callees; a declaration is named like the function it declares,
      owes nothing and has no history. */
  ghost predicate Faithful(l: Lowering) {
    forall f :: FaithfulAt(l, f)
  }

  function LowerFunctions(l: Lowering, functions: seq<Function>): seq<SsaFunction> {
    if functions == [] then []
    else
      LowerFunctions(l, functions[..|functions| - 1]) +
      var lowered := l.translate(functions[|functions| - 1]); if lowered.Some? then [lowered.value] else []
  }

  function LowerObligations(l: Lowering, functions: seq<Function>): seq<Obligation> {
    if functions == [] then []
    else LowerObligations(l, functions[..|functions| - 1]) + l.obligations(functions[|functions| - 1])
  }

  /** What every function contributes, in order. */
  function Gathered<T>(part: Function -> seq<T>, functions: seq<Function>): seq<T> {
    if functions == [] then [] else Gathered(part, functions[..|functions| - 1]) + part(functions[|functions| - 1])
  }

  ghost predicate NothingOutside<T>(part: Function -> seq<T>, functions: seq<Function>, kept: set<Id>) {
    forall k :: 0 <= k < |functions| && IdOf(functions[k]) !in kept ==> part(functions[k]) == []
  }

  /** Dropping bodies drops contributions, and none exactly when no dropped body had any. */
  lemma {:induction false} GatheredStripped<T>(part: Function -> seq<T>, functions: seq<Function>, kept: set<Id>)
    requires forall f: Function :: part(f.(body := None)) == []
    ensures |Gathered(part, L.StripOutside(functions, kept))| <= |Gathered(part, functions)|
    ensures Gathered(part, L.StripOutside(functions, kept)) == Gathered(part, functions) <==> NothingOutside(part, functions, kept)
  {
    if functions != [] {
      var before, last := functions[..|functions| - 1], functions[|functions| - 1];
      var stripped := L.StripOutside(functions, kept);
      GatheredStripped(part, before, kept);
      assert stripped[..|stripped| - 1] == L.StripOutside(before, kept);
      assert stripped[|stripped| - 1] == L.Stripped(last, IdOf(last) in kept);
      assert NothingOutside(part, functions, kept) <==> NothingOutside(part, before, kept) && (IdOf(last) in kept || part(last) == []) by {
        assert functions == before + [last];
      }
      hide NothingOutside, L.StripOutside;
      var a, b := Gathered(part, L.StripOutside(before, kept)), Gathered(part, before);
      if IdOf(last) in kept {
        SameEnds(a, b, part(last));
      } else {
        assert a + [] == a;
        if a == b + part(last) {
          assert part(last) == [];
          assert b + [] == b;
        }
      }
    }
  }

  lemma SameEnds<T>(a: seq<T>, b: seq<T>, end: seq<T>)
    requires |a| <= |b|
    ensures a + end == b + end <==> a == b
  {
    if a + end == b + end {
      assert |a| == |b|;
      assert a == (a + end)[..|a|] == (b + end)[..|b|] == b;
    }
  }

  function LowerModule(l: Lowering, program: Program, records: seq<RecordType>): SsaModule {
    SsaModule(
      LowerFunctions(l, program.functions), records, LowerObligations(l, program.functions),
      Gathered(l.trace, program.functions), Gathered(l.transformations, program.functions),
      program.specializations, l.bindings(program), 0)
  }

  ghost function StrippedProgram(program: Program, exports: set<L.Export>): Program {
    program.(functions := L.StripOutside(program.functions, L.Closure(program, exports)))
  }

  lemma {:induction false} LoweredIn(l: Lowering, functions: seq<Function>)
    ensures forall f :: f in functions && l.translate(f).Some? ==> l.translate(f).value in LowerFunctions(l, functions)
  {
    if functions != [] {
      LoweredIn(l, functions[..|functions| - 1]);
      assert functions == functions[..|functions| - 1] + [functions[|functions| - 1]];
    }
  }

  lemma NamedIs(functions: seq<SsaFunction>, f: SsaFunction, id: Id)
    requires Unambiguous(functions) && f in functions && Names(f, id)
    ensures id in Lookup(functions) && Lookup(functions)[id] < |functions| && functions[Lookup(functions)[id]] == f
  {
    var k :| 0 <= k < |functions| && functions[k] == f;
    UnambiguousLookup(functions, k, id);
  }

  /** The lowered function behind an identity in the closure. */
  lemma LoweredResolves(l: Lowering, program: Program, functions: seq<Function>, id: Id)
    requires Faithful(l) && L.Executable(program, id) && Index(program.functions)[id] in functions
    requires Unambiguous(LowerFunctions(l, functions))
    ensures HasCode(LowerFunctions(l, functions), id) && IsSemantic(LowerFunctions(l, functions), id)
    ensures SameMembers(Successors(SsaEdges(LowerFunctions(l, functions)), id), Callees(Index(program.functions)[id].body))
  {
    hide Unambiguous, Lookup, SsaCallees, Callees, Index, LowerFunctions;
    var f := Index(program.functions)[id];
    IndexFinds(program.functions);
    assert FaithfulAt(l, f);
    LoweredIn(l, functions);
    NamedIs(LowerFunctions(l, functions), l.translate(f).value, id);
  }

  lemma LoweredReach(l: Lowering, program: Program, exports: set<L.Export>, functions: seq<Function>)
    requires Faithful(l) && L.Lowerable(program, exports)
    requires forall id :: id in L.Closure(program, exports) ==> Index(program.functions)[id] in functions
    requires Unambiguous(LowerFunctions(l, functions))
    ensures SsaReach(LowerFunctions(l, functions), L.RootSet(exports)) == L.Closure(program, exports)
    ensures Reachable(LowerFunctions(l, functions), L.RootSet(exports)) == L.Closure(program, exports)
    ensures Resolvable(LowerFunctions(l, functions), L.RootSet(exports))
  {
    hide Unambiguous, Lookup, Callees, Index, LowerFunctions, L.RootSet, Reach, HasCode, IsSemantic, SsaEdges, Faithful;
    var lowered := LowerFunctions(l, functions);
    forall id | id in L.Closure(program, exports)
      ensures HasCode(lowered, id) && IsSemantic(lowered, id)
      ensures SameMembers(Successors(SsaEdges(lowered), id), Successors(CallEdges(program.functions), id))
    {
      LoweredResolves(l, program, functions, id);
    }
    ReachAgrees(CallEdges(program.functions), SsaEdges(lowered), L.RootSet(exports));
  }

  lemma StripKeeps(program: Program, exports: set<L.Export>, id: Id)
    requires id in L.Closure(program, exports) && id in Index(program.functions)
    ensures Index(program.functions)[id] in L.StripOutside(program.functions, L.Closure(program, exports))
  {
    hide L.Closure, Index;
    IndexFinds(program.functions);
    var k :| 0 <= k < |program.functions| && program.functions[k] == Index(program.functions)[id];
    assert L.StripOutside(program.functions, L.Closure(program, exports))[k] == program.functions[k];
  }

  /** The names of the lowered functions, one by one. */
  ghost predicate Within(a: seq<SsaFunction>, b: seq<SsaFunction>) {
    forall k, id :: 0 <= k < |a| && Names(a[k], id) ==> exists j :: 0 <= j < |b| && Names(b[j], id)
  }

  lemma {:induction false} StrippedNames(l: Lowering, functions: seq<Function>, kept: set<Id>)
    requires Faithful(l)
    ensures Within(LowerFunctions(l, L.StripOutside(functions, kept)), LowerFunctions(l, functions))
    ensures Unambiguous(LowerFunctions(l, functions)) ==> Unambiguous(LowerFunctions(l, L.StripOutside(functions, kept)))
  {
    if functions != [] {
      hide Faithful, Unambiguous, Within, Names;
      var before, last := functions[..|functions| - 1], functions[|functions| - 1];
      var stripped := L.StripOutside(functions, kept);
      StrippedNames(l, before, kept);
      assert stripped[..|stripped| - 1] == L.StripOutside(before, kept);
      assert stripped[|stripped| - 1] == L.Stripped(last, IdOf(last) in kept);
      NamesOfOne(l, last, kept);
      var a, b := LowerFunctions(l, stripped[..|stripped| - 1]), LowerFunctions(l, before);
      WithinAppend(a, b, l.translate(L.Stripped(last, IdOf(last) in kept)), l.translate(last));
    }
  }

  function Listed(f: Option<SsaFunction>): seq<SsaFunction> {
    if f.Some? then [f.value] else []
  }

  ghost predicate SameNames(f: Option<SsaFunction>, g: Option<SsaFunction>) {
    f.Some? ==> g.Some? && f.value.identity == g.value.identity && f.value.semantic == g.value.semantic
  }

  lemma NamesOfOne(l: Lowering, f: Function, kept: set<Id>)
    requires Faithful(l)
    ensures SameNames(l.translate(L.Stripped(f, IdOf(f) in kept)), l.translate(f))
  {
    assert FaithfulAt(l, f);
  }

  lemma WithinAppend(a: seq<SsaFunction>, b: seq<SsaFunction>, f: Option<SsaFunction>, g: Option<SsaFunction>)
    requires Within(a, b) && SameNames(f, g)
    ensures Within(a + Listed(f), b + Listed(g))
    ensures (Unambiguous(b) ==> Unambiguous(a)) && Unambiguous(b + Listed(g)) ==> Unambiguous(a + Listed(f))
  {
    var a', b' := a + Listed(f), b + Listed(g);
    forall k, id | 0 <= k < |a'| && Names(a'[k], id) ensures exists j :: 0 <= j < |b'| && Names(b'[j], id) {
      if k < |a| {
        assert Names(a[k], id);
        var j :| 0 <= j < |b| && Names(b[j], id);
        assert Names(b'[j], id);
      } else {
        assert Names(b'[|b|], id);
      }
    }
    if (Unambiguous(b) ==> Unambiguous(a)) && Unambiguous(b') {
      assert Unambiguous(b) by {
        assert b == b'[..|b|];
      }
      forall j, k, id | 0 <= j < k < |a'| && Names(a'[j], id) ensures !Names(a'[k], id) {
        assert Names(a[j], id);
        if k < |a| {
          assert a'[k] == a[k];
        } else {
          var i :| 0 <= i < |b| && Names(b[i], id);
          assert Names(b'[i], id);
          assert !Names(b'[|b|], id);
        }
      }
    }
  }

  lemma {:induction false} SameKept(l: Lowering, functions: seq<Function>, kept: set<Id>)
    requires Faithful(l)
    ensures KeepFunctions(LowerFunctions(l, L.StripOutside(functions, kept)), kept) == KeepFunctions(LowerFunctions(l, functions), kept)
  {
    if functions != [] {
      var before, last := functions[..|functions| - 1], functions[|functions| - 1];
      var stripped := L.StripOutside(functions, kept);
      SameKept(l, before, kept);
      assert stripped[..|stripped| - 1] == L.StripOutside(before, kept);
      assert stripped[|stripped| - 1] == L.Stripped(last, IdOf(last) in kept);
      assert FaithfulAt(l, last);
      KeepAppends(LowerFunctions(l, before), l.translate(last), kept);
      KeepAppends(LowerFunctions(l, stripped[..|stripped| - 1]), l.translate(L.Stripped(last, IdOf(last) in kept)), kept);
    }
  }

  lemma KeepAppends(a: seq<SsaFunction>, f: Option<SsaFunction>, kept: set<Id>)
    ensures KeepFunctions(a + Listed(f), kept) == KeepFunctions(a, kept) + if f.Some? && f.value.semantic in kept then [f.value] else []
  {
    if f.Some? {
      assert (a + [f.value])[..|a|] == a;
    } else {
      assert a + [] == a;
    }
  }

  /** The functions that are selected, and the closure they form, are those of the program's call graph
      whether the lowered module came from the whole program or from the stripped one. */
  lemma FunctionsCommute(l: Lowering, program: Program, exports: set<L.Export>)
    requires Faithful(l) && L.Lowerable(program, exports) && Unambiguous(LowerFunctions(l, program.functions))
    ensures var full, part := LowerFunctions(l, program.functions), LowerFunctions(l, StrippedProgram(program, exports).functions);
            var roots := L.RootSet(exports);
            && Unambiguous(part) && Resolvable(full, roots) && Resolvable(part, roots)
            && Reachable(part, roots) == Reachable(full, roots) == L.Closure(program, exports)
            && KeepFunctions(part, Reachable(part, roots)) == KeepFunctions(full, Reachable(full, roots))
  {
    hide Faithful, Unambiguous, LowerFunctions, L.RootSet, L.Closure, Index, KeepFunctions, Reachable, Resolvable, L.StripOutside;
    var kept := L.Closure(program, exports);
    var stripped := L.StripOutside(program.functions, kept);
    StrippedNames(l, program.functions, kept);
    SameKept(l, program.functions, kept);
    IndexFinds(program.functions);
    forall id | id in kept ensures Index(program.functions)[id] in stripped {
      assert L.Executable(program, id);
      StripKeeps(program, exports, id);
    }
    LoweredReach(l, program, exports, program.functions);
    LoweredReach(l, program, exports, stripped);
  }
}
