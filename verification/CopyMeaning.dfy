/** The code of every plan computes what the copy it replaces computes, and fails when and as the
    copy fails. */
module CopyMeaning {
  import opened Prelude
  import opened SsaSyntax
  import opened SsaSemantics
  import opened CopyLowering

  // ----- Running code that makes no calls and has no effects -----

  datatype PureRun = Go(env: Env) | Halt(mode: FailureMode) | Trap

  predicate Pure(i: Instruction) {
    !i.kind.Call? && !i.kind.Other?
  }

  ghost function StepPure(i: Instruction, env: Env): PureRun {
    if !Reads(env, i.inputs) then Trap
    else
      match Evaluate(i.kind, i.failure, Read(env, i.inputs))
      case Values(values) => if Fits(i.outputs, values) then Go(Store(env, i.outputs, values)) else Trap
      case Fails(mode) => Halt(mode)
      case Traps => Trap
  }

  ghost function RunCode(code: seq<Instruction>, env: Env): PureRun
    decreases |code|
  {
    if code == [] then Go(env)
    else
      match StepPure(code[0], env)
      case Go(env') => RunCode(code[1..], env')
      case stop => stop
  }

  ghost function Lift(run: PureRun, trace: Trace): Run<Env> {
    match run
    case Go(env) => Done(env, trace)
    case Halt(mode) => Failed(mode, trace)
    case Trap => Trapped(trace)
  }

  /** Pure code runs the same on every machine, in every program, with any fuel. */
  lemma {:induction false} PureCodeRuns(m: Machine, program: seq<Function>, code: seq<Instruction>, env: Env, trace: Trace, fuel: nat)
    requires forall i :: 0 <= i < |code| ==> Pure(code[i])
    ensures RunInstructions(m, program, code, env, trace, fuel) == Lift(RunCode(code, env), trace)
    decreases |code|
  {
    if code != [] {
      assert RunInstruction(m, program, code[0], env, trace, fuel) == Lift(StepPure(code[0], env), trace);
      match StepPure(code[0], env)
      case Go(env') => PureCodeRuns(m, program, code[1..], env', trace, fuel);
      case _ =>
    }
  }

  lemma {:induction false} RunAppend(a: seq<Instruction>, b: seq<Instruction>, env: Env)
    ensures RunCode(a + b, env) == (match RunCode(a, env) case Go(env') => RunCode(b, env') case stop => stop)
    decreases |a|
  {
    if a == [] {
      assert a + b == b;
    } else {
      assert (a + b)[0] == a[0] && (a + b)[1..] == a[1..] + b;
      match StepPure(a[0], env)
      case Go(env') => RunAppend(a[1..], b, env');
      case _ =>
    }
  }

  /** An instruction with one well-typed result defines exactly that result. */
  lemma StepDefines(i: Instruction, env: Env, v: Value)
    requires |i.outputs| == 1 && Reads(env, i.inputs)
    requires Evaluate(i.kind, i.failure, Read(env, i.inputs)) == Values([v])
    requires HasType(v, i.outputs[0].ty)
    ensures StepPure(i, env) == Go(env[i.outputs[0].identity := v])
  {
    assert Fits(i.outputs, [v]);
    var next := env[i.outputs[0].identity := v];
    assert Store(next, i.outputs[1..], [v][1..]) == next;
  }

  /** Running on after an instruction that defines one well-typed result. */
  lemma RunDefines(code: seq<Instruction>, env: Env, v: Value)
    requires code != [] && |code[0].outputs| == 1 && Reads(env, code[0].inputs)
    requires Evaluate(code[0].kind, code[0].failure, Read(env, code[0].inputs)) == Values([v])
    requires HasType(v, code[0].outputs[0].ty)
    ensures RunCode(code, env) == RunCode(code[1..], env[code[0].outputs[0].identity := v])
    ensures |code| == 1 ==> RunCode(code, env) == Go(env[code[0].outputs[0].identity := v])
  {
    StepDefines(code[0], env, v);
    assert |code| == 1 ==> code[1..] == [];
  }

  lemma RunFails(code: seq<Instruction>, env: Env, mode: FailureMode)
    requires code != [] && Reads(env, code[0].inputs)
    requires Evaluate(code[0].kind, code[0].failure, Read(env, code[0].inputs)) == Fails(mode)
    ensures RunCode(code, env) == Halt(mode)
  {
  }

  // ----- Environments -----

  /** The lowered run knows everything the original run knows. */
  ghost predicate Agrees(e: Env, e': Env) {
    forall k :: k in e ==> k in e' && e'[k] == e[k]
  }

  /** Not one of the names that lowering `c` generates after `ordinal`. */
  predicate Old(k: Id, c: Id, ordinal: nat) {
    !(k.Generated? && k.owner == c && k.ordinal > ordinal)
  }

  /** Only names generated for `c` after `ordinal` changed. */
  ghost predicate Frame(e: Env, e': Env, c: Id, ordinal: nat) {
    forall k :: k in e && Old(k, c, ordinal) ==> k in e' && e'[k] == e[k]
  }

  ghost predicate FrameBut(e: Env, e': Env, c: Id, ordinal: nat, out: Id) {
    forall k :: k in e && Old(k, c, ordinal) && k != out ==> k in e' && e'[k] == e[k]
  }

  /** The values a five-operand copy finds. */
  datatype Window = Window(dst: seq<Value>, dstAt: nat, src: seq<Value>, srcAt: nat, length: nat)

  ghost predicate Finds(e: Env, c: Instruction, w: Window) {
    && |c.inputs| == 5 && Reads(e, c.inputs)
    && Read(e, c.inputs) == [SeqV(w.dst), IntV(w.dstAt), SeqV(w.src), IntV(w.srcAt), IntV(w.length)]
  }

  ghost predicate Typed(c: Instruction, w: Window) {
    && c.kind.Copy? && |c.outputs| == 1
    && c.kind.dstBound.Exact?
    && HasType(SeqV(w.dst), Sequence(c.kind.elementType, c.kind.dstBound))
    && HasType(SeqV(w.src), Sequence(c.kind.elementType, c.kind.srcBound))
    && w.dstAt < U64_LIMIT && w.srcAt < U64_LIMIT
    && c.outputs[0].ty == Sequence(c.kind.elementType, c.kind.dstBound)
  }

  predicate InBounds(w: Window) {
    w.dstAt + w.length <= |w.dst| && w.srcAt + w.length <= |w.src|
  }

  lemma TypedLengths(c: Instruction, w: Window)
    requires Typed(c, w)
    ensures |w.dst| < U64_LIMIT && |w.src| < U64_LIMIT
  {
  }

  lemma SpanCopyTyped(c: Instruction, w: Window, length: nat)
    requires Typed(c, w)
    requires w.dstAt + length <= |w.dst| && w.srcAt + length <= |w.src|
    ensures HasType(SeqV(SpanCopy(w.dst, w.dstAt, w.src, w.srcAt, length)), Sequence(c.kind.elementType, c.kind.dstBound))
  {
  }

  // ----- Indices -----

  lemma ConstantRuns(owner: Id, block: Id, ordinal: nat, value: nat, e: Env)
    requires value < U64_LIMIT
    ensures var x := ConstantIndex(owner, block, ordinal, value);
            RunCode(x.code, e) == Go(e[x.value := IntV(value)]) && Frame(e, e[x.value := IntV(value)], owner, ordinal)
  {
    hide StepPure, RunCode;
    var x := ConstantIndex(owner, block, ordinal, value);
    assert Read(e, x.code[0].inputs) == [];
    RunDefines(x.code, e, IntV(value));
  }

  lemma AddRuns(owner: Id, block: Id, ordinal: nat, base: Id, increment: Id, failure: FailureMode, e: Env, x: nat, y: nat)
    requires base in e && e[base] == IntV(x) && increment in e && e[increment] == IntV(y)
    ensures var i := AddCode(owner, block, ordinal, base, increment, failure);
            var e' := e[Generated(owner, OffsetAddValue, ordinal + 1) := IntV(x + y)];
            RunCode([i], e) == if x + y < U64_LIMIT then Go(e') else Halt(failure)
  {
    hide StepPure, RunCode;
    var i := AddCode(owner, block, ordinal, base, increment, failure);
    assert Read(e, i.inputs) == [IntV(x), IntV(y)];
    if x + y < U64_LIMIT {
      RunDefines([i], e, IntV(x + y));
    } else {
      RunFails([i], e, failure);
    }
  }

  /** The outcome of code that should leave `at` in `x.value`. */
  ghost predicate Indexes(x: Index, c: Id, ordinal: nat, e: Env, at: nat, failure: FailureMode) {
    var r := RunCode(x.code, e);
    if at < U64_LIMIT then r.Go? && Frame(e, r.env, c, ordinal) && x.value in r.env && r.env[x.value] == IntV(at)
    else r == Halt(failure)
  }

  lemma DynamicIndexRuns(c: Instruction, block: Id, ordinal: nat, base: Id, constant: Option<nat>, increment: nat, failure: FailureMode, e: Env, at: nat)
    requires base in e && e[base] == IntV(at) && Old(base, c.identity, ordinal)
    requires constant.Some? ==> constant.value == at
    requires increment < U64_LIMIT && at < U64_LIMIT
    ensures Indexes(DynamicIndex(c, block, ordinal, base, constant, increment, failure), c.identity, ordinal, e, at + increment, failure)
  {
    hide StepPure;
    if increment == 0 {
    } else if constant.Some? && at + increment < U64_LIMIT {
      ConstantRuns(c.identity, block, ordinal, at + increment, e);
    } else {
      var step := ConstantIndex(c.identity, block, ordinal, increment);
      ConstantRuns(c.identity, block, ordinal, increment, e);
      var e' := e[step.value := IntV(increment)];
      RunAppend(step.code, [AddCode(c.identity, block, step.ordinal, base, step.value, failure)], e);
      AddRuns(c.identity, block, step.ordinal, base, step.value, failure, e', at, increment);
    }
  }

  /** An index is base + increment, or the copy's own failure when that leaves 64 bits. */
  lemma IndexRuns(pass: Pass, c: Instruction, block: Id, ordinal: nat, base: Id, constant: Option<nat>, increment: nat, e: Env, at: nat)
    requires c.kind.Copy? && base in e && e[base] == IntV(at) && Old(base, c.identity, ordinal)
    requires constant.Some? ==> constant.value == at
    requires increment < U64_LIMIT && at < U64_LIMIT
    requires !pass.OffsetPass? ==> constant.Some? && at + increment < U64_LIMIT
    ensures Indexes(IndexCode(pass, c, block, ordinal, base, constant, increment), c.identity, ordinal, e, at + increment, FailureOf(c))
  {
    if pass.OffsetPass? {
      DynamicIndexRuns(c, block, ordinal, base, constant, increment, FailureOf(c), e, at);
    } else {
      ConstantRuns(c.identity, block, ordinal, at + increment, e);
    }
  }

  lemma IndexNames(pass: Pass, c: Instruction, block: Id, ordinal: nat, base: Id, constant: Option<nat>, increment: nat)
    requires c.kind.Copy? && Old(base, c.identity, ordinal)
    ensures var x := IndexCode(pass, c, block, ordinal, base, constant, increment);
            x.ordinal >= ordinal && Old(x.value, c.identity, x.ordinal)
  {
  }

  // ----- Unrolled chains -----

  /** What the passes check before unrolling: static chains stay in bounds, and chains with a
      constant window stay inside the destination. */
  ghost predicate Unrollable(pass: Pass, c: Instruction, w: Window, plan: Plan) {
    && plan.Unroll? && plan.count == w.length <= UNROLL_LIMIT
    && (plan.dstOffset.Some? ==> plan.dstOffset.value == w.dstAt)
    && (plan.srcOffset.Some? ==> plan.srcOffset.value == w.srcAt)
    && (!pass.OffsetPass? ==> plan.dstOffset.Some? && plan.srcOffset.Some?)
    && (!pass.OffsetPass? ==> w.dstAt + w.length <= |w.dst| && w.srcAt + w.length < U64_LIMIT)
    && (pass.StaticPass? ==> w.srcAt + w.length <= |w.src|)
    && (c.kind.Copy? ==> (pass.StaticPass? <==> c.kind.evidence.StaticExact?))
  }

  /** The destination after `offset` bytes have been copied. */
  function Progress(w: Window, offset: nat): seq<Value>
    requires offset > 0 ==> w.dstAt + offset <= |w.dst| && w.srcAt + offset <= |w.src|
  {
    if offset == 0 then w.dst else SpanCopy(w.dst, w.dstAt, w.src, w.srcAt, offset)
  }

  ghost predicate Holds(e: Env, current: Id, w: Window, offset: nat) {
    && (offset > 0 ==> w.dstAt + offset <= |w.dst| && w.srcAt + offset <= |w.src|)
    && current in e && e[current] == SeqV(Progress(w, offset))
  }

  ghost predicate Operands(e: Env, c: Instruction, w: Window) {
    Finds(e, c, w) && forall k :: 0 <= k < 5 ==> Old(c.inputs[k], c.identity, 0)
  }

  lemma FrameKeepsOperands(e: Env, e': Env, c: Instruction, w: Window, ordinal: nat)
    requires Operands(e, c, w) && Frame(e, e', c.identity, ordinal)
    ensures Operands(e', c, w)
  {
    assert forall k :: 0 <= k < 5 ==> Old(c.inputs[k], c.identity, ordinal);
    assert Read(e', c.inputs) == Read(e, c.inputs);
  }

  lemma FrameTrans(e: Env, e1: Env, e2: Env, c: Id, o1: nat, o2: nat)
    requires Frame(e, e1, c, o1) && Frame(e1, e2, c, o2) && o1 <= o2
    ensures Frame(e, e2, c, o1)
  {
    forall k | k in e && Old(k, c, o1) ensures k in e2 && e2[k] == e[k] {
      assert Old(k, c, o2);
    }
  }

  /** What running one step of a chain, or what is left of it, leads to. */
  ghost predicate Moves(code: seq<Instruction>, value: Id, c: Instruction, ordinal: nat, w: Window, offset: nat, e: Env)
    requires c.kind.Copy?
  {
    var r := RunCode(code, e);
    if r.Go? then Holds(r.env, value, w, offset) && FrameBut(e, r.env, c.identity, ordinal, value)
    else r == Halt(FailureOf(c)) && !InBounds(w)
  }

  /** Updating byte `offset` of the destination with that byte of the source. */
  lemma ReplaceRuns(pass: Pass, c: Instruction, block: Id, plan: Plan, ordinal: nat, current: Id, index: Id, element: Id, w: Window, offset: nat, e: Env)
    requires Typed(c, w) && Unrollable(pass, c, w, plan) && offset < plan.count
    requires Holds(e, current, w, offset) && w.srcAt + offset < |w.src|
    requires index in e && e[index] == IntV(w.dstAt + offset)
    requires element in e && e[element] == w.src[w.srcAt + offset]
    ensures var i := ReplaceCode(pass, c, block, ordinal, offset + 1 == plan.count, current, index, element);
            Moves([i], i.outputs[0].identity, c, ordinal, w, offset + 1, e)
  {
    hide StepPure, RunCode;
    var i := ReplaceCode(pass, c, block, ordinal, offset + 1 == plan.count, current, index, element);
    var before := Progress(w, offset);
    assert Read(e, i.inputs) == [SeqV(before), IntV(w.dstAt + offset), w.src[w.srcAt + offset]];
    if w.dstAt + offset < |w.dst| {
      var after := SpanCopy(w.dst, w.dstAt, w.src, w.srcAt, offset + 1);
      NextByte(w, offset);
      SpanCopyTyped(c, w, offset + 1);
      hide HasType, Progress, SpanCopy, Evaluate;
      Replaces(i, e, before, w.dstAt + offset, w.src[w.srcAt + offset]);
    } else {
      RunFails([i], e, FailureOf(c));
    }
  }

  lemma Replaces(i: Instruction, e: Env, elements: seq<Value>, at: nat, v: Value)
    requires i.kind.Replace? && |i.outputs| == 1 && Reads(e, i.inputs) && Read(e, i.inputs) == [SeqV(elements), IntV(at), v]
    requires at < |elements| && HasType(SeqV(elements[at := v]), i.outputs[0].ty)
    ensures RunCode([i], e) == Go(e[i.outputs[0].identity := SeqV(elements[at := v])])
  {
    hide RunCode, StepPure, HasType;
    RunDefines([i], e, SeqV(elements[at := v]));
  }

  lemma NextByte(w: Window, offset: nat)
    requires w.dstAt + offset < |w.dst| && w.srcAt + offset < |w.src|
    ensures Progress(w, offset)[w.dstAt + offset := w.src[w.srcAt + offset]] == Progress(w, offset + 1)
    ensures Progress(w, offset + 1) == SpanCopy(w.dst, w.dstAt, w.src, w.srcAt, offset + 1)
  {
  }

  /** Reading byte `offset` of the source, then updating the destination with it. */
  lemma MoveRuns(pass: Pass, c: Instruction, block: Id, plan: Plan, offset: nat, current: Id, to: Id, from: Id, ordinal: nat, w: Window, e: Env)
    requires Typed(c, w) && Operands(e, c, w) && Unrollable(pass, c, w, plan) && offset < plan.count
    requires Holds(e, current, w, offset) && Old(current, c.identity, ordinal) && Old(to, c.identity, ordinal)
    requires to in e && e[to] == IntV(w.dstAt + offset) && from in e && e[from] == IntV(w.srcAt + offset)
    ensures var project := ProjectCode(pass, c, block, ordinal, from);
            var replace := ReplaceCode(pass, c, block, ordinal + 1, offset + 1 == plan.count, current, to, project.outputs[0].identity);
            Moves([project, replace], replace.outputs[0].identity, c, ordinal, w, offset + 1, e)
  {
    hide StepPure, RunCode, ReplaceCode;
    var project := ProjectCode(pass, c, block, ordinal, from);
    var replace := ReplaceCode(pass, c, block, ordinal + 1, offset + 1 == plan.count, current, to, project.outputs[0].identity);
    var code := [project, replace];
    assert Read(e, c.inputs)[2] == SeqV(w.src);
    assert Read(e, project.inputs) == [SeqV(w.src), IntV(w.srcAt + offset)];
    if w.srcAt + offset < |w.src| {
      var byte := w.src[w.srcAt + offset];
      RunDefines(code, e, byte);
      assert code[1..] == [replace];
      var e1 := e[project.outputs[0].identity := byte];
      ReplaceRuns(pass, c, block, plan, ordinal + 1, current, to, project.outputs[0].identity, w, offset, e1);
      assert forall k :: Old(k, c.identity, ordinal) ==> Old(k, c.identity, ordinal + 1);
    } else {
      RunFails(code, e, FailureOf(c));
    }
  }

  lemma StepNames(pass: Pass, c: Instruction, block: Id, plan: Plan, offset: nat, current: Id, ordinal: nat)
    requires c.kind.Copy? && |c.inputs| == 5 && |c.outputs| == 1 && plan.Unroll?
    requires Old(c.inputs[1], c.identity, 0) && Old(c.inputs[3], c.identity, 0)
    ensures var x := StepCode(pass, c, block, plan, offset, current, ordinal);
            && x.ordinal >= ordinal
            && (offset + 1 < plan.count ==> Old(x.value, c.identity, x.ordinal) && !Old(x.value, c.identity, ordinal))
            && (offset + 1 == plan.count ==> x.value == c.outputs[0].identity)
  {
    var to := IndexCode(pass, c, block, ordinal, c.inputs[1], plan.dstOffset, offset);
    IndexNames(pass, c, block, ordinal, c.inputs[1], plan.dstOffset, offset);
    IndexNames(pass, c, block, to.ordinal, c.inputs[3], plan.srcOffset, offset);
  }

  /** Two indices computed one after the other: both are left, or one of them overflowed. */
  ghost predicate IndexesBoth(x: Index, y: Index, c: Id, ordinal: nat, e: Env, at: nat, from: nat, failure: FailureMode) {
    var r := RunCode(x.code + y.code, e);
    if at < U64_LIMIT && from < U64_LIMIT then
      && r.Go? && Frame(e, r.env, c, ordinal)
      && x.value in r.env && r.env[x.value] == IntV(at) && y.value in r.env && r.env[y.value] == IntV(from)
    else r == Halt(failure)
  }

  lemma IndicesCompose(x: Index, y: Index, c: Id, ordinal: nat, e: Env, at: nat, from: nat, failure: FailureMode)
    requires Indexes(x, c, ordinal, e, at, failure)
    requires ordinal <= x.ordinal && Old(x.value, c, x.ordinal)
    requires at < U64_LIMIT ==> Indexes(y, c, x.ordinal, RunCode(x.code, e).env, from, failure)
    ensures IndexesBoth(x, y, c, ordinal, e, at, from, failure)
  {
    hide StepPure;
    RunAppend(x.code, y.code, e);
    if at < U64_LIMIT && from < U64_LIMIT {
      var e1 := RunCode(x.code, e).env;
      FrameTrans(e, e1, RunCode(y.code, e1).env, c, ordinal, x.ordinal);
    }
  }

  /** Both indices of a step. */
  lemma IndicesRun(pass: Pass, c: Instruction, block: Id, plan: Plan, offset: nat, ordinal: nat, w: Window, e: Env)
    requires Typed(c, w) && Operands(e, c, w) && Unrollable(pass, c, w, plan) && offset < plan.count
    ensures var to := IndexCode(pass, c, block, ordinal, c.inputs[1], plan.dstOffset, offset);
            var from := IndexCode(pass, c, block, to.ordinal, c.inputs[3], plan.srcOffset, offset);
            IndexesBoth(to, from, c.identity, ordinal, e, w.dstAt + offset, w.srcAt + offset, FailureOf(c))
  {
    hide StepPure, IndexCode, RunCode;
    var to := IndexCode(pass, c, block, ordinal, c.inputs[1], plan.dstOffset, offset);
    var from := IndexCode(pass, c, block, to.ordinal, c.inputs[3], plan.srcOffset, offset);
    IndexNames(pass, c, block, ordinal, c.inputs[1], plan.dstOffset, offset);
    assert Read(e, c.inputs)[1] == IntV(w.dstAt);
    IndexRuns(pass, c, block, ordinal, c.inputs[1], plan.dstOffset, offset, e, w.dstAt);
    if w.dstAt + offset < U64_LIMIT {
      var e1 := RunCode(to.code, e).env;
      FrameKeepsOperands(e, e1, c, w, ordinal);
      assert Read(e1, c.inputs)[3] == IntV(w.srcAt);
      IndexRuns(pass, c, block, to.ordinal, c.inputs[3], plan.srcOffset, offset, e1, w.srcAt);
    }
    IndicesCompose(to, from, c.identity, ordinal, e, w.dstAt + offset, w.srcAt + offset, FailureOf(c));
  }

  lemma StepCompose(to: Index, from: Index, tail: seq<Instruction>, value: Id, c: Instruction, ordinal: nat, w: Window, offset: nat, e: Env)
    requires c.kind.Copy? && offset < w.length && |w.dst| < U64_LIMIT && |w.src| < U64_LIMIT
    requires IndexesBoth(to, from, c.identity, ordinal, e, w.dstAt + offset, w.srcAt + offset, FailureOf(c))
    requires from.ordinal >= ordinal
    requires var r := RunCode(to.code + from.code, e);
             r.Go? ==> Moves(tail, value, c, from.ordinal, w, offset + 1, r.env)
    ensures Moves(to.code + from.code + tail, value, c, ordinal, w, offset + 1, e)
  {
    hide StepPure;
    RunAppend(to.code + from.code, tail, e);
    assert forall k :: Old(k, c.identity, ordinal) ==> Old(k, c.identity, from.ordinal);
  }

  /** One step of a chain moves one byte, or fails as the copy does when that byte is not there.
      Only the last step may touch a name that lowering did not generate. */
  lemma StepRuns(pass: Pass, c: Instruction, block: Id, plan: Plan, offset: nat, current: Id, ordinal: nat, w: Window, e: Env)
    requires Typed(c, w) && Operands(e, c, w) && Unrollable(pass, c, w, plan) && offset < plan.count
    requires Holds(e, current, w, offset) && Old(current, c.identity, ordinal)
    ensures var x := StepCode(pass, c, block, plan, offset, current, ordinal);
            Moves(x.code, x.value, c, ordinal, w, offset + 1, e)
  {
    hide StepPure, IndexCode, RunCode, Moves, HasType, Progress, SpanCopy;
    var to := IndexCode(pass, c, block, ordinal, c.inputs[1], plan.dstOffset, offset);
    var from := IndexCode(pass, c, block, to.ordinal, c.inputs[3], plan.srcOffset, offset);
    IndexNames(pass, c, block, ordinal, c.inputs[1], plan.dstOffset, offset);
    IndexNames(pass, c, block, to.ordinal, c.inputs[3], plan.srcOffset, offset);
    TypedLengths(c, w);
    IndicesRun(pass, c, block, plan, offset, ordinal, w, e);
    var project := ProjectCode(pass, c, block, from.ordinal, from.value);
    var replace := ReplaceCode(pass, c, block, from.ordinal + 1, offset + 1 == plan.count, current, to.value, project.outputs[0].identity);
    var r := RunCode(to.code + from.code, e);
    if r.Go? {
      FrameKeepsOperands(e, r.env, c, w, ordinal);
      MoveRuns(pass, c, block, plan, offset, current, to.value, from.value, from.ordinal, w, r.env);
    }
    StepCompose(to, from, [project, replace], replace.outputs[0].identity, c, ordinal, w, offset, e);
  }

  lemma RunNothing(e: Env)
    ensures RunCode([], e) == Go(e)
  {
  }

  /** A chain run from `offset` finishes the copy or fails as the copy fails. */
  lemma {:induction false} ChainRuns(pass: Pass, c: Instruction, block: Id, plan: Plan, offset: nat, current: Id, ordinal: nat, w: Window, e: Env)
    requires Typed(c, w) && Operands(e, c, w) && Unrollable(pass, c, w, plan) && offset < plan.count
    requires Holds(e, current, w, offset) && Old(current, c.identity, ordinal)
    ensures var code := ChainCode(pass, c, block, plan, offset, current, ordinal).code;
            var r := RunCode(code, e);
            if InBounds(w) then
              && r.Go? && Holds(r.env, c.outputs[0].identity, w, w.length)
              && FrameBut(e, r.env, c.identity, ordinal, c.outputs[0].identity)
            else r == Halt(FailureOf(c))
    decreases plan.count - offset
  {
    hide StepPure, StepCode, HasType, RunCode, Progress, SpanCopy;
    var x := StepCode(pass, c, block, plan, offset, current, ordinal);
    StepNames(pass, c, block, plan, offset, current, ordinal);
    StepRuns(pass, c, block, plan, offset, current, ordinal, w, e);
    var rest := ChainCode(pass, c, block, plan, offset + 1, x.value, x.ordinal);
    RunAppend(x.code, rest.code, e);
    if RunCode(x.code, e).Go? {
      var e1 := RunCode(x.code, e).env;
      if offset + 1 == plan.count {
        assert rest.code == [];
        RunNothing(e1);
      } else {
        assert Frame(e, e1, c.identity, ordinal);
        FrameKeepsOperands(e, e1, c, w, ordinal);
        ChainRuns(pass, c, block, plan, offset + 1, x.value, x.ordinal, w, e1);
        assert forall k :: Old(k, c.identity, ordinal) ==> Old(k, c.identity, x.ordinal);
      }
    }
  }

  // ----- Rebuilding the destination -----

  ghost predicate Rebuildable(c: Instruction, w: Window, plan: Plan) {
    plan.Rebuild? && plan.dstAt == w.dstAt && plan.srcAt == w.srcAt && plan.length == w.length && InBounds(w)
  }

  function Copied(w: Window): seq<Value>
    requires InBounds(w)
  {
    SpanCopy(w.dst, w.dstAt, w.src, w.srcAt, w.length)
  }

  lemma RebuildElementRuns(c: Instruction, block: Id, plan: Plan, k: nat, w: Window, e: Env)
    requires Typed(c, w) && Operands(e, c, w) && Rebuildable(c, w, plan) && k < |w.dst|
    ensures var r := RunCode(RebuildElement(c, block, plan, k), e);
            r.Go? && Frame(e, r.env, c.identity, 2 * k) && RebuiltElement(c, k) in r.env && r.env[RebuiltElement(c, k)] == Copied(w)[k]
  {
    hide StepPure, RunCode, Evaluate, HasType;
    ElementsTyped(c, w);
    var (sequence, bound, at) := RebuildSource(c, plan, k);
    var index := ConstantIndex(c.identity, block, 2 * k, at);
    ConstantRuns(c.identity, block, 2 * k, at, e);
    var e1 := e[index.value := IntV(at)];
    FrameKeepsOperands(e, e1, c, w, 2 * k);
    var code := RebuildElement(c, block, plan, k);
    var project := code[1];
    assert code == index.code + [project];
    RunAppend(index.code, [project], e);
    var elements := if w.dstAt <= k < w.dstAt + w.length then w.src else w.dst;
    assert Read(e1, c.inputs)[0] == SeqV(w.dst) && Read(e1, c.inputs)[2] == SeqV(w.src);
    assert Read(e1, project.inputs) == [SeqV(elements), IntV(at)];
    Projects(project, e1, elements, at);
  }

  lemma ElementsTyped(c: Instruction, w: Window)
    requires Typed(c, w)
    ensures forall k :: 0 <= k < |w.dst| ==> HasType(w.dst[k], c.kind.elementType)
    ensures forall k :: 0 <= k < |w.src| ==> HasType(w.src[k], c.kind.elementType)
    ensures |w.dst| < U64_LIMIT && |w.src| < U64_LIMIT
  {
  }

  lemma Projects(i: Instruction, e: Env, elements: seq<Value>, at: nat)
    requires i.kind.Project? && |i.outputs| == 1 && Reads(e, i.inputs) && Read(e, i.inputs) == [SeqV(elements), IntV(at)]
    requires at < |elements| && HasType(elements[at], i.outputs[0].ty)
    ensures RunCode([i], e) == Go(e[i.outputs[0].identity := elements[at]])
  {
    hide RunCode, StepPure, HasType;
    RunDefines([i], e, elements[at]);
  }

  ghost predicate Rebuilt(e: Env, c: Instruction, w: Window, count: nat)
    requires InBounds(w) && count <= |w.dst|
  {
    forall k :: 0 <= k < count ==> RebuiltElement(c, k) in e && e[RebuiltElement(c, k)] == Copied(w)[k]
  }

  lemma RebuiltNext(e: Env, e': Env, c: Instruction, w: Window, count: nat)
    requires InBounds(w) && count < |w.dst| && Rebuilt(e, c, w, count) && Frame(e, e', c.identity, 2 * count)
    requires RebuiltElement(c, count) in e' && e'[RebuiltElement(c, count)] == Copied(w)[count]
    ensures Rebuilt(e', c, w, count + 1)
  {
    hide Copied;
    assert forall k :: 0 <= k < count ==> Old(RebuiltElement(c, k), c.identity, 2 * count);
  }

  lemma ElementsNext(c: Instruction, block: Id, plan: Plan, count: nat)
    requires c.kind.Copy? && |c.inputs| == 5 && plan.Rebuild?
    ensures RebuildElements(c, block, plan, count) ==
            if count == 0 then [] else RebuildElements(c, block, plan, count - 1) + RebuildElement(c, block, plan, count - 1)
  {
  }

  lemma {:induction false} RebuildElementsRun(c: Instruction, block: Id, plan: Plan, count: nat, w: Window, e: Env)
    requires Typed(c, w) && Operands(e, c, w) && Rebuildable(c, w, plan) && count <= |w.dst|
    ensures var r := RunCode(RebuildElements(c, block, plan, count), e);
            r.Go? && Frame(e, r.env, c.identity, 0) && Rebuilt(r.env, c, w, count)
  {
    hide StepPure, RunCode, RebuildElement, RebuildElements, HasType, Frame, Rebuilt, Copied;
    ElementsNext(c, block, plan, count);
    if count == 0 {
      RunNothing(e);
      NothingRebuilt(e, c, w);
    } else {
      RebuildElementsRun(c, block, plan, count - 1, w, e);
      var before := RebuildElements(c, block, plan, count - 1);
      var last := RebuildElement(c, block, plan, count - 1);
      RunAppend(before, last, e);
      var e1 := RunCode(before, e).env;
      FrameKeepsOperands(e, e1, c, w, 0);
      RebuildElementRuns(c, block, plan, count - 1, w, e1);
      var e2 := RunCode(last, e1).env;
      FrameTrans(e, e1, e2, c.identity, 0, 2 * (count - 1));
      RebuiltNext(e1, e2, c, w, count - 1);
    }
  }

  lemma NothingRebuilt(e: Env, c: Instruction, w: Window)
    requires InBounds(w)
    ensures Rebuilt(e, c, w, 0) && Frame(e, e, c.identity, 0)
  {
  }

  /** What running a plan must do for the copy's result. */
  ghost predicate Delivers(code: seq<Instruction>, c: Instruction, w: Window, e: Env)
    requires c.kind.Copy? && |c.outputs| == 1
  {
    var r := RunCode(code, e);
    var out := c.outputs[0].identity;
    if InBounds(w) then
      r.Go? && out in r.env && r.env[out] == SeqV(Copied(w)) && FrameBut(e, r.env, c.identity, 0, out)
    else r == Halt(FailureOf(c))
  }

  lemma RebuildRuns(c: Instruction, block: Id, plan: Plan, w: Window, e: Env)
    requires Typed(c, w) && Operands(e, c, w) && Rebuildable(c, w, plan)
    ensures Delivers(RebuildCode(c, block, plan).code, c, w, e)
  {
    hide StepPure, RunCode, RebuildElement, RebuildElements;
    var count := c.kind.dstBound.Max();
    var elements := RebuildElements(c, block, plan, count);
    var code := RebuildCode(c, block, plan).code;
    var construct := code[|elements|];
    assert code == elements + [construct];
    RebuildElementsRun(c, block, plan, count, w, e);
    RunAppend(elements, [construct], e);
    var e1 := RunCode(elements, e).env;
    assert Reads(e1, construct.inputs);
    assert Read(e1, construct.inputs) == Copied(w);
    SpanCopyTyped(c, w, w.length);
    RunDefines([construct], e1, SeqV(Copied(w)));
  }

  // ----- Copies of nothing -----

  lemma EmptyRuns(pass: Pass, c: Instruction, block: Id, w: Window, e: Env)
    requires Typed(c, w) && Operands(e, c, w) && w.length == 0 && InBounds(w)
    ensures Delivers(EmptyCode(pass, c, block).code, c, w, e)
  {
    hide StepPure, RunCode;
    var code := EmptyCode(pass, c, block).code;
    var condition, select := code[0], code[1];
    assert Read(e, condition.inputs) == [];
    RunDefines(code, e, BoolV(true));
    var e1 := e[condition.outputs[0].identity := BoolV(true)];
    FrameKeepsOperands(e, e1, c, w, 0);
    assert Read(e1, c.inputs)[0] == SeqV(w.dst);
    assert Read(e1, select.inputs) == [BoolV(true), SeqV(w.dst), SeqV(w.dst)];
    assert Copied(w) == w.dst;
    assert code[1..] == [select];
    RunDefines([select], e1, SeqV(w.dst));
  }

  function ViewLength(c: Instruction, source: bool): Id {
    if source then Generated(c.identity, EmptySourceLengthValue, 4) else Generated(c.identity, EmptyDestinationLengthValue, 2)
  }

  /** A checked empty view fails exactly when its offset lies beyond the sequence. */
  lemma ViewRuns(c: Instruction, block: Id, source: bool, w: Window, e: Env)
    requires Typed(c, w) && Operands(e, c, w) && c.kind.evidence.RuntimeChecked?
    ensures var at, elements := if source then w.srcAt else w.dstAt, if source then w.src else w.dst;
            var r := RunCode(ViewCode(c, block, source), e);
            if at <= |elements| then
              r.Go? && Frame(e, r.env, c.identity, if source then 2 else 0)
              && ViewLength(c, source) in r.env && r.env[ViewLength(c, source)] == IntV(0)
            else r == Halt(FailureOf(c))
  {
    hide StepPure, RunCode, Evaluate, HasType, Finds;
    var at, elements := if source then w.srcAt else w.dstAt, if source then w.src else w.dst;
    FindsEach(c, w, e);
    var code := ViewCode(c, block, source);
    var view, length := code[0], code[1];
    assert Read(e, view.inputs) == [SeqV(elements), IntV(at), IntV(at)];
    Views(code, e, elements, at, FailureOf(c));
    if at <= |elements| {
      var e1 := e[view.outputs[0].identity := SeqV([])];
      assert Read(e1, length.inputs) == [SeqV([])];
      assert code[1..] == [length];
      Measures(length, e1);
    }
  }

  lemma FindsEach(c: Instruction, w: Window, e: Env)
    requires Finds(e, c, w)
    ensures |c.inputs| == 5 && forall k :: 0 <= k < 5 ==> c.inputs[k] in e
    ensures e[c.inputs[0]] == SeqV(w.dst) && e[c.inputs[1]] == IntV(w.dstAt)
    ensures e[c.inputs[2]] == SeqV(w.src) && e[c.inputs[3]] == IntV(w.srcAt)
  {
    assert Read(e, c.inputs)[0] == SeqV(w.dst) && Read(e, c.inputs)[1] == IntV(w.dstAt);
    assert Read(e, c.inputs)[2] == SeqV(w.src) && Read(e, c.inputs)[3] == IntV(w.srcAt);
  }

  /** An empty view of a sequence is there, or its offset is past the end. */
  lemma Views(code: seq<Instruction>, e: Env, elements: seq<Value>, at: nat, failure: FailureMode)
    requires code != [] && code[0].kind.View? && code[0].failure == Some(failure) && |code[0].outputs| == 1
    requires code[0].outputs[0].ty.Sequence? && code[0].outputs[0].ty.bound == UpTo(0)
    requires Reads(e, code[0].inputs) && Read(e, code[0].inputs) == [SeqV(elements), IntV(at), IntV(at)]
    ensures RunCode(code, e) ==
            if at <= |elements| then RunCode(code[1..], e[code[0].outputs[0].identity := SeqV([])]) else Halt(failure)
  {
    hide StepPure, RunCode;
    if at <= |elements| {
      assert elements[at..at] == [];
      RunDefines(code, e, SeqV([]));
    } else {
      RunFails(code, e, failure);
    }
  }

  lemma Measures(i: Instruction, e: Env)
    requires i.kind.Length? && |i.outputs| == 1 && i.outputs[0].ty.U64?
    requires Reads(e, i.inputs) && Read(e, i.inputs) == [SeqV([])]
    ensures RunCode([i], e) == Go(e[i.outputs[0].identity := IntV(0)])
  {
    hide StepPure, RunCode;
    RunDefines([i], e, IntV(0));
  }

  /** What follows the two views: a zero, a check of each length against it, and the choice. */
  lemma ChecksCode(c: Instruction, block: Id)
    requires c.kind.Copy? && |c.inputs| == 5 && |c.outputs| == 1
    ensures |EmptyViewsCode(c, block).code| == 9
    ensures var code := EmptyViewsCode(c, block).code[4..];
            && |code| == 5 && code[0] == ConstantCode(c.identity, block, 4, 0)
            && code[1] == CheckCode(c, block, false) && code[2] == CheckCode(c, block, true)
            && Chooses(c, code[3], code[4])
  {
    hide CheckCode;
    ViewCodeLength(c, block);
  }

  ghost predicate Chooses(c: Instruction, both: Instruction, select: Instruction)
    requires c.kind.Copy? && |c.inputs| == 5 && |c.outputs| == 1
  {
    && both.kind.And? && |both.outputs| == 1 && both.outputs[0].ty == Bool
    && both.inputs == [Generated(c.identity, EmptyDestinationCheckValue, 6), Generated(c.identity, EmptySourceCheckValue, 7)]
    && both.outputs[0].identity == Generated(c.identity, EmptyViewsConditionValue, 8)
    && select.kind.Select? && select.inputs == [both.outputs[0].identity, c.inputs[0], c.inputs[0]]
    && |select.outputs| == 1 && select.outputs[0].ty == c.outputs[0].ty && select.outputs[0].identity == c.outputs[0].identity
  }

  lemma CheckOutput(c: Instruction, block: Id)
    ensures |CheckCode(c, block, false).outputs| == |CheckCode(c, block, true).outputs| == 1
    ensures CheckCode(c, block, false).outputs[0].identity == Generated(c.identity, EmptyDestinationCheckValue, 6)
    ensures CheckCode(c, block, true).outputs[0].identity == Generated(c.identity, EmptySourceCheckValue, 7)
  {
  }

  lemma ZeroCode(c: Instruction, block: Id, e: Env)
    ensures RunCode([ConstantCode(c.identity, block, 4, 0)], e) == Go(e[Generated(c.identity, ConstantValue, 5) := IntV(0)])
  {
    hide RunCode;
    ConstantRuns(c.identity, block, 4, 0, e);
  }

  lemma Prepends(first: Instruction, rest: seq<Instruction>, c: Instruction, w: Window, e: Env, e1: Env)
    requires c.kind.Copy? && |c.outputs| == 1 && RunCode([first], e) == Go(e1)
    requires Delivers(rest, c, w, e1) && Frame(e, e1, c.identity, 0)
    ensures Delivers([first] + rest, c, w, e)
  {
    hide RunCode, StepPure;
    RunAppend([first], rest, e);
  }

  /** After both views succeed, the result is the destination. */
  lemma ChecksRun(c: Instruction, block: Id, w: Window, e: Env)
    requires Typed(c, w) && Operands(e, c, w) && w.length == 0 && InBounds(w)
    requires forall source :: ViewLength(c, source) in e && e[ViewLength(c, source)] == IntV(0)
    ensures Delivers(EmptyViewsCode(c, block).code[4..], c, w, e)
  {
    hide StepPure, RunCode, CheckCode, EmptyViewsCode, ConstantCode, HasType, Delivers, InBounds;
    ChecksCode(c, block);
    var code := EmptyViewsCode(c, block).code[4..];
    CheckOutput(c, block);
    var zero, check0, check1, both, select := code[0], code[1], code[2], code[3], code[4];
    assert code == [zero] + ([check0] + ([check1] + ([both] + [select])));
    ZeroCode(c, block, e);
    var e1 := e[Generated(c.identity, ConstantValue, 5) := IntV(0)];
    CheckRuns(c, block, false, e1);
    var e2 := e1[check0.outputs[0].identity := BoolV(true)];
    CheckRuns(c, block, true, e2);
    var e3 := e2[check1.outputs[0].identity := BoolV(true)];
    FrameKeepsOperands(e, e3, c, w, 0);
    BothRun(both, select, c, w, e3);
    Prepends(check1, [both] + [select], c, w, e2, e3);
    Prepends(check0, [check1] + ([both] + [select]), c, w, e1, e2);
    Prepends(zero, [check0] + ([check1] + ([both] + [select])), c, w, e, e1);
  }

  lemma CheckRuns(c: Instruction, block: Id, source: bool, e: Env)
    requires ViewLength(c, source) in e && e[ViewLength(c, source)] == IntV(0)
    requires Generated(c.identity, ConstantValue, 5) in e && e[Generated(c.identity, ConstantValue, 5)] == IntV(0)
    ensures var i := CheckCode(c, block, source); RunCode([i], e) == Go(e[i.outputs[0].identity := BoolV(true)])
  {
    hide StepPure, RunCode;
    var i := CheckCode(c, block, source);
    assert Read(e, i.inputs) == [IntV(0), IntV(0)];
    RunDefines([i], e, BoolV(true));
  }

  lemma BothRun(both: Instruction, select: Instruction, c: Instruction, w: Window, e: Env)
    requires Typed(c, w) && Operands(e, c, w) && w.length == 0 && InBounds(w)
    requires both.kind.And? && |both.inputs| == 2 && |both.outputs| == 1 && both.outputs[0].ty == Bool
    requires both.inputs[0] in e && e[both.inputs[0]] == BoolV(true) && both.inputs[1] in e && e[both.inputs[1]] == BoolV(true)
    requires select.kind.Select? && select.inputs == [both.outputs[0].identity, c.inputs[0], c.inputs[0]]
    requires |select.outputs| == 1 && select.outputs[0].ty == c.outputs[0].ty && select.outputs[0].identity == c.outputs[0].identity
    requires !Old(both.outputs[0].identity, c.identity, 0)
    ensures Delivers([both] + [select], c, w, e)
  {
    hide StepPure, RunCode;
    RunAppend([both], [select], e);
    assert Read(e, both.inputs) == [BoolV(true), BoolV(true)];
    RunDefines([both], e, BoolV(true));
    var e1 := e[both.outputs[0].identity := BoolV(true)];
    FrameKeepsOperands(e, e1, c, w, 0);
    assert Read(e1, c.inputs)[0] == SeqV(w.dst);
    assert Read(e1, select.inputs) == [BoolV(true), SeqV(w.dst), SeqV(w.dst)];
    assert Copied(w) == w.dst;
    RunDefines([select], e1, SeqV(w.dst));
  }

  lemma EmptyViewsRun(c: Instruction, block: Id, w: Window, e: Env)
    requires Typed(c, w) && Operands(e, c, w) && w.length == 0 && c.kind.evidence.RuntimeChecked?
    ensures Delivers(EmptyViewsCode(c, block).code, c, w, e)
  {
    hide StepPure, HasType, ViewCode, CheckCode;
    var code := EmptyViewsCode(c, block).code;
    var destination, source, checks := ViewCode(c, block, false), ViewCode(c, block, true), code[4..];
    ViewRuns(c, block, false, w, e);
    RunAppend(destination, source + checks, e);
    assert code == destination + (source + checks) by { ViewCodeLength(c, block); }
    if w.dstAt <= |w.dst| {
      var e1 := RunCode(destination, e).env;
      FrameKeepsOperands(e, e1, c, w, 0);
      ViewRuns(c, block, true, w, e1);
      RunAppend(source, checks, e1);
      if w.srcAt <= |w.src| {
        var e2 := RunCode(source, e1).env;
        FrameTrans(e, e1, e2, c.identity, 0, 2);
        FrameKeepsOperands(e, e2, c, w, 0);
        assert Old(ViewLength(c, false), c.identity, 2);
        ChecksRun(c, block, w, e2);
      }
    }
  }

  lemma ViewCodeLength(c: Instruction, block: Id)
    requires c.kind.Copy? && |c.inputs| == 5
    ensures |ViewCode(c, block, false)| == |ViewCode(c, block, true)| == 2
  {
  }
}
