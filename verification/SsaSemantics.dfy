/** What SSA instructions, blocks, functions and whole modules compute. Sequences are plain
    functional values: a copy fails exactly when a window leaves its sequence, and a project or
    replace fails exactly when its index is out of range. */
module SsaSemantics {
  import opened Prelude
  import opened SsaSyntax

  datatype Value = BoolV(b: bool) | IntV(n: int) | SeqV(elements: seq<Value>) | NamedV(name: string, tag: nat)

  type Env = map<Id, Value>

  /** Host-visible events so far, most recent last. */
  type Trace = seq<nat>

  ghost predicate HasType(v: Value, ty: Type)
    decreases ty
  {
    match ty
    case Bool => v.BoolV?
    case U64 => v.IntV? && 0 <= v.n < U64_LIMIT
    case Named(name) => v.NamedV? && v.name == name
    case Sequence(element, bound) =>
      && v.SeqV?
      && |v.elements| <= bound.Max()
      && (bound.Exact? ==> |v.elements| == bound.length)
      && forall i :: 0 <= i < |v.elements| ==> HasType(v.elements[i], element)
  }

  /** A span copy is total on its window and leaves the rest of the destination alone. */
  function SpanCopy<T>(dst: seq<T>, dstAt: nat, src: seq<T>, srcAt: nat, length: nat): (r: seq<T>)
    requires dstAt + length <= |dst| && srcAt + length <= |src|
    ensures |r| == |dst|
    ensures forall i :: 0 <= i < |dst| ==>
      r[i] == if dstAt <= i < dstAt + length then src[srcAt + (i - dstAt)] else dst[i]
  {
    dst[..dstAt] + src[srcAt..srcAt + length] + dst[dstAt + length..]
  }

  datatype Evaluation = Values(values: seq<Value>) | Fails(mode: FailureMode) | Traps

  /** Evidence decides what a violated bound means: a checked one fails in its mode, and a static
      one was promised never to happen. */
  function Violated(evidence: Evidence): Evaluation {
    match evidence
    case StaticExact => Traps
    case RuntimeChecked(failure) => Fails(failure)
  }

  function FailsWith(failure: Option<FailureMode>): Evaluation {
    if failure.Some? then Fails(failure.value) else Traps
  }

  function ConstantOf(value: int, ty: Type): Value {
    if ty.Bool? then BoolV(value != 0) else IntV(value)
  }

  function CopyOf(evidence: Evidence, args: seq<Value>): Evaluation {
    if |args| != 5 || !args[0].SeqV? || !args[1].IntV? || !args[2].SeqV? || !args[3].IntV? || !args[4].IntV? then
      Traps
    else
      var dst, dstAt, src, srcAt, length := args[0].elements, args[1].n, args[2].elements, args[3].n, args[4].n;
      if 0 <= dstAt && 0 <= srcAt && 0 <= length && dstAt + length <= |dst| && srcAt + length <= |src| then
        Values([SeqV(SpanCopy(dst, dstAt, src, srcAt, length))])
      else
        Violated(evidence)
  }

  /** Calls and `Other` operations are not evaluated here but by `RunInstructions`. */
  function Evaluate(kind: Kind, failure: Option<FailureMode>, args: seq<Value>): Evaluation {
    match kind
    case Constant(value, ty) => if args == [] then Values([ConstantOf(value, ty)]) else Traps
    case Select(_) =>
      if |args| == 3 && args[0].BoolV? then Values([if args[0].b then args[1] else args[2]]) else Traps
    case Project(_, evidence) =>
      if |args| == 2 && args[0].SeqV? && args[1].IntV? then
        if 0 <= args[1].n < |args[0].elements| then Values([args[0].elements[args[1].n]]) else Violated(evidence)
      else Traps
    case Replace(_, _, evidence) =>
      if |args| == 3 && args[0].SeqV? && args[1].IntV? then
        if 0 <= args[1].n < |args[0].elements| then
          Values([SeqV(args[0].elements[args[1].n := args[2]])])
        else Violated(evidence)
      else Traps
    case Construct(_, length) => if |args| == length then Values([SeqV(args)]) else Traps
    case Copy(_, _, _, evidence) => CopyOf(evidence, args)
    case Length(_) => if |args| == 1 && args[0].SeqV? then Values([IntV(|args[0].elements|)]) else Traps
    case View(_, viewBound) =>
      if |args| == 3 && args[0].SeqV? && args[1].IntV? && args[2].IntV? then
        if 0 <= args[1].n <= args[2].n <= |args[0].elements| && args[2].n - args[1].n <= viewBound.Max() then
          Values([SeqV(args[0].elements[args[1].n..args[2].n])])
        else FailsWith(failure)
      else Traps
    case AddChecked =>
      if |args| == 2 && args[0].IntV? && args[1].IntV? then
        if args[0].n + args[1].n < U64_LIMIT then Values([IntV(args[0].n + args[1].n)]) else FailsWith(failure)
      else Traps
    case CompareEq =>
      if |args| == 2 && args[0].IntV? && args[1].IntV? then Values([BoolV(args[0].n == args[1].n)]) else Traps
    case And =>
      if |args| == 2 && args[0].BoolV? && args[1].BoolV? then Values([BoolV(args[0].b && args[1].b)]) else Traps
    case Call(_) => Traps
    case Other(_) => Traps
  }

  ghost predicate Reads(env: Env, ids: seq<Id>) {
    forall i :: 0 <= i < |ids| ==> ids[i] in env
  }

  ghost function Read(env: Env, ids: seq<Id>): (r: seq<Value>)
    requires Reads(env, ids)
    ensures |r| == |ids|
    ensures forall i :: 0 <= i < |ids| ==> r[i] == env[ids[i]]
  {
    seq(|ids|, i requires 0 <= i < |ids| => env[ids[i]])
  }

  /** Values may be stored only under names that declare their type. */
  ghost predicate Fits(outputs: seq<SsaValue>, values: seq<Value>) {
    |outputs| == |values| && forall i :: 0 <= i < |outputs| ==> HasType(values[i], outputs[i].ty)
  }

  ghost function Store(env: Env, outputs: seq<SsaValue>, values: seq<Value>): (r: Env)
    requires |outputs| == |values|
    ensures r.Keys == env.Keys + (set v | v in outputs :: v.identity)
    decreases |outputs|
  {
    if outputs == [] then env
    else Store(env[outputs[0].identity := values[0]], outputs[1..], values[1..])
  }

  /** A run so far: an environment, a failure in a mode, a trap (an undefined name, a value outside
      its declared type or violated static evidence), or more steps to go than fuel allowed. */
  datatype Run<T> = Done(value: T, trace: Trace) | Failed(mode: FailureMode, trace: Trace) | Trapped(trace: Trace) | OutOfFuel

  datatype Effect = Produced(values: seq<Value>, after: Trace) | Refused(mode: FailureMode, after: Trace) | Stuck(after: Trace)

  datatype Next = Goto(target: nat, arguments: seq<Value>) | Return(values: seq<Value>) | Abort(mode: FailureMode)

  /** The meaning of everything the passes do not touch: other operations and terminators. */
  datatype Machine = Machine(
    other: (nat, seq<Value>, Trace) -> Effect,
    branch: (nat, seq<Value>) -> Next)

  function FindFunction(functions: seq<Function>, identity: Id): (r: Option<Function>)
    ensures r.Some? ==> r.value in functions && r.value.semanticIdentity == identity
  {
    if functions == [] then None
    else if functions[0].semanticIdentity == identity then Some(functions[0])
    else FindFunction(functions[1..], identity)
  }

  ghost function StoreRun(env: Env, outputs: seq<SsaValue>, values: seq<Value>, trace: Trace): Run<Env> {
    if Fits(outputs, values) then Done(Store(env, outputs, values), trace) else Trapped(trace)
  }

  ghost function RunInstruction(m: Machine, program: seq<Function>, i: Instruction, env: Env, trace: Trace, fuel: nat): Run<Env>
    decreases fuel, 2, 0
  {
    if !Reads(env, i.inputs) then Trapped(trace)
    else
      var args := Read(env, i.inputs);
      match i.kind
      case Call(callee) =>
        if fuel == 0 then OutOfFuel
        else (match RunFunction(m, program, callee, args, trace, fuel - 1)
              case Done(values, after) => StoreRun(env, i.outputs, values, after)
              case Failed(mode, after) => Failed(mode, after)
              case Trapped(after) => Trapped(after)
              case OutOfFuel => OutOfFuel)
      case Other(opcode) =>
        (match m.other(opcode, args, trace)
         case Produced(values, after) => StoreRun(env, i.outputs, values, after)
         case Refused(mode, after) => Failed(mode, after)
         case Stuck(after) => Trapped(after))
      case _ =>
        (match Evaluate(i.kind, i.failure, args)
         case Values(values) => StoreRun(env, i.outputs, values, trace)
         case Fails(mode) => Failed(mode, trace)
         case Traps => Trapped(trace))
  }

  ghost function RunInstructions(m: Machine, program: seq<Function>, code: seq<Instruction>, env: Env, trace: Trace, fuel: nat): Run<Env>
    decreases fuel, 3, |code|
  {
    if code == [] then Done(env, trace)
    else
      match RunInstruction(m, program, code[0], env, trace, fuel)
      case Done(env', trace') => RunInstructions(m, program, code[1..], env', trace', fuel)
      case stop => stop
  }

  /** One unit of fuel pays for entering a block or a callee. */
  ghost function RunBlock(m: Machine, program: seq<Function>, f: Function, b: nat, args: seq<Value>, env: Env, trace: Trace, fuel: nat): Run<seq<Value>>
    decreases fuel, 0, 0
  {
    if fuel == 0 then OutOfFuel
    else if b >= |f.blocks| then Trapped(trace)
    else
      var block := f.blocks[b];
      match StoreRun(env, block.parameters, args, trace)
      case Done(entered, _) =>
        (match RunInstructions(m, program, block.instructions, entered, trace, fuel - 1)
         case Done(env', trace') => RunTerminator(m, program, f, block.terminator, env', trace', fuel)
         case Failed(mode, after) => Failed(mode, after)
         case Trapped(after) => Trapped(after)
         case OutOfFuel => OutOfFuel)
      case _ => Trapped(trace)
  }

  ghost function RunTerminator(m: Machine, program: seq<Function>, f: Function, t: Terminator, env: Env, trace: Trace, fuel: nat): Run<seq<Value>>
    requires fuel > 0
    decreases fuel - 1, 4, 0
  {
    if !Reads(env, t.operands) then Trapped(trace)
    else
      match m.branch(t.opcode, Read(env, t.operands))
      case Goto(target, arguments) =>
        if target in t.targets then RunBlock(m, program, f, target, arguments, env, trace, fuel - 1)
        else Trapped(trace)
      case Return(values) => if Fits(f.outputs, values) then Done(values, trace) else Trapped(trace)
      case Abort(mode) => Failed(mode, trace)
  }

  ghost function RunFunction(m: Machine, program: seq<Function>, callee: Id, args: seq<Value>, trace: Trace, fuel: nat): Run<seq<Value>>
    decreases fuel, 1, 0
  {
    match FindFunction(program, callee)
    case None => Trapped(trace)
    case Some(f) =>
      if Fits(f.inputs, args) then RunBlock(m, program, f, 0, [], Store(map[], f.inputs, args), trace, fuel)
      else Trapped(trace)
  }
}
