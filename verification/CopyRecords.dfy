/** The transformation records of the three passes: one for each copy that is gone, about the one instruction
    that has taken its place, which requires the obligations of the copy and those that were added for it. */
module CopyRecords {
  import opened Prelude
  import opened SsaSyntax
  import opened CopyLowering
  import opened CopyCarriage
  import N = CopyNames
  import R = CopyResults
  import P = CopyPreservation

  /** All instructions, in the order in which they stand. */
  function BlocksCode(blocks: seq<Block>): seq<Instruction> {
    if blocks == [] then [] else blocks[0].instructions + BlocksCode(blocks[1..])
  }

  function ProgramCode(p: seq<Function>): seq<Instruction> {
    if p == [] then [] else BlocksCode(p[0].blocks) + ProgramCode(p[1..])
  }

  function InputsOf(records: seq<TransformationRecord>): seq<Id> {
    seq(|records|, k requires 0 <= k < |records| => records[k].input)
  }

  /** Each name is that of an obligation which speaks for the copy. */
  ghost predicate OwedFor(c: Instruction, more: seq<Id>, obligations: seq<ObligationRecord>) {
    forall x :: x in more ==> exists o :: o in obligations && o.identity == x && ObligationOf(c, o)
  }

  /** The record is about a copy and about an instruction of the code that has taken its place. */
  ghost predicate IsRecordOf(t: TransformationRecord, c: Instruction, code: seq<Instruction>, obligations: seq<ObligationRecord>) {
    exists last, more :: last in code && Records(t, c, last, more) && OwedFor(c, more, obligations)
  }

  ghost predicate HasRecord(c: Instruction, code: seq<Instruction>, records: seq<TransformationRecord>, obligations: seq<ObligationRecord>) {
    c.kind.Copy? && exists t :: t in records && IsRecordOf(t, c, code, obligations)
  }

  ghost predicate AboutCopy(t: TransformationRecord, before: seq<Instruction>, code: seq<Instruction>, obligations: seq<ObligationRecord>) {
    exists c :: c in before && c.kind.Copy? && IsRecordOf(t, c, code, obligations)
  }

  ghost predicate RequiredFor(o: ObligationRecord, before: seq<Instruction>, records: seq<TransformationRecord>) {
    exists c, t :: c in before && c.kind.Copy? && t in records && t.input == c.identity && ObligationOf(c, o) && o.identity in t.obligationsRequired
  }

  /** From `before` to `after`: every record is about a copy and what took its place, every instruction is still
      there or is a copy with a record, every obligation is required by the record of a copy that it speaks for, and
      no copy is new. */
  ghost predicate Accounts(before: seq<Instruction>, after: seq<Instruction>, records: seq<TransformationRecord>, obligations: seq<ObligationRecord>) {
    && (forall t :: t in records ==> AboutCopy(t, before, after, obligations))
    && (forall i :: i in before ==> i in after || HasRecord(i, after, records, obligations))
    && (forall o :: o in obligations ==> RequiredFor(o, before, records))
    && forall i :: i in after && i.kind.Copy? ==> i in before
  }

  // ----- Accounts add up -----

  lemma MoreIsRecord(t: TransformationRecord, c: Instruction, code: seq<Instruction>, obligations: seq<ObligationRecord>,
                     code': seq<Instruction>, obligations': seq<ObligationRecord>)
    requires IsRecordOf(t, c, code, obligations)
    requires forall i :: i in code && !i.kind.Copy? ==> i in code'
    requires forall o :: o in obligations ==> o in obligations'
    ensures IsRecordOf(t, c, code', obligations')
  {
    hide Records, ObligationOf;
    var last, more :| last in code && Records(t, c, last, more) && OwedFor(c, more, obligations);
    RecordedIsNoCopy(t, c, last, more);
    assert OwedFor(c, more, obligations');
  }

  lemma RecordedIsNoCopy(t: TransformationRecord, c: Instruction, last: Instruction, more: seq<Id>)
    requires Records(t, c, last, more)
    ensures !last.kind.Copy?
  {
  }

  ghost predicate Within<T>(a: seq<T>, b: seq<T>) {
    forall x :: x in a ==> x in b
  }

  ghost predicate OthersWithin(a: seq<Instruction>, b: seq<Instruction>) {
    forall i :: i in a && !i.kind.Copy? ==> i in b
  }

  lemma RecordStays(t: TransformationRecord, before: seq<Instruction>, code: seq<Instruction>, obligations: seq<ObligationRecord>,
                    before': seq<Instruction>, code': seq<Instruction>, obligations': seq<ObligationRecord>)
    requires AboutCopy(t, before, code, obligations)
    requires (forall c :: c in before && c.kind.Copy? ==> c in before') && OthersWithin(code, code') && Within(obligations, obligations')
    ensures AboutCopy(t, before', code', obligations')
  {
    hide IsRecordOf;
    var c :| c in before && c.kind.Copy? && IsRecordOf(t, c, code, obligations);
    MoreIsRecord(t, c, code, obligations, code', obligations');
  }

  lemma RecordFound(c: Instruction, code: seq<Instruction>, records: seq<TransformationRecord>, obligations: seq<ObligationRecord>,
                    code': seq<Instruction>, records': seq<TransformationRecord>, obligations': seq<ObligationRecord>)
    requires HasRecord(c, code, records, obligations)
    requires OthersWithin(code, code') && Within(records, records') && Within(obligations, obligations')
    ensures HasRecord(c, code', records', obligations')
  {
    hide IsRecordOf;
    var t :| t in records && IsRecordOf(t, c, code, obligations);
    MoreIsRecord(t, c, code, obligations, code', obligations');
  }

  lemma StillRequired(o: ObligationRecord, before: seq<Instruction>, records: seq<TransformationRecord>,
                      before': seq<Instruction>, records': seq<TransformationRecord>)
    requires RequiredFor(o, before, records) && (forall c :: c in before && c.kind.Copy? ==> c in before') && Within(records, records')
    ensures RequiredFor(o, before', records')
  {
    hide ObligationOf;
    var c, t :| c in before && c.kind.Copy? && t in records && t.input == c.identity && ObligationOf(c, o) && o.identity in t.obligationsRequired;
    assert c in before' && t in records';
  }

  lemma AccountsAppend(a: seq<Instruction>, a': seq<Instruction>, r: seq<TransformationRecord>, o: seq<ObligationRecord>,
                       b: seq<Instruction>, b': seq<Instruction>, s: seq<TransformationRecord>, u: seq<ObligationRecord>)
    requires Accounts(a, a', r, o) && Accounts(b, b', s, u)
    ensures Accounts(a + b, a' + b', r + s, o + u)
  {
    hide AboutCopy, HasRecord, RequiredFor;
    var both, both', rs, ou := a + b, a' + b', r + s, o + u;
    forall t | t in rs ensures AboutCopy(t, both, both', ou) {
      if t in r {
        RecordStays(t, a, a', o, both, both', ou);
      } else {
        RecordStays(t, b, b', u, both, both', ou);
      }
    }
    forall i | i in both && i !in both' ensures HasRecord(i, both', rs, ou) {
      if i in a {
        RecordFound(i, a', r, o, both', rs, ou);
      } else {
        RecordFound(i, b', s, u, both', rs, ou);
      }
    }
    forall x | x in ou ensures RequiredFor(x, both, rs) {
      if x in o {
        StillRequired(x, a, r, both, rs);
      } else {
        StillRequired(x, b, s, both, rs);
      }
    }
  }

  /** One pass after another. */
  lemma AccountsThen(a: seq<Instruction>, b: seq<Instruction>, r: seq<TransformationRecord>, o: seq<ObligationRecord>,
                     c: seq<Instruction>, s: seq<TransformationRecord>, u: seq<ObligationRecord>)
    requires Accounts(a, b, r, o) && Accounts(b, c, s, u)
    ensures Accounts(a, c, r + s, o + u)
  {
    hide AboutCopy, RequiredFor;
    var rs, ou := r + s, o + u;
    assert OthersWithin(b, c);
    hide HasRecord;
    forall t | t in rs ensures AboutCopy(t, a, c, ou) {
      if t in r {
        RecordStays(t, a, b, o, a, c, ou);
      } else {
        RecordStays(t, b, c, u, a, c, ou);
      }
    }
    forall i | i in a && i !in c ensures HasRecord(i, c, rs, ou) {
      if i in b {
        RecordFound(i, c, s, u, c, rs, ou);
      } else {
        RecordFound(i, b, r, o, c, rs, ou);
      }
    }
    forall x | x in ou ensures RequiredFor(x, a, rs) {
      if x in o {
        StillRequired(x, a, r, a, rs);
      } else {
        StillRequired(x, b, s, a, rs);
      }
    }
  }

  lemma NothingAccounts(code: seq<Instruction>)
    ensures Accounts(code, code, [], [])
  {
  }

  /** The copies that the records are about are all different, and have these names. */
  ghost predicate Inputs(records: seq<TransformationRecord>, names: seq<Id>) {
    Distinct(InputsOf(records)) && forall t :: t in records ==> t.input in names
  }

  lemma InputsAppend(r: seq<TransformationRecord>, M: seq<Id>, s: seq<TransformationRecord>, K: seq<Id>)
    requires Inputs(r, M) && Inputs(s, K) && Disjoint(M, K)
    ensures Inputs(r + s, M + K)
  {
    assert InputsOf(r + s) == InputsOf(r) + InputsOf(s);
    forall x | x in InputsOf(r) ensures x !in InputsOf(s) {
      var j :| 0 <= j < |r| && InputsOf(r)[j] == x;
      assert r[j] in r;
      forall k | 0 <= k < |s| ensures InputsOf(s)[k] != x {
        assert s[k] in s;
      }
    }
    DistinctAppend(InputsOf(r), InputsOf(s));
  }

  lemma NoInputs(names: seq<Id>)
    ensures Inputs([], names)
  {
  }

  lemma InputsMore(records: seq<TransformationRecord>, names: seq<Id>, more: seq<Id>)
    requires Inputs(records, names)
    ensures Inputs(records, more + names)
  {
  }

  // ----- One pass -----

  lemma InstructionAccounts(pass: Pass, ctx: Context, block: Id, i: Instruction)
    requires LowerInstruction(pass, ctx, block, i).Ok?
    ensures var out := LowerInstruction(pass, ctx, block, i).value;
            Accounts([i], out.items, out.records, out.obligations) && Inputs(out.records, N.InstructionNames(i))
  {
    hide Decide, PlanCode, RecordOf, RuleOf, Accounts, Carries, Records, RoleIs, Picked, ObligationsOf, IdentitiesOf;
    var plan := Decide(pass, ctx, i).value;
    if plan.Keep? {
      NothingAccounts([i]);
      NoInputs(N.InstructionNames(i));
    } else {
      DecidesPicked(pass, ctx, i);
      DecidesPlanned(pass, ctx, i);
      PlanCarries(pass, i, block, plan);
      N.PlanSimple(pass, i, block, plan);
      var x := PlanCode(pass, i, block, plan);
      var t := RecordOf(i, x, RuleOf(pass, plan));
      PlanNotEmpty(pass, i, block, x.code);
      CopyAccounts(i, x.code, t, x.obligations);
      OneInput(i, x.code, t, IdentitiesOf(x.obligations));
    }
  }

  lemma PlanNotEmpty(pass: Pass, c: Instruction, block: Id, code: seq<Instruction>)
    requires Carries(pass, c, block, code)
    ensures code != []
  {
  }

  lemma OneInput(c: Instruction, code: seq<Instruction>, t: TransformationRecord, more: seq<Id>)
    requires code != [] && Records(t, c, code[|code| - 1], more)
    ensures Inputs([t], N.InstructionNames(c))
  {
    assert N.InstructionNames(c)[0] == c.identity;
  }

  lemma CopyAccounts(c: Instruction, code: seq<Instruction>, t: TransformationRecord, obligations: seq<ObligationRecord>)
    requires c.kind.Copy? && code != [] && N.AllSimple(code)
    requires Records(t, c, code[|code| - 1], IdentitiesOf(obligations)) && ObligationsOf(c, obligations)
    ensures Accounts([c], code, [t], obligations)
  {
    hide ObligationOf;
    var more, last := IdentitiesOf(obligations), code[|code| - 1];
    forall x | x in more ensures exists o :: o in obligations && o.identity == x && ObligationOf(c, o) {
      var k :| 0 <= k < |more| && more[k] == x;
      assert obligations[k] in obligations;
    }
    assert last in code && OwedFor(c, more, obligations);
    assert IsRecordOf(t, c, code, obligations);
    forall o | o in obligations ensures RequiredFor(o, [c], [t]) {
      var k :| 0 <= k < |obligations| && obligations[k] == o;
      assert more[k] == o.identity;
      assert c in [c] && t in [t];
    }
  }

  lemma {:induction false} CodeAccounts(pass: Pass, ctx: Context, block: Id, code: seq<Instruction>)
    requires LowerInstructions(pass, ctx, block, code).Ok? && Distinct(N.CodeNames(code))
    ensures var out := LowerInstructions(pass, ctx, block, code).value;
            Accounts(code, out.items, out.records, out.obligations) && Inputs(out.records, N.CodeNames(code))
    decreases |code|
  {
    hide LowerInstruction, Accounts, Inputs, N.InstructionNames, Distinct;
    if code == [] {
      NothingAccounts([]);
      NoInputs([]);
    } else {
      var first, rest := LowerInstruction(pass, ctx, block, code[0]).value, LowerInstructions(pass, ctx, block, code[1..]).value;
      DistinctAppend(N.InstructionNames(code[0]), N.CodeNames(code[1..]));
      InstructionAccounts(pass, ctx, block, code[0]);
      CodeAccounts(pass, ctx, block, code[1..]);
      AccountsAppend([code[0]], first.items, first.records, first.obligations, code[1..], rest.items, rest.records, rest.obligations);
      InputsAppend(first.records, N.InstructionNames(code[0]), rest.records, N.CodeNames(code[1..]));
      assert [code[0]] + code[1..] == code;
    }
  }

  lemma {:induction false} BlocksCodeAppend(a: seq<Block>, b: seq<Block>)
    ensures BlocksCode(a + b) == BlocksCode(a) + BlocksCode(b)
    decreases |a|
  {
    if a == [] {
      assert a + b == b;
    } else {
      assert (a + b)[0] == a[0] && (a + b)[1..] == a[1..] + b;
      BlocksCodeAppend(a[1..], b);
      assert BlocksCode(a + b) == a[0].instructions + (BlocksCode(a[1..]) + BlocksCode(b));
    }
  }

  lemma {:induction false} BlocksAccount(pass: Pass, ctx: Context, blocks: seq<Block>)
    requires LowerBlocks(pass, ctx, blocks).Ok? && Distinct(N.BlocksNames(blocks))
    ensures var out := LowerBlocks(pass, ctx, blocks).value;
            Accounts(BlocksCode(blocks), BlocksCode(out.items), out.records, out.obligations) && Inputs(out.records, N.BlocksNames(blocks))
    decreases |blocks|
  {
    hide LowerInstructions, Accounts, Inputs, N.CodeNames, Distinct;
    if blocks == [] {
      NothingAccounts([]);
      NoInputs([]);
    } else {
      var b := blocks[0];
      var first, rest := LowerBlock(pass, ctx, b).value, LowerBlocks(pass, ctx, blocks[1..]).value;
      DistinctAppend(N.BlockNames(b), N.BlocksNames(blocks[1..]));
      DistinctAppend(N.ValueNames(b.parameters), N.CodeNames(b.instructions));
      CodeAccounts(pass, ctx, b.identity, b.instructions);
      InputsMore(first.records, N.CodeNames(b.instructions), N.ValueNames(b.parameters));
      BlocksAccount(pass, ctx, blocks[1..]);
      assert first.items[1..] == [] && BlocksCode(first.items) == first.items[0].instructions;
      AccountsAppend(b.instructions, BlocksCode(first.items), first.records, first.obligations,
                     BlocksCode(blocks[1..]), BlocksCode(rest.items), rest.records, rest.obligations);
      InputsAppend(first.records, N.BlockNames(b), rest.records, N.BlocksNames(blocks[1..]));
      BlocksCodeAppend(first.items, rest.items);
    }
  }

  lemma {:induction false} ProgramCodeAppend(a: seq<Function>, b: seq<Function>)
    ensures ProgramCode(a + b) == ProgramCode(a) + ProgramCode(b)
    decreases |a|
  {
    hide BlocksCode;
    if a == [] {
      assert a + b == b;
    } else {
      assert (a + b)[0] == a[0] && (a + b)[1..] == a[1..] + b;
      ProgramCodeAppend(a[1..], b);
      assert ProgramCode(a + b) == BlocksCode(a[0].blocks) + (ProgramCode(a[1..]) + ProgramCode(b));
    }
  }

  lemma {:induction false} PassAccounts(pass: Pass, p: seq<Function>)
    requires LowerFunctions(pass, p).Ok? && Distinct(N.ProgramNames(p))
    ensures var out := LowerFunctions(pass, p).value;
            Accounts(ProgramCode(p), ProgramCode(out.items), out.records, out.obligations) && Inputs(out.records, N.ProgramNames(p))
    decreases |p|
  {
    hide LowerBlocks, Accounts, Inputs, N.BlocksNames, Distinct, Collect, BlocksCode;
    if p == [] {
      NothingAccounts([]);
      NoInputs([]);
    } else {
      var f := p[0];
      var first, rest := LowerFunction(pass, f).value, LowerFunctions(pass, p[1..]).value;
      DistinctAppend(N.FunctionNames(f), N.ProgramNames(p[1..]));
      DistinctAppend(N.ValueNames(f.inputs), N.BlocksNames(f.blocks));
      BlocksAccount(pass, Collect(f), f.blocks);
      InputsMore(first.records, N.BlocksNames(f.blocks), N.ValueNames(f.inputs));
      PassAccounts(pass, p[1..]);
      assert first.items[1..] == [] && ProgramCode(first.items) == BlocksCode(first.items[0].blocks);
      AccountsAppend(BlocksCode(f.blocks), ProgramCode(first.items), first.records, first.obligations,
                     ProgramCode(p[1..]), ProgramCode(rest.items), rest.records, rest.obligations);
      InputsAppend(first.records, N.FunctionNames(f), rest.records, N.ProgramNames(p[1..]));
      ProgramCodeAppend(first.items, rest.items);
    }
  }

  // ----- Order -----

  function SubjectsOf(obligations: seq<ObligationRecord>): seq<Id> {
    seq(|obligations|, k requires 0 <= k < |obligations| => obligations[k].subject)
  }

  /** The names are those of instructions of the code, in the order in which these stand. */
  ghost predicate Follows(names: seq<Id>, code: seq<Instruction>) {
    exists places: seq<nat> :: FollowsAt(names, code, places)
  }

  ghost predicate FollowsAt(names: seq<Id>, code: seq<Instruction>, places: seq<nat>) {
    && |places| == |names|
    && (forall k :: 0 <= k < |names| ==> places[k] < |code| && code[places[k]].identity == names[k])
    && forall j, k :: 0 <= j < k < |names| ==> places[j] < places[k]
  }

  lemma FollowsNothing(code: seq<Instruction>)
    ensures Follows([], code)
  {
    assert FollowsAt([], code, []);
  }

  lemma FollowsAppend(a: seq<Id>, x: seq<Instruction>, b: seq<Id>, y: seq<Instruction>)
    requires Follows(a, x) && Follows(b, y)
    ensures Follows(a + b, x + y)
  {
    var p: seq<nat> :| FollowsAt(a, x, p);
    var q: seq<nat> :| FollowsAt(b, y, q);
    var shifted: seq<nat> := seq(|q|, k requires 0 <= k < |q| => |x| + q[k]);
    assert FollowsAt(a + b, x + y, p + shifted);
  }

  /** Records are in the order of the copies they are about, and obligations in that of the additions that owe them. */
  ghost predicate InOrder(before: seq<Instruction>, after: seq<Instruction>, records: seq<TransformationRecord>, obligations: seq<ObligationRecord>) {
    Follows(InputsOf(records), before) && Follows(SubjectsOf(obligations), after)
  }

  lemma InOrderAppend(a: seq<Instruction>, a': seq<Instruction>, r: seq<TransformationRecord>, o: seq<ObligationRecord>,
                      b: seq<Instruction>, b': seq<Instruction>, s: seq<TransformationRecord>, u: seq<ObligationRecord>)
    requires InOrder(a, a', r, o) && InOrder(b, b', s, u)
    ensures InOrder(a + b, a' + b', r + s, o + u)
  {
    hide Follows;
    FollowsAppend(InputsOf(r), a, InputsOf(s), b);
    FollowsAppend(SubjectsOf(o), a', SubjectsOf(u), b');
    assert InputsOf(r) + InputsOf(s) == InputsOf(r + s);
    assert SubjectsOf(o) + SubjectsOf(u) == SubjectsOf(o + u);
  }

  lemma NothingInOrder(code: seq<Instruction>)
    ensures InOrder(code, code, [], [])
  {
    hide Follows;
    FollowsNothing(code);
    assert InputsOf([]) == [] && SubjectsOf([]) == [];
  }

  /** The checked additions of code stand in their order. */
  lemma {:induction false} AddsFollow(code: seq<Instruction>, names: seq<Id>)
    requires |names| == |R.Adds(code)| && forall k :: 0 <= k < |names| ==> names[k] == R.Adds(code)[k].identity
    ensures Follows(names, code)
    decreases |code|
  {
    hide Follows, R.Added;
    if code == [] {
      FollowsNothing(code);
    } else {
      var first := R.Added(code[0]);
      assert R.Adds(code) == first + R.Adds(code[1..]);
      hide R.Adds;
      var a, b := names[..|first|], names[|first|..];
      forall k | 0 <= k < |b| ensures b[k] == R.Adds(code[1..])[k].identity {
        assert b[k] == names[|first| + k];
      }
      AddsFollow(code[1..], b);
      OneFollows(code[0], a);
      FollowsAppend(a, [code[0]], b, code[1..]);
      assert a + b == names && [code[0]] + code[1..] == code;
    }
  }

  lemma OneFollows(i: Instruction, names: seq<Id>)
    requires |names| == |R.Added(i)| && forall k :: 0 <= k < |names| ==> names[k] == R.Added(i)[k].identity
    ensures Follows(names, [i])
  {
    if names == [] {
      FollowsNothing([i]);
    } else {
      assert FollowsAt(names, [i], [0]);
    }
  }

  lemma InstructionInOrder(pass: Pass, ctx: Context, block: Id, i: Instruction)
    requires LowerInstruction(pass, ctx, block, i).Ok?
    ensures var out := LowerInstruction(pass, ctx, block, i).value; InOrder([i], out.items, out.records, out.obligations)
  {
    hide Decide, PlanCode, RuleOf, Follows, R.Adds, Distinct, IdentitiesOf, RecordOf;
    var plan := Decide(pass, ctx, i).value;
    if plan.Keep? {
      NothingInOrder([i]);
    } else {
      DecidesPlanned(pass, ctx, i);
      var x := PlanCode(pass, i, block, plan);
      R.ObligationsMatchAdditions(pass, i, block, plan);
      AddsFollow(x.code, SubjectsOf(x.obligations));
      InputIs(i, x, RuleOf(pass, plan));
    }
  }

  lemma InputIs(c: Instruction, x: Emission, rule: string)
    ensures Follows(InputsOf([RecordOf(c, x, rule)]), [c])
  {
    assert FollowsAt(InputsOf([RecordOf(c, x, rule)]), [c], [0]);
  }

  lemma {:induction false} CodeInOrder(pass: Pass, ctx: Context, block: Id, code: seq<Instruction>)
    requires LowerInstructions(pass, ctx, block, code).Ok?
    ensures var out := LowerInstructions(pass, ctx, block, code).value; InOrder(code, out.items, out.records, out.obligations)
    decreases |code|
  {
    hide LowerInstruction, InOrder;
    if code == [] {
      NothingInOrder([]);
    } else {
      var first, rest := LowerInstruction(pass, ctx, block, code[0]).value, LowerInstructions(pass, ctx, block, code[1..]).value;
      InstructionInOrder(pass, ctx, block, code[0]);
      CodeInOrder(pass, ctx, block, code[1..]);
      InOrderAppend([code[0]], first.items, first.records, first.obligations, code[1..], rest.items, rest.records, rest.obligations);
      assert [code[0]] + code[1..] == code;
    }
  }

  lemma {:induction false} BlocksInOrder(pass: Pass, ctx: Context, blocks: seq<Block>)
    requires LowerBlocks(pass, ctx, blocks).Ok?
    ensures var out := LowerBlocks(pass, ctx, blocks).value; InOrder(BlocksCode(blocks), BlocksCode(out.items), out.records, out.obligations)
    decreases |blocks|
  {
    hide LowerInstructions, InOrder;
    if blocks == [] {
      NothingInOrder([]);
    } else {
      var b := blocks[0];
      var first, rest := LowerBlock(pass, ctx, b).value, LowerBlocks(pass, ctx, blocks[1..]).value;
      CodeInOrder(pass, ctx, b.identity, b.instructions);
      BlocksInOrder(pass, ctx, blocks[1..]);
      assert first.items[1..] == [] && BlocksCode(first.items) == first.items[0].instructions;
      InOrderAppend(b.instructions, BlocksCode(first.items), first.records, first.obligations,
                    BlocksCode(blocks[1..]), BlocksCode(rest.items), rest.records, rest.obligations);
      BlocksCodeAppend(first.items, rest.items);
    }
  }

  /** A pass lists its records in the order of the copies in the program that it found, and its obligations in the order
      of the additions in the program that it leaves. */
  lemma {:induction false} PassInOrder(pass: Pass, p: seq<Function>)
    requires LowerFunctions(pass, p).Ok?
    ensures var out := LowerFunctions(pass, p).value; InOrder(ProgramCode(p), ProgramCode(out.items), out.records, out.obligations)
    decreases |p|
  {
    hide LowerBlocks, InOrder, Collect, BlocksCode;
    if p == [] {
      NothingInOrder([]);
    } else {
      var f := p[0];
      var first, rest := LowerFunction(pass, f).value, LowerFunctions(pass, p[1..]).value;
      BlocksInOrder(pass, Collect(f), f.blocks);
      PassInOrder(pass, p[1..]);
      assert first.items[1..] == [] && ProgramCode(first.items) == BlocksCode(first.items[0].blocks);
      InOrderAppend(BlocksCode(f.blocks), ProgramCode(first.items), first.records, first.obligations,
                    ProgramCode(p[1..]), ProgramCode(rest.items), rest.records, rest.obligations);
      ProgramCodeAppend(first.items, rest.items);
    }
  }

  // ----- Names are those of one instruction -----

  ghost predicate DefinedOnce(code: seq<Instruction>) {
    forall m, n :: 0 <= m < n < |code| ==> Disjoint(N.InstructionNames(code[m]), N.InstructionNames(code[n]))
  }

  ghost predicate NamesWithin(code: seq<Instruction>, names: seq<Id>) {
    forall k :: 0 <= k < |code| ==> Within(N.InstructionNames(code[k]), names)
  }

  lemma OnceAppend(a: seq<Instruction>, M: seq<Id>, b: seq<Instruction>, K: seq<Id>)
    requires DefinedOnce(a) && NamesWithin(a, M) && DefinedOnce(b) && NamesWithin(b, K) && Disjoint(M, K)
    ensures DefinedOnce(a + b) && NamesWithin(a + b, M + K)
  {
    hide N.InstructionNames;
    var code := a + b;
    forall m, n | 0 <= m < n < |code| ensures Disjoint(N.InstructionNames(code[m]), N.InstructionNames(code[n])) {
      if n < |a| {
        assert code[m] == a[m] && code[n] == a[n];
      } else if m < |a| {
        assert code[m] == a[m] && code[n] == b[n - |a|];
      } else {
        assert code[m] == b[m - |a|] && code[n] == b[n - |a|];
      }
    }
    forall k | 0 <= k < |code| ensures Within(N.InstructionNames(code[k]), M + K) {
      assert code[k] == if k < |a| then a[k] else b[k - |a|];
    }
  }

  lemma {:induction false} CodeDefinedOnce(code: seq<Instruction>)
    requires Distinct(N.CodeNames(code))
    ensures DefinedOnce(code) && NamesWithin(code, N.CodeNames(code))
    decreases |code|
  {
    hide Distinct, N.InstructionNames;
    if code != [] {
      DistinctAppend(N.InstructionNames(code[0]), N.CodeNames(code[1..]));
      CodeDefinedOnce(code[1..]);
      OnceAppend([code[0]], N.InstructionNames(code[0]), code[1..], N.CodeNames(code[1..]));
      assert [code[0]] + code[1..] == code;
    }
  }

  lemma WithinMore(code: seq<Instruction>, names: seq<Id>, more: seq<Id>)
    requires NamesWithin(code, names)
    ensures NamesWithin(code, more + names)
  {
  }

  lemma {:induction false} BlocksDefinedOnce(blocks: seq<Block>)
    requires Distinct(N.BlocksNames(blocks))
    ensures DefinedOnce(BlocksCode(blocks)) && NamesWithin(BlocksCode(blocks), N.BlocksNames(blocks))
    decreases |blocks|
  {
    hide Distinct, N.CodeNames, DefinedOnce, NamesWithin;
    if blocks == [] {
      NothingDefined();
    } else {
      var b := blocks[0];
      DistinctAppend(N.BlockNames(b), N.BlocksNames(blocks[1..]));
      DistinctAppend(N.ValueNames(b.parameters), N.CodeNames(b.instructions));
      CodeDefinedOnce(b.instructions);
      WithinMore(b.instructions, N.CodeNames(b.instructions), N.ValueNames(b.parameters));
      BlocksDefinedOnce(blocks[1..]);
      OnceAppend(b.instructions, N.BlockNames(b), BlocksCode(blocks[1..]), N.BlocksNames(blocks[1..]));
    }
  }

  lemma NothingDefined()
    ensures DefinedOnce([]) && NamesWithin([], [])
  {
  }

  lemma {:induction false} ProgramDefinedOnce(p: seq<Function>)
    requires Distinct(N.ProgramNames(p))
    ensures DefinedOnce(ProgramCode(p)) && NamesWithin(ProgramCode(p), N.ProgramNames(p))
    decreases |p|
  {
    hide Distinct, N.BlocksNames, BlocksCode, DefinedOnce, NamesWithin;
    if p == [] {
      NothingDefined();
    } else {
      var f := p[0];
      DistinctAppend(N.FunctionNames(f), N.ProgramNames(p[1..]));
      DistinctAppend(N.ValueNames(f.inputs), N.BlocksNames(f.blocks));
      BlocksDefinedOnce(f.blocks);
      WithinMore(BlocksCode(f.blocks), N.BlocksNames(f.blocks), N.ValueNames(f.inputs));
      ProgramDefinedOnce(p[1..]);
      OnceAppend(BlocksCode(f.blocks), N.FunctionNames(f), ProgramCode(p[1..]), N.ProgramNames(p[1..]));
    }
  }

  // ----- All three passes -----

  /** What a record is about has been replaced: the copy's name is none of the names that are left. */
  lemma RecordedAreGone(a: seq<Instruction>, b: seq<Instruction>, records: seq<TransformationRecord>, obligations: seq<ObligationRecord>, names: seq<Id>)
    requires Accounts(a, b, records, obligations) && N.Apart(names) && NamesWithin(b, names)
    ensures forall t :: t in records ==> t.input !in names
  {
    hide ObligationOf, OwedFor;
    forall t | t in records ensures t.input !in names {
      var c :| c in a && c.kind.Copy? && IsRecordOf(t, c, b, obligations);
      var last, more :| last in b && Records(t, c, last, more) && OwedFor(c, more, obligations);
      var k :| 0 <= k < |b| && b[k] == last;
      assert N.InstructionNames(last)[0] == last.identity;
    }
  }

  lemma InputsThen(r: seq<TransformationRecord>, M: seq<Id>, s: seq<TransformationRecord>, K: seq<Id>)
    requires Inputs(r, M) && Inputs(s, K) && forall t :: t in r ==> t.input !in K
    ensures Distinct(InputsOf(r + s))
  {
    assert InputsOf(r + s) == InputsOf(r) + InputsOf(s);
    forall x | x in InputsOf(r) ensures x !in InputsOf(s) {
      var j :| 0 <= j < |r| && InputsOf(r)[j] == x;
      assert r[j] in r;
      forall k | 0 <= k < |s| ensures InputsOf(s)[k] != x {
        assert s[k] in s;
      }
    }
    DistinctAppend(InputsOf(r), InputsOf(s));
  }

  /** What the records of a lowering say of a program and of what it has become. */
  ghost predicate Recorded(p: seq<Function>, q: seq<Function>, records: seq<TransformationRecord>, obligations: seq<ObligationRecord>) {
    && Accounts(ProgramCode(p), ProgramCode(q), records, obligations)
    && Distinct(InputsOf(records))
    && (forall t, i :: t in records && i in ProgramCode(q) ==> i.identity != t.input)
    && DefinedOnce(ProgramCode(q))
  }

  lemma TwoPasses(p: seq<Function>, q: seq<Function>, r: seq<Function>, s: seq<TransformationRecord>, o: seq<ObligationRecord>, pass: Pass)
    requires N.NamedApart(p) && N.NamedApart(q) && LowerFunctions(pass, q).Ok? && r == LowerFunctions(pass, q).value.items
    requires Accounts(ProgramCode(p), ProgramCode(q), s, o) && Distinct(InputsOf(s))
    ensures var out := LowerFunctions(pass, q).value;
            && N.NamedApart(r)
            && Accounts(ProgramCode(p), ProgramCode(r), s + out.records, o + out.obligations) && Distinct(InputsOf(s + out.records))
  {
    hide LowerFunctions, Accounts, N.Apart, Distinct, InputsOf, ProgramCode, NamesWithin, DefinedOnce;
    var out := LowerFunctions(pass, q).value;
    P.ApartIsDistinct(N.ProgramNames(q));
    PassAccounts(pass, q);
    N.PassKeepsNames(pass, q);
    ProgramDefinedOnce(q);
    AccountsThen(ProgramCode(p), ProgramCode(q), s, o, ProgramCode(r), out.records, out.obligations);
    RecordedAreGone(ProgramCode(p), ProgramCode(q), s, o, N.ProgramNames(q));
    InputsThen(s, InputsOf(s), out.records, N.ProgramNames(q)) by {
      InputsAreThose(s);
    }
  }

  lemma InputsAreThose(s: seq<TransformationRecord>)
    requires Distinct(InputsOf(s))
    ensures Inputs(s, InputsOf(s))
  {
    forall t | t in s ensures t.input in InputsOf(s) {
      var k :| 0 <= k < |s| && s[k] == t;
      assert InputsOf(s)[k] == t.input;
    }
  }

  /** After the three passes there is one record for each copy that is gone, and none for any other; it names what
      has taken the copy's place, and no other instruction defines what that one does. */
  lemma LoweringIsRecorded(p: seq<Function>)
    requires N.NamedApart(p) && LowerAll(p).Ok?
    ensures var out := LowerAll(p).value; Recorded(p, out.items, out.records, out.obligations)
  {
    hide LowerFunctions, Accounts, N.Apart, Distinct, InputsOf, ProgramCode, NamesWithin, N.NamedApart;
    var a := LowerFunctions(StaticPass, p).value;
    var b := LowerFunctions(WindowPass, a.items).value;
    var c := LowerFunctions(OffsetPass, b.items).value;
    NothingAccounts(ProgramCode(p));
    NoneDistinct();
    TwoPasses(p, p, a.items, [], [], StaticPass);
    assert [] + a.records == a.records && [] + a.obligations == a.obligations;
    TwoPasses(p, a.items, b.items, a.records, a.obligations, WindowPass);
    TwoPasses(p, b.items, c.items, a.records + b.records, a.obligations + b.obligations, OffsetPass);
    NamesApart(c.items);
    P.ApartIsDistinct(N.ProgramNames(c.items));
    ProgramDefinedOnce(c.items);
    var out := LowerAll(p).value;
    RecordedAreGone(ProgramCode(p), ProgramCode(c.items), out.records, out.obligations, N.ProgramNames(c.items));
    forall i | i in ProgramCode(c.items) ensures i.identity in N.ProgramNames(c.items) {
      HasName(ProgramCode(c.items), N.ProgramNames(c.items), i);
    }
  }

  lemma NamesApart(p: seq<Function>)
    requires N.NamedApart(p)
    ensures N.Apart(N.ProgramNames(p))
  {
  }

  lemma HasName(code: seq<Instruction>, names: seq<Id>, i: Instruction)
    requires NamesWithin(code, names) && i in code
    ensures i.identity in names
  {
    var k :| 0 <= k < |code| && code[k] == i;
    assert N.InstructionNames(i)[0] == i.identity;
  }

  lemma NoneDistinct()
    ensures Distinct(InputsOf([]))
  {
  }

  /** The instruction at this place, and no other, defines the copy's result and takes its place; and the one record
      about the copy is about that instruction. */
  ghost predicate ReplacedAt(c: Instruction, code: seq<Instruction>, records: seq<TransformationRecord>, obligations: seq<ObligationRecord>,
                             at: nat, t: TransformationRecord) {
    && c.kind.Copy? && at < |code| && TakesPlace(c, code[at])
    && (forall n, v :: 0 <= n < |code| && v in code[n].outputs && v.identity == c.outputs[0].identity ==> n == at)
    && t in records && t.input == c.identity && multiset(InputsOf(records))[c.identity] == 1
    && exists more :: Records(t, c, code[at], more) && OwedFor(c, more, obligations)
  }

  /** For a copy that is gone: exactly one instruction of the lowered program defines its output, and takes its
      place, with its type, block, provenance and obligations; and exactly one record is about it, and is about that
      instruction. */
  lemma ReplacedAndRecorded(p: seq<Function>, c: Instruction) returns (at: nat, t: TransformationRecord)
    requires N.NamedApart(p) && LowerAll(p).Ok? && c in ProgramCode(p) && c !in ProgramCode(LowerAll(p).value.items)
    ensures var out := LowerAll(p).value; ReplacedAt(c, ProgramCode(out.items), out.records, out.obligations, at, t)
  {
    LoweringIsRecorded(p);
    hide LowerAll, ProgramCode, N.NamedApart, InputsOf, HasRecord, AboutCopy, RequiredFor, DefinedOnce, ReplacedAt;
    var out := LowerAll(p).value;
    at, t := FindReplacement(c, ProgramCode(out.items), out.records, out.obligations);
  }

  lemma FindReplacement(c: Instruction, code: seq<Instruction>, records: seq<TransformationRecord>, obligations: seq<ObligationRecord>)
    returns (at: nat, t: TransformationRecord)
    requires HasRecord(c, code, records, obligations) && Distinct(InputsOf(records)) && DefinedOnce(code)
    ensures ReplacedAt(c, code, records, obligations, at, t)
  {
    hide InputsOf, DefinedOnce, OwedFor;
    t :| t in records && IsRecordOf(t, c, code, obligations);
    var last, more :| last in code && Records(t, c, last, more) && OwedFor(c, more, obligations);
    at :| 0 <= at < |code| && code[at] == last;
    RecordTakesPlace(t, c, last, more);
    hide Records;
    OneDefines(code, at, c.outputs[0].identity);
    OneRecord(records, t);
  }

  lemma RecordTakesPlace(t: TransformationRecord, c: Instruction, last: Instruction, more: seq<Id>)
    requires Records(t, c, last, more)
    ensures TakesPlace(c, last) && t.input == c.identity
    ensures |c.outputs| == 1 && |last.outputs| == 1 && last.outputs[0].identity == c.outputs[0].identity
  {
  }

  lemma OneDefines(code: seq<Instruction>, at: nat, x: Id)
    requires DefinedOnce(code) && at < |code| && |code[at].outputs| == 1 && code[at].outputs[0].identity == x
    ensures forall n, v :: 0 <= n < |code| && v in code[n].outputs && v.identity == x ==> n == at
  {
    OutputIsName(code[at], code[at].outputs[0]);
    forall n, v | 0 <= n < |code| && v in code[n].outputs && v.identity == x ensures n == at {
      OutputIsName(code[n], v);
    }
  }

  lemma OutputIsName(i: Instruction, v: SsaValue)
    requires v in i.outputs
    ensures v.identity in N.InstructionNames(i)
  {
    var k :| 0 <= k < |i.outputs| && i.outputs[k] == v;
    assert N.InstructionNames(i)[k + 1] == v.identity;
  }

  lemma OneRecord(records: seq<TransformationRecord>, t: TransformationRecord)
    requires Distinct(InputsOf(records)) && t in records
    ensures multiset(InputsOf(records))[t.input] == 1
  {
    var inputs := InputsOf(records);
    var k :| 0 <= k < |records| && records[k] == t;
    assert inputs == inputs[..k] + [inputs[k]] + inputs[k + 1..];
    assert inputs[k] !in inputs[..k] && inputs[k] !in inputs[k + 1..];
  }
}
