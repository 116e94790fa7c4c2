/** Readers, publishers and maintainers of one cache directory, interleaved in any way, each able to die
    at any moment. The lock is shared for reading and exclusive for pruning and publishing. */
module CacheLeases {
  import opened Prelude
  import opened CacheRetention

  type Pid = int

  /** What a file holds, and what its writer set out to write. */
  datatype Stored = Stored(content: string, intended: string)

  datatype Activity =
    | Idle
    | Leased
    | Reading(name: string, got: string)
    | Done(name: string, got: string)
    | Writing(temporary: string)
    | Written(temporary: string)
    | Publishing(pending: Option<string>)

  datatype State = State(files: map<string, Stored>, shared: set<Pid>, exclusive: Option<Pid>, doing: map<Pid, Activity>)

  function Doing(s: State, p: Pid): Activity {
    if p in s.doing then s.doing[p] else Idle
  }

  datatype Action =
    | Lease(p: Pid)
    | Open(p: Pid, name: string)
    | Read(p: Pid)
    | Close(p: Pid)
    | Release(p: Pid)
    | Create(p: Pid, temporary: string, intended: string)
    | Write(p: Pid)
    | Finish(p: Pid)
    | Abandon(p: Pid)
    | Lock(p: Pid)
    | Evict(p: Pid, name: string)
    | Reap(p: Pid, temporary: string)
    | Rename(p: Pid, destination: string)
    | Discard(p: Pid)
    | Unlock(p: Pid)
    | Crash(p: Pid)

  predicate HoldsLease(activity: Activity) {
    activity.Leased? || activity.Reading? || activity.Done?
  }

  /** The temporary file that an activity owns. */
  function Owned(activity: Activity): Option<string> {
    match activity
    case Writing(t) => Some(t)
    case Written(t) => Some(t)
    case Publishing(t) => t
    case _ => None
  }

  ghost predicate InUse(s: State, temporary: string) {
    exists p :: Owned(Doing(s, p)) == Some(temporary)
  }

  function Become(s: State, p: Pid, activity: Activity): State {
    s.(doing := s.doing[p := activity])
  }

  /** What a process may do next. */
  ghost predicate Enabled(s: State, a: Action) {
    var now := Doing(s, a.p);
    match a
    case Lease(_) => now.Idle? && s.exclusive.None?
    case Open(_, name) => now.Leased? && Managed(name) && name in s.files
    case Read(_) => now.Reading? && now.name in s.files && |now.got| < |s.files[now.name].content|
    case Close(_) => now.Reading? && now.name in s.files && |now.got| >= |s.files[now.name].content|
    case Release(_) => HoldsLease(now)
    case Create(_, temporary, _) => now.Idle? && !Managed(temporary) && temporary !in s.files
    case Write(_) => now.Writing? && now.temporary in s.files && |s.files[now.temporary].content| < |s.files[now.temporary].intended|
    case Finish(_) => now.Writing? && now.temporary in s.files && |s.files[now.temporary].content| == |s.files[now.temporary].intended|
    case Abandon(_) => now.Writing? || now.Written?
    case Lock(_) => (now.Idle? || now.Written?) && s.exclusive.None? && s.shared == {}
    case Evict(_, name) => now.Publishing? && Managed(name)
    case Reap(_, temporary) => now.Publishing? && !Managed(temporary) && !InUse(s, temporary)
    case Rename(_, destination) => now.Publishing? && now.pending.Some? && now.pending.value in s.files && Managed(destination)
    case Discard(_) => now.Publishing? && now.pending.Some?
    case Unlock(_) => now.Publishing?
    case Crash(_) => true
  }

  ghost function After(s: State, a: Action): State
    requires Enabled(s, a)
  {
    var now := Doing(s, a.p);
    match a
    case Lease(p) => Become(s, p, Leased).(shared := s.shared + {p})
    case Open(p, name) => Become(s, p, Reading(name, ""))
    case Read(p) => Become(s, p, Reading(now.name, now.got + [s.files[now.name].content[|now.got|]]))
    case Close(p) => Become(s, p, Done(now.name, now.got))
    case Release(p) => Become(s, p, Idle).(shared := s.shared - {p})
    case Create(p, temporary, intended) => Become(s, p, Writing(temporary)).(files := s.files[temporary := Stored("", intended)])
    case Write(_) =>
      var file := s.files[now.temporary];
      s.(files := s.files[now.temporary := file.(content := file.content + [file.intended[|file.content|]])])
    case Finish(p) => Become(s, p, Written(now.temporary))
    case Abandon(p) => Become(s, p, Idle).(files := s.files - {now.temporary})
    case Lock(p) => Become(s, p, Publishing(Owned(now))).(exclusive := Some(p))
    case Evict(_, name) => s.(files := s.files - {name})
    case Reap(_, temporary) => s.(files := s.files - {temporary})
    case Rename(p, destination) =>
      Become(s, p, Publishing(None)).(files := (s.files - {now.pending.value})[destination := s.files[now.pending.value]])
    case Discard(p) => Become(s, p, Publishing(None)).(files := s.files - {now.pending.value})
    case Unlock(p) => Become(s, p, if now.pending.Some? then Written(now.pending.value) else Idle).(exclusive := None)
    case Crash(p) => Become(s, p, Idle).(shared := s.shared - {p}, exclusive := if s.exclusive == Some(p) then None else s.exclusive)
  }

  ghost predicate IsPrefix(a: string, b: string) {
    |a| <= |b| && a == b[..|a|]
  }

  /** Readers and writers exclude each other, and the lock is held by who thinks so. */
  ghost predicate LockHeld(s: State) {
    && (s.exclusive.Some? ==> s.shared == {})
    && (forall p :: HoldsLease(Doing(s, p)) <==> p in s.shared)
    && (forall p :: Doing(s, p).Publishing? <==> s.exclusive == Some(p))
  }

  /** A visible entry is completely written. */
  ghost predicate VisibleComplete(s: State) {
    forall name :: name in s.files && Managed(name) ==> s.files[name].content == s.files[name].intended
  }

  ghost predicate ReaderAt(s: State, p: Pid) {
    var now := Doing(s, p);
    && (now.Reading? ==> Managed(now.name) && now.name in s.files && IsPrefix(now.got, s.files[now.name].content))
    && (now.Done? ==> Managed(now.name) && now.name in s.files && now.got == s.files[now.name].content)
  }

  ghost predicate WriterAt(s: State, p: Pid) {
    var owned := Owned(Doing(s, p));
    owned.Some? ==>
      && owned.value in s.files && !Managed(owned.value)
      && IsPrefix(s.files[owned.value].content, s.files[owned.value].intended)
      && (!Doing(s, p).Writing? ==> s.files[owned.value].content == s.files[owned.value].intended)
  }

  /** No two processes write the same file. */
  ghost predicate OwnersApart(s: State) {
    forall p, q :: p != q && Owned(Doing(s, p)).Some? ==> Owned(Doing(s, p)) != Owned(Doing(s, q))
  }

  ghost predicate Invariant(s: State) {
    && LockHeld(s) && VisibleComplete(s) && OwnersApart(s)
    && (forall p :: ReaderAt(s, p))
    && (forall p :: WriterAt(s, p))
  }

  lemma LockStays(s: State, a: Action)
    requires Invariant(s) && Enabled(s, a)
    ensures LockHeld(After(s, a))
  {
    hide Managed, ReaderAt, WriterAt, OwnersApart, VisibleComplete;
  }

  lemma VisibleStays(s: State, a: Action)
    requires Invariant(s) && Enabled(s, a)
    ensures VisibleComplete(After(s, a))
  {
    hide Managed, ReaderAt, OwnersApart, LockHeld;
    assert WriterAt(s, a.p);
  }

  lemma OwnersStay(s: State, a: Action)
    requires Invariant(s) && Enabled(s, a)
    ensures OwnersApart(After(s, a))
  {
    hide Managed, ReaderAt, LockHeld, VisibleComplete;
    var t := After(s, a);
    forall p, q | p != q && Owned(Doing(t, p)).Some? ensures Owned(Doing(t, p)) != Owned(Doing(t, q)) {
      assert WriterAt(s, p) && WriterAt(s, q);
    }
  }

  /** Managed files change only under the exclusive lock. */
  lemma VisibleFrozen(s: State, a: Action, name: string)
    requires Invariant(s) && Enabled(s, a) && Managed(name) && s.shared != {}
    ensures name in After(s, a).files <==> name in s.files
    ensures name in s.files ==> After(s, a).files[name] == s.files[name]
  {
    hide Managed, ReaderAt, OwnersApart, VisibleComplete;
    assert WriterAt(s, a.p);
  }

  lemma ReadersStay(s: State, a: Action, p: Pid)
    requires Invariant(s) && Enabled(s, a)
    ensures ReaderAt(After(s, a), p)
  {
    hide Managed, WriterAt, OwnersApart, VisibleComplete;
    assert ReaderAt(s, p);
    var now, next := Doing(s, p), Doing(After(s, a), p);
    if HoldsLease(now) && (now.Reading? || now.Done?) {
      assert p in s.shared;
      VisibleFrozen(s, a, now.name);
    }
  }

  lemma WritersStay(s: State, a: Action, p: Pid)
    requires Invariant(s) && Enabled(s, a)
    ensures WriterAt(After(s, a), p)
  {
    hide Managed, ReaderAt, VisibleComplete, LockHeld;
    assert WriterAt(s, p) && WriterAt(s, a.p);
  }

  /** Every step keeps the invariant. */
  lemma StepKeepsInvariant(s: State, a: Action)
    requires Invariant(s) && Enabled(s, a)
    ensures Invariant(After(s, a))
  {
    hide Enabled, After, LockHeld, VisibleComplete, OwnersApart, ReaderAt, WriterAt;
    LockStays(s, a);
    VisibleStays(s, a);
    OwnersStay(s, a);
    forall p ensures ReaderAt(After(s, a), p) && WriterAt(After(s, a), p) {
      ReadersStay(s, a, p);
      WritersStay(s, a, p);
    }
  }

  /** A directory no process is at work in: whatever is visible there is complete. */
  ghost predicate Initial(s: State) {
    s.shared == {} && s.exclusive.None? && s.doing == map[] && VisibleComplete(s)
  }

  /** A run: states, each reached from the one before by some action. */
  ghost predicate Run(states: seq<State>) {
    && states != [] && Initial(states[0])
    && forall k :: 0 <= k < |states| - 1 ==> Next(states, k)
  }

  ghost predicate Next(states: seq<State>, k: int) {
    0 <= k < |states| - 1 && exists a :: Enabled(states[k], a) && states[k + 1] == After(states[k], a)
  }

  lemma {:induction false} RunKeepsInvariant(states: seq<State>, k: nat)
    requires Run(states) && k < |states|
    ensures Invariant(states[k])
    decreases k
  {
    if k > 0 {
      hide Enabled, After, Initial, Invariant;
      RunKeepsInvariant(states, k - 1);
      assert Next(states, k - 1);
      var a :| Enabled(states[k - 1], a) && states[k] == After(states[k - 1], a);
      StepKeepsInvariant(states[k - 1], a);
    }
  }

  ghost predicate SameVisible(s: State, t: State) {
    forall name :: Managed(name) ==> (name in s.files <==> name in t.files) && (name in s.files ==> t.files[name] == s.files[name])
  }

  /** While any lease is held, no visible entry is removed, replaced or added. */
  lemma {:induction false} LeaseFreezes(states: seq<State>, first: nat, last: nat)
    requires Run(states) && first <= last < |states|
    requires forall k :: first <= k < last ==> states[k].shared != {}
    ensures SameVisible(states[first], states[last])
    decreases last
  {
    if first < last {
      hide Enabled, After, Initial, Invariant, Managed;
      LeaseFreezes(states, first, last - 1);
      RunKeepsInvariant(states, last - 1);
      assert Next(states, last - 1);
      var a :| Enabled(states[last - 1], a) && states[last] == After(states[last - 1], a);
      forall name | Managed(name)
        ensures (name in states[first].files <==> name in states[last].files) && (name in states[first].files ==> states[last].files[name] == states[first].files[name])
      {
        VisibleFrozen(states[last - 1], a, name);
      }
    }
  }

  /** A leased read returns one complete entry: what its writer set out to write, as it was when the
      lease was taken and as it still is when the read ends. */
  lemma LeasedReadIsWhole(states: seq<State>, first: nat, last: nat, p: Pid)
    requires Run(states) && first <= last < |states|
    requires forall k :: first <= k <= last ==> p in states[k].shared
    requires Doing(states[last], p).Done?
    ensures var read := Doing(states[last], p);
            && read.name in states[first].files && read.name in states[last].files
            && states[first].files[read.name] == states[last].files[read.name]
            && read.got == states[first].files[read.name].intended
  {
    hide Run, Managed, LockHeld, OwnersApart, WriterAt;
    RunKeepsInvariant(states, last);
    LeaseFreezes(states, first, last);
    assert ReaderAt(states[last], p);
  }
}
