/**
 Who may use the one USB pipe: the I/O arbitration of `DatastoreCoordinator` in motu_proxy/datastore.py.

 The shared fields are touched only under the condition's lock, so a run is an interleaving of whole
 lock-hold segments.  Each segment is a function on `Shared`; a `System` adds what the threads know.
 */
module Arbitration {
  import opened Wrappers

  type ReadId = nat
  type ThreadId = nat

  datatype Owner = Foreground | Poller

  datatype Shared = Shared(
    busy: bool, owner: Option<Owner>, waiters: int, active: Option<ReadId>, cancelRequested: bool, closed: bool)

  const IDLE := Shared(false, None, 0, None, false, false)

  // ----- The segments

  /** `_request_active_poll_cancel_locked`: the read to cancel is handed out once. */
  function RequestCancel(s: Shared): (r: (Shared, Option<ReadId>)) {
    if s.active.None? || s.cancelRequested then (s, None) else (s.(cancelRequested := true), s.active)
  }

  datatype Verdict = Acquired | GaveUp | KeepsWaiting

  /** One pass through the loop of `_acquire_foreground_io`, and what it cancelled. */
  datatype Pass = Pass(shared: Shared, verdict: Verdict, armed: bool, cancelled: Option<ReadId>)

  /**
   `armed` is a budget deadline that has been set, `expired` that its time is up.  Only a thread that has
   itself cancelled a read has a deadline, and it looks at it only while the poller owns the pipe.
   */
  function ForegroundPass(s: Shared, armed: bool, expired: bool): (p: Pass) {
    if !s.busy then
      Pass(s.(busy := true, owner := Some(Foreground), waiters := s.waiters - 1), Acquired, armed, None)
    else if s.owner == Some(Poller) then
      var (s', read) := RequestCancel(s);
      if (armed || read.Some?) && expired then Pass(s'.(waiters := s'.waiters - 1), GaveUp, true, read)
      else Pass(s', KeepsWaiting, armed || read.Some?, read)
    else Pass(s, KeepsWaiting, armed, None)
  }

  function Register(s: Shared): (s': Shared) { s.(waiters := s.waiters + 1) }

  datatype PollerVerdict = PollerAcquired | PollerTurnedAway | PollerWaits

  /** One pass through the loop of `_acquire_poller_io`. */
  function PollerPass(s: Shared): (r: (Shared, PollerVerdict)) {
    if s.closed then (s, PollerTurnedAway)
    else if s.busy || s.waiters > 0 then (s, PollerWaits)
    else (s.(busy := true, owner := Some(Poller)), PollerAcquired)
  }

  /** `_release_io` */
  function Release(s: Shared): (s': Shared) {
    s.(busy := false, owner := None, active := None, cancelRequested := false)
  }

  /** `_set_active_poll_read`, with the read its caller must then cancel. */
  function SetActive(s: Shared, read: Option<ReadId>): (r: (Shared, Option<ReadId>)) {
    var s' := s.(active := read, cancelRequested := false);
    if read.Some? && s.waiters > 0 then RequestCancel(s') else (s', None)
  }

  /** The locked part of `close`, with the read its caller must then cancel. */
  function Close(s: Shared): (r: (Shared, Option<ReadId>)) {
    RequestCancel(s.(closed := true))
  }

  // ----- Threads

  datatype ForegroundPc = Waiting(armed: bool) | Holding

  /** The poller outside its tenure, or in it and possibly about to cancel its own read. */
  datatype PollerPc = Outside | Inside(toCancel: Option<ReadId>)

  /**
   `closing` are the reads that some thread in `close` still has to cancel, `cancelled` the calls of
   `cancel` so far, `handed` all references handed out, `installed` all reads ever installed.
   */
  datatype System = System(
    shared: Shared, foreground: map<ThreadId, ForegroundPc>, poller: PollerPc,
    closing: multiset<ReadId>, cancelled: multiset<ReadId>, handed: multiset<ReadId>, installed: set<ReadId>)

  const START := System(IDLE, map[], Outside, multiset{}, multiset{}, multiset{}, {})

  datatype Step =
    | Enter(thread: ThreadId, expired: bool)
    | Wake(thread: ThreadId, expired: bool)
    | LeaveForeground(thread: ThreadId)
    | PollerEnter
    | Install(read: ReadId)
    | Uninstall
    | PollerCancel
    | PollerLeave
    | CloseCall
    | CloserCancel(read: ReadId)

  /** One more reference to a read, if there is one. */
  function Add(m: multiset<ReadId>, read: Option<ReadId>): (m': multiset<ReadId>)
    ensures forall r :: m'[r] == m[r] + One(read, r)
  {
    if read.Some? then m[read.value := m[read.value] + 1] else m
  }

  function One(read: Option<ReadId>, r: ReadId): (n: nat) { if read == Some(r) then 1 else 0 }

  predicate Enabled(s: System, step: Step) {
    match step
    case Enter(t, _) => t !in s.foreground
    case Wake(t, _) => t in s.foreground && s.foreground[t].Waiting?
    case LeaveForeground(t) => t in s.foreground && s.foreground[t].Holding?
    case PollerEnter => s.poller == Outside && PollerPass(s.shared).1 == PollerAcquired
    case Install(read) => s.poller == Inside(None) && read !in s.installed
    case Uninstall => s.poller == Inside(None)
    case PollerCancel => s.poller.Inside? && s.poller.toCancel.Some?
    case PollerLeave => s.poller == Inside(None)
    case CloseCall => true
    case CloserCancel(read) => read in s.closing
  }

  function Move(f: map<ThreadId, ForegroundPc>, t: ThreadId, v: Verdict, armed: bool): (f': map<ThreadId, ForegroundPc>) {
    match v
    case Acquired => f[t := Holding]
    case GaveUp => f - {t}
    case KeepsWaiting => f[t := Waiting(armed)]
  }

  function AfterPass(s: System, t: ThreadId, p: Pass): (s': System) {
    s.(shared := p.shared,
       foreground := Move(s.foreground, t, p.verdict, p.armed),
       cancelled := Add(s.cancelled, p.cancelled),
       handed := Add(s.handed, p.cancelled))
  }

  function Apply(s: System, step: Step): (s': System)
    requires Enabled(s, step)
  {
    match step
    case Enter(t, expired) => AfterPass(s, t, ForegroundPass(Register(s.shared), false, expired))
    case Wake(t, expired) => AfterPass(s, t, ForegroundPass(s.shared, s.foreground[t].armed, expired))
    case LeaveForeground(t) => s.(shared := Release(s.shared), foreground := s.foreground - {t})
    case PollerEnter => s.(shared := PollerPass(s.shared).0, poller := Inside(None))
    case Install(read) =>
      var (shared, toCancel) := SetActive(s.shared, Some(read));
      s.(shared := shared, poller := Inside(toCancel), handed := Add(s.handed, toCancel), installed := s.installed + {read})
    case Uninstall => s.(shared := SetActive(s.shared, None).0)
    case PollerCancel => s.(poller := Inside(None), cancelled := Add(s.cancelled, s.poller.toCancel))
    case PollerLeave => s.(shared := Release(s.shared), poller := Outside)
    case CloseCall =>
      var (shared, toCancel) := Close(s.shared);
      s.(shared := shared, closing := Add(s.closing, toCancel), handed := Add(s.handed, toCancel))
    case CloserCancel(read) =>
      s.(closing := s.closing[read := s.closing[read] - 1], cancelled := Add(s.cancelled, Some(read)))
  }

  // ----- What every reachable state satisfies

  function Waiters(foreground: map<ThreadId, ForegroundPc>): (w: set<ThreadId>) {
    set t | t in foreground && foreground[t].Waiting?
  }

  function Holders(foreground: map<ThreadId, ForegroundPc>): (h: set<ThreadId>) {
    set t | t in foreground && foreground[t].Holding?
  }

  /** The pipe is exclusive, its owner is who holds it, and every waiting thread is counted. */
  ghost predicate Exclusive(s: System) {
    var holders := Holders(s.foreground);
    && |holders| + (if s.poller.Inside? then 1 else 0) == (if s.shared.busy then 1 else 0)
    && (s.shared.owner == Some(Poller) <==> s.poller.Inside?)
    && (s.shared.owner == Some(Foreground) <==> holders != {})
    && s.shared.waiters == |Waiters(s.foreground)|
  }

  /** An installed read belongs to the poller's tenure, and nobody waits behind it unless its cancel was requested. */
  ghost predicate Preempted(s: System) {
    && (s.shared.active.Some? ==> s.poller.Inside?)
    && (s.shared.active.Some? && s.shared.waiters > 0 ==> s.shared.cancelRequested)
    && (s.shared.cancelRequested ==> s.shared.active.Some?)
  }

  /** How many threads hold a reference to a read that they are still to cancel. */
  function Outstanding(s: System, r: ReadId): (n: nat) {
    s.closing[r] + (if s.poller == Inside(Some(r)) then 1 else 0)
  }

  /** Each read is handed out at most once, and what was handed out was cancelled or is still held by one thread. */
  ghost predicate HandedOnce(s: System) {
    && (forall r :: s.handed[r] == s.cancelled[r] + Outstanding(s, r))
    && (forall r :: s.handed[r] <= 1)
    && (forall r :: s.handed[r] > 0 ==> r in s.installed)
    && (s.shared.active.Some? ==> s.shared.active.value in s.installed)
    && (s.shared.active.Some? ==> (s.shared.cancelRequested <==> s.handed[s.shared.active.value] > 0))
  }

  ghost predicate Inv(s: System) { Exclusive(s) && Preempted(s) && HandedOnce(s) }

  lemma StartInv()
    ensures Inv(START)
  {
    assert Waiters(START.foreground) == {} && Holders(START.foreground) == {};
  }

  lemma SetsAfterPass(f: map<ThreadId, ForegroundPc>, t: ThreadId, v: Verdict, armed: bool)
    requires t in f ==> f[t].Waiting?
    ensures Waiters(Move(f, t, v, armed)) == if v == KeepsWaiting then Waiters(f) + {t} else Waiters(f) - {t}
    ensures Holders(Move(f, t, v, armed)) == if v == Acquired then Holders(f) + {t} else Holders(f)
    ensures t !in Holders(f)
  {
    match v
    case Acquired =>
    case GaveUp =>
    case KeepsWaiting =>
  }

  lemma ThreadsAfterPass(f: map<ThreadId, ForegroundPc>, t: ThreadId, v: Verdict, armed: bool)
    requires t in f ==> f[t].Waiting?
    ensures |Waiters(Move(f, t, v, armed))| == |Waiters(f) + {t}| - (if v == KeepsWaiting then 0 else 1)
    ensures |Holders(Move(f, t, v, armed))| == |Holders(f)| + (if v == Acquired then 1 else 0)
    ensures Holders(Move(f, t, v, armed)) != {} <==> Holders(f) != {} || v == Acquired
  {
    SetsAfterPass(f, t, v, armed);
    hide Waiters, Holders, Move;
    var w := Waiters(f);
    assert w - {t} == (w + {t}) - {t};
  }

  lemma PassKeepsExclusive(s: System, t: ThreadId, entry: Shared, armed: bool, expired: bool)
    requires Exclusive(s) && (t in s.foreground ==> s.foreground[t].Waiting?)
    requires entry == s.shared.(waiters := entry.waiters) && entry.waiters == |Waiters(s.foreground) + {t}|
    ensures Exclusive(AfterPass(s, t, ForegroundPass(entry, armed, expired)))
  {
    var p := ForegroundPass(entry, armed, expired);
    hide Waiters, Holders, Add;
    ThreadsAfterPass(s.foreground, t, p.verdict, p.armed);
  }

  lemma LeaveKeepsExclusive(s: System, t: ThreadId)
    requires Exclusive(s) && Enabled(s, LeaveForeground(t))
    ensures Exclusive(Apply(s, LeaveForeground(t)))
  {
    var f := s.foreground - {t};
    assert Waiters(f) == Waiters(s.foreground);
    assert Holders(s.foreground) == Holders(f) + {t};
    hide Waiters, Holders;
  }

  lemma StillCounted(foreground: map<ThreadId, ForegroundPc>, t: ThreadId)
    requires t in foreground && foreground[t].Waiting?
    ensures Waiters(foreground) + {t} == Waiters(foreground)
  {
  }

  lemma NewlyCounted(foreground: map<ThreadId, ForegroundPc>, t: ThreadId)
    requires t !in foreground
    ensures |Waiters(foreground) + {t}| == |Waiters(foreground)| + 1
  {
  }

  lemma ExclusiveKept(s: System, step: Step)
    requires Exclusive(s) && Enabled(s, step)
    ensures Exclusive(Apply(s, step))
  {
    hide ForegroundPass, AfterPass, Waiters, Holders, Add;
    match step
    case Enter(t, expired) =>
      NewlyCounted(s.foreground, t);
      PassKeepsExclusive(s, t, Register(s.shared), false, expired);
    case Wake(t, expired) =>
      StillCounted(s.foreground, t);
      PassKeepsExclusive(s, t, s.shared, s.foreground[t].armed, expired);
    case LeaveForeground(t) => LeaveKeepsExclusive(s, t);
    case _ =>
  }

  lemma PreemptedKept(s: System, step: Step)
    requires Exclusive(s) && Preempted(s) && Enabled(s, step)
    ensures Preempted(Apply(s, step))
  {
    if step.LeaveForeground? { assert step.thread in Holders(s.foreground); }
  }

  /** A read that is handed out has not been handed out before. */
  lemma HandingOut(s: System, s': System, read: Option<ReadId>)
    requires HandedOnce(s)
    requires read == RequestCancel(s.shared).1 && s'.shared.cancelRequested == RequestCancel(s.shared).0.cancelRequested
    requires forall r :: s'.handed[r] == s.handed[r] + One(read, r)
    requires forall r :: s'.cancelled[r] + Outstanding(s', r) == s.cancelled[r] + Outstanding(s, r) + One(read, r)
    requires s'.installed == s.installed && s'.shared.active == s.shared.active
    ensures HandedOnce(s')
  {
  }

  lemma NothingHanded(s: System, s': System)
    requires HandedOnce(s)
    requires s'.handed == s.handed && s'.installed == s.installed
    requires forall r :: s'.cancelled[r] + Outstanding(s', r) == s.cancelled[r] + Outstanding(s, r)
    requires s'.shared.active.None?
             || (s'.shared.active == s.shared.active && s'.shared.cancelRequested == s.shared.cancelRequested)
    ensures HandedOnce(s')
  {
  }

  lemma InstallKept(s: System, read: ReadId)
    requires HandedOnce(s) && Enabled(s, Install(read))
    ensures HandedOnce(Apply(s, Install(read)))
  {
    hide Add;
    assert s.handed[read] == 0;
  }

  lemma PassHandsOnce(s: System, t: ThreadId, entry: Shared, armed: bool, expired: bool)
    requires HandedOnce(s) && entry == s.shared.(waiters := entry.waiters)
    requires s.shared.active.Some? ==> s.shared.owner == Some(Poller)
    ensures HandedOnce(AfterPass(s, t, ForegroundPass(entry, armed, expired)))
  {
    hide HandedOnce, Add;
    var p := ForegroundPass(entry, armed, expired);
    var s' := AfterPass(s, t, p);
    if s.shared.busy && s.shared.owner == Some(Poller) {
      HandingOut(s, s', p.cancelled);
    } else {
      NothingHanded(s, s');
    }
  }

  lemma HandedOnceKept(s: System, step: Step)
    requires Inv(s) && Enabled(s, step)
    ensures HandedOnce(Apply(s, step))
  {
    hide HandedOnce, ForegroundPass, AfterPass, Add, Waiters, Holders;
    var s' := Apply(s, step);
    match step
    case Enter(t, expired) => PassHandsOnce(s, t, Register(s.shared), false, expired);
    case Wake(t, expired) => PassHandsOnce(s, t, s.shared, s.foreground[t].armed, expired);
    case CloseCall => HandingOut(s, s', Close(s.shared).1);
    case Install(read) => InstallKept(s, read);
    case _ => NothingHanded(s, s');
  }

  lemma InvKept(s: System, step: Step)
    requires Inv(s) && Enabled(s, step)
    ensures Inv(Apply(s, step))
  {
    hide Exclusive, Preempted, HandedOnce;
    ExclusiveKept(s, step);
    PreemptedKept(s, step);
    HandedOnceKept(s, step);
  }

  // ----- Runs

  /** The states of a run, and the steps between them. */
  ghost predicate IsRun(run: seq<System>, steps: seq<Step>) {
    && |run| == |steps| + 1 && run[0] == START
    && forall n :: 0 <= n < |steps| ==> Enabled(run[n], steps[n]) && run[n + 1] == Apply(run[n], steps[n])
  }

  /** Exclusive use, no missed preemption, and each cancel exactly once, in every reachable state. */
  lemma {:induction false} EveryRun(run: seq<System>, steps: seq<Step>, n: nat)
    requires IsRun(run, steps) && n < |run|
    ensures Inv(run[n])
  {
    if n == 0 {
      StartInv();
    } else {
      EveryRun(run, steps, n - 1);
      InvKept(run[n - 1], steps[n - 1]);
    }
  }

  /** This thread has set a deadline before. */
  predicate HadDeadline(s: System, t: ThreadId) { t in s.foreground && s.foreground[t].Waiting? && s.foreground[t].armed }

  /** A poll read is in the way, and nobody has cancelled it yet. */
  predicate ReadInTheWay(s: System) { s.poller.Inside? && s.shared.active.Some? && !s.shared.cancelRequested }

  ghost predicate PassEnds(s: System, s': System, t: ThreadId, expired: bool) {
    var free, deadline := Holders(s.foreground) == {} && s.poller == Outside, HadDeadline(s, t) || ReadInTheWay(s);
    && (t in Holders(s'.foreground) <==> free)
    && (t !in s'.foreground <==> s.poller.Inside? && expired && deadline)
    && (t in Waiters(s'.foreground) ==> (s'.foreground[t].armed <==> deadline))
    && (ReadInTheWay(s) ==> s'.cancelled[s.shared.active.value] == s.cancelled[s.shared.active.value] + 1)
  }

  lemma OnePassEnds(s: System, t: ThreadId, entry: Shared, expired: bool)
    requires Exclusive(s) && Preempted(s) && (t in s.foreground ==> s.foreground[t].Waiting?)
    requires entry == s.shared.(waiters := entry.waiters)
    ensures PassEnds(s, AfterPass(s, t, ForegroundPass(entry, HadDeadline(s, t), expired)), t, expired)
  {
    assert s.shared.busy <==> Holders(s.foreground) != {} || s.poller.Inside?;
    var f, p := s.foreground, ForegroundPass(entry, HadDeadline(s, t), expired);
    assert t in Holders(Move(f, t, p.verdict, p.armed)) <==> p.verdict == Acquired;
    assert t in Waiters(Move(f, t, p.verdict, p.armed)) <==> p.verdict == KeepsWaiting;
    hide Holders, Waiters;
  }

  /**
   What a pass through `_acquire_foreground_io` comes to, exactly, in every run: the thread has the pipe if and
   only if nobody had it; it gives up if and only if the poller had it, the budget is used up, and the thread
   has a deadline, from before or because it cancels the read now; and otherwise it waits, with a deadline in
   just these cases.  Without a budget used up no thread gives up.
   */
  lemma PassEndsExactly(run: seq<System>, steps: seq<Step>, n: nat)
    requires IsRun(run, steps) && n < |steps| && (steps[n].Enter? || steps[n].Wake?)
    ensures PassEnds(run[n], run[n + 1], steps[n].thread, steps[n].expired)
    ensures !steps[n].expired ==> steps[n].thread in run[n + 1].foreground
  {
    var s, step := run[n], steps[n];
    EveryRun(run, steps, n);
    assert Enabled(s, step) && run[n + 1] == Apply(s, step);
    hide Exclusive, Preempted, HandedOnce, ForegroundPass, AfterPass;
    OnePassEnds(s, step.thread, if step.Enter? then Register(s.shared) else s.shared, step.expired);
  }

  /**
   Priority: while a thread waits between registering and acquiring (or giving up), the poller begins no
   tenure; if it is inside at the end, it has been inside all along.
   */
  lemma {:induction false} ForegroundGoesFirst(run: seq<System>, steps: seq<Step>, i: nat, j: nat, t: ThreadId)
    requires IsRun(run, steps) && i <= j < |run|
    requires forall n :: i <= n <= j ==> t in Waiters(run[n].foreground)
    ensures forall n :: i <= n < j ==> steps[n] != PollerEnter
    ensures run[j].poller.Inside? ==> run[i].poller.Inside?
    decreases j
  {
    if i < j {
      ForegroundGoesFirst(run, steps, i, j - 1, t);
      EveryRun(run, steps, j - 1);
      hide Preempted, HandedOnce, Waiters, Holders;
      assert t in Waiters(run[j - 1].foreground);
      assert steps[j - 1] != PollerEnter;
    }
  }

  /**
   A foreground thread that waits behind an installed read is not waiting for nothing: that read has been
   cancelled, or exactly one thread still holds the reference and its next step is to cancel it.
   */
  lemma WaiterIsServed(run: seq<System>, steps: seq<Step>, n: nat, t: ThreadId)
    requires IsRun(run, steps) && n < |run|
    requires t in Waiters(run[n].foreground) && run[n].shared.active.Some?
    ensures var s, read := run[n], run[n].shared.active.value;
            && s.shared.cancelRequested && s.cancelled[read] + Outstanding(s, read) == 1
            && (read in s.closing ==> Enabled(s, CloserCancel(read)))
            && (s.poller == Inside(Some(read)) ==> Enabled(s, PollerCancel))
  {
    EveryRun(run, steps, n);
    assert Waiters(run[n].foreground) != {};
  }
}
