/**
 `DatastoreCoordinator` of motu_proxy/datastore.py as it changes its fields, one lock-hold segment to a method.

 A ghost `system` says which threads stand where.  Every segment takes a step of the arbitration, so that
 after any sequence of calls, by any threads, the pipe is exclusive, no waiter stands behind a read that is
 not being cancelled, each read is handed out once, and the history is of one session.
 */
module Coordinator {
  import opened Wrappers
  import opened Arbitration
  import opened Cache
  import Coordination

  class DatastoreCoordinator {
    const historySize: nat
    var ioBusy: bool
    var ioOwner: Option<Owner>
    var foregroundWaiters: int
    var activePollRead: Option<ReadId>
    var activePollCancelRequested: bool
    var closed: bool
    var history: seq<Transition>
    var latestEtag: Option<Etag>
    var generation: nat
    /** The session that the latest ETag came from. */
    ghost var latestGen: nat
    /** The threads, and the fields of the pipe once more. */
    ghost var system: System

    ghost function Pipe(): (s: Shared)
      reads this
    {
      Shared(ioBusy, ioOwner, foregroundWaiters, activePollRead, activePollCancelRequested, closed)
    }

    ghost function Kept(): (s: Shelf)
      reads this
    {
      Shelf(latestEtag, latestGen, history, generation)
    }

    ghost predicate Valid()
      reads this
    {
      Pipe() == system.shared && Inv(system) && Coordination.ShelfOfOneGeneration(Kept(), historySize)
    }

    constructor (historySize: nat, generation: nat)
      ensures Valid() && system == START && Kept() == Shelf(None, generation, [], generation) && this.historySize == historySize
    {
      this.historySize := historySize;
      ioBusy, ioOwner, foregroundWaiters, activePollRead, activePollCancelRequested, closed := false, None, 0, None, false, false;
      history, latestEtag, this.generation, latestGen := [], None, generation, generation;
      system := START;
      new;
      StartInv();
    }

    /** `_request_active_poll_cancel_locked` */
    method RequestActivePollCancel() returns (read: Option<ReadId>)
      modifies this`activePollCancelRequested
      ensures (Pipe(), read) == RequestCancel(old(Pipe()))
    {
      if activePollRead.None? || activePollCancelRequested {
        return None;
      }
      activePollCancelRequested := true;
      return activePollRead;
    }

    /** From one wait to the next in `_acquire_foreground_io`; the read it cancels is cancelled under the lock. */
    method TryForeground(armed: bool, expired: bool) returns (verdict: Verdict, armed': bool, cancelled: Option<ReadId>)
      modifies this`ioBusy, this`ioOwner, this`foregroundWaiters, this`activePollCancelRequested
      ensures Pass(Pipe(), verdict, armed', cancelled) == ForegroundPass(old(Pipe()), armed, expired)
      ensures Decided(old(Pipe()), armed, expired, verdict, armed', cancelled)
    {
      armed', cancelled := armed, None;
      if ioBusy {
        if ioOwner == Some(Poller) {
          cancelled := RequestActivePollCancel();
          if cancelled.Some? {
            armed' := true;
          }
          if armed' && expired {
            foregroundWaiters := foregroundWaiters - 1;
            return GaveUp, armed', cancelled;
          }
        }
        return KeepsWaiting, armed', cancelled;
      }
      ioBusy, ioOwner := true, Some(Foreground);
      foregroundWaiters := foregroundWaiters - 1;
      return Acquired, armed', cancelled;
    }

    /** `_acquire_foreground_io` at each pass, from the fields as it found them: when it has the pipe, gives up, cancels, and has a deadline. */
    static ghost predicate Decided(pipe: Shared, armed: bool, expired: bool, verdict: Verdict, armed': bool, cancelled: Option<ReadId>) {
      var inTheWay := pipe.owner == Some(Poller) && pipe.active.Some? && !pipe.cancelRequested;
      && (verdict == Acquired <==> !pipe.busy)
      && (verdict == GaveUp <==> pipe.busy && pipe.owner == Some(Poller) && expired && (armed || inTheWay))
      && (armed' <==> armed || (pipe.busy && inTheWay))
      && cancelled == (if pipe.busy && inTheWay then pipe.active else None)
    }

    /** What the thread may rely on when `_acquire_foreground_io` has the pipe, has given up, or waits. */
    ghost predicate Outcome(t: ThreadId, verdict: Verdict, armed: bool, cancelled: Option<ReadId>)
      reads this
    {
      && (verdict == Acquired ==> ioBusy && Holders(system.foreground) == {t} && system.poller == Outside)
      && (verdict == GaveUp ==> t !in system.foreground && armed && system.poller.Inside?)
      && (verdict == KeepsWaiting ==>
            t in Waiters(system.foreground) && ioBusy && (activePollRead.Some? ==> activePollCancelRequested))
      && (cancelled.Some? ==> cancelled == activePollRead && system.handed[cancelled.value] == 1 && system.cancelled[cancelled.value] == 1)
    }

    /** `_acquire_foreground_io` up to its first wait: the thread is counted, and tries. */
    method EnterForeground(ghost t: ThreadId, expired: bool) returns (verdict: Verdict, armed: bool, cancelled: Option<ReadId>)
      requires Valid() && t !in system.foreground
      modifies this
      ensures Valid() && Kept() == old(Kept()) && system == Apply(old(system), Enter(t, expired))
      ensures Outcome(t, verdict, armed, cancelled) && Decided(old(Pipe()), false, expired, verdict, armed, cancelled)
    {
      hide Inv, Coordination.ShelfOfOneGeneration, Apply, ForegroundPass, AfterPass, Waiters, Holders;
      ghost var before := system;
      foregroundWaiters := foregroundWaiters + 1;
      verdict, armed, cancelled := TryForeground(false, expired);
      InvKept(before, Enter(t, expired));
      AfterEnter(before, t, expired);
      system := Apply(before, Enter(t, expired));
      PassOutcome(before, Register(before.shared), t, false, expired);
    }

    /** `_acquire_foreground_io` from one wait to the next. */
    method WakeForeground(ghost t: ThreadId, armed: bool, expired: bool)
      returns (verdict: Verdict, armed': bool, cancelled: Option<ReadId>)
      requires Valid() && t in system.foreground && system.foreground[t] == Waiting(armed)
      modifies this
      ensures Valid() && Kept() == old(Kept()) && system == Apply(old(system), Wake(t, expired))
      ensures Outcome(t, verdict, armed', cancelled) && Decided(old(Pipe()), armed, expired, verdict, armed', cancelled)
    {
      hide Inv, Coordination.ShelfOfOneGeneration, Apply, ForegroundPass, AfterPass, Waiters, Holders;
      ghost var before := system;
      verdict, armed', cancelled := TryForeground(armed, expired);
      InvKept(before, Wake(t, expired));
      AfterWake(before, t, expired);
      system := Apply(before, Wake(t, expired));
      PassOutcome(before, before.shared, t, armed, expired);
    }

    /** `_acquire_poller_io` from one wait to the next: the poller begins exactly when the pipe is free and nobody waits for it. */
    method TryPoller() returns (verdict: PollerVerdict)
      requires Valid() && system.poller == Outside
      modifies this`ioBusy, this`ioOwner, this`system
      ensures Valid() && Kept() == old(Kept())
      ensures verdict == PollerAcquired <==> !closed && Holders(old(system.foreground)) == {} && Waiters(old(system.foreground)) == {}
      ensures verdict == PollerTurnedAway <==> closed
      ensures system == if verdict == PollerAcquired then Apply(old(system), PollerEnter) else old(system)
    {
      hide Coordination.ShelfOfOneGeneration, Preempted, HandedOnce, Waiters, Holders;
      ghost var before := system;
      if ioBusy || foregroundWaiters > 0 {
        if closed {
          return PollerTurnedAway;
        }
        return PollerWaits;
      }
      if closed {
        return PollerTurnedAway;
      }
      ioBusy, ioOwner := true, Some(Poller);
      InvKept(before, PollerEnter);
      system := Apply(before, PollerEnter);
      return PollerAcquired;
    }

    /** `_release_io`, by the thread that has the pipe: after it nobody has, and no read is left installed. */
    method ReleaseIo(ghost step: Step)
      requires Valid() && (step.LeaveForeground? || step == PollerLeave) && Enabled(system, step)
      modifies this`ioBusy, this`ioOwner, this`activePollRead, this`activePollCancelRequested, this`system
      ensures Valid() && Kept() == old(Kept()) && system == Apply(old(system), step)
      ensures Holders(system.foreground) == {} && system.poller == Outside && activePollRead == None
      ensures Waiters(system.foreground) == Waiters(old(system.foreground))
    {
      ghost var before := system;
      ioBusy, ioOwner := false, None;
      activePollRead := None;
      activePollCancelRequested := false;
      InvKept(before, step);
      Released(before, step);
      hide Inv, Coordination.ShelfOfOneGeneration;
      system := Apply(before, step);
    }

    /** The locked part of `_set_active_poll_read`: a new read is handed back for cancelling exactly when somebody waits. */
    method SetActivePollRead(read: Option<ReadId>) returns (toCancel: Option<ReadId>)
      requires Valid() && system.poller == Inside(None) && (read.Some? ==> read.value !in system.installed)
      modifies this`activePollRead, this`activePollCancelRequested, this`system
      ensures Valid() && Kept() == old(Kept())
      ensures system == Apply(old(system), if read.Some? then Install(read.value) else Uninstall)
      ensures activePollRead == read && toCancel == (if Waiters(system.foreground) != {} then read else None)
      ensures toCancel.Some? ==> Enabled(system, PollerCancel) && system.handed[toCancel.value] == 1
    {
      ghost var before, step := system, if read.Some? then Install(read.value) else Uninstall;
      toCancel := None;
      activePollRead := read;
      activePollCancelRequested := false;
      if read.Some? && foregroundWaiters > 0 {
        toCancel := RequestActivePollCancel();
      }
      InvKept(before, step);
      HandedToPoller(before, read, step);
      hide Inv, Coordination.ShelfOfOneGeneration, Apply, Enabled, Waiters;
      system := Apply(before, step);
    }

    /** The locked part of `close`: from now on the poller is turned away, and an installed read is being cancelled. */
    method CloseLocked() returns (toCancel: Option<ReadId>)
      requires Valid()
      modifies this`closed, this`activePollCancelRequested, this`system
      ensures Valid() && Kept() == old(Kept()) && system == Apply(old(system), CloseCall)
      ensures closed && (activePollRead.Some? ==> activePollCancelRequested)
      ensures toCancel.Some? ==> toCancel == activePollRead && Enabled(system, CloserCancel(toCancel.value)) && system.handed[toCancel.value] == 1
    {
      hide Inv, Coordination.ShelfOfOneGeneration, Apply;
      ghost var before := system;
      closed := true;
      toCancel := RequestActivePollCancel();
      InvKept(before, CloseCall);
      HandedToCloser(before);
      system := Apply(before, CloseCall);
    }

    /** The call of `cancel` that follows outside the lock, on a read that this thread was handed: the first and only one for it. */
    method CancelHanded(read: ReadId, ghost step: Step)
      requires Valid() && Enabled(system, step)
      requires step == CloserCancel(read) || (step == PollerCancel && system.poller == Inside(Some(read)))
      modifies this`system
      ensures Valid() && system == Apply(old(system), step)
      ensures old(system.cancelled)[read] == 0 && system.cancelled[read] == 1
    {
      InvKept(system, step);
      CancelledOnce(system, step, read);
      hide Inv, Coordination.ShelfOfOneGeneration;
      system := Apply(system, step);
    }

    /** `_publish_payload`, of a response of the recorded session; only what is to be recorded changes anything. */
    method PublishPayload(p: Payload, origin: Option<string>, from: Option<Etag>, record: bool)
      requires Valid() && p.gen == generation
      modifies this`history, this`latestEtag, this`latestGen
      ensures Valid() && Kept() == Publish(old(Kept()), p, origin, from, record, historySize)
      ensures latestEtag == if record && p.etag.Some? then p.etag else old(latestEtag)
    {
      hide Inv;
      Coordination.PublishKeepsGeneration(Kept(), p, generation, origin, from, record, historySize);
      if p.etag.None? {
        return;
      }
      if !record {
        return;
      }
      if p.notModified {
        latestEtag, latestGen := p.etag, p.gen;
        return;
      }
      var previous := if from.Some? then from else latestEtag;
      if previous.Some? && previous != p.etag {
        history := history + [Transition(previous.value, p.etag.value, p.body, origin, p.gen)];
        if |history| > historySize {
          history := history[|history| - historySize..];
        }
      }
      latestEtag, latestGen := p.etag, p.gen;
    }

    /** `_reset_if_session_generation_changed`: nothing of another session is kept. */
    method ResetIfSessionGenerationChanged(current: nat)
      requires Valid()
      modifies this`history, this`latestEtag, this`generation
      ensures Valid() && generation == current && Kept() == ResetFor(old(Kept()), current)
      ensures forall i :: 0 <= i < |history| ==> history[i].gen == current
    {
      hide Inv;
      if current == generation {
        return;
      }
      generation := current;
      latestEtag := None;
      history := [];
    }

    /** `_payload_from_response` and `_publish_payload`, as every thread does them: whatever session the response is from, it may be published. */
    method PublishResponse(current: nat, p: Payload, origin: Option<string>, from: Option<Etag>, record: bool)
      requires Valid() && p.gen == current
      modifies this`history, this`latestEtag, this`latestGen, this`generation
      ensures Valid() && Kept() == Publish(ResetFor(old(Kept()), current), p, origin, from, record, historySize)
    {
      ResetIfSessionGenerationChanged(current);
      PublishPayload(p, origin, from, record);
    }

    /** `_find_wait_outcome_locked`: one walk back through the history. */
    method FindWaitOutcome(etag: Etag, client: Option<string>) returns (t: Option<Transition>, refresh: bool)
      ensures (t, refresh) == WaitOutcome(Kept(), etag, client)
    {
      hide LastForeign;
      var suppressed: Option<Transition> := None;
      ghost var oldest := 0;
      var i := |history|;
      assert history[..i] == history;
      while i > 0
        invariant 0 <= i <= |history|
        invariant LastForeign(history, etag, client) == LastForeign(history[..i], etag, client)
        invariant suppressed.None? ==> forall k :: i <= k < |history| ==> !Matches(history[k], etag)
        invariant suppressed.Some? ==>
          && i <= oldest < |history| && Matches(history[oldest], etag) && suppressed.value == history[oldest]
          && forall k :: i <= k < oldest ==> !Matches(history[k], etag)
      {
        i := i - 1;
        var entry := history[i];
        OneFurtherBack(history, i, etag, client);
        if entry.from != etag {
          continue;
        }
        if client.Some? && entry.origin == client {
          suppressed, oldest := Some(entry), i;
          continue;
        }
        return Some(entry), false;
      }
      assert LastForeign(history[..0], etag, client).None? by { NothingFurtherBack(history, etag, client); }
      if suppressed.Some? {
        assert FirstMatch(history, etag) == Some(oldest);
        return None, latestEtag != Some(suppressed.value.to);
      }
      if latestEtag.Some? && latestEtag.value != etag {
        return None, true;
      }
      return None, false;
    }
  }

  lemma OneFurtherBack(h: seq<Transition>, i: nat, etag: Etag, client: Option<string>)
    requires i < |h|
    ensures LastForeign(h[..i + 1], etag, client)
            == if Matches(h[i], etag) && !Own(h[i], client) then Some(h[i]) else LastForeign(h[..i], etag, client)
  {
    assert h[..i + 1][..i] == h[..i];
  }

  lemma NothingFurtherBack(h: seq<Transition>, etag: Etag, client: Option<string>)
    ensures LastForeign(h[..0], etag, client).None?
  {
  }

  lemma AfterEnter(s: System, t: ThreadId, expired: bool)
    requires Enabled(s, Enter(t, expired))
    ensures Apply(s, Enter(t, expired)) == AfterPass(s, t, ForegroundPass(Register(s.shared), false, expired))
  {
  }

  lemma AfterWake(s: System, t: ThreadId, expired: bool)
    requires Enabled(s, Wake(t, expired))
    ensures Apply(s, Wake(t, expired)) == AfterPass(s, t, ForegroundPass(s.shared, s.foreground[t].armed, expired))
  {
  }

  /** What a pass of the loop means, given that it keeps the invariant. */
  lemma PassOutcome(s: System, entry: Shared, t: ThreadId, armed: bool, expired: bool)
    requires Inv(s) && (t in s.foreground ==> s.foreground[t].Waiting?)
    requires entry == s.shared.(waiters := entry.waiters)
    requires Inv(AfterPass(s, t, ForegroundPass(entry, armed, expired)))
    ensures var p := ForegroundPass(entry, armed, expired);
            var s' := AfterPass(s, t, p);
            && s'.shared == p.shared
            && (p.verdict == Acquired ==> s'.shared.busy && Holders(s'.foreground) == {t} && s'.poller == Outside)
            && (p.verdict == GaveUp ==> t !in s'.foreground && p.armed && s'.poller.Inside?)
            && (p.verdict == KeepsWaiting ==> t in Waiters(s'.foreground) && s'.shared.busy && (s'.shared.active.Some? ==> s'.shared.cancelRequested))
            && (p.cancelled.Some? ==> p.cancelled == s'.shared.active && s'.handed[p.cancelled.value] == 1 && s'.cancelled[p.cancelled.value] == 1)
  {
    var p := ForegroundPass(entry, armed, expired);
    var s' := AfterPass(s, t, p);
    if p.verdict == Acquired { OnlyHolder(s', t); }
    if p.verdict == KeepsWaiting { assert t in Waiters(s'.foreground); }
    if p.cancelled.Some? { HandedToPass(s, s', p.cancelled.value); }
  }

  lemma OnlyHolder(s: System, t: ThreadId)
    requires Exclusive(s) && t in s.foreground && s.foreground[t].Holding?
    ensures Holders(s.foreground) == {t} && s.poller == Outside
  {
    var h := Holders(s.foreground);
    assert t in h;
    assert |h - {t}| == 0;
    assert h == (h - {t}) + {t};
  }

  lemma HandedToPass(s: System, s': System, read: ReadId)
    requires HandedOnce(s) && HandedOnce(s') && s'.cancelled[read] == s.cancelled[read] + 1
    ensures s'.handed[read] == 1 && s'.cancelled[read] == 1
  {
  }

  lemma HandedToPoller(s: System, read: Option<ReadId>, step: Step)
    requires Inv(s) && step == (if read.Some? then Install(read.value) else Uninstall) && Enabled(s, step)
    requires Inv(Apply(s, step))
    ensures var (shared, toCancel) := SetActive(s.shared, read);
            var s' := Apply(s, step);
            && s'.shared == shared
            && toCancel == (if Waiters(s'.foreground) != {} then read else None)
            && (toCancel.Some? ==> Enabled(s', PollerCancel) && s'.handed[toCancel.value] == 1)
  {
    hide Preempted, Waiters, Holders;
  }

  lemma HandedToCloser(s: System)
    requires Inv(s) && Inv(Apply(s, CloseCall))
    ensures var (shared, read) := Close(s.shared);
            && Apply(s, CloseCall).shared == shared && (shared.active.Some? ==> shared.cancelRequested)
            && (read.Some? ==> Enabled(Apply(s, CloseCall), CloserCancel(read.value)) && Apply(s, CloseCall).handed[read.value] == 1)
  {
    hide Exclusive, Preempted;
  }

  lemma Released(s: System, step: Step)
    requires Inv(s) && (step.LeaveForeground? || step == PollerLeave) && Enabled(s, step)
    ensures var s' := Apply(s, step);
            && Holders(s'.foreground) == {} && s'.poller == Outside && s'.shared == Release(s.shared)
            && Waiters(s'.foreground) == Waiters(s.foreground)
  {
    hide Preempted, HandedOnce;
    if step.LeaveForeground? {
      OnlyHolder(s, step.thread);
      assert Holders(s.foreground - {step.thread}) == Holders(s.foreground) - {step.thread};
      assert Waiters(s.foreground - {step.thread}) == Waiters(s.foreground);
    } else {
      assert Holders(s.foreground) == {};
    }
  }

  lemma CancelledOnce(s: System, step: Step, read: ReadId)
    requires Inv(s) && Enabled(s, step) && Inv(Apply(s, step))
    requires step == CloserCancel(read) || (step == PollerCancel && s.poller == Inside(Some(read)))
    ensures s.cancelled[read] == 0 && Apply(s, step).cancelled[read] == 1 && Apply(s, step).shared == s.shared
  {
    hide Exclusive, Preempted;
    assert s.handed[read] == s.cancelled[read] + Outstanding(s, read);
  }
}
