/**
 The session manager: `ManagedDatastore` of motu_proxy/datastore.py.

 Every call and `close` hold the operation lock from beginning to end, so a run is a sequence of calls.
 What a run may look like is stated over the trace of its events (`Legal`); the class, which keeps only
 a few fields, is proved to produce nothing else, and the promises are proved of every legal trace.
 */
module Session {
  import opened Wrappers

  // ----- Which exceptions mean that the device is gone

  datatype Raised =
    | NoDeviceFound | NoControlInterfaceFound | MultipleDevicesFound
    | DeviceDiscoveryError(permissionCause: bool, notReadable: bool)
    | OsError(errno: int)
    | ShortUsbWrite | DatastoreNoResponse | DatastoreTimeout
    | OtherError

  /** ENODEV, ENOENT, ENXIO, ECONNRESET, ESHUTDOWN, EPIPE */
  const RECONNECTABLE_ERRNOS := {19, 2, 6, 104, 108, 32}

  /** `is_reconnectable_device_loss` */
  predicate IsLoss(e: Raised, duringOpen: bool) {
    match e
    case NoDeviceFound => true
    case NoControlInterfaceFound => true
    case MultipleDevicesFound => true
    case DeviceDiscoveryError(permissionCause, notReadable) => !(permissionCause || notReadable)
    case OsError(errno) => errno in RECONNECTABLE_ERRNOS
    case ShortUsbWrite => true
    case DatastoreNoResponse => duringOpen
    case DatastoreTimeout => duringOpen
    case OtherError => false
  }

  // ----- Delays

  datatype Delays = Delays(initial: real, max: real, config: real)

  predicate GoodDelays(d: Delays) { 0.0 <= d.initial <= d.max && 0.0 <= d.config }

  function Min(a: real, b: real): (m: real) { if a <= b then a else b }

  function Max(a: real, b: real): (m: real) { if a <= b then b else a }

  function Pow2(k: nat): (p: real)
    ensures p >= 1.0
  {
    if k == 0 then 1.0 else 2.0 * Pow2(k - 1)
  }

  /** The closed form of the backoff: what the `k`-th retry since the last successful open waits. */
  function Backoff(d: Delays, k: nat): (t: real) {
    Min(d.max, d.initial * Pow2(k))
  }

  /** Doubling, clamped from both sides, steps through the closed form. */
  lemma DoublingIsBackoff(d: Delays, k: nat)
    requires GoodDelays(d)
    ensures Backoff(d, 0) == d.initial
    ensures Min(d.max, Max(d.initial, Backoff(d, k) * 2.0)) == Backoff(d, k + 1)
  {
    var p := d.initial * Pow2(k);
    assert p >= d.initial by { Scaling(d.initial, Pow2(k)); }
    assert d.initial * Pow2(k + 1) == 2.0 * p;
  }

  lemma Scaling(x: real, p: real)
    requires x >= 0.0 && p >= 1.0
    ensures x * p >= x
  {
    assert x * (p - 1.0) >= 0.0;
  }

  // ----- Traces

  datatype Event =
    | Called(op: nat)
    | Refused(at: real)                                   // turned away before the retry was due
    | Attempt(at: real)                                   // the opener is called
    | OpenFailed(at: real, delay: real, lossy: bool)      // it raised; the next attempt is put off
    | Opened(at: real, generation: nat)                   // a context was entered
    | Delivered(generation: nat, op: nat)                 // the operation reached a session
    | Lost(at: real, delay: real)                         // and the device was gone
    | Exited                                              // the context was exited
    | Closing

  type Trace = seq<Event>

  datatype State = Unavailable | Reconnecting | Available | BackingOff | ConfigurationError | Closed

  /** How many contexts were entered and exited. */
  function Entered(t: Trace): (n: nat) {
    if t == [] then 0 else Entered(t[..|t| - 1]) + (if t[|t| - 1].Opened? then 1 else 0)
  }

  function ExitCount(t: Trace): (n: nat) {
    if t == [] then 0 else ExitCount(t[..|t| - 1]) + (if t[|t| - 1].Exited? then 1 else 0)
  }

  /** Is a context entered and not yet exited? */
  predicate Held(t: Trace) {
    t != [] && var last := t[|t| - 1]; last.Opened? || (!last.Exited? && Held(t[..|t| - 1]))
  }

  predicate IsClosed(t: Trace) {
    t != [] && (t[|t| - 1].Closing? || IsClosed(t[..|t| - 1]))
  }

  /** Retries scheduled since the last successful open; configuration errors are none. */
  function Retries(t: Trace): (k: nat) {
    if t == [] then 0 else
    var k := Retries(t[..|t| - 1]);
    match t[|t| - 1]
    case Opened(_, _) => 0
    case OpenFailed(_, _, lossy) => if lossy then k + 1 else k
    case Lost(_, _) => k + 1
    case _ => k
  }

  /** The time from which the opener may be called again. */
  function Due(t: Trace): (at: real) {
    if t == [] then 0.0 else
    match t[|t| - 1]
    case Opened(at, _) => at
    case OpenFailed(at, delay, _) => at + delay
    case Lost(at, delay) => at + delay
    case _ => Due(t[..|t| - 1])
  }

  function NextState(s: State, closed: bool, e: Event): (s': State) {
    match e
    case Refused(_) => if s == ConfigurationError then ConfigurationError else BackingOff
    case Attempt(_) => Reconnecting
    case OpenFailed(_, _, lossy) => if lossy then BackingOff else ConfigurationError
    case Opened(_, _) => Available
    case Lost(_, _) => BackingOff
    case Exited => if closed then Closed else BackingOff
    case Closing => Closed
    case _ => s
  }

  function StateOf(t: Trace): (s: State) {
    if t == [] then Unavailable else NextState(StateOf(t[..|t| - 1]), IsClosed(t[..|t| - 1]), t[|t| - 1])
  }

  /** May this event follow this trace? */
  ghost predicate MayFollow(d: Delays, t: Trace, e: Event) {
    match e
    case Called(_) => Settled(t)
    case Refused(at) => CalledLast(t) && !IsClosed(t) && !Held(t) && at < Due(t)
    case Attempt(at) => CalledLast(t) && !IsClosed(t) && !Held(t) && Due(t) <= at
    case OpenFailed(at, delay, lossy) =>
      t != [] && t[|t| - 1].Attempt? && delay == if lossy then Backoff(d, Retries(t)) else d.config
    case Opened(_, generation) => t != [] && t[|t| - 1].Attempt? && generation == Entered(t) + 1
    case Delivered(generation, op) =>
      && Held(t) && !IsClosed(t) && generation == Entered(t)
      && (t[|t| - 1] == Called(op) || (|t| >= 3 && t[|t| - 1].Opened? && t[|t| - 2].Attempt? && t[|t| - 3] == Called(op)))
    case Lost(_, delay) => t != [] && t[|t| - 1].Delivered? && delay == Backoff(d, Retries(t))
    case Exited => t != [] && Held(t) && (t[|t| - 1].Lost? || t[|t| - 1].Closing?)
    case Closing => Settled(t)
  }

  ghost predicate CalledLast(t: Trace) {
    t != [] && t[|t| - 1].Called?
  }

  /** No call is under way. */
  ghost predicate Settled(t: Trace) {
    t == [] || match t[|t| - 1]
               case Attempt(_) => false
               case Opened(_, _) => false
               case Lost(_, _) => false
               case Closing => !Held(t)
               case _ => true
  }

  ghost predicate Legal(d: Delays, t: Trace) {
    t == [] || (Legal(d, t[..|t| - 1]) && MayFollow(d, t[..|t| - 1], t[|t| - 1]))
  }

  // ----- What every legal trace promises

  /**
   At any moment one context is held or none is, and every context that was entered is exited before the
   next one is; between calls a context is held exactly in the state "available".
   */
  lemma {:induction false} OneSessionAtATime(d: Delays, t: Trace)
    requires Legal(d, t)
    ensures Entered(t) - ExitCount(t) == if Held(t) then 1 else 0
    ensures Settled(t) ==> (Held(t) <==> StateOf(t) == Available)
    ensures StateOf(t) == Available ==> Held(t)
    ensures IsClosed(t) && Settled(t) ==> !Held(t) && StateOf(t) == Closed
    ensures IsClosed(t) ==> t[|t| - 1].Called? || t[|t| - 1].Exited? || t[|t| - 1].Closing?
  {
    if t != [] { OneSessionAtATime(d, t[..|t| - 1]); }
  }

  lemma {:induction false} LegalPrefix(d: Delays, t: Trace, n: nat)
    requires Legal(d, t) && n <= |t|
    ensures Legal(d, t[..n])
    decreases |t| - n
  {
    if n == |t| {
      assert t[..n] == t;
    } else {
      LegalPrefix(d, t, n + 1);
      assert t[..n + 1][..n] == t[..n];
    }
  }

  lemma {:induction false} ClosedStaysClosed(t: Trace, i: nat)
    requires i < |t| && t[i].Closing?
    ensures IsClosed(t)
  {
    if i < |t| - 1 { ClosedStaysClosed(t[..|t| - 1], i); }
  }

  /** After `close` no session is opened and no operation is delivered, ever. */
  lemma NothingAfterClose(d: Delays, t: Trace, i: nat, j: nat)
    requires Legal(d, t) && i < j < |t| && t[i].Closing?
    ensures !t[j].Attempt? && !t[j].Opened? && !t[j].Delivered?
  {
    LegalPrefix(d, t, j + 1);
    ClosedStaysClosed(t[..j + 1], i);
    OneSessionAtATime(d, t[..j + 1]);
  }

  /** The last open attempt failed for another reason than a missing device. */
  predicate Misconfigured(t: Trace) {
    t != [] && match t[|t| - 1]
               case OpenFailed(_, _, lossy) => !lossy
               case Opened(_, _) => false
               case Lost(_, _) => false
               case _ => Misconfigured(t[..|t| - 1])
  }

  /** Nothing has come of any call so far but that it was made. */
  predicate Untried(t: Trace) { t == [] || (t[|t| - 1].Called? && Untried(t[..|t| - 1])) }

  /** What the reported state means: closed, holding a session, refused its configuration, or waiting to try again. */
  lemma {:induction false} StateMeans(d: Delays, t: Trace)
    requires Legal(d, t) && Settled(t)
    ensures IsClosed(t) ==> StateOf(t) == Closed
    ensures !IsClosed(t) ==> (StateOf(t) == Available <==> Held(t))
    ensures !IsClosed(t) && !Held(t) ==> (StateOf(t) == ConfigurationError <==> Misconfigured(t))
    ensures StateOf(t) == Unavailable <==> Untried(t)
    ensures StateOf(t) != Reconnecting
  {
    StateMeansAlways(d, t);
    OneSessionAtATime(d, t);
  }

  lemma {:induction false} StateMeansAlways(d: Delays, t: Trace)
    requires Legal(d, t)
    ensures !IsClosed(t) ==> (StateOf(t) == ConfigurationError ==> Misconfigured(t))
    ensures !IsClosed(t) && Misconfigured(t) && !(t[|t| - 1].Attempt?) ==> StateOf(t) == ConfigurationError
    ensures StateOf(t) == Reconnecting ==> t != [] && t[|t| - 1].Attempt?
    ensures StateOf(t) == Unavailable <==> Untried(t)
    ensures Misconfigured(t) ==> !Held(t)
  {
    if t != [] {
      var before, e := t[..|t| - 1], t[|t| - 1];
      StateMeansAlways(d, before);
      OneSessionAtATime(d, before);
      assert MayFollow(d, before, e);
      if Misconfigured(t) && !e.OpenFailed? && !e.Attempt? {
        assert Misconfigured(before) && !Held(before) && !before[|before| - 1].Attempt?;
        assert !e.Exited? && !e.Delivered?;
        assert !IsClosed(before) ==> StateOf(before) == ConfigurationError;
        assert StateOf(t) == NextState(StateOf(before), IsClosed(before), e);
      }
    }
  }

  function CalledCount(t: Trace, op: nat): (n: nat) {
    if t == [] then 0 else CalledCount(t[..|t| - 1], op) + (if t[|t| - 1] == Called(op) then 1 else 0)
  }

  function DeliveredCount(t: Trace, op: nat): (n: nat) {
    if t == [] then 0
    else DeliveredCount(t[..|t| - 1], op) + (if t[|t| - 1].Delivered? && t[|t| - 1].op == op then 1 else 0)
  }

  /** A call of this operation is under way and has not been delivered. */
  predicate Owed(t: Trace, op: nat) {
    t != [] &&
    (|| t[|t| - 1] == Called(op)
     || (t[|t| - 1].Attempt? && Owed(t[..|t| - 1], op))
     || (t[|t| - 1].Opened? && Owed(t[..|t| - 1], op)))
  }

  /** No operation is delivered more often than it was called for: a loss is never answered by sending it again. */
  lemma {:induction false} AtMostOnce(d: Delays, t: Trace, op: nat)
    requires Legal(d, t)
    ensures DeliveredCount(t, op) + (if Owed(t, op) then 1 else 0) <= CalledCount(t, op)
  {
    if t != [] {
      var before := t[..|t| - 1];
      AtMostOnce(d, before, op);
      if t[|t| - 1].Delivered? && before[|before| - 1].Opened? {
        assert Owed(before[..|before| - 1], t[|t| - 1].op);
      }
    }
  }

  /** The event put the next attempt off. */
  predicate Schedules(e: Event) { e.OpenFailed? || e.Lost? }

  function Calls(t: Trace): (n: nat) {
    if t == [] then 0 else Calls(t[..|t| - 1]) + (if t[|t| - 1].Called? then 1 else 0)
  }

  function Attempts(t: Trace): (n: nat) {
    if t == [] then 0 else Attempts(t[..|t| - 1]) + (if t[|t| - 1].Attempt? then 1 else 0)
  }

  /** Between any two points of a run there are at most as many attempts to open as calls, plus the one of a call just made. */
  lemma {:induction false} OneAttemptPerCall(d: Delays, t: Trace, n: nat)
    requires Legal(d, t) && n <= |t|
    ensures Attempts(t) - Attempts(t[..n]) + (if CalledLast(t) then 1 else 0)
            <= Calls(t) - Calls(t[..n]) + (if CalledLast(t[..n]) then 1 else 0)
    decreases |t|
  {
    if n == |t| {
      assert t[..n] == t;
    } else {
      var before := t[..|t| - 1];
      OneAttemptPerCall(d, before, n);
      assert before[..n] == t[..n];
    }
  }

  /** The delay of every retry is the closed form of the retries before it; configuration errors have their own and do not count. */
  lemma RetryDelayIsClosedForm(d: Delays, t: Trace, i: nat)
    requires Legal(d, t) && i < |t| && Schedules(t[i])
    ensures t[i].delay == if t[i].OpenFailed? && !t[i].lossy then d.config else Backoff(d, Retries(t[..i]))
  {
    hide Backoff, Retries;
    LegalPrefix(d, t, i + 1);
    var now := t[..i + 1];
    assert now[..i] == t[..i] && now[|now| - 1] == t[i];
    assert MayFollow(d, t[..i], t[i]);
  }

  ghost predicate AttemptsInOrder(t: Trace) {
    forall i, j :: 0 <= i < j < |t| && t[i].Attempt? && t[j].Attempt? ==> t[i].at <= t[j].at
  }

  /** The delay set at `i` is still to be waited for, or an attempt has waited for it. */
  ghost predicate Waited(t: Trace, i: nat)
    requires i < |t| && Schedules(t[i])
  {
    || (exists k :: i < k < |t| && t[k].Attempt? && t[k].at >= t[i].at + t[i].delay)
    || (Due(t) == t[i].at + t[i].delay && (Held(t) ==> |t| == i + 1 && t[i].Lost?))
  }

  lemma {:induction false} DelaysAreWaited(d: Delays, t: Trace, i: nat)
    requires Legal(d, t) && i < |t| && Schedules(t[i])
    ensures Waited(t, i)
  {
    var n := |t| - 1;
    var before := t[..n];
    if i == n {
      if t[i].OpenFailed? { AttemptHoldsNothing(d, before); }
    } else {
      DelaysAreWaited(d, before, i);
      if exists k :: i < k < n && before[k].Attempt? && before[k].at >= before[i].at + before[i].delay {
        var k :| i < k < n && before[k].Attempt? && before[k].at >= before[i].at + before[i].delay;
        assert t[k] == before[k];
      } else if t[n].Opened? || t[n].OpenFailed? {
        AttemptHoldsNothing(d, before);
      } else if t[n].Attempt? {
        assert t[n].at >= t[i].at + t[i].delay;
      } else {
        assert t[n].Lost? ==> Held(before);
      }
    }
  }

  lemma AttemptHoldsNothing(d: Delays, t: Trace)
    requires Legal(d, t) && t != [] && t[|t| - 1].Attempt?
    ensures !Held(t) && t[|t| - 1].at >= Due(t)
  {
  }

  /** With a clock that does not run backwards, the opener is never called before any earlier delay has passed. */
  lemma AttemptsAreSpaced(d: Delays, t: Trace, i: nat, j: nat)
    requires Legal(d, t) && AttemptsInOrder(t)
    requires i < j < |t| && Schedules(t[i]) && t[j].Attempt?
    ensures t[j].at >= t[i].at + t[i].delay
  {
    LegalPrefix(d, t, j + 1);
    LegalPrefix(d, t, j);
    assert t[..j + 1][..j] == t[..j];
    DelaysAreWaited(d, t[..j], i);
  }

  // ----- What a call does

  datatype OpenOutcome = OpenOk | OpenRaises(e: Raised)

  datatype OpOutcome<T> = OpReturns(value: T) | OpRaises(e: Raised)

  /** Everything a call asks its environment: the clock three times, the opener, the operation. */
  datatype CallEnv<T> = CallEnv(checkAt: real, open: OpenOutcome, openedAt: real, outcome: OpOutcome<T>, lostAt: real)

  datatype CallError = DeviceUnavailable | Reraised(e: Raised)

  /** What `_ensure_session` adds to a trace, and the session it finds or opens. */
  function EnsureTrace<T>(d: Delays, t: Trace, env: CallEnv<T>): (r: (Trace, Result<nat, CallError>)) {
    if IsClosed(t) then (t, Err(DeviceUnavailable))
    else if Held(t) then (t, Ok(Entered(t)))
    else if env.checkAt < Due(t) then (t + [Refused(env.checkAt)], Err(DeviceUnavailable))
    else if env.open.OpenOk? then (t + [Attempt(env.checkAt)] + [Opened(env.openedAt, Entered(t) + 1)], Ok(Entered(t) + 1))
    else
      var lossy := IsLoss(env.open.e, true);
      (t + [Attempt(env.checkAt)] + [OpenFailed(env.openedAt, if lossy then Backoff(d, Retries(t)) else d.config, lossy)],
       Err(if lossy then DeviceUnavailable else Reraised(env.open.e)))
  }

  /** The trace and the result of one call after a trace. */
  function CallTrace<T>(d: Delays, t: Trace, op: nat, env: CallEnv<T>): (r: (Trace, Result<T, CallError>)) {
    var ensured := EnsureTrace(d, t + [Called(op)], env);
    if ensured.1.Err? then (ensured.0, Err(ensured.1.error)) else Deliver(d, ensured.0, op, env)
  }

  function Deliver<T>(d: Delays, t: Trace, op: nat, env: CallEnv<T>): (r: (Trace, Result<T, CallError>)) {
    var t1 := t + [Delivered(Entered(t), op)];
    if env.outcome.OpReturns? then (t1, Ok(env.outcome.value))
    else if !IsLoss(env.outcome.e, false) then (t1, Err(Reraised(env.outcome.e)))
    else (t1 + [Lost(env.lostAt, Backoff(d, Retries(t)))] + [Exited], Err(DeviceUnavailable))
  }

  // ----- What a call answers, from what the manager and its environment were like

  /** The opener is called. */
  predicate Attempted<T>(closed: bool, held: bool, due: real, env: CallEnv<T>) { !closed && !held && env.checkAt >= due }

  /** The operation reaches a session. */
  predicate Reached<T>(closed: bool, held: bool, due: real, env: CallEnv<T>) {
    !closed && (held || (Attempted(closed, held, due, env) && env.open.OpenOk?))
  }

  /** The device is lost, to the opener or to the operation. */
  predicate Loses<T>(closed: bool, held: bool, due: real, env: CallEnv<T>) {
    || (Attempted(closed, held, due, env) && env.open.OpenRaises? && IsLoss(env.open.e, true))
    || (Reached(closed, held, due, env) && env.outcome.OpRaises? && IsLoss(env.outcome.e, false))
  }

  /** What the opener or the operation raises, if it does not mean that the device is gone. */
  function PassedOn<T>(closed: bool, held: bool, due: real, env: CallEnv<T>): (e: Option<Raised>) {
    if Attempted(closed, held, due, env) && env.open.OpenRaises? then if IsLoss(env.open.e, true) then None else Some(env.open.e)
    else if Reached(closed, held, due, env) && env.outcome.OpRaises? && !IsLoss(env.outcome.e, false) then Some(env.outcome.e)
    else None
  }

  /** The answer of a call, and whether a session is held after it. */
  ghost predicate Answers<T>(closed: bool, held: bool, due: real, env: CallEnv<T>, r: Result<T, CallError>, held': bool) {
    && (r.Ok? <==> Reached(closed, held, due, env) && env.outcome.OpReturns?)
    && (r.Ok? ==> r.value == env.outcome.value)
    && (r.Err? && r.error.Reraised? <==> PassedOn(closed, held, due, env).Some?)
    && (r.Err? && r.error.Reraised? ==> Some(r.error.e) == PassedOn(closed, held, due, env))
    && (r.Err? && r.error.DeviceUnavailable? <==> closed || (!held && env.checkAt < due) || Loses(closed, held, due, env))
    && (held' <==> if closed then held else Reached(closed, held, due, env) && !Loses(closed, held, due, env))
  }

  lemma CallAnswers<T>(d: Delays, t: Trace, op: nat, env: CallEnv<T>)
    ensures var r := CallTrace(d, t, op, env);
            && Answers(IsClosed(t), Held(t), Due(t), env, r.1, Held(r.0))
            && IsClosed(r.0) == IsClosed(t)
            && DeliveredCount(r.0, op) == DeliveredCount(t, op) + (if Reached(IsClosed(t), Held(t), Due(t), env) then 1 else 0)
  {
    hide Entered, Retries, Due, StateOf, Legal, Backoff, IsLoss, DeliveredCount, Held, IsClosed;
    var t1, attempt := t + [Called(op)], Attempt(env.checkAt);
    var t2, entry := t1 + [attempt], Opened(env.openedAt, Entered(t1) + 1);
    OneMoreEvent(d, t, Called(op), op);
    if IsClosed(t) {
    } else if Held(t) {
      DeliverAnswers(d, t1, op, env);
    } else if env.checkAt < Due(t) {
      OneMoreEvent(d, t1, Refused(env.checkAt), op);
    } else if env.open.OpenOk? {
      OneMoreEvent(d, t1, attempt, op);
      OneMoreEvent(d, t2, entry, op);
      DeliverAnswers(d, t2 + [entry], op, env);
    } else {
      OneMoreEvent(d, t1, attempt, op);
      var lossy := IsLoss(env.open.e, true);
      OneMoreEvent(d, t2, OpenFailed(env.openedAt, if lossy then Backoff(d, Retries(t1)) else d.config, lossy), op);
    }
  }

  lemma OneMoreEvent(d: Delays, t: Trace, e: Event, op: nat)
    ensures Held(t + [e]) <==> e.Opened? || (!e.Exited? && Held(t))
    ensures IsClosed(t + [e]) <==> e.Closing? || IsClosed(t)
    ensures e.Called? ==> Due(t + [e]) == Due(t)
    ensures DeliveredCount(t + [e], op) == DeliveredCount(t, op) + (if e.Delivered? && e.op == op then 1 else 0)
  {
    Then(d, t, e);
    CountsThen(t, e, op);
  }

  lemma DeliverAnswers<T>(d: Delays, t: Trace, op: nat, env: CallEnv<T>)
    requires Held(t)
    ensures var r := Deliver(d, t, op, env);
            && IsClosed(r.0) == IsClosed(t) && DeliveredCount(r.0, op) == DeliveredCount(t, op) + 1
            && (Held(r.0) <==> !(env.outcome.OpRaises? && IsLoss(env.outcome.e, false)))
            && r.1 == (if env.outcome.OpReturns? then Ok(env.outcome.value)
                       else if IsLoss(env.outcome.e, false) then Err(DeviceUnavailable) else Err(Reraised(env.outcome.e)))
  {
    hide Entered, Retries, Due, StateOf, Legal, Backoff, IsLoss, DeliveredCount, Held, IsClosed;
    var t1, lost := t + [Delivered(Entered(t), op)], Lost(env.lostAt, Backoff(d, Retries(t)));
    OneMoreEvent(d, t, Delivered(Entered(t), op), op);
    OneMoreEvent(d, t1, lost, op);
    OneMoreEvent(d, t1 + [lost], Exited, op);
  }

  /**
   Which exceptions end a session, and which leave it: a missing device, a short write and the errnos of a
   vanished device end it; an answer that does not come ends none, but a session that cannot be opened for want
   of one is tried again with backoff; a device that may not be read, and anything else, is for the caller.
   */
  lemma WhatEndsASession(errno: int, cause: bool, text: bool)
    ensures forall opening :: IsLoss(NoDeviceFound, opening) && IsLoss(NoControlInterfaceFound, opening) && IsLoss(MultipleDevicesFound, opening)
    ensures forall opening :: IsLoss(ShortUsbWrite, opening) && !IsLoss(OtherError, opening)
    ensures forall opening :: (IsLoss(DatastoreTimeout, opening) <==> opening) && (IsLoss(DatastoreNoResponse, opening) <==> opening)
    ensures forall opening :: IsLoss(DeviceDiscoveryError(cause, text), opening) <==> !cause && !text
    ensures forall opening :: IsLoss(OsError(errno), opening) <==>
              errno == 2 || errno == 6 || errno == 19 || errno == 32 || errno == 104 || errno == 108
  {
  }

  function CloseTrace(t: Trace): (r: Trace) {
    if Held(t) then t + [Closing] + [Exited] else t + [Closing]
  }

  /** One more event, seen by every function of the trace. */
  lemma Then(d: Delays, t: Trace, e: Event)
    ensures Entered(t + [e]) == Entered(t) + (if e.Opened? then 1 else 0)
    ensures Held(t + [e]) <==> e.Opened? || (!e.Exited? && Held(t))
    ensures IsClosed(t + [e]) <==> e.Closing? || IsClosed(t)
    ensures Retries(t + [e]) == if e.Opened? then 0 else if e.Lost? || (e.OpenFailed? && e.lossy) then Retries(t) + 1 else Retries(t)
    ensures Due(t + [e]) == if e.Opened? then e.at else if Schedules(e) then e.at + e.delay else Due(t)
    ensures StateOf(t + [e]) == NextState(StateOf(t), IsClosed(t), e)
    ensures Legal(d, t) && MayFollow(d, t, e) ==> Legal(d, t + [e])
  {
    assert (t + [e])[..|t|] == t;
  }

  class ManagedDatastore {
    const delays: Delays
    var session: Option<nat>          // the generation of the session held, if any
    var generation: nat
    var state: State
    var retryDelay: real
    var scheduledDelay: real
    var nextRetryAt: real
    var closed: bool
    ghost var trace: Trace

    /** The fields say what the trace says. */
    ghost predicate Matches()
      reads this
    {
      && GoodDelays(delays)
      && Legal(delays, trace)
      && (session.Some? <==> Held(trace)) && (session.Some? ==> session.value == generation)
      && generation == Entered(trace)
      && state == StateOf(trace)
      && retryDelay == Backoff(delays, Retries(trace))
      && nextRetryAt == Due(trace)
      && closed == IsClosed(trace)
    }

    ghost predicate Valid()
      reads this
    {
      Matches() && Settled(trace)
    }

    constructor (initial: real, max: real, config: real)
      ensures Valid() && trace == []
      ensures delays == Delays(Max(0.0, initial), Max(Max(0.0, initial), max), Max(0.0, config))
    {
      delays := Delays(Max(0.0, initial), Max(Max(0.0, initial), max), Max(0.0, config));
      session, generation, state, closed, nextRetryAt := None, 0, Unavailable, false, 0.0;
      retryDelay, scheduledDelay := Max(0.0, initial), Max(0.0, initial);
      trace := [];
      new;
      DoublingIsBackoff(delays, 0);
    }

    /** `_schedule_retry_locked` */
    method ScheduleRetry(now: real)
      modifies this`nextRetryAt, this`scheduledDelay, this`retryDelay, this`state
      ensures nextRetryAt == now + old(retryDelay) && scheduledDelay == old(retryDelay) && state == BackingOff
      ensures retryDelay == Min(delays.max, Max(delays.initial, old(retryDelay) * 2.0))
    {
      var delay := retryDelay;
      nextRetryAt := now + delay;
      scheduledDelay := delay;
      retryDelay := Min(delays.max, Max(delays.initial, delay * 2.0));
      state := BackingOff;
    }

    /** `_schedule_configuration_error_retry_locked` */
    method ScheduleConfigurationErrorRetry(now: real)
      modifies this`nextRetryAt, this`scheduledDelay, this`state
      ensures nextRetryAt == now + delays.config && scheduledDelay == delays.config && state == ConfigurationError
    {
      nextRetryAt := now + delays.config;
      scheduledDelay := delays.config;
      state := ConfigurationError;
    }

    /** `_discard_session_locked` */
    method DiscardSession()
      modifies this`session, this`state, this`trace
      ensures session == None
      ensures state == if old(state) == Closed || old(state) == Reconnecting then old(state) else BackingOff
      ensures trace == if old(session).Some? then old(trace) + [Exited] else old(trace)
    {
      var context := session;
      session := None;
      if context.Some? {
        trace := trace + [Exited];
      }
      if state != Closed && state != Reconnecting {
        state := BackingOff;
      }
    }

    /**
     `_ensure_session`.  Its second look at `_closed` and `_datastore`, after the open, finds what the
     first one found, because the operation lock is held throughout.
     */
    method EnsureSession<T>(env: CallEnv<T>) returns (r: Result<nat, CallError>)
      requires Matches() && CalledLast(trace) && Settled(trace)
      modifies this
      ensures Matches() && old(trace) <= trace
      ensures r.Ok? ==> !closed && session == Some(r.value) && r.value == generation
      ensures r.Ok? ==> MayFollow(delays, trace, Delivered(generation, old(trace)[|old(trace)| - 1].op))
      ensures r.Err? ==> Settled(trace)
      ensures (trace, r) == EnsureTrace(delays, old(trace), env)
    {
      hide Entered, Held, IsClosed, Retries, Due, StateOf, Legal, Backoff, IsLoss;
      if closed {
        return Err(DeviceUnavailable);
      }
      if session.Some? {
        return Ok(session.value);
      }
      ghost var t := trace;
      if env.checkAt < nextRetryAt {
        Then(delays, t, Refused(env.checkAt));
        if state != ConfigurationError {
          state := BackingOff;
        }
        trace := trace + [Refused(env.checkAt)];
        return Err(DeviceUnavailable);
      }
      Then(delays, t, Attempt(env.checkAt));
      state := Reconnecting;
      trace := t + [Attempt(env.checkAt)];
      r := Open(env);
    }

    /** The rest of `_ensure_session`: the opener is called, once. */
    method Open<T>(env: CallEnv<T>) returns (r: Result<nat, CallError>)
      requires Matches() && trace != [] && trace[|trace| - 1].Attempt? && !closed && session.None?
      modifies this
      ensures Matches()
      ensures r.Ok? ==> !closed && session == Some(r.value) && r.value == generation
      ensures var t := old(trace);
              (trace, r) ==
              if env.open.OpenOk? then (t + [Opened(env.openedAt, Entered(t) + 1)], Ok(Entered(t) + 1))
              else
                var lossy := IsLoss(env.open.e, true);
                (t + [OpenFailed(env.openedAt, if lossy then Backoff(delays, Retries(t)) else delays.config, lossy)],
                 Err(if lossy then DeviceUnavailable else Reraised(env.open.e)))
    {
      hide Entered, Held, IsClosed, Retries, Due, StateOf, Legal, Backoff, IsLoss;
      if env.open.OpenRaises? {
        DoublingIsBackoff(delays, Retries(trace));
        var lossy := IsLoss(env.open.e, true);
        if lossy {
          ScheduleRetry(env.openedAt);
        } else {
          ScheduleConfigurationErrorRetry(env.openedAt);
        }
        Then(delays, trace, OpenFailed(env.openedAt, scheduledDelay, lossy));
        trace := trace + [OpenFailed(env.openedAt, scheduledDelay, lossy)];
        return Err(if lossy then DeviceUnavailable else Reraised(env.open.e));
      }
      DoublingIsBackoff(delays, 0);
      Then(delays, trace, Opened(env.openedAt, generation + 1));
      generation := generation + 1;
      session := Some(generation);
      state := Available;
      retryDelay, scheduledDelay, nextRetryAt := delays.initial, delays.initial, env.openedAt;
      trace := trace + [Opened(env.openedAt, generation)];
      return Ok(generation);
    }

    /** `_call`, with the operation lock held throughout. */
    method Call<T>(op: nat, env: CallEnv<T>) returns (r: Result<T, CallError>)
      requires Valid()
      modifies this
      ensures Valid() && (trace, r) == CallTrace(delays, old(trace), op, env)
      ensures Answers(old(closed), old(session).Some?, old(nextRetryAt), env, r, session.Some?)
      ensures DeliveredCount(trace, op) == old(DeliveredCount(trace, op)) + (if Reached(old(closed), old(session).Some?, old(nextRetryAt), env) then 1 else 0)
      ensures closed == old(closed)
    {
      hide Held, IsClosed, Due, DeliveredCount, CallTrace, Answers, Reached, Legal, Settled, StateOf, Backoff, GoodDelays;
      CallAnswers(delays, trace, op, env);
      r := EnsureAndOperate(op, env);
    }

    /** Its body: the trace and the result are those of `CallTrace`, and the trace stays legal. */
    method EnsureAndOperate<T>(op: nat, env: CallEnv<T>) returns (r: Result<T, CallError>)
      requires Valid()
      modifies this
      ensures Valid() && (trace, r) == CallTrace(delays, old(trace), op, env)
    {
      hide Entered, Held, IsClosed, Retries, Due, StateOf, Legal, Backoff, IsLoss, EnsureTrace, Deliver, GoodDelays;
      Then(delays, trace, Called(op));
      trace := trace + [Called(op)];
      var ensured := EnsureSession(env);
      if ensured.Err? {
        return Err(ensured.error);
      }
      r := Operate(op, env);
    }

    /** The rest of `_call`, with a session at hand. */
    method Operate<T>(op: nat, env: CallEnv<T>) returns (r: Result<T, CallError>)
      requires Matches() && session.Some? && MayFollow(delays, trace, Delivered(generation, op))
      modifies this
      ensures Valid() && (trace, r) == Deliver(delays, old(trace), op, env)
      ensures (r.Ok? <==> env.outcome.OpReturns?) && (r.Ok? ==> r.value == env.outcome.value)
      ensures session.Some? <==> !(env.outcome.OpRaises? && IsLoss(env.outcome.e, false))
    {
      hide Entered, Held, IsClosed, Retries, Due, StateOf, Legal, Backoff, IsLoss;
      ghost var t := trace;
      Then(delays, t, Delivered(generation, op));
      trace := trace + [Delivered(generation, op)];
      if env.outcome.OpReturns? {
        return Ok(env.outcome.value);
      }
      if !IsLoss(env.outcome.e, false) {
        return Err(Reraised(env.outcome.e));
      }
      DoublingIsBackoff(delays, Retries(t));
      ghost var delay := retryDelay;
      ScheduleRetry(env.lostAt);
      Then(delays, trace, Lost(env.lostAt, delay));
      trace := trace + [Lost(env.lostAt, delay)];
      Then(delays, trace, Exited);
      DiscardSession();
      return Err(DeviceUnavailable);
    }

    /** `close` */
    method Close()
      requires Valid()
      modifies this
      ensures Valid() && closed && state == Closed && trace == CloseTrace(old(trace))
    {
      hide Entered, Held, IsClosed, Retries, Due, StateOf, Legal, Backoff, IsLoss, GoodDelays;
      ghost var t := trace;
      Then(delays, t, Closing);
      Then(delays, t + [Closing], Exited);
      closed := true;
      trace := t + [Closing];
      DiscardSession();
      state := Closed;
    }
  }

  // ----- A post of the coordinator

  lemma CountsThen(t: Trace, e: Event, op: nat)
    ensures CalledCount(t + [e], op) == CalledCount(t, op) + (if e == Called(op) then 1 else 0)
    ensures DeliveredCount(t + [e], op) == DeliveredCount(t, op) + (if e.Delivered? && e.op == op then 1 else 0)
  {
    assert (t + [e])[..|t|] == t;
  }

  lemma DeliverCounts<T>(d: Delays, t: Trace, op: nat, env: CallEnv<T>, x: nat)
    ensures CalledCount(Deliver(d, t, op, env).0, x) == CalledCount(t, x)
    ensures DeliveredCount(Deliver(d, t, op, env).0, x) == DeliveredCount(t, x) + (if x == op then 1 else 0)
  {
    hide Entered, Backoff, Retries, IsLoss, CalledCount, DeliveredCount;
    var t1 := t + [Delivered(Entered(t), op)];
    var lost := Lost(env.lostAt, Backoff(d, Retries(t)));
    CountsThen(t, Delivered(Entered(t), op), x);
    CountsThen(t1, lost, x);
    CountsThen(t1 + [lost], Exited, x);
  }

  /** One call counts as one, and delivers its operation at most once, and exactly once if it succeeds; it delivers no other. */
  lemma CallCounts<T>(d: Delays, t: Trace, op: nat, env: CallEnv<T>, x: nat)
    ensures var r := CallTrace(d, t, op, env);
            && CalledCount(r.0, x) == CalledCount(t, x) + (if x == op then 1 else 0)
            && DeliveredCount(t, x) <= DeliveredCount(r.0, x) <= DeliveredCount(t, x) + (if x == op then 1 else 0)
            && (r.1.Ok? && x == op ==> DeliveredCount(r.0, x) == DeliveredCount(t, x) + 1)
  {
    hide Entered, Held, IsClosed, Due, Backoff, Retries, IsLoss, Deliver, CalledCount, DeliveredCount;
    var t1, attempt := t + [Called(op)], Attempt(env.checkAt);
    var entry := Opened(env.openedAt, Entered(t1) + 1);
    CountsThen(t, Called(op), x);
    CountsThen(t1, Refused(env.checkAt), x);
    CountsThen(t1, attempt, x);
    CountsThen(t1 + [attempt], entry, x);
    if env.open.OpenRaises? {
      var lossy := IsLoss(env.open.e, true);
      CountsThen(t1 + [attempt], OpenFailed(env.openedAt, if lossy then Backoff(d, Retries(t1)) else d.config, lossy), x);
    }
    DeliverCounts(d, t1, op, env, x);
    DeliverCounts(d, t1 + [attempt] + [entry], op, env, x);
  }

  /**
   `post` of the coordinator, as the session manager sees it: one call for the post, and if it returns, one for
   the refresh, whose failure is swallowed.  The post reaches at most one session, once, and never again.
   */
  method PostAndRefresh<T>(datastore: ManagedDatastore, post: nat, refresh: nat, env: CallEnv<T>, refreshEnv: CallEnv<T>)
    returns (r: Result<T, CallError>)
    requires datastore.Valid() && post != refresh
    modifies datastore
    ensures datastore.Valid() && r == CallTrace(datastore.delays, old(datastore.trace), post, env).1
    ensures r.Ok? <==> Reached(old(datastore.closed), old(datastore.session).Some?, old(datastore.nextRetryAt), env) && env.outcome.OpReturns?
    ensures r.Ok? ==> r.value == env.outcome.value
    ensures CalledCount(datastore.trace, post) == old(CalledCount(datastore.trace, post)) + 1
    ensures DeliveredCount(datastore.trace, post) <= old(DeliveredCount(datastore.trace, post)) + 1
    ensures r.Ok? ==> DeliveredCount(datastore.trace, post) == old(DeliveredCount(datastore.trace, post)) + 1
    ensures CalledCount(datastore.trace, refresh) == old(CalledCount(datastore.trace, refresh)) + (if r.Ok? then 1 else 0)
    ensures forall x :: x != post && x != refresh ==> CalledCount(datastore.trace, x) == old(CalledCount(datastore.trace, x))
  {
    hide CallTrace, CalledCount, DeliveredCount;
    ghost var t, d := datastore.trace, datastore.delays;
    r := datastore.Call(post, env);
    forall x { CallCounts(d, t, post, env, x); }
    if r.Err? {
      return;
    }
    ghost var t' := datastore.trace;
    var _ := datastore.Call(refresh, refreshEnv);
    forall x { CallCounts(d, t', refresh, refreshEnv, x); }
  }
}
