/**
 Submitting and cancelling one URB: `UsbFsCancellableBulkRead` of motu_proxy/transports/usbfs.py.

 `read` runs in one thread and `cancel` in another, without a lock, any number of times one after
 the other.  Every access to a flag and every ioctl is a step of its own, in any
 sequentially consistent order, and the kernel answers as it likes.
 */
module Handshake {
  import opened Wrappers

  const EINVAL := 22
  const ENODEV := 19
  const ENOENT := 2

  /** -ENOENT, -ECONNRESET, -ECANCELED */
  const CANCELLED_STATUSES := {-2, -104, -125}

  /** The four flags that `_discard_pending_urb` looks at, in order. */
  datatype Look = LookSubmitted | LookReaped | LookDiscarded | LookFailed

  /** Inside `cancel`: at each point, what is done next. */
  datatype CancelPc = SetRequested | Looking(look: Look) | DiscardIoctl | SetDiscarded | SetFailed(errno: int) | SetErrno(errno: int) | CancelDone

  datatype Outcome = Data(status: int) | Empty | Interrupted | Raised

  /** Where `read` goes on after its own call of `cancel`. */
  datatype Resume = ToReap | ToFinish

  datatype ReadPc =
    | CheckFirst | Submit | SetSubmitted | CheckAgain
    | Cancelling(pc: CancelPc, resume: Resume)
    | Reap | CheckAfterReap | SetTimedOut
    | FinishCancelled | FinishErrno | ReapBlocking | ReapOnce
    | SetReaped(own: bool)
    | CheckTimedOut | CheckCancelled | CheckStatus
    | Ended(outcome: Outcome)

  datatype Urb = NotSubmitted | InFlight | Completed(status: int) | Taken(status: int)

  /** The fields of the object. */
  datatype Flags = Flags(
    submitted: bool, reaped: bool, cancelRequested: bool, discardSubmitted: bool, discardFailed: bool,
    failureErrno: Option<int>, timedOut: bool)

  /** What has been done and answered so far; no step looks at it. */
  datatype Log = Log(
    attempted: bool,      // a discard ioctl has been made
    noDevice: bool,       // one has failed with ENODEV
    foundNothing: bool,   // the last reap after a failed discard found nothing
    blind: bool)          // `read` looked for the errno of a failed discard before it was written

  datatype State = State(f: Flags, urb: Urb, reader: ReadPc, canceller: Option<CancelPc>, log: Log)

  const START := State(Flags(false, false, false, false, false, None, false), NotSubmitted, CheckFirst, None, Log(false, false, false, false))

  /** What the kernel answers an ioctl: done (for a reap: with this URB), with a URB that was not expected, EAGAIN, or an error. */
  datatype Reply = Done | Unexpected | TryAgain | Failed(errno: int)

  /** A step of `read`, with the kernel's answer and whether the deadline has passed, if it asks for them; and so on. */
  datatype Step = Reader(reply: Reply, expired: bool) | CancelCalled | Canceller(reply: Reply) | KernelCompletes(status: int)

  /** One step inside `cancel`, by whichever thread; `None` means that it raises. */
  function CancelStep(s: State, pc: CancelPc, reply: Reply): (r: (State, Option<CancelPc>))
    ensures r.0.reader == s.reader && r.0.urb == s.urb && r.0.f.submitted == s.f.submitted && r.0.f.reaped == s.f.reaped
    ensures r.0.f.timedOut == s.f.timedOut && r.0.canceller == s.canceller && r.0.log.foundNothing == s.log.foundNothing && r.0.log.blind == s.log.blind
    ensures s.log.noDevice ==> r.0.log.noDevice
    ensures s.f.cancelRequested ==> r.0.f.cancelRequested
    ensures (s.f.discardSubmitted ==> r.0.f.discardSubmitted) && (s.f.discardFailed ==> r.0.f.discardFailed)
  {
    match pc
    case SetRequested => (s.(f := s.f.(cancelRequested := true)), Some(Looking(LookSubmitted)))
    case Looking(LookSubmitted) => (s, Some(if !s.f.submitted then CancelDone else Looking(LookReaped)))
    case Looking(LookReaped) => (s, Some(if s.f.reaped then CancelDone else Looking(LookDiscarded)))
    case Looking(LookDiscarded) => (s, Some(if s.f.discardSubmitted then CancelDone else Looking(LookFailed)))
    case Looking(LookFailed) => (s, Some(if s.f.discardFailed then CancelDone else DiscardIoctl))
    case DiscardIoctl =>
      (s.(log := s.log.(attempted := true, noDevice := s.log.noDevice || reply == Failed(ENODEV))),
       if reply.Done? then Some(SetDiscarded)
       else if reply.Failed? && reply.errno in {EINVAL, ENODEV, ENOENT} then Some(SetFailed(reply.errno))
       else None)
    case SetDiscarded => (s.(f := s.f.(discardSubmitted := true)), Some(CancelDone))
    case SetFailed(errno) => (s.(f := s.f.(discardFailed := true)), Some(SetErrno(errno)))
    case SetErrno(errno) => (s.(f := s.f.(failureErrno := Some(errno))), Some(CancelDone))
    case CancelDone => (s, Some(CancelDone))
  }

  /** A reap ioctl that does not come back with EAGAIN: it takes this URB from the kernel, or raises. */
  function Take(s: State, reply: Reply): (s': State) {
    if reply.Done? && s.urb.Completed? then s.(urb := Taken(s.urb.status), reader := SetReaped(true))
    else s.(reader := Ended(Raised))
  }

  predicate AtReap(pc: ReadPc) { pc.Reap? || pc.ReapBlocking? || pc.ReapOnce? }

  /** A reap brings this URB only if it has completed, and finds nothing only if it has not; a blocking one does not try again. */
  predicate ReapAnswer(s: State, reply: Reply) {
    (reply.Done? ==> s.urb.Completed?) && (reply.TryAgain? ==> !s.urb.Completed? && !s.reader.ReapBlocking?)
  }

  predicate Enabled(s: State, step: Step) {
    match step
    case Reader(reply, _) => !s.reader.Ended? && (AtReap(s.reader) ==> ReapAnswer(s, reply))
    case CancelCalled => s.canceller.None? || s.canceller.value.CancelDone?
    case Canceller(_) => s.canceller.Some? && !s.canceller.value.CancelDone?
    case KernelCompletes(_) => s.urb.InFlight?
  }

  predicate Submitting(pc: ReadPc) { pc.CheckFirst? || pc.Submit? || pc.SetSubmitted? || pc.CheckAgain? }

  /** Inside `_reap`, except for its call of `cancel`. */
  predicate Reaping(pc: ReadPc) { pc.Reap? || pc.CheckAfterReap? || pc.SetTimedOut? }

  /** Inside `_finish_cancelled_reap`. */
  predicate InFinish(pc: ReadPc) { pc.FinishCancelled? || pc.FinishErrno? || pc.ReapBlocking? || pc.ReapOnce? }

  function SubmitStep(s: State, reply: Reply): (s': State)
    requires Submitting(s.reader)
  {
    match s.reader
    case CheckFirst => s.(reader := if s.f.cancelRequested then Ended(Interrupted) else Submit)
    case Submit => if reply.Done? then s.(urb := InFlight, reader := SetSubmitted) else s.(reader := Ended(Raised))
    case SetSubmitted => s.(f := s.f.(submitted := true), reader := CheckAgain)
    case CheckAgain => s.(reader := if s.f.cancelRequested then Cancelling(SetRequested, ToReap) else Reap)
  }

  function ReapStep(s: State, reply: Reply, expired: bool): (s': State)
    requires Reaping(s.reader)
  {
    match s.reader
    case Reap => if reply.TryAgain? then s.(reader := CheckAfterReap) else Take(s, reply)
    case CheckAfterReap =>
      s.(reader := if s.f.cancelRequested then FinishCancelled else if expired then SetTimedOut else Reap)
    case SetTimedOut => s.(f := s.f.(timedOut := true), reader := Cancelling(SetRequested, ToFinish))
  }

  function FinishStep(s: State, reply: Reply): (s': State)
    requires InFinish(s.reader)
  {
    match s.reader
    case FinishCancelled => s.(reader := if s.f.discardFailed then FinishErrno else ReapBlocking)
    case FinishErrno =>
      if s.f.failureErrno == Some(EINVAL) || s.f.failureErrno == Some(ENOENT) then s.(reader := ReapOnce)
      else s.(log := s.log.(blind := s.log.blind || s.f.failureErrno.None?), reader := SetReaped(false))
    case ReapBlocking => Take(s, reply)
    case ReapOnce => if reply.TryAgain? then s.(log := s.log.(foundNothing := true), reader := SetReaped(false)) else Take(s, reply)
  }

  /** After the reap: what `read` makes of it. */
  function JudgeStep(s: State): (s': State)
    requires !Submitting(s.reader) && !Reaping(s.reader) && !InFinish(s.reader) && !s.reader.Cancelling?
  {
    match s.reader
    case SetReaped(_) => s.(f := s.f.(reaped := true), reader := CheckTimedOut)
    case CheckTimedOut => s.(reader := if s.f.timedOut then Ended(Empty) else CheckCancelled)
    case CheckCancelled => s.(reader := if s.f.cancelRequested then Ended(Interrupted) else CheckStatus)
    case CheckStatus =>
      var status := if s.urb.Taken? then s.urb.status else 0;
      s.(reader := if status in CANCELLED_STATUSES then Ended(Interrupted)
                   else if status != 0 then Ended(Raised)
                   else Ended(Data(status)))
    case Ended(_) => s
  }

  function OwnCancelStep(s: State, reply: Reply): (s': State)
    requires s.reader.Cancelling?
  {
    var (s', next) := CancelStep(s, s.reader.pc, reply);
    s'.(reader := if next.None? then Ended(Raised)
                  else if !next.value.CancelDone? then Cancelling(next.value, s.reader.resume)
                  else if s.reader.resume.ToReap? then Reap else FinishCancelled)
  }

  function ReadStep(s: State, reply: Reply, expired: bool): (s': State) {
    if Submitting(s.reader) then SubmitStep(s, reply)
    else if s.reader.Cancelling? then OwnCancelStep(s, reply)
    else if Reaping(s.reader) then ReapStep(s, reply, expired)
    else if InFinish(s.reader) then FinishStep(s, reply)
    else JudgeStep(s)
  }

  function Apply(s: State, step: Step): (s': State)
    requires Enabled(s, step)
  {
    match step
    case Reader(reply, expired) => ReadStep(s, reply, expired)
    case CancelCalled => s.(canceller := Some(SetRequested))
    case Canceller(reply) =>
      var (s', next) := CancelStep(s, s.canceller.value, reply);
      s'.(canceller := Some(if next.None? then CancelDone else next.value))
    case KernelCompletes(status) => s.(urb := Completed(status))
  }

  // ----- What every reachable state satisfies

  /** Still has its discard check, or the discard itself, to come. */
  predicate AheadIn(pc: CancelPc) { pc.SetRequested? || pc.Looking? || pc.DiscardIoctl? }

  /** `read` is past the submission, or has just made it, and will look at the cancel flag or at the discard flags. */
  predicate ReaderAhead(pc: ReadPc) {
    pc.SetSubmitted? || pc.CheckAgain? || pc.SetTimedOut? || (pc.Cancelling? && AheadIn(pc.pc))
  }

  /** Between a failed discard and the end of `cancel`. */
  predicate Failing(pc: CancelPc) { pc.SetFailed? || pc.SetErrno? }

  /** `cancel` has found the URB submitted. */
  predicate PastFirstLook(pc: CancelPc) { !pc.SetRequested? && pc != Looking(LookSubmitted) && !pc.CancelDone? }

  predicate BeforeSubmission(pc: ReadPc) { pc.CheckFirst? || pc.Submit? }

  /**
   A URB that is with the kernel, asked to be cancelled and not given up as reaped: a discard has been
   tried, or one of the two threads is still ahead of its discard check.
   */
  ghost predicate CancelNotLost(s: State) {
    (s.urb.InFlight? || s.urb.Completed?) && s.f.cancelRequested && !s.f.reaped ==>
      s.log.attempted || ReaderAhead(s.reader) || (s.canceller.Some? && AheadIn(s.canceller.value))
  }

  ghost predicate Bookkeeping(s: State) {
    && (s.f.discardSubmitted || s.f.discardFailed ==> s.log.attempted)
    && (BeforeSubmission(s.reader) ==> s.urb.NotSubmitted? && !s.f.submitted)
    && (s.urb.NotSubmitted? ==> BeforeSubmission(s.reader) || s.reader.Ended?)
    && (s.reader.SetSubmitted? ==> !s.f.submitted)
    && (!s.f.submitted ==> BeforeSubmission(s.reader) || s.reader.SetSubmitted? || (s.reader.Ended? && s.urb.NotSubmitted?))
    && (s.reader.Cancelling? && (s.reader.pc.SetDiscarded? || Failing(s.reader.pc)) ==> s.log.attempted)
    && (s.canceller.Some? && (s.canceller.value.SetDiscarded? || Failing(s.canceller.value)) ==> s.log.attempted)
    && (s.log.attempted ==> s.f.submitted) && (s.f.submitted ==> !s.urb.NotSubmitted?)
    && (s.reader.Cancelling? && PastFirstLook(s.reader.pc) ==> s.f.submitted)
    && (s.canceller.Some? && PastFirstLook(s.canceller.value) ==> s.f.submitted)
  }

  predicate Finishing(pc: ReadPc) {
    InFinish(pc) || (pc.Cancelling? && !pc.pc.SetRequested?) || (pc.SetReaped? && !pc.own)
  }

  predicate AfterReaping(pc: ReadPc) { pc.CheckTimedOut? || pc.CheckCancelled? || pc.CheckStatus? }

  /** `read` goes on without having taken its URB only once the cancel flag is set. */
  ghost predicate TakenUnlessCancelled(s: State) {
    && (Finishing(s.reader) ==> s.f.cancelRequested)
    && (s.reader.SetReaped? && s.reader.own ==> s.urb.Taken?)
    && (AfterReaping(s.reader) ==> s.f.reaped && (s.urb.Taken? || s.f.cancelRequested))
    && (Submitting(s.reader) || s.reader.CheckCancelled? || s.reader.CheckStatus? ==> !s.f.timedOut)
    && (s.reader.CheckStatus? ==> s.urb.Taken?)
  }

  /** Only these errnos are taken for a failed discard, and ENODEV is on record if it was one. */
  predicate KnownErrno(errno: int, noDevice: bool) {
    errno == EINVAL || errno == ENOENT || (errno == ENODEV && noDevice)
  }

  predicate CarriesKnown(pc: CancelPc, noDevice: bool) { Failing(pc) ==> KnownErrno(pc.errno, noDevice) }

  ghost predicate ErrnosAreKnown(s: State) {
    && (s.f.failureErrno.Some? ==> KnownErrno(s.f.failureErrno.value, s.log.noDevice))
    && (s.reader.Cancelling? ==> CarriesKnown(s.reader.pc, s.log.noDevice))
    && (s.canceller.Some? ==> CarriesKnown(s.canceller.value, s.log.noDevice))
  }

  /** The errno of a failed discard is written, or the thread whose discard failed has just set the flag and writes it next. */
  ghost predicate ErrnoFollows(s: State) {
    && (s.f.discardFailed && s.f.failureErrno.None? ==>
          (s.reader.Cancelling? && s.reader.pc.SetErrno?) || (s.canceller.Some? && s.canceller.value.SetErrno?))
    && (s.reader.FinishErrno? ==> s.f.discardFailed)
  }

  predicate PastReaping(pc: ReadPc) {
    (pc.SetReaped? && !pc.own) || AfterReaping(pc) || (pc.Ended? && pc.outcome != Raised)
  }

  /** What became of the URB once `read` has stopped reaping. */
  ghost predicate Accounted(s: State) {
    && (PastReaping(s.reader) && !s.urb.NotSubmitted? ==> s.urb.Taken? || s.log.foundNothing || s.log.noDevice || s.log.blind)
    && (s.log.blind ==> PastReaping(s.reader) && !s.urb.Taken? && !s.log.foundNothing)
    && (s.log.foundNothing ==> PastReaping(s.reader) || s.reader.Ended?)
    && (s.urb.Taken? ==> s.reader.SetReaped? || AfterReaping(s.reader) || s.reader.Ended?)
  }

  ghost predicate Inv(s: State) {
    Bookkeeping(s) && CancelNotLost(s) && TakenUnlessCancelled(s) && ErrnosAreKnown(s) && ErrnoFollows(s) && Accounted(s)
  }

  // ----- Every step keeps it

  lemma KeptByCanceller(s: State, reply: Reply)
    requires Inv(s) && Enabled(s, Canceller(reply))
    ensures Inv(Apply(s, Canceller(reply)))
  {
    hide ReadStep;
    match s.canceller.value
    case Looking(_) =>
    case DiscardIoctl =>
    case SetFailed(_) =>
    case _ =>
  }

  lemma KeptByOwnLook(s: State, reply: Reply)
    requires Inv(s) && s.reader.Cancelling? && (s.reader.pc.SetRequested? || s.reader.pc.Looking?)
    ensures Inv(OwnCancelStep(s, reply))
  {
  }

  lemma KeptByOwnDiscard(s: State, reply: Reply)
    requires Inv(s) && s.reader.Cancelling? && s.reader.pc.DiscardIoctl?
    ensures Inv(OwnCancelStep(s, reply))
  {
  }

  lemma KeptByOwnFlags(s: State, reply: Reply)
    requires Inv(s) && s.reader.Cancelling? && !s.reader.pc.SetRequested? && !s.reader.pc.Looking? && !s.reader.pc.DiscardIoctl?
    ensures Inv(OwnCancelStep(s, reply))
  {
  }

  lemma KeptByJudge(s: State)
    requires Inv(s) && !Submitting(s.reader) && !Reaping(s.reader) && !InFinish(s.reader) && !s.reader.Cancelling?
    ensures Inv(JudgeStep(s))
  {
  }

  lemma KeptBySubmit(s: State, reply: Reply)
    requires Inv(s) && Submitting(s.reader)
    ensures Inv(SubmitStep(s, reply))
  {
  }

  lemma KeptByReap(s: State, reply: Reply, expired: bool)
    requires Inv(s) && Reaping(s.reader) && (AtReap(s.reader) ==> ReapAnswer(s, reply))
    ensures Inv(ReapStep(s, reply, expired))
  {
  }

  lemma KeptByFinish(s: State, reply: Reply)
    requires Inv(s) && InFinish(s.reader) && (AtReap(s.reader) ==> ReapAnswer(s, reply))
    ensures Inv(FinishStep(s, reply))
  {
  }

  lemma KeptByReader(s: State, reply: Reply, expired: bool)
    requires Inv(s) && Enabled(s, Reader(reply, expired))
    ensures Inv(ReadStep(s, reply, expired))
  {
    hide OwnCancelStep, SubmitStep, ReapStep, FinishStep, JudgeStep, Inv;
    if Submitting(s.reader) {
      KeptBySubmit(s, reply);
    } else if s.reader.Cancelling? {
      if s.reader.pc.SetRequested? || s.reader.pc.Looking? {
        KeptByOwnLook(s, reply);
      } else if s.reader.pc.DiscardIoctl? {
        KeptByOwnDiscard(s, reply);
      } else {
        KeptByOwnFlags(s, reply);
      }
    } else if Reaping(s.reader) {
      KeptByReap(s, reply, expired);
    } else if InFinish(s.reader) {
      KeptByFinish(s, reply);
    } else {
      KeptByJudge(s);
    }
  }

  lemma InvKept(s: State, step: Step)
    requires Inv(s) && Enabled(s, step)
    ensures Inv(Apply(s, step))
  {
    hide ReadStep, CancelStep;
    match step
    case Reader(reply, expired) => KeptByReader(s, reply, expired);
    case Canceller(reply) => KeptByCanceller(s, reply);
    case _ =>
  }

  // ----- Runs

  ghost predicate IsRun(run: seq<State>, steps: seq<Step>) {
    && |run| == |steps| + 1 && run[0] == START
    && forall n :: 0 <= n < |steps| ==> Enabled(run[n], steps[n]) && run[n + 1] == Apply(run[n], steps[n])
  }

  /** No cancel is lost, in any interleaving of `read` and `cancel`. */
  lemma {:induction false} EveryRun(run: seq<State>, steps: seq<Step>, n: nat)
    requires IsRun(run, steps) && n < |run|
    ensures Inv(run[n])
  {
    if n > 0 {
      EveryRun(run, steps, n - 1);
      hide Inv, Apply, Enabled;
      InvKept(run[n - 1], steps[n - 1]);
    } else {
      hide Apply, Enabled;
    }
  }

  /** A `read` that blocks in the kernel waits for a URB whose discard has been tried or is about to be decided on. */
  lemma BlockedReadIsDiscarded(run: seq<State>, steps: seq<Step>, n: nat)
    requires IsRun(run, steps) && n < |run|
    requires run[n].reader == ReapBlocking && !run[n].urb.Taken? && !run[n].f.reaped
    ensures run[n].f.cancelRequested
    ensures run[n].log.attempted || (run[n].canceller.Some? && AheadIn(run[n].canceller.value))
  {
    EveryRun(run, steps, n);
  }

  /** The last two steps of `read` towards data. */
  ghost predicate LastSteps(s: State, s': State) {
    && (s'.reader.CheckStatus? && !s.reader.CheckStatus? ==> s.reader.CheckCancelled? && !s.f.cancelRequested)
    && (s'.reader.Ended? && s'.reader.outcome.Data? && !s.reader.Ended? ==>
          s.reader.CheckStatus? && (s.urb.Taken? ==> s.urb.status == 0))
  }

  lemma LastStepsOf(s: State, step: Step)
    requires Enabled(s, step)
    ensures LastSteps(s, Apply(s, step))
  {
    hide CancelStep;
  }

  /** `read` looks at the status only after it has found the cancel flag clear. */
  lemma {:induction false} ClearWasSeen(run: seq<State>, steps: seq<Step>, n: nat)
    requires IsRun(run, steps) && n < |run| && run[n].reader == CheckStatus
    ensures exists k :: 0 <= k < n && run[k].reader == CheckCancelled && !run[k].f.cancelRequested
  {
    hide Apply, Enabled;
    assert n > 0;
    LastStepsOf(run[n - 1], steps[n - 1]);
    if run[n - 1].reader == CheckStatus {
      ClearWasSeen(run, steps, n - 1);
    }
  }

  /** Data is returned only for this URB, taken back from the kernel with status 0, with no cancel seen. */
  lemma DataIsOwnAndClean(run: seq<State>, steps: seq<Step>, n: nat)
    requires IsRun(run, steps) && n < |steps|
    requires !run[n].reader.Ended? && run[n + 1].reader.Ended? && run[n + 1].reader.outcome.Data?
    ensures run[n].reader == CheckStatus && run[n].urb == Taken(0) && run[n].f.reaped && !run[n].f.timedOut
    ensures exists k :: 0 <= k < n && run[k].reader == CheckCancelled && !run[k].f.cancelRequested
  {
    hide Apply, Enabled;
    EveryRun(run, steps, n);
    LastStepsOf(run[n], steps[n]);
    ClearWasSeen(run, steps, n);
  }

  // ----- A URB is discarded once, and only while that makes sense

  /** It is settled that there is nothing to discard: the URB was reaped, or its discard was made or has failed. */
  predicate NothingToDiscard(f: Flags) { f.reaped || f.discardSubmitted || f.discardFailed }

  /** How far a call of `cancel` gets, if that was settled when it began. */
  predicate GetsNoFurther(f: Flags, pc: CancelPc) {
    || pc.SetRequested? || pc == Looking(LookSubmitted) || pc == Looking(LookReaped) || pc.CancelDone?
    || (pc == Looking(LookDiscarded) && (f.discardSubmitted || f.discardFailed))
    || (pc == Looking(LookFailed) && f.discardFailed)
  }

  lemma FlagsStay(s: State, step: Step)
    requires Enabled(s, step)
    ensures var f, f' := s.f, Apply(s, step).f;
            (f.reaped ==> f'.reaped) && (f.discardSubmitted ==> f'.discardSubmitted) && (f.discardFailed ==> f'.discardFailed)
  {
    hide CancelStep;
    if !step.Reader? { hide ReadStep; }
  }

  lemma CancellerStays(s: State, step: Step)
    requires Enabled(s, step) && !step.Canceller? && !step.CancelCalled?
    ensures Apply(s, step).canceller == s.canceller
  {
    hide CancelStep;
  }

  lemma CancelGetsNoFurther(s: State, reply: Reply)
    requires Enabled(s, Canceller(reply)) && NothingToDiscard(s.f) && GetsNoFurther(s.f, s.canceller.value)
    ensures Apply(s, Canceller(reply)).canceller.Some?
    ensures GetsNoFurther(Apply(s, Canceller(reply)).f, Apply(s, Canceller(reply)).canceller.value)
    ensures Apply(s, Canceller(reply)).log.attempted == s.log.attempted
  {
    hide ReadStep;
  }

  /** A `cancel` that begins when there is nothing to discard makes no ioctl. */
  lemma {:induction false} NoSecondDiscard(run: seq<State>, steps: seq<Step>, a: nat, n: nat)
    requires IsRun(run, steps) && a <= n < |run| && run[a].canceller == Some(SetRequested) && NothingToDiscard(run[a].f)
    requires forall m :: a <= m < n ==> !steps[m].CancelCalled?
    ensures NothingToDiscard(run[n].f) && run[n].canceller.Some? && GetsNoFurther(run[n].f, run[n].canceller.value)
    ensures run[n].canceller.value != DiscardIoctl
    decreases n
  {
    hide Apply, Enabled;
    if a < n {
      NoSecondDiscard(run, steps, a, n - 1);
      FlagsStay(run[n - 1], steps[n - 1]);
      if steps[n - 1].Canceller? {
        CancelGetsNoFurther(run[n - 1], steps[n - 1].reply);
      } else {
        CancellerStays(run[n - 1], steps[n - 1]);
      }
    }
  }

  /** Nothing is discarded that was not submitted. */
  lemma DiscardsWhatWasSubmitted(run: seq<State>, steps: seq<Step>, n: nat)
    requires IsRun(run, steps) && n < |run| && run[n].log.attempted
    ensures run[n].f.submitted && !run[n].urb.NotSubmitted?
  {
    EveryRun(run, steps, n);
  }

  // ----- How `read` ends

  /** `read` has looked at the cancel flag after the reap, and it was clear. */
  ghost predicate SawClear(run: seq<State>, n: nat)
    requires n < |run|
  {
    exists k :: 0 <= k < n && run[k].reader == CheckCancelled && !run[k].f.cancelRequested && run[k + 1].reader != CheckCancelled
  }

  /** `read` finds the cancel flag set, before the submission or after the reap. */
  predicate SeesCancel(s: State) { (s.reader.CheckFirst? || s.reader.CheckCancelled?) && s.f.cancelRequested }

  /** The kernel answers this step of `read` with an error, or the URB was completed with one. */
  predicate MeetsError(s: State, reply: Reply) {
    || (s.reader.Submit? && reply != Done)
    || (s.reader.Cancelling? && s.reader.pc.DiscardIoctl? && reply != Done && reply !in {Failed(EINVAL), Failed(ENODEV), Failed(ENOENT)})
    || (AtReap(s.reader) && reply != Done && reply != TryAgain)
    || (s.reader.CheckStatus? && s.urb.Taken? && s.urb.status != 0 && s.urb.status !in CANCELLED_STATUSES)
  }

  /** The ending step, point by point. */
  ghost predicate EndsAs(s: State, reply: Reply, o: Outcome) {
    && (o.Data? <==> s.reader.CheckStatus? && s.urb == Taken(0))
    && (o.Data? ==> o.status == 0)
    && (o.Empty? <==> s.reader.CheckTimedOut? && s.f.timedOut)
    && (o.Interrupted? <==> SeesCancel(s) || (s.reader.CheckStatus? && s.urb.Taken? && s.urb.status in CANCELLED_STATUSES))
    && (o.Raised? <==> MeetsError(s, reply))
  }

  lemma EndingStep(s: State, reply: Reply, expired: bool)
    requires Inv(s) && Enabled(s, Reader(reply, expired)) && ReadStep(s, reply, expired).reader.Ended?
    ensures EndsAs(s, reply, ReadStep(s, reply, expired).reader.outcome)
  {
    hide Bookkeeping, CancelNotLost, ErrnosAreKnown, ErrnoFollows, Accounted;
    if s.reader.Cancelling? {
      hide SubmitStep, ReapStep, FinishStep, JudgeStep;
    } else {
      hide CancelStep, OwnCancelStep;
    }
  }

  lemma OnlyReaderEnds(s: State, step: Step)
    requires Enabled(s, step) && !step.Reader?
    ensures Apply(s, step).reader == s.reader
  {
    hide ReadStep, CancelStep;
  }

  lemma PassesCheck(s: State, reply: Reply, expired: bool)
    requires s.reader == CheckCancelled || s.reader == CheckStatus
    ensures var r := ReadStep(s, reply, expired).reader;
            r.Ended? || (s.reader == CheckCancelled && !s.f.cancelRequested && r == CheckStatus)
  {
  }

  /** After a clear look there is only the status to judge. */
  lemma {:induction false} AfterClear(run: seq<State>, steps: seq<Step>, n: nat)
    requires IsRun(run, steps) && n < |run| && SawClear(run, n)
    ensures run[n].reader == CheckStatus || run[n].reader.Ended?
  {
    hide Apply, Enabled, ReadStep;
    var k :| 0 <= k < n && run[k].reader == CheckCancelled && !run[k].f.cancelRequested && run[k + 1].reader != CheckCancelled;
    var s, step := run[n - 1], steps[n - 1];
    if k < n - 1 {
      assert SawClear(run, n - 1);
      AfterClear(run, steps, n - 1);
    }
    if step.Reader? {
      OneReadStep(s, step);
      if s.reader == CheckCancelled || s.reader == CheckStatus { PassesCheck(s, step.reply, step.expired); }
    } else {
      OnlyReaderEnds(s, step);
    }
  }

  lemma OneReadStep(s: State, step: Step)
    requires step.Reader? && Enabled(s, step)
    ensures Apply(s, step) == ReadStep(s, step.reply, step.expired) && !s.reader.Ended?
  {
    hide ReadStep;
  }

  lemma StatusMeansClear(run: seq<State>, steps: seq<Step>, n: nat)
    requires IsRun(run, steps) && n < |run| && run[n].reader == CheckStatus
    ensures SawClear(run, n)
    decreases n
  {
    hide Apply, Enabled;
    assert n > 0;
    LastStepsOf(run[n - 1], steps[n - 1]);
    if run[n - 1].reader == CheckStatus {
      StatusMeansClear(run, steps, n - 1);
    }
  }

  /**
   How `read` ends, exactly, in every interleaving: with data if it took its URB back with status 0, had not timed
   out, and found the cancel flag clear; empty if it had timed out; as cancelled if it had not, and saw a cancel or
   the URB was completed as cancelled; and with an error if it met one, and only then.
   */
  lemma ReadEndsExactly(run: seq<State>, steps: seq<Step>, n: nat)
    requires IsRun(run, steps) && n < |steps| && !run[n].reader.Ended? && run[n + 1].reader.Ended?
    ensures steps[n].Reader?
    ensures var s, o := run[n], run[n + 1].reader.outcome;
            var clear, error := SawClear(run, n), MeetsError(s, steps[n].reply);
            && (o == Data(0) <==> s.urb == Taken(0) && !s.f.timedOut && clear)
            && (o == Empty <==> s.f.timedOut && !error)
            && (o == Interrupted <==> !s.f.timedOut && (SeesCancel(s) || (clear && s.urb.Taken? && s.urb.status in CANCELLED_STATUSES)))
            && (o == Raised <==> error)
            && (o == Data(0) || o == Empty || o == Interrupted || o == Raised)
  {
    hide Apply, Enabled, ReadStep;
    var s, step := run[n], steps[n];
    if !step.Reader? { OnlyReaderEnds(s, step); }
    OneReadStep(s, step);
    EveryRun(run, steps, n);
    EndingStep(s, step.reply, step.expired);
    if SawClear(run, n) { AfterClear(run, steps, n); }
    if s.reader == CheckStatus { StatusMeansClear(run, steps, n); }
    hide SawClear, IsRun, Bookkeeping, CancelNotLost, ErrnosAreKnown, ErrnoFollows, Accounted;
  }

  // ----- A read that nothing disturbs

  function Reads(reply: Reply): (s: Step) { Reader(reply, false) }

  /** `read` submits, the URB completes, the reap takes it, and the flags are clear. */
  function Undisturbed(status: int): (steps: seq<Step>) {
    [Reads(Done), Reads(Done), Reads(Done), Reads(Done), KernelCompletes(status),
     Reads(Done), Reads(Done), Reads(Done), Reads(Done), Reads(Done)]
  }

  /** Such a `read` ends: with data if the URB was completed with status 0, as cancelled or with an error otherwise. */
  lemma UndisturbedReadEnds(status: int) returns (run: seq<State>)
    ensures IsRun(run, Undisturbed(status))
    ensures run[10].reader == Ended(if status == 0 then Data(0) else if status in CANCELLED_STATUSES then Interrupted else Raised)
  {
    hide Enabled, Apply;
    var a := FirstHalf(status);
    var b := SecondHalf(status);
    LeadsOn(a, Undisturbed(status)[..5], b, Undisturbed(status)[5..]);
    assert Undisturbed(status)[..5] + Undisturbed(status)[5..] == Undisturbed(status);
    run := a + b[1..];
  }

  function Reapable(status: int): (s: State) {
    State(Flags(true, false, false, false, false, None, false), Completed(status), Reap, None, Log(false, false, false, false))
  }

  lemma FirstHalf(status: int) returns (s: seq<State>)
    ensures Leads(s, Undisturbed(status)[..5]) && s[0] == START && s[5] == Reapable(status)
  {
    hide CancelStep;
    var s1 := START.(reader := Submit);
    var s2 := s1.(urb := InFlight, reader := SetSubmitted);
    var s3 := s2.(f := s2.f.(submitted := true), reader := CheckAgain);
    s := [START, s1, s2, s3, s3.(reader := Reap), Reapable(status)];
  }

  lemma SecondHalf(status: int) returns (s: seq<State>)
    ensures Leads(s, Undisturbed(status)[5..]) && s[0] == Reapable(status)
    ensures s[5].reader == Ended(if status == 0 then Data(0) else if status in CANCELLED_STATUSES then Interrupted else Raised)
  {
    hide CancelStep;
    var s1 := Reapable(status).(urb := Taken(status), reader := SetReaped(true));
    var s2 := s1.(f := s1.f.(reaped := true), reader := CheckTimedOut);
    var s4 := s2.(reader := CheckStatus);
    s := [Reapable(status), s1, s2, s2.(reader := CheckCancelled), s4, Apply(s4, Reads(Done))];
  }

  /** `read` found nothing, no cancel, and its deadline passed. */
  predicate Expires(s: State, step: Step) { step.Reader? && step.expired && s.reader == CheckAfterReap && !s.f.cancelRequested }

  lemma TimeoutStep(s: State, step: Step)
    requires Enabled(s, step)
    ensures Apply(s, step).reader == SetTimedOut ==> s.reader == SetTimedOut || Expires(s, step)
    ensures Expires(s, step) ==> Apply(s, step).reader == SetTimedOut
    ensures Apply(s, step).f.timedOut ==> s.f.timedOut || s.reader == SetTimedOut
    ensures s.reader == SetTimedOut ==> Apply(s, step).reader == SetTimedOut || Apply(s, step).f.timedOut
  {
    hide CancelStep;
  }

  /** Nothing times out before its deadline. */
  lemma {:induction false} TimeoutHasItsReason(run: seq<State>, steps: seq<Step>, n: nat)
    requires IsRun(run, steps) && n < |run| && (run[n].f.timedOut || run[n].reader == SetTimedOut)
    ensures exists k :: 0 <= k < n && Expires(run[k], steps[k])
  {
    hide Apply, Enabled, Expires;
    TimeoutStep(run[n - 1], steps[n - 1]);
    if run[n - 1].f.timedOut || run[n - 1].reader == SetTimedOut {
      TimeoutHasItsReason(run, steps, n - 1);
    }
  }

  /** `read` submits and polls until its deadline. */
  const WAITS: seq<Step> := [Reads(Done), Reads(Done), Reads(Done), Reads(Done), Reads(TryAgain), Reader(Done, true), Reads(Done)]
  /** It cancels its own URB and discards it. */
  const DISCARDS: seq<Step> := [Reads(Done), Reads(Done), Reads(Done), Reads(Done), Reads(Done), Reads(Done), Reads(Done)]
  /** The URB comes back, and `read` returns empty. */
  const RETURNS: seq<Step> := [Reads(Done), KernelCompletes(-2), Reads(Done), Reads(Done), Reads(Done)]

  const EXPIRED := State(Flags(true, false, false, false, false, None, true), InFlight, Cancelling(SetRequested, ToFinish), None, Log(false, false, false, false))
  const DISCARDED := State(Flags(true, false, true, true, false, None, true), InFlight, FinishCancelled, None, Log(true, false, false, false))
  const EMPTIED := State(Flags(true, true, true, true, false, None, true), Taken(-2), Ended(Empty), None, Log(true, false, false, false))

  lemma WaitsLeads() returns (s: seq<State>)
    ensures Leads(s, WAITS) && s[0] == START && s[7] == EXPIRED
  {
    var s1 := START.(reader := Submit);
    var s2 := s1.(urb := InFlight, reader := SetSubmitted);
    var s3 := s2.(f := s2.f.(submitted := true), reader := CheckAgain);
    s := [START, s1, s2, s3, s3.(reader := Reap), s3.(reader := CheckAfterReap), s3.(reader := SetTimedOut), EXPIRED];
    hide CancelStep;
  }

  lemma DiscardsLeads() returns (s: seq<State>)
    ensures Leads(s, DISCARDS) && s[0] == EXPIRED && s[7] == DISCARDED
  {
    var s1 := EXPIRED.(f := EXPIRED.f.(cancelRequested := true), reader := Cancelling(Looking(LookSubmitted), ToFinish));
    var s2 := s1.(reader := Cancelling(Looking(LookReaped), ToFinish));
    var s3 := s1.(reader := Cancelling(Looking(LookDiscarded), ToFinish));
    var s4 := s1.(reader := Cancelling(Looking(LookFailed), ToFinish));
    var s5 := s1.(reader := Cancelling(DiscardIoctl, ToFinish));
    var s6 := s1.(reader := Cancelling(SetDiscarded, ToFinish), log := Log(true, false, false, false));
    s := [EXPIRED, s1, s2, s3, s4, s5, s6, DISCARDED];
    hide SubmitStep, ReapStep, FinishStep, JudgeStep;
  }

  lemma ReturnsLeads() returns (s: seq<State>)
    ensures Leads(s, RETURNS) && s[0] == DISCARDED && s[5] == EMPTIED
  {
    var s1 := DISCARDED.(reader := ReapBlocking);
    var s2 := s1.(urb := Completed(-2));
    var s3 := s1.(urb := Taken(-2), reader := SetReaped(true));
    s := [DISCARDED, s1, s2, s3, EMPTIED.(reader := CheckTimedOut), EMPTIED];
    hide CancelStep;
  }

  /** A `read` whose deadline passes discards its URB, takes it back, and returns empty. */
  lemma ExpiredReadReturns() returns (run: seq<State>)
    ensures IsRun(run, WAITS + DISCARDS + RETURNS) && run[|run| - 1] == EMPTIED
  {
    hide Enabled, Apply;
    var a := WaitsLeads();
    var b := DiscardsLeads();
    var c := ReturnsLeads();
    LeadsOn(a, WAITS, b, DISCARDS);
    LeadsOn(a + b[1..], WAITS + DISCARDS, c, RETURNS);
    run := a + b[1..] + c[1..];
  }

  // ----- What becomes of the URB

  /** `read` looks for the errno while the cancelling thread stands between its two writes. */
  predicate LooksBetween(s: State, step: Step) {
    step.Reader? && s.reader.FinishErrno? && s.f.failureErrno.None? && s.canceller.Some? && s.canceller.value.SetErrno?
  }

  lemma BlindStep(s: State, step: Step)
    requires Enabled(s, step) && ErrnoFollows(s)
    ensures Apply(s, step).log.blind <==> s.log.blind || LooksBetween(s, step)
  {
    hide CancelStep;
  }

  lemma {:induction false} BlindExactly(run: seq<State>, steps: seq<Step>, n: nat)
    requires IsRun(run, steps) && n < |run|
    ensures run[n].log.blind <==> exists k :: 0 <= k < n && LooksBetween(run[k], steps[k])
  {
    hide Apply, Enabled, LooksBetween;
    if n > 0 {
      BlindExactly(run, steps, n - 1);
      EveryRun(run, steps, n - 1);
      BlindStep(run[n - 1], steps[n - 1]);
      hide Inv;
    }
  }

  /**
   A `read` that ends without raising has taken its URB back, or a last reap found nothing, or the device is
   gone, except in one case, exactly: it looked for the errno of the failed discard while the cancelling
   thread had set the flag and not yet the errno, and that errno is not ENODEV.
   */
  lemma UrbIsAccountedForExactly(run: seq<State>, steps: seq<Step>, n: nat)
    requires IsRun(run, steps) && n < |run|
    requires run[n].reader.Ended? && run[n].reader.outcome != Raised && !run[n].urb.NotSubmitted?
    ensures run[n].urb.Taken? || run[n].log.foundNothing || run[n].log.noDevice
            <==> !(exists k :: 0 <= k < n && LooksBetween(run[k], steps[k])) || run[n].log.noDevice
  {
    EveryRun(run, steps, n);
    BlindExactly(run, steps, n);
  }

  /** The states that steps lead through, if each can be taken. */
  ghost predicate Leads(states: seq<State>, steps: seq<Step>) {
    && |states| == |steps| + 1
    && forall n :: 0 <= n < |steps| ==> Enabled(states[n], steps[n]) && states[n + 1] == Apply(states[n], steps[n])
  }

  // A run: `read` submits and polls once; the URB completes; `cancel` comes too late to discard it; `read` looks for the errno too early.
  const SUBMITS: seq<Step> := [Reads(Done), Reads(Done), Reads(Done), Reads(Done), Reads(TryAgain), KernelCompletes(0), CancelCalled]
  const CANCELS: seq<Step> := [Canceller(Done), Canceller(Done), Canceller(Done), Canceller(Done), Canceller(Done), Canceller(Failed(EINVAL)), Canceller(Done)]
  const GIVES_UP: seq<Step> := [Reads(Done), Reads(Done), Reads(Done), Reads(Done), Reads(Done), Reads(Done)]

  const SUBMITTED := State(Flags(true, false, false, false, false, None, false), Completed(0), CheckAfterReap, Some(SetRequested),
                           Log(false, false, false, false))
  const HALFWAY := State(Flags(true, false, true, false, true, None, false), Completed(0), CheckAfterReap, Some(SetErrno(EINVAL)),
                         Log(true, false, false, false))
  const ABANDONED := State(Flags(true, true, true, false, true, None, false), Completed(0), Ended(Interrupted), Some(SetErrno(EINVAL)),
                           Log(true, false, false, true))

  lemma SubmitsLeads() returns (s: seq<State>)
    ensures Leads(s, SUBMITS) && s[0] == START && s[7] == SUBMITTED
  {
    var s1 := START.(reader := Submit);
    var s2 := s1.(urb := InFlight, reader := SetSubmitted);
    var s3 := s2.(f := s2.f.(submitted := true), reader := CheckAgain);
    var s4 := s3.(reader := Reap);
    var s5 := s4.(reader := CheckAfterReap);
    var s6 := s5.(urb := Completed(0));
    s := [START, s1, s2, s3, s4, s5, s6, SUBMITTED];
    hide CancelStep;
  }

  lemma CancelsLeads() returns (s: seq<State>)
    ensures Leads(s, CANCELS) && s[0] == SUBMITTED && s[7] == HALFWAY
  {
    var s1 := SUBMITTED.(f := SUBMITTED.f.(cancelRequested := true), canceller := Some(Looking(LookSubmitted)));
    var s2 := s1.(canceller := Some(Looking(LookReaped)));
    var s3 := s1.(canceller := Some(Looking(LookDiscarded)));
    var s4 := s1.(canceller := Some(Looking(LookFailed)));
    var s5 := s1.(canceller := Some(DiscardIoctl));
    var s6 := s1.(canceller := Some(SetFailed(EINVAL)), log := Log(true, false, false, false));
    s := [SUBMITTED, s1, s2, s3, s4, s5, s6, HALFWAY];
    hide ReadStep;
  }

  lemma GivesUpLeads() returns (s: seq<State>)
    ensures Leads(s, GIVES_UP) && s[0] == HALFWAY && s[6] == ABANDONED
  {
    var s1 := HALFWAY.(reader := FinishCancelled);
    var s2 := HALFWAY.(reader := FinishErrno);
    var s3 := ABANDONED.(f := HALFWAY.f, reader := SetReaped(false));
    var s4 := ABANDONED.(reader := CheckTimedOut);
    var s5 := ABANDONED.(reader := CheckCancelled);
    s := [HALFWAY, s1, s2, s3, s4, s5, ABANDONED];
    hide CancelStep;
  }

  lemma LeadsOn(a: seq<State>, s: seq<Step>, b: seq<State>, t: seq<Step>)
    requires Leads(a, s) && Leads(b, t) && a[|s|] == b[0]
    ensures Leads(a + b[1..], s + t) && (a + b[1..])[|s| + |t|] == b[|t|]
  {
    hide Enabled, Apply;
    var c, u := a + b[1..], s + t;
    forall n | 0 <= n < |u| ensures Enabled(c[n], u[n]) && c[n + 1] == Apply(c[n], u[n]) {
      if n < |s| {
        assert c[n] == a[n] && c[n + 1] == a[n + 1];
      } else {
        assert c[n] == b[n - |s|] && c[n + 1] == b[n - |s| + 1];
      }
    }
  }

  /** That case does occur: `read` ends as cancelled, and its completed URB stays with the kernel. */
  lemma UrbCanBeAbandoned() returns (run: seq<State>)
    ensures IsRun(run, SUBMITS + CANCELS + GIVES_UP) && run[|run| - 1] == ABANDONED
  {
    hide Enabled, Apply;
    var a := SubmitsLeads();
    var b := CancelsLeads();
    var c := GivesUpLeads();
    LeadsOn(a, SUBMITS, b, CANCELS);
    LeadsOn(a + b[1..], SUBMITS + CANCELS, c, GIVES_UP);
    run := a + b[1..] + c[1..];
  }
}
