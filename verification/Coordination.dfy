/**
 The whole of `DatastoreCoordinator` in motu_proxy/datastore.py as an interleaving: the arbitration of the
 pipe, the ETag history, a device that changes at any time, foreground threads, the poller and its early
 copy of the latest ETag, and clients that keep a copy of the datastore.
 */
module Coordination {
  import opened Wrappers
  import opened Arbitration
  import opened Cache

  /** What a foreground thread holds the pipe for: a read of the poll path, of another path, or a post and its refresh. */
  datatype Purpose = ReadPoll | ReadOther | PostAndRefresh(client: Option<string>)

  /** The response a foreground thread has, and whether it has published it. */
  datatype Local = Local(purpose: Purpose, response: Option<Payload>, published: bool)

  datatype Client = Client(etag: Etag, copy: Store, name: Option<string>)

  datatype World = World(
    arb: System, shelf: Shelf, device: Device,
    locals: map<ThreadId, Local>,
    copied: Option<Etag>,               // the poller's copy of the latest ETag
    polled: Option<Payload>,            // the poller's response
    clients: map<ThreadId, Client>)

  datatype Move =
    | DeviceChanges(next: Store, author: Option<string>)
    | Arbitrate(step: Step)                                  // a step that moves no response
    | Begin(thread: ThreadId, purpose: Purpose, expired: bool)
    | Renew(states: seq<Store>, authors: seq<Option<string>>) // an operation of the thread that holds the pipe opens a new session
    | Notice                                                 // and notices it
    | Fetch(thread: ThreadId, answer: Payload)
    | PublishIt(thread: ThreadId)
    | Finish(thread: ThreadId)                               // with or without a response
    | PollCopy
    | PollBegin
    | PollFetch(answer: Payload)
    | PollPublish
    | PollFinish
    | GiveTransition(thread: ThreadId)                       // `wait_for_change` returns from the history

  predicate Inert(step: Step) {
    step.Wake? || step.Install? || step.Uninstall? || step.PollerCancel? || step.CloseCall? || step.CloserCancel?
  }

  predicate HoldsPipe(w: World, t: ThreadId) { t in w.arb.foreground && w.arb.foreground[t].Holding? }

  /** No thread has a response in hand that it has yet to publish or drop. */
  ghost predicate NoResponse(w: World) {
    w.polled.None? && forall t :: t in w.locals ==> w.locals[t].response.None?
  }

  ghost predicate CanMove(w: World, m: Move) {
    match m
    case DeviceChanges(next, _) => |w.device.states| > 0 && w.device.states[|w.device.states| - 1].Keys <= next.Keys
    case Arbitrate(step) => Inert(step) && Enabled(w.arb, step)
    case Begin(t, _, expired) => Enabled(w.arb, Enter(t, expired))
    case Renew(states, authors) => w.arb.shared.busy && NoResponse(w) && DeviceOk(Device(0, states, authors))
    case Notice => w.arb.shared.busy
    case Fetch(t, answer) =>
      && HoldsPipe(w, t) && t in w.locals && w.locals[t].response.None?
      && answer.gen == w.device.gen
      && (w.locals[t].purpose != ReadOther ==> FullAnswerOk(answer, w.device) && (answer.etag.Some? ==> answer.etag.value == Now(w.device)))
    case PublishIt(t) => HoldsPipe(w, t) && t in w.locals && w.locals[t].response.Some? && !w.locals[t].published
    case Finish(t) => HoldsPipe(w, t) && t in w.locals
    case PollCopy => w.arb.poller == Outside
    case PollBegin => w.copied.Some? && Enabled(w.arb, PollerEnter)
    case PollFetch(answer) =>
      && w.arb.poller.Inside? && w.copied.Some? && w.polled.None?
      && answer.gen == w.device.gen
      && (answer.etag.Some? ==> answer.etag.value == Now(w.device))
      && (w.copied.value <= Now(w.device) ==> PollAnswerOk(answer, w.copied.value, w.device))
    case PollPublish => w.arb.poller.Inside? && w.copied.Some? && w.polled.Some?
    case PollFinish => Enabled(w.arb, PollerLeave)
    case GiveTransition(t) =>
      t in w.clients && t !in w.arb.foreground && WaitOutcome(w.shelf, w.clients[t].etag, w.clients[t].name).0.Some?
  }

  function Merge(c: Client, etag: Etag, body: Store): (c': Client) {
    Client(etag, c.copy + body, c.name)
  }

  function Origin(p: Purpose): (o: Option<string>) { if p.PostAndRefresh? then p.client else None }

  /** What a thread has to offer its client when it is done. */
  function Delivered(w: World, t: ThreadId): (p: Option<Payload>)
    requires t in w.locals
  {
    if w.locals[t].published && w.locals[t].purpose == ReadPoll then w.locals[t].response else None
  }

  function Changed(d: Device, next: Store, author: Option<string>): (d': Device) {
    d.(states := d.states + [next], authors := d.authors + [author])
  }

  ghost function Go(w: World, m: Move, size: nat): (w': World)
    requires CanMove(w, m)
  {
    match m
    case DeviceChanges(next, author) => w.(device := Changed(w.device, next, author))
    case Arbitrate(step) => w.(arb := Apply(w.arb, step))
    case Begin(t, purpose, expired) =>
      w.(arb := Apply(w.arb, Enter(t, expired)), locals := w.locals[t := Local(purpose, None, false)])
    case Renew(states, authors) => w.(device := Device(w.device.gen + 1, states, authors))
    case Notice => w.(shelf := ResetFor(w.shelf, w.device.gen))
    case Fetch(t, answer) => w.(locals := w.locals[t := w.locals[t].(response := Some(answer))])
    case PublishIt(t) =>
      var l := w.locals[t];
      w.(shelf := Publish(ResetFor(w.shelf, w.device.gen), l.response.value, Origin(l.purpose), None, l.purpose != ReadOther, size),
         locals := w.locals[t := l.(published := true)])
    case Finish(t) =>
      var p := Delivered(w, t);
      w.(arb := Apply(w.arb, LeaveForeground(t)),
         locals := w.locals - {t},
         clients := if p.Some? && p.value.etag.Some? && t in w.clients
                    then w.clients[t := Merge(w.clients[t], p.value.etag.value, p.value.body)] else w.clients)
    case PollCopy => w.(copied := Some(if w.shelf.latest.Some? then w.shelf.latest.value else 0))
    case PollBegin => w.(arb := Apply(w.arb, PollerEnter), polled := None)
    case PollFetch(answer) => w.(polled := Some(answer))
    case PollPublish =>
      w.(shelf := Publish(ResetFor(w.shelf, w.device.gen), w.polled.value, None, w.copied, true, size), polled := None)
    case PollFinish => w.(arb := Apply(w.arb, PollerLeave), copied := None, polled := None)
    case GiveTransition(t) =>
      var c := w.clients[t];
      var given := WaitOutcome(w.shelf, c.etag, c.name).0.value;
      w.(clients := w.clients[t := Merge(c, given.to, given.body)])
  }

  // ----- Who has what

  ghost predicate Structured(w: World) {
    && Inv(w.arb)
    && (forall t :: t in w.locals && w.locals[t].response.Some? ==> HoldsPipe(w, t))
    && (forall t :: t in w.locals && w.locals[t].published ==> w.locals[t].response.Some?)
    && (w.polled.Some? ==> w.arb.poller.Inside?)
    && (w.arb.poller.Inside? ==> w.copied.Some?)
  }

  /** Only one thread is between its read and its publication. */
  lemma OneResponse(w: World, t: ThreadId)
    requires Structured(w) && HoldsPipe(w, t)
    ensures w.polled.None?
    ensures forall u :: u in w.locals && w.locals[u].response.Some? ==> u == t
  {
    var holders := Holders(w.arb.foreground);
    assert t in holders;
    forall u | u in w.locals && w.locals[u].response.Some? ensures u == t {
      assert u in holders;
      if u != t { TwoIsTwo(holders, t, u); }
    }
  }

  lemma TwoIsTwo(s: set<ThreadId>, t: ThreadId, u: ThreadId)
    requires t in s && u in s && t != u
    ensures |s| >= 2
  {
    assert s == (s - {t, u}) + {t, u};
  }

  lemma PollerResponse(w: World)
    requires Structured(w) && w.arb.poller.Inside?
    ensures forall u :: u in w.locals ==> w.locals[u].response.None?
  {
    assert Holders(w.arb.foreground) == {};
    forall u | u in w.locals ensures w.locals[u].response.None? {
      assert HoldsPipe(w, u) ==> u in Holders(w.arb.foreground);
    }
  }

  lemma StructuredKept(w: World, m: Move, size: nat)
    requires Structured(w) && CanMove(w, m)
    ensures Structured(Go(w, m, size))
  {
    hide Inv, Enabled, Apply, Publish, ResetFor, WaitOutcome, FullAnswerOk, PollAnswerOk, DeviceOk;
    var step := ArbStep(m);
    if step.Some? {
      ArbStepKeeps(w, m, step.value);
      InvKept(w.arb, step.value);
    }
    if m.Finish? { OneResponse(w, m.thread); }
    if m.Begin? { NewThread(w.arb, m.thread, m.expired); }
    if m.PollBegin? || m.PollFinish? { PollerMoves(w.arb); }
  }

  /** The arbitration step in a move, if there is one. */
  function ArbStep(m: Move): (s: Option<Step>) {
    match m
    case Arbitrate(step) => Some(step)
    case Begin(t, _, expired) => Some(Enter(t, expired))
    case Finish(t) => Some(LeaveForeground(t))
    case PollBegin => Some(PollerEnter)
    case PollFinish => Some(PollerLeave)
    case _ => None
  }

  lemma NewThread(a: System, t: ThreadId, expired: bool)
    requires Enabled(a, Enter(t, expired))
    ensures t !in a.foreground
  {
  }

  lemma PollerMoves(a: System)
    ensures Enabled(a, PollerEnter) ==> Apply(a, PollerEnter).poller.Inside?
    ensures Enabled(a, PollerLeave) ==> a.poller.Inside? && !Apply(a, PollerLeave).poller.Inside?
  {
  }

  /** No arbitration step takes the pipe from another thread that holds it. */
  lemma ArbStepKeeps(w: World, m: Move, step: Step)
    requires CanMove(w, m) && ArbStep(m) == Some(step)
    ensures Enabled(w.arb, step)
    ensures var a := Apply(w.arb, step);
            && (forall t :: HoldsPipe(w, t) && step != LeaveForeground(t) ==> t in a.foreground && a.foreground[t].Holding?)
            && (step != PollerEnter && step != PollerLeave ==> (a.poller.Inside? <==> w.arb.poller.Inside?))
  {
    assert Enabled(w.arb, step);
    HoldersStay(w.arb, step);
  }

  lemma HoldersStay(a: System, step: Step)
    requires Enabled(a, step)
    ensures forall t :: t in a.foreground && a.foreground[t].Holding? && step != LeaveForeground(t)
                        ==> t in Apply(a, step).foreground && Apply(a, step).foreground[t].Holding?
    ensures step != PollerEnter && step != PollerLeave ==> (Apply(a, step).poller.Inside? <==> a.poller.Inside?)
  {
    hide ForegroundPass, PollerPass, SetActive, Close, Release, Add;
  }

  // ----- Generation safety, whatever sessions come and go

  ghost predicate ShelfOfOneGeneration(s: Shelf, size: nat) {
    && (s.latest.None? ==> s.history == [])
    && (s.latest.Some? ==> s.latestGen == s.generation)
    && (forall i :: 0 <= i < |s.history| ==> s.history[i].gen == s.generation && s.history[i].from != s.history[i].to)
    && |s.history| <= size
  }

  /** Everything on the shelf came from the recorded session, and every response in hand from the present one. */
  ghost predicate GenerationSafe(w: World, size: nat) {
    && ShelfOfOneGeneration(w.shelf, size)
    && (forall t :: t in w.locals && w.locals[t].response.Some? ==> w.locals[t].response.value.gen == w.device.gen)
    && (w.polled.Some? ==> w.polled.value.gen == w.device.gen)
  }

  lemma PublishKeepsGeneration(s: Shelf, p: Payload, gen: nat, origin: Option<string>, from: Option<Etag>, record: bool, size: nat)
    requires ShelfOfOneGeneration(s, size) && p.gen == gen
    ensures ShelfOfOneGeneration(ResetFor(s, gen), size)
    ensures ShelfOfOneGeneration(Publish(ResetFor(s, gen), p, origin, from, record, size), size)
    ensures Publish(ResetFor(s, gen), p, origin, from, record, size).generation == gen
    ensures !record ==> Publish(ResetFor(s, gen), p, origin, from, record, size) == ResetFor(s, gen)
  {
  }

  lemma GenerationSafeKept(w: World, m: Move, size: nat)
    requires Structured(w) && GenerationSafe(w, size) && CanMove(w, m)
    ensures GenerationSafe(Go(w, m, size), size)
  {
    hide Inv, Enabled, Apply, Publish, ResetFor, WaitOutcome, FullAnswerOk, PollAnswerOk, DeviceOk, ShelfOfOneGeneration;
    match m
    case Notice => PublishKeepsGeneration(w.shelf, Payload(map[], None, false, w.device.gen), w.device.gen, None, None, false, size);
    case PublishIt(t) =>
      var l := w.locals[t];
      PublishKeepsGeneration(w.shelf, l.response.value, w.device.gen, Origin(l.purpose), None, l.purpose != ReadOther, size);
    case PollPublish => PublishKeepsGeneration(w.shelf, w.polled.value, w.device.gen, None, w.copied, true, size);
    case _ =>
  }

  // ----- Sound copies, as long as the session lasts

  ghost predicate PollerSound(w: World) {
    && (w.copied.Some? ==> CopyOk(w.copied.value, w.shelf))
    && (w.polled.Some? ==> w.copied.Some? && PollAnswerOk(w.polled.value, w.copied.value, w.device) && NotAhead(w.shelf, w.polled.value))
  }

  ghost predicate LocalSound(w: World, t: ThreadId)
    requires t in w.locals
  {
    var l := w.locals[t];
    l.response.Some? && l.purpose != ReadOther ==>
      && FullAnswerOk(l.response.value, w.device)
      && (!l.published ==> NotAhead(w.shelf, l.response.value))
      && (t in w.clients && l.response.value.etag.Some? ==> w.clients[t].etag <= l.response.value.etag.value)
  }

  ghost predicate LocalsSound(w: World) { forall t :: t in w.locals ==> LocalSound(w, t) }

  /** Every client has exactly the device's state at the ETag it holds. */
  ghost predicate ClientsSound(w: World) {
    forall t :: t in w.clients ==> w.clients[t].etag <= Now(w.device) && w.clients[t].copy == w.device.states[w.clients[t].etag]
  }

  ghost predicate AllSound(w: World, size: nat) {
    Sound(w.shelf, w.device, size) && PollerSound(w) && LocalsSound(w) && ClientsSound(w)
  }

  lemma ResetIsHarmless(s: Shelf, d: Device, size: nat)
    requires Sound(s, d, size)
    ensures var s' := ResetFor(s, d.gen);
            Sound(s', d, size) && s'.generation == d.gen && s'.latest == s.latest && s'.history == s.history
  {
  }

  lemma GrowthKeepsShelf(s: Shelf, d: Device, next: Store, author: Option<string>, size: nat)
    requires Sound(s, d, size) && d.states[|d.states| - 1].Keys <= next.Keys
    ensures Sound(s, Changed(d, next, author), size)
  {
    var d' := Changed(d, next, author);
    forall i | 0 <= i < |s.history| ensures EntryOk(s.history[i], d') {
      assert EntryOk(s.history[i], d);
    }
  }

  lemma DeviceChangesKept(w: World, next: Store, author: Option<string>, size: nat)
    requires AllSound(w, size) && CanMove(w, DeviceChanges(next, author))
    ensures AllSound(Go(w, DeviceChanges(next, author), size), size)
  {
    var w' := Go(w, DeviceChanges(next, author), size);
    GrowthKeepsShelf(w.shelf, w.device, next, author, size);
    hide Sound, IsDelta, CopyOk;
    forall t | t in w'.locals ensures LocalSound(w', t) { assert LocalSound(w, t); }
  }

  lemma PublishItKept(w: World, t: ThreadId, size: nat)
    requires Structured(w) && AllSound(w, size) && CanMove(w, PublishIt(t))
    ensures AllSound(Go(w, PublishIt(t), size), size)
  {
    var w', l := Go(w, PublishIt(t), size), w.locals[t];
    OneResponse(w, t);
    assert LocalSound(w, t);
    ResetIsHarmless(w.shelf, w.device, size);
    if l.purpose != ReadOther {
      ForegroundPublishKeeps(ResetFor(w.shelf, w.device.gen), w.device, l.response.value, Origin(l.purpose), size, w.copied);
    }
    hide Structured, Sound, Publish, ResetFor, FullAnswerOk, CopyOk;
    forall u | u in w'.locals ensures LocalSound(w', u) { assert LocalSound(w, u); }
  }

  lemma PollPublishKept(w: World, size: nat)
    requires Structured(w) && AllSound(w, size) && CanMove(w, PollPublish)
    ensures AllSound(Go(w, PollPublish, size), size)
  {
    var w' := Go(w, PollPublish, size);
    PollerResponse(w);
    ResetIsHarmless(w.shelf, w.device, size);
    PollerPublishKeeps(ResetFor(w.shelf, w.device.gen), w.device, w.polled.value, w.copied.value, size);
    hide Structured, Sound, Publish, ResetFor, FullAnswerOk, CopyOk, PollAnswerOk;
    forall u | u in w'.locals ensures LocalSound(w', u) { assert LocalSound(w, u); }
  }

  lemma FinishKept(w: World, t: ThreadId, size: nat)
    requires Structured(w) && AllSound(w, size) && CanMove(w, Finish(t))
    ensures AllSound(Go(w, Finish(t), size), size)
  {
    var w', p := Go(w, Finish(t), size), Delivered(w, t);
    assert LocalSound(w, t);
    if p.Some? && p.value.etag.Some? && t in w.clients {
      var d, c, e := w.device, w.clients[t], p.value.etag.value;
      FullIsDelta(d, c.etag, e);
      MergeDelta(d.states[e], d.states[c.etag], d.states[e]);
    }
    OneResponse(w, t);
    hide Structured, Sound, FullAnswerOk, CopyOk, PollAnswerOk, Apply, Enabled;
    forall u | u in w'.locals ensures LocalSound(w', u) { assert LocalSound(w, u); }
  }

  /** A client that is not in the middle of a read may move to another state that the device has had. */
  lemma ClientMoves(w: World, t: ThreadId, c: Client, size: nat)
    requires AllSound(w, size) && (t in w.locals ==> w.locals[t].response.None?)
    requires c.etag <= Now(w.device) && c.copy == w.device.states[c.etag]
    ensures AllSound(w.(clients := w.clients[t := c]), size)
  {
    var w' := w.(clients := w.clients[t := c]);
    hide Sound, FullAnswerOk, CopyOk, PollAnswerOk, NotAhead;
    forall u | u in w'.locals ensures LocalSound(w', u) { assert LocalSound(w, u); }
  }

  lemma GiveTransitionKept(w: World, t: ThreadId, size: nat)
    requires Structured(w) && AllSound(w, size) && CanMove(w, GiveTransition(t))
    ensures AllSound(Go(w, GiveTransition(t), size), size)
  {
    hide Sound, WaitOutcome, Inv, PollerSound, LocalsSound;
    var c := w.clients[t];
    var given := WaitOutcome(w.shelf, c.etag, c.name).0.value;
    CachedTransitionIsSound(w.shelf, w.device, size, c.etag, c.copy, c.name);
    ClientMoves(w, t, Merge(c, given.to, given.body), size);
  }

  lemma FetchKept(w: World, t: ThreadId, answer: Payload, size: nat)
    requires Structured(w) && AllSound(w, size) && CanMove(w, Fetch(t, answer))
    ensures AllSound(Go(w, Fetch(t, answer), size), size)
  {
    var w' := Go(w, Fetch(t, answer), size);
    hide Structured, DeviceOk, Ordered, FullAnswerOk, CopyOk, PollAnswerOk, EntryOk;
    forall u | u in w'.locals ensures LocalSound(w', u) { assert LocalSound(w, u) by { assert u in w.locals; } }
  }

  lemma PollCopyKept(w: World, size: nat)
    requires Structured(w) && AllSound(w, size) && CanMove(w, PollCopy)
    ensures AllSound(Go(w, PollCopy, size), size)
  {
    var w' := Go(w, PollCopy, size);
    assert w.polled.None?;
    forall u | u in w'.locals ensures LocalSound(w', u) { assert LocalSound(w, u); }
  }

  /** Without a new session, every move keeps everything sound. */
  lemma AllSoundKept(w: World, m: Move, size: nat)
    requires Structured(w) && AllSound(w, size) && CanMove(w, m) && !m.Renew?
    ensures AllSound(Go(w, m, size), size)
  {
    hide Structured, Enabled, Apply, Publish, ResetFor, WaitOutcome, FullAnswerOk, PollAnswerOk, CopyOk, Sound;
    var w' := Go(w, m, size);
    match m
    case DeviceChanges(next, author) => DeviceChangesKept(w, next, author, size);
    case PublishIt(t) => PublishItKept(w, t, size);
    case PollPublish => PollPublishKept(w, size);
    case Finish(t) => FinishKept(w, t, size);
    case GiveTransition(t) => GiveTransitionKept(w, t, size);
    case Fetch(t, answer) => FetchKept(w, t, answer, size);
    case PollCopy => PollCopyKept(w, size);
    case _ => OtherMovesKept(w, m, size);
  }

  lemma OtherMovesKept(w: World, m: Move, size: nat)
    requires AllSound(w, size) && CanMove(w, m)
    requires m.Arbitrate? || m.Begin? || m.Notice? || m.PollBegin? || m.PollFetch? || m.PollFinish?
    ensures AllSound(Go(w, m, size), size)
  {
    var w' := Go(w, m, size);
    ResetIsHarmless(w.shelf, w.device, size);
    hide Enabled, Apply, ResetFor, FullAnswerOk, PollAnswerOk, DeviceOk, Ordered, EntryOk;
    forall u | u in w'.locals ensures LocalSound(w', u) {
      if u in w.locals { assert LocalSound(w, u); }
    }
  }

  // ----- Runs

  ghost predicate Initial(w: World, size: nat) {
    && w.arb == START && w.locals == map[] && w.copied.None? && w.polled.None?
    && w.shelf.latest.None? && w.shelf.history == []
    && DeviceOk(w.device) && ClientsSound(w)
  }

  /** The worlds of a run, and the moves between them. */
  ghost predicate IsWorldRun(run: seq<World>, moves: seq<Move>, size: nat) {
    && |run| == |moves| + 1 && Initial(run[0], size)
    && forall n :: 0 <= n < |moves| ==> CanMove(run[n], moves[n]) && run[n + 1] == Go(run[n], moves[n], size)
  }

  /**
   Over every run, with sessions lost and opened at any time: the pipe is exclusive, cancels are not missed,
   and whatever is on the shelf came from the session it is recorded under.
   */
  lemma {:induction false} GenerationSafety(run: seq<World>, moves: seq<Move>, size: nat, n: nat)
    requires IsWorldRun(run, moves, size) && n < |run|
    ensures Structured(run[n]) && GenerationSafe(run[n], size)
  {
    hide Structured, GenerationSafe, CanMove, Go;
    if n == 0 {
      InitialIsSafe(run[0], size);
    } else {
      GenerationSafety(run, moves, size, n - 1);
      StructuredKept(run[n - 1], moves[n - 1], size);
      GenerationSafeKept(run[n - 1], moves[n - 1], size);
    }
  }

  lemma InitialIsSafe(w: World, size: nat)
    requires Initial(w, size)
    ensures Structured(w) && GenerationSafe(w, size) && AllSound(w, size)
  {
    StartInv();
  }

  /**
   Cache soundness: over every run within one session, in every interleaving of the poller, reads, posts
   and waiters, every client that merges what it is given has exactly the device's state at its ETag.
   */
  lemma {:induction false} ClientsNeverDrift(run: seq<World>, moves: seq<Move>, size: nat, n: nat)
    requires IsWorldRun(run, moves, size) && n < |run|
    requires forall k :: 0 <= k < n ==> !moves[k].Renew?
    ensures AllSound(run[n], size)
  {
    hide Structured, GenerationSafe, AllSound, CanMove, Go;
    if n == 0 {
      InitialIsSafe(run[0], size);
    } else {
      ClientsNeverDrift(run, moves, size, n - 1);
      GenerationSafety(run, moves, size, n - 1);
      AllSoundKept(run[n - 1], moves[n - 1], size);
    }
  }

  /** A waiter that may be told 304 at any point of such a run has missed nothing on the shelf but its own changes. */
  lemma NotModifiedHidesNothing(run: seq<World>, moves: seq<Move>, size: nat, n: nat, etag: Etag, client: Option<string>, j: nat)
    requires IsWorldRun(run, moves, size) && n < |run|
    requires forall k :: 0 <= k < n ==> !moves[k].Renew?
    requires WaitOutcome(run[n].shelf, etag, client) == (None, false)
    requires j < |run[n].shelf.history| && run[n].shelf.history[j].from >= etag
    ensures Own(run[n].shelf.history[j], client)
  {
    hide WaitOutcome, Sound;
    ClientsNeverDrift(run, moves, size, n);
    NothingIsHidden(run[n].shelf, run[n].device, size, etag, client, j);
  }

  lemma LatestNotLost(w: World, m: Move, size: nat)
    requires AllSound(w, size) && CanMove(w, m) && w.shelf.latest.Some?
    ensures var latest := Go(w, m, size).shelf.latest;
            latest.Some? && w.shelf.latest.value <= latest.value
  {
    hide Enabled, Apply, WaitOutcome, FullAnswerOk, PollAnswerOk, CopyOk, DeviceOk, Ordered, EntryOk;
    if m.PublishIt? { assert LocalSound(w, m.thread); }
  }

  /** Within one session the latest ETag never falls back. */
  lemma {:induction false} LatestOnlyGrows(run: seq<World>, moves: seq<Move>, size: nat, i: nat, j: nat)
    requires IsWorldRun(run, moves, size) && i <= j < |run|
    requires forall k :: 0 <= k < j ==> !moves[k].Renew?
    requires run[i].shelf.latest.Some?
    ensures run[j].shelf.latest.Some? && run[i].shelf.latest.value <= run[j].shelf.latest.value
    decreases j
  {
    hide AllSound, CanMove, Go;
    if i < j {
      LatestOnlyGrows(run, moves, size, i, j - 1);
      ClientsNeverDrift(run, moves, size, j - 1);
      LatestNotLost(run[j - 1], moves[j - 1], size);
    }
  }

  /**
   Whoever notices a session, or publishes, puts it on record: from then on nothing on the shelf is of another one,
   and what was is gone.  No other move touches the record.
   */
  lemma SessionIsPutOnRecord(run: seq<World>, moves: seq<Move>, size: nat, n: nat)
    requires IsWorldRun(run, moves, size) && n < |moves|
    ensures var s, s', m, gen := run[n].shelf, run[n + 1].shelf, moves[n], run[n].device.gen;
            && (m.Notice? || m.PublishIt? || m.PollPublish? ==> s'.generation == gen && forall i :: 0 <= i < |s'.history| ==> s'.history[i].gen == gen)
            && (m.Notice? && s.generation != gen ==> s'.latest == None && s'.history == [])
            && (m.Notice? && s.generation == gen ==> s' == s)
            && (!m.Notice? && !m.PublishIt? && !m.PollPublish? ==> s' == s)
  {
    GenerationSafety(run, moves, size, n + 1);
    hide Structured, Apply, Enabled, WaitOutcome, FullAnswerOk, PollAnswerOk, DeviceOk, Newest;
    assert CanMove(run[n], moves[n]) && run[n + 1] == Go(run[n], moves[n], size);
  }

  // ----- What clients are given

  /** The thread has published a read of the poll path that has an ETag. */
  predicate HasRead(w: World, t: ThreadId) {
    t in w.locals && w.locals[t].purpose == ReadPoll && w.locals[t].published && w.locals[t].response.Some? && w.locals[t].response.value.etag.Some?
  }

  lemma HandedOver(w: World, m: Move, size: nat)
    requires CanMove(w, m)
    ensures var w' := Go(w, m, size);
            && w'.clients.Keys == w.clients.Keys
            && (forall u :: u in w.clients && !(m == GiveTransition(u)) && !(m == Finish(u) && HasRead(w, u)) ==> w'.clients[u] == w.clients[u])
            && (forall u :: u in w.clients && m == Finish(u) && HasRead(w, u) ==> w'.clients[u].etag == w.locals[u].response.value.etag.value)
  {
    hide Apply, Enabled, WaitOutcome, FullAnswerOk, PollAnswerOk, DeviceOk, Publish, ResetFor;
  }

  /**
   A fresh read is handed to its client: when the thread is done, the client has the ETag of the response and
   the device's state at it.  Every other client, and every client at any other move but the gift of a cached
   transition, keeps what it has.
   */
  lemma FreshReadIsHandedOver(run: seq<World>, moves: seq<Move>, size: nat, n: nat, t: ThreadId)
    requires IsWorldRun(run, moves, size) && n < |moves| && t in run[n].clients
    requires forall k :: 0 <= k < n ==> !moves[k].Renew?
    ensures t in run[n + 1].clients
    ensures moves[n] == Finish(t) && HasRead(run[n], t) ==>
            var e, c := run[n].locals[t].response.value.etag.value, run[n + 1].clients[t];
            c.etag == e && e <= Now(run[n + 1].device) && c.copy == run[n + 1].device.states[e]
    ensures moves[n] != GiveTransition(t) && !(moves[n] == Finish(t) && HasRead(run[n], t)) ==> run[n + 1].clients[t] == run[n].clients[t]
  {
    HandedOver(run[n], moves[n], size);
    hide CanMove, Go, Sound, PollerSound, LocalsSound, WaitOutcome;
    if moves[n] == Finish(t) { ClientsNeverDrift(run, moves, size, n + 1); }
  }

  /**
   So a client that was told to read afresh catches up: once the read that it fetched after that is handed to
   it, its ETag is where the device was at the fetch, and not behind what was the latest ETag then or before.
   */
  lemma ReadingAfreshCatchesUp(run: seq<World>, moves: seq<Move>, size: nat, i: nat, j: nat, n: nat, t: ThreadId, answer: Payload)
    requires IsWorldRun(run, moves, size) && i <= j < n < |moves| && t in run[n].clients && t in run[i].clients
    requires forall k :: 0 <= k < n ==> !moves[k].Renew?
    requires WaitOutcome(run[i].shelf, run[i].clients[t].etag, run[i].clients[t].name) == (None, true)
    requires moves[j] == Fetch(t, answer) && answer.etag.Some? && t in run[j].locals && run[j].locals[t].purpose == ReadPoll
    requires moves[n] == Finish(t) && t in run[n].locals && run[n].locals[t] == Local(ReadPoll, Some(answer), true)
    ensures t in run[n + 1].clients && run[n + 1].clients[t].etag == Now(run[j].device)
    ensures run[i].shelf.latest.Some? && run[j].shelf.latest.Some?
    ensures run[i].shelf.latest.value <= run[j].shelf.latest.value <= run[n + 1].clients[t].etag
  {
    FreshReadIsHandedOver(run, moves, size, n, t);
    ClientsNeverDrift(run, moves, size, i);
    ToldToRead(run[i].shelf, run[i].clients[t].etag, run[i].clients[t].name, run[i], size);
    LatestOnlyGrows(run, moves, size, i, j);
    ClientsNeverDrift(run, moves, size, j);
    FetchedNow(run[j], moves[j]);
    hide CanMove, Go, WaitOutcome, Ordered, DeviceOk, EntryOk;
  }

  lemma ToldToRead(s: Shelf, etag: Etag, client: Option<string>, w: World, size: nat)
    requires WaitOutcome(s, etag, client) == (None, true) && s == w.shelf && AllSound(w, size)
    ensures s.latest.Some?
  {
    hide Ordered, DeviceOk, EntryOk;
  }

  lemma FetchedNow(w: World, m: Move)
    requires CanMove(w, m) && m.Fetch? && w.locals[m.thread].purpose != ReadOther && m.answer.etag.Some?
    ensures m.answer.etag.value == Now(w.device)
  {
  }
}
