/**
 What clients make of recorded transitions when sessions come and go (`DatastoreCoordinator` of
 motu_proxy/datastore.py).  A client holds a copy that may be of another session than the history; here is
 exactly when merging a transition gives it the device's state.
 */
module AcrossSessions {
  import opened Wrappers
  import opened Arbitration
  import opened Cache
  import opened Coordination
  import opened Provenance

  // ----- The history fits the device of the session on record

  /** Its end is a state of this device, and unless it leads backwards, it is what changed there since its beginning. */
  ghost predicate EntryFits(t: Transition, d: Device) {
    t.to <= Now(d) && (t.from <= t.to ==> IsDelta(t.body, d.states[t.from], d.states[t.to]))
  }

  ghost predicate HistoryFits(h: seq<Transition>, d: Device) {
    forall i :: 0 <= i < |h| ==> EntryFits(h[i], d)
  }

  ghost predicate ShelfFits(s: Shelf, d: Device) {
    && (s.generation == d.gen ==> HistoryFits(s.history, d))
    && (s.history != [] ==> s.generation <= d.gen)
  }

  ghost predicate LocalsFit(w: World) {
    forall t :: t in w.locals && w.locals[t].response.Some? && w.locals[t].purpose != ReadOther ==> FullAnswerOk(w.locals[t].response.value, w.device)
  }

  ghost predicate PolledFits(p: Payload, copied: Option<Etag>, d: Device) {
    p.etag.Some? ==> p.etag.value <= Now(d) && (copied.Some? && copied.value <= p.etag.value ==> PollAnswerOk(p, copied.value, d))
  }

  ghost predicate Fits(w: World) {
    DeviceOk(w.device) && ShelfFits(w.shelf, w.device) && LocalsFit(w) && (w.polled.Some? ==> PolledFits(w.polled.value, w.copied, w.device))
  }

  lemma RecordFits(s: Shelf, d: Device, p: Payload, origin: Option<string>, from: Option<Etag>, record: bool, size: nat)
    requires DeviceOk(d) && ShelfFits(s, d)
    requires record && from.None? ==> FullAnswerOk(p, d)
    requires record && from.Some? ==> PolledFits(p, from, d)
    ensures ShelfFits(Publish(ResetFor(s, d.gen), p, origin, from, record, size), d)
    ensures ShelfFits(ResetFor(s, d.gen), d)
  {
    hide IsDelta;
    var s1 := ResetFor(s, d.gen);
    var t := Appended(s1, p, origin, from);
    PublishAppends(s1, p, origin, from, size);
    if record && t.Some? {
      assert EntryFits(t.value, d) by {
        if from.None? && t.value.from <= t.value.to { FullIsDelta(d, t.value.from, t.value.to); }
      }
    }
    hide EntryFits, DeviceOk, Appended;
    assert Publish(s1, p, origin, from, record, size).generation == d.gen;
  }

  lemma GrowthFits(w: World, next: Store, author: Option<string>)
    requires Fits(w) && w.device.states[|w.device.states| - 1].Keys <= next.Keys
    ensures Fits(w.(device := Changed(w.device, next, author)))
  {
    var d, d' := w.device, Changed(w.device, next, author);
    assert DeviceOk(d');
    assert forall i :: 0 <= i < |d.states| ==> d'.states[i] == d.states[i];
    hide DeviceOk, IsDelta;
    forall i | 0 <= i < |w.shelf.history| && w.shelf.generation == d.gen ensures EntryFits(w.shelf.history[i], d') {
      assert EntryFits(w.shelf.history[i], d);
    }
  }

  lemma FitsKept(w: World, m: Move, size: nat)
    requires Structured(w) && Fits(w) && CanMove(w, m)
    ensures Fits(Go(w, m, size))
  {
    match m
    case DeviceChanges(next, author) =>
      GrowthFits(w, next, author);
    case PublishIt(t) =>
      var l := w.locals[t];
      RecordFits(w.shelf, w.device, l.response.value, Origin(l.purpose), None, l.purpose != ReadOther, size);
      OneResponse(w, t);
      hide ShelfFits, Structured, FullAnswerOk, PolledFits, Publish, ResetFor, DeviceOk;
    case PollPublish =>
      RecordFits(w.shelf, w.device, w.polled.value, None, w.copied, true, size);
      hide ShelfFits, Structured, FullAnswerOk, PolledFits, Publish, ResetFor, DeviceOk;
    case Notice =>
      RecordFits(w.shelf, w.device, Payload(map[], None, false, 0), None, None, false, size);
      hide ShelfFits, Structured, FullAnswerOk, PolledFits, Publish, ResetFor, DeviceOk;
    case PollFetch(answer) =>
      hide ShelfFits, Structured, FullAnswerOk, DeviceOk, IsDelta;
    case Renew(states, authors) =>
      hide Structured, FullAnswerOk, PolledFits, IsDelta;
    case _ =>
      hide ShelfFits, FullAnswerOk, PolledFits, DeviceOk, Apply, Enabled, Publish, ResetFor, WaitOutcome, Inv;
  }

  lemma {:induction false} FitsInEveryRun(run: seq<World>, moves: seq<Move>, size: nat, n: nat)
    requires IsWorldRun(run, moves, size) && n < |run|
    ensures Fits(run[n])
  {
    if n > 0 {
      FitsInEveryRun(run, moves, size, n - 1);
      GenerationSafety(run, moves, size, n - 1);
      hide Fits, Structured, GenerationSafe, CanMove, Go;
      FitsKept(run[n - 1], moves[n - 1], size);
    }
  }

  /** The last point at which the device was of the session on record. */
  ghost predicate LastOfSession(run: seq<World>, q: nat, n: nat)
    requires n < |run|
  {
    && q <= n && run[q].device.gen == run[n].shelf.generation
    && forall m :: q < m <= n ==> run[m].device.gen != run[n].shelf.generation
  }

  lemma ShelfStands(w: World, m: Move, size: nat)
    requires CanMove(w, m)
    ensures var w' := Go(w, m, size);
            w'.shelf == w.shelf || w'.shelf.generation == w'.device.gen
  {
    hide Apply, Enabled, WaitOutcome, FullAnswerOk, PollAnswerOk, DeviceOk;
  }

  /** What is on the history fits the device as it was when the session on record ended, or as it is if it has not. */
  lemma {:induction false} HistoryIsOfItsSession(run: seq<World>, moves: seq<Move>, size: nat, n: nat) returns (q: nat)
    requires IsWorldRun(run, moves, size) && n < |run| && run[n].shelf.history != []
    ensures LastOfSession(run, q, n) && HistoryFits(run[n].shelf.history, run[q].device)
  {
    FitsInEveryRun(run, moves, size, n);
    if run[n].shelf.generation == run[n].device.gen {
      q := n;
    } else {
      ShelfStands(run[n - 1], moves[n - 1], size);
      hide CanMove, Go, Fits;
      q := HistoryIsOfItsSession(run, moves, size, n - 1);
    }
  }

  // ----- What a client makes of it

  /** The two agree on everything that the body does not carry. */
  ghost predicate AgreeOutside(body: Store, copy: Store, state: Store) {
    forall k :: k !in body ==> (k in copy <==> k in state) && (k in copy ==> copy[k] == state[k])
  }

  lemma MergeExactly(copy: Store, body: Store, old': Store, new': Store)
    requires IsDelta(body, old', new')
    ensures copy + body == new' <==> AgreeOutside(body, copy, old')
  {
    if AgreeOutside(body, copy, old') {
      forall k ensures k in copy + body <==> k in new' { if k !in body { assert k in copy <==> k in old'; } }
      forall k | k in copy + body ensures (copy + body)[k] == new'[k] { if k !in body { assert copy[k] == old'[k]; } }
    } else {
      var k :| k !in body && !((k in copy <==> k in old') && (k in copy ==> copy[k] == old'[k]));
      assert k in copy + body <==> k in copy;
      assert k in old' <==> k in new';
    }
  }

  /**
   Over every run, whatever sessions come and go: a client that is given a transition which does not lead
   backwards then has the device's state at its new ETag, in the session on record, if and only if its copy
   agreed with the state of that session at its old ETag on everything that the transition does not carry.
   */
  lemma DriftExactly(run: seq<World>, moves: seq<Move>, size: nat, n: nat, t: ThreadId) returns (q: nat)
    requires IsWorldRun(run, moves, size) && n < |moves| && moves[n] == GiveTransition(t)
    requires Given(run[n], t).from <= Given(run[n], t).to
    ensures var h := Given(run[n], t);
            && LastOfSession(run, q, n) && h in run[n].shelf.history
            && t in run[n].clients && h.from == run[n].clients[t].etag
            && t in run[n + 1].clients && run[n + 1].clients[t].etag == h.to <= Now(run[q].device)
            && (run[n + 1].clients[t].copy == run[q].device.states[h.to]
                <==> AgreeOutside(h.body, run[n].clients[t].copy, run[q].device.states[h.from]))
  {
    var h := Given(run[n], t);
    GivenIsMerged(run[n], t, size);
    hide CanMove, Go, Given;
    q := HistoryIsOfItsSession(run, moves, size, n);
    var k :| 0 <= k < |run[n].shelf.history| && run[n].shelf.history[k] == h;
    assert EntryFits(run[n].shelf.history[k], run[q].device);
    MergeExactly(run[n].clients[t].copy, h.body, run[q].device.states[h.from], run[q].device.states[h.to]);
  }

  /** The transition that a waiting client is given, if it is given one. */
  function Given(w: World, t: ThreadId): (h: Transition) {
    if t in w.clients && WaitOutcome(w.shelf, w.clients[t].etag, w.clients[t].name).0.Some?
    then WaitOutcome(w.shelf, w.clients[t].etag, w.clients[t].name).0.value
    else Transition(0, 0, map[], None, 0)
  }

  lemma GivenIsMerged(w: World, t: ThreadId, size: nat)
    requires CanMove(w, GiveTransition(t))
    ensures var h, w' := Given(w, t), Go(w, GiveTransition(t), size);
            && t in w.clients && t in w'.clients && h in w.shelf.history && h.from == w.clients[t].etag
            && w'.clients[t] == Merge(w.clients[t], h.to, h.body)
  {
  }

  /**
   So a client whose copy is of the session on record drifts only when it is given a transition that leads
   backwards, and those the poller records, when it copied the ETag in another session than it publishes in.
   */
  lemma CauseOfDrift(run: seq<World>, moves: seq<Move>, size: nat, n: nat, t: ThreadId, q: nat) returns (k: nat, c: nat, p: nat)
    requires IsWorldRun(run, moves, size) && n < |moves| && moves[n] == GiveTransition(t) && t in run[n].clients
    requires LastOfSession(run, q, n) && run[n].clients[t].etag <= Now(run[q].device)
    requires run[n].clients[t].copy == run[q].device.states[run[n].clients[t].etag]
    requires var h := Given(run[n], t); !(h.to <= Now(run[q].device) && run[n].clients[t].copy + h.body == run[q].device.states[h.to])
    ensures k < |run[n].shelf.history| && run[n].shelf.history[k] == Given(run[n], t)
    ensures c <= p && RecordedAt(run, moves, n, k, p) && CopiedElsewhere(run, moves, c, p)
  {
    hide CopiedElsewhere, RecordedAt;
    var h := Given(run[n], t);
    GivenIsMerged(run[n], t, size);
    hide CanMove, Go, Given;
    k :| 0 <= k < |run[n].shelf.history| && run[n].shelf.history[k] == h;
    if h.from <= h.to {
      var q' := DriftExactly(run, moves, size, n, t);
    }
    c, p := BackwardsMeansJoined(run, moves, size, n, k);
  }
}
