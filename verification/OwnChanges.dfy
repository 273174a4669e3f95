/**
 When a waiting client is woken for nothing but its own writes, in `DatastoreCoordinator` of
 motu_proxy/datastore.py.  The documented promise is that it is not; here is exactly when it is.
 */
module OwnChanges {
  import opened Wrappers
  import opened Arbitration
  import opened Cache
  import opened Coordination

  // ----- What happens to the shelf, as one client sees it

  /** The client's own write is published, an answer to the poller, somebody's full read, or nothing at all. */
  datatype Happening = Wrote(p: Payload) | Polled(p: Payload, asked: Etag) | Seen(p: Payload, origin: Option<string>) | Idle

  function Happen(s: Shelf, h: Happening, client: string, size: nat): (s': Shelf) {
    match h
    case Wrote(p) => Publish(s, p, Some(client), None, true, size)
    case Polled(p, asked) => Publish(s, p, None, Some(asked), true, size)
    case Seen(p, origin) => Publish(s, p, origin, None, true, size)
    case Idle => s
  }

  /** What every publication satisfies, within one session: it is not behind the latest ETag, and the poller asked from no later one. */
  ghost predicate Possible(s: Shelf, h: Happening, client: string) {
    s.latest.Some? &&
    match h
    case Wrote(p) => p.etag.Some? ==> !p.notModified && s.latest.value <= p.etag.value
    case Polled(p, asked) => p.etag.Some? ==> asked <= s.latest.value <= p.etag.value && (p.notModified ==> p.etag.value == asked)
    case Seen(p, origin) => origin != Some(client) && (p.etag.Some? ==> !p.notModified && s.latest.value <= p.etag.value)
    case Idle => true
  }

  ghost predicate IsStretch(shelves: seq<Shelf>, hs: seq<Happening>, client: string, size: nat) {
    && |shelves| == |hs| + 1
    && forall k :: 0 <= k < |hs| ==> Possible(shelves[k], hs[k], client) && shelves[k + 1] == Happen(shelves[k], hs[k], client, size)
  }

  /** A publication that is not under the client's name moved the latest ETag. */
  predicate MovedByOther(s: Shelf, h: Happening) { (h.Polled? || h.Seen?) && h.p.etag.Some? && h.p.etag != s.latest }

  /** A write that moved the latest ETag. */
  predicate Moved(s: Shelf, h: Happening) { h.Wrote? && h.p.etag.Some? && h.p.etag != s.latest }

  /** An answer to the poller that goes on the history: it had asked from an ETag that is not the latest. */
  predicate AskedBehind(s: Shelf, h: Happening) { h.Polled? && h.p.etag.Some? && s.latest != Some(h.asked) }

  predicate NewsFromOthers(shelves: seq<Shelf>, hs: seq<Happening>, n: nat)
    requires n <= |hs| < |shelves|
  {
    n > 0 && (NewsFromOthers(shelves, hs, n - 1) || MovedByOther(shelves[n - 1], hs[n - 1]))
  }

  function Writes(shelves: seq<Shelf>, hs: seq<Happening>, n: nat): (w: nat)
    requires n <= |hs| < |shelves|
  {
    if n == 0 then 0 else Writes(shelves, hs, n - 1) + (if Moved(shelves[n - 1], hs[n - 1]) then 1 else 0)
  }

  /** How many transitions were recorded from the first own write on, that one included. */
  function RecordedSince(shelves: seq<Shelf>, hs: seq<Happening>, n: nat): (r: nat)
    requires n <= |hs| < |shelves|
  {
    if n == 0 then 0 else
    var r, s, h := RecordedSince(shelves, hs, n - 1), shelves[n - 1], hs[n - 1];
    if Moved(s, h) || (r > 0 && AskedBehind(s, h)) then r + 1 else r
  }

  /** Did the poller bring an answer that it had asked for from this ETag, when the latest was another one already? */
  predicate AskedFrom(shelves: seq<Shelf>, hs: seq<Happening>, n: nat, etag: Etag)
    requires n <= |hs| < |shelves|
  {
    n > 0 && (AskedFrom(shelves, hs, n - 1, etag) || (AskedBehind(shelves[n - 1], hs[n - 1]) && hs[n - 1].asked == etag))
  }

  // ----- Where the transitions from the client's ETag stand

  ghost predicate ForeignAfter(h: seq<Transition>, first: int, etag: Etag) {
    exists i :: 0 <= i < |h| && first < i && Matches(h[i], etag) && h[i].origin.None?
  }

  /** What was counted, against the latest ETag and the length of the history. */
  ghost predicate Counted(s: Shelf, etag: Etag, size: nat, w: nat, r: nat, asked: bool) {
    && s.latest.Some? && etag <= s.latest.value && (w == 0 <==> s.latest.value == etag) && (w == 0 <==> r == 0)
    && |s.history| <= size && (r <= size ==> r <= |s.history|)
    && (w == 0 ==> !asked)
  }

  /** The client's own transition from its ETag; it leads to the latest ETag if it is its only one. */
  ghost predicate OwnAt(s: Shelf, i: nat, etag: Etag, client: string, w: nat)
    requires i < |s.history| && s.latest.Some?
  {
    var t := s.history[i];
    Matches(t, etag) && t.origin == Some(client) && t.to <= s.latest.value && (t.to == s.latest.value <==> w == 1)
  }

  ghost predicate OthersBehind(h: seq<Transition>, first: int, etag: Etag, asked: bool) {
    forall i :: 0 <= i < |h| && Matches(h[i], etag) ==> i == first || (first < i && asked && h[i].origin.None?)
  }

  /**
   Of the transitions from the client's ETag, the client's own stands `r` from the end, if it is still
   there, and all others stand behind it and are the poller's.
   */
  ghost predicate Placed(s: Shelf, etag: Etag, client: string, size: nat, w: nat, r: nat, asked: bool) {
    var first := |s.history| - r;
    && Counted(s, etag, size, w, r, asked)
    && OthersBehind(s.history, first, etag, asked)
    && (r > 0 && first >= 0 ==> OwnAt(s, first, etag, client, w))
    && (asked && first >= 0 ==> ForeignAfter(s.history, first, etag))
  }

  /** The history with one more transition, and without the oldest if it was full. */
  ghost predicate Shifted(h: seq<Transition>, h': seq<Transition>, t: Transition, drop: nat) {
    && |h'| == |h| + 1 - drop && drop <= 1
    && forall i :: 0 <= i < |h'| ==> h'[i] == if i + drop < |h| then h[i + drop] else t
  }

  lemma NewestShifts(h: seq<Transition>, t: Transition, size: nat)
    requires |h| <= size
    ensures Shifted(h, Newest(h + [t], size), t, if |h| == size then 1 else 0)
  {
    var all := h + [t];
    if |h| == size { assert Newest(all, size) == all[1..]; }
  }

  lemma ShiftedOthers(h: seq<Transition>, h': seq<Transition>, t: Transition, drop: nat, first: int, etag: Etag, asked: bool)
    requires Shifted(h, h', t, drop) && OthersBehind(h, first, etag, asked) && first <= |h|
    requires Matches(t, etag) ==> first == |h| || t.origin.None?
    ensures OthersBehind(h', first - drop, etag, asked || (Matches(t, etag) && first < |h|))
  {
  }

  lemma ShiftedForeign(h: seq<Transition>, h': seq<Transition>, t: Transition, drop: nat, first: int, etag: Etag)
    requires Shifted(h, h', t, drop) && first - drop >= 0
    requires ForeignAfter(h, first, etag) || (first < |h| && Matches(t, etag) && t.origin.None?)
    ensures ForeignAfter(h', first - drop, etag)
  {
    if ForeignAfter(h, first, etag) {
      var i :| 0 <= i < |h| && first < i && Matches(h[i], etag) && h[i].origin.None?;
      assert h'[i - drop] == h[i];
    } else {
      assert h'[|h'| - 1] == t;
    }
  }

  /** One more own transition: everything moves one place from the end, and the oldest may be dropped. */
  lemma WritePlaces(s: Shelf, s': Shelf, t: Transition, etag: Etag, client: string, size: nat, w: nat, r: nat, asked: bool)
    requires Placed(s, etag, client, size, w, r, asked)
    requires s'.latest == Some(t.to) && s'.history == Newest(s.history + [t], size)
    requires t.from == s.latest.value < t.to && t.origin == Some(client)
    ensures Placed(s', etag, client, size, w + 1, r + 1, asked)
  {
    var h, drop, first := s.history, if |s.history| == size then 1 else 0, |s.history| - r;
    NewestShifts(h, t, size);
    ShiftedOthers(h, s'.history, t, drop, first, etag, asked);
    if asked && first - drop >= 0 { ShiftedForeign(h, s'.history, t, drop, first, etag); }
    hide OthersBehind, ForeignAfter, Newest;
  }

  /** One more answer to the poller does the same, and may be a transition from the client's ETag. */
  lemma PollPlaces(s: Shelf, s': Shelf, t: Transition, etag: Etag, client: string, size: nat, w: nat, r: nat, asked: bool)
    requires Placed(s, etag, client, size, w, r, asked)
    requires s'.latest == Some(t.to) && s'.history == Newest(s.history + [t], size)
    requires t.from < t.to == s.latest.value && t.origin == None
    ensures Placed(s', etag, client, size, w, if r > 0 then r + 1 else 0, asked || t.from == etag)
  {
    var h, drop, first := s.history, if |s.history| == size then 1 else 0, |s.history| - r;
    NewestShifts(h, t, size);
    if r > 0 {
      ShiftedOthers(h, s'.history, t, drop, first, etag, asked);
      if (asked || t.from == etag) && first - drop >= 0 { ShiftedForeign(h, s'.history, t, drop, first, etag); }
      hide OthersBehind, ForeignAfter, Newest;
    } else {
      hide ForeignAfter, Newest;
    }
  }

  lemma HappeningPlaces(s: Shelf, h: Happening, etag: Etag, client: string, size: nat, w: nat, r: nat, asked: bool)
    requires Placed(s, etag, client, size, w, r, asked) && Possible(s, h, client) && !MovedByOther(s, h)
    ensures Placed(Happen(s, h, client, size), etag, client, size,
                   w + (if Moved(s, h) then 1 else 0),
                   if Moved(s, h) || (r > 0 && AskedBehind(s, h)) then r + 1 else r,
                   asked || (AskedBehind(s, h) && h.asked == etag))
  {
    assert w == 0 <==> r == 0;
    hide Placed, Newest;
    var s' := Happen(s, h, client, size);
    if Moved(s, h) {
      WritePlaces(s, s', Transition(s.latest.value, h.p.etag.value, h.p.body, Some(client), h.p.gen), etag, client, size, w, r, asked);
    } else if AskedBehind(s, h) {
      PollPlaces(s, s', Transition(h.asked, h.p.etag.value, h.p.body, None, h.p.gen), etag, client, size, w, r, asked);
    } else {
      SameShelf(s, s', etag, client, size, w, r, asked);
    }
  }

  /** The client holds the latest ETag, and every transition recorded so far began before it. */
  ghost predicate UpToDate(s: Shelf, etag: Etag, size: nat) {
    && s.latest == Some(etag) && |s.history| <= size
    && forall i :: 0 <= i < |s.history| ==> s.history[i].from < etag
  }

  lemma {:induction false} Places(shelves: seq<Shelf>, hs: seq<Happening>, client: string, size: nat, etag: Etag, n: nat)
    requires IsStretch(shelves, hs, client, size) && n <= |hs| && UpToDate(shelves[0], etag, size)
    requires !NewsFromOthers(shelves, hs, n)
    ensures Placed(shelves[n], etag, client, size, Writes(shelves, hs, n), RecordedSince(shelves, hs, n), AskedFrom(shelves, hs, n, etag))
  {
    if n > 0 {
      Places(shelves, hs, client, size, etag, n - 1);
      hide Placed, Happen, Moved, AskedBehind, MovedByOther;
      HappeningPlaces(shelves[n - 1], hs[n - 1], etag, client, size,
                      Writes(shelves, hs, n - 1), RecordedSince(shelves, hs, n - 1), AskedFrom(shelves, hs, n - 1, etag));
    }
  }

  lemma SameShelf(s: Shelf, s': Shelf, etag: Etag, client: string, size: nat, w: nat, r: nat, asked: bool)
    requires Placed(s, etag, client, size, w, r, asked) && s'.latest == s.latest && s'.history == s.history
    ensures Placed(s', etag, client, size, w, r, asked)
  {
  }

  lemma PlacedDecides(s: Shelf, etag: Etag, client: string, size: nat, w: nat, r: nat, asked: bool)
    requires Placed(s, etag, client, size, w, r, asked)
    ensures WaitOutcome(s, etag, Some(client)) == (None, false) <==> w == 0 || (w == 1 && !asked && r <= size)
  {
    var h, first := s.history, |s.history| - r;
    var foreign, own := LastForeign(h, etag, Some(client)), FirstMatch(h, etag);
    if w > 0 && r <= size {
      assert Matches(h[first], etag);
      if asked {
        var i :| 0 <= i < |h| && first < i && Matches(h[i], etag) && h[i].origin.None?;
        assert !Own(h[i], Some(client));
      } else {
        assert own == Some(first);
      }
    }
  }

  /** At most one own write, no answer to a poller that had asked from the client's ETag, and the own transition not yet dropped. */
  predicate LeftAlone(shelves: seq<Shelf>, hs: seq<Happening>, etag: Etag, size: nat)
    requires |hs| < |shelves|
  {
    var n := |hs|;
    || Writes(shelves, hs, n) == 0
    || (Writes(shelves, hs, n) == 1 && !AskedFrom(shelves, hs, n, etag) && RecordedSince(shelves, hs, n) <= size)
  }

  // ----- Once somebody else has brought news

  /** The latest ETag is beyond the client's, and beyond where any transition of its own leads from there. */
  ghost predicate Beyond(s: Shelf, etag: Etag, client: string) {
    && s.latest.Some? && etag < s.latest.value
    && forall i :: 0 <= i < |s.history| && OwnFrom(s.history[i], etag, client) ==> s.history[i].to < s.latest.value
  }

  predicate OwnFrom(t: Transition, etag: Etag, client: string) { Matches(t, etag) && t.origin == Some(client) }

  lemma NewestAreOld(h: seq<Transition>, t: Transition, size: nat)
    ensures forall i :: 0 <= i < |Newest(h + [t], size)| ==> Newest(h + [t], size)[i] == t || Newest(h + [t], size)[i] in h
  {
  }

  lemma BeyondBegins(s: Shelf, h: Happening, etag: Etag, client: string, size: nat, w: nat, r: nat, asked: bool)
    requires Placed(s, etag, client, size, w, r, asked) && Possible(s, h, client) && MovedByOther(s, h)
    ensures Beyond(Happen(s, h, client, size), etag, client)
  {
    var from := if h.Polled? then h.asked else s.latest.value;
    var origin := if h.Polled? then None else h.origin;
    NewestAreOld(s.history, Transition(from, h.p.etag.value, h.p.body, origin, h.p.gen), size);
    hide Newest;
    assert forall t :: t in s.history && OwnFrom(t, etag, client) ==> t.to <= s.latest.value;
  }

  lemma BeyondStays(s: Shelf, h: Happening, etag: Etag, client: string, size: nat)
    requires Beyond(s, etag, client) && Possible(s, h, client)
    ensures Beyond(Happen(s, h, client, size), etag, client)
  {
    if !h.Idle? && h.p.etag.Some? {
      var from := if h.Polled? then h.asked else s.latest.value;
      var origin := if h.Polled? then None else if h.Seen? then h.origin else Some(client);
      NewestAreOld(s.history, Transition(from, h.p.etag.value, h.p.body, origin, h.p.gen), size);
    }
    hide Newest;
  }

  lemma BeyondWakes(s: Shelf, etag: Etag, client: string)
    requires Beyond(s, etag, client)
    ensures WaitOutcome(s, etag, Some(client)) != (None, false)
  {
  }

  lemma {:induction false} NewsWakes(shelves: seq<Shelf>, hs: seq<Happening>, client: string, size: nat, etag: Etag, n: nat)
    requires IsStretch(shelves, hs, client, size) && n <= |hs| && UpToDate(shelves[0], etag, size)
    requires NewsFromOthers(shelves, hs, n)
    ensures Beyond(shelves[n], etag, client)
  {
    hide Happen, MovedByOther, Possible, Beyond, Placed, Writes, RecordedSince, AskedFrom;
    if NewsFromOthers(shelves, hs, n - 1) {
      NewsWakes(shelves, hs, client, size, etag, n - 1);
      BeyondStays(shelves[n - 1], hs[n - 1], etag, client, size);
    } else {
      Places(shelves, hs, client, size, etag, n - 1);
      BeyondBegins(shelves[n - 1], hs[n - 1], etag, client, size,
                   Writes(shelves, hs, n - 1), RecordedSince(shelves, hs, n - 1), AskedFrom(shelves, hs, n - 1, etag));
    }
  }

  /** Over any stretch of publications, whoever makes them: the client is left waiting exactly if there is no news and it is left alone. */
  lemma LeftAloneExactly(shelves: seq<Shelf>, hs: seq<Happening>, client: string, size: nat, etag: Etag)
    requires IsStretch(shelves, hs, client, size) && UpToDate(shelves[0], etag, size)
    ensures WaitOutcome(shelves[|hs|], etag, Some(client)) == (None, false)
            <==> !NewsFromOthers(shelves, hs, |hs|) && LeftAlone(shelves, hs, etag, size)
  {
    hide WaitOutcome, Placed, Beyond, NewsFromOthers;
    var n := |hs|;
    if NewsFromOthers(shelves, hs, n) {
      NewsWakes(shelves, hs, client, size, etag, n);
      BeyondWakes(shelves[n], etag, client);
    } else {
      Places(shelves, hs, client, size, etag, n);
      PlacedDecides(shelves[n], etag, client, size, Writes(shelves, hs, n), RecordedSince(shelves, hs, n), AskedFrom(shelves, hs, n, etag));
    }
  }

  // ----- In every run

  /** What a move does to the shelf, as seen by this client. */
  function HappeningOf(w: World, m: Move, client: string): (h: Happening) {
    match m
    case PublishIt(t) =>
      if t !in w.locals || w.locals[t].response.None? || w.locals[t].purpose == ReadOther then Idle
      else if w.locals[t].purpose == PostAndRefresh(Some(client)) then Wrote(w.locals[t].response.value)
      else Seen(w.locals[t].response.value, Origin(w.locals[t].purpose))
    case PollPublish => if w.polled.Some? && w.copied.Some? then Polled(w.polled.value, w.copied.value) else Idle
    case _ => Idle
  }

  lemma MoveHappens(w: World, m: Move, client: string, size: nat)
    requires AllSound(w, size) && CanMove(w, m) && !m.Renew? && w.shelf.latest.Some?
    ensures Possible(w.shelf, HappeningOf(w, m, client), client)
    ensures Go(w, m, size).shelf == Happen(w.shelf, HappeningOf(w, m, client), client, size)
  {
    hide Enabled, Apply, WaitOutcome, DeviceOk, Ordered, EntryOk, IsDelta, Clear;
    assert forall p, origin :: Publish(w.shelf, p, origin, None, false, size) == w.shelf;
    hide Publish;
    if m.PublishIt? { assert LocalSound(w, m.thread); }
    assert ResetFor(w.shelf, w.device.gen) == w.shelf;
  }

  /** The shelves of a stretch of a run, and what happened to them. */
  function ShelvesOf(run: seq<World>, i: nat, n: nat): (s: seq<Shelf>)
    requires i + n < |run|
    ensures |s| == n + 1 && forall k :: 0 <= k <= n ==> s[k] == run[i + k].shelf
  {
    seq(n + 1, k requires 0 <= k <= n => run[i + k].shelf)
  }

  function HappeningsOf(run: seq<World>, moves: seq<Move>, i: nat, n: nat, client: string): (hs: seq<Happening>)
    requires i + n <= |moves| < |run|
    ensures |hs| == n && forall k :: 0 <= k < n ==> hs[k] == HappeningOf(run[i + k], moves[i + k], client)
  {
    seq(n, k requires 0 <= k < n => HappeningOf(run[i + k], moves[i + k], client))
  }

  /** Everything that makes the difference to a client that held this ETag when it was the latest, `n` moves ago. */
  predicate LeftAloneIn(run: seq<World>, moves: seq<Move>, size: nat, i: nat, n: nat, client: string, etag: Etag)
    requires i + n <= |moves| < |run|
  {
    var shelves, hs := ShelvesOf(run, i, n), HappeningsOf(run, moves, i, n, client);
    !NewsFromOthers(shelves, hs, n) && LeftAlone(shelves, hs, etag, size)
  }

  /**
   Over every run within one session: a client that held the latest ETag at some point is left waiting if and
   only if since then no publication under another name has moved the latest ETag, the client has written at
   most once, the poller has brought no answer that it had asked for from the client's ETag, and the history
   still holds the client's own transition.
   */
  lemma LeftWaitingExactly(run: seq<World>, moves: seq<Move>, size: nat, i: nat, n: nat, client: string, etag: Etag)
    requires IsWorldRun(run, moves, size) && i + n < |run|
    requires forall k :: 0 <= k < i + n ==> !moves[k].Renew?
    requires run[i].shelf.latest == Some(etag)
    ensures WaitOutcome(run[i + n].shelf, etag, Some(client)) == (None, false) <==> LeftAloneIn(run, moves, size, i, n, client, etag)
  {
    hide AllSound, CanMove, Go, WaitOutcome, LeftAlone, HappeningOf, Happen, Possible, NewsFromOthers;
    var shelves, hs := ShelvesOf(run, i, n), HappeningsOf(run, moves, i, n, client);
    forall k | 0 <= k < n
      ensures Possible(shelves[k], hs[k], client) && shelves[k + 1] == Happen(shelves[k], hs[k], client, size)
    {
      ClientsNeverDrift(run, moves, size, i + k);
      LatestOnlyGrows(run, moves, size, i, i + k);
      MoveHappens(run[i + k], moves[i + k], client, size);
    }
    ClientsNeverDrift(run, moves, size, i);
    BeganBefore(run[i], etag, size);
    LeftAloneExactly(shelves, hs, client, size, etag);
  }

  /** Every change that the device has seen since this ETag is the client's own. */
  ghost predicate AllOwn(d: Device, etag: Etag, client: string) {
    |d.authors| == |d.states| && forall k :: etag < k <= Now(d) ==> d.authors[k] == Some(client)
  }

  /**
   The promise, and exactly when it is kept: if all changes since the client's ETag are its own, then whatever
   it could be told of is its own, up to the latest ETag; and it is woken all the same unless it is left alone.
   */
  lemma WokenForOwnWritesExactly(run: seq<World>, moves: seq<Move>, size: nat, i: nat, n: nat, client: string, etag: Etag)
    requires IsWorldRun(run, moves, size) && i + n < |run|
    requires forall k :: 0 <= k < i + n ==> !moves[k].Renew?
    requires run[i].shelf.latest == Some(etag) && AllOwn(run[i + n].device, etag, client)
    ensures var w := run[i + n];
            var r := WaitOutcome(w.shelf, etag, Some(client));
            && (r == (None, false) <==> LeftAloneIn(run, moves, size, i, n, client, etag))
            && w.shelf.latest.Some? && etag <= w.shelf.latest.value <= Now(w.device)
            && (forall k :: etag < k <= w.shelf.latest.value ==> w.device.authors[k] == Some(client))
            && (r.0.Some? ==> r.0.value.from == etag < r.0.value.to <= w.shelf.latest.value)
  {
    hide LeftAloneIn;
    LeftWaitingExactly(run, moves, size, i, n, client, etag);
    LatestOnlyGrows(run, moves, size, i, i + n);
    ClientsNeverDrift(run, moves, size, i + n);
    var w := run[i + n];
    hide IsWorldRun, IsDelta, DeviceOk, Ordered;
    var r := WaitOutcome(w.shelf, etag, Some(client));
    if r.0.Some? {
      var k :| 0 <= k < |w.shelf.history| && w.shelf.history[k] == r.0.value;
      assert EntryOk(w.shelf.history[k], w.device);
    }
  }

  lemma BeganBefore(w: World, etag: Etag, size: nat)
    requires AllSound(w, size) && w.shelf.latest == Some(etag)
    ensures UpToDate(w.shelf, etag, size)
  {
    hide IsDelta, DeviceOk, Ordered;
    assert forall i :: 0 <= i < |w.shelf.history| ==> EntryOk(w.shelf.history[i], w.device);
  }
}
