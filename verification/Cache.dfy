/**
 The ETag history of `DatastoreCoordinator` in motu_proxy/datastore.py: what is recorded, and what a
 waiting client is told.  ETags are the device's counter; "0" is the ETag of a client that knows nothing.
 `gen` says which device session a response came from; it is not looked at, only proved about.
 */
module Cache {
  import opened Wrappers

  type Etag = nat
  type Store = map<string, string>

  datatype Transition = Transition(from: Etag, to: Etag, body: Store, origin: Option<string>, gen: nat)

  datatype Payload = Payload(body: Store, etag: Option<Etag>, notModified: bool, gen: nat)

  /** `_latest_etag`, `_history` and `_datastore_session_generation`. */
  datatype Shelf = Shelf(latest: Option<Etag>, latestGen: nat, history: seq<Transition>, generation: nat)

  /** A deque of at most `size` entries drops its oldest ones. */
  function Newest(h: seq<Transition>, size: nat): (r: seq<Transition>) {
    if |h| > size then h[|h| - size..] else h
  }

  /** `_publish_payload` */
  function Publish(s: Shelf, p: Payload, origin: Option<string>, from: Option<Etag>, record: bool, size: nat): (s': Shelf) {
    if p.etag.None? || !record then s
    else if p.notModified then s.(latest := p.etag, latestGen := p.gen)
    else
      var previous := if from.Some? then from else s.latest;
      var history :=
        if previous.Some? && previous != p.etag then
          Newest(s.history + [Transition(previous.value, p.etag.value, p.body, origin, p.gen)], size)
        else s.history;
      s.(latest := p.etag, latestGen := p.gen, history := history)
  }

  /** `_reset_if_session_generation_changed` */
  function ResetFor(s: Shelf, generation: nat): (s': Shelf) {
    if generation == s.generation then s else Shelf(None, s.latestGen, [], generation)
  }

  predicate Matches(t: Transition, etag: Etag) { t.from == etag }

  predicate Own(t: Transition, client: Option<string>) { client.Some? && t.origin == client }

  /** The newest transition from this ETag that the client did not make itself. */
  function LastForeign(h: seq<Transition>, etag: Etag, client: Option<string>): (t: Option<Transition>)
    ensures t.Some? ==> t.value in h && Matches(t.value, etag) && !Own(t.value, client)
    ensures t.None? ==> forall i :: 0 <= i < |h| && Matches(h[i], etag) ==> Own(h[i], client)
  {
    if h == [] then None else
    var last := h[|h| - 1];
    if Matches(last, etag) && !Own(last, client) then Some(last) else LastForeign(h[..|h| - 1], etag, client)
  }

  /** The oldest transition from this ETag. */
  function FirstMatch(h: seq<Transition>, etag: Etag): (i: Option<nat>)
    ensures i.Some? ==> i.value < |h| && Matches(h[i.value], etag) && forall j :: 0 <= j < i.value ==> !Matches(h[j], etag)
    ensures i.None? ==> forall j :: 0 <= j < |h| ==> !Matches(h[j], etag)
  {
    if h == [] then None
    else if Matches(h[0], etag) then Some(0)
    else
      var i := FirstMatch(h[1..], etag);
      if i.Some? then Some(i.value + 1) else None
  }

  /**
   `_find_wait_outcome_locked`: a foreign transition to pass on, or else whether to read afresh.  When all
   transitions from this ETag are the client's own, a fresh read is due unless the oldest of them leads to
   the latest ETag.
   */
  function WaitOutcome(s: Shelf, etag: Etag, client: Option<string>): (r: (Option<Transition>, bool)) {
    var foreign := LastForeign(s.history, etag, client);
    var own := FirstMatch(s.history, etag);
    if foreign.Some? then (foreign, false)
    else if own.Some? then (None, s.latest != Some(s.history[own.value].to))
    else (None, s.latest.Some? && s.latest.value != etag)
  }

  // ----- The device

  /**
   Its datastore at every ETag so far, and which client made the change to it, if one did; the counter starts
   above zero and keys are never removed.
   */
  datatype Device = Device(gen: nat, states: seq<Store>, authors: seq<Option<string>>)

  function Now(d: Device): (e: int) { |d.states| - 1 }

  ghost predicate DeviceOk(d: Device) {
    && |d.authors| == |d.states| >= 2 && d.states[0] == map[]
    && forall i, j :: 0 <= i <= j < |d.states| ==> d.states[i].Keys <= d.states[j].Keys
  }

  /** A body that turns one state into another when merged: some of the new state, and all of what changed. */
  ghost predicate IsDelta(body: Store, old': Store, new': Store) {
    && old'.Keys <= new'.Keys
    && (forall k :: k in body ==> k in new' && body[k] == new'[k])
    && (forall k :: k in new' && (k !in old' || old'[k] != new'[k]) ==> k in body)
  }

  lemma MergeDelta(body: Store, old': Store, new': Store)
    requires IsDelta(body, old', new')
    ensures old' + body == new'
  {
  }

  /** The whole new state is one such body. */
  lemma FullIsDelta(d: Device, from: Etag, to: Etag)
    requires DeviceOk(d) && from <= to <= Now(d)
    ensures IsDelta(d.states[to], d.states[from], d.states[to])
  {
  }

  // ----- A sound shelf, in one session

  ghost predicate EntryOk(t: Transition, d: Device) {
    && t.from < t.to <= Now(d)
    && IsDelta(t.body, d.states[t.from], d.states[t.to])
  }

  /** Every entry turns the state at its one end into the state at its other end, and none leads past the latest ETag. */
  ghost predicate ShelfOk(s: Shelf, d: Device) {
    && (s.latest.None? ==> s.history == [])
    && (s.latest.Some? ==> s.latest.value <= Now(d))
    && (forall i :: 0 <= i < |s.history| ==> EntryOk(s.history[i], d) && s.history[i].to <= s.latest.value)
    && (s.generation != d.gen ==> s.latest.None?)
  }

  /** An ETag that does not lie strictly inside any recorded transition. */
  ghost predicate Clear(e: Etag, h: seq<Transition>) {
    forall i :: 0 <= i < |h| ==> e <= h[i].from || h[i].to <= e
  }

  /**
   Later entries lead at least as far, never start strictly inside an earlier one, and start at or after
   its end if a client made them.
   */
  ghost predicate Ordered(h: seq<Transition>) {
    forall i, j :: 0 <= i < j < |h| ==>
      && h[i].to <= h[j].to
      && (h[j].from <= h[i].from || h[i].to <= h[j].from)
      && (h[j].origin.Some? ==> h[i].to <= h[j].from)
  }

  /** An ETag the poller once copied: behind the latest one, and clear of the history. */
  ghost predicate CopyOk(c: Etag, s: Shelf) {
    && Clear(c, s.history)
    && (s.latest.None? ==> c == 0)
    && (s.latest.Some? ==> c <= s.latest.value)
  }

  /** An answer to a read from `asked`: nothing new, or what has changed since. */
  ghost predicate PollAnswerOk(p: Payload, asked: Etag, d: Device) {
    p.etag.Some? ==>
      && asked <= p.etag.value <= Now(d)
      && (p.notModified ==> p.etag.value == asked)
      && (!p.notModified ==> IsDelta(p.body, d.states[asked], d.states[p.etag.value]))
  }

  /** An answer to a read from ETag 0: the whole state. */
  ghost predicate FullAnswerOk(p: Payload, d: Device) {
    p.etag.Some? ==> p.etag.value <= Now(d) && !p.notModified && p.body == d.states[p.etag.value]
  }

  ghost predicate NotAhead(s: Shelf, p: Payload) {
    p.etag.Some? && s.latest.Some? ==> s.latest.value <= p.etag.value
  }

  ghost predicate Sound(s: Shelf, d: Device, size: nat) {
    DeviceOk(d) && ShelfOk(s, d) && Ordered(s.history) && |s.history| <= size
  }

  lemma NewestKeeps(h: seq<Transition>, size: nat, d: Device, e: Etag)
    requires Ordered(h)
    requires forall i :: 0 <= i < |h| ==> EntryOk(h[i], d) && h[i].to <= e
    ensures var r := Newest(h, size);
            && |r| <= size
            && Ordered(r)
            && (forall i :: 0 <= i < |r| ==> EntryOk(r[i], d) && r[i].to <= e)
            && (forall c: Etag :: Clear(c, h) ==> Clear(c, r))
  {
    var r := Newest(h, size);
    var k := |h| - |r|;
    assert forall i :: 0 <= i < |r| ==> r[i] == h[i + k];
  }

  /** Recording one more transition, from an ETag that is clear of the others to one that is not behind them. */
  lemma RecordKeeps(s: Shelf, d: Device, t: Transition, size: nat)
    requires Sound(s, d, size) && s.generation == d.gen
    requires EntryOk(t, d) && Clear(t.from, s.history) && (s.latest.Some? ==> s.latest.value <= t.to)
    requires t.origin.Some? ==> s.latest == Some(t.from)
    ensures var s' := s.(latest := Some(t.to), latestGen := t.gen, history := Newest(s.history + [t], size));
            && Sound(s', d, size)
            && (forall c: Etag :: Clear(c, s.history) && (c <= t.from || t.to <= c) ==> Clear(c, s'.history))
  {
    hide DeviceOk;
    var h := s.history + [t];
    forall i, j | 0 <= i < j < |h|
      ensures h[i].to <= h[j].to && (h[j].from <= h[i].from || h[i].to <= h[j].from)
      ensures h[j].origin.Some? ==> h[i].to <= h[j].from
    {
      if j == |h| - 1 { assert h[i] == s.history[i]; }
    }
    NewestKeeps(h, size, d, t.to);
    forall c: Etag | Clear(c, s.history) && (c <= t.from || t.to <= c) ensures Clear(c, h) {}
  }

  /** Publishing a full answer, with or without an originating client, keeps the shelf and the poller's copy sound. */
  lemma ForegroundPublishKeeps(s: Shelf, d: Device, p: Payload, origin: Option<string>, size: nat, copy: Option<Etag>)
    requires Sound(s, d, size) && s.generation == d.gen
    requires FullAnswerOk(p, d) && NotAhead(s, p)
    requires copy.Some? ==> CopyOk(copy.value, s)
    ensures var s' := Publish(s, p, origin, None, true, size);
            && Sound(s', d, size) && s'.generation == d.gen
            && s'.latest == (if p.etag.Some? then p.etag else s.latest)
            && (copy.Some? ==> CopyOk(copy.value, s'))
  {
    hide IsDelta, Newest;
    if p.etag.Some? && s.latest.Some? && s.latest != p.etag {
      FullIsDelta(d, s.latest.value, p.etag.value);
      var t := Transition(s.latest.value, p.etag.value, p.body, origin, p.gen);
      RecordKeeps(s, d, t, size);
    }
  }

  /** Publishing the poller's answer does so too, whatever was published since it copied its ETag. */
  lemma PollerPublishKeeps(s: Shelf, d: Device, p: Payload, asked: Etag, size: nat)
    requires Sound(s, d, size) && s.generation == d.gen
    requires PollAnswerOk(p, asked, d) && NotAhead(s, p) && CopyOk(asked, s)
    ensures var s' := Publish(s, p, None, Some(asked), true, size);
            && Sound(s', d, size) && s'.generation == d.gen
            && s'.latest == (if p.etag.Some? then p.etag else s.latest)
            && (p.etag.Some? ==> CopyOk(asked, s'))
  {
    hide IsDelta, Newest;
    if p.etag.Some? && !p.notModified && asked != p.etag.value {
      RecordKeeps(s, d, Transition(asked, p.etag.value, p.body, None, p.gen), size);
    }
  }

  // ----- What a waiting client gets

  /** A client that has the state at its ETag and merges a transition it is given has the state at the new one. */
  lemma CachedTransitionIsSound(s: Shelf, d: Device, size: nat, etag: Etag, copy: Store, client: Option<string>)
    requires Sound(s, d, size) && etag <= Now(d) && copy == d.states[etag]
    requires WaitOutcome(s, etag, client).0.Some?
    ensures var t := WaitOutcome(s, etag, client).0.value;
            etag < t.to <= Now(d) && copy + t.body == d.states[t.to]
  {
    var t := WaitOutcome(s, etag, client).0.value;
    var i :| 0 <= i < |s.history| && s.history[i] == t;
    assert EntryOk(s.history[i], d);
    MergeDelta(t.body, d.states[t.from], d.states[t.to]);
  }

  /**
   A 304 hides nothing recorded: every transition on the shelf that starts at or after the waiter's ETag is
   the waiter's own.
   */
  lemma NothingIsHidden(s: Shelf, d: Device, size: nat, etag: Etag, client: Option<string>, j: nat)
    requires Sound(s, d, size)
    requires WaitOutcome(s, etag, client) == (None, false)
    requires j < |s.history| && s.history[j].from >= etag
    ensures Own(s.history[j], client)
  {
    hide IsDelta, DeviceOk;
    var h := s.history;
    assert EntryOk(h[j], d) && h[j].to <= s.latest.value;
    var own := FirstMatch(h, etag);
    assert own.Some?;
    var i := own.value;
    assert Own(h[i], client) && EntryOk(h[i], d);
  }

  predicate Foreign(t: Transition, etag: Etag, client: Option<string>) { Matches(t, etag) && !Own(t, client) }

  lemma {:induction false} LastForeignAt(h: seq<Transition>, etag: Etag, client: Option<string>) returns (k: nat)
    requires LastForeign(h, etag, client).Some?
    ensures k < |h| && h[k] == LastForeign(h, etag, client).value
    ensures forall j :: k < j < |h| ==> !Foreign(h[j], etag, client)
  {
    k := |h| - 1;
    if !Foreign(h[k], etag, client) {
      k := LastForeignAt(h[..|h| - 1], etag, client);
    }
  }

  /** Nothing on the shelf is news to the client: it has the latest ETag, or its own change led there from its ETag. */
  ghost predicate NoNews(s: Shelf, etag: Etag, client: Option<string>) {
    || s.latest.None? || s.latest.value == etag
    || ((exists i :: 0 <= i < |s.history| && Matches(s.history[i], etag) && s.history[i].to == s.latest.value)
        && (forall j :: 0 <= j < |s.history| && s.history[j].from >= etag ==> Own(s.history[j], client)))
  }

  /**
   What a waiter is told, exactly: a transition if one from its ETag is not its own, and then the one that
   leads farthest; nothing if there is no news; and to read afresh in every other case.
   */
  lemma WaiterIsToldExactly(s: Shelf, d: Device, size: nat, etag: Etag, client: Option<string>)
    requires Sound(s, d, size)
    ensures var r := WaitOutcome(s, etag, client);
            && (r.0.Some? <==> exists j :: 0 <= j < |s.history| && Foreign(s.history[j], etag, client))
            && (r.0.Some? ==> forall j :: 0 <= j < |s.history| && Foreign(s.history[j], etag, client) ==> s.history[j].to <= r.0.value.to)
            && (r == (None, false) <==> NoNews(s, etag, client))
  {
    FarthestForeign(s, d, size, etag, client);
    WaitsOnNoNews(s, d, size, etag, client);
    hide Sound, NoNews, WaitOutcome;
  }

  lemma FarthestForeign(s: Shelf, d: Device, size: nat, etag: Etag, client: Option<string>)
    requires Sound(s, d, size)
    ensures var r := WaitOutcome(s, etag, client);
            && (r.0.Some? <==> exists j :: 0 <= j < |s.history| && Foreign(s.history[j], etag, client))
            && (r.0.Some? ==> forall j :: 0 <= j < |s.history| && Foreign(s.history[j], etag, client) ==> s.history[j].to <= r.0.value.to)
  {
    hide DeviceOk, ShelfOk;
    var h := s.history;
    if LastForeign(h, etag, client).Some? {
      var k := LastForeignAt(h, etag, client);
      assert Foreign(h[k], etag, client);
    }
  }

  lemma WaitsOnNoNews(s: Shelf, d: Device, size: nat, etag: Etag, client: Option<string>)
    requires Sound(s, d, size)
    ensures WaitOutcome(s, etag, client) == (None, false) <==> NoNews(s, etag, client)
  {
    hide IsDelta, DeviceOk, Ordered;
    var h, r := s.history, WaitOutcome(s, etag, client);
    assert forall i :: 0 <= i < |h| ==> EntryOk(h[i], d) && h[i].to <= s.latest.value;
    if r == (None, false) {
      forall j | 0 <= j < |h| && h[j].from >= etag ensures Own(h[j], client) { NothingIsHidden(s, d, size, etag, client, j); }
    } else if r.0.Some? {
      var k := LastForeignAt(h, etag, client);
      assert Foreign(h[k], etag, client);
    } else {
      TwoMatches(s, d, size, etag, client);
    }
  }

  /** A change of the client's own is the only one recorded from its ETag, if no foreign one is. */
  lemma TwoMatches(s: Shelf, d: Device, size: nat, etag: Etag, client: Option<string>)
    requires Sound(s, d, size) && LastForeign(s.history, etag, client).None?
    ensures forall i, j :: 0 <= i < j < |s.history| && Matches(s.history[i], etag) ==> !Matches(s.history[j], etag)
  {
    hide IsDelta, DeviceOk;
    var h := s.history;
    forall i, j | 0 <= i < j < |h| && Matches(h[i], etag) ensures !Matches(h[j], etag) {
      assert EntryOk(h[i], d);
      assert Matches(h[j], etag) ==> Own(h[j], client);
    }
  }

  /**
   The next change is passed on verbatim: of two waiters at the latest ETag, the one whose change it is goes
   on waiting, and the other gets the published body with its ETag.
   */
  lemma PublishedIsDelivered(s: Shelf, d: Device, size: nat, p: Payload, origin: Option<string>, client: Option<string>)
    requires Sound(s, d, size) && size > 0 && s.latest.Some?
    requires p.etag.Some? && !p.notModified && p.etag != s.latest
    ensures var r := WaitOutcome(Publish(s, p, origin, None, true, size), s.latest.value, client);
            if client.Some? && client == origin then r == (None, false)
            else r == (Some(Transition(s.latest.value, p.etag.value, p.body, origin, p.gen)), false)
  {
    hide IsDelta, DeviceOk, Ordered, Newest, LastForeign, FirstMatch;
    var etag := s.latest.value;
    var t := Transition(etag, p.etag.value, p.body, origin, p.gen);
    assert forall i :: 0 <= i < |s.history| ==> EntryOk(s.history[i], d) && !Matches(s.history[i], etag);
    NewestEndsWith(s.history, t, size, etag);
    OnlyTheLastMatches(Newest(s.history + [t], size), etag, client);
  }

  lemma NewestEndsWith(h: seq<Transition>, t: Transition, size: nat, etag: Etag)
    requires size > 0 && forall i :: 0 <= i < |h| ==> !Matches(h[i], etag)
    ensures var r := Newest(h + [t], size);
            r != [] && r[|r| - 1] == t && forall i :: 0 <= i < |r| - 1 ==> !Matches(r[i], etag)
  {
  }

  lemma OnlyTheLastMatches(h: seq<Transition>, etag: Etag, client: Option<string>)
    requires h != [] && Matches(h[|h| - 1], etag) && forall i :: 0 <= i < |h| - 1 ==> !Matches(h[i], etag)
    ensures var last := |h| - 1;
            && LastForeign(h, etag, client) == (if Own(h[last], client) then None else Some(h[last]))
            && FirstMatch(h, etag) == Some(last)
  {
    var last := |h| - 1;
    assert FirstMatch(h, etag).Some?;
    if LastForeign(h, etag, client).Some? {
      var k := LastForeignAt(h, etag, client);
      assert Matches(h[k], etag);
    }
  }
}
