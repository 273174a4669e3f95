/**
 Where the entries of the ETag history come from: every end of a recorded transition was brought in by a
 response that some thread fetched, unless it is the poller's first read, which begins at "0"
 (motu_proxy/datastore.py).  From that follows what a 304 can hide, and when a transition joins two sessions.
 */
module Provenance {
  import opened Wrappers
  import opened Arbitration
  import opened Cache
  import opened Coordination

  /** This move fetches a response of the poll path with this ETag. */
  predicate Brings(w: World, m: Move, e: Etag) {
    || (m.PollFetch? && m.answer.etag == Some(e))
    || (m.Fetch? && m.thread in w.locals && w.locals[m.thread].purpose != ReadOther && m.answer.etag == Some(e))
  }

  /** And it is the refresh after a post of this client. */
  predicate RefreshOf(w: World, m: Move, client: string) {
    m.Fetch? && m.thread in w.locals && w.locals[m.thread].purpose == PostAndRefresh(Some(client))
  }

  /** The ETag was brought in before move `n`, in this session. */
  ghost predicate Brought(run: seq<World>, moves: seq<Move>, n: nat, e: Etag, gen: nat)
    requires n <= |moves| < |run|
  {
    exists i :: 0 <= i < n && Brings(run[i], moves[i], e) && run[i].device.gen == gen
  }

  ghost predicate LatestKnown(run: seq<World>, moves: seq<Move>, n: nat)
    requires n <= |moves| < |run|
  {
    var s := run[n].shelf;
    s.latest.Some? ==> Brought(run, moves, n, s.latest.value, s.latestGen)
  }

  /** Move `c` is the last copy before `n`, and this is the ETag that it took. */
  ghost predicate CopiedAt(run: seq<World>, moves: seq<Move>, c: nat, n: nat, e: Etag)
    requires n <= |moves| < |run|
  {
    && c < n && moves[c] == PollCopy && (forall m :: c < m < n ==> moves[m] != PollCopy)
    && e == if run[c].shelf.latest.Some? then run[c].shelf.latest.value else 0
  }

  ghost predicate CopyKnown(run: seq<World>, moves: seq<Move>, n: nat)
    requires n <= |moves| < |run|
  {
    run[n].copied.Some? ==> exists c: nat :: CopiedAt(run, moves, c, n, run[n].copied.value)
  }

  /** This move is the fetch of what this thread has in hand. */
  predicate FetchedAt(w: World, m: Move, t: ThreadId, l: Local)
    requires l.response.Some?
  {
    m == Fetch(t, l.response.value) && t in w.locals && w.locals[t].purpose == l.purpose && w.device.gen == l.response.value.gen
  }

  /** What a thread has yet to publish was fetched after the latest ETag had been brought in. */
  ghost predicate LocalKnown(run: seq<World>, moves: seq<Move>, n: nat, t: ThreadId)
    requires n <= |moves| < |run| && t in run[n].locals
  {
    var l, s := run[n].locals[t], run[n].shelf;
    l.response.Some? && !l.published ==>
      exists j :: 0 <= j < n && FetchedAt(run[j], moves[j], t, l)
                  && (s.latest.Some? ==> Brought(run, moves, j, s.latest.value, s.latestGen))
  }

  ghost predicate LocalsKnown(run: seq<World>, moves: seq<Move>, n: nat)
    requires n <= |moves| < |run|
  {
    forall t :: t in run[n].locals ==> LocalKnown(run, moves, n, t)
  }

  /** Move `j` is the fetch of what the poller has in hand, and since then the poller has neither fetched nor copied. */
  ghost predicate PolledAt(run: seq<World>, moves: seq<Move>, j: nat, n: nat, p: Payload)
    requires n <= |moves| < |run|
  {
    && j < n && moves[j] == PollFetch(p) && run[j].device.gen == p.gen
    && forall m :: j < m < n ==> !moves[m].PollFetch? && moves[m] != PollCopy
  }

  ghost predicate PolledKnown(run: seq<World>, moves: seq<Move>, n: nat)
    requires n <= |moves| < |run|
  {
    run[n].polled.Some? ==> exists j: nat :: PolledAt(run, moves, j, n, run[n].polled.value)
  }

  ghost predicate Known(run: seq<World>, moves: seq<Move>, n: nat)
    requires n <= |moves| < |run|
  {
    LatestKnown(run, moves, n) && CopyKnown(run, moves, n) && LocalsKnown(run, moves, n) && PolledKnown(run, moves, n)
  }

  // ----- Every move keeps it

  /** One step of a run, with what is known of the world before it. */
  ghost predicate StepAt(run: seq<World>, moves: seq<Move>, size: nat, n: nat) {
    && n < |moves| < |run| && CanMove(run[n], moves[n]) && run[n + 1] == Go(run[n], moves[n], size)
    && Structured(run[n]) && GenerationSafe(run[n], size) && Known(run, moves, n)
  }

  lemma StillBrought(run: seq<World>, moves: seq<Move>, n: nat, e: Etag, gen: nat)
    requires n < |moves| < |run| && Brought(run, moves, n, e, gen)
    ensures Brought(run, moves, n + 1, e, gen)
  {
  }

  lemma LatestAfter(s: Shelf, p: Payload, gen: nat, origin: Option<string>, from: Option<Etag>, record: bool, size: nat)
    ensures var s' := Publish(ResetFor(s, gen), p, origin, from, record, size);
            || s'.latest.None? || (s'.latest == s.latest && s'.latestGen == s.latestGen)
            || (record && s'.latest == p.etag && s'.latestGen == p.gen)
    ensures ResetFor(s, gen).latest.None? || ResetFor(s, gen) == s
  {
  }

  /** What a move does to what the poller has copied and fetched. */
  lemma MoveSeen(w: World, m: Move, size: nat)
    requires Structured(w) && CanMove(w, m)
    ensures var w' := Go(w, m, size);
            && w'.copied == (if m.PollCopy? then Some(if w.shelf.latest.Some? then w.shelf.latest.value else 0) else if m.PollFinish? then None else w.copied)
            && (w'.polled.Some? ==> m == PollFetch(w'.polled.value) || (w'.polled == w.polled && !m.PollFetch? && m != PollCopy))
            && (m.PollFetch? ==> m.answer.gen == w.device.gen)
  {
    hide Apply, Enabled, WaitOutcome, FullAnswerOk, PollAnswerOk, DeviceOk, Publish, ResetFor, Inv;
  }

  lemma LatestStep(run: seq<World>, moves: seq<Move>, size: nat, n: nat)
    requires StepAt(run, moves, size, n)
    ensures LatestKnown(run, moves, n + 1)
  {
    var s := run[n].shelf;
    LatestMoves(run[n], moves[n], size);
    hide Structured, GenerationSafe, CanMove, Go, Known;
    assert LatestKnown(run, moves, n) by { LatestOf(run, moves, n); }
    if s.latest.Some? { StillBrought(run, moves, n, s.latest.value, s.latestGen); }
    if moves[n].PublishIt? {
      var j := WhereFetched(run, moves, n, moves[n].thread);
      var l := run[n].locals[moves[n].thread];
      assert l.purpose != ReadOther && l.response.value.etag.Some? ==> Brings(run[j], moves[j], l.response.value.etag.value);
    } else if moves[n].PollPublish? {
      var j := WherePolled(run, moves, n);
      assert run[n].polled.value.etag.Some? ==> Brings(run[j], moves[j], run[n].polled.value.etag.value);
    }
  }

  lemma LatestOf(run: seq<World>, moves: seq<Move>, n: nat)
    requires n <= |moves| < |run| && Known(run, moves, n)
    ensures LatestKnown(run, moves, n)
  {
  }

  /** Where a latest ETag can come from. */
  lemma LatestMoves(w: World, m: Move, size: nat)
    requires CanMove(w, m)
    ensures var s, s' := w.shelf, Go(w, m, size).shelf;
            || s'.latest.None? || (s'.latest == s.latest && s'.latestGen == s.latestGen)
            || (m.PublishIt? && w.locals[m.thread].purpose != ReadOther
                && s'.latest == w.locals[m.thread].response.value.etag && s'.latestGen == w.locals[m.thread].response.value.gen)
            || (m.PollPublish? && s'.latest == w.polled.value.etag && s'.latestGen == w.polled.value.gen)
    ensures m.PublishIt? ==> m.thread in w.locals && w.locals[m.thread].response.Some? && !w.locals[m.thread].published
    ensures m.PollPublish? ==> w.polled.Some?
  {
    hide Apply, Enabled, WaitOutcome, FullAnswerOk, PollAnswerOk, DeviceOk, Publish, ResetFor;
    LatestAfter(w.shelf, Payload(map[], None, false, 0), w.device.gen, None, None, false, size);
    if m.PublishIt? {
      var l := w.locals[m.thread];
      LatestAfter(w.shelf, l.response.value, w.device.gen, Origin(l.purpose), None, l.purpose != ReadOther, size);
    } else if m.PollPublish? {
      LatestAfter(w.shelf, w.polled.value, w.device.gen, None, w.copied, true, size);
    }
  }

  lemma CopyStep(run: seq<World>, moves: seq<Move>, size: nat, n: nat)
    requires StepAt(run, moves, size, n)
    ensures CopyKnown(run, moves, n + 1)
  {
    MoveSeen(run[n], moves[n], size);
    hide Structured, GenerationSafe, Go, CanMove, LatestKnown, LocalsKnown, PolledKnown;
    if moves[n].PollCopy? {
      assert CopiedAt(run, moves, n, n + 1, run[n + 1].copied.value);
    } else if run[n + 1].copied.Some? {
      var c: nat :| CopiedAt(run, moves, c, n, run[n].copied.value);
      assert CopiedAt(run, moves, c, n + 1, run[n].copied.value);
    }
  }

  lemma PolledStep(run: seq<World>, moves: seq<Move>, size: nat, n: nat)
    requires StepAt(run, moves, size, n)
    ensures PolledKnown(run, moves, n + 1)
  {
    MoveSeen(run[n], moves[n], size);
    hide Structured, GenerationSafe, Go, CanMove, LatestKnown, LocalsKnown, CopyKnown;
    if run[n + 1].polled.Some? {
      if moves[n] == PollFetch(run[n + 1].polled.value) {
        assert PolledAt(run, moves, n, n + 1, run[n + 1].polled.value);
      } else {
        var j: nat :| PolledAt(run, moves, j, n, run[n].polled.value);
        assert PolledAt(run, moves, j, n + 1, run[n].polled.value);
      }
    }
  }

  lemma LocalsStep(run: seq<World>, moves: seq<Move>, size: nat, n: nat)
    requires StepAt(run, moves, size, n)
    ensures LocalsKnown(run, moves, n + 1)
  {
    var w' := run[n + 1];
    forall t | t in w'.locals && w'.locals[t].response.Some? && !w'.locals[t].published ensures LocalKnown(run, moves, n + 1, t) {
      LocalStep(run, moves, size, n, t);
    }
  }

  lemma LocalStep(run: seq<World>, moves: seq<Move>, size: nat, n: nat, t: ThreadId)
    requires StepAt(run, moves, size, n)
    requires t in run[n + 1].locals && run[n + 1].locals[t].response.Some? && !run[n + 1].locals[t].published
    ensures LocalKnown(run, moves, n + 1, t)
  {
    var w, w', m := run[n], run[n + 1], moves[n];
    if m == Fetch(t, w'.locals[t].response.value) && w.locals[t].response.None? {
      hide Structured, Apply, Enabled, WaitOutcome, FullAnswerOk, PollAnswerOk, DeviceOk, Publish, ResetFor;
      assert FetchedAt(w, m, t, w'.locals[t]);
    } else {
      SameInHand(w, m, size, t);
      hide Structured, CanMove, Go, GenerationSafe;
      assert LocalKnown(run, moves, n, t);
    }
  }

  /** Nobody else publishes while a thread has something in hand. */
  lemma SameInHand(w: World, m: Move, size: nat, t: ThreadId)
    requires Structured(w) && CanMove(w, m)
    requires t in Go(w, m, size).locals && Go(w, m, size).locals[t].response.Some? && !Go(w, m, size).locals[t].published
    requires !(m.Fetch? && m.thread == t)
    ensures t in w.locals && w.locals[t] == Go(w, m, size).locals[t]
    ensures Go(w, m, size).shelf == w.shelf || Go(w, m, size).shelf.latest.None?
  {
    hide Apply, Enabled, WaitOutcome, FullAnswerOk, PollAnswerOk, DeviceOk, Publish, Inv;
    if m.PublishIt? { OneResponse(w, m.thread); }
    if m.PollPublish? { PollerResponse(w); }
  }

  lemma WhereFetched(run: seq<World>, moves: seq<Move>, n: nat, t: ThreadId) returns (j: nat)
    requires n <= |moves| < |run| && Known(run, moves, n)
    requires t in run[n].locals && run[n].locals[t].response.Some? && !run[n].locals[t].published
    ensures j < n && FetchedAt(run[j], moves[j], t, run[n].locals[t])
    ensures var s := run[n].shelf; s.latest.Some? ==> Brought(run, moves, j, s.latest.value, s.latestGen)
  {
    assert LocalKnown(run, moves, n, t);
    var l, s := run[n].locals[t], run[n].shelf;
    j :| 0 <= j < n && FetchedAt(run[j], moves[j], t, l) && (s.latest.Some? ==> Brought(run, moves, j, s.latest.value, s.latestGen));
  }

  lemma WherePolled(run: seq<World>, moves: seq<Move>, n: nat) returns (j: nat)
    requires n <= |moves| < |run| && Known(run, moves, n) && run[n].polled.Some?
    ensures PolledAt(run, moves, j, n, run[n].polled.value)
  {
    j :| PolledAt(run, moves, j, n, run[n].polled.value);
  }

  lemma WhereCopied(run: seq<World>, moves: seq<Move>, n: nat) returns (c: nat)
    requires n <= |moves| < |run| && Known(run, moves, n) && run[n].copied.Some?
    ensures CopiedAt(run, moves, c, n, run[n].copied.value)
  {
    c :| CopiedAt(run, moves, c, n, run[n].copied.value);
  }

  /** In every run, with any sessions: the latest ETag, the poller's copy and every response in hand trace back to the moves they came from. */
  lemma {:induction false} EverythingIsKnown(run: seq<World>, moves: seq<Move>, size: nat, n: nat)
    requires IsWorldRun(run, moves, size) && n < |run|
    ensures Known(run, moves, n)
  {
    if n > 0 {
      EverythingIsKnown(run, moves, size, n - 1);
      GenerationSafety(run, moves, size, n - 1);
      hide Known, CanMove, Go, Structured, GenerationSafe;
      KnownStep(run, moves, size, n - 1);
    }
  }

  lemma KnownStep(run: seq<World>, moves: seq<Move>, size: nat, n: nat)
    requires StepAt(run, moves, size, n)
    ensures Known(run, moves, n + 1)
  {
    hide StepAt, LatestKnown, CopyKnown, LocalsKnown, PolledKnown;
    LatestStep(run, moves, size, n);
    CopyStep(run, moves, size, n);
    LocalsStep(run, moves, size, n);
    PolledStep(run, moves, size, n);
  }

  // ----- Which move recorded an entry

  /** The transition that a move records, if it records one. */
  function RecordOf(w: World, m: Move): (t: Option<Transition>) {
    match m
    case PublishIt(u) =>
      if u !in w.locals || w.locals[u].response.None? || w.locals[u].purpose == ReadOther then None
      else Appended(ResetFor(w.shelf, w.device.gen), w.locals[u].response.value, Origin(w.locals[u].purpose), None)
    case PollPublish =>
      if w.polled.None? then None else Appended(ResetFor(w.shelf, w.device.gen), w.polled.value, None, w.copied)
    case _ => None
  }

  function Appended(s: Shelf, p: Payload, origin: Option<string>, from: Option<Etag>): (t: Option<Transition>) {
    var previous := if from.Some? then from else s.latest;
    if p.etag.None? || p.notModified || previous.None? || previous == p.etag then None
    else Some(Transition(previous.value, p.etag.value, p.body, origin, p.gen))
  }

  lemma PublishAppends(s: Shelf, p: Payload, origin: Option<string>, from: Option<Etag>, size: nat)
    ensures var t := Appended(s, p, origin, from);
            Publish(s, p, origin, from, true, size).history == if t.Some? then Newest(s.history + [t.value], size) else s.history
    ensures Publish(s, p, origin, from, false, size).history == s.history
    ensures forall gen :: ResetFor(s, gen).history == s.history || ResetFor(s, gen).history == []
  {
  }

  lemma HistoryMoves(w: World, m: Move, size: nat)
    requires CanMove(w, m)
    ensures var h, h', t := w.shelf.history, Go(w, m, size).shelf.history, RecordOf(w, m);
            if t.Some? then h' == Newest(h + [t.value], size) || h' == Newest([t.value], size) else h' == h || h' == []
  {
    hide Apply, Enabled, WaitOutcome, FullAnswerOk, PollAnswerOk, DeviceOk, Publish, ResetFor, Newest, Appended;
    var s := ResetFor(w.shelf, w.device.gen);
    PublishAppends(w.shelf, Payload(map[], None, false, 0), None, None, size);
    if m.PublishIt? {
      PublishAppends(s, w.locals[m.thread].response.value, Origin(w.locals[m.thread].purpose), None, size);
    } else if m.PollPublish? {
      PublishAppends(s, w.polled.value, None, w.copied, size);
    }
    if RecordOf(w, m).Some? { assert [] + [RecordOf(w, m).value] == [RecordOf(w, m).value]; }
  }

  /** How many of the moves from `a` on, before `b`, record something. */
  function Records(run: seq<World>, moves: seq<Move>, a: nat, b: nat): (r: nat)
    requires b <= |moves| < |run|
    decreases b
  {
    if a >= b then 0 else Records(run, moves, a, b - 1) + (if RecordOf(run[b - 1], moves[b - 1]).Some? then 1 else 0)
  }

  /** Move `p` recorded the `k`-th entry: as many were recorded after it as stand behind that entry. */
  ghost predicate RecordedAt(run: seq<World>, moves: seq<Move>, n: nat, k: nat, p: nat)
    requires n <= |moves| < |run| && k < |run[n].shelf.history|
  {
    && p < n && RecordOf(run[p], moves[p]) == Some(run[n].shelf.history[k])
    && Records(run, moves, p + 1, n) == |run[n].shelf.history| - 1 - k
  }

  lemma {:induction false} WhereRecorded(run: seq<World>, moves: seq<Move>, size: nat, n: nat, k: nat) returns (p: nat)
    requires IsWorldRun(run, moves, size) && n < |run| && k < |run[n].shelf.history|
    ensures RecordedAt(run, moves, n, k, p)
    decreases n
  {
    hide CanMove, Go, RecordOf;
    assert n > 0;
    var h, h', t := run[n - 1].shelf.history, run[n].shelf.history, RecordOf(run[n - 1], moves[n - 1]);
    HistoryMoves(run[n - 1], moves[n - 1], size);
    if t.Some? && k == |h'| - 1 {
      p := n - 1;
    } else {
      var back := |h'| - 1 - k - (if t.Some? then 1 else 0);
      assert h'[k] == h[|h| - 1 - back];
      p := WhereRecorded(run, moves, size, n - 1, |h| - 1 - back);
    }
  }

  lemma {:induction false} RecordsAddUp(run: seq<World>, moves: seq<Move>, a: nat, b: nat, c: nat)
    requires a <= b <= c <= |moves| < |run|
    ensures Records(run, moves, a, c) == Records(run, moves, a, b) + Records(run, moves, b, c)
    decreases c
  {
    if b < c { RecordsAddUp(run, moves, a, b, c - 1); }
  }

  /** There is only one such move. */
  lemma RecordedOnce(run: seq<World>, moves: seq<Move>, n: nat, k: nat, p: nat, q: nat)
    requires n <= |moves| < |run| && k < |run[n].shelf.history|
    requires RecordedAt(run, moves, n, k, p) && RecordedAt(run, moves, n, k, q)
    ensures p == q
  {
    var a, b := if p < q then p else q, if p < q then q else p;
    if a < b {
      RecordsAddUp(run, moves, a + 1, b + 1, n);
    }
  }

  // ----- The device between two moves

  ghost predicate RenewedBetween(moves: seq<Move>, i: nat, j: nat)
    requires i <= j <= |moves|
  {
    exists m :: i <= m < j && moves[m].Renew?
  }

  lemma DeviceMoves(w: World, m: Move, size: nat)
    requires CanMove(w, m)
    ensures var d, d' := w.device, Go(w, m, size).device;
            d' == if m.DeviceChanges? then Changed(d, m.next, m.author) else if m.Renew? then Device(d.gen + 1, m.states, m.authors) else d
  {
    hide Apply, Enabled, WaitOutcome, FullAnswerOk, PollAnswerOk, DeviceOk, Publish, ResetFor;
  }

  /** Sessions are counted up, and within one the device only adds states. */
  lemma {:induction false} DeviceGrows(run: seq<World>, moves: seq<Move>, size: nat, i: nat, j: nat)
    requires IsWorldRun(run, moves, size) && i <= j < |run|
    ensures var d, d' := run[i].device, run[j].device;
            && d.gen <= d'.gen && (d.gen < d'.gen <==> RenewedBetween(moves, i, j))
            && (d.gen == d'.gen ==> d.states <= d'.states && d.authors <= d'.authors)
    decreases j
  {
    hide CanMove, Go;
    if i < j {
      DeviceGrows(run, moves, size, i, j - 1);
      DeviceMoves(run[j - 1], moves[j - 1], size);
    }
  }

  /** A change that another than this client made. */
  predicate ForeignMove(m: Move, client: string) { m.DeviceChanges? && m.author != Some(client) }

  ghost predicate ForeignBetween(d: Device, a: Etag, b: Etag, client: string) {
    exists k :: a < k <= b && k < |d.authors| && d.authors[k] != Some(client)
  }

  lemma {:induction false} AuthorsAreMovers(run: seq<World>, moves: seq<Move>, size: nat, i: nat, j: nat, client: string)
    requires IsWorldRun(run, moves, size) && i <= j < |run| && run[i].device.gen == run[j].device.gen
    requires |run[i].device.authors| == |run[i].device.states| > 0
    ensures |run[j].device.authors| == |run[j].device.states| >= |run[i].device.states|
    ensures ForeignBetween(run[j].device, Now(run[i].device), Now(run[j].device), client)
            <==> exists m :: i <= m < j && ForeignMove(moves[m], client)
    decreases j
  {
    hide CanMove, Go;
    if i < j {
      DeviceGrows(run, moves, size, i, j - 1);
      DeviceGrows(run, moves, size, j - 1, j);
      DeviceMoves(run[j - 1], moves[j - 1], size);
      AuthorsAreMovers(run, moves, size, i, j - 1, client);
      OneMoreAuthor(run[j - 1].device, run[j].device, Now(run[i].device), client);
    }
  }

  lemma OneMoreAuthor(d: Device, d': Device, a: Etag, client: string)
    requires |d.authors| == |d.states| && a <= Now(d)
    requires d' == d || (exists next, author :: d' == Changed(d, next, author))
    ensures ForeignBetween(d', a, Now(d'), client)
            <==> ForeignBetween(d, a, Now(d), client) || (d' != d && d'.authors[Now(d')] != Some(client))
  {
    if d' != d {
      var top := Now(d');
      assert forall k :: 0 <= k < top ==> d'.authors[k] == d.authors[k];
      if d'.authors[top] != Some(client) { assert ForeignBetween(d', a, top, client); }
    }
  }

  /** Within a session, a fetch brings the ETag at which the device then is. */
  lemma BringsNow(w: World, m: Move, e: Etag)
    requires CanMove(w, m) && Brings(w, m, e)
    ensures Now(w.device) == e
  {
    hide FullAnswerOk, PollAnswerOk, Enabled, WaitOutcome, DeviceOk;
  }

  // ----- What a 304 hides

  /**
   What a 304 hides, exactly.  If a client is left waiting although the latest ETag is not its own, then the
   refresh of one of its posts brought in the latest ETag, and its own ETag had been brought in before; and a
   change that somebody else made is hidden from it if and only if the device was changed by somebody else
   between those two fetches.
   */
  lemma HiddenChangesExactly(run: seq<World>, moves: seq<Move>, size: nat, n: nat, client: string, etag: Etag) returns (i: nat, j: nat)
    requires IsWorldRun(run, moves, size) && n < |run|
    requires forall k :: 0 <= k < n ==> !moves[k].Renew?
    requires WaitOutcome(run[n].shelf, etag, Some(client)) == (None, false)
    requires run[n].shelf.latest.Some? && run[n].shelf.latest.value != etag
    ensures i < j < n && Brings(run[i], moves[i], etag)
    ensures Brings(run[j], moves[j], run[n].shelf.latest.value) && RefreshOf(run[j], moves[j], client)
    ensures ForeignBetween(run[n].device, etag, run[n].shelf.latest.value, client)
            <==> exists m :: i < m < j && ForeignMove(moves[m], client)
  {
    hide CanMove, Go, WaitOutcome;
    var s, latest := run[n].shelf, run[n].shelf.latest.value;
    ClientsNeverDrift(run, moves, size, n);
    WaiterIsToldExactly(s, run[n].device, size, etag, Some(client));
    var k :| 0 <= k < |s.history| && Matches(s.history[k], etag) && s.history[k].to == latest;
    assert EntryOk(s.history[k], run[n].device) && Own(s.history[k], Some(client));
    var p := WhereRecorded(run, moves, size, n, k);
    OwnIsForeground(run[p], moves[p]);
    i, j := ForegroundEnds(run, moves, size, p);
    hide AllSound, Known, Brings, NoNews, RecordOf, RecordedAt;
    BringsNow(run[i], moves[i], etag);
    BringsNow(run[j], moves[j], latest);
    ClientsNeverDrift(run, moves, size, i);
    assert |run[i].device.authors| == |run[i].device.states| > 0 by { AuthorsInStep(run[i], size); }
    DeviceGrows(run, moves, size, i, j);
    DeviceGrows(run, moves, size, j, n);
    AuthorsAreMovers(run, moves, size, i, j, client);
    AuthorsAreMovers(run, moves, size, j, n, client);
    SameAuthors(run[j].device, run[n].device, etag, client);
    assert !ForeignMove(moves[i], client) by { FetchIsNoChange(run[i], moves[i], etag); }
  }

  lemma OwnIsForeground(w: World, m: Move)
    requires RecordOf(w, m).Some? && RecordOf(w, m).value.origin.Some?
    ensures m.PublishIt?
  {
  }

  lemma FetchIsNoChange(w: World, m: Move, e: Etag)
    requires Brings(w, m, e)
    ensures !m.DeviceChanges?
  {
  }

  lemma AuthorsInStep(w: World, size: nat)
    requires AllSound(w, size)
    ensures |w.device.authors| == |w.device.states| > 0
  {
  }

  lemma SameAuthors(d: Device, d': Device, a: Etag, client: string)
    requires d.authors <= d'.authors && |d.states| == |d.authors| > 0
    ensures ForeignBetween(d, a, Now(d), client) <==> ForeignBetween(d', a, Now(d), client)
  {
    assert forall k :: 0 <= k < |d.authors| ==> d'.authors[k] == d.authors[k];
  }

  /** What a foreground thread records: both ends are of the session in which it is recorded. */
  lemma ForegroundEnds(run: seq<World>, moves: seq<Move>, size: nat, p: nat) returns (i: nat, j: nat)
    requires IsWorldRun(run, moves, size) && p < |moves| && moves[p].PublishIt? && RecordOf(run[p], moves[p]).Some?
    ensures var h := RecordOf(run[p], moves[p]).value;
            && i < j < p && Brings(run[i], moves[i], h.from) && Brings(run[j], moves[j], h.to)
            && run[i].device.gen == run[j].device.gen == h.gen == run[p].device.gen
            && (h.origin.Some? ==> RefreshOf(run[j], moves[j], h.origin.value))
  {
    EverythingIsKnown(run, moves, size, p);
    GenerationSafety(run, moves, size, p);
    var w, h := run[p], RecordOf(run[p], moves[p]).value;
    hide Structured, Apply, Enabled, WaitOutcome, FullAnswerOk, PollAnswerOk, DeviceOk, Publish, Known, Go;
    assert CanMove(w, moves[p]);
    j := WhereFetched(run, moves, p, moves[p].thread);
    assert w.shelf.latest == Some(h.from) && w.shelf.latestGen == h.gen;
    hide CanMove, IsWorldRun, GenerationSafe;
    i :| 0 <= i < j && Brings(run[i], moves[i], h.from) && run[i].device.gen == h.gen;
  }

  /** What the poller records: its end is of the session in which it is recorded, its beginning of that in which the poller copied it. */
  lemma PollerEnds(run: seq<World>, moves: seq<Move>, size: nat, p: nat) returns (i: nat, c: nat, j: nat)
    requires IsWorldRun(run, moves, size) && p < |moves| && moves[p].PollPublish? && RecordOf(run[p], moves[p]).Some?
    ensures var h := RecordOf(run[p], moves[p]).value;
            && c < j < p && CopiedAt(run, moves, c, j, h.from) && PolledAt(run, moves, j, p, run[p].polled.value)
            && Brings(run[j], moves[j], h.to) && run[j].device.gen == h.gen == run[p].device.gen
            && (h.from != 0 ==> run[c].shelf.latest == Some(h.from) && i < c && Brings(run[i], moves[i], h.from)
                                && run[i].device.gen == run[c].shelf.generation)
  {
    EverythingIsKnown(run, moves, size, p);
    GenerationSafety(run, moves, size, p);
    var w, h := run[p], RecordOf(run[p], moves[p]).value;
    hide Structured, Apply, Enabled, WaitOutcome, FullAnswerOk, PollAnswerOk, DeviceOk, Publish, Known, Go;
    assert CanMove(w, moves[p]) && w.copied.Some? && w.polled.Some? && w.polled.value.gen == w.device.gen;
    hide CanMove, GenerationSafe;
    j := WherePolled(run, moves, p);
    c := WhereCopied(run, moves, p);
    assert c < j;
    i := 0;
    if h.from != 0 {
      EverythingIsKnown(run, moves, size, c);
      GenerationSafety(run, moves, size, c);
      i := WhereLatest(run, moves, size, c);
    }
  }

  lemma WhereLatest(run: seq<World>, moves: seq<Move>, size: nat, c: nat) returns (i: nat)
    requires c <= |moves| < |run| && Known(run, moves, c) && GenerationSafe(run[c], size) && run[c].shelf.latest.Some?
    ensures i < c && Brings(run[i], moves[i], run[c].shelf.latest.value) && run[i].device.gen == run[c].shelf.generation
  {
    var s := run[c].shelf;
    i :| 0 <= i < c && Brings(run[i], moves[i], s.latest.value) && run[i].device.gen == s.latestGen;
  }

  // ----- When a transition joins two sessions

  /** The poller's copy of the ETag, at move `c`, was taken while the history was of another session than at the publication. */
  ghost predicate CopiedElsewhere(run: seq<World>, moves: seq<Move>, c: nat, p: nat)
    requires p < |moves| < |run| && c <= p
  {
    moves[p].PollPublish? && run[c].shelf.generation != run[p + 1].shelf.generation
  }

  /**
   In every run, of every entry of the history: move `p`, and no other, recorded it; the fetches `i` and `j` brought
   in its two ends; and these are of different sessions if and only if it is the poller's and the session
   generation on record was another one when the poller copied the ETag, at `c`, than when it published.
   */
  lemma SessionsJoinedExactly(run: seq<World>, moves: seq<Move>, size: nat, n: nat, k: nat)
    returns (i: nat, c: nat, j: nat, p: nat)
    requires IsWorldRun(run, moves, size) && n < |run| && k < |run[n].shelf.history|
    ensures RecordedAt(run, moves, n, k, p) && forall q :: RecordedAt(run, moves, n, k, q) ==> q == p
    ensures var h := run[n].shelf.history[k];
            && j < p && Brings(run[j], moves[j], h.to) && run[j].device.gen == h.gen == run[p + 1].shelf.generation
            && (moves[p].PollPublish? ==> c < j && CopiedAt(run, moves, c, j, h.from))
            && (h.from != 0 || !moves[p].PollPublish? ==>
                  && i < j && Brings(run[i], moves[i], h.from)
                  && (moves[p].PollPublish? ==> i < c && run[c].shelf.latest == Some(h.from) && run[i].device.gen == run[c].shelf.generation)
                  && c <= p && (run[i].device.gen != run[j].device.gen <==> CopiedElsewhere(run, moves, c, p)))
  {
    hide CanMove, Go, Brings;
    p := WhereRecorded(run, moves, size, n, k);
    forall q | RecordedAt(run, moves, n, k, q) ensures q == p { RecordedOnce(run, moves, n, k, p, q); }
    OnRecord(run[p], moves[p], size);
    if moves[p].PollPublish? {
      i, c, j := PollerEnds(run, moves, size, p);
    } else {
      i, j := ForegroundEnds(run, moves, size, p);
      c := 0;
    }
  }

  /** Whoever records something publishes under the present session. */
  lemma OnRecord(w: World, m: Move, size: nat)
    requires CanMove(w, m) && RecordOf(w, m).Some?
    ensures (m.PublishIt? || m.PollPublish?) && Go(w, m, size).shelf.generation == w.device.gen
  {
    hide Apply, Enabled, WaitOutcome, FullAnswerOk, PollAnswerOk, DeviceOk;
  }

  /** A transition leads back, to a smaller ETag, only if it joins two sessions. */
  lemma BackwardsMeansJoined(run: seq<World>, moves: seq<Move>, size: nat, n: nat, k: nat) returns (c: nat, p: nat)
    requires IsWorldRun(run, moves, size) && n < |run| && k < |run[n].shelf.history|
    requires run[n].shelf.history[k].to < run[n].shelf.history[k].from
    ensures c <= p && RecordedAt(run, moves, n, k, p) && CopiedElsewhere(run, moves, c, p)
  {
    hide CanMove, Go, Brings, CopiedElsewhere;
    var i, j;
    i, c, j, p := SessionsJoinedExactly(run, moves, size, n, k);
    var h := run[n].shelf.history[k];
    BringsNow(run[i], moves[i], h.from);
    BringsNow(run[j], moves[j], h.to);
    DeviceGrows(run, moves, size, i, j);
  }
}
