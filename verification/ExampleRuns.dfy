/**
 Runs of `DatastoreCoordinator` (motu_proxy/datastore.py) that show promises failing: a client is woken for
 nothing but its own writes, a client is told "not modified" although somebody else changed something, and a
 client drifts because its copy is of another session.
 */
module ExampleRuns {
  import opened Wrappers
  import opened Arbitration
  import opened Cache
  import opened Coordination
  import opened OwnChanges

  const SIZE := 64

  /** Nobody holds or waits for the pipe, and no foreground thread has anything in hand. */
  ghost predicate AtRest(w: World) { w.arb == START && w.locals == map[] && w.polled.None? }

  ghost predicate Reaches(run: seq<World>, moves: seq<Move>, w: World) {
    IsWorldRun(run, moves, SIZE) && run[|run| - 1] == w
  }

  ghost predicate OneSession(moves: seq<Move>) { forall k :: 0 <= k < |moves| ==> !moves[k].Renew? }

  lemma OneMove(run: seq<World>, moves: seq<Move>, w: World, m: Move)
    requires Reaches(run, moves, w) && CanMove(w, m)
    ensures Reaches(run + [Go(w, m, SIZE)], moves + [m], Go(w, m, SIZE))
    ensures OneSession(moves) && !m.Renew? ==> OneSession(moves + [m])
  {
    hide CanMove, Go, Initial;
    var run', moves' := run + [Go(w, m, SIZE)], moves + [m];
    forall n | 0 <= n < |moves'| ensures CanMove(run'[n], moves'[n]) && run'[n + 1] == Go(run'[n], moves'[n], SIZE) {
      if n < |moves| { assert run'[n] == run[n] && run'[n + 1] == run[n + 1] && moves'[n] == moves[n]; }
    }
  }

  // ----- Turns: what a thread does from rest to rest

  function InTurn(t: ThreadId): (a: System) {
    START.(shared := Shared(true, Some(Foreground), 0, None, false, false), foreground := map[t := Holding])
  }

  lemma TurnMoves(t: ThreadId)
    ensures Enabled(START, Enter(t, false)) && Apply(START, Enter(t, false)) == InTurn(t)
    ensures Enabled(InTurn(t), LeaveForeground(t)) && Apply(InTurn(t), LeaveForeground(t)) == START
  {
    assert Apply(InTurn(t), LeaveForeground(t)).foreground == map[];
  }

  /** The worlds of a turn: a foreground thread has the pipe; and it has this in hand, published or not. */
  function Begun(w: World, t: ThreadId, l: Local): (w': World) { w.(arb := InTurn(t), locals := map[t := l]) }

  lemma BeginAndFetch(w: World, t: ThreadId, purpose: Purpose, answer: Payload)
    requires AtRest(w) && purpose != ReadOther && answer.gen == w.device.gen && FullAnswerOk(answer, w.device) && answer.etag == Some(Now(w.device))
    ensures var w1 := Begun(w, t, Local(purpose, None, false));
            && CanMove(w, Begin(t, purpose, false)) && Go(w, Begin(t, purpose, false), SIZE) == w1
            && CanMove(w1, Fetch(t, answer)) && Go(w1, Fetch(t, answer), SIZE) == Begun(w, t, Local(purpose, Some(answer), false))
  {
    hide FullAnswerOk, Apply, Enabled;
    TurnMoves(t);
  }

  lemma PublishAndFinish(w: World, t: ThreadId, purpose: Purpose, answer: Payload)
    requires AtRest(w) && t !in w.clients && purpose != ReadOther
    ensures var w2, s := Begun(w, t, Local(purpose, Some(answer), false)), Publish(ResetFor(w.shelf, w.device.gen), answer, Origin(purpose), None, true, SIZE);
            var w3 := Begun(w, t, Local(purpose, Some(answer), true)).(shelf := s);
            && CanMove(w2, PublishIt(t)) && Go(w2, PublishIt(t), SIZE) == w3
            && CanMove(w3, Finish(t)) && Go(w3, Finish(t), SIZE) == w.(shelf := s)
  {
    hide FullAnswerOk, Apply, Enabled, Publish, ResetFor;
    TurnMoves(t);
    assert map[t := Local(purpose, Some(answer), true)] - {t} == map[];
  }

  /** A foreground thread reads the poll path, on its own account or after a post, and publishes what it got. */
  lemma ForegroundTurn(run: seq<World>, moves: seq<Move>, w: World, t: ThreadId, purpose: Purpose, answer: Payload)
    returns (run': seq<World>, moves': seq<Move>, w': World)
    requires Reaches(run, moves, w) && AtRest(w) && t !in w.clients && purpose != ReadOther && answer.gen == w.device.gen
    requires FullAnswerOk(answer, w.device) && answer.etag == Some(Now(w.device))
    ensures Reaches(run', moves', w') && (OneSession(moves) ==> OneSession(moves')) && run <= run' && AtRest(w')
    ensures w' == w.(shelf := Publish(ResetFor(w.shelf, w.device.gen), answer, Origin(purpose), None, true, SIZE))
    ensures w.shelf.generation == w.device.gen ==> w'.shelf == Publish(w.shelf, answer, Origin(purpose), None, true, SIZE)
  {
    assert w.shelf.generation == w.device.gen ==> ResetFor(w.shelf, w.device.gen) == w.shelf;
    hide Reaches, OneSession, ResetFor, Publish, FullAnswerOk, CanMove, Go, Begun;
    BeginAndFetch(w, t, purpose, answer);
    PublishAndFinish(w, t, purpose, answer);
    w' := w.(shelf := Publish(ResetFor(w.shelf, w.device.gen), answer, Origin(purpose), None, true, SIZE));
    var w1, w2 := Begun(w, t, Local(purpose, None, false)), Begun(w, t, Local(purpose, Some(answer), false));
    var w3 := Begun(w, t, Local(purpose, Some(answer), true)).(shelf := w'.shelf);
    OneMove(run, moves, w, Begin(t, purpose, false));
    OneMove(run + [w1], moves + [Begin(t, purpose, false)], w1, Fetch(t, answer));
    OneMove(run + [w1] + [w2], moves + [Begin(t, purpose, false)] + [Fetch(t, answer)], w2, PublishIt(t));
    OneMove(run + [w1] + [w2] + [w3], moves + [Begin(t, purpose, false)] + [Fetch(t, answer)] + [PublishIt(t)], w3, Finish(t));
    run' := run + [w1] + [w2] + [w3] + [w'];
    moves' := moves + [Begin(t, purpose, false)] + [Fetch(t, answer)] + [PublishIt(t)] + [Finish(t)];
  }

  /** The poller, which has copied an ETag, asks from there and publishes what it got. */
  lemma PollerTurn(run: seq<World>, moves: seq<Move>, w: World, answer: Payload)
    returns (run': seq<World>, moves': seq<Move>, w': World)
    requires Reaches(run, moves, w) && AtRest(w) && w.copied.Some? && w.shelf.generation == w.device.gen == answer.gen
    requires PollAnswerOk(answer, w.copied.value, w.device) && answer.etag == Some(Now(w.device))
    ensures Reaches(run', moves', w') && (OneSession(moves) ==> OneSession(moves')) && run <= run'
    ensures w'.shelf == Publish(w.shelf, answer, None, w.copied, true, SIZE)
    ensures w'.clients == w.clients && w'.device == w.device && w'.arb.foreground == map[]
  {
    hide Reaches, OneSession, Publish, PollAnswerOk;
    var inside := START.(shared := Shared(true, Some(Poller), 0, None, false, false), poller := Inside(None));
    var w1 := w.(arb := inside);
    assert Go(w, PollBegin, SIZE) == w1;
    OneMove(run, moves, w, PollBegin);
    var r1, m1 := run + [w1], moves + [PollBegin];
    var w2 := w1.(polled := Some(answer));
    assert Go(w1, PollFetch(answer), SIZE) == w2;
    OneMove(r1, m1, w1, PollFetch(answer));
    var r2, m2 := r1 + [w2], m1 + [PollFetch(answer)];
    w' := Go(w2, PollPublish, SIZE);
    OneMove(r2, m2, w2, PollPublish);
    run', moves' := r2 + [w'], m2 + [PollPublish];
  }

  lemma Copies(run: seq<World>, moves: seq<Move>, w: World) returns (run': seq<World>, moves': seq<Move>, w': World)
    requires Reaches(run, moves, w) && AtRest(w) && w.shelf.latest.Some?
    ensures Reaches(run', moves', w') && (OneSession(moves) ==> OneSession(moves')) && run <= run' && w' == w.(copied := w.shelf.latest) && AtRest(w')
  {
    w' := Go(w, PollCopy, SIZE);
    OneMove(run, moves, w, PollCopy);
    run', moves' := run + [w'], moves + [PollCopy];
  }

  lemma Changes(run: seq<World>, moves: seq<Move>, w: World, next: Store, author: Option<string>)
    returns (run': seq<World>, moves': seq<Move>, w': World)
    requires Reaches(run, moves, w) && AtRest(w) && DeviceOk(w.device) && w.device.states[Now(w.device)].Keys <= next.Keys
    ensures Reaches(run', moves', w') && (OneSession(moves) ==> OneSession(moves')) && run <= run' && AtRest(w') && DeviceOk(w'.device)
    ensures w' == w.(device := Changed(w.device, next, author))
  {
    w' := Go(w, DeviceChanges(next, author), SIZE);
    OneMove(run, moves, w, DeviceChanges(next, author));
    run', moves' := run + [w'], moves + [DeviceChanges(next, author)];
  }

  /** A turn that publishes nothing, because its operation raises; meanwhile the device changes, or a session is opened. */
  lemma BarrenTurn(run: seq<World>, moves: seq<Move>, w: World, t: ThreadId, purpose: Purpose, m: Move)
    returns (run': seq<World>, moves': seq<Move>, w': World)
    requires Reaches(run, moves, w) && AtRest(w) && t !in w.clients
    requires match m
             case DeviceChanges(next, _) => DeviceOk(w.device) && w.device.states[Now(w.device)].Keys <= next.Keys
             case Renew(states, authors) => DeviceOk(Device(0, states, authors))
             case _ => false
    ensures Reaches(run', moves', w') && (OneSession(moves) && !m.Renew? ==> OneSession(moves')) && run <= run' && AtRest(w')
    ensures w' == w.(device := w'.device)
    ensures m.DeviceChanges? ==> w'.device == Changed(w.device, m.next, m.author)
    ensures m.Renew? ==> w'.device == Device(w.device.gen + 1, m.states, m.authors)
  {
    TurnMoves(t);
    var w1 := w.(arb := InTurn(t), locals := map[t := Local(purpose, None, false)]);
    assert CanMove(w1, m);
    hide Reaches, OneSession, Apply, Enabled, DeviceOk;
    assert Go(w, Begin(t, purpose, false), SIZE) == w1;
    OneMove(run, moves, w, Begin(t, purpose, false));
    var r1, m1 := run + [w1], moves + [Begin(t, purpose, false)];
    var w2 := Go(w1, m, SIZE);
    assert w2 == w1.(device := w2.device);
    OneMove(r1, m1, w1, m);
    var r2, m2 := r1 + [w2], m1 + [m];
    w' := w2.(arb := START, locals := map[]);
    assert w2.locals - {t} == map[];
    assert Go(w2, Finish(t), SIZE) == w';
    OneMove(r2, m2, w2, Finish(t));
    run', moves' := r2 + [w'], m2 + [Finish(t)];
  }

  // ----- The runs

  function Gain(v: string): (s: Store) { map["gain" := v] }

  /** Client 9 only watches. */
  const WATCHED: map<ThreadId, Client> := map[9 := Client(1, Gain("1"), None)]

  const AT_ONE := Device(0, [map[], Gain("1")], [None, None])

  /** A device at ETag 1, and a coordinator that has just read it. */
  lemma Beginning() returns (run: seq<World>, moves: seq<Move>, w: World)
    ensures Reaches(run, moves, w) && OneSession(moves) && AtRest(w) && DeviceOk(w.device)
    ensures w.device == AT_ONE && w.shelf == Shelf(Some(1), 0, [], 0) && w.copied == None && w.clients == WATCHED
    ensures |run| > 0 && run[0].device == AT_ONE && run[0].clients == WATCHED
  {
    var start := World(START, Shelf(None, 0, [], 0), AT_ONE, map[], None, None, WATCHED);
    assert Reaches([start], [], start);
    run, moves, w := ForegroundTurn([start], [], start, 0, ReadPoll, Payload(Gain("1"), Some(1), false, 0));
  }

  const ANSWER := Payload(Gain("3"), Some(2), false, 0)
  const OWN := Transition(1, 2, Gain("3"), Some("7"), 0)
  const AGAIN := Transition(1, 2, Gain("3"), None, 0)

  lemma BothAnswers(d: Device)
    requires d == Changed(AT_ONE, Gain("3"), Some("7"))
    ensures Now(d) == 2 && FullAnswerOk(ANSWER, d) && PollAnswerOk(ANSWER, 1, d)
  {
  }

  lemma PublishedTwice()
    ensures Publish(Shelf(Some(1), 0, [], 0), ANSWER, Some("7"), None, true, SIZE) == Shelf(Some(2), 0, [OWN], 0)
    ensures Publish(Shelf(Some(2), 0, [OWN], 0), ANSWER, None, Some(1), true, SIZE) == Shelf(Some(2), 0, [OWN, AGAIN], 0)
  {
    assert [OWN] + [AGAIN] == [OWN, AGAIN];
  }

  lemma ToldTwice()
    ensures WaitOutcome(Shelf(Some(2), 0, [OWN], 0), 1, Some("7")) == (None, false)
    ensures WaitOutcome(Shelf(Some(2), 0, [OWN, AGAIN], 0), 1, Some("7")) == (Some(AGAIN), false)
  {
    OnlyTheLastMatches([OWN], 1, Some("7"));
  }

  /** The poller copies ETag 1, and then the write of client 7 is published. */
  lemma OneWrite() returns (run: seq<World>, moves: seq<Move>, w: World)
    ensures Reaches(run, moves, w) && OneSession(moves) && AtRest(w) && w.copied == Some(1) && w.shelf == Shelf(Some(2), 0, [OWN], 0)
    ensures w.device == Changed(AT_ONE, Gain("3"), Some("7")) && w.clients == WATCHED
  {
    hide Reaches, OneSession, AtRest, DeviceOk, FullAnswerOk, PollAnswerOk, Publish;
    var r1, m1, w1 := Beginning();
    var r2, m2, w2 := Copies(r1, m1, w1);
    var r3, m3, w3 := Changes(r2, m2, w2, Gain("3"), Some("7"));
    BothAnswers(w3.device);
    PublishedTwice();
    run, moves, w := ForegroundTurn(r3, m3, w3, 7, PostAndRefresh(Some("7")), ANSWER);
  }

  /** Client 7 writes once, while the poller holds a copy of the ETag from before: the waiter is woken for its own write. */
  lemma OwnChangeCanComeBack() returns (run: seq<World>, moves: seq<Move>, n: nat)
    ensures IsWorldRun(run, moves, SIZE) && n < |run| && forall k :: 0 <= k < |moves| ==> !moves[k].Renew?
    ensures WaitOutcome(run[n].shelf, 1, Some("7")) == (None, false)
    ensures WaitOutcome(run[|run| - 1].shelf, 1, Some("7")) == (Some(AGAIN), false)
  {
    hide Reaches, OneSession, IsWorldRun, AtRest, PollAnswerOk, FullAnswerOk, Publish, WaitOutcome;
    var r1, m1, w1 := OneWrite();
    var w2;
    BothAnswers(w1.device);
    run, moves, w2 := PollerTurn(r1, m1, w1, ANSWER);
    LastOf(r1, m1, w1);
    n := |r1| - 1;
    LastOf(run, moves, w2);
    PublishedTwice();
    ToldTwice();
  }

  const LATER := Payload(Gain("4"), Some(3), false, 0)
  const SECOND := Transition(2, 3, Gain("4"), Some("7"), 0)

  lemma SecondIsPublished(d: Device)
    requires d == Changed(Changed(AT_ONE, Gain("3"), Some("7")), Gain("4"), Some("7"))
    ensures Now(d) == 3 && FullAnswerOk(LATER, d)
    ensures Publish(Shelf(Some(2), 0, [OWN], 0), LATER, Some("7"), None, true, SIZE) == Shelf(Some(3), 0, [OWN, SECOND], 0)
    ensures WaitOutcome(Shelf(Some(3), 0, [OWN, SECOND], 0), 1, Some("7")) == (None, true)
  {
    assert [OWN] + [SECOND] == [OWN, SECOND];
    assert LastForeign([OWN, SECOND], 1, Some("7")).None? && FirstMatch([OWN, SECOND], 1) == Some(0);
  }

  /** Client 7 writes twice, and the poller brings nothing: the waiter is sent to read its own writes afresh. */
  lemma TwoOwnWritesComeBack() returns (run: seq<World>, moves: seq<Move>)
    ensures IsWorldRun(run, moves, SIZE) && forall k :: 0 <= k < |moves| ==> !moves[k].Renew?
    ensures run[|run| - 1].shelf == Shelf(Some(3), 0, [OWN, SECOND], 0)
    ensures WaitOutcome(run[|run| - 1].shelf, 1, Some("7")) == (None, true)
  {
    hide Reaches, OneSession, IsWorldRun, AtRest, DeviceOk, FullAnswerOk, Publish, WaitOutcome;
    var r1, m1, w1 := OneWrite();
    assert DeviceOk(w1.device) by { StillOk(w1.device); }
    var r2, m2, w2 := Changes(r1, m1, w1, Gain("4"), Some("7"));
    SecondIsPublished(w2.device);
    var w;
    run, moves, w := ForegroundTurn(r2, m2, w2, 7, PostAndRefresh(Some("7")), LATER);
    LastOf(run, moves, w);
  }

  lemma StillOk(d: Device)
    requires d == Changed(AT_ONE, Gain("3"), Some("7"))
    ensures DeviceOk(d)
  {
  }

  lemma OwnUnderAnotherName()
    ensures Publish(Shelf(Some(1), 0, [], 0), ANSWER, None, None, true, SIZE) == Shelf(Some(2), 0, [AGAIN], 0)
    ensures WaitOutcome(Shelf(Some(2), 0, [AGAIN], 0), 1, Some("7")) == (Some(AGAIN), false)
  {
    OnlyTheLastMatches([AGAIN], 1, Some("7"));
  }

  /** Client 7 writes once, its refresh raises, and client 8 reads: the waiter is woken for nothing but its own write. */
  lemma UnrefreshedWriteComesBack() returns (run: seq<World>, moves: seq<Move>)
    ensures IsWorldRun(run, moves, SIZE) && forall k :: 0 <= k < |moves| ==> !moves[k].Renew?
    ensures var w := run[|run| - 1];
            && WaitOutcome(w.shelf, 1, Some("7")) == (Some(AGAIN), false)
            && w.device == Changed(AT_ONE, Gain("3"), Some("7")) && AllOwn(w.device, 1, "7")
  {
    hide Reaches, OneSession, IsWorldRun, AtRest, DeviceOk, FullAnswerOk, PollAnswerOk, Publish, WaitOutcome;
    var r1, m1, w1 := Beginning();
    var r2, m2, w2 := BarrenTurn(r1, m1, w1, 7, PostAndRefresh(Some("7")), DeviceChanges(Gain("3"), Some("7")));
    BothAnswers(w2.device);
    OwnUnderAnotherName();
    var w;
    run, moves, w := ForegroundTurn(r2, m2, w2, 8, ReadPoll, ANSWER);
    LastOf(run, moves, w);
  }

  // ----- A change that is passed off as the client's own

  const MUTED: Store := map["gain" := "1", "mute" := "on"]
  const BOTH: Store := map["gain" := "3", "mute" := "on"]
  const ABSORBED := Transition(1, 3, BOTH, Some("7"), 0)

  lemma AbsorbedIsPublished(d: Device)
    requires d == Changed(Changed(AT_ONE, MUTED, Some("8")), BOTH, Some("7"))
    ensures Now(d) == 3 && FullAnswerOk(Payload(BOTH, Some(3), false, 0), d)
    ensures Publish(Shelf(Some(1), 0, [], 0), Payload(BOTH, Some(3), false, 0), Some("7"), None, true, SIZE)
            == Shelf(Some(3), 0, [ABSORBED], 0)
    ensures WaitOutcome(Shelf(Some(3), 0, [ABSORBED], 0), 1, Some("7")) == (None, false)
  {
    OnlyTheLastMatches([ABSORBED], 1, Some("7"));
  }

  /**
   Client 8 mutes the device, and then client 7, which knows nothing of that, sets the gain.  The refresh of
   its post brings both changes, under its name, and its waiter is told of neither.
   */
  lemma ForeignChangeIsAbsorbed() returns (run: seq<World>, moves: seq<Move>)
    ensures IsWorldRun(run, moves, SIZE) && forall k :: 0 <= k < |moves| ==> !moves[k].Renew?
    ensures var w := run[|run| - 1];
            && WaitOutcome(w.shelf, 1, Some("7")) == (None, false) && w.shelf.latest == Some(3)
            && w.device.states == [map[], Gain("1"), MUTED, BOTH] && w.device.authors == [None, None, Some("8"), Some("7")]
  {
    hide Reaches, OneSession, IsWorldRun, AtRest, DeviceOk, FullAnswerOk, Publish, WaitOutcome;
    var r1, m1, w1 := Beginning();
    var r2, m2, w2 := Changes(r1, m1, w1, MUTED, Some("8"));
    var r3, m3, w3 := Changes(r2, m2, w2, BOTH, Some("7"));
    AbsorbedIsPublished(w3.device);
    var w;
    run, moves, w := ForegroundTurn(r3, m3, w3, 7, PostAndRefresh(Some("7")), Payload(BOTH, Some(3), false, 0));
    LastOf(run, moves, w);
  }

  // ----- A transition that joins two sessions

  const NEXT_SESSION := Device(1, [map[], MUTED, BOTH], [None, None, None])
  const JOINED := Transition(1, 2, Gain("3"), None, 1)

  lemma JoinedIsRecorded()
    ensures DeviceOk(NEXT_SESSION.(gen := 0)) && PollAnswerOk(Payload(Gain("3"), Some(2), false, 1), 1, NEXT_SESSION)
    ensures Publish(ResetFor(Shelf(Some(1), 0, [], 0), 1), Payload(Gain("3"), Some(2), false, 1), None, Some(1), true, SIZE)
            == Shelf(Some(2), 1, [JOINED], 1)
    ensures WaitOutcome(Shelf(Some(2), 1, [JOINED], 1), 1, None) == (Some(JOINED), false)
    ensures Gain("1") + Gain("3") == Gain("3") != BOTH
  {
    OnlyTheLastMatches([JOINED], 1, None);
    assert "mute" in BOTH && "mute" !in Gain("3");
  }

  const CROSSING := Payload(Gain("3"), Some(2), false, 1)

  lemma CrossingMoves(w: World)
    requires AtRest(w) && w.copied == Some(1) && w.device.gen == 0 && w.shelf == Shelf(Some(1), 0, [], 0)
    ensures var w1 := w.(arb := START.(shared := Shared(true, Some(Poller), 0, None, false, false), poller := Inside(None)));
            var w2, renew := w1.(device := NEXT_SESSION), Renew(NEXT_SESSION.states, NEXT_SESSION.authors);
            var w3 := w2.(polled := Some(CROSSING));
            && CanMove(w, PollBegin) && Go(w, PollBegin, SIZE) == w1
            && CanMove(w1, renew) && Go(w1, renew, SIZE) == w2
            && CanMove(w2, PollFetch(CROSSING)) && Go(w2, PollFetch(CROSSING), SIZE) == w3
            && CanMove(w3, PollPublish) && Go(w3, PollPublish, SIZE) == w2.(shelf := Shelf(Some(2), 1, [JOINED], 1), polled := None)
  {
    hide PollAnswerOk, Publish, ResetFor, DeviceOk;
    JoinedIsRecorded();
  }

  /** The poller, which copied ETag 1 in one session, asks from there in the next and publishes the answer. */
  lemma PollerCrosses(run: seq<World>, moves: seq<Move>, w: World) returns (run': seq<World>, moves': seq<Move>, w': World)
    requires Reaches(run, moves, w) && AtRest(w) && w.copied == Some(1)
    requires w.device.gen == 0 && w.shelf == Shelf(Some(1), 0, [], 0)
    ensures Reaches(run', moves', w') && run <= run' && w'.arb.foreground == map[]
    ensures w'.clients == w.clients && w'.device == NEXT_SESSION && w'.shelf == Shelf(Some(2), 1, [JOINED], 1)
  {
    hide Reaches, OneSession, CanMove, Go;
    CrossingMoves(w);
    var w1 := w.(arb := START.(shared := Shared(true, Some(Poller), 0, None, false, false), poller := Inside(None)));
    var w2, renew := w1.(device := NEXT_SESSION), Renew(NEXT_SESSION.states, NEXT_SESSION.authors);
    var w3 := w2.(polled := Some(CROSSING));
    w' := w2.(shelf := Shelf(Some(2), 1, [JOINED], 1), polled := None);
    OneMove(run, moves, w, PollBegin);
    OneMove(run + [w1], moves + [PollBegin], w1, renew);
    OneMove(run + [w1] + [w2], moves + [PollBegin] + [renew], w2, PollFetch(CROSSING));
    OneMove(run + [w1] + [w2] + [w3], moves + [PollBegin] + [renew] + [PollFetch(CROSSING)], w3, PollPublish);
    run' := run + [w1] + [w2] + [w3] + [w'];
    moves' := moves + [PollBegin] + [renew] + [PollFetch(CROSSING)] + [PollPublish];
  }

  /** Client 9, which has the state at ETag 1 of the old session, merges it, and has no state of the new one. */
  lemma SessionsAreMixed() returns (run: seq<World>, moves: seq<Move>)
    ensures IsWorldRun(run, moves, SIZE) && run[0].device == AT_ONE && run[0].clients == WATCHED
    ensures var w := run[|run| - 1];
            9 in w.clients && w.clients[9].etag == 2 && w.device == NEXT_SESSION && w.clients[9].copy != w.device.states[2]
  {
    hide Reaches, OneSession, IsWorldRun, AtRest, DeviceOk, Publish, ResetFor, WaitOutcome, PollAnswerOk, Go, CanMove;
    var r1, m1, w1 := Beginning();
    var r2, m2, w2 := Copies(r1, m1, w1);
    var r3, m3, w3 := PollerCrosses(r2, m2, w2);
    WatcherMerges(w3);
    var w := Go(w3, GiveTransition(9), SIZE);
    OneMove(r3, m3, w3, GiveTransition(9));
    run, moves := r3 + [w], m3 + [GiveTransition(9)];
    LastOf(run, moves, w);
  }

  lemma WatcherMerges(w: World)
    requires w.clients == WATCHED && w.device == NEXT_SESSION && w.shelf == Shelf(Some(2), 1, [JOINED], 1) && w.arb.foreground == map[]
    ensures CanMove(w, GiveTransition(9))
    ensures var w' := Go(w, GiveTransition(9), SIZE);
            9 in w'.clients && w'.clients[9].etag == 2 && w'.device == NEXT_SESSION && w'.clients[9].copy != w'.device.states[2]
  {
    hide WaitOutcome, Publish, ResetFor, PollAnswerOk, DeviceOk;
    JoinedIsRecorded();
  }

  // ----- A copy of another session

  const RENEWED := Device(1, [map[], MUTED], [None, None])

  lemma InTheNextSession()
    ensures DeviceOk(RENEWED) && DeviceOk(RENEWED.(gen := 0)) && FullAnswerOk(Payload(MUTED, Some(1), false, 1), RENEWED)
    ensures Publish(ResetFor(Shelf(Some(1), 0, [], 0), 1), Payload(MUTED, Some(1), false, 1), None, None, true, SIZE) == Shelf(Some(1), 1, [], 1)
    ensures Changed(RENEWED, BOTH, None) == NEXT_SESSION
    ensures Publish(Shelf(Some(1), 1, [], 1), Payload(Gain("3"), Some(2), false, 1), None, Some(1), true, SIZE) == Shelf(Some(2), 1, [JOINED], 1)
  {
  }

  /**
   The history is read again in the new session, and the poller copies, asks and publishes there.  Both ends of
   the transition are of that session; client 9, whose copy is of the old one, drifts all the same.
   */
  lemma OldCopyDrifts() returns (run: seq<World>, moves: seq<Move>)
    ensures IsWorldRun(run, moves, SIZE) && run[0].device == AT_ONE && run[0].clients == WATCHED
    ensures var w := run[|run| - 1];
            9 in w.clients && w.clients[9].etag == 2 && w.device == NEXT_SESSION && w.clients[9].copy != w.device.states[2]
  {
    hide Reaches, OneSession, IsWorldRun, AtRest, DeviceOk, Publish, ResetFor, WaitOutcome, PollAnswerOk, FullAnswerOk, Go, CanMove, Changed;
    InTheNextSession();
    JoinedIsRecorded();
    var r1, m1, w1 := Beginning();
    var r2, m2, w2 := BarrenTurn(r1, m1, w1, 8, ReadOther, Renew(RENEWED.states, RENEWED.authors));
    var r3, m3, w3 := ForegroundTurn(r2, m2, w2, 8, ReadPoll, Payload(MUTED, Some(1), false, 1));
    var r4, m4, w4 := Changes(r3, m3, w3, BOTH, None);
    var r5, m5, w5 := Copies(r4, m4, w4);
    var r6, m6, w6 := PollerTurn(r5, m5, w5, Payload(Gain("3"), Some(2), false, 1));
    WatcherMerges(w6);
    var w := Go(w6, GiveTransition(9), SIZE);
    OneMove(r6, m6, w6, GiveTransition(9));
    run, moves := r6 + [w], m6 + [GiveTransition(9)];
    LastOf(run, moves, w);
  }

  lemma LastOf(run: seq<World>, moves: seq<Move>, w: World)
    requires Reaches(run, moves, w)
    ensures IsWorldRun(run, moves, SIZE) && run != [] && run[|run| - 1] == w && (OneSession(moves) ==> forall k :: 0 <= k < |moves| ==> !moves[k].Renew?)
  {
  }
}
