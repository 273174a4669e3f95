/**
 One request and its response over the USB pipe: `MotuUsbDatastore` of motu_proxy/datastore.py.

 The device, the clock and the cancel callback are an environment, one `Tick` for each round of the
 receive loop.  What the loop must do is stated over the packets it has read so far, by counting and
 filtering them; the loop itself keeps running totals.
 */
module Receive {
  import opened Bytes
  import opened Wrappers
  import opened Frames
  import opened Requests

  // ----- Logical reads

  /** What one bulk read of the transport comes back with; an empty chunk is a read that timed out. */
  datatype BulkEvent = Chunk(data: seq<Byte>) | Interrupted | TransportError

  datatype LogicalRead = Packet(data: seq<Byte>) | ReadCancelled | ShortUsbFrame | ReadError

  /** What reading on from chunk `k` makes of the bytes `got` so far. */
  function Assemble(bulk: nat -> BulkEvent, k: nat, got: seq<Byte>, expected: nat): (r: LogicalRead)
    decreases if |got| < expected then expected - |got| else 0
  {
    if |got| >= expected then Packet(got) else
    match bulk(k)
    case Interrupted => ReadCancelled
    case TransportError => ReadError
    case Chunk(data) => if data == [] then ShortUsbFrame else Assemble(bulk, k + 1, got + data, expected)
  }

  /** How many bulk reads that takes in all. */
  function AssembleReads(bulk: nat -> BulkEvent, k: nat, got: seq<Byte>, expected: nat): (n: nat)
    decreases if |got| < expected then expected - |got| else 0
  {
    if |got| >= expected then k
    else if bulk(k).Chunk? && bulk(k).data != [] then AssembleReads(bulk, k + 1, got + bulk(k).data, expected)
    else k + 1
  }

  function Logical(bulk: nat -> BulkEvent): (r: LogicalRead) {
    match bulk(0)
    case Interrupted => ReadCancelled
    case TransportError => ReadError
    case Chunk(first) =>
      if first == [] then Packet([])
      else if |first| < 4 || GetU16(first, 2) < 4 then ShortUsbFrame
      else Assemble(bulk, 1, first, GetU16(first, 2))
  }

  /** The next logical read goes on behind these. */
  function Reads(bulk: nat -> BulkEvent): (n: nat) {
    if bulk(0).Chunk? && |bulk(0).data| >= 4 && GetU16(bulk(0).data, 2) >= 4
    then AssembleReads(bulk, 1, bulk(0).data, GetU16(bulk(0).data, 2)) else 1
  }

  /** `_read_logical_frame`, with the number of bulk reads it made. */
  method ReadLogicalFrame(bulk: nat -> BulkEvent) returns (r: LogicalRead, count: nat)
    ensures r == Logical(bulk) && count == Reads(bulk)
  {
    var first := bulk(0);
    if first.Interrupted? {
      return ReadCancelled, 1;
    }
    if first.TransportError? {
      return ReadError, 1;
    }
    if first.data == [] {
      return Packet([]), 1;
    }
    if |first.data| < 4 {
      return ShortUsbFrame, 1;
    }
    var expected := GetU16(first.data, 2);
    if expected < 4 {
      return ShortUsbFrame, 1;
    }
    var got, k := first.data, 1;
    while |got| < expected
      invariant Logical(bulk) == Assemble(bulk, k, got, expected)
      invariant Reads(bulk) == AssembleReads(bulk, k, got, expected)
      decreases expected - |got|
    {
      var event := bulk(k);
      if event.Interrupted? {
        return ReadCancelled, k + 1;
      }
      if event.TransportError? {
        return ReadError, k + 1;
      }
      if event.data == [] {
        break;
      }
      got, k := got + event.data, k + 1;
    }
    if |got| < expected {
      return ShortUsbFrame, k + 1;
    }
    return Packet(got), k;
  }

  // ----- What a packet is, to a request waiting for `expected`

  datatype Kind =
    | Quiet
    | DeviceAck
    | Stale(seqNo: nat, final: bool)   // a whole frame of another request
    | StaleBroken                      // a damaged frame of another request
    | Accepted(frame: ResponseFrame)
    | Fatal(error: FrameError)         // a damaged frame of this request
    | Junk                             // anything else

  predicate NamesResponse(packet: seq<Byte>) {
    |packet| >= 8 && (packet[4..8] == NREK || packet[4..8] == PTTH)
  }

  function Classify(packet: seq<Byte>, expected: nat): (k: Kind) {
    if packet == [] then Quiet
    else if IsDeviceAck(packet) then DeviceAck
    else if !NamesResponse(packet) then Junk
    else
      var seqNo := PeekMessageSeq(packet);
      if seqNo.Some? && seqNo.value != expected then
        var parsed := Parse(packet, seqNo.value);
        if parsed.Ok? then Stale(seqNo.value, parsed.value.final) else StaleBroken
      else
        var parsed := Parse(packet, expected);
        if parsed.Ok? then Accepted(parsed.value)
        else if seqNo == Some(expected) then Fatal(parsed.error)
        else Junk
  }

  /** Groups of kinds that are counted together. */
  datatype Group = QuietReads | DeviceAcks | AcceptedOnes | FatalOnes | StaleOnes | Ignored | Answered

  predicate In(k: Kind, group: Group) {
    match group
    case QuietReads => k.Quiet?
    case DeviceAcks => k.DeviceAck?
    case AcceptedOnes => k.Accepted?
    case FatalOnes => k.Fatal?
    case StaleOnes => k.Stale? || k.StaleBroken?
    case Ignored => k.Stale? || k.StaleBroken? || k.Junk?
    case Answered => k.Stale? || k.StaleBroken? || k.Accepted?
  }

  // ----- Totals over the packets read so far, by counting and filtering

  function Count(packets: seq<seq<Byte>>, expected: nat, group: Group): (n: nat) {
    if packets == [] then 0 else
    var last := |packets| - 1;
    Count(packets[..last], expected, group) + (if In(Classify(packets[last], expected), group) then 1 else 0)
  }

  function AcceptedFrames(packets: seq<seq<Byte>>, expected: nat): (f: seq<ResponseFrame>) {
    if packets == [] then [] else
    var last := |packets| - 1;
    var k := Classify(packets[last], expected);
    AcceptedFrames(packets[..last], expected) + (if k.Accepted? then [k.frame] else [])
  }

  function AcceptedBytes(packets: seq<seq<Byte>>, expected: nat): (n: nat) {
    if packets == [] then 0 else
    var last := |packets| - 1;
    AcceptedBytes(packets[..last], expected) + (if Classify(packets[last], expected).Accepted? then |packets[last]| else 0)
  }

  // ----- What a packet is by the parser and the peek alone

  datatype Sort = NoPacket | AckPacket | Mine | Others | Damaged | Unknown

  /** Nothing; a device ack; a frame of this request; one that names another request; a damaged one of this request; or none of these. */
  predicate Is(packet: seq<Byte>, expected: nat, sort: Sort) {
    var peeked := PeekMessageSeq(packet);
    match sort
    case NoPacket => packet == []
    case AckPacket => IsDeviceAck(packet)
    case Mine => Parse(packet, expected).Ok?
    case Others => peeked.Some? && peeked.value != expected
    case Damaged => peeked == Some(expected) && Parse(packet, expected).Err?
    case Unknown => packet != [] && !IsDeviceAck(packet) && peeked.None?
  }

  /** The branches of the receive loop sort packets like that. */
  lemma KindIsSort(packet: seq<Byte>, expected: nat)
    ensures var k := Classify(packet, expected);
            && (k.Quiet? <==> Is(packet, expected, NoPacket))
            && (k.DeviceAck? <==> Is(packet, expected, AckPacket))
            && (k.Accepted? <==> Is(packet, expected, Mine))
            && (k.Stale? || k.StaleBroken? <==> Is(packet, expected, Others))
            && (k.Fatal? <==> Is(packet, expected, Damaged))
            && (k.Junk? <==> Is(packet, expected, Unknown))
            && (k.Fatal? ==> k.error == Parse(packet, expected).error)
            && (k.Accepted? ==> k.frame == Parse(packet, expected).value)
  {
    PeekMeans(packet, expected);
    hide Parse, PeekMessageSeq, IsDeviceAck, NamesResponse;
  }

  lemma PeekMeans(packet: seq<Byte>, expected: nat)
    ensures PeekMessageSeq(packet).Some? ==> NamesResponse(packet) && !IsDeviceAck(packet) && packet != []
    ensures IsDeviceAck(packet) ==> packet != []
    ensures Parse(packet, expected).Ok? ==> PeekMessageSeq(packet) == Some(expected)
  {
    if Parse(packet, expected).Ok? { PeekAgreesWithParse(packet, expected); }
    hide Parse;
    if PeekMessageSeq(packet).Some? {
      var n := GetU16(packet, 2);
      assert packet[4..n][..4] == packet[4..8];
    }
  }

  // ----- The environment and the limits

  datatype WriteEvent = Wrote(count: int) | WriteError

  /** One round: the cancel callback, the clock before and after the read, the bulk reads, the write. */
  datatype Tick = Tick(cancel: bool, now: int, bulk: nat -> BulkEvent, later: int, write: WriteEvent)

  datatype Limits = Limits(deadline: int, maxBytes: int, maxReads: int, maxIgnored: int, maxFrames: int, sliced: bool)

  datatype Failure =
    | Cancelled | ReadLimit | TimedOut | NoResponse | IgnoredLimit | StaleFrameLimit | StaleByteLimit
    | FrameLimit | ByteLimit | BadFrame(error: FrameError) | ShortRead | ReadRaised | ShortUsbWrite | WriteRaised
    | BadRequest(why: RequestError)

  // ----- The books the loop keeps

  /** A stale response under way: its sequence number, and its frames and bytes so far. */
  datatype StaleRun = StaleRun(seqNo: Option<nat>, frames: nat, bytes: nat)

  const NO_STALE := StaleRun(None, 0, 0)

  function Extend(run: StaleRun, seqNo: nat, size: nat): (r: StaleRun) {
    if run.seqNo == Some(seqNo) then StaleRun(Some(seqNo), run.frames + 1, run.bytes + size)
    else StaleRun(Some(seqNo), 1, size)
  }

  datatype Books = Books(frames: seq<ResponseFrame>, bytes: nat, quiet: nat, ignored: nat, acks: nat, answered: nat, stale: StaleRun)

  const EMPTY_BOOKS := Books([], 0, 0, 0, 0, 0, NO_STALE)

  /** In sliced mode, an empty slice before the deadline does not count as a quiet read. */
  predicate EmptySlice(tick: Tick, limits: Limits) { limits.sliced && tick.later < limits.deadline }

  function Enter(b: Books, k: Kind, size: nat, emptySlice: bool): (b': Books) {
    match k
    case Quiet => if emptySlice then b else b.(quiet := b.quiet + 1)
    case DeviceAck => b.(quiet := 0, acks := b.acks + 1)
    case Stale(seqNo, final) =>
      b.(quiet := 0, ignored := b.ignored + 1, answered := b.answered + 1,
         stale := if final then NO_STALE else Extend(b.stale, seqNo, size))
    case StaleBroken => b.(quiet := 0, ignored := b.ignored + 1, answered := b.answered + 1)
    case Accepted(frame) => b.(quiet := 0, frames := b.frames + [frame], bytes := b.bytes + size, answered := b.answered + 1)
    case Fatal(_) => b.(quiet := 0)
    case Junk => b.(quiet := 0, ignored := b.ignored + 1)
  }

  function BooksOf(packets: seq<seq<Byte>>, expected: nat, env: nat -> Tick, limits: Limits): (b: Books) {
    if packets == [] then EMPTY_BOOKS else
    var last := |packets| - 1;
    Enter(BooksOf(packets[..last], expected, env, limits), Classify(packets[last], expected), |packets[last]|,
          EmptySlice(env(last), limits))
  }

  /** The books are right: they say what counting and filtering the packets says. */
  lemma {:induction false} BooksAreRight(packets: seq<seq<Byte>>, expected: nat, env: nat -> Tick, limits: Limits)
    ensures var b := BooksOf(packets, expected, env, limits);
            && b.frames == AcceptedFrames(packets, expected)
            && b.bytes == AcceptedBytes(packets, expected)
            && b.ignored == Count(packets, expected, Ignored)
            && b.acks == Count(packets, expected, DeviceAcks)
            && b.answered == Count(packets, expected, Answered)
  {
    hide Classify;
    if packets != [] { BooksAreRight(packets[..|packets| - 1], expected, env, limits); }
  }

  // ----- When the loop ends

  function WriteFailure(w: WriteEvent): (f: Option<Failure>) {
    if w.WriteError? then Some(WriteRaised) else if w.count != 4 then Some(ShortUsbWrite) else None
  }

  /** Why a request did not go out. */
  function NotSent(frame: Result<seq<Byte>, RequestError>, write: WriteEvent): (f: Failure) {
    if frame.Err? then BadRequest(frame.error) else if write.WriteError? then WriteRaised else ShortUsbWrite
  }

  datatype Stop = Fail(failure: Failure) | Finished

  /** Does the loop end on a packet, given the books from before it? */
  function StopOn(b: Books, k: Kind, size: nat, tick: Tick, limits: Limits): (s: Option<Stop>) {
    var write := WriteFailure(tick.write);
    match k
    case Quiet => if Enter(b, k, size, EmptySlice(tick, limits)).quiet >= 2 then Some(Finished) else None
    case DeviceAck => None
    case Stale(seqNo, final) =>
      var run := Extend(b.stale, seqNo, size);
      if write.Some? then Some(Fail(write.value))
      else if run.frames > limits.maxFrames then Some(Fail(StaleFrameLimit))
      else if run.bytes > limits.maxBytes then Some(Fail(StaleByteLimit))
      else None
    case StaleBroken =>
      if write.Some? then Some(Fail(write.value))
      else if b.ignored + 1 > limits.maxIgnored then Some(Fail(IgnoredLimit))
      else None
    case Accepted(frame) =>
      if |b.frames| + 1 > limits.maxFrames then Some(Fail(FrameLimit))
      else if write.Some? then Some(Fail(write.value))
      else if b.bytes + size > limits.maxBytes then Some(Fail(ByteLimit))
      else if frame.final then Some(Finished)
      else None
    case Fatal(error) => Some(Fail(BadFrame(error)))
    case Junk => if b.ignored + 1 > limits.maxIgnored then Some(Fail(IgnoredLimit)) else None
  }

  /** Does the loop end on the last of these packets? */
  function StopAfter(packets: seq<seq<Byte>>, expected: nat, env: nat -> Tick, limits: Limits): (s: Option<Stop>) {
    if packets == [] then None else
    var last := |packets| - 1;
    StopOn(BooksOf(packets[..last], expected, env, limits), Classify(packets[last], expected), |packets[last]|,
           env(last), limits)
  }

  /** Does the loop end before, or instead of, the next packet? */
  function StopBefore(rounds: nat, b: Books, tick: Tick, limits: Limits): (f: Option<Failure>) {
    if tick.cancel then Some(Cancelled)
    else if rounds >= limits.maxReads then Some(ReadLimit)
    else if tick.now >= limits.deadline then Some(if b.frames != [] then TimedOut else NoResponse)
    else
      match Logical(tick.bulk)
      case ReadCancelled => Some(Cancelled)
      case ShortUsbFrame => Some(ShortRead)
      case ReadError => Some(ReadRaised)
      case Packet(_) => None
  }

  /** These packets were read one by one in this environment, and none of them but the last may have ended the loop. */
  ghost predicate Received(packets: seq<seq<Byte>>, expected: nat, env: nat -> Tick, limits: Limits) {
    packets == [] ||
    var last := |packets| - 1;
    var before := packets[..last];
    && Received(before, expected, env, limits)
    && StopAfter(before, expected, env, limits).None?
    && StopBefore(last, BooksOf(before, expected, env, limits), env(last), limits).None?
    && Logical(env(last).bulk) == Packet(packets[last])
  }

  function Answer(frames: seq<ResponseFrame>): (r: Result<seq<Byte>, Failure>) {
    if frames == [] then Err(NoResponse) else
    match Join(frames)
    case Ok(response) => Ok(response)
    case Err(e) => Err(BadFrame(e))
  }

  /** What the request ends with, if the loop ends once these packets have been read. */
  function Ending(packets: seq<seq<Byte>>, expected: nat, env: nat -> Tick, limits: Limits): (r: Option<Result<seq<Byte>, Failure>>) {
    var b := BooksOf(packets, expected, env, limits);
    match StopAfter(packets, expected, env, limits)
    case Some(Fail(f)) => Some(Err(f))
    case Some(Finished) => Some(Answer(b.frames))
    case None =>
      match StopBefore(|packets|, b, env(|packets|), limits)
      case Some(f) => Some(Err(f))
      case None => None
  }

  datatype Stats = Stats(rounds: nat, accepted: nat, ignored: nat, acks: nat, bytes: nat)

  function StatsOf(rounds: nat, b: Books): (s: Stats) {
    Stats(rounds, |b.frames|, b.ignored, b.acks, b.bytes)
  }

  /** These failures leave without recording statistics. */
  predicate Unrecorded(f: Failure) { f.ShortRead? || f.ReadRaised? || f.ShortUsbWrite? || f.WriteRaised? }

  /** How many acknowledgements were written, or tried: one for each answered packet, unless the frame limit struck first. */
  function AcksFor(b: Books, r: Result<seq<Byte>, Failure>): (n: nat) {
    if r == Err(FrameLimit) && b.answered > 0 then b.answered - 1 else b.answered
  }

  function Acks(start: nat, first: nat, n: nat): (a: seq<seq<Byte>>)
    requires IsHostSeq(start)
    ensures |a| == n && forall k :: 0 <= k < n ==> a[k] == BuildAck(HostSeqAfter(start, first + k))
  {
    seq(n, k requires 0 <= k < n => BuildAck(HostSeqAfter(start, first + k)))
  }

  lemma AcksOneMore(before: seq<seq<Byte>>, start: nat, first: nat, n: nat)
    requires IsHostSeq(start)
    ensures before + Acks(start, first, 0) == before
    ensures before + Acks(start, first, n + 1) == before + Acks(start, first, n) + [BuildAck(HostSeqAfter(start, first + n))]
  {
  }

  lemma OneMore(packets: seq<seq<Byte>>, p: seq<Byte>, expected: nat, env: nat -> Tick, limits: Limits)
    ensures var n, b, k := |packets|, BooksOf(packets, expected, env, limits), Classify(p, expected);
            && BooksOf(packets + [p], expected, env, limits) == Enter(b, k, |p|, EmptySlice(env(n), limits))
            && StopAfter(packets + [p], expected, env, limits) == StopOn(b, k, |p|, env(n), limits)
  {
    hide Classify, Enter, StopOn;
    assert (packets + [p])[..|packets|] == packets;
  }

  /** What one packet can do to the books, and which failures it can raise. */
  lemma EnterPacket(b: Books, packet: seq<Byte>, expected: nat, tick: Tick, limits: Limits)
    ensures var k, slice := Classify(packet, expected), EmptySlice(tick, limits);
            var b' := Enter(b, k, |packet|, slice);
            var stop := StopOn(b, k, |packet|, tick, limits);
            && b.answered <= b'.answered <= b.answered + 1
            && (packet != [] ==> b' == Enter(b, k, |packet|, false) && b'.quiet == 0)
            && (packet == [] ==> b' == (if slice then b else b.(quiet := b.quiet + 1)) && stop == if b'.quiet >= 2 then Some(Finished) else None)
            && (stop == Some(Fail(FrameLimit)) ==> b'.answered == b.answered + 1)
            && (stop.Some? && stop.value.Fail? ==> !stop.value.failure.ShortRead? && !stop.value.failure.ReadRaised?)
  {
  }

  /** The packet is skipped: counted as ignored and answered, and nothing of it is kept; the loop ends on it only by a failed write or a limit. */
  ghost predicate Skipped(b: Books, b': Books, stop: Option<Stop>) {
    && b'.frames == b.frames && b'.bytes == b.bytes && b'.acks == b.acks && b'.quiet == 0
    && b'.ignored == b.ignored + 1 && b'.answered == b.answered + 1
    && (stop.Some? ==> stop.value.Fail? && stop.value.failure in {WriteRaised, ShortUsbWrite, StaleFrameLimit, StaleByteLimit, IgnoredLimit})
  }

  predicate FailsAsDamaged(stop: Option<Stop>) { stop.Some? && stop.value.Fail? && stop.value.failure.BadFrame? }

  /** By the parser and the peek alone: a packet that names another request is skipped and acknowledged, and a damaged frame of this request, and nothing else, is fatal. */
  ghost predicate HandledBySort(packet: seq<Byte>, expected: nat, b: Books, b': Books, stop: Option<Stop>,
                                sent: seq<seq<Byte>>, sent': seq<seq<Byte>>, ack: seq<Byte>)
  {
    && (Is(packet, expected, Others) ==> Skipped(b, b', stop) && sent' == sent + [ack])
    && (FailsAsDamaged(stop) <==> Is(packet, expected, Damaged))
  }

  /** Quarantine, packet by packet: a frame that names another request is skipped, whole or damaged; and a damaged frame of this request, and nothing else, is fatal. */
  lemma OthersAreSkipped(b: Books, packet: seq<Byte>, expected: nat, tick: Tick, limits: Limits)
    ensures var k := Classify(packet, expected);
            var b', stop := Enter(b, k, |packet|, EmptySlice(tick, limits)), StopOn(b, k, |packet|, tick, limits);
            && (Is(packet, expected, Others) ==> Skipped(b, b', stop))
            && (FailsAsDamaged(stop) <==> Is(packet, expected, Damaged))
            && (Is(packet, expected, Damaged) ==> stop == Some(Fail(BadFrame(Parse(packet, expected).error))))
            && (b'.answered == b.answered + 1 <==> Is(packet, expected, Others) || Is(packet, expected, Mine))
  {
    KindIsSort(packet, expected);
    hide Classify, Is, Parse;
  }

  lemma SkippedMeans(b: Books, packet: seq<Byte>, expected: nat, tick: Tick, limits: Limits)
    ensures var k := Classify(packet, expected);
            var b', stop := Enter(b, k, |packet|, EmptySlice(tick, limits)), StopOn(b, k, |packet|, tick, limits);
            Skipped(b, b', stop) ==> b'.answered > b.answered && stop != Some(Fail(FrameLimit))
  {
    hide Classify, Enter, StopOn;
  }

  lemma NothingReceived(expected: nat, env: nat -> Tick, limits: Limits)
    ensures Received([], expected, env, limits)
    ensures BooksOf([], expected, env, limits) == EMPTY_BOOKS && StopAfter([], expected, env, limits) == None
  {
  }

  lemma ReceivedOneMore(packets: seq<seq<Byte>>, p: seq<Byte>, expected: nat, env: nat -> Tick, limits: Limits)
    requires Received(packets, expected, env, limits)
    requires StopAfter(packets, expected, env, limits).None?
    requires StopBefore(|packets|, BooksOf(packets, expected, env, limits), env(|packets|), limits).None?
    requires Logical(env(|packets|).bulk) == Packet(p)
    ensures Received(packets + [p], expected, env, limits)
  {
    hide StopAfter, StopBefore, Logical, BooksOf;
    assert (packets + [p])[..|packets|] == packets;
  }

  /** The message sequence of the `i`-th written request, counting on from the first. */
  function SeqOfRequest(first: nat, i: nat): (s: nat) {
    (first + i) % U32_LIMIT
  }

  lemma SeqOfNextRequest(first: nat, i: nat)
    ensures (SeqOfRequest(first, i) + 1) % U32_LIMIT == SeqOfRequest(first, i + 1)
  {
    var x := first + i;
    assert x == U32_LIMIT * (x / U32_LIMIT) + x % U32_LIMIT;
    if x % U32_LIMIT == U32_LIMIT - 1 {
      assert x + 1 == U32_LIMIT * (x / U32_LIMIT + 1);
    } else {
      assert (x + 1) % U32_LIMIT == x % U32_LIMIT + 1;
    }
  }

  /** Requests fewer than 2^32 apart have different message sequences. */
  lemma SequencesDiffer(first: nat, i: nat, j: nat)
    requires i < j < i + U32_LIMIT
    ensures SeqOfRequest(first, i) != SeqOfRequest(first, j)
  {
    var x, y := first + i, first + j;
    assert x == U32_LIMIT * (x / U32_LIMIT) + x % U32_LIMIT;
    assert y == U32_LIMIT * (y / U32_LIMIT) + y % U32_LIMIT;
  }

  class MotuUsbDatastore {
    const hostSeq: HostSequencer
    var messageSeq: int
    var lastStats: Option<Stats>
    /** The response that `last_response_payload` and `last_response_etag` were parsed from. */
    var lastResponse: Option<seq<Byte>>
    /** Every frame handed to the transport. */
    ghost var sent: seq<seq<Byte>>
    /** The message sequence of every request that was written in full, in order. */
    ghost var written: seq<nat>
    ghost const firstSeq: nat

    ghost predicate Valid()
      reads this, hostSeq
    {
      && hostSeq.Valid()
      && Current() == SeqOfRequest(firstSeq, |written|)
      && forall i :: 0 <= i < |written| ==> written[i] == SeqOfRequest(firstSeq, i)
    }

    /** `_current_message_seq` */
    function Current(): (s: nat)
      reads this
    {
      messageSeq % U32_LIMIT
    }

    constructor (seqStart: nat, messageSeq: int)
      requires IsHostSeq(seqStart)
      ensures Valid() && fresh(hostSeq) && written == [] && sent == [] && lastStats == None && lastResponse == None
      ensures hostSeq.start == seqStart && hostSeq.taken == 0 && this.messageSeq == messageSeq
    {
      hostSeq := new HostSequencer(seqStart);
      this.messageSeq := messageSeq;
      firstSeq := messageSeq % U32_LIMIT;
      lastStats, lastResponse, sent, written := None, None, [], [];
    }

    /** `_write_frame(build_ack(self._next_host_seq()))` */
    method SendAck(write: WriteEvent) returns (failure: Option<Failure>)
      requires hostSeq.Valid()
      modifies this`sent, hostSeq
      ensures hostSeq.Valid() && hostSeq.taken == old(hostSeq.taken) + 1
      ensures sent == old(sent) + [BuildAck(HostSeqAfter(hostSeq.start, old(hostSeq.taken)))]
      ensures failure == WriteFailure(write)
    {
      var s := hostSeq.Take();
      sent := sent + [BuildAck(s)];
      if write.WriteError? {
        return Some(WriteRaised);
      }
      if write.count != |BuildAck(s)| {
        return Some(ShortUsbWrite);
      }
      return None;
    }

    /** The body of the receive loop for a packet that is not empty. */
    method HandlePacket(packet: seq<Byte>, expected: nat, b: Books, tick: Tick, limits: Limits)
      returns (b': Books, stop: Option<Stop>)
      requires hostSeq.Valid() && packet != []
      modifies this`sent, hostSeq
      ensures hostSeq.Valid()
      ensures b' == Enter(b, Classify(packet, expected), |packet|, false)
      ensures stop == StopOn(b, Classify(packet, expected), |packet|, tick, limits)
      ensures var answer := b'.answered > b.answered && stop != Some(Fail(FrameLimit));
              && hostSeq.taken == old(hostSeq.taken) + (if answer then 1 else 0)
              && sent == old(sent) + (if answer then [BuildAck(HostSeqAfter(hostSeq.start, old(hostSeq.taken)))] else [])
      ensures HandledBySort(packet, expected, b, b', stop, old(sent), sent, BuildAck(HostSeqAfter(hostSeq.start, old(hostSeq.taken))))
    {
      hide Classify, Enter, StopOn, Is, Skipped, HostSeqAfter, BuildAck;
      OthersAreSkipped(b, packet, expected, tick, limits);
      EnterPacket(b, packet, expected, tick, limits);
      SkippedMeans(b, packet, expected, tick, limits);
      b', stop := TakePacket(packet, expected, b, tick, limits);
    }

    /** Its branches. */
    method TakePacket(packet: seq<Byte>, expected: nat, b: Books, tick: Tick, limits: Limits)
      returns (b': Books, stop: Option<Stop>)
      requires hostSeq.Valid() && packet != []
      modifies this`sent, hostSeq
      ensures hostSeq.Valid()
      ensures b' == Enter(b, Classify(packet, expected), |packet|, false)
      ensures stop == StopOn(b, Classify(packet, expected), |packet|, tick, limits)
      ensures var answer := b'.answered > b.answered && stop != Some(Fail(FrameLimit));
              && hostSeq.taken == old(hostSeq.taken) + (if answer then 1 else 0)
              && sent == old(sent) + (if answer then [BuildAck(HostSeqAfter(hostSeq.start, old(hostSeq.taken)))] else [])
    {
      hide Parse, PeekMessageSeq, IsDeviceAck, NamesResponse, HostSeqAfter, BuildAck;
      b' := b.(quiet := 0);
      if IsDeviceAck(packet) {
        return b'.(acks := b.acks + 1), None;
      }
      if NamesResponse(packet) {
        var seqNo := PeekMessageSeq(packet);
        if seqNo.Some? && seqNo.value != expected {
          var stale := Parse(packet, seqNo.value);
          b' := b'.(ignored := b.ignored + 1, answered := b.answered + 1);
          if stale.Err? {
            var failure := SendAck(tick.write);
            if failure.Some? {
              return b', Some(Fail(failure.value));
            }
            if b'.ignored > limits.maxIgnored {
              return b', Some(Fail(IgnoredLimit));
            }
            return b', None;
          }
          var run := b.stale;
          if run.seqNo != seqNo {
            run := StaleRun(seqNo, 0, 0);
          }
          run := run.(frames := run.frames + 1, bytes := run.bytes + |packet|);
          b' := b'.(stale := if stale.value.final then NO_STALE else run);
          var failure := SendAck(tick.write);
          if failure.Some? {
            return b', Some(Fail(failure.value));
          }
          if run.frames > limits.maxFrames {
            return b', Some(Fail(StaleFrameLimit));
          }
          if run.bytes > limits.maxBytes {
            return b', Some(Fail(StaleByteLimit));
          }
          return b', None;
        }
        var parsed := Parse(packet, expected);
        if parsed.Err? {
          if seqNo == Some(expected) {
            return b', Some(Fail(BadFrame(parsed.error)));
          }
          b' := b'.(ignored := b.ignored + 1);
          if b'.ignored > limits.maxIgnored {
            return b', Some(Fail(IgnoredLimit));
          }
          return b', None;
        }
        b' := b'.(frames := b.frames + [parsed.value], bytes := b.bytes + |packet|, answered := b.answered + 1);
        if |b'.frames| > limits.maxFrames {
          return b', Some(Fail(FrameLimit));
        }
        var failure := SendAck(tick.write);
        if failure.Some? {
          return b', Some(Fail(failure.value));
        }
        if b'.bytes > limits.maxBytes {
          return b', Some(Fail(ByteLimit));
        }
        return b', if parsed.value.final then Some(Finished) else None;
      }
      b' := b'.(ignored := b.ignored + 1);
      if b'.ignored > limits.maxIgnored {
        return b', Some(Fail(IgnoredLimit));
      }
      return b', None;
    }

    /** The head of the receive loop: the checks before a read, and the read. */
    method NextPacket(rounds: nat, b: Books, tick: Tick, limits: Limits) returns (failure: Option<Failure>, packet: seq<Byte>)
      ensures failure == StopBefore(rounds, b, tick, limits)
      ensures failure.None? ==> Logical(tick.bulk) == Packet(packet) && rounds < limits.maxReads
      ensures failure.Some? ==> !failure.value.ShortUsbWrite? && !failure.value.WriteRaised? && !failure.value.FrameLimit?
    {
      packet := [];
      if tick.cancel {
        return Some(Cancelled), packet;
      }
      if rounds >= limits.maxReads {
        return Some(ReadLimit), packet;
      }
      if tick.now >= limits.deadline {
        return Some(if b.frames != [] then TimedOut else NoResponse), packet;
      }
      var read, _ := ReadLogicalFrame(tick.bulk);
      if read.ReadCancelled? {
        return Some(Cancelled), packet;
      }
      if read.ShortUsbFrame? {
        return Some(ShortRead), packet;
      }
      if read.ReadError? {
        return Some(ReadRaised), packet;
      }
      return None, read.data;
    }

    /** `_collect_response` */
    method CollectResponse(expected: nat, env: nat -> Tick, limits: Limits)
      returns (r: Result<seq<Byte>, Failure>, packets: seq<seq<Byte>>)
      requires hostSeq.Valid()
      modifies this`lastStats, this`lastResponse, this`sent, hostSeq
      ensures hostSeq.Valid()
      ensures Received(packets, expected, env, limits) && Ending(packets, expected, env, limits) == Some(r)
      ensures |packets| <= limits.maxReads || |packets| == 0
      ensures lastStats == if r.Err? && Unrecorded(r.error) then None
                           else Some(StatsOf(|packets|, BooksOf(packets, expected, env, limits)))
      ensures lastResponse == if r.Ok? then Some(r.value) else None
      ensures var n := AcksFor(BooksOf(packets, expected, env, limits), r);
              hostSeq.taken == old(hostSeq.taken) + n && sent == old(sent) + Acks(hostSeq.start, old(hostSeq.taken), n)
    {
      hide Classify, Enter, StopOn, StopBefore, Logical, Join, HostSeqAfter, BuildAck, Acks, Received, BooksOf, StopAfter, Answer, HandledBySort;
      lastStats, lastResponse := None, None;
      packets := [];
      var b := EMPTY_BOOKS;
      ghost var first := hostSeq.taken;
      AcksOneMore(sent, hostSeq.start, first, 0);
      NothingReceived(expected, env, limits);
      while b.quiet < 2
        invariant hostSeq.Valid() && (|packets| <= limits.maxReads || |packets| == 0)
        invariant Received(packets, expected, env, limits)
        invariant StopAfter(packets, expected, env, limits) == if b.quiet < 2 then None else Some(Finished)
        invariant b == BooksOf(packets, expected, env, limits)
        invariant hostSeq.taken == first + b.answered && sent == old(sent) + Acks(hostSeq.start, first, b.answered)
        invariant lastStats == None && lastResponse == None
        decreases limits.maxReads - |packets|
      {
        var tick := env(|packets|);
        var failure, packet := NextPacket(|packets|, b, tick, limits);
        if failure.Some? {
          if !failure.value.ShortRead? && !failure.value.ReadRaised? {
            lastStats := Some(StatsOf(|packets|, b));
          }
          return Err(failure.value), packets;
        }
        OneMore(packets, packet, expected, env, limits);
        ReceivedOneMore(packets, packet, expected, env, limits);
        AcksOneMore(old(sent), hostSeq.start, first, b.answered);
        EnterPacket(b, packet, expected, tick, limits);
        packets := packets + [packet];
        if packet == [] {
          if !(limits.sliced && tick.later < limits.deadline) {
            b := b.(quiet := b.quiet + 1);
          }
          continue;
        }
        var stop;
        b, stop := HandlePacket(packet, expected, b, tick, limits);
        if stop.Some? && stop.value.Fail? {
          if !stop.value.failure.ShortUsbWrite? && !stop.value.failure.WriteRaised? {
            lastStats := Some(StatsOf(|packets|, b));
          }
          return Err(stop.value.failure), packets;
        }
        if stop.Some? {
          break;
        }
      }
      r := Finish(|packets|, b);
    }

    /** The end of `_collect_response`, when the loop has stopped without a failure. */
    method Finish(rounds: nat, b: Books) returns (r: Result<seq<Byte>, Failure>)
      requires lastResponse == None
      modifies this`lastStats, this`lastResponse
      ensures r == Answer(b.frames) && lastStats == Some(StatsOf(rounds, b))
      ensures r.Err? ==> !Unrecorded(r.error) && r.error != FrameLimit
      ensures lastResponse == if r.Ok? then Some(r.value) else None
    {
      lastStats := Some(StatsOf(rounds, b));
      if b.frames == [] {
        return Err(NoResponse);
      }
      var joined := JoinParsedFrames(b.frames);
      if joined.Err? {
        return Err(BadFrame(joined.error));
      }
      lastResponse := Some(joined.value);
      return Ok(joined.value);
    }

    /** The common end of `get` and `post`: write the frame, move on, collect. */
    method Exchange(frame: seq<Byte>, write: WriteEvent, env: nat -> Tick, limits: Limits)
      returns (r: Result<seq<Byte>, Failure>, packets: seq<seq<Byte>>)
      requires Valid()
      modifies this, hostSeq
      ensures Valid()
      ensures write != Wrote(|frame|) ==>
        && r == Err(if write.WriteError? then WriteRaised else ShortUsbWrite) && packets == []
        && written == old(written) && messageSeq == old(messageSeq) && lastResponse == old(lastResponse)
        && sent == old(sent) + [frame] && hostSeq.taken == old(hostSeq.taken)
      ensures write == Wrote(|frame|) ==>
        var s := old(Current());
        && written == old(written) + [s] && Received(packets, s, env, limits) && Ending(packets, s, env, limits) == Some(r)
        && lastResponse == (if r.Ok? then Some(r.value) else None)
        && var n := AcksFor(BooksOf(packets, s, env, limits), r);
        && hostSeq.taken == old(hostSeq.taken) + n
        && sent == old(sent) + [frame] + Acks(hostSeq.start, old(hostSeq.taken), n)
    {
      hide Received, Ending, AcksFor, Acks, BooksOf;
      packets := [];
      var s := messageSeq % U32_LIMIT;
      sent := sent + [frame];
      if write.WriteError? {
        return Err(WriteRaised), packets;
      }
      if write.count != |frame| {
        return Err(ShortUsbWrite), packets;
      }
      SeqOfNextRequest(firstSeq, |written|);
      messageSeq := (s + 1) % U32_LIMIT;
      written := written + [s];
      r, packets := CollectResponse(s, env, limits);
    }

    /** `get` */
    method Get(path: seq<Byte>, etag: seq<Byte>, client: Option<seq<Byte>>, query: seq<Field>,
               write: WriteEvent, env: nat -> Tick, limits: Limits)
      returns (r: Result<seq<Byte>, Failure>, packets: seq<seq<Byte>>)
      requires Valid()
      modifies this, hostSeq
      ensures Valid()
      ensures var s, t := old(Current()), old(hostSeq.taken);
              var frame := BuildGet(HostSeqAfter(hostSeq.start, t), s, path, etag, "NREK", client, query);
              var whole := frame.Ok? && write == Wrote(|frame.value|);
              && written == old(written) + (if whole then [s] else [])
              && (!whole ==> packets == [] && r == Err(NotSent(frame, write)))
              && (whole ==>
                    && Received(packets, s, env, limits) && Ending(packets, s, env, limits) == Some(r)
                    && sent == old(sent) + [frame.value] + Acks(hostSeq.start, t + 1, AcksFor(BooksOf(packets, s, env, limits), r)))
    {
      hide Received, Ending, AcksFor, Acks, BooksOf, BuildGet, HostSeqAfter;
      packets := [];
      var s := messageSeq % U32_LIMIT;
      var h := hostSeq.Take();
      var frame := BuildGet(h, s, path, etag, "NREK", client, query);
      if frame.Err? {
        return Err(BadRequest(frame.error)), packets;
      }
      r, packets := Exchange(frame.value, write, env, limits);
    }

    /** `post` */
    method Post(path: seq<Byte>, json: seq<Byte>, client: Option<seq<Byte>>, write: WriteEvent, env: nat -> Tick, limits: Limits)
      returns (r: Result<seq<Byte>, Failure>, packets: seq<seq<Byte>>)
      requires Valid()
      modifies this, hostSeq
      ensures Valid()
      ensures var s, t := old(Current()), old(hostSeq.taken);
              var frame := BuildPost(HostSeqAfter(hostSeq.start, t), s, path, json, "NREK", client);
              var whole := frame.Ok? && write == Wrote(|frame.value|);
              && written == old(written) + (if whole then [s] else [])
              && (!whole ==> packets == [] && r == Err(NotSent(frame, write)))
              && (whole ==>
                    && Received(packets, s, env, limits) && Ending(packets, s, env, limits) == Some(r)
                    && sent == old(sent) + [frame.value] + Acks(hostSeq.start, t + 1, AcksFor(BooksOf(packets, s, env, limits), r)))
    {
      hide Received, Ending, AcksFor, Acks, BooksOf, BuildPost, HostSeqAfter;
      packets := [];
      var s := messageSeq % U32_LIMIT;
      var h := hostSeq.Take();
      var frame := BuildPost(h, s, path, json, "NREK", client);
      if frame.Err? {
        return Err(BadRequest(frame.error)), packets;
      }
      r, packets := Exchange(frame.value, write, env, limits);
    }
  }

  // ----- What a run of the loop has and has not done

  /** The frames of one request among any packets, found by the parser alone. */
  function Tagged(packets: seq<seq<Byte>>, expected: nat): (f: seq<ResponseFrame>) {
    if packets == [] then [] else
    var last := |packets| - 1;
    var parsed := Parse(packets[last], expected);
    Tagged(packets[..last], expected) + (if parsed.Ok? then [parsed.value] else [])
  }

  lemma AcceptedMeansTagged(packet: seq<Byte>, expected: nat)
    ensures Classify(packet, expected).Accepted? <==> Parse(packet, expected).Ok?
    ensures Parse(packet, expected).Ok? ==> Classify(packet, expected) == Accepted(Parse(packet, expected).value)
  {
    if Parse(packet, expected).Ok? {
      PeekAgreesWithParse(packet, expected);
      ResponseIsNamed(packet, expected);
    }
    hide Parse, PeekMessageSeq, IsDeviceAck, NamesResponse;
  }

  lemma ResponseIsNamed(packet: seq<Byte>, expected: nat)
    requires Parse(packet, expected).Ok?
    ensures NamesResponse(packet)
  {
    hide GetU32;
    var n := GetU16(packet, 2);
    assert packet[..n][4..][..4] == packet[4..8];
  }

  lemma {:induction false} AcceptedIsTagged(packets: seq<seq<Byte>>, expected: nat)
    ensures AcceptedFrames(packets, expected) == Tagged(packets, expected)
  {
    hide Classify, Parse;
    if packets != [] {
      var last := |packets| - 1;
      AcceptedIsTagged(packets[..last], expected);
      AcceptedMeansTagged(packets[last], expected);
    }
  }

  /**
   Quarantine: whatever late, damaged or unknown packets came in between, a response is made of the
   frames tagged with the request's own sequence number and of nothing else.
   */
  lemma ResponseIsOwnFramesOnly(packets: seq<seq<Byte>>, expected: nat, env: nat -> Tick, limits: Limits, response: seq<Byte>)
    requires Ending(packets, expected, env, limits) == Some(Ok(response))
    ensures Tagged(packets, expected) != [] && Join(Tagged(packets, expected)) == Ok(response)
  {
    hide StopAfter, StopBefore, Join, BooksOf;
    BooksAreRight(packets, expected, env, limits);
    AcceptedIsTagged(packets, expected);
  }

  /** No packet can be part of the answers to two written requests fewer than 2^32 apart. */
  lemma NoPacketAnswersTwice(packet: seq<Byte>, first: nat, i: nat, j: nat)
    requires i != j && i < j + U32_LIMIT && j < i + U32_LIMIT
    requires Parse(packet, SeqOfRequest(first, i)).Ok?
    ensures Parse(packet, SeqOfRequest(first, j)) == Err(OtherSequence)
  {
    if i < j { SequencesDiffer(first, i, j); } else { SequencesDiffer(first, j, i); }
    OneSequencePerPacket(packet, SeqOfRequest(first, i), SeqOfRequest(first, j));
  }

  /**
   If everything a device sends under this sequence number is a frame of one response, then no loss,
   repetition, reordering or intruder can make the request return anything else.
   */
  lemma ResponseIsWholeOrError(packets: seq<seq<Byte>>, expected: nat, env: nat -> Tick, limits: Limits,
                               response: seq<Byte>, parts: seq<seq<Byte>>)
    requires Ending(packets, expected, env, limits) == Some(Ok(response))
    requires forall i :: 0 <= i < |Tagged(packets, expected)| ==> CarriesPart(Tagged(packets, expected)[i], parts)
    ensures response == Concat(parts)
  {
    hide Ending, Join, Tagged;
    ResponseIsOwnFramesOnly(packets, expected, env, limits, response);
    JoinOfParts(parts, Tagged(packets, expected));
  }

  // ----- Many requests on one pipe

  datatype Ask =
    | AskGet(path: seq<Byte>, etag: seq<Byte>, client: Option<seq<Byte>>, query: seq<Field>)
    | AskPost(path: seq<Byte>, json: seq<Byte>, client: Option<seq<Byte>>)

  /** A request that was written in full: which one, its sequence number, what was read for it, what it returned. */
  datatype Served = Served(ask: nat, seqNo: nat, packets: seq<seq<Byte>>, result: Result<seq<Byte>, Failure>)

  function SeqNos(log: seq<Served>): (s: seq<nat>)
    ensures |s| == |log| && forall i :: 0 <= i < |log| ==> s[i] == log[i].seqNo
  {
    seq(|log|, i requires 0 <= i < |log| => log[i].seqNo)
  }

  /** What is returned was put together from frames tagged with the request's own sequence number only. */
  ghost predicate OwnAnswer(s: Served) {
    s.result.Ok? ==> Join(Tagged(s.packets, s.seqNo)) == Ok(s.result.value)
  }

  /** The packets are what the request's own environment gave it, and the result is what they end in. */
  ghost predicate Genuine(s: Served, envs: nat -> nat -> Tick, limits: Limits) {
    && Received(s.packets, s.seqNo, envs(s.ask), limits)
    && Ending(s.packets, s.seqNo, envs(s.ask), limits) == Some(s.result)
  }

  /** The request could not be built or not be written in full. */
  predicate Unsent(r: Result<seq<Byte>, Failure>) {
    r.Err? && (r.error.BadRequest? || r.error.WriteRaised? || r.error.ShortUsbWrite?)
  }

  /** This is the answer to the `n`-th request. */
  ghost predicate Logged(n: nat, answer: Result<seq<Byte>, Failure>, log: seq<Served>) {
    exists i :: 0 <= i < |log| && log[i].ask == n && log[i].result == answer
  }

  /** One entry to a request, in the order of the requests, with the answer that it was given. */
  ghost predicate InOrder(log: seq<Served>, answers: seq<Result<seq<Byte>, Failure>>) {
    && (forall i :: 0 <= i < |log| ==> log[i].ask < |answers| && answers[log[i].ask] == log[i].result)
    && (forall i, j :: 0 <= i < j < |log| ==> log[i].ask < log[j].ask)
  }

  /** No packet is accepted by two of these requests, as long as they are fewer than 2^32 apart. */
  ghost predicate NeverShared(log: seq<Served>) {
    forall i, j :: 0 <= i < |log| && 0 <= j < |log| && i != j && i < j + U32_LIMIT && j < i + U32_LIMIT ==>
      forall p :: Parse(p, log[i].seqNo).Ok? ==> Parse(p, log[j].seqNo) == Err(OtherSequence)
  }

  lemma NothingIsShared(first: nat, base: nat, written: seq<nat>, log: seq<Served>)
    requires base <= |written| && written[base..] == SeqNos(log)
    requires forall i :: 0 <= i < |written| ==> written[i] == SeqOfRequest(first, i)
    ensures NeverShared(log)
  {
    hide Parse, SeqOfRequest;
    assert forall i :: 0 <= i < |log| ==> log[i].seqNo == written[base..][i] == SeqOfRequest(first, base + i);
    forall i, j | 0 <= i < |log| && 0 <= j < |log| && i != j && i < j + U32_LIMIT && j < i + U32_LIMIT
      ensures forall p :: Parse(p, log[i].seqNo).Ok? ==> Parse(p, log[j].seqNo) == Err(OtherSequence)
    {
      forall p | Parse(p, log[i].seqNo).Ok? ensures Parse(p, log[j].seqNo) == Err(OtherSequence) {
        NoPacketAnswersTwice(p, first, base + i, base + j);
      }
    }
  }

  /** One request; it has an entry if it was written in full. */
  method ServeOne(datastore: MotuUsbDatastore, n: nat, ask: Ask, write: WriteEvent, envs: nat -> nat -> Tick, limits: Limits)
    returns (r: Result<seq<Byte>, Failure>, ghost entry: Option<Served>)
    requires datastore.Valid()
    modifies datastore, datastore.hostSeq
    ensures datastore.Valid()
    ensures datastore.written == old(datastore.written) + (if entry.Some? then [entry.value.seqNo] else [])
    ensures entry.None? ==> Unsent(r)
    ensures entry.Some? ==> entry.value.ask == n && entry.value.result == r
    ensures entry.Some? ==> Genuine(entry.value, envs, limits) && OwnAnswer(entry.value)
  {
    hide Parse, Join, Tagged, Received, Ending, BooksOf, AcksFor, Acks, BuildGet, BuildPost, HostSeqAfter, SeqOfRequest;
    ghost var before, seqNo := datastore.written, datastore.Current();
    var packets;
    match ask {
      case AskGet(path, etag, client, query) =>
        r, packets := datastore.Get(path, etag, client, query, write, envs(n), limits);
      case AskPost(path, json, client) =>
        r, packets := datastore.Post(path, json, client, write, envs(n), limits);
    }
    entry := None;
    if datastore.written != before {
      if r.Ok? { ResponseIsOwnFramesOnly(packets, seqNo, envs(n), limits, r.value); }
      entry := Some(Served(n, seqNo, packets, r));
    }
  }

  /** What a run of requests has answered, and how. */
  ghost predicate Serves(log: seq<Served>, answers: seq<Result<seq<Byte>, Failure>>, envs: nat -> nat -> Tick, limits: Limits) {
    && InOrder(log, answers)
    && (forall n :: 0 <= n < |answers| ==> Logged(n, answers[n], log) || Unsent(answers[n]))
    && (forall i :: 0 <= i < |log| ==> Genuine(log[i], envs, limits) && OwnAnswer(log[i]))
  }

  function Entered(log: seq<Served>, entry: Option<Served>): (longer: seq<Served>)
    ensures SeqNos(longer) == SeqNos(log) + (if entry.Some? then [entry.value.seqNo] else [])
  {
    if entry.Some? then log + [entry.value] else log
  }

  lemma ServesOneMore(log: seq<Served>, answers: seq<Result<seq<Byte>, Failure>>, envs: nat -> nat -> Tick, limits: Limits,
                      entry: Option<Served>, r: Result<seq<Byte>, Failure>)
    requires Serves(log, answers, envs, limits) && (entry.None? ==> Unsent(r))
    requires entry.Some? ==> entry.value.ask == |answers| && entry.value.result == r
    requires entry.Some? ==> Genuine(entry.value, envs, limits) && OwnAnswer(entry.value)
    ensures Serves(Entered(log, entry), answers + [r], envs, limits)
  {
    hide Genuine, OwnAnswer;
    var longer, more := Entered(log, entry), answers + [r];
    forall n | 0 <= n < |more| && !Unsent(more[n]) ensures Logged(n, more[n], longer) {
      if n < |answers| {
        var i :| 0 <= i < |log| && log[i].ask == n && log[i].result == answers[n];
        assert longer[i] == log[i];
      } else {
        assert longer[|log|] == entry.value;
      }
    }
  }

  /** Requests one after the other, each in an environment of its own that may cancel it or feed it anything. */
  method ServeAll(datastore: MotuUsbDatastore, asks: seq<Ask>, writes: nat -> WriteEvent, envs: nat -> nat -> Tick, limits: Limits)
    returns (answers: seq<Result<seq<Byte>, Failure>>, ghost log: seq<Served>)
    requires datastore.Valid()
    modifies datastore, datastore.hostSeq
    ensures datastore.Valid() && datastore.written == old(datastore.written) + SeqNos(log)
    ensures |answers| == |asks| && Serves(log, answers, envs, limits) && NeverShared(log)
  {
    hide Genuine, OwnAnswer, Serves, Entered, HostSeqAfter, NeverShared, SeqOfRequest;
    answers, log := [], [];
    assert Serves([], [], envs, limits) by { NothingServed(envs, limits); }
    for n := 0 to |asks|
      invariant |answers| == n && Serves(log, answers, envs, limits)
      invariant datastore.Valid() && datastore.written == old(datastore.written) + SeqNos(log)
    {
      var r, entry := ServeOne(datastore, n, asks[n], writes(n), envs, limits);
      ServesOneMore(log, answers, envs, limits, entry, r);
      log, answers := Entered(log, entry), answers + [r];
    }
    NothingIsShared(datastore.firstSeq, |old(datastore.written)|, datastore.written, log);
  }

  lemma NothingServed(envs: nat -> nat -> Tick, limits: Limits)
    ensures Serves([], [], envs, limits)
  {
  }
}
