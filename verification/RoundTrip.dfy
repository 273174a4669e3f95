/**
 The whole way of a response: cut into parts, framed, padded, cut into USB chunks, read, parsed and joined
 by `_read_logical_frame`, `_collect_response` and the parser (motu_proxy/datastore.py, motu_proxy/parser.py).
 */
module RoundTrip {
  import opened Bytes
  import opened Wrappers
  import opened Frames
  import opened Receive

  // ----- From chunks to a packet

  /** The bulk reads that deliver these chunks, one after the other, from the `k`-th on. */
  ghost predicate Delivers(bulk: nat -> BulkEvent, k: nat, chunks: seq<seq<Byte>>) {
    forall i :: 0 <= i < |chunks| ==> bulk(k + i) == Chunk(chunks[i])
  }

  lemma {:induction false} AssembleChunks(bulk: nat -> BulkEvent, k: nat, got: seq<Byte>, chunks: seq<seq<Byte>>, expected: nat)
    requires Delivers(bulk, k, chunks) && forall i :: 0 <= i < |chunks| ==> chunks[i] != []
    requires chunks == [] ==> expected <= |got|
    requires chunks != [] ==> |got + Concat(chunks[..|chunks| - 1])| < expected <= |got + Concat(chunks)|
    ensures Assemble(bulk, k, got, expected) == Packet(got + Concat(chunks))
    ensures AssembleReads(bulk, k, got, expected) == k + |chunks|
    decreases |chunks|
  {
    if chunks == [] {
      assert got + Concat(chunks) == got;
    } else {
      assert bulk(k + 0) == Chunk(chunks[0]);
      var rest := chunks[1..];
      forall i | 0 <= i < |rest| ensures bulk(k + 1 + i) == Chunk(rest[i]) { assert bulk(k + (i + 1)) == Chunk(chunks[i + 1]); }
      assert got + Concat(chunks) == got + chunks[0] + Concat(rest);
      if rest != [] {
        assert chunks[..|chunks| - 1][1..] == rest[..|rest| - 1];
        assert got + Concat(chunks[..|chunks| - 1]) == got + chunks[0] + Concat(rest[..|rest| - 1]);
      }
      AssembleChunks(bulk, k + 1, got + chunks[0], rest, expected);
    }
  }

  lemma {:induction false} ConcatPrefix(packets: seq<seq<Byte>>, k: nat)
    requires k < |packets|
    ensures |Concat(packets[..k])| + |packets[k]| == |Concat(packets[..k + 1])| <= |Concat(packets)|
    decreases |packets| - k
  {
    assert packets[..k + 1] == packets[..k] + [packets[k]];
    ConcatAppend(packets[..k], packets[k]);
    if k + 1 < |packets| {
      ConcatPrefix(packets, k + 1);
    } else {
      assert packets[..k + 1] == packets;
    }
  }

  /** Chunks that end with the frame, or with its padding, are all read and put together. */
  lemma LastChunkEndsFrame(bulk: nat -> BulkEvent, f: ResponseFrame, padding: seq<Byte>, chunks: seq<seq<Byte>>)
    requires Encodable(f) && chunks != [] && Concat(chunks) == Encode(f) + padding
    requires Delivers(bulk, 0, chunks) && |chunks[0]| >= 4 && forall i :: 0 <= i < |chunks| ==> chunks[i] != []
    requires |Concat(chunks[..|chunks| - 1])| < f.wrapperLen
    ensures Logical(bulk) == Packet(Encode(f) + padding)
    ensures Reads(bulk) == |chunks|
  {
    hide Encode, U16, GetU16;
    var whole := Encode(f) + padding;
    var first, rest := chunks[0], chunks[1..];
    assert bulk(0 + 0) == Chunk(first);
    assert whole == first + Concat(rest);
    WrapperLength(f, first, Concat(rest), padding);
    forall i | 0 <= i < |rest| ensures bulk(1 + i) == Chunk(rest[i]) { assert bulk(0 + (i + 1)) == Chunk(chunks[i + 1]); }
    if rest == [] {
      assert Concat(rest) == [];
    } else {
      assert chunks[..|chunks| - 1][1..] == rest[..|rest| - 1];
      assert |first + Concat(rest[..|rest| - 1])| == |Concat(chunks[..|chunks| - 1])|;
    }
    AssembleChunks(bulk, 1, first, rest, f.wrapperLen);
  }

  lemma WrapperLength(f: ResponseFrame, first: seq<Byte>, rest: seq<Byte>, padding: seq<Byte>)
    requires Encodable(f) && |first| >= 4 && first + rest == Encode(f) + padding
    ensures GetU16(first, 2) == f.wrapperLen
  {
    hide U16, GetU16, Control;
    var whole := first + rest;
    assert whole[2..4] == Wrapper(f)[2..4] == U16(f.wrapperLen);
    assert first[2..4] == whole[2..4];
    PackThenUnpack16(f.wrapperLen, first, 2);
  }

  /** How many of these chunks it takes to have that many bytes. */
  function ChunksNeeded(chunks: seq<seq<Byte>>, bytes: int): (m: nat)
    ensures m <= |chunks|
  {
    if bytes <= 0 || chunks == [] then 0 else 1 + ChunksNeeded(chunks[1..], bytes - |chunks[0]|)
  }

  lemma {:induction false} NeededExactly(chunks: seq<seq<Byte>>, bytes: int)
    requires bytes <= |Concat(chunks)|
    ensures var m := ChunksNeeded(chunks, bytes);
            bytes <= |Concat(chunks[..m])| && (m > 0 ==> |Concat(chunks[..m - 1])| < bytes)
  {
    if bytes > 0 && chunks != [] {
      var m := ChunksNeeded(chunks, bytes);
      NeededExactly(chunks[1..], bytes - |chunks[0]|);
      assert chunks[..m][1..] == chunks[1..][..m - 1];
      if m > 1 {
        assert chunks[..m - 1][1..] == chunks[1..][..m - 2];
      }
    }
  }

  lemma {:induction false} ConcatGrows(chunks: seq<seq<Byte>>, j: nat, k: nat)
    requires j <= k <= |chunks|
    ensures Concat(chunks[..j]) <= Concat(chunks[..k])
    decreases k
  {
    if j < k {
      ConcatGrows(chunks, j, k - 1);
      assert chunks[..k] == chunks[..k - 1] + [chunks[k - 1]];
      ConcatAppend(chunks[..k - 1], chunks[k - 1]);
    }
  }

  /** A padded frame cut anywhere into chunks: none is empty, and the first holds at least the wrapper. */
  ghost predicate IsCut(f: ResponseFrame, padding: seq<Byte>, chunks: seq<seq<Byte>>) {
    && Encodable(f)
    && chunks != [] && Concat(chunks) == Encode(f) + padding
    && |chunks[0]| >= 4 && forall i :: 0 <= i < |chunks| ==> chunks[i] != []
  }

  /** The frame's own bytes reach into the last chunk: no chunk is padding alone. */
  ghost predicate EndsInLastChunk(f: ResponseFrame, chunks: seq<seq<Byte>>)
    requires chunks != []
  {
    |Concat(chunks[..|chunks| - 1])| < f.wrapperLen
  }

  /** The chunks that are read, as one packet. */
  function PacketRead(f: ResponseFrame, chunks: seq<seq<Byte>>): (p: seq<Byte>) {
    Concat(chunks[..ChunksNeeded(chunks, f.wrapperLen)])
  }

  /**
   However a padded frame is cut into chunks, it is read and parsed back: reading stops with the chunk in
   which the frame ends, so all chunks are read if and only if that is the last one.
   */
  lemma ChunksReassemble(bulk: nat -> BulkEvent, f: ResponseFrame, padding: seq<Byte>, chunks: seq<seq<Byte>>)
    requires IsCut(f, padding, chunks) && Delivers(bulk, 0, chunks)
    ensures Logical(bulk) == Packet(PacketRead(f, chunks))
    ensures Parse(PacketRead(f, chunks), f.messageSeq) == Ok(f)
    ensures Reads(bulk) == ChunksNeeded(chunks, f.wrapperLen)
    ensures Reads(bulk) == |chunks| <==> EndsInLastChunk(f, chunks)
  {
    hide Encode, Parse, Logical, Reads, Concat, ChunksNeeded, Delivers, EndsInLastChunk;
    var rest := ChunksTaken(f, padding, chunks);
    var m := ChunksNeeded(chunks, f.wrapperLen);
    var taken := chunks[..m];
    DeliversPrefix(bulk, chunks, m);
    LastChunkEndsFrame(bulk, f, rest, taken);
    ParseOfEncode(f, rest);
  }

  lemma DeliversPrefix(bulk: nat -> BulkEvent, chunks: seq<seq<Byte>>, m: nat)
    requires Delivers(bulk, 0, chunks) && m <= |chunks|
    ensures Delivers(bulk, 0, chunks[..m])
  {
  }

  /** What is needed of the chunks is the frame and the part of its padding up to the end of a chunk. */
  lemma ChunksTaken(f: ResponseFrame, padding: seq<Byte>, chunks: seq<seq<Byte>>) returns (rest: seq<Byte>)
    requires IsCut(f, padding, chunks)
    ensures var m := ChunksNeeded(chunks, f.wrapperLen);
            && 0 < m && Concat(chunks[..m]) == Encode(f) + rest
            && |Concat(chunks[..m][..m - 1])| < f.wrapperLen
            && (m == |chunks| <==> EndsInLastChunk(f, chunks))
  {
    hide Encode;
    var n := f.wrapperLen;
    var m := ChunksNeeded(chunks, n);
    var whole := Encode(f) + padding;
    NeededExactly(chunks, n);
    assert Concat(chunks[..0]) == [];
    hide Concat, ChunksNeeded;
    assert chunks[..m][..m - 1] == chunks[..m - 1];
    ConcatGrows(chunks, m, |chunks|);
    assert chunks[..|chunks|] == chunks;
    var k := |Concat(chunks[..m])|;
    rest := whole[n..k];
    assert Concat(chunks[..m]) == whole[..k] == Encode(f) + rest;
    if m < |chunks| { ConcatGrows(chunks, m, |chunks| - 1); }
  }

  // ----- Reads that do not come to an end

  /** What an event that breaks a frame off makes of the read. */
  function BrokenOff(e: BulkEvent): (r: LogicalRead)
    requires e.Chunk? ==> e.data == []
  {
    if e.Interrupted? then ReadCancelled else if e.TransportError? then ReadError else ShortUsbFrame
  }

  lemma {:induction false} AssembleBreaksOff(bulk: nat -> BulkEvent, k: nat, got: seq<Byte>, chunks: seq<seq<Byte>>, expected: nat)
    requires Delivers(bulk, k, chunks) && (forall i :: 0 <= i < |chunks| ==> chunks[i] != []) && |got + Concat(chunks)| < expected
    requires bulk(k + |chunks|).Chunk? ==> bulk(k + |chunks|).data == []
    ensures Assemble(bulk, k, got, expected) == BrokenOff(bulk(k + |chunks|))
    ensures AssembleReads(bulk, k, got, expected) == k + |chunks| + 1
    decreases |chunks|
  {
    if chunks != [] {
      assert bulk(k + 0) == Chunk(chunks[0]);
      var rest := chunks[1..];
      forall i | 0 <= i < |rest| ensures bulk(k + 1 + i) == Chunk(rest[i]) { assert bulk(k + (i + 1)) == Chunk(chunks[i + 1]); }
      assert got + Concat(chunks) == got + chunks[0] + Concat(rest);
      AssembleBreaksOff(bulk, k + 1, got + chunks[0], rest, expected);
    }
  }

  /** A frame that is broken off, by a cancel, an error or silence, is no packet, and says why. */
  lemma FrameBreaksOff(bulk: nat -> BulkEvent, chunks: seq<seq<Byte>>)
    requires Delivers(bulk, 0, chunks) && chunks != [] && |chunks[0]| >= 4 && forall i :: 0 <= i < |chunks| ==> chunks[i] != []
    requires 4 <= GetU16(chunks[0], 2) && |Concat(chunks)| < GetU16(chunks[0], 2)
    requires bulk(|chunks|).Chunk? ==> bulk(|chunks|).data == []
    ensures Logical(bulk) == BrokenOff(bulk(|chunks|)) && Reads(bulk) == |chunks| + 1
  {
    hide GetU16;
    assert bulk(0 + 0) == Chunk(chunks[0]);
    var rest := chunks[1..];
    forall i | 0 <= i < |rest| ensures bulk(1 + i) == Chunk(rest[i]) { assert bulk(0 + (i + 1)) == Chunk(chunks[i + 1]); }
    assert Concat(chunks) == chunks[0] + Concat(rest);
    AssembleBreaksOff(bulk, 1, chunks[0], rest, GetU16(chunks[0], 2));
  }

  /** The first read alone decides: silence is an empty packet, a cancel and an error are what they are, and what cannot be a wrapper is no frame. */
  lemma FirstReadDecides(bulk: nat -> BulkEvent)
    ensures bulk(0) == Chunk([]) <==> Logical(bulk) == Packet([])
    ensures bulk(0) == Interrupted ==> Logical(bulk) == ReadCancelled
    ensures bulk(0) == TransportError ==> Logical(bulk) == ReadError
    ensures bulk(0).Chunk? && 0 < |bulk(0).data| < 4 ==> Logical(bulk) == ShortUsbFrame
    ensures bulk(0).Chunk? && |bulk(0).data| >= 4 && GetU16(bulk(0).data, 2) < 4 ==> Logical(bulk) == ShortUsbFrame
    ensures bulk(0).Chunk? && |bulk(0).data| >= 4 && 4 <= GetU16(bulk(0).data, 2) <= |bulk(0).data| ==> Logical(bulk) == Packet(bulk(0).data)
  {
    if bulk(0).Chunk? && |bulk(0).data| >= 4 && GetU16(bulk(0).data, 2) >= 4 {
      AssembledIsLong(bulk, 1, bulk(0).data, GetU16(bulk(0).data, 2));
    }
  }

  lemma {:induction false} AssembledIsLong(bulk: nat -> BulkEvent, k: nat, got: seq<Byte>, expected: nat)
    ensures Assemble(bulk, k, got, expected).Packet? ==> |Assemble(bulk, k, got, expected).data| >= |got|
    decreases if |got| < expected then expected - |got| else 0
  {
    if |got| < expected && bulk(k).Chunk? && bulk(k).data != [] { AssembledIsLong(bulk, k + 1, got + bulk(k).data, expected); }
  }

  // ----- From packets to the response
  /** A round in which nobody cancels, time remains, and the acknowledgement goes out. */
  ghost predicate ClearRound(tick: Tick, limits: Limits) {
    !tick.cancel && tick.now < limits.deadline && tick.write == Wrote(4)
  }

  ghost predicate CleanRound(tick: Tick, packet: seq<Byte>, limits: Limits) {
    ClearRound(tick, limits) && Logical(tick.bulk) == Packet(packet)
  }

  /** The first frames of one response, each in its packet, one packet to a round. */
  ghost predicate CleanRun(packets: seq<seq<Byte>>, frames: seq<ResponseFrame>, parts: seq<seq<Byte>>,
                           expected: nat, env: nat -> Tick, limits: Limits)
  {
    && |packets| == |frames| <= |parts|
    && |packets| <= limits.maxReads && |packets| <= limits.maxFrames && |Concat(packets)| <= limits.maxBytes
    && forall i :: 0 <= i < |packets| ==>
         && CleanRound(env(i), packets[i], limits)
         && Parse(packets[i], expected) == Ok(frames[i])
         && frames[i].segmentIndex == i && CarriesPart(frames[i], parts)
  }

  lemma {:induction false} CleanPrefix(packets: seq<seq<Byte>>, frames: seq<ResponseFrame>, parts: seq<seq<Byte>>,
                                       expected: nat, env: nat -> Tick, limits: Limits, k: nat)
    requires CleanRun(packets, frames, parts, expected, env, limits) && k <= |packets|
    ensures Received(packets[..k], expected, env, limits)
    ensures var b := BooksOf(packets[..k], expected, env, limits);
            b.frames == frames[..k] && b.bytes == |Concat(packets[..k])| && b.quiet == 0
    ensures StopAfter(packets[..k], expected, env, limits) == if 0 < k == |parts| then Some(Finished) else None
  {
    hide Classify, Parse, Logical, Received, BooksOf, StopAfter;
    if k == 0 {
      NothingReceived(expected, env, limits);
    } else {
      var before, packet, frame := packets[..k - 1], packets[k - 1], frames[k - 1];
      CleanPrefix(packets, frames, parts, expected, env, limits, k - 1);
      ConcatPrefix(packets, k - 1);
      assert CleanRound(env(k - 1), packet, limits) && CarriesPart(frame, parts) && Parse(packet, expected) == Ok(frame);
      hide CleanRun, Concat;
      AcceptedMeansTagged(packet, expected);
      OneMore(before, packet, expected, env, limits);
      ReceivedOneMore(before, packet, expected, env, limits);
      assert packets[..k] == before + [packet] && frames[..k] == frames[..k - 1] + [frame];
    }
  }

  lemma ParsedResponse(packets: seq<seq<Byte>>, frames: seq<ResponseFrame>, parts: seq<seq<Byte>>,
                       expected: nat, env: nat -> Tick, limits: Limits)
    requires |packets| == |parts| > 0 && CleanRun(packets, frames, parts, expected, env, limits)
    ensures Received(packets, expected, env, limits)
    ensures Ending(packets, expected, env, limits) == Some(Ok(Concat(parts)))
  {
    hide Received, BooksOf, StopAfter, Parse, Join, CleanRound;
    CleanPrefix(packets, frames, parts, expected, env, limits, |parts|);
    assert packets[..|parts|] == packets && frames[..|parts|] == frames;
    JoinOfParts(parts, frames);
  }

  // ----- From one stream of chunks to the response

  /** One part of a response on its way: its frame, the padding, and how both are cut. */
  datatype Segment = Segment(frame: ResponseFrame, padding: seq<Byte>, chunks: seq<seq<Byte>>)

  /** A response in segments: each carries its part, under this sequence number, cut in any way. */
  ghost predicate IsResponse(segments: seq<Segment>, parts: seq<seq<Byte>>, expected: nat) {
    && |segments| == |parts| > 0
    && forall i :: 0 <= i < |segments| ==> IsSegment(segments[i], i, parts, expected)
  }

  ghost predicate IsSegment(s: Segment, i: nat, parts: seq<seq<Byte>>, expected: nat) {
    && IsCut(s.frame, s.padding, s.chunks)
    && s.frame.messageSeq == expected && s.frame.segmentIndex == i && CarriesPart(s.frame, parts)
  }

  function PacketsRead(segments: seq<Segment>): (p: seq<seq<Byte>>)
    ensures |p| == |segments| && forall i :: 0 <= i < |p| ==> p[i] == PacketRead(segments[i].frame, segments[i].chunks)
  {
    seq(|segments|, i requires 0 <= i < |segments| => PacketRead(segments[i].frame, segments[i].chunks))
  }

  /** Enough rounds, frames and bytes, and nobody in the way. */
  ghost predicate Unhindered(segments: seq<Segment>, env: nat -> Tick, limits: Limits) {
    && |segments| <= limits.maxReads && |segments| <= limits.maxFrames && |Concat(PacketsRead(segments))| <= limits.maxBytes
    && forall i :: 0 <= i < |segments| ==> ClearRound(env(i), limits)
  }

  function FramesOf(segments: seq<Segment>): (f: seq<ResponseFrame>)
    ensures |f| == |segments| && forall i :: 0 <= i < |f| ==> f[i] == segments[i].frame
  {
    seq(|segments|, i requires 0 <= i < |segments| => segments[i].frame)
  }

  /** The first `n` rounds are given the chunks of their segments, however those are cut. */
  ghost predicate Given(segments: seq<Segment>, env: nat -> Tick, n: nat) {
    forall i :: 0 <= i < |segments| && i < n ==> Delivers(env(i).bulk, 0, segments[i].chunks)
  }

  lemma SegmentsAreClean(segments: seq<Segment>, parts: seq<seq<Byte>>, expected: nat, env: nat -> Tick, limits: Limits, n: nat)
    requires IsResponse(segments, parts, expected) && Unhindered(segments, env, limits)
    requires n <= |segments| && Given(segments, env, n)
    ensures CleanRun(PacketsRead(segments)[..n], FramesOf(segments)[..n], parts, expected, env, limits)
  {
    hide Parse, Logical, IsCut, PacketRead, CarriesPart, Delivers;
    var packets := PacketsRead(segments);
    ConcatGrows(packets, n, |packets|);
    assert packets[..|packets|] == packets;
    forall i | 0 <= i < n
      ensures CleanRound(env(i), packets[i], limits) && Parse(packets[i], expected) == Ok(segments[i].frame)
      ensures segments[i].frame.segmentIndex == i && CarriesPart(segments[i].frame, parts)
    {
      var s := segments[i];
      assert IsSegment(s, i, parts, expected) && ClearRound(env(i), limits);
      ChunksReassemble(env(i).bulk, s.frame, s.padding, s.chunks);
    }
  }

  /** If every round is given the chunks of its segment, however they are cut, the response comes back whole. */
  lemma SegmentsComeBack(segments: seq<Segment>, parts: seq<seq<Byte>>, expected: nat, env: nat -> Tick, limits: Limits)
    requires IsResponse(segments, parts, expected) && Unhindered(segments, env, limits)
    requires Given(segments, env, |segments|)
    ensures Received(PacketsRead(segments), expected, env, limits)
    ensures Ending(PacketsRead(segments), expected, env, limits) == Some(Ok(Concat(parts)))
  {
    hide Received, Ending, CleanRun, Unhindered, Given, PacketsRead, FramesOf;
    var n := |segments|;
    SegmentsAreClean(segments, parts, expected, env, limits, n);
    assert PacketsRead(segments)[..n] == PacketsRead(segments) && FramesOf(segments)[..n] == FramesOf(segments);
    ParsedResponse(PacketsRead(segments), FramesOf(segments), parts, expected, env, limits);
  }

  /** The rounds read one stream, each from where the one before it stopped; `at` says where they begin. */
  ghost predicate OneStream(stream: nat -> BulkEvent, env: nat -> Tick, at: seq<nat>) {
    && (|at| > 0 ==> at[0] == 0)
    && (forall i :: 0 <= i < |at| - 1 ==> at[i + 1] == at[i] + Reads(env(i).bulk))
    && (forall i, k: nat :: 0 <= i < |at| ==> env(i).bulk(k) == stream(at[i] + k))
  }

  /** Where the chunks of a segment begin, if all before it stand in the stream one after the other. */
  function Begins(segments: seq<Segment>, i: nat): (n: nat)
    requires i <= |segments|
  {
    if i == 0 then 0 else Begins(segments, i - 1) + |segments[i - 1].chunks|
  }

  /** The response stands in the stream, segment after segment. */
  ghost predicate Stands(segments: seq<Segment>, stream: nat -> BulkEvent) {
    forall i :: 0 <= i < |segments| ==> Delivers(stream, Begins(segments, i), segments[i].chunks)
  }

  /** Before the last segment no chunk is padding alone. */
  ghost predicate NoIdleChunk(segments: seq<Segment>) {
    forall i :: 0 <= i < |segments| - 1 ==> Used(segments[i])
  }

  ghost predicate Used(s: Segment) { s.chunks != [] && EndsInLastChunk(s.frame, s.chunks) }

  lemma AllIsRead(bulk: nat -> BulkEvent, s: Segment, i: nat, parts: seq<seq<Byte>>, expected: nat)
    requires IsSegment(s, i, parts, expected) && Delivers(bulk, 0, s.chunks)
    ensures Reads(bulk) <= |s.chunks| && (Reads(bulk) == |s.chunks| <==> Used(s))
  {
    hide Reads, Parse, Logical, PacketRead, Encode, Concat;
    ChunksReassemble(bulk, s.frame, s.padding, s.chunks);
  }

  lemma SegmentAt(segments: seq<Segment>, parts: seq<seq<Byte>>, expected: nat, i: nat)
    requires IsResponse(segments, parts, expected) && i < |segments|
    ensures IsSegment(segments[i], i, parts, expected)
  {
  }

  lemma StandsAt(segments: seq<Segment>, stream: nat -> BulkEvent, i: nat)
    requires Stands(segments, stream) && i < |segments|
    ensures Delivers(stream, Begins(segments, i), segments[i].chunks)
  {
  }

  /** As long as no chunk was idle, the rounds keep step with the segments. */
  lemma {:induction false} RoundsMeetSegments(segments: seq<Segment>, parts: seq<seq<Byte>>, expected: nat,
                                              stream: nat -> BulkEvent, env: nat -> Tick, at: seq<nat>, i: nat)
    requires IsResponse(segments, parts, expected) && |at| == |segments| && OneStream(stream, env, at)
    requires Stands(segments, stream) && i < |segments|
    requires forall j :: 0 <= j < i ==> Used(segments[j])
    ensures at[i] == Begins(segments, i) && Delivers(env(i).bulk, 0, segments[i].chunks)
  {
    hide IsSegment, Used, Reads, Delivers, OneStream, Stands, IsResponse;
    NextRound(stream, env, at, i);
    StandsAt(segments, stream, i);
    if i > 0 {
      RoundsMeetSegments(segments, parts, expected, stream, env, at, i - 1);
      SegmentAt(segments, parts, expected, i - 1);
      AllIsRead(env(i - 1).bulk, segments[i - 1], i - 1, parts, expected);
    }
    ShiftedDelivers(stream, env, at, i, segments[i].chunks);
  }

  lemma ShiftedDelivers(stream: nat -> BulkEvent, env: nat -> Tick, at: seq<nat>, i: nat, chunks: seq<seq<Byte>>)
    requires OneStream(stream, env, at) && i < |at| && Delivers(stream, at[i], chunks)
    ensures Delivers(env(i).bulk, 0, chunks)
  {
    forall k | 0 <= k < |chunks| ensures env(i).bulk(0 + k) == Chunk(chunks[k]) {
      assert env(i).bulk(k) == stream(at[i] + k);
    }
  }

  lemma NextRound(stream: nat -> BulkEvent, env: nat -> Tick, at: seq<nat>, i: nat)
    requires OneStream(stream, env, at) && i < |at|
    ensures at[i] == if i == 0 then 0 else at[i - 1] + Reads(env(i - 1).bulk)
  {
    assert i > 0 ==> at[i - 1 + 1] == at[i - 1] + Reads(env(i - 1).bulk);
  }

  lemma NextRoundBegins(stream: nat -> BulkEvent, env: nat -> Tick, at: seq<nat>, i: nat)
    requires OneStream(stream, env, at) && i + 1 < |at|
    ensures env(i + 1).bulk(0) == env(i).bulk(Reads(env(i).bulk))
  {
    hide Reads;
    assert env(i + 1).bulk(0) == stream(at[i + 1] + 0);
    assert env(i).bulk(Reads(env(i).bulk)) == stream(at[i] + Reads(env(i).bulk));
  }

  /** Everything that is said of one response on one stream. */
  ghost predicate OnItsWay(segments: seq<Segment>, parts: seq<seq<Byte>>, expected: nat,
                           stream: nat -> BulkEvent, env: nat -> Tick, at: seq<nat>, limits: Limits)
  {
    && IsResponse(segments, parts, expected) && Stands(segments, stream)
    && |at| == |segments| && OneStream(stream, env, at) && Unhindered(segments, env, limits)
  }

  /**
   The whole way: any byte string in any parts, each framed, padded and cut into chunks, all of them sent
   down one stream, comes back as it was, as long as no chunk before the last segment is padding alone.
   */
  lemma WholeResponseRoundTrip(segments: seq<Segment>, parts: seq<seq<Byte>>, expected: nat,
                               stream: nat -> BulkEvent, env: nat -> Tick, at: seq<nat>, limits: Limits)
    requires OnItsWay(segments, parts, expected, stream, env, at, limits) && NoIdleChunk(segments)
    ensures Received(PacketsRead(segments), expected, env, limits)
    ensures Ending(PacketsRead(segments), expected, env, limits) == Some(Ok(Concat(parts)))
  {
    hide Received, Ending, IsResponse, Unhindered, OneStream, Stands, Used, Delivers;
    forall i | 0 <= i < |segments| ensures Delivers(env(i).bulk, 0, segments[i].chunks) {
      RoundsMeetSegments(segments, parts, expected, stream, env, at, i);
    }
    SegmentsComeBack(segments, parts, expected, env, limits);
  }

  // ----- When a chunk is padding alone

  ghost predicate Zeros(s: seq<Byte>) { forall i :: 0 <= i < |s| ==> s[i] == 0 }

  /** A chunk that is left over is made of the padding. */
  lemma LeftOverIsPadding(f: ResponseFrame, padding: seq<Byte>, chunks: seq<seq<Byte>>)
    requires IsCut(f, padding, chunks) && ChunksNeeded(chunks, f.wrapperLen) < |chunks| && Zeros(padding)
    ensures Zeros(chunks[ChunksNeeded(chunks, f.wrapperLen)])
  {
    hide Encode, ChunksNeeded, Concat, Zeros, Encodable;
    var m := ChunksNeeded(chunks, f.wrapperLen);
    assert |Encode(f)| == f.wrapperLen;
    NeededExactly(chunks, f.wrapperLen);
    ChunkFollows(chunks, m);
    BehindIsPadding(Encode(f), padding, Concat(chunks[..m]), chunks[m]);
  }

  lemma ChunkFollows(chunks: seq<seq<Byte>>, m: nat)
    requires m < |chunks|
    ensures Concat(chunks[..m]) + chunks[m] <= Concat(chunks)
  {
    hide Concat;
    assert chunks[..m + 1] == chunks[..m] + [chunks[m]] && chunks[..|chunks|] == chunks;
    ConcatAppend(chunks[..m], chunks[m]);
    ConcatGrows(chunks, m + 1, |chunks|);
  }

  lemma BehindIsPadding(frame: seq<Byte>, padding: seq<Byte>, front: seq<Byte>, chunk: seq<Byte>)
    requires front + chunk <= frame + padding && |frame| <= |front| && Zeros(padding)
    ensures Zeros(chunk)
  {
    forall j | 0 <= j < |chunk| ensures chunk[j] == 0 {
      assert chunk[j] == (front + chunk)[|front| + j] == (frame + padding)[|front| + j];
    }
  }

  /** A read that begins with zeros fails. */
  lemma ZerosAreNoFrame(bulk: nat -> BulkEvent, chunk: seq<Byte>)
    requires bulk(0) == Chunk(chunk) && chunk != [] && Zeros(chunk)
    ensures Logical(bulk) == ShortUsbFrame
  {
  }

  /** The first idle chunk of zeros is taken for a frame of its own, and the request fails there. */
  lemma IdleChunkFails(segments: seq<Segment>, parts: seq<seq<Byte>>, expected: nat,
                       stream: nat -> BulkEvent, env: nat -> Tick, at: seq<nat>, limits: Limits, i: nat)
    requires OnItsWay(segments, parts, expected, stream, env, at, limits)
    requires i < |segments| - 1 && !Used(segments[i]) && Zeros(segments[i].padding)
    requires forall j :: 0 <= j < i ==> Used(segments[j])
    ensures Received(PacketsRead(segments)[..i + 1], expected, env, limits)
    ensures Ending(PacketsRead(segments)[..i + 1], expected, env, limits) == Some(Err(ShortRead))
  {
    hide Received, Used, Delivers, IsSegment, Stands, OneStream, Reads, CleanRun, CleanRound, BooksOf, StopAfter;
    forall j | 0 <= j < |segments| && j < i + 1 ensures Delivers(env(j).bulk, 0, segments[j].chunks) {
      RoundsMeetSegments(segments, parts, expected, stream, env, at, j);
    }
    var packets, frames := PacketsRead(segments)[..i + 1], FramesOf(segments)[..i + 1];
    SegmentsAreClean(segments, parts, expected, env, limits, i + 1);
    CleanPrefix(packets, frames, parts, expected, env, limits, i + 1);
    assert packets[..i + 1] == packets;
    assert Delivers(env(i).bulk, 0, segments[i].chunks);
    NextReadIsIdle(segments, parts, expected, stream, env, at, i);
    assert ClearRound(env(i + 1), limits);
  }

  lemma NextReadIsIdle(segments: seq<Segment>, parts: seq<seq<Byte>>, expected: nat,
                       stream: nat -> BulkEvent, env: nat -> Tick, at: seq<nat>, i: nat)
    requires IsResponse(segments, parts, expected) && |at| == |segments| && OneStream(stream, env, at)
    requires i < |segments| - 1 && !Used(segments[i]) && Zeros(segments[i].padding)
    requires Delivers(env(i).bulk, 0, segments[i].chunks)
    ensures Logical(env(i + 1).bulk) == ShortUsbFrame
  {
    hide Reads, Logical, Parse, Concat, Encode, ChunksNeeded, IsResponse, Zeros;
    hide OneStream;
    var s, m := segments[i], Reads(env(i).bulk);
    NextRoundBegins(stream, env, at, i);
    SegmentAt(segments, parts, expected, i);
    ChunksReassemble(env(i).bulk, s.frame, s.padding, s.chunks);
    LeftOverIsPadding(s.frame, s.padding, s.chunks);
    assert env(i).bulk(0 + m) == Chunk(s.chunks[m]);
    ZerosAreNoFrame(env(i + 1).bulk, s.chunks[m]);
  }

  /** A loop has one end: what is read in an environment, up to where the loop ends, is determined by it. */
  lemma OneEnd(a: seq<seq<Byte>>, b: seq<seq<Byte>>, expected: nat, env: nat -> Tick, limits: Limits)
    requires Received(a, expected, env, limits) && Ending(a, expected, env, limits).Some?
    requires Received(b, expected, env, limits) && Ending(b, expected, env, limits).Some?
    ensures a == b
  {
    hide Received, Ending;
    if |a| <= |b| { SamePackets(a, b, expected, env, limits); } else { SamePackets(b, a, expected, env, limits); }
  }

  lemma {:induction false} SamePackets(a: seq<seq<Byte>>, b: seq<seq<Byte>>, expected: nat, env: nat -> Tick, limits: Limits)
    requires Received(a, expected, env, limits) && Received(b, expected, env, limits) && |a| <= |b|
    ensures a <= b && (a != b ==> Ending(a, expected, env, limits) == None)
    decreases |a| + |b|
  {
    hide StopAfter, StopBefore, BooksOf, Logical;
    if |a| < |b| {
      SamePackets(a, b[..|b| - 1], expected, env, limits);
    } else if a != [] {
      SamePackets(a[..|a| - 1], b[..|b| - 1], expected, env, limits);
    }
  }

  /**
   With zeros for padding, exactly: whatever the loop reads on such a stream, it returns the response if and
   only if no chunk before the last segment is padding alone, and otherwise it fails on a short frame.
   */
  lemma ZeroPaddedRoundTripExactly(segments: seq<Segment>, parts: seq<seq<Byte>>, expected: nat,
                                   stream: nat -> BulkEvent, env: nat -> Tick, at: seq<nat>, limits: Limits,
                                   packets: seq<seq<Byte>>, r: Result<seq<Byte>, Failure>)
    requires OnItsWay(segments, parts, expected, stream, env, at, limits)
    requires forall i :: 0 <= i < |segments| ==> Zeros(segments[i].padding)
    requires Received(packets, expected, env, limits) && Ending(packets, expected, env, limits) == Some(r)
    ensures r == if NoIdleChunk(segments) then Ok(Concat(parts)) else Err(ShortRead)
  {
    hide OnItsWay, Received, Ending, Used, PacketsRead, Zeros;
    if NoIdleChunk(segments) {
      WholeResponseRoundTrip(segments, parts, expected, stream, env, at, limits);
      OneEnd(packets, PacketsRead(segments), expected, env, limits);
    } else {
      var i := FirstIdle(segments, 0);
      IdleChunkFails(segments, parts, expected, stream, env, at, limits, i);
      OneEnd(packets, PacketsRead(segments)[..i + 1], expected, env, limits);
    }
  }

  ghost function FirstIdle(segments: seq<Segment>, from: nat): (i: nat)
    requires forall j :: 0 <= j < from ==> j < |segments| && Used(segments[j])
    requires !NoIdleChunk(segments)
    ensures i < |segments| - 1 && !Used(segments[i]) && forall j :: 0 <= j < i ==> Used(segments[j])
    decreases |segments| - from
  {
    if !Used(segments[from]) then from else FirstIdle(segments, from + 1)
  }

  // ----- An input that fails

  /** A segment without payload. */
  function Blank(i: nat, last: nat): (f: ResponseFrame)
    requires i <= last < 10
    ensures Encodable(f)
  {
    ResponseFrame(NREK, 0x77, 0, OVERHEAD, 2, i == last, i, [])
  }

  function Padded(): (s: seq<Segment>)
    ensures |s| == 2
  {
    [Segment(Blank(0, 1), [0, 0, 0, 0], [Encode(Blank(0, 1)), [0, 0, 0, 0]]), Segment(Blank(1, 1), [], [Encode(Blank(1, 1))])]
  }

  function PaddedStream(n: nat): (e: BulkEvent) {
    if n == 0 then Chunk(Encode(Blank(0, 1))) else if n == 1 then Chunk([0, 0, 0, 0])
    else if n == 2 then Chunk(Encode(Blank(1, 1))) else Chunk([])
  }

  function PaddedRound(i: nat): (t: Tick) {
    Tick(false, 0, (k: nat) => PaddedStream((if i == 0 then 0 else 1) + k), 0, Wrote(4))
  }

  const ROOM := Limits(1, 1000, 10, 10, 10, false)

  lemma PaddedIsResponse()
    ensures IsResponse(Padded(), [[], []], 2)
    ensures ChunksNeeded(Padded()[0].chunks, OVERHEAD) == ChunksNeeded(Padded()[1].chunks, OVERHEAD) == 1
    ensures Unhindered(Padded(), PaddedRound, ROOM) && !NoIdleChunk(Padded())
  {
    hide Encode;
    var s := Padded();
    OneOrTwoChunks(Encode(Blank(0, 1)), [0, 0, 0, 0]);
    OneOrTwoChunks(Encode(Blank(1, 1)), Encode(Blank(1, 1)));
    assert s[0].chunks[..1] == [Encode(Blank(0, 1))] && s[1].chunks[..1] == s[1].chunks;
    NeededExactly(s[0].chunks, OVERHEAD);
    NeededExactly(s[1].chunks, OVERHEAD);
    OneOrTwoChunks(PacketsRead(s)[0], PacketsRead(s)[1]);
    assert PacketsRead(s) == [PacketsRead(s)[0], PacketsRead(s)[1]];
    assert !Used(s[0]);
  }

  lemma PaddedStands()
    ensures Stands(Padded(), PaddedStream) && Delivers(PaddedRound(0).bulk, 0, Padded()[0].chunks)
  {
    hide Encode;
    var s := Padded();
    assert Begins(s, 0) == 0 && Begins(s, 1) == 2;
    assert PaddedRound(0).bulk(0 + 0) == PaddedStream(0 + 0) == Chunk(s[0].chunks[0]);
    assert PaddedRound(0).bulk(0 + 1) == PaddedStream(0 + 1) == Chunk(s[0].chunks[1]);
    assert PaddedStream(2 + 0) == Chunk(s[1].chunks[0]);
  }

  /** Two blank segments, four zeros in a chunk of their own behind the first: the request fails. */
  lemma PaddingChunkBreaksTheNextRead(packets: seq<seq<Byte>>, r: Result<seq<Byte>, Failure>)
    requires Received(packets, 2, PaddedRound, ROOM) && Ending(packets, 2, PaddedRound, ROOM) == Some(r)
    ensures r == Err(ShortRead)
  {
    hide Encode, Parse, Received, Ending, Reads, Logical, Unhindered, NoIdleChunk, Stands, ChunksNeeded;
    var s := Padded();
    PaddedIsResponse();
    PaddedStands();
    assert IsSegment(s[0], 0, [[], []], 2);
    ChunksReassemble(PaddedRound(0).bulk, s[0].frame, s[0].padding, s[0].chunks);
    assert OneStream(PaddedStream, PaddedRound, [0, 1]);
    ZeroPaddedRoundTripExactly(s, [[], []], 2, PaddedStream, PaddedRound, [0, 1], ROOM, packets, r);
  }

  lemma OneOrTwoChunks(a: seq<Byte>, b: seq<Byte>)
    ensures Concat([a]) == a && Concat([a, b]) == a + b
  {
    var none: seq<seq<Byte>> := [];
    assert Concat(none) == [] && none + [a] == [a] && [a] + [b] == [a, b];
    ConcatAppend(none, a);
    ConcatAppend([a], b);
  }
}
