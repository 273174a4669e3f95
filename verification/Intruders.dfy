/**
 A response among intruders: frames of other requests, late or damaged, device acks and unknown packets may come
 in between, and the response still comes back whole (`_collect_response` of motu_proxy/datastore.py).
 */
module Intruders {
  import opened Bytes
  import opened Wrappers
  import opened Frames
  import opened Receive
  import opened Accounting
  import opened RoundTrip

  /** What one round brings: a segment of the response, cut in any way, or a packet that is none of this request's. */
  datatype Item = Own(segment: Segment) | Intruder(packet: seq<Byte>)

  function PacketOf(item: Item): (p: seq<Byte>) {
    if item.Own? then PacketRead(item.segment.frame, item.segment.chunks) else item.packet
  }

  function Packets(script: seq<Item>): (p: seq<seq<Byte>>)
    ensures |p| == |script| && forall i :: 0 <= i < |p| ==> p[i] == PacketOf(script[i])
  {
    seq(|script|, i requires 0 <= i < |script| => PacketOf(script[i]))
  }

  /** The segments among the items. */
  function Segments(script: seq<Item>): (s: seq<Segment>)
    ensures |s| <= |script|
  {
    if script == [] then [] else
    var last := |script| - 1;
    Segments(script[..last]) + (if script[last].Own? then [script[last].segment] else [])
  }

  ghost predicate IsIntruder(packet: seq<Byte>, expected: nat) {
    Is(packet, expected, Others) || Is(packet, expected, AckPacket) || Is(packet, expected, Unknown)
  }

  /** Round `i` is clear, and brings its item. */
  ghost predicate Brings(tick: Tick, item: Item, expected: nat, limits: Limits) {
    && ClearRound(tick, limits)
    && (item.Own? ==> Delivers(tick.bulk, 0, item.segment.chunks))
    && (item.Intruder? ==> Logical(tick.bulk) == Packet(item.packet) && IsIntruder(item.packet, expected))
  }

  /** Every limit of the loop is kept, over all. */
  ghost predicate WithinLimits(packets: seq<seq<Byte>>, expected: nat, limits: Limits) {
    && |packets| <= limits.maxReads
    && CountOf(packets, expected, Mine) <= limits.maxFrames && AcceptedBytes(packets, expected) <= limits.maxBytes
    && CountOf(packets, expected, Others) <= limits.maxFrames && OthersBytes(packets, expected) <= limits.maxBytes
    && CountOf(packets, expected, Others) + CountOf(packets, expected, Unknown) <= limits.maxIgnored
  }

  ghost predicate Mixed(script: seq<Item>, parts: seq<seq<Byte>>, expected: nat, env: nat -> Tick, limits: Limits) {
    && script != [] && script[|script| - 1].Own?
    && IsResponse(Segments(script), parts, expected)
    && WithinLimits(Packets(script), expected, limits)
    && forall i :: 0 <= i < |script| ==> Brings(env(i), script[i], expected, limits)
  }

  // ----- Counting up to a point

  lemma {:induction false} CountsGrow(packets: seq<seq<Byte>>, expected: nat, k: nat)
    requires k <= |packets|
    ensures forall sort :: CountOf(packets[..k], expected, sort) <= CountOf(packets, expected, sort)
    ensures AcceptedBytes(packets[..k], expected) <= AcceptedBytes(packets, expected)
    ensures OthersBytes(packets[..k], expected) <= OthersBytes(packets, expected)
    decreases |packets|
  {
    hide Is, Classify;
    if k == |packets| {
      assert packets[..k] == packets;
    } else {
      var before := packets[..|packets| - 1];
      CountsGrow(before, expected, k);
      assert before[..k] == packets[..k];
    }
  }

  lemma {:induction false} SegmentsGrow(script: seq<Item>, k: nat)
    requires k <= |script|
    ensures Segments(script[..k]) <= Segments(script)
    ensures k < |script| && script[|script| - 1].Own? ==> |Segments(script[..k])| < |Segments(script)|
    decreases |script|
  {
    if k == |script| {
      assert script[..k] == script;
    } else {
      var before := script[..|script| - 1];
      SegmentsGrow(before, k);
      assert before[..k] == script[..k];
    }
  }

  // ----- One packet

  /** A packet that nothing can be blamed on ends the loop only as the final frame. */
  lemma BlamelessGoesOn(before: Books, k: Kind, size: nat, tick: Tick, limits: Limits)
    requires !k.Quiet? && !k.Fatal?
    requires forall f :: !Blamed(before, Enter(before, k, size, EmptySlice(tick, limits)), k, size, tick, limits, f)
    ensures StopOn(before, k, size, tick, limits) == if k.Accepted? && k.frame.final then Some(Finished) else None
  {
    var stop := StopOn(before, k, size, tick, limits);
    if stop.Some? && stop.value.Fail? { StopIsBlamed(before, k, size, tick, limits, stop.value.failure); }
  }

  /** Within the limits there is nothing to blame. */
  lemma Blameless(before: Books, k: Kind, size: nat, tick: Tick, limits: Limits)
    requires !k.Quiet? && !k.Fatal? && tick.write == Wrote(4)
    requires var b := Enter(before, k, size, EmptySlice(tick, limits));
             |b.frames| <= limits.maxFrames && b.bytes <= limits.maxBytes && b.ignored <= limits.maxIgnored
    requires k.Stale? ==> var run := Extend(before.stale, k.seqNo, size); run.frames <= limits.maxFrames && run.bytes <= limits.maxBytes
    ensures StopOn(before, k, size, tick, limits) == if k.Accepted? && k.frame.final then Some(Finished) else None
  {
    hide Enter, StopOn, EmptySlice, Extend;
    var b := Enter(before, k, size, EmptySlice(tick, limits));
    forall f ensures !Blamed(before, b, k, size, tick, limits, f) {}
    BlamelessGoesOn(before, k, size, tick, limits);
  }

  lemma NothingToBlame(packets: seq<seq<Byte>>, expected: nat, env: nat -> Tick, limits: Limits, k: nat)
    requires WithinLimits(packets, expected, limits) && 0 < k <= |packets| && env(k - 1).write == Wrote(4)
    requires !Is(packets[k - 1], expected, NoPacket) && !Is(packets[k - 1], expected, Damaged)
    ensures var kind := Classify(packets[k - 1], expected);
            StopAfter(packets[..k], expected, env, limits) == if kind.Accepted? && kind.frame.final then Some(Finished) else None
  {
    var ps, last := packets[..k], k - 1;
    var before, kind := BooksOf(ps[..last], expected, env, limits), Classify(ps[last], expected);
    assert BooksOf(ps, expected, env, limits) == Enter(before, kind, |ps[last]|, EmptySlice(env(last), limits));
    assert StopAfter(ps, expected, env, limits) == StopOn(before, kind, |ps[last]|, env(last), limits);
    hide Classify, Is, CountOf, OthersBytes, AcceptedBytes, Tagged, BooksOf, StopAfter, Enter, StopOn, EmptySlice, Extend;
    CountsGrow(packets, expected, k);
    BooksTell(ps, expected, env, limits);
    LastPacket(ps, expected, env, limits);
    KindIsSort(ps[last], expected);
    Blameless(before, kind, |ps[last]|, env(last), limits);
  }

  // ----- All of them

  /** What a round reads of its item. */
  ghost predicate ItemRead(tick: Tick, item: Item, expected: nat, limits: Limits) {
    var packet := PacketOf(item);
    && ClearRound(tick, limits) && Logical(tick.bulk) == Packet(packet)
    && !Is(packet, expected, NoPacket) && !Is(packet, expected, Damaged)
    && (item.Own? ==> Parse(packet, expected) == Ok(item.segment.frame))
    && (item.Intruder? ==> Parse(packet, expected).Err?)
  }

  lemma ItemIsRead(tick: Tick, item: Item, expected: nat, limits: Limits, i: nat, parts: seq<seq<Byte>>)
    requires Brings(tick, item, expected, limits) && (item.Own? ==> IsSegment(item.segment, i, parts, expected))
    ensures ItemRead(tick, item, expected, limits)
  {
    KindIsSort(PacketOf(item), expected);
    if item.Own? {
      hide Parse, Logical, Classify, PeekMessageSeq, IsDeviceAck, IsCut, PacketRead;
      ChunksReassemble(tick.bulk, item.segment.frame, item.segment.padding, item.segment.chunks);
    } else {
      assert Is(item.packet, expected, Mine) <==> Parse(item.packet, expected).Ok?;
      hide Parse, Logical, Classify, Is;
    }
  }

  ghost predicate ReadTo(script: seq<Item>, parts: seq<seq<Byte>>, expected: nat, env: nat -> Tick, limits: Limits, k: nat)
    requires k <= |script|
  {
    var ps := Packets(script)[..k];
    && Received(ps, expected, env, limits)
    && Tagged(ps, expected) == FramesOf(Segments(script[..k]))
    && StopAfter(ps, expected, env, limits) == if 0 < k == |script| then Some(Finished) else None
  }

  lemma {:induction false} ReadsOn(script: seq<Item>, parts: seq<seq<Byte>>, expected: nat, env: nat -> Tick, limits: Limits, k: nat)
    requires Mixed(script, parts, expected, env, limits) && k <= |script|
    ensures ReadTo(script, parts, expected, env, limits, k)
  {
    if k == 0 {
      NothingReceived(expected, env, limits);
    } else {
      ReadsOn(script, parts, expected, env, limits, k - 1);
      OneMoreItem(script, parts, expected, env, limits, k);
    }
  }

  /** Where the `k`-th item stands among the segments. */
  ghost predicate ItemStands(script: seq<Item>, parts: seq<seq<Byte>>, k: nat)
    requires 0 < k <= |script|
  {
    var item, m := script[k - 1], |Segments(script[..k - 1])|;
    && Segments(script[..k]) == Segments(script[..k - 1]) + (if item.Own? then [item.segment] else [])
    && (item.Own? ==> (item.segment.frame.final <==> k == |script|))
    && (k == |script| ==> item.Own?)
  }

  lemma PlaceOfItem(script: seq<Item>, parts: seq<seq<Byte>>, expected: nat, k: nat) returns (m: nat)
    requires 0 < k <= |script| && script[|script| - 1].Own? && IsResponse(Segments(script), parts, expected)
    ensures ItemStands(script, parts, k) && (script[k - 1].Own? ==> IsSegment(script[k - 1].segment, m, parts, expected))
  {
    var item := script[k - 1];
    m := |Segments(script[..k - 1])|;
    SegmentsGrow(script, k - 1);
    SegmentsGrow(script, k);
    assert script[..k][..k - 1] == script[..k - 1];
    assert Segments(script[..k]) == Segments(script[..k - 1]) + (if item.Own? then [item.segment] else []);
    assert k == |script| ==> script[..k] == script;
    hide Segments, IsSegment;
    if item.Own? {
      assert Segments(script)[m] == item.segment;
      SegmentAt(Segments(script), parts, expected, m);
      FinalIsLast(item.segment, m, parts, expected);
    }
  }

  lemma RoundIsRead(script: seq<Item>, parts: seq<seq<Byte>>, expected: nat, env: nat -> Tick, limits: Limits, k: nat)
    requires Mixed(script, parts, expected, env, limits) && 0 < k <= |script|
    ensures ItemRead(env(k - 1), script[k - 1], expected, limits) && ItemStands(script, parts, k)
  {
    hide Segments, IsSegment, IsResponse, WithinLimits, ItemRead, ItemStands, Brings;
    var m := PlaceOfItem(script, parts, expected, k);
    assert Brings(env(k - 1), script[k - 1], expected, limits);
    ItemIsRead(env(k - 1), script[k - 1], expected, limits, m, parts);
  }

  lemma OneMoreReceived(before: seq<seq<Byte>>, packet: seq<Byte>, expected: nat, env: nat -> Tick, limits: Limits)
    requires Received(before, expected, env, limits) && StopAfter(before, expected, env, limits).None?
    requires ClearRound(env(|before|), limits) && |before| < limits.maxReads && Logical(env(|before|).bulk) == Packet(packet)
    ensures Received(before + [packet], expected, env, limits)
  {
    hide Received, StopAfter, BooksOf, Logical;
    ReceivedOneMore(before, packet, expected, env, limits);
  }

  lemma OneMoreTagged(script: seq<Item>, parts: seq<seq<Byte>>, expected: nat, tick: Tick, limits: Limits, k: nat)
    requires 0 < k <= |script| && ItemRead(tick, script[k - 1], expected, limits) && ItemStands(script, parts, k)
    requires Tagged(Packets(script)[..k - 1], expected) == FramesOf(Segments(script[..k - 1]))
    ensures Tagged(Packets(script)[..k], expected) == FramesOf(Segments(script[..k]))
  {
    hide Parse, Logical, Is, Tagged, Segments, ClearRound, PacketOf, FramesOf;
    var all := Packets(script);
    TaggedGrows(all[..k - 1], all[k - 1], expected);
    assert all[..k] == all[..k - 1] + [all[k - 1]];
    if script[k - 1].Own? {
      FramesGrow(Segments(script[..k - 1]), script[k - 1].segment);
    } else {
      assert Segments(script[..k - 1]) + [] == Segments(script[..k - 1]);
    }
  }

  lemma FramesGrow(segments: seq<Segment>, s: Segment)
    ensures FramesOf(segments + [s]) == FramesOf(segments) + [s.frame]
  {
  }

  lemma OneMoreStops(script: seq<Item>, parts: seq<seq<Byte>>, expected: nat, env: nat -> Tick, limits: Limits, k: nat)
    requires 0 < k <= |script| && ItemRead(env(k - 1), script[k - 1], expected, limits) && ItemStands(script, parts, k)
    requires WithinLimits(Packets(script), expected, limits)
    ensures StopAfter(Packets(script)[..k], expected, env, limits) == if k == |script| then Some(Finished) else None
  {
    hide Parse, Logical, Classify, WithinLimits, StopAfter, Segments, PacketOf, PeekMessageSeq, IsDeviceAck;
    NothingToBlame(Packets(script), expected, env, limits, k);
    KindIsSort(Packets(script)[k - 1], expected);
  }

  lemma OneMoreItem(script: seq<Item>, parts: seq<seq<Byte>>, expected: nat, env: nat -> Tick, limits: Limits, k: nat)
    requires Mixed(script, parts, expected, env, limits) && 0 < k <= |script| && ReadTo(script, parts, expected, env, limits, k - 1)
    ensures ReadTo(script, parts, expected, env, limits, k)
  {
    hide Received, StopAfter, Tagged, Segments, Logical, Is, Parse, IsResponse, Brings, CountOf, AcceptedBytes, OthersBytes, PacketOf;
    var all := Packets(script);
    RoundIsRead(script, parts, expected, env, limits, k);
    OneMoreReceived(all[..k - 1], all[k - 1], expected, env, limits);
    assert all[..k] == all[..k - 1] + [all[k - 1]];
    OneMoreTagged(script, parts, expected, env(k - 1), limits, k);
    OneMoreStops(script, parts, expected, env, limits, k);
  }

  lemma TaggedGrows(before: seq<seq<Byte>>, packet: seq<Byte>, expected: nat)
    ensures Tagged(before + [packet], expected)
            == Tagged(before, expected) + (if Parse(packet, expected).Ok? then [Parse(packet, expected).value] else [])
  {
    hide Parse;
    assert (before + [packet])[..|before|] == before;
  }

  lemma FinalIsLast(s: Segment, m: nat, parts: seq<seq<Byte>>, expected: nat)
    requires IsSegment(s, m, parts, expected)
    ensures s.frame.final <==> m == |parts| - 1
  {
  }

  /**
   A response in any parts, each framed, padded and cut in any way, comes back as the original bytes however many
   packets of other requests, whole or damaged, device acks and unknown packets come in between, as long as the
   loop's limits on what it ignores are kept.
   */
  lemma ResponseAmongIntruders(script: seq<Item>, parts: seq<seq<Byte>>, expected: nat, env: nat -> Tick, limits: Limits)
    requires Mixed(script, parts, expected, env, limits)
    ensures Received(Packets(script), expected, env, limits)
    ensures Ending(Packets(script), expected, env, limits) == Some(Ok(Concat(parts)))
  {
    hide Received, Ending, StopAfter, Tagged, Join, Mixed, IsResponse, Segments, Packets, ReadTo, FramesOf;
    OfMixed(script, parts, expected, env, limits);
    ReadsOn(script, parts, expected, env, limits, |script|);
    ReadToTheEnd(script, parts, expected, env, limits);
    FramesJoin(Segments(script), parts, expected);
    FinishedWith(Packets(script), expected, env, limits);
  }

  lemma ReadToTheEnd(script: seq<Item>, parts: seq<seq<Byte>>, expected: nat, env: nat -> Tick, limits: Limits)
    requires script != [] && ReadTo(script, parts, expected, env, limits, |script|)
    ensures Received(Packets(script), expected, env, limits) && Tagged(Packets(script), expected) == FramesOf(Segments(script))
    ensures StopAfter(Packets(script), expected, env, limits) == Some(Finished)
  {
    hide Received, StopAfter, Tagged, Segments;
    assert Packets(script)[..|script|] == Packets(script) && script[..|script|] == script;
  }

  lemma FinishedWith(packets: seq<seq<Byte>>, expected: nat, env: nat -> Tick, limits: Limits)
    requires StopAfter(packets, expected, env, limits) == Some(Finished)
    requires Tagged(packets, expected) != [] && Join(Tagged(packets, expected)).Ok?
    ensures Ending(packets, expected, env, limits) == Some(Ok(Join(Tagged(packets, expected)).value))
  {
    hide StopAfter, BooksOf, Tagged, Join, CountOf, AcceptedBytes;
    BooksTell(packets, expected, env, limits);
  }

  lemma FramesJoin(segments: seq<Segment>, parts: seq<seq<Byte>>, expected: nat)
    requires IsResponse(segments, parts, expected)
    ensures FramesOf(segments) != [] && Join(FramesOf(segments)) == Ok(Concat(parts))
  {
    hide Join, IsSegment;
    var frames := FramesOf(segments);
    forall i | 0 <= i < |frames| ensures frames[i].segmentIndex == i && CarriesPart(frames[i], parts) {
      SegmentAt(segments, parts, expected, i);
      SegmentCarries(segments[i], i, parts, expected);
    }
    JoinOfParts(parts, frames);
  }

  lemma SegmentCarries(s: Segment, i: nat, parts: seq<seq<Byte>>, expected: nat)
    requires IsSegment(s, i, parts, expected)
    ensures s.frame.segmentIndex == i && CarriesPart(s.frame, parts)
  {
  }

  lemma OfMixed(script: seq<Item>, parts: seq<seq<Byte>>, expected: nat, env: nat -> Tick, limits: Limits)
    requires Mixed(script, parts, expected, env, limits)
    ensures script != [] && IsResponse(Segments(script), parts, expected)
  {
  }
}
