/**
 The books of a request, by what the parser and the sequence peek make of the packets alone: what a success
 has counted and written, and what every failure was for (`_collect_response` of motu_proxy/datastore.py).
 */
module Accounting {
  import opened Bytes
  import opened Wrappers
  import opened Frames
  import opened Requests
  import opened Receive

  function CountOf(packets: seq<seq<Byte>>, expected: nat, sort: Sort): (n: nat) {
    if packets == [] then 0 else
    var last := |packets| - 1;
    CountOf(packets[..last], expected, sort) + (if Is(packets[last], expected, sort) then 1 else 0)
  }

  /** How many bytes there are of frames that name other requests. */
  function OthersBytes(packets: seq<seq<Byte>>, expected: nat): (n: nat) {
    if packets == [] then 0 else
    var last := |packets| - 1;
    OthersBytes(packets[..last], expected) + (if Is(packets[last], expected, Others) then |packets[last]| else 0)
  }

  /** Every packet is of exactly one kind. */
  lemma {:induction false} CountsAddUp(packets: seq<seq<Byte>>, expected: nat)
    ensures |packets| == Count(packets, expected, QuietReads) + Count(packets, expected, DeviceAcks)
              + Count(packets, expected, Ignored) + Count(packets, expected, AcceptedOnes) + Count(packets, expected, FatalOnes)
    ensures Count(packets, expected, Answered) == Count(packets, expected, AcceptedOnes) + Count(packets, expected, StaleOnes)
    ensures |AcceptedFrames(packets, expected)| == Count(packets, expected, AcceptedOnes)
  {
    hide Classify;
    if packets != [] { CountsAddUp(packets[..|packets| - 1], expected); }
  }

  /** While the loop goes on, no frame of this request has been damaged and none was the final one. */
  lemma {:induction false} SoFarSoGood(packets: seq<seq<Byte>>, expected: nat, env: nat -> Tick, limits: Limits)
    requires Received(packets, expected, env, limits) && StopAfter(packets, expected, env, limits).None?
    ensures Count(packets, expected, FatalOnes) == 0
    ensures NoneFinal(BooksOf(packets, expected, env, limits).frames)
  {
    hide Classify, StopBefore, Logical;
    if packets != [] { SoFarSoGood(packets[..|packets| - 1], expected, env, limits); }
  }

  ghost predicate NoneFinal(frames: seq<ResponseFrame>) {
    forall i :: 0 <= i < |frames| ==> !frames[i].final
  }

  lemma {:induction false} ResponseBytes(packets: seq<seq<Byte>>, expected: nat)
    ensures var frames := AcceptedFrames(packets, expected);
            |Concat(Payloads(frames))| + OVERHEAD * |frames| <= AcceptedBytes(packets, expected)
  {
    hide Classify, Parse;
    if packets != [] {
      var last := |packets| - 1;
      var before, frames := AcceptedFrames(packets[..last], expected), AcceptedFrames(packets, expected);
      ResponseBytes(packets[..last], expected);
      AcceptedMeansTagged(packets[last], expected);
      if Parse(packets[last], expected).Ok? {
        var f := Parse(packets[last], expected).value;
        EncodeOfParse(packets[last], expected);
        assert Payloads(frames) == Payloads(before) + [f.payload];
        ConcatAppend(Payloads(before), f.payload);
      } else {
        assert frames == before;
      }
    }
  }

  /** Success means that the last packet was the final segment; two quiet reads never end in success. */
  lemma SuccessOnFinal(packets: seq<seq<Byte>>, expected: nat, env: nat -> Tick, limits: Limits, response: seq<Byte>)
    requires Received(packets, expected, env, limits) && Ending(packets, expected, env, limits) == Some(Ok(response))
    ensures packets != [] && Classify(packets[|packets| - 1], expected).Accepted?
    ensures Count(packets, expected, FatalOnes) == 0
  {
    hide Classify, StopBefore, Logical, Join;
    SoFarSoGood(packets[..|packets| - 1], expected, env, limits);
    var frames := BooksOf(packets, expected, env, limits).frames;
    assert InPlace(frames, |frames| - 1);
    assert !NoneFinal(frames);
  }

  /** The loop's own counts are counts by sort, and every packet is of one sort. */
  lemma {:induction false} CountsBySort(packets: seq<seq<Byte>>, expected: nat)
    ensures Count(packets, expected, QuietReads) == CountOf(packets, expected, NoPacket)
    ensures Count(packets, expected, DeviceAcks) == CountOf(packets, expected, AckPacket)
    ensures Count(packets, expected, AcceptedOnes) == CountOf(packets, expected, Mine)
    ensures Count(packets, expected, FatalOnes) == CountOf(packets, expected, Damaged)
    ensures Count(packets, expected, StaleOnes) == CountOf(packets, expected, Others)
    ensures Count(packets, expected, Ignored) == CountOf(packets, expected, Others) + CountOf(packets, expected, Unknown)
  {
    hide Classify, Is;
    if packets != [] {
      CountsBySort(packets[..|packets| - 1], expected);
      KindIsSort(packets[|packets| - 1], expected);
    }
  }

  /**
   The books of a successful request: every read and every acknowledgement accounted for, every limit kept.
   */
  lemma SuccessAccounting(packets: seq<seq<Byte>>, expected: nat, env: nat -> Tick, limits: Limits, response: seq<Byte>)
    requires Received(packets, expected, env, limits) && Ending(packets, expected, env, limits) == Some(Ok(response))
    ensures var b := BooksOf(packets, expected, env, limits);
            var s := StatsOf(|packets|, b);
            && s.rounds == CountOf(packets, expected, NoPacket) + s.acks + s.ignored + s.accepted
            && s.acks == CountOf(packets, expected, AckPacket)
            && s.ignored == CountOf(packets, expected, Others) + CountOf(packets, expected, Unknown)
            && s.accepted == CountOf(packets, expected, Mine) == |Tagged(packets, expected)|
            && CountOf(packets, expected, Damaged) == 0
            && AcksFor(b, Ok(response)) == CountOf(packets, expected, Mine) + CountOf(packets, expected, Others)
            && |response| + OVERHEAD * s.accepted <= s.bytes <= limits.maxBytes
            && 0 < s.accepted <= limits.maxFrames
            && s.rounds <= limits.maxReads
  {
    hide Classify, Logical, Count, CountOf, AcceptedFrames, AcceptedBytes, Tagged;
    BooksAreRight(packets, expected, env, limits);
    CountsAddUp(packets, expected);
    CountsBySort(packets, expected);
    AcceptedIsTagged(packets, expected);
    ResponseBytes(packets, expected);
    SuccessOnFinal(packets, expected, env, limits, response);
  }

  // ----- Failures

  /** A stale response under way is made of frames that name other requests. */
  lemma {:induction false} StaleIsOthers(packets: seq<seq<Byte>>, expected: nat, env: nat -> Tick, limits: Limits)
    ensures var b := BooksOf(packets, expected, env, limits);
            b.stale.frames <= CountOf(packets, expected, Others) && b.stale.bytes <= OthersBytes(packets, expected)
  {
    hide Classify, Is;
    if packets != [] {
      StaleIsOthers(packets[..|packets| - 1], expected, env, limits);
      KindIsSort(packets[|packets| - 1], expected);
    }
  }

  /** How many quiet reads there were since anything came in; an empty slice before the deadline is none. */
  function QuietRun(packets: seq<seq<Byte>>, env: nat -> Tick, limits: Limits): (n: nat) {
    if packets == [] then 0 else
    var last := |packets| - 1;
    if packets[last] != [] then 0
    else QuietRun(packets[..last], env, limits) + (if limits.sliced && env(last).later < limits.deadline then 0 else 1)
  }

  lemma {:induction false} QuietIsTrailing(packets: seq<seq<Byte>>, expected: nat, env: nat -> Tick, limits: Limits)
    ensures BooksOf(packets, expected, env, limits).quiet == QuietRun(packets, env, limits)
  {
    hide Classify, Is;
    if packets != [] {
      QuietIsTrailing(packets[..|packets| - 1], expected, env, limits);
      KindIsSort(packets[|packets| - 1], expected);
      assert Is(packets[|packets| - 1], expected, NoPacket) <==> packets[|packets| - 1] == [] by { NoPacketIsEmpty(packets[|packets| - 1], expected); }
    }
  }

  lemma NoPacketIsEmpty(packet: seq<Byte>, expected: nat)
    ensures Is(packet, expected, NoPacket) <==> packet == []
  {
  }

  /** The packet is a whole frame of request `q`, another one than this. */
  predicate WholeOf(packet: seq<Byte>, expected: nat, q: nat) { q != expected && Parse(packet, q).Ok? }

  /** How many whole frames of request `q` have come in since its last final one, with no whole frame of a third request between; and their bytes. */
  function StaleSoFar(packets: seq<seq<Byte>>, expected: nat, q: nat): (r: (nat, nat)) {
    if packets == [] then (0, 0) else
    var p, before := packets[|packets| - 1], StaleSoFar(packets[..|packets| - 1], expected, q);
    var o := PeekMessageSeq(p);
    if o.None? || !WholeOf(p, expected, o.value) then before
    else if o.value != q || Parse(p, q).value.final then (0, 0)
    else (before.0 + 1, before.1 + |p|)
  }

  lemma StaleMeansWhole(packet: seq<Byte>, expected: nat)
    ensures var k, o := Classify(packet, expected), PeekMessageSeq(packet);
            && (k.Stale? <==> o.Some? && WholeOf(packet, expected, o.value))
            && (k.Stale? ==> k.seqNo == o.value && k.final == Parse(packet, o.value).value.final)
  {
    PeekMeans(packet, expected);
    hide Parse, PeekMessageSeq, IsDeviceAck, NamesResponse;
  }

  /** A stale response under way is booked as that. */
  lemma {:induction false} StaleIsBooked(packets: seq<seq<Byte>>, expected: nat, env: nat -> Tick, limits: Limits, q: nat)
    ensures var run := BooksOf(packets, expected, env, limits).stale;
            StaleSoFar(packets, expected, q) == if run.seqNo == Some(q) then (run.frames, run.bytes) else (0, 0)
  {
    hide Classify, Parse, PeekMessageSeq, WholeOf;
    if packets != [] {
      StaleIsBooked(packets[..|packets| - 1], expected, env, limits, q);
      StaleMeansWhole(packets[|packets| - 1], expected);
    }
  }

  /** What each failure of the loop means, in terms of what was read and of the environment. */
  ghost predicate Justified(packets: seq<seq<Byte>>, expected: nat, env: nat -> Tick, limits: Limits, f: Failure) {
    var n, last := |packets|, |packets| - 1;
    match f
    case Cancelled => env(n).cancel || Logical(env(n).bulk) == ReadCancelled
    case ReadLimit => n >= limits.maxReads
    case TimedOut => env(n).now >= limits.deadline && Tagged(packets, expected) != []
    case NoResponse => Tagged(packets, expected) == [] && (env(n).now >= limits.deadline || QuietRun(packets, env, limits) >= 2)
    case IgnoredLimit => CountOf(packets, expected, Others) + CountOf(packets, expected, Unknown) > limits.maxIgnored
    case StaleFrameLimit => n > 0 && exists q :: WholeOf(packets[last], expected, q) && StaleSoFar(packets[..last], expected, q).0 + 1 > limits.maxFrames
    case StaleByteLimit => n > 0 && exists q :: WholeOf(packets[last], expected, q) && StaleSoFar(packets[..last], expected, q).1 + |packets[last]| > limits.maxBytes
    case FrameLimit => CountOf(packets, expected, Mine) > limits.maxFrames
    case ByteLimit => AcceptedBytes(packets, expected) > limits.maxBytes
    case BadFrame(e) =>
      || (n > 0 && Is(packets[last], expected, Damaged) && Parse(packets[last], expected) == Err(e))
      || Join(Tagged(packets, expected)) == Err(e)
    case ShortRead => Logical(env(n).bulk) == ShortUsbFrame
    case ReadRaised => Logical(env(n).bulk) == ReadError
    case ShortUsbWrite => n > 0 && env(last).write.Wrote? && env(last).write.count != 4
    case WriteRaised => n > 0 && env(last).write == WriteError
    case BadRequest(_) => false
  }

  /** What the books say, by sort. */
  ghost predicate Told(packets: seq<seq<Byte>>, expected: nat, b: Books) {
    && b.frames == Tagged(packets, expected) && |b.frames| == CountOf(packets, expected, Mine) && b.bytes == AcceptedBytes(packets, expected)
    && b.ignored == CountOf(packets, expected, Others) + CountOf(packets, expected, Unknown)
  }

  lemma BooksTell(packets: seq<seq<Byte>>, expected: nat, env: nat -> Tick, limits: Limits)
    ensures Told(packets, expected, BooksOf(packets, expected, env, limits))
  {
    hide Classify, Is, Count, CountOf, BooksOf, AcceptedFrames, AcceptedBytes, Tagged;
    BooksAreRight(packets, expected, env, limits);
    AcceptedIsTagged(packets, expected);
    CountsAddUp(packets, expected);
    CountsBySort(packets, expected);
  }

  /** What the last packet has to do with a failure that it causes. */
  ghost predicate Blamed(before: Books, b: Books, k: Kind, size: nat, tick: Tick, limits: Limits, f: Failure) {
    || (f == StaleFrameLimit && k.Stale? && Extend(before.stale, k.seqNo, size).frames > limits.maxFrames)
    || (f == StaleByteLimit && k.Stale? && Extend(before.stale, k.seqNo, size).bytes > limits.maxBytes)
    || (f == IgnoredLimit && b.ignored > limits.maxIgnored)
    || (f == FrameLimit && |b.frames| > limits.maxFrames)
    || (f == ByteLimit && b.bytes > limits.maxBytes)
    || (k.Fatal? && f == BadFrame(k.error))
    || (f == WriteRaised && tick.write == WriteError)
    || (f == ShortUsbWrite && tick.write.Wrote? && tick.write.count != 4)
  }

  lemma StopIsBlamed(before: Books, k: Kind, size: nat, tick: Tick, limits: Limits, f: Failure)
    requires StopOn(before, k, size, tick, limits) == Some(Fail(f))
    ensures Blamed(before, Enter(before, k, size, EmptySlice(tick, limits)), k, size, tick, limits, f)
  {
    match k
    case Stale(_, _) =>
    case StaleBroken =>
    case Accepted(_) =>
    case _ =>
  }

  /** What is known of the last packet: how it was booked, and what it is by sort. */
  ghost predicate LastIs(packets: seq<seq<Byte>>, expected: nat, env: nat -> Tick, limits: Limits, before: Books, b: Books, k: Kind)
    requires packets != []
  {
    var last, p, o := |packets| - 1, packets[|packets| - 1], PeekMessageSeq(packets[|packets| - 1]);
    && b == Enter(before, k, |p|, EmptySlice(env(last), limits)) && Told(packets, expected, b)
    && StopAfter(packets, expected, env, limits) == StopOn(before, k, |p|, env(last), limits)
    && b.quiet == QuietRun(packets, env, limits)
    && (k.Quiet? <==> p == []) && (k.Accepted? <==> Is(p, expected, Mine)) && (k.Fatal? <==> Is(p, expected, Damaged)) && (k.Junk? <==> Is(p, expected, Unknown))
    && (k.Stale? || k.StaleBroken? <==> Is(p, expected, Others)) && (Is(p, expected, Others) ==> o.Some?)
    && (k.Accepted? ==> Parse(p, expected) == Ok(k.frame)) && (k.Fatal? ==> Parse(p, expected) == Err(k.error))
    && (k.Stale? <==> o.Some? && WholeOf(p, expected, o.value))
    && (k.Stale? ==> k.seqNo == o.value && Extend(before.stale, k.seqNo, |p|) == StaleRun(Some(k.seqNo),
                       StaleSoFar(packets[..last], expected, k.seqNo).0 + 1, StaleSoFar(packets[..last], expected, k.seqNo).1 + |p|))
  }

  lemma LastOf(packets: seq<seq<Byte>>, expected: nat, env: nat -> Tick, limits: Limits) returns (before: Books, b: Books, k: Kind)
    requires packets != []
    ensures LastIs(packets, expected, env, limits, before, b, k)
  {
    var last := |packets| - 1;
    before, b, k := BooksOf(packets[..last], expected, env, limits), BooksOf(packets, expected, env, limits), Classify(packets[last], expected);
    assert b == Enter(before, k, |packets[last]|, EmptySlice(env(last), limits));
    assert StopAfter(packets, expected, env, limits) == StopOn(before, k, |packets[last]|, env(last), limits);
    hide BooksOf, Classify, Enter, StopOn, StopAfter, CountOf, AcceptedBytes, Tagged, StaleSoFar, QuietRun, EmptySlice, Parse, PeekMessageSeq, IsDeviceAck;
    BooksTell(packets, expected, env, limits);
    QuietIsTrailing(packets, expected, env, limits);
    KindIsSort(packets[last], expected);
    StaleMeansWhole(packets[last], expected);
    if k.Stale? { StaleIsBooked(packets[..last], expected, env, limits, k.seqNo); }
  }

  lemma LastPacketFails(packets: seq<seq<Byte>>, expected: nat, env: nat -> Tick, limits: Limits, f: Failure)
    requires packets != [] && StopAfter(packets, expected, env, limits) == Some(Fail(f))
    ensures Justified(packets, expected, env, limits, f)
  {
    hide BooksOf, Classify, Enter, StopOn, StopAfter, CountOf, AcceptedBytes, OthersBytes, Tagged, StaleSoFar, QuietRun, EmptySlice, Parse,
         PeekMessageSeq, Is, WholeOf, Extend, Logical, Join;
    var before, b, k := LastOf(packets, expected, env, limits);
    StopIsBlamed(before, k, |packets[|packets| - 1]|, env(|packets| - 1), limits, f);
  }

  lemma EndsBefore(packets: seq<seq<Byte>>, expected: nat, env: nat -> Tick, limits: Limits, f: Failure)
    requires StopBefore(|packets|, BooksOf(packets, expected, env, limits), env(|packets|), limits) == Some(f)
    ensures Justified(packets, expected, env, limits, f)
  {
    BooksTell(packets, expected, env, limits);
    hide Logical, Is, CountOf, OthersBytes, AcceptedBytes, Tagged, BooksOf, Join, Parse, QuietRun, StaleSoFar, WholeOf;
  }

  lemma EndsFinished(packets: seq<seq<Byte>>, expected: nat, env: nat -> Tick, limits: Limits, f: Failure)
    requires StopAfter(packets, expected, env, limits) == Some(Finished)
    requires Answer(BooksOf(packets, expected, env, limits).frames) == Err(f)
    ensures Justified(packets, expected, env, limits, f)
  {
    BooksTell(packets, expected, env, limits);
    FinishedOn(packets, expected, env, limits);
    QuietIsTrailing(packets, expected, env, limits);
    hide Logical, Is, CountOf, OthersBytes, AcceptedBytes, Tagged, BooksOf, Join, Parse, StopAfter, QuietRun, StaleSoFar, WholeOf;
  }

  /** No request fails without a reason of its own. */
  lemma FailureHasItsReason(packets: seq<seq<Byte>>, expected: nat, env: nat -> Tick, limits: Limits, f: Failure)
    requires Received(packets, expected, env, limits) && Ending(packets, expected, env, limits) == Some(Err(f))
    ensures Justified(packets, expected, env, limits, f)
  {
    hide Justified, Received, BooksOf, StopBefore, Answer;
    var stop := StopAfter(packets, expected, env, limits);
    assert stop.Some? ==> packets != [];
    hide StopAfter;
    if stop.None? {
      EndsBefore(packets, expected, env, limits, f);
    } else if stop.value.Fail? {
      LastPacketFails(packets, expected, env, limits, f);
    } else {
      EndsFinished(packets, expected, env, limits, f);
    }
  }

  /** The loop finishes on a frame of this request, or on a second quiet read. */
  lemma FinishedOn(packets: seq<seq<Byte>>, expected: nat, env: nat -> Tick, limits: Limits)
    requires StopAfter(packets, expected, env, limits) == Some(Finished)
    ensures packets != [] && (BooksOf(packets, expected, env, limits).quiet >= 2 || BooksOf(packets, expected, env, limits).frames != [])
  {
    var last := |packets| - 1;
    KindIsSort(packets[last], expected);
    hide Classify, Is;
  }

  // ----- And no request goes on without one

  /** The last packet left every limit that it is held against kept, and its acknowledgement went out; the loop finishes on the final frame or on a second quiet read. */
  ghost predicate GoesOn(packets: seq<seq<Byte>>, expected: nat, env: nat -> Tick, limits: Limits, finished: bool)
    requires packets != []
  {
    var last := |packets| - 1;
    var p, o := packets[last], PeekMessageSeq(packets[last]);
    && !Is(p, expected, Damaged)
    && (Is(p, expected, Mine) || Is(p, expected, Others) ==> env(last).write == Wrote(4))
    && (Is(p, expected, Mine) ==> CountOf(packets, expected, Mine) <= limits.maxFrames && AcceptedBytes(packets, expected) <= limits.maxBytes)
    && (Is(p, expected, Others) && WholeOf(p, expected, o.value) ==>
          && StaleSoFar(packets[..last], expected, o.value).0 + 1 <= limits.maxFrames
          && StaleSoFar(packets[..last], expected, o.value).1 + |p| <= limits.maxBytes)
    && (Is(p, expected, Unknown) || (Is(p, expected, Others) && !WholeOf(p, expected, o.value)) ==>
          CountOf(packets, expected, Others) + CountOf(packets, expected, Unknown) <= limits.maxIgnored)
    && (finished <==> (Is(p, expected, Mine) && Parse(p, expected).value.final) || QuietRun(packets, env, limits) >= 2)
  }

  lemma GoesOnForAReason(packets: seq<seq<Byte>>, expected: nat, env: nat -> Tick, limits: Limits)
    requires packets != []
    ensures var stop := StopAfter(packets, expected, env, limits);
            stop.None? || stop == Some(Finished) ==> GoesOn(packets, expected, env, limits, stop.Some?)
  {
    hide BooksOf, Classify, Enter, StopOn, StopAfter, CountOf, AcceptedBytes, OthersBytes, Tagged, StaleSoFar, QuietRun, EmptySlice, Parse,
         PeekMessageSeq, Is, WholeOf, Extend, Logical, Join;
    var before, b, k := LastOf(packets, expected, env, limits);
    var stop, last := StopAfter(packets, expected, env, limits), |packets| - 1;
    if stop.None? || stop == Some(Finished) {
      NotStopped(before, k, |packets[last]|, env(last), limits);
    }
  }

  lemma NotStopped(before: Books, k: Kind, size: nat, tick: Tick, limits: Limits)
    requires var stop := StopOn(before, k, size, tick, limits); stop.None? || stop == Some(Finished)
    ensures var b, stop := Enter(before, k, size, EmptySlice(tick, limits)), StopOn(before, k, size, tick, limits);
            && !k.Fatal?
            && (k.Accepted? || k.Stale? || k.StaleBroken? ==> tick.write == Wrote(4))
            && (k.Accepted? ==> |b.frames| <= limits.maxFrames && b.bytes <= limits.maxBytes)
            && (k.Stale? ==> var run := Extend(before.stale, k.seqNo, size); run.frames <= limits.maxFrames && run.bytes <= limits.maxBytes)
            && (k.Junk? || k.StaleBroken? ==> b.ignored <= limits.maxIgnored)
            && (stop.Some? <==> (k.Accepted? && k.frame.final) || (k.Quiet? && b.quiet >= 2))
            && (!k.Quiet? ==> b.quiet == 0)
  {
  }

  /** When the loop ends before the next packet, and how: a cancel comes first, then the read limit, then the deadline, then what the read makes of it. */
  lemma EndsBeforeExactly(packets: seq<seq<Byte>>, expected: nat, env: nat -> Tick, limits: Limits)
    requires StopAfter(packets, expected, env, limits).None?
    ensures var n, tick := |packets|, env(|packets|);
            var read := Logical(tick.bulk);
            Ending(packets, expected, env, limits) ==
            if tick.cancel then Some(Err(Cancelled))
            else if n >= limits.maxReads then Some(Err(ReadLimit))
            else if tick.now >= limits.deadline then Some(Err(if Tagged(packets, expected) == [] then NoResponse else TimedOut))
            else if read == ReadCancelled then Some(Err(Cancelled))
            else if read == ShortUsbFrame then Some(Err(ShortRead))
            else if read == ReadError then Some(Err(ReadRaised))
            else None
  {
    BooksTell(packets, expected, env, limits);
    hide Logical, StopAfter, BooksOf, Tagged, CountOf, AcceptedBytes;
  }

  /** The books before and after the last packet. */
  lemma LastPacket(packets: seq<seq<Byte>>, expected: nat, env: nat -> Tick, limits: Limits)
    requires packets != []
    ensures var last := |packets| - 1;
            var before, b, k := BooksOf(packets[..last], expected, env, limits), BooksOf(packets, expected, env, limits), Classify(packets[last], expected);
            && (k.Accepted? ==> |b.frames| == |before.frames| + 1 && b.bytes == before.bytes + |packets[last]|)
            && (k.StaleBroken? || k.Junk? ==> b.ignored == before.ignored + 1)
            && (k.Stale? && !k.final ==> b.stale == Extend(before.stale, k.seqNo, |packets[last]|))
            && (k.Stale? ==> Extend(before.stale, k.seqNo, |packets[last]|).frames <= CountOf(packets, expected, Others)
                             && Extend(before.stale, k.seqNo, |packets[last]|).bytes <= OthersBytes(packets, expected))
  {
    var last := |packets| - 1;
    StaleIsOthers(packets[..last], expected, env, limits);
    KindIsSort(packets[last], expected);
    hide Classify, Is;
  }
}
