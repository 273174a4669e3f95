/**
 Response frames: motu_proxy/parser.py, and the sequence peek of motu_proxy/datastore.py.
 The encoder is the device's side, in the shape of tests/helpers.py.
 */
module Frames {
  import opened Bytes
  import opened Wrappers
  import opened Crc32

  const NREK: seq<Byte> := [0x4E, 0x52, 0x45, 0x4B]
  const PTTH: seq<Byte> := [0x50, 0x54, 0x54, 0x48]

  /** Wrapper, header, CRC, sequence, final flag, index, length and trailer: everything but the payload. */
  const OVERHEAD: nat := 28

  datatype ResponseFrame = ResponseFrame(
    header: seq<Byte>,
    wrapperSeq: Byte,
    wrapperType: Byte,
    wrapperLen: nat,
    messageSeq: nat,
    final: bool,
    segmentIndex: nat,
    payload: seq<Byte>)

  /** One constructor for each `raise ResponseFrameError`. */
  datatype FrameError =
    | ShortFrame | UnexpectedType | InvalidLength | TruncatedFrame | UnexpectedHeader | OtherSequence
    | UnexpectedFinal | PayloadTooLong | UnexpectedTrailerLength | CrcMismatch | TrailerMismatch
    | WrongIndex | EarlyFinal | MissingFinal

  function Parse(packet: seq<Byte>, expected: int): (r: Result<ResponseFrame, FrameError>) {
    if |packet| < 28 then Err(ShortFrame) else
    var wrapperLen := GetU16(packet, 2);
    if packet[1] != 0 then Err(UnexpectedType)
    else if wrapperLen < 28 then Err(InvalidLength)
    else if wrapperLen > |packet| then Err(TruncatedFrame) else
    var logical := packet[..wrapperLen];
    var wrapper := logical[..4];
    var body := logical[4..];
    var header := body[..4];
    if header != NREK && header != PTTH then Err(UnexpectedHeader) else
    var storedCrc := GetU32(body, 4);
    var messageSeq := GetU32(body, 8);
    var finalField := GetU32(body, 12);
    var segmentIndex := GetU16(body, 16);
    var payloadLen := GetU16(body, 18);
    var payloadEnd := 20 + payloadLen;
    var trailerEnd := payloadEnd + 4;
    if messageSeq != expected then Err(OtherSequence)
    else if finalField != 0 && finalField != 1 then Err(UnexpectedFinal)
    else if trailerEnd > |body| then Err(PayloadTooLong)
    else if trailerEnd != |body| then Err(UnexpectedTrailerLength) else
    var payload := body[20..payloadEnd];
    if storedCrc != Crc(payload) then Err(CrcMismatch)
    else if body[payloadEnd..trailerEnd] != wrapper then Err(TrailerMismatch)
    else Ok(ResponseFrame(header, packet[0], packet[1], wrapperLen, messageSeq, finalField == 1, segmentIndex, payload))
  }

  /** A frame whose fields fit the wire. */
  predicate Encodable(f: ResponseFrame) {
    && (f.header == NREK || f.header == PTTH)
    && f.wrapperType == 0
    && f.wrapperLen == OVERHEAD + |f.payload| < U16_LIMIT
    && f.messageSeq < U32_LIMIT
    && f.segmentIndex < U16_LIMIT
  }

  function Wrapper(f: ResponseFrame): (w: seq<Byte>)
    requires Encodable(f)
    ensures |w| == 4
  {
    [f.wrapperSeq, f.wrapperType] + U16(f.wrapperLen)
  }

  /** The bytes between the wrapper and the payload. */
  function Control(f: ResponseFrame): (c: seq<Byte>)
    requires Encodable(f)
    ensures |c| == 20
  {
    f.header + U32(Crc(f.payload)) + U32(f.messageSeq) + U32(if f.final then 1 else 0)
      + U16(f.segmentIndex) + U16(|f.payload|)
  }

  function Encode(f: ResponseFrame): (s: seq<Byte>)
    requires Encodable(f)
    ensures |s| == f.wrapperLen
  {
    Wrapper(f) + Control(f) + f.payload + Wrapper(f)
  }

  lemma ControlFields(f: ResponseFrame, body: seq<Byte>)
    requires Encodable(f) && |body| >= 20 && body[..20] == Control(f)
    ensures body[..4] == f.header
    ensures GetU32(body, 4) == Crc(f.payload)
    ensures GetU32(body, 8) == f.messageSeq
    ensures GetU32(body, 12) == if f.final then 1 else 0
    ensures GetU16(body, 16) == f.segmentIndex
    ensures GetU16(body, 18) == |f.payload|
  {
    hide U16, U32, GetU16, GetU32, Crc;
    var c := Control(f);
    assert forall i :: 0 <= i < 20 ==> body[i] == body[..20][i];
    assert body[..4] == c[..4] == f.header;
    assert body[4..8] == c[4..8] == U32(Crc(f.payload));
    PackThenUnpack32(Crc(f.payload), body, 4);
    assert body[8..12] == c[8..12] == U32(f.messageSeq);
    PackThenUnpack32(f.messageSeq, body, 8);
    assert body[12..16] == c[12..16] == U32(if f.final then 1 else 0);
    PackThenUnpack32(if f.final then 1 else 0, body, 12);
    assert body[16..18] == c[16..18] == U16(f.segmentIndex);
    PackThenUnpack16(f.segmentIndex, body, 16);
    assert body[18..20] == c[18..20] == U16(|f.payload|);
    PackThenUnpack16(|f.payload|, body, 18);
  }

  lemma FieldsControl(f: ResponseFrame, body: seq<Byte>)
    requires Encodable(f) && |body| >= 20
    requires body[..4] == f.header && GetU32(body, 4) == Crc(f.payload) && GetU32(body, 8) == f.messageSeq
    requires GetU32(body, 12) == if f.final then 1 else 0
    requires GetU16(body, 16) == f.segmentIndex && GetU16(body, 18) == |f.payload|
    ensures body[..20] == Control(f)
  {
    hide U16, U32, GetU16, GetU32, Crc;
    UnpackThenPack32(body, 4);
    UnpackThenPack32(body, 8);
    UnpackThenPack32(body, 12);
    UnpackThenPack16(body, 16);
    UnpackThenPack16(body, 18);
    assert body[..20] == body[..4] + body[4..8] + body[8..12] + body[12..16] + body[16..18] + body[18..20];
  }

  /** Whatever the device encodes is parsed back exactly, whatever padding follows it. */
  lemma ParseOfEncode(f: ResponseFrame, padding: seq<Byte>)
    requires Encodable(f)
    ensures Parse(Encode(f) + padding, f.messageSeq) == Ok(f)
  {
    hide U16, U32, GetU16, GetU32, Crc;
    var packet := Encode(f) + padding;
    assert packet[2..4] == U16(f.wrapperLen);
    PackThenUnpack16(f.wrapperLen, packet, 2);
    var logical := packet[..f.wrapperLen];
    assert logical == Encode(f);
    var body := logical[4..];
    assert body == Control(f) + (f.payload + Wrapper(f));
    assert body[..20] == Control(f);
    ControlFields(f, body);
    assert logical[..4] == Wrapper(f);
    assert body[20..20 + |f.payload|] == f.payload;
    assert body[20 + |f.payload|..] == Wrapper(f);
  }

  /** Whatever is accepted is the encoding of what it is parsed to, with padding behind it. */
  lemma EncodeOfParse(packet: seq<Byte>, expected: int)
    requires Parse(packet, expected).Ok?
    ensures var f := Parse(packet, expected).value;
            Encodable(f) && f.messageSeq == expected && f.wrapperLen <= |packet| && Encode(f) == packet[..f.wrapperLen]
  {
    hide U16, U32, GetU16, GetU32, Crc;
    var f := Parse(packet, expected).value;
    var logical := packet[..f.wrapperLen];
    var body := logical[4..];
    var end := 20 + |f.payload|;
    UnpackThenPack16(packet, 2);
    assert logical[..4] == Wrapper(f) by { assert packet[..4] == [packet[0], packet[1]] + packet[2..4]; }
    FieldsControl(f, body);
    assert body[20..] == body[20..end] + body[end..];
    assert body == body[..20] + body[20..];
    assert logical == logical[..4] + body;
  }

  /** The accepted packets are exactly the encodings of that sequence number, padded or not. */
  lemma AcceptedIsEncoded(packet: seq<Byte>, expected: int)
    ensures Parse(packet, expected).Ok? <==>
            exists f: ResponseFrame :: Encodable(f) && f.messageSeq == expected && Encode(f) <= packet
  {
    if Parse(packet, expected).Ok? {
      EncodeOfParse(packet, expected);
    }
    forall f: ResponseFrame | Encodable(f) && f.messageSeq == expected && Encode(f) <= packet
      ensures Parse(packet, expected).Ok?
    {
      ParseOfEncode(f, packet[f.wrapperLen..]);
      assert packet == Encode(f) + packet[f.wrapperLen..];
    }
  }

  /** No packet answers two requests with different sequence numbers. */
  lemma OneSequencePerPacket(packet: seq<Byte>, a: int, b: int)
    requires Parse(packet, a).Ok? && a != b
    ensures Parse(packet, b) == Err(OtherSequence)
  {
    EncodeOfParse(packet, a);
  }

  /** With everything around the payload left alone, the CRC alone decides. */
  lemma PayloadGuardedByCrc(packet: seq<Byte>, corrupted: seq<Byte>, expected: int)
    requires Parse(packet, expected).Ok? && |corrupted| == |packet|
    requires corrupted[..24] == packet[..24]
    requires var end := 24 + |Parse(packet, expected).value.payload|;
             end <= |packet| && Crc(corrupted[24..end]) != Crc(packet[24..end])
    ensures Parse(corrupted, expected) == Err(CrcMismatch)
  {
    hide U16, U32, GetU16, GetU32, Crc;
    var f := Parse(packet, expected).value;
    var n := f.wrapperLen;
    var m := |f.payload|;
    EncodeOfParse(packet, expected);
    FieldsAgree(packet, corrupted, 24);
    assert packet[1] == packet[..24][1] && corrupted[1] == corrupted[..24][1];
    var body, body' := packet[..n][4..], corrupted[..n][4..];
    assert body == packet[4..n] && body' == corrupted[4..n];
    SliceOfSlice(packet, 4, n, 0, 20);
    SliceOfSlice(corrupted, 4, n, 0, 20);
    assert packet[4..24] == packet[..24][4..] && corrupted[4..24] == corrupted[..24][4..];
    FieldsAgree(body, body', 20);
    assert body[..4] == body[..20][..4] && body'[..4] == body'[..20][..4];
    SliceOfSlice(packet, 4, n, 20, 20 + m);
    SliceOfSlice(corrupted, 4, n, 20, 20 + m);
  }

  lemma Spliced(s: seq<Byte>, a: nat, b: nat, burst: seq<Byte>, end: nat)
    requires a <= b && b + |burst| <= end <= |s|
    ensures var t, c := s[..b] + burst + s[b + |burst|..], b + |burst|;
            && s[a..end] == s[a..b] + s[b..c] + s[c..end]
            && t[a..end] == s[a..b] + burst + s[c..end]
            && t[..a] == s[..a] && |t| == |s|
  {
  }

  /** Changing anything inside any four consecutive payload bytes of an accepted packet gets it rejected. */
  lemma CorruptionIsRejected(packet: seq<Byte>, at: nat, burst: seq<Byte>, expected: int)
    requires Parse(packet, expected).Ok?
    requires 24 <= at && at + |burst| <= 24 + |Parse(packet, expected).value.payload| && |burst| <= 4
    requires at + |burst| <= |packet| && burst != packet[at..at + |burst|]
    ensures Parse(packet[..at] + burst + packet[at + |burst|..], expected) == Err(CrcMismatch)
  {
    EncodeOfParse(packet, expected);
    hide Crc, Parse;
    var corrupted := packet[..at] + burst + packet[at + |burst|..];
    var end := 24 + |Parse(packet, expected).value.payload|;
    var pre, was, post := packet[24..at], packet[at..at + |burst|], packet[at + |burst|..end];
    Spliced(packet, 24, at, burst, end);
    BurstIsDetected(pre, was, burst, post);
    PayloadGuardedByCrc(packet, corrupted, expected);
  }

  predicate IsDeviceAck(packet: seq<Byte>) {
    |packet| == 8 && packet[..4] == packet[4..] && packet[1] == 0 && packet[2..4] == [8, 0]
  }

  /** `_response_message_seq` of motu_proxy/datastore.py. */
  function PeekMessageSeq(packet: seq<Byte>): (r: Option<nat>) {
    if |packet| < 16 then None else
    var wrapperLen := GetU16(packet, 2);
    if wrapperLen < 16 || wrapperLen > |packet| then None else
    var body := packet[4..wrapperLen];
    if body[..4] != NREK && body[..4] != PTTH then None else Some(GetU32(body, 8))
  }

  /** The peek and the parser agree: a packet is accepted for at most the sequence number peeked. */
  lemma PeekAgreesWithParse(packet: seq<Byte>, expected: int)
    requires Parse(packet, expected).Ok?
    ensures PeekMessageSeq(packet) == Some(expected)
    ensures !IsDeviceAck(packet)
  {
    var n := GetU16(packet, 2);
    assert packet[..n][4..] == packet[4..n];
  }

  /** A device ack is an empty wrapper of its own length, sent twice. */
  lemma DeviceAckExactly(packet: seq<Byte>)
    ensures IsDeviceAck(packet) <==> exists w: Byte :: packet == [w, 0, 8, 0] + [w, 0, 8, 0]
  {
    if IsDeviceAck(packet) {
      var w := packet[0];
      assert packet == packet[..4] + packet[4..] && packet[..4] == [packet[0], packet[1]] + packet[2..4];
      assert packet == [w, 0, 8, 0] + [w, 0, 8, 0];
    }
  }

  /** What is peeked, and when: the four bytes at 12 of anything with a response header whose announced length covers them. */
  lemma PeekExactly(packet: seq<Byte>, v: nat)
    ensures PeekMessageSeq(packet) == Some(v) <==>
            && |packet| >= 16 && 16 <= GetU16(packet, 2) <= |packet|
            && (packet[4..8] == NREK || packet[4..8] == PTTH) && GetU32(packet, 12) == v
  {
    if |packet| >= 16 && 16 <= GetU16(packet, 2) <= |packet| {
      var body := packet[4..GetU16(packet, 2)];
      assert body[..4] == packet[4..8];
      assert forall i :: 8 <= i < 12 ==> body[i] == packet[i + 4];
    }
  }

  /** Damage to a frame anywhere but in its length, header and sequence fields leaves it known whose it is. */
  lemma PeekSurvivesDamage(f: ResponseFrame, damaged: seq<Byte>)
    requires Encodable(f) && |damaged| >= f.wrapperLen
    requires damaged[2..8] == Encode(f)[2..8] && damaged[12..16] == Encode(f)[12..16]
    ensures PeekMessageSeq(damaged) == Some(f.messageSeq)
  {
    hide U16, U32, GetU16, GetU32, Crc;
    var e, n := Encode(f), f.wrapperLen;
    assert e[2..4] == U16(n) && e[4..8] == f.header && e[12..16] == U32(f.messageSeq);
    assert damaged[2..4] == damaged[2..8][..2] == e[2..8][..2] == e[2..4];
    assert damaged[4..8] == damaged[2..8][2..] == e[2..8][2..] == e[4..8];
    PackThenUnpack16(n, damaged, 2);
    var body := damaged[4..n];
    assert body[..4] == damaged[4..8] && body[8..12] == damaged[12..16];
    PackThenUnpack32(f.messageSeq, body, 8);
  }

  // ----- Joining segments

  function Payloads(frames: seq<ResponseFrame>): (p: seq<seq<Byte>>)
    ensures |p| == |frames| && forall i :: 0 <= i < |frames| ==> p[i] == frames[i].payload
  {
    seq(|frames|, i requires 0 <= i < |frames| => frames[i].payload)
  }

  /** Numbered from zero without a gap, with the final flag on the last segment and no other. */
  predicate WellSegmented(frames: seq<ResponseFrame>) {
    forall i :: 0 <= i < |frames| ==> InPlace(frames, i)
  }

  predicate InPlace(frames: seq<ResponseFrame>, i: nat)
    requires i < |frames|
  {
    frames[i].segmentIndex == i && (frames[i].final <==> i == |frames| - 1)
  }

  function Fault(frames: seq<ResponseFrame>, i: nat): (e: Option<FrameError>)
    requires i < |frames|
    ensures e.None? <==> InPlace(frames, i)
  {
    if frames[i].segmentIndex != i then Some(WrongIndex)
    else if frames[i].final && i != |frames| - 1 then Some(EarlyFinal)
    else if !frames[i].final && i == |frames| - 1 then Some(MissingFinal)
    else None
  }

  /** The error of the first segment out of place, looking from `i` on. */
  function FirstFault(frames: seq<ResponseFrame>, i: nat): (e: Option<FrameError>)
    requires i <= |frames|
    ensures e.None? <==> forall j :: i <= j < |frames| ==> InPlace(frames, j)
    decreases |frames| - i
  {
    if i == |frames| then None
    else if Fault(frames, i).Some? then Fault(frames, i)
    else FirstFault(frames, i + 1)
  }

  function Join(frames: seq<ResponseFrame>): (r: Result<seq<Byte>, FrameError>)
    ensures r.Ok? <==> WellSegmented(frames)
  {
    var fault := FirstFault(frames, 0);
    if fault.Some? then Err(fault.value) else Ok(Concat(Payloads(frames)))
  }

  /** `join_parsed_response_frames` */
  method JoinParsedFrames(frames: seq<ResponseFrame>) returns (r: Result<seq<Byte>, FrameError>)
    ensures r == Join(frames)
  {
    if frames == [] {
      return Ok([]);
    }
    var joined: seq<Byte> := [];
    var i := 0;
    while i < |frames|
      invariant 0 <= i <= |frames|
      invariant joined == Concat(Payloads(frames)[..i])
      invariant FirstFault(frames, 0) == FirstFault(frames, i)
    {
      if frames[i].segmentIndex != i {
        return Err(WrongIndex);
      }
      if frames[i].final && i != |frames| - 1 {
        return Err(EarlyFinal);
      }
      if !frames[i].final && i == |frames| - 1 {
        return Err(MissingFinal);
      }
      assert Payloads(frames)[..i + 1] == Payloads(frames)[..i] + [frames[i].payload];
      ConcatAppend(Payloads(frames)[..i], frames[i].payload);
      joined := joined + frames[i].payload;
      i := i + 1;
    }
    assert Payloads(frames)[..i] == Payloads(frames);
    return Ok(joined);
  }

  /** A frame that carries one of the parts a response was cut into. */
  predicate CarriesPart(f: ResponseFrame, parts: seq<seq<Byte>>) {
    f.segmentIndex < |parts| && f.payload == parts[f.segmentIndex] && (f.final <==> f.segmentIndex == |parts| - 1)
  }

  /**
   Any non-empty list of frames of one response, in any order and with any repetition, joins if and only
   if it is the whole response in order, and then gives it back: a dropped, doubled or moved segment is
   always noticed.
   */
  lemma JoinOfParts(parts: seq<seq<Byte>>, frames: seq<ResponseFrame>)
    requires frames != [] && forall i :: 0 <= i < |frames| ==> CarriesPart(frames[i], parts)
    ensures Join(frames).Ok? <==> |frames| == |parts| && forall i :: 0 <= i < |frames| ==> frames[i].segmentIndex == i
    ensures Join(frames).Ok? ==> Join(frames).value == Concat(parts)
  {
    hide Concat, FirstFault;
    var inOrder := |frames| == |parts| && forall i :: 0 <= i < |frames| ==> frames[i].segmentIndex == i;
    if WellSegmented(frames) {
      assert InPlace(frames, |frames| - 1) && CarriesPart(frames[|frames| - 1], parts);
      forall i | 0 <= i < |frames| ensures frames[i].segmentIndex == i && Payloads(frames)[i] == parts[i] {
        assert InPlace(frames, i) && CarriesPart(frames[i], parts);
      }
      assert inOrder && Payloads(frames) == parts;
    }
    forall i | 0 <= i < |frames| && inOrder ensures InPlace(frames, i) {
      assert CarriesPart(frames[i], parts);
    }
  }
}
