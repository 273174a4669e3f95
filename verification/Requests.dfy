/**
 Request frames and host sequence numbers: motu_proxy/protocol.py.  Text is taken as its UTF-8 bytes.
 A decoder for the device's side is the partner of the builders.
 */
module Requests {
  import opened Bytes
  import opened Wrappers
  import Crc32

  const HOST_SEQ_MIN: nat := 0x20
  const HOST_SEQ_COUNT: nat := 0x20
  const MAX_U16: nat := 0xFFFF

  const GET: seq<Byte> := [0x47, 0x45, 0x54]
  const POST: seq<Byte> := [0x50, 0x4F, 0x53, 0x54]
  const CLIENT: seq<Byte> := [0x63, 0x6C, 0x69, 0x65, 0x6E, 0x74]
  const JSON: seq<Byte> := [0x6A, 0x73, 0x6F, 0x6E]
  /** If-None-Match */
  const IF_NONE_MATCH: seq<Byte> := [0x49, 0x66, 0x2D, 0x4E, 0x6F, 0x6E, 0x65, 0x2D, 0x4D, 0x61, 0x74, 0x63, 0x68]
  /** Unsecure-Auth-MOTU */
  const AUTH_NAME: seq<Byte> :=
    [0x55, 0x6E, 0x73, 0x65, 0x63, 0x75, 0x72, 0x65, 0x2D, 0x41, 0x75, 0x74, 0x68, 0x2D, 0x4D, 0x4F, 0x54, 0x55]
  /** unicorn666 */
  const AUTH_VALUE: seq<Byte> := [0x75, 0x6E, 0x69, 0x63, 0x6F, 0x72, 0x6E, 0x36, 0x36, 0x36]

  // ----- Host sequence numbers

  predicate IsHostSeq(s: int) { HOST_SEQ_MIN <= s < HOST_SEQ_MIN + HOST_SEQ_COUNT }

  function NextHostSeq(s: int): (r: nat)
    ensures IsHostSeq(r)
  {
    (s + 1 - HOST_SEQ_MIN) % HOST_SEQ_COUNT + HOST_SEQ_MIN
  }

  /** The `k`-th sequence number after `s`, by counting. */
  function HostSeqAfter(s: nat, k: nat): (r: nat)
    requires IsHostSeq(s)
    ensures IsHostSeq(r)
  {
    (s - HOST_SEQ_MIN + k) % HOST_SEQ_COUNT + HOST_SEQ_MIN
  }

  lemma HostSeqSuccessor(s: nat, k: nat)
    requires IsHostSeq(s)
    ensures NextHostSeq(HostSeqAfter(s, k)) == HostSeqAfter(s, k + 1)
  {
    var x := s - HOST_SEQ_MIN + k;
    assert x == 32 * (x / 32) + x % 32;
    if x % 32 == 31 {
      assert (x + 1) % 32 == 0 by { assert x + 1 == 32 * (x / 32 + 1); }
    } else {
      assert (x + 1) % 32 == x % 32 + 1;
    }
  }

  class HostSequencer {
    var next: nat
    const start: nat
    ghost var taken: nat

    ghost predicate Valid()
      reads this
    {
      IsHostSeq(start) && next == HostSeqAfter(start, taken)
    }

    /** The part of `__init__` after the check, which is in `Create`. */
    constructor (seqStart: nat)
      requires IsHostSeq(seqStart)
      ensures Valid() && start == seqStart && taken == 0
    {
      next, start, taken := seqStart, seqStart, 0;
    }

    /** `HostSequencer(seq_start)`; `None` stands for `InvalidHostSequence`. */
    static method Create(seqStart: int) returns (r: Option<HostSequencer>)
      ensures r.Some? <==> HOST_SEQ_MIN <= seqStart < HOST_SEQ_MIN + HOST_SEQ_COUNT
      ensures r.Some? ==> fresh(r.value) && r.value.Valid() && r.value.start == r.value.next == seqStart && r.value.taken == 0
    {
      if !IsHostSeq(seqStart) {
        return None;
      }
      var sequencer := new HostSequencer(seqStart);
      return Some(sequencer);
    }

    /** Successive calls hand out consecutive numbers, around a ring of 32. */
    method Take() returns (s: nat)
      requires Valid()
      modifies this
      ensures Valid() && taken == old(taken) + 1
      ensures s == old(next) == HostSeqAfter(start, old(taken)) && next == HostSeqAfter(start, taken)
    {
      s := next;
      HostSeqSuccessor(start, taken);
      next := NextHostSeq(next);
      taken := taken + 1;
    }
  }

  // ----- Building

  type Field = (seq<Byte>, seq<Byte>)

  /** One constructor for each way a builder raises. */
  datatype RequestError = BadHeader | FrameTooLarge | DoesNotFit

  predicate FieldsFit(fields: seq<Field>) {
    |fields| < U32_LIMIT && forall i :: 0 <= i < |fields| ==> Fits(fields[i].0) && Fits(fields[i].1)
  }

  function SizedWordLen(w: seq<Byte>): (n: nat) { 4 + |w| }

  function FieldBytes(fields: seq<Field>): (s: seq<Byte>)
    requires forall i :: 0 <= i < |fields| ==> Fits(fields[i].0) && Fits(fields[i].1)
  {
    if fields == [] then []
    else SizedWord(fields[0].0) + SizedWord(fields[0].1) + FieldBytes(fields[1..])
  }

  /** `encode_query_fields` after normalization; header fields have the same shape. */
  function EncodeFields(fields: seq<Field>): (s: seq<Byte>)
    requires FieldsFit(fields)
  {
    U32(|fields|) + FieldBytes(fields)
  }

  /** `query_fields_len` */
  function FieldsLen(fields: seq<Field>): (n: nat) {
    if fields == [] then 4
    else SizedWordLen(fields[0].0) + SizedWordLen(fields[0].1) + FieldsLen(fields[1..])
  }

  lemma {:induction false} FieldsLenIsLength(fields: seq<Field>)
    requires forall i :: 0 <= i < |fields| ==> Fits(fields[i].0) && Fits(fields[i].1)
    ensures FieldsLen(fields) == 4 + |FieldBytes(fields)|
  {
    if fields != [] { FieldsLenIsLength(fields[1..]); }
  }

  function ClientField(client: Option<seq<Byte>>): (f: seq<Field>) {
    if client.None? then [] else [(CLIENT, client.value)]
  }

  /** A header string is four ASCII characters. */
  predicate GoodHeader(header: seq<char>) {
    |header| == 4 && forall i :: 0 <= i < 4 ==> header[i] as int < 128
  }

  function HeaderBytes(header: seq<char>): (s: seq<Byte>)
    requires GoodHeader(header)
    ensures |s| == 4
  {
    seq(4, i requires 0 <= i < 4 => header[i] as int)
  }

  /** `max_motu_payload_bytes` of a good header. */
  const MAX_PAYLOAD: int := MAX_U16 - 4 - 4 - 16

  /** `max_post_json_body_bytes` of a good header; it may be negative. */
  function MaxPostBody(path: seq<Byte>, client: Option<seq<Byte>>): (n: int) {
    var requestLen := SizedWordLen(POST) + SizedWordLen(path) + 4 + SizedWordLen(AUTH_NAME) + SizedWordLen(AUTH_VALUE)
                      + FieldsLen(ClientField(client));
    MAX_PAYLOAD - (20 + requestLen + 4 + 12)
  }

  /** `build_motu_frame` */
  function BuildFrame(hostSeq: int, header: seq<char>, messageSeq: int, payload: seq<Byte>): (r: Result<seq<Byte>, RequestError>)
  {
    if !GoodHeader(header) then Err(BadHeader)
    else if |payload| > MAX_PAYLOAD then Err(FrameTooLarge)
    else if !(0 <= messageSeq < U32_LIMIT) then Err(DoesNotFit)
    else
      var body := HeaderBytes(header) + U32(Crc32.Crc(payload)) + U32(messageSeq) + U32(1) + U16(0) + U16(|payload|) + payload;
      Ok([hostSeq % 256, 0x80] + U16(|body| + 4) + body)
  }

  function RequestBytes(verb: seq<Byte>, path: seq<Byte>, name: seq<Byte>, value: seq<Byte>, query: seq<Field>): (s: seq<Byte>)
    requires Fits(verb) && Fits(path) && Fits(name) && Fits(value) && FieldsFit(query)
  {
    SizedWord(verb) + (SizedWord(path) + (U32(1) + (SizedWord(name) + (SizedWord(value) + EncodeFields(query)))))
  }

  function PayloadBytes(request: seq<Byte>, attachment: seq<Byte>): (s: seq<Byte>)
    requires Fits(request)
    ensures |s| == 20 + |request| + |attachment|
  {
    UTOM + (U32(8) + (U32(1) + (U32(0) + (U32(|request|) + (request + attachment)))))
  }

  /** `build_get_frame` */
  function BuildGet(hostSeq: int, messageSeq: int, path: seq<Byte>, etag: seq<Byte>, header: seq<char>,
                    client: Option<seq<Byte>>, query: seq<Field>): (r: Result<seq<Byte>, RequestError>)
  {
    var fields := query + ClientField(client);
    if !(Fits(path) && Fits(etag) && FieldsFit(fields)) then Err(DoesNotFit) else
    var request := RequestBytes(GET, path, IF_NONE_MATCH, etag, fields);
    if !Fits(request) then Err(DoesNotFit)
    else BuildFrame(hostSeq, header, messageSeq, PayloadBytes(request, []))
  }

  /** The words that carry a JSON body. */
  function Attachment(json: seq<Byte>): (s: seq<Byte>)
    requires |json| + 12 < U32_LIMIT
    ensures |s| == 16 + |json|
  {
    U32(12 + |json|) + (SizedWord(JSON) + SizedWord(json))
  }

  /** `build_post_frame` */
  function BuildPost(hostSeq: int, messageSeq: int, path: seq<Byte>, json: seq<Byte>, header: seq<char>,
                     client: Option<seq<Byte>>): (r: Result<seq<Byte>, RequestError>)
  {
    var fields := ClientField(client);
    if !(Fits(path) && FieldsFit(fields)) then Err(DoesNotFit) else
    var request := RequestBytes(POST, path, AUTH_NAME, AUTH_VALUE, fields);
    if !GoodHeader(header) then Err(BadHeader)
    else if |json| > MaxPostBody(path, client) then Err(FrameTooLarge)
    else
      PostBodyLimit(path, client);
      BuildFrame(hostSeq, header, messageSeq, PayloadBytes(request, Attachment(json)))
  }

  /** `build_ack`; the byte count is part of the frame. */
  function BuildAck(hostSeq: int): (s: seq<Byte>)
    ensures |s| == 4
  {
    [hostSeq % 256, 0x81, 0x04, 0x00]
  }

  // ----- Sizes

  lemma PostBodyLimit(path: seq<Byte>, client: Option<seq<Byte>>)
    requires Fits(path) && FieldsFit(ClientField(client))
    ensures var request := RequestBytes(POST, path, AUTH_NAME, AUTH_VALUE, ClientField(client));
            MaxPostBody(path, client) == MAX_U16 - (24 + 20 + |request| + 16)
  {
    FieldsLenIsLength(ClientField(client));
  }

  /** The length of a whole POST frame, field by field. */
  function PostSize(path: seq<Byte>, json: seq<Byte>, client: Option<seq<Byte>>): (n: nat) {
    var frame := 4 + 4 + 16;
    var prefix := 20;
    var request := (4 + |POST|) + (4 + |path|) + 4 + (4 + |AUTH_NAME|) + (4 + |AUTH_VALUE|)
                   + 4 + (if client.Some? then (4 + |CLIENT|) + (4 + |client.value|) else 0);
    var attachment := 4 + (4 + |JSON|) + (4 + |json|);
    frame + prefix + request + attachment
  }

  /**
   The size check is tight: whatever is asked for, a POST is built exactly when its whole frame fits in
   65535 bytes (and its header and sequence number are good); the later check in `build_motu_frame` never
   decides, and neither length field overflows.
   */
  lemma PostFitsExactly(hostSeq: int, messageSeq: int, path: seq<Byte>, json: seq<Byte>, header: seq<char>,
                        client: Option<seq<Byte>>)
    ensures var size := PostSize(path, json, client);
            var r := BuildPost(hostSeq, messageSeq, path, json, header, client);
            && size == MAX_U16 - (MaxPostBody(path, client) - |json|)
            && (r.Ok? <==> GoodHeader(header) && 0 <= messageSeq < U32_LIMIT && size <= MAX_U16)
            && (r == Err(FrameTooLarge) ==> |json| > MaxPostBody(path, client))
            && (r.Ok? ==> |r.value| == size && GetU16(r.value, 2) == size && GetU16(r.value, 22) == size - 24)
  {
    ClientFieldLen(client);
    hide U16, U32, GetU16, GetU32, Crc32.Crc, RequestBytes, PayloadBytes, FieldsLen, ClientField;
    var r := BuildPost(hostSeq, messageSeq, path, json, header, client);
    if Fits(path) && FieldsFit(ClientField(client)) {
      PostBodyLimit(path, client);
      if r.Ok? {
        var request := RequestBytes(POST, path, AUTH_NAME, AUTH_VALUE, ClientField(client));
        FrameFields(hostSeq, header, messageSeq, PayloadBytes(request, Attachment(json)));
      }
    }
  }

  lemma ClientFieldLen(client: Option<seq<Byte>>)
    ensures FieldsLen(ClientField(client)) == 4 + (if client.Some? then 8 + |CLIENT| + |client.value| else 0)
    ensures FieldsFit(ClientField(client)) <==> (client.Some? ==> Fits(client.value))
  {
    if client.Some? { assert [(CLIENT, client.value)][1..] == []; }
  }

  /** The length of a whole GET frame, field by field. */
  function GetSize(path: seq<Byte>, etag: seq<Byte>, fields: seq<Field>): (n: nat) {
    var frame := 4 + 4 + 16;
    var prefix := 20;
    var request := (4 + |GET|) + (4 + |path|) + 4 + (4 + |IF_NONE_MATCH|) + (4 + |etag|);
    frame + prefix + request + FieldsLen(fields)
  }

  lemma {:induction false} FieldsAreShorter(fields: seq<Field>)
    ensures FieldsLen(fields) >= 4 + 8 * |fields|
    ensures forall i :: 0 <= i < |fields| ==> |fields[i].0| + |fields[i].1| <= FieldsLen(fields)
  {
    if fields != [] {
      FieldsAreShorter(fields[1..]);
      assert forall i :: 1 <= i < |fields| ==> fields[i] == fields[1..][i - 1];
    }
  }

  /** When a GET can be built, exactly: whenever its whole frame, counted field by field, fits in 65535 bytes. */
  lemma GetFitsExactly(hostSeq: int, messageSeq: int, path: seq<Byte>, etag: seq<Byte>, header: seq<char>,
                       client: Option<seq<Byte>>, query: seq<Field>)
    ensures var size := GetSize(path, etag, query + ClientField(client));
            var r := BuildGet(hostSeq, messageSeq, path, etag, header, client, query);
            && (r.Ok? <==> GoodHeader(header) && 0 <= messageSeq < U32_LIMIT && size <= MAX_U16)
            && (r.Ok? ==> |r.value| == size && GetU16(r.value, 2) == size && GetU16(r.value, 22) == size - 24)
  {
    hide U16, U32, GetU16, GetU32, Crc32.Crc, FieldsLen, FieldBytes, ClientField;
    var fields := query + ClientField(client);
    FieldsAreShorter(fields);
    if Fits(path) && Fits(etag) && FieldsFit(fields) {
      FieldsLenIsLength(fields);
      var request := RequestBytes(GET, path, IF_NONE_MATCH, etag, fields);
      assert 24 + 20 + |request| == GetSize(path, etag, fields);
      hide RequestBytes, PayloadBytes, GetSize;
      if BuildGet(hostSeq, messageSeq, path, etag, header, client, query).Ok? {
        FrameFields(hostSeq, header, messageSeq, PayloadBytes(request, []));
      }
    }
  }

  lemma FrameFields(hostSeq: int, header: seq<char>, messageSeq: int, payload: seq<Byte>)
    requires BuildFrame(hostSeq, header, messageSeq, payload).Ok?
    ensures var f := BuildFrame(hostSeq, header, messageSeq, payload).value;
            && |f| == 24 + |payload|
            && f[0] == hostSeq % 256 && f[1] == 0x80
            && GetU16(f, 2) == |f|
            && f[4..8] == HeaderBytes(header)
            && GetU32(f, 8) == Crc32.Crc(payload) && GetU32(f, 12) == messageSeq && GetU32(f, 16) == 1
            && GetU16(f, 20) == 0 && GetU16(f, 22) == |payload|
            && f[24..] == payload
  {
    hide U16, U32, GetU16, GetU32, Crc32.Crc;
    var f := BuildFrame(hostSeq, header, messageSeq, payload).value;
    assert f[2..4] == U16(|f|);
    PackThenUnpack16(|f|, f, 2);
    assert f[8..12] == U32(Crc32.Crc(payload));
    PackThenUnpack32(Crc32.Crc(payload), f, 8);
    assert f[12..16] == U32(messageSeq);
    PackThenUnpack32(messageSeq, f, 12);
    assert f[16..20] == U32(1);
    PackThenUnpack32(1, f, 16);
    assert f[20..22] == U16(0);
    PackThenUnpack16(0, f, 20);
    assert f[22..24] == U16(|payload|);
    PackThenUnpack16(|payload|, f, 22);
  }

  // ----- The device's side

  datatype Request = Request(
    hostSeq: Byte, header: seq<Byte>, messageSeq: nat,
    verb: seq<Byte>, path: seq<Byte>, headers: seq<Field>, query: seq<Field>, attachment: Option<Field>)

  function TakeCount(s: seq<Byte>): (r: Option<(nat, seq<Byte>)>) {
    if |s| < 4 then None else Some((GetU32(s, 0), s[4..]))
  }

  function TakeFields(s: seq<Byte>, n: nat): (r: Option<(seq<Field>, seq<Byte>)>)
    decreases n
  {
    if n == 0 then Some(([], s)) else
    var name := TakeWord(s, U32_LIMIT);
    if name.None? then None else
    var value := TakeWord(name.value.1, U32_LIMIT);
    if value.None? then None else
    var more := TakeFields(value.value.1, n - 1);
    if more.None? then None
    else Some(([(name.value.0, value.value.0)] + more.value.0, more.value.1))
  }

  function TakeFieldList(s: seq<Byte>): (r: Option<(seq<Field>, seq<Byte>)>) {
    var n := TakeCount(s);
    if n.None? then None else TakeFields(n.value.1, n.value.0)
  }

  function DecodeAttachment(s: seq<Byte>): (r: Option<Field>) {
    var n := TakeCount(s);
    if n.None? || n.value.0 != |n.value.1| then None else
    var name := TakeWord(n.value.1, U32_LIMIT);
    if name.None? then None else
    var value := TakeWord(name.value.1, U32_LIMIT);
    if value.None? || value.value.1 != [] then None else Some((name.value.0, value.value.0))
  }

  /** Reads a request frame back; nothing may be left over. */
  function Decode(f: seq<Byte>): (r: Option<Request>) {
    if |f| < 44 || f[1] != 0x80 || GetU16(f, 2) != |f| || GetU16(f, 22) != |f| - 24 then None else
    var payload := f[24..];
    if GetU32(f, 8) != Crc32.Crc(payload) || GetU32(f, 16) != 1 || GetU16(f, 20) != 0 || payload[..4] != UTOM then None else
    if GetU32(payload, 4) != 8 || GetU32(payload, 8) != 1 || GetU32(payload, 12) != 0 then None else
    var n := GetU32(payload, 16);
    if 20 + n > |payload| then None else
    var request, attached := payload[20..20 + n], payload[20 + n..];
    var verb := TakeWord(request, U32_LIMIT);
    if verb.None? then None else
    var path := TakeWord(verb.value.1, U32_LIMIT);
    if path.None? then None else
    var headers := TakeFieldList(path.value.1);
    if headers.None? then None else
    var query := TakeFieldList(headers.value.1);
    if query.None? || query.value.1 != [] then None else
    var attachment := DecodeAttachment(attached);
    if attached != [] && attachment.None? then None
    else Some(Request(f[0], f[4..8], GetU32(f, 12), verb.value.0, path.value.0, headers.value.0, query.value.0, attachment))
  }

  /** The host sequence that an ack carries, if the frame is one. */
  function DecodeAck(f: seq<Byte>): (r: Option<Byte>) {
    if |f| == 4 && f[1] == 0x81 && GetU16(f, 2) == |f| then Some(f[0]) else None
  }

  /** An ack is read back as its sequence number, and no request frame is taken for one. */
  lemma DecodeOfAck(hostSeq: int)
    ensures DecodeAck(BuildAck(hostSeq)) == Some(hostSeq % 256)
    ensures forall f :: DecodeAck(f).Some? ==> Decode(f) == None && exists h: int :: f == BuildAck(h)
  {
    forall f | DecodeAck(f).Some? ensures exists h: int :: f == BuildAck(h) {
      assert f == BuildAck(f[0]);
    }
  }

  /** The default header is what the parser of the responses looks for. */
  lemma HeaderIsAscii()
    ensures HeaderBytes("NREK") == [0x4E, 0x52, 0x45, 0x4B] && HeaderBytes("PTTH") == [0x50, 0x54, 0x54, 0x48]
  {
  }

  lemma TakePackedCount(n: nat, rest: seq<Byte>)
    requires n < U32_LIMIT
    ensures TakeCount(U32(n) + rest) == Some((n, rest))
  {
    hide U32, GetU32;
    var s := U32(n) + rest;
    assert s[0..4] == U32(n);
    PackThenUnpack32(n, s, 0);
  }

  lemma {:induction false} TakeEncodedFields(fields: seq<Field>, rest: seq<Byte>)
    requires forall i :: 0 <= i < |fields| ==> Fits(fields[i].0) && Fits(fields[i].1)
    ensures TakeFields(FieldBytes(fields) + rest, |fields|) == Some((fields, rest))
    decreases |fields|
  {
    hide TakeWord, SizedWord;
    if fields == [] {
      assert FieldBytes(fields) + rest == rest;
    } else {
      var (name, value) := fields[0];
      var tail := FieldBytes(fields[1..]) + rest;
      assert FieldBytes(fields) + rest == SizedWord(name) + (SizedWord(value) + tail);
      TakeSizedWord(name, SizedWord(value) + tail, U32_LIMIT);
      TakeSizedWord(value, tail, U32_LIMIT);
      TakeEncodedFields(fields[1..], rest);
      assert [(name, value)] + fields[1..] == fields;
    }
  }

  lemma TakeEncodedFieldList(fields: seq<Field>, rest: seq<Byte>)
    requires FieldsFit(fields)
    ensures TakeFieldList(EncodeFields(fields) + rest) == Some((fields, rest))
  {
    hide TakeCount, U32;
    assert EncodeFields(fields) + rest == U32(|fields|) + (FieldBytes(fields) + rest);
    TakePackedCount(|fields|, FieldBytes(fields) + rest);
    TakeEncodedFields(fields, rest);
  }

  lemma DecodeOfAttachment(json: seq<Byte>)
    requires |json| + 12 < U32_LIMIT
    ensures DecodeAttachment(Attachment(json)) == Some((JSON, json))
  {
    hide TakeCount, TakeWord, U32;
    TakePackedCount(12 + |json|, SizedWord(JSON) + SizedWord(json));
    TakeSizedWord(JSON, SizedWord(json), U32_LIMIT);
    TakeSizedWord(json, [], U32_LIMIT);
    assert SizedWord(json) + [] == SizedWord(json);
  }

  /** What any request frame with these parts is read back as. */
  lemma DecodeOfFrame(hostSeq: int, header: seq<char>, messageSeq: int, verb: seq<Byte>, path: seq<Byte>,
                      name: seq<Byte>, value: seq<Byte>, query: seq<Field>, attached: seq<Byte>)
    requires Fits(verb) && Fits(path) && Fits(name) && Fits(value) && FieldsFit(query)
    requires Fits(RequestBytes(verb, path, name, value, query))
    requires BuildFrame(hostSeq, header, messageSeq, PayloadBytes(RequestBytes(verb, path, name, value, query), attached)).Ok?
    requires attached != [] ==> DecodeAttachment(attached).Some?
    ensures Decode(BuildFrame(hostSeq, header, messageSeq, PayloadBytes(RequestBytes(verb, path, name, value, query), attached)).value)
         == Some(Request(hostSeq % 256, HeaderBytes(header), messageSeq, verb, path, [(name, value)], query, DecodeAttachment(attached)))
  {
    hide U16, U32, GetU16, GetU32, Crc32.Crc, TakeWord, TakeFieldList, DecodeAttachment, SizedWord, EncodeFields;
    var request := RequestBytes(verb, path, name, value, query);
    var payload := PayloadBytes(request, attached);
    FrameFields(hostSeq, header, messageSeq, payload);
    assert payload[4..8] == U32(8) && payload[8..12] == U32(1) && payload[12..16] == U32(0);
    PackThenUnpack32(8, payload, 4);
    PackThenUnpack32(1, payload, 8);
    PackThenUnpack32(0, payload, 12);
    assert payload[16..20] == U32(|request|);
    PackThenUnpack32(|request|, payload, 16);
    assert payload[20..20 + |request|] == request && payload[20 + |request|..] == attached;
    OneHeaderFirst(verb, path, name, value, query);
  }

  lemma OneHeaderFirst(verb: seq<Byte>, path: seq<Byte>, name: seq<Byte>, value: seq<Byte>, query: seq<Field>)
    requires Fits(verb) && Fits(path) && Fits(name) && Fits(value) && FieldsFit(query)
    ensures var v := TakeWord(RequestBytes(verb, path, name, value, query), U32_LIMIT);
            && v.Some? && v.value.0 == verb
            && var p := TakeWord(v.value.1, U32_LIMIT);
            && p.Some? && p.value.0 == path
            && var h := TakeFieldList(p.value.1);
            && h.Some? && h.value.0 == [(name, value)]
            && TakeFieldList(h.value.1) == Some((query, []))
  {
    hide U32, TakeWord, TakeFieldList, SizedWord;
    var q := EncodeFields(query);
    var h := U32(1) + (SizedWord(name) + (SizedWord(value) + q));
    TakeSizedWord(verb, SizedWord(path) + h, U32_LIMIT);
    TakeSizedWord(path, h, U32_LIMIT);
    assert FieldBytes([(name, value)]) == SizedWord(name) + SizedWord(value) + [] by {
      assert [(name, value)][1..] == [];
      assert FieldBytes([]) == [];
    }
    assert h == EncodeFields([(name, value)]) + q;
    TakeEncodedFieldList([(name, value)], q);
    TakeEncodedFieldList(query, []);
    assert q + [] == q;
  }

  /** Every POST that can be built is read back with its own parts, each in its place. */
  lemma DecodeOfPost(hostSeq: int, messageSeq: int, path: seq<Byte>, json: seq<Byte>, header: seq<char>,
                     client: Option<seq<Byte>>)
    requires BuildPost(hostSeq, messageSeq, path, json, header, client).Ok?
    ensures Decode(BuildPost(hostSeq, messageSeq, path, json, header, client).value)
         == Some(Request(hostSeq % 256, HeaderBytes(header), messageSeq, POST, path, [(AUTH_NAME, AUTH_VALUE)],
                         ClientField(client), Some((JSON, json))))
  {
    hide BuildFrame, Decode, RequestBytes, PayloadBytes, Attachment;
    PostBodyLimit(path, client);
    DecodeOfAttachment(json);
    DecodeOfFrame(hostSeq, header, messageSeq, POST, path, AUTH_NAME, AUTH_VALUE, ClientField(client), Attachment(json));
  }

  /** Every GET that can be built is read back with its own parts, each in its place. */
  lemma DecodeOfGet(hostSeq: int, messageSeq: int, path: seq<Byte>, etag: seq<Byte>, header: seq<char>,
                    client: Option<seq<Byte>>, query: seq<Field>)
    requires BuildGet(hostSeq, messageSeq, path, etag, header, client, query).Ok?
    ensures Decode(BuildGet(hostSeq, messageSeq, path, etag, header, client, query).value)
         == Some(Request(hostSeq % 256, HeaderBytes(header), messageSeq, GET, path, [(IF_NONE_MATCH, etag)],
                         query + ClientField(client), None))
  {
    hide BuildFrame, Decode, RequestBytes, PayloadBytes;
    DecodeOfFrame(hostSeq, header, messageSeq, GET, path, IF_NONE_MATCH, etag, query + ClientField(client), []);
  }
}
