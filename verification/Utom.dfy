/** UTOM response metadata: `_parse_utom_response` and its helpers in motu_proxy/parser.py. */
module Utom {
  import opened Bytes
  import opened Wrappers

  const MAX_WORD: nat := 4096

  type Header = (seq<Byte>, seq<Byte>)

  datatype Parts = Parts(body: seq<Byte>, etag: Option<seq<Byte>>, status: Option<nat>)

  /** `_read_sized_value` */
  function ReadSized(data: seq<Byte>, offset: nat, end: nat): (r: (Option<seq<Byte>>, nat))
    requires end <= |data|
  {
    if offset + 4 > end then (None, offset) else
    var size := GetU32(data, offset);
    if size > MAX_WORD || offset + 4 + size > end then (None, offset)
    else (Some(data[offset + 4..offset + 4 + size]), offset + 4 + size)
  }

  /** A read inside the metadata is a read of the metadata and of nothing else. */
  lemma ReadSizedStaysInside(data: seq<Byte>, offset: nat, end: nat)
    requires offset <= end <= |data|
    ensures var read := ReadSized(data, offset, end);
            var word, next := read.0, read.1;
            var taken := TakeWord(data[offset..end], MAX_WORD);
            && (word.Some? <==> taken.Some?)
            && (word.None? ==> next == offset)
            && (word.Some? ==> offset + 4 <= next <= end && taken.value == (word.value, data[next..end]))
  {
    var meta := data[offset..end];
    var (word, next) := ReadSized(data, offset, end);
    if offset + 4 <= end {
      assert meta[0] == data[offset] && meta[1] == data[offset + 1] && meta[2] == data[offset + 2];
      assert GetU32(meta, 0) == GetU32(data, offset);
      hide GetU32;
      if word.Some? {
        SliceOfSlice(data, offset, end, 4, next - offset);
        SliceOfSlice(data, offset, end, next - offset, end - offset);
      }
    }
  }

  function StripLeft(s: seq<Byte>): (t: seq<Byte>) {
    if s != [] && s[0] == 0x20 then StripLeft(s[1..]) else s
  }

  function StripRight(s: seq<Byte>): (t: seq<Byte>) {
    if s != [] && s[|s| - 1] == 0x20 then StripRight(s[..|s| - 1]) else s
  }

  /** `_decode_header_value`: printable ASCII, stripped, and not empty. */
  function DecodeValue(v: seq<Byte>): (r: Option<seq<Byte>>) {
    if exists b | b in v :: b < 0x20 || b > 0x7E then None else
    var s := StripRight(StripLeft(v));
    if s == [] then None else Some(s)
  }

  function Lower(b: Byte): (c: Byte) { if 0x41 <= b <= 0x5A then b + 0x20 else b }

  predicate NamesEtag(name: seq<Byte>) {
    var n := DecodeValue(name);
    n.Some? && |n.value| == 4
    && Lower(n.value[0]) == 0x65 && Lower(n.value[1]) == 0x74 && Lower(n.value[2]) == 0x61 && Lower(n.value[3]) == 0x67
  }

  // ----- Which header is an ETag, and what its value is

  predicate Spaces(s: seq<Byte>) { forall i :: 0 <= i < |s| ==> s[i] == 0x20 }

  predicate Printable(s: seq<Byte>) { forall i :: 0 <= i < |s| ==> 0x20 <= s[i] <= 0x7E }

  /** Something, with no space at either end. */
  predicate Trimmed(s: seq<Byte>) { s != [] && s[0] != 0x20 && s[|s| - 1] != 0x20 }

  lemma {:induction false} StripLeftOf(l: seq<Byte>, s: seq<Byte>)
    requires Spaces(l) && (s == [] || s[0] != 0x20)
    ensures StripLeft(l + s) == s
    decreases |l|
  {
    if l == [] {
      assert l + s == s;
    } else {
      assert (l + s)[1..] == l[1..] + s;
      StripLeftOf(l[1..], s);
    }
  }

  lemma {:induction false} StripRightOf(s: seq<Byte>, r: seq<Byte>)
    requires Spaces(r) && (s == [] || s[|s| - 1] != 0x20)
    ensures StripRight(s + r) == s
    decreases |r|
  {
    if r == [] {
      assert s + r == s;
    } else {
      assert (s + r)[..|s + r| - 1] == s + r[..|r| - 1];
      StripRightOf(s, r[..|r| - 1]);
    }
  }

  /** A printable value comes back as its text, without the spaces around it. */
  lemma ValueIsStripped(l: seq<Byte>, s: seq<Byte>, r: seq<Byte>)
    requires Spaces(l) && Spaces(r) && Trimmed(s) && Printable(s)
    ensures DecodeValue(l + s + r) == Some(s)
  {
    assert l + s + r == l + (s + r);
    StripLeftOf(l, s + r);
    StripRightOf(s, r);
  }

  lemma {:induction false} Parted(v: seq<Byte>) returns (l: seq<Byte>, r: seq<Byte>)
    ensures Spaces(l) && Spaces(r) && v == l + StripRight(StripLeft(v)) + r
    ensures StripRight(StripLeft(v)) == [] || Trimmed(StripRight(StripLeft(v)))
  {
    l := LeftPart(v);
    r := RightPart(StripLeft(v));
  }

  lemma {:induction false} LeftPart(v: seq<Byte>) returns (l: seq<Byte>)
    ensures Spaces(l) && v == l + StripLeft(v) && (StripLeft(v) == [] || StripLeft(v)[0] != 0x20)
  {
    if v != [] && v[0] == 0x20 {
      var more := LeftPart(v[1..]);
      l := [v[0]] + more;
    } else {
      l := [];
    }
  }

  lemma {:induction false} RightPart(v: seq<Byte>) returns (r: seq<Byte>)
    ensures Spaces(r) && v == StripRight(v) + r && (StripRight(v) == [] || StripRight(v)[|StripRight(v)| - 1] != 0x20)
  {
    if v != [] && v[|v| - 1] == 0x20 {
      var more := RightPart(v[..|v| - 1]);
      r := more + [v[|v| - 1]];
    } else {
      r := [];
    }
  }

  /** A value is lost only if it is not printable, or blank. */
  lemma ValueIsLostExactly(v: seq<Byte>)
    ensures DecodeValue(v) == None <==> !Printable(v) || Spaces(v)
  {
    var l, r := Parted(v);
    var s := StripRight(StripLeft(v));
    if Printable(v) {
      assert forall b :: b in v ==> 0x20 <= b <= 0x7E;
      if s == [] {
        assert v == l + r;
      } else {
        assert v[|l|] == s[0];
      }
    } else {
      var i :| 0 <= i < |v| && !(0x20 <= v[i] <= 0x7E);
      assert v[i] in v;
    }
  }

  /** The four letters, each in either case. */
  predicate SpellsEtag(s: seq<Byte>) {
    |s| == 4 && s[0] in {0x45, 0x65} && s[1] in {0x54, 0x74} && s[2] in {0x41, 0x61} && s[3] in {0x47, 0x67}
  }

  /** A header is an ETag exactly if its name is spelled so, in any case, with any spaces around it. */
  lemma EtagIsFoundExactly(name: seq<Byte>)
    ensures NamesEtag(name) <==> exists l, s, r :: Spaces(l) && SpellsEtag(s) && Spaces(r) && name == l + s + r
  {
    if NamesEtag(name) {
      var l, r := Parted(name);
      var s := StripRight(StripLeft(name));
      assert SpellsEtag(s) && name == l + s + r;
    }
    forall l, s, r | Spaces(l) && SpellsEtag(s) && Spaces(r) && name == l + s + r ensures NamesEtag(name) {
      assert Printable(s) && Trimmed(s);
      ValueIsStripped(l, s, r);
    }
  }

  /** The ETag of a header list: what the last header of that name decodes to, if there is one. */
  function LastEtag(headers: seq<Header>): (r: Option<seq<Byte>>) {
    if headers == [] then None else
    var last := headers[|headers| - 1];
    if NamesEtag(last.0) then DecodeValue(last.1) else LastEtag(headers[..|headers| - 1])
  }

  /** The headers some metadata starts with, at most `count` of them. */
  function Headers(meta: seq<Byte>, count: nat): (h: seq<Header>)
    ensures 8 * |h| <= |meta| && |h| <= count
    decreases count
  {
    if count == 0 then [] else
    var name := TakeWord(meta, MAX_WORD);
    if name.None? then [] else
    var value := TakeWord(name.value.1, MAX_WORD);
    if value.None? then [] else [(name.value.0, value.value.0)] + Headers(value.value.1, count - 1)
  }

  /** Is the response taken for UTOM at all? */
  predicate Recognised(response: seq<Byte>) {
    && |response| >= 28
    && UTOM <= response
    && GetU32(response, 16) >= 8
    && 20 + GetU32(response, 16) <= |response|
  }

  /** `_parse_utom_response`, with the number of rounds its header loop took. */
  method ParseUtomResponse(response: seq<Byte>) returns (r: Option<Parts>, rounds: nat)
    ensures r.Some? <==> Recognised(response)
    ensures r.Some? ==>
      var end := 20 + GetU32(response, 16);
      && r.value.body == response[end..]
      && r.value.etag == LastEtag(Headers(response[28..end], GetU32(response, 24)))
      && r.value.status == (if 100 <= GetU32(response, 20) <= 599 then Some(GetU32(response, 20)) else None)
      && rounds <= (GetU32(response, 16) - 8) / 8 + 1
      && rounds <= GetU32(response, 24)
  {
    hide GetU32, Headers, LastEtag;
    if |response| < 28 || response[..4] != UTOM {
      return None, 0;
    }
    var metadataLen := GetU32(response, 16);
    var end := 20 + metadataLen;
    if end > |response| || metadataLen < 8 {
      return None, 0;
    }
    var rawStatus := GetU32(response, 20);
    var status := if 100 <= rawStatus <= 599 then Some(rawStatus) else None;
    var etag;
    etag, rounds := ReadEtag(response, 28, end, GetU32(response, 24));
    return Some(Parts(response[end..], etag, status)), rounds;
  }

  /** Its header loop. */
  method ReadEtag(response: seq<Byte>, start: nat, end: nat, count: nat) returns (etag: Option<seq<Byte>>, rounds: nat)
    requires start <= end <= |response|
    ensures etag == LastEtag(Headers(response[start..end], count))
    ensures rounds <= (end - start) / 8 + 1 && rounds <= count
  {
    hide TakeWord, ReadSized, DecodeValue, NamesEtag, Headers, LastEtag;
    var offset := start;
    etag, rounds := None, 0;
    ghost var all := Headers(response[start..end], count);
    ghost var seen: seq<Header> := [];
    NoHeaders();
    while rounds < count
      invariant 0 <= rounds <= count && start + 8 * rounds <= offset <= end
      invariant etag == LastEtag(seen)
      invariant all == seen + Headers(response[offset..end], count - rounds)
    {
      NextHeader(response, offset, end, count - rounds);
      rounds := rounds + 1;
      var first := ReadSized(response, offset, end);
      var second := ReadSized(response, first.1, end);
      if first.0.None? || second.0.None? {
        assert all == seen;
        return;
      }
      var name, value := first.0.value, second.0.value;
      offset := second.1;
      AppendHeader(seen, (name, value));
      seen := seen + [(name, value)];
      if NamesEtag(name) {
        etag := DecodeValue(value);
      }
    }
    LastHeader(response[offset..end]);
    assert all == seen;
  }

  lemma NoHeaders()
    ensures LastEtag([]) == None
  {
  }

  lemma LastHeader(meta: seq<Byte>)
    ensures Headers(meta, 0) == []
  {
  }

  /** One round: the two reads find the next header, or there is none. */
  lemma NextHeader(data: seq<Byte>, offset: nat, end: nat, left: nat)
    requires offset <= end <= |data| && left > 0
    ensures var name := ReadSized(data, offset, end);
            var value := ReadSized(data, name.1, end);
            if name.0.None? || value.0.None? then Headers(data[offset..end], left) == []
            else offset + 8 <= value.1 <= end
                 && Headers(data[offset..end], left) == [(name.0.value, value.0.value)] + Headers(data[value.1..end], left - 1)
  {
    hide TakeWord, ReadSized;
    ReadSizedStaysInside(data, offset, end);
    ReadSizedStaysInside(data, ReadSized(data, offset, end).1, end);
  }

  lemma AppendHeader(headers: seq<Header>, h: Header)
    ensures LastEtag(headers + [h]) == if NamesEtag(h.0) then DecodeValue(h.1) else LastEtag(headers)
  {
    assert (headers + [h])[..|headers|] == headers;
  }

  // ----- The device's side

  predicate Short(headers: seq<Header>) {
    forall i :: 0 <= i < |headers| ==> |headers[i].0| <= MAX_WORD && |headers[i].1| <= MAX_WORD
  }

  function EncodeHeaders(headers: seq<Header>): (s: seq<Byte>)
    requires Short(headers)
  {
    if headers == [] then []
    else SizedWord(headers[0].0) + SizedWord(headers[0].1) + EncodeHeaders(headers[1..])
  }

  /** Encoded headers are read back, in order, whatever larger number of them is announced. */
  lemma {:induction false} HeadersOfEncoded(headers: seq<Header>, count: nat)
    requires Short(headers) && |headers| <= count
    ensures Headers(EncodeHeaders(headers), count) == headers
    decreases |headers|
  {
    hide TakeWord, SizedWord;
    if headers != [] {
      var (name, value) := headers[0];
      var rest := EncodeHeaders(headers[1..]);
      assert EncodeHeaders(headers) == SizedWord(name) + (SizedWord(value) + rest);
      TakeSizedWord(name, SizedWord(value) + rest, MAX_WORD);
      TakeSizedWord(value, rest, MAX_WORD);
      HeadersOfEncoded(headers[1..], count - 1);
    }
  }

  /** A UTOM response as the device sends it; twelve bytes are not interpreted. */
  function Encode(opaqueBytes: seq<Byte>, status: nat, headers: seq<Header>, count: nat, body: seq<Byte>): (s: seq<Byte>)
    requires |opaqueBytes| == 12 && status < U32_LIMIT && count < U32_LIMIT && Short(headers)
    requires 8 + |EncodeHeaders(headers)| < U32_LIMIT
  {
    UTOM + opaqueBytes + U32(8 + |EncodeHeaders(headers)|) + U32(status) + U32(count) + EncodeHeaders(headers) + body
  }

  /** What is encoded is recognised, and its body, status and headers are recovered. */
  lemma FieldsOfEncoded(opaqueBytes: seq<Byte>, status: nat, headers: seq<Header>, count: nat, body: seq<Byte>)
    requires |opaqueBytes| == 12 && status < U32_LIMIT && |headers| <= count < U32_LIMIT && Short(headers)
    requires 8 + |EncodeHeaders(headers)| < U32_LIMIT
    ensures var r := Encode(opaqueBytes, status, headers, count, body);
            && Recognised(r)
            && r[20 + GetU32(r, 16)..] == body
            && GetU32(r, 20) == status
            && Headers(r[28..20 + GetU32(r, 16)], GetU32(r, 24)) == headers
  {
    hide U32, GetU32, EncodeHeaders, Headers;
    var e := EncodeHeaders(headers);
    var r := Encode(opaqueBytes, status, headers, count, body);
    var front := UTOM + opaqueBytes;
    assert r == front + (U32(8 + |e|) + U32(status) + U32(count) + e + body);
    assert r[16..20] == U32(8 + |e|) && r[20..24] == U32(status) && r[24..28] == U32(count);
    PackThenUnpack32(8 + |e|, r, 16);
    PackThenUnpack32(status, r, 20);
    PackThenUnpack32(count, r, 24);
    assert r[28..28 + |e|] == e && r[28 + |e|..] == body;
    HeadersOfEncoded(headers, count);
  }
}
