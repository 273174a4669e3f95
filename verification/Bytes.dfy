/** Bytes and the little-endian fixed-width fields used on the MOTU wire. */
module Bytes {
  import opened Wrappers

  type Byte = x: int | 0 <= x < 256 witness 0

  const U16_LIMIT: nat := 0x1_0000
  const U32_LIMIT: nat := 0x1_0000_0000

  /** `struct.pack("<H", v)`; packing demands a value that fits. */
  function U16(v: nat): (s: seq<Byte>)
    requires v < U16_LIMIT
    ensures |s| == 2
  {
    [v % 256, v / 256]
  }

  /** `struct.pack("<I", v)` */
  function U32(v: nat): (s: seq<Byte>)
    requires v < U32_LIMIT
    ensures |s| == 4
  {
    U16(v % 65536) + U16(v / 65536)
  }

  /** `struct.unpack_from("<H", s, at)` */
  function GetU16(s: seq<Byte>, at: nat): (v: nat)
    requires at + 2 <= |s|
    ensures v < U16_LIMIT
  {
    s[at] as int + 256 * s[at + 1] as int
  }

  /** `struct.unpack_from("<I", s, at)` */
  function GetU32(s: seq<Byte>, at: nat): (v: nat)
    requires at + 4 <= |s|
    ensures v < U32_LIMIT
  {
    GetU16(s, at) + 65536 * GetU16(s, at + 2)
  }

  /** Unpacking a packed value at its position gives the value back. */
  lemma PackThenUnpack16(v: nat, s: seq<Byte>, at: nat)
    requires v < U16_LIMIT && at + 2 <= |s| && s[at..at + 2] == U16(v)
    ensures GetU16(s, at) == v
  {
    assert s[at] == s[at..at + 2][0] && s[at + 1] == s[at..at + 2][1];
  }

  lemma PackThenUnpack32(v: nat, s: seq<Byte>, at: nat)
    requires v < U32_LIMIT && at + 4 <= |s| && s[at..at + 4] == U32(v)
    ensures GetU32(s, at) == v
  {
    var lo, hi := v % 65536, v / 65536;
    assert s[at..at + 2] == s[at..at + 4][..2] == U16(lo);
    assert s[at + 2..at + 4] == s[at..at + 4][2..] == U16(hi);
    PackThenUnpack16(lo, s, at);
    PackThenUnpack16(hi, s, at + 2);
  }

  /** Packing an unpacked value gives the bytes back. */
  lemma UnpackThenPack16(s: seq<Byte>, at: nat)
    requires at + 2 <= |s|
    ensures U16(GetU16(s, at)) == s[at..at + 2]
  {
  }

  lemma UnpackThenPack32(s: seq<Byte>, at: nat)
    requires at + 4 <= |s|
    ensures U32(GetU32(s, at)) == s[at..at + 4]
  {
    UnpackThenPack16(s, at);
    UnpackThenPack16(s, at + 2);
    var lo, hi := GetU16(s, at), GetU16(s, at + 2);
    assert (lo + 65536 * hi) % 65536 == lo && (lo + 65536 * hi) / 65536 == hi;
    assert s[at..at + 4] == s[at..at + 2] + s[at + 2..at + 4];
  }

  /** A field is read from its own bytes only. */
  lemma FieldsAgree(s: seq<Byte>, t: seq<Byte>, n: nat)
    requires n <= |s| && n <= |t| && s[..n] == t[..n]
    ensures forall at: nat :: at + 2 <= n ==> GetU16(s, at) == GetU16(t, at)
    ensures forall at: nat :: at + 4 <= n ==> GetU32(s, at) == GetU32(t, at)
  {
    assert forall i :: 0 <= i < n ==> s[i] == s[..n][i] == t[..n][i] == t[i];
  }

  lemma SliceOfSlice(s: seq<Byte>, a: nat, b: nat, c: nat, d: nat)
    requires a <= b <= |s| && c <= d <= b - a
    ensures s[a..b][c..d] == s[a + c..a + d]
  {
    var t := s[a..b];
    forall i | 0 <= i < d - c ensures t[c..d][i] == s[a + c..a + d][i] {
      assert t[c + i] == s[a + c + i];
    }
  }

  /** All pieces, one after the other. */
  function Concat(pieces: seq<seq<Byte>>): (s: seq<Byte>) {
    if pieces == [] then [] else pieces[0] + Concat(pieces[1..])
  }

  lemma {:induction false} ConcatAppend(pieces: seq<seq<Byte>>, last: seq<Byte>)
    ensures Concat(pieces + [last]) == Concat(pieces) + last
  {
    if pieces == [] {
      assert pieces + [last] == [last];
    } else {
      assert (pieces + [last])[1..] == pieces[1..] + [last];
      ConcatAppend(pieces[1..], last);
    }
  }

  // ----- Sized words, the building blocks of requests and of response metadata

  const UTOM: seq<Byte> := [0x55, 0x54, 0x4F, 0x4D]

  predicate Fits(w: seq<Byte>) { |w| < U32_LIMIT }

  /** A word behind its length. */
  function SizedWord(w: seq<Byte>): (s: seq<Byte>)
    requires Fits(w)
    ensures |s| == 4 + |w|
  {
    U32(|w|) + w
  }

  /** The word at the front, if it is there in full and not longer than `max`, and what is behind it. */
  function TakeWord(s: seq<Byte>, max: nat): (r: Option<(seq<Byte>, seq<Byte>)>)
    ensures r.Some? ==> |s| == 4 + |r.value.0| + |r.value.1|
  {
    if |s| < 4 then None else
    var size := GetU32(s, 0);
    if size > max || 4 + size > |s| then None else Some((s[4..4 + size], s[4 + size..]))
  }

  lemma TakeSizedWord(w: seq<Byte>, rest: seq<Byte>, max: nat)
    requires |w| <= max && Fits(w)
    ensures TakeWord(SizedWord(w) + rest, max) == Some((w, rest))
  {
    hide U32, GetU32;
    var s := SizedWord(w) + rest;
    assert s[0..4] == U32(|w|);
    PackThenUnpack32(|w|, s, 0);
    assert s[4..4 + |w|] == w && s[4 + |w|..] == rest;
  }
}
