/**
 The CRC-32 of section 8 of RFC 1952, bit by bit: a 32-bit register that starts at all ones, takes
 in the message least significant bit first, and is complemented at the end.  A register is the
 sequence of its bits, least significant first.
 */
module Crc32 {
  import opened Bytes

  type Register = r: seq<bool> | |r| == 32 witness seq(32, _ => true)

  /** The exponents of the generator in section 8 of RFC 1952. */
  predicate IsExponent(e: int) { e in {32, 26, 23, 22, 16, 12, 11, 10, 8, 7, 5, 4, 2, 1, 0} }

  /** The generator without its highest power, as the register holds it: highest power first. */
  function Polynomial(): (p: Register)
    ensures forall i :: 0 <= i < 32 ==> p[i] == IsExponent(31 - i)
  {
    seq(32, i requires 0 <= i < 32 => IsExponent(31 - i))
  }

  /** The `n` low bits of `v`, least significant first. */
  function Bits(v: nat, n: nat): (b: seq<bool>)
    ensures |b| == n
  {
    if n == 0 then [] else [v % 2 == 1] + Bits(v / 2, n - 1)
  }

  /** The number whose bits are `b`. */
  function Value(b: seq<bool>): (v: nat) {
    if b == [] then 0 else (if b[0] then 1 else 0) + 2 * Value(b[1..])
  }

  function Pow2(n: nat): (p: nat) {
    if n == 0 then 1 else 2 * Pow2(n - 1)
  }

  /** Takes in one message bit: it is added to the lowest bit, and the register is shifted. */
  function FeedBit(r: Register, bit: bool): (r': Register) {
    var low := r[0] != bit;
    seq(32, i requires 0 <= i < 32 => (i < 31 && r[i + 1]) != (low && Polynomial()[i]))
  }

  function Feed(r: Register, bits: seq<bool>): (r': Register)
    decreases |bits|
  {
    if bits == [] then r else Feed(FeedBit(r, bits[0]), bits[1..])
  }

  function MessageBits(data: seq<Byte>): (b: seq<bool>)
    ensures |b| == 8 * |data|
  {
    if data == [] then [] else Bits(data[0], 8) + MessageBits(data[1..])
  }

  function Complement(r: Register): (r': Register) {
    seq(32, i requires 0 <= i < 32 => !r[i])
  }

  /** `crc32(data)` */
  function Crc(data: seq<Byte>): (c: nat)
    ensures c < U32_LIMIT
  {
    var r := Complement(Feed(seq(32, _ => true), MessageBits(data)));
    ValueBound(r);
    Pow2Of32();
    Value(r)
  }

  lemma {:induction false} ValueBound(b: seq<bool>)
    ensures Value(b) < Pow2(|b|)
  {
    if b != [] { ValueBound(b[1..]); }
  }

  lemma {:induction false} Pow2Sum(m: nat, n: nat)
    ensures Pow2(m + n) == Pow2(m) * Pow2(n)
  {
    if m > 0 { Pow2Sum(m - 1, n); }
  }

  lemma {:induction false} ValueOfBits(v: nat, n: nat)
    requires v < Pow2(n)
    ensures Value(Bits(v, n)) == v
  {
    if n > 0 {
      ValueOfBits(v / 2, n - 1);
      assert Bits(v, n)[1..] == Bits(v / 2, n - 1);
    }
  }

  lemma Pow2Of32()
    ensures Pow2(8) == 256 && Pow2(31) == 0x8000_0000 && Pow2(32) == U32_LIMIT
  {
    assert Pow2(4) == 16;
    Pow2Sum(4, 4);
    Pow2Sum(8, 8);
    Pow2Sum(16, 16);
  }

  /** The shift never loses a bit: what leaves the low end decides the top bit. */
  lemma FeedBitTop(r: Register, bit: bool)
    ensures FeedBit(r, bit)[31] == (r[0] != bit)
  {
    assert Polynomial()[31] == IsExponent(0);
  }

  lemma {:induction false} FeedConcat(r: Register, a: seq<bool>, b: seq<bool>)
    ensures Feed(r, a + b) == Feed(Feed(r, a), b)
    decreases |a|
  {
    if a == [] {
      assert a + b == b;
    } else {
      assert (a + b)[1..] == a[1..] + b;
      FeedConcat(FeedBit(r, a[0]), a[1..], b);
    }
  }

  lemma {:induction false} MessageBitsConcat(a: seq<Byte>, b: seq<Byte>)
    ensures MessageBits(a + b) == MessageBits(a) + MessageBits(b)
  {
    if a == [] {
      assert a + b == b;
    } else {
      assert (a + b)[1..] == a[1..] + b;
      MessageBitsConcat(a[1..], b);
    }
  }

  lemma {:induction false} MessageBitsInjective(a: seq<Byte>, b: seq<Byte>)
    requires |a| == |b| && a != b
    ensures MessageBits(a) != MessageBits(b)
  {
    var va, vb := MessageBits(a), MessageBits(b);
    if a[0] == b[0] {
      assert a[1..] != b[1..];
      MessageBitsInjective(a[1..], b[1..]);
      assert va[8..] == MessageBits(a[1..]) && vb[8..] == MessageBits(b[1..]);
    } else {
      Pow2Of32();
      ValueOfBits(a[0], 8);
      ValueOfBits(b[0], 8);
      assert va[..8] == Bits(a[0], 8) && vb[..8] == Bits(b[0], 8);
    }
  }

  lemma {:induction false} ValueInjective(a: seq<bool>, b: seq<bool>)
    requires |a| == |b| && a != b
    ensures Value(a) != Value(b)
  {
    if a[0] == b[0] {
      assert a[1..] != b[1..];
      ValueInjective(a[1..], b[1..]);
    }
  }

  /** The registers differ in one of their `j` highest bits. */
  ghost predicate DifferHigh(r: Register, q: Register, j: nat) {
    exists k :: 0 <= k < 32 && 32 - j <= k && r[k] != q[k]
  }

  /**
   One more bit moves a difference down by at most one place, whether or not the two messages agree
   on that bit: it falls off the low end only by setting the top bit again.
   */
  lemma FeedBitKeepsDifference(r: Register, q: Register, bit: bool, bit': bool, j: nat)
    requires DifferHigh(r, q, j) && (j < 32 || bit == bit')
    ensures DifferHigh(FeedBit(r, bit), FeedBit(q, bit'), if j < 32 then j + 1 else j)
  {
    var k :| 0 <= k < 32 && 32 - j <= k && r[k] != q[k];
    var r', q' := FeedBit(r, bit), FeedBit(q, bit');
    FeedBitTop(r, bit);
    FeedBitTop(q, bit');
    if (r[0] != bit) != (q[0] != bit') {
      assert r'[31] != q'[31];
    } else {
      assert k > 0;
      assert r'[k - 1] != q'[k - 1];
    }
  }

  lemma {:induction false} FeedKeepsDifference(r: Register, q: Register, a: seq<bool>, b: seq<bool>, j: nat)
    requires |a| == |b| && DifferHigh(r, q, j) && (j + |a| <= 32 || (j == 32 && a == b))
    ensures Feed(r, a) != Feed(q, b)
    decreases |a|
  {
    if a != [] {
      FeedBitKeepsDifference(r, q, a[0], b[0], j);
      FeedKeepsDifference(FeedBit(r, a[0]), FeedBit(q, b[0]), a[1..], b[1..], if j < 32 then j + 1 else j);
    }
  }

  /** Two different bit strings of at most 32 bits lead any register to different registers. */
  lemma {:induction false} FeedSeparates(r: Register, a: seq<bool>, b: seq<bool>)
    requires |a| == |b| <= 32 && a != b
    ensures Feed(r, a) != Feed(r, b)
    decreases |a|
  {
    if a[0] == b[0] {
      assert a[1..] != b[1..];
      FeedSeparates(FeedBit(r, a[0]), a[1..], b[1..]);
    } else {
      FeedBitTop(r, a[0]);
      FeedBitTop(r, b[0]);
      assert FeedBit(r, a[0])[31] != FeedBit(r, b[0])[31];
      FeedKeepsDifference(FeedBit(r, a[0]), FeedBit(r, b[0]), a[1..], b[1..], 1);
    }
  }

  lemma FeedThrough(start: Register, pre: seq<Byte>, m: seq<Byte>, post: seq<Byte>)
    ensures Feed(start, MessageBits(pre + m + post)) == Feed(Feed(Feed(start, MessageBits(pre)), MessageBits(m)), MessageBits(post))
  {
    hide Feed, MessageBits;
    MessageBitsConcat(pre, m);
    MessageBitsConcat(pre + m, post);
    FeedConcat(start, MessageBits(pre), MessageBits(m));
    FeedConcat(start, MessageBits(pre) + MessageBits(m), MessageBits(post));
  }

  /** Changing anything inside any four consecutive bytes of a message changes its CRC. */
  lemma BurstIsDetected(pre: seq<Byte>, a: seq<Byte>, b: seq<Byte>, post: seq<Byte>)
    requires |a| == |b| <= 4 && a != b
    ensures Crc(pre + a + post) != Crc(pre + b + post)
  {
    var start: Register := seq(32, _ => true);
    var r := Feed(start, MessageBits(pre));
    var ra, rb := Feed(r, MessageBits(a)), Feed(r, MessageBits(b));
    hide Feed, MessageBits;
    FeedThrough(start, pre, a, post);
    FeedThrough(start, pre, b, post);
    MessageBitsInjective(a, b);
    FeedSeparates(r, MessageBits(a), MessageBits(b));
    var k :| 0 <= k < 32 && ra[k] != rb[k];
    assert DifferHigh(ra, rb, 32);
    FeedKeepsDifference(ra, rb, MessageBits(post), MessageBits(post), 32);
    var fa, fb := Feed(ra, MessageBits(post)), Feed(rb, MessageBits(post));
    var i :| 0 <= i < 32 && fa[i] != fb[i];
    assert Complement(fa)[i] != Complement(fb)[i];
    ValueInjective(Complement(fa), Complement(fb));
  }

  // ----- The CRC is a remainder

  /** The generator, highest power first: that is the order in which bits are sent. */
  function Generator(): (g: seq<bool>)
    ensures |g| == 33
  {
    seq(33, j requires 0 <= j < 33 => IsExponent(32 - j))
  }

  /** Addition of polynomials: bit by bit, without carry. */
  function Sum(a: seq<bool>, b: seq<bool>): (c: seq<bool>)
    requires |a| == |b|
    ensures |c| == |a|
  {
    seq(|a|, i requires 0 <= i < |a| => a[i] != b[i])
  }

  function Zeros(n: nat): (z: seq<bool>)
    ensures |z| == n
  {
    seq(n, _ => false)
  }

  /** The generator at the front, if it is subtracted there. */
  function Subtracted(low: bool, n: nat): (p: seq<bool>)
    requires n > 0
    ensures |p| == n + 32
  {
    if low then Generator() + Zeros(n - 1) else Zeros(n + 32)
  }

  /** The product of a polynomial with the generator. */
  function Multiple(q: seq<bool>): (p: seq<bool>)
    ensures |p| == |q| + 32
  {
    if q == [] then Zeros(32)
    else Sum(Subtracted(q[0], |q|), [false] + Multiple(q[1..]))
  }

  /**
   The shift register divides: register and message together, minus what is left in the register, are a
   multiple of the generator.
   */
  lemma {:induction false} FeedDivides(r: Register, bits: seq<bool>) returns (q: seq<bool>)
    ensures |q| == |bits|
    ensures Divided(r, bits, Feed(r, bits)) == Multiple(q)
    decreases |bits|
  {
    if bits == [] {
      q := [];
    } else {
      var rest := FeedDivides(FeedBit(r, bits[0]), bits[1..]);
      q := [r[0] != bits[0]] + rest;
      OneDivision(r, bits, rest);
    }
  }

  /** Register and message, minus what is left, as one polynomial. */
  function Divided(r: Register, bits: seq<bool>, left: Register): (p: seq<bool>)
    ensures |p| == |bits| + 32
  {
    Sum(Sum(r + Zeros(|bits|), bits + Zeros(32)), Zeros(|bits|) + left)
  }

  lemma DivisionAt(r: Register, bits: seq<bool>, left: Register, i: nat)
    requires bits != [] && i < |bits| + 32
    ensures Divided(r, bits, left)[i]
            == (Subtracted(r[0] != bits[0], |bits|)[i] != ([false] + Divided(FeedBit(r, bits[0]), bits[1..], left))[i])
  {
    var n, r', tail := |bits|, FeedBit(r, bits[0]), bits[1..];
    if i > 0 {
      assert (tail + Zeros(32))[i - 1] == (bits + Zeros(32))[i];
      assert (Zeros(n - 1) + left)[i - 1] == (Zeros(n) + left)[i];
      assert (r' + Zeros(n - 1))[i - 1] == if i <= 32 then r'[i - 1] else false;
      assert (r + Zeros(n))[i] == if i < 32 then r[i] else false;
      assert 0 < i <= 32 ==> Generator()[i] == Polynomial()[i - 1];
    }
  }

  lemma DivisionSum(r: Register, bits: seq<bool>, left: Register)
    requires bits != []
    ensures Divided(r, bits, left)
            == Sum(Subtracted(r[0] != bits[0], |bits|), [false] + Divided(FeedBit(r, bits[0]), bits[1..], left))
  {
    hide Divided, Subtracted, FeedBit;
    forall i | 0 <= i < |bits| + 32
      ensures Divided(r, bits, left)[i]
              == (Subtracted(r[0] != bits[0], |bits|)[i] != ([false] + Divided(FeedBit(r, bits[0]), bits[1..], left))[i])
    {
      DivisionAt(r, bits, left, i);
    }
  }

  lemma MultipleStep(low: bool, rest: seq<bool>)
    ensures Multiple([low] + rest) == Sum(Subtracted(low, |rest| + 1), [false] + Multiple(rest))
  {
    hide Sum, Generator, Subtracted, Zeros;
    assert ([low] + rest)[1..] == rest;
  }

  lemma OneDivision(r: Register, bits: seq<bool>, rest: seq<bool>)
    requires bits != [] && |rest| == |bits| - 1
    requires var r', tail := FeedBit(r, bits[0]), bits[1..]; Divided(r', tail, Feed(r', tail)) == Multiple(rest)
    ensures Divided(r, bits, Feed(r, bits)) == Multiple([r[0] != bits[0]] + rest)
  {
    hide Divided, Subtracted, FeedBit, Multiple, Sum;
    DivisionSum(r, bits, Feed(r, bits));
    MultipleStep(r[0] != bits[0], rest);
  }

  /**
   What the CRC of section 8 of RFC 1952 is: the message with its first 32 bits complemented, followed by the
   complement of the CRC, is a multiple of the generator.
   */
  lemma CrcIsRemainder(data: seq<Byte>) returns (q: seq<bool>)
    ensures var bits, ones := MessageBits(data), seq(32, _ => true);
            |q| == |bits| && Divided(ones, bits, Complement(Bits(Crc(data), 32))) == Multiple(q)
  {
    var bits, ones := MessageBits(data), seq(32, _ => true);
    var r := Feed(ones, bits);
    q := FeedDivides(ones, bits);
    BitsOfValue(Complement(r));
    assert Complement(Complement(r)) == r;
  }

  lemma {:induction false} BitsOfValue(b: seq<bool>)
    ensures Bits(Value(b), |b|) == b
  {
    if b != [] {
      BitsOfValue(b[1..]);
      assert Value(b) / 2 == Value(b[1..]);
    }
  }
}
