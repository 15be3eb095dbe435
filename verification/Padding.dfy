/** The byte padding of the C code against the bit strings of FIPS 202. */
module Padding {
  import opened Words
  import opened Bytes
  import opened Sponge

  const SHA3: byte := 0x06
  const SHAKE: byte := 0x1f

  /** The bits of a byte, least significant first (FIPS 202 section B.1). */
  function ByteBits(b: byte): (r: seq<bool>)
    ensures |r| == 8
  {
    [b & 1 != 0, b & 2 != 0, b & 4 != 0, b & 8 != 0, b & 16 != 0, b & 32 != 0, b & 64 != 0, b & 128 != 0]
  }

  function BitString(m: seq<byte>): (r: seq<bool>)
    ensures |r| == 8 * |m|
  {
    if m == [] then [] else ByteBits(m[0]) + BitString(m[1..])
  }

  function Falses(n: nat): (r: seq<bool>)
    ensures |r| == n
  {
    seq(n, _ => false)
  }

  /** Section 5.1: 1, as few zeros as reach a multiple of `x`, 1. */
  function Pad10Star1(x: nat, m: int): seq<bool>
    requires x > 0
  {
    [true] + Falses((-m - 2) % x) + [true]
  }

  /** Sections 6.1 and 6.2: the bits that separate SHA-3 from SHAKE. */
  function SuffixBits(suffix: byte): seq<bool>
    requires suffix == SHA3 || suffix == SHAKE
  {
    if suffix == SHA3 then [false, true] else [true, true, true, true]
  }

  lemma Associate(a: seq<bool>, b: seq<bool>, c: seq<bool>)
    ensures (a + b) + c == a + (b + c)
  {}

  lemma {:induction false} BitStringAppend(a: seq<byte>, b: seq<byte>)
    ensures BitString(a + b) == BitString(a) + BitString(b)
  {
    hide ByteBits;
    if a == [] {
      assert a + b == b;
    } else {
      BitStringAppend(a[1..], b);
      assert (a + b)[0] == a[0] && (a + b)[1..] == a[1..] + b;
      Associate(ByteBits(a[0]), BitString(a[1..]), BitString(b));
    }
  }

  lemma {:induction false} BitStringZeros(n: nat)
    ensures BitString(Zeros(n)) == Falses(8 * n)
  {
    if n > 0 {
      BitStringZeros(n - 1);
      assert Zeros(n)[1..] == Zeros(n - 1);
      assert ByteBits(0) == Falses(8);
      assert Falses(8 * n) == Falses(8) + Falses(8 * (n - 1));
    }
  }

  lemma SuffixByteBits(suffix: byte)
    requires suffix == SHA3 || suffix == SHAKE
    ensures var b := SuffixBits(suffix);
      && ByteBits(suffix) == b + [true] + Falses(7 - |b|)
      && ByteBits(suffix | 0x80) == b + [true] + Falses(6 - |b|) + [true]
      && ByteBits(0x80) == Falses(7) + [true]
  {
    assert SHA3 | 0x80 == 0x86 && SHAKE | 0x80 == 0x9f;
  }

  /** The bits added to a message of `n` bytes, also when both pad bits share the last byte of a block. */
  lemma PadBytesBits(n: nat, suffix: byte)
    requires suffix == SHA3 || suffix == SHAKE
    ensures var b := SuffixBits(suffix);
            BitString(PadBytes(n, suffix)) == b + Pad10Star1(8 * RATE, 8 * n + |b|)
  {
    var b := SuffixBits(suffix);
    var q := RATE - n % RATE;
    PadLength(n, |b|);
    hide BitString;
    hide ByteBits;
    if q == 1 {
      ShortPadding(suffix);
    } else {
      LongPadding(suffix, q);
    }
  }

  lemma ShortPadding(suffix: byte)
    requires suffix == SHA3 || suffix == SHAKE
    ensures var b := SuffixBits(suffix);
            BitString([suffix | 0x80]) == b + ([true] + Falses(6 - |b|) + [true])
  {
    SuffixByteBits(suffix);
    hide ByteBits;
  }

  lemma LongPadding(suffix: byte, q: nat)
    requires q >= 2 && (suffix == SHA3 || suffix == SHAKE)
    ensures var b := SuffixBits(suffix);
            BitString([suffix] + Zeros(q - 2) + [0x80]) == b + ([true] + Falses(8 * q - 2 - |b|) + [true])
  {
    SuffixByteBits(suffix);
    hide ByteBits;
    var b := SuffixBits(suffix);
    BitStringAppend([suffix] + Zeros(q - 2), [0x80]);
    BitStringAppend([suffix], Zeros(q - 2));
    BitStringZeros(q - 2);
    assert BitString([suffix]) == ByteBits(suffix) && BitString([0x80]) == ByteBits(0x80);
    JoinFalses(b, 7 - |b|, 8 * (q - 2), 7);
    hide BitString;
    hide SuffixBits;
    hide Falses;
  }

  lemma JoinFalses(b: seq<bool>, x: nat, y: nat, z: nat)
    ensures (b + [true] + Falses(x)) + Falses(y) + (Falses(z) + [true]) == b + ([true] + Falses(x + y + z) + [true])
  {}

  lemma PadLength(n: nat, b: nat)
    requires b <= 6
    ensures (-(8 * n + b) - 2) % (8 * RATE) == 8 * (RATE - n % RATE) - 2 - b
  {}

  /**
   What the code hashes is the message with the domain suffix and the pad10*1 of FIPS 202,
   for SHA-3 as for SHAKE and for every message length.
   */
  lemma PaddingIsFips202(m: seq<byte>, suffix: byte)
    requires suffix == SHA3 || suffix == SHAKE
    ensures var b := SuffixBits(suffix);
            BitString(Padded(m, suffix)) == BitString(m) + (b + Pad10Star1(8 * RATE, 8 * |m| + |b|))
  {
    hide BitString;
    hide PadBytes;
    hide Pad10Star1;
    BitStringAppend(m, PadBytes(|m|, suffix));
    PadBytesBits(|m|, suffix);
  }
}
