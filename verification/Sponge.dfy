/**
 The sponge of section 4 of FIPS 202 over byte strings, with the padding of section 5.1, and
 the lane-wise form in which the C code computes it. Both are stated for any lane operations.
 */
module Sponge {
  import opened Words
  import opened Bytes
  import opened KeccakSpec

  const WIDTH: nat := 200
  const RATE_LANES: nat := 17

  /** How lanes are computed with and how they are kept in bytes. */
  datatype Codec<!T> = Codec(ops: Ops<T>, zero: T, load: seq<byte> -> T, store: T -> seq<byte>)

  ghost predicate Lawful<T(!new)>(c: Codec<T>) {
    && (forall x :: |c.store(x)| == 8 && c.load(c.store(x)) == x)
    && (forall b :: |b| == 8 ==> c.store(c.load(b)) == b)
    && c.load(Zeros(8)) == c.zero
    && (forall a, b :: |a| == 8 == |b| ==> c.load(Xor(a, b)) == c.ops.xor(c.load(a), c.load(b)))
  }

  function Permutation<T>(s: seq<T>, c: Codec<T>): (r: seq<T>)
    requires |s| == 25
    ensures |r| == 25
  {
    Rounds(s, ROUNDS, c.ops)
  }

  // ----- the C code's form: lanes are loaded from the block and combined with the state

  function Slice(b: seq<byte>, i: nat): (r: seq<byte>)
    requires 8 * i + 8 <= |b|
    ensures |r| == 8
  {
    b[8 * i..8 * i + 8]
  }

  function Fill<T>(s: seq<T>, block: seq<byte>, c: Codec<T>): (r: seq<T>)
    requires |s| == 25 && |block| == RATE
    ensures |r| == 25
  {
    seq(25, i requires 0 <= i < 25 => if i < RATE_LANES then c.ops.xor(s[i], c.load(Slice(block, i))) else s[i])
  }

  function Start<T>(c: Codec<T>): (s: seq<T>)
    ensures |s| == 25
  {
    seq(25, _ => c.zero)
  }

  /** The state after absorbing a whole number of blocks. */
  function AbsorbLanes<T>(m: seq<byte>, c: Codec<T>): (s: seq<T>)
    requires |m| % RATE == 0
    ensures |s| == 25
  {
    if m == [] then Start(c)
    else Permutation(Fill(AbsorbLanes(m[..|m| - RATE], c), m[|m| - RATE..], c), c)
  }

  lemma AbsorbSnoc<T>(m: seq<byte>, b: seq<byte>, c: Codec<T>)
    requires |m| % RATE == 0 && |b| == RATE
    ensures AbsorbLanes(m + b, c) == Permutation(Fill(AbsorbLanes(m, c), b, c), c)
  {
    hide Permutation;
    hide Fill;
    assert (m + b)[..|m + b| - RATE] == m && (m + b)[|m + b| - RATE..] == b;
  }

  /** The first `n` lanes of a state as bytes. */
  function Emit<T>(s: seq<T>, n: nat, c: Codec<T>): seq<byte>
    requires n <= |s|
  {
    if n == 0 then [] else Emit(s, n - 1, c) + c.store(s[n - 1])
  }

  // ----- padding

  /** The bytes that complete a message of length `n`: both pad bits may share one byte. */
  function PadBytes(n: nat, suffix: byte): (p: seq<byte>)
    ensures (n + |p|) % RATE == 0
    ensures 0 < |p| <= RATE
  {
    var q := RATE - n % RATE;
    if q == 1 then [suffix | 0x80] else [suffix] + Zeros(q - 2) + [0x80]
  }

  function Padded(m: seq<byte>, suffix: byte): (p: seq<byte>)
    ensures |p| % RATE == 0
  {
    m + PadBytes(|m|, suffix)
  }

  /** What `jent_sha3_final` hands out for a message. */
  function Digest<T>(m: seq<byte>, suffix: byte, size: nat, c: Codec<T>): seq<byte>
    requires size <= RATE
  {
    Emit(AbsorbLanes(Padded(m, suffix), c), size / 8, c)
  }

  // ----- the standard's form: a state of 200 bytes, blocks extended with zeros

  function LanesOf<T>(b: seq<byte>, c: Codec<T>): (s: seq<T>)
    requires |b| == WIDTH
    ensures |s| == 25
  {
    seq(25, i requires 0 <= i < 25 => c.load(Slice(b, i)))
  }

  ghost function F<T(!new)>(b: seq<byte>, c: Codec<T>): seq<byte>
    requires Lawful(c) && |b| == WIDTH
  {
    Emit(Permutation(LanesOf(b, c), c), 25, c)
  }

  lemma StoreLength<T(!new)>(x: T, c: Codec<T>)
    requires Lawful(c)
    ensures |c.store(x)| == 8
  {}

  lemma {:induction false} EmitLength<T(!new)>(s: seq<T>, n: nat, c: Codec<T>)
    requires Lawful(c) && n <= |s|
    ensures |Emit(s, n, c)| == 8 * n
  {
    hide Lawful;
    if n > 0 {
      EmitLength(s, n - 1, c);
      StoreLength(s[n - 1], c);
    }
  }

  lemma {:induction false} EmitSlice<T(!new)>(s: seq<T>, n: nat, i: nat, c: Codec<T>)
    requires Lawful(c) && i < n <= |s|
    ensures |Emit(s, n, c)| == 8 * n && Slice(Emit(s, n, c), i) == c.store(s[i])
  {
    hide Lawful;
    EmitLength(s, n, c);
    EmitLength(s, n - 1, c);
    StoreLength(s[n - 1], c);
    if i < n - 1 {
      EmitSlice(s, n - 1, i, c);
    }
  }

  /** The sponge function: absorb the padded message block by block, keep all bytes of the state. */
  ghost function AbsorbBytes<T(!new)>(m: seq<byte>, c: Codec<T>): (s: seq<byte>)
    requires Lawful(c) && |m| % RATE == 0
    ensures |s| == WIDTH
  {
    if m == [] then Zeros(WIDTH) else
    var s := AbsorbBytes(m[..|m| - RATE], c);
    var block := m[|m| - RATE..] + Zeros(WIDTH - RATE);
    assert |Emit(Permutation(LanesOf(Xor(s, block), c), c), 25, c)| == WIDTH by {
      EmitLength(Permutation(LanesOf(Xor(s, block), c), c), 25, c);
    }
    F(Xor(s, block), c)
  }

  lemma XorSlice(a: seq<byte>, b: seq<byte>, i: nat)
    requires |a| == |b| && 8 * i + 8 <= |a|
    ensures Slice(Xor(a, b), i) == Xor(Slice(a, i), Slice(b, i))
  {}

  /** Combining loaded lanes is the same as combining bytes and loading afterwards. */
  lemma FillIsXor<T(!new)>(s: seq<T>, block: seq<byte>, c: Codec<T>)
    requires Lawful(c) && |s| == 25 && |block| == RATE && |Emit(s, 25, c)| == WIDTH
    ensures LanesOf(Xor(Emit(s, 25, c), block + Zeros(WIDTH - RATE)), c) == Fill(s, block, c)
  {
    var bytes, extended := Emit(s, 25, c), block + Zeros(WIDTH - RATE);
    forall i | 0 <= i < 25
      ensures c.load(Slice(Xor(bytes, extended), i)) == Fill(s, block, c)[i]
    {
      EmitSlice(s, 25, i, c);
      XorSlice(bytes, extended, i);
      if i < RATE_LANES {
        assert Slice(extended, i) == Slice(block, i);
      } else {
        assert Slice(extended, i) == Zeros(8);
        XorZeros(Slice(bytes, i));
      }
    }
  }

  lemma StartIsZeros<T(!new)>(c: Codec<T>, n: nat)
    requires Lawful(c) && n <= 25
    ensures Emit(Start(c), n, c) == Zeros(8 * n)
  {
    if n > 0 {
      StartIsZeros(c, n - 1);
      assert c.store(c.zero) == Zeros(8);
      assert Zeros(8 * n) == Zeros(8 * (n - 1)) + Zeros(8);
    }
  }

  /** The lane-wise state is the byte-wise state of the standard. */
  lemma {:induction false} AbsorbAgrees<T(!new)>(m: seq<byte>, c: Codec<T>)
    requires Lawful(c) && |m| % RATE == 0
    ensures Emit(AbsorbLanes(m, c), 25, c) == AbsorbBytes(m, c)
  {
    hide Permutation;
    hide LanesOf;
    if m == [] {
      StartIsZeros(c, 25);
    } else {
      hide Emit;
      hide Start;
      var p, b := m[..|m| - RATE], m[|m| - RATE..];
      AbsorbAgrees(p, c);
      FillIsXor(AbsorbLanes(p, c), b, c);
    }
  }

  lemma {:induction false} EmitPrefix<T(!new)>(s: seq<T>, k: nat, n: nat, c: Codec<T>)
    requires Lawful(c) && k <= n <= |s|
    ensures |Emit(s, n, c)| == 8 * n && Emit(s, k, c) == Emit(s, n, c)[..8 * k]
  {
    hide Lawful;
    EmitLength(s, n, c);
    if k < n {
      EmitPrefix(s, k, n - 1, c);
    }
  }

  /**
   `jent_sha3_final` produces the sponge output of FIPS 202 for every message and every digest
   of whole lanes that fits one block.
   */
  lemma DigestIsSponge<T(!new)>(m: seq<byte>, suffix: byte, size: nat, c: Codec<T>)
    requires Lawful(c) && size <= RATE && size % 8 == 0
    ensures Digest(m, suffix, size, c) == AbsorbBytes(Padded(m, suffix), c)[..size]
  {
    AbsorbAgrees(Padded(m, suffix), c);
    EmitPrefix(AbsorbLanes(Padded(m, suffix), c), size / 8, 25, c);
  }
}
