/** Fixed-width arithmetic of the C sources, written out over unbounded integers. */
module Words {
  const TWO31: int := 0x8000_0000
  const TWO32: int := 0x1_0000_0000
  const TWO64: int := 0x1_0000_0000_0000_0000

  type u64 = x: int | 0 <= x < TWO64
  type byte = bv8

  /** The rate in bytes of SHA3-256 and SHAKE256. */
  const RATE: nat := 136

  function Pow2(n: nat): (p: nat)
    ensures p > 0
  {
    if n == 0 then 1 else 2 * Pow2(n - 1)
  }

  /** `jent_delta`: the wrapping difference of two 64-bit values. */
  function Delta(prev: u64, next: u64): u64 {
    (next - prev) % TWO64
  }
}

/** Byte strings. */
module Bytes {
  import opened Words

  function Zeros(n: nat): (z: seq<byte>)
    ensures |z| == n && forall i :: 0 <= i < n ==> z[i] == 0
  {
    seq(n, _ => 0)
  }

  function XorByte(a: byte, b: byte): byte {
    a ^ b
  }

  function Xor(a: seq<byte>, b: seq<byte>): (c: seq<byte>)
    requires |a| == |b|
    ensures |c| == |a|
  {
    seq(|a|, i requires 0 <= i < |a| => XorByte(a[i], b[i]))
  }

  /** The pieces one after the other. */
  function Flat(s: seq<seq<byte>>): seq<byte> {
    if s == [] then [] else Flat(s[..|s| - 1]) + s[|s| - 1]
  }

  lemma {:induction false} FlatGrows(s: seq<seq<byte>>, i: nat)
    requires i < |s|
    ensures Flat(s[..i + 1]) == Flat(s[..i]) + s[i]
    ensures |Flat(s[..i])| + |s[i]| <= |Flat(s)|
    decreases |s|
  {
    assert s[..i + 1][..i] == s[..i];
    if i + 1 < |s| {
      FlatGrows(s[..|s| - 1], i);
      assert s[..|s| - 1][..i] == s[..i];
    } else {
      assert s[..i + 1] == s;
    }
  }

  lemma XorZeros(a: seq<byte>)
    ensures Xor(a, Zeros(|a|)) == a
  {
    forall i | 0 <= i < |a| ensures XorByte(a[i], 0) == a[i] {}
  }
}

/** The bits of `health_failure`. Each test has an intermittent and a permanent one. */
module Failures {
  datatype Failure =
    | Rct | Apt | Lag | RctMem
    | RctPermanent | AptPermanent | LagPermanent | RctMemPermanent
}
