/** The 64-bit lanes of Keccak-p[1600, 24]: the operations of `jitterentropy-sha3.c` on `uint64_t`. */
module Lanes64 {
  import opened Words
  import opened Bytes
  import opened KeccakSpec
  import opened Sponge

  /** `jent_rol64` for a distance below 64. */
  function Rol(x: bv64, n: bv64): bv64
    requires n < 64
  {
    (x << (n & 63)) | (x >> ((64 - n) & 63))
  }

  function Word(n: nat): (w: bv64)
    ensures w < 64
  {
    (n % 64) as bv64
  }

  function Wide(b: byte): bv64 {
    b as bv64
  }

  function Join(b0: bv64, b1: bv64, b2: bv64, b3: bv64, b4: bv64, b5: bv64, b6: bv64, b7: bv64): bv64 {
    b0 | (b1 << 8) | (b2 << 16) | (b3 << 24) | (b4 << 32) | (b5 << 40) | (b6 << 48) | (b7 << 56)
  }

  /** `ptr_to_le64` */
  function Load(b: seq<byte>): bv64 {
    if |b| != 8 then 0 else
    Join(Wide(b[0]), Wide(b[1]), Wide(b[2]), Wide(b[3]), Wide(b[4]), Wide(b[5]), Wide(b[6]), Wide(b[7]))
  }

  /** `le64_to_ptr` */
  function Store(x: bv64): (b: seq<byte>)
    ensures |b| == 8
  {
    [(x & 0xff) as bv8, ((x >> 8) & 0xff) as bv8, ((x >> 16) & 0xff) as bv8, ((x >> 24) & 0xff) as bv8,
     ((x >> 32) & 0xff) as bv8, ((x >> 40) & 0xff) as bv8, ((x >> 48) & 0xff) as bv8, ((x >> 56) & 0xff) as bv8]
  }

  /** `jent_keccakp_iota_vals` */
  function Constant(round: nat): bv64 {
    match round
    case 0 => 0x0000000000000001
    case 1 => 0x0000000000008082
    case 2 => 0x800000000000808a
    case 3 => 0x8000000080008000
    case 4 => 0x000000000000808b
    case 5 => 0x0000000080000001
    case 6 => 0x8000000080008081
    case 7 => 0x8000000000008009
    case 8 => 0x000000000000008a
    case 9 => 0x0000000000000088
    case 10 => 0x0000000080008009
    case 11 => 0x000000008000000a
    case 12 => 0x000000008000808b
    case 13 => 0x800000000000008b
    case 14 => 0x8000000000008089
    case 15 => 0x8000000000008003
    case 16 => 0x8000000000008002
    case 17 => 0x8000000000000080
    case 18 => 0x000000000000800a
    case 19 => 0x800000008000000a
    case 20 => 0x8000000080008081
    case 21 => 0x8000000000008080
    case 22 => 0x0000000080000001
    case 23 => 0x8000000080008008
    case _ => 0
  }

  const OPS: Ops<bv64> := Ops(
    (a, b) => a ^ b,
    (a, b) => !a & b,
    (x, n: nat) => Rol(x, Word(n)),
    (round: nat) => Constant(round))

  const CODEC: Codec<bv64> := Codec(OPS, 0, (b: seq<byte>) => Load(b), (x: bv64) => Store(x))

  lemma LoadStore(x: bv64)
    ensures Load(Store(x)) == x
  {}

  lemma StoreLoad(b: seq<byte>)
    requires |b| == 8
    ensures Store(Load(b)) == b
  {}

  lemma LoadXor(a: seq<byte>, b: seq<byte>)
    requires |a| == 8 == |b|
    ensures Load(Xor(a, b)) == Load(a) ^ Load(b)
  {
    var c := Xor(a, b);
    assert c[0] == a[0] ^ b[0] && c[1] == a[1] ^ b[1] && c[2] == a[2] ^ b[2] && c[3] == a[3] ^ b[3];
    assert c[4] == a[4] ^ b[4] && c[5] == a[5] ^ b[5] && c[6] == a[6] ^ b[6] && c[7] == a[7] ^ b[7];
  }

  lemma LoadZeros()
    ensures Load(Zeros(8)) == 0
  {}

  /** Little-endian lanes keep bytes exactly and turn combined bytes into combined lanes. */
  lemma CodecIsLawful()
    ensures Lawful(CODEC)
  {
    hide Load;
    hide Store;
    LoadZeros();
    forall x: bv64 ensures |CODEC.store(x)| == 8 && CODEC.load(CODEC.store(x)) == x { LoadStore(x); }
    forall b: seq<byte> | |b| == 8 ensures CODEC.store(CODEC.load(b)) == b { StoreLoad(b); }
    forall a: seq<byte>, b: seq<byte> | |a| == 8 == |b|
      ensures CODEC.load(Xor(a, b)) == CODEC.ops.xor(CODEC.load(a), CODEC.load(b))
    {
      LoadXor(a, b);
    }
  }

  // ----- the round constants as the linear feedback shift register of FIPS 202 algorithm 5

  /** Bit i of the register is R[i] of the standard. */
  function Step(r: bv8): bv8 {
    (r << 1) ^ if r & 0x80 != 0 then 0x71 else 0
  }

  function Register(t: nat): bv8 {
    if t == 0 then 1 else Step(Register(t - 1))
  }

  /** Seven steps place one output bit each at the positions 2^j - 1. */
  function Assemble(r: bv8): bv64 {
    var r1 := Step(r);
    var r2 := Step(r1);
    var r3 := Step(r2);
    var r4 := Step(r3);
    var r5 := Step(r4);
    var r6 := Step(r5);
    ((r & 1) as bv64) | (((r1 & 1) as bv64) << 1) | (((r2 & 1) as bv64) << 3) | (((r3 & 1) as bv64) << 7)
    | (((r4 & 1) as bv64) << 15) | (((r5 & 1) as bv64) << 31) | (((r6 & 1) as bv64) << 63)
  }

  lemma SevenSteps(t: nat)
    ensures Register(t + 7) == Seven(Register(t))
  {
    hide Step;
    assert Register(t + 2) == Step(Step(Register(t)));
    assert Register(t + 4) == Step(Step(Register(t + 2)));
    assert Register(t + 6) == Step(Step(Register(t + 4)));
  }

  /** The register at the start of each round. */
  function AtRound(round: nat): bv8 {
    match round
    case 0 => 1
    case 1 => 128
    case 2 => 216
    case 3 => 26
    case 4 => 223
    case 5 => 9
    case 6 => 53
    case 7 => 79
    case 8 => 202
    case 9 => 112
    case 10 => 65
    case 11 => 236
    case 12 => 213
    case 13 => 205
    case 14 => 99
    case 15 => 171
    case 16 => 170
    case 17 => 42
    case 18 => 242
    case 19 => 232
    case 20 => 55
    case 21 => 62
    case 22 => 11
    case 23 => 68
    case _ => 0
  }

  function Seven(r: bv8): bv8 {
    Step(Step(Step(Step(Step(Step(Step(r)))))))
  }

  lemma NextRound(round: nat)
    requires round < ROUNDS - 1
    ensures AtRound(round + 1) == Seven(AtRound(round))
  {
    match round
    case 0 =>
    case 1 =>
    case 2 =>
    case 3 =>
    case 4 =>
    case 5 =>
    case 6 =>
    case 7 =>
    case 8 =>
    case 9 =>
    case 10 =>
    case 11 =>
    case 12 =>
    case 13 =>
    case 14 =>
    case 15 =>
    case 16 =>
    case 17 =>
    case 18 =>
    case 19 =>
    case 20 =>
    case 21 =>
    case _ =>
  }

  lemma Start()
    ensures Register(0) == AtRound(0)
  {}

  lemma {:induction false} Registers(round: nat, t: nat)
    requires round < ROUNDS && t == 7 * round
    ensures Register(t) == AtRound(round)
    decreases round
  {
    hide AtRound;
    hide Register;
    hide Seven;
    if round == 0 {
      Start();
    } else {
      Registers(round - 1, t - 7);
      SevenSteps(t - 7);
      NextRound(round - 1);
    }
  }

  /** The table of round constants is the one the standard derives. */
  lemma ConstantsAreDerived(round: nat)
    requires round < ROUNDS
    ensures Constant(round) == Assemble(Register(7 * round))
  {
    Registers(round, 7 * round);
    hide Register;
    match round
    case 0 =>
    case 1 =>
    case 2 =>
    case 3 =>
    case 4 =>
    case 5 =>
    case 6 =>
    case 7 =>
    case 8 =>
    case 9 =>
    case 10 =>
    case 11 =>
    case 12 =>
    case 13 =>
    case 14 =>
    case 15 =>
    case 16 =>
    case 17 =>
    case 18 =>
    case 19 =>
    case 20 =>
    case 21 =>
    case 22 =>
    case _ =>
  }
}
