/**
 How the bit strings of FIPS 202 lie in the lanes: bit z of lane k of a state is bit 64 * k + z of
 the byte string it is loaded from (sections 3.1.2 and B.1).
 */
module StateBits {
  import opened Words
  import opened Bytes
  import opened Sponge
  import opened Padding
  import opened Lanes64
  import opened KeccakBits

  // ----- the bits of a word and of its bytes

  /** Byte i of a word, from its low end. */
  function Octet(x: bv64, i: nat): bv64 {
    match i
    case 0 => x & 0xff
    case 1 => (x >> 8) & 0xff
    case 2 => (x >> 16) & 0xff
    case 3 => (x >> 24) & 0xff
    case 4 => (x >> 32) & 0xff
    case 5 => (x >> 40) & 0xff
    case 6 => (x >> 48) & 0xff
    case _ => (x >> 56) & 0xff
  }

  predicate IsOctet(y: bv64) {
    y < 256
  }

  lemma LowOctets(b0: bv64, b1: bv64, b2: bv64, b3: bv64, b4: bv64, b5: bv64, b6: bv64, b7: bv64)
    requires IsOctet(b0) && IsOctet(b1) && IsOctet(b2) && IsOctet(b3) && IsOctet(b4) && IsOctet(b5) && IsOctet(b6) && IsOctet(b7)
    ensures var x := Join(b0, b1, b2, b3, b4, b5, b6, b7);
      Octet(x, 0) == b0 && Octet(x, 1) == b1 && Octet(x, 2) == b2 && Octet(x, 3) == b3
  {}

  lemma HighOctets(b0: bv64, b1: bv64, b2: bv64, b3: bv64, b4: bv64, b5: bv64, b6: bv64, b7: bv64)
    requires IsOctet(b0) && IsOctet(b1) && IsOctet(b2) && IsOctet(b3) && IsOctet(b4) && IsOctet(b5) && IsOctet(b6) && IsOctet(b7)
    ensures var x := Join(b0, b1, b2, b3, b4, b5, b6, b7);
      Octet(x, 4) == b4 && Octet(x, 5) == b5 && Octet(x, 6) == b6 && Octet(x, 7) == b7
  {}

  predicate Masked(y: bv64, j: nat)
    requires j < 8
  {
    match j
    case 0 => y & 1 != 0
    case 1 => y & 2 != 0
    case 2 => y & 4 != 0
    case 3 => y & 8 != 0
    case 4 => y & 16 != 0
    case 5 => y & 32 != 0
    case 6 => y & 64 != 0
    case _ => y & 128 != 0
  }

  lemma OctetBits0(x: bv64)
    ensures Bit(x, 0) <==> Masked(Octet(x, 0), 0)
    ensures Bit(x, 1) <==> Masked(Octet(x, 0), 1)
    ensures Bit(x, 2) <==> Masked(Octet(x, 0), 2)
    ensures Bit(x, 3) <==> Masked(Octet(x, 0), 3)
    ensures Bit(x, 4) <==> Masked(Octet(x, 0), 4)
    ensures Bit(x, 5) <==> Masked(Octet(x, 0), 5)
    ensures Bit(x, 6) <==> Masked(Octet(x, 0), 6)
    ensures Bit(x, 7) <==> Masked(Octet(x, 0), 7)
  {}

  lemma OctetBits1(x: bv64)
    ensures Bit(x, 8) <==> Masked(Octet(x, 1), 0)
    ensures Bit(x, 9) <==> Masked(Octet(x, 1), 1)
    ensures Bit(x, 10) <==> Masked(Octet(x, 1), 2)
    ensures Bit(x, 11) <==> Masked(Octet(x, 1), 3)
    ensures Bit(x, 12) <==> Masked(Octet(x, 1), 4)
    ensures Bit(x, 13) <==> Masked(Octet(x, 1), 5)
    ensures Bit(x, 14) <==> Masked(Octet(x, 1), 6)
    ensures Bit(x, 15) <==> Masked(Octet(x, 1), 7)
  {}

  lemma OctetBits2(x: bv64)
    ensures Bit(x, 16) <==> Masked(Octet(x, 2), 0)
    ensures Bit(x, 17) <==> Masked(Octet(x, 2), 1)
    ensures Bit(x, 18) <==> Masked(Octet(x, 2), 2)
    ensures Bit(x, 19) <==> Masked(Octet(x, 2), 3)
    ensures Bit(x, 20) <==> Masked(Octet(x, 2), 4)
    ensures Bit(x, 21) <==> Masked(Octet(x, 2), 5)
    ensures Bit(x, 22) <==> Masked(Octet(x, 2), 6)
    ensures Bit(x, 23) <==> Masked(Octet(x, 2), 7)
  {}

  lemma OctetBits3(x: bv64)
    ensures Bit(x, 24) <==> Masked(Octet(x, 3), 0)
    ensures Bit(x, 25) <==> Masked(Octet(x, 3), 1)
    ensures Bit(x, 26) <==> Masked(Octet(x, 3), 2)
    ensures Bit(x, 27) <==> Masked(Octet(x, 3), 3)
    ensures Bit(x, 28) <==> Masked(Octet(x, 3), 4)
    ensures Bit(x, 29) <==> Masked(Octet(x, 3), 5)
    ensures Bit(x, 30) <==> Masked(Octet(x, 3), 6)
    ensures Bit(x, 31) <==> Masked(Octet(x, 3), 7)
  {}

  lemma OctetBits4(x: bv64)
    ensures Bit(x, 32) <==> Masked(Octet(x, 4), 0)
    ensures Bit(x, 33) <==> Masked(Octet(x, 4), 1)
    ensures Bit(x, 34) <==> Masked(Octet(x, 4), 2)
    ensures Bit(x, 35) <==> Masked(Octet(x, 4), 3)
    ensures Bit(x, 36) <==> Masked(Octet(x, 4), 4)
    ensures Bit(x, 37) <==> Masked(Octet(x, 4), 5)
    ensures Bit(x, 38) <==> Masked(Octet(x, 4), 6)
    ensures Bit(x, 39) <==> Masked(Octet(x, 4), 7)
  {}

  lemma OctetBits5(x: bv64)
    ensures Bit(x, 40) <==> Masked(Octet(x, 5), 0)
    ensures Bit(x, 41) <==> Masked(Octet(x, 5), 1)
    ensures Bit(x, 42) <==> Masked(Octet(x, 5), 2)
    ensures Bit(x, 43) <==> Masked(Octet(x, 5), 3)
    ensures Bit(x, 44) <==> Masked(Octet(x, 5), 4)
    ensures Bit(x, 45) <==> Masked(Octet(x, 5), 5)
    ensures Bit(x, 46) <==> Masked(Octet(x, 5), 6)
    ensures Bit(x, 47) <==> Masked(Octet(x, 5), 7)
  {}

  lemma OctetBits6(x: bv64)
    ensures Bit(x, 48) <==> Masked(Octet(x, 6), 0)
    ensures Bit(x, 49) <==> Masked(Octet(x, 6), 1)
    ensures Bit(x, 50) <==> Masked(Octet(x, 6), 2)
    ensures Bit(x, 51) <==> Masked(Octet(x, 6), 3)
    ensures Bit(x, 52) <==> Masked(Octet(x, 6), 4)
    ensures Bit(x, 53) <==> Masked(Octet(x, 6), 5)
    ensures Bit(x, 54) <==> Masked(Octet(x, 6), 6)
    ensures Bit(x, 55) <==> Masked(Octet(x, 6), 7)
  {}

  lemma OctetBits7(x: bv64)
    ensures Bit(x, 56) <==> Masked(Octet(x, 7), 0)
    ensures Bit(x, 57) <==> Masked(Octet(x, 7), 1)
    ensures Bit(x, 58) <==> Masked(Octet(x, 7), 2)
    ensures Bit(x, 59) <==> Masked(Octet(x, 7), 3)
    ensures Bit(x, 60) <==> Masked(Octet(x, 7), 4)
    ensures Bit(x, 61) <==> Masked(Octet(x, 7), 5)
    ensures Bit(x, 62) <==> Masked(Octet(x, 7), 6)
    ensures Bit(x, 63) <==> Masked(Octet(x, 7), 7)
  {}

  lemma Widened(y: byte)
    ensures Masked(Wide(y), 0) <==> y & 1 != 0
    ensures Masked(Wide(y), 1) <==> y & 2 != 0
    ensures Masked(Wide(y), 2) <==> y & 4 != 0
    ensures Masked(Wide(y), 3) <==> y & 8 != 0
    ensures Masked(Wide(y), 4) <==> y & 16 != 0
    ensures Masked(Wide(y), 5) <==> y & 32 != 0
    ensures Masked(Wide(y), 6) <==> y & 64 != 0
    ensures Masked(Wide(y), 7) <==> y & 128 != 0
  {}

  lemma Place0(x: bv64, z: nat)
    requires 0 <= z < 8
    ensures Bit(x, Word(z)) <==> Masked(Octet(x, 0), z - 0)
  {
    hide Word;
    hide Bit;
    hide Octet;
    hide Masked;
    OctetBits0(x);
    WordOf(z);
    if z == 0 {} else if z == 1 {} else if z == 2 {} else if z == 3 {} else if z == 4 {} else if z == 5 {} else if z == 6 {} else if z == 7 {}
  }

  lemma Place1(x: bv64, z: nat)
    requires 8 <= z < 16
    ensures Bit(x, Word(z)) <==> Masked(Octet(x, 1), z - 8)
  {
    hide Word;
    hide Bit;
    hide Octet;
    hide Masked;
    OctetBits1(x);
    WordOf(z);
    if z == 8 {} else if z == 9 {} else if z == 10 {} else if z == 11 {} else if z == 12 {} else if z == 13 {} else if z == 14 {} else if z == 15 {}
  }

  lemma Place2(x: bv64, z: nat)
    requires 16 <= z < 24
    ensures Bit(x, Word(z)) <==> Masked(Octet(x, 2), z - 16)
  {
    hide Word;
    hide Bit;
    hide Octet;
    hide Masked;
    OctetBits2(x);
    WordOf(z);
    if z == 16 {} else if z == 17 {} else if z == 18 {} else if z == 19 {} else if z == 20 {} else if z == 21 {} else if z == 22 {} else if z == 23 {}
  }

  lemma Place3(x: bv64, z: nat)
    requires 24 <= z < 32
    ensures Bit(x, Word(z)) <==> Masked(Octet(x, 3), z - 24)
  {
    hide Word;
    hide Bit;
    hide Octet;
    hide Masked;
    OctetBits3(x);
    WordOf(z);
    if z == 24 {} else if z == 25 {} else if z == 26 {} else if z == 27 {} else if z == 28 {} else if z == 29 {} else if z == 30 {} else if z == 31 {}
  }

  lemma Place4(x: bv64, z: nat)
    requires 32 <= z < 40
    ensures Bit(x, Word(z)) <==> Masked(Octet(x, 4), z - 32)
  {
    hide Word;
    hide Bit;
    hide Octet;
    hide Masked;
    OctetBits4(x);
    WordOf(z);
    if z == 32 {} else if z == 33 {} else if z == 34 {} else if z == 35 {} else if z == 36 {} else if z == 37 {} else if z == 38 {} else if z == 39 {}
  }

  lemma Place5(x: bv64, z: nat)
    requires 40 <= z < 48
    ensures Bit(x, Word(z)) <==> Masked(Octet(x, 5), z - 40)
  {
    hide Word;
    hide Bit;
    hide Octet;
    hide Masked;
    OctetBits5(x);
    WordOf(z);
    if z == 40 {} else if z == 41 {} else if z == 42 {} else if z == 43 {} else if z == 44 {} else if z == 45 {} else if z == 46 {} else if z == 47 {}
  }

  lemma Place6(x: bv64, z: nat)
    requires 48 <= z < 56
    ensures Bit(x, Word(z)) <==> Masked(Octet(x, 6), z - 48)
  {
    hide Word;
    hide Bit;
    hide Octet;
    hide Masked;
    OctetBits6(x);
    WordOf(z);
    if z == 48 {} else if z == 49 {} else if z == 50 {} else if z == 51 {} else if z == 52 {} else if z == 53 {} else if z == 54 {} else if z == 55 {}
  }

  lemma Place7(x: bv64, z: nat)
    requires 56 <= z < 64
    ensures Bit(x, Word(z)) <==> Masked(Octet(x, 7), z - 56)
  {
    hide Word;
    hide Bit;
    hide Octet;
    hide Masked;
    OctetBits7(x);
    WordOf(z);
    if z == 56 {} else if z == 57 {} else if z == 58 {} else if z == 59 {} else if z == 60 {} else if z == 61 {} else if z == 62 {} else if z == 63 {}
  }

  lemma PlaceOf(x: bv64, z: nat)
    requires z < 64
    ensures Bit(x, Word(z)) <==> Masked(Octet(x, z / 8), z % 8)
  {
    hide Word;
    hide Bit;
    hide Octet;
    hide Masked;
    if z < 8 {
      Place0(x, z);
    } else if z < 16 {
      Place1(x, z);
    } else if z < 24 {
      Place2(x, z);
    } else if z < 32 {
      Place3(x, z);
    } else if z < 40 {
      Place4(x, z);
    } else if z < 48 {
      Place5(x, z);
    } else if z < 56 {
      Place6(x, z);
    } else {
      Place7(x, z);
    }
  }

  lemma ByteBitsMasked(y: byte, j: nat)
    requires j < 8
    ensures ByteBits(y)[j] <==> Masked(Wide(y), j)
  {
    hide Masked;
    hide Wide;
    Widened(y);
    if j == 0 {} else if j == 1 {} else if j == 2 {} else if j == 3 {} else if j == 4 {} else if j == 5 {} else if j == 6 {} else {}
  }

  lemma Narrow(y: byte)
    ensures IsOctet(Wide(y))
  {}

  lemma LoadedOctets(b: seq<byte>, i: nat)
    requires |b| == 8 && i < 8
    ensures Octet(Load(b), i) == Wide(b[i])
  {
    hide Wide;
    hide Join;
    hide Octet;
    hide Masked;
    hide IsOctet;
    var b0, b1, b2, b3, b4, b5, b6, b7 := b[0], b[1], b[2], b[3], b[4], b[5], b[6], b[7];
    Narrow(b0);
    Narrow(b1);
    Narrow(b2);
    Narrow(b3);
    Narrow(b4);
    Narrow(b5);
    Narrow(b6);
    Narrow(b7);
    LowOctets(Wide(b0), Wide(b1), Wide(b2), Wide(b3), Wide(b4), Wide(b5), Wide(b6), Wide(b7));
    HighOctets(Wide(b0), Wide(b1), Wide(b2), Wide(b3), Wide(b4), Wide(b5), Wide(b6), Wide(b7));
    if i == 0 {} else if i == 1 {} else if i == 2 {} else if i == 3 {} else if i == 4 {} else if i == 5 {} else if i == 6 {} else {}
  }

  /** `ptr_to_le64`: bit z of the lane is bit z mod 8 of byte z / 8. */
  lemma LoadBits(b: seq<byte>, z: nat)
    requires |b| == 8 && z < 64
    ensures Bit(Load(b), Word(z)) <==> ByteBits(b[z / 8])[z % 8]
  {
    hide Word;
    hide Wide;
    hide Bit;
    hide Load;
    hide Octet;
    hide ByteBits;
    hide Masked;
    PlaceOf(Load(b), z);
    LoadedOctets(b, z / 8);
    ByteBitsMasked(b[z / 8], z % 8);
  }

  // ----- the state

  lemma {:induction false} BitStringAt(m: seq<byte>, i: nat, j: nat)
    requires i < |m| && j < 8
    ensures BitString(m)[8 * i + j] <==> ByteBits(m[i])[j]
  {
    hide ByteBits;
    if i > 0 {
      BitStringAt(m[1..], i - 1, j);
    }
  }

  /** Section 3.1.2: A[x, y, z] is S[64 * (5y + x) + z]. */
  lemma LaneBits(s: seq<byte>, k: nat, z: nat)
    requires |s| == WIDTH && k < 25 && z < 64
    ensures BIT(LanesOf(s, CODEC)[k], Word(z)) <==> BitString(s)[64 * k + z]
  {
    hide Word;
    hide Load;
    hide ByteBits;
    hide BitString;
    hide Bit;
    var b := Slice(s, k);
    LoadBits(b, z);
    BitStringAt(s, 8 * k + z / 8, z % 8);
    assert b[z / 8] == s[8 * k + z / 8];
    assert 8 * (8 * k + z / 8) + z % 8 == 64 * k + z;
  }

  /** Section 3.1.3: the bit string of a state is its lanes one after the other. */
  lemma EmittedBits(lanes: seq<bv64>, k: nat, z: nat)
    requires |lanes| == 25 && k < 25 && z < 64
    ensures |Emit(lanes, 25, CODEC)| == WIDTH
    ensures BitString(Emit(lanes, 25, CODEC))[64 * k + z] <==> BIT(lanes[k], Word(z))
  {
    hide Word;
    hide Load;
    hide Store;
    hide BitString;
    hide Bit;
    hide Emit;
    CodecIsLawful();
    EmitSlice(lanes, 25, k, CODEC);
    LoadStore(lanes[k]);
    LaneBits(Emit(lanes, 25, CODEC), k, z);
  }
}
