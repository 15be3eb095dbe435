/**
 The step mappings on the bits A[x, y, z] of sections 3.1 and 3.2 of FIPS 202: bit z of lane
 x + 5 * y. They hold for all lanes whose operations work bit by bit; 64-bit words do.
 */
module KeccakBits {
  import opened KeccakSpec
  import opened Lanes64

  type Bits<!T> = (T, bv64) -> bool

  /** The rotation distances of rho. The first is also that of theta. */
  predicate IsOffset(n: nat): (r: bool)
    ensures r ==> n < 64
  {
    || n in {1, 3, 6, 10, 15, 21} || n in {28, 36, 45, 55, 2, 14}
    || n in {27, 41, 56, 8, 25, 43} || n in {62, 18, 39, 61, 20, 44}
  }

  /** The place from which a rotation by `n` brings a bit to place `z`. */
  function Before(z: bv64, n: nat): (y: bv64)
    ensures y < 64
  {
    (z - Word(n)) & 63
  }

  ghost predicate Bitwise<T(!new)>(o: Ops<T>, bit: Bits<T>) {
    && (forall a, b, z :: z < 64 ==> (bit(o.xor(a, b), z) <==> bit(a, z) != bit(b, z)))
    && (forall a, b, z :: z < 64 ==> (bit(o.andNot(a, b), z) <==> !bit(a, z) && bit(b, z)))
    && (forall a, n, z :: IsOffset(n) && z < 64 ==> (bit(o.rol(a, n), z) <==> bit(a, Before(z, n))))
  }

  // ----- theta

  function Parity<T>(s: seq<T>, x: nat, z: bv64, bit: Bits<T>): bool
    requires |s| == 25 && x < 5
  {
    (((bit(s[x], z) != bit(s[x + 5], z)) != bit(s[x + 10], z)) != bit(s[x + 15], z)) != bit(s[x + 20], z)
  }

  lemma ColumnBit<T(!new)>(s: seq<T>, x: nat, z: bv64, o: Ops<T>, bit: Bits<T>)
    requires Bitwise(o, bit) && |s| == 25 && x < 5 && z < 64
    ensures bit(Column(s, x, o), z) <==> Parity(s, x, z, bit)
  {
    hide IsOffset;
    hide Before;
  }

  /** Section 3.2.1: each bit is combined with the parities of two columns. */
  lemma ThetaBits<T(!new)>(s: seq<T>, k: nat, z: bv64, o: Ops<T>, bit: Bits<T>)
    requires Bitwise(o, bit) && |s| == 25 && k < 25 && z < 64
    ensures bit(Theta(s, o)[k], z) <==>
      (bit(s[k], z) != (Parity(s, (k % 5 + 4) % 5, z, bit) != Parity(s, (k % 5 + 1) % 5, Before(z, 1), bit)))
  {
    hide Parity;
    hide Column;
    hide Before;
    var left, right := Column(s, (k % 5 + 4) % 5, o), Column(s, (k % 5 + 1) % 5, o);
    ColumnBit(s, (k % 5 + 4) % 5, z, o, bit);
    ColumnBit(s, (k % 5 + 1) % 5, Before(z, 1), o, bit);
    assert IsOffset(1);
    hide IsOffset;
    assert bit(o.rol(right, 1), z) <==> bit(right, Before(z, 1));
    assert bit(o.xor(left, o.rol(right, 1)), z) <==> bit(left, z) != bit(o.rol(right, 1), z);
    assert ThetaEffect(s, X(k), o) == o.xor(left, o.rol(right, 1));
    hide ThetaEffect;
    assert Theta(s, o)[k] == o.xor(s[k], ThetaEffect(s, X(k), o));
  }

  // ----- rho

  lemma Offsets(t: nat)
    requires t < 24
    ensures IsOffset(Triangle(t)) && Triangle(t) < 64
  {
    if t < 8 {
      if t == 0 {} else if t == 1 {} else if t == 2 {} else if t == 3 {}
      else if t == 4 {} else if t == 5 {} else if t == 6 {} else {}
    } else if t < 16 {
      if t == 8 {} else if t == 9 {} else if t == 10 {} else if t == 11 {}
      else if t == 12 {} else if t == 13 {} else if t == 14 {} else {}
    } else {
      if t == 16 {} else if t == 17 {} else if t == 18 {} else if t == 19 {}
      else if t == 20 {} else if t == 21 {} else if t == 22 {} else {}
    }
  }

  lemma Visited(k: nat)
    requires 0 < k < 25
    ensures VisitFrom(k, 0) < 24
  {
    hide VisitFrom;
    Visits0();
    Visits1();
    Visits2();
  }

  /** Section 3.2.2: within its lane a bit moves by the triangular number of the step that visits the lane. */
  lemma RhoBits<T(!new)>(s: seq<T>, k: nat, z: bv64, o: Ops<T>, bit: Bits<T>)
    requires Bitwise(o, bit) && |s| == 25 && k < 25 && z < 64
    ensures bit(Rho(s, o)[0], z) <==> bit(s[0], z)
    ensures k > 0 ==>
      var offset := Triangle(VisitFrom(k, 0));
      offset < 64 && (bit(Rho(s, o)[k], z) <==> bit(s[k], Before(z, offset)))
  {
    hide Triangle;
    hide VisitFrom;
    hide IsOffset;
    hide Before;
    if k > 0 {
      Visited(k);
      Offsets(VisitFrom(k, 0));
    }
  }

  // ----- pi, chi and iota

  /** Section 3.2.3: bit (x, y, z) is bit (x + 3y, x, z) of the old state. */
  lemma PiBits<T(!new)>(s: seq<T>, k: nat, z: bv64, bit: Bits<T>)
    requires |s| == 25 && k < 25
    ensures bit(Pi(s)[k], z) <==> bit(s[(k % 5 + 3 * (k / 5)) % 5 + 5 * (k % 5)], z)
  {}

  lemma TwoRight(k: nat)
    requires k < 25
    ensures Right(k) == k - k % 5 + (k % 5 + 1) % 5 && Right(Right(k)) == k - k % 5 + (k % 5 + 2) % 5
  {}

  /** Section 3.2.4: each bit is combined with a product of the two to its right in the row. */
  lemma ChiBits<T(!new)>(s: seq<T>, k: nat, z: bv64, o: Ops<T>, bit: Bits<T>)
    requires Bitwise(o, bit) && |s| == 25 && k < 25 && z < 64
    ensures var x, row := k % 5, k - k % 5;
      bit(Chi(s, o)[k], z) <==> (bit(s[k], z) != (!bit(s[row + (x + 1) % 5], z) && bit(s[row + (x + 2) % 5], z)))
  {
    hide IsOffset;
    hide Before;
    hide Right;
    TwoRight(k);
  }

  /** Section 3.2.5: the bits of lane (0, 0) are combined with those of the round constant, no other bit changes. */
  lemma IotaBits<T(!new)>(s: seq<T>, round: nat, k: nat, z: bv64, o: Ops<T>, bit: Bits<T>)
    requires Bitwise(o, bit) && |s| == 25 && k < 25 && z < 64
    ensures bit(Iota(s, round, o)[k], z) <==> (bit(s[k], z) != (k == 0 && bit(o.constant(round), z)))
  {
    hide IsOffset;
    hide Before;
  }

  // ----- 64-bit words

  predicate Bit(x: bv64, z: bv64) {
    z < 64 && (x >> z) & 1 == 1
  }

  const BIT: Bits<bv64> := (x, z) => Bit(x, z)

  lemma RolBits1(x: bv64, n: bv64, z: bv64)
    requires n in {1, 3, 6, 10, 15, 21} && z < 64
    ensures Bit(Rol(x, n), z) <==> Bit(x, (z - n) & 63)
  {
    if n == 1 {}
    else if n == 3 {}
    else if n == 6 {}
    else if n == 10 {}
    else if n == 15 {}
    else if n == 21 {}
  }

  lemma Distance1(n: nat)
    requires n in {1, 3, 6, 10, 15, 21}
    ensures n as bv64 in {1, 3, 6, 10, 15, 21}
  {
    if n == 1 {} else if n == 3 {} else if n == 6 {} else if n == 10 {} else if n == 15 {} else if n == 21 {}
  }

  lemma RolBits2(x: bv64, n: bv64, z: bv64)
    requires n in {28, 36, 45, 55, 2, 14} && z < 64
    ensures Bit(Rol(x, n), z) <==> Bit(x, (z - n) & 63)
  {
    if n == 28 {}
    else if n == 36 {}
    else if n == 45 {}
    else if n == 55 {}
    else if n == 2 {}
    else if n == 14 {}
  }

  lemma Distance2(n: nat)
    requires n in {28, 36, 45, 55, 2, 14}
    ensures n as bv64 in {28, 36, 45, 55, 2, 14}
  {
    if n == 28 {} else if n == 36 {} else if n == 45 {} else if n == 55 {} else if n == 2 {} else if n == 14 {}
  }

  lemma RolBits3(x: bv64, n: bv64, z: bv64)
    requires n in {27, 41, 56, 8, 25, 43} && z < 64
    ensures Bit(Rol(x, n), z) <==> Bit(x, (z - n) & 63)
  {
    if n == 27 {}
    else if n == 41 {}
    else if n == 56 {}
    else if n == 8 {}
    else if n == 25 {}
    else if n == 43 {}
  }

  lemma Distance3(n: nat)
    requires n in {27, 41, 56, 8, 25, 43}
    ensures n as bv64 in {27, 41, 56, 8, 25, 43}
  {
    if n == 27 {} else if n == 41 {} else if n == 56 {} else if n == 8 {} else if n == 25 {} else if n == 43 {}
  }

  lemma RolBits4(x: bv64, n: bv64, z: bv64)
    requires n in {62, 18, 39, 61, 20, 44} && z < 64
    ensures Bit(Rol(x, n), z) <==> Bit(x, (z - n) & 63)
  {
    if n == 62 {}
    else if n == 18 {}
    else if n == 39 {}
    else if n == 61 {}
    else if n == 20 {}
    else if n == 44 {}
  }

  lemma Distance4(n: nat)
    requires n in {62, 18, 39, 61, 20, 44}
    ensures n as bv64 in {62, 18, 39, 61, 20, 44}
  {
    if n == 62 {} else if n == 18 {} else if n == 39 {} else if n == 61 {} else if n == 20 {} else if n == 44 {}
  }

  lemma XorBit(a: bv64, b: bv64, z: bv64)
    requires z < 64
    ensures Bit(a ^ b, z) <==> Bit(a, z) != Bit(b, z)
  {}

  lemma AndNotBit(a: bv64, b: bv64, z: bv64)
    requires z < 64
    ensures Bit(!a & b, z) <==> !Bit(a, z) && Bit(b, z)
  {}

  predicate IsOffsetWord(n: bv64): (r: bool)
    ensures r ==> n < 64
  {
    || n in {1, 3, 6, 10, 15, 21} || n in {28, 36, 45, 55, 2, 14}
    || n in {27, 41, 56, 8, 25, 43} || n in {62, 18, 39, 61, 20, 44}
  }

  /** A rotation moves bit z - n to bit z. */
  lemma RolMovesBits(x: bv64, n: bv64, z: bv64)
    requires IsOffsetWord(n) && z < 64
    ensures Bit(Rol(x, n), z) <==> Bit(x, (z - n) & 63)
  {
    hide Bit;
    hide Rol;
    if n in {1, 3, 6, 10, 15, 21} {
      RolBits1(x, n, z);
    } else if n in {28, 36, 45, 55, 2, 14} {
      RolBits2(x, n, z);
    } else if n in {27, 41, 56, 8, 25, 43} {
      RolBits3(x, n, z);
    } else {
      RolBits4(x, n, z);
    }
  }

  lemma WordOf(n: nat)
    requires n < 64
    ensures Word(n) == n as bv64
  {
    assert n % 64 == n;
  }

  lemma Distance(n: nat)
    requires IsOffset(n)
    ensures IsOffsetWord(Word(n))
  {
    WordOf(n);
    hide Word;
    if n in {1, 3, 6, 10, 15, 21} {
      Distance1(n);
    } else if n in {28, 36, 45, 55, 2, 14} {
      Distance2(n);
    } else if n in {27, 41, 56, 8, 25, 43} {
      Distance3(n);
    } else {
      Distance4(n);
    }
  }

  lemma RolLaw(x: bv64, n: nat, z: bv64)
    requires IsOffset(n) && z < 64
    ensures BIT(OPS.rol(x, n), z) <==> BIT(x, Before(z, n))
  {
    hide Bit;
    hide Rol;
    hide IsOffset;
    hide IsOffsetWord;
    hide Word;
    Distance(n);
    RolMovesBits(x, Word(n), z);
  }

  lemma XorLaw(a: bv64, b: bv64, z: bv64)
    requires z < 64
    ensures BIT(OPS.xor(a, b), z) <==> BIT(a, z) != BIT(b, z)
  {
    hide Bit;
    XorBit(a, b, z);
  }

  lemma AndNotLaw(a: bv64, b: bv64, z: bv64)
    requires z < 64
    ensures BIT(OPS.andNot(a, b), z) <==> !BIT(a, z) && BIT(b, z)
  {
    AndNotBit(a, b, z);
    hide Bit;
  }

  lemma RolLaws()
    ensures forall a: bv64, n: nat, z: bv64 :: IsOffset(n) && z < 64 ==> (BIT(OPS.rol(a, n), z) <==> BIT(a, Before(z, n)))
  {
    hide Before;
    hide IsOffset;
    forall a: bv64, n: nat, z: bv64 | IsOffset(n) && z < 64 ensures BIT(OPS.rol(a, n), z) <==> BIT(a, Before(z, n)) {
      RolLaw(a, n, z);
    }
  }

  /** The word operations of the C code work bit by bit. */
  lemma WordsAreBitwise()
    ensures Bitwise(OPS, BIT)
  {
    hide Before;
    hide IsOffset;
    forall a: bv64, b: bv64, z: bv64 | z < 64 ensures BIT(OPS.xor(a, b), z) <==> BIT(a, z) != BIT(b, z) {
      XorLaw(a, b, z);
    }
    forall a: bv64, b: bv64, z: bv64 | z < 64 ensures BIT(OPS.andNot(a, b), z) <==> !BIT(a, z) && BIT(b, z) {
      AndNotLaw(a, b, z);
    }
    RolLaws();
  }
}
