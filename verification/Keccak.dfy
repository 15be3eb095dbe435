/**
 The step mappings of Keccak-p with 24 rounds as sections 3.2 and 3.3 of FIPS 202 define them.
 They are stated over the lane operations, whatever the lanes are; lane (x, y) is element
 x + 5 * y of the state.
 */
module KeccakSpec {
  const ROUNDS: nat := 24

  datatype Ops<!T> = Ops(
    xor: (T, T) -> T,
    andNot: (T, T) -> T,
    rol: (T, nat) -> T,
    constant: nat -> T)

  function Column<T>(s: seq<T>, x: nat, o: Ops<T>): T
    requires |s| == 25 && x < 5
  {
    o.xor(o.xor(o.xor(o.xor(s[x], s[x + 5]), s[x + 10]), s[x + 15]), s[x + 20])
  }

  function X(k: nat): (x: nat)
    ensures x < 5
  {
    k % 5
  }

  function ThetaEffect<T>(s: seq<T>, x: nat, o: Ops<T>): T
    requires |s| == 25 && x < 5
  {
    o.xor(Column(s, (x + 4) % 5, o), o.rol(Column(s, (x + 1) % 5, o), 1))
  }

  function Theta<T>(s: seq<T>, o: Ops<T>): (r: seq<T>)
    requires |s| == 25
    ensures |r| == 25
  {
    seq(25, k requires 0 <= k < 25 => o.xor(s[k], ThetaEffect(s, X(k), o)))
  }

  /** The lane the walk of rho visits at step `t`. */
  function Walk(t: nat): (r: (nat, nat))
    ensures r.0 < 5 && r.1 < 5
  {
    if t == 0 then (1, 0) else
    var (x, y) := Walk(t - 1);
    (y, (2 * x + 3 * y) % 5)
  }

  function Triangle(t: nat): nat {
    (t + 1) * (t + 2) / 2 % 64
  }

  /** The step at which the walk visits lane `k`, looking from step `t` on. */
  function VisitFrom(k: nat, t: nat): (r: nat)
    requires t <= 24
    ensures t <= r <= 24
    decreases 24 - t
  {
    if t == 24 || Walk(t).0 + 5 * Walk(t).1 == k then t else VisitFrom(k, t + 1)
  }

  function Rho<T>(s: seq<T>, o: Ops<T>): (r: seq<T>)
    requires |s| == 25
    ensures |r| == 25
  {
    seq(25, k requires 0 <= k < 25 => if k == 0 then s[0] else o.rol(s[k], Triangle(VisitFrom(k, 0))))
  }

  /** Lane (x, y) takes the value of lane (x + 3y, x). */
  function PiSource(k: nat): (j: nat)
    requires k < 25
    ensures j < 25
  {
    (k % 5 + 3 * (k / 5)) % 5 + 5 * (k % 5)
  }

  function Pi<T>(s: seq<T>): (r: seq<T>)
    requires |s| == 25
    ensures |r| == 25
  {
    seq(25, k requires 0 <= k < 25 => s[PiSource(k)])
  }

  /** The lane to the right in the same plane. */
  function Right(k: nat): (j: nat)
    requires k < 25
    ensures j < 25
  {
    k - k % 5 + (k % 5 + 1) % 5
  }

  function Chi<T>(s: seq<T>, o: Ops<T>): (r: seq<T>)
    requires |s| == 25
    ensures |r| == 25
  {
    seq(25, k requires 0 <= k < 25 => o.xor(s[k], o.andNot(s[Right(k)], s[Right(Right(k))])))
  }

  function Iota<T>(s: seq<T>, round: nat, o: Ops<T>): (r: seq<T>)
    requires |s| == 25
    ensures |r| == 25
  {
    s[0 := o.xor(s[0], o.constant(round))]
  }

  function Round<T>(s: seq<T>, round: nat, o: Ops<T>): (r: seq<T>)
    requires |s| == 25
    ensures |r| == 25
  {
    Iota(Chi(Pi(Rho(Theta(s, o), o)), o), round, o)
  }

  function Rounds<T>(s: seq<T>, n: nat, o: Ops<T>): (r: seq<T>)
    requires |s| == 25
    ensures |r| == 25
  {
    if n == 0 then s else Round(Rounds(s, n - 1, o), n - 1, o)
  }

  lemma Pointwise<T>(a: seq<T>, b: seq<T>)
    requires |a| == |b| == 25
    requires a[0] == b[0] && a[1] == b[1] && a[2] == b[2] && a[3] == b[3] && a[4] == b[4]
    requires a[5] == b[5] && a[6] == b[6] && a[7] == b[7] && a[8] == b[8] && a[9] == b[9]
    requires a[10] == b[10] && a[11] == b[11] && a[12] == b[12] && a[13] == b[13] && a[14] == b[14]
    requires a[15] == b[15] && a[16] == b[16] && a[17] == b[17] && a[18] == b[18] && a[19] == b[19]
    requires a[20] == b[20] && a[21] == b[21] && a[22] == b[22] && a[23] == b[23] && a[24] == b[24]
    ensures a == b
  {}

  lemma Columns()
    ensures X(0) == 0 && X(1) == 1 && X(2) == 2 && X(3) == 3 && X(4) == 4
    ensures X(5) == 0 && X(6) == 1 && X(7) == 2 && X(8) == 3 && X(9) == 4
    ensures X(10) == 0 && X(11) == 1 && X(12) == 2 && X(13) == 3 && X(14) == 4
    ensures X(15) == 0 && X(16) == 1 && X(17) == 2 && X(18) == 3 && X(19) == 4
    ensures X(20) == 0 && X(21) == 1 && X(22) == 2 && X(23) == 3 && X(24) == 4
  {}

  lemma PiSources()
    ensures PiSource(0) == 0 && PiSource(1) == 6 && PiSource(2) == 12 && PiSource(3) == 18 && PiSource(4) == 24
    ensures PiSource(5) == 3 && PiSource(6) == 9 && PiSource(7) == 10 && PiSource(8) == 16 && PiSource(9) == 22
    ensures PiSource(10) == 1 && PiSource(11) == 7 && PiSource(12) == 13 && PiSource(13) == 19 && PiSource(14) == 20
    ensures PiSource(15) == 4 && PiSource(16) == 5 && PiSource(17) == 11 && PiSource(18) == 17 && PiSource(19) == 23
    ensures PiSource(20) == 2 && PiSource(21) == 8 && PiSource(22) == 14 && PiSource(23) == 15 && PiSource(24) == 21
  {}

  lemma Neighbours()
    ensures Right(0) == 1 && Right(1) == 2 && Right(2) == 3 && Right(3) == 4 && Right(4) == 0
    ensures Right(5) == 6 && Right(6) == 7 && Right(7) == 8 && Right(8) == 9 && Right(9) == 5
    ensures Right(10) == 11 && Right(11) == 12 && Right(12) == 13 && Right(13) == 14 && Right(14) == 10
    ensures Right(15) == 16 && Right(16) == 17 && Right(17) == 18 && Right(18) == 19 && Right(19) == 15
    ensures Right(20) == 21 && Right(21) == 22 && Right(22) == 23 && Right(23) == 24 && Right(24) == 20
  {}

  /** The walk, step by step: it meets every lane but lane (0, 0) exactly once. */
  lemma WalkSteps()
    ensures Walk(0) == (1, 0) && Walk(1) == (0, 2) && Walk(2) == (2, 1) && Walk(3) == (1, 2)
    ensures Walk(4) == (2, 3) && Walk(5) == (3, 3) && Walk(6) == (3, 0) && Walk(7) == (0, 1)
    ensures Walk(8) == (1, 3) && Walk(9) == (3, 1) && Walk(10) == (1, 4) && Walk(11) == (4, 4)
    ensures Walk(12) == (4, 0) && Walk(13) == (0, 3) && Walk(14) == (3, 4) && Walk(15) == (4, 3)
    ensures Walk(16) == (3, 2) && Walk(17) == (2, 2) && Walk(18) == (2, 0) && Walk(19) == (0, 4)
    ensures Walk(20) == (4, 2) && Walk(21) == (2, 4) && Walk(22) == (4, 1) && Walk(23) == (1, 1)
  {
    assert Walk(0) == (1, 0);
    assert Walk(2) == (2, 1);
    assert Walk(4) == (2, 3);
    assert Walk(6) == (3, 0);
    assert Walk(8) == (1, 3);
    assert Walk(10) == (1, 4);
    assert Walk(12) == (4, 0);
    assert Walk(14) == (3, 4);
    assert Walk(16) == (3, 2);
    assert Walk(18) == (2, 0);
    assert Walk(20) == (4, 2);
    assert Walk(22) == (4, 1);
  }

  lemma Visit(k: nat, t: nat, from: nat)
    requires from <= t < 24 && Walk(t).0 + 5 * Walk(t).1 == k
    requires forall u :: from <= u < t ==> Walk(u).0 + 5 * Walk(u).1 != k
    ensures VisitFrom(k, from) == t
    decreases t - from
  {
    if from < t {
      Visit(k, t, from + 1);
    }
  }

  lemma Visits0()
    ensures VisitFrom(1, 0) == 0
    ensures VisitFrom(10, 0) == 1
    ensures VisitFrom(7, 0) == 2
    ensures VisitFrom(11, 0) == 3
    ensures VisitFrom(17, 0) == 4
    ensures VisitFrom(18, 0) == 5
    ensures VisitFrom(3, 0) == 6
    ensures VisitFrom(5, 0) == 7
  {
    WalkSteps();
    hide Walk;
    hide VisitFrom;
    Visit(1, 0, 0);
    Visit(10, 1, 0);
    Visit(7, 2, 0);
    Visit(11, 3, 0);
    Visit(17, 4, 0);
    Visit(18, 5, 0);
    Visit(3, 6, 0);
    Visit(5, 7, 0);
  }

  lemma Visits1()
    ensures VisitFrom(16, 0) == 8
    ensures VisitFrom(8, 0) == 9
    ensures VisitFrom(21, 0) == 10
    ensures VisitFrom(24, 0) == 11
    ensures VisitFrom(4, 0) == 12
    ensures VisitFrom(15, 0) == 13
    ensures VisitFrom(23, 0) == 14
    ensures VisitFrom(19, 0) == 15
  {
    WalkSteps();
    hide Walk;
    hide VisitFrom;
    Visit(16, 8, 0);
    Visit(8, 9, 0);
    Visit(21, 10, 0);
    Visit(24, 11, 0);
    Visit(4, 12, 0);
    Visit(15, 13, 0);
    Visit(23, 14, 0);
    Visit(19, 15, 0);
  }

  lemma Visits2()
    ensures VisitFrom(13, 0) == 16
    ensures VisitFrom(12, 0) == 17
    ensures VisitFrom(2, 0) == 18
    ensures VisitFrom(20, 0) == 19
    ensures VisitFrom(14, 0) == 20
    ensures VisitFrom(22, 0) == 21
    ensures VisitFrom(9, 0) == 22
    ensures VisitFrom(6, 0) == 23
  {
    WalkSteps();
    hide Walk;
    hide VisitFrom;
    Visit(13, 16, 0);
    Visit(12, 17, 0);
    Visit(2, 18, 0);
    Visit(20, 19, 0);
    Visit(14, 20, 0);
    Visit(22, 21, 0);
    Visit(9, 22, 0);
    Visit(6, 23, 0);
  }

}

/** The same steps in place on the state array. */
module Keccak {
  import opened KeccakSpec

  /** The array holds the lanes `v`, element by element. */
  ghost predicate Holds<T>(s: array<T>, v: seq<T>)
    reads s
  {
    s.Length == 25 == |v|
    && s[0] == v[0] && s[1] == v[1] && s[2] == v[2] && s[3] == v[3] && s[4] == v[4]
    && s[5] == v[5] && s[6] == v[6] && s[7] == v[7] && s[8] == v[8] && s[9] == v[9]
    && s[10] == v[10] && s[11] == v[11] && s[12] == v[12] && s[13] == v[13] && s[14] == v[14]
    && s[15] == v[15] && s[16] == v[16] && s[17] == v[17] && s[18] == v[18] && s[19] == v[19]
    && s[20] == v[20] && s[21] == v[21] && s[22] == v[22] && s[23] == v[23] && s[24] == v[24]
  }

  lemma HoldsAll<T>(s: array<T>, v: seq<T>)
    requires Holds(s, v)
    ensures s[..] == v
  {
    Pointwise(s[..], v);
  }

  /** Five lanes of one plane. */
  method XorPlane<T>(s: array<T>, y: nat, v: seq<T>, o: Ops<T>)
    requires s.Length == 25 && y < 5 && |v| == 5
    modifies s
    ensures forall k :: 0 <= k < 25 ==>
      s[k] == if 5 * y <= k < 5 * y + 5 then o.xor(old(s[k]), v[k - 5 * y]) else old(s[k])
  {
    s[5 * y] := o.xor(s[5 * y], v[0]);
    s[5 * y + 1] := o.xor(s[5 * y + 1], v[1]);
    s[5 * y + 2] := o.xor(s[5 * y + 2], v[2]);
    s[5 * y + 3] := o.xor(s[5 * y + 3], v[3]);
    s[5 * y + 4] := o.xor(s[5 * y + 4], v[4]);
  }

  /** Five lanes of one sheet. */
  method XorSheet<T>(s: array<T>, x: nat, v: seq<T>, o: Ops<T>)
    requires s.Length == 25 && x < 5 && |v| == 5
    modifies s
    ensures s[x] == o.xor(old(s[x]), v[0]) && s[x + 5] == o.xor(old(s[x + 5]), v[1])
    ensures s[x + 10] == o.xor(old(s[x + 10]), v[2]) && s[x + 15] == o.xor(old(s[x + 15]), v[3])
    ensures s[x + 20] == o.xor(old(s[x + 20]), v[4])
    ensures forall k :: 0 <= k < 25 && X(k) != x ==> s[k] == old(s[k])
  {
    s[x] := o.xor(s[x], v[0]);
    s[x + 5] := o.xor(s[x + 5], v[1]);
    s[x + 10] := o.xor(s[x + 10], v[2]);
    s[x + 15] := o.xor(s[x + 15], v[3]);
    s[x + 20] := o.xor(s[x + 20], v[4]);
  }

  method ThetaInPlace<T>(s: array<T>, o: Ops<T>)
    requires s.Length == 25
    modifies s
    ensures Holds(s, Theta(old(s[..]), o))
  {
    var c0 := o.xor(o.xor(o.xor(o.xor(s[0], s[5]), s[10]), s[15]), s[20]);
    var c1 := o.xor(o.xor(o.xor(o.xor(s[1], s[6]), s[11]), s[16]), s[21]);
    var c2 := o.xor(o.xor(o.xor(o.xor(s[2], s[7]), s[12]), s[17]), s[22]);
    var c3 := o.xor(o.xor(o.xor(o.xor(s[3], s[8]), s[13]), s[18]), s[23]);
    var c4 := o.xor(o.xor(o.xor(o.xor(s[4], s[9]), s[14]), s[19]), s[24]);
    var d := [o.xor(c4, o.rol(c1, 1)), o.xor(c0, o.rol(c2, 1)), o.xor(c1, o.rol(c3, 1)),
              o.xor(c2, o.rol(c4, 1)), o.xor(c3, o.rol(c0, 1))];
    ghost var v := s[..];
    assert d == [ThetaEffect(v, 0, o), ThetaEffect(v, 1, o), ThetaEffect(v, 2, o), ThetaEffect(v, 3, o), ThetaEffect(v, 4, o)];
    hide ThetaEffect;
    XorPlane(s, 0, d, o);
    XorPlane(s, 1, d, o);
    XorPlane(s, 2, d, o);
    XorPlane(s, 3, d, o);
    XorPlane(s, 4, d, o);
    Columns();
    hide X;
  }

  method RhoPart1<T>(s: array<T>, o: Ops<T>)
    requires s.Length == 25
    modifies s
    ensures s[0] == old(s[0]) && s[1] == o.rol(old(s[1]), Triangle(0)) && s[2] == old(s[2]) && s[3] == o.rol(old(s[3]), Triangle(6)) && s[4] == old(s[4])
    ensures s[5] == o.rol(old(s[5]), Triangle(7)) && s[6] == old(s[6]) && s[7] == o.rol(old(s[7]), Triangle(2)) && s[8] == old(s[8]) && s[9] == old(s[9])
    ensures s[10] == o.rol(old(s[10]), Triangle(1)) && s[11] == o.rol(old(s[11]), Triangle(3)) && s[12] == old(s[12]) && s[13] == old(s[13]) && s[14] == old(s[14])
    ensures s[15] == old(s[15]) && s[16] == old(s[16]) && s[17] == o.rol(old(s[17]), Triangle(4)) && s[18] == o.rol(old(s[18]), Triangle(5)) && s[19] == old(s[19])
    ensures s[20] == old(s[20]) && s[21] == old(s[21]) && s[22] == old(s[22]) && s[23] == old(s[23]) && s[24] == old(s[24])
  {
    hide Triangle;
    s[1] := o.rol(s[1], Triangle(0));
    s[10] := o.rol(s[10], Triangle(1));
    s[7] := o.rol(s[7], Triangle(2));
    s[11] := o.rol(s[11], Triangle(3));
    s[17] := o.rol(s[17], Triangle(4));
    s[18] := o.rol(s[18], Triangle(5));
    s[3] := o.rol(s[3], Triangle(6));
    s[5] := o.rol(s[5], Triangle(7));
  }

  method RhoPart2<T>(s: array<T>, o: Ops<T>)
    requires s.Length == 25
    modifies s
    ensures s[0] == old(s[0]) && s[1] == old(s[1]) && s[2] == old(s[2]) && s[3] == old(s[3]) && s[4] == o.rol(old(s[4]), Triangle(12))
    ensures s[5] == old(s[5]) && s[6] == old(s[6]) && s[7] == old(s[7]) && s[8] == o.rol(old(s[8]), Triangle(9)) && s[9] == old(s[9])
    ensures s[10] == old(s[10]) && s[11] == old(s[11]) && s[12] == old(s[12]) && s[13] == old(s[13]) && s[14] == old(s[14])
    ensures s[15] == o.rol(old(s[15]), Triangle(13)) && s[16] == o.rol(old(s[16]), Triangle(8)) && s[17] == old(s[17]) && s[18] == old(s[18]) && s[19] == o.rol(old(s[19]), Triangle(15))
    ensures s[20] == old(s[20]) && s[21] == o.rol(old(s[21]), Triangle(10)) && s[22] == old(s[22]) && s[23] == o.rol(old(s[23]), Triangle(14)) && s[24] == o.rol(old(s[24]), Triangle(11))
  {
    hide Triangle;
    s[16] := o.rol(s[16], Triangle(8));
    s[8] := o.rol(s[8], Triangle(9));
    s[21] := o.rol(s[21], Triangle(10));
    s[24] := o.rol(s[24], Triangle(11));
    s[4] := o.rol(s[4], Triangle(12));
    s[15] := o.rol(s[15], Triangle(13));
    s[23] := o.rol(s[23], Triangle(14));
    s[19] := o.rol(s[19], Triangle(15));
  }

  method RhoPart3<T>(s: array<T>, o: Ops<T>)
    requires s.Length == 25
    modifies s
    ensures s[0] == old(s[0]) && s[1] == old(s[1]) && s[2] == o.rol(old(s[2]), Triangle(18)) && s[3] == old(s[3]) && s[4] == old(s[4])
    ensures s[5] == old(s[5]) && s[6] == o.rol(old(s[6]), Triangle(23)) && s[7] == old(s[7]) && s[8] == old(s[8]) && s[9] == o.rol(old(s[9]), Triangle(22))
    ensures s[10] == old(s[10]) && s[11] == old(s[11]) && s[12] == o.rol(old(s[12]), Triangle(17)) && s[13] == o.rol(old(s[13]), Triangle(16)) && s[14] == o.rol(old(s[14]), Triangle(20))
    ensures s[15] == old(s[15]) && s[16] == old(s[16]) && s[17] == old(s[17]) && s[18] == old(s[18]) && s[19] == old(s[19])
    ensures s[20] == o.rol(old(s[20]), Triangle(19)) && s[21] == old(s[21]) && s[22] == o.rol(old(s[22]), Triangle(21)) && s[23] == old(s[23]) && s[24] == old(s[24])
  {
    hide Triangle;
    s[13] := o.rol(s[13], Triangle(16));
    s[12] := o.rol(s[12], Triangle(17));
    s[2] := o.rol(s[2], Triangle(18));
    s[20] := o.rol(s[20], Triangle(19));
    s[14] := o.rol(s[14], Triangle(20));
    s[22] := o.rol(s[22], Triangle(21));
    s[9] := o.rol(s[9], Triangle(22));
    s[6] := o.rol(s[6], Triangle(23));
  }

  method RhoInPlace<T>(s: array<T>, o: Ops<T>)
    requires s.Length == 25
    modifies s
    ensures Holds(s, Rho(old(s[..]), o))
  {
    hide Triangle;
    hide VisitFrom;
    RhoPart1(s, o);
    RhoPart2(s, o);
    RhoPart3(s, o);
    Visits0();
    Visits1();
    Visits2();
  }

  method PiFirst<T>(s: array<T>)
    requires s.Length == 25
    modifies s
    ensures s[0] == old(s[0]) && s[1] == old(s[6]) && s[2] == old(s[2]) && s[3] == old(s[18]) && s[4] == old(s[4])
    ensures s[5] == old(s[3]) && s[6] == old(s[6]) && s[7] == old(s[10]) && s[8] == old(s[16]) && s[9] == old(s[9])
    ensures s[10] == old(s[1]) && s[11] == old(s[7]) && s[12] == old(s[12]) && s[13] == old(s[13]) && s[14] == old(s[14])
    ensures s[15] == old(s[15]) && s[16] == old(s[5]) && s[17] == old(s[11]) && s[18] == old(s[17]) && s[19] == old(s[19])
    ensures s[20] == old(s[20]) && s[21] == old(s[8]) && s[22] == old(s[22]) && s[23] == old(s[23]) && s[24] == old(s[21])
  {
    s[24] := s[21];
    s[21] := s[8];
    s[8] := s[16];
    s[16] := s[5];
    s[5] := s[3];
    s[3] := s[18];
    s[18] := s[17];
    s[17] := s[11];
    s[11] := s[7];
    s[7] := s[10];
    s[10] := s[1];
    s[1] := s[6];
  }

  method PiSecond<T>(s: array<T>, t: T)
    requires s.Length == 25
    modifies s
    ensures s[0] == old(s[0]) && s[1] == old(s[1]) && s[2] == old(s[12]) && s[3] == old(s[3]) && s[4] == t
    ensures s[5] == old(s[5]) && s[6] == old(s[9]) && s[7] == old(s[7]) && s[8] == old(s[8]) && s[9] == old(s[22])
    ensures s[10] == old(s[10]) && s[11] == old(s[11]) && s[12] == old(s[13]) && s[13] == old(s[19]) && s[14] == old(s[20])
    ensures s[15] == old(s[4]) && s[16] == old(s[16]) && s[17] == old(s[17]) && s[18] == old(s[18]) && s[19] == old(s[23])
    ensures s[20] == old(s[2]) && s[21] == old(s[21]) && s[22] == old(s[14]) && s[23] == old(s[15]) && s[24] == old(s[24])
  {
    s[6] := s[9];
    s[9] := s[22];
    s[22] := s[14];
    s[14] := s[20];
    s[20] := s[2];
    s[2] := s[12];
    s[12] := s[13];
    s[13] := s[19];
    s[19] := s[23];
    s[23] := s[15];
    s[15] := s[4];
    s[4] := t;
  }

  /** One cycle through 24 lanes with one temporary. */
  method PiInPlace<T>(s: array<T>)
    requires s.Length == 25
    modifies s
    ensures Holds(s, Pi(old(s[..])))
  {
    hide PiSource;
    var t := s[24];
    PiFirst(s);
    PiSecond(s, t);
    PiSources();
  }

  method ChiInPlace<T>(s: array<T>, o: Ops<T>)
    requires s.Length == 25
    modifies s
    ensures Holds(s, Chi(old(s[..]), o))
  {
    hide Right;
    hide X;
    Columns();
    var t0 := [s[0], s[5], s[10], s[15], s[20]];
    var t1 := [s[1], s[6], s[11], s[16], s[21]];
    XorSheet(s, 0, [o.andNot(s[1], s[2]), o.andNot(s[6], s[7]), o.andNot(s[11], s[12]), o.andNot(s[16], s[17]), o.andNot(s[21], s[22])], o);
    XorSheet(s, 1, [o.andNot(s[2], s[3]), o.andNot(s[7], s[8]), o.andNot(s[12], s[13]), o.andNot(s[17], s[18]), o.andNot(s[22], s[23])], o);
    XorSheet(s, 2, [o.andNot(s[3], s[4]), o.andNot(s[8], s[9]), o.andNot(s[13], s[14]), o.andNot(s[18], s[19]), o.andNot(s[23], s[24])], o);
    XorSheet(s, 3, [o.andNot(s[4], t0[0]), o.andNot(s[9], t0[1]), o.andNot(s[14], t0[2]), o.andNot(s[19], t0[3]), o.andNot(s[24], t0[4])], o);
    XorSheet(s, 4, [o.andNot(t0[0], t1[0]), o.andNot(t0[1], t1[1]), o.andNot(t0[2], t1[2]), o.andNot(t0[3], t1[3]), o.andNot(t0[4], t1[4])], o);
    Neighbours();
  }

  /** `jent_keccakp_1600` */
  method Permute<T>(s: array<T>, o: Ops<T>)
    requires s.Length == 25
    modifies s
    ensures s[..] == Rounds(old(s[..]), ROUNDS, o)
  {
    hide Theta;
    hide Rho;
    hide Pi;
    hide Chi;
    for round := 0 to ROUNDS
      invariant s[..] == Rounds(old(s[..]), round, o)
    {
      ghost var v := s[..];
      ThetaInPlace(s, o);
      HoldsAll(s, Theta(v, o));
      RhoInPlace(s, o);
      HoldsAll(s, Rho(Theta(v, o), o));
      PiInPlace(s);
      HoldsAll(s, Pi(Rho(Theta(v, o), o)));
      ChiInPlace(s, o);
      HoldsAll(s, Chi(Pi(Rho(Theta(v, o), o)), o));
      s[0] := o.xor(s[0], o.constant(round));
    }
  }
}
