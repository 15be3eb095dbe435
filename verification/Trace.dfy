/** What a collector did, as a history of measurements. Only specifications look at it. */
module Trace {
  import opened Words
  import opened Bytes

  type Digest = d: seq<byte> | |d| == 32 witness seq(32, _ => 0)

  datatype Source = MemoryAccess | HashLoop | Combined

  /**
   One time delta between two clock readings as it was absorbed: `tested` tells whether the health tests saw it, `recovery`
   whether it was taken by the recovery loop of the test with memory.
   */
  datatype Event = Measured(source: Source, from: u64, to: u64, delta: u64, digest: Digest, tested: bool, stuck: bool, recovery: bool)

  /** The time between two clock readings in units of the common divisor. */
  function Ticks(from: u64, to: u64, gcd: u64): u64
    requires gcd > 0
  {
    Delta(from, to) / gcd
  }

  /**
   `delta` units of the divisor, and less than one more, lead from one reading of the 64-bit clock
   to the other.
   */
  ghost predicate Elapsed(from: u64, to: u64, delta: nat, gcd: nat) {
    exists r :: 0 <= r < gcd && Reaches(from, to, delta, gcd, r)
  }

  predicate Reaches(from: u64, to: u64, delta: nat, gcd: nat, r: int) {
    0 <= delta * gcd + r < TWO64 && (from + delta * gcd + r) % TWO64 == to
  }

  lemma TicksElapse(from: u64, to: u64, gcd: u64)
    requires gcd > 0
    ensures Elapsed(from, to, Ticks(from, to, gcd), gcd)
  {
    var time := Delta(from, to);
    var n, r := time / gcd, time % gcd;
    assert n * gcd + r == time;
    assert Reaches(from, to, n, gcd, r);
  }

  function Domain(source: Source): byte {
    match source
    case MemoryAccess => 1
    case HashLoop => 2
    case Combined => 3
  }

  function ByteOf(b0: bool, b1: bool, b2: bool, b3: bool, b4: bool, b5: bool, b6: bool, b7: bool): byte {
    (if b0 then 1 else 0) | (if b1 then 2 else 0) | (if b2 then 4 else 0) | (if b3 then 8 else 0)
    | (if b4 then 16 else 0) | (if b5 then 32 else 0) | (if b6 then 64 else 0) | (if b7 then 128 else 0)
  }

  predicate Odd(x: nat) {
    x % 2 == 1
  }

  /** The byte of the eight low binary digits. */
  function LowByte(x: nat): byte {
    var x1 := x / 2;
    var x2 := x1 / 2;
    var x3 := x2 / 2;
    var x4 := x3 / 2;
    var x5 := x4 / 2;
    var x6 := x5 / 2;
    var x7 := x6 / 2;
    ByteOf(Odd(x), Odd(x1), Odd(x2), Odd(x3), Odd(x4), Odd(x5), Odd(x6), Odd(x7))
  }

  /** What is left without these digits. */
  function Above(x: nat): nat {
    x / 2 / 2 / 2 / 2 / 2 / 2 / 2 / 2
  }

  function LittleEndian(x: nat, n: nat): (b: seq<byte>)
    ensures |b| == n
  {
    if n == 0 then [] else [LowByte(x)] + LittleEndian(Above(x), n - 1)
  }

  /** The buffer of `jent_hash_insert`: time delta, domain separator, digest, zeros, exactly one rate block. */
  function Intermediary(e: Event): (b: seq<byte>)
    ensures |b| == RATE
  {
    LittleEndian(e.delta, 8) + [Domain(e.source)] + e.digest + Zeros(RATE - 41)
  }

  function Weigh(bit: bool, weight: nat): nat {
    if bit then weight else 0
  }

  function Number(b: byte): nat {
    Weigh(b & 1 != 0, 1) + Weigh(b & 2 != 0, 2) + Weigh(b & 4 != 0, 4) + Weigh(b & 8 != 0, 8)
    + Weigh(b & 16 != 0, 16) + Weigh(b & 32 != 0, 32) + Weigh(b & 64 != 0, 64) + Weigh(b & 128 != 0, 128)
  }

  lemma BitsOfByte(b0: bool, b1: bool, b2: bool, b3: bool, b4: bool, b5: bool, b6: bool, b7: bool)
    ensures var b := ByteOf(b0, b1, b2, b3, b4, b5, b6, b7);
      && (b & 1 != 0 <==> b0) && (b & 2 != 0 <==> b1) && (b & 4 != 0 <==> b2) && (b & 8 != 0 <==> b3)
      && (b & 16 != 0 <==> b4) && (b & 32 != 0 <==> b5) && (b & 64 != 0 <==> b6) && (b & 128 != 0 <==> b7)
  {}

  lemma NumberOfByte(b0: bool, b1: bool, b2: bool, b3: bool, b4: bool, b5: bool, b6: bool, b7: bool)
    ensures Number(ByteOf(b0, b1, b2, b3, b4, b5, b6, b7))
         == Weigh(b0, 1) + Weigh(b1, 2) + Weigh(b2, 4) + Weigh(b3, 8) + Weigh(b4, 16) + Weigh(b5, 32) + Weigh(b6, 64) + Weigh(b7, 128)
  {
    hide ByteOf;
    hide Weigh;
    BitsOfByte(b0, b1, b2, b3, b4, b5, b6, b7);
  }

  lemma Halved(x: nat)
    ensures x == Weigh(Odd(x), 1) + 2 * (x / 2)
  {}

  lemma LowAndAbove(x: nat)
    ensures x == Number(LowByte(x)) + 256 * Above(x)
  {
    hide ByteOf;
    hide Number;
    hide Odd;
    var x1 := x / 2;
    var x2 := x1 / 2;
    var x3 := x2 / 2;
    var x4 := x3 / 2;
    var x5 := x4 / 2;
    var x6 := x5 / 2;
    var x7 := x6 / 2;
    Halved(x);
    Halved(x1);
    Halved(x2);
    Halved(x3);
    Halved(x4);
    Halved(x5);
    Halved(x6);
    Halved(x7);
    NumberOfByte(Odd(x), Odd(x1), Odd(x2), Odd(x3), Odd(x4), Odd(x5), Odd(x6), Odd(x7));
  }

  /** The value of a byte string, its first byte having the lowest weight. */
  function Value(b: seq<byte>): nat {
    if b == [] then 0 else Number(b[0]) + 256 * Value(b[1..])
  }

  function Scale(n: nat): nat {
    if n == 0 then 1 else 256 * Scale(n - 1)
  }

  lemma {:induction false} LittleEndianValue(x: nat, n: nat)
    requires x < Scale(n)
    ensures Value(LittleEndian(x, n)) == x
  {
    hide Number;
    hide LowByte;
    hide Above;
    if n > 0 {
      LowAndAbove(x);
      LittleEndianValue(Above(x), n - 1);
      assert LittleEndian(x, n)[1..] == LittleEndian(Above(x), n - 1);
    }
  }

  lemma ScaleOfEight()
    ensures Scale(8) == TWO64
  {
    assert Scale(4) == 0x1_0000_0000;
  }

  /** What `jent_hash_insert` absorbs, read back from its bytes. */
  lemma IntermediaryDecodes(e: Event)
    ensures var b := Intermediary(e);
      && Value(b[..8]) == e.delta
      && b[8] == (match e.source case MemoryAccess => 1 case HashLoop => 2 case Combined => 3)
      && b[9..41] == e.digest && b[41..] == Zeros(RATE - 41)
  {
    hide LittleEndian;
    hide Value;
    hide Scale;
    ScaleOfEight();
    LittleEndianValue(e.delta, 8);
    var b := Intermediary(e);
    assert b[..8] == LittleEndian(e.delta, 8);
    assert b[9..41] == e.digest && b[41..] == Zeros(RATE - 41);
  }

  /** Two measurements that absorb the same bytes are the same measurement. */
  lemma IntermediaryIsInjective(d: Event, e: Event)
    requires Intermediary(d) == Intermediary(e)
    ensures d.delta == e.delta && d.source == e.source && d.digest == e.digest
  {
    hide Intermediary;
    hide Value;
    IntermediaryDecodes(d);
    IntermediaryDecodes(e);
  }

  /** Everything `t` put into the entropy pool, in order. */
  function Absorbed(t: seq<Event>): (b: seq<byte>)
    ensures |b| == RATE * |t|
  {
    if t == [] then [] else Absorbed(t[..|t| - 1]) + Intermediary(t[|t| - 1])
  }

  /** The health-tested, non-stuck measurements of one source. */
  function Credits(t: seq<Event>, source: Source, recovery: bool): (n: nat)
    ensures n <= |t|
  {
    if t == [] then 0 else
    var e := t[|t| - 1];
    Credits(t[..|t| - 1], source, recovery)
    + if e.tested && !e.stuck && e.source == source && e.recovery == recovery then 1 else 0
  }

  lemma Snoc(t: seq<Event>, e: Event)
    ensures Absorbed(t + [e]) == Absorbed(t) + Intermediary(e)
    ensures forall source, recovery :: Credits(t + [e], source, recovery) == Credits(t, source, recovery)
              + if e.tested && !e.stuck && e.source == source && e.recovery == recovery then 1 else 0
  {
    assert (t + [e])[..|t|] == t;
  }

  lemma Empty()
    ensures Absorbed([]) == []
    ensures forall source, recovery :: Credits([], source, recovery) == 0
  {}

  lemma Single(e: Event)
    requires !e.tested
    ensures Absorbed([e]) == Intermediary(e)
    ensures forall source, recovery :: Credits([e], source, recovery) == 0
  {}

  /** A tested measurement of the source that is not stuck, within a recovery or not. */
  ghost predicate EarnsAt(t: seq<Event>, i: int, source: Source, recovery: bool)
    requires 0 <= i < |t|
  {
    t[i].tested && !t[i].stuck && t[i].source == source && t[i].recovery == recovery
  }

  ghost function Earned(t: seq<Event>, source: Source, recovery: bool): set<int> {
    set i | 0 <= i < |t| && EarnsAt(t, i, source, recovery)
  }

  /** Credits are the number of such measurements, each counted once. */
  lemma {:induction false} CreditsAreEarned(t: seq<Event>, source: Source, recovery: bool)
    ensures Credits(t, source, recovery) == |Earned(t, source, recovery)|
  {
    if t == [] {
      assert Earned(t, source, recovery) == {};
    } else {
      var n := |t| - 1;
      CreditsAreEarned(t[..n], source, recovery);
      EarnedGrows(t[..n], t, source, recovery);
      hide Earned;
    }
  }

  lemma EarnedGrows(p: seq<Event>, t: seq<Event>, source: Source, recovery: bool)
    requires |t| == |p| + 1 && forall i :: 0 <= i < |p| ==> p[i] == t[i]
    ensures |Earned(t, source, recovery)| == |Earned(p, source, recovery)| + if EarnsAt(t, |p|, source, recovery) then 1 else 0
  {
    forall i | 0 <= i < |p| ensures EarnsAt(t, i, source, recovery) == EarnsAt(p, i, source, recovery) {
    }
    hide EarnsAt;
    var now := if EarnsAt(t, |p|, source, recovery) then {|p|} else {};
    assert Earned(t, source, recovery) == Earned(p, source, recovery) + now;
  }

  /** The memory source earned its `n` credits before step `k`, the hash source its own from there on. */
  ghost predicate InTurn(t: seq<Event>, k: nat, recovery: bool, n: nat) {
    k <= |t| && Credits(t[..k], MemoryAccess, recovery) == n && Credits(t[k..], HashLoop, recovery) == n
  }

  lemma TwoTurns(a: seq<Event>, b: seq<Event>, recovery: bool, n: nat)
    ensures Credits(a, MemoryAccess, recovery) == n && Credits(b, HashLoop, recovery) == n ==> InTurn(a + b, |a|, recovery, n)
  {
    hide Credits;
    assert (a + b)[..|a|] == a && (a + b)[|a|..] == b;
  }

  lemma {:induction false} CreditsAppend(t: seq<Event>, u: seq<Event>, source: Source, recovery: bool)
    ensures Credits(t + u, source, recovery) == Credits(t, source, recovery) + Credits(u, source, recovery)
  {
    if u == [] {
      assert t + u == t;
    } else {
      CreditsAppend(t, u[..|u| - 1], source, recovery);
      assert (t + u)[..|t + u| - 1] == t + u[..|u| - 1];
    }
  }

  /** What a recovery measured is not credited to the block it interrupts. */
  lemma {:induction false} NestedCredits(t: seq<Event>, source: Source, recovery: bool)
    requires if recovery then t == [] else forall e :: e in t ==> e.recovery
    ensures Credits(t, source, recovery) == 0
  {
    if t != [] {
      NestedCredits(t[..|t| - 1], source, recovery);
    }
  }

  /** One measurement together with what was measured in a recovery it set off. */
  lemma StepCredits(nested: seq<Event>, e: Event)
    requires e.tested
    requires if e.recovery then nested == [] else forall n :: n in nested ==> n.recovery
    ensures forall s :: Credits(nested + [e], s, e.recovery) == if s == e.source && !e.stuck then 1 else 0
    ensures !e.recovery ==> Credits(nested + [e], Combined, true) == Credits(nested, Combined, true)
  {
    Snoc(nested, e);
    forall s ensures Credits(nested, s, e.recovery) == 0 {
      NestedCredits(nested, s, e.recovery);
    }
  }

  lemma {:induction false} AbsorbedAppend(t: seq<Event>, u: seq<Event>)
    ensures Absorbed(t + u) == Absorbed(t) + Absorbed(u)
  {
    hide Intermediary;
    if u == [] {
      assert t + u == t;
    } else {
      AbsorbedAppend(t, u[..|u| - 1]);
      assert (t + u)[..|t + u| - 1] == t + u[..|u| - 1];
    }
  }

  /** The pool tells histories of the same length apart: no delta, source or digest is lost. */
  lemma {:induction false} AbsorbedIsInjective(a: seq<Event>, b: seq<Event>, i: nat)
    requires Absorbed(a) == Absorbed(b) && i < |a|
    ensures |a| == |b| && a[i].delta == b[i].delta && a[i].source == b[i].source && a[i].digest == b[i].digest
    decreases |a|
  {
    hide Intermediary;
    var n := |a| - 1;
    var p, q := Absorbed(a[..n]), Absorbed(b[..n]);
    assert Absorbed(a)[..RATE * n] == p && Absorbed(b)[..RATE * n] == q;
    assert Absorbed(a)[RATE * n..] == Intermediary(a[n]) && Absorbed(b)[RATE * n..] == Intermediary(b[n]);
    if i == n {
      IntermediaryIsInjective(a[n], b[n]);
    } else {
      AbsorbedIsInjective(a[..n], b[..n], i);
    }
  }
}
