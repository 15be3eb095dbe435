/**
 The flat numbering of logical processors on Windows: the active processors of all processor
 groups, group by group, counted by the set bits of each group's mask.
 */
module CpuGroups {
  import opened Words

  const WIDTH: nat := 64

  /** Bit `b` of `m`: `(m >> b) & 1`. */
  predicate Bit(m: nat, b: nat) {
    if b == 0 then m % 2 == 1 else Bit(m / 2, b - 1)
  }

  /** The bitwise `m & n`. */
  function And(m: nat, n: nat): nat {
    if m == 0 then 0 else (if m % 2 == 1 && n % 2 == 1 then 1 else 0) + 2 * And(m / 2, n / 2)
  }

  /** The set bits of `m`. */
  function Pop(m: nat): nat {
    if m == 0 then 0 else m % 2 + Pop(m / 2)
  }

  /** The set bits of `m` below bit `b`. */
  function Rank(m: nat, b: nat): nat {
    if b == 0 then 0 else m % 2 + Rank(m / 2, b - 1)
  }

  lemma {:induction false} AndIsBitwise(m: nat, n: nat, b: nat)
    ensures Bit(And(m, n), b) <==> Bit(m, b) && Bit(n, b)
    decreases b
  {
    if m == 0 {
      BitOfZero(b);
    } else if b == 0 {
      AndHalves(m, n);
    } else {
      AndHalves(m, n);
      AndIsBitwise(m / 2, n / 2, b - 1);
    }
  }

  lemma {:induction false} BitOfZero(b: nat)
    ensures !Bit(0, b)
  {
    if b > 0 {
      BitOfZero(b - 1);
    }
  }

  lemma AndHalves(m: nat, n: nat)
    ensures And(m, n) % 2 == (if m % 2 == 1 && n % 2 == 1 then 1 else 0) && And(m, n) / 2 == And(m / 2, n / 2)
  {}

  lemma {:induction false} AndSelf(m: nat)
    ensures And(m, m) == m
  {
    if m > 0 {
      AndHalves(m, m);
      AndSelf(m / 2);
    }
  }

  /** `m & (m - 1)` clears one set bit. */
  lemma {:induction false} ClearLowest(m: nat)
    requires m > 0
    ensures And(m, m - 1) < m && Pop(And(m, m - 1)) == Pop(m) - 1
  {
    AndHalves(m, m - 1);
    if m % 2 == 1 {
      assert (m - 1) / 2 == m / 2;
      AndSelf(m / 2);
    } else {
      assert (m - 1) / 2 == m / 2 - 1;
      ClearLowest(m / 2);
    }
  }

  /** `jent_ncpu_popcount` */
  method PopCount(mask: nat) returns (n: nat)
    ensures n == Pop(mask)
  {
    var m := mask;
    n := 0;
    while m != 0
      invariant n + Pop(m) == Pop(mask)
    {
      ClearLowest(m);
      m := And(m, m - 1);
      n := n + 1;
    }
  }

  /** Keeping only the bits below `b` keeps exactly the bits that `Rank` counts. */
  lemma {:induction false} RankIsMasked(m: nat, b: nat)
    ensures Pop(And(m, Pow2(b) - 1)) == Rank(m, b)
    decreases b
  {
    AndHalves(m, Pow2(b) - 1);
    if b == 0 {
      AndZero(m);
    } else {
      assert (Pow2(b) - 1) / 2 == Pow2(b - 1) - 1;
      RankIsMasked(m / 2, b - 1);
    }
  }

  lemma {:induction false} AndZero(m: nat)
    ensures And(m, 0) == 0
  {
    if m > 0 {
      AndZero(m / 2);
    }
  }

  // ----- one group: ranks and set bits

  lemma {:induction false} RankSnoc(m: nat, b: nat)
    ensures Rank(m, b + 1) == Rank(m, b) + if Bit(m, b) then 1 else 0
    decreases b
  {
    if b > 0 {
      RankSnoc(m / 2, b - 1);
    }
  }

  lemma {:induction false} RankGrows(m: nat, b: nat, c: nat)
    requires b <= c
    ensures Rank(m, b) <= Rank(m, c)
    decreases c
  {
    if b < c {
      RankGrows(m, b, c - 1);
      RankSnoc(m, c - 1);
    }
  }

  /** A set bit is determined by its rank. */
  lemma RankIsInjective(m: nat, b: nat, c: nat)
    requires b < c && Bit(m, b)
    ensures Rank(m, b) < Rank(m, c)
  {
    RankSnoc(m, b);
    RankGrows(m, b + 1, c);
  }

  /** All of a mask's bits lie below its width. */
  lemma {:induction false} RankIsPop(m: nat, n: nat)
    requires m < Pow2(n)
    ensures Rank(m, n) == Pop(m)
  {
    if n > 0 {
      RankIsPop(m / 2, n - 1);
    }
  }

  // ----- all groups

  /** A processor group: its mask of active processors, and how many there are said to be. */
  datatype Group = Group(mask: nat, count: nat)

  ghost predicate WellCounted(groups: seq<Group>) {
    forall g :: 0 <= g < |groups| ==> groups[g].mask < Pow2(WIDTH) && groups[g].count == Pop(groups[g].mask)
  }

  /** The number of the first processor of group `g`. */
  function Base(groups: seq<Group>, g: nat): nat
    requires g <= |groups|
  {
    if g == 0 then 0 else Base(groups, g - 1) + groups[g - 1].count
  }

  /** The flat number of bit `b` of group `g`. */
  function Number(groups: seq<Group>, g: nat, b: nat): nat
    requires g < |groups|
  {
    Base(groups, g) + Rank(groups[g].mask, b)
  }

  ghost predicate Active(groups: seq<Group>, g: nat, b: nat) {
    g < |groups| && b < WIDTH && Bit(groups[g].mask, b)
  }

  datatype Place = NoSuch | Place(group: nat, bit: nat)

  /** The inner loop of `jent_cpu_to_group`: the set bit of rank `cpu`. */
  method SelectBit(mask: nat, cpu: nat) returns (found: bool, bit: nat)
    ensures found ==> bit < WIDTH && Bit(mask, bit) && Rank(mask, bit) == cpu
    ensures !found ==> cpu >= Rank(mask, WIDTH)
  {
    var seen := 0;
    for b := 0 to WIDTH
      invariant seen == Rank(mask, b) <= cpu
    {
      RankSnoc(mask, b);
      if Bit(mask, b) {
        if seen == cpu {
          return true, b;
        }
        seen := seen + 1;
      }
    }
    return false, 0;
  }

  /** `jent_cpu_to_group` */
  method CpuToGroup(groups: seq<Group>, number: nat) returns (r: Place)
    ensures r.Place? ==> Active(groups, r.group, r.bit) && Number(groups, r.group, r.bit) == number
    ensures WellCounted(groups) ==> (r.Place? <==> number < Base(groups, |groups|))
  {
    var cpu: nat := number;
    for g := 0 to |groups|
      invariant cpu + Base(groups, g) == number
    {
      if cpu >= groups[g].count {
        cpu := cpu - groups[g].count;
        continue;
      }
      var found, bit := SelectBit(groups[g].mask, cpu);
      BaseGrows(groups, g + 1, |groups|);
      if WellCounted(groups) {
        RankIsPop(groups[g].mask, WIDTH);
      }
      if found {
        if WellCounted(groups) {
          NumberInRange(groups, g, bit);
        }
        return Place(g, bit);
      }
      return NoSuch;
    }
    return NoSuch;
  }

  lemma {:induction false} BaseGrows(groups: seq<Group>, g: nat, h: nat)
    requires g <= h <= |groups|
    ensures Base(groups, g) <= Base(groups, h)
    decreases h
  {
    if g < h {
      BaseGrows(groups, g, h - 1);
    }
  }

  /** The numbers of one group lie between its base and the next group's. */
  lemma NumberInRange(groups: seq<Group>, g: nat, b: nat)
    requires WellCounted(groups) && Active(groups, g, b)
    ensures Base(groups, g) <= Number(groups, g, b) < Base(groups, g + 1) <= Base(groups, |groups|)
  {
    RankIsInjective(groups[g].mask, b, WIDTH);
    RankIsPop(groups[g].mask, WIDTH);
    BaseGrows(groups, g + 1, |groups|);
  }

  /** No two active processors share a number. */
  lemma NumberIsInjective(groups: seq<Group>, g: nat, b: nat, h: nat, c: nat)
    requires WellCounted(groups) && Active(groups, g, b) && Active(groups, h, c)
    requires Number(groups, g, b) == Number(groups, h, c)
    ensures g == h && b == c
  {
    NumberInRange(groups, g, b);
    NumberInRange(groups, h, c);
    if g < h {
      BaseGrows(groups, g + 1, h);
    } else if h < g {
      BaseGrows(groups, h + 1, g);
    } else if b < c {
      RankIsInjective(groups[g].mask, b, c);
    } else if c < b {
      RankIsInjective(groups[g].mask, c, b);
    }
  }

  // ----- the affinity of a thread

  datatype Affinity = Fault | Affinity(count: nat, highest: int)

  /**
   `jent_ncpu_thread_affinity`: the number of processors the thread may run on, and the flat
   number of the highest of them, `bit`; -1 if there is none.
   */
  method ThreadAffinity(groups: seq<Group>, group: nat, threadMask: nat) returns (r: Affinity, ghost top: nat)
    ensures r.Fault? <==> group >= |groups|
    ensures r.Affinity? ==>
      && r.count == Pop(And(threadMask, groups[group].mask))
      && (r.highest == -1 ==> forall b :: 0 <= b < WIDTH ==> !Bit(And(threadMask, groups[group].mask), b))
      && (r.highest != -1 ==>
            && Active(groups, group, top) && Bit(threadMask, top) && r.highest == Number(groups, group, top)
            && forall b :: top < b < WIDTH ==> !Bit(And(threadMask, groups[group].mask), b))
  {
    top := 0;
    if group >= |groups| {
      return Fault, 0;
    }
    var base := 0;
    for g := 0 to group
      invariant base == Base(groups, g)
    {
      base := base + groups[g].count;
    }
    var mask := And(threadMask, groups[group].mask);
    var count := PopCount(mask);
    var bit: nat := WIDTH;
    while bit > 0
      invariant bit <= WIDTH
      invariant forall b :: bit <= b < WIDTH ==> !Bit(mask, b)
    {
      bit := bit - 1;
      if Bit(mask, bit) {
        AndIsBitwise(threadMask, groups[group].mask, bit);
        RankIsMasked(groups[group].mask, bit);
        var below := PopCount(if bit > 0 then And(groups[group].mask, Pow2(bit) - 1) else 0);
        return Affinity(count, base + below), bit;
      }
    }
    return Affinity(count, -1), 0;
  }

  /** Going from the highest processor of an affinity back to its group and bit finds that processor. */
  method PinHighest(groups: seq<Group>, group: nat, threadMask: nat) returns (a: Affinity, p: Place)
    requires WellCounted(groups)
    ensures a.Affinity? && a.highest >= 0 ==>
      && p.Place? && p.group == group && Bit(threadMask, p.bit) && Active(groups, group, p.bit)
      && forall b :: p.bit < b < WIDTH ==> !Bit(And(threadMask, groups[group].mask), b)
  {
    ghost var top;
    p := NoSuch;
    a, top := ThreadAffinity(groups, group, threadMask);
    if a.Affinity? && a.highest >= 0 {
      NumberInRange(groups, group, top);
      p := CpuToGroup(groups, a.highest);
      NumberIsInjective(groups, group, top, p.group, p.bit);
    }
  }
}
