/**
 The common timer divisors, one per clock, shared by all threads of a process: set by
 compare-and-swap against zero, read with two loads. A state machine of those accesses.
 */
module DivisorTable {
  import opened Words

  type Thread = nat

  datatype Clock = Platform | Internal

  datatype Table = Table(platform: nat, internal: nat) {
    function At(c: Clock): nat {
      if c == Platform then platform else internal
    }

    function Set(c: Clock, v: nat): Table {
      if c == Platform then this.(platform := v) else this.(internal := v)
    }
  }

  datatype Use = Use(clock: Clock, divisor: nat)

  /** `reading` are the threads between the two loads of `jent_gcd_get`; `collectors` what they got. */
  datatype State = State(table: Table, reading: map<Thread, Clock>, collectors: map<Thread, Use>)

  const START: State := State(Table(0, 0), map[], map[])

  datatype Step = Store(clock: Clock, gcd: u64) | Test(t: Thread, clock: Clock) | Load(t: Thread)

  /** The compare-and-swap of `jent_gcd_store`; the stored word has 32 bits. */
  function AfterStore(current: nat, gcd: u64): nat {
    if gcd != 0 && current == 0 then gcd % TWO32 else current
  }

  function Apply(s: State, step: Step): State {
    match step
    case Store(c, gcd) => s.(table := s.table.Set(c, AfterStore(s.table.At(c), gcd)))
    case Test(t, c) => if s.table.At(c) == 0 then s else s.(reading := s.reading[t := c])
    case Load(t) =>
      if t !in s.reading then s else
      s.(reading := s.reading - {t}, collectors := s.collectors[t := Use(s.reading[t], s.table.At(s.reading[t]))])
  }

  function Run(s: State, steps: seq<Step>): State {
    if steps == [] then s else Apply(Run(s, steps[..|steps| - 1]), steps[|steps| - 1])
  }

  /** Who has tested a divisor, or divides by one, found it established, and it still is. */
  ghost predicate Inv(s: State) {
    && (forall t :: t in s.reading ==> s.table.At(s.reading[t]) != 0)
    && (forall t :: t in s.collectors ==> s.collectors[t].divisor == s.table.At(s.collectors[t].clock) != 0)
  }

  lemma ApplyKeeps(s: State, step: Step)
    requires Inv(s)
    ensures Inv(Apply(s, step))
    ensures forall c :: s.table.At(c) != 0 ==> Apply(s, step).table.At(c) == s.table.At(c)
  {
    match step {
      case Store(c, gcd) =>
      case Test(t, c) =>
      case Load(t) =>
    }
  }

  /** Once established, a divisor never changes, whatever happens afterwards. */
  lemma {:induction false} SetOnce(s: State, steps: seq<Step>)
    requires Inv(s)
    ensures Inv(Run(s, steps))
    ensures forall c :: s.table.At(c) != 0 ==> Run(s, steps).table.At(c) == s.table.At(c)
  {
    if steps != [] {
      SetOnce(s, steps[..|steps| - 1]);
      ApplyKeeps(Run(s, steps[..|steps| - 1]), steps[|steps| - 1]);
    }
  }

  /** The startups of one clock, in the order of their compare-and-swap. */
  function Stores(steps: seq<Step>, c: Clock): seq<u64> {
    if steps == [] then [] else
    var last := steps[|steps| - 1];
    Stores(steps[..|steps| - 1], c) + if last.Store? && last.clock == c && last.gcd != 0 then [last.gcd] else []
  }

  /**
   Under any interleaving of racing startups a clock's divisor is the one of the first startup
   that passed on this clock, zero before that; the other clock's startups do not matter.
   */
  lemma {:induction false} FirstStartupWins(steps: seq<Step>, c: Clock)
    requires forall i :: 0 <= i < |steps| && steps[i].Store? ==> steps[i].gcd < TWO32
    ensures Run(START, steps).table.At(c) == if Stores(steps, c) == [] then 0 else Stores(steps, c)[0]
    ensures forall i :: 0 <= i < |Stores(steps, c)| ==> Stores(steps, c)[i] != 0
  {
    if steps != [] {
      var p := steps[..|steps| - 1];
      FirstStartupWins(p, c);
      assert steps[|steps| - 1].Store? ==> steps[|steps| - 1].gcd % TWO32 == steps[|steps| - 1].gcd;
    }
  }

  /**
   All collectors on a clock divide by the same nonzero number, the second load of
   `jent_gcd_get` included, which the first one only found to be nonzero.
   */
  lemma CollectorsAgree(steps: seq<Step>, t: Thread, u: Thread)
    ensures var s := Run(START, steps);
      && (t in s.collectors ==> s.collectors[t].divisor != 0)
      && (t in s.collectors && u in s.collectors && s.collectors[t].clock == s.collectors[u].clock ==>
            s.collectors[t].divisor == s.collectors[u].divisor)
      && (t in s.reading ==> Apply(s, Load(t)).collectors[t].divisor != 0)
  {
    SetOnce(START, steps);
  }
}
