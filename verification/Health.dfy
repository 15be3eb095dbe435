/**
 The health-test state of a collector as a value, and what one time delta does to it as long as
 the test with memory raises no alarm.
 */
module HealthTests {
  import opened Words
  import opened Failures
  import opened Trace
  import LagSpec
  import Apt = AdaptiveProportion
  import Rct = RepetitionCount
  import Mem = RepetitionCountMemory
  import CutoffTables

  const RECOVERY_BLOCKS: nat := 10

  datatype Tests = Tests(
    failure: set<Failure>,
    rct: nat,
    apt: Apt.State,
    mem: Mem.Window,
    prime: nat)

  type Cutoffs = CutoffTables.Cutoffs

  /** `JENT_ADJUSTED_MEASURE_JITTER_LOOP_CTR`: the non-stuck measurements one block takes. */
  function Nosr(osr: nat, fips: bool): (n: nat)
    ensures n % 3 == 0
    ensures fips ==> n == 321 * osr
    ensures !fips ==> 256 * osr <= n < 256 * osr + 3
  {
    ((256 + if fips then 65 else 0) * osr + 2) / 3 * 3
  }

  /** For every rate a collector can have, the count fits the 16-bit counters and covers a block. */
  lemma NosrInRange(osr: nat, fips: bool)
    requires CutoffTables.MIN_OSR <= osr <= CutoffTables.MAX_OSR
    ensures 256 <= Nosr(osr, fips) <= 0xffff
  {}

  /** `jent_stuck` without priming: delta, first or second difference is zero modulo 2^64. */
  predicate Stuck(w: seq<u64>, d: u64) {
    var prev, prev2 := LagSpec.Recent(w, 0), LagSpec.Recent(w, 1);
    || d == 0
    || (d - prev) % TWO64 == 0
    || (d - 2 * prev + prev2) % TWO64 == 0
  }

  /** The three differences as `jent_stuck` forms them, each wrapped to 64 bits. */
  lemma StuckByDeltas(w: seq<u64>, d: u64)
    ensures var prev, prev2 := LagSpec.Recent(w, 0), LagSpec.Recent(w, 1);
            var delta2 := Delta(prev, d);
            Stuck(w, d) <==> d == 0 || delta2 == 0 || Delta(Delta(prev2, prev), delta2) == 0
  {
    SecondDifference(d, LagSpec.Recent(w, 0), LagSpec.Recent(w, 1));
  }

  lemma SecondDifference(x: int, y: int, z: int)
    ensures ((x - y) % TWO64 - (y - z) % TWO64) % TWO64 == (x - 2 * y + z) % TWO64
  {}

  /** The test with memory counts up to its cutoff with this delta. */
  predicate Alarm(t: Tests, w: seq<u64>, d: u64, c: Cutoffs) {
    t.prime == 0 && Mem.Tally(t.mem, Stuck(w, d)) == c.mem.intermittent
  }

  /** All tests after a delta that raises no alarm. A priming delta only enters the lag history. */
  ghost function Judge(t: Tests, w: seq<u64>, d: u64, c: Cutoffs): Tests {
    var lag := LagSpec.Raised(w + [d], c.lag);
    if t.prime > 0 then t.(prime := t.prime - 1, failure := t.failure + lag) else
    var stuck := Stuck(w, d);
    var (apt, aptRaised) := Apt.Insert(t.apt, d, c.apt);
    var (rct, rctRaised) := Rct.Insert(t.rct, stuck, c.rct);
    var memRaised := if Mem.Tally(t.mem, stuck) >= c.mem.permanent && Mem.Inside(t.mem) then {RctMemPermanent} else {};
    Tests(t.failure + aptRaised + lag + rctRaised + memRaised, rct, apt, Mem.Insert(t.mem, stuck), 0)
  }

  /** Holds of every collector. */
  ghost predicate Sound(t: Tests, c: Cutoffs) {
    && (RctPermanent !in t.failure ==> t.rct < c.rct.permanent)
    && t.rct < TWO32
    && t.mem.ctr <= t.mem.nosr
  }

  /** Holds within a block: the count is the block's own and has not met the cutoff. */
  ghost predicate Settled(t: Tests, c: Cutoffs) {
    t.mem.ctr == 0 || (t.mem.count < c.mem.intermittent && t.mem.count <= (t.mem.ctr + 2) / 3)
  }

  ghost predicate Grown(before: Tests, after: Tests) {
    && before.failure <= after.failure
    && (RctMemPermanent in after.failure ==> RctMemPermanent in before.failure)
  }

  /** The intermittent bit of the test with memory is only ever set by a recovery, in FIPS mode. */
  ghost predicate MemSet(before: Tests, after: Tests, fips: bool, inRecovery: bool, ext: seq<Event>) {
    RctMem in after.failure && RctMem !in before.failure ==> fips && (inRecovery || exists e :: e in ext && e.recovery)
  }

  lemma MemSetAppend(a: Tests, b: Tests, c: Tests, fips: bool, inRecovery: bool, ext: seq<Event>, more: seq<Event>)
    requires MemSet(a, b, fips, inRecovery, ext) && MemSet(b, c, fips, inRecovery, more)
    ensures MemSet(a, c, fips, inRecovery, ext + more)
  {
    assert forall e :: e in ext || e in more ==> e in ext + more;
  }

  lemma MemSetKept(a: Tests, b: Tests, fips: bool, inRecovery: bool, ext: seq<Event>)
    requires RctMem in b.failure ==> RctMem in a.failure
    ensures MemSet(a, b, fips, inRecovery, ext)
  {}

  lemma MemSetByRecovery(a: Tests, b: Tests, inRecovery: bool, nested: seq<Event>, e: Event)
    requires inRecovery || (nested != [] && nested[0].recovery)
    ensures MemSet(a, b, true, inRecovery, nested + [e])
  {
    assert nested != [] ==> nested[0] in nested + [e];
  }

  /** The window of the test with memory is over: nothing is counted until the next block. */
  ghost predicate Closed(t: Tests, c: Cutoffs) {
    t.mem.ctr == t.mem.nosr && Settled(t, c)
  }

  /** After an alarm, `ext` being what the recovery measured. */
  ghost predicate Recovered(before: Tests, after: Tests, inRecovery: bool, ext: seq<Event>, c: Cutoffs) {
    && Grown(before, after) && after.mem.nosr == before.mem.nosr
    && (inRecovery ==> ext == [] && RctMem in after.failure)
    && (!inRecovery ==> ext != [] && forall e :: e in ext ==> e.recovery)
    && (after.failure == {} ==>
          Closed(after, c) && Credits(ext, Combined, true) == RECOVERY_BLOCKS * after.mem.nosr)
  }

  /**
   One iteration of the collection loop, as its termination needs it: unless a test failed, a
   recovery has closed the window, or a delta was credited, used up as priming, or brought the
   stuck run closer to its permanent cutoff. The window never reopens.
   */
  ghost predicate Advanced(before: Tests, after: Tests, stuck: bool, recovered: bool, c: Cutoffs) {
    && Settled(after, c)
    && (recovered ==> Mem.Inside(before.mem) && after.mem.ctr == after.mem.nosr)
    && (!recovered ==>
          && (!Mem.Inside(before.mem) ==> after.mem.ctr == before.mem.ctr)
          && (Mem.Inside(before.mem) ==> before.mem.ctr <= after.mem.ctr)
          && (Mem.Inside(before.mem) && !stuck ==> after.mem.ctr == before.mem.ctr + 1)
          && (stuck ==>
                || (after.prime < before.prime && after.rct == before.rct)
                || (after.prime == before.prime && before.rct < after.rct < c.rct.permanent)))
  }

  lemma AdvancedByJudge(t: Tests, w: seq<u64>, d: u64, c: Cutoffs, osr: nat, fips: bool)
    requires Ordered(c, osr, fips) && Sound(t, c) && Settled(t, c) && !Alarm(t, w, d, c)
    ensures var t' := Judge(t, w, d, c);
      && Sound(t', c) && Grown(t, t') && t'.mem.nosr == t.mem.nosr
      && Settled(t', c)
      && (t'.failure == {} ==> Advanced(t, t', t.prime > 0 || Stuck(w, d), false, c))
  {
    JudgeKeeps(t, w, d, c, osr, fips);
    JudgeProgress(t, w, d, c, osr, fips);
    hide Judge;
    hide Alarm;
    hide Stuck;
  }

  /** What the table entries have in common. */
  ghost predicate Ordered(c: Cutoffs, osr: nat, fips: bool) {
    && CutoffTables.MIN_OSR <= osr <= CutoffTables.MAX_OSR
    && Rct.ValidCutoffs(c.rct) && Apt.ValidCutoffs(c.apt) && LagSpec.ValidCutoffs(c.lag)
    && 0 < c.mem.intermittent < c.mem.permanent && c.mem.intermittent <= 107 * osr
    && (!fips ==> c.mem.intermittent == 107 * osr)
  }

  lemma OrderedEntries(osr: nat, fips: bool, ntg1: bool)
    requires CutoffTables.MIN_OSR <= osr <= CutoffTables.MAX_OSR && (ntg1 ==> fips)
    ensures Ordered(CutoffTables.For(osr, ntg1), osr, fips)
  {
    CutoffTables.Orderings(osr, ntg1);
  }

  /** A quiet delta keeps the tests sound and settled, and never raises the permanent bit of the test with memory. */
  lemma JudgeKeeps(t: Tests, w: seq<u64>, d: u64, c: Cutoffs, osr: nat, fips: bool)
    requires Ordered(c, osr, fips) && Sound(t, c) && Settled(t, c) && !Alarm(t, w, d, c)
    ensures var t' := Judge(t, w, d, c);
      Sound(t', c) && Settled(t', c) && Grown(t, t') && t'.mem.nosr == t.mem.nosr
  {
    hide Stuck;
    hide LagSpec.Raised;
    hide Apt.Insert;
    var stuck := Stuck(w, d);
    assert t.prime == 0 ==> Mem.Tally(t.mem, stuck) < c.mem.intermittent;
    assert Judge(t, w, d, c).failure - t.failure <= {Lag, LagPermanent, Failures.Apt, AptPermanent, Failures.Rct, RctPermanent};
  }

  /** An alarm comes only from within the window, and only in FIPS mode. */
  lemma AlarmInside(t: Tests, w: seq<u64>, d: u64, c: Cutoffs, osr: nat, fips: bool)
    requires Ordered(c, osr, fips) && Settled(t, c) && t.mem.nosr == Nosr(osr, fips)
    requires Alarm(t, w, d, c)
    ensures fips && Mem.Inside(t.mem)
  {}

  /**
   Why the collection loop ends: as long as no test fails, a quiet delta is credited, or uses
   up a priming delta, or brings the stuck run closer to its permanent cutoff, and the window
   never reopens.
   */
  lemma JudgeProgress(t: Tests, w: seq<u64>, d: u64, c: Cutoffs, osr: nat, fips: bool)
    requires Ordered(c, osr, fips) && Sound(t, c) && !Alarm(t, w, d, c)
    ensures var t' := Judge(t, w, d, c);
      && (!Mem.Inside(t.mem) ==> !Mem.Inside(t'.mem))
      && (t.prime > 0 ==> t'.prime == t.prime - 1 && t'.rct == t.rct && t'.mem == t.mem)
      && (t.prime == 0 ==> t'.prime == 0)
      && (t.prime == 0 && Stuck(w, d) && t'.failure == {} ==> t.rct < t'.rct < c.rct.permanent)
      && (t.prime == 0 && Mem.Inside(t.mem) ==> t'.mem.ctr == t.mem.ctr + 1)
      && (!Mem.Inside(t.mem) ==> t'.mem.ctr == t.mem.ctr)
  {
    hide Stuck;
  }
}
