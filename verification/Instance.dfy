/**
 Instances of the Jitter RNG: allocation, the startup of a collector, and its replacement by
 one with a higher oversampling rate after a health-test failure.
 */
module Instances {
  import opened Words
  import opened Failures
  import opened Trace
  import opened EntropyPool
  import opened HealthTests
  import opened Ladder
  import opened JitterCollector
  import CutoffTables
  import Apt = AdaptiveProportion

  /** What a process cannot change: the system's FIPS mode and its caches. */
  datatype Platform = Platform(systemFips: bool, cache: Cache)

  class Process {
    const platform: Platform

    /** The one-way latch of `jent_notime_force`. */
    var timerForced: bool

    /** How many failed instances could not be replaced. */
    ghost var refusals: nat

    /** The rates at which the clock did not pass, in the order they were tried. */
    ghost var refusedRates: seq<nat>

    constructor (platform: Platform)
      ensures this.platform == platform && !timerForced && refusals == 0 && refusedRates == []
    {
      this.platform := platform;
      timerForced, refusals, refusedRates := false, 0, [];
    }

    /**
     `jent_time_entropy_init`: whether the clock passes is up to the noise. Measuring the
     internal timer forces it for the whole process; once forced, the platform clock is refused.
     */
    method TimeInit(flags: Flags) returns (passed: bool)
      modifies this`timerForced
      ensures old(timerForced) ==> timerForced
      ensures timerForced && !old(timerForced) ==> flags.forceTimer
      ensures passed ==> if flags.forceTimer then timerForced else !timerForced
    {
      var memory: bool := *;
      if !memory {
        return false;
      }
      if flags.forceTimer {
        timerForced := true;
      } else if timerForced {
        return false;
      }
      passed := *;
    }

    /** `jent_entropy_init_ex` */
    method InitEx(osr: nat, flags: Flags) returns (passed: bool)
      modifies this`timerForced, this`refusedRates
      ensures old(timerForced) ==> timerForced
      ensures timerForced && !old(timerForced) ==> !flags.disableTimer && !flags.ntg1
      ensures passed ==> osr <= CutoffTables.MAX_OSR && !(flags.disableTimer && flags.forceTimer)
      ensures passed ==> !(flags.disableMemory && (flags.ntg1 || flags.forceFips || platform.systemFips))
      ensures refusedRates == old(refusedRates) + if passed then [] else [osr]
    {
      passed := Measure(osr, flags);
      if !passed {
        refusedRates := refusedRates + [osr];
      }
    }

    method Measure(osr: nat, flags: Flags) returns (passed: bool)
      modifies this`timerForced
      ensures old(timerForced) ==> timerForced
      ensures timerForced && !old(timerForced) ==> !flags.disableTimer && !flags.ntg1
      ensures passed ==> osr <= CutoffTables.MAX_OSR && !(flags.disableTimer && flags.forceTimer)
      ensures passed ==> !(flags.disableMemory && (flags.ntg1 || flags.forceFips || platform.systemFips))
    {
      var contradicts := flags.disableMemory && (flags.ntg1 || flags.forceFips || platform.systemFips);
      if osr > CutoffTables.MAX_OSR || contradicts || (flags.disableTimer && flags.forceTimer) {
        return false;
      }
      if flags.ntg1 && flags.forceTimer {
        return false;
      }
      var selfTests: bool := *;
      if !selfTests {
        return false;
      }
      passed := false;
      if !flags.forceTimer {
        passed := TimeInit(flags.(disableTimer := true));
      }
      if !passed && !flags.disableTimer && !flags.ntg1 {
        passed := TimeInit(flags.(forceTimer := true));
      }
    }
  }

  /** What identifies an instance and counts its output. */
  datatype Account = Account(uuid: string, reinits: nat, readCount: u64, byteCount: u64, maxMemSet: bool)

  function Sum(s: seq<nat>): nat {
    if s == [] then 0 else Sum(s[..|s| - 1]) + s[|s| - 1]
  }

  /** The counters are the number and the sum of the lengths, in 64 bits. */
  ghost predicate Tallied(a: Account, lengths: seq<nat>) {
    a.readCount == |lengths| % TWO64 && a.byteCount == Sum(lengths) % TWO64
  }

  /** A collector together with its configuration and its accounting. */
  class Instance {
    const engine: Collector
    const flags: Flags
    const notime: bool
    const hashLoops: nat
    const memSize: nat
    var account: Account

    /** Set and cleared by self tests, which may run on another thread at any time. */
    var selftestFailed: bool

    /** The lengths of all successful reads of this instance, across all its replacements. */
    ghost var lengths: seq<nat>

    ghost function Repr(): set<object> {
      {this} + engine.Repr()
    }

    ghost predicate Configured(pf: Platform) {
      && (!flags.disableMemory ==> Normal(flags.memField, flags.cacheAll, pf.cache))
      && engine.fips == (flags.forceFips || pf.systemFips || flags.ntg1)
      && engine.ntg1 == flags.ntg1 && engine.osr >= CutoffTables.MIN_OSR
      && hashLoops == HashLoops(flags.hashField)
      && memSize == (if flags.disableMemory then 0 else MemSize(flags.memField))
      && (notime ==> !flags.disableTimer) && (flags.forceTimer ==> notime) && (flags.ntg1 ==> flags.disableTimer)
    }

    ghost predicate Accounted()
      reads this`account, this`lengths
    {
      && Tallied(account, lengths)
      && (account.maxMemSet ==> flags.memField > 0)
    }

    ghost predicate Valid(pf: Platform)
      reads Repr()
    {
      engine.Valid() && !engine.inRecovery && Configured(pf) && Accounted()
    }

    /** As allocated: nothing measured yet, the startup of a compliance mode ahead. */
    ghost predicate New()
      reads this, engine
    {
      && engine.startupState == (if engine.fips then MemoryStage else Completed)
      && engine.trace == [] && engine.pool == Pool(false, []) && engine.tests.failure == {}
    }

    constructor (engine: Collector, flags: Flags, notime: bool, maxMemSet: bool)
      ensures this.engine == engine && this.flags == flags && this.notime == notime
      ensures hashLoops == HashLoops(flags.hashField) && memSize == (if flags.disableMemory then 0 else MemSize(flags.memField))
      ensures account == Account("", 0, 0, 0, maxMemSet) && lengths == []
    {
      this.engine, this.flags, this.notime := engine, flags, notime;
      hashLoops, memSize := HashLoops(flags.hashField), if flags.disableMemory then 0 else MemSize(flags.memField);
      account, selftestFailed, lengths := Account("", 0, 0, 0, maxMemSet), false, [];
    }
  }

  /** The flags as the allocation stores them. */
  function Stored(f: Flags, cache: Cache): Flags {
    f.(disableTimer := f.disableTimer || f.ntg1,
       memField := if f.disableMemory then f.memField else UpdateMem(f.memField, 0, f.cacheAll, cache),
       hashField := UpdateHash(f.hashField, 0))
  }

  /**
   `jent_entropy_collector_alloc_internal` for a collector that is to generate: whether it may,
   on which clock, and with which divisor of that clock.
   */
  method Decide(p: Process, rate: nat, flags: Flags) returns (go: bool, notime: bool, gcd: u64)
    modifies p`timerForced, p`refusedRates
    ensures old(p.timerForced) ==> p.timerForced
    ensures p.timerForced && !old(p.timerForced) ==> !flags.disableTimer && !flags.ntg1
    ensures go ==>
      && p.refusedRates == old(p.refusedRates)
      && rate <= CutoffTables.MAX_OSR && gcd > 0
      && (notime ==> !flags.disableTimer && !flags.ntg1) && (flags.forceTimer ==> notime)
      && (notime <==> p.timerForced)
  {
    go, notime, gcd := false, false, 0;
    if (flags.disableTimer || flags.ntg1) && flags.forceTimer {
      return;
    }
    if rate > CutoffTables.MAX_OSR {
      return;
    }
    var initialized: bool := *;
    if !initialized {
      var passed := p.InitEx(rate, flags);
      if !passed {
        return;
      }
    }
    var disabled := flags.disableTimer || flags.ntg1;
    if p.timerForced && disabled {
      return;
    }
    var memory: bool := *;
    if !memory {
      return;
    }
    if !disabled && (p.timerForced || flags.forceTimer) {
      if !p.timerForced {
        var passed := p.TimeInit(flags.(forceTimer := true));
        if !passed {
          return;
        }
      }
      notime := true;
      var thread: bool := *;
      if !thread {
        return;
      }
    }
    go := *;
    gcd := *;
    go := go && gcd > 0;
  }

  lemma UpdatedIsNormal(field: nat, cacheAll: bool, cache: Cache)
    ensures Normal(UpdateMem(field, 0, cacheAll, cache), cacheAll, cache)
  {
    hide AutoField;
  }

  lemma AllocatedIsConfigured(ec: Instance, flags: Flags, pf: Platform)
    requires ec.flags == Stored(flags, pf.cache) && ec.hashLoops == HashLoops(ec.flags.hashField)
    requires ec.memSize == if ec.flags.disableMemory then 0 else MemSize(ec.flags.memField)
    requires ec.engine.osr >= CutoffTables.MIN_OSR && ec.engine.ntg1 == ec.flags.ntg1
    requires ec.engine.fips == (ec.flags.forceFips || pf.systemFips || ec.flags.ntg1)
    requires (ec.notime ==> !flags.disableTimer && !flags.ntg1) && (flags.forceTimer ==> ec.notime)
    ensures ec.Configured(pf)
  {
    hide HashLoops;
    hide MemSize;
    hide UpdateMem;
    hide UpdateHash;
    hide Normal;
    UpdatedIsNormal(flags.memField, flags.cacheAll, pf.cache);
  }

  /** `jent_entropy_collector_alloc_internal` */
  method AllocInternal(p: Process, osr: nat, flags: Flags) returns (ec: Instance?)
    modifies p`timerForced, p`refusedRates
    ensures old(p.timerForced) ==> p.timerForced
    ensures p.timerForced && !old(p.timerForced) ==> !flags.disableTimer && !flags.ntg1
    ensures ec != null ==>
      && p.refusedRates == old(p.refusedRates)
      && fresh(ec.Repr()) && ec.New() && ec.engine.Valid() && !ec.engine.inRecovery && ec.Configured(p.platform)
      && ec.engine.osr == (if osr < CutoffTables.MIN_OSR then CutoffTables.MIN_OSR else osr)
      && ec.flags == Stored(flags, p.platform.cache)
      && (flags.disableTimer ==> !ec.notime) && (flags.forceTimer ==> ec.notime) && (ec.notime <==> p.timerForced)
      && ec.account == Account("", 0, 0, 0, flags.memField != 0) && ec.lengths == []
  {
    hide Collector.Valid;
    hide CutoffTables.For;
    hide HashLoops;
    hide MemSize;
    hide Stored;
    hide Instance.Configured;
    var rate := if osr < CutoffTables.MIN_OSR then CutoffTables.MIN_OSR else osr;
    var go, notime, gcd := Decide(p, rate, flags);
    if !go {
      return null;
    }
    var f := Stored(flags, p.platform.cache);
    var engine := new Collector(rate, f.forceFips || p.platform.systemFips || f.ntg1, f.ntg1, gcd);
    ec := new Instance(engine, f, notime, flags.memField != 0);
    AllocatedIsConfigured(ec, flags, p.platform);
  }

  // ----- replacing a failed collector

  /** What a caller can tell an instance by, and what a replacement keeps or raises. */
  datatype View = View(osr: nat, fips: bool, notime: bool, hashLoops: nat, memSize: nat, account: Account, lengths: seq<nat>)

  ghost function ViewOf(ec: Instance): View
    reads ec`account, ec`lengths
  {
    View(ec.engine.osr, ec.engine.fips, ec.notime, ec.hashLoops, ec.memSize, ec.account, ec.lengths)
  }

  /**
   `b` is reached from `a` by replacements: each one raises the oversampling rate and doubles
   the hash loops up to 128; memory grows up to 512 MB unless the caller fixed it; a compliance
   mode keeps its clock; identity and output accounting carry over.
   */
  ghost predicate Climbed(a: View, b: View) {
    && a.osr <= b.osr <= CutoffTables.MAX_OSR
    && a.account.reinits <= b.account.reinits && b.account.reinits - a.account.reinits <= b.osr - a.osr
    && b.account == a.account.(reinits := b.account.reinits) && b.lengths == a.lengths
    && b.fips == a.fips && (a.fips ==> b.notime == a.notime)
    && b.hashLoops == Min(a.hashLoops * Pow2(b.account.reinits - a.account.reinits), 128)
    && a.memSize <= b.memSize <= 0x2000_0000 && (a.account.maxMemSet ==> b.memSize == a.memSize)
  }

  lemma ClimbedTransitive(a: View, b: View, c: View)
    requires Climbed(a, b) && Climbed(b, c)
    ensures Climbed(a, c)
  {
    var i, j := b.account.reinits - a.account.reinits, c.account.reinits - b.account.reinits;
    MinMultiply(a.hashLoops, i, j);
    hide Pow2;
  }

  lemma {:induction false} Pow2Sum(i: nat, j: nat)
    ensures Pow2(i) * Pow2(j) == Pow2(i + j)
  {
    hide Pow2;
    if j == 0 {
      Pow2Values();
    } else {
      Pow2Sum(i, j - 1);
      Pow2Step(j - 1);
      Pow2Step(i + j - 1);
      DoubleFactor(Pow2(i), Pow2(j - 1));
    }
  }

  lemma DoubleFactor(a: nat, b: nat)
    ensures a * (2 * b) == 2 * (a * b)
  {}

  lemma MinMultiply(x: nat, i: nat, j: nat)
    ensures Min(Min(x * Pow2(i), 128) * Pow2(j), 128) == Min(x * Pow2(i + j), 128)
  {
    Pow2Sum(i, j);
    var a, b := Pow2(i), Pow2(j);
    hide Pow2;
    assert x * a * b == x * (a * b);
    if x * a > 128 {
      assert 128 * b >= 128;
      assert x * a * b >= 128 * b by {
        MulGrows(128, x * a, b);
      }
    }
  }

  lemma MulGrows(a: nat, b: nat, c: nat)
    requires a <= b
    ensures a * c <= b * c
  {}

  /** The flags a replacement is allocated with. */
  function Raised(f: Flags, fips: bool, notime: bool, maxMemSet: bool, cache: Cache): Flags {
    f.(forceTimer := f.forceTimer || (fips && notime),
       disableTimer := f.disableTimer || (fips && !notime),
       memField := if maxMemSet then f.memField else UpdateMem(f.memField, 1, f.cacheAll, cache),
       hashField := UpdateHash(f.hashField, 1))
  }

  /** The replacement doubles the hash loops; its memory doubles too, or stays if the caller fixed it. */
  lemma RaisedSizes(f: Flags, fips: bool, notime: bool, maxMemSet: bool, cache: Cache)
    requires !f.disableMemory ==> Normal(f.memField, f.cacheAll, cache)
    requires maxMemSet ==> f.memField > 0
    ensures var g := Stored(Raised(f, fips, notime, maxMemSet, cache), cache);
      && HashLoops(g.hashField) == Min(2 * HashLoops(f.hashField), 128)
      && (maxMemSet ==> g.memField > 0)
      && (!f.disableMemory ==>
            && MemSize(f.memField) <= MemSize(g.memField) <= 0x2000_0000
            && (maxMemSet ==> g.memField == f.memField)
            && (!maxMemSet && f.memField > 0 ==> MemSize(g.memField) == Min(2 * MemSize(f.memField), 0x2000_0000)))
  {
    hide Pow2;
    hide AutoField;
    HashLoopsDouble(f.hashField);
    HashLoopsDouble(UpdateHash(f.hashField, 1));
    hide HashLoops;
    hide UpdateHash;
    if !f.disableMemory {
      MemSizeDoubles(f.memField, f.cacheAll, cache);
      MemSizeDoubles(UpdateMem(f.memField, 1, f.cacheAll, cache), f.cacheAll, cache);
    }
  }

  /** The rates from `first` up to, but not with, `last`. */
  function Rates(first: nat, last: nat): (r: seq<nat>)
    requires first <= last
    ensures |r| == last - first && forall i :: 0 <= i < |r| ==> r[i] == first + i
  {
    seq(last - first, i => first + i)
  }

  /** The first rate from `first` on at which the clock passes its startup measurement; none if all are refused. */
  method FindRate(p: Process, first: nat, flags: Flags) returns (found: bool, rate: nat)
    requires first <= CutoffTables.MAX_OSR
    modifies p`timerForced, p`refusedRates
    ensures old(p.timerForced) ==> p.timerForced
    ensures p.timerForced && !old(p.timerForced) ==> !flags.disableTimer && !flags.ntg1
    ensures found ==> first <= rate <= CutoffTables.MAX_OSR
    ensures p.refusedRates == old(p.refusedRates) + Rates(first, if found then rate else CutoffTables.MAX_OSR + 1)
  {
    rate := first;
    found := p.InitEx(rate, flags);
    while !found
      invariant first <= rate <= CutoffTables.MAX_OSR
      invariant old(p.timerForced) ==> p.timerForced
      invariant p.timerForced && !old(p.timerForced) ==> !flags.disableTimer && !flags.ntg1
      invariant p.refusedRates == old(p.refusedRates) + Rates(first, if found then rate else rate + 1)
      decreases CutoffTables.MAX_OSR - rate
    {
      rate := rate + 1;
      if rate > CutoffTables.MAX_OSR {
        return;
      }
      found := p.InitEx(rate, flags);
    }
  }

  /** The mode stays; a compliance mode pins its clock. */
  lemma RaisedMode(f: Flags, fips: bool, notime: bool, maxMemSet: bool, cache: Cache)
    requires maxMemSet ==> f.memField > 0
    ensures var r := Raised(f, fips, notime, maxMemSet, cache);
            var g := Stored(r, cache);
      && r.ntg1 == g.ntg1 == f.ntg1 && g.forceFips == f.forceFips && g.disableMemory == f.disableMemory
      && r.disableTimer == (f.disableTimer || (fips && !notime)) && r.forceTimer == (f.forceTimer || (fips && notime))
      && (maxMemSet ==> r.memField > 0)
  {
    hide UpdateMem;
    hide UpdateHash;
  }

  lemma ReplacementFits(ec: Instance, next: Instance, maxMemSet: bool, pf: Platform)
    requires ec.Configured(pf) && next.Configured(pf) && (maxMemSet ==> ec.flags.memField > 0)
    requires var r := Raised(ec.flags, ec.engine.fips, ec.notime, maxMemSet, pf.cache);
      next.flags == Stored(r, pf.cache) && (r.disableTimer ==> !next.notime) && (r.forceTimer ==> next.notime)
    ensures next.engine.fips == ec.engine.fips && (ec.engine.fips ==> next.notime == ec.notime)
    ensures ec.engine.osr >= CutoffTables.MIN_OSR && next.hashLoops == Min(2 * ec.hashLoops, 128)
    ensures ec.memSize <= next.memSize <= 0x2000_0000
    ensures maxMemSet ==> next.memSize == ec.memSize && next.flags.memField > 0
    ensures ec.memSize > 0 && ec.flags.memField > 0 && !maxMemSet ==> next.memSize == Min(2 * ec.memSize, 0x2000_0000)
  {
    hide HashLoops;
    hide MemSize;
    hide UpdateMem;
    hide UpdateHash;
    hide Normal;
    hide Raised;
    hide Stored;
    RaisedSizes(ec.flags, ec.engine.fips, ec.notime, maxMemSet, pf.cache);
    RaisedMode(ec.flags, ec.engine.fips, ec.notime, maxMemSet, pf.cache);
  }

  /**
   The part of `jent_health_failure_reset` up to the replacement that carries everything over.
   The failed collector is not touched.
   */
  method Replace(p: Process, ec: Instance) returns (next: Instance?)
    requires ec.Valid(p.platform)
    modifies p`timerForced, p`refusedRates
    ensures old(p.timerForced) ==> p.timerForced
    ensures ec.engine.fips && !ec.notime ==> p.timerForced == old(p.timerForced)
    ensures next != null ==>
      && fresh(next.Repr()) && next.Valid(p.platform) && next.New()
      && Climbed(ViewOf(ec), ViewOf(next)) && next.account.reinits == ec.account.reinits + 1
      && ec.engine.osr < next.engine.osr && p.refusedRates == old(p.refusedRates) + Rates(ec.engine.osr + 1, next.engine.osr)
      && (ec.memSize > 0 && ec.flags.memField > 0 && !ec.account.maxMemSet ==> next.memSize == Min(2 * ec.memSize, 0x2000_0000))
  {
    hide Collector.Valid;
    hide Instance.Configured;
    hide Sum;
    hide Rates;
    hide Climbed;
    hide Raised;
    hide Stored;
    if ec.engine.osr + 1 > CutoffTables.MAX_OSR {
      return null;
    }
    var flags := Raised(ec.flags, ec.engine.fips, ec.notime, ec.account.maxMemSet, p.platform.cache);
    RaisedMode(ec.flags, ec.engine.fips, ec.notime, ec.account.maxMemSet, p.platform.cache);
    var found, osr := FindRate(p, ec.engine.osr + 1, flags);
    if !found {
      return null;
    }
    next := AllocInternal(p, osr, flags);
    if next == null {
      return;
    }
    ReplacementFits(ec, next, ec.account.maxMemSet, p.platform);
    next.account := ec.account.(reinits := ec.account.reinits + 1);
    next.lengths := ec.lengths;
    ClimbedOnce(ViewOf(ec), ViewOf(next));
  }

  lemma ClimbedOnce(a: View, b: View)
    requires a.osr < b.osr <= CutoffTables.MAX_OSR && b.fips == a.fips && (a.fips ==> b.notime == a.notime)
    requires b.account == a.account.(reinits := a.account.reinits + 1) && b.lengths == a.lengths
    requires b.hashLoops == Min(2 * a.hashLoops, 128)
    requires a.memSize <= b.memSize <= 0x2000_0000 && (a.account.maxMemSet ==> b.memSize == a.memSize)
    ensures Climbed(a, b)
  {
    Pow2Values();
  }

  /**
   Both startup stages of a compliance mode were passed by this very collector, at its own rate,
   memory access before the hash loop, and its pool holds what they measured and nothing else.
   */
  ghost predicate Started(ec: Instance)
    reads ec.engine
  {
    && ec.engine.startupState == Completed && ec.engine.Failing() == {}
    && ec.engine.pool == Absorb(Pool(false, []), Absorbed(ec.engine.trace))
    && (ec.engine.fips ==>
          && Credits(ec.engine.trace, MemoryAccess, false) == 321 * ec.engine.osr
          && Credits(ec.engine.trace, HashLoop, false) == 321 * ec.engine.osr
          && exists k :: InTurn(ec.engine.trace, k, false, 321 * ec.engine.osr))
  }

  /** What the health tests of a collector stand on. */
  datatype Standing = Standing(tests: Tests, window: seq<u64>, cutoffs: CutoffTables.Cutoffs, notime: bool)

  ghost function StandingOf(ec: Instance): Standing
    reads ec.engine, ec.engine.lag
  {
    Standing(ec.engine.tests, ec.engine.lag.window, ec.engine.cutoffs, ec.notime)
  }

  /** The health tests of `b` stand at the intermittent cutoffs, and after the deltas of `a` on the same clock. */
  ghost predicate Continues(b: Standing, a: Standing) {
    && b.tests.rct == b.cutoffs.rct.intermittent && b.tests.mem.count == a.cutoffs.mem.intermittent
    && (b.notime == a.notime ==> b.window == a.window)
    && (b.notime == a.notime && a.tests.apt.observations > 0 ==>
          b.tests.apt == Apt.State(true, a.tests.apt.base, b.cutoffs.apt.intermittent, a.tests.apt.observations))
  }

  /** One collector's turn in a startup: how its tests stand before it measures and after. */
  datatype Turn = Turn(begin: Standing, end: Standing)

  ghost predicate GoesOn(b: Standing, a: Standing) {
    Continues(b, a) && a.tests.failure != {}
  }

  /** Every turn after the first goes on from the one before it, which failed. */
  ghost predicate Relay(turns: seq<Turn>) {
    forall j, k :: 0 <= j < |turns| && 0 <= k < |turns| && k == j + 1 ==> GoesOn(turns[k].begin, turns[j].end)
  }

  lemma RelayStep(turns: seq<Turn>, t: Turn)
    requires Relay(turns) && (turns != [] ==> GoesOn(t.begin, turns[|turns| - 1].end))
    ensures Relay(turns + [t])
  {
    hide GoesOn;
  }

  /** One collector's turn in the startup, and on a failure the replacement that takes the next one. */
  method TakeTurn(p: Process, ec: Instance, patience: nat)
    returns (out: Instance?, again: bool, finished: bool, left: nat, ghost turn: Turn)
    requires ec.Valid(p.platform) && ec.New()
    modifies p`timerForced, p`refusedRates, ec.engine.Repr()
    ensures old(p.timerForced) ==> p.timerForced
    ensures ec.engine.fips ==> finished && (!ec.notime ==> p.timerForced == old(p.timerForced))
    ensures turn == Turn(old(StandingOf(ec)), StandingOf(ec))
    ensures again ==>
      && out != null && fresh(out.Repr()) && out.Valid(p.platform) && out.New()
      && Climbed(old(ViewOf(ec)), ViewOf(out)) && out.account.reinits == ec.account.reinits + 1
      && GoesOn(StandingOf(out), turn.end)
    ensures !again && out != null ==> out == ec && out.Valid(p.platform) && (finished ==> Started(out))
    ensures out == null ==> finished
  {
    hide Collector.Valid;
    hide Climbed;
    hide Credits;
    hide InTurn;
    hide Absorbed;
    hide Continues;
    hide Sum;
    hide Instance.Configured;
    ghost var begin, ext := StandingOf(ec), [];
    finished, left, ext := ec.engine.RandomData(patience);
    turn := Turn(begin, StandingOf(ec));
    out, again := ec, false;
    if !finished || ec.engine.Failing() == {} {
      assert [] + ext == ext;
      return;
    }
    out := ResetInStartup(p, ec);
    again := out != null;
  }

  /**
   `jent_entropy_collector_startup`. It ends, with a started collector or with none: every
   failure costs a step of the oversampling rate. Outside the compliance modes the collection
   may still be going on when `patience` runs out. A replacement does not start afresh: its tests
   continue those of the collector that failed.
   */
  method Startup(p: Process, ec: Instance, patience: nat)
    returns (out: Instance?, finished: bool, left: nat, ghost turns: seq<Turn>)
    requires ec.Valid(p.platform) && ec.New()
    modifies p`timerForced, p`refusedRates, ec.engine.Repr()
    ensures old(p.timerForced) ==> p.timerForced
    ensures ec.engine.fips ==> finished && (!ec.notime ==> p.timerForced == old(p.timerForced))
    ensures out != null ==>
      && out.Valid(p.platform) && (out == ec || fresh(out.Repr()))
      && Climbed(old(ViewOf(ec)), ViewOf(out))
      && (finished ==> Started(out))
      && turns != [] && turns[|turns| - 1].end == StandingOf(out)
      && out.account.reinits == ec.account.reinits + |turns| - 1
    ensures Relay(turns) && (turns != [] ==> turns[0].begin == old(StandingOf(ec)))
  {
    hide Collector.Valid;
    hide Climbed;
    hide Started;
    hide GoesOn;
    hide Sum;
    hide Instance.Configured;
    assert Relay([]);
    hide Relay;
    finished, left, turns := true, patience, [];
    var cur: Instance := ec;
    ClimbedReflexive(ec, p.platform);
    while true
      invariant cur.Valid(p.platform) && cur.New() && (cur == ec || fresh(cur.Repr()))
      invariant Climbed(old(ViewOf(ec)), ViewOf(cur))
      invariant cur.engine.fips == ec.engine.fips && (ec.engine.fips ==> cur.notime == ec.notime)
      invariant old(p.timerForced) ==> p.timerForced
      invariant ec.engine.fips && !ec.notime ==> p.timerForced == old(p.timerForced)
      invariant Relay(turns) && cur.account.reinits == ec.account.reinits + |turns|
      invariant if turns == [] then StandingOf(cur) == old(StandingOf(ec)) else GoesOn(StandingOf(cur), turns[|turns| - 1].end)
      invariant turns != [] ==> turns[0].begin == old(StandingOf(ec))
      decreases CutoffTables.MAX_OSR - cur.engine.osr
    {
      var ticking: bool := *;
      if cur.notime && !ticking {
        return null, true, left, turns;
      }
      ghost var view := ViewOf(cur);
      var again;
      ghost var turn;
      out, again, finished, left, turn := TakeTurn(p, cur, left);
      RelayStep(turns, turn);
      turns := turns + [turn];
      if !again {
        return;
      }
      ClimbedStep(old(ViewOf(ec)), view, ViewOf(out));
      cur := out;
    }
  }

  lemma ClimbedReflexive(ec: Instance, pf: Platform)
    requires ec.Valid(pf)
    ensures Climbed(ViewOf(ec), ViewOf(ec))
  {
    HashBound(ec.flags.hashField);
    if !ec.flags.disableMemory {
      MemSizeDoubles(ec.flags.memField, ec.flags.cacheAll, pf.cache);
    }
    Pow2Values();
    hide Pow2;
  }

  lemma HashBound(field: nat)
    ensures HashLoops(field) <= 128
  {
    hide Pow2;
    Pow2Values();
    Pow2Grows(Min(if field == 0 then 1 else field, MAX_HASH_FIELD) - 1, 7);
  }

  lemma ClimbedStep(a: View, b: View, c: View)
    requires Climbed(a, b) && Climbed(b, c) && c.account.reinits > b.account.reinits
    ensures Climbed(a, c) && b.osr < c.osr <= CutoffTables.MAX_OSR && c.fips == a.fips && (a.fips ==> c.notime == a.notime)
  {
    ClimbedTransitive(a, b, c);
    hide Pow2;
  }

  method Carry(next: Instance, ec: Instance, ghost pf: Platform)
    requires next.Valid(pf) && ec.engine.Valid() && next.engine.Repr() !! ec.engine.Repr()
    modifies next.engine`tests, next.engine`streams, next.engine.lag, next.engine.lag.history, next.engine.lag.scoreboard
    ensures next.Valid(pf) && next.engine.tests.failure == old(next.engine.tests.failure)
    ensures Started(next) == old(Started(next))
    ensures Continues(StandingOf(next), StandingOf(ec))
  {
    hide Credits;
    hide InTurn;
    hide Absorbed;
    hide Collector.Valid;
    hide Instance.Configured;
    hide Sum;
    next.engine.HealthDuplicate(ec.engine, next.notime == ec.notime);
  }

  /** `jent_health_failure_reset` within a startup, which then goes on with the replacement. */
  method ResetInStartup(p: Process, ec: Instance) returns (next: Instance?)
    requires ec.Valid(p.platform)
    modifies p`timerForced, p`refusedRates
    ensures old(p.timerForced) ==> p.timerForced
    ensures ec.engine.fips && !ec.notime ==> p.timerForced == old(p.timerForced)
    ensures next != null ==>
      && fresh(next.Repr()) && next.Valid(p.platform) && next.New()
      && Climbed(ViewOf(ec), ViewOf(next)) && next.account.reinits == ec.account.reinits + 1
      && Continues(StandingOf(next), StandingOf(ec))
  {
    hide Collector.Valid;
    hide Climbed;
    hide Continues;
    hide Rates;
    next := Replace(p, ec);
    if next != null {
      assert ec.engine.Repr() !! {p} + next.engine.Repr();
      Carry(next, ec, p.platform);
    }
  }

  /**
   `jent_health_failure_reset` after a failed read: the replacement runs its own startup before
   it continues from the intermittent cutoffs. A failed reset leaves the instance as it was.
   */
  method Reset(p: Process, ec: Instance, patience: nat) returns (ok: bool, out: Instance, finished: bool, left: nat)
    requires ec.Valid(p.platform)
    modifies p
    ensures old(p.timerForced) ==> p.timerForced
    ensures ec.engine.fips ==> finished && (!ec.notime ==> p.timerForced == old(p.timerForced))
    ensures p.refusals == old(p.refusals) + if ok then 0 else 1
    ensures !ok ==> out == ec
    ensures ok ==>
      && fresh(out.Repr()) && out.Valid(p.platform)
      && Climbed(ViewOf(ec), ViewOf(out)) && ec.account.reinits < out.account.reinits && ec.engine.osr < out.engine.osr
      && (finished ==> Started(out))
      && Continues(StandingOf(out), StandingOf(ec))
  {
    hide Collector.Valid;
    hide Climbed;
    hide Credits;
    hide Sum;
    hide Instance.Configured;
    hide Instance.Accounted;
    hide Continues;
    hide Started;
    hide Relay;
    hide Rates;
    hide Instance.New;
    hide Min;
    ok, out, finished, left := false, ec, true, patience;
    var next := Replace(p, ec);
    if next == null {
      p.refusals := p.refusals + 1;
      return;
    }
    ghost var view := ViewOf(next);
    ClimbedBounds(ViewOf(ec), view);
    var started;
    ghost var turns;
    started, finished, left, turns := Startup(p, next, patience);
    if started == null {
      p.refusals := p.refusals + 1;
      return;
    }
    ClimbedTwice(ViewOf(ec), view, ViewOf(started));
    assert ec.engine.Repr() !! {p} + next.engine.Repr() + started.engine.Repr();
    Carry(started, ec, p.platform);
    ok, out := true, started;
  }

  lemma ClimbedTwice(a: View, b: View, c: View)
    requires Climbed(a, b) && Climbed(b, c) && b.account.reinits == a.account.reinits + 1
    ensures Climbed(a, c) && a.osr < c.osr && a.account.reinits < c.account.reinits
  {
    ClimbedTransitive(a, b, c);
    hide Pow2;
  }

  /**
   `jent_entropy_collector_alloc`: what a caller gets has passed its startup. Every replacement
   on the way there shows in its rate, and a compliance mode never runs without memory access.
   */
  method Alloc(p: Process, osr: nat, flags: Flags, patience: nat) returns (ec: Instance?, finished: bool)
    modifies p`timerForced, p`refusedRates
    ensures old(p.timerForced) ==> p.timerForced
    ensures ec != null ==>
      && fresh(ec.Repr()) && ec.Valid(p.platform) && (finished ==> Started(ec)) && (ec.engine.fips ==> finished)
      && osr + ec.account.reinits <= ec.engine.osr <= CutoffTables.MAX_OSR
      && CutoffTables.MIN_OSR + ec.account.reinits <= ec.engine.osr
      && ec.engine.fips == (flags.forceFips || p.platform.systemFips || flags.ntg1)
      && (ec.engine.fips ==> ec.memSize > 0 && (flags.disableTimer ==> !ec.notime) && (flags.forceTimer ==> ec.notime))
      && ec.account.readCount == ec.account.byteCount == 0 && ec.lengths == []
  {
    hide Collector.Valid;
    hide Climbed;
    hide Credits;
    hide Started;
    hide Stored;
    hide Relay;
    hide Instance.Configured;
    hide Instance.Accounted;
    hide Instance.New;
    ec, finished := null, true;
    if flags.disableMemory && (flags.ntg1 || flags.forceFips || p.platform.systemFips) {
      return;
    }
    var secure: bool := *;
    var first := AllocInternal(p, osr, flags.(secureMem := flags.secureMem || secure));
    if first == null {
      return;
    }
    AllocatedMode(first, flags.(secureMem := flags.secureMem || secure), p.platform);
    AllocatedIsAccounted(first);
    ghost var view := ViewOf(first);
    var left;
    ghost var turns;
    ec, finished, left, turns := Startup(p, first, patience);
    if ec != null {
      ClimbedBounds(view, ViewOf(ec));
      Identify(ec, p.platform);
    }
  }

  /** The unique identifier, from the platform. */
  method Identify(ec: Instance, ghost pf: Platform)
    requires ec.Valid(pf)
    modifies ec`account
    ensures ec.Valid(pf) && ec.account == old(ec.account).(uuid := ec.account.uuid)
  {
    hide Collector.Valid;
    hide Instance.Configured;
    assert ec !in ec.engine.Repr();
    var uuid: string := *;
    ec.account := ec.account.(uuid := uuid);
  }

  lemma AllocatedIsAccounted(ec: Instance)
    requires ec.account.readCount == ec.account.byteCount == 0 && ec.lengths == []
    requires ec.account.maxMemSet ==> ec.flags.memField > 0
    ensures ec.Accounted()
  {}

  lemma AllocatedMode(ec: Instance, flags: Flags, pf: Platform)
    requires ec.Configured(pf) && ec.flags == Stored(flags, pf.cache)
    ensures ec.engine.fips == (flags.forceFips || pf.systemFips || flags.ntg1)
    ensures !flags.disableMemory ==> ec.memSize > 0
    ensures flags.memField > 0 ==> ec.flags.memField > 0
  {
    hide Pow2;
    hide HashLoops;
    hide UpdateHash;
  }

  lemma ClimbedBounds(a: View, b: View)
    requires Climbed(a, b)
    ensures b.account.reinits - a.account.reinits <= b.osr - a.osr && b.osr <= CutoffTables.MAX_OSR
    ensures b.account == a.account.(reinits := b.account.reinits) && b.lengths == a.lengths
    ensures b.fips == a.fips && (a.fips ==> b.notime == a.notime) && a.memSize <= b.memSize
  {}
}
