/**
 The health-test engine and the block generator: the part of `struct rand_data` that the noise
 sources and the health tests update in place.
 */
module JitterCollector {
  import opened Words
  import Bytes
  import opened Failures
  import opened Trace
  import opened EntropyPool
  import opened HealthTests
  import opened Streams
  import Verdicts
  import Alarms
  import LagSpec
  import LagTest
  import Apt = AdaptiveProportion
  import Rct = RepetitionCount
  import Mem = RepetitionCountMemory
  import CutoffTables
  import Xdrbg
  import opened Sponge
  import Lanes64

  datatype StartupState = Completed | HashStage | MemoryStage

  function Repeated(i: nat, n: nat): nat {
    if i == 0 then 0 else Repeated(i - 1, n) + n
  }

  lemma TenTimes(n: nat)
    ensures Repeated(RECOVERY_BLOCKS, n) == RECOVERY_BLOCKS * n
  {
    assert Repeated(1, n) == n;
    assert Repeated(2, n) == 2 * n;
    assert Repeated(4, n) == 4 * n;
    assert Repeated(6, n) == 6 * n;
    assert Repeated(8, n) == 8 * n;
  }

  class Collector {
    const osr: nat
    const fips: bool
    const ntg1: bool
    const timerGcd: u64
    const cutoffs: Cutoffs

    var prevTime: u64
    var pool: Pool
    var startupState: StartupState
    var inRecovery: bool
    var tests: Tests
    const lag: LagTest.LagPredictor

    ghost var trace: seq<Event>
    ghost var streams: seq<Stream>

    ghost function Repr(): set<object> {
      {this, lag, lag.history, lag.scoreboard}
    }

    ghost predicate Valid()
      reads Repr()
    {
      && Ordered(cutoffs, osr, fips)
      && (ntg1 ==> fips)
      && timerGcd > 0
      && lag.Valid() && lag.cutoffs == cutoffs.lag
      && (startupState != Completed ==> fips)
      && Sound(tests, cutoffs)
      && tests.mem.nosr in {0, Nosr(osr, fips)}
      && Tracks(streams, CoreOf(tests), lag.window, cutoffs)
    }

    /** Within a block. */
    ghost predicate InBlock()
      reads this
    {
      tests.mem.nosr == Nosr(osr, fips) && Settled(tests, cutoffs)
    }

    /** A zeroed collector after `jent_health_init`, in the startup state its mode asks for. */
    constructor (osr: nat, fips: bool, ntg1: bool, timerGcd: u64)
      requires CutoffTables.MIN_OSR <= osr <= CutoffTables.MAX_OSR && (ntg1 ==> fips) && timerGcd > 0
      ensures Valid() && fresh(Repr())
      ensures this.osr == osr && this.fips == fips && this.ntg1 == ntg1
      ensures cutoffs == CutoffTables.For(osr, ntg1)
      ensures startupState == (if fips then MemoryStage else Completed) && !inRecovery
      ensures tests == Tests({}, 0, Apt.State(false, 0, 0, 0), Mem.Window(0, 0, 0), 2) && lag.window == []
      ensures trace == [] && pool == Pool(false, []) && streams == Open([], CoreOf(tests), [])
    {
      hide Tracks;
      OrderedEntries(osr, fips, ntg1);
      this.osr, this.fips, this.ntg1, this.timerGcd := osr, fips, ntg1, timerGcd;
      prevTime, pool, trace := 0, Pool(false, []), [];
      startupState, inRecovery := if fips then MemoryStage else Completed, false;
      tests := Tests({}, 0, Apt.State(false, 0, 0, 0), Mem.Window(0, 0, 0), 2);
      var c := CutoffTables.For(osr, ntg1);
      cutoffs := c;
      streams := Open([], CoreOf(Tests({}, 0, Apt.State(false, 0, 0, 0), Mem.Window(0, 0, 0), 2)), []);
      StartTracks(CoreOf(Tests({}, 0, Apt.State(false, 0, 0, 0), Mem.Window(0, 0, 0), 2)), c);
      lag := new LagTest.LagPredictor(c.lag);
    }

    /** `jent_health_failure_query` */
    function Failing(): set<Failure>
      reads this
    {
      if fips then tests.failure else {}
    }

    /** `jent_health_init`: a new noise source starts on fresh tests; the failure bits are sticky. */
    method HealthInit()
      requires Valid()
      modifies this`tests, this`streams, lag, lag.history, lag.scoreboard
      ensures Valid() && lag.window == []
      ensures tests == old(tests).(rct := 0, apt := old(tests).apt.(baseSet := false), prime := 2)
      ensures streams == Open(old(streams), CoreOf(tests), []) && Logged(old(streams), streams, [])
    {
      hide Tracks;
      hide Logged;
      TracksSome(streams, CoreOf(tests), lag.window, cutoffs);
      ghost var was := CoreOf(tests);
      tests := tests.(rct := 0, apt := tests.apt.(baseSet := false), prime := 2);
      LoggedOpen(streams, CoreOf(tests));
      OpenTracks(streams, was, lag.window, CoreOf(tests), [], cutoffs);
      streams := Open(streams, CoreOf(tests), []);
      lag.Reset();
    }

    // ----- the four health tests

    /** `jent_apt_insert` */
    method AptInsert(d: u64)
      modifies this`tests
      ensures var (apt, raised) := Apt.Insert(old(tests).apt, d, cutoffs.apt);
              tests == old(tests).(apt := apt, failure := old(tests).failure + raised)
    {
      if !tests.apt.baseSet {
        tests := tests.(apt := Apt.State(true, d, 1, 1));
        return;
      }
      if d == tests.apt.base {
        tests := tests.(apt := tests.apt.(count := tests.apt.count + 1));
        if tests.apt.count >= cutoffs.apt.permanent {
          tests := tests.(failure := tests.failure + {AptPermanent});
        } else if tests.apt.count == cutoffs.apt.intermittent {
          tests := tests.(failure := tests.failure + {Failures.Apt});
        }
      }
      tests := tests.(apt := tests.apt.(observations := tests.apt.observations + 1));
      if tests.apt.observations >= Apt.WINDOW {
        tests := tests.(apt := tests.apt.(baseSet := false));
      }
    }

    /** `jent_rct_insert` */
    method RctInsert(stuck: bool)
      modifies this`tests
      ensures var (rct, raised) := Rct.Insert(old(tests).rct, stuck, cutoffs.rct);
              tests == old(tests).(rct := rct, failure := old(tests).failure + raised)
    {
      if stuck {
        tests := tests.(rct := (tests.rct + 1) % TWO32);
        if tests.rct >= cutoffs.rct.permanent {
          tests := tests.(failure := tests.failure + {RctPermanent});
        } else if tests.rct == cutoffs.rct.intermittent {
          tests := tests.(failure := tests.failure + {Failures.Rct});
        }
      } else {
        tests := tests.(rct := 0);
      }
    }

    /** The history grew by `ext`, all of it went into the pool, and nothing else was moved for good. */
    twostate predicate Recorded(ext: seq<Event>)
      reads this
    {
      && trace == old(trace) + ext
      && pool == Absorb(old(pool), Absorbed(ext))
      && (inRecovery ==> forall e :: e in ext ==> e.recovery)
      && inRecovery == old(inRecovery)
    }

    /** The count of `jent_rct_mem_insert`: every third verdict within the window. */
    method RctMemCount(stuck: bool)
      modifies this`tests
      ensures tests == old(tests).(mem := old(tests).mem.(count := Mem.Tally(old(tests).mem, stuck)))
    {
      if tests.mem.ctr == 0 {
        tests := tests.(mem := tests.mem.(count := 0));
      }
      if stuck && Mem.Inside(tests.mem) && tests.mem.ctr % 3 == 0 {
        tests := tests.(mem := tests.mem.(count := tests.mem.count + 1));
      }
    }

    /**
     `jent_rct_mem_insert`. An alarm outside a recovery runs the block generator ten times; if
     no test fails in that, the window is closed and the count below the cutoff, so that no
     second recovery can start before the next block.
     */
    method RctMemInsert(stuck: bool) returns (ghost ext: seq<Event>)
      requires Valid() && tests.mem.nosr == Nosr(osr, fips)
      requires fips || Settled(tests, cutoffs)
      modifies Repr()
      ensures Valid() && Recorded(ext) && startupState == old(startupState)
      ensures Logged(old(streams), streams, ext) && |streams| == |old(streams)|
      ensures Mem.Tally(old(tests).mem, stuck) != cutoffs.mem.intermittent ==>
                && ext == [] && lag.window == old(lag.window) && prevTime == old(prevTime) && streams == old(streams)
                && tests == old(tests).(mem := Mem.Insert(old(tests).mem, stuck),
                                        failure := old(tests).failure
                                          + if Mem.Tally(old(tests).mem, stuck) >= cutoffs.mem.permanent
                                               && Mem.Inside(old(tests).mem) then {RctMemPermanent} else {})
      ensures inRecovery && Mem.Tally(old(tests).mem, stuck) == cutoffs.mem.intermittent ==>
                && ext == [] && lag.window == old(lag.window)
                && tests == old(tests).(mem := Mem.Insert(old(tests).mem, stuck),
                                        failure := old(tests).failure + if Mem.Inside(old(tests).mem) then {RctMem} else {})
      ensures Mem.Tally(old(tests).mem, stuck) == cutoffs.mem.intermittent && Mem.Inside(old(tests).mem) ==>
                Recovered(old(tests), tests, inRecovery, ext, cutoffs)
      decreases if inRecovery then 0 else 1, 1
    {
      hide LagTest.LagPredictor.Valid;
      hide Credits;
      hide Absorbed;
      hide Tracks;
      hide Logged;
      hide OwnBits;
      hide Rct.ValidCutoffs;
      hide Apt.ValidCutoffs;
      hide LagSpec.ValidCutoffs;
      TracksSome(streams, CoreOf(tests), lag.window, cutoffs);
      LoggedNothing(streams);
      MemBits(tests.failure, {RctMemPermanent});
      MemBits(tests.failure, {RctMem});
      hide Mem.Tally;
      ext := [];
      RctMemCount(stuck);
      if tests.mem.count >= cutoffs.mem.permanent {
        if Mem.Inside(tests.mem) {
          tests := tests.(failure := tests.failure + {RctMemPermanent});
        }
      } else if tests.mem.count == cutoffs.mem.intermittent {
        if !inRecovery {
          ext := Recover();
        } else if Mem.Inside(tests.mem) {
          tests := tests.(failure := tests.failure + {RctMem});
        }
      }
      if Mem.Inside(tests.mem) {
        tests := tests.(mem := tests.mem.(ctr := tests.mem.ctr + 1));
      }
    }

    /** The recovery loop of `jent_rct_mem_insert`, the startup state parked meanwhile. */
    method Recover() returns (ghost ext: seq<Event>)
      requires Valid() && fips && !inRecovery && tests.mem.nosr == Nosr(osr, fips)
      modifies Repr()
      ensures Valid() && Recorded(ext) && startupState == old(startupState)
      ensures Logged(old(streams), streams, ext) && |streams| == |old(streams)|
      ensures Recovered(old(tests), tests, inRecovery, ext, cutoffs)
      decreases if inRecovery then 0 else 1, 0
    {
      hide LagTest.LagPredictor.Valid;
      hide Credits;
      hide Absorbed;
      hide Nosr;
      hide Ordered;
      hide Tracks;
      hide Logged;
      hide Verdicts.Explained;
      hide Alarms.MemRuled;
      hide Alarms.DeltasOf;
      hide MemSet;
      TracksSome(streams, CoreOf(tests), lag.window, cutoffs);
      LoggedNothing(streams);
      TenTimes(Nosr(osr, fips));
      var saved := startupState;
      tests := tests.(mem := tests.mem.(count := 0));
      inRecovery := true;
      startupState := Completed;
      ext := [];
      for i := 0 to RECOVERY_BLOCKS
        invariant Valid() && inRecovery && startupState == Completed && tests.mem.nosr == Nosr(osr, fips)
        invariant Grown(old(tests), tests)
        invariant trace == old(trace) + ext && pool == Absorb(old(pool), Absorbed(ext))
        invariant forall e :: e in ext ==> e.recovery
        invariant tests.failure == {} ==> Credits(ext, Combined, true) == Repeated(i, Nosr(osr, fips))
        invariant tests.failure == {} && i > 0 ==> Closed(tests, cutoffs)
        invariant i > 0 ==> ext != []
        invariant Logged(old(streams), streams, ext) && |streams| == |old(streams)|
      {
        ghost var judged := streams;
        var done, left, more := RandomData(0);
        CreditsAppend(ext, more, Combined, true);
        AbsorbedAppend(ext, more);
        LoggedAppend(old(streams), judged, streams, ext, more);
        ext := ext + more;
      }
      startupState := saved;
      inRecovery := false;
    }

    /** The three tests on the stream of deltas, as `jent_stuck` runs them. */
    method RunTests(d: u64, stuck: bool)
      requires Valid() && tests.prime == 0 && (stuck <==> Stuck(lag.window, d))
      modifies this`tests, this`streams, lag, lag.history, lag.scoreboard
      ensures Valid() && lag.window == LagSpec.Advance(old(lag.window), d)
      ensures old(streams) != [] && streams == Add(old(streams), d)
      ensures var (apt, a) := Apt.Insert(old(tests).apt, d, cutoffs.apt);
              var (rct, r) := Rct.Insert(old(tests).rct, stuck, cutoffs.rct);
              tests == old(tests).(apt := apt, rct := rct,
                                   failure := old(tests).failure + a + LagSpec.Raised(old(lag.window) + [d], cutoffs.lag) + r)
    {
      hide LagTest.LagPredictor.Valid;
      hide LagSpec.Raised;
      hide LagSpec.Advance;
      hide Apt.Insert;
      hide Stuck;
      hide Tracks;
      hide CoreOf;
      hide Add;
      TracksSome(streams, CoreOf(tests), lag.window, cutoffs);
      AddTracks(streams, CoreOf(tests), lag.window, d, cutoffs);
      CountedStep(tests, lag.window, d, cutoffs);
      AptInsert(d);
      var raised := lag.Insert(d);
      tests := tests.(failure := tests.failure + raised);
      RctInsert(stuck);
      streams := Add(streams, d);
    }

    /** A priming delta only enters the lag history. */
    method Prime(d: u64)
      requires Valid() && tests.prime > 0
      modifies this`tests, this`streams, lag, lag.history, lag.scoreboard
      ensures Valid() && lag.window == LagSpec.Advance(old(lag.window), d)
      ensures old(streams) != [] && streams == Add(old(streams), d)
      ensures tests == old(tests).(prime := old(tests).prime - 1,
                                   failure := old(tests).failure + LagSpec.Raised(old(lag.window) + [d], cutoffs.lag))
    {
      hide LagTest.LagPredictor.Valid;
      hide LagSpec.Raised;
      hide LagSpec.Advance;
      hide Tracks;
      hide CoreOf;
      hide Add;
      TracksSome(streams, CoreOf(tests), lag.window, cutoffs);
      AddTracks(streams, CoreOf(tests), lag.window, d, cutoffs);
      PrimedStep(tests, lag.window, d, cutoffs);
      tests := tests.(prime := tests.prime - 1);
      var raised := lag.Insert(d);
      tests := tests.(failure := tests.failure + raised);
      streams := Add(streams, d);
    }

    /** `jent_stuck` */
    method StuckTest(d: u64) returns (stuck: bool, ghost ext: seq<Event>)
      requires Valid() && InBlock()
      modifies Repr()
      ensures Valid() && Recorded(ext) && startupState == old(startupState)
      ensures stuck <==> old(tests).prime > 0 || Stuck(old(lag.window), d)
      ensures old(streams) != [] && Logged(Add(old(streams), d), streams, ext) && |streams| == |old(streams)|
      ensures !Alarm(old(tests), old(lag.window), d, cutoffs) ==>
                && streams == Add(old(streams), d)
                && ext == [] && lag.window == LagSpec.Advance(old(lag.window), d) && prevTime == old(prevTime)
                && tests == Judge(old(tests), old(lag.window), d, cutoffs)
      ensures inRecovery ==>
                && ext == [] && lag.window == LagSpec.Advance(old(lag.window), d)
                && tests == Alarms.JudgeIn(old(tests), old(lag.window), d, cutoffs)
      ensures Alarm(old(tests), old(lag.window), d, cutoffs) ==>
                Recovered(old(tests), tests, inRecovery, ext, cutoffs)
      decreases if inRecovery then 0 else 1, 2
    {
      hide LagTest.LagPredictor.Valid;
      hide LagSpec.Raised;
      hide LagSpec.Advance;
      hide Absorbed;
      hide Credits;
      hide Apt.Insert;
      hide Delta;
      hide Stuck;
      hide Tracks;
      hide Logged;
      hide CoreOf;
      hide Add;
      TracksSome(streams, CoreOf(tests), lag.window, cutoffs);
      LoggedNothing(Add(streams, d));
      var delta2 := Delta(lag.HistoryAt(0), d);
      var delta3 := Delta(Delta(lag.HistoryAt(1), lag.HistoryAt(0)), delta2);
      stuck := d == 0 || delta2 == 0 || delta3 == 0;
      StuckByDeltas(lag.window, d);
      ext := [];
      if tests.prime > 0 {
        Prime(d);
        stuck := true;
        return;
      }
      RunTests(d, stuck);
      ext := RctMemInsert(stuck);
    }

    // ----- the block generator

    /**
     `jent_measure_jitter` and its two NTG.1 variants: the clock readings and the digest of the
     hash loop are arbitrary. Whatever the health tests say, the delta goes into the pool.
     */
    method MeasureJitter(source: Source, health: bool) returns (stuck: bool, ghost event: Event, ghost nested: seq<Event>)
      requires Valid() && (health ==> InBlock())
      modifies Repr()
      ensures Valid() && Recorded(nested + [event]) && startupState == old(startupState)
      ensures event.source == source && event.tested == health && event.stuck == stuck && event.recovery == inRecovery
      ensures Elapsed(event.from, event.to, event.delta, timerGcd) && (source == Combined ==> event.from == old(prevTime))
      ensures source == MemoryAccess ==> event.digest == Bytes.Zeros(32)
      ensures !health || !Alarm(old(tests), old(lag.window), event.delta, cutoffs) ==>
                prevTime == match source case MemoryAccess => old(prevTime) case HashLoop => event.from case Combined => event.to
      ensures Logged(old(streams), streams, nested + [event]) && |streams| == |old(streams)|
      ensures !health ==> nested == [] && tests == old(tests) && streams == old(streams) && lag.window == old(lag.window)
      ensures health ==> old(streams) != [] && Logged(Add(old(streams), event.delta), streams, nested)
      ensures health && inRecovery ==>
                && nested == [] && lag.window == LagSpec.Advance(old(lag.window), event.delta)
                && tests == Alarms.JudgeIn(old(tests), old(lag.window), event.delta, cutoffs)
      ensures health ==>
                && (stuck <==> old(tests).prime > 0 || Stuck(old(lag.window), event.delta))
                && (!Alarm(old(tests), old(lag.window), event.delta, cutoffs) ==>
                      && nested == [] && lag.window == LagSpec.Advance(old(lag.window), event.delta)
                      && streams == Add(old(streams), event.delta)
                      && tests == Judge(old(tests), old(lag.window), event.delta, cutoffs))
                && (Alarm(old(tests), old(lag.window), event.delta, cutoffs) ==>
                      Recovered(old(tests), tests, inRecovery, nested, cutoffs))
      decreases if inRecovery then 0 else 1, 3
    {
      hide LagTest.LagPredictor.Valid;
      hide LagSpec.Advance;
      hide Absorbed;
      hide Credits;
      hide Judge;
      hide Alarm;
      hide Stuck;
      hide Recovered;
      hide Intermediary;
      hide Ticks;
      hide Elapsed;
      hide Alarms.JudgeIn;
      hide Tracks;
      hide Logged;
      hide CoreOf;
      hide Add;
      TracksSome(streams, CoreOf(tests), lag.window, cutoffs);
      var start: u64 := *;
      var now: u64 := *;
      var digest: Digest := *;
      match source {
        case MemoryAccess => digest := Bytes.Zeros(32);
        case HashLoop => prevTime := start;
        case Combined => start, prevTime := prevTime, now;
      }
      var delta := Ticks(start, now, timerGcd);
      TicksElapse(start, now, timerGcd);
      stuck, nested := false, [];
      if health {
        stuck, nested := StuckTest(delta);
      }
      var e := Measured(source, start, now, delta, digest, health, stuck, inRecovery);
      pool := Absorb(pool, Intermediary(e));
      trace := trace + [e];
      event := e;
      Snoc(nested, event);
      if health {
        LoggedEvent(old(streams), streams, nested, e);
      } else {
        LoggedUntested(streams, e);
        assert [] + [e] == [e];
      }
    }

    /** One iteration of the collection loop, credited only if it is not stuck. */
    method MeasureForBlock(source: Source) returns (stuck: bool, ghost recovered: bool, ghost ext: seq<Event>)
      requires Valid() && InBlock()
      modifies Repr()
      ensures Valid() && Recorded(ext) && startupState == old(startupState)
      ensures Logged(old(streams), streams, ext) && |streams| == |old(streams)|
      ensures Grown(old(tests), tests) && tests.mem.nosr == Nosr(osr, fips)
      ensures !fips ==> Settled(tests, cutoffs) && (Mem.Inside(old(tests).mem) && !stuck ==> tests.mem.ctr > old(tests).mem.ctr)
                        && tests.mem.ctr >= old(tests).mem.ctr && !recovered
      ensures tests.failure == {} ==> Advanced(old(tests), tests, stuck, recovered, cutoffs)
      ensures forall s :: Credits(ext, s, inRecovery) == if s == source && !stuck then 1 else 0
      ensures MemSet(old(tests), tests, fips, inRecovery, ext)
      ensures inRecovery ==>
                (tests, lag.window) == Alarms.RecoveryRun(old(tests), old(lag.window), Alarms.DeltasOf(ext), cutoffs)
      ensures Failing() == {} && !inRecovery ==>
                Credits(ext, Combined, true) == if recovered then RECOVERY_BLOCKS * Nosr(osr, fips) else 0
      decreases if inRecovery then 0 else 1, 4
    {
      hide LagTest.LagPredictor.Valid;
      hide LagSpec.Advance;
      hide Absorbed;
      hide Credits;
      hide Judge;
      hide Alarm;
      hide Stuck;
      hide Tracks;
      hide Logged;
      hide CoreOf;
      hide Add;
      hide Alarms.JudgeIn;
      hide Alarms.RecoveryRun;
      hide Alarms.DeltasOf;
      hide MemSet;
      hide Nosr;
      hide Ordered;
      hide Settled;
      ghost var before, w := tests, lag.window;
      ghost var event, nested;
      stuck, event, nested := MeasureJitter(source, true);
      recovered := Alarm(before, w, event.delta, cutoffs);
      if recovered {
        AlarmInside(before, w, event.delta, cutoffs, osr, fips);
        MemSetByRecovery(before, tests, inRecovery, nested, event);
      } else {
        AdvancedByJudge(before, w, event.delta, cutoffs, osr, fips);
        JudgeProgress(before, w, event.delta, cutoffs, osr, fips);
        Alarms.JudgeAlike(before, before, w, event.delta, cutoffs);
        MemSetKept(before, tests, fips, inRecovery, nested + [event]);
      }
      StepCredits(nested, event);
      NestedCredits([], Combined, true);
      Alarms.RecoveryStep(before, w, event, cutoffs);
      ext := nested + [event];
      assert nested == [] ==> ext == [event];
    }

    /**
     `jent_random_data_one`. In FIPS mode it ends for every sequence of time deltas, having
     credited exactly the required number of non-stuck measurements of its own source unless a
     health test failed; at most one recovery, of ten blocks, ran inside it. Outside FIPS mode a
     stuck clock keeps it going, so `patience` iterations of it are observed.
     */
    method RandomDataOne(source: Source, patience: nat) returns (done: bool, left: nat, ghost ext: seq<Event>)
      requires Valid()
      modifies Repr()
      ensures Valid() && Recorded(ext) && startupState == old(startupState)
      ensures Logged(old(streams), streams, ext) && |streams| == |old(streams)|
      ensures Grown(old(tests), tests) && tests.mem.nosr == Nosr(osr, fips)
      ensures fips ==> done && left == patience
      ensures done && Failing() == {} ==>
                && Credits(ext, source, inRecovery) == Nosr(osr, fips)
                && Closed(tests, cutoffs)
                && (!inRecovery ==> Credits(ext, Combined, true) in {0, RECOVERY_BLOCKS * Nosr(osr, fips)})
      ensures forall s :: s != source ==> Credits(ext, s, inRecovery) == 0
      ensures old(Failing()) != {} ==> ext == []
      ensures MemSet(old(tests), tests, fips, inRecovery, ext)
      ensures inRecovery ==>
                (RctMem in tests.failure <==>
                  || RctMem in old(tests).failure
                  || Alarms.MemRuled(old(tests), old(lag.window), Alarms.DeltasOf(ext), Nosr(osr, fips), cutoffs))
      decreases if inRecovery then 0 else 1, 6
    {
      hide LagTest.LagPredictor.Valid;
      hide LagSpec.Advance;
      hide Absorbed;
      hide Credits;
      hide Judge;
      hide Alarm;
      hide Stuck;
      hide Tracks;
      hide Logged;
      hide OwnBits;
      hide Alarms.RecoveryRun;
      hide Alarms.MemRuled;
      TracksSome(streams, CoreOf(tests), lag.window, cutoffs);
      LoggedNothing(streams);
      MemBits(tests.failure, {});
      MemBits(tests.failure, {RctMemPermanent});
      NosrInRange(osr, fips);
      ext, left := [], patience;
      var nosr := ((256 + if fips then 65 else 0) * osr + 2) / 3 * 3;
      var outOfRange := nosr > 0xffff || nosr < 256;
      tests := tests.(mem := tests.mem.(ctr := 0, nosr := if outOfRange then tests.mem.nosr else nosr),
                      failure := tests.failure + if outOfRange then {RctMemPermanent} else {});
      if outOfRange {
        return true, patience, [];
      }

      ghost var start, w := tests, lag.window;
      done, left, ext := CollectLoop(source, nosr, patience);
      Alarms.RecoveryBit(start, w, Alarms.DeltasOf(ext), cutoffs);
      Alarms.RuledAlike(old(tests), start, w, Alarms.DeltasOf(ext), nosr, cutoffs);
    }

    /** The entropy collection loop of `jent_random_data_one`. */
    method CollectLoop(source: Source, nosr: nat, patience: nat) returns (done: bool, left: nat, ghost ext: seq<Event>)
      requires Valid() && tests.mem.ctr == 0 && tests.mem.nosr == nosr == Nosr(osr, fips) > 0
      modifies Repr()
      ensures Valid() && Recorded(ext) && startupState == old(startupState)
      ensures Logged(old(streams), streams, ext) && |streams| == |old(streams)|
      ensures Grown(old(tests), tests) && tests.mem.nosr == nosr
      ensures fips ==> done && left == patience
      ensures done && Failing() == {} ==>
                && Credits(ext, source, inRecovery) == nosr
                && Closed(tests, cutoffs)
                && (!inRecovery ==> Credits(ext, Combined, true) in {0, RECOVERY_BLOCKS * nosr})
      ensures forall s :: s != source ==> Credits(ext, s, inRecovery) == 0
      ensures old(Failing()) != {} ==> ext == []
      ensures MemSet(old(tests), tests, fips, inRecovery, ext)
      ensures inRecovery ==>
                (tests, lag.window) == Alarms.RecoveryRun(old(tests), old(lag.window), Alarms.DeltasOf(ext), cutoffs)
      decreases if inRecovery then 0 else 1, 5
    {
      hide LagTest.LagPredictor.Valid;
      hide LagSpec.Advance;
      hide Absorbed;
      hide Credits;
      hide Ordered;
      hide Tracks;
      hide Logged;
      hide CoreOf;
      hide Alarms.RecoveryRun;
      hide Alarms.DeltasOf;
      hide MemSet;
      hide Nosr;
      MemSetKept(tests, tests, fips, inRecovery, []);
      TracksSome(streams, CoreOf(tests), lag.window, cutoffs);
      LoggedNothing(streams);
      Alarms.NothingRun(tests, lag.window, cutoffs);
      Empty();
      ext, left := [], patience;
      var ctr := 0;
      done := fips;
      while Failing() == {} && (fips || left > 0)
        invariant Valid() && startupState == old(startupState) && inRecovery == old(inRecovery)
        invariant tests.mem.nosr == nosr == Nosr(osr, fips) && Grown(old(tests), tests)
        invariant Logged(old(streams), streams, ext) && |streams| == |old(streams)|
        invariant MemSet(old(tests), tests, fips, inRecovery, ext)
        invariant inRecovery ==>
          (tests, lag.window) == Alarms.RecoveryRun(old(tests), old(lag.window), Alarms.DeltasOf(ext), cutoffs)
        invariant fips ==> left == patience
        invariant ctr < nosr
        invariant Failing() == {} ==> Settled(tests, cutoffs) && ctr <= tests.mem.ctr
        invariant trace == old(trace) + ext && pool == Absorb(old(pool), Absorbed(ext))
        invariant inRecovery ==> forall e :: e in ext ==> e.recovery
        invariant forall s :: Credits(ext, s, inRecovery) == if s == source then ctr else 0
        invariant !inRecovery && Failing() == {} ==>
          && Credits(ext, Combined, true) in {0, RECOVERY_BLOCKS * nosr}
          && (Mem.Inside(tests.mem) ==> Credits(ext, Combined, true) == 0)
        invariant old(Failing()) != {} ==> ext == [] && Failing() != {}
        decreases if Failing() == {} then 1 else 0,
                  if fips && Mem.Inside(tests.mem) then 1 else 0,
                  if fips then nosr - ctr else left,
                  if fips then tests.prime else 0,
                  if fips && Failing() == {} then cutoffs.rct.permanent - tests.rct else 0
      {
        ghost var judged, before := streams, tests;
        var stuck, recovered, more := MeasureForBlock(source);
        MemSetAppend(old(tests), before, tests, fips, inRecovery, ext, more);
        LoggedAppend(old(streams), judged, streams, ext, more);
        Alarms.RunAppend(old(tests), old(lag.window), ext, more, cutoffs);
        forall s ensures Credits(ext + more, s, inRecovery) == Credits(ext, s, inRecovery) + Credits(more, s, inRecovery) {
          CreditsAppend(ext, more, s, inRecovery);
        }
        CreditsAppend(ext, more, Combined, true);
        AbsorbedAppend(ext, more);
        ext := ext + more;
        if !fips {
          left := left - 1;
        }
        if stuck {
          continue;
        }
        ctr := ctr + 1;
        if ctr >= tests.mem.nosr {
          done := true;
          break;
        }
      }
    }

    /** Whatever the collector has been through, its failure bits are those of the streams it judged. */
    lemma Verdict()
      requires Valid()
      ensures Verdicts.Explained(streams, tests.failure, cutoffs)
    {
      hide LagTest.LagPredictor.Valid;
      hide Tracks;
      Verdicts.EngineVerdict(streams, tests, lag.window, cutoffs);
    }

    /** A startup stage of `jent_random_data`; the next source starts on fresh tests. */
    method RunStage(source: Source, next: StartupState, patience: nat) returns (done: bool, left: nat, ghost ext: seq<Event>)
      requires Valid() && (next != Completed ==> fips)
      modifies Repr()
      ensures Valid() && Recorded(ext) && startupState == next
      ensures Logged(old(streams), streams, ext) && |streams| == |old(streams)| + 1
      ensures Grown(old(tests), tests) && tests.mem.nosr == Nosr(osr, fips)
      ensures tests.rct == 0 && !tests.apt.baseSet && tests.prime == 2 && lag.window == []
      ensures fips ==> done && left == patience
      ensures done && Failing() == {} ==> Credits(ext, source, inRecovery) == Nosr(osr, fips)
      ensures forall s :: s != source ==> Credits(ext, s, inRecovery) == 0
      ensures MemSet(old(tests), tests, fips, inRecovery, ext)
      decreases if inRecovery then 0 else 1, 7
    {
      hide LagTest.LagPredictor.Valid;
      hide Absorbed;
      hide Credits;
      hide Tracks;
      hide Logged;
      hide CoreOf;
      done, left, ext := RandomDataOne(source, patience);
      startupState := next;
      ghost var judged := streams;
      HealthInit();
      LoggedThen(old(streams), judged, streams, ext);
    }

    /** Both startup stages of `jent_random_data`, the second falling through from the first. */
    method RunStages(patience: nat) returns (done: bool, left: nat, ghost ext: seq<Event>)
      requires Valid() && fips
      modifies Repr()
      ensures Valid() && Recorded(ext) && startupState == Completed
      ensures Logged(old(streams), streams, ext) && |streams| == |old(streams)| + 2
      ensures Grown(old(tests), tests) && tests.mem.nosr == Nosr(osr, fips)
      ensures tests.rct == 0 && !tests.apt.baseSet && tests.prime == 2 && lag.window == []
      ensures done && left == patience
      ensures MemSet(old(tests), tests, fips, inRecovery, ext)
      ensures Failing() == {} ==>
                && Credits(ext, MemoryAccess, inRecovery) == Credits(ext, HashLoop, inRecovery) == Nosr(osr, fips)
                && exists k :: InTurn(ext, k, inRecovery, Nosr(osr, fips))
      decreases if inRecovery then 0 else 1, 8
    {
      hide LagTest.LagPredictor.Valid;
      hide Absorbed;
      hide Credits;
      hide Tracks;
      hide Logged;
      hide CoreOf;
      hide InTurn;
      hide Nosr;
      hide MemSet;
      ghost var first;
      done, left, first := RunStage(MemoryAccess, HashStage, patience);
      ghost var judged, mid := streams, tests;
      done, left, ext := RunStage(HashLoop, Completed, left);
      CreditsAppend(first, ext, MemoryAccess, inRecovery);
      CreditsAppend(first, ext, HashLoop, inRecovery);
      AbsorbedAppend(first, ext);
      LoggedAppend(old(streams), judged, streams, first, ext);
      TwoTurns(first, ext, inRecovery, Nosr(osr, fips));
      MemSetAppend(old(tests), mid, tests, fips, inRecovery, first, ext);
      ext := first + ext;
    }

    /** One block of `jent_random_data`; its first measurement only sets the reference of the next. */
    method RunBlock(patience: nat) returns (done: bool, left: nat, ghost ext: seq<Event>)
      requires Valid() && startupState == Completed
      modifies Repr()
      ensures Valid() && Recorded(ext) && startupState == Completed
      ensures Logged(old(streams), streams, ext) && |streams| == |old(streams)|
      ensures Grown(old(tests), tests) && tests.mem.nosr == Nosr(osr, fips)
      ensures fips ==> done && left == patience
      ensures MemSet(old(tests), tests, fips, inRecovery, ext)
      ensures ext != [] && !ext[0].tested && ext[0].from == old(prevTime)
      ensures inRecovery ==>
                (RctMem in tests.failure <==>
                  || RctMem in old(tests).failure
                  || Alarms.MemRuled(old(tests), old(lag.window), Alarms.DeltasOf(ext), Nosr(osr, fips), cutoffs))
      ensures done && Failing() == {} ==> Credits(ext, Combined, inRecovery) == Nosr(osr, fips) && Closed(tests, cutoffs)
      decreases if inRecovery then 0 else 1, 8
    {
      hide LagTest.LagPredictor.Valid;
      hide Absorbed;
      hide Credits;
      hide Tracks;
      hide Logged;
      hide CoreOf;
      hide Alarms.MemRuled;
      hide Alarms.DeltasOf;
      hide Nosr;
      hide MemSet;
      var stuck, event, nested := MeasureJitter(Combined, false);
      ghost var judged, mid := streams, tests;
      MemSetKept(old(tests), tests, fips, inRecovery, [event]);
      done, left, ext := RandomDataOne(Combined, patience);
      MemSetAppend(old(tests), mid, tests, fips, inRecovery, [event], ext);
      assert nested + [event] == [event];
      Single(event);
      CreditsAppend([event], ext, Combined, inRecovery);
      AbsorbedAppend([event], ext);
      LoggedAppend(old(streams), judged, streams, [event], ext);
      Alarms.DeltasUntested(event, ext);
      ext := [event] + ext;
    }

    /** `jent_random_data`: one block, or the startup stages that are still due. */
    method RandomData(patience: nat) returns (done: bool, left: nat, ghost ext: seq<Event>)
      requires Valid()
      modifies Repr()
      ensures Valid() && Recorded(ext) && startupState == Completed
      ensures Logged(old(streams), streams, ext)
      ensures Verdicts.Explained(streams, tests.failure, cutoffs)
      ensures |streams| == |old(streams)| + match old(startupState) case MemoryStage => 2 case HashStage => 1 case Completed => 0
      ensures Grown(old(tests), tests) && tests.mem.nosr == Nosr(osr, fips)
      ensures fips ==> done && left == patience
      ensures MemSet(old(tests), tests, fips, inRecovery, ext)
      ensures old(startupState) == Completed ==> ext != [] && !ext[0].tested && ext[0].from == old(prevTime)
      ensures old(startupState) == Completed && inRecovery ==>
                (RctMem in tests.failure <==>
                  || RctMem in old(tests).failure
                  || Alarms.MemRuled(old(tests), old(lag.window), Alarms.DeltasOf(ext), Nosr(osr, fips), cutoffs))
      ensures old(startupState) != Completed ==>
                tests.rct == 0 && !tests.apt.baseSet && tests.prime == 2 && lag.window == []
      ensures done && Failing() == {} ==>
                && (old(startupState) == MemoryStage ==>
                      Credits(ext, MemoryAccess, inRecovery) == Nosr(osr, fips) && exists k :: InTurn(ext, k, inRecovery, Nosr(osr, fips)))
                && (old(startupState) != Completed ==> Credits(ext, HashLoop, inRecovery) == Nosr(osr, fips))
                && (old(startupState) == Completed ==>
                      Credits(ext, Combined, inRecovery) == Nosr(osr, fips) && Closed(tests, cutoffs))
      decreases if inRecovery then 0 else 1, 9
    {
      hide LagTest.LagPredictor.Valid;
      hide Absorbed;
      hide Credits;
      hide Tracks;
      hide Logged;
      hide CoreOf;
      hide Verdicts.Explained;
      hide Alarms.MemRuled;
      hide Alarms.DeltasOf;
      hide InTurn;
      hide Nosr;
      hide MemSet;
      match startupState {
        case MemoryStage =>
          done, left, ext := RunStages(patience);
        case HashStage =>
          done, left, ext := RunStage(HashLoop, Completed, patience);
        case Completed =>
          done, left, ext := RunBlock(patience);
      }
      Verdict();
    }

    /** `jent_read_random_block`: the pool is drawn from, and a new history begins. */
    method ReadRandomBlock(length: nat) returns (output: seq<byte>)
      requires Valid()
      modifies this`pool, this`trace
      ensures Valid() && trace == []
      ensures Lawful(Lanes64.CODEC) && (output, pool) == Xdrbg.Generate(old(pool), length, Lanes64.CODEC)
    {
      hide Xdrbg.Seeding;
      hide Xdrbg.Block;
      hide Lawful;
      Lanes64.CodecIsLawful();
      output, pool := Xdrbg.Generate(pool, length, Lanes64.CODEC).0, Xdrbg.Generate(pool, length, Lanes64.CODEC).1;
      trace := [];
    }

    /**
     `jent_health_duplicate`: the replacement starts at the intermittent cutoffs; the parts that
     hold deltas of the old clock are carried over only if it reads the same clock.
     */
    method HealthDuplicate(from: Collector, sameClock: bool)
      requires Valid() && from.Valid() && Repr() !! from.Repr()
      modifies this`tests, this`streams, lag, lag.history, lag.scoreboard
      ensures Valid() && from.Valid()
      ensures streams == Open(old(streams), CoreOf(tests), lag.window)
      ensures tests == old(tests).(
                rct := cutoffs.rct.intermittent,
                mem := old(tests).mem.(count := from.cutoffs.mem.intermittent),
                apt := if sameClock then Apt.Duplicate(old(tests).apt, from.tests.apt, cutoffs.apt) else old(tests).apt)
      ensures lag.window == if sameClock then from.lag.window else old(lag.window)
    {
      hide LagTest.LagPredictor.Valid;
      hide Tracks;
      ghost var was, w := CoreOf(tests), lag.window;
      lag.WindowFits();
      from.lag.WindowFits();
      tests := tests.(rct := cutoffs.rct.intermittent, mem := tests.mem.(count := from.cutoffs.mem.intermittent));
      if !sameClock {
        OpenTracks(streams, was, w, CoreOf(tests), w, cutoffs);
        streams := Open(streams, CoreOf(tests), w);
        return;
      }
      if from.tests.apt.observations != 0 {
        tests := tests.(apt := Apt.State(true, from.tests.apt.base, cutoffs.apt.intermittent, from.tests.apt.observations));
      }
      lag.Duplicate(from.lag);
      OpenTracks(streams, was, w, CoreOf(tests), lag.window, cutoffs);
      streams := Open(streams, CoreOf(tests), lag.window);
    }
  }
}
