/**
 The alarm of the test with memory: when a block raises it, and that in the common configuration
 a block can, on deltas to which no other test objects.
 */
module Alarms {
  import opened Words
  import opened Failures
  import opened Trace
  import opened HealthTests
  import opened Streams
  import opened Verdicts
  import LagSpec
  import Windows
  import CutoffTables
  import Apt = AdaptiveProportion
  import Rct = RepetitionCount
  import Mem = RepetitionCountMemory

  /** The tests and the lag window after the deltas `h`, judged one by one without a recovery. */
  ghost function JudgeAll(t: Tests, w: seq<u64>, h: seq<u64>, c: Cutoffs): (Tests, seq<u64>)
    decreases |h|
  {
    if h == [] then (t, w) else
    var (p, v) := JudgeAll(t, w, h[..|h| - 1], c);
    (Judge(p, v, h[|h| - 1], c), LagSpec.Advance(v, h[|h| - 1]))
  }

  /** The delta at `m` brings the count to the cutoff; the first one that does starts a recovery. */
  ghost predicate AlarmAt(t: Tests, w: seq<u64>, h: seq<u64>, m: nat, c: Cutoffs) {
    m < |h| && Alarm(JudgeAll(t, w, h[..m], c).0, JudgeAll(t, w, h[..m], c).1, h[m], c)
  }

  ghost function From(t: Tests, w: seq<u64>, h: seq<u64>): Stream {
    Stream(CoreOf(t), w, h)
  }

  lemma JudgeIsStep(t: Tests, w: seq<u64>, d: u64, c: Cutoffs)
    ensures CoreOf(Judge(t, w, d, c)) == Step(CoreOf(t), w, d, c)
  {
    hide LagSpec.Raised;
    hide Apt.Insert;
    hide Stuck;
    hide OwnBits;
    if t.prime > 0 {
      PrimedStep(t, w, d, c);
    } else {
      CountedStep(t, w, d, c);
      var before := t.failure + Apt.Insert(t.apt, d, c.apt).1 + LagSpec.Raised(w + [d], c.lag) + Rct.Insert(t.rct, Stuck(w, d), c.rct).1;
      MemBits(before, {RctMemPermanent});
      MemBits(before, {});
    }
  }

  lemma {:induction false} JudgeTracks(t: Tests, w: seq<u64>, h: seq<u64>, c: Cutoffs)
    ensures After(From(t, w, h), c) == (CoreOf(JudgeAll(t, w, h, c).0), JudgeAll(t, w, h, c).1)
    decreases |h|
  {
    hide Judge;
    hide Step;
    hide LagSpec.Advance;
    hide CoreOf;
    if h != [] {
      var p, d := h[..|h| - 1], h[|h| - 1];
      JudgeTracks(t, w, p, c);
      JudgeIsStep(JudgeAll(t, w, p, c).0, JudgeAll(t, w, p, c).1, d, c);
    }
  }

  lemma StateAfter(t: Tests, w: seq<u64>, h: seq<u64>, c: Cutoffs)
    ensures JudgeAll(t, w, h, c).1 == Slide(w, h)
    ensures JudgeAll(t, w, h, c).0.prime == if |h| <= t.prime then t.prime - |h| else 0
  {
    hide JudgeAll;
    hide After;
    hide Slide;
    hide Expected;
    hide Flags;
    JudgeTracks(t, w, h, c);
    RunFollows(From(t, w, h), c);
  }

  /** The last delta of a stream past its priming adds one verdict. */
  lemma LastFlag(s: Stream)
    requires |s.deltas| > s.start.prime
    ensures var n := |s.deltas| - 1;
            var flags := Flags(s);
      && flags == Flags(s.(deltas := s.deltas[..n])) + [Stuck(Slide(s.window, s.deltas[..n]), s.deltas[n])]
      && flags[..|flags| - 1] == Flags(s.(deltas := s.deltas[..n]))
  {
    hide Stuck;
    hide Slide;
  }

  /** The window of the test with memory takes the counted verdicts of the stream. */
  lemma {:induction false} MemFollows(t: Tests, w: seq<u64>, h: seq<u64>, c: Cutoffs)
    ensures JudgeAll(t, w, h, c).0.mem == Mem.Run(t.mem, Flags(From(t, w, h)))
    decreases |h|
  {
    hide LagSpec.Advance;
    hide LagSpec.Raised;
    hide Stuck;
    hide Apt.Insert;
    hide Mem.Insert;
    hide Slide;
    if h != [] {
      var p := h[..|h| - 1];
      MemFollows(t, w, p, c);
      StateAfter(t, w, p, c);
      if |p| >= t.prime {
        assert From(t, w, h).(deltas := p) == From(t, w, p);
        LastFlag(From(t, w, h));
      }
    }
  }

  lemma {:induction false} FlagsPrefix(s: Stream, m: nat)
    requires m <= |s.deltas|
    ensures |Flags(s)| == (if |s.deltas| <= s.start.prime then 0 else |s.deltas| - s.start.prime)
    ensures Flags(s.(deltas := s.deltas[..m])) == Flags(s)[..if m <= s.start.prime then 0 else m - s.start.prime]
    decreases |s.deltas|
  {
    hide Stuck;
    hide Slide;
    if |s.deltas| > s.start.prime {
      var n := |s.deltas| - 1;
      var p := s.(deltas := s.deltas[..n]);
      if m <= n {
        FlagsPrefix(p, m);
        assert p.deltas[..m] == s.deltas[..m];
      } else {
        FlagsPrefix(p, n);
        assert s.deltas[..m] == s.deltas;
      }
    }
  }

  /** An alarm at `m` is the count after the verdict at `m` being the cutoff. */
  lemma AlarmIsCount(t: Tests, w: seq<u64>, h: seq<u64>, m: nat, c: Cutoffs)
    requires m < |h|
    ensures AlarmAt(t, w, h, m, c) <==>
      m >= t.prime && Mem.Run(t.mem, Flags(From(t, w, h[..m + 1]))).count == c.mem.intermittent
  {
    hide JudgeAll;
    hide Stuck;
    hide Slide;
    hide Flags;
    var p, d := h[..m], h[m];
    StateAfter(t, w, p, c);
    MemFollows(t, w, p, c);
    if m >= t.prime {
      assert h[..m + 1][..m] == p;
      assert From(t, w, h[..m + 1]).(deltas := p) == From(t, w, p);
      LastFlag(From(t, w, h[..m + 1]));
    }
  }

  /** The verdicts within the window of the test with memory. */
  function Cut(flags: seq<bool>, nosr: nat): seq<bool> {
    if |flags| <= nosr then flags else flags[..nosr]
  }

  /** The count after the verdict at `m`, in a block that begins with it. */
  lemma CountAt(t: Tests, w: seq<u64>, h: seq<u64>, m: nat)
    requires t.mem.ctr == 0 && t.mem.nosr > 0 && t.prime <= m < |h|
    ensures |Flags(From(t, w, h))| == |h| - t.prime
    ensures Mem.Run(t.mem, Flags(From(t, w, h[..m + 1]))).count
         == Mem.Counted(Cut(Flags(From(t, w, h))[..m + 1 - t.prime], t.mem.nosr))
  {
    hide Flags;
    hide Mem.Run;
    hide Mem.Counted;
    FlagsPrefix(From(t, w, h), |h|);
    FlagsPrefix(From(t, w, h), m + 1);
    assert From(t, w, h).(deltas := h[..m + 1]) == From(t, w, h[..m + 1]);
    var judged := Flags(From(t, w, h))[..m + 1 - t.prime];
    Mem.RunFollows(t.mem.nosr, t.mem.count, judged);
    assert judged[..|judged|] == judged;
  }

  /**
   The batch rule of the test with memory, for any cutoff and any block of a collector: it raises
   the alarm exactly if the stuck verdicts counted in its window reach the cutoff.
   */
  lemma BlockAlarm(t: Tests, w: seq<u64>, h: seq<u64>, c: Cutoffs)
    requires t.mem.ctr == 0 && t.mem.nosr > 0 && c.mem.intermittent > 0
    ensures (exists m :: AlarmAt(t, w, h, m, c)) <==>
      Mem.Counted(Cut(Flags(From(t, w, h)), t.mem.nosr)) >= c.mem.intermittent
  {
    hide AlarmAt;
    hide Flags;
    hide Mem.Run;
    hide Mem.Counted;
    var flags := Flags(From(t, w, h));
    FlagsPrefix(From(t, w, h), |h|);
    if m: nat :| AlarmAt(t, w, h, m, c) {
      AlarmInRange(t, w, h, m, c);
      AlarmIsCount(t, w, h, m, c);
      CountAt(t, w, h, m);
      CutPrefix(flags, m + 1 - t.prime, t.mem.nosr);
    }
    if Mem.Counted(Cut(flags, t.mem.nosr)) >= c.mem.intermittent {
      var m := FirstAlarm(t, w, h, c);
    }
  }

  lemma AlarmInRange(t: Tests, w: seq<u64>, h: seq<u64>, m: nat, c: Cutoffs)
    requires AlarmAt(t, w, h, m, c)
    ensures m < |h|
  {}

  lemma CutPrefix(flags: seq<bool>, n: nat, nosr: nat)
    requires n <= |flags|
    ensures Mem.Counted(Cut(flags[..n], nosr)) <= Mem.Counted(Cut(flags, nosr))
  {
    hide Mem.Counted;
    var cut := Cut(flags, nosr);
    var k := if n <= |cut| then n else |cut|;
    Mem.CountedPrefix(cut, k);
    assert Cut(flags[..n], nosr) == cut[..k];
  }

  /** The alarm comes within the window. */
  lemma FirstAlarm(t: Tests, w: seq<u64>, h: seq<u64>, c: Cutoffs) returns (m: nat)
    requires t.mem.ctr == 0 && t.mem.nosr > 0
    requires Mem.Counted(Cut(Flags(From(t, w, h)), t.mem.nosr)) >= c.mem.intermittent > 0
    ensures AlarmAt(t, w, h, m, c) && t.prime <= m < t.prime + t.mem.nosr
  {
    hide AlarmAt;
    hide Flags;
    hide Mem.Run;
    hide Mem.Counted;
    var flags := Flags(From(t, w, h));
    FlagsPrefix(From(t, w, h), |h|);
    var cut := Cut(flags, t.mem.nosr);
    var n := Mem.CountedReaches(cut, c.mem.intermittent);
    m := n - 1 + t.prime;
    AlarmIsCount(t, w, h, m, c);
    CountAt(t, w, h, m);
    assert Cut(flags[..n], t.mem.nosr) == cut[..n];
  }

  /**
   In the common configuration the cutoff is the cap: a block raises the alarm exactly if every
   third verdict of its window, from the first one on, is stuck.
   */
  lemma AlarmIff(t: Tests, w: seq<u64>, h: seq<u64>, osr: nat)
    requires CutoffTables.MIN_OSR <= osr <= CutoffTables.MAX_OSR
    requires t.mem.ctr == 0 && t.mem.nosr == 321 * osr
    ensures (exists m :: AlarmAt(t, w, h, m, CutoffTables.For(osr, false))) <==>
      Mem.EveryThird(Flags(From(t, w, h)), 321 * osr)
  {
    hide AlarmAt;
    hide Flags;
    hide Mem.Run;
    hide Mem.Counted;
    hide CutoffTables.For;
    CutoffTables.Orderings(osr, false);
    var flags := Flags(From(t, w, h));
    BlockAlarm(t, w, h, CutoffTables.For(osr, false));
    if flags == [] {
      Mem.CountedBound(flags);
      var first := 0;
      assert first % 3 == 0 && first < 321 * osr;
    } else {
      Mem.RunFollows(321 * osr, 0, flags);
      assert flags[..|flags|] == flags;
      Mem.ReachesThird(321 * osr, 0, flags);
      Mem.CountNeverExceedsThird(321 * osr, 0, flags);
    }
  }

  // ----- the blocks of a recovery

  /** All tests after a delta within a recovery, where an alarm sets the intermittent bit. */
  ghost function JudgeIn(t: Tests, w: seq<u64>, d: u64, c: Cutoffs): Tests {
    var j := Judge(t, w, d, c);
    if Alarm(t, w, d, c) && Mem.Inside(t.mem) then j.(failure := j.failure + {RctMem}) else j
  }

  ghost function RecoveryRun(t: Tests, w: seq<u64>, h: seq<u64>, c: Cutoffs): (Tests, seq<u64>)
    decreases |h|
  {
    if h == [] then (t, w) else
    var (p, v) := RecoveryRun(t, w, h[..|h| - 1], c);
    (JudgeIn(p, v, h[|h| - 1], c), LagSpec.Advance(v, h[|h| - 1]))
  }

  lemma RunOne(t: Tests, w: seq<u64>, h: seq<u64>, d: u64, c: Cutoffs)
    ensures var (p, v) := RecoveryRun(t, w, h, c);
            RecoveryRun(t, w, h + [d], c) == (JudgeIn(p, v, d, c), LagSpec.Advance(v, d))
  {
    hide JudgeIn;
    hide LagSpec.Advance;
    assert (h + [d])[..|h|] == h;
  }

  /** The tested deltas of a history, in order. */
  function DeltasOf(t: seq<Event>): seq<u64> {
    if t == [] then [] else
    var e := t[|t| - 1];
    DeltasOf(t[..|t| - 1]) + if e.tested then [e.delta] else []
  }

  lemma DeltasSnoc(t: seq<Event>, e: Event)
    ensures DeltasOf(t + [e]) == DeltasOf(t) + if e.tested then [e.delta] else []
  {
    assert (t + [e])[..|t|] == t;
  }

  lemma {:induction false} DeltasUntested(e: Event, t: seq<Event>)
    requires !e.tested
    ensures DeltasOf([e] + t) == DeltasOf(t)
  {
    if t == [] {
      assert [e] + t == [e] && [e][..0] == [];
    } else {
      var p := t[..|t| - 1];
      DeltasUntested(e, p);
      assert [e] + t == [e] + p + [t[|t| - 1]] && t == p + [t[|t| - 1]];
      DeltasSnoc([e] + p, t[|t| - 1]);
      DeltasSnoc(p, t[|t| - 1]);
    }
  }

  lemma NothingRun(t: Tests, w: seq<u64>, c: Cutoffs)
    ensures RecoveryRun(t, w, DeltasOf([]), c) == (t, w)
  {}

  lemma RecoveryStep(t: Tests, w: seq<u64>, e: Event, c: Cutoffs)
    requires e.tested
    ensures RecoveryRun(t, w, DeltasOf([e]), c) == (JudgeIn(t, w, e.delta, c), LagSpec.Advance(w, e.delta))
  {
    hide JudgeIn;
    hide LagSpec.Advance;
    DeltasSnoc([], e);
    assert [] + [e] == [e];
    RunOne(t, w, [], e.delta, c);
  }

  lemma {:induction false} DeltasAppend(a: seq<Event>, b: seq<Event>)
    ensures DeltasOf(a + b) == DeltasOf(a) + DeltasOf(b)
  {
    if b == [] {
      assert a + b == a;
    } else {
      hide DeltasOf;
      var q, e := b[..|b| - 1], b[|b| - 1];
      DeltasAppend(a, q);
      assert a + b == a + q + [e] && b == q + [e];
      DeltasSnoc(a + q, e);
      DeltasSnoc(q, e);
    }
  }

  lemma {:induction false} RunConcat(t: Tests, w: seq<u64>, g: seq<u64>, h: seq<u64>, c: Cutoffs)
    ensures var (p, v) := RecoveryRun(t, w, g, c);
            RecoveryRun(t, w, g + h, c) == RecoveryRun(p, v, h, c)
    decreases |h|
  {
    hide JudgeIn;
    hide LagSpec.Advance;
    if h == [] {
      assert g + h == g;
    } else {
      var q, d := h[..|h| - 1], h[|h| - 1];
      RunConcat(t, w, g, q, c);
      assert (g + h)[..|g + h| - 1] == g + q && (g + h)[|g + h| - 1] == d;
    }
  }

  lemma RunAppend(t: Tests, w: seq<u64>, a: seq<Event>, b: seq<Event>, c: Cutoffs)
    ensures var (p, v) := RecoveryRun(t, w, DeltasOf(a), c);
            RecoveryRun(t, w, DeltasOf(a + b), c) == RecoveryRun(p, v, DeltasOf(b), c)
  {
    hide RecoveryRun;
    hide DeltasOf;
    DeltasAppend(a, b);
    RunConcat(t, w, DeltasOf(a), DeltasOf(b), c);
  }

  /** Equal but for the failure bits. */
  ghost predicate Alike(a: Tests, b: Tests) {
    a.rct == b.rct && a.apt == b.apt && a.mem == b.mem && a.prime == b.prime
  }

  lemma JudgeAlike(a: Tests, b: Tests, w: seq<u64>, d: u64, c: Cutoffs)
    requires Alike(a, b)
    ensures Alike(Judge(a, w, d, c), Judge(b, w, d, c)) && (Alarm(a, w, d, c) <==> Alarm(b, w, d, c))
    ensures RctMem in Judge(a, w, d, c).failure <==> RctMem in a.failure
  {
    hide LagSpec.Raised;
    hide Apt.Insert;
    hide Stuck;
  }

  /** An alarm within the window among the first `n` deltas. */
  ghost predicate Struck(t: Tests, w: seq<u64>, h: seq<u64>, n: nat, c: Cutoffs) {
    exists m :: 0 <= m < n && AlarmAt(t, w, h, m, c) && Mem.Inside(JudgeAll(t, w, h[..m], c).0.mem)
  }

  lemma {:induction false} RunStrikes(t: Tests, w: seq<u64>, h: seq<u64>, n: nat, c: Cutoffs)
    requires n <= |h|
    ensures var (p, v) := RecoveryRun(t, w, h[..n], c);
            var (q, u) := JudgeAll(t, w, h[..n], c);
      Alike(p, q) && v == u && (RctMem in p.failure <==> RctMem in t.failure || Struck(t, w, h, n, c))
    decreases n
  {
    hide Judge;
    hide Alarm;
    hide LagSpec.Advance;
    if n == 0 {
      assert h[..n] == [];
    } else {
      RunStrikes(t, w, h, n - 1, c);
      assert h[..n][..n - 1] == h[..n - 1];
      var (p, v) := RecoveryRun(t, w, h[..n - 1], c);
      var (q, u) := JudgeAll(t, w, h[..n - 1], c);
      JudgeAlike(p, q, v, h[n - 1], c);
      StruckSnoc(t, w, h, n, c);
    }
  }

  lemma StruckSnoc(t: Tests, w: seq<u64>, h: seq<u64>, n: nat, c: Cutoffs)
    requires 0 < n <= |h|
    ensures Struck(t, w, h, n, c) <==>
      || Struck(t, w, h, n - 1, c)
      || (Alarm(JudgeAll(t, w, h[..n - 1], c).0, JudgeAll(t, w, h[..n - 1], c).1, h[n - 1], c)
          && Mem.Inside(JudgeAll(t, w, h[..n - 1], c).0.mem))
  {
    hide Alarm;
    hide Judge;
    if Struck(t, w, h, n, c) {
      var m :| 0 <= m < n && AlarmAt(t, w, h, m, c) && Mem.Inside(JudgeAll(t, w, h[..m], c).0.mem);
      assert m < n - 1 ==> Struck(t, w, h, n - 1, c);
    }
    assert AlarmAt(t, w, h, n - 1, c) <==>
      Alarm(JudgeAll(t, w, h[..n - 1], c).0, JudgeAll(t, w, h[..n - 1], c).1, h[n - 1], c);
  }

  lemma StruckIff(t: Tests, w: seq<u64>, h: seq<u64>, c: Cutoffs)
    requires t.mem.ctr == 0 && t.mem.nosr > 0 && c.mem.intermittent > 0
    ensures Struck(t, w, h, |h|, c) <==> Mem.Counted(Cut(Flags(From(t, w, h)), t.mem.nosr)) >= c.mem.intermittent
  {
    hide AlarmAt;
    hide Flags;
    hide JudgeAll;
    hide Mem.Run;
    hide Mem.Counted;
    BlockAlarm(t, w, h, c);
    if Mem.Counted(Cut(Flags(From(t, w, h)), t.mem.nosr)) >= c.mem.intermittent {
      var m := FirstAlarm(t, w, h, c);
      AlarmInRange(t, w, h, m, c);
      StillInside(t, w, h[..m], c);
    }
  }

  lemma StillInside(t: Tests, w: seq<u64>, h: seq<u64>, c: Cutoffs)
    requires t.mem.ctr == 0 && t.prime <= |h| < t.prime + t.mem.nosr
    ensures Mem.Inside(JudgeAll(t, w, h, c).0.mem)
  {
    hide JudgeAll;
    hide Flags;
    MemFollows(t, w, h, c);
    FlagsPrefix(From(t, w, h), |h|);
    var flags := Flags(From(t, w, h));
    if flags != [] {
      hide Mem.Run;
      Mem.RunFollows(t.mem.nosr, t.mem.count, flags);
    }
  }

  /** The count of the stuck verdicts in the window of a block reaches the intermittent cutoff. */
  ghost predicate MemRuled(t: Tests, w: seq<u64>, h: seq<u64>, nosr: nat, c: Cutoffs) {
    Mem.Counted(Cut(Flags(From(t, w, h)), nosr)) >= c.mem.intermittent
  }

  lemma RuledAlike(a: Tests, b: Tests, w: seq<u64>, h: seq<u64>, nosr: nat, c: Cutoffs)
    requires CoreOf(a) == CoreOf(b)
    ensures MemRuled(a, w, h, nosr, c) <==> MemRuled(b, w, h, nosr, c)
  {}

  /** A block of a recovery sets the intermittent bit exactly if its count reaches the cutoff. */
  lemma RecoveryBit(t: Tests, w: seq<u64>, h: seq<u64>, c: Cutoffs)
    requires t.mem.ctr == 0 && t.mem.nosr > 0 && c.mem.intermittent > 0
    ensures RctMem in RecoveryRun(t, w, h, c).0.failure <==> RctMem in t.failure || MemRuled(t, w, h, t.mem.nosr, c)
  {
    hide RecoveryRun;
    hide JudgeAll;
    hide Struck;
    hide Flags;
    hide Mem.Counted;
    RunStrikes(t, w, h, |h|, c);
    assert h[..|h|] == h;
    StruckIff(t, w, h, c);
  }

  // ----- a stream that raises it

  /** Deltas that grow by one, and by two at every third step: each third one has no second difference. */
  function Steady(n: nat): (h: seq<u64>)
    requires n < LagSpec.WINDOW
    ensures |h| == n && forall m :: 0 <= m < n ==> h[m] == m + 8 + m / 3
  {
    seq(n, m requires 0 <= m < n => m + 8 + m / 3)
  }

  ghost predicate Increasing(h: seq<u64>) {
    forall i, j :: 0 <= i < j < |h| ==> h[i] < h[j]
  }

  lemma SteadyIncreases(n: nat)
    requires n < LagSpec.WINDOW
    ensures Increasing(Steady(n))
  {
    var h := Steady(n);
    forall i, j | 0 <= i < j < |h| ensures h[i] < h[j] {
      assert i / 3 <= j / 3;
    }
  }

  lemma {:induction false} SlideShort(h: seq<u64>)
    requires |h| < LagSpec.WINDOW
    ensures Slide([], h) == h
  {
    if h != [] {
      SlideShort(h[..|h| - 1]);
      assert h[..|h| - 1] + [h[|h| - 1]] == h;
    }
  }

  lemma SteadyStuck(n: nat, m: nat)
    requires 2 <= m < n < LagSpec.WINDOW
    ensures Stuck(Steady(n)[..m], Steady(n)[m]) <==> (m - 2) % 3 == 0
  {
    var h := Steady(n);
    var w, d := h[..m], h[m];
    assert LagSpec.Recent(w, 0) == h[m - 1] && LagSpec.Recent(w, 1) == h[m - 2];
    Thirds(m);
    Differences(d, h[m - 1], h[m - 2]);
  }

  lemma Thirds(m: nat)
    requires m >= 2
    ensures m / 3 - (m - 1) / 3 == if m % 3 == 0 then 1 else 0
    ensures m / 3 - 2 * ((m - 1) / 3) + (m - 2) / 3 == if m % 3 == 2 then 0 else if m % 3 == 0 then 1 else -1
  {}

  lemma Differences(x: u64, y: u64, z: u64)
    requires y < x <= y + 2 && -1 <= x - 2 * y + z <= 1
    ensures (x - y) % TWO64 != 0
    ensures (x - 2 * y + z) % TWO64 == 0 <==> x - 2 * y + z == 0
  {}

  lemma SteadyFlags(t: Tests, n: nat)
    requires t.prime == 2 && 2 <= n < LagSpec.WINDOW
    ensures var flags := Flags(From(t, [], Steady(n)));
      |flags| == n - 2 && forall i :: 0 <= i < n - 2 ==> (flags[i] <==> i % 3 == 0)
  {
    hide Stuck;
    hide Slide;
    var h := Steady(n);
    var s := From(t, [], h);
    FlagsPrefix(s, n);
    var flags := Flags(s);
    forall i | 0 <= i < n - 2 ensures flags[i] <==> i % 3 == 0 {
      var m := i + 2;
      FlagsPrefix(s, m + 1);
      var p := s.(deltas := h[..m + 1]);
      assert h[..m + 1][..m] == h[..m];
      assert Flags(p) == Flags(p.(deltas := h[..m])) + [Stuck(Slide([], h[..m]), h[m])];
      assert Flags(p)[i] == flags[i];
      FlagsPrefix(s, m);
      SlideShort(h[..m]);
      SteadyStuck(n, m);
    }
  }

  // ----- the other tests on it

  lemma {:induction false} CountedOnce(w: seq<u64>)
    requires w != [] && Increasing(w)
    ensures Apt.Occurrences(w) == 1
  {
    var p, d := w[..|w| - 1], w[|w| - 1];
    assert w == p + [d];
    Apt.CountSnoc(p, d, w[0]);
    if p == [] {
      assert Apt.Count(p, w[0]) == 0;
    } else {
      CountedOnce(p);
    }
  }

  lemma {:induction false} NeverPredicted(w: seq<u64>)
    requires Increasing(w)
    ensures LagSpec.Successes(w) == 0 && LagSpec.Run(w) == 0
  {
    hide LagSpec.Best;
    if w != [] {
      var p := w[..|w| - 1];
      NeverPredicted(p);
    }
  }

  lemma {:induction false} SparseRuns(flags: seq<bool>)
    requires forall i :: 0 <= i < |flags| ==> (flags[i] <==> i % 3 == 0)
    ensures Rct.Longest(flags) <= 1 && Rct.Trailing(flags) == if |flags| % 3 == 1 then 1 else 0
  {
    if flags != [] {
      SparseRuns(flags[..|flags| - 1]);
    }
  }

  lemma IncreasingIsQuiet(h: seq<u64>, c: Cutoffs)
    requires Increasing(h) && ValidCutoffs(c)
    ensures !Apt.Repetitive(h, c.apt.intermittent) && !Apt.Repetitive(h, c.apt.permanent)
    ensures forall f :: !FreshLag(h, f, c.lag)
  {
    hide Apt.Occurrences;
    hide LagSpec.Successes;
    hide LagSpec.Run;
    forall n | 0 < n <= |h| ensures Apt.Occurrences(Windows.Judged(h, n, Apt.WINDOW)) == 1 {
      CountedOnce(Windows.Judged(h, n, Apt.WINDOW));
    }
    forall n | 0 < n <= |h| ensures var w := Windows.Judged(h, n, LagSpec.WINDOW); LagSpec.Successes(w) == 0 && LagSpec.Run(w) == 0 {
      NeverPredicted(Windows.Judged(h, n, LagSpec.WINDOW));
    }
  }

  ghost predicate Initialized(t: Tests) {
    t.failure == {} && t.rct == 0 && !t.apt.baseSet && t.prime == 2
  }

  /** However long such deltas go on, no test but the one with memory raises a bit. */
  lemma SteadyIsQuiet(t: Tests, n: nat, c: Cutoffs)
    requires Initialized(t) && 2 <= n < LagSpec.WINDOW && ValidCutoffs(c) && c.rct.intermittent >= 2
    ensures OwnBits(JudgeAll(t, [], Steady(n), c).0.failure) == {}
  {
    hide JudgeAll;
    hide Flags;
    hide Steady;
    hide Apt.Repetitive;
    hide FreshLag;
    hide Rct.Longest;
    hide Expected;
    hide Stuck;
    hide Slide;
    var h := Steady(n);
    var s := From(t, [], h);
    SteadyFlags(t, n);
    SteadyIncreases(n);
    SparseRuns(Flags(s));
    IncreasingIsQuiet(Unprimed(s), c);
    IncreasingIsQuiet(h, c);
    JudgeTracks(t, [], h, c);
    forall f ensures f !in After(s, c).0.failure {
      Raises(s, c, f);
      StreamVerdict(s, f, c);
    }
  }

  /**
   In the common configuration, at every rate, a collector can receive deltas that raise the
   alarm while none of the other tests raises a bit.
   */
  lemma AlarmIsReached(t: Tests, osr: nat)
    requires CutoffTables.MIN_OSR <= osr <= CutoffTables.MAX_OSR
    requires Initialized(t) && t.mem.ctr == 0 && t.mem.nosr == 321 * osr
    ensures var c, h := CutoffTables.For(osr, false), Steady(321 * osr + 2);
      && (exists m :: AlarmAt(t, [], h, m, c))
      && OwnBits(JudgeAll(t, [], h, c).0.failure) == {}
  {
    hide JudgeAll;
    hide AlarmAt;
    hide Flags;
    hide Steady;
    CutoffTables.Orderings(osr, false);
    RctCutoff(osr);
    hide CutoffTables.For;
    SteadyFlags(t, 321 * osr + 2);
    AlarmIff(t, [], Steady(321 * osr + 2), osr);
    SteadyIsQuiet(t, 321 * osr + 2, CutoffTables.For(osr, false));
  }

  lemma RctCutoff(osr: nat)
    requires CutoffTables.MIN_OSR <= osr <= CutoffTables.MAX_OSR
    ensures CutoffTables.For(osr, false).rct.intermittent >= 2
  {}
}
