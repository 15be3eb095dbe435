/** Which failure bits a collector has, from the streams of deltas it has judged. */
module Verdicts {
  import opened Words
  import opened Failures
  import opened HealthTests
  import opened Streams
  import LagSpec
  import Windows
  import Apt = AdaptiveProportion
  import Rct = RepetitionCount

  // ----- the batch rules of a stream

  /** The deltas that are not used up as priming. */
  function Unprimed(s: Stream): seq<u64> {
    if |s.deltas| <= s.start.prime then [] else s.deltas[s.start.prime..]
  }

  /** The lag window after the deltas `h`. */
  ghost function Slide(w: seq<u64>, h: seq<u64>): seq<u64> {
    if h == [] then w else LagSpec.Advance(Slide(w, h[..|h| - 1]), h[|h| - 1])
  }

  /** The stuck verdicts that are counted: a delta against the deltas of the lag window it falls into. */
  ghost function Flags(s: Stream): seq<bool>
    decreases |s.deltas|
  {
    if |s.deltas| <= s.start.prime then [] else
    var n := |s.deltas| - 1;
    Flags(s.(deltas := s.deltas[..n])) + [Stuck(Slide(s.window, s.deltas[..n]), s.deltas[n])]
  }

  ghost function LagBits(w: seq<u64>, h: seq<u64>, c: LagSpec.Cutoffs): set<Failure> {
    if h == [] then {} else
    LagBits(w, h[..|h| - 1], c) + LagSpec.Raised(Slide(w, h[..|h| - 1]) + [h[|h| - 1]], c)
  }

  /** The bits each test raises on its own. */
  ghost function Expected(s: Stream, c: Cutoffs): set<Failure> {
    LagBits(s.window, s.deltas, c.lag) + Apt.Run(s.start.apt, Unprimed(s), c.apt).1 + Rct.Run(s.start.rct, Flags(s), c.rct).1
  }

  ghost predicate Follows(t: Core, w: seq<u64>, s: Stream, c: Cutoffs) {
    && w == Slide(s.window, s.deltas)
    && t.prime == (if |s.deltas| <= s.start.prime then s.start.prime - |s.deltas| else 0)
    && t.apt == Apt.Run(s.start.apt, Unprimed(s), c.apt).0
    && t.rct == Rct.Run(s.start.rct, Flags(s), c.rct).0
    && t.failure == s.start.failure + Expected(s, c)
  }

  ghost function Longer(s: Stream, d: u64): Stream {
    s.(deltas := s.deltas + [d])
  }

  lemma LagSnoc(w: seq<u64>, h: seq<u64>, d: u64, c: LagSpec.Cutoffs)
    ensures Slide(w, h + [d]) == LagSpec.Advance(Slide(w, h), d)
    ensures LagBits(w, h + [d], c) == LagBits(w, h, c) + LagSpec.Raised(Slide(w, h) + [d], c)
  {
    hide LagSpec.Raised;
    hide LagSpec.Advance;
    assert (h + [d])[..|h|] == h;
  }

  lemma FlagsSnoc(s: Stream, d: u64, c: Rct.Cutoffs)
    requires |s.deltas| >= s.start.prime
    ensures var (n, bits) := Rct.Run(s.start.rct, Flags(s), c);
            var (n', raised) := Rct.Insert(n, Stuck(Slide(s.window, s.deltas), d), c);
            Rct.Run(s.start.rct, Flags(Longer(s, d)), c) == (n', bits + raised)
  {
    hide Stuck;
    hide Slide;
    hide Rct.Insert;
    assert (s.deltas + [d])[..|s.deltas|] == s.deltas;
    assert Longer(s, d).(deltas := s.deltas) == s;
    var flags := Flags(Longer(s, d));
    assert flags == Flags(s) + [Stuck(Slide(s.window, s.deltas), d)];
    assert flags[..|flags| - 1] == Flags(s);
  }

  lemma UnprimedSnoc(s: Stream, d: u64, c: Apt.Cutoffs)
    requires |s.deltas| >= s.start.prime
    ensures var (p, bits) := Apt.Run(s.start.apt, Unprimed(s), c);
            var (p', raised) := Apt.Insert(p, d, c);
            Apt.Run(s.start.apt, Unprimed(Longer(s, d)), c) == (p', bits + raised)
  {
    hide Apt.Insert;
    assert Unprimed(Longer(s, d)) == Unprimed(s) + [d];
    assert (Unprimed(s) + [d])[..|Unprimed(s)|] == Unprimed(s);
  }

  lemma NoFlags(s: Stream)
    requires |s.deltas| <= s.start.prime
    ensures Flags(s) == []
  {}

  lemma StepFollows(t: Core, w: seq<u64>, s: Stream, d: u64, c: Cutoffs)
    requires Follows(t, w, s, c)
    ensures Follows(Step(t, w, d, c), LagSpec.Advance(w, d), Longer(s, d), c)
  {
    hide LagSpec.Raised;
    hide LagSpec.Advance;
    hide LagBits;
    hide Slide;
    hide Apt.Insert;
    hide Apt.Run;
    hide Rct.Insert;
    hide Rct.Run;
    hide Stuck;
    hide Flags;
    LagSnoc(s.window, s.deltas, d, c.lag);
    if |s.deltas| >= s.start.prime {
      hide Unprimed;
      FlagsSnoc(s, d, c.rct);
      UnprimedSnoc(s, d, c.apt);
    } else {
      NoFlags(Longer(s, d));
      NoFlags(s);
    }
  }

  /** The combined steps of a stream are the separate batch rules on it. */
  lemma {:induction false} RunFollows(s: Stream, c: Cutoffs)
    ensures Follows(After(s, c).0, After(s, c).1, s, c)
    decreases |s.deltas|
  {
    hide Follows;
    hide Step;
    hide LagSpec.Advance;
    if s.deltas == [] {
      NothingFollows(s, c);
    } else {
      var n := |s.deltas| - 1;
      var p := s.(deltas := s.deltas[..n]);
      RunFollows(p, c);
      var (t, w) := After(p, c);
      StepFollows(t, w, p, s.deltas[n], c);
      assert s.deltas[..n] + [s.deltas[n]] == s.deltas;
      assert Longer(p, s.deltas[n]) == s;
    }
  }

  lemma NothingFollows(s: Stream, c: Cutoffs)
    requires s.deltas == []
    ensures Follows(s.start, s.window, s, c)
  {
    NoFlags(s);
  }

  // ----- all streams of a collector

  lemma Raises(s: Stream, c: Cutoffs, f: Failure)
    ensures f in After(s, c).0.failure <==> f in s.start.failure || f in Expected(s, c)
  {
    hide Step;
    hide LagSpec.Advance;
    hide Expected;
    RunFollows(s, c);
  }

  ghost predicate RaisedBySome(streams: seq<Stream>, c: Cutoffs, f: Failure) {
    exists k :: 0 <= k < |streams| && f in Expected(streams[k], c)
  }

  lemma RaisedBySnoc(streams: seq<Stream>, c: Cutoffs, f: Failure)
    requires streams != []
    ensures RaisedBySome(streams, c, f) <==>
      RaisedBySome(streams[..|streams| - 1], c, f) || f in Expected(Last(streams), c)
  {
    hide Expected;
    var n := |streams| - 1;
    if k :| 0 <= k < |streams| && f in Expected(streams[k], c) && k < n {
      assert streams[..n][k] == streams[k];
    }
    if k :| 0 <= k < |streams[..n]| && f in Expected(streams[..n][k], c) {
      assert streams[k] == streams[..n][k];
    }
  }

  /** A bit is set exactly if one of the streams raised it. */
  lemma {:induction false} BitsOfStreams(streams: seq<Stream>, t: Core, w: seq<u64>, c: Cutoffs, f: Failure)
    requires Tracks(streams, t, w, c)
    ensures f in t.failure <==> RaisedBySome(streams, c, f)
    decreases |streams|
  {
    hide Expected;
    hide Step;
    hide LagSpec.Advance;
    var n := |streams| - 1;
    assert streams[n].start.failure == Before(streams, n, c);
    Raises(streams[n], c, f);
    RaisedBySnoc(streams, c, f);
    if n > 0 {
      var front := streams[..n];
      FrontTracks(streams, c);
      BitsOfStreams(front, After(Last(front), c).0, After(Last(front), c).1, c, f);
    }
  }

  lemma FrontTracks(streams: seq<Stream>, c: Cutoffs)
    requires |streams| > 1 && Chained(streams, c)
    ensures var front := streams[..|streams| - 1];
            Tracks(front, After(Last(front), c).0, After(Last(front), c).1, c)
  {
    hide Step;
    var front := streams[..|streams| - 1];
    forall k | 0 <= k < |front| ensures Known(front[k], c) && front[k].start.failure == Before(front, k, c) {
      assert front[k] == streams[k] && Before(front, k, c) == Before(streams, k, c);
    }
  }

  // ----- the lag window a stream begins with

  /** In some window the lag predictors guessed that many deltas in a row, or that many in all. */
  ghost predicate Predictable(h: seq<u64>, local: nat, global: nat) {
    exists n :: 0 < n <= |h| && LagSpec.Reached(Windows.Judged(h, n, LagSpec.WINDOW), local, global)
  }

  ghost predicate FreshLag(h: seq<u64>, f: Failure, c: LagSpec.Cutoffs) {
    || (f == LagPermanent && Predictable(h, c.localPermanent, c.globalPermanent))
    || (f == Failures.Lag && Predictable(h, c.local, c.global))
  }

  /** How many deltas the window `w` still takes. */
  function LagLeft(w: seq<u64>, h: seq<u64>): (k: nat)
    requires |w| < LagSpec.WINDOW
    ensures k <= |h|
  {
    if |w| + |h| <= LagSpec.WINDOW then |h| else LagSpec.WINDOW - |w|
  }

  /**
   The batch rule from any window: a delta that completes `w` to a window that raises the bit,
   or the fresh rule on the deltas after that window.
   */
  ghost predicate LagRuled(w: seq<u64>, h: seq<u64>, f: Failure, c: LagSpec.Cutoffs)
    requires |w| < LagSpec.WINDOW
  {
    if w == [] then FreshLag(h, f, c) else
    var k := LagLeft(w, h);
    (exists n :: 0 < n <= k && f in LagSpec.Raised(w + h[..n], c)) || FreshLag(h[k..], f, c)
  }

  lemma {:induction false} FromEmptyWindow(h: seq<u64>, c: LagSpec.Cutoffs)
    ensures Slide([], h) == Windows.Current(h, LagSpec.WINDOW)
    ensures LagBits([], h, c) == LagSpec.StreamBits(h, c)
  {
    hide LagSpec.Raised;
    hide Windows.Current;
    if h == [] {
      Windows.NothingYet(h, LagSpec.WINDOW, LagSpec.Rule(c));
    } else {
      var p, d := h[..|h| - 1], h[|h| - 1];
      FromEmptyWindow(p, c);
      assert p + [d] == h;
      Windows.CurrentSnoc(p, d, LagSpec.WINDOW);
    }
  }

  lemma {:induction false} LagBound(w: seq<u64>, h: seq<u64>, c: LagSpec.Cutoffs)
    ensures LagBits(w, h, c) <= {Failures.Lag, LagPermanent}
  {
    hide LagSpec.Raised;
    if h != [] {
      LagBound(w, h[..|h| - 1], c);
    }
  }

  lemma FreshLagVerdict(h: seq<u64>, f: Failure, c: LagSpec.Cutoffs)
    requires LagSpec.ValidCutoffs(c)
    ensures f in LagBits([], h, c) <==> FreshLag(h, f, c)
  {
    hide LagBits;
    hide LagSpec.StreamBits;
    hide LagSpec.Reached;
    FromEmptyWindow(h, c);
    LagBound([], h, c);
    LagSpec.StreamVerdict(h, c);
  }

  lemma {:induction false} LagAppend(w: seq<u64>, a: seq<u64>, b: seq<u64>, c: LagSpec.Cutoffs)
    ensures Slide(w, a + b) == Slide(Slide(w, a), b)
    ensures LagBits(w, a + b, c) == LagBits(w, a, c) + LagBits(Slide(w, a), b, c)
    decreases |b|
  {
    hide LagSpec.Raised;
    hide LagSpec.Advance;
    if b == [] {
      assert a + b == a;
    } else {
      var p, d := b[..|b| - 1], b[|b| - 1];
      LagAppend(w, a, p, c);
      assert (a + b)[..|a + b| - 1] == a + p && (a + b)[|a + b| - 1] == d;
    }
  }

  /** Up to the end of the window it begins with, a stream raises what its prefixes raise there. */
  lemma {:induction false} LagHead(w: seq<u64>, h: seq<u64>, f: Failure, c: LagSpec.Cutoffs)
    requires |w| < LagSpec.WINDOW && |w| + |h| <= LagSpec.WINDOW
    ensures Slide(w, h) == if |w| + |h| < LagSpec.WINDOW then w + h else []
    ensures f in LagBits(w, h, c) <==> exists n :: 0 < n <= |h| && f in LagSpec.Raised(w + h[..n], c)
    decreases |h|
  {
    hide LagSpec.Raised;
    if h == [] {
      assert w + h == w;
    } else {
      var p, d := h[..|h| - 1], h[|h| - 1];
      LagHead(w, p, f, c);
      assert w + p + [d] == w + h && h[..|h|] == h;
      if n :| 0 < n <= |h| && f in LagSpec.Raised(w + h[..n], c) && n < |h| {
        assert p[..n] == h[..n];
      }
      if n :| 0 < n <= |p| && f in LagSpec.Raised(w + p[..n], c) {
        assert p[..n] == h[..n];
      }
    }
  }

  lemma LagVerdict(w: seq<u64>, h: seq<u64>, f: Failure, c: LagSpec.Cutoffs)
    requires |w| < LagSpec.WINDOW && LagSpec.ValidCutoffs(c)
    ensures f in LagBits(w, h, c) <==> LagRuled(w, h, f, c)
  {
    hide LagBits;
    hide Slide;
    hide LagSpec.Raised;
    hide FreshLag;
    if w == [] {
      FreshLagVerdict(h, f, c);
    } else {
      var k := LagLeft(w, h);
      var head, tail := h[..k], h[k..];
      assert h == head + tail;
      LagAppend(w, head, tail, c);
      LagHead(w, head, f, c);
      assert forall n :: 0 < n <= k ==> head[..n] == h[..n];
      if k < |h| {
        FreshLagVerdict(tail, f, c);
      } else {
        NoTail(Slide(w, head), tail, f, c);
      }
    }
  }

  lemma NoTail(w: seq<u64>, h: seq<u64>, f: Failure, c: LagSpec.Cutoffs)
    requires h == []
    ensures LagBits(w, h, c) == {} && !FreshLag(h, f, c)
  {}

  // ----- the rule of a stream

  ghost predicate ValidCutoffs(c: Cutoffs) {
    LagSpec.ValidCutoffs(c.lag) && Apt.ValidCutoffs(c.apt) && Rct.ValidCutoffs(c.rct)
  }

  /** The bits of the three tests by their batch rules on the whole stream. */
  ghost predicate Rule(s: Stream, f: Failure, c: Cutoffs)
    requires Known(s, c)
  {
    || Rct.Ruled(s.start.rct, Flags(s), f, c.rct)
    || Apt.Ruled(s.start.apt, Unprimed(s), f, c.apt)
    || LagRuled(s.window, s.deltas, f, c.lag)
  }

  /** What a stream raises, whether an initialization or a duplication opened it. */
  lemma StreamVerdict(s: Stream, f: Failure, c: Cutoffs)
    requires Known(s, c) && ValidCutoffs(c)
    ensures f in Expected(s, c) <==> Rule(s, f, c)
  {
    hide LagBits;
    hide Apt.Run;
    hide Rct.Run;
    hide Flags;
    hide Unprimed;
    hide LagRuled;
    hide Apt.Ruled;
    hide Rct.Ruled;
    Rct.Verdict(s.start.rct, Flags(s), f, c.rct);
    Apt.Verdict(s.start.apt, Unprimed(s), f, c.apt);
    LagVerdict(s.window, s.deltas, f, c.lag);
  }

  ghost predicate AllKnown(streams: seq<Stream>, c: Cutoffs) {
    forall k :: 0 <= k < |streams| ==> Known(streams[k], c)
  }

  ghost predicate Ruled(streams: seq<Stream>, f: Failure, c: Cutoffs) {
    exists k :: 0 <= k < |streams| && Known(streams[k], c) && Rule(streams[k], f, c)
  }

  /** A bit of the three tests is set exactly if its batch rule holds of one of the streams. */
  ghost predicate Explained(streams: seq<Stream>, failure: set<Failure>, c: Cutoffs) {
    forall f :: f in {Failures.Rct, RctPermanent, Failures.Apt, AptPermanent, Failures.Lag, LagPermanent} ==>
      (f in failure <==> Ruled(streams, f, c))
  }

  lemma EngineBit(streams: seq<Stream>, t: Core, w: seq<u64>, c: Cutoffs, f: Failure)
    requires Tracks(streams, t, w, c) && ValidCutoffs(c)
    ensures f in t.failure <==> Ruled(streams, f, c)
  {
    hide Tracks;
    hide Expected;
    hide Rule;
    hide Known;
    BitsOfStreams(streams, t, w, c, f);
    TracksKnown(streams, t, w, c);
    forall k | 0 <= k < |streams| ensures f in Expected(streams[k], c) <==> Rule(streams[k], f, c) {
      StreamVerdict(streams[k], f, c);
    }
  }

  lemma TracksKnown(streams: seq<Stream>, t: Core, w: seq<u64>, c: Cutoffs)
    requires Tracks(streams, t, w, c)
    ensures AllKnown(streams, c)
  {
    hide After;
  }

  /** The tests of any collector, replaced or not, recoveries included. */
  lemma EngineVerdict(streams: seq<Stream>, t: Tests, w: seq<u64>, c: Cutoffs)
    requires Tracks(streams, CoreOf(t), w, c) && ValidCutoffs(c)
    ensures Explained(streams, t.failure, c)
  {
    hide Tracks;
    hide Ruled;
    hide ValidCutoffs;
    forall f | f in {Failures.Rct, RctPermanent, Failures.Apt, AptPermanent, Failures.Lag, LagPermanent}
      ensures f in t.failure <==> Ruled(streams, f, c)
    {
      EngineBit(streams, CoreOf(t), w, c, f);
    }
  }
}
