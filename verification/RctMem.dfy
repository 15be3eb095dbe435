/**
 The repetition count test with memory: within the window of one block every third verdict of
 the stuck test is counted. The recovery an alarm starts is part of the collector.
 */
module RepetitionCountMemory {
  datatype Window = Window(ctr: nat, nosr: nat, count: nat)

  predicate Inside(w: Window) {
    w.ctr < w.nosr
  }

  /** The count `jent_rct_mem_insert` compares with the cutoffs. */
  function Tally(w: Window, stuck: bool): nat {
    (if w.ctr == 0 then 0 else w.count) + if stuck && Inside(w) && w.ctr % 3 == 0 then 1 else 0
  }

  /** One insertion that raises no alarm. */
  function Insert(w: Window, stuck: bool): Window {
    Window(if Inside(w) then w.ctr + 1 else w.ctr, w.nosr, Tally(w, stuck))
  }

  /** The verdicts of a block from its first measurement on. */
  function Run(w: Window, h: seq<bool>): Window {
    if h == [] then w else Insert(Run(w, h[..|h| - 1]), h[|h| - 1])
  }

  // ----- the batch rule

  function Counted(h: seq<bool>): nat {
    if h == [] then 0
    else Counted(h[..|h| - 1]) + if h[|h| - 1] && (|h| - 1) % 3 == 0 then 1 else 0
  }

  lemma {:induction false} CountedBound(h: seq<bool>)
    ensures Counted(h) <= (|h| + 2) / 3
  {
    if h != [] {
      CountedBound(h[..|h| - 1]);
    }
  }

  /**
   Whatever the counters held before, after the verdicts of a block they describe exactly that
   block: the verdicts past the window change nothing.
   */
  lemma {:induction false} RunFollows(nosr: nat, stale: nat, h: seq<bool>)
    requires nosr > 0 && h != []
    ensures var n := if |h| < nosr then |h| else nosr;
            Run(Window(0, nosr, stale), h) == Window(n, nosr, Counted(h[..n]))
  {
    var p := h[..|h| - 1];
    assert h[..|h|] == h;
    if p == [] {
      assert Counted(h) == Tally(Window(0, nosr, stale), h[0]);
    } else {
      RunFollows(nosr, stale, p);
      if |p| < nosr {
        assert p[..|p|] == p;
      } else {
        assert p[..nosr] == h[..nosr];
      }
    }
  }

  /** Of a window whose size is a multiple of three, at most a third is ever counted. */
  lemma CountNeverExceedsThird(nosr: nat, stale: nat, h: seq<bool>)
    requires nosr > 0 && nosr % 3 == 0 && h != []
    ensures Run(Window(0, nosr, stale), h).count <= nosr / 3
  {
    var n := if |h| < nosr then |h| else nosr;
    RunFollows(nosr, stale, h);
    CountedBound(h[..n]);
  }

  lemma {:induction false} CountedPrefix(h: seq<bool>, n: nat)
    requires n <= |h|
    ensures Counted(h[..n]) <= Counted(h)
  {
    if n < |h| {
      CountedPrefix(h[..|h| - 1], n);
      assert h[..|h| - 1][..n] == h[..n];
    } else {
      assert h[..n] == h;
    }
  }

  /** The count grows by one at a time: it passes through every value up to the last. */
  lemma {:induction false} CountedReaches(h: seq<bool>, k: nat) returns (n: nat)
    requires 0 < k <= Counted(h)
    ensures 0 < n <= |h| && Counted(h[..n]) == k
  {
    var p := h[..|h| - 1];
    if Counted(p) >= k {
      n := CountedReaches(p, k);
      assert p[..n] == h[..n];
    } else {
      n := |h|;
      assert h[..n] == h;
    }
  }

  /** Every verdict that is counted is stuck, up to the end of `h`. */
  ghost predicate EveryThird(h: seq<bool>, n: nat) {
    forall i :: 0 <= i < n && i % 3 == 0 ==> i < |h| && h[i]
  }

  lemma {:induction false} CountedIsFull(h: seq<bool>)
    ensures Counted(h) == (|h| + 2) / 3 <==> EveryThird(h, |h|)
  {
    if h != [] {
      var p := h[..|h| - 1];
      CountedIsFull(p);
      CountedBound(p);
      if EveryThird(h, |h|) {
        assert forall i :: 0 <= i < |p| ==> p[i] == h[i];
      }
      if EveryThird(p, |p|) && (h[|h| - 1] || (|h| - 1) % 3 != 0) {
        assert forall i :: 0 <= i < |h| && i % 3 == 0 ==> if i < |p| then p[i] else h[i];
      }
    }
  }

  /** The count reaches a third of the window exactly when every third verdict within it is stuck. */
  lemma ReachesThird(nosr: nat, stale: nat, h: seq<bool>)
    requires nosr > 0 && nosr % 3 == 0 && h != []
    ensures Run(Window(0, nosr, stale), h).count == nosr / 3 <==> EveryThird(h, nosr)
  {
    hide Run;
    var n := if |h| < nosr then |h| else nosr;
    var w := h[..n];
    RunFollows(nosr, stale, h);
    CountedIsFull(w);
    CountedBound(w);
    hide Counted;
    if EveryThird(h, nosr) {
      var last := nosr - 3;
      assert last % 3 == 0 && last < |h| && h[last];
      assert forall i :: 0 <= i < n ==> w[i] == h[i];
    }
    if EveryThird(w, n) && (n + 2) / 3 == nosr / 3 {
      assert forall i :: 0 <= i < nosr && i % 3 == 0 ==> i < n && h[i] == w[i];
    }
  }
}
