/**
 The Repetition Count Test of SP 800-90B section 4.4.1, fed with the verdicts of the stuck test:
 the incremental counter against the longest run of stuck values.
 */
module RepetitionCount {
  import opened Words
  import opened Failures

  datatype Cutoffs = Cutoffs(intermittent: nat, permanent: nat)

  ghost predicate ValidCutoffs(c: Cutoffs) {
    0 < c.intermittent < c.permanent < TWO32
  }

  /** `jent_rct_insert` on values, the counter being 32 bits wide. */
  function Insert(count: nat, stuck: bool, c: Cutoffs): (nat, set<Failure>) {
    if !stuck then (0, {}) else
    var n := (count + 1) % TWO32;
    (n, if n >= c.permanent then {RctPermanent} else if n == c.intermittent then {Rct} else {})
  }

  function Run(count: nat, h: seq<bool>, c: Cutoffs): (nat, set<Failure>) {
    if h == [] then (count, {}) else
    var (n, bits) := Run(count, h[..|h| - 1], c);
    var (n', raised) := Insert(n, h[|h| - 1], c);
    (n', bits + raised)
  }

  // ----- the batch rule

  /** The stuck values at the end of `h`. */
  function Trailing(h: seq<bool>): (n: nat)
    ensures n <= |h|
  {
    if h == [] || !h[|h| - 1] then 0 else Trailing(h[..|h| - 1]) + 1
  }

  /** The longest run of stuck values anywhere in `h`. */
  function Longest(h: seq<bool>): (n: nat)
    ensures Trailing(h) <= n <= |h|
  {
    if h == [] then 0 else
    var rest := Longest(h[..|h| - 1]);
    if Trailing(h) > rest then Trailing(h) else rest
  }

  /** `Longest` is attained by a run, and no run is longer. */
  lemma {:induction false} LongestIsMaximal(h: seq<bool>, i: nat, j: nat)
    requires i <= j <= |h| && forall k :: i <= k < j ==> h[k]
    ensures j - i <= Longest(h)
  {
    if j < |h| {
      LongestIsMaximal(h[..|h| - 1], i, j);
    } else if i < j {
      TrailingCovers(h, i);
    }
  }

  lemma {:induction false} TrailingCovers(h: seq<bool>, i: nat)
    requires i <= |h| && forall k :: i <= k < |h| ==> h[k]
    ensures |h| - i <= Trailing(h)
  {
    if i < |h| {
      TrailingCovers(h[..|h| - 1], i);
    }
  }

  lemma {:induction false} LongestIsAttained(h: seq<bool>) returns (i: nat)
    ensures i + Longest(h) <= |h| && forall k :: i <= k < i + Longest(h) ==> h[k]
  {
    i := 0;
    if h != [] {
      if Trailing(h) > Longest(h[..|h| - 1]) {
        i := |h| - Trailing(h);
        TrailingIsStuck(h);
      } else {
        i := LongestIsAttained(h[..|h| - 1]);
      }
    }
  }

  lemma {:induction false} TrailingIsStuck(h: seq<bool>)
    ensures forall k :: |h| - Trailing(h) <= k < |h| ==> h[k]
  {
    if h != [] && h[|h| - 1] {
      TrailingIsStuck(h[..|h| - 1]);
    }
  }

  lemma ModSucc(t: nat)
    ensures (t % TWO32 + 1) % TWO32 == (t + 1) % TWO32
  {}

  lemma SmallMod(t: nat)
    requires t < TWO32
    ensures t % TWO32 == t
  {}

  lemma StuckInsert(t: nat, c: Cutoffs)
    requires ValidCutoffs(c)
    ensures var (n, raised) := Insert(t % TWO32, true, c);
      && n == (t + 1) % TWO32
      && (RctPermanent in raised <==> n >= c.permanent) && (Rct in raised <==> n == c.intermittent)
  {
    ModSucc(t);
  }

  lemma NotStuckInsert(t: nat, c: Cutoffs)
    ensures Insert(t, false, c) == (0, {})
  {}

  /**
   From a fresh collector the counter is the current stuck run, and each bit is raised exactly
   when the longest stuck run reaches its cutoff, even past the width of the counter.
   */
  lemma {:induction false} FreshVerdict(h: seq<bool>, c: Cutoffs)
    requires ValidCutoffs(c)
    ensures Run(0, h, c).0 == Trailing(h) % TWO32
    ensures RctPermanent in Run(0, h, c).1 <==> Longest(h) >= c.permanent
    ensures Rct in Run(0, h, c).1 <==> Longest(h) >= c.intermittent
  {
    hide Insert;
    if h != [] {
      var p := h[..|h| - 1];
      FreshVerdict(p, c);
      if h[|h| - 1] {
        StuckInsert(Trailing(p), c);
        if Trailing(p) + 1 < TWO32 {
          SmallMod(Trailing(p) + 1);
        }
      } else {
        NotStuckInsert(Run(0, p, c).0, c);
      }
    }
  }

  lemma {:induction false} RunAppend(count: nat, g: seq<bool>, h: seq<bool>, c: Cutoffs)
    ensures Run(count, g + h, c).0 == Run(Run(count, g, c).0, h, c).0
    ensures Run(count, g + h, c).1 == Run(count, g, c).1 + Run(Run(count, g, c).0, h, c).1
  {
    if h == [] {
      assert g + h == g;
    } else {
      RunAppend(count, g, h[..|h| - 1], c);
      assert (g + h)[..|g + h| - 1] == g + h[..|h| - 1];
    }
  }

  lemma NextRound(cutoff: nat, n: nat)
    requires 0 < n <= TWO32 && cutoff < TWO32
    ensures (cutoff + n) % TWO32 == if cutoff + n < TWO32 then cutoff + n else cutoff + n - TWO32
  {}

  lemma {:induction false} PrimedStreak(h: seq<bool>, c: Cutoffs)
    requires ValidCutoffs(c) && forall k :: 0 <= k < |h| ==> h[k]
    ensures Run(c.intermittent, h, c).0 == (c.intermittent + |h|) % TWO32
    ensures RctPermanent in Run(c.intermittent, h, c).1 <==> |h| >= c.permanent - c.intermittent
    ensures Rct in Run(c.intermittent, h, c).1 <==> |h| >= TWO32
  {
    hide Insert;
    if h != [] {
      PrimedStreak(h[..|h| - 1], c);
      StuckInsert(c.intermittent + |h| - 1, c);
      if |h| <= TWO32 {
        NextRound(c.intermittent, |h|);
      }
    }
  }

  /** One non-stuck value clears the priming: from there on the test is that of a fresh collector. */
  lemma PrimingCleared(count: nat, h: seq<bool>, c: Cutoffs)
    ensures Run(count, [false] + h, c).0 == Run(0, h, c).0
    ensures Run(count, [false] + h, c).1 == Run(0, h, c).1
  {
    RunAppend(count, [false], h, c);
    assert Run(count, [false], c).0 == 0 && Run(count, [false], c).1 == {};
  }

  /** The stuck run a stream begins with. */
  function Leading(h: seq<bool>): (n: nat)
    ensures n <= |h| && (n < |h| ==> !h[n]) && forall k :: 0 <= k < n ==> h[k]
  {
    if h == [] || !h[0] then 0 else 1 + Leading(h[1..])
  }

  /** What follows the first value that is not stuck. */
  function Rest(h: seq<bool>): seq<bool> {
    if Leading(h) == |h| then [] else h[Leading(h) + 1..]
  }

  /**
   After `jent_rct_duplicate` primed the counter at the intermittent cutoff, for every stream: a
   stuck run that goes on unbroken raises the permanent bit after exactly as many values as the
   cutoffs are apart, and the intermittent bit only by wrapping the counter; apart from that
   first run the verdict is the fresh one on the rest.
   */
  lemma PrimedVerdict(h: seq<bool>, c: Cutoffs)
    requires ValidCutoffs(c)
    ensures RctPermanent in Run(c.intermittent, h, c).1
       <==> Leading(h) >= c.permanent - c.intermittent || Longest(Rest(h)) >= c.permanent
    ensures Rct in Run(c.intermittent, h, c).1 <==> Leading(h) >= TWO32 || Longest(Rest(h)) >= c.intermittent
  {
    hide Run;
    hide Longest;
    var streak := h[..Leading(h)];
    PrimedStreak(streak, c);
    FreshVerdict(Rest(h), c);
    if Leading(h) == |h| {
      assert streak == h;
      NoRun(c);
    } else {
      assert h == streak + ([false] + Rest(h));
      RunAppend(c.intermittent, streak, [false] + Rest(h), c);
      PrimingCleared((c.intermittent + |streak|) % TWO32, Rest(h), c);
    }
  }

  /** The batch rule from the two values a stream can begin with: zero, or the intermittent cutoff. */
  predicate Ruled(count: nat, h: seq<bool>, f: Failure, c: Cutoffs) {
    match f
    case RctPermanent =>
      if count == 0 then Longest(h) >= c.permanent
      else Leading(h) >= c.permanent - c.intermittent || Longest(Rest(h)) >= c.permanent
    case Rct =>
      if count == 0 then Longest(h) >= c.intermittent
      else Leading(h) >= TWO32 || Longest(Rest(h)) >= c.intermittent
    case _ => false
  }

  lemma Verdict(count: nat, h: seq<bool>, f: Failure, c: Cutoffs)
    requires ValidCutoffs(c) && (count == 0 || count == c.intermittent)
    ensures f in Run(count, h, c).1 <==> Ruled(count, h, f, c)
  {
    hide Run;
    hide Longest;
    hide Leading;
    RunBits(count, h, c);
    if count == 0 {
      FreshVerdict(h, c);
    } else {
      PrimedVerdict(h, c);
    }
  }

  lemma {:induction false} RunBits(count: nat, h: seq<bool>, c: Cutoffs)
    ensures Run(count, h, c).1 <= {Rct, RctPermanent}
  {
    if h != [] {
      RunBits(count, h[..|h| - 1], c);
    }
  }

  lemma NoRun(c: Cutoffs)
    ensures Longest([]) == 0 && Run(0, [], c) == (0, {})
  {}
}
