/**
 The lag predictor test, stated over the window of deltas it has seen.
 `w` is always the sequence of deltas inserted since the window was opened.
 */
module LagSpec {
  import opened Words
  import opened Failures
  import Windows

  const HISTORY: nat := 8
  const WINDOW: nat := 131072

  datatype Cutoffs = Cutoffs(local: nat, localPermanent: nat, global: nat, globalPermanent: nat)

  ghost predicate ValidCutoffs(c: Cutoffs) {
    0 < c.local < c.localPermanent && 0 < c.global < c.globalPermanent
  }

  /** `(observations - loc - 1) & JENT_LAG_MASK` in 32-bit unsigned arithmetic. */
  function Slot(observations: nat, loc: nat): (k: nat)
    ensures k < HISTORY
  {
    (observations - loc - 1) % TWO32 % HISTORY
  }

  lemma SlotShift(n: nat, loc: nat)
    requires n < TWO32 - 1 && loc < HISTORY
    ensures Slot(n + 1, loc) == if loc == 0 then n % HISTORY else Slot(n, loc - 1)
    ensures loc > 0 ==> Slot(n + 1, loc) != n % HISTORY
  {
    assert n - loc < 0 ==> (n - loc) % TWO32 == n - loc + TWO32;
  }

  /** The delta seen `loc + 1` insertions ago; before the window opened everything reads as 0. */
  function Recent(w: seq<u64>, loc: nat): u64 {
    if loc < |w| then w[|w| - 1 - loc] else 0
  }

  ghost predicate Guessed(w: seq<u64>, i: nat, j: int)
    requires i < HISTORY <= j < |w|
  {
    w[j] == w[j - 1 - i]
  }

  /** The observations that the predictor of lag `i + 1` guessed correctly. */
  ghost function Hits(w: seq<u64>, i: nat): set<int>
    requires i < HISTORY
  {
    set j | HISTORY <= j < |w| && Guessed(w, i, j)
  }

  ghost function Score(w: seq<u64>, i: nat): nat
    requires i < HISTORY
  {
    |Hits(w, i)|
  }

  lemma ScoreSnoc(w: seq<u64>, d: u64, i: nat)
    requires i < HISTORY
    ensures Score(w + [d], i) == Score(w, i) + if |w| >= HISTORY && Recent(w, i) == d then 1 else 0
  {
    var w' := w + [d];
    var now := if |w| >= HISTORY && Recent(w, i) == d then {|w|} else {};
    forall j: int ensures j in Hits(w', i) <==> j in Hits(w, i) + now {
      if HISTORY <= j < |w| {
        assert Guessed(w', i, j) == Guessed(w, i, j);
      } else if j == |w| >= HISTORY {
        assert Guessed(w', i, j) <==> Recent(w, i) == d;
      }
    }
    assert Hits(w', i) == Hits(w, i) + now;
  }

  /** The shortest lag from `i` on whose score exceeds `m`, or 8. */
  ghost function FirstAbove(w: seq<u64>, m: nat, i: nat): (r: nat)
    requires i <= HISTORY
    ensures i <= r <= HISTORY
    ensures r < HISTORY ==> Score(w, r) > m
    ensures forall k :: i <= k < r ==> Score(w, k) <= m
    decreases HISTORY - i
  {
    if i == HISTORY || Score(w, i) > m then i else FirstAbove(w, m, i + 1)
  }

  /**
   The predictor in charge after `w`: the incumbent stays until some lag passes the score that
   was best so far, and then the shortest such lag takes over.
   */
  ghost function Best(w: seq<u64>): (b: nat)
    ensures b < HISTORY
  {
    if |w| <= HISTORY then 0 else
    var p := w[..|w| - 1];
    var r := FirstAbove(w, Score(p, Best(p)), 0);
    if r < HISTORY then r else Best(p)
  }

  lemma {:induction false} BestIsArgmax(w: seq<u64>, i: nat)
    requires i < HISTORY
    ensures Score(w, i) <= Score(w, Best(w))
  {
    if |w| > HISTORY {
      var p, d := w[..|w| - 1], w[|w| - 1];
      assert w == p + [d];
      BestIsArgmax(p, i);
      ScoreSnoc(p, d, i);
      ScoreSnoc(p, d, Best(p));
    } else {
      assert Hits(w, i) == {};
    }
  }

  lemma BestSnoc(w: seq<u64>, d: u64)
    requires |w| >= HISTORY
    ensures var r := FirstAbove(w + [d], Score(w, Best(w)), 0);
            Best(w + [d]) == if r < HISTORY then r else Best(w)
  {
    assert (w + [d])[..|w|] == w;
  }

  lemma {:induction false} ScoreGrows(w: seq<u64>, m: nat, i: nat)
    requires m <= |w| && i < HISTORY
    ensures Score(w[..m], i) <= Score(w, i)
    decreases |w|
  {
    hide Score;
    if m < |w| {
      var p, d := w[..|w| - 1], w[|w| - 1];
      ScoreGrows(p, m, i);
      assert p[..m] == w[..m] && w == p + [d];
      ScoreSnoc(p, d, i);
    } else {
      assert w[..m] == w;
    }
  }

  /**
   After `n` of the deltas of `w` lag `b` had a score that no lag has passed up to now, no lag
   had it before, and no shorter lag had it then.
   */
  ghost predicate FirstReached(w: seq<u64>, b: nat, n: nat) {
    && n <= |w| && b < HISTORY && Score(w[..n], b) == Score(w, b)
    && (forall i :: 0 <= i < HISTORY ==> Score(w, i) <= Score(w, b))
    && (forall m, i :: 0 <= m < n && 0 <= i < HISTORY ==> Score(w[..m], i) < Score(w, b))
    && (forall i :: 0 <= i < b ==> Score(w[..n], i) < Score(w, b))
  }

  lemma {:induction false} BestReachedFirst(w: seq<u64>) returns (n: nat)
    ensures FirstReached(w, Best(w), n)
  {
    hide Score;
    hide Best;
    n := 0;
    if |w| <= HISTORY {
      NothingScored(w);
      NothingScored(w[..0]);
    } else {
      var p, d := w[..|w| - 1], w[|w| - 1];
      assert w == p + [d];
      var k := BestReachedFirst(p);
      n := ReachedSnoc(p, d, k);
    }
  }

  lemma ReachedSnoc(p: seq<u64>, d: u64, k: nat) returns (n: nat)
    requires |p| >= HISTORY && FirstReached(p, Best(p), k)
    ensures FirstReached(p + [d], Best(p + [d]), n)
  {
    hide Score;
    hide Best;
    var w := p + [d];
    forall i | 0 <= i < HISTORY ensures Score(w, i) <= Score(w, Best(w)) {
      BestIsArgmax(w, i);
    }
    forall m | 0 <= m <= |p| ensures w[..m] == p[..m] {}
    BestSnoc(p, d);
    ScoreSnoc(p, d, Best(p));
    if FirstAbove(w, Score(p, Best(p)), 0) < HISTORY {
      n := |w|;
      assert w[..n] == w;
      forall m, i | 0 <= m < n && 0 <= i < HISTORY ensures Score(w[..m], i) < Score(w, Best(w)) {
        ScoreGrows(p, m, i);
      }
    } else {
      n := k;
    }
  }

  /** The predictor in charge is the lag that first reached the score now best, the shortest of those that did at once. */
  lemma BestIff(w: seq<u64>, b: nat)
    ensures b == Best(w) <==> exists n :: FirstReached(w, b, n)
  {
    hide Score;
    hide Best;
    var n := BestReachedFirst(w);
    if k: nat :| FirstReached(w, b, k) {
      assert Score(w, b) == Score(w, Best(w));
      assert k == n;
    }
  }

  /** A tie does not always go to the shortest lag: here the lags 1, 2 and 3 are level and lag 2 stays. */
  lemma TieStaysWithIncumbent()
    ensures var w := [1, 2, 3, 4, 5, 6, 7, 8, 7, 7];
      Score(w, 0) == Score(w, 1) == Score(w, 2) == 1 && Best(w) == 1
  {
    hide Best;
    var start := [1, 2, 3, 4, 5, 6, 7, 8];
    NothingScored(start);
    var w := start + [7];
    forall i | 0 <= i < HISTORY ensures Score(w, i) == if i == 1 then 1 else 0 {
      ScoreSnoc(start, 7, i);
    }
    BestSnoc(start, 7);
    forall i | 0 <= i < HISTORY ensures Score(w + [7], i) == if i <= 2 then 1 else 0 {
      ScoreSnoc(w, 7, i);
    }
    BestSnoc(w, 7);
    assert w + [7] == [1, 2, 3, 4, 5, 6, 7, 8, 7, 7];
  }

  lemma NothingScored(w: seq<u64>)
    requires |w| <= HISTORY
    ensures Best(w) == 0 && forall i :: 0 <= i < HISTORY ==> Score(w, i) == 0
  {
    forall i | 0 <= i < HISTORY ensures Score(w, i) == 0 {
      assert Hits(w, i) == {};
    }
  }

  /** The last delta of `w` is the one the predictor in charge announced. */
  ghost predicate Predicted(w: seq<u64>) {
    |w| > HISTORY && w[|w| - 1] == Recent(w[..|w| - 1], Best(w[..|w| - 1]))
  }

  ghost function Successes(w: seq<u64>): nat {
    if |w| <= HISTORY then 0 else Successes(w[..|w| - 1]) + if Predicted(w) then 1 else 0
  }

  ghost function Run(w: seq<u64>): nat {
    if Predicted(w) then Run(w[..|w| - 1]) + 1 else 0
  }

  lemma {:induction false} RunBounds(w: seq<u64>)
    ensures Run(w) <= Successes(w)
    ensures Successes(w) <= if |w| < HISTORY then 0 else |w| - HISTORY
  {
    if |w| > HISTORY {
      RunBounds(w[..|w| - 1]);
    }
  }

  lemma SuccessSnoc(w: seq<u64>, d: u64)
    requires |w| >= HISTORY
    ensures Predicted(w + [d]) <==> Recent(w, Best(w)) == d
    ensures Successes(w + [d]) == Successes(w) + if Predicted(w + [d]) then 1 else 0
    ensures Run(w + [d]) == if Predicted(w + [d]) then Run(w) + 1 else 0
  {
    assert (w + [d])[..|w|] == w;
  }

  /** While the history fills up there is nothing to score. */
  lemma FillSnoc(w: seq<u64>, d: u64)
    requires |w| < HISTORY
    ensures Best(w + [d]) == Best(w) && !Predicted(w + [d])
    ensures Successes(w + [d]) == Successes(w) && Run(w + [d]) == Run(w)
    ensures forall i :: 0 <= i < HISTORY ==> Score(w + [d], i) == Score(w, i)
  {
    forall i | 0 <= i < HISTORY ensures Score(w + [d], i) == Score(w, i) { ScoreSnoc(w, d, i); }
  }

  ghost predicate Reached(w: seq<u64>, local: nat, global: nat) {
    Run(w) >= local || Successes(w) >= global
  }

  /** The failure bits one insertion raises, `w` ending in the inserted delta. */
  ghost function Raised(w: seq<u64>, c: Cutoffs): (r: set<Failure>)
    ensures r <= {Lag, LagPermanent}
  {
    if !Predicted(w) then {}
    else if Reached(w, c.localPermanent, c.globalPermanent) then {LagPermanent}
    else if Reached(w, c.local, c.global) then {Lag}
    else {}
  }

  ghost function Advance(w: seq<u64>, d: u64): seq<u64> {
    if |w| + 1 >= WINDOW then [] else w + [d]
  }

  // ----- any stream of deltas from a fresh window

  ghost function Rule(c: Cutoffs): seq<u64> -> set<Failure> {
    w => Raised(w, c)
  }

  ghost function StreamBits(h: seq<u64>, c: Cutoffs): set<Failure> {
    Windows.Bits(h, WINDOW, Rule(c))
  }

  /** A fresh predictor that met a permanent cutoff met the intermittent one on the way. */
  lemma {:induction false} FirstCrossing(w: seq<u64>, c: Cutoffs) returns (m: nat)
    requires ValidCutoffs(c) && Reached(w, c.local, c.global)
    ensures 0 < m <= |w| && Raised(w[..m], c) == {Lag}
  {
    var p := if w == [] then [] else w[..|w| - 1];
    if Reached(p, c.local, c.global) {
      m := FirstCrossing(p, c);
      assert p[..m] == w[..m];
    } else {
      m := |w|;
      assert w[..m] == w;
    }
  }

  lemma {:induction false} PermanentCrossing(w: seq<u64>, c: Cutoffs) returns (m: nat)
    requires ValidCutoffs(c) && Reached(w, c.localPermanent, c.globalPermanent)
    ensures 0 < m <= |w| && Raised(w[..m], c) == {LagPermanent}
  {
    var p := if w == [] then [] else w[..|w| - 1];
    if Reached(p, c.localPermanent, c.globalPermanent) {
      m := PermanentCrossing(p, c);
      assert p[..m] == w[..m];
    } else {
      m := |w|;
      assert w[..m] == w;
    }
  }

  /**
   Each bit is raised exactly when some window of the stream reached the local or the global
   cutoff that belongs to it.
   */
  lemma StreamVerdict(h: seq<u64>, c: Cutoffs)
    requires ValidCutoffs(c)
    ensures Lag in StreamBits(h, c)
       <==> exists n :: 0 < n <= |h| && Reached(Windows.Judged(h, n, WINDOW), c.local, c.global)
    ensures LagPermanent in StreamBits(h, c)
       <==> exists n :: 0 < n <= |h| && Reached(Windows.Judged(h, n, WINDOW), c.localPermanent, c.globalPermanent)
  {
    var raises := Rule(c);
    Windows.BitsIff(h, WINDOW, raises, Lag);
    Windows.BitsIff(h, WINDOW, raises, LagPermanent);
    forall n | 0 < n <= |h| && Reached(Windows.Judged(h, n, WINDOW), c.local, c.global)
      ensures Lag in StreamBits(h, c)
    {
      var m := FirstCrossing(Windows.Judged(h, n, WINDOW), c);
      var k := Windows.JudgedPrefix(h, n, m, WINDOW);
      assert Windows.RaisedAt(h, k, WINDOW, raises, Lag);
    }
    forall n | 0 < n <= |h| && Reached(Windows.Judged(h, n, WINDOW), c.localPermanent, c.globalPermanent)
      ensures LagPermanent in StreamBits(h, c)
    {
      var m := PermanentCrossing(Windows.Judged(h, n, WINDOW), c);
      var k := Windows.JudgedPrefix(h, n, m, WINDOW);
      assert Windows.RaisedAt(h, k, WINDOW, raises, LagPermanent);
    }
  }
}

/** The lag predictor state of `struct rand_data`, updated in place. */
module LagTest {
  import opened Words
  import opened Failures
  import opened LagSpec

  class LagPredictor {
    var successCount: nat
    var successRun: nat
    var bestPredictor: nat
    var observations: nat
    const history: array<u64>
    const scoreboard: array<nat>
    const cutoffs: Cutoffs

    ghost var window: seq<u64>

    ghost predicate Valid()
      reads this, history, scoreboard
    {
      observations < WINDOW && Holds(window)
    }

    /** The fields are what the specification computes from the window `w`. */
    ghost predicate Holds(w: seq<u64>)
      reads this, history, scoreboard
    {
      && history.Length == HISTORY && scoreboard.Length == HISTORY
      && HistoryHolds(w)
      && (forall i :: 0 <= i < HISTORY ==> scoreboard[i] == Score(w, i))
      && bestPredictor == Best(w)
      && successCount == Successes(w)
      && successRun == Run(w)
    }

    ghost predicate HistoryHolds(w: seq<u64>)
      requires history.Length == HISTORY
      reads this, history
    {
      && observations == |w|
      && forall loc :: 0 <= loc < HISTORY ==> history[Slot(|w|, loc)] == Recent(w, loc)
    }

    lemma WindowFits()
      requires Valid()
      ensures |window| < WINDOW
    {}

    constructor (c: Cutoffs)
      ensures Valid() && fresh(history) && fresh(scoreboard)
      ensures window == [] && cutoffs == c
    {
      cutoffs := c;
      history := new u64[HISTORY](_ => 0);
      scoreboard := new nat[HISTORY](_ => 0);
      successCount, successRun, bestPredictor, observations := 0, 0, 0, 0;
      window := [];
    }

    /** `jent_lag_reset` */
    method Reset()
      requires history.Length == HISTORY && scoreboard.Length == HISTORY
      modifies this, history, scoreboard
      ensures Valid() && window == []
    {
      successCount, successRun, bestPredictor, observations := 0, 0, 0, 0;
      window := [];
      for i := 0 to HISTORY
        modifies history, scoreboard
        invariant forall j :: 0 <= j < i ==> history[j] == 0 && scoreboard[j] == 0
      {
        scoreboard[i] := 0;
        history[i] := 0;
      }
    }

    /** `JENT_LAG_HISTORY`: the masked index of 32-bit unsigned arithmetic finds the `loc`-th most recent delta. */
    function HistoryAt(loc: nat): (d: u64)
      requires Valid() && loc < HISTORY
      reads this, history, scoreboard
      ensures d == Recent(window, loc)
    {
      history[Slot(observations, loc)]
    }

    /** `jent_lag_insert` */
    method Insert(d: u64) returns (raised: set<Failure>)
      requires Valid()
      modifies this, history, scoreboard
      ensures Valid()
      ensures window == Advance(old(window), d)
      ensures raised == Raised(old(window) + [d], cutoffs)
    {
      raised := {};
      if observations < HISTORY {
        FillSnoc(window, d);
        hide Score;
        hide Best;
        Record(d);
        return;
      }

      raised := Judge(d);
      hide Score;
      hide Best;
      UpdatePredictors(d);
      Record(d);
      if observations >= WINDOW {
        Reset();
      }
    }

    /** The guess of `jent_lag_insert` and its comparison with the cutoffs. */
    method Judge(d: u64) returns (raised: set<Failure>)
      requires Valid() && observations >= HISTORY
      modifies this`successCount, this`successRun
      ensures raised == Raised(window + [d], cutoffs)
      ensures successCount == Successes(window + [d])
      ensures successRun == Run(window + [d])
    {
      SuccessSnoc(window, d);
      raised := {};
      var prediction := HistoryAt(bestPredictor);
      if prediction == d {
        successCount := successCount + 1;
        successRun := successRun + 1;
        if successRun >= cutoffs.localPermanent || successCount >= cutoffs.globalPermanent {
          raised := {LagPermanent};
        } else if successRun >= cutoffs.local || successCount >= cutoffs.global {
          raised := {Lag};
        }
      } else {
        successRun := 0;
      }
    }

    /** The store into the masked slot that ends `jent_lag_insert`; it needs no mask while the history fills. */
    method Record(d: u64)
      requires history.Length == HISTORY && HistoryHolds(window) && observations < WINDOW
      modifies this`observations, this`window, history
      ensures window == old(window) + [d] && HistoryHolds(window)
    {
      history[observations % HISTORY] := d;
      observations := observations + 1;
      window := window + [d];
      forall loc | 0 <= loc < HISTORY ensures history[Slot(|window|, loc)] == Recent(window, loc) {
        SlotShift(old(observations), loc);
      }
    }

    /** The loop of `jent_lag_insert` that scores every lag and picks the next predictor. */
    method UpdatePredictors(d: u64)
      requires history.Length == HISTORY && scoreboard.Length == HISTORY
      requires HISTORY <= observations < WINDOW && HistoryHolds(window)
      requires forall i :: 0 <= i < HISTORY ==> scoreboard[i] == Score(window, i)
      requires bestPredictor == Best(window)
      modifies this`bestPredictor, scoreboard
      ensures forall i :: 0 <= i < HISTORY ==> scoreboard[i] == Score(window + [d], i)
      ensures bestPredictor == Best(window + [d])
    {
      ghost var p, w, top := window, window + [d], Score(window, bestPredictor);
      ghost var before := seq(HISTORY, i requires 0 <= i < HISTORY => Score(p, i));
      ghost var after := seq(HISTORY, i requires 0 <= i < HISTORY => Score(w, i));
      ghost var recent := seq(HISTORY, i requires 0 <= i < HISTORY => Recent(p, i));
      forall i | 0 <= i < HISTORY
        ensures before[i] <= top && after[i] == before[i] + if recent[i] == d then 1 else 0
      {
        BestIsArgmax(window, i);
        ScoreSnoc(window, d, i);
      }
      BestSnoc(window, d);
      hide Score;
      hide Best;
      ScoreLags(d, recent, before, after, FirstAbove(w, top, 0));
    }

    method ScoreLags(d: u64, ghost recent: seq<u64>, ghost before: seq<nat>, ghost after: seq<nat>, ghost first: nat)
      requires history.Length == scoreboard.Length == |recent| == |before| == |after| == HISTORY
      requires scoreboard[..] == before && bestPredictor < HISTORY
      requires forall i :: 0 <= i < HISTORY ==> history[Slot(observations, i)] == recent[i]
      requires forall i :: 0 <= i < HISTORY ==>
        before[i] <= before[bestPredictor] && after[i] == before[i] + if recent[i] == d then 1 else 0
      requires first <= HISTORY && (first < HISTORY ==> after[first] > before[bestPredictor])
      requires forall i :: 0 <= i < first ==> after[i] <= before[bestPredictor]
      modifies this`bestPredictor, scoreboard
      ensures scoreboard[..] == after
      ensures bestPredictor == if first < HISTORY then first else old(bestPredictor)
    {
      for i := 0 to HISTORY
        invariant forall k :: 0 <= k < i ==> scoreboard[k] == after[k]
        invariant forall k :: i <= k < HISTORY ==> scoreboard[k] == before[k]
        invariant bestPredictor == if first < i then first else old(bestPredictor)
      {
        if history[Slot(observations, i)] == d {
          scoreboard[i] := scoreboard[i] + 1;
          if scoreboard[i] > scoreboard[bestPredictor] {
            bestPredictor := i;
          }
        }
      }
    }

    /** `jent_lag_duplicate`: the replacement goes on in the window of the collector it replaces. */
    method Duplicate(from: LagPredictor)
      requires Valid() && from.Valid() && from != this
      requires history != from.history && scoreboard != from.scoreboard
      modifies this, history, scoreboard
      ensures Valid() && window == from.window
    {
      hide Score;
      hide Best;
      hide Slot;
      hide Recent;
      successCount, successRun := from.successCount, from.successRun;
      bestPredictor, observations := from.bestPredictor, from.observations;
      window := from.window;
      for i := 0 to HISTORY
        modifies history, scoreboard
        invariant forall j :: 0 <= j < i ==> history[j] == from.history[j] && scoreboard[j] == from.scoreboard[j]
      {
        scoreboard[i] := from.scoreboard[i];
        history[i] := from.history[i];
      }
    }
  }
}
