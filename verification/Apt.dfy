/**
 The Adaptive Proportion Test of SP 800-90B section 4.4.2: the incremental counters of the
 collector against the batch rule over consecutive windows of 512 symbols.
 */
module AdaptiveProportion {
  import opened Words
  import opened Failures
  import Windows

  const WINDOW: nat := 512

  datatype Cutoffs = Cutoffs(intermittent: nat, permanent: nat)

  datatype State = State(baseSet: bool, base: u64, count: nat, observations: nat)

  ghost predicate ValidCutoffs(c: Cutoffs) {
    2 <= c.intermittent <= c.permanent
  }

  /** `jent_apt_insert` on values; the APT mask keeps all 64 bits. */
  function Insert(s: State, d: u64, c: Cutoffs): (r: (State, set<Failure>))
    ensures r.1 <= {Apt, AptPermanent}
  {
    if !s.baseSet then (State(true, d, 1, 1), {}) else
    var count := if d == s.base then s.count + 1 else s.count;
    var raised := if d != s.base then {}
                  else if count >= c.permanent then {AptPermanent}
                  else if count == c.intermittent then {Apt}
                  else {};
    (State(s.observations + 1 < WINDOW, s.base, count, s.observations + 1), raised)
  }

  function Run(s: State, h: seq<u64>, c: Cutoffs): (State, set<Failure>) {
    if h == [] then (s, {}) else
    var (p, bits) := Run(s, h[..|h| - 1], c);
    var (t, raised) := Insert(p, h[|h| - 1], c);
    (t, bits + raised)
  }

  // ----- the batch rule

  ghost function Count(w: seq<u64>, x: u64): nat {
    multiset(w)[x]
  }

  lemma CountSnoc(w: seq<u64>, d: u64, x: u64)
    ensures Count(w + [d], x) == Count(w, x) + if d == x then 1 else 0
  {}

  /** How often the first symbol of a window occurs in it. */
  ghost function Occurrences(w: seq<u64>): nat
    requires w != []
  {
    Count(w, w[0])
  }

  ghost function Raised(w: seq<u64>, c: Cutoffs): set<Failure> {
    if |w| < 2 || w[|w| - 1] != w[0] then {}
    else if Occurrences(w) >= c.permanent then {AptPermanent}
    else if Occurrences(w) == c.intermittent then {Apt}
    else {}
  }

  ghost function Rule(c: Cutoffs): seq<u64> -> set<Failure> {
    w => Raised(w, c)
  }

  ghost predicate Represents(s: State, w: seq<u64>) {
    if w == [] then !s.baseSet
    else s.baseSet && s.base == w[0] && s.count == Occurrences(w) && s.observations == |w| < WINDOW
  }

  lemma InsertFollows(s: State, w: seq<u64>, d: u64, c: Cutoffs)
    requires Represents(s, w)
    ensures Insert(s, d, c).1 == Raised(w + [d], c)
    ensures Represents(Insert(s, d, c).0, if |w| + 1 >= WINDOW then [] else w + [d])
  {
    if w != [] {
      CountSnoc(w, d, w[0]);
    } else {
      CountSnoc([], d, d);
    }
  }

  lemma {:induction false} RunFollows(s: State, h: seq<u64>, c: Cutoffs)
    requires !s.baseSet
    ensures Represents(Run(s, h, c).0, Windows.Current(h, WINDOW))
    ensures Run(s, h, c).1 == Windows.Bits(h, WINDOW, Rule(c))
  {
    if h != [] {
      var p, d := h[..|h| - 1], h[|h| - 1];
      assert h == p + [d];
      RunFollows(s, p, c);
      Windows.CurrentSnoc(p, d, WINDOW);
      InsertFollows(Run(s, p, c).0, Windows.Current(p, WINDOW), d, c);
    }
  }

  /** Counts grow by one at a time, so a window that has `n` occurrences had a last one numbered `n`. */
  lemma {:induction false} ExactCount(w: seq<u64>, n: nat) returns (m: nat)
    requires w != [] && 2 <= n <= Occurrences(w)
    ensures 2 <= m <= |w| && w[..m][m - 1] == w[..m][0] && Occurrences(w[..m]) == n
  {
    var p, d := w[..|w| - 1], w[|w| - 1];
    assert w == p + [d];
    CountSnoc(p, d, w[0]);
    if p != [] && Occurrences(p) >= n {
      m := ExactCount(p, n);
      assert p[..m] == w[..m];
    } else {
      m := |w|;
      assert w[..m] == w;
    }
  }

  /**
   From a fresh collector, over any stream: the permanent bit is raised exactly when some window
   holds its first symbol at least the permanent cutoff times, the intermittent bit exactly when
   some window reaches the intermittent cutoff and the two cutoffs differ.
   */
  lemma FreshVerdict(s: State, h: seq<u64>, c: Cutoffs)
    requires !s.baseSet && ValidCutoffs(c)
    ensures AptPermanent in Run(s, h, c).1
       <==> exists n :: 0 < n <= |h| && Occurrences(Windows.Judged(h, n, WINDOW)) >= c.permanent
    ensures Apt in Run(s, h, c).1
       <==> c.intermittent < c.permanent
            && exists n :: 0 < n <= |h| && Occurrences(Windows.Judged(h, n, WINDOW)) >= c.intermittent
  {
    RunFollows(s, h, c);
    BitVerdict(h, c, AptPermanent, c.permanent);
    BitVerdict(h, c, Apt, c.intermittent);
  }

  /** One bit: `cutoff` is the count at which it is raised. */
  lemma BitVerdict(h: seq<u64>, c: Cutoffs, f: Failure, cutoff: nat)
    requires ValidCutoffs(c)
    requires (f == AptPermanent && cutoff == c.permanent) || (f == Apt && cutoff == c.intermittent)
    ensures f in Windows.Bits(h, WINDOW, Rule(c))
       <==> (f == Apt ==> c.intermittent < c.permanent)
            && exists n :: 0 < n <= |h| && Occurrences(Windows.Judged(h, n, WINDOW)) >= cutoff
  {
    hide Windows.Open;
    hide Windows.Judged;
    hide Windows.Bits;
    var raises := Rule(c);
    Windows.BitsIff(h, WINDOW, raises, f);
    if f in Windows.Bits(h, WINDOW, raises) {
      var n :| Windows.RaisedAt(h, n, WINDOW, raises, f);
      assert Occurrences(Windows.Judged(h, n, WINDOW)) >= cutoff;
    }
    forall n | (f == Apt ==> c.intermittent < c.permanent) && 0 < n <= |h|
               && Occurrences(Windows.Judged(h, n, WINDOW)) >= cutoff
      ensures exists k :: Windows.RaisedAt(h, k, WINDOW, raises, f)
    {
      var m := ExactCount(Windows.Judged(h, n, WINDOW), cutoff);
      var k := Windows.JudgedPrefix(h, n, m, WINDOW);
      assert Windows.RaisedAt(h, k, WINDOW, raises, f);
    }
  }

  // ----- the replacement collector

  /** `jent_apt_duplicate`: the replacement counts on from the intermittent cutoff, in the same window. */
  function Duplicate(initial: State, from: State, c: Cutoffs): State {
    if from.observations == 0 then initial else State(true, from.base, c.intermittent, from.observations)
  }

  /** What a count that goes from `k` up by `seen` raises. */
  function Passed(k: nat, seen: nat, c: Cutoffs): set<Failure> {
    (if seen > 0 && k + seen >= c.permanent then {AptPermanent} else {})
    + if k < c.intermittent <= k + seen && c.intermittent < c.permanent then {Apt} else {}
  }

  /** Within an open window the occurrences of its base are counted on. */
  lemma {:induction false} OpenCount(s: State, h: seq<u64>, c: Cutoffs)
    requires s.baseSet && s.observations + |h| < WINDOW
    ensures Run(s, h, c).0 == State(true, s.base, s.count + Count(h, s.base), s.observations + |h|)
    ensures Run(s, h, c).1 == Passed(s.count, Count(h, s.base), c)
  {
    if h != [] {
      var p, d := h[..|h| - 1], h[|h| - 1];
      assert h == p + [d];
      OpenCount(s, p, c);
      CountSnoc(p, d, s.base);
    }
  }

  lemma {:induction false} RunAppend(s: State, g: seq<u64>, h: seq<u64>, c: Cutoffs)
    ensures Run(s, g + h, c).0 == Run(Run(s, g, c).0, h, c).0
    ensures Run(s, g + h, c).1 == Run(s, g, c).1 + Run(Run(s, g, c).0, h, c).1
  {
    hide Insert;
    if h == [] {
      assert g + h == g;
    } else {
      RunAppend(s, g, h[..|h| - 1], c);
      assert (g + h)[..|g + h| - 1] == g + h[..|h| - 1];
    }
  }

  /** How many symbols the inherited window still takes: a full one takes one more. */
  function Carried(observations: nat, n: nat): (k: nat)
    ensures k <= n
  {
    var left := if observations + 1 < WINDOW then WINDOW - observations else 1;
    if n < left then n else left
  }

  /** The symbols up to the end of an open window, after which a new one begins. */
  lemma OpenWindow(s: State, h: seq<u64>, c: Cutoffs)
    requires s.baseSet && Carried(s.observations, |h|) == |h|
    ensures Run(s, h, c).1 == Passed(s.count, Count(h, s.base), c)
    ensures Carried(s.observations, |h| + 1) == |h| ==> !Run(s, h, c).0.baseSet
  {
    if h != [] {
      var p, d := h[..|h| - 1], h[|h| - 1];
      assert h == p + [d];
      CountSnoc(p, d, s.base);
      if p == [] {
        assert Run(s, p, c) == (s, {});
      } else {
        OpenCount(s, p, c);
      }
    }
  }

  /** Some window of `h` holds its first symbol at least `cutoff` times. */
  ghost predicate Repetitive(h: seq<u64>, cutoff: nat) {
    exists n :: 0 < n <= |h| && Occurrences(Windows.Judged(h, n, WINDOW)) >= cutoff
  }

  /**
   The batch rule from any state: the open window, if there is one, counts on to its end, and
   the windows after it are judged as from a fresh collector.
   */
  ghost predicate Ruled(s: State, h: seq<u64>, f: Failure, c: Cutoffs) {
    var k := if s.baseSet then Carried(s.observations, |h|) else 0;
    || (s.baseSet && f in Passed(s.count, Count(h[..k], s.base), c))
    || (f == AptPermanent && Repetitive(h[k..], c.permanent))
    || (f == Apt && c.intermittent < c.permanent && Repetitive(h[k..], c.intermittent))
  }

  lemma FreshRule(s: State, h: seq<u64>, f: Failure, c: Cutoffs)
    requires !s.baseSet && ValidCutoffs(c)
    ensures f in Run(s, h, c).1 <==>
      || (f == AptPermanent && Repetitive(h, c.permanent))
      || (f == Apt && c.intermittent < c.permanent && Repetitive(h, c.intermittent))
  {
    hide Run;
    hide Occurrences;
    FreshVerdict(s, h, c);
    RunBits(s, h, c);
  }

  lemma {:induction false} RunBits(s: State, h: seq<u64>, c: Cutoffs)
    ensures Run(s, h, c).1 <= {Apt, AptPermanent}
  {
    hide Insert;
    if h != [] {
      RunBits(s, h[..|h| - 1], c);
    }
  }

  /** From any state, over any stream: the bits raised are those of the batch rule. */
  lemma Verdict(s: State, h: seq<u64>, f: Failure, c: Cutoffs)
    requires ValidCutoffs(c)
    ensures f in Run(s, h, c).1 <==> Ruled(s, h, f, c)
  {
    hide Insert;
    hide Run;
    hide Count;
    hide Repetitive;
    hide Passed;
    var k := if s.baseSet then Carried(s.observations, |h|) else 0;
    var head, tail := h[..k], h[k..];
    assert h == head + tail;
    if !s.baseSet {
      assert tail == h;
      FreshRule(s, h, f, c);
    } else {
      RunAppend(s, head, tail, c);
      OpenWindow(s, head, c);
      if tail == [] {
        RunNothing(Run(s, head, c).0, c);
        NeverRepetitive(tail, c.permanent);
        NeverRepetitive(tail, c.intermittent);
      } else {
        FreshRule(Run(s, head, c).0, tail, f, c);
      }
    }
  }

  lemma NeverRepetitive(h: seq<u64>, cutoff: nat)
    requires h == []
    ensures !Repetitive(h, cutoff)
  {}

  /**
   What a replacement that counts on in the window of `from` raises, for every stream: in the
   inherited window the permanent bit exactly when the base comes up as often as the two cutoffs
   are apart (once if they coincide), and never the intermittent one; after it the verdict is
   the fresh one on the rest.
   */
  lemma DuplicateVerdict(initial: State, from: State, h: seq<u64>, c: Cutoffs)
    requires from.observations > 0 && ValidCutoffs(c)
    ensures var k := Carried(from.observations, |h|);
            var seen, bits := Count(h[..k], from.base), Run(Duplicate(initial, from, c), h, c).1;
      && (AptPermanent in bits <==>
            (seen > 0 && seen >= c.permanent - c.intermittent) || Repetitive(h[k..], c.permanent))
      && (Apt in bits <==> c.intermittent < c.permanent && Repetitive(h[k..], c.intermittent))
  {
    hide Run;
    hide Count;
    hide Repetitive;
    Verdict(Duplicate(initial, from, c), h, AptPermanent, c);
    Verdict(Duplicate(initial, from, c), h, Apt, c);
  }

  lemma RunNothing(s: State, c: Cutoffs)
    ensures Run(s, [], c) == (s, {})
  {}
}
