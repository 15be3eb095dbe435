/**
 The admission counter of the kernel character device: opens take a slot by compare-and-swap,
 closes give it back. A state machine of the atomic accesses of any number of threads.
 */
module Admission {
  import opened Words

  const INT_MAX: int := TWO31 - 1

  type Thread = nat

  /** A 32-bit two's complement value, as the kernel's `atomic_t` wraps. */
  function Wrap(x: int): (r: int)
    ensures -TWO31 <= r < TWO31
  {
    (x + TWO31) % TWO32 - TWO31
  }

  function Unsigned(x: int): nat {
    x % TWO32
  }

  /** The limit as the code applies it. */
  function Cap(max: nat): nat {
    if max < INT_MAX then max else INT_MAX
  }

  /** The count from which on an open with limit `max` is refused; no limit for 0. */
  predicate Full(max: nat, count: int) {
    max != 0 && Unsigned(count) >= Cap(max)
  }

  /** An open in progress: its limit, the count it works with, when it began and when it read that count. */
  datatype Open = Open(max: nat, cur: int, began: nat, seen: nat)

  datatype Refusal = Refusal(max: nat, began: nat, seen: nat, ended: nat)

  /** `history` holds the counter after every step so far, the last element being the present one. */
  datatype State = State(
    counter: int,
    opening: map<Thread, Open>,
    holding: set<Thread>,
    admitted: nat,
    released: nat,
    refusals: seq<Refusal>,
    history: seq<int>)

  const START: State := State(0, map[], {}, 0, 0, [], [0])

  datatype Step = Read(t: Thread, max: nat) | Exchange(t: Thread) | Close(t: Thread)

  function Now(s: State): nat
    requires s.history != []
  {
    |s.history| - 1
  }

  /** One atomic access; a step that its thread cannot take changes nothing. */
  function Apply(s: State, step: Step): (r: State)
    requires s.history != []
    ensures r.history != []
  {
    match step
    case Read(t, max) =>
      if t in s.opening || t in s.holding then s
      else s.(opening := s.opening[t := Open(max, s.counter, Now(s), Now(s))])
    case Exchange(t) =>
      if t !in s.opening then s else
      var o := s.opening[t];
      if Full(o.max, o.cur) then
        s.(opening := s.opening - {t}, refusals := s.refusals + [Refusal(o.max, o.began, o.seen, Now(s))])
      else if s.counter == o.cur then
        var next := Wrap(o.cur + 1);
        s.(counter := next, opening := s.opening - {t}, holding := s.holding + {t},
           admitted := s.admitted + 1, history := s.history + [next])
      else
        s.(opening := s.opening[t := o.(cur := s.counter, seen := Now(s))])
    case Close(t) =>
      if t !in s.holding then s else
      var next := Wrap(s.counter - 1);
      s.(counter := next, holding := s.holding - {t}, released := s.released + 1, history := s.history + [next])
  }

  function Run(steps: seq<Step>): (s: State)
    ensures s.history != []
  {
    if steps == [] then START else Apply(Run(steps[..|steps| - 1]), steps[|steps| - 1])
  }

  ghost predicate GoodOpen(o: Open, s: State) {
    o.began <= o.seen < |s.history| && s.history[o.seen] == o.cur
  }

  /** The refusal is explained by a count read between the beginning and the end of the open. */
  ghost predicate Justified(r: Refusal, s: State) {
    r.began <= r.seen <= r.ended < |s.history| && Full(r.max, s.history[r.seen])
  }

  ghost predicate Inv(s: State) {
    && s.history != [] && s.history[|s.history| - 1] == s.counter
    && |s.holding| == s.admitted - s.released
    && s.counter == Wrap(|s.holding|)
    && (forall t :: t in s.opening ==> t !in s.holding && GoodOpen(s.opening[t], s))
    && (forall r :: r in s.refusals ==> Justified(r, s))
    && (forall i :: 0 <= i < |s.history| ==> -TWO31 <= s.history[i] < TWO31)
  }

  lemma WrapShift(x: int, k: int)
    ensures Wrap(x + k * TWO32) == Wrap(x)
  {}

  lemma WrapStep(x: int)
    ensures Wrap(Wrap(x) + 1) == Wrap(x + 1) && Wrap(Wrap(x) - 1) == Wrap(x - 1)
  {
    var k := (x + TWO31) / TWO32;
    assert Wrap(x) == x + (-k) * TWO32;
    WrapShift(x + 1, -k);
    WrapShift(x - 1, -k);
    hide Wrap;
  }

  /** What is known of the past stays true as the history grows. */
  lemma HistoryGrows(s: State, s': State, next: int)
    requires Inv(s) && s'.history == s.history + [next]
    ensures forall o :: GoodOpen(o, s) ==> GoodOpen(o, s')
    ensures forall r :: Justified(r, s) ==> Justified(r, s')
  {
    hide Full;
    hide Wrap;
  }

  lemma ExchangeKeeps(s: State, t: Thread)
    requires Inv(s)
    ensures Inv(Apply(s, Exchange(t)))
  {
    WrapStep(|s.holding|);
    hide Wrap;
    hide Full;
    if t in s.opening && !Full(s.opening[t].max, s.opening[t].cur) && s.counter == s.opening[t].cur {
      HistoryGrows(s, Apply(s, Exchange(t)), Wrap(s.counter + 1));
      hide GoodOpen;
      hide Justified;
    }
  }

  lemma CloseKeeps(s: State, t: Thread)
    requires Inv(s)
    ensures Inv(Apply(s, Close(t)))
  {
    WrapStep(|s.holding|);
    hide Wrap;
    hide Full;
    if t in s.holding {
      HistoryGrows(s, Apply(s, Close(t)), Wrap(s.counter - 1));
      hide GoodOpen;
      hide Justified;
    }
  }

  lemma ApplyKeeps(s: State, step: Step)
    requires Inv(s)
    ensures Inv(Apply(s, step))
  {
    hide Wrap;
    hide Full;
    match step {
      case Read(t, max) =>
      case Exchange(t) => ExchangeKeeps(s, t);
      case Close(t) => CloseKeeps(s, t);
    }
  }

  lemma {:induction false} RunKeeps(steps: seq<Step>)
    ensures Inv(Run(steps))
  {
    if steps != [] {
      RunKeeps(steps[..|steps| - 1]);
      ApplyKeeps(Run(steps[..|steps| - 1]), steps[|steps| - 1]);
    }
  }

  /**
   Under any interleaving the counter is the number of admissions less the number of releases,
   which is the number of threads that hold a slot, in 32-bit arithmetic; and every refusal is
   justified by an instant during that open at which the counter was at or above its limit.
   */
  lemma Conservation(steps: seq<Step>)
    ensures var s := Run(steps);
      && s.counter == Wrap(s.admitted - s.released) && |s.holding| == s.admitted - s.released
      && forall r :: r in s.refusals ==>
           && r.began <= r.seen <= r.ended < |s.history| && r.max != 0
           && !(0 <= s.history[r.seen] < r.max && s.history[r.seen] < INT_MAX)
  {
    hide Run;
    hide Wrap;
    hide Full;
    RunKeeps(steps);
    var s := Run(steps);
    forall r | r in s.refusals
      ensures r.seen < |s.history| && r.max != 0 && !(0 <= s.history[r.seen] < r.max && s.history[r.seen] < INT_MAX)
    {
      FullMeans(r.max, s.history[r.seen]);
    }
  }

  lemma FullMeans(max: nat, count: int)
    requires -TWO31 <= count < TWO31
    ensures Full(max, count) <==> max != 0 && !(0 <= count < max && count < INT_MAX)
  {}

  /** A count that is not full for a limit is below it, and so is its successor not above it. */
  lemma BelowLimit(max: nat, count: int)
    requires max != 0 && -TWO31 <= count < TWO31 && !Full(max, count)
    ensures 0 <= count && Wrap(count + 1) == count + 1 <= Cap(max)
  {}

  /** An open with a limit never pushes the counter above that limit. */
  lemma LimitHolds(steps: seq<Step>, t: Thread)
    ensures var s := Run(steps);
            var s' := Apply(s, Exchange(t));
            t in s.opening && s.opening[t].max != 0 && s'.admitted > s.admitted ==>
              0 < s'.counter <= Cap(s.opening[t].max)
  {
    RunKeeps(steps);
    var s := Run(steps);
    hide Run;
    hide Wrap;
    if t in s.opening && s.opening[t].max != 0 && !Full(s.opening[t].max, s.opening[t].cur) && s.counter == s.opening[t].cur {
      BelowLimit(s.opening[t].max, s.counter);
    }
    hide Full;
  }

  ghost predicate Uniform(s: State, max: nat) {
    |s.holding| == s.counter <= Cap(max) && forall t :: t in s.opening ==> s.opening[t].max == max
  }

  lemma UniformExchange(s: State, t: Thread, max: nat)
    requires Inv(s) && Uniform(s, max) && max > 0
    ensures Uniform(Apply(s, Exchange(t)), max)
  {
    hide Wrap;
    hide Full;
    if t in s.opening && !Full(max, s.opening[t].cur) && s.counter == s.opening[t].cur {
      BelowLimit(max, s.counter);
      assert t !in s.holding && |s.holding + {t}| == |s.holding| + 1;
    }
  }

  lemma UniformStep(s: State, step: Step, max: nat)
    requires Inv(s) && Uniform(s, max) && max > 0
    requires step.Read? ==> step.max == max
    ensures Uniform(Apply(s, step), max)
  {
    match step {
      case Read(t, m) =>
      case Exchange(t) =>
        UniformExchange(s, t, max);
      case Close(t) =>
        assert t in s.holding ==> |s.holding| > 0;
    }
  }

  /** With the same limit on every open, however large, no more threads than that hold a slot at any time, nor more than INT_MAX. */
  lemma {:induction false} UniformLimit(steps: seq<Step>, max: nat)
    requires max > 0
    requires forall i :: 0 <= i < |steps| && steps[i].Read? ==> steps[i].max == max
    ensures Uniform(Run(steps), max)
  {
    hide Wrap;
    hide Full;
    if steps != [] {
      var p := steps[..|steps| - 1];
      UniformLimit(p, max);
      RunKeeps(p);
      UniformStep(Run(p), steps[|steps| - 1], max);
      hide Apply;
      hide Uniform;
      hide Inv;
    }
  }
}
