/**
 The internal timer: a counting thread increments a 64-bit counter that other targets than
 64-bit ones store and load as two words. A state machine of the two threads' memory accesses.
 */
module TornReads {
  import opened Words

  /**
   The counter between two stores of the counting thread: it has completed `value` increments,
   and `torn` says that the high word of the next value is stored already, its low word not yet.
   */
  datatype Memory = Memory(value: nat, torn: bool)

  function HighWord(m: Memory): nat {
    (if m.torn then m.value + 1 else m.value) / TWO32
  }

  function LowWord(m: Memory): nat {
    m.value % TWO32
  }

  function Store(m: Memory): Memory {
    if m.torn then Memory(m.value + 1, false) else Memory(m.value, true)
  }

  ghost predicate NotAfter(m: Memory, n: Memory) {
    m.value < n.value || (m.value == n.value && (m.torn ==> n.torn))
  }

  /** The memory as it was at the four word loads of one attempt, and the order within each pair. */
  datatype Attempt = Attempt(loads: seq<Memory>, aLowFirst: bool, bLowFirst: bool)

  ghost predicate Complete(t: Attempt) {
    && |t.loads| == 4
    && NotAfter(t.loads[0], t.loads[1]) && NotAfter(t.loads[1], t.loads[2]) && NotAfter(t.loads[2], t.loads[3])
  }

  function Join(high: Memory, low: Memory): nat {
    HighWord(high) * TWO32 + LowWord(low)
  }

  function A(t: Attempt): nat
    requires |t.loads| == 4
  {
    if t.aLowFirst then Join(t.loads[1], t.loads[0]) else Join(t.loads[0], t.loads[1])
  }

  function B(t: Attempt): nat
    requires |t.loads| == 4
  {
    if t.bLowFirst then Join(t.loads[3], t.loads[2]) else Join(t.loads[2], t.loads[3])
  }

  /** What the counter held when the low word of the second read was loaded. */
  function Held(t: Attempt): nat
    requires |t.loads| == 4
  {
    if t.bLowFirst then t.loads[2].value else t.loads[3].value
  }

  /** The two tests of `jent_notime_read`. */
  predicate Accepted(t: Attempt)
    requires |t.loads| == 4
  {
    !(B(t) < A(t) || B(t) - A(t) > TWO31) && B(t) % TWO32 != TWO32 - 1
  }

  function Span(t: Attempt): int
    requires |t.loads| == 4
  {
    t.loads[3].value - t.loads[0].value
  }

  /** Within 2^32 increments of `base` the words change at one carry only, to `carry`. */
  lemma WordsOf(m: Memory, base: nat, k: nat, carry: nat)
    requires k == base / TWO32 && carry == (k + 1) * TWO32 && base <= m.value < base + TWO32
    ensures HighWord(m) == if m.value >= carry || (m.torn && m.value == carry - 1) then k + 1 else k
    ensures LowWord(m) == if m.value >= carry then m.value - carry else m.value - k * TWO32
  {
    DivMod(m.value, if m.value >= carry then k + 1 else k);
    DivMod(m.value + 1, if m.value + 1 >= carry then k + 1 else k);
  }

  lemma DivMod(x: nat, q: nat)
    requires q * TWO32 <= x < (q + 1) * TWO32
    ensures x / TWO32 == q && x % TWO32 == x - q * TWO32
  {}

  /** The read is exact, or off by one carry in either direction. */
  lemma Joined(high: Memory, low: Memory, base: nat, k: nat, carry: nat)
    requires k == base / TWO32 && carry == (k + 1) * TWO32
    requires base <= high.value < base + TWO32 && base <= low.value < base + TWO32
    ensures var up := high.value >= carry || (high.torn && high.value == carry - 1);
      && Join(high, low) == low.value + (if up then TWO32 else 0) - (if low.value >= carry then TWO32 else 0)
      && Join(high, low) % TWO32 == LowWord(low)
  {
    WordsOf(high, base, k, carry);
    WordsOf(low, base, k, carry);
    DivMod(Join(high, low), HighWord(high));
  }

  /**
   An accepted read is the value the counter held when its low word was loaded, however the
   words were interleaved with the counting thread, as long as that counts less than 2^32
   meanwhile.
   */
  lemma AcceptedIsHeld(t: Attempt)
    requires Complete(t) && Span(t) < TWO32 && Accepted(t)
    ensures B(t) == Held(t)
  {
    var base := t.loads[0].value;
    var k, carry := base / TWO32, (base / TWO32 + 1) * TWO32;
    var (ah, al) := if t.aLowFirst then (t.loads[1], t.loads[0]) else (t.loads[0], t.loads[1]);
    var (bh, bl) := if t.bLowFirst then (t.loads[3], t.loads[2]) else (t.loads[2], t.loads[3]);
    Joined(ah, al, base, k, carry);
    Joined(bh, bl, base, k, carry);
    WordsOf(bl, base, k, carry);
    hide HighWord;
    hide LowWord;
    hide Join;
  }

  /** The counter passed through `x` between the first and the last load. */
  ghost predicate During(t: Attempt, x: int)
    requires |t.loads| == 4
  {
    t.loads[0].value <= x <= t.loads[3].value
  }

  /** Every attempt within `n` increments that is accepted returns a value held during it. */
  ghost predicate SafeUpTo(n: nat) {
    forall t :: Complete(t) && Span(t) <= n && Accepted(t) ==> During(t, B(t))
  }

  /**
   The bound is exact. Over 2^32 increments a high word torn at either end lets two reads agree
   on a value the counter has never reached.
   */
  lemma BoundIsExact(n: nat)
    ensures SafeUpTo(n) <==> n < TWO32
  {
    if n < TWO32 {
      forall t | Complete(t) && Span(t) <= n && Accepted(t) ensures During(t, B(t)) {
        AcceptedIsHeld(t);
      }
    } else {
      var t := Attempt([Memory(TWO32 - 1, true), Memory(TWO32 - 1, true), Memory(TWO32, false), Memory(2 * TWO32 - 1, true)],
                       false, true);
      assert A(t) == 2 * TWO32 - 1 && B(t) == 2 * TWO32;
      assert Complete(t) && Span(t) == TWO32 && Accepted(t) && !During(t, B(t));
    }
  }

  /**
   Nothing is rejected without need: with at most 2^31 increments per attempt the tests pass
   exactly when both reads are exact and the low word is not all ones.
   */
  lemma AcceptedIff(t: Attempt)
    requires Complete(t) && Span(t) <= TWO31
    ensures Accepted(t) <==>
      && A(t) == (if t.aLowFirst then t.loads[0].value else t.loads[1].value)
      && B(t) == Held(t) && Held(t) % TWO32 != TWO32 - 1
  {
    var base := t.loads[0].value;
    var k, carry := base / TWO32, (base / TWO32 + 1) * TWO32;
    var (ah, al) := if t.aLowFirst then (t.loads[1], t.loads[0]) else (t.loads[0], t.loads[1]);
    var (bh, bl) := if t.bLowFirst then (t.loads[3], t.loads[2]) else (t.loads[2], t.loads[3]);
    Joined(ah, al, base, k, carry);
    Joined(bh, bl, base, k, carry);
    WordsOf(bl, base, k, carry);
    hide HighWord;
    hide Join;
  }

  // ----- both threads at work, from one settick to the matching unsettick

  datatype Reader = Idle | Reading(attempt: Attempt)

  datatype Stamp = Stamp(value: nat, attempt: Attempt)

  /** `exceeded` records that some attempt took 2^32 increments or more. */
  datatype State = State(mem: Memory, reader: Reader, prev: nat, stamps: seq<Stamp>, exceeded: bool)

  datatype Step = Tick | Begin(aLowFirst: bool, bLowFirst: bool) | LoadWord | Decide

  /** `jent_notime_settick`: counter and previous stamp are cleared. */
  const START: State := State(Memory(0, false), Idle, 0, [], false)

  /** One store of the counting thread, or one step of `jent_get_nstime_internal`. */
  function Apply(s: State, step: Step): State {
    match (step, s.reader)
    case (Tick, _) => s.(mem := Store(s.mem))
    case (Begin(a, b), Idle) => s.(reader := Reading(Attempt([], a, b)))
    case (LoadWord, Reading(t)) =>
      if |t.loads| < 4 then s.(reader := Reading(t.(loads := t.loads + [s.mem]))) else s
    case (Decide, Reading(t)) =>
      if |t.loads| != 4 then s else
      var s' := s.(reader := Idle, exceeded := s.exceeded || Span(t) >= TWO32);
      if Accepted(t) && B(t) > s.prev then s'.(prev := B(t), stamps := s.stamps + [Stamp(B(t), t)]) else s'
    case _ => s
  }

  function Run(s: State, steps: seq<Step>): State
    decreases |steps|
  {
    if steps == [] then s else Apply(Run(s, steps[..|steps| - 1]), steps[|steps| - 1])
  }

  ghost predicate Ordered(loads: seq<Memory>, now: Memory) {
    && |loads| <= 4
    && (forall i :: 0 <= i < |loads| - 1 ==> NotAfter(loads[i], loads[i + 1]))
    && (loads != [] ==> NotAfter(loads[|loads| - 1], now))
  }

  ghost predicate GoodStamp(p: Stamp, exceeded: bool) {
    && Complete(p.attempt) && Accepted(p.attempt) && p.value == B(p.attempt)
    && (!exceeded ==> Span(p.attempt) < TWO32)
  }

  ghost predicate Inv(s: State) {
    && (s.reader.Reading? ==> Ordered(s.reader.attempt.loads, s.mem))
    && (forall p :: p in s.stamps ==> GoodStamp(p, s.exceeded) && 0 < p.value <= s.prev)
    && (forall i, j :: 0 <= i < j < |s.stamps| ==> s.stamps[i].value < s.stamps[j].value)
  }

  lemma ApplyKeeps(s: State, step: Step)
    requires Inv(s)
    ensures Inv(Apply(s, step))
  {
    hide Accepted;
    hide B;
    match step {
      case Decide =>
        if s.reader.Reading? && |s.reader.attempt.loads| == 4 {
          var t := s.reader.attempt;
          assert NotAfter(t.loads[0], t.loads[1]) && NotAfter(t.loads[1], t.loads[2]) && NotAfter(t.loads[2], t.loads[3]);
        }
      case _ =>
    }
  }

  lemma {:induction false} RunKeeps(steps: seq<Step>)
    ensures Inv(Run(START, steps))
    decreases |steps|
  {
    if steps != [] {
      RunKeeps(steps[..|steps| - 1]);
      ApplyKeeps(Run(START, steps[..|steps| - 1]), steps[|steps| - 1]);
    }
  }

  /** The run loaded the words of `t` after `at[0]`, `at[1]`, ... of its steps. */
  ghost predicate LoadedAt(steps: seq<Step>, t: Attempt, at: seq<nat>) {
    && |at| == |t.loads|
    && (forall i :: 0 <= i < |at| ==> at[i] <= |steps| && Run(START, steps[..at[i]]).mem == t.loads[i])
    && (forall i, j :: 0 <= i < j < |at| ==> at[i] <= at[j])
  }

  ghost predicate Loaded(steps: seq<Step>, t: Attempt) {
    exists at :: LoadedAt(steps, t, at)
  }

  lemma LoadedBefore(steps: seq<Step>, t: Attempt, n: nat)
    requires n <= |steps| && Loaded(steps[..n], t)
    ensures Loaded(steps, t)
  {
    hide Run;
    var at :| LoadedAt(steps[..n], t, at);
    forall i | 0 <= i < |at| ensures Run(START, steps[..at[i]]).mem == t.loads[i] {
      assert steps[..n][..at[i]] == steps[..at[i]];
    }
    assert LoadedAt(steps, t, at);
  }

  lemma LoadedNow(steps: seq<Step>, t: Attempt, n: nat)
    requires n < |steps| && Loaded(steps[..n], t)
    ensures Loaded(steps, t.(loads := t.loads + [Run(START, steps[..n]).mem]))
  {
    hide Run;
    var at :| LoadedAt(steps[..n], t, at);
    forall i | 0 <= i < |at| ensures Run(START, steps[..at[i]]).mem == t.loads[i] {
      assert steps[..n][..at[i]] == steps[..at[i]];
    }
    assert LoadedAt(steps, t.(loads := t.loads + [Run(START, steps[..n]).mem]), at + [n]);
  }

  /** What an attempt records is what the run loaded. */
  lemma {:induction false} LoadsAreOfTheRun(steps: seq<Step>)
    ensures var s := Run(START, steps);
      && (s.reader.Reading? ==> Loaded(steps, s.reader.attempt))
      && forall i :: 0 <= i < |s.stamps| ==> Loaded(steps, s.stamps[i].attempt)
    decreases |steps|
  {
    if steps != [] {
      var n := |steps| - 1;
      var p := steps[..n];
      var s := Run(START, p);
      LoadsAreOfTheRun(p);
      assert Run(START, steps) == Apply(s, steps[n]);
      hide Run;
      hide Accepted;
      hide B;
      hide Loaded;
      forall i | 0 <= i < |s.stamps| ensures Loaded(steps, s.stamps[i].attempt) {
        LoadedBefore(steps, s.stamps[i].attempt, n);
      }
      if s.reader.Reading? {
        LoadedBefore(steps, s.reader.attempt, n);
        LoadedNow(steps, s.reader.attempt, n);
      }
      NothingLoaded(steps, true, true);
      NothingLoaded(steps, true, false);
      NothingLoaded(steps, false, true);
      NothingLoaded(steps, false, false);
    }
  }

  lemma NothingLoaded(steps: seq<Step>, a: bool, b: bool)
    ensures Loaded(steps, Attempt([], a, b))
  {
    assert LoadedAt(steps, Attempt([], a, b), []);
  }

  /** Between the first and the last load of its attempt the counter of the run stood at the stamp. */
  ghost predicate HeldInRun(steps: seq<Step>, p: Stamp) {
    && Complete(p.attempt)
    && exists first: nat, k: nat, last: nat ::
         && first <= k <= last <= |steps| && Run(START, steps[..first]).mem == p.attempt.loads[0]
         && Run(START, steps[..last]).mem == p.attempt.loads[3] && Run(START, steps[..k]).mem.value == p.value
  }

  lemma StampWasHeld(steps: seq<Step>, p: Stamp)
    requires Complete(p.attempt) && Loaded(steps, p.attempt) && p.value == Held(p.attempt)
    ensures HeldInRun(steps, p)
  {
    hide Run;
    var at :| LoadedAt(steps, p.attempt, at);
    var k := if p.attempt.bLowFirst then at[2] else at[3];
    assert at[0] <= k <= at[3] && Run(START, steps[..k]).mem.value == p.value;
    assert Run(START, steps[..at[0]]).mem == p.attempt.loads[0] && Run(START, steps[..at[3]]).mem == p.attempt.loads[3];
  }

  /**
   Whatever the schedule, the time stamps handed out between settick and unsettick increase
   strictly, and each is a value the counter held in the run, during the attempt that read it.
   */
  lemma StampsIncreaseAndWereHeld(steps: seq<Step>)
    ensures var s := Run(START, steps);
      && (forall i, j :: 0 <= i < j < |s.stamps| ==> s.stamps[i].value < s.stamps[j].value)
      && (!s.exceeded ==> forall i :: 0 <= i < |s.stamps| ==> HeldInRun(steps, s.stamps[i]))
  {
    RunKeeps(steps);
    LoadsAreOfTheRun(steps);
    var s := Run(START, steps);
    hide Run;
    hide HeldInRun;
    hide Loaded;
    forall i | 0 <= i < |s.stamps| && !s.exceeded ensures HeldInRun(steps, s.stamps[i]) {
      assert s.stamps[i] in s.stamps;
      AcceptedIsHeld(s.stamps[i].attempt);
      StampWasHeld(steps, s.stamps[i]);
    }
  }
}
