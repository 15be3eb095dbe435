/**
 The deltas a collector has judged, in the order in which it judged them: a delta that starts a
 recovery comes before the deltas of that recovery. Every initialization of the tests opens a
 new stream.
 */
module Streams {
  import opened Words
  import opened Failures
  import opened Trace
  import opened HealthTests
  import LagSpec
  import Apt = AdaptiveProportion
  import Rct = RepetitionCount
  import Mem = RepetitionCountMemory

  /** The health tests without the one with memory. */
  datatype Core = Core(failure: set<Failure>, rct: nat, apt: Apt.State, prime: nat)

  function OwnBits(failure: set<Failure>): set<Failure> {
    failure - {RctMem, RctMemPermanent}
  }

  function CoreOf(t: Tests): Core {
    Core(OwnBits(t.failure), t.rct, t.apt, t.prime)
  }

  /** One judged delta, whatever the test with memory makes of it. */
  ghost function Step(t: Core, w: seq<u64>, d: u64, c: Cutoffs): Core {
    var lag := LagSpec.Raised(w + [d], c.lag);
    if t.prime > 0 then t.(prime := t.prime - 1, failure := t.failure + lag) else
    var (apt, aptRaised) := Apt.Insert(t.apt, d, c.apt);
    var (rct, rctRaised) := Rct.Insert(t.rct, Stuck(w, d), c.rct);
    Core(t.failure + aptRaised + lag + rctRaised, rct, apt, 0)
  }

  /** The deltas judged since the tests stood at `start` with the lag window `window`. */
  datatype Stream = Stream(start: Core, window: seq<u64>, deltas: seq<u64>)

  /** The tests and the lag window after a stream. */
  ghost function After(s: Stream, c: Cutoffs): (Core, seq<u64>)
    decreases |s.deltas|
  {
    if s.deltas == [] then (s.start, s.window) else
    var n := |s.deltas| - 1;
    var (t, w) := After(s.(deltas := s.deltas[..n]), c);
    (Step(t, w, s.deltas[n], c), LagSpec.Advance(w, s.deltas[n]))
  }

  /** As `jent_health_init` leaves the tests. */
  ghost predicate Fresh(s: Stream) {
    s.start.rct == 0 && !s.start.apt.baseSet && s.start.prime == 2 && s.window == []
  }

  /** As an initialization or a duplication can leave them. */
  ghost predicate Known(s: Stream, c: Cutoffs) {
    s.start.rct in {0, c.rct.intermittent} && |s.window| < LagSpec.WINDOW
  }

  ghost function Last(streams: seq<Stream>): Stream
    requires streams != []
  {
    streams[|streams| - 1]
  }

  ghost function Add(streams: seq<Stream>, d: u64): (r: seq<Stream>)
    requires streams != []
    ensures |r| == |streams|
  {
    streams[|streams| - 1 := Last(streams).(deltas := Last(streams).deltas + [d])]
  }

  ghost function Open(streams: seq<Stream>, start: Core, window: seq<u64>): seq<Stream> {
    streams + [Stream(start, window, [])]
  }

  /** Failure bits are carried from stream to stream, and every stream began in one of the two ways. */
  ghost predicate Chained(streams: seq<Stream>, c: Cutoffs) {
    forall k :: 0 <= k < |streams| ==> Known(streams[k], c) && streams[k].start.failure == Before(streams, k, c)
  }

  ghost function Before(streams: seq<Stream>, k: nat, c: Cutoffs): set<Failure>
    requires k <= |streams|
  {
    if k == 0 then {} else After(streams[k - 1], c).0.failure
  }

  /** The tests stand where the streams lead. */
  ghost predicate Tracks(streams: seq<Stream>, t: Core, w: seq<u64>, c: Cutoffs) {
    streams != [] && Chained(streams, c) && After(Last(streams), c) == (t, w)
  }

  lemma TracksSome(streams: seq<Stream>, t: Core, w: seq<u64>, c: Cutoffs)
    requires Tracks(streams, t, w, c)
    ensures streams != []
  {}

  lemma StartTracks(t: Core, c: Cutoffs)
    requires t.failure == {} && t.rct == 0
    ensures Tracks(Open([], t, []), t, [], c)
  {}

  lemma AfterAdd(s: Stream, d: u64, c: Cutoffs)
    ensures var (t, w) := After(s, c);
            After(s.(deltas := s.deltas + [d]), c) == (Step(t, w, d, c), LagSpec.Advance(w, d))
  {
    hide Step;
    hide LagSpec.Advance;
    assert (s.deltas + [d])[..|s.deltas|] == s.deltas;
  }

  lemma AddTracks(streams: seq<Stream>, t: Core, w: seq<u64>, d: u64, c: Cutoffs)
    requires Tracks(streams, t, w, c)
    ensures Tracks(Add(streams, d), Step(t, w, d, c), LagSpec.Advance(w, d), c)
  {
    hide Step;
    hide LagSpec.Advance;
    AfterAdd(Last(streams), d, c);
    var r, n := Add(streams, d), |streams| - 1;
    assert Last(r) == Last(streams).(deltas := Last(streams).deltas + [d]);
    forall k | 0 <= k < |r| ensures Known(r[k], c) && r[k].start.failure == Before(r, k, c) {
      assert r[k].start == streams[k].start && r[k].window == streams[k].window && (k > 0 ==> r[k - 1] == streams[k - 1]);
      assert Before(r, k, c) == Before(streams, k, c);
    }
  }

  lemma AfterNothing(start: Core, window: seq<u64>, c: Cutoffs)
    ensures After(Stream(start, window, []), c) == (start, window)
  {}

  lemma OpenTracks(streams: seq<Stream>, t: Core, w: seq<u64>, start: Core, window: seq<u64>, c: Cutoffs)
    requires Tracks(streams, t, w, c) && start.failure == t.failure && Known(Stream(start, window, []), c)
    ensures Tracks(Open(streams, start, window), start, window, c)
  {
    hide Step;
    hide LagSpec.Advance;
    var r, n := Open(streams, start, window), |streams|;
    AfterNothing(start, window, c);
    forall k | 0 <= k < |r| ensures Known(r[k], c) && r[k].start.failure == Before(r, k, c) {
      assert k < n ==> r[k] == streams[k];
      assert k > 0 ==> r[k - 1] == streams[k - 1];
      assert Before(r, k, c) == Before(streams, k, c);
    }
  }

  // ----- the steps of `jent_stuck`

  lemma MemBits(failure: set<Failure>, bits: set<Failure>)
    requires bits <= {RctMem, RctMemPermanent}
    ensures OwnBits(failure + bits) == OwnBits(failure)
  {}

  lemma StreamBits(failure: set<Failure>, bits: set<Failure>)
    requires RctMem !in bits && RctMemPermanent !in bits
    ensures OwnBits(failure + bits) == OwnBits(failure) + bits
  {}

  lemma PrimedStep(t: Tests, w: seq<u64>, d: u64, c: Cutoffs)
    requires t.prime > 0
    ensures CoreOf(t.(prime := t.prime - 1, failure := t.failure + LagSpec.Raised(w + [d], c.lag))) == Step(CoreOf(t), w, d, c)
  {
    hide LagSpec.Raised;
    StreamBits(t.failure, LagSpec.Raised(w + [d], c.lag));
  }

  lemma CountedStep(t: Tests, w: seq<u64>, d: u64, c: Cutoffs)
    requires t.prime == 0
    ensures var (apt, a) := Apt.Insert(t.apt, d, c.apt);
            var (rct, r) := Rct.Insert(t.rct, Stuck(w, d), c.rct);
            CoreOf(t.(apt := apt, rct := rct, failure := t.failure + a + LagSpec.Raised(w + [d], c.lag) + r))
              == Step(CoreOf(t), w, d, c)
  {
    hide LagSpec.Raised;
    hide Apt.Insert;
    hide Stuck;
    hide OwnBits;
    var a, lag := Apt.Insert(t.apt, d, c.apt).1, LagSpec.Raised(w + [d], c.lag);
    var r := Rct.Insert(t.rct, Stuck(w, d), c.rct).1;
    StreamBits(t.failure, a);
    StreamBits(t.failure + a, lag);
    StreamBits(t.failure + a + lag, r);
  }

  // ----- the streams against the history of measurements

  /** The tested deltas of a history. */
  function Tested(t: seq<Event>): multiset<u64> {
    if t == [] then multiset{} else
    var e := t[|t| - 1];
    Tested(t[..|t| - 1]) + if e.tested then multiset{e.delta} else multiset{}
  }

  lemma {:induction false} TestedAppend(a: seq<Event>, b: seq<Event>)
    ensures Tested(a + b) == Tested(a) + Tested(b)
  {
    if b == [] {
      assert a + b == a;
    } else {
      var front, e := b[..|b| - 1], b[|b| - 1];
      TestedAppend(a, front);
      assert (a + b)[..|a + b| - 1] == a + front && (a + b)[|a + b| - 1] == e;
      var now := if e.tested then multiset{e.delta} else multiset{};
      assert Tested(a + b) == Tested(a + front) + now && Tested(b) == Tested(front) + now;
    }
  }

  ghost function Deltas(streams: seq<Stream>): multiset<u64> {
    if streams == [] then multiset{} else Deltas(streams[..|streams| - 1]) + multiset(Last(streams).deltas)
  }

  lemma DeltasAdd(streams: seq<Stream>, d: u64)
    requires streams != []
    ensures Deltas(Add(streams, d)) == Deltas(streams) + multiset{d}
  {
    var n := |streams| - 1;
    assert Add(streams, d)[..n] == streams[..n];
    assert multiset(Last(streams).deltas + [d]) == multiset(Last(streams).deltas) + multiset{d};
  }

  lemma DeltasOpen(streams: seq<Stream>, start: Core, window: seq<u64>)
    ensures Deltas(Open(streams, start, window)) == Deltas(streams)
  {
    assert Open(streams, start, window)[..|streams|] == streams;
  }

  /** `b` goes on where `a` ends; streams that were opened meanwhile were opened by an initialization. */
  ghost predicate Continued(a: seq<Stream>, b: seq<Stream>) {
    && 0 < |a| <= |b|
    && (forall k :: 0 <= k < |a| - 1 ==> b[k] == a[k])
    && b[|a| - 1].start == Last(a).start && b[|a| - 1].window == Last(a).window
    && Last(a).deltas <= b[|a| - 1].deltas
    && forall k :: |a| <= k < |b| ==> Fresh(b[k])
  }

  /** Between `a` and `b` exactly the tested deltas of `ext` were judged. */
  ghost predicate Logged(a: seq<Stream>, b: seq<Stream>, ext: seq<Event>) {
    Continued(a, b) && Deltas(b) == Deltas(a) + Tested(ext)
  }

  lemma LoggedNothing(a: seq<Stream>)
    requires a != []
    ensures Logged(a, a, [])
  {}

  lemma LoggedAppend(a: seq<Stream>, b: seq<Stream>, c: seq<Stream>, ext: seq<Event>, more: seq<Event>)
    requires Logged(a, b, ext) && Logged(b, c, more)
    ensures Logged(a, c, ext + more)
  {
    hide Deltas;
    TestedAppend(ext, more);
    hide Tested;
    if |a| == |b| {
      assert Last(a).deltas <= Last(b).deltas <= c[|a| - 1].deltas;
    }
  }

  lemma LoggedThen(a: seq<Stream>, b: seq<Stream>, c: seq<Stream>, ext: seq<Event>)
    requires Logged(a, b, ext) && Logged(b, c, [])
    ensures Logged(a, c, ext)
  {
    hide Logged;
    LoggedAppend(a, b, c, ext, []);
    assert ext + [] == ext;
  }

  lemma LoggedOpen(a: seq<Stream>, start: Core)
    requires a != [] && Fresh(Stream(start, [], []))
    ensures Logged(a, Open(a, start, []), [])
  {
    DeltasOpen(a, start, []);
    hide Deltas;
  }

  /** An untested delta is not judged. */
  lemma LoggedUntested(a: seq<Stream>, e: Event)
    requires a != [] && !e.tested
    ensures Logged(a, a, [e])
  {
    assert [e][..0] == [];
  }

  /** The event is recorded after the recovery it started, its delta was judged before it. */
  lemma LoggedEvent(a: seq<Stream>, b: seq<Stream>, nested: seq<Event>, e: Event)
    requires a != [] && e.tested && Logged(Add(a, e.delta), b, nested)
    ensures Logged(a, b, nested + [e])
  {
    DeltasAdd(a, e.delta);
    TestedAppend(nested, [e]);
    assert [e][..0] == [] && Tested([e]) == multiset{e.delta};
    hide Deltas;
    hide Tested;
  }
}
