/** Reading from an instance: `jent_read_entropy` and `jent_read_entropy_safe`. */
module Reads {
  import opened Words
  import opened Bytes
  import opened Failures
  import opened Trace
  import opened EntropyPool
  import opened HealthTests
  import opened Instances
  import opened Sponge
  import JitterCollector
  import CutoffTables
  import Lanes64
  import Ladder
  import Xdrbg
  import opened ShaContexts

  const SSIZE_MAX: nat := 0x7fff_ffff_ffff_ffff

  datatype Error = Invalid | NoTime | SelfTest | Health(failure: Failure)

  /** `Pending` only arises outside FIPS mode, where a stuck clock keeps a collection going. */
  datatype Outcome = Delivered(bytes: nat) | Failed(error: Error) | Pending

  predicate Permanent(f: Failure) {
    f in {RctPermanent, AptPermanent, LagPermanent, RctMemPermanent}
  }

  /** How urgent a failure is: the permanent ones before the others, then by the test. */
  function Rank(f: Failure): (r: nat)
    ensures r < 4 <==> Permanent(f)
  {
    match f
    case RctPermanent => 0
    case AptPermanent => 1
    case LagPermanent => 2
    case RctMemPermanent => 3
    case Rct => 4
    case Apt => 5
    case RctMem => 6
    case Lag => 7
  }

  /** `jent_health_err`: the most urgent of the failures. */
  function HealthErr(failures: set<Failure>): (f: Failure)
    requires failures != {}
    ensures f in failures && forall g :: g in failures ==> Rank(f) <= Rank(g)
    ensures forall g :: g in failures && Permanent(g) ==> Permanent(f)
  {
    if RctPermanent in failures then RctPermanent
    else if AptPermanent in failures then AptPermanent
    else if LagPermanent in failures then LagPermanent
    else if RctMemPermanent in failures then RctMemPermanent
    else if Failure.Rct in failures then Failure.Rct
    else if Failure.Apt in failures then Failure.Apt
    else if Failure.RctMem in failures then Failure.RctMem
    else
      assert Failure.Lag in failures by {
        var g :| g in failures;
        assert g == Failure.Lag;
      }
      Failure.Lag
  }

  // ----- what a read hands out

  /** The measurements that precede one draw, and how much was drawn. */
  datatype Block = Block(events: seq<Event>, length: nat)

  /** The output of a run of blocks from pool `p`, and the pool they leave. */
  ghost function Drawn(p: Pool, log: seq<Block>): (r: (seq<byte>, Pool))
    requires Lawful(Lanes64.CODEC)
  {
    if log == [] then ([], p) else
    var b := log[|log| - 1];
    var (out, q) := Drawn(p, log[..|log| - 1]);
    var (more, q') := Xdrbg.Generate(Absorb(q, Absorbed(b.events)), b.length, Lanes64.CODEC);
    (out + more, q')
  }

  /** Block by block 32 bytes, the last one the rest, each paid for by `nosr` tested, non-stuck measurements. */
  ghost predicate Paid(log: seq<Block>, n: nat, nosr: nat) {
    && 32 * |log| < n + 32
    && forall i :: 0 <= i < |log| ==>
         && log[i].length == Ladder.Min(32, n - 32 * i)
         && Credits(log[i].events, Combined, false) == nosr
  }

  /** The operations of the generator behind a run of blocks. */
  function Operations(log: seq<Block>): seq<Xdrbg.Operation> {
    if log == [] then [] else
    var b := log[|log| - 1];
    Operations(log[..|log| - 1]) + [Xdrbg.Insert(Absorbed(b.events)), Xdrbg.Draw(b.length)]
  }

  lemma {:induction false} RunAppend(p: Pool, a: seq<Xdrbg.Operation>, b: seq<Xdrbg.Operation>)
    requires Lawful(Lanes64.CODEC)
    ensures var x := Xdrbg.RunPool(p, a, Lanes64.CODEC);
            var y := Xdrbg.RunPool(x.1, b, Lanes64.CODEC);
            Xdrbg.RunPool(p, a + b, Lanes64.CODEC).0 == x.0 + y.0 && Xdrbg.RunPool(p, a + b, Lanes64.CODEC).1 == y.1
    decreases |a|
  {
    hide Lawful;
    hide Xdrbg.Generate;
    if a == [] {
      assert a + b == b;
    } else {
      assert (a + b)[1..] == a[1..] + b;
      match a[0] {
        case Insert(data) => RunAppend(Absorb(p, data), a[1..], b);
        case Draw(length) => RunAppend(Xdrbg.Generate(p, length, Lanes64.CODEC).1, a[1..], b);
      }
    }
  }

  lemma {:induction false} DrawnIsRun(p: Pool, log: seq<Block>)
    requires Lawful(Lanes64.CODEC)
    ensures Drawn(p, log).0 == Flat(Xdrbg.RunPool(p, Operations(log), Lanes64.CODEC).0)
    ensures Drawn(p, log).1 == Xdrbg.RunPool(p, Operations(log), Lanes64.CODEC).1
  {
    hide Lawful;
    hide Xdrbg.Generate;
    if log != [] {
      var b, front := log[|log| - 1], log[..|log| - 1];
      DrawnIsRun(p, front);
      var x := Xdrbg.RunPool(p, Operations(front), Lanes64.CODEC);
      var ops := [Xdrbg.Insert(Absorbed(b.events)), Xdrbg.Draw(b.length)];
      RunAppend(p, Operations(front), ops);
      LastTwo(x.1, Absorbed(b.events), b.length);
      var more := Xdrbg.Generate(Absorb(x.1, Absorbed(b.events)), b.length, Lanes64.CODEC).0;
      assert (x.0 + [more])[..|x.0|] == x.0;
    }
  }

  lemma LastTwo(p: Pool, data: seq<byte>, length: nat)
    requires Lawful(Lanes64.CODEC)
    ensures var g := Xdrbg.Generate(Absorb(p, data), length, Lanes64.CODEC);
            var r := Xdrbg.RunPool(p, [Xdrbg.Insert(data), Xdrbg.Draw(length)], Lanes64.CODEC);
            r.0 == [g.0] && r.1 == g.1
  {
    hide Lawful;
    hide Xdrbg.Generate;
    var ops := [Xdrbg.Insert(data), Xdrbg.Draw(length)];
    var g := Xdrbg.Generate(Absorb(p, data), length, Lanes64.CODEC);
    assert ops[1..] == [Xdrbg.Draw(length)] && ops[1..][1..] == [];
    assert Xdrbg.RunPool(g.1, [], Lanes64.CODEC) == ([], g.1);
    assert Xdrbg.RunPool(Absorb(p, data), ops[1..], Lanes64.CODEC).0 == [g.0];
  }

  /** What a read hands out is what XDRBG-256 outputs for the seed material that was measured. */
  lemma DrawnIsDesign(p: Pool, d: Xdrbg.Design, log: seq<Block>)
    requires Lawful(Lanes64.CODEC) && Xdrbg.Represents(p, d)
    ensures Drawn(p, log).0 == Flat(Xdrbg.RunDesign(d, Operations(log), Lanes64.CODEC).0)
    ensures Xdrbg.Represents(Drawn(p, log).1, Xdrbg.RunDesign(d, Operations(log), Lanes64.CODEC).1)
  {
    hide Lawful;
    hide Drawn;
    DrawnIsRun(p, log);
    Xdrbg.RunRefines(p, d, Operations(log), Lanes64.CODEC);
  }

  /** The context of the C code, fed with the same measurements, puts out the same bytes. */
  method Replay(context: ShaContext<bv64>, log: seq<Block>) returns (bytes: seq<byte>)
    requires Generator(context) && context.codec == Lanes64.CODEC && Lawful(Lanes64.CODEC)
    requires |context.message| + Xdrbg.STATE + Volume(Operations(log)) + 1 < TWO64
    modifies context, context.state, context.partial, context.scratch
    ensures Generator(context)
    ensures bytes == Drawn(old(context.Pool()), log).0 && context.Pool() == Drawn(old(context.Pool()), log).1
  {
    hide Lawful;
    hide ShaContext.Valid;
    hide Drawn;
    hide Volume;
    DrawnIsRun(context.Pool(), log);
    var outs := Drive(context, Operations(log));
    bytes := Flat(outs);
  }

  // ----- one read

  /** An instance as the allocation hands it out: in service or failed, but past its startup. */
  ghost predicate Ready(ec: Instance, pf: Platform)
    reads ec.Repr()
  {
    ec.Valid(pf) && ec.engine.startupState == JitterCollector.Completed
  }

  /** One turn of the loop of `jent_read_entropy`. */
  method ReadBlock(ec: Instance, length: nat, patience: nat, ghost pf: Platform)
    returns (out: Outcome, output: seq<byte>, left: nat, ghost b: Block)
    requires Ready(ec, pf)
    modifies ec.engine.Repr(), ec`selftestFailed
    ensures Ready(ec, pf) && old(ec.engine.Failing()) <= ec.engine.Failing()
    ensures ec.engine.fips ==> !out.Pending?
    ensures out.Failed? ==>
      (out.error == SelfTest && ec.selftestFailed) || (ec.engine.Failing() != {} && out.error == Health(HealthErr(ec.engine.Failing())))
    ensures out.Delivered? ==>
      && ec.engine.Failing() == {} && !ec.selftestFailed && out.bytes == |output| == b.length == Ladder.Min(32, length)
      && Credits(b.events, Combined, false) == Nosr(ec.engine.osr, ec.engine.fips)
      && Lawful(Lanes64.CODEC)
      && (output, ec.engine.pool) == Xdrbg.Generate(Absorb(old(ec.engine.pool), Absorbed(b.events)), b.length, Lanes64.CODEC)
  {
    hide JitterCollector.Collector.Valid;
    hide Credits;
    hide Absorbed;
    hide Lawful;
    hide Xdrbg.Generate;
    output, left, b := [], patience, Block([], 0);
    ec.selftestFailed := *;
    if ec.selftestFailed {
      return Failed(SelfTest), [], left, b;
    }
    var done;
    ghost var ext;
    done, left, ext := ec.engine.RandomData(patience);
    if !done {
      return Pending, [], left, b;
    }
    if ec.engine.Failing() != {} {
      return Failed(Health(HealthErr(ec.engine.Failing()))), [], left, b;
    }
    var size := Ladder.Min(32, length);
    output := ec.engine.ReadRandomBlock(size);
    out, b := Delivered(size), Block(ext, size);
  }

  method Copy(buffer: array<byte>, at: nat, data: seq<byte>)
    requires at + |data| <= buffer.Length
    modifies buffer
    ensures buffer[..] == Over(old(buffer[..]), at, data)
  {
    forall i | 0 <= i < |data| {
      buffer[at + i] := data[i];
    }
  }

  /** `s` with `data` written over it from `at` on. */
  function Over(s: seq<byte>, at: nat, data: seq<byte>): (t: seq<byte>)
    requires at + |data| <= |s|
    ensures |t| == |s|
  {
    s[..at] + data + s[at + |data|..]
  }

  /** Nothing but the written part changes. */
  lemma OverAt(s: seq<byte>, at: nat, data: seq<byte>, i: nat)
    requires at + |data| <= |s| && i < |s|
    ensures Over(s, at, data)[i] == if at <= i < at + |data| then data[i - at] else s[i]
  {}

  lemma OverOver(s: seq<byte>, at: nat, a: seq<byte>, b: seq<byte>)
    requires at + |a| + |b| <= |s|
    ensures Over(Over(s, at, a), at + |a|, b) == Over(s, at, a + b)
  {}

  lemma OverNothing(s: seq<byte>, at: nat)
    requires at <= |s|
    ensures Over(s, at, []) == s
  {}

  lemma {:induction false} DrawnSnoc(p: Pool, log: seq<Block>, b: Block)
    requires Lawful(Lanes64.CODEC)
    ensures var (out, q) := Drawn(p, log);
            var (more, q') := Xdrbg.Generate(Absorb(q, Absorbed(b.events)), b.length, Lanes64.CODEC);
            Drawn(p, log + [b]).0 == out + more && Drawn(p, log + [b]).1 == q'
  {
    hide Lawful;
    hide Xdrbg.Generate;
    assert (log + [b])[..|log|] == log;
  }

  /** The loop of `jent_read_entropy`. */
  method Fill(ec: Instance, buffer: array<byte>, at: nat, n: nat, patience: nat, ghost pf: Platform)
    returns (out: Outcome, copied: nat, left: nat, ghost log: seq<Block>)
    requires Ready(ec, pf) && buffer !in ec.Repr() && at + n <= buffer.Length && n > 0
    modifies ec.engine.Repr(), ec`selftestFailed, buffer
    ensures Ready(ec, pf) && old(ec.engine.Failing()) <= ec.engine.Failing()
    ensures ec.engine.fips ==> !out.Pending?
    ensures out.Failed? ==>
      (out.error == SelfTest && ec.selftestFailed) || (ec.engine.Failing() != {} && out.error == Health(HealthErr(ec.engine.Failing())))
    ensures out.Delivered? ==> out.bytes == copied == n && ec.engine.Failing() == {} && !ec.selftestFailed
    ensures copied <= n && Paid(log, n, Nosr(ec.engine.osr, ec.engine.fips)) && Lawful(Lanes64.CODEC)
    ensures |Drawn(old(ec.engine.pool), log).0| == copied == Ladder.Min(n, 32 * |log|)
    ensures buffer[..] == Over(old(buffer[..]), at, Drawn(old(ec.engine.pool), log).0)
    ensures out.Delivered? ==> ec.engine.pool == Drawn(old(ec.engine.pool), log).1
  {
    hide JitterCollector.Collector.Valid;
    hide Credits;
    hide Absorbed;
    hide Lawful;
    hide Xdrbg.Generate;
    hide Drawn;
    hide Paid;
    hide Over;
    hide HealthErr;
    hide Nosr;
    hide Instance.Configured;
    hide Instance.Accounted;
    Lanes64.CodecIsLawful();
    copied, left, log := 0, patience, [];
    ghost var pool, was := ec.engine.pool, buffer[..];
    DrawnEmpty(pool);
    OverNothing(was, at);
    PaidEmpty(n, Nosr(ec.engine.osr, ec.engine.fips));
    while copied < n
      invariant Ready(ec, pf) && old(ec.engine.Failing()) <= ec.engine.Failing()
      invariant copied > 0 ==> ec.engine.Failing() == {} && !ec.selftestFailed
      invariant Paid(log, n, Nosr(ec.engine.osr, ec.engine.fips))
      invariant |Drawn(pool, log).0| == copied == Ladder.Min(n, 32 * |log|)
      invariant buffer[..] == Over(was, at, Drawn(pool, log).0)
      invariant ec.engine.pool == Drawn(pool, log).1
    {
      var output;
      ghost var b;
      out, output, left, b := ReadBlock(ec, n - copied, left, pf);
      if !out.Delivered? {
        return;
      }
      DrawnSnoc(pool, log, b);
      PaidSnoc(log, n, Nosr(ec.engine.osr, ec.engine.fips), b);
      OverOver(was, at, Drawn(pool, log).0, output);
      Copy(buffer, at + copied, output);
      log, copied := log + [b], copied + |output|;
    }
    out := Delivered(n);
  }

  lemma PaidEmpty(n: nat, nosr: nat)
    requires n > 0
    ensures Paid([], n, nosr)
  {}

  lemma PaidSnoc(log: seq<Block>, n: nat, nosr: nat, b: Block)
    requires Paid(log, n, nosr) && 32 * |log| < n
    requires b.length == Ladder.Min(32, n - 32 * |log|) && Credits(b.events, Combined, false) == nosr
    ensures Paid(log + [b], n, nosr)
  {}

  lemma DrawnEmpty(p: Pool)
    requires Lawful(Lanes64.CODEC)
    ensures Drawn(p, []) == ([], p)
  {}

  /**
   From pool `from` to pool `to`, `n` bytes were drawn and stand in the buffer from `at` on, all
   else in it as it was.
   */
  ghost predicate Served(was: seq<byte>, now: seq<byte>, at: nat, n: nat, from: Pool, to: Pool, log: seq<Block>, nosr: nat) {
    && Lawful(Lanes64.CODEC) && Paid(log, n, nosr) && n <= 32 * |log|
    && var (bytes, pool) := Drawn(from, log);
       |bytes| == n && at + n <= |was| && now == Over(was, at, bytes) && to == pool
  }

  /** Zeros written before the block was served do not show. */
  lemma ServedOverZeros(was: seq<byte>, m: nat, now: seq<byte>, at: nat, n: nat, from: Pool, to: Pool, log: seq<Block>, nosr: nat)
    requires m <= n && at + n <= |was|
    requires Served(Over(was, at, Zeros(m)), now, at, n, from, to, log, nosr)
    ensures Served(was, now, at, n, from, to, log, nosr)
  {
    hide Lawful;
    hide Drawn;
    hide Over;
    OverWider(was, at, Zeros(m), Drawn(from, log).0);
  }

  /** The accounting of a successful read of `n` bytes. */
  ghost function Counted(v: View, n: nat): View {
    v.(account := v.account.(readCount := (v.account.readCount + 1) % TWO64, byteCount := (v.account.byteCount + n) % TWO64),
       lengths := v.lengths + [n])
  }

  /**
   `jent_read_entropy`. A read either delivers all of the request, block by block what the
   generator outputs on freshly measured seed material, or fails, having erased what it had
   copied; only a delivered read is accounted for. Nothing outside the request is written.
   */
  method ReadEntropy(ec: Instance?, buffer: array?<byte>, at: nat, len: nat, patience: nat, ghost pf: Platform)
    returns (out: Outcome, left: nat, ghost wiped: nat, ghost log: seq<Block>)
    requires ec != null ==> Ready(ec, pf) && buffer !in ec.Repr()
    requires buffer != null ==> at + len <= buffer.Length
    modifies if ec == null then {} else ec.Repr(), if buffer == null then {} else {buffer}
    ensures ec == null || (buffer == null && len > 0) ==> out == Failed(Invalid)
    ensures ec != null ==> Ready(ec, pf) && old(ec.engine.Failing()) <= ec.engine.Failing()
    ensures ec != null && ec.engine.fips ==> !out.Pending?
    ensures out.Failed? && out.error.Health? ==>
      ec != null && ec.engine.Failing() != {} && out.error.failure == HealthErr(ec.engine.Failing())
    ensures out == Failed(SelfTest) ==> ec != null && ec.selftestFailed
    ensures out == Failed(NoTime) ==> ec != null && ec.notime
    ensures out.Delivered? ==>
      && ec != null && ec.engine.Failing() == {} && !ec.selftestFailed && out.bytes == Ladder.Min(len, SSIZE_MAX)
      && (len > 0 ==>
            && buffer != null
            && Served(old(buffer[..]), buffer[..], at, out.bytes, old(ec.engine.pool), ec.engine.pool, log,
                      Nosr(ec.engine.osr, ec.engine.fips)))
    ensures !out.Delivered? && buffer != null && !out.Pending? ==>
      wiped <= Ladder.Min(len, SSIZE_MAX) && buffer[..] == Over(old(buffer[..]), at, Zeros(wiped))
    ensures ec != null ==>
      ViewOf(ec) == if out.Delivered? && len > 0 then Counted(old(ViewOf(ec)), out.bytes) else old(ViewOf(ec))
  {
    hide JitterCollector.Collector.Valid;
    hide Credits;
    hide Served;
    hide Over;
    hide Instance.Accounted;
    hide HealthErr;
    hide Nosr;
    hide Instance.Configured;
    left, wiped, log := patience, 0, [];
    if buffer != null {
      OverNothing(buffer[..], at);
    }
    if ec == null || (buffer == null && len > 0) {
      return Failed(Invalid), left, 0, [];
    }
    if len == 0 {
      ec.selftestFailed := *;
      var failing := ec.engine.Failing();
      out := if ec.selftestFailed then Failed(SelfTest) else if failing != {} then Failed(Health(HealthErr(failing))) else Delivered(0);
      return;
    }
    var n := Ladder.Min(len, SSIZE_MAX);
    var ticking: bool := *;
    if ec.notime && !ticking {
      return Failed(NoTime), left, 0, [];
    }
    out, left, wiped, log := Produce(ec, buffer, at, n, patience, pf);
  }

  method Count(ec: Instance, n: nat, ghost pf: Platform)
    requires Ready(ec, pf)
    modifies ec`account, ec`lengths
    ensures Ready(ec, pf) && ViewOf(ec) == Counted(old(ViewOf(ec)), n)
  {
    hide JitterCollector.Collector.Valid;
    hide Instance.Configured;
    hide Tallied;
    assert ec !in ec.engine.Repr();
    CountedSum(ec.account, ec.lengths, n);
    ec.account := ec.account.(readCount := (ec.account.readCount + 1) % TWO64, byteCount := (ec.account.byteCount + n) % TWO64);
    ec.lengths := ec.lengths + [n];
  }

  /** The part of `jent_read_entropy` from the loop on. */
  method Produce(ec: Instance, buffer: array<byte>, at: nat, n: nat, patience: nat, ghost pf: Platform)
    returns (out: Outcome, left: nat, ghost wiped: nat, ghost log: seq<Block>)
    requires Ready(ec, pf) && buffer !in ec.Repr() && at + n <= buffer.Length && n > 0
    modifies ec.Repr(), buffer
    ensures Ready(ec, pf) && old(ec.engine.Failing()) <= ec.engine.Failing()
    ensures ec.engine.fips ==> !out.Pending?
    ensures out.Failed? ==>
      (out.error == SelfTest && ec.selftestFailed) || (ec.engine.Failing() != {} && out.error == Health(HealthErr(ec.engine.Failing())))
    ensures out.Delivered? ==>
      && ec.engine.Failing() == {} && !ec.selftestFailed && out.bytes == n
      && Served(old(buffer[..]), buffer[..], at, n, old(ec.engine.pool), ec.engine.pool, log, Nosr(ec.engine.osr, ec.engine.fips))
    ensures out.Failed? ==> wiped <= n && buffer[..] == Over(old(buffer[..]), at, Zeros(wiped))
    ensures ViewOf(ec) == if out.Delivered? then Counted(old(ViewOf(ec)), n) else old(ViewOf(ec))
  {
    hide JitterCollector.Collector.Valid;
    hide Credits;
    hide Lawful;
    hide Drawn;
    hide Paid;
    hide Over;
    hide HealthErr;
    hide Nosr;
    hide Instance.Configured;
    hide Instance.Accounted;
    hide Absorbed;
    hide Counted;
    wiped := 0;
    var copied;
    out, copied, left, log := Fill(ec, buffer, at, n, patience, pf);
    if out.Delivered? {
      Count(ec, n, pf);
    } else if out.Failed? {
      OverWider(old(buffer[..]), at, Drawn(old(ec.engine.pool), log).0, Zeros(copied));
      Copy(buffer, at, Zeros(copied));
      wiped := copied;
    }
  }

  lemma CountedSum(a: Account, lengths: seq<nat>, n: nat)
    requires Tallied(a, lengths)
    ensures Tallied(a.(readCount := (a.readCount + 1) % TWO64, byteCount := (a.byteCount + n) % TWO64), lengths + [n])
  {
    assert (lengths + [n])[..|lengths|] == lengths;
  }

  lemma OverWider(s: seq<byte>, at: nat, a: seq<byte>, b: seq<byte>)
    requires |a| <= |b| && at + |b| <= |s|
    ensures Over(Over(s, at, a), at, b) == Over(s, at, b)
  {}

  lemma OverZeros(s: seq<byte>, at: nat, m: nat, n: nat)
    requires at + m <= |s| && at + n <= |s|
    ensures Over(Over(s, at, Zeros(m)), at, Zeros(n)) == Over(s, at, Zeros(if m < n then n else m))
  {}

  // ----- a read that replaces the instance on an intermittent failure

  /** Every one of these collectors failed, and none of them permanently. */
  ghost predicate Intermittent(retired: seq<set<Failure>>) {
    forall i :: 0 <= i < |retired| ==> retired[i] != {} && forall f :: f in retired[i] ==> !Permanent(f)
  }

  /** A pool that holds the startup of a replacement at rate `osr` and nothing else. */
  ghost predicate Seeded(pool: Pool, seed: seq<Event>, osr: nat) {
    && pool == Absorb(Pool(false, []), Absorbed(seed))
    && Credits(seed, MemoryAccess, false) == 321 * osr && Credits(seed, HashLoop, false) == 321 * osr
  }

  lemma StartedIsSeeded(ec: Instance)
    requires Started(ec) && ec.engine.fips
    ensures Seeded(ec.engine.pool, ec.engine.trace, ec.engine.osr) && ec.engine.startupState == JitterCollector.Completed
  {}

  /**
   `jent_read_entropy_safe`. It ends after at most one replacement per step of the oversampling
   rate, of collectors that failed but not permanently; it returns an intermittent failure only
   if a replacement was refused. What it delivers comes from a single instance, `view`, reached from the one it was
   given by replacements that raise the rate and keep identity and accounting. Its pool `from` is
   that of the given instance, or holds exactly what the startup of the replacement measured.
   */
  method ReadEntropySafe(p: Process, ec: Instance?, buffer: array?<byte>, at: nat, len: nat, patience: nat)
    returns (out: Outcome, next: Instance?, ghost retired: seq<set<Failure>>, ghost seed: seq<Event>,
             ghost view: View, ghost from: Pool, ghost wiped: nat, ghost log: seq<Block>)
    requires ec != null ==> Ready(ec, p.platform) && buffer !in ec.Repr()
    requires buffer != null ==> at + len <= buffer.Length
    modifies p, if ec == null then {} else ec.Repr(), if buffer == null then {} else {buffer}
    ensures old(p.timerForced) ==> p.timerForced
    ensures ec == null ==> next == null && out == Failed(Invalid)
    ensures ec != null ==>
      && next != null && Ready(next, p.platform) && (next == ec || fresh(next.Repr()))
      && Climbed(old(ViewOf(ec)), view)
      && ViewOf(next) == (if out.Delivered? && len > 0 then Counted(view, out.bytes) else view)
      && (ec.engine.fips ==> !out.Pending? && (!ec.notime ==> p.timerForced == old(p.timerForced)))
      && Intermittent(retired) && (retired == [] <==> next == ec)
      && |retired| <= view.account.reinits - old(ec.account.reinits)
      && (if retired == [] then from == old(ec.engine.pool) else Seeded(from, seed, view.osr))
      && (out.Failed? && out.error.Health? ==>
            && out.error.failure in next.engine.Failing()
            && (len == 0 || Permanent(out.error.failure) || p.refusals > old(p.refusals)))
    ensures out.Delivered? ==>
      && next != null && next.engine.Failing() == {} && !next.selftestFailed && out.bytes == Ladder.Min(len, SSIZE_MAX)
      && (len > 0 ==>
            && buffer != null
            && Served(old(buffer[..]), buffer[..], at, out.bytes, from, next.engine.pool, log,
                      Nosr(next.engine.osr, next.engine.fips)))
    ensures out.Failed? && buffer != null ==>
      wiped <= len && buffer[..] == Over(old(buffer[..]), at, Zeros(wiped))
  {
    hide JitterCollector.Collector.Valid;
    hide Seeded;
    hide Served;
    hide Over;
    hide HealthErr;
    hide Nosr;
    hide Climbed;
    hide Instance.Configured;
    hide Instance.Accounted;
    retired, seed, view, from, wiped, log := [], [], *, *, 0, [];
    if buffer != null {
      OverNothing(buffer[..], at);
    }
    if ec == null {
      return Failed(Invalid), null, [], [], view, from, 0, [];
    }
    next, view, from := ec, ViewOf(ec), ec.engine.pool;
    ClimbedReflexive(ec, p.platform);
    var left;
    if len == 0 || buffer == null {
      out, left, wiped, log := ReadEntropy(ec, buffer, at, len, patience, p.platform);
      return;
    }
    out, next, retired, seed, view, from, wiped, log := ReadLoop(p, ec, buffer, at, Ladder.Min(len, SSIZE_MAX), patience);
  }

  /** The loop of `jent_read_entropy_safe`; a read that succeeds delivers all that is left. */
  method ReadLoop(p: Process, ec: Instance, buffer: array<byte>, at: nat, n: nat, patience: nat)
    returns (out: Outcome, cur: Instance, ghost retired: seq<set<Failure>>, ghost seed: seq<Event>,
             ghost view: View, ghost from: Pool, ghost wiped: nat, ghost log: seq<Block>)
    requires Ready(ec, p.platform) && buffer !in ec.Repr() && 0 < n <= SSIZE_MAX && at + n <= buffer.Length
    modifies p, ec.Repr(), buffer
    ensures old(p.timerForced) ==> p.timerForced
    ensures Ready(cur, p.platform) && (cur == ec || fresh(cur.Repr())) && Climbed(old(ViewOf(ec)), view)
    ensures ViewOf(cur) == (if out.Delivered? then Counted(view, n) else view)
    ensures ec.engine.fips ==> !out.Pending? && (!ec.notime ==> p.timerForced == old(p.timerForced))
    ensures Intermittent(retired) && (retired == [] <==> cur == ec)
    ensures |retired| <= view.account.reinits - old(ec.account.reinits)
    ensures if retired == [] then from == old(ec.engine.pool) else Seeded(from, seed, view.osr)
    ensures out.Failed? && out.error.Health? ==>
      && out.error.failure in cur.engine.Failing()
      && (Permanent(out.error.failure) || p.refusals > old(p.refusals))
    ensures out.Delivered? ==>
      && cur.engine.Failing() == {} && !cur.selftestFailed && out.bytes == n
      && Served(old(buffer[..]), buffer[..], at, n, from, cur.engine.pool, log, Nosr(cur.engine.osr, cur.engine.fips))
    ensures out.Failed? ==> wiped <= n && buffer[..] == Over(old(buffer[..]), at, Zeros(wiped))
  {
    hide JitterCollector.Collector.Valid;
    hide Seeded;
    hide Started;
    hide Continues;
    hide Counted;
    hide Served;
    hide Over;
    hide Nosr;
    hide Climbed;
    hide Instance.Configured;
    hide Instance.Accounted;
    var left := patience;
    cur, retired, seed, wiped := ec, [], [], 0;
    ClimbedReflexive(ec, p.platform);
    OverNothing(buffer[..], at);
    while true
      invariant Ready(cur, p.platform) && (cur == ec || fresh(cur.Repr())) && buffer !in cur.Repr()
      invariant Climbed(old(ViewOf(ec)), ViewOf(cur))
      invariant cur.engine.fips == ec.engine.fips && (ec.engine.fips ==> cur.notime == ec.notime)
      invariant old(p.timerForced) ==> p.timerForced
      invariant ec.engine.fips && !ec.notime ==> p.timerForced == old(p.timerForced)
      invariant wiped <= n && buffer[..] == Over(old(buffer[..]), at, Zeros(wiped))
      invariant Intermittent(retired) && (retired == [] <==> cur == ec) && p.refusals == old(p.refusals)
      invariant |retired| <= cur.account.reinits - old(ec.account.reinits)
      invariant if retired == [] then cur.engine.pool == old(ec.engine.pool) else Seeded(cur.engine.pool, seed, cur.engine.osr)
      decreases CutoffTables.MAX_OSR - cur.engine.osr
    {
      view, from := ViewOf(cur), cur.engine.pool;
      ghost var more;
      out, left, more, log := ReadEntropy(cur, buffer, at, n, left, p.platform);
      if out.Delivered? {
        ServedOverZeros(old(buffer[..]), wiped, buffer[..], at, n, from, cur.engine.pool, log, Nosr(cur.engine.osr, cur.engine.fips));
        return;
      }
      if out.Pending? {
        return;
      }
      OverZeros(old(buffer[..]), at, wiped, more);
      wiped := if wiped < more then more else wiped;
      if !out.error.Health? || Permanent(out.error.failure) {
        return;
      }
      var ok, after, finished;
      ok, after, finished, left := Reset(p, cur, left);
      if !ok {
        return;
      }
      ClimbedStep(old(ViewOf(ec)), ViewOf(cur), ViewOf(after));
      StartedIsSeeded(after);
      retired, seed := retired + [cur.engine.Failing()], after.engine.trace;
      cur := after;
    }
  }
}
