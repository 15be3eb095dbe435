/** The entropy pool as the XDRBG specification sees it. */
module EntropyPool {
  import opened Words

  datatype Pool = Pool(seeded: bool, pending: seq<byte>)

  function Absorb(p: Pool, b: seq<byte>): Pool {
    p.(pending := p.pending + b)
  }
}

/**
 XDRBG-256. `Generate` is what the C code computes, seeding lazily when output is drawn;
 `Instantiate`, `Reseed` and `Output` are the operations of the XDRBG design.
 */
module Xdrbg {
  import opened Words
  import opened Bytes
  import opened Sponge
  import opened EntropyPool
  import Padding

  const STATE: nat := 64
  const OUTPUT: nat := 32

  function Xof<T>(m: seq<byte>, size: nat, c: Codec<T>): seq<byte>
    requires size <= RATE
  {
    Digest(m, Padding.SHAKE, size, c)
  }

  lemma XofLength<T(!new)>(m: seq<byte>, size: nat, c: Codec<T>)
    requires Lawful(c) && size <= RATE && size % 8 == 0
    ensures |Xof(m, size, c)| == size
  {
    EmitLength(AbsorbLanes(Padded(m, Padding.SHAKE), c), size / 8, c);
  }

  /** The pending seed becomes a state: encode byte 0 the first time, 85 from then on. */
  function Seeding<T(!new)>(p: Pool, c: Codec<T>): (v: seq<byte>)
    requires Lawful(c)
    ensures |v| == STATE
  {
    XofLength(p.pending + [if p.seeded then 85 else 0], STATE, c);
    Xof(p.pending + [if p.seeded then 85 else 0], STATE, c)
  }

  /** The next state followed by the full output. */
  function Block<T(!new)>(v: seq<byte>, c: Codec<T>): (t: seq<byte>)
    requires Lawful(c)
    ensures |t| == STATE + OUTPUT
  {
    XofLength(v + [170], STATE + OUTPUT, c);
    Xof(v + [170], STATE + OUTPUT, c)
  }

  function Capped(length: nat): nat {
    if length > OUTPUT then OUTPUT else length
  }

  function Generate<T(!new)>(p: Pool, length: nat, c: Codec<T>): (r: (seq<byte>, Pool))
    requires Lawful(c)
    ensures |r.0| == Capped(length) && r.1.seeded && |r.1.pending| == STATE
  {
    var t := Block(Seeding(p, c), c);
    (t[STATE..STATE + Capped(length)], Pool(true, t[..STATE]))
  }

  /** A shorter request gets a prefix of the full output and leaves the same state behind. */
  lemma GeneratePrefix<T(!new)>(p: Pool, length: nat, c: Codec<T>)
    requires Lawful(c) && length <= OUTPUT
    ensures Generate(p, length, c).0 == Generate(p, OUTPUT, c).0[..length]
    ensures Generate(p, length, c).1 == Generate(p, OUTPUT, c).1
  {
    hide Block;
    hide Seeding;
    var t := Block(Seeding(p, c), c);
    assert t[STATE..STATE + length] == t[STATE..STATE + OUTPUT][..length];
  }

  // ----- the design: V is the state, every operation one call of the XOF

  /** SHAKE256 as the standard defines it, for any output up to one block. */
  ghost function Shake<T(!new)>(m: seq<byte>, size: nat, c: Codec<T>): (r: seq<byte>)
    requires Lawful(c) && size <= RATE
    ensures |r| == size
  {
    AbsorbBytes(Padded(m, Padding.SHAKE), c)[..size]
  }

  /** `encode(seed, alpha, n)` with empty alpha. */
  function Encode(m: seq<byte>, n: nat): seq<byte>
    requires n <= 2
  {
    m + [if n == 0 then 0 else if n == 1 then 85 else 170]
  }

  ghost function Instantiate<T(!new)>(seed: seq<byte>, c: Codec<T>): (v: seq<byte>)
    requires Lawful(c)
    ensures |v| == STATE
  {
    Shake(Encode(seed, 0), STATE, c)
  }

  ghost function Reseed<T(!new)>(v: seq<byte>, seed: seq<byte>, c: Codec<T>): (w: seq<byte>)
    requires Lawful(c)
    ensures |w| == STATE
  {
    Shake(Encode(v + seed, 1), STATE, c)
  }

  ghost function Output<T(!new)>(v: seq<byte>, length: nat, c: Codec<T>): (seq<byte>, seq<byte>)
    requires Lawful(c) && length <= OUTPUT
  {
    var t := Shake(Encode(v, 2), STATE + length, c);
    (t[..STATE], t[STATE..])
  }

  /** A generator in use: no output drawn yet, or a state and the seed collected since. */
  datatype Design = Unseeded(seed: seq<byte>) | Seeded(v: seq<byte>, seed: seq<byte>)

  ghost function Next<T(!new)>(d: Design, c: Codec<T>): (v: seq<byte>)
    requires Lawful(c)
    ensures |v| == STATE
  {
    match d
    case Unseeded(seed) => Instantiate(seed, c)
    case Seeded(v, seed) => Reseed(v, seed, c)
  }

  datatype Operation = Insert(data: seq<byte>) | Draw(length: nat)

  ghost predicate Represents(p: Pool, d: Design) {
    match d
    case Unseeded(seed) => p == Pool(false, seed)
    case Seeded(v, seed) => p == Pool(true, v + seed)
  }

  ghost function RunDesign<T(!new)>(d: Design, ops: seq<Operation>, c: Codec<T>): (seq<seq<byte>>, Design)
    requires Lawful(c)
    decreases |ops|
  {
    if ops == [] then ([], d) else
    match ops[0]
    case Insert(data) => RunDesign(d.(seed := d.seed + data), ops[1..], c)
    case Draw(length) =>
      var (v', out) := Output(Next(d, c), Capped(length), c);
      var (outs, d') := RunDesign(Seeded(v', []), ops[1..], c);
      ([out] + outs, d')
  }

  ghost function RunPool<T(!new)>(p: Pool, ops: seq<Operation>, c: Codec<T>): (seq<seq<byte>>, Pool)
    requires Lawful(c)
    decreases |ops|
  {
    if ops == [] then ([], p) else
    match ops[0]
    case Insert(data) => RunPool(Absorb(p, data), ops[1..], c)
    case Draw(length) =>
      var (out, p') := Generate(p, length, c);
      var (outs, p'') := RunPool(p', ops[1..], c);
      ([out] + outs, p'')
  }

  lemma XofIsShake<T(!new)>(m: seq<byte>, size: nat, c: Codec<T>)
    requires Lawful(c) && size <= RATE && size % 8 == 0
    ensures Xof(m, size, c) == Shake(m, size, c)
  {
    DigestIsSponge(m, Padding.SHAKE, size, c);
  }

  lemma SeedingIsNext<T(!new)>(p: Pool, d: Design, c: Codec<T>)
    requires Lawful(c) && Represents(p, d)
    ensures Seeding(p, c) == Next(d, c)
  {
    hide Xof;
    hide Shake;
    XofIsShake(p.pending + [if p.seeded then 85 else 0], STATE, c);
  }

  lemma ShakePrefix<T(!new)>(m: seq<byte>, k: nat, n: nat, c: Codec<T>)
    requires Lawful(c) && k <= n <= RATE
    ensures Shake(m, k, c) == Shake(m, n, c)[..k]
  {
    hide Lawful;
    hide Padded;
    hide AbsorbBytes;
  }

  lemma BlockIsOutput<T(!new)>(v: seq<byte>, n: nat, c: Codec<T>)
    requires Lawful(c) && n <= OUTPUT
    ensures Output(v, n, c).0 == Block(v, c)[..STATE]
    ensures Output(v, n, c).1 == Block(v, c)[STATE..STATE + n]
  {
    hide Lawful;
    hide Xof;
    hide Shake;
    XofIsShake(v + [170], STATE + OUTPUT, c);
    ShakePrefix(v + [170], STATE + n, STATE + OUTPUT, c);
    Prefixes(Block(v, c), n);
  }

  lemma Prefixes(s: seq<byte>, n: nat)
    requires |s| == STATE + OUTPUT && n <= OUTPUT
    ensures s[..STATE + n][..STATE] == s[..STATE]
    ensures s[..STATE + n][STATE..] == s[STATE..STATE + n]
  {}

  /** One draw of the code is the pending seeding followed by one output of the design. */
  lemma DrawRefines<T(!new)>(p: Pool, d: Design, length: nat, c: Codec<T>)
    requires Lawful(c) && Represents(p, d)
    ensures Generate(p, length, c).0 == Output(Next(d, c), Capped(length), c).1
    ensures Generate(p, length, c).1 == Pool(true, Output(Next(d, c), Capped(length), c).0)
  {
    hide Seeding;
    hide Block;
    hide Next;
    hide Output;
    SeedingIsNext(p, d, c);
    BlockIsOutput(Next(d, c), Capped(length), c);
  }

  /**
   For every interleaving of insertions and draws the code hands out what the design's
   instantiate, reseed and generate operations produce, and ends in the same state.
   */
  lemma {:induction false} RunRefines<T(!new)>(p: Pool, d: Design, ops: seq<Operation>, c: Codec<T>)
    requires Lawful(c) && Represents(p, d)
    ensures RunPool(p, ops, c).0 == RunDesign(d, ops, c).0
    ensures Represents(RunPool(p, ops, c).1, RunDesign(d, ops, c).1)
    decreases |ops|
  {
    hide Lawful;
    hide Generate;
    hide Output;
    hide Next;
    if ops != [] {
      match ops[0] {
        case Insert(data) =>
          assert d.Seeded? ==> d.v + d.seed + data == d.v + (d.seed + data);
          RunRefines(Absorb(p, data), d.(seed := d.seed + data), ops[1..], c);
        case Draw(length) =>
          DrawRefines(p, d, length, c);
          var (v, out) := Output(Next(d, c), Capped(length), c);
          assert v + [] == v;
          RunRefines(Generate(p, length, c).1, Seeded(v, []), ops[1..], c);
      }
    }
  }
}
