/** `struct jent_sha_ctx`: the incremental sponge and the XDRBG-256 built on it, updated in place. */
module ShaContexts {
  import opened Words
  import opened Bytes
  import opened Sponge
  import Keccak
  import opened EntropyPool
  import Xdrbg
  import Padding

  /** The bytes of whole blocks among `n`. */
  function Whole(n: nat): (w: nat)
    ensures w <= n && w % RATE == 0 && n - w < RATE
  {
    n - n % RATE
  }

  lemma WholePart(n: nat)
    ensures n % RATE == n - Whole(n)
  {}

  lemma WholeIs(n: nat, w: nat)
    requires w <= n < w + RATE && w % RATE == 0
    ensures Whole(n) == w
  {}

  lemma WholeStays(n: nat, k: nat)
    requires n % RATE + k < RATE
    ensures Whole(n + k) == Whole(n)
  {
    WholeIs(n + k, Whole(n));
  }

  lemma TailOfAppend(m: seq<byte>, input: seq<byte>, w: nat)
    requires w <= |m|
    ensures (m + input)[..w] == m[..w] && (m + input)[w..] == m[w..] + input
  {}

  lemma HeadOfCopy(a: seq<byte>, b: seq<byte>, rest: seq<byte>)
    ensures (a + b + rest)[..|a| + |b|] == a + b
  {}

  /** Zeros with the two pad bytes set are the padding, whether or not the bytes coincide. */
  lemma PadShape(n: nat, suffix: byte)
    ensures var q := RATE - n % RATE;
            var first := Zeros(q)[0 := suffix];
            first[q - 1 := first[q - 1] | 0x80] == PadBytes(n, suffix)
  {
    var q := RATE - n % RATE;
    assert 0 as byte | 0x80 == 0x80;
    if q > 1 {
      assert Zeros(q)[0 := suffix][q - 1 := 0x80] == [suffix] + Zeros(q - 2) + [0x80];
    }
  }

  lemma UpdateTail(a: seq<byte>, b: seq<byte>, i: nat, x: byte)
    requires |a| <= i < |a| + |b|
    ensures (a + b)[i := x] == a + b[i - |a| := x] && (a + b)[i] == b[i - |a|]
  {}

  class ShaContext<T(!new)> {
    const codec: Codec<T>
    const padding: byte
    const state: array<T>
    const partial: array<byte>
    const scratch: array<byte>
    var initiallySeeded: bool
    var msgLen: nat
    var digestSize: nat

    /** What was absorbed since the last initialization. */
    ghost var message: seq<byte>

    ghost predicate Valid()
      reads this, state, partial
    {
      && state.Length == 25 && partial.Length == RATE
      && msgLen == |message| < TWO64
      && digestSize <= RATE
      && state[..] == AbsorbLanes(message[..Whole(|message|)], codec)
      && partial[..msgLen - Whole(msgLen)] == message[Whole(|message|)..]
    }

    constructor (codec: Codec<T>, padding: byte, digestSize: nat)
      requires digestSize <= RATE
      ensures Valid() && fresh(state) && fresh(partial) && fresh(scratch) && scratch.Length == Xdrbg.STATE + Xdrbg.OUTPUT
      ensures message == [] && !initiallySeeded && this.codec == codec && this.padding == padding && this.digestSize == digestSize
    {
      this.codec, this.padding, this.digestSize := codec, padding, digestSize;
      state := new T[25](_ => codec.zero);
      partial := new byte[RATE](_ => 0);
      scratch := new byte[Xdrbg.STATE + Xdrbg.OUTPUT](_ => 0);
      initiallySeeded := false;
      msgLen := 0;
      message := [];
    }

    /** `jent_sha3_init` */
    method Init()
      requires state.Length == 25 && partial.Length == RATE && digestSize <= RATE
      modifies this`msgLen, this`message, state
      ensures Valid() && message == []
    {
      for i := 0 to 25
        invariant forall k :: 0 <= k < i ==> state[k] == codec.zero
      {
        state[i] := codec.zero;
      }
      msgLen := 0;
      message := [];
    }

    /** `jent_sha3_fill_state` */
    method FillState(block: seq<byte>)
      requires state.Length == 25 && |block| == RATE
      modifies state
      ensures state[..] == Fill(old(state[..]), block, codec)
    {
      for i := 0 to RATE_LANES
        invariant forall k :: 0 <= k < 25 ==>
          state[k] == if k < i then codec.ops.xor(old(state[k]), codec.load(Slice(block, k))) else old(state[k])
      {
        state[i] := codec.ops.xor(state[i], codec.load(block[8 * i..8 * i + 8]));
      }
    }

    /** One block into the state. */
    method AbsorbBlock(block: seq<byte>, ghost before: seq<byte>)
      requires state.Length == 25 && |block| == RATE && |before| % RATE == 0
      requires state[..] == AbsorbLanes(before, codec)
      modifies state
      ensures state[..] == AbsorbLanes(before + block, codec)
    {
      hide Fill;
      AbsorbSnoc(before, block, codec);
      FillState(block);
      Keccak.Permute(state, codec.ops);
    }

    /** `memcpy` into the partial block. */
    method Copy(at: nat, input: seq<byte>)
      requires partial.Length == RATE && at + |input| <= RATE
      modifies partial
      ensures partial[..] == old(partial[..at]) + input + old(partial[at + |input|..])
    {
      forall i | 0 <= i < |input| {
        partial[at + i] := input[i];
      }
    }

    /** `jent_sha3_update` */
    method Update(input: seq<byte>)
      requires Valid() && |message| + |input| < TWO64
      modifies this`msgLen, this`message, state, partial
      ensures Valid() && message == old(message) + input
    {
      hide AbsorbLanes;
      var part := msgLen % RATE;
      var rest := input;
      ghost var done := message[..Whole(|message|)];
      if part > 0 {
        var todo := RATE - part;
        if |rest| < todo {
          Buffer(rest);
          return;
        }
        CompleteBlock(rest[..todo]);
        done := message + rest[..todo];
        rest := rest[todo..];
      }
      msgLen := (msgLen + |input|) % TWO64;
      message := message + input;
      assert done + rest == message;
      AbsorbRest(rest, done);
    }

    /** Input that does not fill the partial block is left unprocessed in it. */
    method Buffer(input: seq<byte>)
      requires Valid() && msgLen % RATE + |input| < RATE && |message| + |input| < TWO64
      modifies this`msgLen, this`message, partial
      ensures Valid() && message == old(message) + input
    {
      hide AbsorbLanes;
      hide Whole;
      WholePart(msgLen);
      WholeStays(msgLen, |input|);
      var part := msgLen % RATE;
      ghost var w := Whole(msgLen);
      TailOfAppend(message, input, w);
      HeadOfCopy(partial[..part], input, partial[part + |input|..]);
      Copy(part, input);
      assert partial[..part + |input|] == partial[..][..part + |input|];
      msgLen := (msgLen + |input|) % TWO64;
      message := message + input;
    }

    /** Input that fills the partial block completes it and is absorbed with it. */
    method CompleteBlock(head: seq<byte>)
      requires Valid() && 0 < msgLen % RATE == RATE - |head|
      modifies state, partial
      ensures (|message| + |head|) % RATE == 0 && state[..] == AbsorbLanes(message + head, codec)
    {
      hide AbsorbLanes;
      ghost var done := message[..Whole(|message|)];
      Copy(msgLen % RATE, head);
      var block := partial[..];
      assert done + block == message + head;
      AbsorbBlock(block, done);
    }

    /** The loop of `jent_sha3_update` over whole blocks, and the copy of what is left. */
    method AbsorbRest(input: seq<byte>, ghost before: seq<byte>)
      requires state.Length == 25 && partial.Length == RATE && digestSize <= RATE
      requires |before| % RATE == 0 && state[..] == AbsorbLanes(before, codec)
      requires message == before + input && msgLen == |message| < TWO64
      modifies state, partial
      ensures Valid()
    {
      hide AbsorbLanes;
      var rest := input;
      ghost var done := before;
      while |rest| >= RATE
        modifies state
        invariant |done| % RATE == 0 && state[..] == AbsorbLanes(done, codec)
        invariant done + rest == message
      {
        AbsorbBlock(rest[..RATE], done);
        done := done + rest[..RATE];
        rest := rest[RATE..];
      }
      Copy(0, rest);
      WholeIs(|message|, |done|);
      assert done == message[..|done|] && rest == message[|done|..];
      assert partial[..|rest|] == rest;
    }

    /** The last block of `jent_sha3_final`: zeros, the leading and the trailing bit. */
    method PadPartial()
      requires Valid()
      modifies partial
      ensures partial[..] == message[Whole(|message|)..] + PadBytes(|message|, padding)
    {
      hide AbsorbLanes;
      hide Whole;
      hide PadBytes;
      WholePart(msgLen);
      var part := msgLen % RATE;
      ghost var tail, q := message[Whole(|message|)..], RATE - part;
      forall i | part <= i < RATE {
        partial[i] := 0;
      }
      assert partial[..] == partial[..part] + Zeros(q) == tail + Zeros(q);
      UpdateTail(tail, Zeros(q), part, padding);
      partial[part] := padding;
      ghost var first := Zeros(q)[0 := padding];
      assert partial[..] == tail + first;
      UpdateTail(tail, first, RATE - 1, first[q - 1] | 0x80);
      partial[RATE - 1] := partial[RATE - 1] | 0x80;
      PadShape(|message|, padding);
    }

    /** `jent_sha3_final` */
    method Final() returns (digest: seq<byte>)
      requires Valid()
      modifies this`msgLen, this`message, state, partial
      ensures Valid() && message == [] && partial[..] == Zeros(RATE)
      ensures digest == Digest(old(message), padding, digestSize, codec)
    {
      hide AbsorbLanes;
      hide PadBytes;
      PadPartial();
      ghost var done := message[..Whole(|message|)];
      var block := partial[..];
      assert done + block == Padded(message, padding);
      AbsorbBlock(block, done);
      digest := [];
      ghost var lanes := state[..];
      for i := 0 to digestSize / 8
        invariant digest == Emit(lanes, i, codec)
      {
        digest := digest + codec.store(state[i]);
      }
      forall i | 0 <= i < RATE {
        partial[i] := 0;
      }
      Init();
    }

    /** The pool this context holds. */
    ghost function Pool(): Pool
      reads this
    {
      EntropyPool.Pool(initiallySeeded, message)
    }

    /**
     `jent_xdrbg256_generate_block`: the pure generate step, the requested prefix handed out and
     the scratch block wiped.
     */
    method GenerateBlock(length: nat) returns (output: seq<byte>)
      requires Valid() && padding == Padding.SHAKE && Lawful(codec)
      requires |message| + 1 < TWO64 && scratch.Length == Xdrbg.STATE + Xdrbg.OUTPUT && scratch != partial
      modifies this, state, partial, scratch
      ensures Valid() && scratch[..] == Zeros(Xdrbg.STATE + Xdrbg.OUTPUT)
      ensures (output, Pool()) == Xdrbg.Generate(old(Pool()), length, codec)
    {
      hide AbsorbLanes;
      hide Xdrbg.Seeding;
      hide Xdrbg.Block;
      hide Lawful;
      var encode: byte := if initiallySeeded then 85 else 0;
      initiallySeeded := true;
      ghost var v := FinishSeeding(encode, old(Pool()));
      ghost var t := Expand(v);
      output := [];
      if length > 0 {
        var n := if length > Xdrbg.OUTPUT then Xdrbg.OUTPUT else length;
        output := scratch[Xdrbg.STATE..Xdrbg.STATE + n];
      }
      assert output == t[Xdrbg.STATE..Xdrbg.STATE + Xdrbg.Capped(length)];
      Update(scratch[..Xdrbg.STATE]);
      forall i | 0 <= i < scratch.Length {
        scratch[i] := 0;
      }
    }

    /** The first finalization of `jent_xdrbg256_generate_block`. */
    method FinishSeeding(encode: byte, ghost p: Pool) returns (ghost v: seq<byte>)
      requires Valid() && padding == Padding.SHAKE && Lawful(codec)
      requires |message| + 1 < TWO64 && scratch.Length == Xdrbg.STATE + Xdrbg.OUTPUT && scratch != partial
      requires message == p.pending && encode == if p.seeded then 85 else 0
      modifies this`msgLen, this`message, this`digestSize, state, partial, scratch
      ensures Valid() && message == []
      ensures v == Xdrbg.Seeding(p, codec) && scratch[..Xdrbg.STATE] == v
    {
      hide AbsorbLanes;
      hide Digest;
      Update([encode]);
      digestSize := Xdrbg.STATE;
      var digest := Final();
      v := Xdrbg.Seeding(p, codec);
      Fetch(digest);
    }

    /** The second finalization: the next state and the output. */
    method Expand(ghost v: seq<byte>) returns (ghost t: seq<byte>)
      requires Valid() && padding == Padding.SHAKE && Lawful(codec) && message == []
      requires scratch.Length == Xdrbg.STATE + Xdrbg.OUTPUT && scratch != partial
      requires |v| == Xdrbg.STATE && scratch[..Xdrbg.STATE] == v
      modifies this`msgLen, this`message, this`digestSize, state, partial, scratch
      ensures Valid() && message == []
      ensures t == Xdrbg.Block(v, codec) && scratch[..] == t
    {
      hide AbsorbLanes;
      hide Digest;
      Update(scratch[..Xdrbg.STATE]);
      Update([170]);
      digestSize := Xdrbg.STATE + Xdrbg.OUTPUT;
      var digest := Final();
      t := Xdrbg.Block(v, codec);
      Fetch(digest);
      assert scratch[..|t|] == scratch[..];
    }

    /** A digest written to the scratch block. */
    method Fetch(digest: seq<byte>)
      requires |digest| <= scratch.Length
      modifies scratch
      ensures scratch[..|digest|] == digest
    {
      forall i | 0 <= i < |digest| {
        scratch[i] := digest[i];
      }
    }
  }

  /**
   However a message is cut into updates, the digest is the sponge output over the padded
   message of the standard.
   */
  method HashPieces<T(!new)>(codec: Codec<T>, padding: byte, digestSize: nat, pieces: seq<seq<byte>>) returns (digest: seq<byte>)
    requires Lawful(codec) && digestSize <= RATE && digestSize % 8 == 0
    requires |Flat(pieces)| < TWO64
    ensures digest == AbsorbBytes(Padded(Flat(pieces), padding), codec)[..digestSize]
  {
    hide Lawful;
    hide AbsorbBytes;
    hide AbsorbLanes;
    hide Digest;
    var context := new ShaContext(codec, padding, digestSize);
    for i := 0 to |pieces|
      invariant context.Valid() && fresh(context) && fresh(context.state) && fresh(context.partial)
      invariant context.digestSize == digestSize && context.message == Flat(pieces[..i])
    {
      FlatGrows(pieces, i);
      context.Update(pieces[i]);
    }
    assert pieces[..|pieces|] == pieces;
    digest := context.Final();
    DigestIsSponge(Flat(pieces), padding, digestSize, codec);
  }

  /** The bytes that operations insert. */
  function Volume(ops: seq<Xdrbg.Operation>): nat {
    if ops == [] then 0 else (if ops[0].Insert? then |ops[0].data| else 0) + Volume(ops[1..])
  }

  ghost predicate Generator<T(!new)>(context: ShaContext<T>)
    reads context, context.state, context.partial
  {
    && context.Valid() && context.padding == Padding.SHAKE
    && context.scratch.Length == Xdrbg.STATE + Xdrbg.OUTPUT && context.scratch != context.partial
  }

  /** One operation on the pool that a context holds. */
  method Perform<T(!new)>(context: ShaContext<T>, op: Xdrbg.Operation) returns (out: seq<seq<byte>>)
    requires Generator(context) && Lawful(context.codec)
    requires |context.message| + 1 + (if op.Insert? then |op.data| else 0) < TWO64
    modifies context, context.state, context.partial, context.scratch
    ensures Generator(context)
    ensures op.Insert? ==> out == [] && context.Pool() == Absorb(old(context.Pool()), op.data)
    ensures op.Draw? ==>
      var g := Xdrbg.Generate(old(context.Pool()), op.length, context.codec);
      out == [g.0] && context.Pool() == g.1
  {
    hide Lawful;
    hide ShaContext.Valid;
    match op {
      case Insert(data) =>
        context.Update(data);
        out := [];
      case Draw(length) =>
        var output := context.GenerateBlock(length);
        out := [output];
    }
  }

  /**
   The in-place context through any interleaving of insertions and draws: it hands out what the
   pure recursion hands out, and holds its pool at the end.
   */
  method Drive<T(!new)>(context: ShaContext<T>, ops: seq<Xdrbg.Operation>) returns (outs: seq<seq<byte>>)
    requires Generator(context) && Lawful(context.codec)
    requires |context.message| + Xdrbg.STATE + Volume(ops) + 1 < TWO64
    modifies context, context.state, context.partial, context.scratch
    ensures Generator(context)
    ensures outs == Xdrbg.RunPool(old(context.Pool()), ops, context.codec).0
    ensures context.Pool() == Xdrbg.RunPool(old(context.Pool()), ops, context.codec).1
  {
    hide Lawful;
    hide ShaContext.Valid;
    hide Xdrbg.Generate;
    outs := [];
    for i := 0 to |ops|
      invariant Generator(context)
      invariant Volume(ops[i..]) <= Volume(ops)
      invariant |context.message| + Volume(ops[i..]) <= |old(context.message)| + Xdrbg.STATE + Volume(ops)
      invariant var rest := Xdrbg.RunPool(context.Pool(), ops[i..], context.codec);
        && Xdrbg.RunPool(old(context.Pool()), ops, context.codec).0 == outs + rest.0
        && Xdrbg.RunPool(old(context.Pool()), ops, context.codec).1 == rest.1
    {
      assert ops[i..][0] == ops[i] && ops[i..][1..] == ops[i + 1..];
      var more := Perform(context, ops[i]);
      ghost var rest := Xdrbg.RunPool(context.Pool(), ops[i + 1..], context.codec).0;
      assert outs + (more + rest) == outs + more + rest;
      assert more == [] ==> more + rest == rest;
      outs := outs + more;
    }
    assert ops[|ops|..] == [];
  }
}
