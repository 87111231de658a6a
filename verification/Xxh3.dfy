/**
 * XXH3 for long inputs: the one-shot hash and the streaming state, with the
 * arithmetic on stripes left open.
 */
module Xxh3 {
  import opened ByteStreams

  const STRIPE_LEN := 64
  const SECRET_CONSUME_RATE := 8
  const SECRET_LASTACC_START := 7
  const SECRET_SIZE_MIN := 136
  const SECRET_DEFAULT_SIZE := 192
  const MIDSIZE_MAX := 240
  const BUFFER_SIZE := 256
  const BUFFER_STRIPES := 4

  /** The parts that chunking does not touch: how a stripe is accumulated with the secret at some offset,
      how accumulators are scrambled, how they and the length become a digest, and the hash of short inputs. */
  datatype Core<!Acc, Digest> = Core(
    init: Acc,
    accumulate: (Acc, seq<Byte>, int) -> Acc,
    scramble: Acc -> Acc,
    finish: (Acc, nat) -> Digest,
    short: seq<Byte> -> Digest,
    stripesPerBlock: nat,
    lastOffset: int)
  {
    /** A full buffer never spans more than one block end. */
    predicate Valid() {
      stripesPerBlock >= BUFFER_STRIPES
    }
  }

  function SecretLimit(secretSize: int): int {
    secretSize - STRIPE_LEN
  }

  /** What reset derives from the secret. */
  function ForSecret<Acc, Digest>(init: Acc, accumulate: (Acc, seq<Byte>, int) -> Acc, scramble: Acc -> Acc,
                                  finish: (Acc, nat) -> Digest, short: seq<Byte> -> Digest, secretSize: nat): (c: Core<Acc, Digest>)
    requires secretSize >= STRIPE_LEN
  {
    Core(init, accumulate, scramble, finish, short, SecretLimit(secretSize) / SECRET_CONSUME_RATE,
         SecretLimit(secretSize) - SECRET_LASTACC_START)
  }

  /** The smallest secret has nine stripes to a block, so that one scramble per full buffer is enough. */
  lemma SecretsAreLongEnough<Acc, Digest>(c: Core<Acc, Digest>, secretSize: nat)
    requires secretSize >= SECRET_SIZE_MIN
    requires c == ForSecret(c.init, c.accumulate, c.scramble, c.finish, c.short, secretSize)
    ensures c.Valid() && c.stripesPerBlock >= 9
  {
  }

  // ---- Lengths ------------------------------------------------------------------------------------

  /** The whole stripes among n bytes. */
  function WholeStripes(n: nat): (r: nat)
    ensures r <= n < r + STRIPE_LEN
  {
    if n < STRIPE_LEN then 0 else STRIPE_LEN + WholeStripes(n - STRIPE_LEN)
  }

  /** The whole buffers among n bytes. */
  function WholeBuffers(n: nat): (r: nat)
    ensures r <= n < r + BUFFER_SIZE
  {
    if n < BUFFER_SIZE then 0 else BUFFER_SIZE + WholeBuffers(n - BUFFER_SIZE)
  }

  lemma {:induction false} WholeStripesIsDiv(n: nat)
    ensures WholeStripes(n) == n / STRIPE_LEN * STRIPE_LEN == n - n % STRIPE_LEN
  {
    if n >= STRIPE_LEN {
      WholeStripesIsDiv(n - STRIPE_LEN);
      assert n / STRIPE_LEN == (n - STRIPE_LEN) / STRIPE_LEN + 1;
    }
  }

  lemma {:induction false} StripesAdd(a: nat, b: nat)
    requires WholeStripes(a) == a
    ensures WholeStripes(a + b) == a + WholeStripes(b)
  {
    if a > 0 {
      StripesAdd(a - STRIPE_LEN, b);
    }
  }

  lemma {:induction false} BuffersAdd(a: nat, b: nat)
    requires WholeBuffers(a) == a
    ensures WholeBuffers(a + b) == a + WholeBuffers(b)
  {
    if a > 0 {
      BuffersAdd(a - BUFFER_SIZE, b);
    }
  }

  lemma {:induction false} BuffersAreWhole(n: nat)
    ensures WholeBuffers(WholeBuffers(n)) == WholeBuffers(n)
  {
    if n >= BUFFER_SIZE { BuffersAreWhole(n - BUFFER_SIZE); }
  }

  lemma {:induction false} StripesAreWhole(n: nat)
    ensures WholeStripes(WholeStripes(n)) == WholeStripes(n)
  {
    if n >= STRIPE_LEN { StripesAreWhole(n - STRIPE_LEN); }
  }

  lemma {:induction false} BuffersAreStripes(n: nat)
    requires WholeBuffers(n) == n
    ensures WholeStripes(n) == n
  {
    if n > 0 {
      BuffersAreStripes(n - BUFFER_SIZE);
      assert WholeStripes(STRIPE_LEN) == STRIPE_LEN;
      StripesAdd(STRIPE_LEN, STRIPE_LEN);
      StripesAdd(2 * STRIPE_LEN, 2 * STRIPE_LEN);
      StripesAdd(BUFFER_SIZE, n - BUFFER_SIZE);
    }
  }

  /** n stripes. */
  function Stripes(n: nat): (r: nat)
    ensures r == n * STRIPE_LEN && WholeStripes(r) == r
  {
    if n == 0 then 0 else STRIPE_LEN + Stripes(n - 1)
  }

  // ---- One stripe after the other ---------------------------------------------------------------

  /** Whole stripes, with a scramble at the end of every block; also how many stripes of the current
      block are done. */
  function Fold<Acc, Digest>(core: Core<Acc, Digest>, acc: Acc, soFar: nat, bytes: seq<Byte>): (r: (Acc, nat))
    requires core.Valid() && soFar < core.stripesPerBlock
    ensures r.1 < core.stripesPerBlock
    decreases |bytes|
  {
    if |bytes| < STRIPE_LEN then (acc, soFar)
    else
      var acc1 := core.accumulate(acc, bytes[..STRIPE_LEN], soFar * SECRET_CONSUME_RATE);
      if soFar + 1 == core.stripesPerBlock then Fold(core, core.scramble(acc1), 0, bytes[STRIPE_LEN..])
      else Fold(core, acc1, soFar + 1, bytes[STRIPE_LEN..])
  }

  /** accumulate: whole stripes without a scramble, from a given stripe of the block on. */
  function Accumulate<Acc, Digest>(core: Core<Acc, Digest>, acc: Acc, soFar: nat, bytes: seq<Byte>): Acc
    decreases |bytes|
  {
    if |bytes| < STRIPE_LEN then acc
    else
      Accumulate(core, core.accumulate(acc, bytes[..STRIPE_LEN], soFar * SECRET_CONSUME_RATE), soFar + 1, bytes[STRIPE_LEN..])
  }

  lemma {:induction false} FoldConcat<Acc, Digest>(core: Core<Acc, Digest>, acc: Acc, soFar: nat, a: seq<Byte>, b: seq<Byte>)
    requires core.Valid() && soFar < core.stripesPerBlock && WholeStripes(|a|) == |a|
    ensures Fold(core, acc, soFar, a + b) ==
            (var r := Fold(core, acc, soFar, a); Fold(core, r.0, r.1, b))
    decreases |a|
  {
    if a == [] {
      assert a + b == b;
    } else {
      var acc1 := core.accumulate(acc, a[..STRIPE_LEN], soFar * SECRET_CONSUME_RATE);
      assert (a + b)[..STRIPE_LEN] == a[..STRIPE_LEN];
      assert (a + b)[STRIPE_LEN..] == a[STRIPE_LEN..] + b;
      if soFar + 1 == core.stripesPerBlock {
        FoldConcat(core, core.scramble(acc1), 0, a[STRIPE_LEN..], b);
      } else {
        FoldConcat(core, acc1, soFar + 1, a[STRIPE_LEN..], b);
      }
    }
  }

  /** n stripes that do not complete the block. */
  lemma {:induction false} FoldInBlock<Acc, Digest>(core: Core<Acc, Digest>, acc: Acc, soFar: nat, bytes: seq<Byte>, n: nat)
    requires core.Valid() && |bytes| == Stripes(n) && soFar + n < core.stripesPerBlock
    ensures Fold(core, acc, soFar, bytes) == (Accumulate(core, acc, soFar, bytes), soFar + n)
    decreases n
  {
    if n > 0 {
      FoldInBlock(core, core.accumulate(acc, bytes[..STRIPE_LEN], soFar * SECRET_CONSUME_RATE), soFar + 1, bytes[STRIPE_LEN..], n - 1);
    }
  }

  /** n stripes that complete the block exactly. */
  lemma {:induction false} FoldToBlockEnd<Acc, Digest>(core: Core<Acc, Digest>, acc: Acc, soFar: nat, bytes: seq<Byte>, n: nat)
    requires core.Valid() && |bytes| == Stripes(n) && soFar < core.stripesPerBlock == soFar + n
    ensures Fold(core, acc, soFar, bytes) == (core.scramble(Accumulate(core, acc, soFar, bytes)), 0)
    decreases n
  {
    var acc1 := core.accumulate(acc, bytes[..STRIPE_LEN], soFar * SECRET_CONSUME_RATE);
    if n > 1 {
      FoldToBlockEnd(core, acc1, soFar + 1, bytes[STRIPE_LEN..], n - 1);
    } else {
      assert Stripes(0) == 0;
      assert bytes[STRIPE_LEN..] == [];
    }
  }

  /** Stripes that reach the end of the block, n before it and the others behind it. */
  lemma FoldAcross<Acc, Digest>(core: Core<Acc, Digest>, acc: Acc, soFar: nat, input: seq<Byte>, n: nat, total: nat)
    requires core.Valid() && |input| == Stripes(total) && n <= total <= core.stripesPerBlock && 0 < n && soFar + n == core.stripesPerBlock
    ensures Stripes(n) <= |input| && Stripes(total - n) == |input[Stripes(n)..]|
    ensures Fold(core, acc, soFar, input)
         == (Accumulate(core, core.scramble(Accumulate(core, acc, soFar, input[..Stripes(n)])), 0, input[Stripes(n)..][..Stripes(total - n)]), total - n)
  {
    StripesMonotone(n, total);
    var first, second := input[..Stripes(n)], input[Stripes(n)..];
    assert first + second == input;
    FoldConcat(core, acc, soFar, first, second);
    FoldToBlockEnd(core, acc, soFar, first, n);
    FoldInBlock(core, core.scramble(Accumulate(core, acc, soFar, first)), 0, second, total - n);
    assert second[..Stripes(total - n)] == second;
  }

  // ---- One-shot ---------------------------------------------------------------------------------------

  function AccumulateLast<Acc, Digest>(core: Core<Acc, Digest>, acc: Acc, stripe: seq<Byte>): Acc {
    core.accumulate(acc, stripe, core.lastOffset)
  }

  /** The accumulators of a long input: its whole stripes, and its last 64 bytes again when it does not
      end with a whole stripe. */
  function LongAcc<Acc, Digest>(core: Core<Acc, Digest>, input: seq<Byte>): Acc
    requires core.Valid() && |input| > MIDSIZE_MAX
  {
    var acc := Fold(core, core.init, 0, input[..WholeStripes(|input|)]).0;
    if WholeStripes(|input|) != |input| then AccumulateLast(core, acc, input[|input| - STRIPE_LEN..]) else acc
  }

  /** xxhash3_impl */
  function OneShot<Acc, Digest>(core: Core<Acc, Digest>, input: seq<Byte>): Digest
    requires core.Valid()
  {
    if |input| <= MIDSIZE_MAX then core.short(input) else core.finish(LongAcc(core, input), |input|)
  }

  lemma {:induction false} AccumulateMore<Acc, Digest>(core: Core<Acc, Digest>, acc: Acc, soFar: nat, a: seq<Byte>, n: nat, stripe: seq<Byte>)
    requires |a| == Stripes(n) && |stripe| == STRIPE_LEN
    ensures Accumulate(core, acc, soFar, a + stripe)
         == core.accumulate(Accumulate(core, acc, soFar, a), stripe, (soFar + n) * SECRET_CONSUME_RATE)
    decreases n
  {
    if n == 0 {
      assert a + stripe == stripe && stripe[..STRIPE_LEN] == stripe && stripe[STRIPE_LEN..] == [];
    } else {
      assert (a + stripe)[..STRIPE_LEN] == a[..STRIPE_LEN];
      assert (a + stripe)[STRIPE_LEN..] == a[STRIPE_LEN..] + stripe;
      AccumulateMore(core, core.accumulate(acc, a[..STRIPE_LEN], soFar * SECRET_CONSUME_RATE), soFar + 1, a[STRIPE_LEN..], n - 1, stripe);
    }
  }

  /** accumulate as the loop it is. */
  method AccumulateLoop<Acc, Digest>(core: Core<Acc, Digest>, acc0: Acc, input: seq<Byte>, soFar: nat, nbStripes: nat) returns (acc: Acc)
    requires Stripes(nbStripes) <= |input|
    ensures acc == Accumulate(core, acc0, soFar, input[..Stripes(nbStripes)])
  {
    acc := acc0;
    var n := 0;
    while n < nbStripes
      invariant 0 <= n <= nbStripes && Stripes(n) <= |input|
      invariant acc == Accumulate(core, acc0, soFar, input[..Stripes(n)])
    {
      StripesMonotone(n + 1, nbStripes);
      var at := n * STRIPE_LEN;
      var stripe := input[at..at + STRIPE_LEN];
      AccumulateMore(core, acc0, soFar, input[..Stripes(n)], n, stripe);
      assert input[..Stripes(n)] + stripe == input[..Stripes(n + 1)];
      acc := core.accumulate(acc, stripe, (soFar + n) * SECRET_CONSUME_RATE);
      n := n + 1;
    }
  }

  lemma {:induction false} StripesMonotone(m: nat, n: nat)
    requires m <= n
    ensures Stripes(m) <= Stripes(n) && Stripes(m) + Stripes(n - m) == Stripes(n)
  {
    if m > 0 { StripesMonotone(m - 1, n - 1); }
  }

  /** n blocks of k stripes. */
  function BlockStripes(n: nat, k: nat): nat {
    if n == 0 then 0 else k + BlockStripes(n - 1, k)
  }

  /** hash_long_internal_loop: block after block, then the partial block, then the last stripe. */
  method HashLongLoop<Acc, Digest>(core: Core<Acc, Digest>, input: seq<Byte>) returns (acc: Acc)
    requires core.Valid() && |input| > MIDSIZE_MAX
    ensures acc == LongAcc(core, input)
  {
    var blockLen := STRIPE_LEN * core.stripesPerBlock;
    var nbBlocks := |input| / blockLen;
    BlocksFit(nbBlocks, nbBlocks, |input|, core.stripesPerBlock);
    var at;
    ghost var done;
    acc, at, done := HashBlocks(core, input, nbBlocks);
    var nbStripes := (|input| - at) / STRIPE_LEN;
    RestIsPartial(|input|, nbBlocks, core.stripesPerBlock, at, done);
    PartialStep(core, input, at, acc, nbStripes, Stripes(nbStripes));
    acc := AccumulateLoop(core, acc, input[at..], 0, nbStripes);
    WholeStripesIsDiv(|input|);
    if |input| % STRIPE_LEN != 0 {
      acc := core.accumulate(acc, input[|input| - STRIPE_LEN..], core.lastOffset);
    }
  }

  /** The whole blocks, each followed by a scramble. */
  method HashBlocks<Acc, Digest>(core: Core<Acc, Digest>, input: seq<Byte>, nbBlocks: nat) returns (acc: Acc, at: nat, ghost done: nat)
    requires core.Valid() && Stripes(BlockStripes(nbBlocks, core.stripesPerBlock)) <= |input|
    ensures done == BlockStripes(nbBlocks, core.stripesPerBlock) && at == Stripes(done) <= |input|
    ensures Fold(core, core.init, 0, input[..at]) == (acc, 0)
  {
    var nbRounds := core.stripesPerBlock;
    acc := core.init;
    var n := 0;
    at, done := 0, 0;
    assert input[..0] == [];
    while n < nbBlocks
      invariant 0 <= n <= nbBlocks && done == BlockStripes(n, nbRounds) && at == Stripes(done) <= |input|
      invariant Fold(core, core.init, 0, input[..at]) == (acc, 0)
    {
      NextBlock(n, nbBlocks, |input|, nbRounds, done, at);
      acc := HashBlock(core, input, done, at, acc);
      n := n + 1;
      at := at + STRIPE_LEN * nbRounds;
      done := done + nbRounds;
    }
  }

  /** One whole block and its scramble. */
  method HashBlock<Acc, Digest>(core: Core<Acc, Digest>, input: seq<Byte>, ghost done: nat, at: nat, acc0: Acc) returns (acc: Acc)
    requires core.Valid() && at == Stripes(done) <= |input| && Stripes(done + core.stripesPerBlock) <= |input|
    requires Fold(core, core.init, 0, input[..at]) == (acc0, 0)
    ensures Fold(core, core.init, 0, input[..Stripes(done + core.stripesPerBlock)]) == (acc, 0)
  {
    BlockStep(core, input, done, acc0);
    acc := AccumulateLoop(core, acc0, input[at..], 0, core.stripesPerBlock);
    acc := core.scramble(acc);
  }

  lemma StripesOfBlock(done: nat, k: nat)
    ensures Stripes(done + k) == Stripes(done) + STRIPE_LEN * k
  {
  }

  lemma {:induction false} NextBlockFits(n: nat, blocks: nat, len: nat, k: nat)
    requires n < blocks && Stripes(BlockStripes(blocks, k)) <= len
    ensures BlockStripes(n + 1, k) == BlockStripes(n, k) + k && Stripes(BlockStripes(n, k) + k) <= len
    decreases blocks
  {
    if n + 1 < blocks {
      StripesMonotone(BlockStripes(blocks - 1, k), BlockStripes(blocks, k));
      NextBlockFits(n, blocks - 1, len, k);
    }
  }

  lemma NextBlock(n: nat, blocks: nat, len: nat, k: nat, done: nat, at: nat)
    requires n < blocks && Stripes(BlockStripes(blocks, k)) <= len && done == BlockStripes(n, k) && at == Stripes(done)
    ensures BlockStripes(n + 1, k) == done + k && Stripes(done + k) == at + STRIPE_LEN * k <= len
  {
    NextBlockFits(n, blocks, len, k);
    StripesOfBlock(done, k);
  }

  lemma RestIsPartial(len: nat, blocks: nat, k: nat, at: nat, done: nat)
    requires k > 0 && blocks == len / (STRIPE_LEN * k) && done == BlockStripes(blocks, k) && at == Stripes(done) <= len
    ensures (len - at) / STRIPE_LEN < k && at + Stripes((len - at) / STRIPE_LEN) == WholeStripes(len)
  {
    PartialBlock(len, blocks, k);
  }

  lemma {:induction false} BlockLength(n: nat, k: nat)
    ensures Stripes(BlockStripes(n, k)) == n * (STRIPE_LEN * k)
  {
    if n > 0 {
      BlockLength(n - 1, k);
      StripesMonotone(k, BlockStripes(n, k));
      assert n * (STRIPE_LEN * k) == (n - 1) * (STRIPE_LEN * k) + STRIPE_LEN * k;
    }
  }

  /** The first n blocks lie within the input. */
  lemma BlocksFit(n: nat, blocks: nat, len: nat, k: nat)
    requires k > 0 && blocks == len / (STRIPE_LEN * k) && n <= blocks
    ensures Stripes(BlockStripes(n, k)) == n * (STRIPE_LEN * k) <= len
  {
    BlockLength(n, k);
    ProductBelow(n, blocks, STRIPE_LEN * k, len);
  }

  lemma ProductBelow(n: nat, m: nat, d: nat, len: nat)
    requires d > 0 && m == len / d && n <= m
    ensures n * d <= len
  {
    assert n * d <= m * d;
    assert m * d <= len;
  }

  /** What is left after the blocks is less than a block. */
  lemma PartialBlock(len: nat, blocks: nat, k: nat)
    requires k > 0 && blocks == len / (STRIPE_LEN * k)
    ensures Stripes(BlockStripes(blocks, k)) == blocks * (STRIPE_LEN * k) <= len
    ensures var n := (len - blocks * (STRIPE_LEN * k)) / STRIPE_LEN;
            n < k && Stripes(BlockStripes(blocks, k)) + Stripes(n) == WholeStripes(len)
  {
    BlocksFit(blocks, blocks, len, k);
    RemainderBelow(len, blocks, STRIPE_LEN * k);
    StripesBehind(len, Stripes(BlockStripes(blocks, k)), k);
  }

  lemma StripesBehind(len: nat, at: nat, k: nat)
    requires at <= len && len - at < STRIPE_LEN * k && WholeStripes(at) == at
    ensures var n := (len - at) / STRIPE_LEN; n < k && at + Stripes(n) == WholeStripes(len)
  {
    StripesAdd(at, len - at);
    WholeStripesIsDiv(len - at);
  }

  lemma RemainderBelow(len: nat, m: nat, d: nat)
    requires d > 0 && m == len / d
    ensures len - m * d < d
  {
  }

  /** One whole block. */
  lemma BlockStep<Acc, Digest>(core: Core<Acc, Digest>, input: seq<Byte>, done: nat, acc: Acc)
    requires core.Valid() && Stripes(done + core.stripesPerBlock) <= |input|
    requires Stripes(done) <= |input| && Fold(core, core.init, 0, input[..Stripes(done)]) == (acc, 0)
    ensures Stripes(done) + Stripes(core.stripesPerBlock) == Stripes(done + core.stripesPerBlock)
    ensures Fold(core, core.init, 0, input[..Stripes(done + core.stripesPerBlock)])
         == (core.scramble(Accumulate(core, acc, 0, input[Stripes(done)..][..Stripes(core.stripesPerBlock)])), 0)
  {
    StripesMonotone(done, done + core.stripesPerBlock);
    var a, k := Stripes(done), Stripes(core.stripesPerBlock);
    SliceFolds(core, input, a, k, acc);
    FoldToBlockEnd(core, acc, 0, input[a..][..k], core.stripesPerBlock);
  }

  /** The n stripes of the last, partial block, k bytes from a on. */
  lemma PartialStep<Acc, Digest>(core: Core<Acc, Digest>, input: seq<Byte>, a: nat, acc: Acc, n: nat, k: nat)
    requires core.Valid() && a + k <= |input| && k == Stripes(n) && n < core.stripesPerBlock && WholeStripes(a) == a
    requires Fold(core, core.init, 0, input[..a]) == (acc, 0)
    ensures Fold(core, core.init, 0, input[..a + k]).0 == Accumulate(core, acc, 0, input[a..][..k])
  {
    SliceFolds(core, input, a, k, acc);
    FoldInBlock(core, acc, 0, input[a..][..k], n);
  }

  lemma SliceFolds<Acc, Digest>(core: Core<Acc, Digest>, input: seq<Byte>, a: nat, k: nat, acc: Acc)
    requires core.Valid() && a + k <= |input| && WholeStripes(a) == a && Fold(core, core.init, 0, input[..a]) == (acc, 0)
    ensures Fold(core, core.init, 0, input[..a + k]) == Fold(core, acc, 0, input[a..][..k])
  {
    FoldConcat(core, core.init, 0, input[..a], input[a..][..k]);
    assert input[..a] + input[a..][..k] == input[..a + k];
  }

  // ---- Streaming, on values ------------------------------------------------------------------------------

  /** The fields of hash3_state_t that change. */
  datatype State<Acc> = State(acc: Acc, soFar: nat, buffer: seq<Byte>, buffered: nat, total: nat)

  function Reset<Acc, Digest>(core: Core<Acc, Digest>): State<Acc> {
    State(core.init, 0, seq(BUFFER_SIZE, i => 0 as Byte), 0, 0)
  }

  ghost predicate Proper<Acc, Digest>(core: Core<Acc, Digest>, s: State<Acc>) {
    core.Valid() && s.soFar < core.stripesPerBlock && |s.buffer| == BUFFER_SIZE && s.buffered <= BUFFER_SIZE
  }

  function Store(buffer: seq<Byte>, at: nat, x: seq<Byte>): (r: seq<Byte>)
    requires at + |x| <= |buffer|
    ensures |r| == |buffer|
  {
    buffer[..at] + x + buffer[at + |x|..]
  }

  /** memcpy into the buffer. */
  function Append<Acc, Digest>(core: Core<Acc, Digest>, s: State<Acc>, x: seq<Byte>): (r: State<Acc>)
    requires Proper(core, s) && s.buffered + |x| <= BUFFER_SIZE
    ensures Proper(core, r)
  {
    State(s.acc, s.soFar, Store(s.buffer, s.buffered, x), s.buffered + |x|, s.total + |x|)
  }

  /** Fills the buffer and consumes it. */
  function TopUp<Acc, Digest>(core: Core<Acc, Digest>, s: State<Acc>, y: seq<Byte>): (r: State<Acc>)
    requires Proper(core, s) && s.buffered + |y| == BUFFER_SIZE
    ensures Proper(core, r) && r.buffered == 0
  {
    var filled := s.buffer[..s.buffered] + y;
    var a := Fold(core, s.acc, s.soFar, filled);
    State(a.0, a.1, filled, 0, s.total + |y|)
  }

  /** Consumes whole buffers straight from the input; the buffer stays as it is. */
  function Bulk<Acc, Digest>(core: Core<Acc, Digest>, s: State<Acc>, blocks: seq<Byte>): (r: State<Acc>)
    requires Proper(core, s) && s.buffered == 0
    ensures Proper(core, r) && r.buffered == 0
  {
    var a := Fold(core, s.acc, s.soFar, blocks);
    State(a.0, a.1, s.buffer, 0, s.total + |blocks|)
  }

  /** What an overflowing update does once the buffer is empty. */
  function Drain<Acc, Digest>(core: Core<Acc, Digest>, s: State<Acc>, rest: seq<Byte>): (r: State<Acc>)
    requires Proper(core, s) && s.buffered == 0
    ensures Proper(core, r)
  {
    var bulk := WholeBuffers(|rest|);
    Append(core, Bulk(core, s, rest[..bulk]), rest[bulk..])
  }

  /** update_impl */
  function Update<Acc, Digest>(core: Core<Acc, Digest>, s: State<Acc>, x: seq<Byte>): (r: State<Acc>)
    requires Proper(core, s)
    ensures Proper(core, r)
  {
    if s.buffered + |x| <= BUFFER_SIZE then Append(core, s, x)
    else if s.buffered > 0 then
      var load := BUFFER_SIZE - s.buffered;
      Drain(core, TopUp(core, s, x[..load]), x[load..])
    else Drain(core, s, x)
  }

  /** The stripe that digest_long puts together when fewer than 64 bytes are buffered. */
  function LastStripe(buffer: seq<Byte>, buffered: nat): (r: seq<Byte>)
    requires |buffer| == BUFFER_SIZE && buffered < STRIPE_LEN
    ensures |r| == STRIPE_LEN
  {
    buffer[BUFFER_SIZE - (STRIPE_LEN - buffered)..] + buffer[..buffered]
  }

  /** digest_long */
  function DigestAcc<Acc, Digest>(core: Core<Acc, Digest>, s: State<Acc>): Acc
    requires Proper(core, s)
  {
    if s.buffered >= STRIPE_LEN then
      var acc := Fold(core, s.acc, s.soFar, s.buffer[..WholeStripes(s.buffered)]).0;
      if WholeStripes(s.buffered) != s.buffered then AccumulateLast(core, acc, s.buffer[s.buffered - STRIPE_LEN..s.buffered]) else acc
    else if s.buffered > 0 then AccumulateLast(core, s.acc, LastStripe(s.buffer, s.buffered))
    else s.acc
  }

  /** digest */
  function DigestOf<Acc, Digest>(core: Core<Acc, Digest>, s: State<Acc>): Digest
    requires Proper(core, s)
  {
    if s.total > MIDSIZE_MAX then core.finish(DigestAcc(core, s), s.total) else core.short(s.buffer[..s.total])
  }

  function Run<Acc, Digest>(core: Core<Acc, Digest>, chunks: seq<seq<Byte>>): (r: State<Acc>)
    requires core.Valid()
    ensures Proper(core, r)
  {
    if chunks == [] then Reset(core) else Update(core, Run(core, chunks[..|chunks| - 1]), chunks[|chunks| - 1])
  }
}
