/** Streaming XXH3 against the one-shot hash, for every way of cutting the input. */
module Xxh3Streaming {
  import opened ByteStreams
  import opened Xxh3

  // ---- The shape of a run ---------------------------------------------------------------------

  /** Lengths only; bulk says that the last bytes consumed never went through the buffer. */
  datatype Shape = Shape(total: nat, buffered: nat, bulk: bool)

  function DrainShape(s: Shape, n: nat): Shape {
    Shape(s.total + n, n - WholeBuffers(n), s.bulk || WholeBuffers(n) > 0)
  }

  function StepShape(s: Shape, n: nat): Shape {
    if s.buffered + n <= BUFFER_SIZE then Shape(s.total + n, s.buffered + n, s.bulk)
    else if 0 < s.buffered <= BUFFER_SIZE then
      var load := BUFFER_SIZE - s.buffered;
      DrainShape(Shape(s.total + load, 0, false), n - load)
    else DrainShape(s, n)
  }

  function RunShape(lengths: seq<nat>): Shape {
    if lengths == [] then Shape(0, 0, false) else StepShape(RunShape(lengths[..|lengths| - 1]), lengths[|lengths| - 1])
  }

  function Lengths(chunks: seq<seq<Byte>>): (r: seq<nat>)
    ensures |r| == |chunks| && forall i :: 0 <= i < |r| ==> r[i] == |chunks[i]|
  {
    seq(|chunks|, i requires 0 <= i < |chunks| => |chunks[i]|)
  }

  /** digest rebuilds the last stripe from a buffer tail that is out of date. */
  predicate Stale(s: Shape) {
    s.bulk && 0 < s.buffered < STRIPE_LEN
  }

  // ---- What every update keeps --------------------------------------------------------------------

  /** The input so far: what is consumed and what is pending in the buffer; the rest of the buffer; and,
      unless the last bytes consumed came straight from the input, the buffer full that was consumed last
      and what was consumed before it. */
  datatype Pieces = Pieces(consumed: seq<Byte>, pending: seq<Byte>, junk: seq<Byte>, bulk: bool, before: seq<Byte>, last: seq<Byte>)

  /** The rest of the buffer still holds the end of the last buffer full. */
  ghost predicate TailHolds(p: Pieces) {
    && p.consumed == p.before + p.last && |p.last| == BUFFER_SIZE
    && |p.pending| <= BUFFER_SIZE && p.junk == p.last[|p.pending|..]
  }

  ghost predicate Inv<Acc, Digest>(core: Core<Acc, Digest>, s: State<Acc>, p: Pieces) {
    && core.Valid() && (s.acc, s.soFar) == Fold(core, core.init, 0, p.consumed)
    && s.buffer == p.pending + p.junk && |p.pending| + |p.junk| == BUFFER_SIZE
    && s.buffered == |p.pending| && s.total == |p.consumed| + |p.pending|
    && WholeBuffers(|p.consumed|) == |p.consumed|
    && (p.bulk ==> |p.consumed| >= BUFFER_SIZE)
    && (!p.bulk && p.consumed != [] ==> TailHolds(p))
  }

  function AppendPieces(p: Pieces, x: seq<Byte>): Pieces
    requires |x| <= |p.junk|
  {
    Pieces(p.consumed, p.pending + x, p.junk[|x|..], p.bulk, p.before, p.last)
  }

  function TopUpPieces(p: Pieces, y: seq<Byte>): Pieces {
    Pieces(p.consumed + (p.pending + y), [], p.pending + y, false, p.consumed, p.pending + y)
  }

  function BulkPieces(p: Pieces, blocks: seq<Byte>): Pieces {
    if blocks == [] then p else Pieces(p.consumed + blocks, [], p.junk, true, [], [])
  }

  lemma AppendInv<Acc, Digest>(core: Core<Acc, Digest>, s: State<Acc>, p: Pieces, x: seq<Byte>)
    requires Inv(core, s, p) && Proper(core, s) && s.buffered + |x| <= BUFFER_SIZE
    ensures Inv(core, Append(core, s, x), AppendPieces(p, x))
  {
    StoreAfter(p.pending, p.junk, x);
    if !p.bulk && p.consumed != [] {
      DropMore(p.last, |p.pending|, x);
    }
  }

  lemma StoreAfter(a: seq<Byte>, b: seq<Byte>, x: seq<Byte>)
    requires |x| <= |b|
    ensures Store(a + b, |a|, x) == (a + x) + b[|x|..]
  {
    assert (a + b)[..|a|] == a && (a + b)[|a| + |x|..] == b[|x|..];
  }

  lemma DropMore(last: seq<Byte>, n: nat, x: seq<Byte>)
    requires n + |x| <= |last|
    ensures last[n..][|x|..] == last[n + |x|..]
  {
  }

  lemma TopUpInv<Acc, Digest>(core: Core<Acc, Digest>, s: State<Acc>, p: Pieces, y: seq<Byte>)
    requires Inv(core, s, p) && Proper(core, s) && s.buffered + |y| == BUFFER_SIZE
    ensures Inv(core, TopUp(core, s, y), TopUpPieces(p, y))
  {
    assert (p.pending + p.junk)[..|p.pending|] == p.pending;
    assert WholeBuffers(BUFFER_SIZE) == BUFFER_SIZE;
    FoldMore(core, s.acc, s.soFar, p.consumed, p.pending + y);
    assert [] + (p.pending + y) == p.pending + y;
    assert (p.pending + y)[0..] == p.pending + y;
  }

  lemma BulkInv<Acc, Digest>(core: Core<Acc, Digest>, s: State<Acc>, p: Pieces, blocks: seq<Byte>)
    requires Inv(core, s, p) && Proper(core, s) && s.buffered == 0 && WholeBuffers(|blocks|) == |blocks|
    ensures Inv(core, Bulk(core, s, blocks), BulkPieces(p, blocks))
  {
    assert p.pending == [];
    if blocks != [] {
      FoldMore(core, s.acc, s.soFar, p.consumed, blocks);
    }
  }

  /** Whole buffers consumed after whole buffers. */
  lemma FoldMore<Acc, Digest>(core: Core<Acc, Digest>, acc: Acc, soFar: nat, consumed: seq<Byte>, blocks: seq<Byte>)
    requires core.Valid() && (acc, soFar) == Fold(core, core.init, 0, consumed) && soFar < core.stripesPerBlock
    requires WholeBuffers(|consumed|) == |consumed| && WholeBuffers(|blocks|) == |blocks|
    ensures Fold(core, core.init, 0, consumed + blocks) == Fold(core, acc, soFar, blocks)
    ensures WholeBuffers(|consumed + blocks|) == |consumed + blocks|
  {
    BuffersAreStripes(|consumed|);
    FoldConcat(core, core.init, 0, consumed, blocks);
    BuffersAdd(|consumed|, |blocks|);
  }

  function DrainPieces(p: Pieces, rest: seq<Byte>): Pieces
    requires |p.junk| == BUFFER_SIZE
  {
    var bulk := WholeBuffers(|rest|);
    AppendPieces(BulkPieces(p, rest[..bulk]), rest[bulk..])
  }

  lemma DrainInv<Acc, Digest>(core: Core<Acc, Digest>, s: State<Acc>, p: Pieces, rest: seq<Byte>)
    requires Inv(core, s, p) && Proper(core, s) && s.buffered == 0
    ensures |p.junk| == BUFFER_SIZE && Inv(core, Drain(core, s, rest), DrainPieces(p, rest))
  {
    var blocks, rem := rest[..WholeBuffers(|rest|)], rest[WholeBuffers(|rest|)..];
    BuffersAreWhole(|rest|);
    BulkInv(core, s, p, blocks);
    AppendInv(core, Bulk(core, s, blocks), BulkPieces(p, blocks), rem);
  }

  function StepPieces(p: Pieces, x: seq<Byte>): Pieces
    requires |p.pending| + |p.junk| == BUFFER_SIZE
  {
    if |p.pending| + |x| <= BUFFER_SIZE then AppendPieces(p, x)
    else if |p.pending| > 0 then
      var load := BUFFER_SIZE - |p.pending|;
      DrainPieces(TopUpPieces(p, x[..load]), x[load..])
    else DrainPieces(p, x)
  }

  lemma UpdateInv<Acc, Digest>(core: Core<Acc, Digest>, s: State<Acc>, p: Pieces, x: seq<Byte>)
    requires Inv(core, s, p) && Proper(core, s)
    ensures Inv(core, Update(core, s, x), StepPieces(p, x))
  {
    if s.buffered + |x| <= BUFFER_SIZE {
      AppendInv(core, s, p, x);
    } else if s.buffered > 0 {
      var load := BUFFER_SIZE - s.buffered;
      TopUpInv(core, s, p, x[..load]);
      DrainInv(core, TopUp(core, s, x[..load]), TopUpPieces(p, x[..load]), x[load..]);
    } else {
      DrainInv(core, s, p, x);
    }
  }

  /** The pieces make up the input. */
  function Whole(p: Pieces): seq<Byte> {
    p.consumed + p.pending
  }

  function ShapeOf(p: Pieces): Shape {
    Shape(|p.consumed| + |p.pending|, |p.pending|, p.bulk)
  }

  lemma DrainWhole(p: Pieces, rest: seq<Byte>)
    requires |p.junk| == BUFFER_SIZE && p.pending == []
    ensures Whole(DrainPieces(p, rest)) == Whole(p) + rest
    ensures ShapeOf(DrainPieces(p, rest)) == DrainShape(ShapeOf(p), |rest|)
    ensures |DrainPieces(p, rest).pending| + |DrainPieces(p, rest).junk| == BUFFER_SIZE
  {
    assert rest[..WholeBuffers(|rest|)] + rest[WholeBuffers(|rest|)..] == rest;
  }

  lemma AppendWhole(p: Pieces, x: seq<Byte>)
    requires |x| <= |p.junk|
    ensures Whole(AppendPieces(p, x)) == Whole(p) + x
  {
  }

  lemma TopUpWhole(p: Pieces, y: seq<Byte>)
    requires |p.pending| + |y| == BUFFER_SIZE
    ensures Whole(TopUpPieces(p, y)) == Whole(p) + y && |TopUpPieces(p, y).junk| == BUFFER_SIZE
    ensures ShapeOf(TopUpPieces(p, y)) == Shape(|p.consumed| + |p.pending| + |y|, 0, false)
  {
  }

  lemma StepWhole(p: Pieces, x: seq<Byte>)
    requires |p.pending| + |p.junk| == BUFFER_SIZE
    ensures Whole(StepPieces(p, x)) == Whole(p) + x
    ensures ShapeOf(StepPieces(p, x)) == StepShape(ShapeOf(p), |x|)
  {
    if |p.pending| + |x| <= BUFFER_SIZE {
      AppendWhole(p, x);
    } else if |p.pending| > 0 {
      FilledWhole(p, x, x[..BUFFER_SIZE - |p.pending|], x[BUFFER_SIZE - |p.pending|..]);
    } else {
      DrainWhole(p, x);
    }
  }

  lemma FilledWhole(p: Pieces, x: seq<Byte>, y: seq<Byte>, rest: seq<Byte>)
    requires |p.pending| + |y| == BUFFER_SIZE && x == y + rest
    ensures Whole(DrainPieces(TopUpPieces(p, y), rest)) == Whole(p) + x
    ensures ShapeOf(DrainPieces(TopUpPieces(p, y), rest)) == DrainShape(Shape(ShapeOf(p).total + |y|, 0, false), |rest|)
  {
    TopUpWhole(p, y);
    DrainWhole(TopUpPieces(p, y), rest);
    SplitWhole(Whole(p), x, y, rest);
  }

  lemma SplitWhole(t: seq<Byte>, x: seq<Byte>, y: seq<Byte>, rest: seq<Byte>)
    requires y + rest == x
    ensures t + y + rest == t + x
  {
  }

  lemma {:induction false} RunInv<Acc, Digest>(core: Core<Acc, Digest>, chunks: seq<seq<Byte>>) returns (p: Pieces)
    requires core.Valid()
    ensures Inv(core, Run(core, chunks), p)
    ensures Whole(p) == Concat(chunks) && ShapeOf(p) == RunShape(Lengths(chunks))
  {
    if chunks == [] {
      p := Pieces([], [], Reset(core).buffer, false, [], []);
    } else {
      var init, x := chunks[..|chunks| - 1], chunks[|chunks| - 1];
      var q := RunInv(core, init);
      assert Lengths(chunks)[..|chunks| - 1] == Lengths(init);
      UpdateInv(core, Run(core, init), q, x);
      StepWhole(q, x);
      p := StepPieces(q, x);
    }
  }

  lemma RunFacts<Acc, Digest>(core: Core<Acc, Digest>, chunks: seq<seq<Byte>>, shape: Shape)
    requires core.Valid() && shape == RunShape(Lengths(chunks))
    ensures Run(core, chunks).buffered == shape.buffered <= BUFFER_SIZE
    ensures Run(core, chunks).total == |Concat(chunks)| == shape.total && shape.buffered <= shape.total
    ensures shape.bulk ==> shape.total - shape.buffered >= BUFFER_SIZE
  {
    var p := RunInv(core, chunks);
  }

  /** The buffer starts with the last b bytes of the input. */
  predicate StartsWithLast(buffer: seq<Byte>, b: nat, t: seq<Byte>) {
    b <= |t| && b <= |buffer| && forall i :: 0 <= i < b ==> buffer[i] == t[|t| - b + i]
  }

  lemma PendingIsLast<Acc, Digest>(core: Core<Acc, Digest>, chunks: seq<seq<Byte>>)
    requires core.Valid()
    ensures StartsWithLast(Run(core, chunks).buffer, Run(core, chunks).buffered, Concat(chunks))
  {
    var p := RunInv(core, chunks);
    PendingStarts(p);
  }

  lemma PendingStarts(p: Pieces)
    ensures StartsWithLast(p.pending + p.junk, |p.pending|, Whole(p))
  {
  }

  // ---- The digest ------------------------------------------------------------------------------------

  /** The last stripe that digest uses is the last 64 bytes of the input, unless the tail is stale. */
  lemma LastStripeIsRight(p: Pieces)
    requires TailHolds(p) && |p.pending| < STRIPE_LEN
    ensures LastStripe(p.pending + p.junk, |p.pending|) == Whole(p)[|Whole(p)| - STRIPE_LEN..]
  {
    var k := STRIPE_LEN - |p.pending|;
    assert (p.pending + p.junk)[BUFFER_SIZE - k..] == p.last[BUFFER_SIZE - k..];
    assert (p.pending + p.junk)[..|p.pending|] == p.pending;
    assert Whole(p)[|Whole(p)| - STRIPE_LEN..] == p.last[BUFFER_SIZE - k..] + p.pending;
  }

  lemma WholeStripesOf(consumed: nat, pending: nat)
    requires WholeBuffers(consumed) == consumed
    ensures WholeStripes(consumed + pending) == consumed + WholeStripes(pending)
  {
    BuffersAreStripes(consumed);
    StripesAdd(consumed, pending);
  }

  lemma FoldWhole<Acc, Digest>(core: Core<Acc, Digest>, a: (Acc, nat), consumed: seq<Byte>, pending: seq<Byte>, w: nat)
    requires core.Valid() && WholeBuffers(|consumed|) == |consumed| && a == Fold(core, core.init, 0, consumed) && w <= |pending|
    ensures a.1 < core.stripesPerBlock
    ensures Fold(core, core.init, 0, (consumed + pending)[..|consumed| + w]) == Fold(core, a.0, a.1, pending[..w])
  {
    BuffersAreStripes(|consumed|);
    FoldConcat(core, core.init, 0, consumed, pending[..w]);
    assert (consumed + pending)[..|consumed| + w] == consumed + pending[..w];
  }

  lemma ManyPending<Acc, Digest>(core: Core<Acc, Digest>, s: State<Acc>, p: Pieces, w: nat)
    requires Inv(core, s, p) && Proper(core, s) && |p.pending| >= STRIPE_LEN && |Whole(p)| > MIDSIZE_MAX && w == WholeStripes(|p.pending|)
    ensures DigestAcc(core, s) == LongAcc(core, Whole(p))
  {
    WholeStripesOf(|p.consumed|, |p.pending|);
    FoldWhole(core, (s.acc, s.soFar), p.consumed, p.pending, w);
    assert s.buffer[..w] == p.pending[..w];
    var n := |p.pending|;
    assert s.buffer[n - STRIPE_LEN..n] == p.pending[n - STRIPE_LEN..];
    assert Whole(p)[|Whole(p)| - STRIPE_LEN..] == p.pending[n - STRIPE_LEN..];
  }

  lemma FewPending<Acc, Digest>(core: Core<Acc, Digest>, s: State<Acc>, p: Pieces, stripe: seq<Byte>)
    requires Inv(core, s, p) && Proper(core, s) && |p.pending| < STRIPE_LEN && |Whole(p)| > MIDSIZE_MAX
    requires stripe == Whole(p)[|Whole(p)| - STRIPE_LEN..]
    ensures LongAcc(core, Whole(p)) == if |p.pending| > 0 then AccumulateLast(core, s.acc, stripe) else s.acc
  {
    WholeStripesOf(|p.consumed|, |p.pending|);
    FoldWhole(core, (s.acc, s.soFar), p.consumed, p.pending, 0);
    assert p.pending[..0] == [];
  }

  lemma DigestAccIsRight<Acc, Digest>(core: Core<Acc, Digest>, s: State<Acc>, p: Pieces)
    requires Inv(core, s, p) && Proper(core, s) && |Whole(p)| > MIDSIZE_MAX && !Stale(ShapeOf(p))
    ensures DigestAcc(core, s) == LongAcc(core, Whole(p))
  {
    if |p.pending| >= STRIPE_LEN {
      ManyPending(core, s, p, WholeStripes(|p.pending|));
    } else {
      FewPending(core, s, p, Whole(p)[|Whole(p)| - STRIPE_LEN..]);
      if |p.pending| > 0 {
        LastStripeIsRight(p);
      }
    }
  }

  lemma ShortInput<Acc, Digest>(core: Core<Acc, Digest>, s: State<Acc>, p: Pieces)
    requires Inv(core, s, p) && Proper(core, s) && |Whole(p)| <= MIDSIZE_MAX
    ensures s.total <= MIDSIZE_MAX && s.buffer[..s.total] == Whole(p)
  {
    assert p.consumed == [];
    assert Whole(p) == p.pending;
  }

  lemma DigestOfPieces<Acc, Digest>(core: Core<Acc, Digest>, s: State<Acc>, p: Pieces)
    requires Inv(core, s, p) && Proper(core, s) && !Stale(ShapeOf(p))
    ensures DigestOf(core, s) == OneShot(core, Whole(p))
  {
    if |Whole(p)| > MIDSIZE_MAX {
      DigestAccIsRight(core, s, p);
    } else {
      ShortInput(core, s, p);
    }
  }

  /** The digest of a state that is not stale is the one-shot hash of everything it was given. */
  lemma StreamingIsOneShot<Acc, Digest>(core: Core<Acc, Digest>, chunks: seq<seq<Byte>>)
    requires core.Valid() && !Stale(RunShape(Lengths(chunks)))
    ensures DigestOf(core, Run(core, chunks)) == OneShot(core, Concat(chunks))
  {
    var p := RunInv(core, chunks);
    DigestOfPieces(core, Run(core, chunks), p);
  }

  lemma {:induction false} ShortChunksAreNeverBulk(lengths: seq<nat>)
    requires forall i :: 0 <= i < |lengths| ==> lengths[i] < BUFFER_SIZE
    ensures !RunShape(lengths).bulk && RunShape(lengths).buffered <= BUFFER_SIZE
  {
    if lengths != [] {
      ShortChunksAreNeverBulk(lengths[..|lengths| - 1]);
    }
  }

  /** For chunks shorter than 256 bytes, streaming and hashing in one go always agree. */
  lemma ShortChunksAgree<Acc, Digest>(core: Core<Acc, Digest>, chunks: seq<seq<Byte>>)
    requires core.Valid() && forall i :: 0 <= i < |chunks| ==> |chunks[i]| < BUFFER_SIZE
    ensures DigestOf(core, Run(core, chunks)) == OneShot(core, Concat(chunks))
  {
    ShortChunksAreNeverBulk(Lengths(chunks));
    StreamingIsOneShot(core, chunks);
  }

  // ---- When it is wrong ----------------------------------------------------------------------------------

  type Trace = seq<(seq<Byte>, int)>

  /** The hash that records everything it accumulates. */
  function Recorder(): (c: Core<Trace, (Trace, nat)>)
    ensures c.Valid()
  {
    ForSecret([], (acc: Trace, stripe: seq<Byte>, at: int) => acc + [(stripe, at)], (acc: Trace) => acc,
              (acc: Trace, n: nat) => (acc, n), (x: seq<Byte>) => ([(x, 0)], |x|), SECRET_DEFAULT_SIZE)
  }

  predicate Zero(s: seq<Byte>) {
    forall i :: 0 <= i < |s| ==> s[i] == 0
  }

  /** An input that is zero except for x from some position on. */
  function ByteAt(i: int, from: int, x: seq<Byte>): Byte {
    if from <= i < from + |x| then x[i - from] else 0
  }

  /** The n bytes of that input from position at on. */
  function Piece(n: nat, at: int, from: int, x: seq<Byte>): (c: seq<Byte>)
    ensures |c| == n && forall i :: 0 <= i < n ==> c[i] == ByteAt(at + i, from, x)
  {
    seq(n, i requires 0 <= i < n => ByteAt(at + i, from, x))
  }

  /** That input in chunks of the given lengths. */
  function Cut(lengths: seq<nat>, from: int, x: seq<Byte>): (chunks: seq<seq<Byte>>)
    ensures |chunks| == |lengths| && Lengths(chunks) == lengths
    decreases |lengths|
  {
    if lengths == [] then []
    else
      var init := lengths[..|lengths| - 1];
      var chunks := Cut(init, from, x) + [Piece(lengths[|lengths| - 1], RunShape(init).total, from, x)];
      assert Lengths(chunks)[..|lengths| - 1] == init;
      assert Lengths(chunks) == lengths;
      chunks
  }

  predicate IsCut(t: seq<Byte>, from: int, x: seq<Byte>) {
    forall i :: 0 <= i < |t| ==> t[i] == ByteAt(i, from, x)
  }

  lemma {:induction false} CutIsWhole(lengths: seq<nat>, from: int, x: seq<Byte>)
    ensures |Concat(Cut(lengths, from, x))| == RunShape(lengths).total
    ensures IsCut(Concat(Cut(lengths, from, x)), from, x)
    decreases |lengths|
  {
    if lengths != [] {
      CutIsWhole(lengths[..|lengths| - 1], from, x);
      assert Cut(lengths, from, x)[..|lengths| - 1] == Cut(lengths[..|lengths| - 1], from, x);
    }
  }

  lemma ZeroAppended<Acc, Digest>(core: Core<Acc, Digest>, s: State<Acc>, x: seq<Byte>)
    requires Proper(core, s) && Zero(s.buffer) && s.buffered + |x| <= BUFFER_SIZE && Zero(x)
    ensures Zero(Append(core, s, x).buffer)
  {
  }

  lemma ZeroToppedUp<Acc, Digest>(core: Core<Acc, Digest>, s: State<Acc>, y: seq<Byte>)
    requires Proper(core, s) && Zero(s.buffer) && s.buffered + |y| == BUFFER_SIZE && Zero(y)
    ensures Zero(TopUp(core, s, y).buffer)
  {
  }

  lemma ZeroDrained<Acc, Digest>(core: Core<Acc, Digest>, s: State<Acc>, rest: seq<Byte>)
    requires Proper(core, s) && Zero(s.buffer) && s.buffered == 0 && Zero(rest[WholeBuffers(|rest|)..])
    ensures Zero(Drain(core, s, rest).buffer)
  {
    ZeroAppended(core, Bulk(core, s, rest[..WholeBuffers(|rest|)]), rest[WholeBuffers(|rest|)..]);
  }

  lemma ZeroUpdated<Acc, Digest>(core: Core<Acc, Digest>, s: State<Acc>, x: seq<Byte>)
    requires Proper(core, s) && Zero(s.buffer) && Zero(x)
    ensures Zero(Update(core, s, x).buffer)
  {
    if s.buffered + |x| <= BUFFER_SIZE {
      ZeroAppended(core, s, x);
    } else if s.buffered > 0 {
      var load := BUFFER_SIZE - s.buffered;
      ZeroToppedUp(core, s, x[..load]);
      ZeroDrained(core, TopUp(core, s, x[..load]), x[load..]);
    } else {
      ZeroDrained(core, s, x);
    }
  }

  /** Nothing but zeros so far. */
  lemma {:induction false} ZeroRun<Acc, Digest>(core: Core<Acc, Digest>, lengths: seq<nat>, from: int, x: seq<Byte>)
    requires core.Valid() && from >= RunShape(lengths).total
    ensures Zero(Run(core, Cut(lengths, from, x)).buffer)
    decreases |lengths|
  {
    if lengths != [] {
      var init := lengths[..|lengths| - 1];
      var chunks := Cut(lengths, from, x);
      ZeroRun(core, init, from, x);
      assert chunks[..|chunks| - 1] == Cut(init, from, x);
      ZeroUpdated(core, Run(core, Cut(init, from, x)), chunks[|chunks| - 1]);
    }
  }

  /** The last byte consumed. */
  function LastConsumed(s: Shape): int {
    s.total - s.buffered - 1
  }

  /** The buffer behind its first stripe. */
  predicate ZeroBehind(s: seq<Byte>) {
    forall i :: STRIPE_LEN <= i < |s| ==> s[i] == 0
  }

  lemma AppendedBehind<Acc, Digest>(core: Core<Acc, Digest>, s: State<Acc>, x: seq<Byte>)
    requires Proper(core, s) && ZeroBehind(s.buffer) && s.buffered + |x| < STRIPE_LEN
    ensures ZeroBehind(Append(core, s, x).buffer)
  {
  }

  /** Whole buffers taken from the input are not stored, and the rest is short. */
  lemma DrainedBehind<Acc, Digest>(core: Core<Acc, Digest>, s: State<Acc>, rest: seq<Byte>)
    requires Proper(core, s) && Zero(s.buffer) && s.buffered == 0 && |rest| - WholeBuffers(|rest|) < STRIPE_LEN
    ensures ZeroBehind(Drain(core, s, rest).buffer)
  {
    AppendedBehind(core, Bulk(core, s, rest[..WholeBuffers(|rest|)]), rest[WholeBuffers(|rest|)..]);
  }

  /** An update that fills the buffer with zeros at most, takes whole buffers, and leaves less than a stripe. */
  lemma BulkStepBehind<Acc, Digest>(core: Core<Acc, Digest>, s: State<Acc>, load: nat, x: seq<Byte>)
    requires Proper(core, s) && Zero(s.buffer) && s.buffered + |x| > BUFFER_SIZE
    requires load == (if s.buffered > 0 then BUFFER_SIZE - s.buffered else 0) && Zero(x[..load])
    requires |x| - load - WholeBuffers(|x| - load) < STRIPE_LEN
    ensures ZeroBehind(Update(core, s, x).buffer)
  {
    if s.buffered > 0 {
      ZeroToppedUp(core, s, x[..load]);
      DrainedBehind(core, TopUp(core, s, x[..load]), x[load..]);
    } else {
      DrainedBehind(core, s, x);
    }
  }

  lemma AppendShape(before: Shape, n: nat)
    requires before.buffered + n <= BUFFER_SIZE
    ensures StepShape(before, n).bulk == before.bulk && LastConsumed(StepShape(before, n)) == LastConsumed(before)
  {
  }

  /** A bulk step consumes a whole buffer at least, behind what filled the buffer. */
  lemma BulkShape(before: Shape, load: nat, n: nat)
    requires before.buffered <= BUFFER_SIZE && before.buffered + n > BUFFER_SIZE && StepShape(before, n).bulk
    requires load == if before.buffered > 0 then BUFFER_SIZE - before.buffered else 0
    ensures LastConsumed(StepShape(before, n)) >= before.total + load + BUFFER_SIZE - 1
    ensures StepShape(before, n).buffered == n - load - WholeBuffers(n - load)
  {
  }

  lemma CutStep<Acc, Digest>(core: Core<Acc, Digest>, lengths: seq<nat>, from: int, x: seq<Byte>)
    requires core.Valid() && lengths != []
    ensures var init := lengths[..|lengths| - 1];
            Run(core, Cut(lengths, from, x))
            == Update(core, Run(core, Cut(init, from, x)), Piece(lengths[|lengths| - 1], RunShape(init).total, from, x))
  {
    assert Cut(lengths, from, x)[..|lengths| - 1] == Cut(lengths[..|lengths| - 1], from, x);
  }

  /** An update after which the last bytes consumed did not go through the buffer. */
  lemma StepBehind<Acc, Digest>(core: Core<Acc, Digest>, s: State<Acc>, before: Shape, n: nat, from: int, x: seq<Byte>)
    requires Proper(core, s) && s.buffered == before.buffered && StepShape(before, n).bulk
    requires StepShape(before, n).buffered < STRIPE_LEN && from + STRIPE_LEN > LastConsumed(StepShape(before, n))
    requires if before.buffered + n <= BUFFER_SIZE then ZeroBehind(s.buffer) else Zero(s.buffer)
    ensures ZeroBehind(Update(core, s, Piece(n, before.total, from, x)).buffer)
  {
    var piece := Piece(n, before.total, from, x);
    if before.buffered + n <= BUFFER_SIZE {
      AppendedBehind(core, s, piece);
    } else {
      var load := if before.buffered > 0 then BUFFER_SIZE - before.buffered else 0;
      BulkShape(before, load, n);
      BulkStepBehind(core, s, load, piece);
    }
  }

  /** After a bulk step the end of the buffer has not seen the last bytes consumed. */
  lemma {:induction false} BulkBufferIsZero<Acc, Digest>(core: Core<Acc, Digest>, lengths: seq<nat>, from: int, x: seq<Byte>)
    requires core.Valid() && RunShape(lengths).bulk && RunShape(lengths).buffered < STRIPE_LEN
    requires from + STRIPE_LEN > LastConsumed(RunShape(lengths))
    ensures ZeroBehind(Run(core, Cut(lengths, from, x)).buffer)
    decreases |lengths|
  {
    var init, n := lengths[..|lengths| - 1], lengths[|lengths| - 1];
    var before := RunShape(init);
    RunFacts(core, Cut(init, from, x), before);
    CutStep(core, lengths, from, x);
    if before.buffered + n <= BUFFER_SIZE {
      AppendShape(before, n);
      BulkBufferIsZero(core, init, from, x);
    } else {
      BulkShape(before, if before.buffered > 0 then BUFFER_SIZE - before.buffered else 0, n);
      ZeroRun(core, init, from, x);
    }
    StepBehind(core, Run(core, Cut(init, from, x)), before, n, from, x);
  }

  /** With few bytes pending, the one-shot hash accumulates the last stripe on top of what streaming consumed. */
  lemma LongAccOfRun<Acc, Digest>(core: Core<Acc, Digest>, chunks: seq<seq<Byte>>, s: State<Acc>, t: seq<Byte>)
    requires core.Valid() && s == Run(core, chunks) && t == Concat(chunks)
    requires 0 < s.buffered < STRIPE_LEN && |t| > MIDSIZE_MAX
    ensures LongAcc(core, t) == AccumulateLast(core, s.acc, t[|t| - STRIPE_LEN..]) && s.total == |t|
  {
    var p := RunInv(core, chunks);
    FewPending(core, s, p, t[|t| - STRIPE_LEN..]);
  }

  /** A stripe of which only the last b bytes are left. */
  function Forgotten(x: seq<Byte>, b: nat): (y: seq<Byte>)
    requires |x| == STRIPE_LEN && b <= STRIPE_LEN
    ensures |y| == STRIPE_LEN && forall i :: 0 <= i < STRIPE_LEN ==> y[i] == if i < STRIPE_LEN - b then 0 else x[i]
  {
    seq(STRIPE_LEN, i requires 0 <= i < STRIPE_LEN => if i < STRIPE_LEN - b then 0 else x[i])
  }

  /** The true last stripe is x; of the rebuilt one only the bytes in the buffer are right. */
  lemma RebuiltStripe(buffer: seq<Byte>, b: nat, t: seq<Byte>, from: int, x: seq<Byte>)
    requires |buffer| == BUFFER_SIZE && 0 < b < STRIPE_LEN == |x| <= |t| && ZeroBehind(buffer)
    requires StartsWithLast(buffer, b, t) && IsCut(t, from, x) && from == |t| - STRIPE_LEN
    ensures LastStripe(buffer, b) == Forgotten(x, b) && t[|t| - STRIPE_LEN..] == x
  {
    var y := LastStripe(buffer, b);
    forall i | 0 <= i < STRIPE_LEN ensures y[i] == Forgotten(x, b)[i] {
      if i >= STRIPE_LEN - b { assert y[i] == buffer[i - (STRIPE_LEN - b)]; } else { assert y[i] == buffer[BUFFER_SIZE - (STRIPE_LEN - b) + i]; }
    }
  }

  lemma CutRun<Acc, Digest>(core: Core<Acc, Digest>, lengths: seq<nat>, from: int, x: seq<Byte>) returns (s: State<Acc>, t: seq<Byte>)
    requires core.Valid() && Stale(RunShape(lengths)) && from == LastStart(lengths)
    ensures s == Run(core, Cut(lengths, from, x)) && t == Concat(Cut(lengths, from, x))
    ensures |s.buffer| == BUFFER_SIZE <= |t| && s.buffered == RunShape(lengths).buffered && from == |t| - STRIPE_LEN
    ensures ZeroBehind(s.buffer) && StartsWithLast(s.buffer, s.buffered, t) && IsCut(t, from, x)
  {
    s, t := Run(core, Cut(lengths, from, x)), Concat(Cut(lengths, from, x));
    RunFacts(core, Cut(lengths, from, x), RunShape(lengths));
    CutIsWhole(lengths, from, x);
    BulkBufferIsZero(core, lengths, from, x);
    PendingIsLast(core, Cut(lengths, from, x));
  }

  /** Where the last stripe of the input starts. */
  function LastStart(lengths: seq<nat>): int {
    RunShape(lengths).total - STRIPE_LEN
  }

  lemma EndingIsForgotten<Acc, Digest>(core: Core<Acc, Digest>, s: State<Acc>, t: seq<Byte>, from: int, x: seq<Byte>)
    requires Proper(core, s) && 0 < s.buffered < STRIPE_LEN == |x| && |t| > MIDSIZE_MAX && from == |t| - STRIPE_LEN
    requires ZeroBehind(s.buffer) && StartsWithLast(s.buffer, s.buffered, t) && IsCut(t, from, x)
    ensures t[|t| - STRIPE_LEN..] == x
    ensures DigestAcc(core, s) == AccumulateLast(core, s.acc, Forgotten(x, s.buffered))
  {
    RebuiltStripe(s.buffer, s.buffered, t, from, x);
  }

  /** Lengths that leave a stale tail, and an input that ends in the stripe x: the digest accumulates a stripe of
      which all but the pending bytes are lost. */
  lemma StaleStripe<Acc, Digest>(core: Core<Acc, Digest>, lengths: seq<nat>, from: int, x: seq<Byte>) returns (s: State<Acc>, t: seq<Byte>)
    requires core.Valid() && Stale(RunShape(lengths)) && from == LastStart(lengths) && |x| == STRIPE_LEN
    ensures s == Run(core, Cut(lengths, from, x)) && t == Concat(Cut(lengths, from, x)) && s.total == |t| > MIDSIZE_MAX
    ensures DigestAcc(core, s) == AccumulateLast(core, s.acc, Forgotten(x, RunShape(lengths).buffered))
    ensures LongAcc(core, t) == AccumulateLast(core, s.acc, x)
  {
    s, t := CutRun(core, lengths, from, x);
    LongAccOfRun(core, Cut(lengths, from, x), s, t);
    EndingIsForgotten(core, s, t, from, x);
  }

  /** The recorder tells different last stripes apart. */
  lemma RecordsDiffer(acc: Trace, a: seq<Byte>, b: seq<Byte>)
    requires a != b
    ensures AccumulateLast(Recorder(), acc, a) != AccumulateLast(Recorder(), acc, b)
  {
    assert AccumulateLast(Recorder(), acc, a)[|acc|].0 == a;
    assert AccumulateLast(Recorder(), acc, b)[|acc|].0 == b;
  }

  /** A stripe of ones. */
  function Ones(): (x: seq<Byte>)
    ensures |x| == STRIPE_LEN && forall i :: 0 <= i < STRIPE_LEN ==> x[i] == 1
  {
    seq(STRIPE_LEN, i => 1)
  }

  /** For lengths that leave a stale tail, some input of these lengths gets the wrong digest. */
  lemma StaleDigestDiffers(lengths: seq<nat>)
    requires Stale(RunShape(lengths))
    ensures !Agrees(Cut(lengths, LastStart(lengths), Ones()))
  {
    var s, t := StaleStripe(Recorder(), lengths, LastStart(lengths), Ones());
    var b := RunShape(lengths).buffered;
    assert Forgotten(Ones(), b)[0] == 0 && Ones()[0] == 1;
    RecordsDiffer(s.acc, Forgotten(Ones(), b), Ones());
  }

  ghost predicate Agrees(chunks: seq<seq<Byte>>) {
    DigestOf(Recorder(), Run(Recorder(), chunks)) == OneShot(Recorder(), Concat(chunks))
  }

  /** Streaming agrees with hashing in one go on all inputs cut to the given lengths exactly when these
      lengths do not leave 1 to 63 bytes in the buffer after whole buffers were taken from the input. */
  lemma AgreesIffNotStale(lengths: seq<nat>)
    ensures (forall chunks: seq<seq<Byte>> :: Lengths(chunks) == lengths ==> Agrees(chunks)) <==> !Stale(RunShape(lengths))
  {
    if Stale(RunShape(lengths)) {
      StaleDigestDiffers(lengths);
    } else {
      forall chunks: seq<seq<Byte>> | Lengths(chunks) == lengths ensures Agrees(chunks) {
        StreamingIsOneShot(Recorder(), chunks);
      }
    }
  }

  /** The smallest single update that goes wrong. */
  lemma FirstStaleUpdate()
    ensures Stale(RunShape([257])) && forall n: nat :: n <= 256 ==> !Stale(RunShape([n]))
  {
    assert [257][..0] == [];
    forall n: nat | n <= 256 ensures !Stale(RunShape([n])) {
      assert [n][..0] == [];
    }
  }
}
