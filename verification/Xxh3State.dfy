/** hash3_state_t: the streaming state with its methods, updated in place. */
module Xxh3State {
  import opened ByteStreams
  import opened Xxh3
  import opened Xxh3Streaming

  lemma BulkTurn<Acc, Digest>(core: Core<Acc, Digest>, acc: Acc, soFar: nat, input: seq<Byte>, at: nat)
    requires core.Valid() && soFar < core.stripesPerBlock && WholeBuffers(at) == at && at + BUFFER_SIZE <= |input|
    ensures WholeBuffers(at + BUFFER_SIZE) == at + BUFFER_SIZE
    ensures var a := Fold(core, acc, soFar, input[..at]);
            Fold(core, acc, soFar, input[..at + BUFFER_SIZE]) == Fold(core, a.0, a.1, input[at..at + BUFFER_SIZE])
  {
    var next := input[at..at + BUFFER_SIZE];
    BuffersAreStripes(at);
    FoldConcat(core, acc, soFar, input[..at], next);
    assert input[..at] + next == input[..at + BUFFER_SIZE];
    BuffersAdd(at, BUFFER_SIZE);
  }

  lemma WholeBuffersIs(n: nat, at: nat)
    requires WholeBuffers(at) == at && at <= n < at + BUFFER_SIZE
    ensures at == WholeBuffers(n)
  {
    BuffersAdd(at, n - at);
  }

  lemma BufferedStripes(n: nat)
    requires n <= BUFFER_SIZE
    ensures n / STRIPE_LEN <= BUFFER_STRIPES && n / STRIPE_LEN * STRIPE_LEN == Stripes(n / STRIPE_LEN) == WholeStripes(n)
    ensures n % STRIPE_LEN == 0 <==> WholeStripes(n) == n
  {
    WholeStripesIsDiv(n);
  }

  class Hash3State<!Acc, Digest> {
    const core: Core<Acc, Digest>
    var acc: Acc
    var buffer: array<Byte>
    var bufferedSize: nat
    var nbStripesSoFar: nat
    var totalLen: nat
    ghost var chunks: seq<seq<Byte>>

    /** The fields as a value. */
    ghost function Model(): State<Acc>
      reads this, buffer
    {
      State(acc, nbStripesSoFar, buffer[..], bufferedSize, totalLen)
    }

    ghost predicate Valid()
      reads this, buffer
    {
      core.Valid() && buffer.Length == BUFFER_SIZE && Model() == Run(core, chunks)
    }

    constructor (core: Core<Acc, Digest>)
      requires core.Valid()
      ensures Valid() && fresh(buffer) && this.core == core && chunks == []
    {
      this.core := core;
      acc := core.init;
      buffer := new Byte[BUFFER_SIZE](_ => 0);
      bufferedSize, nbStripesSoFar, totalLen := 0, 0, 0;
      chunks := [];
      new;
      assert buffer[..] == seq(BUFFER_SIZE, i => 0 as Byte);
    }

    /** consume_stripes: up to the end of the block, a scramble, and the stripes after it. */
    method ConsumeStripes(acc0: Acc, soFar0: nat, totalStripes: nat, input: seq<Byte>) returns (a: Acc, soFar: nat)
      requires core.Valid() && soFar0 < core.stripesPerBlock && totalStripes <= core.stripesPerBlock
      requires |input| == Stripes(totalStripes)
      ensures (a, soFar) == Fold(core, acc0, soFar0, input)
    {
      if core.stripesPerBlock - soFar0 <= totalStripes {
        var nbStripes := core.stripesPerBlock - soFar0;
        FoldAcross(core, acc0, soFar0, input, nbStripes, totalStripes);
        a := AccumulateLoop(core, acc0, input, soFar0, nbStripes);
        a := core.scramble(a);
        a := AccumulateLoop(core, a, input[nbStripes * STRIPE_LEN..], 0, totalStripes - nbStripes);
        soFar := totalStripes - nbStripes;
      } else {
        FoldInBlock(core, acc0, soFar0, input, totalStripes);
        assert input[..Stripes(totalStripes)] == input;
        a := AccumulateLoop(core, acc0, input, soFar0, totalStripes);
        soFar := soFar0 + totalStripes;
      }
    }

    /** memcpy(buffer + at, x, |x|) */
    method Write(at: nat, x: seq<Byte>)
      requires buffer.Length == BUFFER_SIZE && at + |x| <= BUFFER_SIZE
      modifies buffer
      ensures buffer[..] == Store(old(buffer[..]), at, x)
    {
      var i := 0;
      while i < |x|
        invariant 0 <= i <= |x|
        invariant forall k :: 0 <= k < BUFFER_SIZE ==>
                    buffer[k] == if at <= k < at + i then x[k - at] else old(buffer[k])
      {
        buffer[at + i] := x[i];
        i := i + 1;
      }
    }

    /** Fills the buffer and consumes it. */
    method FillBuffer(y: seq<Byte>)
      requires Proper(core, Model()) && bufferedSize + |y| == BUFFER_SIZE
      modifies `acc, `nbStripesSoFar, `bufferedSize, `totalLen, buffer
      ensures Model() == TopUp(core, old(Model()), y)
    {
      ghost var before := Model();
      Write(bufferedSize, y);
      assert buffer[..] == before.buffer[..before.buffered] + y;
      assert |buffer[..]| == Stripes(BUFFER_STRIPES);
      acc, nbStripesSoFar := ConsumeStripes(acc, nbStripesSoFar, BUFFER_STRIPES, buffer[..]);
      bufferedSize := 0;
      totalLen := totalLen + |y|;
    }

    /** The loop that takes whole buffers straight from the input. */
    method ConsumeBulk(input: seq<Byte>) returns (rest: seq<Byte>)
      requires Proper(core, Model()) && bufferedSize == 0
      modifies `acc, `nbStripesSoFar, `totalLen
      ensures Model() == Bulk(core, old(Model()), input[..WholeBuffers(|input|)])
      ensures rest == input[WholeBuffers(|input|)..]
    {
      var at := 0;
      assert input[..0] == [];
      while at + BUFFER_SIZE <= |input|
        invariant at <= |input| && WholeBuffers(at) == at && nbStripesSoFar < core.stripesPerBlock && totalLen == old(totalLen)
        invariant (acc, nbStripesSoFar) == Fold(core, old(acc), old(nbStripesSoFar), input[..at])
        decreases |input| - at
      {
        BulkTurn(core, old(acc), old(nbStripesSoFar), input, at);
        assert |input[at..at + BUFFER_SIZE]| == Stripes(BUFFER_STRIPES);
        acc, nbStripesSoFar := ConsumeStripes(acc, nbStripesSoFar, BUFFER_STRIPES, input[at..at + BUFFER_SIZE]);
        at := at + BUFFER_SIZE;
      }
      WholeBuffersIs(|input|, at);
      totalLen := totalLen + at;
      rest := input[at..];
    }

    /** memcpy into the buffer. */
    method Keep(x: seq<Byte>)
      requires Proper(core, Model()) && bufferedSize + |x| <= BUFFER_SIZE
      modifies `bufferedSize, `totalLen, buffer
      ensures Model() == Append(core, old(Model()), x)
    {
      Write(bufferedSize, x);
      bufferedSize := bufferedSize + |x|;
      totalLen := totalLen + |x|;
    }

    /** update_impl */
    method Update(x: seq<Byte>)
      requires Valid()
      modifies this, buffer
      ensures Valid() && buffer == old(buffer) && chunks == old(chunks) + [x]
    {
      ghost var before := Model();
      UpdateImpl(x);
      chunks := chunks + [x];
      assert chunks[..|chunks| - 1] == old(chunks);
      assert Model() == Xxh3.Update(core, before, x);
    }

    method UpdateImpl(x: seq<Byte>)
      requires Proper(core, Model())
      modifies `acc, `nbStripesSoFar, `bufferedSize, `totalLen, buffer
      ensures Model() == Xxh3.Update(core, old(Model()), x)
    {
      if bufferedSize + |x| <= BUFFER_SIZE {
        Keep(x);
        return;
      }
      var input := x;
      if bufferedSize > 0 {
        var loadSize := BUFFER_SIZE - bufferedSize;
        FillBuffer(x[..loadSize]);
        input := x[loadSize..];
      }
      var rest := ConsumeBulk(input);
      Keep(rest);
    }

    /** digest_long */
    method DigestLong() returns (a: Acc)
      requires Valid()
      ensures a == DigestAcc(core, Model())
    {
      a := acc;
      if bufferedSize >= STRIPE_LEN {
        var totalNbStripes := bufferedSize / STRIPE_LEN;
        BufferedStripes(bufferedSize);
        var soFar;
        a, soFar := ConsumeStripes(a, nbStripesSoFar, totalNbStripes, buffer[..totalNbStripes * STRIPE_LEN]);
        if bufferedSize % STRIPE_LEN != 0 {
          a := core.accumulate(a, buffer[bufferedSize - STRIPE_LEN..bufferedSize], core.lastOffset);
        }
      } else if bufferedSize > 0 {
        var catchupSize := STRIPE_LEN - bufferedSize;
        var lastStripe := buffer[BUFFER_SIZE - catchupSize..] + buffer[..bufferedSize];
        a := core.accumulate(a, lastStripe, core.lastOffset);
      }
    }

    /** digest.  It is the one-shot hash of everything given so far unless the buffer tail is stale. */
    method GetDigest() returns (d: Digest)
      requires Valid()
      ensures d == DigestOf(core, Model())
      ensures !Stale(RunShape(Lengths(chunks))) ==> d == OneShot(core, Concat(chunks))
    {
      if !Stale(RunShape(Lengths(chunks))) {
        StreamingIsOneShot(core, chunks);
      }
      if totalLen > MIDSIZE_MAX {
        var a := DigestLong();
        d := core.finish(a, totalLen);
      } else {
        d := core.short(buffer[..totalLen]);
      }
    }
  }
}
