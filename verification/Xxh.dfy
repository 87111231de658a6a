/**
 * XXH32 and XXH64: the one-shot hash and the streaming state, for any stripe
 * length and any arithmetic.
 */
module Xxh {
  import opened ByteStreams
  import opened Sequences

  /** What chunking does not touch: the start, how a stripe is consumed, the value hashed so far of an input
      with or without a whole stripe, and what the length and the remaining bytes do to it. */
  datatype Core<!Acc, !H> = Core(
    stripe: nat,
    init: Acc,
    consume: (Acc, seq<Byte>) -> Acc,
    merge: Acc -> H,
    small: Acc -> H,
    addLength: (H, nat) -> H,
    ending: (H, seq<Byte>) -> H)
  {
    predicate Valid() {
      stripe > 0
    }
  }

  /** The bytes of the whole stripes among n bytes. */
  function Whole(n: nat, stripe: nat): (r: nat)
    requires stripe > 0
    ensures r <= n < r + stripe
  {
    if n < stripe then 0 else stripe + Whole(n - stripe, stripe)
  }

  lemma {:induction false} WholeAdd(a: nat, b: nat, stripe: nat)
    requires stripe > 0 && Whole(a, stripe) == a
    ensures Whole(a + b, stripe) == a + Whole(b, stripe)
  {
    if a > 0 {
      WholeAdd(a - stripe, b, stripe);
    }
  }

  lemma {:induction false} WholeIsWhole(n: nat, stripe: nat)
    requires stripe > 0
    ensures Whole(Whole(n, stripe), stripe) == Whole(n, stripe)
  {
    if n >= stripe { WholeIsWhole(n - stripe, stripe); }
  }

  function Fold<Acc, H>(core: Core<Acc, H>, acc: Acc, bytes: seq<Byte>): Acc
    requires core.Valid()
    decreases |bytes|
  {
    if |bytes| < core.stripe then acc
    else Fold(core, core.consume(acc, bytes[..core.stripe]), bytes[core.stripe..])
  }

  lemma {:induction false} FoldConcat<Acc, H>(core: Core<Acc, H>, acc: Acc, a: seq<Byte>, b: seq<Byte>)
    requires core.Valid() && Whole(|a|, core.stripe) == |a|
    ensures Fold(core, acc, a + b) == Fold(core, Fold(core, acc, a), b)
    decreases |a|
  {
    if a == [] {
      assert a + b == b;
    } else {
      assert (a + b)[..core.stripe] == a[..core.stripe] && (a + b)[core.stripe..] == a[core.stripe..] + b;
      FoldConcat(core, core.consume(acc, a[..core.stripe]), a[core.stripe..], b);
    }
  }

  /** endian_align */
  function OneShot<Acc, H>(core: Core<Acc, H>, t: seq<Byte>): H
    requires core.Valid()
  {
    var w := Whole(|t|, core.stripe);
    var h := if |t| >= core.stripe then core.merge(Fold(core, core.init, t[..w])) else core.small(core.init);
    core.ending(core.addLength(h, |t|), t[w..])
  }

  /** endian_align as the loop it is. */
  method EndianAlign<Acc, H>(core: Core<Acc, H>, input: seq<Byte>) returns (h: H)
    requires core.Valid()
    ensures h == OneShot(core, input)
  {
    var acc := core.init;
    var p := 0;
    assert input[..0] == [];
    while p + core.stripe <= |input|
      invariant p <= |input| && Whole(p, core.stripe) == p && acc == Fold(core, core.init, input[..p])
      decreases |input| - p
    {
      OneMore(core, input, p);
      acc := core.consume(acc, input[p..p + core.stripe]);
      p := p + core.stripe;
    }
    WholeAdd(p, |input| - p, core.stripe);
    h := if |input| >= core.stripe then core.merge(acc) else core.small(core.init);
    h := core.ending(core.addLength(h, |input|), input[p..]);
  }

  lemma OneMore<Acc, H>(core: Core<Acc, H>, t: seq<Byte>, p: nat)
    requires core.Valid() && Whole(p, core.stripe) == p && p + core.stripe <= |t|
    ensures Whole(p + core.stripe, core.stripe) == p + core.stripe
    ensures Fold(core, core.init, t[..p + core.stripe])
         == core.consume(Fold(core, core.init, t[..p]), t[p..p + core.stripe])
  {
    var next := t[p..p + core.stripe];
    WholeAdd(p, core.stripe, core.stripe);
    FoldConcat(core, core.init, t[..p], next);
    assert t[..p] + next == t[..p + core.stripe];
    FoldOne(core, Fold(core, core.init, t[..p]), next);
  }

  lemma FoldOne<Acc, H>(core: Core<Acc, H>, acc: Acc, one: seq<Byte>)
    requires core.Valid() && |one| == core.stripe
    ensures Fold(core, acc, one) == core.consume(acc, one)
  {
    assert one[..core.stripe] == one && one[core.stripe..] == [];
  }

  // ---- Streaming, on values ---------------------------------------------------------------------

  /** Fewer than a stripe of bytes is pending. */
  datatype State<Acc> = State(acc: Acc, pending: seq<Byte>, total: nat)

  function Reset<Acc, H>(core: Core<Acc, H>): State<Acc> {
    State(core.init, [], 0)
  }

  /** Completes the pending stripe and consumes it. */
  function Filled<Acc, H>(core: Core<Acc, H>, s: State<Acc>, y: seq<Byte>): State<Acc> {
    State(core.consume(s.acc, s.pending + y), [], s.total + |y|)
  }

  /** Consumes the whole stripes of rest and keeps what is left. */
  function Drained<Acc, H>(core: Core<Acc, H>, s: State<Acc>, rest: seq<Byte>): (r: State<Acc>)
    requires core.Valid()
    ensures |r.pending| < core.stripe
  {
    var w := Whole(|rest|, core.stripe);
    State(Fold(core, s.acc, rest[..w]), rest[w..], s.total + |rest|)
  }

  /** update_impl */
  function Updated<Acc, H>(core: Core<Acc, H>, s: State<Acc>, x: seq<Byte>): (r: State<Acc>)
    requires core.Valid() && |s.pending| < core.stripe
    ensures |r.pending| < core.stripe
  {
    if |s.pending| + |x| < core.stripe then State(s.acc, s.pending + x, s.total + |x|)
    else if |s.pending| > 0 then
      var load := core.stripe - |s.pending|;
      Drained(core, Filled(core, s, x[..load]), x[load..])
    else Drained(core, s, x)
  }

  /** digest_impl */
  function DigestOf<Acc, H>(core: Core<Acc, H>, s: State<Acc>): H {
    var h := if s.total >= core.stripe then core.merge(s.acc) else core.small(s.acc);
    core.ending(core.addLength(h, s.total), s.pending)
  }

  function Run<Acc, H>(core: Core<Acc, H>, chunks: seq<seq<Byte>>): (r: State<Acc>)
    requires core.Valid()
    ensures |r.pending| < core.stripe
  {
    if chunks == [] then Reset(core) else Updated(core, Run(core, chunks[..|chunks| - 1]), chunks[|chunks| - 1])
  }

  /** The input is the consumed bytes and the pending ones; all whole stripes are consumed. */
  ghost predicate Inv<Acc, H>(core: Core<Acc, H>, s: State<Acc>, consumed: seq<Byte>, t: seq<Byte>) {
    && core.Valid() && t == consumed + s.pending && |s.pending| < core.stripe && s.total == |t|
    && Whole(|consumed|, core.stripe) == |consumed| && s.acc == Fold(core, core.init, consumed)
  }

  lemma ConsumeMore<Acc, H>(core: Core<Acc, H>, acc: Acc, consumed: seq<Byte>, more: seq<Byte>)
    requires core.Valid() && Whole(|consumed|, core.stripe) == |consumed| && Whole(|more|, core.stripe) == |more|
    requires acc == Fold(core, core.init, consumed)
    ensures Whole(|consumed + more|, core.stripe) == |consumed + more|
    ensures Fold(core, acc, more) == Fold(core, core.init, consumed + more)
  {
    WholeAdd(|consumed|, |more|, core.stripe);
    FoldConcat(core, core.init, consumed, more);
  }

  lemma FilledInv<Acc, H>(core: Core<Acc, H>, s: State<Acc>, consumed: seq<Byte>, t: seq<Byte>, y: seq<Byte>)
    requires Inv(core, s, consumed, t) && |s.pending| + |y| == core.stripe
    ensures Inv(core, Filled(core, s, y), consumed + (s.pending + y), t + y)
  {
    FoldOne(core, s.acc, s.pending + y);
    ConsumeMore(core, s.acc, consumed, s.pending + y);
    assert t + y == consumed + (s.pending + y) + [];
  }

  lemma DrainedInv<Acc, H>(core: Core<Acc, H>, s: State<Acc>, consumed: seq<Byte>, t: seq<Byte>, w: seq<Byte>, rem: seq<Byte>)
    requires Inv(core, s, consumed, t) && s.pending == [] && |w| == Whole(|w + rem|, core.stripe)
    ensures Inv(core, Drained(core, s, w + rem), consumed + w, t + (w + rem))
  {
    WholeIsWhole(|w + rem|, core.stripe);
    DrainedIs(core, s, w, rem);
    assert t == consumed + [] == consumed;
    ConsumeMore(core, s.acc, consumed, w);
    Associate(consumed, w, rem);
  }

  lemma DrainedIs<Acc, H>(core: Core<Acc, H>, s: State<Acc>, w: seq<Byte>, rem: seq<Byte>)
    requires core.Valid() && |w| == Whole(|w + rem|, core.stripe)
    ensures Drained(core, s, w + rem) == State(Fold(core, s.acc, w), rem, s.total + |w + rem|)
  {
    assert (w + rem)[..|w|] == w && (w + rem)[|w|..] == rem;
  }

  lemma DrainInv<Acc, H>(core: Core<Acc, H>, s: State<Acc>, consumed: seq<Byte>, t: seq<Byte>, rest: seq<Byte>) returns (c: seq<Byte>)
    requires Inv(core, s, consumed, t) && s.pending == []
    ensures Inv(core, Drained(core, s, rest), c, t + rest)
  {
    var w := Whole(|rest|, core.stripe);
    assert rest[..w] + rest[w..] == rest;
    DrainedInv(core, s, consumed, t, rest[..w], rest[w..]);
    c := consumed + rest[..w];
  }

  lemma UpdateInv<Acc, H>(core: Core<Acc, H>, s: State<Acc>, consumed: seq<Byte>, t: seq<Byte>, x: seq<Byte>) returns (c: seq<Byte>)
    requires Inv(core, s, consumed, t)
    ensures Inv(core, Updated(core, s, x), c, t + x)
  {
    if |s.pending| + |x| < core.stripe {
      c := consumed;
      assert t + x == consumed + (s.pending + x);
    } else if |s.pending| > 0 {
      var y, rest := x[..core.stripe - |s.pending|], x[core.stripe - |s.pending|..];
      FilledInv(core, s, consumed, t, y);
      c := DrainInv(core, Filled(core, s, y), consumed + (s.pending + y), t + y, rest);
      assert t + y + rest == t + x;
    } else {
      c := DrainInv(core, s, consumed, t, x);
    }
  }

  lemma {:induction false} RunInv<Acc, H>(core: Core<Acc, H>, chunks: seq<seq<Byte>>) returns (c: seq<Byte>)
    requires core.Valid()
    ensures Inv(core, Run(core, chunks), c, Concat(chunks))
  {
    if chunks == [] {
      c := [];
    } else {
      c := RunInv(core, chunks[..|chunks| - 1]);
      c := UpdateInv(core, Run(core, chunks[..|chunks| - 1]), c, Concat(chunks[..|chunks| - 1]), chunks[|chunks| - 1]);
    }
  }

  /** After every update fewer bytes than a stripe are buffered, and all whole stripes are consumed. */
  lemma BufferedIsRemainder<Acc, H>(core: Core<Acc, H>, chunks: seq<seq<Byte>>)
    requires core.Valid()
    ensures var s, t := Run(core, chunks), Concat(chunks);
            var w := Whole(|t|, core.stripe);
            s.pending == t[w..] && s.acc == Fold(core, core.init, t[..w]) && s.total == |t|
  {
    var c := RunInv(core, chunks);
    Remainder(c, Run(core, chunks).pending, Concat(chunks), core.stripe);
  }

  lemma Remainder(c: seq<Byte>, pending: seq<Byte>, t: seq<Byte>, stripe: nat)
    requires t == c + pending && stripe > 0 && Whole(|c|, stripe) == |c| && |pending| < stripe
    ensures Whole(|t|, stripe) == |c| && t[..|c|] == c && t[|c|..] == pending
  {
    WholeAdd(|c|, |pending|, stripe);
  }

  /** Streaming gives the one-shot hash for every chunking whatsoever. */
  lemma StreamingIsOneShot<Acc, H>(core: Core<Acc, H>, chunks: seq<seq<Byte>>)
    requires core.Valid()
    ensures DigestOf(core, Run(core, chunks)) == OneShot(core, Concat(chunks))
  {
    BufferedIsRemainder(core, chunks);
    var t := Concat(chunks);
    if |t| < core.stripe {
      assert t[..0] == [];
    }
  }

  /** An update that overflows the buffer, in two parts. */
  lemma Overflows<Acc, H>(core: Core<Acc, H>, s: State<Acc>, x: seq<Byte>, filled: State<Acc>, rest: seq<Byte>)
    requires core.Valid() && |s.pending| < core.stripe <= |s.pending| + |x|
    requires if |s.pending| > 0 then filled == Filled(core, s, x[..core.stripe - |s.pending|]) && rest == x[core.stripe - |s.pending|..]
             else filled == s && rest == x
    ensures Updated(core, s, x) == Drained(core, filled, rest)
  {
  }

  // ---- hash_state_t -------------------------------------------------------------------------------

  class HashState<!Acc, !H> {
    const core: Core<Acc, H>
    var acc: Acc
    var mem: array<Byte>
    var memsize: nat
    var totalLen: nat
    ghost var chunks: seq<seq<Byte>>

    ghost predicate Valid()
      reads this, mem
    {
      && core.Valid() && mem.Length == core.stripe && memsize < core.stripe
      && State(acc, mem[..memsize], totalLen) == Run(core, chunks)
    }

    constructor (core: Core<Acc, H>)
      requires core.Valid()
      ensures Valid() && fresh(mem) && this.core == core && chunks == []
    {
      this.core := core;
      acc := core.init;
      mem := new Byte[core.stripe](_ => 0);
      memsize, totalLen := 0, 0;
      chunks := [];
    }

    /** memcpy(mem + at, x, |x|) */
    method Write(at: nat, x: seq<Byte>)
      requires at + |x| <= mem.Length
      modifies mem
      ensures mem[..at + |x|] == old(mem[..at]) + x
    {
      var i := 0;
      while i < |x|
        invariant 0 <= i <= |x|
        invariant mem[..at + i] == old(mem[..at]) + x[..i]
      {
        mem[at + i] := x[i];
        i := i + 1;
        assert mem[..at + i] == mem[..at + i - 1] + [x[i - 1]];
        assert x[..i] == x[..i - 1] + [x[i - 1]];
      }
      assert x[..i] == x;
    }

    ghost function Model(): State<Acc>
      requires memsize <= mem.Length
      reads this, mem
    {
      State(acc, mem[..memsize], totalLen)
    }

    /** The loop over whole stripes of the input. */
    method ConsumeStripes(input: seq<Byte>) returns (rest: seq<Byte>)
      requires core.Valid()
      modifies `acc
      ensures acc == Fold(core, old(acc), input[..Whole(|input|, core.stripe)]) && rest == input[Whole(|input|, core.stripe)..]
    {
      var p := 0;
      ghost var w := Whole(|input|, core.stripe);
      WholeIsWhole(|input|, core.stripe);
      while p + core.stripe <= |input|
        invariant p <= w && Whole(w - p, core.stripe) == w - p
        invariant Fold(core, acc, input[p..w]) == Fold(core, old(acc), input[..w])
        decreases |input| - p
      {
        if w == p { assert false; }
        assert input[p..w][..core.stripe] == input[p..p + core.stripe];
        assert input[p..w][core.stripe..] == input[p + core.stripe..w];
        acc := core.consume(acc, input[p..p + core.stripe]);
        p := p + core.stripe;
      }
      assert input[p..w] == [];
      rest := input[p..];
    }

    method FillMem(y: seq<Byte>)
      requires core.Valid() && mem.Length == core.stripe && memsize + |y| == core.stripe
      modifies `acc, `memsize, `totalLen, mem
      ensures memsize == 0 && Model() == Filled(core, old(Model()), y)
    {
      Write(memsize, y);
      assert mem[..] == mem[..core.stripe];
      acc := core.consume(acc, mem[..]);
      memsize := 0;
      totalLen := totalLen + |y|;
    }

    method DrainInput(input: seq<Byte>)
      requires core.Valid() && mem.Length == core.stripe && memsize == 0
      modifies `acc, `memsize, `totalLen, mem
      ensures memsize < core.stripe && Model() == Drained(core, old(Model()), input)
    {
      var rest := ConsumeStripes(input);
      if |rest| > 0 {
        Write(0, rest);
        memsize := |rest|;
      }
      totalLen := totalLen + |input|;
    }

    /** The part of update_impl that moves bytes. */
    method Absorb(x: seq<Byte>)
      requires core.Valid() && mem.Length == core.stripe && memsize < core.stripe
      modifies `acc, `memsize, `totalLen, mem
      ensures memsize < core.stripe && Model() == Updated(core, old(Model()), x)
    {
      if memsize + |x| < core.stripe {
        Write(memsize, x);
        memsize := memsize + |x|;
        totalLen := totalLen + |x|;
      } else {
        ghost var before := Model();
        var rest := x;
        if memsize > 0 {
          rest := x[core.stripe - memsize..];
          FillMem(x[..core.stripe - memsize]);
        }
        ghost var filled := Model();
        DrainInput(rest);
        Overflows(core, before, x, filled, rest);
      }
    }

    /** update_impl */
    method Update(x: seq<Byte>)
      requires Valid()
      modifies this, mem
      ensures Valid() && mem == old(mem) && chunks == old(chunks) + [x]
    {
      Absorb(x);
      chunks := chunks + [x];
      assert chunks[..|chunks| - 1] == old(chunks);
    }

    /** digest_impl */
    method Digest() returns (h: H)
      requires Valid()
      ensures h == OneShot(core, Concat(chunks))
    {
      StreamingIsOneShot(core, chunks);
      h := if totalLen >= core.stripe then core.merge(acc) else core.small(acc);
      h := core.ending(core.addLength(h, totalLen), mem[..memsize]);
    }
  }
}
