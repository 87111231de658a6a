/** MD5 over streams: padding, the byte counters, the context and the digest of a list of strings. */
module Md5 {
  import opened ByteStreams
  import opened Xxh
  import opened Md5Blocks

  const BLOCK := 64
  const TWO29 := 0x2000_0000
  const TWO32 := 0x1_0000_0000
  const TWO61 := 0x2000_0000_0000_0000
  const TWO64 := 0x1_0000_0000_0000_0000

  function Start(): Regs {
    Regs(0x67452301, 0xefcdab89, 0x98badcfe, 0x10325476)
  }

  /** The scheme that MD5 shares with the other streaming hashes, with 64-byte stripes.  What follows
      holds for any transformation of a block. */
  type Scheme = Core<Regs, Regs>

  ghost predicate Usable(c: Scheme) {
    c.stripe == BLOCK
  }

  /** MD5 itself. */
  function Chain(): (c: Scheme)
    ensures Usable(c)
  {
    Core(BLOCK, Start(), (r: Regs, block: seq<Byte>) => Transform(r, block), (r: Regs) => r, (r: Regs) => r,
         (r: Regs, n: nat) => r, (r: Regs, t: seq<Byte>) => r)
  }

  // ---- RFC 1321, sections 3.1, 3.2 and 3.5 --------------------------------------------------------

  function ByteOf(n: nat): Byte {
    (n % 256) as Byte
  }

  /** Low-order byte first. */
  function LE32(n: nat): (r: seq<Byte>)
    ensures |r| == 4
  {
    [ByteOf(n), ByteOf(n / 0x100), ByteOf(n / 0x1_0000), ByteOf(n / 0x100_0000)]
  }

  function Zeros(n: nat): (r: seq<Byte>)
    ensures |r| == n
  {
    seq(n, i => 0 as Byte)
  }

  /** How many zero bytes bring n + 1 bytes to 56 modulo 64. */
  function PadZeros(n: nat): (k: nat)
    ensures k < BLOCK && (n + 1 + k) % BLOCK == 56
  {
    if n % BLOCK <= 55 then 55 - n % BLOCK else 119 - n % BLOCK
  }

  /** The length in bits, modulo 2^64, as two words, low-order word first. */
  function LengthBytes(n: nat): (r: seq<Byte>)
    ensures |r| == 8
  {
    LE32((8 * n) % TWO64 % TWO32) + LE32((8 * n) % TWO64 / TWO32)
  }

  /** t, a one bit, zeros, and the length. */
  function PadWith(t: seq<Byte>, length: seq<Byte>): seq<Byte> {
    t + ([0x80] + Zeros(PadZeros(|t|)) + length)
  }

  function Pad(t: seq<Byte>): seq<Byte> {
    PadWith(t, LengthBytes(|t|))
  }

  /** Bytes of a register, low-order byte first. */
  function RegisterBytes(r: bv32): (b: seq<Byte>)
    ensures |b| == 4
  {
    [(r & 0xff) as Byte, ((r >> 8) & 0xff) as Byte, ((r >> 16) & 0xff) as Byte, ((r >> 24) & 0xff) as Byte]
  }

  function Output(r: Regs): (b: seq<Byte>)
    ensures |b| == 16
  {
    RegisterBytes(r.a) + RegisterBytes(r.b) + RegisterBytes(r.c) + RegisterBytes(r.d)
  }

  /** Section 3.3 gives the four registers by their bytes, low-order byte first. */
  lemma StartBytes()
    ensures Output(Start()) == [0x01, 0x23, 0x45, 0x67, 0x89, 0xab, 0xcd, 0xef, 0xfe, 0xdc, 0xba, 0x98, 0x76, 0x54, 0x32, 0x10]
  {
    var r := Start();
    assert RegisterBytes(r.a) == [0x01, 0x23, 0x45, 0x67];
    assert RegisterBytes(r.b) == [0x89, 0xab, 0xcd, 0xef];
    assert RegisterBytes(r.c) == [0xfe, 0xdc, 0xba, 0x98];
    assert RegisterBytes(r.d) == [0x76, 0x54, 0x32, 0x10];
  }

  /** The message digest. */
  function DigestWith(c: Scheme, t: seq<Byte>): (b: seq<Byte>)
    requires Usable(c)
    ensures |b| == 16
  {
    Output(Fold(c, c.init, Pad(t)))
  }

  function Digest(t: seq<Byte>): (b: seq<Byte>)
    ensures |b| == 16
  {
    DigestWith(Chain(), t)
  }

  // ---- The byte counters ------------------------------------------------------------------------------

  /** lo holds 29 bits and hi 32 bits of the number of bytes, which is kept modulo 2^61. */
  ghost predicate Counted(lo: nat, hi: nat, n: nat) {
    lo < TWO29 && hi < TWO32 && n % TWO61 == hi * TWO29 + lo
  }

  lemma SplitLow(lo: nat, size: nat) returns (q: nat, c: nat)
    requires lo < TWO29
    ensures q == size / TWO29 && c == (if (lo + size) % TWO29 < lo then 1 else 0)
    ensures lo + size == (q + c) * TWO29 + (lo + size) % TWO29
  {
    q := size / TWO29;
    var r := size % TWO29;
    assert size == q * TWO29 + r;
    if lo + r < TWO29 {
      c := 0;
      assert (q * TWO29 + (lo + r)) % TWO29 == lo + r;
    } else {
      c := 1;
      assert ((q + 1) * TWO29 + (lo + r - TWO29)) % TWO29 == lo + r - TWO29;
    }
  }

  lemma SplitHigh(n: nat, hi: nat, more: nat, lo: nat)
    requires hi < TWO32 && lo < TWO29 && n % TWO61 == hi * TWO29
    ensures (n + more * TWO29 + lo) % TWO61 == (hi + more) % TWO32 * TWO29 + lo
  {
    var a := n / TWO61;
    var b, h := (hi + more) / TWO32, (hi + more) % TWO32;
    assert n == a * TWO61 + hi * TWO29;
    assert hi + more == b * TWO32 + h;
    assert n + more * TWO29 + lo == (a + b) * TWO61 + (h * TWO29 + lo);
    ModOf(a + b, h * TWO29 + lo);
  }

  lemma ModOf(a: nat, r: nat)
    requires r < TWO61
    ensures (a * TWO61 + r) % TWO61 == r
  {
  }

  /** The counter update, carry included, counts every byte. */
  lemma CountMore(lo: nat, hi: nat, n: nat, size: nat)
    requires Counted(lo, hi, n)
    ensures var lo1 := (lo + size) % TWO29;
            var hi1 := (hi + (if lo1 < lo then 1 else 0) + size / TWO29) % TWO32;
            Counted(lo1, hi1, n + size)
  {
    var q, c := SplitLow(lo, size);
    var lo1 := (lo + size) % TWO29;
    assert (n - lo) % TWO61 == hi * TWO29 by { LowPart(n, hi, lo); }
    SplitHigh(n - lo, hi, q + c, lo1);
    assert n + size == (n - lo) + (q + c) * TWO29 + lo1;
  }

  lemma LowPart(n: nat, hi: nat, lo: nat)
    requires n % TWO61 == hi * TWO29 + lo
    ensures n >= lo && (n - lo) % TWO61 == hi * TWO29
  {
    var a := n / TWO61;
    assert n - lo == a * TWO61 + hi * TWO29;
    ModOf(a, hi * TWO29);
  }

  /** lo & 0x3f is the number of pending bytes. */
  lemma UsedIsPending(lo: nat, hi: nat, n: nat)
    requires Counted(lo, hi, n)
    ensures lo % BLOCK == n % BLOCK
  {
    var a := n / TWO61;
    var k := a * (TWO61 / BLOCK) + hi * (TWO29 / BLOCK);
    assert n == BLOCK * k + lo;
  }

  lemma {:induction false} WholeIsMod(n: nat)
    ensures Whole(n, BLOCK) == n - n % BLOCK
  {
    if n >= BLOCK {
      WholeIsMod(n - BLOCK);
    }
  }

  lemma BitsArithmetic(lo: nat, hi: nat, n: nat)
    requires Counted(lo, hi, n)
    ensures (8 * n) % TWO64 == hi * TWO32 + lo * 8 && lo * 8 < TWO32
  {
    var a := n / TWO61;
    var v := hi * TWO32 + lo * 8;
    assert n == a * TWO61 + (hi * TWO29 + lo);
    assert 8 * n == a * TWO64 + v;
    ModOf64(a, v);
  }

  lemma ModOf64(a: nat, r: nat)
    requires r < TWO64
    ensures (a * TWO64 + r) % TWO64 == r
  {
  }

  lemma WordsOf(hi: nat, low: nat)
    requires low < TWO32
    ensures (hi * TWO32 + low) % TWO32 == low == low % TWO32 && (hi * TWO32 + low) / TWO32 == hi
  {
  }

  /** The two words that Final appends are the length in bits. */
  lemma BitsOf(lo: nat, hi: nat, n: nat)
    requires Counted(lo, hi, n)
    ensures (8 * n) % TWO64 % TWO32 == (lo * 8) % TWO32 && (8 * n) % TWO64 / TWO32 == hi
  {
    BitsArithmetic(lo, hi, n);
    WordsOf(hi, lo * 8);
  }

  // ---- Padding, seen from the pending bytes ---------------------------------------------------------------

  /** What Final appends after the last whole block. */
  function LastBlocks(pending: seq<Byte>, length: seq<Byte>): seq<Byte>
    requires |pending| < BLOCK
  {
    if |pending| <= 55 then pending + [0x80] + Zeros(55 - |pending|) + length
    else pending + [0x80] + Zeros(63 - |pending|) + (Zeros(56) + length)
  }

  lemma PadZerosOf(c: nat, p: nat) returns (k: nat)
    requires c % BLOCK == 0 && p < BLOCK
    ensures k == PadZeros(c + p) && k == if p <= 55 then 55 - p else 119 - p
  {
    assert (c + p) % BLOCK == p;
    k := PadZeros(c + p);
  }

  lemma JoinPieces(c: seq<Byte>, p: seq<Byte>, one: seq<Byte>, z: seq<Byte>, l: seq<Byte>)
    ensures (c + p) + (one + z + l) == c + (p + one + z + l)
  {
  }

  lemma JoinSplit(p: seq<Byte>, y: seq<Byte>, z: seq<Byte>, l: seq<Byte>)
    ensures p + (y + z) + l == p + y + (z + l)
  {
  }

  lemma ZerosAdd(m: nat, n: nat)
    ensures Zeros(m + n) == Zeros(m) + Zeros(n)
  {
  }

  /** Padding only touches what is pending. */
  lemma PadIsLastBlocks(consumed: seq<Byte>, pending: seq<Byte>, length: seq<Byte>)
    requires |consumed| % BLOCK == 0 && |pending| < BLOCK
    ensures PadWith(consumed + pending, length) == consumed + LastBlocks(pending, length)
  {
    var k := PadZerosOf(|consumed|, |pending|);
    PadJoined(consumed, pending, length, k);
  }

  lemma PadJoined(consumed: seq<Byte>, pending: seq<Byte>, length: seq<Byte>, k: nat)
    requires |pending| < BLOCK && k == PadZeros(|consumed| + |pending|)
    requires k == if |pending| <= 55 then 55 - |pending| else 119 - |pending|
    ensures PadWith(consumed + pending, length) == consumed + LastBlocks(pending, length)
  {
    PadWithUnfolded(consumed, pending, length, k);
    LastBlocksJoined(pending, length, k);
    JoinPieces(consumed, pending, [0x80], Zeros(k), length);
  }

  lemma PadWithUnfolded(consumed: seq<Byte>, pending: seq<Byte>, length: seq<Byte>, k: nat)
    requires k == PadZeros(|consumed| + |pending|)
    ensures PadWith(consumed + pending, length) == (consumed + pending) + ([0x80] + Zeros(k) + length)
  {
  }

  lemma LastBlocksJoined(pending: seq<Byte>, length: seq<Byte>, k: nat)
    requires |pending| < BLOCK && k == if |pending| <= 55 then 55 - |pending| else 119 - |pending|
    ensures LastBlocks(pending, length) == pending + [0x80] + Zeros(k) + length
  {
    if |pending| > 55 {
      ZerosAdd(63 - |pending|, 56);
      JoinSplit(pending + [0x80], Zeros(63 - |pending|), Zeros(56), length);
    }
  }

  lemma TwoBlocks(c: Scheme, r: Regs, first: seq<Byte>, second: seq<Byte>)
    requires Usable(c) && |first| == BLOCK && |second| == BLOCK
    ensures Fold(c, r, first + second) == c.consume(c.consume(r, first), second)
  {
    assert Whole(BLOCK, BLOCK) == BLOCK;
    FoldConcat(c, r, first, second);
    FoldOne(c, r, first);
    FoldOne(c, c.consume(r, first), second);
  }

  // ---- The context -----------------------------------------------------------------------------------------

  class Context {
    const chain: Scheme
    var lo: nat
    var hi: nat
    var regs: Regs
    var buffer: array<Byte>
    ghost var chunks: seq<seq<Byte>>

    ghost predicate Valid()
      reads this, buffer
    {
      && Usable(chain) && buffer.Length == BLOCK
      && Counted(lo, hi, |Concat(chunks)|)
      && State(regs, buffer[..lo % BLOCK], |Concat(chunks)|) == Run(chain, chunks)
    }

    /** MD5_Init */
    constructor (chain: Scheme)
      requires Usable(chain)
      ensures Valid() && fresh(buffer) && this.chain == chain && chunks == []
    {
      this.chain := chain;
      regs := chain.init;
      lo, hi := 0, 0;
      buffer := new Byte[BLOCK](_ => 0);
      chunks := [];
    }

    /** memcpy(&buffer[at], x, |x|) */
    method Write(at: nat, x: seq<Byte>)
      requires at + |x| <= buffer.Length
      modifies buffer
      ensures buffer[..at + |x|] == old(buffer[..at]) + x
      ensures buffer[at + |x|..] == old(buffer[at + |x|..])
    {
      var i := 0;
      while i < |x|
        invariant 0 <= i <= |x|
        invariant buffer[..at + i] == old(buffer[..at]) + x[..i]
        invariant buffer[at + i..] == old(buffer[at + i..])
      {
        buffer[at + i] := x[i];
        i := i + 1;
        assert buffer[..at + i] == buffer[..at + i - 1] + [x[i - 1]];
        assert x[..i] == x[..i - 1] + [x[i - 1]];
      }
      assert x[..i] == x;
    }

    /** body: one or more whole blocks. */
    method Body(data: seq<Byte>)
      requires Usable(chain) && Whole(|data|, BLOCK) == |data|
      modifies `regs
      ensures regs == Fold(chain, old(regs), data)
    {
      var p := 0;
      assert data[0..] == data;
      while p < |data|
        invariant p <= |data| && Whole(|data| - p, BLOCK) == |data| - p
        invariant Fold(chain, regs, data[p..]) == Fold(chain, old(regs), data)
        decreases |data| - p
      {
        assert data[p..][..BLOCK] == data[p..p + BLOCK] && data[p..][BLOCK..] == data[p + BLOCK..];
        regs := chain.consume(regs, data[p..p + BLOCK]);
        p := p + BLOCK;
      }
      assert data[p..] == [];
    }

    /** MD5_Update */
    method Update(x: seq<Byte>)
      requires Valid()
      modifies this, buffer
      ensures Valid() && buffer == old(buffer) && chunks == old(chunks) + [x]
    {
      ghost var before := Run(chain, chunks);
      var savedLo := lo;
      CountMore(lo, hi, |Concat(chunks)|, |x|);
      lo := (savedLo + |x|) % TWO29;
      hi := (hi + (if lo < savedLo then 1 else 0) + |x| / TWO29) % TWO32;
      Absorb(savedLo % BLOCK, x, before);
      chunks := chunks + [x];
      assert chunks[..|chunks| - 1] == old(chunks);
      PendingAfter(chain, chunks, lo, hi);
    }

    /** The part of MD5_Update that moves bytes. */
    method Absorb(used: nat, x: seq<Byte>, ghost before: State<Regs>)
      requires Usable(chain) && buffer.Length == BLOCK && used < BLOCK && regs == before.acc && buffer[..used] == before.pending
      modifies `regs, buffer
      ensures var after := Updated(chain, before, x);
              regs == after.acc && |after.pending| < BLOCK && buffer[..|after.pending|] == after.pending
    {
      if used > 0 {
        var available := BLOCK - used;
        if |x| < available {
          Write(used, x);
          return;
        }
        Write(used, x[..available]);
        assert buffer[..] == buffer[..BLOCK];
        regs := chain.consume(regs, buffer[..]);
        Rest(x[available..]);
      } else {
        Rest(x);
      }
    }

    /** The whole blocks of the rest of the input are hashed, and what remains is kept. */
    method Rest(x: seq<Byte>)
      requires Usable(chain) && buffer.Length == BLOCK
      modifies `regs, buffer
      ensures regs == Fold(chain, old(regs), x[..Whole(|x|, BLOCK)])
      ensures buffer[..|x| - Whole(|x|, BLOCK)] == x[Whole(|x|, BLOCK)..]
    {
      WholeIsMod(|x|);
      WholeIsWhole(|x|, BLOCK);
      var rest := x;
      if |x| >= BLOCK {
        Body(x[..|x| - |x| % BLOCK]);
        rest := x[|x| - |x| % BLOCK..];
      } else {
        assert x[..0] == [];
      }
      Write(0, rest);
    }

    /** Completes a block that starts with prefix by zeros and the two length words, and hashes it. */
    method LastBlock(used: nat, ghost prefix: seq<Byte>, low: seq<Byte>, high: seq<Byte>)
      requires buffer.Length == BLOCK && used <= 56 && buffer[..used] == prefix && |low| == 4 && |high| == 4
      modifies `regs, buffer
      ensures regs == chain.consume(old(regs), prefix + Zeros(56 - used) + (low + high))
    {
      Write(used, Zeros(56 - used));
      Write(56, low);
      Write(60, high);
      assert buffer[..] == buffer[..BLOCK];
      assert prefix + Zeros(56 - used) + low + high == prefix + Zeros(56 - used) + (low + high);
      regs := chain.consume(regs, buffer[..]);
    }

    /** The two words of the length in bits. */
    method LengthWords(ghost n: nat) returns (low: seq<Byte>, high: seq<Byte>)
      requires Counted(lo, hi, n)
      ensures |low| == 4 && |high| == 4 && low + high == LengthBytes(n)
    {
      BitsOf(lo, hi, n);
      low := LE32((lo * 8) % TWO32);
      high := LE32(hi);
    }

    /** MD5_Final */
    method Final() returns (result: seq<Byte>)
      requires Valid()
      modifies this, buffer
      ensures result == DigestWith(chain, Concat(old(chunks)))
    {
      ghost var pending := Run(chain, chunks).pending;
      var low, high := LengthWords(|Concat(chunks)|);
      FinalRegs(chain, chunks, pending);
      Complete(lo % BLOCK, pending, low, high);
      result := Output(regs);
    }

    /** Puts the end mark behind the pending bytes and hashes the one or two last blocks. */
    method Complete(pos: nat, ghost pending: seq<Byte>, low: seq<Byte>, high: seq<Byte>)
      requires buffer.Length == BLOCK && pos < BLOCK && buffer[..pos] == pending && |low| == 4 && |high| == 4
      modifies `regs, buffer
      ensures regs == if |pending| <= 55 then chain.consume(old(regs), pending + [0x80] + Zeros(55 - |pending|) + (low + high))
                      else chain.consume(chain.consume(old(regs), pending + [0x80] + Zeros(63 - |pending|)), Zeros(56) + (low + high))
    {
      var used := pos;
      Write(used, [0x80]);
      used := used + 1;
      var available := BLOCK - used;
      if available < 8 {
        LastTwoBlocks(used, pending + [0x80], low, high);
      } else {
        LastBlock(used, pending + [0x80], low, high);
      }
    }

    /** Fills the block with zeros when the length does not fit any more, and puts it into another one. */
    method LastTwoBlocks(used: nat, ghost prefix: seq<Byte>, low: seq<Byte>, high: seq<Byte>)
      requires buffer.Length == BLOCK && used <= BLOCK && buffer[..used] == prefix && |low| == 4 && |high| == 4
      modifies `regs, buffer
      ensures regs == chain.consume(chain.consume(old(regs), prefix + Zeros(BLOCK - used)), Zeros(56) + (low + high))
    {
      Write(used, Zeros(BLOCK - used));
      assert buffer[..] == buffer[..BLOCK];
      regs := chain.consume(regs, buffer[..]);
      LastBlock(0, [], low, high);
      assert [] + Zeros(56) == Zeros(56);
    }
  }

  /** After an update lo & 0x3f bytes are pending. */
  lemma PendingAfter(c: Scheme, chunks: seq<seq<Byte>>, lo: nat, hi: nat)
    requires Usable(c) && Counted(lo, hi, |Concat(chunks)|)
    ensures |Run(c, chunks).pending| == lo % BLOCK && Run(c, chunks).total == |Concat(chunks)|
  {
    BufferedIsRemainder(c, chunks);
    UsedIsPending(lo, hi, |Concat(chunks)|);
    WholeIsMod(|Concat(chunks)|);
  }

  /** The last one or two blocks complete the digest. */
  lemma FinalRegs(c: Scheme, chunks: seq<seq<Byte>>, pending: seq<Byte>)
    requires Usable(c) && pending == Run(c, chunks).pending
    ensures |pending| < BLOCK
    ensures var r, length := Run(c, chunks).acc, LengthBytes(|Concat(chunks)|);
            DigestWith(c, Concat(chunks)) == Output(
              if |pending| <= 55 then c.consume(r, pending + [0x80] + Zeros(55 - |pending|) + length)
              else c.consume(c.consume(r, pending + [0x80] + Zeros(63 - |pending|)), Zeros(56) + length))
  {
    var t := Concat(chunks);
    var w := Whole(|t|, BLOCK);
    BufferedIsRemainder(c, chunks);
    WholeIsWhole(|t|, BLOCK);
    assert t == t[..w] + pending;
    FinalFold(c, t[..w], pending, LengthBytes(|t|));
  }

  lemma FinalFold(c: Scheme, consumed: seq<Byte>, pending: seq<Byte>, length: seq<Byte>)
    requires Usable(c) && Whole(|consumed|, BLOCK) == |consumed| && |pending| < BLOCK && |length| == 8
    ensures var r := Fold(c, c.init, consumed);
            Fold(c, c.init, PadWith(consumed + pending, length)) ==
              if |pending| <= 55 then c.consume(r, pending + [0x80] + Zeros(55 - |pending|) + length)
              else c.consume(c.consume(r, pending + [0x80] + Zeros(63 - |pending|)), Zeros(56) + length)
  {
    WholeIsMod(|consumed|);
    PadIsLastBlocks(consumed, pending, length);
    FoldConcat(c, c.init, consumed, LastBlocks(pending, length));
    var r := Fold(c, c.init, consumed);
    if |pending| <= 55 {
      FoldOne(c, r, pending + [0x80] + Zeros(55 - |pending|) + length);
    } else {
      TwoBlocks(c, r, pending + [0x80] + Zeros(63 - |pending|), Zeros(56) + length);
    }
  }

  // ---- md5Strings ----------------------------------------------------------------------------------------------

  /** Every string followed by a line feed. */
  function Lines(strings: seq<seq<Byte>>): seq<Byte> {
    if strings == [] then [] else Lines(strings[..|strings| - 1]) + strings[|strings| - 1] + [10]
  }

  function Nibble(v: nat): (c: char)
    requires v < 16
  {
    if v < 10 then '0' + (v as char) else 'a' + ((v - 10) as char)
  }

  function FromNibble(c: char): nat {
    if '0' <= c <= '9' then (c - '0') as nat else if 'a' <= c <= 'f' then (c - 'a') as nat + 10 else 0
  }

  function Hex(bytes: seq<Byte>): (r: string)
    ensures |r| == 2 * |bytes|
  {
    if bytes == [] then "" else Hex(bytes[..|bytes| - 1]) + HexByte(bytes[|bytes| - 1])
  }

  function HexByte(b: Byte): (r: string)
    ensures |r| == 2
  {
    [Nibble((b >> 4) as nat), Nibble((b & 0xf) as nat)]
  }

  function UnhexByte(two: string): nat
    requires |two| == 2
  {
    16 * FromNibble(two[0]) + FromNibble(two[1])
  }

  /** Two digits back to a byte. */
  function Unhex(r: string): seq<nat> {
    if |r| < 2 then [] else Unhex(r[..|r| - 2]) + [UnhexByte(r[|r| - 2..])]
  }

  lemma NibbleRoundTrip(v: nat)
    requires v < 16
    ensures FromNibble(Nibble(v)) == v
  {
  }

  lemma ByteNibbles(b: Byte)
    ensures 16 * ((b >> 4) as nat) + ((b & 0xf) as nat) == b as nat
  {
  }

  lemma HexByteRoundTrip(b: Byte)
    ensures UnhexByte(HexByte(b)) == b as nat
  {
    NibbleRoundTrip((b >> 4) as nat);
    NibbleRoundTrip((b & 0xf) as nat);
    ByteNibbles(b);
  }

  lemma UnhexMore(r: string, two: string)
    requires |two| == 2
    ensures Unhex(r + two) == Unhex(r) + [UnhexByte(two)]
  {
    assert (r + two)[..|r|] == r && (r + two)[|r|..] == two;
  }

  /** A two-digit code for every byte. */
  ghost predicate Decodes(code: Byte -> string, b: Byte, n: nat) {
    |code(b)| == 2 && UnhexByte(code(b)) == n
  }

  function Coded(code: Byte -> string, bytes: seq<Byte>): string {
    if bytes == [] then "" else Coded(code, bytes[..|bytes| - 1]) + code(bytes[|bytes| - 1])
  }

  lemma {:induction false} CodedRoundTrip(code: Byte -> string, bytes: seq<Byte>, numbers: seq<nat>)
    requires |numbers| == |bytes| && forall i :: 0 <= i < |bytes| ==> Decodes(code, bytes[i], numbers[i])
    ensures Unhex(Coded(code, bytes)) == numbers
  {
    if bytes != [] {
      var n := |bytes| - 1;
      CodedRoundTrip(code, bytes[..n], numbers[..n]);
      UnhexMore(Coded(code, bytes[..n]), code(bytes[n]));
      assert Decodes(code, bytes[n], numbers[n]);
      assert numbers == numbers[..n] + [numbers[n]];
    }
  }

  lemma {:induction false} HexIsCoded(bytes: seq<Byte>, code: Byte -> string)
    requires forall b :: code(b) == HexByte(b)
    ensures Hex(bytes) == Coded(code, bytes)
  {
    if bytes != [] { HexIsCoded(bytes[..|bytes| - 1], code); }
  }

  function Numbers(bytes: seq<Byte>): (r: seq<nat>)
    ensures |r| == |bytes| && forall i :: 0 <= i < |bytes| ==> r[i] == bytes[i] as nat
  {
    seq(|bytes|, i requires 0 <= i < |bytes| => bytes[i] as nat)
  }

  /** The text determines the digest. */
  lemma HexRoundTrip(bytes: seq<Byte>)
    ensures Unhex(Hex(bytes)) == Numbers(bytes)
  {
    var code := (b: Byte) => HexByte(b);
    HexIsCoded(bytes, code);
    forall i | 0 <= i < |bytes| ensures Decodes(code, bytes[i], Numbers(bytes)[i]) {
      HexByteRoundTrip(bytes[i]);
    }
    CodedRoundTrip(code, bytes, Numbers(bytes));
  }

  lemma HexMore(bytes: seq<Byte>, b: Byte)
    ensures Hex(bytes + [b]) == Hex(bytes) + [Nibble((b >> 4) as nat)] + [Nibble((b & 0xf) as nat)]
  {
    assert (bytes + [b])[..|bytes|] == bytes;
  }

  method ToHex(raw: seq<Byte>) returns (result: string)
    ensures result == Hex(raw)
  {
    result := "";
    var index := 0;
    while index < |raw|
      invariant 0 <= index <= |raw| && result == Hex(raw[..index])
    {
      HexMore(raw[..index], raw[index]);
      assert raw[..index + 1] == raw[..index] + [raw[index]];
      result := result + [Nibble((raw[index] >> 4) as nat)];
      result := result + [Nibble((raw[index] & 0xf) as nat)];
      index := index + 1;
    }
    assert raw[..|raw|] == raw;
  }

  lemma LineAdded(before: seq<seq<Byte>>, strings: seq<seq<Byte>>, i: nat)
    requires i < |strings| && Concat(before) == Lines(strings[..i])
    ensures Concat(before + [strings[i]] + [[10]]) == Lines(strings[..i + 1])
  {
    var chunks := before + [strings[i]] + [[10]];
    assert chunks[..|chunks| - 1] == before + [strings[i]];
    assert (before + [strings[i]])[..|before|] == before;
    assert strings[..i + 1][..i] == strings[..i];
  }

  /** The loop over the strings. */
  method HashLines(chain: Scheme, strings: seq<seq<Byte>>) returns (raw: seq<Byte>)
    requires Usable(chain)
    ensures raw == DigestWith(chain, Lines(strings))
  {
    var ctx := new Context(chain);
    var i := 0;
    while i < |strings|
      invariant 0 <= i <= |strings| && ctx.Valid() && ctx.chain == chain && fresh(ctx) && fresh(ctx.buffer)
      invariant Concat(ctx.chunks) == Lines(strings[..i])
    {
      ghost var before := ctx.chunks;
      ctx.Update(strings[i]);
      ctx.Update([10]);
      LineAdded(before, strings, i);
      i := i + 1;
    }
    assert strings[..i] == strings;
    raw := ctx.Final();
  }

  method Md5Strings(strings: seq<seq<Byte>>) returns (result: string)
    ensures result == Hex(Digest(Lines(strings)))
  {
    var raw := HashLines(Chain(), strings);
    result := ToHex(raw);
  }
}
