/** Little-endian words: masking, shifting and reading them is taking, dropping and reading bytes. */
module LittleEndian {
  import opened ByteStreams

  /** The operations on words: a byte put below the others, the low n bytes, the bytes from the n-th on, and the
      i-th byte. */
  datatype Ops<!B, !W> = Ops(zero: W, push: (B, W) -> W, keep: (W, nat) -> W, drop: (W, nat) -> W,
                         at: (W, nat) -> B)

  /** The word of some bytes: what copying them into a zeroed word gives. */
  function Pack<B, W>(o: Ops<B, W>, s: seq<B>): W {
    if s == [] then o.zero else o.push(s[0], Pack(o, s[1..]))
  }

  function First<B>(s: seq<B>, n: nat): seq<B> {
    if |s| <= n then s else s[..n]
  }

  function Rest<B>(s: seq<B>, n: nat): seq<B> {
    if |s| <= n then [] else s[n..]
  }

  ghost predicate KeepLaw<B(!new), W(!new)>(o: Ops<B, W>) {
    && (forall w :: o.keep(w, 0) == o.zero)
    && (forall n: nat :: n <= 8 ==> o.keep(o.zero, n) == o.zero)
    && (forall b, w, n: nat :: 0 < n <= 8 ==> o.keep(o.push(b, w), n) == o.push(b, o.keep(w, n - 1)))
  }

  ghost predicate DropLaw<B(!new), W(!new)>(o: Ops<B, W>) {
    && (forall w :: o.drop(w, 0) == w)
    && (forall n: nat :: n < 8 ==> o.drop(o.zero, n) == o.zero)
    && (forall b, w, n: nat :: 0 < n < 8 && o.keep(w, 7) == w ==> o.drop(o.push(b, w), n) == o.drop(w, n - 1))
  }

  ghost predicate AtLaw<B(!new), W(!new)>(o: Ops<B, W>) {
    && (forall b, w :: o.at(o.push(b, w), 0) == b)
    && (forall b, w, i: nat :: 0 < i < 8 && o.keep(w, 7) == w ==> o.at(o.push(b, w), i) == o.at(w, i - 1))
  }

  ghost predicate Lawful<B(!new), W(!new)>(o: Ops<B, W>) {
    KeepLaw(o) && DropLaw(o) && AtLaw(o)
  }

  lemma {:induction false} KeepsFirst<B(!new), W(!new)>(o: Ops<B, W>, s: seq<B>, n: nat)
    requires KeepLaw(o) && |s| <= 8 && n <= 8
    ensures o.keep(Pack(o, s), n) == Pack(o, First(s, n))
  {
    if n > 0 && s != [] {
      KeepsFirst(o, s[1..], n - 1);
      assert First(s, n)[1..] == First(s[1..], n - 1);
    }
  }

  lemma {:induction false} DropsToRest<B(!new), W(!new)>(o: Ops<B, W>, s: seq<B>, n: nat)
    requires KeepLaw(o) && DropLaw(o) && |s| <= 8 && n < 8
    ensures o.drop(Pack(o, s), n) == Pack(o, Rest(s, n))
  {
    if n == 0 {
      assert Rest(s, 0) == s;
    } else if s != [] {
      KeepsFirst(o, s[1..], 7);
      DropsToRest(o, s[1..], n - 1);
      assert Rest(s, n) == Rest(s[1..], n - 1);
    }
  }

  lemma {:induction false} ReadsByte<B(!new), W(!new)>(o: Ops<B, W>, s: seq<B>, i: nat)
    requires KeepLaw(o) && AtLaw(o) && i < |s| <= 8
    ensures o.at(Pack(o, s), i) == s[i]
  {
    if i > 0 {
      KeepsFirst(o, s[1..], 7);
      ReadsByte(o, s[1..], i - 1);
    }
  }

  // ---- 64-bit words ---------------------------------------------------------------------------------

  /** The word whose low n bytes are all ones. */
  function Low(n: nat): bv64 {
    match n
    case 0 => 0
    case 1 => 0xFF
    case 2 => 0xFFFF
    case 3 => 0xFF_FFFF
    case 4 => 0xFFFF_FFFF
    case 5 => 0xFF_FFFF_FFFF
    case 6 => 0xFFFF_FFFF_FFFF
    case 7 => 0xFF_FFFF_FFFF_FFFF
    case _ => 0xFFFF_FFFF_FFFF_FFFF
  }

  function Push(b: Byte, w: bv64): bv64 {
    (b as bv64) | (w << 8)
  }

  function Mask(w: bv64, n: nat): bv64 {
    w & Low(n)
  }

  function Shift(w: bv64, n: nat): bv64 {
    match n
    case 0 => w
    case 1 => w >> 8
    case 2 => w >> 16
    case 3 => w >> 24
    case 4 => w >> 32
    case 5 => w >> 40
    case 6 => w >> 48
    case 7 => w >> 56
    case _ => 0
  }

  function ByteOf(w: bv64, i: nat): Byte {
    (Shift(w, i) & 0xFF) as Byte
  }

  function Bits(): Ops<Byte, bv64> {
    Ops(0, Push, Mask, Shift, ByteOf)
  }

  /** Shifts by a number of bits. */
  function ShiftRight(w: bv64, bits: nat): bv64
    requires bits < 64
  {
    w >> bits
  }

  function ShiftLeft(w: bv64, bits: nat): bv64
    requires bits < 64
  {
    w << bits
  }

  /** The mask and the shift as they are written. */
  lemma OnesShifted(n: nat)
    requires n < 8
    ensures !ShiftLeft(!0, 8 * n) == Low(n)
  {
    match n case 0 => case 1 => case 2 => case 3 => case 4 => case 5 => case 6 => case _ =>
  }

  lemma ShiftWritten(w: bv64, n: nat)
    requires n < 8
    ensures ShiftRight(w, 8 * n) == Shift(w, n)
  {
    match n
    case 0 => assert ShiftRight(w, 0) == w;
    case 1 => assert ShiftRight(w, 8) == w >> 8;
    case 2 => assert ShiftRight(w, 16) == w >> 16;
    case 3 => assert ShiftRight(w, 24) == w >> 24;
    case 4 => assert ShiftRight(w, 32) == w >> 32;
    case 5 => assert ShiftRight(w, 40) == w >> 40;
    case 6 => assert ShiftRight(w, 48) == w >> 48;
    case _ => assert ShiftRight(w, 56) == w >> 56;
  }

  lemma LowStep(b: Byte, w: bv64, n: nat)
    requires 0 < n <= 8
    ensures ((b as bv64) | (w << 8)) & Low(n) == (b as bv64) | ((w & Low(n - 1)) << 8)
  {
    match n case 1 => case 2 => case 3 => case 4 => case 5 => case 6 => case 7 => case _ =>
  }

  lemma MaskStep(b: Byte, w: bv64, n: nat)
    requires 0 < n <= 8
    ensures Mask(Push(b, w), n) == Push(b, Mask(w, n - 1))
  {
    LowStep(b, w, n);
  }

  lemma MaskEdges(w: bv64, n: nat)
    ensures Mask(w, 0) == 0 && Mask(0, n) == 0
  {
  }

  lemma BitsKeep()
    ensures KeepLaw(Bits())
  {
    forall w ensures Mask(w, 0) == 0 { MaskEdges(w, 0); }
    forall n: nat | n <= 8 ensures Mask(0, n) == 0 { MaskEdges(0, n); }
    forall b, w, n: nat | 0 < n <= 8 ensures Mask(Push(b, w), n) == Push(b, Mask(w, n - 1)) { MaskStep(b, w, n); }
  }

  lemma ShiftTwice(w: bv64, n: nat)
    requires 0 < n < 8
    ensures Shift(w, n) == Shift(w >> 8, n - 1)
  {
    match n case 1 => case 2 => case 3 => case 4 => case 5 => case 6 => case _ =>
  }

  lemma ShiftByte(b: Byte, w: bv64)
    requires Mask(w, 7) == w
    ensures Push(b, w) >> 8 == w
  {
  }

  lemma ShiftStep(b: Byte, w: bv64, n: nat)
    requires 0 < n < 8 && Mask(w, 7) == w
    ensures Shift(Push(b, w), n) == Shift(w, n - 1)
  {
    ShiftByte(b, w);
    ShiftTwice(Push(b, w), n);
  }

  lemma ShiftEdges(w: bv64, n: nat)
    ensures Shift(w, 0) == w && Shift(0, n) == 0
  {
  }

  lemma BitsDrop()
    ensures DropLaw(Bits())
  {
    forall w ensures Shift(w, 0) == w { ShiftEdges(w, 0); }
    forall n: nat | n < 8 ensures Shift(0, n) == 0 { ShiftEdges(0, n); }
    forall b, w, n: nat | 0 < n < 8 && Mask(w, 7) == w ensures Shift(Push(b, w), n) == Shift(w, n - 1) { ShiftStep(b, w, n); }
  }

  lemma LowestByte(b: Byte, w: bv64)
    ensures (Push(b, w) & 0xFF) as Byte == b
  {
  }

  lemma FirstByte(b: Byte, w: bv64)
    ensures ByteOf(Push(b, w), 0) == b
  {
    ShiftEdges(Push(b, w), 0);
    LowestByte(b, w);
  }

  lemma NextByte(b: Byte, w: bv64, i: nat)
    requires 0 < i < 8 && Mask(w, 7) == w
    ensures ByteOf(Push(b, w), i) == ByteOf(w, i - 1)
  {
    ShiftStep(b, w, i);
  }

  lemma BitsAt()
    ensures AtLaw(Bits())
  {
    forall b, w ensures ByteOf(Push(b, w), 0) == b { FirstByte(b, w); }
    forall b, w, i: nat | 0 < i < 8 && Mask(w, 7) == w ensures ByteOf(Push(b, w), i) == ByteOf(w, i - 1) { NextByte(b, w, i); }
  }

  lemma BitsLawful()
    ensures Lawful(Bits())
  {
    BitsKeep();
    BitsDrop();
    BitsAt();
  }

  // ---- Words and bytes ---------------------------------------------------------------------------------

  /** The little-endian word of at most 8 bytes. */
  function LE(s: seq<Byte>): bv64 {
    Pack(Bits(), s)
  }

  /** The conversion to 32 bits. */
  function Narrow(w: bv64): bv32 {
    (w & 0xFFFF_FFFF) as bv32
  }

  function ByteOf32(w: bv32, i: nat): Byte {
    match i
    case 0 => (w & 0xFF) as Byte
    case 1 => ((w >> 8) & 0xFF) as Byte
    case 2 => ((w >> 16) & 0xFF) as Byte
    case _ => ((w >> 24) & 0xFF) as Byte
  }

  lemma MaskedIsFirst(s: seq<Byte>, n: nat)
    requires |s| <= 8 && n < 8
    ensures LE(s) & !ShiftLeft(!0, 8 * n) == LE(First(s, n))
  {
    BitsLawful();
    KeepsFirst(Bits(), s, n);
    OnesShifted(n);
  }

  lemma ShiftedIsRest(s: seq<Byte>, n: nat)
    requires |s| <= 8 && n < 8
    ensures ShiftRight(LE(s), 8 * n) == LE(Rest(s, n))
  {
    BitsLawful();
    DropsToRest(Bits(), s, n);
    ShiftWritten(LE(s), n);
  }

  lemma ByteIs(s: seq<Byte>, i: nat)
    requires i < |s| <= 8
    ensures ByteOf(LE(s), i) == s[i]
  {
    BitsLawful();
    ReadsByte(Bits(), s, i);
  }

  lemma NarrowMasks(w: bv64)
    ensures Narrow(Mask(w, 4)) == Narrow(w)
  {
  }

  lemma NarrowIsFirst(s: seq<Byte>)
    requires |s| <= 8
    ensures Narrow(LE(s)) == Narrow(LE(First(s, 4)))
  {
    BitsLawful();
    KeepsFirst(Bits(), s, 4);
    NarrowMasks(LE(s));
  }

  lemma NarrowByte(w: bv64, i: nat)
    requires i < 4
    ensures ByteOf32(Narrow(w), i) == ByteOf(w, i)
  {
    match i case 0 => case 1 => case 2 => case _ =>
  }

  /** The first four bytes can be read back from the narrow word. */
  lemma NarrowByteIs(s: seq<Byte>, i: nat)
    requires i < 4 && i < |s| <= 8
    ensures ByteOf32(Narrow(LE(s)), i) == s[i]
  {
    NarrowByte(LE(s), i);
    ByteIs(s, i);
  }
}
