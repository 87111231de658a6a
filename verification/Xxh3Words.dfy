/** 64-bit words as numbers modulo 2^64, and their exclusive or. */
module Xxh3Words {
  import opened ByteStreams

  const TWO32 := 0x1_0000_0000
  const TWO64 := 0x1_0000_0000_0000_0000

  // ---- 64-bit words ---------------------------------------------------------------------------------------

  type Half = n: nat | n < TWO32 witness 0
  type Word64 = n: nat | n < TWO64 witness 0

  function Wrap(n: int): Word64 {
    n % TWO64
  }

  function Low(x: Word64): Half {
    x % TWO32
  }

  function High(x: Word64): Half {
    x / TWO32
  }

  function Pow2(n: nat): nat {
    if n == 0 then 1 else 2 * Pow2(n - 1)
  }

  lemma Pow2Of32()
    ensures Pow2(32) == TWO32
  {
    assert Pow2(8) == 0x100 && Pow2(16) == 0x1_0000 && Pow2(24) == 0x100_0000;
  }

  /** The exclusive or of the last n bits. */
  function XorBits(x: nat, y: nat, n: nat): (r: nat)
    ensures r < Pow2(n)
  {
    if n == 0 then 0 else (x + y) % 2 + 2 * XorBits(x / 2, y / 2, n - 1)
  }

  function HalfBits(): (n: nat)
    ensures n == 32 && Pow2(n) == TWO32
  {
    Pow2Of32();
    32
  }

  function XorHalf(a: Half, b: Half): Half {
    XorBits(a, b, HalfBits())
  }

  function Xor(x: Word64, y: Word64): Word64 {
    Joined(XorHalf(Low(x), Low(y)), XorHalf(High(x), High(y)))
  }

  function Joined(low: Half, high: Half): Word64 {
    low + TWO32 * high
  }

  function Not(x: Word64): Word64 {
    TWO64 - 1 - x
  }

  lemma HalvesOfJoined(low: Half, high: Half)
    ensures Low(Joined(low, high)) == low && High(Joined(low, high)) == high
  {
  }

  /** Eight bytes, the least significant first. */
  type EightBytes = w: seq<Byte> | |w| == 8 witness [0, 0, 0, 0, 0, 0, 0, 0]

  const NOTHING: EightBytes := [0, 0, 0, 0, 0, 0, 0, 0]

  function FourBytes(w: seq<Byte>, at: nat): Half
    requires at + 4 <= |w|
  {
    w[at] as nat + 0x100 * w[at + 1] as nat + 0x1_0000 * w[at + 2] as nat + 0x100_0000 * w[at + 3] as nat
  }

  function WordOf(w: EightBytes): Word64 {
    Joined(FourBytes(w, 0), FourBytes(w, 4))
  }

  /** The 64-bit word of s at the given place, or zero outside it. */
  function Word(s: seq<Byte>, at: int): Word64 {
    if 0 <= at && at + 8 <= |s| then WordOf(s[at..at + 8]) else 0
  }

  // ---- The exclusive or, byte by byte -----------------------------------------------------------------------

  /** One bit of an exclusive or. */
  lemma XorStep(x: nat, y: nat, z: nat, high: nat, n: nat)
    requires n > 0 && z == (x % 2 + y % 2) % 2 + 2 * high && high == XorBits(x / 2, y / 2, n - 1)
    ensures XorBits(x, y, n) == z
  {
    Parity(x, y);
  }

  lemma Parity(x: nat, y: nat)
    ensures (x + y) % 2 == (x % 2 + y % 2) % 2
  {
  }

  lemma {:induction false} XorOfBits(a: Byte, b: Byte, n: nat)
    requires a as nat < Pow2(n) && b as nat < Pow2(n)
    ensures XorBits(a as nat, b as nat, n) == (a ^ b) as nat
  {
    if n == 0 {
      ZeroByte(a, b);
    } else {
      var x, y, z, w := XorParts(a, b);
      XorOfBits(a >> 1, b >> 1, n - 1);
      XorStep(x, y, z, w, n);
    }
  }

  lemma ZeroByte(a: Byte, b: Byte)
    requires a as nat == 0 && b as nat == 0
    ensures (a ^ b) as nat == 0
  {
  }

  /** Two bytes, and the exclusive or of them and of their halves, as numbers. */
  lemma XorParts(a: Byte, b: Byte) returns (x: nat, y: nat, z: nat, w: nat)
    ensures x == a as nat && y == b as nat && z == (a ^ b) as nat
    ensures (a >> 1) as nat == x / 2 && (b >> 1) as nat == y / 2 && w == ((a >> 1) ^ (b >> 1)) as nat
    ensures z == (x % 2 + y % 2) % 2 + 2 * w
  {
    x := HalfByte(a);
    y := HalfByte(b);
    z := HalfByte(a ^ b);
    w := XorHalves(a, b, x, y, z);
    Recombined(z, w, x, y);
  }

  lemma Recombined(z: nat, w: nat, x: nat, y: nat)
    requires z / 2 == w && z % 2 == (x % 2 + y % 2) % 2
    ensures z == (x % 2 + y % 2) % 2 + 2 * w
  {
  }

  lemma HalfByte(a: Byte) returns (x: nat)
    ensures x == a as nat && (a >> 1) as nat == x / 2 && (a & 1) as nat == x % 2
  {
    x := a as nat;
  }

  lemma XorHalves(a: Byte, b: Byte, x: nat, y: nat, z: nat) returns (w: nat)
    requires (a & 1) as nat == x % 2 && (b & 1) as nat == y % 2 && ((a ^ b) & 1) as nat == z % 2 && ((a ^ b) >> 1) as nat == z / 2
    ensures w == ((a >> 1) ^ (b >> 1)) as nat == z / 2 && z % 2 == (x % 2 + y % 2) % 2
  {
    ParityOfXor(a, b);
    assert (a ^ b) >> 1 == (a >> 1) ^ (b >> 1);
    w := ((a >> 1) ^ (b >> 1)) as nat;
  }

  lemma ParityOfXor(a: Byte, b: Byte)
    ensures ((a ^ b) & 1) as nat == ((a & 1) as nat + (b & 1) as nat) % 2
  {
  }

  /** The exclusive or of numbers whose lower k bits are x and y; q, r and t are the upper ones and theirs. */
  lemma {:induction false} XorSplit(x: nat, y: nat, u: nat, v: nat, w: nat, k: nat, n: nat) returns (q: nat, r: nat, t: nat)
    requires x < Pow2(k) && y < Pow2(k) && w == XorBits(u, v, n)
    ensures q == Pow2(k) * u && r == Pow2(k) * v && t == Pow2(k) * w
    ensures XorBits(x + q, y + r, k + n) == XorBits(x, y, k) + t
  {
    if k == 0 {
      q, r, t := u, v, w;
    } else {
      var q1, r1, t1 := XorSplit(x / 2, y / 2, u, v, w, k - 1, n);
      XorSplitStep(x, y, q1, r1, k, n, XorBits(x / 2, y / 2, k - 1), t1);
      q, r, t := Twice(Pow2(k - 1), u, q1), Twice(Pow2(k - 1), v, r1), Twice(Pow2(k - 1), w, t1);
    }
  }

  function Twice(p: nat, u: nat, q: nat): (r: nat)
    requires q == p * u
    ensures r == 2 * q == (2 * p) * u
  {
    2 * q
  }

  lemma XorSplitStep(x: nat, y: nat, q: nat, r: nat, k: nat, n: nat, low: nat, high: nat)
    requires k > 0 && low == XorBits(x / 2, y / 2, k - 1) && XorBits(x / 2 + q, y / 2 + r, k - 1 + n) == low + high
    ensures XorBits(x + 2 * q, y + 2 * r, k + n) == XorBits(x, y, k) + 2 * high
  {
    Halved(x, q);
    Halved(y, r);
    XorStep(x, y, (x % 2 + y % 2) % 2 + 2 * low, low, k);
    XorStep(x + 2 * q, y + 2 * r, (x % 2 + y % 2) % 2 + 2 * (low + high), low + high, k + n);
  }

  lemma Halved(x: nat, q: nat)
    ensures (x + 2 * q) / 2 == x / 2 + q && (x + 2 * q) % 2 == x % 2
  {
  }

  function XorBytes(v: EightBytes, w: EightBytes): (x: EightBytes)
    ensures forall k :: 0 <= k < 8 ==> x[k] == v[k] ^ w[k]
  {
    seq(8, k requires 0 <= k < 8 => v[k] ^ w[k])
  }

  lemma XorOfOne(a: Byte, b: Byte, k: nat) returns (x: nat, y: nat, z: nat)
    requires Pow2(k) == 0x100
    ensures x == a as nat < 0x100 && y == b as nat < 0x100 && z == (a ^ b) as nat == XorBits(x, y, k)
  {
    XorOfBits(a, b, k);
    x, y, z := a as nat, b as nat, (a ^ b) as nat;
  }

  /** One byte in front of numbers u and v, whose exclusive or is w. */
  lemma XorPrefixed(a: nat, b: nat, c: nat, u: nat, v: nat, w: nat, k: nat, n: nat) returns (x: nat, y: nat, z: nat)
    requires Pow2(k) == 0x100 && a < 0x100 && b < 0x100 && c == XorBits(a, b, k) && w == XorBits(u, v, n)
    ensures x == a + 0x100 * u && y == b + 0x100 * v && z == c + 0x100 * w == XorBits(x, y, k + n)
  {
    var q, r, t := XorSplit(a, b, u, v, w, k, n);
    x, y, z := a + q, b + r, c + t;
  }

  /** The number with the given bytes, the least significant first. */
  function Four(a: nat, b: nat, c: nat, d: nat): nat {
    a + 0x100 * (b + 0x100 * (c + 0x100 * d))
  }

  lemma XorOfFour(a: Byte, b: Byte, c: Byte, d: Byte, e: Byte, f: Byte, g: Byte, h: Byte, k: nat, n: nat)
    requires Pow2(k) == 0x100 && n == k + (k + (k + k))
    ensures XorBits(Four(a as nat, b as nat, c as nat, d as nat), Four(e as nat, f as nat, g as nat, h as nat), n)
            == Four((a ^ e) as nat, (b ^ f) as nat, (c ^ g) as nat, (d ^ h) as nat)
  {
    var a1, e1, r1 := XorOfOne(a, e, k);
    var b1, f1, r2 := XorOfOne(b, f, k);
    var c1, g1, r3 := XorOfOne(c, g, k);
    var d1, h1, r4 := XorOfOne(d, h, k);
    XorOfNumbers(a1, b1, c1, d1, e1, f1, g1, h1, r1, r2, r3, r4, k, n);
  }

  lemma XorOfNumbers(a: nat, b: nat, c: nat, d: nat, e: nat, f: nat, g: nat, h: nat, r1: nat, r2: nat, r3: nat, r4: nat, k: nat, n: nat)
    requires Pow2(k) == 0x100 && n == k + (k + (k + k)) && a < 0x100 && b < 0x100 && c < 0x100 && e < 0x100 && f < 0x100 && g < 0x100
    requires r1 == XorBits(a, e, k) && r2 == XorBits(b, f, k) && r3 == XorBits(c, g, k) && r4 == XorBits(d, h, k)
    ensures XorBits(Four(a, b, c, d), Four(e, f, g, h), n) == Four(r1, r2, r3, r4)
  {
    var x3, y3, z3 := XorPrefixed(c, g, r3, d, h, r4, k, k);
    var x2, y2, z2 := XorPrefixed(b, f, r2, x3, y3, z3, k, k + k);
    var x1, y1, z1 := XorPrefixed(a, e, r1, x2, y2, z2, k, k + (k + k));
  }

  lemma FourBytesAre(w: EightBytes, at: nat, a: Byte, b: Byte, c: Byte, d: Byte)
    requires at + 4 <= 8 && w[at] == a && w[at + 1] == b && w[at + 2] == c && w[at + 3] == d
    ensures FourBytes(w, at) == Four(a as nat, b as nat, c as nat, d as nat)
  {
  }

  function ByteBits(): (n: nat)
    ensures n == 8 && Pow2(n) == 0x100
  {
    assert Pow2(4) == 16;
    8
  }

  /** The halves of a word, from its bytes. */
  lemma XorFourBytes(v: EightBytes, w: EightBytes, at: nat)
    requires at + 4 <= 8
    ensures XorHalf(FourBytes(v, at), FourBytes(w, at)) == FourBytes(XorBytes(v, w), at)
  {
    var a, b, c, d := v[at], v[at + 1], v[at + 2], v[at + 3];
    var e, f, g, h := w[at], w[at + 1], w[at + 2], w[at + 3];
    XorFour(v, w, XorBytes(v, w), at, a, b, c, d, e, f, g, h);
  }

  lemma XorFour(v: EightBytes, w: EightBytes, x: EightBytes, at: nat, a: Byte, b: Byte, c: Byte, d: Byte, e: Byte, f: Byte, g: Byte, h: Byte)
    requires at + 4 <= 8 && v[at] == a && v[at + 1] == b && v[at + 2] == c && v[at + 3] == d
    requires w[at] == e && w[at + 1] == f && w[at + 2] == g && w[at + 3] == h
    requires x[at] == a ^ e && x[at + 1] == b ^ f && x[at + 2] == c ^ g && x[at + 3] == d ^ h
    ensures XorHalf(FourBytes(v, at), FourBytes(w, at)) == FourBytes(x, at)
  {
    XorOfFour(a, b, c, d, e, f, g, h, ByteBits(), HalfBits());
    FourBytesAre(v, at, a, b, c, d);
    FourBytesAre(w, at, e, f, g, h);
    FourBytesAre(x, at, a ^ e, b ^ f, c ^ g, d ^ h);
  }

  /** The exclusive or of two words is that of their bytes. */
  lemma XorOfBytes(v: EightBytes, w: EightBytes)
    ensures Xor(WordOf(v), WordOf(w)) == WordOf(XorBytes(v, w))
  {
    XorFourBytes(v, w, 0);
    XorFourBytes(v, w, 4);
    HalvesOfJoined(FourBytes(v, 0), FourBytes(v, 4));
    HalvesOfJoined(FourBytes(w, 0), FourBytes(w, 4));
  }
}
