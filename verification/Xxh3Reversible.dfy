/** What the arithmetic of XXH3 loses and what it keeps: its mixing can be undone, and keys cancel themselves. */
module Xxh3Reversible {
  import opened ByteStreams
  import opened Xxh3
  import opened Xxh3Words
  import opened Xxh3Scalar

  // ---- The exclusive or --------------------------------------------------------------------------------------

  lemma {:induction false} XorTwice(x: nat, y: nat, n: nat)
    requires x < Pow2(n)
    ensures XorBits(XorBits(x, y, n), y, n) == x
  {
    if n > 0 {
      XorTwice(x / 2, y / 2, n - 1);
      BitTwice(x, y, XorBits(x / 2, y / 2, n - 1), n);
    }
  }

  lemma BitTwice(x: nat, y: nat, high: nat, n: nat)
    requires n > 0 && high == XorBits(x / 2, y / 2, n - 1) && XorBits(high, y / 2, n - 1) == x / 2
    ensures XorBits(XorBits(x, y, n), y, n) == x
  {
    var z := Flipped(x, y, high);
    XorStep(x, y, z, high, n);
    XorStep(z, y, x, x / 2, n);
  }

  /** A number whose last bit is that of x, flipped when the last bit of y is set; flipping it again gives that of x. */
  lemma Flipped(x: nat, y: nat, high: nat) returns (z: nat)
    ensures z == (x % 2 + y % 2) % 2 + 2 * high && z / 2 == high
    ensures x == (z % 2 + y % 2) % 2 + 2 * (x / 2)
  {
    z := (x % 2 + y % 2) % 2 + 2 * high;
  }

  lemma {:induction false} XorNothing(x: nat, n: nat)
    requires x < Pow2(n)
    ensures XorBits(x, 0, n) == x
  {
    if n > 0 {
      XorNothing(x / 2, n - 1);
      XorStep(x, 0, x, x / 2, n);
    }
  }

  /** The key is taken off by applying it again. */
  lemma XorCancels(x: Word64, y: Word64)
    ensures Xor(Xor(x, y), y) == x
  {
    XorTwice(Low(x), Low(y), HalfBits());
    XorTwice(High(x), High(y), HalfBits());
    HalvesOfJoined(XorHalf(Low(x), Low(y)), XorHalf(High(x), High(y)));
  }

  lemma XorItself(x: Word64)
    ensures Xor(x, x) == 0
  {
    XorSelf(Low(x), HalfBits());
    XorSelf(High(x), HalfBits());
  }

  /** A number below 2^32 changes only the low half. */
  lemma XorLow(x: Word64, y: Half)
    ensures Low(y) == y && High(y) == 0
    ensures High(Xor(x, y)) == High(x)
  {
    XorNothing(High(x), HalfBits());
    HalvesOfJoined(XorHalf(Low(x), y), High(x));
  }

  /** The upper bits, 32 and as many more places down as p has. */
  function Moved(x: Word64, p: nat): (y: Half)
    requires p > 0
    ensures y == x / (TWO32 * p)
  {
    DivTwice(x, p);
    DivSmaller(High(x), p);
    High(x) / p
  }

  /** Mixing the upper bits into the lower ones is undone by doing it again when more than half of the places are moved. */
  lemma ShiftTwice(x: Word64, p: nat)
    requires p > 0
    ensures var v := Xor(x, Moved(x, p));
            Xor(v, Moved(v, p)) == x
  {
    XorLow(x, Moved(x, p));
    XorCancels(x, Moved(x, p));
  }

  lemma DivTwice(x: nat, p: nat)
    requires p > 0
    ensures x / (TWO32 * p) == x / TWO32 / p
  {
    var q, r := x / TWO32, x % TWO32;
    var a, b := q / p, q % p;
    assert q == a * p + b;
    assert x == TWO32 * q + r;
    Regroup(a, p, b, r);
    Quotient(x, TWO32 * p, a, TWO32 * b + r);
  }

  lemma Regroup(a: nat, p: nat, b: nat, r: nat)
    requires b < p && r < TWO32
    ensures TWO32 * (a * p + b) + r == a * (TWO32 * p) + (TWO32 * b + r) && TWO32 * b + r < TWO32 * p
  {
  }

  lemma Quotient(x: nat, d: nat, a: nat, r: nat)
    requires x == a * d + r && r < d
    ensures x / d == a
  {
    var e := x / d - a;
    assert e * d == r - x % d;
    if e >= 1 { Multiple(e, d); }
  }

  lemma Multiple(e: nat, d: nat)
    requires e >= 1
    ensures e * d >= d
  {
  }

  lemma DivSmaller(x: nat, p: nat)
    requires p > 0
    ensures x / p <= x
  {
    var q := x / p;
    assert q * p <= x;
    if q > 0 { Multiple(p, q); }
  }

  // ---- Products -------------------------------------------------------------------------------------------------

  /** Multiplying by an odd constant is undone by its inverse modulo 2^64. */
  lemma ProductUndone(x: Word64, p: nat, inverse: nat, k: nat)
    requires p * inverse == 1 + k * TWO64
    ensures Wrap(Wrap(x * p) * inverse) == x
  {
    var q, r := x * p / TWO64, x * p % TWO64;
    assert x * p == q * TWO64 + r;
    Distribute(x, p, inverse, k, q, r);
    Quotient(r * inverse + q * inverse * TWO64, TWO64, x * k, x);
    Remainder(r * inverse, x * k - q * inverse, x);
  }

  lemma Distribute(x: nat, p: nat, inverse: nat, k: nat, q: nat, r: nat)
    requires p * inverse == 1 + k * TWO64 && x * p == q * TWO64 + r
    ensures r * inverse + q * inverse * TWO64 == x * k * TWO64 + x
  {
    assert (q * TWO64 + r) * inverse == x * (p * inverse);
  }

  lemma Remainder(n: nat, a: int, x: Word64)
    requires n == a * TWO64 + x
    ensures n % TWO64 == x
  {
  }

  // ---- The steps of the hash -------------------------------------------------------------------------------------------

  /** The inverses of the avalanche multiplier and of the first 32-bit prime, modulo 2^64. */
  const AVALANCHE_INVERSE := 0x08DA8EE41D6DF849
  const PRIME_INVERSE := 0x0CFA4A56B0E8B2F51

  lemma Inverses()
    ensures 0x165667919E3779F9 * AVALANCHE_INVERSE == 1 + 55667485921959089 * TWO64
    ensures P32_1 * PRIME_INVERSE == 1 + 2153028908 * TWO64
  {
  }

  function AvalancheUndo(out: Word64): Word64 {
    var a := Xor(out, Moved(out, 1));
    var h := Wrap(a * AVALANCHE_INVERSE);
    Xor(h, Moved(h, 32))
  }

  /** The avalanche loses nothing: it can be undone by shifting by 32, multiplying by the inverse and shifting by 37. */
  lemma AvalancheUndone(h: Word64)
    ensures AvalancheUndo(Avalanche(h)) == h
  {
    var mixed: int := Xor(h, Moved(h, 32));
    var a: Word64 := Wrap(mixed * 0x165667919E3779F9);
    AvalancheSteps(h);
    ShiftTwice(a, 1);
    Inverses();
    ProductUndone(mixed, 0x165667919E3779F9, AVALANCHE_INVERSE, 55667485921959089);
    ShiftTwice(h, 32);
  }

  lemma AvalancheSteps(h: Word64)
    ensures var a := Wrap(Xor(h, Moved(h, 32)) * 0x165667919E3779F9);
            Avalanche(h) == Xor(a, Moved(a, 1))
  {
  }

  function ScrambleUndo(out: Word64, key: Word64): Word64 {
    var v := Xor(Wrap(out * PRIME_INVERSE), key);
    Xor(v, Moved(v, 0x8000))
  }

  /** Nor does scrambling a lane: it is undone by the inverse of the prime, the key, and shifting by 47. */
  lemma ScrambleUndone(acc: Word64, key: Word64)
    ensures ScrambleUndo(ScrambledLane(acc, key), key) == acc
  {
    var mixed := Xor(acc, Moved(acc, 0x8000));
    Inverses();
    ProductUndone(Xor(mixed, key), P32_1, PRIME_INVERSE, 2153028908);
    XorCancels(mixed, key);
    ShiftTwice(acc, 0x8000);
  }

  lemma ScrambledAt(keys: Accs, acc: Accs, i: nat)
    requires i < 8
    ensures ScrambledWith(keys, acc)[i] == ScrambledLane(acc[i], keys[i])
  {
  }

  /** Scrambling uses the last 64 bytes of the secret, lane by lane. */
  lemma ScrambledUndone(secret: seq<Byte>, acc: Accs, i: nat)
    requires i < 8
    ensures ScrambleUndo(Scrambled(secret, acc)[i], Word(secret, |secret| - 64 + 8 * i)) == acc[i]
  {
    var keys := Keys(secret, |secret| - STRIPE_LEN);
    ScrambledAt(keys, acc, i);
    ScrambleUndone(acc[i], keys[i]);
  }

  /** The product of two halves is not cut off. */
  lemma ProductOfHalves(a: Half, b: Half)
    ensures Mul32To64(Joined(a, b)) == a * b
  {
    HalvesOfJoined(a, b);
    ProductBelow(a, b, TWO32, TWO32);
  }

  lemma ProductBelow(a: nat, b: nat, c: nat, d: nat)
    requires a < c && b < d
    ensures a * b < c * d
  {
    assert c * d == a * b + a * (d - b) + (c - a) * d;
    Multiple(c - a, d);
  }

  lemma AccumulatedAt(secret: seq<Byte>, wide: bool, acc: Accs, stripe: seq<Byte>, offset: int, i: nat)
    requires i < 8
    ensures Accumulated(secret, wide, acc, stripe, offset)[i] == Sum(acc[i], LaneSum(secret, wide, stripe, offset, i))
  {
  }

  lemma LaneSumIs(secret: seq<Byte>, wide: bool, stripe: seq<Byte>, offset: int, i: nat, data: Word64, x: Word64)
    requires i < 8 && data == Word(stripe, 8 * Lane(wide, i)) && x == Xor(Word(stripe, 8 * i), Word(secret, offset + 8 * i))
    ensures LaneSum(secret, wide, stripe, offset, i) == Sum(data, Mul32To64(x))
  {
  }

  lemma NothingAdded(data: Word64)
    ensures Sum(data, Mul32To64(0)) == data
  {
    assert Low(0) == 0;
  }

  /** What a lane adds when its data equals its key. */
  lemma LaneOfKey(secret: seq<Byte>, wide: bool, stripe: seq<Byte>, offset: int, i: nat, key: Word64, data: Word64)
    requires i < 8 && Word(stripe, 8 * i) == Word(secret, offset + 8 * i) == key && data == Word(stripe, 8 * Lane(wide, i))
    ensures LaneSum(secret, wide, stripe, offset, i) == data
  {
    XorItself(key);
    LaneSumIs(secret, wide, stripe, offset, i, data, 0);
    NothingAdded(data);
  }

  lemma LaneBelow8(wide: bool, i: nat)
    requires i < 8
    ensures Lane(wide, i) < 8
  {
  }

  /** A stripe that equals the key adds only its words, each to its own lane or in the 128-bit variant to the neighbour. */
  lemma StripeOfKeys(secret: seq<Byte>, wide: bool, acc: Accs, stripe: seq<Byte>, offset: nat, i: nat) returns (j: nat, data: Word64)
    requires i < 8 && offset + 64 <= |secret| && stripe == secret[offset..offset + 64]
    ensures j == (if !wide then i else if i % 2 == 0 then i + 1 else i - 1) && data == Word(secret, offset + 8 * j)
    ensures Accumulated(secret, wide, acc, stripe, offset)[i] == Sum(acc[i], data)
  {
    j := Lane(wide, i);
    LaneBelow8(wide, i);
    var key := WordInside(secret, stripe, offset, i);
    data := WordInside(secret, stripe, offset, j);
    KeyedLane(secret, wide, acc, stripe, offset, i, j, key, data);
  }

  lemma KeyedLane(secret: seq<Byte>, wide: bool, acc: Accs, stripe: seq<Byte>, offset: nat, i: nat, j: nat, key: Word64, data: Word64)
    requires i < 8 && j == Lane(wide, i) && key == Word(stripe, 8 * i) == Word(secret, offset + 8 * i) && data == Word(stripe, 8 * j)
    ensures Accumulated(secret, wide, acc, stripe, offset)[i] == Sum(acc[i], data)
  {
    LaneOfKey(secret, wide, stripe, offset, i, key, data);
    AccumulatedAt(secret, wide, acc, stripe, offset, i);
  }

  lemma SliceOfSlice(s: seq<Byte>, t: seq<Byte>, from: nat, at: nat)
    requires from + |t| <= |s| && t == s[from..from + |t|] && at + 8 <= |t|
    ensures t[at..at + 8] == s[from + at..from + at + 8]
  {
    var a, b := t[at..at + 8], s[from + at..from + at + 8];
    forall k | 0 <= k < 8 ensures a[k] == b[k] {
      assert t[at + k] == s[from + (at + k)];
    }
  }

  lemma SameWord(s: seq<Byte>, t: seq<Byte>, a: nat, b: nat) returns (w: Word64)
    requires a + 8 <= |s| && b + 8 <= |t| && s[a..a + 8] == t[b..b + 8]
    ensures w == Word(s, a) == Word(t, b)
  {
    w := WordOf(s[a..a + 8]);
  }

  lemma WordInside(secret: seq<Byte>, stripe: seq<Byte>, offset: nat, i: nat) returns (w: Word64)
    requires i < 8 && offset + 64 <= |secret| && stripe == secret[offset..offset + 64]
    ensures w == Word(stripe, 8 * i) == Word(secret, offset + 8 * i)
  {
    var at := 8 * i;
    SliceOfSlice(secret, stripe, offset, at);
    w := SameWord(stripe, secret, at, offset + at);
  }

  lemma FoldOfProduct(a: Word64, b: Word64, low: Word64, high: Word64)
    requires a * b == TWO64 * high + low
    ensures Mul128Fold64(a, b) == Xor(low, high)
  {
    SplitProduct(a * b, low, high);
  }

  lemma SplitProduct(p: nat, low: Word64, high: Word64)
    requires p == TWO64 * high + low
    ensures Wrap(p) == low && Wrap(p / TWO64) == high
  {
  }

  /** Two accumulators are mixed into the exclusive or of the halves of the product, once the keys are taken off. */
  lemma MixedHalves(acc: Accs, i: nat, secret: seq<Byte>, at: int, a: Word64, b: Word64, low: Word64, high: Word64)
    requires i < 7 && acc[i] == Xor(a, Word(secret, at)) && acc[i + 1] == Xor(b, Word(secret, at + 8))
    requires a * b == TWO64 * high + low
    ensures Mix2Accs(acc, i, secret, at) == Xor(low, high)
  {
    XorCancels(a, Word(secret, at));
    XorCancels(b, Word(secret, at + 8));
    FoldOfProduct(a, b, low, high);
  }

  lemma EqualsMixToNothing(acc: Accs, i: nat, secret: seq<Byte>, at: int)
    requires i < 7 && acc[i] == Word(secret, at) && acc[i + 1] == Word(secret, at + 8)
    ensures Mix2Accs(acc, i, secret, at) == 0
  {
    XorItself(acc[i]);
    XorItself(acc[i + 1]);
    XorItself(0);
  }

  lemma MergeOfNothing(start: Word64)
    ensures Merged(0, 0, 0, 0, start) == Avalanche(start)
  {
    MergedIs(0, 0, 0, 0, start, start);
  }

  lemma MergedIs(a: Word64, b: Word64, c: Word64, d: Word64, start: Word64, sum: Word64)
    requires sum == Wrap(start + a + b + c + d)
    ensures Merged(a, b, c, d, start) == Avalanche(sum)
  {
  }

  lemma KeysMerge(secret: seq<Byte>, at: int, start: Word64)
    ensures MergeAccs(Keys(secret, at), secret, at, start) == Avalanche(start)
  {
    var keys := Keys(secret, at);
    EqualsMixToNothing(keys, 0, secret, at);
    EqualsMixToNothing(keys, 2, secret, at + 16);
    EqualsMixToNothing(keys, 4, secret, at + 32);
    EqualsMixToNothing(keys, 6, secret, at + 48);
    MergeOfNothing(start);
  }

  /** Accumulators that equal the key words from byte 11 on leave only the length in the hash. */
  lemma KeysFinish64(secret: seq<Byte>, n: nat)
    ensures AvalancheUndo(Finish64(secret, Keys(secret, 11), n)) == n * 0x9E3779B185EBCA87 % TWO64
  {
    KeysMerge(secret, 11, Wrap(n * P64_1));
    AvalancheUndone(Wrap(n * P64_1));
  }

  /** In the 128-bit variant the upper half uses the 64 key bytes that end 11 bytes before the end of the secret. */
  lemma KeysFinish128(secret: seq<Byte>, n: nat)
    ensures AvalancheUndo(Finish128(secret, Keys(secret, 11), n).0) == n * 0x9E3779B185EBCA87 % TWO64
    ensures AvalancheUndo(Finish128(secret, Keys(secret, |secret| - 75), n).1) == TWO64 - 1 - n * 0xC2B2AE3D27D4EB4F % TWO64
  {
    KeysFinish64(secret, n);
    KeysMerge(secret, |secret| - 75, Not(Wrap(n * P64_2)));
    AvalancheUndone(Not(Wrap(n * P64_2)));
  }

  /** The accumulators start with the primes of the published algorithm. */
  lemma PublishedStart()
    ensures InitAcc() == [0xC2B2AE3D, 0x9E3779B185EBCA87, 0xC2B2AE3D27D4EB4F, 0x165667B19E3779F9,
                          0x85EBCA77C2B2AE63, 0x85EBCA77, 0x27D4EB2F165667C5, 0x9E3779B1]
  {
  }
}
