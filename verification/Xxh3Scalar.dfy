/** The scalar arithmetic of XXH3 on long inputs, and what streaming does to it. */
module Xxh3Scalar {
  import opened ByteStreams
  import opened Xxh3
  import opened Xxh3Streaming
  import opened Xxh3Words

  const MERGE_START := 11

  const P32_1 := 2654435761
  const P32_2 := 2246822519
  const P32_3 := 3266489917
  const P64_1 := 11400714785074694791
  const P64_2 := 14029467366897019727
  const P64_3 := 1609587929392839161
  const P64_4 := 9650029242287828579
  const P64_5 := 2870177450012600261

  // ---- The arithmetic --------------------------------------------------------------------------------------

  /** Eight 64-bit accumulators. */
  type Accs = s: seq<Word64> | |s| == 8 witness [0, 0, 0, 0, 0, 0, 0, 0]

  function InitAcc(): Accs {
    [P32_3, P64_1, P64_2, P64_3, P64_4, P32_2, P64_5, P32_1]
  }

  /** The product of the halves. */
  function Mul32To64(x: Word64): Word64 {
    Wrap(Low(x) * High(x))
  }

  /** The halves of the 128-bit product, exclusive-ored. */
  function Mul128Fold64(x: Word64, y: Word64): Word64 {
    Xor(Wrap(x * y), Wrap(x * y / TWO64))
  }

  /** The lane whose data is added to lane i: the neighbour in the 128-bit variant. */
  function Lane(wide: bool, i: nat): nat {
    if !wide then i else if i % 2 == 0 then i + 1 else i - 1
  }

  /** What accumulate_512 adds to lane i: the data of a lane, and the product for its own. */
  function LaneSum(secret: seq<Byte>, wide: bool, stripe: seq<Byte>, offset: int, i: nat): Word64 {
    Sum(Word(stripe, 8 * Lane(wide, i)), Mul32To64(Xor(Word(stripe, 8 * i), Word(secret, offset + 8 * i))))
  }

  function Sum(x: Word64, y: Word64): Word64 {
    Wrap(x + y)
  }

  /** accumulate_512 */
  function Accumulated(secret: seq<Byte>, wide: bool, acc: Accs, stripe: seq<Byte>, offset: int): Accs {
    seq(8, i requires 0 <= i < 8 => Sum(acc[i], LaneSum(secret, wide, stripe, offset, i)))
  }

  function ScrambledLane(acc: Word64, key: Word64): Word64 {
    Wrap(Xor(Xor(acc, acc / 0x8000_0000_0000), key) * P32_1)
  }

  /** The eight words of the secret from a place on. */
  function Keys(secret: seq<Byte>, at: int): (k: Accs)
    ensures forall i :: 0 <= i < 8 ==> k[i] == Word(secret, at + 8 * i)
  {
    seq(8, i requires 0 <= i < 8 => Word(secret, at + 8 * i))
  }

  function ScrambledWith(keys: Accs, acc: Accs): Accs {
    seq(8, i requires 0 <= i < 8 => ScrambledLane(acc[i], keys[i]))
  }

  /** scramble_acc */
  function Scrambled(secret: seq<Byte>, acc: Accs): Accs {
    ScrambledWith(Keys(secret, |secret| - STRIPE_LEN), acc)
  }

  function Avalanche(h: Word64): Word64 {
    var a := Wrap(Xor(h, h / 0x20_0000_0000) * 0x165667919E3779F9);
    Xor(a, a / TWO32)
  }

  function Mix2Accs(acc: Accs, i: nat, secret: seq<Byte>, at: int): Word64
    requires i < 7
  {
    Mul128Fold64(Xor(acc[i], Word(secret, at)), Xor(acc[i + 1], Word(secret, at + 8)))
  }

  function Merged(a: Word64, b: Word64, c: Word64, d: Word64, start: Word64): Word64 {
    Avalanche(Wrap(start + a + b + c + d))
  }

  /** merge_accs */
  function MergeAccs(acc: Accs, secret: seq<Byte>, at: int, start: Word64): Word64 {
    Merged(Mix2Accs(acc, 0, secret, at), Mix2Accs(acc, 2, secret, at + 16),
           Mix2Accs(acc, 4, secret, at + 32), Mix2Accs(acc, 6, secret, at + 48), start)
  }

  function Finish64(secret: seq<Byte>, acc: Accs, n: nat): Word64 {
    MergeAccs(acc, secret, MERGE_START, Wrap(n * P64_1))
  }

  /** Low and high half. */
  function Finish128(secret: seq<Byte>, acc: Accs, n: nat): (Word64, Word64) {
    (Finish64(secret, acc, n), MergeAccs(acc, secret, |secret| - 64 - MERGE_START, Not(Wrap(n * P64_2))))
  }

  /** The 64-bit variant, for a secret and the hash of inputs of at most 240 bytes. */
  function Hash64(secret: seq<Byte>, short: seq<Byte> -> Word64): Core<Accs, Word64>
    requires |secret| >= SECRET_SIZE_MIN
  {
    ForSecret(InitAcc(), (acc: Accs, stripe: seq<Byte>, offset: int) => Accumulated(secret, false, acc, stripe, offset),
              (acc: Accs) => Scrambled(secret, acc),
              (acc: Accs, n: nat) => Finish64(secret, acc, n), short, |secret|)
  }

  /** The 128-bit variant. */
  function Hash128(secret: seq<Byte>, short: seq<Byte> -> (Word64, Word64)): Core<Accs, (Word64, Word64)>
    requires |secret| >= SECRET_SIZE_MIN
  {
    ForSecret(InitAcc(), (acc: Accs, stripe: seq<Byte>, offset: int) => Accumulated(secret, true, acc, stripe, offset),
              (acc: Accs) => Scrambled(secret, acc),
              (acc: Accs, n: nat) => Finish128(secret, acc, n), short, |secret|)
  }

  lemma VariantsAreValid(secret: seq<Byte>, short64: seq<Byte> -> Word64, short128: seq<Byte> -> (Word64, Word64))
    requires |secret| >= SECRET_SIZE_MIN
    ensures Hash64(secret, short64).Valid() && Hash128(secret, short128).Valid()
  {
    SecretsAreLongEnough(Hash64(secret, short64), |secret|);
    SecretsAreLongEnough(Hash128(secret, short128), |secret|);
  }

  /** Both variants, with the words and constants above and any secret: streaming gives the one-shot hash unless a
      tail of 1 to 63 bytes is left behind bytes taken straight from an update. */
  lemma StreamingXxh3(secret: seq<Byte>, short64: seq<Byte> -> Word64, short128: seq<Byte> -> (Word64, Word64), chunks: seq<seq<Byte>>)
    requires |secret| >= SECRET_SIZE_MIN && !Stale(RunShape(Lengths(chunks)))
    ensures Hash64(secret, short64).Valid() && Hash128(secret, short128).Valid()
    ensures DigestOf(Hash64(secret, short64), Run(Hash64(secret, short64), chunks)) == OneShot(Hash64(secret, short64), Concat(chunks))
    ensures DigestOf(Hash128(secret, short128), Run(Hash128(secret, short128), chunks)) == OneShot(Hash128(secret, short128), Concat(chunks))
  {
    VariantsAreValid(secret, short64, short128);
    StreamingIsOneShot(Hash64(secret, short64), chunks);
    StreamingIsOneShot(Hash128(secret, short128), chunks);
  }

  // ---- When it is wrong ----------------------------------------------------------------------------------

  /** What a lane of the 64-bit variant adds for its data. */
  function Added(data: Word64, key: Word64): Word64 {
    Sum(data, Mul32To64(Xor(data, key)))
  }

  lemma {:induction false} XorSelf(x: nat, n: nat)
    ensures XorBits(x, x, n) == 0
  {
    if n > 0 { XorSelf(x / 2, n - 1); }
  }

  lemma NoProduct(x: Word64)
    requires Low(x) == 0 || High(x) == 0
    ensures Mul32To64(x) == 0
  {
    assert Low(x) * High(x) == 0;
  }

  /** Data that shares a half with the key adds itself. */
  lemma KeyAdds(data: Word64, key: Word64)
    requires Low(data) == Low(key) || High(data) == High(key)
    ensures Added(data, key) == data
  {
    XorSelf(Low(key), 32);
    XorSelf(High(key), 32);
    HalvesOfJoined(XorHalf(Low(data), Low(key)), XorHalf(High(data), High(key)));
    NoProduct(Xor(data, key));
  }

  /** A stripe that is zero except for one of its words. */
  function OneWord(i: nat, w: EightBytes): (x: seq<Byte>)
    requires i < 8
    ensures |x| == STRIPE_LEN
    ensures forall k :: 0 <= k < STRIPE_LEN ==> x[k] == if 8 * i <= k < 8 * i + 8 then w[k - 8 * i] else 0
  {
    seq(STRIPE_LEN, k requires 0 <= k < STRIPE_LEN => if 8 * i <= k < 8 * i + 8 then w[k - 8 * i] else 0)
  }

  lemma WordOfStripe(i: nat, w: EightBytes, j: nat)
    requires i < 8 && j < 8
    ensures Word(OneWord(i, w), 8 * j) == WordOf(if i == j then w else NOTHING)
  {
    assert OneWord(i, w)[8 * j..8 * j + 8] == if i == j then w else NOTHING;
  }

  /** The first n bytes lost. */
  function Cleared(w: EightBytes, n: nat): (v: EightBytes)
    ensures forall k :: 0 <= k < 8 ==> v[k] == if k < n then 0 else w[k]
  {
    seq(8, k requires 0 <= k < 8 => if k < n then 0 else w[k])
  }

  /** When all but b bytes are lost, so are the first bytes of the word in which that ends. */
  lemma ForgottenWord(i: nat, m: nat, w: EightBytes, b: nat)
    requires i < 8 && m < 8 && b + 8 * i + m == STRIPE_LEN - 1
    ensures Forgotten(OneWord(i, w), b) == OneWord(i, Cleared(w, m + 1))
  {
    var x, y := Forgotten(OneWord(i, w), b), OneWord(i, Cleared(w, m + 1));
    forall k | 0 <= k < STRIPE_LEN ensures x[k] == y[k] {
    }
  }

  /** The high half of the key, behind a one in byte m of the low half. */
  function KeyHigh(key: EightBytes, m: nat): (w: EightBytes)
    requires m < 4
  {
    [if m == 0 then 1 else 0, if m == 1 then 1 else 0, if m == 2 then 1 else 0, if m == 3 then 1 else 0,
     key[4], key[5], key[6], key[7]]
  }

  /** The low half of the key, and a byte. */
  function KeyLow(key: EightBytes, v: Byte): EightBytes {
    [key[0], key[1], key[2], key[3], v, 0, 0, 0]
  }

  lemma HighHalfDiffers(key: EightBytes, m: nat)
    requires m < 4
    ensures var w := KeyHigh(key, m);
            Added(WordOf(w), WordOf(key)) != Added(WordOf(Cleared(w, m + 1)), WordOf(key))
  {
    var w := KeyHigh(key, m);
    var v := Cleared(w, m + 1);
    HalvesOfJoined(FourBytes(key, 0), FourBytes(key, 4));
    HalvesOfJoined(FourBytes(w, 0), FourBytes(w, 4));
    HalvesOfJoined(FourBytes(v, 0), FourBytes(v, 4));
    KeyAdds(WordOf(w), WordOf(key));
    KeyAdds(WordOf(v), WordOf(key));
  }

  lemma LowHalfAdds(key: EightBytes, v: Byte)
    requires v == 0 || v == 1
    ensures Added(WordOf(KeyLow(key, v)), WordOf(key)) == FourBytes(key, 0) + (if v == 0 then 0 else TWO32)
  {
    var w := KeyLow(key, v);
    HalvesOfJoined(FourBytes(key, 0), FourBytes(key, 4));
    HalvesOfJoined(FourBytes(w, 0), FourBytes(w, 4));
    KeyAdds(WordOf(w), WordOf(key));
  }

  /** For every key some word adds something else when its first m + 1 bytes are lost. */
  lemma SomeWordDiffers(key: EightBytes, m: nat) returns (w: EightBytes)
    requires m < 8
    ensures w != Cleared(w, m + 1) && WordOf(w) != WordOf(Cleared(w, m + 1))
    ensures Added(WordOf(w), WordOf(key)) != Added(WordOf(Cleared(w, m + 1)), WordOf(key))
  {
    if m < 4 {
      w := KeyHigh(key, m);
      HighHalfDiffers(key, m);
    } else {
      LowHalfAdds(key, 0);
      LowHalfAdds(key, 1);
      assert Cleared(KeyLow(key, 0), m + 1) == Cleared(KeyLow(key, 1), m + 1);
      var lost := Cleared(KeyLow(key, 0), m + 1);
      w := if Added(WordOf(KeyLow(key, 0)), WordOf(key)) == Added(WordOf(lost), WordOf(key)) then KeyLow(key, 1) else KeyLow(key, 0);
    }
  }

  lemma SumsDiffer(a: Word64, x: Word64, y: Word64)
    requires x != y
    ensures Sum(a, x) != Sum(a, y) && Sum(x, a) != Sum(y, a)
  {
  }

  /** Accumulators differ when a lane gets something else. */
  lemma AccumulatedDiffers(secret: seq<Byte>, wide: bool, acc: Accs, x: seq<Byte>, y: seq<Byte>, offset: int, i: nat)
    requires i < 8 && LaneSum(secret, wide, x, offset, i) != LaneSum(secret, wide, y, offset, i)
    ensures Accumulated(secret, wide, acc, x, offset) != Accumulated(secret, wide, acc, y, offset)
  {
    SumsDiffer(acc[i], LaneSum(secret, wide, x, offset, i), LaneSum(secret, wide, y, offset, i));
    assert Accumulated(secret, wide, acc, x, offset)[i] != Accumulated(secret, wide, acc, y, offset)[i];
  }

  lemma NarrowSum(secret: seq<Byte>, offset: int, i: nat, w: EightBytes)
    requires i < 8
    ensures LaneSum(secret, false, OneWord(i, w), offset, i) == Added(WordOf(w), Word(secret, offset + 8 * i))
  {
    WordOfStripe(i, w, i);
  }

  lemma Neighbours(i: nat)
    requires i < 8
    ensures Lane(true, i) < 8 && Lane(true, i) != i && Lane(true, Lane(true, i)) == i
  {
  }

  lemma WideSum(secret: seq<Byte>, offset: int, i: nat, j: nat, w: EightBytes)
    requires i < 8 && j < 8 && i != j && Lane(true, j) == i
    ensures LaneSum(secret, true, OneWord(i, w), offset, j)
            == Sum(WordOf(w), Mul32To64(Xor(WordOf(NOTHING), Word(secret, offset + 8 * j))))
  {
    WordOfStripe(i, w, i);
    WordOfStripe(i, w, j);
  }

  /** A word counts in its own lane, or in the 128-bit variant in the neighbouring lane, whose own word is the same. */
  lemma WordCounts(secret: seq<Byte>, wide: bool, offset: int, i: nat, w: EightBytes, v: EightBytes)
    requires i < 8 && WordOf(w) != WordOf(v)
    requires Added(WordOf(w), Word(secret, offset + 8 * i)) != Added(WordOf(v), Word(secret, offset + 8 * i))
    ensures var j := Lane(wide, i);
            j < 8 && LaneSum(secret, wide, OneWord(i, w), offset, j) != LaneSum(secret, wide, OneWord(i, v), offset, j)
  {
    if wide {
      var j := Lane(true, i);
      Neighbours(i);
      WideSum(secret, offset, i, j, w);
      WideSum(secret, offset, i, j, v);
      SumsDiffer(Mul32To64(Xor(WordOf(NOTHING), Word(secret, offset + 8 * j))), WordOf(w), WordOf(v));
    } else {
      NarrowSum(secret, offset, i, w);
      NarrowSum(secret, offset, i, v);
    }
  }

  /** For every secret there is a stripe that is accumulated to something else, whatever the accumulators are, when
      only its last b bytes are left. */
  lemma SomeStripeDiffers(secret: seq<Byte>, wide: bool, offset: nat, b: nat) returns (x: seq<Byte>)
    requires 0 < b < STRIPE_LEN && offset + STRIPE_LEN <= |secret|
    ensures |x| == STRIPE_LEN
    ensures forall acc: Accs :: Accumulated(secret, wide, acc, Forgotten(x, b), offset) != Accumulated(secret, wide, acc, x, offset)
  {
    var i, m := (STRIPE_LEN - 1 - b) / 8, (STRIPE_LEN - 1 - b) % 8;
    var w := SomeWordDiffers(secret[offset + 8 * i..offset + 8 * i + 8], m);
    x := OneWord(i, w);
    ForgottenWord(i, m, w, b);
    WordCounts(secret, wide, offset, i, w, Cleared(w, m + 1));
    forall acc: Accs ensures Accumulated(secret, wide, acc, Forgotten(x, b), offset) != Accumulated(secret, wide, acc, x, offset) {
      AccumulatedDiffers(secret, wide, acc, Forgotten(x, b), x, offset, Lane(wide, i));
    }
  }

  /** The accumulators that go into the digest are those of hashing in one go. */
  ghost predicate AccumulatorsAgree<Digest>(core: Core<Accs, Digest>, chunks: seq<seq<Byte>>)
    requires core.Valid()
  {
    |Concat(chunks)| > MIDSIZE_MAX ==> DigestAcc(core, Run(core, chunks)) == LongAcc(core, Concat(chunks))
  }

  ghost predicate AlwaysAgree<Digest>(core: Core<Accs, Digest>, lengths: seq<nat>)
    requires core.Valid()
  {
    forall chunks: seq<seq<Byte>> :: Lengths(chunks) == lengths ==> AccumulatorsAgree(core, chunks)
  }

  /** The arithmetic of accumulate_512, and anything else. */
  ghost predicate Accumulates<Digest>(core: Core<Accs, Digest>, secret: seq<Byte>, wide: bool) {
    && core.Valid() && core.lastOffset == SecretLimit(|secret|) - SECRET_LASTACC_START
    && forall acc: Accs, stripe: seq<Byte>, offset: int ::
         core.accumulate(acc, stripe, offset) == Accumulated(secret, wide, acc, stripe, offset)
  }

  lemma StaleAccumulatorsDiffer<Digest>(core: Core<Accs, Digest>, secret: seq<Byte>, wide: bool, lengths: seq<nat>)
    requires |secret| >= SECRET_SIZE_MIN && Accumulates(core, secret, wide) && Stale(RunShape(lengths))
    ensures !AlwaysAgree(core, lengths)
  {
    var x := SomeStripeDiffers(secret, wide, core.lastOffset, RunShape(lengths).buffered);
    var s, t := StaleStripe(core, lengths, LastStart(lengths), x);
    assert Lengths(Cut(lengths, LastStart(lengths), x)) == lengths;
    assert !AccumulatorsAgree(core, Cut(lengths, LastStart(lengths), x));
  }

  lemma FreshAccumulatorsAgree<Digest>(core: Core<Accs, Digest>, lengths: seq<nat>)
    requires core.Valid() && !Stale(RunShape(lengths))
    ensures AlwaysAgree(core, lengths)
  {
    forall chunks: seq<seq<Byte>> | Lengths(chunks) == lengths ensures AccumulatorsAgree(core, chunks) {
      var p := RunInv(core, chunks);
      if |Concat(chunks)| > MIDSIZE_MAX {
        DigestAccIsRight(core, Run(core, chunks), p);
      }
    }
  }

  /** Both variants, with any secret: streaming and hashing in one go reach the same accumulators on all inputs cut to
      the given lengths exactly when these lengths do not leave a stale tail. */
  lemma AccumulatorsAgreeIffNotStale(secret: seq<Byte>, short64: seq<Byte> -> Word64, short128: seq<Byte> -> (Word64, Word64), lengths: seq<nat>)
    requires |secret| >= SECRET_SIZE_MIN
    ensures Hash64(secret, short64).Valid() && (AlwaysAgree(Hash64(secret, short64), lengths) <==> !Stale(RunShape(lengths)))
    ensures Hash128(secret, short128).Valid() && (AlwaysAgree(Hash128(secret, short128), lengths) <==> !Stale(RunShape(lengths)))
  {
    VariantsAreValid(secret, short64, short128);
    if Stale(RunShape(lengths)) {
      StaleAccumulatorsDiffer(Hash64(secret, short64), secret, false, lengths);
      StaleAccumulatorsDiffer(Hash128(secret, short128), secret, true, lengths);
    } else {
      FreshAccumulatorsAgree(Hash64(secret, short64), lengths);
      FreshAccumulatorsAgree(Hash128(secret, short128), lengths);
    }
  }

  /** The smallest single update that goes wrong, for every secret and both variants. */
  lemma FirstWrongUpdate(secret: seq<Byte>, short64: seq<Byte> -> Word64, short128: seq<Byte> -> (Word64, Word64), n: nat)
    requires |secret| >= SECRET_SIZE_MIN && n <= 257
    ensures Hash64(secret, short64).Valid() && (AlwaysAgree(Hash64(secret, short64), [n]) <==> n <= 256)
    ensures Hash128(secret, short128).Valid() && (AlwaysAgree(Hash128(secret, short128), [n]) <==> n <= 256)
  {
    FirstStaleUpdate();
    AccumulatorsAgreeIffNotStale(secret, short64, short128, [n]);
  }
}
