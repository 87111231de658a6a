/** Published hash values.  They fix the constants, the rotations and the order of the steps, which streaming does not
    depend on. */
module XxhVectors {
  import opened ByteStreams
  import opened Xxh
  import opened XxhWords

  /** "Nobody inspects the spammish repetition" */
  const REPETITION: seq<Byte> := FIRST + SECOND + REST

  const FIRST: seq<Byte> := [78, 111, 98, 111, 100, 121, 32, 105, 110, 115, 112, 101, 99, 116, 115, 32]
  const SECOND: seq<Byte> := [116, 104, 101, 32, 115, 112, 97, 109, 109, 105, 115, 104, 32, 114, 101, 112]
  const REST: seq<Byte> := [101, 116, 105, 116, 105, 111, 110]

  /** The first 14 bytes of the generator that xxHash is checked with. */
  const GENERATED: seq<Byte> := [0, 82, 146, 155, 183, 50, 163, 36, 45, 0, 175, 149, 14, 236]

  /** The one-shot hash from its steps. */
  lemma OneShotSteps<Acc, H>(core: Core<Acc, H>, whole: seq<Byte>, rest: seq<Byte>, acc: Acc, merged: H, counted: H, out: H)
    requires core.Valid() && Whole(|whole|, core.stripe) == |whole| && |rest| < core.stripe
    requires |whole| >= core.stripe && Fold(core, core.init, whole) == acc && core.merge(acc) == merged
    requires core.addLength(merged, |whole| + |rest|) == counted && core.ending(counted, rest) == out
    ensures OneShot(core, whole + rest) == out
  {
    var t := whole + rest;
    WholeAdd(|whole|, |rest|, core.stripe);
    assert Whole(|t|, core.stripe) == |whole|;
    assert t[..|whole|] == whole && t[|whole|..] == rest;
  }

  lemma OneShotShort<Acc, H>(core: Core<Acc, H>, t: seq<Byte>, counted: H, out: H)
    requires core.Valid() && |t| < core.stripe
    requires core.addLength(core.small(core.init), |t|) == counted && core.ending(counted, t) == out
    ensures OneShot(core, t) == out
  {
    assert Whole(|t|, core.stripe) == 0 && t[0..] == t;
  }

  lemma FoldTwo<Acc, H>(core: Core<Acc, H>, a: seq<Byte>, b: seq<Byte>)
    requires core.Valid() && |a| == |b| == core.stripe
    ensures Fold(core, core.init, a + b) == core.consume(core.consume(core.init, a), b)
  {
    assert Whole(|a|, core.stripe) == |a|;
    FoldConcat(core, core.init, a, b);
    FoldOne(core, core.init, a);
    FoldOne(core, core.consume(core.init, a), b);
  }

  // ---- XXH32 ----------------------------------------------------------------------------------------------

  lemma Words32OfFirst()
    ensures ReadLE32(FIRST, 0) == 1868721998 && ReadLE32(FIRST, 4) == 1763735908
    ensures ReadLE32(FIRST, 8) == 1701868398 && ReadLE32(FIRST, 12) == 544437347
  {
  }

  lemma Consumed32OfFirst()
    ensures Consume32(Start32(0), FIRST)
            == Lanes(74084362, 3215849699, 1530049706, 327046485)
  {
    Words32OfFirst();
    assert Start32(0) == Lanes(606290984, 2246822519, 0, 1640531535);
    assert Round32(606290984, 1868721998) == Rotl32(606290984 + 1868721998 * 2246822519, 13) * 2654435761;
    assert Round32(2246822519, 1763735908) == Rotl32(2246822519 + 1763735908 * 2246822519, 13) * 2654435761;
    assert Round32(0, 1701868398) == Rotl32(0 + 1701868398 * 2246822519, 13) * 2654435761;
    assert Round32(1640531535, 544437347) == Rotl32(1640531535 + 544437347 * 2246822519, 13) * 2654435761;
  }

  lemma Words32OfSecond()
    ensures ReadLE32(SECOND, 0) == 543516788 && ReadLE32(SECOND, 4) == 1835102323
    ensures ReadLE32(SECOND, 8) == 1752394093 && ReadLE32(SECOND, 12) == 1885696544
  {
  }

  lemma Consumed32OfSecond()
    ensures Consume32(Lanes(74084362, 3215849699, 1530049706, 327046485), SECOND)
            == Lanes(1905951598, 1363942888, 2549762978, 606771106)
  {
    Words32OfSecond();
    assert Round32(74084362, 543516788) == Rotl32(74084362 + 543516788 * 2246822519, 13) * 2654435761;
    assert Round32(3215849699, 1835102323) == Rotl32(3215849699 + 1835102323 * 2246822519, 13) * 2654435761;
    assert Round32(1530049706, 1752394093) == Rotl32(1530049706 + 1752394093 * 2246822519, 13) * 2654435761;
    assert Round32(327046485, 1885696544) == Rotl32(327046485 + 1885696544 * 2246822519, 13) * 2654435761;
  }

  lemma Merged32()
    ensures Merge32(Lanes(1905951598, 1363942888, 2549762978, 606771106)) == 2357638445
  {
    assert Merge32(Lanes(1905951598, 1363942888, 2549762978, 606771106))
        == Rotl32(1905951598, 1) + Rotl32(1363942888, 7) + Rotl32(2549762978, 12) + Rotl32(606771106, 18);
  }

  lemma Counted32(n: nat)
    requires n == 39
    ensures 2357638445 + ((n % 0x1_0000_0000) as bv32) == 2357638484
  {
    assert n % 0x1_0000_0000 == 39 && (39 as bv32) + 2357638445 == 2357638484;
  }

  lemma Word32(h: bv32, t: seq<Byte>)
    requires |t| >= 4
    ensures Ending32(h, t) == Ending32(Rotl32(h + ReadLE32(t, 0) * P32_3, 17) * P32_4, t[4..])
  {
  }

  lemma WordValue32(x: bv32)
    requires x == 1953068133
    ensures Rotl32(2357638484 + x * P32_3, 17) * P32_4 == 162862404
  {
  }

  lemma Byte32(h: bv32, t: seq<Byte>)
    requires 0 < |t| < 4
    ensures Ending32(h, t) == Ending32(Rotl32(h + (t[0] as bv32) * P32_5, 11) * P32_1, t[1..])
  {
  }

  lemma ByteValues32(a: Byte, b: Byte, c: Byte)
    requires [a, b, c] == [105, 111, 110]
    ensures Rotl32(162862404 + (a as bv32) * P32_5, 11) * P32_1 == 3455046601
    ensures Rotl32(3455046601 + (b as bv32) * P32_5, 11) * P32_1 == 944900219
    ensures Rotl32(944900219 + (c as bv32) * P32_5, 11) * P32_1 == 3014066459
  {
    assert a == [a, b, c][0] && b == [a, b, c][1] && c == [a, b, c][2];
  }

  lemma Avalanched32()
    ensures Ending32(3014066459, []) == 0xE2293B2F
  {
  }

  lemma Ended32Word(t: seq<Byte>)
    requires |t| == 7 && ReadLE32(t, 0) == 1953068133
    ensures Ending32(2357638484, t) == Ending32(162862404, t[4..])
  {
    Word32(2357638484, t);
    WordValue32(ReadLE32(t, 0));
  }

  lemma Ended32Bytes(t: seq<Byte>)
    requires t == [105, 111, 110]
    ensures Ending32(162862404, t) == 0xE2293B2F
  {
    ByteValues32(t[0], t[1..][0], t[1..][1..][0]);
    Byte32(162862404, t);
    Byte32(3455046601, t[1..]);
    Byte32(944900219, t[1..][1..]);
    Avalanched32();
  }

  /** A text with whole stripes, a word and single bytes. */
  lemma Xxh32OfRepetition()
    ensures OneShot(Xxh32(0), REPETITION) == 0xE2293B2F
  {
    FoldTwo(Xxh32(0), FIRST, SECOND);
    Consumed32OfFirst();
    Consumed32OfSecond();
    Merged32();
    Counted32(|FIRST + SECOND| + |REST|);
    Ended32();
    assert Whole(32, 16) == 32;
    OneShotSteps(Xxh32(0), FIRST + SECOND, REST, Lanes(1905951598, 1363942888, 2549762978, 606771106), 2357638445, 2357638484, 0xE2293B2F);
  }

  lemma Ended32()
    ensures Ending32(2357638484, REST) == 0xE2293B2F
  {
    assert ReadLE32(REST, 0) == 1953068133;
    assert REST[4..] == [105, 111, 110];
    Ended32Word(REST);
    Ended32Bytes(REST[4..]);
  }

  // ---- XXH64 ----------------------------------------------------------------------------------------------

  const STRIPE: seq<Byte> := FIRST + SECOND

  lemma Words64OfStripe()
    ensures ReadLE64(STRIPE, 0) == 7575188045509586766 && ReadLE64(STRIPE, 8) == 2338340601787872110
    ensures ReadLE64(STRIPE, 16) == 7881704462642145396 && ReadLE64(STRIPE, 24) == 8099004988412619117
  {
  }

  lemma Consumed64()
    ensures Consume64(Start64(0), STRIPE)
            == Lanes(3973390001945083467, 1959113162029503183, 14799629111262711754, 2024056041550129738)
  {
    Words64OfStripe();
    assert Start64(0) == Lanes(6983438078262162902, 14029467366897019727, 0, 7046029288634856825);
    assert Round64(6983438078262162902, 7575188045509586766) == Rotl64(6983438078262162902 + 7575188045509586766 * 14029467366897019727, 31) * 11400714785074694791;
    assert Round64(14029467366897019727, 2338340601787872110) == Rotl64(14029467366897019727 + 2338340601787872110 * 14029467366897019727, 31) * 11400714785074694791;
    assert Round64(0, 7881704462642145396) == Rotl64(0 + 7881704462642145396 * 14029467366897019727, 31) * 11400714785074694791;
    assert Round64(7046029288634856825, 8099004988412619117) == Rotl64(7046029288634856825 + 8099004988412619117 * 14029467366897019727, 31) * 11400714785074694791;
  }

  lemma Merged64()
    ensures Merge64(Lanes(3973390001945083467, 1959113162029503183, 14799629111262711754, 2024056041550129738)) == 9579768019787294901
  {
    assert Rotl64(3973390001945083467, 1) + Rotl64(1959113162029503183, 7) + Rotl64(14799629111262711754, 12) + Rotl64(2024056041550129738, 18) == 14185825243590525268;
    assert Round64(0, 3973390001945083467) == Rotl64(3973390001945083467 * 14029467366897019727, 31) * 11400714785074694791;
    assert MergeRound64(14185825243590525268, 3973390001945083467) == 3518452451733578052;
    assert Round64(0, 1959113162029503183) == Rotl64(1959113162029503183 * 14029467366897019727, 31) * 11400714785074694791;
    assert MergeRound64(3518452451733578052, 1959113162029503183) == 16546771031885973144;
    assert Round64(0, 14799629111262711754) == Rotl64(14799629111262711754 * 14029467366897019727, 31) * 11400714785074694791;
    assert MergeRound64(16546771031885973144, 14799629111262711754) == 18000578893446646125;
    assert Round64(0, 2024056041550129738) == Rotl64(2024056041550129738 * 14029467366897019727, 31) * 11400714785074694791;
    assert MergeRound64(18000578893446646125, 2024056041550129738) == 9579768019787294901;
  }

  lemma Counted64(n: nat)
    requires n == 39
    ensures 9579768019787294901 + ((n % 0x1_0000_0000_0000_0000) as bv64) == 9579768019787294940
  {
    assert n % 0x1_0000_0000_0000_0000 == 39 && (39 as bv64) + 9579768019787294901 == 9579768019787294940;
  }

  lemma Word64(h: bv64, t: seq<Byte>)
    requires 4 <= |t| < 8
    ensures Ending64(h, t) == EndingBytes64(Rotl64(h ^ ((ReadLE32(t, 0) as bv64) * P64_1), 23) * P64_2 + P64_3, t[4..])
  {
  }

  lemma WordValue64(x: bv32)
    requires x == 1953068133
    ensures Rotl64(9579768019787294940 ^ ((x as bv64) * P64_1), 23) * P64_2 + P64_3 == 11514032289611387151
  {
  }

  lemma Byte64(h: bv64, t: seq<Byte>)
    requires t != []
    ensures EndingBytes64(h, t) == EndingBytes64(Rotl64(h ^ ((t[0] as bv64) * P64_5), 11) * P64_1, t[1..])
  {
  }

  lemma FirstByteValue(b: Byte)
    requires b == 105
    ensures Rotl64(11514032289611387151 ^ ((b as bv64) * P64_5), 11) * P64_1 == 8545141950437767700
  {
  }

  lemma FirstByte(t: seq<Byte>)
    requires t != [] && t[0] == 105
    ensures EndingBytes64(11514032289611387151, t) == EndingBytes64(8545141950437767700, t[1..])
  {
    Byte64(11514032289611387151, t);
    FirstByteValue(t[0]);
  }

  lemma SecondByteValue(b: Byte)
    requires b == 111
    ensures Rotl64(8545141950437767700 ^ ((b as bv64) * P64_5), 11) * P64_1 == 16927261076649234002
  {
  }

  lemma SecondByte(t: seq<Byte>)
    requires t != [] && t[0] == 111
    ensures EndingBytes64(8545141950437767700, t) == EndingBytes64(16927261076649234002, t[1..])
  {
    Byte64(8545141950437767700, t);
    SecondByteValue(t[0]);
  }

  lemma ThirdByteValue(b: Byte)
    requires b == 110
    ensures Rotl64(16927261076649234002 ^ ((b as bv64) * P64_5), 11) * P64_1 == 2092563352423746596
  {
  }

  lemma ThirdByte(t: seq<Byte>)
    requires t != [] && t[0] == 110
    ensures EndingBytes64(16927261076649234002, t) == EndingBytes64(2092563352423746596, t[1..])
  {
    Byte64(16927261076649234002, t);
    ThirdByteValue(t[0]);
  }

  lemma Avalanched64()
    ensures EndingBytes64(2092563352423746596, []) == 0xFBCEA83C8A378BF1
  {
  }

  lemma Ended64Word(t: seq<Byte>)
    requires |t| == 7 && ReadLE32(t, 0) == 1953068133
    ensures Ending64(9579768019787294940, t) == EndingBytes64(11514032289611387151, t[4..])
  {
    Word64(9579768019787294940, t);
    WordValue64(ReadLE32(t, 0));
  }

  lemma RestSplit(t: seq<Byte>)
    requires t == REST
    ensures |t| == 7 && ReadLE32(t, 0) == 1953068133 && t[4..] == [105, 111, 110]
  {
  }

  lemma Ended64(t: seq<Byte>)
    requires t == REST
    ensures Ending64(9579768019787294940, t) == 0xFBCEA83C8A378BF1
  {
    RestSplit(t);
    Ended64Word(t);
    Ended64Bytes(t[4..]);
  }

  lemma Ended64Bytes(t: seq<Byte>)
    requires t == [105, 111, 110]
    ensures EndingBytes64(11514032289611387151, t) == 0xFBCEA83C8A378BF1
  {
    FirstByte(t);
    Ended64Last(t[1..]);
  }

  lemma Ended64Last(t: seq<Byte>)
    requires t == [111, 110]
    ensures EndingBytes64(8545141950437767700, t) == 0xFBCEA83C8A378BF1
  {
    SecondByte(t);
    Ended64LastByte(t[1..]);
  }

  lemma Ended64LastByte(t: seq<Byte>)
    requires t == [110]
    ensures EndingBytes64(16927261076649234002, t) == 0xFBCEA83C8A378BF1
  {
    ThirdByte(t);
    Avalanched64();
  }

  lemma Xxh64OfRepetition(t: seq<Byte>)
    requires t == REPETITION
    ensures OneShot(Xxh64(0), t) == 0xFBCEA83C8A378BF1
  {
    Xxh64OfParts(STRIPE, REST);
    assert t == STRIPE + REST;
  }

  lemma Xxh64OfParts(stripe: seq<Byte>, rest: seq<Byte>)
    requires stripe == STRIPE && rest == REST
    ensures OneShot(Xxh64(0), stripe + rest) == 0xFBCEA83C8A378BF1
  {
    FoldOne(Xxh64(0), Start64(0), stripe);
    Consumed64();
    Merged64();
    Counted64(|stripe| + |rest|);
    Ended64(rest);
    assert Whole(32, 32) == 32;
    OneShotSteps(Xxh64(0), stripe, rest, Lanes(3973390001945083467, 1959113162029503183, 14799629111262711754, 2024056041550129738), 9579768019787294901, 9579768019787294940, 0xFBCEA83C8A378BF1);
  }

  // ---- XXH64 of less than a stripe, with words of both lengths ----------------------------------------------

  lemma LongWord64(h: bv64, t: seq<Byte>)
    requires |t| >= 8
    ensures Ending64(h, t) == Ending64(Rotl64(h ^ Round64(0, ReadLE64(t, 0)), 27) * P64_1 + P64_4, t[8..])
  {
  }

  lemma LongWordValue(x: bv64)
    requires x == 2640009570739704320
    ensures Rotl64(2870177450012600275 ^ Round64(0, x), 27) * P64_1 + P64_4 == 17576508009812539549
  {
    LongWordRound();
    LongWordMixed();
  }

  lemma LongWordRound()
    ensures Round64(0, 2640009570739704320) == 1404812954009629943
  {
    assert Round64(0, 2640009570739704320) == Rotl64(0 + 2640009570739704320 * 14029467366897019727, 31) * 11400714785074694791;
  }

  lemma LongWordMixed()
    ensures Rotl64(2870177450012600275 ^ 1404812954009629943, 27) * P64_1 + P64_4 == 17576508009812539549
  {
  }

  lemma GeneratedLongWord(t: seq<Byte>)
    requires |t| >= 8 && ReadLE64(t, 0) == 2640009570739704320
    ensures Ending64(2870177450012600275, t) == Ending64(17576508009812539549, t[8..])
  {
    LongWord64(2870177450012600275, t);
    LongWordValue(ReadLE64(t, 0));
  }

  lemma GeneratedWordValue(x: bv32)
    requires x == 2511274029
    ensures Rotl64(17576508009812539549 ^ ((x as bv64) * P64_1), 23) * P64_2 + P64_3 == 12884173470358556745
  {
  }

  lemma GeneratedWord(t: seq<Byte>)
    requires 4 <= |t| < 8 && ReadLE32(t, 0) == 2511274029
    ensures Ending64(17576508009812539549, t) == EndingBytes64(12884173470358556745, t[4..])
  {
    Word64(17576508009812539549, t);
    GeneratedWordValue(ReadLE32(t, 0));
  }

  lemma FourthByteValue(b: Byte)
    requires b == 14
    ensures Rotl64(12884173470358556745 ^ ((b as bv64) * P64_5), 11) * P64_1 == 10527275905125250653
  {
  }

  lemma FourthByte(t: seq<Byte>)
    requires t != [] && t[0] == 14
    ensures EndingBytes64(12884173470358556745, t) == EndingBytes64(10527275905125250653, t[1..])
  {
    Byte64(12884173470358556745, t);
    FourthByteValue(t[0]);
  }

  lemma FifthByteValue(b: Byte)
    requires b == 236
    ensures Rotl64(10527275905125250653 ^ ((b as bv64) * P64_5), 11) * P64_1 == 7601030732333948478
  {
  }

  lemma FifthByte(t: seq<Byte>)
    requires t != [] && t[0] == 236
    ensures EndingBytes64(10527275905125250653, t) == EndingBytes64(7601030732333948478, t[1..])
  {
    Byte64(10527275905125250653, t);
    FifthByteValue(t[0]);
  }

  lemma GeneratedAvalanched()
    ensures EndingBytes64(7601030732333948478, []) == 0x8282DCC4994E35C8
  {
  }

  lemma GeneratedSplit(t: seq<Byte>)
    requires t == GENERATED
    ensures |t| == 14 && ReadLE64(t, 0) == 2640009570739704320 && t[8..] == [45, 0, 175, 149, 14, 236]
  {
  }

  lemma GeneratedEnded(t: seq<Byte>)
    requires t == GENERATED
    ensures Ending64(2870177450012600275, t) == 0x8282DCC4994E35C8
  {
    GeneratedSplit(t);
    GeneratedLongWord(t);
    GeneratedTail(t[8..]);
  }

  lemma GeneratedTail(t: seq<Byte>)
    requires t == [45, 0, 175, 149, 14, 236]
    ensures Ending64(17576508009812539549, t) == 0x8282DCC4994E35C8
  {
    assert ReadLE32(t, 0) == 2511274029;
    GeneratedWord(t);
    GeneratedLast(t[4..]);
  }

  lemma GeneratedLast(t: seq<Byte>)
    requires t == [14, 236]
    ensures EndingBytes64(12884173470358556745, t) == 0x8282DCC4994E35C8
  {
    FourthByte(t);
    GeneratedLastByte(t[1..]);
  }

  lemma GeneratedLastByte(t: seq<Byte>)
    requires t == [236]
    ensures EndingBytes64(10527275905125250653, t) == 0x8282DCC4994E35C8
  {
    FifthByte(t);
    GeneratedAvalanched();
  }

  /** What the end of a text of n bytes without a whole stripe starts from. */
  function Counted(n: nat): bv64 {
    P64_5 + ((n % 0x1_0000_0000_0000_0000) as bv64)
  }

  lemma GeneratedCounted(n: nat)
    requires n == 14
    ensures Counted(n) == 2870177450012600275
  {
    assert n % 0x1_0000_0000_0000_0000 == 14 && P64_5 + (14 as bv64) == 2870177450012600275;
  }

  lemma GeneratedOut(t: seq<Byte>, n: nat, h: bv64) returns (out: bv64)
    requires t == GENERATED && n == 14 && h == Counted(n)
    ensures |t| == n && out == 0x8282DCC4994E35C8 && Ending64(h, t) == out
  {
    GeneratedSplit(t);
    GeneratedCounted(n);
    GeneratedEnded(t);
    out := 0x8282DCC4994E35C8;
  }

  lemma Xxh64OfShort(t: seq<Byte>, n: nat, h: bv64, out: bv64)
    requires |t| == n < 32 && Counted(n) == h && Ending64(h, t) == out
    ensures OneShot(Xxh64(0), t) == out
  {
    OneShotShort(Xxh64(0), t, h, out);
  }

  lemma Xxh64OfGenerated(t: seq<Byte>, n: nat)
    requires t == GENERATED && n == |t|
    ensures OneShot(Xxh64(0), t) == 0x8282DCC4994E35C8
  {
    var h := Counted(n);
    var out := GeneratedOut(t, n, h);
    Xxh64OfShort(t, n, h, out);
  }
}
