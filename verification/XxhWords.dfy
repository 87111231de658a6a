/** The arithmetic of XXH32 and XXH64, and the streaming theorem for both. */
module XxhWords {
  import opened ByteStreams
  import opened Xxh

  datatype Lanes<W> = Lanes(v1: W, v2: W, v3: W, v4: W)

  // ---- 32 bits --------------------------------------------------------------------------------

  const P32_1: bv32 := 2654435761
  const P32_2: bv32 := 2246822519
  const P32_3: bv32 := 3266489917
  const P32_4: bv32 := 668265263
  const P32_5: bv32 := 374761393

  function Rotl32(x: bv32, r: nat): bv32
    requires 0 < r < 32
  {
    (x << r) | (x >> (32 - r))
  }

  function ReadLE32(t: seq<Byte>, at: nat): bv32
    requires at + 4 <= |t|
  {
    (t[at] as bv32) | ((t[at + 1] as bv32) << 8) | ((t[at + 2] as bv32) << 16) | ((t[at + 3] as bv32) << 24)
  }

  function Round32(seed: bv32, input: bv32): bv32 {
    Rotl32(seed + input * P32_2, 13) * P32_1
  }

  function Start32(seed: bv32): Lanes<bv32> {
    Lanes(seed + P32_1 + P32_2, seed + P32_2, seed, seed - P32_1)
  }

  /** A stripe feeds one word to every lane. */
  function Consume32(l: Lanes<bv32>, stripe: seq<Byte>): Lanes<bv32> {
    if |stripe| < 16 then l
    else
      Lanes(Round32(l.v1, ReadLE32(stripe, 0)), Round32(l.v2, ReadLE32(stripe, 4)),
            Round32(l.v3, ReadLE32(stripe, 8)), Round32(l.v4, ReadLE32(stripe, 12)))
  }

  function Merge32(l: Lanes<bv32>): bv32 {
    Rotl32(l.v1, 1) + Rotl32(l.v2, 7) + Rotl32(l.v3, 12) + Rotl32(l.v4, 18)
  }

  function Ending32(h: bv32, t: seq<Byte>): bv32
    decreases |t|
  {
    if |t| >= 4 then Ending32(Rotl32(h + ReadLE32(t, 0) * P32_3, 17) * P32_4, t[4..])
    else if |t| > 0 then Ending32(Rotl32(h + (t[0] as bv32) * P32_5, 11) * P32_1, t[1..])
    else
      var a := (h ^ (h >> 15)) * P32_2;
      var b := (a ^ (a >> 13)) * P32_3;
      b ^ (b >> 16)
  }

  function Xxh32(seed: bv32): (c: Core<Lanes<bv32>, bv32>)
    ensures c.Valid() && c.stripe == 16
  {
    Core(16, Start32(seed), (l: Lanes<bv32>, stripe: seq<Byte>) => Consume32(l, stripe), (l: Lanes<bv32>) => Merge32(l),
         (l: Lanes<bv32>) => l.v3 + P32_5, (h: bv32, n: nat) => h + ((n % 0x1_0000_0000) as bv32),
         (h: bv32, t: seq<Byte>) => Ending32(h, t))
  }

  // ---- 64 bits --------------------------------------------------------------------------------

  const P64_1: bv64 := 11400714785074694791
  const P64_2: bv64 := 14029467366897019727
  const P64_3: bv64 := 1609587929392839161
  const P64_4: bv64 := 9650029242287828579
  const P64_5: bv64 := 2870177450012600261

  function Rotl64(x: bv64, r: nat): bv64
    requires 0 < r < 64
  {
    (x << r) | (x >> (64 - r))
  }

  function ReadLE64(t: seq<Byte>, at: nat): bv64
    requires at + 8 <= |t|
  {
    (ReadLE32(t, at) as bv64) | ((ReadLE32(t, at + 4) as bv64) << 32)
  }

  function Round64(seed: bv64, input: bv64): bv64 {
    Rotl64(seed + input * P64_2, 31) * P64_1
  }

  function Start64(seed: bv64): Lanes<bv64> {
    Lanes(seed + P64_1 + P64_2, seed + P64_2, seed, seed - P64_1)
  }

  function Consume64(l: Lanes<bv64>, stripe: seq<Byte>): Lanes<bv64> {
    if |stripe| < 32 then l
    else
      Lanes(Round64(l.v1, ReadLE64(stripe, 0)), Round64(l.v2, ReadLE64(stripe, 8)),
            Round64(l.v3, ReadLE64(stripe, 16)), Round64(l.v4, ReadLE64(stripe, 24)))
  }

  function MergeRound64(h: bv64, v: bv64): bv64 {
    (h ^ Round64(0, v)) * P64_1 + P64_4
  }

  function Merge64(l: Lanes<bv64>): bv64 {
    var h := Rotl64(l.v1, 1) + Rotl64(l.v2, 7) + Rotl64(l.v3, 12) + Rotl64(l.v4, 18);
    MergeRound64(MergeRound64(MergeRound64(MergeRound64(h, l.v1), l.v2), l.v3), l.v4)
  }

  function Avalanche64(h: bv64): bv64 {
    var a := (h ^ (h >> 33)) * P64_2;
    var b := (a ^ (a >> 29)) * P64_3;
    b ^ (b >> 32)
  }

  function EndingBytes64(h: bv64, t: seq<Byte>): bv64
    decreases |t|
  {
    if t == [] then Avalanche64(h)
    else EndingBytes64(Rotl64(h ^ ((t[0] as bv64) * P64_5), 11) * P64_1, t[1..])
  }

  function Ending64(h: bv64, t: seq<Byte>): bv64
    decreases |t|
  {
    if |t| >= 8 then Ending64(Rotl64(h ^ Round64(0, ReadLE64(t, 0)), 27) * P64_1 + P64_4, t[8..])
    else if |t| >= 4 then EndingBytes64(Rotl64(h ^ ((ReadLE32(t, 0) as bv64) * P64_1), 23) * P64_2 + P64_3, t[4..])
    else EndingBytes64(h, t)
  }

  function Xxh64(seed: bv64): (c: Core<Lanes<bv64>, bv64>)
    ensures c.Valid() && c.stripe == 32
  {
    Core(32, Start64(seed), (l: Lanes<bv64>, stripe: seq<Byte>) => Consume64(l, stripe), (l: Lanes<bv64>) => Merge64(l),
         (l: Lanes<bv64>) => l.v3 + P64_5, (h: bv64, n: nat) => h + ((n % 0x1_0000_0000_0000_0000) as bv64),
         (h: bv64, t: seq<Byte>) => Ending64(h, t))
  }

  // ---- The theorem for both -------------------------------------------------------------------

  /** hash_state32_t and hash_state64_t give the one-shot hash, with the words and constants above. */
  lemma StreamingWords(seed32: bv32, seed64: bv64, chunks: seq<seq<Byte>>)
    ensures DigestOf(Xxh32(seed32), Run(Xxh32(seed32), chunks)) == OneShot(Xxh32(seed32), Concat(chunks))
    ensures DigestOf(Xxh64(seed64), Run(Xxh64(seed64), chunks)) == OneShot(Xxh64(seed64), Concat(chunks))
  {
    StreamingIsOneShot(Xxh32(seed32), chunks);
    StreamingIsOneShot(Xxh64(seed64), chunks);
  }
}
