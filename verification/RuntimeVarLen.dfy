/** The 16-byte string value: its construction from memory, its comparison and its hash. */
module VarLenStrings {
  import opened ByteStreams
  import opened LittleEndian

  const SHORT_LEN := 12
  const MAX_LEN := 0x1_0000_0000
  const LINE := 64

  // ---- Memory -------------------------------------------------------------------------------------

  datatype Memory = Memory(byte: nat -> Byte, readable: nat -> bool)

  ghost predicate CanRead(mem: Memory, p: nat, n: nat) {
    forall a :: p <= a < p + n ==> mem.readable(a)
  }

  /** Memory is readable in whole cache lines. */
  ghost predicate WholeLines(mem: Memory) {
    forall a: nat, b: nat :: a / LINE == b / LINE && mem.readable(a) ==> mem.readable(b)
  }

  /** The n bytes at p. */
  function Bytes(mem: Memory, p: nat, n: nat): (s: seq<Byte>)
    ensures |s| == n && forall i :: 0 <= i < n ==> s[i] == mem.byte(p + i)
  {
    seq(n, i requires 0 <= i < n => mem.byte(p + i))
  }

  lemma Part(mem: Memory, p: nat, n: nat, from: nat, len: nat)
    requires from + len <= n
    ensures Bytes(mem, p, n)[from..from + len] == Bytes(mem, p + from, len)
  {
  }

  lemma FirstPart(mem: Memory, p: nat, n: nat, k: nat)
    requires k <= n
    ensures First(Bytes(mem, p, n), k) == Bytes(mem, p, k)
  {
  }

  lemma RestPart(mem: Memory, p: nat, n: nat, k: nat)
    requires k <= n
    ensures Rest(Bytes(mem, p, n), k) == Bytes(mem, p + k, n - k)
  {
  }

  function Load64(mem: Memory, p: nat): bv64
    requires CanRead(mem, p, 8)
  {
    LE(Bytes(mem, p, 8))
  }

  function Load32(mem: Memory, p: nat): bv32
    requires CanRead(mem, p, 4)
  {
    Narrow(LE(Bytes(mem, p, 4)))
  }

  lemma SameLine(mem: Memory, p: nat, start: nat)
    requires WholeLines(mem) && mem.readable(p)
    requires start / LINE == p / LINE == (start + 7) / LINE
    ensures CanRead(mem, start, 8)
  {
    forall a | start <= a < start + 8 ensures mem.readable(a) {
      assert a / LINE == p / LINE;
    }
  }

  lemma LineBefore(mem: Memory, p: nat, len: nat)
    requires WholeLines(mem) && CanRead(mem, p, len) && 0 < len < 8 && p % LINE > 56
    ensures p + len >= 8 && CanRead(mem, p + len - 8, 8)
  {
    assert mem.readable(p);
    forall a | p + len - 8 <= a < p + len ensures mem.readable(a) {
      if a < p { assert a / LINE == p / LINE; }
    }
  }

  /** The ways of reading at most a word: each reads only lines that hold a byte of the string, and all give its
      first (at most) 8 bytes, padded with zeros. */
  method Read8PadZero(mem: Memory, p: nat, len: nat) returns (r: bv64)
    requires WholeLines(mem) && CanRead(mem, p, len)
    ensures r == LE(First(Bytes(mem, p, len), 8))
  {
    if len == 0 {
      return 0;
    }
    if len >= 8 {
      FirstPart(mem, p, len, 8);
      return Load64(mem, p);
    }
    if p % LINE <= 56 {
      r := LoadAndMask(mem, p, len);
    } else {
      r := LoadAndShift(mem, p, len);
    }
  }

  method LoadAndMask(mem: Memory, p: nat, len: nat) returns (r: bv64)
    requires WholeLines(mem) && CanRead(mem, p, len) && 0 < len < 8 && p % LINE <= 56
    ensures r == LE(Bytes(mem, p, len))
  {
    assert mem.readable(p);
    SameLine(mem, p, p);
    var bytes := Load64(mem, p);
    var shift := 8 * len;
    var mask := !ShiftLeft(!0, shift);
    r := bytes & mask;
    MaskedIsFirst(Bytes(mem, p, 8), len);
    FirstPart(mem, p, 8, len);
  }

  method LoadAndShift(mem: Memory, p: nat, len: nat) returns (r: bv64)
    requires WholeLines(mem) && CanRead(mem, p, len) && 0 < len < 8 && p % LINE > 56
    ensures r == LE(Bytes(mem, p, len))
  {
    LineBefore(mem, p, len);
    r := ShiftRight(Load64(mem, p + len - 8), 8 * (8 - len));
    ShiftedIsRest(Bytes(mem, p + len - 8, 8), 8 - len);
    RestPart(mem, p + len - 8, 8, 8 - len);
  }

  // ---- The value -----------------------------------------------------------------------------------

  /** The last 8 bytes hold characters or an address; the length says which. */
  datatype Last8 = Chars(w: bv64) | Address(p: nat)

  datatype Layout = Layout(len: nat, first4: bv32, last8: Last8)

  /** The value of a string: a short one is given by its bytes alone, a long one has its first bytes and its
      address. This is also the constant that is emitted for a literal. */
  function Represent(s: seq<Byte>, p: nat): Layout {
    Layout(|s|, Narrow(LE(First(s, 4))), if |s| <= SHORT_LEN then Chars(LE(Rest(s, 4))) else Address(p))
  }

  /** The i-th of the 12 bytes of the value. */
  function Own(v: Layout, i: nat): Byte
    requires v.last8.Chars?
  {
    if i < 4 then ByteOf32(v.first4, i) else ByteOf(v.last8.w, i - 4)
  }

  predicate WellFormed(v: Layout) {
    v.len < MAX_LEN && (v.len <= SHORT_LEN <==> v.last8.Chars?)
  }

  /** str(): the bytes at getPtr(). */
  function Str(mem: Memory, v: Layout): (s: seq<Byte>)
    requires WellFormed(v)
    ensures |s| == v.len
  {
    if v.len <= SHORT_LEN then seq(v.len, i requires 0 <= i < v.len => Own(v, i)) else Bytes(mem, v.last8.p, v.len)
  }

  class VarLen32 {
    var len: nat
    var first4: bv32
    var last8: Last8

    ghost function Value(): Layout
      reads this
    {
      Layout(len, first4, last8)
    }

    constructor (mem: Memory, p: nat, n: nat)
      requires n < MAX_LEN && WholeLines(mem) && CanRead(mem, p, n)
      ensures Value() == Represent(Bytes(mem, p, n), p)
    {
      len := n;
      new;
      if n > SHORT_LEN {
        first4 := Load32(mem, p);
        last8 := Address(p);
        FirstPart(mem, p, n, 4);
      } else if n > 8 {
        first4 := Load32(mem, p);
        var duplicate := 12 - n;
        last8 := Chars(ShiftRight(Load64(mem, p + n - 8), 8 * duplicate));
        FirstPart(mem, p, n, 4);
        ShiftedIsRest(Bytes(mem, p + n - 8, 8), duplicate);
        RestPart(mem, p + n - 8, 8, duplicate);
        RestPart(mem, p, n, 4);
      } else {
        var bytes := Read8PadZero(mem, p, n);
        assert First(Bytes(mem, p, n), 8) == Bytes(mem, p, n);
        first4 := Narrow(bytes);
        last8 := Chars(ShiftRight(bytes, 32));
        NarrowIsFirst(Bytes(mem, p, n));
        ShiftedIsRest(Bytes(mem, p, n), 4);
      }
    }
  }

  // ---- Round trip -----------------------------------------------------------------------------------

  lemma ShortByte(s: seq<Byte>, p: nat, i: nat)
    requires i < |s| <= SHORT_LEN
    ensures Own(Represent(s, p), i) == s[i]
  {
    if i < 4 {
      NarrowByteIs(First(s, 4), i);
    } else {
      ByteIs(Rest(s, 4), i - 4);
    }
  }

  /** A string can be read back from its value; a short one from the value alone, whatever memory holds later. */
  lemma StrOfRepresent(mem: Memory, later: Memory, p: nat, n: nat)
    requires n < MAX_LEN && (n > SHORT_LEN ==> Bytes(later, p, n) == Bytes(mem, p, n))
    ensures WellFormed(Represent(Bytes(mem, p, n), p)) && Str(later, Represent(Bytes(mem, p, n), p)) == Bytes(mem, p, n)
  {
    var s := Bytes(mem, p, n);
    if n <= SHORT_LEN {
      forall i | 0 <= i < n ensures Own(Represent(s, p), i) == s[i] { ShortByte(s, p, i); }
    }
  }

  // ---- Comparison -------------------------------------------------------------------------------------

  /** The second flag of the emitted comparison. */
  predicate NeedsDetail(a: Layout, b: Layout) {
    a.len > 12 && a.len == b.len && a.first4 == b.first4
  }

  /** The emitted equality: the first flag compares all 16 bytes, and the runtime is asked where the second says so. */
  predicate EmittedEq(mem: Memory, a: Layout, b: Layout)
    requires WellFormed(a) && WellFormed(b)
  {
    if NeedsDetail(a, b) then Str(mem, a) == Str(mem, b) else a == b
  }

  /** It is equality of strings, for all lengths, contents and places. */
  lemma EmittedEqIsEquality(mem: Memory, p: nat, n: nat, q: nat, m: nat)
    requires n < MAX_LEN && m < MAX_LEN
    ensures var a, b := Represent(Bytes(mem, p, n), p), Represent(Bytes(mem, q, m), q);
            WellFormed(a) && WellFormed(b) && (EmittedEq(mem, a, b) <==> Bytes(mem, p, n) == Bytes(mem, q, m))
  {
    StrOfRepresent(mem, mem, p, n);
    StrOfRepresent(mem, mem, q, m);
  }

  /** The runtime is asked exactly about long strings of one length that begin with the same four bytes. */
  lemma DetailIff(s: seq<Byte>, p: nat, t: seq<Byte>, q: nat)
    ensures NeedsDetail(Represent(s, p), Represent(t, q)) <==> |s| == |t| > 12 && s[..4] == t[..4]
  {
    if NeedsDetail(Represent(s, p), Represent(t, q)) {
      forall i | 0 <= i < 4 ensures s[..4][i] == t[..4][i] {
        NarrowByteIs(s[..4], i);
        NarrowByteIs(t[..4], i);
      }
    }
  }

  /** The first flag alone decides equality exactly if the strings differ, are short, or are in the same place. */
  lemma FirstFlagAlone(mem: Memory, p: nat, n: nat, q: nat, m: nat)
    requires n < MAX_LEN && m < MAX_LEN
    ensures var a, b := Represent(Bytes(mem, p, n), p), Represent(Bytes(mem, q, m), q);
            ((a == b) <==> Bytes(mem, p, n) == Bytes(mem, q, m)) <==>
            (Bytes(mem, p, n) != Bytes(mem, q, m) || n <= 12 || p == q)
  {
    StrOfRepresent(mem, mem, p, n);
    StrOfRepresent(mem, mem, q, m);
  }

  // ---- Hashing ------------------------------------------------------------------------------------------

  /** The hash functions: of a word, of two hashes, and the runtime's of a long string. */
  datatype Hashing = Hashing(word: (nat, bv32) -> bv64, chars: bv64 -> bv64, combine: (bv64, bv64) -> bv64,
                             data: seq<Byte> -> bv64)

  predicate CheapHashComplete(v: Layout) {
    v.len < 13
  }

  function EmittedHash(h: Hashing, mem: Memory, v: Layout): bv64
    requires WellFormed(v)
  {
    if CheapHashComplete(v) then h.combine(h.word(v.len, v.first4), h.chars(v.last8.w)) else h.data(Str(mem, v))
  }

  /** Equal strings take the same path and get the same hash, wherever they are. */
  lemma EqualStringsHashEqually(h: Hashing, mem: Memory, p: nat, q: nat, n: nat)
    requires n < MAX_LEN && Bytes(mem, p, n) == Bytes(mem, q, n)
    ensures var a, b := Represent(Bytes(mem, p, n), p), Represent(Bytes(mem, q, n), q);
            WellFormed(a) && WellFormed(b) && CheapHashComplete(a) == CheapHashComplete(b) &&
            EmittedHash(h, mem, a) == EmittedHash(h, mem, b)
  {
    StrOfRepresent(mem, mem, p, n);
    StrOfRepresent(mem, mem, q, n);
  }

  /** No part of a string is left out: hash functions exist that tell two given different strings apart. */
  lemma DifferentStringsCanDiffer(mem: Memory, p: nat, n: nat, q: nat, m: nat) returns (h: Hashing)
    requires n < MAX_LEN && m < MAX_LEN && Bytes(mem, p, n) != Bytes(mem, q, m)
    ensures var a, b := Represent(Bytes(mem, p, n), p), Represent(Bytes(mem, q, m), q);
            WellFormed(a) && WellFormed(b) && EmittedHash(h, mem, a) != EmittedHash(h, mem, b)
  {
    StrOfRepresent(mem, mem, p, n);
    StrOfRepresent(mem, mem, q, m);
    h := Recognizer(mem, Represent(Bytes(mem, p, n), p));
  }

  /** Hash functions that give 3 for the parts of v and less for everything else. */
  ghost function Recognizer(mem: Memory, v: Layout): Hashing
    requires WellFormed(v)
  {
    Hashing((l: nat, f: bv32) => if v.last8.Chars? && l == v.len && f == v.first4 then 1 else 0,
            (w: bv64) => if v.last8 == Chars(w) then 2 else 0,
            (x: bv64, y: bv64) => if x == 1 && y == 2 then 3 else 0,
            (s: seq<Byte>) => if v.last8.Address? && s == Str(mem, v) then 3 else 0)
  }
}
