/** MD5: the standard's block transformation and padding, and the code's unrolled rounds. */
module Md5Blocks {
  import opened ByteStreams
  import opened XxhWords

  datatype Regs = Regs(a: bv32, b: bv32, c: bv32, d: bv32)

  // ---- RFC 1321, section 3.4 ------------------------------------------------------------------

  function RfcF(x: bv32, y: bv32, z: bv32): bv32 { (x & y) | (!x & z) }

  function RfcG(x: bv32, y: bv32, z: bv32): bv32 { (x & z) | (y & !z) }

  function RfcH(x: bv32, y: bv32, z: bv32): bv32 { x ^ y ^ z }

  function RfcI(x: bv32, y: bv32, z: bv32): bv32 { y ^ (x | !z) }

  /** The function of step i. */
  function RfcFunction(i: nat, x: bv32, y: bv32, z: bv32): bv32 {
    if i < 16 then RfcF(x, y, z) else if i < 32 then RfcG(x, y, z) else if i < 48 then RfcH(x, y, z) else RfcI(x, y, z)
  }

  /** The word of the block that step i reads. */
  function RfcWord(i: nat): (k: nat)
    ensures k < 16
  {
    if i < 16 then i % 16 else if i < 32 then (1 + 5 * i) % 16 else if i < 48 then (5 + 3 * i) % 16 else (7 * i) % 16
  }

  /** The rotation of step i. */
  function RfcShift(i: nat): (s: nat)
    ensures 0 < s < 32
  {
    if i < 16 then [7, 12, 17, 22][i % 4] else if i < 32 then [5, 9, 14, 20][i % 4]
    else if i < 48 then [4, 11, 16, 23][i % 4] else [6, 10, 15, 21][i % 4]
  }

  /** The functions and the arithmetic of a step. */
  datatype Standard = Standard(
    func: (nat, bv32, bv32, bv32) -> bv32,
    plus: (bv32, bv32) -> bv32,
    rotl: (bv32, nat) -> bv32)

  function Rfc1321(): Standard {
    Standard((i: nat, x: bv32, y: bv32, z: bv32) => RfcFunction(i, x, y, z),
             (x: bv32, y: bv32) => x + y,
             (x: bv32, s: nat) => if 0 < s < 32 then Rotl32(x, s) else x)
  }

  /** b + ((a + (f + x + t)) <<< s) */
  function RfcShape(std: Standard, a: bv32, b: bv32, f: bv32, x: bv32, t: bv32, s: nat): bv32 {
    std.plus(b, std.rotl(std.plus(a, std.plus(std.plus(f, x), t)), s))
  }

  /** One step: a = b + ((a + F(b, c, d) + X[k] + T[i]) <<< s), and the registers move on by one. */
  function RfcStep(std: Standard, r: Regs, i: nat, x: seq<bv32>, t: bv32): Regs
    requires |x| == 16
  {
    Regs(r.d, RfcShape(std, r.a, r.b, std.func(i, r.b, r.c, r.d), x[RfcWord(i)], t, RfcShift(i)), r.b, r.c)
  }

  /** Steps i to n - 1. */
  function RfcSteps(std: Standard, r: Regs, i: nat, n: nat, x: seq<bv32>): Regs
    requires |x| == 16 && i <= n <= 64
    decreases n - i
  {
    if i == n then r else RfcSteps(std, RfcStep(std, r, i, x, Constants()[i]), i + 1, n, x)
  }

  function Words(block: seq<Byte>): (x: seq<bv32>)
    requires |block| == 64
    ensures |x| == 16
  {
    seq(16, i requires 0 <= i < 16 => ReadLE32(block, 4 * i))
  }

  function AddRegs(r: Regs, s: Regs): Regs {
    Regs(r.a + s.a, r.b + s.b, r.c + s.c, r.d + s.d)
  }

  /** The transformation of one block. */
  function Transform(r: Regs, block: seq<Byte>): Regs {
    if |block| != 64 then r else AddRegs(RfcSteps(Rfc1321(), r, 0, 64, Words(block)), r)
  }

  /** The standard's table T: the whole part of 4294967296 times the absolute value of the sine of 1 to 64, a round
      of 16 steps at a time. */
  function Table1(): (t: seq<bv32>)
    ensures |t| == 16
  {
    [0xd76aa478, 0xe8c7b756, 0x242070db, 0xc1bdceee, 0xf57c0faf, 0x4787c62a, 0xa8304613, 0xfd469501,
     0x698098d8, 0x8b44f7af, 0xffff5bb1, 0x895cd7be, 0x6b901122, 0xfd987193, 0xa679438e, 0x49b40821]
  }

  function Table2(): (t: seq<bv32>)
    ensures |t| == 16
  {
    [0xf61e2562, 0xc040b340, 0x265e5a51, 0xe9b6c7aa, 0xd62f105d, 0x02441453, 0xd8a1e681, 0xe7d3fbc8,
     0x21e1cde6, 0xc33707d6, 0xf4d50d87, 0x455a14ed, 0xa9e3e905, 0xfcefa3f8, 0x676f02d9, 0x8d2a4c8a]
  }

  function Table3(): (t: seq<bv32>)
    ensures |t| == 16
  {
    [0xfffa3942, 0x8771f681, 0x6d9d6122, 0xfde5380c, 0xa4beea44, 0x4bdecfa9, 0xf6bb4b60, 0xbebfbc70,
     0x289b7ec6, 0xeaa127fa, 0xd4ef3085, 0x04881d05, 0xd9d4d039, 0xe6db99e5, 0x1fa27cf8, 0xc4ac5665]
  }

  function Table4(): (t: seq<bv32>)
    ensures |t| == 16
  {
    [0xf4292244, 0x432aff97, 0xab9423a7, 0xfc93a039, 0x655b59c3, 0x8f0ccc92, 0xffeff47d, 0x85845dd1,
     0x6fa87e4f, 0xfe2ce6e0, 0xa3014314, 0x4e0811a1, 0xf7537e82, 0xbd3af235, 0x2ad7d2bb, 0xeb86d391]
  }

  function Constants(): (t: seq<bv32>)
    ensures |t| == 64
  {
    Table1() + Table2() + Table3() + Table4()
  }

  // ---- The code's steps -----------------------------------------------------------------------

  datatype Fn = FnF | FnG | FnH | FnH2 | FnI

  /** A STEP: its function, the word read, the constant and the rotation. */
  datatype Step = Step(f: Fn, k: nat, t: bv32, s: nat)

  function CodeFunction(f: Fn, x: bv32, y: bv32, z: bv32): bv32 {
    match f
    case FnF => z ^ (x & (y ^ z))
    case FnG => y ^ (z & (x ^ y))
    case FnH => (x ^ y) ^ z
    case FnH2 => x ^ (y ^ z)
    case FnI => y ^ (x | !z)
  }

  function Round1(): (r: seq<Step>)
    ensures |r| == 16
  {
    [Step(FnF, 0, 0xd76aa478, 7), Step(FnF, 1, 0xe8c7b756, 12), Step(FnF, 2, 0x242070db, 17), Step(FnF, 3, 0xc1bdceee, 22),
     Step(FnF, 4, 0xf57c0faf, 7), Step(FnF, 5, 0x4787c62a, 12), Step(FnF, 6, 0xa8304613, 17), Step(FnF, 7, 0xfd469501, 22),
     Step(FnF, 8, 0x698098d8, 7), Step(FnF, 9, 0x8b44f7af, 12), Step(FnF, 10, 0xffff5bb1, 17), Step(FnF, 11, 0x895cd7be, 22),
     Step(FnF, 12, 0x6b901122, 7), Step(FnF, 13, 0xfd987193, 12), Step(FnF, 14, 0xa679438e, 17), Step(FnF, 15, 0x49b40821, 22)]
  }

  function Round2(): (r: seq<Step>)
    ensures |r| == 16
  {
    [Step(FnG, 1, 0xf61e2562, 5), Step(FnG, 6, 0xc040b340, 9), Step(FnG, 11, 0x265e5a51, 14), Step(FnG, 0, 0xe9b6c7aa, 20),
     Step(FnG, 5, 0xd62f105d, 5), Step(FnG, 10, 0x02441453, 9), Step(FnG, 15, 0xd8a1e681, 14), Step(FnG, 4, 0xe7d3fbc8, 20),
     Step(FnG, 9, 0x21e1cde6, 5), Step(FnG, 14, 0xc33707d6, 9), Step(FnG, 3, 0xf4d50d87, 14), Step(FnG, 8, 0x455a14ed, 20),
     Step(FnG, 13, 0xa9e3e905, 5), Step(FnG, 2, 0xfcefa3f8, 9), Step(FnG, 7, 0x676f02d9, 14), Step(FnG, 12, 0x8d2a4c8a, 20)]
  }

  function Round3(): (r: seq<Step>)
    ensures |r| == 16
  {
    [Step(FnH, 5, 0xfffa3942, 4), Step(FnH2, 8, 0x8771f681, 11), Step(FnH, 11, 0x6d9d6122, 16), Step(FnH2, 14, 0xfde5380c, 23),
     Step(FnH, 1, 0xa4beea44, 4), Step(FnH2, 4, 0x4bdecfa9, 11), Step(FnH, 7, 0xf6bb4b60, 16), Step(FnH2, 10, 0xbebfbc70, 23),
     Step(FnH, 13, 0x289b7ec6, 4), Step(FnH2, 0, 0xeaa127fa, 11), Step(FnH, 3, 0xd4ef3085, 16), Step(FnH2, 6, 0x04881d05, 23),
     Step(FnH, 9, 0xd9d4d039, 4), Step(FnH2, 12, 0xe6db99e5, 11), Step(FnH, 15, 0x1fa27cf8, 16), Step(FnH2, 2, 0xc4ac5665, 23)]
  }

  function Round4(): (r: seq<Step>)
    ensures |r| == 16
  {
    [Step(FnI, 0, 0xf4292244, 6), Step(FnI, 7, 0x432aff97, 10), Step(FnI, 14, 0xab9423a7, 15), Step(FnI, 5, 0xfc93a039, 21),
     Step(FnI, 12, 0x655b59c3, 6), Step(FnI, 3, 0x8f0ccc92, 10), Step(FnI, 10, 0xffeff47d, 15), Step(FnI, 1, 0x85845dd1, 21),
     Step(FnI, 8, 0x6fa87e4f, 6), Step(FnI, 15, 0xfe2ce6e0, 10), Step(FnI, 6, 0xa3014314, 15), Step(FnI, 13, 0x4e0811a1, 21),
     Step(FnI, 4, 0xf7537e82, 6), Step(FnI, 11, 0xbd3af235, 10), Step(FnI, 2, 0x2ad7d2bb, 15), Step(FnI, 9, 0xeb86d391, 21)]
  }

  function CodeSteps(): (r: seq<Step>)
    ensures |r| == 64
  {
    Round1() + Round2() + Round3() + Round4()
  }

  function Rotate(x: bv32, s: nat): bv32
    requires 0 < s < 32
  {
    (x << s) | ((x & 0xffffffff) >> (32 - s))
  }

  datatype Macros = Macros(
    func: (Fn, bv32, bv32, bv32) -> bv32,
    plus: (bv32, bv32) -> bv32,
    rotate: (bv32, nat) -> bv32)

  function Written(): Macros {
    Macros((f: Fn, x: bv32, y: bv32, z: bv32) => CodeFunction(f, x, y, z),
           (x: bv32, y: bv32) => x + y,
           (x: bv32, s: nat) => if 0 < s < 32 then Rotate(x, s) else x)
  }

  /** What STEP leaves in its first register. */
  function CodeShape(m: Macros, a: bv32, b: bv32, f: bv32, x: bv32, t: bv32, s: nat): bv32 {
    m.plus(m.rotate(m.plus(a, m.plus(m.plus(f, x), t)), s), b)
  }

  function Stepped(m: Macros, st: Step, a: bv32, b: bv32, c: bv32, d: bv32, x: seq<bv32>): bv32
    requires st.k < |x|
  {
    CodeShape(m, a, b, m.func(st.f, b, c, d), x[st.k], st.t, st.s)
  }

  /** Four consecutive steps, which assign a, d, c and b in turn. */
  function Quad(m: Macros, r: Regs, s0: Step, s1: Step, s2: Step, s3: Step, x: seq<bv32>): Regs
    requires |x| == 16 && s0.k < 16 && s1.k < 16 && s2.k < 16 && s3.k < 16
  {
    var a := Stepped(m, s0, r.a, r.b, r.c, r.d, x);
    var d := Stepped(m, s1, r.d, a, r.b, r.c, x);
    var c := Stepped(m, s2, r.c, d, a, r.b, x);
    var b := Stepped(m, s3, r.b, c, d, a, x);
    Regs(a, b, c, d)
  }

  // ---- The code's steps are the standard's ------------------------------------------------------

  /** The rewritten F computes the standard's. */
  lemma FAgrees(x: bv32, y: bv32, z: bv32)
    ensures z ^ (x & (y ^ z)) == (x & y) | (!x & z)
  {
  }

  lemma GAgrees(x: bv32, y: bv32, z: bv32)
    ensures y ^ (z & (x ^ y)) == (x & z) | (y & !z)
  {
  }

  lemma HAgrees(x: bv32, y: bv32, z: bv32)
    ensures x ^ (y ^ z) == x ^ y ^ z
  {
  }

  ghost predicate RightFunction(i: nat, f: Fn) {
    if i < 16 then f == FnF else if i < 32 then f == FnG else if i < 48 then f == FnH || f == FnH2 else f == FnI
  }

  /** The step has the function, word and rotation that the standard prescribes for number i. */
  ghost predicate RightStep(i: nat, st: Step) {
    RightFunction(i, st.f) && st.k == RfcWord(i) && st.s == RfcShift(i)
  }

  lemma Round1IsRight(i: nat)
    requires i < 16
    ensures RightStep(0 + i, Round1()[i]) && Round1()[i].t == Table1()[i]
  {
  }

  lemma Round2IsRight(i: nat)
    requires i < 16
    ensures RightStep(16 + i, Round2()[i]) && Round2()[i].t == Table2()[i]
  {
  }

  lemma Round3IsRight(i: nat)
    requires i < 16
    ensures RightStep(32 + i, Round3()[i]) && Round3()[i].t == Table3()[i]
  {
  }

  lemma Round4IsRight(i: nat)
    requires i < 16
    ensures RightStep(48 + i, Round4()[i]) && Round4()[i].t == Table4()[i]
  {
  }

  lemma StepsAreRight(i: nat)
    requires i < 64
    ensures RightStep(i, CodeSteps()[i]) && Constants()[i] == CodeSteps()[i].t
  {
    if i < 16 {
      Round1IsRight(i);
    } else if i < 32 {
      Round2IsRight(i - 16);
    } else if i < 48 {
      Round3IsRight(i - 32);
    } else {
      Round4IsRight(i - 48);
    }
  }

  lemma FIsRight(i: nat, x: bv32, y: bv32, z: bv32)
    requires i < 16
    ensures CodeFunction(FnF, x, y, z) == RfcFunction(i, x, y, z)
  {
    FAgrees(x, y, z);
  }

  lemma GIsRight(i: nat, x: bv32, y: bv32, z: bv32)
    requires 16 <= i < 32
    ensures CodeFunction(FnG, x, y, z) == RfcFunction(i, x, y, z)
  {
    GAgrees(x, y, z);
  }

  lemma HIsRight(i: nat, x: bv32, y: bv32, z: bv32)
    requires 32 <= i < 48
    ensures CodeFunction(FnH, x, y, z) == RfcFunction(i, x, y, z)
  {
  }

  lemma H2IsRight(i: nat, x: bv32, y: bv32, z: bv32)
    requires 32 <= i < 48
    ensures CodeFunction(FnH2, x, y, z) == RfcFunction(i, x, y, z)
  {
    HAgrees(x, y, z);
  }

  lemma IIsRight(i: nat, x: bv32, y: bv32, z: bv32)
    requires 48 <= i
    ensures CodeFunction(FnI, x, y, z) == RfcFunction(i, x, y, z)
  {
  }

  lemma PlusCommutes(x: bv32, y: bv32)
    ensures x + y == y + x
  {
  }

  lemma SameRotation(x: bv32, s: nat)
    requires 0 < s < 32
    ensures Rotate(x, s) == Rotl32(x, s)
  {
    assert x & 0xffffffff == x;
  }

  ghost predicate SameFunction(m: Macros, std: Standard, f: Fn, i: nat, x: bv32, y: bv32, z: bv32) {
    RightFunction(i, f) ==> m.func(f, x, y, z) == std.func(i, x, y, z)
  }

  ghost predicate SameRotated(m: Macros, std: Standard, x: bv32, s: nat) {
    m.rotate(x, s) == std.rotl(x, s)
  }

  ghost predicate SamePlus(m: Macros, std: Standard, x: bv32, y: bv32) {
    m.plus(x, y) == std.plus(x, y)
  }

  ghost predicate Commutes(std: Standard, x: bv32, y: bv32) {
    std.plus(x, y) == std.plus(y, x)
  }

  /** Functions and arithmetic have the same results wherever the function is the right one. */
  ghost predicate Agree(m: Macros, std: Standard) {
    && (forall f: Fn, i: nat, x: bv32, y: bv32, z: bv32 :: SameFunction(m, std, f, i, x, y, z))
    && (forall x: bv32, s: nat :: SameRotated(m, std, x, s))
    && (forall x: bv32, y: bv32 :: SamePlus(m, std, x, y))
    && (forall x: bv32, y: bv32 :: Commutes(std, x, y))
  }

  lemma WrittenFunction(f: Fn, i: nat, x: bv32, y: bv32, z: bv32)
    ensures SameFunction(Written(), Rfc1321(), f, i, x, y, z)
  {
    if RightFunction(i, f) {
      match f
      case FnF => FIsRight(i, x, y, z);
      case FnG => GIsRight(i, x, y, z);
      case FnH => HIsRight(i, x, y, z);
      case FnH2 => H2IsRight(i, x, y, z);
      case FnI => IIsRight(i, x, y, z);
    }
  }

  lemma WrittenRotation(x: bv32, s: nat)
    ensures SameRotated(Written(), Rfc1321(), x, s)
  {
    if 0 < s < 32 { SameRotation(x, s); }
  }

  lemma StandardCommutes(x: bv32, y: bv32)
    ensures Commutes(Rfc1321(), x, y)
  {
    PlusCommutes(x, y);
  }

  /** The code's macros are the standard's steps. */
  lemma CodeAgrees()
    ensures Agree(Written(), Rfc1321())
  {
    forall f: Fn, i: nat, x: bv32, y: bv32, z: bv32 ensures SameFunction(Written(), Rfc1321(), f, i, x, y, z) {
      WrittenFunction(f, i, x, y, z);
    }
    forall x: bv32, s: nat ensures SameRotated(Written(), Rfc1321(), x, s) {
      WrittenRotation(x, s);
    }
    forall x: bv32, y: bv32 ensures Commutes(Rfc1321(), x, y) {
      StandardCommutes(x, y);
    }
  }

  lemma ShapesAgree(m: Macros, std: Standard, a: bv32, b: bv32, f: bv32, x: bv32, t: bv32, s: nat)
    requires Agree(m, std)
    ensures CodeShape(m, a, b, f, x, t, s) == RfcShape(std, a, b, f, x, t, s)
  {
    var fx := std.plus(f, x);
    var w := std.plus(a, std.plus(fx, t));
    assert SamePlus(m, std, f, x) && SamePlus(m, std, fx, t) && SamePlus(m, std, a, std.plus(fx, t));
    assert SameRotated(m, std, w, s) && SamePlus(m, std, std.rotl(w, s), b) && Commutes(std, std.rotl(w, s), b);
  }

  /** One STEP is one step of the standard. */
  lemma StepIsRfc(m: Macros, std: Standard, r: Regs, i: nat, st: Step, x: seq<bv32>)
    requires Agree(m, std) && |x| == 16 && RightStep(i, st)
    ensures st.k < 16
    ensures RfcStep(std, r, i, x, st.t) == Regs(r.d, Stepped(m, st, r.a, r.b, r.c, r.d, x), r.b, r.c)
  {
    assert SameFunction(m, std, st.f, i, r.b, r.c, r.d);
    ShapesAgree(m, std, r.a, r.b, m.func(st.f, r.b, r.c, r.d), x[st.k], st.t, st.s);
  }

  lemma RfcUnfold(std: Standard, r: Regs, i: nat, n: nat, x: seq<bv32>, t: bv32)
    requires |x| == 16 && i < n <= 64 && t == Constants()[i]
    ensures RfcSteps(std, r, i, n, x) == RfcSteps(std, RfcStep(std, r, i, x, t), i + 1, n, x)
  {
  }

  /** Four steps of the standard bring every register back to its place. */
  lemma QuadIsRfc(m: Macros, std: Standard, r: Regs, i: nat, n: nat, x: seq<bv32>, s0: Step, s1: Step, s2: Step, s3: Step)
    requires Agree(m, std) && |x| == 16 && i + 4 <= n <= 64
    requires s0 == CodeSteps()[i] && s1 == CodeSteps()[i + 1] && s2 == CodeSteps()[i + 2] && s3 == CodeSteps()[i + 3]
    ensures s0.k < 16 && s1.k < 16 && s2.k < 16 && s3.k < 16
    ensures RfcSteps(std, r, i, n, x) == RfcSteps(std, Quad(m, r, s0, s1, s2, s3, x), i + 4, n, x)
  {
    StepsAreRight(i);
    StepsAreRight(i + 1);
    StepsAreRight(i + 2);
    StepsAreRight(i + 3);
    var a := Stepped(m, s0, r.a, r.b, r.c, r.d, x);
    var d := Stepped(m, s1, r.d, a, r.b, r.c, x);
    var c := Stepped(m, s2, r.c, d, a, r.b, x);
    var b := Stepped(m, s3, r.b, c, d, a, x);
    StepIsRfc(m, std, r, i, s0, x);
    RfcUnfold(std, r, i, n, x, s0.t);
    StepIsRfc(m, std, Regs(r.d, a, r.b, r.c), i + 1, s1, x);
    RfcUnfold(std, Regs(r.d, a, r.b, r.c), i + 1, n, x, s1.t);
    StepIsRfc(m, std, Regs(r.c, d, a, r.b), i + 2, s2, x);
    RfcUnfold(std, Regs(r.c, d, a, r.b), i + 2, n, x, s2.t);
    StepIsRfc(m, std, Regs(r.b, c, d, a), i + 3, s3, x);
    RfcUnfold(std, Regs(r.b, c, d, a), i + 3, n, x, s3.t);
    assert Quad(m, r, s0, s1, s2, s3, x) == Regs(a, b, c, d);
  }

  /** Steps 4 * q to 4 * q + 3 as the code has them. */
  function QuadAt(m: Macros, r: Regs, q: nat, x: seq<bv32>): Regs
    requires |x| == 16 && q < 16
  {
    StepsAreRight(4 * q);
    StepsAreRight(4 * q + 1);
    StepsAreRight(4 * q + 2);
    StepsAreRight(4 * q + 3);
    Quad(m, r, CodeSteps()[4 * q], CodeSteps()[4 * q + 1], CodeSteps()[4 * q + 2], CodeSteps()[4 * q + 3], x)
  }

  lemma QuadAtIsRfc(m: Macros, std: Standard, r: Regs, q: nat, x: seq<bv32>)
    requires Agree(m, std) && |x| == 16 && q < 16
    ensures RfcSteps(std, r, 4 * q, 64, x) == RfcSteps(std, QuadAt(m, r, q, x), 4 * q + 4, 64, x)
  {
    QuadIsRfc(m, std, r, 4 * q, 64, x, CodeSteps()[4 * q], CodeSteps()[4 * q + 1], CodeSteps()[4 * q + 2], CodeSteps()[4 * q + 3]);
  }

  /** The 64 steps. */
  method Steps(m: Macros, ghost std: Standard, r: Regs, x: seq<bv32>) returns (r1: Regs)
    requires Agree(m, std) && |x| == 16
    ensures r1 == RfcSteps(std, r, 0, 64, x)
  {
    r1 := r;
    var q := 0;
    while q < 16
      invariant 0 <= q <= 16
      invariant RfcSteps(std, r1, 4 * q, 64, x) == RfcSteps(std, r, 0, 64, x)
    {
      QuadAtIsRfc(m, std, r1, q, x);
      r1 := QuadAt(m, r1, q, x);
      q := q + 1;
    }
  }

  /** body, for one block: all 64 steps, then the saved registers are added. */
  method Block(r: Regs, block: seq<Byte>) returns (r1: Regs)
    requires |block| == 64
    ensures r1 == Transform(r, block)
  {
    CodeAgrees();
    var x := Words(block);
    r1 := Steps(Written(), Rfc1321(), r, x);
    r1 := AddRegs(r1, r);
  }
}
