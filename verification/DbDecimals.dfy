/** Decimal result types, and which exact results fit into them. */
module DecimalTypes {
  /** Up to p decimal digits, s of them after the point. */
  datatype Decimal = Decimal(p: int, s: int)

  predicate Valid(d: Decimal) {
    0 <= d.s <= d.p <= 38
  }

  function Min(a: int, b: int): int { if a < b then a else b }

  function Max(a: int, b: int): int { if a < b then b else a }

  function IntegerDigits(d: Decimal): int {
    d.p - d.s
  }

  /** getAdaptedDecimalTypeAfterMulDiv */
  function Adapted(precision: int, scale: int): Decimal {
    var beforeComma := precision - scale;
    if beforeComma > 32 && scale > 6 then Decimal(38, 6)
    else if beforeComma > 32 && scale <= 6 then Decimal(38, scale)
    else Decimal(Min(precision, 38), Min(scale, 38 - beforeComma))
  }

  /** inferReturnType, for sums and differences */
  function AddType(a: Decimal, b: Decimal): Decimal {
    var hidig, maxs := Max(IntegerDigits(a), IntegerDigits(b)), Max(a.s, b.s);
    Decimal(hidig + maxs, maxs)
  }

  function MulType(a: Decimal, b: Decimal): Decimal {
    Adapted(a.p + b.p, a.s + b.s)
  }

  function DivType(a: Decimal, b: Decimal): Decimal {
    Adapted(a.p - a.s + b.s + Max(6, a.s + b.p), Max(6, a.s + b.p))
  }

  function RemType(a: Decimal, b: Decimal): Decimal {
    Decimal(Min(IntegerDigits(a), IntegerDigits(b)) + Max(a.s, b.s), Max(a.s, b.s))
  }

  // ---- Bounds on the types ----------------------------------------------------------------------

  /** Products and quotients have a valid type with at least min(scale, 6) fraction digits, and all
      integer digits when there are at most 32 of them. */
  lemma AdaptedIsValid(precision: int, scale: int)
    requires 0 <= scale <= precision
    ensures Valid(Adapted(precision, scale))
    ensures Min(scale, 6) <= Adapted(precision, scale).s <= scale
    ensures IntegerDigits(Adapted(precision, scale)) >= Min(precision - scale, 32)
    ensures precision - scale <= 32 ==> IntegerDigits(Adapted(precision, scale)) == precision - scale
    ensures precision <= 38 && precision - scale <= 32 ==> Adapted(precision, scale) == Decimal(precision, scale)
  {
  }

  /** The remainder always has a valid type; the sum only while its digits fit. */
  lemma SumAndRemainderTypes(a: Decimal, b: Decimal)
    requires Valid(a) && Valid(b)
    ensures Valid(RemType(a, b))
    ensures Valid(AddType(a, b)) <==> Max(IntegerDigits(a), IntegerDigits(b)) + Max(a.s, b.s) <= 38
  {
  }

  /** Two valid operands whose sum has no valid type. */
  lemma SumTypeCanBeTooWide()
    ensures Valid(Decimal(38, 0)) && Valid(Decimal(38, 38)) && AddType(Decimal(38, 0), Decimal(38, 38)).p == 76
  {
  }

  // ---- Powers of ten ------------------------------------------------------------------------------

  function Pow10(n: nat): (r: int)
    ensures r >= 1
  {
    if n == 0 then 1 else 10 * Pow10(n - 1)
  }

  lemma {:induction false} PowAdd(m: nat, n: nat)
    ensures Pow10(m + n) == Pow10(m) * Pow10(n)
  {
    if m > 0 {
      PowAdd(m - 1, n);
      assert Pow10(m + n) == 10 * Pow10(m - 1 + n);
    }
  }

  lemma {:induction false} PowMonotone(m: nat, n: nat)
    requires m <= n
    ensures Pow10(m) <= Pow10(n)
    ensures m < n ==> 10 * Pow10(m) <= Pow10(n)
  {
    if m < n {
      PowMonotone(m, n - 1);
    }
  }

  /** x has at most n digits. */
  ghost predicate Fits(x: int, n: int) {
    0 <= n && -Pow10(n) < x < Pow10(n)
  }

  /** Appends k zeros. */
  function Shift(x: int, k: nat): int {
    if k == 0 then x else 10 * Shift(x, k - 1)
  }

  lemma {:induction false} ShiftIsProduct(x: int, k: nat)
    ensures Shift(x, k) == x * Pow10(k)
  {
    if k > 0 {
      ShiftIsProduct(x, k - 1);
      TenTimes(x, Pow10(k - 1));
    }
  }

  lemma TenTimes(x: int, q: int)
    ensures x * (10 * q) == 10 * (x * q)
  {
  }

  lemma {:induction false} ShiftFits(x: int, n: nat, k: nat)
    requires Fits(x, n)
    ensures Fits(Shift(x, k), n + k)
  {
    if k > 0 { ShiftFits(x, n, k - 1); }
  }

  lemma {:induction false} ShiftMonotone(x: int, y: int, k: nat)
    requires x <= y
    ensures Shift(x, k) <= Shift(y, k)
  {
    if k > 0 { ShiftMonotone(x, y, k - 1); }
  }

  lemma {:induction false} ShiftNegative(x: int, k: nat)
    ensures Shift(-x, k) == -Shift(x, k)
  {
    if k > 0 { ShiftNegative(x, k - 1); }
  }

  lemma {:induction false} ShiftNonZero(x: int, k: nat)
    requires x != 0
    ensures Shift(x, k) != 0
  {
    if k > 0 { ShiftNonZero(x, k - 1); }
  }

  lemma {:induction false} ShiftLargest(n: nat, k: nat)
    ensures Shift(Pow10(n) - 1, k) == Pow10(n + k) - Pow10(k)
  {
    if k > 0 { ShiftLargest(n, k - 1); }
  }

  // ---- Sums -----------------------------------------------------------------------------------------

  /** The digits of a value of type d when written with scale s. */
  function Rescale(x: int, d: Decimal, s: int): int
    requires d.s <= s
  {
    Shift(x, s - d.s)
  }

  lemma RescaleFits(x: int, d: Decimal, s: int, p: int)
    requires Valid(d) && d.s <= s && Fits(x, d.p) && IntegerDigits(d) + s <= p
    ensures Fits(Rescale(x, d, s), p)
  {
    ShiftFits(x, d.p, s - d.s);
    MoreDigitsFit(Rescale(x, d, s), d.p + (s - d.s), p);
  }

  lemma MoreDigitsFit(x: int, n: nat, p: nat)
    requires Fits(x, n) && n <= p
    ensures Fits(x, p)
  {
    PowMonotone(n, p);
  }

  /** Every sum is below twice what the result type can hold. */
  lemma SumBound(a: Decimal, b: Decimal, x: int, y: int)
    requires Valid(a) && Valid(b) && Fits(x, a.p) && Fits(y, b.p)
    ensures var t := AddType(a, b);
            -2 * Pow10(t.p) < Rescale(x, a, t.s) + Rescale(y, b, t.s) < 2 * Pow10(t.p)
  {
    var t := AddType(a, b);
    RescaleFits(x, a, t.s, t.p);
    RescaleFits(y, b, t.s, t.p);
  }

  function Sum(a: Decimal, b: Decimal, x: int, y: int): int
    requires Valid(a) && Valid(b)
  {
    Rescale(x, a, AddType(a, b).s) + Rescale(y, b, AddType(a, b).s)
  }

  ghost predicate AllSumsFit(a: Decimal, b: Decimal)
    requires Valid(a) && Valid(b)
  {
    forall x, y :: Fits(x, a.p) && Fits(y, b.p) ==> Fits(Sum(a, b, x, y), AddType(a, b).p)
  }

  function Largest(d: Decimal): int
    requires Valid(d)
  {
    Pow10(d.p) - 1
  }

  lemma RescaleMonotone(x: int, y: int, d: Decimal, s: int)
    requires d.s <= s && x <= y
    ensures Rescale(x, d, s) <= Rescale(y, d, s)
  {
    ShiftMonotone(x, y, s - d.s);
  }

  lemma MulLessEq(x: int, y: int, q: int)
    requires x <= y && q >= 1
    ensures x * q <= y * q
  {
  }

  lemma RescaleNegative(x: int, d: Decimal, s: int)
    requires d.s <= s
    ensures Rescale(-x, d, s) == -Rescale(x, d, s)
  {
    ShiftNegative(x, s - d.s);
  }

  lemma SumAtMostLargest(a: Decimal, b: Decimal, x: int, y: int)
    requires Valid(a) && Valid(b) && x <= Largest(a) && y <= Largest(b)
    ensures Sum(a, b, x, y) <= Sum(a, b, Largest(a), Largest(b))
  {
    RescaleMonotone(x, Largest(a), a, AddType(a, b).s);
    RescaleMonotone(y, Largest(b), b, AddType(a, b).s);
  }

  lemma SumNegative(a: Decimal, b: Decimal, x: int, y: int)
    requires Valid(a) && Valid(b)
    ensures Sum(a, b, -x, -y) == -Sum(a, b, x, y)
  {
    RescaleNegative(x, a, AddType(a, b).s);
    RescaleNegative(y, b, AddType(a, b).s);
  }

  lemma LargestFits(d: Decimal)
    requires Valid(d)
    ensures Fits(Largest(d), d.p)
    ensures forall x :: Fits(x, d.p) ==> x <= Largest(d) && -x <= Largest(d)
  {
  }

  /** All sums fit exactly when the largest does. */
  lemma AllFitWhenLargestFits(a: Decimal, b: Decimal)
    requires Valid(a) && Valid(b)
    ensures AllSumsFit(a, b) <==> Sum(a, b, Largest(a), Largest(b)) < Pow10(AddType(a, b).p)
  {
    LargestFits(a);
    LargestFits(b);
    if Sum(a, b, Largest(a), Largest(b)) < Pow10(AddType(a, b).p) {
      forall x, y | Fits(x, a.p) && Fits(y, b.p) ensures Fits(Sum(a, b, x, y), AddType(a, b).p) {
        SumAtMostLargest(a, b, x, y);
        SumAtMostLargest(a, b, -x, -y);
        SumNegative(a, b, x, y);
      }
    } else {
      assert !Fits(Sum(a, b, Largest(a), Largest(b)), AddType(a, b).p);
    }
  }

  /** The largest value of a type, at scale s. */
  lemma LargestValue(d: Decimal, s: int)
    requires Valid(d) && d.s <= s
    ensures Rescale(Largest(d), d, s) == Pow10(IntegerDigits(d) + s) - Pow10(s - d.s)
  {
    ShiftLargest(d.p, s - d.s);
    assert IntegerDigits(d) + s == d.p + (s - d.s);
  }

  lemma PowBelowTwo(n: nat, j: nat, k: nat)
    requires j <= n && k <= n
    ensures Pow10(n) < Pow10(j) + Pow10(k) <==> n == j || n == k
  {
    PowMonotone(j, n);
    PowMonotone(k, n);
  }

  /** x and y are largest values, written with powers of ten. */
  lemma LargestSumFits(x: int, top: nat, n: nat, j: nat, k: nat)
    requires x == Pow10(top) - Pow10(j) + (Pow10(n) - Pow10(k)) && j <= n && k <= n
    ensures x < Pow10(top) <==> n == j || n == k
  {
    PowBelowTwo(n, j, k);
  }

  lemma WiderFirst(hi: nat, lo: nat, j: nat, k: nat, s: nat, x: int)
    requires lo <= hi && j <= s && k <= s && (j == 0 || k == 0)
    requires x == Pow10(hi + s) - Pow10(j) + (Pow10(lo + s) - Pow10(k))
    ensures x < Pow10(hi + s) <==> lo == 0 && (j == s || k == s)
  {
    LargestSumFits(x, hi + s, lo + s, j, k);
  }

  /** The largest sum, when the first operand has at least as many integer digits. */
  lemma WiderSum(hi: nat, lo: nat, sa: nat, sb: nat, s: nat, x: int)
    requires lo <= hi && s == Max(sa, sb)
    requires x == Pow10(hi + s) - Pow10(s - sa) + (Pow10(lo + s) - Pow10(s - sb))
    ensures x < Pow10(hi + s) <==> lo == 0 && Min(sa, sb) == 0
  {
    WiderFirst(hi, lo, s - sa, s - sb, s, x);
  }

  /** Operands with ia and ib integer digits and scales sa and sb. */
  lemma LargestFitsAt(ia: nat, ib: nat, sa: nat, sb: nat, s: nat, p: nat, x: int, y: int)
    requires s == Max(sa, sb) && p == Max(ia, ib) + s
    requires x == Pow10(ia + s) - Pow10(s - sa) && y == Pow10(ib + s) - Pow10(s - sb)
    ensures x + y < Pow10(p) <==> Min(ia, ib) == 0 && Min(sa, sb) == 0
  {
    if ia >= ib {
      WiderSum(ia, ib, sa, sb, s, x + y);
    } else {
      WiderSum(ib, ia, sb, sa, s, y + x);
    }
  }

  lemma LargestSum(a: Decimal, b: Decimal, s: nat) returns (x: int, y: int)
    requires Valid(a) && Valid(b) && s == Max(a.s, b.s)
    ensures x == Pow10(IntegerDigits(a) + s) - Pow10(s - a.s) && y == Pow10(IntegerDigits(b) + s) - Pow10(s - b.s)
    ensures Sum(a, b, Largest(a), Largest(b)) == x + y
  {
    LargestValue(a, s);
    LargestValue(b, s);
    x, y := Rescale(Largest(a), a, s), Rescale(Largest(b), b, s);
  }

  /** The largest sum, and the bound of its type. */
  lemma LargestFitsIff(a: Decimal, b: Decimal) returns (total: int, bound: int)
    requires Valid(a) && Valid(b)
    ensures total == Sum(a, b, Largest(a), Largest(b)) && bound == Pow10(AddType(a, b).p)
    ensures total < bound <==> Min(IntegerDigits(a), IntegerDigits(b)) == 0 && Min(a.s, b.s) == 0
  {
    var ia, ib, s := IntegerDigits(a), IntegerDigits(b), Max(a.s, b.s);
    var x, y := LargestSum(a, b, s);
    total, bound := x + y, Pow10(AddType(a, b).p);
    LargestFitsAt(ia, ib, a.s, b.s, s, AddType(a, b).p, x, y);
  }

  /** Without the carry digit, no sum overflows exactly when one operand has no integer digits and one
      has no fraction digits. */
  lemma SumsFitIff(a: Decimal, b: Decimal)
    requires Valid(a) && Valid(b)
    ensures AllSumsFit(a, b) <==> Min(IntegerDigits(a), IntegerDigits(b)) == 0 && Min(a.s, b.s) == 0
  {
    AllFitWhenLargestFits(a, b);
    var total, bound := LargestFitsIff(a, b);
  }

  // ---- Products, quotients, remainders -----------------------------------------------------------------

  function Abs(x: int): nat { if x < 0 then -x else x }

  /** Truncating division, as the machine divides. */
  function Quot(x: int, y: int): int
    requires y != 0
  {
    var q := Abs(x) / Abs(y);
    if (x < 0) == (y < 0) then q else -q
  }

  function Rem(x: int, y: int): int
    requires y != 0
  {
    var r := Abs(x) % Abs(y);
    if x < 0 then -r else r
  }

  lemma QuotRem(x: int, y: int)
    requires y != 0
    ensures x == Quot(x, y) * y + Rem(x, y) && Abs(Rem(x, y)) < Abs(y)
  {
    var q, r := Abs(x) / Abs(y), Abs(x) % Abs(y);
    assert Abs(x) == q * Abs(y) + r;
    assert (-q) * y == -(q * y) && q * (-y) == -(q * y);
  }

  lemma ProductFits(x: int, m: nat, y: int, n: nat)
    requires Fits(x, m) && Fits(y, n)
    ensures Fits(x * y, m + n)
  {
    PowAdd(m, n);
    AbsProduct(x, y);
    BelowProduct(Abs(x), Pow10(m), Abs(y), Pow10(n));
  }

  lemma BelowProduct(x: nat, p: int, y: nat, q: int)
    requires x < p && y < q
    ensures x * y < p * q
  {
    MulMono(x, p - 1, y, q - 1);
    assert (p - 1) * (q - 1) == p * q - p - q + 1;
  }

  lemma AbsProduct(x: int, y: int)
    ensures Abs(x * y) == Abs(x) * Abs(y)
  {
  }

  lemma MulMono(a: nat, b: nat, c: nat, d: nat)
    requires a <= b && c <= d
    ensures a * c <= b * d
  {
    assert a * c <= b * c;
    assert b * c <= b * d;
  }

  lemma QuotientShrinks(x: int, y: int, n: nat)
    requires Fits(x, n) && y != 0
    ensures Fits(Quot(x, y), n)
  {
    DivShrinks(Abs(x), Abs(y));
  }

  lemma DivShrinks(x: nat, y: nat)
    requires y > 0
    ensures x / y <= x
  {
    if x / y > x { MulLessEq(x + 1, x / y, y); Bigger(x, y); }
  }

  lemma Bigger(x: nat, y: nat)
    requires y > 0
    ensures x < (x + 1) * y
  {
    MulLessEq(1, y, x + 1);
    assert (x + 1) * 1 == x + 1;
  }

  /** Dropping k digits. */
  lemma DroppedFits(x: int, n: nat, k: nat)
    requires Fits(x, n + k)
    ensures Fits(Quot(x, Pow10(k)), n)
  {
    PowAdd(n, k);
    QuotBelow(x, Pow10(n), Pow10(k));
  }

  lemma QuotBelow(x: int, p: int, q: int)
    requires -(p * q) < x < p * q && q >= 1 && p >= 1
    ensures -p < Quot(x, q) < p
  {
    DivBelow(Abs(x), p, q);
  }

  lemma DivBelow(x: nat, p: int, q: int)
    requires x < p * q && q >= 1 && p >= 1
    ensures x / q < p
  {
    var d := x / q;
    assert d * q <= x;
    if d >= p { MulLessEq(p, d, q); }
  }

  /** The fraction digits of a product that its type does not keep. */
  function DroppedDigits(a: Decimal, b: Decimal): int {
    a.s + b.s - MulType(a, b).s
  }

  /** Every product is exact when the precisions add up to at most 38 and at most 32 digits are before
      the point. */
  lemma ProductInType(a: Decimal, b: Decimal, x: int, y: int)
    requires Valid(a) && Valid(b) && Fits(x, a.p) && Fits(y, b.p)
    requires a.p + b.p <= 38
    ensures MulType(a, b).p >= a.p + b.p && Fits(x * y, MulType(a, b).p)
    ensures IntegerDigits(a) + IntegerDigits(b) <= 32 ==> DroppedDigits(a, b) == 0
  {
    ProductFits(x, a.p, y, b.p);
    PowMonotone(a.p + b.p, MulType(a, b).p);
  }

  lemma DroppedIsNat(a: Decimal, b: Decimal)
    requires Valid(a) && Valid(b)
    ensures DroppedDigits(a, b) >= 0
  {
    AdaptedIsValid(a.p + b.p, a.s + b.s);
  }

  /** Whatever the operands are, their product has no more digits than its type once the dropped digits are gone. */
  ghost predicate AllProductsFit(a: Decimal, b: Decimal)
    requires Valid(a) && Valid(b)
  {
    DroppedIsNat(a, b);
    forall x, y :: Fits(x, a.p) && Fits(y, b.p) ==> Fits(Quot(x * y, Pow10(DroppedDigits(a, b))), MulType(a, b).p)
  }

  /** The digits that are left of a product are as many as its type has, or few enough. */
  lemma DigitsLeft(a: Decimal, b: Decimal)
    requires Valid(a) && Valid(b)
    ensures a.p + b.p - DroppedDigits(a, b) <= MulType(a, b).p
            <==> IntegerDigits(a) + IntegerDigits(b) <= 32 || a.p + b.p <= 38
  {
  }

  lemma NarrowProductFits(a: Decimal, b: Decimal, x: int, y: int, k: nat, n: nat)
    requires Valid(a) && Valid(b) && Fits(x, a.p) && Fits(y, b.p) && a.p + b.p <= n + k
    ensures Fits(Quot(x * y, Pow10(k)), n)
  {
    ProductFits(x, a.p, y, b.p);
    PowMonotone(a.p + b.p, n + k);
    DroppedFits(x * y, n, k);
  }

  lemma NinesTimesNines(u: int, v: int)
    requires u >= 1 && v >= 1
    ensures (10 * u - 1) * (10 * v - 1) >= 10 * (u * v)
  {
    assert (10 * u - 1) * (10 * v - 1) == 100 * (u * v) - 10 * u - 10 * v + 1;
    assert u * v >= u && u * v >= v by { MulLessEq(1, v, u); MulLessEq(1, u, v); }
  }

  /** The product of the largest values has as many digits as both together. */
  lemma LargestProduct(m: nat, n: nat)
    requires m > 0 && n > 0
    ensures (Pow10(m) - 1) * (Pow10(n) - 1) >= Pow10(m + n - 1)
  {
    NinesTimesNines(Pow10(m - 1), Pow10(n - 1));
    PowAdd(m - 1, n - 1);
    assert Pow10(m + n - 1) == 10 * Pow10(m - 1 + (n - 1));
  }

  lemma DivAtLeast(x: nat, p: int, q: int)
    requires x >= p * q && p >= 1 && q >= 1
    ensures x / q >= p
  {
    var d := x / q;
    assert x < (d + 1) * q;
    if d + 1 <= p { MulLessEq(d + 1, p, q); }
  }

  lemma DroppedStillWide(x: nat, n: nat, k: nat)
    requires x >= Pow10(n + k)
    ensures !Fits(Quot(x, Pow10(k)), n)
  {
    PowAdd(n, k);
    DivAtLeast(x, Pow10(n), Pow10(k));
  }

  lemma WideProduct(a: Decimal, b: Decimal, k: nat, n: nat)
    requires Valid(a) && Valid(b) && a.p > 0 && b.p > 0 && a.p + b.p > n + k
    ensures !Fits(Quot(Largest(a) * Largest(b), Pow10(k)), n)
  {
    LargestProduct(a.p, b.p);
    PowMonotone(n + k, a.p + b.p - 1);
    DroppedStillWide(Largest(a) * Largest(b), n, k);
  }

  /** Products keep their leading digits exactly when at most 32 digits are before the point or the precisions add
      up to at most 38. */
  lemma ProductsFitIff(a: Decimal, b: Decimal)
    requires Valid(a) && Valid(b)
    ensures AllProductsFit(a, b) <==> IntegerDigits(a) + IntegerDigits(b) <= 32 || a.p + b.p <= 38
  {
    DroppedIsNat(a, b);
    DigitsLeft(a, b);
    var k, n := DroppedDigits(a, b), MulType(a, b).p;
    if a.p + b.p <= n + k {
      forall x, y | Fits(x, a.p) && Fits(y, b.p) ensures Fits(Quot(x * y, Pow10(k)), n) {
        NarrowProductFits(a, b, x, y, k, n);
      }
    } else {
      WideProductOverflows(a, b);
    }
  }

  /** Outside that condition the product of the largest values loses its leading digits. */
  lemma WideProductOverflows(a: Decimal, b: Decimal)
    requires Valid(a) && Valid(b)
    requires IntegerDigits(a) + IntegerDigits(b) > 32 && a.p + b.p > 38
    ensures Fits(Largest(a), a.p) && Fits(Largest(b), b.p) && DroppedDigits(a, b) >= 0
    ensures !Fits(Quot(Largest(a) * Largest(b), Pow10(DroppedDigits(a, b))), MulType(a, b).p)
  {
    DroppedIsNat(a, b);
    DigitsLeft(a, b);
    WideProduct(a, b, DroppedDigits(a, b), MulType(a, b).p);
  }

  /** Two amounts with two fraction digits: four fraction digits are kept, and 34 digits before the point. */
  lemma FractionProductOverflows()
    ensures var d := Decimal(38, 2);
            && MulType(d, d) == Decimal(38, 4) && DroppedDigits(d, d) == 0
            && Fits(Largest(d), 38) && !Fits(Quot(Largest(d) * Largest(d), 1), 38)
  {
    WideProductOverflows(Decimal(38, 2), Decimal(38, 2));
  }

  // ---- Quotients -----------------------------------------------------------------------------------------

  /** How many zeros the dividend gets so that the quotient has the scale of its type. */
  function QuotientZeros(a: Decimal, b: Decimal): int {
    DivType(a, b).s + b.s - a.s
  }

  lemma QuotientDigits(a: Decimal, b: Decimal)
    requires Valid(a) && Valid(b)
    ensures QuotientZeros(a, b) >= 0 && DivType(a, b).p >= 0
    ensures a.p + QuotientZeros(a, b) <= DivType(a, b).p <==> IntegerDigits(a) + b.s <= 32
  {
  }

  ghost predicate AllQuotientsFit(a: Decimal, b: Decimal)
    requires Valid(a) && Valid(b)
  {
    QuotientDigits(a, b);
    forall x, y :: Fits(x, a.p) && Fits(y, b.p) && y != 0 ==> Fits(Quot(Shift(x, QuotientZeros(a, b)), y), DivType(a, b).p)
  }

  lemma NarrowQuotientFits(x: int, p: nat, k: nat, y: int, n: nat)
    requires Fits(x, p) && y != 0 && p + k <= n
    ensures Fits(Quot(Shift(x, k), y), n)
  {
    ShiftFits(x, p, k);
    PowMonotone(p + k, n);
    QuotientShrinks(Shift(x, k), y, n);
  }

  lemma WideQuotient(p: nat, k: nat, n: nat)
    requires p > 0 && p + k > n
    ensures !Fits(Quot(Shift(Pow10(p) - 1, k), 1), n)
  {
    ShiftLargest(p, k);
    PowMonotone(k, p + k - 1);
    PowMonotone(p + k - 1, p + k);
    PowMonotone(n, p + k - 1);
    ByOne(Shift(Pow10(p) - 1, k));
  }

  lemma ByOne(x: int)
    ensures Quot(x, 1) == x
  {
  }

  lemma OneFits(n: nat)
    requires n > 0
    ensures Fits(1, n)
  {
    PowMonotone(1, n);
  }

  /** Every quotient, computed to the scale of its type, fits exactly when the dividend can only be zero, or there is
      no divisor, or at most 32 digits are before the point. */
  lemma QuotientsFitIff(a: Decimal, b: Decimal)
    requires Valid(a) && Valid(b)
    ensures AllQuotientsFit(a, b) <==> a.p == 0 || b.p == 0 || IntegerDigits(a) + b.s <= 32
  {
    QuotientDigits(a, b);
    var k, n := QuotientZeros(a, b), DivType(a, b).p;
    if a.p == 0 || b.p == 0 || a.p + k <= n {
      forall x, y | Fits(x, a.p) && Fits(y, b.p) && y != 0 ensures Fits(Quot(Shift(x, k), y), n) {
        if a.p + k <= n { NarrowQuotientFits(x, a.p, k, y, n); } else { ZeroQuotientFits(x, k, y, n); }
      }
    } else {
      WideQuotient(a.p, k, n);
      OneFits(b.p);
      assert Fits(Largest(a), a.p);
    }
  }

  lemma ZeroQuotientFits(x: int, k: nat, y: int, n: nat)
    requires x == 0 && y != 0
    ensures Fits(Quot(Shift(x, k), y), n)
  {
    ShiftIsProduct(x, k);
    QuotientShrinks(0, y, n);
  }

  // ---- Remainders ----------------------------------------------------------------------------------------

  /** Every remainder, at the larger scale, fits. */
  lemma RemainderInType(a: Decimal, b: Decimal, x: int, y: int)
    requires Valid(a) && Valid(b) && Fits(x, a.p) && Fits(y, b.p) && y != 0
    ensures var t := RemType(a, b);
            Rescale(y, b, t.s) != 0 && Fits(Rem(Rescale(x, a, t.s), Rescale(y, b, t.s)), t.p)
  {
    var t := RemType(a, b);
    var u, v := Rescale(x, a, t.s), Rescale(y, b, t.s);
    ShiftNonZero(y, t.s - b.s);
    ShiftFits(x, a.p, t.s - a.s);
    ShiftFits(y, b.p, t.s - b.s);
    QuotRem(u, v);
    RemBelow(u, v);
    if IntegerDigits(a) <= IntegerDigits(b) {
      SmallerFits(Rem(u, v), u, a.p + (t.s - a.s), t.p);
    } else {
      SmallerFits(Rem(u, v), v, b.p + (t.s - b.s), t.p);
    }
  }

  lemma SmallerFits(r: int, u: int, n: nat, p: int)
    requires Abs(r) <= Abs(u) && Fits(u, n) && p == n
    ensures Fits(r, p)
  {
  }

  lemma RemBelow(x: int, y: int)
    requires y != 0
    ensures Abs(Rem(x, y)) <= Abs(x)
  {
    var q, r := Abs(x) / Abs(y), Abs(x) % Abs(y);
    assert Abs(x) == q * Abs(y) + r;
    assert q * Abs(y) >= 0;
  }

  // ---- How much scale and how many digits the types keep ----------------------------------------------------

  /** The type keeps as many fraction digits as there is room for beside all integer digits, but up to six in any case,
      and all 38 digits when more are needed. */
  lemma AdaptedKeeps(precision: int, scale: int)
    requires 0 <= scale <= precision
    ensures var t, room := Adapted(precision, scale), 38 - (precision - scale);
            && t.s == Min(scale, Max(room, 6))
            && (precision >= 38 ==> t.p == 38)
            && (room >= 6 && precision <= 38 ==> t == Decimal(precision, scale))
  {
  }

  /** Products keep all fraction digits of both operands if there is room, or if there are at most six. */
  lemma ProductScale(a: Decimal, b: Decimal)
    requires Valid(a) && Valid(b)
    ensures MulType(a, b).s == a.s + b.s <==> a.p + b.p <= 38 || a.s + b.s <= 6
  {
    AdaptedKeeps(a.p + b.p, a.s + b.s);
  }

  /** Quotients have a fraction digit for every digit of the divisor behind those of the dividend, and at least six, as
      far as there is room. */
  lemma QuotientScale(a: Decimal, b: Decimal)
    requires Valid(a) && Valid(b)
    ensures var wanted, integers := Max(6, a.s + b.p), IntegerDigits(a) + b.s;
            && DivType(a, b).s == Min(wanted, Max(38 - integers, 6)) >= 6
            && (integers + wanted >= 38 ==> DivType(a, b).p == 38)
            && (integers + wanted <= 38 ==> DivType(a, b) == Decimal(integers + wanted, wanted))
  {
    AdaptedKeeps(IntegerDigits(a) + b.s + Max(6, a.s + b.p), Max(6, a.s + b.p));
  }

  lemma {:induction false} ShiftPower(n: nat, k: nat)
    ensures Shift(Pow10(n), k) == Pow10(n + k)
  {
    if k > 0 { ShiftPower(n, k - 1); }
  }

  lemma ModUnique(u: nat, v: nat, q: nat, r: nat)
    requires u == q * v + r && r < v
    ensures u % v == r
  {
    var d := u / v - q;
    assert d * v == r - u % v;
    if d >= 1 {
      MulLessEq(1, d, v);
    } else if d <= -1 {
      MulLessEq(d, -1, v);
    }
  }

  lemma SmallRemainder(u: nat, v: nat)
    requires u < v
    ensures Rem(u, v) == u
  {
    ModUnique(u, v, 0, u);
  }

  lemma OneTenthLeft(q: nat)
    requires q > 0
    ensures Rem(10 * q, 9 * q) == q
  {
    ModUnique(10 * q, 9 * q, 1, q);
  }

  /** A power of ten below the largest value of the divisor. */
  lemma LargestAbove(n: nat, j: nat)
    requires 0 <= j < n
    ensures Pow10(n - 1) < Pow10(n) - Pow10(j)
  {
    PowMonotone(j, n - 1);
  }

  lemma PowerRescaled(d: Decimal, m: nat, s: nat) returns (x: int)
    requires Valid(d) && d.s <= s && 0 < m + d.s <= d.p
    ensures Fits(x, d.p) && Rescale(x, d, s) == Pow10(m + s - 1)
  {
    x := Pow10(m + d.s - 1);
    PowMonotone(m + d.s - 1, d.p);
    ShiftPower(m + d.s - 1, s - d.s);
  }

  lemma LargestRescaled(d: Decimal, m: nat, s: nat) returns (y: int)
    requires Valid(d) && d.s <= s && 0 < d.p && m <= IntegerDigits(d) && m + s > 0
    ensures Fits(y, d.p) && Pow10(m + s - 1) < Rescale(y, d, s)
  {
    y := Largest(d);
    LargestValue(d, s);
    LargestAbove(IntegerDigits(d) + s, s - d.s);
    PowMonotone(m + s - 1, IntegerDigits(d) + s - 1);
  }

  /** A dividend below the divisor is left over. */
  lemma DividendLeft(u: int, v: int, n: nat)
    requires n > 0 && u == Pow10(n - 1) < v
    ensures v != 0 && !Fits(Rem(u, v), n - 1)
  {
    SmallRemainder(u, v);
  }

  lemma TenthLeft(u: int, v: int, n: nat)
    requires n > 0 && u == Pow10(n) && v == 9 * Pow10(n - 1)
    ensures v != 0 && !Fits(Rem(u, v), n - 1)
  {
    OneTenthLeft(Pow10(n - 1));
  }

  /** A fraction and an integer. */
  lemma FractionDivisor(a: Decimal, b: Decimal) returns (x: int, y: int)
    requires Valid(a) && Valid(b) && a.p > 0 && a.s == 0 && b.p == b.s > 0
    ensures Fits(x, a.p) && Fits(y, b.p) && Rescale(x, a, b.s) == Pow10(b.s) && Rescale(y, b, b.s) == 9 * Pow10(b.s - 1)
  {
    x, y := 1, 9 * Pow10(b.s - 1);
    PowMonotone(1, a.p);
    ShiftPower(0, b.s);
  }

  /** The remainder type has no digit too many: some remainder, at the larger scale, does not fit with one digit less. */
  lemma RemainderNeedsType(a: Decimal, b: Decimal) returns (x: int, y: int, u: int, v: int)
    requires Valid(a) && Valid(b) && a.p > 0 && b.p > 0
    ensures Fits(x, a.p) && Fits(y, b.p)
    ensures u == Rescale(x, a, RemType(a, b).s) && v == Rescale(y, b, RemType(a, b).s)
    ensures v != 0 && !Fits(Rem(u, v), RemType(a, b).p - 1)
  {
    var m, s := Min(IntegerDigits(a), IntegerDigits(b)), RemType(a, b).s;
    if m + a.s > 0 {
      x := PowerRescaled(a, m, s);
      y := LargestRescaled(b, m, s);
      u, v := Rescale(x, a, s), Rescale(y, b, s);
      DividendLeft(u, v, m + s);
    } else {
      x, y := FractionDivisor(a, b);
      u, v := Rescale(x, a, s), Rescale(y, b, s);
      TenthLeft(u, v, s);
    }
  }
}
