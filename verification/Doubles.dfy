/** The conversion of integers to `double`: IEEE 754 binary64, rounding to nearest, ties to even. */
module Doubles {
  import opened Bytes

  const HIDDEN_BIT: int := 0x10_0000_0000_0000
  const SIGN_BIT: int := 0x8000_0000_0000_0000
  const INFINITY: Word := 0x7ff0_0000_0000_0000

  function Pow2(k: nat): (p: nat)
    ensures p > 0
  {
    if k == 0 then 1 else 2 * Pow2(k - 1)
  }

  /** The position of the highest bit. */
  function Log2(n: nat): (e: nat)
    requires n > 0
    ensures Pow2(e) <= n < Pow2(e + 1)
  {
    if n == 1 then 0 else 1 + Log2(n / 2)
  }

  /** A quotient rounded to nearest, ties to even. */
  function RoundedQuotient(n: nat, d: nat): (m: nat)
    requires d > 0
  {
    var q, r := n / d, n % d;
    if 2 * r > d || (2 * r == d && q % 2 == 1) then q + 1 else q
  }

  /** The 53 bits of the significand, hidden bit included; rounding up may carry into a 54th. */
  function Significand(n: nat, e: nat): nat {
    if e <= 52 then n * Pow2(52 - e) else RoundedQuotient(n, Pow2(e - 52))
  }

  /** A significand that carried adds to the exponent's field. */
  function MagnitudeBits(n: nat): (d: Word)
    ensures d <= INFINITY
  {
    if n == 0 then 0
    else if Log2(n) > 1023 then INFINITY
    else
      SignificandBounds(n);
      (1022 + Log2(n)) * HIDDEN_BIT + Significand(n, Log2(n))
  }

  /** The bits of `(double)n`. */
  function FromInteger(n: int): (d: Word) {
    if n < 0 then SIGN_BIT + MagnitudeBits(-n) else MagnitudeBits(n)
  }

  // ----- What the bits stand for -----

  function Power(k: int): (p: real)
    ensures p > 0.0
    decreases if k < 0 then -k else k
  {
    if k == 0 then 1.0 else if k > 0 then 2.0 * Power(k - 1) else Power(k + 1) / 2.0
  }

  function Field(d: Word): (e: nat)
    ensures e < 2048
  {
    d / HIDDEN_BIT % 2048
  }

  /** Neither infinite nor not a number. */
  predicate Finite(d: Word) {
    Field(d) < 2047
  }

  /** Subnormal numbers have no hidden bit, and the least exponent. */
  function SignedSignificand(d: Word): (m: int)
    ensures -2 * HIDDEN_BIT < m < 2 * HIDDEN_BIT
  {
    var m := d % HIDDEN_BIT + (if Field(d) == 0 then 0 else HIDDEN_BIT);
    if d >= SIGN_BIT then -m else m
  }

  function Exponent(d: Word): int {
    (if Field(d) == 0 then 1 else Field(d)) - 1075
  }

  function Scaled(m: int, k: int): real {
    m as real * Power(k)
  }

  function RealOf(d: Word): real
    requires Finite(d)
  {
    Scaled(SignedSignificand(d), Exponent(d))
  }

  function Distance(x: real, y: real): real {
    if x < y then y - x else x - y
  }

  // ----- Powers of two -----

  lemma {:induction false} PowerSum(a: int, b: int)
    ensures Power(a) * Power(b) == Power(a + b)
    decreases if a < 0 then -a else a
  {
    hide Power;
    if a == 0 {
      PowerOfZero();
    } else {
      var c := if a > 0 then a - 1 else a;
      Doubled(c);
      Doubled(c + b);
      TwiceProduct(Power(c), Power(b));
      PowerSum(if a > 0 then a - 1 else a + 1, b);
    }
  }

  lemma PowerOfZero()
    ensures Power(0) == 1.0
  {
  }

  lemma TwiceProduct(x: real, y: real)
    ensures (2.0 * x) * y == 2.0 * (x * y)
  {
  }

  lemma Doubled(k: int)
    ensures Power(k + 1) == 2.0 * Power(k)
  {
  }

  lemma {:induction false} PowerRises(a: int, b: int)
    requires a <= b
    ensures Power(a) <= Power(b)
    decreases b - a
  {
    if a < b {
      PowerRises(a, b - 1);
      Doubled(b - 1);
    }
  }

  lemma {:induction false} PowerIsPow2(k: nat)
    ensures Power(k) == Pow2(k) as real
  {
    if k > 0 {
      PowerIsPow2(k - 1);
    }
  }

  lemma {:induction false} Pow2Sum(a: nat, b: nat)
    ensures Pow2(a) * Pow2(b) == Pow2(a + b)
  {
    if a > 0 {
      Pow2Sum(a - 1, b);
    }
  }

  lemma Pow2At52()
    ensures Pow2(52) == HIDDEN_BIT && Pow2(53) == 2 * HIDDEN_BIT && Pow2(63) == SIGN_BIT
  {
    Pow2At13();
    hide Pow2;
    Pow2Sum(13, 13);
    Pow2Sum(26, 26);
    Pow2Sum(52, 1);
    Pow2Sum(53, 10);
  }

  lemma Pow2At13()
    ensures Pow2(1) == 2 && Pow2(10) == 1024 && Pow2(13) == 8192
  {
    assert Pow2(3) == 8;
    Pow2Sum(3, 3);
    Pow2Sum(6, 3);
    Pow2Sum(9, 1);
    Pow2Sum(10, 3);
  }

  // ----- The rounding -----

  /** No multiple of `d` is nearer, and one that is as near is even. */
  lemma QuotientNearest(n: nat, d: nat, k: int)
    requires d > 0
    ensures var m := RoundedQuotient(n, d);
            && Apart(m * d, n) <= Apart(k * d, n)
            && (Apart(m * d, n) == Apart(k * d, n) && k != m ==> m % 2 == 0)
  {
    var q, r := n / d, n % d;
    assert n == q * d + r;
    Multiple(q, k - q, d);
    Multiple(q, 1, d);
  }

  function Apart(x: int, y: int): nat {
    if x < y then y - x else x - y
  }

  lemma Multiple(q: int, j: int, d: nat)
    ensures (q + j) * d == q * d + j * d
    ensures j == 1 ==> j * d == d
    ensures j >= 2 ==> j * d >= 2 * d
    ensures j <= -1 ==> j * d + d <= 0
  {
    if j >= 2 {
      assert (j - 2) * d >= 0;
    } else if j <= -1 {
      assert (-1 - j) * d >= 0;
    }
  }

  lemma SignificandBounds(n: nat)
    requires n > 0
    ensures HIDDEN_BIT <= Significand(n, Log2(n)) <= 2 * HIDDEN_BIT
  {
    hide Pow2, Log2, RoundedQuotient;
    var e := Log2(n);
    Pow2At52();
    if e <= 52 {
      Pow2Sum(52 - e, e);
      Pow2Sum(52 - e, e + 1);
      ProductBetween(Pow2(52 - e), Pow2(e), n, Pow2(e + 1));
    } else {
      Pow2Sum(e - 52, 52);
      Pow2Sum(e - 52, 53);
      QuotientBetween(n, Pow2(e - 52), HIDDEN_BIT, 2 * HIDDEN_BIT);
    }
  }

  lemma ProductBetween(p: nat, lo: nat, n: nat, hi: nat)
    requires lo <= n <= hi
    ensures p * lo <= n * p <= p * hi
  {
  }

  lemma QuotientBetween(n: nat, d: nat, lo: nat, hi: nat)
    requires d > 0 && d * lo <= n < d * hi
    ensures lo <= RoundedQuotient(n, d) <= hi
  {
    var q, r := n / d, n % d;
    assert n == q * d + r;
    Below(lo, q, d, r);
    if hi <= q {
      ProductBetween(d, hi, q, q);
    }
  }

  lemma Below(lo: nat, q: nat, d: nat, r: nat)
    requires r < d && d * lo <= q * d + r
    ensures lo <= q
  {
    if lo > q {
      Multiple(q, lo - q, d);
    }
  }

  // ----- Reading the bits back -----

  lemma FieldsOf(k: nat, f: nat, d: Word)
    requires 0 < k < 2048 && f < HIDDEN_BIT && d == k * HIDDEN_BIT + f
    ensures Field(d) == k && SignedSignificand(d) == HIDDEN_BIT + f && Exponent(d) == k - 1075
  {
    assert d / HIDDEN_BIT == k;
  }

  /** The bits stand for the rounded significand at its exponent, also where rounding carried. */
  lemma MagnitudeReal(n: nat)
    requires n > 0 && Finite(MagnitudeBits(n))
    ensures RealOf(MagnitudeBits(n)) == Scaled(Significand(n, Log2(n)), Log2(n) - 52)
  {
    hide Power, Significand, Field, SignedSignificand, Exponent;
    SignificandBounds(n);
    var e := Log2(n);
    InfinityNotFinite();
    var m := Significand(n, e);
    if m < 2 * HIDDEN_BIT {
      FieldsOf(1023 + e, m - HIDDEN_BIT, MagnitudeBits(n));
    } else {
      FieldsOf(1024 + e, 0, MagnitudeBits(n));
      Doubled(Log2(n) - 52);
    }
  }

  lemma InfinityNotFinite()
    ensures !Finite(INFINITY)
  {
  }

  lemma SignFlips(x: Word)
    requires x <= INFINITY
    ensures Field(SIGN_BIT + x) == Field(x)
    ensures Finite(x) ==> RealOf(SIGN_BIT + x) == -RealOf(x)
  {
    hide Power;
    assert (SIGN_BIT + x) / HIDDEN_BIT == 2048 + x / HIDDEN_BIT;
    if Finite(x) {
      Negated(SignedSignificand(x), Power(Exponent(x)));
    }
  }

  lemma Negated(m: int, p: real)
    ensures (-m) as real * p == -(m as real * p)
  {
  }

  // ----- Rounding to nearest -----

  /** `x` is at least as near to `n` as `y` is; if only as near, the bits of `x` are even. */
  predicate Preferred(x: real, bits: int, y: real, n: int) {
    && Distance(x, n as real) <= Distance(y, n as real)
    && (Distance(x, n as real) == Distance(y, n as real) && x != y ==> bits % 2 == 0)
  }

  /** The rounded number is preferred to every number with up to 53 bits, at any exponent: all doubles are such. */
  lemma NearestOfAll(n: nat, m: int, k: int)
    requires n > 0 && -2 * HIDDEN_BIT < m < 2 * HIDDEN_BIT
    ensures var e: int := Log2(n);
            Preferred(Scaled(Significand(n, e), e - 52), Significand(n, e), Scaled(m, k), n)
  {
    hide Power, Log2, Significand, Preferred, Scaled;
    var e: int := Log2(n);
    if e <= 52 {
      ExactSignificand(n, e);
      Itself(Scaled(Significand(n, e), e - 52), n, Significand(n, e), Scaled(m, k));
    } else if k >= e - 52 {
      CoarserPreferred(n, e, m, k);
    } else {
      FinerPreferred(n, e, m, k);
    }
  }

  lemma Itself(x: real, n: int, significand: int, y: real)
    requires x == n as real
    ensures Preferred(x, significand, y, n)
  {
  }

  lemma CastProduct(x: int, y: int, z: int)
    requires z == x * y
    ensures z as real == x as real * y as real
  {
  }

  /** Powers of two move between significand and exponent. */
  lemma ScaledSum(m: int, a: nat, b: int)
    ensures Scaled(m * Pow2(a), b) == Scaled(m, a + b)
  {
    hide Power, Pow2;
    PowerIsPow2(a);
    PowerSum(a, b);
    CastProduct(m, Pow2(a), m * Pow2(a));
    ThreeFactors((m * Pow2(a)) as real, m as real, Power(a), Power(b), Power(a + b));
  }

  lemma ThreeFactors(x: real, m: real, p: real, q: real, r: real)
    requires x == m * p && p * q == r
    ensures x * q == m * r
  {
    assert (m * p) * q == m * (p * q);
  }

  /** Integers of up to 53 bits are not rounded. */
  lemma ExactSignificand(n: nat, e: nat)
    requires e <= 52
    ensures Scaled(Significand(n, e), e - 52) == n as real
  {
    hide Power, Pow2, Scaled;
    ScaledSum(n, 52 - e, e - 52);
    Unscaled(n);
  }

  lemma Unscaled(n: int)
    ensures Scaled(n, 0) == n as real
  {
  }

  lemma ScaledInt(m: int, k: nat)
    ensures Scaled(m, k) == (m * Pow2(k)) as real
  {
    hide Power, Pow2;
    PowerIsPow2(k);
    CastProduct(m, Pow2(k), m * Pow2(k));
  }

  /** The rounded significand against any other multiple of its unit. */
  lemma MultiplePreferred(n: nat, e: nat, j: int)
    requires e > 52
    ensures Preferred(Scaled(Significand(n, e), e - 52), Significand(n, e), Scaled(j, e - 52), n)
  {
    hide Power, Pow2, RoundedQuotient, Preferred, Scaled;
    var d, m := Pow2(e - 52), Significand(n, e);
    QuotientNearest(n, d, j);
    ScaledInt(m, e - 52);
    ScaledInt(j, e - 52);
    ApartPreferred(m * d, m, j * d, n, j);
  }

  lemma ApartPreferred(x: int, significand: int, y: int, n: int, j: int)
    requires Apart(x, n) <= Apart(y, n)
    requires Apart(x, n) == Apart(y, n) && j != significand ==> significand % 2 == 0
    requires j == significand ==> x == y
    ensures Preferred(x as real, significand, y as real, n)
  {
  }

  lemma CoarserPreferred(n: nat, e: nat, m: int, k: int)
    requires e > 52 && k >= e - 52
    ensures Preferred(Scaled(Significand(n, e), e - 52), Significand(n, e), Scaled(m, k), n)
  {
    hide Power, Pow2, Significand, Preferred, Scaled;
    MultiplePreferred(n, e, m * Pow2(k - (e - 52)));
    ScaledSum(m, k - (e - 52), e - 52);
  }

  /** A double with a smaller unit lies below the power of two that `n` is not below. */
  lemma FinerPreferred(n: nat, e: nat, m: int, k: int)
    requires n > 0 && e == Log2(n) && e > 52 && k < e - 52 && -2 * HIDDEN_BIT < m < 2 * HIDDEN_BIT
    ensures Preferred(Scaled(Significand(n, e), e - 52), Significand(n, e), Scaled(m, k), n)
  {
    hide Power, Pow2, Log2, Significand, Preferred;
    MultiplePreferred(n, e, Pow2(52));
    ScaledSum(1, 52, e - 52);
    assert Scaled(1, e) == Power(e);
    PowerIsPow2(e);
    PowerIsPow2(53);
    Pow2At52();
    PowerRises(k, e - 53);
    PowerSum(53, e - 53);
    BelowTop(m, Power(53), Power(k), Power(e - 53));
    BelowPreferred(Scaled(Significand(n, e), e - 52), Significand(n, e), Scaled(m, k), Scaled(1, e), n);
  }

  lemma BelowPreferred(x: real, significand: int, y: real, z: real, n: int)
    requires Preferred(x, significand, z, n) && y < z <= n as real
    ensures Preferred(x, significand, y, n)
  {
  }

  lemma BelowTop(m: int, top: real, p: real, q: real)
    requires m as real < top && 0.0 < p <= q && top > 0.0
    ensures m as real * p < top * q
  {
    ProductBelow(m as real, top, p);
    ProductAtMost(top, p, q);
  }

  lemma ProductBelow(x: real, y: real, p: real)
    requires x < y && p > 0.0
    ensures x * p < y * p
  {
  }

  lemma ProductAtMost(x: real, p: real, q: real)
    requires x > 0.0 && p <= q
    ensures x * p <= x * q
  {
  }

  // ----- The conversion -----

  /** The conversion rounds to nearest, ties to even: no double is nearer to the integer than the result, and if another
      one is as near, then the last bit of the result is zero. */
  lemma FromIntegerNearest(n: int, other: Word)
    requires Finite(FromInteger(n)) && Finite(other)
    ensures Preferred(RealOf(FromInteger(n)), FromInteger(n), RealOf(other), n)
  {
    hide Power, Scaled, Significand, Log2, SignedSignificand, Preferred, Exponent, Field;
    var a := if n < 0 then -n else n;
    var m, k := SignedSignificand(other), Exponent(other);
    if n == 0 {
      ZeroExact();
      Itself(RealOf(0), 0, 0, RealOf(other));
    } else {
      if n < 0 {
        SignFlips(MagnitudeBits(a));
        Opposite(m, k);
      }
      MagnitudeReal(a);
      NearestOfAll(a, if n < 0 then -m else m, k);
      LastBit(a);
      var x := RealOf(MagnitudeBits(a));
      MirrorPreferred(x, Significand(a, Log2(a)), if n < 0 then -RealOf(other) else RealOf(other), a, FromInteger(n));
    }
  }

  lemma LastBit(n: nat)
    requires n > 0 && Finite(MagnitudeBits(n))
    ensures MagnitudeBits(n) % 2 == Significand(n, Log2(n)) % 2
  {
    hide Significand, Log2;
    InfinityNotFinite();
    EvenMultiple(1022 + Log2(n), Significand(n, Log2(n)));
  }

  lemma EvenMultiple(k: nat, m: nat)
    ensures (k * HIDDEN_BIT + m) % 2 == m % 2
  {
    var x := k * 0x8_0000_0000_0000;
    assert k * HIDDEN_BIT == 2 * x;
    TwiceAndMore(x, m);
  }

  lemma TwiceAndMore(x: nat, m: nat)
    ensures (2 * x + m) % 2 == m % 2
  {
  }

  lemma MirrorPreferred(x: real, bits: int, y: real, n: int, bits': int)
    requires Preferred(x, bits, y, n) && bits % 2 == bits' % 2
    ensures Preferred(x, bits', y, n) && Preferred(-x, bits', -y, -n)
  {
  }

  lemma Opposite(m: int, k: int)
    ensures Scaled(-m, k) == -Scaled(m, k)
  {
    hide Power;
    Negated(m, Power(k));
  }

  lemma ZeroExact()
    ensures FromInteger(0) == 0 && Finite(0) && RealOf(0) == 0.0
  {
  }

  /** From the highest bit that is set to the lowest, the integer has no more than 53 bits. */
  predicate Fits53(n: nat) {
    n == 0 || Log2(n) <= 52 || n % Pow2(Log2(n) - 52) == 0
  }

  /** The conversion is exact for the integers whose bits fit, and for no others. */
  lemma FromIntegerExact(n: int)
    ensures Finite(FromInteger(n)) ==>
              (RealOf(FromInteger(n)) == n as real <==> Fits53(if n < 0 then -n else n))
    ensures -2 * HIDDEN_BIT < n < 2 * HIDDEN_BIT ==> Finite(FromInteger(n)) && Fits53(if n < 0 then -n else n)
  {
    hide Power, Scaled, Significand, Pow2, Log2, MagnitudeBits, Field, SignedSignificand, Exponent;
    var a := if n < 0 then -n else n;
    if n == 0 {
      ZeroExact();
    } else {
      SignFlips(MagnitudeBits(a));
      if Finite(MagnitudeBits(a)) {
        MagnitudeReal(a);
        SignificandExact(a);
      }
      Pow2At52();
      if a < 2 * HIDDEN_BIT {
        SmallLog(a, 53);
        SmallFinite(a);
      }
    }
  }

  lemma SignificandExact(n: nat)
    requires n > 0
    ensures Scaled(Significand(n, Log2(n)), Log2(n) - 52) == n as real <==> Fits53(n)
  {
    hide Power, Scaled, Pow2, Log2, RoundedQuotient;
    var e := Log2(n);
    if e <= 52 {
      ExactSignificand(n, e);
    } else {
      ScaledInt(Significand(n, e), e - 52);
      QuotientExact(n, Pow2(e - 52));
    }
  }

  lemma QuotientExact(n: nat, d: nat)
    requires d > 0
    ensures RoundedQuotient(n, d) * d == n <==> n % d == 0
  {
    var q, r := n / d, n % d;
    assert n == q * d + r;
    Multiple(q, 1, d);
  }

  /** The least positive integer that changes, 9007199254740993, becomes its predecessor. */
  lemma FromIntegerChanges()
    ensures FromInteger(2 * HIDDEN_BIT + 1) == FromInteger(2 * HIDDEN_BIT)
    ensures Finite(FromInteger(2 * HIDDEN_BIT + 1))
    ensures RealOf(FromInteger(2 * HIDDEN_BIT + 1)) == (2 * HIDDEN_BIT) as real
  {
    hide Pow2, Log2, Scaled, Power;
    var n := 2 * HIDDEN_BIT;
    Pow2At52();
    Pow2Sum(53, 1);
    Pow2At13();
    LogIs(n, 53);
    LogIs(n + 1, 53);
    assert MagnitudeBits(n) == MagnitudeBits(n + 1);
    FromInt64Finite(n);
    FromIntegerExact(n);
  }

  lemma LogIs(n: nat, k: nat)
    requires Pow2(k) <= n < Pow2(k + 1)
    ensures n > 0 && Log2(n) == k
  {
    SmallLog(n, k + 1);
    if Log2(n) + 1 <= k {
      Pow2Rises(Log2(n) + 1, k);
    }
  }

  lemma SmallLog(n: nat, k: nat)
    requires 0 < n < Pow2(k)
    ensures Log2(n) < k
  {
    if k <= Log2(n) {
      Pow2Rises(k, Log2(n));
    }
  }

  lemma {:induction false} Pow2Rises(a: nat, b: nat)
    requires a <= b
    ensures Pow2(a) <= Pow2(b)
  {
    if a < b {
      Pow2Rises(a, b - 1);
    }
  }

  lemma SmallFinite(n: nat)
    requires n > 0 && Log2(n) < 1022
    ensures Finite(MagnitudeBits(n))
  {
    hide Log2, Significand;
    SignificandBounds(n);
  }

  /** Every `int64_t` has a finite conversion. */
  lemma FromInt64Finite(n: int)
    requires -SIGN_BIT <= n < SIGN_BIT
    ensures Finite(FromInteger(n))
  {
    hide Pow2, Log2, MagnitudeBits;
    var a := if n < 0 then -n else n;
    Pow2At52();
    Pow2Rises(63, 64);
    if n == 0 {
      ZeroExact();
    } else {
      Pow2Sum(63, 1);
      Pow2At13();
      SmallLog(a, 64);
      SmallFinite(a);
      SignFlips(MagnitudeBits(a));
    }
  }
}
