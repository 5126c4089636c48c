// Fixed-width integer operations, written out on mathematical integers.
//
// The allocator works on Go `uint32` values and the Dex encoder on the 32-bit
// registers JavaScript uses for `<<`, `|`, `>>>` and `&`. Both truncate; the
// definitions below say exactly how.
module MachineWords {

  const TWO_32: int := 0x1_0000_0000
  const MAX_U32: int := 0xffff_ffff

  /** A Go `uint32`. */
  type U32 = x: int | 0 <= x < 0x1_0000_0000

  /** One byte. */
  type Byte = x: int | 0 <= x < 256

  function Pow2(k: nat): (p: nat)
    ensures p >= 1
  {
    if k == 0 then 1 else 2 * Pow2(k - 1)
  }

  /** Truncation to 32 bits, read unsigned. */
  function ToUint32(x: int): (u: U32) {
    x % TWO_32
  }

  /** Truncation to 32 bits, read in two's complement. */
  function ToInt32(x: int): int {
    var u := ToUint32(x);
    if u < 0x8000_0000 then u else u - TWO_32
  }

  /** Bitwise or of two non-negative integers. */
  function BitOr(x: nat, y: nat): nat
    decreases x + y
  {
    if x == 0 then y
    else if y == 0 then x
    else 2 * BitOr(x / 2, y / 2) + (if x % 2 == 1 || y % 2 == 1 then 1 else 0)
  }

  /** Bitwise and of two non-negative integers. */
  function BitAnd(x: nat, y: nat): nat
    decreases x + y
  {
    if x == 0 || y == 0 then 0
    else 2 * BitAnd(x / 2, y / 2) + (if x % 2 == 1 && y % 2 == 1 then 1 else 0)
  }

  /** JavaScript `x << k`, for shift counts 0..31. */
  function JsShl(x: int, k: nat): int {
    ToInt32(ToUint32(x) * Pow2(k))
  }

  /** JavaScript `x >>> k`, for shift counts 0..31. */
  function JsUshr(x: int, k: nat): nat {
    var p := Pow2(k);
    var u: nat := ToUint32(x);
    DivNonNegative(u, p);
    u / p
  }

  /** JavaScript `x | y`. */
  function JsOr(x: int, y: int): int {
    ToInt32(BitOr(ToUint32(x), ToUint32(y)))
  }

  /** JavaScript `x & y` where the right operand is a small non-negative mask. */
  function JsAnd(x: int, y: nat): int {
    ToInt32(BitAnd(ToUint32(x), ToUint32(y)))
  }

  /** Or-ing a value into bits that are all zero adds it. */
  lemma {:induction false} BitOrDisjoint(x: nat, y: nat, k: nat)
    requires x % Pow2(k) == 0
    requires y < Pow2(k)
    ensures BitOr(x, y) == x + y
    decreases k
  {
    if k == 0 || x == 0 || y == 0 {
    } else {
      var p := Pow2(k - 1);
      var q := x / Pow2(k);
      assert x == Pow2(k) * q;
      assert Pow2(k) * q == 2 * (p * q);
      assert x / 2 == p * q && x % 2 == 0;
      assert (p * q) % p == 0 by { ModOfMultiple(p, q); }
      BitOrDisjoint(x / 2, y / 2, k - 1);
    }
  }

  lemma ModOfMultiple(p: nat, q: int)
    requires p > 0
    ensures (p * q) % p == 0
  {
    RemainderUnique(p * q, p, q, 0);
  }

  lemma DivNonNegative(u: nat, p: nat)
    requires p > 0
    ensures u / p >= 0
  {
    if u / p <= -1 {
      ProductAwayFromZero(p, u / p);
    }
  }

  /** Masking with 2^k - 1 keeps the remainder modulo 2^k. */
  lemma {:induction false} BitAndMask(x: nat, k: nat)
    ensures BitAnd(x, Pow2(k) - 1) == x % Pow2(k)
    decreases k
  {
    hide BitAnd, Pow2;
    Pow2Step(k);
    if k == 0 {
      BitAndZero(x);
    } else {
      BitAndMask(x / 2, k - 1);
      BitAndOdd(x, Pow2(k - 1));
      DoubledDivision(x, Pow2(k - 1));
    }
  }

  lemma Pow2Step(k: nat)
    ensures Pow2(k) == if k == 0 then 1 else 2 * Pow2(k - 1)
  {
  }

  lemma BitAndZero(x: nat)
    ensures BitAnd(x, 0) == 0
  {
  }

  lemma BitAndOdd(x: nat, p: nat)
    requires p > 0
    ensures BitAnd(x, 2 * p - 1) == 2 * BitAnd(x / 2, p - 1) + x % 2
  {
    var m := 2 * p - 1;
    assert m / 2 == p - 1 && m % 2 == 1;
  }

  lemma DoubledDivision(x: nat, p: nat)
    requires p > 0
    ensures x % (2 * p) == 2 * (x / 2 % p) + x % 2
  {
    var q, r := x / 2 / p, x / 2 % p;
    assert x / 2 == p * q + r;
    assert x == 2 * p * q + (2 * r + x % 2) by {
      assert 2 * p * q == 2 * (p * q);
    }
    RemainderUnique(x, 2 * p, q, 2 * r + x % 2);
  }

  /** Quotient and remainder are determined by the division equation. */
  lemma RemainderUnique(x: int, d: nat, q: int, r: int)
    requires d > 0
    requires x == d * q + r
    requires 0 <= r < d
    ensures x / d == q && x % d == r
  {
    var q', r' := x / d, x % d;
    assert d * (q - q') == r' - r;
    ProductAwayFromZero(d, q - q');
  }

  /** A multiple of d other than zero is at least d away from zero. */
  lemma ProductAwayFromZero(d: nat, m: int)
    requires d > 0
    ensures m >= 1 ==> d * m >= d
    ensures m <= -1 ==> d * m <= 0 - d
  {
    if m >= 1 {
      assert d * m == d * (m - 1) + d;
    } else if m <= -1 {
      assert d * m == d * (m + 1) - d;
    }
  }

  lemma MulAssociative(a: int, b: int, c: int)
    ensures (a * b) * c == a * (b * c)
  {
  }

  lemma {:induction false} Pow2Sum(a: nat, b: nat)
    ensures Pow2(a + b) == Pow2(a) * Pow2(b)
    decreases b
  {
    if b > 0 {
      Pow2Sum(a, b - 1);
      assert a + b - 1 == a + (b - 1);
      MulAssociative(Pow2(a), 2, Pow2(b - 1));
    }
  }

  lemma MulDistributes(d: int, x: int, y: int)
    ensures d * (x + y) == d * x + d * y
    ensures d * (x - y) == d * x - d * y
  {
  }

  /** Reducing modulo a multiple of d first does not change the remainder by d. */
  lemma RemainderOfRemainder(x: int, d: nat, c: nat)
    requires d > 0 && c > 0
    ensures d * c > 0
    ensures x % (d * c) % d == x % d
  {
    ProductAwayFromZero(d, c);
    var m := d * c;
    var k, r := x / m, x % m;
    var q, t := r / d, r % d;
    MulAssociative(d, c, k);
    MulDistributes(d, c * k, q);
    RemainderUnique(x, d, c * k + q, t);
  }

  /** Scaling a number scales its remainder. */
  lemma ScaledRemainder(x: int, d: nat, s: nat)
    requires d > 0 && s > 0
    ensures s * d > 0
    ensures x * s % (s * d) == x % d * s
  {
    ProductAwayFromZero(s, d);
    var q, t := x / d, x % d;
    MulAssociative(s, d, q);
    MulDistributes(s, d * q, t);
    assert x * s == s * (d * q + t);
    ScaledBound(t, d, s);
    RemainderUnique(x * s, s * d, q, t * s);
  }

  lemma ScaledBound(t: nat, d: nat, s: nat)
    requires t < d && s > 0
    ensures 0 <= t * s < s * d
  {
    MulDistributes(s, d, t);
    ProductAwayFromZero(s, d - t);
  }

  /** Splitting x % (p * d) into a high part below d and a low part below p. */
  lemma SplitRemainder(x: nat, p: nat, d: nat, high: nat, low: nat)
    requires p > 0 && d > 0 && high < d && low < p
    requires p * d > 0 && x % (p * d) == p * high + low
    ensures x / p % d == high && x % p == low
  {
    var k := x / (p * d);
    MulAssociative(p, d, k);
    MulDistributes(p, d * k, high);
    RemainderUnique(x, p, d * k + high, low);
    RemainderUnique(x / p, d, k, high);
  }

  lemma DivisionEquation(x: nat, d: nat)
    requires d > 0
    ensures x == d * (x / d) + x % d && x / d >= 0 && 0 <= x % d < d
  {
    DivNonNegative(x, d);
  }
}
