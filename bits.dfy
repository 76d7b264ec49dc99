/**
 * C integer semantics shared by the whole model: the byte type, the shift and
 * bitwise-and operators on non-negative values, truncating division, and the
 * quotient/remainder facts that the pixel-index arithmetic needs.
 *
 * The shifts and the AND are defined one bit at a time, the way the hardware
 * performs them; the lemmas below prove what they mean in arithmetic terms.
 */
module Bits {

  /** An 8-bit unsigned value (`unsigned char`, `uint8_t`). */
  type byte = x: int | 0 <= x < 256

  function Pow2(n: nat): (p: nat)
    ensures p >= 1
  {
    if n == 0 then 1 else 2 * Pow2(n - 1)
  }

  function Min(a: int, b: int): int { if a <= b then a else b }

  function Abs(a: int): nat { if a < 0 then -a else a }

  /** `a << n`: n single-bit shifts to the left. */
  function Shl(a: int, n: nat): (r: int)
    ensures a >= 0 ==> r >= 0
    decreases n
  {
    if n == 0 then a else 2 * Shl(a, n - 1)
  }

  /** `a >> n` on a two's-complement value: n single-bit shifts to the right,
      each of which drops the lowest bit (floor division by 2). */
  function Shr(a: int, n: nat): (r: int)
    ensures a >= 0 ==> r >= 0
    decreases n
  {
    if n == 0 then a else Shr(a / 2, n - 1)
  }

  /** `a & b` on non-negative values, computed from the least significant bit up. */
  function And(a: nat, b: nat): nat
    decreases a
  {
    if a == 0 || b == 0 then 0
    else 2 * And(a / 2, b / 2) + (if a % 2 == 1 && b % 2 == 1 then 1 else 0)
  }

  /** C's `/` on `int`, which truncates toward zero. */
  function CDiv(a: int, d: int): int
    requires d > 0
  {
    if a >= 0 then a / d else -((-a) / d)
  }

  // ---------------------------------------------------------------------------
  // Quotients and remainders

  lemma {:induction false} MulStep(d: nat, a: int, b: int)
    requires a > b
    ensures d * a >= d * b + d
    decreases a - b
  {
    if a - 1 > b { MulStep(d, a - 1, b); }
    assert d * a == d * (a - 1) + d;
  }

  /** One more row of b. */
  lemma MulSucc(a: int, b: int)
    ensures (a + 1) * b == a * b + b
  {
  }

  lemma MulPred(a: int, b: int)
    ensures a * b == (a - 1) * b + b
  {
  }

  /** Multiplying by a non-negative factor keeps the order of a and b. */
  lemma MulOrder(d: nat, a: int, b: int)
    ensures a >= b ==> d * a >= d * b
    ensures d > 0 && a > b ==> d * a > d * b
  {
    if a > b { MulStep(d, a, b); }
  }

  /** The quotient and remainder of a division are the unique pair that
      rebuilds the dividend with a remainder below the divisor. */
  lemma DivUnique(a: int, d: int, q: int, r: int)
    requires d > 0 && 0 <= r < d && a == d * q + r
    ensures a / d == q && a % d == r
  {
    var q', r' := a / d, a % d;
    assert a == d * q' + r' && 0 <= r' < d;
    if q > q' {
      MulStep(d, q, q');
    } else if q < q' {
      MulStep(d, q', q);
    }
  }

  lemma HalfThenDiv(a: int, c: int)
    requires c > 0
    ensures (a / 2) / c == a / (2 * c)
  {
    var q, r := a / (2 * c), a % (2 * c);
    assert a == 2 * (c * q + r / 2) + r % 2;
    DivUnique(a, 2, c * q + r / 2, r % 2);
    DivUnique(a / 2, c, q, r / 2);
  }

  /** Row-major pixel addressing is one-to-one: (y, x) with x below the row
      width is recovered from y * w + x. */
  lemma RowMajorUnique(w: nat, x: int, y: int, x': int, y': int)
    requires 0 <= x < w && 0 <= x' < w && 0 <= y && 0 <= y'
    requires y * w + x == y' * w + x'
    ensures x == x' && y == y'
  {
    DivUnique(y * w + x, w, y, x);
    DivUnique(y' * w + x', w, y', x');
  }

  /** A row-major offset inside a w-by-h grid stays below w * h. */
  lemma RowMajorBound(w: nat, h: nat, x: int, y: int)
    requires 0 <= x < w && 0 <= y < h
    ensures y * w + x < w * h
  {
    MulStep(w, h, y);
  }

  // ---------------------------------------------------------------------------
  // What the bit operators compute

  /** `a << n` is a times 2^n. */
  lemma {:induction false} ShlIsMul(a: int, n: nat)
    ensures Shl(a, n) == a * Pow2(n)
    decreases n
  {
    if n > 0 {
      ShlIsMul(a, n - 1);
      assert 2 * (a * Pow2(n - 1)) == a * (2 * Pow2(n - 1));
    }
  }

  /** `a >> n` is a divided by 2^n, rounded down. */
  lemma {:induction false} ShrIsDiv(a: int, n: nat)
    ensures Shr(a, n) == a / Pow2(n)
    decreases n
  {
    if n > 0 {
      ShrIsDiv(a / 2, n - 1);
      HalfThenDiv(a, Pow2(n - 1));
    }
  }

  /** For a non-negative dividend C's truncating division is floor division. */
  lemma CDivNonNegative(a: int, d: int)
    requires d > 0 && a >= 0
    ensures CDiv(a, d) == a / d
  {
  }

  /** An even mask ignores the lowest bit of a. */
  lemma AndEven(a: nat, m: nat)
    ensures And(a, 2 * m) == 2 * And(a / 2, m)
  {
    if a != 0 && m != 0 {
      assert (2 * m) / 2 == m && (2 * m) % 2 == 0;
    }
  }

  /** A mask whose low n bits are clear keeps only the high part of a. */
  lemma {:induction false} AndHighMask(a: nat, m: nat, n: nat)
    ensures And(a, Shl(m, n)) == Shl(And(Shr(a, n), m), n)
    decreases n
  {
    if n > 0 {
      AndEven(a, Shl(m, n - 1));
      AndHighMask(a / 2, m, n - 1);
    }
  }

  /** A mask of n one-bits keeps a value below 2^n unchanged. */
  lemma {:induction false} AndLowOnes(a: nat, n: nat)
    requires a < Pow2(n)
    ensures And(a, Pow2(n) - 1) == a
    decreases n
  {
    if n > 0 && a > 0 {
      AndLowOnes(a / 2, n - 1);
      assert (Pow2(n) - 1) / 2 == Pow2(n - 1) - 1;
      assert (Pow2(n) - 1) % 2 == 1;
    }
  }

  /** `v & 0xF8` clears the three low bits of a byte. */
  lemma AndF8(v: byte)
    ensures And(v, 0xF8) == v - v % 8
  {
    ShrIsDiv(v, 3);
    AndHighMask(v, 31, 3);
    AndLowOnes(v / 8, 5);
    ShlIsMul(v / 8, 3);
  }

  /** `v & 0xFC` clears the two low bits of a byte. */
  lemma AndFC(v: byte)
    ensures And(v, 0xFC) == v - v % 4
  {
    ShrIsDiv(v, 2);
    AndHighMask(v, 63, 2);
    AndLowOnes(v / 4, 6);
    ShlIsMul(v / 4, 2);
  }

  /** `b & (1 << k)` is non-zero exactly when bit k of b, `(b >> k) & 1`, is set. */
  lemma AndBit(b: nat, k: nat)
    ensures Shl(1, k) == Pow2(k)
    ensures (And(b, Shl(1, k)) != 0) == (Shr(b, k) % 2 == 1)
  {
    ShlIsMul(1, k);
    AndHighMask(b, 1, k);
    var c: nat := Shr(b, k);
    ShlIsMul(And(c, 1), k);
    if c != 0 {
      assert And(c, 1) == 2 * And(c / 2, 0) + (if c % 2 == 1 then 1 else 0);
    }
  }
}
