/** Powers of two and the bit-level operations the allocators rely on.
    `Xor` and `And` are defined bit by bit on unbounded naturals; the lemmas give
    the arithmetic meaning of the expressions the allocators build from them. */
module Bits {

  function Pow2(k: nat): (r: nat)
    ensures r > 0
  {
    if k == 0 then 1 else 2 * Pow2(k - 1)
  }

  function Min(a: nat, b: nat): nat { if a <= b then a else b }

  function Max(a: nat, b: nat): nat { if a >= b then a else b }

  function Xor(a: nat, b: nat): nat
    decreases a + b
  {
    if a == 0 && b == 0 then 0 else 2 * Xor(a / 2, b / 2) + (a % 2 + b % 2) % 2
  }

  function And(a: nat, b: nat): nat
  {
    if a == 0 then 0 else 2 * And(a / 2, b / 2) + (if a % 2 == 1 && b % 2 == 1 then 1 else 0)
  }

  function TrailingZeros(n: nat): (r: nat)
    requires n > 0
  {
    if n % 2 == 1 then 0 else 1 + TrailingZeros(n / 2)
  }

  /** The position of the highest set bit plus one: a word width minus `leading_zeros`. */
  function BitLength(n: nat): (r: nat)
  {
    if n == 0 then 0 else 1 + BitLength(n / 2)
  }

  /** `x` with bit `k` inverted. */
  function Flip(x: nat, k: nat): nat
  {
    if k == 0 then (if x % 2 == 0 then x + 1 else x - 1) else 2 * Flip(x / 2, k - 1) + x % 2
  }

  predicate LowBitsZero(s: nat, k: nat)
  {
    k == 0 || (s % 2 == 0 && LowBitsZero(s / 2, k - 1))
  }

  /** `s` is a multiple of 2^k. */
  predicate Aligned(s: nat, k: nat) { LowBitsZero(s, k) }

  lemma {:induction false} ZeroAligned(k: nat)
    ensures Aligned(0, k)
  {
    if k > 0 { ZeroAligned(k - 1); }
  }

  lemma {:induction false} FlipDiffers(x: nat, k: nat)
    ensures Flip(x, k) != x
  {
    if k > 0 { FlipDiffers(x / 2, k - 1); }
  }

  /** `x` with its low `k` bits cleared. */
  function ClearLow(x: nat, k: nat): nat
  {
    if k == 0 then x else 2 * ClearLow(x / 2, k - 1)
  }

  lemma {:induction false} Pow2Mono(a: nat, b: nat)
    requires a <= b
    ensures Pow2(a) <= Pow2(b)
    ensures a < b ==> 2 * Pow2(a) <= Pow2(b)
    decreases b - a
  {
    if a < b { Pow2Mono(a, b - 1); }
  }

  lemma {:induction false} MinPow2(a: nat, b: nat)
    ensures Min(Pow2(a), Pow2(b)) == Pow2(Min(a, b))
  {
    if a <= b { Pow2Mono(a, b); } else { Pow2Mono(b, a); }
  }

  lemma {:induction false} MaxPow2(a: nat, b: nat)
    ensures Max(Pow2(a), Pow2(b)) == Pow2(Max(a, b))
  {
    if a <= b { Pow2Mono(a, b); } else { Pow2Mono(b, a); }
  }

  lemma ModHalf(x: nat, p: nat)
    requires p > 0
    ensures x % (2 * p) == 2 * (x / 2 % p) + x % 2
  {
    var h := x / 2;
    var q, r := h / p, h % p;
    assert h == p * q + r;
    assert x == (2 * p) * q + (2 * r + x % 2) by { assert 2 * (p * q) == (2 * p) * q; }
    DivUnique(x, 2 * p, q, 2 * r + x % 2);
  }

  lemma {:induction false} MulGap(m: nat, q: nat, q': nat)
    requires m > 0 && q < q'
    ensures m * q + m <= m * q'
    decreases q' - q
  {
    if q + 1 < q' { MulGap(m, q, q' - 1); }
  }

  lemma DivUnique(x: nat, m: nat, q: nat, r: nat)
    requires m > 0 && x == m * q + r && r < m
    ensures x / m == q && x % m == r
  {
    UniqueQuotient(m, q, r, x / m, x % m);
  }

  lemma UniqueQuotient(m: nat, q: nat, r: nat, q': nat, r': nat)
    requires m > 0 && r < m && r' < m && m * q + r == m * q' + r'
    ensures q == q' && r == r'
  {
    if q < q' { MulGap(m, q, q'); }
    if q' < q { MulGap(m, q', q); }
  }

  lemma {:induction false} XorZero(x: nat)
    ensures Xor(x, 0) == x
  {
    if x > 0 { XorZero(x / 2); }
  }

  /** `x ^ (1 << k)` inverts bit `k`. */
  lemma {:induction false} XorPow2(x: nat, k: nat)
    ensures Xor(x, Pow2(k)) == Flip(x, k)
  {
    if k == 0 {
      XorZero(x / 2);
    } else {
      XorPow2(x / 2, k - 1);
      HalfPow2(k);
    }
  }

  lemma HalfPow2(k: nat)
    requires k > 0
    ensures Pow2(k) / 2 == Pow2(k - 1) && Pow2(k) % 2 == 0
  {
  }

  lemma {:induction false} AndComplement(m: nat, n: nat)
    requires m < Pow2(n)
    ensures And(m, Pow2(n) - 1 - m) == 0
  {
    if m > 0 { AndComplement(m / 2, n - 1); }
  }

  /** `x & (!x + 1)` in an `n`-bit word is the lowest set bit of `x`. */
  lemma {:induction false} LowBit(x: nat, n: nat)
    requires 0 < x < Pow2(n)
    ensures And(x, (Pow2(n) - 1 - x) + 1) == Pow2(TrailingZeros(x))
  {
    if x % 2 == 1 { AndComplement(x / 2, n - 1); } else { LowBit(x / 2, n - 1); }
  }

  /** The lowest set bit is the largest power of two dividing the number. */
  lemma {:induction false} TrailingZerosAligned(x: nat, k: nat)
    requires x > 0
    ensures Aligned(x, k) <==> k <= TrailingZeros(x)
  {
    if k > 0 && x % 2 == 0 { TrailingZerosAligned(x / 2, k - 1); }
  }

  lemma {:induction false} TrailingZerosPow2(k: nat)
    ensures TrailingZeros(Pow2(k)) == k && Aligned(Pow2(k), k)
  {
    if k > 0 { TrailingZerosPow2(k - 1); }
  }

  lemma {:induction false} BitLengthBounds(n: nat)
    requires n > 0
    ensures BitLength(n) > 0
    ensures Pow2(BitLength(n) - 1) <= n < Pow2(BitLength(n))
  {
    if n > 1 { BitLengthBounds(n / 2); }
  }

  lemma {:induction false} HighBit(n: nat, k: nat)
    requires n >= Pow2(k)
    ensures BitLength(n) > k
  {
    BitLengthBounds(n);
    if BitLength(n) <= k { Pow2Mono(BitLength(n), k); }
  }

  /** `1 << (width - n.leading_zeros() - 1)`: the largest power of two not above `n`. */
  function PrevPowerOfTwo(n: nat): (r: nat)
    requires n > 0
    ensures r <= n < 2 * r
    ensures BitLength(n) > 0 && r == Pow2(BitLength(n) - 1)
  {
    BitLengthBounds(n);
    Pow2(BitLength(n) - 1)
  }

  /** The exponent of the smallest power of two not below `n` (`next_power_of_two`; zero rounds to one). */
  function NextClass(n: nat): (k: nat)
    ensures n <= Pow2(k)
    ensures forall j | 0 <= j < k :: Pow2(j) < n
  {
    if n <= 1 then 0
    else
      BitLengthBounds(n - 1);
      var k := BitLength(n - 1);
      assert forall j | 0 <= j < k :: Pow2(j) < n by {
        forall j | 0 <= j < k ensures Pow2(j) < n { Pow2Mono(j, k - 1); }
      }
      k
  }

  lemma {:induction false} AndOnes(x: nat, n: nat)
    requires x < Pow2(n)
    ensures And(x, Pow2(n) - 1) == x
  {
    if x > 0 { AndOnes(x / 2, n - 1); }
  }

  /** Masking with `2^n - 2^k` clears the low `k` bits. */
  lemma {:induction false} MaskLow(x: nat, n: nat, k: nat)
    requires x < Pow2(n) && k <= n
    ensures Pow2(k) <= Pow2(n)
    ensures And(x, Pow2(n) - Pow2(k)) == ClearLow(x, k)
    decreases k
  {
    Pow2Mono(k, n);
    if k == 0 {
      AndOnes(x, n);
    } else {
      MaskLow(x / 2, n - 1, k - 1);
      AndDouble(x, Pow2(n - 1) - Pow2(k - 1));
    }
  }

  lemma {:induction false} AndDouble(x: nat, m: nat)
    ensures And(x, 2 * m) == 2 * And(x / 2, m)
  {
  }
}
