/** Powers, positional numerals and the bit operations of the packing code. */
module Arith {
  function Pow(b: nat, e: nat): nat { if e == 0 then 1 else b * Pow(b, e - 1) }

  function Pow2(e: nat): (r: nat)
    ensures r > 0
  {
    PowPositive(2, e);
    Pow(2, e)
  }

  lemma Pow2Zero()
    ensures Pow2(0) == 1
  {}

  lemma {:induction false} PowPositive(b: nat, e: nat)
    requires b > 0
    ensures Pow(b, e) > 0
  {
    if e > 0 {
      PowPositive(b, e - 1);
      MulPositive(b, Pow(b, e - 1));
    }
  }

  lemma MulPositive(a: nat, b: nat)
    requires a > 0 && b > 0
    ensures a * b > 0
  {}

  lemma MulAssoc(a: int, b: int, c: int)
    ensures a * (b * c) == (a * b) * c
    ensures b * c == c * b
  {}

  lemma MulAdd(a: int, b: int, c: int)
    ensures a * (b + c) == a * b + a * c
    ensures (b + c) * a == b * a + c * a
  {}

  lemma MulMono(a: nat, b: nat, c: nat)
    requires a <= b
    ensures a * c <= b * c
    ensures c * a <= c * b
  {}

  lemma {:induction false} PowAdd(b: nat, m: nat, n: nat)
    ensures Pow(b, m + n) == Pow(b, m) * Pow(b, n)
  {
    if m > 0 {
      PowAdd(b, m - 1, n);
      MulAssoc(b, Pow(b, m - 1), Pow(b, n));
    }
  }

  lemma {:induction false} PowMul(b: nat, m: nat, n: nat)
    ensures m * n >= 0
    ensures Pow(b, m * n) == Pow(Pow(b, m), n)
  {
    if n == 0 {
      assert m * n == 0;
    } else {
      PowMul(b, m, n - 1);
      assert m * n == m + m * (n - 1) by { assert n == 1 + (n - 1); }
      PowAdd(b, m, m * (n - 1));
    }
  }

  lemma Euclid(n: nat, d: nat)
    requires d > 0
    ensures n == n / d * d + n % d && 0 <= n % d < d
  {}

  /** Quotient and remainder are determined by the decomposition. */
  lemma DivMod(q: nat, r: nat, d: nat)
    requires r < d
    ensures q * d + r >= 0
    ensures (q * d + r) / d == q
    ensures (q * d + r) % d == r
  {
    MulPositiveOrZero(q, d);
    var n := q * d + r;
    Euclid(n, d);
    var q', r' := n / d, n % d;
    QuotientUnique(q, r, q', r', d);
  }

  lemma SmallMod(n: nat, d: nat)
    requires n < d
    ensures n % d == n && n / d == 0
  {
    DivMod(0, n, d);
  }

  lemma MulPositiveOrZero(a: nat, b: nat)
    ensures a * b >= 0
  {}

  lemma QuotientUnique(q: nat, r: nat, q': nat, r': nat, d: nat)
    requires r < d && r' < d && q * d + r == q' * d + r'
    ensures q == q' && r == r'
  {
    MulAdd(d, q', 1);
    MulAdd(d, q, 1);
    if q' < q {
      MulMono(q' + 1, q, d);
    } else if q' > q {
      MulMono(q + 1, q', d);
    }
  }

  /** Dividing twice is dividing once by the product. */
  lemma DivDiv(n: nat, a: nat, b: nat)
    requires a > 0 && b > 0
    ensures a * b > 0
    ensures n / a / b == n / (a * b)
  {
    MulPositive(a, b);
    var m := a * b;
    var q, r := n / a, n % a;
    Euclid(n, a);
    var q2, r2 := q / b, q % b;
    Euclid(q, b);
    TwoDigits(q2, r2, r, a, b, m);
    var low := r2 * a + r;
    assert n == q2 * m + low;
    DivMod(q2, low, m);
  }

  lemma TwoDigits(q: nat, s: nat, r: nat, a: nat, b: nat, m: nat)
    requires s < b && r < a && m == a * b
    ensures 0 <= s * a + r < m
    ensures (q * b + s) * a + r == q * m + (s * a + r)
  {
    MulAdd(a, q * b, s);
    MulAssoc(q, b, a);
    MulMono(s + 1, b, a);
    MulAdd(a, s, 1);
  }

  lemma Pow2Values()
    ensures Pow2(4) == 16 && Pow2(7) == 128 && Pow2(8) == 256 && Pow2(9) == 512 && Pow2(16) == 0x1_0000
    ensures Pow2(32) == 0x1_0000_0000 && Pow2(64) == 0x1_0000_0000_0000_0000
  {
    assert Pow2(4) == 16 by { assert Pow(2, 2) == 4; assert Pow(2, 3) == 8; }
    PowAdd(2, 4, 4);
    assert Pow2(7) == 128 by { PowAdd(2, 4, 3); assert Pow(2, 2) == 4; assert Pow(2, 3) == 8; }
    assert Pow2(9) == 2 * Pow2(8);
    PowAdd(2, 8, 8);
    PowAdd(2, 16, 16);
    PowAdd(2, 32, 32);
  }

  lemma {:induction false} PowMonotone(b: nat, m: nat, n: nat)
    requires b > 0 && m <= n
    ensures Pow(b, m) <= Pow(b, n)
  {
    PowAdd(b, m, n - m);
    PowPositive(b, n - m);
    PowPositive(b, m);
    MulMono(1, Pow(b, n - m), Pow(b, m));
  }

  lemma Pow2Add(m: nat, n: nat)
    ensures Pow2(m + n) == Pow2(m) * Pow2(n)
  {
    PowAdd(2, m, n);
  }

  lemma Pow2Monotone(m: nat, n: nat)
    requires m <= n
    ensures Pow2(m) <= Pow2(n)
  {
    PowMonotone(2, m, n);
  }

  lemma Pow2Mul(bits: nat, n: nat)
    ensures n * bits >= 0
    ensures Pow2(n * bits) == Pow(Pow2(bits), n)
  {
    PowMul(2, bits, n);
    MulAssoc(1, bits, n);
  }

  // ---------------------------------------------------------------- numerals

  /** The number whose little-endian digits in base `base` are `ds`. */
  function FromDigits(ds: seq<nat>, base: nat): nat {
    if |ds| == 0 then 0 else ds[0] + base * FromDigits(ds[1..], base)
  }

  ghost predicate AreDigits(ds: seq<nat>, base: nat) { forall k :: 0 <= k < |ds| ==> ds[k] < base }

  lemma {:induction false} DigitsBound(ds: seq<nat>, base: nat)
    requires AreDigits(ds, base)
    ensures FromDigits(ds, base) < Pow(base, |ds|)
  {
    if |ds| > 0 {
      DigitsBound(ds[1..], base);
      MulMono(FromDigits(ds[1..], base) + 1, Pow(base, |ds| - 1), base);
      assert base * (FromDigits(ds[1..], base) + 1) == base * FromDigits(ds[1..], base) + base;
    }
  }

  lemma AppendStep(d: nat, base: nat, x: nat, p: nat, f: nat)
    ensures d + base * (x + p * f) == d + base * x + base * p * f
  {
    MulAssoc(base, p, f);
    MulAdd(base, x, p * f);
  }

  lemma {:induction false} DigitsAppend(a: seq<nat>, b: seq<nat>, base: nat)
    ensures FromDigits(a + b, base) == FromDigits(a, base) + Pow(base, |a|) * FromDigits(b, base)
  {
    if |a| == 0 {
      assert a + b == b;
    } else {
      assert (a + b)[1..] == a[1..] + b;
      DigitsAppend(a[1..], b, base);
      AppendStep(a[0], base, FromDigits(a[1..], base), Pow(base, |a| - 1), FromDigits(b, base));
    }
  }

  lemma {:induction false} DigitsSingle(d: nat, base: nat)
    ensures FromDigits([d], base) == d
  {
    assert FromDigits([d][1..], base) == 0;
  }

  /** Reads digit `k` back out of a numeral. */
  lemma {:induction false} DigitAt(ds: seq<nat>, base: nat, k: nat)
    requires base > 0 && k < |ds| && AreDigits(ds, base)
    ensures Pow(base, k) > 0
    ensures FromDigits(ds, base) / Pow(base, k) % base == ds[k]
  {
    PowPositive(base, k);
    var rest := FromDigits(ds[1..], base);
    assert FromDigits(ds, base) == rest * base + ds[0];
    DivMod(rest, ds[0], base);
    if k > 0 {
      DigitAt(ds[1..], base, k - 1);
      PowPositive(base, k - 1);
      DivDiv(FromDigits(ds, base), base, Pow(base, k - 1));
    }
  }

  /** Dropping the first `k` digits is dividing by `base` to the `k`. */
  lemma {:induction false} DigitsDrop(ds: seq<nat>, base: nat, k: nat)
    requires base > 0 && k <= |ds| && AreDigits(ds, base)
    ensures Pow(base, k) > 0
    ensures FromDigits(ds, base) / Pow(base, k) == FromDigits(ds[k..], base)
  {
    PowPositive(base, k);
    if k == 0 {
      assert ds[0..] == ds;
    } else {
      var rest := FromDigits(ds[1..], base);
      assert FromDigits(ds, base) == rest * base + ds[0];
      DivMod(rest, ds[0], base);
      DigitsDrop(ds[1..], base, k - 1);
      assert ds[1..][k - 1..] == ds[k..];
      PowPositive(base, k - 1);
      DivDiv(FromDigits(ds, base), base, Pow(base, k - 1));
    }
  }

  /** Two numerals of the same length with the same value are the same. */
  lemma {:induction false} DigitsUnique(a: seq<nat>, b: seq<nat>, base: nat)
    requires base > 0 && |a| == |b| && AreDigits(a, base) && AreDigits(b, base)
    requires FromDigits(a, base) == FromDigits(b, base)
    ensures a == b
  {
    forall k | 0 <= k < |a|
      ensures a[k] == b[k]
    {
      DigitAt(a, base, k);
      DigitAt(b, base, k);
    }
  }

  lemma {:induction false} DigitsZero(ds: seq<nat>, base: nat)
    requires forall k :: 0 <= k < |ds| ==> ds[k] == 0
    ensures FromDigits(ds, base) == 0
  {
    if |ds| > 0 {
      DigitsZero(ds[1..], base);
      assert base * 0 == 0;
    }
  }

  /** Adding to one digit adds that much of the digit's weight. */
  lemma {:induction false} DigitsAddAt(ds: seq<nat>, base: nat, k: nat, d: nat)
    requires k < |ds|
    ensures FromDigits(ds[k := ds[k] + d], base) == FromDigits(ds, base) + d * Pow(base, k)
  {
    var ds' := ds[k := ds[k] + d];
    if k == 0 {
      assert ds'[1..] == ds[1..];
      assert d * Pow(base, 0) == d;
    } else {
      assert ds'[1..] == ds[1..][k - 1 := ds[1..][k - 1] + d];
      DigitsAddAt(ds[1..], base, k - 1, d);
      var p := Pow(base, k - 1);
      assert base * (d * p) == d * (base * p) by {
        MulAssoc(base, d, p);
        MulAssoc(d, base, p);
        assert base * d == d * base;
      }
      assert base * (FromDigits(ds[1..], base) + d * p) == base * FromDigits(ds[1..], base) + base * (d * p);
    }
  }

  // ---------------------------------------------------------- bit operations

  /** Bitwise or. */
  function Or(a: nat, b: nat): nat
    decreases a + b
  {
    if a == 0 then b
    else if b == 0 then a
    else 2 * Or(a / 2, b / 2) + (if a % 2 == 1 || b % 2 == 1 then 1 else 0)
  }

  /** Bitwise and. */
  function And(a: nat, b: nat): nat
    decreases a + b
  {
    if a == 0 || b == 0 then 0
    else 2 * And(a / 2, b / 2) + (if a % 2 == 1 && b % 2 == 1 then 1 else 0)
  }

  /** `1 << bits` minus one. */
  function Mask(bits: nat): (m: nat) { Pow2(bits) - 1 }

  /** `a << k` on 64-bit words: bits shifted past the top are lost. */
  function Shl64(a: nat, k: nat): nat { a * Pow2(k) % 0x1_0000_0000_0000_0000 }

  /** `a >> k`. */
  function Shr(a: nat, k: nat): nat { a / Pow2(k) }

  /** Or-ing bits above position `k` onto a number below `2^k` is addition. */
  lemma {:induction false} OrDisjoint(a: nat, b: nat, k: nat)
    requires a < Pow2(k)
    ensures Or(a, b * Pow2(k)) == a + b * Pow2(k)
  {
    if k == 0 {
    } else {
      var p := Pow2(k - 1);
      assert Pow2(k) == 2 * p;
      assert b * (2 * p) == 2 * (b * p) by { MulAssoc(b, 2, p); MulAssoc(2, b, p); }
      assert a / 2 < p;
      OrDisjoint(a / 2, b, k - 1);
      if b * Pow2(k) == 0 {
      } else {
        assert b * Pow2(k) / 2 == b * p && b * Pow2(k) % 2 == 0;
      }
    }
  }

  lemma HalveMod(a: nat, p: nat)
    requires p > 0
    ensures a % (2 * p) == 2 * (a / 2 % p) + a % 2
  {
    var q, r := a / 2 / p, a / 2 % p;
    assert a / 2 == q * p + r;
    MulAssoc(q, 2, p);
    MulAssoc(2, q, p);
    DivMod(q, 2 * r + a % 2, 2 * p);
  }

  /** Masking keeps the remainder. */
  lemma {:induction false} AndMask(a: nat, k: nat)
    ensures And(a, Mask(k)) == a % Pow2(k)
  {
    if k == 0 {
    } else {
      var p := Pow2(k - 1);
      assert Pow2(k) == 2 * p;
      AndMask(a / 2, k - 1);
      HalveMod(a, p);
      assert Mask(k) / 2 == Mask(k - 1) && Mask(k) % 2 == 1;
    }
  }

  lemma ModProduct(n: nat, a: nat, b: nat)
    requires a > 0 && b > 0
    ensures a * b > 0 && n % (a * b) % a == n % a
  {
    MulPositive(a, b);
    var m := a * b;
    Euclid(n, m);
    var q, r := n / m, n % m;
    Euclid(r, a);
    QuotientBelow(r, a, b);
    ModOfSum(q, r / a, r % a, a, b, m, n);
  }

  lemma ModOfSum(q: nat, s: nat, r: nat, a: nat, b: nat, m: nat, n: nat)
    requires s < b && r < a && m == a * b && n == q * m + (s * a + r)
    ensures n % a == r
  {
    TwoDigits(q, s, r, a, b, m);
    MulPositiveOrZero(q, b);
    DivMod(q * b + s, r, a);
  }

  lemma QuotientBelow(n: nat, d: nat, b: nat)
    requires d > 0 && n < d * b
    ensures n / d < b
  {
    Euclid(n, d);
    if n / d >= b {
      MulMono(b, n / d, d);
    }
  }

  /** The number of bits needed to write `n`. */
  function BitLength(n: nat): nat { if n == 0 then 0 else 1 + BitLength(n / 2) }

  lemma {:induction false} BitLengthBounds(n: nat)
    ensures n < Pow2(BitLength(n))
    ensures n > 0 ==> BitLength(n) > 0 && Pow2(BitLength(n) - 1) <= n
  {
    if n > 0 {
      BitLengthBounds(n / 2);
      assert Pow2(BitLength(n)) == 2 * Pow2(BitLength(n / 2));
      if n / 2 > 0 {
        assert Pow2(BitLength(n / 2)) == 2 * Pow2(BitLength(n / 2) - 1);
      }
    }
  }
}
