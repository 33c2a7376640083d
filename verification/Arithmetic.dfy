/** The widths of machine words, and facts about quotients and products. */
module Arithmetic {

  const U32: int := 0x1_0000_0000

  const U64: int := 0x1_0000_0000_0000_0000

  function Power2(n: nat): (p: nat)
    ensures p >= 1
  {
    if n == 0 then 1 else 2 * Power2(n - 1)
  }

  lemma {:induction false} PowerSum(m: nat, n: nat)
    ensures Power2(m + n) == Power2(m) * Power2(n)
  {
    if m > 0 {
      PowerSum(m - 1, n);
      assert 2 * (Power2(m - 1) * Power2(n)) == 2 * Power2(m - 1) * Power2(n);
    }
  }

  lemma DoubleProduct(p: int, v: int)
    ensures 2 * (p * v) == 2 * p * v
  {
  }

  lemma PowerTwo()
    ensures Power2(2) == 4
  {
    assert Power2(1) == 2;
  }

  lemma SmallPowers()
    ensures Power2(2) == 4 && Power2(4) == 16 && Power2(8) == 256 && Power2(16) == 0x1_0000
    ensures Power2(32) == U32 && Power2(64) == U64
  {
    PowerTwo();
    hide Power2;
    PowerSum(2, 2);
    PowerSum(4, 4);
    PowerSum(8, 8);
    PowerSum(16, 16);
    PowerSum(32, 32);
  }

  lemma DivisionUnique(a: int, x: int, q: int, e: int)
    requires 0 <= e < x && a == x * q + e
    ensures a / x == q && a % x == e
  {
    var d := q - a / x;
    assert x * d == a % x - e;
    ProductBounds(x, d);
  }

  lemma ProductBounds(x: int, d: int)
    requires 0 < x
    ensures d >= 1 ==> x * d >= x
    ensures d <= -1 ==> x * d <= -x
  {
  }

  /** Dividing by a product is dividing by one factor after the other. */
  lemma DivideTwice(n: nat, a: nat, b: nat)
    requires 0 < a && 0 < b
    ensures 0 < a * b && n / (a * b) == n / a / b
  {
    DivideByProduct(n, a, b, n / a / b, n / a % b, n % a);
  }

  lemma DivideByProduct(n: nat, a: nat, b: nat, q: nat, e: nat, f: nat)
    requires e < b && f < a && n == a * (b * q + e) + f
    ensures 0 < a * b && n / (a * b) == q
  {
    RegroupProduct(a, b, q, e);
    FactorBound(a, b, e, f);
    DivisionUnique(n, a * b, q, a * e + f);
  }

  lemma RegroupProduct(a: nat, b: nat, q: nat, e: nat)
    ensures a * (b * q + e) == a * b * q + a * e
  {
    Distribute(a, b * q, e);
    assert a * (b * q) == a * b * q;
  }

  lemma FactorBound(a: nat, b: nat, e: nat, f: nat)
    requires e < b && f < a
    ensures a * e + f < a * b
  {
    ProductMonotone(e + 1, b, a);
    assert a * (e + 1) == (e + 1) * a && a * b == b * a && a * (e + 1) == a * e + a;
  }

  /** Terms with equal remainders may be exchanged in a sum. */
  lemma AddModulo(a: int, b: int, c: int, m: int)
    requires 0 < m && a % m == b % m
    ensures (a + c) % m == (b + c) % m
  {
    var q, e := (a % m + c) / m, (a % m + c) % m;
    DivideSum(a, c, m, q, e);
    DivideSum(b, c, m, q, e);
  }

  lemma DivideSum(a: int, c: int, m: int, q: int, e: int)
    requires 0 < m && 0 <= e < m && a % m + c == m * q + e
    ensures (a + c) % m == e
  {
    Distribute(m, a / m, q);
    DivisionUnique(a + c, m, a / m + q, e);
  }

  lemma Distribute(m: int, p: int, q: int)
    ensures m * (p + q) == m * p + m * q
  {
  }

  lemma SumTimes(a: int, b: int, p: int)
    ensures (a + b) * p == a * p + b * p
  {
  }

  /** A remainder can be reduced before something is added. */
  lemma ReduceModulo(a: int, c: int, m: int)
    requires 0 < m
    ensures (a % m + c) % m == (a + c) % m
  {
    DivisionUnique(a % m, m, 0, a % m);
    AddModulo(a % m, a, c, m);
  }

  lemma ProductMonotone(a: nat, b: nat, p: nat)
    requires a <= b
    ensures a * p <= b * p
  {
  }

  lemma ProductAtLeast(t: nat, p: nat)
    requires 1 <= p
    ensures t <= t * p
  {
  }

  lemma NextMultiple(t: nat, b: nat)
    ensures (t + 1) * b == t * b + b
  {
  }

  lemma CeilingBounds(n: nat, m: nat)
    requires 0 < m
    ensures n <= (n + m - 1) / m * m < n + m
  {
  }

  /** Division of C++, which drops the fraction. */
  function Truncated(a: int, b: int): int
    requires 0 < b
  {
    if 0 <= a then a / b else -(-a / b)
  }

  /** The fraction dropped is smaller than one and has the sign of the dividend. */
  lemma TruncatedBounds(a: int, b: int)
    requires 0 < b
    ensures 0 <= a ==> 0 <= a - b * Truncated(a, b) < b
    ensures a < 0 ==> -b < a - b * Truncated(a, b) <= 0
  {
    if a < 0 {
      var q := -a / b;
      assert -a == b * q + -a % b;
      assert b * -q == -(b * q);
    } else {
      assert a == b * (a / b) + a % b;
    }
  }
}
