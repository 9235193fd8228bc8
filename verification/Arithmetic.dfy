// Nonlinear facts about quotients, remainders and row-major indices.
module Arithmetic {
  lemma MulKeepsOrder(a: int, b: int, c: int)
    requires a <= b && 0 <= c
    ensures a * c <= b * c
  {
    assert (b - a) * c >= 0;
    assert (b - a) * c == b * c - a * c;
  }

  lemma QuotientIsUnique(n: int, d: int, q: int, r: int)
    requires d > 0 && n == q * d + r && 0 <= r < d
    ensures n / d == q && n % d == r
  {
    var q' := n / d;
    assert n == q' * d + n % d;
    assert (q - q') * d == q * d - q' * d == n % d - r;
    assert -d < (q - q') * d < d;
    SmallMultiple(q - q', d);
  }

  lemma SmallMultiple(k: int, d: int)
    requires d > 0 && -d < k * d < d
    ensures k == 0
  {
    if k > 0 {
      MulKeepsOrder(1, k, d);
    } else if k < 0 {
      MulKeepsOrder(k, -1, d);
    }
  }

  lemma DivideTwice(n: nat, a: nat, b: nat)
    requires a > 0 && b > 0
    ensures a * b > 0 && n / a / b == n / (a * b)
  {
    var q, r := n / a / b, n / a % b;
    var low := r * a + n % a;
    assert n == (n / a) * a + n % a;
    assert (n / a) * a == (q * b + r) * a by {
      assert n / a == q * b + r;
    }
    assert (q * b + r) * a == q * (a * b) + r * a;
    MulKeepsOrder(r, b - 1, a);
    assert (b - 1) * a == a * b - a;
    MulKeepsOrder(1, a, b);
    QuotientIsUnique(n, a * b, q, low);
  }

  lemma QuotientBelow(n: nat, d: nat, k: nat)
    requires d > 0 && n < k * d
    ensures n / d < k
  {
    if n / d >= k {
      MulKeepsOrder(k, n / d, d);
    }
  }

  function Min(a: nat, b: nat): nat {
    if a < b then a else b
  }

  function Pow2(n: nat): (p: nat)
    ensures p >= 1
  {
    if n == 0 then 1 else 2 * Pow2(n - 1)
  }
}
