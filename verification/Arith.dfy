/** Facts of integer arithmetic the solver needs spelled out. */
module Arith {

  function Pow2(k: nat): (p: nat)
    ensures p >= 1
  {
    if k == 0 then 1 else 2 * Pow2(k - 1)
  }

  lemma {:induction false} Pow2Add(a: nat, b: nat)
    ensures Pow2(a + b) == Pow2(a) * Pow2(b)
  {
    if a != 0 {
      Pow2Add(a - 1, b);
      calc {
        Pow2(a + b);
        2 * Pow2(a - 1 + b);
        2 * (Pow2(a - 1) * Pow2(b));
        (2 * Pow2(a - 1)) * Pow2(b);
      }
    }
  }

  lemma MulMono(d: nat, a: int, b: int)
    requires a <= b
    ensures d * a <= d * b
  {
  }

  /** Quotient and remainder are determined by their defining equation. */
  lemma DivUnique(n: nat, d: nat, q: nat, r: nat)
    requires r < d && n == d * q + r
    ensures n / d == q && n % d == r
  {
    var q', r' := n / d, n % d;
    assert n == d * q' + r';
    if q' + 1 <= q {
      MulMono(d, q' + 1, q);
    } else if q + 1 <= q' {
      MulMono(d, q + 1, q');
    }
  }

  /** Dividing twice is dividing by the product. */
  lemma DivDiv(n: nat, a: nat, b: nat)
    requires a > 0 && b > 0
    ensures a * b > 0 && n / a / b == n / (a * b)
    ensures n % (a * b) == n % a + a * (n / a % b)
  {
    var m := n / a;
    var q, r := m / b, m % b;
    DivDivParts(n, a, b, m, q, r);
    DivUnique(n, a * b, q, a * r + n % a);
  }

  lemma DivDivParts(n: nat, a: nat, b: nat, m: nat, q: nat, r: nat)
    requires a > 0 && b > 0 && m == n / a && m == b * q + r && r < b
    ensures n == (a * b) * q + (a * r + n % a) && a * r + n % a < a * b
  {
    assert n == a * m + n % a;
    assert a * (b * q + r) == (a * b) * q + a * r;
    MulMono(a, r, b - 1);
    assert a * (b - 1) == a * b - a;
  }

  lemma SmallQuotient(n: nat, d: nat)
    requires d > 0
    ensures n / d <= n
  {
    MulMono(n / d, 1, d);
  }

  function Quotient(n: nat, d: nat): (q: nat)
    requires d > 0
    ensures q <= n
  {
    SmallQuotient(n, d);
    n / d
  }
}
