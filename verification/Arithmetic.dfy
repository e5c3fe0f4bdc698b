/** Facts about quotients and remainders. */
module Arithmetic {
  lemma DivideTwice(n: nat, p: nat)
    requires p > 0
    ensures n / (16 * p) == n / 16 / p
  {
    var q, r := n / 16 / p, n / 16 % p;
    assert n / 16 == q * p + r;
    assert n == 16 * (q * p + r) + n % 16;
    assert 16 * (q * p) == q * (16 * p);
    Quotient(n, 16 * p, q, 16 * r + n % 16);
  }

  lemma Quotient(n: nat, p: nat, q: nat, r: nat)
    requires p > 0 && n == q * p + r && r < p
    ensures n / p == q
  {
    var e := n / p;
    assert n == e * p + n % p;
    if e < q {
      TimesGrows(e + 1, q, p);
    } else if q < e {
      TimesGrows(q + 1, e, p);
    }
  }

  lemma TimesGrows(a: nat, b: nat, p: nat)
    requires a <= b
    ensures a * p <= b * p && a * p == (a - 1) * p + p
  {
  }

  lemma RemainderOf(n: nat, p: nat, q: nat, r: nat)
    requires p > 0 && n == q * p + r && r < p
    ensures n % p == r
  {
    Quotient(n, p, q, r);
    assert n == n / p * p + n % p;
  }

  lemma {:induction false} NextRemainder(x: nat, b: nat)
    requires b > 0
    ensures (x + 1) % b == if x % b == b - 1 then 0 else x % b + 1
  {
    var q, r := x / b, x % b;
    assert x == q * b + r;
    if r == b - 1 {
      assert x + 1 == (q + 1) * b;
      Quotient(x + 1, b, q + 1, 0);
    } else {
      Quotient(x + 1, b, q, r + 1);
    }
  }
}
