/**
 * Facts about products, remainders and powers of two that the verifier does not find by itself.
 */
module Arithmetic {
  function Pow2(n: nat): (r: nat)
    ensures r > 0
  {
    if n == 0 then 1 else 2 * Pow2(n - 1)
  }

  lemma {:induction false} MulGap(p: int, q: int, d: nat)
    requires p < q
    ensures q * d >= p * d + d
    decreases q - p
  {
    assert q * d == (q - 1) * d + d;
    if p < q - 1 {
      MulGap(p, q - 1, d);
    }
  }

  lemma DivUnique(x: int, q: int, r: nat, m: nat)
    requires m > 0 && x == q * m + r && r < m
    ensures x % m == r
  {
    var q', r' := x / m, x % m;
    assert q' * m + r' == q * m + r;
    if q' < q {
      MulGap(q', q, m);
    } else if q < q' {
      MulGap(q, q', m);
    }
  }

  lemma SmallMod(a: nat, m: nat)
    requires a < m
    ensures a % m == a
  {
  }

  lemma MulMod(q: int, d: nat)
    requires d > 0
    ensures (q * d) % d == 0
  {
    DivUnique(q * d, q, 0, d);
  }

  lemma ModStep(a: nat, b: nat, m: nat)
    requires m > 0
    ensures (a % m + b) % m == (a + b) % m
  {
    var c := a % m + b;
    assert a == a / m * m + a % m && c == c / m * m + c % m;
    assert a + b == (a / m + c / m) * m + c % m by {
      assert (a / m + c / m) * m == a / m * m + c / m * m;
    }
    DivUnique(a + b, a / m + c / m, c % m, m);
  }
}
