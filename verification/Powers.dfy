/** Powers of two, and division by a variable. */
module Powers {
  function Pow2(k: nat): (p: nat)
    ensures p >= 1
  {
    if k == 0 then 1 else 2 * Pow2(k - 1)
  }

  lemma {:induction false} Pow2Split(a: nat, b: nat)
    ensures Pow2(a) * Pow2(b) == Pow2(a + b)
  {
    if a > 0 {
      Pow2Split(a - 1, b);
      assert Pow2(a) * Pow2(b) == 2 * (Pow2(a - 1) * Pow2(b));
    }
  }

  lemma {:induction false} Pow2Monotone(a: nat, b: nat)
    requires a <= b
    ensures Pow2(a) <= Pow2(b)
  {
    if a < b {
      Pow2Monotone(a, b - 1);
    }
  }

  lemma MultipleIsFar(x: int, d: int)
    requires d > 0 && x != 0
    ensures x * d >= d || x * d <= -d
  {
  }

  lemma NegativeProduct(q: int, d: int)
    requires d > 0 && q < 0
    ensures q * d <= -d
  {
  }

  lemma QuotientIsNat(n: nat, d: nat)
    requires d > 0
    ensures n / d >= 0 && n % d >= 0
  {
    var q, r := n / d, n % d;
    assert n == q * d + r;
    if q < 0 {
      NegativeProduct(q, d);
    }
  }

  lemma ScaledQuotient(q: int, d: int)
    requires d > 0
    ensures q * d / d == q && q * d % d == 0
  {
    var n := q * d;
    var a, r := n / d, n % d;
    assert n == a * d + r;
    assert (q - a) * d == r by {
      assert (q - a) * d == q * d - a * d;
    }
    if q != a {
      MultipleIsFar(q - a, d);
    }
  }

  lemma DivUnique(n: int, q: int, d: int, r: int)
    requires n == q * d + r && 0 <= r < d
    ensures n / d == q
  {
    var p, s := n / d, n % d;
    assert n == p * d + s;
    assert (p - q) * d == p * d - q * d;
    if p != q {
      MultipleIsFar(p - q, d);
    }
  }

  lemma DivStep(a: nat, d: nat)
    requires d > 0
    ensures (a + d) / d == a / d + 1
    ensures a < d ==> a / d == 0
  {
    var q, r := a / d, a % d;
    assert a + d == (q + 1) * d + r;
    ScaledQuotient(q + 1, d);
    DivUnique(a + d, q + 1, d, r);
    if a < d {
      DivUnique(a, 0, d, a);
    }
  }
}
