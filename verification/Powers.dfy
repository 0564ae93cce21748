/** Powers of two, for shifts written as divisions. */
module Powers {

  function Pow2(n: nat): (p: nat)
    ensures p > 0
  {
    if n == 0 then 1 else 2 * Pow2(n - 1)
  }

  lemma {:induction false} Pow2Add(a: nat, b: nat)
    ensures Pow2(a + b) == Pow2(a) * Pow2(b)
  {
    if a > 0 {
      Pow2Add(a - 1, b);
      MulTwice(Pow2(a - 1), Pow2(b));
    } else {
      assert Pow2(a) == 1;
    }
  }

  lemma MulTwice(x: nat, y: nat)
    ensures (2 * x) * y == 2 * (x * y)
  {
  }

  lemma {:induction false} Pow2Monotone(a: nat, b: nat)
    requires a <= b
    ensures Pow2(a) <= Pow2(b)
  {
    if a < b {
      Pow2Monotone(a, b - 1);
    }
  }

  lemma DivMul(q: int, d: int, r: int)
    requires d > 0 && 0 <= r < d
    ensures (q * d + r) / d == q && (q * d + r) % d == r
  {
    var k := (q * d + r) / d;
    LessMul(k, q, d);
    LessMul(q, k, d);
  }

  lemma LessMul(k: int, q: int, d: int)
    requires d > 0
    ensures k < q ==> k * d + d <= q * d
  {
    if k < q {
      var e := q - k - 1;
      Distribute(k + 1, e, d);
      Distribute(k, 1, d);
      MulNat(e, d);
    }
  }

  lemma Distribute(a: int, b: int, d: int)
    ensures (a + b) * d == a * d + b * d
  {
  }

  lemma MulNat(a: nat, b: nat)
    ensures a * b >= 0
  {
  }

  /** Quotients of a number below q * d stay below q. */
  lemma DivBound(x: nat, d: nat, q: nat)
    requires d > 0
    ensures 0 <= x / d
    ensures x < q * d ==> x / d < q
  {
    LessMul(x / d, 0, d);
    LessMul(q - 1, x / d, d);
  }

  /** Dividing twice is dividing by the product. */
  lemma DivDiv(x: nat, a: nat, b: nat)
    requires a > 0 && b > 0
    ensures a * b > 0 && x / a / b == x / (a * b)
  {
    var r, s, u := x % a, x / a / b, x / a % b;
    calc {
      x;
      x / a * a + r;
      { assert x / a == s * b + u; }
      (s * b + u) * a + r;
      s * (a * b) + (u * a + r);
    }
    LessMul(u, b, a);
    DivMul(s, a * b, u * a + r);
  }
}
