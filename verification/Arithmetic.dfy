/** Small facts about products and quotients of reals that several components share. */
module Arithmetic {

  lemma SignOfProduct(a: real, b: real)
    requires b > 0.0
    ensures a >= 0.0 <==> a * b >= 0.0
    ensures a == 0.0 <==> a * b == 0.0
  {
  }

  lemma NonNegativeProduct(a: real, b: real)
    requires a >= 0.0 && b >= 0.0
    ensures a * b >= 0.0
  {
  }

  lemma ScaledOrder(a: real, b: real, c: real)
    requires a <= b && c > 0.0
    ensures a * c <= b * c
    ensures a * c == b * c <==> a == b
  {
    SignOfProduct(b - a, c);
    assert (b - a) * c == b * c - a * c;
  }

  lemma Quotient(a: real, b: real)
    requires b > 0.0
    ensures a / b * b == a
    ensures a >= 0.0 <==> a / b >= 0.0
    ensures a <= b <==> a / b <= 1.0
    ensures a == b <==> a / b == 1.0
  {
    SignOfProduct(a / b, b);
    SignOfProduct(1.0 - a / b, b);
    assert (1.0 - a / b) * b == b - a;
  }

  lemma QuotientOfProduct(q: real, d: real)
    requires d > 0.0
    ensures q * d / d == q
  {
  }

  function Reciprocal(x: real): (r: real)
    requires x > 0.0
    ensures r * x == 1.0
  {
    Quotient(1.0, x);
    1.0 / x
  }

  lemma ReciprocalsDecrease(x: real, y: real)
    requires 0.0 < x < y
    ensures 0.0 < Reciprocal(y) < Reciprocal(x)
  {
    InversesDecrease(x, y, Reciprocal(x), Reciprocal(y));
  }

  lemma InversesDecrease(x: real, y: real, p: real, q: real)
    requires 0.0 < x < y && p * x == 1.0 && q * y == 1.0
    ensures 0.0 < q < p
  {
    SignOfProduct(q, y);
    assert q > 0.0;
    SignOfProduct(y - x, q);
    assert (y - x) * q == 1.0 - x * q;
    assert (p - q) * x == 1.0 - x * q;
    SignOfProduct(p - q, x);
  }
}
