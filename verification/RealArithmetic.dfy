/** Products and quotients of reals, one step at a time. */
module RealArithmetic {

  lemma NonNegativeProduct(a: real, b: real)
    requires a >= 0.0 && b >= 0.0
    ensures a * b >= 0.0
  {}

  lemma PositiveProduct(a: real, b: real, product: real)
    requires a > 0.0 && b > 0.0 && product == a * b
    ensures product > 0.0
  {}

  lemma SquareIsNonNegative(a: real)
    ensures a * a >= 0.0
  {}

  lemma SquaresGrow(small: real, big: real)
    requires 0.0 <= small <= big
    ensures small * small <= big * big
    ensures small < big ==> small * small < big * big
  {
    var gap := big - small;
    var cross, square := gap * small, gap * gap;
    assert big * big == small * small + 2.0 * cross + square;
    NonNegativeProduct(gap, small);
    if small < big { PositiveProduct(gap, gap, square); }
  }

  lemma SquareBound(a: real, v: real)
    requires v >= 0.0
    ensures a * a <= v * v <==> -v <= a <= v
    ensures a * a < v * v <==> -v < a < v
  {
    var b := if a >= 0.0 then a else -a;
    assert b * b == a * a;
    if b < v { SquaresGrow(b, v); } else { SquaresGrow(v, b); }
  }

  lemma ScaleKeepsOrder(k: real, a: real, b: real)
    requires k > 0.0
    ensures a <= b <==> k * a <= k * b
    ensures a < b <==> k * a < k * b
  {
    assert k * b == k * a + k * (b - a) && k * (b - a) == -(k * (a - b));
    if a < b { PositiveProduct(k, b - a, k * (b - a)); }
    if b < a { PositiveProduct(k, a - b, k * (a - b)); }
  }

  lemma Quotient(a: real, b: real)
    requires a >= 0.0 && b > 0.0
    ensures a / b >= 0.0
  {}

  lemma DivideOut(a: real, b: real, n: real)
    requires n > 0.0
    ensures a * (b / n) == (a / n) * b
  {}

  lemma Cancel(a: real, b: real, k: real)
    requires k > 0.0 && a * k == b * k
    ensures a == b
  {
    assert (a - b) * k == 0.0;
  }
}
