/** Small facts of real arithmetic the solver is better told than asked. */
module Reals {
  lemma MulNonNeg(x: real, y: real)
    requires x >= 0.0 && y >= 0.0
    ensures x * y >= 0.0
  {
  }

  lemma MulPos(x: real, y: real)
    requires x > 0.0 && y > 0.0
    ensures x * y > 0.0
  {
  }

  lemma MulMonotone(c: real, a: real, b: real)
    requires c >= 0.0 && a <= b
    ensures c * a <= c * b
  {
    MulNonNeg(c, b - a);
    assert c * (b - a) == c * b - c * a;
  }

  lemma MulStrict(c: real, a: real, b: real)
    requires c > 0.0 && a < b
    ensures c * a < c * b
  {
    MulPos(c, b - a);
    assert c * (b - a) == c * b - c * a;
  }

  lemma DivMul(a: real, b: real)
    requires b != 0.0
    ensures a / b * b == a
  {
  }

  lemma MulDiv(a: real, b: real)
    requires b != 0.0
    ensures a * b / b == a && b * a / b == a
  {
  }

  lemma DivMonotone(a: real, b: real, c: real)
    requires c > 0.0 && a <= b
    ensures a / c <= b / c
  {
    DivMul(a, c);
    DivMul(b, c);
    var x, y := a / c, b / c;
    if x > y {
      MulStrict(c, y, x);
    }
  }

  lemma DivStrict(a: real, b: real, c: real)
    requires c > 0.0 && a < b
    ensures a / c < b / c
  {
    DivMul(a, c);
    DivMul(b, c);
    var x, y := a / c, b / c;
    if x >= y {
      MulMonotone(c, y, x);
    }
  }
}
