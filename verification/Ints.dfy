/** Small facts of integer division the solver is better told than asked. */
module Ints {
  lemma MulAtLeast(d: int, s: int)
    requires d >= 1 && s > 0
    ensures d * s >= s
  {
    assert (d - 1) * s >= 0;
  }

  lemma MulLess(a: int, b: int, s: int)
    requires s > 0 && a * s < b * s
    ensures a < b
  {
    if a >= b {
      MulMonotone(b, a, s);
    }
  }

  lemma MulMonotone(a: int, b: int, s: int)
    requires s > 0 && a <= b
    ensures a * s <= b * s
  {
    assert (b - a) * s >= 0;
  }

  lemma DivMod(x: int, s: int)
    requires s > 0
    ensures x == x / s * s + x % s && 0 <= x % s < s
  {
  }

  lemma DivUnique(x: int, q: int, s: int, r: int)
    requires s > 0 && x == q * s + r && 0 <= r < s
    ensures x / s == q && x % s == r
  {
    DivMod(x, s);
    var d := q - x / s;
    assert d * s == x % s - r;
    if d >= 1 {
      MulAtLeast(d, s);
    } else if d <= -1 {
      MulMonotone(d, -1, s);
    }
  }

  /** Different numbers with the same remainder are at least the divisor apart. */
  lemma SameRemainder(i: int, j: int, s: int)
    requires s > 0 && i < j && i % s == j % s
    ensures j >= i + s
  {
    DivMod(i, s);
    DivMod(j, s);
    var m := j / s - i / s;
    assert j - i == m * s;
    if m <= 0 {
      MulMonotone(m, 0, s);
    } else {
      MulAtLeast(m, s);
    }
  }
}
