/**
 Online mean and variance with exponential forgetting, and merging.

 An estimator stands for three moments of its stream: the weights, the weighted samples and the weighted
 squares.  Adding and merging are sums of moments; the mean and the squared deviations follow.
 */
module Welford {
  import Reals

  datatype Estimate = Estimate(n: real, mean: real, m2: real)

  const NONE := Estimate(0.0, 0.0, 0.0)

  function Added(e: Estimate, decay: real, x: real): Estimate {
    var f := Aged(e, decay);
    Absorbed(f.n, f.mean, f.m2, x)
  }

  /** What is left of an estimate when the next sample arrives. */
  function Aged(e: Estimate, decay: real): Estimate {
    if decay < 1.0 && e.n > 0.0 then Estimate(e.n * decay, e.mean, e.m2 * decay) else e
  }

  /** One sample of weight 1 taken into a mass of `k`. */
  function Absorbed(k: real, mean: real, m2: real, x: real): Estimate {
    var n, delta := k + 1.0, x - mean;
    if n == 0.0 then Estimate(n, mean, m2)
    else
      var next := mean + delta / n;
      Estimate(n, next, m2 + delta * (x - next))
  }

  function Merged(e: Estimate, o: Estimate): Estimate {
    if o.n == 0.0 then e
    else if e.n == 0.0 then o
    else
      if e.n + o.n == 0.0 then e
      else
        Estimate(e.n + o.n, e.mean + Shift(e.n, o.n, e.mean, o.mean), e.m2 + (o.m2 + Extra(e.n, o.n, e.mean, o.mean)))
  }

  /** How far the first mean moves towards the second. */
  function Shift(n: real, k: real, p: real, q: real): real
    requires n + k != 0.0
  {
    (q - p) * k / (n + k)
  }

  /** What the distance of the means adds to the squared deviations. */
  function Extra(n: real, k: real, p: real, q: real): real
    requires n + k != 0.0
  {
    (q - p) * (q - p) * n * k / (n + k)
  }

  function Variance(e: Estimate): real {
    if e.n > 1.0 then e.m2 / (e.n - 1.0) else 0.0
  }

  class WelfordEstimator {
    const decay: real
    var n: real
    var mean: real
    var m2: real

    constructor (decay: real)
      ensures State() == NONE && this.decay == decay
    {
      this.decay := decay;
      n, mean, m2 := 0.0, 0.0, 0.0;
    }

    function State(): Estimate
      reads this
    {
      Estimate(n, mean, m2)
    }

    method Add(x: real)
      requires n >= 0.0 && decay > 0.0
      modifies this
      ensures State() == Added(old(State()), decay, x)
    {
      Fade();
      Absorb(x);
    }

    method Fade()
      requires n >= 0.0 && decay > 0.0
      modifies this
      ensures State() == Aged(old(State()), decay) && n >= 0.0
    {
      if decay < 1.0 && n > 0.0 {
        Reals.MulPos(n, decay);
        n := n * decay;
        m2 := m2 * decay;
      }
    }

    method Absorb(x: real)
      requires n >= 0.0
      modifies this
      ensures State() == Absorbed(old(n), old(mean), old(m2), x)
    {
      n := n + 1.0;
      var delta := x - mean;
      mean := mean + delta / n;
      m2 := m2 + delta * (x - mean);
    }

    method Merge(other: WelfordEstimator)
      requires n >= 0.0 && other.n >= 0.0
      modifies this
      ensures State() == Merged(old(State()), old(other.State()))
    {
      if other.n == 0.0 {
        return;
      }
      if n == 0.0 {
        n, mean, m2 := other.n, other.mean, other.m2;
        return;
      }
      var on, om, o2 := other.n, other.mean, other.m2;
      var total := n + on;
      var shift, extra := Shift(n, on, mean, om), Extra(n, on, mean, om);
      mean := mean + shift;
      m2 := m2 + (o2 + extra);
      n := total;
    }

    method Restore(s: Estimate)
      modifies this
      ensures State() == s
    {
      n, mean, m2 := s.n, s.mean, s.m2;
    }
  }

  // ---------------------------------------------------------------- streams

  function Run(decay: real, xs: seq<real>): Estimate {
    if xs == [] then NONE else Added(Run(decay, xs[..|xs| - 1]), decay, xs[|xs| - 1])
  }

  /** Weighted sums of 1, x and x squared. */
  datatype Moments = Moments(mass: real, sum: real, squares: real)

  function Plus(a: Moments, b: Moments): Moments {
    Moments(a.mass + b.mass, a.sum + b.sum, a.squares + b.squares)
  }

  function Mul(c: real, x: real): real {
    c * x
  }

  function Times(c: real, a: Moments): Moments {
    Moments(Mul(c, a.mass), Mul(c, a.sum), Mul(c, a.squares))
  }

  /** One weighted sum: the last term counts once, each earlier one `decay` times what the next counts. */
  function Fold(decay: real, vs: seq<real>): real {
    if vs == [] then 0.0 else Mul(decay, Fold(decay, vs[..|vs| - 1])) + vs[|vs| - 1]
  }

  function Ones(n: nat): (r: seq<real>)
    ensures |r| == n
  {
    seq(n, i => 1.0)
  }

  function Square(x: real): real {
    x * x
  }

  function Squared(xs: seq<real>): (r: seq<real>)
    ensures |r| == |xs|
  {
    seq(|xs|, i requires 0 <= i < |xs| => Square(xs[i]))
  }

  function MomentsOf(decay: real, xs: seq<real>): Moments {
    Moments(Fold(decay, Ones(|xs|)), Fold(decay, xs), Fold(decay, Squared(xs)))
  }

  /** The weighted sum of squared distances to `c`. */
  function Deviations(decay: real, xs: seq<real>, c: real): real {
    if xs == [] then 0.0
    else Mul(decay, Deviations(decay, xs[..|xs| - 1], c)) + Square(xs[|xs| - 1] - c)
  }

  /** The estimate holds the moments: their mass, their mean, and their squares about it. */
  predicate Holds(e: Estimate, m: Moments) {
    if m.mass == 0.0 then e == NONE && m == Moments(0.0, 0.0, 0.0)
    else m.mass > 0.0 && e.n == m.mass && e.n * e.mean == m.sum && e.m2 + e.mean * m.sum == m.squares
  }

  /** Moments determine the estimate. */
  lemma HoldsUnique(e: Estimate, f: Estimate, m: Moments)
    requires Holds(e, m) && Holds(f, m)
    ensures e == f
  {
    if m.mass != 0.0 {
      Reals.MulDiv(e.mean, m.mass);
      Reals.MulDiv(f.mean, m.mass);
    }
  }

  /** The heart of the update: with n = k + 1 and n * next = k * mean + x. */
  lemma UpdateIdentity(k: real, mean: real, x: real, next: real)
    requires (k + 1.0) * next == k * mean + x
    ensures k * mean * mean + x * x == (x - mean) * (x - next) + next * ((k + 1.0) * next)
  {
    assert next * ((k + 1.0) * next) == next * (k * mean) + next * x;
    assert k * mean * mean - next * (k * mean) == mean * (k * mean - k * next);
    assert k * mean - k * next == next - x;
    assert (x - mean) * (x - next) == x * x - x * next - mean * (x - next);
  }

  lemma NextMean(k: real, mean: real, x: real, n: real)
    requires n == k + 1.0 && n > 0.0
    ensures n * (mean + (x - mean) / n) == k * mean + x
  {
    Reals.DivMul(x - mean, n);
    assert n * (mean + (x - mean) / n) == n * mean + (x - mean) / n * n;
  }

  lemma Assemble(k: real, mean: real, m2: real, x: real, next: real, sum: real, squares: real)
    requires (k + 1.0) * next == k * mean + x && k * mean == sum && m2 + mean * sum == squares
    ensures m2 + (x - mean) * (x - next) + next * (sum + x) == squares + x * x
  {
    UpdateIdentity(k, mean, x, next);
    assert mean * sum == k * mean * mean;
  }

  /** The moments with one more sample. */
  function Next(decay: real, m: Moments, x: real): Moments {
    Plus(Times(decay, m), Moments(1.0, x, x * x))
  }

  lemma MomentsNext(decay: real, front: seq<real>, x: real)
    ensures MomentsOf(decay, front + [x]) == Next(decay, MomentsOf(decay, front), x)
  {
    var xs := front + [x];
    assert xs[..|front|] == front && Ones(|xs|)[..|front|] == Ones(|front|) && Squared(xs)[..|front|] == Squared(front);
    assert Squared(xs)[|front|] == x * x;
  }

  lemma AbsorbHolds(k: real, mean: real, m2: real, x: real, sum: real, squares: real)
    requires k >= 0.0 && k * mean == sum && m2 + mean * sum == squares
    ensures Holds(Absorbed(k, mean, m2, x), Moments(k + 1.0, sum + x, squares + x * x))
  {
    var next := mean + (x - mean) / (k + 1.0);
    NextMean(k, mean, x, k + 1.0);
    Assemble(k, mean, m2, x, next, sum, squares);
    JoinedHolds(k + 1.0, next, m2 + (x - mean) * (x - next), Moments(k + 1.0, sum + x, squares + x * x));
  }

  lemma AddHolds(e: Estimate, m: Moments, decay: real, x: real)
    requires Holds(e, m) && 0.0 < decay <= 1.0
    ensures Holds(Added(e, decay, x), Next(decay, m, x))
  {
    if m.mass > 0.0 {
      AddToSome(e, m, decay, x);
    } else {
      assert Times(decay, m) == m;
      AbsorbHolds(0.0, 0.0, 0.0, x, 0.0, 0.0);
    }
  }

  lemma AddToSome(e: Estimate, m: Moments, decay: real, x: real)
    requires Holds(e, m) && m.mass > 0.0 && 0.0 < decay <= 1.0
    ensures Holds(Added(e, decay, x), Next(decay, m, x))
  {
    Reals.MulPos(decay, m.mass);
    Faded(e, m, decay);
    Fades(e, decay);
    AbsorbHolds(decay * e.n, e.mean, decay * e.m2, x, decay * m.sum, decay * m.squares);
  }

  lemma Fades(e: Estimate, decay: real)
    requires e.n > 0.0 && 0.0 < decay <= 1.0
    ensures forall x :: Added(e, decay, x) == Absorbed(decay * e.n, e.mean, decay * e.m2, x)
  {
  }

  lemma Faded(e: Estimate, m: Moments, decay: real)
    requires Holds(e, m) && m.mass > 0.0
    ensures decay * m.mass * e.mean == decay * m.sum
    ensures decay * e.m2 + e.mean * (decay * m.sum) == decay * m.squares
  {
    assert decay * m.mass * e.mean == decay * (m.mass * e.mean);
    assert e.mean * (decay * m.sum) == decay * (e.mean * m.sum);
    assert decay * (e.m2 + e.mean * m.sum) == decay * e.m2 + decay * (e.mean * m.sum);
  }

  lemma {:induction false} MassPositive(decay: real, xs: seq<real>)
    requires 0.0 < decay
    ensures if xs == [] then MomentsOf(decay, xs) == Moments(0.0, 0.0, 0.0) else MomentsOf(decay, xs).mass >= 1.0
  {
    if xs != [] {
      var front := xs[..|xs| - 1];
      var m := MomentsOf(decay, front);
      MassPositive(decay, front);
      assert xs == front + [xs[|xs| - 1]];
      MomentsNext(decay, front, xs[|xs| - 1]);
      Reals.MulNonNeg(decay, m.mass);
    }
  }

  lemma {:induction false} RunHolds(decay: real, xs: seq<real>)
    requires 0.0 < decay <= 1.0
    ensures Holds(Run(decay, xs), MomentsOf(decay, xs))
  {
    if xs != [] {
      var front := xs[..|xs| - 1];
      RunHolds(decay, front);
      AddHolds(Run(decay, front), MomentsOf(decay, front), decay, xs[|xs| - 1]);
      assert xs == front + [xs[|xs| - 1]];
      MomentsNext(decay, front, xs[|xs| - 1]);
    }
  }

  /** The sum of squared distances to a point, in terms of the moments. */
  function Spread(m: Moments, c: real): real {
    m.squares - c * m.sum - c * m.sum + c * c * m.mass
  }

  /** The spread is linear in the moments. */
  lemma SpreadStep(decay: real, m: Moments, x: real, c: real)
    ensures Mul(decay, Spread(m, c)) + Square(x - c) == Spread(Next(decay, m, x), c)
  {
    SpreadAdds(Times(decay, m), Moments(1.0, x, x * x), c);
    SpreadScales(decay, m, c);
    SpreadOfOne(x, c);
  }

  lemma SpreadAdds(m: Moments, o: Moments, c: real)
    ensures Spread(Plus(m, o), c) == Spread(m, c) + Spread(o, c)
  {
    assert c * (m.sum + o.sum) == c * m.sum + c * o.sum;
    assert c * c * (m.mass + o.mass) == c * c * m.mass + c * c * o.mass;
  }

  lemma SpreadScales(decay: real, m: Moments, c: real)
    ensures Spread(Times(decay, m), c) == Mul(decay, Spread(m, c))
  {
    var a, b := c * m.sum, c * c * m.mass;
    assert c * (decay * m.sum) == decay * a;
    assert c * c * (decay * m.mass) == decay * b;
    FourTerms(decay, m.squares, a, b);
  }

  lemma SpreadOfOne(x: real, c: real)
    ensures Spread(Moments(1.0, x, x * x), c) == Square(x - c)
  {
  }

  lemma FourTerms(decay: real, q: real, a: real, b: real)
    ensures decay * (q - a - a + b) == decay * q - decay * a - decay * a + decay * b
  {
  }

  lemma {:induction false} DeviationsFromMoments(decay: real, xs: seq<real>, c: real)
    ensures Deviations(decay, xs, c) == Spread(MomentsOf(decay, xs), c)
  {
    if xs != [] {
      var front, x := xs[..|xs| - 1], xs[|xs| - 1];
      assert xs == front + [x];
      DeviationsFromMoments(decay, front, c);
      MomentsNext(decay, front, x);
      SpreadStep(decay, MomentsOf(decay, front), x, c);
    } else {
      assert Squared([]) == [] && Ones(0) == [];
    }
  }

  lemma SquareNonNegative(d: real)
    ensures d * d >= 0.0
  {
  }

  lemma {:induction false} DeviationsNonNegative(decay: real, xs: seq<real>, c: real)
    requires 0.0 < decay
    ensures Deviations(decay, xs, c) >= 0.0
  {
    if xs != [] {
      var x := xs[|xs| - 1];
      DeviationsNonNegative(decay, xs[..|xs| - 1], c);
      Reals.MulNonNeg(decay, Deviations(decay, xs[..|xs| - 1], c));
      SquareNonNegative(x - c);
    }
  }

  /**
   After any stream the estimate is the weighted mass, the weighted mean and the squared deviations from it,
   never negative.
   */
  lemma {:induction false} OnlineIsBatch(decay: real, xs: seq<real>)
    requires 0.0 < decay <= 1.0
    ensures var e, m := Run(decay, xs), MomentsOf(decay, xs);
            e.n == m.mass && (xs != [] ==> m.mass > 0.0 && e.mean == m.sum / m.mass) &&
            e.m2 == Deviations(decay, xs, e.mean) && e.m2 >= 0.0
  {
    RunHolds(decay, xs);
    MassPositive(decay, xs);
    var e, m := Run(decay, xs), MomentsOf(decay, xs);
    FromHolds(e, m);
    DeviationsFromMoments(decay, xs, e.mean);
    DeviationsNonNegative(decay, xs, e.mean);
    assert e.m2 == Spread(m, e.mean);
  }

  /**
   The variance of a stream: its squared deviations over one less than its mass, as of a sample, and zero while
   the mass is at most one.
   */
  lemma {:induction false} VarianceOfStream(decay: real, xs: seq<real>)
    requires 0.0 < decay <= 1.0
    ensures var e, mass := Run(decay, xs), MomentsOf(decay, xs).mass;
            Variance(e) >= 0.0 &&
            if mass > 1.0 then Variance(e) * (mass - 1.0) == Deviations(decay, xs, e.mean) else Variance(e) == 0.0
  {
    OnlineIsBatch(decay, xs);
    var e := Run(decay, xs);
    if e.n > 1.0 {
      Reals.DivMul(e.m2, e.n - 1.0);
      Reals.DivMonotone(0.0, e.m2, e.n - 1.0);
    }
  }

  lemma FromHolds(e: Estimate, m: Moments)
    requires Holds(e, m)
    ensures e.n == m.mass && (m.mass != 0.0 ==> e.mean == m.sum / m.mass)
    ensures e.m2 == Spread(m, e.mean)
  {
    if m.mass != 0.0 {
      Reals.MulDiv(e.mean, m.mass);
      assert e.mean * e.mean * m.mass == e.mean * m.sum;
    }
  }

  // ---------------------------------------------------------------- merging

  lemma MergeHolds(e: Estimate, f: Estimate, a: Moments, b: Moments)
    requires Holds(e, a) && Holds(f, b)
    ensures Holds(Merged(e, f), Plus(a, b))
  {
    if a.mass > 0.0 && b.mass > 0.0 {
      MergeSome(e, f, a, b);
    }
  }

  lemma MergeSome(e: Estimate, f: Estimate, a: Moments, b: Moments)
    requires Holds(e, a) && Holds(f, b) && a.mass > 0.0 && b.mass > 0.0
    ensures Holds(Merged(e, f), Plus(a, b))
  {
    var n, k, p, q := e.n, f.n, e.mean, f.mean;
    var shift, extra := Shift(n, k, p, q), Extra(n, k, p, q);
    Joined(n, k, p, q, shift, extra, a.sum, b.sum);
    JoinedHolds(n + k, p + shift, e.m2 + (f.m2 + extra), Plus(a, b));
  }

  lemma JoinedHolds(n: real, mean: real, m2: real, m: Moments)
    requires n == m.mass > 0.0 && n * mean == m.sum && m2 + mean * m.sum == m.squares
    ensures Holds(Estimate(n, mean, m2), m)
  {
  }

  lemma Joined(n: real, k: real, p: real, q: real, shift: real, extra: real, a: real, b: real)
    requires n > 0.0 && k > 0.0 && n * p == a && k * q == b
    requires shift == Shift(n, k, p, q) && extra == Extra(n, k, p, q)
    ensures (n + k) * (p + shift) == a + b
    ensures (p + shift) * (a + b) + extra == p * a + q * b
  {
    Reals.DivMul((q - p) * k, n + k);
    Reals.DivMul((q - p) * (q - p) * n * k, n + k);
    MergedMean(n, k, p, q, shift, n + k);
    MergedSquares(n, k, p, q, p + shift, extra, n + k);
  }

  lemma MergedMean(n: real, k: real, p: real, q: real, shift: real, total: real)
    requires total == n + k && shift * total == (q - p) * k
    ensures total * (p + shift) == n * p + k * q
  {
    assert total * (p + shift) == total * p + shift * total;
  }

  /** Chan's formula: what the two means differ by is what the joint spread adds. */
  lemma MergedSquares(n: real, k: real, p: real, q: real, mean: real, extra: real, total: real)
    requires total == n + k && total > 0.0 && total * mean == n * p + k * q &&
             extra * total == (q - p) * (q - p) * n * k
    ensures mean * (n * p + k * q) + extra == p * (n * p) + q * (k * q)
  {
    var s, lhs, rhs := n * p + k * q, mean * (n * p + k * q) + extra, p * (n * p) + q * (k * q);
    assert lhs * total == s * s + extra * total by {
      assert mean * s * total == total * mean * s;
    }
    SquaresIdentity(n, k, p, q);
    Reals.MulDiv(lhs, total);
    Reals.MulDiv(rhs, total);
  }

  lemma SquaresIdentity(n: real, k: real, p: real, q: real)
    ensures (n * p + k * q) * (n * p + k * q) + (q - p) * (q - p) * n * k == (p * (n * p) + q * (k * q)) * (n + k)
  {
    var a, b, c := n * p, k * q, n * k;
    assert (a + b) * (a + b) == a * a + 2.0 * (a * b) + b * b;
    assert a * b == c * (p * q);
    assert (q - p) * (q - p) * n * k == c * (q * q) - 2.0 * (c * (p * q)) + c * (p * p);
    assert (p * a + q * b) * (n + k) == p * a * n + p * a * k + q * b * n + q * b * k;
    assert p * a * n == a * a && q * b * k == b * b && p * a * k == c * (p * p) && q * b * n == c * (q * q);
  }

  function Power(decay: real, k: nat): real {
    if k == 0 then 1.0 else decay * Power(decay, k - 1)
  }

  /** Without forgetting, sums over a concatenation add up. */
  lemma {:induction false} SumConcat(us: seq<real>, vs: seq<real>)
    ensures Fold(1.0, us + vs) == Fold(1.0, us) + Fold(1.0, vs)
  {
    if vs == [] {
      assert us + vs == us;
    } else {
      SumConcat(us, vs[..|vs| - 1]);
      assert (us + vs)[..|us + vs| - 1] == us + vs[..|vs| - 1];
    }
  }

  lemma MomentsConcat(xs: seq<real>, ys: seq<real>)
    ensures MomentsOf(1.0, xs + ys) == Plus(MomentsOf(1.0, xs), MomentsOf(1.0, ys))
  {
    SumConcat(Ones(|xs|), Ones(|ys|));
    SumConcat(xs, ys);
    SumConcat(Squared(xs), Squared(ys));
    assert Ones(|xs + ys|) == Ones(|xs|) + Ones(|ys|) && Squared(xs + ys) == Squared(xs) + Squared(ys);
  }

  /** The mass of `n` samples. */
  function Mass(decay: real, n: nat): real {
    if n == 0 then 0.0 else Mul(decay, Mass(decay, n - 1)) + 1.0
  }

  lemma {:induction false} MassOfOnes(decay: real, n: nat)
    ensures Fold(decay, Ones(n)) == Mass(decay, n)
  {
    if n > 0 {
      MassOfOnes(decay, n - 1);
      assert Ones(n)[..n - 1] == Ones(n - 1);
    }
  }

  /** With forgetting, the earlier samples weigh less for every later one. */
  lemma {:induction false} MassConcat(decay: real, n: nat, k: nat)
    ensures Mass(decay, n + k) == Mul(Power(decay, k), Mass(decay, n)) + Mass(decay, k)
  {
    if k > 0 {
      MassConcat(decay, n, k - 1);
      ConcatStep(decay, Power(decay, k - 1), Power(decay, k), Mass(decay, n), Mass(decay, k - 1),
        Mass(decay, n + k - 1));
    }
  }

  lemma ConcatStep(decay: real, w: real, next: real, a: real, b: real, m: real)
    requires next == decay * w && m == Mul(w, a) + b
    ensures Mul(decay, m) + 1.0 == Mul(next, a) + (Mul(decay, b) + 1.0)
  {
    assert Mul(decay, Mul(w, a) + b) == Mul(decay, Mul(w, a)) + Mul(decay, b);
    assert Mul(decay, Mul(w, a)) == Mul(decay * w, a);
  }

  lemma {:induction false} PowerBelowOne(decay: real, k: nat)
    requires 0.0 < decay <= 1.0
    ensures 0.0 < Power(decay, k) <= 1.0 && (Power(decay, k) == 1.0 <==> decay == 1.0 || k == 0)
  {
    if k > 0 {
      PowerBelowOne(decay, k - 1);
      Reals.MulPos(decay, Power(decay, k - 1));
      Reals.MulMonotone(decay, Power(decay, k - 1), 1.0);
    }
  }

  /**
   Merging the estimators of two streams gives that of their concatenation exactly when nothing is forgotten
   or one is empty.
   */
  lemma {:induction false} MergeIsConcat(decay: real, xs: seq<real>, ys: seq<real>)
    requires 0.0 < decay <= 1.0
    ensures Merged(Run(decay, xs), Run(decay, ys)) == Run(decay, xs + ys) <==> decay == 1.0 || xs == [] || ys == []
  {
    var a, b := MomentsOf(decay, xs), MomentsOf(decay, ys);
    RunHolds(decay, xs);
    RunHolds(decay, ys);
    RunHolds(decay, xs + ys);
    if xs == [] || ys == [] {
      assert xs + ys == if xs == [] then ys else xs;
      MassPositive(decay, xs);
      MassPositive(decay, ys);
      FromHolds(Run(decay, ys), b);
    } else if decay == 1.0 {
      MergeHolds(Run(decay, xs), Run(decay, ys), a, b);
      MomentsConcat(xs, ys);
      HoldsUnique(Merged(Run(decay, xs), Run(decay, ys)), Run(decay, xs + ys), Plus(a, b));
    } else {
      MergeHolds(Run(decay, xs), Run(decay, ys), a, b);
      MassShrinks(decay, xs, ys);
      FromHolds(Merged(Run(decay, xs), Run(decay, ys)), Plus(a, b));
      FromHolds(Run(decay, xs + ys), MomentsOf(decay, xs + ys));
    }
  }

  lemma MassShrinks(decay: real, xs: seq<real>, ys: seq<real>)
    requires 0.0 < decay < 1.0 && xs != [] && ys != []
    ensures MomentsOf(decay, xs + ys).mass < MomentsOf(decay, xs).mass + MomentsOf(decay, ys).mass
  {
    MassPositive(decay, xs);
    MassOfOnes(decay, |xs|);
    MassOfOnes(decay, |ys|);
    MassOfOnes(decay, |xs| + |ys|);
    MassConcat(decay, |xs|, |ys|);
    PowerBelowOne(decay, |ys|);
    Lessened(Power(decay, |ys|), Mass(decay, |xs|));
  }

  lemma Lessened(w: real, x: real)
    requires w < 1.0 && x > 0.0
    ensures Mul(w, x) < x
  {
    Reals.MulStrict(x, w, 1.0);
    assert x * w == w * x;
  }

  /** Estimators of streams merge in any order. */
  lemma {:induction false} MergeCommutes(decay: real, xs: seq<real>, ys: seq<real>)
    requires 0.0 < decay <= 1.0
    ensures Merged(Run(decay, xs), Run(decay, ys)) == Merged(Run(decay, ys), Run(decay, xs))
  {
    var a, b := MomentsOf(decay, xs), MomentsOf(decay, ys);
    RunHolds(decay, xs);
    RunHolds(decay, ys);
    MergeHolds(Run(decay, xs), Run(decay, ys), a, b);
    MergeHolds(Run(decay, ys), Run(decay, xs), b, a);
    HoldsUnique(Merged(Run(decay, xs), Run(decay, ys)), Merged(Run(decay, ys), Run(decay, xs)), Plus(a, b));
  }

  lemma {:induction false} MergeAssociates(decay: real, xs: seq<real>, ys: seq<real>, zs: seq<real>)
    requires 0.0 < decay <= 1.0
    ensures Merged(Merged(Run(decay, xs), Run(decay, ys)), Run(decay, zs)) ==
            Merged(Run(decay, xs), Merged(Run(decay, ys), Run(decay, zs)))
  {
    var a, b, c := MomentsOf(decay, xs), MomentsOf(decay, ys), MomentsOf(decay, zs);
    RunHolds(decay, xs);
    RunHolds(decay, ys);
    RunHolds(decay, zs);
    LeftFirst(Run(decay, xs), Run(decay, ys), Run(decay, zs), a, b, c);
    RightFirst(Run(decay, xs), Run(decay, ys), Run(decay, zs), a, b, c);
    HoldsUnique(Merged(Merged(Run(decay, xs), Run(decay, ys)), Run(decay, zs)),
                Merged(Run(decay, xs), Merged(Run(decay, ys), Run(decay, zs))), Plus(Plus(a, b), c));
  }

  lemma LeftFirst(e: Estimate, f: Estimate, g: Estimate, a: Moments, b: Moments, c: Moments)
    requires Holds(e, a) && Holds(f, b) && Holds(g, c)
    ensures Holds(Merged(Merged(e, f), g), Plus(Plus(a, b), c))
  {
    MergeHolds(e, f, a, b);
    MergeHolds(Merged(e, f), g, Plus(a, b), c);
  }

  lemma RightFirst(e: Estimate, f: Estimate, g: Estimate, a: Moments, b: Moments, c: Moments)
    requires Holds(e, a) && Holds(f, b) && Holds(g, c)
    ensures Holds(Merged(e, Merged(f, g)), Plus(Plus(a, b), c))
  {
    MergeHolds(f, g, b, c);
    MergeHolds(e, Merged(f, g), a, Plus(b, c));
    PlusGroups(a, b, c);
  }

  lemma PlusGroups(a: Moments, b: Moments, c: Moments)
    ensures Plus(a, Plus(b, c)) == Plus(Plus(a, b), c)
  {
  }

  // ---------------------------------------------------------------- the detector

  datatype ZScore = Finite(z: real) | PlusInfinity | MinusInfinity

  datatype Score = Score(value: real, z: ZScore, isAnomaly: bool, mean: real, stddev: real, n: real)

  function Abs(x: real): real {
    if x < 0.0 then -x else x
  }

  /** The score of a value against the statistics of the points before it; `sd` is their standard deviation. */
  function Scored(e: Estimate, warmup: real, threshold: real, sd: real, value: real): Score {
    if e.n >= warmup && sd > 0.0 then
      var z := (value - e.mean) / sd;
      Score(value, Finite(z), Abs(z) > threshold, e.mean, sd, e.n + 1.0)
    else if e.n >= warmup && sd == 0.0 && value != e.mean then
      Score(value, if value > e.mean then PlusInfinity else MinusInfinity, true, e.mean, sd, e.n + 1.0)
    else Score(value, Finite(0.0), false, e.mean, sd, e.n + 1.0)
  }

  class OnlineZScoreDetector {
    const est: WelfordEstimator
    const warmup: real
    const threshold: real

    constructor (decay: real, warmup: real, threshold: real)
      ensures fresh(est) && est.State() == NONE && est.decay == decay && this.warmup == warmup &&
              this.threshold == threshold
    {
      est := new WelfordEstimator(decay);
      this.warmup, this.threshold := warmup, threshold;
    }

    /** Scores first, then folds the point in; `sd` is the square root the program takes. */
    method Update(value: real, sd: real) returns (s: Score)
      requires est.n >= 0.0 && est.decay > 0.0 && sd >= 0.0 && sd * sd == Variance(est.State())
      modifies est
      ensures s == Scored(old(est.State()), warmup, threshold, sd, value)
      ensures est.State() == Added(old(est.State()), est.decay, value)
    {
      var n, mean := est.n, est.mean;
      var z, isAnomaly := Finite(0.0), false;
      if n >= warmup && sd > 0.0 {
        z := Finite((value - mean) / sd);
        isAnomaly := Abs(z.z) > threshold;
      } else if n >= warmup && sd == 0.0 && value != mean {
        z := if value > mean then PlusInfinity else MinusInfinity;
        isAnomaly := true;
      }
      est.Add(value);
      s := Score(value, z, isAnomaly, mean, sd, n + 1.0);
    }

    /** Scores as `Update` would and leaves the statistics as they were. */
    method Peek(value: real, sd: real) returns (s: Score)
      requires est.n >= 0.0 && est.decay > 0.0 && sd >= 0.0 && sd * sd == Variance(est.State())
      modifies est
      ensures s == Scored(old(est.State()), warmup, threshold, sd, value)
      ensures est.State() == old(est.State())
    {
      var snapshot := Estimate(est.n, est.mean, est.m2);
      s := Update(value, sd);
      est.Restore(snapshot);
    }
  }

  /**
   What a score says besides the flag: once warm, z standard deviations lead from the mean to the value; where
   there is no deviation a value off the mean is infinitely far on its side; and else z is zero.
   */
  lemma ScoreTells(e: Estimate, warmup: real, threshold: real, sd: real, value: real)
    requires sd >= 0.0
    ensures var s := Scored(e, warmup, threshold, sd, value);
            s.value == value && s.mean == e.mean && s.stddev == sd &&
            match s.z
            case PlusInfinity => e.n >= warmup && sd == 0.0 && value > e.mean
            case MinusInfinity => e.n >= warmup && sd == 0.0 && value < e.mean
            case Finite(z) => if e.n >= warmup then e.mean + z * sd == value else z == 0.0
  {
    if e.n >= warmup && sd > 0.0 {
      Reals.DivMul(value - e.mean, sd);
    }
  }

  lemma {:induction false} MassAtMost(decay: real, xs: seq<real>)
    requires 0.0 < decay <= 1.0
    ensures var mass := MomentsOf(decay, xs).mass;
            mass <= |xs| as real && (mass == |xs| as real <==> decay == 1.0 || |xs| <= 1)
  {
    if xs != [] {
      var front := xs[..|xs| - 1];
      MassAtMost(decay, front);
      MassPositive(decay, front);
      PartOf(decay, MomentsOf(decay, front).mass);
      MassNext(decay, xs);
    }
  }

  lemma MassNext(decay: real, xs: seq<real>)
    requires 0.0 < decay && xs != []
    ensures MomentsOf(decay, xs).mass == Mul(decay, MomentsOf(decay, xs[..|xs| - 1]).mass) + 1.0
  {
    var front := xs[..|xs| - 1];
    assert xs == front + [xs[|xs| - 1]];
    MomentsNext(decay, front, xs[|xs| - 1]);
  }

  lemma PartOf(decay: real, k: real)
    requires 0.0 < decay <= 1.0 && k >= 0.0
    ensures Mul(decay, k) <= k && (Mul(decay, k) == k <==> decay == 1.0 || k == 0.0)
  {
    if k == 0.0 {
      assert decay * 0.0 == 0.0;
    }
    if k > 0.0 && decay < 1.0 {
      Reals.MulStrict(k, decay, 1.0);
    }
  }

  /** The count in a score is the number of samples, this one included, exactly without decay or for the first two. */
  lemma {:induction false} CountIsSamplesExactly(
    decay: real, xs: seq<real>, warmup: real, threshold: real, sd: real, value: real)
    requires 0.0 < decay <= 1.0
    ensures Scored(Run(decay, xs), warmup, threshold, sd, value).n <= (|xs| + 1) as real
    ensures Scored(Run(decay, xs), warmup, threshold, sd, value).n == (|xs| + 1) as real <==>
            decay == 1.0 || |xs| <= 1
  {
    OnlineIsBatch(decay, xs);
    MassAtMost(decay, xs);
  }

  /**
   A warmed-up detector flags exactly the points whose squared deviation exceeds the squared threshold times
   the variance, or any deviation at all where there was none.
   */
  lemma FlagsOutliers(e: Estimate, warmup: real, threshold: real, sd: real, value: real)
    requires sd >= 0.0 && sd * sd == Variance(e) && threshold >= 0.0
    ensures Scored(e, warmup, threshold, sd, value).isAnomaly <==>
            e.n >= warmup && var d := value - e.mean;
              if sd > 0.0 then d * d > threshold * threshold * (sd * sd) else d != 0.0
  {
    if sd > 0.0 {
      RatioAgainst(value - e.mean, sd, threshold);
    }
  }

  lemma RatioAgainst(d: real, sd: real, threshold: real)
    requires sd > 0.0 && threshold >= 0.0
    ensures Abs(d / sd) > threshold <==> d * d > threshold * threshold * (sd * sd)
  {
    Reals.DivMul(d, sd);
    var z := Abs(d / sd);
    assert z * sd == Abs(d);
    assert Abs(d) * Abs(d) == d * d;
    assert threshold * sd * (threshold * sd) == threshold * threshold * (sd * sd);
    Reals.MulNonNeg(threshold, sd);
    SquareOrder(Abs(d), threshold * sd);
    if z > threshold {
      Reals.MulStrict(sd, threshold, z);
    } else {
      Reals.MulMonotone(sd, z, threshold);
    }
  }

  lemma SquareOrder(x: real, y: real)
    requires x >= 0.0 && y >= 0.0
    ensures x > y <==> x * x > y * y
  {
    assert x * x - y * y == (x - y) * (x + y);
    if x > y {
      Reals.MulPos(x - y, x + y);
    } else {
      Reals.MulNonNeg(y - x, x + y);
      assert (y - x) * (x + y) == -((x - y) * (x + y));
    }
  }

  // ---------------------------------------------------------------- warming up

  /** The mass falls short of its bound 1 / (1 - decay) by what is left of the first sample. */
  lemma {:induction false} MassClosed(decay: real, n: nat)
    ensures Mass(decay, n) - Mul(decay, Mass(decay, n)) == 1.0 - Power(decay, n)
  {
    if n > 0 {
      MassClosed(decay, n - 1);
      ClosedStep(decay, Mass(decay, n - 1), Power(decay, n - 1));
    }
  }

  lemma ClosedStep(decay: real, m: real, w: real)
    requires m - Mul(decay, m) == 1.0 - w
    ensures Mul(decay, m) + 1.0 - Mul(decay, Mul(decay, m) + 1.0) == 1.0 - decay * w
  {
    var d := Mul(decay, m);
    assert Mul(decay, d + 1.0) == Mul(decay, d) + decay;
    assert Mul(decay, m - d) == Mul(decay, m) - Mul(decay, d);
    assert Mul(decay, 1.0 - w) == decay - decay * w;
  }

  /** By Bernoulli's inequality powers of a proper decay go to zero. */
  lemma {:induction false} PowerFalls(decay: real, gain: real, n: nat)
    requires 0.0 < decay < 1.0 && gain > 0.0 && Mul(decay, 1.0 + gain) == 1.0
    ensures Power(decay, n) > 0.0 && Mul(Power(decay, n), 1.0 + Mul(gain, n as real)) <= 1.0
  {
    if n > 0 {
      PowerFalls(decay, gain, n - 1);
      FallStep(decay, gain, Power(decay, n - 1), (n - 1) as real);
    }
  }

  lemma FallStep(decay: real, gain: real, w: real, n: real)
    requires 0.0 < decay < 1.0 && gain > 0.0 && Mul(decay, 1.0 + gain) == 1.0 && n >= 0.0
    requires w > 0.0 && Mul(w, 1.0 + Mul(gain, n)) <= 1.0
    ensures decay * w > 0.0 && Mul(decay * w, 1.0 + Mul(gain, n + 1.0)) <= 1.0
  {
    var g := Mul(gain, n);
    Reals.MulPos(decay, w);
    Reals.MulNonNeg(gain, n);
    assert Mul(gain, n + 1.0) == g + gain;
    FactorOut(decay, gain, w, g);
    Reals.MulMonotone(g, decay, 1.0);
    Reals.MulMonotone(w, 1.0 + decay * g, 1.0 + g);
  }

  lemma FactorOut(decay: real, gain: real, w: real, g: real)
    requires Mul(decay, 1.0 + gain) == 1.0
    ensures Mul(decay * w, 1.0 + (g + gain)) == w * (1.0 + decay * g)
  {
    assert Mul(decay * w, 1.0 + (g + gain)) == w * (decay * (1.0 + gain) + decay * g);
  }

  lemma SomePowerIsBelow(decay: real, eps: real) returns (n: nat)
    requires 0.0 < decay < 1.0 && eps > 0.0
    ensures Power(decay, n) <= eps
  {
    var gain := 1.0 / decay - 1.0;
    Reals.DivMul(1.0, decay);
    Reals.DivStrict(decay, 1.0, decay);
    assert decay / decay == 1.0;
    assert Mul(decay, 1.0 + gain) == 1.0;
    var enough := 1.0 / eps / gain;
    n := if enough < 0.0 then 0 else enough.Floor + 1;
    PowerFalls(decay, gain, n);
    SmallFactor(Power(decay, n), eps, gain, n as real, enough);
  }

  lemma SmallFactor(w: real, eps: real, gain: real, n: real, enough: real)
    requires w > 0.0 && eps > 0.0 && gain > 0.0 && n >= enough && n >= 0.0 && enough == 1.0 / eps / gain
    requires Mul(w, 1.0 + Mul(gain, n)) <= 1.0
    ensures w <= eps
  {
    Reals.DivMul(1.0 / eps, gain);
    Reals.DivMul(1.0, eps);
    Reals.MulMonotone(gain, enough, n);
    var big := 1.0 + Mul(gain, n);
    assert big >= 1.0 / eps;
    Reals.MulMonotone(eps, 1.0 / eps, big);
    if w > eps {
      Reals.MulPos(1.0, eps);
      Reals.MulStrict(big, eps, w);
    }
  }

  lemma {:induction false} MassWithoutDecay(n: nat)
    ensures Mass(1.0, n) == n as real
  {
    if n > 0 {
      MassWithoutDecay(n - 1);
    }
  }

  lemma MassOfRun(decay: real, xs: seq<real>)
    requires 0.0 < decay <= 1.0
    ensures Run(decay, xs).n == Mass(decay, |xs|)
  {
    OnlineIsBatch(decay, xs);
    MassOfOnes(decay, |xs|);
  }

  lemma MassReaches(decay: real, warmup: real, n: nat)
    requires 0.0 < decay < 1.0
    ensures Mass(decay, n) >= warmup <==> Power(decay, n) <= 1.0 - Mul(1.0 - decay, warmup)
  {
    MassClosed(decay, n);
    assert Mass(decay, n) - Mul(decay, Mass(decay, n)) == Mul(1.0 - decay, Mass(decay, n));
    SameSide(1.0 - decay, Mass(decay, n), warmup);
  }

  lemma SameSide(c: real, x: real, y: real)
    requires c > 0.0
    ensures x >= y <==> Mul(c, x) >= Mul(c, y)
  {
    if x >= y {
      Reals.MulMonotone(c, y, x);
    } else {
      Reals.MulStrict(c, x, y);
    }
  }

  /**
   A detector warms up after some number of samples exactly when nothing is forgotten or the warm-up lies below
   the bound of the mass.
   */
  lemma WarmsUpExactly(decay: real, warmup: real)
    requires 0.0 < decay <= 1.0
    ensures (exists xs: seq<real> :: Run(decay, xs).n >= warmup) <==>
            decay == 1.0 || Mul(1.0 - decay, warmup) < 1.0
  {
    if decay == 1.0 {
      var n: nat := if warmup < 0.0 then 0 else warmup.Floor + 1;
      MassWithoutDecay(n);
      MassOfRun(decay, Ones(n));
      assert Run(decay, Ones(n)).n >= warmup;
    } else if Mul(1.0 - decay, warmup) < 1.0 {
      var n := SomePowerIsBelow(decay, 1.0 - Mul(1.0 - decay, warmup));
      MassReaches(decay, warmup, n);
      MassOfRun(decay, Ones(n));
      assert Run(decay, Ones(n)).n >= warmup;
    } else {
      forall xs: seq<real> ensures Run(decay, xs).n < warmup {
        MassOfRun(decay, xs);
        MassReaches(decay, warmup, |xs|);
        PowerBelowOne(decay, |xs|);
      }
    }
  }
}
