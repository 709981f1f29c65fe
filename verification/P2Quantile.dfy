/**
 The P-squared quantile estimator: five markers whose heights approximate quantiles of a stream that is
 not kept.  `Run` is the estimator over a whole stream; what is proved of it holds after every sample.
 */
module P2Quantile {
  import opened Prelude
  import Reals

  /** `q` heights, `n` positions, `np` desired positions; before the fifth sample only `init` is used. */
  datatype Markers = Markers(q: seq<real>, n: seq<int>, np: seq<real>, init: seq<real>)

  function Increments(p: real): (r: seq<real>)
    ensures |r| == 5
  {
    [0.0, p / 2.0, p, (1.0 + p) / 2.0, 1.0]
  }

  function Start(p: real): Markers {
    Markers([], [], [1.0, 1.0 + 2.0 * p, 1.0 + 4.0 * p, 3.0 + 2.0 * p, 5.0], [])
  }

  function Inserted(s: seq<real>, x: real): seq<real> {
    if s == [] || x < s[0] then [x] + s else [s[0]] + Inserted(s[1..], x)
  }

  function Sorted(s: seq<real>): seq<real> {
    if s == [] then [] else Inserted(Sorted(s[..|s| - 1]), s[|s| - 1])
  }

  predicate Ascending(s: seq<real>) {
    forall i, j :: 0 <= i < j < |s| ==> s[i] <= s[j]
  }

  predicate Increasing(n: seq<int>) {
    forall i, j :: 0 <= i < j < |n| ==> n[i] < n[j]
  }

  /** Five markers in order. */
  predicate Shaped(m: Markers) {
    |m.q| == 5 && |m.n| == 5 && |m.np| == 5 && Ascending(m.q) && Increasing(m.n)
  }

  /** The cell of a sample, and the heights with the extremes widened to it. */
  function CellOf(q: seq<real>, x: real): nat
    requires |q| == 5
  {
    if x < q[1] then 0 else if x < q[2] then 1 else if x < q[3] then 2 else 3
  }

  function Widened(q: seq<real>, x: real): seq<real>
    requires |q| == 5
  {
    if x < q[0] then q[0 := x] else if x > q[4] then q[4 := x] else q
  }

  function Weighted(w: real, x: real, y: real): real {
    w * (x + y)
  }

  function CurveStep(up: real, down: real, x: real, y: real, d: real): real
    requires x > 0.0 && y > 0.0
  {
    Weighted(d / (x + y), Part(x + d, up, y), Part(y - d, down, x))
  }

  function Part(c: real, gap: real, y: real): real
    requires y != 0.0
  {
    c * gap / y
  }

  /** The parabolic prediction for a marker `a` places after the one before it and `b` before the next, moved by `d`. */
  function Curve(before: real, here: real, next: real, a: int, b: int, d: real): real
    requires a > 0 && b > 0
  {
    here + CurveStep(next - here, here - before, a as real, b as real, d)
  }

  function Line(here: real, there: real, gap: int, d: int): real
    requires gap != 0
  {
    here + Part(d as real, there - here, gap as real)
  }

  /** Which way marker `i` is to move: towards its desired position, if there is room. */
  function Move(m: Markers, i: nat): int
    requires Shaped(m) && 1 <= i <= 3
  {
    var d := m.np[i] - m.n[i] as real;
    if d >= 1.0 && m.n[i + 1] - m.n[i] > 1 then 1
    else if d <= -1.0 && m.n[i - 1] - m.n[i] < -1 then -1
    else 0
  }

  /** The new height of a marker that moves: the parabola's, if it stays between its neighbours, else the line's. */
  function Height(m: Markers, i: nat, d: int): real
    requires Shaped(m) && 1 <= i <= 3 && (d == 1 || d == -1)
  {
    var guess := Curve(m.q[i - 1], m.q[i], m.q[i + 1], m.n[i] - m.n[i - 1], m.n[i + 1] - m.n[i], d as real);
    if m.q[i - 1] < guess < m.q[i + 1] then guess else Line(m.q[i], m.q[i + d], m.n[i + d] - m.n[i], d)
  }

  function Adjusted(m: Markers, i: nat): Markers
    requires Shaped(m) && 1 <= i <= 3
  {
    var d := Move(m, i);
    if d == 0 then m else m.(q := m.q[i := Height(m, i, d)], n := m.n[i := m.n[i] + d])
  }

  /** Markers 1 to `i` adjusted, one after the other. */
  function AdjustedTo(m: Markers, i: nat): (r: Markers)
    requires Shaped(m) && i <= 3
    ensures Shaped(r) && r.q[0] == m.q[0] && r.q[4] == m.q[4] && r.n[0] == m.n[0] && r.n[4] == m.n[4]
    ensures r.np == m.np && r.init == m.init
  {
    if i == 0 then m
    else
      var before := AdjustedTo(m, i - 1);
      AdjustKeepsShape(before, i);
      Adjusted(before, i)
  }

  /** A marker moved along the line stays between the two heights. */
  lemma LineIsBetween(here: real, there: real, gap: int, d: int)
    requires (d == 1 && gap >= 1) || (d == -1 && gap <= -1)
    ensures here <= there ==> here <= Line(here, there, gap, d) <= there
    ensures here >= there ==> here >= Line(here, there, gap, d) >= there
  {
    var g, w := (gap * d) as real, there - here;
    assert d as real * w / gap as real == w / g by {
      if d == -1 {
        assert gap as real == -g && -1.0 * w == -w;
        NegatedQuotient(w, g);
      } else {
        assert 1.0 * w == w;
      }
    }
    Fraction(w, g);
  }

  lemma NegatedQuotient(w: real, g: real)
    requires g > 0.0
    ensures (-w) / (-g) == w / g
  {
    Reals.DivMul(w, g);
    var x := w / g;
    assert x * -g == -w;
    Reals.MulDiv(x, -g);
  }

  lemma Fraction(w: real, g: real)
    requires g >= 1.0
    ensures w >= 0.0 ==> 0.0 <= w / g <= w
    ensures w <= 0.0 ==> w <= w / g <= 0.0
  {
    Reals.DivMul(w, g);
    var x := w / g;
    if w >= 0.0 {
      if x < 0.0 { Reals.MulPos(-x, g); }
      if x > w { Reals.MulStrict(g, w, x); Reals.MulMonotone(w, 1.0, g); }
    }
    if w <= 0.0 {
      if x > 0.0 { Reals.MulPos(x, g); }
      if x < w { Reals.MulStrict(g, x, w); Reals.MulMonotone(-w, 1.0, g); }
    }
  }

  lemma AdjustKeepsShape(m: Markers, i: nat)
    requires Shaped(m) && 1 <= i <= 3
    ensures Shaped(Adjusted(m, i))
  {
    var d := Move(m, i);
    if d != 0 {
      LineIsBetween(m.q[i], m.q[i + d], m.n[i + d] - m.n[i], d);
      var h := Height(m, i, d);
      assert m.q[i - 1] <= h <= m.q[i + 1];
      SetKeepsAscending(m.q, i, h);
      assert m.n[i - 1] < m.n[i] + d < m.n[i + 1];
      SetKeepsIncreasing(m.n, i, m.n[i] + d);
    }
  }

  lemma SetKeepsAscending(q: seq<real>, i: nat, h: real)
    requires Ascending(q) && 1 <= i < |q| - 1 && q[i - 1] <= h <= q[i + 1]
    ensures Ascending(q[i := h])
  {
  }

  lemma SetKeepsIncreasing(n: seq<int>, i: nat, x: int)
    requires Increasing(n) && 1 <= i < |n| - 1 && n[i - 1] < x < n[i + 1]
    ensures Increasing(n[i := x])
  {
  }

  function Moved(np: seq<real>, dn: seq<real>): seq<real>
    requires |np| == |dn| == 5
  {
    seq(5, i requires 0 <= i < 5 => np[i] + dn[i])
  }

  /** The markers after a sample that is not among the first five, before any is adjusted. */
  function Counted(p: real, m: Markers, x: real): Markers
    requires |m.q| == 5 && |m.n| == 5 && |m.np| == 5
  {
    var k := CellOf(m.q, x);
    Markers(Widened(m.q, x),
            seq(5, i requires 0 <= i < 5 => if i > k then m.n[i] + 1 else m.n[i]),
            Moved(m.np, Increments(p)), m.init)
  }

  lemma CountedKeepsShape(p: real, m: Markers, x: real)
    requires Shaped(m)
    ensures Shaped(Counted(p, m, x))
  {
  }

  /** One sample; markers that were never in shape stay as they are. */
  function Next(p: real, m: Markers, x: real): Markers {
    if m.q == [] then
      var init := m.init + [x];
      if |init| == 5 then Markers(Sorted(init), [1, 2, 3, 4, 5], m.np, []) else m.(init := init)
    else if Shaped(m) then
      CountedKeepsShape(p, m, x);
      AdjustedTo(Counted(p, m, x), 3)
    else m
  }

  function Run(p: real, xs: seq<real>): Markers {
    if xs == [] then Start(p) else Next(p, Run(p, xs[..|xs| - 1]), xs[|xs| - 1])
  }

  class P2Quantile {
    const p: real
    var q: seq<real>
    var n: seq<int>
    var np: seq<real>
    const dn: seq<real>
    var init: seq<real>

    /** The caller has been refused a quantile outside (0, 1). */
    constructor (p: real)
      requires 0.0 < p < 1.0
      ensures Valid() && State() == Start(p) && this.p == p
    {
      this.p := p;
      q, n, init := [], [], [];
      np := [1.0, 1.0 + 2.0 * p, 1.0 + 4.0 * p, 3.0 + 2.0 * p, 5.0];
      dn := [0.0, p / 2.0, p, (1.0 + p) / 2.0, 1.0];
    }

    function State(): Markers
      reads this
    {
      Markers(q, n, np, init)
    }

    predicate Valid()
      reads this
    {
      dn == Increments(p) && |np| == 5 && (if q == [] then |init| < 5 else Shaped(State()))
    }

    method Add(x: real)
      requires Valid()
      modifies this
      ensures Valid() && State() == Next(p, old(State()), x)
    {
      if q == [] {
        init := init + [x];
        if |init| == 5 {
          SortedEnds(init);
          q := Sorted(init);
          n := [1, 2, 3, 4, 5];
          init := [];
        }
        return;
      }
      CountedKeepsShape(p, State(), x);
      Place(x);
      ghost var counted := State();
      var i := 1;
      while i <= 3
        invariant 1 <= i <= 4 && State() == AdjustedTo(counted, i - 1)
      {
        AdjustMarker(i);
        i := i + 1;
      }
    }

    /** Finds the sample's cell, widens the extremes, and moves the positions along. */
    method Place(x: real)
      requires Valid() && q != []
      modifies this`q, this`n, this`np
      ensures State() == Counted(p, old(State()), x)
    {
      ghost var before := State();
      var k := 3;
      if x < q[0] {
        q := q[0 := x];
        k := 0;
      } else if x < q[1] {
        k := 0;
      } else if x < q[2] {
        k := 1;
      } else if x < q[3] {
        k := 2;
      } else if x > q[4] {
        q := q[4 := x];
      }
      var i := k + 1;
      while i < 5
        invariant k + 1 <= i <= 5 && |n| == 5 && q == Widened(before.q, x) && np == before.np
        invariant forall j :: 0 <= j < 5 ==> n[j] == if k < j < i then before.n[j] + 1 else before.n[j]
      {
        n := n[i := n[i] + 1];
        i := i + 1;
      }
      assert n == Counted(p, before, x).n;
      i := 0;
      while i < 5
        invariant 0 <= i <= 5 && |np| == 5 && q == Widened(before.q, x) && n == Counted(p, before, x).n
        invariant forall j :: 0 <= j < 5 ==> np[j] == if j < i then before.np[j] + dn[j] else before.np[j]
      {
        np := np[i := np[i] + dn[i]];
        i := i + 1;
      }
      assert np == Counted(p, before, x).np;
    }

    method AdjustMarker(i: nat)
      requires Shaped(State()) && 1 <= i <= 3
      modifies this`q, this`n
      ensures State() == Adjusted(old(State()), i)
    {
      var d := np[i] - n[i] as real;
      if (d >= 1.0 && n[i + 1] - n[i] > 1) || (d <= -1.0 && n[i - 1] - n[i] < -1) {
        var sign := if d >= 1.0 then 1 else -1;
        var guess := Curve(q[i - 1], q[i], q[i + 1], n[i] - n[i - 1], n[i + 1] - n[i], sign as real);
        if q[i - 1] < guess && guess < q[i + 1] {
          q := q[i := guess];
        } else {
          q := q[i := Line(q[i], q[i + sign], n[i + sign] - n[i], sign)];
        }
        n := n[i := n[i] + sign];
      }
    }

    /** None is NaN. */
    function Value(): Option<real>
      requires Valid()
      reads this
    {
      if q == [] then None else Some(q[2])
    }

    function Count(): int
      requires Valid()
      reads this
    {
      CountOf(State())
    }
  }

  // ---------------------------------------------------------------- what the markers mean

  predicate Least(v: real, xs: seq<real>) {
    v in xs && forall x :: x in xs ==> v <= x
  }

  predicate Greatest(v: real, xs: seq<real>) {
    v in xs && forall x :: x in xs ==> x <= v
  }

  /** The marker invariant after the stream `xs`. */
  predicate Marks(p: real, m: Markers, xs: seq<real>) {
    if |xs| < 5 then m.q == [] && m.init == xs && m.np == Start(p).np
    else
      Shaped(m) && m.init == [] && m.n[0] == 1 && m.n[4] == |xs| && Least(m.q[0], xs) && Greatest(m.q[4], xs) &&
      OnTarget(p, m.np, |xs|)
  }

  /** The desired positions after `n` samples. */
  predicate OnTarget(p: real, np: seq<real>, n: nat) {
    |np| == 5 && forall i :: 0 <= i < 5 ==> np[i] == 1.0 + (n - 1) as real * Increments(p)[i]
  }

  lemma TargetMoves(p: real, np: seq<real>, n: nat)
    requires OnTarget(p, np, n)
    ensures OnTarget(p, Moved(np, Increments(p)), n + 1)
  {
    forall i | 0 <= i < 5 ensures Moved(np, Increments(p))[i] == 1.0 + n as real * Increments(p)[i] {
      DesiredMove((n - 1) as real, Increments(p)[i]);
    }
  }

  lemma {:induction false} InsertedHas(s: seq<real>, x: real)
    ensures |Inserted(s, x)| == |s| + 1 && forall y :: y in Inserted(s, x) <==> y in s || y == x
  {
    if s != [] && x >= s[0] {
      InsertedHas(s[1..], x);
      assert s == [s[0]] + s[1..];
    }
  }

  lemma {:induction false} InsertedAscends(s: seq<real>, x: real)
    requires Ascending(s)
    ensures Ascending(Inserted(s, x))
  {
    if s != [] && x >= s[0] {
      var t := Inserted(s[1..], x);
      InsertedAscends(s[1..], x);
      InsertedHas(s[1..], x);
      forall j | 0 <= j < |t| ensures s[0] <= t[j] {
        assert t[j] in t;
      }
    }
  }

  lemma {:induction false} SortedSorts(s: seq<real>)
    ensures Ascending(Sorted(s)) && |Sorted(s)| == |s| && forall y :: y in Sorted(s) <==> y in s
  {
    if s != [] {
      var front, x := s[..|s| - 1], s[|s| - 1];
      SortedSorts(front);
      InsertedAscends(Sorted(front), x);
      InsertedHas(Sorted(front), x);
      assert s == front + [x];
    }
  }

  lemma {:induction false} SortedEnds(s: seq<real>)
    requires s != []
    ensures |Sorted(s)| == |s| && Ascending(Sorted(s)) && Least(Sorted(s)[0], s) && Greatest(Sorted(s)[|s| - 1], s)
  {
    SortedSorts(s);
    AscendingEnds(Sorted(s));
  }

  lemma AscendingEnds(t: seq<real>)
    requires t != [] && Ascending(t)
    ensures forall x :: x in t ==> t[0] <= x <= t[|t| - 1]
  {
  }

  lemma DesiredMove(n: real, dn: real)
    ensures 1.0 + n * dn + dn == 1.0 + (n + 1.0) * dn
  {
  }

  /**
   Positions count samples and increase strictly, the outer heights are the extremes, heights ascend, desired
   positions are exact.
   */
  lemma {:induction false} MarkersHold(p: real, xs: seq<real>)
    ensures Marks(p, Run(p, xs), xs)
  {
    if xs != [] {
      var front, x := xs[..|xs| - 1], xs[|xs| - 1];
      MarkersHold(p, front);
      var m := Run(p, front);
      assert xs == front + [x];
      if |xs| == 5 {
        FifthSample(p, m, front, x);
      } else if |xs| > 5 {
        LaterSample(p, m, front, x);
      }
    }
  }

  lemma FifthSample(p: real, m: Markers, front: seq<real>, x: real)
    requires |front| == 4 && Marks(p, m, front)
    ensures Marks(p, Next(p, m, x), front + [x])
  {
    SortedEnds(front + [x]);
    FirstDesired(p);
  }

  lemma LaterSample(p: real, m: Markers, front: seq<real>, x: real)
    requires |front| >= 5 && Marks(p, m, front)
    ensures Marks(p, Next(p, m, x), front + [x])
  {
    CountedKeepsShape(p, m, x);
    var c := Counted(p, m, x);
    WidenedEnds(m.q, front, x);
    TargetMoves(p, m.np, |front|);
  }

  lemma FirstDesired(p: real)
    ensures forall i :: 0 <= i < 5 ==> Start(p).np[i] == 1.0 + 4.0 * Increments(p)[i]
  {
  }

  lemma WidenedEnds(q: seq<real>, front: seq<real>, x: real)
    requires |q| == 5 && Ascending(q) && Least(q[0], front) && Greatest(q[4], front)
    ensures Least(Widened(q, x)[0], front + [x]) && Greatest(Widened(q, x)[4], front + [x])
  {
    assert forall y :: y in front + [x] <==> y in front || y == x;
  }

  /**
   The estimate lies between the smallest and the largest sample, from the fifth on; before that there is
   none, and the count says 0.
   */
  lemma {:induction false} EstimateIsBounded(p: real, xs: seq<real>)
    ensures var m := Run(p, xs);
            if |xs| < 5 then m.q == []
            else |m.q| == 5 && |m.n| == 5 && m.n[4] == |xs| &&
                 exists lo, hi :: Least(lo, xs) && Greatest(hi, xs) && lo <= m.q[2] <= hi
  {
    MarkersHold(p, xs);
    var m := Run(p, xs);
    if |xs| >= 5 {
      assert Least(m.q[0], xs) && Greatest(m.q[4], xs) && m.q[0] <= m.q[2] <= m.q[4];
    }
  }

  /** The reported count as the program computes it. */
  function CountOf(m: Markers): int
    requires m.q != [] ==> |m.n| == 5
  {
    |m.init| + (if m.q != [] then m.n[4] else 0) - (if |m.init| <= 5 then |m.init| else 5)
  }

  /** The count stays at 0 for the first four samples and is right from the fifth on. */
  lemma {:induction false} CountStartsAtFive(p: real, xs: seq<real>)
    ensures Run(p, xs).q != [] ==> |Run(p, xs).n| == 5
    ensures CountOf(Run(p, xs)) == if |xs| < 5 then 0 else |xs|
  {
    MarkersHold(p, xs);
  }

  /** The parabola of the prediction goes through the marker and both its neighbours. */
  lemma CurveInterpolates(before: real, here: real, next: real, a: int, b: int)
    requires a > 0 && b > 0
    ensures Curve(before, here, next, a, b, 0.0) == here
    ensures Curve(before, here, next, a, b, -(a as real)) == before
    ensures Curve(before, here, next, a, b, b as real) == next
  {
    var x, y := a as real, b as real;
    assert 0.0 / (x + y) == 0.0;
    AtBefore(x, y, next - here, here - before);
    AtNext(x, y, next - here, here - before);
  }

  lemma AtBefore(x: real, y: real, p: real, q: real)
    requires x > 0.0 && y > 0.0
    ensures Weighted(-x / (x + y), (x + -x) * p / y, (y - -x) * q / x) == -q
  {
    var w, t := -x / (x + y), (y - -x) * q / x;
    assert (x + -x) * p / y == 0.0;
    Reals.DivMul(-x, x + y);
    Reals.DivMul((y - -x) * q, x);
    CancelThree(w, t, x, y - -x, -q);
  }

  lemma AtNext(x: real, y: real, p: real, q: real)
    requires x > 0.0 && y > 0.0
    ensures Weighted(y / (x + y), (x + y) * p / y, (y - y) * q / x) == p
  {
    var w, t := y / (x + y), (x + y) * p / y;
    assert (y - y) * q / x == 0.0;
    Reals.DivMul(y, x + y);
    Reals.DivMul((x + y) * p, y);
    CancelThree(w, t, y, x + y, p);
  }

  /** From w s = +-x and t x = +-s r, the product w t is r. */
  lemma CancelThree(w: real, t: real, x: real, s: real, r: real)
    requires x > 0.0 && ((w * s == x && t * x == s * r) || (w * s == -x && t * x == s * -r))
    ensures w * t == r
  {
    assert w * t * x == w * (t * x);
    if w * s == x && t * x == s * r {
      assert w * (s * r) == x * r;
    } else {
      assert w * (s * -r) == -x * -r;
    }
    Reals.MulDiv(w * t, x);
    Reals.MulDiv(r, x);
  }
  // ---------------------------------------------------------------- units do not matter

  function Scale(alpha: real, beta: real, x: real): real {
    alpha * x + beta
  }

  function Rescaled(alpha: real, beta: real, s: seq<real>): (r: seq<real>)
    ensures |r| == |s|
  {
    seq(|s|, i requires 0 <= i < |s| => Scale(alpha, beta, s[i]))
  }

  function Image(alpha: real, beta: real, m: Markers): Markers {
    m.(q := Rescaled(alpha, beta, m.q), init := Rescaled(alpha, beta, m.init))
  }

  lemma ScaleOrder(alpha: real, beta: real, x: real, y: real)
    requires alpha > 0.0
    ensures Scale(alpha, beta, x) < Scale(alpha, beta, y) <==> x < y
    ensures Scale(alpha, beta, x) <= Scale(alpha, beta, y) <==> x <= y
  {
    if x < y {
      Reals.MulStrict(alpha, x, y);
    } else if y < x {
      Reals.MulStrict(alpha, y, x);
    }
  }

  lemma ScaleGap(alpha: real, beta: real, x: real, y: real)
    ensures Scale(alpha, beta, x) - Scale(alpha, beta, y) == alpha * (x - y)
  {
  }

  lemma TermScales(alpha: real, c: real, p: real, y: real)
    requires y != 0.0
    ensures Part(c, alpha * p, y) == alpha * Part(c, p, y)
  {
    Reals.DivMul(c * p, y);
    var t := c * p / y;
    assert c * (alpha * p) == alpha * (c * p) == alpha * (t * y) == alpha * t * y;
    Reals.MulDiv(alpha * t, y);
  }

  lemma WeightedScales(alpha: real, w: real, x: real, y: real)
    ensures Weighted(w, alpha * x, alpha * y) == alpha * Weighted(w, x, y)
  {
    assert alpha * x + alpha * y == alpha * (x + y);
    assert w * (alpha * (x + y)) == alpha * (w * (x + y));
  }

  lemma CurveScales(alpha: real, beta: real, before: real, here: real, next: real, a: int, b: int, d: real)
    requires a > 0 && b > 0
    ensures Curve(Scale(alpha, beta, before), Scale(alpha, beta, here), Scale(alpha, beta, next), a, b, d) ==
            Scale(alpha, beta, Curve(before, here, next, a, b, d))
  {
    var up, down, x, y := next - here, here - before, a as real, b as real;
    ScaleGap(alpha, beta, next, here);
    ScaleGap(alpha, beta, here, before);
    StepScales(alpha, up, down, x, y, d);
    CurveFromGaps(before, here, next, up, down, a, b, d);
    ScaleSum(alpha, beta, here, CurveStep(up, down, x, y, d));
    CurveFromGaps(Scale(alpha, beta, before), Scale(alpha, beta, here), Scale(alpha, beta, next), alpha * up,
      alpha * down, a, b, d);
  }

  lemma CurveFromGaps(before: real, here: real, next: real, up: real, down: real, a: int, b: int, d: real)
    requires a > 0 && b > 0 && next - here == up && here - before == down
    ensures Curve(before, here, next, a, b, d) == here + CurveStep(up, down, a as real, b as real, d)
  {
  }

  lemma StepScales(alpha: real, up: real, down: real, x: real, y: real, d: real)
    requires x > 0.0 && y > 0.0
    ensures CurveStep(alpha * up, alpha * down, x, y, d) == alpha * CurveStep(up, down, x, y, d)
  {
    TermScales(alpha, x + d, up, y);
    TermScales(alpha, y - d, down, x);
    WeightedScales(alpha, d / (x + y), Part(x + d, up, y), Part(y - d, down, x));
  }

  lemma ScaleSum(alpha: real, beta: real, x: real, z: real)
    ensures Scale(alpha, beta, x) + alpha * z == Scale(alpha, beta, x + z)
  {
  }

  lemma LineScales(alpha: real, beta: real, here: real, there: real, gap: int, d: int)
    requires gap != 0
    ensures Line(Scale(alpha, beta, here), Scale(alpha, beta, there), gap, d) ==
            Scale(alpha, beta, Line(here, there, gap, d))
  {
    ScaleGap(alpha, beta, there, here);
    TermScales(alpha, d as real, there - here, gap as real);
    ScaleSum(alpha, beta, here, Part(d as real, there - here, gap as real));
  }

  lemma ImageIsShaped(alpha: real, beta: real, m: Markers)
    requires alpha > 0.0 && Shaped(m)
    ensures Shaped(Image(alpha, beta, m))
  {
    var q := Rescaled(alpha, beta, m.q);
    forall i, j | 0 <= i < j < |q| ensures q[i] <= q[j] {
      ScaleOrder(alpha, beta, m.q[i], m.q[j]);
    }
  }

  lemma HeightScales(alpha: real, beta: real, m: Markers, i: nat, d: int)
    requires alpha > 0.0 && Shaped(m) && Shaped(Image(alpha, beta, m)) && 1 <= i <= 3 && (d == 1 || d == -1)
    ensures Height(Image(alpha, beta, m), i, d) == Scale(alpha, beta, Height(m, i, d))
  {
    var guess := Curve(m.q[i - 1], m.q[i], m.q[i + 1], m.n[i] - m.n[i - 1], m.n[i + 1] - m.n[i], d as real);
    CurveScales(alpha, beta, m.q[i - 1], m.q[i], m.q[i + 1], m.n[i] - m.n[i - 1], m.n[i + 1] - m.n[i], d as real);
    ScaleOrder(alpha, beta, m.q[i - 1], guess);
    ScaleOrder(alpha, beta, guess, m.q[i + 1]);
    LineScales(alpha, beta, m.q[i], m.q[i + d], m.n[i + d] - m.n[i], d);
  }

  lemma RescaledSet(alpha: real, beta: real, q: seq<real>, i: nat, h: real)
    requires i < |q|
    ensures Rescaled(alpha, beta, q[i := h]) == Rescaled(alpha, beta, q)[i := Scale(alpha, beta, h)]
  {
  }

  lemma {:induction false} AdjustScales(alpha: real, beta: real, m: Markers, i: nat)
    requires alpha > 0.0 && Shaped(m) && i <= 3
    ensures Shaped(Image(alpha, beta, m)) &&
            AdjustedTo(Image(alpha, beta, m), i) == Image(alpha, beta, AdjustedTo(m, i))
  {
    ImageIsShaped(alpha, beta, m);
    if i > 0 {
      var before := AdjustedTo(m, i - 1);
      AdjustScales(alpha, beta, m, i - 1);
      OneScales(alpha, beta, before, i);
    }
  }

  lemma OneScales(alpha: real, beta: real, m: Markers, i: nat)
    requires alpha > 0.0 && Shaped(m) && Shaped(Image(alpha, beta, m)) && 1 <= i <= 3
    ensures Adjusted(Image(alpha, beta, m), i) == Image(alpha, beta, Adjusted(m, i))
  {
    var d := Move(m, i);
    assert Move(Image(alpha, beta, m), i) == d;
    if d != 0 {
      HeightScales(alpha, beta, m, i, d);
      RescaledSet(alpha, beta, m.q, i, Height(m, i, d));
    }
  }

  lemma CountedScales(p: real, alpha: real, beta: real, m: Markers, x: real)
    requires alpha > 0.0 && Shaped(m)
    ensures Counted(p, Image(alpha, beta, m), Scale(alpha, beta, x)) == Image(alpha, beta, Counted(p, m, x))
  {
    forall i | 0 <= i < 5 ensures Scale(alpha, beta, x) < Scale(alpha, beta, m.q[i]) <==> x < m.q[i] {
      ScaleOrder(alpha, beta, x, m.q[i]);
    }
    ScaleOrder(alpha, beta, m.q[4], x);
    RescaledSet(alpha, beta, m.q, 0, x);
    RescaledSet(alpha, beta, m.q, 4, x);
  }

  lemma {:induction false} InsertScales(alpha: real, beta: real, s: seq<real>, x: real)
    requires alpha > 0.0
    ensures Inserted(Rescaled(alpha, beta, s), Scale(alpha, beta, x)) == Rescaled(alpha, beta, Inserted(s, x))
  {
    var r := Rescaled(alpha, beta, s);
    if s == [] {
      assert r == [];
    } else {
      ScaleOrder(alpha, beta, x, s[0]);
      if x >= s[0] {
        InsertScales(alpha, beta, s[1..], x);
        assert r[1..] == Rescaled(alpha, beta, s[1..]);
      }
    }
  }

  lemma {:induction false} SortScales(alpha: real, beta: real, s: seq<real>)
    requires alpha > 0.0
    ensures Sorted(Rescaled(alpha, beta, s)) == Rescaled(alpha, beta, Sorted(s))
  {
    if s != [] {
      SortScales(alpha, beta, s[..|s| - 1]);
      assert Rescaled(alpha, beta, s)[..|s| - 1] == Rescaled(alpha, beta, s[..|s| - 1]);
      InsertScales(alpha, beta, Sorted(s[..|s| - 1]), s[|s| - 1]);
    } else {
      assert Rescaled(alpha, beta, s) == [];
    }
  }

  lemma NextScales(p: real, alpha: real, beta: real, m: Markers, xs: seq<real>, x: real)
    requires alpha > 0.0 && Marks(p, m, xs)
    ensures Next(p, Image(alpha, beta, m), Scale(alpha, beta, x)) == Image(alpha, beta, Next(p, m, x))
  {
    if m.q == [] {
      var init := m.init + [x];
      assert Rescaled(alpha, beta, m.q) == [] && Rescaled(alpha, beta, []) == [];
      assert Rescaled(alpha, beta, init) == Rescaled(alpha, beta, m.init) + [Scale(alpha, beta, x)];
      SortScales(alpha, beta, init);
    } else {
      ImageIsShaped(alpha, beta, m);
      CountedScales(p, alpha, beta, m, x);
      CountedKeepsShape(p, m, x);
      AdjustScales(alpha, beta, Counted(p, m, x), 3);
    }
  }

  /** A change of unit and origin of the scores changes the estimate in the same way, and nothing else. */
  lemma {:induction false} ScaleInvariant(p: real, alpha: real, beta: real, xs: seq<real>)
    requires alpha > 0.0
    ensures Run(p, Rescaled(alpha, beta, xs)) == Image(alpha, beta, Run(p, xs))
  {
    if xs == [] {
      assert Rescaled(alpha, beta, xs) == [];
    } else {
      var front, x := xs[..|xs| - 1], xs[|xs| - 1];
      ScaleInvariant(p, alpha, beta, front);
      assert Rescaled(alpha, beta, xs)[..|xs| - 1] == Rescaled(alpha, beta, front);
      MarkersHold(p, front);
      NextScales(p, alpha, beta, Run(p, front), front, x);
    }
  }

  // ---------------------------------------------------------------- the threshold

  /** The tuner's cut-off: the estimate held within the bounds; an absent upper bound is infinity. */
  function Threshold(estimate: Option<real>, min: real, max: Option<real>): Option<real> {
    match estimate
    case None => None
    case Some(v) =>
      var raised := if v >= min then v else min;
      Some(if max.Some? && max.value <= raised then max.value else raised)
  }

  class ThresholdTuner {
    const p2: P2Quantile
    const min: real
    const max: Option<real>
    var seen: nat

    constructor (targetFpr: real, min: real, max: Option<real>)
      requires 0.0 < targetFpr < 1.0
      ensures fresh(p2) && p2.p == 1.0 - targetFpr && p2.State() == Start(p2.p) && p2.Valid() && seen == 0
      ensures this.min == min && this.max == max
    {
      p2 := new P2Quantile(1.0 - targetFpr);
      this.min, this.max, seen := min, max, 0;
    }

    method Observe(score: real)
      requires p2.Valid()
      modifies this`seen, p2
      ensures p2.Valid() && seen == old(seen) + 1 && p2.State() == Next(p2.p, old(p2.State()), score)
    {
      seen := seen + 1;
      p2.Add(score);
    }

    method IsAnomaly(score: real) returns (r: bool)
      requires p2.Valid()
      ensures r <==> p2.Value().Some? && Threshold(p2.Value(), min, max).value < score
    {
      var t := Threshold(p2.Value(), min, max);
      r := t.Some? && score > t.value;
    }
  }

  /** Once there are five scores the cut-off is within its bounds, and equals the estimate whenever that is. */
  lemma {:induction false} ThresholdIsBounded(p: real, xs: seq<real>, min: real, max: Option<real>)
    requires |xs| >= 5 && (max.Some? ==> min <= max.value)
    ensures |Run(p, xs).q| == 5
    ensures var v := Run(p, xs).q[2]; var t := Threshold(Some(v), min, max);
            t.Some? && min <= t.value && (max.Some? ==> t.value <= max.value) &&
            (t.value == v <==> min <= v && (max.Some? ==> v <= max.value))
  {
    MarkersHold(p, xs);
  }
}
