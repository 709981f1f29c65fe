/**
 How the markers of the P-squared estimator move: each by at most one place towards its desired position, to a
 height on the parabola or the line through its neighbours.  On evenly spaced ascending samples the median
 estimate is then the middle sample.
 */
module P2Moves {
  import opened P2Quantile
  import Reals

  // ---------------------------------------------------------------- positions

  /** The share of a new sample that is desired below marker `i`. */
  function Share(p: real, i: nat): real
    requires i < 5
  {
    if i == 0 then 0.0 else if i == 1 then p / 2.0 else if i == 2 then p else if i == 3 then (p + 1.0) / 2.0 else 1.0
  }

  /** The position of an inner marker once a sample is counted, before it is the marker's turn to move. */
  function Passed(m: Markers, x: real, i: nat): int
    requires |m.q| == 5 && |m.n| == 5 && 1 <= i <= 4
  {
    if i == 4 || x < m.q[i] then m.n[i] + 1 else m.n[i]
  }

  function Lag(p: real, m: Markers, x: real, i: nat): real
    requires |m.q| == 5 && |m.n| == 5 && |m.np| == 5 && 1 <= i <= 3
  {
    m.np[i] + Share(p, i) - Passed(m, x, i) as real
  }

  function Distance(x: real): real {
    if x >= 0.0 then x else -x
  }

  /** One place towards where a marker is wanted, if that is a place away or more and the place is free. */
  function Nearer(lag: real, here: int, below: int, above: int): int {
    if lag >= 1.0 && here + 1 < above then here + 1
    else if lag <= -1.0 && below < here - 1 then here - 1
    else here
  }

  lemma CountedPasses(p: real, m: Markers, x: real)
    requires Shaped(m)
    ensures Shaped(Counted(p, m, x)) && Counted(p, m, x).n[0] == m.n[0]
    ensures forall i :: 1 <= i <= 4 ==> Counted(p, m, x).n[i] == Passed(m, x, i)
    ensures forall i :: 0 <= i < 5 ==> Counted(p, m, x).np[i] == m.np[i] + Share(p, i)
  {
    CountedKeepsShape(p, m, x);
  }

  /** Marker `i` has had its turn. */
  ghost predicate Turned(m: Markers, i: nat, after: Markers)
    requires 1 <= i <= 3 && |m.n| == 5 && |m.np| == 5
  {
    |after.n| == 5 && after.np == m.np &&
    after.n[i] == Nearer(m.np[i] - m.n[i] as real, m.n[i], m.n[i - 1], m.n[i + 1]) &&
    forall j :: 0 <= j < 5 && j != i ==> after.n[j] == m.n[j]
  }

  lemma AdjustedTurns(m: Markers, i: nat)
    requires Shaped(m) && 1 <= i <= 3
    ensures Turned(m, i, Adjusted(m, i))
  {
  }

  lemma ThreeTurns(c: Markers, c1: Markers, c2: Markers, c3: Markers, i: nat)
    requires 1 <= i <= 3 && |c.n| == |c1.n| == |c2.n| == |c3.n| == 5 && |c.np| == |c1.np| == |c2.np| == 5
    requires Turned(c, 1, c1) && Turned(c1, 2, c2) && Turned(c2, 3, c3)
    ensures c3.np == c.np && c3.n[i] == Nearer(c.np[i] - c.n[i] as real, c.n[i], c3.n[i - 1], c.n[i + 1])
  {
  }

  lemma TurnsAre(c: Markers)
    requires Shaped(c)
    ensures Shaped(Adjusted(c, 1)) && Shaped(Adjusted(Adjusted(c, 1), 2))
    ensures AdjustedTo(c, 3) == Adjusted(Adjusted(Adjusted(c, 1), 2), 3)
  {
    assert AdjustedTo(c, 0) == c;
    assert AdjustedTo(c, 1) == Adjusted(c, 1);
    assert AdjustedTo(c, 2) == Adjusted(Adjusted(c, 1), 2);
  }

  lemma NextIs(p: real, m: Markers, x: real)
    requires Shaped(m)
    ensures Shaped(Counted(p, m, x)) && Next(p, m, x) == AdjustedTo(Counted(p, m, x), 3)
  {
    CountedKeepsShape(p, m, x);
  }

  lemma AllApproach(c: Markers, i: nat)
    requires Shaped(c) && 1 <= i <= 3
    ensures var after := AdjustedTo(c, 3);
            after.np == c.np &&
            after.n[i] == Nearer(c.np[i] - c.n[i] as real, c.n[i], after.n[i - 1], c.n[i + 1])
  {
    TurnsAre(c);
    var c1 := Adjusted(c, 1);
    var c2 := Adjusted(c1, 2);
    var c3 := Adjusted(c2, 3);
    AdjustKeepsShape(c2, 3);
    assert Turned(c, 1, c1) by { AdjustedTurns(c, 1); }
    assert Turned(c1, 2, c2) by { AdjustedTurns(c1, 2); }
    assert Turned(c2, 3, c3) by { AdjustedTurns(c2, 3); }
    ThreeTurns(c, c1, c2, c3, i);
  }

  lemma NeverFurther(lag: real, here: int, below: int, above: int, to: int)
    requires to == Nearer(lag, here, below, above)
    ensures Distance(lag + here as real - to as real) <= Distance(lag)
  {
  }

  /**
   After a sample each inner marker has gone one place nearer to its desired position if it was a place away
   and that place was free, and stayed otherwise; so it is never further away.
   */
  lemma MarkersApproach(p: real, m: Markers, x: real, i: nat)
    requires Shaped(m) && 1 <= i <= 3
    ensures var after := Next(p, m, x);
            Shaped(after) && after.np[i] == m.np[i] + Share(p, i) &&
            after.n[i] == Nearer(Lag(p, m, x, i), Passed(m, x, i), after.n[i - 1], Passed(m, x, i + 1)) &&
            Distance(after.np[i] - after.n[i] as real) <= Distance(Lag(p, m, x, i))
  {
    var c := Counted(p, m, x);
    NextIs(p, m, x);
    CountedPasses(p, m, x);
    AllApproach(c, i);
    var after := AdjustedTo(c, 3);
    NeverFurther(Lag(p, m, x, i), c.n[i], after.n[i - 1], c.n[i + 1], after.n[i]);
  }

  // ---------------------------------------------------------------- heights

  /** The parabola with this slope and bend at the marker. */
  function Parabola(here: real, slope: real, bend: real, d: real): real {
    here + (slope * d + bend * d * d)
  }

  /** It goes through the heights `a` places before and `b` places after. */
  predicate Through(before: real, here: real, next: real, a: real, b: real, slope: real, bend: real) {
    Parabola(here, slope, bend, -a) == before && Parabola(here, slope, bend, b) == next
  }

  lemma GapQuotient(slope: real, bend: real, gap: real, y: real, s: real)
    requires y != 0.0 && gap == slope * y + bend * y * (s * y)
    ensures gap / y == slope + s * bend * y
  {
    assert gap == (slope + s * bend * y) * y;
    Reals.MulDiv(slope + s * bend * y, y);
  }

  lemma PartIs(c: real, gap: real, y: real, g: real)
    requires y != 0.0 && gap / y == g
    ensures Part(c, gap, y) == c * g
  {
    Reals.DivMul(gap, y);
    assert c * gap == c * (g * y) == c * g * y;
    Reals.MulDiv(c * g, y);
  }

  lemma PartsAddUp(slope: real, bend: real, a: real, b: real, d: real)
    ensures (a + d) * (slope + bend * b) + (b - d) * (slope - bend * a) == (slope + bend * d) * (a + b)
  {
    assert (a + d) * (slope + bend * b) == a * slope + d * slope + a * bend * b + d * bend * b;
    assert (b - d) * (slope - bend * a) == b * slope - d * slope - b * bend * a + d * bend * a;
    assert (slope + bend * d) * (a + b) == slope * a + slope * b + bend * d * a + bend * d * b;
  }

  /** The prediction is the height of the parabola through the marker and its neighbours. */
  lemma CurveIsParabola(
    before: real, here: real, next: real, a: int, b: int, d: real, slope: real, bend: real)
    requires a > 0 && b > 0 && Through(before, here, next, a as real, b as real, slope, bend)
    ensures Curve(before, here, next, a, b, d) == Parabola(here, slope, bend, d)
  {
    var x, y := a as real, b as real;
    GapQuotient(slope, bend, next - here, y, 1.0);
    assert here - before == slope * x - bend * x * x;
    GapQuotient(slope, bend, here - before, x, -1.0);
    PartIs(x + d, next - here, y, slope + bend * y);
    PartIs(y - d, here - before, x, slope - bend * x);
    PartsAddUp(slope, bend, x, y, d);
    var sum := (slope + bend * d) * (x + y);
    StepIs(d, x + y, slope + bend * d, Part(x + d, next - here, y), Part(y - d, here - before, x));
    assert d * (slope + bend * d) == slope * d + bend * d * d;
  }

  lemma StepIs(d: real, s: real, z: real, u: real, v: real)
    requires s != 0.0 && u + v == z * s
    ensures Weighted(d / s, u, v) == d * z
  {
    Reals.DivMul(d, s);
    assert d / s * (z * s) == d / s * s * z;
  }

  /** There is one such parabola. */
  lemma SomeParabola(before: real, here: real, next: real, a: real, b: real) returns (slope: real, bend: real)
    requires a > 0.0 && b > 0.0
    ensures Through(before, here, next, a, b, slope, bend)
  {
    var up, down := (next - here) / b, (here - before) / a;
    Reals.DivMul(next - here, b);
    Reals.DivMul(here - before, a);
    bend := (up - down) / (a + b);
    Reals.DivMul(up - down, a + b);
    slope := up - bend * b;
    BendsThrough(here, slope, bend, up, down, a, b);
    assert next == here + up * b && before == here - down * a;
  }

  lemma BendsThrough(here: real, slope: real, bend: real, up: real, down: real, a: real, b: real)
    requires slope == up - bend * b && bend * (a + b) == up - down
    ensures Through(here - down * a, here, here + up * b, a, b, slope, bend)
  {
    assert (up - bend * b) * b == up * b - bend * b * b;
    assert bend * (a + b) * a == (up - down) * a == up * a - down * a;
    assert bend * (a + b) * a == bend * a * a + bend * b * a;
    var d := -a;
    assert (up - bend * b) * d == -(up * a) + bend * b * a;
    assert bend * d * d == bend * a * a;
  }

  /** A height is on the line through the marker and the neighbour it moves to. */
  predicate OnLine(here: real, there: real, gap: int, d: int, h: real) {
    (h - here) * gap as real == d as real * (there - here)
  }

  /**
   A moved marker takes the height of the parabola where that is between its neighbours, and of the line
   otherwise.
   */
  lemma HeightIs(m: Markers, i: nat, d: int) returns (slope: real, bend: real)
    requires Shaped(m) && 1 <= i <= 3 && (d == 1 || d == -1)
    ensures Through(m.q[i - 1], m.q[i], m.q[i + 1], (m.n[i] - m.n[i - 1]) as real, (m.n[i + 1] - m.n[i]) as real,
                    slope, bend)
    ensures var guess := Parabola(m.q[i], slope, bend, d as real);
            if m.q[i - 1] < guess < m.q[i + 1] then Height(m, i, d) == guess
            else OnLine(m.q[i], m.q[i + d], m.n[i + d] - m.n[i], d, Height(m, i, d))
  {
    var a, b := m.n[i] - m.n[i - 1], m.n[i + 1] - m.n[i];
    slope, bend := SomeParabola(m.q[i - 1], m.q[i], m.q[i + 1], a as real, b as real);
    CurveIsParabola(m.q[i - 1], m.q[i], m.q[i + 1], a, b, d as real, slope, bend);
    LineIsOnLine(m.q[i], m.q[i + d], m.n[i + d] - m.n[i], d);
  }

  lemma LineIsOnLine(here: real, there: real, gap: int, d: int)
    requires gap != 0
    ensures OnLine(here, there, gap, d, Line(here, there, gap, d))
  {
    Reals.DivMul(d as real * (there - here), gap as real);
  }

  /** The turn of a marker changes no other height, and its own only when it moves, to that height. */
  lemma TurnKeepsHeights(m: Markers, i: nat) returns (slope: real, bend: real)
    requires Shaped(m) && 1 <= i <= 3
    ensures var after := Adjusted(m, i);
            var d := after.n[i] - m.n[i];
            var guess := Parabola(m.q[i], slope, bend, d as real);
            Shaped(after) && (forall j :: 0 <= j < 5 && j != i ==> after.q[j] == m.q[j]) &&
            Through(m.q[i - 1], m.q[i], m.q[i + 1], (m.n[i] - m.n[i - 1]) as real, (m.n[i + 1] - m.n[i]) as real,
                    slope, bend) &&
            if d == 0 then after.q[i] == m.q[i]
            else -1 <= d <= 1 &&
                 if m.q[i - 1] < guess < m.q[i + 1] then after.q[i] == guess
                 else OnLine(m.q[i], m.q[i + d], m.n[i + d] - m.n[i], d, after.q[i])
  {
    var d := Move(m, i);
    AdjustKeepsShape(m, i);
    slope, bend := HeightIs(m, i, if d == 0 then 1 else d);
  }

  // ---------------------------------------------------------------- evenly spaced samples

  /** The samples 0, 1, 2 and so on. */
  function Steps(n: nat): (xs: seq<real>)
    ensures |xs| == n && forall k :: 0 <= k < n ==> xs[k] == k as real
  {
    seq(n, k requires 0 <= k < n => k as real)
  }

  /** Each marker is as high as the sample at its position. */
  predicate Diagonal(m: Markers) {
    Shaped(m) && forall i :: 0 <= i < 5 ==> m.q[i] == (m.n[i] - 1) as real
  }

  lemma DiagonalHeight(m: Markers, i: nat, d: int)
    requires Diagonal(m) && 1 <= i <= 3 && (d == 1 || d == -1) && m.n[i - 1] < m.n[i] + d < m.n[i + 1]
    ensures Height(m, i, d) == (m.n[i] + d - 1) as real
  {
    var a, b := m.n[i] - m.n[i - 1], m.n[i + 1] - m.n[i];
    assert Through(m.q[i - 1], m.q[i], m.q[i + 1], a as real, b as real, 1.0, 0.0);
    CurveIsParabola(m.q[i - 1], m.q[i], m.q[i + 1], a, b, d as real, 1.0, 0.0);
  }

  lemma AdjustedIsDiagonal(m: Markers, i: nat)
    requires Diagonal(m) && 1 <= i <= 3
    ensures Diagonal(Adjusted(m, i))
  {
    AdjustKeepsShape(m, i);
    var d := Move(m, i);
    if d != 0 {
      DiagonalHeight(m, i, d);
    }
  }

  /** The next sample in line keeps the markers on the diagonal. */
  lemma NextIsDiagonal(p: real, m: Markers, x: real)
    requires Diagonal(m) && x == m.n[4] as real
    ensures Diagonal(Next(p, m, x))
  {
    var c := Counted(p, m, x);
    CountedPasses(p, m, x);
    assert Diagonal(c);
    TurnsAre(c);
    AdjustedIsDiagonal(c, 1);
    AdjustedIsDiagonal(Adjusted(c, 1), 2);
    AdjustedIsDiagonal(Adjusted(Adjusted(c, 1), 2), 3);
  }

  lemma {:induction false} StepsSorted(n: nat)
    ensures Sorted(Steps(n)) == Steps(n)
  {
    if n > 0 {
      StepsSorted(n - 1);
      assert Steps(n)[..n - 1] == Steps(n - 1);
      AppendsLast(Steps(n - 1), (n - 1) as real);
      assert Steps(n - 1) + [(n - 1) as real] == Steps(n);
    } else {
      assert Steps(n) == [];
    }
  }

  lemma {:induction false} AppendsLast(s: seq<real>, x: real)
    requires forall k :: 0 <= k < |s| ==> s[k] <= x
    ensures Inserted(s, x) == s + [x]
  {
    if s != [] {
      AppendsLast(s[1..], x);
      assert [s[0]] + (s[1..] + [x]) == s + [x];
    }
  }

  /** Where the inner markers are. */
  type At = (int, int, int)

  predicate Apart(at: At, n: int) {
    1 < at.0 < at.1 < at.2 < n
  }

  /** The markers of the median after the samples 0 up to `n` - 1, with the inner ones at `at`. */
  function Standing(n: int, at: At): Markers {
    Markers(Heights(n, at), [1, at.0, at.1, at.2, n], Wanted(n), [])
  }

  function Heights(n: int, at: At): seq<real> {
    [0.0, (at.0 - 1) as real, (at.1 - 1) as real, (at.2 - 1) as real, (n - 1) as real]
  }

  function Wanted(n: int): seq<real> {
    var t := (n - 1) as real;
    [1.0, 1.0 + t * 0.25, 1.0 + t * 0.5, 1.0 + t * 0.75, 1.0 + t]
  }

  lemma StandsDiagonal(n: int, at: At)
    requires Apart(at, n)
    ensures Diagonal(Standing(n, at))
  {
  }

  lemma RunSnoc(p: real, n: nat)
    ensures Run(p, Steps(n + 1)) == Next(p, Run(p, Steps(n)), n as real)
  {
    assert Steps(n + 1)[..n] == Steps(n);
  }

  /** The first five samples are the markers. */
  lemma FirstFive()
    ensures Run(0.5, Steps(5)) == Standing(5, (2, 3, 4))
  {
    MarkersHold(0.5, Steps(4));
    RunSnoc(0.5, 4);
    assert Steps(4) + [4.0] == Steps(5);
    StepsSorted(5);
    assert Steps(5) == Heights(5, (2, 3, 4));
    assert Start(0.5).np == Wanted(5);
  }

  lemma EndsMove(m: Markers, x: real)
    requires Shaped(m)
    ensures var after := Next(0.5, m, x);
            Shaped(after) && after.n[0] == m.n[0] && after.n[4] == m.n[4] + 1 && after.init == m.init &&
            after.np[0] == m.np[0] && after.np[4] == m.np[4] + 1.0
  {
    NextIs(0.5, m, x);
    CountedPasses(0.5, m, x);
    AllApproach(Counted(0.5, m, x), 1);
  }

  /** One sample more. */
  lemma OneMore(n: int, at: At)
    requires Apart(at, n)
    ensures Next(0.5, Standing(n, at), n as real) == Standing(n + 1, PlacesAfter(n, at))
  {
    var m, x := Standing(n, at), n as real;
    StandsDiagonal(n, at);
    NextIsDiagonal(0.5, m, x);
    EndsMove(m, x);
    MarkersApproach(0.5, m, x, 1);
    MarkersApproach(0.5, m, x, 2);
    MarkersApproach(0.5, m, x, 3);
    OneApproach(Next(0.5, m, x), n, at);
  }

  /** The turn of a marker whose lag is told in quarters of a place. */
  function Turn(quarters: int, here: int, below: int, above: int): int {
    if quarters >= 4 && here + 1 < above then here + 1
    else if quarters <= -4 && below < here - 1 then here - 1
    else here
  }

  lemma TurnIsNearer(lag: real, quarters: int, here: int, below: int, above: int)
    requires lag == quarters as real * 0.25
    ensures Nearer(lag, here, below, above) == Turn(quarters, here, below, above)
  {
  }

  function PlacesAfter(n: int, at: At): At {
    var a := Turn(4 + n - 4 * at.0, at.0, 1, at.1);
    var b := Turn(4 + 2 * n - 4 * at.1, at.1, a, at.2);
    var c := Turn(4 + 3 * n - 4 * at.2, at.2, b, n + 1);
    (a, b, c)
  }

  lemma OneApproach(after: Markers, n: int, at: At)
    requires Apart(at, n) && Diagonal(after) && after.n[0] == 1 && after.n[4] == n + 1 && after.init == []
    requires after.np[0] == 1.0 && after.np[4] == 1.0 + n as real
    requires var m, x := Standing(n, at), n as real;
             (forall i :: 1 <= i <= 3 ==> after.np[i] == m.np[i] + Share(0.5, i)) &&
             after.n[1] == Nearer(Lag(0.5, m, x, 1), Passed(m, x, 1), 1, Passed(m, x, 2)) &&
             after.n[2] == Nearer(Lag(0.5, m, x, 2), Passed(m, x, 2), after.n[1], Passed(m, x, 3)) &&
             after.n[3] == Nearer(Lag(0.5, m, x, 3), Passed(m, x, 3), after.n[2], Passed(m, x, 4))
    ensures after == Standing(n + 1, PlacesAfter(n, at))
  {
    var m, x := Standing(n, at), n as real;
    LagsAre(n, at);
    TurnIsNearer(Lag(0.5, m, x, 1), 4 + n - 4 * at.0, at.0, 1, at.1);
    TurnIsNearer(Lag(0.5, m, x, 2), 4 + 2 * n - 4 * at.1, at.1, after.n[1], at.2);
    TurnIsNearer(Lag(0.5, m, x, 3), 4 + 3 * n - 4 * at.2, at.2, after.n[2], n + 1);
    NowStands(after, n, PlacesAfter(n, at));
  }

  lemma NowStands(after: Markers, n: int, to: At)
    requires Diagonal(after) && after.n[0] == 1 && after.n[4] == n + 1 && after.init == []
    requires after.n[1] == to.0 && after.n[2] == to.1 && after.n[3] == to.2
    requires after.np[0] == 1.0 && after.np[1] == 1.0 + n as real * 0.25 && after.np[2] == 1.0 + n as real * 0.5
    requires after.np[3] == 1.0 + n as real * 0.75 && after.np[4] == 1.0 + n as real
    ensures after == Standing(n + 1, to)
  {
    assert after.n == [1, to.0, to.1, to.2, n + 1];
    assert after.q == Heights(n + 1, to);
    assert after.np == Wanted(n + 1);
  }

  /** Every inner position is as it was, and every lag a number of quarters. */
  lemma LagsAre(n: int, at: At)
    requires Apart(at, n)
    ensures var m, x := Standing(n, at), n as real;
            Passed(m, x, 1) == at.0 && Passed(m, x, 2) == at.1 && Passed(m, x, 3) == at.2 &&
            Passed(m, x, 4) == n + 1 && Lag(0.5, m, x, 1) == (4 + n - 4 * at.0) as real * 0.25 &&
            Lag(0.5, m, x, 2) == (4 + 2 * n - 4 * at.1) as real * 0.25 &&
            Lag(0.5, m, x, 3) == (4 + 3 * n - 4 * at.2) as real * 0.25
  {
  }

  /** Where they are after `n` samples, by their turns alone. */
  function Places(n: nat): At
    requires n >= 5
  {
    if n == 5 then (2, 3, 4) else PlacesAfter(n - 1, Places(n - 1))
  }

  lemma {:induction false} PlacesApart(n: nat)
    requires n >= 5
    ensures Apart(Places(n), n)
  {
    if n > 5 {
      PlacesApart(n - 1);
    }
  }

  /** A run that begins with the first five samples and takes one more at each step. */
  ghost predicate Goes(run: nat -> Markers, step: (Markers, real) -> Markers) {
    run(5) == Standing(5, (2, 3, 4)) && forall n: nat :: n >= 5 ==> run(n + 1) == step(run(n), n as real)
  }

  ghost predicate Carries(step: (Markers, real) -> Markers) {
    forall n: nat, at: At :: Apart(at, n) ==> step(Standing(n, at), n as real) == Standing(n + 1, PlacesAfter(n, at))
  }

  lemma {:induction false} MarkersAtPlaces(run: nat -> Markers, step: (Markers, real) -> Markers, n: nat)
    requires n >= 5 && Goes(run, step) && Carries(step)
    ensures run(n) == Standing(n, Places(n))
  {
    if n > 5 {
      MarkersAtPlaces(run, step, n - 1);
      PlacesApart(n - 1);
    }
  }

  function RunOf(p: real): nat -> Markers {
    (n: nat) => Run(p, Steps(n))
  }

  function StepOf(p: real): (Markers, real) -> Markers {
    (m: Markers, x: real) => Next(p, m, x)
  }

  lemma GoesOn(p: real, n: nat)
    ensures RunOf(p)(n + 1) == StepOf(p)(RunOf(p)(n), n as real)
  {
    RunSnoc(p, n);
  }

  lemma MedianGoes()
    ensures Goes(RunOf(0.5), StepOf(0.5))
  {
    FirstFive();
    forall n: nat | n >= 5 ensures RunOf(0.5)(n + 1) == StepOf(0.5)(RunOf(0.5)(n), n as real) {
      GoesOn(0.5, n);
    }
  }

  lemma MedianCarries()
    ensures Carries(StepOf(0.5))
  {
    forall n: nat, at: At | Apart(at, n)
      ensures StepOf(0.5)(Standing(n, at), n as real) == Standing(n + 1, PlacesAfter(n, at))
    {
      OneMore(n, at);
    }
  }

  /** After 4k + 1 samples they are at the quarters. */
  lemma {:induction false} AtTheQuarters(k: nat)
    requires k >= 1
    ensures Places(4 * k + 1) == (k + 1, 2 * k + 1, 3 * k + 1)
  {
    if k == 2 {
      assert PlacesAfter(5, (2, 3, 4)) == (2, 3, 4) && PlacesAfter(6, (2, 3, 4)) == (2, 3, 5);
      assert PlacesAfter(7, (2, 3, 5)) == (2, 4, 6) && PlacesAfter(8, (2, 4, 6)) == (3, 5, 7);
      assert Places(6) == (2, 3, 4) && Places(7) == (2, 3, 5) && Places(8) == (2, 4, 6);
    } else if k > 2 {
      AtTheQuarters(k - 1);
      NextQuarters(k - 1, 4 * k - 3, k, 2 * k - 1, 3 * k - 2);
    }
  }

  lemma NextQuarters(k: nat, n: nat, a: int, b: int, c: int)
    requires k >= 2 && n == 4 * k + 1 && a == k + 1 && b == 2 * k + 1 && c == 3 * k + 1 && Places(n) == (a, b, c)
    ensures Places(n + 4) == (a + 1, b + 2, c + 3)
  {
    assert Places(n + 1) == (a, b, c);
    assert Places(n + 2) == (a, b + 1, c + 1);
    assert Places(n + 3) == (a, b + 1, c + 2);
  }

  /** The middle marker of a run is at the height `v` after `n` samples in line. */
  predicate IsMiddle(run: nat -> Markers, n: nat, v: real) {
    |run(n).q| == 5 && run(n).q[2] == v
  }

  lemma MiddleOfQuarters(run: nat -> Markers, step: (Markers, real) -> Markers, k: nat)
    requires k >= 1 && Goes(run, step) && Carries(step)
    ensures IsMiddle(run, 4 * k + 1, (2 * k) as real)
  {
    AtTheQuarters(k);
    MarkersAtPlaces(run, step, 4 * k + 1);
  }

  lemma MiddleMarker(k: nat)
    requires k >= 1
    ensures IsMiddle(RunOf(0.5), 4 * k + 1, (2 * k) as real)
  {
    MedianGoes();
    MedianCarries();
    MiddleOfQuarters(RunOf(0.5), StepOf(0.5), k);
  }

  lemma ImageMiddle(m: Markers, gap: real, first: real, v: real)
    requires |m.q| == 5 && m.q[2] == v
    ensures |Image(gap, first, m).q| == 5 && Image(gap, first, m).q[2] == first + gap * v
  {
  }

  lemma SpacedIsRescaled(xs: seq<real>, first: real, gap: real)
    requires forall i :: 0 <= i < |xs| ==> xs[i] == first + gap * i as real
    ensures xs == Rescaled(gap, first, Steps(|xs|))
  {
    var ys := Steps(|xs|);
    forall i | 0 <= i < |xs| ensures xs[i] == Scale(gap, first, ys[i]) {
    }
  }

  lemma MiddleScales(p: real, xs: seq<real>, ys: seq<real>, gap: real, first: real, v: real, w: real)
    requires gap > 0.0 && xs == Rescaled(gap, first, ys) && w == first + gap * v
    requires |Run(p, ys).q| == 5 && Run(p, ys).q[2] == v
    ensures |Run(p, xs).q| == 5 && Run(p, xs).q[2] == w
  {
    ScaleInvariant(p, gap, first, ys);
    ImageMiddle(Run(p, ys), gap, first, v);
  }

  /** On 4k + 1 evenly spaced ascending samples the median estimate is the middle sample. */
  lemma MedianIsMiddle(xs: seq<real>, k: nat, first: real, gap: real)
    requires k >= 1 && gap > 0.0 && |xs| == 4 * k + 1
    requires forall i :: 0 <= i < |xs| ==> xs[i] == first + gap * i as real
    ensures |Run(0.5, xs).q| == 5 && Run(0.5, xs).q[2] == xs[2 * k]
  {
    MiddleMarker(k);
    SpacedIsRescaled(xs, first, gap);
    MiddleScales(0.5, xs, Steps(|xs|), gap, first, (2 * k) as real, xs[2 * k]);
  }
}
