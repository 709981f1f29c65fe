/**
 Algorithm R reservoir sampling, with the random draws made explicit.

 After the first `k` items, item number n (counting from one) comes with a draw j in [0, n).  A run of
 n items is therefore one vector of n - k draws, all equally likely.  `EverySubsetEquallyOften` counts
 the vectors that leave a given k-subset of stream positions in the reservoir: there are (n - k)! of
 them whatever the subset.  `EveryPositionEquallyOften` is the single-position form.
 */
module Reservoir {
  import opened Prelude

  type Draws = seq<nat>

  class ReservoirSampler<T> {
    const k: nat
    var reservoir: seq<T>
    var seen: nat
    /** Everything offered, and the draws made, since creation or the last `Clear`. */
    ghost var stream: seq<T>
    ghost var draws: Draws

    ghost predicate Valid()
      reads this
    {
      k > 0 && seen == |stream| && Legal(k, draws) && |draws| == (if seen <= k then 0 else seen - k) &&
      reservoir == Pick(stream, Positions(k, seen, draws))
    }

    constructor (size: nat)
      requires size > 0
      ensures Valid() && k == size && stream == []
    {
      k := size;
      reservoir, seen, stream, draws := [], 0, [], [];
    }

    /** Offers `value`; `j` is the scaled random draw, which only a full reservoir looks at. */
    method Observe(value: T, j: nat)
      requires Valid() && j < seen + 1
      modifies this
      ensures Valid() && stream == old(stream) + [value]
      ensures draws == if old(seen) < k then old(draws) else old(draws) + [j]
    {
      ghost var at := Positions(k, seen, draws);
      stream := stream + [value];
      assert Pick(stream, at) == reservoir;
      seen := seen + 1;
      if |reservoir| < k {
        reservoir := reservoir + [value];
        return;
      }
      draws := draws + [j];
      assert draws[..|draws| - 1] == old(draws);
      if j < k {
        reservoir := reservoir[j := value];
      }
    }

    method Clear()
      requires Valid()
      modifies this
      ensures Valid() && stream == []
    {
      reservoir, seen, stream, draws := [], 0, [], [];
    }
  }

  /** The draws made after the k-th item: the i-th of them is made with k + i + 1 items seen. */
  ghost predicate Legal(k: nat, draws: Draws) {
    forall i :: 0 <= i < |draws| ==> draws[i] < k + i + 1
  }

  /** The stream positions in the reservoir after `n` items. */
  function Positions(k: nat, n: nat, draws: Draws): (r: seq<nat>)
    requires |draws| == if n <= k then 0 else n - k
    ensures |r| == if n < k then n else k
    ensures forall i :: 0 <= i < |r| ==> r[i] < n
  {
    if n <= k then seq(n, i requires 0 <= i < n => i)
    else
      var r := Positions(k, n - 1, draws[..|draws| - 1]);
      var j := draws[|draws| - 1];
      if j < k then r[j := n - 1] else r
  }

  ghost function Pick<T>(stream: seq<T>, at: seq<nat>): (r: seq<T>)
    requires forall i :: 0 <= i < |at| ==> at[i] < |stream|
    ensures |r| == |at|
  {
    seq(|at|, i requires 0 <= i < |at| => stream[at[i]])
  }

  /** The reservoir holds different positions of the stream. */
  lemma {:induction false} PositionsDistinct(k: nat, n: nat, draws: Draws)
    requires |draws| == if n <= k then 0 else n - k
    ensures Distinct(Positions(k, n, draws))
  {
    if n > k {
      PositionsDistinct(k, n - 1, draws[..|draws| - 1]);
    }
  }

  // ---------------------------------------------------------------- all draw vectors

  /** Each vector of `vs` followed by each of 0, ..., b - 1. */
  ghost function Extend(vs: seq<Draws>, b: nat): seq<Draws> {
    if vs == [] then [] else Extend(vs[..|vs| - 1], b) + Tails(vs[|vs| - 1], b)
  }

  ghost function Tails(v: Draws, b: nat): (r: seq<Draws>)
    ensures |r| == b
  {
    seq(b, j requires 0 <= j < b => v + [j])
  }

  /** All legal draw vectors of length `m`. */
  ghost function Vectors(k: nat, m: nat): seq<Draws> {
    if m == 0 then [[]] else Extend(Vectors(k, m - 1), k + m)
  }

  lemma {:induction false} ExtendHas(vs: seq<Draws>, b: nat, v: Draws, j: nat)
    ensures v + [j] in Extend(vs, b) <==> v in vs && j < b
  {
    if vs != [] {
      var last := vs[|vs| - 1];
      ExtendHas(vs[..|vs| - 1], b, v, j);
      assert v in vs <==> v in vs[..|vs| - 1] || v == last;
      if v + [j] in Tails(last, b) {
        var i :| 0 <= i < b && Tails(last, b)[i] == v + [j];
        assert (last + [i])[..|last|] == last && (v + [j])[..|v|] == v && (last + [i])[|last|] == i;
      }
      if v == last && j < b {
        assert Tails(last, b)[j] == v + [j];
      }
    }
  }

  lemma {:induction false} ExtendNonempty(vs: seq<Draws>, b: nat, w: Draws)
    requires w in Extend(vs, b)
    ensures w != []
  {
    if w !in Tails(vs[|vs| - 1], b) {
      ExtendNonempty(vs[..|vs| - 1], b, w);
    }
  }

  lemma LegalMore(k: nat, v: Draws, j: nat)
    ensures Legal(k, v + [j]) <==> Legal(k, v) && j < k + |v| + 1
  {
    if Legal(k, v + [j]) {
      assert (v + [j])[|v|] == j;
      forall i | 0 <= i < |v| ensures v[i] < k + i + 1 {
        assert (v + [j])[i] == v[i];
      }
    }
  }

  /** `Vectors` lists exactly the legal vectors ... */
  lemma {:induction false} VectorsAreTheLegalOnes(k: nat, m: nat, v: Draws)
    ensures v in Vectors(k, m) <==> |v| == m && Legal(k, v)
  {
    if m > 0 {
      var shorter := Vectors(k, m - 1);
      if v == [] {
        if v in Vectors(k, m) {
          ExtendNonempty(shorter, k + m, v);
        }
      } else {
        var t, j := v[..|v| - 1], v[|v| - 1];
        assert v == t + [j];
        VectorsAreTheLegalOnes(k, m - 1, t);
        LegalMore(k, t, j);
        ExtendHas(shorter, k + m, t, j);
      }
    }
  }

  lemma {:induction false} ExtendDistinct(vs: seq<Draws>, b: nat)
    requires Distinct(vs)
    ensures Distinct(Extend(vs, b))
  {
    if vs != [] {
      var front, last := vs[..|vs| - 1], vs[|vs| - 1];
      ExtendDistinct(front, b);
      forall i, j | 0 <= i < |Extend(front, b)| && 0 <= j < b ensures Extend(front, b)[i] != Tails(last, b)[j] {
        ExtendHas(front, b, last, j);
      }
      forall i, j | 0 <= i < j < b ensures Tails(last, b)[i] != Tails(last, b)[j] {
        assert (last + [i])[|last|] != (last + [j])[|last|];
      }
    }
  }

  /** ... and each of them once. */
  lemma {:induction false} VectorsDistinct(k: nat, m: nat)
    ensures Distinct(Vectors(k, m))
  {
    if m > 0 {
      VectorsDistinct(k, m - 1);
      ExtendDistinct(Vectors(k, m - 1), k + m);
    }
  }

  // ---------------------------------------------------------------- counting

  ghost function Count<A>(s: seq<A>, p: A -> bool): (c: nat)
    ensures c <= |s|
  {
    if s == [] then 0 else Count(s[..|s| - 1], p) + if p(s[|s| - 1]) then 1 else 0
  }

  /** How many of the `b` ways to extend `v` satisfy `p`. */
  ghost function Ways(v: Draws, b: nat, p: Draws -> bool): nat {
    if b == 0 then 0 else Ways(v, b - 1, p) + if p(v + [b - 1]) then 1 else 0
  }

  lemma {:induction false} CountAppend<A>(s: seq<A>, t: seq<A>, p: A -> bool)
    ensures Count(s + t, p) == Count(s, p) + Count(t, p)
  {
    if t == [] {
      assert s + t == s;
    } else {
      assert (s + t)[..|s + t| - 1] == s + t[..|t| - 1];
      CountAppend(s, t[..|t| - 1], p);
    }
  }

  lemma {:induction false} CountTails(v: Draws, b: nat, p: Draws -> bool)
    ensures Count(Tails(v, b), p) == Ways(v, b, p)
  {
    if b > 0 {
      assert Tails(v, b)[..b - 1] == Tails(v, b - 1);
      CountTails(v, b - 1, p);
    }
  }

  lemma OneMore(c: nat, a: nat)
    ensures c * (a + 1) == c * a + c
  {
  }

  lemma Regroup(c: nat, k: nat, b: nat, larger: nat, d: nat)
    requires c == k * b && larger == d * b
    ensures c * d == k * larger
  {
    assert (k * b) * d == k * (d * b);
  }

  lemma Rescale(c: nat, scaled: nat, n: nat, k: nat, b: nat, larger: nat, d: nat)
    requires c * n == k * b && scaled == n * c && larger == d * b
    ensures scaled * d == k * larger
  {
    assert scaled * d == (k * b) * d;
  }

  /**
   If exactly the vectors in `q` have extensions in `p`, and each of them `c`, extending multiplies the count
   by `c`.
   */
  lemma {:induction false} ExtendScales(vs: seq<Draws>, b: nat, p: Draws -> bool, q: Draws -> bool, c: nat)
    requires forall v :: v in vs ==> Ways(v, b, p) == if q(v) then c else 0
    ensures Count(Extend(vs, b), p) == c * Count(vs, q)
  {
    if vs != [] {
      var front, last := vs[..|vs| - 1], vs[|vs| - 1];
      ExtendScales(front, b, p, q, c);
      CountAppend(Extend(front, b), Tails(last, b), p);
      CountTails(last, b, p);
      assert last in vs;
      if q(last) {
        OneMore(c, Count(front, q));
      }
    }
  }

  lemma {:induction false} CountSame<A>(s: seq<A>, p: A -> bool, q: A -> bool)
    requires forall x :: x in s ==> p(x) == q(x)
    ensures Count(s, p) == Count(s, q)
  {
    if s != [] {
      assert s[|s| - 1] in s;
      CountSame(s[..|s| - 1], p, q);
    }
  }

  lemma {:induction false} CountAll<A>(s: seq<A>, p: A -> bool)
    requires forall x :: x in s ==> p(x)
    ensures Count(s, p) == |s|
  {
    if s != [] {
      assert s[|s| - 1] in s;
      CountAll(s[..|s| - 1], p);
    }
  }

  lemma {:induction false} CountSplit<A>(s: seq<A>, p: A -> bool, q: A -> bool, r: A -> bool)
    requires forall x :: x in s ==> !(p(x) && q(x)) && (r(x) <==> p(x) || q(x))
    ensures Count(s, r) == Count(s, p) + Count(s, q)
  {
    if s != [] {
      assert s[|s| - 1] in s;
      CountSplit(s[..|s| - 1], p, q, r);
    }
  }

  /** Ways, when the good draws are those in [lo, hi) other than `hole`. */
  lemma {:induction false} WaysBetween(v: Draws, b: nat, p: Draws -> bool, lo: nat, hi: nat, hole: nat)
    requires forall j :: 0 <= j < b ==> (p(v + [j]) <==> lo <= j < hi && j != hole)
    ensures Ways(v, b, p) ==
            var n := if b <= lo then 0 else (if b < hi then b else hi) - lo;
            if lo <= hole && hole < hi && hole < b then n - 1 else if n < 0 then 0 else n
  {
    if b > 0 {
      WaysBetween(v, b - 1, p, lo, hi, hole);
    }
  }

  // ---------------------------------------------------------------- uniformity

  ghost predicate Holds(k: nat, m: nat, p: nat, v: Draws) {
    |v| == m && p in Positions(k, k + m, v)
  }

  ghost function Holding(k: nat, m: nat, p: nat): Draws -> bool {
    v => Holds(k, m, p, v)
  }

  ghost function Members(s: seq<nat>): set<nat> {
    set i | 0 <= i < |s| :: s[i]
  }

  lemma {:induction false} VectorLength(k: nat, m: nat, v: Draws)
    requires v in Vectors(k, m)
    ensures |v| == m && Legal(k, v)
  {
    VectorsAreTheLegalOnes(k, m, v);
  }

  lemma LastDraw(k: nat, m: nat, v: Draws, j: nat)
    requires |v| == m
    ensures Positions(k, k + m + 1, v + [j]) ==
            if j < k then Positions(k, k + m, v)[j := k + m] else Positions(k, k + m, v)
  {
    assert (v + [j])[..m] == v;
  }

  lemma UpdateKeeps(r: seq<nat>, j: nat, x: nat, p: nat)
    requires Distinct(r) && j < |r| && x != p
    ensures p in r[j := x] <==> p in r && r[j] != p
  {
    if p in r && r[j] != p {
      var i :| 0 <= i < |r| && r[i] == p;
      assert r[j := x][i] == p;
    }
  }

  /** A position already in the stream survives every draw but the one that hits its slot. */
  lemma Survives(k: nat, m: nat, p: nat, v: Draws, j: nat)
    requires |v| == m && p < k + m
    ensures var r := Positions(k, k + m, v);
            Holds(k, m + 1, p, v + [j]) <==> p in r && !(j < |r| && r[j] == p)
  {
    PositionsDistinct(k, k + m, v);
    LastDraw(k, m, v, j);
    if j < k {
      UpdateKeeps(Positions(k, k + m, v), j, k + m, p);
    }
  }

  lemma HeldUnlessHit(k: nat, m: nat, p: nat, v: Draws, slot: nat, j: nat)
    requires |v| == m && p < k + m && slot < k && Positions(k, k + m, v)[slot] == p
    ensures Holding(k, m + 1, p)(v + [j]) <==> j != slot
  {
    PositionsDistinct(k, k + m, v);
    Survives(k, m, p, v, j);
  }

  lemma {:induction false} AllButOne(v: Draws, b: nat, p: Draws -> bool, slot: nat)
    requires slot < b && forall j :: 0 <= j < b ==> (p(v + [j]) <==> j != slot)
    ensures Ways(v, b, p) == b - 1
  {
    WaysBetween(v, b, p, 0, b, slot);
  }

  lemma SlotWays(k: nat, m: nat, p: nat, v: Draws, slot: nat)
    requires |v| == m && p < k + m && slot < k && Positions(k, k + m, v)[slot] == p
    ensures Ways(v, k + m + 1, Holding(k, m + 1, p)) == k + m
  {
    forall j: nat ensures Holding(k, m + 1, p)(v + [j]) <==> j != slot {
      HeldUnlessHit(k, m, p, v, slot, j);
    }
    AllButOne(v, k + m + 1, Holding(k, m + 1, p), slot);
  }

  lemma {:induction false} OldPositionWays(k: nat, m: nat, p: nat, v: Draws)
    requires |v| == m && p < k + m
    ensures Ways(v, k + m + 1, Holding(k, m + 1, p)) == if Holds(k, m, p, v) then k + m else 0
  {
    if Holds(k, m, p, v) {
      var slot :| 0 <= slot < k && Positions(k, k + m, v)[slot] == p;
      SlotWays(k, m, p, v, slot);
    } else {
      forall j: nat ensures !Holding(k, m + 1, p)(v + [j]) {
        Survives(k, m, p, v, j);
      }
      WaysBetween(v, k + m + 1, Holding(k, m + 1, p), 0, 0, 0);
    }
  }

  /** The newest item gets in by any of the first `k` draws. */
  lemma NewPositionWays(k: nat, m: nat, v: Draws)
    requires |v| == m
    ensures Ways(v, k + m + 1, Holding(k, m + 1, k + m)) == k
  {
    forall j | 0 <= j < k + m + 1 ensures Holds(k, m + 1, k + m, v + [j]) <==> j < k {
      LastDraw(k, m, v, j);
      if j < k {
        assert Positions(k, k + m + 1, v + [j])[j] == k + m;
      }
    }
    WaysBetween(v, k + m + 1, Holding(k, m + 1, k + m), 0, k, k);
  }

  lemma OldPositionCount(k: nat, m: nat, p: nat)
    requires p < k + m
    ensures Count(Vectors(k, m + 1), Holding(k, m + 1, p)) == (k + m) * Count(Vectors(k, m), Holding(k, m, p))
  {
    var before := Vectors(k, m);
    forall v | v in before
      ensures Ways(v, k + m + 1, Holding(k, m + 1, p)) == if Holds(k, m, p, v) then k + m else 0
    {
      VectorLength(k, m, v);
      OldPositionWays(k, m, p, v);
    }
    ExtendScales(before, k + m + 1, Holding(k, m + 1, p), Holding(k, m, p), k + m);
  }

  lemma NewPositionCount(k: nat, m: nat)
    ensures Count(Vectors(k, m + 1), Holding(k, m + 1, k + m)) == k * |Vectors(k, m)|
  {
    var before := Vectors(k, m);
    forall v | v in before
      ensures Ways(v, k + m + 1, Holding(k, m + 1, k + m)) == if (v => true)(v) then k else 0
    {
      VectorLength(k, m, v);
      NewPositionWays(k, m, v);
    }
    ExtendScales(before, k + m + 1, Holding(k, m + 1, k + m), v => true, k);
    CountAll(before, v => true);
  }

  lemma {:induction false} ExtendSize(vs: seq<Draws>, b: nat)
    ensures |Extend(vs, b)| == b * |vs|
  {
    if vs != [] {
      ExtendSize(vs[..|vs| - 1], b);
      OneMore(b, |vs| - 1);
    }
  }

  /** Position `p` is left in the reservoir by k draw vectors out of every N, after N = k + m items. */
  ghost predicate HasShare(k: nat, m: nat, p: nat) {
    Count(Vectors(k, m), Holding(k, m, p)) * (k + m) == k * |Vectors(k, m)|
  }

  /** The first `k` items are all there before any draw is made. */
  lemma FirstAreIn(k: nat, p: nat)
    requires p < k
    ensures HasShare(k, 0, p)
  {
    assert Positions(k, k, [])[p] == p;
    assert Vectors(k, 0)[..0] == [];
  }

  lemma OldShare(k: nat, m: nat, p: nat)
    requires p < k + m && HasShare(k, m, p)
    ensures HasShare(k, m + 1, p)
  {
    OldPositionCount(k, m, p);
    ExtendSize(Vectors(k, m), k + m + 1);
    Rescale(Count(Vectors(k, m), Holding(k, m, p)), Count(Vectors(k, m + 1), Holding(k, m + 1, p)),
            k + m, k, |Vectors(k, m)|, |Vectors(k, m + 1)|, k + m + 1);
  }

  lemma NewShare(k: nat, m: nat)
    ensures HasShare(k, m + 1, k + m)
  {
    NewPositionCount(k, m);
    ExtendSize(Vectors(k, m), k + m + 1);
    Regroup(Count(Vectors(k, m + 1), Holding(k, m + 1, k + m)), k, |Vectors(k, m)|, |Vectors(k, m + 1)|, k + m + 1);
  }

  /** Every stream position is left in the reservoir by the same share of draw vectors. */
  lemma {:induction false} EveryPositionEquallyOften(k: nat, m: nat, p: nat)
    requires p < k + m
    ensures HasShare(k, m, p)
  {
    if m == 0 {
      FirstAreIn(k, p);
    } else {
      var l := m - 1;
      if p < k + l {
        EveryPositionEquallyOften(k, l, p);
        OldShare(k, l, p);
      } else {
        NewShare(k, l);
      }
    }
  }

  // ---------------------------------------------------------------- every subset

  ghost predicate Leaves(k: nat, m: nat, chosen: set<nat>, v: Draws) {
    |v| == m && Members(Positions(k, k + m, v)) == chosen
  }

  ghost function Leaving(k: nat, m: nat, chosen: set<nat>): Draws -> bool {
    v => Leaves(k, m, chosen, v)
  }

  ghost predicate Covers(k: nat, m: nat, part: set<nat>, v: Draws) {
    |v| == m && part <= Members(Positions(k, k + m, v))
  }

  ghost function Covering(k: nat, m: nat, part: set<nat>): Draws -> bool {
    v => Covers(k, m, part, v)
  }

  function Factorial(n: nat): nat {
    if n == 0 then 1 else n * Factorial(n - 1)
  }

  lemma MembersGrow(s: seq<nat>, x: nat)
    ensures Members(s + [x]) == Members(s) + {x}
  {
    forall y | y in Members(s) + {x} ensures y in Members(s + [x]) {
      if y == x {
        assert (s + [x])[|s|] == x;
      } else {
        var i :| 0 <= i < |s| && s[i] == y;
        assert (s + [x])[i] == y;
      }
    }
  }

  lemma {:induction false} MembersCount(s: seq<nat>)
    requires Distinct(s)
    ensures |Members(s)| == |s|
  {
    if s != [] {
      var t, last := s[..|s| - 1], s[|s| - 1];
      MembersCount(t);
      MembersGrow(t, last);
      assert s == t + [last];
    }
  }

  /** Without the newest position, a subset is left only by a draw that misses the reservoir. */
  lemma {:induction false} OldSubsetWays(k: nat, m: nat, chosen: set<nat>, v: Draws)
    requires |v| == m && k + m !in chosen
    ensures Ways(v, k + m + 1, Leaving(k, m + 1, chosen)) == if Leaves(k, m, chosen, v) then m + 1 else 0
  {
    forall j: nat ensures Leaving(k, m + 1, chosen)(v + [j]) <==> k <= j && Leaves(k, m, chosen, v) {
      LastDraw(k, m, v, j);
      if j < k {
        assert Positions(k, k + m + 1, v + [j])[j] in Members(Positions(k, k + m + 1, v + [j]));
      }
    }
    if Leaves(k, m, chosen, v) {
      WaysBetween(v, k + m + 1, Leaving(k, m + 1, chosen), k, k + m + 1, k + m + 1);
    } else {
      WaysBetween(v, k + m + 1, Leaving(k, m + 1, chosen), 0, 0, 0);
    }
  }

  lemma UpdateMembers(r: seq<nat>, j: nat, x: nat)
    requires Distinct(r) && j < |r| && x !in Members(r)
    ensures Members(r[j := x]) == Members(r) - {r[j]} + {x}
  {
    forall y | y in Members(r) - {r[j]} + {x} ensures y in Members(r[j := x]) {
      if y == x {
        assert r[j := x][j] == x;
      } else {
        var i :| 0 <= i < |r| && r[i] == y;
        assert r[j := x][i] == y;
      }
    }
  }

  /** A set one smaller than a covering set leaves out exactly one member. */
  lemma OneLeftOut(part: set<nat>, whole: set<nat>) returns (x: nat)
    requires part <= whole && |whole| == |part| + 1
    ensures x !in part && whole == part + {x}
  {
    var rest := whole - part;
    assert whole == part + rest;
    assert |rest| == 1;
    x :| x in rest;
    assert rest == {x} by {
      assert |rest - {x}| == 0;
    }
  }

  lemma LeavesAfter(k: nat, m: nat, part: set<nat>, v: Draws, j: nat)
    requires |v| == m && k + m !in part
    ensures var r := Positions(k, k + m, v);
            Leaves(k, m + 1, part + {k + m}, v + [j]) <==> j < |r| && Members(r) - {r[j]} == part
  {
    PositionsDistinct(k, k + m, v);
    LastDraw(k, m, v, j);
    if j < k {
      UpdateMembers(Positions(k, k + m, v), j, k + m);
    }
  }

  /** A reservoir that is `part` and `x` comes to be `part` and the newest position exactly when the draw hits `x`. */
  lemma Replaces(k: nat, m: nat, part: set<nat>, v: Draws, x: nat, j: nat)
    requires |v| == m && k + m !in part && x !in part && Members(Positions(k, k + m, v)) == part + {x}
    ensures var r := Positions(k, k + m, v);
            Leaves(k, m + 1, part + {k + m}, v + [j]) <==> j < |r| && r[j] == x
  {
    var r := Positions(k, k + m, v);
    LeavesAfter(k, m, part, v, j);
    if j < |r| {
      assert r[j] in Members(r);
    }
  }

  lemma HitsAt(k: nat, m: nat, part: set<nat>, v: Draws, x: nat, slot: nat, j: nat)
    requires |v| == m && k + m !in part && x !in part && Members(Positions(k, k + m, v)) == part + {x}
    requires slot < k && Positions(k, k + m, v)[slot] == x
    ensures Leaving(k, m + 1, part + {k + m})(v + [j]) <==> j == slot
  {
    PositionsDistinct(k, k + m, v);
    Replaces(k, m, part, v, x, j);
  }

  /** Exactly one draw is good. */
  lemma {:induction false} OneWay(v: Draws, b: nat, p: Draws -> bool, slot: nat)
    requires slot < b && forall j :: 0 <= j < b ==> (p(v + [j]) <==> j == slot)
    ensures Ways(v, b, p) == 1
  {
    WaysBetween(v, b, p, slot, slot + 1, b);
  }

  lemma SlotOf(r: seq<nat>, x: nat) returns (slot: nat)
    requires x in Members(r)
    ensures slot < |r| && r[slot] == x
  {
    slot :| 0 <= slot < |r| && r[slot] == x;
  }

  lemma OneDraw(k: nat, m: nat, part: set<nat>, v: Draws, x: nat)
    requires |v| == m && k + m !in part && x !in part && Members(Positions(k, k + m, v)) == part + {x}
    ensures Ways(v, k + m + 1, Leaving(k, m + 1, part + {k + m})) == 1
  {
    var slot := SlotOf(Positions(k, k + m, v), x);
    forall j: nat ensures Leaving(k, m + 1, part + {k + m})(v + [j]) <==> j == slot {
      HitsAt(k, m, part, v, x, slot, j);
    }
    OneWay(v, k + m + 1, Leaving(k, m + 1, part + {k + m}), slot);
  }

  lemma {:induction false} NoDraw(k: nat, m: nat, part: set<nat>, v: Draws)
    requires |v| == m && k + m !in part && !Covers(k, m, part, v)
    ensures Ways(v, k + m + 1, Leaving(k, m + 1, part + {k + m})) == 0
  {
    var good := Leaving(k, m + 1, part + {k + m});
    forall j: nat ensures !good(v + [j]) {
      LeavesAfter(k, m, part, v, j);
    }
    WaysBetween(v, k + m + 1, good, 0, 0, 0);
  }

  /** A reservoir that has `part` has one position more. */
  lemma OneLacking(k: nat, m: nat, part: set<nat>, v: Draws) returns (x: nat)
    requires Covers(k, m, part, v) && |part| + 1 == k
    ensures x !in part && Members(Positions(k, k + m, v)) == part + {x}
  {
    var r := Positions(k, k + m, v);
    PositionsDistinct(k, k + m, v);
    MembersCount(r);
    x := OneLeftOut(part, Members(r));
  }

  /** With the newest position, a subset is left by the one draw that throws out the one position it lacks. */
  lemma {:induction false} NewSubsetWays(k: nat, m: nat, part: set<nat>, v: Draws)
    requires |v| == m && k + m !in part && |part| + 1 == k
    ensures Ways(v, k + m + 1, Leaving(k, m + 1, part + {k + m})) == if Covers(k, m, part, v) then 1 else 0
  {
    if Covers(k, m, part, v) {
      var x := OneLacking(k, m, part, v);
      OneDraw(k, m, part, v, x);
    } else {
      NoDraw(k, m, part, v);
    }
  }

  lemma OldSubsetCount(k: nat, m: nat, chosen: set<nat>)
    requires k + m !in chosen
    ensures Count(Vectors(k, m + 1), Leaving(k, m + 1, chosen)) == (m + 1) * Count(Vectors(k, m), Leaving(k, m, chosen))
  {
    var before, n, good, leaving := Vectors(k, m), k + m + 1, Leaving(k, m + 1, chosen), Leaving(k, m, chosen);
    forall v | v in before ensures Ways(v, n, good) == if leaving(v) then m + 1 else 0 {
      VectorWaysOld(k, m, chosen, v);
    }
    ExtendScales(before, n, good, leaving, m + 1);
  }

  lemma VectorWaysOld(k: nat, m: nat, chosen: set<nat>, v: Draws)
    requires k + m !in chosen && v in Vectors(k, m)
    ensures Ways(v, k + m + 1, Leaving(k, m + 1, chosen)) == if Leaving(k, m, chosen)(v) then m + 1 else 0
  {
    VectorLength(k, m, v);
    OldSubsetWays(k, m, chosen, v);
  }

  lemma {:induction false} VectorWays(k: nat, m: nat, part: set<nat>, v: Draws)
    requires k + m !in part && |part| + 1 == k && v in Vectors(k, m)
    ensures Ways(v, k + m + 1, Leaving(k, m + 1, part + {k + m})) == if Covering(k, m, part)(v) then 1 else 0
  {
    VectorLength(k, m, v);
    NewSubsetWays(k, m, part, v);
  }

  lemma NewSubsetCount(k: nat, m: nat, part: set<nat>)
    requires k + m !in part && |part| + 1 == k
    ensures Count(Vectors(k, m + 1), Leaving(k, m + 1, part + {k + m})) == Count(Vectors(k, m), Covering(k, m, part))
  {
    var n, good, covering := k + m + 1, Leaving(k, m + 1, part + {k + m}), Covering(k, m, part);
    var before := Vectors(k, m);
    forall v | v in before ensures Ways(v, n, good) == if covering(v) then 1 else 0 {
      VectorWays(k, m, part, v);
    }
    ExtendScales(before, n, good, covering, 1);
  }

  /** Reservoirs that are `part` plus one position below `u`. */
  ghost predicate CoversBelow(k: nat, m: nat, part: set<nat>, u: nat, v: Draws) {
    |v| == m && exists x :: 0 <= x < u && x !in part && Leaves(k, m, part + {x}, v)
  }

  lemma OneFurther(k: nat, m: nat, part: set<nat>, u: nat, v: Draws)
    requires u !in part
    ensures !(CoversBelow(k, m, part, u, v) && Leaves(k, m, part + {u}, v))
    ensures CoversBelow(k, m, part, u + 1, v) <==> CoversBelow(k, m, part, u, v) || Leaves(k, m, part + {u}, v)
  {
    if x :| 0 <= x < u && x !in part && Leaves(k, m, part + {x}, v) {
      assert u !in part + {x} && u in part + {u};
    }
  }

  ghost function CoveringBelow(k: nat, m: nat, part: set<nat>, u: nat): Draws -> bool {
    v => CoversBelow(k, m, part, u, v)
  }

  /** How many positions below `u` are not in `part`. */
  ghost function Free(part: set<nat>, u: nat): nat {
    if u == 0 then 0 else Free(part, u - 1) + if u - 1 in part then 0 else 1
  }

  lemma {:induction false} FreeCount(part: set<nat>, u: nat)
    requires forall p :: p in part ==> p < u
    ensures Free(part, u) == u - |part|
  {
    if u == 0 {
      assert part == {};
    } else if u - 1 in part {
      FreeCount(part - {u - 1}, u - 1);
      FreeSame(part, u - 1, u - 1);
    } else {
      FreeCount(part, u - 1);
    }
  }

  lemma {:induction false} FreeSame(part: set<nat>, x: nat, u: nat)
    requires x >= u
    ensures Free(part - {x}, u) == Free(part, u)
  {
    if u > 0 {
      FreeSame(part, x, u - 1);
    }
  }

  ghost predicate LeftOften(k: nat, m: nat, part: set<nat>, x: nat, c: nat) {
    x in part || Count(Vectors(k, m), Leaving(k, m, part + {x})) == c
  }

  lemma {:induction false} CoverMore(k: nat, m: nat, part: set<nat>, u: nat)
    requires u !in part
    ensures Count(Vectors(k, m), CoveringBelow(k, m, part, u + 1)) ==
            Count(Vectors(k, m), CoveringBelow(k, m, part, u)) + Count(Vectors(k, m), Leaving(k, m, part + {u}))
  {
    var vs := Vectors(k, m);
    var p, q, r := CoveringBelow(k, m, part, u), Leaving(k, m, part + {u}), CoveringBelow(k, m, part, u + 1);
    forall v | v in vs ensures !(p(v) && q(v)) && (r(v) <==> p(v) || q(v)) {
      OneFurther(k, m, part, u, v);
    }
    CountSplit(vs, p, q, r);
  }

  /**
   If each of the subsets `part + {x}` is left equally often, the reservoirs covering `part` are that many
   times the free positions.
   */
  lemma {:induction false} CoverSum(k: nat, m: nat, part: set<nat>, u: nat, c: nat)
    requires forall x :: 0 <= x < u ==> LeftOften(k, m, part, x, c)
    ensures Count(Vectors(k, m), CoveringBelow(k, m, part, u)) == c * Free(part, u)
  {
    var vs := Vectors(k, m);
    if u == 0 {
      CountNone(vs, CoveringBelow(k, m, part, 0));
    } else {
      CoverSum(k, m, part, u - 1, c);
      assert LeftOften(k, m, part, u - 1, c);
      if u - 1 in part {
        CountSame(vs, CoveringBelow(k, m, part, u), CoveringBelow(k, m, part, u - 1));
      } else {
        CoverMore(k, m, part, u - 1);
        OneMore(c, Free(part, u - 1));
      }
    }
  }

  lemma {:induction false} CountNone<A>(s: seq<A>, p: A -> bool)
    requires forall x :: x in s ==> !p(x)
    ensures Count(s, p) == 0
  {
    if s != [] {
      assert s[|s| - 1] in s;
      CountNone(s[..|s| - 1], p);
    }
  }

  /** A reservoir covers a set of k - 1 positions exactly when it is that set and one more position. */
  lemma CoveringIsBelow(k: nat, m: nat, part: set<nat>, v: Draws)
    requires |v| == m && |part| + 1 == k
    ensures Covers(k, m, part, v) <==> CoversBelow(k, m, part, k + m, v)
  {
    var r := Positions(k, k + m, v);
    PositionsDistinct(k, k + m, v);
    MembersCount(r);
    if part <= Members(r) {
      var x := OneLeftOut(part, Members(r));
      assert Members(r) == part + {x} && x !in part;
      assert Leaves(k, m, part + {x}, v);
    }
  }

  lemma NewSubsetShare(k: nat, m: nat, part: set<nat>, c: nat)
    requires |part| + 1 == k && forall p :: p in part ==> p < k + m
    requires forall x :: 0 <= x < k + m ==> LeftOften(k, m, part, x, c)
    ensures Count(Vectors(k, m + 1), Leaving(k, m + 1, part + {k + m})) == c * (m + 1)
  {
    var n := k + m;
    NewSubsetCount(k, m, part);
    forall v | v in Vectors(k, m) ensures Covering(k, m, part)(v) == CoveringBelow(k, m, part, n)(v) {
      VectorLength(k, m, v);
      CoveringIsBelow(k, m, part, v);
    }
    CountSame(Vectors(k, m), Covering(k, m, part), CoveringBelow(k, m, part, n));
    CoverSum(k, m, part, n, c);
    FreeCount(part, n);
  }

  /**
   The k-subset of stream positions a run leaves in the reservoir is uniform: after k + m items each
   k-subset is left by exactly m! draw vectors.
   */
  lemma {:induction false} EverySubsetEquallyOften(k: nat, m: nat, chosen: set<nat>)
    requires |chosen| == k && forall p :: p in chosen ==> p < k + m
    ensures Count(Vectors(k, m), Leaving(k, m, chosen)) == Factorial(m)
  {
    if m == 0 {
      FirstSubset(k, chosen);
    } else {
      var l := m - 1;
      var n, c := k + l, Factorial(l);
      if n !in chosen {
        EverySubsetEquallyOften(k, l, chosen);
        OldSubsetCount(k, l, chosen);
      } else {
        var part := chosen - {n};
        forall x | 0 <= x < n ensures LeftOften(k, l, part, x, c) {
          if x !in part {
            EverySubsetEquallyOften(k, l, part + {x});
          }
        }
        NewSubsetShare(k, l, part, c);
        assert part + {n} == chosen;
      }
    }
  }

  lemma {:induction false} FirstSubset(k: nat, chosen: set<nat>)
    requires |chosen| == k && forall p :: p in chosen ==> p < k
    ensures Count(Vectors(k, 0), Leaving(k, 0, chosen)) == 1
  {
    var r := Positions(k, k, []);
    var all := Members(r);
    assert chosen <= all by {
      forall p | p in chosen ensures p in all {
        assert r[p] == p;
      }
    }
    PositionsDistinct(k, k, []);
    MembersCount(r);
    SubsetOfSameSize(chosen, all);
    assert Vectors(k, 0)[..0] == [];
  }

  lemma SubsetOfSameSize(a: set<nat>, b: set<nat>)
    requires a <= b && |a| == |b|
    ensures a == b
  {
    assert |b - a| == 0;
  }
}
