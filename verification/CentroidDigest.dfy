/**
 The weighted-centroid digest: bounded-memory quantiles of a stream of numbers.

 Numbers are reals, so the claims are about exact arithmetic.  `Digest.Valid` is what every run keeps;
 `QuantileMonotone`, `QuantileBounded` and `RankOfQuantile` are about what the digest answers.
 */
module CentroidDigest {
  import opened Prelude
  import opened Reals

  datatype Centroid = Centroid(mean: real, weight: int)

  ghost predicate Sorted(cs: seq<Centroid>) {
    forall i, j :: 0 <= i < j < |cs| ==> cs[i].mean <= cs[j].mean
  }

  ghost predicate Weighty(cs: seq<Centroid>) {
    forall c :: c in cs ==> c.weight >= 1
  }

  ghost predicate Between(cs: seq<Centroid>, lo: real, hi: real) {
    forall c :: c in cs ==> lo <= c.mean <= hi
  }

  function Mass(cs: seq<Centroid>): int {
    if cs == [] then 0 else Mass(cs[..|cs| - 1]) + cs[|cs| - 1].weight
  }

  /** What the values folded into a centroid add up to. */
  function Load(c: Centroid): real {
    c.mean * c.weight as real
  }

  ghost function Moment(cs: seq<Centroid>): real {
    if cs == [] then 0.0 else Moment(cs[..|cs| - 1]) + Load(cs[|cs| - 1])
  }

  ghost function Sum(vs: seq<real>): real {
    if vs == [] then 0.0 else Sum(vs[..|vs| - 1]) + vs[|vs| - 1]
  }

  ghost predicate IsMin(vs: seq<real>, m: real) {
    m in vs && forall i :: 0 <= i < |vs| ==> m <= vs[i]
  }

  ghost predicate IsMax(vs: seq<real>, m: real) {
    m in vs && forall i :: 0 <= i < |vs| ==> vs[i] <= m
  }

  function Dist(a: real, b: real): (d: real)
    ensures d >= 0.0 && (d == a - b || d == b - a)
  {
    if a < b then b - a else a - b
  }

  /** The first centroid whose mean is nearest to `v`. */
  ghost predicate Nearest(cs: seq<Centroid>, v: real, i: nat) {
    i < |cs| && (forall j :: 0 <= j < |cs| ==> Dist(cs[i].mean, v) <= Dist(cs[j].mean, v)) &&
    forall j :: 0 <= j < i ==> Dist(cs[i].mean, v) < Dist(cs[j].mean, v)
  }

  function Merged(c: Centroid, v: real): Centroid
    requires c.weight >= 0
  {
    Centroid((c.mean * c.weight as real + v) / (c.weight + 1) as real, c.weight + 1)
  }

  /** The weighted mean moves towards `v` without reaching it, and the mass and moment grow by one value. */
  lemma MergeMoves(c: Centroid, v: real)
    requires c.weight >= 1
    ensures var m := Merged(c, v);
            m.weight == c.weight + 1 && Load(m) == Load(c) + v &&
            (v > c.mean ==> c.mean < m.mean < v) && (v < c.mean ==> v < m.mean < c.mean) &&
            (v == c.mean ==> m.mean == v)
  {
    var w, m := c.weight as real, Merged(c, v).mean;
    assert (c.weight + 1) as real == w + 1.0;
    assert Load(c) == c.mean * w;
    DivMul(Load(c) + v, w + 1.0);
    assert m * (w + 1.0) == Load(c) + v;
    MeanMoves(c.mean, w, v, m, Load(c));
  }

  lemma MeanMoves(a: real, w: real, v: real, m: real, load: real)
    requires w >= 1.0 && load == a * w && m * (w + 1.0) == load + v
    ensures (v > a ==> a < m < v) && (v < a ==> v < m < a) && (v == a ==> m == v)
  {
    OneMoreTime(m, w);
    SameOrder(m, a, w);
    SameOrder(m, v, w);
    SameOrder(a, v, w);
    WeighedMean(a, v, m, m * w, load, v * w);
  }

  /** `MeanMoves` with the products named. */
  lemma WeighedMean(a: real, v: real, m: real, mw: real, aw: real, vw: real)
    requires mw + m == aw + v
    requires (m < a <==> mw < aw) && (m > a <==> mw > aw) && (m < v <==> mw < vw) && (m > v <==> mw > vw)
    requires (a < v <==> aw < vw) && (a > v <==> aw > vw)
    ensures (v > a ==> a < m < v) && (v < a ==> v < m < a) && (v == a ==> m == v)
  {
  }

  lemma SameOrder(x: real, y: real, w: real)
    requires w > 0.0
    ensures (x < y <==> x * w < y * w) && (x > y <==> x * w > y * w)
  {
    if x < y {
      MulStrict(w, x, y);
    } else if x > y {
      MulStrict(w, y, x);
    }
  }

  lemma OneMoreTime(x: real, w: real)
    ensures x * (w + 1.0) == x * w + x
  {
  }

  /**
   Merging into the nearest centroid never crosses the neighbour on the left, and crosses the one on the
   right exactly when that is a twin of the centroid and the value lies above both.
   */
  lemma MergeCrossesOnlyTwins(cs: seq<Centroid>, v: real, i: nat)
    requires Sorted(cs) && Weighty(cs) && Nearest(cs, v, i)
    ensures i > 0 ==> cs[i - 1].mean <= Merged(cs[i], v).mean
    ensures i + 1 < |cs| ==>
              (Merged(cs[i], v).mean > cs[i + 1].mean <==> v > cs[i].mean && cs[i + 1].mean == cs[i].mean)
  {
    MergeMoves(cs[i], v);
    if i > 0 {
      assert Dist(cs[i].mean, v) < Dist(cs[i - 1].mean, v);
    }
    if i + 1 < |cs| {
      assert Dist(cs[i].mean, v) <= Dist(cs[i + 1].mean, v);
    }
  }

  lemma TwinsDoCross()
    ensures var cs := [Centroid(5.0, 1), Centroid(5.0, 1)];
            Sorted(cs) && Nearest(cs, 7.0, 0) && Merged(cs[0], 7.0).mean > cs[1].mean
  {
  }

  lemma InsertFront(cs: seq<Centroid>, i: nat, c: Centroid)
    requires i <= |cs|
    ensures var s := InsertAt(cs, i, c);
            |s| == |cs| + 1 && s[..|cs|] == (if i == |cs| then cs else InsertAt(cs[..|cs| - 1], i, c)) &&
            s[|cs|] == if i == |cs| then c else cs[|cs| - 1]
  {
  }

  lemma {:induction false} InsertMass(cs: seq<Centroid>, i: nat, c: Centroid)
    requires i <= |cs|
    ensures Mass(InsertAt(cs, i, c)) == Mass(cs) + c.weight
  {
    InsertFront(cs, i, c);
    if i < |cs| {
      InsertMass(cs[..|cs| - 1], i, c);
    }
  }

  lemma {:induction false} InsertMoment(cs: seq<Centroid>, i: nat, c: Centroid)
    requires i <= |cs|
    ensures Moment(InsertAt(cs, i, c)) == Moment(cs) + Load(c)
  {
    InsertFront(cs, i, c);
    if i < |cs| {
      InsertMoment(cs[..|cs| - 1], i, c);
    }
  }

  lemma SwapLeft(rest: seq<Centroid>, i: nat, c: Centroid)
    requires 0 < i <= |rest|
    ensures var s := InsertAt(rest, i, c);
            s[i - 1] == rest[i - 1] && s[i] == c && s[i := s[i - 1]][i - 1 := c] == InsertAt(rest, i - 1, c)
  {
  }

  lemma SwapRight(rest: seq<Centroid>, i: nat, c: Centroid)
    requires i < |rest|
    ensures var s := InsertAt(rest, i, c);
            s[i + 1] == rest[i] && s[i] == c && s[i := s[i + 1]][i + 1 := c] == InsertAt(rest, i + 1, c)
  {
  }

  lemma SortedInsert(rest: seq<Centroid>, i: nat, c: Centroid)
    requires Sorted(rest) && i <= |rest|
    requires (i > 0 ==> rest[i - 1].mean <= c.mean) && (i < |rest| ==> c.mean <= rest[i].mean)
    ensures Sorted(InsertAt(rest, i, c))
  {
  }

  /** The centroid at `i` is not out of order with its neighbours. */
  ghost predicate InPlace(cs: seq<Centroid>, i: nat)
    requires i < |cs|
  {
    (i > 0 ==> cs[i - 1].mean <= cs[i].mean) && (i + 1 < |cs| ==> cs[i].mean <= cs[i + 1].mean)
  }

  lemma PutBack(cs: seq<Centroid>, i: nat)
    requires i < |cs|
    ensures InsertAt(RemoveAt(cs, i), i, cs[i]) == cs
  {
  }

  /** `c` put at `i` among the others would be in order there. */
  ghost predicate FitsAt(rest: seq<Centroid>, i: nat, c: Centroid)
    requires i <= |rest|
  {
    (i > 0 ==> rest[i - 1].mean <= c.mean) && (i < |rest| ==> c.mean <= rest[i].mean)
  }

  lemma InPlaceAmong(cs: seq<Centroid>, i: nat)
    requires i < |cs|
    ensures InPlace(cs, i) <==> FitsAt(RemoveAt(cs, i), i, cs[i])
  {
  }

  /** Going left, then right, ends elsewhere exactly when the start was out of order. */
  lemma MovesWhenOut(rest: seq<Centroid>, start: nat, left: nat, idx: nat, c: Centroid)
    requires Sorted(rest) && left <= start <= |rest| && left <= idx <= |rest|
    requires left > 0 ==> rest[left - 1].mean <= c.mean
    requires left < start ==> c.mean < rest[left].mean && c.mean < rest[start - 1].mean
    requires idx < |rest| ==> c.mean <= rest[idx].mean
    requires left < idx ==> rest[idx - 1].mean < c.mean && rest[left].mean < c.mean
    ensures idx == start <==> FitsAt(rest, start, c)
    ensures idx > 0 ==> rest[idx - 1].mean <= c.mean
  {
  }

  /** A twin of the centroid at `i` stands right of it, and the value lies above both. */
  ghost predicate HasTwinBelow(cs: seq<Centroid>, i: nat, v: real) {
    i + 1 < |cs| && v > cs[i].mean && cs[i + 1].mean == cs[i].mean
  }

  /** The centroid at `i` merged with `v` and put at position `at` of the others. */
  ghost function Replaced(cs: seq<Centroid>, i: nat, at: nat, v: real): seq<Centroid>
    requires i < |cs| && at < |cs| && cs[i].weight >= 0
  {
    InsertAt(RemoveAt(cs, i), at, Merged(cs[i], v))
  }

  lemma SwapSums(rest: seq<Centroid>, i: nat, at: nat, c: Centroid, m: Centroid, v: real)
    requires i <= |rest| && at <= |rest|
    requires m.weight == c.weight + 1 && Load(m) == Load(c) + v
    ensures Mass(InsertAt(rest, at, m)) == Mass(InsertAt(rest, i, c)) + 1
    ensures Moment(InsertAt(rest, at, m)) == Moment(InsertAt(rest, i, c)) + v
  {
    InsertMass(rest, i, c);
    InsertMass(rest, at, m);
    InsertMoment(rest, i, c);
    InsertMoment(rest, at, m);
  }

  lemma {:induction false} ReplacedSums(cs: seq<Centroid>, i: nat, at: nat, v: real)
    requires i < |cs| && at < |cs| && cs[i].weight >= 1
    ensures Mass(Replaced(cs, i, at, v)) == Mass(cs) + 1
    ensures Moment(Replaced(cs, i, at, v)) == Moment(cs) + v
  {
    var c, m := cs[i], Merged(cs[i], v);
    MergeMoves(c, v);
    PutBack(cs, i);
    SwapSums(RemoveAt(cs, i), i, at, c, m, v);
  }

  lemma InsertElements(cs: seq<Centroid>, i: nat, c: Centroid)
    requires i <= |cs|
    ensures |InsertAt(cs, i, c)| == |cs| + 1
    ensures forall x :: x in InsertAt(cs, i, c) ==> x == c || x in cs
  {
  }

  lemma ReplacedElements(cs: seq<Centroid>, i: nat, at: nat, v: real)
    requires i < |cs| && at < |cs| && cs[i].weight >= 0
    ensures |Replaced(cs, i, at, v)| == |cs|
    ensures forall x :: x in Replaced(cs, i, at, v) ==> x == Merged(cs[i], v) || x in cs
  {
    InsertElements(RemoveAt(cs, i), at, Merged(cs[i], v));
    assert forall x :: x in RemoveAt(cs, i) ==> x in cs;
  }

  lemma ReplacedWeighty(cs: seq<Centroid>, i: nat, at: nat, v: real)
    requires i < |cs| && at < |cs| && Weighty(cs) && cs[i].weight >= 0
    ensures |Replaced(cs, i, at, v)| == |cs| && Weighty(Replaced(cs, i, at, v))
  {
    ReplacedElements(cs, i, at, v);
  }

  lemma ReplacedBetween(cs: seq<Centroid>, i: nat, at: nat, v: real, lo: real, hi: real)
    requires i < |cs| && at < |cs| && cs[i].weight >= 1
    requires Between(cs, lo, hi) && lo <= v <= hi
    ensures Between(Replaced(cs, i, at, v), lo, hi)
  {
    assert cs[i] in cs;
    MergeMoves(cs[i], v);
    ReplacedElements(cs, i, at, v);
  }

  /** The running minimum and maximum stay the exact ones, and only ever widen. */
  lemma BoundsGrow(vs: seq<real>, min: Option<real>, max: Option<real>, v: real)
    requires vs == [] <==> min == None
    requires vs == [] <==> max == None
    requires vs != [] ==> IsMin(vs, min.value) && IsMax(vs, max.value)
    ensures IsMin(vs + [v], Lower(min, v).value)
    ensures IsMax(vs + [v], Higher(max, v).value)
  {
    assert (vs + [v])[|vs|] == v;
  }

  function Lower(min: Option<real>, v: real): Option<real> {
    Some(if min == None || v < min.value then v else min.value)
  }

  function Higher(max: Option<real>, v: real): Option<real> {
    Some(if max == None || v > max.value then v else max.value)
  }

  /** The centroids and bounds a digest of capacity `k` may hold after observing `vs`. */
  ghost predicate Sound(k: nat, cs: seq<Centroid>, min: Option<real>, max: Option<real>, vs: seq<real>) {
    k > 0 && Mass(cs) == |vs| && Moment(cs) == Sum(vs) && Sorted(cs) && Weighty(cs) &&
    |cs| == (if |vs| < k then |vs| else k) && Bounded(cs, min, max, vs)
  }

  ghost predicate Bounded(cs: seq<Centroid>, min: Option<real>, max: Option<real>, vs: seq<real>) {
    if vs == [] then min == None && max == None
    else min.Some? && max.Some? && IsMin(vs, min.value) && IsMax(vs, max.value) && Between(cs, min.value, max.value)
  }

  lemma BoundedMore(cs: seq<Centroid>, ds: seq<Centroid>, min: Option<real>, max: Option<real>, vs: seq<real>, v: real)
    requires Bounded(cs, min, max, vs) && (vs == [] ==> cs == [])
    requires Between(cs, Lower(min, v).value, Higher(max, v).value) ==>
             Between(ds, Lower(min, v).value, Higher(max, v).value)
    ensures Bounded(ds, Lower(min, v), Higher(max, v), vs + [v])
  {
    BoundsGrow(vs, min, max, v);
  }

  lemma InsertSound(k: nat, cs: seq<Centroid>, min: Option<real>, max: Option<real>, vs: seq<real>, v: real, at: nat)
    requires Sound(k, cs, min, max, vs) && |cs| < k && at <= |cs|
    requires Sorted(InsertAt(cs, at, Centroid(v, 1)))
    ensures Sound(k, InsertAt(cs, at, Centroid(v, 1)), Lower(min, v), Higher(max, v), vs + [v])
  {
    var c := Centroid(v, 1);
    var ds := InsertAt(cs, at, c);
    InsertMass(cs, at, c);
    InsertMoment(cs, at, c);
    LoadOfOne(v);
    InsertElements(cs, at, c);
    SumMore(vs, v);
    BoundedMore(cs, ds, min, max, vs, v);
  }

  lemma LoadOfOne(v: real)
    ensures Load(Centroid(v, 1)) == v
  {
  }

  lemma {:induction false} SumMore(vs: seq<real>, v: real)
    ensures Sum(vs + [v]) == Sum(vs) + v
  {
    assert (vs + [v])[..|vs|] == vs;
  }

  lemma MergeSound(
    k: nat, cs: seq<Centroid>, min: Option<real>, max: Option<real>, vs: seq<real>, v: real, i: nat, at: nat)
    requires Sound(k, cs, min, max, vs) && |cs| == k && i < k && at < k && cs[i].weight >= 1
    requires Sorted(Replaced(cs, i, at, v))
    ensures Sound(k, Replaced(cs, i, at, v), Lower(min, v), Higher(max, v), vs + [v])
  {
    var ds := Replaced(cs, i, at, v);
    ReplacedSums(cs, i, at, v);
    SumMore(vs, v);
    ReplacedWeighty(cs, i, at, v);
    if Between(cs, Lower(min, v).value, Higher(max, v).value) {
      ReplacedBetween(cs, i, at, v, Lower(min, v).value, Higher(max, v).value);
    }
    BoundedMore(cs, ds, min, max, vs, v);
  }

  datatype Answer = OutOfRange | NotANumber | Value(x: real)

  class Digest {
    const k: nat
    var centroids: seq<Centroid>
    var total: int
    var min: Option<real>
    var max: Option<real>
    /** Everything observed so far. */
    ghost var values: seq<real>

    ghost predicate Valid()
      reads this
    {
      total == |values| && Sound(k, centroids, min, max, values)
    }

    constructor (k: nat)
      requires k > 0
      ensures Valid() && values == [] && this.k == k
    {
      this.k := k;
      centroids, total, min, max, values := [], 0, None, None, [];
    }

    method InsertSorted(c: Centroid) returns (ghost at: nat)
      requires Sorted(centroids)
      modifies this`centroids
      ensures at <= |old(centroids)| && centroids == InsertAt(old(centroids), at, c)
      ensures Sorted(centroids)
    {
      var lo, hi := 0, |centroids|;
      while lo < hi
        invariant 0 <= lo <= hi <= |centroids|
        invariant forall i :: 0 <= i < lo ==> centroids[i].mean <= c.mean
        invariant forall i :: hi <= i < |centroids| ==> c.mean < centroids[i].mean
      {
        var mid := (lo + hi) / 2;
        if centroids[mid].mean <= c.mean {
          lo := mid + 1;
        } else {
          hi := mid;
        }
      }
      at := lo;
      centroids := InsertAt(centroids, lo, c);
    }

    method NearestIndex(value: real) returns (best: nat)
      requires |centroids| > 0
      ensures Nearest(centroids, value, best)
    {
      best := 0;
      var bestDist: Option<real> := None;
      for i := 0 to |centroids|
        invariant i == 0 ==> best == 0 && bestDist == None
        invariant i > 0 ==> best < i && bestDist == Some(Dist(centroids[best].mean, value))
        invariant forall j :: 0 <= j < i ==> Dist(centroids[best].mean, value) <= Dist(centroids[j].mean, value)
        invariant forall j :: 0 <= j < best ==> Dist(centroids[best].mean, value) < Dist(centroids[j].mean, value)
      {
        var d := Dist(centroids[i].mean, value);
        if bestDist == None || d < bestDist.value {
          bestDist := Some(d);
          best := i;
        }
      }
    }

    /** First loop of `Rebubble`: down past every greater mean. */
    method BubbleLeft(start: nat, c: Centroid, ghost rest: seq<Centroid>) returns (idx: nat)
      requires start <= |rest| && centroids == InsertAt(rest, start, c)
      modifies this`centroids
      ensures idx <= start && centroids == InsertAt(rest, idx, c)
      ensures idx > 0 ==> rest[idx - 1].mean <= c.mean
      ensures idx < start ==> c.mean < rest[idx].mean && c.mean < rest[start - 1].mean
    {
      idx := start;
      while idx > 0 && centroids[idx - 1].mean > c.mean
        invariant 0 <= idx <= start && centroids == InsertAt(rest, idx, c)
        invariant idx < start ==> c.mean < rest[idx].mean && c.mean < rest[start - 1].mean
      {
        SwapLeft(rest, idx, c);
        centroids := centroids[idx := centroids[idx - 1]][idx - 1 := c];
        idx := idx - 1;
      }
    }

    /** Second loop of `Rebubble`: up past every smaller mean. */
    method BubbleRight(start: nat, c: Centroid, ghost rest: seq<Centroid>) returns (idx: nat)
      requires start <= |rest| && centroids == InsertAt(rest, start, c)
      modifies this`centroids
      ensures start <= idx <= |rest| && centroids == InsertAt(rest, idx, c)
      ensures idx < |rest| ==> c.mean <= rest[idx].mean
      ensures start < idx ==> rest[idx - 1].mean < c.mean && rest[start].mean < c.mean
    {
      idx := start;
      while idx < |centroids| - 1 && centroids[idx + 1].mean < c.mean
        invariant start <= idx <= |rest| && centroids == InsertAt(rest, idx, c)
        invariant start < idx ==> rest[idx - 1].mean < c.mean && rest[start].mean < c.mean
      {
        SwapRight(rest, idx, c);
        centroids := centroids[idx := centroids[idx + 1]][idx + 1 := c];
        idx := idx + 1;
      }
    }

    /** Moves the centroid at `start` to its place among the others; it stays put exactly when it is in order. */
    method Rebubble(start: nat) returns (idx: nat)
      requires start < |centroids| && Sorted(RemoveAt(centroids, start))
      modifies this`centroids
      ensures Sorted(centroids) && idx < |centroids| == |old(centroids)|
      ensures centroids == InsertAt(RemoveAt(old(centroids), start), idx, old(centroids)[start])
      ensures idx == start <==> InPlace(old(centroids), start)
    {
      var c := centroids[start];
      ghost var rest := RemoveAt(centroids, start);
      PutBack(centroids, start);
      InPlaceAmong(centroids, start);
      idx := BubbleAmong(start, c, rest);
    }

    /** The two loops of `Rebubble`. */
    method BubbleAmong(start: nat, c: Centroid, ghost rest: seq<Centroid>) returns (idx: nat)
      requires start <= |rest| && centroids == InsertAt(rest, start, c) && Sorted(rest)
      modifies this`centroids
      ensures idx <= |rest| && centroids == InsertAt(rest, idx, c) && Sorted(centroids)
      ensures idx == start <==> FitsAt(rest, start, c)
    {
      var left := BubbleLeft(start, c, rest);
      idx := BubbleRight(left, c, rest);
      MovesWhenOut(rest, start, left, idx, c);
      SortedInsert(rest, idx, c);
    }

    /** Folds one value into its nearest centroid; it ends up at `at`, another place only past a twin. */
    method MergeNearest(value: real) returns (ghost nearest: nat, ghost at: nat)
      requires Sorted(centroids) && Weighty(centroids) && |centroids| > 0
      modifies this`centroids
      ensures Sorted(centroids) && Nearest(old(centroids), value, nearest)
      ensures at < |old(centroids)| && old(centroids)[nearest] in old(centroids)
      ensures centroids == Replaced(old(centroids), nearest, at, value)
      ensures at != nearest <==> HasTwinBelow(old(centroids), nearest, value)
    {
      ghost var cs := centroids;
      var idx := NearestIndex(value);
      nearest := idx;
      MergeMoves(cs[idx], value);
      MergeCrossesOnlyTwins(cs, value, idx);
      ghost var ds := cs[idx := Merged(cs[idx], value)];
      assert RemoveAt(ds, idx) == RemoveAt(cs, idx);
      centroids := centroids[idx := Merged(centroids[idx], value)];
      var place := Rebubble(idx);
      at := place;
      assert centroids == Replaced(cs, nearest, at, value);
    }

    /** A new centroid while there is room, else the nearest one takes the value in. */
    method Place(value: real, ghost lo: Option<real>, ghost hi: Option<real>, ghost vs: seq<real>)
      requires Sound(k, centroids, lo, hi, vs)
      modifies this`centroids
      ensures Sound(k, centroids, Lower(lo, value), Higher(hi, value), vs + [value])
    {
      ghost var cs := centroids;
      if |centroids| < k {
        ghost var at := InsertSorted(Centroid(value, 1));
        InsertSound(k, cs, lo, hi, vs, value, at);
        return;
      }
      ghost var i, at := MergeNearest(value);
      MergeSound(k, cs, lo, hi, vs, value, i, at);
      if |centroids| > 2 * k {
        assert false;
      }
    }

    method Observe(value: real)
      requires Valid()
      modifies this
      ensures Valid() && values == old(values) + [value]
    {
      ghost var lo, hi, vs := min, max, values;
      values := values + [value];
      total := total + 1;
      if min == None || value < min.value {
        min := Some(value);
      }
      if max == None || value > max.value {
        max := Some(value);
      }
      Place(value, lo, hi, vs);
    }

    /** A digest that has seen a value is in the order the queries rely on. */
    lemma IsOrdered()
      requires Valid() && values != []
      ensures Ordered(centroids, min.value, max.value) && total == Mass(centroids)
    {
    }

    /** The estimate at quantile `q`. */
    method Quantile(q: real) returns (a: Answer)
      requires Valid()
      ensures !(0.0 <= q <= 1.0) ==> a == OutOfRange
      ensures 0.0 <= q <= 1.0 && values == [] ==> a == NotANumber
      ensures 0.0 <= q <= 1.0 && values != [] ==> a == Value(QuantileOf(centroids, min.value, max.value, total, q))
      ensures a.Value? ==> values != [] && min.value <= a.x <= max.value
    {
      if q < 0.0 || q > 1.0 {
        return OutOfRange;
      }
      if |centroids| == 0 {
        return NotANumber;
      }
      var x := Estimated(q);
      IsOrdered();
      QuantileBounded(centroids, min.value, max.value, total, q);
      return Value(x);
    }

    method Estimated(q: real) returns (x: real)
      requires |centroids| > 0 && min.Some? && max.Some?
      ensures x == QuantileOf(centroids, min.value, max.value, total, q)
    {
      if q == 0.0 {
        return min.value;
      }
      if q == 1.0 {
        return max.value;
      }
      x := Walk(Target(q, total));
    }

    /** The walk over the ordered centroids to the one that straddles `target`. */
    method Walk(target: real) returns (x: real)
      requires |centroids| > 0 && min.Some? && max.Some?
      ensures x == Estimate(centroids, min.value, max.value, target)
    {
      var cum := 0;
      var i := 0;
      while i < |centroids|
        invariant 0 <= i <= |centroids| && cum == Cum(centroids, i)
        invariant Straddling(centroids, target, 0) == Straddling(centroids, target, i)
      {
        var c := centroids[i];
        var prev := cum;
        cum := cum + c.weight;
        if target <= cum as real {
          var leftMean := if i == 0 then min.value else centroids[i - 1].mean;
          var rightMean := if i == |centroids| - 1 then max.value else c.mean;
          var frac := if c.weight > 0 then (target - prev as real) / c.weight as real else 0.0;
          assert frac == FracIn(centroids, target, i);
          return Interpolate(leftMean, rightMean, Clamp(frac));
        }
        i := i + 1;
      }
      return max.value;
    }

    /** The estimated fraction of values at or below `v`. */
    method Rank(v: real) returns (r: Option<real>)
      requires Valid()
      ensures r == if values == [] then None else Some(RankOf(centroids, min.value, max.value, v))
    {
      if |centroids| == 0 || total == 0 {
        return None;
      }
      if v <= min.value {
        return Some(0.0);
      }
      if v >= max.value {
        return Some(1.0);
      }
      MassIsCum(centroids);
      var share := ShareBelow(v);
      return Some(share);
    }

    /** The walk over the ordered centroids to the first mean above `v`. */
    method ShareBelow(v: real) returns (share: real)
      requires min.Some? && total > 0
      ensures share == ShareOf(centroids, min.value, v, total, FirstAbove(centroids, v, 0))
    {
      var cum := 0;
      var i := 0;
      while i < |centroids|
        invariant 0 <= i <= |centroids| && cum == Cum(centroids, i)
        invariant FirstAbove(centroids, v, 0) == FirstAbove(centroids, v, i)
      {
        var c := centroids[i];
        if v < c.mean {
          var prevMean := if i == 0 then min.value else centroids[i - 1].mean;
          var frac := if c.mean == prevMean then 1.0 else (v - prevMean) / (c.mean - prevMean);
          assert frac == Part(prevMean, c.mean, v);
          return Quotient(Reached(cum, c.weight, Clamp(frac)), total);
        }
        cum := cum + c.weight;
        i := i + 1;
      }
      return 1.0;
    }
  }

  // ---------------------------------------------------------------- quantile and rank

  /** Weight of the first `i` centroids. */
  function Cum(cs: seq<Centroid>, i: nat): int
    requires i <= |cs|
  {
    if i == 0 then 0 else Cum(cs, i - 1) + cs[i - 1].weight
  }

  /** The first centroid from `i` on whose cumulative weight reaches `target`. */
  function Straddling(cs: seq<Centroid>, target: real, i: nat): (r: nat)
    requires i <= |cs|
    ensures i <= r <= |cs| && (r < |cs| ==> target <= Cum(cs, r + 1) as real)
    ensures forall j :: i < j <= r ==> Cum(cs, j) as real < target
    decreases |cs| - i
  {
    if i == |cs| || target <= Cum(cs, i + 1) as real then i else Straddling(cs, target, i + 1)
  }

  /** The first centroid from `i` on whose mean lies above `v`. */
  function FirstAbove(cs: seq<Centroid>, v: real, i: nat): (r: nat)
    requires i <= |cs|
    ensures i <= r <= |cs| && (r < |cs| ==> v < cs[r].mean)
    ensures forall j :: i <= j < r ==> cs[j].mean <= v
    decreases |cs| - i
  {
    if i == |cs| || v < cs[i].mean then i else FirstAbove(cs, v, i + 1)
  }

  function LeftEnd(cs: seq<Centroid>, min: real, i: nat): real
    requires i <= |cs|
  {
    if i == 0 then min else cs[i - 1].mean
  }

  function RightEnd(cs: seq<Centroid>, max: real, i: nat): real
    requires i < |cs|
  {
    if i == |cs| - 1 then max else cs[i].mean
  }

  function Clamp(x: real): real {
    if x > 1.0 then 1.0 else if x < 0.0 then 0.0 else x
  }

  function FracIn(cs: seq<Centroid>, target: real, i: nat): real
    requires i < |cs|
  {
    if cs[i].weight > 0 then (target - Cum(cs, i) as real) / cs[i].weight as real else 0.0
  }

  /** The part `f` of a length. */
  function PartOf(d: real, f: real): real {
    d * f
  }

  /** What part of a length `x` is. */
  function Ratio(x: real, d: real): real
    requires d != 0.0
  {
    x / d
  }

  function Interpolate(l: real, r: real, f: real): real {
    l + PartOf(r - l, f)
  }

  /** How much weight lies at or below quantile `q`. */
  function Target(q: real, total: int): real {
    q * total as real
  }

  function QuantileOf(cs: seq<Centroid>, min: real, max: real, total: int, q: real): real {
    if q == 0.0 then min
    else if q == 1.0 then max
    else Estimate(cs, min, max, Target(q, total))
  }

  function Estimate(cs: seq<Centroid>, min: real, max: real, target: real): real {
    var i := Straddling(cs, target, 0);
    if i == |cs| then max else Inside(cs, min, max, target, i)
  }

  function Inside(cs: seq<Centroid>, min: real, max: real, target: real, i: nat): real
    requires i < |cs|
  {
    Interpolate(LeftEnd(cs, min, i), RightEnd(cs, max, i), Clamp(FracIn(cs, target, i)))
  }

  function RankOf(cs: seq<Centroid>, min: real, max: real, v: real): real
    requires Weighty(cs) && |cs| > 0
  {
    MassIsCum(cs);
    if v <= min then 0.0
    else if v >= max then 1.0
    else
      ShareOf(cs, min, v, Mass(cs), FirstAbove(cs, v, 0))
  }

  function Part(l: real, r: real, v: real): real {
    if r == l then 1.0 else Ratio(v - l, r - l)
  }

  function Reached(cum: int, weight: int, f: real): real {
    cum as real + weight as real * f
  }

  /** The weight lying at or below `v`, when centroid `i` is the first whose mean is above `v`. */
  function WeightBelow(cs: seq<Centroid>, min: real, v: real, i: nat): real
    requires i < |cs|
  {
    Reached(Cum(cs, i), cs[i].weight, Clamp(Part(LeftEnd(cs, min, i), cs[i].mean, v)))
  }

  function ShareOf(cs: seq<Centroid>, min: real, v: real, total: int, i: nat): real
    requires i <= |cs| && total > 0
  {
    if i == |cs| then 1.0 else Quotient(WeightBelow(cs, min, v, i), total)
  }

  function Quotient(x: real, n: int): real
    requires n > 0
  {
    x / n as real
  }

  lemma {:induction false} CumPrefix(cs: seq<Centroid>, t: seq<Centroid>, i: nat)
    requires i <= |t| && t <= cs
    ensures Cum(cs, i) == Cum(t, i)
  {
    if i > 0 {
      CumPrefix(cs, t, i - 1);
    }
  }

  lemma {:induction false} MassIsCum(cs: seq<Centroid>)
    ensures Mass(cs) == Cum(cs, |cs|)
    ensures Weighty(cs) ==> Mass(cs) >= |cs|
  {
    if cs != [] {
      var t := cs[..|cs| - 1];
      MassIsCum(t);
      CumPrefix(cs, t, |t|);
      assert cs[|cs| - 1] in cs;
      assert forall c :: c in t ==> c in cs;
    }
  }

  /** What the queries rely on; `Digest.Valid` gives it for a digest that has seen a value. */
  ghost predicate Ordered(cs: seq<Centroid>, min: real, max: real) {
    |cs| > 0 && Sorted(cs) && Weighty(cs) && Between(cs, min, max) && min <= max
  }

  lemma InterpolateBounds(l: real, r: real, f: real)
    requires l <= r && 0.0 <= f <= 1.0
    ensures l <= Interpolate(l, r, f) <= r
  {
    PartOrder(r - l, 0.0, f);
    PartOrder(r - l, f, 1.0);
    PartEnds(r - l);
  }

  lemma PartEnds(d: real)
    ensures PartOf(d, 0.0) == 0.0 && PartOf(d, 1.0) == d
  {
  }

  lemma PartOrder(d: real, f: real, g: real)
    requires d >= 0.0 && f <= g
    ensures PartOf(d, f) <= PartOf(d, g)
  {
    MulMonotone(d, f, g);
  }

  lemma InterpolateMonotone(l: real, r: real, f: real, g: real)
    requires l <= r && f <= g
    ensures Interpolate(l, r, f) <= Interpolate(l, r, g)
  {
    PartOrder(r - l, f, g);
  }

  lemma FracMonotone(cs: seq<Centroid>, t: real, u: real, i: nat)
    requires i < |cs| && t <= u
    ensures FracIn(cs, t, i) <= FracIn(cs, u, i)
  {
    if cs[i].weight > 0 {
      DivMonotone(t - Cum(cs, i) as real, u - Cum(cs, i) as real, cs[i].weight as real);
    }
  }

  /** The stretches the centroids answer for lie end to end in order. */
  lemma EndsInOrder(cs: seq<Centroid>, min: real, max: real, i: nat, j: nat)
    requires Ordered(cs, min, max) && i < |cs| && j < |cs|
    ensures min <= LeftEnd(cs, min, i) <= RightEnd(cs, max, i) <= max
    ensures i < j ==> RightEnd(cs, max, i) <= LeftEnd(cs, min, j)
  {
    assert cs[i] in cs;
    assert i > 0 ==> cs[i - 1] in cs;
  }

  lemma InsideBounds(cs: seq<Centroid>, min: real, max: real, t: real, i: nat)
    requires Ordered(cs, min, max) && i < |cs|
    ensures LeftEnd(cs, min, i) <= Inside(cs, min, max, t, i) <= RightEnd(cs, max, i)
  {
    EndsInOrder(cs, min, max, i, i);
    InterpolateBounds(LeftEnd(cs, min, i), RightEnd(cs, max, i), Clamp(FracIn(cs, t, i)));
  }

  lemma EstimateBounds(cs: seq<Centroid>, min: real, max: real, t: real)
    requires Ordered(cs, min, max)
    ensures min <= Estimate(cs, min, max, t) <= max
  {
    var i := Straddling(cs, t, 0);
    if i < |cs| {
      EndsInOrder(cs, min, max, i, i);
      InsideBounds(cs, min, max, t, i);
    }
  }

  lemma {:induction false} StraddlingMonotone(cs: seq<Centroid>, t: real, u: real, i: nat)
    requires i <= |cs| && t <= u
    ensures Straddling(cs, t, i) <= Straddling(cs, u, i)
    decreases |cs| - i
  {
    if i < |cs| && t > Cum(cs, i + 1) as real {
      StraddlingMonotone(cs, t, u, i + 1);
    }
  }

  lemma EstimateMonotone(cs: seq<Centroid>, min: real, max: real, t: real, u: real)
    requires Ordered(cs, min, max) && t <= u
    ensures Estimate(cs, min, max, t) <= Estimate(cs, min, max, u)
  {
    var i, j := Straddling(cs, t, 0), Straddling(cs, u, 0);
    StraddlingMonotone(cs, t, u, 0);
    if j == |cs| {
      EstimateBounds(cs, min, max, t);
    } else if i == j {
      EndsInOrder(cs, min, max, i, i);
      FracMonotone(cs, t, u, i);
      InterpolateMonotone(LeftEnd(cs, min, i), RightEnd(cs, max, i), Clamp(FracIn(cs, t, i)), Clamp(FracIn(cs, u, i)));
    } else {
      EndsInOrder(cs, min, max, i, j);
      InsideBounds(cs, min, max, t, i);
      InsideBounds(cs, min, max, u, j);
    }
  }

  lemma ScaleMonotone(p: real, q: real, m: int)
    requires p <= q && m >= 0
    ensures Target(p, m) <= Target(q, m)
  {
    MulMonotone(m as real, p, q);
  }

  lemma QuantileBounded(cs: seq<Centroid>, min: real, max: real, total: int, q: real)
    requires Ordered(cs, min, max)
    ensures min <= QuantileOf(cs, min, max, total, q) <= max
  {
    EstimateBounds(cs, min, max, Target(q, total));
  }

  /** A higher quantile is never estimated lower. */
  lemma QuantileMonotone(cs: seq<Centroid>, min: real, max: real, total: int, p: real, q: real)
    requires Ordered(cs, min, max) && total >= 0 && 0.0 <= p <= q <= 1.0
    ensures QuantileOf(cs, min, max, total, p) <= QuantileOf(cs, min, max, total, q)
  {
    if p == 0.0 {
      QuantileBounded(cs, min, max, total, q);
    } else if q == 1.0 {
      QuantileBounded(cs, min, max, total, p);
    } else {
      ScaleMonotone(p, q, total);
      EstimateMonotone(cs, min, max, Target(p, total), Target(q, total));
    }
  }

  /** Inside a stretch of positive length, `Part` undoes `Interpolate`. */
  lemma PartOfInterpolate(l: real, r: real, f: real)
    requires l < r && 0.0 < f < 1.0
    ensures l < Interpolate(l, r, f) < r && Part(l, r, Interpolate(l, r, f)) == f
  {
    PartInside(r - l, f);
    RatioOfPart(r - l, f);
  }

  lemma PartInside(d: real, f: real)
    requires d > 0.0 && 0.0 < f < 1.0
    ensures 0.0 < PartOf(d, f) < d
  {
    var p, g := PartOf(d, f), 1.0 - f;
    MulPos(d, f);
    MulPos(d, g);
    assert p + d * g == d;
    assert 0.0 < p < d;
  }

  lemma RatioOfPart(d: real, f: real)
    requires d > 0.0
    ensures Ratio(PartOf(d, f), d) == f
  {
    RatioOf(PartOf(d, f), d, f);
  }

  lemma RatioOf(p: real, d: real, f: real)
    requires d > 0.0 && p == d * f
    ensures Ratio(p, d) == f
  {
    DivMul(p, d);
    SameOrder(p / d, f, d);
  }

  lemma RatioOrder(x: real, y: real, d: real)
    requires d > 0.0
    ensures (x <= y ==> Ratio(x, d) <= Ratio(y, d)) && (x < y ==> Ratio(x, d) < Ratio(y, d))
  {
    if x < y {
      DivStrict(x, y, d);
    }
  }

  lemma FracInside(cs: seq<Centroid>, t: real, i: nat)
    requires i < |cs| && cs[i].weight >= 1 && Cum(cs, i) as real < t < Cum(cs, i + 1) as real
    ensures 0.0 < FracIn(cs, t, i) < 1.0
    ensures Reached(Cum(cs, i), cs[i].weight, FracIn(cs, t, i)) == t
  {
    var a, w := t - Cum(cs, i) as real, cs[i].weight as real;
    InsideOne(a, w);
    assert FracIn(cs, t, i) == a / w;
  }

  lemma InsideOne(a: real, w: real)
    requires 0.0 < a < w
    ensures 0.0 < a / w < 1.0 && w * (a / w) == a
  {
    DivMul(a, w);
    DivStrict(0.0, a, w);
    DivStrict(a, w, w);
    MulDiv(1.0, w);
  }

  lemma {:induction false} AboveIs(cs: seq<Centroid>, x: real, i: nat)
    requires Sorted(cs) && i < |cs| && x < cs[i].mean && (i > 0 ==> cs[i - 1].mean <= x)
    ensures FirstAbove(cs, x, 0) == i
  {
  }

  lemma {:induction false} CumGrows(cs: seq<Centroid>, i: nat, j: nat)
    requires Weighty(cs) && i <= j <= |cs|
    ensures Cum(cs, i) <= Cum(cs, j)
  {
    if i < j {
      CumGrows(cs, i, j - 1);
      assert cs[j - 1] in cs;
    }
  }

  lemma StraddlesAt(cs: seq<Centroid>, t: real, i: nat)
    requires Weighty(cs) && i < |cs| && Cum(cs, i) as real < t < Cum(cs, i + 1) as real
    ensures Straddling(cs, t, 0) == i
  {
    var r := Straddling(cs, t, 0);
    if r < i {
      CumGrows(cs, r + 1, i);
    }
  }

  /** The value a target inside the stretch of centroid `i` is estimated at. */
  lemma EstimateWithin(cs: seq<Centroid>, min: real, max: real, t: real, i: nat) returns (f: real)
    requires Ordered(cs, min, max) && i < |cs| && Cum(cs, i) as real < t < Cum(cs, i + 1) as real
    ensures 0.0 < f < 1.0 && Reached(Cum(cs, i), cs[i].weight, f) == t
    ensures Estimate(cs, min, max, t) == Interpolate(LeftEnd(cs, min, i), RightEnd(cs, max, i), f)
  {
    assert cs[i] in cs;
    StraddlesAt(cs, t, i);
    f := FracIn(cs, t, i);
    FracInside(cs, t, i);
  }

  /** That value, when the stretch has a length and is not the last one. */
  lemma EstimateInside(cs: seq<Centroid>, min: real, max: real, t: real, i: nat) returns (x: real, f: real)
    requires Ordered(cs, min, max) && i < |cs| - 1
    requires Cum(cs, i) as real < t < Cum(cs, i + 1) as real && LeftEnd(cs, min, i) < cs[i].mean
    ensures x == Estimate(cs, min, max, t) && min <= LeftEnd(cs, min, i) < x < cs[i].mean <= max
    ensures Part(LeftEnd(cs, min, i), cs[i].mean, x) == f && 0.0 < f < 1.0
    ensures Reached(Cum(cs, i), cs[i].weight, f) == t
  {
    f := EstimateWithin(cs, min, max, t, i);
    EndsInOrder(cs, min, max, i, i);
    x := Interpolate(LeftEnd(cs, min, i), cs[i].mean, f);
    PartOfInterpolate(LeftEnd(cs, min, i), cs[i].mean, f);
  }

  lemma {:induction false} WeightInside(cs: seq<Centroid>, min: real, x: real, t: real, f: real, i: nat)
    requires i < |cs| && Part(LeftEnd(cs, min, i), cs[i].mean, x) == f && 0.0 < f < 1.0
    requires Reached(Cum(cs, i), cs[i].weight, f) == t
    ensures WeightBelow(cs, min, x, i) == t
  {
  }

  lemma {:induction false} RankGiven(cs: seq<Centroid>, min: real, max: real, x: real, t: real, f: real, i: nat)
    requires Sorted(cs) && Weighty(cs) && i < |cs| && min < x < max
    requires LeftEnd(cs, min, i) <= x < cs[i].mean && Part(LeftEnd(cs, min, i), cs[i].mean, x) == f && 0.0 < f < 1.0
    requires Reached(Cum(cs, i), cs[i].weight, f) == t
    ensures Mass(cs) > 0 && RankOf(cs, min, max, x) == t / Mass(cs) as real
  {
    MassIsCum(cs);
    AboveIs(cs, x, i);
    WeightInside(cs, min, x, t, f, i);
  }

  /**
   Rank undoes quantile strictly inside every stretch of positive length but the last one, which the
   quantile ends at the maximum and the rank at the last mean.
   */
  lemma RankOfQuantile(cs: seq<Centroid>, min: real, max: real, t: real, i: nat)
    requires Ordered(cs, min, max) && i < |cs| - 1
    requires Cum(cs, i) as real < t < Cum(cs, i + 1) as real && LeftEnd(cs, min, i) < cs[i].mean
    ensures Mass(cs) > 0 && RankOf(cs, min, max, Estimate(cs, min, max, t)) == t / Mass(cs) as real
  {
    var x, f := EstimateInside(cs, min, max, t, i);
    RankGiven(cs, min, max, x, t, f, i);
  }

  lemma StretchedPart(l: real, m: real, r: real, f: real)
    requires l < m <= r && 0.0 < f < 1.0
    ensures l < Interpolate(l, r, f) < r
    ensures Part(l, m, Interpolate(l, r, f)) >= f && (Part(l, m, Interpolate(l, r, f)) == f <==> m == r)
  {
    PartInside(r - l, f);
    RatioOfPart(m - l, f);
    LongerPart(m - l, r - l, f);
    RatioOrder(PartOf(m - l, f), PartOf(r - l, f), m - l);
  }

  lemma LongerPart(d: real, e: real, f: real)
    requires d <= e && f > 0.0
    ensures PartOf(d, f) <= PartOf(e, f) && (d < e ==> PartOf(d, f) < PartOf(e, f))
  {
    if d < e {
      MulStrict(f, d, e);
    }
  }

  lemma QuotientOrder(x: real, y: real, n: int)
    requires n > 0
    ensures (x <= y ==> Quotient(x, n) <= Quotient(y, n)) && (x < y ==> Quotient(x, n) < Quotient(y, n))
  {
    if x < y {
      DivStrict(x, y, n as real);
    }
  }

  lemma ReachedOrder(cum: int, weight: int, f: real, g: real)
    requires weight >= 1
    ensures (f <= g ==> Reached(cum, weight, f) <= Reached(cum, weight, g)) &&
            (f < g ==> Reached(cum, weight, f) < Reached(cum, weight, g))
  {
    if f < g {
      MulStrict(weight as real, f, g);
    }
  }

  lemma NoneAbove(cs: seq<Centroid>, x: real)
    requires Sorted(cs) && |cs| > 0 && cs[|cs| - 1].mean <= x
    ensures FirstAbove(cs, x, 0) == |cs|
  {
  }

  /** The value a target inside the last stretch is estimated at, when the last centroid has a stretch of its own. */
  lemma EstimateLast(cs: seq<Centroid>, min: real, max: real, t: real) returns (x: real, f: real)
    requires Ordered(cs, min, max)
    requires var i := |cs| - 1;
             Cum(cs, i) as real < t < Cum(cs, i + 1) as real && LeftEnd(cs, min, i) < cs[i].mean
    ensures x == Estimate(cs, min, max, t) && min < x < max
    ensures var i := |cs| - 1; var l, mean := LeftEnd(cs, min, i), cs[i].mean;
            l < x && l < mean <= max && 0.0 < f <= Part(l, mean, x) && (Part(l, mean, x) == f <==> max == mean) &&
            Reached(Cum(cs, i), cs[i].weight, f) == t
  {
    var i := |cs| - 1;
    f := EstimateWithin(cs, min, max, t, i);
    EndsInOrder(cs, min, max, i, i);
    x := Interpolate(LeftEnd(cs, min, i), max, f);
    StretchedPart(LeftEnd(cs, min, i), cs[i].mean, max, f);
  }

  lemma PartBelowOne(l: real, m: real, x: real)
    requires l < x < m
    ensures Part(l, m, x) < 1.0
  {
    RatioOrder(x - l, m - l, m - l);
    RatioOf(m - l, m - l, 1.0);
  }

  lemma LastRank(cs: seq<Centroid>, min: real, max: real, x: real, t: real, f: real)
    requires Ordered(cs, min, max) && min < x < max && t < Mass(cs) as real
    requires var i := |cs| - 1; var l, mean := LeftEnd(cs, min, i), cs[i].mean;
             l < x && l < mean <= max && 0.0 < f <= Part(l, mean, x) && (Part(l, mean, x) == f <==> max == mean) &&
             Reached(Cum(cs, i), cs[i].weight, f) == t
    ensures Mass(cs) > 0
    ensures var rank := RankOf(cs, min, max, x);
            rank >= Quotient(t, Mass(cs)) && (rank == Quotient(t, Mass(cs)) <==> max == cs[|cs| - 1].mean)
  {
    var i, n := |cs| - 1, Mass(cs);
    MassIsCum(cs);
    assert cs[i] in cs;
    if x < cs[i].mean {
      AboveIs(cs, x, i);
      PartBelowOne(LeftEnd(cs, min, i), cs[i].mean, x);
      LastShare(cs, min, x, t, f, n, max);
      assert RankOf(cs, min, max, x) == ShareOf(cs, min, x, n, i);
    } else {
      NoneAbove(cs, x);
      QuotientOrder(t, n as real, n);
      WholeQuotient(n);
      assert RankOf(cs, min, max, x) == 1.0;
      assert max != cs[i].mean;
    }
  }

  /**
   In the last stretch the rank of a quantile is never below the target's, and is above it exactly when the
   maximum lies above the last mean: there the rank already counts the whole weight.
   */
  lemma RankOfLastQuantile(cs: seq<Centroid>, min: real, max: real, t: real)
    requires Ordered(cs, min, max)
    requires var i := |cs| - 1;
             Cum(cs, i) as real < t < Cum(cs, i + 1) as real && LeftEnd(cs, min, i) < cs[i].mean
    ensures Mass(cs) > 0
    ensures var rank := RankOf(cs, min, max, Estimate(cs, min, max, t));
            rank >= Quotient(t, Mass(cs)) && (rank == Quotient(t, Mass(cs)) <==> max == cs[|cs| - 1].mean)
  {
    MassIsCum(cs);
    var x, f := EstimateLast(cs, min, max, t);
    LastRank(cs, min, max, x, t, f);
  }

  lemma WholeQuotient(n: int)
    requires n > 0
    ensures Quotient(n as real, n) == 1.0
  {
  }

  lemma LastShare(cs: seq<Centroid>, min: real, x: real, t: real, f: real, n: int, max: real)
    requires |cs| > 0 && n > 0 && cs[|cs| - 1].weight >= 1
    requires var i := |cs| - 1; var part := Part(LeftEnd(cs, min, i), cs[i].mean, x);
             0.0 < f <= part < 1.0 && (part == f <==> max == cs[i].mean) && Reached(Cum(cs, i), cs[i].weight, f) == t
    ensures var share := ShareOf(cs, min, x, n, |cs| - 1);
            share >= Quotient(t, n) && (share == Quotient(t, n) <==> max == cs[|cs| - 1].mean)
  {
    var i := |cs| - 1;
    var part := Part(LeftEnd(cs, min, i), cs[i].mean, x);
    ReachedOrder(Cum(cs, i), cs[i].weight, f, part);
    QuotientOrder(t, Reached(Cum(cs, i), cs[i].weight, part), n);
  }

  /**
   Quantile `q` lies strictly inside the stretch of centroid `i`: more than that part of the values, less
   than that.
   */
  ghost predicate InStretch(cs: seq<Centroid>, q: real, i: nat) {
    i < |cs| && Cum(cs, i) as real < q * Mass(cs) as real < Cum(cs, i + 1) as real
  }

  lemma TargetIn(cs: seq<Centroid>, min: real, max: real, q: real, i: nat)
    requires Weighty(cs) && InStretch(cs, q, i)
    ensures Mass(cs) > 0 && Quotient(Target(q, Mass(cs)), Mass(cs)) == q
    ensures QuantileOf(cs, min, max, Mass(cs), q) == Estimate(cs, min, max, Target(q, Mass(cs)))
  {
    var n := Mass(cs);
    MassIsCum(cs);
    CumGrows(cs, 0, i);
    CumGrows(cs, i + 1, |cs|);
    RatioOf(Target(q, n), n as real, q);
    assert q != 0.0 && q != 1.0;
  }

  /**
   Rank undoes quantile: the rank of the value estimated at `q` is `q`, strictly inside every stretch of
   positive length but the last one.
   */
  lemma RankUndoesQuantile(cs: seq<Centroid>, min: real, max: real, q: real, i: nat)
    requires Ordered(cs, min, max) && InStretch(cs, q, i) && i < |cs| - 1 && LeftEnd(cs, min, i) < cs[i].mean
    ensures RankOf(cs, min, max, QuantileOf(cs, min, max, Mass(cs), q)) == q
  {
    TargetIn(cs, min, max, q, i);
    RankOfQuantile(cs, min, max, Target(q, Mass(cs)), i);
  }

  /** In the last one it is at least `q`, and `q` exactly when the maximum is the last mean. */
  lemma RankAtLeastQuantile(cs: seq<Centroid>, min: real, max: real, q: real, i: nat)
    requires Ordered(cs, min, max) && InStretch(cs, q, i) && i == |cs| - 1 && LeftEnd(cs, min, i) < cs[i].mean
    ensures var rank := RankOf(cs, min, max, QuantileOf(cs, min, max, Mass(cs), q));
            rank >= q && (rank == q <==> max == cs[i].mean)
  {
    TargetIn(cs, min, max, q, i);
    assert RankOf(cs, min, max, Estimate(cs, min, max, Target(q, Mass(cs)))) >= q by {
      RankOfLastQuantile(cs, min, max, Target(q, Mass(cs)));
    }
    RankOfLastQuantile(cs, min, max, Target(q, Mass(cs)));
  }

  // ---------------------------------------------------------------- the rank as a function of the value

  lemma WeightBelowBounds(cs: seq<Centroid>, min: real, v: real, i: nat)
    requires Weighty(cs) && i < |cs|
    ensures 0.0 <= Cum(cs, i) as real <= WeightBelow(cs, min, v, i) <= Cum(cs, i + 1) as real
  {
    assert cs[i] in cs;
    CumGrows(cs, 0, i);
    var f := Clamp(Part(LeftEnd(cs, min, i), cs[i].mean, v));
    ReachedOrder(Cum(cs, i), cs[i].weight, 0.0, f);
    ReachedOrder(Cum(cs, i), cs[i].weight, f, 1.0);
    ReachedEnds(Cum(cs, i), cs[i].weight);
  }

  lemma ReachedEnds(cum: int, weight: int)
    ensures Reached(cum, weight, 0.0) == cum as real && Reached(cum, weight, 1.0) == (cum + weight) as real
  {
  }

  lemma PartMonotone(l: real, r: real, v: real, u: real)
    requires l <= r && v <= u
    ensures Part(l, r, v) <= Part(l, r, u)
  {
    if l < r {
      RatioOrder(v - l, u - l, r - l);
    }
  }

  lemma ShareBounds(cs: seq<Centroid>, min: real, v: real, i: nat)
    requires Weighty(cs) && |cs| > 0 && i <= |cs|
    ensures Mass(cs) > 0 && 0.0 <= ShareOf(cs, min, v, Mass(cs), i) <= 1.0
  {
    var n := Mass(cs);
    MassIsCum(cs);
    if i < |cs| {
      WeightBelowBounds(cs, min, v, i);
      CumGrows(cs, i + 1, |cs|);
      QuotientOrder(0.0, WeightBelow(cs, min, v, i), n);
      QuotientOrder(WeightBelow(cs, min, v, i), n as real, n);
      WholeQuotient(n);
      assert Quotient(0.0, n) == 0.0;
    }
  }

  /**
   In a stretch of length zero, that is where a mean repeats the one before or the minimum, the rank of a
   quantile is above the target's, unless the quantile is the minimum, whose rank is zero.
   */
  lemma RankOfFlatQuantile(cs: seq<Centroid>, min: real, max: real, t: real, i: nat)
    requires Ordered(cs, min, max) && i < |cs|
    requires Cum(cs, i) as real < t < Cum(cs, i + 1) as real && LeftEnd(cs, min, i) == cs[i].mean
    ensures Mass(cs) > 0 && cs[i].mean <= Estimate(cs, min, max, t)
    ensures var x := Estimate(cs, min, max, t);
            if x == min then RankOf(cs, min, max, x) == 0.0 else RankOf(cs, min, max, x) > Quotient(t, Mass(cs))
  {
    MassIsCum(cs);
    var f := EstimateWithin(cs, min, max, t, i);
    EndsInOrder(cs, min, max, i, i);
    InterpolateBounds(cs[i].mean, RightEnd(cs, max, i), f);
    var x := Estimate(cs, min, max, t);
    if x > min {
      RankBeyond(cs, min, max, x, t, i);
    }
  }

  /** So on `q`: where a mean repeats the one before, the rank is above `q`, unless the quantile is the minimum. */
  lemma RankAboveQuantile(cs: seq<Centroid>, min: real, max: real, q: real, i: nat)
    requires Ordered(cs, min, max) && InStretch(cs, q, i) && LeftEnd(cs, min, i) == cs[i].mean
    ensures var x := QuantileOf(cs, min, max, Mass(cs), q);
            cs[i].mean <= x && if x == min then RankOf(cs, min, max, x) == 0.0 else RankOf(cs, min, max, x) > q
  {
    TargetIn(cs, min, max, q, i);
    RankOfFlatQuantile(cs, min, max, Target(q, Mass(cs)), i);
  }

  lemma RankBeyond(cs: seq<Centroid>, min: real, max: real, x: real, t: real, i: nat)
    requires Ordered(cs, min, max) && i < |cs| && cs[i].mean <= x && min < x && t < Cum(cs, i + 1) as real
    ensures Mass(cs) > 0 && RankOf(cs, min, max, x) > Quotient(t, Mass(cs))
  {
    MassIsCum(cs);
    var n, j := Mass(cs), FirstAbove(cs, x, 0);
    CumGrows(cs, i + 1, |cs|);
    QuotientOrder(t, n as real, n);
    WholeQuotient(n);
    if x < max && j < |cs| {
      assert i < j;
      CumGrows(cs, i + 1, j);
      WeightBelowBounds(cs, min, x, j);
      QuotientOrder(t, WeightBelow(cs, min, x, j), n);
    }
  }

  /** A rank is a fraction. */
  lemma RankBounded(cs: seq<Centroid>, min: real, max: real, v: real)
    requires Weighty(cs) && |cs| > 0
    ensures 0.0 <= RankOf(cs, min, max, v) <= 1.0
  {
    ShareBounds(cs, min, v, FirstAbove(cs, v, 0));
  }

  lemma WeightBelowMonotone(cs: seq<Centroid>, min: real, max: real, v: real, u: real, i: nat)
    requires Ordered(cs, min, max) && i < |cs| && v <= u
    ensures WeightBelow(cs, min, v, i) <= WeightBelow(cs, min, u, i)
  {
    assert cs[i] in cs;
    assert i > 0 ==> cs[i - 1] in cs;
    var l, r := LeftEnd(cs, min, i), cs[i].mean;
    PartMonotone(l, r, v, u);
    ReachedOrder(Cum(cs, i), cs[i].weight, Clamp(Part(l, r, v)), Clamp(Part(l, r, u)));
  }

  lemma ShareMonotone(cs: seq<Centroid>, min: real, max: real, v: real, u: real, i: nat, j: nat)
    requires Ordered(cs, min, max) && i <= j <= |cs| && v <= u
    ensures Mass(cs) > 0 && ShareOf(cs, min, v, Mass(cs), i) <= ShareOf(cs, min, u, Mass(cs), j)
  {
    MassIsCum(cs);
    if j == |cs| {
      ShareBounds(cs, min, v, i);
    } else {
      if i == j {
        WeightBelowMonotone(cs, min, max, v, u, i);
      } else {
        WeightBelowBounds(cs, min, v, i);
        WeightBelowBounds(cs, min, u, j);
        CumGrows(cs, i + 1, j);
      }
      QuotientOrder(WeightBelow(cs, min, v, i), WeightBelow(cs, min, u, j), Mass(cs));
    }
  }

  /** A higher value never has a lower rank. */
  lemma RankMonotone(cs: seq<Centroid>, min: real, max: real, v: real, u: real)
    requires Ordered(cs, min, max) && v <= u
    ensures RankOf(cs, min, max, v) <= RankOf(cs, min, max, u)
  {
    var i, j := FirstAbove(cs, v, 0), FirstAbove(cs, u, 0);
    RankBounded(cs, min, max, v);
    RankBounded(cs, min, max, u);
    assert i <= j;
    ShareMonotone(cs, min, max, v, u, i, j);
  }
}
