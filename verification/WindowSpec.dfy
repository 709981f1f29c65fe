/**
 Sliding windows over time buckets, as values: what a ring of `slots` lazily reset cells holds after a
 history of points, and when that is the same as folding the whole history.
 */
module WindowSpec {
  import opened Prelude
  import Ints

  datatype Point = Point(timestamp: int, value: real)

  /** What is accumulated about some points; the extremes of no points are None. */
  datatype Cell = Cell(count: nat, sum: real, min: Option<real>, max: Option<real>)

  const EMPTY := Cell(0, 0.0, None, None)

  function Least(a: Option<real>, b: Option<real>): Option<real> {
    if a == None then b else if b == None || a.value <= b.value then a else b
  }

  function Greatest(a: Option<real>, b: Option<real>): Option<real> {
    if a == None then b else if b == None || a.value >= b.value then a else b
  }

  function Merge(c: Cell, d: Cell): Cell {
    Cell(c.count + d.count, c.sum + d.sum, Least(c.min, d.min), Greatest(c.max, d.max))
  }

  function Add(c: Cell, v: real): Cell {
    Merge(c, Cell(1, v, Some(v), Some(v)))
  }

  datatype Bucket = Bucket(index: int, cell: Cell)

  /** Bucket width and number of ring cells. */
  datatype Grid = Grid(bucketMs: int, slots: int) {
    predicate Valid() {
      bucketMs > 0 && slots > 0
    }

    function Index(p: Point): int
      requires Valid()
    {
      p.timestamp / bucketMs
    }
  }

  /** A negative bucket index makes a negative remainder, and no cell, unless the remainder is zero. */
  predicate Lands(g: Grid, index: int)
    requires g.Valid()
  {
    index >= 0 || index % g.slots == 0
  }

  /** The cells after one more point: a cell of another index is reset first. */
  function Placed(g: Grid, cells: seq<Bucket>, index: int, v: real): (r: seq<Bucket>)
    requires g.Valid() && |cells| == g.slots
    ensures |r| == g.slots
  {
    if !Lands(g, index) then cells
    else
      var b := cells[index % g.slots];
      cells[index % g.slots := Bucket(index, Add(if b.index == index then b.cell else EMPTY, v))]
  }

  /** The cells after a history. */
  function Ring(g: Grid, points: seq<Point>): (r: seq<Bucket>)
    requires g.Valid()
    ensures |r| == g.slots
  {
    if points == [] then seq(g.slots, i => Bucket(-1, EMPTY))
    else
      var last := points[|points| - 1];
      Placed(g, Ring(g, points[..|points| - 1]), g.Index(last), last.value)
  }

  /** What the ring shows for bucket `i`; nothing, when its cell belongs to another bucket. */
  function Peek(g: Grid, cells: seq<Bucket>, i: int): Cell
    requires g.Valid() && |cells| == g.slots
  {
    if i >= 0 && cells[i % g.slots].index == i then cells[i % g.slots].cell else EMPTY
  }

  /** What the ring shows for the buckets from `first` up to `last`. */
  function Shown(g: Grid, cells: seq<Bucket>, first: int, last: int): Cell
    requires g.Valid() && |cells| == g.slots
    decreases last - first
  {
    if last < first then EMPTY else Merge(Shown(g, cells, first, last - 1), Peek(g, cells, last))
  }

  /** A value of bucket `k`, counted if the bucket is in range. */
  function TakenIn(c: Cell, v: real, k: int, first: int, last: int): Cell {
    if first <= k <= last then Add(c, v) else c
  }

  /** The fold over the whole history: the points whose bucket is in range, whenever they arrived. */
  function Window(g: Grid, points: seq<Point>, first: int, last: int): Cell
    requires g.Valid()
  {
    if points == [] then EMPTY
    else
      var p := points[|points| - 1];
      TakenIn(Window(g, points[..|points| - 1], first, last), p.value, g.Index(p), first, last)
  }

  lemma LeastRegroups(a: Option<real>, b: Option<real>, c: Option<real>)
    ensures Least(Least(a, b), c) == Least(a, Least(b, c)) && Least(Least(a, b), c) == Least(Least(a, c), b)
  {
  }

  lemma GreatestRegroups(a: Option<real>, b: Option<real>, c: Option<real>)
    ensures Greatest(Greatest(a, b), c) == Greatest(a, Greatest(b, c)) &&
            Greatest(Greatest(a, b), c) == Greatest(Greatest(a, c), b)
  {
  }

  /** A point may be counted into either of two parts. */
  lemma AddToPart(a: Cell, b: Cell, v: real)
    ensures Merge(Add(a, v), b) == Add(Merge(a, b), v) && Merge(a, Add(b, v)) == Add(Merge(a, b), v)
  {
    LeastRegroups(a.min, b.min, Some(v));
    GreatestRegroups(a.max, b.max, Some(v));
  }

  /** A point of bucket `k` is counted in the range up to `last` as it is before `last` and at `last`. */
  lemma PointGoesIn(all: Cell, a: Cell, b: Cell, v: real, k: int, first: int, last: int)
    requires all == Merge(a, b) && first <= last
    ensures TakenIn(all, v, k, first, last) == Merge(TakenIn(a, v, k, first, last - 1), TakenIn(b, v, k, last, last))
  {
    PartsStay(all, a, b, v, first <= k < last, k == last);
  }

  /** The fold over values whose buckets are known. */
  function Fold(dated: seq<(int, real)>, first: int, last: int): Cell {
    if dated == [] then EMPTY
    else
      var (k, v) := dated[|dated| - 1];
      TakenIn(Fold(dated[..|dated| - 1], first, last), v, k, first, last)
  }

  function Dated(g: Grid, points: seq<Point>): (dated: seq<(int, real)>)
    requires g.Valid()
    ensures |dated| == |points|
  {
    seq(|points|, i requires 0 <= i < |points| => (g.Index(points[i]), points[i].value))
  }

  lemma {:induction false} WindowIsFold(g: Grid, points: seq<Point>, first: int, last: int)
    requires g.Valid()
    ensures Window(g, points, first, last) == Fold(Dated(g, points), first, last)
  {
    if points != [] {
      var front := points[..|points| - 1];
      WindowIsFold(g, front, first, last);
      assert Dated(g, points)[..|points| - 1] == Dated(g, front);
    }
  }

  lemma {:induction false} FoldSplits(dated: seq<(int, real)>, first: int, last: int)
    requires first <= last
    ensures Fold(dated, first, last) == Merge(Fold(dated, first, last - 1), Fold(dated, last, last))
  {
    if dated != [] {
      var (k, v) := dated[|dated| - 1];
      var front := dated[..|dated| - 1];
      FoldSplits(front, first, last);
      PointGoesIn(Fold(front, first, last), Fold(front, first, last - 1), Fold(front, last, last), v, k, first, last);
    }
  }

  lemma WindowSplits(g: Grid, points: seq<Point>, first: int, last: int)
    requires g.Valid() && first <= last
    ensures Window(g, points, first, last) == Merge(Window(g, points, first, last - 1), Window(g, points, last, last))
  {
    WindowIsFold(g, points, first, last);
    WindowIsFold(g, points, first, last - 1);
    WindowIsFold(g, points, last, last);
    FoldSplits(Dated(g, points), first, last);
  }

  /** A point counted into one of two parts, or into neither, is counted into the whole, or not. */
  lemma PartsStay(all: Cell, a: Cell, b: Cell, v: real, left: bool, right: bool)
    requires all == Merge(a, b) && !(left && right)
    ensures (if left || right then Add(all, v) else all) ==
            Merge(if left then Add(a, v) else a, if right then Add(b, v) else b)
  {
    AddToPart(a, b, v);
  }

  lemma {:induction false} WindowOfNothing(g: Grid, points: seq<Point>, first: int, last: int)
    requires g.Valid() && last < first
    ensures Window(g, points, first, last) == EMPTY
  {
    if points != [] {
      WindowOfNothing(g, points[..|points| - 1], first, last);
    }
  }

  /** The extremes of a fold are the least and the greatest value in range. */
  lemma {:induction false} WindowExtremes(g: Grid, points: seq<Point>, first: int, last: int)
    requires g.Valid()
    ensures var c := Window(g, points, first, last);
            (c.count == 0 <==> c.min == None) && (c.count == 0 <==> c.max == None) &&
            (forall k :: 0 <= k < |points| && first <= g.Index(points[k]) <= last ==>
               c.count > 0 && c.min.value <= points[k].value <= c.max.value) &&
            (c.count > 0 ==>
               (exists k ::
                  0 <= k < |points| && first <= g.Index(points[k]) <= last && points[k].value == c.min.value) &&
               (exists k ::
                  0 <= k < |points| && first <= g.Index(points[k]) <= last && points[k].value == c.max.value))
  {
    if points != [] {
      var front, last', c := points[..|points| - 1], |points| - 1, Window(g, points, first, last);
      WindowExtremes(g, front, first, last);
      var before := Window(g, front, first, last);
      if first <= g.Index(points[last']) <= last {
        if before.count > 0 {
          var k :| 0 <= k < |front| && first <= g.Index(front[k]) <= last && front[k].value == before.min.value;
          assert points[if c.min == before.min then k else last'].value == c.min.value;
          var m :| 0 <= m < |front| && first <= g.Index(front[m]) <= last && front[m].value == before.max.value;
          assert points[if c.max == before.max then m else last'].value == c.max.value;
        } else {
          assert points[last'].value == c.min.value == c.max.value;
        }
      } else if before.count > 0 {
        var k :| 0 <= k < |front| && first <= g.Index(front[k]) <= last && front[k].value == before.min.value;
        var m :| 0 <= m < |front| && first <= g.Index(front[m]) <= last && front[m].value == before.max.value;
        assert points[k] == front[k] && points[m] == front[m];
      }
    }
  }

  // ---------------------------------------------------------------- when a bucket survives

  /** A point of bucket `j` takes the cell of bucket `i`. */
  predicate Clobbers(g: Grid, j: int, i: int)
    requires g.Valid()
  {
    j != i && Lands(g, j) && j % g.slots == i % g.slots
  }

  /** Nothing that came after a point of bucket `i` took its cell. */
  predicate Intact(g: Grid, points: seq<Point>, i: int)
    requires g.Valid()
  {
    forall a, b :: 0 <= a < b < |points| && g.Index(points[a]) == i ==> !Clobbers(g, g.Index(points[b]), i)
  }

  lemma {:induction false} NoPointNoCount(g: Grid, points: seq<Point>, i: int)
    requires g.Valid()
    ensures Window(g, points, i, i).count > 0 <==> exists a :: 0 <= a < |points| && g.Index(points[a]) == i
    ensures Window(g, points, i, i).count == 0 ==> Window(g, points, i, i) == EMPTY
  {
    WindowExtremes(g, points, i, i);
    NoCountIsEmpty(g, points, i);
  }

  lemma {:induction false} NoCountIsEmpty(g: Grid, points: seq<Point>, i: int)
    requires g.Valid()
    ensures Window(g, points, i, i).count == 0 ==> Window(g, points, i, i) == EMPTY
  {
    if points != [] {
      NoCountIsEmpty(g, points[..|points| - 1], i);
    }
  }

  /** What a new point does to what is shown for bucket `i`. */
  lemma PeekAfter(g: Grid, cells: seq<Bucket>, j: int, v: real, i: int)
    requires g.Valid() && |cells| == g.slots && i >= 0
    ensures Peek(g, Placed(g, cells, j, v), i) ==
            if j == i then Add(Peek(g, cells, i), v) else if Clobbers(g, j, i) then EMPTY else Peek(g, cells, i)
  {
  }

  /** A bucket is shown in full exactly when it is intact; otherwise points of it are missing. */
  lemma {:induction false} ShownInFull(g: Grid, points: seq<Point>, i: int)
    requires g.Valid() && i >= 0
    ensures if Intact(g, points, i) then Peek(g, Ring(g, points), i) == Window(g, points, i, i)
            else Peek(g, Ring(g, points), i).count < Window(g, points, i, i).count
  {
    if points == [] {
      Ints.DivMod(i, g.slots);
    } else {
      var p, front := points[|points| - 1], points[..|points| - 1];
      ShownInFull(g, front, i);
      assert front + [p] == points;
      PeekSnoc(g, front, p, i);
      WindowSnoc(g, front, p, i);
      NoPointNoCount(g, front, i);
      IntactAfter(g, front, p, i);
    }
  }

  lemma {:induction false} PeekSnoc(g: Grid, front: seq<Point>, p: Point, i: int)
    requires g.Valid() && i >= 0
    ensures Peek(g, Ring(g, front + [p]), i) ==
            if g.Index(p) == i then Add(Peek(g, Ring(g, front), i), p.value)
            else if Clobbers(g, g.Index(p), i) then EMPTY else Peek(g, Ring(g, front), i)
  {
    assert (front + [p])[..|front|] == front;
    PeekAfter(g, Ring(g, front), g.Index(p), p.value, i);
  }

  lemma {:induction false} WindowSnoc(g: Grid, front: seq<Point>, p: Point, i: int)
    requires g.Valid()
    ensures Window(g, front + [p], i, i) ==
            if g.Index(p) == i then Add(Window(g, front, i, i), p.value) else Window(g, front, i, i)
  {
    assert (front + [p])[..|front|] == front;
  }

  lemma IntactAfter(g: Grid, front: seq<Point>, p: Point, i: int)
    requires g.Valid()
    ensures Intact(g, front + [p], i) <==>
            Intact(g, front, i) && !(Clobbers(g, g.Index(p), i) &&
            exists a :: 0 <= a < |front| && g.Index(front[a]) == i)
  {
    var points := front + [p];
    assert forall a :: 0 <= a < |front| ==> points[a] == front[a];
    assert points[|front|] == p;
  }

  /** Points at non-negative times, none of which lags the newest bucket of its time by `slots` or more. */
  predicate InReach(g: Grid, points: seq<Point>)
    requires g.Valid()
  {
    (forall a :: 0 <= a < |points| ==> points[a].timestamp >= 0) &&
    forall a, b :: 0 <= a < b < |points| ==> g.Index(points[b]) > g.Index(points[a]) - g.slots
  }

  /** Then every bucket less than `slots` behind the newest is intact. */
  lemma LiveIsIntact(g: Grid, points: seq<Point>, i: int)
    requires g.Valid() && InReach(g, points)
    requires forall a :: 0 <= a < |points| ==> g.Index(points[a]) - g.slots < i
    ensures Intact(g, points, i)
  {
    forall a, b | 0 <= a < b < |points| && g.Index(points[a]) == i ensures !Clobbers(g, g.Index(points[b]), i) {
      if Clobbers(g, g.Index(points[b]), i) {
        var j := g.Index(points[b]);
        Ints.SameRemainder(if i < j then i else j, if i < j then j else i, g.slots);
      }
    }
  }

  lemma {:induction false} ShownIsWindow(g: Grid, points: seq<Point>, first: int, last: int)
    requires g.Valid() && forall a :: 0 <= a < |points| ==> points[a].timestamp >= 0
    requires forall i :: first <= i <= last ==> Intact(g, points, i)
    ensures Shown(g, Ring(g, points), first, last) == Window(g, points, first, last)
    decreases last - first
  {
    if last < first {
      WindowOfNothing(g, points, first, last);
    } else {
      ShownIsWindow(g, points, first, last - 1);
      WindowSplits(g, points, first, last);
      assert Intact(g, points, last);
      if last >= 0 {
        ShownInFull(g, points, last);
      } else {
        NoPointNoCount(g, points, last);
        WindowExtremes(g, points, last, last);
        NothingNegative(g, points, last);
      }
    }
  }

  lemma {:induction false} NothingNegative(g: Grid, points: seq<Point>, i: int)
    requires g.Valid() && i < 0 && forall a :: 0 <= a < |points| ==> points[a].timestamp >= 0
    ensures Window(g, points, i, i) == EMPTY
  {
    if points != [] {
      NothingNegative(g, points[..|points| - 1], i);
      assert points[|points| - 1].timestamp >= 0;
    }
  }

  // ---------------------------------------------------------------- the window of the aggregator

  function FirstIndex(windowMs: int, bucketMs: int, end: int): int
    requires bucketMs > 0
  {
    -((windowMs - end) / bucketMs)
  }

  function LastIndex(bucketMs: int, end: int): int
    requires bucketMs > 0
  {
    (end - 1) / bucketMs
  }

  /** The aggregate of the window that ends at `end` is the fold over the history. */
  predicate Exact(g: Grid, windowMs: int, points: seq<Point>, end: int)
    requires g.Valid()
  {
    Shown(g, Ring(g, points), FirstIndex(windowMs, g.bucketMs, end), LastIndex(g.bucketMs, end)) ==
    Window(g, points, FirstIndex(windowMs, g.bucketMs, end), LastIndex(g.bucketMs, end))
  }

  predicate NotAfter(points: seq<Point>, end: int) {
    forall a :: 0 <= a < |points| ==> points[a].timestamp <= end
  }

  /** Every history in reach is aggregated exactly over every window that ends no earlier. */
  ghost predicate LosesNothing(g: Grid, windowMs: int)
    requires g.Valid()
  {
    forall points: seq<Point>, end: int :: InReach(g, points) && NotAfter(points, end) ==>
      Exact(g, windowMs, points, end)
  }

  lemma FirstIsLive(windowMs: int, g: Grid, end: int, t: int)
    requires g.Valid() && t <= end && g.slots >= windowMs / g.bucketMs + 1
    ensures t / g.bucketMs - g.slots < FirstIndex(windowMs, g.bucketMs, end)
  {
    var b := g.bucketMs;
    var x, y, w := t / b, (windowMs - end) / b, windowMs / b;
    Ints.DivMod(t, b);
    Ints.DivMod(windowMs - end, b);
    Ints.DivMod(windowMs, b);
    assert (w + 1) * b == w * b + b;
    assert (x + y) * b == x * b + y * b;
    Ints.MulLess(x + y, w + 1, b);
  }

  /** Enough slots: the aggregate is the fold over the history. */
  lemma WindowIsExact(g: Grid, windowMs: int, points: seq<Point>, end: int)
    requires g.Valid() && InReach(g, points) && g.slots >= windowMs / g.bucketMs + 1
    requires NotAfter(points, end)
    ensures Exact(g, windowMs, points, end)
  {
    var first, last := FirstIndex(windowMs, g.bucketMs, end), LastIndex(g.bucketMs, end);
    forall i | first <= i <= last ensures Intact(g, points, i) {
      forall a | 0 <= a < |points| ensures g.Index(points[a]) - g.slots < i {
        FirstIsLive(windowMs, g, end, points[a].timestamp);
      }
      LiveIsIntact(g, points, i);
    }
    ShownIsWindow(g, points, first, last);
  }

  /** One slot too few: a point at the very end of the window takes the cell of the oldest bucket in it. */
  lemma TooFewSlots(g: Grid, windowMs: int)
    requires g.Valid() && windowMs >= g.bucketMs && g.slots <= windowMs / g.bucketMs
    ensures !LosesNothing(g, windowMs)
  {
    var b, s, k := g.bucketMs, g.slots, windowMs / g.bucketMs + g.slots;
    var p, q := Point(StartOf(b, k - s), 1.0), Point(StartOf(b, k), 1.0);
    RangeAtMultiple(windowMs, b, k);
    RangeAtMultiple(windowMs, b, k - s);
    SubtractPeriod(k, s);
    StartsInOrder(b, 0, k - s);
    StartsInOrder(b, k - s, k);
    PairClashes(g, windowMs, p, q);
  }

  /** Where a bucket starts. */
  function StartOf(b: int, k: int): int {
    k * b
  }

  lemma StartsInOrder(b: int, i: int, j: int)
    requires b > 0 && i <= j
    ensures StartOf(b, i) <= StartOf(b, j) && StartOf(b, 0) == 0
  {
    Ints.MulMonotone(i, j, b);
  }

  lemma PairClashes(g: Grid, windowMs: int, p: Point, q: Point)
    requires g.Valid() && 0 <= p.timestamp <= q.timestamp
    requires 0 <= g.Index(p) < g.Index(q) && g.Index(p) % g.slots == g.Index(q) % g.slots
    requires FirstIndex(windowMs, g.bucketMs, q.timestamp) <= g.Index(p) <= LastIndex(g.bucketMs, q.timestamp)
    ensures !LosesNothing(g, windowMs)
  {
    OldestIsLost(g, p, q, FirstIndex(windowMs, g.bucketMs, q.timestamp), LastIndex(g.bucketMs, q.timestamp));
    PairInReach(g, p, q);
    NotExact(g, windowMs, [p, q], q.timestamp);
  }

  lemma PairInReach(g: Grid, p: Point, q: Point)
    requires g.Valid() && 0 <= p.timestamp <= q.timestamp
    ensures InReach(g, [p, q]) && NotAfter([p, q], q.timestamp)
  {
    Ints.DivMod(p.timestamp, g.bucketMs);
    Ints.DivMod(q.timestamp, g.bucketMs);
    Ints.MulLess(p.timestamp / g.bucketMs, q.timestamp / g.bucketMs + 1, g.bucketMs);
  }

  lemma NotExact(g: Grid, windowMs: int, points: seq<Point>, end: int)
    requires g.Valid() && InReach(g, points) && NotAfter(points, end) && !Exact(g, windowMs, points, end)
    ensures !LosesNothing(g, windowMs)
  {
  }

  /** A point that lags by a multiple of `slots` buckets wipes the newer bucket whose cell it takes. */
  lemma {:induction false} LateHidesNewer(g: Grid, newer: Point, late: Point)
    requires g.Valid() && 0 <= g.Index(late) < g.Index(newer) && g.Index(late) % g.slots == g.Index(newer) % g.slots
    ensures var i := g.Index(newer);
            Peek(g, Ring(g, [newer, late]), i).count < Window(g, [newer, late], i, i).count
  {
    var points, i := [newer, late], g.Index(newer);
    ShownInFull(g, points, i);
    assert g.Index(points[0]) == i && Clobbers(g, g.Index(points[1]), i);
    assert !Intact(g, points, i);
  }

  /** Two points `slots` buckets apart: the later takes the cell of the earlier. */
  lemma {:induction false} OldestIsLost(g: Grid, p: Point, q: Point, first: int, last: int)
    requires g.Valid() && 0 <= g.Index(p) < g.Index(q) && g.Index(p) % g.slots == g.Index(q) % g.slots
    requires first <= g.Index(p) <= last
    ensures Shown(g, Ring(g, [p, q]), first, last) != Window(g, [p, q], first, last)
  {
    var points, i := [p, q], g.Index(p);
    assert g.Index(points[0]) == i && Clobbers(g, g.Index(points[1]), i);
    ShownInFull(g, points, i);
    ShownIsLess(g, points, first, last, i);
  }

  lemma RangeAtMultiple(windowMs: int, b: int, k: int)
    requires b > 0
    ensures FirstIndex(windowMs, b, StartOf(b, k)) == k - windowMs / b && LastIndex(b, StartOf(b, k)) == k - 1
    ensures StartOf(b, k) / b == k
  {
    var w, r := windowMs / b, windowMs % b;
    Ints.DivMod(windowMs, b);
    assert (w - k) * b == w * b - k * b && (k - 1) * b == k * b - b;
    Ints.DivUnique(windowMs - k * b, w - k, b, r);
    Ints.DivUnique(k * b - 1, k - 1, b, b - 1);
    Ints.DivUnique(k * b, k, b, 0);
  }

  lemma SubtractPeriod(k: int, s: int)
    requires s > 0
    ensures (k - s) % s == k % s
  {
    Ints.DivMod(k, s);
    assert (k / s - 1) * s == k / s * s - s;
    Ints.DivUnique(k - s, k / s - 1, s, k % s);
  }

  lemma {:induction false} PeekIsBounded(g: Grid, points: seq<Point>, i: int)
    requires g.Valid()
    ensures Peek(g, Ring(g, points), i).count <= Window(g, points, i, i).count
  {
    if i >= 0 {
      ShownInFull(g, points, i);
    }
  }

  ghost function Sum(f: int -> int, first: int, last: int): int
    decreases last - first
  {
    if last < first then 0 else Sum(f, first, last - 1) + f(last)
  }

  lemma {:induction false} SumIsLess(f: int -> int, h: int -> int, first: int, last: int, i: int)
    requires forall k :: f(k) <= h(k)
    ensures Sum(f, first, last) <= Sum(h, first, last)
    ensures first <= i <= last && f(i) < h(i) ==> Sum(f, first, last) < Sum(h, first, last)
    decreases last - first
  {
    if last >= first {
      SumIsLess(f, h, first, last - 1, i);
    }
  }

  /** How many points each bucket shows, and how many there were. */
  ghost function ShownCounts(g: Grid, cells: seq<Bucket>): int -> int
    requires g.Valid() && |cells| == g.slots
  {
    k => Peek(g, cells, k).count
  }

  ghost function TrueCounts(g: Grid, points: seq<Point>): int -> int
    requires g.Valid()
  {
    k => Window(g, points, k, k).count
  }

  lemma {:induction false} ShownIsSum(g: Grid, cells: seq<Bucket>, first: int, last: int)
    requires g.Valid() && |cells| == g.slots
    ensures Shown(g, cells, first, last).count == Sum(ShownCounts(g, cells), first, last)
    decreases last - first
  {
    if last >= first {
      ShownIsSum(g, cells, first, last - 1);
    }
  }

  lemma WindowCount(g: Grid, points: seq<Point>, first: int, last: int)
    requires g.Valid() && first <= last
    ensures Window(g, points, first, last).count ==
            Window(g, points, first, last - 1).count + Window(g, points, last, last).count
  {
    WindowSplits(g, points, first, last);
  }

  lemma {:induction false} WindowIsSum(g: Grid, points: seq<Point>, first: int, last: int)
    requires g.Valid()
    ensures Window(g, points, first, last).count == Sum(TrueCounts(g, points), first, last)
    decreases last - first
  {
    if last >= first {
      WindowIsSum(g, points, first, last - 1);
      WindowCount(g, points, first, last);
    } else {
      WindowOfNothing(g, points, first, last);
    }
  }

  /** No bucket shows more than there was, so one that shows less makes the whole less. */
  lemma ShownIsLess(g: Grid, points: seq<Point>, first: int, last: int, i: int)
    requires g.Valid()
    ensures Shown(g, Ring(g, points), first, last).count <= Window(g, points, first, last).count
    ensures first <= i <= last && Peek(g, Ring(g, points), i).count < Window(g, points, i, i).count ==>
              Shown(g, Ring(g, points), first, last).count < Window(g, points, first, last).count
  {
    var f, h := ShownCounts(g, Ring(g, points)), TrueCounts(g, points);
    forall k ensures f(k) <= h(k) {
      PeekIsBounded(g, points, k);
    }
    SumIsLess(f, h, first, last, i);
    ShownIsSum(g, Ring(g, points), first, last);
    WindowIsSum(g, points, first, last);
  }

  /** Nothing is lost exactly from one slot more than whole buckets in the window: the extra slot is needed. */
  lemma SlotsNeeded(g: Grid, windowMs: int)
    requires g.Valid() && windowMs >= g.bucketMs
    ensures LosesNothing(g, windowMs) <==> g.slots >= windowMs / g.bucketMs + 1
  {
    if g.slots >= windowMs / g.bucketMs + 1 {
      forall points: seq<Point>, end: int | InReach(g, points) && NotAfter(points, end)
        ensures Exact(g, windowMs, points, end)
      {
        WindowIsExact(g, windowMs, points, end);
      }
    } else {
      TooFewSlots(g, windowMs);
    }
  }
}
