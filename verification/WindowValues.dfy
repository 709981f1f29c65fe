/**
 The points of a window as a list of values, and what an accumulated cell says about such a list: the meaning
 of count, sum and extremes, told without cells or rings.
 */
module WindowValues {
  import opened Prelude
  import opened Samples
  import opened WindowSpec
  import Ints

  /** The bucket the point falls in begins inside the window [end - windowMs, end). */
  predicate InWindow(windowMs: int, bucketMs: int, end: int, p: Point)
    requires bucketMs > 0
  {
    end - windowMs <= StartOf(bucketMs, p.timestamp / bucketMs) < end
  }

  /** The values of the points in the window, as they arrived. */
  function ValuesIn(windowMs: int, bucketMs: int, end: int, points: seq<Point>): seq<real>
    requires bucketMs > 0
  {
    if points == [] then []
    else
      var p, before := points[|points| - 1], ValuesIn(windowMs, bucketMs, end, points[..|points| - 1]);
      if InWindow(windowMs, bucketMs, end, p) then before + [p.value] else before
  }

  /** The values of the points that fall in the bucket that begins at `start`. */
  function ValuesAt(bucketMs: int, start: int, points: seq<Point>): seq<real>
    requires bucketMs > 0
  {
    if points == [] then []
    else
      var p, before := points[|points| - 1], ValuesAt(bucketMs, start, points[..|points| - 1]);
      if start <= p.timestamp < start + bucketMs then before + [p.value] else before
  }

  /** The cell counts the values, adds them up and has their extremes. */
  ghost predicate Summarises(c: Cell, vs: seq<real>) {
    c.count == |vs| && c.sum == Total(vs) &&
    (c.min == None <==> vs == []) && (c.max == None <==> vs == []) &&
    (vs != [] ==> IsLeast(c.min.value, vs) && IsGreatest(c.max.value, vs))
  }

  lemma OneMore(c: Cell, vs: seq<real>, v: real)
    requires Summarises(c, vs)
    ensures Summarises(Add(c, v), vs + [v])
  {
    var more, d := vs + [v], Add(c, v);
    assert more[..|vs|] == vs && more[|vs|] == v;
    if vs != [] {
      assert c.min.value in vs && c.max.value in vs;
      assert forall x :: x in vs ==> x in more;
    }
    assert d.min.value in more && d.max.value in more;
  }

  /** A bucket begins in the window exactly when its index is in the range the aggregator goes through. */
  lemma RangeIsWindow(windowMs: int, bucketMs: int, end: int, p: Point)
    requires bucketMs > 0
    ensures InWindow(windowMs, bucketMs, end, p) <==>
            FirstIndex(windowMs, bucketMs, end) <= p.timestamp / bucketMs <= LastIndex(bucketMs, end)
  {
    var i, first, last := p.timestamp / bucketMs, FirstIndex(windowMs, bucketMs, end), LastIndex(bucketMs, end);
    FirstIsCeiling(windowMs, bucketMs, end, i);
    LastIsFloor(bucketMs, end, i);
  }

  lemma FirstIsCeiling(windowMs: int, bucketMs: int, end: int, i: int)
    requires bucketMs > 0
    ensures FirstIndex(windowMs, bucketMs, end) <= i <==> end - windowMs <= StartOf(bucketMs, i)
  {
    var q := (windowMs - end) / bucketMs;
    Ints.DivMod(windowMs - end, bucketMs);
    assert -q * bucketMs == -(q * bucketMs);
    if -q <= i {
      Ints.MulMonotone(-q, i, bucketMs);
    } else {
      Ints.MulMonotone(i, -q - 1, bucketMs);
      assert (-q - 1) * bucketMs == -(q * bucketMs) - bucketMs;
    }
  }

  lemma LastIsFloor(bucketMs: int, end: int, i: int)
    requires bucketMs > 0
    ensures i <= LastIndex(bucketMs, end) <==> StartOf(bucketMs, i) < end
  {
    var q := (end - 1) / bucketMs;
    Ints.DivMod(end - 1, bucketMs);
    if i <= q {
      Ints.MulMonotone(i, q, bucketMs);
    } else {
      Ints.MulMonotone(q + 1, i, bucketMs);
      assert (q + 1) * bucketMs == q * bucketMs + bucketMs;
    }
  }

  /** The fold over a window is a summary of the values in it. */
  lemma {:induction false} WindowSummarises(g: Grid, windowMs: int, points: seq<Point>, end: int)
    requires g.Valid()
    ensures Summarises(Window(g, points, FirstIndex(windowMs, g.bucketMs, end), LastIndex(g.bucketMs, end)),
                       ValuesIn(windowMs, g.bucketMs, end, points))
  {
    if points != [] {
      var front, p := points[..|points| - 1], points[|points| - 1];
      WindowSummarises(g, windowMs, front, end);
      RangeIsWindow(windowMs, g.bucketMs, end, p);
      if InWindow(windowMs, g.bucketMs, end, p) {
        OneMore(Window(g, front, FirstIndex(windowMs, g.bucketMs, end), LastIndex(g.bucketMs, end)),
                ValuesIn(windowMs, g.bucketMs, end, front), p.value);
      }
    }
  }

  lemma InBucket(bucketMs: int, i: int, t: int)
    requires bucketMs > 0
    ensures t / bucketMs == i <==> StartOf(bucketMs, i) <= t < StartOf(bucketMs, i) + bucketMs
  {
    Ints.DivMod(t, bucketMs);
    if StartOf(bucketMs, i) <= t < StartOf(bucketMs, i) + bucketMs {
      Ints.DivUnique(t, i, bucketMs, t - i * bucketMs);
    }
  }

  /** And the fold over one bucket is a summary of the values that fall between its start and its end. */
  lemma {:induction false} BucketSummarises(g: Grid, points: seq<Point>, i: int)
    requires g.Valid()
    ensures Summarises(Window(g, points, i, i), ValuesAt(g.bucketMs, StartOf(g.bucketMs, i), points))
  {
    if points != [] {
      var front, p := points[..|points| - 1], points[|points| - 1];
      BucketSummarises(g, front, i);
      InBucket(g.bucketMs, i, p.timestamp);
      if g.Index(p) == i {
        OneMore(Window(g, front, i, i), ValuesAt(g.bucketMs, StartOf(g.bucketMs, i), front), p.value);
      }
    }
  }

  // ---------------------------------------------------------------- the window in time

  /**
   A bucket that the start of the window cuts through is left out, so no point of the window's time is missed
   exactly when the window starts where a bucket does.
   */
  lemma NothingCutExactly(windowMs: int, bucketMs: int, end: int)
    requires bucketMs > 0 && windowMs > 0
    ensures (forall p: Point :: end - windowMs <= p.timestamp < end ==> InWindow(windowMs, bucketMs, end, p)) <==>
            (end - windowMs) % bucketMs == 0
  {
    var start := end - windowMs;
    Ints.DivMod(start, bucketMs);
    if start % bucketMs == 0 {
      forall p: Point | start <= p.timestamp < end ensures InWindow(windowMs, bucketMs, end, p) {
        var q, k := start / bucketMs, p.timestamp / bucketMs;
        Ints.DivMod(p.timestamp, bucketMs);
        assert (k + 1) * bucketMs == k * bucketMs + bucketMs;
        Ints.MulLess(q, k + 1, bucketMs);
        Ints.MulMonotone(q, k, bucketMs);
      }
    } else {
      assert !InWindow(windowMs, bucketMs, end, Point(start, 0.0));
    }
  }
}
