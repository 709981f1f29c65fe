/**
 Metric cubes: every point feeds an hour cell and a day cell for its tags, and the two all-tags cells.
 A tag set is taken as already canonical; None stands for no tags and for the all-tags cell.
 */
module MetricRollup {
  import opened Prelude
  import opened Samples
  import Ints

  const HOUR := 3600000
  const DAY := 86400000

  datatype Grain = Hour | Day

  function Span(g: Grain): int {
    if g == Hour then HOUR else DAY
  }

  function Bucketize(t: int, g: Grain): int {
    t / Span(g) * Span(g)
  }

  datatype Point<M, T> = Point(metric: M, timestamp: int, value: real, tags: Option<T>)
  datatype Key<M, T> = Key(metric: M, grain: Grain, bucketStart: int, tags: Option<T>)
  datatype Cell = Cell(count: nat, sum: real, min: real, max: real)
  type Cube<M(==), T(==)> = map<Key<M, T>, Cell>

  function Fed(c: Option<Cell>, v: real): Cell {
    match c
    case None => Cell(1, v, v, v)
    case Some(c) => Cell(c.count + 1, c.sum + v, if v < c.min then v else c.min, if v > c.max then v else c.max)
  }

  function Accumulated<M(==), T(==)>(cube: Cube<M, T>, k: Key<M, T>, v: real): Cube<M, T> {
    cube[k := Fed(if k in cube then Some(cube[k]) else None, v)]
  }

  function FedAt<M(==), T(==)>(cube: Cube<M, T>, p: Point<M, T>, g: Grain): Cube<M, T> {
    var start := Bucketize(p.timestamp, g);
    var own := Accumulated(cube, Key(p.metric, g, start, p.tags), p.value);
    if p.tags.Some? then Accumulated(own, Key(p.metric, g, start, None), p.value) else own
  }

  function Added<M(==), T(==)>(cube: Cube<M, T>, p: Point<M, T>): Cube<M, T> {
    FedAt(FedAt(cube, p, Hour), p, Day)
  }

  function Run<M(==), T(==)>(ps: seq<Point<M, T>>): Cube<M, T> {
    if ps == [] then map[] else Added(Run(ps[..|ps| - 1]), ps[|ps| - 1])
  }

  /** A query for the all-tags cells of a metric; an absent bound is no bound. */
  datatype Query<M> = Query(metric: M, grain: Grain, from: Option<int>, to: Option<int>)

  predicate InRange(start: int, from: Option<int>, to: Option<int>) {
    (from.Some? ==> start >= from.value) && (to.Some? ==> start <= to.value)
  }

  predicate Asked<M(==), T>(q: Query<M>, k: Key<M, T>) {
    k.metric == q.metric && k.grain == q.grain && k.tags.None? && InRange(k.bucketStart, q.from, q.to)
  }

  function SumIfAsked<M(==), T>(q: Query<M>, k: Key<M, T>, c: Cell): real {
    if Asked(q, k) then c.sum else 0.0
  }

  ghost function TotalOf<M, T>(cube: Cube<M, T>, q: Query<M>): real
    decreases |cube|
  {
    if cube == map[] then 0.0
    else
      var k :| k in cube;
      LessOne(cube, k);
      SumIfAsked(q, k, cube[k]) + TotalOf(cube - {k}, q)
  }

  lemma LessOne<K, V>(m: map<K, V>, k: K)
    requires k in m
    ensures |m - {k}| == |m| - 1
  {
    assert (m - {k}).Keys == m.Keys - {k};
  }

  lemma {:induction false} TotalWithout<M, T>(cube: Cube<M, T>, q: Query<M>, k: Key<M, T>)
    requires k in cube
    ensures TotalOf(cube, q) == SumIfAsked(q, k, cube[k]) + TotalOf(cube - {k}, q)
    decreases |cube|
  {
    var j :| j in cube && TotalOf(cube, q) == SumIfAsked(q, j, cube[j]) + TotalOf(cube - {j}, q);
    if j != k {
      var rest := cube - {j} - {k};
      LessOne(cube, j);
      LessOne(cube, k);
      TotalWithout(cube - {j}, q, k);
      TotalWithout(cube - {k}, q, j);
      assert cube - {k} - {j} == rest;
    }
  }

  class Rollup<M(==, !new), T(==, !new)> {
    var cells: Cube<M, T>

    constructor ()
      ensures cells == map[]
    {
      cells := map[];
    }

    method Accumulate(k: Key<M, T>, v: real)
      modifies this
      ensures cells == Accumulated(old(cells), k, v)
    {
      var c := Cell(0, 0.0, v, v);
      if k in cells {
        c := cells[k];
      }
      c := c.(count := c.count + 1, sum := c.sum + v);
      if v < c.min {
        c := c.(min := v);
      }
      if v > c.max {
        c := c.(max := v);
      }
      cells := cells[k := c];
    }

    method FeedGrain(p: Point<M, T>, g: Grain)
      modifies this
      ensures cells == FedAt(old(cells), p, g)
    {
      var start := Bucketize(p.timestamp, g);
      Accumulate(Key(p.metric, g, start, p.tags), p.value);
      if p.tags.Some? {
        Accumulate(Key(p.metric, g, start, None), p.value);
      }
    }

    method Add(p: Point<M, T>)
      modifies this
      ensures cells == Added(old(cells), p)
    {
      FeedGrain(p, Hour);
      FeedGrain(p, Day);
    }

    method Total(q: Query<M>) returns (sum: real)
      ensures sum == TotalOf(cells, q)
    {
      sum := 0.0;
      var left := cells;
      while left != map[]
        invariant sum + TotalOf(left, q) == TotalOf(cells, q)
        decreases |left|
      {
        var k :| k in left;
        TotalWithout(left, q, k);
        LessOne(left, k);
        if k.metric == q.metric && k.grain == q.grain && k.tags.None? && InRange(k.bucketStart, q.from, q.to) {
          sum := sum + left[k].sum;
        }
        left := left - {k};
      }
    }
  }

  // ---------------------------------------------------------------- what the totals mean

  lemma {:induction false} AccumulateTotals<M, T>(cube: Cube<M, T>, k: Key<M, T>, v: real, q: Query<M>)
    ensures TotalOf(Accumulated(cube, k, v), q) == TotalOf(cube, q) + if Asked(q, k) then v else 0.0
  {
    var after := Accumulated(cube, k, v);
    TotalWithout(after, q, k);
    assert after - {k} == cube - {k};
    if k in cube {
      TotalWithout(cube, q, k);
    } else {
      assert cube - {k} == cube;
    }
  }

  /** The hour or the day of a time begins here. */
  function StartOf(t: int, g: Grain): int {
    match g
    case Hour => t - t % 3600000
    case Day => t - t % 86400000
  }

  lemma BucketizeIsStart(t: int, g: Grain)
    ensures Bucketize(t, g) == StartOf(t, g)
  {
    Ints.DivMod(t, HOUR);
    Ints.DivMod(t, DAY);
  }

  /** A point of the metric, in an hour or day that begins between the bounds. */
  predicate Counts<M(==), T>(q: Query<M>, p: Point<M, T>) {
    p.metric == q.metric && (q.from.None? || q.from.value <= StartOf(p.timestamp, q.grain)) &&
    (q.to.None? || StartOf(p.timestamp, q.grain) <= q.to.value)
  }

  /** The sum over the raw points. */
  function PointSum<M(==), T>(ps: seq<Point<M, T>>, q: Query<M>): real {
    if ps == [] then 0.0
    else PointSum(ps[..|ps| - 1], q) + if Counts(q, ps[|ps| - 1]) then ps[|ps| - 1].value else 0.0
  }

  lemma {:induction false} FeedTotals<M, T>(cube: Cube<M, T>, p: Point<M, T>, g: Grain, q: Query<M>)
    ensures TotalOf(FedAt(cube, p, g), q) ==
            TotalOf(cube, q) + if g == q.grain && Counts(q, p) then p.value else 0.0
  {
    var start := Bucketize(p.timestamp, g);
    BucketizeIsStart(p.timestamp, g);
    AccumulateTotals(cube, Key(p.metric, g, start, p.tags), p.value, q);
    if p.tags.Some? {
      AccumulateTotals(Accumulated(cube, Key(p.metric, g, start, p.tags), p.value), Key(p.metric, g, start, None),
        p.value, q);
    }
  }

  /** A total counts every point of its metric and range once, tagged or not. */
  lemma {:induction false} TotalIsPointSum<M, T>(ps: seq<Point<M, T>>, q: Query<M>)
    ensures TotalOf(Run(ps), q) == PointSum(ps, q)
  {
    if ps != [] {
      var front, p := ps[..|ps| - 1], ps[|ps| - 1];
      TotalIsPointSum(front, q);
      FeedTotals(Run(front), p, Hour, q);
      FeedTotals(FedAt(Run(front), p, Hour), p, Day, q);
    }
  }

  /** A point lies in the days from `d` to `e` exactly when it lies in their hours. */
  lemma HoursOfDays(t: int, d: int, e: int)
    ensures d * DAY <= StartOf(t, Day) <= e * DAY <==> d * DAY <= StartOf(t, Hour) <= e * DAY + 23 * HOUR
  {
    BucketizeIsStart(t, Day);
    BucketizeIsStart(t, Hour);
    Ints.DivMod(t, DAY);
    Ints.DivMod(t, HOUR);
    var day, hour := t / DAY, t / HOUR;
    assert d <= day <= e <==> d * 24 <= hour <= e * 24 + 23;
  }

  lemma {:induction false} DaySumIsHourSum<M, T>(ps: seq<Point<M, T>>, metric: M, d: int, e: int)
    ensures PointSum(ps, Query(metric, Day, Some(d * DAY), Some(e * DAY))) ==
            PointSum(ps, Query(metric, Hour, Some(d * DAY), Some(e * DAY + 23 * HOUR)))
  {
    if ps != [] {
      DaySumIsHourSum(ps[..|ps| - 1], metric, d, e);
      HoursOfDays(ps[|ps| - 1].timestamp, d, e);
    }
  }

  /** The total over some days is the total over their hours. */
  lemma {:induction false} DayTotalIsHourTotal<M, T>(ps: seq<Point<M, T>>, metric: M, d: int, e: int)
    ensures TotalOf(Run(ps), Query(metric, Day, Some(d * DAY), Some(e * DAY))) ==
            TotalOf(Run(ps), Query(metric, Hour, Some(d * DAY), Some(e * DAY + 23 * HOUR)))
  {
    TotalIsPointSum(ps, Query(metric, Day, Some(d * DAY), Some(e * DAY)));
    TotalIsPointSum(ps, Query(metric, Hour, Some(d * DAY), Some(e * DAY + 23 * HOUR)));
    DaySumIsHourSum(ps, metric, d, e);
  }

  // ---------------------------------------------------------------- what a cell holds

  /** The point falls in the cell: by metric and time, and by its tags or whatever they are. */
  predicate Falls<M(==), T(==)>(p: Point<M, T>, k: Key<M, T>) {
    p.metric == k.metric && StartOf(p.timestamp, k.grain) == k.bucketStart && (k.tags == p.tags || k.tags == None)
  }

  function ValuesOf<M(==), T(==)>(ps: seq<Point<M, T>>, k: Key<M, T>): seq<real> {
    if ps == [] then []
    else
      var before := ValuesOf(ps[..|ps| - 1], k);
      if Falls(ps[|ps| - 1], k) then before + [ps[|ps| - 1].value] else before
  }

  /** The cell counts the values, adds them up and has their extremes. */
  ghost predicate Summarises(c: Cell, vs: seq<real>) {
    c.count == |vs| && c.sum == Total(vs) && IsLeast(c.min, vs) && IsGreatest(c.max, vs)
  }

  function CellAt<M(==), T(==)>(cube: Cube<M, T>, k: Key<M, T>): Option<Cell> {
    if k in cube then Some(cube[k]) else None
  }

  lemma FedAtFeeds<M, T>(cube: Cube<M, T>, p: Point<M, T>, g: Grain, k: Key<M, T>)
    ensures CellAt(FedAt(cube, p, g), k) ==
            if k.grain == g && Falls(p, k) then Some(Fed(CellAt(cube, k), p.value)) else CellAt(cube, k)
  {
    BucketizeIsStart(p.timestamp, g);
  }

  lemma AddedFeeds<M, T>(cube: Cube<M, T>, p: Point<M, T>, k: Key<M, T>)
    ensures CellAt(Added(cube, p), k) ==
            if Falls(p, k) then Some(Fed(CellAt(cube, k), p.value)) else CellAt(cube, k)
  {
    FedAtFeeds(cube, p, Hour, k);
    FedAtFeeds(FedAt(cube, p, Hour), p, Day, k);
  }

  lemma FedSummarises(c: Option<Cell>, vs: seq<real>, v: real)
    requires if c.Some? then Summarises(c.value, vs) else vs == []
    ensures Summarises(Fed(c, v), vs + [v])
  {
    assert (vs + [v])[..|vs|] == vs;
    if c.Some? {
      ExtremesGrow(vs, c.value.min, c.value.max, v);
    }
  }

  /**
   After any run there is a cell exactly where points fall, and it has their number, sum, least and greatest
   value.
   */
  lemma {:induction false} CellMeans<M, T>(ps: seq<Point<M, T>>, k: Key<M, T>)
    ensures k in Run(ps) <==> ValuesOf(ps, k) != []
    ensures k in Run(ps) ==> Summarises(Run(ps)[k], ValuesOf(ps, k))
  {
    if ps != [] {
      var front, p := ps[..|ps| - 1], ps[|ps| - 1];
      CellMeans(front, k);
      AddedFeeds(Run(front), p, k);
      FedSummarises(CellAt(Run(front), k), ValuesOf(front, k), p.value);
    }
  }
}
