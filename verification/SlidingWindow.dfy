/** The sliding-window aggregator in place: a ring of cells per metric, aggregates, sparklines and pruning. */
module SlidingWindow {
  import opened Prelude
  import opened Samples
  import opened WindowSpec
  import opened WindowValues
  import Ints

  datatype Kind = Count | Sum | Avg | Min | Max

  /** The reported value of some points; None is NaN. */
  function ValueOf(kind: Kind, c: Cell): Option<real> {
    match kind
    case Count => Some(c.count as real)
    case Sum => Some(c.sum)
    case Avg => if c.count > 0 then Some(c.sum / c.count as real) else None
    case Min => if c.count > 0 then c.min else None
    case Max => if c.count > 0 then c.max else None
  }

  /** The value is the aggregate of the kind over the values; None, where there is none. */
  ghost predicate Reports(kind: Kind, vs: seq<real>, value: Option<real>) {
    match kind
    case Count => value == Some(|vs| as real)
    case Sum => value == Some(Total(vs))
    case Avg => if vs == [] then value == None else value.Some? && value.value * |vs| as real == Total(vs)
    case Min => if vs == [] then value == None else value.Some? && IsLeast(value.value, vs)
    case Max => if vs == [] then value == None else value.Some? && IsGreatest(value.value, vs)
  }

  lemma SummaryReports(kind: Kind, c: Cell, vs: seq<real>)
    requires Summarises(c, vs)
    ensures Reports(kind, vs, ValueOf(kind, c))
  {
  }

  /** The same for one bucket of a sparkline, where no values leave a gap. */
  ghost predicate ReportsOrGap(kind: Kind, vs: seq<real>, value: Option<real>) {
    if vs == [] then value == None else Reports(kind, vs, value)
  }

  /** The running accumulator for a kind; None stands for the infinity a minimum or maximum starts from. */
  function AccOf(kind: Kind, c: Cell): Option<real> {
    match kind
    case Count => Some(c.count as real)
    case Sum => Some(c.sum)
    case Avg => Some(c.sum)
    case Min => c.min
    case Max => c.max
  }

  function Combine(kind: Kind, acc: Option<real>, b: Cell): Option<real> {
    match kind
    case Count => Some(acc.GetOr(0.0) + b.count as real)
    case Sum => Some(acc.GetOr(0.0) + b.sum)
    case Avg => Some(acc.GetOr(0.0) + b.sum)
    case Min => if b.count > 0 then Least(acc, b.min) else acc
    case Max => if b.count > 0 then Greatest(acc, b.max) else acc
  }

  /** Highest bucket index written, -1 if none. */
  function Newest(g: Grid, points: seq<Point>): int
    requires g.Valid()
  {
    if points == [] then -1
    else
      var before, i := Newest(g, points[..|points| - 1]), g.Index(points[|points| - 1]);
      if Lands(g, i) && i > before then i else before
  }

  class MetricRing {
    const grid: Grid
    const cells: array<Bucket>
    var newestIndex: int
    ghost var points: seq<Point>

    ghost predicate Valid()
      reads this, cells
    {
      grid.Valid() && cells[..] == Ring(grid, points) && newestIndex == Newest(grid, points)
    }

    constructor (grid: Grid)
      requires grid.Valid()
      ensures Valid() && fresh(cells) && this.grid == grid && points == []
    {
      this.grid := grid;
      cells := new Bucket[grid.slots](i => Bucket(-1, EMPTY));
      newestIndex := -1;
      points := [];
    }

    /** The cell for a bucket, reset if it held another one. */
    method At(index: int) returns (slot: nat)
      requires grid.Valid() && cells.Length == grid.slots && Lands(grid, index)
      modifies cells
      ensures slot == index % grid.slots
      ensures cells[..] == old(cells[..])[slot :=
              Bucket(index, if old(cells[..])[slot].index == index then old(cells[..])[slot].cell else EMPTY)]
    {
      slot := index % grid.slots;
      if cells[slot].index != index {
        cells[slot] := Bucket(index, EMPTY);
      }
    }

    function PeekAt(i: int): Cell
      requires grid.Valid() && cells.Length == grid.slots
      reads cells
      ensures PeekAt(i) == Peek(grid, cells[..], i)
    {
      if i < 0 then EMPTY
      else if cells[i % grid.slots].index == i then cells[i % grid.slots].cell else EMPTY
    }

    /** Counts a value into the cell for a bucket. */
    method Fold(index: int, v: real)
      requires grid.Valid() && cells.Length == grid.slots && Lands(grid, index)
      modifies cells
      ensures cells[..] == Placed(grid, old(cells[..]), index, v)
    {
      ghost var before := cells[..];
      var slot := At(index);
      var c := cells[slot].cell;
      var min := if c.min == None || v < c.min.value then Some(v) else c.min;
      var max := if c.max == None || v > c.max.value then Some(v) else c.max;
      assert Cell(c.count + 1, c.sum + v, min, max) == Add(c, v);
      cells[slot] := Bucket(index, Cell(c.count + 1, c.sum + v, min, max));
    }

    /** False when there is no cell for the bucket and the program throws. */
    method Record(p: Point) returns (ok: bool)
      requires Valid()
      modifies this, cells
      ensures Valid() && points == old(points) + [p] && ok == Lands(grid, grid.Index(p))
    {
      var index := p.timestamp / grid.bucketMs;
      points := points + [p];
      assert points[..|points| - 1] == old(points);
      if index < 0 && index % grid.slots != 0 {
        return false;
      }
      Fold(index, p.value);
      if index > newestIndex {
        newestIndex := index;
      }
      return true;
    }

    /** What the buckets from `first` up to `last` add up to, under one kind. */
    method Gather(kind: Kind, first: int, last: int) returns (samples: nat, acc: Option<real>)
      requires Valid()
      ensures var c := Shown(grid, Ring(grid, points), first, last);
              Sound(c) && samples == c.count && acc == AccOf(kind, c)
    {
      acc := if kind == Min || kind == Max then None else Some(0.0);
      samples := 0;
      ghost var c, held := EMPTY, Ring(grid, points);
      var i := first;
      while i <= last
        invariant first <= i && (i <= last + 1 || i == first)
        invariant c == Shown(grid, held, first, i - 1) && Sound(c)
        invariant samples == c.count && acc == AccOf(kind, c)
      {
        var b := PeekAt(i);
        PeekIsSound(grid, points, i);
        CombineIsMerge(kind, c, b);
        c := Merge(c, b);
        acc := Combine(kind, acc, b);
        samples := samples + b.count;
        i := i + 1;
      }
      NothingBetween(grid, held, first, last, i);
    }
  }

  class SlidingWindowAggregator<K(==, !new)> {
    const windowMs: int
    const grid: Grid
    var rings: map<K, MetricRing>

    ghost predicate Apart()
      reads this
    {
      forall j, k :: j in rings && k in rings && j != k ==> rings[j] != rings[k] && rings[j].cells != rings[k].cells
    }

    ghost function Parts(): set<object>
      reads this
    {
      (set k | k in rings :: rings[k]) + (set k | k in rings :: rings[k].cells)
    }

    ghost predicate Valid()
      reads this, Parts()
    {
      grid.bucketMs > 0 && windowMs >= grid.bucketMs && grid.slots == -((-windowMs) / grid.bucketMs) + 1 &&
      grid.Valid() &&
      Apart() && forall k :: k in rings ==> rings[k].grid == grid && rings[k].Valid()
    }

    /** Everything ever recorded for a metric since its ring was made. */
    ghost function History(metric: K): seq<Point>
      reads this, Parts()
    {
      if metric in rings then rings[metric].points else []
    }

    constructor (bucketMs: int, windowMs: int)
      requires bucketMs > 0 && windowMs >= bucketMs
      ensures Valid() && rings == map[] && this.windowMs == windowMs && grid.bucketMs == bucketMs
    {
      this.windowMs := windowMs;
      grid := Grid(bucketMs, -((-windowMs) / bucketMs) + 1);
      rings := map[];
      SlotsSuffice(windowMs, bucketMs);
    }

    method EnsureRing(metric: K) returns (ring: MetricRing)
      requires Valid()
      modifies this`rings
      ensures Valid() && metric in rings && rings[metric] == ring
      ensures old(rings.Keys) + {metric} == rings.Keys && forall k :: k in old(rings) ==> rings[k] == old(rings)[k]
      ensures metric !in old(rings) ==> fresh(ring) && fresh(ring.cells) && ring.points == []
    {
      if metric in rings {
        return rings[metric];
      }
      ring := new MetricRing(grid);
      rings := rings[metric := ring];
    }

    method Record(metric: K, p: Point) returns (ok: bool)
      requires Valid()
      modifies this`rings, Parts()
      ensures Valid() && ok == Lands(grid, grid.Index(p))
      ensures rings.Keys == old(rings.Keys) + {metric} && forall k :: k in old(rings) ==> rings[k] == old(rings)[k]
      ensures metric !in old(rings) ==> fresh(rings[metric]) && fresh(rings[metric].cells)
      ensures History(metric) == old(History(metric)) + [p]
      ensures forall k :: k != metric ==> History(k) == old(History(k))
    {
      var ring := EnsureRing(metric);
      ok := ring.Record(p);
    }

    /** The aggregate of the window [end - windowMs, end). */
    method Aggregate(metric: K, kind: Kind, end: int) returns (samples: nat, value: Option<real>)
      requires Valid()
      ensures var first, last := FirstIndex(windowMs, grid.bucketMs, end), LastIndex(grid.bucketMs, end);
              var c := Shown(grid, Ring(grid, History(metric)), first, last);
              samples == c.count && value == ValueOf(kind, c)
      ensures InReach(grid, History(metric)) && NotAfter(History(metric), end) ==>
                var vs := ValuesIn(windowMs, grid.bucketMs, end, History(metric));
                samples == |vs| && Reports(kind, vs, value)
    {
      var acc: Option<real> := if kind == Min || kind == Max then None else Some(0.0);
      samples := 0;
      var first, last := -((windowMs - end) / grid.bucketMs), (end - 1) / grid.bucketMs;
      ghost var points := History(metric);
      assert first == FirstIndex(windowMs, grid.bucketMs, end) && last == LastIndex(grid.bucketMs, end);
      ghost var c := Shown(grid, Ring(grid, points), first, last);
      if metric in rings {
        samples, acc := rings[metric].Gather(kind, first, last);
      } else {
        NothingShown(grid, first, last);
      }
      if kind == Avg {
        value := if samples > 0 then Some(acc.value / samples as real) else None;
      } else if (kind == Min || kind == Max) && samples == 0 {
        value := None;
      } else {
        value := acc;
      }
      assert value == ValueOf(kind, c);
      if InReach(grid, points) && NotAfter(points, end) {
        AggregateMeans(grid, windowMs, points, end, kind);
      }
    }

    /** One value per bucket, oldest first; None is a gap. */
    method Sparkline(metric: K, kind: Kind, bucketCount: nat, end: int) returns (r: seq<(int, Option<real>)>)
      requires Valid()
      ensures |r| == bucketCount
      ensures forall k :: 0 <= k < bucketCount ==>
                var i := LastIndex(grid.bucketMs, end) - bucketCount + 1 + k;
                r[k] == (i * grid.bucketMs, Spark(kind, Peek(grid, Ring(grid, History(metric)), i)))
      ensures forall k :: 0 <= k < bucketCount ==>
                var i := LastIndex(grid.bucketMs, end) - bucketCount + 1 + k;
                i >= 0 && Intact(grid, History(metric), i) ==>
                  ReportsOrGap(kind, ValuesAt(grid.bucketMs, r[k].0, History(metric)), r[k].1)
    {
      var last := (end - 1) / grid.bucketMs;
      var first := last - bucketCount + 1;
      r := [];
      ghost var cells := Ring(grid, History(metric));
      var i := first;
      while i <= last
        invariant first <= i <= last + 1 && |r| == i - first
        invariant forall k :: 0 <= k < |r| ==>
                  r[k] == ((first + k) * grid.bucketMs, Spark(kind, Peek(grid, cells, first + k)))
      {
        var value: Option<real> := None;
        if metric in rings {
          var b := rings[metric].PeekAt(i);
          value := Spark(kind, b);
        } else {
          PeekNothing(grid, i);
        }
        r := r + [(i * grid.bucketMs, value)];
        i := i + 1;
      }
      SparksMean(grid, History(metric), kind, first);
    }

    /** The loop of `Prune`. */
    method DropIdle(cutoff: int) returns (removed: nat)
      modifies this`rings
      ensures removed == |old(rings)| - |rings| && rings.Keys <= old(rings.Keys)
      ensures forall k :: k in old(rings) ==>
                if old(rings)[k].newestIndex < cutoff then k !in rings else k in rings && rings[k] == old(rings)[k]
    {
      var was, left := rings, rings.Keys;
      removed := 0;
      while left != {}
        invariant left <= was.Keys && rings.Keys <= was.Keys && removed + |rings| == |was|
        invariant forall k :: k in was ==>
                    if k in left || was[k].newestIndex >= cutoff then k in rings && rings[k] == was[k] else k !in rings
        decreases left
      {
        var name :| name in left;
        left := left - {name};
        if rings[name].newestIndex < cutoff {
          RemoveOne(rings, name);
          rings := rings - {name};
          removed := removed + 1;
        }
      }
    }

    /** Drops the rings whose newest bucket lies before the window that ends at `t`. */
    method Prune(t: int) returns (removed: nat)
      requires Valid()
      modifies this`rings
      ensures Valid() && removed == |old(rings)| - |rings| && rings.Keys <= old(rings.Keys)
      ensures forall k :: k in old(rings) ==>
                if Newest(grid, old(rings)[k].points) < (t - windowMs) / grid.bucketMs then k !in rings
                else k in rings && rings[k] == old(rings)[k]
    {
      removed := DropIdle((t - windowMs) / grid.bucketMs);
    }
  }

  lemma RemoveOne<K, V>(m: map<K, V>, k: K)
    requires k in m
    ensures |m - {k}| == |m| - 1
  {
    assert (m - {k}).Keys == m.Keys - {k};
  }

  function Spark(kind: Kind, c: Cell): Option<real> {
    if c.count == 0 then None else ValueOf(kind, c)
  }

  lemma SlotsSuffice(windowMs: int, bucketMs: int)
    requires bucketMs > 0 && windowMs >= bucketMs
    ensures -((-windowMs) / bucketMs) + 1 >= windowMs / bucketMs + 1 > 1
  {
    var q := windowMs / bucketMs;
    Ints.DivMod(windowMs, bucketMs);
    Ints.DivMod(-windowMs, bucketMs);
    assert (q + 1) * bucketMs == q * bucketMs + bucketMs;
    assert (q + (-windowMs) / bucketMs) * bucketMs == q * bucketMs + (-windowMs) / bucketMs * bucketMs;
    Ints.MulLess(q + (-windowMs) / bucketMs, 1, bucketMs);
    Ints.MulLess(1, q + 1, bucketMs);
  }

  /** Extremes are present exactly when there are points. */
  predicate Sound(c: Cell) {
    (c.count == 0 <==> c.min == None) && (c.count == 0 <==> c.max == None)
  }

  /** Combining under one kind is that kind's part of merging. */
  lemma CombineIsMerge(kind: Kind, c: Cell, b: Cell)
    requires Sound(c) && Sound(b)
    ensures Sound(Merge(c, b)) && Combine(kind, AccOf(kind, c), b) == AccOf(kind, Merge(c, b))
  {
  }

  lemma {:induction false} PeekIsSound(g: Grid, points: seq<Point>, i: int)
    requires g.Valid()
    ensures Sound(Peek(g, Ring(g, points), i))
  {
    if i >= 0 {
      if points == [] {
        PeekNothing(g, i);
      } else {
        var front, p := points[..|points| - 1], points[|points| - 1];
        PeekIsSound(g, front, i);
        assert front + [p] == points;
        PeekSnoc(g, front, p, i);
      }
    }
  }

  lemma {:induction false} PeekNothing(g: Grid, i: int)
    requires g.Valid()
    ensures Peek(g, Ring(g, []), i) == EMPTY
  {
    Ints.DivMod(i, g.slots);
  }

  lemma {:induction false} NothingShown(g: Grid, first: int, last: int)
    requires g.Valid()
    ensures Shown(g, Ring(g, []), first, last) == EMPTY
    decreases last - first
  {
    if first <= last {
      NothingShown(g, first, last - 1);
      PeekNothing(g, last);
    }
  }

  lemma NothingBetween(g: Grid, cells: seq<Bucket>, first: int, last: int, i: int)
    requires g.Valid() && |cells| == g.slots && i > last && first <= i && (i <= last + 1 || i == first)
    ensures Shown(g, cells, first, i - 1) == Shown(g, cells, first, last)
  {
  }

  // ---------------------------------------------------------------- what the numbers mean

  /** With the aggregator's slots, every kind of aggregate is that of all points recorded in the window's buckets. */
  lemma {:induction false} AggregateIsFold(g: Grid, windowMs: int, points: seq<Point>, end: int, kind: Kind)
    requires g.bucketMs > 0 && windowMs >= g.bucketMs && g.slots == -((-windowMs) / g.bucketMs) + 1 && g.Valid()
    requires InReach(g, points) && NotAfter(points, end)
    ensures var first, last := FirstIndex(windowMs, g.bucketMs, end), LastIndex(g.bucketMs, end);
            Shown(g, Ring(g, points), first, last).count == Window(g, points, first, last).count &&
            ValueOf(kind, Shown(g, Ring(g, points), first, last)) == ValueOf(kind, Window(g, points, first, last))
  {
    SlotsSuffice(windowMs, g.bucketMs);
    WindowIsExact(g, windowMs, points, end);
  }

  /** So it is the count, total, mean, least or greatest of the values recorded in the window. */
  lemma AggregateMeans(g: Grid, windowMs: int, points: seq<Point>, end: int, kind: Kind)
    requires g.bucketMs > 0 && windowMs >= g.bucketMs && g.slots == -((-windowMs) / g.bucketMs) + 1 && g.Valid()
    requires InReach(g, points) && NotAfter(points, end)
    ensures var first, last := FirstIndex(windowMs, g.bucketMs, end), LastIndex(g.bucketMs, end);
            var c, vs := Shown(g, Ring(g, points), first, last), ValuesIn(windowMs, g.bucketMs, end, points);
            c.count == |vs| && Reports(kind, vs, ValueOf(kind, c))
  {
    var first, last := FirstIndex(windowMs, g.bucketMs, end), LastIndex(g.bucketMs, end);
    SlotsSuffice(windowMs, g.bucketMs);
    WindowIsExact(g, windowMs, points, end);
    WindowSummarises(g, windowMs, points, end);
    SummaryReports(kind, Window(g, points, first, last), ValuesIn(windowMs, g.bucketMs, end, points));
  }

  /** And a spark is that of the values recorded in its bucket, as long as no later point took its cell. */
  lemma SparkMeans(g: Grid, points: seq<Point>, kind: Kind, i: int)
    requires g.Valid() && i >= 0 && Intact(g, points, i)
    ensures ReportsOrGap(kind, ValuesAt(g.bucketMs, i * g.bucketMs, points), Spark(kind, Peek(g, Ring(g, points), i)))
  {
    ShownInFull(g, points, i);
    BucketSummarises(g, points, i);
    SummaryReports(kind, Window(g, points, i, i), ValuesAt(g.bucketMs, StartOf(g.bucketMs, i), points));
  }

  lemma SparksMean(g: Grid, points: seq<Point>, kind: Kind, first: int)
    requires g.Valid()
    ensures forall i :: i >= 0 && Intact(g, points, i) ==>
              ReportsOrGap(kind, ValuesAt(g.bucketMs, i * g.bucketMs, points), Spark(kind, Peek(g, Ring(g, points), i)))
  {
    forall i | i >= 0 && Intact(g, points, i)
      ensures
        ReportsOrGap(kind, ValuesAt(g.bucketMs, i * g.bucketMs, points), Spark(kind, Peek(g, Ring(g, points), i)))
    {
      SparkMeans(g, points, kind, i);
    }
  }

  /** That holds of every bucket that begins in the window, when the history is in reach. */
  lemma WindowIsIntact(g: Grid, windowMs: int, points: seq<Point>, end: int, i: int)
    requires g.bucketMs > 0 && windowMs >= g.bucketMs && g.slots == -((-windowMs) / g.bucketMs) + 1 && g.Valid()
    requires InReach(g, points) && NotAfter(points, end) && end - windowMs <= i * g.bucketMs
    ensures Intact(g, points, i)
  {
    SlotsSuffice(windowMs, g.bucketMs);
    FirstIsCeiling(windowMs, g.bucketMs, end, i);
    forall a | 0 <= a < |points| ensures g.Index(points[a]) - g.slots < i {
      FirstIsLive(windowMs, g, end, points[a].timestamp);
    }
    LiveIsIntact(g, points, i);
  }

  lemma {:induction false} BeyondNewest(g: Grid, points: seq<Point>, i: int)
    requires g.Valid() && i > Newest(g, points)
    ensures Peek(g, Ring(g, points), i) == EMPTY
  {
    if i >= 0 {
      if points == [] {
        PeekNothing(g, i);
      } else {
        var front, p := points[..|points| - 1], points[|points| - 1];
        BeyondNewest(g, front, i);
        assert front + [p] == points;
        PeekSnoc(g, front, p, i);
      }
    }
  }

  /** A bucket newer than all that was dropped shows the later points only, whether or not the ring was kept. */
  lemma {:induction false} PeekUnpruned(g: Grid, dropped: seq<Point>, more: seq<Point>, i: int)
    requires g.Valid() && i > Newest(g, dropped)
    ensures Peek(g, Ring(g, dropped + more), i) == Peek(g, Ring(g, more), i)
  {
    if i >= 0 {
      if more == [] {
        assert dropped + more == dropped;
        BeyondNewest(g, dropped, i);
        PeekNothing(g, i);
      } else {
        var front, p := more[..|more| - 1], more[|more| - 1];
        PeekUnpruned(g, dropped, front, i);
        assert dropped + more == (dropped + front) + [p] && more == front + [p];
        PeekSnoc(g, dropped + front, p, i);
        PeekSnoc(g, front, p, i);
      }
    }
  }

  lemma {:induction false} ShownUnpruned(g: Grid, dropped: seq<Point>, more: seq<Point>, first: int, last: int)
    requires g.Valid() && first > Newest(g, dropped)
    ensures Shown(g, Ring(g, dropped + more), first, last) == Shown(g, Ring(g, more), first, last)
    decreases last - first
  {
    if first <= last {
      ShownUnpruned(g, dropped, more, first, last - 1);
      PeekUnpruned(g, dropped, more, last);
    }
  }

  lemma CutoffIsEarlier(windowMs: int, b: int, t: int, end: int)
    requires b > 0 && t <= end
    ensures (t - windowMs) / b <= FirstIndex(windowMs, b, end)
  {
    var x, y := (t - windowMs) / b, (windowMs - end) / b;
    Ints.DivMod(t - windowMs, b);
    Ints.DivMod(windowMs - end, b);
    assert (x + y) * b == x * b + y * b;
    Ints.MulLess(x + y, 1, b);
  }

  /**
   Pruning at `t` is invisible in any window that ends at `t` or later, whatever is recorded after it: a ring
   that it drops, starting again from nothing, shows what it would have shown had it been kept.
   */
  lemma PruneIsInvisible(g: Grid, windowMs: int, dropped: seq<Point>, more: seq<Point>, t: int, end: int)
    requires g.Valid() && t <= end && Newest(g, dropped) < (t - windowMs) / g.bucketMs
    ensures var first, last := FirstIndex(windowMs, g.bucketMs, end), LastIndex(g.bucketMs, end);
            Shown(g, Ring(g, dropped + more), first, last) == Shown(g, Ring(g, more), first, last)
  {
    CutoffIsEarlier(windowMs, g.bucketMs, t, end);
    ShownUnpruned(g, dropped, more, FirstIndex(windowMs, g.bucketMs, end), LastIndex(g.bucketMs, end));
  }
}
