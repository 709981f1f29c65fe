/**
 Sessions by inactivity gap: a subject's events are buffered in arrival order, sorted when first asked
 for, and cut wherever the silence is longer than the gap.
 */
module SessionWindows {
  import opened StableSort
  import opened Prelude

  type Events<N> = seq<Stamped<N>>

  datatype Window<N> = Window(
    startedAt: int, endedAt: int, durationMs: int, eventCount: nat, eventNames: map<N, nat>, eventsPerMinute: real,
    bounce: bool)

  function Histogram<N(==)>(events: Events<N>): map<N, nat> {
    if events == [] then map[]
    else
      var h, name := Histogram(events[..|events| - 1]), events[|events| - 1].item;
      h[name := (if name in h then h[name] else 0) + 1]
  }

  function Rate(count: nat, durationMs: int): real {
    if durationMs > 0 then count as real / (durationMs as real / 60000.0) else count as real
  }

  function WindowOf<N(==)>(events: Events<N>): Window<N>
    requires events != []
  {
    var first, last := events[0].ts, events[|events| - 1].ts;
    Window(first, last, last - first, |events|, Histogram(events), Rate(|events|, last - first), |events| == 1)
  }

  /** Where the last session of some events starts. */
  function LastStart<N>(gapMs: int, events: Events<N>): (k: nat)
    ensures events != [] ==> k < |events|
  {
    if |events| <= 1 then 0
    else if events[|events| - 1].ts - events[|events| - 2].ts > gapMs then |events| - 1
    else LastStart(gapMs, events[..|events| - 1])
  }

  function Segments<N>(gapMs: int, events: Events<N>): (r: seq<Events<N>>)
    ensures forall i :: 0 <= i < |r| ==> r[i] != []
  {
    if events == [] then []
    else
      var k := LastStart(gapMs, events);
      Segments(gapMs, events[..k]) + [events[k..]]
  }

  function WindowsOf<N(==)>(segments: seq<Events<N>>): (r: seq<Window<N>>)
    requires forall i :: 0 <= i < |segments| ==> segments[i] != []
    ensures |r| == |segments|
  {
    seq(|segments|, i requires 0 <= i < |segments| => WindowOf(segments[i]))
  }

  function Sessions<N(==)>(gapMs: int, events: Events<N>): seq<Window<N>> {
    WindowsOf(Segments(gapMs, events))
  }

  lemma {:induction false} SegmentsExtend<N>(gapMs: int, events: Events<N>, start: nat, i: nat)
    requires start < i <= |events| && LastStart(gapMs, events[..i]) == start
    ensures Segments(gapMs, events[..i]) == Segments(gapMs, events[..start]) + [events[start..i]]
  {
    assert events[..i][..start] == events[..start] && events[..i][start..] == events[start..i];
  }

  lemma {:induction false} LastStartStep<N>(gapMs: int, events: Events<N>, i: nat)
    requires 0 < i < |events|
    ensures LastStart(gapMs, events[..i + 1]) ==
            if events[i].ts - events[i - 1].ts > gapMs then i else LastStart(gapMs, events[..i])
  {
    assert events[..i + 1][..i] == events[..i];
  }

  class SubjectEvents<N(==, !new)> {
    var events: Events<N>
    var dirty: bool
    ghost var arrived: Events<N>

    constructor ()
      ensures Valid() && arrived == []
    {
      events, dirty, arrived := [], false, [];
    }

    /** The buffer holds what arrived, in order at every time; clean means sorted. */
    ghost predicate Valid()
      reads this
    {
      SameAt(events, arrived) && |events| == |arrived| && (!dirty ==> Sorted(events))
    }

    method Push(e: Stamped<N>)
      requires Valid()
      modifies this
      ensures Valid() && arrived == old(arrived) + [e]
    {
      if events != [] && e.ts < events[|events| - 1].ts {
        dirty := true;
      }
      forall t ensures At(events + [e], t) == At(arrived + [e], t) {
        assert At(events, t) == At(arrived, t);
        AtSnoc(events, e, t);
        AtSnoc(arrived, e, t);
      }
      events := events + [e];
      arrived := arrived + [e];
    }

    /** Sorts when needed, then splits; the answer depends on the arrivals only, not on earlier queries. */
    method SessionsOf(gapMs: int) returns (out: seq<Window<N>>)
      requires Valid()
      modifies this`events, this`dirty
      ensures Valid() && events == SortOf(arrived) && out == Sessions(gapMs, SortOf(arrived))
    {
      SortAgain(events, arrived);
      if dirty {
        events := SortOf(events);
        dirty := false;
        SortedHolds(arrived);
      }
      out := Cut(gapMs, events);
    }

    static method Cut(gapMs: int, events: Events<N>) returns (out: seq<Window<N>>)
      ensures out == Sessions(gapMs, events)
    {
      out := [];
      if events == [] {
        return;
      }
      var start, i := 0, 1;
      while i <= |events|
        invariant 0 <= start < i <= |events| + 1
        invariant if i <= |events|
                  then start == LastStart(gapMs, events[..i]) && out == Sessions(gapMs, events[..start])
                  else out == Sessions(gapMs, events)
      {
        if i == |events| || events[i].ts - events[i - 1].ts > gapMs {
          SegmentsExtend(gapMs, events, start, i);
          var w := BuildWindow(events[start..i]);
          out := out + [w];
          assert out == Sessions(gapMs, events[..i]);
          if i < |events| {
            LastStartStep(gapMs, events, i);
          } else {
            assert events[..i] == events;
            return;
          }
          start := i;
        } else {
          LastStartStep(gapMs, events, i);
        }
        i := i + 1;
      }
    }

    static method BuildWindow(events: Events<N>) returns (w: Window<N>)
      requires events != []
      ensures w == WindowOf(events)
    {
      var names: map<N, nat>, i := map[], 0;
      while i < |events|
        invariant 0 <= i <= |events| && names == Histogram(events[..i])
      {
        assert events[..i + 1][..i] == events[..i];
        var name := events[i].item;
        names := names[name := (if name in names then names[name] else 0) + 1];
        i := i + 1;
      }
      assert events[..i] == events;
      var startedAt, endedAt := events[0].ts, events[|events| - 1].ts;
      var durationMs := endedAt - startedAt;
      var rate := |events| as real;
      if durationMs > 0 {
        rate := |events| as real / (durationMs as real / 60000.0);
      }
      w := Window(startedAt, endedAt, durationMs, |events|, names, rate, |events| == 1);
    }
  }

  lemma {:induction false} SortedHolds<N>(arrived: Events<N>)
    ensures Sorted(SortOf(arrived)) && SameAt(SortOf(arrived), arrived)
  {
    forall t ensures At(SortOf(arrived), t) == At(arrived, t) {
      SortIsStable(arrived, t);
    }
    SortIsStable(arrived, 0);
  }

  class SessionWindowGrouper<K(==, !new), N(==, !new)> {
    const gapMs: int
    var subjects: map<K, SubjectEvents<N>>

    constructor (gapMs: int)
      requires gapMs > 0
      ensures Valid() && subjects == map[] && this.gapMs == gapMs
    {
      this.gapMs, subjects := gapMs, map[];
    }

    ghost predicate Valid()
      reads this, subjects.Values
    {
      gapMs > 0 && (forall j, k :: j in subjects && k in subjects && j != k ==> subjects[j] != subjects[k]) &&
      forall k :: k in subjects ==> subjects[k].Valid()
    }

    /** What was tracked for a subject, in arrival order. */
    ghost function Arrived(k: K): Events<N>
      reads this, subjects.Values
    {
      if k in subjects then subjects[k].arrived else []
    }

    method Track(subject: K, name: N, ts: int)
      requires Valid()
      modifies this`subjects, subjects.Values
      ensures Valid() && subject in subjects && subjects.Keys == old(subjects.Keys) + {subject}
      ensures subject !in old(subjects) ==> fresh(subjects[subject])
      ensures forall k :: k in old(subjects) ==> subjects[k] == old(subjects)[k]
      ensures Arrived(subject) == old(Arrived(subject)) + [Stamped(ts, name)]
      ensures forall k :: k != subject ==> Arrived(k) == old(Arrived(k))
    {
      if subject !in subjects {
        var made := new SubjectEvents();
        subjects := subjects[subject := made];
      }
      subjects[subject].Push(Stamped(ts, name));
    }

    method Query(subject: K) returns (out: seq<Window<N>>)
      requires Valid()
      modifies subjects.Values
      ensures Valid() && out == Sessions(gapMs, SortOf(Arrived(subject)))
      ensures forall k :: Arrived(k) == old(Arrived(k))
    {
      if subject !in subjects || subjects[subject].events == [] {
        return [];
      }
      out := subjects[subject].SessionsOf(gapMs);
    }
  }

  // ---------------------------------------------------------------- the split

  function Flat<N>(segments: seq<Events<N>>): Events<N> {
    if segments == [] then [] else Flat(segments[..|segments| - 1]) + segments[|segments| - 1]
  }

  predicate Inner<N>(gapMs: int, events: Events<N>) {
    forall i :: 0 < i < |events| ==> events[i].ts - events[i - 1].ts <= gapMs
  }

  /** A split of the events into runs: no silence longer than the gap inside one, one longer between any two. */
  ghost predicate IsSplit<N>(gapMs: int, events: Events<N>, segments: seq<Events<N>>) {
    Flat(segments) == events &&
    (forall i :: 0 <= i < |segments| ==> segments[i] != [] && Inner(gapMs, segments[i])) &&
    forall i :: 0 < i < |segments| ==> segments[i][0].ts - segments[i - 1][|segments[i - 1]| - 1].ts > gapMs
  }

  /** No silence longer than the gap after position `k`. */
  predicate Steady<N>(gapMs: int, events: Events<N>, k: nat) {
    forall i :: k < i < |events| ==> events[i].ts - events[i - 1].ts <= gapMs
  }

  lemma SteadyIsInner<N>(gapMs: int, events: Events<N>, k: nat)
    requires k <= |events|
    ensures Steady(gapMs, events, k) <==> Inner(gapMs, events[k..])
  {
    var tail := events[k..];
    assert forall i :: 0 <= i < |tail| ==> tail[i] == events[k + i];
    if Inner(gapMs, tail) {
      forall i | k < i < |events| ensures events[i].ts - events[i - 1].ts <= gapMs {
        assert tail[i - k].ts - tail[i - k - 1].ts <= gapMs;
      }
    }
  }

  lemma {:induction false} LastStartMeans<N>(gapMs: int, events: Events<N>)
    requires events != []
    ensures var k := LastStart(gapMs, events);
            Steady(gapMs, events, k) && (k > 0 ==> events[k].ts - events[k - 1].ts > gapMs)
  {
    if |events| > 1 && events[|events| - 1].ts - events[|events| - 2].ts <= gapMs {
      LastStartMeans(gapMs, events[..|events| - 1]);
    }
  }

  /** One more segment, after a silence longer than the gap. */
  lemma SplitGrows<N>(gapMs: int, events: Events<N>, front: seq<Events<N>>, last: Events<N>)
    requires IsSplit(gapMs, events, front) && last != [] && Inner(gapMs, last)
    requires events != [] ==> last[0].ts - events[|events| - 1].ts > gapMs
    ensures IsSplit(gapMs, events + last, front + [last])
  {
    var all := front + [last];
    assert all[..|front|] == front;
    if front != [] {
      FlatEnds(front);
    }
  }

  lemma {:induction false} SegmentsSplit<N>(gapMs: int, events: Events<N>)
    ensures IsSplit(gapMs, events, Segments(gapMs, events))
  {
    if events != [] {
      var k := LastStart(gapMs, events);
      SegmentsSplit(gapMs, events[..k]);
      LastStartMeans(gapMs, events);
      SteadyIsInner(gapMs, events, k);
      SplitGrows(gapMs, events[..k], Segments(gapMs, events[..k]), events[k..]);
      assert events[..k] + events[k..] == events;
    }
  }

  lemma FlatEnds<N>(segments: seq<Events<N>>)
    requires segments != [] && segments[|segments| - 1] != []
    ensures var last := segments[|segments| - 1];
            Flat(segments) != [] && Flat(segments)[|Flat(segments)| - 1] == last[|last| - 1]
  {
  }

  lemma {:induction false} LastStartIs<N>(gapMs: int, events: Events<N>, k: nat)
    requires k < |events| && Steady(gapMs, events, k) && (k > 0 ==> events[k].ts - events[k - 1].ts > gapMs)
    ensures LastStart(gapMs, events) == k
  {
    if k < |events| - 1 {
      LastStartIs(gapMs, events[..|events| - 1], k);
    }
  }

  /** The same, one segment at a time. */
  ghost predicate CutsInto<N>(gapMs: int, events: Events<N>, segments: seq<Events<N>>) {
    if segments == [] then events == []
    else
      var last := segments[|segments| - 1];
      var k := |events| - |last|;
      last != [] && k >= 0 && events[k..] == last && LastStart(gapMs, events) == k &&
      CutsInto(gapMs, events[..k], segments[..|segments| - 1])
  }

  lemma {:induction false} SplitCuts<N>(gapMs: int, events: Events<N>, segments: seq<Events<N>>)
    requires IsSplit(gapMs, events, segments)
    ensures CutsInto(gapMs, events, segments)
    decreases |segments|
  {
    if segments != [] {
      var front := segments[..|segments| - 1];
      var k := |Flat(front)|;
      SplitEnds(gapMs, events, segments);
      SteadyIsInner(gapMs, events, k);
      LastStartIs(gapMs, events, k);
      SplitCuts(gapMs, events[..k], front);
    }
  }

  lemma {:induction false} CutsAreSegments<N>(gapMs: int, events: Events<N>, segments: seq<Events<N>>)
    requires CutsInto(gapMs, events, segments)
    ensures segments == Segments(gapMs, events)
    decreases |segments|
  {
    if segments != [] {
      var front, last := segments[..|segments| - 1], segments[|segments| - 1];
      CutsAreSegments(gapMs, events[..|events| - |last|], front);
      assert segments == front + [last];
    }
  }

  /** There is one such split. */
  lemma {:induction false} SplitIsUnique<N>(gapMs: int, events: Events<N>, segments: seq<Events<N>>)
    requires IsSplit(gapMs, events, segments)
    ensures segments == Segments(gapMs, events)
  {
    SplitCuts(gapMs, events, segments);
    CutsAreSegments(gapMs, events, segments);
  }

  lemma SplitEnds<N>(gapMs: int, events: Events<N>, segments: seq<Events<N>>)
    requires IsSplit(gapMs, events, segments) && segments != []
    ensures var front, last := segments[..|segments| - 1], segments[|segments| - 1];
            var k := |Flat(front)|;
            k < |events| && events[..k] == Flat(front) && events[k..] == last && Inner(gapMs, last) &&
            IsSplit(gapMs, events[..k], front) && (k > 0 ==> events[k].ts - events[k - 1].ts > gapMs)
  {
    var front, last := segments[..|segments| - 1], segments[|segments| - 1];
    var k := |Flat(front)|;
    assert events == Flat(front) + last;
    if front != [] {
      FlatEnds(front);
      assert segments[|front|][0].ts - segments[|front| - 1][|segments[|front| - 1]| - 1].ts > gapMs;
    }
  }

  // ---------------------------------------------------------------- nothing is lost

  function Named<N(==)>(events: Events<N>, name: N): nat {
    if events == [] then 0 else Named(events[..|events| - 1], name) + if events[|events| - 1].item == name then 1 else 0
  }

  lemma {:induction false} NamedConcat<N>(a: Events<N>, b: Events<N>, name: N)
    ensures Named(a + b, name) == Named(a, name) + Named(b, name)
  {
    if b == [] {
      assert a + b == a;
    } else {
      NamedConcat(a, b[..|b| - 1], name);
      assert (a + b)[..|a + b| - 1] == a + b[..|b| - 1];
    }
  }

  lemma {:induction false} HistogramCounts<N>(events: Events<N>, name: N)
    ensures name in Histogram(events) <==> Named(events, name) > 0
    ensures name in Histogram(events) ==> Histogram(events)[name] == Named(events, name)
  {
    if events != [] {
      HistogramCounts(events[..|events| - 1], name);
    }
  }

  function TotalCount<N>(windows: seq<Window<N>>): nat {
    if windows == [] then 0 else TotalCount(windows[..|windows| - 1]) + windows[|windows| - 1].eventCount
  }

  function TotalNamed<N(==)>(windows: seq<Window<N>>, name: N): nat {
    if windows == [] then 0
    else
      var h := windows[|windows| - 1].eventNames;
      TotalNamed(windows[..|windows| - 1], name) + if name in h then h[name] else 0
  }

  lemma {:induction false} SegmentsAddUp<N>(segments: seq<Events<N>>, name: N)
    requires forall i :: 0 <= i < |segments| ==> segments[i] != []
    ensures TotalCount(WindowsOf(segments)) == |Flat(segments)|
    ensures TotalNamed(WindowsOf(segments), name) == Named(Flat(segments), name)
  {
    if segments != [] {
      var front, last := segments[..|segments| - 1], segments[|segments| - 1];
      SegmentsAddUp(front, name);
      assert WindowsOf(segments)[..|segments| - 1] == WindowsOf(front);
      HistogramCounts(last, name);
      NamedConcat(Flat(front), last, name);
    }
  }

  lemma {:induction false} SameBagSameNamed<N>(a: Events<N>, b: Events<N>, name: N)
    requires multiset(a) == multiset(b)
    ensures Named(a, name) == Named(b, name)
  {
    if a == [] {
      assert |multiset(b)| == 0;
    } else {
      var x := a[|a| - 1];
      assert x in multiset(b);
      var j :| 0 <= j < |b| && b[j] == x;
      Without(a, b, j);
      SameBagSameNamed(a[..|a| - 1], b[..j] + b[j + 1..], name);
      NamedConcat(b[..j], b[j + 1..], name);
      assert b == b[..j] + [x] + b[j + 1..];
      NamedConcat(b[..j] + [x], b[j + 1..], name);
      NamedConcat(b[..j], [x], name);
      assert Named([x], name) == if x.item == name then 1 else 0;
    }
  }

  lemma Without<T>(a: seq<T>, b: seq<T>, j: nat)
    requires a != [] && j < |b| && b[j] == a[|a| - 1] && multiset(a) == multiset(b)
    ensures multiset(a[..|a| - 1]) == multiset(b[..j] + b[j + 1..])
  {
    var x := b[j];
    assert a == a[..|a| - 1] + [x] && b == b[..j] + [x] + b[j + 1..];
    assert multiset(a) == multiset(a[..|a| - 1]) + multiset{x};
    assert multiset(b) == multiset(b[..j] + b[j + 1..]) + multiset{x};
    CancelOne(multiset(a[..|a| - 1]), multiset(b[..j] + b[j + 1..]), x);
  }

  /** Event counts and histograms of the sessions add up to the events tracked. */
  lemma {:induction false} SessionsAddUp<N>(gapMs: int, arrived: Events<N>, name: N)
    ensures TotalCount(Sessions(gapMs, SortOf(arrived))) == |arrived|
    ensures TotalNamed(Sessions(gapMs, SortOf(arrived)), name) == Named(arrived, name)
  {
    SegmentsSplit(gapMs, SortOf(arrived));
    SegmentsAddUp(Segments(gapMs, SortOf(arrived)), name);
    SortBag(arrived);
    SameBagSameNamed(SortOf(arrived), arrived, name);
  }

  // ---------------------------------------------------------------- arrival order does not matter

  // ---------------------------------------------------------------- what one window says

  lemma {:induction false} SegmentsAreSorted<N>(gapMs: int, events: Events<N>, i: nat)
    requires Sorted(events) && i < |Segments(gapMs, events)|
    ensures Sorted(Segments(gapMs, events)[i])
  {
    var k := LastStart(gapMs, events);
    if i < |Segments(gapMs, events[..k])| {
      SegmentsAreSorted(gapMs, events[..k], i);
    }
  }

  /** All events fall into the window, and it is no longer than they need. */
  predicate Spans<N>(w: Window<N>, events: Events<N>) {
    (forall e :: e in events ==> w.startedAt <= e.ts <= w.endedAt) &&
    (exists e :: e in events && e.ts == w.startedAt) && exists e :: e in events && e.ts == w.endedAt
  }

  /**
   What a window tells of its events: it spans them, it lasts from the first to the last, its rate is events a
   minute (their number where it lasts no time), and a bounce is a single event.
   */
  predicate Tells<N(==)>(w: Window<N>, events: Events<N>, name: N) {
    Spans(w, events) && w.durationMs == w.endedAt - w.startedAt && w.eventCount == |events| &&
    (w.bounce <==> w.eventCount == 1) && (name in w.eventNames <==> Named(events, name) > 0) &&
    (name in w.eventNames ==> w.eventNames[name] == Named(events, name)) &&
    if w.durationMs == 0 then w.eventsPerMinute == w.eventCount as real
    else w.eventsPerMinute * w.durationMs as real == w.eventCount as real * 60000.0
  }

  /** Each window tells of its session, whatever order the events came in. */
  lemma {:induction false} WindowTells<N>(gapMs: int, arrived: Events<N>, i: nat, name: N)
    requires i < |Sessions(gapMs, SortOf(arrived))|
    ensures Tells(Sessions(gapMs, SortOf(arrived))[i], Segments(gapMs, SortOf(arrived))[i], name)
  {
    SortedHolds(arrived);
    SegmentsAreSorted(gapMs, SortOf(arrived), i);
    TellsOf(Segments(gapMs, SortOf(arrived))[i], name);
  }

  lemma {:induction false} TellsOf<N>(events: Events<N>, name: N)
    requires events != [] && Sorted(events)
    ensures Tells(WindowOf(events), events, name)
  {
    HistogramCounts(events, name);
    SpansItsEvents(events);
    RateOf(WindowOf(events));
  }

  lemma RateOf<N>(w: Window<N>)
    requires w.eventsPerMinute == Rate(w.eventCount, w.durationMs) && w.durationMs >= 0
    ensures if w.durationMs == 0 then w.eventsPerMinute == w.eventCount as real
            else w.eventsPerMinute * w.durationMs as real == w.eventCount as real * 60000.0
  {
    if w.durationMs > 0 {
      RateTells(w.eventCount as real, w.durationMs as real);
    }
  }

  lemma SpansItsEvents<N>(events: Events<N>)
    requires events != [] && Sorted(events)
    ensures Spans(WindowOf(events), events)
  {
    var first, last := events[0], events[|events| - 1];
    assert first in events && last in events;
    forall e | e in events ensures first.ts <= e.ts <= last.ts {
      var j :| 0 <= j < |events| && events[j] == e;
    }
  }

  lemma RateTells(count: real, ms: real)
    requires ms > 0.0
    ensures count / (ms / 60000.0) * ms == count * 60000.0
  {
    var minutes := ms / 60000.0;
    assert minutes * 60000.0 == ms;
    var rate := count / minutes;
    assert rate * minutes == count;
    assert rate * (minutes * 60000.0) == rate * minutes * 60000.0;
  }


  lemma {:induction false} AtMiddle<N>(l: Events<N>, x: Stamped<N>, r: Events<N>, t: int)
    ensures |At(l + [x] + r, t)| == |At(l + r, t)| + if x.ts == t then 1 else 0
  {
    AtConcat(l + [x], r, t);
    AtSnoc(l, x, t);
    AtConcat(l, r, t);
  }

  lemma {:induction false} SameBagSameAt<N>(a: Events<N>, b: Events<N>, t: int)
    requires multiset(a) == multiset(b)
    ensures |At(a, t)| == |At(b, t)|
  {
    if a == [] {
      assert |multiset(b)| == 0;
    } else {
      var x := a[|a| - 1];
      assert x in multiset(b);
      var j :| 0 <= j < |b| && b[j] == x;
      Without(a, b, j);
      SameBagSameAt(a[..|a| - 1], b[..j] + b[j + 1..], t);
      AtMiddle(b[..j], x, b[j + 1..], t);
      assert b == b[..j] + [x] + b[j + 1..];
    }
  }

  predicate SameTimes<N>(a: Events<N>, b: Events<N>) {
    |a| == |b| && forall i :: 0 <= i < |a| ==> a[i].ts == b[i].ts
  }

  ghost predicate SameCounts<N>(a: Events<N>, b: Events<N>) {
    forall t :: |At(a, t)| == |At(b, t)|
  }

  lemma LastTimesAgree<N>(a: Events<N>, b: Events<N>)
    requires Sorted(a) && SameCounts(a, b) && b != []
    ensures a != [] && b[|b| - 1].ts <= a[|a| - 1].ts
  {
    var t := b[|b| - 1].ts;
    NoneAt(a, t);
    NoneAt(b, t);
    assert |At(a, t)| == |At(b, t)|;
  }

  lemma CountsSwap<N>(a: Events<N>, b: Events<N>)
    requires SameCounts(a, b)
    ensures SameCounts(b, a)
  {
    forall t ensures |At(b, t)| == |At(a, t)| {
      assert |At(a, t)| == |At(b, t)|;
    }
  }

  lemma CountsOfFronts<N>(a: Events<N>, x: Stamped<N>, b: Events<N>, y: Stamped<N>)
    requires SameCounts(a + [x], b + [y]) && x.ts == y.ts
    ensures SameCounts(a, b)
  {
    forall t ensures |At(a, t)| == |At(b, t)| {
      AtSnoc(a, x, t);
      AtSnoc(b, y, t);
      assert |At(a + [x], t)| == |At(b + [y], t)|;
    }
  }

  lemma {:induction false} SortedTimes<N>(a: Events<N>, b: Events<N>)
    requires Sorted(a) && Sorted(b) && SameCounts(a, b)
    ensures SameTimes(a, b)
    decreases |a| + |b|
  {
    CountsSwap(a, b);
    if a != [] {
      LastTimesAgree(b, a);
    }
    if b != [] {
      LastTimesAgree(a, b);
      var front, front' := a[..|a| - 1], b[..|b| - 1];
      assert a == front + [a[|a| - 1]] && b == front' + [b[|b| - 1]];
      CountsOfFronts(front, a[|a| - 1], front', b[|b| - 1]);
      SortedTimes(front, front');
    }
  }

  lemma {:induction false} SameTimesSameStart<N>(gapMs: int, a: Events<N>, b: Events<N>)
    requires SameTimes(a, b)
    ensures LastStart(gapMs, a) == LastStart(gapMs, b)
  {
    if |a| > 1 {
      SameTimesSameStart(gapMs, a[..|a| - 1], b[..|b| - 1]);
    }
  }

  /** Cut at a jump in time, two sorted buffers of the same events have the same events on both sides. */
  lemma SidesAgree<N>(a: Events<N>, b: Events<N>, k: nat)
    requires Sorted(a) && Sorted(b) && multiset(a) == multiset(b) && SameTimes(a, b)
    requires k < |a| && (k > 0 ==> a[k - 1].ts < a[k].ts)
    ensures multiset(a[..k]) == multiset(b[..k]) && multiset(a[k..]) == multiset(b[k..])
  {
    forall x ensures multiset(a[..k])[x] == multiset(b[..k])[x] {
      OneSide(a, k, x);
      OneSide(b, k, x);
    }
    OtherSide(a, b, k);
  }

  lemma OtherSide<T>(a: seq<T>, b: seq<T>, k: nat)
    requires multiset(a) == multiset(b) && k <= |a| && k <= |b| && multiset(a[..k]) == multiset(b[..k])
    ensures multiset(a[k..]) == multiset(b[k..])
  {
    assert a == a[..k] + a[k..] && b == b[..k] + b[k..];
    assert multiset(a[k..]) == multiset(a) - multiset(a[..k]);
    assert multiset(b[k..]) == multiset(b) - multiset(b[..k]);
  }

  lemma OneSide<N>(a: Events<N>, k: nat, x: Stamped<N>)
    requires Sorted(a) && k < |a| && (k > 0 ==> a[k - 1].ts < a[k].ts)
    ensures multiset(a[..k])[x] == if x.ts < a[k].ts then multiset(a)[x] else 0
  {
    assert a == a[..k] + a[k..];
    if x.ts < a[k].ts {
      assert x !in a[k..];
    } else {
      assert x !in a[..k];
    }
  }

  lemma SameWindow<N>(a: Events<N>, b: Events<N>)
    requires a != [] && multiset(a) == multiset(b) && SameTimes(a, b)
    ensures WindowOf(a) == WindowOf(b)
  {
    NamesCovered(a, b);
    NamesCovered(b, a);
    forall name | name in Histogram(a) ensures Histogram(a)[name] == Histogram(b)[name] {
      SameBagSameNamed(a, b, name);
      HistogramCounts(a, name);
      HistogramCounts(b, name);
    }
  }

  lemma {:induction false} NamesCovered<N>(a: Events<N>, b: Events<N>)
    requires multiset(a) == multiset(b)
    ensures Histogram(a).Keys <= Histogram(b).Keys
  {
    forall name | name in Histogram(a).Keys ensures name in Histogram(b).Keys {
      SameBagSameNamed(a, b, name);
      HistogramCounts(a, name);
      HistogramCounts(b, name);
    }
  }

  lemma {:induction false} SameSessions<N>(gapMs: int, a: Events<N>, b: Events<N>)
    requires gapMs > 0 && Sorted(a) && Sorted(b) && multiset(a) == multiset(b) && SameTimes(a, b)
    ensures Sessions(gapMs, a) == Sessions(gapMs, b)
    decreases |a|
  {
    if a != [] {
      var k := LastStart(gapMs, a);
      SameTimesSameStart(gapMs, a, b);
      LastStartMeans(gapMs, a);
      SidesAgree(a, b, k);
      SameSessions(gapMs, a[..k], b[..k]);
      SameWindow(a[k..], b[k..]);
      WindowsSnoc(Segments(gapMs, a[..k]), a[k..]);
      WindowsSnoc(Segments(gapMs, b[..k]), b[k..]);
    }
  }

  lemma WindowsSnoc<N>(segments: seq<Events<N>>, last: Events<N>)
    requires last != [] && forall i :: 0 <= i < |segments| ==> segments[i] != []
    ensures WindowsOf(segments + [last]) == WindowsOf(segments) + [WindowOf(last)]
  {
  }

  /** The same events give the same sessions, in whatever order they arrive. */
  lemma {:induction false} SessionsAreCanonical<N>(gapMs: int, a: Events<N>, b: Events<N>)
    requires gapMs > 0 && multiset(a) == multiset(b)
    ensures Sessions(gapMs, SortOf(a)) == Sessions(gapMs, SortOf(b))
  {
    SortBag(a);
    SortBag(b);
    SortIsStable(a, 0);
    SortIsStable(b, 0);
    forall t ensures |At(SortOf(a), t)| == |At(SortOf(b), t)| {
      SameBagSameAt(SortOf(a), SortOf(b), t);
    }
    assert SameCounts(SortOf(a), SortOf(b));
    SortedTimes(SortOf(a), SortOf(b));
    SameSessions(gapMs, SortOf(a), SortOf(b));
  }
}
