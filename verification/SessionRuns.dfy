/**
 Session records against session windows: two components that split a subject's events by inactivity.

 For runs that only track, with session ids left to the stitcher, the records of each subject are the windows
 of the events filed under it.
 */
module SessionRuns {
  import opened Prelude
  import opened StableSort
  import opened SessionRecords
  import SessionWindows

  type Filings<!K, !I> = SessionWindows.Events<Op<K, I>>

  predicate OnlyTracks<K, I>(ops: seq<Op<K, I>>) {
    forall i :: 0 <= i < |ops| ==> ops[i].Track? && ops[i].given == None
  }

  /** The events of a subject, in the order they came. */
  function Filed<K(==), I>(ops: seq<Op<K, I>>, k: K): Filings<K, I> {
    if ops == [] then []
    else
      var op := ops[|ops| - 1];
      Filed(ops[..|ops| - 1], k) +
      if op.Track? && (op.owner == Some(k) || (op.owner == None && op.origin == Some(k))) then [Stamped(op.ts, op)]
      else []
  }

  /** A record for each run of events without a longer silence. */
  function Told<K, I>(name: Naming<K, I>, k: K, segments: seq<Filings<K, I>>): (r: Records<K, I>)
    requires forall i :: 0 <= i < |segments| ==> segments[i] != []
    ensures |r| == |segments|
  {
    seq(|segments|, i requires 0 <= i < |segments| =>
      var first, last := segments[i][0], segments[i][|segments[i]| - 1];
      Stamped(first.ts, Session(name(k, i + 1), k, last.ts, |segments[i]|)))
  }

  ghost predicate Tells<K, I>(d: Desk<K, I>, name: Naming<K, I>, gapMs: int, k: K, events: Filings<K, I>) {
    RecordsOf(d, k) == Told(name, k, SessionWindows.Segments(gapMs, events)) &&
    (k in d.lastSeen <==> events != []) && (events != [] ==> d.lastSeen[k] == events[|events| - 1].ts)
  }

  lemma SegmentsSnoc<N>(gapMs: int, events: SessionWindows.Events<N>, e: Stamped<N>)
    ensures var before, after := SessionWindows.Segments(gapMs, events), SessionWindows.Segments(gapMs, events + [e]);
            if events == [] || e.ts - events[|events| - 1].ts > gapMs then after == before + [[e]]
            else before != [] && after == before[..|before| - 1] + [before[|before| - 1] + [e]]
  {
    var all := events + [e];
    assert all[..|events|] == events && all[|events|..] == [e];
    if events == [] {
      assert all[..0] == [];
    } else {
      var k := SessionWindows.LastStart(gapMs, events);
      assert all[..k] == events[..k] && all[k..] == events[k..] + [e];
    }
  }

  lemma NotedTells<K, I>(
    d: Desk<K, I>, name: Naming<K, I>, gapMs: int, k: K, events: Filings<K, I>, e: Stamped<Op<K, I>>)
    requires Tells(d, name, gapMs, k, events)
    ensures var r := Noted(d, name, gapMs, k, e.ts, None);
            r.Some? && Tells(r.value, name, gapMs, k, events + [e])
  {
    var before := SessionWindows.Segments(gapMs, events);
    var rs, n := RecordsOf(d, k), |before|;
    SegmentsSnoc(gapMs, events, e);
    if events == [] || e.ts - events[|events| - 1].ts > gapMs {
      OneRecordMore(name, k, before, e);
    } else {
      LastRecordGrows(name, k, before, e);
    }
  }

  lemma OneRecordMore<K, I>(name: Naming<K, I>, k: K, before: seq<Filings<K, I>>, e: Stamped<Op<K, I>>)
    requires forall i :: 0 <= i < |before| ==> before[i] != []
    ensures var rs := Told(name, k, before) + [Stamped(e.ts, Session(name(k, |before| + 1), k, e.ts, 0))];
            Extended(rs, name(k, |before| + 1), e.ts) == Told(name, k, before + [[e]])
  {
  }

  lemma LastRecordGrows<K, I>(name: Naming<K, I>, k: K, before: seq<Filings<K, I>>, e: Stamped<Op<K, I>>)
    requires before != [] && forall i :: 0 <= i < |before| ==> before[i] != []
    ensures var rs, n := Told(name, k, before), |before| - 1;
            Extended(rs, rs[n].item.id, e.ts) == Told(name, k, before[..n] + [before[n] + [e]])
  {
  }

  // ---------------------------------------------------------------- whole runs

  lemma {:induction false} RunSnoc<K, I>(
    d: Desk<K, I>, name: Naming<K, I>, gapMs: int, ops: seq<Op<K, I>>, op: Op<K, I>)
    ensures Run(d, name, gapMs, ops + [op]) ==
            var r := Run(d, name, gapMs, ops); if r == None then None else Step(r.value, name, gapMs, op)
    decreases |ops|
  {
    var all := ops + [op];
    if ops == [] {
      assert all == [op] && all[1..] == [];
    } else {
      assert all[0] == ops[0] && all[1..] == ops[1..] + [op];
      var next := Step(d, name, gapMs, ops[0]);
      if next.Some? {
        RunSnoc(next.value, name, gapMs, ops[1..], op);
      }
    }
  }

  /**
   A run that only tracks never fails, and each subject's records are its events cut at every silence longer
   than the gap: one record each, with first and last time and the number.
   */
  lemma {:induction false} RecordsAreSegments<K, I>(name: Naming<K, I>, gapMs: int, ops: seq<Op<K, I>>, k: K)
    requires OnlyTracks(ops)
    ensures var r := Run(Blank(), name, gapMs, ops);
            r.Some? && r.value.aliases == map[] && Tells(r.value, name, gapMs, k, Filed(ops, k))
    decreases |ops|
  {
    if ops != [] {
      var front, op := ops[..|ops| - 1], ops[|ops| - 1];
      assert ops == front + [op];
      RecordsAreSegments(name, gapMs, front, k);
      RunSnoc(Blank(), name, gapMs, front, op);
      var d := Run(Blank(), name, gapMs, front).value;
      var who := SubjectIn(d.aliases, op.owner, op.origin);
      if who.Some? {
        RecordsAreSegments(name, gapMs, front, who.value);
      }
      StepTells(d, name, gapMs, front, op, k);
    }
  }

  lemma StepTells<K, I>(
    d: Desk<K, I>, name: Naming<K, I>, gapMs: int, front: seq<Op<K, I>>, op: Op<K, I>, k: K)
    requires d.aliases == map[] && op.Track? && op.given == None && Tells(d, name, gapMs, k, Filed(front, k))
    requires var who := SubjectIn(d.aliases, op.owner, op.origin);
             who.Some? ==> Tells(d, name, gapMs, who.value, Filed(front, who.value))
    ensures var r := Step(d, name, gapMs, op);
            r.Some? && r.value.aliases == map[] && Tells(r.value, name, gapMs, k, Filed(front + [op], k))
  {
    var who := SubjectIn(d.aliases, op.owner, op.origin);
    assert (front + [op])[..|front|] == front;
    if who.Some? {
      NotedTells(d, name, gapMs, who.value, Filed(front, who.value), Stamped(op.ts, op));
    }
    if who != Some(k) {
      assert Filed(front + [op], k) == Filed(front, k);
      if who.Some? {
        OthersKeep(d, name, gapMs, who.value, op.ts, k);
      }
    }
  }

  lemma OthersKeep<K, I>(d: Desk<K, I>, name: Naming<K, I>, gapMs: int, k: K, ts: int, other: K)
    requires other != k && Noted(d, name, gapMs, k, ts, None).Some?
    ensures var after := Noted(d, name, gapMs, k, ts, None).value;
            RecordsOf(after, other) == RecordsOf(d, other) && (other in after.lastSeen <==> other in d.lastSeen) &&
            (other in d.lastSeen ==> after.lastSeen[other] == d.lastSeen[other])
  {
  }

  lemma {:induction false} FiledInTime<K, I>(ops: seq<Op<K, I>>, k: K)
    requires OnlyTracks(ops) && forall i, j :: 0 <= i < j < |ops| ==> ops[i].ts <= ops[j].ts
    ensures Sorted(Filed(ops, k))
    ensures forall e :: e in Filed(ops, k) ==> e.ts <= ops[|ops| - 1].ts
  {
    if ops != [] {
      FiledInTime(ops[..|ops| - 1], k);
    }
  }

  /**
   When the events come in time order, the records of a subject are the windows the grouper reports for the
   same events: as many, with the same start, end and count.
   */
  lemma {:induction false} RecordsAreWindows<K, I>(name: Naming<K, I>, gapMs: int, ops: seq<Op<K, I>>, k: K, i: nat)
    requires OnlyTracks(ops) && forall i, j :: 0 <= i < j < |ops| ==> ops[i].ts <= ops[j].ts
    ensures Run(Blank(), name, gapMs, ops).Some?
    ensures var rs := RecordsOf(Run(Blank(), name, gapMs, ops).value, k);
            var ws := SessionWindows.Sessions(gapMs, SortOf(Filed(ops, k)));
            |rs| == |ws| &&
            (i < |rs| ==>
               rs[i].ts == ws[i].startedAt && rs[i].item.end == ws[i].endedAt && rs[i].item.count == ws[i].eventCount)
  {
    var events := Filed(ops, k);
    RecordsAreSegments(name, gapMs, ops, k);
    FiledInTime(ops, k);
    SortAgain(events, events);
  }
}
