/**
 A bounded least-recently-used list with expiry, described twice.

 `Step` keeps a list of entries, most recently used first.  `RefStep` has no list at all: a map whose
 slots carry the tick of their last use, giving up the slot with the smallest tick.  `RunAgrees` shows
 that both tell the same story over every run.
 */
module LruList {
  import opened Prelude

  datatype Entry<K, V> = Entry(id: K, value: V, expiresAt: int)

  datatype Op<!K, V> =
    | Get(own: K, fallback: K, now: int)
    | Put(entry: Entry<K, V>)
    | Drop(doomed: K -> bool)
    | Purge(now: int)

  datatype Outcome<V> = Miss | Hit(value: V) | Stored | Removed(count: nat)

  /** Position of the entry stored under `id`, or the length of the list when there is none. */
  function Find<K(==), V>(s: seq<Entry<K, V>>, id: K): (i: nat)
    ensures i <= |s|
    ensures i < |s| ==> s[i].id == id
    ensures forall j :: 0 <= j < i ==> s[j].id != id
  {
    if s == [] then 0 else if s[0].id == id then 0 else 1 + Find(s[1..], id)
  }

  function Keep<T>(s: seq<T>, p: T -> bool): (r: seq<T>)
    ensures |r| <= |s|
  {
    if s == [] then []
    else
      var rest := Keep(s[..|s| - 1], p);
      if p(s[|s| - 1]) then rest + [s[|s| - 1]] else rest
  }

  /** The entry a lookup selects: the one stored under its own id, else the one under the fallback id. */
  function Target<K(==), V>(s: seq<Entry<K, V>>, own: K, fallback: K): (i: nat)
    ensures i <= |s|
  {
    if Find(s, own) < |s| then Find(s, own) else Find(s, fallback)
  }

  function Insert<K(==), V>(s: seq<Entry<K, V>>, capacity: nat, e: Entry<K, V>): seq<Entry<K, V>> {
    var i := Find(s, e.id);
    if i < |s| then [e] + RemoveAt(s, i)
    else if |s| >= capacity && |s| > 0 then [e] + s[..|s| - 1]
    else [e] + s
  }

  function Spared<K, V>(doomed: K -> bool): Entry<K, V> -> bool {
    (e: Entry<K, V>) => !doomed(e.id)
  }

  function Alive<K, V>(now: int): Entry<K, V> -> bool {
    (e: Entry<K, V>) => e.expiresAt > now
  }

  function Step<K(==), V>(capacity: nat, s: seq<Entry<K, V>>, op: Op<K, V>): (seq<Entry<K, V>>, Outcome<V>) {
    match op
    case Get(own, fallback, now) =>
      var i := Target(s, own, fallback);
      if i == |s| then (s, Miss)
      else if s[i].expiresAt <= now then (RemoveAt(s, i), Miss)
      else ([s[i]] + RemoveAt(s, i), Hit(s[i].value))
    case Put(e) => (Insert(s, capacity, e), Stored)
    case Drop(doomed) =>
      var t := Keep(s, Spared<K, V>(doomed));
      (t, Removed(|s| - |t|))
    case Purge(now) =>
      var t := Keep(s, Alive<K, V>(now));
      (t, Removed(|s| - |t|))
  }

  function Run<K(==), V>(capacity: nat, s: seq<Entry<K, V>>, ops: seq<Op<K, V>>): (seq<Entry<K, V>>, seq<Outcome<V>>)
    decreases |ops|
  {
    if ops == [] then (s, [])
    else
      var (mid, out) := Step(capacity, s, ops[0]);
      var (end, outs) := Run(capacity, mid, ops[1..]);
      (end, [out] + outs)
  }

  // ---------------------------------------------------------------- reference by last use

  datatype Slot<V> = Slot(value: V, expiresAt: int, lastUse: nat)
  datatype Ref<!K, V> = Ref(slots: map<K, Slot<V>>, tick: nat)

  ghost predicate Oldest<K, V>(m: map<K, Slot<V>>, k: K) {
    k in m && forall o :: o in m ==> m[k].lastUse <= m[o].lastUse
  }

  ghost predicate RefInsert<K(!new), V>(
    m: map<K, Slot<V>>, capacity: nat, k: K, slot: Slot<V>, filled: map<K, Slot<V>>) {
    if k in m || |m| < capacity || |m| == 0 then filled == m[k := slot]
    else exists victim :: Oldest(m, victim) && filled == (m - {victim})[k := slot]
  }

  /** One step of the list-free cache: a relation, since any slot with the smallest tick may go. */
  ghost predicate RefStep<K(!new), V>(capacity: nat, r: Ref<K, V>, op: Op<K, V>, after: Ref<K, V>, out: Outcome<V>) {
    after.tick == r.tick + 1 &&
    match op
    case Get(own, fallback, now) =>
      var k := if own in r.slots then own else fallback;
      if k !in r.slots then out == Miss && after.slots == r.slots
      else if r.slots[k].expiresAt <= now then out == Miss && after.slots == r.slots - {k}
      else out == Hit(r.slots[k].value) && after.slots == r.slots[k := r.slots[k].(lastUse := r.tick)]
    case Put(e) =>
      out == Stored && RefInsert(r.slots, capacity, e.id, Slot(e.value, e.expiresAt, r.tick), after.slots)
    case Drop(doomed) =>
      after.slots == (map k | k in r.slots && !doomed(k) :: r.slots[k]) &&
      out.Removed? && out.count + |after.slots| == |r.slots|
    case Purge(now) =>
      after.slots == (map k | k in r.slots && r.slots[k].expiresAt > now :: r.slots[k]) &&
      out.Removed? && out.count + |after.slots| == |r.slots|
  }

  // ---------------------------------------------------------------- the two descriptions agree

  ghost predicate UniqueIds<K, V>(s: seq<Entry<K, V>>) {
    forall i, j :: 0 <= i < j < |s| ==> s[i].id != s[j].id
  }

  ghost function Ids<K, V>(s: seq<Entry<K, V>>): set<K> {
    set i | 0 <= i < |s| :: s[i].id
  }

  ghost predicate Matches<K, V>(e: Entry<K, V>, r: Ref<K, V>) {
    e.id in r.slots && r.slots[e.id].value == e.value && r.slots[e.id].expiresAt == e.expiresAt &&
    r.slots[e.id].lastUse < r.tick
  }

  ghost function LastUse<K, V>(r: Ref<K, V>, k: K): nat {
    if k in r.slots then r.slots[k].lastUse else 0
  }

  /** The slots sorted by last use, latest first, are the list. */
  ghost predicate Agree<K, V>(s: seq<Entry<K, V>>, r: Ref<K, V>) {
    r.slots.Keys == Ids(s) &&
    (forall i :: 0 <= i < |s| ==> Matches(s[i], r)) &&
    forall i, j :: 0 <= i < j < |s| ==> LastUse(r, s[j].id) < LastUse(r, s[i].id)
  }

  lemma AgreeIsUnique<K, V>(s: seq<Entry<K, V>>, r: Ref<K, V>)
    requires Agree(s, r)
    ensures UniqueIds(s)
  {
  }

  lemma {:induction false} IdsCount<K, V>(s: seq<Entry<K, V>>)
    requires UniqueIds(s)
    ensures |Ids(s)| == |s|
  {
    if s != [] {
      var t, x := s[..|s| - 1], s[|s| - 1];
      IdsCount(t);
      IdsSnoc(t, x);
      assert s == t + [x];
      assert forall i :: 0 <= i < |t| ==> t[i].id != x.id;
    }
  }

  lemma IdsSnoc<K, V>(t: seq<Entry<K, V>>, x: Entry<K, V>)
    ensures Ids(t + [x]) == Ids(t) + {x.id}
  {
    var s := t + [x];
    forall k | k in Ids(s) ensures k in Ids(t) + {x.id} {
      var i := IdAt(s, k);
      if i < |t| {
        assert t[i].id == k;
      }
    }
    forall k | k in Ids(t) ensures k in Ids(s) {
      var i := IdAt(t, k);
      assert s[i].id == k;
    }
    assert s[|t|].id == x.id;
  }

  lemma SameSize<K, V>(s: seq<Entry<K, V>>, r: Ref<K, V>)
    requires Agree(s, r)
    ensures |r.slots| == |s|
  {
    AgreeIsUnique(s, r);
    IdsCount(s);
  }

  lemma IdAt<K, V>(s: seq<Entry<K, V>>, k: K) returns (i: nat)
    requires k in Ids(s)
    ensures i < |s| && s[i].id == k
  {
    i :| 0 <= i < |s| && s[i].id == k;
  }

  lemma {:induction false} FindMeansPresent<K, V>(s: seq<Entry<K, V>>, k: K)
    ensures Find(s, k) < |s| <==> k in Ids(s)
  {
    if k in Ids(s) {
      var j := IdAt(s, k);
    }
  }

  /** Moving the entry at `i` to the front, perhaps with a new value, is a use at the current tick. */
  lemma TouchAgrees<K, V>(s: seq<Entry<K, V>>, r: Ref<K, V>, i: nat, e: Entry<K, V>, after: Ref<K, V>)
    requires Agree(s, r) && i < |s| && e.id == s[i].id
    requires after.slots == r.slots[e.id := Slot(e.value, e.expiresAt, r.tick)] && after.tick == r.tick + 1
    ensures Agree([e] + RemoveAt(s, i), after)
  {
    DropAgrees(s, r, i, Ref(r.slots - {e.id}, r.tick));
    AddAgrees(RemoveAt(s, i), Ref(r.slots - {e.id}, r.tick), e, after);
  }

  lemma DropAgrees<K, V>(s: seq<Entry<K, V>>, r: Ref<K, V>, i: nat, after: Ref<K, V>)
    requires Agree(s, r) && i < |s|
    requires after.slots == r.slots - {s[i].id} && after.tick >= r.tick
    ensures Agree(RemoveAt(s, i), after)
  {
    var t := RemoveAt(s, i);
    assert forall j :: 0 <= j < |t| ==> t[j] == s[if j < i then j else j + 1];
    AgreeIsUnique(s, r);
    forall j | 0 <= j < |t|
      ensures Matches(t[j], after) && LastUse(after, t[j].id) == LastUse(r, s[if j < i then j else j + 1].id)
    {
      assert Matches(s[if j < i then j else j + 1], r);
    }
    RemovedIds(s, i);
  }

  lemma RemovedIds<K, V>(s: seq<Entry<K, V>>, i: nat)
    requires i < |s| && UniqueIds(s)
    ensures Ids(RemoveAt(s, i)) == Ids(s) - {s[i].id}
  {
    var t := RemoveAt(s, i);
    forall k | k in Ids(s) - {s[i].id} ensures k in Ids(t) {
      var o := IdAt(s, k);
      assert t[if o < i then o else o - 1].id == k;
    }
    forall k | k in Ids(t) ensures k in Ids(s) - {s[i].id} {
      var o := IdAt(t, k);
      assert t[o] == s[if o < i then o else o + 1];
    }
  }

  lemma AddAgrees<K, V>(s: seq<Entry<K, V>>, r: Ref<K, V>, e: Entry<K, V>, after: Ref<K, V>)
    requires Agree(s, r) && e.id !in r.slots
    requires after.slots == r.slots[e.id := Slot(e.value, e.expiresAt, r.tick)] && after.tick == r.tick + 1
    ensures Agree([e] + s, after)
  {
    var t := [e] + s;
    forall j | 0 <= j < |t|
      ensures Matches(t[j], after) && (j > 0 ==> LastUse(after, t[j].id) == LastUse(r, s[j - 1].id) < r.tick)
    {
      assert j > 0 ==> Matches(s[j - 1], r);
    }
    forall k | k in after.slots ensures k in Ids(t) {
      if k == e.id {
        assert t[0].id == k;
      } else {
        var o := IdAt(s, k);
        assert t[o + 1].id == k;
      }
    }
  }

  /**
   `kept` is the subsequence of `s` that passes: `f` lists the kept positions in order, `g` sends a kept
   position to its place.
   */
  ghost predicate Places<T>(s: seq<T>, kept: seq<T>, p: T -> bool, f: seq<nat>, g: seq<nat>) {
    |f| == |kept| && |g| == |s| &&
    (forall i :: 0 <= i < |f| ==> f[i] < |s| && kept[i] == s[f[i]] && p(s[f[i]])) &&
    (forall i, j :: 0 <= i < j < |f| ==> f[i] < f[j]) &&
    forall j :: 0 <= j < |s| && p(s[j]) ==> g[j] < |f| && f[g[j]] == j
  }

  lemma PlacesSkip<T>(front: seq<T>, x: T, kept: seq<T>, p: T -> bool, f: seq<nat>, g: seq<nat>)
    requires Places(front, kept, p, f, g) && !p(x)
    ensures Places(front + [x], kept, p, f, g + [|f|])
  {
  }

  lemma PlacesTake<T>(front: seq<T>, x: T, kept: seq<T>, p: T -> bool, f: seq<nat>, g: seq<nat>)
    requires Places(front, kept, p, f, g) && p(x)
    ensures Places(front + [x], kept + [x], p, f + [|front|], g + [|f|])
  {
  }

  /** `Keep` is a subsequence. */
  lemma {:induction false} KeepOrigin<T>(s: seq<T>, p: T -> bool) returns (f: seq<nat>, g: seq<nat>)
    ensures Places(s, Keep(s, p), p, f, g)
  {
    f, g := [], [];
    if s != [] {
      var front, x := s[..|s| - 1], s[|s| - 1];
      f, g := KeepOrigin(front, p);
      assert s == front + [x];
      if p(x) {
        PlacesTake(front, x, Keep(front, p), p, f, g);
        f, g := f + [|front|], g + [|f|];
      } else {
        PlacesSkip(front, x, Keep(front, p), p, f, g);
        g := g + [|f|];
      }
    }
  }

  lemma {:induction false} KeepAgrees<K, V>(s: seq<Entry<K, V>>, r: Ref<K, V>, p: Entry<K, V> -> bool, after: Ref<K, V>)
    requires Agree(s, r) && after.tick == r.tick + 1
    requires forall i :: 0 <= i < |s| ==> (p(s[i]) <==> s[i].id in after.slots)
    requires forall k :: k in after.slots ==> k in r.slots && after.slots[k] == r.slots[k]
    ensures Agree(Keep(s, p), after)
  {
    var t := Keep(s, p);
    var f, g := KeepOrigin(s, p);
    KeptIds(s, p, after.slots.Keys);
    forall j | 0 <= j < |t| ensures Matches(t[j], after) && LastUse(after, t[j].id) == LastUse(r, s[f[j]].id) {
      assert Matches(s[f[j]], r);
    }
    forall i, j | 0 <= i < j < |t| ensures LastUse(after, t[j].id) < LastUse(after, t[i].id) {
      assert f[i] < f[j] && LastUse(r, s[f[j]].id) < LastUse(r, s[f[i]].id);
    }
  }

  lemma {:induction false} KeptIds<K, V>(s: seq<Entry<K, V>>, p: Entry<K, V> -> bool, left: set<K>)
    requires forall i :: 0 <= i < |s| ==> (p(s[i]) <==> s[i].id in left)
    ensures Ids(Keep(s, p)) == Ids(s) * left
  {
    if s != [] {
      var front, x := s[..|s| - 1], s[|s| - 1];
      assert s == front + [x];
      assert forall i :: 0 <= i < |front| ==> front[i] == s[i];
      KeptIds(front, p, left);
      IdsSnoc(front, x);
      IdsSnoc(Keep(front, p), x);
    }
  }

  /** The last entry of the list is the only slot with the smallest tick. */
  lemma LastIsOldest<K(!new), V>(s: seq<Entry<K, V>>, r: Ref<K, V>)
    requires Agree(s, r) && |s| > 0
    ensures forall k :: Oldest(r.slots, k) <==> k == s[|s| - 1].id
  {
    var last := s[|s| - 1];
    assert Matches(last, r);
    forall o | o in r.slots && o != last.id ensures LastUse(r, last.id) < LastUse(r, o) {
      var j := IdAt(s, o);
    }
  }

  lemma InsertAgrees<K(!new), V>(s: seq<Entry<K, V>>, r: Ref<K, V>, capacity: nat, e: Entry<K, V>, after: Ref<K, V>)
    requires Agree(s, r) && capacity >= 1
    requires RefInsert(r.slots, capacity, e.id, Slot(e.value, e.expiresAt, r.tick), after.slots) &&
             after.tick == r.tick + 1
    ensures Agree(Insert(s, capacity, e), after)
  {
    var n := |s|;
    SameSize(s, r);
    FindMeansPresent(s, e.id);
    if Find(s, e.id) < n {
      TouchAgrees(s, r, Find(s, e.id), e, after);
    } else if n < capacity {
      AddAgrees(s, r, e, after);
    } else {
      GiveUpAgrees(s, r, e, after);
    }
  }

  /** Giving up the oldest slot to add a new one. */
  lemma GiveUpAgrees<K(!new), V>(s: seq<Entry<K, V>>, r: Ref<K, V>, e: Entry<K, V>, after: Ref<K, V>)
    requires Agree(s, r) && |s| > 0 && e.id !in r.slots && after.tick == r.tick + 1
    requires exists victim :: Oldest(r.slots, victim) &&
               after.slots == (r.slots - {victim})[e.id := Slot(e.value, e.expiresAt, r.tick)]
    ensures Agree([e] + s[..|s| - 1], after)
  {
    var n := |s|;
    LastIsOldest(s, r);
    var mid := Ref(r.slots - {s[n - 1].id}, r.tick);
    DropAgrees(s, r, n - 1, mid);
    assert RemoveAt(s, n - 1) == s[..n - 1];
    AddAgrees(s[..n - 1], mid, e, after);
  }

  lemma GetAgrees<K, V>(s: seq<Entry<K, V>>, r: Ref<K, V>, own: K, fallback: K)
    requires Agree(s, r)
    ensures var k := if own in r.slots then own else fallback;
            var i := Target(s, own, fallback);
            if k in r.slots then i < |s| && s[i].id == k && Matches(s[i], r) else i == |s|
  {
    FindMeansPresent(s, own);
    FindMeansPresent(s, fallback);
  }

  /**
   Whatever the list-free cache may do on an operation, it answers what the list answers and the two
   still agree: the entry given up on a full cache is the least recently used one, and nothing else is.
   */
  lemma StepAgrees<K(!new), V>(
    capacity: nat, s: seq<Entry<K, V>>, r: Ref<K, V>, op: Op<K, V>, after: Ref<K, V>, out: Outcome<V>)
    requires Agree(s, r) && capacity >= 1
    requires RefStep(capacity, r, op, after, out)
    ensures out == Step(capacity, s, op).1
    ensures Agree(Step(capacity, s, op).0, after)
  {
    match op
    case Get(own, fallback, now) => GetStepAgrees(s, r, own, fallback, now, after, out);
    case Put(e) => InsertAgrees(s, r, capacity, e, after);
    case Drop(doomed) => KeepStepAgrees(s, r, Spared<K, V>(doomed), after, out);
    case Purge(now) =>
      assert forall j :: 0 <= j < |s| ==> Matches(s[j], r);
      KeepStepAgrees(s, r, Alive<K, V>(now), after, out);
  }

  lemma GetStepAgrees<K(!new), V>(
    s: seq<Entry<K, V>>, r: Ref<K, V>, own: K, fallback: K, now: int, after: Ref<K, V>, out: Outcome<V>)
    requires Agree(s, r) && RefStep(1, r, Get(own, fallback, now), after, out)
    ensures out == Step(1, s, Get(own, fallback, now)).1
    ensures Agree(Step(1, s, Get(own, fallback, now)).0, after)
  {
    GetAgrees(s, r, own, fallback);
    var i := Target(s, own, fallback);
    if i == |s| {
      assert forall j :: 0 <= j < |s| && Matches(s[j], r) ==> Matches(s[j], after);
    } else if s[i].expiresAt <= now {
      DropAgrees(s, r, i, after);
    } else {
      TouchAgrees(s, r, i, s[i], after);
    }
  }

  lemma {:induction false} KeepStepAgrees<K(!new), V>(
    s: seq<Entry<K, V>>, r: Ref<K, V>, p: Entry<K, V> -> bool, after: Ref<K, V>, out: Outcome<V>)
    requires Agree(s, r) && after.tick == r.tick + 1
    requires forall i :: 0 <= i < |s| ==> (p(s[i]) <==> s[i].id in after.slots)
    requires forall k :: k in after.slots ==> k in r.slots && after.slots[k] == r.slots[k]
    requires out.Removed? && out.count + |after.slots| == |r.slots|
    ensures Agree(Keep(s, p), after) && out == Removed(|s| - |Keep(s, p)|)
  {
    KeepAgrees(s, r, p, after);
    SameSize(s, r);
    SameSize(Keep(s, p), after);
  }

  lemma {:induction false} SubsetSize<T>(a: set<T>, b: set<T>)
    requires a <= b
    ensures |a| <= |b|
  {
    if a != {} {
      var x :| x in a;
      SubsetSize(a - {x}, b - {x});
    }
  }

  /** The list-free cache is never stuck, so `StepAgrees` is about every operation. */
  lemma RefCanStep<K(!new), V>(capacity: nat, s: seq<Entry<K, V>>, r: Ref<K, V>, op: Op<K, V>)
    returns (after: Ref<K, V>, out: Outcome<V>)
    requires Agree(s, r) && capacity >= 1
    ensures RefStep(capacity, r, op, after, out)
  {
    out := Miss;
    var slots := r.slots;
    match op {
      case Get(own, fallback, now) =>
        var k := if own in r.slots then own else fallback;
        if k in r.slots && r.slots[k].expiresAt <= now {
          slots := r.slots - {k};
        } else if k in r.slots {
          slots, out := r.slots[k := r.slots[k].(lastUse := r.tick)], Hit(r.slots[k].value);
        }
      case Put(e) =>
        out := Stored;
        var slot := Slot(e.value, e.expiresAt, r.tick);
        slots := r.slots[e.id := slot];
        if !(e.id in r.slots || |r.slots| < capacity) {
          SameSize(s, r);
          LastIsOldest(s, r);
          slots := (r.slots - {s[|s| - 1].id})[e.id := slot];
        }
      case Drop(doomed) =>
        slots := map k | k in r.slots && !doomed(k) :: r.slots[k];
        SubsetSize(slots.Keys, r.slots.Keys);
        out := Removed(|r.slots| - |slots|);
      case Purge(now) =>
        slots := map k | k in r.slots && r.slots[k].expiresAt > now :: r.slots[k];
        SubsetSize(slots.Keys, r.slots.Keys);
        out := Removed(|r.slots| - |slots|);
    }
    after := Ref(slots, r.tick + 1);
  }

  ghost predicate RefRun<K(!new), V(!new)>(
    capacity: nat, r: Ref<K, V>, ops: seq<Op<K, V>>, after: Ref<K, V>, outs: seq<Outcome<V>>)
    decreases |ops|
  {
    if ops == [] then after == r && outs == []
    else
      outs != [] &&
      exists mid :: RefStep(capacity, r, ops[0], mid, outs[0]) && RefRun(capacity, mid, ops[1..], after, outs[1..])
  }

  /** Over every run the list answers exactly what the least-recently-used map answers. */
  lemma {:induction false} RunAgrees<K(!new), V(!new)>(
    capacity: nat, s: seq<Entry<K, V>>, r: Ref<K, V>, ops: seq<Op<K, V>>, after: Ref<K, V>, outs: seq<Outcome<V>>)
    requires Agree(s, r) && capacity >= 1
    requires RefRun(capacity, r, ops, after, outs)
    ensures outs == Run(capacity, s, ops).1
    ensures Agree(Run(capacity, s, ops).0, after)
    decreases |ops|
  {
    if ops != [] {
      var mid :| RefStep(capacity, r, ops[0], mid, outs[0]) && RefRun(capacity, mid, ops[1..], after, outs[1..]);
      StepAgrees(capacity, s, r, ops[0], mid, outs[0]);
      RunAgrees(capacity, Step(capacity, s, ops[0]).0, mid, ops[1..], after, outs[1..]);
    }
  }

  lemma ConsUnique<K, V>(e: Entry<K, V>, rest: seq<Entry<K, V>>)
    requires UniqueIds(rest) && forall x :: x in rest ==> x.id != e.id
    ensures UniqueIds([e] + rest)
  {
  }

  lemma RemoveUnique<K, V>(s: seq<Entry<K, V>>, i: nat)
    requires UniqueIds(s) && i < |s|
    ensures UniqueIds(RemoveAt(s, i)) && forall x :: x in RemoveAt(s, i) ==> x in s && x.id != s[i].id
  {
  }

  lemma InsertKeepsUnique<K, V>(capacity: nat, s: seq<Entry<K, V>>, e: Entry<K, V>)
    requires UniqueIds(s)
    ensures UniqueIds(Insert(s, capacity, e))
    ensures forall x :: x in Insert(s, capacity, e) ==> x == e || x in s
  {
    var i := Find(s, e.id);
    if i < |s| {
      RemoveUnique(s, i);
      ConsUnique(e, RemoveAt(s, i));
    } else if |s| >= capacity && |s| > 0 {
      var rest := s[..|s| - 1];
      assert forall x :: x in rest ==> x in s;
      ConsUnique(e, rest);
    } else {
      ConsUnique(e, s);
    }
  }

  /** What every step keeps: no two entries share an id, and the list fits. */
  lemma StepKeepsShape<K, V>(capacity: nat, s: seq<Entry<K, V>>, op: Op<K, V>)
    requires UniqueIds(s) && |s| <= capacity && capacity >= 1
    ensures UniqueIds(Step(capacity, s, op).0) && |Step(capacity, s, op).0| <= capacity
  {
    match op
    case Get(_, _, _) =>
    case Put(e) => InsertKeepsUnique(capacity, s, e);
    case Drop(doomed) =>
      var _, _ := KeepOrigin(s, Spared<K, V>(doomed));
    case Purge(now) =>
      var _, _ := KeepOrigin(s, Alive<K, V>(now));
  }
}
