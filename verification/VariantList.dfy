/**
 What the cache holds, as a list of entries, most recently used first, whose names also say whether the
 two-level map still reaches them.

 An entry is `Lost` when it is listed but no longer mapped.  `RunIsLru` shows that this list is the plain
 recency list as long as no store loses its own entry, and `LostIsNeverServed` what becomes of those that do.
 */
module VariantList {
  import opened Prelude
  import Lru = LruList

  datatype Name<B, V> = Live(base: B, vary: V) | Lost(base: B, vary: V)

  type Entry<B, V, C> = Lru.Entry<Name<B, V>, C>
  type Entries<B, V, C> = seq<Entry<B, V, C>>

  datatype Op<B, V, C> =
    | Get(base: B, own: V, fallback: V, now: int)
    | Put(base: B, vary: V, value: C, expiresAt: int)
    | Drop(base: B)
    | Purge(now: int)

  /** Taking (`b`, `v`) out of the map: an entry that was reached under it no longer is. */
  function Unmapped<B(==), V(==)>(n: Name<B, V>, b: B, v: V): Name<B, V> {
    if n == Live(b, v) then Lost(b, v) else n
  }

  function Demoted<B(==), V(==), C>(s: Entries<B, V, C>, b: B, v: V): (r: Entries<B, V, C>)
    ensures |r| == |s|
  {
    seq(|s|, i requires 0 <= i < |s| => s[i].(id := Unmapped(s[i].id, b, v)))
  }

  /** Some entry is reached under base key `b`. */
  predicate Reached<B(==), V, C>(s: Entries<B, V, C>, b: B) {
    exists i :: 0 <= i < |s| && s[i].id.Live? && s[i].id.base == b
  }

  /** Storing (`b`, `v`) gives up the last entry, and the map forgets the keys of that one. */
  predicate GivesUp<B(==), V(==), C>(s: Entries<B, V, C>, capacity: nat, b: B, v: V) {
    Lru.Find(s, Live(b, v)) == |s| && |s| >= capacity && |s| > 0
  }

  /** What is left after that. */
  function Rest<B(==), V(==), C>(s: Entries<B, V, C>): (r: Entries<B, V, C>)
    requires |s| > 0
    ensures |r| == |s| - 1
  {
    Demoted(s[..|s| - 1], s[|s| - 1].id.base, s[|s| - 1].id.vary)
  }

  /**
   Storing (`b`, `v`) gives up the last entry, whose base key is `b`, and no other entry is reached under `b`:
   the map drops the shelf the new entry is about to be put on.
   */
  predicate Orphans<B(==), V(==), C>(s: Entries<B, V, C>, capacity: nat, b: B, v: V) {
    GivesUp(s, capacity, b, v) && s[|s| - 1].id.base == b && !Reached(Rest(s), b)
  }

  function Stored<B(==), V(==), C>(
    s: Entries<B, V, C>, capacity: nat, b: B, v: V, value: C, expiresAt: int): Entries<B, V, C>
  {
    var i := Lru.Find(s, Live(b, v));
    if i < |s| then [Lru.Entry(Live(b, v), value, expiresAt)] + RemoveAt(s, i)
    else if GivesUp(s, capacity, b, v) then
      [Lru.Entry(if Orphans(s, capacity, b, v) then Lost(b, v) else Live(b, v), value, expiresAt)] + Rest(s)
    else [Lru.Entry(Live(b, v), value, expiresAt)] + s
  }

  function Under<B(==), V>(b: B): Name<B, V> -> bool {
    (n: Name<B, V>) => n.Live? && n.base == b
  }

  /** What a purge leaves: it goes through the map, so a lost entry stays. */
  function Lasting<B, V, C>(now: int): Entry<B, V, C> -> bool {
    (e: Entry<B, V, C>) => e.id.Lost? || e.expiresAt > now
  }

  function Step<B(==), V(==), C>(
    capacity: nat, s: Entries<B, V, C>, op: Op<B, V, C>): (Entries<B, V, C>, Lru.Outcome<C>)
  {
    match op
    case Get(b, own, fallback, now) => Lru.Step(capacity, s, Lru.Get(Live(b, own), Live(b, fallback), now))
    case Put(b, v, value, expiresAt) => (Stored(s, capacity, b, v, value, expiresAt), Lru.Stored)
    case Drop(b) => Lru.Step(capacity, s, Lru.Drop(Under(b)))
    case Purge(now) =>
      var t := Lru.Keep(s, Lasting(now));
      (t, Lru.Removed(|s| - |t|))
  }

  function Run<B(==), V(==), C>(
    capacity: nat, s: Entries<B, V, C>, ops: seq<Op<B, V, C>>): (Entries<B, V, C>, seq<Lru.Outcome<C>>)
    decreases |ops|
  {
    if ops == [] then (s, [])
    else
      var (mid, out) := Step(capacity, s, ops[0]);
      var (end, outs) := Run(capacity, mid, ops[1..]);
      (end, [out] + outs)
  }

  // ---------------------------------------------------------------- what every step keeps

  /** No two entries are reached under the same keys. */
  ghost predicate UniqueLive<B, V, C>(s: Entries<B, V, C>) {
    forall i, j :: 0 <= i < j < |s| && s[i].id.Live? ==> s[i].id != s[j].id
  }

  ghost predicate AllLive<B, V, C>(s: Entries<B, V, C>) {
    forall i :: 0 <= i < |s| ==> s[i].id.Live?
  }

  lemma ConsUnique<B, V, C>(e: Entry<B, V, C>, s: Entries<B, V, C>)
    requires UniqueLive(s) && (e.id.Live? ==> forall i :: 0 <= i < |s| ==> s[i].id != e.id)
    ensures UniqueLive([e] + s)
  {
  }

  lemma RemoveUnique<B, V, C>(s: Entries<B, V, C>, i: nat)
    requires UniqueLive(s) && i < |s|
    ensures UniqueLive(RemoveAt(s, i))
    ensures s[i].id.Live? ==> forall j :: 0 <= j < |s| - 1 ==> RemoveAt(s, i)[j].id != s[i].id
  {
    var t := RemoveAt(s, i);
    assert forall j :: 0 <= j < |t| ==> t[j] == s[if j < i then j else j + 1];
  }

  lemma RestUnique<B, V, C>(s: Entries<B, V, C>)
    requires UniqueLive(s) && |s| > 0
    ensures UniqueLive(Rest(s))
  {
  }

  lemma KeepUnique<B, V, C>(s: Entries<B, V, C>, p: Entry<B, V, C> -> bool)
    requires UniqueLive(s)
    ensures UniqueLive(Lru.Keep(s, p))
  {
    var f, _ := Lru.KeepOrigin(s, p);
    var t := Lru.Keep(s, p);
    forall i, j | 0 <= i < j < |t| && t[i].id.Live? ensures t[i].id != t[j].id {
      assert f[i] < f[j];
    }
  }

  lemma StoredKeepsUnique<B, V, C>(s: Entries<B, V, C>, capacity: nat, b: B, v: V, value: C, expiresAt: int)
    requires UniqueLive(s)
    ensures UniqueLive(Stored(s, capacity, b, v, value, expiresAt))
  {
    var i, after := Lru.Find(s, Live(b, v)), Stored(s, capacity, b, v, value, expiresAt);
    if i < |s| {
      RemoveUnique(s, i);
      ConsUnique(after[0], RemoveAt(s, i));
    } else if GivesUp(s, capacity, b, v) {
      RestUnique(s);
      ConsUnique(after[0], Rest(s));
    } else {
      ConsUnique(after[0], s);
    }
  }

  /** Entries reached keep distinct keys, and the list stays within capacity, over every operation. */
  lemma StepKeepsShape<B, V, C>(capacity: nat, s: Entries<B, V, C>, op: Op<B, V, C>)
    requires UniqueLive(s) && |s| <= capacity && capacity >= 1
    ensures UniqueLive(Step(capacity, s, op).0) && |Step(capacity, s, op).0| <= capacity
  {
    match op
    case Get(b, own, fallback, now) =>
      var i := Lru.Target(s, Live(b, own), Live(b, fallback));
      if i < |s| {
        RemoveUnique(s, i);
        ConsUnique(s[i], RemoveAt(s, i));
      }
    case Put(b, v, value, expiresAt) => StoredKeepsUnique(s, capacity, b, v, value, expiresAt);
    case Drop(b) => KeepUnique(s, Lru.Spared<Name<B, V>, C>(Under(b)));
    case Purge(now) => KeepUnique(s, Lasting<B, V, C>(now));
  }

  // ---------------------------------------------------------------- without losses it is the recency list

  function AsLru<B(==), V(==), C>(op: Op<B, V, C>): Lru.Op<Name<B, V>, C> {
    match op
    case Get(b, own, fallback, now) => Lru.Get(Live(b, own), Live(b, fallback), now)
    case Put(b, v, value, expiresAt) => Lru.Put(Lru.Entry(Live(b, v), value, expiresAt))
    case Drop(b) => Lru.Drop(Under(b))
    case Purge(now) => Lru.Purge(now)
  }

  ghost predicate Loses<B, V, C>(capacity: nat, s: Entries<B, V, C>, op: Op<B, V, C>) {
    op.Put? && Orphans(s, capacity, op.base, op.vary)
  }

  lemma RestIsFront<B, V, C>(s: Entries<B, V, C>)
    requires UniqueLive(s) && AllLive(s) && |s| > 0
    ensures Rest(s) == s[..|s| - 1]
  {
  }

  lemma {:induction false} KeepSame<T>(s: seq<T>, p: T -> bool, q: T -> bool)
    requires forall i :: 0 <= i < |s| ==> p(s[i]) == q(s[i])
    ensures Lru.Keep(s, p) == Lru.Keep(s, q)
  {
    if s != [] {
      KeepSame(s[..|s| - 1], p, q);
    }
  }

  lemma {:induction false} KeepLive<B, V, C>(s: Entries<B, V, C>, p: Entry<B, V, C> -> bool)
    requires AllLive(s)
    ensures AllLive(Lru.Keep(s, p))
  {
    if s != [] {
      KeepLive(s[..|s| - 1], p);
    }
  }

  /** While everything is mapped, a step is a step of the recency list, and loses at most the entry it stores. */
  lemma StepIsLru<B, V, C>(capacity: nat, s: Entries<B, V, C>, op: Op<B, V, C>)
    requires UniqueLive(s) && AllLive(s)
    ensures AllLive(Step(capacity, s, op).0) <==> !Loses(capacity, s, op)
    ensures !Loses(capacity, s, op) ==> Step(capacity, s, op) == Lru.Step(capacity, s, AsLru(op))
  {
    match op
    case Get(b, own, fallback, now) =>
    case Put(b, v, value, expiresAt) =>
      var after := Stored(s, capacity, b, v, value, expiresAt);
      assert after[0].id.Lost? <==> Orphans(s, capacity, b, v);
      if GivesUp(s, capacity, b, v) {
        RestIsFront(s);
      }
    case Drop(b) => KeepLive(s, Lru.Spared<Name<B, V>, C>(Under(b)));
    case Purge(now) =>
      KeepSame(s, Lasting(now), Lru.Alive(now));
      KeepLive(s, Lasting<B, V, C>(now));
  }

  /** No store of the run loses its entry. */
  ghost predicate NothingLost<B, V, C>(capacity: nat, s: Entries<B, V, C>, ops: seq<Op<B, V, C>>)
    decreases |ops|
  {
    ops == [] || (!Loses(capacity, s, ops[0]) && NothingLost(capacity, Step(capacity, s, ops[0]).0, ops[1..]))
  }

  function AllAsLru<B(==), V(==), C>(ops: seq<Op<B, V, C>>): (r: seq<Lru.Op<Name<B, V>, C>>)
    ensures |r| == |ops|
  {
    seq(|ops|, i requires 0 <= i < |ops| => AsLru(ops[i]))
  }

  /** A run that loses nothing answers what the recency list answers. */
  lemma {:induction false} RunIsLru<B, V, C>(capacity: nat, s: Entries<B, V, C>, ops: seq<Op<B, V, C>>)
    requires UniqueLive(s) && AllLive(s) && |s| <= capacity && capacity >= 1 && NothingLost(capacity, s, ops)
    ensures Run(capacity, s, ops) == Lru.Run(capacity, s, AllAsLru(ops)) && AllLive(Run(capacity, s, ops).0)
    decreases |ops|
  {
    if ops != [] {
      StepIsLru(capacity, s, ops[0]);
      StepKeepsShape(capacity, s, ops[0]);
      RunIsLru(capacity, Step(capacity, s, ops[0]).0, ops[1..]);
      assert AllAsLru(ops)[0] == AsLru(ops[0]) && AllAsLru(ops)[1..] == AllAsLru(ops[1..]);
    }
  }

  /** So it gives up the least recently used entry, as told by the cache that has no list. */
  lemma RunIsLastUse<B(!new), V(!new), C(!new)>(
    capacity: nat, s: Entries<B, V, C>, ops: seq<Op<B, V, C>>, r: Lru.Ref<Name<B, V>, C>,
    after: Lru.Ref<Name<B, V>, C>, outs: seq<Lru.Outcome<C>>)
    requires AllLive(s) && |s| <= capacity && capacity >= 1 && NothingLost(capacity, s, ops)
    requires Lru.Agree(s, r) && Lru.RefRun(capacity, r, AllAsLru(ops), after, outs)
    ensures Run(capacity, s, ops).1 == outs && Lru.Agree(Run(capacity, s, ops).0, after)
  {
    Lru.AgreeIsUnique(s, r);
    RunIsLru(capacity, s, ops);
    Lru.RunAgrees(capacity, s, r, AllAsLru(ops), after, outs);
  }

  // ---------------------------------------------------------------- what is lost stays lost

  /** Every entry that holds `x` is lost. */
  ghost predicate OnlyLost<B, V, C(!new)>(s: Entries<B, V, C>, x: C) {
    forall i :: 0 <= i < |s| && s[i].value == x ==> s[i].id.Lost?
  }

  lemma {:induction false} KeepOnlyLost<B, V, C(!new)>(s: Entries<B, V, C>, p: Entry<B, V, C> -> bool, x: C)
    requires OnlyLost(s, x)
    ensures OnlyLost(Lru.Keep(s, p), x)
  {
    if s != [] {
      KeepOnlyLost(s[..|s| - 1], p, x);
    }
  }

  lemma LostStaysLost<B, V, C(!new)>(capacity: nat, s: Entries<B, V, C>, op: Op<B, V, C>, x: C)
    requires OnlyLost(s, x) && !(op.Put? && op.value == x)
    ensures OnlyLost(Step(capacity, s, op).0, x) && Step(capacity, s, op).1 != Lru.Hit(x)
  {
    match op
    case Get(b, own, fallback, now) =>
    case Put(b, v, value, expiresAt) =>
      var after := Stored(s, capacity, b, v, value, expiresAt);
      if GivesUp(s, capacity, b, v) {
        var rest := Rest(s);
        assert forall i :: 0 <= i < |rest| && rest[i].value == x ==> s[i].id.Lost?;
      }
    case Drop(b) => KeepOnlyLost(s, Lru.Spared<Name<B, V>, C>(Under(b)), x);
    case Purge(now) => KeepOnlyLost(s, Lasting<B, V, C>(now), x);
  }

  /** An orphaning store leaves what it stored in a lost entry only, when no other entry holds it. */
  lemma OrphanIsOnlyLost<B, V, C(!new)>(s: Entries<B, V, C>, capacity: nat, b: B, v: V, value: C, expiresAt: int)
    requires Orphans(s, capacity, b, v) && forall i :: 0 <= i < |s| ==> s[i].value != value
    ensures OnlyLost(Stored(s, capacity, b, v, value, expiresAt), value)
  {
    var after := Stored(s, capacity, b, v, value, expiresAt);
    forall i | 1 <= i < |after| ensures after[i].value != value {
      assert after[i] == Rest(s)[i - 1] && Rest(s)[i - 1].value == s[i - 1].value;
    }
  }

  /** What is held by lost entries only is not served again before it is stored again, whatever else is done. */
  lemma {:induction false} LostIsNeverServed<B, V, C(!new)>(
    capacity: nat, s: Entries<B, V, C>, ops: seq<Op<B, V, C>>, x: C)
    requires OnlyLost(s, x) && forall i :: 0 <= i < |ops| && ops[i].Put? ==> ops[i].value != x
    ensures Lru.Hit(x) !in Run(capacity, s, ops).1
    decreases |ops|
  {
    if ops != [] {
      LostStaysLost(capacity, s, ops[0], x);
      LostIsNeverServed(capacity, Step(capacity, s, ops[0]).0, ops[1..], x);
    }
  }
}
