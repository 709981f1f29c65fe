/**
 The store behind the response cache: a two-level map of nodes threaded onto a doubly linked list.

 The map can forget a node that stays listed (see `VariantList.Orphans`).  The ghost field `index` says
 which nodes are mapped and `payload` what they hold; together with the list they are the entries of
 `VariantList`.
 */
module CacheStore {
  import opened Prelude
  import Lru = LruList
  import List = VariantList

  class Node<B, V, C> {
    const key: B
    const varyKey: V
    var value: C
    var expiresAt: int
    var prev: Node?<B, V, C>
    var next: Node?<B, V, C>

    constructor (key: B, varyKey: V, value: C, expiresAt: int)
      ensures this.key == key && this.varyKey == varyKey && this.value == value && this.expiresAt == expiresAt
    {
      this.key, this.varyKey, this.value, this.expiresAt := key, varyKey, value, expiresAt;
      prev, next := null, null;
    }
  }

  /** The inner map of one base key.  It is an object: `Put` may go on holding one the outer map has dropped. */
  class Shelf<B, V(==), C> {
    var nodes: map<V, Node<B, V, C>>

    constructor ()
      ensures nodes == map[]
    {
      nodes := map[];
    }
  }

  // ---------------------------------------------------------------- nodes as entries

  /** The two-level map, flattened. */
  type Index<!B(==), !V(==), C> = map<(B, V), Node<B, V, C>>

  /** What the nodes hold: value and expiry. */
  type Payload<!B, !V, C> = map<Node<B, V, C>, (C, int)>

  ghost function IdOf<B, V, C>(n: Node<B, V, C>): (B, V) {
    (n.key, n.varyKey)
  }

  ghost predicate Mapped<B, V, C>(m: Index<B, V, C>, n: Node<B, V, C>) {
    IdOf(n) in m && m[IdOf(n)] == n
  }

  /** Only listed nodes are mapped, under their own keys. */
  ghost predicate Indexed<B, V, C>(l: seq<Node<B, V, C>>, m: Index<B, V, C>) {
    forall k :: k in m ==> m[k] in l && IdOf(m[k]) == k
  }

  lemma IndexedWithout<B, V, C>(l: seq<Node<B, V, C>>, m: Index<B, V, C>, i: nat)
    requires Indexed(l, m) && i < |l|
    ensures Indexed(RemoveAt(l, i), m - {IdOf(l[i])})
  {
    RemoveAtKeeps(l, i);
  }

  ghost predicate Covers<B, V, C>(w: Payload<B, V, C>, l: seq<Node<B, V, C>>) {
    forall n :: n in l ==> n in w
  }

  ghost predicate HasVariant<B, V(!new), C>(m: Index<B, V, C>, b: B) {
    exists v :: (b, v) in m
  }

  ghost function NameOf<B, V, C>(m: Index<B, V, C>, n: Node<B, V, C>): List.Name<B, V> {
    if Mapped(m, n) then List.Live(n.key, n.varyKey) else List.Lost(n.key, n.varyKey)
  }

  ghost function EntriesOf<B, V, C>(
    l: seq<Node<B, V, C>>, m: Index<B, V, C>, w: Payload<B, V, C>): (s: List.Entries<B, V, C>)
    requires Covers(w, l)
    ensures |s| == |l|
  {
    seq(|l|, i requires 0 <= i < |l| => Lru.Entry(NameOf(m, l[i]), w[l[i]].0, w[l[i]].1))
  }

  lemma EntriesAreUnique<B, V, C>(l: seq<Node<B, V, C>>, m: Index<B, V, C>, w: Payload<B, V, C>)
    requires Distinct(l) && Covers(w, l)
    ensures List.UniqueLive(EntriesOf(l, m, w))
  {
    var s := EntriesOf(l, m, w);
    forall i, j | 0 <= i < j < |s| && s[i].id.Live? ensures s[i].id != s[j].id {
      assert l[i] != l[j];
    }
  }

  /** Looking into the two-level map and scanning the list find the same node. */
  lemma Located<B, V, C>(l: seq<Node<B, V, C>>, m: Index<B, V, C>, w: Payload<B, V, C>, b: B, v: V)
    requires Indexed(l, m) && Covers(w, l)
    ensures var i := Lru.Find(EntriesOf(l, m, w), List.Live(b, v));
            if i < |l| then (b, v) in m && m[(b, v)] == l[i] else (b, v) !in m
  {
    var i := Lru.Find(EntriesOf(l, m, w), List.Live(b, v));
    if i < |l| {
      assert NameOf(m, l[i]) == List.Live(b, v);
    }
    if (b, v) in m {
      var j :| 0 <= j < |l| && l[j] == m[(b, v)];
      assert EntriesOf(l, m, w)[j].id == List.Live(b, v);
    }
  }

  lemma ReachedMeans<B, V(!new), C>(l: seq<Node<B, V, C>>, m: Index<B, V, C>, w: Payload<B, V, C>, b: B)
    requires Indexed(l, m) && Covers(w, l)
    ensures List.Reached(EntriesOf(l, m, w), b) <==> HasVariant(m, b)
  {
    var s := EntriesOf(l, m, w);
    if i :| 0 <= i < |s| && s[i].id.Live? && s[i].id.base == b {
      assert (b, l[i].varyKey) in m;
    }
    if v :| (b, v) in m {
      var i :| 0 <= i < |l| && l[i] == m[(b, v)];
      assert s[i].id == List.Live(b, v);
    }
  }

  /** Moving a node to the front, perhaps with a new payload. */
  lemma EntriesMoved<B, V, C>(l: seq<Node<B, V, C>>, m: Index<B, V, C>, w: Payload<B, V, C>, i: nat, p: (C, int))
    requires i < |l| && Distinct(l) && Covers(w, l)
    ensures Covers(w[l[i] := p], [l[i]] + RemoveAt(l, i))
    ensures EntriesOf([l[i]] + RemoveAt(l, i), m, w[l[i] := p]) ==
            [Lru.Entry(NameOf(m, l[i]), p.0, p.1)] + RemoveAt(EntriesOf(l, m, w), i)
  {
  }

  /** Unlinking and unmapping a node takes its entry out. */
  lemma EntriesWithout<B, V, C>(l: seq<Node<B, V, C>>, m: Index<B, V, C>, w: Payload<B, V, C>, i: nat)
    requires i < |l| && Distinct(l) && Mapped(m, l[i]) && Covers(w, l)
    ensures Covers(w, RemoveAt(l, i))
    ensures EntriesOf(RemoveAt(l, i), m - {IdOf(l[i])}, w) == RemoveAt(EntriesOf(l, m, w), i)
  {
    var m' := m - {IdOf(l[i])};
    forall j | 0 <= j < |l| && j != i ensures NameOf(m', l[j]) == NameOf(m, l[j]) {
      assert l[j] != l[i];
    }
  }

  /** Unlinking the last node and unmapping its keys. */
  lemma EntriesRest<B, V, C>(l: seq<Node<B, V, C>>, m: Index<B, V, C>, w: Payload<B, V, C>)
    requires |l| > 0 && Covers(w, l)
    ensures EntriesOf(l[..|l| - 1], m - {IdOf(l[|l| - 1])}, w) == List.Rest(EntriesOf(l, m, w))
  {
    var last := l[|l| - 1];
    forall j | 0 <= j < |l| - 1
      ensures NameOf(m - {IdOf(last)}, l[j]) == List.Unmapped(NameOf(m, l[j]), last.key, last.varyKey)
    {
    }
  }

  /** A new node brings in one entry, and leaves the others alone. */
  lemma EntriesWith<B, V, C>(
    l: seq<Node<B, V, C>>, m: Index<B, V, C>, w: Payload<B, V, C>, n: Node<B, V, C>, p: (C, int), mapped: bool)
    requires n !in l && IdOf(n) !in m && Covers(w, l)
    ensures EntriesOf([n] + l, if mapped then m[IdOf(n) := n] else m, w[n := p]) ==
            [Lru.Entry(if mapped then List.Live(n.key, n.varyKey) else List.Lost(n.key, n.varyKey), p.0, p.1)] +
            EntriesOf(l, m, w)
  {
    var m' := if mapped then m[IdOf(n) := n] else m;
    forall j | 0 <= j < |l| ensures NameOf(m', l[j]) == NameOf(m, l[j]) {
      assert l[j] != n;
    }
  }

  lemma OtherVariants<B, V(!new), C>(m: Index<B, V, C>, b: B, v: V)
    ensures forall c :: c != b ==> (HasVariant(m - {(b, v)}, c) <==> HasVariant(m, c))
  {
    forall c | c != b ensures HasVariant(m - {(b, v)}, c) <==> HasVariant(m, c) {
      if w :| (c, w) in m {
        assert (c, w) in m - {(b, v)};
      }
    }
  }

  // ---------------------------------------------------------------- making room

  /** What is listed, what is mapped once a store has made room for one more. */
  ghost function Kept<B, V, C>(l: seq<Node<B, V, C>>, capacity: nat): seq<Node<B, V, C>> {
    if |l| < capacity || |l| == 0 then l else l[..|l| - 1]
  }

  ghost function Freed<B, V, C>(l: seq<Node<B, V, C>>, m: Index<B, V, C>, capacity: nat): Index<B, V, C> {
    if |l| < capacity || |l| == 0 then m else m - {IdOf(l[|l| - 1])}
  }

  /** Making room has dropped the shelf of `b`. */
  ghost predicate Dropped<B, V(!new), C>(l: seq<Node<B, V, C>>, m: Index<B, V, C>, capacity: nat, b: B) {
    |l| >= capacity && |l| > 0 && l[|l| - 1].key == b && !HasVariant(Freed(l, m, capacity), b)
  }

  lemma KeptIsIndexed<B, V, C>(l: seq<Node<B, V, C>>, m: Index<B, V, C>, capacity: nat)
    requires Indexed(l, m)
    ensures Indexed(Kept(l, capacity), Freed(l, m, capacity))
  {
    if |l| >= capacity && |l| > 0 {
      assert RemoveAt(l, |l| - 1) == l[..|l| - 1];
      IndexedWithout(l, m, |l| - 1);
    }
  }

  lemma KeptAreIn<B, V, C>(l: seq<Node<B, V, C>>, capacity: nat)
    ensures forall x :: x in Kept(l, capacity) ==> x in l
  {
  }

  /** The store of a new node, told on the entries. */
  lemma StoredMeans<B, V(!new), C>(
    l: seq<Node<B, V, C>>, m: Index<B, V, C>, w: Payload<B, V, C>, capacity: nat, n: Node<B, V, C>, p: (C, int))
    requires Indexed(l, m) && Covers(w, l) && IdOf(n) !in m && n !in l && capacity >= 1
    ensures var m' := Freed(l, m, capacity);
            EntriesOf([n] + Kept(l, capacity), if Dropped(l, m, capacity, n.key) then m' else m'[IdOf(n) := n],
                      w[n := p]) ==
            List.Stored(EntriesOf(l, m, w), capacity, n.key, n.varyKey, p.0, p.1)
  {
    var s := EntriesOf(l, m, w);
    Located(l, m, w, n.key, n.varyKey);
    KeptAreIn(l, capacity);
    EntriesWith(Kept(l, capacity), Freed(l, m, capacity), w, n, p, !Dropped(l, m, capacity, n.key));
    KeptIsIndexed(l, m, capacity);
    if |l| >= capacity {
      EntriesRest(l, m, w);
      ReachedMeans(Kept(l, capacity), Freed(l, m, capacity), w, n.key);
      assert s[|s| - 1].id.base == l[|l| - 1].key;
    }
  }

  // ---------------------------------------------------------------- taking many nodes out

  /** The nodes of `l` that are not in `gone`. */
  ghost function Left<B, V, C>(l: seq<Node<B, V, C>>, gone: set<Node<B, V, C>>): (r: seq<Node<B, V, C>>)
    ensures |r| <= |l|
  {
    Lru.Keep(l, (n: Node<B, V, C>) => n !in gone)
  }

  lemma {:induction false} LeftWithout<B, V, C>(l: seq<Node<B, V, C>>, gone: set<Node<B, V, C>>, i: nat)
    requires Distinct(l) && i < |Left(l, gone)|
    ensures Left(l, gone + {Left(l, gone)[i]}) == RemoveAt(Left(l, gone), i)
  {
    var t, last := l[..|l| - 1], l[|l| - 1];
    var x := Left(l, gone)[i];
    if i < |Left(t, gone)| {
      LeftWithout(t, gone, i);
      LeftIn(t, gone, i);
    } else {
      LeftSame(t, gone, x);
    }
  }

  lemma {:induction false} LeftIn<B, V, C>(l: seq<Node<B, V, C>>, gone: set<Node<B, V, C>>, i: nat)
    requires i < |Left(l, gone)|
    ensures Left(l, gone)[i] in l && Left(l, gone)[i] !in gone
  {
    if i < |Left(l[..|l| - 1], gone)| {
      LeftIn(l[..|l| - 1], gone, i);
    }
  }

  lemma {:induction false} LeftAll<B, V, C>(l: seq<Node<B, V, C>>)
    ensures Left(l, {}) == l
  {
    if l != [] {
      LeftAll(l[..|l| - 1]);
    }
  }

  lemma {:induction false} LeftSame<B, V, C>(l: seq<Node<B, V, C>>, gone: set<Node<B, V, C>>, x: Node<B, V, C>)
    requires x !in l
    ensures Left(l, gone + {x}) == Left(l, gone)
  {
    if l != [] {
      LeftSame(l[..|l| - 1], gone, x);
    }
  }

  lemma {:induction false} LeftHas<B, V, C>(
    l: seq<Node<B, V, C>>, gone: set<Node<B, V, C>>, x: Node<B, V, C>) returns (i: nat)
    requires x in l && x !in gone
    ensures i < |Left(l, gone)| && Left(l, gone)[i] == x
  {
    if x in l[..|l| - 1] {
      i := LeftHas(l[..|l| - 1], gone, x);
    } else {
      i := |Left(l, gone)| - 1;
    }
  }

  lemma LeftNodes<B, V, C>(l: seq<Node<B, V, C>>, gone: set<Node<B, V, C>>)
    ensures forall x :: x in Left(l, gone) ==> x in l
  {
    forall x | x in Left(l, gone) ensures x in l {
      var i :| 0 <= i < |Left(l, gone)| && Left(l, gone)[i] == x;
      LeftIn(l, gone, i);
    }
  }

  /** What is mapped once the nodes in `gone` no longer are. */
  ghost function Remaining<B, V, C>(m: Index<B, V, C>, gone: set<Node<B, V, C>>): Index<B, V, C> {
    map k | k in m && m[k] !in gone :: m[k]
  }

  lemma RemainingLess<B, V, C>(l: seq<Node<B, V, C>>, m: Index<B, V, C>, gone: set<Node<B, V, C>>, k: (B, V))
    requires Indexed(l, m) && k in m
    ensures Remaining(m, gone) - {k} == Remaining(m, gone + {m[k]})
  {
  }

  lemma RemainingIsIndexed<B, V, C>(l: seq<Node<B, V, C>>, m: Index<B, V, C>, gone: set<Node<B, V, C>>)
    requires Indexed(l, m)
    ensures Indexed(Left(l, gone), Remaining(m, gone))
  {
    forall k | k in Remaining(m, gone) ensures m[k] in Left(l, gone) {
      var _ := LeftHas(l, gone, m[k]);
    }
  }

  /** Unlinking and unmapping nodes keeps the entries of the others. */
  lemma {:induction false} EntriesLeft<B, V, C>(
    l: seq<Node<B, V, C>>, m: Index<B, V, C>, w: Payload<B, V, C>, gone: set<Node<B, V, C>>,
    p: List.Entry<B, V, C> -> bool)
    requires Covers(w, l)
    requires forall i :: 0 <= i < |l| ==> (p(EntriesOf(l, m, w)[i]) <==> l[i] !in gone)
    ensures Covers(w, Left(l, gone))
    ensures EntriesOf(Left(l, gone), Remaining(m, gone), w) == Lru.Keep(EntriesOf(l, m, w), p)
  {
    if l != [] {
      var t, last, m' := l[..|l| - 1], l[|l| - 1], Remaining(m, gone);
      assert EntriesOf(t, m, w) == EntriesOf(l, m, w)[..|l| - 1];
      EntriesLeft(t, m, w, gone, p);
      if last !in gone {
        assert NameOf(m', last) == NameOf(m, last);
        assert EntriesOf(Left(t, gone) + [last], m', w) ==
               EntriesOf(Left(t, gone), m', w) + [EntriesOf(l, m, w)[|l| - 1]];
      }
    }
  }

  /** The nodes an invalidation of `b` takes out: those mapped under it. */
  ghost predicate AreUnder<B, V, C>(m: Index<B, V, C>, gone: set<Node<B, V, C>>, b: B) {
    (forall x :: x in gone ==> Mapped(m, x) && x.key == b) && forall k :: k in m && k.0 == b ==> m[k] in gone
  }

  lemma DropMeans<B, V, C>(
    l: seq<Node<B, V, C>>, m: Index<B, V, C>, w: Payload<B, V, C>, gone: set<Node<B, V, C>>, capacity: nat, b: B)
    requires Covers(w, l) && AreUnder(m, gone, b)
    ensures Covers(w, Left(l, gone))
    ensures (EntriesOf(Left(l, gone), Remaining(m, gone), w), Lru.Removed(|l| - |Left(l, gone)|)) ==
            List.Step(capacity, EntriesOf(l, m, w), List.Drop(b))
  {
    EntriesLeft(l, m, w, gone, Lru.Spared<List.Name<B, V>, C>(List.Under(b)));
  }

  /** From `gone` to `gone'` a purge took out nodes mapped under `b`, all of them expired. */
  ghost predicate Expelled<B, V, C>(
    m: Index<B, V, C>, w: Payload<B, V, C>, gone: set<Node<B, V, C>>, gone': set<Node<B, V, C>>, b: B, now: int) {
    gone <= gone' &&
    forall x :: x in gone' && x !in gone ==> Mapped(m, x) && x.key == b && x in w && w[x].1 <= now
  }

  /** What is mapped under `b` has not expired. */
  ghost predicate Lasts<B, V(!new), C>(m: Index<B, V, C>, w: Payload<B, V, C>, b: B, now: int) {
    forall v :: (b, v) in m ==> m[(b, v)] in w && w[m[(b, v)]].1 > now
  }

  lemma OthersLast<B, V(!new), C>(
    l: seq<Node<B, V, C>>, m: Index<B, V, C>, w: Payload<B, V, C>, gone: set<Node<B, V, C>>, gone': set<Node<B, V, C>>,
    b: B, now: int)
    requires Indexed(l, m) && Expelled(m, w, gone, gone', b, now)
    ensures forall c :: c != b ==> (HasVariant(Remaining(m, gone'), c) <==> HasVariant(Remaining(m, gone), c))
    ensures forall c :: Lasts(Remaining(m, gone), w, c, now) ==> Lasts(Remaining(m, gone'), w, c, now)
  {
    var r, r' := Remaining(m, gone), Remaining(m, gone');
    assert forall k :: k in r' ==> k in r && r[k] == r'[k];
    assert forall k :: k in r && k.0 != b ==> k in r';
    forall c | c != b ensures HasVariant(r', c) <==> HasVariant(r, c) {
      if v :| (c, v) in r {
        assert (c, v) in r';
      }
    }
  }

  /** What holds between two turns of a purge; the keys in `todo` are still to come. */
  ghost predicate Halfway<B(!new), V(!new), C>(
    m: Index<B, V, C>, w: Payload<B, V, C>, gone: set<Node<B, V, C>>, todo: set<B>, now: int) {
    (forall x :: x in gone ==> Mapped(m, x) && x in w && w[x].1 <= now) &&
    forall c :: c !in todo ==> Lasts(Remaining(m, gone), w, c, now)
  }

  lemma NextTurn<B(!new), V(!new), C>(
    l: seq<Node<B, V, C>>, m: Index<B, V, C>, w: Payload<B, V, C>, gone: set<Node<B, V, C>>, gone': set<Node<B, V, C>>,
    todo: set<B>, b: B, now: int)
    requires Indexed(l, m) && Halfway(m, w, gone, todo, now)
    requires Expelled(m, w, gone, gone', b, now) && Lasts(Remaining(m, gone'), w, b, now)
    ensures Halfway(m, w, gone', todo - {b}, now)
  {
    OthersLast(l, m, w, gone, gone', b, now);
  }

  lemma LastTurn<B(!new), V(!new), C>(m: Index<B, V, C>, w: Payload<B, V, C>, gone: set<Node<B, V, C>>, now: int)
    requires Halfway(m, w, gone, {}, now)
    ensures AreExpired(m, w, gone, now)
  {
    forall k | k in m && m[k] in w && w[m[k]].1 <= now ensures m[k] in gone {
      assert Lasts(Remaining(m, gone), w, k.0, now);
      assert k == (k.0, k.1);
    }
  }

  /** The nodes a purge takes out: those mapped and expired. */
  ghost predicate AreExpired<B, V, C>(m: Index<B, V, C>, w: Payload<B, V, C>, gone: set<Node<B, V, C>>, now: int)
  {
    (forall x :: x in gone ==> Mapped(m, x) && x in w && w[x].1 <= now) &&
    forall k :: k in m && m[k] in w && w[m[k]].1 <= now ==> m[k] in gone
  }

  lemma PurgeMeans<B, V, C>(
    l: seq<Node<B, V, C>>, m: Index<B, V, C>, w: Payload<B, V, C>, gone: set<Node<B, V, C>>, capacity: nat, now: int)
    requires Covers(w, l) && AreExpired(m, w, gone, now)
    ensures Covers(w, Left(l, gone))
    ensures (EntriesOf(Left(l, gone), Remaining(m, gone), w), Lru.Removed(|l| - |Left(l, gone)|)) ==
            List.Step(capacity, EntriesOf(l, m, w), List.Purge(now))
  {
    EntriesLeft(l, m, w, gone, List.Lasting(now));
  }

  // ---------------------------------------------------------------- the store

  class VariantLru<B(==, !new), V(==, !new), C> {
    const capacity: nat
    var entries: map<B, Shelf<B, V, C>>
    var head: Node?<B, V, C>
    var tail: Node?<B, V, C>
    var size: int
    var evictions: int
    /** The nodes from `head` to `tail`. */
    ghost var list: seq<Node<B, V, C>>
    /** The nodes of all shelves. */
    ghost var index: Index<B, V, C>
    /** What the nodes hold, the listed ones among them. */
    ghost var payload: Payload<B, V, C>

    constructor (capacity: int)
      ensures Valid() && list == [] && index == map[] && entries == map[] && evictions == 0
      ensures this.capacity == if capacity < 1 then 1 else capacity
    {
      this.capacity := if capacity < 1 then 1 else capacity;
      entries, head, tail, size, evictions, list, index, payload := map[], null, null, 0, 0, [], map[], map[];
    }

    static ghost predicate Chained(l: seq<Node<B, V, C>>, head: Node?<B, V, C>, tail: Node?<B, V, C>)
      reads l`prev, l`next
    {
      (|l| == 0 ==> head == null && tail == null) &&
      (|l| > 0 ==> head == l[0] && tail == l[|l| - 1] && l[0].prev == null && l[|l| - 1].next == null) &&
      (forall i {:trigger l[i].next} :: 0 <= i < |l| - 1 ==> l[i].next == l[i + 1]) &&
      (forall i {:trigger l[i].prev} :: 1 <= i < |l| ==> l[i].prev == l[i - 1]) &&
      Distinct(l)
    }

    ghost predicate Links()
      reads this`head, this`tail, this`list, list`prev, list`next
    {
      Chained(list, head, tail)
    }

    static ghost predicate OwnShelves(es: map<B, Shelf<B, V, C>>) {
      forall b, c :: b in es && c in es && b != c ==> es[b] != es[c]
    }

    /** The node mapped under (`b`, `v`). */
    static ghost function At(es: map<B, Shelf<B, V, C>>, b: B, v: V): Option<Node<B, V, C>>
      reads es.Values
    {
      if b in es && v in es[b].nodes then Some(es[b].nodes[v]) else None
    }

    static ghost function Look(m: Index<B, V, C>, b: B, v: V): Option<Node<B, V, C>> {
      if (b, v) in m then Some(m[(b, v)]) else None
    }

    static ghost predicate IsIndex(es: map<B, Shelf<B, V, C>>, m: Index<B, V, C>)
      reads es.Values
    {
      OwnShelves(es) && forall b, v :: At(es, b, v) == Look(m, b, v)
    }

    /** The index is the two-level map. */
    ghost predicate Tied()
      reads this`entries, this`index, entries.Values
    {
      IsIndex(entries, index)
    }

    /** Every shelf holds something, but perhaps those of `spare`. */
    ghost predicate NoneEmptyBut(spare: set<B>)
      reads this`entries, this`index
    {
      AllHold(entries.Keys - spare, index)
    }

    static ghost predicate AllHold(keys: set<B>, m: Index<B, V, C>) {
      forall c :: c in keys ==> HasVariant(m, c)
    }

    static lemma VariantsStay(keys: set<B>, m: Index<B, V, C>, m': Index<B, V, C>)
      requires AllHold(keys, m) && forall k :: k in m && k.0 in keys ==> k in m'
      ensures AllHold(keys, m')
    {
      forall c | c in keys ensures HasVariant(m', c) {
        var v :| (c, v) in m;
        assert (c, v) in m';
      }
    }

    static ghost predicate Tells(w: Payload<B, V, C>)
      reads w.Keys`value, w.Keys`expiresAt
    {
      forall n :: n in w ==> w[n] == (n.value, n.expiresAt)
    }

    ghost predicate Paid()
      reads this`payload, payload.Keys`value, payload.Keys`expiresAt
    {
      Tells(payload)
    }

    ghost predicate ListHalf()
      reads this`head, this`tail, this`list, this`size, this`payload, list`prev, list`next, payload.Keys`value,
            payload.Keys`expiresAt
    {
      Links() && Paid() && Covers(payload, list) && size == |list|
    }

    ghost predicate MapHalf(spare: set<B>)
      reads this`entries, this`index, entries.Values
    {
      Tied() && NoneEmptyBut(spare)
    }

    /** What holds even while a store is making room. */
    ghost predicate Sound(spare: set<B>)
      reads this, list, entries.Values, payload.Keys
    {
      ListHalf() && MapHalf(spare) && Indexed(list, index) && |list| <= capacity && 1 <= capacity
    }

    ghost predicate Valid()
      reads this, list, entries.Values, payload.Keys
    {
      Sound({})
    }

    ghost function Entries(): List.Entries<B, V, C>
      reads this`list, this`index, this`payload
      requires Covers(payload, list)
    {
      EntriesOf(list, index, payload)
    }

    method AddToHead(n: Node<B, V, C>)
      requires Links() && n !in list
      modifies this`head, this`tail, this`list, n`prev, n`next, list`prev
      ensures Links() && list == [n] + old(list)
    {
      n.prev := null;
      n.next := head;
      if head != null {
        head.prev := n;
      }
      head := n;
      if tail == null {
        tail := n;
      }
      list := [n] + list;
    }

    /** The chain through `l` that goes around position `i`. */
    ghost predicate Around(l: seq<Node<B, V, C>>, i: nat)
      requires i < |l|
      reads this`head, this`tail, l`prev, l`next
    {
      (forall j {:trigger l[j].next} :: 0 <= j < |l| - 1 && j != i && j != i - 1 ==> l[j].next == l[j + 1]) &&
      (forall j {:trigger l[j].prev} :: 1 <= j < |l| && j != i && j != i + 1 ==> l[j].prev == l[j - 1]) &&
      (i > 0 ==> l[0].prev == null && head == l[0] && l[i - 1].next == if i < |l| - 1 then l[i + 1] else null) &&
      (i < |l| - 1 ==>
         l[|l| - 1].next == null && tail == l[|l| - 1] && l[i + 1].prev == if i > 0 then l[i - 1] else null) &&
      (i == 0 ==> head == if |l| > 1 then l[1] else null) &&
      (i == |l| - 1 ==> tail == if i > 0 then l[i - 1] else null)
    }

    lemma AroundIsLinked(l: seq<Node<B, V, C>>, i: nat)
      requires i < |l| && Distinct(l) && Around(l, i) && list == RemoveAt(l, i)
      ensures Links()
    {
      assert forall j :: 0 <= j < |list| ==> list[j] == l[if j < i then j else j + 1];
      forall j | 0 <= j < |list| - 1 ensures list[j].next == list[j + 1] && list[j + 1].prev == list[j] {
        var k := if j < i then j else j + 1;
        assert l[k].next == list[j + 1];
        assert l[if j + 1 < i then j + 1 else j + 2].prev == list[j];
      }
    }

    method Unlink(n: Node<B, V, C>, ghost i: nat)
      requires Links() && i < |list| && list[i] == n
      modifies this`head, this`tail, this`size, this`list, list`prev, list`next
      ensures Links() && list == RemoveAt(old(list), i) && size == old(size) - 1
    {
      if n.prev != null {
        n.prev.next := n.next;
      } else {
        head := n.next;
      }
      if n.next != null {
        n.next.prev := n.prev;
      } else {
        tail := n.prev;
      }
      n.prev := null;
      n.next := null;
      size := size - 1;
      ghost var l := list;
      list := RemoveAt(l, i);
      assert Around(l, i);
      AroundIsLinked(l, i);
    }

    /** `Unlink`, which leaves the map alone. */
    method TakeOut(n: Node<B, V, C>, ghost i: nat, ghost spare: set<B>)
      requires ListHalf() && MapHalf(spare) && i < |list| && list[i] == n
      modifies this`head, this`tail, this`size, this`list, list`prev, list`next
      ensures ListHalf() && MapHalf(spare) && list == RemoveAt(old(list), i)
    {
      RemoveAtKeeps(list, i);
      Unlink(n, i);
    }

    /** First half of a touch: take a node that is not the head out of the chain. */
    method Detach(n: Node<B, V, C>, ghost i: nat)
      requires Links() && 0 < i < |list| && list[i] == n
      modifies this`tail, this`list, list`prev, list`next
      ensures Links() && list == RemoveAt(old(list), i)
    {
      if n.prev != null {
        n.prev.next := n.next;
      }
      if n.next != null {
        n.next.prev := n.prev;
      } else {
        tail := n.prev;
      }
      ghost var l := list;
      list := RemoveAt(l, i);
      assert Around(l, i);
      AroundIsLinked(l, i);
    }

    method Touch(n: Node<B, V, C>, ghost i: nat)
      requires Links() && i < |list| && list[i] == n
      modifies this`head, this`tail, this`list, list`prev, list`next
      ensures Links() && list == [n] + RemoveAt(old(list), i)
    {
      if n == head {
        return;
      }
      Detach(n, i);
      n.prev := null;
      n.next := head;
      if head != null {
        head.prev := n;
      }
      head := n;
      list := [n] + list;
    }

    /** A shelf holds what is mapped under its base key. */
    static ghost predicate IsShelf(nodes: map<V, Node<B, V, C>>, b: B, m: Index<B, V, C>) {
      (forall w :: w in nodes <==> (b, w) in m) && forall w :: w in nodes ==> nodes[w] == m[(b, w)]
    }

    lemma ShelfIs(b: B)
      requires Tied() && b in entries
      ensures IsShelf(entries[b].nodes, b, index)
    {
      var nodes := entries[b].nodes;
      forall w ensures (w in nodes <==> (b, w) in index) && (w in nodes ==> nodes[w] == index[(b, w)]) {
        assert At(entries, b, w) == Look(index, b, w);
      }
    }

    lemma SomeVariant(nodes: map<V, Node<B, V, C>>, m: Index<B, V, C>, b: B, v: V)
      requires IsShelf(nodes, b, m)
      ensures nodes - {v} != map[] <==> HasVariant(m - {(b, v)}, b)
    {
      if nodes - {v} != map[] {
        var w :| w in nodes - {v};
        assert (b, w) in m - {(b, v)};
      }
      if w :| (b, w) in m - {(b, v)} {
        assert w in nodes - {v};
      }
    }

    /** `variants.delete(v)` when the outer map has a shelf for `b`, dropping the shelf when that left it empty. */
    method Unshelve(b: B, v: V, ghost spare: set<B>)
      requires ListHalf() && MapHalf(spare)
      modifies this`entries, this`index, entries.Values
      ensures ListHalf() && MapHalf(spare) && index == old(index) - {(b, v)} && entries.Values <= old(entries.Values)
      ensures forall c :: c in entries <==> c in old(entries) && (c == b ==> HasVariant(index, b))
      ensures forall c :: c in entries ==> entries[c] == old(entries[c])
    {
      ghost var m := index;
      if b in entries {
        var shelf := entries[b];
        ShelfIs(b);
        ghost var nodes := shelf.nodes;
        shelf.nodes := shelf.nodes - {v};
        SomeVariant(nodes, m, b, v);
        if shelf.nodes == map[] {
          entries := entries - {b};
        }
      }
      index := m - {(b, v)};
      OtherVariants(m, b, v);
      forall c, w ensures At(entries, c, w) == Look(index, c, w) {
        assert old(At(entries, c, w)) == Look(m, c, w);
      }
    }

    /** Unlinking a mapped node and taking it out of the map. */
    method Expire(n: Node<B, V, C>, b: B, ghost i: nat)
      requires Valid() && i < |list| && list[i] == n && At(entries, b, n.varyKey) == Some(n)
      modifies this`head, this`tail, this`size, this`list, this`entries, this`index, list`prev, list`next,
               entries.Values
      ensures Valid() && list == RemoveAt(old(list), i) && Mapped(old(index), n) && index == old(index) - {IdOf(n)}
      ensures entries.Values <= old(entries.Values)
    {
      ghost var l, m := list, index;
      assert Look(m, b, n.varyKey) == Some(n);
      IndexedWithout(l, m, i);
      TakeOut(n, i, {});
      Unshelve(b, n.varyKey, {});
    }

    /** A use of a listed node: it comes first. */
    method Refresh(n: Node<B, V, C>, ghost i: nat)
      requires Valid() && i < |list| && list[i] == n
      modifies this`head, this`tail, this`list, list`prev, list`next
      ensures Valid() && list == [n] + RemoveAt(old(list), i)
    {
      RemoveAtKeeps(list, i);
      Touch(n, i);
    }

    method ReadNode(n: Node<B, V, C>, b: B, now: int, ghost i: nat) returns (out: Lru.Outcome<C>)
      requires Valid() && i < |list| && list[i] == n && At(entries, b, n.varyKey) == Some(n)
      modifies this`head, this`tail, this`size, this`list, this`entries, this`index, list`prev, list`next,
               entries.Values
      ensures Valid() && (forall x :: x in list ==> x in old(list)) && entries.Values <= old(entries.Values)
      ensures var s := old(Entries());
              if s[i].expiresAt <= now then out == Lru.Miss && Entries() == RemoveAt(s, i)
              else out == Lru.Hit(s[i].value) && Entries() == [s[i]] + RemoveAt(s, i)
    {
      ghost var l, m, w := list, index, payload;
      assert Look(m, b, n.varyKey) == Some(n);
      RemoveAtKeeps(l, i);
      if n.expiresAt <= now {
        EntriesWithout(l, m, w, i);
        Expire(n, b, i);
        return Lru.Miss;
      }
      EntriesMoved(l, m, w, i, w[n]);
      assert w[n := w[n]] == w;
      Refresh(n, i);
      return Lru.Hit(n.value);
    }

    method Get(b: B, own: V, fallback: V, now: int) returns (out: Lru.Outcome<C>)
      requires Valid()
      modifies this`head, this`tail, this`size, this`list, this`entries, this`index, list`prev, list`next,
               entries.Values
      ensures Valid() && (forall x :: x in list ==> x in old(list)) && entries.Values <= old(entries.Values)
      ensures (Entries(), out) == List.Step(capacity, old(Entries()), List.Get(b, own, fallback, now))
    {
      ghost var s := Entries();
      Located(list, index, payload, b, own);
      Located(list, index, payload, b, fallback);
      assert At(entries, b, own) == Look(index, b, own) && At(entries, b, fallback) == Look(index, b, fallback);
      if b !in entries {
        return Lru.Miss;
      }
      var shelf := entries[b];
      var n: Node<B, V, C>;
      if own in shelf.nodes {
        n := shelf.nodes[own];
      } else if fallback in shelf.nodes {
        n := shelf.nodes[fallback];
      } else {
        return Lru.Miss;
      }
      ghost var i := Lru.Target(s, List.Live(b, own), List.Live(b, fallback));
      assert list[i] == n;
      out := ReadNode(n, b, now, i);
    }

    /** Unmapping the keys of a listed node, whatever they map to, and unlinking it. */
    method Discard(n: Node<B, V, C>, ghost i: nat, ghost spare: set<B>)
      requires Sound(spare) && i < |list| && list[i] == n
      modifies this`head, this`tail, this`size, this`list, this`entries, this`index, list`prev, list`next,
               entries.Values
      ensures Sound(spare) && list == RemoveAt(old(list), i) && index == old(index) - {IdOf(n)}
      ensures forall c :: c in entries <==> c in old(entries) && (c == n.key ==> HasVariant(index, c))
      ensures forall c :: c in entries ==> entries[c] == old(entries[c])
    {
      IndexedWithout(list, index, i);
      Unshelve(n.key, n.varyKey, spare);
      TakeOut(n, i, spare);
    }

    /** Dropping the tail.  A tail that was lost takes with it whatever its keys map to by now. */
    method Evict(ghost spare: set<B>)
      requires Sound(spare)
      modifies this`head, this`tail, this`size, this`list, this`entries, this`index, this`evictions, list`prev,
               list`next, entries.Values
      ensures Sound(spare)
      ensures old(list) == [] ==> list == [] && entries == old(entries) && index == old(index)
      ensures old(list) != [] ==>
                var victim := old(list)[|old(list)| - 1];
                list == old(list)[..|old(list)| - 1] && index == old(index) - {IdOf(victim)} &&
                evictions == old(evictions) + 1 &&
                forall c :: c in entries <==> c in old(entries) && (c == victim.key ==> HasVariant(index, c))
      ensures forall c :: c in entries ==> entries[c] == old(entries[c])
    {
      var victim := tail;
      if victim == null {
        return;
      }
      assert RemoveAt(list, |list| - 1) == list[..|list| - 1];
      Discard(victim, |list| - 1, spare);
      evictions := evictions + 1;
    }

    /** The new value and expiry of a node. */
    method Rewrite(n: Node<B, V, C>, value: C, expiresAt: int)
      requires Valid() && n in list
      modifies this`payload, n`value, n`expiresAt
      ensures Valid() && payload == old(payload)[n := (value, expiresAt)]
    {
      n.value := value;
      n.expiresAt := expiresAt;
      payload := payload[n := (value, expiresAt)];
    }

    /** Overwriting an entry in place makes it the most recently used one. */
    method Overwrite(n: Node<B, V, C>, value: C, expiresAt: int, ghost i: nat)
      requires Valid() && i < |list| && list[i] == n && Mapped(index, n)
      modifies this`head, this`tail, this`list, this`payload, list`prev, list`next, n`value, n`expiresAt
      ensures Valid() && forall x :: x in list ==> x in old(list)
      ensures Entries() ==
              [Lru.Entry(List.Live(n.key, n.varyKey), value, expiresAt)] + RemoveAt(old(Entries()), i)
    {
      RemoveAtKeeps(list, i);
      EntriesMoved(list, index, payload, i, (value, expiresAt));
      Rewrite(n, value, expiresAt);
      Refresh(n, i);
    }

    /** `variants.set(v, node)`: a new node, mapped when its shelf is. */
    method Shelve(shelf: Shelf<B, V, C>, b: B, v: V, value: C, expiresAt: int) returns (n: Node<B, V, C>)
      requires ListHalf() && MapHalf({b})
      requires (b in entries ==> entries[b] == shelf) && forall c :: c in entries && c != b ==> entries[c] != shelf
      modifies this`index, shelf
      ensures ListHalf() && MapHalf({})
      ensures fresh(n) && n.key == b && n.varyKey == v && n.value == value && n.expiresAt == expiresAt
      ensures index == if b in entries then old(index)[(b, v) := n] else old(index)
    {
      ghost var m := index;
      n := new Node(b, v, value, expiresAt);
      shelf.nodes := shelf.nodes[v := n];
      if b in entries {
        index := m[(b, v) := n];
        assert (b, v) in index;
      }
      forall c, w ensures At(entries, c, w) == Look(index, c, w) {
        assert old(At(entries, c, w)) == Look(m, c, w);
      }
      VariantsStay(entries.Keys - {b}, m, index);
    }

    /** The node comes first on the list, and is counted. */
    method Enlist(n: Node<B, V, C>)
      requires ListHalf() && MapHalf({}) && n !in list
      modifies this`head, this`tail, this`list, this`size, this`payload, n`prev, n`next, list`prev
      ensures ListHalf() && MapHalf({}) && list == [n] + old(list)
      ensures payload == old(payload)[n := (n.value, n.expiresAt)]
    {
      AddToHead(n);
      payload := payload[n := (n.value, n.expiresAt)];
      size := size + 1;
    }

    lemma IndexedWith(l: seq<Node<B, V, C>>, m: Index<B, V, C>, n: Node<B, V, C>)
      requires Indexed(l, m)
      ensures Indexed([n] + l, m) && Indexed([n] + l, m[IdOf(n) := n])
    {
      assert forall x :: x in l ==> x in [n] + l;
    }

    /** Storing a new node on a shelf that the outer map may no longer hold; then the node is listed only. */
    method Thread(shelf: Shelf<B, V, C>, b: B, v: V, value: C, expiresAt: int) returns (n: Node<B, V, C>)
      requires Sound({b}) && size < capacity
      requires (b in entries ==> entries[b] == shelf) && forall c :: c in entries && c != b ==> entries[c] != shelf
      modifies this`head, this`tail, this`size, this`list, this`index, this`payload, list`prev, shelf
      ensures fresh(n) && n.key == b && n.varyKey == v && payload == old(payload)[n := (value, expiresAt)]
      ensures Valid() && list == [n] + old(list)
      ensures index == if b in entries then old(index)[(b, v) := n] else old(index)
    {
      ghost var l, m := list, index;
      n := Shelve(shelf, b, v, value, expiresAt);
      IndexedWith(l, m, n);
      Enlist(n);
    }

    /** The eviction `Put` makes before it adds a node, and what it means for the shelf `Put` is holding. */
    method MakeRoom(b: B)
      requires Sound({b}) && b in entries
      modifies this`head, this`tail, this`size, this`list, this`entries, this`index, this`evictions, list`prev,
               list`next, entries.Values
      ensures Sound({b}) && size < capacity
      ensures list == Kept(old(list), capacity) && index == Freed(old(list), old(index), capacity)
      ensures b in entries <==> !Dropped(old(list), old(index), capacity, b)
      ensures forall c :: c in entries ==> c in old(entries) && entries[c] == old(entries[c])
    {
      if size >= capacity {
        Evict({b});
      }
    }

    /** `entries.get(b)`, adding an empty shelf when there is none. */
    method ShelfFor(b: B) returns (shelf: Shelf<B, V, C>)
      requires Valid()
      modifies this`entries
      ensures Sound({b}) && b in entries && entries[b] == shelf
      ensures forall o :: o in entries.Values ==> fresh(o) || o in old(entries.Values)
    {
      if b in entries {
        shelf := entries[b];
      } else {
        shelf := new Shelf();
        entries := entries[b := shelf];
      }
      forall c, w ensures At(entries, c, w) == Look(index, c, w) {
        assert old(At(entries, c, w)) == Look(index, c, w);
      }
    }

    /** The insertion half of `Put`, told on the nodes: the keys are not mapped, the shelf is there. */
    method InsertNode(shelf: Shelf<B, V, C>, b: B, v: V, value: C, expiresAt: int) returns (n: Node<B, V, C>)
      requires Sound({b}) && b in entries && entries[b] == shelf
      modifies this`head, this`tail, this`size, this`list, this`entries, this`index, this`payload, this`evictions,
               list`prev, list`next, entries.Values
      ensures Valid() && forall c :: c in entries ==> c in old(entries) && entries[c] == old(entries[c])
      ensures fresh(n) && n.key == b && n.varyKey == v && list == [n] + Kept(old(list), capacity)
      ensures payload == old(payload)[n := (value, expiresAt)]
      ensures var m := Freed(old(list), old(index), capacity);
              index == if Dropped(old(list), old(index), capacity, b) then m else m[(b, v) := n]
    {
      MakeRoom(b);
      n := Thread(shelf, b, v, value, expiresAt);
    }

    /** `InsertNode`, told on the entries. */
    method Insert(shelf: Shelf<B, V, C>, b: B, v: V, value: C, expiresAt: int)
      requires Sound({b}) && b in entries && entries[b] == shelf && (b, v) !in index
      modifies this`head, this`tail, this`size, this`list, this`entries, this`index, this`payload, this`evictions,
               list`prev, list`next, entries.Values
      ensures Valid() && forall c :: c in entries ==> c in old(entries) && entries[c] == old(entries[c])
      ensures forall x :: x in list ==> fresh(x) || x in old(list)
      ensures Entries() == List.Stored(old(Entries()), capacity, b, v, value, expiresAt)
    {
      ghost var l, m, w := list, index, payload;
      var n := InsertNode(shelf, b, v, value, expiresAt);
      StoredMeans(l, m, w, capacity, n, (value, expiresAt));
      KeptAreIn(l, capacity);
    }

    /** `Put` when nothing is mapped under the keys: find or make the shelf, evict when full, thread a new node. */
    method PutNew(b: B, v: V, value: C, expiresAt: int)
      requires Valid() && (b, v) !in index
      modifies this`head, this`tail, this`size, this`list, this`entries, this`index, this`payload, this`evictions,
               list`prev, list`next, entries.Values
      ensures Valid() && forall o :: o in entries.Values ==> fresh(o) || o in old(entries.Values)
      ensures forall x :: x in list ==> fresh(x) || x in old(list)
      ensures Entries() == List.Stored(old(Entries()), capacity, b, v, value, expiresAt)
    {
      var shelf := ShelfFor(b);
      Insert(shelf, b, v, value, expiresAt);
    }

    method Put(b: B, v: V, value: C, expiresAt: int)
      requires Valid()
      modifies this`head, this`tail, this`size, this`list, this`entries, this`index, this`payload, this`evictions,
               list, entries.Values
      ensures Valid() && forall o :: o in entries.Values ==> fresh(o) || o in old(entries.Values)
      ensures forall x :: x in list ==> fresh(x) || x in old(list)
      ensures Entries() == List.Step(capacity, old(Entries()), List.Put(b, v, value, expiresAt)).0
    {
      Located(list, index, payload, b, v);
      assert At(entries, b, v) == Look(index, b, v);
      if b in entries && v in entries[b].nodes {
        var n := entries[b].nodes[v];
        Overwrite(n, value, expiresAt, Lru.Find(Entries(), List.Live(b, v)));
      } else {
        PutNew(b, v, value, expiresAt);
      }
    }

    /** Unlinking one more of the nodes that were listed as `l`. */
    method UnlinkFrom(n: Node<B, V, C>, ghost l: seq<Node<B, V, C>>, ghost gone: set<Node<B, V, C>>)
      requires ListHalf() && Distinct(l) && list == Left(l, gone) && n in l && n !in gone
      modifies this`head, this`tail, this`size, this`list, l`prev, l`next
      ensures ListHalf() && list == Left(l, gone + {n}) && size == old(size) - 1
    {
      forall i | 0 <= i < |list| ensures list[i] in l {
        LeftIn(l, gone, i);
      }
      ghost var i := LeftHas(l, gone, n);
      LeftWithout(l, gone, i);
      RemoveAtKeeps(list, i);
      Unlink(n, i);
    }

    /** Where the loop of `Invalidate` stands: of the shelf `nodes` those in `todo` are still to come. */
    static ghost predicate Unlinking(
      m: Index<B, V, C>, nodes: map<V, Node<B, V, C>>, b: B, gone: set<Node<B, V, C>>, todo: set<V>) {
      IsShelf(nodes, b, m) && todo <= nodes.Keys && (forall w :: w in nodes ==> (nodes[w] in gone <==> w !in todo)) &&
      forall x :: x in gone ==> Mapped(m, x) && x.key == b
    }

    lemma NextUnlinked(
      l: seq<Node<B, V, C>>, m: Index<B, V, C>, nodes: map<V, Node<B, V, C>>, b: B, gone: set<Node<B, V, C>>,
      todo: set<V>, v: V)
      requires Indexed(l, m) && Unlinking(m, nodes, b, gone, todo) && v in todo
      ensures nodes[v] in l && nodes[v] !in gone && Unlinking(m, nodes, b, gone + {nodes[v]}, todo - {v})
    {
      forall w | w in nodes ensures IdOf(nodes[w]) == (b, w) {
        assert (b, w) in m;
      }
    }

    /** The loop of `Invalidate`: every node of one shelf leaves the list. */
    method UnlinkShelf(nodes: map<V, Node<B, V, C>>, ghost b: B)
      returns (removed: nat, ghost gone: set<Node<B, V, C>>)
      requires ListHalf() && Indexed(list, index) && IsShelf(nodes, b, index)
      requires forall w :: w in nodes ==> nodes[w] in list
      modifies this`head, this`tail, this`size, this`list, list`prev, list`next
      ensures ListHalf() && list == Left(old(list), gone) && removed + size == old(size)
      ensures AreUnder(index, gone, b)
    {
      removed, gone := 0, {};
      ghost var l, m := list, index;
      LeftAll(l);
      var todo := nodes.Keys;
      while todo != {}
        invariant ListHalf() && list == Left(l, gone) && removed + size == |l|
        invariant Unlinking(m, nodes, b, gone, todo)
      {
        var v :| v in todo;
        NextUnlinked(l, m, nodes, b, gone, todo, v);
        UnlinkFrom(nodes[v], l, gone);
        removed := removed + 1;
        todo := todo - {v};
        gone := gone + {nodes[v]};
      }
    }

    /** `entries.delete(b)`, once the nodes of its shelf have left the list. */
    method DropShelf(b: B, ghost l: seq<Node<B, V, C>>, ghost gone: set<Node<B, V, C>>)
      requires Tied() && NoneEmptyBut({}) && Indexed(l, index) && AreUnder(index, gone, b)
      modifies this`entries, this`index
      ensures Tied() && NoneEmptyBut({}) && entries == old(entries) - {b} && index == Remaining(old(index), gone)
    {
      ghost var m := index;
      entries := entries - {b};
      index := Remaining(m, gone);
      forall c, w ensures At(entries, c, w) == Look(index, c, w) {
        assert old(At(entries, c, w)) == Look(m, c, w);
      }
      VariantsStay(entries.Keys, m, index);
    }

    /** `Invalidate` on the nodes: those mapped under `b` are gone from the list and from the map. */
    method DropKey(b: B) returns (removed: nat, ghost gone: set<Node<B, V, C>>)
      requires Valid()
      modifies this`head, this`tail, this`size, this`list, this`entries, this`index, list`prev, list`next
      ensures Valid() && removed + |list| == old(|list|) && entries == old(entries) - {b}
      ensures list == Left(old(list), gone) && index == Remaining(old(index), gone) && AreUnder(old(index), gone, b)
    {
      removed, gone := 0, {};
      ghost var l, m := list, index;
      if b !in entries {
        LeftAll(l);
        NoneUnder(b);
        return;
      }
      ShelfIs(b);
      removed, gone := UnlinkShelf(entries[b].nodes, b);
      DropShelf(b, l, gone);
      RemainingIsIndexed(l, m, gone);
      LeftNodes(l, gone);
    }

    lemma NoneUnder(b: B)
      requires Tied() && b !in entries
      ensures AreUnder(index, {}, b) && Remaining(index, {}) == index && entries - {b} == entries
    {
      forall v ensures (b, v) !in index {
        assert At(entries, b, v) == Look(index, b, v);
      }
      assert forall k :: k in index ==> k == (k.0, k.1);
    }

    method Invalidate(b: B) returns (removed: nat)
      requires Valid()
      modifies this`head, this`tail, this`size, this`list, this`entries, this`index, list`prev, list`next
      ensures Valid() && entries.Values <= old(entries.Values) && (forall x :: x in list ==> x in old(list))
      ensures (Entries(), Lru.Removed(removed)) == List.Step(capacity, old(Entries()), List.Drop(b))
    {
      ghost var gone;
      ghost var l, m := list, index;
      removed, gone := DropKey(b);
      LeftNodes(l, gone);
      DropMeans(l, m, payload, gone, capacity, b);
    }

    /** Where a purge of what was listed as `l` and mapped as `m` stands. */
    ghost predicate Purging(m: Index<B, V, C>, l: seq<Node<B, V, C>>, gone: set<Node<B, V, C>>)
      reads this, list, entries.Values, payload.Keys
    {
      ListHalf() && Tied() && Covers(payload, l) && Distinct(l) && Indexed(l, m) && list == Left(l, gone) &&
      index == Remaining(m, gone)
    }

    /** One step of a purge: the node mapped under (`b`, `v`) leaves list and map. */
    method PurgeNode(
      n: Node<B, V, C>, shelf: Shelf<B, V, C>, ghost b: B, ghost m: Index<B, V, C>, ghost l: seq<Node<B, V, C>>,
      ghost gone: set<Node<B, V, C>>)
      requires Purging(m, l, gone) && b in entries && entries[b] == shelf
      requires Look(index, b, n.varyKey) == Some(n)
      modifies this`head, this`tail, this`size, this`list, this`index, l`prev, l`next, shelf
      ensures Purging(m, l, gone + {n}) && size == old(size) - 1 && shelf.nodes == old(shelf.nodes) - {n.varyKey}
      ensures index == old(index) - {(b, n.varyKey)} && n !in gone && Mapped(m, n) && n.key == b
    {
      UnlinkFrom(n, l, gone);
      Unstack(shelf, b, n.varyKey);
      RemainingLess(l, m, gone, (b, n.varyKey));
    }

    /** `variants.delete(v)` on a shelf the outer map holds. */
    method Unstack(shelf: Shelf<B, V, C>, ghost b: B, v: V)
      requires ListHalf() && Tied() && b in entries && entries[b] == shelf
      modifies this`index, shelf
      ensures ListHalf() && Tied() && shelf.nodes == old(shelf.nodes) - {v} && index == old(index) - {(b, v)}
    {
      ghost var m := index;
      shelf.nodes := shelf.nodes - {v};
      index := m - {(b, v)};
      forall c, w ensures At(entries, c, w) == Look(index, c, w) {
        assert old(At(entries, c, w)) == Look(m, c, w);
      }
    }

    /** Where the inner loop of a purge stands: of the shelf `nodes` those in `todo` are still to come. */
    static ghost predicate Sifting(
      m: Index<B, V, C>, w: Payload<B, V, C>, nodes: map<V, Node<B, V, C>>, b: B, gone: set<Node<B, V, C>>,
      todo: set<V>, now: int) {
      todo <= nodes.Keys && (forall v :: (b, v) in Remaining(m, gone) ==> v in nodes) &&
      (forall v :: v in nodes ==> (b, v) in m && m[(b, v)] == nodes[v] && nodes[v] in w) &&
      (forall v :: v in todo ==> nodes[v] !in gone) &&
      forall v :: v in nodes && v !in todo ==> nodes[v] in gone || w[nodes[v]].1 > now
    }

    lemma NextSifted(
      l: seq<Node<B, V, C>>, m: Index<B, V, C>, w: Payload<B, V, C>, nodes: map<V, Node<B, V, C>>, b: B,
      gone: set<Node<B, V, C>>, todo: set<V>, v: V, now: int)
      requires Indexed(l, m) && Sifting(m, w, nodes, b, gone, todo, now) && v in todo
      ensures nodes[v] in l && nodes[v] in w && Mapped(m, nodes[v]) && IdOf(nodes[v]) == (b, v)
      ensures Look(Remaining(m, gone), b, v) == Some(nodes[v])
      ensures w[nodes[v]].1 <= now ==> Sifting(m, w, nodes, b, gone + {nodes[v]}, todo - {v}, now)
      ensures w[nodes[v]].1 > now ==> Sifting(m, w, nodes, b, gone, todo - {v}, now)
    {
      forall u | u in nodes ensures IdOf(nodes[u]) == (b, u) {
        assert (b, u) in m;
      }
    }

    lemma AllSifted(
      m: Index<B, V, C>, w: Payload<B, V, C>, nodes: map<V, Node<B, V, C>>, b: B, gone: set<Node<B, V, C>>, now: int)
      requires Sifting(m, w, nodes, b, gone, {}, now)
      ensures Lasts(Remaining(m, gone), w, b, now)
    {
    }

    /** One turn of the inner loop of a purge. */
    method Sift(
      nodes: map<V, Node<B, V, C>>, v: V, shelf: Shelf<B, V, C>, now: int, ghost b: B, ghost m: Index<B, V, C>,
      ghost l: seq<Node<B, V, C>>, ghost gone: set<Node<B, V, C>>, ghost todo: set<V>)
      returns (count: nat, ghost gone': set<Node<B, V, C>>)
      requires Purging(m, l, gone) && b in entries && entries[b] == shelf
      requires Sifting(m, payload, nodes, b, gone, todo, now) && v in todo
      modifies this`head, this`tail, this`size, this`list, this`index, l`prev, l`next, shelf
      ensures Purging(m, l, gone') && count + size == old(size)
      ensures Expelled(m, payload, gone, gone', b, now) && Sifting(m, payload, nodes, b, gone', todo - {v}, now)
    {
      NextSifted(l, m, payload, nodes, b, gone, todo, v, now);
      if nodes[v].expiresAt > now {
        return 0, gone;
      }
      PurgeNode(nodes[v], shelf, b, m, l, gone);
      return 1, gone + {nodes[v]};
    }

    lemma ExpelledOn(
      m: Index<B, V, C>, w: Payload<B, V, C>, gone: set<Node<B, V, C>>, mid: set<Node<B, V, C>>,
      gone': set<Node<B, V, C>>, b: B, now: int)
      requires Expelled(m, w, gone, mid, b, now) && Expelled(m, w, mid, gone', b, now)
      ensures Expelled(m, w, gone, gone', b, now)
    {
    }

    /** The inner loop of a purge: one shelf loses its expired nodes. */
    method PurgeShelf(
      shelf: Shelf<B, V, C>, now: int, ghost b: B, ghost m: Index<B, V, C>, ghost l: seq<Node<B, V, C>>,
      ghost gone: set<Node<B, V, C>>)
      returns (removed: nat, ghost gone': set<Node<B, V, C>>)
      requires Purging(m, l, gone) && b in entries && entries[b] == shelf
      modifies this`head, this`tail, this`size, this`list, this`index, l`prev, l`next, shelf
      ensures Purging(m, l, gone') && removed + size == old(size)
      ensures Expelled(m, payload, gone, gone', b, now) && Lasts(index, payload, b, now)
    {
      removed, gone' := 0, gone;
      ghost var w := payload;
      ShelfIs(b);
      var nodes := shelf.nodes;
      var todo := nodes.Keys;
      while todo != {}
        invariant Purging(m, l, gone') && removed + size == old(size)
        invariant Expelled(m, w, gone, gone', b, now) && Sifting(m, w, nodes, b, gone', todo, now)
      {
        var v :| v in todo;
        var count;
        ghost var before := gone';
        count, gone' := Sift(nodes, v, shelf, now, b, m, l, gone', todo);
        ExpelledOn(m, w, gone, before, gone', b, now);
        removed := removed + count;
        todo := todo - {v};
      }
      AllSifted(m, w, nodes, b, gone', now);
    }

    /** One turn of the outer loop of a purge. */
    method PurgeKey(
      b: B, now: int, ghost m: Index<B, V, C>, ghost l: seq<Node<B, V, C>>, ghost gone: set<Node<B, V, C>>,
      ghost todo: set<B>)
      returns (removed: nat, ghost gone': set<Node<B, V, C>>)
      requires Purging(m, l, gone) && NoneEmptyBut({}) && b in entries
      requires Halfway(m, payload, gone, todo, now)
      modifies this`head, this`tail, this`size, this`list, this`entries, this`index, l`prev, l`next, entries[b]
      ensures Purging(m, l, gone') && NoneEmptyBut({}) && removed + size == old(size)
      ensures Halfway(m, payload, gone', todo - {b}, now)
      ensures entries == old(entries) || entries == old(entries) - {b}
    {
      var shelf := entries[b];
      removed, gone' := PurgeShelf(shelf, now, b, m, l, gone);
      NextTurn(l, m, payload, gone, gone', todo, b, now);
      OthersLast(l, m, payload, gone, gone', b, now);
      ShelfIs(b);
      if shelf.nodes == map[] {
        DropEmpty(b);
      } else {
        var v :| v in shelf.nodes;
        assert (b, v) in index;
      }
    }

    /** `entries.delete(b)` for a shelf that holds nothing. */
    method DropEmpty(b: B)
      requires Tied() && b in entries && entries[b].nodes == map[]
      modifies this`entries
      ensures Tied() && entries == old(entries) - {b}
    {
      entries := entries - {b};
      forall c, w ensures At(entries, c, w) == Look(index, c, w) {
        assert old(At(entries, c, w)) == Look(index, c, w);
      }
    }

    /** What is not on any shelf is not mapped. */
    lemma OffShelf(now: int)
      requires Tied()
      ensures forall c :: c !in entries ==> Lasts(index, payload, c, now)
    {
      forall c, w | c !in entries ensures (c, w) !in index {
        assert At(entries, c, w) == Look(index, c, w);
      }
    }

    /** The loops of `Purge`. */
    method PurgeAll(now: int) returns (removed: nat, ghost gone: set<Node<B, V, C>>)
      requires Valid()
      modifies this`head, this`tail, this`size, this`list, this`entries, this`index, list`prev, list`next,
               entries.Values
      ensures Purging(old(index), old(list), gone) && NoneEmptyBut({}) && removed + size == old(size)
      ensures entries.Keys <= old(entries.Keys) && forall c :: c in entries ==> entries[c] == old(entries[c])
      ensures AreExpired(old(index), payload, gone, now)
    {
      removed, gone := 0, {};
      ghost var l, m, w, shelves := list, index, payload, entries;
      LeftAll(l);
      assert Remaining(m, {}) == m;
      OffShelf(now);
      var todo := entries.Keys;
      while todo != {}
        invariant Purging(m, l, gone) && NoneEmptyBut({}) && removed + size == |l| && todo <= entries.Keys
        invariant entries.Keys <= shelves.Keys && forall c :: c in entries ==> entries[c] == shelves[c]
        invariant Halfway(m, w, gone, todo, now)
      {
        var b :| b in todo;
        var count;
        count, gone := PurgeKey(b, now, m, l, gone, todo);
        removed := removed + count;
        todo := todo - {b};
      }
      LastTurn(m, w, gone, now);
    }

    /** `Purge`, told on the nodes. */
    method PurgeNodes(now: int) returns (removed: nat, ghost gone: set<Node<B, V, C>>)
      requires Valid()
      modifies this`head, this`tail, this`size, this`list, this`entries, this`index, list`prev, list`next,
               entries.Values
      ensures Valid() && removed + |list| == old(|list|) && entries.Values <= old(entries.Values)
      ensures list == Left(old(list), gone) && index == Remaining(old(index), gone)
      ensures AreExpired(old(index), payload, gone, now)
    {
      ghost var l, m := list, index;
      removed, gone := PurgeAll(now);
      RemainingIsIndexed(l, m, gone);
      LeftNodes(l, gone);
    }

    method Purge(now: int) returns (removed: nat)
      requires Valid()
      modifies this`head, this`tail, this`size, this`list, this`entries, this`index, list`prev, list`next,
               entries.Values
      ensures Valid() && entries.Values <= old(entries.Values) && (forall x :: x in list ==> x in old(list))
      ensures (Entries(), Lru.Removed(removed)) == List.Step(capacity, old(Entries()), List.Purge(now))
    {
      ghost var gone;
      ghost var l, m := list, index;
      removed, gone := PurgeNodes(now);
      LeftNodes(l, gone);
      PurgeMeans(l, m, payload, gone, capacity, now);
    }

    method Clear()
      requires Valid()
      modifies this`head, this`tail, this`size, this`list, this`entries, this`index
      ensures Valid() && Entries() == [] && entries == map[]
    {
      entries, head, tail, size := map[], null, null, 0;
      list, index := [], map[];
    }
  }

  lemma RemoveAtKeeps<T>(s: seq<T>, i: nat)
    requires i < |s|
    ensures forall x :: x in s && x != s[i] ==> x in RemoveAt(s, i)
    ensures forall x :: x in RemoveAt(s, i) ==> x in s
  {
  }
}
