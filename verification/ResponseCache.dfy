/**
 The gateway response cache: base keys, vary keys and learned vary lists over the LRU store.

 A base key is the tuple of the parts the program joins into one string; a vary key is one pair of
 header name and header values per name of the vary list.
 */
module ResponseCache {
  import opened Prelude
  import Lru = LruList
  import List = VariantList
  import Store = CacheStore

  datatype BaseKey = BaseKey(verb: string, routeId: string, consumer: string, path: string, query: map<string, string>)
  type VaryKey = seq<(string, seq<string>)>
  type Headers = map<string, seq<string>>

  datatype Lookup = Lookup(
    verb: string, routeId: string, consumerId: Option<string>, path: string, query: map<string, string>,
    headers: Headers)

  /** `noStore` is the outcome of the cache-control test; `vary` the parsed Vary header, when the response has one. */
  datatype Response = Response(status: int, body: string, noStore: bool, vary: Option<seq<string>>)
  datatype Cached = Cached(response: Response, storedAt: int, ttlMs: int, vary: seq<string>)

  type Entries = List.Entries<BaseKey, VaryKey, Cached>
  type Learned = map<string, seq<string>>
  datatype Gateway = Gateway(entries: Entries, learned: Learned)
  datatype Config = Config(capacity: nat, defaultTtlMs: int)

  function KeyOf(l: Lookup): BaseKey {
    BaseKey(l.verb, l.routeId, l.consumerId.GetOr("-"), l.path, l.query)
  }

  function VarySuffix(vary: seq<string>, headers: Headers): (k: VaryKey)
    ensures |k| == |vary|
  {
    seq(|vary|, i requires 0 <= i < |vary| => (vary[i], if vary[i] in headers then headers[vary[i]] else []))
  }

  function LearnedFor(learned: Learned, routeId: string): seq<string> {
    if routeId in learned then learned[routeId] else []
  }

  function VaryOf(learned: Learned, l: Lookup, r: Response): seq<string> {
    r.vary.GetOr(LearnedFor(learned, l.routeId))
  }

  function Learn(learned: Learned, l: Lookup, vary: seq<string>): Learned {
    if |vary| > 0 then learned[l.routeId := vary] else learned
  }

  /** The vary key under which a lookup is first tried. */
  function OwnVary(learned: Learned, l: Lookup): VaryKey {
    VarySuffix(LearnedFor(learned, l.routeId), l.headers)
  }

  /** The record kept for a response. */
  function Made(cfg: Config, vary: seq<string>, r: Response, ttlMs: Option<int>, now: int): Cached {
    Cached(r, now, ttlMs.GetOr(cfg.defaultTtlMs), vary)
  }

  function WriteOp(
    cfg: Config, l: Lookup, vary: seq<string>, r: Response, ttlMs: Option<int>, now: int)
    : List.Op<BaseKey, VaryKey, Cached>
  {
    List.Put(KeyOf(l), VarySuffix(vary, l.headers), Made(cfg, vary, r, ttlMs, now),
             now + ttlMs.GetOr(cfg.defaultTtlMs))
  }

  function ReadOp(learned: Learned, l: Lookup, now: int): List.Op<BaseKey, VaryKey, Cached> {
    List.Get(KeyOf(l), OwnVary(learned, l), [], now)
  }

  function GetStep(cfg: Config, g: Gateway, l: Lookup, now: int): (Gateway, Lru.Outcome<Cached>) {
    var (s, out) := List.Step(cfg.capacity, g.entries, ReadOp(g.learned, l, now));
    (g.(entries := s), out)
  }

  function Answer(out: Lru.Outcome<Cached>): Option<Cached> {
    if out.Hit? then Some(out.value) else None
  }

  predicate Refuses(vary: seq<string>) {
    "*" in vary
  }

  function SetStep(cfg: Config, g: Gateway, l: Lookup, r: Response, ttlMs: Option<int>, now: int): (Gateway, bool) {
    var vary := VaryOf(g.learned, l, r);
    if r.noStore then (g, false)
    else if Refuses(vary) then (g.(learned := Learn(g.learned, l, vary)), false)
    else
      (Gateway(List.Step(cfg.capacity, g.entries, WriteOp(cfg, l, vary, r, ttlMs, now)).0, Learn(g.learned, l, vary)),
       true)
  }

  function InvalidateStep(cfg: Config, g: Gateway, l: Lookup): (Gateway, nat) {
    var (s, out) := List.Step(cfg.capacity, g.entries, List.Drop(KeyOf(l)));
    (g.(entries := s), out.count)
  }

  function PurgeStep(cfg: Config, g: Gateway, now: int): (Gateway, nat) {
    var (s, out) := List.Step(cfg.capacity, g.entries, List.Purge(now));
    (g.(entries := s), out.count)
  }

  /** The insertion that leaves the new entry listed but unreachable. */
  ghost predicate Orphaning(cfg: Config, g: Gateway, l: Lookup, r: Response) {
    !r.noStore && !Refuses(VaryOf(g.learned, l, r)) &&
    List.Orphans(g.entries, cfg.capacity, KeyOf(l), VarySuffix(VaryOf(g.learned, l, r), l.headers))
  }

  /** What every operation keeps: no two entries are reached alike, and a vary key has one pair per name of its list. */
  ghost predicate WellMade(g: Gateway) {
    List.UniqueLive(g.entries) && InStep(g.entries)
  }

  ghost predicate InStep(s: Entries) {
    forall i :: 0 <= i < |s| ==> |s[i].value.vary| == |s[i].id.vary|
  }

  lemma SetKeepsWellMade(cfg: Config, g: Gateway, l: Lookup, r: Response, ttlMs: Option<int>, now: int)
    requires WellMade(g)
    ensures WellMade(SetStep(cfg, g, l, r, ttlMs, now).0)
  {
    var vary := VaryOf(g.learned, l, r);
    PutKeepsInStep(cfg.capacity, g.entries, WriteOp(cfg, l, vary, r, ttlMs, now));
  }

  lemma PutKeepsInStep(capacity: nat, s: Entries, op: List.Op<BaseKey, VaryKey, Cached>)
    requires List.UniqueLive(s) && InStep(s) && op.Put? && |op.value.vary| == |op.vary|
    ensures List.UniqueLive(List.Step(capacity, s, op).0) && InStep(List.Step(capacity, s, op).0)
  {
    List.StoredKeepsUnique(s, capacity, op.base, op.vary, op.value, op.expiresAt);
    StoredInStep(s, capacity, op.base, op.vary, op.value, op.expiresAt);
  }

  lemma StoredInStep(s: Entries, capacity: nat, b: BaseKey, v: VaryKey, value: Cached, expiresAt: int)
    requires InStep(s) && |value.vary| == |v|
    ensures InStep(List.Stored(s, capacity, b, v, value, expiresAt))
  {
  }

  /** No other operation breaks it either. */
  lemma StepKeepsWellMade(capacity: nat, g: Gateway, op: List.Op<BaseKey, VaryKey, Cached>)
    requires WellMade(g) && |g.entries| <= capacity && capacity >= 1 && !op.Put?
    ensures WellMade(g.(entries := List.Step(capacity, g.entries, op).0))
  {
    List.StepKeepsShape(capacity, g.entries, op);
    match op
    case Get(_, _, _, _) =>
    case Drop(b) => KeepInStep(g.entries, Lru.Spared<List.Name<BaseKey, VaryKey>, Cached>(List.Under(b)));
    case Purge(now) => KeepInStep(g.entries, List.Lasting<BaseKey, VaryKey, Cached>(now));
  }

  lemma {:induction false} KeepInStep(s: Entries, p: List.Entry<BaseKey, VaryKey, Cached> -> bool)
    requires InStep(s)
    ensures InStep(Lru.Keep(s, p))
  {
    if s != [] {
      KeepInStep(s[..|s| - 1], p);
    }
  }

  /** Storing under (`b`, `v`) makes the map forget the keys (`b`, `w`), to make room. */
  ghost predicate Forgets(s: Entries, capacity: nat, b: BaseKey, v: VaryKey, w: VaryKey) {
    List.GivesUp(s, capacity, b, v) && s[|s| - 1].id.base == b && s[|s| - 1].id.vary == w
  }

  /**
   A response whose Vary header is there and empty, written while its route has learned a list, next to a live
   or dead variant that matches the same request headers and is not given up to make room.  (A response
   without the header inherits the learned list, and is not shadowed.)
   */
  ghost predicate Shadowed(cfg: Config, g: Gateway, l: Lookup, r: Response) {
    VaryOf(g.learned, l, r) == [] && LearnedFor(g.learned, l.routeId) != [] &&
    Lru.Find(g.entries, List.Live(KeyOf(l), OwnVary(g.learned, l))) < |g.entries| &&
    !Forgets(g.entries, cfg.capacity, KeyOf(l), [], OwnVary(g.learned, l))
  }

  /**
   What was stored is found by the same request while it lives, unless its own insertion orphaned it or
   another variant shadows it; both can be told before the store.
   */
  lemma StoredIsFound(cfg: Config, g: Gateway, l: Lookup, r: Response, ttlMs: Option<int>, now: int, later: int)
    requires WellMade(g) && SetStep(cfg, g, l, r, ttlMs, now).1
    requires later < now + ttlMs.GetOr(cfg.defaultTtlMs)
    ensures GetStep(cfg, SetStep(cfg, g, l, r, ttlMs, now).0, l, later).1 ==
            Lru.Hit(Made(cfg, VaryOf(g.learned, l, r), r, ttlMs, now)) <==>
            !Orphaning(cfg, g, l, r) && !Shadowed(cfg, g, l, r)
  {
    var vary := VaryOf(g.learned, l, r);
    var s, op, own := g.entries, WriteOp(cfg, l, vary, r, ttlMs, now), OwnVary(Learn(g.learned, l, vary), l);
    var after := List.Step(cfg.capacity, s, op).0;
    PutKeepsInStep(cfg.capacity, s, op);
    if Orphaning(cfg, g, l, r) {
      OrphanIsMissed(s, cfg.capacity, op.base, op.vary, op.value, op.expiresAt, own);
    } else if |vary| > 0 {
      assert own == op.vary;
      FirstIsHit(cfg.capacity, after, op.base, own, later);
    } else {
      assert op.vary == [];
      if own != [] {
        StoredKeepsFound(s, cfg.capacity, op.base, [], op.value, op.expiresAt, own);
      }
      FirstIsFallback(cfg.capacity, after, op.base, own, later);
    }
  }

  lemma FirstIsHit(capacity: nat, s: Entries, b: BaseKey, own: VaryKey, now: int)
    requires |s| > 0 && s[0].id == List.Live(b, own) && s[0].expiresAt > now
    ensures List.Step(capacity, s, List.Get(b, own, [], now)).1 == Lru.Hit(s[0].value)
  {
  }

  /** An entry without a vary list, first on the list, is hit unless the request's own variant is there too. */
  lemma FirstIsFallback(capacity: nat, s: Entries, b: BaseKey, own: VaryKey, now: int)
    requires InStep(s) && |s| > 0 && s[0].id == List.Live(b, []) && s[0].expiresAt > now
    ensures List.Step(capacity, s, List.Get(b, own, [], now)).1 == Lru.Hit(s[0].value) <==>
            own == [] || Lru.Find(s, List.Live(b, own)) == |s|
  {
    var i := Lru.Find(s, List.Live(b, own));
    if i < |s| && own != [] {
      assert |s[i].value.vary| == |s[i].id.vary| && |s[0].value.vary| == 0;
    }
  }

  /** After an orphaning insertion nothing is found under the base key. */
  lemma OrphanIsMissed(
    s: Entries, capacity: nat, b: BaseKey, v: VaryKey, value: Cached, expiresAt: int, own: VaryKey)
    requires List.Orphans(s, capacity, b, v)
    ensures var after := List.Stored(s, capacity, b, v, value, expiresAt);
            Lru.Find(after, List.Live(b, own)) == |after| == Lru.Find(after, List.Live(b, []))
  {
    var after := List.Stored(s, capacity, b, v, value, expiresAt);
    assert forall i :: 1 <= i < |after| ==> after[i] == List.Rest(s)[i - 1];
  }

  /** After an insertion another variant is found exactly when it was there and its keys were not forgotten. */
  lemma StoredKeepsFound(
    s: Entries, capacity: nat, b: BaseKey, v: VaryKey, value: Cached, expiresAt: int, w: VaryKey)
    requires List.UniqueLive(s) && v != w
    ensures var after := List.Stored(s, capacity, b, v, value, expiresAt);
            Lru.Find(after, List.Live(b, w)) < |after| <==>
            Lru.Find(s, List.Live(b, w)) < |s| && !Forgets(s, capacity, b, v, w)
  {
    var after, at, id := List.Stored(s, capacity, b, v, value, expiresAt), Lru.Find(s, List.Live(b, v)),
      List.Live(b, w);
    if at < |s| {
      FoundAfterRemoval(s, at, id);
      FoundBehind(after[0], RemoveAt(s, at), id);
    } else if List.GivesUp(s, capacity, b, v) {
      RestFinds(s, b, w);
      FoundBehind(after[0], List.Rest(s), id);
    } else {
      FoundBehind(after[0], s, id);
    }
  }

  lemma FoundBehind(e: List.Entry<BaseKey, VaryKey, Cached>, s: Entries, id: List.Name<BaseKey, VaryKey>)
    requires e.id != id
    ensures Lru.Find([e] + s, id) < |s| + 1 <==> Lru.Find(s, id) < |s|
  {
    var i, k := Lru.Find(s, id), Lru.Find([e] + s, id);
    if i < |s| {
      assert ([e] + s)[i + 1].id == id;
    }
    if k < |s| + 1 {
      assert s[k - 1].id == id;
    }
  }

  lemma FoundAfterRemoval(s: Entries, at: nat, id: List.Name<BaseKey, VaryKey>)
    requires at < |s| && s[at].id != id
    ensures Lru.Find(RemoveAt(s, at), id) < |s| - 1 <==> Lru.Find(s, id) < |s|
  {
    var t := RemoveAt(s, at);
    var i, k := Lru.Find(s, id), Lru.Find(t, id);
    if i < |s| {
      assert t[if i < at then i else i - 1].id == id;
    }
    if k < |t| {
      assert s[if k < at then k else k + 1].id == id;
    }
  }

  lemma RestFinds(s: Entries, b: BaseKey, w: VaryKey)
    requires List.UniqueLive(s) && |s| > 0
    ensures var last, id := s[|s| - 1].id, List.Live(b, w);
            Lru.Find(List.Rest(s), id) < |s| - 1 <==> Lru.Find(s, id) < |s| && !(last.base == b && last.vary == w)
  {
    var rest, id := List.Rest(s), List.Live(b, w);
    var i, k := Lru.Find(s, id), Lru.Find(rest, id);
    if k < |rest| {
      assert s[k].id == id;
    }
    if i < |s| - 1 {
      assert rest[i].id == List.Unmapped(s[i].id, s[|s| - 1].id.base, s[|s| - 1].id.vary);
    }
  }

  method SetThenGet(
    cache: GatewayResponseCache, l: Lookup, r: Response, ttlMs: Option<int>, now: int, later: int)
    returns (stored: bool, back: Option<Cached>)
    requires cache.Valid()
    modifies cache, cache.store, cache.store.list, cache.store.entries.Values
    ensures var (g, done) := old(SetStep(cache.Cfg(), cache.View(), l, r, ttlMs, now));
            stored == done && back == Answer(GetStep(cache.Cfg(), g, l, later).1)
  {
    ghost var nodes, shelves := cache.store.list, cache.store.entries.Values;
    stored := cache.Set(l, r, ttlMs, now);
    assert forall o :: o in cache.store.entries.Values ==> fresh(o) || o in shelves;
    assert forall i :: 0 <= i < |cache.store.list| ==> fresh(cache.store.list[i]) || cache.store.list[i] in nodes;
    back := cache.Get(l, later);
  }

  /** A caller that stores a response and asks for it again while it lives gets it back under the same condition. */
  method ReadYourWrite(
    cache: GatewayResponseCache, l: Lookup, r: Response, ttlMs: Option<int>, now: int, later: int)
    returns (back: Option<Cached>)
    requires cache.Valid() && WellMade(cache.View())
    requires SetStep(cache.Cfg(), cache.View(), l, r, ttlMs, now).1
    requires later < now + ttlMs.GetOr(cache.defaultTtlMs)
    modifies cache, cache.store, cache.store.list, cache.store.entries.Values
    ensures back == Some(Made(cache.Cfg(), VaryOf(old(cache.varyByRoute), l, r), r, ttlMs, now)) <==>
            !old(Orphaning(cache.Cfg(), cache.View(), l, r)) && !old(Shadowed(cache.Cfg(), cache.View(), l, r))
  {
    StoredIsFound(cache.Cfg(), cache.View(), l, r, ttlMs, now, later);
    var stored;
    stored, back := SetThenGet(cache, l, r, ttlMs, now, later);
  }

  /**
   A hit is an entry of the same base key whose vary key is the request's own, or empty: no other variant is
   served.
   */
  lemma HitsMatch(cfg: Config, g: Gateway, l: Lookup, now: int)
    requires GetStep(cfg, g, l, now).1.Hit?
    ensures exists e :: e in g.entries && GetStep(cfg, g, l, now).1 == Lru.Hit(e.value) && e.expiresAt > now &&
                        (e.id == List.Live(KeyOf(l), OwnVary(g.learned, l)) || e.id == List.Live(KeyOf(l), []))
  {
    var i := Lru.Target(g.entries, List.Live(KeyOf(l), OwnVary(g.learned, l)), List.Live(KeyOf(l), []));
    assert g.entries[i] in g.entries;
  }

  /**
   What an orphaning insertion stored is not served by any later operation, whatever they are, until it is
   stored again; it goes on taking up room until it is evicted.
   */
  lemma OrphanIsNeverServed(
    cfg: Config, g: Gateway, l: Lookup, r: Response, ttlMs: Option<int>, now: int,
    ops: seq<List.Op<BaseKey, VaryKey, Cached>>)
    requires Orphaning(cfg, g, l, r)
    requires var x := Made(cfg, VaryOf(g.learned, l, r), r, ttlMs, now);
             (forall i :: 0 <= i < |g.entries| ==> g.entries[i].value != x) &&
             forall i :: 0 <= i < |ops| && ops[i].Put? ==> ops[i].value != x
    ensures var x, after := Made(cfg, VaryOf(g.learned, l, r), r, ttlMs, now), SetStep(cfg, g, l, r, ttlMs, now).0;
            after.entries[0].value == x && Lru.Hit(x) !in List.Run(cfg.capacity, after.entries, ops).1
  {
    var op := WriteOp(cfg, l, VaryOf(g.learned, l, r), r, ttlMs, now);
    var after := List.Stored(g.entries, cfg.capacity, op.base, op.vary, op.value, op.expiresAt);
    List.OrphanIsOnlyLost(g.entries, cfg.capacity, op.base, op.vary, op.value, op.expiresAt);
    List.LostIsNeverServed(cfg.capacity, after, ops, op.value);
  }

  /**
   The orphaning insertion does happen: a cache of capacity one holding the variant for one language, asked to
   store the variant for another.
   */
  lemma OrphanExample(r: Response, expiresAt: int)
    requires !r.noStore && r.vary == Some(["lang"])
    ensures exists g, l :: WellMade(g) && |g.entries| == 1 && Orphaning(Config(1, 60000), g, l, r)
  {
    var l := Lookup("GET", "r", None, "/p", map[], map["lang" := ["de"]]);
    var held := VarySuffix(["lang"], map["lang" := ["en"]]);
    var asked := VarySuffix(["lang"], l.headers);
    var e := Lru.Entry(List.Live(KeyOf(l), held), Cached(r, 0, 1, ["lang"]), expiresAt);
    var g := Gateway([e], map["r" := ["lang"]]);
    assert held[0] == ("lang", ["en"]) && asked[0] == ("lang", ["de"]) && ["en"][0] != ["de"][0];
    assert Lru.Find(g.entries, List.Live(KeyOf(l), asked)) == 1;
    assert WellMade(g) && Orphaning(Config(1, 60000), g, l, r);
  }

  /**
   An inherited list is never empty where one was learned, so shadowing takes a Vary header that is there and
   empty.
   */
  lemma ShadowedHasEmptyVary(cfg: Config, g: Gateway, l: Lookup, r: Response)
    requires Shadowed(cfg, g, l, r)
    ensures r.vary == Some([])
  {
  }

  /** It does happen: a variant for English is held, and a response with an empty Vary header is stored. */
  lemma ShadowExample(r: Response, expiresAt: int)
    requires !r.noStore && r.vary == Some([])
    ensures exists g, l :: WellMade(g) && Shadowed(Config(2, 60000), g, l, r) && !Orphaning(Config(2, 60000), g, l, r)
  {
    var l := Lookup("GET", "r", None, "/p", map[], map["lang" := ["en"]]);
    var held := VarySuffix(["lang"], l.headers);
    var e := Lru.Entry(List.Live(KeyOf(l), held), Cached(r, 0, 1, ["lang"]), expiresAt);
    var g := Gateway([e], map["r" := ["lang"]]);
    assert OwnVary(g.learned, l) == held;
    assert Lru.Find(g.entries, List.Live(KeyOf(l), held)) == 0;
    assert WellMade(g) && Shadowed(Config(2, 60000), g, l, r) && !Orphaning(Config(2, 60000), g, l, r);
  }

  class GatewayResponseCache {
    const defaultTtlMs: int
    const store: Store.VariantLru<BaseKey, VaryKey, Cached>
    var hits: nat
    var misses: nat
    var varyByRoute: Learned

    constructor (capacity: int, defaultTtlMs: int)
      ensures Valid() && fresh(store) && View() == Gateway([], map[]) && hits == 0 && misses == 0
      ensures Cfg() == Config(if capacity < 1 then 1 else capacity, defaultTtlMs)
    {
      this.defaultTtlMs := defaultTtlMs;
      store := new Store.VariantLru(capacity);
      hits, misses, varyByRoute := 0, 0, map[];
    }

    ghost predicate Valid()
      reads store, store.list, store.entries.Values, store.payload.Keys
    {
      store.Valid()
    }

    ghost function View(): Gateway
      reads this`varyByRoute, store, store.list, store.entries.Values, store.payload.Keys
      requires Valid()
    {
      Gateway(store.Entries(), varyByRoute)
    }

    ghost function Cfg(): Config {
      Config(store.capacity, defaultTtlMs)
    }

    /** The read itself, before the counters. */
    method Fetch(l: Lookup, now: int) returns (out: Lru.Outcome<Cached>)
      requires Valid()
      modifies store, store.list, store.entries.Values
      ensures Valid() && (View(), out) == GetStep(Cfg(), old(View()), l, now)
    {
      out := store.Get(KeyOf(l), OwnVary(varyByRoute, l), [], now);
    }

    method Get(l: Lookup, now: int) returns (r: Option<Cached>)
      requires Valid()
      modifies this`hits, this`misses, store, store.list, store.entries.Values
      ensures Valid() && View() == GetStep(Cfg(), old(View()), l, now).0
      ensures r == Answer(GetStep(Cfg(), old(View()), l, now).1)
      ensures hits + misses == old(hits + misses) + 1 && (r.Some? <==> hits == old(hits) + 1)
    {
      var out := Fetch(l, now);
      if out.Hit? {
        hits := hits + 1;
      } else {
        misses := misses + 1;
      }
      r := Answer(out);
    }

    /** The write itself, once the response is known to be storable and its vary list learned. */
    method Write(op: List.Op<BaseKey, VaryKey, Cached>)
      requires Valid() && op.Put?
      modifies store, store.list, store.entries.Values
      ensures Valid() && (forall x :: x in store.list ==> fresh(x) || x in old(store.list))
      ensures forall o :: o in store.entries.Values ==> fresh(o) || o in old(store.entries.Values)
      ensures store.Entries() == List.Step(store.capacity, old(store.Entries()), op).0
    {
      store.Put(op.base, op.vary, op.value, op.expiresAt);
    }

    method Set(l: Lookup, r: Response, ttlMs: Option<int>, now: int) returns (stored: bool)
      requires Valid()
      modifies this`varyByRoute, store, store.list, store.entries.Values
      ensures Valid() && (forall x :: x in store.list ==> fresh(x) || x in old(store.list))
      ensures forall o :: o in store.entries.Values ==> fresh(o) || o in old(store.entries.Values)
      ensures (View(), stored) == SetStep(Cfg(), old(View()), l, r, ttlMs, now)
    {
      if r.noStore {
        return false;
      }
      var vary := VaryOf(varyByRoute, l, r);
      varyByRoute := Learn(varyByRoute, l, vary);
      if Refuses(vary) {
        return false;
      }
      Write(WriteOp(Config(store.capacity, defaultTtlMs), l, vary, r, ttlMs, now));
      stored := true;
    }

    method Invalidate(l: Lookup) returns (removed: nat)
      requires Valid()
      modifies store, store.list, store.entries.Values
      ensures Valid() && (View(), removed) == InvalidateStep(Cfg(), old(View()), l)
    {
      removed := store.Invalidate(KeyOf(l));
    }

    method PurgeExpired(now: int) returns (removed: nat)
      requires Valid()
      modifies store, store.list, store.entries.Values
      ensures Valid() && (View(), removed) == PurgeStep(Cfg(), old(View()), now)
    {
      removed := store.Purge(now);
    }

    method Clear()
      requires Valid()
      modifies this`varyByRoute, store, store.list, store.entries.Values
      ensures Valid() && View() == Gateway([], map[])
    {
      store.Clear();
      varyByRoute := map[];
    }
  }
}
