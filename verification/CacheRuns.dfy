/**
 The response cache over whole runs: what is served to whom, and what an invalidation takes.

 The statements speak of the fields of requests and of the calls made before, not of the keys the cache
 makes of them: `ServedWasStored` says that an answer is the last word stored for a request with the same
 fields, `SharesEntry` that nothing else of a request matters, and `InvalidationIsExact` whom an
 invalidation reaches.
 */
module CacheRuns {
  import opened Prelude
  import opened ResponseCache
  import Lru = LruList
  import List = VariantList

  datatype Call =
    | Set(lookup: Lookup, response: Response, ttlMs: Option<int>, now: int)
    | Get(lookup: Lookup, now: int)
    | Invalidate(lookup: Lookup)
    | PurgeExpired(now: int)
    | Clear

  function After(cfg: Config, g: Gateway, call: Call): Gateway {
    match call
    case Set(l, r, ttlMs, now) => SetStep(cfg, g, l, r, ttlMs, now).0
    case Get(l, now) => GetStep(cfg, g, l, now).0
    case Invalidate(l) => InvalidateStep(cfg, g, l).0
    case PurgeExpired(now) => PurgeStep(cfg, g, now).0
    case Clear => Gateway([], map[])
  }

  /** The cache after a run from the empty one. */
  function Run(cfg: Config, calls: seq<Call>): Gateway {
    if calls == [] then Gateway([], map[])
    else After(cfg, Run(cfg, calls[..|calls| - 1]), calls[|calls| - 1])
  }

  // ---------------------------------------------------------------- requests, told by their fields

  function Consumer(l: Lookup): string {
    match l.consumerId
    case None => "-"
    case Some(id) => id
  }

  predicate SameRequest(l: Lookup, m: Lookup) {
    l.verb == m.verb && l.routeId == m.routeId && Consumer(l) == Consumer(m) && l.path == m.path && l.query == m.query
  }

  function ValuesOf(l: Lookup, name: string): seq<string> {
    if name in l.headers then l.headers[name] else []
  }

  predicate SameHeaders(names: seq<string>, l: Lookup, m: Lookup) {
    forall i :: 0 <= i < |names| ==> ValuesOf(l, names[i]) == ValuesOf(m, names[i])
  }

  /** The Vary list last brought by a storable response of the route, since the cache was cleared. */
  function ToldList(calls: seq<Call>, routeId: string): seq<string> {
    if calls == [] then []
    else
      var call, before := calls[|calls| - 1], ToldList(calls[..|calls| - 1], routeId);
      match call
      case Clear => []
      case Set(l, r, _, _) =>
        if l.routeId == routeId && !r.noStore && r.vary.Some? && r.vary.value != [] then r.vary.value else before
      case _ => before
  }

  /** The Vary list a response is stored under after `before`. */
  function ListFor(before: seq<Call>, l: Lookup, r: Response): seq<string> {
    match r.vary
    case Some(names) => names
    case None => ToldList(before, l.routeId)
  }

  /** The call stores `v`, for requests like `l`. */
  predicate Stores(cfg: Config, before: seq<Call>, call: Call, l: Lookup, v: Cached) {
    call.Set? && SameRequest(call.lookup, l) && !call.response.noStore &&
    v.vary == ListFor(before, call.lookup, call.response) && "*" !in v.vary && SameHeaders(v.vary, call.lookup, l) &&
    v.response == call.response && v.storedAt == call.now &&
    v.ttlMs == match call.ttlMs { case Some(t) => t case None => cfg.defaultTtlMs }
  }

  /** The call puts an end to `v`, held for requests like `l`. */
  predicate Ends(before: seq<Call>, call: Call, l: Lookup, v: Cached) {
    match call
    case Set(m, r, _, _) =>
      SameRequest(m, l) && !r.noStore && ListFor(before, m, r) == v.vary && SameHeaders(v.vary, m, l)
    case Get(_, _) => false
    case Invalidate(m) => SameRequest(m, l)
    case PurgeExpired(now) => v.storedAt + v.ttlMs <= now
    case Clear => true
  }

  // ---------------------------------------------------------------- the fields and the keys

  lemma KeysTell(l: Lookup, m: Lookup)
    ensures KeyOf(l) == KeyOf(m) <==> SameRequest(l, m)
  {
  }

  lemma SuffixesTell(names: seq<string>, others: seq<string>, l: Lookup, m: Lookup)
    ensures VarySuffix(names, l.headers) == VarySuffix(others, m.headers) <==>
            names == others && SameHeaders(names, l, m)
  {
    var a, b := VarySuffix(names, l.headers), VarySuffix(others, m.headers);
    if a == b {
      assert |names| == |others|;
      forall i | 0 <= i < |names| ensures names[i] == others[i] && ValuesOf(l, names[i]) == ValuesOf(m, names[i]) {
        assert a[i] == b[i];
      }
    } else if names == others && |a| == |b| {
      var i :| 0 <= i < |a| && a[i] != b[i];
      assert ValuesOf(l, names[i]) != ValuesOf(m, names[i]);
    }
  }

  lemma {:induction false} LearnedIsTold(cfg: Config, calls: seq<Call>, routeId: string)
    ensures LearnedFor(Run(cfg, calls).learned, routeId) == ToldList(calls, routeId)
  {
    if calls != [] {
      LearnedIsTold(cfg, calls[..|calls| - 1], routeId);
    }
  }

  // ---------------------------------------------------------------- where an entry comes from

  /** The call stored the entry, under the keys it has. */
  ghost predicate Made(cfg: Config, before: seq<Call>, call: Call, e: List.Entry<BaseKey, VaryKey, Cached>) {
    call.Set? && !call.response.noStore && e.value.vary == ListFor(before, call.lookup, call.response) &&
    !Refuses(e.value.vary) && e.id.base == KeyOf(call.lookup) &&
    e.id.vary == VarySuffix(e.value.vary, call.lookup.headers) &&
    e.value == ResponseCache.Made(cfg, e.value.vary, call.response, call.ttlMs, call.now) &&
    e.expiresAt == e.value.storedAt + e.value.ttlMs
  }

  /** The call leaves no entry under the keys of `e`, or none as old. */
  ghost predicate Unmakes(before: seq<Call>, call: Call, e: List.Entry<BaseKey, VaryKey, Cached>) {
    match call
    case Set(m, r, _, _) =>
      !r.noStore && !Refuses(ListFor(before, m, r)) && KeyOf(m) == e.id.base &&
      VarySuffix(ListFor(before, m, r), m.headers) == e.id.vary
    case Get(_, _) => false
    case Invalidate(m) => KeyOf(m) == e.id.base
    case PurgeExpired(now) => e.expiresAt <= now
    case Clear => true
  }

  ghost predicate MadeAt(cfg: Config, calls: seq<Call>, k: nat, e: List.Entry<BaseKey, VaryKey, Cached>) {
    k < |calls| && Made(cfg, calls[..k], calls[k], e) &&
    forall j :: k < j < |calls| ==> !Unmakes(calls[..j], calls[j], e)
  }

  ghost predicate Sound(cfg: Config, g: Gateway) {
    WellMade(g) && |g.entries| <= cfg.capacity
  }

  lemma AfterKeepsSound(cfg: Config, g: Gateway, call: Call)
    requires cfg.capacity >= 1 && Sound(cfg, g)
    ensures Sound(cfg, After(cfg, g, call))
  {
    match call
    case Set(l, r, ttlMs, now) =>
      SetKeepsWellMade(cfg, g, l, r, ttlMs, now);
      var op := WriteOp(cfg, l, VaryOf(g.learned, l, r), r, ttlMs, now);
      List.StepKeepsShape(cfg.capacity, g.entries, op);
    case Get(l, now) =>
      StepKeepsWellMade(cfg.capacity, g, ReadOp(g.learned, l, now));
      List.StepKeepsShape(cfg.capacity, g.entries, ReadOp(g.learned, l, now));
    case Invalidate(l) =>
      StepKeepsWellMade(cfg.capacity, g, List.Drop(KeyOf(l)));
      List.StepKeepsShape(cfg.capacity, g.entries, List.Drop(KeyOf(l)));
    case PurgeExpired(now) =>
      StepKeepsWellMade(cfg.capacity, g, List.Purge(now));
      List.StepKeepsShape(cfg.capacity, g.entries, List.Purge(now));
    case Clear =>
  }

  lemma {:induction false} RunIsSound(cfg: Config, calls: seq<Call>)
    requires cfg.capacity >= 1
    ensures Sound(cfg, Run(cfg, calls))
  {
    if calls != [] {
      RunIsSound(cfg, calls[..|calls| - 1]);
      AfterKeepsSound(cfg, Run(cfg, calls[..|calls| - 1]), calls[|calls| - 1]);
    }
  }

  lemma {:induction false} KeptWas<T>(s: seq<T>, p: T -> bool, x: T)
    ensures x in Lru.Keep(s, p) <==> x in s && p(x)
  {
    if s != [] {
      var front, last := s[..|s| - 1], s[|s| - 1];
      KeptWas(front, p, x);
      assert s == front + [last];
    }
  }

  lemma PutWas(
    s: Entries, capacity: nat, b: BaseKey, v: VaryKey, value: Cached, expiresAt: int,
    e: List.Entry<BaseKey, VaryKey, Cached>)
    requires List.UniqueLive(s) && e in List.Stored(s, capacity, b, v, value, expiresAt) && e.id.Live?
    ensures e == Lru.Entry(List.Live(b, v), value, expiresAt) || (e in s && e.id != List.Live(b, v))
  {
    var after, at := List.Stored(s, capacity, b, v, value, expiresAt), Lru.Find(s, List.Live(b, v));
    var i :| 0 <= i < |after| && after[i] == e;
    if i > 0 {
      if at < |s| {
        assert after[i] == RemoveAt(s, at)[i - 1];
        assert e == s[if i - 1 < at then i - 1 else i];
      } else if List.GivesUp(s, capacity, b, v) {
        assert after[i] == List.Rest(s)[i - 1];
        assert e == s[i - 1];
      } else {
        assert after[i] == s[i - 1];
      }
    }
  }

  lemma SetWas(
    cfg: Config, before: seq<Call>, l: Lookup, r: Response, ttlMs: Option<int>, now: int,
    e: List.Entry<BaseKey, VaryKey, Cached>)
    requires cfg.capacity >= 1 && Sound(cfg, Run(cfg, before))
    requires e in After(cfg, Run(cfg, before), Set(l, r, ttlMs, now)).entries && e.id.Live?
    ensures Made(cfg, before, Set(l, r, ttlMs, now), e) ||
            (e in Run(cfg, before).entries && !Unmakes(before, Set(l, r, ttlMs, now), e))
  {
    var g := Run(cfg, before);
    LearnedIsTold(cfg, before, l.routeId);
    var vary := VaryOf(g.learned, l, r);
    assert vary == ListFor(before, l, r);
    if !r.noStore && !Refuses(vary) {
      var op := WriteOp(cfg, l, vary, r, ttlMs, now);
      PutWas(g.entries, cfg.capacity, op.base, op.vary, op.value, op.expiresAt, e);
    }
  }

  /** A reachable entry after a call was there before and is not ended by it, or is what the call stored. */
  lemma AfterWas(cfg: Config, before: seq<Call>, call: Call, e: List.Entry<BaseKey, VaryKey, Cached>)
    requires cfg.capacity >= 1
    requires e in After(cfg, Run(cfg, before), call).entries && e.id.Live?
    ensures Made(cfg, before, call, e) || (e in Run(cfg, before).entries && !Unmakes(before, call, e))
  {
    var g := Run(cfg, before);
    RunIsSound(cfg, before);
    match call
    case Set(l, r, ttlMs, now) => SetWas(cfg, before, l, r, ttlMs, now, e);
    case Get(l, now) =>
      var i := Lru.Target(g.entries, List.Live(KeyOf(l), OwnVary(g.learned, l)), List.Live(KeyOf(l), []));
      if i < |g.entries| {
        assert forall x :: x in RemoveAt(g.entries, i) ==> x in g.entries;
      }
    case Invalidate(l) =>
      KeptWas(g.entries, Lru.Spared<List.Name<BaseKey, VaryKey>, Cached>(List.Under(KeyOf(l))), e);
    case PurgeExpired(now) =>
      KeptWas(g.entries, List.Lasting<BaseKey, VaryKey, Cached>(now), e);
    case Clear =>
  }

  lemma {:induction false} EntryWasMade(cfg: Config, calls: seq<Call>, e: List.Entry<BaseKey, VaryKey, Cached>)
    returns (k: nat)
    requires cfg.capacity >= 1
    requires e in Run(cfg, calls).entries && e.id.Live?
    ensures MadeAt(cfg, calls, k, e)
    decreases |calls|
  {
    assert calls != [];
    var before, call := calls[..|calls| - 1], calls[|calls| - 1];
    assert before + [call] == calls;
    AfterWas(cfg, before, call, e);
    if Made(cfg, before, call, e) {
      k := |before|;
      JustMade(cfg, before, call, e);
    } else {
      k := EntryWasMade(cfg, before, e);
      StillMade(cfg, before, call, k, e);
    }
  }

  lemma JustMade(cfg: Config, before: seq<Call>, call: Call, e: List.Entry<BaseKey, VaryKey, Cached>)
    requires Made(cfg, before, call, e)
    ensures MadeAt(cfg, before + [call], |before|, e)
  {
    assert (before + [call])[..|before|] == before;
  }

  lemma StillMade(cfg: Config, before: seq<Call>, call: Call, k: nat, e: List.Entry<BaseKey, VaryKey, Cached>)
    requires MadeAt(cfg, before, k, e) && !Unmakes(before, call, e)
    ensures MadeAt(cfg, before + [call], k, e)
  {
    var calls := before + [call];
    assert calls[..|before|] == before && calls[..k] == before[..k];
    forall j | k < j < |calls| ensures !Unmakes(calls[..j], calls[j], e) {
      if j < |before| {
        assert calls[..j] == before[..j] && !Unmakes(before[..j], before[j], e);
      }
    }
  }

  // ---------------------------------------------------------------- what is served to whom

  /**
   What a lookup is answered after any run was stored for a request with the same verb, route, consumer, path
   and query and the same values of every header on the list of the response; it is not expired; and no later
   call put an end to it.
   */
  lemma ServedWasStored(cfg: Config, calls: seq<Call>, l: Lookup, now: int) returns (k: nat)
    requires cfg.capacity >= 1 && GetStep(cfg, Run(cfg, calls), l, now).1.Hit?
    ensures var v := GetStep(cfg, Run(cfg, calls), l, now).1.value;
            k < |calls| && Stores(cfg, calls[..k], calls[k], l, v) && now < v.storedAt + v.ttlMs &&
            forall j :: k < j < |calls| ==> !Ends(calls[..j], calls[j], l, v)
  {
    var g := Run(cfg, calls);
    HitsMatch(cfg, g, l, now);
    var e :| e in g.entries && GetStep(cfg, g, l, now).1 == Lru.Hit(e.value) && e.expiresAt > now &&
      (e.id == List.Live(KeyOf(l), OwnVary(g.learned, l)) || e.id == List.Live(KeyOf(l), []));
    k := EntryWasMade(cfg, calls, e);
    var v, m := e.value, calls[k].lookup;
    KeysTell(m, l);
    if e.id.vary == [] {
      assert v.vary == [];
      assert VarySuffix(v.vary, l.headers) == [];
    } else {
      SuffixesTell(v.vary, LearnedFor(g.learned, l.routeId), m, l);
    }
    assert e.id == List.Live(KeyOf(l), VarySuffix(v.vary, l.headers));
    forall j | k < j < |calls| ensures !Ends(calls[..j], calls[j], l, v) {
      assert !Unmakes(calls[..j], calls[j], e);
      EndsUnmakes(calls[..j], calls[j], l, e);
    }
  }

  lemma EndsUnmakes(before: seq<Call>, call: Call, l: Lookup, e: List.Entry<BaseKey, VaryKey, Cached>)
    requires e.id == List.Live(KeyOf(l), VarySuffix(e.value.vary, l.headers))
    requires e.expiresAt == e.value.storedAt + e.value.ttlMs && !Refuses(e.value.vary)
    ensures Ends(before, call, l, e.value) ==> Unmakes(before, call, e)
  {
    match call
    case Set(m, r, _, _) =>
      KeysTell(m, l);
      SuffixesTell(e.value.vary, e.value.vary, m, l);
    case Get(_, _) =>
    case Invalidate(m) => KeysTell(m, l);
    case PurgeExpired(_) =>
    case Clear =>
  }

  /**
   Requests that agree in those fields, and in the headers on the list the route last told, are answered
   alike; so requests that differ in other headers share an entry.
   */
  lemma SharesEntry(cfg: Config, calls: seq<Call>, l: Lookup, m: Lookup, now: int)
    requires SameRequest(l, m) && SameHeaders(ToldList(calls, l.routeId), l, m)
    ensures GetStep(cfg, Run(cfg, calls), l, now) == GetStep(cfg, Run(cfg, calls), m, now)
  {
    KeysTell(l, m);
    LearnedIsTold(cfg, calls, l.routeId);
    SuffixesTell(ToldList(calls, l.routeId), ToldList(calls, l.routeId), l, m);
  }

  /** A response is stored exactly when it may be, and its list has no `*`. */
  lemma StoredExactly(cfg: Config, calls: seq<Call>, l: Lookup, r: Response, ttlMs: Option<int>, now: int)
    ensures SetStep(cfg, Run(cfg, calls), l, r, ttlMs, now).1 <==> !r.noStore && "*" !in ListFor(calls, l, r)
  {
    LearnedIsTold(cfg, calls, l.routeId);
  }

  // ---------------------------------------------------------------- whom an invalidation reaches

  lemma {:induction false} KeptFinds(
    s: Entries, p: List.Entry<BaseKey, VaryKey, Cached> -> bool, id: List.Name<BaseKey, VaryKey>)
    requires forall i :: 0 <= i < |s| && s[i].id == id ==> p(s[i])
    ensures var t := Lru.Keep(s, p);
            var i, k := Lru.Find(s, id), Lru.Find(t, id);
            (i < |s| <==> k < |t|) && (i < |s| ==> s[i] == t[k])
  {
    if s != [] {
      var front, last := s[..|s| - 1], s[|s| - 1];
      var rest := Lru.Keep(front, p);
      KeptFinds(front, p, id);
      assert s == front + [last];
      FindSnoc(front, last, id);
      FindSnoc(rest, last, id);
    }
  }

  lemma FindSnoc(s: Entries, x: List.Entry<BaseKey, VaryKey, Cached>, id: List.Name<BaseKey, VaryKey>)
    ensures var i, k := Lru.Find(s, id), Lru.Find(s + [x], id);
            k == if i < |s| || x.id == id then i else |s| + 1
  {
    var i, k := Lru.Find(s, id), Lru.Find(s + [x], id);
    if i < |s| {
      assert (s + [x])[i].id == id;
    } else {
      assert (s + [x])[|s|] == x;
      assert forall j :: 0 <= j < |s| ==> (s + [x])[j] == s[j];
    }
  }

  /** The answer to a lookup depends on what is found under its two keys only. */
  lemma FoundDecides(capacity: nat, s: Entries, t: Entries, b: BaseKey, own: VaryKey, now: int)
    requires forall w :: SameFind(s, t, List.Live(b, w))
    ensures List.Step(capacity, s, List.Get(b, own, [], now)).1 == List.Step(capacity, t, List.Get(b, own, [], now)).1
  {
    assert SameFind(s, t, List.Live(b, own)) && SameFind(s, t, List.Live(b, []));
  }

  ghost predicate SameFind(s: Entries, t: Entries, id: List.Name<BaseKey, VaryKey>) {
    var i, k := Lru.Find(s, id), Lru.Find(t, id);
    (i < |s| <==> k < |t|) && (i < |s| ==> s[i] == t[k])
  }

  /**
   Whatever the cache holds: after an invalidation a request that agrees with it in all the fields finds
   nothing, and any other is answered as without it.
   */
  lemma InvalidationIsExact(cfg: Config, g: Gateway, l: Lookup, m: Lookup, now: int)
    ensures GetStep(cfg, InvalidateStep(cfg, g, l).0, m, now).1 ==
            if SameRequest(l, m) then Lru.Miss else GetStep(cfg, g, m, now).1
  {
    KeysTell(l, m);
    var p := Lru.Spared<List.Name<BaseKey, VaryKey>, Cached>(List.Under(KeyOf(l)));
    var t := InvalidateStep(cfg, g, l).0.entries;
    assert t == Lru.Keep(g.entries, p);
    if SameRequest(l, m) {
      forall e | e in t ensures e.id.Lost? || e.id.base != KeyOf(m) {
        KeptWas(g.entries, p, e);
      }
      assert forall i :: 0 <= i < |t| ==> t[i] in t;
    } else {
      forall w ensures SameFind(g.entries, t, List.Live(KeyOf(m), w)) {
        KeptFinds(g.entries, p, List.Live(KeyOf(m), w));
      }
      FoundDecides(cfg.capacity, g.entries, t, KeyOf(m), OwnVary(g.learned, m), now);
    }
  }

  /** What it takes was stored for a request that agrees with it in all the fields. */
  lemma InvalidationTakes(cfg: Config, calls: seq<Call>, l: Lookup, e: List.Entry<BaseKey, VaryKey, Cached>)
    returns (k: nat)
    requires cfg.capacity >= 1 && e in Run(cfg, calls).entries
    requires e !in InvalidateStep(cfg, Run(cfg, calls), l).0.entries
    ensures k < |calls| && calls[k].Set? && SameRequest(calls[k].lookup, l)
    ensures e.value.response == calls[k].response && e.value.storedAt == calls[k].now
  {
    var g := Run(cfg, calls);
    KeptWas(g.entries, Lru.Spared<List.Name<BaseKey, VaryKey>, Cached>(List.Under(KeyOf(l))), e);
    k := EntryWasMade(cfg, calls, e);
    KeysTell(calls[k].lookup, l);
  }
}
