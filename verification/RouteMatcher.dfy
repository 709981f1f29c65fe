/** The route matcher: registration by id over the trie, and the choice of the best route for a request. */
module RouteMatcher {
  import opened Prelude
  import opened TrieSpec
  import opened TrieStore
  import opened RouteTable
  import Upstreams
  import Versions

  /** The comparator of the final sort: more literals, then higher priority, then earlier registration. */
  predicate Precedes(a: Reg, b: Reg) {
    a.literalCount > b.literalCount ||
    (a.literalCount == b.literalCount &&
     (a.route.priority > b.route.priority || (a.route.priority == b.route.priority && a.order < b.order)))
  }

  predicate First(cs: seq<Hit>, c: Hit) {
    c in cs && forall d :: d in cs ==> d.item == c.item || Precedes(c.item, d.item)
  }

  /** Registration numbers tell the routes apart, so a sort by `Precedes` has one possible first element. */
  ghost predicate Numbered(cs: seq<Hit>) {
    forall c, d :: c in cs && d in cs && c.item.order == d.item.order ==> c.item == d.item
  }

  lemma {:induction false} FirstExists(cs: seq<Hit>)
    requires cs != [] && Numbered(cs)
    ensures exists c :: First(cs, c)
  {
    var last := cs[|cs| - 1];
    if |cs| == 1 {
      assert First(cs, last);
    } else {
      var front := cs[..|cs| - 1];
      FirstExists(front);
      var c :| First(front, c);
      assert forall d :: d in cs <==> d in front || d == last;
      assert First(cs, if Precedes(last.item, c.item) then last else c);
    }
  }

  /** The version a request asks for; which header names it depends on the route's constraint. */
  type Asked = Option<Versions.Constraint> -> Option<seq<string>>

  function Fits(num: Versions.Reading, asked: Asked): Route -> bool {
    (r: Route) => Versions.Satisfies(num, asked(r.version), r.version)
  }

  /** No method listed means every method. */
  predicate Admits(r: Route, verb: string, versionFits: Route -> bool) {
    (r.methods == [] || verb in r.methods) && versionFits(r)
  }

  function Admitted(cs: seq<Hit>, verb: string, versionFits: Route -> bool): (r: seq<Hit>)
    ensures forall c :: c in r <==> c in cs && Admits(c.item.route, verb, versionFits)
  {
    if cs == [] then []
    else
      var front := Admitted(cs[..|cs| - 1], verb, versionFits);
      if Admits(cs[|cs| - 1].item.route, verb, versionFits) then front + [cs[|cs| - 1]] else front
  }

  /** The routes a linear scan over all registered patterns would keep for this request. */
  ghost predicate Scanned(regs: map<string, Reg>, path: seq<string>, verb: string, versionFits: Route -> bool, r: Reg) {
    Registered(regs, r) && Match(ShapeOfReg(r), path) && Admits(r.route, verb, versionFits)
  }

  lemma {:induction false} AdmittedIsScanned(
    table: Routes, regs: map<string, Reg>, path: seq<string>, verb: string, versionFits: Route -> bool, r: Reg)
    requires Consistent(table, regs)
    ensures Yields(Admitted(Found(table, [], path, map[]), verb, versionFits), r) <==>
            Scanned(regs, path, verb, versionFits, r)
  {
    var all := Found(table, [], path, map[]);
    var kept := Admitted(all, verb, versionFits);
    FoundExactly(table, regs, [], path, map[], r);
    assert Remains(r, []) == ShapeOfReg(r);
    AdmittedYields(all, verb, versionFits, r);
  }

  lemma {:induction false} AdmittedYields(all: seq<Hit>, verb: string, versionFits: Route -> bool, r: Reg)
    ensures Yields(Admitted(all, verb, versionFits), r) <==> Yields(all, r) && Admits(r.route, verb, versionFits)
  {
    var kept := Admitted(all, verb, versionFits);
    if Yields(kept, r) {
      var i :| 0 <= i < |kept| && kept[i].item == r;
      assert kept[i] in all;
      var k :| 0 <= k < |all| && all[k] == kept[i];
    }
    if Yields(all, r) && Admits(r.route, verb, versionFits) {
      var i :| 0 <= i < |all| && all[i].item == r;
      assert all[i] in kept;
      var k :| 0 <= k < |kept| && kept[k] == all[i];
    }
  }

  /** The best of the candidates is the best of the routes a linear scan keeps. */
  lemma {:induction false} FirstIsBest(
    table: Routes, regs: map<string, Reg>, next: nat, path: seq<string>, verb: string, versionFits: Route -> bool,
    c: Hit)
    requires Consistent(table, regs) && InOrder(regs, next)
    requires First(Admitted(Found(table, [], path, map[]), verb, versionFits), c)
    ensures Best(regs, path, verb, versionFits, c.item)
    ensures c.params == Captured(table, [], ShapeOfReg(c.item), path, map[])
  {
    var kept := Admitted(Found(table, [], path, map[]), verb, versionFits);
    var k :| 0 <= k < |kept| && kept[k] == c;
    AdmittedIsScanned(table, regs, path, verb, versionFits, c.item);
    forall r | Scanned(regs, path, verb, versionFits, r) && r != c.item ensures Precedes(c.item, r) {
      AdmittedIsScanned(table, regs, path, verb, versionFits, r);
      var i :| 0 <= i < |kept| && kept[i].item == r;
      assert kept[i] in kept;
    }
    FoundCaptures(table, regs, [], path, map[], c);
    assert Remains(c.item, []) == ShapeOfReg(c.item);
  }

  lemma {:induction false} KeptAreNumbered(
    table: Routes, regs: map<string, Reg>, next: nat, path: seq<string>, verb: string, versionFits: Route -> bool)
    requires Consistent(table, regs) && InOrder(regs, next)
    ensures Numbered(Admitted(Found(table, [], path, map[]), verb, versionFits))
  {
    var kept := Admitted(Found(table, [], path, map[]), verb, versionFits);
    forall c | c in kept ensures Registered(regs, c.item) {
      var i :| 0 <= i < |kept| && kept[i] == c;
      AdmittedIsScanned(table, regs, path, verb, versionFits, c.item);
    }
  }

  /** The one winner a linear scan over the registered routes would choose. */
  ghost predicate Best(regs: map<string, Reg>, path: seq<string>, verb: string, versionFits: Route -> bool, r: Reg) {
    Scanned(regs, path, verb, versionFits, r) &&
    forall other :: Scanned(regs, path, verb, versionFits, other) && other != r ==> Precedes(r, other)
  }

  /** Where a route's pattern has literals. */
  function LiteralsAt(r: Reg): set<nat> {
    LiteralsIn(ParsePattern(r.route.pattern))
  }

  function LiteralsIn(segments: seq<Segment>): set<nat> {
    set i | 0 <= i < |segments| && segments[i].Literal?
  }

  lemma {:induction false} LiteralsCounted(segments: seq<Segment>)
    ensures |LiteralsIn(segments)| == Literals(segments)
  {
    if segments != [] {
      var n := |segments| - 1;
      LiteralsCounted(segments[..n]);
      if segments[n].Literal? {
        assert LiteralsIn(segments) == LiteralsIn(segments[..n]) + {n};
      } else {
        assert LiteralsIn(segments) == LiteralsIn(segments[..n]);
      }
    }
  }

  /** A registered route that the request fits: path as the pattern says, method listed or none, version. */
  ghost predicate Eligible(
    regs: map<string, Reg>, path: seq<string>, verb: string, versionFits: Route -> bool, r: Reg) {
    var pattern := r.route.pattern;
    r.route.id in regs && regs[r.route.id] == r && versionFits(r.route) &&
    (|r.route.methods| == 0 || exists i :: 0 <= i < |r.route.methods| && r.route.methods[i] == verb) &&
    (forall i :: 0 <= i < |pattern| - 1 ==> pattern[i] != "*") && Says(pattern, path)
  }

  lemma EligibleIsScanned(
    regs: map<string, Reg>, path: seq<string>, verb: string, versionFits: Route -> bool, r: Reg)
    ensures Eligible(regs, path, verb, versionFits, r) <==> Scanned(regs, path, verb, versionFits, r)
  {
    MatchIsSaid(r.route.pattern, path);
  }

  /**
   The winner fits the request, and of the other routes that do none has more literals; none with as many has a
   higher priority; and none with both the same was registered earlier.
   */
  lemma WinnerStandsOut(
    regs: map<string, Reg>, next: nat, path: seq<string>, verb: string, versionFits: Route -> bool, r: Reg, other: Reg)
    requires InOrder(regs, next) && Best(regs, path, verb, versionFits, r)
    requires Eligible(regs, path, verb, versionFits, other)
    ensures Eligible(regs, path, verb, versionFits, r) && |LiteralsAt(other)| <= |LiteralsAt(r)|
    ensures |LiteralsAt(other)| == |LiteralsAt(r)| ==> other.route.priority <= r.route.priority
    ensures |LiteralsAt(other)| == |LiteralsAt(r)| && other.route.priority == r.route.priority && other != r ==>
              r.order < other.order
  {
    EligibleIsScanned(regs, path, verb, versionFits, r);
    EligibleIsScanned(regs, path, verb, versionFits, other);
    LiteralsCounted(ParsePattern(r.route.pattern));
    LiteralsCounted(ParsePattern(other.route.pattern));
  }

  lemma BestIsUnique(
    regs: map<string, Reg>, path: seq<string>, verb: string, versionFits: Route -> bool, a: Reg, b: Reg)
    requires Best(regs, path, verb, versionFits, a) && Best(regs, path, verb, versionFits, b)
    ensures a == b
  {
    assert !(Precedes(a, b) && Precedes(b, a));
  }

  /** Every route has its own registration number, below `next`, and its literals counted. */
  ghost predicate InOrder(regs: map<string, Reg>, next: nat) {
    (forall id :: id in regs ==> regs[id].order < next && regs[id] == NewReg(regs[id].route, regs[id].order)) &&
    forall a, b :: a in regs && b in regs && regs[a].order == regs[b].order ==> a == b
  }

  lemma RemoveKeepsOrder(regs: map<string, Reg>, next: nat, id: string)
    requires InOrder(regs, next)
    ensures InOrder(regs - {id}, next)
  {
  }

  lemma AddKeepsOrder(regs: map<string, Reg>, next: nat, route: Route)
    requires InOrder(regs, next)
    ensures InOrder(regs[route.id := NewReg(route, next)], next + 1)
  {
  }

  /** Table and routes say the same. */
  ghost predicate Tidy(table: Routes, regs: map<string, Reg>, next: nat) {
    [] in table && Consistent(table, regs) && InOrder(regs, next)
  }

  lemma DroppedIsTidy(table: Routes, regs: map<string, Reg>, next: nat, id: string)
    requires Tidy(table, regs, next) && id in regs
    ensures ShapeOfReg(regs[id]) in table
    ensures var t := Removed(table, ShapeOfReg(regs[id]), id);
            t == Unfiled(table, regs, id) && Tidy(t, regs - {id}, next)
  {
    UnfiledKeepsConsistent(table, regs, id);
    RemoveKeepsOrder(regs, next, id);
  }

  lemma AddedIsTidy(table: Routes, regs: map<string, Reg>, next: nat, route: Route)
    requires Tidy(table, regs, next) && route.id !in regs
    ensures var r := NewReg(route, next); Tidy(Filing(table, r), regs[route.id := r], next + 1)
  {
    FilingKeepsConsistent(table, regs, NewReg(route, next));
    AddKeepsOrder(regs, next, route);
  }

  class RouteMatcher {
    const trie: Trie<string, string, Reg>
    var routes: map<string, Reg>
    var nextOrder: nat

    constructor ()
      ensures Valid() && fresh(trie) && fresh(trie.nodes.Values) && routes == map[]
    {
      trie := new Trie("");
      routes, nextOrder := map[], 0;
      new;
    }

    ghost predicate Valid()
      reads this, trie, trie.nodes.Values
    {
      trie.Linked() && Tidy(trie.table, routes, nextOrder)
    }

    /** The trie half of `Unregister`. */
    method Unfile(shape: Shape, id: string)
      requires trie.Linked() && shape in trie.nodes
      modifies trie`table, trie.nodes.Values`items
      ensures trie.Linked()
      ensures shape in old(trie.table) && trie.table == Removed(old(trie.table), shape, id)
    {
      var node := trie.Walk(shape);
      trie.SetItems(node, Without(node.items, id), shape);
    }

    /** The trie half of `Register`. */
    method File(segments: seq<Segment>, reg: Reg)
      requires trie.Linked() && segments == ParsePattern(reg.route.pattern)
      modifies trie`nodes, trie`table, trie.nodes.Values`items, trie.nodes.Values`literal, trie.nodes.Values`param,
               trie.nodes.Values`wildcard
      ensures trie.Linked() && forall o :: o in trie.nodes.Values ==> fresh(o) || o in old(trie.nodes.Values)
      ensures trie.table == Filing(old(trie.table), reg)
    {
      var node := trie.Plant(ShapeOf(segments), NamesOf(segments));
      trie.SetItems(node, node.items + [reg], ShapeOf(segments));
    }

    /** Takes the route of `id` out of its node and out of the map. */
    method TakeOff(id: string)
      requires trie.Linked() && id in routes && ShapeOfReg(routes[id]) in trie.nodes
      modifies this`routes, trie`table, trie.nodes.Values`items
      ensures trie.Linked() && routes == old(routes) - {id}
      ensures ShapeOfReg(old(routes)[id]) in old(trie.table)
      ensures trie.table == Removed(old(trie.table), ShapeOfReg(old(routes)[id]), id)
    {
      var reg := routes[id];
      routes := routes - {id};
      Unfile(ShapeOfReg(reg), id);
    }

    method Drop(id: string)
      requires Valid() && id in routes
      modifies this`routes, trie`table, trie.nodes.Values`items
      ensures Valid() && routes == old(routes) - {id}
      ensures trie.table == Unfiled(old(trie.table), old(routes), id)
    {
      ghost var table, left := Unfiled(trie.table, routes, id), routes - {id};
      DroppedIsTidy(trie.table, routes, nextOrder, id);
      assert Tidy(table, left, nextOrder);
      TakeOff(id);
      assert trie.table == table && routes == left;
    }

    /** Removes the route registered under `id`; its nodes stay. */
    method Unregister(id: string) returns (existed: bool)
      requires Valid()
      modifies this`routes, trie`table, trie.nodes.Values`items
      ensures Valid() && existed == (id in old(routes)) && routes == old(routes) - {id}
      ensures trie.table == Unfiled(old(trie.table), old(routes), id)
    {
      existed := id in routes;
      if existed {
        Drop(id);
      } else {
        NoneToRemove(routes, id);
      }
    }

    method Add(route: Route)
      requires Valid() && route.id !in routes
      modifies this`routes, this`nextOrder, trie`nodes, trie`table, trie.nodes.Values`items,
               trie.nodes.Values`literal, trie.nodes.Values`param, trie.nodes.Values`wildcard
      ensures Valid() && forall o :: o in trie.nodes.Values ==> fresh(o) || o in old(trie.nodes.Values)
      ensures routes == old(routes)[route.id := NewReg(route, old(nextOrder))] && nextOrder == old(nextOrder) + 1
      ensures trie.table == Filing(old(trie.table), NewReg(route, old(nextOrder)))
    {
      var segments := ParsePattern(route.pattern);
      var reg := Reg(route, Literals(segments), nextOrder);
      AddedIsTidy(trie.table, routes, nextOrder, route);
      nextOrder := nextOrder + 1;
      routes := routes[route.id := reg];
      File(segments, reg);
    }

    /** Registers a route, replacing the one with its id. */
    method Register(route: Route)
      requires Valid()
      modifies this`routes, this`nextOrder, trie`nodes, trie`table, trie.nodes.Values`items,
               trie.nodes.Values`literal, trie.nodes.Values`param, trie.nodes.Values`wildcard
      ensures Valid() && forall o :: o in trie.nodes.Values ==> fresh(o) || o in old(trie.nodes.Values)
      ensures nextOrder == old(nextOrder) + 1
      ensures routes == (old(routes) - {route.id})[route.id := NewReg(route, old(nextOrder))]
      ensures trie.table == Filing(Unfiled(old(trie.table), old(routes), route.id), NewReg(route, old(nextOrder)))
    {
      ghost var order := nextOrder;
      var _ := Unregister(route.id);
      ghost var cleared, left := trie.table, routes;
      Add(route);
      assert routes == left[route.id := NewReg(route, order)] && trie.table == Filing(cleared, NewReg(route, order));
    }

    /** The route for a request: the best of those that match its path, method and version. */
    method Resolve(path: seq<string>, verb: string, versionFits: Route -> bool) returns (winner: Option<Hit>)
      requires Valid()
      ensures winner == None <==> forall r :: !Scanned(routes, path, verb, versionFits, r)
      ensures winner.Some? ==> Best(routes, path, verb, versionFits, winner.value.item)
      ensures winner.Some? ==>
                winner.value.params == Captured(trie.table, [], ShapeOfReg(winner.value.item), path, map[])
    {
      var candidates := trie.Collect(trie.root, path, 0, map[], [], []);
      assert path[0..] == path;
      var kept := Admitted(candidates, verb, versionFits);
      if kept == [] {
        forall r ensures !Scanned(routes, path, verb, versionFits, r) {
          AdmittedIsScanned(trie.table, routes, path, verb, versionFits, r);
        }
        return None;
      }
      KeptAreNumbered(trie.table, routes, nextOrder, path, verb, versionFits);
      FirstExists(kept);
      var first :| First(kept, first);
      FirstIsBest(trie.table, routes, nextOrder, path, verb, versionFits, first);
      winner := Some(first);
    }

    /** The answer to a request; nothing too when the best route has no upstream. */
    method MatchRequest(
      path: seq<string>, verb: string, num: Versions.Reading, asked: Asked, rules: Option<Upstreams.Rules>,
      caller: Upstreams.Caller, roll: real, draw: real) returns (m: Option<RouteMatch>)
      requires Valid() && 0.0 <= draw < 1.0
      ensures m == None <==>
              forall r :: Best(routes, path, verb, Fits(num, asked), r) ==> r.route.upstreams == []
      ensures m.Some? ==>
                var r := m.value.reg;
                Best(routes, path, verb, Fits(num, asked), r) &&
                m.value.params == Captured(trie.table, [], ShapeOfReg(r), path, map[]) &&
                m.value.apiVersion == asked(r.route.version) &&
                Chosen(r.route.upstreams, Upstreams.WantsCanary(rules, caller, roll), draw, m.value.upstream)
    {
      var winner := Resolve(path, verb, Fits(num, asked));
      if winner == None {
        return None;
      }
      var r := winner.value.item;
      forall other | Best(routes, path, verb, Fits(num, asked), other) ensures other == r {
        BestIsUnique(routes, path, verb, Fits(num, asked), other, r);
      }
      var up := Upstreams.Select(r.route.upstreams, rules, caller, roll, draw);
      if up == None {
        return None;
      }
      m := Some(RouteMatch(r, winner.value.params, asked(r.route.version), up.value));
    }
  }

  datatype RouteMatch = RouteMatch(
    reg: Reg, params: Params, apiVersion: Option<seq<string>>, upstream: Upstreams.Upstream)

  /** The only upstream, or one of the pool that the draw falls on. */
  ghost predicate Chosen(ups: seq<Upstreams.Upstream>, wanted: bool, draw: real, u: Upstreams.Upstream) {
    if |ups| <= 1 then ups == [u]
    else
      var pool := Upstreams.Pool(ups, wanted);
      exists k :: 0 <= k < |pool| && Upstreams.FallsOn(pool, draw, k) && u == pool[k]
  }

  /** A canary is chosen exactly when one is wanted and there is one, or when there is nothing else. */
  lemma ChosenKind(ups: seq<Upstreams.Upstream>, wanted: bool, draw: real, u: Upstreams.Upstream)
    requires Chosen(ups, wanted, draw, u) && |ups| > 1
    ensures u in ups
    ensures u.canary <==> Upstreams.HasKind(ups, true) && (wanted || !Upstreams.HasKind(ups, false))
  {
    Upstreams.PoolIs(ups, wanted);
  }
}
