/**
 Route patterns and what the trie has to find, without the trie.

 A table maps the shape of a pattern prefix to the routes whose pattern ends there.  `Found` walks it as
 the trie is walked; `FoundExactly` says the walk yields every registered route whose pattern matches
 the path, once, and nothing else.
 */
module RouteTable {
  import opened Prelude
  import opened TrieSpec
  import Upstreams
  import Versions

  datatype Segment = Literal(text: string) | Param(name: string) | Wildcard

  /** A pattern with the parameter names forgotten: the branches it takes in the trie. */
  type Step = Edge<string>
  type Shape = seq<Step>

  datatype Route = Route(
    id: string, pattern: seq<string>, methods: seq<string>, priority: int,
    version: Option<Versions.Constraint>, upstreams: seq<Upstreams.Upstream>)
  datatype Reg = Reg(route: Route, literalCount: nat, order: nat)

  /** One raw pattern segment; the pattern is already split at its slashes. */
  function ParseSegment(raw: string): Segment {
    if raw == "*" then Wildcard
    else if |raw| > 0 && raw[0] == ':' then Param(raw[1..])
    else if |raw| > 1 && raw[0] == '{' && raw[|raw| - 1] == '}' then Param(raw[1..|raw| - 1])
    else Literal(raw)
  }

  function ParsePattern(pattern: seq<string>): (r: seq<Segment>)
    ensures |r| == |pattern|
  {
    seq(|pattern|, i requires 0 <= i < |pattern| => ParseSegment(pattern[i]))
  }

  function EdgeOf(s: Segment): Step {
    match s
    case Literal(t) => Lit(t)
    case Param(_) => Par
    case Wildcard => Wild
  }

  function ShapeOf(segments: seq<Segment>): (r: Shape)
    ensures |r| == |segments|
  {
    seq(|segments|, i requires 0 <= i < |segments| => EdgeOf(segments[i]))
  }

  function ShapeOfReg(r: Reg): Shape {
    ShapeOf(ParsePattern(r.route.pattern))
  }

  function NameOf(s: Segment): string {
    if s.Param? then s.name else ""
  }

  function Literals(segments: seq<Segment>): nat {
    if segments == [] then 0
    else Literals(segments[..|segments| - 1]) + if segments[|segments| - 1].Literal? then 1 else 0
  }

  // ---------------------------------------------------------------- matching one pattern

  /** What the documentation promises: a literal matches itself, a parameter one segment, `*` zero or more. */
  ghost predicate DocMatch(t: Shape, path: seq<string>)
    decreases |t|
  {
    if t == [] then path == []
    else
      match t[0]
      case Lit(s) => path != [] && path[0] == s && DocMatch(t[1..], path[1..])
      case Par => path != [] && DocMatch(t[1..], path[1..])
      case Wild => exists k :: 0 <= k <= |path| && DocMatch(t[1..], path[k..])
  }

  /** What the trie walk does: `*` swallows the rest of the path, and nothing is looked for below it. */
  predicate Match(t: Shape, path: seq<string>)
    decreases |t|
  {
    if t == [] then path == []
    else if t[0] == Wild then |t| == 1
    else path != [] && (t[0] == Par || t[0] == Lit(path[0])) && Match(t[1..], path[1..])
  }

  predicate WildOnlyLast(t: Shape) {
    forall i :: 0 <= i < |t| - 1 ==> t[i] != Wild
  }

  /** The walk meets the documentation exactly on the patterns whose only `*` is their last segment. */
  lemma {:induction false} MatchMeetsDoc(t: Shape, path: seq<string>)
    ensures Match(t, path) <==> WildOnlyLast(t) && DocMatch(t, path)
    decreases |t|
  {
    if t != [] {
      if t[0] == Wild {
        if |t| == 1 {
          assert DocMatch(t[1..], path[|path|..]);
        }
      } else if path != [] {
        MatchMeetsDoc(t[1..], path[1..]);
        if WildOnlyLast(t[1..]) && |t| > 1 {
          assert forall i :: 0 < i < |t| - 1 ==> t[i] == t[1..][i - 1];
        }
        if WildOnlyLast(t) {
          assert WildOnlyLast(t[1..]);
        }
      }
    }
  }

  /** A `*` before the end makes a pattern the documentation matches and the trie never finds. */
  lemma MidWildcardIsLost()
    ensures DocMatch([Wild, Lit("b")], ["a", "b"]) && !Match([Wild, Lit("b")], ["a", "b"])
  {
    var t: Shape := [Wild, Lit("b")];
    var p := ["a", "b"];
    assert t[1..] == [Lit("b")] && p[1..] == ["b"];
    assert t[1..][1..] == [] && p[1..][1..] == [];
    assert DocMatch(t[1..], p[1..]);
  }

  // ---------------------------------------------------------------- patterns as they are written

  /** A raw segment that names a parameter: after a colon, or in braces. */
  ghost predicate Named(raw: string, name: string) {
    raw == [':'] + name || raw == ['{'] + name + ['}']
  }

  /** What the raw segments say of a path: `*` is any rest, a name is any one segment, other text is itself. */
  ghost predicate Says(pattern: seq<string>, path: seq<string>)
    decreases |pattern|
  {
    if pattern == [] then path == []
    else if pattern[0] == "*" then exists k :: 0 <= k <= |path| && Says(pattern[1..], path[k..])
    else
      path != [] && ((exists name :: Named(pattern[0], name)) || path[0] == pattern[0]) && Says(pattern[1..], path[1..])
  }

  /** How a segment is read; a name in braces after a colon keeps its braces. */
  lemma SegmentIs(raw: string, name: string)
    ensures ParseSegment(raw) == Wildcard <==> raw == "*"
    ensures ParseSegment(raw).Param? <==> exists n :: Named(raw, n)
    ensures ParseSegment([':'] + name) == Param(name) == ParseSegment(['{'] + name + ['}'])
    ensures ParseSegment(raw) == Literal(name) ==> raw == name
  {
    var braces := ['{'] + name + ['}'];
    assert ([':'] + name)[1..] == name && braces[1..|braces| - 1] == name;
    assert [':'] + name != "*" && braces != "*" by {
      assert ([':'] + name)[0] == ':' && braces[0] == '{' && "*"[0] == '*';
    }
    if ParseSegment(raw).Param? {
      var n := ParseSegment(raw).name;
      assert raw == if raw[0] == ':' then [':'] + n else ['{'] + n + ['}'];
      assert Named(raw, n);
    }
  }

  lemma {:induction false} SaysIsDocMatch(pattern: seq<string>, path: seq<string>)
    ensures Says(pattern, path) <==> DocMatch(ShapeOf(ParsePattern(pattern)), path)
    decreases |pattern|
  {
    if pattern != [] {
      var t := ShapeOf(ParsePattern(pattern));
      assert t[1..] == ShapeOf(ParsePattern(pattern[1..]));
      SegmentIs(pattern[0], pattern[0]);
      if pattern[0] == "*" {
        forall k | 0 <= k <= |path| ensures Says(pattern[1..], path[k..]) <==> DocMatch(t[1..], path[k..]) {
          SaysIsDocMatch(pattern[1..], path[k..]);
        }
      } else if path != [] {
        SaysIsDocMatch(pattern[1..], path[1..]);
      }
    }
  }

  /** A route is walked to exactly when its pattern, with no `*` before its end, says the path. */
  lemma MatchIsSaid(pattern: seq<string>, path: seq<string>)
    ensures Match(ShapeOf(ParsePattern(pattern)), path) <==>
            (forall i :: 0 <= i < |pattern| - 1 ==> pattern[i] != "*") && Says(pattern, path)
  {
    var t := ShapeOf(ParsePattern(pattern));
    MatchMeetsDoc(t, path);
    SaysIsDocMatch(pattern, path);
    forall i | 0 <= i < |pattern| ensures t[i] == Wild <==> pattern[i] == "*" {
      SegmentIs(pattern[i], pattern[i]);
    }
  }

  // ---------------------------------------------------------------- the table

  type Routes = Table<string, string, Reg>
  type Params = map<string, string>
  type Hit = Candidate<Reg, Params>

  ghost predicate Under(r: Reg, p: Shape) {
    p <= ShapeOfReg(r)
  }

  /** The table holds exactly the registered routes, each under the shape of its pattern. */
  ghost predicate Consistent(table: Routes, regs: map<string, Reg>) {
    NoneTwice(table) && OnlyRegistered(table, regs) && AllFiled(table, regs) && PrefixClosed(table.Keys)
  }

  ghost predicate NoneTwice(table: Routes) {
    forall p :: p in table ==> Distinct(table[p].items)
  }

  ghost predicate OnlyRegistered(table: Routes, regs: map<string, Reg>) {
    forall p, r :: p in table && r in table[p].items ==>
      ShapeOfReg(r) == p && r.route.id in regs && regs[r.route.id] == r
  }

  ghost predicate AllFiled(table: Routes, regs: map<string, Reg>) {
    forall id :: id in regs ==> Filed(table, regs[id]) && regs[id].route.id == id
  }

  ghost predicate Filed(table: Routes, r: Reg) {
    ShapeOfReg(r) in table && r in table[ShapeOfReg(r)].items
  }

  ghost predicate Yields(cs: seq<Hit>, r: Reg) {
    exists i :: 0 <= i < |cs| && cs[i].item == r
  }

  lemma OfferedYields(routes: seq<Reg>, params: Params, r: Reg)
    ensures Yields(Offered(routes, params), r) <==> r in routes
  {
    if r in routes {
      var i :| 0 <= i < |routes| && routes[i] == r;
      assert Offered(routes, params)[i].item == r;
    }
  }

  lemma AppendYields(a: seq<Hit>, b: seq<Hit>, r: Reg)
    ensures Yields(a + b, r) <==> Yields(a, r) || Yields(b, r)
  {
    if i :| 0 <= i < |a| && a[i].item == r {
      assert (a + b)[i].item == r;
    } else if i :| 0 <= i < |b| && b[i].item == r {
      assert (a + b)[|a| + i].item == r;
    }
  }

  /** The rest of a registered route's shape below `p`. */
  ghost function Remains(r: Reg, p: Shape): Shape
    requires Under(r, p)
  {
    ShapeOfReg(r)[|p|..]
  }

  ghost predicate Registered(regs: map<string, Reg>, r: Reg) {
    r.route.id in regs && regs[r.route.id] == r
  }

  ghost predicate Expected(regs: map<string, Reg>, p: Shape, path: seq<string>, r: Reg) {
    Registered(regs, r) && Under(r, p) && Match(Remains(r, p), path)
  }

  /** The routes filed at `p` are the registered ones whose shape is `p`. */
  lemma FiledAt(table: Routes, regs: map<string, Reg>, p: Shape, r: Reg)
    requires Consistent(table, regs)
    ensures r in ItemsAt(table, p) <==> Registered(regs, r) && ShapeOfReg(r) == p
  {
    if Registered(regs, r) && ShapeOfReg(r) == p {
      assert Filed(table, regs[r.route.id]);
    }
  }

  /** A route whose shape goes on from `p` by edge `e` has a spot for that branch. */
  lemma BranchExists(table: Routes, regs: map<string, Reg>, p: Shape, e: Step, r: Reg)
    requires Consistent(table, regs) && Registered(regs, r) && Under(r, p + [e])
    ensures p + [e] in table
  {
    assert Filed(table, regs[r.route.id]);
    PrefixIn(table.Keys, ShapeOfReg(r), |p| + 1);
    assert ShapeOfReg(r)[..|p| + 1] == p + [e];
  }

  lemma StepDown(r: Reg, p: Shape, e: Step)
    ensures Under(r, p + [e]) <==> Under(r, p) && Remains(r, p) != [] && Remains(r, p)[0] == e
    ensures Under(r, p + [e]) ==> Remains(r, p)[1..] == Remains(r, p + [e])
  {
    if Under(r, p) && Remains(r, p) != [] && Remains(r, p)[0] == e {
      assert ShapeOfReg(r)[..|p| + 1] == p + [e];
    }
    if Under(r, p + [e]) {
      assert ShapeOfReg(r)[..|p|] == (p + [e])[..|p|] == p;
    }
  }

  /** The wildcard offer: routes ending in `*` right below `p`. */
  lemma WildOffer(table: Routes, regs: map<string, Reg>, p: Shape, path: seq<string>, params: Params, r: Reg)
    requires Consistent(table, regs)
    ensures Yields(Offered(ItemsAt(table, p + [Wild]), params), r) <==>
            Expected(regs, p, path, r) && Remains(r, p) == [Wild]
  {
    OfferedYields(ItemsAt(table, p + [Wild]), params, r);
    FiledAt(table, regs, p + [Wild], r);
    StepDown(r, p, Wild);
    if Under(r, p) && Remains(r, p) == [Wild] {
      assert ShapeOfReg(r) == p + [Wild];
    }
  }

  /** The offer at the end of the path: routes ending at `p`. */
  lemma EndOffer(table: Routes, regs: map<string, Reg>, p: Shape, params: Params, r: Reg)
    requires Consistent(table, regs)
    ensures Yields(Offered(ItemsAt(table, p), params), r) <==> Expected(regs, p, [], r) && Remains(r, p) == []
  {
    OfferedYields(ItemsAt(table, p), params, r);
    FiledAt(table, regs, p, r);
    if Under(r, p) && Remains(r, p) == [] {
      assert ShapeOfReg(r) == p;
    }
  }

  /** What one branch contributes. */
  function Branch(table: Routes, p: Shape, e: Step, path: seq<string>, params: Params): seq<Hit>
  {
    if p + [e] in table then Found(table, p + [e], path, params) else []
  }

  lemma {:induction false} BranchExactly(
    table: Routes, regs: map<string, Reg>, p: Shape, e: Step, path: seq<string>, params: Params, r: Reg)
    requires Consistent(table, regs) && path != [] && (e == Par || e == Lit(path[0]))
    requires Yields(Found(table, p + [e], path[1..], params), r) <==> Expected(regs, p + [e], path[1..], r)
    ensures Yields(Branch(table, p, e, path[1..], params), r) <==>
            Expected(regs, p, path, r) && Remains(r, p) != [] && Remains(r, p)[0] == e
  {
    StepDown(r, p, e);
    if Registered(regs, r) && Under(r, p + [e]) {
      BranchExists(table, regs, p, e, r);
    }
  }

  /**
   From any spot, the walk yields the registered routes whose remaining shape matches the remaining path, and
   no others.
   */
  lemma {:induction false} FoundExactly(
    table: Routes, regs: map<string, Reg>, p: Shape, path: seq<string>, params: Params, r: Reg)
    requires Consistent(table, regs)
    ensures Yields(Found(table, p, path, params), r) <==> Expected(regs, p, path, r)
    decreases |path|
  {
    var wild := Offered(ItemsAt(table, p + [Wild]), params);
    WildOffer(table, regs, p, path, params, r);
    if path == [] {
      var here := Offered(ItemsAt(table, p), params);
      EndOffer(table, regs, p, params, r);
      AppendYields(wild, here, r);
    } else {
      var lit := Branch(table, p, Lit(path[0]), path[1..], params);
      var named := params[if p + [Par] in table then table[p + [Par]].name else "" := path[0]];
      var par := Branch(table, p, Par, path[1..], named);
      FoundExactly(table, regs, p + [Lit(path[0])], path[1..], params, r);
      BranchExactly(table, regs, p, Lit(path[0]), path, params, r);
      FoundExactly(table, regs, p + [Par], path[1..], named, r);
      BranchExactly(table, regs, p, Par, path, named, r);
      assert Found(table, p, path, params) == wild + (lit + par);
      AppendYields(wild, lit + par, r);
      AppendYields(lit, par, r);
    }
  }

  ghost predicate Once(cs: seq<Hit>) {
    forall i, j :: 0 <= i < j < |cs| ==> cs[i].item != cs[j].item
  }

  lemma OnceAppend(a: seq<Hit>, b: seq<Hit>)
    requires Once(a) && Once(b) && forall r :: Yields(a, r) ==> !Yields(b, r)
    ensures Once(a + b)
  {
    forall i, j | 0 <= i < j < |a + b| ensures (a + b)[i].item != (a + b)[j].item {
      if i < |a| <= j {
        assert Yields(a, a[i].item);
        assert b[j - |a|].item == (a + b)[j].item;
        assert (a + b)[i] == a[i];
      }
    }
  }

  /** And it yields each of them once. */
  lemma {:induction false} FoundOnce(table: Routes, regs: map<string, Reg>, p: Shape, path: seq<string>, params: Params)
    requires Consistent(table, regs)
    ensures Once(Found(table, p, path, params))
    decreases |path|
  {
    var wild := Offered(ItemsAt(table, p + [Wild]), params);
    var rest: seq<Hit>;
    if path == [] {
      rest := Offered(ItemsAt(table, p), params);
      forall r | Yields(wild, r) ensures !Yields(rest, r) {
        WildOffer(table, regs, p, path, params, r);
        EndOffer(table, regs, p, params, r);
      }
    } else {
      var lit := Branch(table, p, Lit(path[0]), path[1..], params);
      var named := params[if p + [Par] in table then table[p + [Par]].name else "" := path[0]];
      var par := Branch(table, p, Par, path[1..], named);
      FoundOnce(table, regs, p + [Lit(path[0])], path[1..], params);
      FoundOnce(table, regs, p + [Par], path[1..], named);
      forall r
        ensures Yields(wild, r) ==> Remains(r, p) == [Wild]
        ensures Yields(lit, r) ==> Under(r, p) && Remains(r, p) != [] && Remains(r, p)[0] == Lit(path[0])
        ensures Yields(par, r) ==> Under(r, p) && Remains(r, p) != [] && Remains(r, p)[0] == Par
      {
        WildOffer(table, regs, p, path, params, r);
        FoundExactly(table, regs, p + [Lit(path[0])], path[1..], params, r);
        BranchExactly(table, regs, p, Lit(path[0]), path, params, r);
        FoundExactly(table, regs, p + [Par], path[1..], named, r);
        BranchExactly(table, regs, p, Par, path, named, r);
      }
      OnceAppend(lit, par);
      rest := lit + par;
      forall r | Yields(wild, r) ensures !Yields(rest, r) {
        AppendYields(lit, par, r);
      }
    }
    OnceAppend(wild, rest);
    assert Found(table, p, path, params) == wild + rest;
  }

  // ---------------------------------------------------------------- captured parameters

  /** The path segments a shape captures, under the names the spots on its way carry. */
  function Captured(table: Routes, p: Shape, t: Shape, path: seq<string>, params: Params): Params
    decreases |t|
  {
    if t == [] || t[0] == Wild || path == [] then params
    else
      var e := t[0];
      var more := if e == Par && p + [Par] in table then params[table[p + [Par]].name := path[0]] else params;
      Captured(table, p + [e], t[1..], path[1..], more)
  }

  /** The walk along `t` takes a parameter step at position `i`, into a node that was given this name. */
  predicate Binds(table: Routes, p: Shape, t: Shape, path: seq<string>, i: nat, name: string) {
    i < |t| && i < |path| && Wild !in t[..i] && t[i] == Par && p + t[..i + 1] in table &&
    table[p + t[..i + 1]].name == name
  }

  lemma BindsBelow(table: Routes, p: Shape, t: Shape, path: seq<string>, i: nat, name: string)
    requires t != [] && path != [] && t[0] != Wild
    ensures Binds(table, p, t, path, i + 1, name) <==> Binds(table, p + [t[0]], t[1..], path[1..], i, name)
  {
    if i + 1 < |t| {
      assert t[..i + 1] == [t[0]] + t[1..][..i];
      assert p + t[..i + 2] == p + [t[0]] + t[1..][..i + 1];
    }
  }

  /** `i` is the last position that binds the name. */
  ghost predicate BindsLast(table: Routes, p: Shape, t: Shape, path: seq<string>, i: nat, name: string) {
    Binds(table, p, t, path, i, name) && forall j: nat :: j > i ==> !Binds(table, p, t, path, j, name)
  }

  /**
   Of a name `r` holds the segment at the last position that binds it, what was there before if none does, and
   nothing if nothing was.
   */
  ghost predicate Tells(
    table: Routes, p: Shape, t: Shape, path: seq<string>, params: Params, r: Params, name: string) {
    (name in r <==> name in params || exists i: nat :: Binds(table, p, t, path, i, name)) &&
    (forall i: nat :: BindsLast(table, p, t, path, i, name) ==> name in r && r[name] == path[i]) &&
    (name in params && (forall i: nat :: !Binds(table, p, t, path, i, name)) ==> name in r && r[name] == params[name])
  }

  lemma TellsAbove(
    table: Routes, p: Shape, t: Shape, path: seq<string>, params: Params, more: Params, r: Params, name: string)
    requires t != [] && path != [] && t[0] != Wild
    requires Tells(table, p + [t[0]], t[1..], path[1..], more, r, name)
    requires if Binds(table, p, t, path, 0, name) then name in more && more[name] == path[0]
             else (name in more <==> name in params) && (name in more ==> more[name] == params[name])
    ensures Tells(table, p, t, path, params, r, name)
  {
    var q := p + [t[0]];
    forall i: nat ensures Binds(table, p, t, path, i + 1, name) <==> Binds(table, q, t[1..], path[1..], i, name) {
      BindsBelow(table, p, t, path, i, name);
    }
    forall i: nat | Binds(table, p, t, path, i, name) ensures name in r {
      if i > 0 {
        assert Binds(table, q, t[1..], path[1..], i - 1, name);
      }
    }
    if name in r && name !in more {
      var i: nat :| Binds(table, q, t[1..], path[1..], i, name);
      assert Binds(table, p, t, path, i + 1, name);
    }
    forall i: nat | BindsLast(table, p, t, path, i, name) ensures name in r && r[name] == path[i] {
      forall j: nat | j + 1 > i ensures !Binds(table, q, t[1..], path[1..], j, name) {
        assert !Binds(table, p, t, path, j + 1, name);
      }
      if i > 0 {
        assert BindsLast(table, q, t[1..], path[1..], i - 1, name);
      }
    }
    if forall i: nat :: !Binds(table, p, t, path, i, name) {
      forall j: nat ensures !Binds(table, q, t[1..], path[1..], j, name) {
        assert !Binds(table, p, t, path, j + 1, name);
      }
    }
  }

  /** Captured under a name is the segment at the last position that binds it; no other name is captured. */
  lemma {:induction false} CapturedTells(
    table: Routes, p: Shape, t: Shape, path: seq<string>, params: Params, name: string)
    ensures Tells(table, p, t, path, params, Captured(table, p, t, path, params), name)
    decreases |t|
  {
    if t == [] || t[0] == Wild || path == [] {
      forall i: nat ensures !Binds(table, p, t, path, i, name) {
        if 0 < i < |t| {
          assert t[..i][0] == t[0];
        }
      }
    } else {
      var e := t[0];
      var more := if e == Par && p + [Par] in table then params[table[p + [Par]].name := path[0]] else params;
      CapturedTells(table, p + [e], t[1..], path[1..], more, name);
      assert t[..1] == [e] && t[..0] == [];
      assert Binds(table, p, t, path, 0, name) <==> e == Par && p + [Par] in table && table[p + [Par]].name == name;
      TellsAbove(table, p, t, path, params, more, Captured(table, p, t, path, params), name);
    }
  }

  lemma OfferedParams(routes: seq<Reg>, params: Params)
    ensures forall c :: c in Offered(routes, params) ==> c.params == params && c.item in routes
  {
  }

  lemma {:induction false} FoundCaptures(
    table: Routes, regs: map<string, Reg>, p: Shape, path: seq<string>, params: Params, c: Hit)
    requires Consistent(table, regs) && c in Found(table, p, path, params)
    ensures Under(c.item, p) && c.params == Captured(table, p, Remains(c.item, p), path, params)
    decreases |path|
  {
    FoundExactly(table, regs, p, path, params, c.item);
    var cs := Found(table, p, path, params);
    var i :| 0 <= i < |cs| && cs[i] == c;
    assert Yields(cs, c.item);
    var wild := Offered(ItemsAt(table, p + [Wild]), params);
    OfferedParams(ItemsAt(table, p + [Wild]), params);
    OfferedParams(ItemsAt(table, p), params);
    if c in wild {
      FiledAt(table, regs, p + [Wild], c.item);
      StepDown(c.item, p, Wild);
    } else if path == [] {
    } else if p + [Lit(path[0])] in table && c in Found(table, p + [Lit(path[0])], path[1..], params) {
      FoundCaptures(table, regs, p + [Lit(path[0])], path[1..], params, c);
      StepDown(c.item, p, Lit(path[0]));
    } else {
      var named := params[table[p + [Par]].name := path[0]];
      FoundCaptures(table, regs, p + [Par], path[1..], named, c);
      StepDown(c.item, p, Par);
    }
  }

  // ---------------------------------------------------------------- changing the table

  /** Opening an empty spot below an existing one files nothing new. */
  lemma OpenKeepsConsistent(table: Routes, regs: map<string, Reg>, p: Shape, e: Step, name: string)
    requires Consistent(table, regs) && p in table && p + [e] !in table
    ensures Consistent(table[p + [e] := Spot(name, [])], regs)
  {
    var t := table[p + [e] := Spot(name, [])];
    AddShape(table.Keys, p, e);
    assert t.Keys == table.Keys + {p + [e]};
    forall id | id in regs ensures Filed(t, regs[id]) {
      assert Filed(table, regs[id]);
    }
  }

  lemma FileKeepsConsistent(table: Routes, regs: map<string, Reg>, r: Reg)
    requires Consistent(table, regs) && r.route.id !in regs && ShapeOfReg(r) in table
    ensures var p := ShapeOfReg(r);
            Consistent(table[p := table[p].(items := table[p].items + [r])], regs[r.route.id := r])
  {
    var p := ShapeOfReg(r);
    var t, regs' := table[p := table[p].(items := table[p].items + [r])], regs[r.route.id := r];
    forall q | q in t ensures Distinct(t[q].items) {
      if q == p && r in table[p].items {
        assert false;
      }
    }
    forall id | id in regs' ensures Filed(t, regs'[id]) && regs'[id].route.id == id {
      if id == r.route.id {
        assert t[p].items[|table[p].items|] == r;
      } else {
        assert Filed(table, regs[id]);
        var x := regs[id];
        assert x in table[ShapeOfReg(x)].items;
        if ShapeOfReg(x) == p {
          assert x in table[p].items + [r];
        }
      }
    }
  }

  function Without(routes: seq<Reg>, id: string): seq<Reg> {
    if routes == [] then []
    else
      var front := Without(routes[..|routes| - 1], id);
      if routes[|routes| - 1].route.id == id then front else front + [routes[|routes| - 1]]
  }

  lemma {:induction false} WithoutHas(routes: seq<Reg>, id: string)
    ensures forall r :: r in Without(routes, id) <==> r in routes && r.route.id != id
    ensures Distinct(routes) ==> Distinct(Without(routes, id))
  {
    if routes != [] {
      WithoutHas(routes[..|routes| - 1], id);
      assert forall r :: r in routes <==> r in routes[..|routes| - 1] || r == routes[|routes| - 1];
    }
  }

  function Removed(table: Routes, p: Shape, id: string): Routes
    requires p in table
  {
    table[p := table[p].(items := Without(table[p].items, id))]
  }

  lemma RemoveKeepsRoutes(table: Routes, regs: map<string, Reg>, id: string, q: Shape, r: Reg)
    requires Consistent(table, regs) && id in regs && ShapeOfReg(regs[id]) in table
    requires q in table && r in Removed(table, ShapeOfReg(regs[id]), id)[q].items
    ensures ShapeOfReg(r) == q && r.route.id != id && Registered(regs, r)
  {
    WithoutHas(table[q].items, id);
    assert r in table[q].items;
  }

  lemma RemoveKeepsFiled(table: Routes, regs: map<string, Reg>, id: string, x: string)
    requires Consistent(table, regs) && id in regs && ShapeOfReg(regs[id]) in table
    requires x in regs && x != id
    ensures Filed(Removed(table, ShapeOfReg(regs[id]), id), regs[x])
  {
    assert Filed(table, regs[x]);
    WithoutHas(table[ShapeOfReg(regs[x])].items, id);
  }

  lemma RemoveKeepsSingle(table: Routes, p: Shape, id: string)
    requires NoneTwice(table) && p in table
    ensures NoneTwice(Removed(table, p, id))
  {
    WithoutHas(table[p].items, id);
  }

  lemma RemoveKeepsOthers(table: Routes, regs: map<string, Reg>, id: string)
    requires Consistent(table, regs) && id in regs && ShapeOfReg(regs[id]) in table
    ensures OnlyRegistered(Removed(table, ShapeOfReg(regs[id]), id), regs - {id})
  {
    var t := Removed(table, ShapeOfReg(regs[id]), id);
    forall q, r | q in t && r in t[q].items
      ensures ShapeOfReg(r) == q && r.route.id in regs - {id} && (regs - {id})[r.route.id] == r
    {
      RemoveKeepsRoutes(table, regs, id, q, r);
    }
  }

  lemma RemoveKeepsAllFiled(table: Routes, regs: map<string, Reg>, id: string)
    requires Consistent(table, regs) && id in regs && ShapeOfReg(regs[id]) in table
    ensures AllFiled(Removed(table, ShapeOfReg(regs[id]), id), regs - {id})
  {
    forall x | x in regs - {id}
      ensures Filed(Removed(table, ShapeOfReg(regs[id]), id), (regs - {id})[x]) && (regs - {id})[x].route.id == x
    {
      RemoveKeepsFiled(table, regs, id, x);
    }
  }

  lemma RemoveKeepsConsistent(table: Routes, regs: map<string, Reg>, id: string)
    requires Consistent(table, regs) && id in regs
    ensures ShapeOfReg(regs[id]) in table && Consistent(Removed(table, ShapeOfReg(regs[id]), id), regs - {id})
  {
    assert Filed(table, regs[id]);
    RemoveKeepsSingle(table, ShapeOfReg(regs[id]), id);
    RemoveKeepsOthers(table, regs, id);
    RemoveKeepsAllFiled(table, regs, id);
    assert Removed(table, ShapeOfReg(regs[id]), id).Keys == table.Keys;
  }

  function Unfiled(table: Routes, regs: map<string, Reg>, id: string): Routes {
    if id in regs && ShapeOfReg(regs[id]) in table then Removed(table, ShapeOfReg(regs[id]), id) else table
  }

  lemma UnfiledKeepsConsistent(table: Routes, regs: map<string, Reg>, id: string)
    requires Consistent(table, regs)
    ensures Consistent(Unfiled(table, regs, id), regs - {id}) && SameNames(table, Unfiled(table, regs, id))
    ensures id in regs ==> ShapeOfReg(regs[id]) in table
  {
    if id in regs {
      RemoveKeepsConsistent(table, regs, id);
    } else {
      assert regs - {id} == regs;
    }
  }

  /** A route just registered: numbered, with its literals counted. */
  function NewReg(route: Route, order: nat): Reg {
    Reg(route, Literals(ParsePattern(route.pattern)), order)
  }

  function NamesOf(segments: seq<Segment>): (r: seq<string>)
    ensures |r| == |segments|
  {
    seq(|segments|, i requires 0 <= i < |segments| => NameOf(segments[i]))
  }

  /** Opening spots along a pattern files nothing new, and leaves every spot that was there as it was. */
  lemma {:induction false} OpenedKeepsConsistent(
    table: Routes, regs: map<string, Reg>, edges: Shape, names: seq<string>, n: nat)
    requires Consistent(table, regs) && [] in table && n <= |edges| == |names|
    ensures Consistent(Opened(table, edges, names, n), regs) && edges[..n] in Opened(table, edges, names, n)
    ensures forall p :: p in table ==>
            p in Opened(table, edges, names, n) && Opened(table, edges, names, n)[p] == table[p]
  {
    if n == 0 {
      assert edges[..0] == [];
    } else {
      OpenedKeepsConsistent(table, regs, edges, names, n - 1);
      assert edges[..n] == edges[..n - 1] + [edges[n - 1]];
      if edges[..n] !in Opened(table, edges, names, n - 1) {
        OpenKeepsConsistent(Opened(table, edges, names, n - 1), regs, edges[..n - 1], edges[n - 1], names[n - 1]);
      }
    }
  }

  /** The table after filing a route: its way opened, itself added at the end. */
  function Filing(table: Routes, r: Reg): Routes {
    var segments := ParsePattern(r.route.pattern);
    var t := Opened(table, ShapeOf(segments), NamesOf(segments), |segments|);
    var p := ShapeOf(segments);
    if p in t then t[p := t[p].(items := t[p].items + [r])] else t
  }

  /** The names of the parameters of the patterns that came first stay. */
  ghost predicate SameNames(before: Routes, after: Routes) {
    forall p :: p in before ==> p in after && after[p].name == before[p].name
  }

  lemma FilingKeepsConsistent(table: Routes, regs: map<string, Reg>, r: Reg)
    requires Consistent(table, regs) && [] in table && r.route.id !in regs
    ensures var t := Filing(table, r);
            Consistent(t, regs[r.route.id := r]) && SameNames(table, t)
  {
    var segments := ParsePattern(r.route.pattern);
    OpenedKeepsConsistent(table, regs, ShapeOf(segments), NamesOf(segments), |segments|);
    assert ShapeOf(segments)[..|segments|] == ShapeOfReg(r);
    FileKeepsConsistent(Opened(table, ShapeOf(segments), NamesOf(segments), |segments|), regs, r);
  }
}
