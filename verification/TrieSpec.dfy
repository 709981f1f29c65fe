/** A segment trie as a value: what is stored at each shape, and the depth-first walk that matches a path. */
module TrieSpec {
  datatype Edge<L> = Lit(text: L) | Par | Wild

  /** `name` is that of the parameter edge leading here, given by the first pattern that came this way. */
  datatype Spot<N, R> = Spot(name: N, items: seq<R>)
  type Table<L(==), N, R> = map<seq<Edge<L>>, Spot<N, R>>

  /** An item met on the walk, with the parameters captured on the way to it. */
  datatype Candidate<R, P> = Candidate(item: R, params: P)

  function Offered<R, P>(items: seq<R>, params: P): (r: seq<Candidate<R, P>>)
    ensures |r| == |items|
  {
    seq(|items|, i requires 0 <= i < |items| => Candidate(items[i], params))
  }

  function ItemsAt<L(==), N, R>(table: Table<L, N, R>, p: seq<Edge<L>>): seq<R> {
    if p in table then table[p].items else []
  }

  /**
   The depth-first walk from `p`: the wildcard below, then what ends here, then the literal and parameter
   branches.
   */
  function Found<L(==), N(==), R>(
    table: Table<L, N, R>, p: seq<Edge<L>>, path: seq<L>, params: map<N, L>): seq<Candidate<R, map<N, L>>>
    decreases |path|, 1
  {
    Offered(ItemsAt(table, p + [Wild]), params) +
    if path == [] then Offered(ItemsAt(table, p), params) else Below(table, p, path, params)
  }

  function Below<L(==), N(==), R>(
    table: Table<L, N, R>, p: seq<Edge<L>>, path: seq<L>, params: map<N, L>): seq<Candidate<R, map<N, L>>>
    requires path != []
    decreases |path|, 0
  {
    (if p + [Lit(path[0])] in table then Found(table, p + [Lit(path[0])], path[1..], params) else []) +
    if p + [Par] in table then Found(table, p + [Par], path[1..], params[table[p + [Par]].name := path[0]]) else []
  }

  /** With a shape comes everything on the way to it. */
  ghost predicate PrefixClosed<L(!new)>(shapes: set<seq<Edge<L>>>) {
    forall p, e :: p + [e] in shapes ==> p in shapes
  }

  lemma {:induction false} PrefixIn<L(!new)>(shapes: set<seq<Edge<L>>>, p: seq<Edge<L>>, i: nat)
    requires PrefixClosed(shapes) && p in shapes && i <= |p|
    ensures p[..i] in shapes
    decreases |p|
  {
    if i == |p| {
      assert p[..i] == p;
    } else {
      var front := p[..|p| - 1];
      assert p == front + [p[|p| - 1]];
      PrefixIn(shapes, front, i);
      assert front[..i] == p[..i];
    }
  }

  lemma AddShape<L(!new)>(shapes: set<seq<Edge<L>>>, p: seq<Edge<L>>, e: Edge<L>)
    requires PrefixClosed(shapes) && p in shapes
    ensures PrefixClosed(shapes + {p + [e]})
  {
    forall q, f | q + [f] in shapes + {p + [e]} ensures q in shapes + {p + [e]} {
      SnocInjective(p, e, q, f);
    }
  }

  lemma SnocInjective<T>(p: seq<T>, e: T, q: seq<T>, f: T)
    ensures p + [e] == q + [f] <==> p == q && e == f
  {
    if p + [e] == q + [f] {
      assert (p + [e])[..|p|] == p && (q + [f])[..|q|] == q;
      assert (p + [e])[|p|] == e && (q + [f])[|q|] == f;
    }
  }

  function OpenAt<L(==), N, R>(table: Table<L, N, R>, p: seq<Edge<L>>, name: N): Table<L, N, R> {
    if p in table then table else table[p := Spot(name, [])]
  }

  /** The table with empty spots opened, where missing, along the first `n` edges. */
  function Opened<L(==), N, R>(table: Table<L, N, R>, edges: seq<Edge<L>>, names: seq<N>, n: nat): Table<L, N, R>
    requires n <= |edges| == |names|
  {
    if n == 0 then table
    else OpenAt(Opened(table, edges, names, n - 1), edges[..n], names[n - 1])
  }
}
