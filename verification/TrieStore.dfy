/**
 The trie in place: nodes with literal, parameter and wildcard children, walked and changed through
 references.  The ghost `nodes` sends every shape to its node; `table` is what the trie stands for.
 */
module TrieStore {
  import opened Prelude
  import opened TrieSpec

  class TrieNode<L(==, !new), N, R> {
    var literal: map<L, TrieNode<L, N, R>>
    var param: Option<(N, TrieNode<L, N, R>)>
    var wildcard: TrieNode?<L, N, R>
    var items: seq<R>

    constructor ()
      ensures literal == map[] && param == None && wildcard == null && items == []
    {
      literal, param, wildcard, items := map[], None, null, [];
    }

    function Child(e: Edge<L>): TrieNode?<L, N, R>
      reads this
    {
      match e
      case Lit(t) => if t in literal then literal[t] else null
      case Par => if param.Some? then param.value.1 else null
      case Wild => wildcard
    }

    /** Hangs `child` below along `e`; `name` is kept for a parameter edge. */
    method SetChild(e: Edge<L>, name: N, child: TrieNode<L, N, R>)
      modifies this`literal, this`param, this`wildcard
      ensures literal == if e.Lit? then old(literal)[e.text := child] else old(literal)
      ensures param == if e == Par then Some((name, child)) else old(param)
      ensures wildcard == if e == Wild then child else old(wildcard)
    {
      match e {
        case Lit(t) => literal := literal[t := child];
        case Par => param := Some((name, child));
        case Wild => wildcard := child;
      }
    }
  }

  class Trie<L(==, !new), N(==, !new), R(!new)> {
    const root: TrieNode<L, N, R>
    ghost var nodes: map<seq<Edge<L>>, TrieNode<L, N, R>>
    ghost var table: Table<L, N, R>

    constructor (name: N)
      ensures Linked() && fresh(nodes.Values) && table == map[[] := Spot(name, [])]
    {
      root := new TrieNode();
      new;
      nodes := map[[] := root];
      table := map[[] := Spot(name, [])];
    }

    /** The trie's child links are those of its shapes. */
    static ghost predicate ChildLinks(nodes: map<seq<Edge<L>>, TrieNode<L, N, R>>)
      reads nodes.Values`literal, nodes.Values`param, nodes.Values`wildcard
    {
      forall p :: p in nodes ==> KidsOf(nodes, p, nodes[p].literal, nodes[p].param, nodes[p].wildcard)
    }

    /** What is below shape `p` is these children. */
    static ghost predicate KidsOf(
      nodes: map<seq<Edge<L>>, TrieNode<L, N, R>>, p: seq<Edge<L>>,
      literal: map<L, TrieNode<L, N, R>>, param: Option<(N, TrieNode<L, N, R>)>, wildcard: TrieNode?<L, N, R>)
    {
      (forall t ::
         if p + [Lit(t)] in nodes then t in literal && literal[t] == nodes[p + [Lit(t)]] else t !in literal) &&
      (if p + [Par] in nodes then param.Some? && param.value.1 == nodes[p + [Par]] else param == None) &&
      if p + [Wild] in nodes then wildcard == nodes[p + [Wild]] else wildcard == null
    }

    /** A parameter edge carries the name its spot has. */
    static ghost predicate Named(table: Table<L, N, R>, p: seq<Edge<L>>, param: Option<(N, TrieNode<L, N, R>)>) {
      param.Some? ==> p + [Par] in table && table[p + [Par]].name == param.value.0
    }

    /** The nodes hold what the table says. */
    static ghost predicate Holds(nodes: map<seq<Edge<L>>, TrieNode<L, N, R>>, table: Table<L, N, R>)
      reads nodes.Values`items, nodes.Values`param
    {
      forall p :: p in nodes ==> p in table && nodes[p].items == table[p].items && Named(table, p, nodes[p].param)
    }

    static ghost predicate Injective(nodes: map<seq<Edge<L>>, TrieNode<L, N, R>>) {
      forall p, q :: p in nodes && q in nodes && p != q ==> nodes[p] != nodes[q]
    }

    lemma AddNode(before: map<seq<Edge<L>>, TrieNode<L, N, R>>, p: seq<Edge<L>>, e: Edge<L>, child: TrieNode<L, N, R>)
      requires Injective(before) && PrefixClosed(before.Keys) && p in before && child !in before.Values
      ensures Injective(before[p + [e] := child]) && PrefixClosed(before[p + [e] := child].Keys)
    {
      AddShape(before.Keys, p, e);
      assert before[p + [e] := child].Keys == before.Keys + {p + [e]};
    }

    /** The trie has exactly the nodes of `nodes`, each reached by the edges of its shape, and holds `table`. */
    ghost predicate Linked()
      reads this, nodes.Values
    {
      [] in nodes && nodes[[]] == root && Injective(nodes) && PrefixClosed(nodes.Keys) && table.Keys == nodes.Keys &&
      ChildLinks(nodes) && Holds(nodes, table)
    }

    lemma KidsElsewhere(
      before: map<seq<Edge<L>>, TrieNode<L, N, R>>, p: seq<Edge<L>>, e: Edge<L>, child: TrieNode<L, N, R>,
      q: seq<Edge<L>>,
      literal: map<L, TrieNode<L, N, R>>, param: Option<(N, TrieNode<L, N, R>)>, wildcard: TrieNode?<L, N, R>)
      requires KidsOf(before, q, literal, param, wildcard) && q != p
      ensures KidsOf(before[p + [e] := child], q, literal, param, wildcard)
    {
      forall f ensures q + [f] != p + [e] {
        SnocInjective(p, e, q, f);
      }
    }

    lemma KidsHere(
      before: map<seq<Edge<L>>, TrieNode<L, N, R>>, p: seq<Edge<L>>, e: Edge<L>, name: N, child: TrieNode<L, N, R>,
      literal: map<L, TrieNode<L, N, R>>, param: Option<(N, TrieNode<L, N, R>)>, wildcard: TrieNode?<L, N, R>)
      requires KidsOf(before, p, literal, param, wildcard)
      ensures KidsOf(before[p + [e] := child], p, if e.Lit? then literal[e.text := child] else literal,
                     if e == Par then Some((name, child)) else param, if e == Wild then child else wildcard)
    {
      forall f ensures p + [f] == p + [e] <==> f == e {
        SnocInjective(p, e, p, f);
      }
    }

    lemma KidsNew(before: map<seq<Edge<L>>, TrieNode<L, N, R>>, x: seq<Edge<L>>, child: TrieNode<L, N, R>)
      requires x !in before && PrefixClosed(before.Keys)
      ensures KidsOf(before[x := child], x, map[], None, null)
    {
      assert forall f :: x + [f] !in before.Keys && x + [f] != x;
    }

    method MakeChild(
      node: TrieNode<L, N, R>, e: Edge<L>, name: N, ghost p: seq<Edge<L>>) returns (child: TrieNode<L, N, R>)
      requires Linked() && p in nodes && nodes[p] == node && p + [e] !in nodes
      modifies this`nodes, this`table, node`literal, node`param, node`wildcard
      ensures Linked() && fresh(child)
      ensures nodes == old(nodes)[p + [e] := child] && table == old(table)[p + [e] := Spot(name, [])]
    {
      child := new TrieNode();
      Hang(node, e, name, child, p);
    }

    /** An empty node becomes the child of `node` along `e`. */
    method Hang(node: TrieNode<L, N, R>, e: Edge<L>, name: N, child: TrieNode<L, N, R>, ghost p: seq<Edge<L>>)
      requires Linked() && p in nodes && nodes[p] == node && p + [e] !in nodes && child !in nodes.Values
      requires child.literal == map[] && child.param == None && child.wildcard == null && child.items == []
      modifies this`nodes, this`table, node`literal, node`param, node`wildcard
      ensures Linked()
      ensures nodes == old(nodes)[p + [e] := child] && table == old(table)[p + [e] := Spot(name, [])]
    {
      ghost var before, was, x := nodes, table, p + [e];
      AddNode(before, p, e, child);
      SameKeys(before, was, x, child, Spot(name, []));
      node.SetChild(e, name, child);
      nodes, table := before[x := child], was[x := Spot(name, [])];
      NewLinks(before, was, p, e, name, child, old(node.literal), old(node.param), old(node.wildcard));
    }

    /**
     With a new empty child hung below `p`, and every other node as it was, the links and contents are right
     again.
     */
    lemma NewLinks(
      before: map<seq<Edge<L>>, TrieNode<L, N, R>>, was: Table<L, N, R>, p: seq<Edge<L>>, e: Edge<L>, name: N,
      child: TrieNode<L, N, R>,
      literal: map<L, TrieNode<L, N, R>>, param: Option<(N, TrieNode<L, N, R>)>, wildcard: TrieNode?<L, N, R>)
      requires p in before && p + [e] !in before && nodes == before[p + [e] := child] && PrefixClosed(before.Keys)
      requires p + [e] !in was && table == was[p + [e] := Spot(name, [])]
      requires child.literal == map[] && child.param == None && child.wildcard == null && child.items == []
      requires forall q :: q in before ==> q in was && before[q].items == was[q].items
      requires forall q :: q in before && q != p ==>
                 KidsOf(before, q, before[q].literal, before[q].param, before[q].wildcard) &&
                 Named(was, q, before[q].param)
      requires KidsOf(before, p, literal, param, wildcard) && Named(was, p, param)
      requires before[p].literal == (if e.Lit? then literal[e.text := child] else literal)
      requires before[p].param == (if e == Par then Some((name, child)) else param)
      requires before[p].wildcard == (if e == Wild then child else wildcard)
      ensures ChildLinks(nodes) && Holds(nodes, table)
    {
      var x := p + [e];
      forall q | q in nodes
        ensures KidsOf(nodes, q, nodes[q].literal, nodes[q].param, nodes[q].wildcard) && Named(table, q, nodes[q].param)
      {
        if q == x {
          KidsNew(before, x, child);
        } else if q == p {
          KidsHere(before, p, e, name, child, literal, param, wildcard);
        } else {
          KidsElsewhere(before, p, e, child, q, nodes[q].literal, nodes[q].param, nodes[q].wildcard);
        }
      }
    }

    /** The child of `node` along `e`, if there is one. */
    method ChildOf(node: TrieNode<L, N, R>, e: Edge<L>, ghost p: seq<Edge<L>>) returns (child: TrieNode?<L, N, R>)
      requires Linked() && p in nodes && nodes[p] == node
      ensures child == if p + [e] in nodes then nodes[p + [e]] else null
    {
      assert KidsOf(nodes, p, node.literal, node.param, node.wildcard);
      child := node.Child(e);
    }

    /** The child of `node` along `e`, made when it is missing; `name` is kept for a new parameter edge. */
    method EnsureChild(
      node: TrieNode<L, N, R>, e: Edge<L>, name: N, ghost p: seq<Edge<L>>) returns (child: TrieNode<L, N, R>)
      requires Linked() && p in nodes && nodes[p] == node
      modifies this`nodes, this`table, node`literal, node`param, node`wildcard
      ensures Linked() && p + [e] in nodes && nodes[p + [e]] == child
      ensures forall o :: o in nodes.Values ==> fresh(o) || o in old(nodes.Values)
      ensures table == OpenAt(old(table), p + [e], name)
    {
      var found := ChildOf(node, e, p);
      if found != null {
        assert table == OpenAt(table, p + [e], name);
        return found;
      }
      ghost var before := nodes;
      child := MakeChild(node, e, name, p);
      OneMoreValue(before, p + [e], child);
    }

    /** Appends to `out` what the walk from `node` finds for the rest of the path. */
    method Collect(
      node: TrieNode<L, N, R>, path: seq<L>, index: nat, params: map<N, L>, out: seq<Candidate<R, map<N, L>>>,
      ghost p: seq<Edge<L>>)
      returns (all: seq<Candidate<R, map<N, L>>>)
      requires Linked() && p in nodes && nodes[p] == node && index <= |path|
      ensures all == out + Found(table, p, path[index..], params)
      decreases |path| - index, 1
    {
      assert KidsOf(nodes, p, node.literal, node.param, node.wildcard);
      ghost var wild := Offered(ItemsAt(table, p + [Wild]), params);
      all := out;
      if node.wildcard != null {
        all := all + Offered(node.wildcard.items, params);
      }
      assert all == out + wild;
      if index == |path| {
        all := all + Offered(node.items, params);
        Regroup(out, wild, Offered(node.items, params));
        return;
      }
      all := Descend(node, path, index, params, all, p);
      Regroup(out, wild, Below(table, p, path[index..], params));
    }

    /** The literal and parameter branches of `Collect`. */
    method Descend(
      node: TrieNode<L, N, R>, path: seq<L>, index: nat, params: map<N, L>, out: seq<Candidate<R, map<N, L>>>,
      ghost p: seq<Edge<L>>)
      returns (all: seq<Candidate<R, map<N, L>>>)
      requires Linked() && p in nodes && nodes[p] == node && index < |path|
      ensures all == out + Below(table, p, path[index..], params)
      decreases |path| - index, 0
    {
      assert KidsOf(nodes, p, node.literal, node.param, node.wildcard) && Named(table, p, node.param);
      var seg := path[index];
      ghost var rest := path[index..];
      assert rest[0] == seg && rest[1..] == path[index + 1..];
      ghost var lit := if p + [Lit(seg)] in table then Found(table, p + [Lit(seg)], rest[1..], params) else [];
      ghost var par :=
        if p + [Par] in table then Found(table, p + [Par], rest[1..], params[table[p + [Par]].name := seg]) else [];
      assert Below(table, p, rest, params) == lit + par;
      all := out;
      if seg in node.literal {
        all := Collect(node.literal[seg], path, index + 1, params, all, p + [Lit(seg)]);
      }
      assert all == out + lit;
      if node.param.Some? {
        var named := params[node.param.value.0 := seg];
        all := Collect(node.param.value.1, path, index + 1, named, all, p + [Par]);
      }
      assert all == out + lit + par;
      Regroup(out, lit, par);
    }

    /** The node a shape that is in the trie leads to. */
    method Walk(edges: seq<Edge<L>>) returns (node: TrieNode<L, N, R>)
      requires Linked() && edges in nodes
      ensures node == nodes[edges]
    {
      node := root;
      var i := 0;
      while i < |edges|
        invariant 0 <= i <= |edges| && edges[..i] in nodes && node == nodes[edges[..i]]
      {
        PrefixIn(nodes.Keys, edges, i + 1);
        assert edges[..i + 1] == edges[..i] + [edges[i]];
        assert KidsOf(nodes, edges[..i], node.literal, node.param, node.wildcard);
        match edges[i] {
          case Lit(t) => node := node.literal[t];
          case Par => node := node.param.value.1;
          case Wild => node := node.wildcard;
        }
        i := i + 1;
      }
      assert edges[..i] == edges;
    }

    /** One step of `Plant`. */
    method Grow(node: TrieNode<L, N, R>, edges: seq<Edge<L>>, names: seq<N>, i: nat, ghost stages: seq<Table<L, N, R>>)
      returns (child: TrieNode<L, N, R>)
      requires Linked() && i < |edges| == |names| && edges[..i] in nodes && nodes[edges[..i]] == node
      requires |stages| == |edges| + 1 && table == stages[i] && stages == Openings(stages[0], edges, names)
      modifies this`nodes, this`table, node`literal, node`param, node`wildcard
      ensures Linked() && edges[..i + 1] in nodes && nodes[edges[..i + 1]] == child
      ensures forall o :: o in nodes.Values ==> fresh(o) || o in old(nodes.Values)
      ensures table == stages[i + 1]
    {
      assert edges[..i + 1] == edges[..i] + [edges[i]];
      OpenedStep(stages[0], edges, names, i);
      child := EnsureChild(node, edges[i], names[i], edges[..i]);
    }

    /** The node a shape leads to, with the nodes on the way made where they are missing. */
    method Plant(edges: seq<Edge<L>>, names: seq<N>) returns (node: TrieNode<L, N, R>)
      requires Linked() && |edges| == |names|
      modifies this`nodes, this`table, nodes.Values`literal, nodes.Values`param, nodes.Values`wildcard
      ensures Linked() && edges in nodes && node == nodes[edges]
      ensures forall o :: o in nodes.Values ==> fresh(o) || o in old(nodes.Values)
      ensures table == Opened(old(table), edges, names, |edges|)
    {
      node := root;
      ghost var was := table;
      ghost var stages := Openings(table, edges, names);
      var i := 0;
      while i < |edges|
        invariant i <= |edges| && Linked() && edges[..i] in nodes && node == nodes[edges[..i]]
        invariant forall o :: o in nodes.Values ==> fresh(o) || o in old(nodes.Values)
        invariant table == stages[i]
      {
        node := Grow(node, edges, names, i, stages);
        i := i + 1;
      }
      assert edges[..i] == edges;
      OpeningsReach(was, edges, names);
    }

    /** Replaces what the node at `p` holds. */
    method SetItems(node: TrieNode<L, N, R>, items: seq<R>, ghost p: seq<Edge<L>>)
      requires Linked() && p in nodes && nodes[p] == node
      modifies this`table, node`items
      ensures Linked() && table == old(table)[p := old(table)[p].(items := items)]
    {
      node.items := items;
      table := table[p := table[p].(items := items)];
    }
  }

  lemma SameKeys<K, V, W>(m: map<K, V>, n: map<K, W>, k: K, v: V, w: W)
    requires m.Keys == n.Keys
    ensures m[k := v].Keys == n[k := w].Keys
  {
  }

  lemma OneMoreValue<K, V>(m: map<K, V>, k: K, v: V)
    ensures forall o :: o in m[k := v].Values ==> o == v || o in m.Values
  {
  }

  lemma OpenedStep<L, N, R>(table: Table<L, N, R>, edges: seq<Edge<L>>, names: seq<N>, i: nat)
    requires i < |edges| == |names|
    ensures edges[..i + 1] == edges[..i] + [edges[i]]
    ensures Opened(table, edges, names, i + 1) ==
            OpenAt(Opened(table, edges, names, i), edges[..i] + [edges[i]], names[i])
  {
    assert edges[..i + 1] == edges[..i] + [edges[i]];
  }

  ghost function Openings<L, N, R>(table: Table<L, N, R>, edges: seq<Edge<L>>, names: seq<N>): (r: seq<Table<L, N, R>>)
    requires |edges| == |names|
    ensures |r| == |edges| + 1 && r[0] == table
  {
    seq(|edges| + 1, i requires 0 <= i <= |edges| => Opened(table, edges, names, i))
  }

  lemma {:induction false} OpeningsReach<L, N, R>(table: Table<L, N, R>, edges: seq<Edge<L>>, names: seq<N>)
    requires |edges| == |names|
    ensures Openings(table, edges, names)[|edges|] == Opened(table, edges, names, |edges|)
  {
  }

  lemma Regroup<T>(a: seq<T>, b: seq<T>, c: seq<T>)
    ensures a + b + c == a + (b + c)
  {
  }
}
