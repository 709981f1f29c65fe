/**
 The query language as a grammar that says of a tree and a sequence of tokens whether the one is written as the
 other, without reading from left to right.

 `ParseIsGrammar` says that the recursive-descent parser reads a sequence as a tree if and only if the tree is
 so written, in whichever spelling: `*` and `[*]`, a comma before a closing brace, a fraction for an index.
 */
module QueryGrammar {
  import opened QuerySyntax

  predicate WritesScalar(v: Scalar, t: Token) {
    match t
    case Number(n) => v == Num(n)
    case Text(s) => v == Str(s)
    case Keyword(k) => v == k
    case _ => false
  }

  predicate WritesCondition(c: Condition, ts: seq<Token>) {
    |c.path| > 0 && |ts| >= 2 && ts[..|ts| - 2] == PrintPath(c.path) && ts[|ts| - 2] == Op(c.op) &&
    WritesScalar(c.value, ts[|ts| - 1])
  }

  predicate WritesFilter(c: Condition, ts: seq<Token>) {
    |ts| >= 3 && ts[0] == LBracket && ts[1] == Question && ts[|ts| - 1] == RBracket &&
    WritesCondition(c, ts[2..|ts| - 1])
  }

  predicate WritesIndex(i: int, ts: seq<Token>) {
    |ts| == 3 && ts[0] == LBracket && ts[1].Number? && Trunc(ts[1].value) == i && ts[2] == RBracket
  }

  predicate HasStep(q: Query) {
    q.Field? || q.Index? || q.Wildcard? || q.Flatten? || q.Filter?
  }

  /** The last step of a chain; behind the document itself it is in brackets. */
  predicate WritesStep(q: Query, step: seq<Token>)
    requires HasStep(q)
  {
    match q
    case Field(name, c) => !c.Identity? && !ArrayProducing(c) && step == [Dot, Ident(name)]
    case Index(i, _) => WritesIndex(i, step)
    case Wildcard(c) =>
      step == [LBracket, Star, RBracket] || (!c.Identity? && !ArrayProducing(c) && step == [Dot, Star])
    case Flatten(_) => step == [LBracket, RBracket]
    case Filter(cond, _) => WritesFilter(cond, step)
  }

  /** A chain of one step, without brackets. */
  predicate WritesRoot(q: Query, ts: seq<Token>)
    requires HasStep(q)
  {
    q.child.Identity? && ((q.Field? && ts == [Ident(q.name)]) || (q.Wildcard? && ts == [Star]))
  }

  ghost predicate WritesChain(q: Query, ts: seq<Token>)
    decreases q, 1
  {
    match q
    case Literal(v) => |ts| == 1 && WritesScalar(v, ts[0])
    case Projection(fields) =>
      |ts| >= 2 && ts[0] == LBrace && ts[|ts| - 1] == RBrace && WritesFields(fields, ts[1..|ts| - 1])
    case _ => HasStep(q) && (WritesRoot(q, ts) || exists k :: WritesFrom(q, ts, k))
  }

  /** The last step is written from position `k` on. */
  ghost predicate WritesFrom(q: Query, ts: seq<Token>, k: int)
    requires HasStep(q)
    decreases q, 0
  {
    0 <= k <= |ts| && WritesStep(q, ts[k..]) && if q.child.Identity? then k == 0 else WritesChain(q.child, ts[..k])
  }

  /** A chain, or behind a dot what is asked of each element of an array-producing one. */
  ghost predicate WritesSub(q: Query, ts: seq<Token>)
    decreases q, 2
  {
    WritesChain(q, ts) ||
    (q.Project? && ArrayProducing(q.source) &&
     exists k :: 0 <= k < |ts| && WritesChain(q.source, ts[..k]) && ts[k] == Dot && WritesSub(q.each, ts[k + 1..]))
  }

  ghost predicate Writes(q: Query, ts: seq<Token>)
    decreases q, 3
  {
    WritesSub(q, ts) ||
    (q.Pipe? && exists k :: 0 <= k < |ts| && Writes(q.left, ts[..k]) && ts[k] == Bar && WritesSub(q.right, ts[k + 1..]))
  }

  ghost predicate WritesFields(fields: seq<Binding>, ts: seq<Token>)
    decreases fields, 5
  {
    if fields == [] then ts == []
    else exists k :: WritesField(fields[0], ts, k) && WritesOthers(fields, ts, k)
  }

  ghost predicate WritesField(f: Binding, ts: seq<Token>, k: int)
    decreases f, 4
  {
    2 <= k <= |ts| && ts[0] == Ident(f.name) && ts[1] == Colon && Writes(f.query, ts[2..k])
  }

  ghost predicate WritesOthers(fields: seq<Binding>, ts: seq<Token>, k: int)
    requires fields != []
    decreases fields, 4
  {
    if k == |ts| then |fields| == 1
    else 0 <= k < |ts| && ts[k] == Comma && WritesFields(fields[1..], ts[k + 1..])
  }

  // ---------------------------------------------------------------- what is written is read

  lemma Rejoin(ts: seq<Token>, k: nat, rest: seq<Token>)
    requires k <= |ts|
    ensures ts + rest == ts[..k] + (ts[k..] + rest)
  {
  }

  lemma ConditionRead(c: Condition, ts: seq<Token>, rest: seq<Token>)
    requires WritesCondition(c, ts)
    ensures ParseCondition(ts + rest) == Ok(c, rest)
  {
    var tail := ts[|ts| - 2..] + rest;
    PathParses(c.path, |c.path|, tail);
    assert c.path[..|c.path|] == c.path;
    var more :| PrintPath(c.path) + tail == [Ident(c.path[0])] + more &&
      PathRest([c.path[0]], more) == PathRest(c.path, tail);
    Rejoin(ts, |ts| - 2, rest);
    assert ([Ident(c.path[0])] + more)[1..] == more;
    assert PathRest(c.path, tail) == Ok(c.path, tail);
    assert tail[2..] == rest;
  }

  lemma FilterRead(cond: Condition, c: Query, ts: seq<Token>, rest: seq<Token>)
    requires WritesFilter(cond, ts)
    ensures ParseChain(c, ts + rest) == ParseChain(Filter(cond, c), rest)
  {
    var all, tail := ts + rest, [RBracket] + rest;
    assert all[2..] == ts[2..|ts| - 1] + tail;
    ConditionRead(cond, ts[2..|ts| - 1], tail);
    assert tail[1..] == rest;
  }

  lemma IndexRead(i: int, c: Query, ts: seq<Token>, rest: seq<Token>)
    requires WritesIndex(i, ts)
    ensures ParseChain(c, ts + rest) == ParseChain(Index(i, c), rest)
  {
    var all := ts + rest;
    assert all[0] == LBracket && all[1] == ts[1] && all[2..][0] == RBracket && all[3..] == rest;
  }

  lemma StarRead(c: Query, rest: seq<Token>)
    requires !ArrayProducing(c)
    ensures ParseChain(c, [Dot, Star] + rest) == ParseChain(Wildcard(c), rest)
  {
    var all := [Dot, Star] + rest;
    assert all[0] == Dot && all[1..][0] == Star && all[2..] == rest;
  }

  /**
   `*` at the root, and `.*` behind a chain that produces no array, are read as `[*]` is; behind one that does,
   what follows the dot is asked of each element, and `*` is its root.
   */
  lemma StarsAreAlike(c: Query, rest: seq<Token>)
    ensures ParseSubExpr([Star] + rest) == ParseSubExpr([LBracket, Star, RBracket] + rest)
    ensures !ArrayProducing(c) ==> ParseChain(c, [Dot, Star] + rest) == ParseChain(c, [LBracket, Star, RBracket] + rest)
    ensures ArrayProducing(c) ==>
              ParseChain(c, [Dot, Star] + rest) == ParseChain(c, [Dot, LBracket, Star, RBracket] + rest)
  {
    var brackets := [LBracket, Star, RBracket] + rest;
    assert ([Star] + rest)[1..] == rest;
    BracketStarts(brackets);
    WildcardStepParses(Identity, rest);
    WildcardStepParses(c, rest);
    if ArrayProducing(c) {
      assert ([Dot, Star] + rest)[1..] == [Star] + rest;
      assert ([Dot, LBracket, Star, RBracket] + rest)[1..] == brackets;
    } else {
      StarRead(c, rest);
    }
  }

  lemma StepRead(q: Query, step: seq<Token>, rest: seq<Token>)
    requires HasStep(q) && WritesStep(q, step)
    ensures ParseChain(q.child, step + rest) == ParseChain(q, rest)
  {
    match q
    case Field(name, c) => FieldStepParses(name, c, rest);
    case Index(i, c) => IndexRead(i, c, step, rest);
    case Wildcard(c) =>
      if step == [Dot, Star] {
        StarRead(c, rest);
      } else {
        WildcardStepParses(c, rest);
      }
    case Flatten(c) => FlattenStepParses(c, rest);
    case Filter(cond, c) => FilterRead(cond, c, step, rest);
  }

  /** After a chain is read the parser stands where it would with that chain in hand. */
  lemma {:induction false} ChainRead(q: Query, ts: seq<Token>, rest: seq<Token>)
    requires WritesChain(q, ts)
    ensures ParseSubExpr(ts + rest) == ParseChain(q, rest)
    decreases q, 0
  {
    if q.Literal? || (HasStep(q) && WritesRoot(q, ts)) {
      assert (ts + rest)[1..] == rest;
    } else if q.Projection? {
      ProjectionRead(q.fields, ts, rest);
    } else {
      var k :| WritesFrom(q, ts, k);
      StepRead(q, ts[k..], rest);
      Rejoin(ts, k, rest);
      if q.child.Identity? {
        assert ts[k..] == ts;
        BracketStarts(ts + rest);
      } else {
        ChainRead(q.child, ts[..k], ts[k..] + rest);
      }
    }
  }

  lemma {:induction false} ProjectionRead(fields: seq<Binding>, ts: seq<Token>, rest: seq<Token>)
    requires WritesChain(Projection(fields), ts)
    ensures ParseSubExpr(ts + rest) == ParseChain(Projection(fields), rest)
    decreases fields, 7
  {
    var all, inner, tail := ts + rest, ts[1..|ts| - 1], [RBrace] + rest;
    assert all[0] == LBrace && all[1..] == inner + tail;
    FieldsRead([], fields, inner, tail);
    BracesParse(all, fields, tail);
    assert tail[1..] == rest;
  }

  /** The field loop takes one binding. */
  lemma FieldTaken(done: seq<Binding>, f: Binding, all: seq<Token>, after: seq<Token>)
    requires |all| >= 2 && all[0] == Ident(f.name) && all[1] == Colon && ParsePipe(all[2..]) == Ok(f.query, after)
    ensures FieldsRest(done, all) ==
            if At(after, Comma) then FieldsRest(done + [f], after[1..]) else Ok(done + [f], after)
  {
  }

  lemma {:induction false} FieldsRead(done: seq<Binding>, fields: seq<Binding>, ts: seq<Token>, rest: seq<Token>)
    requires WritesFields(fields, ts) && At(rest, RBrace)
    ensures FieldsRest(done, ts + rest) == Ok(done + fields, rest)
    decreases fields, 6
  {
    if fields == [] {
      assert ts + rest == rest && done + fields == done;
    } else {
      var k :| WritesField(fields[0], ts, k) && WritesOthers(fields, ts, k);
      FirstRead(done, fields[0], ts, k, rest);
      if k == |ts| {
        assert ts[k..] + rest == rest && fields == [fields[0]];
      } else {
        assert (ts[k..] + rest)[1..] == ts[k + 1..] + rest;
        FieldsRead(done + [fields[0]], fields[1..], ts[k + 1..], rest);
        assert done + [fields[0]] + fields[1..] == done + fields;
      }
    }
  }

  lemma {:induction false} FirstRead(done: seq<Binding>, f: Binding, ts: seq<Token>, k: nat, rest: seq<Token>)
    requires WritesField(f, ts, k) && At(rest, RBrace) && (k < |ts| ==> ts[k] == Comma)
    ensures var after := ts[k..] + rest;
            FieldsRest(done, ts + rest) ==
            if At(after, Comma) then FieldsRest(done + [f], after[1..]) else Ok(done + [f], after)
    decreases f, 6
  {
    var all, after := ts + rest, ts[k..] + rest;
    assert all[2..] == ts[2..k] + after;
    WrittenRead(f.query, ts[2..k], after);
    FieldTaken(done, f, all, after);
  }

  lemma {:induction false} SubRead(q: Query, ts: seq<Token>, rest: seq<Token>)
    requires WritesSub(q, ts) && Stops(rest)
    ensures ParseSubExpr(ts + rest) == Ok(q, rest)
    decreases q, 3
  {
    if WritesChain(q, ts) {
      ChainRead(q, ts, rest);
    } else {
      var k :| 0 <= k < |ts| && WritesChain(q.source, ts[..k]) && ts[k] == Dot && WritesSub(q.each, ts[k + 1..]);
      Around(ts, k, rest);
      ChainRead(q.source, ts[..k], [Dot] + (ts[k + 1..] + rest));
      SubRead(q.each, ts[k + 1..], rest);
      ProjectRead(q.source, q.each, ts[k + 1..] + rest, rest);
    }
  }

  lemma Around(ts: seq<Token>, k: nat, rest: seq<Token>)
    requires k < |ts|
    ensures ts + rest == ts[..k] + ([ts[k]] + (ts[k + 1..] + rest))
  {
  }

  lemma ProjectRead(source: Query, each: Query, after: seq<Token>, rest: seq<Token>)
    requires ArrayProducing(source) && Stops(rest) && ParseSubExpr(after) == Ok(each, rest)
    ensures ParseChain(source, [Dot] + after) == Ok(Project(source, each), rest)
  {
    assert ([Dot] + after)[1..] == after;
  }

  lemma PipeRead(left: Query, right: Query, after: seq<Token>, rest: seq<Token>)
    requires ParseSubExpr(after) == Ok(right, rest)
    ensures PipeRest(left, [Bar] + after) == PipeRest(Pipe(left, right), rest)
  {
    assert ([Bar] + after)[1..] == after;
  }

  lemma {:induction false} PipesRead(q: Query, ts: seq<Token>, rest: seq<Token>)
    requires Writes(q, ts) && Stops(rest)
    ensures ParsePipe(ts + rest) == PipeRest(q, rest)
    decreases q, 4
  {
    if WritesSub(q, ts) {
      SubRead(q, ts, rest);
    } else {
      var k :| 0 <= k < |ts| && Writes(q.left, ts[..k]) && ts[k] == Bar && WritesSub(q.right, ts[k + 1..]);
      Around(ts, k, rest);
      PipesRead(q.left, ts[..k], [Bar] + (ts[k + 1..] + rest));
      SubRead(q.right, ts[k + 1..], rest);
      PipeRead(q.left, q.right, ts[k + 1..] + rest, rest);
    }
  }

  lemma {:induction false} WrittenRead(q: Query, ts: seq<Token>, rest: seq<Token>)
    requires Writes(q, ts) && Stops(rest) && !At(rest, Bar)
    ensures ParsePipe(ts + rest) == Ok(q, rest)
    decreases q, 5
  {
    PipesRead(q, ts, rest);
  }

  // ---------------------------------------------------------------- what is read is written

  /** What the chain parser may have read as `cur`, with `rest` to come. */
  ghost predicate HeldAs(cur: Query, read: seq<Token>, rest: seq<Token>) {
    WritesChain(cur, read) || (cur.Identity? && read == [] && At(rest, LBracket)) ||
    (cur.Project? && WritesSub(cur, read) && Stops(rest))
  }

  lemma Tail(ts: seq<Token>, i: nat, d: nat)
    requires i + d <= |ts|
    ensures ts[i..][d..] == ts[i + d..]
    ensures d < |ts| - i ==> ts[i..][d] == ts[i + d]
  {
  }

  lemma Part(ts: seq<Token>, i: nat, k: nat, a: nat, b: nat)
    requires i <= k <= |ts| && a <= b <= k - i
    ensures ts[i..k][a..b] == ts[i + a..i + b]
  {
    assert forall m :: 0 <= m < b - a ==> ts[i..k][a..b][m] == ts[i + a + m];
  }

  lemma {:induction false} PathWritten(path: seq<string>, ts: seq<Token>, i: nat, j: nat) returns (k: nat)
    requires i <= j <= |ts| && |path| > 0 && PathRest(path, ts[j..]).Ok? && ts[i..j] == PrintPath(path)
    ensures var r := PathRest(path, ts[j..]);
            j <= k <= |ts| && r.rest == ts[k..] && |r.value| > 0 && ts[i..k] == PrintPath(r.value)
    decreases |ts| - j
  {
    k := j;
    if At(ts[j..], Dot) {
      Tail(ts, j, 1);
      Tail(ts, j, 2);
      var more := path + [ts[j + 1].name];
      assert more[..|more| - 1] == path;
      assert ts[i..j + 2] == ts[i..j] + [Dot, Ident(ts[j + 1].name)];
      k := PathWritten(more, ts, i, j + 2);
    }
  }

  lemma ConditionWritten(ts: seq<Token>, i: nat) returns (k: nat)
    requires i <= |ts| && ParseCondition(ts[i..]).Ok?
    ensures i <= k <= |ts| && ParseCondition(ts[i..]).rest == ts[k..]
    ensures WritesCondition(ParseCondition(ts[i..]).value, ts[i..k])
  {
    Tail(ts, i, 1);
    assert ts[i..i + 1] == [ts[i]];
    var n := PathWritten([ts[i].name], ts, i, i + 1);
    Tail(ts, n, 1);
    Tail(ts, n, 2);
    k := n + 2;
    ConditionOf(ParseCondition(ts[i..]).value, ts, i, n);
  }

  lemma ConditionOf(c: Condition, ts: seq<Token>, i: nat, n: nat)
    requires i <= n <= |ts| - 2 && |c.path| > 0 && ts[i..n] == PrintPath(c.path) && ts[n] == Op(c.op)
    requires WritesScalar(c.value, ts[n + 1])
    ensures WritesCondition(c, ts[i..n + 2])
  {
    Part(ts, i, n + 2, 0, n - i);
    assert ts[i..n + 2][..n - i] == ts[i..n + 2][0..n - i];
  }

  lemma ProjectWritten(cur: Query, each: Query, ts: seq<Token>, i: nat, j: nat, k: nat)
    requires i <= j < k <= |ts| && WritesChain(cur, ts[i..j]) && ArrayProducing(cur)
    requires ts[j] == Dot && WritesSub(each, ts[j + 1..k])
    ensures WritesSub(Project(cur, each), ts[i..k])
  {
    var all := ts[i..k];
    assert all[..j - i] == ts[i..j] && all[j - i] == Dot && all[j - i + 1..] == ts[j + 1..k];
  }

  lemma StepOf(cond: Condition, ts: seq<Token>, j: nat, k: nat)
    requires j + 2 <= k < |ts| && WritesCondition(cond, ts[j + 2..k])
    requires ts[j] == LBracket && ts[j + 1] == Question && ts[k] == RBracket
    ensures WritesFilter(cond, ts[j..k + 1])
  {
    Part(ts, j, k + 1, 2, k - j);
  }

  /** A chain with one more step. */
  lemma Extended(q: Query, ts: seq<Token>, i: nat, j: nat, n: nat)
    requires i <= j <= n <= |ts| && HasStep(q) && WritesStep(q, ts[j..n])
    requires if q.child.Identity? then j == i else WritesChain(q.child, ts[i..j])
    ensures WritesChain(q, ts[i..n])
  {
    var all := ts[i..n];
    assert all[..j - i] == ts[i..j] && all[j - i..] == ts[j..n];
    assert WritesFrom(q, all, j - i);
  }

  /** The chain parser, having read `cur` from `i` up to `j`, goes on from there. */
  lemma {:induction false} ChainWritten(cur: Query, ts: seq<Token>, i: nat, j: nat) returns (q: Query, k: nat)
    requires i <= j <= |ts| && HeldAs(cur, ts[i..j], ts[j..]) && ParseChain(cur, ts[j..]).Ok?
    ensures j <= k <= |ts| && ParseChain(cur, ts[j..]) == Ok(q, ts[k..])
    ensures Stops(ts[k..]) && WritesSub(q, ts[i..k])
    decreases |ts| - j, 2
  {
    if Stops(ts[j..]) {
      q, k := cur, j;
    } else {
      var next, n := StepWritten(cur, ts, i, j);
      q, k := ChainWritten(next, ts, i, n);
    }
  }

  /** One step, from `j` up to `n`. */
  lemma {:induction false} StepWritten(cur: Query, ts: seq<Token>, i: nat, j: nat) returns (next: Query, n: nat)
    requires i <= j <= |ts| && HeldAs(cur, ts[i..j], ts[j..]) && !Stops(ts[j..]) && ParseChain(cur, ts[j..]).Ok?
    ensures j < n <= |ts| && ParseChain(cur, ts[j..]) == ParseChain(next, ts[n..]) && HeldAs(next, ts[i..n], ts[n..])
    decreases |ts| - j, 1
  {
    if At(ts[j..], Dot) && ArrayProducing(cur) {
      Tail(ts, j, 1);
      var each;
      each, n := SubWritten(ts, j + 1);
      ProjectWritten(cur, each, ts, i, j, n);
      next := Project(cur, each);
    } else {
      next, n := StepTaken(cur, ts, j);
      Extended(next, ts, i, j, n);
    }
  }

  /** The step that begins at `j`. */
  lemma StepTaken(cur: Query, ts: seq<Token>, j: nat) returns (next: Query, n: nat)
    requires j <= |ts| && !Stops(ts[j..]) && ParseChain(cur, ts[j..]).Ok?
    requires At(ts[j..], Dot) ==> !cur.Identity? && !ArrayProducing(cur)
    ensures j < n <= |ts| && ParseChain(cur, ts[j..]) == ParseChain(next, ts[n..])
    ensures HasStep(next) && next.child == cur && WritesStep(next, ts[j..n])
  {
    assert |ts| > j + 1 && ts[j..][1] == ts[j + 1];
    if At(ts[j..], Dot) {
      next, n := DotTaken(cur, ts, j);
    } else if ts[j + 1] == Question {
      next, n := FilterTaken(cur, ts, j);
    } else {
      next, n := BracketsTaken(cur, ts, j);
    }
  }

  lemma DotTaken(cur: Query, ts: seq<Token>, j: nat) returns (next: Query, n: nat)
    requires j <= |ts| && At(ts[j..], Dot) && !cur.Identity? && !ArrayProducing(cur) && ParseChain(cur, ts[j..]).Ok?
    ensures j < n <= |ts| && ParseChain(cur, ts[j..]) == ParseChain(next, ts[n..])
    ensures HasStep(next) && next.child == cur && WritesStep(next, ts[j..n])
  {
    Tail(ts, j, 1);
    Tail(ts, j, 2);
    n := j + 2;
    assert ts[j..n] == [Dot, ts[j + 1]];
    next := if ts[j + 1] == Star then Wildcard(cur) else Field(ts[j + 1].name, cur);
  }

  lemma BracketsTaken(cur: Query, ts: seq<Token>, j: nat) returns (next: Query, n: nat)
    requires j <= |ts| - 2 && ts[j] == LBracket && ts[j + 1] != Question && ParseChain(cur, ts[j..]).Ok?
    ensures j < n <= |ts| && ParseChain(cur, ts[j..]) == ParseChain(next, ts[n..])
    ensures HasStep(next) && next.child == cur && WritesStep(next, ts[j..n])
  {
    if ts[j + 1] == RBracket {
      next, n := Flatten(cur), j + 2;
      assert ts[j..n] == [LBracket, RBracket];
      Tail(ts, j, 2);
    } else {
      ThreeTaken(cur, ts[j..]);
      next, n := if ts[j + 1] == Star then Wildcard(cur) else Index(Trunc(ts[j + 1].value), cur), j + 3;
      assert ts[j..n] == [LBracket, ts[j + 1], RBracket];
      Tail(ts, j, 3);
    }
  }

  lemma ThreeTaken(cur: Query, ts: seq<Token>)
    requires |ts| >= 2 && ts[0] == LBracket && ts[1] != Question && ts[1] != RBracket && ParseChain(cur, ts).Ok?
    ensures |ts| >= 3 && ts[2] == RBracket && (ts[1] == Star || ts[1].Number?)
    ensures ts[1] == Star ==> ParseChain(cur, ts) == ParseChain(Wildcard(cur), ts[3..])
    ensures ts[1].Number? ==> ParseChain(cur, ts) == ParseChain(Index(Trunc(ts[1].value), cur), ts[3..])
  {
    assert |ts| >= 3 ==> ts[2..][0] == ts[2];
  }

  lemma FilterTaken(cur: Query, ts: seq<Token>, j: nat) returns (next: Query, n: nat)
    requires j <= |ts| - 2 && ts[j] == LBracket && ts[j + 1] == Question && ParseChain(cur, ts[j..]).Ok?
    ensures j < n <= |ts| && ParseChain(cur, ts[j..]) == ParseChain(next, ts[n..])
    ensures HasStep(next) && next.child == cur && WritesStep(next, ts[j..n])
  {
    var cond, k := ConditionTaken(cur, ts, j);
    next, n := Filter(cond, cur), k + 1;
    StepOf(cond, ts, j, k);
  }

  lemma ConditionTaken(cur: Query, ts: seq<Token>, j: nat) returns (cond: Condition, k: nat)
    requires j <= |ts| - 2 && ts[j] == LBracket && ts[j + 1] == Question && ParseChain(cur, ts[j..]).Ok?
    ensures j + 2 <= k < |ts| && ts[k] == RBracket && WritesCondition(cond, ts[j + 2..k])
    ensures ParseChain(cur, ts[j..]) == ParseChain(Filter(cond, cur), ts[k + 1..])
  {
    ConditionAt(cur, ts, j);
    cond := ParseCondition(ts[j + 2..]).value;
    k := ConditionWritten(ts, j + 2);
    Tail(ts, k, 1);
  }

  lemma ConditionAt(cur: Query, ts: seq<Token>, j: nat)
    requires j <= |ts| - 2 && ts[j] == LBracket && ts[j + 1] == Question && ParseChain(cur, ts[j..]).Ok?
    ensures var cond := ParseCondition(ts[j + 2..]);
            cond.Ok? && At(cond.rest, RBracket) &&
            ParseChain(cur, ts[j..]) == ParseChain(Filter(cond.value, cur), cond.rest[1..])
  {
    Tail(ts, j, 1);
    Tail(ts, j, 2);
    ConditionThere(cur, ts[j..]);
  }

  lemma ConditionThere(cur: Query, ts: seq<Token>)
    requires At(ts, LBracket) && At(ts[1..], Question) && ParseChain(cur, ts).Ok?
    ensures var cond := ParseCondition(ts[2..]);
            cond.Ok? && At(cond.rest, RBracket) &&
            ParseChain(cur, ts) == ParseChain(Filter(cond.value, cur), cond.rest[1..])
  {
  }

  /** What a sub-expression begins with. */
  lemma {:induction false} PrimaryWritten(ts: seq<Token>, i: nat) returns (q: Query, k: nat)
    requires i <= |ts| && ParsePrimary(ts[i..]).Ok?
    ensures i <= k <= |ts| && ParsePrimary(ts[i..]) == Ok(q, ts[k..]) && HeldAs(q, ts[i..k], ts[k..])
    decreases |ts| - i, 1
  {
    q := ParsePrimary(ts[i..]).value;
    if ts[i] == LBrace {
      q, k := ProjectionWritten(ts, i);
    } else if ts[i] == LBracket {
      k := i;
    } else {
      k := i + 1;
      Tail(ts, i, 1);
      assert ts[i..k] == [ts[i]];
    }
  }

  lemma {:induction false} SubWritten(ts: seq<Token>, i: nat) returns (q: Query, k: nat)
    requires i <= |ts| && ParseSubExpr(ts[i..]).Ok?
    ensures i <= k <= |ts| && ParseSubExpr(ts[i..]) == Ok(q, ts[k..]) && Stops(ts[k..]) && WritesSub(q, ts[i..k])
    decreases |ts| - i, 3
  {
    var head, j := PrimaryWritten(ts, i);
    q, k := ChainWritten(head, ts, i, j);
  }

  lemma {:induction false} ProjectionWritten(ts: seq<Token>, i: nat) returns (q: Query, k: nat)
    requires i <= |ts| && At(ts[i..], LBrace) && ParseProjection(ts[i..]).Ok?
    ensures i < k <= |ts| && ParseProjection(ts[i..]) == Ok(q, ts[k..]) && WritesChain(q, ts[i..k])
    decreases |ts| - i, 0
  {
    assert ts[i..][0] == ts[i];
    BracesBegin(ts, i);
    var fields, n := FieldsWritten([], ts, i + 1);
    q, k := Projection(fields), n + 1;
    BracesEnd(fields, ts, i, n);
    Braces(fields, ts, i, n);
    assert WritesChain(q, ts[i..k]);
  }

  lemma BracesBegin(ts: seq<Token>, i: nat)
    requires i <= |ts| && At(ts[i..], LBrace) && ParseProjection(ts[i..]).Ok?
    ensures FieldsRest([], ts[i + 1..]).Ok?
  {
    Tail(ts, i, 1);
  }

  lemma BracesEnd(fields: seq<Binding>, ts: seq<Token>, i: nat, n: nat)
    requires i < |ts| && n <= |ts| && ts[i] == LBrace && ParseProjection(ts[i..]).Ok?
    requires FieldsRest([], ts[i + 1..]) == Ok([] + fields, ts[n..])
    ensures n < |ts| && ts[n] == RBrace && ParseProjection(ts[i..]) == Ok(Projection(fields), ts[n + 1..])
  {
    Tail(ts, i, 1);
    assert [] + fields == fields;
    BracesTaken(ts[i..]);
    Tail(ts, n, 1);
  }

  lemma Braces(fields: seq<Binding>, ts: seq<Token>, i: nat, n: nat)
    requires i < n < |ts| && ts[i] == LBrace && ts[n] == RBrace && WritesFields(fields, ts[i + 1..n])
    ensures WritesChain(Projection(fields), ts[i..n + 1])
  {
    Part(ts, i, n + 1, 1, n - i);
  }

  lemma BracesTaken(ts: seq<Token>)
    requires At(ts, LBrace) && ParseProjection(ts).Ok?
    ensures var r := FieldsRest([], ts[1..]);
            r.Ok? && At(r.rest, RBrace) && ParseProjection(ts) == Ok(Projection(r.value), r.rest[1..])
  {
  }

  lemma {:induction false} FieldsWritten(done: seq<Binding>, ts: seq<Token>, i: nat)
    returns (fields: seq<Binding>, k: nat)
    requires i <= |ts| && FieldsRest(done, ts[i..]).Ok?
    ensures i <= k <= |ts| && FieldsRest(done, ts[i..]) == Ok(done + fields, ts[k..]) && WritesFields(fields, ts[i..k])
    decreases |ts| - i, 5
  {
    if At(ts[i..], RBrace) {
      fields, k := [], i;
      assert done + fields == done;
    } else {
      fields, k := SomeFieldsWritten(done, ts, i);
    }
  }

  lemma {:induction false} SomeFieldsWritten(done: seq<Binding>, ts: seq<Token>, i: nat)
    returns (fields: seq<Binding>, k: nat)
    requires i <= |ts| && FieldsRest(done, ts[i..]).Ok? && !At(ts[i..], RBrace)
    ensures i <= k <= |ts| && FieldsRest(done, ts[i..]) == Ok(done + fields, ts[k..]) && WritesFields(fields, ts[i..k])
    decreases |ts| - i, 4
  {
    FieldIsThere(done, ts, i);
    var q, n := PipeWritten(ts, i + 2);
    var f := Binding(ts[i].name, q);
    FieldEnds(done, f, ts, i, n);
    if At(ts[n..], Comma) {
      fields, k := FieldsWritten(done + [f], ts, n + 1);
      FieldsOn(f, fields, ts, i, n, k);
      assert done + [f] + fields == done + ([f] + fields);
      fields := [f] + fields;
    } else {
      fields, k := [f], n;
      LastField(f, ts, i, n);
    }
  }

  lemma FieldEnds(done: seq<Binding>, f: Binding, ts: seq<Token>, i: nat, n: nat)
    requires i + 2 <= n <= |ts| && ts[i] == Ident(f.name) && ts[i + 1] == Colon
    requires ParsePipe(ts[i + 2..]) == Ok(f.query, ts[n..])
    ensures FieldsRest(done, ts[i..]) ==
            if At(ts[n..], Comma) then FieldsRest(done + [f], ts[n + 1..]) else Ok(done + [f], ts[n..])
  {
    Tail(ts, i, 1);
    Tail(ts, i, 2);
    FieldTaken(done, f, ts[i..], ts[n..]);
    if At(ts[n..], Comma) {
      Tail(ts, n, 1);
    }
  }

  lemma FieldIsThere(done: seq<Binding>, ts: seq<Token>, i: nat)
    requires i <= |ts| && FieldsRest(done, ts[i..]).Ok? && !At(ts[i..], RBrace)
    ensures i + 2 <= |ts| && ts[i].Ident? && ts[i + 1] == Colon && ParsePipe(ts[i + 2..]).Ok?
  {
    if i + 2 <= |ts| {
      Tail(ts, i, 2);
    }
  }

  lemma LastField(f: Binding, ts: seq<Token>, i: nat, n: nat)
    requires i + 2 <= n <= |ts| && ts[i] == Ident(f.name) && ts[i + 1] == Colon && Writes(f.query, ts[i + 2..n])
    ensures WritesFields([f], ts[i..n])
  {
    var all := ts[i..n];
    assert all[2..n - i] == ts[i + 2..n];
    assert WritesField(f, all, n - i) && WritesOthers([f], all, n - i);
  }

  lemma FieldsOn(f: Binding, others: seq<Binding>, ts: seq<Token>, i: nat, n: nat, k: nat)
    requires i + 2 <= n < k <= |ts| && ts[i] == Ident(f.name) && ts[i + 1] == Colon && Writes(f.query, ts[i + 2..n])
    requires ts[n] == Comma && WritesFields(others, ts[n + 1..k])
    ensures WritesFields([f] + others, ts[i..k])
  {
    var all, fields := ts[i..k], [f] + others;
    assert fields[1..] == others;
    Part(ts, i, k, 2, n - i);
    Part(ts, i, k, n - i + 1, k - i);
    assert all[n - i + 1..] == all[n - i + 1..k - i];
    assert WritesField(f, all, n - i) && WritesOthers(fields, all, n - i);
  }

  lemma {:induction false} PipeWritten(ts: seq<Token>, i: nat) returns (q: Query, k: nat)
    requires i <= |ts| && ParsePipe(ts[i..]).Ok?
    ensures i <= k <= |ts| && ParsePipe(ts[i..]) == Ok(q, ts[k..]) && Writes(q, ts[i..k])
    decreases |ts| - i, 4
  {
    var left, j := SubWritten(ts, i);
    q, k := PipesWritten(left, ts, i, j);
  }

  lemma {:induction false} PipesWritten(left: Query, ts: seq<Token>, i: nat, j: nat) returns (q: Query, k: nat)
    requires i <= j <= |ts| && Writes(left, ts[i..j]) && PipeRest(left, ts[j..]).Ok?
    ensures j <= k <= |ts| && PipeRest(left, ts[j..]) == Ok(q, ts[k..]) && Writes(q, ts[i..k])
    decreases |ts| - j, 3
  {
    if At(ts[j..], Bar) {
      Tail(ts, j, 1);
      var right, n := SubWritten(ts, j + 1);
      PipedWritten(left, right, ts, i, j, n);
      q, k := PipesWritten(Pipe(left, right), ts, i, n);
    } else {
      q, k := left, j;
    }
  }

  lemma PipedWritten(left: Query, right: Query, ts: seq<Token>, i: nat, j: nat, n: nat)
    requires i <= j < n <= |ts| && Writes(left, ts[i..j]) && ts[j] == Bar && WritesSub(right, ts[j + 1..n])
    ensures Writes(Pipe(left, right), ts[i..n])
  {
    var all := ts[i..n];
    assert all[..j - i] == ts[i..j] && all[j - i] == Bar && all[j - i + 1..] == ts[j + 1..n];
  }

  /** The parser reads a sequence of tokens as a tree exactly when the tree is so written. */
  lemma {:induction false} ParseIsGrammar(q: Query, ts: seq<Token>)
    ensures Parse(ts) == Ok(q, []) <==> Writes(q, ts)
  {
    if Writes(q, ts) {
      WrittenRead(q, ts, []);
      assert ts + [] == ts;
    }
    if Parse(ts) == Ok(q, []) {
      assert ts[0..] == ts;
      var p, k := PipeWritten(ts, 0);
      assert ts[0..k] == ts;
    }
  }
}
