/**
 The JMESPath-like query language: tokens, syntax trees, the recursive-descent grammar as functions on
 the tokens still to be read, and a printer.

 `ParsePrinted` and `ParsedIsPrintable` say that printing and parsing undo each other: the trees the
 parser can produce are exactly the `Printable` ones, and each of them is read back from its own print.
 */
module QuerySyntax {
  datatype Scalar = Null | Bool(b: bool) | Num(n: real) | Str(s: string)

  datatype CompareOp = Eq | Ne | Le | Ge | Lt | Gt

  /** Tokens, with the value of a number or keyword in place of its text.  The end of input is no token here. */
  datatype Token =
    | Ident(name: string) | Number(value: real) | Text(text: string) | Keyword(word: Scalar)
    | LBracket | RBracket | LBrace | RBrace | Dot | Star | Bar | Comma | Colon | Question | Op(op: CompareOp)

  datatype Condition = Condition(path: seq<string>, op: CompareOp, value: Scalar)

  datatype Query =
    | Identity
    | Field(name: string, child: Query)
    | Index(index: int, child: Query)
    | Wildcard(child: Query)
    | Flatten(child: Query)
    | Filter(condition: Condition, child: Query)
    | Project(source: Query, each: Query)
    | Projection(fields: seq<Binding>)
    | Pipe(left: Query, right: Query)
    | Literal(value: Scalar)

  datatype Binding = Binding(name: string, query: Query)

  /** A parse that failed, or a value and the tokens left. */
  datatype Parsed<+T> = Fail | Ok(value: T, rest: seq<Token>) {
    predicate IsFailure() { Fail? }
    function PropagateFailure<U>(): Parsed<U> requires Fail? { Fail }
    function Extract(): (T, seq<Token>) requires Ok? { (value, rest) }
  }

  predicate At(ts: seq<Token>, t: Token) {
    |ts| > 0 && ts[0] == t
  }

  /** Truncation towards zero, as integer parsing of a number's text makes it. */
  function Trunc(r: real): int {
    if r >= 0.0 then r.Floor else -((-r).Floor)
  }

  predicate ArrayProducing(q: Query) {
    q.Wildcard? || q.Filter? || q.Flatten?
  }

  // ---------------------------------------------------------------- the grammar

  function ParsePipe(ts: seq<Token>): (r: Parsed<Query>)
    ensures r.Ok? ==> |r.rest| <= |ts|
    decreases |ts|, 4
  {
    var (left, rest) :- ParseSubExpr(ts);
    PipeRest(left, rest)
  }

  function PipeRest(left: Query, ts: seq<Token>): (r: Parsed<Query>)
    ensures r.Ok? ==> |r.rest| <= |ts|
    decreases |ts|, 3
  {
    if At(ts, Bar) then
      var (right, rest) :- ParseSubExpr(ts[1..]);
      PipeRest(Pipe(left, right), rest)
    else Ok(left, ts)
  }

  function ParseSubExpr(ts: seq<Token>): (r: Parsed<Query>)
    ensures r.Ok? ==> |r.rest| <= |ts|
    decreases |ts|, 3
  {
    var (head, rest) :- ParsePrimary(ts);
    ParseChain(head, rest)
  }

  function ParseChain(cur: Query, ts: seq<Token>): (r: Parsed<Query>)
    ensures r.Ok? ==> |r.rest| <= |ts|
    decreases |ts|, 2
  {
    if At(ts, Dot) && ArrayProducing(cur) then
      var (inner, rest) :- ParseSubExpr(ts[1..]);
      ParseChain(Project(cur, inner), rest)
    else if At(ts, Dot) then
      if At(ts[1..], Star) then ParseChain(Wildcard(cur), ts[2..])
      else if |ts| > 1 && ts[1].Ident? then ParseChain(Field(ts[1].name, cur), ts[2..])
      else Fail
    else if At(ts, LBracket) then
      if |ts| == 1 then Fail
      else if ts[1] == Star then
        if At(ts[2..], RBracket) then ParseChain(Wildcard(cur), ts[3..]) else Fail
      else if ts[1].Number? then
        if At(ts[2..], RBracket) then ParseChain(Index(Trunc(ts[1].value), cur), ts[3..]) else Fail
      else if ts[1] == RBracket then ParseChain(Flatten(cur), ts[2..])
      else if ts[1] == Question then
        var (cond, rest) :- ParseCondition(ts[2..]);
        if At(rest, RBracket) then ParseChain(Filter(cond, cur), rest[1..]) else Fail
      else Fail
    else Ok(cur, ts)
  }

  function ParseCondition(ts: seq<Token>): (r: Parsed<Condition>)
    ensures r.Ok? ==> |r.rest| < |ts|
  {
    if |ts| == 0 || !ts[0].Ident? then Fail
    else
      var (path, rest) :- PathRest([ts[0].name], ts[1..]);
      if |rest| < 2 || !rest[0].Op? then Fail
      else
        match rest[1]
        case Number(v) => Ok(Condition(path, rest[0].op, Num(v)), rest[2..])
        case Text(s) => Ok(Condition(path, rest[0].op, Str(s)), rest[2..])
        case Keyword(k) => Ok(Condition(path, rest[0].op, k), rest[2..])
        case _ => Fail
  }

  function PathRest(path: seq<string>, ts: seq<Token>): (r: Parsed<seq<string>>)
    ensures r.Ok? ==> |r.rest| <= |ts|
    decreases |ts|
  {
    if At(ts, Dot) then
      if |ts| > 1 && ts[1].Ident? then PathRest(path + [ts[1].name], ts[2..]) else Fail
    else Ok(path, ts)
  }

  function ParsePrimary(ts: seq<Token>): (r: Parsed<Query>)
    ensures r.Ok? ==> |r.rest| <= |ts|
    decreases |ts|, 1
  {
    if |ts| == 0 then Fail
    else
      match ts[0]
      case Ident(name) => Ok(Field(name, Identity), ts[1..])
      case Star => Ok(Wildcard(Identity), ts[1..])
      case LBrace => ParseProjection(ts)
      case LBracket => Ok(Identity, ts)
      case Number(v) => Ok(Literal(Num(v)), ts[1..])
      case Text(s) => Ok(Literal(Str(s)), ts[1..])
      case Keyword(k) => Ok(Literal(k), ts[1..])
      case _ => Fail
  }

  function ParseProjection(ts: seq<Token>): (r: Parsed<Query>)
    ensures r.Ok? ==> |r.rest| <= |ts|
    decreases |ts|, 0
  {
    if !At(ts, LBrace) then Fail
    else
      var (fields, rest) :- FieldsRest([], ts[1..]);
      if At(rest, RBrace) then Ok(Projection(fields), rest[1..]) else Fail
  }

  /** The field loop of a projection; it accepts a comma before the closing brace. */
  function FieldsRest(fields: seq<Binding>, ts: seq<Token>): (r: Parsed<seq<Binding>>)
    ensures r.Ok? ==> |r.rest| <= |ts|
    decreases |ts|, 5
  {
    if At(ts, RBrace) then Ok(fields, ts)
    else if |ts| < 2 || !ts[0].Ident? || ts[1] != Colon then Fail
    else
      var (query, rest) :- ParsePipe(ts[2..]);
      var more := fields + [Binding(ts[0].name, query)];
      if At(rest, Comma) then FieldsRest(more, rest[1..]) else Ok(more, rest)
  }

  function Parse(ts: seq<Token>): Parsed<Query> {
    var (q, rest) :- ParsePipe(ts);
    if rest == [] then Ok(q, []) else Fail
  }

  // ---------------------------------------------------------------- the trees the parser produces

  /** A chain: a primary followed by postfix steps, none of them a projection. */
  predicate ChainLike(q: Query)
    decreases q, 0
  {
    match q
    case Identity => false
    case Field(_, c) => c.Identity? || (ChainLike(c) && !ArrayProducing(c))
    case Index(_, c) => c.Identity? || ChainLike(c)
    case Wildcard(c) => c.Identity? || ChainLike(c)
    case Flatten(c) => c.Identity? || ChainLike(c)
    case Filter(cond, c) => |cond.path| > 0 && (c.Identity? || ChainLike(c))
    case Project(_, _) => false
    case Projection(fields) => forall i :: 0 <= i < |fields| ==> Printable(fields[i].query)
    case Pipe(_, _) => false
    case Literal(_) => true
  }

  /** A chain, or a projection of a whole sub-expression over an array-producing chain. */
  predicate SubLike(q: Query)
    decreases q, 1
  {
    ChainLike(q) || (q.Project? && ChainLike(q.source) && ArrayProducing(q.source) && SubLike(q.each))
  }

  /** Sub-expressions joined by left-nested pipes. */
  predicate Printable(q: Query)
    decreases q, 2
  {
    SubLike(q) || (q.Pipe? && Printable(q.left) && SubLike(q.right))
  }

  // ---------------------------------------------------------------- printing

  function PrintScalar(v: Scalar): Token {
    match v
    case Num(n) => Number(n)
    case Str(s) => Text(s)
    case _ => Keyword(v)
  }

  function PrintPath(path: seq<string>): seq<Token> {
    if path == [] then [] else if |path| == 1 then [Ident(path[0])]
    else PrintPath(path[..|path| - 1]) + [Dot, Ident(path[|path| - 1])]
  }

  function PrintCondition(c: Condition): seq<Token> {
    PrintPath(c.path) + [Op(c.op), PrintScalar(c.value)]
  }

  /** The tokens of the last postfix step of a chain. */
  function Step(q: Query): (r: seq<Token>)
    requires q.Field? || q.Index? || q.Wildcard? || q.Flatten? || q.Filter?
    ensures |r| > 0 && (!q.Field? ==> r[0] == LBracket)
  {
    match q
    case Field(name, _) => [Dot, Ident(name)]
    case Index(i, _) => [LBracket, Number(i as real), RBracket]
    case Wildcard(_) => [LBracket, Star, RBracket]
    case Flatten(_) => [LBracket, RBracket]
    case Filter(cond, _) => [LBracket, Question] + PrintCondition(cond) + [RBracket]
  }

  function Print(q: Query): seq<Token> {
    match q
    case Identity => []
    case Field(name, c) => if c.Identity? then [Ident(name)] else Print(c) + Step(q)
    case Index(_, c) => Print(c) + Step(q)
    case Wildcard(c) => Print(c) + Step(q)
    case Flatten(c) => Print(c) + Step(q)
    case Filter(_, c) => Print(c) + Step(q)
    case Project(s, e) => Print(s) + [Dot] + Print(e)
    case Projection(fields) => [LBrace] + PrintFields(fields) + [RBrace]
    case Pipe(l, r) => Print(l) + [Bar] + Print(r)
    case Literal(v) => [PrintScalar(v)]
  }

  function PrintFields(fields: seq<Binding>): seq<Token> {
    if fields == [] then []
    else
      var f := fields[0];
      [Ident(f.name), Colon] + Print(f.query) + if |fields| == 1 then [] else [Comma] + PrintFields(fields[1..])
  }

  /** Nothing a chain could go on with. */
  predicate Stops(ts: seq<Token>) {
    !At(ts, Dot) && !At(ts, LBracket)
  }

  lemma {:induction false} PathParses(path: seq<string>, n: nat, ts: seq<Token>)
    requires 1 <= n <= |path|
    ensures exists rest :: PrintPath(path[..n]) + ts == [Ident(path[0])] + rest &&
                           PathRest([path[0]], rest) == PathRest(path[..n], ts)
  {
    var p := path[..n];
    if n == 1 {
      assert p == [path[0]];
      assert PrintPath(p) + ts == [Ident(path[0])] + ts;
    } else {
      var more := [Dot, Ident(path[n - 1])] + ts;
      PathParses(path, n - 1, more);
      assert p[..n - 1] == path[..n - 1] && p == path[..n - 1] + [path[n - 1]];
      assert PrintPath(p) + ts == PrintPath(path[..n - 1]) + more;
      assert more[2..] == ts;
    }
  }

  lemma ConditionParses(c: Condition, ts: seq<Token>)
    requires |c.path| > 0
    ensures ParseCondition(PrintCondition(c) + ts) == Ok(c, ts)
  {
    var tail := [Op(c.op), PrintScalar(c.value)] + ts;
    PathParses(c.path, |c.path|, tail);
    assert c.path[..|c.path|] == c.path;
    var rest :| PrintPath(c.path) + tail == [Ident(c.path[0])] + rest &&
      PathRest([c.path[0]], rest) == PathRest(c.path, tail);
    assert PrintCondition(c) + ts == PrintPath(c.path) + tail;
    assert ([Ident(c.path[0])] + rest)[1..] == rest;
    assert PathRest(c.path, tail) == Ok(c.path, tail);
    assert tail[2..] == ts;
  }

  lemma {:induction false} FilterParses(cond: Condition, c: Query, ts: seq<Token>)
    requires |cond.path| > 0
    ensures ParseChain(c, Step(Filter(cond, c)) + ts) == ParseChain(Filter(cond, c), ts)
  {
    var all, tail := Step(Filter(cond, c)) + ts, [RBracket] + ts;
    assert all[2..] == PrintCondition(cond) + tail;
    ConditionParses(cond, tail);
    assert tail[1..] == ts;
  }

  /** Parsing the tokens of a postfix step makes the step. */
  lemma {:induction false} StepParses(q: Query, ts: seq<Token>)
    requires q.Field? || q.Index? || q.Wildcard? || q.Flatten?
    requires q.Field? ==> !ArrayProducing(q.child)
    ensures ParseChain(q.child, Step(q) + ts) == ParseChain(q, ts)
  {
    match q
    case Field(name, c) => FieldStepParses(name, c, ts);
    case Index(i, c) => IndexStepParses(i, c, ts);
    case Wildcard(c) => WildcardStepParses(c, ts);
    case Flatten(c) => FlattenStepParses(c, ts);
  }

  lemma {:induction false} FieldStepParses(name: string, c: Query, ts: seq<Token>)
    requires !ArrayProducing(c)
    ensures ParseChain(c, [Dot, Ident(name)] + ts) == ParseChain(Field(name, c), ts)
  {
    var all := [Dot, Ident(name)] + ts;
    assert all[0] == Dot && all[1..][0] == Ident(name) && all[2..] == ts;
  }

  lemma {:induction false} IndexStepParses(i: int, c: Query, ts: seq<Token>)
    ensures ParseChain(c, [LBracket, Number(i as real), RBracket] + ts) == ParseChain(Index(i, c), ts)
  {
    var all := [LBracket, Number(i as real), RBracket] + ts;
    assert all[0] == LBracket && all[1] == Number(i as real) && all[2..][0] == RBracket && all[3..] == ts;
    assert Trunc(i as real) == i;
  }

  lemma {:induction false} WildcardStepParses(c: Query, ts: seq<Token>)
    ensures ParseChain(c, [LBracket, Star, RBracket] + ts) == ParseChain(Wildcard(c), ts)
  {
    var all := [LBracket, Star, RBracket] + ts;
    assert all[0] == LBracket && all[1] == Star && all[2..][0] == RBracket && all[3..] == ts;
  }

  lemma {:induction false} FlattenStepParses(c: Query, ts: seq<Token>)
    ensures ParseChain(c, [LBracket, RBracket] + ts) == ParseChain(Flatten(c), ts)
  {
    var all := [LBracket, RBracket] + ts;
    assert all[0] == LBracket && all[1] == RBracket && all[2..] == ts;
  }

  lemma {:induction false} AnyStepParses(q: Query, ts: seq<Token>)
    requires ChainLike(q) && (q.Field? || q.Index? || q.Wildcard? || q.Flatten? || q.Filter?)
    ensures ParseChain(q.child, Step(q) + ts) == ParseChain(q, ts)
  {
    if q.Filter? {
      FilterParses(q.condition, q.child, ts);
    } else {
      StepParses(q, ts);
    }
  }

  lemma {:induction false} PrimaryParses(q: Query, ts: seq<Token>)
    requires q.Literal? || (q.Field? && q.child.Identity?)
    ensures ParseSubExpr(Print(q) + ts) == ParseChain(q, ts)
  {
    assert (Print(q) + ts)[1..] == ts;
  }

  /** Reading a printed chain leaves the parser where it would be with that chain in hand. */
  lemma {:induction false} ChainParses(q: Query, ts: seq<Token>)
    requires ChainLike(q)
    ensures ParseSubExpr(Print(q) + ts) == ParseChain(q, ts)
    decreases q, 0
  {
    if q.Literal? || (q.Field? && q.child.Identity?) {
      PrimaryParses(q, ts);
    } else if q.Projection? {
      ProjectionParses(q.fields, ts);
    } else {
      var more := Step(q) + ts;
      AnyStepParses(q, ts);
      assert Print(q) + ts == Print(q.child) + more;
      if q.child.Identity? {
        assert Print(q) + ts == more;
        BracketStarts(more);
      } else {
        ChainParses(q.child, more);
      }
    }
  }

  /** At the root a bracket starts a chain on the whole document, and is not consumed by the primary. */
  lemma {:induction false} BracketStarts(ts: seq<Token>)
    requires At(ts, LBracket)
    ensures ParseSubExpr(ts) == ParseChain(Identity, ts)
  {
  }

  lemma {:induction false} ProjectionParses(fields: seq<Binding>, ts: seq<Token>)
    requires ChainLike(Projection(fields))
    ensures ParsePrimary(Print(Projection(fields)) + ts) == Ok(Projection(fields), ts)
    decreases fields, 6
  {
    var all, rest := Print(Projection(fields)) + ts, [RBrace] + ts;
    assert all[0] == LBrace && all[1..] == PrintFields(fields) + rest;
    FieldsParse([], fields, rest);
    BracesParse(all, fields, rest);
    assert rest[1..] == ts;
  }

  lemma BracesParse(all: seq<Token>, fields: seq<Binding>, rest: seq<Token>)
    requires At(all, LBrace) && At(rest, RBrace) && FieldsRest([], all[1..]) == Ok([] + fields, rest)
    ensures ParsePrimary(all) == Ok(Projection(fields), rest[1..])
  {
    assert [] + fields == fields;
  }

  lemma {:induction false} FieldsParse(done: seq<Binding>, fields: seq<Binding>, ts: seq<Token>)
    requires At(ts, RBrace)
    requires forall i :: 0 <= i < |fields| ==> Printable(fields[i].query)
    ensures FieldsRest(done, PrintFields(fields) + ts) == Ok(done + fields, ts)
    decreases fields, 5
  {
    if fields == [] {
      assert PrintFields(fields) + ts == ts;
      assert done + fields == done;
    } else {
      var f, others := fields[0], fields[1..];
      var after := (if |fields| == 1 then [] else [Comma] + PrintFields(others)) + ts;
      FirstField(fields, after, ts);
      PrintedPipe(f.query, after);
      FieldStep(done, f, after);
      if |fields| > 1 {
        FieldsParse(done + [f], others, ts);
        assert done + [f] + others == done + fields;
      } else {
        assert done + [f] == done + fields;
      }
    }
  }

  lemma {:induction false} FirstField(fields: seq<Binding>, after: seq<Token>, ts: seq<Token>)
    requires |fields| > 0 && At(ts, RBrace)
    requires after == (if |fields| == 1 then [] else [Comma] + PrintFields(fields[1..])) + ts
    ensures PrintFields(fields) + ts == [Ident(fields[0].name), Colon] + (Print(fields[0].query) + after)
    ensures if |fields| == 1 then after == ts else At(after, Comma) && after[1..] == PrintFields(fields[1..]) + ts
    ensures Stops(after) && !At(after, Bar)
  {
  }

  lemma {:induction false} FieldStep(done: seq<Binding>, f: Binding, after: seq<Token>)
    requires ParsePipe(Print(f.query) + after) == Ok(f.query, after)
    ensures FieldsRest(done, [Ident(f.name), Colon] + (Print(f.query) + after)) ==
            if At(after, Comma) then FieldsRest(done + [f], after[1..]) else Ok(done + [f], after)
  {
    var all := [Ident(f.name), Colon] + (Print(f.query) + after);
    assert all[2..] == Print(f.query) + after;
  }

  lemma {:induction false} SubParses(q: Query, ts: seq<Token>)
    requires SubLike(q) && Stops(ts)
    ensures ParseSubExpr(Print(q) + ts) == Ok(q, ts)
    decreases q, 1
  {
    if q.Project? {
      PrintedAround(q, Dot, q.source, q.each, ts);
      ChainParses(q.source, [Dot] + (Print(q.each) + ts));
      SubParses(q.each, ts);
      ProjectEnds(q.source, q.each, ts);
    } else {
      ChainParses(q, ts);
    }
  }

  /** A tree printed as two parts around a token, with the tokens after it. */
  lemma {:induction false} PrintedAround(q: Query, t: Token, left: Query, right: Query, ts: seq<Token>)
    requires Print(q) == Print(left) + [t] + Print(right)
    ensures Print(q) + ts == Print(left) + ([t] + (Print(right) + ts))
  {
  }

  lemma {:induction false} PipeGoesOn(left: Query, right: Query, ts: seq<Token>)
    requires ParseSubExpr(Print(right) + ts) == Ok(right, ts)
    ensures PipeRest(left, [Bar] + (Print(right) + ts)) == PipeRest(Pipe(left, right), ts)
  {
    assert ([Bar] + (Print(right) + ts))[1..] == Print(right) + ts;
  }

  lemma {:induction false} ProjectEnds(source: Query, each: Query, ts: seq<Token>)
    requires ArrayProducing(source) && Stops(ts)
    requires ParseSubExpr(Print(each) + ts) == Ok(each, ts)
    ensures ParseChain(source, [Dot] + (Print(each) + ts)) == Ok(Project(source, each), ts)
  {
    assert ([Dot] + (Print(each) + ts))[1..] == Print(each) + ts;
  }

  lemma {:induction false} PipeParts(q: Query)
    requires Printable(q) && q.Pipe?
    ensures Printable(q.left) && SubLike(q.right)
  {
    assert !SubLike(q) by {
      assert !ChainLike(q);
    }
  }

  lemma {:induction false} PipesParse(q: Query, ts: seq<Token>)
    requires Printable(q) && Stops(ts)
    ensures ParsePipe(Print(q) + ts) == PipeRest(q, ts)
    decreases q, 2
  {
    if q.Pipe? {
      PipeParts(q);
      PrintedAround(q, Bar, q.left, q.right, ts);
      PipesParse(q.left, [Bar] + (Print(q.right) + ts));
      SubParses(q.right, ts);
      PipeGoesOn(q.left, q.right, ts);
    } else {
      SubParses(q, ts);
    }
  }

  lemma {:induction false} PrintedPipe(q: Query, ts: seq<Token>)
    requires Printable(q) && Stops(ts) && !At(ts, Bar)
    ensures ParsePipe(Print(q) + ts) == Ok(q, ts)
    decreases q, 3
  {
    PipesParse(q, ts);
  }

  /** Every printable tree is read back from its print. */
  lemma {:induction false} ParsePrinted(q: Query)
    requires Printable(q)
    ensures Parse(Print(q)) == Ok(q, [])
  {
    PrintedPipe(q, []);
    assert Print(q) + [] == Print(q);
  }

  // ---------------------------------------------------------------- every parsed tree is printable

  /**
   What the chain parser may be holding: a chain, a fresh root before a bracket, or a projection with nothing
   to follow.
   */
  predicate Held(cur: Query, ts: seq<Token>) {
    ChainLike(cur) || (cur.Identity? && At(ts, LBracket)) || (cur.Project? && SubLike(cur) && Stops(ts))
  }

  lemma {:induction false} PathGrows(path: seq<string>, ts: seq<Token>)
    ensures PathRest(path, ts).Ok? ==> |PathRest(path, ts).value| >= |path|
    decreases |ts|
  {
    if At(ts, Dot) && |ts| > 1 && ts[1].Ident? {
      PathGrows(path + [ts[1].name], ts[2..]);
    }
  }

  lemma ConditionHasPath(ts: seq<Token>)
    ensures ParseCondition(ts).Ok? ==> |ParseCondition(ts).value.path| > 0
  {
    if |ts| > 0 && ts[0].Ident? {
      PathGrows([ts[0].name], ts[1..]);
    }
  }

  lemma {:induction false} ChainIsSubLike(cur: Query, ts: seq<Token>)
    requires Held(cur, ts)
    ensures var r := ParseChain(cur, ts); r.Ok? ==> SubLike(r.value) && Stops(r.rest)
    decreases |ts|, 2
  {
    if At(ts, Dot) {
      if ArrayProducing(cur) {
        SubIsSubLike(ts[1..]);
        var inner := ParseSubExpr(ts[1..]);
        if inner.Ok? {
          ChainIsSubLike(Project(cur, inner.value), inner.rest);
        }
      } else if At(ts[1..], Star) {
        ChainIsSubLike(Wildcard(cur), ts[2..]);
      } else if |ts| > 1 && ts[1].Ident? {
        ChainIsSubLike(Field(ts[1].name, cur), ts[2..]);
      }
    } else if At(ts, LBracket) && |ts| > 1 {
      if ts[1] == Star {
        if At(ts[2..], RBracket) {
          ChainIsSubLike(Wildcard(cur), ts[3..]);
        }
      } else if ts[1].Number? {
        if At(ts[2..], RBracket) {
          ChainIsSubLike(Index(Trunc(ts[1].value), cur), ts[3..]);
        }
      } else if ts[1] == RBracket {
        ChainIsSubLike(Flatten(cur), ts[2..]);
      } else if ts[1] == Question {
        ConditionHasPath(ts[2..]);
        var cond := ParseCondition(ts[2..]);
        if cond.Ok? && At(cond.rest, RBracket) {
          ChainIsSubLike(Filter(cond.value, cur), cond.rest[1..]);
        }
      }
    }
  }

  lemma {:induction false} SubIsSubLike(ts: seq<Token>)
    ensures var r := ParseSubExpr(ts); r.Ok? ==> SubLike(r.value) && Stops(r.rest)
    decreases |ts|, 3
  {
    var head := ParsePrimary(ts);
    if head.Ok? {
      if ts[0] == LBrace {
        ProjectionIsChainLike(ts);
      }
      ChainIsSubLike(head.value, head.rest);
    }
  }

  lemma {:induction false} ProjectionIsChainLike(ts: seq<Token>)
    requires At(ts, LBrace)
    ensures var r := ParseProjection(ts); r.Ok? ==> ChainLike(r.value)
    decreases |ts|, 0
  {
    FieldsArePrintable([], ts[1..]);
  }

  lemma {:induction false} FieldsArePrintable(fields: seq<Binding>, ts: seq<Token>)
    requires forall i :: 0 <= i < |fields| ==> Printable(fields[i].query)
    ensures var r := FieldsRest(fields, ts); r.Ok? ==> forall i :: 0 <= i < |r.value| ==> Printable(r.value[i].query)
    decreases |ts|, 5
  {
    if !At(ts, RBrace) && |ts| >= 2 && ts[0].Ident? && ts[1] == Colon {
      PipeIsPrintable(ts[2..]);
      var q := ParsePipe(ts[2..]);
      if q.Ok? {
        var more := fields + [Binding(ts[0].name, q.value)];
        assert forall i :: 0 <= i < |more| ==> Printable(more[i].query);
        if At(q.rest, Comma) {
          FieldsArePrintable(more, q.rest[1..]);
        } else {
          assert FieldsRest(fields, ts) == Ok(more, q.rest);
        }
      }
    }
  }

  lemma {:induction false} PipeIsPrintable(ts: seq<Token>)
    ensures var r := ParsePipe(ts); r.Ok? ==> Printable(r.value)
    decreases |ts|, 4
  {
    SubIsSubLike(ts);
    var left := ParseSubExpr(ts);
    if left.Ok? {
      RestIsPrintable(left.value, left.rest);
    }
  }

  lemma {:induction false} RestIsPrintable(left: Query, ts: seq<Token>)
    requires Printable(left)
    ensures var r := PipeRest(left, ts); r.Ok? ==> Printable(r.value)
    decreases |ts|, 3
  {
    if At(ts, Bar) {
      SubIsSubLike(ts[1..]);
      var right := ParseSubExpr(ts[1..]);
      if right.Ok? {
        RestIsPrintable(Pipe(left, right.value), right.rest);
      }
    }
  }

  /** Whatever the parser accepts, it makes a printable tree of, so that tree parses back from its print. */
  lemma ParsedIsPrintable(ts: seq<Token>)
    ensures Parse(ts).Ok? ==> Printable(Parse(ts).value) && Parse(Print(Parse(ts).value)) == Ok(Parse(ts).value, [])
  {
    PipeIsPrintable(ts);
    if Parse(ts).Ok? {
      ParsePrinted(Parse(ts).value);
    }
  }

  /** The trees the parser produces are exactly the printable ones. */
  lemma {:induction false} ImageIsPrintable(q: Query)
    ensures Printable(q) <==> exists ts :: Parse(ts) == Ok(q, [])
  {
    if Printable(q) {
      ParsePrinted(q);
    }
    forall ts | Parse(ts) == Ok(q, []) ensures Printable(q) {
      ParsedIsPrintable(ts);
    }
  }
}
