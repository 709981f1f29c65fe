/** The recursive-descent parser: a cursor over the tokens, loops for pipes, chains, paths and fields. */
module QueryParser {
  import opened Prelude
  import opened QuerySyntax

  class Parser {
    const tokens: seq<Token>
    var pos: nat

    constructor (tokens: seq<Token>)
      ensures this.tokens == tokens && pos == 0
    {
      this.tokens := tokens;
      pos := 0;
    }

    predicate InBounds()
      reads this
    {
      pos <= |tokens|
    }

    ghost function Rest(): seq<Token>
      requires InBounds()
      reads this
    {
      tokens[pos..]
    }

    /** The outcome `r`, with the cursor where it is, is what the grammar says. */
    ghost predicate Agrees<T>(r: Option<T>, spec: Parsed<T>)
      reads this
    {
      InBounds() && match spec
                    case Fail => r == None
                    case Ok(v, rest) => r == Some(v) && Rest() == rest
    }

    predicate Sees(t: Token)
      requires InBounds()
      reads this
      ensures Sees(t) <==> At(Rest(), t)
    {
      pos < |tokens| && tokens[pos] == t
    }

    /** Consumes the token `t`, or fails. */
    method Expect(t: Token) returns (ok: bool)
      requires InBounds()
      modifies this`pos
      ensures InBounds() && ok == At(old(Rest()), t)
      ensures if ok then pos == old(pos) + 1 else pos == old(pos)
    {
      ok := Sees(t);
      if ok {
        pos := pos + 1;
      }
    }

    method ExpectIdent() returns (name: Option<string>)
      requires InBounds()
      modifies this`pos
      ensures InBounds() && if name.Some? then pos == old(pos) + 1 else pos == old(pos)
      ensures name.Some? <==> |old(Rest())| > 0 && old(Rest())[0].Ident?
      ensures name.Some? ==> old(Rest())[0].name == name.value
    {
      if pos < |tokens| && tokens[pos].Ident? {
        name := Some(tokens[pos].name);
        pos := pos + 1;
      } else {
        name := None;
      }
    }

    method Run() returns (r: Option<Query>)
      requires pos == 0
      modifies this`pos
      ensures r == match Parse(tokens) case Fail => None case Ok(q, _) => Some(q)
    {
      assert Rest() == tokens;
      r := Pipes();
      if r.Some? && pos != |tokens| {
        r := None;
      }
    }

    method Pipes() returns (r: Option<Query>)
      requires InBounds()
      modifies this`pos
      ensures Agrees(r, ParsePipe(old(Rest()))) && pos >= old(pos)
      decreases |tokens| - pos, 4
    {
      r := SubExpr();
      if r == None {
        return;
      }
      var left := r.value;
      while Sees(Bar)
        invariant InBounds() && pos >= old(pos) && ParsePipe(old(Rest())) == PipeRest(left, Rest())
        decreases |tokens| - pos
      {
        assert Rest()[1..] == tokens[pos + 1..];
        pos := pos + 1;
        r := SubExpr();
        if r == None {
          return;
        }
        left := Pipe(left, r.value);
      }
      r := Some(left);
    }

    method SubExpr() returns (r: Option<Query>)
      requires InBounds()
      modifies this`pos
      ensures Agrees(r, ParseSubExpr(old(Rest()))) && pos >= old(pos)
      decreases |tokens| - pos, 3
    {
      r := Primary();
      if r.Some? {
        r := Chain(r.value);
      }
    }

    method Chain(node: Query) returns (r: Option<Query>)
      requires InBounds()
      modifies this`pos
      ensures Agrees(r, ParseChain(node, old(Rest()))) && pos >= old(pos)
      decreases |tokens| - pos, 2
    {
      var cur := node;
      while true
        invariant InBounds() && pos >= old(pos) && ParseChain(node, old(Rest())) == ParseChain(cur, Rest())
        decreases |tokens| - pos
      {
        if Sees(Dot) && ArrayProducing(cur) {
          assert Rest()[1..] == tokens[pos + 1..];
          pos := pos + 1;
          var inner := SubExpr();
          if inner == None {
            return None;
          }
          cur := Project(cur, inner.value);
        } else if Sees(Dot) {
          var step := Dotted(cur);
          if step == None {
            return None;
          }
          cur := step.value;
        } else if Sees(LBracket) {
          var step := Bracket(cur);
          if step == None {
            return None;
          }
          cur := step.value;
        } else {
          return Some(cur);
        }
      }
    }

    /** The dot steps of the chain loop: wildcard and field. */
    method Dotted(cur: Query) returns (r: Option<Query>)
      requires InBounds() && At(Rest(), Dot) && !ArrayProducing(cur)
      modifies this`pos
      ensures InBounds() && pos >= old(pos)
      ensures if r == None then ParseChain(cur, old(Rest())) == Fail
              else pos > old(pos) && ParseChain(cur, old(Rest())) == ParseChain(r.value, Rest())
    {
      assert Rest()[1..] == tokens[pos + 1..] && (|Rest()| > 1 ==> Rest()[2..] == tokens[pos + 2..]);
      pos := pos + 1;
      if Sees(Star) {
        pos := pos + 1;
        return Some(Wildcard(cur));
      }
      var field := ExpectIdent();
      return if field == None then None else Some(Field(field.value, cur));
    }

    /** The bracket steps of the chain loop: wildcard, index, flatten and filter. */
    method Bracket(cur: Query) returns (r: Option<Query>)
      requires InBounds() && At(Rest(), LBracket)
      modifies this`pos
      ensures InBounds() && pos >= old(pos)
      ensures if r == None then ParseChain(cur, old(Rest())) == Fail
              else pos > old(pos) && ParseChain(cur, old(Rest())) == ParseChain(r.value, Rest())
    {
      ghost var ts := Rest();
      assert ts[1..] == tokens[pos + 1..] && (|ts| > 1 ==> ts[2..] == tokens[pos + 2..]);
      assert |ts| > 2 ==> ts[3..] == tokens[pos + 3..];
      pos := pos + 1;
      if pos == |tokens| {
        return None;
      }
      var inner := tokens[pos];
      if inner == Star {
        pos := pos + 1;
        var ok := Expect(RBracket);
        return if ok then Some(Wildcard(cur)) else None;
      }
      if inner.Number? {
        pos := pos + 1;
        var ok := Expect(RBracket);
        return if ok then Some(Index(Trunc(inner.value), cur)) else None;
      }
      if inner == RBracket {
        pos := pos + 1;
        return Some(Flatten(cur));
      }
      if inner == Question {
        pos := pos + 1;
        r := FilterOf(cur);
        return;
      }
      return None;
    }

    method FilterOf(cur: Query) returns (r: Option<Query>)
      requires InBounds()
      modifies this`pos
      ensures InBounds() && pos >= old(pos)
      ensures var cond := ParseCondition(old(Rest()));
              if cond.Ok? && At(cond.rest, RBracket) then r == Some(Filter(cond.value, cur)) && Rest() == cond.rest[1..]
              else r == None
    {
      var cond := ConditionOf();
      if cond == None {
        return None;
      }
      assert |Rest()| > 0 ==> Rest()[1..] == tokens[pos + 1..];
      var ok := Expect(RBracket);
      return if ok then Some(Filter(cond.value, cur)) else None;
    }

    method PathOf(first: string) returns (r: Option<seq<string>>)
      requires InBounds()
      modifies this`pos
      ensures Agrees(r, PathRest([first], old(Rest()))) && pos >= old(pos)
    {
      var path := [first];
      while Sees(Dot)
        invariant InBounds() && pos >= old(pos) && PathRest([first], old(Rest())) == PathRest(path, Rest())
        decreases |tokens| - pos
      {
        assert |Rest()| > 1 ==> Rest()[2..] == tokens[pos + 2..];
        pos := pos + 1;
        var name := ExpectIdent();
        if name == None {
          return None;
        }
        path := path + [name.value];
      }
      return Some(path);
    }

    method ConditionOf() returns (r: Option<Condition>)
      requires InBounds()
      modifies this`pos
      ensures Agrees(r, ParseCondition(old(Rest()))) && pos >= old(pos)
    {
      assert |Rest()| > 0 ==> Rest()[1..] == tokens[pos + 1..];
      var first := ExpectIdent();
      if first == None {
        return None;
      }
      var path := PathOf(first.value);
      if path == None || pos + 2 > |tokens| || !tokens[pos].Op? {
        return None;
      }
      assert Rest()[2..] == tokens[pos + 2..];
      var op, value := tokens[pos].op, tokens[pos + 1];
      pos := pos + 2;
      match value {
        case Number(v) => return Some(Condition(path.value, op, Num(v)));
        case Text(s) => return Some(Condition(path.value, op, Str(s)));
        case Keyword(k) => return Some(Condition(path.value, op, k));
        case _ => return None;
      }
    }

    method Primary() returns (r: Option<Query>)
      requires InBounds()
      modifies this`pos
      ensures Agrees(r, ParsePrimary(old(Rest()))) && pos >= old(pos)
      decreases |tokens| - pos, 1
    {
      if pos == |tokens| {
        return None;
      }
      assert Rest()[1..] == tokens[pos + 1..];
      match tokens[pos] {
        case Ident(name) => pos := pos + 1; return Some(Field(name, Identity));
        case Star => pos := pos + 1; return Some(Wildcard(Identity));
        case LBrace => r := ProjectionOf();
        case LBracket => return Some(Identity);
        case Number(v) => pos := pos + 1; return Some(Literal(Num(v)));
        case Text(s) => pos := pos + 1; return Some(Literal(Str(s)));
        case Keyword(k) => pos := pos + 1; return Some(Literal(k));
        case _ => return None;
      }
    }

    method ProjectionOf() returns (r: Option<Query>)
      requires InBounds()
      modifies this`pos
      ensures Agrees(r, ParseProjection(old(Rest()))) && pos >= old(pos)
      decreases |tokens| - pos, 0
    {
      ghost var ts := Rest();
      assert |ts| > 0 ==> ts[1..] == tokens[pos + 1..];
      var ok := Expect(LBrace);
      if !ok {
        return None;
      }
      var fields: seq<Binding> := [];
      var more := true;
      while more && !Sees(RBrace)
        invariant InBounds() && pos > old(pos)
        invariant FieldsRest([], ts[1..]) == if more then FieldsRest(fields, Rest()) else Ok(fields, Rest())
        decreases more, |tokens| - pos
      {
        var field := FieldOf(fields);
        if field == None {
          return None;
        }
        fields := fields + [field.value];
        assert |Rest()| > 0 ==> Rest()[1..] == tokens[pos + 1..];
        more := Expect(Comma);
      }
      assert |Rest()| > 0 ==> Rest()[1..] == tokens[pos + 1..];
      ok := Expect(RBrace);
      return if ok then Some(Projection(fields)) else None;
    }

    /** One `name: query` of the field loop, `fields` being those before it. */
    method FieldOf(ghost fields: seq<Binding>) returns (r: Option<Binding>)
      requires InBounds() && !At(Rest(), RBrace)
      modifies this`pos
      ensures InBounds() && pos >= old(pos)
      ensures r == None ==> FieldsRest(fields, old(Rest())) == Fail
      ensures r.Some? ==>
                pos > old(pos) &&
                FieldsRest(fields, old(Rest())) ==
                if At(Rest(), Comma) then FieldsRest(fields + [r.value], Rest()[1..])
                else Ok(fields + [r.value], Rest())
      decreases |tokens| - pos, 5
    {
      ghost var ts := Rest();
      assert |ts| > 1 ==> ts[1] == tokens[pos + 1] && ts[2..] == tokens[pos + 2..];
      var name := ExpectIdent();
      if name == None {
        return None;
      }
      var ok := Expect(Colon);
      if !ok {
        return None;
      }
      var query := Pipes();
      return if query == None then None else Some(Binding(name.value, query.value));
    }
  }
}
