/**
 The tree-walking evaluator, and a transformation that keeps its meaning: `Unpipe` rewrites any query
 into one without pipes.
 */
module QueryEval {
  import opened Prelude
  import opened QuerySyntax

  datatype Json = Atom(value: Scalar) | Arr(items: seq<Json>) | Obj(fields: map<string, Json>)

  /** A document or result; `None` stands for no match, the program's undefined. */
  type Doc = Option<Json>

  /** The values of an object in the order its runtime lists them, which is not modelled. */
  type Listing = map<string, Json> -> seq<Json>

  function Member(base: Doc, name: string): Doc {
    if base.Some? && base.value.Obj? && name in base.value.fields then Some(base.value.fields[name]) else None
  }

  function GetPath(base: Doc, path: seq<string>): Doc
    decreases |path|
  {
    if path == [] then base
    else if base.None? || !base.value.Obj? then None
    else GetPath(Member(base, path[0]), path[1..])
  }

  function Compare(left: Doc, op: CompareOp, right: Scalar): bool {
    var numbers := left.Some? && left.value.Atom? && left.value.value.Num? && right.Num?;
    match op
    case Eq => left == Some(Atom(right))
    case Ne => left != Some(Atom(right))
    case Lt => numbers && left.value.value.n < right.n
    case Le => numbers && left.value.value.n <= right.n
    case Gt => numbers && left.value.value.n > right.n
    case Ge => numbers && left.value.value.n >= right.n
  }

  function Eval(values: Listing, q: Query, doc: Doc): Doc
    decreases q, 0
  {
    match q
    case Identity => doc
    case Literal(v) => Some(Atom(v))
    case Field(name, child) => Member(Eval(values, child, doc), name)
    case Project(source, each) =>
      var base := Eval(values, source, doc);
      if base.Some? && base.value.Arr? then Some(Arr(EvalEach(values, each, base.value.items))) else None
    case Index(index, child) =>
      var base := Eval(values, child, doc);
      if base.None? || !base.value.Arr? then None
      else
        var n := |base.value.items|;
        var i := if index < 0 then n + index else index;
        if 0 <= i < n then Some(base.value.items[i]) else None
    case Wildcard(child) =>
      var base := Eval(values, child, doc);
      if base.None? || base.value.Atom? then None
      else if base.value.Arr? then base
      else Some(Arr(values(base.value.fields)))
    case Flatten(child) =>
      var base := Eval(values, child, doc);
      if base.Some? && base.value.Arr? then Some(Arr(FlattenOnce(base.value.items))) else None
    case Filter(cond, child) =>
      var base := Eval(values, child, doc);
      if base.Some? && base.value.Arr? then Some(Arr(Select(cond, base.value.items))) else None
    case Projection(fields) => Some(Obj(EvalFields(values, fields, doc)))
    case Pipe(left, right) => Eval(values, right, Eval(values, left, doc))
  }

  /** The query on each element, dropping the undefined results. */
  function EvalEach(values: Listing, q: Query, items: seq<Json>): seq<Json>
    decreases q, 1, |items|
  {
    if items == [] then []
    else
      var v := Eval(values, q, Some(items[0]));
      (if v.Some? then [v.value] else []) + EvalEach(values, q, items[1..])
  }

  function EvalFields(values: Listing, fields: seq<Binding>, doc: Doc): map<string, Json>
    decreases fields, 1
  {
    if fields == [] then map[]
    else
      var f := fields[|fields| - 1];
      var before := EvalFields(values, fields[..|fields| - 1], doc);
      var v := Eval(values, f.query, doc);
      if v.Some? then before[f.name := v.value] else before
  }

  function FlattenOnce(items: seq<Json>): seq<Json> {
    if items == [] then [] else (if items[0].Arr? then items[0].items else [items[0]]) + FlattenOnce(items[1..])
  }

  function Select(cond: Condition, items: seq<Json>): seq<Json> {
    if items == [] then []
    else
      var rest := Select(cond, items[1..]);
      if Compare(GetPath(Some(items[0]), cond.path), cond.op, cond.value) then [items[0]] + rest else rest
  }

  // ---------------------------------------------------------------- a filter's path is a query

  function Fields(path: seq<string>): Query {
    if path == [] then Identity else Field(path[|path| - 1], Fields(path[..|path| - 1]))
  }

  lemma {:induction false} PathSplits(base: Doc, path: seq<string>)
    requires path != []
    ensures GetPath(base, path) == Member(GetPath(base, path[..|path| - 1]), path[|path| - 1])
    decreases |path|
  {
    if |path| > 1 && base.Some? && base.value.Obj? {
      var rest := path[1..];
      PathSplits(Member(base, path[0]), rest);
      assert rest[..|rest| - 1] == path[..|path| - 1][1..];
    }
  }

  /** The path of a filter condition selects what the field query with the same names selects. */
  lemma {:induction false} PathIsFields(values: Listing, base: Doc, path: seq<string>)
    ensures Eval(values, Fields(path), base) == GetPath(base, path)
  {
    if path != [] {
      PathIsFields(values, base, path[..|path| - 1]);
      PathSplits(base, path);
    }
  }

  // ---------------------------------------------------------------- pipes can be eliminated

  /** `q` with `input` in place of the document it reads. */
  function Feed(q: Query, input: Query): Query
    decreases q, 0
  {
    match q
    case Identity => input
    case Literal(v) => q
    case Field(name, c) => Field(name, Feed(c, input))
    case Index(i, c) => Index(i, Feed(c, input))
    case Wildcard(c) => Wildcard(Feed(c, input))
    case Flatten(c) => Flatten(Feed(c, input))
    case Filter(cond, c) => Filter(cond, Feed(c, input))
    case Project(s, e) => Project(Feed(s, input), e)
    case Projection(fields) => Projection(FeedFields(fields, input))
    case Pipe(l, r) => Pipe(Feed(l, input), r)
  }

  function FeedFields(fields: seq<Binding>, input: Query): (r: seq<Binding>)
    ensures |r| == |fields|
    decreases fields, 1
  {
    if fields == [] then []
    else
      var f := fields[|fields| - 1];
      FeedFields(fields[..|fields| - 1], input) + [Binding(f.name, Feed(f.query, input))]
  }

  function Unpipe(q: Query): Query
    decreases q, 0
  {
    match q
    case Identity => q
    case Literal(v) => q
    case Field(name, c) => Field(name, Unpipe(c))
    case Index(i, c) => Index(i, Unpipe(c))
    case Wildcard(c) => Wildcard(Unpipe(c))
    case Flatten(c) => Flatten(Unpipe(c))
    case Filter(cond, c) => Filter(cond, Unpipe(c))
    case Project(s, e) => Project(Unpipe(s), Unpipe(e))
    case Projection(fields) => Projection(UnpipeFields(fields))
    case Pipe(l, r) => Feed(Unpipe(r), Unpipe(l))
  }

  function UnpipeFields(fields: seq<Binding>): (r: seq<Binding>)
    ensures |r| == |fields|
    decreases fields, 1
  {
    if fields == [] then []
    else
      var f := fields[|fields| - 1];
      UnpipeFields(fields[..|fields| - 1]) + [Binding(f.name, Unpipe(f.query))]
  }

  lemma {:induction false} FeedMeans(values: Listing, q: Query, input: Query, doc: Doc)
    ensures Eval(values, Feed(q, input), doc) == Eval(values, q, Eval(values, input, doc))
    decreases q, 0
  {
    match q
    case Identity =>
    case Literal(v) =>
    case Field(name, c) => FeedMeans(values, c, input, doc);
    case Index(i, c) => FeedMeans(values, c, input, doc);
    case Wildcard(c) => FeedMeans(values, c, input, doc);
    case Flatten(c) => FeedMeans(values, c, input, doc);
    case Filter(cond, c) => FeedMeans(values, c, input, doc);
    case Project(s, e) => FeedMeans(values, s, input, doc);
    case Projection(fields) => FeedFieldsMeans(values, fields, input, doc);
    case Pipe(l, r) => FeedMeans(values, l, input, doc);
  }

  lemma {:induction false} FeedFieldsMeans(values: Listing, fields: seq<Binding>, input: Query, doc: Doc)
    ensures EvalFields(values, FeedFields(fields, input), doc) == EvalFields(values, fields, Eval(values, input, doc))
    decreases fields, 1
  {
    if fields != [] {
      var front, f := fields[..|fields| - 1], fields[|fields| - 1];
      var fed := FeedFields(fields, input);
      assert fed[..|fed| - 1] == FeedFields(front, input);
      FeedFieldsMeans(values, front, input, doc);
      FeedMeans(values, f.query, input, doc);
    }
  }

  /** Dropping the pipes changes no result. */
  lemma {:induction false} UnpipeMeans(values: Listing, q: Query, doc: Doc)
    ensures Eval(values, Unpipe(q), doc) == Eval(values, q, doc)
    decreases q, 0
  {
    match q
    case Identity =>
    case Literal(v) =>
    case Field(name, c) => UnpipeMeans(values, c, doc);
    case Index(i, c) => UnpipeMeans(values, c, doc);
    case Wildcard(c) => UnpipeMeans(values, c, doc);
    case Flatten(c) => UnpipeMeans(values, c, doc);
    case Filter(cond, c) => UnpipeMeans(values, c, doc);
    case Project(s, e) => UnpipeProjectMeans(values, s, e, doc);
    case Projection(fields) => UnpipeFieldsMeans(values, fields, doc);
    case Pipe(l, r) => UnpipePipeMeans(values, l, r, doc);
  }

  lemma {:induction false} UnpipePipeMeans(values: Listing, l: Query, r: Query, doc: Doc)
    ensures Eval(values, Feed(Unpipe(r), Unpipe(l)), doc) == Eval(values, r, Eval(values, l, doc))
    decreases Pipe(l, r), -1
  {
    FeedMeans(values, Unpipe(r), Unpipe(l), doc);
    UnpipeMeans(values, l, doc);
    UnpipeMeans(values, r, Eval(values, l, doc));
  }

  lemma {:induction false} UnpipeProjectMeans(values: Listing, s: Query, e: Query, doc: Doc)
    ensures Eval(values, Project(Unpipe(s), Unpipe(e)), doc) == Eval(values, Project(s, e), doc)
    decreases Project(s, e), -1
  {
    UnpipeMeans(values, s, doc);
    var base := Eval(values, s, doc);
    if base.Some? && base.value.Arr? {
      UnpipeEachMeans(values, e, base.value.items);
    }
  }

  lemma {:induction false} UnpipeEachMeans(values: Listing, q: Query, items: seq<Json>)
    ensures EvalEach(values, Unpipe(q), items) == EvalEach(values, q, items)
    decreases q, 1, |items|
  {
    if items != [] {
      UnpipeMeans(values, q, Some(items[0]));
      UnpipeEachMeans(values, q, items[1..]);
    }
  }

  lemma {:induction false} UnpipeFieldsMeans(values: Listing, fields: seq<Binding>, doc: Doc)
    ensures EvalFields(values, UnpipeFields(fields), doc) == EvalFields(values, fields, doc)
    decreases fields, 1
  {
    if fields != [] {
      var front, f := fields[..|fields| - 1], fields[|fields| - 1];
      var un := UnpipeFields(fields);
      assert un[..|un| - 1] == UnpipeFields(front);
      UnpipeFieldsMeans(values, front, doc);
      UnpipeMeans(values, f.query, doc);
    }
  }

  predicate PipeFree(q: Query)
    decreases q
  {
    match q
    case Identity => true
    case Literal(_) => true
    case Field(_, c) => PipeFree(c)
    case Index(_, c) => PipeFree(c)
    case Wildcard(c) => PipeFree(c)
    case Flatten(c) => PipeFree(c)
    case Filter(_, c) => PipeFree(c)
    case Project(s, e) => PipeFree(s) && PipeFree(e)
    case Projection(fields) => forall i :: 0 <= i < |fields| ==> PipeFree(fields[i].query)
    case Pipe(_, _) => false
  }

  lemma {:induction false} FeedPipeFree(q: Query, input: Query)
    requires PipeFree(q) && PipeFree(input)
    ensures PipeFree(Feed(q, input))
    decreases q, 0
  {
    match q
    case Identity =>
    case Literal(_) =>
    case Field(_, c) => FeedPipeFree(c, input);
    case Index(_, c) => FeedPipeFree(c, input);
    case Wildcard(c) => FeedPipeFree(c, input);
    case Flatten(c) => FeedPipeFree(c, input);
    case Filter(_, c) => FeedPipeFree(c, input);
    case Project(s, _) => FeedPipeFree(s, input);
    case Projection(fields) => FeedFieldsPipeFree(fields, input);
  }

  lemma {:induction false} FeedFieldsPipeFree(fields: seq<Binding>, input: Query)
    requires PipeFree(input) && forall i :: 0 <= i < |fields| ==> PipeFree(fields[i].query)
    ensures forall i :: 0 <= i < |fields| ==> PipeFree(FeedFields(fields, input)[i].query)
    decreases fields, 1
  {
    if fields != [] {
      FeedFieldsPipeFree(fields[..|fields| - 1], input);
      FeedPipeFree(fields[|fields| - 1].query, input);
    }
  }

  /** And no pipe is left. */
  lemma {:induction false} UnpipeIsPipeFree(q: Query)
    ensures PipeFree(Unpipe(q))
    decreases q, 0
  {
    match q
    case Identity =>
    case Literal(_) =>
    case Field(_, c) => UnpipeIsPipeFree(c);
    case Index(_, c) => UnpipeIsPipeFree(c);
    case Wildcard(c) => UnpipeIsPipeFree(c);
    case Flatten(c) => UnpipeIsPipeFree(c);
    case Filter(_, c) => UnpipeIsPipeFree(c);
    case Project(s, e) => UnpipeIsPipeFree(s); UnpipeIsPipeFree(e);
    case Projection(fields) => UnpipeFieldsPipeFree(fields);
    case Pipe(l, r) =>
      UnpipeIsPipeFree(l);
      UnpipeIsPipeFree(r);
      FeedPipeFree(Unpipe(r), Unpipe(l));
  }

  lemma {:induction false} UnpipeFieldsPipeFree(fields: seq<Binding>)
    ensures forall i :: 0 <= i < |fields| ==> PipeFree(UnpipeFields(fields)[i].query)
    decreases fields, 1
  {
    if fields != [] {
      UnpipeFieldsPipeFree(fields[..|fields| - 1]);
      UnpipeIsPipeFree(fields[|fields| - 1].query);
    }
  }
}
