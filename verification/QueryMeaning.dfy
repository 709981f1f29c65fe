/**
 What each kind of query answers, told without the evaluator's own helpers: by positions in the array it is
 asked on, and by the way a path leads through objects.
 */
module QueryMeaning {
  import opened Prelude
  import opened QuerySyntax
  import opened QueryEval

  /** Positions of some elements of a sequence of length `n`, in order. */
  ghost predicate Ascending(at: seq<nat>, n: nat) {
    (forall k :: 0 <= k < |at| ==> at[k] < n) && forall j, k :: 0 <= j < k < |at| ==> at[j] < at[k]
  }

  // ---------------------------------------------------------------- paths

  /** Following the names of the path from object to object leads from `base` to `v`. */
  ghost predicate Leads(base: Json, path: seq<string>, v: Json) {
    exists nodes: seq<Json> :: Way(nodes, base, path, v)
  }

  ghost predicate Way(nodes: seq<Json>, base: Json, path: seq<string>, v: Json) {
    |nodes| == |path| + 1 && nodes[0] == base && nodes[|path|] == v &&
    forall k :: 0 <= k < |path| ==>
      nodes[k].Obj? && path[k] in nodes[k].fields && nodes[k + 1] == nodes[k].fields[path[k]]
  }

  lemma {:induction false} PathLeads(base: Json, path: seq<string>, v: Json)
    ensures GetPath(Some(base), path) == Some(v) <==> Leads(base, path, v)
    decreases |path|
  {
    if path == [] {
      assert Way([base], base, [], base);
    } else if base.Obj? && path[0] in base.fields {
      var next := base.fields[path[0]];
      PathLeads(next, path[1..], v);
      if Leads(next, path[1..], v) {
        var nodes :| Way(nodes, next, path[1..], v);
        WayOn(nodes, base, path, v);
      }
      if Leads(base, path, v) {
        var nodes :| Way(nodes, base, path, v);
        assert Way(nodes[1..], next, path[1..], v);
      }
    } else {
      assert Member(Some(base), path[0]) == None;
      assert GetPath(None, path[1..]) == None;
    }
  }

  lemma WayOn(nodes: seq<Json>, base: Json, path: seq<string>, v: Json)
    requires path != [] && base.Obj? && path[0] in base.fields && Way(nodes, base.fields[path[0]], path[1..], v)
    ensures Way([base] + nodes, base, path, v)
  {
    forall k | 0 < k < |path|
      ensures ([base] + nodes)[k].Obj? && path[k] in ([base] + nodes)[k].fields &&
              ([base] + nodes)[k + 1] == ([base] + nodes)[k].fields[path[k]]
    {
      assert nodes[k - 1].Obj? && path[1..][k - 1] == path[k];
    }
  }

  // ---------------------------------------------------------------- filters

  /** A condition holds of an element. */
  ghost predicate Meets(e: Json, cond: Condition) {
    match cond.op
    case Eq => Leads(e, cond.path, Atom(cond.value))
    case Ne => !Leads(e, cond.path, Atom(cond.value))
    case _ => exists x: real :: Leads(e, cond.path, Atom(Num(x))) && Stands(x, cond.op, cond.value)
  }

  /** The number `x` is on the side of the literal that the operator names. */
  ghost predicate Stands(x: real, op: CompareOp, literal: Scalar) {
    literal.Num? &&
    match op
    case Lt => x < literal.n
    case Le => x < literal.n || x == literal.n
    case Gt => literal.n < x
    case Ge => literal.n < x || x == literal.n
    case _ => false
  }

  lemma CompareMeets(e: Json, cond: Condition)
    ensures Compare(GetPath(Some(e), cond.path), cond.op, cond.value) <==> Meets(e, cond)
  {
    var found := GetPath(Some(e), cond.path);
    PathLeads(e, cond.path, Atom(cond.value));
    if found.Some? {
      PathLeads(e, cond.path, found.value);
    }
    forall x: real ensures Leads(e, cond.path, Atom(Num(x))) <==> found == Some(Atom(Num(x))) {
      PathLeads(e, cond.path, Atom(Num(x)));
    }
  }

  /** The elements at `at`, in order. */
  ghost predicate Picked(items: seq<Json>, at: seq<nat>, picked: seq<Json>) {
    Ascending(at, |items|) && |picked| == |at| && forall k :: 0 <= k < |at| ==> picked[k] == items[at[k]]
  }

  ghost predicate AllMeeting(items: seq<Json>, cond: Condition, at: seq<nat>) {
    forall i {:trigger Meets(items[i], cond)} :: 0 <= i < |items| ==> (i in at <==> Meets(items[i], cond))
  }

  /** The positions in a sequence with one more element in front, which is taken or not. */
  function Grown(first: bool, rest: seq<nat>): (at: seq<nat>)
    ensures |at| == |rest| + (if first then 1 else 0)
  {
    (if first then [0] else []) + seq(|rest|, k requires 0 <= k < |rest| => rest[k] + 1)
  }

  lemma GrownHas(first: bool, rest: seq<nat>, n: nat)
    requires Ascending(rest, n)
    ensures Ascending(Grown(first, rest), n + 1)
    ensures 0 in Grown(first, rest) <==> first
    ensures forall i: nat :: i > 0 ==> (i in Grown(first, rest) <==> i - 1 in rest)
  {
    var at, d := Grown(first, rest), if first then 1 else 0;
    assert forall k :: d <= k < |at| ==> at[k] == rest[k - d] + 1;
    forall i: nat | i > 0 ensures i in at <==> i - 1 in rest {
      GrownAt(first, rest, i);
    }
  }

  lemma GrownAt(first: bool, rest: seq<nat>, i: nat)
    requires i > 0
    ensures i in Grown(first, rest) <==> i - 1 in rest
  {
    var at, d := Grown(first, rest), if first then 1 else 0;
    if i - 1 in rest {
      var k :| 0 <= k < |rest| && rest[k] == i - 1;
      assert at[k + d] == i;
    }
    if i in at {
      var k :| 0 <= k < |at| && at[k] == i;
      assert rest[k - d] == i - 1;
    }
  }

  lemma PickedOn(items: seq<Json>, first: bool, rest: seq<nat>, picked: seq<Json>)
    requires items != [] && Picked(items[1..], rest, picked)
    ensures Picked(items, Grown(first, rest), (if first then [items[0]] else []) + picked)
  {
    GrownHas(first, rest, |items| - 1);
    var at, d, more := Grown(first, rest), if first then 1 else 0, (if first then [items[0]] else []) + picked;
    forall k | 0 <= k < |at| ensures more[k] == items[at[k]] {
      if k >= d {
        assert at[k] == rest[k - d] + 1 && more[k] == picked[k - d] == items[1..][rest[k - d]];
      }
    }
  }

  lemma MeetingOn(items: seq<Json>, cond: Condition, first: bool, rest: seq<nat>)
    requires items != [] && Ascending(rest, |items| - 1) && AllMeeting(items[1..], cond, rest)
    requires first <==> Meets(items[0], cond)
    ensures AllMeeting(items, cond, Grown(first, rest))
  {
    GrownHas(first, rest, |items| - 1);
    forall i | 0 <= i < |items| ensures i in Grown(first, rest) <==> Meets(items[i], cond) {
      if i > 0 {
        assert items[1..][i - 1] == items[i];
      }
    }
  }

  ghost function MeetingAt(items: seq<Json>, cond: Condition): seq<nat> {
    if items == [] then [] else Grown(Meets(items[0], cond), MeetingAt(items[1..], cond))
  }

  lemma {:induction false} SelectPicks(cond: Condition, items: seq<Json>)
    ensures Picked(items, MeetingAt(items, cond), Select(cond, items))
  {
    if items != [] {
      SelectPicks(cond, items[1..]);
      CompareMeets(items[0], cond);
      PickedOn(items, Meets(items[0], cond), MeetingAt(items[1..], cond), Select(cond, items[1..]));
    }
  }

  lemma {:induction false} MeetingAtAll(items: seq<Json>, cond: Condition)
    ensures Ascending(MeetingAt(items, cond), |items|) && AllMeeting(items, cond, MeetingAt(items, cond))
  {
    if items != [] {
      var first, rest := Meets(items[0], cond), MeetingAt(items[1..], cond);
      MeetingAtAll(items[1..], cond);
      MeetingOn(items, cond, first, rest);
      GrownHas(first, rest, |items| - 1);
    }
  }

  /**
   A filter answers, of the array its child answers, exactly the elements that meet the condition, in order;
   and nothing when the child answers no array.
   */
  lemma FilterAnswers(values: Listing, cond: Condition, child: Query, doc: Doc) returns (at: seq<nat>)
    ensures var base, r := Eval(values, child, doc), Eval(values, Filter(cond, child), doc);
            if base.Some? && base.value.Arr?
            then r.Some? && r.value.Arr? && Picked(base.value.items, at, r.value.items) &&
            AllMeeting(base.value.items, cond, at)
            else r == None
  {
    var base := Eval(values, child, doc);
    at := [];
    if base.Some? && base.value.Arr? {
      at := MeetingAt(base.value.items, cond);
      SelectPicks(cond, base.value.items);
      MeetingAtAll(base.value.items, cond);
    }
  }

  // ---------------------------------------------------------------- the other steps

  /** A field answers `v` exactly when its child answers an object that maps the name to `v`. */
  lemma FieldAnswers(values: Listing, name: string, child: Query, doc: Doc, v: Json)
    ensures Eval(values, Field(name, child), doc) == Some(v) <==>
            exists base :: Eval(values, child, doc) == Some(base) && Leads(base, [name], v)
  {
    var base := Eval(values, child, doc);
    if base.Some? {
      PathLeads(base.value, [name], v);
      PathSplits(base, [name]);
    }
  }

  /** `v` has `|front|` elements before it and `|back|` after it. */
  ghost predicate Between(items: seq<Json>, front: seq<Json>, v: Json, back: seq<Json>) {
    items == front + [v] + back
  }

  /** An index answers the element with that many before it; a negative one the element that far from the end. */
  lemma IndexAnswers(values: Listing, i: int, child: Query, doc: Doc, v: Json)
    ensures Eval(values, Index(i, child), doc) == Some(v) <==>
            exists items, front, back ::
              Eval(values, child, doc) == Some(Arr(items)) && Between(items, front, v, back) &&
              if i >= 0 then |front| == i else |back| + 1 == -i
  {
    var base := Eval(values, child, doc);
    if Eval(values, Index(i, child), doc) == Some(v) {
      var items := base.value.items;
      var at := if i < 0 then |items| + i else i;
      assert Between(items, items[..at], v, items[at + 1..]);
    }
  }

  /** A wildcard answers an array as it is, and of an object all its values. */
  lemma WildcardAnswers(values: Listing, child: Query, doc: Doc, items: seq<Json>)
    ensures Eval(values, Wildcard(child), doc) == Some(Arr(items)) <==>
            Eval(values, child, doc) == Some(Arr(items)) ||
            exists fields :: Eval(values, child, doc) == Some(Obj(fields)) && items == values(fields)
  {
    var base := Eval(values, child, doc);
    if base.Some? && base.value.Obj? {
      assert base == Some(Obj(base.value.fields));
    }
  }

  /** A literal answers itself, whatever it is asked of. */
  lemma LiteralAnswers(values: Listing, v: Scalar, before: Query, doc: Doc)
    ensures Eval(values, Pipe(before, Literal(v)), doc) == Some(Atom(v))
  {
  }

  /** What an element becomes when its array is flattened. */
  function Spilled(e: Json): seq<Json> {
    match e
    case Arr(inner) => inner
    case other => [other]
  }

  /** The element at `i` fills the places from `cuts[i]` up to `cuts[i + 1]`. */
  ghost predicate Spread(items: seq<Json>, cuts: seq<nat>, flat: seq<Json>) {
    |cuts| == |items| + 1 && cuts[0] == 0 && cuts[|items|] == |flat| &&
    forall i :: 0 <= i < |items| ==> Fills(items[i], cuts[i], cuts[i + 1], flat)
  }

  ghost predicate Fills(e: Json, from: nat, to: nat, flat: seq<Json>) {
    from <= to <= |flat| && flat[from..to] == Spilled(e)
  }

  lemma FillsBehind(head: seq<Json>, e: Json, from: nat, to: nat, flat: seq<Json>)
    requires Fills(e, from, to, flat)
    ensures Fills(e, |head| + from, |head| + to, head + flat)
  {
    assert (head + flat)[|head| + from..|head| + to] == flat[from..to];
  }

  lemma SpreadOn(items: seq<Json>, cuts: seq<nat>, flat: seq<Json>, longer: seq<nat>)
    requires items != [] && Spread(items[1..], cuts, flat)
    requires |longer| == |cuts| + 1 && longer[0] == 0
    requires forall i :: 0 <= i < |cuts| ==> longer[i + 1] == |Spilled(items[0])| + cuts[i]
    ensures Spread(items, longer, Spilled(items[0]) + flat)
  {
    var head := Spilled(items[0]);
    forall i | 0 <= i < |items| ensures Fills(items[i], longer[i], longer[i + 1], head + flat) {
      if i > 0 {
        assert items[1..][i - 1] == items[i];
        FillsBehind(head, items[i], cuts[i - 1], cuts[i], flat);
      } else {
        assert longer[1] == |head| + cuts[0] && (head + flat)[..|head|] == head;
      }
    }
  }

  lemma {:induction false} FlattenSpreads(items: seq<Json>) returns (cuts: seq<nat>)
    ensures Spread(items, cuts, FlattenOnce(items))
  {
    cuts := [0];
    if items != [] {
      var rest := FlattenSpreads(items[1..]);
      cuts := [0] + seq(|rest|, i requires 0 <= i < |rest| => |Spilled(items[0])| + rest[i]);
      SpreadOn(items, rest, FlattenOnce(items[1..]), cuts);
    }
  }

  /** Flattening puts the elements of an array that is an element in its place, and keeps every other element. */
  lemma FlattenAnswers(values: Listing, child: Query, doc: Doc) returns (cuts: seq<nat>)
    ensures var base, r := Eval(values, child, doc), Eval(values, Flatten(child), doc);
            if base.Some? && base.value.Arr?
            then r.Some? && r.value.Arr? && Spread(base.value.items, cuts, r.value.items)
            else r == None
  {
    var base := Eval(values, child, doc);
    cuts := [];
    if base.Some? && base.value.Arr? {
      cuts := FlattenSpreads(base.value.items);
    }
  }

  /** The answers of a query on each element, undefined ones included. */
  ghost function OnEach(values: Listing, q: Query, items: seq<Json>): (all: seq<Doc>)
    ensures |all| == |items|
    ensures forall i :: 0 <= i < |items| ==> all[i] == Eval(values, q, Some(items[i]))
  {
    seq(|items|, i requires 0 <= i < |items| => Eval(values, q, Some(items[i])))
  }

  /** The positions `at` are those of the answers that are defined. */
  ghost predicate AllDefined(all: seq<Doc>, at: seq<nat>) {
    forall i {:trigger all[i].Some?} :: 0 <= i < |all| ==> (i in at <==> all[i].Some?)
  }

  /** The answers at `at`, in order. */
  ghost predicate Defined(all: seq<Doc>, at: seq<nat>, answers: seq<Json>) {
    Ascending(at, |all|) && |answers| == |at| && forall k :: 0 <= k < |at| ==> all[at[k]] == Some(answers[k])
  }

  lemma AllDefinedOn(all: seq<Doc>, rest: seq<nat>)
    requires all != [] && Ascending(rest, |all| - 1) && AllDefined(all[1..], rest)
    ensures AllDefined(all, Grown(all[0].Some?, rest))
  {
    GrownHas(all[0].Some?, rest, |all| - 1);
    forall i | 0 <= i < |all| ensures i in Grown(all[0].Some?, rest) <==> all[i].Some? {
      if i > 0 {
        assert all[1..][i - 1].Some? <==> i - 1 in rest;
      }
    }
  }

  lemma DefinedOn(all: seq<Doc>, rest: seq<nat>, answers: seq<Json>)
    requires all != [] && Defined(all[1..], rest, answers)
    ensures Defined(all, Grown(all[0].Some?, rest), (if all[0].Some? then [all[0].value] else []) + answers)
  {
    GrownHas(all[0].Some?, rest, |all| - 1);
    var at, d := Grown(all[0].Some?, rest), if all[0].Some? then 1 else 0;
    var more := (if all[0].Some? then [all[0].value] else []) + answers;
    forall k | 0 <= k < |at| ensures all[at[k]] == Some(more[k]) {
      if k >= d {
        assert at[k] == rest[k - d] + 1 && more[k] == answers[k - d] && all[1..][rest[k - d]] == all[at[k]];
      }
    }
  }

  ghost function DefinedAt(all: seq<Doc>): seq<nat> {
    if all == [] then [] else Grown(all[0].Some?, DefinedAt(all[1..]))
  }

  lemma {:induction false} DefinedAtAll(all: seq<Doc>)
    ensures Ascending(DefinedAt(all), |all|) && AllDefined(all, DefinedAt(all))
  {
    if all != [] {
      DefinedAtAll(all[1..]);
      AllDefinedOn(all, DefinedAt(all[1..]));
      GrownHas(all[0].Some?, DefinedAt(all[1..]), |all| - 1);
    }
  }

  lemma {:induction false} EachAnswers(values: Listing, q: Query, items: seq<Json>)
    ensures Defined(OnEach(values, q, items), DefinedAt(OnEach(values, q, items)), EvalEach(values, q, items))
    decreases |items|
  {
    if items != [] {
      var all := OnEach(values, q, items);
      assert all[1..] == OnEach(values, q, items[1..]);
      EachAnswers(values, q, items[1..]);
      DefinedOn(all, DefinedAt(all[1..]), EvalEach(values, q, items[1..]));
    }
  }

  /** A projected query answers its answers on the elements, in order, leaving out those it has none for. */
  lemma ProjectAnswers(values: Listing, source: Query, each: Query, doc: Doc) returns (at: seq<nat>)
    ensures var base, r := Eval(values, source, doc), Eval(values, Project(source, each), doc);
            if base.Some? && base.value.Arr?
            then r.Some? && r.value.Arr? && Defined(OnEach(values, each, base.value.items), at, r.value.items) &&
                 AllDefined(OnEach(values, each, base.value.items), at)
            else r == None
  {
    var base := Eval(values, source, doc);
    at := [];
    if base.Some? && base.value.Arr? {
      at := DefinedAt(OnEach(values, each, base.value.items));
      EachAnswers(values, each, base.value.items);
      DefinedAtAll(OnEach(values, each, base.value.items));
    }
  }

  /** The binding at `i` is the last of its name that has an answer. */
  ghost predicate Binds(values: Listing, fields: seq<Binding>, doc: Doc, i: nat, name: string, v: Json) {
    i < |fields| && fields[i].name == name && Eval(values, fields[i].query, doc) == Some(v) &&
    forall j :: i < j < |fields| && fields[j].name == name ==> Eval(values, fields[j].query, doc) == None
  }

  lemma BindsBefore(values: Listing, fields: seq<Binding>, doc: Doc, i: nat, name: string, v: Json)
    requires |fields| > 0
    requires fields[|fields| - 1].name != name || Eval(values, fields[|fields| - 1].query, doc) == None
    ensures Binds(values, fields, doc, i, name, v) <==> Binds(values, fields[..|fields| - 1], doc, i, name, v)
  {
    var front := fields[..|fields| - 1];
    assert forall j :: 0 <= j < |front| ==> front[j] == fields[j];
  }

  lemma {:induction false} FieldsBind(values: Listing, fields: seq<Binding>, doc: Doc, name: string, v: Json)
    ensures (name in EvalFields(values, fields, doc) && EvalFields(values, fields, doc)[name] == v) <==>
            exists i :: Binds(values, fields, doc, i, name, v)
    decreases |fields|
  {
    if fields != [] {
      var front, f := fields[..|fields| - 1], fields[|fields| - 1];
      if f.name == name && Eval(values, f.query, doc).Some? {
        assert Eval(values, f.query, doc) == Some(v) ==> Binds(values, fields, doc, |front|, name, v);
      } else {
        FieldsBind(values, front, doc, name, v);
        forall i: nat ensures Binds(values, fields, doc, i, name, v) <==> Binds(values, front, doc, i, name, v) {
          BindsBefore(values, fields, doc, i, name, v);
        }
      }
    }
  }

  /**
   A projection answers an object, and `v` under `name` exactly when the last binding of it with an answer
   has `v`.
   */
  lemma ProjectionAnswers(values: Listing, fields: seq<Binding>, doc: Doc, name: string, v: Json)
    ensures var r := Eval(values, Projection(fields), doc);
            r.Some? && r.value.Obj? &&
            (name in r.value.fields && r.value.fields[name] == v <==>
             exists i :: Binds(values, fields, doc, i, name, v))
  {
    FieldsBind(values, fields, doc, name, v);
  }
}
