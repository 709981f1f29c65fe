/**
 The body reshaper: rules that read by query and write through dotted paths.

 `Put` and `Cut` are the path write and the pruning path delete on values; their laws come first, then
 what a whole set of rules does.
 */
module BodyReshaper {
  import opened Prelude
  import opened QuerySyntax
  import opened QueryEval

  type Members = map<string, Json>
  type Path = seq<string>

  /** The object below a key; a new one where there is none. */
  function Below(o: Members, k: string): Members {
    if k in o && o[k].Obj? then o[k].fields else map[]
  }

  function Put(o: Members, path: Path, v: Json): Members
    decreases |path|, 0
  {
    if path == [] then o else o[path[0] := PutValue(Below(o, path[0]), path[1..], v)]
  }

  function PutValue(below: Members, rest: Path, v: Json): Json
    decreases |rest|, 1
  {
    if rest == [] then v else Obj(Put(below, rest, v))
  }

  /** All but the last key of the path lead through objects. */
  predicate Reaches(o: Members, path: Path)
    decreases |path|
  {
    |path| <= 1 || (path[0] in o && o[path[0]].Obj? && Reaches(o[path[0]].fields, path[1..]))
  }

  function Cut(o: Members, path: Path): Members
    decreases |path|
  {
    if path == [] || !Reaches(o, path) then o
    else if |path| == 1 then o - {path[0]}
    else
      var rest := Cut(o[path[0]].fields, path[1..]);
      if rest == map[] then o - {path[0]} else o[path[0] := Obj(rest)]
  }

  function Read(o: Members, path: Path): Doc {
    GetPath(Some(Obj(o)), path)
  }

  /** The objects passed on the way down, as far as there are objects; new ones after that. */
  function Spine(o: Members, path: Path, i: nat): Members
    requires i <= |path|
  {
    if i == 0 then o else Below(Spine(o, path, i - 1), path[i - 1])
  }

  lemma {:induction false} SpineBelow(o: Members, path: Path, i: nat)
    requires 0 < i <= |path|
    ensures Spine(o, path, i) == Spine(Below(o, path[0]), path[1..], i - 1)
  {
    if i > 1 {
      SpineBelow(o, path, i - 1);
    }
  }

  /** The objects on the way to where the last key belongs; new empty ones where there are none. */
  method Descend(root: Members, path: Path) returns (stack: seq<Members>)
    requires path != []
    ensures |stack| == |path| && forall j :: 0 <= j < |path| ==> stack[j] == Spine(root, path, j)
  {
    stack := [root];
    var i := 0;
    while i < |path| - 1
      invariant 0 <= i <= |path| - 1 && |stack| == i + 1
      invariant forall j :: 0 <= j <= i ==> stack[j] == Spine(root, path, j)
    {
      var next: Members := map[];
      if path[i] in stack[i] && stack[i][path[i]].Obj? {
        next := stack[i][path[i]].fields;
      }
      stack := stack + [next];
      i := i + 1;
    }
  }

  /** Writes a value at a path, with objects made on the way. */
  method SetPath(root: Members, path: Path, value: Json) returns (r: Members)
    ensures r == Put(root, path, value)
  {
    if path == [] {
      return root;
    }
    var stack: seq<Members> := Descend(root, path);
    var i := |path| - 1;
    r := stack[i][path[i] := value];
    while i > 0
      invariant 0 <= i < |path| && r == Put(Spine(root, path, i), path[i..], value)
    {
      i := i - 1;
      PutStep(Spine(root, path, i), path, i, value);
      r := stack[i][path[i] := Obj(r)];
    }
    assert path[0..] == path;
  }

  lemma {:induction false} PutStep(o: Members, path: Path, i: nat, v: Json)
    requires i < |path| - 1
    ensures Put(o, path[i..], v) == o[path[i] := Obj(Put(Below(o, path[i]), path[i + 1..], v))]
  {
    assert path[i..][1..] == path[i + 1..];
  }

  lemma {:induction false} ReachesSpine(o: Members, path: Path, i: nat)
    requires i < |path|
    ensures Reaches(o, path) ==> Reaches(Spine(o, path, i), path[i..])
    ensures Reaches(o, path) && i < |path| - 1 ==> path[i] in Spine(o, path, i) && Spine(o, path, i)[path[i]].Obj?
    decreases i
  {
    if i == 0 {
      assert path[0..] == path;
    } else {
      ReachesSpine(o, path, i - 1);
      assert path[i - 1..][1..] == path[i..];
    }
  }

  lemma {:induction false} CutStep(o: Members, path: Path, i: nat)
    requires i < |path| - 1 && path[i] in o && o[path[i]].Obj? && Reaches(o[path[i]].fields, path[i + 1..])
    ensures Reaches(o, path[i..])
    ensures var rest := Cut(o[path[i]].fields, path[i + 1..]);
            Cut(o, path[i..]) == if rest == map[] then o - {path[i]} else o[path[i] := Obj(rest)]
  {
    assert path[i..][1..] == path[i + 1..];
  }

  /** Deletes the leaf and prunes the objects it leaves empty; nothing when the way is not there. */
  method DeletePath(root: Members, path: Path) returns (r: Members)
    ensures r == Cut(root, path)
  {
    if path == [] {
      return root;
    }
    var stack: seq<Members> := Descend(root, path);
    var i := 0;
    while i < |path| - 1
      invariant 0 <= i <= |path| - 1 && AllObjects(root, path, i)
    {
      if !(path[i] in stack[i] && stack[i][path[i]].Obj?) {
        ReachesSpine(root, path, i);
        return root;
      }
      i := i + 1;
    }
    r := PruneUp(root, path, stack);
  }

  predicate AllObjects(root: Members, path: Path, n: nat)
    requires n <= |path|
  {
    forall j :: 0 <= j < n ==> path[j] in Spine(root, path, j) && Spine(root, path, j)[path[j]].Obj?
  }

  /** What the walk back up has at position `i`: the object there without the path. */
  predicate Pruned(root: Members, path: Path, i: nat, r: Members)
    requires i < |path|
  {
    Reaches(Spine(root, path, i), path[i..]) && r == Cut(Spine(root, path, i), path[i..])
  }

  lemma PruneStep(root: Members, path: Path, i: nat, r: Members)
    requires i < |path| - 1 && AllObjects(root, path, |path| - 1) && Pruned(root, path, i + 1, r)
    ensures var o := Spine(root, path, i);
            Pruned(root, path, i, if r == map[] then o - {path[i]} else o[path[i] := Obj(r)])
  {
    assert path[i] in Spine(root, path, i);
    CutStep(Spine(root, path, i), path, i);
  }

  /** Walks back up while the object below has become empty. */
  method PruneUp(root: Members, path: Path, stack: seq<Members>) returns (r: Members)
    requires path != [] && |stack| == |path| && forall j :: 0 <= j < |path| ==> stack[j] == Spine(root, path, j)
    requires AllObjects(root, path, |path| - 1)
    ensures r == Cut(root, path)
  {
    var i := |path| - 1;
    r := stack[i] - {path[i]};
    while i > 0
      invariant 0 <= i < |path| && Pruned(root, path, i, r)
    {
      i := i - 1;
      PruneStep(root, path, i, r);
      r := if r == map[] then stack[i] - {path[i]} else stack[i][path[i] := Obj(r)];
    }
    assert path[0..] == path;
  }

  // ---------------------------------------------------------------- laws of the path write

  lemma ReadStep(o: Members, path: Path)
    requires path != []
    ensures Read(o, path) ==
            if |path| > 1 then Read(Below(o, path[0]), path[1..])
            else if path[0] in o then Some(o[path[0]]) else None
  {
    var here, rest := Member(Some(Obj(o)), path[0]), path[1..];
    assert Read(o, path) == GetPath(here, rest);
    if rest == [] {
      assert GetPath(here, []) == here;
    } else if here.Some? && here.value.Obj? {
      assert here == Some(Obj(Below(o, path[0])));
    } else {
      ReadEmpty(rest);
    }
  }

  lemma ReadEmpty(path: Path)
    requires path != []
    ensures Read(map[], path) == None
  {
    NothingInNothing(path[1..]);
  }

  lemma {:induction false} NothingInNothing(rest: Path)
    ensures GetPath(None, rest) == None
  {
  }

  lemma {:induction false} PutReadsBack(o: Members, path: Path, v: Json)
    requires path != []
    ensures Read(Put(o, path, v), path) == Some(v)
    decreases |path|
  {
    ReadStep(Put(o, path, v), path);
    if |path| > 1 {
      PutReadsBack(Below(o, path[0]), path[1..], v);
    }
  }

  /** Neither is a prefix of the other. */
  predicate Apart(p: Path, q: Path)
    decreases |p|
  {
    p != [] && q != [] && (p[0] != q[0] || Apart(p[1..], q[1..]))
  }

  lemma {:induction false} ApartIsIncomparable(p: Path, q: Path)
    ensures Apart(p, q) <==> !(p <= q) && !(q <= p)
    decreases |p|
  {
    if p != [] && q != [] && p[0] == q[0] {
      ApartIsIncomparable(p[1..], q[1..]);
      assert p == [p[0]] + p[1..] && q == [q[0]] + q[1..];
      if p[1..] <= q[1..] {
        assert q[..|p|] == [q[0]] + q[1..][..|p| - 1];
      }
      if q[1..] <= p[1..] {
        assert p[..|q|] == [p[0]] + p[1..][..|q| - 1];
      }
      if p <= q {
        assert p[1..] == q[1..][..|p| - 1];
      }
      if q <= p {
        assert q[1..] == p[1..][..|q| - 1];
      }
    }
  }

  lemma {:induction false} PutLeavesOthers(o: Members, p: Path, v: Json, q: Path)
    requires Apart(p, q)
    ensures Read(Put(o, p, v), q) == Read(o, q)
    decreases |p|
  {
    ReadStep(o, q);
    ReadStep(Put(o, p, v), q);
    if p[0] == q[0] {
      PutLeavesOthers(Below(o, p[0]), p[1..], v, q[1..]);
    }
  }

  /** Writes to paths apart from each other may be swapped. */
  lemma {:induction false} PutsCommute(o: Members, p: Path, v: Json, q: Path, w: Json)
    requires Apart(p, q)
    ensures Put(Put(o, p, v), q, w) == Put(Put(o, q, w), p, v)
    decreases |p|
  {
    var x, y := PutValue(Below(o, p[0]), p[1..], v), PutValue(Below(o, q[0]), q[1..], w);
    if p[0] == q[0] {
      PutsCommute(Below(o, p[0]), p[1..], v, q[1..], w);
      SetTwice(o, p[0], x, PutValue(Below(o[p[0] := x], q[0]), q[1..], w));
      SetTwice(o, p[0], y, PutValue(Below(o[p[0] := y], p[0]), p[1..], v));
    } else {
      SetBoth(o, p[0], x, q[0], y);
      BelowOther(o, p[0], x, q[0]);
      BelowOther(o, q[0], y, p[0]);
    }
  }

  lemma SetTwice<K, V>(m: map<K, V>, k: K, x: V, y: V)
    ensures m[k := x][k := y] == m[k := y]
  {
  }

  lemma SetBoth<K, V>(m: map<K, V>, j: K, x: V, k: K, y: V)
    requires j != k
    ensures m[j := x][k := y] == m[k := y][j := x]
  {
  }

  lemma BelowOther(o: Members, k: string, x: Json, j: string)
    requires j != k
    ensures Below(o[k := x], j) == Below(o, j)
  {
  }

  /** Of two writes to one path the last counts. */
  lemma {:induction false} PutTwice(o: Members, p: Path, v: Json, w: Json)
    ensures Put(Put(o, p, v), p, w) == Put(o, p, w)
    decreases |p|
  {
    if |p| > 1 {
      PutTwice(Below(o, p[0]), p[1..], v, w);
    }
  }

  /** Below a path that gets a plain value, the order of two writes always shows. */
  lemma {:induction false} OrderShows(o: Members, p: Path, v: Json, rest: Path, w: Json)
    requires p != [] && rest != [] && !v.Obj?
    ensures Put(Put(o, p, v), p + rest, w) != Put(Put(o, p + rest, w), p, v)
  {
    PutReadsBack(Put(o, p, v), p + rest, w);
    PutReadsBack(Put(o, p + rest, w), p, v);
    ReadOn(Some(Obj(Put(Put(o, p + rest, w), p, v))), p, rest);
  }

  lemma {:induction false} ReadOn(base: Doc, p: Path, rest: Path)
    ensures GetPath(base, p + rest) == GetPath(GetPath(base, p), rest)
    decreases |p|
  {
    if p == [] {
      assert p + rest == rest;
    } else {
      assert (p + rest)[0] == p[0] && (p + rest)[1..] == p[1..] + rest;
      if base.Some? && base.value.Obj? {
        ReadOn(Member(base, p[0]), p[1..], rest);
      }
    }
  }

  // ---------------------------------------------------------------- laws of the path delete

  lemma {:induction false} NotReachedReads(o: Members, p: Path)
    requires !Reaches(o, p)
    ensures Read(o, p) == None
    decreases |p|
  {
    ReadStep(o, p);
    if p[0] in o && o[p[0]].Obj? {
      NotReachedReads(o[p[0]].fields, p[1..]);
    } else {
      ReadEmpty(p[1..]);
    }
  }

  lemma {:induction false} CutRemoves(o: Members, p: Path)
    requires p != []
    ensures Read(Cut(o, p), p) == None
    decreases |p|
  {
    ReadStep(Cut(o, p), p);
    ReadStep(o, p);
    if |p| > 1 {
      if Reaches(o, p) {
        CutRemoves(o[p[0]].fields, p[1..]);
        ReadEmpty(p[1..]);
      } else {
        NotReachedReads(o, p);
      }
    } else {
      assert Cut(o, p) == o - {p[0]};
    }
  }

  lemma {:induction false} CutLeavesOthers(o: Members, p: Path, q: Path)
    requires Apart(p, q)
    ensures Read(Cut(o, p), q) == Read(o, q)
    decreases |p|
  {
    ReadStep(o, q);
    ReadStep(Cut(o, p), q);
    if p[0] == q[0] && Reaches(o, p) {
      CutLeavesOthers(o[p[0]].fields, p[1..], q[1..]);
    }
  }

  /** From position `k` on, the objects on the way hold nothing but the way. */
  predicate OnlyTheWay(o: Members, p: Path, k: nat)
    requires k < |p|
  {
    forall j :: k <= j < |p| ==> Spine(o, p, j).Keys <= {p[j]}
  }

  lemma {:induction false} CutEmpties(o: Members, p: Path)
    requires p != [] && Reaches(o, p)
    ensures Cut(o, p) == map[] <==> OnlyTheWay(o, p, 0)
    decreases |p|
  {
    if |p| == 1 {
      assert OnlyTheWay(o, p, 0) <==> Spine(o, p, 0).Keys <= {p[0]};
      assert (o - {p[0]}).Keys == o.Keys - {p[0]};
      if Cut(o, p) == map[] {
        assert o.Keys - {p[0]} == {};
      }
      if o.Keys <= {p[0]} {
        assert (o - {p[0]}).Keys == {};
      }
    } else {
      CutEmpties(o[p[0]].fields, p[1..]);
      WayBelow(o, p);
      assert (o - {p[0]}).Keys == o.Keys - {p[0]};
      if Cut(o, p) == map[] {
        assert p[0] !in Cut(o, p);
        assert o.Keys - {p[0]} == {};
      }
      if OnlyTheWay(o, p, 0) {
        assert Spine(o, p, 0).Keys <= {p[0]};
        assert (o - {p[0]}).Keys == {};
      }
    }
  }

  lemma WayBelow(o: Members, p: Path)
    requires |p| > 1
    ensures OnlyTheWay(o, p, 0) <==> o.Keys <= {p[0]} && OnlyTheWay(Below(o, p[0]), p[1..], 0)
  {
    forall j | 0 < j < |p| ensures Spine(o, p, j) == Spine(Below(o, p[0]), p[1..], j - 1) {
      SpineBelow(o, p, j);
    }
    if OnlyTheWay(Below(o, p[0]), p[1..], 0) && o.Keys <= {p[0]} {
      forall j | 0 <= j < |p| ensures Spine(o, p, j).Keys <= {p[j]} {
        if j > 0 {
          assert p[1..][j - 1] == p[j];
        }
      }
    }
    if OnlyTheWay(o, p, 0) {
      assert Spine(o, p, 0).Keys <= {p[0]};
      forall j | 0 <= j < |p| - 1 ensures Spine(Below(o, p[0]), p[1..], j).Keys <= {p[1..][j]} {
        assert Spine(o, p, j + 1).Keys <= {p[j + 1]};
      }
    }
  }

  /** Exactly the ancestors left empty are pruned: those that held nothing but the way to the leaf. */
  lemma {:induction false} PrunesExactly(o: Members, p: Path, k: nat)
    requires 0 < k < |p| && Reaches(o, p)
    ensures Read(Cut(o, p), p[..k]) == None <==> OnlyTheWay(o, p, k)
    decreases |p|
  {
    var sub, rest := o[p[0]].fields, p[1..];
    assert p[..k][1..] == rest[..k - 1];
    forall j | 0 < j < |p| ensures Spine(o, p, j) == Spine(sub, rest, j - 1) && rest[j - 1] == p[j] {
      SpineBelow(o, p, j);
    }
    assert OnlyTheWay(o, p, k) <==> OnlyTheWay(sub, rest, k - 1) by {
      if OnlyTheWay(sub, rest, k - 1) {
        forall j | k <= j < |p| ensures Spine(o, p, j).Keys <= {p[j]} {
          assert Spine(sub, rest, j - 1).Keys <= {rest[j - 1]};
        }
      }
      if OnlyTheWay(o, p, k) {
        assert forall j :: k <= j < |p| ==> Spine(o, p, j).Keys <= {p[j]};
        assert forall j :: k - 1 <= j < |rest| ==> Spine(sub, rest, j) == Spine(o, p, j + 1);
      }
    }
    CutEmpties(sub, rest);
    ReadStep(Cut(o, p), p[..k]);
    if k > 1 {
      PrunesExactly(sub, rest, k - 1);
      if Cut(sub, rest) == map[] {
        assert OnlyTheWay(sub, rest, k - 1);
      }
    }
  }

  /**
   When deleting undoes writing: nothing was there, nothing was overwritten, and the object written into was
   not empty.
   */
  predicate Undoable(o: Members, p: Path)
    requires p != []
    decreases |p|
  {
    if p[0] !in o then true
    else |p| > 1 && o[p[0]].Obj? && o[p[0]].fields != map[] && Undoable(o[p[0]].fields, p[1..])
  }

  lemma {:induction false} PutReaches(o: Members, p: Path, v: Json)
    ensures Reaches(Put(o, p, v), p)
    decreases |p|
  {
    if |p| > 1 {
      PutReaches(Below(o, p[0]), p[1..], v);
    }
  }

  lemma {:induction false} CutUndoesPut(o: Members, p: Path, v: Json)
    requires p != []
    ensures Cut(Put(o, p, v), p) == o <==> Undoable(o, p)
    decreases |p|
  {
    var after := Put(o, p, v);
    PutReaches(o, p, v);
    if |p| == 1 {
      assert after - {p[0]} == o - {p[0]};
      assert p[0] !in o ==> o - {p[0]} == o;
    } else {
      var sub, rest := Below(o, p[0]), p[1..];
      CutUndoesPut(sub, rest, v);
      var back := Cut(Put(sub, rest, v), rest);
      assert after - {p[0]} == o - {p[0]};
      if p[0] !in o {
        UndoFromNothing(rest, v);
        assert o - {p[0]} == o;
      } else if back != map[] {
        assert after[p[0] := Obj(back)] == o[p[0] := Obj(back)];
        if o[p[0] := Obj(back)] == o {
          assert o[p[0]] == Obj(back);
        }
      }
    }
  }

  lemma {:induction false} UndoFromNothing(p: Path, v: Json)
    requires p != []
    ensures Cut(Put(map[], p, v), p) == map[]
    decreases |p|
  {
    PutReaches(map[], p, v);
    if |p| == 1 {
      assert Put(map[], p, v) - {p[0]} == map[];
    } else {
      UndoFromNothing(p[1..], v);
      assert Put(map[], p, v) - {p[0]} == map[];
    }
  }

  // ---------------------------------------------------------------- rules

  /** `fromPath` is the path a move clears, taken from the text of the query. */
  datatype Rule = Rule(query: Query, to: Path, fromPath: Path, fallback: Doc, move: bool, declaredFrom: string)

  datatype Outcome = Outcome(body: Members, moved: seq<string>, missing: seq<string>)

  /** The value a rule writes, if any. */
  function Resolved(values: Listing, rule: Rule, body: Json, working: Members, isolate: bool): Doc {
    var first := Eval(values, rule.query, Some(body));
    var second := if first == None && !isolate then Eval(values, rule.query, Some(Obj(working))) else first;
    if second == None then rule.fallback else second
  }

  function Applied(values: Listing, rule: Rule, body: Json, isolate: bool, passthrough: bool, s: Outcome): Outcome {
    var value := Resolved(values, rule, body, s.body, isolate);
    if value == None then s.(missing := s.missing + [rule.declaredFrom])
    else
      var written := Put(s.body, rule.to, value.value);
      if rule.move && passthrough then
        Outcome(Cut(written, rule.fromPath), s.moved + [rule.declaredFrom], s.missing)
      else s.(body := written)
  }

  function Reshaped(values: Listing, rules: seq<Rule>, body: Json, isolate: bool, passthrough: bool): Outcome
    requires passthrough ==> body.Obj?
  {
    if rules == [] then Outcome(if passthrough then body.fields else map[], [], [])
    else
      Applied(values, rules[|rules| - 1], body, isolate, passthrough,
              Reshaped(values, rules[..|rules| - 1], body, isolate, passthrough))
  }

  /** Applies the rules in order; passing a body through needs one that is an object. */
  method Reshape(values: Listing, rules: seq<Rule>, body: Json, isolate: bool, passthrough: bool) returns (r: Outcome)
    requires passthrough ==> body.Obj?
    ensures r == Reshaped(values, rules, body, isolate, passthrough)
  {
    var working: Members := if passthrough then body.fields else map[];
    var moved, missing: seq<string> := [], [];
    var i := 0;
    while i < |rules|
      invariant 0 <= i <= |rules|
      invariant Outcome(working, moved, missing) == Reshaped(values, rules[..i], body, isolate, passthrough)
    {
      var rule := rules[i];
      assert rules[..i + 1][..i] == rules[..i];
      var value := Eval(values, rule.query, Some(body));
      if value == None && !isolate {
        value := Eval(values, rule.query, Some(Obj(working)));
      }
      if value == None {
        value := rule.fallback;
      }
      if value == None {
        missing := missing + [rule.declaredFrom];
      } else {
        working := SetPath(working, rule.to, value.value);
        if rule.move && passthrough {
          working := DeletePath(working, rule.fromPath);
          moved := moved + [rule.declaredFrom];
        }
      }
      i := i + 1;
    }
    assert rules[..i] == rules;
    r := Outcome(working, moved, missing);
  }

  /** A move keeps its destination and clears its source when the two are apart. */
  lemma {:induction false} MoveMoves(o: Members, from: Path, to: Path, v: Json)
    requires Apart(from, to)
    ensures var after := Cut(Put(o, to, v), from);
            Read(after, to) == Some(v) && Read(after, from) == None
  {
    ApartIsIncomparable(from, to);
    PutReadsBack(o, to, v);
    CutLeavesOthers(Put(o, to, v), from, to);
    CutRemoves(Put(o, to, v), from);
  }

  /** Moving a value to a place below where it came from, or onto itself, loses it. */
  lemma {:induction false} MoveBelowItselfLoses(o: Members, from: Path, rest: Path, v: Json)
    requires from != []
    ensures Read(Cut(Put(o, from + rest, v), from), from + rest) == None
  {
    CutRemoves(Put(o, from + rest, v), from);
    ReadOn(Some(Obj(Cut(Put(o, from + rest, v), from))), from, rest);
    NothingInNothing(rest);
  }

  /** A delete at the path finds nothing: the way breaks off, or ends in an object with other keys but not the leaf. */
  predicate Spares(o: Members, p: Path)
    requires p != []
    decreases |p|
  {
    if |p| == 1 then p[0] !in o && o != map[]
    else p[0] in o && o[p[0]].Obj? ==> Spares(o[p[0]].fields, p[1..])
  }

  /** Such a delete changes nothing, and leaves an object above nothing to prune. */
  lemma {:induction false} CutSpares(o: Members, p: Path)
    requires p != []
    ensures Spares(o, p) <==> Cut(o, p) == o && (o == map[] ==> !Reaches(o, p))
    decreases |p|
  {
    if |p| == 1 {
      if p[0] in o {
        assert p[0] !in o - {p[0]};
      } else {
        assert o - {p[0]} == o;
      }
    } else if p[0] in o && o[p[0]].Obj? {
      var sub := o[p[0]].fields;
      CutSpares(sub, p[1..]);
      if Reaches(o, p) {
        assert Cut(o, p) == o ==> p[0] in Cut(o, p) && Cut(sub, p[1..]) != map[] && Obj(Cut(sub, p[1..])) == o[p[0]];
        assert Cut(sub, p[1..]) == sub && sub != map[] ==> Cut(o, p) == o;
      }
    }
  }

  lemma {:induction false} CutAfterPut(o: Members, to: Path, rest: Path, v: Json)
    requires to != [] && rest != []
    ensures Read(Cut(Put(o, to, v), to + rest), to) == Some(v) <==> !v.Obj? || Spares(v.fields, rest)
    decreases |to|
  {
    var written, path, k := Put(o, to, v), to + rest, to[0];
    assert path[0] == k && path[1..] == to[1..] + rest;
    ReadStep(Cut(written, path), to);
    PutReadsBack(o, to, v);
    if |to| == 1 {
      assert path[1..] == rest;
      if v.Obj? {
        CutSpares(v.fields, rest);
      }
    } else {
      CutAfterPut(Below(o, k), to[1..], rest, v);
      var sub := Put(Below(o, k), to[1..], v);
      assert written[k] == Obj(sub);
      ReadStep(written, to);
      if Reaches(written, path) && Cut(sub, path[1..]) == map[] {
        ReadEmpty(to[1..]);
        ReadEmpty(to);
      }
    }
  }

  /**
   A move keeps the value at its destination exactly when there is no source path to clear, or the two paths
   are apart, or the source lies below the destination and the value written has nothing there.
   */
  lemma {:induction false} MoveKeepsExactly(o: Members, from: Path, to: Path, v: Json)
    requires to != []
    ensures Read(Cut(Put(o, to, v), from), to) == Some(v) <==>
            from == [] || Apart(from, to) || (to < from && (!v.Obj? || Spares(v.fields, from[|to|..])))
  {
    ApartIsIncomparable(from, to);
    PutReadsBack(o, to, v);
    if from == [] {
    } else if Apart(from, to) {
      MoveMoves(o, from, to, v);
    } else if from <= to {
      var rest := to[|from|..];
      assert to == from + rest;
      MoveBelowItselfLoses(o, from, rest, v);
    } else {
      var rest := from[|to|..];
      assert from == to + rest;
      CutAfterPut(o, to, rest, v);
    }
  }

  /** Moving what is at `a.b` to `a` loses it when it holds a `b` itself. */
  lemma MoveUpLoses(o: Members)
    ensures var v := Obj(map["b" := Atom(Null)]);
            Read(Cut(Put(o, ["a"], v), ["a", "b"]), ["a"]) != Some(v)
  {
    var v := Obj(map["b" := Atom(Null)]);
    var from, to := ["a", "b"], ["a"];
    assert from[|to|..] == ["b"] && from != to;
    MoveKeepsExactly(o, from, to, v);
  }

  // ---------------------------------------------------------------- rules in any order

  datatype Write = Write(to: Path, value: Json)

  function Written(o: Members, ws: seq<Write>): Members {
    if ws == [] then o else Put(Written(o, ws[..|ws| - 1]), ws[|ws| - 1].to, ws[|ws| - 1].value)
  }

  /** What the rules write when they read the original body only. */
  function WriteOf(values: Listing, rule: Rule, body: Json): seq<Write> {
    var value := Resolved(values, rule, body, map[], true);
    if value == None then [] else [Write(rule.to, value.value)]
  }

  function Writes(values: Listing, rules: seq<Rule>, body: Json): seq<Write> {
    if rules == [] then []
    else Writes(values, rules[..|rules| - 1], body) + WriteOf(values, rules[|rules| - 1], body)
  }

  lemma {:induction false} WrittenConcat(o: Members, ws: seq<Write>, us: seq<Write>)
    ensures Written(o, ws + us) == Written(Written(o, ws), us)
    decreases |us|
  {
    if us == [] {
      assert ws + us == ws;
    } else {
      WrittenConcat(o, ws, us[..|us| - 1]);
      assert (ws + us)[..|ws + us| - 1] == ws + us[..|us| - 1];
    }
  }

  lemma ApplyIsWriting(values: Listing, rule: Rule, body: Json, s: Outcome)
    ensures Applied(values, rule, body, true, false, s).body == Written(s.body, WriteOf(values, rule, body))
  {
    assert Resolved(values, rule, body, s.body, true) == Resolved(values, rule, body, map[], true);
  }

  lemma {:induction false} ReshapeIsWriting(values: Listing, rules: seq<Rule>, body: Json)
    ensures Reshaped(values, rules, body, true, false).body == Written(map[], Writes(values, rules, body))
  {
    if rules != [] {
      var front, rule := rules[..|rules| - 1], rules[|rules| - 1];
      ReshapeIsWriting(values, front, body);
      ApplyIsWriting(values, rule, body, Reshaped(values, front, body, true, false));
      WrittenConcat(map[], Writes(values, front, body), WriteOf(values, rule, body));
    }
  }

  ghost predicate AllApart(ws: seq<Write>) {
    forall i, j :: 0 <= i < j < |ws| ==> Apart(ws[i].to, ws[j].to)
  }

  function Dropped<T>(s: seq<T>, j: nat): (r: seq<T>)
    requires j < |s|
    ensures |r| == |s| - 1
  {
    s[..j] + s[j + 1..]
  }

  lemma DroppedFront<T>(s: seq<T>, j: nat)
    requires j < |s| - 1
    ensures var d := Dropped(s, j); d[..|d| - 1] == Dropped(s[..|s| - 1], j) && d[|d| - 1] == s[|s| - 1]
  {
  }

  /** Any of the writes may as well come last. */
  lemma {:induction false} WriteLast(o: Members, ws: seq<Write>, j: nat)
    requires j < |ws| && AllApart(ws)
    ensures Written(o, ws) == Put(Written(o, Dropped(ws, j)), ws[j].to, ws[j].value)
    decreases |ws|
  {
    var n := |ws| - 1;
    var front, last := ws[..n], ws[n];
    if j == n {
      assert Dropped(ws, j) == front;
    } else {
      WriteLast(o, front, j);
      DroppedFront(ws, j);
      PutsCommute(Written(o, Dropped(front, j)), ws[j].to, ws[j].value, last.to, last.value);
    }
  }

  lemma DroppedApart(ws: seq<Write>, j: nat)
    requires j < |ws| && AllApart(ws)
    ensures AllApart(Dropped(ws, j))
  {
    var d := Dropped(ws, j);
    forall a, b | 0 <= a < b < |d| ensures Apart(d[a].to, d[b].to) {
      assert d[a] == ws[if a < j then a else a + 1] && d[b] == ws[if b < j then b else b + 1];
    }
  }

  lemma BagAround<T>(a: seq<T>, x: T, b: seq<T>)
    ensures multiset(a + [x] + b) == multiset(a + b) + multiset{x}
  {
  }

  lemma DroppedBag<T>(s: seq<T>, j: nat, t: seq<T>)
    requires j < |s| && t != [] && s[j] == t[|t| - 1] && multiset(s) == multiset(t)
    ensures multiset(Dropped(s, j)) == multiset(t[..|t| - 1])
  {
    var x, front := s[j], t[..|t| - 1];
    assert s == s[..j] + [x] + s[j + 1..] && t == front + [x] + [] && front + [] == front;
    BagAround(s[..j], x, s[j + 1..]);
    BagAround(front, x, []);
    CancelOne(multiset(Dropped(s, j)), multiset(front), x);
  }

  /** The same writes, apart from each other, in any order. */
  lemma {:induction false} WritesAnyOrder(o: Members, ws: seq<Write>, us: seq<Write>)
    requires AllApart(ws) && multiset(ws) == multiset(us)
    ensures Written(o, ws) == Written(o, us)
    decreases |ws|
  {
    if us == [] {
      assert |multiset(ws)| == 0;
    } else {
      var x := us[|us| - 1];
      assert x in multiset(ws);
      var j :| 0 <= j < |ws| && ws[j] == x;
      WriteLast(o, ws, j);
      DroppedApart(ws, j);
      DroppedBag(ws, j, us);
      WritesAnyOrder(o, Dropped(ws, j), us[..|us| - 1]);
    }
  }

  /** Destinations are pairwise apart. */
  ghost predicate Disjoint(rules: seq<Rule>) {
    forall i, j :: 0 <= i < j < |rules| ==> Apart(rules[i].to, rules[j].to)
  }

  lemma {:induction false} WritesComeFrom(values: Listing, rules: seq<Rule>, body: Json)
    requires Disjoint(rules)
    ensures AllApart(Writes(values, rules, body))
    ensures forall w :: w in Writes(values, rules, body) ==> exists i :: 0 <= i < |rules| && rules[i].to == w.to
  {
    if rules != [] {
      var n := |rules| - 1;
      var front := rules[..n];
      WritesComeFrom(values, front, body);
      var ws, all := Writes(values, front, body), Writes(values, rules, body);
      forall w | w in all ensures exists i :: 0 <= i < |rules| && rules[i].to == w.to {
        if w in ws {
          var i :| 0 <= i < |front| && front[i].to == w.to;
          assert rules[i].to == w.to;
        } else {
          assert rules[n].to == w.to;
        }
      }
      if |all| > |ws| {
        forall i | 0 <= i < |ws| ensures Apart(all[i].to, all[|ws|].to) {
          assert ws[i] in ws;
          var k :| 0 <= k < |front| && front[k].to == ws[i].to;
          assert rules[k].to == all[i].to;
        }
      }
    }
  }

  function Collected<R, W>(f: R -> seq<W>, rs: seq<R>): seq<W> {
    if rs == [] then [] else Collected(f, rs[..|rs| - 1]) + f(rs[|rs| - 1])
  }

  lemma {:induction false} CollectedDropped<R, W>(f: R -> seq<W>, rs: seq<R>, j: nat)
    requires j < |rs|
    ensures multiset(Collected(f, rs)) == multiset(Collected(f, Dropped(rs, j))) + multiset(f(rs[j]))
    decreases |rs|
  {
    var n := |rs| - 1;
    var front := rs[..n];
    if j == n {
      assert Dropped(rs, j) == front;
    } else {
      CollectedDropped(f, front, j);
      var d := Dropped(rs, j);
      assert d[..n - 1] == Dropped(front, j) && d[n - 1] == rs[n];
    }
  }

  lemma {:induction false} CollectedBag<R, W>(f: R -> seq<W>, rs: seq<R>, others: seq<R>)
    requires multiset(rs) == multiset(others)
    ensures multiset(Collected(f, rs)) == multiset(Collected(f, others))
    decreases |rs|
  {
    if others == [] {
      assert |multiset(rs)| == 0;
    } else {
      var x := others[|others| - 1];
      assert x in multiset(rs);
      var j :| 0 <= j < |rs| && rs[j] == x;
      DroppedBag(rs, j, others);
      CollectedBag(f, Dropped(rs, j), others[..|others| - 1]);
      CollectedDropped(f, rs, j);
    }
  }

  lemma {:induction false} WritesAreCollected(values: Listing, rules: seq<Rule>, body: Json, f: Rule -> seq<Write>)
    requires forall r :: f(r) == WriteOf(values, r, body)
    ensures Writes(values, rules, body) == Collected(f, rules)
  {
    if rules != [] {
      WritesAreCollected(values, rules[..|rules| - 1], body, f);
      assert f(rules[|rules| - 1]) == WriteOf(values, rules[|rules| - 1], body);
    }
  }

  lemma {:induction false} WritesBag(values: Listing, rules: seq<Rule>, others: seq<Rule>, body: Json)
    requires multiset(rules) == multiset(others)
    ensures multiset(Writes(values, rules, body)) == multiset(Writes(values, others, body))
  {
    var f := (r: Rule) => WriteOf(values, r, body);
    WritesAreCollected(values, rules, body, f);
    WritesAreCollected(values, others, body, f);
    CollectedBag(f, rules, others);
  }

  /**
   Reading only the original body, rules with destinations apart from each other give the same result in any
   order.
   */
  lemma {:induction false} RulesInAnyOrder(values: Listing, rules: seq<Rule>, others: seq<Rule>, body: Json)
    requires Disjoint(rules) && multiset(rules) == multiset(others)
    ensures Reshaped(values, rules, body, true, false).body == Reshaped(values, others, body, true, false).body
  {
    ReshapeIsWriting(values, rules, body);
    ReshapeIsWriting(values, others, body);
    WritesComeFrom(values, rules, body);
    WritesBag(values, rules, others, body);
    WritesAnyOrder(map[], Writes(values, rules, body), Writes(values, others, body));
  }

  /** And every value written is found at its destination. */
  lemma {:induction false} DestinationsReadBack(values: Listing, rules: seq<Rule>, body: Json, j: nat)
    requires Disjoint(rules) && j < |Writes(values, rules, body)| && Writes(values, rules, body)[j].to != []
    ensures var w := Writes(values, rules, body)[j];
            Read(Reshaped(values, rules, body, true, false).body, w.to) == Some(w.value)
  {
    var ws := Writes(values, rules, body);
    ReshapeIsWriting(values, rules, body);
    WritesComeFrom(values, rules, body);
    WriteLast(map[], ws, j);
    PutReadsBack(Written(map[], Dropped(ws, j)), ws[j].to, ws[j].value);
  }

  /**
   One rule more, that does not move: its destination has the answer of its query on the body; without one, and
   unless only the body may be read, the answer on what is written so far; without that the default; and without
   any the rule is reported missing and nothing changes.
   */
  lemma RuleWrites(values: Listing, rules: seq<Rule>, rule: Rule, body: Json, isolate: bool, passthrough: bool)
    requires (passthrough ==> body.Obj?) && rule.to != [] && !(rule.move && passthrough)
    ensures var before, after := Reshaped(values, rules, body, isolate, passthrough),
            Reshaped(values, rules + [rule], body, isolate, passthrough);
            var answer, staged := Eval(values, rule.query, Some(body)),
              Eval(values, rule.query, Some(Obj(before.body)));
            var value := if answer.Some? then answer else if !isolate && staged.Some? then staged else rule.fallback;
            if value == None then after == before.(missing := before.missing + [rule.declaredFrom])
            else Read(after.body, rule.to) == value && after.missing == before.missing && after.moved == before.moved
  {
    var all := rules + [rule];
    assert all[..|all| - 1] == rules;
    var before := Reshaped(values, rules, body, isolate, passthrough);
    var value := Resolved(values, rule, body, before.body, isolate);
    if value.Some? {
      PutReadsBack(before.body, rule.to, value.value);
    }
  }
}
