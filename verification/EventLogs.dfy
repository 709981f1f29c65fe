/**
 The event logs of the session stitcher: one time-ordered log per subject, aliases from anonymous
 identities to users, and the merge that an identification brings.
 */
module EventLogs {
  import opened Prelude
  import opened StableSort
  import Records = SessionRecords

  type Log<E> = seq<Stamped<E>>

  datatype Book<K, E> = Book(aliases: map<K, K>, logs: map<K, Log<E>>)

  function LogOf<K, E>(b: Book<K, E>, k: K): Log<E> {
    if k in b.logs then b.logs[k] else []
  }

  /** Two ordered logs as one; on equal times the first log's events come first. */
  function Merged<E>(a: Log<E>, b: Log<E>): Log<E>
    decreases |a| + |b|
  {
    if a == [] then b
    else if b == [] then a
    else if a[0].ts <= b[0].ts then [a[0]] + Merged(a[1..], b)
    else [b[0]] + Merged(a, b[1..])
  }

  lemma MergedNext<E>(a: Log<E>, b: Log<E>, i: nat, j: nat, out: Log<E>)
    requires i < |a| && j < |b|
    ensures out + Merged(a[i..], b[j..]) ==
            if a[i].ts <= b[j].ts then out + [a[i]] + Merged(a[i + 1..], b[j..])
            else out + [b[j]] + Merged(a[i..], b[j + 1..])
  {
    assert a[i..][1..] == a[i + 1..] && b[j..][1..] == b[j + 1..];
    if a[i].ts <= b[j].ts {
      Regroup(out, [a[i]], Merged(a[i + 1..], b[j..]));
    } else {
      Regroup(out, [b[j]], Merged(a[i..], b[j + 1..]));
    }
  }

  lemma Regroup<T>(a: seq<T>, b: seq<T>, c: seq<T>)
    ensures a + b + c == a + (b + c)
  {
  }

  method MergeSorted<E>(a: Log<E>, b: Log<E>) returns (out: Log<E>)
    ensures out == Merged(a, b)
  {
    out := [];
    var i, j := 0, 0;
    while i < |a| && j < |b|
      invariant 0 <= i <= |a| && 0 <= j <= |b|
      invariant out + Merged(a[i..], b[j..]) == Merged(a, b)
    {
      MergedNext(a, b, i, j, out);
      if a[i].ts <= b[j].ts {
        out := out + [a[i]];
        i := i + 1;
      } else {
        out := out + [b[j]];
        j := j + 1;
      }
    }
    out := out + a[i..] + b[j..];
  }

  /** The position after the last event that is not later, by binary search. */
  method InsertSorted<E>(log: Log<E>, e: Stamped<E>) returns (r: Log<E>)
    requires Sorted(log)
    ensures r == Inserted(log, e)
  {
    var lo, hi := 0, |log|;
    while lo < hi
      invariant 0 <= lo <= hi <= |log|
      invariant forall i :: 0 <= i < lo ==> log[i].ts <= e.ts
      invariant forall i :: hi <= i < |log| ==> log[i].ts > e.ts
    {
      var mid := (lo + hi) / 2;
      if log[mid].ts <= e.ts {
        lo := mid + 1;
      } else {
        hi := mid;
      }
    }
    InsertSplits(log, e, lo);
    r := log[..lo] + [e] + log[lo..];
  }

  lemma {:induction false} LaterNotAt<E>(a: Log<E>, t: int)
    requires Sorted(a) && (a != [] ==> a[0].ts > t)
    ensures At(a, t) == []
  {
    NoneAt(a, t);
  }

  lemma {:induction false} MergedAt<E>(a: Log<E>, b: Log<E>, t: int)
    requires Sorted(a) && Sorted(b)
    ensures At(Merged(a, b), t) == At(a, t) + At(b, t)
    decreases |a| + |b|
  {
    if a == [] || b == [] {
    } else if a[0].ts <= b[0].ts {
      var x, rest := a[0], a[1..];
      MergedAt(rest, b, t);
      assert a == [x] + rest;
      FirstOfA(x, rest, b, Merged(rest, b), t);
    } else {
      var y, rest := b[0], b[1..];
      MergedAt(a, rest, t);
      assert b == [y] + rest;
      if t == y.ts {
        LaterNotAt(a, t);
      }
      FirstOfB(a, y, rest, Merged(a, rest), t);
    }
  }

  lemma {:induction false} FirstOfA<E>(x: Stamped<E>, rest: Log<E>, b: Log<E>, merged: Log<E>, t: int)
    requires At(merged, t) == At(rest, t) + At(b, t)
    ensures At([x] + merged, t) == At([x] + rest, t) + At(b, t)
  {
    HeadAt(x, merged, t);
    HeadAt(x, rest, t);
  }

  lemma {:induction false} FirstOfB<E>(a: Log<E>, y: Stamped<E>, rest: Log<E>, merged: Log<E>, t: int)
    requires At(merged, t) == At(a, t) + At(rest, t) && (t == y.ts ==> At(a, t) == [])
    ensures At([y] + merged, t) == At(a, t) + At([y] + rest, t)
  {
    HeadAt(y, merged, t);
    HeadAt(y, rest, t);
  }

  lemma {:induction false} HeadAt<E>(x: Stamped<E>, rest: Log<E>, t: int)
    ensures At([x] + rest, t) == if x.ts == t then [x] + At(rest, t) else At(rest, t)
  {
    AtConcat([x], rest, t);
    AtSnoc([], x, t);
    assert [] + [x] == [x];
  }

  /** Nothing in the merge is earlier than what both logs start with. */
  lemma {:induction false} MergedFrom<E>(a: Log<E>, b: Log<E>, t: int)
    requires forall i :: 0 <= i < |a| ==> t <= a[i].ts
    requires forall i :: 0 <= i < |b| ==> t <= b[i].ts
    ensures forall i :: 0 <= i < |Merged(a, b)| ==> t <= Merged(a, b)[i].ts
    decreases |a| + |b|
  {
    if a == [] || b == [] {
    } else if a[0].ts <= b[0].ts {
      MergedFrom(a[1..], b, t);
    } else {
      MergedFrom(a, b[1..], t);
    }
  }

  lemma {:induction false} MergedSorted<E>(a: Log<E>, b: Log<E>)
    requires Sorted(a) && Sorted(b)
    ensures Sorted(Merged(a, b))
    decreases |a| + |b|
  {
    if a == [] || b == [] {
    } else if a[0].ts <= b[0].ts {
      MergedSorted(a[1..], b);
      MergedFrom(a[1..], b, a[0].ts);
    } else {
      MergedSorted(a, b[1..]);
      MergedFrom(a, b[1..], b[0].ts);
    }
  }

  /** Merging two ordered logs is sorting their concatenation. */
  lemma {:induction false} MergeIsSort<E>(a: Log<E>, b: Log<E>)
    requires Sorted(a) && Sorted(b)
    ensures Merged(a, b) == SortOf(a + b)
  {
    MergedSorted(a, b);
    SortIsStable(a + b, 0);
    forall t ensures At(Merged(a, b), t) == At(SortOf(a + b), t) {
      MergedAt(a, b, t);
      AtConcat(a, b, t);
      SortIsStable(a + b, t);
    }
    StableSortUnique(Merged(a, b), SortOf(a + b));
  }

  lemma {:induction false} MergedBag<E>(a: Log<E>, b: Log<E>)
    requires Sorted(a) && Sorted(b)
    ensures multiset(Merged(a, b)) == multiset(a) + multiset(b)
  {
    MergeIsSort(a, b);
    SortBag(a + b);
  }

  // ---------------------------------------------------------------- the book

  function Identified<K(==), E>(b: Book<K, E>, anonymous: K, user: K): Book<K, E> {
    if anonymous in b.aliases && b.aliases[anonymous] == user then b
    else
      var aliases := b.aliases[anonymous := user];
      var mine := LogOf(b, anonymous);
      if mine == [] then Book(aliases, b.logs)
      else Book(aliases, b.logs[user := Merged(LogOf(b, user), mine)][anonymous := []])
  }

  /** Who an event is filed under, if anyone. */
  function Subject<K, E>(b: Book<K, E>, user: Option<K>, anonymous: Option<K>): Option<K> {
    Records.SubjectIn(b.aliases, user, anonymous)
  }

  function Tracked<K(==), E>(b: Book<K, E>, user: Option<K>, anonymous: Option<K>, e: Stamped<E>): Book<K, E> {
    match Subject(b, user, anonymous)
    case None => b
    case Some(k) => b.(logs := b.logs[k := Inserted(LogOf(b, k), e)])
  }

  class SessionStitcher<K(==, !new), E(==, !new), I(==)> {
    const gapMs: int
    const name: Records.Naming<K, I>
    var aliases: map<K, K>
    var logs: map<K, Log<E>>
    var sessions: map<K, Records.Records<K, I>>
    var lastSeen: map<K, int>

    constructor (gapMs: int, name: Records.Naming<K, I>)
      ensures Value() == Book(map[], map[]) && Desk() == Records.Blank()
      ensures this.gapMs == gapMs && this.name == name
    {
      this.gapMs, this.name := gapMs, name;
      aliases, logs, sessions, lastSeen := map[], map[], map[], map[];
    }

    function Value(): Book<K, E>
      reads this`aliases, this`logs
    {
      Book(aliases, logs)
    }

    function Desk(): Records.Desk<K, I>
      reads this`aliases, this`sessions, this`lastSeen
    {
      Records.Desk(aliases, sessions, lastSeen)
    }

    /** Returns how many events and how many sessions changed hands. */
    method Identify(anonymous: K, user: K) returns (moved: nat, merged: nat)
      modifies this`aliases, this`logs, this`sessions, this`lastSeen
      ensures Value() == Identified(old(Value()), anonymous, user)
      ensures Desk() == Records.Joined(old(Desk()), anonymous, user)
      ensures (moved, merged) ==
              if anonymous in old(aliases) && old(aliases)[anonymous] == user then (0, 0)
              else (|LogOf(old(Value()), anonymous)|, |Records.RecordsOf(old(Desk()), anonymous)|)
    {
      if anonymous in aliases && aliases[anonymous] == user {
        return 0, 0;
      }
      aliases := aliases[anonymous := user];
      moved := MoveLog(anonymous, user);
      merged := MoveSessions(anonymous, user);
      if anonymous in lastSeen {
        var last := lastSeen[anonymous];
        if user !in lastSeen || last > lastSeen[user] {
          lastSeen := lastSeen[user := last];
        }
      }
    }

    /** The log of one subject merged into that of another. */
    method MoveLog(anonymous: K, user: K) returns (moved: nat)
      modifies this`logs
      ensures moved == |LogOf(old(Value()), anonymous)|
      ensures logs == var mine := LogOf(old(Value()), anonymous);
                      if mine == [] then old(logs)
                      else old(logs)[user := Merged(LogOf(old(Value()), user), mine)][anonymous := []]
    {
      var mine := if anonymous in logs then logs[anonymous] else [];
      if |mine| > 0 {
        var theirs := if user in logs then logs[user] else [];
        var both := MergeSorted(theirs, mine);
        logs := logs[user := both];
        logs := logs[anonymous := []];
      }
      moved := |mine|;
    }

    method MoveSessions(anonymous: K, user: K) returns (merged: nat)
      modifies this`sessions
      ensures merged == |Records.RecordsOf(old(Desk()), anonymous)|
      ensures sessions ==
              var mine := Records.RecordsOf(old(Desk()), anonymous);
              if mine == [] then old(sessions)
              else old(sessions)[user := Records.Merged(Records.RecordsOf(old(Desk()), user), mine)][anonymous := []]
    {
      var mine := if anonymous in sessions then sessions[anonymous] else [];
      if |mine| > 0 {
        var theirs := if user in sessions then sessions[user] else [];
        sessions := sessions[user := Records.Merged(theirs, mine)];
        sessions := sessions[anonymous := []];
      }
      merged := |mine|;
    }

    /** Files an event; `given` is its own session id.  Not done is where the program fails, the event filed. */
    method Track(user: Option<K>, anonymous: Option<K>, e: Stamped<E>, given: Option<I>) returns (done: bool)
      requires AllSorted(Value())
      modifies this`logs, this`sessions, this`lastSeen
      ensures Value() == Tracked(old(Value()), user, anonymous, e)
      ensures var k := Subject(old(Value()), user, anonymous);
              if k == None then done && Desk() == old(Desk())
              else
                var noted := Records.Noted(old(Desk()), name, gapMs, k.value, e.ts, given);
                done == noted.Some? && Desk() == if done then noted.value else old(Desk())
    {
      var resolved := user;
      if user == None && anonymous.Some? && anonymous.value in aliases {
        resolved := Some(aliases[anonymous.value]);
      }
      var subject := if resolved.Some? then resolved else anonymous;
      if subject == None {
        return true;
      }
      var log := if subject.value in logs then logs[subject.value] else [];
      log := InsertSorted(log, e);
      logs := logs[subject.value := log];
      done := Note(subject.value, e.ts, given);
    }

    /** The session half of `Track`. */
    method Note(k: K, ts: int, given: Option<I>) returns (done: bool)
      modifies this`sessions, this`lastSeen
      ensures var noted := Records.Noted(old(Desk()), name, gapMs, k, ts, given);
              done == noted.Some? && Desk() == if done then noted.value else old(Desk())
    {
      ghost var d := Desk();
      var list := if k in sessions then sessions[k] else [];
      var id: I;
      if given.Some? {
        id := given.value;
      } else if k in lastSeen && ts - lastSeen[k] <= gapMs {
        if |list| == 0 {
          return false;
        }
        id := list[|list| - 1].item.id;
      } else {
        id := name(k, |list| + 1);
        list := list + [Stamped(ts, Records.Session(id, k, ts, 0))];
        sessions := sessions[k := list];
      }
      assert Records.Opened(d, name, gapMs, k, ts, given) == Some((list, id));
      if |list| > 0 && list[|list| - 1].item.id == id {
        var open := list[|list| - 1];
        list := list[|list| - 1 := open.(item := open.item.(end := ts, count := open.item.count + 1))];
        sessions := sessions[k := list];
      }
      lastSeen := lastSeen[k := ts];
      return true;
    }

    method Reset(anonymous: K)
      modifies this`aliases, this`lastSeen
      ensures Value() == Book(old(aliases) - {anonymous}, old(logs))
      ensures Desk() == Records.Parted(old(Desk()), anonymous)
    {
      aliases := aliases - {anonymous};
      lastSeen := lastSeen - {anonymous};
    }
  }

  // ---------------------------------------------------------------- whole runs

  ghost predicate AllSorted<K, E>(b: Book<K, E>) {
    forall k :: k in b.logs ==> Sorted(b.logs[k])
  }

  /** All events of all logs. */
  ghost function Pool<K, E>(logs: map<K, Log<E>>): multiset<Stamped<E>>
    decreases |logs|
  {
    if logs == map[] then multiset{}
    else
      var k :| k in logs;
      LessOne(logs, k);
      multiset(logs[k]) + Pool(logs - {k})
  }

  lemma LessOne<K, V>(m: map<K, V>, k: K)
    requires k in m
    ensures |m - {k}| == |m| - 1
  {
    assert (m - {k}).Keys == m.Keys - {k};
  }

  lemma {:induction false} PoolWithout<K, E>(logs: map<K, Log<E>>, k: K)
    requires k in logs
    ensures Pool(logs) == multiset(logs[k]) + Pool(logs - {k})
    decreases |logs|
  {
    var j :| j in logs && Pool(logs) == multiset(logs[j]) + Pool(logs - {j});
    if j != k {
      var rest := logs - {j} - {k};
      LessOne(logs, j);
      LessOne(logs, k);
      PoolWithout(logs - {j}, k);
      PoolWithout(logs - {k}, j);
      assert logs - {k} - {j} == rest;
    }
  }

  /** Giving one subject another log. */
  lemma PoolSet<K, E>(logs: map<K, Log<E>>, k: K, log: Log<E>)
    ensures Pool(logs[k := log]) == Pool(logs - {k}) + multiset(log)
    ensures Pool(logs) == Pool(logs - {k}) + multiset(if k in logs then logs[k] else [])
  {
    PoolWithout(logs[k := log], k);
    assert logs[k := log] - {k} == logs - {k};
    if k in logs {
      PoolWithout(logs, k);
    } else {
      assert logs - {k} == logs;
    }
  }

  lemma IdentifySorts<K, E>(b: Book<K, E>, anonymous: K, user: K)
    requires AllSorted(b)
    ensures AllSorted(Identified(b, anonymous, user))
  {
    MergedSorted(LogOf(b, user), LogOf(b, anonymous));
  }

  lemma TrackSorts<K, E>(b: Book<K, E>, user: Option<K>, anonymous: Option<K>, e: Stamped<E>)
    requires AllSorted(b)
    ensures AllSorted(Tracked(b, user, anonymous, e))
  {
    var s := Subject(b, user, anonymous);
    if s.Some? {
      InsertKeepsOrder(LogOf(b, s.value), e);
    }
  }

  /** Tracking adds the one event, to whoever it is filed under. */
  lemma TrackAdds<K, E>(b: Book<K, E>, user: Option<K>, anonymous: Option<K>, e: Stamped<E>)
    ensures Pool(Tracked(b, user, anonymous, e).logs) ==
            Pool(b.logs) + if user == None && anonymous == None then multiset{} else multiset{e}
  {
    var s := Subject(b, user, anonymous);
    if s.Some? {
      InsertBag(LogOf(b, s.value), e);
      PoolSet(b.logs, s.value, Inserted(LogOf(b, s.value), e));
    }
  }

  lemma Settle<T>(
    before: multiset<T>, rest: multiset<T>, joined: multiset<T>, after: multiset<T>, theirs: multiset<T>,
    mine: multiset<T>)
    requires before == rest + theirs && joined == rest + (theirs + mine) && joined == after + mine
    ensures after == before
  {
    forall y ensures after[y] == before[y] {
      assert joined[y] == rest[y] + (theirs[y] + mine[y]) == after[y] + mine[y];
    }
  }

  lemma IdentifyOthers<K, E>(b: Book<K, E>, anonymous: K, user: K)
    requires AllSorted(b) && anonymous != user
    ensures Pool(Identified(b, anonymous, user).logs) == Pool(b.logs)
  {
    var mine, theirs := LogOf(b, anonymous), LogOf(b, user);
    if mine != [] && !(anonymous in b.aliases && b.aliases[anonymous] == user) {
      var joined := b.logs[user := Merged(theirs, mine)];
      MergedBag(theirs, mine);
      PoolSet(b.logs, user, Merged(theirs, mine));
      PoolSet(joined, anonymous, []);
      Settle(Pool(b.logs), Pool(b.logs - {user}), Pool(joined), Pool(joined - {anonymous}), multiset(theirs),
        multiset(mine));
    }
  }

  /**
   Identifying keeps every event, except of a subject identified as itself that has events and is not so
   aliased yet.
   */
  lemma IdentifyConserves<K, E>(b: Book<K, E>, anonymous: K, user: K)
    requires AllSorted(b)
    ensures Pool(Identified(b, anonymous, user).logs) == Pool(b.logs) <==>
            anonymous != user || LogOf(b, anonymous) == [] || (anonymous in b.aliases && b.aliases[anonymous] == user)
  {
    var mine := LogOf(b, anonymous);
    if anonymous != user {
      IdentifyOthers(b, anonymous, user);
    } else if mine != [] && !(anonymous in b.aliases && b.aliases[anonymous] == user) {
      var after := b.logs[user := Merged(mine, mine)][anonymous := []];
      assert after == b.logs[anonymous := []];
      PoolSet(b.logs, anonymous, []);
      assert mine[0] in multiset(mine);
      assert |Pool(b.logs)| == |Pool(b.logs - {anonymous})| + |mine|;
    }
  }

  datatype Op<K, E> =
    | Identify(anonymous: K, user: K)
    | Track(owner: Option<K>, origin: Option<K>, event: Stamped<E>)
    | Reset(who: K)

  function Run<K(==), E>(ops: seq<Op<K, E>>): Book<K, E> {
    if ops == [] then Book(map[], map[])
    else
      var b := Run(ops[..|ops| - 1]);
      match ops[|ops| - 1]
      case Identify(a, u) => Identified(b, a, u)
      case Track(u, a, e) => Tracked(b, u, a, e)
      case Reset(a) => b.(aliases := b.aliases - {a})
  }

  /** The events of a run that name a subject. */
  function Filed<K, E(==)>(ops: seq<Op<K, E>>): multiset<Stamped<E>> {
    if ops == [] then multiset{}
    else
      var op := ops[|ops| - 1];
      Filed(ops[..|ops| - 1]) + if op.Track? && (op.owner.Some? || op.origin.Some?) then multiset{op.event}
      else multiset{}
  }

  /**
   When nobody is identified as themselves, the logs stay in order and hold exactly what was tracked, through
   every merge.
   */
  lemma {:induction false} LogsAreConserved<K, E>(ops: seq<Op<K, E>>)
    requires forall i :: 0 <= i < |ops| && ops[i].Identify? ==> ops[i].anonymous != ops[i].user
    ensures AllSorted(Run(ops)) && Pool(Run(ops).logs) == Filed(ops)
  {
    if ops != [] {
      var front, op := ops[..|ops| - 1], ops[|ops| - 1];
      LogsAreConserved(front);
      var b := Run(front);
      match op {
        case Identify(a, u) =>
          IdentifySorts(b, a, u);
          IdentifyConserves(b, a, u);
        case Track(u, a, e) =>
          TrackSorts(b, u, a, e);
          TrackAdds(b, u, a, e);
        case Reset(_) =>
      }
    }
  }

  // ---------------------------------------------------------------- chains of aliases

  /** Where `n` aliases lead from `k`, if there are so many. */
  function Follow<K(==)>(aliases: map<K, K>, k: K, n: nat): Option<K> {
    if n == 0 then Some(k)
    else if k in aliases then Follow(aliases, aliases[k], n - 1)
    else None
  }

  /** The chain of aliases from `k` ends at `e`. */
  ghost predicate EndsAt<K>(aliases: map<K, K>, k: K, e: K) {
    e !in aliases && exists n: nat :: Follow(aliases, k, n) == Some(e)
  }

  /** An anonymous event is filed at the end of the chain exactly when the chain is at most one alias long. */
  lemma FiledAtTheEnd<K, E>(b: Book<K, E>, a: K)
    ensures Subject(b, None, Some(a)).Some?
    ensures EndsAt(b.aliases, a, Subject(b, None, Some(a)).value) <==>
            (a in b.aliases ==> b.aliases[a] !in b.aliases)
  {
    if a !in b.aliases {
      assert Follow(b.aliases, a, 0) == Some(a);
    } else if b.aliases[a] !in b.aliases {
      assert Follow(b.aliases, a, 1) == Follow(b.aliases, b.aliases[a], 0) == Some(b.aliases[a]);
    }
  }

  /** Identifying a user onwards moves its events but not those that its anonymous identity brings later. */
  lemma ChainIsNotFlattened<K(!new), E(!new)>(a: K, u1: K, u2: K, e: Stamped<E>)
    requires a != u1 && a != u2 && u1 != u2
    ensures var b := Run([Identify(a, u1), Identify(u1, u2), Track(None, Some(a), e)]);
            EndsAt(b.aliases, a, u2) && LogOf(b, u1) == [e] && LogOf(b, u2) == []
  {
    var ops: seq<Op<K, E>> := [Identify(a, u1), Identify(u1, u2), Track(None, Some(a), e)];
    var two, one: seq<Op<K, E>> := [Identify(a, u1), Identify(u1, u2)], [Identify(a, u1)];
    var none: seq<Op<K, E>> := [];
    assert two[..1] == one && one[..0] == none;
    assert Run(one) == Identified(Run(none), a, u1) == Book(map[a := u1], map[]);
    var b: Book<K, E> := Run(two);
    assert b == Book(map[a := u1][u1 := u2], map[]);
    assert Follow(b.aliases, a, 2) == Follow(b.aliases, u1, 1) == Follow(b.aliases, u2, 0) == Some(u2);
    assert ops[..|ops| - 1] == two && ops[|ops| - 1] == Track(None, Some(a), e);
    assert Inserted([], e) == [e];
  }
}
