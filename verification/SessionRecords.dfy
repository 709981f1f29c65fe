/**
 The session records of the stitcher: opened and extended as events come in, merged when an identity is
 resolved.

 An event without a session id of its own joins the open session when it comes soon enough after the last
 event of its subject.  `Noted` is None where the program fails for want of that session; `RunNeverFails`
 says which habits rule it out, and the examples that each of them is needed.
 */
module SessionRecords {
  import opened Prelude
  import opened StableSort

  datatype Session<K, I> = Session(id: I, subject: K, end: int, count: nat)

  /** Sessions stamped with their start. */
  type Records<K, I> = seq<Stamped<Session<K, I>>>

  datatype Desk<K, I> = Desk(aliases: map<K, K>, sessions: map<K, Records<K, I>>, lastSeen: map<K, int>)

  /** The id of a subject's n-th session. */
  type Naming<!K, I> = (K, nat) -> I

  function RecordsOf<K, I>(d: Desk<K, I>, k: K): Records<K, I> {
    if k in d.sessions then d.sessions[k] else []
  }

  /** Who an event is filed under, if anyone. */
  function SubjectIn<K>(aliases: map<K, K>, user: Option<K>, anonymous: Option<K>): Option<K> {
    if user.Some? then user
    else if anonymous.Some? && anonymous.value in aliases then Some(aliases[anonymous.value])
    else anonymous
  }

  /** The event comes soon enough to belong to the open session. */
  predicate Continues<K, I>(d: Desk<K, I>, gapMs: int, k: K, ts: int) {
    k in d.lastSeen && ts - d.lastSeen[k] <= gapMs
  }

  /** One more event in the last session, when that is the one with this id. */
  function Extended<K, I(==)>(rs: Records<K, I>, id: I, ts: int): Records<K, I> {
    if rs == [] || rs[|rs| - 1].item.id != id then rs
    else
      var open := rs[|rs| - 1];
      rs[|rs| - 1 := open.(item := open.item.(end := ts, count := open.item.count + 1))]
  }

  /** The records with the session the event belongs to, and its id; None where no open session is found. */
  function Opened<K, I>(
    d: Desk<K, I>, name: Naming<K, I>, gapMs: int, k: K, ts: int, given: Option<I>): Option<(Records<K, I>, I)>
  {
    var rs := RecordsOf(d, k);
    if given.Some? then Some((rs, given.value))
    else if Continues(d, gapMs, k, ts) then
      if rs == [] then None else Some((rs, rs[|rs| - 1].item.id))
    else
      var fresh' := Session(name(k, |rs| + 1), k, ts, 0);
      Some((rs + [Stamped(ts, fresh')], fresh'.id))
  }

  /** One event of subject `k`; None where the program fails. */
  function Noted<K(==), I(==)>(
    d: Desk<K, I>, name: Naming<K, I>, gapMs: int, k: K, ts: int, given: Option<I>): Option<Desk<K, I>>
  {
    match Opened(d, name, gapMs, k, ts, given)
    case None => None
    case Some((rs, id)) =>
      var after := Extended(rs, id, ts);
      Some(Desk(d.aliases, if after == RecordsOf(d, k) then d.sessions else d.sessions[k := after],
                d.lastSeen[k := ts]))
  }

  /** Soon enough after the last event, but with no session to go on with. */
  predicate Stranded<K, I>(d: Desk<K, I>, gapMs: int, k: K, ts: int) {
    Continues(d, gapMs, k, ts) && RecordsOf(d, k) == []
  }

  lemma FailsExactly<K, I>(d: Desk<K, I>, name: Naming<K, I>, gapMs: int, k: K, ts: int, given: Option<I>)
    ensures Noted(d, name, gapMs, k, ts, given) == None <==> given == None && Stranded(d, gapMs, k, ts)
  {
  }

  function Relabelled<K, I>(rs: Records<K, I>, k: K): (r: Records<K, I>)
    ensures |r| == |rs|
  {
    seq(|rs|, i requires 0 <= i < |rs| => rs[i].(item := rs[i].item.(subject := k)))
  }

  /** The records of a user and of an anonymous identity, by start. */
  function Merged<K, I>(theirs: Records<K, I>, mine: Records<K, I>): Records<K, I> {
    SortOf(theirs + if theirs == [] then mine else Relabelled(mine, theirs[0].item.subject))
  }

  function Joined<K(==), I>(d: Desk<K, I>, anonymous: K, user: K): Desk<K, I> {
    if anonymous in d.aliases && d.aliases[anonymous] == user then d
    else
      var mine := RecordsOf(d, anonymous);
      Desk(d.aliases[anonymous := user],
           if mine == [] then d.sessions
           else d.sessions[user := Merged(RecordsOf(d, user), mine)][anonymous := []],
           if anonymous in d.lastSeen && (user !in d.lastSeen || d.lastSeen[anonymous] > d.lastSeen[user])
           then d.lastSeen[user := d.lastSeen[anonymous]] else d.lastSeen)
  }

  function Parted<K(==), I>(d: Desk<K, I>, anonymous: K): Desk<K, I> {
    Desk(d.aliases - {anonymous}, d.sessions, d.lastSeen - {anonymous})
  }

  /** Identifying hands over every record, by start; only the subject is rewritten. */
  lemma JoinedRecords<K, I>(d: Desk<K, I>, anonymous: K, user: K)
    requires anonymous != user && !(anonymous in d.aliases && d.aliases[anonymous] == user)
    requires Sorted(RecordsOf(d, user))
    ensures var mine, theirs, after := RecordsOf(d, anonymous), RecordsOf(d, user), Joined(d, anonymous, user);
            RecordsOf(after, anonymous) == [] && Sorted(RecordsOf(after, user)) &&
            multiset(RecordsOf(after, user)) ==
            multiset(theirs) + multiset(if theirs == [] then mine else Relabelled(mine, theirs[0].item.subject))
  {
    var mine, theirs := RecordsOf(d, anonymous), RecordsOf(d, user);
    var moved := if theirs == [] then mine else Relabelled(mine, theirs[0].item.subject);
    SortIsStable(theirs + moved, 0);
    SortBag(theirs + moved);
    if mine == [] {
      assert moved == [];
    }
  }

  /** The user was last seen when either was; nobody else's time changes. */
  lemma JoinedSeen<K, I>(d: Desk<K, I>, anonymous: K, user: K, other: K)
    requires other != user && !(anonymous in d.aliases && d.aliases[anonymous] == user)
    ensures var before, after := d.lastSeen, Joined(d, anonymous, user).lastSeen;
            (user in after <==> user in before || anonymous in before) &&
            (user in before ==> before[user] <= after[user]) &&
            (anonymous in before ==> before[anonymous] <= after[user]) &&
            (user in after ==> (user in before && after[user] == before[user]) ||
                               (anonymous in before && after[user] == before[anonymous])) &&
            (other in after <==> other in before) && (other in before ==> after[other] == before[other])
  {
  }

  // ---------------------------------------------------------------- whole runs

  datatype Op<K, I> =
    | Identify(anonymous: K, user: K)
    | Track(owner: Option<K>, origin: Option<K>, ts: int, given: Option<I>)
    | Reset(who: K)

  function Step<K(==), I(==)>(d: Desk<K, I>, name: Naming<K, I>, gapMs: int, op: Op<K, I>): Option<Desk<K, I>> {
    match op
    case Identify(a, u) => Some(Joined(d, a, u))
    case Reset(a) => Some(Parted(d, a))
    case Track(owner, origin, ts, given) =>
      match SubjectIn(d.aliases, owner, origin)
      case None => Some(d)
      case Some(k) => Noted(d, name, gapMs, k, ts, given)
  }

  function Run<K(==), I(==)>(d: Desk<K, I>, name: Naming<K, I>, gapMs: int, ops: seq<Op<K, I>>): Option<Desk<K, I>>
    decreases |ops|
  {
    if ops == [] then Some(d)
    else
      match Step(d, name, gapMs, ops[0])
      case None => None
      case Some(next) => Run(next, name, gapMs, ops[1..])
  }

  function Blank<K, I>(): Desk<K, I> {
    Desk(map[], map[], map[])
  }

  /** Events leave the session id to the stitcher, and users and anonymous identities are kept apart. */
  predicate Plain<K, I>(op: Op<K, I>, users: set<K>) {
    match op
    case Identify(a, u) => a !in users && u in users
    case Track(owner, origin, _, given) =>
      given == None && (owner.Some? ==> owner.value in users) && (origin.Some? ==> origin.value !in users)
    case Reset(a) => a !in users
  }

  /** No identity is resolved to a second user before it is reset. */
  predicate Settled<K(==), I(==)>(aliases: map<K, K>, op: Op<K, I>) {
    op.Identify? && op.anonymous in aliases ==> aliases[op.anonymous] == op.user
  }

  predicate AllSettled<K(==), I(==)>(aliases: map<K, K>, ops: seq<Op<K, I>>)
    decreases |ops|
  {
    ops == [] || (Settled(aliases, ops[0]) && AllSettled(Aliases(aliases, ops[0]), ops[1..]))
  }

  function Aliases<K(==), I>(aliases: map<K, K>, op: Op<K, I>): map<K, K> {
    match op
    case Identify(a, u) => aliases[a := u]
    case Reset(a) => aliases - {a}
    case Track(_, _, _, _) => aliases
  }

  /** Whoever was seen has a session to go on with, or is resolved to a user. */
  ghost predicate Ready<K, I>(d: Desk<K, I>, users: set<K>) {
    (forall k :: k in d.lastSeen ==> RecordsOf(d, k) != [] || (k in d.aliases && k !in users)) &&
    forall k :: k in d.aliases ==> d.aliases[k] in users
  }

  lemma IdentifyIsReady<K, I>(d: Desk<K, I>, users: set<K>, a: K, u: K)
    requires Ready(d, users) && a !in users && u in users && (a in d.aliases ==> d.aliases[a] == u)
    ensures Ready(Joined(d, a, u), users)
  {
  }

  lemma TrackIsReady<K, I>(d: Desk<K, I>, users: set<K>, name: Naming<K, I>, gapMs: int, k: K, ts: int)
    requires Ready(d, users) && (k in d.aliases ==> k in users)
    ensures Noted(d, name, gapMs, k, ts, None).Some? && Ready(Noted(d, name, gapMs, k, ts, None).value, users)
  {
    var rs := RecordsOf(d, k);
    if Continues(d, gapMs, k, ts) {
      assert rs != [];
    }
  }

  lemma StepIsReady<K, I>(d: Desk<K, I>, users: set<K>, name: Naming<K, I>, gapMs: int, op: Op<K, I>)
    requires Ready(d, users) && Plain(op, users) && Settled(d.aliases, op)
    ensures Step(d, name, gapMs, op).Some?
    ensures var next := Step(d, name, gapMs, op).value;
            Ready(next, users) && next.aliases == Aliases(d.aliases, op)
  {
    match op
    case Identify(a, u) => IdentifyIsReady(d, users, a, u);
    case Reset(a) =>
    case Track(owner, origin, ts, _) =>
      var k := SubjectIn(d.aliases, owner, origin);
      if k.Some? {
        TrackIsReady(d, users, name, gapMs, k.value, ts);
      }
  }

  /**
   A run of plain operations, in which no identity is resolved to a second user before it is reset, never
   fails.
   */
  lemma {:induction false} RunNeverFails<K, I>(
    d: Desk<K, I>, users: set<K>, name: Naming<K, I>, gapMs: int, ops: seq<Op<K, I>>)
    requires Ready(d, users) && AllSettled(d.aliases, ops)
    requires forall i :: 0 <= i < |ops| ==> Plain(ops[i], users)
    ensures Run(d, name, gapMs, ops).Some?
    decreases |ops|
  {
    if ops != [] {
      StepIsReady(d, users, name, gapMs, ops[0]);
      RunNeverFails(Step(d, name, gapMs, ops[0]).value, users, name, gapMs, ops[1..]);
    }
  }

  /** An event that brings its own session id leaves none to go on with. */
  lemma GivenIdFails<K, I>(name: Naming<K, I>, gapMs: int, u: K, id: I)
    requires gapMs >= 0
    ensures Run(Blank(), name, gapMs, [Track(Some(u), None, 0, Some(id)), Track(Some(u), None, 0, None)]) == None
  {
    var first, second: Op<K, I> := Track(Some(u), None, 0, Some(id)), Track(Some(u), None, 0, None);
    var d: Desk<K, I> := Desk(map[], map[], map[u := 0]);
    assert Step(Blank(), name, gapMs, first) == Some(d);
    assert Step(d, name, gapMs, second) == None;
    assert [first, second][1..] == [second];
  }

  lemma RunCons<K, I>(d: Desk<K, I>, name: Naming<K, I>, gapMs: int, ops: seq<Op<K, I>>)
    requires ops != []
    ensures Step(d, name, gapMs, ops[0]) == None ==> Run(d, name, gapMs, ops) == None
    ensures Step(d, name, gapMs, ops[0]).Some? ==>
              Run(d, name, gapMs, ops) == Run(Step(d, name, gapMs, ops[0]).value, name, gapMs, ops[1..])
  {
  }

  /** One event of an anonymous identity. */
  lemma FirstSeen<K, I>(name: Naming<K, I>, gapMs: int, a: K) returns (d: Desk<K, I>)
    ensures Step(Blank(), name, gapMs, Track(None, Some(a), 0, None)) == Some(d)
    ensures RecordsOf(d, a) != [] && d.sessions.Keys == {a} && d.lastSeen == map[a := 0] && d.aliases == map[]
  {
    d := Step(Blank(), name, gapMs, Track(None, Some(a), 0, None)).value;
  }

  /** Identified after its first event, it has been seen and has no session. */
  lemma FirstIdentified<K, I>(name: Naming<K, I>, gapMs: int, a: K, u: K) returns (d: Desk<K, I>, e: Desk<K, I>)
    requires a != u
    ensures Step(Blank(), name, gapMs, Track(None, Some(a), 0, None)) == Some(d)
    ensures Step(d, name, gapMs, Identify(a, u)) == Some(e)
    ensures RecordsOf(e, a) == [] && e.sessions.Keys == {a, u} && e.aliases == map[a := u]
    ensures e.lastSeen == map[a := 0, u := 0]
  {
    d := FirstSeen(name, gapMs, a);
    e := Joined(d, a, u);
    JoinedOnce(d, a, u);
  }

  lemma JoinedOnce<K, I>(d: Desk<K, I>, a: K, u: K)
    requires a != u && d.sessions.Keys == {a} && RecordsOf(d, a) != [] && d.lastSeen == map[a := 0] &&
             d.aliases == map[]
    ensures var e := Joined(d, a, u);
            RecordsOf(e, a) == [] && e.sessions.Keys == {a, u} && e.aliases == map[a := u] &&
            e.lastSeen == map[a := 0, u := 0]
  {
  }

  /** So does an identity whose sessions went to a user, and that is then used as a user itself. */
  lemma ReusedIdentityFails<K, I>(name: Naming<K, I>, gapMs: int, a: K, u: K)
    requires gapMs >= 0 && a != u
    ensures Run(Blank(), name, gapMs,
                [Track(None, Some(a), 0, None), Identify(a, u), Track(Some(a), None, 0, None)]) == None
  {
    var ops: seq<Op<K, I>> := [Track(None, Some(a), 0, None), Identify(a, u), Track(Some(a), None, 0, None)];
    var d, e := FirstIdentified(name, gapMs, a, u);
    assert Step(e, name, gapMs, ops[2]) == None;
    RunCons(e, name, gapMs, ops[1..][1..]);
    RunCons(d, name, gapMs, ops[1..]);
    RunCons(Blank(), name, gapMs, ops);
  }

  /** And a second user of the same device, when the first has not been reset. */
  lemma SecondUserFails<K, I>(name: Naming<K, I>, gapMs: int, a: K, u1: K, u2: K)
    requires gapMs >= 0 && a != u1 && a != u2 && u1 != u2
    ensures Run(Blank(), name, gapMs,
                [Track(None, Some(a), 0, None), Identify(a, u1), Identify(a, u2), Track(Some(u2), None, 0, None)]) ==
            None
  {
    var ops: seq<Op<K, I>> :=
      [Track(None, Some(a), 0, None), Identify(a, u1), Identify(a, u2), Track(Some(u2), None, 0, None)];
    var d, e := FirstIdentified(name, gapMs, a, u1);
    var f := Joined(e, a, u2);
    assert RecordsOf(f, u2) == [] && f.lastSeen[u2] == 0;
    assert Step(f, name, gapMs, ops[3]) == None;
    RunCons(f, name, gapMs, ops[1..][1..][1..]);
    RunCons(e, name, gapMs, ops[1..][1..]);
    RunCons(d, name, gapMs, ops[1..]);
    RunCons(Blank(), name, gapMs, ops);
  }
}
