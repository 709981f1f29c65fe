/**
 The token-bucket rate limiter.

 A bucket is refilled only when it is touched, so what matters is not the stored count but its `Level`:
 the balance a call at a given time would find.  All results are about that level.
 */
module RateLimiter {
  import opened Prelude
  import Reals

  datatype Policy = Policy(burst: real, refillPerSecond: real, emitRetryAfter: bool)
  datatype Bucket = Bucket(tokens: real, lastRefillMs: int, policy: Policy)
  datatype Wait = Seconds(n: int) | Forever
  datatype Decision = Allowed(remaining: int) | Denied(retryAfter: Option<Wait>)

  function Min(x: real, y: real): real {
    if x <= y then x else y
  }

  function Ceil(x: real): int {
    -((-x).Floor)
  }

  function Gained(p: Policy, ms: int): real {
    ms as real / 1000.0 * p.refillPerSecond
  }

  function Refilled(p: Policy, tokens: real, ms: int): real {
    if ms > 0 then Min(p.burst, tokens + Gained(p, ms)) else tokens
  }

  /** The balance a call under `p` at `now` finds; a key without a bucket is about to get a full one. */
  function Level(b: Option<Bucket>, p: Policy, now: int): real {
    match b
    case None => p.burst
    case Some(b) => Refilled(b.policy, b.tokens, now - b.lastRefillMs)
  }

  /** The answer to a call under `p` that finds this balance. */
  function Answer(level: real, p: Policy): Decision {
    if level >= 1.0 then Allowed((level - 1.0).Floor)
    else
      var wait := if p.refillPerSecond == 0.0 then Forever else Seconds(Ceil((1.0 - level) / p.refillPerSecond));
      Denied(if p.emitRetryAfter then Some(wait) else None)
  }

  function Spent(level: real): real {
    if level >= 1.0 then level - 1.0 else level
  }

  /** The bucket after a call; a clock that went back does not move `lastRefillMs`. */
  function Touched(b: Option<Bucket>, p: Policy, now: int): Bucket {
    var last := if b.Some? && now <= b.value.lastRefillMs then b.value.lastRefillMs else now;
    Bucket(Spent(Level(b, p, now)), last, p)
  }

  function Find(s: map<string, Bucket>, key: string): Option<Bucket> {
    if key in s then Some(s[key]) else None
  }

  predicate Idle(b: Bucket, idleMs: int, now: int) {
    now - b.lastRefillMs > idleMs &&
    Min(b.policy.burst, b.tokens + Gained(b.policy, now - b.lastRefillMs)) >= b.policy.burst
  }

  /** Refilled up to `now`, the bucket would hold its burst. */
  predicate FullBy(b: Bucket, now: int) {
    b.tokens + Gained(b.policy, now - b.lastRefillMs) >= b.policy.burst
  }

  function Swept(s: map<string, Bucket>, idleMs: int, now: int): map<string, Bucket> {
    map k | k in s && !Idle(s[k], idleMs, now) :: s[k]
  }

  class TokenBucketRateLimiter {
    var buckets: map<string, Bucket>

    constructor ()
      ensures buckets == map[]
    {
      buckets := map[];
    }

    method Consume(key: string, policy: Policy, now: int) returns (d: Decision)
      modifies this
      ensures buckets == old(buckets)[key := Touched(Find(old(buckets), key), policy, now)]
      ensures d == Answer(Level(Find(old(buckets), key), policy, now), policy)
    {
      var bucket := Bucket(policy.burst, now, policy);
      if key in buckets {
        bucket := buckets[key];
      }
      var elapsed := now - bucket.lastRefillMs;
      if elapsed > 0 {
        var full := bucket.tokens + elapsed as real / 1000.0 * bucket.policy.refillPerSecond;
        bucket := bucket.(tokens := Min(bucket.policy.burst, full), lastRefillMs := now);
      }
      bucket := bucket.(policy := policy);
      if bucket.tokens >= 1.0 {
        bucket := bucket.(tokens := bucket.tokens - 1.0);
        d := Allowed(bucket.tokens.Floor);
      } else {
        var deficit := 1.0 - bucket.tokens;
        var wait := Forever;
        if policy.refillPerSecond != 0.0 {
          wait := Seconds(Ceil(deficit / policy.refillPerSecond));
        }
        d := Denied(if policy.emitRetryAfter then Some(wait) else None);
      }
      buckets := buckets[key := bucket];
    }

    /** Drops the buckets that are full again and have not been touched for `idleMs`. */
    method Sweep(idleMs: int, now: int) returns (removed: nat)
      modifies this
      ensures buckets == Swept(old(buckets), idleMs, now)
      ensures forall k :: k in buckets <==>
                k in old(buckets) &&
                (now - old(buckets)[k].lastRefillMs <= idleMs || !FullBy(old(buckets)[k], now))
      ensures removed == |old(buckets)| - |buckets|
    {
      var was := buckets;
      var left := was.Keys;
      removed := 0;
      while left != {}
        invariant left <= was.Keys && removed + |buckets| == |was|
        invariant buckets == map k | k in was && (k in left || !Idle(was[k], idleMs, now)) :: was[k]
        decreases left
      {
        var key :| key in left;
        left := left - {key};
        if Idle(was[key], idleMs, now) {
          assert |(buckets - {key}).Keys| == |buckets.Keys| - 1 by {
            assert (buckets - {key}).Keys == buckets.Keys - {key};
          }
          buckets := buckets - {key};
          removed := removed + 1;
        }
      }
    }
  }

  // ---------------------------------------------------------------- one bucket under one policy

  predicate Sane(p: Policy) {
    p.burst >= 0.0 && p.refillPerSecond >= 0.0
  }

  /** What every call under one policy keeps: the balance stays within [0, burst]. */
  predicate Kept(b: Option<Bucket>, p: Policy, now: int) {
    Sane(p) && (b.Some? ==> b.value.policy == p && 0.0 <= b.value.tokens <= p.burst && b.value.lastRefillMs <= now)
  }

  lemma GainedAdds(p: Policy, a: int, b: int)
    ensures Gained(p, a + b) == Gained(p, a) + Gained(p, b)
    ensures Sane(p) && a >= 0 ==> Gained(p, a) >= 0.0
  {
    var x, y := a as real / 1000.0, b as real / 1000.0;
    assert (a + b) as real / 1000.0 == x + y;
    assert (x + y) * p.refillPerSecond == x * p.refillPerSecond + y * p.refillPerSecond;
    if Sane(p) && a >= 0 {
      Reals.MulNonNeg(x, p.refillPerSecond);
    }
  }

  /** Refilling in two goes is refilling once, and gains at most the rate allows. */
  lemma LevelMoves(b: Option<Bucket>, p: Policy, now: int, later: int)
    requires Kept(b, p, now) && now <= later
    ensures Level(b, p, later) == Refilled(p, Level(b, p, now), later - now)
    ensures 0.0 <= Level(b, p, now) <= Level(b, p, later) <= p.burst
    ensures Level(b, p, later) <= Level(b, p, now) + Gained(p, later - now)
  {
    GainedAdds(p, later - now, 0);
    if b.Some? {
      GainedAdds(p, now - b.value.lastRefillMs, later - now);
      assert now - b.value.lastRefillMs + (later - now) == later - b.value.lastRefillMs;
    }
  }

  lemma TouchKeeps(b: Option<Bucket>, p: Policy, now: int)
    requires Kept(b, p, now)
    ensures Kept(Some(Touched(b, p, now)), p, now)
    ensures Level(Some(Touched(b, p, now)), p, now) == Spent(Level(b, p, now))
  {
    LevelMoves(b, p, now, now);
  }

  /** Sweeping removes no bucket whose balance anyone could miss. */
  lemma SweepKeepsLevel(s: map<string, Bucket>, idleMs: int, now: int, key: string, p: Policy)
    requires Kept(Find(s, key), p, now)
    ensures Kept(Find(Swept(s, idleMs, now), key), p, now)
    ensures Level(Find(Swept(s, idleMs, now), key), p, now) == Level(Find(s, key), p, now)
  {
    if key in s {
      GainedAdds(p, now - s[key].lastRefillMs, 0);
    }
  }

  /** A later call passes once a hint has run. */
  predicate HasRun(w: Wait, m: nat) {
    match w
    case Seconds(n) => m >= n
    case Forever => false
  }

  /**
   The hint is exact: after a denied call, a lone call a whole number of seconds later passes when the hint
   has run, not before, and never under a policy that allows none at all.
   */
  lemma RetryAfterIsLeast(b: Option<Bucket>, p: Policy, now: int, m: nat)
    requires Kept(b, p, now) && Answer(Level(b, p, now), p).Denied?
    ensures Answer(Level(b, p, now), p).retryAfter.Some? <==> p.emitRetryAfter
    ensures p.emitRetryAfter ==>
              (Answer(Level(Some(Touched(b, p, now)), p, now + 1000 * m), p).Allowed? <==>
               p.burst >= 1.0 && HasRun(Answer(Level(b, p, now), p).retryAfter.value, m))
  {
    TouchKeeps(b, p, now);
    LevelMoves(b, p, now, now);
    LevelMoves(Some(Touched(b, p, now)), p, now, now + 1000 * m);
    PassesAfter(p, Level(b, p, now), m);
  }

  lemma PassesAfter(p: Policy, level: real, m: nat)
    requires Sane(p) && 0.0 <= level < 1.0
    ensures Refilled(p, level, 1000 * m) >= 1.0 <==>
            p.burst >= 1.0 && p.refillPerSecond > 0.0 && m >= Ceil((1.0 - level) / p.refillPerSecond)
  {
    GainedIn(p, m);
    if p.refillPerSecond > 0.0 {
      ReachesOne(level, p.refillPerSecond, m);
    }
  }

  /** The bucket after `n` calls at one time. */
  function TouchedTimes(b: Option<Bucket>, p: Policy, now: int, n: nat): Option<Bucket> {
    if n == 0 then b else Some(Touched(TouchedTimes(b, p, now, n - 1), p, now))
  }

  lemma {:induction false} LevelAfterCalls(b: Option<Bucket>, p: Policy, now: int, n: nat)
    requires Kept(b, p, now) && Level(b, p, now) >= n as real
    ensures Kept(TouchedTimes(b, p, now, n), p, now)
    ensures Level(TouchedTimes(b, p, now, n), p, now) == Level(b, p, now) - n as real
  {
    if n > 0 {
      LevelAfterCalls(b, p, now, n - 1);
      TouchKeeps(TouchedTimes(b, p, now, n - 1), p, now);
    }
  }

  /** The count that comes with an allowed call is exact: of further calls at the same time just so many pass. */
  lemma RemainingIsExact(b: Option<Bucket>, p: Policy, now: int, n: nat)
    requires Kept(b, p, now) && Answer(Level(b, p, now), p).Allowed?
    ensures var left := Answer(Level(b, p, now), p).remaining;
            left >= 0 && (1 <= n <= left + 1 ==>
              (Answer(Level(TouchedTimes(b, p, now, n), p, now), p).Allowed? <==> n <= left))
  {
    if Level(b, p, now) >= n as real {
      LevelAfterCalls(b, p, now, n);
    }
  }

  lemma GainedIn(p: Policy, m: nat)
    ensures Gained(p, 1000 * m) == m as real * p.refillPerSecond
  {
    assert (1000 * m) as real / 1000.0 == m as real;
  }

  lemma ReachesOne(level: real, r: real, m: nat)
    requires r > 0.0
    ensures level + m as real * r >= 1.0 <==> m >= Ceil((1.0 - level) / r)
  {
    var x := (1.0 - level) / r;
    CeilIsLeast(x, m);
    Reals.DivMul(1.0 - level, r);
    if m as real >= x {
      Reals.MulMonotone(r, x, m as real);
    } else {
      Reals.MulStrict(r, m as real, x);
    }
  }

  lemma CeilIsLeast(x: real, m: int)
    ensures m >= Ceil(x) <==> m as real >= x
  {
  }

  // ---------------------------------------------------------------- whole runs

  /** A run of the limiter: calls for any keys, each under its key's policy, and sweeps. */
  datatype Event = Call(key: string, now: int) | Sweep(idleMs: int, now: int)

  type Policies = string -> Policy

  function After(policyOf: Policies, s: map<string, Bucket>, e: Event): map<string, Bucket> {
    match e
    case Call(key, now) => s[key := Touched(Find(s, key), policyOf(key), now)]
    case Sweep(idleMs, now) => Swept(s, idleMs, now)
  }

  function Run(policyOf: Policies, es: seq<Event>): map<string, Bucket> {
    if es == [] then map[] else After(policyOf, Run(policyOf, es[..|es| - 1]), es[|es| - 1])
  }

  predicate InTime(es: seq<Event>) {
    forall i, j :: 0 <= i < j < |es| ==> es[i].now <= es[j].now
  }

  ghost predicate AllSane(policyOf: Policies) {
    forall key :: Sane(policyOf(key))
  }

  function LevelIn(policyOf: Policies, s: map<string, Bucket>, key: string, now: int): real {
    Level(Find(s, key), policyOf(key), now)
  }

  lemma {:induction false} RunKeeps(policyOf: Policies, es: seq<Event>, key: string, now: int)
    requires AllSane(policyOf) && InTime(es) && (es != [] ==> es[|es| - 1].now <= now)
    ensures Kept(Find(Run(policyOf, es), key), policyOf(key), now)
  {
    if es != [] {
      var front, last := es[..|es| - 1], es[|es| - 1];
      RunKeeps(policyOf, front, key, last.now);
      TouchKeeps(Find(Run(policyOf, front), key), policyOf(key), last.now);
    }
  }

  function Granted(policyOf: Policies, es: seq<Event>, key: string): bool
    requires es != []
  {
    var e := es[|es| - 1];
    e.Call? && e.key == key &&
    Answer(LevelIn(policyOf, Run(policyOf, es[..|es| - 1]), key, e.now), policyOf(key)).Allowed?
  }

  /** The calls for `key` allowed among the events from `i` up to `j`. */
  function Grants(policyOf: Policies, es: seq<Event>, key: string, i: nat, j: nat): nat
    requires i <= j <= |es|
    decreases j
  {
    if i == j then 0 else Grants(policyOf, es, key, i, j - 1) + if Granted(policyOf, es[..j], key) then 1 else 0
  }

  /** One event spends what it grants and no more. */
  lemma EventSpends(policyOf: Policies, es: seq<Event>, key: string)
    requires AllSane(policyOf) && InTime(es) && es != []
    ensures var front, now := es[..|es| - 1], es[|es| - 1].now;
            LevelIn(policyOf, Run(policyOf, es), key, now) ==
            LevelIn(policyOf, Run(policyOf, front), key, now) - (if Granted(policyOf, es, key) then 1.0 else 0.0)
  {
    var front, last := es[..|es| - 1], es[|es| - 1];
    RunKeeps(policyOf, front, key, last.now);
    var s := Run(policyOf, front);
    if last.Sweep? {
      SweepKeepsLevel(s, last.idleMs, last.now, key, policyOf(key));
    } else if last.key == key {
      TouchKeeps(Find(s, key), policyOf(key), last.now);
    }
  }

  /** What was granted since event `i`, with what is left, is covered by what was there and what was gained. */
  ghost predicate Covered(policyOf: Policies, es: seq<Event>, key: string, i: nat, j: nat)
    requires i < j <= |es|
  {
    Grants(policyOf, es, key, i, j) as real + LevelIn(policyOf, Run(policyOf, es[..j]), key, es[j - 1].now) <=
    policyOf(key).burst + Gained(policyOf(key), es[j - 1].now - es[i].now)
  }

  lemma {:induction false} GrantsAreCovered(policyOf: Policies, es: seq<Event>, key: string, i: nat, j: nat)
    requires AllSane(policyOf) && InTime(es) && i < j <= |es|
    ensures Covered(policyOf, es, key, i, j)
    decreases j
  {
    if i == j - 1 {
      FirstIsCovered(policyOf, es, key, i);
    } else {
      GrantsAreCovered(policyOf, es, key, i, j - 1);
      NextIsCovered(policyOf, es, key, i, j - 1);
    }
  }

  lemma FirstIsCovered(policyOf: Policies, es: seq<Event>, key: string, i: nat)
    requires AllSane(policyOf) && InTime(es) && i < |es|
    ensures Covered(policyOf, es, key, i, i + 1)
  {
    var now := es[i].now;
    EventIsCovered(policyOf, es, key, i + 1, now);
    FullAtMost(policyOf, es[..i], key, now);
    NoTimeNoGain(policyOf(key));
    assert Grants(policyOf, es, key, i, i) == 0;
  }

  lemma NextIsCovered(policyOf: Policies, es: seq<Event>, key: string, i: nat, j: nat)
    requires AllSane(policyOf) && InTime(es) && i < j < |es| && Covered(policyOf, es, key, i, j)
    ensures Covered(policyOf, es, key, i, j + 1)
  {
    var p, from, t, now := policyOf(key), es[i].now, es[j - 1].now, es[j].now;
    EventIsCovered(policyOf, es, key, j + 1, t);
    GainSplits(p, from, t, now);
    GrantsNext(policyOf, es, key, i, j);
    AddUp(Grants(policyOf, es, key, i, j) as real, if Granted(policyOf, es[..j + 1], key) then 1.0 else 0.0,
      LevelIn(policyOf, Run(policyOf, es[..j]), key, t), LevelIn(policyOf, Run(policyOf, es[..j + 1]), key, now),
      p.burst, Gained(p, t - from), Gained(p, now - t), Gained(p, now - from));
  }

  lemma GrantsNext(policyOf: Policies, es: seq<Event>, key: string, i: nat, j: nat)
    requires i < j < |es|
    ensures Grants(policyOf, es, key, i, j + 1) as real ==
            Grants(policyOf, es, key, i, j) as real + if Granted(policyOf, es[..j + 1], key) then 1.0 else 0.0
  {
  }

  lemma AddUp(g: real, d: real, was: real, left: real, burst: real, a: real, b: real, c: real)
    requires g + was <= burst + a && d + left <= was + b && c == a + b
    ensures g + d + left <= burst + c
  {
  }

  lemma FullAtMost(policyOf: Policies, es: seq<Event>, key: string, now: int)
    requires AllSane(policyOf) && InTime(es) && (es != [] ==> es[|es| - 1].now <= now)
    ensures LevelIn(policyOf, Run(policyOf, es), key, now) <= policyOf(key).burst
  {
    RunKeeps(policyOf, es, key, now);
    LevelMoves(Find(Run(policyOf, es), key), policyOf(key), now, now);
  }

  /** One event grants no more than what it takes from the balance at an earlier time, and what is gained since. */
  lemma EventIsCovered(policyOf: Policies, es: seq<Event>, key: string, j: nat, t: int)
    requires AllSane(policyOf) && InTime(es) && 0 < j <= |es| && t <= es[j - 1].now && (j > 1 ==> es[j - 2].now <= t)
    ensures var now := es[j - 1].now;
            (if Granted(policyOf, es[..j], key) then 1.0 else 0.0) +
              LevelIn(policyOf, Run(policyOf, es[..j]), key, now) <=
            LevelIn(policyOf, Run(policyOf, es[..j - 1]), key, t) + Gained(policyOf(key), now - t)
  {
    var front, now := es[..j - 1], es[j - 1].now;
    assert es[..j][..j - 1] == front;
    EventSpends(policyOf, es[..j], key);
    RunKeeps(policyOf, front, key, t);
    LevelMoves(Find(Run(policyOf, front), key), policyOf(key), t, now);
  }

  lemma NoTimeNoGain(p: Policy)
    ensures Gained(p, 0) == 0.0
  {
  }

  lemma GainSplits(p: Policy, a: int, b: int, c: int)
    ensures Gained(p, c - a) == Gained(p, b - a) + Gained(p, c - b)
  {
    GainedAdds(p, b - a, c - b);
    assert b - a + (c - b) == c - a;
  }

  /**
   In any contiguous part of any run, a key is allowed no more than its burst and what its rate gives in that
   time.
   */
  lemma {:induction false} TokenBucketBound(policyOf: Policies, es: seq<Event>, key: string, i: nat, j: nat)
    requires AllSane(policyOf) && InTime(es) && i < j <= |es|
    ensures Grants(policyOf, es, key, i, j) as real <=
            policyOf(key).burst + policyOf(key).refillPerSecond * (es[j - 1].now - es[i].now) as real / 1000.0
  {
    GrantsAreCovered(policyOf, es, key, i, j);
    RunKeeps(policyOf, es[..j], key, es[j - 1].now);
    LevelMoves(Find(Run(policyOf, es[..j]), key), policyOf(key), es[j - 1].now, es[j - 1].now);
  }

  // ---------------------------------------------------------------- sweeping is invisible

  function WithoutSweeps(es: seq<Event>): (r: seq<Event>)
    ensures |r| <= |es|
  {
    if es == [] then []
    else
      var front := WithoutSweeps(es[..|es| - 1]);
      if es[|es| - 1].Call? then front + [es[|es| - 1]] else front
  }

  /** The answers to the calls of a run, in order. */
  function Answers(policyOf: Policies, es: seq<Event>): seq<Decision> {
    if es == [] then []
    else
      var e, front := es[|es| - 1], es[..|es| - 1];
      Answers(policyOf, front) +
      if e.Call? then [Answer(LevelIn(policyOf, Run(policyOf, front), e.key, e.now), policyOf(e.key))] else []
  }

  lemma {:induction false} WithoutSweepsInTime(es: seq<Event>)
    requires InTime(es)
    ensures InTime(WithoutSweeps(es)) &&
            forall i :: 0 <= i < |WithoutSweeps(es)| ==> WithoutSweeps(es)[i].now <= es[|es| - 1].now
  {
    if es != [] {
      WithoutSweepsInTime(es[..|es| - 1]);
    }
  }

  lemma {:induction false} SweepsKeepLevels(policyOf: Policies, es: seq<Event>, key: string, now: int)
    requires AllSane(policyOf) && InTime(es) && (es != [] ==> es[|es| - 1].now <= now)
    ensures LevelIn(policyOf, Run(policyOf, es), key, now) ==
            LevelIn(policyOf, Run(policyOf, WithoutSweeps(es)), key, now)
  {
    if es != [] {
      var front, last := es[..|es| - 1], es[|es| - 1];
      var s, t := Run(policyOf, front), Run(policyOf, WithoutSweeps(front));
      WithoutSweepsInTime(front);
      RunKeeps(policyOf, front, key, last.now);
      RunKeeps(policyOf, WithoutSweeps(front), key, last.now);
      SweepsKeepLevels(policyOf, front, key, last.now);
      if last.Sweep? {
        SweepKeepsLevel(s, last.idleMs, last.now, key, policyOf(key));
        SameFromThen(Find(Swept(s, last.idleMs, last.now), key), Find(t, key), policyOf(key), last.now, now);
      } else {
        CallKeepsSame(policyOf, s, t, last, key, now);
        var kept := WithoutSweeps(front) + [last];
        assert kept[..|kept| - 1] == WithoutSweeps(front);
      }
    }
  }

  /** Balances that agree now agree from now on. */
  lemma SameFromThen(b: Option<Bucket>, c: Option<Bucket>, p: Policy, now: int, later: int)
    requires Kept(b, p, now) && Kept(c, p, now) && Level(b, p, now) == Level(c, p, now) && now <= later
    ensures Level(b, p, later) == Level(c, p, later)
  {
    LevelMoves(b, p, now, later);
    LevelMoves(c, p, now, later);
  }

  lemma CallKeepsSame(
    policyOf: Policies, s: map<string, Bucket>, t: map<string, Bucket>, e: Event, key: string, later: int)
    requires e.Call? && e.now <= later
    requires Kept(Find(s, key), policyOf(key), e.now) && Kept(Find(t, key), policyOf(key), e.now)
    requires LevelIn(policyOf, s, key, e.now) == LevelIn(policyOf, t, key, e.now)
    ensures LevelIn(policyOf, After(policyOf, s, e), key, later) == LevelIn(policyOf, After(policyOf, t, e), key, later)
  {
    var b, c, p := Find(s, key), Find(t, key), policyOf(key);
    if e.key == key {
      TouchKeeps(b, p, e.now);
      TouchKeeps(c, p, e.now);
      SameFromThen(Some(Touched(b, p, e.now)), Some(Touched(c, p, e.now)), p, e.now, later);
    } else {
      SameFromThen(b, c, p, e.now, later);
    }
  }

  /** Under one policy per key, sweeping at any times, with any idle limits, changes no answer. */
  lemma {:induction false} SweepingIsInvisible(policyOf: Policies, es: seq<Event>)
    requires AllSane(policyOf) && InTime(es)
    ensures Answers(policyOf, es) == Answers(policyOf, WithoutSweeps(es))
  {
    if es != [] {
      var front, last := es[..|es| - 1], es[|es| - 1];
      SweepingIsInvisible(policyOf, front);
      if last.Call? {
        SweepsKeepLevels(policyOf, front, last.key, last.now);
        var kept := WithoutSweeps(front) + [last];
        assert kept[..|kept| - 1] == WithoutSweeps(front);
      }
    }
  }

  /**
   A swept bucket comes back with the burst of the next policy, an unswept one keeps that of its own: the
   same balance exactly when these agree.
   */
  lemma SweepSeenByNewPolicy(b: Bucket, idleMs: int, now: int, later: int, next: Policy)
    requires Kept(Some(b), b.policy, now) && Idle(b, idleMs, now) && now <= later
    ensures Level(Some(b), next, later) == Level(None, next, later) <==> b.policy.burst == next.burst
  {
    LevelMoves(Some(b), b.policy, now, later);
    GainedAdds(b.policy, now - b.lastRefillMs, 0);
  }

  /**
   A key whose burst was raised from 1 to 2: with a sweep in between its second call passes, without it is
   turned away.
   */
  lemma SweepSeenExample()
    ensures var b, next := Bucket(1.0, 0, Policy(1.0, 1.0, false)), Policy(2.0, 1.0, false);
            Idle(b, 10, 20) &&
            Answer(Level(Some(Touched(None, next, 30)), next, 30), next).Allowed? &&
            Answer(Level(Some(Touched(Some(b), next, 30)), next, 30), next).Denied?
  {
    var b, next := Bucket(1.0, 0, Policy(1.0, 1.0, false)), Policy(2.0, 1.0, false);
    assert Gained(b.policy, 20) == 0.02 && Gained(b.policy, 30) == 0.03;
    assert Level(Some(b), next, 30) == 1.0;
  }
}
