/**
 The circuit breaker registry: one three-state breaker per upstream.

 Runs are of one breaker under one configuration.  What the results count (trailing failures, calls and
 reports within one half-open episode, probes still out) is counted on the events, not read off the
 breaker's own counters.
 */
module CircuitBreaker {
  import opened Prelude

  datatype Config = Config(
    failureThreshold: int, openDurationMs: int, halfOpenMaxCalls: int, halfOpenSuccessThreshold: Option<int>)

  datatype State = Closed | Open | HalfOpen

  datatype Breaker = Breaker(
    state: State, consecutiveFailures: nat, openedAt: int, halfOpenInFlight: nat, halfOpenSuccesses: nat,
    totalFailures: nat, totalRejected: nat)

  /** `call` names the admitted call a report is about; the breaker never looks at it. */
  datatype Event = Admit(now: int) | Report(call: nat, ok: bool, now: int) | Reset(now: int)

  datatype Verdict = Admitted | Rejected(retryAfterMs: int) | Noted

  const FRESH := Breaker(Closed, 0, 0, 0, 0, 0, 0)

  /** The half-open part of admission. */
  function Probe(c: Config, b: Breaker): (Breaker, Verdict) {
    if b.halfOpenInFlight >= c.halfOpenMaxCalls then (b.(totalRejected := b.totalRejected + 1), Rejected(0))
    else (b.(halfOpenInFlight := b.halfOpenInFlight + 1), Admitted)
  }

  function Admission(c: Config, b: Breaker, now: int): (Breaker, Verdict) {
    match b.state
    case Closed => (b, Admitted)
    case HalfOpen => Probe(c, b)
    case Open =>
      if now - b.openedAt >= c.openDurationMs then
        Probe(c, b.(state := HalfOpen, halfOpenInFlight := 0, halfOpenSuccesses := 0))
      else (b.(totalRejected := b.totalRejected + 1), Rejected(c.openDurationMs - (now - b.openedAt)))
  }

  function Less(n: nat): nat {
    if n == 0 then 0 else n - 1
  }

  function Succeeded(c: Config, b: Breaker): Breaker {
    if b.state == HalfOpen then
      var t := b.(halfOpenInFlight := Less(b.halfOpenInFlight), halfOpenSuccesses := b.halfOpenSuccesses + 1);
      if t.halfOpenSuccesses >= c.halfOpenSuccessThreshold.GetOr(1) then t.(consecutiveFailures := 0, state := Closed)
      else t
    else b.(consecutiveFailures := 0)
  }

  function Failed(c: Config, b: Breaker, now: int): Breaker {
    var t := b.(totalFailures := b.totalFailures + 1);
    if b.state == HalfOpen then t.(halfOpenInFlight := Less(b.halfOpenInFlight), state := Open, openedAt := now)
    else
      var u := t.(consecutiveFailures := b.consecutiveFailures + 1);
      if u.consecutiveFailures >= c.failureThreshold then u.(state := Open, openedAt := now) else u
  }

  function Step(c: Config, b: Breaker, e: Event): (Breaker, Verdict) {
    match e
    case Admit(now) => Admission(c, b, now)
    case Report(_, ok, now) => (if ok then Succeeded(c, b) else Failed(c, b, now), Noted)
    case Reset(_) =>
      (b.(consecutiveFailures := 0, halfOpenInFlight := 0, halfOpenSuccesses := 0, state := Closed), Noted)
  }

  class CircuitBreakerRegistry {
    var breakers: map<string, Breaker>
    var configs: map<string, Config>
    const fallback: Config

    constructor (fallback: Config)
      ensures breakers == map[] && configs == map[] && this.fallback == fallback
    {
      this.fallback := fallback;
      breakers, configs := map[], map[];
    }

    function Of(name: string): Breaker
      reads this
    {
      if name in breakers then breakers[name] else FRESH
    }

    function ConfigFor(name: string): Config
      reads this
    {
      if name in configs then configs[name] else fallback
    }

    method Configure(name: string, config: Config)
      modifies this`configs
      ensures configs == old(configs)[name := config]
    {
      configs := configs[name := config];
    }

    method AdmitCall(name: string, now: int) returns (v: Verdict)
      modifies this`breakers
      ensures breakers == old(breakers)[name := Step(ConfigFor(name), old(Of(name)), Admit(now)).0]
      ensures v == Step(ConfigFor(name), old(Of(name)), Admit(now)).1
    {
      var b, c := Of(name), ConfigFor(name);
      v := Admitted;
      if b.state == Open {
        if now - b.openedAt >= c.openDurationMs {
          b := b.(state := HalfOpen, halfOpenInFlight := 0, halfOpenSuccesses := 0);
        } else {
          v := Rejected(c.openDurationMs - (now - b.openedAt));
          b := b.(totalRejected := b.totalRejected + 1);
        }
      }
      if b.state == HalfOpen {
        if b.halfOpenInFlight >= c.halfOpenMaxCalls {
          v := Rejected(0);
          b := b.(totalRejected := b.totalRejected + 1);
        } else {
          b := b.(halfOpenInFlight := b.halfOpenInFlight + 1);
        }
      }
      breakers := breakers[name := b];
    }

    method OnSuccess(name: string, ghost call: nat, ghost now: int)
      modifies this`breakers
      ensures breakers == old(breakers)[name := Step(ConfigFor(name), old(Of(name)), Report(call, true, now)).0]
    {
      var b, c := Of(name), ConfigFor(name);
      if b.state == HalfOpen {
        b := b.(halfOpenInFlight := if b.halfOpenInFlight >= 1 then b.halfOpenInFlight - 1 else 0);
        b := b.(halfOpenSuccesses := b.halfOpenSuccesses + 1);
        if b.halfOpenSuccesses >= c.halfOpenSuccessThreshold.GetOr(1) {
          b := b.(consecutiveFailures := 0, state := Closed);
        }
      } else {
        b := b.(consecutiveFailures := 0);
      }
      breakers := breakers[name := b];
    }

    method OnFailure(name: string, ghost call: nat, now: int)
      modifies this`breakers
      ensures breakers == old(breakers)[name := Step(ConfigFor(name), old(Of(name)), Report(call, false, now)).0]
    {
      var b, c := Of(name), ConfigFor(name);
      b := b.(totalFailures := b.totalFailures + 1);
      if b.state == HalfOpen {
        b := b.(halfOpenInFlight := if b.halfOpenInFlight >= 1 then b.halfOpenInFlight - 1 else 0);
        b := b.(state := Open, openedAt := now);
      } else {
        b := b.(consecutiveFailures := b.consecutiveFailures + 1);
        if b.consecutiveFailures >= c.failureThreshold {
          b := b.(state := Open, openedAt := now);
        }
      }
      breakers := breakers[name := b];
    }

    method ForceClosed(name: string, ghost now: int)
      modifies this`breakers
      ensures breakers == old(breakers)[name := Step(ConfigFor(name), old(Of(name)), Reset(now)).0]
    {
      var b := Of(name);
      breakers := breakers[name :=
        b.(consecutiveFailures := 0, halfOpenInFlight := 0, halfOpenSuccesses := 0, state := Closed)];
    }
  }

  // ---------------------------------------------------------------- runs of one breaker

  function Front(es: seq<Event>): seq<Event>
    requires es != []
  {
    es[..|es| - 1]
  }

  function Last(es: seq<Event>): Event
    requires es != []
  {
    es[|es| - 1]
  }

  function Run(c: Config, es: seq<Event>): Breaker {
    if es == [] then FRESH else Step(c, Run(c, Front(es)), Last(es)).0
  }

  function Answer(c: Config, es: seq<Event>): Verdict
    requires es != []
  {
    Step(c, Run(c, Front(es)), Last(es)).1
  }

  predicate InTime(es: seq<Event>) {
    forall i, j :: 0 <= i < j < |es| ==> es[i].now <= es[j].now
  }

  /** Failures reported after the last reported success or reset. */
  function Streak(es: seq<Event>): nat {
    if es == [] || Last(es).Reset? then 0
    else if Last(es).Admit? then Streak(Front(es))
    else if Last(es).ok then 0
    else Streak(Front(es)) + 1
  }

  /** Closed means the trailing failures have not reached the threshold. */
  lemma {:induction false} ClosedCountsStreak(c: Config, es: seq<Event>)
    requires Run(c, es).state == Closed
    ensures Run(c, es).consecutiveFailures == Streak(es)
    ensures Streak(es) < c.failureThreshold || Streak(es) == 0
  {
    if es != [] && Run(c, Front(es)).state == Closed {
      ClosedCountsStreak(c, Front(es));
    }
  }

  /** A closed breaker opens exactly on the failure that makes the streak reach the threshold. */
  lemma {:induction false} OpensAtThreshold(c: Config, es: seq<Event>)
    requires es != [] && Run(c, Front(es)).state == Closed
    ensures Run(c, es).state == Open <==> Last(es).Report? && !Last(es).ok && Streak(es) >= c.failureThreshold
    ensures Run(c, es).state == Open && c.failureThreshold >= 1 ==> Streak(es) == c.failureThreshold
    ensures Run(c, es).state != HalfOpen
  {
    ClosedCountsStreak(c, Front(es));
  }

  // ---------------------------------------------------------------- counters and resets

  function Rejections(c: Config, es: seq<Event>): nat {
    if es == [] then 0 else Rejections(c, Front(es)) + if Answer(c, es).Rejected? then 1 else 0
  }

  function FailedReports(es: seq<Event>): nat {
    if es == [] then 0 else FailedReports(Front(es)) + if Last(es).Report? && !Last(es).ok then 1 else 0
  }

  /** The totals count the calls turned away and the failures reported; no reset clears them. */
  lemma {:induction false} TotalsCount(c: Config, es: seq<Event>)
    ensures Run(c, es).totalRejected == Rejections(c, es) && Run(c, es).totalFailures == FailedReports(es)
  {
    if es != [] {
      TotalsCount(c, Front(es));
    }
  }

  /** Two breakers alike but for their totals and a stamp no longer in force. */
  predicate Twins(a: Breaker, b: Breaker) {
    a.state == b.state && a.consecutiveFailures == b.consecutiveFailures &&
    a.halfOpenInFlight == b.halfOpenInFlight && a.halfOpenSuccesses == b.halfOpenSuccesses &&
    (a.state == Open ==> a.openedAt == b.openedAt)
  }

  lemma {:induction false} TwinsStay(c: Config, es: seq<Event>, now: int, fs: seq<Event>)
    ensures Twins(Run(c, es + [Reset(now)] + fs), Run(c, fs))
    decreases |fs|
  {
    var all := es + [Reset(now)] + fs;
    if fs == [] {
      assert Front(all) == es && Last(all) == Reset(now);
    } else {
      assert Front(all) == es + [Reset(now)] + Front(fs) && Last(all) == Last(fs);
      TwinsStay(c, es, now, Front(fs));
    }
  }

  /** A forced close forgets all that went before: the calls after it are answered as by a new breaker. */
  lemma {:induction false} ResetForgets(c: Config, es: seq<Event>, now: int, fs: seq<Event>)
    requires fs != []
    ensures Answer(c, es + [Reset(now)] + fs) == Answer(c, fs)
  {
    var all := es + [Reset(now)] + fs;
    assert Front(all) == es + [Reset(now)] + Front(fs) && Last(all) == Last(fs);
    TwinsStay(c, es, now, Front(fs));
  }

  // ---------------------------------------------------------------- open

  predicate Opens(c: Config, es: seq<Event>)
    requires es != []
  {
    Run(c, Front(es)).state != Open && Run(c, es).state == Open
  }

  /**
   After an opening at position `i`, and until a reset, an open breaker's stamp is no earlier, and it leaves
   open only once the time is up.
   */
  lemma {:induction false} StaysOpen(c: Config, es: seq<Event>, i: nat, j: nat)
    requires InTime(es) && i < j <= |es| && Opens(c, es[..i + 1])
    requires forall k :: i < k < j ==> !es[k].Reset?
    ensures var b := Run(c, es[..j]);
            if b.state == Open then b.openedAt >= es[i].now else es[j - 1].now - es[i].now >= c.openDurationMs
    decreases j
  {
    assert Front(es[..j]) == es[..j - 1] && Last(es[..j]) == es[j - 1];
    if j == i + 1 {
      assert !es[i].Admit?;
    } else {
      StaysOpen(c, es, i, j - 1);
      assert es[j - 2].now <= es[j - 1].now && es[i].now <= es[j - 1].now;
    }
  }

  /** Once open, no call is admitted before `openDurationMs` have passed, whatever is reported meanwhile. */
  lemma NothingAdmittedWhileOpen(c: Config, es: seq<Event>, i: nat, j: nat)
    requires InTime(es) && i < j < |es| && Opens(c, es[..i + 1])
    requires forall k :: i < k < j ==> !es[k].Reset?
    requires Answer(c, es[..j + 1]) == Admitted
    ensures es[j].now - es[i].now >= c.openDurationMs
  {
    StaysOpen(c, es, i, j);
    assert Front(es[..j + 1]) == es[..j] && Last(es[..j + 1]) == es[j];
    assert es[j - 1].now <= es[j].now && es[i].now <= es[j].now;
  }

  /** The time a rejection names is the time to wait: a call that comes next gets past the open state exactly then. */
  lemma RetryAfterIsExact(c: Config, b: Breaker, now: int, later: int)
    requires b.state == Open && Admission(c, b, now).1.Rejected? && now - b.openedAt < c.openDurationMs
    ensures var (after, v) := Admission(c, b, now);
            v.retryAfterMs > 0 && (Admission(c, after, later).0.state == HalfOpen <==> later - now >= v.retryAfterMs)
  {
  }

  /** A rejection names a wait while the breaker stays open, and none where probes are all it waits for. */
  lemma RejectionSays(c: Config, b: Breaker, now: int)
    requires Admission(c, b, now).1.Rejected?
    ensures var (after, v) := Admission(c, b, now);
            if after.state == Open then v.retryAfterMs > 0
            else v.retryAfterMs == 0 && after.state == HalfOpen && after.halfOpenInFlight >= c.halfOpenMaxCalls
  {
  }

  /** A failure reported while open restarts the clock, exactly when the failures counted reach the threshold again. */
  lemma LateFailureRestarts(c: Config, b: Breaker, call: nat, now: int)
    requires b.state == Open && b.openedAt < now
    ensures var t := Step(c, b, Report(call, false, now)).0;
            t.state == Open && (t.openedAt != b.openedAt <==> b.consecutiveFailures + 1 >= c.failureThreshold)
  {
  }

  // ---------------------------------------------------------------- one half-open episode

  /** The last event turned the breaker half-open: an episode begins. */
  predicate Begins(c: Config, es: seq<Event>)
    requires es != []
  {
    Run(c, Front(es)).state != HalfOpen && Run(c, es).state == HalfOpen
  }

  /** Calls admitted since the episode began. */
  function Admissions(c: Config, es: seq<Event>): nat {
    if es == [] then 0
    else (if Begins(c, es) then 0 else Admissions(c, Front(es))) + if Answer(c, es) == Admitted then 1 else 0
  }

  function Reports(c: Config, es: seq<Event>): nat {
    if es == [] || Begins(c, es) then 0 else Reports(c, Front(es)) + if Last(es).Report? then 1 else 0
  }

  function Successes(c: Config, es: seq<Event>): nat {
    if es == [] || Begins(c, es) then 0 else Successes(c, Front(es)) + if Last(es).Report? && Last(es).ok then 1 else 0
  }

  /**
   The calls admitted since the present half-open episode began and not reported yet; a call is named by its
   place in the run.  Probes of earlier episodes are not among them: `OutProbes` has them all.
   */
  function Probes(c: Config, es: seq<Event>): set<nat> {
    if es == [] then {}
    else
      var before := if Begins(c, es) then {} else Probes(c, Front(es));
      if Answer(c, es) == Admitted then before + {|es| - 1}
      else if Last(es).Report? then before - {Last(es).call}
      else before
  }

  /** Reports since the episode began about calls that are not its probes: admitted earlier, or reported before. */
  function Stale(c: Config, es: seq<Event>): nat {
    if es == [] || Begins(c, es) then 0
    else Stale(c, Front(es)) + if Last(es).Report? && Last(es).call !in Probes(c, Front(es)) then 1 else 0
  }

  function AtLeastZero(n: int): nat {
    if n < 0 then 0 else n
  }

  /** The breaker's two half-open counters against the events. */
  lemma {:induction false} EpisodeCounts(c: Config, es: seq<Event>)
    requires Run(c, es).state == HalfOpen
    ensures var b := Run(c, es);
            Admissions(c, es) <= b.halfOpenInFlight + Reports(c, es) &&
            b.halfOpenInFlight <= AtLeastZero(c.halfOpenMaxCalls) &&
            b.halfOpenSuccesses == Successes(c, es)
  {
    if !Begins(c, es) {
      EpisodeCounts(c, Front(es));
    }
  }

  lemma {:induction false} ProbesCounted(c: Config, es: seq<Event>)
    requires Run(c, es).state == HalfOpen
    ensures |Probes(c, es)| <= Run(c, es).halfOpenInFlight + Stale(c, es)
  {
    ProbesChange(c, es);
    if !Begins(c, es) {
      ProbesCounted(c, Front(es));
      FlightChange(c, es);
    }
  }

  /** Within an episode every admission and every report moves the in-flight counter, which stops at zero. */
  lemma {:induction false} FlightChange(c: Config, es: seq<Event>)
    requires es != [] && Run(c, es).state == HalfOpen && !Begins(c, es)
    ensures Run(c, Front(es)).state == HalfOpen
    ensures var n := Run(c, Front(es)).halfOpenInFlight;
            Run(c, es).halfOpenInFlight == if Answer(c, es) == Admitted then n + 1 else if Last(es).Report? then Less(n)
            else n
  {
  }

  lemma {:induction false} ProbesChange(c: Config, es: seq<Event>)
    requires es != []
    ensures var before := if Begins(c, es) then {} else Probes(c, Front(es));
            |Probes(c, es)| <= |before| +
            if Answer(c, es) == Admitted then 1 else if Last(es).Report? && Last(es).call in before then -1 else 0
  {
    var before := if Begins(c, es) then {} else Probes(c, Front(es));
    SizeChanges(before, if Last(es).Report? then Last(es).call else |es| - 1);
  }

  lemma SizeChanges(s: set<nat>, x: nat)
    ensures |s + {x}| <= |s| + 1 && |s - {x}| == if x in s then |s| - 1 else |s|
  {
    if x in s {
      assert s + {x} == s;
    } else {
      assert s - {x} == s;
    }
  }

  /** Within an episode admissions exceed reports by at most `halfOpenMaxCalls`. */
  lemma {:induction false} AdmissionsBounded(c: Config, es: seq<Event>)
    requires Run(c, es).state == HalfOpen
    ensures Admissions(c, es) - Reports(c, es) <= AtLeastZero(c.halfOpenMaxCalls)
  {
    EpisodeCounts(c, es);
  }

  /**
   The probes of the present episode that are out are within `halfOpenMaxCalls` but for its stale reports,
   each of which may let one more in.
   */
  lemma {:induction false} ProbesBounded(c: Config, es: seq<Event>)
    requires Run(c, es).state == HalfOpen
    ensures |Probes(c, es)| <= AtLeastZero(c.halfOpenMaxCalls) + Stale(c, es)
  {
    EpisodeCounts(c, es);
    ProbesCounted(c, es);
  }

  /**
   An episode ends in closing exactly on the success that makes the required number, and in opening on any
   failure.
   */
  lemma {:induction false} EpisodeEnds(c: Config, es: seq<Event>)
    requires es != [] && Run(c, Front(es)).state == HalfOpen && !Last(es).Reset?
    ensures Run(c, es).state == Closed <==>
            Last(es).Report? && Last(es).ok && Successes(c, es) >= c.halfOpenSuccessThreshold.GetOr(1)
    ensures Run(c, es).state == Open <==> Last(es).Report? && !Last(es).ok
  {
    EpisodeCounts(c, Front(es));
  }

  lemma {:induction false} RunSnoc(c: Config, es: seq<Event>, e: Event)
    ensures Front(es + [e]) == es && Last(es + [e]) == e
    ensures Run(c, es + [e]) == Step(c, Run(c, es), e).0 && Answer(c, es + [e]) == Step(c, Run(c, es), e).1
  {
    assert Front(es + [e]) == es;
  }

  // ---------------------------------------------------------------- which configurations bound the probes

  /** The calls admitted and not reported yet, over the whole run. */
  function Unreported(c: Config, es: seq<Event>): set<nat> {
    if es == [] then {}
    else
      var before := Unreported(c, Front(es));
      if Answer(c, es) == Admitted then before + {|es| - 1}
      else if Last(es).Report? then before - {Last(es).call}
      else before
  }

  /** Every report is of a call that was admitted, and the only one of that call. */
  predicate Honest(c: Config, es: seq<Event>) {
    es == [] || (Honest(c, Front(es)) && (Last(es).Report? ==> Last(es).call in Unreported(c, Front(es))))
  }

  /** The probes that went out within the present episode are no more than allowed. */
  ghost predicate WithinMax(c: Config, es: seq<Event>) {
    Run(c, es).state == HalfOpen ==> |Probes(c, es)| <= AtLeastZero(c.halfOpenMaxCalls)
  }

  /** When one success closes, every report ends the episode: none of it can be stale. */
  lemma {:induction false} NoneStale(c: Config, es: seq<Event>)
    requires c.halfOpenSuccessThreshold.GetOr(1) <= 1 && Run(c, es).state == HalfOpen
    ensures Stale(c, es) == 0
  {
    if !Begins(c, es) {
      NoneStale(c, Front(es));
    }
  }

  /** Then, or when probes are off, the bound within one episode holds in every run, whatever its reports. */
  lemma {:induction false} SafeConfig(c: Config, es: seq<Event>)
    requires c.halfOpenSuccessThreshold.GetOr(1) <= 1 || c.halfOpenMaxCalls <= 0
    ensures WithinMax(c, es)
  {
    if Run(c, es).state == HalfOpen {
      ProbesBounded(c, es);
      if c.halfOpenMaxCalls <= 0 {
        NoProbes(c, es);
      } else {
        NoneStale(c, es);
      }
    }
  }

  lemma {:induction false} NoProbes(c: Config, es: seq<Event>)
    requires c.halfOpenMaxCalls <= 0 && Run(c, es).state == HalfOpen
    ensures Probes(c, es) == {}
  {
    if !Begins(c, es) {
      NoProbes(c, Front(es));
    }
  }

  ghost predicate Played(c: Config, es: seq<Event>, now: int) {
    InTime(es) && Honest(c, es) && forall i :: 0 <= i < |es| ==> es[i].now <= now
  }

  lemma {:induction false} PlayOn(c: Config, es: seq<Event>, e: Event, now: int)
    requires Played(c, es, now) && now <= e.now
    requires e.Report? ==> e.call in Unreported(c, es)
    ensures Played(c, es + [e], e.now)
  {
    RunSnoc(c, es, e);
  }

  function Failures(c: Config): int {
    if c.failureThreshold < 1 then 1 else c.failureThreshold
  }

  /** `n` calls admitted by a closed breaker. */
  lemma {:induction false} CallsOut(c: Config, n: nat) returns (es: seq<Event>)
    ensures Played(c, es, 0) && Run(c, es) == FRESH && |es| == n && forall i :: 0 <= i < n ==> i in Unreported(c, es)
  {
    es := [];
    if n > 0 {
      var front := CallsOut(c, n - 1);
      es := front + [Admit(0)];
      PlayOn(c, front, Admit(0), 0);
      RunSnoc(c, front, Admit(0));
    }
  }

  /** The first `k` of `n` calls have failed; as many as the threshold open the breaker. */
  lemma {:induction false} CallsFail(c: Config, n: nat, k: nat) returns (es: seq<Event>)
    requires k <= n && k <= Failures(c)
    ensures Played(c, es, 0) && |es| == n + k && forall i :: k <= i < n ==> i in Unreported(c, es)
    ensures var b := Run(c, es);
            b.consecutiveFailures == k && b.openedAt == 0 && b.state == if k == Failures(c) then Open else Closed
  {
    if k == 0 {
      es := CallsOut(c, n);
    } else {
      var front := CallsFail(c, n, k - 1);
      var e := Report(k - 1, false, 0);
      es := front + [e];
      PlayOn(c, front, e, 0);
      RunSnoc(c, front, e);
    }
  }

  function Wait(c: Config): int {
    if c.openDurationMs < 0 then 0 else c.openDurationMs
  }

  /** A call that comes when a probe may go out goes out as one. */
  lemma {:induction false} ProbeGoesOut(c: Config, es: seq<Event>, now: int)
    requires var b := Run(c, es);
             if b.state == Open then now - b.openedAt >= c.openDurationMs && 0 < c.halfOpenMaxCalls
             else b.state == HalfOpen && b.halfOpenInFlight < c.halfOpenMaxCalls
    ensures var b, t, after := Run(c, es), Run(c, es + [Admit(now)]), es + [Admit(now)];
            t.state == HalfOpen &&
            t.halfOpenInFlight == (if b.state == Open then 1 else b.halfOpenInFlight + 1) &&
            t.halfOpenSuccesses == (if b.state == Open then 0 else b.halfOpenSuccesses) &&
            Probes(c, after) == (if b.state == Open then {} else Probes(c, es)) + {|es|} &&
            Unreported(c, after) == Unreported(c, es) + {|es|}
  {
    RunSnoc(c, es, Admit(now));
  }

  /** `m` probes are out since the breaker was opened with call number `Failures(c)` still out. */
  ghost predicate Filled(c: Config, es: seq<Event>, m: nat) {
    var b := Run(c, es);
    b.state == HalfOpen && b.halfOpenInFlight == m && b.halfOpenSuccesses == 0 &&
    Failures(c) in Unreported(c, es) && Failures(c) !in Probes(c, es) && |Probes(c, es)| == m &&
    Failures(c) < |es| && forall i :: i in Probes(c, es) ==> i < |es|
  }

  lemma {:induction false} OneMoreOut(s: set<nat>, n: nat)
    requires forall i :: i in s ==> i < n
    ensures |s + {n}| == |s| + 1
  {
  }

  lemma {:induction false} FilledMore(c: Config, es: seq<Event>, m: nat, now: int)
    requires Filled(c, es, m) && m < c.halfOpenMaxCalls
    ensures Filled(c, es + [Admit(now)], m + 1)
  {
    ProbeGoesOut(c, es, now);
    OneMoreOut(Probes(c, es), |es|);
  }

  lemma {:induction false} ProbesGoOut(c: Config, m: nat) returns (es: seq<Event>)
    requires 1 <= m <= c.halfOpenMaxCalls
    ensures Played(c, es, Wait(c)) && Filled(c, es, m)
  {
    var e, now := Admit(Wait(c)), Wait(c);
    if m == 1 {
      var started := CallsFail(c, Failures(c) + 1, Failures(c));
      es := started + [e];
      ProbeGoesOut(c, started, now);
      PlayOn(c, started, e, 0);
      assert Probes(c, es) == {|started|};
    } else {
      var front := ProbesGoOut(c, m - 1);
      es := front + [e];
      FilledMore(c, front, m - 1, now);
      PlayOn(c, front, e, now);
    }
  }

  /** A success reported by the call that is no probe frees a place and takes none. */
  lemma {:induction false} LateSuccess(c: Config, es: seq<Event>, m: nat, now: int)
    requires Filled(c, es, m) && m > 0 && c.halfOpenSuccessThreshold.GetOr(1) > 1
    ensures var after := es + [Report(Failures(c), true, now)];
            Run(c, after).state == HalfOpen && Run(c, after).halfOpenInFlight == m - 1 &&
            Probes(c, after) == Probes(c, es)
  {
    RunSnoc(c, es, Report(Failures(c), true, now));
    assert Probes(c, es) - {Failures(c)} == Probes(c, es);
  }

  /**
   Else there is an honest run that breaks it within one episode: open the breaker with one call still out, let
   in as many probes as allowed, have the old call report a success, and one more probe gets in.
   */
  lemma {:induction false} OneProbeTooMany(c: Config) returns (es: seq<Event>)
    requires c.halfOpenSuccessThreshold.GetOr(1) > 1 && c.halfOpenMaxCalls > 0
    ensures InTime(es) && Honest(c, es) && !WithinMax(c, es)
  {
    var filled := ProbesGoOut(c, c.halfOpenMaxCalls);
    var late, next := Report(Failures(c), true, Wait(c)), Admit(Wait(c));
    var reported := filled + [late];
    LateSuccess(c, filled, c.halfOpenMaxCalls, Wait(c));
    PlayOn(c, filled, late, Wait(c));
    es := reported + [next];
    ProbeGoesOut(c, reported, Wait(c));
    PlayOn(c, reported, next, Wait(c));
    OneMoreOut(Probes(c, reported), |reported|);
  }

  /**
   Within one episode at most `halfOpenMaxCalls` probes are out, in every run whose reports are of admitted
   calls and once each, exactly when one success closes the breaker or no probes are let in at all.
   */
  lemma ProbesBoundedExactly(c: Config)
    ensures (forall es: seq<Event> :: InTime(es) && Honest(c, es) ==> WithinMax(c, es)) <==>
            c.halfOpenSuccessThreshold.GetOr(1) <= 1 || c.halfOpenMaxCalls <= 0
  {
    if c.halfOpenSuccessThreshold.GetOr(1) <= 1 || c.halfOpenMaxCalls <= 0 {
      forall es: seq<Event> ensures WithinMax(c, es) {
        SafeConfig(c, es);
      }
    } else {
      var es := OneProbeTooMany(c);
    }
  }

  // ---------------------------------------------------------------- probes out over the whole run

  /** The calls let in by a half-open breaker and not reported yet, whichever episode let them in. */
  function OutProbes(c: Config, es: seq<Event>): set<nat> {
    if es == [] then {}
    else
      var before := OutProbes(c, Front(es));
      if Answer(c, es) == Admitted && Run(c, es).state == HalfOpen then before + {|es| - 1}
      else if Last(es).Report? then before - {Last(es).call}
      else before
  }

  /** What the breaker promises: never more probes out at the same time than allowed. */
  ghost predicate FewOut(c: Config, es: seq<Event>) {
    |OutProbes(c, es)| <= AtLeastZero(c.halfOpenMaxCalls)
  }

  lemma {:induction false} ProbesAreOut(c: Config, es: seq<Event>)
    requires Run(c, es).state == HalfOpen
    ensures Probes(c, es) <= OutProbes(c, es)
  {
    if !Begins(c, es) {
      ProbesAreOut(c, Front(es));
    }
  }

  lemma {:induction false} NoneOut(c: Config, es: seq<Event>)
    requires c.halfOpenMaxCalls <= 0
    ensures OutProbes(c, es) == {}
  {
    if es != [] {
      NoneOut(c, Front(es));
    }
  }

  lemma {:induction false} SizeOfPart(a: set<nat>, b: set<nat>)
    requires a <= b
    ensures |a| <= |b|
  {
    if a != {} {
      var x :| x in a;
      SizeOfPart(a - {x}, b - {x});
    }
  }

  /** A failure reported by a call that is no probe opens the breaker, and the probes stay out. */
  lemma {:induction false} LateFailure(c: Config, es: seq<Event>, m: nat, now: int)
    requires Filled(c, es, m)
    ensures var after := es + [Report(Failures(c), false, now)];
            Run(c, after).state == Open && Run(c, after).openedAt == now && Probes(c, es) <= OutProbes(c, after)
  {
    ProbesAreOut(c, es);
    RunSnoc(c, es, Report(Failures(c), false, now));
  }

  /** A probe let in on top of those of an earlier episode. */
  lemma {:induction false} OneMoreEpisode(c: Config, es: seq<Event>, before: set<nat>, now: int)
    requires Run(c, es).state == Open && now - Run(c, es).openedAt >= c.openDurationMs && c.halfOpenMaxCalls > 0
    requires before <= OutProbes(c, es) && forall i :: i in before ==> i < |es|
    ensures |OutProbes(c, es + [Admit(now)])| > |before|
  {
    RunSnoc(c, es, Admit(now));
    OneMoreOut(before, |es|);
    SizeOfPart(before + {|es|}, OutProbes(c, es + [Admit(now)]));
  }

  /**
   An honest run with one probe too many: let in as many probes as allowed, have an older call report a
   failure, wait until the next episode begins, and its first probe is one more.
   */
  lemma {:induction false} EpisodesPileUp(c: Config) returns (es: seq<Event>)
    requires c.halfOpenMaxCalls > 0
    ensures InTime(es) && Honest(c, es) && !FewOut(c, es)
  {
    var m, now := c.halfOpenMaxCalls, Wait(c);
    var filled := ProbesGoOut(c, m);
    var late, next := Report(Failures(c), false, now), Admit(now + now);
    LateFailure(c, filled, m, now);
    PlayOn(c, filled, late, now);
    var failed := filled + [late];
    OneMoreEpisode(c, failed, Probes(c, filled), now + now);
    PlayOn(c, failed, next, now);
    es := failed + [next];
  }

  /**
   Over whole runs the promise is kept, in every run whose reports are of admitted calls and once each, by no
   configuration that lets any probe in: a new episode forgets the probes of the one before.
   */
  lemma OutProbesBoundedExactly(c: Config)
    ensures (forall es: seq<Event> :: InTime(es) && Honest(c, es) ==> FewOut(c, es)) <==> c.halfOpenMaxCalls <= 0
  {
    if c.halfOpenMaxCalls <= 0 {
      forall es: seq<Event> ensures FewOut(c, es) {
        NoneOut(c, es);
      }
    } else {
      var es := EpisodesPileUp(c);
    }
  }

  // ---------------------------------------------------------------- a late failure

  /** Both sides of `LateFailureRestarts` happen.  Two calls fail at threshold one, the second while open: a restart. */
  lemma {:induction false} LateFailureMoves()
    ensures exists es: seq<Event> ::
              var c := Config(1, 10, 1, None);
              InTime(es) && Honest(c, es) && es != [] && Run(c, Front(es)).state == Open &&
              Run(c, Front(es)).openedAt == 0 && Run(c, es).state == Open && Run(c, es).openedAt == 5
  {
    var c := Config(1, 10, 1, None);
    var front := CallsFail(c, 2, 1);
    var e := Report(1, false, 5);
    PlayOn(c, front, e, 0);
    RunSnoc(c, front, e);
    assert Front(front + [e]) == front;
  }

  /** At threshold two, a success reported while open lets the failure after it pass without a restart. */
  lemma {:induction false} LateFailureStays()
    ensures exists es: seq<Event> ::
              var c := Config(2, 10, 1, None);
              InTime(es) && Honest(c, es) && es != [] && Run(c, Front(es)).state == Open &&
              Last(es) == Report(3, false, 5) && Run(c, es).state == Open && Run(c, es).openedAt == 0
  {
    var c := Config(2, 10, 1, None);
    var tripped := CallsFail(c, 4, 2);
    var good, bad := Report(2, true, 1), Report(3, false, 5);
    PlayOn(c, tripped, good, 0);
    RunSnoc(c, tripped, good);
    var front := tripped + [good];
    PlayOn(c, front, bad, 1);
    RunSnoc(c, front, bad);
    assert Front(front + [bad]) == front;
  }
}
