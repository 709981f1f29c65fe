/**
 The adaptive concurrency controller: admission under a moving limit, a FIFO queue of waiters, and a
 retry budget.

 A permit is named by the number of grants before it; `open` holds the permits not yet released (their
 own `released` flag is still false).  Waiters are named by whoever calls.
 */
module FlowController {
  import opened Prelude
  import Reals

  datatype Config = Config(
    initialLimit: real, maxLimit: real, minLimit: real, minRttAlpha: real,
    maxQueue: int, retryRatio: real, maxRetryTokens: real)

  /** What the constructor throws on; it does not look at `initialLimit`. */
  predicate Refused(c: Config) {
    c.minLimit <= 0.0 || c.maxLimit < c.minLimit || c.retryRatio < 0.0
  }

  /** `minRtt` is None before the first sample (infinity in the program). */
  datatype Flow = Flow(
    limit: real, inflight: int, queue: seq<nat>, granted: nat, shed: nat, minRtt: Option<real>,
    lastRtt: real, retryTokens: real, open: set<nat>)

  datatype Op = TryAcquire | Acquire(waiter: nat) | Release(permit: nat, latency: real, ok: bool) | ConsumeRetry

  datatype Outcome =
    | Granted(permit: nat) | OverLimit | Queued | QueueFull
    | Released(woken: Option<(nat, nat)>) | NoSuchPermit
    | Retry(allowed: bool)

  function Min(x: real, y: real): real {
    if x <= y then x else y
  }

  function Max(x: real, y: real): real {
    if x >= y then x else y
  }

  function Seed(c: Config): real {
    Min(c.maxRetryTokens, c.retryRatio * 10.0)
  }

  function Initial(c: Config): Flow {
    Flow(c.initialLimit, 0, [], 0, 0, None, 0.0, Seed(c), {})
  }

  function Grant(s: Flow): Flow {
    s.(inflight := s.inflight + 1, granted := s.granted + 1, open := s.open + {s.granted})
  }

  function Blend(alpha: real, x: real, y: real): real {
    alpha * x + (1.0 - alpha) * y
  }

  function NextFloor(c: Config, floor: Option<real>, latency: real): real {
    if floor == None || latency < floor.value then latency
    else Blend(c.minRttAlpha, latency, floor.value)
  }

  function NextLimit(c: Config, limit: real, floor: real, latency: real): real {
    Scaled(c, limit, floor / Max(latency, 0.000001))
  }

  /** Multiplicative decrease below gradient 1, additive increase from there. */
  function Scaled(c: Config, limit: real, gradient: real): real {
    if gradient < 1.0 then Max(c.minLimit, (limit * gradient).Floor as real) else Min(c.maxLimit, limit + 1.0)
  }

  /** The state once a permit is given back and before a waiter is woken. */
  function Returned(c: Config, s: Flow, permit: nat, latency: real, ok: bool): Flow {
    var floor := NextFloor(c, s.minRtt, latency);
    s.(inflight := if s.inflight >= 1 then s.inflight - 1 else 0,
       open := s.open - {permit}, lastRtt := latency, minRtt := Some(floor),
       limit := NextLimit(c, s.limit, floor, latency),
       retryTokens := if ok then Min(c.maxRetryTokens, s.retryTokens + c.retryRatio) else s.retryTokens)
  }

  function Wake(s: Flow): (Flow, Outcome) {
    if s.queue == [] then (s, Released(None))
    else (Grant(s).(queue := s.queue[1..]), Released(Some((s.queue[0], s.granted))))
  }

  function Step(c: Config, s: Flow, op: Op): (Flow, Outcome) {
    match op
    case TryAcquire =>
      if s.inflight as real >= s.limit then (s.(shed := s.shed + 1), OverLimit) else (Grant(s), Granted(s.granted))
    case Acquire(w) =>
      if (s.inflight as real) < s.limit then (Grant(s), Granted(s.granted))
      else if |s.queue| >= c.maxQueue then (s.(shed := s.shed + 1), QueueFull)
      else (s.(queue := s.queue + [w]), Queued)
    case Release(permit, latency, ok) =>
      if permit !in s.open then (s, NoSuchPermit) else Wake(Returned(c, s, permit, latency, ok))
    case ConsumeRetry =>
      if s.retryTokens <= 0.0 then (s, Retry(false)) else (s.(retryTokens := s.retryTokens - 1.0), Retry(true))
  }

  class FlowController {
    const config: Config
    var limit: real
    var inflight: int
    var queue: seq<nat>
    var granted: nat
    var shed: nat
    var minRtt: Option<real>
    var lastRtt: real
    var retryTokens: real
    var open: set<nat>

    constructor Trusted(config: Config)
      ensures this.config == config && State() == Initial(config)
      ensures retryTokens == if 10.0 * config.retryRatio <= config.maxRetryTokens then 10.0 * config.retryRatio
                             else config.maxRetryTokens
    {
      this.config := config;
      limit, inflight, queue := config.initialLimit, 0, [];
      granted, shed := 0, 0;
      minRtt, lastRtt := None, 0.0;
      retryTokens := Min(config.maxRetryTokens, config.retryRatio * 10.0);
      open := {};
    }

    static method Create(config: Config) returns (r: Option<FlowController>)
      ensures r == None <==> Refused(config)
      ensures r == None <==> config.minLimit <= 0.0 || config.minLimit > config.maxLimit || config.retryRatio < 0.0
      ensures r.Some? ==> fresh(r.value) && r.value.config == config && r.value.State() == Initial(config)
    {
      if config.minLimit <= 0.0 || config.maxLimit < config.minLimit {
        return None;
      }
      if config.retryRatio < 0.0 {
        return None;
      }
      var made := new FlowController.Trusted(config);
      r := Some(made);
    }

    function State(): Flow
      reads this
    {
      Flow(limit, inflight, queue, granted, shed, minRtt, lastRtt, retryTokens, open)
    }

    method GrantPermit() returns (permit: nat)
      modifies this
      ensures permit == old(granted) && State() == Grant(old(State()))
    {
      permit := granted;
      inflight := inflight + 1;
      granted := granted + 1;
      open := open + {permit};
    }

    method TryToAcquire() returns (r: Outcome)
      modifies this
      ensures (State(), r) == Step(config, old(State()), TryAcquire)
    {
      if inflight as real >= limit {
        shed := shed + 1;
        return OverLimit;
      }
      var permit := GrantPermit();
      return Granted(permit);
    }

    method AcquireOrQueue(waiter: nat) returns (r: Outcome)
      modifies this
      ensures (State(), r) == Step(config, old(State()), Acquire(waiter))
    {
      if (inflight as real) < limit {
        var permit := GrantPermit();
        return Granted(permit);
      }
      if |queue| >= config.maxQueue {
        shed := shed + 1;
        return QueueFull;
      }
      queue := queue + [waiter];
      return Queued;
    }

    method ConsumeRetryToken() returns (r: Outcome)
      modifies this
      ensures (State(), r) == Step(config, old(State()), ConsumeRetry)
    {
      if retryTokens <= 0.0 {
        return Retry(false);
      }
      retryTokens := retryTokens - 1.0;
      return Retry(true);
    }

    /** The release closure of a permit: the first call counts, later ones do nothing. */
    method ReleasePermit(permit: nat, latency: real, ok: bool) returns (r: Outcome)
      modifies this
      ensures (State(), r) == Step(config, old(State()), Release(permit, latency, ok))
    {
      if permit !in open {
        return NoSuchPermit;
      }
      open := open - {permit};
      inflight := if inflight - 1 >= 0 then inflight - 1 else 0;
      Adapt(latency);
      if ok {
        retryTokens := Min(config.maxRetryTokens, retryTokens + config.retryRatio);
      }
      r := WakeNext();
    }

    /** The gradient rule: the floor first, then the limit against it. */
    method Adapt(latency: real)
      modifies this`lastRtt, this`minRtt, this`limit
      ensures lastRtt == latency && minRtt == Some(NextFloor(config, old(minRtt), latency))
      ensures limit == NextLimit(config, old(limit), NextFloor(config, old(minRtt), latency), latency)
    {
      lastRtt := latency;
      var floor := latency;
      if minRtt.Some? && latency >= minRtt.value {
        floor := Blend(config.minRttAlpha, latency, minRtt.value);
      }
      minRtt := Some(floor);
      Follow(floor / Max(latency, 0.000001));
    }

    method Follow(gradient: real)
      modifies this`limit
      ensures limit == Scaled(config, old(limit), gradient)
    {
      if gradient < 1.0 {
        limit := Max(config.minLimit, (limit * gradient).Floor as real);
      } else {
        limit := Min(config.maxLimit, limit + 1.0);
      }
    }

    method WakeNext() returns (r: Outcome)
      modifies this
      ensures (State(), r) == Wake(old(State()))
    {
      if queue == [] {
        return Released(None);
      }
      var waiter := queue[0];
      queue := queue[1..];
      var given := GrantPermit();
      r := Released(Some((waiter, given)));
    }
  }

  // ---------------------------------------------------------------- whole runs

  function Run(c: Config, ops: seq<Op>): Flow {
    if ops == [] then Initial(c) else Step(c, Run(c, ops[..|ops| - 1]), ops[|ops| - 1]).0
  }

  /** The answer to the last operation of a run. */
  function Answer(c: Config, ops: seq<Op>): Outcome
    requires ops != []
  {
    Step(c, Run(c, ops[..|ops| - 1]), ops[|ops| - 1]).1
  }

  /** The slots in use are those of the permits still held, whatever the limits are. */
  predicate Accounted(s: Flow) {
    s.inflight == |s.open| && forall p :: p in s.open ==> p < s.granted
  }

  lemma StepAccounts(c: Config, s: Flow, op: Op)
    requires Accounted(s)
    ensures Accounted(Step(c, s, op).0)
  {
    if op.Release? && op.permit in s.open {
      var t := Returned(c, s, op.permit, op.latency, op.ok);
      assert |s.open - {op.permit}| == |s.open| - 1;
      assert Accounted(t);
    }
  }

  lemma {:induction false} RunAccounts(c: Config, ops: seq<Op>)
    ensures Accounted(Run(c, ops))
  {
    if ops != [] {
      RunAccounts(c, ops[..|ops| - 1]);
      StepAccounts(c, Run(c, ops[..|ops| - 1]), ops[|ops| - 1]);
    }
  }

  /** The limits hold: the limit stays in its bounds, and no more than `maxLimit` slots (rounded up) are in use. */
  predicate Bounded(c: Config, s: Flow) {
    c.minLimit <= s.limit <= c.maxLimit && (s.inflight as real) < c.maxLimit + 1.0
  }

  lemma LimitStaysBounded(c: Config, s: Flow, floor: real, latency: real)
    requires !Refused(c) && c.minLimit <= s.limit <= c.maxLimit
    ensures c.minLimit <= NextLimit(c, s.limit, floor, latency) <= c.maxLimit
  {
    ScaledStaysBounded(c, s.limit, floor / Max(latency, 0.000001));
  }

  lemma ScaledStaysBounded(c: Config, limit: real, gradient: real)
    requires !Refused(c) && c.minLimit <= limit <= c.maxLimit
    ensures c.minLimit <= Scaled(c, limit, gradient) <= c.maxLimit
  {
    if gradient < 1.0 {
      BelowOne(limit, gradient);
    }
  }

  lemma BelowOne(limit: real, gradient: real)
    requires limit >= 0.0 && gradient < 1.0
    ensures (limit * gradient).Floor as real <= limit
  {
    Reals.MulMonotone(limit, gradient, 1.0);
    assert limit * 1.0 == limit;
  }

  lemma {:induction false} LimitsHold(c: Config, ops: seq<Op>)
    requires !Refused(c) && c.minLimit <= c.initialLimit <= c.maxLimit
    ensures Bounded(c, Run(c, ops))
  {
    if ops != [] {
      var s, op := Run(c, ops[..|ops| - 1]), ops[|ops| - 1];
      LimitsHold(c, ops[..|ops| - 1]);
      RunAccounts(c, ops[..|ops| - 1]);
      if op.Release? && op.permit in s.open {
        LimitStaysBounded(c, s, NextFloor(c, s.minRtt, op.latency), op.latency);
      }
    }
  }

  /** With a whole-number bound no more slots than that are ever in use. */
  lemma {:induction false} SlotsWithinMax(c: Config, ops: seq<Op>, most: int)
    requires !Refused(c) && c.minLimit <= c.initialLimit <= c.maxLimit == most as real
    ensures Run(c, ops).inflight <= most
  {
    LimitsHold(c, ops);
  }

  lemma LimitStaysPositive(c: Config, limit: real, floor: real, latency: real)
    requires !Refused(c) && limit > 0.0
    ensures NextLimit(c, limit, floor, latency) > 0.0
  {
  }

  /** With a positive limit to start from, whoever waits waits for someone who holds a slot. */
  lemma {:induction false} WaitersHaveHolder(c: Config, ops: seq<Op>)
    requires !Refused(c) && c.initialLimit > 0.0
    ensures Run(c, ops).limit > 0.0 && (Run(c, ops).queue != [] ==> Run(c, ops).inflight >= 1)
  {
    if ops != [] {
      var s, op := Run(c, ops[..|ops| - 1]), ops[|ops| - 1];
      WaitersHaveHolder(c, ops[..|ops| - 1]);
      RunAccounts(c, ops[..|ops| - 1]);
      if op.Release? && op.permit in s.open {
        LimitStaysPositive(c, s.limit, NextFloor(c, s.minRtt, op.latency), op.latency);
        assert s.inflight >= 1;
      }
    }
  }

  /** The constructor accepts a starting limit of zero; then the first waiter queues behind nobody. */
  lemma {:induction false} WaitersHaveHolderExactly(c: Config)
    requires !Refused(c)
    ensures (forall ops: seq<Op> :: Run(c, ops).queue != [] ==> Run(c, ops).inflight >= 1) <==>
            c.initialLimit > 0.0 || c.maxQueue <= 0
  {
    if c.initialLimit > 0.0 {
      forall ops: seq<Op> ensures Run(c, ops).queue != [] ==> Run(c, ops).inflight >= 1 {
        WaitersHaveHolder(c, ops);
      }
    } else if c.maxQueue <= 0 {
      forall ops: seq<Op> ensures Run(c, ops).queue != [] ==> Run(c, ops).inflight >= 1 {
        NoRoomToQueue(c, ops);
      }
    } else {
      var ops := [Acquire(0)];
      assert ops[..0] == [];
      assert Run(c, ops).queue == [0] && Run(c, ops).inflight == 0;
    }
  }

  lemma {:induction false} NoRoomToQueue(c: Config, ops: seq<Op>)
    requires c.maxQueue <= 0
    ensures Run(c, ops).queue == []
  {
    if ops != [] {
      NoRoomToQueue(c, ops[..|ops| - 1]);
    }
  }

  /** And then nobody ever gets in. */
  lemma {:induction false} StuckForever(c: Config, ops: seq<Op>)
    requires c.initialLimit <= 0.0
    ensures Run(c, ops).granted == 0 && Run(c, ops).open == {} && Run(c, ops).limit == c.initialLimit &&
            Run(c, ops).inflight == 0
  {
    if ops != [] {
      StuckForever(c, ops[..|ops| - 1]);
    }
  }

  // ---------------------------------------------------------------- the queue

  /** The waiters put into the queue by a run, in order. */
  function Enqueued(c: Config, ops: seq<Op>): seq<nat> {
    if ops == [] then []
    else Enqueued(c, ops[..|ops| - 1]) + if Answer(c, ops) == Queued then [ops[|ops| - 1].waiter] else []
  }

  /** The waiters woken by a run, in order. */
  function Woken(c: Config, ops: seq<Op>): seq<nat> {
    if ops == [] then []
    else
      Woken(c, ops[..|ops| - 1]) +
      if Answer(c, ops).Released? && Answer(c, ops).woken.Some? then [Answer(c, ops).woken.value.0] else []
  }

  /** First in, first out: those woken so far and those still waiting are those who queued, in their order. */
  lemma {:induction false} QueueIsFifo(c: Config, ops: seq<Op>)
    ensures Woken(c, ops) + Run(c, ops).queue == Enqueued(c, ops)
  {
    if ops != [] {
      var front, op := ops[..|ops| - 1], ops[|ops| - 1];
      QueueIsFifo(c, front);
      FifoStep(c, Run(c, front), op, Woken(c, front), Enqueued(c, front));
    }
  }

  lemma FifoStep(c: Config, s: Flow, op: Op, woken: seq<nat>, enqueued: seq<nat>)
    requires woken + s.queue == enqueued
    ensures var (t, r) := Step(c, s, op);
            woken + (if r.Released? && r.woken.Some? then [r.woken.value.0] else []) + t.queue ==
            enqueued + if r == Queued then [op.waiter] else []
  {
    if op.Release? && op.permit in s.open && s.queue != [] {
      assert s.queue == [s.queue[0]] + s.queue[1..];
    }
  }

  /** The releases of held permits from operation `i` on. */
  function Releases(c: Config, ops: seq<Op>, i: nat): nat
    requires i <= |ops|
    decreases |ops|
  {
    if i == |ops| then 0
    else Releases(c, ops[..|ops| - 1], i) + if Answer(c, ops).Released? then 1 else 0
  }

  lemma {:induction false} ReleasesWake(c: Config, ops: seq<Op>, i: nat)
    requires i <= |ops|
    ensures Woken(c, ops[..i]) <= Woken(c, ops) && Enqueued(c, ops[..i]) <= Enqueued(c, ops)
    ensures Releases(c, ops, i) <= |Woken(c, ops)| - |Woken(c, ops[..i])| || |Enqueued(c, ops[..i])| <= |Woken(c, ops)|
    decreases |ops|
  {
    if i == |ops| {
      assert ops[..i] == ops;
    } else {
      var front := ops[..|ops| - 1];
      assert front[..i] == ops[..i];
      ReleasesWake(c, front, i);
      QueueIsFifo(c, front);
      assert |Woken(c, front)| + |Run(c, front).queue| == |Enqueued(c, front)|;
    }
  }

  /**
   The waiter with k others before it is woken by the (k + 1)-th release of a held permit from then on, if
   not by then.
   */
  lemma {:induction false} WaiterIsWoken(c: Config, ops: seq<Op>, i: nat, k: nat)
    requires i <= |ops| && k < |Run(c, ops[..i]).queue| && Releases(c, ops, i) > k
    ensures |Woken(c, ops)| > |Woken(c, ops[..i])| + k
    ensures Woken(c, ops)[|Woken(c, ops[..i])| + k] == Run(c, ops[..i]).queue[k]
  {
    LongEnough(c, ops, i, k);
    StillInLine(c, ops, i);
    var gone, waiting, goneLater, waitingLater :=
      Woken(c, ops[..i]), Run(c, ops[..i]).queue, Woken(c, ops), Run(c, ops).queue;
    SamePlace(gone, waiting, goneLater, waitingLater, k);
  }

  lemma {:induction false} StillInLine(c: Config, ops: seq<Op>, i: nat)
    requires i <= |ops|
    ensures Woken(c, ops[..i]) + Run(c, ops[..i]).queue <= Woken(c, ops) + Run(c, ops).queue
  {
    ReleasesWake(c, ops, i);
    QueueIsFifo(c, ops[..i]);
    QueueIsFifo(c, ops);
  }

  lemma {:induction false} LongEnough(c: Config, ops: seq<Op>, i: nat, k: nat)
    requires i <= |ops| && k < |Run(c, ops[..i]).queue| && Releases(c, ops, i) > k
    ensures |Woken(c, ops)| > |Woken(c, ops[..i])| + k
  {
    ReleasesWake(c, ops, i);
    QueueIsFifo(c, ops[..i]);
    assert |Woken(c, ops[..i])| + |Run(c, ops[..i]).queue| == |Enqueued(c, ops[..i])|;
  }

  lemma SamePlace<T>(gone: seq<T>, waiting: seq<T>, goneLater: seq<T>, waitingLater: seq<T>, k: nat)
    requires gone + waiting <= goneLater + waitingLater && k < |waiting| && |goneLater| > |gone| + k
    ensures goneLater[|gone| + k] == waiting[k]
  {
    assert (gone + waiting)[|gone| + k] == waiting[k];
    assert (goneLater + waitingLater)[|gone| + k] == goneLater[|gone| + k];
  }

  lemma Quarter()
    ensures NextLimit(Config(2.0, 4.0, 1.0, 0.0, 9, 0.0, 0.0), 3.0, 1.0, 4.0) == 1.0
  {
    assert 1.0 / 4.0 == 0.25;
    assert 3.0 * 0.25 == 0.75;
  }

  lemma {:induction false} RunSnoc(c: Config, ops: seq<Op>, op: Op)
    ensures Run(c, ops + [op]) == Step(c, Run(c, ops), op).0 && Answer(c, ops + [op]) == Step(c, Run(c, ops), op).1
  {
    assert (ops + [op])[..|ops|] == ops;
  }

  /** Three slots in use, a slow answer cuts the limit to one, and the waiter is let in all the same. */
  lemma WakeOverrunsExample()
    ensures exists ops: seq<Op> ::
              var c := Config(2.0, 4.0, 1.0, 0.0, 9, 0.0, 0.0);
              ops != [] && Answer(c, ops) == Released(Some((7, 4))) && Run(c, ops).limit == 1.0 &&
              Run(c, ops).inflight == 3
  {
    var c := Config(2.0, 4.0, 1.0, 0.0, 9, 0.0, 0.0);
    var a: seq<Op> := [];
    RunSnoc(c, a, TryAcquire);
    var b := a + [TryAcquire];
    RunSnoc(c, b, TryAcquire);
    var d := b + [TryAcquire];
    assert Run(c, d) == Flow(2.0, 2, [], 2, 0, None, 0.0, 0.0, {0, 1});
    RunSnoc(c, d, Release(0, 1.0, true));
    var e := d + [Release(0, 1.0, true)];
    assert Run(c, e) == Flow(3.0, 1, [], 2, 0, Some(1.0), 1.0, 0.0, {1});
    RunSnoc(c, e, TryAcquire);
    var f := e + [TryAcquire];
    RunSnoc(c, f, TryAcquire);
    var g := f + [TryAcquire];
    RunSnoc(c, g, Acquire(7));
    var h := g + [Acquire(7)];
    assert Run(c, h) == Flow(3.0, 3, [7], 4, 0, Some(1.0), 1.0, 0.0, {1, 2, 3});
    RunSnoc(c, h, Release(1, 4.0, true));
    Quarter();
    assert Answer(c, h + [Release(1, 4.0, true)]) == Released(Some((7, 4)));
  }

  // ---------------------------------------------------------------- the limit

  /**
   An answer at or below the latency floor so far, unless it took less than a nanosecond (latencies are in
   milliseconds).
   */
  predicate AtTheFloor(c: Config, floor: Option<real>, latency: real) {
    latency >= 0.000001 && (floor == None || latency <= floor.value || c.minRttAlpha == 1.0)
  }

  /** The floor after an answer against the answer itself. */
  function Gradient(c: Config, floor: Option<real>, latency: real): real {
    NextFloor(c, floor, latency) / Max(latency, 0.000001)
  }

  /** The limit grows exactly on such an answer. */
  lemma GrowsAtTheFloor(c: Config, floor: Option<real>, latency: real)
    requires 0.0 <= c.minRttAlpha <= 1.0
    ensures Gradient(c, floor, latency) >= 1.0 <==> AtTheFloor(c, floor, latency)
  {
    QuotientReachesOne(NextFloor(c, floor, latency), Max(latency, 0.000001));
    if floor.Some? && latency >= floor.value {
      BlendAtMost(c.minRttAlpha, latency, floor.value);
    }
  }

  lemma BlendAtMost(alpha: real, x: real, y: real)
    requires 0.0 <= alpha <= 1.0 && x >= y
    ensures Blend(alpha, x, y) <= x && (Blend(alpha, x, y) == x <==> alpha == 1.0 || x == y)
  {
    var rest, gap := 1.0 - alpha, x - y;
    BlendIsLess(alpha, x, y);
    Reals.MulNonNeg(rest, gap);
    if rest > 0.0 && gap > 0.0 {
      Reals.MulPos(rest, gap);
    } else if rest == 0.0 {
      assert rest * gap == 0.0;
    } else {
      assert rest * gap == 0.0;
    }
  }

  lemma BlendIsLess(alpha: real, x: real, y: real)
    ensures Blend(alpha, x, y) == x - (1.0 - alpha) * (x - y)
  {
  }

  lemma QuotientReachesOne(n: real, b: real)
    requires b > 0.0
    ensures n / b >= 1.0 <==> n >= b
  {
    assert b / b == 1.0;
    if n >= b {
      Reals.DivMonotone(b, n, b);
    } else {
      Reals.DivStrict(n, b, b);
    }
  }

  /** After the answer the slots still in use take up the whole new limit, told on the inputs. */
  predicate Full(c: Config, s: Flow, latency: real) {
    var left := (s.inflight - 1) as real;
    if AtTheFloor(c, s.minRtt, latency) then c.maxLimit <= left || s.limit + 1.0 <= left
    else c.minLimit <= left && (s.limit * Gradient(c, s.minRtt, latency)).Floor <= s.inflight - 1
  }

  /**
   A release lets the first waiter in without asking the limit: it does so where a call arriving at that
   moment is turned away, exactly when the limit after the answer is used up.
   */
  lemma WakeIgnoresLimit(c: Config, s: Flow, permit: nat, latency: real, ok: bool)
    requires Accounted(s) && permit in s.open && s.queue != [] && 0.0 <= c.minRttAlpha <= 1.0
    ensures Step(c, s, Release(permit, latency, ok)).1 == Released(Some((s.queue[0], s.granted)))
    ensures Step(c, Returned(c, s, permit, latency, ok), TryAcquire).1 == OverLimit <==> Full(c, s, latency)
  {
    assert |s.open| >= 1;
    GrowsAtTheFloor(c, s.minRtt, latency);
    RefusedWhenFull(c, s.limit, s.inflight - 1, Gradient(c, s.minRtt, latency));
  }

  lemma RefusedWhenFull(c: Config, limit: real, left: int, gradient: real)
    ensures left as real >= Scaled(c, limit, gradient) <==>
            if gradient >= 1.0 then c.maxLimit <= left as real || limit + 1.0 <= left as real
            else c.minLimit <= left as real && (limit * gradient).Floor <= left
  {
  }

  /** While the slots in use are within the limit and its bound, that takes an answer above the floor. */
  lemma OnlySlowAnswersOverrun(c: Config, s: Flow, latency: real)
    requires s.inflight as real <= s.limit <= c.maxLimit && Full(c, s, latency)
    ensures !AtTheFloor(c, s.minRtt, latency)
  {
  }

  // ---------------------------------------------------------------- the retry budget

  function Retries(c: Config, ops: seq<Op>): nat {
    if ops == [] then 0 else Retries(c, ops[..|ops| - 1]) + if Answer(c, ops) == Retry(true) then 1 else 0
  }

  /** Releases of held permits that reported success. */
  function Successes(c: Config, ops: seq<Op>): nat {
    if ops == [] then 0
    else Successes(c, ops[..|ops| - 1]) + if Answer(c, ops).Released? && ops[|ops| - 1].ok then 1 else 0
  }

  lemma TokenStep(c: Config, s: Flow, op: Op)
    requires !Refused(c) && s.retryTokens <= c.maxRetryTokens
    ensures var (t, a) := Step(c, s, op);
            t.retryTokens <= c.maxRetryTokens &&
            (if a == Retry(true) then 1.0 else 0.0) + t.retryTokens <=
            s.retryTokens + (if a.Released? && op.ok then c.retryRatio else 0.0)
    ensures var (t, a) := Step(c, s, op);
            (a == Retry(true) ==> s.retryTokens > 0.0) &&
            (t.retryTokens > -1.0 || s.retryTokens <= -1.0 || c.maxRetryTokens <= 0.0)
  {
  }

  /** What the successes paid in. */
  function Paid(c: Config, ops: seq<Op>): real {
    if ops == [] then 0.0
    else Paid(c, ops[..|ops| - 1]) + if Answer(c, ops).Released? && ops[|ops| - 1].ok then c.retryRatio else 0.0
  }

  function Times(n: nat, x: real): real {
    if n == 0 then 0.0 else Times(n - 1, x) + x
  }

  /** What `n` successes pay. */
  function Pay(c: Config, n: nat): real {
    c.retryRatio * n as real
  }

  lemma {:induction false} TimesIsPay(c: Config, n: nat)
    ensures Times(n, c.retryRatio) == Pay(c, n)
  {
    if n > 0 {
      TimesIsPay(c, n - 1);
      OneMoreTime(c.retryRatio, (n - 1) as real);
    }
  }

  lemma OneMoreTime(x: real, n: real)
    ensures x * (n + 1.0) == x * n + x
  {
  }

  lemma {:induction false} PaidPerSuccess(c: Config, ops: seq<Op>)
    ensures Paid(c, ops) == Times(Successes(c, ops), c.retryRatio)
  {
    if ops != [] {
      PaidPerSuccess(c, ops[..|ops| - 1]);
    }
  }

  lemma {:induction false} TokensStayCapped(c: Config, ops: seq<Op>)
    requires !Refused(c)
    ensures Run(c, ops).retryTokens <= c.maxRetryTokens
    ensures c.maxRetryTokens <= 0.0 ==> Retries(c, ops) == 0
    ensures c.maxRetryTokens > 0.0 ==> Run(c, ops).retryTokens > -1.0
  {
    if ops != [] {
      TokensStayCapped(c, ops[..|ops| - 1]);
      TokenStep(c, Run(c, ops[..|ops| - 1]), ops[|ops| - 1]);
    }
  }

  /** Tokens left and tokens burnt come from the seed and the successes. */
  lemma {:induction false} TokensAreCovered(c: Config, ops: seq<Op>)
    requires !Refused(c)
    ensures Retries(c, ops) as real + Run(c, ops).retryTokens <= Seed(c) + Paid(c, ops)
  {
    if ops != [] {
      var front := ops[..|ops| - 1];
      TokensAreCovered(c, front);
      TokensStayCapped(c, front);
      TokenStep(c, Run(c, front), ops[|ops| - 1]);
    }
  }

  lemma {:induction false} RetriesArePaid(c: Config, ops: seq<Op>)
    requires !Refused(c)
    ensures Retries(c, ops) == 0 || Retries(c, ops) as real < Seed(c) + Times(Successes(c, ops), c.retryRatio) + 1.0
  {
    TokensAreCovered(c, ops);
    TokensStayCapped(c, ops);
    PaidPerSuccess(c, ops);
  }

  /**
   Retries never outrun the traffic that pays for them: fewer than the seed, `retryRatio` a success, and one.
   The seed is ten successes' worth, or the cap when that is less.
   */
  lemma {:induction false} RetryBudget(c: Config, ops: seq<Op>)
    requires !Refused(c)
    ensures Retries(c, ops) == 0 ||
            (Retries(c, ops) as real < c.retryRatio * 10.0 + Pay(c, Successes(c, ops)) + 1.0 &&
             Retries(c, ops) as real < c.maxRetryTokens + Pay(c, Successes(c, ops)) + 1.0)
  {
    RetriesArePaid(c, ops);
    TimesIsPay(c, Successes(c, ops));
  }

  /** The state after `k` requests to retry with nothing in between. */
  function Retried(c: Config, s: Flow, k: nat): Flow {
    if k == 0 then s else Step(c, Retried(c, s, k - 1), ConsumeRetry).0
  }

  /** Of requests to retry in a row those are granted that the balance at the start exceeds in number. */
  lemma {:induction false} RetriesInARow(c: Config, s: Flow, k: nat)
    ensures Step(c, Retried(c, s, k), ConsumeRetry).1 == Retry(s.retryTokens > k as real)
    ensures Retried(c, s, k).(retryTokens := s.retryTokens) == s
  {
    RetriesSpend(c, s, k);
  }

  lemma {:induction false} RetriesSpend(c: Config, s: Flow, k: nat)
    ensures var t := Retried(c, s, k);
            (t.retryTokens == s.retryTokens - k as real || t.retryTokens <= 0.0) &&
            (s.retryTokens > k as real ==> t.retryTokens == s.retryTokens - k as real) &&
            (s.retryTokens <= k as real ==> t.retryTokens <= 0.0) &&
            t.(retryTokens := s.retryTokens) == s
  {
    if k > 0 {
      RetriesSpend(c, s, k - 1);
    }
  }

  // ---------------------------------------------------------------- the counters

  /** Permits handed out by a run, to callers and to those woken. */
  function Grants(c: Config, ops: seq<Op>): nat {
    if ops == [] then 0
    else
      var a := Answer(c, ops);
      Grants(c, ops[..|ops| - 1]) + if a.Granted? || (a.Released? && a.woken.Some?) then 1 else 0
  }

  /** Calls a run turned away, over the limit or past a full queue. */
  function Refusals(c: Config, ops: seq<Op>): nat {
    if ops == [] then 0
    else Refusals(c, ops[..|ops| - 1]) + if Answer(c, ops) in {OverLimit, QueueFull} then 1 else 0
  }

  /** The two counters count what was answered, and no permit is handed out twice. */
  lemma {:induction false} CountersCount(c: Config, ops: seq<Op>)
    ensures Run(c, ops).granted == Grants(c, ops) && Run(c, ops).shed == Refusals(c, ops)
    ensures ops != [] && Answer(c, ops).Granted? ==> Answer(c, ops).permit == Grants(c, ops) - 1
    ensures ops != [] && Answer(c, ops).Released? && Answer(c, ops).woken.Some? ==>
              Answer(c, ops).woken.value.1 == Grants(c, ops) - 1
  {
    if ops != [] {
      CountersCount(c, ops[..|ops| - 1]);
    }
  }
}
