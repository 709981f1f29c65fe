/** Fixed-window quotas per consumer: windows reset lazily on access, swept when over, capped in number. */
module ConsumerQuota {
  import opened Prelude
  import Ints

  /** An absent cap is no cap. */
  datatype Policy = Policy(limit: real, windowMs: int, unitSize: real, maxConsumers: Option<int>)

  predicate Sane(p: Policy) {
    p.limit > 0.0 && p.windowMs > 0 && p.unitSize > 0.0
  }

  datatype Window = Window(start: int, used: real)

  /** The remainder of a division that truncates toward zero. */
  function Remainder(a: int, b: int): int
    requires b > 0
  {
    if a >= 0 then a % b else -((-a) % b)
  }

  function WindowStart(now: int, windowMs: int): int
    requires windowMs > 0
  {
    now - Remainder(now, windowMs)
  }

  function Ceil(x: real): int {
    -((-x).Floor)
  }

  function Chargeable(p: Policy, raw: real): real
    requires p.unitSize > 0.0
  {
    var rounded := Ceil(raw / p.unitSize) as real * p.unitSize;
    if p.unitSize >= rounded then p.unitSize else rounded
  }

  function Units(p: Policy, raw: real): int
    requires p.unitSize > 0.0
  {
    if Ceil(raw / p.unitSize) >= 1 then Ceil(raw / p.unitSize) else 1
  }

  /** The charge is the least positive number of whole units that covers the cost. */
  lemma ChargesWholeUnits(p: Policy, raw: real)
    requires p.unitSize > 0.0
    ensures var k := Units(p, raw);
            k >= 1 && Chargeable(p, raw) == k as real * p.unitSize >= raw &&
            (k == 1 || (k - 1) as real * p.unitSize < raw)
  {
    var u, x, k := p.unitSize, raw / p.unitSize, Units(p, raw);
    assert x * u == raw && 1.0 * u == u;
    Scale(u, x, k as real);
    Scale(u, (k - 1) as real, x);
    if Ceil(x) <= 1 {
      Scale(u, Ceil(x) as real, 1.0);
    } else {
      Scale(u, 1.0, Ceil(x) as real);
      assert (k - 1) as real < x;
      assert Chargeable(p, raw) == Ceil(x) as real * u;
      assert (k - 1) as real * u < raw;
    }
  }

  lemma Scale(u: real, a: real, b: real)
    requires u > 0.0
    ensures (a <= b ==> a * u <= b * u) && (a < b ==> a * u < b * u)
  {
    assert b * u - a * u == (b - a) * u;
  }

  function Swept<K(==)>(p: Policy, ws: map<K, Window>, now: int): map<K, Window> {
    map k | k in ws && ws[k].start + p.windowMs > now :: ws[k]
  }

  /** The consumer's current window, made or reset as needed; None when there is no room for another consumer. */
  function Opened<K(==)>(p: Policy, ws: map<K, Window>, k: K, now: int): (map<K, Window>, Option<Window>)
    requires Sane(p)
  {
    var start := WindowStart(now, p.windowMs);
    if k in ws then
      var w := if ws[k].start != start then Window(start, 0.0) else ws[k];
      (ws[k := w], Some(w))
    else if p.maxConsumers.Some? && |ws| >= p.maxConsumers.value then
      var left := Swept(p, ws, now);
      if |left| >= p.maxConsumers.value then (left, None) else (left[k := Window(start, 0.0)], Some(Window(start, 0.0)))
    else (ws[k := Window(start, 0.0)], Some(Window(start, 0.0)))
  }

  /** A denial says how long to wait. */
  datatype Check = Capped | Check(allowed: bool, used: real, remaining: real, resetAt: int, wait: Option<int>)

  function Charged<K(==)>(p: Policy, ws: map<K, Window>, k: K, raw: real, now: int): (map<K, Window>, Check)
    requires Sane(p)
  {
    var (opened', w) := Opened(p, ws, k, now);
    if w == None then (opened', Capped)
    else
      var cost, used, resetAt := Chargeable(p, raw), w.value.used, w.value.start + p.windowMs;
      if used + cost > p.limit then
        (opened', Check(false, used, if p.limit - used > 0.0 then p.limit - used
        else 0.0, resetAt, Some(resetAt - now)))
      else (opened'[k := Window(w.value.start, used + cost)],
        Check(true, used + cost, p.limit - (used + cost), resetAt, None))
  }

  class ConsumerQuotaTracker<K(==, !new)> {
    const policy: Policy
    var windows: map<K, Window>

    /** The caller has been refused limits and windows that are not positive, and given unit 1 for none. */
    constructor (policy: Policy)
      requires Sane(policy)
      ensures this.policy == policy && windows == map[]
    {
      this.policy, windows := policy, map[];
    }

    method Sweep(now: int) returns (removed: nat)
      requires Sane(policy)
      modifies this
      ensures windows == Swept(policy, old(windows), now) && removed == |old(windows)| - |windows|
      ensures forall id :: id in windows <==> id in old(windows) && now < old(windows)[id].start + policy.windowMs
      ensures forall id :: id in windows ==> windows[id] == old(windows)[id]
    {
      var was, left := windows, windows.Keys;
      removed := 0;
      while left != {}
        invariant left <= was.Keys && removed + |windows| == |was|
        invariant windows.Keys == set k | k in was && (k in left || was[k].start + policy.windowMs > now)
        invariant forall k :: k in windows ==> windows[k] == was[k]
        decreases left
      {
        var id :| id in left;
        left := left - {id};
        if was[id].start + policy.windowMs <= now {
          assert (windows - {id}).Keys == windows.Keys - {id};
          windows := windows - {id};
          removed := removed + 1;
        }
      }
    }

    method StateFor(k: K, now: int) returns (w: Option<Window>)
      requires Sane(policy)
      modifies this
      ensures (windows, w) == Opened(policy, old(windows), k, now)
    {
      var start := WindowStart(now, policy.windowMs);
      if k !in windows {
        if policy.maxConsumers.Some? && |windows| >= policy.maxConsumers.value {
          var _ := Sweep(now);
          if |windows| >= policy.maxConsumers.value {
            return None;
          }
        }
        windows := windows[k := Window(start, 0.0)];
      } else if windows[k].start != start {
        windows := windows[k := Window(start, 0.0)];
      } else {
        assert windows[k := windows[k]] == windows;
      }
      return Some(windows[k]);
    }

    method Charge(k: K, raw: real, now: int) returns (c: Check)
      requires Sane(policy)
      modifies this
      ensures (windows, c) == Charged(policy, old(windows), k, raw, now)
    {
      var w := StateFor(k, now);
      if w == None {
        return Capped;
      }
      var cost := Chargeable(policy, raw);
      var resetAt := w.value.start + policy.windowMs;
      var used := w.value.used;
      if used + cost > policy.limit {
        var left := if policy.limit - used > 0.0 then policy.limit - used else 0.0;
        return Check(false, used, left, resetAt, Some(resetAt - now));
      }
      windows := windows[k := Window(w.value.start, used + cost)];
      return Check(true, used + cost, policy.limit - (used + cost), resetAt, None);
    }
  }

  // ---------------------------------------------------------------- whole runs

  /** `Look` is a preview or a usage query: it opens the window and spends nothing. */
  datatype Op<K> = Charge(k: K, raw: real, now: int) | Look(k: K, now: int) | Sweep(now: int)

  function After<K(==)>(p: Policy, ws: map<K, Window>, op: Op<K>): map<K, Window>
    requires Sane(p)
  {
    match op
    case Charge(k, raw, now) => Charged(p, ws, k, raw, now).0
    case Look(k, now) => Opened(p, ws, k, now).0
    case Sweep(now) => Swept(p, ws, now)
  }

  function Run<K(==)>(p: Policy, ops: seq<Op<K>>): map<K, Window>
    requires Sane(p)
  {
    if ops == [] then map[] else After(p, Run(p, ops[..|ops| - 1]), ops[|ops| - 1])
  }

  /** What the consumer was granted in the window that starts at `start`. */
  function Granted<K(==)>(p: Policy, ops: seq<Op<K>>, k: K, start: int): real
    requires Sane(p)
  {
    if ops == [] then 0.0
    else
      var op, front := ops[|ops| - 1], ops[..|ops| - 1];
      Granted(p, front, k, start) +
      if op.Charge? && op.k == k && WindowStart(op.now, p.windowMs) == start && Allowed(p, Run(p, front), op)
      then Chargeable(p, op.raw) else 0.0
  }

  predicate Allowed<K(==)>(p: Policy, ws: map<K, Window>, op: Op<K>)
    requires Sane(p) && op.Charge?
  {
    var c := Charged(p, ws, op.k, op.raw, op.now).1;
    c.Check? && c.allowed
  }

  predicate InTime<K>(ops: seq<Op<K>>) {
    forall i, j :: 0 <= i < j < |ops| ==> ops[i].now <= ops[j].now
  }

  lemma StartFacts(a: int, b: int, w: int)
    requires w > 0 && a <= b
    ensures WindowStart(a, w) <= WindowStart(b, w) && WindowStart(b, w) + w > b
  {
    if a >= 0 {
      Ints.DivMod(a, w);
      Ints.DivMod(b, w);
      var m := a / w - b / w;
      assert (a / w - b / w) * w == a / w * w - b / w * w;
      Ints.MulLess(m, 1, w);
      Ints.MulMonotone(m, 0, w);
    } else if b >= 0 {
      Ints.DivMod(-a, w);
      Ints.DivMod(b, w);
      Ints.DivMod(-a, w);
      Ints.MulLess(-1, (-a) / w, w);
      Ints.MulLess(-1, b / w, w);
      Ints.MulMonotone(0, (-a) / w, w);
      Ints.MulMonotone(0, b / w, w);
    } else {
      Ints.DivMod(-a, w);
      Ints.DivMod(-b, w);
      var m := (-b) / w - (-a) / w;
      assert ((-b) / w - (-a) / w) * w == (-b) / w * w - (-a) / w * w;
      Ints.MulLess(m, 1, w);
      Ints.MulMonotone(m, 0, w);
    }
  }

  /** The times of one window: a whole width from its start on, but up to its start only before time zero. */
  lemma WindowLasts(a: int, b: int, w: int)
    requires w > 0 && a <= b
    ensures var start := WindowStart(a, w);
            WindowStart(b, w) == start <==> b < start + if start >= 0 then w else 1
  {
    var m := StartAt(a, w);
    var n := StartAt(b, w);
    SameMultiple(m, n, w);
    SameMultiple(0, m, w);
    LastsFrom(a, b, w, m, n, m * w, n * w);
  }

  lemma StartAt(x: int, w: int) returns (m: int)
    requires w > 0
    ensures WindowStart(x, w) == m * w
    ensures if x >= 0 then m >= 0 && m * w <= x < m * w + w else m <= 0 && m * w - w < x <= m * w
  {
    if x >= 0 {
      m := x / w;
      Ints.DivMod(x, w);
      if m < 0 {
        Ints.MulMonotone(m, -1, w);
      }
    } else {
      m := -((-x) / w);
      Ints.DivMod(-x, w);
      if m > 0 {
        Ints.MulMonotone(-m, -1, w);
      }
      Negated((-x) / w, w);
    }
  }

  lemma Negated(m: int, w: int)
    ensures -m * w == -(m * w)
  {
  }

  /** `WindowLasts` with the products named. */
  lemma LastsFrom(a: int, b: int, w: int, m: int, n: int, s: int, u: int)
    requires w > 0 && a <= b
    requires if a >= 0 then m >= 0 && s <= a < s + w else m <= 0 && s - w < a <= s
    requires if b >= 0 then n >= 0 && u <= b < u + w else n <= 0 && u - w < b <= u
    requires (m < n ==> s + w <= u) && (m > n ==> u + w <= s) && (m == n ==> s == u)
    requires (0 < m ==> w <= s) && (0 > m ==> s + w <= 0) && (m == 0 ==> s == 0)
    ensures u == s <==> b < s + if s >= 0 then w else 1
  {
  }

  lemma SameMultiple(m: int, n: int, w: int)
    requires w > 0
    ensures (m < n ==> m * w + w <= n * w) && (m > n ==> n * w + w <= m * w) && 0 * w == 0
  {
    if m < n {
      Ints.MulMonotone(m + 1, n, w);
    } else if m > n {
      Ints.MulMonotone(n + 1, m, w);
    }
  }

  /**
   The wait of a denial is exact from time zero on: the same charge, with no other in between, is granted
   exactly when that time has run and the charge is within the limit at all.  In a window that starts before
   time zero the wait is too long.
   */
  lemma WaitIsExact<K>(p: Policy, ws: map<K, Window>, k: K, raw: real, now: int, t: int)
    requires Sane(p) && now <= t
    requires var c := Charged(p, ws, k, raw, now).1; c.Check? && !c.allowed
    ensures var (after, c) := Charged(p, ws, k, raw, now);
            var start := WindowStart(now, p.windowMs);
            now + c.wait.value == start + p.windowMs &&
            (Allowed(p, after, Charge(k, raw, t)) <==>
             Chargeable(p, raw) <= p.limit && t >= start + if start >= 0 then p.windowMs else 1)
  {
    WindowLasts(now, t, p.windowMs);
    var (opened', w) := Opened(p, ws, k, now);
    assert opened'[k] == w.value && w.value.start == WindowStart(now, p.windowMs);
  }

  // ---------------------------------------------------------------- the cap on consumers

  /** The consumers whose window is not over. */
  function Live<K(==)>(p: Policy, ws: map<K, Window>, now: int): set<K> {
    set k | k in ws && now < ws[k].start + p.windowMs
  }

  /** There is a cap, and the consumers tracked have reached it. */
  predicate AtCap<K(==)>(p: Policy, ws: map<K, Window>) {
    p.maxConsumers.Some? && |ws| >= p.maxConsumers.value
  }

  /** A call is turned away for the cap exactly when the consumer is new and the live windows alone reach it. */
  lemma CappedExactly<K>(p: Policy, ws: map<K, Window>, k: K, raw: real, now: int)
    requires Sane(p)
    ensures Charged(p, ws, k, raw, now).1 == Capped <==>
            k !in ws && p.maxConsumers.Some? && |Live(p, ws, now)| >= p.maxConsumers.value
  {
    var left := Swept(p, ws, now);
    assert left.Keys == Live(p, ws, now);
    SubsetIsSmaller(left.Keys, ws.Keys);
  }

  lemma SubsetIsSmaller<T>(a: set<T>, b: set<T>)
    requires a <= b
    ensures |a| <= |b|
  {
    assert |b| == |a| + |b - a| by {
      assert b == a + (b - a);
    }
  }

  /**
   The windows of the other consumers: all stay as they are, unless a new consumer comes at the cap; then
   those that are over go.
   */
  lemma OthersStay<K>(p: Policy, ws: map<K, Window>, k: K, raw: real, now: int, other: K)
    requires Sane(p) && other != k
    ensures var after := Charged(p, ws, k, raw, now).0;
            (other in after <==> other in ws && (k in ws || !AtCap(p, ws) || other in Live(p, ws, now))) &&
            (other in after ==> after[other] == ws[other])
  {
  }

  /** No run tracks more consumers than the cap. */
  lemma {:induction false} CapHolds<K>(p: Policy, ops: seq<Op<K>>)
    requires Sane(p) && p.maxConsumers.Some?
    ensures |Run(p, ops)| <= p.maxConsumers.value || |Run(p, ops)| == 0
  {
    if ops != [] {
      var ws, op := Run(p, ops[..|ops| - 1]), ops[|ops| - 1];
      CapHolds(p, ops[..|ops| - 1]);
      match op
      case Charge(k, raw, now) => ChargeFits(p, ws, k, raw, now);
      case Look(k, now) => OpeningFits(p, ws, k, now);
      case Sweep(now) => SubsetIsSmaller(Swept(p, ws, now).Keys, ws.Keys);
    }
  }

  lemma ChargeFits<K>(p: Policy, ws: map<K, Window>, k: K, raw: real, now: int)
    requires Sane(p) && p.maxConsumers.Some? && (|ws| <= p.maxConsumers.value || |ws| == 0)
    ensures var after := Charged(p, ws, k, raw, now).0; |after| <= p.maxConsumers.value || |after| == 0
  {
    OpeningFits(p, ws, k, now);
    var (after, w) := Opened(p, ws, k, now);
    if w.Some? {
      Overwrite(after, k, Window(w.value.start, w.value.used + Chargeable(p, raw)));
    }
  }

  lemma OpeningFits<K>(p: Policy, ws: map<K, Window>, k: K, now: int)
    requires Sane(p) && p.maxConsumers.Some? && (|ws| <= p.maxConsumers.value || |ws| == 0)
    ensures var (after, w) := Opened(p, ws, k, now);
            (|after| <= p.maxConsumers.value || |after| == 0) && (w.Some? ==> k in after)
  {
    if k in ws {
      Overwrite(ws, k, Opened(p, ws, k, now).1.value);
    } else {
      SubsetIsSmaller(Swept(p, ws, now).Keys, ws.Keys);
    }
  }

  lemma Overwrite<K>(ws: map<K, Window>, k: K, w: Window)
    requires k in ws
    ensures |ws[k := w]| == |ws|
  {
    assert ws[k := w].Keys == ws.Keys;
  }

  // ---------------------------------------------------------------- what a check says

  /**
   A check tells the truth: what it calls used is what the consumer was granted in the present window, this
   call included; used and remaining make up the limit; and a further charge then and there is granted
   exactly when it fits into what it calls remaining.
   */
  lemma {:induction false} CheckTells<K>(p: Policy, ops: seq<Op<K>>, op: Op<K>, next: real)
    requires Sane(p) && op.Charge? && InTime(ops + [op])
    ensures var c := Charged(p, Run(p, ops), op.k, op.raw, op.now).1;
            var start := WindowStart(op.now, p.windowMs);
            c.Check? ==>
              c.used == Granted(p, ops + [op], op.k, start) && c.used + c.remaining == p.limit &&
              c.resetAt == start + p.windowMs && (c.wait.Some? <==> !c.allowed) &&
              (Allowed(p, Run(p, ops + [op]), Charge(op.k, next, op.now)) <==> Chargeable(p, next) <= c.remaining)
  {
    assert (ops + [op])[..|ops|] == ops;
    BooksAreKept(p, ops + [op], op.k, op.now);
    CheckSays(p, Run(p, ops), op.k, op.raw, op.now);
    FitsNext(p, Run(p, ops), op.k, op.raw, op.now, next);
  }

  lemma CheckSays<K>(p: Policy, ws: map<K, Window>, k: K, raw: real, now: int)
    requires Sane(p)
    ensures var (after, c) := Charged(p, ws, k, raw, now);
            var start := WindowStart(now, p.windowMs);
            c.Check? ==>
              k in after && after[k] == Window(start, c.used) && c.resetAt == start + p.windowMs &&
              (c.wait.Some? <==> !c.allowed) && c.remaining == if c.used < p.limit then p.limit - c.used else 0.0
  {
  }

  lemma ChargeIsPositive(p: Policy, raw: real)
    requires p.unitSize > 0.0
    ensures Chargeable(p, raw) > 0.0
  {
    ChargesWholeUnits(p, raw);
    Scale(p.unitSize, 1.0, Units(p, raw) as real);
  }

  lemma FitsNext<K>(p: Policy, ws: map<K, Window>, k: K, raw: real, now: int, next: real)
    requires Sane(p)
    ensures var (after, c) := Charged(p, ws, k, raw, now);
            c.Check? ==> (Allowed(p, after, Charge(k, next, now)) <==> Chargeable(p, next) <= c.remaining)
  {
    CheckSays(p, ws, k, raw, now);
    ChargeIsPositive(p, next);
  }

  // ---------------------------------------------------------------- the spend of a window

  /** The tracked window holds exactly what was granted in it; nothing was granted in any later one. */
  ghost predicate Books<K>(p: Policy, ops: seq<Op<K>>, k: K, now: int)
    requires Sane(p)
  {
    var ws := Run(p, ops);
    (forall s :: Granted(p, ops, k, s) <= p.limit) &&
    if k in ws then
      ws[k].start <= WindowStart(now, p.windowMs) && ws[k].used == Granted(p, ops, k, ws[k].start) &&
      forall s :: s > ws[k].start ==> Granted(p, ops, k, s) == 0.0
    else forall s :: s + p.windowMs > now ==> Granted(p, ops, k, s) == 0.0
  }

  lemma {:induction false} BooksAreKept<K>(p: Policy, ops: seq<Op<K>>, k: K, now: int)
    requires Sane(p) && InTime(ops) && (ops != [] ==> ops[|ops| - 1].now <= now)
    ensures Books(p, ops, k, now)
  {
    if ops != [] {
      var front, op := ops[..|ops| - 1], ops[|ops| - 1];
      BooksAreKept(p, front, k, op.now);
      assert front + [op] == ops;
      if op.Charge? && op.k == k {
        ChargeKept(p, front, op, now);
      } else {
        OthersKept(p, front, op, k, now);
      }
    }
  }

  lemma OthersKept<K>(p: Policy, front: seq<Op<K>>, op: Op<K>, k: K, now: int)
    requires Sane(p) && Books(p, front, k, op.now) && op.now <= now && !(op.Charge? && op.k == k)
    ensures Books(p, front + [op], k, now)
  {
    StartFacts(op.now, now, p.windowMs);
    StartFacts(op.now, op.now, p.windowMs);
    var ops := front + [op];
    assert ops[..|front|] == front;
    assert forall s :: Granted(p, ops, k, s) == Granted(p, front, k, s);
  }

  lemma ChargeKept<K>(p: Policy, front: seq<Op<K>>, op: Op<K>, now: int)
    requires Sane(p) && op.Charge? && Books(p, front, op.k, op.now) && op.now <= now
    ensures Books(p, front + [op], op.k, now)
  {
    StartFacts(op.now, now, p.windowMs);
    StartFacts(op.now, op.now, p.windowMs);
    var ops := front + [op];
    assert ops[..|front|] == front;
    var start := WindowStart(op.now, p.windowMs);
    forall s ensures Granted(p, ops, op.k, s) ==
                     Granted(p, front, op.k, s) +
                     if s == start && Allowed(p, Run(p, front), op) then Chargeable(p, op.raw) else 0.0
    {
    }
  }

  /** In no window is a consumer granted more than the limit, however sweeps, previews and the calls of others fall. */
  lemma {:induction false} SpendWithinLimit<K>(p: Policy, ops: seq<Op<K>>, k: K, start: int)
    requires Sane(p) && InTime(ops)
    ensures Granted(p, ops, k, start) <= p.limit
  {
    BooksAreKept(p, ops, k, if ops == [] then 0 else ops[|ops| - 1].now);
  }
}
