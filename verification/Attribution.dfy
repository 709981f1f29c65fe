/**
 Multi-touch attribution: journeys kept in time order, eligible touches found by binary search, credit
 shared out by weight and collected per channel.  The weight of a touch of a given age under time decay
 is an input; it is only required to be positive.
 */
module Attribution {
  import opened StableSort
  import Reals

  /** A touch is a channel with its time. */
  type Touches<C> = seq<Stamped<C>>

  datatype Conversion = Conversion(timestamp: int, value: real)
  datatype Model = FirstTouch | LastTouch | Linear | TimeDecay | PositionBased
  datatype Journey<C> = Journey(touches: Touches<C>, conversions: seq<Conversion>)

  // ---------------------------------------------------------------- eligible touches

  predicate Within(t: int, lookbackMs: int, conversionTs: int) {
    (lookbackMs > 0 ==> conversionTs - lookbackMs <= t) && t < conversionTs
  }

  /** The touches in the window before the conversion, by a scan. */
  function Eligible<C>(touches: Touches<C>, lookbackMs: int, conversionTs: int): Touches<C> {
    if touches == [] then []
    else
      var last := touches[|touches| - 1];
      Eligible(touches[..|touches| - 1], lookbackMs, conversionTs) +
      if Within(last.ts, lookbackMs, conversionTs) then [last] else []
  }

  /** The first position whose touch is not before `t`. */
  method LowerBound<C>(touches: Touches<C>, t: int) returns (lo: nat)
    requires Sorted(touches)
    ensures lo <= |touches|
    ensures forall i :: 0 <= i < lo ==> touches[i].ts < t
    ensures forall i :: lo <= i < |touches| ==> touches[i].ts >= t
  {
    lo := 0;
    var hi := |touches|;
    while lo < hi
      invariant lo <= hi <= |touches|
      invariant forall i :: 0 <= i < lo ==> touches[i].ts < t
      invariant forall i :: hi <= i < |touches| ==> touches[i].ts >= t
    {
      var mid := (lo + hi) / 2;
      if touches[mid].ts < t {
        lo := mid + 1;
      } else {
        hi := mid;
      }
    }
  }

  lemma BoundsInOrder<C>(touches: Touches<C>, lo: nat, hi: nat, t: int)
    requires Sorted(touches) && lo <= |touches| && hi <= |touches|
    requires (lo > 0 ==> touches[lo - 1].ts < t) && (hi < |touches| ==> touches[hi].ts >= t)
    ensures lo <= hi
  {
  }

  lemma {:induction false} SliceIsScan<C>(touches: Touches<C>, lo: nat, hi: nat, lookbackMs: int, conversionTs: int)
    requires lo <= hi <= |touches|
    requires forall i :: 0 <= i < |touches| ==> (lo <= i < hi <==> Within(touches[i].ts, lookbackMs, conversionTs))
    ensures touches[lo..hi] == Eligible(touches, lookbackMs, conversionTs)
  {
    if touches != [] {
      var n := |touches| - 1;
      var front := touches[..n];
      assert Within(touches[n].ts, lookbackMs, conversionTs) <==> lo <= n < hi;
      if lo <= n < hi {
        SliceIsScan(front, lo, n, lookbackMs, conversionTs);
        assert touches[lo..hi] == front[lo..n] + [touches[n]];
      } else if hi <= n {
        SliceIsScan(front, lo, hi, lookbackMs, conversionTs);
        assert touches[lo..hi] == front[lo..hi];
      } else {
        SliceIsScan(front, n, n, lookbackMs, conversionTs);
        assert touches[lo..hi] == [] && front[n..n] == [];
      }
    }
  }

  // ---------------------------------------------------------------- weights

  function Age(conversionTs: int, ts: int): int {
    if conversionTs - ts >= 0 then conversionTs - ts else 0
  }

  /** The raw weight of touch `i` among `n`. */
  function Weight<C>(model: Model, touches: Touches<C>, i: nat, conversionTs: int, decay: int -> real): real
    requires i < |touches|
  {
    var n := |touches|;
    match model
    case FirstTouch => if i == 0 then 1.0 else 0.0
    case LastTouch => if i == n - 1 then 1.0 else 0.0
    case Linear => 1.0
    case TimeDecay => decay(Age(conversionTs, touches[i].ts))
    case PositionBased =>
      if n == 1 then 1.0
      else if n == 2 then 0.5
      else if i == 0 || i == n - 1 then 0.4
      else 0.2 / (n - 2) as real
  }

  function Weights<C>(model: Model, touches: Touches<C>, conversionTs: int, decay: int -> real): (r: seq<real>)
    ensures |r| == |touches|
  {
    seq(|touches|, i requires 0 <= i < |touches| => Weight(model, touches, i, conversionTs, decay))
  }

  function Total(w: seq<real>): real {
    if w == [] then 0.0 else Total(w[..|w| - 1]) + w[|w| - 1]
  }

  method FillWeights<C>(model: Model, touches: Touches<C>, conversionTs: int, decay: int -> real) returns (r: seq<real>)
    ensures r == Weights(model, touches, conversionTs, decay)
  {
    var n := |touches|;
    var w := new real[n](i => 0.0);
    if n == 0 {
      return [];
    }
    match model {
      case FirstTouch => w[0] := 1.0;
      case LastTouch => w[n - 1] := 1.0;
      case Linear =>
        var i := 0;
        while i < n
          invariant 0 <= i <= n && forall j :: 0 <= j < i ==> w[j] == 1.0
        {
          w[i] := 1.0;
          i := i + 1;
        }
      case TimeDecay =>
        var i := 0;
        while i < n
          invariant 0 <= i <= n && forall j :: 0 <= j < i ==> w[j] == decay(Age(conversionTs, touches[j].ts))
        {
          w[i] := decay(Age(conversionTs, touches[i].ts));
          i := i + 1;
        }
      case PositionBased =>
        if n == 1 {
          w[0] := 1.0;
        } else if n == 2 {
          w[0] := 0.5;
          w[1] := 0.5;
        } else {
          w[0] := 0.4;
          w[n - 1] := 0.4;
          var middle := 0.2 / (n - 2) as real;
          var i := 1;
          while i < n - 1
            invariant 1 <= i <= n - 1 && w[0] == 0.4 && w[n - 1] == 0.4
            invariant forall j :: 1 <= j < i ==> w[j] == middle
          {
            w[i] := middle;
            i := i + 1;
          }
        }
    }
    r := w[..];
    assert r == Weights(model, touches, conversionTs, decay);
  }

  ghost predicate Positive(decay: int -> real) {
    forall age: int :: decay(age) > 0.0
  }

  lemma {:induction false} TotalNonNegative(w: seq<real>, k: nat)
    requires forall i :: 0 <= i < |w| ==> w[i] >= 0.0
    ensures Total(w) >= 0.0 && (k < |w| ==> Total(w) >= w[k])
  {
    if w != [] {
      TotalNonNegative(w[..|w| - 1], k);
    }
  }

  /** There is always some weight to share by. */
  lemma WeightsArePositive<C>(model: Model, touches: Touches<C>, conversionTs: int, decay: int -> real)
    requires touches != [] && Positive(decay)
    ensures Total(Weights(model, touches, conversionTs, decay)) > 0.0
  {
    var w := Weights(model, touches, conversionTs, decay);
    forall i | 0 <= i < |w| ensures w[i] >= 0.0 {
      assert w[i] == Weight(model, touches, i, conversionTs, decay);
    }
    var k := if model == LastTouch then |w| - 1 else 0;
    TotalNonNegative(w, k);
    assert w[k] == Weight(model, touches, k, conversionTs, decay);
  }

  // ---------------------------------------------------------------- the tally

  datatype Share = Share(credit: real, value: real)

  const NOTHING := Share(0.0, 0.0)

  function Plus(a: Share, b: Share): Share {
    Share(a.credit + b.credit, a.value + b.value)
  }

  function Get<K(==)>(m: map<K, Share>, k: K): Share {
    if k in m then m[k] else NOTHING
  }

  function Bump<K(==)>(m: map<K, Share>, k: K, s: Share): map<K, Share> {
    m[k := Plus(Get(m, k), s)]
  }

  /** What all keys together have. */
  ghost function Sum<K>(m: map<K, Share>): Share
    decreases |m|
  {
    if m == map[] then NOTHING
    else
      var k :| k in m;
      RemoveOne(m, k);
      Plus(m[k], Sum(m - {k}))
  }

  lemma RemoveOne<K>(m: map<K, Share>, k: K)
    requires k in m
    ensures |m - {k}| == |m| - 1
  {
    assert (m - {k}).Keys == m.Keys - {k};
  }

  lemma {:induction false} SumWithout<K>(m: map<K, Share>, k: K)
    requires k in m
    ensures Sum(m) == Plus(m[k], Sum(m - {k}))
    decreases |m|
  {
    var j :| j in m && Sum(m) == Plus(m[j], Sum(m - {j}));
    if j != k {
      var rest := m - {j} - {k};
      RemoveOne(m, j);
      RemoveOne(m, k);
      SumWithout(m - {j}, k);
      SumWithout(m - {k}, j);
      assert m - {k} - {j} == rest;
      PlusSwaps(m[j], m[k], Sum(rest));
    }
  }

  lemma PlusSwaps(a: Share, b: Share, c: Share)
    ensures Plus(a, Plus(b, c)) == Plus(b, Plus(a, c))
  {
  }

  lemma {:induction false} SumBumped<K>(m: map<K, Share>, k: K, s: Share)
    ensures Sum(Bump(m, k, s)) == Plus(Sum(m), s)
  {
    var after := Bump(m, k, s);
    SumWithout(after, k);
    assert after - {k} == m - {k};
    if k in m {
      SumWithout(m, k);
    } else {
      assert m - {k} == m;
    }
  }

  /** What one touch earns for its channel. */
  datatype Part<C> = Part(channel: C, share: Share)

  function ShareOf(weight: real, total: real, value: real): Share
    requires total != 0.0
  {
    var credit := weight / total;
    Share(credit, credit * value)
  }

  function Parts<C>(touches: Touches<C>, w: seq<real>, value: real): (r: seq<Part<C>>)
    requires |touches| == |w| && Total(w) != 0.0
    ensures |r| == |w|
  {
    seq(|w|, i requires 0 <= i < |w| => Part(touches[i].item, ShareOf(w[i], Total(w), value)))
  }

  function Paid<C(==)>(acc: map<C, Share>, parts: seq<Part<C>>): map<C, Share> {
    if parts == [] then acc
    else Bump(Paid(acc, parts[..|parts| - 1]), parts[|parts| - 1].channel, parts[|parts| - 1].share)
  }

  /** The parts of one channel. */
  function Earned<C(==)>(parts: seq<Part<C>>, channel: C): Share {
    if parts == [] then NOTHING
    else
      var last := parts[|parts| - 1];
      Plus(Earned(parts[..|parts| - 1], channel), if last.channel == channel then last.share else NOTHING)
  }

  function AllParts<C>(parts: seq<Part<C>>): Share {
    if parts == [] then NOTHING else Plus(AllParts(parts[..|parts| - 1]), parts[|parts| - 1].share)
  }

  lemma {:induction false} PaidEarns<C>(acc: map<C, Share>, parts: seq<Part<C>>, channel: C)
    ensures Get(Paid(acc, parts), channel) == Plus(Get(acc, channel), Earned(parts, channel))
  {
    if parts != [] {
      PaidEarns(acc, parts[..|parts| - 1], channel);
    }
  }

  lemma {:induction false} PaidSum<C>(acc: map<C, Share>, parts: seq<Part<C>>)
    ensures Sum(Paid(acc, parts)) == Plus(Sum(acc), AllParts(parts))
  {
    if parts != [] {
      PaidSum(acc, parts[..|parts| - 1]);
      SumBumped(Paid(acc, parts[..|parts| - 1]), parts[|parts| - 1].channel, parts[|parts| - 1].share);
    }
  }

  lemma {:induction false} PartsUpTo<C>(touches: Touches<C>, w: seq<real>, value: real, n: nat)
    requires |touches| == |w| && Total(w) != 0.0 && n <= |w|
    ensures AllParts(Parts(touches, w, value)[..n]) == ShareOf(Total(w[..n]), Total(w), value)
  {
    var parts := Parts(touches, w, value);
    if n == 0 {
      NoShare(Total(w), value);
    } else {
      PartsUpTo(touches, w, value, n - 1);
      assert parts[..n][..n - 1] == parts[..n - 1] && w[..n][..n - 1] == w[..n - 1];
      SharesAdd(Total(w[..n - 1]), w[n - 1], Total(w), value);
    }
  }

  lemma NoShare(total: real, value: real)
    requires total != 0.0
    ensures ShareOf(0.0, total, value) == NOTHING
  {
    assert 0.0 / total == 0.0;
  }

  lemma SharesAdd(a: real, b: real, total: real, value: real)
    requires total != 0.0
    ensures ShareOf(a + b, total, value) == Plus(ShareOf(a, total, value), ShareOf(b, total, value))
  {
    Reals.DivMul(a, total);
    Reals.DivMul(b, total);
    assert (a / total + b / total) * total == a + b;
    Reals.MulDiv(a / total + b / total, total);
    assert (a / total + b / total) * value == a / total * value + b / total * value;
  }

  /** The parts of a conversion make up one credit and its value. */
  lemma {:induction false} PartsMakeOne<C>(touches: Touches<C>, w: seq<real>, value: real)
    requires |touches| == |w| && Total(w) != 0.0
    ensures AllParts(Parts(touches, w, value)) == Share(1.0, value)
  {
    var parts := Parts(touches, w, value);
    PartsUpTo(touches, w, value, |w|);
    assert parts[..|w|] == parts && w[..|w|] == w;
    WholeShare(Total(w), value);
  }

  lemma WholeShare(total: real, value: real)
    requires total != 0.0
    ensures ShareOf(total, total, value) == Share(1.0, value)
  {
    assert total / total == 1.0;
  }

  datatype Tally<C> = Tally(acc: map<C, Share>, attributed: nat, unattributed: nat, totalValue: real)

  function Empty<C>(): Tally<C> {
    Tally(map[], 0, 0, 0.0)
  }

  /** One conversion against a journey. */
  function Claimed<C(==)>(
    t: Tally<C>, touches: Touches<C>, c: Conversion, model: Model, lookbackMs: int, decay: int -> real): Tally<C> {
    var eligible := Eligible(touches, lookbackMs, c.timestamp);
    var w := Weights(model, eligible, c.timestamp, decay);
    if eligible == [] || Total(w) == 0.0 then t.(unattributed := t.unattributed + 1)
    else
      Tally(Paid(t.acc, Parts(eligible, w, c.value)), t.attributed + 1, t.unattributed, t.totalValue + c.value)
  }

  function Tallied<C(==)>(
    t: Tally<C>, touches: Touches<C>, conversions: seq<Conversion>, model: Model, lookbackMs: int,
    decay: int -> real): Tally<C>
  {
    if conversions == [] then t
    else
      var n := |conversions| - 1;
      Claimed(Tallied(t, touches, conversions[..n], model, lookbackMs, decay), touches, conversions[n], model,
        lookbackMs, decay)
  }

  /** The books balance: credit handed out is one per attributed conversion, value handed out is theirs. */
  ghost predicate Balanced<C>(t: Tally<C>) {
    Sum(t.acc) == Share(t.attributed as real, t.totalValue)
  }

  lemma ClaimBalances<C>(
    t: Tally<C>, touches: Touches<C>, c: Conversion, model: Model, lookbackMs: int, decay: int -> real)
    requires Balanced(t)
    ensures Balanced(Claimed(t, touches, c, model, lookbackMs, decay))
  {
    var eligible := Eligible(touches, lookbackMs, c.timestamp);
    var w := Weights(model, eligible, c.timestamp, decay);
    if eligible != [] && Total(w) != 0.0 {
      PaidSum(t.acc, Parts(eligible, w, c.value));
      PartsMakeOne(eligible, w, c.value);
    }
  }

  /** Credit and value are conserved, whatever the model. */
  lemma {:induction false} CreditIsConserved<C>(
    t: Tally<C>, touches: Touches<C>, conversions: seq<Conversion>, model: Model, lookbackMs: int, decay: int -> real)
    requires Balanced(t)
    ensures Balanced(Tallied(t, touches, conversions, model, lookbackMs, decay))
  {
    if conversions != [] {
      var n := |conversions| - 1;
      CreditIsConserved(t, touches, conversions[..n], model, lookbackMs, decay);
      ClaimBalances(Tallied(t, touches, conversions[..n], model, lookbackMs, decay), touches, conversions[n], model,
        lookbackMs, decay);
    }
  }

  /** Exactly the conversions with an eligible touch are attributed. */
  lemma {:induction false} AttributedExactly<C>(
    t: Tally<C>, touches: Touches<C>, c: Conversion, model: Model, lookbackMs: int, decay: int -> real)
    requires Positive(decay)
    ensures var u := Claimed(t, touches, c, model, lookbackMs, decay);
            if exists i :: 0 <= i < |touches| && Within(touches[i].ts, lookbackMs, c.timestamp)
            then u.attributed == t.attributed + 1 && u.unattributed == t.unattributed
            else u == t.(unattributed := t.unattributed + 1)
  {
    EligibleSome(touches, lookbackMs, c.timestamp);
    var eligible := Eligible(touches, lookbackMs, c.timestamp);
    if eligible != [] {
      WeightsArePositive(model, eligible, c.timestamp, decay);
    }
  }

  lemma {:induction false} EligibleSome<C>(touches: Touches<C>, lookbackMs: int, conversionTs: int)
    ensures Eligible(touches, lookbackMs, conversionTs) != [] <==>
            exists i :: 0 <= i < |touches| && Within(touches[i].ts, lookbackMs, conversionTs)
  {
    if touches != [] {
      var n := |touches| - 1;
      EligibleSome(touches[..n], lookbackMs, conversionTs);
      if i :| 0 <= i < n && Within(touches[..n][i].ts, lookbackMs, conversionTs) {
        assert Within(touches[i].ts, lookbackMs, conversionTs);
      }
      if i :| 0 <= i <= n && Within(touches[i].ts, lookbackMs, conversionTs) && i < n {
        assert touches[..n][i] == touches[i];
      }
    }
  }

  /** What one conversion brings a channel. */
  function Claim<C(==)>(
    touches: Touches<C>, c: Conversion, model: Model, lookbackMs: int, decay: int -> real, channel: C): Share {
    var eligible := Eligible(touches, lookbackMs, c.timestamp);
    var w := Weights(model, eligible, c.timestamp, decay);
    if eligible == [] || Total(w) == 0.0 then NOTHING else Earned(Parts(eligible, w, c.value), channel)
  }

  lemma ClaimEarns<C>(
    t: Tally<C>, touches: Touches<C>, c: Conversion, model: Model, lookbackMs: int, decay: int -> real, channel: C)
    ensures Get(Claimed(t, touches, c, model, lookbackMs, decay).acc, channel) ==
            Plus(Get(t.acc, channel), Claim(touches, c, model, lookbackMs, decay, channel))
  {
    var eligible := Eligible(touches, lookbackMs, c.timestamp);
    var w := Weights(model, eligible, c.timestamp, decay);
    if eligible != [] && Total(w) != 0.0 {
      PaidEarns(t.acc, Parts(eligible, w, c.value), channel);
    }
  }

  /** All the conversions of a journey. */
  function Claims<C(==)>(
    touches: Touches<C>, conversions: seq<Conversion>, model: Model, lookbackMs: int, decay: int -> real,
    channel: C): Share {
    if conversions == [] then NOTHING
    else
      var n := |conversions| - 1;
      Plus(Claims(touches, conversions[..n], model, lookbackMs, decay, channel),
        Claim(touches, conversions[n], model, lookbackMs, decay, channel))
  }

  lemma PlusGroups(a: Share, b: Share, c: Share)
    ensures Plus(Plus(a, b), c) == Plus(a, Plus(b, c)) && Plus(NOTHING, a) == a && Plus(a, NOTHING) == a
  {
  }

  /** A channel's credit is what its own touches earn in each conversion, added to what it had. */
  lemma {:induction false} TallyIsClaims<C>(
    t: Tally<C>, touches: Touches<C>, conversions: seq<Conversion>, model: Model, lookbackMs: int, decay: int -> real,
    channel: C)
    ensures Get(Tallied(t, touches, conversions, model, lookbackMs, decay).acc, channel) ==
            Plus(Get(t.acc, channel), Claims(touches, conversions, model, lookbackMs, decay, channel))
  {
    if conversions == [] {
      PlusGroups(Get(t.acc, channel), NOTHING, NOTHING);
    } else {
      var n := |conversions| - 1;
      TallyIsClaims(t, touches, conversions[..n], model, lookbackMs, decay, channel);
      ClaimEarns(Tallied(t, touches, conversions[..n], model, lookbackMs, decay), touches, conversions[n], model,
        lookbackMs, decay, channel);
      PlusGroups(Get(t.acc, channel), Claims(touches, conversions[..n], model, lookbackMs, decay, channel),
                 Claim(touches, conversions[n], model, lookbackMs, decay, channel));
    }
  }

  /** What a tally adds for one channel does not depend on what was there. */
  lemma {:induction false} TalliesAdd<C>(
    t: Tally<C>, touches: Touches<C>, conversions: seq<Conversion>, model: Model, lookbackMs: int, decay: int -> real,
    channel: C)
    ensures Get(Tallied(t, touches, conversions, model, lookbackMs, decay).acc, channel) ==
            Plus(Get(t.acc, channel),
              Get(Tallied(Empty(), touches, conversions, model, lookbackMs, decay).acc, channel))
  {
    TallyIsClaims(t, touches, conversions, model, lookbackMs, decay, channel);
    TallyIsClaims(Empty(), touches, conversions, model, lookbackMs, decay, channel);
    PlusGroups(Claims(touches, conversions, model, lookbackMs, decay, channel), NOTHING, NOTHING);
  }

  lemma {:induction false} TallyCounts<C>(
    t: Tally<C>, touches: Touches<C>, conversions: seq<Conversion>, model: Model, lookbackMs: int, decay: int -> real)
    ensures var u, v := Tallied(t, touches, conversions, model, lookbackMs, decay),
            Tallied(Empty(), touches, conversions, model, lookbackMs, decay);
            u.attributed == t.attributed + v.attributed && u.unattributed == t.unattributed + v.unattributed &&
            u.totalValue == t.totalValue + v.totalValue
  {
    if conversions != [] {
      TallyCounts(t, touches, conversions[..|conversions| - 1], model, lookbackMs, decay);
    }
  }

  lemma TalliedNext<C>(
    t: Tally<C>, touches: Touches<C>, conversions: seq<Conversion>, n: nat, model: Model, lookbackMs: int,
    decay: int -> real)
    requires n < |conversions|
    ensures Tallied(t, touches, conversions[..n + 1], model, lookbackMs, decay) ==
            Claimed(Tallied(t, touches, conversions[..n], model, lookbackMs, decay), touches, conversions[n], model,
              lookbackMs, decay)
  {
    assert conversions[..n + 1][..n] == conversions[..n];
  }

  /** The part of the whole credit each channel has. */
  ghost predicate Portioned<C>(t: Tally<C>, portions: map<C, real>) {
    portions.Keys == t.acc.Keys &&
    forall c :: c in portions ==>
      portions[c] == if t.attributed > 0 then PartOf(t.acc[c].credit, t.attributed) else 0.0
  }

  function PartOf(credit: real, n: int): real
    requires n != 0
  {
    credit / n as real
  }

  ghost function AsShares<C>(portions: map<C, real>): map<C, Share> {
    map c | c in portions :: Share(portions[c], 0.0)
  }

  /** The portions of the channels add up to the whole. */
  lemma PortionsMakeOne<C>(t: Tally<C>, portions: map<C, real>)
    requires Balanced(t) && Portioned(t, portions) && t.attributed > 0
    ensures Sum(AsShares(portions)).credit == 1.0
  {
    SumOfPortions(t.acc, portions, t.attributed);
    Reals.MulDiv(1.0, t.attributed as real);
  }

  lemma {:induction false} SumOfPortions<C>(acc: map<C, Share>, portions: map<C, real>, n: int)
    requires n > 0 && portions.Keys == acc.Keys
    requires forall c :: c in portions ==> portions[c] == PartOf(acc[c].credit, n)
    ensures Sum(AsShares(portions)).credit == PartOf(Sum(acc).credit, n)
    decreases |acc|
  {
    var shares := AsShares(portions);
    if acc == map[] {
      assert shares == map[];
      NothingIsNoPart(n);
    } else {
      var k :| k in acc;
      SumWithout(acc, k);
      SumWithout(shares, k);
      RemoveOne(acc, k);
      SumOfPortions(acc - {k}, portions - {k}, n);
      assert shares - {k} == AsShares(portions - {k});
      AddParts(Sum(acc), acc[k], Sum(acc - {k}), Sum(shares), shares[k], Sum(shares - {k}), n);
    }
  }

  lemma NothingIsNoPart(n: int)
    requires n > 0
    ensures PartOf(0.0, n) == 0.0
  {
  }

  /** Parts of two sum to the part of the sum. */
  lemma AddParts(all: Share, a: Share, b: Share, some: Share, c: Share, d: Share, n: int)
    requires n > 0 && all == Plus(a, b) && some == Plus(c, d)
    requires c.credit == PartOf(a.credit, n) && d.credit == PartOf(b.credit, n)
    ensures some.credit == PartOf(all.credit, n)
  {
  }

  // ---------------------------------------------------------------- the modeler

  function Report<C(==)>(j: Journey<C>, model: Model, lookbackMs: int, decay: int -> real): Tally<C> {
    Tallied(Empty(), j.touches, j.conversions, model, lookbackMs, decay)
  }

  /** What each subject brings a channel. */
  ghost function PerSubject<K, C>(
    journeys: map<K, Journey<C>>, model: Model, lookbackMs: int, decay: int -> real, channel: C): map<K, Share>
  {
    map k | k in journeys :: Get(Report(journeys[k], model, lookbackMs, decay).acc, channel)
  }

  /** The conversions each subject has attributed, and their value. */
  ghost function Counts<K, C>(
    journeys: map<K, Journey<C>>, model: Model, lookbackMs: int, decay: int -> real): map<K, Share> {
    map k | k in journeys ::
      var t := Report(journeys[k], model, lookbackMs, decay); Share(t.attributed as real, t.totalValue)
  }

  ghost function Misses<K, C>(
    journeys: map<K, Journey<C>>, model: Model, lookbackMs: int, decay: int -> real): map<K, Share> {
    map k | k in journeys :: Share(Report(journeys[k], model, lookbackMs, decay).unattributed as real, 0.0)
  }

  /** The global tally is that of all subjects taken together. */
  ghost predicate Together<K, C(!new)>(
    t: Tally<C>, journeys: map<K, Journey<C>>, model: Model, lookbackMs: int, decay: int -> real)
  {
    (forall channel :: Get(t.acc, channel) == Sum(PerSubject(journeys, model, lookbackMs, decay, channel))) &&
    Share(t.attributed as real, t.totalValue) == Sum(Counts(journeys, model, lookbackMs, decay)) &&
    Share(t.unattributed as real, 0.0) == Sum(Misses(journeys, model, lookbackMs, decay))
  }

  lemma SumAdd<K>(m: map<K, Share>, k: K, s: Share)
    requires k !in m
    ensures Sum(m[k := s]) == Plus(Sum(m), s)
  {
    SumWithout(m[k := s], k);
    assert m[k := s] - {k} == m;
  }

  lemma {:induction false} TogetherStep<K, C(!new)>(
    t: Tally<C>, journeys: map<K, Journey<C>>, k: K, j: Journey<C>, model: Model, lookbackMs: int, decay: int -> real)
    requires Together(t, journeys, model, lookbackMs, decay) && k !in journeys
    ensures Together(Tallied(t, j.touches, j.conversions, model, lookbackMs, decay), journeys[k := j], model,
            lookbackMs, decay)
  {
    forall channel
      ensures Get(Tallied(t, j.touches, j.conversions, model, lookbackMs, decay).acc, channel) ==
              Sum(PerSubject(journeys[k := j], model, lookbackMs, decay, channel))
    {
      ChannelStep(t, journeys, k, j, model, lookbackMs, decay, channel);
    }
    CountsStep(t, journeys, k, j, model, lookbackMs, decay);
  }

  lemma {:induction false} ChannelStep<K, C>(
    t: Tally<C>, journeys: map<K, Journey<C>>, k: K, j: Journey<C>, model: Model, lookbackMs: int, decay: int -> real,
    channel: C)
    requires k !in journeys && Get(t.acc, channel) == Sum(PerSubject(journeys, model, lookbackMs, decay, channel))
    ensures Get(Tallied(t, j.touches, j.conversions, model, lookbackMs, decay).acc, channel) ==
            Sum(PerSubject(journeys[k := j], model, lookbackMs, decay, channel))
  {
    var before, mine := PerSubject(journeys, model, lookbackMs, decay, channel),
      Get(Report(j, model, lookbackMs, decay).acc, channel);
    assert PerSubject(journeys[k := j], model, lookbackMs, decay, channel) == before[k := mine];
    SumAdd(before, k, mine);
    TalliesAdd(t, j.touches, j.conversions, model, lookbackMs, decay, channel);
  }

  lemma PlusShares(m: int, x: real, n: int, y: real)
    ensures Plus(Share(m as real, x), Share(n as real, y)) == Share((m + n) as real, x + y)
  {
  }

  lemma {:induction false} CountsStep<K, C>(
    t: Tally<C>, journeys: map<K, Journey<C>>, k: K, j: Journey<C>, model: Model, lookbackMs: int, decay: int -> real)
    requires k !in journeys
    requires Share(t.attributed as real, t.totalValue) == Sum(Counts(journeys, model, lookbackMs, decay))
    requires Share(t.unattributed as real, 0.0) == Sum(Misses(journeys, model, lookbackMs, decay))
    ensures var u := Tallied(t, j.touches, j.conversions, model, lookbackMs, decay);
            Share(u.attributed as real, u.totalValue) == Sum(Counts(journeys[k := j], model, lookbackMs, decay)) &&
            Share(u.unattributed as real, 0.0) == Sum(Misses(journeys[k := j], model, lookbackMs, decay))
  {
    var r := Report(j, model, lookbackMs, decay);
    TallyCounts(t, j.touches, j.conversions, model, lookbackMs, decay);
    AddCounts(journeys, k, j, model, lookbackMs, decay);
    AddMisses(journeys, k, j, model, lookbackMs, decay);
    PlusShares(t.attributed, t.totalValue, r.attributed, r.totalValue);
    PlusShares(t.unattributed, 0.0, r.unattributed, 0.0);
  }

  lemma AddCounts<K, C>(
    journeys: map<K, Journey<C>>, k: K, j: Journey<C>, model: Model, lookbackMs: int, decay: int -> real)
    requires k !in journeys
    ensures var r := Report(j, model, lookbackMs, decay);
            Sum(Counts(journeys[k := j], model, lookbackMs, decay)) ==
            Plus(Sum(Counts(journeys, model, lookbackMs, decay)), Share(r.attributed as real, r.totalValue))
  {
    var r, counts := Report(j, model, lookbackMs, decay), Counts(journeys, model, lookbackMs, decay);
    assert Counts(journeys[k := j], model, lookbackMs, decay) == counts[k := Share(r.attributed as real, r.totalValue)];
    SumAdd(counts, k, Share(r.attributed as real, r.totalValue));
  }

  lemma AddMisses<K, C>(
    journeys: map<K, Journey<C>>, k: K, j: Journey<C>, model: Model, lookbackMs: int, decay: int -> real)
    requires k !in journeys
    ensures Sum(Misses(journeys[k := j], model, lookbackMs, decay)) ==
            Plus(Sum(Misses(journeys, model, lookbackMs, decay)),
              Share(Report(j, model, lookbackMs, decay).unattributed as real, 0.0))
  {
    var missed, misses := Share(Report(j, model, lookbackMs, decay).unattributed as real, 0.0),
      Misses(journeys, model, lookbackMs, decay);
    assert Misses(journeys[k := j], model, lookbackMs, decay) == misses[k := missed];
    SumAdd(misses, k, missed);
  }

  class AttributionModeler<K(==, !new), C(==, !new)> {
    const lookbackMs: int
    var journeys: map<K, Journey<C>>

    constructor (lookbackMs: int)
      requires lookbackMs >= 0
      ensures Valid() && journeys == map[] && this.lookbackMs == lookbackMs
    {
      this.lookbackMs, journeys := lookbackMs, map[];
    }

    ghost predicate Valid()
      reads this
    {
      lookbackMs >= 0 && forall k :: k in journeys ==> Sorted(journeys[k].touches)
    }

    function JourneyOf(k: K): Journey<C>
      reads this
    {
      if k in journeys then journeys[k] else Journey([], [])
    }

    /** Appends, or splices in before the first later touch. */
    method AddTouch(k: K, touch: Stamped<C>)
      requires Valid()
      modifies this
      ensures Valid()
      ensures journeys == old(journeys)[k := old(JourneyOf(k)).(touches := Inserted(old(JourneyOf(k)).touches, touch))]
    {
      var j := JourneyOf(k);
      var t := j.touches;
      InsertKeepsOrder(t, touch);
      if t == [] || t[|t| - 1].ts <= touch.ts {
        journeys := journeys[k := j.(touches := t + [touch])];
        return;
      }
      var i := |t| - 1;
      while i >= 0 && t[i].ts > touch.ts
        invariant -1 <= i < |t| && forall m :: i < m < |t| ==> t[m].ts > touch.ts
      {
        i := i - 1;
      }
      InsertSplits(t, touch, i + 1);
      journeys := journeys[k := j.(touches := t[..i + 1] + [touch] + t[i + 1..])];
    }

    method AddConversion(k: K, c: Conversion)
      requires Valid()
      modifies this
      ensures Valid()
      ensures journeys == old(journeys)[k := old(JourneyOf(k)).(conversions := old(JourneyOf(k)).conversions + [c])]
    {
      var j := JourneyOf(k);
      journeys := journeys[k := j.(conversions := j.conversions + [c])];
    }

    /** The touches in the window, found by binary search. */
    method EligibleTouches(k: K, conversionTs: int) returns (r: Touches<C>)
      requires Valid()
      ensures r == Eligible(JourneyOf(k).touches, lookbackMs, conversionTs)
    {
      if k !in journeys {
        return [];
      }
      var t := journeys[k].touches;
      var lo := 0;
      if lookbackMs > 0 {
        lo := LowerBound(t, conversionTs - lookbackMs);
      }
      var hi := LowerBound(t, conversionTs);
      BoundsInOrder(t, lo, hi, conversionTs);
      r := t[lo..hi];
      SliceIsScan(t, lo, hi, lookbackMs, conversionTs);
    }

    /** Adds the conversions of one subject to a tally. */
    method Accumulate(t: Tally<C>, k: K, model: Model, decay: int -> real) returns (u: Tally<C>)
      requires Valid() && Positive(decay) && k in journeys
      ensures u == Tallied(t, journeys[k].touches, journeys[k].conversions, model, lookbackMs, decay)
    {
      var conversions := journeys[k].conversions;
      ghost var touches := journeys[k].touches;
      u := t;
      var n := 0;
      while n < |conversions|
        invariant 0 <= n <= |conversions|
        invariant u == Tallied(t, touches, conversions[..n], model, lookbackMs, decay)
      {
        u := ClaimOne(u, k, conversions[n], model, decay);
        TalliedNext(t, touches, conversions, n, model, lookbackMs, decay);
        n := n + 1;
      }
      assert conversions[..n] == conversions;
    }

    method ClaimOne(t: Tally<C>, k: K, c: Conversion, model: Model, decay: int -> real) returns (u: Tally<C>)
      requires Valid() && Positive(decay) && k in journeys
      ensures u == Claimed(t, journeys[k].touches, c, model, lookbackMs, decay)
    {
      var touches := EligibleTouches(k, c.timestamp);
      if touches == [] {
        return t.(unattributed := t.unattributed + 1);
      }
      var w := FillWeights(model, touches, c.timestamp, decay);
      WeightsArePositive(model, touches, c.timestamp, decay);
      var acc := PayOut(t.acc, touches, w, c.value);
      u := Tally(acc, t.attributed + 1, t.unattributed, t.totalValue + c.value);
    }

    /** Adds up the weights, then credits each touch's channel. */
    static method PayOut(
      before: map<C, Share>, touches: Touches<C>, w: seq<real>, value: real) returns (acc: map<C, Share>)
      requires |touches| == |w| && Total(w) != 0.0
      ensures acc == Paid(before, Parts(touches, w, value))
    {
      var total, i := 0.0, 0;
      while i < |w|
        invariant 0 <= i <= |w| && total == Total(w[..i])
      {
        assert w[..i + 1][..i] == w[..i];
        total, i := total + w[i], i + 1;
      }
      assert w[..i] == w;
      acc := before;
      ghost var parts := Parts(touches, w, value);
      i := 0;
      while i < |touches|
        invariant 0 <= i <= |touches| && acc == Paid(before, parts[..i])
      {
        assert parts[..i + 1][..i] == parts[..i];
        var credit := w[i] / total;
        var channel := touches[i].item;
        var cur := if channel in acc then acc[channel] else Share(0.0, 0.0);
        acc := acc[channel := Share(cur.credit + credit, cur.value + credit * value)];
        assert parts[i].share == Share(credit, credit * value);
        i := i + 1;
      }
      assert parts[..i] == parts;
    }

    /** The portions of a report: each channel's credit over that of all. */
    static method PortionsOf(t: Tally<C>) returns (portions: map<C, real>)
      requires Balanced(t)
      ensures Portioned(t, portions)
    {
      var total, left := 0.0, t.acc.Keys;
      ghost var rest := t.acc;
      while left != {}
        invariant left == rest.Keys <= t.acc.Keys && total + Sum(rest).credit == t.attributed as real
        invariant forall c :: c in rest ==> rest[c] == t.acc[c]
        decreases left
      {
        var c :| c in left;
        SumWithout(rest, c);
        total, left, rest := total + t.acc[c].credit, left - {c}, rest - {c};
      }
      portions := map c | c in t.acc :: if total > 0.0 then t.acc[c].credit / total else 0.0;
    }

    method Attribute(k: K, model: Model, decay: int -> real) returns (t: Tally<C>, portions: map<C, real>)
      requires Valid() && Positive(decay)
      ensures t == Report(JourneyOf(k), model, lookbackMs, decay) && Balanced(t) && Portioned(t, portions)
    {
      CreditIsConserved(Empty<C>(), JourneyOf(k).touches, JourneyOf(k).conversions, model, lookbackMs, decay);
      t := Empty();
      if k in journeys {
        t := Accumulate(t, k, model, decay);
      }
      portions := PortionsOf(t);
    }

    /** The report over all subjects, in whatever order they come. */
    method AttributeAll(model: Model, decay: int -> real) returns (t: Tally<C>, portions: map<C, real>)
      requires Valid() && Positive(decay)
      ensures Together(t, journeys, model, lookbackMs, decay) && Balanced(t) && Portioned(t, portions)
    {
      t := Empty();
      var left := journeys.Keys;
      ghost var done: map<K, Journey<C>> := map[];
      while left != {}
        invariant left <= journeys.Keys && done.Keys == journeys.Keys - left
        invariant forall k :: k in done ==> done[k] == journeys[k]
        invariant Together(t, done, model, lookbackMs, decay) && Balanced(t)
        decreases left
      {
        var k :| k in left;
        left := left - {k};
        TogetherStep(t, done, k, journeys[k], model, lookbackMs, decay);
        CreditIsConserved(t, journeys[k].touches, journeys[k].conversions, model, lookbackMs, decay);
        done := done[k := journeys[k]];
        t := Accumulate(t, k, model, decay);
      }
      assert done == journeys;
      portions := PortionsOf(t);
    }
  }
}
