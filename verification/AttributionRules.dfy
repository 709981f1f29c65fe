/**
 What each attribution model gives to whom, for one conversion of a journey: by the touches that lie in the
 window, without the weights the modeler works with.
 */
module AttributionRules {
  import opened StableSort
  import opened Attribution
  import Reals

  /** The touches of the window before `t` are those from position `lo` up to `hi`. */
  ghost predicate IsWindow<C>(touches: Touches<C>, lookbackMs: int, t: int, lo: nat, hi: nat) {
    lo <= hi <= |touches| &&
    forall i :: 0 <= i < |touches| ==>
      (lo <= i < hi <==> touches[i].ts < t && (lookbackMs > 0 ==> touches[i].ts >= t - lookbackMs))
  }

  /** In a journey in time order they are such a slice. */
  lemma {:induction false} WindowIsSlice<C>(touches: Touches<C>, lookbackMs: int, t: int) returns (lo: nat, hi: nat)
    requires Sorted(touches)
    ensures IsWindow(touches, lookbackMs, t, lo, hi)
  {
    if touches == [] {
      lo, hi := 0, 0;
    } else {
      var n := |touches| - 1;
      var front, last := touches[..n], touches[n].ts;
      lo, hi := WindowIsSlice(front, lookbackMs, t);
      assert forall i :: 0 <= i < n ==> front[i] == touches[i] && touches[i].ts <= last;
      if last < t {
        if lookbackMs > 0 && last < t - lookbackMs {
          lo, hi := n + 1, n + 1;
        } else if lo < hi {
          WindowEnds(front, lookbackMs, t, lo, hi);
          hi := n + 1;
        } else {
          lo, hi := n, n + 1;
        }
      }
    }
  }

  lemma WindowEnds<C>(touches: Touches<C>, lookbackMs: int, t: int, lo: nat, hi: nat)
    requires Sorted(touches) && IsWindow(touches, lookbackMs, t, lo, hi) && lo < hi
    requires forall i :: 0 <= i < |touches| ==> touches[i].ts < t
    ensures hi == |touches|
  {
    assert touches[lo].ts <= touches[|touches| - 1].ts;
  }

  /** What the touches of a channel get together. */
  function CreditOf<C(==)>(touches: Touches<C>, shares: seq<real>, channel: C): real
    requires |touches| == |shares|
  {
    if touches == [] then 0.0
    else
      var n := |touches| - 1;
      CreditOf(touches[..n], shares[..n], channel) + if touches[n].item == channel then shares[n] else 0.0
  }

  /** How many touches a channel has. */
  function Count<C(==)>(touches: Touches<C>, channel: C): nat {
    if touches == [] then 0
    else Count(touches[..|touches| - 1], channel) + if touches[|touches| - 1].item == channel then 1 else 0
  }

  /** What each of `n` gets of a whole. */
  function Each(whole: real, n: int): real
    requires n > 0
  {
    whole / n as real
  }

  /** Two parts are to each other as two numbers. */
  predicate InRatio(a: real, b: real, x: real, y: real) {
    a > 0.0 && b > 0.0 && a * y == b * x
  }

  /** The parts of one credit the touches of a window have under a model. */
  ghost predicate Divides<C>(
    model: Model, touches: Touches<C>, t: int, decay: int -> real, shares: seq<real>)
    requires |touches| == |shares| > 0
  {
    var n := |touches|;
    match model
    case FirstTouch => shares[0] == 1.0 && forall i :: 0 < i < n ==> shares[i] == 0.0
    case LastTouch => shares[n - 1] == 1.0 && forall i :: 0 <= i < n - 1 ==> shares[i] == 0.0
    case Linear => forall i :: 0 <= i < n ==> shares[i] == Each(1.0, n)
    case TimeDecay =>
      forall i, j :: 0 <= i < n && 0 <= j < n ==>
        InRatio(shares[i], shares[j], decay(t - touches[i].ts), decay(t - touches[j].ts))
    case PositionBased =>
      if n == 1 then shares[0] == 1.0
      else if n == 2 then shares[0] == shares[1] == 0.5
      else shares[0] == shares[n - 1] == 0.4 && forall i :: 0 < i < n - 1 ==> shares[i] == Each(0.2, n - 2)
  }

  // ---------------------------------------------------------------- totals of weights

  lemma {:induction false} TotalOfOne(w: seq<real>, k: nat)
    requires k < |w| && forall i :: 0 <= i < |w| && i != k ==> w[i] == 0.0
    ensures Total(w) == w[k]
  {
    var n := |w| - 1;
    if k == n {
      TotalOfNone(w[..n]);
    } else {
      TotalOfOne(w[..n], k);
    }
  }

  lemma {:induction false} TotalOfNone(w: seq<real>)
    requires forall i :: 0 <= i < |w| ==> w[i] == 0.0
    ensures Total(w) == 0.0
  {
    if w != [] {
      TotalOfNone(w[..|w| - 1]);
    }
  }

  lemma {:induction false} TotalOfEqual(w: seq<real>, x: real)
    requires forall i :: 0 <= i < |w| ==> w[i] == x
    ensures Total(w) == |w| as real * x
  {
    if w != [] {
      TotalOfEqual(w[..|w| - 1], x);
      assert |w| as real * x == (|w| - 1) as real * x + x;
    }
  }

  lemma {:induction false} TotalAfterFirst(w: seq<real>)
    requires w != []
    ensures Total(w) == w[0] + Total(w[1..])
  {
    var n := |w| - 1;
    if n > 0 {
      TotalAfterFirst(w[..n]);
      assert w[..n][1..] == w[1..][..n - 1];
    }
  }

  lemma TotalOfEnds(w: seq<real>, x: real)
    requires |w| >= 3 && w[0] == w[|w| - 1] == 0.4 && x * (|w| - 2) as real == 0.2
    requires forall i :: 0 < i < |w| - 1 ==> w[i] == x
    ensures Total(w) == 1.0
  {
    var n := |w| - 1;
    TotalAfterFirst(w[..n]);
    assert w[..n][1..] == w[1..n];
    TotalOfEqual(w[1..n], x);
  }

  /** The weights of a position-based window add up to one, and those of the others to what they say. */
  lemma TotalIs<C>(model: Model, touches: Touches<C>, t: int, decay: int -> real)
    requires touches != [] && model != TimeDecay
    ensures Total(Weights(model, touches, t, decay)) == if model == Linear then |touches| as real else 1.0
  {
    var w, n := Weights(model, touches, t, decay), |touches|;
    assert forall i :: 0 <= i < n ==> w[i] == Weight(model, touches, i, t, decay);
    match model
    case FirstTouch => TotalOfOne(w, 0);
    case LastTouch => TotalOfOne(w, n - 1);
    case Linear => TotalOfEqual(w, 1.0);
    case PositionBased =>
      if n == 1 {
        TotalOfOne(w, 0);
      } else if n == 2 {
        TotalOfEqual(w, 0.5);
      } else {
        Reals.DivMul(0.2, (n - 2) as real);
        TotalOfEnds(w, 0.2 / (n - 2) as real);
      }
  }

  // ---------------------------------------------------------------- shares

  /** Each weight over the total. */
  function Shares(w: seq<real>): (r: seq<real>)
    requires Total(w) != 0.0
    ensures |r| == |w| && forall i :: 0 <= i < |w| ==> r[i] == w[i] / Total(w)
  {
    seq(|w|, i requires 0 <= i < |w| => w[i] / Total(w))
  }

  lemma SharesDivide<C>(model: Model, touches: Touches<C>, t: int, decay: int -> real)
    requires touches != [] && Positive(decay) && forall i :: 0 <= i < |touches| ==> touches[i].ts < t
    ensures var w := Weights(model, touches, t, decay);
            Total(w) > 0.0 && Divides(model, touches, t, decay, Shares(w))
  {
    var w, n := Weights(model, touches, t, decay), |touches|;
    WeightsArePositive(model, touches, t, decay);
    assert forall i :: 0 <= i < n ==> w[i] == Weight(model, touches, i, t, decay);
    if model == TimeDecay {
      DecayDivides(touches, t, decay, w);
    } else {
      TotalIs(model, touches, t, decay);
    }
  }

  lemma DecayDivides<C>(touches: Touches<C>, t: int, decay: int -> real, w: seq<real>)
    requires |w| == |touches| > 0 && Total(w) > 0.0 && Positive(decay)
    requires forall i :: 0 <= i < |touches| ==> touches[i].ts < t && w[i] == decay(t - touches[i].ts)
    ensures Divides(TimeDecay, touches, t, decay, Shares(w))
  {
    var shares := Shares(w);
    forall i, j | 0 <= i < |w| && 0 <= j < |w|
      ensures InRatio(shares[i], shares[j], decay(t - touches[i].ts), decay(t - touches[j].ts))
    {
      QuotientsAreInRatio(w[i], w[j], Total(w));
    }
  }

  lemma QuotientsAreInRatio(x: real, y: real, total: real)
    requires x > 0.0 && y > 0.0 && total > 0.0
    ensures InRatio(x / total, y / total, x, y)
  {
    var a, b := x / total, y / total;
    Reals.DivMul(x, total);
    Reals.DivMul(y, total);
    assert a * (b * total) == b * (a * total);
    if a <= 0.0 {
      Reals.MulMonotone(total, a, 0.0);
    }
    if b <= 0.0 {
      Reals.MulMonotone(total, b, 0.0);
    }
  }

  lemma {:induction false} EarnedCredit<C>(
    parts: seq<Part<C>>, touches: Touches<C>, shares: seq<real>, channel: C)
    requires |parts| == |touches| == |shares|
    requires forall i :: 0 <= i < |parts| ==> parts[i].channel == touches[i].item && parts[i].share.credit == shares[i]
    ensures Earned(parts, channel).credit == CreditOf(touches, shares, channel)
  {
    if parts != [] {
      var n := |parts| - 1;
      EarnedCredit(parts[..n], touches[..n], shares[..n], channel);
    }
  }

  function Times(credit: real, value: real): real {
    credit * value
  }

  lemma TimesAdd(a: real, b: real, value: real)
    ensures Times(a, value) + Times(b, value) == Times(a + b, value) && Times(0.0, value) == 0.0
  {
  }

  lemma PlusTimes(a: Share, b: Share, value: real)
    requires a.value == Times(a.credit, value) && b.value == Times(b.credit, value)
    ensures Plus(a, b).value == Times(Plus(a, b).credit, value)
  {
    TimesAdd(a.credit, b.credit, value);
  }

  lemma {:induction false} EarnedValue<C>(parts: seq<Part<C>>, value: real, channel: C)
    requires forall i :: 0 <= i < |parts| ==> parts[i].share.value == Times(parts[i].share.credit, value)
    ensures Earned(parts, channel).value == Times(Earned(parts, channel).credit, value)
  {
    TimesAdd(0.0, 0.0, value);
    if parts != [] {
      var front, last := parts[..|parts| - 1], parts[|parts| - 1];
      EarnedValue(front, value, channel);
      PlusTimes(Earned(front, channel), if last.channel == channel then last.share else NOTHING, value);
    }
  }

  lemma PartsAre<C>(touches: Touches<C>, w: seq<real>, value: real)
    requires |touches| == |w| && Total(w) != 0.0
    ensures var parts, shares := Parts(touches, w, value), Shares(w);
            forall i :: 0 <= i < |parts| ==>
              parts[i].channel == touches[i].item && parts[i].share.credit == shares[i] &&
              parts[i].share.value == Times(parts[i].share.credit, value)
  {
    var parts, shares := Parts(touches, w, value), Shares(w);
    forall i | 0 <= i < |parts|
      ensures parts[i].channel == touches[i].item && parts[i].share.credit == shares[i] &&
              parts[i].share.value == Times(parts[i].share.credit, value)
    {
      assert parts[i] == Part(touches[i].item, ShareOf(w[i], Total(w), value));
      ShareIs(w[i], Total(w), value);
    }
  }

  lemma ShareIs(weight: real, total: real, value: real)
    requires total != 0.0
    ensures var s := ShareOf(weight, total, value); s.credit == weight / total && s.value == Times(s.credit, value)
  {
  }

  // ---------------------------------------------------------------- the report of one conversion

  /** The report of a journey with one conversion. */
  function ReportOfOne<C(==)>(
    touches: Touches<C>, c: Conversion, model: Model, lookbackMs: int, decay: int -> real): Tally<C>
  {
    Report(Journey(touches, [c]), model, lookbackMs, decay)
  }

  /** A report of many conversions is made up of the reports of each. */
  lemma ReportsAddUp<C>(
    touches: Touches<C>, conversions: seq<Conversion>, c: Conversion, model: Model, lookbackMs: int,
    decay: int -> real, channel: C)
    ensures Get(Report(Journey(touches, conversions + [c]), model, lookbackMs, decay).acc, channel) ==
            Plus(Get(Report(Journey(touches, conversions), model, lookbackMs, decay).acc, channel),
              Get(ReportOfOne(touches, c, model, lookbackMs, decay).acc, channel))
  {
    var all := conversions + [c];
    assert all[..|all| - 1] == conversions && [c][..0] == [];
    ClaimEarns(Tallied(Empty(), touches, conversions, model, lookbackMs, decay), touches, c, model, lookbackMs, decay,
      channel);
    OneClaim(touches, c, model, lookbackMs, decay, channel);
  }

  lemma ReportIsClaimed<C>(
    touches: Touches<C>, c: Conversion, model: Model, lookbackMs: int, decay: int -> real)
    ensures ReportOfOne(touches, c, model, lookbackMs, decay) ==
            Claimed(Empty(), touches, c, model, lookbackMs, decay)
  {
    assert [c][..0] == [];
    assert Tallied(Empty<C>(), touches, [], model, lookbackMs, decay) == Empty();
  }

  lemma OneClaim<C>(
    touches: Touches<C>, c: Conversion, model: Model, lookbackMs: int, decay: int -> real, channel: C)
    ensures Get(ReportOfOne(touches, c, model, lookbackMs, decay).acc, channel) ==
            Claim(touches, c, model, lookbackMs, decay, channel)
  {
    ReportIsClaimed(touches, c, model, lookbackMs, decay);
    ClaimEarns(Empty(), touches, c, model, lookbackMs, decay, channel);
    PlusGroups(Claim(touches, c, model, lookbackMs, decay, channel), NOTHING, NOTHING);
  }

  /** What the touches of the window share, as the model divides it, is what their channels get; others get nothing. */
  lemma ReportDivides<C(!new)>(
    touches: Touches<C>, lo: nat, hi: nat, c: Conversion, model: Model, lookbackMs: int, decay: int -> real)
    returns (shares: seq<real>)
    requires IsWindow(touches, lookbackMs, c.timestamp, lo, hi) && lo < hi && Positive(decay)
    ensures |shares| == hi - lo && Divides(model, touches[lo..hi], c.timestamp, decay, shares)
    ensures forall channel ::
              var credit := CreditOf(touches[lo..hi], shares, channel);
              Get(ReportOfOne(touches, c, model, lookbackMs, decay).acc, channel) ==
              Share(credit, Times(credit, c.value))
  {
    var es := touches[lo..hi];
    SliceIsScan(touches, lo, hi, lookbackMs, c.timestamp);
    SharesDivide(model, es, c.timestamp, decay);
    var w := Weights(model, es, c.timestamp, decay);
    shares := Shares(w);
    forall channel
      ensures var credit := CreditOf(es, shares, channel);
              Get(ReportOfOne(touches, c, model, lookbackMs, decay).acc, channel) ==
                Share(credit, Times(credit, c.value))
    {
      ClaimIsCredit(touches, es, c, model, lookbackMs, decay, channel);
    }
  }

  lemma ClaimIsCredit<C>(
    touches: Touches<C>, es: Touches<C>, c: Conversion, model: Model, lookbackMs: int, decay: int -> real, channel: C)
    requires es == Eligible(touches, lookbackMs, c.timestamp) != []
    requires Total(Weights(model, es, c.timestamp, decay)) > 0.0
    ensures var credit := CreditOf(es, Shares(Weights(model, es, c.timestamp, decay)), channel);
            Get(ReportOfOne(touches, c, model, lookbackMs, decay).acc, channel) == Share(credit, Times(credit, c.value))
  {
    var w := Weights(model, es, c.timestamp, decay);
    OneClaim(touches, c, model, lookbackMs, decay, channel);
    PartsAre(es, w, c.value);
    EarnedCredit(Parts(es, w, c.value), es, Shares(w), channel);
    EarnedValue(Parts(es, w, c.value), c.value, channel);
  }

  /** Without a touch in the window nobody gets anything. */
  lemma NobodyGets<C>(
    touches: Touches<C>, lo: nat, c: Conversion, model: Model, lookbackMs: int, decay: int -> real)
    requires IsWindow(touches, lookbackMs, c.timestamp, lo, lo)
    ensures ReportOfOne(touches, c, model, lookbackMs, decay) == Tally(map[], 0, 1, 0.0)
  {
    SliceIsScan(touches, lo, lo, lookbackMs, c.timestamp);
    ReportIsClaimed(touches, c, model, lookbackMs, decay);
  }

  // ---------------------------------------------------------------- channel by channel

  lemma {:induction false} CreditOfOne<C>(touches: Touches<C>, shares: seq<real>, k: nat, channel: C)
    requires |touches| == |shares| && k < |shares| && forall i :: 0 <= i < |shares| && i != k ==> shares[i] == 0.0
    ensures CreditOf(touches, shares, channel) == if touches[k].item == channel then shares[k] else 0.0
  {
    var n := |shares| - 1;
    if k == n {
      CreditOfEqual(touches[..n], shares[..n], 0.0, channel);
    } else {
      CreditOfOne(touches[..n], shares[..n], k, channel);
    }
  }

  lemma {:induction false} CreditOfEqual<C>(touches: Touches<C>, shares: seq<real>, x: real, channel: C)
    requires |touches| == |shares| && forall i :: 0 <= i < |shares| ==> shares[i] == x
    ensures CreditOf(touches, shares, channel) == Count(touches, channel) as real * x
  {
    if touches != [] {
      var n := |shares| - 1;
      CreditOfEqual(touches[..n], shares[..n], x, channel);
      var k := Count(touches[..n], channel);
      assert (k + 1) as real * x == k as real * x + x;
    }
  }

  lemma {:induction false} CreditAfterFirst<C>(touches: Touches<C>, shares: seq<real>, channel: C)
    requires |touches| == |shares| > 0
    ensures CreditOf(touches, shares, channel) ==
            (if touches[0].item == channel then shares[0] else 0.0) + CreditOf(touches[1..], shares[1..], channel)
  {
    var n := |touches| - 1;
    if n > 0 {
      CreditAfterFirst(touches[..n], shares[..n], channel);
      assert touches[..n][1..] == touches[1..][..n - 1] && shares[..n][1..] == shares[1..][..n - 1];
    }
  }

  /** All of it to the earliest touch of the window. */
  lemma FirstTouchGets<C(!new)>(
    touches: Touches<C>, lo: nat, hi: nat, c: Conversion, lookbackMs: int, decay: int -> real, channel: C)
    requires IsWindow(touches, lookbackMs, c.timestamp, lo, hi) && lo < hi && Positive(decay)
    ensures Get(ReportOfOne(touches, c, FirstTouch, lookbackMs, decay).acc, channel) ==
            if channel == touches[lo].item then Share(1.0, c.value) else NOTHING
  {
    var shares := ReportDivides(touches, lo, hi, c, FirstTouch, lookbackMs, decay);
    CreditOfOne(touches[lo..hi], shares, 0, channel);
  }

  /** All of it to the latest. */
  lemma LastTouchGets<C(!new)>(
    touches: Touches<C>, lo: nat, hi: nat, c: Conversion, lookbackMs: int, decay: int -> real, channel: C)
    requires IsWindow(touches, lookbackMs, c.timestamp, lo, hi) && lo < hi && Positive(decay)
    ensures Get(ReportOfOne(touches, c, LastTouch, lookbackMs, decay).acc, channel) ==
            if channel == touches[hi - 1].item then Share(1.0, c.value) else NOTHING
  {
    var shares := ReportDivides(touches, lo, hi, c, LastTouch, lookbackMs, decay);
    CreditOfOne(touches[lo..hi], shares, hi - 1 - lo, channel);
  }

  /** To each channel its number of touches over all of them. */
  lemma LinearGets<C(!new)>(
    touches: Touches<C>, lo: nat, hi: nat, c: Conversion, lookbackMs: int, decay: int -> real, channel: C)
    requires IsWindow(touches, lookbackMs, c.timestamp, lo, hi) && lo < hi && Positive(decay)
    ensures var got := Get(ReportOfOne(touches, c, Linear, lookbackMs, decay).acc, channel);
            got.credit == Count(touches[lo..hi], channel) as real * Each(1.0, hi - lo) &&
            got.value == Times(got.credit, c.value)
  {
    var shares := ReportDivides(touches, lo, hi, c, Linear, lookbackMs, decay);
    CreditOfEqual(touches[lo..hi], shares, Each(1.0, hi - lo), channel);
  }

  /** Whether a touch is the channel's, as a number. */
  function Is<C(==)>(touch: Stamped<C>, channel: C): real {
    if touch.item == channel then 1.0 else 0.0
  }

  /** What each touch between the ends has. */
  function Inside(n: nat): real {
    if n > 2 then Each(0.2, n - 2) else 0.0
  }

  /** What a channel gets that has `first` of the first touch, `last` of the last and `others` of the rest, of `n`. */
  function Positioned(n: nat, first: real, last: real, others: real, each: real): real {
    if n == 1 then first else if n == 2 then 0.5 * first + 0.5 * last
    else 0.4 * first + others * each + 0.4 * last
  }

  function Between<C>(es: Touches<C>): Touches<C> {
    if |es| > 2 then es[1..|es| - 1] else []
  }

  /** All of it to a single touch, halves to two, and 0.4 to each end with 0.2 shared by the rest. */
  lemma PositionBasedGets<C(!new)>(
    touches: Touches<C>, lo: nat, hi: nat, c: Conversion, lookbackMs: int, decay: int -> real, channel: C)
    requires IsWindow(touches, lookbackMs, c.timestamp, lo, hi) && lo < hi && Positive(decay)
    ensures var got := Get(ReportOfOne(touches, c, PositionBased, lookbackMs, decay).acc, channel);
            got.value == Times(got.credit, c.value) &&
            got.credit == Positioned(hi - lo, Is(touches[lo], channel), Is(touches[hi - 1], channel),
                                     Count(Between(touches[lo..hi]), channel) as real, Inside(hi - lo))
  {
    var shares := ReportDivides(touches, lo, hi, c, PositionBased, lookbackMs, decay);
    PositionCredit(touches[lo..hi], c.timestamp, decay, shares, channel);
  }

  lemma PositionCredit<C>(es: Touches<C>, t: int, decay: int -> real, shares: seq<real>, channel: C)
    requires |es| == |shares| > 0 && Divides(PositionBased, es, t, decay, shares)
    ensures CreditOf(es, shares, channel) ==
            Positioned(|es|, Is(es[0], channel), Is(es[|es| - 1], channel), Count(Between(es), channel) as real,
                       Inside(|es|))
  {
    if |es| <= 2 {
      FewGet(es, shares, Count(Between(es), channel) as real, Inside(|es|), channel);
    } else {
      EndsGet(es, shares, Inside(|es|), channel);
    }
  }

  lemma FewGet<C>(es: Touches<C>, shares: seq<real>, others: real, each: real, channel: C)
    requires 1 <= |es| == |shares| <= 2
    requires if |es| == 1 then shares[0] == 1.0 else shares[0] == shares[1] == 0.5
    ensures CreditOf(es, shares, channel) ==
            Positioned(|es|, Is(es[0], channel), Is(es[|es| - 1], channel), others, each)
  {
    CreditAfterFirst(es, shares, channel);
    if |es| == 2 {
      CreditAfterFirst(es[1..], shares[1..], channel);
    }
  }

  lemma EndsGet<C>(es: Touches<C>, shares: seq<real>, x: real, channel: C)
    requires |es| == |shares| >= 3 && shares[0] == shares[|es| - 1] == 0.4
    requires forall i :: 0 < i < |es| - 1 ==> shares[i] == x
    ensures CreditOf(es, shares, channel) ==
            Positioned(|es|, Is(es[0], channel), Is(es[|es| - 1], channel), Count(Between(es), channel) as real, x)
  {
    var middle := shares[1..|es| - 1];
    EndsAndMiddle(es, shares, channel);
    CreditOfEqual(Between(es), middle, x, channel);
  }

  lemma EndsAndMiddle<C>(es: Touches<C>, shares: seq<real>, channel: C)
    requires |es| == |shares| >= 3 && shares[0] == shares[|es| - 1] == 0.4
    ensures var n := |es| - 1;
            CreditOf(es, shares, channel) ==
            0.4 * Is(es[0], channel) + CreditOf(Between(es), shares[1..n], channel) + 0.4 * Is(es[n], channel)
  {
    var n := |es| - 1;
    CreditAfterFirst(es[..n], shares[..n], channel);
    assert es[..n][1..] == es[1..n] && shares[..n][1..] == shares[1..n];
  }
}
