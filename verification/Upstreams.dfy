/** The choice of an upstream for a matched route: canary rules, then a draw by weight. */
module Upstreams {
  import opened Prelude
  import Reals

  datatype Upstream = Upstream(id: string, weight: real, canary: bool)

  /** Header names are in lower case; an empty header or group counts as none. */
  datatype Rules = Rules(
    header: Option<string>, headerValue: Option<string>, group: Option<string>, percent: Option<real>)

  datatype Caller = Caller(headers: map<string, seq<string>>, group: Option<string>)

  predicate ByHeader(r: Rules, c: Caller) {
    r.header.Some? && r.header.value != "" && r.header.value in c.headers &&
    (r.headerValue == None || r.headerValue.value in c.headers[r.header.value])
  }

  predicate ByGroup(r: Rules, c: Caller) {
    r.group.Some? && r.group.value != "" && c.group == r.group
  }

  /** `roll` is the number drawn for the percentage, used when neither header nor group decides. */
  predicate WantsCanary(rules: Option<Rules>, c: Caller, roll: real) {
    rules.Some? &&
    (ByHeader(rules.value, c) || ByGroup(rules.value, c) ||
     (rules.value.percent.Some? && roll * 100.0 < rules.value.percent.value))
  }

  /**
   When a canary is wanted: never without rules; else when the request has the header asked for, with the value
   asked for if one is; when it is of the group; and otherwise on the draws below the percentage of one.
   */
  lemma CanaryWanted(r: Rules, c: Caller, roll: real)
    ensures !WantsCanary(None, c, roll)
    ensures WantsCanary(Some(r), c, roll) <==>
            (exists name: string :: r.header == Some(name) && |name| > 0 && name in c.headers &&
                                    forall v :: r.headerValue == Some(v) ==> v in c.headers[name]) ||
            (c.group.Some? && |c.group.value| > 0 && r.group == c.group) ||
            (r.percent.Some? && roll < r.percent.value / 100.0)
  {
    if r.header.Some? {
      assert r.header == Some(r.header.value);
    }
  }

  function OfKind(ups: seq<Upstream>, canary: bool): (r: seq<Upstream>)
    ensures forall u :: u in r <==> u in ups && u.canary == canary
  {
    if ups == [] then []
    else
      var front := OfKind(ups[..|ups| - 1], canary);
      if ups[|ups| - 1].canary == canary then front + [ups[|ups| - 1]] else front
  }

  /** `r` has the upstreams of a kind, each as often as it is there and in their order. */
  ghost predicate InOrder(ups: seq<Upstream>, canary: bool, at: seq<nat>, r: seq<Upstream>) {
    |at| == |r| && (forall i, j :: 0 <= i < j < |at| ==> at[i] < at[j]) &&
    (forall i :: 0 <= i < |at| ==> at[i] < |ups| && r[i] == ups[at[i]] && r[i].canary == canary) &&
    forall k :: 0 <= k < |ups| && ups[k].canary == canary ==> k in at
  }

  lemma OneMoreInOrder(ups: seq<Upstream>, u: Upstream, canary: bool, at: seq<nat>, r: seq<Upstream>)
    requires InOrder(ups, canary, at, r)
    ensures if u.canary == canary then InOrder(ups + [u], canary, at + [|ups|], r + [u])
            else InOrder(ups + [u], canary, at, r)
  {
    forall k | 0 <= k < |ups| && ups[k].canary == canary ensures k in at + [|ups|] {
      assert k in at;
    }
  }

  lemma {:induction false} KindsInOrder(ups: seq<Upstream>, canary: bool) returns (at: seq<nat>)
    ensures InOrder(ups, canary, at, OfKind(ups, canary))
  {
    at := [];
    if ups != [] {
      var front, u := ups[..|ups| - 1], ups[|ups| - 1];
      at := KindsInOrder(front, canary);
      OneMoreInOrder(front, u, canary, at, OfKind(front, canary));
      assert front + [u] == ups;
      at := if u.canary == canary then at + [|front|] else at;
    }
  }

  function Weight(pool: seq<Upstream>, n: nat): real
    requires n <= |pool|
  {
    if n == 0 then 0.0 else Weight(pool, n - 1) + pool[n - 1].weight
  }

  /** The point of the total weight that the draw `u` falls on. */
  function Drawn(u: real, total: real): real {
    u * total
  }

  lemma DrawnBelow(u: real, total: real)
    requires u < 1.0 && total > 0.0
    ensures Drawn(u, total) < total
  {
    Reals.MulStrict(total, u, 1.0);
  }

  /** The draw `u` falls on position `k`, or on the last one when it falls on none. */
  ghost predicate FallsOn(pool: seq<Upstream>, u: real, k: nat)
    requires k < |pool|
  {
    var point := Drawn(u, Weight(pool, |pool|));
    (forall j :: 0 < j <= k ==> Weight(pool, j) <= point) &&
    (k < |pool| - 1 || 0.0 < Weight(pool, |pool|) ==> point < Weight(pool, k + 1))
  }

  /** The weighted pick: `u` in [0, 1) selects the upstream whose share of the total it falls in. */
  method WeightedPick(pool: seq<Upstream>, u: real) returns (k: nat)
    requires pool != [] && 0.0 <= u < 1.0
    ensures k < |pool| && FallsOn(pool, u, k)
  {
    var total, i := 0.0, 0;
    while i < |pool|
      invariant 0 <= i <= |pool| && total == Weight(pool, i)
    {
      total, i := total + pool[i].weight, i + 1;
    }
    var roll := u * total;
    ghost var point := Drawn(u, total);
    if 0.0 < total {
      DrawnBelow(u, total);
    }
    k := 0;
    while k < |pool|
      invariant 0 <= k <= |pool| && roll == point - Weight(pool, k)
      invariant forall j :: 0 < j <= k ==> Weight(pool, j) <= point
    {
      roll := roll - pool[k].weight;
      if roll < 0.0 {
        return;
      }
      k := k + 1;
    }
    k := |pool| - 1;
  }

  lemma {:induction false} WeightGrows(pool: seq<Upstream>, i: nat, j: nat)
    requires i <= j <= |pool| && forall x :: x in pool ==> x.weight >= 0.0
    ensures Weight(pool, i) <= Weight(pool, j)
  {
    if i < j {
      WeightGrows(pool, i, j - 1);
      assert pool[j - 1] in pool;
    }
  }

  /** With weights that are not negative and not all zero, each upstream gets the stretch of draws that is its share. */
  lemma PickIsProportional(pool: seq<Upstream>, u: real, k: nat)
    requires k < |pool| && 0.0 <= u < 1.0 && 0.0 < Weight(pool, |pool|)
    requires forall x :: x in pool ==> x.weight >= 0.0
    ensures FallsOn(pool, u, k) <==>
            Weight(pool, k) <= Drawn(u, Weight(pool, |pool|)) < Weight(pool, k) + pool[k].weight
  {
    var total := Weight(pool, |pool|);
    Reals.MulNonNeg(u, total);
    forall j | 0 < j <= k ensures Weight(pool, j) <= Weight(pool, k) {
      WeightGrows(pool, j, k);
    }
    assert Weight(pool, k + 1) == Weight(pool, k) + pool[k].weight;
  }

  /** The upstreams the pick is made among, once there is more than one. */
  function Pool(ups: seq<Upstream>, wanted: bool): seq<Upstream> {
    var canaries, stable := OfKind(ups, true), OfKind(ups, false);
    if wanted && canaries != [] then canaries else if stable != [] then stable else ups
  }

  ghost predicate HasKind(ups: seq<Upstream>, canary: bool) {
    exists u :: u in ups && u.canary == canary
  }

  lemma NoneOfKind(ups: seq<Upstream>, canary: bool)
    ensures OfKind(ups, canary) == [] <==> !HasKind(ups, canary)
  {
    var r := OfKind(ups, canary);
    if r != [] {
      assert r[0] in r;
    }
  }

  /**
   A canary where one is wanted and there is one, or where there is nothing else; any upstream of a pool may
   come up.
   */
  lemma PoolIs(ups: seq<Upstream>, wanted: bool)
    requires ups != []
    ensures Pool(ups, wanted) != []
    ensures forall u :: u in Pool(ups, wanted) <==>
              u in ups && (u.canary <==> HasKind(ups, true) && (wanted || !HasKind(ups, false)))
  {
    NoneOfKind(ups, true);
    NoneOfKind(ups, false);
    assert ups[0] in ups && HasKind(ups, ups[0].canary);
  }

  /** `draw` is the number drawn for the pick. */
  method Select(
    ups: seq<Upstream>, rules: Option<Rules>, c: Caller, roll: real, draw: real) returns (u: Option<Upstream>)
    requires 0.0 <= draw < 1.0
    ensures u == None <==> ups == []
    ensures |ups| == 1 ==> u == Some(ups[0])
    ensures |ups| > 1 ==>
              var pool := Pool(ups, WantsCanary(rules, c, roll));
              exists k :: 0 <= k < |pool| && FallsOn(pool, draw, k) && u == Some(pool[k])
  {
    if |ups| == 0 {
      return None;
    }
    if |ups| == 1 {
      return Some(ups[0]);
    }
    var canaries, stable := OfKind(ups, true), OfKind(ups, false);
    var wanted := false;
    if rules.Some? && |canaries| > 0 {
      wanted := ByHeader(rules.value, c);
      if !wanted && ByGroup(rules.value, c) {
        wanted := true;
      }
      if !wanted && rules.value.percent.Some? {
        wanted := roll * 100.0 < rules.value.percent.value;
      }
    }
    var pool := if wanted && |canaries| > 0 then canaries else if |stable| > 0 then stable else ups;
    PoolIs(ups, WantsCanary(rules, c, roll));
    assert pool == Pool(ups, WantsCanary(rules, c, roll));
    var k := WeightedPick(pool, draw);
    u := Some(pool[k]);
  }
}
