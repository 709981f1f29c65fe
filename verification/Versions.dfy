/**
 Comparing API versions: split at the dots, component by component.

 Two components that both read as numbers compare as numbers, any others as texts.  `CircleExactly` says
 when that is an order on three components and when it runs in a circle.
 */
module Versions {
  import opened Prelude

  /** What a component reads as when it is converted to a number; None is not a number. */
  type Reading = string -> Option<real>

  predicate TextLess(s: string, t: string)
    decreases |s|
  {
    if t == "" then false
    else if s == "" then true
    else s[0] < t[0] || (s[0] == t[0] && TextLess(s[1..], t[1..]))
  }

  /** Negative, zero or positive, as a three-way comparison answers. */
  type Sign = x: int | -1 <= x <= 1

  function Minus(x: Sign): Sign {
    -x
  }

  function CompareParts(num: Reading, s: string, t: string): Sign {
    if num(s).Some? && num(t).Some? then
      if num(s).value < num(t).value then -1 else if num(s).value > num(t).value then 1 else 0
    else if s == t then 0
    else if TextLess(s, t) then -1
    else 1
  }

  /** The component at position `i`, "0" past the end. */
  function PartAt(v: seq<string>, i: nat): string {
    if i < |v| then v[i] else "0"
  }

  function CompareFrom(num: Reading, a: seq<string>, b: seq<string>, i: nat): Sign
    decreases |a| + |b| - i
  {
    if i >= |a| && i >= |b| then 0
    else if CompareParts(num, PartAt(a, i), PartAt(b, i)) != 0 then CompareParts(num, PartAt(a, i), PartAt(b, i))
    else CompareFrom(num, a, b, i + 1)
  }

  /** The loop over the components; versions come split at their dots. */
  method Compare(num: Reading, a: seq<string>, b: seq<string>) returns (r: Sign)
    ensures r == CompareFrom(num, a, b, 0)
  {
    var n := if |a| >= |b| then |a| else |b|;
    var i := 0;
    while i < n
      invariant 0 <= i <= n
      invariant CompareFrom(num, a, b, 0) == CompareFrom(num, a, b, i)
    {
      var s, t := PartAt(a, i), PartAt(b, i);
      if num(s).Some? && num(t).Some? {
        if num(s).value != num(t).value {
          return if num(s).value < num(t).value then -1 else 1;
        }
      } else if s != t {
        return if TextLess(s, t) then -1 else 1;
      }
      i := i + 1;
    }
    return 0;
  }

  // ---------------------------------------------------------------- constraints

  datatype Constraint = Constraint(
    fallback: Option<seq<string>>, needed: bool, exact: Option<seq<string>>,
    least: Option<seq<string>>, most: Option<seq<string>>)

  predicate Satisfies(num: Reading, version: Option<seq<string>>, constraint: Option<Constraint>) {
    constraint == None ||
    var c := constraint.value;
    var v := if version.Some? then version else c.fallback;
    if v == None then !c.needed
    else
      (c.exact.Some? ==> CompareFrom(num, v.value, c.exact.value, 0) == 0) &&
      (c.least.Some? ==> CompareFrom(num, v.value, c.least.value, 0) >= 0) &&
      (c.most.Some? ==> CompareFrom(num, v.value, c.most.value, 0) <= 0)
  }

  // ---------------------------------------------------------------- texts are ordered

  lemma {:induction false} TextOrderIsStrict(s: string, t: string)
    ensures !(TextLess(s, t) && TextLess(t, s)) && (s != t ==> TextLess(s, t) || TextLess(t, s)) && !TextLess(s, s)
    decreases |s|
  {
    if s != "" {
      TextOrderIsStrict(s[1..], s[1..]);
      if t != "" && s[0] == t[0] {
        TextOrderIsStrict(s[1..], t[1..]);
        assert s == [s[0]] + s[1..] && t == [t[0]] + t[1..];
      }
    }
  }

  lemma {:induction false} TextOrderIsTransitive(s: string, t: string, u: string)
    requires TextLess(s, t) && TextLess(t, u)
    ensures TextLess(s, u)
    decreases |s|
  {
    if s != "" && s[0] == t[0] == u[0] {
      TextOrderIsTransitive(s[1..], t[1..], u[1..]);
    }
  }

  /** Swapping the two versions swaps the answer. */
  lemma {:induction false} CompareSwaps(num: Reading, a: seq<string>, b: seq<string>, i: nat)
    ensures CompareFrom(num, b, a, i) == Minus(CompareFrom(num, a, b, i))
    decreases |a| + |b| - i
  {
    TextOrderIsStrict(PartAt(a, i), PartAt(b, i));
    if i < |a| || i < |b| {
      CompareSwaps(num, a, b, i + 1);
    }
  }

  /** A version is the same as itself with further zeros. */
  lemma {:induction false} TrailingZeros(num: Reading, a: seq<string>, b: seq<string>, i: nat)
    ensures CompareFrom(num, a + ["0"], b, i) == CompareFrom(num, a, b, i)
    decreases |a| + |b| + 1 - i
  {
    assert PartAt(a + ["0"], i) == PartAt(a, i);
    if i < |a| + 1 || i < |b| {
      TrailingZeros(num, a, b, i + 1);
    }
    if i >= |a| && i >= |b| {
      assert CompareFrom(num, a + ["0"], b, i + 1) == 0;
    }
  }

  // ---------------------------------------------------------------- before, the same, after

  /** Two components that are the same number, or the same text when they are not both numbers. */
  predicate Alike(num: Reading, s: string, t: string) {
    if num(s).Some? && num(t).Some? then num(s).value == num(t).value else s == t
  }

  predicate Lower(num: Reading, s: string, t: string) {
    if num(s).Some? && num(t).Some? then num(s).value < num(t).value else TextLess(s, t)
  }

  /** The versions are the same up to component `i`, where the first is lower. */
  ghost predicate BeforeAt(num: Reading, a: seq<string>, b: seq<string>, i: nat) {
    Lower(num, PartAt(a, i), PartAt(b, i)) && forall j: nat :: j < i ==> Alike(num, PartAt(a, j), PartAt(b, j))
  }

  ghost predicate Before(num: Reading, a: seq<string>, b: seq<string>) {
    exists i: nat :: BeforeAt(num, a, b, i)
  }

  /** Component by component the same, a missing one counting as 0. */
  ghost predicate Same(num: Reading, a: seq<string>, b: seq<string>) {
    forall i: nat :: Alike(num, PartAt(a, i), PartAt(b, i))
  }

  lemma PartsCompare(num: Reading, s: string, t: string)
    ensures CompareParts(num, s, t) == -1 <==> Lower(num, s, t)
    ensures CompareParts(num, s, t) == 1 <==> Lower(num, t, s)
    ensures CompareParts(num, s, t) == 0 <==> Alike(num, s, t)
  {
    TextOrderIsStrict(s, t);
  }

  /** The first component that is not alike, if there is one. */
  lemma {:induction false} DecidedAt(num: Reading, a: seq<string>, b: seq<string>, i: nat) returns (k: nat)
    requires forall j: nat :: j < i ==> Alike(num, PartAt(a, j), PartAt(b, j))
    ensures CompareFrom(num, a, b, i) == CompareParts(num, PartAt(a, k), PartAt(b, k))
    ensures forall j: nat :: j < k ==> Alike(num, PartAt(a, j), PartAt(b, j))
    ensures CompareFrom(num, a, b, i) == 0 ==> Same(num, a, b)
    decreases |a| + |b| - i
  {
    PartsCompare(num, PartAt(a, i), PartAt(b, i));
    if i >= |a| && i >= |b| {
      k := i;
      assert Same(num, a, b) by {
        forall j: nat ensures Alike(num, PartAt(a, j), PartAt(b, j)) {
          if j >= i {
            assert PartAt(a, j) == PartAt(b, j) == "0";
          }
        }
      }
    } else if CompareParts(num, PartAt(a, i), PartAt(b, i)) != 0 {
      k := i;
    } else {
      k := DecidedAt(num, a, b, i + 1);
    }
  }

  lemma OneOrTheOther(num: Reading, a: seq<string>, b: seq<string>, i: nat, k: nat)
    requires BeforeAt(num, a, b, i) && forall j: nat :: j < k ==> Alike(num, PartAt(a, j), PartAt(b, j))
    requires !Alike(num, PartAt(a, k), PartAt(b, k))
    ensures i == k
  {
    PartsCompare(num, PartAt(a, i), PartAt(b, i));
  }

  lemma AlikeSwaps(num: Reading, a: seq<string>, b: seq<string>, k: nat)
    requires forall j: nat :: j < k ==> Alike(num, PartAt(a, j), PartAt(b, j))
    ensures forall j: nat :: j < k ==> Alike(num, PartAt(b, j), PartAt(a, j))
  {
  }

  lemma NotBothWays(num: Reading, a: seq<string>, b: seq<string>, i: nat)
    requires BeforeAt(num, a, b, i)
    ensures !Same(num, a, b) && !Same(num, b, a)
  {
    PartsCompare(num, PartAt(a, i), PartAt(b, i));
    PartsCompare(num, PartAt(b, i), PartAt(a, i));
  }

  /** The comparison says which of two versions comes first, by the first component in which they differ. */
  lemma CompareTells(num: Reading, a: seq<string>, b: seq<string>)
    ensures CompareFrom(num, a, b, 0) == -1 <==> Before(num, a, b)
    ensures CompareFrom(num, a, b, 0) == 1 <==> Before(num, b, a)
    ensures CompareFrom(num, a, b, 0) == 0 <==> Same(num, a, b)
  {
    var k := DecidedAt(num, a, b, 0);
    PartsCompare(num, PartAt(a, k), PartAt(b, k));
    PartsCompare(num, PartAt(b, k), PartAt(a, k));
    AlikeSwaps(num, a, b, k);
    if Lower(num, PartAt(a, k), PartAt(b, k)) {
      assert BeforeAt(num, a, b, k);
    }
    if Lower(num, PartAt(b, k), PartAt(a, k)) {
      assert BeforeAt(num, b, a, k);
    }
    if i: nat :| BeforeAt(num, a, b, i) {
      NotBothWays(num, a, b, i);
      OneOrTheOther(num, a, b, i, k);
    }
    if i: nat :| BeforeAt(num, b, a, i) {
      NotBothWays(num, b, a, i);
      OneOrTheOther(num, b, a, i, k);
    }
  }

  /** A version meets a constraint exactly when it is the one asked for, not before the least, not after the most. */
  lemma MeetsBounds(num: Reading, v: seq<string>, c: Constraint)
    ensures Satisfies(num, Some(v), Some(c)) <==>
            (c.exact.Some? ==> Same(num, v, c.exact.value)) &&
            (c.least.Some? ==> !Before(num, v, c.least.value)) &&
            (c.most.Some? ==> !Before(num, c.most.value, v))
  {
    if c.exact.Some? {
      CompareTells(num, v, c.exact.value);
    }
    if c.least.Some? {
      CompareTells(num, v, c.least.value);
    }
    if c.most.Some? {
      CompareTells(num, v, c.most.value);
    }
  }

  /** A version meets bounds that it is itself. */
  lemma BoundsAreMet(num: Reading, v: seq<string>, fallback: Option<seq<string>>, needed: bool)
    ensures Satisfies(num, Some(v), Some(Constraint(fallback, needed, Some(v), Some(v), Some(v))))
  {
    assert Same(num, v, v);
    CompareTells(num, v, v);
  }

  /** A request without a version is taken at the fallback; without one it passes unless a version is needed. */
  lemma WithoutVersion(num: Reading, c: Constraint)
    ensures Satisfies(num, None, Some(c)) <==>
            if c.fallback.Some? then Satisfies(num, c.fallback, Some(c)) else !c.needed
    ensures Satisfies(num, None, None) && (c.fallback.Some? ==> Satisfies(num, c.fallback, None))
  {
  }

  // ---------------------------------------------------------------- an order or a circle

  predicate AtMost(num: Reading, s: string, t: string) {
    CompareParts(num, s, t) <= 0
  }

  /** On these three components the comparison is transitive, whichever way they are taken. */
  predicate Transitive(num: Reading, s: string, t: string, u: string) {
    Chains(num, s, t, u) && Chains(num, s, u, t) && Chains(num, t, s, u) &&
    Chains(num, t, u, s) && Chains(num, u, s, t) && Chains(num, u, t, s)
  }

  predicate Chains(num: Reading, s: string, t: string, u: string) {
    AtMost(num, s, t) && AtMost(num, t, u) ==> AtMost(num, s, u)
  }

  /** Two numbers and a word between their texts, though not between the numbers. */
  predicate WordBetween(num: Reading, x: string, y: string, w: string) {
    num(x).Some? && num(y).Some? && num(w) == None &&
    ((num(x).value <= num(y).value && TextLess(y, w) && TextLess(w, x)) ||
     (num(y).value <= num(x).value && TextLess(x, w) && TextLess(w, y)))
  }

  lemma WordAmongNumbers(num: Reading, x: string, y: string, w: string)
    requires num(x).Some? && num(y).Some? && num(w) == None
    ensures Transitive(num, x, y, w) <==> !WordBetween(num, x, y, w)
  {
    TextOrderIsStrict(x, w);
    TextOrderIsStrict(y, w);
  }

  lemma WordsWithNumber(num: Reading, x: string, v: string, w: string)
    requires num(v) == None && num(w) == None
    ensures Transitive(num, x, v, w)
  {
    AllOrders(x, v, w);
  }

  /** Any three texts are in order one way or another. */
  lemma AllOrders(s: string, t: string, u: string)
    ensures TextLess(s, t) && TextLess(t, u) ==> TextLess(s, u)
    ensures TextLess(s, u) && TextLess(u, t) ==> TextLess(s, t)
    ensures TextLess(t, s) && TextLess(s, u) ==> TextLess(t, u)
    ensures TextLess(t, u) && TextLess(u, s) ==> TextLess(t, s)
    ensures TextLess(u, s) && TextLess(s, t) ==> TextLess(u, t)
    ensures TextLess(u, t) && TextLess(t, s) ==> TextLess(u, s)
    ensures (s == t || TextLess(s, t) || TextLess(t, s)) && !(TextLess(s, t) && TextLess(t, s)) && !TextLess(s, s)
    ensures (t == u || TextLess(t, u) || TextLess(u, t)) && !(TextLess(t, u) && TextLess(u, t)) && !TextLess(t, t)
    ensures (s == u || TextLess(s, u) || TextLess(u, s)) && !(TextLess(s, u) && TextLess(u, s)) && !TextLess(u, u)
  {
    TextOrderIsStrict(s, t);
    TextOrderIsStrict(t, u);
    TextOrderIsStrict(s, u);
    TextOrderIsStrict(u, u);
    forall a, b, c | a in {s, t, u} && b in {s, t, u} && c in {s, t, u} && TextLess(a, b) && TextLess(b, c)
      ensures TextLess(a, c)
    {
      TextOrderIsTransitive(a, b, c);
    }
  }

  /**
   The comparison is an order on three components exactly when none of them is a word between the texts of
   the two numbers, out of place.
   */
  lemma CircleExactly(num: Reading, s: string, t: string, u: string)
    ensures Transitive(num, s, t, u) <==>
            !WordBetween(num, s, t, u) && !WordBetween(num, s, u, t) && !WordBetween(num, t, u, s)
  {
    if num(s).Some? && num(t).Some? {
      if num(u) == None {
        WordAmongNumbers(num, s, t, u);
      }
    } else if num(s).Some? && num(u).Some? {
      WordAmongNumbers(num, s, u, t);
    } else if num(t).Some? && num(u).Some? {
      WordAmongNumbers(num, t, u, s);
    } else if num(s) == None && num(t) == None {
      WordsWithNumber(num, u, s, t);
    } else if num(s) == None {
      WordsWithNumber(num, t, s, u);
    } else {
      WordsWithNumber(num, s, t, u);
    }
  }

  /** 9 is below 10 as a number, and 10, 1a and 9 are in order as texts. */
  lemma CircleExample(num: Reading)
    requires num("10") == Some(10.0) && num("9") == Some(9.0) && num("1a") == None
    ensures CompareFrom(num, ["9"], ["10"], 0) == -1 && CompareFrom(num, ["10"], ["1a"], 0) == -1 &&
            CompareFrom(num, ["1a"], ["9"], 0) == -1
  {
    assert TextLess("10", "1a") && TextLess("1a", "9") by {
      assert "10"[1..] == "0" && "1a"[1..] == "a";
    }
  }
}
