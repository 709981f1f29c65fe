/** Time-stamped items in stable time order: insertion, sorting, and what makes the result unique. */
module StableSort {
  datatype Stamped<T> = Stamped(ts: int, item: T)

  predicate Sorted<T>(s: seq<Stamped<T>>) {
    forall i, j :: 0 <= i < j < |s| ==> s[i].ts <= s[j].ts
  }

  /** `x` goes after everything that is not later. */
  function Inserted<T>(s: seq<Stamped<T>>, x: Stamped<T>): (r: seq<Stamped<T>>)
    ensures |r| == |s| + 1
  {
    if s == [] || s[|s| - 1].ts <= x.ts then s + [x]
    else Inserted(s[..|s| - 1], x) + [s[|s| - 1]]
  }

  function SortOf<T>(s: seq<Stamped<T>>): (r: seq<Stamped<T>>)
    ensures |r| == |s|
  {
    if s == [] then [] else Inserted(SortOf(s[..|s| - 1]), s[|s| - 1])
  }

  /** The items of one time, in order. */
  function At<T>(s: seq<Stamped<T>>, t: int): seq<Stamped<T>> {
    if s == [] then []
    else At(s[..|s| - 1], t) + if s[|s| - 1].ts == t then [s[|s| - 1]] else []
  }

  lemma {:induction false} AtSnoc<T>(s: seq<Stamped<T>>, x: Stamped<T>, t: int)
    ensures At(s + [x], t) == At(s, t) + if x.ts == t then [x] else []
  {
    assert (s + [x])[..|s|] == s;
  }

  lemma {:induction false} AtConcat<T>(a: seq<Stamped<T>>, b: seq<Stamped<T>>, t: int)
    ensures At(a + b, t) == At(a, t) + At(b, t)
  {
    if b == [] {
      assert a + b == a;
    } else {
      AtConcat(a, b[..|b| - 1], t);
      assert (a + b)[..|a + b| - 1] == a + b[..|b| - 1];
    }
  }

  /** Where an insertion splits the sequence: before it nothing later, after it only later items. */
  lemma {:induction false} InsertSplits<T>(s: seq<Stamped<T>>, x: Stamped<T>, k: nat)
    requires k <= |s| && (forall i :: k <= i < |s| ==> s[i].ts > x.ts) && (k > 0 ==> s[k - 1].ts <= x.ts)
    ensures Inserted(s, x) == s[..k] + [x] + s[k..]
  {
    if k == |s| {
      assert s[..k] == s;
    } else {
      var front := s[..|s| - 1];
      InsertSplits(front, x, k);
      assert front[..k] == s[..k] && front[k..] + [s[|s| - 1]] == s[k..];
    }
  }

  function Place<T>(s: seq<Stamped<T>>, x: Stamped<T>): (k: nat)
    ensures k <= |s| && (forall i :: k <= i < |s| ==> s[i].ts > x.ts) && (k > 0 ==> s[k - 1].ts <= x.ts)
  {
    if s == [] || s[|s| - 1].ts <= x.ts then |s| else Place(s[..|s| - 1], x)
  }

  lemma {:induction false} InsertKeepsOrder<T>(s: seq<Stamped<T>>, x: Stamped<T>)
    requires Sorted(s)
    ensures Sorted(Inserted(s, x))
  {
    InsertSplits(s, x, Place(s, x));
  }

  /** Only the items of x's own time gain x, at the end. */
  lemma {:induction false} InsertAt<T>(s: seq<Stamped<T>>, x: Stamped<T>, t: int)
    requires Sorted(s)
    ensures At(Inserted(s, x), t) == At(s, t) + if x.ts == t then [x] else []
  {
    if s == [] || s[|s| - 1].ts <= x.ts {
      AtSnoc(s, x, t);
    } else {
      var front, last := s[..|s| - 1], s[|s| - 1];
      InsertAt(front, x, t);
      AtSnoc(Inserted(front, x), last, t);
      if x.ts == t {
        assert last.ts != t;
      }
    }
  }

  lemma {:induction false} SortIsStable<T>(s: seq<Stamped<T>>, t: int)
    ensures Sorted(SortOf(s)) && At(SortOf(s), t) == At(s, t)
  {
    if s != [] {
      SortIsStable(s[..|s| - 1], t);
      InsertKeepsOrder(SortOf(s[..|s| - 1]), s[|s| - 1]);
      InsertAt(SortOf(s[..|s| - 1]), s[|s| - 1], t);
    }
  }

  /** Same items at every time. */
  ghost predicate SameAt<T>(a: seq<Stamped<T>>, b: seq<Stamped<T>>) {
    forall t :: At(a, t) == At(b, t)
  }

  lemma {:induction false} NoneAt<T>(s: seq<Stamped<T>>, t: int)
    ensures (At(s, t) == [] <==> forall i :: 0 <= i < |s| ==> s[i].ts != t)
  {
    if s != [] {
      NoneAt(s[..|s| - 1], t);
      assert forall i :: 0 <= i < |s| - 1 ==> s[..|s| - 1][i] == s[i];
    }
  }

  /** Time order and stability leave one possibility. */
  lemma {:induction false} StableSortUnique<T>(a: seq<Stamped<T>>, b: seq<Stamped<T>>)
    requires Sorted(a) && Sorted(b) && SameAt(a, b)
    ensures a == b
    decreases |a|
  {
    if a == [] || b == [] {
      if a != b {
        var t := (a + b)[0].ts;
        NoneAt(a, t);
        NoneAt(b, t);
      }
    } else {
      var x, y := a[|a| - 1], b[|b| - 1];
      var front, front' := a[..|a| - 1], b[..|b| - 1];
      NoneAt(a, x.ts);
      NoneAt(b, x.ts);
      NoneAt(a, y.ts);
      NoneAt(b, y.ts);
      assert At(a, x.ts) == At(b, x.ts) && At(a, y.ts) == At(b, y.ts);
      assert x.ts == y.ts;
      assert At(a, x.ts)[|At(a, x.ts)| - 1] == x && At(b, x.ts)[|At(b, x.ts)| - 1] == y;
      forall t ensures At(front, t) == At(front', t) {
        assert At(a, t) == At(b, t);
        var tail := if x.ts == t then [x] else [];
        assert At(front, t) + tail == At(front', t) + tail;
        DropTail(At(front, t), At(front', t), tail);
      }
      StableSortUnique(front, front');
      assert a == front + [x] && b == front' + [y];
    }
  }

  lemma DropTail<T>(a: seq<T>, b: seq<T>, tail: seq<T>)
    requires a + tail == b + tail
    ensures a == b
  {
    assert |a| == |b|;
    assert (a + tail)[..|a|] == a && (b + tail)[..|a|] == b;
  }

  /** Sorting what was already partly sorted gives what sorting everything at the end would. */
  lemma {:induction false} SortAgain<T>(held: seq<Stamped<T>>, arrived: seq<Stamped<T>>)
    requires SameAt(held, arrived)
    ensures SortOf(held) == SortOf(arrived)
    ensures Sorted(held) ==> held == SortOf(arrived)
  {
    forall t ensures At(SortOf(held), t) == At(SortOf(arrived), t) && At(held, t) == At(SortOf(arrived), t) {
      SortIsStable(held, t);
      SortIsStable(arrived, t);
      assert At(held, t) == At(arrived, t);
    }
    SortIsStable(held, 0);
    SortIsStable(arrived, 0);
    StableSortUnique(SortOf(held), SortOf(arrived));
    if Sorted(held) {
      StableSortUnique(held, SortOf(arrived));
    }
  }

  lemma {:induction false} InsertBag<T>(s: seq<Stamped<T>>, x: Stamped<T>)
    ensures multiset(Inserted(s, x)) == multiset(s) + multiset{x}
  {
    if s != [] && s[|s| - 1].ts > x.ts {
      InsertBag(s[..|s| - 1], x);
      assert s == s[..|s| - 1] + [s[|s| - 1]];
    }
  }

  lemma {:induction false} SortBag<T>(s: seq<Stamped<T>>)
    ensures multiset(SortOf(s)) == multiset(s)
  {
    if s != [] {
      SortBag(s[..|s| - 1]);
      InsertBag(SortOf(s[..|s| - 1]), s[|s| - 1]);
      assert s == s[..|s| - 1] + [s[|s| - 1]];
    }
  }
}
