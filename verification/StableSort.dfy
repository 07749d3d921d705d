/**
 Python's `sorted` is a stable sort. Every core below that orders rows, ledger
 points, indices or bootstrap means goes through this one function, so the facts
 about stability and uniqueness are proved once.
 */
module StableSort {

  ghost predicate TotalPreorder<T(!new)>(le: (T, T) -> bool) {
    && (forall x, y :: le(x, y) || le(y, x))
    && (forall x, y, z :: le(x, y) && le(y, z) ==> le(x, z))
  }

  ghost predicate Sorted<T>(s: seq<T>, le: (T, T) -> bool) {
    forall i, j :: 0 <= i < j < |s| ==> le(s[i], s[j])
  }

  /** Puts x behind every element that does not have to follow it. */
  function Insert<T>(s: seq<T>, x: T, le: (T, T) -> bool): (r: seq<T>)
    ensures multiset(r) == multiset(s) + multiset{x}
    ensures |r| == |s| + 1
  {
    if s == [] then [x]
    else if le(s[|s| - 1], x) then s + [x]
    else
      var front := s[..|s| - 1];
      assert s == front + [s[|s| - 1]];
      Insert(front, x, le) + [s[|s| - 1]]
  }

  function Sort<T>(s: seq<T>, le: (T, T) -> bool): (r: seq<T>)
    ensures multiset(r) == multiset(s)
    ensures |r| == |s|
  {
    if s == [] then []
    else
      assert s == s[..|s| - 1] + [s[|s| - 1]];
      Insert(Sort(s[..|s| - 1], le), s[|s| - 1], le)
  }

  lemma {:induction false} InsertKeepsOrder<T(!new)>(s: seq<T>, x: T, le: (T, T) -> bool)
    requires TotalPreorder(le) && Sorted(s, le)
    ensures Sorted(Insert(s, x, le), le)
  {
    if s != [] && !le(s[|s| - 1], x) {
      var front, last := s[..|s| - 1], s[|s| - 1];
      InsertKeepsOrder(front, x, le);
      var r := Insert(front, x, le);
      forall i | 0 <= i < |r| ensures le(r[i], last) {
        assert r[i] in multiset(r);
        assert r[i] == x || r[i] in front;
      }
    } else if s != [] {
      forall i | 0 <= i < |s| ensures le(s[i], x) {
        assert i == |s| - 1 || le(s[i], s[|s| - 1]);
      }
    }
  }

  lemma {:induction false} SortOrders<T(!new)>(s: seq<T>, le: (T, T) -> bool)
    requires TotalPreorder(le)
    ensures Sorted(Sort(s, le), le)
  {
    if s != [] {
      SortOrders(s[..|s| - 1], le);
      InsertKeepsOrder(Sort(s[..|s| - 1], le), s[|s| - 1], le);
    }
  }

  function Filter<T>(s: seq<T>, keep: T -> bool): (r: seq<T>) {
    if s == [] then []
    else
      var front := Filter(s[..|s| - 1], keep);
      if keep(s[|s| - 1]) then front + [s[|s| - 1]] else front
  }

  lemma FilterPush<T>(s: seq<T>, x: T, keep: T -> bool)
    ensures Filter(s + [x], keep) == if keep(x) then Filter(s, keep) + [x] else Filter(s, keep)
  {
    assert (s + [x])[..|s|] == s;
  }

  lemma InsertAtEnd<T>(s: seq<T>, x: T, le: (T, T) -> bool)
    requires s != [] ==> le(s[|s| - 1], x)
    ensures Insert(s, x, le) == s + [x]
  {
  }

  lemma InsertBefore<T>(s: seq<T>, last: T, x: T, le: (T, T) -> bool)
    requires !le(last, x)
    ensures Insert(s + [last], x, le) == Insert(s, x, le) + [last]
  {
    assert (s + [last])[..|s|] == s;
  }

  lemma {:induction false} InsertThenFilter<T(!new)>(s: seq<T>, x: T, le: (T, T) -> bool, keep: T -> bool)
    requires TotalPreorder(le) && Sorted(s, le)
    ensures Filter(Insert(s, x, le), keep)
         == if keep(x) then Insert(Filter(s, keep), x, le) else Filter(s, keep)
  {
    if s == [] || le(s[|s| - 1], x) {
      InsertAtEnd(s, x, le);
      FilterPush(s, x, keep);
      InsertAtEndOfFiltered(s, x, le, keep);
    } else {
      var front, last := s[..|s| - 1], s[|s| - 1];
      assert s == front + [last];
      InsertBefore(front, last, x, le);
      InsertThenFilter(front, x, le, keep);
      FilterPush(Insert(front, x, le), last, keep);
      FilterPush(front, last, keep);
      if keep(last) {
        InsertBefore(Filter(front, keep), last, x, le);
      }
    }
  }

  /** What survives a filter of a sorted list ends no later than the list did. */
  lemma FilterLast<T>(s: seq<T>, le: (T, T) -> bool, keep: T -> bool)
    requires Sorted(s, le)
    ensures var f := Filter(s, keep); f != [] ==> f[|f| - 1] == s[|s| - 1] || le(f[|f| - 1], s[|s| - 1])
  {
    var f := Filter(s, keep);
    if f != [] {
      InFilter(s, keep, f[|f| - 1]);
      var i :| 0 <= i < |s| && s[i] == f[|f| - 1];
      assert i == |s| - 1 || le(s[i], s[|s| - 1]);
    }
  }

  lemma InsertAtEndOfFiltered<T(!new)>(s: seq<T>, x: T, le: (T, T) -> bool, keep: T -> bool)
    requires TotalPreorder(le) && Sorted(s, le)
    requires s != [] ==> le(s[|s| - 1], x)
    ensures Insert(Filter(s, keep), x, le) == Filter(s, keep) + [x]
  {
    FilterLast(s, le, keep);
    var f := Filter(s, keep);
    if f != [] {
      assert le(f[|f| - 1], x);
    }
    InsertAtEnd(f, x, le);
  }

  lemma {:induction false} InFilter<T>(s: seq<T>, keep: T -> bool, x: T)
    ensures x in Filter(s, keep) <==> x in s && keep(x)
  {
    if s != [] {
      InFilter(s[..|s| - 1], keep, x);
      assert s == s[..|s| - 1] + [s[|s| - 1]];
    }
  }

  /** Stability, in its strongest form: sorting commutes with dropping elements. */
  lemma {:induction false} SortCommutesWithFilter<T(!new)>(s: seq<T>, le: (T, T) -> bool, keep: T -> bool)
    requires TotalPreorder(le)
    ensures Filter(Sort(s, le), keep) == Sort(Filter(s, keep), le)
  {
    if s != [] {
      var front, last := s[..|s| - 1], s[|s| - 1];
      SortCommutesWithFilter(front, le, keep);
      SortOrders(front, le);
      InsertThenFilter(Sort(front, le), last, le, keep);
      if keep(last) {
        var f := Filter(front, keep);
        assert (f + [last])[..|f|] == f;
      }
    }
  }

  function Map<A, B>(s: seq<A>, f: A -> B): (r: seq<B>)
    ensures |r| == |s| && forall i :: 0 <= i < |s| ==> r[i] == f(s[i])
  {
    seq(|s|, i requires 0 <= i < |s| => f(s[i]))
  }

  lemma MultisetWithout<T>(s: seq<T>, i: nat)
    requires i < |s|
    ensures multiset(s[..i] + s[i + 1..]) == multiset(s) - multiset{s[i]}
  {
    assert s == s[..i] + [s[i]] + s[i + 1..];
  }

  lemma MapWithout<A, B>(s: seq<A>, f: A -> B, i: nat)
    requires i < |s|
    ensures multiset(Map(s, f)) == multiset(Map(s[..i] + s[i + 1..], f)) + multiset{f(s[i])}
  {
    var m := Map(s, f);
    MultisetWithout(m, i);
    assert m[..i] + m[i + 1..] == Map(s[..i] + s[i + 1..], f);
    assert m[i] in multiset(m);
  }

  /** Mapping two lists with the same elements gives two lists with the same elements. */
  lemma {:induction false} MapKeepsMultiset<A, B>(s: seq<A>, t: seq<A>, f: A -> B)
    requires multiset(s) == multiset(t)
    ensures multiset(Map(s, f)) == multiset(Map(t, f))
  {
    assert |multiset(s)| == |s| && |multiset(t)| == |t|;
    if s != [] {
      assert s[0] in multiset(t);
      var i :| 0 <= i < |t| && t[i] == s[0];
      var s0, t0 := s[..0] + s[1..], t[..i] + t[i + 1..];
      assert multiset(s0) == multiset(t0) by {
        MultisetWithout(s, 0);
        MultisetWithout(t, i);
      }
      assert multiset(Map(s, f)) == multiset(Map(s0, f)) + multiset{f(s[0])} by { MapWithout(s, f, 0); }
      assert multiset(Map(t, f)) == multiset(Map(t0, f)) + multiset{f(s[0])} by { MapWithout(t, f, i); }
      MapKeepsMultiset(s0, t0, f);
    }
  }

  /** f carries the order le over to le2. */
  ghost predicate KeepsOrder<A(!new), B>(le: (A, A) -> bool, le2: (B, B) -> bool, f: A -> B) {
    forall a, b :: le2(f(a), f(b)) == le(a, b)
  }

  lemma MapPush<A, B>(s: seq<A>, x: A, f: A -> B)
    ensures Map(s + [x], f) == Map(s, f) + [f(x)]
  {
  }

  lemma {:induction false} InsertThenMap<A(!new), B>(s: seq<A>, x: A, le: (A, A) -> bool, le2: (B, B) -> bool, f: A -> B)
    requires KeepsOrder(le, le2, f)
    ensures Map(Insert(s, x, le), f) == Insert(Map(s, f), f(x), le2)
  {
    if s != [] {
      var front, last := s[..|s| - 1], s[|s| - 1];
      assert le2(f(last), f(x)) == le(last, x);
      assert s == front + [last];
      MapPush(front, last, f);
      if le(last, x) {
        MapPush(s, x, f);
        InsertAtEnd(Map(s, f), f(x), le2);
      } else {
        InsertThenMap(front, x, le, le2, f);
        InsertBefore(front, last, x, le);
        MapPush(Insert(front, x, le), last, f);
        InsertBefore(Map(front, f), f(last), f(x), le2);
      }
    }
  }

  lemma SortPush<T>(s: seq<T>, x: T, le: (T, T) -> bool)
    ensures Sort(s + [x], le) == Insert(Sort(s, le), x, le)
  {
    assert (s + [x])[..|s|] == s;
  }

  lemma SortThenMapPush<A(!new), B>(s: seq<A>, x: A, le: (A, A) -> bool, le2: (B, B) -> bool, f: A -> B)
    requires KeepsOrder(le, le2, f) && Map(Sort(s, le), f) == Sort(Map(s, f), le2)
    ensures Map(Sort(s + [x], le), f) == Sort(Map(s + [x], f), le2)
  {
    calc {
      Map(Sort(s + [x], le), f);
      { SortPush(s, x, le); }
      Map(Insert(Sort(s, le), x, le), f);
      { InsertThenMap(Sort(s, le), x, le, le2, f); }
      Insert(Sort(Map(s, f), le2), f(x), le2);
      { SortPush(Map(s, f), f(x), le2); }
      Sort(Map(s, f) + [f(x)], le2);
      { MapPush(s, x, f); }
      Sort(Map(s + [x], f), le2);
    }
  }

  /** Sorting commutes with any relabelling that keeps the order. */
  lemma {:induction false} SortCommutesWithMap<A(!new), B>(s: seq<A>, le: (A, A) -> bool, le2: (B, B) -> bool, f: A -> B)
    requires KeepsOrder(le, le2, f)
    ensures Map(Sort(s, le), f) == Sort(Map(s, f), le2)
  {
    if s != [] {
      var front, last := s[..|s| - 1], s[|s| - 1];
      assert s == front + [last];
      SortCommutesWithMap(front, le, le2, f);
      SortThenMapPush(front, last, le, le2, f);
    }
  }

  lemma SortedMembers<T>(s: seq<T>, le: (T, T) -> bool, x: T)
    ensures x in Sort(s, le) <==> x in s
  {
    assert x in Sort(s, le) <==> x in multiset(Sort(s, le));
    assert x in s <==> x in multiset(s);
  }

  /** A list that is already in order is left alone. */
  lemma {:induction false} SortOfSorted<T>(s: seq<T>, le: (T, T) -> bool)
    requires Sorted(s, le)
    ensures Sort(s, le) == s
  {
    if s != [] {
      SortOfSorted(s[..|s| - 1], le);
    }
  }

  lemma LastIsGreatest<T>(s: seq<T>, le: (T, T) -> bool, y: T)
    requires Sorted(s, le) && y in multiset(s)
    ensures s != [] && (y == s[|s| - 1] || le(y, s[|s| - 1]))
  {
    var j :| 0 <= j < |s| && s[j] == y;
    assert j == |s| - 1 || le(s[j], s[|s| - 1]);
  }

  ghost predicate NoTies<T>(s: seq<T>, le: (T, T) -> bool) {
    forall a, b :: a in s && b in s && le(a, b) && le(b, a) ==> a == b
  }

  lemma WithoutLast<T>(s: seq<T>, le: (T, T) -> bool)
    requires s != [] && Sorted(s, le) && NoTies(s, le)
    ensures multiset(s[..|s| - 1]) == multiset(s) - multiset{s[|s| - 1]}
    ensures Sorted(s[..|s| - 1], le) && NoTies(s[..|s| - 1], le)
  {
    assert s == s[..|s| - 1] + [s[|s| - 1]];
  }

  lemma LastAgrees<T>(s: seq<T>, t: seq<T>, le: (T, T) -> bool)
    requires s != [] && t != []
    requires Sorted(s, le) && Sorted(t, le) && multiset(s) == multiset(t) && NoTies(s, le)
    ensures s[|s| - 1] == t[|t| - 1]
  {
    var x, y := s[|s| - 1], t[|t| - 1];
    assert x in multiset(s) && y in multiset(t);
    LastIsGreatest(t, le, x);
    LastIsGreatest(s, le, y);
    assert y in s;
  }

  lemma TiesMoveAcross<T>(s: seq<T>, t: seq<T>, le: (T, T) -> bool)
    requires multiset(s) == multiset(t) && NoTies(s, le)
    ensures NoTies(t, le)
  {
    forall a | a in t ensures a in s {
      assert a in multiset(t);
    }
  }

  lemma FrontsAgree<T>(s: seq<T>, t: seq<T>, le: (T, T) -> bool)
    requires s != [] && t != []
    requires Sorted(s, le) && Sorted(t, le) && multiset(s) == multiset(t) && NoTies(s, le)
    ensures s[|s| - 1] == t[|t| - 1] && multiset(s[..|s| - 1]) == multiset(t[..|t| - 1])
    ensures Sorted(s[..|s| - 1], le) && Sorted(t[..|t| - 1], le) && NoTies(s[..|s| - 1], le)
  {
    LastAgrees(s, t, le);
    TiesMoveAcross(s, t, le);
    WithoutLast(s, le);
    WithoutLast(t, le);
  }

  lemma SameFrontSameLast<T>(s: seq<T>, t: seq<T>)
    requires s != [] && t != [] && s[..|s| - 1] == t[..|t| - 1] && s[|s| - 1] == t[|t| - 1]
    ensures s == t
  {
    assert s == s[..|s| - 1] + [s[|s| - 1]] && t == t[..|t| - 1] + [t[|t| - 1]];
  }

  /** With no ties between different elements, the sorted list depends only on the bag of elements. */
  lemma {:induction false} SortedListIsUnique<T>(s: seq<T>, t: seq<T>, le: (T, T) -> bool)
    requires Sorted(s, le) && Sorted(t, le) && multiset(s) == multiset(t)
    requires NoTies(s, le)
    ensures s == t
  {
    assert |multiset(s)| == |s| && |multiset(t)| == |t|;
    if s != [] {
      FrontsAgree(s, t, le);
      SortedListIsUnique(s[..|s| - 1], t[..|t| - 1], le);
      SameFrontSameLast(s, t);
    }
  }

  /** Two inputs with the same elements and no ties sort to the same list. */
  lemma SortIgnoresInputOrder<T(!new)>(s: seq<T>, t: seq<T>, le: (T, T) -> bool)
    requires TotalPreorder(le) && multiset(s) == multiset(t) && NoTies(s, le)
    ensures Sort(s, le) == Sort(t, le)
  {
    SortOrders(s, le);
    SortOrders(t, le);
    TiesMoveAcross(s, Sort(s, le), le);
    SortedListIsUnique(Sort(s, le), Sort(t, le), le);
  }

  lemma TwiceInARow<T>(s: seq<T>, k: nat)
    requires 1 <= k < |s| && s[k - 1] == s[k]
    ensures multiset(s)[s[k]] >= 2
  {
    var front, rest := s[..k - 1], s[k + 1..];
    assert s == front + ([s[k]] + [s[k]]) + rest;
    assert multiset(s) == multiset(front) + multiset{s[k], s[k]} + multiset(rest);
  }

  lemma {:induction false} TwoPlaces<T>(s: seq<T>, a: T)
    requires multiset(s)[a] >= 2
    ensures exists i, j :: 0 <= i < j < |s| && s[i] == a && s[j] == a
  {
    var n := |s| - 1;
    assert s == s[..n] + [s[n]];
    if s[n] == a {
      assert a in multiset(s[..n]);
      var i :| 0 <= i < n && s[..n][i] == a;
      assert s[i] == a;
    } else {
      TwoPlaces(s[..n], a);
      var i, j :| 0 <= i < j < n && s[..n][i] == a && s[..n][j] == a;
      assert s[i] == a && s[j] == a;
    }
  }
}
