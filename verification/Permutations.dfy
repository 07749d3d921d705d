/** A seeded shuffle, seen from outside: some permutation of the indices. */
module Permutations {

  ghost predicate IsPermutation(order: seq<nat>, n: nat) {
    && |order| == n
    && (forall j :: 0 <= j < n ==> order[j] < n)
    && (forall i, j :: 0 <= i < j < n ==> order[i] != order[j])
  }

  ghost function Below(n: nat): (r: set<nat>)
    ensures |r| == n && forall i: nat :: i in r <==> i < n
  {
    if n == 0 then {} else Below(n - 1) + {n - 1}
  }

  ghost function Values(order: seq<nat>): (r: set<nat>)
    ensures forall x :: x in r <==> x in order
  {
    set x | x in order
  }

  lemma {:induction false} DistinctSize(order: seq<nat>)
    requires forall i, j :: 0 <= i < j < |order| ==> order[i] != order[j]
    ensures |Values(order)| == |order|
  {
    if order == [] {
      assert Values(order) == {};
    } else {
      var front, last := order[..|order| - 1], order[|order| - 1];
      DistinctSize(front);
      assert order == front + [last];
      assert Values(order) == Values(front) + {last};
    }
  }

  lemma SubsetOfSameSize(a: set<nat>, b: set<nat>)
    requires a <= b && |a| == |b|
    ensures a == b
  {
    if x :| x in b && x !in a {
      assert a <= b - {x};
      SubsetSize(a, b - {x});
    }
  }

  lemma {:induction false} SubsetSize(a: set<nat>, b: set<nat>)
    requires a <= b
    ensures |a| <= |b|
  {
    if x :| x in a {
      SubsetSize(a - {x}, b - {x});
    }
  }

  /** Every index is dealt to some place. */
  lemma Place(order: seq<nat>, n: nat, i: nat) returns (j: nat)
    requires IsPermutation(order, n) && i < n
    ensures j < n && order[j] == i
  {
    DistinctSize(order);
    SubsetOfSameSize(Values(order), Below(n));
    assert i in Values(order);
    j :| 0 <= j < n && order[j] == i;
  }

  function Deal<T>(s: seq<T>, order: seq<nat>): (r: seq<T>)
    requires forall j :: 0 <= j < |order| ==> order[j] < |s|
    ensures |r| == |order| && forall j :: 0 <= j < |r| ==> r[j] == s[order[j]]
  {
    seq(|order|, j requires 0 <= j < |order| => s[order[j]])
  }

  lemma {:induction false} DealKeepsMultiset<T>(s: seq<T>, order: seq<nat>)
    requires IsPermutation(order, |s|)
    ensures multiset(Deal(s, order)) == multiset(s)
  {
    hide Deal;
    if s != [] {
      var n := |s| - 1;
      var p := Place(order, |s|, n);
      var rest := order[..p] + order[p + 1..];
      DropPlace(order, n, p);
      DealKeepsMultiset(s[..n], rest);
      DealSplits(s, order, p);
      PutBack(Deal(s[..n], rest), p, s[n]);
      assert s == s[..n] + [s[n]];
    }
  }

  lemma PutBack<T>(d: seq<T>, p: nat, x: T)
    requires p <= |d|
    ensures multiset(d[..p] + [x] + d[p..]) == multiset(d) + multiset{x}
  {
    assert d == d[..p] + d[p..];
  }

  lemma DealSplits<T>(s: seq<T>, order: seq<nat>, p: nat)
    requires s != [] && IsPermutation(order, |s|) && p < |s| && order[p] == |s| - 1
    requires IsPermutation(order[..p] + order[p + 1..], |s| - 1)
    ensures var n := |s| - 1; var d := Deal(s[..n], order[..p] + order[p + 1..]);
      Deal(s, order) == d[..p] + [s[n]] + d[p..]
  {
    var n := |s| - 1;
    var rest := order[..p] + order[p + 1..];
    var d := Deal(s[..n], rest);
    forall j | 0 <= j < |s| ensures Deal(s, order)[j] == (d[..p] + [s[n]] + d[p..])[j] {
      if j < p {
        assert rest[j] == order[j];
      } else if j > p {
        assert rest[j - 1] == order[j];
      }
    }
  }

  lemma DropPlace(order: seq<nat>, n: nat, p: nat)
    requires IsPermutation(order, n + 1) && p <= n && order[p] == n
    ensures IsPermutation(order[..p] + order[p + 1..], n)
  {
    var rest := order[..p] + order[p + 1..];
    forall j | 0 <= j < n ensures rest[j] < n {
      assert rest[j] == order[if j < p then j else j + 1];
    }
    forall i, j | 0 <= i < j < n ensures rest[i] != rest[j] {
      assert rest[i] == order[if i < p then i else i + 1];
      assert rest[j] == order[if j < p then j else j + 1];
    }
  }
}
