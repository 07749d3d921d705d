/** Sums of lists of reals. */
module Sums {
  import opened Arithmetic
  import opened StableSort

  function Total(xs: seq<real>): real {
    if xs == [] then 0.0 else Total(xs[..|xs| - 1]) + xs[|xs| - 1]
  }

  lemma TotalOfNothing()
    ensures Total([]) == 0.0
  {
  }

  lemma TotalPush(xs: seq<real>, x: real)
    ensures Total(xs + [x]) == Total(xs) + x
  {
    assert (xs + [x])[..|xs|] == xs;
  }

  lemma {:induction false} TotalConcat(a: seq<real>, b: seq<real>)
    ensures Total(a + b) == Total(a) + Total(b)
  {
    if b == [] {
      assert a + b == a;
    } else {
      TotalConcat(a, b[..|b| - 1]);
      assert (a + b)[..|a + b| - 1] == a + b[..|b| - 1];
    }
  }

  ghost predicate Within(xs: seq<real>, low: real, high: real) {
    forall i :: 0 <= i < |xs| ==> low <= xs[i] <= high
  }

  lemma {:induction false} TotalWithin(xs: seq<real>, low: real, high: real)
    requires Within(xs, low, high)
    ensures low * |xs| as real <= Total(xs) <= high * |xs| as real
  {
    if xs != [] {
      var n := |xs| - 1;
      TotalWithin(xs[..n], low, high);
      OneMore(n, low);
      OneMore(n, high);
      assert low * (n + 1) as real == low * n as real + low && high * (n + 1) as real == high * n as real + high;
    }
  }

  lemma MeanWithin(total: real, n: nat, low: real, high: real)
    requires n > 0 && low * n as real <= total <= high * n as real
    ensures low <= total / n as real <= high
  {
    var m, q := n as real, total / n as real;
    assert q * m == total;
    CancelOrder(low, q, m);
    CancelOrder(q, high, m);
  }

  lemma TotalWithout(s: seq<real>, i: nat)
    requires i < |s|
    ensures Total(s) == Total(s[..i] + s[i + 1..]) + s[i]
  {
    hide Total;
    var front, x, rest := s[..i], s[i], s[i + 1..];
    assert s == front + [x] + rest;
    TotalConcat(front + [x], rest);
    TotalPush(front, x);
    TotalConcat(front, rest);
  }

  lemma {:induction false} TotalIgnoresOrder(a: seq<real>, b: seq<real>)
    requires multiset(a) == multiset(b)
    ensures Total(a) == Total(b)
  {
    if a != [] {
      var n, x := |a| - 1, a[|a| - 1];
      assert a == a[..n] + [x];
      assert x in multiset(b);
      var i :| 0 <= i < |b| && b[i] == x;
      MultisetWithout(b, i);
      TotalIgnoresOrder(a[..n], b[..i] + b[i + 1..]);
      TotalWithout(b, i);
    } else {
      assert |multiset(b)| == 0;
    }
  }
}
