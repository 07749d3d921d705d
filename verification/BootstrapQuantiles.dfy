/**
 What the ends of a bootstrap interval are, told by counting the resampled means
 (agent/backtest/sharp_line.py).
 */
module BootstrapQuantiles {
  import opened Arithmetic
  import opened Markets
  import opened Permutations
  import opened StableSort
  import opened Sums
  import opened TiedRanks
  import opened ClusterBootstrap

  // ---------------------------------------------------------------------- counting

  function AtOrBelow(xs: seq<real>, v: real): int { |xs| - Count(xs, TiedRanks.Above(v)) }

  function AtOrAbove(xs: seq<real>, v: real): int { |xs| - Count(xs, TiedRanks.Below(v)) }

  /** x cuts a lower tail of `pos` off the list: that many are at or below it, and no more are below it. */
  ghost predicate LowerEnd(xs: seq<real>, x: real, pos: real) {
    AtOrBelow(xs, x) >= pos.Floor + 1 && Count(xs, TiedRanks.Below(x)) <= Ceil(pos)
  }

  ghost predicate UpperEnd(xs: seq<real>, x: real, pos: real) {
    AtOrAbove(xs, x) >= pos.Floor + 1 && Count(xs, TiedRanks.Above(x)) <= Ceil(pos)
  }

  lemma {:induction false} CountNoMore(s: seq<real>, keep: real -> bool, m: nat)
    requires forall k :: m <= k < |s| ==> !keep(s[k])
    ensures Count(s, keep) <= m
  {
    if s != [] {
      CountNoMore(s[..|s| - 1], keep, if m < |s| then m else |s| - 1);
    }
  }

  lemma {:induction false} CountFromBelow(s: seq<real>, keep: real -> bool, m: nat)
    requires m <= |s| && forall k :: 0 <= k < m ==> !keep(s[k])
    ensures Count(s, keep) <= |s| - m
  {
    if m < |s| {
      CountFromBelow(s[..|s| - 1], keep, m);
    } else {
      CountNoMore(s, keep, 0);
    }
  }

  /** A value between the neighbours of a position in a sorted list has the position's counts around it. */
  lemma CountsAround(s: seq<real>, pos: real, v: real)
    requires Sorted(s, AtMost) && s != [] && 0.0 <= pos <= (|s| - 1) as real
    requires s[pos.Floor] <= v <= s[Ceil(pos)]
    ensures Count(s, TiedRanks.Above(v)) <= |s| - (pos.Floor + 1)
    ensures Count(s, TiedRanks.Below(v)) <= Ceil(pos)
  {
    forall k | 0 <= k <= pos.Floor ensures s[k] <= v {
      Ordered(s, k, pos.Floor);
    }
    CountFromBelow(s, TiedRanks.Above(v), pos.Floor + 1);
    forall k | Ceil(pos) <= k < |s| ensures s[k] >= v {
      Ordered(s, Ceil(pos), k);
    }
    CountNoMore(s, TiedRanks.Below(v), Ceil(pos));
  }

  // ------------------------------------------------------------------- percentiles

  /** Where the position is an index the percentile is that entry; between two it moves on the straight line. */
  lemma PercentileInterpolates(s: seq<real>, q: real, k: nat)
    requires 0.0 <= q <= 1.0 && k < |s| && k as real <= q * (|s| - 1) as real < k as real + 1.0
    ensures Percentile(s, q).Some?
    ensures q * (|s| - 1) as real == k as real ==> Percentile(s, q).value == s[k]
    ensures k + 1 < |s| ==>
      Percentile(s, q).value == s[k] + (q * (|s| - 1) as real - k as real) * (s[k + 1] - s[k])
  {
    if |s| >= 2 {
      var pos := q * (|s| - 1) as real;
      PositionInRange(q, (|s| - 1) as real);
      assert pos.Floor == k;
      AtPosition(s, pos, k);
    }
  }

  lemma AtPosition(s: seq<real>, pos: real, k: nat)
    requires 0.0 <= pos <= (|s| - 1) as real && k < |s| && pos.Floor == k
    ensures pos == k as real ==> Between(s, pos) == s[k]
    ensures k + 1 < |s| ==> Between(s, pos) == s[k] + (pos - k as real) * (s[k + 1] - s[k])
  {
    if pos == k as real {
      BetweenAtIndex(s, k);
    } else {
      BlendForm(s[k], s[k + 1], pos - k as real);
    }
  }

  /** Where a fraction falls in a list of n + 1 entries. */
  function Position(q: real, n: nat): real { q * n as real }

  lemma PercentileAtPosition(s: seq<real>, q: real)
    requires Sorted(s, AtMost) && s != [] && 0.0 <= q <= 1.0
    ensures var pos := Position(q, |s| - 1);
      && 0.0 <= pos <= (|s| - 1) as real
      && Percentile(s, q).Some? && s[pos.Floor] <= Percentile(s, q).value <= s[Ceil(pos)]
  {
    hide Between;
    PositionInside(q, |s| - 1);
    if |s| >= 2 {
      PercentileIsBetween(s, q);
      hide Position, Percentile;
      BetweenNeighbours(s, Position(q, |s| - 1));
    } else {
      OnlyPosition(q);
    }
  }

  lemma PositionInside(q: real, n: nat)
    requires 0.0 <= q <= 1.0
    ensures 0.0 <= Position(q, n) <= n as real
  {
    PositionInRange(q, n as real);
  }

  lemma OnlyPosition(q: real)
    ensures Position(q, 0) == 0.0
  {
  }

  lemma PercentileIsBetween(s: seq<real>, q: real)
    requires |s| >= 2 && 0.0 <= q <= 1.0
    ensures 0.0 <= Position(q, |s| - 1) <= (|s| - 1) as real && Percentile(s, q) == Some(Between(s, Position(q, |s| - 1)))
  {
    hide Between;
    PositionInside(q, |s| - 1);
  }

  /** The percentile of any list, at the position its fraction asks for, has that position's counts around it. */
  lemma PercentileCounts(xs: seq<real>, q: real)
    requires xs != [] && 0.0 <= q <= 1.0
    ensures var p, pos := Percentile(Sort(xs, AtMost), q), Position(q, |xs| - 1);
      && p.Some? && 0.0 <= pos <= (|xs| - 1) as real
      && Count(xs, TiedRanks.Above(p.value)) <= |xs| - (pos.Floor + 1)
      && Count(xs, TiedRanks.Below(p.value)) <= Ceil(pos)
  {
    hide Sort, Count, Percentile, Position;
    var s := Sort(xs, AtMost);
    ValueOrder();
    SortOrders(xs, AtMost);
    PercentileAtPosition(s, q);
    var v := Percentile(s, q).value;
    CountsAround(s, Position(q, |xs| - 1), v);
    CountIgnoresOrder(xs, TiedRanks.Above(v));
    CountIgnoresOrder(xs, TiedRanks.Below(v));
  }

  lemma ValueOrder()
    ensures TotalPreorder(AtMost)
  {
  }

  /** Counting from the other end. */
  lemma MirroredPosition(n: nat, pos: real)
    ensures (n as real - pos).Floor == n - Ceil(pos) && Ceil(n as real - pos) == n - pos.Floor
  {
    var f := pos.Floor;
    assert f as real <= pos < f as real + 1.0;
    var g := (-pos).Floor;
    assert g as real <= -pos < g as real + 1.0;
  }

  lemma OppositePositions(q: real, n: nat)
    ensures Position(1.0 - q, n) == n as real - Position(q, n)
  {
  }

  /** The two quantiles of a level cut the same tail off either end. */
  lemma QuantilesCutTails(xs: seq<real>, ci: real)
    requires xs != [] && 0.0 <= ci <= 1.0
    ensures var loQ, s := (1.0 - ci) / 2.0, Sort(xs, AtMost); var pos := Position(loQ, |xs| - 1);
      && Percentile(s, loQ).Some? && LowerEnd(xs, Percentile(s, loQ).value, pos)
      && Percentile(s, 1.0 - loQ).Some? && UpperEnd(xs, Percentile(s, 1.0 - loQ).value, pos)
  {
    hide Sort, Count, Percentile, Position;
    var loQ, n := (1.0 - ci) / 2.0, |xs| - 1;
    PercentileCounts(xs, loQ);
    PercentileCounts(xs, 1.0 - loQ);
    OppositePositions(loQ, n);
    MirroredPosition(n, Position(loQ, n));
  }

  // -------------------------------------------------------------------- intervals

  /** The position the level asks for in a list of so many means: the tail that is cut off. */
  function Tail(ci: real, draws: nat): real
    requires draws > 0
  {
    Position((1.0 - ci) / 2.0, draws - 1)
  }

  ghost predicate Resampled(values: seq<real>, keys: seq<string>, clusterDraws: seq<seq<nat>>, iidDraws: seq<seq<nat>>, ci: real) {
    && |values| == |keys| && values != [] && 0.0 <= ci <= 1.0
    && GoodDraws(clusterDraws, |Clusters(values, keys)|) && GoodDraws(iidDraws, |values|)
    && clusterDraws != [] && iidDraws != []
  }

  /** The means of the resampled clusters. */
  ghost function Means(values: seq<real>, keys: seq<string>, clusterDraws: seq<seq<nat>>): (r: seq<real>)
    requires |values| == |keys| && values != [] && GoodDraws(clusterDraws, |Clusters(values, keys)|)
    ensures |r| == |clusterDraws|
  {
    ClustersFilled(values, keys);
    ClusterMeans(Clusters(values, keys), clusterDraws)
  }

  /** Each interval leaves its level's tail of the resampled means outside, at either end. */
  lemma IntervalCutsTails(values: seq<real>, keys: seq<string>, clusterDraws: seq<seq<nat>>, iidDraws: seq<seq<nat>>, ci: real)
    requires Resampled(values, keys, clusterDraws, iidDraws, ci)
    ensures var r := Interval(values, keys, clusterDraws, iidDraws, ci);
      && r.lo.Some? && r.hi.Some? && r.iidLo.Some? && r.iidHi.Some?
      && LowerEnd(Means(values, keys, clusterDraws), r.lo.value, Tail(ci, |clusterDraws|))
      && UpperEnd(Means(values, keys, clusterDraws), r.hi.value, Tail(ci, |clusterDraws|))
      && LowerEnd(IidMeans(values, iidDraws), r.iidLo.value, Tail(ci, |iidDraws|))
      && UpperEnd(IidMeans(values, iidDraws), r.iidHi.value, Tail(ci, |iidDraws|))
  {
    hide Clusters, ClusterMeans, IidMeans, GoodDraws, Percentile, Sort, LowerEnd, UpperEnd, Position;
    QuantilesCutTails(Means(values, keys, clusterDraws), ci);
    QuantilesCutTails(IidMeans(values, iidDraws), ci);
  }

  ghost predicate Spans(xs: seq<real>, lo: real, hi: real) {
    lo in xs && hi in xs && forall x :: x in xs ==> lo <= x <= hi
  }

  lemma ExtremeQuantiles(xs: seq<real>)
    requires xs != []
    ensures var s := Sort(xs, AtMost);
      Percentile(s, 0.0).Some? && Percentile(s, 1.0).Some? && Spans(xs, Percentile(s, 0.0).value, Percentile(s, 1.0).value)
  {
    var s := Sort(xs, AtMost);
    ValueOrder();
    SortOrders(xs, AtMost);
    hide Sort;
    BetweenAtIndex(s, 0);
    BetweenAtIndex(s, |s| - 1);
    SortedMembers(xs, AtMost, s[0]);
    SortedMembers(xs, AtMost, s[|s| - 1]);
    forall x | x in xs ensures s[0] <= x <= s[|s| - 1] {
      SortedMembers(xs, AtMost, x);
      var i :| 0 <= i < |s| && s[i] == x;
      Ordered(s, 0, i);
      Ordered(s, i, |s| - 1);
    }
  }

  /** At full confidence the interval runs from the least to the greatest mean. */
  lemma FullConfidence(values: seq<real>, keys: seq<string>, clusterDraws: seq<seq<nat>>, iidDraws: seq<seq<nat>>)
    requires Resampled(values, keys, clusterDraws, iidDraws, 1.0)
    ensures var r := Interval(values, keys, clusterDraws, iidDraws, 1.0);
      r.lo.Some? && r.hi.Some? && Spans(Means(values, keys, clusterDraws), r.lo.value, r.hi.value)
  {
    hide Clusters, ClusterMeans, IidMeans, GoodDraws, Percentile, Sort, Spans;
    ExtremeQuantiles(Means(values, keys, clusterDraws));
  }

  /** More confidence never makes an interval narrower. */
  lemma ConfidenceWidens(values: seq<real>, keys: seq<string>, clusterDraws: seq<seq<nat>>, iidDraws: seq<seq<nat>>, ci: real, more: real)
    requires Resampled(values, keys, clusterDraws, iidDraws, ci) && ci <= more <= 1.0
    ensures var r, s := Interval(values, keys, clusterDraws, iidDraws, ci), Interval(values, keys, clusterDraws, iidDraws, more);
      r.lo.Some? && r.hi.Some? && s.lo.Some? && s.hi.Some? && s.lo.value <= r.lo.value && r.hi.value <= s.hi.value
  {
    hide Clusters, ClusterMeans, IidMeans, GoodDraws, Percentile, Sort;
    var means := Means(values, keys, clusterDraws);
    var sorted := Sort(means, AtMost);
    ValueOrder();
    SortOrders(means, AtMost);
    var p, q := (1.0 - more) / 2.0, (1.0 - ci) / 2.0;
    PercentileIsMonotone(sorted, p, q);
    PercentileIsMonotone(sorted, 1.0 - q, 1.0 - p);
    IntervalCutsTails(values, keys, clusterDraws, iidDraws, ci);
    IntervalCutsTails(values, keys, clusterDraws, iidDraws, more);
  }

  // ---------------------------------------------------------------------- verdicts

  /**
   A verdict is a count. EDGE leaves no more means at or below zero than the tail holds,
   and fewer than that are enough for it; REFUTED the same for means at or above the
   smallest effect of interest; and EDGE goes first.
   */
  lemma VerdictCountsMeans(values: seq<real>, keys: seq<string>, clusterDraws: seq<seq<nat>>, iidDraws: seq<seq<nat>>,
                           ci: real, sesoi: real, minN: nat, minClusters: nat)
    requires Resampled(values, keys, clusterDraws, iidDraws, ci)
    ensures var means, tail := Means(values, keys, clusterDraws), Tail(ci, |clusterDraws|);
      var v := ThreeStateVerdict(Interval(values, keys, clusterDraws, iidDraws, ci), sesoi, minN, minClusters);
      var enough := |values| >= minN && |Clusters(values, keys)| >= minClusters;
      && (v != Inconclusive ==> enough)
      && (v == Edge ==> AtOrBelow(means, 0.0) <= Ceil(tail))
      && (enough && AtOrBelow(means, 0.0) <= tail.Floor ==> v == Edge)
      && (v == Refuted ==> AtOrAbove(means, sesoi) <= Ceil(tail) && AtOrBelow(means, 0.0) > tail.Floor)
      && (enough && AtOrAbove(means, sesoi) <= tail.Floor ==> v != Inconclusive)
  {
    hide Clusters, ClusterMeans, IidMeans, GoodDraws, Percentile, Sort, Count, Tail;
    var means, tail := Means(values, keys, clusterDraws), Tail(ci, |clusterDraws|);
    var r := Interval(values, keys, clusterDraws, iidDraws, ci);
    IntervalCutsTails(values, keys, clusterDraws, iidDraws, ci);
    LowerSide(means, r.lo.value, 0.0);
    UpperSide(means, r.hi.value, sesoi);
  }

  lemma {:induction false} LowerSide(xs: seq<real>, end: real, x: real)
    ensures end > x ==> AtOrBelow(xs, x) <= Count(xs, TiedRanks.Below(end))
    ensures end <= x ==> AtOrBelow(xs, end) <= AtOrBelow(xs, x)
  {
    if xs != [] {
      LowerSide(xs[..|xs| - 1], end, x);
    }
  }

  lemma {:induction false} UpperSide(xs: seq<real>, end: real, x: real)
    ensures end < x ==> AtOrAbove(xs, x) <= Count(xs, TiedRanks.Above(end))
    ensures end >= x ==> AtOrAbove(xs, end) <= AtOrAbove(xs, x)
  {
    if xs != [] {
      UpperSide(xs[..|xs| - 1], end, x);
    }
  }

  // ------------------------------------------------------------------- the resampling

  function SumsOf(clusters: seq<Cluster>): (r: seq<real>)
    ensures |r| == |clusters| && forall i :: 0 <= i < |r| ==> r[i] == Total(clusters[i].members)
  {
    seq(|clusters|, i requires 0 <= i < |clusters| => Total(clusters[i].members))
  }

  function SizesOf(clusters: seq<Cluster>): (r: seq<real>)
    ensures |r| == |clusters| && forall i :: 0 <= i < |r| ==> r[i] == |clusters[i].members| as real
  {
    seq(|clusters|, i requires 0 <= i < |clusters| => |clusters[i].members| as real)
  }

  /** What a draw adds up, from the sums and sizes of the clusters drawn. */
  lemma {:induction false} DrawIsDeal(clusters: seq<Cluster>, draw: seq<nat>)
    requires forall j :: 0 <= j < |draw| ==> draw[j] < |clusters|
    ensures DrawTotal(clusters, draw) == Total(Deal(SumsOf(clusters), draw))
    ensures DrawCount(clusters, draw) as real == Total(Deal(SizesOf(clusters), draw))
  {
    if draw != [] {
      var n := |draw| - 1;
      DrawIsDeal(clusters, draw[..n]);
      assert Deal(SumsOf(clusters), draw)[..n] == Deal(SumsOf(clusters), draw[..n]);
      assert Deal(SizesOf(clusters), draw)[..n] == Deal(SizesOf(clusters), draw[..n]);
    }
  }

  lemma {:induction false} AddToAddsUp(clusters: seq<Cluster>, key: string, v: real)
    ensures Total(SumsOf(AddTo(clusters, key, v))) == Total(SumsOf(clusters)) + v
    ensures Total(SizesOf(AddTo(clusters, key, v))) == Total(SizesOf(clusters)) + 1.0
  {
    hide Total;
    var r := AddTo(clusters, key, v);
    if clusters == [] {
      assert r == [Cluster(key, [v])];
      assert SumsOf(r) == [] + [Total([v])] && SizesOf(r) == [] + [1.0] && [v] == [] + [v];
      TotalPush([], v);
      TotalPush([], 1.0);
      TotalPush([], Total([v]));
      assert SumsOf(clusters) == [] && SizesOf(clusters) == [];
      TotalOfNothing();
    } else {
      HeadAndTail(clusters);
      HeadAndTail(r);
      if clusters[0].key == key {
        TotalPush(clusters[0].members, v);
        assert r[1..] == clusters[1..] && r[0].members == clusters[0].members + [v];
      } else {
        AddToAddsUp(clusters[1..], key, v);
        assert r[1..] == AddTo(clusters[1..], key, v) && r[0] == clusters[0];
      }
    }
  }

  lemma HeadAndTail(clusters: seq<Cluster>)
    requires clusters != []
    ensures Total(SumsOf(clusters)) == Total(clusters[0].members) + Total(SumsOf(clusters[1..]))
    ensures Total(SizesOf(clusters)) == |clusters[0].members| as real + Total(SizesOf(clusters[1..]))
  {
    hide Total;
    assert SumsOf(clusters) == [Total(clusters[0].members)] + SumsOf(clusters[1..]);
    assert SizesOf(clusters) == [|clusters[0].members| as real] + SizesOf(clusters[1..]);
    TotalConcat([Total(clusters[0].members)], SumsOf(clusters[1..]));
    TotalConcat([|clusters[0].members| as real], SizesOf(clusters[1..]));
    TotalPush([], Total(clusters[0].members));
    TotalPush([], |clusters[0].members| as real);
    assert [] + [Total(clusters[0].members)] == [Total(clusters[0].members)];
    assert [] + [|clusters[0].members| as real] == [|clusters[0].members| as real];
    TotalOfNothing();
  }

  lemma {:induction false} ClustersAddUp(values: seq<real>, keys: seq<string>)
    requires |values| == |keys|
    ensures Total(SumsOf(Clusters(values, keys))) == Total(values)
    ensures Total(SizesOf(Clusters(values, keys))) == |values| as real
  {
    hide AddTo;
    if values != [] {
      var n := |values| - 1;
      ClustersAddUp(values[..n], keys[..n]);
      AddToAddsUp(Clusters(values[..n], keys[..n]), keys[n], values[n]);
    } else {
      assert SumsOf([]) == [] && SizesOf([]) == [];
      TotalOfNothing();
    }
  }

  /** A draw that takes every cluster once, in any order, is the plain mean: clusters weigh by their size. */
  lemma WholeSampleIsPoint(values: seq<real>, keys: seq<string>, order: seq<nat>)
    requires |values| == |keys| && values != [] && IsPermutation(order, |Clusters(values, keys)|)
    ensures var cs := Clusters(values, keys);
      Filled(cs) && order != [] && ClusterMean(cs, order) == Total(values) / |values| as real
  {
    hide Clusters, Total;
    var cs := Clusters(values, keys);
    ClustersFilled(values, keys);
    ClustersAddUp(values, keys);
    DrawIsDeal(cs, order);
    DealKeepsMultiset(SumsOf(cs), order);
    DealKeepsMultiset(SizesOf(cs), order);
    TotalIgnoresOrder(Deal(SumsOf(cs), order), SumsOf(cs));
    TotalIgnoresOrder(Deal(SizesOf(cs), order), SizesOf(cs));
  }

  /** The point estimate is the plain mean, and so is an iid draw that takes every value once. */
  lemma PointIsMean(values: seq<real>, keys: seq<string>, clusterDraws: seq<seq<nat>>, iidDraws: seq<seq<nat>>, ci: real, b: nat)
    requires Resampled(values, keys, clusterDraws, iidDraws, ci)
    ensures var r := Interval(values, keys, clusterDraws, iidDraws, ci);
      && r.n == |values| && r.nClusters == |Clusters(values, keys)|
      && r.point.Some? && r.point.value * |values| as real == Total(values)
    ensures b < |iidDraws| && IsPermutation(iidDraws[b], |values|) ==>
      IidMeans(values, iidDraws)[b] * |values| as real == Total(values)
  {
    hide Clusters, ClusterMeans, Percentile, Sort, Total;
    if b < |iidDraws| && IsPermutation(iidDraws[b], |values|) {
      DealKeepsMultiset(values, iidDraws[b]);
      TotalIgnoresOrder(Deal(values, iidDraws[b]), values);
    }
  }
}
