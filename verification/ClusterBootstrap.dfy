/**
 The cluster bootstrap behind the verdicts (agent/backtest/sharp_line.py,
 scripts/run_cross_market_journey.py). The random draws are arbitrary lists of valid
 indices, so the results hold for every generator and every seed.
 */
module ClusterBootstrap {
  import opened Arithmetic
  import opened Markets
  import opened Permutations
  import opened StableSort
  import opened Sums

  // ------------------------------------------------------------------- percentiles

  /** Linear interpolation between the neighbours of a fractional position. */
  function Between(s: seq<real>, pos: real): real
    requires 0.0 <= pos && s != [] && pos <= (|s| - 1) as real
  {
    var frac := pos - pos.Floor as real;
    s[pos.Floor] * (1.0 - frac) + s[Ceil(pos)] * frac
  }

  /** The q-quantile of a sorted list; None is the source's NaN. */
  function Percentile(s: seq<real>, q: real): Option<real>
    requires 0.0 <= q <= 1.0
  {
    if s == [] then None
    else if |s| == 1 then Some(s[0])
    else
      PositionInRange(q, (|s| - 1) as real);
      Some(Between(s, q * (|s| - 1) as real))
  }

  lemma PositionInRange(q: real, m: real)
    requires 0.0 <= q <= 1.0 && m >= 0.0
    ensures 0.0 <= q * m <= m
  {
    Scale(0.0, q, m);
    Scale(q, 1.0, m);
  }

  lemma BlendForm(x: real, y: real, f: real)
    ensures x * (1.0 - f) + y * f == x + f * (y - x)
  {
  }

  lemma Blend(x: real, y: real, f: real)
    requires x <= y && 0.0 <= f <= 1.0
    ensures x <= x * (1.0 - f) + y * f <= y
  {
    BlendForm(x, y, f);
    Scale(0.0, f, y - x);
    Scale(f, 1.0, y - x);
  }

  lemma BlendGrows(x: real, y: real, f: real, g: real)
    requires x <= y && f <= g
    ensures x * (1.0 - f) + y * f <= x * (1.0 - g) + y * g
  {
    BlendForm(x, y, f);
    BlendForm(x, y, g);
    Scale(f, g, y - x);
  }

  lemma Ordered(s: seq<real>, i: nat, j: nat)
    requires Sorted(s, AtMost) && i <= j < |s|
    ensures s[i] <= s[j]
  {
    assert i == j || AtMost(s[i], s[j]);
  }

  /** An interpolated value lies between its two neighbours. */
  lemma BetweenNeighbours(s: seq<real>, pos: real)
    requires Sorted(s, AtMost) && s != [] && 0.0 <= pos <= (|s| - 1) as real
    ensures s[pos.Floor] <= Between(s, pos) <= s[Ceil(pos)]
  {
    Ordered(s, pos.Floor, Ceil(pos));
    Blend(s[pos.Floor], s[Ceil(pos)], pos - pos.Floor as real);
  }

  lemma BetweenGrowsOnAPiece(s: seq<real>, x: real, y: real)
    requires Sorted(s, AtMost) && s != [] && 0.0 <= x <= y <= (|s| - 1) as real
    requires x.Floor == y.Floor && y.Floor as real < y
    ensures Between(s, x) <= Between(s, y)
  {
    var k := x.Floor;
    Ordered(s, k, k + 1);
    BlendGrows(s[k], s[k + 1], x - k as real, y - k as real);
    if Ceil(x) == k {
      BetweenAtIndex(s, k);
    }
  }

  lemma BetweenAtIndex(s: seq<real>, k: nat)
    requires k < |s|
    ensures Between(s, k as real) == s[k]
  {
  }

  lemma BetweenGrows(s: seq<real>, x: real, y: real)
    requires Sorted(s, AtMost) && s != [] && 0.0 <= x <= y <= (|s| - 1) as real
    ensures Between(s, x) <= Between(s, y)
  {
    if x.Floor == y.Floor && y.Floor as real < y {
      BetweenGrowsOnAPiece(s, x, y);
    } else if x < y {
      hide Between;
      BetweenNeighbours(s, x);
      BetweenNeighbours(s, y);
      Ordered(s, Ceil(x), y.Floor);
    }
  }

  lemma PercentileInRange(s: seq<real>, q: real)
    requires Sorted(s, AtMost) && s != [] && 0.0 <= q <= 1.0
    ensures s[0] <= Percentile(s, q).value <= s[|s| - 1]
  {
    hide Between;
    if |s| >= 2 {
      PositionInRange(q, (|s| - 1) as real);
      var pos := q * (|s| - 1) as real;
      BetweenNeighbours(s, pos);
      Ordered(s, 0, pos.Floor);
      Ordered(s, Ceil(pos), |s| - 1);
    }
  }

  /** A higher quantile is never a smaller value. */
  lemma PercentileIsMonotone(s: seq<real>, p: real, q: real)
    requires Sorted(s, AtMost) && s != [] && 0.0 <= p <= q <= 1.0
    ensures Percentile(s, p).value <= Percentile(s, q).value
  {
    hide Between;
    if |s| >= 2 {
      PositionInRange(p, (|s| - 1) as real);
      PositionInRange(q, (|s| - 1) as real);
      Scale(p, q, (|s| - 1) as real);
      BetweenGrows(s, p * (|s| - 1) as real, q * (|s| - 1) as real);
    }
  }

  // ----------------------------------------------------------------------- clusters

  datatype Cluster = Cluster(key: string, members: seq<real>)

  /** `setdefault(k, []).append(v)` on an insertion-ordered dictionary. */
  function AddTo(clusters: seq<Cluster>, key: string, v: real): (r: seq<Cluster>)
    ensures r != []
  {
    if clusters == [] then [Cluster(key, [v])]
    else if clusters[0].key == key then [Cluster(key, clusters[0].members + [v])] + clusters[1..]
    else [clusters[0]] + AddTo(clusters[1..], key, v)
  }

  function Clusters(values: seq<real>, keys: seq<string>): seq<Cluster>
    requires |values| == |keys|
  {
    if values == [] then []
    else AddTo(Clusters(values[..|values| - 1], keys[..|keys| - 1]), keys[|keys| - 1], values[|values| - 1])
  }

  /** The values filed under one key, in input order. */
  function Filed(values: seq<real>, keys: seq<string>, key: string): seq<real>
    requires |values| == |keys|
  {
    if values == [] then []
    else
      var front := Filed(values[..|values| - 1], keys[..|keys| - 1], key);
      if keys[|keys| - 1] == key then front + [values[|values| - 1]] else front
  }

  ghost predicate HasKey(clusters: seq<Cluster>, key: string) {
    exists i :: 0 <= i < |clusters| && clusters[i].key == key
  }

  ghost predicate DistinctKeys(clusters: seq<Cluster>) {
    forall i, j :: 0 <= i < j < |clusters| ==> clusters[i].key != clusters[j].key
  }

  function MembersOf(clusters: seq<Cluster>, key: string): seq<real> {
    if clusters == [] then []
    else if clusters[0].key == key then clusters[0].members
    else MembersOf(clusters[1..], key)
  }

  lemma {:induction false} AddToOneCluster(clusters: seq<Cluster>, key: string, v: real, other: string)
    ensures MembersOf(AddTo(clusters, key, v), other) == if other == key then MembersOf(clusters, key) + [v] else MembersOf(clusters, other)
    ensures HasKey(AddTo(clusters, key, v), other) <==> HasKey(clusters, other) || other == key
  {
    var r := AddTo(clusters, key, v);
    if clusters == [] {
      assert r[0].key == key;
      assert r[1..] == [];
    } else {
      KeyHead(clusters, other);
      KeyHead(r, other);
      if clusters[0].key == key {
        assert r[1..] == clusters[1..];
      } else {
        AddToOneCluster(clusters[1..], key, v, other);
        assert r[1..] == AddTo(clusters[1..], key, v);
      }
    }
  }

  lemma KeyHead(clusters: seq<Cluster>, key: string)
    requires clusters != []
    ensures HasKey(clusters, key) <==> clusters[0].key == key || HasKey(clusters[1..], key)
  {
    if i :| 0 < i < |clusters| && clusters[i].key == key {
      assert clusters[1..][i - 1].key == key;
    }
    if i :| 0 <= i < |clusters[1..]| && clusters[1..][i].key == key {
      assert clusters[i + 1].key == key;
    }
  }

  lemma {:induction false} AddToKeepsDistinct(clusters: seq<Cluster>, key: string, v: real)
    requires DistinctKeys(clusters)
    ensures DistinctKeys(AddTo(clusters, key, v))
  {
    if clusters != [] && clusters[0].key != key {
      var tail, head := clusters[1..], clusters[0].key;
      AddToKeepsDistinct(tail, key, v);
      AddToOneCluster(tail, key, v, head);
      var r := AddTo(tail, key, v);
      assert !HasKey(tail, head);
      assert forall j :: 0 <= j < |r| ==> r[j].key != head;
    }
  }

  lemma {:induction false} MembersAt(clusters: seq<Cluster>, i: nat)
    requires DistinctKeys(clusters) && i < |clusters|
    ensures MembersOf(clusters, clusters[i].key) == clusters[i].members
  {
    if i > 0 {
      assert clusters[0].key != clusters[i].key;
      assert clusters[1..][i - 1] == clusters[i];
      MembersAt(clusters[1..], i - 1);
    }
  }

  lemma {:induction false} ClustersFile(values: seq<real>, keys: seq<string>, key: string)
    requires |values| == |keys|
    ensures DistinctKeys(Clusters(values, keys))
    ensures MembersOf(Clusters(values, keys), key) == Filed(values, keys, key)
    ensures HasKey(Clusters(values, keys), key) <==> key in keys
  {
    if values != [] {
      var n := |values| - 1;
      ClustersFile(values[..n], keys[..n], key);
      AddToOneCluster(Clusters(values[..n], keys[..n]), keys[n], values[n], key);
      AddToOneCluster(Clusters(values[..n], keys[..n]), keys[n], values[n], keys[n]);
      AddToKeepsDistinct(Clusters(values[..n], keys[..n]), keys[n], values[n]);
      assert keys == keys[..n] + [keys[n]];
      ClustersFile(values[..n], keys[..n], keys[n]);
    }
  }

  /**
   The clusters are exactly the key classes: one cluster per key that occurs, holding
   every value filed under it, in input order.
   */
  lemma ClustersAreKeyClasses(values: seq<real>, keys: seq<string>)
    requires |values| == |keys|
    ensures var cs := Clusters(values, keys);
      && DistinctKeys(cs)
      && (forall i :: 0 <= i < |cs| ==> cs[i].members == Filed(values, keys, cs[i].key))
      && (forall key :: HasKey(cs, key) <==> key in keys)
  {
    var cs := Clusters(values, keys);
    ClustersFile(values, keys, "");
    forall i | 0 <= i < |cs| ensures cs[i].members == Filed(values, keys, cs[i].key) {
      ClustersFile(values, keys, cs[i].key);
      MembersAt(cs, i);
    }
    forall key ensures HasKey(cs, key) <==> key in keys {
      ClustersFile(values, keys, key);
    }
  }

  // ---------------------------------------------------------------------- relabelling

  function Relabelled(clusters: seq<Cluster>, f: string -> string): (r: seq<Cluster>)
    ensures |r| == |clusters| && forall i :: 0 <= i < |r| ==> r[i] == Cluster(f(clusters[i].key), clusters[i].members)
  {
    seq(|clusters|, i requires 0 <= i < |clusters| => Cluster(f(clusters[i].key), clusters[i].members))
  }

  ghost predicate Injective(f: string -> string) { forall a, b :: f(a) == f(b) ==> a == b }

  lemma {:induction false} AddToRelabelled(clusters: seq<Cluster>, key: string, v: real, f: string -> string)
    requires Injective(f)
    ensures AddTo(Relabelled(clusters, f), f(key), v) == Relabelled(AddTo(clusters, key, v), f)
  {
    if clusters != [] {
      assert Relabelled(clusters, f)[1..] == Relabelled(clusters[1..], f);
      if clusters[0].key != key {
        AddToRelabelled(clusters[1..], key, v, f);
      }
    }
  }

  /** Renaming the clusters one-to-one renames the clusters and nothing else. */
  lemma {:induction false} ClustersRelabel(values: seq<real>, keys: seq<string>, f: string -> string)
    requires |values| == |keys| && Injective(f)
    ensures Clusters(values, Map(keys, f)) == Relabelled(Clusters(values, keys), f)
  {
    hide Injective;
    if values != [] {
      var n := |values| - 1;
      ClustersRelabel(values[..n], keys[..n], f);
      assert Map(keys, f)[..n] == Map(keys[..n], f);
      AddToRelabelled(Clusters(values[..n], keys[..n]), keys[n], values[n], f);
    }
  }

  // ---------------------------------------------------------------------- resampling

  function DrawTotal(clusters: seq<Cluster>, draw: seq<nat>): real
    requires forall j :: 0 <= j < |draw| ==> draw[j] < |clusters|
  {
    if draw == [] then 0.0
    else DrawTotal(clusters, draw[..|draw| - 1]) + Total(clusters[draw[|draw| - 1]].members)
  }

  function DrawCount(clusters: seq<Cluster>, draw: seq<nat>): nat
    requires forall j :: 0 <= j < |draw| ==> draw[j] < |clusters|
  {
    if draw == [] then 0
    else DrawCount(clusters, draw[..|draw| - 1]) + |clusters[draw[|draw| - 1]].members|
  }

  /** Every draw picks as many valid indices as there are items. */
  ghost predicate GoodDraws(draws: seq<seq<nat>>, items: nat) {
    forall b :: 0 <= b < |draws| ==> |draws[b]| == items && forall j :: 0 <= j < items ==> draws[b][j] < items
  }

  ghost predicate Filled(clusters: seq<Cluster>) {
    clusters != [] && forall i :: 0 <= i < |clusters| ==> clusters[i].members != []
  }

  lemma {:induction false} AddToFills(clusters: seq<Cluster>, key: string, v: real)
    requires clusters == [] || Filled(clusters)
    ensures Filled(AddTo(clusters, key, v))
  {
    if clusters != [] && clusters[0].key != key {
      AddToFills(clusters[1..], key, v);
    }
  }

  lemma {:induction false} ClustersFilled(values: seq<real>, keys: seq<string>)
    requires |values| == |keys| && values != []
    ensures Filled(Clusters(values, keys))
  {
    var n := |values| - 1;
    if n > 0 {
      ClustersFilled(values[..n], keys[..n]);
    }
    AddToFills(Clusters(values[..n], keys[..n]), keys[n], values[n]);
  }

  lemma {:induction false} DrawNotEmpty(clusters: seq<Cluster>, draw: seq<nat>)
    requires Filled(clusters) && forall j :: 0 <= j < |draw| ==> draw[j] < |clusters|
    ensures DrawCount(clusters, draw) >= |draw|
  {
    if draw != [] {
      DrawNotEmpty(clusters, draw[..|draw| - 1]);
    }
  }

  ghost function ClusterMean(clusters: seq<Cluster>, draw: seq<nat>): real
    requires Filled(clusters) && draw != [] && forall j :: 0 <= j < |draw| ==> draw[j] < |clusters|
  {
    DrawNotEmpty(clusters, draw);
    DrawTotal(clusters, draw) / DrawCount(clusters, draw) as real
  }

  datatype BootstrapCI = BootstrapCI(
    n: nat,
    nClusters: nat,
    point: Option<real>,
    lo: Option<real>,
    hi: Option<real>,
    iidLo: Option<real>,
    iidHi: Option<real>)

  ghost function ClusterMeans(clusters: seq<Cluster>, draws: seq<seq<nat>>): (r: seq<real>)
    requires Filled(clusters) && GoodDraws(draws, |clusters|)
    ensures |r| == |draws|
  {
    seq(|draws|, b requires 0 <= b < |draws| => ClusterMean(clusters, draws[b]))
  }

  ghost function IidMeans(values: seq<real>, draws: seq<seq<nat>>): (r: seq<real>)
    requires values != [] && GoodDraws(draws, |values|)
    ensures |r| == |draws|
  {
    seq(|draws|, b requires 0 <= b < |draws| => Total(Deal(values, draws[b])) / |values| as real)
  }

  /** The interval the source promises, from the sorted resampled means. */
  ghost function Interval(values: seq<real>, keys: seq<string>, clusterDraws: seq<seq<nat>>, iidDraws: seq<seq<nat>>, ci: real): BootstrapCI
    requires |values| == |keys| && values != [] && 0.0 <= ci <= 1.0
    requires GoodDraws(clusterDraws, |Clusters(values, keys)|) && GoodDraws(iidDraws, |values|)
  {
    ClustersFilled(values, keys);
    var loQ := (1.0 - ci) / 2.0;
    var means := Sort(ClusterMeans(Clusters(values, keys), clusterDraws), AtMost);
    var iid := Sort(IidMeans(values, iidDraws), AtMost);
    BootstrapCI(|values|, |Clusters(values, keys)|, Some(Total(values) / |values| as real),
                Percentile(means, loQ), Percentile(means, 1.0 - loQ), Percentile(iid, loQ), Percentile(iid, 1.0 - loQ))
  }

  method ClusterSampleMeans(clusters: seq<Cluster>, draws: seq<seq<nat>>) returns (means: seq<real>)
    requires Filled(clusters) && GoodDraws(draws, |clusters|)
    ensures means == ClusterMeans(clusters, draws)
  {
    means := [];
    for b := 0 to |draws|
      invariant |means| == b && forall k :: 0 <= k < b ==> means[k] == ClusterMean(clusters, draws[k])
    {
      var draw, total, count := draws[b], 0.0, 0;
      for j := 0 to |draw|
        invariant total == DrawTotal(clusters, draw[..j]) && count == DrawCount(clusters, draw[..j])
      {
        assert draw[..j + 1][..j] == draw[..j];
        total := total + Total(clusters[draw[j]].members);
        count := count + |clusters[draw[j]].members|;
      }
      assert draw[..|draw|] == draw;
      DrawNotEmpty(clusters, draw);
      means := means + [total / count as real];
    }
  }

  method GroupByKey(values: seq<real>, keys: seq<string>) returns (clusters: seq<Cluster>)
    requires |values| == |keys|
    ensures clusters == Clusters(values, keys)
  {
    clusters := [];
    for i := 0 to |values|
      invariant clusters == Clusters(values[..i], keys[..i])
    {
      assert values[..i + 1][..i] == values[..i] && keys[..i + 1][..i] == keys[..i];
      clusters := AddTo(clusters, keys[i], values[i]);
    }
    assert values[..|values|] == values && keys[..|keys|] == keys;
  }

  method IidSampleMeans(values: seq<real>, draws: seq<seq<nat>>) returns (means: seq<real>)
    requires values != [] && GoodDraws(draws, |values|)
    ensures means == IidMeans(values, draws)
  {
    means := [];
    for b := 0 to |draws|
      invariant |means| == b && forall k :: 0 <= k < b ==> means[k] == Total(Deal(values, draws[k])) / |values| as real
    {
      means := means + [Total(Deal(values, draws[b])) / |values| as real];
    }
  }

  method ClusterBootstrapCi(values: seq<real>, keys: seq<string>, clusterDraws: seq<seq<nat>>, iidDraws: seq<seq<nat>>, ci: real)
    returns (r: Result<BootstrapCI>)
    requires 0.0 <= ci <= 1.0
    requires |values| == |keys| ==> GoodDraws(clusterDraws, |Clusters(values, keys)|) && GoodDraws(iidDraws, |values|)
    ensures r.Ok? <==> |values| == |keys|
    ensures r.Ok? && values == [] ==> r.value == BootstrapCI(0, 0, None, None, None, None, None)
    ensures r.Ok? && values != [] ==> r.value == Interval(values, keys, clusterDraws, iidDraws, ci)
  {
    hide Percentile, Sort, Clusters, GoodDraws, ClusterMeans, IidMeans;
    if |values| != |keys| {
      return Err("values and cluster_keys must align");
    }
    var loQ := (1.0 - ci) / 2.0;
    var hiQ := 1.0 - loQ;
    if |values| == 0 {
      return Ok(BootstrapCI(0, 0, None, None, None, None, None));
    }
    var clusters := GroupByKey(values, keys);
    ClustersFilled(values, keys);
    var clusterMeans := ClusterSampleMeans(clusters, clusterDraws);
    var iidMeans := IidSampleMeans(values, iidDraws);
    var means, iid := Sort(clusterMeans, AtMost), Sort(iidMeans, AtMost);
    return Ok(BootstrapCI(|values|, |clusters|, Some(Total(values) / |values| as real),
                          Percentile(means, loQ), Percentile(means, hiQ), Percentile(iid, loQ), Percentile(iid, hiQ)));
  }

  // ------------------------------------------------------------------------ soundness

  lemma {:induction false} FiledWithin(values: seq<real>, keys: seq<string>, key: string, low: real, high: real)
    requires |values| == |keys| && Within(values, low, high)
    ensures Within(Filed(values, keys, key), low, high)
  {
    if values != [] {
      FiledWithin(values[..|values| - 1], keys[..|keys| - 1], key, low, high);
    }
  }

  ghost predicate AllWithin(clusters: seq<Cluster>, low: real, high: real) {
    forall i :: 0 <= i < |clusters| ==> Within(clusters[i].members, low, high)
  }

  lemma ClustersWithin(values: seq<real>, keys: seq<string>, low: real, high: real)
    requires |values| == |keys| && Within(values, low, high)
    ensures AllWithin(Clusters(values, keys), low, high)
  {
    var cs := Clusters(values, keys);
    ClustersAreKeyClasses(values, keys);
    forall i | 0 <= i < |cs| ensures Within(cs[i].members, low, high) {
      FiledWithin(values, keys, cs[i].key, low, high);
    }
  }

  lemma AddBounds(low: real, high: real, m: nat, n: nat, a: real, b: real)
    requires low * m as real <= a <= high * m as real && low * n as real <= b <= high * n as real
    ensures low * (m + n) as real <= a + b <= high * (m + n) as real
  {
  }

  lemma {:induction false} DrawWithin(clusters: seq<Cluster>, draw: seq<nat>, low: real, high: real)
    requires AllWithin(clusters, low, high) && forall j :: 0 <= j < |draw| ==> draw[j] < |clusters|
    ensures low * DrawCount(clusters, draw) as real <= DrawTotal(clusters, draw) <= high * DrawCount(clusters, draw) as real
  {
    hide Total, Within;
    if draw != [] {
      var front, members := draw[..|draw| - 1], clusters[draw[|draw| - 1]].members;
      DrawWithin(clusters, front, low, high);
      TotalWithin(members, low, high);
      AddBounds(low, high, DrawCount(clusters, front), |members|, DrawTotal(clusters, front), Total(members));
    }
  }

  lemma ClusterMeanWithin(clusters: seq<Cluster>, draw: seq<nat>, low: real, high: real)
    requires Filled(clusters) && AllWithin(clusters, low, high)
    requires draw != [] && forall j :: 0 <= j < |draw| ==> draw[j] < |clusters|
    ensures low <= ClusterMean(clusters, draw) <= high
  {
    hide AllWithin, DrawTotal, DrawCount;
    DrawNotEmpty(clusters, draw);
    DrawWithin(clusters, draw, low, high);
    MeanWithin(DrawTotal(clusters, draw), DrawCount(clusters, draw), low, high);
  }

  lemma ClusterMeansWithin(clusters: seq<Cluster>, draws: seq<seq<nat>>, low: real, high: real)
    requires Filled(clusters) && AllWithin(clusters, low, high) && GoodDraws(draws, |clusters|)
    ensures Within(ClusterMeans(clusters, draws), low, high)
  {
    hide AllWithin, ClusterMean;
    forall b | 0 <= b < |draws| ensures low <= ClusterMean(clusters, draws[b]) <= high {
      ClusterMeanWithin(clusters, draws[b], low, high);
    }
  }

  lemma IidMeansWithin(values: seq<real>, draws: seq<seq<nat>>, low: real, high: real)
    requires values != [] && Within(values, low, high) && GoodDraws(draws, |values|)
    ensures Within(IidMeans(values, draws), low, high)
  {
    hide Total;
    forall b | 0 <= b < |draws| ensures low <= Total(Deal(values, draws[b])) / |values| as real <= high {
      TotalWithin(Deal(values, draws[b]), low, high);
      MeanWithin(Total(Deal(values, draws[b])), |values|, low, high);
    }
  }

  lemma QuantilesWithin(means: seq<real>, p: real, q: real, low: real, high: real)
    requires means != [] && Within(means, low, high) && 0.0 <= p <= q <= 1.0
    ensures var s := Sort(means, AtMost);
      && Percentile(s, p).Some? && Percentile(s, q).Some?
      && low <= Percentile(s, p).value <= Percentile(s, q).value <= high
  {
    var s := Sort(means, AtMost);
    SortOrders(means, AtMost);
    forall i | 0 <= i < |s| ensures low <= s[i] <= high {
      SortedMembers(means, AtMost, s[i]);
      assert s[i] in means;
    }
    PercentileInRange(s, p);
    PercentileInRange(s, q);
    PercentileIsMonotone(s, p, q);
  }

  /** Whatever was drawn, both intervals are intervals and stay inside any bounds on the data, and so does the point. */
  lemma IntervalIsSound(values: seq<real>, keys: seq<string>, clusterDraws: seq<seq<nat>>, iidDraws: seq<seq<nat>>, ci: real, low: real, high: real)
    requires |values| == |keys| && values != [] && 0.0 <= ci <= 1.0 && Within(values, low, high)
    requires GoodDraws(clusterDraws, |Clusters(values, keys)|) && GoodDraws(iidDraws, |values|)
    requires clusterDraws != [] && iidDraws != []
    ensures var r := Interval(values, keys, clusterDraws, iidDraws, ci);
      && r.lo.Some? && r.hi.Some? && low <= r.lo.value <= r.hi.value <= high
      && r.iidLo.Some? && r.iidHi.Some? && low <= r.iidLo.value <= r.iidHi.value <= high
      && r.point.Some? && low <= r.point.value <= high
  {
    hide Clusters, ClusterMeans, IidMeans, GoodDraws, Percentile, Sort;
    var loQ := (1.0 - ci) / 2.0;
    ClustersFilled(values, keys);
    ClustersWithin(values, keys, low, high);
    ClusterMeansWithin(Clusters(values, keys), clusterDraws, low, high);
    IidMeansWithin(values, iidDraws, low, high);
    QuantilesWithin(ClusterMeans(Clusters(values, keys), clusterDraws), loQ, 1.0 - loQ, low, high);
    QuantilesWithin(IidMeans(values, iidDraws), loQ, 1.0 - loQ, low, high);
    TotalWithin(values, low, high);
    MeanWithin(Total(values), |values|, low, high);
  }

  lemma RelabelledDraws(clusters: seq<Cluster>, f: string -> string, draw: seq<nat>)
    requires forall j :: 0 <= j < |draw| ==> draw[j] < |clusters|
    ensures DrawTotal(Relabelled(clusters, f), draw) == DrawTotal(clusters, draw)
    ensures DrawCount(Relabelled(clusters, f), draw) == DrawCount(clusters, draw)
  {
    if draw != [] {
      RelabelledDraws(clusters, f, draw[..|draw| - 1]);
    }
  }

  /** Only which values share a cluster matters, not what the clusters are called. */
  lemma NamesDoNotMatter(values: seq<real>, keys: seq<string>, f: string -> string, clusterDraws: seq<seq<nat>>, iidDraws: seq<seq<nat>>, ci: real)
    requires |values| == |keys| && values != [] && 0.0 <= ci <= 1.0 && Injective(f)
    requires GoodDraws(clusterDraws, |Clusters(values, keys)|) && GoodDraws(iidDraws, |values|)
    ensures |Clusters(values, Map(keys, f))| == |Clusters(values, keys)|
    ensures Interval(values, Map(keys, f), clusterDraws, iidDraws, ci) == Interval(values, keys, clusterDraws, iidDraws, ci)
  {
    hide Injective, Percentile, Sort, IidMeans;
    ClustersRelabel(values, keys, f);
    hide Clusters;
    var cs, ds := Clusters(values, keys), Clusters(values, Map(keys, f));
    ClustersFilled(values, keys);
    ClustersFilled(values, Map(keys, f));
    forall b | 0 <= b < |clusterDraws| ensures ClusterMean(ds, clusterDraws[b]) == ClusterMean(cs, clusterDraws[b]) {
      RelabelledDraws(cs, f, clusterDraws[b]);
    }
    assert ClusterMeans(ds, clusterDraws) == ClusterMeans(cs, clusterDraws);
  }

  // ------------------------------------------------------------------------- verdicts

  datatype Verdict = Edge | Refuted | Inconclusive

  /** A comparison with NaN is false. */
  predicate LowerAbove(ci: BootstrapCI, x: real) { ci.lo.Some? && ci.lo.value > x }

  predicate UpperBelow(ci: BootstrapCI, x: real) { ci.hi.Some? && ci.hi.value < x }

  function ThreeStateVerdict(ci: BootstrapCI, sesoi: real, minN: nat, minClusters: nat): Verdict {
    if ci.n < minN || ci.nClusters < minClusters then Inconclusive
    else if LowerAbove(ci, 0.0) then Edge
    else if UpperBelow(ci, sesoi) then Refuted
    else Inconclusive
  }

  const GO_CI_SESOI := 0.0
  const GO_CI_MIN_N: nat := 200
  const GO_CI_MIN_CLUSTERS: nat := 10

  function Layer1Verdict(ci: BootstrapCI): Verdict { ThreeStateVerdict(ci, GO_CI_SESOI, GO_CI_MIN_N, GO_CI_MIN_CLUSTERS) }

  lemma {:induction false} Bounds(values: seq<real>) returns (low: real, high: real)
    requires values != []
    ensures Within(values, low, high) && low in values && high in values
  {
    var n := |values| - 1;
    if n == 0 {
      low, high := values[0], values[0];
    } else {
      low, high := Bounds(values[..n]);
      low := if values[n] < low then values[n] else low;
      high := if values[n] > high then values[n] else high;
    }
  }

  /** Resampled data whose verdict is EDGE although the interval lies below the smallest effect of interest. */
  ghost predicate Overlaps(values: seq<real>, keys: seq<string>, clusterDraws: seq<seq<nat>>, iidDraws: seq<seq<nat>>,
                           ci: real, sesoi: real, minN: nat, minClusters: nat)
  {
    && |values| == |keys| && values != [] && 0.0 <= ci <= 1.0
    && GoodDraws(clusterDraws, |Clusters(values, keys)|) && GoodDraws(iidDraws, |values|)
    && clusterDraws != [] && iidDraws != []
    && var r := Interval(values, keys, clusterDraws, iidDraws, ci);
       ThreeStateVerdict(r, sesoi, minN, minClusters).Edge? && UpperBelow(r, sesoi)
  }

  /** Gains that are all smaller than the effect of interest come out like that, whatever is drawn. */
  lemma SmallGainsOverlap(values: seq<real>, keys: seq<string>, clusterDraws: seq<seq<nat>>, iidDraws: seq<seq<nat>>,
                          ci: real, sesoi: real, minN: nat, minClusters: nat)
    requires |values| == |keys| && values != [] && 0.0 <= ci <= 1.0
    requires GoodDraws(clusterDraws, |Clusters(values, keys)|) && GoodDraws(iidDraws, |values|)
    requires clusterDraws != [] && iidDraws != []
    requires |values| >= minN && |Clusters(values, keys)| >= minClusters
    requires forall i :: 0 <= i < |values| ==> 0.0 < values[i] < sesoi
    ensures Overlaps(values, keys, clusterDraws, iidDraws, ci, sesoi, minN, minClusters)
  {
    hide Clusters, ClusterMeans, IidMeans, GoodDraws, Percentile, Sort, Within;
    var low, high := Bounds(values);
    IntervalIsSound(values, keys, clusterDraws, iidDraws, ci, low, high);
  }

  lemma {:induction false} FreshKeyAddsCluster(clusters: seq<Cluster>, key: string, v: real)
    requires !HasKey(clusters, key)
    ensures |AddTo(clusters, key, v)| == |clusters| + 1
  {
    if clusters != [] {
      KeyHead(clusters, key);
      FreshKeyAddsCluster(clusters[1..], key, v);
    }
  }

  /** n keys, no two alike. */
  function Labels(n: nat): (r: seq<string>)
    ensures |r| == n && forall i :: 0 <= i < n ==> |r[i]| == i
  {
    seq(n, i requires 0 <= i < n => seq(i, _ => 'k'))
  }

  lemma {:induction false} OwnClusters(values: seq<real>, keys: seq<string>)
    requires |values| == |keys| && forall i :: 0 <= i < |keys| ==> |keys[i]| == i
    ensures |Clusters(values, keys)| == |values|
  {
    if values != [] {
      var n := |values| - 1;
      OwnClusters(values[..n], keys[..n]);
      ClustersFile(values[..n], keys[..n], keys[n]);
      FreshKeyAddsCluster(Clusters(values[..n], keys[..n]), keys[n], values[n]);
    }
  }

  /**
   A meaningful effect can be ruled out and the verdict still read EDGE exactly when the
   smallest effect of interest is positive, for any confidence level and any guards on
   the number of rows and clusters.
   */
  lemma VerdictsOverlapIff(ci: real, sesoi: real, minN: nat, minClusters: nat)
    requires 0.0 <= ci <= 1.0
    ensures (exists values, keys, clusterDraws, iidDraws ::
               Overlaps(values, keys, clusterDraws, iidDraws, ci, sesoi, minN, minClusters))
       <==> sesoi > 0.0
  {
    if sesoi > 0.0 {
      var _, _, _, _ := OverlapExample(ci, sesoi, minN, minClusters);
    }
    forall values, keys, clusterDraws, iidDraws | Overlaps(values, keys, clusterDraws, iidDraws, ci, sesoi, minN, minClusters)
      ensures sesoi > 0.0
    {
      OverlapNeedsEffect(values, keys, clusterDraws, iidDraws, ci, sesoi, minN, minClusters);
    }
  }

  lemma OverlapNeedsEffect(values: seq<real>, keys: seq<string>, clusterDraws: seq<seq<nat>>, iidDraws: seq<seq<nat>>,
                           ci: real, sesoi: real, minN: nat, minClusters: nat)
    requires Overlaps(values, keys, clusterDraws, iidDraws, ci, sesoi, minN, minClusters)
    ensures sesoi > 0.0
  {
    hide Clusters, ClusterMeans, IidMeans, GoodDraws, Percentile, Sort, Within;
    var low, high := Bounds(values);
    IntervalIsSound(values, keys, clusterDraws, iidDraws, ci, low, high);
  }

  lemma OverlapExample(ci: real, sesoi: real, minN: nat, minClusters: nat)
    returns (values: seq<real>, keys: seq<string>, clusterDraws: seq<seq<nat>>, iidDraws: seq<seq<nat>>)
    requires 0.0 <= ci <= 1.0 && sesoi > 0.0
    ensures Overlaps(values, keys, clusterDraws, iidDraws, ci, sesoi, minN, minClusters)
  {
    hide Overlaps, Clusters;
    var n := 1 + minN + minClusters;
    values, keys := seq(n, _ => sesoi / 2.0), Labels(n);
    OwnClusters(values, keys);
    var draw: seq<nat> := seq(n, _ => 0);
    clusterDraws, iidDraws := [draw], [draw];
    SmallGainsOverlap(values, keys, clusterDraws, iidDraws, ci, sesoi, minN, minClusters);
  }

  /**
   Data on one side of zero settle the verdict for every draw: all gains are an edge,
   all losses are a refutation, as soon as there are enough rows and clusters; with too
   few of either nothing is ever concluded.
   */
  lemma OneSidedDataDecide(values: seq<real>, keys: seq<string>, clusterDraws: seq<seq<nat>>, iidDraws: seq<seq<nat>>, ci: real)
    requires |values| == |keys| && values != [] && 0.0 <= ci <= 1.0
    requires GoodDraws(clusterDraws, |Clusters(values, keys)|) && GoodDraws(iidDraws, |values|)
    requires clusterDraws != [] && iidDraws != []
    ensures var v := Layer1Verdict(Interval(values, keys, clusterDraws, iidDraws, ci));
      var enough := |values| >= GO_CI_MIN_N && |Clusters(values, keys)| >= GO_CI_MIN_CLUSTERS;
      && (!enough ==> v == Inconclusive)
      && (enough && (forall i :: 0 <= i < |values| ==> values[i] > 0.0) ==> v == Edge)
      && (enough && (forall i :: 0 <= i < |values| ==> values[i] < 0.0) ==> v == Refuted)
  {
    hide Clusters, ClusterMeans, IidMeans, GoodDraws, Percentile, Sort, Within;
    var low, high := Bounds(values);
    IntervalIsSound(values, keys, clusterDraws, iidDraws, ci, low, high);
  }
}
