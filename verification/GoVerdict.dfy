/**
 The GO edge read off one selection (scripts/run_cross_market_journey.py): the mean
 row-wise differences of one seed, one cluster bootstrap, one verdict.
 */
module GoVerdict {
  import opened Arithmetic
  import opened Markets
  import opened StableSort
  import opened Sums
  import opened SurvivalRows
  import opened CachedSweep
  import opened ClusterBootstrap
  import opened CrossMarketJourney

  const CONFIDENCE := 0.95

  /** What a generator hands the bootstrap for so many items: at least one draw, of valid indices. */
  type Generator = nat -> seq<seq<nat>>

  ghost predicate GoodGenerator(g: Generator) {
    forall n :: g(n) != [] && GoodDraws(g(n), n)
  }

  /** The same configuration, blind to the signal, was selected on every arm. */
  ghost predicate BlindArms(decide: SignalRow -> Action, arms: seq<Arm>) {
    SignalBlind(decide) && forall k :: 0 <= k < |arms| ==> arms[k].decide == decide
  }

  ghost predicate AllZero(xs: seq<real>) { Within(xs, 0.0, 0.0) }

  lemma BlindSeedIsZero(w: Window, active: seq<SignalRow>, decide: SignalRow -> Action, arms: seq<Arm>, mean: seq<real>)
    requires GoodArms(active, arms) && BlindArms(decide, arms) && arms != []
    requires forall k :: 0 <= k < |arms| ==> ArmDelta(w, active, decide, arms[k]).Ok?
    requires MeanDeltas(ArmDeltas(w, active, decide, arms)) == Ok(mean)
    ensures AllZero(mean)
  {
    hide ArmDelta, SignalBlind;
    var lists := ArmDeltas(w, active, decide, arms);
    forall k | 0 <= k < |lists| ensures AllZero(lists[k]) {
      assert arms[k] == Arm(arms[k].order, decide);
      BlindConfigurationHasNoEdge(w, active, arms[k].order, decide);
      assert forall j :: 0 <= j < |lists[k]| ==> lists[k][j] in lists[k];
    }
    forall i | 0 <= i < |mean| ensures mean[i] == 0.0 {
      MeanOfZeros(lists, i);
    }
  }

  lemma MeanOfZeros(lists: seq<seq<real>>, i: nat)
    requires lists != [] && forall k :: 0 <= k < |lists| ==> i < |lists[k]| && AllZero(lists[k])
    ensures MeanAt(lists, i) == 0.0
  {
    var column := seq(|lists|, k requires 0 <= k < |lists| => lists[k][i]);
    TotalWithin(column, 0.0, 0.0);
    MeanWithin(Total(column), |lists|, 0.0, 0.0);
  }

  /** The treatment does better (sign 1) or worse (sign -1) than every placebo arm on every matched row. */
  ghost predicate BeatsAll(w: Window, active: seq<SignalRow>, decide: SignalRow -> Action, arms: seq<Arm>, sign: real)
    requires GoodArms(active, arms)
  {
    forall k :: 0 <= k < |arms| ==> Beats(w, active, decide, arms[k], sign)
  }

  lemma BeatenSeedHasTheSign(w: Window, active: seq<SignalRow>, decide: SignalRow -> Action, arms: seq<Arm>, mean: seq<real>, sign: real)
    requires GoodArms(active, arms) && arms != [] && (sign == 1.0 || sign == -1.0) && BeatsAll(w, active, decide, arms, sign)
    requires forall k :: 0 <= k < |arms| ==> ArmDelta(w, active, decide, arms[k]).Ok?
    requires MeanDeltas(ArmDeltas(w, active, decide, arms)) == Ok(mean)
    ensures AllOfSign(mean, sign)
  {
    hide ArmDelta, Beats;
    var lists := ArmDeltas(w, active, decide, arms);
    forall k | 0 <= k < |lists| ensures AllOfSign(lists[k], sign) {
      BeatenArmDelta(w, active, decide, arms[k], sign);
    }
    forall i | 0 <= i < |mean| ensures sign * mean[i] > 0.0 {
      MeanOfSign(lists, i, sign);
    }
  }

  lemma MeanOfSign(lists: seq<seq<real>>, i: nat, sign: real)
    requires lists != [] && (sign == 1.0 || sign == -1.0)
    requires forall k :: 0 <= k < |lists| ==> i < |lists[k]| && AllOfSign(lists[k], sign)
    ensures sign * MeanAt(lists, i) > 0.0
  {
    var column := seq(|lists|, k requires 0 <= k < |lists| => lists[k][i]);
    assert forall k :: 0 <= k < |column| ==> sign * column[k] > 0.0;
    var low, high := Bounds(column);
    TotalWithin(column, low, high);
    MeanWithin(Total(column), |lists|, low, high);
  }

  /** What the i-th entries of all lists add up to. */
  function ColumnTotals(lists: seq<seq<real>>, width: nat): (r: seq<real>)
    requires forall k :: 0 <= k < |lists| ==> |lists[k]| >= width
    ensures |r| == width
    ensures forall i :: 0 <= i < width ==> r[i] == Total(Column(lists, i))
  {
    seq(width, i requires 0 <= i < width => Total(Column(lists, i)))
  }

  function Column(lists: seq<seq<real>>, i: nat): (r: seq<real>)
    requires forall k :: 0 <= k < |lists| ==> |lists[k]| > i
    ensures |r| == |lists| && forall k :: 0 <= k < |r| ==> r[k] == lists[k][i]
  {
    seq(|lists|, k requires 0 <= k < |lists| => lists[k][i])
  }

  lemma {:induction false} TotalScaled(xs: seq<real>, ys: seq<real>, c: real)
    requires |xs| == |ys| && forall i :: 0 <= i < |xs| ==> ys[i] == xs[i] * c
    ensures Total(ys) == Total(xs) * c
  {
    if xs != [] {
      var n := |xs| - 1;
      TotalScaled(xs[..n], ys[..n], c);
      Distribute(c, Total(xs[..n]), xs[n]);
    }
  }

  lemma MeanTimesArms(lists: seq<seq<real>>, i: nat)
    requires lists != [] && forall k :: 0 <= k < |lists| ==> i < |lists[k]|
    ensures MeanAt(lists, i) * |lists| as real == Total(Column(lists, i))
  {
    assert seq(|lists|, k requires 0 <= k < |lists| => lists[k][i]) == Column(lists, i);
    hide Total;
    var m := |lists| as real;
    assert m > 0.0;
  }

  lemma MeansExist(lists: seq<seq<real>>, width: nat)
    requires lists != [] && forall k :: 0 <= k < |lists| ==> |lists[k]| == width
    ensures MeanDeltas(lists).Ok? && |MeanDeltas(lists).value| == width
    ensures forall i :: 0 <= i < width ==> MeanDeltas(lists).value[i] == MeanAt(lists, i)
  {
    hide MeanAt;
  }

  /** The mean differences, times the arms, add up to what the arms' differences add up to. */
  lemma MeansAddUp(lists: seq<seq<real>>, width: nat)
    requires lists != [] && forall k :: 0 <= k < |lists| ==> |lists[k]| == width
    ensures MeanDeltas(lists).Ok? && |MeanDeltas(lists).value| == width
    ensures Total(MeanDeltas(lists).value) * |lists| as real == Total(TotalsOf(lists))
  {
    hide Total, MeanAt, MeanDeltas, ColumnTotals, Column, TotalsOf;
    MeansExist(lists, width);
    var mean := MeanDeltas(lists).value;
    forall i | 0 <= i < width ensures ColumnTotals(lists, width)[i] == mean[i] * |lists| as real {
      MeanTimesArms(lists, i);
    }
    TotalScaled(mean, ColumnTotals(lists, width), |lists| as real);
    SumsExchange(lists, width);
  }

  lemma {:induction false} SumsExchange(lists: seq<seq<real>>, width: nat)
    requires lists != [] && forall k :: 0 <= k < |lists| ==> |lists[k]| == width
    ensures Total(ColumnTotals(lists, width)) == Total(TotalsOf(lists))
    decreases width
  {
    hide Total, TotalsOf, Column;
    if width == 0 {
      AllEmpty(lists);
      assert ColumnTotals(lists, width) == [];
      TotalOfNothing();
    } else {
      hide ColumnTotals;
      var fronts := Fronts(lists);
      SumsExchange(fronts, width - 1);
      ColumnsPush(lists, width);
      TotalPush(ColumnTotals(fronts, width - 1), Total(Column(lists, width - 1)));
      LastColumn(lists, width);
    }
  }

  lemma ColumnsPush(lists: seq<seq<real>>, width: nat)
    requires lists != [] && width > 0 && forall k :: 0 <= k < |lists| ==> |lists[k]| == width
    ensures ColumnTotals(lists, width) == ColumnTotals(Fronts(lists), width - 1) + [Total(Column(lists, width - 1))]
  {
    hide Total, ColumnTotals;
    var fronts := Fronts(lists);
    forall i | 0 <= i < width - 1 ensures ColumnTotals(lists, width)[i] == ColumnTotals(fronts, width - 1)[i] {
      assert Column(lists, i) == Column(fronts, i);
    }
  }

  function TotalsOf(lists: seq<seq<real>>): (r: seq<real>)
    ensures |r| == |lists| && forall k :: 0 <= k < |r| ==> r[k] == Total(lists[k])
  {
    seq(|lists|, k requires 0 <= k < |lists| => Total(lists[k]))
  }

  function Fronts(lists: seq<seq<real>>): (r: seq<seq<real>>)
    requires forall k :: 0 <= k < |lists| ==> lists[k] != []
    ensures |r| == |lists| && forall k :: 0 <= k < |r| ==> r[k] == lists[k][..|lists[k]| - 1]
  {
    seq(|lists|, k requires 0 <= k < |lists| => lists[k][..|lists[k]| - 1])
  }

  lemma {:induction false} AllEmpty(lists: seq<seq<real>>)
    requires forall k :: 0 <= k < |lists| ==> lists[k] == []
    ensures Total(TotalsOf(lists)) == 0.0
  {
    if lists != [] {
      AllEmpty(lists[..|lists| - 1]);
      assert TotalsOf(lists)[..|lists| - 1] == TotalsOf(lists[..|lists| - 1]);
    }
  }

  lemma LastColumn(lists: seq<seq<real>>, width: nat)
    requires lists != [] && width > 0 && forall k :: 0 <= k < |lists| ==> |lists[k]| == width
    ensures Total(Column(lists, width - 1)) + Total(TotalsOf(Fronts(lists))) == Total(TotalsOf(lists))
  {
    TotalOfSums(TotalsOf(Fronts(lists)), Column(lists, width - 1), TotalsOf(lists));
  }

  lemma {:induction false} TotalOfSums(a: seq<real>, b: seq<real>, c: seq<real>)
    requires |a| == |b| == |c| && forall k :: 0 <= k < |c| ==> c[k] == a[k] + b[k]
    ensures Total(c) == Total(a) + Total(b)
  {
    if c != [] {
      TotalOfSums(a[..|a| - 1], b[..|b| - 1], c[..|c| - 1]);
    }
  }

  /** Zero differences are inconclusive, whatever is drawn. */
  lemma ZerosAreInconclusive(values: seq<real>, keys: seq<string>, clusterDraws: seq<seq<nat>>, iidDraws: seq<seq<nat>>)
    requires |values| == |keys| && values != [] && AllZero(values)
    requires GoodDraws(clusterDraws, |Clusters(values, keys)|) && GoodDraws(iidDraws, |values|)
    requires clusterDraws != [] && iidDraws != []
    ensures Layer1Verdict(Interval(values, keys, clusterDraws, iidDraws, CONFIDENCE)).Inconclusive?
  {
    hide Clusters, ClusterMeans, IidMeans, GoodDraws, Percentile;
    IntervalIsSound(values, keys, clusterDraws, iidDraws, CONFIDENCE, 0.0, 0.0);
  }

  lemma SignDecides(values: seq<real>, keys: seq<string>, clusterDraws: seq<seq<nat>>, iidDraws: seq<seq<nat>>, sign: real)
    requires |values| == |keys| && values != [] && (sign == 1.0 || sign == -1.0) && AllOfSign(values, sign)
    requires GoodDraws(clusterDraws, |Clusters(values, keys)|) && GoodDraws(iidDraws, |values|)
    requires clusterDraws != [] && iidDraws != []
    ensures |values| >= 200 && |Clusters(values, keys)| >= 10 ==>
      Layer1Verdict(Interval(values, keys, clusterDraws, iidDraws, CONFIDENCE)) == if sign == 1.0 then Edge else Refuted
  {
    hide Clusters, ClusterMeans, IidMeans, GoodDraws, Percentile, Interval, Layer1Verdict;
    forall i | 0 <= i < |values| ensures sign == 1.0 ==> values[i] > 0.0
                                 ensures sign == -1.0 ==> values[i] < 0.0 {
      assert sign * values[i] > 0.0;
    }
    OneSidedDataDecide(values, keys, clusterDraws, iidDraws, CONFIDENCE);
  }

  /**
   From the rows to the verdict of one seed. It fails only without a test window; and a
   configuration that never looks at the signal is never given an edge, nor refuted, by
   any placebo permutations and any bootstrap draws. With enough rows and clusters, one
   that beats every placebo arm on every matched row has the edge, and one that is beaten
   on every row is refuted.
   */
  method HeadlineVerdict(w: Window, active: seq<SignalRow>, decide: SignalRow -> Action, arms: seq<Arm>,
                         clusterDraws: Generator, iidDraws: Generator)
    returns (r: Result<(BootstrapCI, Verdict)>, ghost mean: seq<real>)
    requires GoodArms(active, arms) && GoodGenerator(clusterDraws) && GoodGenerator(iidDraws)
    ensures r.Ok? <==> TestRows(active, w.snapshots, w.floor, w.fraction).Ok?
    ensures r.Ok? ==> r.value.1 == Layer1Verdict(r.value.0)
    ensures r.Ok? && arms == [] ==> r.value.0.n == 0
    ensures r.Ok? && arms != [] ==>
      r.value.0.n == |MatchedKeys(Floored(w.physics, TestRows(active, w.snapshots, w.floor, w.fraction).value))|
    ensures r.Ok? && arms != [] ==>
      && (forall k :: 0 <= k < |arms| ==> ArmDelta(w, active, decide, arms[k]).Ok?)
      && MeanDeltas(ArmDeltas(w, active, decide, arms)) == Ok(mean)
    ensures r.Ok? && arms != [] && mean != [] ==>
      var keys := MatchedKeys(Floored(w.physics, TestRows(active, w.snapshots, w.floor, w.fraction).value));
      |mean| == |keys| && r.value.0 == Interval(mean, keys, clusterDraws(|Clusters(mean, keys)|), iidDraws(|mean|), CONFIDENCE)
    ensures r.Ok? && BlindArms(decide, arms) ==> r.value.1.Inconclusive?
    ensures r.Ok? && arms != [] && r.value.0.n >= 200 && r.value.0.nClusters >= 10 ==>
      && (BeatsAll(w, active, decide, arms, 1.0) ==> r.value.1 == Edge)
      && (BeatsAll(w, active, decide, arms, -1.0) ==> r.value.1 == Refuted)
  {
    hide BeatsAll, AllOfSign, TestRows, MatchedKeys, Floored, ArmDelta, BlindArms, Clusters, ClusterMeans, IidMeans, Percentile, Sort, AllZero, MeanDeltas, GoodArms, GoodDraws;
    var deltas := SeedMeanDelta(w, active, decide, arms);
    if deltas.Err? {
      return Err(deltas.reason), [];
    }
    var d := deltas.value;
    mean := d.values;
    var forClusters, forRows := clusterDraws(|Clusters(d.values, d.keys)|), iidDraws(|d.values|);
    var ci := ClusterBootstrapCi(d.values, d.keys, forClusters, forRows, CONFIDENCE);
    if BlindArms(decide, arms) && d.values != [] {
      BlindSeedIsZero(w, active, decide, arms, d.values);
      ZerosAreInconclusive(d.values, d.keys, forClusters, forRows);
    }
    if arms != [] && d.values != [] {
      if BeatsAll(w, active, decide, arms, 1.0) {
        BeatenSeedHasTheSign(w, active, decide, arms, d.values, 1.0);
        SignDecides(d.values, d.keys, forClusters, forRows, 1.0);
      }
      if BeatsAll(w, active, decide, arms, -1.0) {
        BeatenSeedHasTheSign(w, active, decide, arms, d.values, -1.0);
        SignDecides(d.values, d.keys, forClusters, forRows, -1.0);
      }
    }
    return Ok((ci.value, Layer1Verdict(ci.value))), mean;
  }
}
