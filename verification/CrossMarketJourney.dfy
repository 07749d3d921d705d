/** Pairing the treatment and placebo arms row by row (scripts/run_cross_market_journey.py). */
module CrossMarketJourney {
  import opened Markets
  import opened StableSort
  import opened Sums
  import opened Permutations
  import opened CachedSweep
  import opened SetprobAugment
  import opened SurvivalRows

  datatype Deltas = Deltas(values: seq<real>, keys: seq<string>)

  /** Row-wise differences over the matched rows; arms that do not line up are refused. */
  function GoDelta(t: seq<Scored>, p: seq<Scored>): Result<Deltas> {
    if |t| != |p| then Err("different lengths")
    else if t == [] then Ok(Deltas([], []))
    else
      var i := |t| - 1;
      match GoDelta(t[..i], p[..i])
      case Err(e) => Err(e)
      case Ok(d) =>
        if t[i].clusterKey != p[i].clusterKey then Err("cluster key mismatch")
        else if t[i].clusterKey == "" then Ok(d)
        else Ok(Deltas(d.values + [t[i].pnl - p[i].pnl], d.keys + [t[i].clusterKey]))
  }

  method ComputeGoDelta(t: seq<Scored>, p: seq<Scored>) returns (r: Result<Deltas>)
    ensures r == GoDelta(t, p)
  {
    if |t| != |p| {
      return Err("different lengths");
    }
    var values: seq<real>, keys: seq<string> := [], [];
    for i := 0 to |t|
      invariant GoDelta(t[..i], p[..i]) == Ok(Deltas(values, keys))
    {
      assert t[..i + 1][..i] == t[..i] && p[..i + 1][..i] == p[..i];
      if t[i].clusterKey != p[i].clusterKey {
        MismatchStops(t, p, i + 1);
        return Err("cluster key mismatch");
      }
      if t[i].clusterKey == "" {
        continue;
      }
      values := values + [t[i].pnl - p[i].pnl];
      keys := keys + [t[i].clusterKey];
    }
    assert t[..|t|] == t && p[..|p|] == p;
    return Ok(Deltas(values, keys));
  }

  lemma {:induction false} MismatchStops(t: seq<Scored>, p: seq<Scored>, i: nat)
    requires |t| == |p| && i <= |t| && GoDelta(t[..i], p[..i]).Err?
    ensures GoDelta(t, p) == GoDelta(t[..i], p[..i])
    decreases |t|
  {
    if i == |t| {
      assert t[..i] == t && p[..i] == p;
    } else {
      var n := |t| - 1;
      assert t[..n][..i] == t[..i] && p[..n][..i] == p[..i];
      MismatchStops(t[..n], p[..n], i);
    }
  }

  /** What an arm earned on the matched rows. */
  function MatchedTotal(scored: seq<Scored>): real {
    if scored == [] then 0.0
    else
      var last := scored[|scored| - 1];
      MatchedTotal(scored[..|scored| - 1]) + if last.clusterKey != "" then last.pnl else 0.0
  }

  /** The places of the matched rows, in order. */
  function MatchedPlaces(scored: seq<Scored>): (r: seq<nat>)
    ensures forall k :: 0 <= k < |r| ==> r[k] < |scored| && scored[r[k]].clusterKey != ""
  {
    if scored == [] then []
    else
      var i := |scored| - 1;
      var front := MatchedPlaces(scored[..i]);
      assert forall k :: 0 <= k < |front| ==> scored[..i][front[k]] == scored[front[k]];
      if scored[i].clusterKey != "" then front + [i] else front
  }

  /** One number has the sign of the difference of two others. */
  predicate LeansTo(x: real, a: real, b: real) { (x > 0.0 <==> a > b) && (x < 0.0 <==> a < b) }

  ghost predicate IsEdge(t: seq<Scored>, p: seq<Scored>, d: Deltas) {
    && |t| == |p|
    && Total(d.values) == MatchedTotal(t) - MatchedTotal(p)
    && |d.values| == |d.keys| == |MatchedPlaces(t)|
    && forall k :: 0 <= k < |d.values| ==> RowEdge(t, p, d, k, MatchedPlaces(t)[k])
  }

  /** Entry k of the differences is about row i. */
  ghost predicate RowEdge(t: seq<Scored>, p: seq<Scored>, d: Deltas, k: nat, i: nat) {
    && k < |d.values| == |d.keys| && i < |t| == |p|
    && d.keys[k] == t[i].clusterKey && LeansTo(d.values[k], t[i].pnl, p[i].pnl)
  }

  /**
   The arms pair exactly when their keys agree row by row. The differences then add up to
   what the treatment earned more on the matched rows, and each is positive exactly where
   the treatment did better.
   */
  lemma {:induction false} DeltasAreTheEdge(t: seq<Scored>, p: seq<Scored>)
    ensures GoDelta(t, p).Ok? <==> |t| == |p| && forall i :: 0 <= i < |t| ==> t[i].clusterKey == p[i].clusterKey
    ensures GoDelta(t, p).Ok? ==> IsEdge(t, p, GoDelta(t, p).value)
  {
    hide IsEdge;
    if |t| == |p| {
      if t == [] {
        NoEdgeOfNothing();
      } else {
        var i := |t| - 1;
        DeltasAreTheEdge(t[..i], p[..i]);
        if GoDelta(t[..i], p[..i]).Ok? && t[i].clusterKey == p[i].clusterKey {
          EdgePush(t, p, GoDelta(t[..i], p[..i]).value, GoDelta(t, p).value);
        }
      }
    }
  }

  lemma NoEdgeOfNothing()
    ensures IsEdge([], [], Deltas([], []))
  {
  }

  lemma EdgePush(t: seq<Scored>, p: seq<Scored>, front: Deltas, d: Deltas)
    requires |t| == |p| && t != [] && IsEdge(t[..|t| - 1], p[..|t| - 1], front)
    requires var i := |t| - 1;
      d == if t[i].clusterKey == "" then front
           else Deltas(front.values + [t[i].pnl - p[i].pnl], front.keys + [t[i].clusterKey])
    requires t[|t| - 1].clusterKey == p[|t| - 1].clusterKey
    ensures IsEdge(t, p, d)
  {
    hide Total;
    var i := |t| - 1;
    var places := MatchedPlaces(t[..i]);
    TotalPush(front.values, t[i].pnl - p[i].pnl);
    forall k | 0 <= k < |d.values| ensures RowEdge(t, p, d, k, MatchedPlaces(t)[k]) {
      if k < |places| {
        assert RowEdge(t[..i], p[..i], front, k, places[k]);
      }
    }
  }

  /** The i-th entries of all lists, averaged. */
  function MeanAt(lists: seq<seq<real>>, i: nat): real
    requires lists != [] && forall k :: 0 <= k < |lists| ==> i < |lists[k]|
  {
    Total(seq(|lists|, k requires 0 <= k < |lists| => lists[k][i])) / |lists| as real
  }

  function MeanDeltas(lists: seq<seq<real>>): Result<seq<real>> {
    if lists == [] then Ok([])
    else if exists k :: 0 <= k < |lists| && |lists[k]| != |lists[0]| then Err("vectors differ in length")
    else Ok(seq(|lists[0]|, i requires 0 <= i < |lists[0]| => MeanAt(lists, i)))
  }

  /** One placebo arm: its permutation and the configuration selected on it. */
  datatype Arm = Arm(order: seq<nat>, decide: SignalRow -> Action)

  datatype Window = Window(snapshots: seq<Snapshot>, floor: Option<real>, fraction: real, physics: Physics)

  function ArmScores(w: Window, rows: seq<SignalRow>, decide: SignalRow -> Action): Result<seq<Scored>> {
    match TestRows(rows, w.snapshots, w.floor, w.fraction)
    case Err(e) => Err(e)
    case Ok(test) => Ok(PerRow(w.physics, decide, test))
  }

  /** The row-wise difference between the treatment arm and one placebo arm. */
  ghost function ArmDelta(w: Window, active: seq<SignalRow>, decide: SignalRow -> Action, arm: Arm): Result<Deltas>
    requires IsPermutation(arm.order, |MatchedIdx(active)|)
  {
    var t, p := ArmScores(w, active, decide), ArmScores(w, Placebo(active, arm.order), arm.decide);
    if t.Ok? && p.Ok? then GoDelta(t.value, p.value) else Err("no test window")
  }

  ghost function ArmDeltas(w: Window, active: seq<SignalRow>, decide: SignalRow -> Action, arms: seq<Arm>): seq<seq<real>>
    requires GoodArms(active, arms) && forall k :: 0 <= k < |arms| ==> ArmDelta(w, active, decide, arms[k]).Ok?
  {
    seq(|arms|, k requires 0 <= k < |arms| => ArmDelta(w, active, decide, arms[k]).value.values)
  }

  ghost predicate GoodArms(rows: seq<SignalRow>, arms: seq<Arm>) {
    forall k :: 0 <= k < |arms| ==> IsPermutation(arms[k].order, |MatchedIdx(rows)|)
  }

  /**
   The per-seed readout: every placebo arm paired with the treatment arm, then averaged
   row by row. It fails only if there is no test window.
   */
  method SeedMeanDelta(w: Window, active: seq<SignalRow>, decide: SignalRow -> Action, arms: seq<Arm>)
    returns (r: Result<Deltas>)
    requires GoodArms(active, arms)
    ensures r.Ok? <==> TestRows(active, w.snapshots, w.floor, w.fraction).Ok?
    ensures r.Ok? && arms == [] ==> r.value == Deltas([], [])
    ensures r.Ok? && arms != [] ==>
      && r.value.keys == MatchedKeys(Floored(w.physics, TestRows(active, w.snapshots, w.floor, w.fraction).value))
      && |r.value.values| == |r.value.keys|
      && (forall k :: 0 <= k < |arms| ==> ArmDelta(w, active, decide, arms[k]).Ok?)
      && MeanDeltas(ArmDeltas(w, active, decide, arms)) == Ok(r.value.values)
  {
    hide GoDelta, MatchedKeys, TestRows, PerRow;
    var test := GetTestSignalRows(active, w.snapshots, w.floor, w.fraction);
    if test.Err? {
      return Err(test.reason);
    }
    var _, treatment := ScoreConfig(test.value, decide, w.physics);
    var deltas: seq<seq<real>>, keys: seq<string> := [], [];
    for k := 0 to |arms|
      invariant |deltas| == k
      invariant forall m :: 0 <= m < k ==> ArmDelta(w, active, decide, arms[m]).Ok?
      invariant forall m :: 0 <= m < k ==> deltas[m] == ArmDelta(w, active, decide, arms[m]).value.values
      invariant forall m :: 0 <= m < k ==> |deltas[m]| == |MatchedKeys(Floored(w.physics, test.value))|
      invariant k > 0 ==> keys == MatchedKeys(Floored(w.physics, test.value))
    {
      var placeboRows := MakePlaceboRows(active, arms[k].order);
      ArmsAlwaysPair(w, active, decide, arms[k]);
      var placeboTest := GetTestSignalRows(placeboRows, w.snapshots, w.floor, w.fraction);
      var _, placebo := ScoreConfig(placeboTest.value, arms[k].decide, w.physics);
      var d := ComputeGoDelta(treatment, placebo);
      keys := d.value.keys;
      deltas := deltas + [d.value.values];
    }
    if deltas == [] {
      return Ok(Deltas([], []));
    }
    assert deltas == ArmDeltas(w, active, decide, arms);
    var mean := MeanDeltas(deltas);
    if mean.Err? {
      return Err("vectors differ in length");
    }
    return Ok(Deltas(mean.value, keys));
  }

  // -------------------------------------------------------------- an edge on every row

  /** The treatment earns more than the placebo arm on every matched row of the test window above the floor. */
  ghost predicate Beats(w: Window, active: seq<SignalRow>, decide: SignalRow -> Action, arm: Arm, sign: real)
    requires IsPermutation(arm.order, |MatchedIdx(active)|)
  {
    var t, p := ArmScores(w, active, decide), ArmScores(w, Placebo(active, arm.order), arm.decide);
    t.Ok? && p.Ok? ==> BeatsRowwise(t.value, p.value, sign)
  }

  predicate BeatsRowwise(t: seq<Scored>, p: seq<Scored>, sign: real) {
    forall i :: 0 <= i < |t| && i < |p| && t[i].clusterKey != "" ==> sign * (t[i].pnl - p[i].pnl) > 0.0
  }

  ghost predicate AllOfSign(xs: seq<real>, sign: real) { forall i :: 0 <= i < |xs| ==> sign * xs[i] > 0.0 }

  /** Such an arm's differences are all of that sign. */
  lemma BeatenArmDelta(w: Window, active: seq<SignalRow>, decide: SignalRow -> Action, arm: Arm, sign: real)
    requires IsPermutation(arm.order, |MatchedIdx(active)|) && Beats(w, active, decide, arm, sign)
    requires (sign == 1.0 || sign == -1.0) && ArmDelta(w, active, decide, arm).Ok?
    ensures AllOfSign(ArmDelta(w, active, decide, arm).value.values, sign)
  {
    hide ArmScores, GoDelta, MatchedPlaces, MatchedTotal, Total;
    var t, p := ArmScores(w, active, decide).value, ArmScores(w, Placebo(active, arm.order), arm.decide).value;
    DeltasAreTheEdge(t, p);
    var d, places := GoDelta(t, p).value, MatchedPlaces(t);
    forall k | 0 <= k < |d.values| ensures sign * d.values[k] > 0.0 {
      assert RowEdge(t, p, d, k, places[k]);
      assert sign * (t[places[k]].pnl - p[places[k]].pnl) > 0.0;
    }
  }

  // ------------------------------------------------------------------ they always pair

  function MatchedKeys(rows: seq<SignalRow>): seq<string> {
    if rows == [] then []
    else
      var front, last := MatchedKeys(rows[..|rows| - 1]), rows[|rows| - 1];
      if Matched(last) then front + [last.clusterKey] else front
  }

  lemma {:induction false} NeutralFloored(ph: Physics, rows: seq<SignalRow>)
    ensures Floored(ph, MakeNeutralRows(rows)) == MakeNeutralRows(Floored(ph, rows))
  {
    if rows != [] {
      var front, last := rows[..|rows| - 1], rows[|rows| - 1];
      NeutralFloored(ph, front);
      assert MakeNeutralRows(rows)[..|front|] == MakeNeutralRows(front);
      MapPush(Floored(ph, front), last, Neutral);
    }
  }

  lemma FlooredSameButSignals(ph: Physics, a: seq<SignalRow>, b: seq<SignalRow>)
    requires SameButSignals(a, b)
    ensures SameButSignals(Floored(ph, a), Floored(ph, b))
  {
    NeutralFloored(ph, a);
    NeutralFloored(ph, b);
  }

  /** Scores of two row lists that differ only in signals, under any two configurations, pair up. */
  lemma {:induction false} ScoresPair(a: seq<SignalRow>, b: seq<SignalRow>, f: SignalRow -> Scored, g: SignalRow -> Scored)
    requires SameButSignals(a, b)
    requires forall r :: f(r).clusterKey == r.clusterKey && g(r).clusterKey == r.clusterKey
    ensures GoDelta(Map(a, f), Map(b, g)).Ok?
    ensures var d := GoDelta(Map(a, f), Map(b, g)).value; d.keys == MatchedKeys(a) && |d.values| == |d.keys|
  {
    SameLengths(a, b);
    if a != [] {
      var n := |a| - 1;
      SameFronts(a, b);
      ScoresPair(a[..n], b[..n], f, g);
      assert Map(a, f)[..n] == Map(a[..n], f) && Map(b, g)[..n] == Map(b[..n], g);
    }
  }

  lemma SameLengths(a: seq<SignalRow>, b: seq<SignalRow>)
    requires SameButSignals(a, b)
    ensures |a| == |b| && forall i :: 0 <= i < |a| ==> Neutral(a[i]) == Neutral(b[i]) && a[i].clusterKey == b[i].clusterKey
  {
    assert |MakeNeutralRows(a)| == |a| && |MakeNeutralRows(b)| == |b|;
    forall i | 0 <= i < |a| ensures Neutral(a[i]) == Neutral(b[i]) && a[i].clusterKey == b[i].clusterKey {
      assert MakeNeutralRows(a)[i] == MakeNeutralRows(b)[i];
    }
  }

  lemma SameFronts(a: seq<SignalRow>, b: seq<SignalRow>)
    requires SameButSignals(a, b) && a != []
    ensures b != [] && SameButSignals(a[..|a| - 1], b[..|b| - 1])
  {
    SameLengths(a, b);
    assert forall i :: 0 <= i < |a| ==> MakeNeutralRows(a)[i] == MakeNeutralRows(b)[i];
  }

  /**
   Whatever permutation makes the placebo and whatever configurations are chosen on
   the two arms: the placebo arm can be scored exactly when the treatment arm can, the
   two then line up row by row, and the differences run over the matched rows above the
   floor in the treatment's own order.
   */
  lemma ArmsAlwaysPair(w: Window, active: seq<SignalRow>, decide: SignalRow -> Action, arm: Arm)
    requires IsPermutation(arm.order, |MatchedIdx(active)|)
    ensures ArmDelta(w, active, decide, arm).Ok? <==> TestRows(active, w.snapshots, w.floor, w.fraction).Ok?
    ensures TestRows(Placebo(active, arm.order), w.snapshots, w.floor, w.fraction).Ok?
       <==> TestRows(active, w.snapshots, w.floor, w.fraction).Ok?
    ensures ArmDelta(w, active, decide, arm).Ok? ==>
      var test, d := TestRows(active, w.snapshots, w.floor, w.fraction).value, ArmDelta(w, active, decide, arm).value;
      d.keys == MatchedKeys(Floored(w.physics, test)) && |d.values| == |d.keys|
  {
    hide TestRows, GoDelta, MatchedKeys, Placebo, MakeNeutralRows, Floored, BetPnl;
    var placebo := Placebo(active, arm.order);
    PlaceboOnlyPermutesSignals(active, arm.order);
    TestWindowIgnoresSignals(active, placebo, w.snapshots, w.floor, w.fraction);
    if TestRows(active, w.snapshots, w.floor, w.fraction).Ok? {
      var a := TestRows(active, w.snapshots, w.floor, w.fraction).value;
      var b := TestRows(placebo, w.snapshots, w.floor, w.fraction).value;
      FlooredSameButSignals(w.physics, a, b);
      ScoresPair(Floored(w.physics, a), Floored(w.physics, b), ScoreRow(w.physics, decide), ScoreRow(w.physics, arm.decide));
    }
  }

  // -------------------------------------------------------------------- the null arm

  /** A configuration that does not look at the signal. */
  ghost predicate SignalBlind(decide: SignalRow -> Action) { forall r :: decide(Neutral(r)) == decide(r) }

  lemma {:induction false} BlindScoresCancel(ph: Physics, a: seq<SignalRow>, b: seq<SignalRow>, decide: SignalRow -> Action)
    requires SameButSignals(a, b) && SignalBlind(decide)
    requires GoDelta(Map(a, ScoreRow(ph, decide)), Map(b, ScoreRow(ph, decide))).Ok?
    ensures forall x :: x in GoDelta(Map(a, ScoreRow(ph, decide)), Map(b, ScoreRow(ph, decide))).value.values ==> x == 0.0
  {
    SameLengths(a, b);
    if a != [] {
      var n := |a| - 1;
      SameFronts(a, b);
      assert Map(a, ScoreRow(ph, decide))[..n] == Map(a[..n], ScoreRow(ph, decide));
      assert Map(b, ScoreRow(ph, decide))[..n] == Map(b[..n], ScoreRow(ph, decide));
      BlindScoresCancel(ph, a[..n], b[..n], decide);
      BlindRow(ph, a[n], b[n], decide);
    }
  }

  lemma BlindRow(ph: Physics, r: SignalRow, s: SignalRow, decide: SignalRow -> Action)
    requires Neutral(r) == Neutral(s) && SignalBlind(decide)
    ensures RowPnl(ph, r, decide(r)) == RowPnl(ph, s, decide(s))
  {
    assert decide(r) == decide(Neutral(r)) == decide(s);
    NeutralPnl(ph, r, decide(r));
    NeutralPnl(ph, s, decide(s));
  }

  lemma NeutralPnl(ph: Physics, r: SignalRow, action: Action)
    ensures RowPnl(ph, Neutral(r), action) == RowPnl(ph, r, action)
  {
  }

  /** The control works: a configuration blind to the signal earns exactly the same on both arms, row for row. */
  lemma BlindConfigurationHasNoEdge(w: Window, active: seq<SignalRow>, order: seq<nat>, decide: SignalRow -> Action)
    requires IsPermutation(order, |MatchedIdx(active)|) && SignalBlind(decide)
    ensures var r := ArmDelta(w, active, decide, Arm(order, decide));
      r.Ok? ==> forall x :: x in r.value.values ==> x == 0.0
  {
    hide TestRows, GoDelta, MatchedKeys, Placebo, MakeNeutralRows, Floored, BetPnl, SignalBlind, ScoreRow;
    var placebo := Placebo(active, order);
    ArmsAlwaysPair(w, active, decide, Arm(order, decide));
    PlaceboOnlyPermutesSignals(active, order);
    TestWindowIgnoresSignals(active, placebo, w.snapshots, w.floor, w.fraction);
    if TestRows(active, w.snapshots, w.floor, w.fraction).Ok? {
      var a := TestRows(active, w.snapshots, w.floor, w.fraction).value;
      var b := TestRows(placebo, w.snapshots, w.floor, w.fraction).value;
      FlooredSameButSignals(w.physics, a, b);
      BlindScoresCancel(w.physics, Floored(w.physics, a), Floored(w.physics, b), decide);
    }
  }
}
