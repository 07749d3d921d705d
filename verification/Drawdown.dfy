/** The single-pass maximum drawdown (agent/backtest/metrics.py). */
module Drawdown {
  import opened Arithmetic

  /** The highest of the first n values. */
  function Peak(curve: seq<real>, n: nat): real
    requires 1 <= n <= |curve|
  {
    if n == 1 then curve[0]
    else
      var before := Peak(curve, n - 1);
      if curve[n - 1] > before then curve[n - 1] else before
  }

  /** The loss, at place j, against the highest value so far; nothing is lost off a peak that is not positive. */
  function Loss(curve: seq<real>, j: nat): real
    requires j < |curve|
  {
    var peak := Peak(curve, j + 1);
    if peak <= 0.0 then 0.0 else (peak - curve[j]) / peak
  }

  function Worst(curve: seq<real>, n: nat): real
    requires 1 <= n <= |curve|
  {
    if n == 1 then 0.0
    else
      var before := Worst(curve, n - 1);
      if Loss(curve, n - 1) > before then Loss(curve, n - 1) else before
  }

  function MaxDrawdownPct(curve: seq<real>): real { if |curve| < 2 then 0.0 else Worst(curve, |curve|) * 100.0 }

  method ComputeMaxDrawdownPct(curve: seq<real>) returns (r: real)
    ensures r == MaxDrawdownPct(curve)
  {
    if |curve| < 2 {
      return 0.0;
    }
    var peak, maxDd := curve[0], 0.0;
    for i := 1 to |curve|
      invariant peak == Peak(curve, i) && maxDd == Worst(curve, i) && maxDd >= 0.0
    {
      var value := curve[i];
      if value > peak {
        peak := value;
        NoLossAtPeak(curve, i);
        continue;
      }
      if peak <= 0.0 {
        continue;
      }
      var dd := (peak - value) / peak;
      if dd > maxDd {
        maxDd := dd;
      }
    }
    return maxDd * 100.0;
  }

  lemma NoLossAtPeak(curve: seq<real>, j: nat)
    requires j < |curve| && Peak(curve, j + 1) == curve[j]
    ensures Loss(curve, j) == 0.0
  {
  }

  lemma {:induction false} PeakIsHighest(curve: seq<real>, n: nat, i: nat)
    requires i < n <= |curve|
    ensures curve[i] <= Peak(curve, n)
  {
    if i < n - 1 {
      PeakIsHighest(curve, n - 1, i);
    }
  }

  lemma {:induction false} PeakIsReached(curve: seq<real>, n: nat) returns (i: nat)
    requires 1 <= n <= |curve|
    ensures i < n && curve[i] == Peak(curve, n)
  {
    i := 0;
    if n > 1 {
      i := PeakIsReached(curve, n - 1);
      if curve[n - 1] > Peak(curve, n - 1) {
        i := n - 1;
      }
    }
  }

  lemma {:induction false} WorstIsLargest(curve: seq<real>, n: nat, j: nat)
    requires 1 <= n <= |curve| && j < n
    ensures Loss(curve, j) <= Worst(curve, n) && Worst(curve, n) >= 0.0
  {
    if n == 1 {
      NoLossAtPeak(curve, 0);
    } else if j < n - 1 {
      WorstIsLargest(curve, n - 1, j);
    } else {
      WorstIsLargest(curve, n - 1, 0);
    }
  }

  lemma {:induction false} WorstIsReached(curve: seq<real>, n: nat) returns (j: nat)
    requires 1 <= n <= |curve|
    ensures j < n && Worst(curve, n) == Loss(curve, j)
  {
    j := 0;
    if n == 1 {
      NoLossAtPeak(curve, 0);
    } else {
      j := WorstIsReached(curve, n - 1);
      if Loss(curve, n - 1) > Worst(curve, n - 1) {
        j := n - 1;
      }
    }
  }

  // -------------------------------------------------------------- in terms of pairs

  /** The fall from place i to a later place j, as a share of the value at i. */
  function Fall(curve: seq<real>, i: nat, j: nat): real
    requires i < j < |curve| && curve[i] > 0.0
  {
    (curve[i] - curve[j]) / curve[i]
  }

  lemma Complement(high: real, v: real)
    requires high > 0.0
    ensures (high - v) / high == 1.0 - v / high
  {
    var x, y := (high - v) / high, v / high;
    assert x * high == high - v && y * high == v;
    assert (1.0 - y) * high == high - v;
    Cancel(x, 1.0 - y, high);
  }

  lemma ShareGrows(low: real, high: real, v: real)
    requires 0.0 < low <= high && v >= 0.0
    ensures (low - v) / low <= (high - v) / high
  {
    Complement(low, v);
    Complement(high, v);
    SharesOrder(v / low, v / high, low, high, v);
  }

  lemma SharesOrder(p: real, q: real, low: real, high: real, v: real)
    requires p * low == v && q * high == v && v >= 0.0 && 0.0 < low <= high
    ensures q <= p
  {
    CancelOrder(0.0, q, high);
    if p < q {
      StrictScale(p, q, low);
      Scale(low, high, q);
    }
  }

  ghost predicate NotNegative(curve: seq<real>) { forall i :: 0 <= i < |curve| ==> curve[i] >= 0.0 }

  /** No pair of places falls further than the reported drawdown, on a curve that is nowhere negative. */
  lemma NoPairFallsFurther(curve: seq<real>, i: nat, j: nat)
    requires NotNegative(curve) && i < j < |curve| && curve[i] > 0.0
    ensures 100.0 * Fall(curve, i, j) <= MaxDrawdownPct(curve)
  {
    PeakIsHighest(curve, j + 1, i);
    ShareGrows(curve[i], Peak(curve, j + 1), curve[j]);
    WorstIsLargest(curve, |curve|, j);
  }

  /** And on any curve some pair falls exactly that far, unless nothing is lost at all. */
  lemma SomePairFallsThatFar(curve: seq<real>) returns (i: nat, j: nat)
    ensures MaxDrawdownPct(curve) == 0.0
      || (i < j < |curve| && curve[i] > 0.0 && 100.0 * Fall(curve, i, j) == MaxDrawdownPct(curve))
  {
    i, j := 0, 0;
    if |curve| >= 2 {
      j := WorstIsReached(curve, |curve|);
      i := PeakIsReached(curve, j + 1);
      if i == j {
        NoLossAtPeak(curve, j);
      }
    }
  }

  lemma ShareSign(high: real, v: real)
    requires high > 0.0
    ensures (high - v) / high > 0.0 <==> v < high
    ensures (high - v) / high > 1.0 <==> v < 0.0
  {
    var x := (high - v) / high;
    assert x * high == high - v;
    Order(0.0, x, high);
    Order(1.0, x, high);
  }

  lemma Order(x: real, y: real, m: real)
    requires m > 0.0
    ensures x < y <==> x * m < y * m
  {
    if x < y {
      StrictScale(x, y, m);
    } else if y < x {
      StrictScale(y, x, m);
    }
  }

  ghost predicate FallsBelow(curve: seq<real>, i: nat, j: nat) {
    i < j < |curve| && curve[i] > 0.0 && curve[j] < curve[i]
  }

  /** The drawdown is never negative, and zero exactly when nothing later falls below an earlier positive value. */
  lemma ZeroDrawdownIff(curve: seq<real>)
    ensures MaxDrawdownPct(curve) >= 0.0
    ensures MaxDrawdownPct(curve) == 0.0 <==> !exists i: nat, j: nat :: FallsBelow(curve, i, j)
  {
    if |curve| >= 2 {
      WorstIsLargest(curve, |curve|, 0);
      var i, j := SomePairFallsThatFar(curve);
      if MaxDrawdownPct(curve) != 0.0 {
        ShareSign(curve[i], curve[j]);
        assert FallsBelow(curve, i, j);
      }
      forall i: nat, j: nat | FallsBelow(curve, i, j) ensures MaxDrawdownPct(curve) > 0.0 {
        PeakIsHighest(curve, j + 1, i);
        ShareSign(Peak(curve, j + 1), curve[j]);
        WorstIsLargest(curve, |curve|, j);
      }
    }
  }

  ghost predicate TurnsNegative(curve: seq<real>, i: nat, j: nat) {
    i < j < |curve| && curve[i] > 0.0 && curve[j] < 0.0
  }

  /**
   The promised ceiling of 100 percent holds exactly when the curve is never negative
   after it was positive; a bankroll in debt is reported beyond it.
   */
  lemma AtMostAHundredIff(curve: seq<real>)
    ensures MaxDrawdownPct(curve) <= 100.0 <==> !exists i: nat, j: nat :: TurnsNegative(curve, i, j)
  {
    if |curve| >= 2 {
      var i, j := SomePairFallsThatFar(curve);
      if MaxDrawdownPct(curve) > 100.0 {
        ShareSign(curve[i], curve[j]);
        assert TurnsNegative(curve, i, j);
      }
      forall i: nat, j: nat | TurnsNegative(curve, i, j) ensures MaxDrawdownPct(curve) > 100.0 {
        PeakIsHighest(curve, j + 1, i);
        ShareSign(Peak(curve, j + 1), curve[j]);
        WorstIsLargest(curve, |curve|, j);
      }
    }
  }

  /** A bankroll of one that ends one in debt has lost 200 percent. */
  lemma DrawdownAboveAHundred()
    ensures MaxDrawdownPct([1.0, -1.0]) == 200.0
  {
    var curve := [1.0, -1.0];
    assert Peak(curve, 1) == 1.0 && Peak(curve, 2) == 1.0;
    assert Worst(curve, 1) == 0.0;
    assert Loss(curve, 1) == 2.0;
  }

  // -------------------------------------------------------------------------- units

  function Scaled(curve: seq<real>, k: real): (r: seq<real>)
    ensures |r| == |curve| && forall i :: 0 <= i < |r| ==> r[i] == k * curve[i]
  {
    seq(|curve|, i requires 0 <= i < |curve| => k * curve[i])
  }

  lemma ScaleOrder(k: real, x: real, y: real)
    requires k > 0.0
    ensures x < y <==> k * x < k * y
  {
    if x < y {
      StrictScale(x, y, k);
    } else if y < x {
      StrictScale(y, x, k);
    }
  }

  lemma {:induction false} ScaledPeak(curve: seq<real>, k: real, n: nat)
    requires k > 0.0 && 1 <= n <= |curve|
    ensures Peak(Scaled(curve, k), n) == k * Peak(curve, n)
  {
    if n > 1 {
      ScaledPeak(curve, k, n - 1);
      ScaleOrder(k, Peak(curve, n - 1), curve[n - 1]);
    }
  }

  lemma ScaledShare(k: real, high: real, v: real)
    requires k > 0.0 && high > 0.0
    ensures k * high > 0.0 && (k * high - k * v) / (k * high) == (high - v) / high
  {
    ScaleOrder(k, 0.0, high);
    var x, y := (k * high - k * v) / (k * high), (high - v) / high;
    assert x * (k * high) == k * high - k * v;
    assert y * high == high - v;
    assert y * (k * high) == k * high - k * v;
    Cancel(x, y, k * high);
  }

  lemma ScaledLoss(curve: seq<real>, k: real, j: nat)
    requires k > 0.0 && j < |curve|
    ensures Loss(Scaled(curve, k), j) == Loss(curve, j)
  {
    ScaledPeak(curve, k, j + 1);
    var peak := Peak(curve, j + 1);
    ScaleOrder(k, 0.0, peak);
    if peak > 0.0 {
      ScaledShare(k, peak, curve[j]);
    }
  }

  lemma {:induction false} ScaledWorst(curve: seq<real>, k: real, n: nat)
    requires k > 0.0 && 1 <= n <= |curve|
    ensures Worst(Scaled(curve, k), n) == Worst(curve, n)
  {
    if n > 1 {
      ScaledWorst(curve, k, n - 1);
      ScaledLoss(curve, k, n - 1);
    }
  }

  /** The unit of the curve does not matter. */
  lemma DrawdownIgnoresUnits(curve: seq<real>, k: real)
    requires k > 0.0
    ensures MaxDrawdownPct(Scaled(curve, k)) == MaxDrawdownPct(curve)
  {
    if |curve| >= 2 {
      ScaledWorst(curve, k, |curve|);
    }
  }
}
