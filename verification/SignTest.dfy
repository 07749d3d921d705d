/** The one-sided sign test over seeds (scripts/run_cross_market_journey.py). */
module SignTest {
  import opened Arithmetic

  datatype SeedTriple = SeedTriple(treatmentAlive: bool, treatmentPnl: real, baselinePnl: real)

  predicate TreatmentBeatsBaseline(t: SeedTriple) { t.treatmentAlive && t.treatmentPnl > t.baselinePnl }

  function CountWins(triples: seq<SeedTriple>): (n: nat)
    ensures n <= |triples|
  {
    if triples == [] then 0
    else CountWins(triples[..|triples| - 1]) + if TreatmentBeatsBaseline(triples[|triples| - 1]) then 1 else 0
  }

  function Choose(n: nat, k: nat): nat {
    if k == 0 then 1 else if n == 0 then 0 else Choose(n - 1, k - 1) + Choose(n - 1, k)
  }

  /** The number of outcomes of n fair coins with at least w heads. */
  function Tail(n: nat, w: nat): nat
    decreases n + 1 - w
  {
    if w > n then 0 else Choose(n, w) + Tail(n, w + 1)
  }

  function PValue(n: nat, wins: nat): real { if n == 0 then 1.0 else Tail(n, wins) as real / Pow2(n) as real }

  datatype Summary = Summary(seeds: nat, wins: nat, losses: nat, pValue: real, go: bool)

  function SignTestOverSeeds(triples: seq<SeedTriple>): Summary {
    var n, wins := |triples|, CountWins(triples);
    Summary(n, wins, n - wins, PValue(n, wins), wins > n - wins && PValue(n, wins) < 0.05)
  }

  // ------------------------------------------------------------------ binomial tails

  lemma {:induction false} ChooseBeyond(n: nat, k: nat)
    requires k > n
    ensures Choose(n, k) == 0
  {
    if n > 0 {
      ChooseBeyond(n - 1, k - 1);
      ChooseBeyond(n - 1, k);
    }
  }

  /** Pascal's rule, summed over a tail. */
  lemma {:induction false} TailPascal(n: nat, w: nat)
    ensures Tail(n + 1, w + 1) == Tail(n, w) + Tail(n, w + 1)
    decreases n + 1 - w
  {
    if w <= n {
      TailPascal(n, w + 1);
      if w == n {
        ChooseBeyond(n, w + 1);
      }
    }
  }

  lemma {:induction false} FullTail(n: nat)
    ensures Tail(n, 0) == Pow2(n)
  {
    if n == 0 {
      assert Tail(0, 1) == 0;
    } else {
      FullTail(n - 1);
      TailPascal(n - 1, 0);
    }
  }

  lemma ComplementStep(n: nat, w: nat)
    requires 1 <= w <= n
    requires Tail(n - 1, w - 1) + Tail(n - 1, n - (w - 1)) == Pow2(n - 1)
    requires Tail(n - 1, w) + Tail(n - 1, n - w) == Pow2(n - 1)
    ensures Tail(n, w) + Tail(n, n + 1 - w) == Pow2(n)
  {
    hide Tail;
    TailPascal(n - 1, w - 1);
    TailPascal(n - 1, n - w);
  }

  /** Heads and tails can be exchanged. */
  lemma {:induction false} TailComplement(n: nat, w: nat)
    requires w <= n + 1
    ensures Tail(n, w) + Tail(n, n + 1 - w) == Pow2(n)
  {
    if w == 0 || w == n + 1 {
      FullTail(n);
      assert Tail(n, n + 1) == 0;
    } else {
      TailComplement(n - 1, w - 1);
      TailComplement(n - 1, w);
      ComplementStep(n, w);
    }
  }

  lemma {:induction false} TailIsAntitone(n: nat, v: nat, w: nat)
    requires v <= w
    ensures Tail(n, w) <= Tail(n, v)
    decreases w - v
  {
    if v < w {
      TailIsAntitone(n, v + 1, w);
    }
  }

  lemma {:induction false} Pow2Grows(m: nat, n: nat)
    requires m <= n
    ensures Pow2(m) <= Pow2(n)
  {
    if m < n {
      Pow2Grows(m, n - 1);
    }
  }

  // ------------------------------------------------------------------- the p-value

  lemma RatioGrows(a: nat, b: nat, m: nat)
    requires m > 0 && a <= b
    ensures a as real / m as real <= b as real / m as real
  {
    var x, y, d := a as real / m as real, b as real / m as real, m as real;
    assert x * d == a as real && y * d == b as real;
    CancelOrder(x, y, d);
  }

  lemma RatioBelowOneTwentieth(a: nat, m: nat)
    requires m > 0
    ensures a as real / m as real < 0.05 <==> 20 * a < m
  {
    var x, d := a as real / m as real, m as real;
    assert x * d == a as real;
    if x < 0.05 {
      StrictScale(x, 0.05, d);
    } else if 0.05 < x {
      StrictScale(0.05, x, d);
    }
  }

  /** More wins never raise the p-value; all outcomes together have probability one. */
  lemma PValueIsAntitone(n: nat, v: nat, w: nat)
    requires v <= w
    ensures PValue(n, w) <= PValue(n, v) && PValue(n, 0) == 1.0
  {
    TailIsAntitone(n, v, w);
    FullTail(n);
    hide Tail, Pow2;
    RatioGrows(Tail(n, w), Tail(n, v), Pow2(n));
    WholeShare(Pow2(n));
  }

  lemma WholeShare(m: nat)
    requires m > 0
    ensures m as real / m as real == 1.0
  {
  }

  /** Without a majority of wins the p-value is at least one half. */
  lemma NoMajorityNoEvidence(n: nat, w: nat)
    requires 2 * w <= n
    ensures PValue(n, w) >= 0.5
  {
    if n > 0 {
      TailComplement(n, w);
      TailIsAntitone(n, w, n + 1 - w);
      AtLeastHalf(Tail(n, w), Pow2(n));
    }
  }

  lemma AtLeastHalf(a: nat, m: nat)
    requires m > 0 && 2 * a >= m
    ensures a as real / m as real >= 0.5
  {
    var x, d := a as real / m as real, m as real;
    assert x * d == a as real;
    CancelOrder(0.5, x, d);
  }

  /**
   The verdict in whole numbers: GO exactly when fewer than one in twenty of the 2^n
   outcomes have as many wins. The separate demand for a majority never matters.
   */
  lemma GoIffRareEnough(triples: seq<SeedTriple>)
    ensures SignTestOverSeeds(triples).go <==> |triples| > 0 && 20 * Tail(|triples|, CountWins(triples)) < Pow2(|triples|)
    ensures SignTestOverSeeds(triples).go <==> SignTestOverSeeds(triples).pValue < 0.05
  {
    var n, wins := |triples|, CountWins(triples);
    if n > 0 {
      RatioBelowOneTwentieth(Tail(n, wins), Pow2(n));
      if 2 * wins <= n {
        NoMajorityNoEvidence(n, wins);
      }
    }
  }

  /** Among equally many seeds, more wins never turn GO into NO_GO. */
  lemma GoIsMonotone(triples: seq<SeedTriple>, better: seq<SeedTriple>)
    requires |triples| == |better| && CountWins(triples) <= CountWins(better) && SignTestOverSeeds(triples).go
    ensures SignTestOverSeeds(better).go
  {
    GoIffRareEnough(triples);
    GoIffRareEnough(better);
    TailIsAntitone(|triples|, CountWins(triples), CountWins(better));
  }

  /** A treatment that is dead or not ahead on every seed proves nothing; one alive and ahead on five or more seeds out of as many is a GO. */
  lemma OneSidedSeeds(triples: seq<SeedTriple>)
    ensures (forall t :: t in triples ==> !t.treatmentAlive || t.treatmentPnl <= t.baselinePnl) ==>
      SignTestOverSeeds(triples).wins == 0 && SignTestOverSeeds(triples).pValue == 1.0 && !SignTestOverSeeds(triples).go
    ensures (forall t :: t in triples ==> t.treatmentAlive && t.treatmentPnl > t.baselinePnl) ==>
      SignTestOverSeeds(triples).wins == |triples| && (SignTestOverSeeds(triples).go <==> |triples| >= 5)
  {
    hide Tail, Pow2;
    OneSidedCount(triples);
    GoIffRareEnough(triples);
    TopOfTriangle(|triples|);
    TwentyBelow(|triples|);
    PValueIsAntitone(|triples|, 0, 0);
  }

  lemma {:induction false} OneSidedCount(triples: seq<SeedTriple>)
    ensures (forall t :: t in triples ==> !t.treatmentAlive || t.treatmentPnl <= t.baselinePnl) ==> CountWins(triples) == 0
    ensures (forall t :: t in triples ==> t.treatmentAlive && t.treatmentPnl > t.baselinePnl) ==> CountWins(triples) == |triples|
  {
    if triples != [] {
      OneSidedCount(triples[..|triples| - 1]);
    }
  }

  function Seeds(n: nat, t: SeedTriple): (r: seq<SeedTriple>)
    ensures |r| == n && forall i :: 0 <= i < n ==> r[i] == t
  {
    seq(n, i requires 0 <= i < n => t)
  }

  lemma {:induction false} AllWin(n: nat, t: SeedTriple)
    requires TreatmentBeatsBaseline(t)
    ensures CountWins(Seeds(n, t)) == n
  {
    if n > 0 {
      AllWin(n - 1, t);
      assert Seeds(n, t)[..n - 1] == Seeds(n - 1, t);
    }
  }

  lemma {:induction false} TopOfTriangle(n: nat)
    ensures Tail(n, n) == 1
  {
    if n > 0 {
      TopOfTriangle(n - 1);
      TailPascal(n - 1, n - 1);
      assert Tail(n - 1, n) == 0;
    }
  }

  lemma TwentyBelow(n: nat)
    ensures 20 < Pow2(n) <==> n >= 5
  {
    assert Pow2(4) == 16 && Pow2(5) == 32;
    if n >= 5 {
      Pow2Grows(5, n);
    } else {
      Pow2Grows(n, 4);
    }
  }

  /** Some outcome of n seeds gives GO exactly when there are at least five. */
  lemma GoReachableIff(n: nat)
    ensures (exists triples :: |triples| == n && SignTestOverSeeds(triples).go) <==> n >= 5
  {
    TwentyBelow(n);
    TopOfTriangle(n);
    if n >= 5 {
      var t := SeedTriple(true, 1.0, 0.0);
      AllWin(n, t);
      GoIffRareEnough(Seeds(n, t));
    } else {
      forall triples: seq<SeedTriple> | |triples| == n ensures !SignTestOverSeeds(triples).go {
        GoIffRareEnough(triples);
        TailIsAntitone(n, CountWins(triples), n);
      }
    }
  }
}
