/**
 The strategy carried from one life to the next, and the capped deltas an advisor may
 apply to it (agent/backtest/reincarnation.py).
 */
module Strategy {
  import opened Arithmetic

  const DELTA_CAP := 0.1

  /** Tolerance of the weight validator (agent/core/state.py). */
  const TOLERANCE := 0.000_001

  datatype Weights = Weights(wR: real, wS: real, alpha: seq<real>, beta: seq<real>, rho: real)

  datatype GenomeKey = MinEdge | MaxBreathRiskPct | MinConfidence | Kappa | GateStorm | RiskStorm | KappaXm

  function KnobLow(k: GenomeKey): real {
    match k
    case MaxBreathRiskPct => 0.05
    case Kappa => 0.01
    case GateStorm => -1.0
    case RiskStorm => -1.0
    case _ => 0.0
  }

  function KnobHigh(k: GenomeKey): real { if k.MinEdge? then 0.5 else 1.0 }

  /** The advisable knobs. */
  datatype Genome = Genome(
    minEdge: real,
    maxBreathRiskPct: real,
    minConfidence: real,
    kappa: real,
    gateStorm: real,
    riskStorm: real,
    kappaXm: real)
  {
    function Get(k: GenomeKey): real {
      match k
      case MinEdge => minEdge
      case MaxBreathRiskPct => maxBreathRiskPct
      case MinConfidence => minConfidence
      case Kappa => kappa
      case GateStorm => gateStorm
      case RiskStorm => riskStorm
      case KappaXm => kappaXm
    }

    function Set(k: GenomeKey, x: real): (r: Genome)
      ensures forall j :: r.Get(j) == if j == k then x else Get(j)
    {
      match k
      case MinEdge => this.(minEdge := x)
      case MaxBreathRiskPct => this.(maxBreathRiskPct := x)
      case MinConfidence => this.(minConfidence := x)
      case Kappa => this.(kappa := x)
      case GateStorm => this.(gateStorm := x)
      case RiskStorm => this.(riskStorm := x)
      case KappaXm => this.(kappaXm := x)
    }
  }

  datatype StrategyConfig = StrategyConfig(weights: Weights, genome: Genome, minBetSize: real, explorationEpsilon: real)

  /** The key of a proposed change; Unknown covers every key in neither table. */
  datatype Key = WR | Alpha(i: nat) | Beta0 | Rho | Knob(k: GenomeKey) | Unknown

  datatype Delta = Number(x: real) | Boolean(b: bool) | NotNumeric

  datatype Proposal = Proposal(key: Key, delta: Delta)

  predicate IsFusionKey(k: Key) { k.WR? || k.Beta0? || k.Rho? || (k.Alpha? && k.i < 3) }

  // ------------------------------------------------------------------ classifying

  predicate IsFusion(d: Proposal) { d.delta.Number? && IsFusionKey(d.key) }

  predicate IsGenome(d: Proposal) { d.delta.Number? && d.key.Knob? }

  datatype Classified = Classified(fusion: seq<Proposal>, genome: seq<Proposal>, skipped: seq<Proposal>) {
    function Applied(): nat { |fusion| + |genome| }
  }

  function Classify(deltas: seq<Proposal>, genomeEnabled: bool): Classified {
    if deltas == [] then Classified([], [], [])
    else
      var c, d := Classify(deltas[..|deltas| - 1], genomeEnabled), deltas[|deltas| - 1];
      if IsFusion(d) then c.(fusion := c.fusion + [d])
      else if genomeEnabled && IsGenome(d) then c.(genome := c.genome + [d])
      else c.(skipped := c.skipped + [d])
  }

  method ClassifyProposals(deltas: seq<Proposal>, genomeEnabled: bool) returns (r: Classified)
    ensures r == Classify(deltas, genomeEnabled)
  {
    var fusion, genome, skipped := [], [], [];
    for i := 0 to |deltas|
      invariant Classified(fusion, genome, skipped) == Classify(deltas[..i], genomeEnabled)
    {
      var d := deltas[i];
      if d.delta.Number? && IsFusionKey(d.key) {
        fusion := fusion + [d];
      } else if d.delta.Number? && genomeEnabled && d.key.Knob? {
        genome := genome + [d];
      } else {
        skipped := skipped + [d];
      }
      assert deltas[..i + 1][..i] == deltas[..i];
    }
    assert deltas[..|deltas|] == deltas;
    return Classified(fusion, genome, skipped);
  }

  // --------------------------------------------------------------- fusion weights

  function Clip(lo: real, hi: real, x: real): real {
    var y := if x < hi then x else hi;
    if y > lo then y else lo
  }

  function Capped(d: Delta): real
    requires d.Number?
  {
    Clip(-DELTA_CAP, DELTA_CAP, d.x)
  }

  function Sum3(a: seq<real>): real
    requires |a| == 3
  {
    a[0] + a[1] + a[2]
  }

  function Bumped(a: seq<real>, i: nat, dv: real): seq<real>
    requires |a| == 3 && i < 3
  {
    a[i := if a[i] + dv > 0.0 then a[i] + dv else 0.0]
  }

  function Normalised(a: seq<real>): (r: seq<real>)
    requires |a| == 3
    ensures |r| == 3
  {
    var s := Sum3(a);
    if s > 0.0 then [a[0] / s, a[1] / s, a[2] / s] else [1.0 / 3.0, 1.0 / 3.0, 1.0 / 3.0]
  }

  /** One delta on the weights, before w_s is recomputed. */
  function ApplyOne(w: Weights, d: Proposal): (r: Weights)
    requires |w.alpha| == 3 && |w.beta| == 2
    ensures |r.alpha| == 3 && |r.beta| == 2
  {
    if !IsFusion(d) then w
    else
      var dv := Capped(d.delta);
      match d.key
      case WR => w.(wR := Clip(0.0, 1.0, w.wR + dv))
      case Rho => w.(rho := Clip(-1.0, 1.0, w.rho + dv))
      case Beta0 => var b := Clip(0.0, 1.0, w.beta[0] + dv); w.(beta := [b, 1.0 - b])
      case Alpha(i) => w.(alpha := Normalised(Bumped(w.alpha, i, dv)))
  }

  function ApplyAll(w: Weights, deltas: seq<Proposal>): (r: Weights)
    requires |w.alpha| == 3 && |w.beta| == 2
    ensures |r.alpha| == 3 && |r.beta| == 2
  {
    if deltas == [] then w else ApplyOne(ApplyAll(w, deltas[..|deltas| - 1]), deltas[|deltas| - 1])
  }

  function WithDeltas(w: Weights, deltas: seq<Proposal>): Weights
    requires |w.alpha| == 3 && |w.beta| == 2
  {
    var r := ApplyAll(w, deltas);
    r.(wS := 1.0 - r.wR)
  }

  method ApplyWeightDeltas(weights: Weights, deltas: seq<Proposal>) returns (r: Weights)
    requires |weights.alpha| == 3 && |weights.beta| == 2
    ensures r == WithDeltas(weights, deltas)
  {
    var wR, alpha, beta, rho := weights.wR, weights.alpha, weights.beta, weights.rho;
    for i := 0 to |deltas|
      invariant |alpha| == 3 && |beta| == 2
      invariant Weights(wR, weights.wS, alpha, beta, rho) == ApplyAll(weights, deltas[..i])
    {
      var d := deltas[i];
      assert deltas[..i + 1][..i] == deltas[..i];
      if !IsFusionKey(d.key) || !d.delta.Number? {
        continue;
      }
      var dv := Clip(-DELTA_CAP, DELTA_CAP, d.delta.x);
      match d.key
      case WR => wR := Clip(0.0, 1.0, wR + dv);
      case Rho => rho := Clip(-1.0, 1.0, rho + dv);
      case Beta0 =>
        var b := Clip(0.0, 1.0, beta[0] + dv);
        beta := [b, 1.0 - b];
      case Alpha(j) =>
        alpha := alpha[j := if alpha[j] + dv > 0.0 then alpha[j] + dv else 0.0];
        var s := alpha[0] + alpha[1] + alpha[2];
        alpha := if s > 0.0 then [alpha[0] / s, alpha[1] / s, alpha[2] / s] else [1.0 / 3.0, 1.0 / 3.0, 1.0 / 3.0];
    }
    assert deltas[..|deltas|] == deltas;
    return Weights(wR, 1.0 - wR, alpha, beta, rho);
  }

  predicate Near(x: real, y: real) { -TOLERANCE <= x - y <= TOLERANCE }

  /** What the weight model's constructor insists on. */
  predicate ValidWeights(w: Weights) {
    && 0.0 <= w.wR <= 1.0 && 0.0 <= w.wS <= 1.0 && Near(w.wR + w.wS, 1.0)
    && |w.alpha| == 3 && |w.beta| == 2
    && w.alpha[0] >= 0.0 && w.alpha[1] >= 0.0 && w.alpha[2] >= 0.0 && Near(Sum3(w.alpha), 1.0)
    && w.beta[0] >= 0.0 && w.beta[1] >= 0.0 && Near(w.beta[0] + w.beta[1], 1.0)
    && -1.0 <= w.rho <= 1.0
  }

  /** After a bump the simplex still carries almost nine tenths, so its fallback is never taken. */
  lemma FallbackIsDead(w: Weights, i: nat, dv: real)
    requires ValidWeights(w) && i < 3 && -DELTA_CAP <= dv <= DELTA_CAP
    ensures Sum3(Bumped(w.alpha, i, dv)) >= 0.9 - TOLERANCE
    ensures var a := Normalised(Bumped(w.alpha, i, dv));
      a[0] >= 0.0 && a[1] >= 0.0 && a[2] >= 0.0 && Sum3(a) == 1.0
  {
    var a := Bumped(w.alpha, i, dv);
    SharesAddUp(a[0], a[1], a[2]);
  }

  lemma SharesAddUp(x: real, y: real, z: real)
    requires x >= 0.0 && y >= 0.0 && z >= 0.0 && x + y + z > 0.0
    ensures var s := x + y + z;
      x / s >= 0.0 && y / s >= 0.0 && z / s >= 0.0 && x / s + y / s + z / s == 1.0
  {
    var s := x + y + z;
    assert (x / s) * s == x && (y / s) * s == y && (z / s) * s == z;
    assert (x / s + y / s + z / s - 1.0) * s == 0.0;
  }

  /** The weights as they are rebuilt: w_s is always the complement of w_r. */
  function Complete(w: Weights): Weights { w.(wS := 1.0 - w.wR) }

  lemma DeltaKeepsWeightsValid(w: Weights, d: Proposal)
    requires ValidWeights(Complete(w))
    ensures ValidWeights(Complete(ApplyOne(w, d)))
  {
    if IsFusion(d) && d.key.Alpha? {
      FallbackIsDead(Complete(w), d.key.i, Capped(d.delta));
    }
  }

  /** Everything the constructor checks survives every batch of deltas, whatever was proposed. */
  lemma {:induction false} DeltasKeepWeightsValid(w: Weights, deltas: seq<Proposal>)
    requires ValidWeights(w)
    ensures ValidWeights(WithDeltas(w, deltas))
  {
    hide ApplyOne;
    if deltas != [] {
      DeltasKeepWeightsValid(w, deltas[..|deltas| - 1]);
      DeltaKeepsWeightsValid(ApplyAll(w, deltas[..|deltas| - 1]), deltas[|deltas| - 1]);
    }
  }

  /** Away from the ends a numeric delta of at most a tenth moves its weight by exactly that much, and nothing else but complements. */
  lemma WeightsFollowDeltas(w: Weights, d: Proposal)
    requires |w.alpha| == 3 && |w.beta| == 2 && d.delta.Number?
    requires d.key.WR? || d.key.Rho? || d.key.Beta0? || (d.key.Alpha? && d.key.i < 3)
    ensures var r := WithDeltas(w, [d]); var dv := if d.delta.x > 0.1 then 0.1 else if d.delta.x < -0.1 then -0.1 else d.delta.x;
      && r.wS == 1.0 - r.wR
      && (d.key.WR? ==> Moved(w.wR, dv, 0.0, 1.0, r.wR) && r.alpha == w.alpha && r.beta == w.beta && r.rho == w.rho)
      && (d.key.Rho? ==> Moved(w.rho, dv, -1.0, 1.0, r.rho) && r.alpha == w.alpha && r.beta == w.beta && r.wR == w.wR)
      && (d.key.Beta0? ==> Moved(w.beta[0], dv, 0.0, 1.0, r.beta[0]) && r.beta[1] == 1.0 - r.beta[0]
                           && r.alpha == w.alpha && r.wR == w.wR && r.rho == w.rho)
      && (d.key.Alpha? ==> r.beta == w.beta && r.wR == w.wR && r.rho == w.rho)
  {
    assert [d][..0] == [];
    assert ApplyAll(w, [d]) == ApplyOne(w, d);
    hide Normalised, Bumped;
  }

  /** Anything that is not a number for one of the six keys changes nothing but restores the complement. */
  lemma OtherDeltasDoNothing(w: Weights, d: Proposal)
    requires |w.alpha| == 3 && |w.beta| == 2
    requires !d.delta.Number? || d.key.Knob? || d.key.Unknown? || (d.key.Alpha? && d.key.i >= 3)
    ensures WithDeltas(w, [d]) == w.(wS := 1.0 - w.wR)
  {
    assert [d][..0] == [];
    assert ApplyAll(w, [d]) == ApplyOne(w, d);
  }

  /** The value x moved by dv, stopped at the ends. */
  predicate Moved(x: real, dv: real, lo: real, hi: real, r: real) {
    && lo <= r <= hi
    && (lo <= x + dv <= hi ==> r == x + dv)
    && (x + dv < lo ==> r == lo)
    && (x + dv > hi ==> r == hi)
  }

  /** A share r of one, against a out of a total: it has gone the way of x. */
  predicate ShareMoved(a: real, total: real, x: real, r: real) {
    && (x >= 0.0 ==> r * total >= a)
    && (x <= 0.0 ==> r * total <= a)
    && (x > 0.0 && a < total ==> r * total > a)
  }

  predicate SameRatio(x: real, y: real, r: real, q: real) { r * y == q * x }

  /** A source's share of the alphas goes up with a positive delta and down with a negative one. */
  lemma SharesFollowDeltas(w: Weights, i: nat, x: real)
    requires ValidWeights(w) && i < 3
    ensures var r := WithDeltas(w, [Proposal(Alpha(i), Number(x))]);
      Sum3(r.alpha) == 1.0 && ShareMoved(w.alpha[i], Sum3(w.alpha), x, r.alpha[i])
  {
    hide WithDeltas, ShareMoved;
    var dv := Capped(Number(x));
    OneAlphaDelta(w, i, x);
    FallbackIsDead(w, i, dv);
    BumpedShare(w.alpha, i, dv);
    var e := Bumped(w.alpha, i, dv)[i] - w.alpha[i];
    hide Bumped, Normalised;
    ShareMoves(w.alpha[i], Sum3(w.alpha), e, x);
  }

  /** The other two sources keep their proportion. */
  lemma OthersKeepProportion(w: Weights, i: nat, x: real, j: nat, k: nat)
    requires ValidWeights(w) && i < 3 && j < 3 && k < 3 && j != i && k != i
    ensures var r := WithDeltas(w, [Proposal(Alpha(i), Number(x))]); SameRatio(w.alpha[j], w.alpha[k], r.alpha[j], r.alpha[k])
  {
    hide WithDeltas, SameRatio;
    var dv := Capped(Number(x));
    OneAlphaDelta(w, i, x);
    FallbackIsDead(w, i, dv);
    var b := Bumped(w.alpha, i, dv);
    assert b[j] == w.alpha[j] && b[k] == w.alpha[k];
    NormalisedAt(b, j);
    NormalisedAt(b, k);
    hide Bumped, Normalised;
    SameProportion(w.alpha[j], w.alpha[k], Sum3(b));
  }

  lemma NormalisedAt(a: seq<real>, i: nat)
    requires |a| == 3 && i < 3 && Sum3(a) > 0.0
    ensures Normalised(a)[i] == a[i] / Sum3(a)
  {
  }

  lemma OneAlphaDelta(w: Weights, i: nat, x: real)
    requires |w.alpha| == 3 && |w.beta| == 2 && i < 3
    ensures WithDeltas(w, [Proposal(Alpha(i), Number(x))]).alpha == Normalised(Bumped(w.alpha, i, Capped(Number(x))))
  {
    var d := Proposal(Alpha(i), Number(x));
    assert [d][..0] == [];
    assert ApplyAll(w, [d]) == ApplyOne(w, d);
  }

  lemma BumpedShare(a: seq<real>, i: nat, dv: real)
    requires |a| == 3 && i < 3 && a[0] >= 0.0 && a[1] >= 0.0 && a[2] >= 0.0 && Sum3(Bumped(a, i, dv)) > 0.0
    ensures var e := Bumped(a, i, dv)[i] - a[i];
      && Sum3(a) + e > 0.0 && 0.0 <= a[i] <= Sum3(a)
      && Normalised(Bumped(a, i, dv))[i] == (a[i] + e) / (Sum3(a) + e)
      && (dv >= 0.0 ==> e == dv) && (dv <= 0.0 ==> e <= 0.0)
  {
    assert Sum3(Bumped(a, i, dv)) == Sum3(a) + Bumped(a, i, dv)[i] - a[i];
  }

  lemma ShareMoves(a: real, total: real, dv: real, x: real)
    requires 0.0 <= a <= total && total > 0.0 && total + dv > 0.0
    requires (x >= 0.0 ==> dv >= 0.0) && (x <= 0.0 ==> dv <= 0.0) && (x > 0.0 ==> dv > 0.0)
    ensures ShareMoved(a, total, x, (a + dv) / (total + dv))
  {
    var m, share := total + dv, (a + dv) / (total + dv);
    assert share * m == a + dv;
    assert (share * total - a) * m == dv * (total - a);
    SignCarries(share * total - a, m, dv, total - a);
  }

  lemma SignCarries(gap: real, m: real, dv: real, rest: real)
    requires m > 0.0 && rest >= 0.0 && gap * m == dv * rest
    ensures (dv >= 0.0 ==> gap >= 0.0) && (dv <= 0.0 ==> gap <= 0.0) && (dv > 0.0 && rest > 0.0 ==> gap > 0.0)
  {
    if gap > 0.0 {
      ProductPositive(gap, m);
      if dv <= 0.0 { ProductNotNegative(-dv, rest); }
    } else if gap < 0.0 {
      ProductPositive(-gap, m);
      if dv >= 0.0 { ProductNotNegative(dv, rest); }
    } else if dv > 0.0 && rest > 0.0 {
      ProductPositive(dv, rest);
    }
  }

  lemma SameProportion(x: real, y: real, s: real)
    requires s > 0.0
    ensures SameRatio(x, y, x / s, y / s)
  {
    var q := 1.0 / s;
    assert x / s == x * q && y / s == y * q;
  }

  // ------------------------------------------------------------------ genome knobs

  function TurnOne(g: Genome, d: Proposal): Genome {
    if !IsGenome(d) then g
    else g.Set(d.key.k, Clip(KnobLow(d.key.k), KnobHigh(d.key.k), g.Get(d.key.k) + Capped(d.delta)))
  }

  function TurnAll(g: Genome, deltas: seq<Proposal>): Genome {
    if deltas == [] then g else TurnOne(TurnAll(g, deltas[..|deltas| - 1]), deltas[|deltas| - 1])
  }

  /** The genome with the pending updates written in. */
  ghost predicate Pending(g: Genome, updates: map<GenomeKey, real>, r: Genome) {
    forall k :: r.Get(k) == if k in updates then updates[k] else g.Get(k)
  }

  lemma PendingIsUnique(g: Genome, updates: map<GenomeKey, real>, r: Genome, r': Genome)
    requires Pending(g, updates, r) && Pending(g, updates, r')
    ensures r == r'
  {
    assert r.Get(MinEdge) == r'.Get(MinEdge) && r.Get(MaxBreathRiskPct) == r'.Get(MaxBreathRiskPct);
    assert r.Get(MinConfidence) == r'.Get(MinConfidence) && r.Get(Kappa) == r'.Get(Kappa);
    assert r.Get(GateStorm) == r'.Get(GateStorm) && r.Get(RiskStorm) == r'.Get(RiskStorm);
    assert r.Get(KappaXm) == r'.Get(KappaXm);
  }

  method ApplyGenomeDeltas(seed: StrategyConfig, deltas: seq<Proposal>) returns (r: StrategyConfig)
    ensures r == seed.(genome := TurnAll(seed.genome, deltas))
  {
    var updates: map<GenomeKey, real> := map[];
    for i := 0 to |deltas|
      invariant Pending(seed.genome, updates, TurnAll(seed.genome, deltas[..i]))
    {
      var d := deltas[i];
      assert deltas[..i + 1][..i] == deltas[..i];
      if !d.key.Knob? || !d.delta.Number? {
        continue;
      }
      var key := d.key.k;
      var dv := Clip(-DELTA_CAP, DELTA_CAP, d.delta.x);
      var cur := if key in updates then updates[key] else seed.genome.Get(key);
      updates := updates[key := Clip(KnobLow(key), KnobHigh(key), cur + dv)];
    }
    assert deltas[..|deltas|] == deltas;
    var g := Replace(seed.genome, updates);
    PendingIsUnique(seed.genome, updates, g, TurnAll(seed.genome, deltas));
    return seed.(genome := g);
  }

  function Updated(g: Genome, updates: map<GenomeKey, real>, k: GenomeKey): real {
    if k in updates then updates[k] else g.Get(k)
  }

  function Replace(g: Genome, updates: map<GenomeKey, real>): (r: Genome)
    ensures Pending(g, updates, r)
  {
    Genome(Updated(g, updates, MinEdge), Updated(g, updates, MaxBreathRiskPct), Updated(g, updates, MinConfidence),
           Updated(g, updates, Kappa), Updated(g, updates, GateStorm), Updated(g, updates, RiskStorm),
           Updated(g, updates, KappaXm))
  }

  ghost predicate InBounds(g: Genome) {
    forall k :: KnobLow(k) <= g.Get(k) <= KnobHigh(k)
  }

  ghost predicate Touched(deltas: seq<Proposal>, k: GenomeKey) {
    exists d :: d in deltas && IsGenome(d) && d.key.k == k
  }

  /** A touched knob ends inside its bounds wherever it started; an untouched one does not move. */
  lemma {:induction false} KnobsStayInBounds(g: Genome, deltas: seq<Proposal>, k: GenomeKey)
    ensures Touched(deltas, k) ==> KnobLow(k) <= TurnAll(g, deltas).Get(k) <= KnobHigh(k)
    ensures !Touched(deltas, k) ==> TurnAll(g, deltas).Get(k) == g.Get(k)
  {
    if deltas != [] {
      var front, d := deltas[..|deltas| - 1], deltas[|deltas| - 1];
      assert deltas == front + [d];
      KnobsStayInBounds(g, front, k);
      assert Touched(deltas, k) <==> Touched(front, k) || (IsGenome(d) && d.key.k == k);
    }
  }

  /** One numeric delta turns its knob by at most a tenth, stopped at the knob's bounds, and no other. */
  lemma KnobsFollowDeltas(g: Genome, k: GenomeKey, x: real)
    ensures var r := TurnAll(g, [Proposal(Knob(k), Number(x))]);
      && Moved(g.Get(k), if x > 0.1 then 0.1 else if x < -0.1 then -0.1 else x, KnobLow(k), KnobHigh(k), r.Get(k))
      && forall j :: j != k ==> r.Get(j) == g.Get(j)
  {
    var d := Proposal(Knob(k), Number(x));
    assert [d][..0] == [];
    assert TurnAll(g, [d]) == TurnOne(g, d);
  }

  /** The ranges in numbers, after any advice. */
  lemma KnobRanges(g: Genome, deltas: seq<Proposal>)
    requires InBounds(g)
    ensures var r := TurnAll(g, deltas);
      && 0.0 <= r.minEdge <= 0.5 && 0.05 <= r.maxBreathRiskPct <= 1.0 && 0.0 <= r.minConfidence <= 1.0
      && 0.01 <= r.kappa <= 1.0 && -1.0 <= r.gateStorm <= 1.0 && -1.0 <= r.riskStorm <= 1.0 && 0.0 <= r.kappaXm <= 1.0
  {
    hide TurnAll, Touched;
    var r := TurnAll(g, deltas);
    forall k ensures KnobLow(k) <= r.Get(k) <= KnobHigh(k) {
      KnobsStayInBounds(g, deltas, k);
      assert KnobLow(k) <= g.Get(k) <= KnobHigh(k);
    }
    assert KnobLow(MinEdge) <= r.Get(MinEdge) <= KnobHigh(MinEdge);
    assert KnobLow(MaxBreathRiskPct) <= r.Get(MaxBreathRiskPct) <= KnobHigh(MaxBreathRiskPct);
    assert KnobLow(MinConfidence) <= r.Get(MinConfidence) <= KnobHigh(MinConfidence);
    assert KnobLow(Kappa) <= r.Get(Kappa) <= KnobHigh(Kappa);
    assert KnobLow(GateStorm) <= r.Get(GateStorm) <= KnobHigh(GateStorm);
    assert KnobLow(RiskStorm) <= r.Get(RiskStorm) <= KnobHigh(RiskStorm);
    assert KnobLow(KappaXm) <= r.Get(KappaXm) <= KnobHigh(KappaXm);
  }

  // ------------------------------------------ applying and accounting cannot diverge

  /** Applying the raw proposals is applying what the classifier kept, and every proposal is counted once. */
  lemma {:induction false} ClassifierAgreesWithApply(w: Weights, g: Genome, deltas: seq<Proposal>)
    requires |w.alpha| == 3 && |w.beta| == 2
    ensures ApplyAll(w, Classify(deltas, true).fusion) == ApplyAll(w, deltas)
    ensures TurnAll(g, Classify(deltas, true).genome) == TurnAll(g, deltas)
    ensures Classify(deltas, true).Applied() + |Classify(deltas, true).skipped| == |deltas|
  {
    hide ApplyOne, TurnOne;
    if deltas != [] {
      var front, d := deltas[..|deltas| - 1], deltas[|deltas| - 1];
      ClassifierAgreesWithApply(w, g, front);
      var c := Classify(front, true);
      assert (c.fusion + [d])[..|c.fusion|] == c.fusion;
      assert (c.genome + [d])[..|c.genome|] == c.genome;
      InertProposals(ApplyAll(w, front), TurnAll(g, front), d);
    }
  }

  lemma InertProposals(w: Weights, g: Genome, d: Proposal)
    requires |w.alpha| == 3 && |w.beta| == 2
    ensures !IsFusion(d) ==> ApplyOne(w, d) == w
    ensures !IsGenome(d) ==> TurnOne(g, d) == g
    ensures !(IsFusion(d) && IsGenome(d))
  {
  }

  /** With the kit off the fusion part is the same and no knob proposal gets through. */
  lemma {:induction false} KitOffKeepsFusionOnly(deltas: seq<Proposal>)
    ensures Classify(deltas, false).genome == []
    ensures Classify(deltas, false).fusion == Classify(deltas, true).fusion
  {
    if deltas != [] {
      KitOffKeepsFusionOnly(deltas[..|deltas| - 1]);
    }
  }
}
