/** What tied ranks add up to, and what the rank correlation built on them can be (sim/analysis.py). */
module RankCorrelation {
  import opened Arithmetic
  import opened Markets
  import opened StableSort
  import opened Sums
  import opened TiedRanks

  // ----------------------------------------------------------------- facts about ranks

  /** Each other value is below, equal or above. */
  lemma {:induction false} ThreeWays(values: seq<real>, v: real)
    ensures Count(values, Below(v)) + Count(values, EqualTo(v)) + Count(values, Above(v)) == |values|
  {
    if values != [] {
      ThreeWays(values[..|values| - 1], v);
    }
  }

  lemma CountPush(values: seq<real>, x: real, keep: real -> bool)
    ensures Count(values + [x], keep) == Count(values, keep) + if keep(x) then 1 else 0
  {
    FilterPush(values, x, keep);
  }

  function Twice(values: seq<real>, v: real): int { 2 * Count(values, Below(v)) + Count(values, EqualTo(v)) + 1 }

  /** Twice the ranks, among `values`, of the members of `over`, added up. */
  function TwiceTotal(values: seq<real>, over: seq<real>): int {
    if over == [] then 0 else TwiceTotal(values, over[..|over| - 1]) + Twice(values, over[|over| - 1])
  }

  lemma {:induction false} RankingOneMore(values: seq<real>, x: real, over: seq<real>)
    ensures TwiceTotal(values + [x], over)
         == TwiceTotal(values, over) + 2 * Count(over, Above(x)) + Count(over, EqualTo(x))
  {
    if over != [] {
      var v := over[|over| - 1];
      RankingOneMore(values, x, over[..|over| - 1]);
      CountPush(values, x, Below(v));
      CountPush(values, x, EqualTo(v));
    }
  }

  /** A new value adds one full place for everyone: what the ranks above it gain, it does not get. */
  lemma TwiceOneMore(front: seq<real>, x: real)
    ensures TwiceTotal(front + [x], front + [x]) == TwiceTotal(front, front) + 2 * (|front| + 1)
  {
    var all := front + [x];
    assert all[..|all| - 1] == front && all[|all| - 1] == x;
    RankingOneMore(front, x, front);
    ThreeWays(front, x);
    CountPush(front, x, Below(x));
    CountPush(front, x, EqualTo(x));
  }

  lemma NextProduct(n: nat)
    ensures n * (n + 1) + 2 * (n + 1) == (n + 1) * (n + 2)
  {
  }

  lemma {:induction false} TwiceRanksAddUp(values: seq<real>)
    ensures TwiceTotal(values, values) == |values| * (|values| + 1)
  {
    hide Twice;
    if values != [] {
      var front := values[..|values| - 1];
      assert values == front + [values[|values| - 1]];
      TwiceRanksAddUp(front);
      TwiceOneMore(front, values[|values| - 1]);
      NextProduct(|front|);
    }
  }

  lemma {:induction false} TotalOfHalves(values: seq<real>, over: seq<real>)
    ensures Total(seq(|over|, i requires 0 <= i < |over| => Rank(values, over[i]))) == TwiceTotal(values, over) as real / 2.0
  {
    if over != [] {
      var front := over[..|over| - 1];
      TotalOfHalves(values, front);
      var all := seq(|over|, i requires 0 <= i < |over| => Rank(values, over[i]));
      assert all[..|front|] == seq(|front|, i requires 0 <= i < |front| => Rank(values, front[i]));
    }
  }

  /** Ties share places but lose none: the ranks always add up to 1 + 2 + ... + n. */
  lemma RanksAddUp(values: seq<real>)
    ensures Total(Ranks(values)) == (|values| * (|values| + 1)) as real / 2.0
  {
    TotalOfHalves(values, values);
    TwiceRanksAddUp(values);
    assert Ranks(values) == seq(|values|, i requires 0 <= i < |values| => Rank(values, values[i]));
  }

  lemma {:induction false} CountsGrow(values: seq<real>, v: real, w: real)
    requires v < w
    ensures Count(values, Below(v)) + Count(values, EqualTo(v)) <= Count(values, Below(w))
  {
    if values != [] {
      CountsGrow(values[..|values| - 1], v, w);
    }
  }

  lemma {:induction false} MemberCounts(values: seq<real>, i: nat)
    requires i < |values|
    ensures Count(values, EqualTo(values[i])) >= 1
  {
    if i < |values| - 1 {
      MemberCounts(values[..|values| - 1], i);
    }
  }

  /** Ranks order the positions exactly as the values do. */
  lemma RanksKeepOrder(values: seq<real>, i: nat, j: nat)
    requires i < |values| && j < |values|
    ensures values[i] < values[j] <==> Ranks(values)[i] < Ranks(values)[j]
    ensures values[i] == values[j] <==> Ranks(values)[i] == Ranks(values)[j]
  {
    MemberCounts(values, i);
    MemberCounts(values, j);
    if values[i] < values[j] {
      CountsGrow(values, values[i], values[j]);
    } else if values[j] < values[i] {
      CountsGrow(values, values[j], values[i]);
    }
  }

  // ------------------------------------------------------------------ transformations

  ghost predicate SameOrder(xs: seq<real>, ys: seq<real>) {
    |xs| == |ys| && forall i, j :: 0 <= i < |xs| && 0 <= j < |xs| ==> (xs[i] < xs[j] <==> ys[i] < ys[j])
  }

  ghost predicate OppositeOrder(xs: seq<real>, ys: seq<real>) {
    |xs| == |ys| && forall i, j :: 0 <= i < |xs| && 0 <= j < |xs| ==> (xs[i] < xs[j] <==> ys[i] > ys[j])
  }

  lemma {:induction false} SameCounts(xs: seq<real>, ys: seq<real>, i: nat, m: nat)
    requires SameOrder(xs, ys) && i < |xs| && m <= |xs|
    ensures Count(xs[..m], Below(xs[i])) == Count(ys[..m], Below(ys[i]))
    ensures Count(xs[..m], EqualTo(xs[i])) == Count(ys[..m], EqualTo(ys[i]))
  {
    if m > 0 {
      SameCounts(xs, ys, i, m - 1);
      assert xs[..m] == xs[..m - 1] + [xs[m - 1]] && ys[..m] == ys[..m - 1] + [ys[m - 1]];
      CountPush(xs[..m - 1], xs[m - 1], Below(xs[i]));
      CountPush(ys[..m - 1], ys[m - 1], Below(ys[i]));
      CountPush(xs[..m - 1], xs[m - 1], EqualTo(xs[i]));
      CountPush(ys[..m - 1], ys[m - 1], EqualTo(ys[i]));
      assert xs[m - 1] == xs[i] <==> ys[m - 1] == ys[i];
    }
  }

  lemma {:induction false} OppositeCounts(xs: seq<real>, ys: seq<real>, i: nat, m: nat)
    requires OppositeOrder(xs, ys) && i < |xs| && m <= |xs|
    ensures Count(xs[..m], Below(xs[i])) == Count(ys[..m], Above(ys[i]))
    ensures Count(xs[..m], EqualTo(xs[i])) == Count(ys[..m], EqualTo(ys[i]))
  {
    if m > 0 {
      OppositeCounts(xs, ys, i, m - 1);
      assert xs[..m] == xs[..m - 1] + [xs[m - 1]] && ys[..m] == ys[..m - 1] + [ys[m - 1]];
      CountPush(xs[..m - 1], xs[m - 1], Below(xs[i]));
      CountPush(ys[..m - 1], ys[m - 1], Above(ys[i]));
      CountPush(xs[..m - 1], xs[m - 1], EqualTo(xs[i]));
      CountPush(ys[..m - 1], ys[m - 1], EqualTo(ys[i]));
      assert xs[m - 1] == xs[i] <==> ys[m - 1] == ys[i];
    }
  }

  /** A strictly increasing transform leaves the ranks alone. */
  lemma SameRanks(xs: seq<real>, ys: seq<real>)
    requires SameOrder(xs, ys)
    ensures Ranks(xs) == Ranks(ys)
  {
    assert xs[..|xs|] == xs && ys[..|ys|] == ys;
    forall i | 0 <= i < |xs| ensures Ranks(xs)[i] == Ranks(ys)[i] {
      SameCounts(xs, ys, i, |xs|);
    }
  }

  /** A strictly decreasing one reflects them. */
  lemma OppositeRanks(xs: seq<real>, ys: seq<real>)
    requires OppositeOrder(xs, ys)
    ensures forall i :: 0 <= i < |xs| ==> Ranks(ys)[i] == (|xs| + 1) as real - Ranks(xs)[i]
  {
    assert xs[..|xs|] == xs && ys[..|ys|] == ys;
    forall i | 0 <= i < |xs| ensures Ranks(ys)[i] == (|xs| + 1) as real - Ranks(xs)[i] {
      OppositeCounts(xs, ys, i, |xs|);
      ThreeWays(ys, ys[i]);
    }
  }

  // ---------------------------------------------------------------------- correlation

  function Mean(xs: seq<real>): real
    requires xs != []
  {
    Total(xs) / |xs| as real
  }

  function Centred(xs: seq<real>, m: real): (r: seq<real>)
    ensures |r| == |xs| && forall i :: 0 <= i < |xs| ==> r[i] == xs[i] - m
  {
    seq(|xs|, i requires 0 <= i < |xs| => xs[i] - m)
  }

  function Dot(a: seq<real>, b: seq<real>): real
    requires |a| == |b|
  {
    if a == [] then 0.0 else Dot(a[..|a| - 1], b[..|b| - 1]) + a[|a| - 1] * b[|b| - 1]
  }

  /** The deviations of the ranks from their mean. */
  function Deviations(xs: seq<real>): (r: seq<real>)
    requires xs != []
    ensures |r| == |xs|
  {
    Centred(Ranks(xs), Mean(Ranks(xs)))
  }

  datatype Parts = Parts(cov: real, varX: real, varY: real)

  function PartsOf(xs: seq<real>, ys: seq<real>): Parts
    requires |xs| == |ys| && xs != []
  {
    var a, b := Deviations(xs), Deviations(ys);
    Parts(Dot(a, b), Dot(a, a), Dot(b, b))
  }

  /** The sums `_spearman` forms, over in-place ranks; lists of different lengths are refused. */
  method SpearmanParts(xs: seq<real>, ys: seq<real>) returns (r: Result<Option<Parts>>)
    ensures r.Ok? <==> |xs| == |ys|
    ensures r.Ok? ==> r.value == if |xs| < 2 then None else Some(PartsOf(xs, ys))
  {
    if |xs| != |ys| {
      return Err("different lengths");
    }
    if |xs| < 2 {
      return Ok(None);
    }
    var rankX := RankData(xs);
    var rankY := RankData(ys);
    var a := Centred(rankX[..], Mean(rankX[..]));
    var b := Centred(rankY[..], Mean(rankY[..]));
    return Ok(Some(Parts(Dot(a, b), Dot(a, a), Dot(b, b))));
  }

  ghost predicate Solves(p: Parts, r: real, root: real) {
    root > 0.0 && root * root == p.varX * p.varY && r * root == p.cov
  }

  /** The quotient of the covariance by the root of the variances' product, 0 when that root is 0. */
  ghost predicate IsQuotient(p: Parts, r: real) {
    if p.varX * p.varY == 0.0 then r == 0.0 else exists root: real :: Solves(p, r, root)
  }

  /** r is the returned correlation. */
  ghost predicate IsSpearman(xs: seq<real>, ys: seq<real>, r: real)
    requires |xs| == |ys|
  {
    if |xs| < 2 then r == 0.0 else IsQuotient(PartsOf(xs, ys), r)
  }

  // --------------------------------------------------------------------- Cauchy-Schwarz

  lemma SquaresOrder(x: real, y: real)
    requires x * x <= y * y && y >= 0.0
    ensures x <= y
  {
    if x > y {
      StrictSquares(x, y);
    }
  }

  lemma SquareNotNegative(x: real)
    ensures x * x >= 0.0
  {
  }

  lemma MeanOfProducts(s: real, p: real, q: real, a: real, b: real)
    requires s * s <= p * q && p >= 0.0 && q >= 0.0
    ensures 2.0 * (s * (a * b)) <= p * (b * b) + q * (a * a)
  {
    var x, y := 2.0 * (s * (a * b)), p * (b * b) + q * (a * a);
    SquareNotNegative(a);
    SquareNotNegative(b);
    ProductNotNegative(p, b * b);
    ProductNotNegative(q, a * a);
    SquareNotNegative(p * (b * b) - q * (a * a));
    SquareNotNegative(a * b);
    Scale(s * s, p * q, (a * b) * (a * b));
    assert x * x == 4.0 * ((s * s) * ((a * b) * (a * b)));
    assert y * y - 4.0 * ((p * q) * ((a * b) * (a * b))) == (p * (b * b) - q * (a * a)) * (p * (b * b) - q * (a * a));
    SquaresOrder(x, y);
  }

  lemma {:induction false} SelfDotNotNegative(a: seq<real>)
    ensures Dot(a, a) >= 0.0
  {
    if a != [] {
      SelfDotNotNegative(a[..|a| - 1]);
      SquareNotNegative(a[|a| - 1]);
    }
  }

  lemma StepSquares(s: real, p: real, q: real, a: real, b: real)
    requires s * s <= p * q && p >= 0.0 && q >= 0.0
    ensures (s + a * b) * (s + a * b) <= (p + a * a) * (q + b * b)
  {
    MeanOfProducts(s, p, q, a, b);
    assert (s + a * b) * (s + a * b) == s * s + 2.0 * (s * (a * b)) + (a * b) * (a * b);
    assert (p + a * a) * (q + b * b) == p * q + p * (b * b) + q * (a * a) + (a * a) * (b * b);
    assert (a * b) * (a * b) == (a * a) * (b * b);
  }

  lemma {:induction false} CauchySchwarz(a: seq<real>, b: seq<real>)
    requires |a| == |b|
    ensures Dot(a, b) * Dot(a, b) <= Dot(a, a) * Dot(b, b)
  {
    if a != [] {
      var a', b' := a[..|a| - 1], b[..|b| - 1];
      CauchySchwarz(a', b');
      SelfDotNotNegative(a');
      SelfDotNotNegative(b');
      StepSquares(Dot(a', b'), Dot(a', a'), Dot(b', b'), a[|a| - 1], b[|b| - 1]);
    }
  }

  lemma CovarianceBounded(xs: seq<real>, ys: seq<real>)
    requires |xs| == |ys| && xs != []
    ensures var p := PartsOf(xs, ys);
      p.cov * p.cov <= p.varX * p.varY && p.varX >= 0.0 && p.varY >= 0.0
  {
    hide Dot, Deviations;
    CauchySchwarz(Deviations(xs), Deviations(ys));
    SelfDotNotNegative(Deviations(xs));
    SelfDotNotNegative(Deviations(ys));
  }

  lemma RatioBounded(r: real, root: real, cov: real)
    requires root > 0.0 && r * root == cov && cov * cov <= root * root
    ensures -1.0 <= r <= 1.0
  {
    SquaresOrder(cov, root);
    SquaresOrder(-cov, root);
    assert (1.0 - r) * root >= 0.0 && (1.0 + r) * root >= 0.0;
  }

  /** The correlation is at most one in size. */
  lemma SpearmanIsBounded(xs: seq<real>, ys: seq<real>, r: real)
    requires |xs| == |ys| && IsSpearman(xs, ys, r)
    ensures -1.0 <= r <= 1.0
  {
    hide PartsOf;
    if |xs| >= 2 {
      CovarianceBounded(xs, ys);
      var p := PartsOf(xs, ys);
      if p.varX * p.varY != 0.0 {
        var root: real :| Solves(p, r, root);
        RatioBounded(r, root, p.cov);
      }
    }
  }

  lemma SolutionIsUnique(p: Parts, r: real, t: real, a: real, b: real)
    requires Solves(p, r, a) && Solves(p, t, b)
    ensures r == t
  {
    SquaresOrder(a, b);
    SquaresOrder(b, a);
    assert (r - t) * a == 0.0;
  }

  /** The defining equation leaves no choice. */
  lemma SpearmanIsUnique(xs: seq<real>, ys: seq<real>, r: real, t: real)
    requires |xs| == |ys| && IsSpearman(xs, ys, r) && IsSpearman(xs, ys, t)
    ensures r == t
  {
    hide PartsOf;
    if |xs| >= 2 {
      var p := PartsOf(xs, ys);
      if p.varX * p.varY != 0.0 {
        var a: real :| Solves(p, r, a);
        var b: real :| Solves(p, t, b);
        SolutionIsUnique(p, r, t, a, b);
      }
    }
  }

  lemma QuotientSwaps(p: Parts, r: real)
    ensures IsQuotient(p, r) <==> IsQuotient(Parts(p.cov, p.varY, p.varX), r)
  {
    assert forall root :: Solves(p, r, root) <==> Solves(Parts(p.cov, p.varY, p.varX), r, root);
  }

  lemma FlippedQuotient(p: Parts, q: Parts, r: real, t: real)
    requires IsQuotient(p, r) && q == Parts(-p.cov, p.varX, p.varY) && t == -r
    ensures IsQuotient(q, t)
  {
    if p.varX * p.varY != 0.0 {
      var root: real :| Solves(p, r, root);
      assert t * root == -(r * root);
      assert Solves(q, t, root);
    }
  }

  lemma QuotientFlips(p: Parts, r: real)
    ensures IsQuotient(p, r) <==> IsQuotient(Parts(-p.cov, p.varX, p.varY), -r)
  {
    var q := Parts(-p.cov, p.varX, p.varY);
    if IsQuotient(p, r) {
      FlippedQuotient(p, q, r, -r);
    }
    if IsQuotient(q, -r) {
      FlippedQuotient(q, p, -r, r);
    }
  }

  lemma {:induction false} DotCommutes(a: seq<real>, b: seq<real>)
    requires |a| == |b|
    ensures Dot(a, b) == Dot(b, a)
  {
    if a != [] {
      DotCommutes(a[..|a| - 1], b[..|b| - 1]);
    }
  }

  function Negated(a: seq<real>): (r: seq<real>)
    ensures |r| == |a| && forall i :: 0 <= i < |a| ==> r[i] == -a[i]
  {
    seq(|a|, i requires 0 <= i < |a| => -a[i])
  }

  lemma {:induction false} DotNegated(a: seq<real>, b: seq<real>)
    requires |a| == |b|
    ensures Dot(a, Negated(b)) == -Dot(a, b)
    ensures Dot(Negated(b), Negated(b)) == Dot(b, b)
  {
    if a != [] {
      DotNegated(a[..|a| - 1], b[..|b| - 1]);
      assert Negated(b)[..|b| - 1] == Negated(b[..|b| - 1]);
    }
  }

  lemma MeanRank(xs: seq<real>)
    requires xs != []
    ensures Mean(Ranks(xs)) == (|xs| + 1) as real / 2.0
  {
    hide Ranks, Total;
    RanksAddUp(xs);
    AverageOf(|xs|);
  }

  lemma AverageOf(n: nat)
    requires n > 0
    ensures ((n * (n + 1)) as real / 2.0) / n as real == (n + 1) as real / 2.0
  {
    var m := n as real;
    assert (n * (n + 1)) as real / 2.0 == (m + 1.0) / 2.0 * m;
    TimesOver((m + 1.0) / 2.0, m);
  }

  lemma TimesOver(x: real, m: real)
    requires m > 0.0
    ensures (x * m) / m == x
  {
    var q := (x * m) / m;
    assert q * m == x * m;
    assert (q - x) * m == 0.0;
  }

  lemma SameLength(ys: seq<real>, zs: seq<real>)
    requires OppositeOrder(ys, zs)
    ensures |ys| == |zs|
  {
  }

  lemma OppositeDeviations(ys: seq<real>, zs: seq<real>)
    requires OppositeOrder(ys, zs) && ys != []
    ensures Deviations(zs) == Negated(Deviations(ys))
  {
    hide Ranks, Mean, OppositeOrder;
    SameLength(ys, zs);
    OppositeRanks(ys, zs);
    MeanRank(ys);
    MeanRank(zs);
  }

  /** The order of the two series does not matter. */
  lemma SpearmanIsSymmetric(xs: seq<real>, ys: seq<real>, r: real)
    requires |xs| == |ys|
    ensures IsSpearman(xs, ys, r) <==> IsSpearman(ys, xs, r)
  {
    hide IsQuotient, Dot, Deviations;
    if |xs| >= 2 {
      DotCommutes(Deviations(xs), Deviations(ys));
      QuotientSwaps(PartsOf(xs, ys), r);
    }
  }

  /** Only the order of the data counts: a strictly increasing transform changes nothing. */
  lemma SpearmanSeesOnlyOrder(xs: seq<real>, ys: seq<real>, zs: seq<real>, r: real)
    requires |xs| == |ys| && SameOrder(ys, zs)
    ensures IsSpearman(xs, ys, r) <==> IsSpearman(xs, zs, r)
  {
    hide IsQuotient, Dot, Ranks, Mean;
    SameRanks(ys, zs);
  }

  /** A strictly decreasing transform flips the sign. */
  lemma SpearmanFlips(xs: seq<real>, ys: seq<real>, zs: seq<real>, r: real)
    requires |xs| == |ys| && OppositeOrder(ys, zs)
    ensures IsSpearman(xs, ys, r) <==> IsSpearman(xs, zs, -r)
  {
    hide IsQuotient, Dot, Deviations;
    if |xs| >= 2 {
      OppositeDeviations(ys, zs);
      DotNegated(Deviations(xs), Deviations(ys));
      QuotientFlips(PartsOf(xs, ys), r);
    }
  }

  lemma PerfectQuotient(v: real)
    requires v > 0.0
    ensures IsQuotient(Parts(v, v, v), 1.0)
  {
    ProductPositive(v, v);
    assert Solves(Parts(v, v, v), 1.0, v);
  }

  /** Data in the same order correlate perfectly, data in opposite order perfectly negatively, unless all tied. */
  lemma PerfectCorrelation(xs: seq<real>, ys: seq<real>)
    requires |xs| >= 2 && PartsOf(xs, xs).varX != 0.0
    ensures SameOrder(xs, ys) ==> IsSpearman(xs, ys, 1.0)
    ensures OppositeOrder(xs, ys) ==> IsSpearman(xs, ys, -1.0)
  {
    hide IsQuotient, Dot, Deviations;
    CovarianceBounded(xs, xs);
    PerfectQuotient(PartsOf(xs, xs).varX);
    if SameOrder(xs, ys) {
      SpearmanSeesOnlyOrder(xs, xs, ys, 1.0);
    }
    if OppositeOrder(xs, ys) {
      SpearmanFlips(xs, xs, ys, 1.0);
    }
  }

  // ----------------------------------------------------------- the classical formula

  /** The differences of the two ranks, row by row. */
  function RankGaps(xs: seq<real>, ys: seq<real>): (r: seq<real>)
    requires |xs| == |ys|
    ensures |r| == |xs| && forall i :: 0 <= i < |r| ==> r[i] == Ranks(xs)[i] - Ranks(ys)[i]
  {
    seq(|xs|, i requires 0 <= i < |xs| => Ranks(xs)[i] - Ranks(ys)[i])
  }

  lemma {:induction false} DotOfGaps(a: seq<real>, b: seq<real>, d: seq<real>)
    requires |a| == |b| == |d| && forall i :: 0 <= i < |d| ==> d[i] == a[i] - b[i]
    ensures Dot(d, d) == Dot(a, a) + Dot(b, b) - 2.0 * Dot(a, b)
  {
    if a != [] {
      var n := |a| - 1;
      DotOfGaps(a[..n], b[..n], d[..n]);
      SquareOfGap(a[n], b[n], d[n]);
    }
  }

  lemma SquareOfGap(x: real, y: real, z: real)
    requires z == x - y
    ensures z * z == x * x + y * y - 2.0 * (x * y)
  {
  }

  /** With ties or without, the squared rank differences are what the variances and the covariance leave. */
  lemma GapsAreVarianceLessCovariance(xs: seq<real>, ys: seq<real>)
    requires |xs| == |ys| && xs != []
    ensures var p := PartsOf(xs, ys); Dot(RankGaps(xs, ys), RankGaps(xs, ys)) == p.varX + p.varY - 2.0 * p.cov
  {
    hide Dot, Ranks, Mean;
    MeanRank(xs);
    MeanRank(ys);
    DotOfGaps(Deviations(xs), Deviations(ys), RankGaps(xs, ys));
  }

  ghost predicate Distinct(xs: seq<real>) { forall i, j :: 0 <= i < j < |xs| ==> xs[i] != xs[j] }

  function RankIn(xs: seq<real>): real -> real { (v: real) => Rank(xs, v) }

  function Squared(): real -> real { (x: real) => x * x }

  /** 1, 2, ..., n */
  function Counting(n: nat): (r: seq<real>)
    ensures |r| == n && forall i :: 0 <= i < n ==> r[i] == (i + 1) as real
  {
    seq(n, i requires 0 <= i < n => (i + 1) as real)
  }

  lemma SortedDistinct(xs: seq<real>, k: nat)
    requires Distinct(xs) && 0 < k < |xs|
    ensures Sort(xs, AtMost)[k - 1] != Sort(xs, AtMost)[k]
  {
    var s := Sort(xs, AtMost);
    if s[k - 1] == s[k] {
      TwiceInARow(s, k);
      TwoPlaces(xs, s[k]);
      assert false;
    }
  }

  /** Without ties the ranks are 1 to n in some order. */
  lemma RanksArePermuted(xs: seq<real>)
    requires Distinct(xs)
    ensures multiset(Ranks(xs)) == multiset(Counting(|xs|))
  {
    hide Rank;
    var s := Sort(xs, AtMost);
    forall k | 0 <= k < |xs| ensures Rank(xs, s[k]) == (k + 1) as real {
      if k > 0 { SortedDistinct(xs, k); }
      if k + 1 < |xs| { SortedDistinct(xs, k + 1); }
      RunRank(xs, k, k, k);
    }
    assert Map(s, RankIn(xs)) == Counting(|xs|);
    assert Map(xs, RankIn(xs)) == Ranks(xs);
    MapKeepsMultiset(xs, s, RankIn(xs));
  }

  lemma {:induction false} SelfDotIsTotal(a: seq<real>)
    ensures Dot(a, a) == Total(Map(a, Squared()))
  {
    if a != [] {
      var n := |a| - 1;
      SelfDotIsTotal(a[..n]);
      assert Map(a, Squared())[..n] == Map(a[..n], Squared());
    }
  }

  function SumOfSquares(n: nat): real { n as real * (n as real + 1.0) * (2.0 * n as real + 1.0) / 6.0 }

  lemma {:induction false} CountingSquares(n: nat)
    ensures Total(Map(Counting(n), Squared())) == SumOfSquares(n)
  {
    if n > 0 {
      CountingSquares(n - 1);
      assert Map(Counting(n), Squared())[..n - 1] == Map(Counting(n - 1), Squared());
      NextSquares(n - 1);
    }
  }

  lemma NextSquares(n: nat)
    ensures SumOfSquares(n + 1) == SumOfSquares(n) + (n + 1) as real * (n + 1) as real
  {
    var x := n as real;
    assert (n + 1) as real == x + 1.0;
    assert (x + 1.0) * (x + 2.0) * (2.0 * x + 3.0) == x * (x + 1.0) * (2.0 * x + 1.0) + 6.0 * ((x + 1.0) * (x + 1.0));
  }

  lemma {:induction false} CentredSquares(a: seq<real>, m: real)
    ensures Dot(Centred(a, m), Centred(a, m)) == Dot(a, a) - 2.0 * (m * Total(a)) + |a| as real * (m * m)
  {
    if a != [] {
      var n := |a| - 1;
      CentredSquares(a[..n], m);
      LastSquare(a);
      LastSquare(Centred(a, m));
      assert Centred(a, m)[..n] == Centred(a[..n], m);
      hide Dot, Total, Centred;
      CentredSquare(a[n], m, n, Total(a[..n]));
    }
  }

  lemma LastSquare(a: seq<real>)
    requires a != []
    ensures var n := |a| - 1; Dot(a, a) == Dot(a[..n], a[..n]) + a[n] * a[n] && Total(a) == Total(a[..n]) + a[n]
  {
  }

  lemma CentredSquare(x: real, m: real, n: nat, total: real)
    ensures (x - m) * (x - m) - 2.0 * (m * total) + n as real * (m * m)
         == x * x - 2.0 * (m * (total + x)) + (n + 1) as real * (m * m)
  {
    SquareOfGap(x, m, x - m);
    Distribute(m, total, x);
    OneMore(n, m * m);
  }

  /** Twelve times the variance that the ranks of n distinct values have. */
  function TwelveVariances(n: nat): real { n as real * (n as real * n as real - 1.0) }

  lemma DistinctVariance(xs: seq<real>)
    requires xs != [] && Distinct(xs)
    ensures 12.0 * Dot(Deviations(xs), Deviations(xs)) == TwelveVariances(|xs|)
  {
    hide Dot, Total, Ranks, Mean;
    var n, m := |xs|, Mean(Ranks(xs));
    MeanRank(xs);
    RanksAddUp(xs);
    CentredSquares(Ranks(xs), m);
    RanksArePermuted(xs);
    SelfDotIsTotal(Ranks(xs));
    MapKeepsMultiset(Ranks(xs), Counting(n), Squared());
    TotalIgnoresOrder(Map(Ranks(xs), Squared()), Map(Counting(n), Squared()));
    CountingSquares(n);
    VarianceInNumbers(n, m, Total(Ranks(xs)));
  }

  lemma VarianceInNumbers(n: nat, m: real, total: real)
    requires m == (n + 1) as real / 2.0 && total == (n * (n + 1)) as real / 2.0
    ensures 12.0 * (SumOfSquares(n) - 2.0 * (m * total) + n as real * (m * m)) == TwelveVariances(n)
  {
    var x := n as real;
    var y := x + 1.0;
    var q := x * y;
    assert total == q / 2.0 && m == y / 2.0;
    HalfProducts(y, q);
    HalfProducts(y, y);
    Regrouped(x, y, q);
    SquaresByPairs(n, q);
    assert 2.0 * (q * (2.0 * x + 1.0)) - 3.0 * (q * y) == q * (x - 1.0) by { Collected(q, x, y); }
    hide SumOfSquares, TwelveVariances;
  }

  lemma HalfProducts(a: real, b: real)
    ensures a / 2.0 * (b / 2.0) == a * b / 4.0
  {
  }

  lemma Regrouped(x: real, y: real, q: real)
    requires q == x * y
    ensures x * (y * y / 4.0) == q * y / 4.0 && y * q / 4.0 == q * y / 4.0
  {
  }

  lemma SquaresByPairs(n: nat, q: real)
    requires q == n as real * (n as real + 1.0)
    ensures SumOfSquares(n) == q * (2.0 * n as real + 1.0) / 6.0 && TwelveVariances(n) == q * (n as real - 1.0)
  {
    var x := n as real;
    assert (x + 1.0) * (x - 1.0) == x * x - 1.0;
    assert q * (x - 1.0) == x * ((x + 1.0) * (x - 1.0));
  }

  lemma Collected(q: real, x: real, y: real)
    requires y == x + 1.0
    ensures 2.0 * (q * (2.0 * x + 1.0)) - 3.0 * (q * y) == q * (x - 1.0)
  {
  }

  /** For distinct values r = 1 - 6 * (sum of squared rank differences) / (n * (n^2 - 1)). */
  lemma ClassicalFormula(xs: seq<real>, ys: seq<real>, r: real)
    requires |xs| == |ys| >= 2 && Distinct(xs) && Distinct(ys) && IsSpearman(xs, ys, r)
    ensures TwelveVariances(|xs|) > 0.0
    ensures r * TwelveVariances(|xs|) == TwelveVariances(|xs|) - 6.0 * Dot(RankGaps(xs, ys), RankGaps(xs, ys))
  {
    hide Dot, Ranks, Deviations, TwelveVariances;
    var p := PartsOf(xs, ys);
    DistinctVariance(xs);
    DistinctVariance(ys);
    GapsAreVarianceLessCovariance(xs, ys);
    ManyVariances(|xs|);
    var v := p.varX;
    assert p.varY == v > 0.0;
    ProductPositive(v, v);
    var root: real :| Solves(p, r, root);
    if root < v { StrictSquares(v, root); }
    if v < root { StrictSquares(root, v); }
    assert r * v == p.cov;
  }

  lemma ManyVariances(n: nat)
    requires n >= 2
    ensures TwelveVariances(n) > 0.0
  {
    var x := n as real;
    ProductPositive(x - 1.0, x + 1.0);
    assert (x - 1.0) * (x + 1.0) == x * x - 1.0;
    ProductPositive(x, x * x - 1.0);
  }
}
