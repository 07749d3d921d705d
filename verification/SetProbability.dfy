/**
 From the probability of a match to the probability of one set: the best-of-N model and
 the bisection that inverts it (agent/backtest/sharp_line.py), in exact arithmetic.
 */
module SetProbability {
  import opened Arithmetic

  /** Probability of winning a match of independent sets, each won with probability p. */
  function MatchProb(p: real, bestOf: int): real {
    if bestOf >= 5 then p * p * p * (10.0 - 15.0 * p + 6.0 * p * p)
    else p * p * (3.0 - 2.0 * p)
  }

  // ----------------------------------------------------------- the match model

  /** The slope between a and b of the best-of-3 polynomial. */
  function Slope3(a: real, b: real): real {
    2.0 * (a * (1.0 - a)) + (a * (1.0 - b) + b * (1.0 - a)) + 2.0 * (b * (1.0 - b))
  }

  lemma SlopeOf3(a: real, b: real)
    ensures MatchProb(b, 3) - MatchProb(a, 3) == (b - a) * Slope3(a, b)
  {
  }

  /** The same for best of five, a sum of products that are never negative on [0, 1]. */
  function Slope5(a: real, b: real): real {
    SlopeSum(a * (1.0 - a), a * (1.0 - b) + b * (1.0 - a), b * (1.0 - b))
  }

  function SlopeSum(aa: real, ab: real, bb: real): real {
    6.0 * (aa * aa) + 3.0 * (aa * ab) + (ab * ab + 2.0 * (aa * bb)) + 3.0 * (ab * bb) + 6.0 * (bb * bb)
  }

  lemma SlopeOf5(a: real, b: real)
    ensures MatchProb(b, 5) - MatchProb(a, 5) == (b - a) * Slope5(a, b)
  {
  }

  lemma SlopeTerms(a: real, b: real)
    requires 0.0 <= a < b <= 1.0
    ensures a * (1.0 - a) >= 0.0 && b * (1.0 - b) >= 0.0 && a * (1.0 - b) + b * (1.0 - a) > 0.0
  {
    ProductNotNegative(a, 1.0 - a);
    ProductNotNegative(b, 1.0 - b);
    ProductNotNegative(a, 1.0 - b);
    ProductPositive(b, 1.0 - a);
  }

  lemma Slope3Positive(a: real, b: real)
    requires 0.0 <= a < b <= 1.0
    ensures Slope3(a, b) > 0.0
  {
    SlopeTerms(a, b);
  }

  lemma Slope5Positive(a: real, b: real)
    requires 0.0 <= a < b <= 1.0
    ensures Slope5(a, b) > 0.0
  {
    hide SlopeSum;
    SlopeTerms(a, b);
    SlopeSumPositive(a * (1.0 - a), a * (1.0 - b) + b * (1.0 - a), b * (1.0 - b));
  }

  lemma SlopeSumPositive(aa: real, ab: real, bb: real)
    requires aa >= 0.0 && ab > 0.0 && bb >= 0.0
    ensures SlopeSum(aa, ab, bb) > 0.0
  {
    SquarePositive(ab);
    var sq := ab * ab;
    ProductNotNegative(aa, 6.0 * aa + 3.0 * ab + 2.0 * bb);
    ProductNotNegative(bb, 6.0 * bb + 3.0 * ab);
    assert SlopeSum(aa, ab, bb) == aa * (6.0 * aa + 3.0 * ab + 2.0 * bb) + sq + bb * (6.0 * bb + 3.0 * ab);
  }

  lemma SquarePositive(x: real)
    requires x > 0.0
    ensures x * x > 0.0
  {
  }

  lemma Increases3(a: real, b: real)
    requires 0.0 <= a < b <= 1.0
    ensures MatchProb(a, 3) < MatchProb(b, 3)
  {
    hide *;
    SlopeOf3(a, b);
    Slope3Positive(a, b);
    ProductPositive(b - a, Slope3(a, b));
  }

  lemma Increases5(a: real, b: real)
    requires 0.0 <= a < b <= 1.0
    ensures MatchProb(a, 5) < MatchProb(b, 5)
  {
    hide *;
    SlopeOf5(a, b);
    Slope5Positive(a, b);
    ProductPositive(b - a, Slope5(a, b));
  }

  lemma TwoFormats(p: real, bestOf: int)
    ensures MatchProb(p, bestOf) == MatchProb(p, if bestOf >= 5 then 5 else 3)
  {
  }

  /** A better set player wins more matches. */
  lemma MatchProbIncreases(a: real, b: real, bestOf: int)
    requires 0.0 <= a < b <= 1.0
    ensures MatchProb(a, bestOf) < MatchProb(b, bestOf)
  {
    hide *;
    TwoFormats(a, bestOf);
    TwoFormats(b, bestOf);
    Increases3(a, b);
    Increases5(a, b);
  }

  /** One player's match is the other's seen from across the net. */
  lemma MatchProbMirrors(p: real, bestOf: int)
    ensures MatchProb(1.0 - p, bestOf) == 1.0 - MatchProb(p, bestOf)
  {
  }

  /** Winning a match is winning most sets: the binomial sums over the sets won along the way. */
  lemma MatchProbIsBinomial(p: real)
    ensures var q := 1.0 - p;
      MatchProb(p, 3) == p * p * (p + 3.0 * q) && MatchProb(p, 5) == p * p * p * (p * p + 5.0 * (p * q) + 10.0 * (q * q))
  {
    var q := 1.0 - p;
    assert p + 3.0 * q == 3.0 - 2.0 * p;
    assert p * p + 5.0 * (p * q) + 10.0 * (q * q) == 10.0 - 15.0 * p + 6.0 * p * p;
  }

  lemma MatchProbEnds(bestOf: int)
    ensures MatchProb(0.0, bestOf) == 0.0 && MatchProb(1.0, bestOf) == 1.0 && MatchProb(0.5, bestOf) == 0.5
  {
  }

  /** Order can be read off either side of the model. */
  lemma MatchProbOrder(a: real, b: real, bestOf: int)
    requires 0.0 <= a <= 1.0 && 0.0 <= b <= 1.0
    ensures a < b <==> MatchProb(a, bestOf) < MatchProb(b, bestOf)
    ensures a == b <==> MatchProb(a, bestOf) == MatchProb(b, bestOf)
  {
    hide *;
    if a < b {
      MatchProbIncreases(a, b, bestOf);
    } else if b < a {
      MatchProbIncreases(b, a, bestOf);
    }
  }

  // -------------------------------------------------------------- the bisection

  function Bisect(lo: real, hi: real, target: real, bestOf: int, steps: nat): (real, real)
    decreases steps
  {
    if steps == 0 then (lo, hi)
    else
      var mid := (lo + hi) / 2.0;
      if MatchProb(mid, bestOf) < target then Bisect(mid, hi, target, bestOf, steps - 1)
      else Bisect(lo, mid, target, bestOf, steps - 1)
  }

  const STEPS: nat := 60

  function SetProb(pMatch: real, bestOf: int): real {
    if pMatch <= 0.0 then 0.0
    else if pMatch >= 1.0 then 1.0
    else
      var bracket := Bisect(0.0, 1.0, pMatch, bestOf, STEPS);
      (bracket.0 + bracket.1) / 2.0
  }

  method MatchToSetProb(pMatch: real, bestOf: int) returns (r: real)
    ensures r == SetProb(pMatch, bestOf)
  {
    if pMatch <= 0.0 {
      return 0.0;
    }
    if pMatch >= 1.0 {
      return 1.0;
    }
    var lo, hi := 0.0, 1.0;
    for i := 0 to STEPS
      invariant Bisect(lo, hi, pMatch, bestOf, STEPS - i) == Bisect(0.0, 1.0, pMatch, bestOf, STEPS)
    {
      var mid := (lo + hi) / 2.0;
      if MatchProb(mid, bestOf) < pMatch {
        lo := mid;
      } else {
        hi := mid;
      }
    }
    return (lo + hi) / 2.0;
  }

  /** Only whether the format has five sets matters. */
  lemma SameFormat(p: real, a: int, b: int)
    requires a >= 5 <==> b >= 5
    ensures SetProb(p, a) == SetProb(p, b)
  {
    hide MatchProb;
    SameBisection(0.0, 1.0, p, a, b, STEPS);
  }

  lemma {:induction false} SameBisection(lo: real, hi: real, target: real, a: int, b: int, steps: nat)
    requires a >= 5 <==> b >= 5
    ensures Bisect(lo, hi, target, a, steps) == Bisect(lo, hi, target, b, steps)
    decreases steps
  {
    if steps > 0 {
      var mid := (lo + hi) / 2.0;
      TwoFormats(mid, a);
      TwoFormats(mid, b);
      hide MatchProb;
      SameBisection(mid, hi, target, a, b, steps - 1);
      SameBisection(lo, mid, target, a, b, steps - 1);
    }
  }

  /** The number of cells sixty halvings cut [0, 1] into. */
  const CELLS: nat := Pow2(STEPS)

  lemma CellCount()
    ensures CELLS == 1_152_921_504_606_846_976
  {
    hide Pow2;
    Pow2OfFive();
    Pow2Add(5, 5);
    Pow2Add(10, 10);
    Pow2Add(20, 20);
    Pow2Add(40, 20);
  }

  lemma Pow2OfFive()
    ensures Pow2(5) == 32
  {
  }

  lemma {:induction false} Pow2Add(a: nat, b: nat)
    ensures Pow2(a + b) == Pow2(a) * Pow2(b)
  {
    if a > 0 {
      Pow2Add(a - 1, b);
    }
  }

  /** The k-th of n + 1 evenly spaced points. */
  function Grid(k: int, n: nat): real
    requires n > 0
  {
    k as real / n as real
  }

  lemma GridHalves(k: int, n: nat)
    requires n > 0
    ensures Grid(2 * k, 2 * n) == Grid(k, n)
    ensures (Grid(k, n) + Grid(k + 1, n)) / 2.0 == Grid(2 * k + 1, 2 * n)
  {
    var m := n as real;
    assert (2 * n) as real == 2.0 * m;
    DivideBoth(k as real, m);
    HalfSum(k as real, m);
  }

  lemma DivideBoth(x: real, m: real)
    requires m > 0.0
    ensures (2.0 * x) / (2.0 * m) == x / m
  {
    assert x / m * (2.0 * m) == 2.0 * x;
  }

  lemma HalfSum(x: real, m: real)
    requires m > 0.0
    ensures (x / m + (x + 1.0) / m) / 2.0 == (2.0 * x + 1.0) / (2.0 * m)
  {
    var y, z := x / m, (x + 1.0) / m;
    assert y * m == x && z * m == x + 1.0;
    assert (y + z) * m == 2.0 * x + 1.0;
    assert ((y + z) / 2.0) * (2.0 * m) == 2.0 * x + 1.0;
  }

  lemma GridOrder(j: int, k: int, n: nat)
    requires n > 0
    ensures Grid(j, n) < Grid(k, n) <==> j < k
    ensures Grid(j, n) == Grid(k, n) <==> j == k
    ensures Grid(0, n) == 0.0 && Grid(n, n) == 1.0
  {
    var m := n as real;
    DivideOrder(j as real, k as real, m);
  }

  lemma DivideOrder(x: real, y: real, m: real)
    requires m > 0.0
    ensures x / m < y / m <==> x < y
    ensures x / m == y / m <==> x == y
  {
    var a, b := x / m, y / m;
    assert a * m == x && b * m == y;
  }

  lemma GridMirrors(k: int, n: nat)
    requires n > 0
    ensures 1.0 - Grid(k, n) == Grid(n - k, n)
  {
    var m := n as real;
    assert (k as real / m) * m == k as real;
    assert (1.0 - k as real / m) * m == (n - k) as real;
    assert ((n - k) as real / m) * m == (n - k) as real;
    Cancel(1.0 - k as real / m, (n - k) as real / m, m);
  }

  lemma GridInUnit(k: int, n: nat)
    requires n > 0 && 0 <= k <= n
    ensures 0.0 <= Grid(k, n) <= 1.0
  {
    GridOrder(0, k, n);
    GridOrder(k, n, n);
  }

  /** The target lies in cell k: above its left end, not above its right end. */
  ghost predicate InCell(target: real, bestOf: int, k: int, n: nat) {
    n > 0 && 0 <= k < n && MatchProb(Grid(k, n), bestOf) < target <= MatchProb(Grid(k + 1, n), bestOf)
  }

  /** Each halving keeps the target bracketed, in one of twice as many cells. */
  lemma {:induction false} BisectKeepsBracket(k: int, n: nat, target: real, bestOf: int, steps: nat) returns (k': int)
    requires InCell(target, bestOf, k, n)
    ensures InCell(target, bestOf, k', Pow2(steps) * n)
    ensures Bisect(Grid(k, n), Grid(k + 1, n), target, bestOf, steps)
         == (Grid(k', Pow2(steps) * n), Grid(k' + 1, Pow2(steps) * n))
    decreases steps
  {
    hide MatchProb, Grid;
    k' := k;
    if steps > 0 {
      GridHalves(k, n);
      GridHalves(k + 1, n);
      assert 2 * (k + 1) == 2 * k + 2;
      var half := if MatchProb(Grid(2 * k + 1, 2 * n), bestOf) < target then 2 * k + 1 else 2 * k;
      k' := BisectKeepsBracket(half, 2 * n, target, bestOf, steps - 1);
      assert Pow2(steps - 1) * (2 * n) == Pow2(steps) * n;
    }
  }

  lemma UnitIsOneCell(target: real, bestOf: int)
    requires 0.0 < target < 1.0
    ensures InCell(target, bestOf, 0, 1) && Grid(0, 1) == 0.0 && Grid(1, 1) == 1.0
  {
    MatchProbEnds(bestOf);
  }

  /** The result is the middle of the one cell that holds the target. */
  lemma SetProbIsCellMiddle(target: real, bestOf: int) returns (k: int)
    requires 0.0 < target < 1.0
    ensures InCell(target, bestOf, k, CELLS)
    ensures forall j :: InCell(target, bestOf, j, CELLS) ==> j == k
    ensures SetProb(target, bestOf) == Grid(2 * k + 1, 2 * CELLS)
  {
    hide MatchProb, Grid, Bisect, InCell;
    UnitIsOneCell(target, bestOf);
    k := BisectKeepsBracket(0, 1, target, bestOf, STEPS);
    GridHalves(k, CELLS);
    forall j | InCell(target, bestOf, j, CELLS) ensures j == k {
      CellIsUnique(target, bestOf, j, k, CELLS);
    }
  }

  lemma CellIsUnique(target: real, bestOf: int, j: int, k: int, n: nat)
    requires InCell(target, bestOf, j, n) && InCell(target, bestOf, k, n)
    ensures j == k
  {
    hide MatchProb, Grid;
    GridInUnit(j, n);
    GridInUnit(j + 1, n);
    GridInUnit(k, n);
    GridInUnit(k + 1, n);
    MatchProbOrder(Grid(j, n), Grid(k + 1, n), bestOf);
    MatchProbOrder(Grid(k, n), Grid(j + 1, n), bestOf);
    GridOrder(j, k + 1, n);
    GridOrder(k, j + 1, n);
  }

  // ------------------------------------------------------------ what it computes

  lemma SetProbStaysInside(p: real, bestOf: int)
    ensures 0.0 <= SetProb(p, bestOf) <= 1.0
    ensures 0.0 < p < 1.0 ==> 0.0 < SetProb(p, bestOf) < 1.0
  {
    hide MatchProb, Bisect, Grid;
    if 0.0 < p < 1.0 {
      var k := SetProbIsCellMiddle(p, bestOf);
      GridOrder(0, 2 * k + 1, 2 * CELLS);
      GridOrder(2 * k + 1, 2 * CELLS, 2 * CELLS);
    }
  }

  lemma CellWidth(k: int, n: nat)
    requires n > 0
    ensures Grid(2 * k + 1, 2 * n) - Grid(k, n) == Grid(1, 2 * n)
    ensures Grid(k + 1, n) - Grid(2 * k + 1, 2 * n) == Grid(1, 2 * n)
  {
    var m := (2 * n) as real;
    GridHalves(k, n);
    GridHalves(k + 1, n);
    GridStep(2 * k, 2 * n);
    GridStep(2 * k + 1, 2 * n);
  }

  lemma GridStep(k: int, n: nat)
    requires n > 0
    ensures Grid(k + 1, n) - Grid(k, n) == Grid(1, n)
  {
    var m := n as real;
    var a, b, c := (k + 1) as real / m, k as real / m, 1.0 / m;
    assert a * m == k as real + 1.0 && b * m == k as real && c * m == 1.0;
    assert (a - b - c) * m == 0.0;
  }

  /** Half a cell: 2^-61. */
  const HALF_CELL := 1.0 / 2_305_843_009_213_693_952.0

  lemma HalfCellSize()
    ensures Grid(1, 2 * CELLS) == HALF_CELL
  {
    hide Pow2;
    CellCount();
  }

  /** The bisection inverts the match model, to half a cell. */
  lemma SetProbInverts(x: real, bestOf: int)
    requires 0.0 <= x <= 1.0
    ensures -HALF_CELL <= SetProb(MatchProb(x, bestOf), bestOf) - x <= HALF_CELL
    ensures x == 0.0 || x == 1.0 ==> SetProb(MatchProb(x, bestOf), bestOf) == x
  {
    hide MatchProb, Bisect, Grid;
    var p := MatchProb(x, bestOf);
    MatchProbEnds(bestOf);
    MatchProbOrder(0.0, x, bestOf);
    MatchProbOrder(x, 1.0, bestOf);
    HalfCellSize();
    if 0.0 < x < 1.0 {
      var k := SetProbIsCellMiddle(p, bestOf);
      GridInUnit(k, CELLS);
      GridInUnit(k + 1, CELLS);
      MatchProbOrder(Grid(k, CELLS), x, bestOf);
      MatchProbOrder(Grid(k + 1, CELLS), x, bestOf);
      CellWidth(k, CELLS);
    }
  }

  /** Shorter match odds never give a lower set probability. */
  lemma SetProbIsMonotone(p: real, q: real, bestOf: int)
    requires p <= q
    ensures SetProb(p, bestOf) <= SetProb(q, bestOf)
  {
    hide MatchProb, Bisect, Grid;
    SetProbStaysInside(p, bestOf);
    SetProbStaysInside(q, bestOf);
    if 0.0 < p && q < 1.0 {
      var j := SetProbIsCellMiddle(p, bestOf);
      var k := SetProbIsCellMiddle(q, bestOf);
      GridInUnit(j, CELLS);
      GridInUnit(k + 1, CELLS);
      MatchProbOrder(Grid(j, CELLS), Grid(k + 1, CELLS), bestOf);
      GridOrder(j, k + 1, CELLS);
      GridOrder(2 * k + 1, 2 * j + 1, 2 * CELLS);
    }
  }

  /** The match probability is exactly that of some point of the grid. */
  ghost predicate OnGrid(p: real, bestOf: int) {
    exists g: int :: 0 < g < CELLS && p == MatchProb(Grid(g, CELLS), bestOf)
  }

  lemma OppositeCells(p: real, bestOf: int, j: int, k: int, n: nat)
    requires InCell(p, bestOf, j, n) && InCell(1.0 - p, bestOf, k, n)
    ensures j + k == n - 1 || (j + k == n - 2 && p == MatchProb(Grid(j + 1, n), bestOf))
    ensures forall g: int :: 0 < g < n && p == MatchProb(Grid(g, n), bestOf) ==> j + k == n - 2
  {
    hide MatchProb, Grid;
    GridInUnit(j, n);
    GridInUnit(j + 1, n);
    GridInUnit(n - k, n);
    GridInUnit(n - k - 1, n);
    GridMirrors(k, n);
    GridMirrors(k + 1, n);
    MatchProbMirrors(Grid(k, n), bestOf);
    MatchProbMirrors(Grid(k + 1, n), bestOf);
    assert MatchProb(Grid(n - k - 1, n), bestOf) <= p < MatchProb(Grid(n - k, n), bestOf);
    MatchProbOrder(Grid(j, n), Grid(n - k, n), bestOf);
    GridOrder(j, n - k, n);
    MatchProbOrder(Grid(j + 1, n), Grid(n - k - 1, n), bestOf);
    GridOrder(j + 1, n - k - 1, n);
    forall g: int | 0 < g < n && p == MatchProb(Grid(g, n), bestOf) ensures j + k == n - 2 {
      GridInUnit(g, n);
      GridPointInCells(p, bestOf, j, n - k - 1, g, n);
    }
  }

  lemma GridPointInCells(p: real, bestOf: int, j: int, i: int, g: int, n: nat)
    requires n > 0 && 0 <= j < n && 0 <= i < n && 0 < g < n && p == MatchProb(Grid(g, n), bestOf)
    requires MatchProb(Grid(j, n), bestOf) < p <= MatchProb(Grid(j + 1, n), bestOf)
    requires MatchProb(Grid(i, n), bestOf) <= p < MatchProb(Grid(i + 1, n), bestOf)
    ensures g == j + 1 == i
  {
    hide MatchProb, Grid;
    GridInUnit(g, n);
    GridInUnit(j, n);
    GridInUnit(j + 1, n);
    GridInUnit(i, n);
    GridInUnit(i + 1, n);
    MatchProbOrder(Grid(j, n), Grid(g, n), bestOf);
    MatchProbOrder(Grid(j + 1, n), Grid(g, n), bestOf);
    MatchProbOrder(Grid(g, n), Grid(i, n), bestOf);
    MatchProbOrder(Grid(g, n), Grid(i + 1, n), bestOf);
    GridOrder(j, g, n);
    GridOrder(j + 1, g, n);
    GridOrder(g, i, n);
    GridOrder(g, i + 1, n);
  }

  lemma GridSum(i: int, j: int, n: nat)
    requires n > 0
    ensures Grid(i, n) + Grid(j, n) == Grid(i + j, n)
  {
    var m := n as real;
    var a, b := i as real / m, j as real / m;
    assert a * m == i as real && b * m == j as real;
    assert (a + b) * m == (i + j) as real;
  }

  /**
   The two players' set probabilities add up to one exactly when the match
   probability is not the image of a grid point; when it is, both brackets close from
   the same side and the sum is one cell short.
   */
  lemma BothPlayersSum(p: real, bestOf: int)
    requires 0.0 < p < 1.0
    ensures SetProb(p, bestOf) + SetProb(1.0 - p, bestOf)
         == if OnGrid(p, bestOf) then 1.0 - Grid(1, CELLS) else 1.0
  {
    hide MatchProb, Bisect, Grid;
    var j := SetProbIsCellMiddle(p, bestOf);
    var k := SetProbIsCellMiddle(1.0 - p, bestOf);
    OppositeCells(p, bestOf, j, k, CELLS);
    GridSum(2 * j + 1, 2 * k + 1, 2 * CELLS);
    GridHalves(j + k + 1, CELLS);
    GridMirrors(1, CELLS);
    GridOrder(0, 0, CELLS);
    if j + k == CELLS - 2 {
      assert 0 < j + 1 < CELLS;
    }
  }
}
