/**
 The cross-market level (agent/backtest/cross_market_signal.py): consensus match odds,
 de-vigged, inverted to a set probability and centred. Surnames are keys already
 normalised; a player whose name does not parse has the empty key.

 Statements that turn on the last cell of the bisection (2^-60) are facts of exact
 arithmetic: doubles run out of bits before the sixtieth halving.
 */
module CrossMarketSignal {
  import opened Arithmetic
  import opened Markets
  import opened SetProbability

  /** A spreadsheet cell where a decimal odd should be. */
  datatype OddsCell = Blank | NotNumeric | NotANumber | Decimal(odds: real)

  function Usable(c: OddsCell): Option<real> {
    if c.Decimal? && c.odds > 1.0 then Some(c.odds) else None
  }

  function ImpliedProbTwoWay(ref: OddsCell, other: OddsCell): Option<real> {
    if Usable(ref).None? || Usable(other).None? then None
    else
      var invRef, invOther := 1.0 / ref.odds, 1.0 / other.odds;
      Some(invRef / (invRef + invOther))
  }

  datatype RawBestOf = Flag(b: bool) | Whole(n: int) | Fraction(x: real) | NumericText(x: real) | Other

  function Truncate(x: real): int { if x < 0.0 then -((-x).Floor) else x.Floor }

  function CoerceBestOf(raw: RawBestOf): int {
    match raw
    case Whole(n) => n
    case Fraction(x) => Truncate(x)
    case NumericText(x) => Truncate(x)
    case _ => 3
  }

  datatype TdRow = TdRow(winner: string, loser: string, avgW: OddsCell, avgL: OddsCell, bestOf: RawBestOf)

  predicate EndsWith(a: string, b: string) { |b| <= |a| && a[|a| - |b|..] == b }

  predicate SurnameEq(a: string, b: string) {
    a != "" && b != "" && (a == b || EndsWith(a, b) || EndsWith(b, a))
  }

  /** The consensus match probability of the player the slug names first; None when the name fits both players or neither, or an odd is unusable. */
  function ReferenceMatchProb(surname: string, row: TdRow): Option<real> {
    var w, l := SurnameEq(surname, row.winner), SurnameEq(surname, row.loser);
    if w == l then None
    else if w then ImpliedProbTwoWay(row.avgW, row.avgL)
    else ImpliedProbTwoWay(row.avgL, row.avgW)
  }

  function ImpliedFirstSetProb(surname: string, row: TdRow): Option<real> {
    match ReferenceMatchProb(surname, row)
    case None => None
    case Some(p) => Some(SetProb(p, CoerceBestOf(row.bestOf)))
  }

  const DEFAULT_SCALE := 2.0

  function Clamp(x: real): real { if x < -1.0 then -1.0 else if x > 1.0 then 1.0 else x }

  function Level(pSet: real, scale: real): real { Clamp((pSet - 0.5) * scale) }

  function Signal(surname: string, row: TdRow, scale: real): real {
    match ImpliedFirstSetProb(surname, row)
    case None => 0.0
    case Some(p) => Level(p, scale)
  }

  /** The format read from a cell: five sets when it is a number of at least five, else three. */
  predicate FiveSets(raw: RawBestOf) {
    (raw.Whole? && raw.n >= 5) || (raw.Fraction? && raw.x >= 5.0) || (raw.NumericText? && raw.x >= 5.0)
  }

  lemma FormatsRead(raw: RawBestOf, p: real)
    ensures SetProb(p, CoerceBestOf(raw)) == SetProb(p, if FiveSets(raw) then 5 else 3)
  {
    hide Bisect, MatchProb;
    SameFormat(p, CoerceBestOf(raw), if FiveSets(raw) then 5 else 3);
  }

  // --------------------------------------------------------------------- de-vigging

  lemma DevigClosedForm(a: real, b: real)
    requires a > 1.0 && b > 1.0
    ensures (1.0 / a) / (1.0 / a + 1.0 / b) == b / (a + b)
  {
    var x, y := 1.0 / a, 1.0 / b;
    assert x * a == 1.0 && y * b == 1.0;
    assert x > 0.0 && y > 0.0;
    var s := x + y;
    assert x * (a + b) == 1.0 + x * b;
    assert s * b == x * b + 1.0;
    Quotients(x, s, b, a + b);
  }

  lemma Quotients(x: real, s: real, b: real, t: real)
    requires s > 0.0 && t > 0.0 && x * t == s * b
    ensures x / s == b / t
  {
    var q := x / s;
    assert q * s == x;
    assert (q * t) * s == b * s;
    Cancel(q * t, b, s);
  }

  /** De-vigged odds are a probability; the other side's is the complement; the shorter odd is the likelier player, and both sides return the same in expectation. */
  lemma DevigIsFair(ref: OddsCell, other: OddsCell)
    requires Usable(ref).Some? && Usable(other).Some?
    ensures ImpliedProbTwoWay(ref, other).Some?
    ensures var p := ImpliedProbTwoWay(ref, other).value;
      && 0.0 < p < 1.0
      && ImpliedProbTwoWay(other, ref) == Some(1.0 - p)
      && (p > 0.5 <==> ref.odds < other.odds)
      && p * ref.odds == (1.0 - p) * other.odds
  {
    var a, b := ref.odds, other.odds;
    DevigClosedForm(a, b);
    DevigClosedForm(b, a);
    var p, q := b / (a + b), a / (b + a);
    assert p * (a + b) == b && q * (a + b) == a;
    Cancel(p + q, 1.0, a + b);
    SameReturn(a, b, p);
    assert p > 0.0 && q > 0.0 by { PositiveQuotients(a, b); }
    if p > 0.5 {
      ProductPositive(p - 0.5, a + b);
    } else {
      ProductNotNegative(0.5 - p, a + b);
    }
  }

  lemma SameReturn(a: real, b: real, p: real)
    requires p * (a + b) == b
    ensures p * a == (1.0 - p) * b
  {
    assert p * (a + b) == p * a + p * b;
  }

  lemma PositiveQuotients(a: real, b: real)
    requires a > 0.0 && b > 0.0
    ensures b / (a + b) > 0.0 && a / (b + a) > 0.0
  {
  }

  // ------------------------------------------------------------------- orientation

  lemma CellsAreEven()
    ensures CELLS == 2 * Pow2(59)
  {
  }

  lemma HalfIsAGridPoint()
    ensures Grid(CELLS, 2 * CELLS) == 0.5
    ensures Grid(Pow2(59), CELLS) == 0.5
  {
    CellsAreEven();
    OneHalf(CELLS);
    OneHalf(Pow2(59));
  }

  lemma OneHalf(n: nat)
    requires n > 0
    ensures Grid(n, 2 * n) == 0.5
  {
    hide Grid;
    GridSum(n, n, 2 * n);
    GridOrder(n, n, 2 * n);
  }

  /** A set probability is never exactly one half, and is above it exactly for the match favourite. */
  lemma SetProbLeansWithMatch(p: real, bestOf: int)
    requires 0.0 < p < 1.0
    ensures SetProb(p, bestOf) != 0.5
    ensures SetProb(p, bestOf) > 0.5 <==> p > 0.5
  {
    hide MatchProb, Grid, Bisect, Pow2;
    var k := SetProbIsCellMiddle(p, bestOf);
    CellsAreEven();
    HalfIsAGridPoint();
    MatchProbEnds(bestOf);
    GridOrder(2 * k + 1, CELLS, 2 * CELLS);
    GridInUnit(k, CELLS);
    GridInUnit(k + 1, CELLS);
    MatchProbOrder(Grid(k, CELLS), 0.5, bestOf);
    MatchProbOrder(Grid(k + 1, CELLS), 0.5, bestOf);
    GridOrder(k, Pow2(59), CELLS);
    GridOrder(k + 1, Pow2(59), CELLS);
  }

  /**
   In exact arithmetic the level is neutral exactly when the construction failed closed or
   the scale is zero; otherwise, on a positive scale, it is positive exactly for the player
   with the strictly shorter odds, and on a negative scale exactly for the other. (In
   doubles level odds are neutral too.)
   */
  lemma SignalSign(surname: string, row: TdRow, scale: real)
    ensures -1.0 <= Signal(surname, row, scale) <= 1.0
    ensures Signal(surname, row, scale) == 0.0 <==> ReferenceMatchProb(surname, row).None? || scale == 0.0
    ensures Signal(surname, row, scale) > 0.0 <==>
      && ReferenceMatchProb(surname, row).Some?
      && (if ReferenceMatchProb(surname, row).value > 0.5 then scale > 0.0 else scale < 0.0)
  {
    hide SetProb, ImpliedProbTwoWay;
    match ReferenceMatchProb(surname, row)
    case None =>
    case Some(p) =>
      ReferenceIsFair(surname, row);
      SetProbLeansWithMatch(p, CoerceBestOf(row.bestOf));
      ProductSign(SetProb(p, CoerceBestOf(row.bestOf)) - 0.5, scale);
  }

  lemma ProductSign(x: real, y: real)
    requires x != 0.0
    ensures x * y > 0.0 <==> if x > 0.0 then y > 0.0 else y < 0.0
    ensures x * y == 0.0 <==> y == 0.0
  {
  }

  lemma ReferenceIsFair(surname: string, row: TdRow)
    ensures ReferenceMatchProb(surname, row).Some? ==> 0.0 < ReferenceMatchProb(surname, row).value < 1.0
  {
    if ReferenceMatchProb(surname, row).None? {
      return;
    }
    if SurnameEq(surname, row.winner) {
      DevigIsFair(row.avgW, row.avgL);
    } else {
      DevigIsFair(row.avgL, row.avgW);
    }
  }

  ghost predicate NamesWinner(surname: string, row: TdRow) {
    SurnameEq(surname, row.winner) && !SurnameEq(surname, row.loser)
  }

  ghost predicate NamesLoser(surname: string, row: TdRow) {
    SurnameEq(surname, row.loser) && !SurnameEq(surname, row.winner)
  }

  ghost predicate Priced(row: TdRow) { Usable(row.avgW).Some? && Usable(row.avgL).Some? }

  function Magnitude(x: real): real { if x < 0.0 then -x else x }

  lemma ClampedSum(x: real, y: real)
    ensures -Magnitude(x + y) <= Clamp(x) + Clamp(y) <= Magnitude(x + y)
  {
  }

  lemma ScaledSum(s: real, t: real, scale: real, gap: real)
    requires gap > 0.0 && (s + t == 1.0 || s + t == 1.0 - gap)
    ensures Magnitude((s - 0.5) * scale + (t - 0.5) * scale) <= gap * Magnitude(scale)
    ensures s + t == 1.0 ==> (s - 0.5) * scale + (t - 0.5) * scale == 0.0
  {
    assert (s - 0.5) * scale + (t - 0.5) * scale == (s + t - 1.0) * scale;
    ProductNotNegative(gap, Magnitude(scale));
  }

  lemma LevelSum(s: real, t: real, scale: real, gap: real)
    requires gap > 0.0 && (s + t == 1.0 || s + t == 1.0 - gap)
    ensures Magnitude(Level(s, scale) + Level(t, scale)) <= gap * Magnitude(scale)
    ensures s + t == 1.0 ==> Level(s, scale) + Level(t, scale) == 0.0
  {
    ScaledSum(s, t, scale, gap);
    ClampedSum((s - 0.5) * scale, (t - 0.5) * scale);
  }

  /** The sum of the levels the two players' slugs give. */
  function BothLevels(a: string, b: string, row: TdRow, scale: real): real {
    Signal(a, row, scale) + Signal(b, row, scale)
  }

  lemma LevelsOfBoth(a: string, b: string, row: TdRow) returns (p: real)
    requires NamesWinner(a, row) && NamesLoser(b, row) && Priced(row)
    ensures ReferenceMatchProb(a, row) == Some(p)
    ensures ReferenceMatchProb(b, row) == Some(1.0 - p) && 0.0 < p < 1.0
    ensures ImpliedFirstSetProb(a, row) == Some(SetProb(p, CoerceBestOf(row.bestOf)))
    ensures ImpliedFirstSetProb(b, row) == Some(SetProb(1.0 - p, CoerceBestOf(row.bestOf)))
  {
    hide SetProb;
    DevigIsFair(row.avgW, row.avgL);
    p := ReferenceMatchProb(a, row).value;
  }

  /**
   In exact arithmetic, swapping which player the slug names first negates the level, up to
   one cell of the bisection, and with nothing left over when the match probability is not
   on the grid.
   */
  lemma OrientationsCancel(a: string, b: string, row: TdRow, scale: real)
    requires NamesWinner(a, row) && NamesLoser(b, row) && Priced(row)
    ensures ReferenceMatchProb(a, row).Some?
    ensures Magnitude(BothLevels(a, b, row, scale)) <= Grid(1, CELLS) * Magnitude(scale)
    ensures !OnGrid(ReferenceMatchProb(a, row).value, CoerceBestOf(row.bestOf)) ==> BothLevels(a, b, row, scale) == 0.0
  {
    hide SetProb, Grid, OnGrid, ReferenceMatchProb, ImpliedFirstSetProb, Level, Magnitude;
    var bestOf := CoerceBestOf(row.bestOf);
    var p := LevelsOfBoth(a, b, row);
    BothPlayersSum(p, bestOf);
    CellIsPositive();
    LevelSum(SetProb(p, bestOf), SetProb(1.0 - p, bestOf), scale, Grid(1, CELLS));
  }

  lemma CellIsPositive()
    ensures Grid(1, CELLS) > 0.0
  {
    hide Pow2;
    GridOrder(0, 1, CELLS);
  }

  /** At the default scale the clamp never bites, so in exact arithmetic the gap is known: zero off the grid, two cells on it. */
  lemma OrientationsAtDefaultScale(a: string, b: string, row: TdRow)
    requires NamesWinner(a, row) && NamesLoser(b, row) && Priced(row)
    ensures ReferenceMatchProb(a, row).Some?
    ensures BothLevels(a, b, row, DEFAULT_SCALE)
         == if OnGrid(ReferenceMatchProb(a, row).value, CoerceBestOf(row.bestOf)) then -2.0 * Grid(1, CELLS) else 0.0
  {
    hide SetProb, Grid, OnGrid, ImpliedProbTwoWay, ImpliedFirstSetProb;
    var bestOf := CoerceBestOf(row.bestOf);
    var p := LevelsOfBoth(a, b, row);
    BothPlayersSum(p, bestOf);
    SetProbStaysInside(p, bestOf);
    SetProbStaysInside(1.0 - p, bestOf);
  }

  /** One half is the image of the middle grid point. */
  lemma LevelOddsAreOnGrid(bestOf: int)
    ensures OnGrid(0.5, bestOf)
  {
    hide MatchProb, Grid, Pow2;
    HalfIsAGridPoint();
    CellsAreEven();
    MatchProbEnds(bestOf);
    assert 0 < Pow2(59) < CELLS && 0.5 == MatchProb(Grid(Pow2(59), CELLS), bestOf);
  }

  /**
   Where exact arithmetic and doubles part: with exact reals both levels at level odds are
   one cell below zero. Doubles close the bracket on one half itself and give zero for both.
   */
  lemma ExactLevelOdds(a: string, b: string, row: TdRow)
    requires NamesWinner(a, row) && NamesLoser(b, row) && Priced(row) && row.avgW == row.avgL
    ensures Signal(a, row, DEFAULT_SCALE) < 0.0 && Signal(b, row, DEFAULT_SCALE) < 0.0
    ensures Signal(a, row, DEFAULT_SCALE) + Signal(b, row, DEFAULT_SCALE) == -2.0 * Grid(1, CELLS)
  {
    hide SetProb, Grid, OnGrid, ImpliedFirstSetProb, Signal;
    var p := LevelsOfBoth(a, b, row);
    DevigIsFair(row.avgW, row.avgL);
    assert p == 0.5;
    LevelOddsAreOnGrid(CoerceBestOf(row.bestOf));
    OrientationsAtDefaultScale(a, b, row);
    SignalSign(a, row, DEFAULT_SCALE);
    SignalSign(b, row, DEFAULT_SCALE);
  }

  /** One such row. */
  lemma ExactLevelOddsExample() returns (row: TdRow)
    ensures NamesWinner("ruud", row) && NamesLoser("rune", row) && Priced(row) && row.avgW == row.avgL
  {
    row := TdRow("ruud", "rune", Decimal(1.9), Decimal(1.9), Whole(3));
  }
}
