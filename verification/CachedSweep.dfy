/**
 Scoring one configuration over cached rows (agent/backtest/cached_sweep.py). The
 decision engine with its configuration is an arbitrary function of the row.
 */
module CachedSweep {
  import opened Markets
  import opened StableSort
  import opened Sums

  datatype Action = NoBet | Bet(yes: bool, size: real)

  datatype Physics = Physics(
    entryFloor: Option<real>,
    effectiveFloor: Option<real>,
    maxPnl: Option<real>,
    sideCorrect: bool)

  function EffectiveEntryPrice(yes: bool, yesPrice: real): real { if yes then yesPrice else 1.0 - yesPrice }

  /** `compute_bet_pnl`: a void returns nothing, a loser costs the stake, a winner is paid at the entry odds up to the cap. */
  function BetPnl(yes: bool, entryPrice: real, size: real, outcome: string, winningPrice: real,
                  maxPnl: Option<real>, sideCorrect: bool): real
  {
    if outcome == "void" then 0.0
    else if yes != (outcome == "yes") then -size
    else
      var eff := if sideCorrect then EffectiveEntryPrice(yes, entryPrice) else entryPrice;
      var pnl := if eff <= 0.0 then size * winningPrice else size * (winningPrice / eff - 1.0);
      if maxPnl.Some? && pnl > maxPnl.value then maxPnl.value else pnl
  }

  /** A bet that is placed and not dropped by the effective-price floor. */
  predicate Counts(ph: Physics, row: SignalRow, action: Action) {
    action.Bet? && (ph.effectiveFloor.Some? ==> EffectiveEntryPrice(action.yes, row.entryPrice) >= ph.effectiveFloor.value)
  }

  function RowPnl(ph: Physics, row: SignalRow, action: Action): real {
    if Counts(ph, row, action) then BetPnl(action.yes, row.entryPrice, action.size, row.outcome, row.winningPrice, ph.maxPnl, ph.sideCorrect) else 0.0
  }

  function KeepsRow(floor: Option<real>): SignalRow -> bool {
    (r: SignalRow) => floor.Some? ==> r.entryPrice >= floor.value
  }

  function Floored(ph: Physics, rows: seq<SignalRow>): seq<SignalRow> { Filter(rows, KeepsRow(ph.entryFloor)) }

  /** One entry per row that passes the entry floor, bet or no bet. */
  datatype Scored = Scored(pnl: real, clusterKey: string)

  function ScoreRow(ph: Physics, decide: SignalRow -> Action): SignalRow -> Scored {
    (r: SignalRow) => Scored(RowPnl(ph, r, decide(r)), r.clusterKey)
  }

  function PerRow(ph: Physics, decide: SignalRow -> Action, rows: seq<SignalRow>): (r: seq<Scored>)
    ensures |r| == |Floored(ph, rows)|
  {
    Map(Floored(ph, rows), ScoreRow(ph, decide))
  }

  datatype Metrics = Metrics(bets: nat, netPnl: real, wins: nat, totalSize: real)

  function MetricsOf(ph: Physics, decide: SignalRow -> Action, rows: seq<SignalRow>): Metrics {
    if rows == [] then Metrics(0, 0.0, 0, 0.0)
    else
      var m, r := MetricsOf(ph, decide, rows[..|rows| - 1]), rows[|rows| - 1];
      if !Counts(ph, r, decide(r)) then m
      else Metrics(m.bets + 1, m.netPnl + RowPnl(ph, r, decide(r)),
                   m.wins + (if RowPnl(ph, r, decide(r)) > 0.0 then 1 else 0), m.totalSize + decide(r).size)
  }

  method ScoreConfig(rows: seq<SignalRow>, decide: SignalRow -> Action, ph: Physics)
    returns (m: Metrics, perRow: seq<Scored>)
    ensures perRow == PerRow(ph, decide, rows)
    ensures m == MetricsOf(ph, decide, Floored(ph, rows))
  {
    var kept := Floored(ph, rows);
    perRow := [];
    var pnls: seq<real>, sizes: seq<real>, wins := [], [], 0;
    for i := 0 to |kept|
      invariant |perRow| == i && forall k :: 0 <= k < i ==> perRow[k] == ScoreRow(ph, decide)(kept[k])
      invariant MetricsOf(ph, decide, kept[..i]) == Metrics(|pnls|, Total(pnls), wins, Total(sizes))
    {
      var row := kept[i];
      var action := decide(row);
      assert kept[..i + 1][..i] == kept[..i];
      if action.NoBet? {
        perRow := perRow + [Scored(0.0, row.clusterKey)];
        continue;
      }
      if ph.effectiveFloor.Some? && EffectiveEntryPrice(action.yes, row.entryPrice) < ph.effectiveFloor.value {
        perRow := perRow + [Scored(0.0, row.clusterKey)];
        continue;
      }
      var pnl := BetPnl(action.yes, row.entryPrice, action.size, row.outcome, row.winningPrice, ph.maxPnl, ph.sideCorrect);
      TotalPush(pnls, pnl);
      TotalPush(sizes, action.size);
      pnls, sizes := pnls + [pnl], sizes + [action.size];
      if pnl > 0.0 {
        wins := wins + 1;
      }
      perRow := perRow + [Scored(pnl, row.clusterKey)];
    }
    assert kept[..|kept|] == kept;
    m := Metrics(|pnls|, Total(pnls), wins, Total(sizes));
  }

  function Pnls(scored: seq<Scored>): (r: seq<real>)
    ensures |r| == |scored| && forall i :: 0 <= i < |r| ==> r[i] == scored[i].pnl
  {
    seq(|scored|, i requires 0 <= i < |scored| => scored[i].pnl)
  }

  /** The per-row vector and the aggregate tell the same story: its sum is the net profit. */
  lemma PerRowAddsUp(ph: Physics, decide: SignalRow -> Action, rows: seq<SignalRow>)
    ensures Total(Pnls(PerRow(ph, decide, rows))) == MetricsOf(ph, decide, Floored(ph, rows)).netPnl
  {
    ScoredAddUp(ph, decide, Floored(ph, rows));
  }

  lemma {:induction false} ScoredAddUp(ph: Physics, decide: SignalRow -> Action, kept: seq<SignalRow>)
    ensures Total(Pnls(Map(kept, ScoreRow(ph, decide)))) == MetricsOf(ph, decide, kept).netPnl
  {
    hide BetPnl;
    if kept != [] {
      var front, last := kept[..|kept| - 1], kept[|kept| - 1];
      ScoredAddUp(ph, decide, front);
      assert Pnls(Map(kept, ScoreRow(ph, decide))) == Pnls(Map(front, ScoreRow(ph, decide))) + [RowPnl(ph, last, decide(last))];
      TotalPush(Pnls(Map(front, ScoreRow(ph, decide))), RowPnl(ph, last, decide(last)));
    }
  }

  // ------------------------------------------------------------------ what a bet pays

  /** The price of the leg taken: the YES price, or its complement. */
  function LegPrice(row: SignalRow, yes: bool): real { if yes then row.entryPrice else 1.0 - row.entryPrice }

  /** What a bet of this size on this side would pay if it won uncapped: its shares at the price paid, at the winning price. */
  ghost predicate WinsUncapped(row: SignalRow, paid: real, size: real, pnl: real) {
    if paid > 0.0 then (pnl + size) * paid == size * row.winningPrice else pnl == size * row.winningPrice
  }

  /** The entry floor keeps exactly the rows at or above it. */
  lemma FloorKeepsAtOrAbove(ph: Physics, rows: seq<SignalRow>, r: SignalRow)
    ensures r in Floored(ph, rows) <==> r in rows && (ph.entryFloor.None? || r.entryPrice >= ph.entryFloor.value)
  {
    InFilter(rows, KeepsRow(ph.entryFloor), r);
  }

  predicate Dropped(ph: Physics, row: SignalRow, yes: bool) {
    ph.effectiveFloor.Some? && LegPrice(row, yes) < ph.effectiveFloor.value
  }

  predicate WrongSide(row: SignalRow, yes: bool) {
    (yes && row.outcome != "yes") || (!yes && row.outcome == "yes")
  }

  /** No bet, a bet below the floor and a void are worth nothing; a loser costs exactly its stake. */
  lemma RowsThatPayNothing(ph: Physics, row: SignalRow, yes: bool, size: real)
    ensures RowPnl(ph, row, NoBet) == 0.0
    ensures Dropped(ph, row, yes) || row.outcome == "void" ==> RowPnl(ph, row, Bet(yes, size)) == 0.0
    ensures !Dropped(ph, row, yes) && row.outcome != "void" && WrongSide(row, yes) ==> RowPnl(ph, row, Bet(yes, size)) == -size
  {
  }

  /** A winner is paid by its shares, bought at the price of its leg or in the legacy mode at the YES price, up to the cap. */
  lemma WinnersArePaidByShares(ph: Physics, row: SignalRow, yes: bool, size: real) returns (gross: real)
    requires !Dropped(ph, row, yes) && row.outcome != "void" && !WrongSide(row, yes)
    ensures WinsUncapped(row, if ph.sideCorrect then LegPrice(row, yes) else row.entryPrice, size, gross)
    ensures RowPnl(ph, row, Bet(yes, size)) == if ph.maxPnl.Some? && gross > ph.maxPnl.value then ph.maxPnl.value else gross
  {
    hide WinsUncapped, BetPnl;
    var paid := if ph.sideCorrect then LegPrice(row, yes) else row.entryPrice;
    gross := if paid <= 0.0 then size * row.winningPrice else size * (row.winningPrice / paid - 1.0);
    GrossWinsUncapped(row, paid, size);
    WinnerPnl(yes, row.entryPrice, size, row.outcome, row.winningPrice, ph.maxPnl, ph.sideCorrect, paid);
  }

  lemma WinnerPnl(yes: bool, entryPrice: real, size: real, outcome: string, winningPrice: real,
                  maxPnl: Option<real>, sideCorrect: bool, paid: real)
    requires outcome != "void" && (yes <==> outcome == "yes")
    requires paid == if sideCorrect && !yes then 1.0 - entryPrice else entryPrice
    ensures var gross := if paid <= 0.0 then size * winningPrice else size * (winningPrice / paid - 1.0);
      BetPnl(yes, entryPrice, size, outcome, winningPrice, maxPnl, sideCorrect)
      == if maxPnl.Some? && gross > maxPnl.value then maxPnl.value else gross
  {
  }

  lemma GrossWinsUncapped(row: SignalRow, paid: real, size: real)
    ensures WinsUncapped(row, paid, size, if paid <= 0.0 then size * row.winningPrice else size * (row.winningPrice / paid - 1.0))
  {
    SharesPay(row.winningPrice, paid, size);
  }

  lemma SharesPay(winning: real, paid: real, size: real)
    ensures paid > 0.0 ==> (size * (winning / paid - 1.0) + size) * paid == size * winning
  {
    if paid > 0.0 {
      var q := winning / paid;
      assert q * paid == winning;
      assert size * (q - 1.0) + size == size * q;
      assert size * q * paid == size * (q * paid);
    }
  }

  /** Priced at its own leg, uncapped and cleanly settled, a bet is fair at that price on either side. */
  lemma SideCorrectBetIsFair(ph: Physics, won: SignalRow, lost: SignalRow, yes: bool, size: real)
    requires ph.sideCorrect && ph.maxPnl.None? && ph.effectiveFloor.None?
    requires won.entryPrice == lost.entryPrice && 0.0 < LegPrice(won, yes) <= 1.0 && won.winningPrice == 1.0
    requires won.outcome == (if yes then "yes" else "no") && lost.outcome == (if yes then "no" else "yes")
    ensures var p := LegPrice(won, yes);
      p * RowPnl(ph, won, Bet(yes, size)) + (1.0 - p) * RowPnl(ph, lost, Bet(yes, size)) == 0.0
  {
    var p := LegPrice(won, yes);
    assert RowPnl(ph, won, Bet(yes, size)) == size * (1.0 / p - 1.0);
    assert RowPnl(ph, lost, Bet(yes, size)) == -size;
    SharesPay(1.0, p, size);
    hide RowPnl;
  }

  /** The rows whose bet is placed and not below the floor. */
  function CountedBy(ph: Physics, decide: SignalRow -> Action): SignalRow -> bool {
    (r: SignalRow) => decide(r).Bet? && !Dropped(ph, r, decide(r).yes)
  }

  function SizeBy(decide: SignalRow -> Action): SignalRow -> real {
    (r: SignalRow) => if decide(r).Bet? then decide(r).size else 0.0
  }

  function Positive(): Scored -> bool { (s: Scored) => s.pnl > 0.0 }

  /** Bets are the counted rows and the size staked is theirs; wins are the rows with a positive pnl. */
  lemma {:induction false} MetricsCountRows(ph: Physics, decide: SignalRow -> Action, kept: seq<SignalRow>)
    ensures var m, counted := MetricsOf(ph, decide, kept), Filter(kept, CountedBy(ph, decide));
      && m.bets == |counted|
      && m.totalSize == Total(Map(counted, SizeBy(decide)))
      && m.wins == |Filter(Map(kept, ScoreRow(ph, decide)), Positive())| <= m.bets
  {
    hide BetPnl;
    if kept != [] {
      var front, last := kept[..|kept| - 1], kept[|kept| - 1];
      MetricsCountRows(ph, decide, front);
      MapPush(front, last, ScoreRow(ph, decide));
      FilterPush(Map(front, ScoreRow(ph, decide)), ScoreRow(ph, decide)(last), Positive());
      FilterPush(front, last, CountedBy(ph, decide));
      var counted := Filter(front, CountedBy(ph, decide));
      MapPush(counted, last, SizeBy(decide));
      TotalPush(Map(counted, SizeBy(decide)), SizeBy(decide)(last));
      assert front + [last] == kept;
    }
  }
}
