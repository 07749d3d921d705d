/**
 The reincarnation experiment (agent/backtest/reincarnation.py): one life after another
 over the same season until one survives or the cap is reached. A season and an advisor
 are arbitrary functions, so the results hold for every market history and every model.
 */
module Groundhog {
  import opened Markets
  import opened Strategy
  import opened Sums

  datatype Tribute = Tribute(tick: nat, amount: real, success: bool, pnlAtEvent: real)

  datatype Tithe = Tithe(tick: nat, amount: real, breathCost: real)

  /** What one season of one life reports back. */
  datatype Life = Life(
    died: bool,
    cumPnls: seq<real>,
    terminal: Weights,
    tributes: seq<Tribute>,
    tithes: seq<Tithe>,
    entryPrices: seq<real>)

  datatype Options = Options(
    maxIncarnations: nat,
    ai: bool,
    storm: bool,
    tribute: bool,
    tithe: bool,
    season: (nat, StrategyConfig) -> Option<Life>,
    advisor: nat -> seq<Proposal>)

  datatype AdvisorNote = AdvisorNote(called: bool, proposals: nat, applied: nat)

  datatype TributeBook = TributeBook(events: seq<Tribute>, paid: real, net: real, revivalEarnings: Option<real>)

  datatype TitheBook = TitheBook(events: seq<Tithe>, cash: real, breath: real)

  datatype Entry = Entry(
    incarnation: nat,
    died: bool,
    pnlAtDeath: real,
    scoredPnl: real,
    startWeights: Weights,
    terminalWeights: Weights,
    startGenome: Option<Genome>,
    carryGenomeAfter: Option<Genome>,
    advisor: AdvisorNote,
    tributes: Option<TributeBook>,
    tithes: Option<TitheBook>,
    entryPrices: seq<real>)

  // ---------------------------------------------------------------------- sums

  /** `max(xs, default=0.0)`. */
  function Best(xs: seq<real>): (r: real)
    ensures xs == [] ==> r == 0.0
    ensures xs != [] ==> r in xs && forall x :: x in xs ==> x <= r
  {
    if xs == [] then 0.0
    else if |xs| == 1 then xs[0]
    else
      var front, last := Best(xs[..|xs| - 1]), xs[|xs| - 1];
      assert xs == xs[..|xs| - 1] + [last];
      if last > front then last else front
  }

  function Amounts(ts: seq<Tribute>): seq<real> { seq(|ts|, i requires 0 <= i < |ts| => ts[i].amount) }

  function Cash(ts: seq<Tithe>): seq<real> { seq(|ts|, i requires 0 <= i < |ts| => ts[i].amount) }

  function BreathCosts(ts: seq<Tithe>): seq<real> { seq(|ts|, i requires 0 <= i < |ts| => ts[i].breathCost) }

  function PaidOf(e: Entry): real { if e.tributes.Some? then e.tributes.value.paid else 0.0 }

  function CashOf(e: Entry): real { if e.tithes.Some? then e.tithes.value.cash else 0.0 }

  function BreathOf(e: Entry): real { if e.tithes.Some? then e.tithes.value.breath else 0.0 }

  // --------------------------------------------------------------- one incarnation

  function FinalPnl(life: Life): real { if life.cumPnls == [] then 0.0 else life.cumPnls[|life.cumPnls| - 1] }

  function BookTributes(o: Options, life: Life): Option<TributeBook> {
    if !o.tribute then None
    else
      var paid := Total(Amounts(life.tributes));
      Some(TributeBook(life.tributes, paid, FinalPnl(life) - paid,
        if life.tributes == [] then None else Some(FinalPnl(life) - life.tributes[0].pnlAtEvent)))
  }

  function BookTithes(o: Options, life: Life): Option<TitheBook> {
    if !o.tithe then None else Some(TitheBook(life.tithes, Total(Cash(life.tithes)), Total(BreathCosts(life.tithes))))
  }

  function Scored(o: Options, life: Life): real {
    if life.died then 0.0
    else if o.tribute then FinalPnl(life) - Total(Amounts(life.tributes))
    else FinalPnl(life)
  }

  /** The record of a life before anyone advises on it. */
  function Record(o: Options, k: nat, carry: StrategyConfig, life: Life): Entry {
    Entry(k, life.died, FinalPnl(life), Scored(o, life), carry.weights, life.terminal,
          if o.storm then Some(carry.genome) else None, None, AdvisorNote(false, 0, 0),
          BookTributes(o, life), BookTithes(o, life), life.entryPrices)
  }

  predicate WellFormed(w: Weights) { |w.alpha| == 3 && |w.beta| == 2 }

  /** Seasons report weights of the right shape, as the weight model enforces. */
  ghost predicate WellFormedSeasons(o: Options) {
    forall k, c :: o.season(k, c).Some? ==> WellFormed(o.season(k, c).value.terminal)
  }

  /** The strategy after the advisor's proposals on a death. */
  function Advised(o: Options, carry: StrategyConfig, proposals: seq<Proposal>): StrategyConfig
    requires WellFormed(carry.weights)
  {
    if proposals == [] then carry
    else
      var c := Classify(proposals, o.storm);
      carry.(weights := WithDeltas(carry.weights, c.fusion),
             genome := if o.storm then TurnAll(carry.genome, c.genome) else carry.genome)
  }

  predicate Consulted(o: Options, k: nat, life: Life) { life.died && o.ai && k < o.maxIncarnations }

  /** The strategy that leaves life k. */
  function CarryOut(o: Options, k: nat, carry: StrategyConfig, life: Life): StrategyConfig
    requires WellFormed(life.terminal)
  {
    var kept := carry.(weights := life.terminal);
    if Consulted(o, k, life) then Advised(o, kept, o.advisor(k)) else kept
  }

  /** The record of life k as it goes into the artifact. */
  function FinalRecord(o: Options, k: nat, carry: StrategyConfig, life: Life): Entry
    requires WellFormed(life.terminal)
  {
    var e := Record(o, k, carry, life);
    if !Consulted(o, k, life) then e
    else
      var proposals := o.advisor(k);
      e.(advisor := AdvisorNote(true, |proposals|, Classify(proposals, o.storm).Applied()),
         carryGenomeAfter := if o.storm && proposals != [] then Some(CarryOut(o, k, carry, life).genome) else None)
  }

  // ------------------------------------------------------------------- the whole run

  datatype Run = Run(entries: seq<Entry>, carry: StrategyConfig)

  /** Lives k, k + 1, ... until one survives or the cap is reached; None if a season yields no life. */
  ghost function Lives(o: Options, k: nat, carry: StrategyConfig): Option<Run>
    requires WellFormedSeasons(o) && k <= o.maxIncarnations
    decreases o.maxIncarnations - k
  {
    match o.season(k, carry)
    case None => None
    case Some(life) =>
      var e, next := FinalRecord(o, k, carry, life), CarryOut(o, k, carry, life);
      if !life.died || k == o.maxIncarnations then Some(Run([e], next))
      else
        match Lives(o, k + 1, next)
        case None => None
        case Some(rest) => Some(Run([e] + rest.entries, rest.carry))
  }
}
