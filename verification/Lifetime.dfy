/**
 One simulated lifetime (sim/runner.py). Both random streams are arbitrary, so
 what is proved holds for every seed.
 */
module Lifetime {
  import opened Markets
  import opened Replay

  datatype Archetype = Pessimist | Optimist | Satisficer | RandomGambler | Unregistered(name: string)

  datatype Phase = Attrition | Starvation | TradingLoss | Survival

  datatype Params = Params(
    initialBreath: real,
    passiveBurn: real,
    conversionRate: real,
    minBetSize: real,
    decisionTax: real,
    timeTax: real,
    softCap: real,
    desperateThreshold: real)

  datatype LifetimeResult = LifetimeResult(
    archetype: Archetype,
    ticksSurvived: nat,
    phase: Phase,
    curve: seq<real>,
    finalBankroll: real,
    desperate: bool,
    expansions: nat)

  const BANKROLL_LOSS_FLOOR := 50.0

  // ---------------------------------------------------------------- the policies

  function EdgeThreshold(a: Archetype): real {
    match a
    case Pessimist => 0.20
    case Optimist => 0.05
    case Satisficer => 0.03
    case _ => 0.0
  }

  function BetMultiplier(a: Archetype): real {
    match a
    case Pessimist => 2.0
    case Optimist => 1.5
    case _ => 1.0
  }

  datatype Action = NoBet | Bet(yes: bool)

  function Policy(a: Archetype, price: real, draw: real): Action {
    var edge := price - 0.5;
    if a.RandomGambler? then Bet(draw < 0.5)
    else if -EdgeThreshold(a) < edge < EdgeThreshold(a) then NoBet
    else Bet(edge > 0.0)
  }

  function Payoff(yes: bool, price: real, yesWins: bool): real {
    if yes then (if yesWins then 1.0 - price else -price)
    else (if yesWins then -(1.0 - price) else price)
  }

  // ------------------------------------------------- the life, one tick at a time

  datatype Setup = Setup(
    params: Params,
    archetype: Archetype,
    initialBankroll: real,
    maxTicks: nat,
    policyDraw: nat -> real,
    outcomeDraw: nat -> real)
  {
    function BetSize(): real { params.minBetSize * BetMultiplier(archetype) }
  }

  datatype Life = Life(
    breath: real,
    bankroll: real,
    desperate: bool,
    expansions: nat,
    policyDraws: nat,
    outcomeDraws: nat)

  function Birth(s: Setup): Life { Life(s.params.initialBreath, s.initialBankroll, false, 0, 0, 0) }

  function ActionOf(s: Setup, l: Life, price: real): Action {
    Policy(s.archetype, price, s.policyDraw(l.policyDraws))
  }

  function TaxOf(s: Setup, l: Life, price: real): real {
    s.params.timeTax + if ActionOf(s, l, price).Bet? then s.params.decisionTax else s.params.passiveBurn
  }

  function PayoffOf(s: Setup, l: Life, price: real): real {
    match ActionOf(s, l, price)
    case NoBet => 0.0
    case Bet(yes) => Payoff(yes, price, s.outcomeDraw(l.outcomeDraws) < price)
  }

  /** The tick up to the bet: taxes, payoff, and which draws were used. */
  function Act(s: Setup, l: Life, price: real): Life {
    l.(breath := l.breath - TaxOf(s, l, price),
       bankroll := l.bankroll + PayoffOf(s, l, price) * s.BetSize(),
       policyDraws := l.policyDraws + if s.archetype.RandomGambler? then 1 else 0,
       outcomeDraws := l.outcomeDraws + if ActionOf(s, l, price).Bet? then 1 else 0)
  }

  predicate Expands(s: Setup, l: Life) { l.bankroll > s.initialBankroll * 1.10 }

  /** Lung expansion: money above the floor becomes breath, a quarter of it above the soft cap. */
  function Expand(s: Setup, l: Life): Life {
    if !Expands(s, l) then l
    else
      var gained := (l.bankroll - s.initialBankroll) * s.params.conversionRate;
      l.(breath := l.breath + if l.breath > s.params.softCap then gained * 0.25 else gained,
         bankroll := s.initialBankroll,
         expansions := l.expansions + 1)
  }

  predicate Gasping(s: Setup, breath: real) { 0.0 < breath < s.params.desperateThreshold }

  function Tick(s: Setup, l: Life, price: real): Life {
    var e := Expand(s, Act(s, l, price));
    e.(desperate := e.desperate || Gasping(s, e.breath))
  }

  /** The state after n ticks, dead or alive. */
  function After(s: Setup, prices: seq<real>, n: nat): Life
    requires n <= |prices|
  {
    if n == 0 then Birth(s) else Tick(s, After(s, prices, n - 1), prices[n - 1])
  }

  predicate Over(s: Setup, prices: seq<real>, n: nat)
    requires n <= |prices|
  {
    n >= s.maxTicks || n == |prices| || After(s, prices, n).breath <= 0.0
  }

  /** The first tick, at or after n, at which the life is over. */
  function EndFrom(s: Setup, prices: seq<real>, n: nat): (end: nat)
    requires n <= |prices|
    ensures n <= end <= |prices| && Over(s, prices, end)
    ensures forall k :: n <= k < end ==> !Over(s, prices, k)
    decreases |prices| - n
  {
    if Over(s, prices, n) then n else EndFrom(s, prices, n + 1)
  }

  function Lifespan(s: Setup, prices: seq<real>): (n: nat)
    ensures n <= |prices| && Over(s, prices, n) && n <= s.maxTicks
    ensures forall k :: 0 <= k < n ==> !Over(s, prices, k)
  {
    var n := EndFrom(s, prices, 0);
    assert n > s.maxTicks ==> !Over(s, prices, s.maxTicks);
    n
  }

  function ClassifyDeath(bankroll: real, desperate: bool): Phase {
    if bankroll < BANKROLL_LOSS_FLOOR then TradingLoss
    else if desperate then Starvation
    else Attrition
  }

  function PhaseAt(s: Setup, prices: seq<real>, n: nat): Phase
    requires n <= |prices|
  {
    if n >= s.maxTicks then Survival
    else if After(s, prices, n).breath <= 0.0 then
      ClassifyDeath(After(s, prices, n).bankroll, After(s, prices, n).desperate)
    else Attrition
  }

  function Curve(s: Setup, prices: seq<real>, n: nat): (r: seq<real>)
    requires n <= |prices|
    ensures |r| == n + 1 && forall k :: 0 <= k <= n ==> r[k] == After(s, prices, k).breath
  {
    if n == 0 then [After(s, prices, 0).breath] else Curve(s, prices, n - 1) + [After(s, prices, n).breath]
  }

  function Outcome(s: Setup, prices: seq<real>): LifetimeResult {
    var n := Lifespan(s, prices);
    var l := After(s, prices, n);
    LifetimeResult(s.archetype, n, PhaseAt(s, prices, n), Curve(s, prices, n), l.bankroll, l.desperate, l.expansions)
  }

  lemma EndIsUnique(s: Setup, prices: seq<real>, n: nat)
    requires n <= |prices| && Over(s, prices, n) && forall k :: 0 <= k < n ==> !Over(s, prices, k)
    ensures Lifespan(s, prices) == n
  {
  }

  // -------------------------------------------------------------------- the runner

  class Runner {
    const maxTicks: nat
    const initialBankroll: real

    constructor (maxTicks: nat, initialBankroll: real)
      requires maxTicks >= 1
      ensures this.maxTicks == maxTicks && this.initialBankroll == initialBankroll
    {
      this.maxTicks, this.initialBankroll := maxTicks, initialBankroll;
    }

    /** The body of one tick, statement by statement. */
    static method LiveOneTick(s: Setup, l: Life, price: real) returns (r: Life)
      ensures r == Tick(s, l, price)
    {
      var p := s.params;
      var breath, bankroll := l.breath, l.bankroll;
      var desperate, expansions := l.desperate, l.expansions;
      var policyDraws, outcomeDraws := l.policyDraws, l.outcomeDraws;
      breath := breath - p.timeTax;
      var action := Policy(s.archetype, price, s.policyDraw(policyDraws));
      if s.archetype.RandomGambler? {
        policyDraws := policyDraws + 1;
      }
      if action.Bet? {
        breath := breath - p.decisionTax;
        var yesWins := s.outcomeDraw(outcomeDraws) < price;
        outcomeDraws := outcomeDraws + 1;
        bankroll := bankroll + Payoff(action.yes, price, yesWins) * s.BetSize();
      } else {
        breath := breath - p.passiveBurn;
      }
      assert Life(breath, bankroll, desperate, expansions, policyDraws, outcomeDraws) == Act(s, l, price);
      if bankroll > s.initialBankroll * 1.10 {
        var gained := (bankroll - s.initialBankroll) * p.conversionRate;
        if breath > p.softCap {
          gained := gained * 0.25;
        }
        breath := breath + gained;
        bankroll := s.initialBankroll;
        expansions := expansions + 1;
      }
      assert Life(breath, bankroll, desperate, expansions, policyDraws, outcomeDraws) == Expand(s, Act(s, l, price));
      if breath < p.desperateThreshold && breath > 0.0 {
        desperate := true;
      }
      return Life(breath, bankroll, desperate, expansions, policyDraws, outcomeDraws);
    }

    /** Runs one life over a fresh market; the market is left at the last tick the life consumed. */
    method SimulateLifetime(params: Params, archetype: Archetype, market: MarketReplay,
                            policyDraw: nat -> real, outcomeDraw: nat -> real)
      returns (r: Result<LifetimeResult>)
      requires market.Valid() && market.cursor == -1
      modifies market
      ensures market.Valid()
      ensures r.Err? <==> archetype.Unregistered?
      ensures r.Ok? ==>
        && r.value == Outcome(Setup(params, archetype, initialBankroll, maxTicks, policyDraw, outcomeDraw), market.prices)
        && market.cursor == r.value.ticksSurvived - 1
    {
      if archetype.Unregistered? {
        return Err("archetype not registered");
      }
      var s := Setup(params, archetype, initialBankroll, maxTicks, policyDraw, outcomeDraw);
      ghost var prices := market.prices;
      var l := Birth(s);
      var curve := [l.breath];
      var phase := Attrition;
      var i := 0;
      while i < maxTicks
        invariant i <= maxTicks && i <= |prices| && market.Valid() && market.cursor == i - 1
        invariant forall k :: 0 <= k < i ==> !Over(s, prices, k)
        invariant l == After(s, prices, i) && curve == Curve(s, prices, i)
      {
        if l.breath <= 0.0 {
          phase := ClassifyDeath(l.bankroll, l.desperate);
          break;
        }
        var step := market.Step();
        if step.Err? {
          phase := Attrition;
          break;
        }
        l := LiveOneTick(s, l, step.value.price);
        curve := curve + [l.breath];
        i := i + 1;
      }
      if i == maxTicks {
        phase := Survival;
      }
      EndIsUnique(s, prices, i);
      return Ok(LifetimeResult(archetype, |curve| - 1, phase, curve, l.bankroll, l.desperate, l.expansions));
    }
  }
}
