/** What holds of every simulated life, whatever the prices and the draws. */
module LifetimeLaws {
  import opened Arithmetic
  import opened Markets
  import opened Lifetime

  // ------------------------------------------------------------- one tick in numbers

  /** Which way an agent leans at a price: 1 for YES, -1 for NO, 0 for staying out. */
  function Side(s: Setup, l: Life, price: real): int {
    if s.archetype.RandomGambler? then (if s.policyDraw(l.policyDraws) < 0.5 then 1 else -1)
    else if price - 0.5 >= EdgeThreshold(s.archetype) && price > 0.5 then 1
    else if price - 0.5 <= -EdgeThreshold(s.archetype) then -1
    else 0
  }

  /** What one YES share is worth when the market settles. */
  function Settled(s: Setup, l: Life, price: real): real {
    if s.outcomeDraw(l.outcomeDraws) < price then 1.0 else 0.0
  }

  /** The money a tick wins or loses: shares bought at the price, or sold short, and settled. */
  function Won(s: Setup, l: Life, price: real): real {
    Side(s, l, price) as real * (Settled(s, l, price) - price) * s.BetSize()
  }

  function Burnt(s: Setup, l: Life, price: real): real {
    s.params.timeTax + if Side(s, l, price) == 0 then s.params.passiveBurn else s.params.decisionTax
  }

  /** Money moved into breath by an expansion on this tick, before the conversion rate. */
  function Converted(s: Setup, l: Life, price: real): real {
    var money := l.bankroll + Won(s, l, price);
    if money > 1.10 * s.initialBankroll then money - s.initialBankroll else 0.0
  }

  /** Breath an expansion would bring without the soft cap. */
  function Gain(s: Setup, l: Life, price: real): real { Converted(s, l, price) * s.params.conversionRate }

  /** What the soft cap kept back: three quarters of each gain made above it. */
  function CappedLoss(s: Setup, l: Life, price: real): real {
    if l.breath - Burnt(s, l, price) > s.params.softCap then 0.75 * Gain(s, l, price) else 0.0
  }

  /** A whole tick, written as its effect on every part of the state. */
  lemma TickInNumbers(s: Setup, l: Life, price: real)
    ensures var t := Tick(s, l, price);
      && t.bankroll == l.bankroll + Won(s, l, price) - Converted(s, l, price)
      && t.breath == l.breath - Burnt(s, l, price) + Gain(s, l, price) - CappedLoss(s, l, price)
      && t.expansions == l.expansions + (if l.bankroll + Won(s, l, price) > 1.10 * s.initialBankroll then 1 else 0)
      && (t.desperate <==> l.desperate || 0.0 < t.breath < s.params.desperateThreshold)
      && t.policyDraws == l.policyDraws + (if s.archetype.RandomGambler? then 1 else 0)
      && t.outcomeDraws == l.outcomeDraws + (if Side(s, l, price) != 0 then 1 else 0)
  {
    BetInNumbers(s, l, price);
    hide Won, ActionOf, PayoffOf, Side, Setup.BetSize;
  }

  lemma BetInNumbers(s: Setup, l: Life, price: real)
    ensures ActionOf(s, l, price).Bet? <==> Side(s, l, price) != 0
    ensures PayoffOf(s, l, price) * s.BetSize() == Won(s, l, price)
  {
    hide Setup.BetSize;
    assert PayoffOf(s, l, price) == Side(s, l, price) as real * (Settled(s, l, price) - price);
  }

  /** The archetypes in prices and stakes. */
  lemma PoliciesInNumbers(s: Setup, l: Life, price: real)
    ensures s.archetype.Pessimist? ==>
      Side(s, l, price) == (if price >= 0.7 then 1 else if price <= 0.3 then -1 else 0) && s.BetSize() == 2.0 * s.params.minBetSize
    ensures s.archetype.Optimist? ==>
      Side(s, l, price) == (if price >= 0.55 then 1 else if price <= 0.45 then -1 else 0) && s.BetSize() == 1.5 * s.params.minBetSize
    ensures s.archetype.Satisficer? ==>
      Side(s, l, price) == (if price >= 0.53 then 1 else if price <= 0.47 then -1 else 0) && s.BetSize() == s.params.minBetSize
    ensures s.archetype.RandomGambler? ==> Side(s, l, price) != 0 && s.BetSize() == s.params.minBetSize
  {
  }

  /** The money that a tick without an expansion adds. */
  function Change(s: Setup, l: Life, price: real): real { Tick(s, l, price).bankroll - l.bankroll }

  ghost predicate NoExpansion(s: Setup, l: Life, price: real) { Tick(s, l, price).expansions == l.expansions }

  /** A bet at the market price is fair: what it wins and what it loses, weighed by the price, cancel on either side. */
  lemma BetsAreFair(s: Setup, t: Setup, l: Life, price: real)
    requires t == s.(outcomeDraw := t.outcomeDraw)
    requires s.outcomeDraw(l.outcomeDraws) < price <= t.outcomeDraw(l.outcomeDraws)
    requires NoExpansion(s, l, price) && NoExpansion(t, l, price)
    ensures price * Change(s, l, price) + (1.0 - price) * Change(t, l, price) == 0.0
    ensures Change(s, l, price) - Change(t, l, price) == Side(s, l, price) as real * s.BetSize()
  {
    TickInNumbers(s, l, price);
    TickInNumbers(t, l, price);
    assert t.BetSize() == s.BetSize();
    hide Tick, Setup.BetSize;
    var stake := Side(s, l, price) as real * s.BetSize();
    assert Won(s, l, price) == (1.0 - price) * stake;
    assert Won(t, l, price) == -price * stake;
  }

  /** On one and the same tick the two sides cancel. */
  lemma SidesCancel(s: Setup, t: Setup, l: Life, price: real)
    requires s.archetype.RandomGambler? && t == s.(policyDraw := t.policyDraw)
    requires s.policyDraw(l.policyDraws) < 0.5 <= t.policyDraw(l.policyDraws)
    requires NoExpansion(s, l, price) && NoExpansion(t, l, price)
    ensures Change(s, l, price) + Change(t, l, price) == 0.0
  {
    TickInNumbers(s, l, price);
    TickInNumbers(t, l, price);
    assert t.BetSize() == s.BetSize();
    hide Tick, Setup.BetSize;
    var yes := (Settled(s, l, price) - price) * s.BetSize();
    assert Won(s, l, price) == yes;
    assert Won(t, l, price) == -yes;
  }

  // ---------------------------------------------------------------- conservation

  function TaxesBurnt(s: Setup, prices: seq<real>, n: nat): real
    requires n <= |prices|
  {
    if n == 0 then 0.0
    else TaxesBurnt(s, prices, n - 1) + Burnt(s, After(s, prices, n - 1), prices[n - 1])
  }

  function Winnings(s: Setup, prices: seq<real>, n: nat): real
    requires n <= |prices|
  {
    if n == 0 then 0.0
    else Winnings(s, prices, n - 1) + Won(s, After(s, prices, n - 1), prices[n - 1])
  }

  function ConvertedSoFar(s: Setup, prices: seq<real>, n: nat): real
    requires n <= |prices|
  {
    if n == 0 then 0.0
    else ConvertedSoFar(s, prices, n - 1) + Converted(s, After(s, prices, n - 1), prices[n - 1])
  }

  function GainsSoFar(s: Setup, prices: seq<real>, n: nat): real
    requires n <= |prices|
  {
    if n == 0 then 0.0
    else GainsSoFar(s, prices, n - 1) + Gain(s, After(s, prices, n - 1), prices[n - 1])
  }

  function Suppressed(s: Setup, prices: seq<real>, n: nat): real
    requires n <= |prices|
  {
    if n == 0 then 0.0
    else Suppressed(s, prices, n - 1) + CappedLoss(s, After(s, prices, n - 1), prices[n - 1])
  }

  /** Money is neither made nor lost: winnings are either still in hand or were converted. */
  lemma {:induction false} MoneyIsConserved(s: Setup, prices: seq<real>, n: nat)
    requires n <= |prices|
    ensures After(s, prices, n).bankroll - s.initialBankroll == Winnings(s, prices, n) - ConvertedSoFar(s, prices, n)
  {
    hide Tick, Won, Converted;
    if n > 0 {
      MoneyIsConserved(s, prices, n - 1);
      TickInNumbers(s, After(s, prices, n - 1), prices[n - 1]);
    }
  }

  lemma {:induction false} BreathLaw(s: Setup, prices: seq<real>, n: nat)
    requires n <= |prices|
    ensures After(s, prices, n).breath
         == s.params.initialBreath - TaxesBurnt(s, prices, n) + GainsSoFar(s, prices, n) - Suppressed(s, prices, n)
  {
    hide Tick, Burnt, Gain, CappedLoss;
    if n > 0 {
      BreathLaw(s, prices, n - 1);
      TickInNumbers(s, After(s, prices, n - 1), prices[n - 1]);
    }
  }

  lemma {:induction false} GainsAreConversions(s: Setup, prices: seq<real>, n: nat)
    requires n <= |prices|
    ensures GainsSoFar(s, prices, n) == s.params.conversionRate * ConvertedSoFar(s, prices, n)
  {
    hide After, Converted;
    if n > 0 {
      GainsAreConversions(s, prices, n - 1);
      Distribute(s.params.conversionRate, ConvertedSoFar(s, prices, n - 1),
                 Converted(s, After(s, prices, n - 1), prices[n - 1]));
    }
  }

  /**
   The potential of a life, breath plus the breath value of the money won so far, moves
   only by taxes, by payoffs and by what the soft cap keeps back.
   */
  lemma PotentialLaw(s: Setup, prices: seq<real>, n: nat)
    requires n <= |prices|
    ensures var c := s.params.conversionRate;
      After(s, prices, n).breath + c * (After(s, prices, n).bankroll - s.initialBankroll)
      == s.params.initialBreath - TaxesBurnt(s, prices, n) + c * Winnings(s, prices, n) - Suppressed(s, prices, n)
  {
    hide *;
    BreathLaw(s, prices, n);
    GainsAreConversions(s, prices, n);
    MoneyIsConserved(s, prices, n);
    Distribute(s.params.conversionRate, Winnings(s, prices, n), -ConvertedSoFar(s, prices, n));
  }

  lemma {:induction false} BankrollStaysBelowTheLine(s: Setup, prices: seq<real>, n: nat)
    requires n <= |prices| && s.initialBankroll >= 0.0
    ensures After(s, prices, n).bankroll <= 1.10 * s.initialBankroll
  {
    if n > 0 {
      BankrollStaysBelowTheLine(s, prices, n - 1);
    }
  }

  function Times(k: nat, x: real): real { if k == 0 then 0.0 else Times(k - 1, x) + x }

  lemma {:induction false} TimesIsProduct(k: nat, x: real)
    ensures Times(k, x) == k as real * x
  {
    if k > 0 {
      TimesIsProduct(k - 1, x);
      OneMore(k - 1, x);
    }
  }

  /** Each expansion converted more than a tenth of the starting bankroll. */
  lemma {:induction false} ExpansionsAreEarned(s: Setup, prices: seq<real>, n: nat)
    requires n <= |prices| && s.initialBankroll >= 0.0
    ensures var k := After(s, prices, n).expansions;
      if k == 0 then ConvertedSoFar(s, prices, n) == 0.0
      else Times(k, 0.1 * s.initialBankroll) < ConvertedSoFar(s, prices, n)
  {
    if n > 0 {
      ExpansionsAreEarned(s, prices, n - 1);
      TickInNumbers(s, After(s, prices, n - 1), prices[n - 1]);
    }
  }

  /** The number of expansions is paid for by net winnings, whatever is still in hand. */
  lemma ExpansionsBoundedByWinnings(s: Setup, prices: seq<real>, n: nat)
    requires n <= |prices| && s.initialBankroll >= 0.0 && After(s, prices, n).expansions > 0
    ensures After(s, prices, n).expansions as real * (0.1 * s.initialBankroll)
          < Winnings(s, prices, n) - (After(s, prices, n).bankroll - s.initialBankroll)
  {
    hide *;
    ExpansionsAreEarned(s, prices, n);
    MoneyIsConserved(s, prices, n);
    TimesIsProduct(After(s, prices, n).expansions, 0.1 * s.initialBankroll);
  }

  /** The books of a reported lifetime: its curve, its final bankroll and its expansions. */
  lemma ReportedLifeBalances(s: Setup, prices: seq<real>)
    ensures var r := Outcome(s, prices); var n := r.ticksSurvived;
      && n <= |prices| && |r.curve| == n + 1 && r.archetype == s.archetype
      && (forall k :: 0 <= k <= n ==>
            r.curve[k] == s.params.initialBreath - TaxesBurnt(s, prices, k) + GainsSoFar(s, prices, k) - Suppressed(s, prices, k))
      && r.finalBankroll == s.initialBankroll + Winnings(s, prices, n) - ConvertedSoFar(s, prices, n)
      && (s.initialBankroll >= 0.0 ==> (r.expansions == 0 <==> ConvertedSoFar(s, prices, n) == 0.0))
  {
    hide After, TaxesBurnt, GainsSoFar, Suppressed, Winnings, ConvertedSoFar;
    var n := Lifespan(s, prices);
    forall k | 0 <= k <= n
      ensures After(s, prices, k).breath
           == s.params.initialBreath - TaxesBurnt(s, prices, k) + GainsSoFar(s, prices, k) - Suppressed(s, prices, k)
    {
      BreathLaw(s, prices, k);
    }
    MoneyIsConserved(s, prices, n);
    if s.initialBankroll >= 0.0 {
      ExpansionsAreEarned(s, prices, n);
      TimesIsProduct(After(s, prices, n).expansions, 0.1 * s.initialBankroll);
      ProductNotNegative(After(s, prices, n).expansions as real, 0.1 * s.initialBankroll);
    }
  }

  // -------------------------------------------------- dying inside the calibrated box

  /** The sampled bounds of sim/params.py; the conversion rate is only kept from being negative. */
  predicate Calibrated(p: Params) {
    && 0.5 <= p.decisionTax <= 5.0
    && 0.1 <= p.timeTax <= 2.0
    && 1500.0 <= p.softCap <= 4000.0
    && 50.0 <= p.desperateThreshold <= 400.0
    && 800.0 <= p.initialBreath <= 1500.0
    && 0.5 <= p.passiveBurn <= 3.0
    && 0.0 <= p.conversionRate
  }

  lemma GainsAreNotNegative(c: real, x: real)
    requires c >= 0.0 && x >= 0.0
    ensures x * c >= 0.0 && x * c * 0.25 >= 0.0
  {
  }

  lemma TickCostsAtMostSeven(s: Setup, l: Life, price: real)
    requires Calibrated(s.params) && s.initialBankroll >= 0.0
    ensures Tick(s, l, price).breath >= l.breath - 7.0
  {
    var a := Act(s, l, price);
    if Expands(s, a) {
      GainsAreNotNegative(s.params.conversionRate, a.bankroll - s.initialBankroll);
    }
  }

  lemma {:induction false} DesperationSticks(s: Setup, prices: seq<real>, m: nat, n: nat)
    requires m <= n <= |prices| && After(s, prices, m).desperate
    ensures After(s, prices, n).desperate
  {
    if m < n {
      DesperationSticks(s, prices, m, n - 1);
    }
  }

  /** Out of breath inside the box means a gasp on the tick before. */
  lemma LastGasp(s: Setup, prices: seq<real>, n: nat)
    requires Calibrated(s.params) && s.initialBankroll >= 0.0
    requires n <= Lifespan(s, prices) && After(s, prices, n).breath <= 0.0
    ensures n >= 2 && Gasping(s, After(s, prices, n - 1).breath) && After(s, prices, n).desperate
  {
    assert n > 0;
    var before := After(s, prices, n - 1);
    assert !Over(s, prices, n - 1);
    TickCostsAtMostSeven(s, before, prices[n - 1]);
    if n >= 2 {
      assert before.desperate;
    }
  }

  ghost predicate RanOut(s: Setup, prices: seq<real>) {
    Lifespan(s, prices) == |prices| < s.maxTicks && After(s, prices, |prices|).breath > 0.0
  }

  /**
   Inside the calibrated box nobody dies of Attrition: the label appears exactly when
   the market stream ends under a living agent. Every other death passed through
   Desperate Mode.
   */
  lemma AttritionOnlyByExhaustion(s: Setup, prices: seq<real>)
    requires Calibrated(s.params) && s.initialBankroll >= 0.0
    ensures Outcome(s, prices).phase.Attrition? <==> RanOut(s, prices)
    ensures Outcome(s, prices).phase.Starvation? || Outcome(s, prices).phase.TradingLoss? ==> Outcome(s, prices).desperate
  {
    var n := Lifespan(s, prices);
    if n < s.maxTicks && After(s, prices, n).breath <= 0.0 {
      LastGasp(s, prices, n);
    }
  }

  // ------------------------------------------------ the objectives that read lifetimes

  datatype Bucket = Bucket(archetype: Archetype, lifetimes: seq<LifetimeResult>)

  predicate Mandatory(a: Archetype) { a.Pessimist? || a.Optimist? || a.Satisficer? }

  function CountDying(rs: seq<LifetimeResult>): (n: nat) {
    if rs == [] then 0 else CountDying(rs[..|rs| - 1]) + if rs[|rs| - 1].phase.Survival? then 0 else 1
  }

  function CountLucid(rs: seq<LifetimeResult>): (n: nat) {
    if rs == [] then 0
    else CountLucid(rs[..|rs| - 1]) + if !rs[|rs| - 1].phase.Survival? && rs[|rs| - 1].desperate then 1 else 0
  }

  function MandatoryLifetimes(buckets: seq<Bucket>): seq<LifetimeResult> {
    if buckets == [] then []
    else
      var last := buckets[|buckets| - 1];
      MandatoryLifetimes(buckets[..|buckets| - 1]) + if Mandatory(last.archetype) then last.lifetimes else []
  }

  /** `objective_terminal_lucidity_rate`: the measured rate, if any agent died. */
  function LucidityRate(buckets: seq<Bucket>): Option<real> {
    var rs := MandatoryLifetimes(buckets);
    if CountDying(rs) == 0 then None else Some(CountLucid(rs) as real / CountDying(rs) as real)
  }

  predicate LucidityPasses(buckets: seq<Bucket>) {
    LucidityRate(buckets).Some? && LucidityRate(buckets).value > 0.85
  }

  ghost predicate Observed(buckets: seq<Bucket>, phase: Phase) {
    exists b, r :: b in buckets && r in b.lifetimes && r.phase == phase
  }

  /** `objective_three_death_paths`. */
  ghost predicate ThreeDeathPathsPass(buckets: seq<Bucket>) {
    Observed(buckets, Attrition) && Observed(buckets, Starvation) && Observed(buckets, TradingLoss)
  }

  /** A lifetime of a calibrated run: parameters in the box, market no shorter than the cap. */
  ghost predicate FromCalibratedRun(r: LifetimeResult) {
    exists s: Setup, prices: seq<real> ::
      r == Outcome(s, prices) && Calibrated(s.params) && s.initialBankroll >= 0.0 && |prices| >= s.maxTicks
  }

  ghost predicate AllCalibrated(buckets: seq<Bucket>) {
    forall b, r :: b in buckets && r in b.lifetimes ==> FromCalibratedRun(r)
  }

  lemma CalibratedDeathIsLucid(r: LifetimeResult)
    requires FromCalibratedRun(r)
    ensures !r.phase.Attrition? && (!r.phase.Survival? ==> r.desperate)
  {
    var s: Setup, prices: seq<real> :|
      r == Outcome(s, prices) && Calibrated(s.params) && s.initialBankroll >= 0.0 && |prices| >= s.maxTicks;
    AttritionOnlyByExhaustion(s, prices);
  }

  lemma {:induction false} LucidWhenDying(rs: seq<LifetimeResult>)
    requires forall r :: r in rs ==> FromCalibratedRun(r)
    ensures CountLucid(rs) == CountDying(rs)
  {
    if rs != [] {
      var front, last := rs[..|rs| - 1], rs[|rs| - 1];
      assert rs == front + [last];
      CalibratedDeathIsLucid(last);
      LucidWhenDying(front);
    }
  }

  lemma {:induction false} MandatoryMembers(buckets: seq<Bucket>, r: LifetimeResult)
    requires AllCalibrated(buckets) && r in MandatoryLifetimes(buckets)
    ensures FromCalibratedRun(r)
  {
    var front, last := buckets[..|buckets| - 1], buckets[|buckets| - 1];
    assert buckets == front + [last];
    if r in MandatoryLifetimes(front) {
      MandatoryMembers(front, r);
    }
  }

  /**
   On lifetimes drawn from the calibrated box the death-path objective can never pass,
   and the lucidity objective passes, at a rate of exactly one, as soon as one
   mandatory agent has died.
   */
  lemma CalibratedObjectives(buckets: seq<Bucket>)
    requires AllCalibrated(buckets)
    ensures !ThreeDeathPathsPass(buckets)
    ensures LucidityRate(buckets).Some? ==> LucidityRate(buckets).value == 1.0
    ensures LucidityPasses(buckets) <==> CountDying(MandatoryLifetimes(buckets)) > 0
  {
    if b, r :| b in buckets && r in b.lifetimes && r.phase == Attrition {
      CalibratedDeathIsLucid(r);
    }
    var rs := MandatoryLifetimes(buckets);
    forall r | r in rs ensures FromCalibratedRun(r) {
      MandatoryMembers(buckets, r);
    }
    LucidWhenDying(rs);
    if CountDying(rs) > 0 {
      Ratio(CountDying(rs));
    }
  }

  /** The rate is a share of the dying, and the bar is 85 percent. */
  lemma LucidityInNumbers(buckets: seq<Bucket>)
    ensures var rs := MandatoryLifetimes(buckets);
      && CountLucid(rs) <= CountDying(rs)
      && (LucidityRate(buckets).Some? <==> CountDying(rs) > 0)
      && (LucidityPasses(buckets) <==> CountDying(rs) > 0 && 100 * CountLucid(rs) > 85 * CountDying(rs))
  {
    var rs := MandatoryLifetimes(buckets);
    FewerLucid(rs);
    if CountDying(rs) > 0 {
      ShareAbove(CountLucid(rs), CountDying(rs));
    }
  }

  lemma {:induction false} FewerLucid(rs: seq<LifetimeResult>)
    ensures CountLucid(rs) <= CountDying(rs)
  {
    if rs != [] {
      FewerLucid(rs[..|rs| - 1]);
    }
  }

  lemma ShareAbove(a: nat, n: nat)
    requires n > 0
    ensures a as real / n as real > 0.85 <==> 100 * a > 85 * n
  {
    Quotient(a as real, n as real);
    AboveBar(a as real / n as real, n as real, a as real);
  }

  lemma AboveBar(q: real, m: real, a: real)
    requires m > 0.0 && q * m == a
    ensures q > 0.85 <==> 100.0 * a > 85.0 * m
  {
    if q > 0.85 {
      StrictScale(0.85, q, m);
    } else {
      Scale(q, 0.85, m);
    }
  }

  lemma Ratio(n: nat)
    requires n > 0
    ensures n as real / n as real == 1.0
  {
  }

  // ------------------------------------------------------------ the life that never bets

  ghost predicate NeverTempted(s: Setup, prices: seq<real>) {
    && !s.archetype.RandomGambler?
    && forall k :: 0 <= k < |prices| && k < s.maxTicks ==>
         -EdgeThreshold(s.archetype) < prices[k] - 0.5 < EdgeThreshold(s.archetype)
  }

  lemma IdleTick(s: Setup, l: Life, price: real)
    requires !s.archetype.RandomGambler? && l.bankroll == s.initialBankroll
    requires -EdgeThreshold(s.archetype) < price - 0.5 < EdgeThreshold(s.archetype)
    ensures Tick(s, l, price).bankroll == s.initialBankroll
    ensures Tick(s, l, price).breath == l.breath - (s.params.timeTax + s.params.passiveBurn)
  {
    TickInNumbers(s, l, price);
    assert Side(s, l, price) == 0;
    hide Tick, Setup.BetSize;
    assert Won(s, l, price) == 0.0;
  }

  lemma {:induction false} IdleBreath(s: Setup, prices: seq<real>, n: nat)
    requires n <= |prices| && n <= s.maxTicks && NeverTempted(s, prices)
    ensures After(s, prices, n).bankroll == s.initialBankroll
    ensures After(s, prices, n).breath == s.params.initialBreath - n as real * (s.params.timeTax + s.params.passiveBurn)
  {
    hide Tick;
    if n > 0 {
      IdleBreath(s, prices, n - 1);
      IdleTick(s, After(s, prices, n - 1), prices[n - 1]);
      OneMore(n - 1, s.params.timeTax + s.params.passiveBurn);
    }
  }

  lemma Straddle(b: real, d: real, x: real, low: real, high: real)
    requires d > 0.0 && x * d == b && low < x <= high
    ensures low * d < b <= high * d
  {
    StrictScale(low, x, d);
    Scale(x, high, d);
  }

  lemma Quotient(b: real, d: real)
    requires d > 0.0
    ensures (b / d) * d == b
  {
  }

  lemma LastsUntil(b: real, d: real, n: nat)
    requires d > 0.0
    ensures b - n as real * d <= 0.0 <==> n >= Ceil(b / d)
  {
    var x := b / d;
    Quotient(b, d);
    var c := Ceil(x);
    Straddle(b, d, x, (c - 1) as real, c as real);
    if n >= c {
      Scale(c as real, n as real, d);
    } else {
      Scale(n as real, (c - 1) as real, d);
    }
  }

  lemma IdleBreathGone(s: Setup, prices: seq<real>, n: nat)
    requires n <= |prices| && n <= s.maxTicks && NeverTempted(s, prices)
    requires s.params.timeTax + s.params.passiveBurn > 0.0
    ensures After(s, prices, n).breath <= 0.0 <==> n >= Ceil(s.params.initialBreath / (s.params.timeTax + s.params.passiveBurn))
  {
    hide *;
    IdleBreath(s, prices, n);
    LastsUntil(s.params.initialBreath, s.params.timeTax + s.params.passiveBurn, n);
  }

  /** An agent that never bets lives exactly as long as its breath lasts, up to the cap. */
  lemma IdleLifespan(s: Setup, prices: seq<real>)
    requires NeverTempted(s, prices) && |prices| >= s.maxTicks
    requires s.params.timeTax + s.params.passiveBurn > 0.0
    ensures var lasts := Ceil(s.params.initialBreath / (s.params.timeTax + s.params.passiveBurn));
      Lifespan(s, prices) == if lasts <= 0 then 0 else if lasts < s.maxTicks then lasts else s.maxTicks
  {
    var n := Lifespan(s, prices);
    IdleBreathGone(s, prices, n);
    if n > 0 {
      assert !Over(s, prices, n - 1);
      IdleBreathGone(s, prices, n - 1);
    }
  }

  // --------------------------------------------------------------- prefix determinacy

  ghost predicate SamePast(s: Setup, t: Setup, p: seq<real>, q: seq<real>, n: nat)
    requires n <= |p|
  {
    && n <= |q|
    && s.params == t.params && s.archetype == t.archetype
    && s.initialBankroll == t.initialBankroll && s.maxTicks == t.maxTicks
    && (forall k :: 0 <= k < n ==> p[k] == q[k])
    && (forall k: nat :: k < After(s, p, n).policyDraws ==> s.policyDraw(k) == t.policyDraw(k))
    && (forall k: nat :: k < After(s, p, n).outcomeDraws ==> s.outcomeDraw(k) == t.outcomeDraw(k))
  }

  lemma SamePastEarlier(s: Setup, t: Setup, p: seq<real>, q: seq<real>, n: nat)
    requires 0 < n <= |p| && SamePast(s, t, p, q, n)
    ensures SamePast(s, t, p, q, n - 1)
  {
    var l := After(s, p, n - 1);
    assert After(s, p, n).policyDraws >= l.policyDraws && After(s, p, n).outcomeDraws >= l.outcomeDraws;
  }

  lemma {:induction false} SameState(s: Setup, t: Setup, p: seq<real>, q: seq<real>, n: nat)
    requires n <= |p| && SamePast(s, t, p, q, n)
    ensures After(s, p, n) == After(t, q, n) && Curve(s, p, n) == Curve(t, q, n)
  {
    if n > 0 {
      SamePastEarlier(s, t, p, q, n);
      SameState(s, t, p, q, n - 1);
      SameTick(s, t, After(s, p, n - 1), p[n - 1]);
    }
  }

  lemma SameTick(s: Setup, t: Setup, l: Life, price: real)
    requires s.params == t.params && s.archetype == t.archetype && s.initialBankroll == t.initialBankroll
    requires s.archetype.RandomGambler? ==> s.policyDraw(l.policyDraws) == t.policyDraw(l.policyDraws)
    requires ActionOf(s, l, price).Bet? ==> s.outcomeDraw(l.outcomeDraws) == t.outcomeDraw(l.outcomeDraws)
    ensures Tick(s, l, price) == Tick(t, l, price)
  {
    assert Act(s, l, price) == Act(t, l, price) by { SameAct(s, t, l, price); }
    SameExpansion(s, t, Act(s, l, price));
  }

  lemma SameAct(s: Setup, t: Setup, l: Life, price: real)
    requires s.params == t.params && s.archetype == t.archetype
    requires s.archetype.RandomGambler? ==> s.policyDraw(l.policyDraws) == t.policyDraw(l.policyDraws)
    requires ActionOf(s, l, price).Bet? ==> s.outcomeDraw(l.outcomeDraws) == t.outcomeDraw(l.outcomeDraws)
    ensures Act(s, l, price) == Act(t, l, price)
  {
    assert ActionOf(s, l, price) == ActionOf(t, l, price);
    SameBet(s, t, l, price);
    assert TaxOf(s, l, price) == TaxOf(t, l, price);
    hide ActionOf, TaxOf, PayoffOf, Setup.BetSize;
  }

  lemma SameBet(s: Setup, t: Setup, l: Life, price: real)
    requires s.params == t.params && s.archetype == t.archetype && ActionOf(s, l, price) == ActionOf(t, l, price)
    requires ActionOf(s, l, price).Bet? ==> s.outcomeDraw(l.outcomeDraws) == t.outcomeDraw(l.outcomeDraws)
    ensures PayoffOf(s, l, price) * s.BetSize() == PayoffOf(t, l, price) * t.BetSize()
  {
    assert PayoffOf(s, l, price) == PayoffOf(t, l, price) && s.BetSize() == t.BetSize();
    hide PayoffOf, Setup.BetSize;
  }

  lemma SameExpansion(s: Setup, t: Setup, a: Life)
    requires s.params == t.params && s.initialBankroll == t.initialBankroll
    ensures Expand(s, a) == Expand(t, a)
  {
  }

  lemma {:induction false} SamePastAt(s: Setup, t: Setup, p: seq<real>, q: seq<real>, n: nat, k: nat)
    requires k <= n <= |p| && SamePast(s, t, p, q, n)
    ensures SamePast(s, t, p, q, k)
  {
    if k < n {
      SamePastEarlier(s, t, p, q, n);
      SamePastAt(s, t, p, q, n - 1, k);
    }
  }

  /**
   A life is settled by what it consumed: a second market that agrees on the ticks
   lived, with draws that agree as far as they were used, gives the same result,
   unless the first life only ended because its market did.
   */
  lemma PrefixDeterminesLife(s: Setup, t: Setup, p: seq<real>, q: seq<real>)
    requires SamePast(s, t, p, q, Lifespan(s, p)) && !RanOut(s, p)
    ensures Outcome(t, q) == Outcome(s, p)
  {
    var n := Lifespan(s, p);
    SameState(s, t, p, q, n);
    forall k | 0 <= k < n ensures !Over(t, q, k) {
      SamePastAt(s, t, p, q, n, k);
      SameState(s, t, p, q, k);
      assert !Over(s, p, k);
    }
    EndIsUnique(t, q, n);
  }

  // ----------------------------------------------------------------- reading the curve

  ghost predicate Gasped(s: Setup, curve: seq<real>) {
    exists k :: 1 <= k < |curve| && Gasping(s, curve[k])
  }

  lemma GaspedPush(s: Setup, curve: seq<real>, breath: real)
    requires curve != []
    ensures Gasped(s, curve + [breath]) <==> Gasped(s, curve) || Gasping(s, breath)
  {
    var c := curve + [breath];
    if Gasping(s, breath) {
      assert Gasping(s, c[|curve|]);
    }
    if k :| 1 <= k < |curve| && Gasping(s, curve[k]) {
      assert Gasping(s, c[k]);
    }
    if k :| 1 <= k < |c| && Gasping(s, c[k]) {
      assert k == |curve| || Gasping(s, curve[k]);
    }
  }

  lemma {:induction false} DesperateIffGasped(s: Setup, prices: seq<real>, n: nat)
    requires n <= |prices|
    ensures After(s, prices, n).desperate <==> Gasped(s, Curve(s, prices, n))
  {
    if n > 0 {
      DesperateIffGasped(s, prices, n - 1);
      GaspedPush(s, Curve(s, prices, n - 1), After(s, prices, n).breath);
    }
  }

  /** The breath curve tells the whole story: how long, whether the cap was hit, whether Desperate Mode was seen. */
  lemma CurveTellsTheLife(s: Setup, prices: seq<real>)
    requires s.maxTicks >= 1
    ensures var r := Outcome(s, prices);
      && |r.curve| == r.ticksSurvived + 1
      && (forall k :: 0 <= k < r.ticksSurvived ==> r.curve[k] > 0.0)
      && (r.phase.Survival? <==> r.ticksSurvived == s.maxTicks)
      && (!r.phase.Survival? && r.curve[r.ticksSurvived] > 0.0 ==> r.ticksSurvived == |prices| && r.phase.Attrition?)
      && (r.phase.TradingLoss? <==> !r.phase.Survival? && r.curve[r.ticksSurvived] <= 0.0 && r.finalBankroll < 50.0)
      && (r.phase.Starvation? <==>
            !r.phase.Survival? && r.curve[r.ticksSurvived] <= 0.0 && r.finalBankroll >= 50.0 && r.desperate)
      && (r.desperate <==> Gasped(s, r.curve))
  {
    var n := Lifespan(s, prices);
    DesperateIffGasped(s, prices, n);
    forall k | 0 <= k < n ensures Outcome(s, prices).curve[k] > 0.0 {
      assert !Over(s, prices, k);
    }
  }

  // ------------------------------------------------------------- survivors without breath

  /** Reported as Survival with no breath left. */
  ghost predicate DeadSurvivor(s: Setup, prices: seq<real>) {
    Outcome(s, prices).phase.Survival? && After(s, prices, Lifespan(s, prices)).breath <= 0.0
  }

  /** What n ticks have taken in all: taxes and the soft cap's share, less what expansions brought. */
  function Spent(s: Setup, prices: seq<real>, n: nat): real
    requires n <= |prices|
  {
    TaxesBurnt(s, prices, n) + Suppressed(s, prices, n) - GainsSoFar(s, prices, n)
  }

  /** For every agent and stream: it happens exactly when the account first overruns the initial breath at the cap. */
  lemma DeadSurvivorIffSpentAtCap(s: Setup, prices: seq<real>)
    ensures DeadSurvivor(s, prices) <==>
      && s.maxTicks <= |prices|
      && (forall k :: 0 <= k < s.maxTicks ==> Spent(s, prices, k) < s.params.initialBreath)
      && Spent(s, prices, s.maxTicks) >= s.params.initialBreath
  {
    hide After, TaxesBurnt, Suppressed, GainsSoFar;
    var n := Lifespan(s, prices);
    forall k | 0 <= k <= |prices| ensures After(s, prices, k).breath == s.params.initialBreath - Spent(s, prices, k) {
      BreathLaw(s, prices, k);
    }
    forall k | 0 <= k < n ensures Spent(s, prices, k) < s.params.initialBreath {
      assert !Over(s, prices, k);
    }
    SurvivalIsTheCap(s, prices);
  }

  /** An agent that never bets is such a survivor exactly when its breath lasts until the very last allowed tick. */
  lemma IdleDeadSurvivorIff(s: Setup, prices: seq<real>)
    requires NeverTempted(s, prices) && |prices| >= s.maxTicks >= 1
    requires s.params.timeTax + s.params.passiveBurn > 0.0
    ensures DeadSurvivor(s, prices) <==> Ceil(s.params.initialBreath / (s.params.timeTax + s.params.passiveBurn)) == s.maxTicks
  {
    hide After, Tick, Ceil, NeverTempted;
    IdleLifespan(s, prices);
    IdleBreathGone(s, prices, Lifespan(s, prices));
  }

  /** One such agent, inside the calibrated box. */
  lemma DeadSurvivorExample() returns (s: Setup, prices: seq<real>)
    ensures Calibrated(s.params) && s.archetype.Pessimist? && s.initialBankroll == 100.0 && s.maxTicks == 160
    ensures DeadSurvivor(s, prices)
  {
    var p := Params(800.0, 3.0, 1.0, 5.0, 0.5, 2.0, 1500.0, 50.0);
    s := Setup(p, Pessimist, 100.0, 160, _ => 0.0, _ => 0.0);
    prices := seq(160, _ => 0.5);
    IdleDeadSurvivorIff(s, prices);
  }

  // The most and the least breath that a tick without an expansion can cost an archetype.

  function BetRate(p: Params): real { p.timeTax + p.decisionTax }

  function IdleRate(p: Params): real { p.timeTax + p.passiveBurn }

  function FastRate(p: Params, a: Archetype): real {
    if a.RandomGambler? || BetRate(p) >= IdleRate(p) then BetRate(p) else IdleRate(p)
  }

  function SlowRate(p: Params, a: Archetype): real {
    if a.RandomGambler? || BetRate(p) <= IdleRate(p) then BetRate(p) else IdleRate(p)
  }

  lemma TickCostsAtMostFast(s: Setup, l: Life, price: real)
    requires s.initialBankroll >= 0.0 && s.params.conversionRate >= 0.0
    ensures Tick(s, l, price).breath >= l.breath - FastRate(s.params, s.archetype)
  {
    assert Burnt(s, l, price) <= FastRate(s.params, s.archetype);
    hide Tick, Won, Burnt, FastRate;
    GainsAreNotNegative(s.params.conversionRate, Converted(s, l, price));
    TickInNumbers(s, l, price);
  }

  lemma {:induction false} BreathAtLeast(s: Setup, prices: seq<real>, n: nat)
    requires n <= |prices| && s.initialBankroll >= 0.0 && s.params.conversionRate >= 0.0
    ensures After(s, prices, n).breath >= s.params.initialBreath - n as real * FastRate(s.params, s.archetype)
  {
    hide Tick, FastRate;
    if n > 0 {
      BreathAtLeast(s, prices, n - 1);
      TickCostsAtMostFast(s, After(s, prices, n - 1), prices[n - 1]);
      OneMore(n - 1, FastRate(s.params, s.archetype));
    }
  }

  lemma EnoughBreathSurvives(s: Setup, prices: seq<real>)
    requires s.initialBankroll >= 0.0 && s.params.conversionRate >= 0.0
    requires s.params.initialBreath > s.maxTicks as real * FastRate(s.params, s.archetype)
    ensures !DeadSurvivor(s, prices)
  {
    hide After, FastRate;
    var n := Lifespan(s, prices);
    BreathAtLeast(s, prices, n);
    if Outcome(s, prices).phase.Survival? {
      assert n == s.maxTicks by { SurvivalIsTheCap(s, prices); }
      assert n as real * FastRate(s.params, s.archetype) == s.maxTicks as real * FastRate(s.params, s.archetype);
    }
  }

  lemma SurvivalIsTheCap(s: Setup, prices: seq<real>)
    ensures Outcome(s, prices).phase.Survival? <==> Lifespan(s, prices) == s.maxTicks
  {
  }

  // On the draws below, a tick at the first price is a bet on YES that loses, and one at the second is idle.
  const BET_PRICE := 0.95
  const IDLE_PRICE := 0.5

  function SlowPrice(p: Params, a: Archetype): real {
    if SlowRate(p, a) == BetRate(p) then BET_PRICE else IDLE_PRICE
  }

  function FastPrice(p: Params, a: Archetype): real {
    if FastRate(p, a) == BetRate(p) then BET_PRICE else IDLE_PRICE
  }

  /** Slow ticks first, then fast ones. */
  function Course(p: Params, a: Archetype, slow: nat, n: nat): (r: seq<real>)
    ensures |r| == n && forall k :: 0 <= k < n ==> r[k] == if k < slow then SlowPrice(p, a) else FastPrice(p, a)
  {
    seq(n, k => if k < slow then SlowPrice(p, a) else FastPrice(p, a))
  }

  /** A run of bad luck: every bet is on YES and loses, so that no expansion happens. */
  function Unlucky(p: Params, a: Archetype, bankroll: real, n: nat): Setup {
    Setup(p, a, bankroll, n, _ => 0.0, _ => 0.99)
  }

  /** The breath that `slow` slow and `fast` fast ticks cost. */
  function Cost(p: Params, a: Archetype, slow: nat, fast: nat): real {
    slow as real * SlowRate(p, a) + fast as real * FastRate(p, a)
  }

  lemma CostSteps(p: Params, a: Archetype, slow: nat, fast: nat)
    ensures Cost(p, a, 0, 0) == 0.0
    ensures Cost(p, a, slow + 1, fast) == Cost(p, a, slow, fast) + SlowRate(p, a)
    ensures Cost(p, a, slow, fast + 1) == Cost(p, a, slow, fast) + FastRate(p, a)
  {
    OneMore(slow, SlowRate(p, a));
    OneMore(fast, FastRate(p, a));
  }

  lemma UnluckyTick(s: Setup, l: Life, price: real)
    requires s == Unlucky(s.params, s.archetype, s.initialBankroll, s.maxTicks) && !s.archetype.Unregistered?
    requires l.bankroll <= s.initialBankroll && s.initialBankroll >= 0.0 && s.params.minBetSize >= 0.0
    requires price == BET_PRICE || (price == IDLE_PRICE && !s.archetype.RandomGambler?)
    ensures Tick(s, l, price).bankroll <= s.initialBankroll
    ensures Tick(s, l, price).breath == l.breath - if price == BET_PRICE then BetRate(s.params) else IdleRate(s.params)
  {
    assert ActionOf(s, l, price) == if price == BET_PRICE then Bet(true) else NoBet;
    assert PayoffOf(s, l, price) == if price == BET_PRICE then -BET_PRICE else 0.0;
    assert s.BetSize() >= 0.0;
    hide Setup.BetSize, PayoffOf;
    ProductNotNegative(-PayoffOf(s, l, price), s.BetSize());
    assert Act(s, l, price).bankroll <= l.bankroll;
  }

  lemma {:induction false} UnluckyBreath(p: Params, a: Archetype, bankroll: real, slow: nat, n: nat, k: nat)
    requires !a.Unregistered? && bankroll >= 0.0 && p.minBetSize >= 0.0 && k <= n
    ensures var l := After(Unlucky(p, a, bankroll, n), Course(p, a, slow, n), k);
      l.bankroll <= bankroll
      && l.breath == p.initialBreath - if k <= slow then Cost(p, a, k, 0) else Cost(p, a, slow, k - slow)
  {
    hide Tick, Cost;
    CostSteps(p, a, 0, 0);
    if k > 0 {
      UnluckyBreath(p, a, bankroll, slow, n, k - 1);
      var s, prices := Unlucky(p, a, bankroll, n), Course(p, a, slow, n);
      UnluckyTick(s, After(s, prices, k - 1), prices[k - 1]);
      if k <= slow { CostSteps(p, a, k - 1, 0); } else { CostSteps(p, a, slow, k - 1 - slow); }
    }
  }

  /** How many slow ticks to put first so that the last of n ticks is the fatal one. */
  lemma {:induction false} FatalMix(p: Params, a: Archetype, n: nat, slow: nat) returns (i: nat)
    requires slow < n && SlowRate(p, a) >= 0.0
    requires Cost(p, a, slow, n - 1 - slow) < p.initialBreath <= Cost(p, a, 0, n)
    ensures i < n && Cost(p, a, i, n - 1 - i) < p.initialBreath <= Cost(p, a, i, n - i)
  {
    hide Cost, SlowRate, FastRate;
    if p.initialBreath <= Cost(p, a, slow, n - slow) {
      i := slow;
    } else {
      CostSteps(p, a, slow - 1, n - slow);
      i := FatalMix(p, a, n, slow - 1);
    }
  }

  lemma {:induction false} CostGrows(p: Params, a: Archetype, slow: nat, fast: nat, i: nat, j: nat)
    requires SlowRate(p, a) >= 0.0 && i <= slow && j <= fast
    ensures Cost(p, a, i, j) <= Cost(p, a, slow, fast)
    decreases slow + fast
  {
    assert FastRate(p, a) >= SlowRate(p, a);
    hide Cost, FastRate, SlowRate;
    if i < slow {
      CostGrows(p, a, slow - 1, fast, i, j);
      CostSteps(p, a, slow - 1, fast);
    } else if j < fast {
      CostGrows(p, a, slow, fast - 1, i, j);
      CostSteps(p, a, slow, fast - 1);
    }
  }

  lemma CostOfOneKind(p: Params, a: Archetype, n: nat)
    ensures Cost(p, a, n, 0) == n as real * SlowRate(p, a) && Cost(p, a, 0, n) == n as real * FastRate(p, a)
  {
    hide SlowRate, FastRate;
  }

  /** A life with these parameters, on whatever draws. */
  ghost predicate Plays(s: Setup, p: Params, a: Archetype, bankroll: real, n: nat) {
    s.params == p && s.archetype == a && s.initialBankroll == bankroll && s.maxTicks == n
  }

  /** Prices inside the clipping bounds of both stream generators, and draws from [0, 1). */
  ghost predicate Realistic(s: Setup, prices: seq<real>) {
    && (forall k :: 0 <= k < |prices| ==> 0.05 <= prices[k] <= 0.95)
    && (forall k :: 0.0 <= s.policyDraw(k) < 1.0 && 0.0 <= s.outcomeDraw(k) < 1.0)
  }

  lemma DeadSurvivorExists(p: Params, a: Archetype, bankroll: real, n: nat) returns (s: Setup, prices: seq<real>)
    requires !a.Unregistered? && bankroll >= 0.0 && p.minBetSize >= 0.0 && n >= 1 && SlowRate(p, a) >= 0.0
    requires (n - 1) as real * SlowRate(p, a) < p.initialBreath <= n as real * FastRate(p, a)
    ensures Plays(s, p, a, bankroll, n) && Realistic(s, prices) && DeadSurvivor(s, prices)
  {
    hide After, Cost, SlowRate, FastRate;
    CostOfOneKind(p, a, n - 1);
    CostOfOneKind(p, a, n);
    var i := FatalMix(p, a, n, n - 1);
    s, prices := Unlucky(p, a, bankroll, n), Course(p, a, i, n);
    forall k | 0 <= k < n ensures !Over(s, prices, k) {
      UnluckyBreath(p, a, bankroll, i, n, k);
      CostGrows(p, a, i, n - 1 - i, if k <= i then k else i, if k <= i then 0 else k - i);
    }
    UnluckyBreath(p, a, bankroll, i, n, n);
    EndIsUnique(s, prices, n);
  }

  /**
   Which parameters keep the word Survival honest. Where an agent can reach the cap on
   its initial breath alone, every reported survivor has breath left, on every stream
   the generators could produce, exactly when the initial breath is more than the cap's
   worth of the costliest ticks.
   */
  lemma SurvivorsBreatheIff(p: Params, a: Archetype, bankroll: real, n: nat)
    requires !a.Unregistered? && bankroll >= 0.0 && n >= 1
    requires p.conversionRate >= 0.0 && p.minBetSize >= 0.0 && SlowRate(p, a) >= 0.0
    requires p.initialBreath > (n - 1) as real * SlowRate(p, a)
    ensures (forall s: Setup, prices: seq<real> ::
               Plays(s, p, a, bankroll, n) && Realistic(s, prices) ==> !DeadSurvivor(s, prices))
       <==> p.initialBreath > n as real * FastRate(p, a)
  {
    if p.initialBreath > n as real * FastRate(p, a) {
      forall s: Setup, prices: seq<real> | Plays(s, p, a, bankroll, n)
        ensures !DeadSurvivor(s, prices)
      {
        EnoughBreathSurvives(s, prices);
      }
    } else {
      var s, prices := DeadSurvivorExists(p, a, bankroll, n);
    }
  }

  /** The same setup with room for one more tick. */
  function OneMoreTick(s: Setup): Setup { s.(maxTicks := s.maxTicks + 1) }

  lemma {:induction false} CapDoesNotMatter(s: Setup, prices: seq<real>, n: nat)
    requires n <= |prices|
    ensures After(OneMoreTick(s), prices, n) == After(s, prices, n)
  {
    if n > 0 {
      CapDoesNotMatter(s, prices, n - 1);
      SameTick(OneMoreTick(s), s, After(s, prices, n - 1), prices[n - 1]);
    }
  }

  /**
   Survival is awarded without looking at the breath: a survivor has none left exactly
   when, with one more tick allowed, the very same life, no tick longer, is classified
   as a death.
   */
  lemma SurvivorsMayBeDead(s: Setup, prices: seq<real>)
    requires Outcome(s, prices).phase.Survival?
    ensures var r, r' := Outcome(s, prices), Outcome(OneMoreTick(s), prices);
      DeadSurvivor(s, prices) <==>
        !RanOut(OneMoreTick(s), prices) && r'.ticksSurvived == r.ticksSurvived
        && r'.phase == ClassifyDeath(r.finalBankroll, r.desperate)
  {
    var t, n := OneMoreTick(s), Lifespan(s, prices);
    assert n == s.maxTicks;
    CapDoesNotMatter(s, prices, n);
    forall k | 0 <= k < n ensures !Over(t, prices, k) {
      CapDoesNotMatter(s, prices, k);
      assert !Over(s, prices, k);
    }
    if After(s, prices, n).breath <= 0.0 || n == |prices| {
      EndIsUnique(t, prices, n);
    } else {
      assert !Over(t, prices, n);
      assert Over(t, prices, Lifespan(t, prices));
    }
  }
}
