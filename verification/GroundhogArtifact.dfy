/** The artifact of a run, and the validator that must pass before it is written. */
module GroundhogArtifact {
  import opened Markets
  import opened Strategy
  import opened StableSort
  import opened Sums
  import opened Groundhog

  datatype TributeTotals = TributeTotals(revenue: real, best: real, revivalEarnings: real)

  datatype TitheTotals = TitheTotals(revenue: real, best: real, breathTaken: real)

  datatype Rebirth = Rebirth(expected: nat, calls: nat, productive: nat, proposals: nat, applied: nat)

  datatype Metric = Metric(value: real, fromAdvice: bool, productive: nat, evaluable: bool)

  datatype Artifact = Artifact(
    survived: bool,
    survivingIncarnation: Option<nat>,
    headline: real,
    tributes: Option<TributeTotals>,
    tithes: Option<TitheTotals>,
    rebirth: Rebirth,
    metric: Option<Metric>,
    incarnations: seq<Entry>)

  // ------------------------------------------------------------------- the validator

  predicate DeadScoreNothing(e: Entry) { e.died ==> e.scoredPnl == 0.0 }

  predicate TitheBalances(e: Entry) {
    var events := if e.tithes.Some? then e.tithes.value.events else [];
    Near(CashOf(e), Total(Cash(events))) && Near(BreathOf(e), Total(BreathCosts(events)))
  }

  predicate TributeBalances(e: Entry) {
    e.tributes.Some? ==>
      && e.tributes.value.paid == Total(Amounts(e.tributes.value.events))
      && e.tributes.value.net == e.pnlAtDeath - e.tributes.value.paid
  }

  predicate RevivalBalances(e: Entry) {
    e.tributes.Some? && e.tributes.value.events != [] ==>
      e.tributes.value.revivalEarnings == Some(e.pnlAtDeath - e.tributes.value.events[0].pnlAtEvent)
  }

  function ExpectedScore(e: Entry): real {
    if e.tributes.Some? then e.tributes.value.net else e.pnlAtDeath
  }

  predicate TributeTotalsBalance(a: Artifact) {
    a.tributes.Some? ==>
      && a.tributes.value.revenue == Total(Map(a.incarnations, PaidOf))
      && a.tributes.value.best == Best(Map(a.incarnations, PaidOf))
  }

  predicate TitheTotalsBalance(a: Artifact) {
    a.tithes.Some? ==>
      && (forall e :: e in a.incarnations ==> TitheBalances(e))
      && Near(a.tithes.value.revenue, Total(Map(a.incarnations, CashOf)))
      && Near(a.tithes.value.best, Best(Map(a.incarnations, CashOf)))
  }

  predicate CappedOutHolds(a: Artifact) {
    && a.headline == 0.0 && a.survivingIncarnation.None?
    && (forall e :: e in a.incarnations ==> e.died)
    && (forall e :: e in a.incarnations ==> TributeBalances(e))
    && TributeTotalsBalance(a)
  }

  predicate SurvivorRowHolds(a: Artifact) {
    && a.survivingIncarnation.Some? && 1 <= a.survivingIncarnation.value <= |a.incarnations|
    && var row := a.incarnations[a.survivingIncarnation.value - 1];
       !row.died && row.scoredPnl == ExpectedScore(row) && a.headline == row.scoredPnl
  }

  predicate SurvivorHolds(a: Artifact) {
    && SurvivorRowHolds(a)
    && (forall e :: e in a.incarnations ==> TributeBalances(e) && RevivalBalances(e))
    && TributeTotalsBalance(a)
  }

  /** Exactly the artifacts the validator lets through. */
  predicate ScoringHolds(a: Artifact) {
    && (forall e :: e in a.incarnations ==> DeadScoreNothing(e))
    && TitheTotalsBalance(a)
    && if a.survived then SurvivorHolds(a) else CappedOutHolds(a)
  }

  method ValidateTithes(a: Artifact) returns (r: Result<()>)
    ensures r.Ok? <==> TitheTotalsBalance(a)
  {
    if a.tithes.None? {
      return Ok(());
    }
    for i := 0 to |a.incarnations|
      invariant forall j :: 0 <= j < i ==> TitheBalances(a.incarnations[j])
    {
      if !TitheBalances(a.incarnations[i]) {
        return Err("tithe accounting: incarnation");
      }
    }
    if !Near(a.tithes.value.revenue, Total(Map(a.incarnations, CashOf))) {
      return Err("tithe accounting: revenue");
    }
    if !Near(a.tithes.value.best, Best(Map(a.incarnations, CashOf))) {
      return Err("tithe accounting: best");
    }
    return Ok(());
  }

  method ValidateTributes(a: Artifact, withRevival: bool) returns (r: Result<()>)
    ensures r.Ok? <==>
      && (forall e :: e in a.incarnations ==> TributeBalances(e) && (withRevival ==> RevivalBalances(e)))
      && TributeTotalsBalance(a)
  {
    for i := 0 to |a.incarnations|
      invariant forall j :: 0 <= j < i ==>
        TributeBalances(a.incarnations[j]) && (withRevival ==> RevivalBalances(a.incarnations[j]))
    {
      var e := a.incarnations[i];
      if !TributeBalances(e) || (withRevival && !RevivalBalances(e)) {
        return Err("tribute accounting: incarnation");
      }
    }
    if !TributeTotalsBalance(a) {
      return Err("tribute accounting: revenue");
    }
    return Ok(());
  }

  method ValidateGroundhogScoring(a: Artifact) returns (r: Result<()>)
    ensures r.Ok? <==> ScoringHolds(a)
  {
    for i := 0 to |a.incarnations|
      invariant forall j :: 0 <= j < i ==> DeadScoreNothing(a.incarnations[j])
    {
      if a.incarnations[i].died && a.incarnations[i].scoredPnl != 0.0 {
        assert a.incarnations[i] in a.incarnations && !DeadScoreNothing(a.incarnations[i]);
        return Err("dead incarnation scored");
      }
    }
    r := ValidateTithes(a);
    if r.Err? {
      return;
    }
    if !a.survived {
      if a.headline != 0.0 || a.survivingIncarnation.Some? || !(forall e :: e in a.incarnations ==> e.died) {
        return Err("capped-out artifact");
      }
      r := ValidateTributes(a, false);
    } else {
      if a.survivingIncarnation.None? || !(1 <= a.survivingIncarnation.value <= |a.incarnations|) {
        return Err("survivor pointer");
      }
      var row := a.incarnations[a.survivingIncarnation.value - 1];
      if row.died {
        return Err("survivor row is dead");
      }
      if row.scoredPnl != ExpectedScore(row) {
        return Err("survivor score");
      }
      if a.headline != row.scoredPnl {
        return Err("headline");
      }
      r := ValidateTributes(a, true);
    }
  }

  // --------------------------------------------------------------- putting it together

  function CountCalls(es: seq<Entry>): nat {
    if es == [] then 0 else CountCalls(es[..|es| - 1]) + if es[|es| - 1].advisor.called then 1 else 0
  }

  function CountProductive(es: seq<Entry>): nat {
    if es == [] then 0 else CountProductive(es[..|es| - 1]) + if es[|es| - 1].advisor.proposals > 0 then 1 else 0
  }

  function SumProposals(es: seq<Entry>): nat {
    if es == [] then 0 else SumProposals(es[..|es| - 1]) + es[|es| - 1].advisor.proposals
  }

  function SumApplied(es: seq<Entry>): nat {
    if es == [] then 0 else SumApplied(es[..|es| - 1]) + es[|es| - 1].advisor.applied
  }

  function CountDied(es: seq<Entry>): nat {
    if es == [] then 0 else CountDied(es[..|es| - 1]) + if es[|es| - 1].died then 1 else 0
  }

  function RevivalOf(e: Entry): real {
    if e.tributes.Some? && e.tributes.value.revivalEarnings.Some? then e.tributes.value.revivalEarnings.value else 0.0
  }

  /** The genome the last advised death left behind, if any death was advised. */
  function LastAdvice(es: seq<Entry>): Option<Genome> {
    if es == [] then None
    else if es[|es| - 1].carryGenomeAfter.Some? then es[|es| - 1].carryGenomeAfter
    else LastAdvice(es[..|es| - 1])
  }

  const MIN_PRODUCTIVE: nat := 3

  function FalsificationMetric(es: seq<Entry>, productive: nat): Metric
    requires es != [] && es[|es| - 1].startGenome.Some?
  {
    var advice := LastAdvice(es);
    Metric(if advice.Some? then advice.value.gateStorm else es[|es| - 1].startGenome.value.gateStorm,
           advice.Some?, productive, productive >= MIN_PRODUCTIVE)
  }

  method ComputeFalsificationMetric(es: seq<Entry>, productive: nat) returns (m: Metric)
    requires es != [] && es[|es| - 1].startGenome.Some?
    ensures m == FalsificationMetric(es, productive)
  {
    var i := |es|;
    assert es[..i] == es;
    while i > 0 && es[i - 1].carryGenomeAfter.None?
      invariant 0 <= i <= |es| && LastAdvice(es) == LastAdvice(es[..i])
    {
      assert es[..i][..i - 1] == es[..i - 1];
      i := i - 1;
    }
    var value := if i > 0 then es[i - 1].carryGenomeAfter.value.gateStorm else es[|es| - 1].startGenome.value.gateStorm;
    return Metric(value, i > 0, productive, productive >= MIN_PRODUCTIVE);
  }

  function SumTributes(es: seq<Entry>): TributeTotals {
    TributeTotals(Total(Map(es, PaidOf)), Best(Map(es, PaidOf)), Total(Map(es, RevivalOf)))
  }

  function SumTithes(es: seq<Entry>): TitheTotals {
    TitheTotals(Total(Map(es, CashOf)), Best(Map(es, CashOf)), Total(Map(es, BreathOf)))
  }

  /** What is written for a finished run. */
  function Assemble(o: Options, es: seq<Entry>): Artifact
    requires es != [] && (o.storm ==> es[|es| - 1].startGenome.Some?)
  {
    var last := es[|es| - 1];
    Artifact(
      !last.died,
      if last.died then None else Some(|es|),
      if last.died then 0.0 else last.scoredPnl,
      if o.tribute then Some(SumTributes(es)) else None,
      if o.tithe then Some(SumTithes(es)) else None,
      Rebirth(if o.ai then CountDied(es[..|es| - 1]) else 0,
              CountCalls(es), CountProductive(es), SumProposals(es), SumApplied(es)),
      if o.storm then Some(FalsificationMetric(es, CountProductive(es))) else None,
      es)
  }
}
