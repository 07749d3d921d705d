/** The loop of the experiment, and what holds of every artifact it writes. */
module GroundhogRun {
  import opened Markets
  import opened Strategy
  import opened StableSort
  import opened Sums
  import opened Groundhog
  import opened GroundhogArtifact

  // ------------------------------------------------------------ the shape of a run

  /** A list of lives that can only go on after a death, and only up to the cap. */
  ghost predicate Numbered(o: Options, es: seq<Entry>, k: nat) {
    && es != [] && |es| <= o.maxIncarnations - k + 1
    && (forall i :: 0 <= i < |es| ==> es[i].incarnation == k + i)
    && (forall i :: 0 <= i < |es| - 1 ==> es[i].died)
    && (es[|es| - 1].died ==> |es| == o.maxIncarnations - k + 1)
  }

  lemma {:induction false} RunShape(o: Options, k: nat, carry: StrategyConfig)
    requires WellFormedSeasons(o) && 1 <= k <= o.maxIncarnations && Lives(o, k, carry).Some?
    ensures Numbered(o, Lives(o, k, carry).value.entries, k)
    decreases o.maxIncarnations - k
  {
    var life := o.season(k, carry).value;
    if life.died && k < o.maxIncarnations {
      RunShape(o, k + 1, CarryOut(o, k, carry, life));
    }
  }

  /** One record agrees with the books of the life it records. */
  ghost predicate HonestRecord(o: Options, e: Entry) {
    && DeadScoreNothing(e) && TributeBalances(e) && RevivalBalances(e) && TitheBalances(e)
    && (!e.died ==> e.scoredPnl == ExpectedScore(e))
    && (e.tributes.Some? <==> o.tribute)
    && (e.tithes.Some? ==> e.tithes.value.cash == Total(Cash(e.tithes.value.events))
                           && e.tithes.value.breath == Total(BreathCosts(e.tithes.value.events)))
    && (e.startGenome.Some? <==> o.storm)
    && (e.carryGenomeAfter.Some? ==> o.storm)
    && (e.advisor.called <==> e.died && o.ai && e.incarnation < o.maxIncarnations)
  }

  lemma RecordIsHonest(o: Options, k: nat, carry: StrategyConfig, life: Life)
    requires WellFormed(life.terminal)
    ensures HonestRecord(o, FinalRecord(o, k, carry, life))
  {
    hide Classify, Advised, Total;
    assert Near(Total(Cash(life.tithes)), Total(Cash(life.tithes)));
    var none: seq<Tithe> := [];
    assert Cash(none) == [] && BreathCosts(none) == [];
    assert Total([]) == 0.0 by { TotalOfNothing(); }
  }

  lemma {:induction false} RecordsAreHonest(o: Options, k: nat, carry: StrategyConfig, i: nat)
    requires WellFormedSeasons(o) && 1 <= k <= o.maxIncarnations && Lives(o, k, carry).Some?
    requires i < |Lives(o, k, carry).value.entries|
    ensures HonestRecord(o, Lives(o, k, carry).value.entries[i])
    decreases o.maxIncarnations - k
  {
    hide HonestRecord;
    var life := o.season(k, carry).value;
    RecordIsHonest(o, k, carry, life);
    if i > 0 {
      RecordsAreHonest(o, k + 1, CarryOut(o, k, carry, life), i - 1);
    }
  }

  ghost predicate AllHonest(o: Options, es: seq<Entry>) {
    forall i :: 0 <= i < |es| ==> HonestRecord(o, es[i])
  }

  /** A whole run, from the first incarnation, with honest books. */
  ghost predicate Played(o: Options, es: seq<Entry>)
    ensures Played(o, es) ==> es != [] && (es[|es| - 1].startGenome.Some? <==> o.storm)
  {
    Numbered(o, es, 1) && AllHonest(o, es)
  }

  lemma RunIsPlayed(o: Options, seed: StrategyConfig)
    requires WellFormedSeasons(o) && 1 <= o.maxIncarnations && Lives(o, 1, seed).Some?
    ensures Played(o, Lives(o, 1, seed).value.entries)
  {
    hide HonestRecord;
    RunShape(o, 1, seed);
    forall i | 0 <= i < |Lives(o, 1, seed).value.entries| ensures HonestRecord(o, Lives(o, 1, seed).value.entries[i]) {
      RecordsAreHonest(o, 1, seed, i);
    }
  }

  // -------------------------------------------------- the loop and the validator agree

  lemma PlayedPasses(o: Options, es: seq<Entry>)
    requires Played(o, es)
    ensures ScoringHolds(Assemble(o, es))
  {
    hide TitheBalances, TributeBalances, RevivalBalances, FalsificationMetric, Map, Total, Best;
    var a, last := Assemble(o, es), es[|es| - 1];
    forall e | e in es && last.died ensures e.died {
      var i :| 0 <= i < |es| && es[i] == e;
    }
  }

  lemma {:induction false} CallsMatchDeaths(o: Options, es: seq<Entry>)
    requires AllHonest(o, es) && forall i :: 0 <= i < |es| ==> es[i].incarnation < o.maxIncarnations
    ensures CountCalls(es) == if o.ai then CountDied(es) else 0
  {
    hide TitheBalances, TributeBalances, RevivalBalances;
    if es != [] {
      var front, last := es[..|es| - 1], es[|es| - 1];
      CallsMatchDeaths(o, front);
    }
  }

  lemma PlayedCalls(o: Options, es: seq<Entry>)
    requires Played(o, es)
    ensures Assemble(o, es).rebirth.calls == Assemble(o, es).rebirth.expected
    ensures o.ai ==> Assemble(o, es).rebirth.calls == |es| - 1
  {
    hide TitheBalances, TributeBalances, RevivalBalances, FalsificationMetric, Map, Total, Best;
    var front, last := es[..|es| - 1], es[|es| - 1];
    CallsMatchDeaths(o, front);
    AllDied(front);
    assert !last.advisor.called;
  }

  lemma {:induction false} AllDied(es: seq<Entry>)
    requires forall i :: 0 <= i < |es| ==> es[i].died
    ensures CountDied(es) == |es|
  {
    if es != [] {
      AllDied(es[..|es| - 1]);
    }
  }

  function ScoreOf(e: Entry): real { e.scoredPnl }

  lemma {:induction false} DeadScoreZero(es: seq<Entry>)
    requires forall i :: 0 <= i < |es| ==> es[i].died && es[i].scoredPnl == 0.0
    ensures Total(Map(es, ScoreOf)) == 0.0
  {
    if es != [] {
      DeadScoreZero(es[..|es| - 1]);
      assert Map(es, ScoreOf)[..|es| - 1] == Map(es[..|es| - 1], ScoreOf);
    }
  }

  lemma PlayedScores(o: Options, es: seq<Entry>)
    requires Played(o, es)
    ensures Total(Map(es, ScoreOf)) == Assemble(o, es).headline
  {
    hide TitheBalances, TributeBalances, RevivalBalances, FalsificationMetric;
    var front, last := es[..|es| - 1], es[|es| - 1];
    forall i | 0 <= i < |front| ensures front[i].died && front[i].scoredPnl == 0.0 {
      assert HonestRecord(o, es[i]);
    }
    DeadScoreZero(front);
    assert Map(es, ScoreOf)[..|front|] == Map(front, ScoreOf);
  }

  function AllTributes(es: seq<Entry>): seq<real> {
    if es == [] then []
    else
      var last := es[|es| - 1];
      AllTributes(es[..|es| - 1]) + if last.tributes.Some? then Amounts(last.tributes.value.events) else []
  }

  lemma {:induction false} PaidIsEveryOffering(es: seq<Entry>)
    requires forall i :: 0 <= i < |es| ==> TributeBalances(es[i])
    ensures Total(Map(es, PaidOf)) == Total(AllTributes(es))
  {
    if es != [] {
      var front, last := es[..|es| - 1], es[|es| - 1];
      PaidIsEveryOffering(front);
      assert Map(es, PaidOf)[..|front|] == Map(front, PaidOf);
      TotalConcat(AllTributes(front), if last.tributes.Some? then Amounts(last.tributes.value.events) else []);
    }
  }

  function AllTithes(es: seq<Entry>): seq<Tithe> {
    if es == [] then []
    else
      var last := es[|es| - 1];
      AllTithes(es[..|es| - 1]) + TithesOf(last)
  }

  function TithesOf(e: Entry): seq<Tithe> { if e.tithes.Some? then e.tithes.value.events else [] }

  lemma BookedTithes(o: Options, e: Entry)
    requires HonestRecord(o, e)
    ensures CashOf(e) == Total(Cash(TithesOf(e))) && BreathOf(e) == Total(BreathCosts(TithesOf(e)))
  {
    if e.tithes.None? {
      assert Cash(TithesOf(e)) == [] && BreathCosts(TithesOf(e)) == [];
      TotalOfNothing();
    }
  }

  lemma {:induction false} TakenIsEveryTithe(o: Options, es: seq<Entry>)
    requires AllHonest(o, es)
    ensures Total(Map(es, CashOf)) == Total(Cash(AllTithes(es)))
    ensures Total(Map(es, BreathOf)) == Total(BreathCosts(AllTithes(es)))
  {
    hide HonestRecord, Total;
    if es != [] {
      var front, last := es[..|es| - 1], es[|es| - 1];
      var events := TithesOf(last);
      TakenIsEveryTithe(o, front);
      BookedTithes(o, last);
      assert es == front + [last];
      MapPush(front, last, CashOf);
      MapPush(front, last, BreathOf);
      TotalPush(Map(front, CashOf), CashOf(last));
      TotalPush(Map(front, BreathOf), BreathOf(last));
      assert Cash(AllTithes(es)) == Cash(AllTithes(front)) + Cash(events);
      assert BreathCosts(AllTithes(es)) == BreathCosts(AllTithes(front)) + BreathCosts(events);
      TotalConcat(Cash(AllTithes(front)), Cash(events));
      TotalConcat(BreathCosts(AllTithes(front)), BreathCosts(events));
    } else {
      assert Cash(AllTithes(es)) == [] && BreathCosts(AllTithes(es)) == [];
      assert Map(es, CashOf) == [] && Map(es, BreathOf) == [];
    }
  }

  /** The seasons yield a run: the cap is positive and no season comes back without a life. */
  ghost predicate Runs(o: Options, seed: StrategyConfig) {
    WellFormedSeasons(o) && 1 <= o.maxIncarnations && Lives(o, 1, seed).Some?
  }

  ghost function Entries(o: Options, seed: StrategyConfig): seq<Entry>
    requires Runs(o, seed)
  {
    Lives(o, 1, seed).value.entries
  }

  /** The artifact of a run. */
  ghost function Written(o: Options, seed: StrategyConfig): Artifact
    requires Runs(o, seed)
  {
    RunIsPlayed(o, seed);
    Assemble(o, Entries(o, seed))
  }

  /** Whatever lives and proposals come back, the artifact passes its validator. */
  lemma ArtifactPassesValidator(o: Options, seed: StrategyConfig)
    requires Runs(o, seed)
    ensures ScoringHolds(Written(o, seed))
  {
    hide Played, Lives, ScoringHolds;
    RunIsPlayed(o, seed);
    PlayedPasses(o, Entries(o, seed));
  }

  /** Every death with a successor was put before the advisor, and nothing else was. */
  lemma AdvisorSawEveryDeath(o: Options, seed: StrategyConfig)
    requires Runs(o, seed)
    ensures Written(o, seed).rebirth.calls == Written(o, seed).rebirth.expected
    ensures o.ai ==> Written(o, seed).rebirth.calls == |Entries(o, seed)| - 1
  {
    hide Played, Lives;
    RunIsPlayed(o, seed);
    PlayedCalls(o, Entries(o, seed));
  }

  /** The scores of all lives add up to the headline: only a surviving life scores. */
  lemma ScoresAddUpToHeadline(o: Options, seed: StrategyConfig)
    requires Runs(o, seed)
    ensures Total(Map(Entries(o, seed), ScoreOf)) == Written(o, seed).headline
  {
    hide Played, Lives;
    RunIsPlayed(o, seed);
    PlayedScores(o, Entries(o, seed));
  }

  /** The gods' revenue in the artifact is the sum of every single offering made in the run. */
  lemma RevenueIsEveryOffering(o: Options, seed: StrategyConfig)
    requires Runs(o, seed)
    ensures Written(o, seed).tributes.Some? <==> o.tribute
    ensures o.tribute ==> Written(o, seed).tributes.value.revenue == Total(AllTributes(Entries(o, seed)))
  {
    hide Lives, TitheBalances, RevivalBalances, TributeBalances;
    RunIsPlayed(o, seed);
    assert forall i :: 0 <= i < |Entries(o, seed)| ==> HonestRecord(o, Entries(o, seed)[i]);
    PaidIsEveryOffering(Entries(o, seed));
  }

  /** The tithe revenue and the breath taken in the artifact are the sums over every single tithe of the run. */
  lemma TithesAreEveryTithe(o: Options, seed: StrategyConfig)
    requires Runs(o, seed)
    ensures Written(o, seed).tithes.Some? <==> o.tithe
    ensures o.tithe ==>
      && Written(o, seed).tithes.value.revenue == Total(Cash(AllTithes(Entries(o, seed))))
      && Written(o, seed).tithes.value.breathTaken == Total(BreathCosts(AllTithes(Entries(o, seed))))
  {
    hide Lives, HonestRecord;
    RunIsPlayed(o, seed);
    TakenIsEveryTithe(o, Entries(o, seed));
  }

  // ------------------------------------------------------ what any accepted artifact says

  function Living(es: seq<Entry>): nat {
    if es == [] then 0 else Living(es[..|es| - 1]) + if es[|es| - 1].died then 0 else 1
  }

  lemma {:induction false} NoneLiving(es: seq<Entry>)
    requires forall e :: e in es ==> (e.died ==> e.scoredPnl == 0.0)
    requires Living(es) == 0
    ensures Total(Map(es, ScoreOf)) == 0.0 && forall e :: e in es ==> e.died
  {
    if es != [] {
      var front, last := es[..|es| - 1], es[|es| - 1];
      NoneLiving(front);
      assert es == front + [last];
      assert Map(es, ScoreOf)[..|front|] == Map(front, ScoreOf);
    }
  }

  lemma {:induction false} OneLiving(es: seq<Entry>, i: nat)
    requires forall e :: e in es ==> (e.died ==> e.scoredPnl == 0.0)
    requires Living(es) == 1 && i < |es| && !es[i].died
    ensures Total(Map(es, ScoreOf)) == es[i].scoredPnl
  {
    var front, last := es[..|es| - 1], es[|es| - 1];
    assert es == front + [last];
    assert Map(es, ScoreOf)[..|front|] == Map(front, ScoreOf);
    if i == |front| {
      NoneLiving(front);
    } else {
      SomeLiving(front, i);
      OneLiving(front, i);
    }
  }

  lemma {:induction false} LivingIsZero(es: seq<Entry>)
    requires forall e :: e in es ==> e.died
    ensures Living(es) == 0
  {
    if es != [] {
      LivingIsZero(es[..|es| - 1]);
    }
  }

  /** What a life earned, less every offering it lists. */
  function NetOf(e: Entry): real {
    if e.tributes.Some? then e.pnlAtDeath - Total(Amounts(e.tributes.value.events)) else e.pnlAtDeath
  }

  /**
   Any artifact the validator accepts, wherever it comes from: the dead score nothing; a
   capped-out one has no survivor and no headline; one with a single living row has that
   row's score, which is its net or gross pnl, as the headline and as the sum of all
   scores; and the gods' revenue is the sum of every offering listed.
   */
  lemma AcceptedArtifactAddsUp(a: Artifact)
    requires ScoringHolds(a)
    ensures forall e :: e in a.incarnations && e.died ==> e.scoredPnl == 0.0
    ensures !a.survived ==> a.headline == 0.0 && Living(a.incarnations) == 0 && a.survivingIncarnation.None?
    ensures a.survived ==> exists e :: e in a.incarnations && !e.died && e.scoredPnl == a.headline == NetOf(e)
    ensures Living(a.incarnations) <= 1 ==> Total(Map(a.incarnations, ScoreOf)) == a.headline
    ensures a.tributes.Some? ==> a.tributes.value.revenue == Total(AllTributes(a.incarnations))
  {
    hide TitheBalances, RevivalBalances, Total, Best;
    var es := a.incarnations;
    PaidIsEveryOffering(es);
    if a.survived {
      var i := a.survivingIncarnation.value - 1;
      assert es[i] in es && !es[i].died && a.headline == es[i].scoredPnl;
      SomeLiving(es, i);
      if Living(es) == 1 {
        OneLiving(es, i);
      }
    } else {
      LivingIsZero(es);
      NoneLiving(es);
    }
  }

  lemma {:induction false} SomeLiving(es: seq<Entry>, i: nat)
    requires i < |es| && !es[i].died
    ensures Living(es) >= 1
  {
    if i < |es| - 1 {
      SomeLiving(es[..|es| - 1], i);
    }
  }

  // ------------------------------------------------------ the strategy that is carried

  ghost predicate SoundSeasons(o: Options) {
    WellFormedSeasons(o) && forall k, c :: o.season(k, c).Some? ==> ValidWeights(o.season(k, c).value.terminal)
  }

  /** One life and its advice keep a valid strategy valid; without the kit no knob moves. */
  lemma CarryStaysSound(o: Options, k: nat, carry: StrategyConfig, life: Life)
    requires ValidWeights(life.terminal) && InBounds(carry.genome)
    ensures var next := CarryOut(o, k, carry, life);
      && ValidWeights(next.weights) && InBounds(next.genome)
      && (!o.storm ==> next.genome == carry.genome)
      && next.minBetSize == carry.minBetSize && next.explorationEpsilon == carry.explorationEpsilon
  {
    hide ValidWeights, WithDeltas, Classify, TurnAll;
    assert WellFormed(life.terminal) by { Shape(life.terminal); }
    if Consulted(o, k, life) && o.advisor(k) != [] {
      var c := Classify(o.advisor(k), o.storm);
      DeltasKeepWeightsValid(life.terminal, c.fusion);
      KnobsInBounds(carry.genome, c.genome);
    }
  }

  lemma Shape(w: Weights)
    requires ValidWeights(w)
    ensures WellFormed(w)
  {
  }

  lemma KnobsInBounds(g: Genome, deltas: seq<Proposal>)
    requires InBounds(g)
    ensures InBounds(TurnAll(g, deltas))
  {
    hide TurnAll, Touched;
    forall k ensures KnobLow(k) <= TurnAll(g, deltas).Get(k) <= KnobHigh(k) {
      KnobsStayInBounds(g, deltas, k);
    }
  }

  ghost predicate SoundEntry(e: Entry) {
    && ValidWeights(e.startWeights) && ValidWeights(e.terminalWeights)
    && (e.startGenome.Some? ==> InBounds(e.startGenome.value))
    && (e.carryGenomeAfter.Some? ==> InBounds(e.carryGenomeAfter.value))
  }

  /** From a valid seed every strategy in the run, start, end, after advice and into the holdout, is valid. */
  lemma {:induction false} RunStaysSound(o: Options, k: nat, carry: StrategyConfig)
    requires SoundSeasons(o) && 1 <= k <= o.maxIncarnations && Lives(o, k, carry).Some?
    requires ValidWeights(carry.weights) && InBounds(carry.genome)
    ensures var r := Lives(o, k, carry).value;
      && (forall i :: 0 <= i < |r.entries| ==> SoundEntry(r.entries[i]))
      && ValidWeights(r.carry.weights) && InBounds(r.carry.genome)
      && (!o.storm ==> r.carry.genome == carry.genome)
      && r.carry.minBetSize == carry.minBetSize && r.carry.explorationEpsilon == carry.explorationEpsilon
    decreases o.maxIncarnations - k
  {
    hide ValidWeights, InBounds, CarryOut;
    var life := o.season(k, carry).value;
    var next := CarryOut(o, k, carry, life);
    CarryStaysSound(o, k, carry, life);
    RecordIsSound(o, k, carry, life);
    if life.died && k < o.maxIncarnations {
      RunStaysSound(o, k + 1, next);
      var rest := Lives(o, k + 1, next).value.entries;
      forall i | 0 < i <= |rest| ensures SoundEntry(Lives(o, k, carry).value.entries[i]) {
        assert SoundEntry(rest[i - 1]);
      }
    }
  }

  lemma RecordIsSound(o: Options, k: nat, carry: StrategyConfig, life: Life)
    requires ValidWeights(life.terminal) && ValidWeights(carry.weights) && InBounds(carry.genome)
    ensures WellFormed(life.terminal) && SoundEntry(FinalRecord(o, k, carry, life))
  {
    hide ValidWeights, InBounds, Classify, CarryOut, BookTributes, BookTithes, Scored;
    Shape(life.terminal);
    CarryStaysSound(o, k, carry, life);
  }

  // ------------------------------------------------------------ the pre-registered metric

  function LatestGenome(es: seq<Entry>): Option<Genome>
    requires es != []
  {
    if LastAdvice(es).Some? then LastAdvice(es) else es[|es| - 1].startGenome
  }

  lemma {:induction false} LastAdvicePrepend(e: Entry, es: seq<Entry>)
    ensures LastAdvice([e] + es) == if LastAdvice(es).Some? then LastAdvice(es) else e.carryGenomeAfter
  {
    if es != [] {
      LastAdvicePrepend(e, es[..|es| - 1]);
      assert ([e] + es)[..|es|] == [e] + es[..|es| - 1];
    } else {
      assert [e] + es == [e];
      assert [e][..0] == [];
    }
  }

  lemma {:induction false} GenomeTrail(o: Options, k: nat, carry: StrategyConfig)
    requires WellFormedSeasons(o) && o.storm && 1 <= k <= o.maxIncarnations && Lives(o, k, carry).Some?
    ensures Lives(o, k, carry).value.entries != []
    ensures LastAdvice(Lives(o, k, carry).value.entries).None? ==> Lives(o, k, carry).value.carry.genome == carry.genome
    ensures LatestGenome(Lives(o, k, carry).value.entries) == Some(Lives(o, k, carry).value.carry.genome)
    decreases o.maxIncarnations - k
  {
    hide Classify, TurnAll, WithDeltas, BookTributes, BookTithes, Scored;
    var life := o.season(k, carry).value;
    var e, next := FinalRecord(o, k, carry, life), CarryOut(o, k, carry, life);
    assert e.carryGenomeAfter == None ==> next.genome == carry.genome;
    assert e.carryGenomeAfter.Some? ==> e.carryGenomeAfter == Some(next.genome);
    if life.died && k < o.maxIncarnations {
      GenomeTrail(o, k + 1, next);
      LastAdvicePrepend(e, Lives(o, k + 1, next).value.entries);
    } else {
      LastAdvicePrepend(e, []);
      assert [e] + [] == [e];
      assert e.carryGenomeAfter.None?;
    }
  }

  /** The metric read off the artifact is the gamma the holdout really starts from. */
  lemma MetricIsHoldoutGamma(o: Options, seed: StrategyConfig)
    requires Runs(o, seed)
    ensures Written(o, seed).metric.Some? <==> o.storm
    ensures o.storm ==>
      var a := Written(o, seed);
      && a.metric.value.value == Lives(o, 1, seed).value.carry.genome.gateStorm
      && a.metric.value.productive == a.rebirth.productive && (a.metric.value.evaluable <==> a.rebirth.productive >= 3)
  {
    hide HonestRecord, Lives;
    RunIsPlayed(o, seed);
    if o.storm {
      GenomeTrail(o, 1, seed);
    }
  }

  // ----------------------------------------------------------------------- the loop

  ghost function Prepend(es: seq<Entry>, r: Option<Run>): Option<Run> {
    match r
    case None => None
    case Some(run) => Some(Run(es + run.entries, run.carry))
  }

  ghost predicate AllAbove(floor: real, prices: seq<real>) { forall i :: 0 <= i < |prices| ==> prices[i] >= floor }

  function PricesOf(es: seq<Entry>): seq<real> {
    if es == [] then [] else PricesOf(es[..|es| - 1]) + es[|es| - 1].entryPrices
  }

  /** The body of the loop after a season has been lived: the record, the advice, the strategy passed on. */
  method RecordLife(o: Options, k: nat, carry: StrategyConfig, life: Life) returns (entry: Entry, next: StrategyConfig)
    requires WellFormed(life.terminal)
    ensures entry == FinalRecord(o, k, carry, life) && next == CarryOut(o, k, carry, life)
  {
    entry := Record(o, k, carry, life);
    next := carry.(weights := life.terminal);
    if life.died && o.ai && k < o.maxIncarnations {
      var proposals := o.advisor(k);
      var classified := ClassifyProposals(proposals, o.storm);
      if proposals != [] {
        var weights := ApplyWeightDeltas(life.terminal, classified.fusion);
        next := next.(weights := weights);
        if o.storm && classified.genome != [] {
          next := ApplyGenomeDeltas(next, classified.genome);
        }
        if o.storm {
          entry := entry.(carryGenomeAfter := Some(next.genome));
        }
      }
      entry := entry.(advisor := AdvisorNote(true, |proposals|, classified.Applied()));
    }
  }

  datatype Tally = Tally(calls: nat, productive: nat, proposals: nat, applied: nat)

  function TallyOf(es: seq<Entry>): Tally {
    Tally(CountCalls(es), CountProductive(es), SumProposals(es), SumApplied(es))
  }

  function Counted(t: Tally, e: Entry): Tally {
    Tally(t.calls + if e.advisor.called then 1 else 0, t.productive + if e.advisor.proposals > 0 then 1 else 0,
          t.proposals + e.advisor.proposals, t.applied + e.advisor.applied)
  }

  lemma CountOneMore(es: seq<Entry>, e: Entry)
    ensures TallyOf(es + [e]) == Counted(TallyOf(es), e)
    ensures PricesOf(es + [e]) == PricesOf(es) + e.entryPrices
  {
    assert (es + [e])[..|es|] == es;
  }

  lemma PrependNothing(r: Option<Run>)
    ensures Prepend([], r) == r
  {
    if r.Some? {
      assert [] + r.value.entries == r.value.entries;
    }
  }

  /** The incarnation loop itself. */
  method LiveAll(o: Options, seed: StrategyConfig)
    returns (ok: bool, es: seq<Entry>, carry: StrategyConfig, tally: Tally, prices: seq<real>)
    requires WellFormedSeasons(o) && o.maxIncarnations >= 1
    ensures ok <==> Lives(o, 1, seed).Some?
    ensures ok ==> Lives(o, 1, seed) == Some(Run(es, carry)) && tally == TallyOf(es) && prices == PricesOf(es)
  {
    hide FinalRecord, CarryOut, Lives, Prepend, WellFormedSeasons, CountCalls, CountProductive, SumProposals, SumApplied;
    es, carry, prices, ok := [], seed, [], true;
    tally := Tally(0, 0, 0, 0);
    assert tally == TallyOf(es) && prices == PricesOf(es) by { EmptyTally(); }
    PrependNothing(Lives(o, 1, seed));
    var k := 1;
    while k <= o.maxIncarnations
      invariant 1 <= k <= o.maxIncarnations + 1
      invariant if k <= o.maxIncarnations then Lives(o, 1, seed) == Prepend(es, Lives(o, k, carry))
                else Lives(o, 1, seed) == Some(Run(es, carry))
      invariant tally == TallyOf(es) && prices == PricesOf(es)
    {
      var season := o.season(k, carry);
      if season.None? {
        NoLife(o, es, k, carry);
        return false, es, carry, tally, prices;
      }
      var life := season.value;
      assert WellFormed(life.terminal) by { SeasonShape(o, k, carry); }
      var entry, next := RecordLife(o, k, carry, life);
      CountOneMore(es, entry);
      RunStep(o, es, k, carry, life);
      assert entry.entryPrices == life.entryPrices by { SamePrices(o, k, carry, life); }
      prices := prices + life.entryPrices;
      tally := Counted(tally, entry);
      es, carry := es + [entry], next;
      if !life.died {
        return;
      }
      k := k + 1;
    }
  }

  lemma EmptyTally()
    ensures TallyOf([]) == Tally(0, 0, 0, 0) && PricesOf([]) == []
  {
  }

  lemma SamePrices(o: Options, k: nat, carry: StrategyConfig, life: Life)
    requires WellFormed(life.terminal)
    ensures FinalRecord(o, k, carry, life).entryPrices == life.entryPrices
  {
  }

  lemma SeasonShape(o: Options, k: nat, carry: StrategyConfig)
    requires WellFormedSeasons(o) && o.season(k, carry).Some?
    ensures WellFormed(o.season(k, carry).value.terminal)
  {
  }

  lemma NoLife(o: Options, es: seq<Entry>, k: nat, carry: StrategyConfig)
    requires WellFormedSeasons(o) && k <= o.maxIncarnations && o.season(k, carry).None?
    ensures Prepend(es, Lives(o, k, carry)).None?
  {
  }

  /** Every season yields a life, the holdout comes back, and no bet of either is below the price floor. */
  ghost predicate Completes(o: Options, seed: StrategyConfig, floor: real, holdout: StrategyConfig -> Option<seq<real>>) {
    && Runs(o, seed)
    && holdout(Lives(o, 1, seed).value.carry).Some?
    && AllAbove(floor, PricesOf(Entries(o, seed)) + holdout(Lives(o, 1, seed).value.carry).value)
  }

  /**
   The lives, the holdout and the checks. The artifact is written unless the cap is not
   positive, a season yields no life, the holdout fails, or a placed bet is below the
   price floor: the two internal consistency checks at the end never fire.
   */
  method RunGroundhog(o: Options, seed: StrategyConfig, floor: real, holdout: StrategyConfig -> Option<seq<real>>)
    returns (r: Result<Artifact>)
    requires WellFormedSeasons(o)
    ensures r.Ok? <==> Completes(o, seed, floor, holdout)
    ensures r.Ok? ==> r.value == Written(o, seed)
  {
    hide Lives, Played, ScoringHolds;
    if o.maxIncarnations < 1 {
      return Err("max_incarnations must be >= 1");
    }
    var ok, es, carry, tally, prices := LiveAll(o, seed);
    if !ok {
      return Err("no life");
    }
    RunIsPlayed(o, seed);
    var heldOut := holdout(carry);
    if heldOut.None? {
      return Err("holdout failed");
    }
    prices := prices + heldOut.value;
    for i := 0 to |prices|
      invariant forall j :: 0 <= j < i ==> prices[j] >= floor
    {
      if prices[i] < floor {
        return Err("physics invariant violated");
      }
    }
    PlayedCalls(o, es);
    var expected := CountDied(es[..|es| - 1]);
    if o.ai && tally.calls != expected {
      return Err("treatment leg integrity violated");
    }
    var artifact := Assemble(o, es);
    PlayedPasses(o, es);
    var valid := ValidateGroundhogScoring(artifact);
    if valid.Err? {
      return Err("scoring invariant violated");
    }
    return Ok(artifact);
  }

  lemma RunStep(o: Options, es: seq<Entry>, k: nat, carry: StrategyConfig, life: Life)
    requires WellFormedSeasons(o) && k <= o.maxIncarnations && o.season(k, carry) == Some(life)
    ensures var e, next := FinalRecord(o, k, carry, life), CarryOut(o, k, carry, life);
      Prepend(es, Lives(o, k, carry))
        == if !life.died || k == o.maxIncarnations then Some(Run(es + [e], next)) else Prepend(es + [e], Lives(o, k + 1, next))
  {
    hide FinalRecord, CarryOut;
    var e, next := FinalRecord(o, k, carry, life), CarryOut(o, k, carry, life);
    if life.died && k < o.maxIncarnations {
      match Lives(o, k + 1, next)
      case None =>
      case Some(rest) => assert es + ([e] + rest.entries) == es + [e] + rest.entries;
    }
  }
}
