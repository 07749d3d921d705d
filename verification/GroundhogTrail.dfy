/**
 What a run hands from life to life, told from the records and the strategies alone:
 every entry records one season, and what the next life starts from is what the last
 one learned plus what the advisor proposed.
 */
module GroundhogTrail {
  import opened Markets
  import opened Strategy
  import opened StableSort
  import opened Sums
  import opened Groundhog
  import opened GroundhogArtifact
  import opened GroundhogRun

  /** A death with a successor and proposals to act on. */
  predicate Advice(o: Options, e: Entry) {
    e.died && o.ai && e.incarnation < o.maxIncarnations && o.advisor(e.incarnation) != []
  }

  /** The proposals that have an effect: numbers for a fusion key, and for a knob when the kit is on. */
  function Effective(proposals: seq<Proposal>, storm: bool): nat {
    if proposals == [] then 0
    else
      var d := proposals[|proposals| - 1];
      Effective(proposals[..|proposals| - 1], storm)
      + if d.delta.Number? && (IsFusionKey(d.key) || (storm && d.key.Knob?)) then 1 else 0
  }

  /** Entry e records the season that incarnation k plays with strategy c. */
  ghost predicate Records(o: Options, k: nat, c: StrategyConfig, e: Entry) {
    && o.season(k, c).Some?
    && var life := o.season(k, c).value;
       var gross := if life.cumPnls == [] then 0.0 else life.cumPnls[|life.cumPnls| - 1];
       var paid := if o.tribute then Total(Amounts(life.tributes)) else 0.0;
    && e.incarnation == k && e.died == life.died
    && e.pnlAtDeath == gross && e.scoredPnl == (if life.died then 0.0 else gross - paid)
    && e.startWeights == c.weights && e.terminalWeights == life.terminal
    && e.startGenome == (if o.storm then Some(c.genome) else None)
    && (o.tribute ==> e.tributes.Some? && e.tributes.value.events == life.tributes)
    && (o.tithe ==> e.tithes.Some? && e.tithes.value.events == life.tithes)
    && e.entryPrices == life.entryPrices
    && e.advisor.called == (life.died && o.ai && k < o.maxIncarnations)
    && e.advisor.proposals == (if e.advisor.called then |o.advisor(k)| else 0)
    && e.advisor.applied == (if e.advisor.called then Effective(o.advisor(k), o.storm) else 0)
  }

  /** Strategy c, after the life that e records, becomes next. */
  ghost predicate HandsOn(o: Options, c: StrategyConfig, e: Entry, next: StrategyConfig) {
    && WellFormed(e.terminalWeights)
    && next.weights == (if Advice(o, e) then WithDeltas(e.terminalWeights, o.advisor(e.incarnation)) else e.terminalWeights)
    && next.genome == (if Advice(o, e) && o.storm then TurnAll(c.genome, o.advisor(e.incarnation)) else c.genome)
    && e.carryGenomeAfter == (if Advice(o, e) && o.storm then Some(next.genome) else None)
    && next.minBetSize == c.minBetSize && next.explorationEpsilon == c.explorationEpsilon
  }

  lemma {:induction false} AppliedIsEffective(proposals: seq<Proposal>, storm: bool)
    ensures Classify(proposals, storm).Applied() == Effective(proposals, storm)
  {
    if proposals != [] {
      AppliedIsEffective(proposals[..|proposals| - 1], storm);
    }
  }

  lemma OneLife(o: Options, k: nat, c: StrategyConfig, life: Life)
    requires WellFormedSeasons(o) && o.season(k, c) == Some(life)
    ensures WellFormed(life.terminal)
    ensures Records(o, k, c, FinalRecord(o, k, c, life))
    ensures HandsOn(o, c, FinalRecord(o, k, c, life), CarryOut(o, k, c, life))
  {
    hide Classify, ApplyAll, TurnAll, Total;
    if life.died && o.ai {
      var proposals := o.advisor(k);
      AppliedIsEffective(proposals, o.storm);
      ClassifierAgreesWithApply(life.terminal, c.genome, proposals);
      KitOffKeepsFusionOnly(proposals);
    }
  }

  ghost predicate Trail(o: Options, k: nat, cs: seq<StrategyConfig>, es: seq<Entry>) {
    && |cs| == |es| + 1
    && (forall i :: 0 <= i < |es| ==> Records(o, k + i, cs[i], es[i]))
    && (forall i :: 0 <= i < |es| ==> HandsOn(o, cs[i], es[i], cs[i + 1]))
  }

  /** The strategies of a run, from the one it starts with to the one that reaches the holdout. */
  lemma {:induction false} RunLeavesTrail(o: Options, k: nat, carry: StrategyConfig) returns (cs: seq<StrategyConfig>)
    requires WellFormedSeasons(o) && 1 <= k <= o.maxIncarnations && Lives(o, k, carry).Some?
    ensures Trail(o, k, cs, Lives(o, k, carry).value.entries)
    ensures cs[0] == carry && cs[|cs| - 1] == Lives(o, k, carry).value.carry
    decreases o.maxIncarnations - k
  {
    hide Records, HandsOn;
    var life := o.season(k, carry).value;
    OneLife(o, k, carry, life);
    var e, next := FinalRecord(o, k, carry, life), CarryOut(o, k, carry, life);
    if life.died && k < o.maxIncarnations {
      var rest := RunLeavesTrail(o, k + 1, next);
      cs := [carry] + rest;
      var es := Lives(o, k + 1, next).value.entries;
      forall i | 0 <= i < |es| + 1
        ensures Records(o, k + i, cs[i], ([e] + es)[i]) && HandsOn(o, cs[i], ([e] + es)[i], cs[i + 1])
      {
        if i > 0 {
          assert Records(o, (k + 1) + (i - 1), rest[i - 1], es[i - 1]);
          assert HandsOn(o, rest[i - 1], es[i - 1], rest[i]);
        }
      }
    } else {
      cs := [carry, next];
    }
  }

  /** The weights a life leaves to its successor, or to the holdout. */
  function Bequest(o: Options, e: Entry): Weights
    requires WellFormed(e.terminalWeights)
  {
    if Advice(o, e) then WithDeltas(e.terminalWeights, o.advisor(e.incarnation)) else e.terminalWeights
  }

  /**
   Read off the written entries: the first life starts from the seed; each later one from
   its predecessor's terminal weights with every raw proposal of the advisor applied; the
   holdout from the last life's terminal weights, with no advice, because nothing follows it.
   */
  lemma WeightsAreHandedOn(o: Options, seed: StrategyConfig)
    requires Runs(o, seed)
    ensures var es := Entries(o, seed);
      && es != [] && es[0].startWeights == seed.weights
      && (forall i :: 0 <= i < |es| ==> WellFormed(es[i].terminalWeights))
      && (forall i :: 0 <= i < |es| - 1 ==> es[i + 1].startWeights == Bequest(o, es[i]))
      && Lives(o, 1, seed).value.carry.weights == es[|es| - 1].terminalWeights
  {
    hide Lives, WithDeltas;
    var es := Entries(o, seed);
    var cs := RunLeavesTrail(o, 1, seed);
    RunShape(o, 1, seed);
    assert Records(o, 1, cs[0], es[0]);
    assert HandsOn(o, cs[|es| - 1], es[|es| - 1], cs[|es|]) && Records(o, 1 + (|es| - 1), cs[|es| - 1], es[|es| - 1]);
    forall i | 0 <= i < |es| - 1 ensures WellFormed(es[i].terminalWeights) && es[i + 1].startWeights == Bequest(o, es[i]) {
      assert HandsOn(o, cs[i], es[i], cs[i + 1]);
      assert Records(o, 1 + (i + 1), cs[i + 1], es[i + 1]);
    }
  }

  function GenomeBequest(o: Options, e: Entry): Genome
    requires e.startGenome.Some?
  {
    if Advice(o, e) then TurnAll(e.startGenome.value, o.advisor(e.incarnation)) else e.startGenome.value
  }

  /** The same for the genome knobs, which only the advisor ever turns. */
  lemma GenomeIsHandedOn(o: Options, seed: StrategyConfig)
    requires Runs(o, seed) && o.storm
    ensures var es := Entries(o, seed);
      && es != [] && es[0].startGenome == Some(seed.genome)
      && (forall i :: 0 <= i < |es| ==> es[i].startGenome.Some?)
      && (forall i :: 0 <= i < |es| - 1 ==> es[i + 1].startGenome == Some(GenomeBequest(o, es[i])))
      && es[|es| - 1].startGenome == Some(Lives(o, 1, seed).value.carry.genome)
  {
    hide Lives, WithDeltas, TurnAll;
    var es := Entries(o, seed);
    var cs := RunLeavesTrail(o, 1, seed);
    RunShape(o, 1, seed);
    assert Records(o, 1, cs[0], es[0]);
    assert HandsOn(o, cs[|es| - 1], es[|es| - 1], cs[|es|]) && Records(o, 1 + (|es| - 1), cs[|es| - 1], es[|es| - 1]);
    forall i | 0 <= i < |es| - 1 ensures es[i].startGenome.Some? && es[i + 1].startGenome == Some(GenomeBequest(o, es[i])) {
      assert HandsOn(o, cs[i], es[i], cs[i + 1]) && Records(o, 1 + i, cs[i], es[i]);
      assert Records(o, 1 + (i + 1), cs[i + 1], es[i + 1]);
    }
  }

  // ------------------------------------------------------------- the advisor's books

  function SumTo(n: nat, f: nat -> nat): nat { if n == 0 then 0 else SumTo(n - 1, f) + f(n) }

  function Proposed(o: Options): nat -> nat { (k: nat) => if o.ai then |o.advisor(k)| else 0 }

  function AppliedAt(o: Options, k: nat): nat { if o.ai then Effective(o.advisor(k), o.storm) else 0 }

  function Applied(o: Options): nat -> nat { (k: nat) => AppliedAt(o, k) }

  function Productive(o: Options): nat -> nat { (k: nat) => if o.ai && o.advisor(k) != [] then 1 else 0 }

  ghost predicate NotedAt(o: Options, es: seq<Entry>, i: nat)
    requires i < |es|
  {
    && es[i].advisor.proposals == Proposed(o)(i + 1) && es[i].advisor.applied == Applied(o)(i + 1)
  }

  lemma {:induction false} NotesAddUp(o: Options, es: seq<Entry>)
    requires forall i :: 0 <= i < |es| ==> NotedAt(o, es, i)
    ensures SumProposals(es) == SumTo(|es|, Proposed(o)) && SumApplied(es) == SumTo(|es|, Applied(o))
    ensures CountProductive(es) == SumTo(|es|, Productive(o))
  {
    if es != [] {
      var front := es[..|es| - 1];
      forall i | 0 <= i < |front| ensures NotedAt(o, front, i) {
        assert NotedAt(o, es, i);
      }
      NotesAddUp(o, front);
      assert NotedAt(o, es, |es| - 1);
    }
  }

  /** The rebirth totals of the artifact are those of the advisor's answers on every death with a successor. */
  lemma RebirthAddsUp(o: Options, seed: StrategyConfig)
    requires Runs(o, seed)
    ensures var k, r := |Entries(o, seed)| - 1, Written(o, seed).rebirth;
      && k >= 0 && r.proposals == SumTo(k, Proposed(o)) && r.applied == SumTo(k, Applied(o)) && r.productive == SumTo(k, Productive(o))
  {
    hide Lives, WithDeltas, TurnAll, HandsOn;
    var es := Entries(o, seed);
    var cs := RunLeavesTrail(o, 1, seed);
    RunShape(o, 1, seed);
    RunIsPlayed(o, seed);
    var front := es[..|es| - 1];
    forall i | 0 <= i < |front| ensures NotedAt(o, front, i) {
      assert Records(o, 1 + i, cs[i], es[i]);
    }
    NotesAddUp(o, front);
    assert Records(o, 1 + |front|, cs[|front|], es[|front|]);
  }
}
