/** The whole experiment: the row universe, the optional shuffle, the split, then the lives. */
module GroundhogExperiment {
  import opened Markets
  import opened Permutations
  import opened Strategy
  import opened ChronologicalSplit
  import opened TimeShift
  import opened Groundhog
  import opened GroundhogArtifact
  import opened GroundhogRun

  /** What the experiment is called on; the shuffle, if there is one, as its permutation. */
  datatype Universe = Universe(
    rows: seq<SurvivalRow>,
    snapshots: seq<Snapshot>,
    entryFloor: real,
    effectiveFloor: Option<real>,
    shuffle: Option<seq<nat>>,
    fraction: real)

  datatype Windows = Windows(train: seq<SurvivalRow>, holdout: seq<SurvivalRow>, snapshots: seq<Snapshot>)

  ghost predicate GoodShuffle(u: Universe) {
    u.shuffle.Some? ==> IsPermutation(u.shuffle.value, |u.rows|)
  }

  ghost predicate AboveFloor(u: Universe) {
    forall r :: r in u.rows ==> r.signal.entryPrice >= u.entryFloor
  }

  ghost predicate CanShuffle(u: Universe) {
    u.shuffle.Some? ==> EveryRowHasSnapshot(u.rows, u.snapshots)
  }

  ghost function Timeline(u: Universe): Shuffled
    requires GoodShuffle(u) && CanShuffle(u)
  {
    if u.shuffle.None? then Shuffled(u.rows, u.snapshots)
    else Shuffle(u.rows, u.snapshots, MIN_SPACING, u.shuffle.value)
  }

  ghost predicate Prepared(u: Universe)
    requires GoodShuffle(u)
  {
    AboveFloor(u) && CanShuffle(u) && SplitRows(Timeline(u).rows, u.fraction).Ok?
  }

  ghost function WindowsOf(u: Universe): Windows
    requires GoodShuffle(u) && Prepared(u)
  {
    var s := SplitRows(Timeline(u).rows, u.fraction).value;
    Windows(s.train, s.holdout, Timeline(u).snapshots)
  }

  method PrepareWindows(u: Universe) returns (r: Result<Windows>)
    requires GoodShuffle(u)
    ensures r.Ok? <==> Prepared(u)
    ensures r.Ok? ==> r.value == WindowsOf(u)
  {
    hide SplitRows, Shuffle, EveryRowHasSnapshot, IsPermutation;
    for i := 0 to |u.rows|
      invariant forall j :: 0 <= j < i ==> u.rows[j].signal.entryPrice >= u.entryFloor
    {
      if u.rows[i].signal.entryPrice < u.entryFloor {
        assert u.rows[i] in u.rows;
        return Err("row universe violates entry_price_floor");
      }
    }
    var rows, snapshots := u.rows, u.snapshots;
    if u.shuffle.Some? {
      var shuffled := ShuffleTimestamps(rows, snapshots, MIN_SPACING, u.shuffle.value);
      if shuffled.Err? {
        return Err("rows without snapshots");
      }
      rows, snapshots := shuffled.value.rows, shuffled.value.snapshots;
    }
    var split := SplitRowsByTime(rows, u.fraction);
    if split.Err? {
      return Err(split.reason);
    }
    return Ok(Windows(split.value.train, split.value.holdout, snapshots));
  }

  /** On a shuffled universe the split cannot fail: only the floor and the snapshots are left to check. */
  lemma ShuffledUniverseIsPrepared(u: Universe)
    requires GoodShuffle(u) && u.shuffle.Some? && |u.rows| >= 2 && 0.0 < u.fraction < 1.0
    ensures Prepared(u) <==> AboveFloor(u) && EveryRowHasSnapshot(u.rows, u.snapshots)
    ensures Prepared(u) ==> CutFor(|u.rows|, u.fraction, |WindowsOf(u).train|)
  {
    hide SplitRows, Shuffle, EveryRowHasSnapshot, IsPermutation, CutFor;
    if CanShuffle(u) {
      var cut := SplitAfterShuffle(u.rows, u.snapshots, MIN_SPACING, u.shuffle.value, u.fraction);
    }
  }

  /** How seasons and the holdout go, as arbitrary functions of the windows they are played on. */
  datatype World = World(
    season: (Windows, nat, StrategyConfig) -> Option<Life>,
    holdout: (Windows, StrategyConfig) -> Option<seq<real>>)

  function On(o: Options, world: World, w: Windows): Options {
    o.(season := (k: nat, carry: StrategyConfig) => world.season(w, k, carry))
  }

  function HoldoutOn(world: World, w: Windows): StrategyConfig -> Option<seq<real>> {
    carry => world.holdout(w, carry)
  }

  function Floor(u: Universe): real { if u.effectiveFloor.Some? then u.effectiveFloor.value else u.entryFloor }

  ghost predicate WellFormedWorld(o: Options, world: World) { forall w :: WellFormedSeasons(On(o, world, w)) }

  lemma {:induction false} EveryBetAboveFloor(es: seq<Entry>, floor: real)
    requires AllAbove(floor, PricesOf(es))
    ensures forall e, p :: e in es && p in e.entryPrices ==> p >= floor
  {
    if es != [] {
      var front, last := es[..|es| - 1], es[|es| - 1];
      assert PricesOf(es) == PricesOf(front) + last.entryPrices;
      forall i | 0 <= i < |PricesOf(front)| ensures PricesOf(front)[i] >= floor {
        assert PricesOf(front)[i] == PricesOf(es)[i];
      }
      forall i | 0 <= i < |last.entryPrices| ensures last.entryPrices[i] >= floor {
        assert last.entryPrices[i] == PricesOf(es)[|PricesOf(front)| + i];
      }
      EveryBetAboveFloor(front, floor);
      assert es == front + [last];
    }
  }

  lemma LivesAboveFloor(o: Options, seed: StrategyConfig, floor: real, holdout: StrategyConfig -> Option<seq<real>>)
    requires Completes(o, seed, floor, holdout)
    ensures Written(o, seed).incarnations == Entries(o, seed)
    ensures forall e, p :: e in Entries(o, seed) && p in e.entryPrices ==> p >= floor
  {
    hide Lives;
    var prices, others := PricesOf(Entries(o, seed)), holdout(Lives(o, 1, seed).value.carry).value;
    forall i | 0 <= i < |prices| ensures prices[i] >= floor {
      assert prices[i] == (prices + others)[i];
    }
    EveryBetAboveFloor(Entries(o, seed), floor);
  }

  /** From the rows to the artifact, with every refusal on the way. */
  method RunExperiment(u: Universe, o: Options, world: World, seed: StrategyConfig) returns (r: Result<Artifact>)
    requires GoodShuffle(u) && WellFormedWorld(o, world)
    ensures r.Ok? <==> Prepared(u) && Completes(On(o, world, WindowsOf(u)), seed, Floor(u), HoldoutOn(world, WindowsOf(u)))
    ensures r.Ok? ==> r.value == Written(On(o, world, WindowsOf(u)), seed) && ScoringHolds(r.value)
    ensures r.Ok? ==> forall e, p :: e in r.value.incarnations && p in e.entryPrices ==>
      p >= if u.effectiveFloor.Some? then u.effectiveFloor.value else u.entryFloor
  {
    hide Prepared, WindowsOf, Written, Lives, ScoringHolds;
    if o.maxIncarnations < 1 {
      return Err("max_incarnations must be >= 1");
    }
    var windows := PrepareWindows(u);
    if windows.Err? {
      return Err(windows.reason);
    }
    var played := On(o, world, windows.value);
    r := RunGroundhog(played, seed, Floor(u), HoldoutOn(world, windows.value));
    if r.Ok? {
      ArtifactPassesValidator(played, seed);
      LivesAboveFloor(played, seed, Floor(u), HoldoutOn(world, windows.value));
    }
  }
}
