# A verified model of the BREATH backtest cores

The repository backtests a betting agent that lives on a depletable resource, BREATH. Around a
thin layer of network, language-model and plotting code it has a number of small cores whose
answers decide whether an experiment may be believed at all: what a provider may serve at a given
time, how a season is cut and shuffled, how a life ends, how a strategy is carried from one life
to the next, and how the evidence is weighed afterwards. This project models those cores and
proves what they promise, for all inputs.

Conventions. Floats are exact reals and timestamps are whole seconds. A source of randomness is an
arbitrary stream, an arbitrary permutation, or arbitrary indices in range, so every result holds
for every seed. A Python exception is an `Err`, a `None` is an `Option`. Code that updates
something step by step is a method with a loop or a class with fields, proved equal to a
specification function; the lemmas then say what that function means.

## How the modules fit together

| module | models |
|---|---|
| `Markets`, `Arithmetic`, `Sums`, `StableSort`, `Permutations` | records, and general facts the rest needs (a stable sort commutes with filtering and with order-keeping maps) |
| `PointInTime` | the point-in-time price provider: no look-ahead, as a statement about two worlds |
| `ChronologicalSplit`, `TimeShift` | the train/holdout split with tie absorption, and the permuted, re-spaced timeline |
| `Replay`, `Lifetime`, `LifetimeLaws` | the simulator's market cursor, one lifetime, and the laws every lifetime obeys |
| `TennisMarket` | the synthetic market, written match by match into arrays |
| `SetProbability`, `CrossMarketSignal` | the bisection that inverts the best-of-N model, and the signal built on it |
| `Strategy` | proposals, the delta classifier, the weight and genome updates |
| `Groundhog`, `GroundhogArtifact`, `GroundhogRun`, `GroundhogTrail`, `GroundhogExperiment` | lives played until one survives, the artifact, its validator, the theorem that the two agree, what is handed from life to life, and the way from the rows to the artifact |
| `TiedRanks`, `RankCorrelation` | tie-averaged ranks and Spearman correlation |
| `CachedSweep`, `SurvivalRows`, `SetprobAugment`, `CrossMarketJourney`, `GoVerdict` | scoring, the joined universe, the placebo rows, the pairing of the two arms, and the verdict read off them |
| `ClusterBootstrap`, `BootstrapQuantiles`, `SignTest`, `Drawdown` | percentile intervals and verdicts, the binomial sign test, single-pass drawdown |
| `SharpLine` | the sharp-line probe: samples and joins that must not see the result |

## Where the code and its promises differ

The model follows the code. Each difference below is stated as a theorem that says exactly when
the promise holds.

- A lifetime that loses its last breath on the very last allowed tick is reported as Survival: the
  loop leaves through its `else` before the death check is reached. `LifetimeLaws.DeadSurvivorExample`
  is one such life. It happens exactly when the account overruns at the cap (`DeadSurvivorIffSpentAtCap`),
  and for an idle agent exactly at one cap (`IdleDeadSurvivorIff`). An initial breath that outlasts
  the costliest ticks rules it out on every stream (`EnoughBreathSurvives`); where the cap can be
  reached without income that condition is exact, already over realistic streams
  (`SurvivorsBreatheIff`). Inside the calibration box the default cap of 10,000 ticks cannot be
  reached without income, and the cap of 2,000 used by the sweeps only at slow rates near the minimum: there the
  condition on the parameters is only sufficient, and the exact one is `DeadSurvivorIffSpentAtCap`.
- Inside the calibration box with a market of at least `max_ticks` ticks, Attrition cannot happen,
  so the three-death-paths objective can never pass, and the lucidity objective measures exactly 1
  whenever it measures anything (`LifetimeLaws.AttritionOnlyByExhaustion`, `LifetimeLaws.CalibratedObjectives`).
- The drawdown is documented to lie in [0, 100]. It does so exactly when the curve does not go
  below zero after having been above it (`Drawdown.AtMostAHundredIff`, `Drawdown.DrawdownAboveAHundred`).
- A verdict can read EDGE although the interval rules out a meaningful effect, exactly when the
  smallest effect of interest is positive, as it is by default in the sharp-line probes; the GO
  verdict fixes it at zero (`ClusterBootstrap.VerdictsOverlapIff`, `ClusterBootstrap.SmallGainsOverlap`).
- A simulated bet is indifferent to which player is called the reference unless the threshold is
  negative, the two probabilities are equal and a NO bet finds a price
  (`SharpLine.BetsMirrorExactlyWhen`, `SharpLine.MirrorLost`).

## Model

| member | source | states |
|---|---|---|
| PointInTime.MarketSnapshotProvider.constructor | agent/backtest/historical_fetcher.py:539-560 | Each ledger is kept as its stable sort by time; of two snapshots with one id the later wins. |
| PointInTime.MarketSnapshotProvider.PriceAt | agent/backtest/historical_fetcher.py:571-603 | The loop with its early exit serves the last point, in stable time order, that is not after the asked time. |
| PointInTime.MarketSnapshotProvider.IsResolvedBy | agent/backtest/historical_fetcher.py:605-619 | True iff the market is known and carries a resolution time not after the asked time. |
| PointInTime.MarketSnapshotProvider.AssertNoLookahead | agent/backtest/historical_fetcher.py:621-642 | The guard trips iff the served price is not what the provider knows at that time. |
| PointInTime.ServedPriceIsLatestKnown | agent/backtest/historical_fetcher.py:571-603 | Against the unsorted ledger: p is served iff some point at or before t has the greatest time among those, is last in source order among equals, and has price p; nothing is served iff every point is later than t. |
| PointInTime.NoLookahead | agent/backtest/historical_fetcher.py:539-619 | Two worlds that agree on what has happened by t give the same answers at any earlier or equal time, whatever their futures hold. |
| PointInTime.FuturePointsAreInvisible | agent/backtest/historical_fetcher.py:571-603 | Inserting a later point anywhere in a ledger changes no answer. |
| PointInTime.ShiftedMarketAnswersAlike | agent/backtest/reincarnation.py:315-330 | A snapshot moved by delta answers at t + delta what the original answers at t, for prices and for resolution. |
| PointInTime.ShiftedLookupAnswersAlike | agent/backtest/reincarnation.py:315-330 | The same through the providers built over the old and the new snapshot lists. |
| ChronologicalSplit.SplitRowsByTime | agent/backtest/reincarnation.py:210-237 | The sorting and tie-absorbing loop computes the specified split, errors included. |
| ChronologicalSplit.SplitIsChronological | agent/backtest/reincarnation.py:223-237 | A split has two non-empty parts in (time, id) order that together are a permutation of the input; every train time is strictly before every holdout time; the cut is the least admissible one at or after the place nearest to n times the fraction. |
| ChronologicalSplit.SplitFailsExactlyWhen | agent/backtest/reincarnation.py:223-237 | It is refused iff the fraction is not inside (0, 1), there are fewer than two rows, or no row enters after the last of as many first rows as are nearest to n times the fraction. |
| ChronologicalSplit.TrainHasTheFraction | agent/backtest/reincarnation.py:228-237 | With no two equal entry times it never fails, and train has the number of rows nearest to n times the fraction: within one half, the even one of two equally near, at least 1 and at most n - 1. |
| ChronologicalSplit.CutForIsUnique | agent/backtest/reincarnation.py:228-229 | There is only one such number. |
| ChronologicalSplit.SplitIgnoresInputOrder | agent/backtest/reincarnation.py:223-237 | If rows equal in time and id are equal, any two orderings of the input split alike. |
| TimeShift.LayOutSlots | agent/backtest/reincarnation.py:287-294 | The slot loop computes the specified slots. |
| TimeShift.ShuffleTimestamps | agent/backtest/reincarnation.py:255-335 | For every permutation, the loops build the specified rows and snapshots; refused iff a row has no snapshot. |
| TimeShift.SlotsAreLeast | agent/backtest/reincarnation.py:287-294 | The slots are at or after the original times and at least the spacing apart, and are pointwise the least such times. |
| TimeShift.SlotsInClosedForm | agent/backtest/reincarnation.py:287-294 | Slot j is the maximum over i <= j of the i-th time plus (j - i) spacings. |
| TimeShift.ShuffledRowsAreChronological | agent/backtest/reincarnation.py:296-335 | With a positive spacing the shuffled rows come out sorted, with strictly increasing times. |
| TimeShift.PairTakesItsSlot | agent/backtest/reincarnation.py:301-331 | The market dealt to slot j enters exactly at the j-th slot time, and every time in its row and in its snapshot, ledger included, moves by that one amount while everything else stays. |
| TimeShift.SplitAfterShuffle | agent/backtest/reincarnation.py:227-335 | A later split never fails, absorbs no tie, cuts at the place nearest to n times the fraction, and trains on exactly the markets permuted into the first slots. |
| TimeShift.ShuffleKeepsRows | agent/backtest/reincarnation.py:302-331 | Up to a rigid move in time, the shuffled rows are a permutation of the original rows: no market is lost, repeated or stretched. |
| TimeShift.MovedMarketAnswersAlike | agent/backtest/reincarnation.py:302-335 | With distinct ids, the provider over the shuffled snapshots answers for each market, at moved times, what the provider over the originals answered. |
| TimeShift.RowlessMarketUntouched | agent/backtest/reincarnation.py:333-335 | A market without a row is looked up unchanged. |
| Replay.MarketReplay.FromArrays | sim/market.py:92-118 | Accepted iff the arrays have one length and are not empty; the cursor starts before the first tick. |
| Replay.MarketReplay.Step | sim/market.py:205-239 | Hands out the next tick and advances by one, or refuses at the end and stays there. |
| Replay.MarketReplay.TickAt | sim/market.py:241-261 | Succeeds exactly on the ticks that were already handed out. |
| Lifetime.Runner.SimulateLifetime | sim/runner.py:275-386 | The loop over the market cursor returns the specified life, refuses unregistered archetypes, and leaves the market at the last consumed tick. |
| Lifetime.Runner.LiveOneTick | sim/runner.py:330-374 | The statements of one tick compute the specified next state. |
| LifetimeLaws.TickInNumbers | sim/runner.py:330-374 | One tick in closed form, from side, settlement, price and stake: what it does to bankroll, breath, expansions, desperation and both draw counters. |
| LifetimeLaws.PoliciesInNumbers | sim/runner.py:124-193 | At which prices each archetype takes which side, and its stake. |
| LifetimeLaws.BetsAreFair | sim/runner.py:346-354 | The two settlements of one bet, weighed by the price, cancel on either side, and differ by the stake in the direction of the side. |
| LifetimeLaws.SidesCancel | sim/runner.py:346-354 | A YES and a NO bet on one and the same tick sum to zero. |
| LifetimeLaws.ReportedLifeBalances | sim/runner.py:376-386 | The reported curve, final bankroll and expansions are those of the running accounts at the reported length. |
| LifetimeLaws.MoneyIsConserved | sim/runner.py:337-366 | Bankroll gained is net winnings minus everything turned into breath. |
| LifetimeLaws.BreathLaw | sim/runner.py:330-366 | Breath is its start minus all taxes, plus all gains, minus what the soft cap took. |
| LifetimeLaws.PotentialLaw | sim/runner.py:304-374 | breath + conversion_rate * (bankroll - initial) is its start, minus taxes, plus conversion_rate times net winnings, minus three quarters of each soft-capped gain, after every tick of every life. |
| LifetimeLaws.BankrollStaysBelowTheLine | sim/runner.py:359-366 | At every tick end the bankroll is at most 1.10 times the initial one. |
| LifetimeLaws.ExpansionsAreEarned | sim/runner.py:359-366 | k > 0 expansions have turned more than k tenths of the initial bankroll into breath; none have turned nothing. |
| LifetimeLaws.ExpansionsBoundedByWinnings | sim/runner.py:359-366 | The number of expansions times a tenth of the initial bankroll is below net winnings less what is still held. |
| LifetimeLaws.LastGasp | sim/params.py:235-244 | Inside the calibration box a dead agent had at least two ticks, stood below the desperate threshold one tick before, and is recorded as desperate. |
| LifetimeLaws.AttritionOnlyByExhaustion | sim/runner.py:313-408 | Inside the box a life ends in Attrition iff the market ran out on a living agent; the other deaths are always desperate. |
| LifetimeLaws.CalibratedObjectives | sim/objectives.py:306-406 | On such lifetimes with markets long enough, three-death-paths never passes, the lucidity rate is exactly 1 when defined, and lucidity passes iff some mandatory agent died. |
| LifetimeLaws.LucidityInNumbers | sim/objectives.py:306-339 | The rate is the desperate share of the dying mandatory agents, defined iff there are any, and passes iff it is above 85 percent. |
| LifetimeLaws.IdleLifespan | sim/runner.py:330-357 | An agent whose prices never tempt it lives exactly min(max_ticks, ceil(initial_breath / (time tax + passive burn))) ticks. |
| LifetimeLaws.PrefixDeterminesLife | sim/runner.py:313-386 | Two markets and draw streams that agree on what the life consumed give the same result, unless the first market ran out. |
| LifetimeLaws.CurveTellsTheLife | sim/runner.py:368-386 | The curve has one more entry than the ticks survived, all but the last positive; Survival iff max_ticks were survived; a living end short of that is the end of the stream; each death label is read off the last breath, the final bankroll and desperation; desperate iff some later entry lies strictly between zero and the threshold. |
| LifetimeLaws.SurvivorsMayBeDead | sim/runner.py:313-378 | A reported survivor has no breath left iff one more allowed tick reports the same life as dead, classified by the death rules. |
| LifetimeLaws.DeadSurvivorIffSpentAtCap | sim/runner.py:313-378 | For every agent and stream: a reported survivor has no breath left iff the account of taxes, gains and soft-cap losses first overruns the initial breath at the last allowed tick. |
| LifetimeLaws.IdleDeadSurvivorIff | sim/runner.py:313-378 | For an agent that is never tempted: iff ceil(initial_breath / (time tax + passive burn)) is exactly max_ticks. |
| LifetimeLaws.DeadSurvivorExample | sim/runner.py:313-378 | One such agent inside the calibrated box: 800 breath, 5 a tick, 160 ticks. |
| LifetimeLaws.EnoughBreathSurvives | sim/runner.py:313-378 | For every agent and stream: an initial breath above max_ticks times the costliest tick leaves every reported survivor breathing. |
| LifetimeLaws.SurvivorsBreatheIff | sim/runner.py:313-378 | For parameters whose initial breath reaches the last tick without income: every survivor on every realistic stream (prices in [0.05, 0.95], draws in [0, 1)) has breath left iff the initial breath is above max_ticks times the costliest tick. |
| TennisMarket.BuildArrays | sim/tennis_market_generator.py:128-207 | Refused iff no tick is asked for; otherwise the nested loops terminate, cut [0, n) into matches of the drawn lengths, 3 to 9 ticks (only the last may be cut short), and write the specified price and depth at every tick. |
| TennisMarket.EveryTickInOneMatch | sim/tennis_market_generator.py:168-201 | Every tick lies in exactly one match. |
| TennisMarket.DepthRisesToClose | sim/tennis_market_generator.py:196-199 | Depth starts at the open anchor, strictly rises inside a match, reaches the close anchor if the match has two ticks or more, and stays in [30, 700]. |
| TennisMarket.StreamStaysInBounds | sim/tennis_market_generator.py:158-207 | Whatever is drawn, every price of the stream is in [0.05, 0.95] and every depth in [30, 700]. |
| TennisMarket.PricesRevert | sim/tennis_market_generator.py:186-194 | Without a shock a tick keeps exactly 85 percent of the distance to the baseline; a larger shock never gives a lower price; at the baseline the price moves by the shock. |
| TennisMarket.WalkInNumbers | sim/tennis_market_generator.py:181-194 | Inside the bounds each price is 85 percent of the one before, or of the baseline on the first tick, plus 15 percent of the baseline, plus the shock. |
| TennisMarket.DepthStepsAreEqual | sim/tennis_market_generator.py:196-199 | Every tick of a match adds the same depth. |
| SetProbability.MatchToSetProb | agent/backtest/sharp_line.py:69-88 | The loop over lo and hi is the specified bisection. |
| SetProbability.MatchProbIncreases | agent/backtest/sharp_line.py:62-66 | The best-of-3 cubic and the best-of-5 quintic are strictly increasing on [0, 1]. |
| SetProbability.MatchProbMirrors | agent/backtest/sharp_line.py:62-66 | f(1 - p) = 1 - f(p). |
| SetProbability.MatchProbIsBinomial | agent/backtest/sharp_line.py:62-66 | The two polynomials are the binomial sums for winning two of three and three of five sets. |
| SetProbability.BisectKeepsBracket | agent/backtest/sharp_line.py:78-88 | In exact arithmetic: every step keeps f(lo) < target <= f(hi) on a cell of a dyadic grid, halving the cell. |
| SetProbability.SetProbIsCellMiddle | agent/backtest/sharp_line.py:78-88 | In exact arithmetic: the answer is the middle of the cell, of the 2^60 cells of [0, 1], whose image holds the target, and no other cell does. |
| SetProbability.SetProbInverts | agent/backtest/sharp_line.py:69-88 | In exact arithmetic: applied to f(x), for x in [0, 1], the answer is within 2^-61 of x, and equal to x at both ends. |
| SetProbability.SetProbIsMonotone | agent/backtest/sharp_line.py:69-88 | A larger match probability never gives a smaller set probability. |
| SetProbability.SetProbStaysInside | agent/backtest/sharp_line.py:69-88 | In exact arithmetic: the answer is in [0, 1], and strictly inside if the input is. |
| SetProbability.BothPlayersSum | agent/backtest/sharp_line.py:57-88 | In exact arithmetic: the two players' set probabilities sum to exactly 1, or to exactly 1 - 2^-60 when the match probability is the image of a grid point. |
| CrossMarketSignal.DevigIsFair | agent/backtest/sharp_line.py:38-59 | De-vigged odds give a probability strictly inside (0, 1), the opponent's is its complement, the shorter odds are the favourite's, and both sides return the same in expectation. |
| CrossMarketSignal.FormatsRead | agent/backtest/cross_market_signal.py:38-49 | The format cell counts as five sets exactly when it is a number, or numeric text, of at least five; everything else as three. |
| CrossMarketSignal.SetProbLeansWithMatch | agent/backtest/sharp_line.py:69-88 | In exact arithmetic: the set probability is never exactly one half, and is above it iff the match probability is. |
| CrossMarketSignal.SignalSign | agent/backtest/cross_market_signal.py:91-107 | In exact arithmetic: for any scale the level is in [-1, 1]; it is zero iff the join failed closed or the scale is zero; on a positive scale it is positive iff the consensus favours the slug-first player, on a negative one iff it does not. |
| CrossMarketSignal.OrientationsCancel | agent/backtest/cross_market_signal.py:64-107 | In exact arithmetic: for any scale, the levels of the two orientations of one row sum, in size, to at most the size of the scale times 2^-60, and to zero off the grid. |
| CrossMarketSignal.OrientationsAtDefaultScale | agent/backtest/cross_market_signal.py:91-107 | In exact arithmetic: at the default scale the sum is exactly zero off the grid and exactly -2 * 2^-60 on it. |
| CrossMarketSignal.LevelOddsAreOnGrid | agent/backtest/sharp_line.py:78-88 | In exact arithmetic: one half is the image of a grid point, for both formats. |
| Strategy.ClassifyProposals | agent/backtest/reincarnation.py:139-164 | The loop sorts proposals into the three specified lists. |
| Strategy.ApplyWeightDeltas | agent/backtest/reincarnation.py:382-421 | The loop that updates w_r, alpha, beta and rho computes the specified weights. |
| Strategy.ApplyGenomeDeltas | agent/backtest/reincarnation.py:167-197 | Collecting updates in a dictionary and replacing once is the same as turning the knobs one proposal at a time. |
| Strategy.WeightsFollowDeltas | agent/backtest/reincarnation.py:401-421 | One numeric delta moves the weight it names by its value, at most a tenth either way, stopped at the ends; its complement follows and the other weights stay. |
| Strategy.SharesFollowDeltas | agent/backtest/reincarnation.py:414-420 | A source's share of the alphas rises with a positive delta, strictly unless it is everything, and falls with a negative one; the shares sum to exactly 1. |
| Strategy.OthersKeepProportion | agent/backtest/reincarnation.py:414-420 | The other two sources keep their proportion. |
| Strategy.OtherDeltasDoNothing | agent/backtest/reincarnation.py:401-421 | Anything that is not a number for one of the six keys changes no weight but restores the complement. |
| Strategy.KnobsFollowDeltas | agent/backtest/reincarnation.py:178-192 | One numeric delta moves its knob by at most a tenth, stopped at its bounds, and no other. |
| Strategy.KnobRanges | agent/backtest/reincarnation.py:105-113 | The seven ranges in numbers, after any advice. |
| Strategy.FallbackIsDead | agent/backtest/reincarnation.py:410-418 | From valid weights the bumped alphas sum to at least 0.9 less the validator's tolerance, so the zero-sum fallback is never taken and the result is a probability vector. |
| Strategy.DeltasKeepWeightsValid | agent/core/state.py:67-97 | Any list of proposals takes weights the validator accepts to weights it accepts. |
| Strategy.KnobsStayInBounds | agent/backtest/reincarnation.py:105-113 | A knob that a proposal touched ends inside its bounds; an untouched knob keeps its value. |
| Strategy.ClassifierAgreesWithApply | agent/backtest/reincarnation.py:139-197 | Applying the classified lists gives the same weights and genome as applying the raw list, and the counts cover every proposal. |
| Strategy.KitOffKeepsFusionOnly | agent/backtest/reincarnation.py:142-164 | With the kit off no genome proposal is kept, and the fusion list is the same. |
| GroundhogRun.RunGroundhog | agent/backtest/reincarnation.py:1434-1964 | From the split windows on, the artifact is written iff at least one incarnation is allowed, every season yields a life, the holdout comes back, and no bet of either is priced below the floor; the treatment-integrity check and the validator never refuse it. |
| GroundhogExperiment.RunExperiment | agent/backtest/reincarnation.py:1388-1964 | From the row universe: written iff moreover every row is at or above the entry floor, a shuffle finds a snapshot for every row, and the split of the timeline succeeds; what is written satisfies the validator, and every bet in it is at or above the effective floor, or the entry floor where none is given. |
| GroundhogExperiment.PrepareWindows | agent/backtest/reincarnation.py:1392-1416 | The floor check, the optional shuffle and the split give the specified windows or refuse. |
| GroundhogExperiment.ShuffledUniverseIsPrepared | agent/backtest/reincarnation.py:1397-1416 | With a shuffle and two rows or more the split cannot be what refuses, and the train window has the number of rows nearest to n times the fraction. |
| GroundhogRun.LiveAll | agent/backtest/reincarnation.py:1440-1756 | The incarnation loop produces the specified run, with its advisor counters and its entry prices. |
| GroundhogRun.RecordLife | agent/backtest/reincarnation.py:1519-1756 | The accounting, the carry and the advice of one incarnation compute the specified entry and next seed. |
| GroundhogTrail.RunLeavesTrail | agent/backtest/reincarnation.py:1452-1756 | A run is a chain of strategies from the seed to the holdout: each entry records, field by field, the season played with one of them, and the next comes from that entry and the advisor's raw answers alone. |
| GroundhogTrail.WeightsAreHandedOn | agent/backtest/reincarnation.py:1648-1738 | Over the written entries: the first life starts from the seed's weights, each later one from its predecessor's terminal weights with every raw proposal applied, and the holdout from the last terminal weights. |
| GroundhogTrail.GenomeIsHandedOn | agent/backtest/reincarnation.py:1739-1751 | The same for the knobs: only the advisor turns them, and the holdout gets the last start genome. |
| GroundhogTrail.RebirthAddsUp | agent/backtest/reincarnation.py:1724-1756 | The rebirth totals are those of the advisor's answers on every death with a successor: proposals made, proposals with an effect, answers that were not empty. |
| GroundhogRun.RunShape | agent/backtest/reincarnation.py:1452-1653 | Incarnations are numbered in order, every one before the last is dead, and only the cap stops a run of the dead. |
| GroundhogRun.ArtifactPassesValidator | agent/backtest/reincarnation.py:2003-2149 | Whatever the seasons and the advisor return, the artifact of the run satisfies every clause of the separately written validator. |
| GroundhogRun.AdvisorSawEveryDeath | agent/backtest/reincarnation.py:1782-1791 | Advisor calls equal the deaths that have a successor, that is all incarnations but the last. |
| GroundhogRun.ScoresAddUpToHeadline | agent/backtest/reincarnation.py:1793-1796 | The scored pnls of all incarnations sum to the headline pnl. |
| GroundhogRun.RevenueIsEveryOffering | agent/backtest/reincarnation.py:1861-1866 | The gods_revenue field is there iff tribute is on, and is the sum of every single tribute of the run. |
| GroundhogRun.TithesAreEveryTithe | agent/backtest/reincarnation.py:1906-1912 | The tithe_revenue field is there iff tithes are on, and it and the breath taken are the sums over every single tithe of the run. |
| GroundhogRun.CarryStaysSound | agent/backtest/reincarnation.py:1648-1740 | One life and its advice keep weights valid and knobs in bounds; with the kit off no knob moves; bet size and exploration never change. |
| GroundhogRun.RunStaysSound | agent/backtest/reincarnation.py:1452-1756 | The same for every entry of a whole run and for the seed that reaches the holdout. |
| GroundhogRun.MetricIsHoldoutGamma | agent/backtest/reincarnation.py:1972-2000 | The falsification metric, read back from the artifact, is the gamma the holdout starts from; it counts the productive calls and is evaluable from three on. |
| GroundhogArtifact.ValidateGroundhogScoring | agent/backtest/reincarnation.py:2003-2149 | The chain of checks accepts an artifact iff all the scoring rules hold, on both the survived and the capped-out branch. |
| GroundhogArtifact.ValidateTithes | agent/backtest/reincarnation.py:2018-2049 | Accepts iff cash, breath, revenue and best incarnation balance to within 1e-6. |
| GroundhogArtifact.ValidateTributes | agent/backtest/reincarnation.py:2061-2149 | Accepts iff every tribute book balances, with the revival earnings where they are checked, and the totals do. |
| GroundhogRun.AcceptedArtifactAddsUp | agent/backtest/reincarnation.py:2003-2149 | Any artifact it accepts, wherever it comes from: the dead score nothing, a capped-out one has no survivor and no headline, the headline of a survivor is its earnings less every offering, a single living row makes the scores sum to the headline, and the revenue is the sum of every offering listed. |
| GroundhogArtifact.ComputeFalsificationMetric | agent/backtest/reincarnation.py:1972-2000 | The backwards search finds the last recorded advice, or the final start genome. |
| TiedRanks.RankData | sim/analysis.py:695-708 | The nested loops fill the array with each value's number of smaller values plus half of one more than its number of equals. |
| RankCorrelation.RanksAddUp | sim/analysis.py:695-708 | The ranks of n values sum to n(n + 1)/2, ties or not. |
| RankCorrelation.RanksKeepOrder | sim/analysis.py:695-708 | A smaller value has a smaller rank and equal values equal ranks, and conversely. |
| RankCorrelation.SameRanks | sim/analysis.py:695-708 | Lists ordered alike have the same ranks. |
| RankCorrelation.OppositeRanks | sim/analysis.py:695-708 | Lists ordered oppositely have ranks that add up to n + 1. |
| RankCorrelation.SpearmanParts | sim/analysis.py:670-692 | Refused iff the lengths differ, undefined below two points, else the covariance and the two variances of the ranks. |
| RankCorrelation.CauchySchwarz | sim/analysis.py:684-692 | The squared dot product is at most the product of the two self products. |
| RankCorrelation.SpearmanIsBounded | sim/analysis.py:670-692 | A correlation is in [-1, 1]. |
| RankCorrelation.SpearmanIsUnique | sim/analysis.py:670-692 | At most one number solves the defining equation. |
| RankCorrelation.SpearmanIsSymmetric | sim/analysis.py:670-692 | Exchanging the two lists changes nothing. |
| RankCorrelation.SpearmanSeesOnlyOrder | sim/analysis.py:670-708 | Replacing a list by one in the same order, as a strictly increasing transform does, changes nothing. |
| RankCorrelation.SpearmanFlips | sim/analysis.py:670-708 | Replacing a list by one in the opposite order flips the sign. |
| RankCorrelation.PerfectCorrelation | sim/analysis.py:670-692 | With any spread at all, lists in the same order correlate at 1 and lists in opposite order at -1. |
| RankCorrelation.GapsAreVarianceLessCovariance | sim/analysis.py:684-692 | With ties or without, the squared rank differences sum to both variances less twice the covariance. |
| RankCorrelation.DistinctVariance | sim/analysis.py:684-708 | Without ties the rank variance sum is n(n^2 - 1)/12. |
| RankCorrelation.ClassicalFormula | sim/analysis.py:670-708 | Without ties r = 1 - 6 * (sum of squared rank differences) / (n(n^2 - 1)). |
| CachedSweep.ScoreConfig | agent/backtest/cached_sweep.py:396-452 | The scoring loop returns the specified row vector over the floored rows, and the specified metrics. |
| CachedSweep.PerRowAddsUp | agent/backtest/cached_sweep.py:396-452 | The per-row pnls sum to the net pnl. |
| CachedSweep.MetricsCountRows | agent/backtest/cached_sweep.py:396-452 | Bets are the rows whose bet is placed at or above the effective floor, the staked size is theirs, and wins are the rows with a positive pnl. |
| CachedSweep.RowsThatPayNothing | agent/backtest/cached_sweep.py:62-116 | No bet, a bet below the effective floor and a void pay nothing; a loser costs exactly its stake. |
| CachedSweep.WinnersArePaidByShares | agent/backtest/cached_sweep.py:62-116 | A winner is paid for its shares at the price of its leg (or the YES price in the legacy mode), up to the cap. |
| CachedSweep.SideCorrectBetIsFair | agent/backtest/cached_sweep.py:62-116 | Priced at its own leg and cleanly settled, a bet on either side is fair at that price. |
| CachedSweep.FloorKeepsAtOrAbove | agent/backtest/cached_sweep.py:396-397 | The entry floor keeps exactly the rows at or above it. |
| SurvivalRows.EntryAsof | agent/backtest/cached_sweep.py:158-179 | For any entry fraction, the scan returns the specified entry point. |
| SurvivalRows.EntryIsLastByTarget | agent/backtest/cached_sweep.py:158-179 | On a chronological ledger, for any entry fraction, the entry is the last point at or before that fraction of the way from the first to the last time, or the first point if a negative fraction leaves none. |
| SurvivalRows.EntryPriceIsServed | agent/backtest/survival_season.py:268-349 | For any fraction that is not negative, a joined row's cached entry price is, to within the epsilon, what the point-in-time provider serves at its entry time. |
| SurvivalRows.BuildSurvivalRows | agent/backtest/survival_season.py:337-376 | The join loop returns the specified rows at or above the floor, if one is set, or the first error. |
| SurvivalRows.JoinKeepsRows | agent/backtest/survival_season.py:337-376 | It succeeds iff every row at or above the floor can be joined, and then holds those rows in order. |
| SurvivalRows.GetTestSignalRows | scripts/run_cross_market_journey.py:272-299 | Join, split, and take the signals of the holdout. |
| SurvivalRows.TestRowsAreLater | scripts/run_cross_market_journey.py:237-299 | The test rows are the later part of the joined universe: both parts are non-empty and everything outside the window enters strictly before it. |
| SurvivalRows.TestWindowIgnoresSignals | scripts/run_cross_market_journey.py:237-299 | Row lists that differ only in their cross-market signals have test windows that differ only in them, in the same order, and fail alike. |
| SetprobAugment.MakePlaceboRows | scripts/setprob_augment.py:307-321 | For every permutation, the loop over the matched indices deals the permuted signals to the matched rows. |
| SetprobAugment.PlaceboOnlyPermutesSignals | scripts/setprob_augment.py:272-321 | The multiset of matched signals is kept, unmatched rows are kept, and nothing but signals changes. |
| SetprobAugment.PlaceboFollowsOrder | scripts/setprob_augment.py:307-321 | The k-th matched row carries the signal of the matched row that the permutation names. |
| SetprobAugment.MakeNeutralRows | scripts/setprob_augment.py:257-264 | Every signal is zero, and putting a signal back gives the row back: nothing else changes. |
| CrossMarketJourney.ComputeGoDelta | scripts/run_cross_market_journey.py:208-229 | The loop returns the specified differences of matched rows, or the mismatch it meets first. |
| CrossMarketJourney.DeltasAreTheEdge | scripts/run_cross_market_journey.py:208-229 | The arms pair iff their keys agree row by row; the differences sum to the treatment's pnl over the matched rows less the placebo's, and each is positive exactly where the treatment earned more. |
| CrossMarketJourney.SeedMeanDelta | scripts/run_cross_market_journey.py:512-599 | For one seed it fails iff there is no test window; neither the pairing nor the length check ever raises; the result is the row-wise mean over all placebo arms, with the matched keys in order. |
| CrossMarketJourney.ArmsAlwaysPair | scripts/run_cross_market_journey.py:208-229 | For any permutation and any two configurations, the two arms have a test window together or not at all; if they have, their vectors always pair, and the differences run over exactly the matched rows above the floor, in order. |
| CrossMarketJourney.BlindConfigurationHasNoEdge | scripts/run_cross_market_journey.py:186-229 | A configuration that does not look at the signal differs from its placebo by exactly zero on every row. |
| GoVerdict.HeadlineVerdict | scripts/run_cross_market_journey.py:662-673 | From the rows to the verdict of the headline seed: fails iff there is no test window; the interval is the bootstrap of the mean differences over exactly the matched rows above the floor; a configuration blind to the signal, selected on every arm, is inconclusive for all permutations and all draws; with enough rows and clusters a treatment that beats every placebo arm on every matched row is EDGE, and one that is beaten is REFUTED. |
| GoVerdict.MeansAddUp | scripts/run_cross_market_journey.py:589-598 | The mean differences, times the number of arms, sum to the differences of all arms together. |
| GoVerdict.BlindSeedIsZero | scripts/run_cross_market_journey.py:512-599 | With such a configuration the mean difference is zero on every row. |
| GoVerdict.ZerosAreInconclusive | scripts/run_cross_market_journey.py:121-138 | Zero differences are inconclusive for all draws. |
| ClusterBootstrap.PercentileInRange | agent/backtest/sharp_line.py:163-172 | A percentile of a sorted list lies between its first and its last value. |
| ClusterBootstrap.PercentileIsMonotone | agent/backtest/sharp_line.py:163-172 | A larger q gives no smaller percentile. |
| ClusterBootstrap.GroupByKey | agent/backtest/sharp_line.py:204-209 | The loop files values under their keys, clusters in order of first appearance. |
| ClusterBootstrap.ClusterSampleMeans | agent/backtest/sharp_line.py:218-228 | For every draw sequence, the loop returns the mean of the drawn clusters' pooled values. |
| ClusterBootstrap.ClusterBootstrapCi | agent/backtest/sharp_line.py:175-244 | Refused iff values and keys do not align; nothing is reported for no data; otherwise the specified intervals. |
| ClusterBootstrap.ClustersAreKeyClasses | agent/backtest/sharp_line.py:204-209 | Clusters have distinct keys, exactly those that occur, and each holds exactly the values of its key in order. |
| ClusterBootstrap.ClustersRelabel | agent/backtest/sharp_line.py:204-209 | Injectively renamed keys give the same clusters, renamed. |
| ClusterBootstrap.NamesDoNotMatter | agent/backtest/sharp_line.py:175-244 | Injectively renaming the clusters changes neither their number nor any interval. |
| ClusterBootstrap.IntervalIsSound | agent/backtest/sharp_line.py:175-244 | For all draws, lo <= hi, and both intervals and the point estimate stay between any bounds of the data. |
| BootstrapQuantiles.IntervalCutsTails | agent/backtest/sharp_line.py:175-244 | By counting the resampled means: with pos = (1 - ci)/2 * (B - 1), at least floor(pos) + 1 are at or below lo and at most ceil(pos) below it, and the mirror image at hi; for the cluster and the iid interval. |
| BootstrapQuantiles.FullConfidence | agent/backtest/sharp_line.py:196-243 | At ci = 1 the interval runs from the least to the greatest mean. |
| BootstrapQuantiles.ConfidenceWidens | agent/backtest/sharp_line.py:196-243 | A larger ci never shrinks the interval. |
| BootstrapQuantiles.PercentileInterpolates | agent/backtest/sharp_line.py:163-172 | The percentile is the k-th entry where the position is k, and moves on the straight line between neighbours. |
| BootstrapQuantiles.WholeSampleIsPoint | agent/backtest/sharp_line.py:218-228 | A draw that takes every cluster once, in any order, gives the plain mean of the data: clusters weigh by their size. |
| BootstrapQuantiles.PointIsMean | agent/backtest/sharp_line.py:202-244 | The point estimate is the mean, the counts are those of the data, and an iid draw that takes every value once gives the mean. |
| BootstrapQuantiles.VerdictCountsMeans | agent/backtest/sharp_line.py:247-264 | EDGE leaves at most ceil(pos) means at or below zero, and at most floor(pos) of them are enough for it; REFUTED likewise for means at or above the smallest effect of interest, after EDGE; too few rows or clusters decide nothing. |
| ClusterBootstrap.VerdictsOverlapIff | agent/backtest/sharp_line.py:175-264 | For any confidence level and any guards on rows and clusters: there are data and draws whose verdict is EDGE although the upper bound is below the smallest effect of interest iff that effect is positive. |
| ClusterBootstrap.SmallGainsOverlap | agent/backtest/sharp_line.py:175-264 | Enough data, all of them gains below the smallest effect of interest, come out as EDGE with the upper bound below that effect, for all draws. |
| ClusterBootstrap.OneSidedDataDecide | scripts/run_cross_market_journey.py:121-138 | Too little data is INCONCLUSIVE; enough all-positive data is EDGE and enough all-negative data is REFUTED, for all draws. |
| SignTest.PValueIsAntitone | scripts/run_cross_market_journey.py:341-350 | More wins never raise the p-value, and with no win it is 1. |
| SignTest.NoMajorityNoEvidence | scripts/run_cross_market_journey.py:341-350 | Without a majority of wins the p-value is at least one half, so the second half of the GO test is implied. |
| SignTest.GoIffRareEnough | scripts/run_cross_market_journey.py:333-357 | GO iff the p-value is below 0.05, iff twenty times the number of outcomes at least as extreme is below the number of all outcomes. |
| SignTest.GoIsMonotone | scripts/run_cross_market_journey.py:333-357 | With the same number of seeds, at least as many wins keep a GO. |
| SignTest.GoReachableIff | scripts/run_cross_market_journey.py:333-357 | Some outcome over n seeds is GO iff n >= 5. |
| SignTest.OneSidedSeeds | scripts/run_cross_market_journey.py:323-357 | A treatment dead or not ahead on every seed has no win, p-value 1 and no GO; one alive and ahead on all n seeds is a GO iff n >= 5. |
| SignTest.FullTail | scripts/run_cross_market_journey.py:346-349 | The whole binomial row sums to 2^n. |
| SignTest.TailComplement | scripts/run_cross_market_journey.py:346-349 | The tail from w and the tail from n + 1 - w together make 2^n. |
| Drawdown.ComputeMaxDrawdownPct | agent/backtest/metrics.py:124-139 | The single pass with a running peak computes a hundred times the worst loss from the running maximum, where that is positive. |
| Drawdown.NoPairFallsFurther | agent/backtest/metrics.py:96-139 | On a curve that is never negative, no fall from a positive value to a later one is larger than the answer. |
| Drawdown.SomePairFallsThatFar | agent/backtest/metrics.py:96-139 | The answer is zero or is the fall of some pair: it is the maximum over all pairs. |
| Drawdown.ZeroDrawdownIff | agent/backtest/metrics.py:96-139 | It is never negative, and is zero iff no value falls below an earlier positive one. |
| Drawdown.AtMostAHundredIff | agent/backtest/metrics.py:96-139 | It is at most 100 iff no value is negative after an earlier positive one. |
| Drawdown.DrawdownAboveAHundred | agent/backtest/metrics.py:96-139 | The curve 1, -1 has a drawdown of 200. |
| Drawdown.DrawdownIgnoresUnits | agent/backtest/metrics.py:124-139 | Scaling the curve by a positive factor changes nothing. |
| SharpLine.SoftConsensusProb | agent/backtest/sharp_line.py:365-394 | The loop over the books returns the specified consensus, falling back to the average odds. |
| SharpLine.ConsensusIsBetween | agent/backtest/sharp_line.py:365-394 | If any book is usable the consensus does not fall back and lies within any bounds on the usable books' probabilities. |
| SharpLine.ConsensusIsMean | agent/backtest/sharp_line.py:365-394 | A book consensus times the number of usable books is the sum of their probabilities. |
| SharpLine.ConsensusFallsBack | agent/backtest/sharp_line.py:365-394 | Without a usable book the consensus is the average line's and is flagged. |
| SharpLine.EveryUsableBookCounts | agent/backtest/sharp_line.py:365-394 | The books that count are exactly those that quote both sides, in order. |
| SharpLine.ConsensusIsFair | agent/backtest/sharp_line.py:365-394 | The consensus is strictly inside (0, 1), the other player's is its complement, and both exist and fall back together. |
| SharpLine.TwoASampleIgnoresResult | agent/backtest/sharp_line.py:694-737 | Exchanging winner and loser with all their odds keeps the drop reason, both probabilities, the key and the source of the consensus, and only turns the outcome over. |
| SharpLine.SampleReadsReference | agent/backtest/sharp_line.py:694-737 | A sample reads both lines from the player whose key sorts first, y says whether that player won, and the edge is positive exactly when the sharp line was nearer to what happened. |
| SharpLine.SampleExistsExactlyWhen | agent/backtest/sharp_line.py:694-737 | A row becomes a sample iff it may be used, names two different players, Pinnacle quotes both sides, and some book or the average does. |
| SharpLine.EdgeSign | agent/backtest/sharp_line.py:141-143 | The edge is positive iff the sharp probability is nearer to the outcome, and changes sign when the two lines are exchanged. |
| SharpLine.JoinOneToOne | agent/backtest/sharp_line.py:603-656 | The nested search over days and rows returns the specified candidate or drop reason. |
| SharpLine.JoinIgnoresResults | agent/backtest/sharp_line.py:603-656 | Exchanging winner and loser in any set of rows keeps the drop reason and the chosen match, and only turns the orientation flag of an exchanged row. |
| SharpLine.JoinFindsTheOnlyFit | agent/backtest/sharp_line.py:603-656 | Over exactly the days within the tolerance: it succeeds iff one row fits one way round and none both ways, returning that row and that way round; it is a date miss iff nothing fits. |
| SharpLine.BetsMirrorExactlyWhen | agent/backtest/sharp_line.py:293-343 | Seen from the other player, the same bet is placed or dropped, on the other side, for the same net pnl, iff the threshold is not negative, or the two probabilities differ, or no NO bet finds a valid price in either view. |
| SharpLine.BetInNumbers | agent/backtest/sharp_line.py:293-343 | When a bet is placed, at what price, and what it nets: the leg is bought across the spread, its shares settle at one, and the fee comes off on either result. |
| SharpLine.MirrorLost | agent/backtest/sharp_line.py:293-343 | It fails at probabilities and price one half, threshold -1 and no spread. |

## Left out

- Floating point: floats are exact reals, so rounding, overflow, NaN and infinite odds or deltas are not modelled. The only rounding kept is the half-to-even rounding of the split's cut.
- The last halvings of the bisection in doubles: sixty halvings need more bits than a double has. In doubles level odds give a set probability of exactly one half and a level of 0.0 for both players, and any other miss of the two set probabilities from 1 is a matter of rounding, not of 2^-60. `CrossMarketSignal.ExactLevelOdds` shows where exact arithmetic differs; it says nothing about the program.
- Timestamps are whole seconds; ISO parsing, microseconds and the errors for naive timestamps are not modelled.
- `sim/analysis.py` takes a square root in the correlation; here a correlation is a number that solves the defining equation, shown to be unique.
- Surname and Unicode normalisation, slug parsing and the ISO week key: rows carry normalised names and keys. Player and surface fields of joined rows, and the settlement fields copied beside them, are not modelled.
- Random generators: seeds, salts and the order in which draws are taken from a generator. Streams, permutations and index draws are arbitrary within their ranges.
- `DecisionEngine.decide`, the season runner, the strategy advisor and the frozen holdout are arbitrary functions of what the visible code passes them; state that a season keeps outside its result (the shared updater's averages, the state directory) is not modelled.
- Tribute decisions, prayers, cost metering, the regime ledger, participation thirds, curves, notes and season summaries in the artifact, and the recomputation of each step's pnl. A season or holdout that raises, or fails that recomputation, is one that yields nothing; the price floor over all bets is modelled.
- The advisor's preflight and the derivation of the starting seed from the base configuration: the seed is arbitrary.
- LifetimeLaws.SurvivorsBreatheIff: asks that the initial breath reach the last tick without income. Below that only lung expansions get an agent to the cap; there the exact condition is the one over the life's account, and the condition on the parameters alone is only shown sufficient.
- `run_reincarnation_export`, the baseline curves and the archetype seasons.
- Sweep aggregates beyond bets, wins, size and net pnl: Sharpe ratio, drawdown of the sweep, configuration ranking; Bayesian optimisation, the Latin hypercube sampler and the objectives other than lucidity and the death paths.
- The other seeds of the GO readout: their point estimates and spread, which are reported but do not enter the bootstrap.
- `select_winner` in the journey: each arm's configuration is arbitrary.
- The second probe of the sharp-line study (closing prices over HTTP) and its return grid.
- HTTP, caches, JSON, temporary directories, command lines, reports, plots, the dashboard and the contracts.
- Lifetime.Runner.LiveOneTick: the source has this as statements inside the lifetime loop; it is a method of its own here, with the same statements. The same holds for GroundhogRun.RecordLife, for the inner loops TimeShift.DealSlots, TiedRanks.RunEnd and TennisMarket.WriteMatch, and for the bootstrap's two sampling loops.
- Lifetime.Runner.SimulateLifetime: takes the market that the source's factory builds from the seed, and the two random streams, as parameters.
- TennisMarket.BuildArrays: the normal and point shocks of a tick are one arbitrary number, and the arrays start at zero instead of uninitialised.
