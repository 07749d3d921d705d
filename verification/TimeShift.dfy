/**
 The paired time-shift (agent/backtest/reincarnation.py): every market is moved,
 row and snapshot together, to a slot of an evenly loosened timeline. The seeded
 shuffle is any permutation, so what is proved holds for every seed.
 */
module TimeShift {
  import opened Markets
  import opened StableSort
  import opened PointInTime
  import opened ChronologicalSplit
  import opened Permutations

  const MIN_SPACING := 60

  function SlotTimes(ordered: seq<SurvivalRow>, spacing: int): (r: seq<int>)
    ensures |r| == |ordered|
  {
    if ordered == [] then []
    else
      var before := SlotTimes(ordered[..|ordered| - 1], spacing);
      var ts := ordered[|ordered| - 1].entryTs;
      before + [if before != [] && ts < before[|before| - 1] + spacing then before[|before| - 1] + spacing else ts]
  }

  function ShiftRow(r: SurvivalRow, delta: int): SurvivalRow {
    r.(entryTs := r.entryTs + delta,
       resolutionTs := match r.resolutionTs case None => None case Some(ts) => Some(ts + delta),
       endTs := r.endTs + delta)
  }

  /** How far the market dealt to slot j is moved. */
  function Delta(ordered: seq<SurvivalRow>, spacing: int, order: seq<nat>, j: nat): int
    requires j < |order| == |ordered| && order[j] < |ordered|
  {
    SlotTimes(ordered, spacing)[j] - ordered[order[j]].entryTs
  }

  function Ids(rows: seq<SurvivalRow>): set<string> { set r | r in rows :: r.marketId }

  function NotAmong(ids: set<string>): Snapshot -> bool { (s: Snapshot) => s.marketId !in ids }

  predicate EveryRowHasSnapshot(rows: seq<SurvivalRow>, snapshots: seq<Snapshot>) {
    forall r :: r in rows ==> Lookup(snapshots, r.marketId).Some?
  }

  datatype Shuffled = Shuffled(rows: seq<SurvivalRow>, snapshots: seq<Snapshot>)

  function ShuffledRow(ordered: seq<SurvivalRow>, spacing: int, order: seq<nat>, j: nat): SurvivalRow
    requires j < |order| == |ordered| && order[j] < |ordered|
  {
    ShiftRow(ordered[order[j]], Delta(ordered, spacing, order, j))
  }

  function ShuffledSnapshot(ordered: seq<SurvivalRow>, snapshots: seq<Snapshot>, spacing: int, order: seq<nat>, j: nat): Snapshot
    requires j < |order| == |ordered| && order[j] < |ordered| && EveryRowHasSnapshot(ordered, snapshots)
  {
    ShiftSnapshot(Lookup(snapshots, ordered[order[j]].marketId).value, Delta(ordered, spacing, order, j))
  }

  lemma OrderedRowsHaveSnapshots(rows: seq<SurvivalRow>, snapshots: seq<Snapshot>)
    ensures EveryRowHasSnapshot(Chronological(rows), snapshots) <==> EveryRowHasSnapshot(rows, snapshots)
    ensures Ids(Chronological(rows)) == Ids(rows)
  {
    forall r ensures r in Chronological(rows) <==> r in rows {
      SortedMembers(rows, EntersBefore, r);
    }
  }

  /** Rows and snapshots after the shift; snapshots without a row come last, untouched. */
  ghost function ShuffledTimeline(ordered: seq<SurvivalRow>, snapshots: seq<Snapshot>, spacing: int, order: seq<nat>): Shuffled
    requires IsPermutation(order, |ordered|) && EveryRowHasSnapshot(ordered, snapshots)
  {
    Shuffled(
      seq(|ordered|, j requires 0 <= j < |ordered| => ShuffledRow(ordered, spacing, order, j)),
      seq(|ordered|, j requires 0 <= j < |ordered| => ShuffledSnapshot(ordered, snapshots, spacing, order, j))
        + Filter(snapshots, NotAmong(Ids(ordered))))
  }

  /** The whole transform: order the rows, then deal them. */
  ghost function Shuffle(rows: seq<SurvivalRow>, snapshots: seq<Snapshot>, spacing: int, order: seq<nat>): Shuffled
    requires IsPermutation(order, |rows|) && EveryRowHasSnapshot(rows, snapshots)
  {
    OrderedRowsHaveSnapshots(rows, snapshots);
    ShuffledTimeline(Chronological(rows), snapshots, spacing, order)
  }

  function DealtIds(ordered: seq<SurvivalRow>, order: seq<nat>, j: nat): set<string>
    requires j <= |order| && forall k :: 0 <= k < |order| ==> order[k] < |ordered|
  {
    set k | 0 <= k < j :: ordered[order[k]].marketId
  }

  /** The monotone pass over the slots. */
  method LayOutSlots(ordered: seq<SurvivalRow>, spacing: int) returns (slots: seq<int>)
    ensures slots == SlotTimes(ordered, spacing)
  {
    slots := [];
    for j := 0 to |ordered|
      invariant slots == SlotTimes(ordered[..j], spacing)
    {
      var ts := ordered[j].entryTs;
      if slots != [] && ts < slots[|slots| - 1] + spacing {
        ts := slots[|slots| - 1] + spacing;
      }
      slots := slots + [ts];
      assert ordered[..j + 1][..j] == ordered[..j];
    }
    assert ordered[..|ordered|] == ordered;
  }

  /** Gives each slot its market, row and snapshot moved by the same amount. */
  method DealSlots(ordered: seq<SurvivalRow>, snapshots: seq<Snapshot>, slots: seq<int>, spacing: int, order: seq<nat>)
    returns (outRows: seq<SurvivalRow>, outSnapshots: seq<Snapshot>, shuffledIds: set<string>)
    requires IsPermutation(order, |ordered|) && EveryRowHasSnapshot(ordered, snapshots)
    requires slots == SlotTimes(ordered, spacing)
    ensures |outRows| == |outSnapshots| == |ordered|
    ensures forall k :: 0 <= k < |ordered| ==> outRows[k] == ShuffledRow(ordered, spacing, order, k)
    ensures forall k :: 0 <= k < |ordered| ==> outSnapshots[k] == ShuffledSnapshot(ordered, snapshots, spacing, order, k)
    ensures shuffledIds == DealtIds(ordered, order, |ordered|)
  {
    hide SlotTimes, Lookup;
    outRows, outSnapshots, shuffledIds := [], [], {};
    for j := 0 to |order|
      invariant |outRows| == |outSnapshots| == j
      invariant forall k :: 0 <= k < j ==> outRows[k] == ShuffledRow(ordered, spacing, order, k)
      invariant forall k :: 0 <= k < j ==> outSnapshots[k] == ShuffledSnapshot(ordered, snapshots, spacing, order, k)
      invariant shuffledIds == DealtIds(ordered, order, j)
    {
      var row := ordered[order[j]];
      var snapshot := Lookup(snapshots, row.marketId).value;
      var delta := slots[j] - row.entryTs;
      outRows := outRows + [ShiftRow(row, delta)];
      outSnapshots := outSnapshots + [ShiftSnapshot(snapshot, delta)];
      shuffledIds := shuffledIds + {row.marketId};
    }
  }

  method ShuffleTimestamps(rows: seq<SurvivalRow>, snapshots: seq<Snapshot>, spacing: int, order: seq<nat>)
    returns (r: Result<Shuffled>)
    requires IsPermutation(order, |rows|)
    ensures r.Ok? <==> EveryRowHasSnapshot(rows, snapshots)
    ensures r.Ok? ==> r.value == Shuffle(rows, snapshots, spacing, order)
  {
    if !EveryRowHasSnapshot(rows, snapshots) {
      return Err("rows without snapshots");
    }
    var ordered := Chronological(rows);
    OrderedRowsHaveSnapshots(rows, snapshots);
    var slots := LayOutSlots(ordered, spacing);
    var outRows, outSnapshots, shuffledIds := DealSlots(ordered, snapshots, slots, spacing, order);
    AllIdsDealt(ordered, order);
    DealtInFull(ordered, snapshots, spacing, order, outRows, outSnapshots);
    return Ok(Shuffled(outRows, outSnapshots + Filter(snapshots, NotAmong(shuffledIds))));
  }

  lemma DealtInFull(ordered: seq<SurvivalRow>, snapshots: seq<Snapshot>, spacing: int, order: seq<nat>,
                    outRows: seq<SurvivalRow>, outSnapshots: seq<Snapshot>)
    requires IsPermutation(order, |ordered|) && EveryRowHasSnapshot(ordered, snapshots)
    requires |outRows| == |outSnapshots| == |ordered|
    requires forall k :: 0 <= k < |ordered| ==> outRows[k] == ShuffledRow(ordered, spacing, order, k)
    requires forall k :: 0 <= k < |ordered| ==> outSnapshots[k] == ShuffledSnapshot(ordered, snapshots, spacing, order, k)
    ensures Shuffled(outRows, outSnapshots + Filter(snapshots, NotAmong(Ids(ordered))))
         == ShuffledTimeline(ordered, snapshots, spacing, order)
  {
    var t := ShuffledTimeline(ordered, snapshots, spacing, order);
    assert outRows == t.rows;
    assert outSnapshots == t.snapshots[..|ordered|];
  }

  lemma AllIdsDealt(ordered: seq<SurvivalRow>, order: seq<nat>)
    requires IsPermutation(order, |ordered|)
    ensures DealtIds(ordered, order, |ordered|) == Ids(ordered)
  {
    forall r | r in ordered ensures r.marketId in DealtIds(ordered, order, |ordered|) {
      var i :| 0 <= i < |ordered| && ordered[i] == r;
      var j := Place(order, |ordered|, i);
    }
  }

  // ----------------------------------------------------------------- slot times

  ghost predicate Spaced(times: seq<int>, ordered: seq<SurvivalRow>, spacing: int) {
    && |times| == |ordered|
    && (forall j :: 0 <= j < |times| ==> times[j] >= ordered[j].entryTs)
    && (forall j :: 0 < j < |times| ==> times[j] >= times[j - 1] + spacing)
  }

  lemma {:induction false} SlotsAreSpaced(ordered: seq<SurvivalRow>, spacing: int)
    ensures Spaced(SlotTimes(ordered, spacing), ordered, spacing)
  {
    if ordered != [] {
      SlotsAreSpaced(ordered[..|ordered| - 1], spacing);
    }
  }

  /**
   The slot timeline is the least one that is nowhere earlier than the original and
   keeps the spacing.
   */
  lemma {:induction false} SlotsAreLeast(ordered: seq<SurvivalRow>, spacing: int, other: seq<int>)
    requires Spaced(other, ordered, spacing)
    ensures Spaced(SlotTimes(ordered, spacing), ordered, spacing)
    ensures forall j :: 0 <= j < |ordered| ==> SlotTimes(ordered, spacing)[j] <= other[j]
  {
    SlotsAreSpaced(ordered, spacing);
    if ordered != [] {
      SlotsAreLeast(ordered[..|ordered| - 1], spacing, other[..|ordered| - 1]);
    }
  }

  /** Slot j is the largest of t_i + (j - i) * spacing over i <= j. */
  lemma {:induction false} SlotsInClosedForm(ordered: seq<SurvivalRow>, spacing: int, j: nat)
    requires j < |ordered|
    ensures forall i :: 0 <= i <= j ==> ordered[i].entryTs + (j - i) * spacing <= SlotTimes(ordered, spacing)[j]
    ensures exists i :: 0 <= i <= j && ordered[i].entryTs + (j - i) * spacing == SlotTimes(ordered, spacing)[j]
  {
    var front := ordered[..|ordered| - 1];
    if j < |front| {
      SlotsInClosedForm(front, spacing, j);
      var i :| 0 <= i <= j && front[i].entryTs + (j - i) * spacing == SlotTimes(front, spacing)[j];
      assert ordered[i].entryTs + (j - i) * spacing == SlotTimes(ordered, spacing)[j];
      forall i | 0 <= i <= j ensures ordered[i].entryTs + (j - i) * spacing <= SlotTimes(ordered, spacing)[j] {
        assert front[i].entryTs + (j - i) * spacing <= SlotTimes(front, spacing)[j];
      }
    } else if j == 0 {
      assert ordered[0].entryTs + (j - 0) * spacing == SlotTimes(ordered, spacing)[0];
    } else {
      SlotsInClosedForm(front, spacing, j - 1);
      LastSlot(ordered, spacing);
    }
  }

  lemma LastSlot(ordered: seq<SurvivalRow>, spacing: int)
    requires |ordered| >= 2
    requires var front := ordered[..|ordered| - 1]; var j := |front|;
      && (forall i :: 0 <= i <= j - 1 ==> front[i].entryTs + (j - 1 - i) * spacing <= SlotTimes(front, spacing)[j - 1])
      && (exists i :: 0 <= i <= j - 1 && front[i].entryTs + (j - 1 - i) * spacing == SlotTimes(front, spacing)[j - 1])
    ensures var j := |ordered| - 1;
      && (forall i :: 0 <= i <= j ==> ordered[i].entryTs + (j - i) * spacing <= SlotTimes(ordered, spacing)[j])
      && (exists i :: 0 <= i <= j && ordered[i].entryTs + (j - i) * spacing == SlotTimes(ordered, spacing)[j])
  {
    var front, j := ordered[..|ordered| - 1], |ordered| - 1;
    var before, slot := SlotTimes(front, spacing)[j - 1], SlotTimes(ordered, spacing)[j];
    forall i | 0 <= i <= j ensures ordered[i].entryTs + (j - i) * spacing <= slot {
      if i < j {
        assert front[i].entryTs + (j - 1 - i) * spacing <= before;
        assert (j - i) * spacing == (j - 1 - i) * spacing + spacing;
      }
    }
    if slot == ordered[j].entryTs {
      assert ordered[j].entryTs + (j - j) * spacing == slot;
    } else {
      var i :| 0 <= i <= j - 1 && front[i].entryTs + (j - 1 - i) * spacing == before;
      assert (j - i) * spacing == (j - 1 - i) * spacing + spacing;
      assert ordered[i].entryTs + (j - i) * spacing == slot;
    }
  }

  // --------------------------------------------------- splitting a shuffled season

  lemma {:induction false} SlotsIncrease(ordered: seq<SurvivalRow>, spacing: int, i: nat, j: nat)
    requires spacing > 0 && i < j < |ordered|
    ensures SlotTimes(ordered, spacing)[i] < SlotTimes(ordered, spacing)[j]
  {
    SlotsAreSpaced(ordered, spacing);
    if i < j - 1 {
      SlotsIncrease(ordered, spacing, i, j - 1);
    }
  }

  /** After the shift no two rows tie and slot order is entry order, so sorting again does nothing. */
  lemma ShuffledRowsAreChronological(rows: seq<SurvivalRow>, snapshots: seq<Snapshot>, spacing: int, order: seq<nat>)
    requires spacing > 0 && IsPermutation(order, |rows|) && EveryRowHasSnapshot(rows, snapshots)
    ensures var out := Shuffle(rows, snapshots, spacing, order).rows;
      && Chronological(out) == out
      && forall i, j :: 0 <= i < j < |out| ==> out[i].entryTs < out[j].entryTs
  {
    var ordered, out := Chronological(rows), Shuffle(rows, snapshots, spacing, order).rows;
    forall i, j | 0 <= i < j < |out| ensures out[i].entryTs < out[j].entryTs {
      assert out[i] == ShuffledRow(ordered, spacing, order, i) && out[j] == ShuffledRow(ordered, spacing, order, j);
      SlotsIncrease(ordered, spacing, i, j);
    }
    SortOfSorted(out, EntersBefore);
  }

  /**
   A split of a shuffled season never fails and absorbs no tie: it trains on exactly
   the markets dealt to the first slots, as many as the fraction asks for.
   */
  lemma SplitAfterShuffle(rows: seq<SurvivalRow>, snapshots: seq<Snapshot>, spacing: int, order: seq<nat>, fraction: real)
    returns (cut: nat)
    requires spacing > 0 && IsPermutation(order, |rows|) && EveryRowHasSnapshot(rows, snapshots)
    requires |rows| >= 2 && 0.0 < fraction < 1.0
    ensures CutFor(|rows|, fraction, cut) && 1 <= cut < |rows|
    ensures var out := Shuffle(rows, snapshots, spacing, order).rows;
      && |out| == |rows|
      && SplitRows(out, fraction) == Ok(Split(out[..cut], out[cut..]))
      && (forall j :: 0 <= j < cut ==> out[j].marketId == Chronological(rows)[order[j]].marketId)
  {
    hide SplitRows, ClampedCut, CutFor;
    cut := ClampedCut(|rows|, fraction);
    ClampedCutIsNearest(|rows|, fraction);
    ShuffledRowsAreChronological(rows, snapshots, spacing, order);
    NothingToAbsorb(Shuffle(rows, snapshots, spacing, order).rows, fraction);
  }

  lemma NothingToAbsorb(rows: seq<SurvivalRow>, fraction: real)
    requires |rows| >= 2 && 0.0 < fraction < 1.0 && Chronological(rows) == rows
    requires forall i, j :: 0 <= i < j < |rows| ==> rows[i].entryTs < rows[j].entryTs
    ensures var cut := ClampedCut(|rows|, fraction); SplitRows(rows, fraction) == Ok(Split(rows[..cut], rows[cut..]))
  {
    hide ClampedCut, Chronological;
    var cut := ClampedCut(|rows|, fraction);
    assert rows[cut - 1].entryTs < rows[cut].entryTs;
  }

  // ------------------------------------------------- what the shift leaves alone

  /** A row with its clock started at its own entry: all that a rigid move keeps. */
  function Rigid(r: SurvivalRow): SurvivalRow { ShiftRow(r, -r.entryTs) }

  lemma RigidAfterShift(r: SurvivalRow, delta: int)
    ensures Rigid(ShiftRow(r, delta)) == Rigid(r)
  {
  }

  /** Each row is dealt exactly once, with the intervals inside it kept. */
  lemma ShuffleKeepsRows(rows: seq<SurvivalRow>, snapshots: seq<Snapshot>, spacing: int, order: seq<nat>)
    requires IsPermutation(order, |rows|) && EveryRowHasSnapshot(rows, snapshots)
    ensures multiset(Map(Shuffle(rows, snapshots, spacing, order).rows, Rigid)) == multiset(Map(rows, Rigid))
  {
    var ordered, out := Chronological(rows), Shuffle(rows, snapshots, spacing, order).rows;
    var dealt := Deal(ordered, order);
    DealKeepsMultiset(ordered, order);
    forall j | 0 <= j < |rows| ensures Rigid(out[j]) == Rigid(dealt[j]) {
      RigidAfterShift(dealt[j], Delta(ordered, spacing, order, j));
    }
    assert Map(out, Rigid) == Map(dealt, Rigid);
    MapKeepsMultiset(dealt, rows, Rigid);
  }

  predicate MovedTime(before: Option<int>, after: Option<int>, delta: int) {
    (before.None? && after.None?) || (before.Some? && after.Some? && after.value - before.value == delta)
  }

  ghost predicate MovedRow(a: SurvivalRow, b: SurvivalRow, delta: int) {
    && b.marketId == a.marketId && b.signal == a.signal
    && b.entryTs - a.entryTs == delta && b.endTs - a.endTs == delta && MovedTime(a.resolutionTs, b.resolutionTs, delta)
  }

  ghost predicate MovedSnapshot(a: Snapshot, b: Snapshot, delta: int) {
    && b.marketId == a.marketId && b.slug == a.slug && b.outcome == a.outcome
    && b.winningPrice == a.winningPrice && b.liquidityCap == a.liquidityCap
    && b.endTs - a.endTs == delta && MovedTime(a.resolutionTs, b.resolutionTs, delta)
    && |b.ledger| == |a.ledger|
    && forall i :: 0 <= i < |a.ledger| ==> b.ledger[i].price == a.ledger[i].price && b.ledger[i].ts - a.ledger[i].ts == delta
  }

  /** The market dealt to slot j enters at the j-th slot time, and row and snapshot move by one and the same amount. */
  lemma PairTakesItsSlot(rows: seq<SurvivalRow>, snapshots: seq<Snapshot>, spacing: int, order: seq<nat>, j: nat)
    requires IsPermutation(order, |rows|) && EveryRowHasSnapshot(rows, snapshots) && j < |rows|
    ensures var ordered, out := Chronological(rows), Shuffle(rows, snapshots, spacing, order);
      && |out.rows| == |rows| <= |out.snapshots| && order[j] < |rows|
      && var before := ordered[order[j]];
         var delta := SlotTimes(ordered, spacing)[j] - before.entryTs;
         var snapshot := Lookup(snapshots, before.marketId);
      && MovedRow(before, out.rows[j], delta)
      && snapshot.Some? && MovedSnapshot(snapshot.value, out.snapshots[j], delta)
  {
    hide SlotTimes;
    OrderedRowsHaveSnapshots(rows, snapshots);
    assert Chronological(rows)[order[j]] in Chronological(rows);
  }

  lemma {:induction false} LookupConcat(a: seq<Snapshot>, b: seq<Snapshot>, id: string)
    ensures Lookup(a + b, id) == if Lookup(b, id).Some? then Lookup(b, id) else Lookup(a, id)
  {
    if b == [] {
      assert a + b == a;
    } else {
      var front, last := b[..|b| - 1], b[|b| - 1];
      LookupConcat(a, front, id);
      LookupPush(a + front, last, id);
      assert a + b == (a + front) + [last];
    }
  }

  lemma {:induction false} LookupFiltered(snapshots: seq<Snapshot>, ids: set<string>, id: string)
    ensures Lookup(Filter(snapshots, NotAmong(ids)), id) == if id in ids then None else Lookup(snapshots, id)
  {
    if snapshots != [] {
      var front, last := snapshots[..|snapshots| - 1], snapshots[|snapshots| - 1];
      LookupFiltered(front, ids, id);
      LookupPush(Filter(front, NotAmong(ids)), last, id);
    }
  }

  ghost predicate DistinctIds(rows: seq<SurvivalRow>) { |Ids(rows)| == |rows| }

  lemma {:induction false} FewerIdsThanRows(rows: seq<SurvivalRow>)
    ensures |Ids(rows)| <= |rows|
  {
    if rows == [] {
      assert Ids(rows) == {};
    } else {
      var front, last := rows[..|rows| - 1], rows[|rows| - 1];
      FewerIdsThanRows(front);
      assert rows == front + [last];
      assert Ids(rows) == Ids(front) + {last.marketId};
    }
  }

  lemma RepeatedId(rows: seq<SurvivalRow>, i: nat, j: nat)
    requires i < |rows| && j < |rows| && i != j && rows[i].marketId == rows[j].marketId
    ensures !DistinctIds(rows)
  {
    var others := rows[..j] + rows[j + 1..];
    forall r | r in rows ensures r.marketId in Ids(others) {
      var k :| 0 <= k < |rows| && rows[k] == r;
      var k' := if k == j then i else k;
      assert others[if k' < j then k' else k' - 1].marketId == r.marketId;
    }
    forall r | r in others ensures r in rows {
      assert r in rows[..j] || r in rows[j + 1..];
    }
    assert Ids(rows) == Ids(others);
    FewerIdsThanRows(others);
  }

  lemma LookupUnique(snapshots: seq<Snapshot>, j: nat)
    requires j < |snapshots|
    requires forall k :: 0 <= k < |snapshots| && k != j ==> snapshots[k].marketId != snapshots[j].marketId
    ensures Lookup(snapshots, snapshots[j].marketId) == Some(snapshots[j])
  {
    assert snapshots[j] in snapshots;
    var r := Lookup(snapshots, snapshots[j].marketId);
    var k :| 0 <= k < |snapshots| && snapshots[k] == r.value;
  }

  /** The snapshot found after the shuffle is the dealt market's own, moved. */
  lemma LookupAfterShuffle(ordered: seq<SurvivalRow>, snapshots: seq<Snapshot>, spacing: int, order: seq<nat>, j: nat)
    requires IsPermutation(order, |ordered|) && EveryRowHasSnapshot(ordered, snapshots) && DistinctIds(ordered) && j < |ordered|
    ensures Lookup(ShuffledTimeline(ordered, snapshots, spacing, order).snapshots, ordered[order[j]].marketId)
         == Some(ShuffledSnapshot(ordered, snapshots, spacing, order, j))
  {
    var dealt := seq(|ordered|, k requires 0 <= k < |ordered| => ShuffledSnapshot(ordered, snapshots, spacing, order, k));
    var id := ordered[order[j]].marketId;
    assert ordered[order[j]] in ordered;
    LookupConcat(dealt, Filter(snapshots, NotAmong(Ids(ordered))), id);
    LookupFiltered(snapshots, Ids(ordered), id);
    forall k | 0 <= k < |dealt| && k != j ensures dealt[k].marketId != id {
      if dealt[k].marketId == id {
        RepeatedId(ordered, order[k], order[j]);
      }
    }
    LookupUnique(dealt, j);
  }

  /**
   The price provider cannot tell that a market was moved: asked about the market
   dealt to slot j at a time moved by the same amount, it answers as before.
   */
  lemma MovedMarketAnswersAlike(rows: seq<SurvivalRow>, snapshots: seq<Snapshot>, spacing: int, order: seq<nat>, j: nat)
    requires IsPermutation(order, |rows|) && EveryRowHasSnapshot(rows, snapshots) && DistinctIds(rows) && j < |rows|
    ensures var out := Shuffle(rows, snapshots, spacing, order);
      AnswersMoved(snapshots, out.snapshots, out.rows[j].marketId, Delta(Chronological(rows), spacing, order, j))
  {
    var ordered := Chronological(rows);
    OrderedRowsHaveSnapshots(rows, snapshots);
    LookupAfterShuffle(ordered, snapshots, spacing, order, j);
    assert ordered[order[j]] in ordered;
    ShiftedLookupAnswersAlike(snapshots, Shuffle(rows, snapshots, spacing, order).snapshots,
                              ordered[order[j]].marketId, Delta(ordered, spacing, order, j));
  }

  /** A market without a row is not touched at all. */
  lemma RowlessMarketUntouched(rows: seq<SurvivalRow>, snapshots: seq<Snapshot>, spacing: int, order: seq<nat>, id: string)
    requires IsPermutation(order, |rows|) && EveryRowHasSnapshot(rows, snapshots) && id !in Ids(rows)
    ensures Lookup(Shuffle(rows, snapshots, spacing, order).snapshots, id) == Lookup(snapshots, id)
  {
    var ordered := Chronological(rows);
    OrderedRowsHaveSnapshots(rows, snapshots);
    var dealt := seq(|ordered|, k requires 0 <= k < |ordered| => ShuffledSnapshot(ordered, snapshots, spacing, order, k));
    LookupConcat(dealt, Filter(snapshots, NotAmong(Ids(ordered))), id);
    LookupFiltered(snapshots, Ids(ordered), id);
    forall s | s in dealt ensures s.marketId != id {
      var k :| 0 <= k < |dealt| && dealt[k] == s;
      assert ordered[order[k]] in ordered;
    }
    assert Lookup(dealt, id).None?;
  }
}
