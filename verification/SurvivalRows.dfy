/**
 Joining signal rows to their snapshots (agent/backtest/survival_season.py,
 agent/backtest/cached_sweep.py) and taking the held-out test window.
 */
module SurvivalRows {
  import opened Arithmetic
  import opened Markets
  import opened StableSort
  import opened CachedSweep
  import opened ChronologicalSplit
  import opened SetprobAugment
  import opened PointInTime

  /** The default entry fraction. */
  const ENTRY_FRACTION := 0.5
  const ENTRY_PRICE_EPS := 0.000_000_001

  function EntryTarget(ledger: seq<PricePoint>, entryFraction: real): real
    requires ledger != []
  {
    var first, last := ledger[0].ts as real, ledger[|ledger| - 1].ts as real;
    first + entryFraction * (last - first)
  }

  /** How many points the entry scan passes before it meets one after the target. */
  function ScanLength(ledger: seq<PricePoint>, target: real): (n: nat)
    ensures n <= |ledger| && (forall k :: 0 <= k < n ==> ledger[k].ts as real <= target)
    ensures n < |ledger| ==> ledger[n].ts as real > target
  {
    if ledger == [] || ledger[0].ts as real > target then 0
    else
      var n := ScanLength(ledger[1..], target);
      assert forall k :: 0 < k <= n ==> ledger[k] == ledger[1..][k - 1];
      1 + n
  }

  function EntryPoint(ledger: seq<PricePoint>, entryFraction: real): PricePoint
    requires ledger != []
  {
    var n := ScanLength(ledger, EntryTarget(ledger, entryFraction));
    if n == 0 then ledger[0] else ledger[n - 1]
  }

  method EntryAsof(ledger: seq<PricePoint>, entryFraction: real) returns (r: PricePoint)
    requires ledger != []
    ensures r == EntryPoint(ledger, entryFraction)
  {
    var target := EntryTarget(ledger, entryFraction);
    r := ledger[0];
    var i := 0;
    while i < |ledger| && ledger[i].ts as real <= target
      invariant i <= ScanLength(ledger, target)
      invariant r == if i == 0 then ledger[0] else ledger[i - 1]
    {
      r := ledger[i];
      i := i + 1;
    }
  }

  function JoinRow(row: SignalRow, snapshots: seq<Snapshot>, entryFraction: real): Result<SurvivalRow> {
    match Lookup(snapshots, row.marketId)
    case None => Err("no snapshot")
    case Some(s) =>
      if s.ledger == [] then Err("empty ledger")
      else
        var entry := EntryPoint(s.ledger, entryFraction);
        if -ENTRY_PRICE_EPS <= entry.price - row.entryPrice <= ENTRY_PRICE_EPS
        then Ok(SurvivalRow(row.marketId, row, entry.ts, s.resolutionTs, s.endTs))
        else Err("entry price disagrees")
  }

  /**
   On a chronological ledger the entry is the last point at or before the given fraction of
   the way from the first to the last time, or the first point if a negative fraction leaves none.
   */
  lemma EntryIsLastByTarget(ledger: seq<PricePoint>, entryFraction: real) returns (i: nat)
    requires ledger != [] && Sorted(ledger, NotLater)
    ensures i < |ledger| && EntryPoint(ledger, entryFraction) == ledger[i]
    ensures var first, last := ledger[0].ts as real, ledger[|ledger| - 1].ts as real;
      && (ledger[i].ts as real - first <= entryFraction * (last - first) || (i == 0 && entryFraction < 0.0))
      && forall j :: i < j < |ledger| ==> ledger[j].ts as real - first > entryFraction * (last - first)
  {
    var target := EntryTarget(ledger, entryFraction);
    assert NotLater(ledger[0], ledger[0]) && (|ledger| > 1 ==> NotLater(ledger[0], ledger[|ledger| - 1]));
    if entryFraction >= 0.0 {
      ProductNotNegative(entryFraction, (ledger[|ledger| - 1].ts - ledger[0].ts) as real);
      assert ledger[0].ts as real <= target;
    }
    var n := ScanLength(ledger, target);
    i := if n == 0 then 0 else n - 1;
    forall j | i < j < |ledger| ensures ledger[j].ts as real > target {
      assert j == n || NotLater(ledger[n], ledger[j]);
    }
  }

  /** A joined row entered at the price the point-in-time provider serves at its entry time. */
  lemma EntryPriceIsServed(row: SignalRow, snapshots: seq<Snapshot>, entryFraction: real)
    requires entryFraction >= 0.0
    requires JoinRow(row, snapshots, entryFraction).Ok? && Sorted(Lookup(snapshots, row.marketId).value.ledger, NotLater)
    ensures var served := PriceIn(snapshots, row.marketId, JoinRow(row, snapshots, entryFraction).value.entryTs);
      served.Some? && -ENTRY_PRICE_EPS <= served.value - row.entryPrice <= ENTRY_PRICE_EPS
    ensures var r, s := JoinRow(row, snapshots, entryFraction).value, Lookup(snapshots, row.marketId).value;
      r.marketId == row.marketId && r.signal == row && r.endTs == s.endTs && r.resolutionTs == s.resolutionTs
  {
    hide EntryPoint, ScanLength, PriceAsOf;
    var ledger := Lookup(snapshots, row.marketId).value.ledger;
    var i := EntryIsLastByTarget(ledger, entryFraction);
    forall j | 0 <= j < i ensures ledger[j].ts <= ledger[i].ts {
      assert NotLater(ledger[j], ledger[i]);
    }
    assert IsLatest(ledger, ledger[i].ts, i);
    ServedPriceIsLatestKnown(ledger, ledger[i].ts, ledger[i].price);
  }

  /** The joined universe above the floor, in row order; the first bad row is an error. */
  function Joined(rows: seq<SignalRow>, snapshots: seq<Snapshot>, floor: Option<real>, entryFraction: real): Result<seq<SurvivalRow>> {
    if rows == [] then Ok([])
    else
      var last := rows[|rows| - 1];
      match Joined(rows[..|rows| - 1], snapshots, floor, entryFraction)
      case Err(e) => Err(e)
      case Ok(front) =>
        if !KeepsRow(floor)(last) then Ok(front)
        else
          match JoinRow(last, snapshots, entryFraction)
          case Err(e) => Err(e)
          case Ok(r) => Ok(front + [r])
  }

  method BuildSurvivalRows(rows: seq<SignalRow>, snapshots: seq<Snapshot>, floor: Option<real>, entryFraction: real) returns (r: Result<seq<SurvivalRow>>)
    ensures r == Joined(rows, snapshots, floor, entryFraction)
  {
    var out := [];
    for i := 0 to |rows|
      invariant Joined(rows[..i], snapshots, floor, entryFraction) == Ok(out)
    {
      assert rows[..i + 1][..i] == rows[..i];
      if !KeepsRow(floor)(rows[i]) {
        continue;
      }
      var joined := JoinRow(rows[i], snapshots, entryFraction);
      if joined.Err? {
        JoinedStopsAt(rows, snapshots, floor, entryFraction, i + 1);
        return Err(joined.reason);
      }
      out := out + [joined.value];
    }
    assert rows[..|rows|] == rows;
    return Ok(out);
  }

  lemma {:induction false} JoinedStopsAt(rows: seq<SignalRow>, snapshots: seq<Snapshot>, floor: Option<real>, entryFraction: real, i: nat)
    requires i <= |rows| && Joined(rows[..i], snapshots, floor, entryFraction).Err?
    ensures Joined(rows, snapshots, floor, entryFraction) == Joined(rows[..i], snapshots, floor, entryFraction)
    decreases |rows|
  {
    if i == |rows| {
      assert rows[..i] == rows;
    } else {
      assert rows[..|rows| - 1][..i] == rows[..i];
      JoinedStopsAt(rows[..|rows| - 1], snapshots, floor, entryFraction, i);
    }
  }

  function SignalOf(r: SurvivalRow): SignalRow { r.signal }

  /** The signal rows of the held-out window. */
  function TestRows(rows: seq<SignalRow>, snapshots: seq<Snapshot>, floor: Option<real>, fraction: real): Result<seq<SignalRow>> {
    match Joined(rows, snapshots, floor, ENTRY_FRACTION)
    case Err(e) => Err(e)
    case Ok(joined) =>
      match SplitRows(joined, fraction)
      case Err(e) => Err(e)
      case Ok(s) => Ok(Map(s.holdout, SignalOf))
  }

  method GetTestSignalRows(rows: seq<SignalRow>, snapshots: seq<Snapshot>, floor: Option<real>, fraction: real)
    returns (r: Result<seq<SignalRow>>)
    ensures r == TestRows(rows, snapshots, floor, fraction)
  {
    var joined := BuildSurvivalRows(rows, snapshots, floor, ENTRY_FRACTION);
    if joined.Err? {
      return Err(joined.reason);
    }
    var s := SplitRowsByTime(joined.value, fraction);
    if s.Err? {
      return Err(s.reason);
    }
    return Ok(Map(s.value.holdout, SignalOf));
  }

  /** The join succeeds exactly when every row it keeps can be joined, and then holds those rows, in order. */
  lemma {:induction false} JoinKeepsRows(rows: seq<SignalRow>, snapshots: seq<Snapshot>, floor: Option<real>, entryFraction: real)
    ensures Joined(rows, snapshots, floor, entryFraction).Ok? <==>
      forall r :: r in Filter(rows, KeepsRow(floor)) ==> JoinRow(r, snapshots, entryFraction).Ok?
    ensures Joined(rows, snapshots, floor, entryFraction).Ok? ==>
      Map(Joined(rows, snapshots, floor, entryFraction).value, SignalOf) == Filter(rows, KeepsRow(floor))
  {
    if rows != [] {
      var front, last := rows[..|rows| - 1], rows[|rows| - 1];
      JoinKeepsRows(front, snapshots, floor, entryFraction);
      hide KeepsRow;
      assert rows == front + [last];
      FilterPush(front, last, KeepsRow(floor));
      if Joined(front, snapshots, floor, entryFraction).Ok? && JoinRow(last, snapshots, entryFraction).Ok? {
        MapPush(Joined(front, snapshots, floor, entryFraction).value, JoinRow(last, snapshots, entryFraction).value, SignalOf);
      }
    }
  }

  /** The test rows are the later part of the joined universe: everything outside enters strictly before. */
  lemma TestRowsAreLater(rows: seq<SignalRow>, snapshots: seq<Snapshot>, floor: Option<real>, fraction: real)
    returns (before: seq<SurvivalRow>, after: seq<SurvivalRow>)
    requires TestRows(rows, snapshots, floor, fraction).Ok?
    ensures Joined(rows, snapshots, floor, ENTRY_FRACTION).Ok?
    ensures multiset(before + after) == multiset(Joined(rows, snapshots, floor, ENTRY_FRACTION).value)
    ensures before != [] && after != [] && forall a, b :: a in before && b in after ==> a.entryTs < b.entryTs
    ensures TestRows(rows, snapshots, floor, fraction).value == Map(after, SignalOf)
  {
    var joined := Joined(rows, snapshots, floor, ENTRY_FRACTION).value;
    var s := SplitRows(joined, fraction).value;
    var _ := SplitIsChronological(joined, fraction);
    hide Joined, SplitRows;
    before, after := s.train, s.holdout;
  }

  // ---------------------------------------------- none of this looks at the signal

  function NeutralJoin(r: SurvivalRow): SurvivalRow { r.(signal := Neutral(r.signal)) }

  /** Two files that differ in nothing but their signals. */
  ghost predicate SameButSignals(a: seq<SignalRow>, b: seq<SignalRow>) { MakeNeutralRows(a) == MakeNeutralRows(b) }

  lemma NeutralJoinRow(row: SignalRow, snapshots: seq<Snapshot>, entryFraction: real)
    ensures JoinRow(Neutral(row), snapshots, entryFraction)
         == match JoinRow(row, snapshots, entryFraction) case Err(e) => Err(e) case Ok(r) => Ok(NeutralJoin(r))
  {
  }

  lemma {:induction false} NeutralJoined(rows: seq<SignalRow>, snapshots: seq<Snapshot>, floor: Option<real>, entryFraction: real)
    ensures Joined(MakeNeutralRows(rows), snapshots, floor, entryFraction)
         == match Joined(rows, snapshots, floor, entryFraction) case Err(e) => Err(e) case Ok(rs) => Ok(Map(rs, NeutralJoin))
  {
    if rows != [] {
      var front, last := rows[..|rows| - 1], rows[|rows| - 1];
      NeutralJoined(front, snapshots, floor, entryFraction);
      assert MakeNeutralRows(rows)[..|front|] == MakeNeutralRows(front);
      hide JoinRow;
      NeutralJoinRow(last, snapshots, entryFraction);
      if Joined(front, snapshots, floor, entryFraction).Ok? && JoinRow(last, snapshots, entryFraction).Ok? {
        MapPush(Joined(front, snapshots, floor, entryFraction).value, JoinRow(last, snapshots, entryFraction).value, NeutralJoin);
      }
    }
  }

  lemma {:induction false} NeutralTies(ordered: seq<SurvivalRow>, cut: nat)
    requires 1 <= cut <= |ordered|
    ensures AbsorbTies(Map(ordered, NeutralJoin), cut) == AbsorbTies(ordered, cut)
    decreases |ordered| - cut
  {
    if cut < |ordered| {
      NeutralTies(ordered, cut + 1);
    }
  }

  lemma NeutralOrder(rows: seq<SurvivalRow>)
    ensures Chronological(Map(rows, NeutralJoin)) == Map(Chronological(rows), NeutralJoin)
  {
    SortCommutesWithMap(rows, EntersBefore, EntersBefore, NeutralJoin);
  }

  lemma NeutralSplit(rows: seq<SurvivalRow>, fraction: real)
    ensures SplitRows(Map(rows, NeutralJoin), fraction)
         == match SplitRows(rows, fraction)
            case Err(e) => Err(e)
            case Ok(s) => Ok(Split(Map(s.train, NeutralJoin), Map(s.holdout, NeutralJoin)))
  {
    hide Chronological, AbsorbTies;
    if 0.0 < fraction < 1.0 && |rows| >= 2 {
      NeutralOrder(rows);
      var ordered := Chronological(rows);
      var cut := AbsorbTies(ordered, ClampedCut(|rows|, fraction));
      NeutralTies(ordered, ClampedCut(|rows|, fraction));
      assert Map(ordered, NeutralJoin)[..cut] == Map(ordered[..cut], NeutralJoin);
      assert Map(ordered, NeutralJoin)[cut..] == Map(ordered[cut..], NeutralJoin);
    }
  }

  lemma NeutralTestRows(rows: seq<SignalRow>, snapshots: seq<Snapshot>, floor: Option<real>, fraction: real)
    ensures TestRows(MakeNeutralRows(rows), snapshots, floor, fraction)
         == match TestRows(rows, snapshots, floor, fraction) case Err(e) => Err(e) case Ok(t) => Ok(MakeNeutralRows(t))
  {
    hide Joined, SplitRows;
    NeutralJoined(rows, snapshots, floor, ENTRY_FRACTION);
    if Joined(rows, snapshots, floor, ENTRY_FRACTION).Ok? {
      var joined := Joined(rows, snapshots, floor, ENTRY_FRACTION).value;
      NeutralSplit(joined, fraction);
      if SplitRows(joined, fraction).Ok? {
        var holdout := SplitRows(joined, fraction).value.holdout;
        assert Map(Map(holdout, NeutralJoin), SignalOf) == MakeNeutralRows(Map(holdout, SignalOf));
      }
    }
  }

  /** The floor, the join, the order and the cut are the same for two files that differ only in signals. */
  lemma TestWindowIgnoresSignals(a: seq<SignalRow>, b: seq<SignalRow>, snapshots: seq<Snapshot>, floor: Option<real>, fraction: real)
    requires SameButSignals(a, b)
    ensures TestRows(a, snapshots, floor, fraction).Ok? <==> TestRows(b, snapshots, floor, fraction).Ok?
    ensures TestRows(a, snapshots, floor, fraction).Ok? ==>
      SameButSignals(TestRows(a, snapshots, floor, fraction).value, TestRows(b, snapshots, floor, fraction).value)
  {
    hide TestRows, MakeNeutralRows;
    NeutralTestRows(a, snapshots, floor, fraction);
    NeutralTestRows(b, snapshots, floor, fraction);
  }
}
