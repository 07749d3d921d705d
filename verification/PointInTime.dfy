/**
 The point-in-time price provider (agent/backtest/historical_fetcher.py): a
 query at time t must answer from what was known at t and from nothing later.
 */
module PointInTime {
  import opened Markets
  import opened StableSort

  predicate NotLater(a: PricePoint, b: PricePoint) { a.ts <= b.ts }

  function KnownAt(t: int): PricePoint -> bool { (p: PricePoint) => p.ts <= t }

  /** The part of a ledger, in source order, that exists at time t. */
  function Known(ledger: seq<PricePoint>, t: int): seq<PricePoint> { Filter(ledger, KnownAt(t)) }

  function LastPrice(points: seq<PricePoint>): Option<real> {
    if points == [] then None else Some(points[|points| - 1].price)
  }

  /** What the provider answers for one ledger: sort stably, keep what is known, take the last. */
  function PriceAsOf(ledger: seq<PricePoint>, t: int): Option<real> {
    LastPrice(Known(Sort(ledger, NotLater), t))
  }

  function PriceIn(snapshots: seq<Snapshot>, id: string, t: int): Option<real> {
    match Lookup(snapshots, id)
    case None => None
    case Some(s) => PriceAsOf(s.ledger, t)
  }

  predicate ResolvedBy(s: Snapshot, t: int) { s.resolutionTs.Some? && s.resolutionTs.value <= t }

  predicate ResolvedIn(snapshots: seq<Snapshot>, id: string, t: int) {
    var s := Lookup(snapshots, id);
    s.Some? && ResolvedBy(s.value, t)
  }

  lemma TimeOrder()
    ensures TotalPreorder(NotLater)
  {
  }

  // ---------------------------------------------------------------- the class

  class MarketSnapshotProvider {
    var sortedLedgers: map<string, seq<PricePoint>>
    var resolutionTs: map<string, Option<int>>
    ghost var source: seq<Snapshot>

    ghost predicate Valid()
      reads this
    {
      && sortedLedgers.Keys == resolutionTs.Keys
      && forall id ::
           && (id in sortedLedgers <==> Lookup(source, id).Some?)
           && (id in sortedLedgers ==> sortedLedgers[id] == Sort(Lookup(source, id).value.ledger, NotLater)
                                       && resolutionTs[id] == Lookup(source, id).value.resolutionTs)
    }

    constructor (snapshots: seq<Snapshot>)
      ensures Valid() && source == snapshots
    {
      sortedLedgers, resolutionTs, source := map[], map[], [];
      new;
      for i := 0 to |snapshots|
        invariant source == snapshots[..i] && Valid()
      {
        var snap := snapshots[i];
        var points := Sort(snap.ledger, NotLater);
        assert snapshots[..i + 1] == snapshots[..i] + [snap];
        forall id
          ensures Lookup(source + [snap], id) == if snap.marketId == id then Some(snap) else Lookup(source, id)
        {
          LookupPush(source, snap, id);
        }
        sortedLedgers := sortedLedgers[snap.marketId := points];
        resolutionTs := resolutionTs[snap.marketId := snap.resolutionTs];
        source := snapshots[..i + 1];
      }
      assert snapshots[..|snapshots|] == snapshots;
    }

    method PriceAt(id: string, asof: int) returns (latest: Option<real>)
      requires Valid()
      ensures latest == PriceIn(source, id, asof)
    {
      if id !in sortedLedgers || sortedLedgers[id] == [] {
        return None;
      }
      TimeOrder();
      SortOrders(Lookup(source, id).value.ledger, NotLater);
      latest := ScanTo(sortedLedgers[id], asof);
    }

    /** The scan of a sorted ledger, which stops at the first point after `asof`. */
    static method ScanTo(ledger: seq<PricePoint>, asof: int) returns (latest: Option<real>)
      requires Sorted(ledger, NotLater)
      ensures latest == LastPrice(Known(ledger, asof))
    {
      latest := None;
      var i := 0;
      while i < |ledger| && ledger[i].ts <= asof
        invariant i <= |ledger| && latest == LastPrice(ledger[..i])
        invariant forall k :: 0 <= k < i ==> ledger[k].ts <= asof
      {
        latest := Some(ledger[i].price);
        i := i + 1;
      }
      KnownIsPrefix(ledger, asof, i);
    }

    method IsResolvedBy(id: string, asof: int) returns (b: bool)
      requires Valid()
      ensures b == ResolvedIn(source, id, asof)
      ensures b <==> Lookup(source, id).Some? && Lookup(source, id).value.resolutionTs.Some?
                     && Lookup(source, id).value.resolutionTs.value <= asof
    {
      if id !in resolutionTs || resolutionTs[id].None? {
        return false;
      }
      return resolutionTs[id].value <= asof;
    }

    /** The call-site guard: it passes exactly on the at-or-before price. */
    method AssertNoLookahead(id: string, asof: int, served: Option<real>) returns (r: Result<()>)
      requires Valid()
      ensures r.Ok? <==> served == PriceIn(source, id, asof)
    {
      var expected := PriceAt(id, asof);
      return if expected != served then Err("lookahead guard tripped") else Ok(());
    }
  }

  lemma {:induction false} KnownIsPrefix(ledger: seq<PricePoint>, t: int, i: nat)
    requires Sorted(ledger, NotLater) && i <= |ledger|
    requires forall k :: 0 <= k < i ==> ledger[k].ts <= t
    requires i < |ledger| ==> ledger[i].ts > t
    ensures Known(ledger, t) == ledger[..i]
  {
    if i < |ledger| {
      assert i == |ledger| - 1 || NotLater(ledger[i], ledger[|ledger| - 1]);
      var front := ledger[..|ledger| - 1];
      KnownIsPrefix(front, t, i);
      assert front[..i] == ledger[..i];
    } else if ledger != [] {
      var front := ledger[..|ledger| - 1];
      KnownIsPrefix(front, t, i - 1);
      assert ledger[..i] == front[..i - 1] + [ledger[i - 1]];
    }
  }

  // ------------------------------------------- what the answer is, without sorting

  /** Point i is the newest known one; among equal times, the last in source order. */
  ghost predicate IsLatest(ledger: seq<PricePoint>, t: int, i: nat) {
    && i < |ledger| && ledger[i].ts <= t
    && forall j :: 0 <= j < |ledger| && ledger[j].ts <= t ==>
         ledger[j].ts < ledger[i].ts || (ledger[j].ts == ledger[i].ts && j <= i)
  }

  lemma KnownOfSorted(ledger: seq<PricePoint>, t: int)
    ensures Known(Sort(ledger, NotLater), t) == Sort(Known(ledger, t), NotLater)
  {
    TimeOrder();
    SortCommutesWithFilter(ledger, NotLater, KnownAt(t));
  }

  lemma LastOfInsert(s: seq<PricePoint>, x: PricePoint)
    ensures var r := Insert(s, x, NotLater);
      r[|r| - 1] == if s == [] || s[|s| - 1].ts <= x.ts then x else s[|s| - 1]
  {
  }

  lemma LatestPush(front: seq<PricePoint>, x: PricePoint, t: int, i: nat)
    requires IsLatest(front, t, i) || forall j :: 0 <= j < |front| ==> front[j].ts > t
    ensures IsLatest(front + [x], t, |front|) <==> x.ts <= t && (IsLatest(front, t, i) ==> front[i].ts <= x.ts)
    ensures IsLatest(front, t, i) ==> (IsLatest(front + [x], t, i) <==> x.ts > t || x.ts < front[i].ts)
  {
    var all := front + [x];
    assert all[|front|] == x;
    assert forall j :: 0 <= j < |front| ==> all[j] == front[j];
  }

  ghost predicate LastOfSortIs(ledger: seq<PricePoint>, t: int, i: nat) {
    var s := Sort(Known(ledger, t), NotLater);
    if s == [] then forall j :: 0 <= j < |ledger| ==> ledger[j].ts > t
    else IsLatest(ledger, t, i) && s[|s| - 1] == ledger[i]
  }

  lemma LastOfSortStep(front: seq<PricePoint>, x: PricePoint, t: int, i: nat) returns (i': nat)
    requires LastOfSortIs(front, t, i)
    ensures LastOfSortIs(front + [x], t, i')
  {
    hide Sort, Insert, Filter;
    i' := i;
    FilterPush(front, x, KnownAt(t));
    LatestPush(front, x, t, i);
    if x.ts <= t {
      var s := Sort(Known(front, t), NotLater);
      assert IsLatest(front, t, i) || s == [];
      hide IsLatest;
      SortPush(Known(front, t), x, NotLater);
      LastOfInsert(s, x);
      if s == [] || s[|s| - 1].ts <= x.ts {
        i' := |front|;
      }
    }
  }

  lemma {:induction false} LatestIsLastOfSort(ledger: seq<PricePoint>, t: int) returns (i: nat)
    ensures LastOfSortIs(ledger, t, i)
  {
    i := 0;
    if ledger != [] {
      i := LatestIsLastOfSort(ledger[..|ledger| - 1], t);
      i := LastOfSortStep(ledger[..|ledger| - 1], ledger[|ledger| - 1], t, i);
      assert ledger == ledger[..|ledger| - 1] + [ledger[|ledger| - 1]];
    }
  }

  /**
   The served price is the newest known point's, the last in source order winning
   a tie; there is no price exactly when nothing is known yet.
   */
  lemma ServedPriceIsLatestKnown(ledger: seq<PricePoint>, t: int, p: real)
    ensures PriceAsOf(ledger, t) == Some(p) <==> exists i: nat :: IsLatest(ledger, t, i) && ledger[i].price == p
    ensures PriceAsOf(ledger, t) == None <==> forall j :: 0 <= j < |ledger| ==> ledger[j].ts > t
  {
    KnownOfSorted(ledger, t);
    var i := LatestIsLastOfSort(ledger, t);
    if PriceAsOf(ledger, t).Some? {
      assert forall k: nat :: IsLatest(ledger, t, k) ==> k == i;
    }
  }

  // ----------------------------------------------------------- two-run property

  lemma {:induction false} KnownTwice(ledger: seq<PricePoint>, asof: int, t: int)
    requires asof <= t
    ensures Known(Known(ledger, t), asof) == Known(ledger, asof)
  {
    if ledger != [] {
      var front, x := ledger[..|ledger| - 1], ledger[|ledger| - 1];
      KnownTwice(front, asof, t);
      FilterPush(Known(front, t), x, KnownAt(asof));
    }
  }

  function KnownLedger(snapshots: seq<Snapshot>, id: string, t: int): seq<PricePoint> {
    match Lookup(snapshots, id)
    case None => []
    case Some(s) => Known(s.ledger, t)
  }

  function KnownResolution(snapshots: seq<Snapshot>, id: string, t: int): Option<int> {
    if ResolvedIn(snapshots, id, t) then Lookup(snapshots, id).value.resolutionTs else None
  }

  /**
   Two worlds in which the same points of a market exist by t, in the same source
   order, and the same resolution if any, answer every query up to t alike. Nothing
   else about the two worlds has to agree.
   */
  lemma NoLookahead(s1: seq<Snapshot>, s2: seq<Snapshot>, id: string, asof: int, t: int)
    requires asof <= t
    requires KnownLedger(s1, id, t) == KnownLedger(s2, id, t)
    requires KnownResolution(s1, id, t) == KnownResolution(s2, id, t)
    ensures PriceIn(s1, id, asof) == PriceIn(s2, id, asof)
    ensures ResolvedIn(s1, id, asof) == ResolvedIn(s2, id, asof)
  {
    PriceFromKnown(s1, id, asof, t);
    PriceFromKnown(s2, id, asof, t);
  }

  lemma PriceFromKnown(snapshots: seq<Snapshot>, id: string, asof: int, t: int)
    requires asof <= t
    ensures PriceIn(snapshots, id, asof) == LastPrice(Sort(Known(KnownLedger(snapshots, id, t), asof), NotLater))
  {
    match Lookup(snapshots, id)
    case None =>
    case Some(s) =>
      KnownOfSorted(s.ledger, asof);
      KnownTwice(s.ledger, asof, t);
  }

  /** Points that arrive after the query, anywhere in the source list, change nothing. */
  lemma FuturePointsAreInvisible(past: seq<PricePoint>, p: PricePoint, rest: seq<PricePoint>, t: int)
    requires p.ts > t
    ensures PriceAsOf(past + [p] + rest, t) == PriceAsOf(past + rest, t)
  {
    KnownOfSorted(past + [p] + rest, t);
    KnownOfSorted(past + rest, t);
    KnownConcat(past + [p], rest, t);
    KnownConcat(past, rest, t);
    FilterPush(past, p, KnownAt(t));
  }

  lemma {:induction false} KnownConcat(a: seq<PricePoint>, b: seq<PricePoint>, t: int)
    ensures Known(a + b, t) == Known(a, t) + Known(b, t)
  {
    if b == [] {
      assert a + b == a;
    } else {
      var front, x := b[..|b| - 1], b[|b| - 1];
      KnownConcat(a, front, t);
      assert a + b == (a + front) + [x];
      FilterPush(a + front, x, KnownAt(t));
    }
  }

  // ------------------------------------------------------------ moving a market

  function ShiftPoint(delta: int): PricePoint -> PricePoint {
    (p: PricePoint) => PricePoint(p.ts + delta, p.price)
  }

  function ShiftSnapshot(s: Snapshot, delta: int): Snapshot {
    s.(endTs := s.endTs + delta,
       resolutionTs := match s.resolutionTs case None => None case Some(ts) => Some(ts + delta),
       ledger := Map(s.ledger, ShiftPoint(delta)))
  }

  lemma {:induction false} KnownOfShifted(ledger: seq<PricePoint>, delta: int, t: int)
    ensures Known(Map(ledger, ShiftPoint(delta)), t + delta) == Map(Known(ledger, t), ShiftPoint(delta))
  {
    if ledger != [] {
      var front := ledger[..|ledger| - 1];
      KnownOfShifted(front, delta, t);
      assert Map(ledger, ShiftPoint(delta))[..|ledger| - 1] == Map(front, ShiftPoint(delta));
    }
  }

  lemma ShiftedMarketAnswersAlike(s: Snapshot, delta: int, t: int)
    ensures PriceAsOf(ShiftSnapshot(s, delta).ledger, t + delta) == PriceAsOf(s.ledger, t)
    ensures ResolvedBy(ShiftSnapshot(s, delta), t + delta) == ResolvedBy(s, t)
  {
    var sorted := Sort(s.ledger, NotLater);
    assert Sort(Map(s.ledger, ShiftPoint(delta)), NotLater) == Map(sorted, ShiftPoint(delta)) by {
      SortCommutesWithMap(s.ledger, NotLater, NotLater, ShiftPoint(delta));
    }
    KnownOfShifted(sorted, delta, t);
  }

  /** Every query about the market gets the answer it got before, `delta` later. */
  ghost predicate AnswersMoved(before: seq<Snapshot>, after: seq<Snapshot>, id: string, delta: int) {
    forall t :: PriceIn(after, id, t + delta) == PriceIn(before, id, t) && ResolvedIn(after, id, t + delta) == ResolvedIn(before, id, t)
  }

  /** A market moved rigidly in time answers every moved query as it did before. */
  lemma ShiftedLookupAnswersAlike(before: seq<Snapshot>, after: seq<Snapshot>, id: string, delta: int)
    requires Lookup(before, id).Some?
    requires Lookup(after, id) == Some(ShiftSnapshot(Lookup(before, id).value, delta))
    ensures AnswersMoved(before, after, id, delta)
  {
    forall t ensures PriceIn(after, id, t + delta) == PriceIn(before, id, t)
             ensures ResolvedIn(after, id, t + delta) == ResolvedIn(before, id, t)
    {
      ShiftedMarketAnswersAlike(Lookup(before, id).value, delta, t);
    }
  }
}
