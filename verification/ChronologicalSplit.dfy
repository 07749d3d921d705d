/**
 The chronological train/holdout split (agent/backtest/reincarnation.py).
 */
module ChronologicalSplit {
  import opened Markets
  import opened StableSort

  predicate EntersBefore(a: SurvivalRow, b: SurvivalRow) {
    a.entryTs < b.entryTs || (a.entryTs == b.entryTs && StringLe(a.marketId, b.marketId))
  }

  lemma EntryOrder()
    ensures TotalPreorder(EntersBefore)
  {
    forall a, b ensures EntersBefore(a, b) || EntersBefore(b, a) {
      StringLeTotal(a.marketId, b.marketId);
    }
    forall a, b, c | EntersBefore(a, b) && EntersBefore(b, c) ensures EntersBefore(a, c) {
      if a.entryTs == b.entryTs == c.entryTs {
        StringLeTransitive(a.marketId, b.marketId, c.marketId);
      }
    }
  }

  function Chronological(rows: seq<SurvivalRow>): (r: seq<SurvivalRow>)
    ensures |r| == |rows| && multiset(r) == multiset(rows)
  {
    Sort(rows, EntersBefore)
  }

  lemma ChronologicalTimes(rows: seq<SurvivalRow>, i: nat, j: nat)
    requires i <= j < |rows|
    ensures Chronological(rows)[i].entryTs <= Chronological(rows)[j].entryTs
  {
    EntryOrder();
    SortOrders(rows, EntersBefore);
    assert i == j || EntersBefore(Chronological(rows)[i], Chronological(rows)[j]);
  }

  /** Python's `round`: ties go to the even neighbour. */
  function RoundHalfEven(x: real): int {
    var f := x.Floor;
    var rest := x - f as real;
    if rest < 0.5 || (rest == 0.5 && f % 2 == 0) then f else f + 1
  }

  /** The cut asked for, before ties are looked at. */
  function ClampedCut(n: nat, fraction: real): (cut: nat)
    requires n >= 2
    ensures 1 <= cut < n
  {
    var cut := RoundHalfEven(n as real * fraction);
    if cut < 1 then 1 else if cut > n - 1 then n - 1 else cut
  }

  /**
   The place between the first and the last of n rows nearest to x: within one half of it
   where there is one, the even one of two that are equally near, else the end x lies beyond.
   */
  predicate NearestCut(n: nat, x: real, cut: nat) {
    && 1 <= cut < n
    && (x < 1.0 ==> cut == 1)
    && (x > (n - 1) as real ==> cut == n - 1)
    && (1.0 <= x <= (n - 1) as real ==>
          && -0.5 <= cut as real - x <= 0.5
          && (cut as real - x == 0.5 || cut as real - x == -0.5 ==> cut % 2 == 0))
  }

  /** The cut that a train fraction asks for. */
  predicate CutFor(n: nat, fraction: real, cut: nat) { NearestCut(n, n as real * fraction, cut) }

  lemma ClampedCutIsNearest(n: nat, fraction: real)
    requires n >= 2
    ensures CutFor(n, fraction, ClampedCut(n, fraction))
  {
    hide NearestCut, RoundHalfEven;
    RoundedIsNearest(n, n as real * fraction);
  }

  lemma RoundedIsNearest(n: nat, x: real)
    requires n >= 2
    ensures var cut := RoundHalfEven(x); NearestCut(n, x, if cut < 1 then 1 else if cut > n - 1 then n - 1 else cut)
  {
    var f := x.Floor;
    assert f as real <= x < f as real + 1.0;
  }

  lemma NearestCutIsUnique(n: nat, x: real, cut: nat, other: nat)
    requires NearestCut(n, x, cut) && NearestCut(n, x, other)
    ensures cut == other
  {
    if 1.0 <= x <= (n - 1) as real {
      assert -1.0 <= cut as real - other as real <= 1.0;
    }
  }

  lemma CutForIsUnique(n: nat, fraction: real, cut: nat, other: nat)
    requires CutFor(n, fraction, cut) && CutFor(n, fraction, other)
    ensures cut == other && 1 <= cut < n
  {
    hide NearestCut;
    NearestCutIsUnique(n, n as real * fraction, cut, other);
    CutIsInside(n, n as real * fraction, cut);
  }

  lemma CutIsInside(n: nat, x: real, cut: nat)
    requires NearestCut(n, x, cut)
    ensures 1 <= cut < n
  {
  }

  datatype Split = Split(train: seq<SurvivalRow>, holdout: seq<SurvivalRow>)

  /** The first place at or after `cut` where the entry time changes. */
  function AbsorbTies(ordered: seq<SurvivalRow>, cut: nat): (r: nat)
    requires 1 <= cut <= |ordered|
    ensures cut <= r <= |ordered|
    decreases |ordered| - cut
  {
    if cut < |ordered| && ordered[cut].entryTs == ordered[cut - 1].entryTs
    then AbsorbTies(ordered, cut + 1) else cut
  }

  function SplitRows(rows: seq<SurvivalRow>, fraction: real): Result<Split> {
    if !(0.0 < fraction < 1.0) then Err("train_fraction must be in (0,1)")
    else if |rows| < 2 then Err("need at least 2 rows to split")
    else
      var ordered := Chronological(rows);
      var cut := AbsorbTies(ordered, ClampedCut(|rows|, fraction));
      if cut == |rows| then Err("tie absorption exhausted the holdout window")
      else Ok(Split(ordered[..cut], ordered[cut..]))
  }

  method SplitRowsByTime(rows: seq<SurvivalRow>, fraction: real) returns (r: Result<Split>)
    ensures r == SplitRows(rows, fraction)
  {
    if !(0.0 < fraction < 1.0) {
      return Err("train_fraction must be in (0,1)");
    }
    if |rows| < 2 {
      return Err("need at least 2 rows to split");
    }
    var ordered := Chronological(rows);
    var cut := RoundHalfEven(|rows| as real * fraction);
    cut := if cut < 1 then 1 else if cut > |rows| - 1 then |rows| - 1 else cut;
    while cut < |ordered| && ordered[cut].entryTs == ordered[cut - 1].entryTs
      invariant 1 <= cut <= |ordered|
      invariant AbsorbTies(ordered, cut) == AbsorbTies(ordered, ClampedCut(|rows|, fraction))
    {
      cut := cut + 1;
    }
    if cut >= |ordered| {
      return Err("tie absorption exhausted the holdout window");
    }
    return Ok(Split(ordered[..cut], ordered[cut..]));
  }

  lemma {:induction false} AbsorbedTies(ordered: seq<SurvivalRow>, cut: nat)
    requires 1 <= cut <= |ordered|
    ensures var r := AbsorbTies(ordered, cut);
      && (forall k :: cut - 1 <= k < r ==> ordered[k].entryTs == ordered[cut - 1].entryTs)
      && (r < |ordered| ==> ordered[r].entryTs != ordered[r - 1].entryTs)
    decreases |ordered| - cut
  {
    if cut < |ordered| && ordered[cut].entryTs == ordered[cut - 1].entryTs {
      AbsorbedTies(ordered, cut + 1);
    }
  }

  /** A place where the entry time changes separates all earlier rows from all later ones. */
  lemma StrictCut(rows: seq<SurvivalRow>, cut: nat)
    requires 1 <= cut < |rows| && Chronological(rows)[cut].entryTs != Chronological(rows)[cut - 1].entryTs
    ensures forall a, b :: a in Chronological(rows)[..cut] && b in Chronological(rows)[cut..] ==> a.entryTs < b.entryTs
  {
    var ordered := Chronological(rows);
    forall i, j | 0 <= i < cut <= j < |rows| ensures ordered[i].entryTs < ordered[j].entryTs {
      ChronologicalTimes(rows, i, cut - 1);
      ChronologicalTimes(rows, cut - 1, cut);
      ChronologicalTimes(rows, cut, j);
    }
  }

  ghost predicate TimeThenId(rows: seq<SurvivalRow>) {
    forall i, j :: 0 <= i < j < |rows| ==>
      rows[i].entryTs < rows[j].entryTs || (rows[i].entryTs == rows[j].entryTs && StringLe(rows[i].marketId, rows[j].marketId))
  }

  lemma OrderedByTimeThenId(rows: seq<SurvivalRow>)
    requires Sorted(rows, EntersBefore)
    ensures TimeThenId(rows)
  {
    forall i, j | 0 <= i < j < |rows|
      ensures rows[i].entryTs < rows[j].entryTs || (rows[i].entryTs == rows[j].entryTs && StringLe(rows[i].marketId, rows[j].marketId))
    {
      assert EntersBefore(rows[i], rows[j]);
    }
  }

  /**
   A split is the input put in order and cut once: nothing is lost, train ends
   strictly before holdout starts, and the cut is the earliest such place at or
   after the one nearest to the fraction asked for.
   */
  lemma SplitIsChronological(rows: seq<SurvivalRow>, fraction: real) returns (cut: nat)
    requires SplitRows(rows, fraction).Ok?
    ensures CutFor(|rows|, fraction, cut)
    ensures var s := SplitRows(rows, fraction).value;
      && s.train != [] && s.holdout != []
      && multiset(s.train + s.holdout) == multiset(rows)
      && Sorted(s.train + s.holdout, EntersBefore)
      && TimeThenId(s.train + s.holdout)
      && (forall a, b :: a in s.train && b in s.holdout ==> a.entryTs < b.entryTs)
      && |s.train| >= cut
      && (forall k :: cut <= k < |s.train| ==> s.train[k].entryTs == s.train[k - 1].entryTs)
  {
    hide CutFor, ClampedCut, NearestCut;
    var ordered, s := Chronological(rows), SplitRows(rows, fraction).value;
    cut := ClampedCut(|rows|, fraction);
    ClampedCutIsNearest(|rows|, fraction);
    AbsorbedTies(ordered, cut);
    assert Sorted(ordered, EntersBefore) by {
      EntryOrder();
      SortOrders(rows, EntersBefore);
    }
    assert s.train + s.holdout == ordered;
    OrderedByTimeThenId(ordered);
    StrictCut(rows, |s.train|);
  }

  ghost predicate DistinctTimes(rows: seq<SurvivalRow>) {
    forall i, j :: 0 <= i < j < |rows| ==> rows[i].entryTs != rows[j].entryTs
  }

  /** Without equal entry times nothing is absorbed: train has exactly the nearest number of rows. */
  lemma TrainHasTheFraction(rows: seq<SurvivalRow>, fraction: real)
    requires 0.0 < fraction < 1.0 && |rows| >= 2 && DistinctTimes(rows)
    ensures SplitRows(rows, fraction).Ok?
    ensures CutFor(|rows|, fraction, |SplitRows(rows, fraction).value.train|)
  {
    hide CutFor, ClampedCut, Chronological, DistinctTimes;
    var ordered, cut := Chronological(rows), ClampedCut(|rows|, fraction);
    ClampedCutIsNearest(|rows|, fraction);
    if ordered[cut].entryTs == ordered[cut - 1].entryTs {
      SortedTwins(rows, cut);
    }
  }

  lemma SortedTwins(rows: seq<SurvivalRow>, cut: nat)
    requires 1 <= cut < |rows| && Chronological(rows)[cut].entryTs == Chronological(rows)[cut - 1].entryTs
    ensures !DistinctTimes(rows)
  {
    var ordered := Chronological(rows);
    var a, b := ordered[cut - 1], ordered[cut];
    SortedMembers(rows, EntersBefore, a);
    SortedMembers(rows, EntersBefore, b);
    hide Chronological;
    if a == b {
      TwiceInARow(ordered, cut);
      TwoPlaces(rows, a);
    } else {
      TwoTwins(rows, a, b);
    }
  }

  lemma TwoTwins(rows: seq<SurvivalRow>, a: SurvivalRow, b: SurvivalRow)
    requires a in rows && b in rows && a != b && a.entryTs == b.entryTs
    ensures !DistinctTimes(rows)
  {
    var i :| 0 <= i < |rows| && rows[i] == a;
    var j :| 0 <= j < |rows| && rows[j] == b;
    assert rows[i].entryTs == rows[j].entryTs;
    assert i < j || j < i;
  }

  /** No row enters later than the last of the first `cut`. */
  ghost predicate NothingAfter(rows: seq<SurvivalRow>, cut: nat)
    requires 1 <= cut <= |rows|
  {
    forall r :: r in rows ==> r.entryTs <= Chronological(rows)[cut - 1].entryTs
  }

  /** It fails exactly on a bad fraction, on fewer than two rows, or when nothing enters after the requested cut. */
  lemma SplitFailsExactlyWhen(rows: seq<SurvivalRow>, fraction: real) returns (cut: nat)
    ensures |rows| >= 2 ==> CutFor(|rows|, fraction, cut) && 1 <= cut < |rows|
    ensures SplitRows(rows, fraction).Err? <==> !(0.0 < fraction < 1.0) || |rows| < 2 || NothingAfter(rows, cut)
  {
    hide CutFor, ClampedCut, Chronological, NothingAfter;
    cut := 1;
    if |rows| >= 2 {
      cut := ClampedCut(|rows|, fraction);
      ClampedCutIsNearest(|rows|, fraction);
      AbsorbedTies(Chronological(rows), cut);
      LaterThanCut(rows, cut, AbsorbTies(Chronological(rows), cut));
    }
  }

  lemma LaterThanCut(rows: seq<SurvivalRow>, cut: nat, r: nat)
    requires 1 <= cut <= r <= |rows|
    requires forall k :: cut - 1 <= k < r ==> Chronological(rows)[k].entryTs == Chronological(rows)[cut - 1].entryTs
    requires r < |rows| ==> Chronological(rows)[r].entryTs != Chronological(rows)[r - 1].entryTs
    ensures r == |rows| <==> NothingAfter(rows, cut)
  {
    var ordered := Chronological(rows);
    if r < |rows| {
      ChronologicalTimes(rows, r - 1, r);
      SortedMembers(rows, EntersBefore, ordered[r]);
      assert ordered[r] in rows && ordered[r].entryTs > ordered[cut - 1].entryTs;
    } else {
      forall x | x in rows ensures x.entryTs <= ordered[cut - 1].entryTs {
        SortedMembers(rows, EntersBefore, x);
        var i :| 0 <= i < |ordered| && ordered[i] == x;
        if i < cut - 1 {
          ChronologicalTimes(rows, i, cut - 1);
        }
      }
    }
  }

  /** When no two different rows share entry time and id, the input order does not matter. */
  lemma SplitIgnoresInputOrder(rows: seq<SurvivalRow>, other: seq<SurvivalRow>, fraction: real)
    requires multiset(rows) == multiset(other)
    requires forall a, b :: a in rows && b in rows && a.entryTs == b.entryTs && a.marketId == b.marketId ==> a == b
    ensures SplitRows(rows, fraction) == SplitRows(other, fraction)
  {
    EntryOrder();
    forall a, b | a in rows && b in rows && EntersBefore(a, b) && EntersBefore(b, a) ensures a == b {
      StringLeTotal(a.marketId, b.marketId);
    }
    SortIgnoresInputOrder(rows, other, EntersBefore);
    assert |multiset(rows)| == |rows| && |multiset(other)| == |other|;
  }
}
