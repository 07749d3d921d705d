/** The neutral and placebo variants of a row file (scripts/setprob_augment.py). */
module SetprobAugment {
  import opened Markets
  import opened StableSort
  import opened Permutations

  predicate Matched(r: SignalRow) { r.clusterKey != "" }

  function WithSignal(r: SignalRow, x: real): SignalRow { r.(crossMarketSignal := x) }

  /** A row without its signal. */
  function Neutral(r: SignalRow): SignalRow { WithSignal(r, 0.0) }

  function MakeNeutralRows(rows: seq<SignalRow>): (r: seq<SignalRow>)
    ensures |r| == |rows| && forall i :: 0 <= i < |r| ==> r[i].crossMarketSignal == 0.0
    ensures forall i :: 0 <= i < |r| ==> WithSignal(r[i], rows[i].crossMarketSignal) == rows[i]
  {
    Map(rows, Neutral)
  }

  function MatchedIdx(rows: seq<SignalRow>): (r: seq<nat>)
    ensures forall k :: 0 <= k < |r| ==> r[k] < |rows| && Matched(rows[r[k]])
    ensures |r| <= |rows|
  {
    if rows == [] then []
    else
      var front := MatchedIdx(rows[..|rows| - 1]);
      if Matched(rows[|rows| - 1]) then front + [|rows| - 1] else front
  }

  /** The signals of the matched rows, in row order. */
  function MatchedSignals(rows: seq<SignalRow>): (r: seq<real>)
    ensures |r| == |MatchedIdx(rows)|
  {
    if rows == [] then []
    else
      var front := MatchedSignals(rows[..|rows| - 1]);
      if Matched(rows[|rows| - 1]) then front + [rows[|rows| - 1].crossMarketSignal] else front
  }

  /** The rows with the matched signals replaced, in order, by the given ones. */
  function Fill(rows: seq<SignalRow>, signals: seq<real>): (r: seq<SignalRow>)
    requires |signals| == |MatchedIdx(rows)|
    ensures |r| == |rows|
  {
    if rows == [] then []
    else
      var front, last := rows[..|rows| - 1], rows[|rows| - 1];
      if Matched(last) then Fill(front, signals[..|signals| - 1]) + [WithSignal(last, signals[|signals| - 1])]
      else Fill(front, signals) + [last]
  }

  function Placebo(rows: seq<SignalRow>, order: seq<nat>): (r: seq<SignalRow>)
    requires |order| == |MatchedIdx(rows)| && forall j :: 0 <= j < |order| ==> order[j] < |order|
    ensures |r| == |rows|
  {
    Fill(rows, Deal(MatchedSignals(rows), order))
  }

  /** Where the k-th matched row sits, and what Fill puts there. */
  lemma {:induction false} FillAt(rows: seq<SignalRow>, signals: seq<real>, k: nat)
    requires |signals| == |MatchedIdx(rows)| && k < |signals|
    ensures Fill(rows, signals)[MatchedIdx(rows)[k]] == WithSignal(rows[MatchedIdx(rows)[k]], signals[k])
    ensures MatchedSignals(rows)[k] == rows[MatchedIdx(rows)[k]].crossMarketSignal
  {
    var front := rows[..|rows| - 1];
    if Matched(rows[|rows| - 1]) {
      if k < |signals| - 1 {
        FillAt(front, signals[..|signals| - 1], k);
      }
    } else {
      FillAt(front, signals, k);
    }
  }

  lemma {:induction false} FillElsewhere(rows: seq<SignalRow>, signals: seq<real>, i: nat)
    requires |signals| == |MatchedIdx(rows)| && i < |rows|
    ensures !Matched(rows[i]) ==> Fill(rows, signals)[i] == rows[i]
    ensures Matched(rows[i]) ==> i in MatchedIdx(rows)
    ensures Neutral(Fill(rows, signals)[i]) == Neutral(rows[i])
  {
    var front := rows[..|rows| - 1];
    if i < |front| {
      FillElsewhere(front, if Matched(rows[|rows| - 1]) then signals[..|signals| - 1] else signals, i);
    }
  }

  method MakePlaceboRows(rows: seq<SignalRow>, order: seq<nat>) returns (result: seq<SignalRow>)
    requires IsPermutation(order, |MatchedIdx(rows)|)
    ensures result == Placebo(rows, order)
  {
    hide Fill, MatchedIdx, MatchedSignals, Deal;
    var matchedIdx := MatchedIdx(rows);
    var permuted := Deal(MatchedSignals(rows), order);
    result := rows;
    for k := 0 to |matchedIdx|
      invariant |result| == |rows|
      invariant forall i :: 0 <= i < |rows| && i !in matchedIdx[..k] ==> result[i] == rows[i]
      invariant forall i :: 0 <= i < |rows| && i in matchedIdx[..k] ==> result[i] == Fill(rows, permuted)[i]
    {
      FillAt(rows, permuted, k);
      assert matchedIdx[..k + 1] == matchedIdx[..k] + [matchedIdx[k]];
      result := result[matchedIdx[k] := WithSignal(rows[matchedIdx[k]], permuted[k])];
    }
    assert matchedIdx[..|matchedIdx|] == matchedIdx;
    forall i | 0 <= i < |rows| ensures result[i] == Fill(rows, permuted)[i] {
      FillElsewhere(rows, permuted, i);
    }
  }

  lemma SignalsPush(rows: seq<SignalRow>, r: SignalRow)
    ensures MatchedSignals(rows + [r]) == if Matched(r) then MatchedSignals(rows) + [r.crossMarketSignal] else MatchedSignals(rows)
  {
    assert (rows + [r])[..|rows|] == rows;
  }

  lemma {:induction false} FilledSignals(rows: seq<SignalRow>, signals: seq<real>)
    requires |signals| == |MatchedIdx(rows)|
    ensures MatchedSignals(Fill(rows, signals)) == signals
  {
    hide MatchedSignals;
    if rows == [] {
      NoSignals();
    } else {
      var front, last := rows[..|rows| - 1], rows[|rows| - 1];
      if Matched(last) {
        var n := |signals| - 1;
        FilledSignals(front, signals[..n]);
        SignalsPush(Fill(front, signals[..n]), WithSignal(last, signals[n]));
        assert signals == signals[..n] + [signals[n]];
      } else {
        FilledSignals(front, signals);
        SignalsPush(Fill(front, signals), last);
      }
    }
  }

  lemma NoSignals()
    ensures MatchedSignals([]) == []
  {
  }

  /**
   The placebo is the active file with the signals of its matched rows permuted: the
   same bag of signals on the same rows, every unmatched row as it was, and nothing
   else different anywhere.
   */
  lemma PlaceboOnlyPermutesSignals(rows: seq<SignalRow>, order: seq<nat>)
    requires IsPermutation(order, |MatchedIdx(rows)|)
    ensures multiset(MatchedSignals(Placebo(rows, order))) == multiset(MatchedSignals(rows))
    ensures MakeNeutralRows(Placebo(rows, order)) == MakeNeutralRows(rows)
    ensures forall i :: 0 <= i < |rows| && !Matched(rows[i]) ==> Placebo(rows, order)[i] == rows[i]
  {
    var dealt := Deal(MatchedSignals(rows), order);
    FilledSignals(rows, dealt);
    DealKeepsMultiset(MatchedSignals(rows), order);
    forall i | 0 <= i < |rows| ensures Neutral(Fill(rows, dealt)[i]) == Neutral(rows[i])
      ensures !Matched(rows[i]) ==> Fill(rows, dealt)[i] == rows[i]
    {
      FillElsewhere(rows, dealt, i);
    }
  }

  /** The k-th matched row carries the signal of the matched row that its order names. */
  lemma PlaceboFollowsOrder(rows: seq<SignalRow>, order: seq<nat>, k: nat)
    requires IsPermutation(order, |MatchedIdx(rows)|) && k < |order|
    ensures var idx := MatchedIdx(rows);
      Placebo(rows, order)[idx[k]].crossMarketSignal == rows[idx[order[k]]].crossMarketSignal
  {
    FillAt(rows, Deal(MatchedSignals(rows), order), k);
    FillAt(rows, MatchedSignals(rows), order[k]);
  }
}
