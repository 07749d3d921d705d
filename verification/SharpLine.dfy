/**
 Assembling scored matches without peeking at who won (agent/backtest/sharp_line.py).
 A row lists the winner first; the results here compare it with the same row told the
 other way round. Names are normalised keys, empty when a name does not parse.
 */
module SharpLine {
  import opened Arithmetic
  import opened Markets
  import opened StableSort
  import opened Sums
  import opened CachedSweep
  import opened CrossMarketSignal

  /** The two prices of one bookmaker, winner's first. */
  datatype Line = Line(w: OddsCell, l: OddsCell) {
    function Swapped(): Line { Line(l, w) }

    function Implied(refIsWinner: bool): Option<real> {
      if refIsWinner then ImpliedProbTwoWay(w, l) else ImpliedProbTwoWay(l, w)
    }
  }

  datatype MatchRow = MatchRow(
    completed: bool,
    winner: string,
    loser: string,
    pinnacle: Line,
    books: seq<Line>,
    average: Line,
    clusterKey: string)

  /** The row as it would read had the other player won. */
  function Swap(r: MatchRow): (s: MatchRow)
    ensures |s.books| == |r.books| && forall i :: 0 <= i < |r.books| ==> s.books[i] == r.books[i].Swapped()
  {
    MatchRow(r.completed, r.loser, r.winner, r.pinnacle.Swapped(),
             seq(|r.books|, i requires 0 <= i < |r.books| => r.books[i].Swapped()), r.average.Swapped(), r.clusterKey)
  }

  // ------------------------------------------------------------------ the 2a sample

  /** The probabilities of the usable books, in order. */
  function BookProbs(books: seq<Line>, refIsWinner: bool): seq<real> {
    if books == [] then []
    else
      var front, p := BookProbs(books[..|books| - 1], refIsWinner), books[|books| - 1].Implied(refIsWinner);
      if p.Some? then front + [p.value] else front
  }

  datatype Consensus = Consensus(prob: Option<real>, usedAverage: bool)

  function SoftConsensus(r: MatchRow, refIsWinner: bool): Consensus {
    var probs := BookProbs(r.books, refIsWinner);
    if probs != [] then Consensus(Some(Total(probs) / |probs| as real), false)
    else Consensus(r.average.Implied(refIsWinner), true)
  }

  method SoftConsensusProb(r: MatchRow, refIsWinner: bool) returns (c: Consensus)
    ensures c == SoftConsensus(r, refIsWinner)
  {
    var probs: seq<real> := [];
    for i := 0 to |r.books|
      invariant probs == BookProbs(r.books[..i], refIsWinner)
    {
      var line := r.books[i];
      var p := if refIsWinner then ImpliedProbTwoWay(line.w, line.l) else ImpliedProbTwoWay(line.l, line.w);
      assert r.books[..i + 1][..i] == r.books[..i];
      if p.Some? {
        probs := probs + [p.value];
      }
    }
    assert r.books[..|r.books|] == r.books;
    if probs != [] {
      return Consensus(Some(Total(probs) / |probs| as real), false);
    }
    return Consensus(r.average.Implied(refIsWinner), true);
  }

  /** Both sides of every usable book: complementary probabilities strictly inside (0, 1). */
  lemma {:induction false} BookProbsComplement(books: seq<Line>)
    ensures |BookProbs(books, true)| == |BookProbs(books, false)|
    ensures forall i :: 0 <= i < |BookProbs(books, true)| ==>
      0.0 < BookProbs(books, true)[i] < 1.0 && BookProbs(books, false)[i] == 1.0 - BookProbs(books, true)[i]
  {
    if books != [] {
      BookProbsComplement(books[..|books| - 1]);
      LineIsFair(books[|books| - 1]);
    }
  }

  lemma LineIsFair(line: Line)
    ensures match line.Implied(true)
      case None => line.Implied(false).None?
      case Some(p) => 0.0 < p < 1.0 && line.Implied(false) == Some(1.0 - p)
  {
    if Usable(line.w).Some? && Usable(line.l).Some? {
      DevigIsFair(line.w, line.l);
    }
  }

  lemma {:induction false} TotalOfComplements(xs: seq<real>, ys: seq<real>)
    requires |xs| == |ys| && forall i :: 0 <= i < |xs| ==> ys[i] == 1.0 - xs[i]
    ensures Total(ys) == |xs| as real - Total(xs)
  {
    if xs != [] {
      TotalOfComplements(xs[..|xs| - 1], ys[..|ys| - 1]);
    }
  }

  lemma MeanOfComplement(total: real, n: nat)
    requires n > 0
    ensures (n as real - total) / n as real == 1.0 - total / n as real
  {
    var m := n as real;
    var a, b := (m - total) / m, total / m;
    assert a * m == m - total && b * m == total;
    assert (1.0 - b) * m == m - total;
    Cancel(a, 1.0 - b, m);
  }

  /** A book consensus lies within any bounds on the usable books, so between the least and the greatest of them. */
  lemma ConsensusIsBetween(r: MatchRow, refIsWinner: bool, low: real, high: real)
    requires BookProbs(r.books, refIsWinner) != [] && Within(BookProbs(r.books, refIsWinner), low, high)
    ensures var c := SoftConsensus(r, refIsWinner);
      !c.usedAverage && c.prob.Some? && low <= c.prob.value <= high
  {
    var probs := BookProbs(r.books, refIsWinner);
    TotalWithin(probs, low, high);
    MeanWithin(Total(probs), |probs|, low, high);
  }

  /** Without a usable book it is the average line's, and says so. */
  lemma ConsensusFallsBack(r: MatchRow, refIsWinner: bool)
    requires Filter(r.books, Quoted()) == []
    ensures SoftConsensus(r, refIsWinner) == Consensus(r.average.Implied(refIsWinner), true)
  {
    EveryUsableBookCounts(r.books, refIsWinner);
  }

  /** It is their mean: as many times itself as there are usable books is what they add up to. */
  lemma ConsensusIsMean(r: MatchRow, refIsWinner: bool)
    requires BookProbs(r.books, refIsWinner) != []
    ensures SoftConsensus(r, refIsWinner).prob.Some?
    ensures var probs := BookProbs(r.books, refIsWinner); SoftConsensus(r, refIsWinner).prob.value * |probs| as real == Total(probs)
  {
  }

  /** The books that count are those that quote both sides. */
  lemma {:induction false} EveryUsableBookCounts(books: seq<Line>, refIsWinner: bool)
    ensures |BookProbs(books, refIsWinner)| == |Filter(books, Quoted())|
    ensures forall k :: 0 <= k < |BookProbs(books, refIsWinner)| ==>
      Some(BookProbs(books, refIsWinner)[k]) == Filter(books, Quoted())[k].Implied(refIsWinner)
  {
    hide ImpliedProbTwoWay;
    if books != [] {
      var front, last := books[..|books| - 1], books[|books| - 1];
      EveryUsableBookCounts(front, refIsWinner);
      LineIsFair(last);
      QuotedIsUsable(last);
      assert books == front + [last];
      FilterPush(front, last, Quoted());
    }
  }

  function Quoted(): Line -> bool { (l: Line) => Usable(l.w).Some? && Usable(l.l).Some? }

  lemma QuotedIsUsable(line: Line)
    ensures line.Implied(true).Some? <==> Quoted()(line)
    ensures line.Implied(false).Some? <==> Quoted()(line)
  {
  }

  /** Whatever its source, a consensus is a probability strictly inside (0, 1) and the other player's is its complement. */
  lemma ConsensusIsFair(r: MatchRow)
    ensures var a, b := SoftConsensus(r, true), SoftConsensus(r, false);
      && a.usedAverage == b.usedAverage
      && (a.prob.Some? <==> b.prob.Some?)
      && (a.prob.Some? ==> 0.0 < a.prob.value < 1.0 && b.prob.value == 1.0 - a.prob.value)
  {
    hide ImpliedProbTwoWay;
    var xs, ys := BookProbs(r.books, true), BookProbs(r.books, false);
    BookProbsComplement(r.books);
    LineIsFair(r.average);
    if xs != [] {
      TotalOfComplements(xs, ys);
      MeanOfComplement(Total(xs), |xs|);
      var low, high := InnerBounds(xs);
      TotalWithin(xs, low, high);
      MeanWithin(Total(xs), |xs|, low, high);
    }
  }

  lemma {:induction false} InnerBounds(xs: seq<real>) returns (low: real, high: real)
    requires forall i :: 0 <= i < |xs| ==> 0.0 < xs[i] < 1.0
    ensures 0.0 < low <= high < 1.0 && Within(xs, low, high)
  {
    if xs == [] {
      low, high := 0.5, 0.5;
    } else {
      var n := |xs| - 1;
      low, high := InnerBounds(xs[..n]);
      low := if xs[n] < low then xs[n] else low;
      high := if xs[n] > high then xs[n] else high;
    }
  }

  function BrierEdge(pPin: real, pSoft: real, y: int): real {
    (pSoft - y as real) * (pSoft - y as real) - (pPin - y as real) * (pPin - y as real)
  }

  datatype MatchSample = MatchSample(edge: real, pPin: real, pSoft: real, y: int, clusterKey: string, usedAverage: bool)

  function BuildTwoARow(r: MatchRow, completedOnly: bool): Result<MatchSample> {
    if completedOnly && !r.completed then Err("incomplete_ret_wo")
    else if r.winner == "" || r.loser == "" then Err("surname_unparseable")
    else if r.winner == r.loser then Err("surname_collision")
    else
      var refIsWinner := !StringLe(r.loser, r.winner);
      var pPin := r.pinnacle.Implied(refIsWinner);
      if pPin.None? then Err("no_sharp")
      else
        var soft := SoftConsensus(r, refIsWinner);
        if soft.prob.None? then Err("no_soft")
        else
          var y := if refIsWinner then 1 else 0;
          Ok(MatchSample(BrierEdge(pPin.value, soft.prob.value, y), pPin.value, soft.prob.value, y, r.clusterKey, soft.usedAverage))
  }

  /** A row becomes a sample exactly when it may be used, names two different players, and both lines quote both sides. */
  lemma SampleExistsExactlyWhen(r: MatchRow, completedOnly: bool)
    ensures BuildTwoARow(r, completedOnly).Ok? <==>
      && (completedOnly ==> r.completed)
      && r.winner != "" && r.loser != "" && r.winner != r.loser
      && Quoted()(r.pinnacle)
      && (Filter(r.books, Quoted()) != [] || Quoted()(r.average))
  {
    hide ImpliedProbTwoWay, Filter;
    EveryUsableBookCounts(r.books, true);
    EveryUsableBookCounts(r.books, false);
    QuotedIsUsable(r.pinnacle);
    QuotedIsUsable(r.average);
  }

  /** A sample reads everything from the player whose key sorts first, and y says whether that player won. */
  lemma SampleReadsReference(r: MatchRow, completedOnly: bool)
    requires BuildTwoARow(r, completedOnly).Ok?
    ensures var m := BuildTwoARow(r, completedOnly).value;
      && r.winner != r.loser && (m.y == 1 || m.y == 0)
      && (m.y == 1 <==> StringLe(r.winner, r.loser))
      && Some(m.pPin) == (if m.y == 1 then ImpliedProbTwoWay(r.pinnacle.w, r.pinnacle.l) else ImpliedProbTwoWay(r.pinnacle.l, r.pinnacle.w))
      && SoftConsensus(r, m.y == 1) == Consensus(Some(m.pSoft), m.usedAverage)
      && m.clusterKey == r.clusterKey
      && (m.edge > 0.0 <==> Distance(m.pPin, m.y as real) < Distance(m.pSoft, m.y as real))
  {
    hide ImpliedProbTwoWay, SoftConsensus, BrierEdge;
    StringLeTotal(r.winner, r.loser);
    var m := BuildTwoARow(r, completedOnly).value;
    EdgeSign(m.pPin, m.pSoft, m.y);
  }

  /** The edge of a sample is positive exactly when the sharp line was nearer to what happened. */
  lemma EdgeSign(pPin: real, pSoft: real, y: int)
    ensures BrierEdge(pPin, pSoft, y) > 0.0 <==> Distance(pPin, y as real) < Distance(pSoft, y as real)
    ensures BrierEdge(pPin, pSoft, y) == -BrierEdge(pSoft, pPin, y)
  {
    var a, b := Distance(pPin, y as real), Distance(pSoft, y as real);
    assert a * a == (pPin - y as real) * (pPin - y as real) && b * b == (pSoft - y as real) * (pSoft - y as real);
    if a < b {
      StrictSquares(b, a);
    } else if b < a {
      StrictSquares(a, b);
    }
  }

  function Distance(x: real, y: real): real { if x < y then y - x else x - y }

  lemma {:induction false} BooksSwap(books: seq<Line>, other: seq<Line>, refIsWinner: bool)
    requires |books| == |other| && forall i :: 0 <= i < |books| ==> other[i] == books[i].Swapped()
    ensures BookProbs(other, !refIsWinner) == BookProbs(books, refIsWinner)
  {
    if books != [] {
      BooksSwap(books[..|books| - 1], other[..|other| - 1], refIsWinner);
    }
  }

  lemma ConsensusSwaps(r: MatchRow, refIsWinner: bool)
    ensures SoftConsensus(Swap(r), !refIsWinner) == SoftConsensus(r, refIsWinner)
  {
    BooksSwap(r.books, Swap(r).books, refIsWinner);
  }

  /**
   Which rows are kept, why the others are dropped, and the two forecasts of a kept row
   do not depend on who won; only the outcome bit does.
   */
  lemma TwoASampleIgnoresResult(r: MatchRow, completedOnly: bool)
    ensures var a, b := BuildTwoARow(r, completedOnly), BuildTwoARow(Swap(r), completedOnly);
      match a
      case Err(e) => b == Err(e)
      case Ok(m) => b == Ok(MatchSample(BrierEdge(m.pPin, m.pSoft, 1 - m.y), m.pPin, m.pSoft, 1 - m.y, m.clusterKey, m.usedAverage))
  {
    hide SoftConsensus, ImpliedProbTwoWay, BrierEdge;
    StringLeTotal(r.winner, r.loser);
    ConsensusSwaps(r, true);
    ConsensusSwaps(r, false);
  }

  // --------------------------------------------------------------------- the 2b join

  predicate SurnameMatches(key: string, display: string) { key != "" && EndsWith(display, key) }

  predicate Forward(r: MatchRow, ref: string, other: string) { SurnameMatches(r.winner, ref) && SurnameMatches(r.loser, other) }

  predicate Backward(r: MatchRow, ref: string, other: string) { SurnameMatches(r.loser, ref) && SurnameMatches(r.winner, other) }

  datatype Candidate = Candidate(row: MatchRow, refIsWinner: bool)

  datatype Search = Search(candidates: seq<Candidate>, ambiguous: bool)

  function Consider(s: Search, r: MatchRow, ref: string, other: string): Search {
    var f, b := Forward(r, ref, other), Backward(r, ref, other);
    if f && b then s.(ambiguous := true)
    else if f then s.(candidates := s.candidates + [Candidate(r, true)])
    else if b then s.(candidates := s.candidates + [Candidate(r, false)])
    else s
  }

  function Searched(rows: seq<MatchRow>, ref: string, other: string): Search {
    if rows == [] then Search([], false)
    else Consider(Searched(rows[..|rows| - 1], ref, other), rows[|rows| - 1], ref, other)
  }

  function Decide(s: Search): Result<Candidate> {
    if s.ambiguous then Err("ambiguous_join")
    else if s.candidates == [] then Err("date_miss")
    else if |s.candidates| > 1 then Err("ambiguous_join")
    else Ok(s.candidates[0])
  }

  function RowsOn(byDate: map<int, seq<MatchRow>>, day: int): seq<MatchRow> { if day in byDate then byDate[day] else [] }

  /** The rows of the days first, first + 1, ..., n days in all. */
  function RowsFrom(byDate: map<int, seq<MatchRow>>, first: int, n: nat): seq<MatchRow> {
    if n == 0 then [] else RowsFrom(byDate, first, n - 1) + RowsOn(byDate, first + n - 1)
  }

  function Joined(byDate: map<int, seq<MatchRow>>, base: int, tolerance: nat, ref: string, other: string): Result<Candidate> {
    Decide(Searched(RowsFrom(byDate, base - tolerance, 2 * tolerance + 1), ref, other))
  }

  lemma {:induction false} SearchedConcat(a: seq<MatchRow>, b: seq<MatchRow>, i: nat, ref: string, other: string)
    requires i < |b|
    ensures Searched(a + b[..i + 1], ref, other) == Consider(Searched(a + b[..i], ref, other), b[i], ref, other)
  {
    var s := a + b[..i + 1];
    assert s[..|s| - 1] == a + b[..i];
  }

  method JoinOneToOne(byDate: map<int, seq<MatchRow>>, base: int, tolerance: nat, ref: string, other: string)
    returns (r: Result<Candidate>)
    ensures r == Joined(byDate, base, tolerance, ref, other)
  {
    hide Forward, Backward;
    var candidates: seq<Candidate>, ambiguous := [], false;
    var first := base - tolerance;
    for d := 0 to 2 * tolerance + 1
      invariant Search(candidates, ambiguous) == Searched(RowsFrom(byDate, first, d), ref, other)
    {
      var rows, before := RowsOn(byDate, first + d), RowsFrom(byDate, first, d);
      assert before + rows[..0] == before;
      for i := 0 to |rows|
        invariant Search(candidates, ambiguous) == Searched(before + rows[..i], ref, other)
      {
        SearchedConcat(before, rows, i, ref, other);
        var forward, backward := Forward(rows[i], ref, other), Backward(rows[i], ref, other);
        if forward && backward {
          ambiguous := true;
        } else if forward {
          candidates := candidates + [Candidate(rows[i], true)];
        } else if backward {
          candidates := candidates + [Candidate(rows[i], false)];
        }
      }
      assert before + rows[..|rows|] == RowsFrom(byDate, first, d + 1);
    }
    return Decide(Search(candidates, ambiguous));
  }

  /** A row within the tolerated days. */
  ghost predicate InWindow(byDate: map<int, seq<MatchRow>>, base: int, tolerance: nat, r: MatchRow) {
    exists day :: base - tolerance <= day <= base + tolerance && day in byDate && r in byDate[day]
  }

  lemma {:induction false} WindowHoldsItsDays(byDate: map<int, seq<MatchRow>>, first: int, n: nat, r: MatchRow)
    ensures r in RowsFrom(byDate, first, n) <==> exists day :: first <= day < first + n && day in byDate && r in byDate[day]
  {
    if n > 0 {
      WindowHoldsItsDays(byDate, first, n - 1, r);
      assert r in RowsOn(byDate, first + n - 1) <==> first + n - 1 in byDate && r in byDate[first + n - 1];
    }
  }

  predicate FitsOnce(r: MatchRow, ref: string, other: string) { Forward(r, ref, other) != Backward(r, ref, other) }

  predicate FitsTwice(r: MatchRow, ref: string, other: string) { Forward(r, ref, other) && Backward(r, ref, other) }

  function OnceFor(ref: string, other: string): MatchRow -> bool { (r: MatchRow) => FitsOnce(r, ref, other) }

  ghost predicate SomeFitTwice(rows: seq<MatchRow>, ref: string, other: string) {
    exists i :: 0 <= i < |rows| && FitsTwice(rows[i], ref, other)
  }

  lemma SomeFitTwicePush(rows: seq<MatchRow>, r: MatchRow, ref: string, other: string)
    ensures SomeFitTwice(rows + [r], ref, other) <==> SomeFitTwice(rows, ref, other) || FitsTwice(r, ref, other)
  {
    hide FitsTwice;
    if i :| 0 <= i < |rows| && FitsTwice(rows[i], ref, other) {
      assert FitsTwice((rows + [r])[i], ref, other);
    }
    assert (rows + [r])[|rows|] == r;
  }

  lemma NoneFitTwice(ref: string, other: string)
    ensures !SomeFitTwice([], ref, other)
  {
  }

  /** The candidates are the rows that fit one way round, in order, and the flag is for any that fit both ways. */
  lemma {:induction false} SearchFinds(rows: seq<MatchRow>, ref: string, other: string)
    ensures var s := Searched(rows, ref, other);
      && (s.ambiguous <==> SomeFitTwice(rows, ref, other))
      && |s.candidates| == |Filter(rows, OnceFor(ref, other))|
      && forall k :: 0 <= k < |s.candidates| ==>
           s.candidates[k] == Candidate(Filter(rows, OnceFor(ref, other))[k], Forward(Filter(rows, OnceFor(ref, other))[k], ref, other))
  {
    hide Forward, Backward, SomeFitTwice;
    if rows == [] {
      assert !SomeFitTwice(rows, ref, other) by { NoneFitTwice(ref, other); }
    } else {
      var front, last := rows[..|rows| - 1], rows[|rows| - 1];
      SearchFinds(front, ref, other);
      assert rows == front + [last];
      SomeFitTwicePush(front, last, ref, other);
      FilterPush(front, last, OnceFor(ref, other));
    }
  }

  /**
   The join succeeds exactly when one row in the window fits, one way round, and none fits
   both ways; it then returns that row and the way round. Nothing that fits is a miss.
   */
  lemma JoinFindsTheOnlyFit(byDate: map<int, seq<MatchRow>>, base: int, tolerance: nat, ref: string, other: string)
    ensures var window, r := RowsFrom(byDate, base - tolerance, 2 * tolerance + 1), Joined(byDate, base, tolerance, ref, other);
      && (forall row :: row in window <==> InWindow(byDate, base, tolerance, row))
      && (r.Ok? <==> |Filter(window, OnceFor(ref, other))| == 1 && !SomeFitTwice(window, ref, other))
      && (r.Ok? ==> r.value == Candidate(Filter(window, OnceFor(ref, other))[0], Forward(r.value.row, ref, other)))
      && (r.Err? && r.reason == "date_miss" <==>
            !SomeFitTwice(window, ref, other) && forall row :: row in window ==> !FitsOnce(row, ref, other))
  {
    hide Forward, Backward, Searched;
    var window := RowsFrom(byDate, base - tolerance, 2 * tolerance + 1);
    forall row ensures row in window <==> InWindow(byDate, base, tolerance, row) {
      WindowHoldsItsDays(byDate, base - tolerance, 2 * tolerance + 1, row);
    }
    SearchFinds(window, ref, other);
    forall row ensures row in Filter(window, OnceFor(ref, other)) <==> row in window && FitsOnce(row, ref, other) {
      InFilter(window, OnceFor(ref, other), row);
    }
    if Filter(window, OnceFor(ref, other)) != [] {
      assert Filter(window, OnceFor(ref, other))[0] in Filter(window, OnceFor(ref, other));
    }
  }

  /** The same match, possibly told with the other winner. */
  ghost predicate SameMatch(r: MatchRow, s: MatchRow) { s == r || s == Swap(r) }

  ghost predicate SameCandidate(c: Candidate, d: Candidate) {
    (d.row == c.row && d.refIsWinner == c.refIsWinner) || (d.row == Swap(c.row) && d.refIsWinner == !c.refIsWinner)
  }

  ghost predicate SameSearch(s: Search, t: Search) {
    && s.ambiguous == t.ambiguous && |s.candidates| == |t.candidates|
    && forall i :: 0 <= i < |s.candidates| ==> SameCandidate(s.candidates[i], t.candidates[i])
  }

  lemma ConsiderSame(s: Search, t: Search, r: MatchRow, r': MatchRow, ref: string, other: string)
    requires SameSearch(s, t) && SameMatch(r, r')
    ensures SameSearch(Consider(s, r, ref, other), Consider(t, r', ref, other))
  {
    hide SurnameMatches, Swap;
    assert r' != r ==> Forward(r', ref, other) == Backward(r, ref, other) && Backward(r', ref, other) == Forward(r, ref, other) by {
      SwappedNames(r);
    }
  }

  lemma SwappedNames(r: MatchRow)
    ensures Swap(r).winner == r.loser && Swap(r).loser == r.winner
  {
  }

  lemma {:induction false} SearchIgnoresResults(rows: seq<MatchRow>, others: seq<MatchRow>, ref: string, other: string)
    requires |rows| == |others| && forall i :: 0 <= i < |rows| ==> SameMatch(rows[i], others[i])
    ensures SameSearch(Searched(rows, ref, other), Searched(others, ref, other))
  {
    hide Consider, SameSearch, SameMatch;
    if rows != [] {
      var n := |rows| - 1;
      SearchIgnoresResults(rows[..n], others[..n], ref, other);
      ConsiderSame(Searched(rows[..n], ref, other), Searched(others[..n], ref, other), rows[n], others[n], ref, other);
    } else {
      assert SameSearch(Searched(rows, ref, other), Searched(others, ref, other)) by { NothingFound(ref, other); }
    }
  }

  lemma NothingFound(ref: string, other: string)
    ensures SameSearch(Searched([], ref, other), Searched([], ref, other))
  {
  }

  ghost predicate SameTables(a: map<int, seq<MatchRow>>, b: map<int, seq<MatchRow>>) {
    a.Keys == b.Keys && forall day :: day in a ==>
      |a[day]| == |b[day]| && forall i :: 0 <= i < |a[day]| ==> SameMatch(a[day][i], b[day][i])
  }

  lemma {:induction false} SameRows(a: map<int, seq<MatchRow>>, b: map<int, seq<MatchRow>>, first: int, n: nat)
    requires SameTables(a, b)
    ensures var r, s := RowsFrom(a, first, n), RowsFrom(b, first, n);
      |r| == |s| && forall i :: 0 <= i < |r| ==> SameMatch(r[i], s[i])
  {
    hide SameMatch;
    if n > 0 {
      SameRows(a, b, first, n - 1);
    }
  }

  /**
   Whether a market joins, why it does not, and which match it joins do not depend on
   who won any match in the tables: rewriting any of the results, in any pattern, only
   rewrites the chosen row and its orientation flag along with it.
   */
  lemma JoinIgnoresResults(a: map<int, seq<MatchRow>>, b: map<int, seq<MatchRow>>, base: int, tolerance: nat, ref: string, other: string)
    requires SameTables(a, b)
    ensures match Joined(a, base, tolerance, ref, other)
      case Err(e) => Joined(b, base, tolerance, ref, other) == Err(e)
      case Ok(c) => Joined(b, base, tolerance, ref, other).Ok? && SameCandidate(c, Joined(b, base, tolerance, ref, other).value)
  {
    hide SameTables, SameMatch, SameCandidate, Searched;
    SameRows(a, b, base - tolerance, 2 * tolerance + 1);
    SearchIgnoresResults(RowsFrom(a, base - tolerance, 2 * tolerance + 1), RowsFrom(b, base - tolerance, 2 * tolerance + 1), ref, other);
  }

  // ------------------------------------------------------------------ the simulated bet

  datatype BetResult = Placed(yes: bool, entryYes: real, netPnl: real) | Dropped(reason: string)

  function TakerFee(size: real, price: real, rate: real): real { size * rate * price * (1.0 - price) }

  /** Settled at the true outcome, with side-correct prices and no cap. */
  function CleanPnl(yes: bool, entryYes: real, size: real, referenceWon: bool): real {
    BetPnl(yes, entryYes, size, if referenceWon then "yes" else "no", 1.0, None, true)
  }

  function SimulateBet(pPin: real, pSoft: real, pYes: real, referenceWon: bool, threshold: real, halfSpread: real, feeRate: real, size: real): BetResult {
    var edge := pPin - pSoft;
    if (if edge < 0.0 then -edge else edge) <= threshold then Dropped("below_threshold")
    else
      var yes := edge > 0.0;
      var entryYes := if yes then pYes + halfSpread else pYes - halfSpread;
      if !(0.0 < entryYes < 1.0) then Dropped("invalid_spread_price")
      else
        var eff := EffectiveEntryPrice(yes, entryYes);
        if !(0.0 < eff <= 1.0) then Dropped("invalid_spread_price")
        else Placed(yes, entryYes, CleanPnl(yes, entryYes, size, referenceWon) - TakerFee(size, eff, feeRate))
  }

  /** The same bet described from the other player's side. */
  function Mirrored(b: BetResult): BetResult {
    match b
    case Dropped(reason) => b
    case Placed(yes, entryYes, netPnl) => Placed(!yes, 1.0 - entryYes, netPnl)
  }

  function MirrorBet(pPin: real, pSoft: real, pYes: real, referenceWon: bool, threshold: real, halfSpread: real, feeRate: real, size: real): BetResult {
    SimulateBet(1.0 - pPin, 1.0 - pSoft, 1.0 - pYes, !referenceWon, threshold, halfSpread, feeRate, size)
  }

  predicate IsPrice(x: real) { 0.0 < x < 1.0 }

  /**
   It does not matter which player is called the reference: the mirrored bet is placed
   or dropped alike, takes the opposite side at the complementary price and nets the
   same. The one exception: with no edge and a negative threshold both descriptions bet
   NO, and the mirror image is lost if either finds a price.
   */
  lemma BetsMirrorExactlyWhen(pPin: real, pSoft: real, pYes: real, referenceWon: bool, threshold: real, halfSpread: real, feeRate: real, size: real)
    ensures MirrorBet(pPin, pSoft, pYes, referenceWon, threshold, halfSpread, feeRate, size)
         == Mirrored(SimulateBet(pPin, pSoft, pYes, referenceWon, threshold, halfSpread, feeRate, size))
      <==> threshold >= 0.0 || pPin != pSoft || !(IsPrice(pYes - halfSpread) || IsPrice(1.0 - pYes - halfSpread))
  {
    if threshold >= 0.0 || pPin != pSoft {
      OtherSide(pPin, pSoft, pYes, referenceWon, threshold, halfSpread, feeRate, size);
    } else {
      NeitherSide(pPin, pYes, referenceWon, threshold, halfSpread, feeRate, size);
    }
  }

  lemma OtherSide(pPin: real, pSoft: real, pYes: real, referenceWon: bool, threshold: real, halfSpread: real, feeRate: real, size: real)
    requires threshold >= 0.0 || pPin != pSoft
    ensures MirrorBet(pPin, pSoft, pYes, referenceWon, threshold, halfSpread, feeRate, size)
         == Mirrored(SimulateBet(pPin, pSoft, pYes, referenceWon, threshold, halfSpread, feeRate, size))
  {
    hide TakerFee;
  }

  lemma NeitherSide(p: real, pYes: real, referenceWon: bool, threshold: real, halfSpread: real, feeRate: real, size: real)
    requires threshold < 0.0
    ensures MirrorBet(p, p, pYes, referenceWon, threshold, halfSpread, feeRate, size)
         == Mirrored(SimulateBet(p, p, pYes, referenceWon, threshold, halfSpread, feeRate, size))
      <==> !(IsPrice(pYes - halfSpread) || IsPrice(1.0 - pYes - halfSpread))
  {
    hide TakerFee, CleanPnl;
  }

  /** What a bet that is placed costs and pays: the leg is bought across the spread, its shares settle at one, and the fee is taken on top. */
  lemma BetInNumbers(pPin: real, pSoft: real, pYes: real, referenceWon: bool, threshold: real, halfSpread: real, feeRate: real, size: real)
    ensures var b := SimulateBet(pPin, pSoft, pYes, referenceWon, threshold, halfSpread, feeRate, size);
      var yes := pPin > pSoft;
      var leg := (if yes then pYes else 1.0 - pYes) + halfSpread;
      && (b.Placed? <==> Distance(pPin, pSoft) > threshold && IsPrice(leg))
      && (b.Placed? ==> b.yes == yes && b.entryYes == (if yes then leg else 1.0 - leg))
      && (b.Placed? && yes != referenceWon ==> b.netPnl == -size - size * feeRate * leg * (1.0 - leg))
      && (b.Placed? && yes == referenceWon ==>
            (b.netPnl + size + size * feeRate * leg * (1.0 - leg)) * leg == size)
  {
    var yes := pPin > pSoft;
    var leg := (if yes then pYes else 1.0 - pYes) + halfSpread;
    var b := SimulateBet(pPin, pSoft, pYes, referenceWon, threshold, halfSpread, feeRate, size);
    if b.Placed? {
      assert b.netPnl == CleanPnl(yes, if yes then leg else 1.0 - leg, size, referenceWon) - TakerFee(size, leg, feeRate);
      CleanPnlPays(yes, leg, size, referenceWon);
      FeeOnLeg(size, leg, feeRate);
    }
    hide TakerFee, CleanPnl;
  }

  lemma FeeOnLeg(size: real, leg: real, feeRate: real)
    ensures TakerFee(size, leg, feeRate) == size * feeRate * leg * (1.0 - leg)
  {
  }

  lemma CleanPnlPays(yes: bool, leg: real, size: real, referenceWon: bool)
    requires leg > 0.0
    ensures var pnl := CleanPnl(yes, if yes then leg else 1.0 - leg, size, referenceWon);
      if yes == referenceWon then (pnl + size) * leg == size else pnl == -size
  {
    SharesPay(1.0, leg, size);
  }

  /** Without an edge, at even prices and a negative threshold, both descriptions bet NO: no mirror image. */
  lemma MirrorLost(referenceWon: bool, feeRate: real, size: real)
    ensures MirrorBet(0.5, 0.5, 0.5, referenceWon, -1.0, 0.0, feeRate, size)
         != Mirrored(SimulateBet(0.5, 0.5, 0.5, referenceWon, -1.0, 0.0, feeRate, size))
  {
    BetsMirrorExactlyWhen(0.5, 0.5, 0.5, referenceWon, -1.0, 0.0, feeRate, size);
  }
}
