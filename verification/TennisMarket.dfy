/**
 The synthetic tennis-cadence market (sim/tennis_market_generator.py): prices and depths
 are written match by match into two arrays. Every random draw is arbitrary within the
 range its distribution allows.
 */
module TennisMarket {
  import opened Arithmetic
  import opened Markets

  const PRICE_FLOOR := 0.05
  const PRICE_CEIL := 0.95
  const MATCH_TICKS_LOW: nat := 3
  const MATCH_TICKS_HIGH: nat := 9

  /** The draws of match m, and the shock of each tick (normal part and point shock together). */
  datatype Draws = Draws(
    length: nat -> nat,
    baseline: nat -> real,
    depthOpen: nat -> real,
    depthClose: nat -> real,
    shock: nat -> real)

  datatype Arrays = Arrays(prices: array<real>, depths: array<real>, boundaries: seq<nat>)

  ghost predicate InRange(d: Draws) {
    forall m: nat ::
      && MATCH_TICKS_LOW <= d.length(m) <= MATCH_TICKS_HIGH
      && 30.0 <= d.depthOpen(m) <= 120.0
      && 200.0 <= d.depthClose(m) <= 700.0
  }

  function ClipPrice(p: real): real { if p < PRICE_FLOOR then PRICE_FLOOR else if p > PRICE_CEIL then PRICE_CEIL else p }

  /** Pulled back towards the match's baseline, shocked and clipped. */
  function NextPrice(p: real, base: real, shock: real): real { ClipPrice(0.85 * p + 0.15 * base + shock) }

  /** The straight line from the open anchor to the close anchor, `done` of `steps` steps along it. */
  function Ramp(open: real, close: real, done: nat, steps: nat): real
    requires steps > 0
  {
    open + (close - open) * (done as real / steps as real)
  }

  /** The price walk of a match that began at `start`, before tick j is drawn. */
  function PriceBefore(d: Draws, m: nat, start: nat, j: nat): real
    requires start <= j
    decreases j - start
  {
    var base := ClipPrice(d.baseline(m));
    if j == start then base else NextPrice(PriceBefore(d, m, start, j - 1), base, d.shock(j - 1))
  }

  function Price(d: Draws, m: nat, start: nat, j: nat): real
    requires start <= j
  {
    PriceBefore(d, m, start, j + 1)
  }

  function StepsOf(start: nat, end: nat): (k: nat)
    requires start < end
    ensures k > 0
  {
    if end - start - 1 > 1 then end - start - 1 else 1
  }

  function Depth(d: Draws, m: nat, start: nat, end: nat, j: nat): real
    requires start <= j < end
  {
    Ramp(d.depthOpen(m), d.depthClose(m), j - start, StepsOf(start, end))
  }

  /** Where match m ends: where the next begins, or at the end of the stream. */
  function EndOf(boundaries: seq<nat>, m: nat, n: nat): nat
    requires m < |boundaries|
  {
    if m + 1 < |boundaries| then boundaries[m + 1] else n
  }

  /** The matches cut [0, n) into consecutive stretches of 3 to 9 ticks, the last possibly cut short. */
  ghost predicate CutsStream(boundaries: seq<nat>, n: nat) {
    && boundaries != [] && boundaries[0] == 0 && boundaries[|boundaries| - 1] < n
    && n - boundaries[|boundaries| - 1] <= MATCH_TICKS_HIGH
    && forall m :: 0 <= m < |boundaries| - 1 ==>
         MATCH_TICKS_LOW <= boundaries[m + 1] - boundaries[m] <= MATCH_TICKS_HIGH
  }

  ghost predicate MatchWritten(d: Draws, m: nat, start: nat, end: nat, prices: seq<real>, depths: seq<real>) {
    && start <= end <= |prices| && |prices| == |depths|
    && forall j :: start <= j < end ==> prices[j] == Price(d, m, start, j) && depths[j] == Depth(d, m, start, end, j)
  }

  method WriteMatch(d: Draws, m: nat, tick: nat, end: nat, prices: array<real>, depths: array<real>)
    requires prices != depths && prices.Length == depths.Length && tick < end <= prices.Length
    modifies prices, depths
    ensures MatchWritten(d, m, tick, end, prices[..], depths[..])
    ensures prices[..tick] == old(prices[..tick]) && depths[..tick] == old(depths[..tick])
  {
    hide ClipPrice, NextPrice, Ramp;
    var base := ClipPrice(d.baseline(m));
    var p := base;
    for j := tick to end
      invariant p == PriceBefore(d, m, tick, j)
      invariant forall k :: tick <= k < j ==> prices[k] == Price(d, m, tick, k) && depths[k] == Depth(d, m, tick, end, k)
      invariant prices[..tick] == old(prices[..tick]) && depths[..tick] == old(depths[..tick])
    {
      p := NextPrice(p, base, d.shock(j));
      prices[j] := p;
      depths[j] := Ramp(d.depthOpen(m), d.depthClose(m), j - tick, StepsOf(tick, end));
    }
  }

  ghost predicate AllWritten(d: Draws, boundaries: seq<nat>, n: nat, prices: seq<real>, depths: seq<real>) {
    forall m :: 0 <= m < |boundaries| ==> MatchWritten(d, m, boundaries[m], EndOf(boundaries, m, n), prices, depths)
  }

  /** The loop's state when `tick` ticks are written; a match cut short by the end can only be the last. */
  ghost predicate Progress(d: Draws, boundaries: seq<nat>, tick: nat, n: nat, prices: seq<real>, depths: seq<real>) {
    && (if boundaries == [] then tick == 0 else CutsStream(boundaries, tick))
    && (boundaries != [] && tick < n ==> MATCH_TICKS_LOW <= tick - boundaries[|boundaries| - 1])
    && AllWritten(d, boundaries, tick, prices, depths)
  }

  /** Each match is as long as drawn, unless the stream ends first. */
  ghost predicate LengthsAsDrawn(d: Draws, boundaries: seq<nat>, tick: nat, n: nat) {
    forall m :: 0 <= m < |boundaries| ==>
      EndOf(boundaries, m, tick) == if boundaries[m] + d.length(m) < n then boundaries[m] + d.length(m) else n
  }

  lemma OneMoreLength(d: Draws, boundaries: seq<nat>, tick: nat, end: nat, n: nat)
    requires LengthsAsDrawn(d, boundaries, tick, n)
    requires end == if tick + d.length(|boundaries|) < n then tick + d.length(|boundaries|) else n
    ensures LengthsAsDrawn(d, boundaries + [tick], end, n)
  {
    var longer := boundaries + [tick];
    forall m | 0 <= m < |longer|
      ensures EndOf(longer, m, end) == if longer[m] + d.length(m) < n then longer[m] + d.length(m) else n
    {
      assert m < |boundaries| ==> EndOf(longer, m, end) == EndOf(boundaries, m, tick);
    }
  }

  method BuildArrays(n: int, d: Draws) returns (r: Result<Arrays>)
    requires InRange(d)
    ensures r.Ok? <==> n >= 1
    ensures r.Ok? ==>
      && fresh(r.value.prices) && fresh(r.value.depths) && r.value.prices.Length == r.value.depths.Length == n
      && CutsStream(r.value.boundaries, n) && LengthsAsDrawn(d, r.value.boundaries, n, n)
      && AllWritten(d, r.value.boundaries, n, r.value.prices[..], r.value.depths[..])
  {
    hide *;
    if n < 1 {
      return Err("n_ticks must be at least 1");
    }
    var prices, depths, boundaries := new real[n](_ => 0.0), new real[n](_ => 0.0), [];
    var tick: nat := 0;
    NothingWritten(d, n, prices[..], depths[..]);
    while tick < n
      invariant tick <= n && (tick == 0 || boundaries != [])
      invariant Progress(d, boundaries, tick, n, prices[..], depths[..])
      invariant LengthsAsDrawn(d, boundaries, tick, n)
      decreases n - tick
    {
      ghost var before, pricesBefore, depthsBefore, start := boundaries, prices[..], depths[..], tick;
      var length := d.length(|boundaries|);
      LengthInRange(d, |boundaries|);
      var end := if tick + length < n then tick + length else n;
      boundaries := boundaries + [tick];
      WriteMatch(d, |boundaries| - 1, tick, end, prices, depths);
      tick := end;
      OneMoreLength(d, before, start, end, n);
      OneMoreMatch(d, before, start, end, n, pricesBefore, depthsBefore, prices[..], depths[..]);
    }
    WholeStream(d, boundaries, n, prices[..], depths[..]);
    r := Ok(Arrays(prices, depths, boundaries));
  }

  lemma NothingWritten(d: Draws, n: nat, prices: seq<real>, depths: seq<real>)
    ensures Progress(d, [], 0, n, prices, depths) && LengthsAsDrawn(d, [], 0, n)
  {
  }

  lemma LengthInRange(d: Draws, m: nat)
    requires InRange(d)
    ensures 3 <= d.length(m) <= 9
  {
  }

  lemma WholeStream(d: Draws, boundaries: seq<nat>, n: nat, prices: seq<real>, depths: seq<real>)
    requires boundaries != [] && Progress(d, boundaries, n, n, prices, depths)
    ensures CutsStream(boundaries, n) && AllWritten(d, boundaries, n, prices, depths)
  {
  }

  lemma OneMoreMatch(d: Draws, boundaries: seq<nat>, tick: nat, end: nat, n: nat,
                     pricesBefore: seq<real>, depthsBefore: seq<real>, prices: seq<real>, depths: seq<real>)
    requires tick < n && tick < end <= n && end - tick <= 9 && (end < n ==> end - tick >= 3)
    requires |pricesBefore| == |depthsBefore| == |prices| == |depths| == n
    requires Progress(d, boundaries, tick, n, pricesBefore, depthsBefore)
    requires MatchWritten(d, |boundaries|, tick, end, prices, depths)
    requires prices[..tick] == pricesBefore[..tick] && depths[..tick] == depthsBefore[..tick]
    ensures Progress(d, boundaries + [tick], end, n, prices, depths)
  {
    hide Price, Depth, MatchWritten, AllWritten;
    OneMoreCut(boundaries, tick, end);
    EarlierMatchesStand(d, boundaries, tick, end, pricesBefore, depthsBefore, prices, depths);
  }

  lemma OneMoreCut(boundaries: seq<nat>, tick: nat, end: nat)
    requires if boundaries == [] then tick == 0 else CutsStream(boundaries, tick) && tick - boundaries[|boundaries| - 1] >= MATCH_TICKS_LOW
    requires tick < end && end - tick <= MATCH_TICKS_HIGH
    ensures CutsStream(boundaries + [tick], end)
  {
  }

  lemma EarlierMatchesStand(d: Draws, boundaries: seq<nat>, tick: nat, end: nat,
                            pricesBefore: seq<real>, depthsBefore: seq<real>, prices: seq<real>, depths: seq<real>)
    requires boundaries != [] ==> CutsStream(boundaries, tick)
    requires tick <= |prices| == |depths| == |pricesBefore| == |depthsBefore|
    requires AllWritten(d, boundaries, tick, pricesBefore, depthsBefore)
    requires MatchWritten(d, |boundaries|, tick, end, prices, depths)
    requires prices[..tick] == pricesBefore[..tick] && depths[..tick] == depthsBefore[..tick]
    ensures AllWritten(d, boundaries + [tick], end, prices, depths)
  {
    hide Price, Depth, MatchWritten, CutsStream;
    var longer := boundaries + [tick];
    forall k | 0 <= k < |longer| ensures MatchWritten(d, k, longer[k], EndOf(longer, k, end), prices, depths) {
      if k < |boundaries| {
        assert MatchWritten(d, k, boundaries[k], EndOf(boundaries, k, tick), pricesBefore, depthsBefore);
        EarlierMatchEnds(boundaries, tick, k);
        assert EndOf(longer, k, end) == EndOf(boundaries, k, tick);
        PrefixKeepsMatch(d, k, longer[k], EndOf(longer, k, end), tick, pricesBefore, depthsBefore, prices, depths);
      }
    }
  }

  lemma PrefixKeepsMatch(d: Draws, m: nat, start: nat, end: nat, cut: nat,
                         pricesBefore: seq<real>, depthsBefore: seq<real>, prices: seq<real>, depths: seq<real>)
    requires MatchWritten(d, m, start, end, pricesBefore, depthsBefore)
    requires end <= cut <= |prices| == |depths| == |pricesBefore|
    requires prices[..cut] == pricesBefore[..cut] && depths[..cut] == depthsBefore[..cut]
    ensures MatchWritten(d, m, start, end, prices, depths)
  {
    hide Price, Depth;
    forall j | start <= j < end ensures prices[j] == Price(d, m, start, j) && depths[j] == Depth(d, m, start, end, j) {
      assert prices[j] == prices[..cut][j] && depths[j] == depths[..cut][j];
    }
  }

  lemma {:induction false} EarlierMatchEnds(boundaries: seq<nat>, n: nat, m: nat)
    requires CutsStream(boundaries, n) && m < |boundaries|
    ensures boundaries[m] < EndOf(boundaries, m, n) <= n
    decreases |boundaries| - m
  {
    if m + 1 < |boundaries| {
      EarlierMatchEnds(boundaries, n, m + 1);
    }
  }

  /** Inside a match the depth starts at the open anchor, rises tick by tick, and a match of two ticks or more reaches the close anchor. */
  lemma DepthRisesToClose(d: Draws, m: nat, start: nat, end: nat)
    requires InRange(d) && start < end
    ensures Depth(d, m, start, end, start) == d.depthOpen(m)
    ensures forall j, k :: start <= j < k < end ==> Depth(d, m, start, end, j) < Depth(d, m, start, end, k)
    ensures end - start > 1 ==> Depth(d, m, start, end, end - 1) == d.depthClose(m)
    ensures forall j :: start <= j < end ==> 30.0 <= Depth(d, m, start, end, j) <= 700.0
  {
    hide Ramp;
    var open, close, steps := d.depthOpen(m), d.depthClose(m), StepsOf(start, end);
    RampEnds(open, close, steps);
    forall j, k | start <= j < k < end ensures Depth(d, m, start, end, j) < Depth(d, m, start, end, k) {
      RampRises(open, close, j - start, k - start, steps);
    }
    forall j | start <= j < end ensures 30.0 <= Depth(d, m, start, end, j) <= 700.0 {
      if j > start { RampRises(open, close, 0, j - start, steps); }
      if j - start < steps { RampRises(open, close, j - start, steps, steps); }
    }
  }

  lemma RampEnds(open: real, close: real, steps: nat)
    requires steps > 0
    ensures Ramp(open, close, 0, steps) == open && Ramp(open, close, steps, steps) == close
  {
  }

  lemma RampRises(open: real, close: real, j: nat, k: nat, steps: nat)
    requires open < close && j < k && steps > 0
    ensures Ramp(open, close, j, steps) < Ramp(open, close, k, steps)
  {
    assert j as real / steps as real < k as real / steps as real;
    StrictScale(j as real / steps as real, k as real / steps as real, close - open);
  }

  /** The three-to-nine-tick matches partition the stream: every tick lies in exactly one of them. */
  lemma {:induction false} EveryTickInOneMatch(boundaries: seq<nat>, n: nat, j: nat)
    requires CutsStream(boundaries, n) && j < n
    ensures exists m :: 0 <= m < |boundaries| && InMatch(boundaries, n, m, j)
    ensures forall m, k :: 0 <= m < |boundaries| && 0 <= k < |boundaries| && InMatch(boundaries, n, m, j) && InMatch(boundaries, n, k, j) ==> m == k
  {
    FindMatch(boundaries, n, j, 0);
    forall m, k | 0 <= m < |boundaries| && 0 <= k < |boundaries| && InMatch(boundaries, n, m, j) && InMatch(boundaries, n, k, j)
      ensures m == k
    {
      if m < k { BoundariesRise(boundaries, n, m, k); }
      if k < m { BoundariesRise(boundaries, n, k, m); }
    }
  }

  ghost predicate InMatch(boundaries: seq<nat>, n: nat, m: nat, j: nat)
    requires m < |boundaries|
  {
    boundaries[m] <= j < EndOf(boundaries, m, n)
  }

  lemma {:induction false} FindMatch(boundaries: seq<nat>, n: nat, j: nat, m: nat)
    requires CutsStream(boundaries, n) && j < n && m < |boundaries| && boundaries[m] <= j
    ensures exists k :: 0 <= k < |boundaries| && InMatch(boundaries, n, k, j)
    decreases |boundaries| - m
  {
    if m + 1 < |boundaries| && boundaries[m + 1] <= j {
      FindMatch(boundaries, n, j, m + 1);
    } else {
      assert InMatch(boundaries, n, m, j);
    }
  }

  lemma {:induction false} BoundariesRise(boundaries: seq<nat>, n: nat, m: nat, k: nat)
    requires CutsStream(boundaries, n) && m < k < |boundaries|
    ensures EndOf(boundaries, m, n) <= boundaries[k]
    decreases k
  {
    if m + 1 < k {
      BoundariesRise(boundaries, n, m, k - 1);
    }
  }

  /**
   What the simulator relies on: whatever is drawn, every tick of the stream has been written,
   with a price inside the clipping bounds and a depth inside the union of the two anchor bands.
   */
  lemma StreamStaysInBounds(d: Draws, boundaries: seq<nat>, n: nat, prices: seq<real>, depths: seq<real>)
    requires InRange(d) && CutsStream(boundaries, n) && |prices| == |depths| == n
    requires AllWritten(d, boundaries, n, prices, depths)
    ensures forall j :: 0 <= j < n ==> PRICE_FLOOR <= prices[j] <= PRICE_CEIL && 30.0 <= depths[j] <= 700.0
  {
    hide Depth, NextPrice;
    forall j | 0 <= j < n ensures PRICE_FLOOR <= prices[j] <= PRICE_CEIL && 30.0 <= depths[j] <= 700.0 {
      EveryTickInOneMatch(boundaries, n, j);
      var m :| 0 <= m < |boundaries| && InMatch(boundaries, n, m, j);
      var start, end := boundaries[m], EndOf(boundaries, m, n);
      assert MatchWritten(d, m, start, end, prices, depths);
      PriceIsClipped(d, m, start, j);
      DepthRisesToClose(d, m, start, end);
    }
  }

  lemma PriceIsClipped(d: Draws, m: nat, start: nat, j: nat)
    requires start <= j
    ensures PRICE_FLOOR <= Price(d, m, start, j) <= PRICE_CEIL
  {
    var base := ClipPrice(d.baseline(m));
    assert Price(d, m, start, j) == NextPrice(PriceBefore(d, m, start, j), base, d.shock(j));
  }

  /**
   The walk is pulled back to the match's baseline: without a shock each tick leaves 85
   percent of the distance to it, and a larger shock never gives a lower price.
   */
  lemma PricesRevert(p: real, base: real, shock: real, more: real)
    requires PRICE_FLOOR <= p <= PRICE_CEIL && PRICE_FLOOR <= base <= PRICE_CEIL && shock <= more
    ensures NextPrice(p, base, 0.0) - base == 0.85 * (p - base)
    ensures NextPrice(p, base, shock) <= NextPrice(p, base, more)
    ensures PRICE_FLOOR <= p + shock <= PRICE_CEIL && p == base ==> NextPrice(p, base, shock) == p + shock
  {
  }

  /** Inside the bounds the walk is linear: the first tick starts from the baseline, each later one from the price before. */
  lemma WalkInNumbers(d: Draws, m: nat, start: nat, j: nat)
    requires start <= j && PRICE_FLOOR <= d.baseline(m) <= PRICE_CEIL
    ensures var base := d.baseline(m);
      var from := if j == start then base else Price(d, m, start, j - 1);
      var next := 0.85 * from + 0.15 * base + d.shock(j);
      PRICE_FLOOR <= next <= PRICE_CEIL ==> Price(d, m, start, j) == next
  {
    var base := d.baseline(m);
    assert ClipPrice(base) == base;
    var from := PriceBefore(d, m, start, j);
    assert from == if j == start then base else Price(d, m, start, j - 1);
    assert Price(d, m, start, j) == NextPrice(from, base, d.shock(j));
    hide PriceBefore, Price;
  }

  /** Every tick of a match adds the same depth. */
  lemma DepthStepsAreEqual(d: Draws, m: nat, start: nat, end: nat, j: nat)
    requires start <= j && j + 2 < end
    ensures Depth(d, m, start, end, j + 2) - Depth(d, m, start, end, j + 1)
         == Depth(d, m, start, end, j + 1) - Depth(d, m, start, end, j)
  {
    var width, steps, k := d.depthClose(m) - d.depthOpen(m), StepsOf(start, end) as real, (j - start) as real;
    EqualSteps(width, steps, k);
  }

  lemma EqualSteps(width: real, steps: real, k: real)
    requires steps > 0.0
    ensures width * ((k + 2.0) / steps) - width * ((k + 1.0) / steps) == width * ((k + 1.0) / steps) - width * (k / steps)
  {
    var one := 1.0 / steps;
    assert k / steps == k * one && (k + 1.0) / steps == k * one + one && (k + 2.0) / steps == k * one + 2.0 * one;
  }
}
