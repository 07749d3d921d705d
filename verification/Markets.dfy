/**
 The records that the backtest cores pass around. Prices, money and probabilities
 are exact reals; a timestamp is a whole number of seconds.
 */
module Markets {

  datatype Option<+T> = None | Some(value: T)

  datatype Result<+T> = Ok(value: T) | Err(reason: string)

  datatype PricePoint = PricePoint(ts: int, price: real)

  datatype Snapshot = Snapshot(
    marketId: string,
    slug: string,
    endTs: int,
    resolutionTs: Option<int>,
    outcome: Option<string>,
    winningPrice: Option<real>,
    liquidityCap: real,
    ledger: seq<PricePoint>)

  /** One cached market: what the scorer reads. */
  datatype SignalRow = SignalRow(
    marketId: string,
    slug: string,
    scores: map<string, real>,
    confidences: map<string, real>,
    entryPrice: real,
    outcome: string,
    winningPrice: real,
    liquidityCap: real,
    crossMarketSignal: real,
    clusterKey: string)

  /** A signal row joined with its schedule and settlement facts. */
  datatype SurvivalRow = SurvivalRow(
    marketId: string,
    signal: SignalRow,
    entryTs: int,
    resolutionTs: Option<int>,
    endTs: int)

  /** `{s.market_id: s for s in snapshots}[id]`: a later snapshot replaces an earlier one. */
  function Lookup(snapshots: seq<Snapshot>, id: string): (r: Option<Snapshot>)
    ensures r.None? <==> forall s :: s in snapshots ==> s.marketId != id
    ensures r.Some? ==> r.value in snapshots && r.value.marketId == id
  {
    if snapshots == [] then None
    else
      var front, last := snapshots[..|snapshots| - 1], snapshots[|snapshots| - 1];
      assert snapshots == front + [last];
      if last.marketId == id then Some(last) else Lookup(front, id)
  }

  lemma LookupPush(snapshots: seq<Snapshot>, s: Snapshot, id: string)
    ensures Lookup(snapshots + [s], id) == if s.marketId == id then Some(s) else Lookup(snapshots, id)
  {
    assert (snapshots + [s])[..|snapshots|] == snapshots;
  }

  /** Python's order on strings. */
  predicate StringLe(a: string, b: string) {
    if a == [] then true
    else if b == [] then false
    else if a[0] == b[0] then StringLe(a[1..], b[1..])
    else a[0] < b[0]
  }

  lemma {:induction false} StringLeTotal(a: string, b: string)
    ensures StringLe(a, b) || StringLe(b, a)
    ensures StringLe(a, b) && StringLe(b, a) ==> a == b
  {
    if a != [] && b != [] && a[0] == b[0] {
      StringLeTotal(a[1..], b[1..]);
      assert a == [a[0]] + a[1..] && b == [b[0]] + b[1..];
    }
  }

  lemma {:induction false} StringLeTransitive(a: string, b: string, c: string)
    requires StringLe(a, b) && StringLe(b, c)
    ensures StringLe(a, c)
  {
    if a != [] && b != [] && c != [] && a[0] == b[0] == c[0] {
      StringLeTransitive(a[1..], b[1..], c[1..]);
    }
  }
}
