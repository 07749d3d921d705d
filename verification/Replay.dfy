/** The replayed price stream (sim/market.py): a cursor over read-only arrays. */
module Replay {
  import opened Markets

  datatype MarketTick = MarketTick(tick: nat, price: real, depth: real)

  class MarketReplay {
    const prices: seq<real>
    const depths: seq<real>
    var cursor: int

    ghost predicate Valid()
      reads this
    {
      |prices| == |depths| && |prices| > 0 && -1 <= cursor < |prices|
    }

    constructor (prices: seq<real>, depths: seq<real>)
      requires |prices| == |depths| && |prices| > 0
      ensures Valid() && this.prices == prices && this.depths == depths && cursor == -1
    {
      this.prices, this.depths, cursor := prices, depths, -1;
    }

    static method FromArrays(prices: seq<real>, depths: seq<real>) returns (r: Result<MarketReplay>)
      ensures r.Ok? <==> |prices| == |depths| && |prices| > 0
      ensures r.Ok? ==> fresh(r.value) && r.value.Valid() && r.value.prices == prices && r.value.depths == depths && r.value.cursor == -1
    {
      if |prices| != |depths| {
        return Err("shape mismatch");
      }
      if |prices| == 0 {
        return Err("at least one tick");
      }
      var m := new MarketReplay(prices, depths);
      return Ok(m);
    }

    /** Hands out the next tick, or refuses at the end of the stream and stays there. */
    method Step() returns (r: Result<MarketTick>)
      requires Valid()
      modifies this
      ensures Valid()
      ensures r.Ok? <==> old(cursor) + 1 < |prices|
      ensures cursor == if r.Ok? then old(cursor) + 1 else old(cursor)
      ensures r.Ok? ==> r.value == MarketTick(cursor, prices[cursor], depths[cursor])
    {
      if cursor >= |prices| - 1 {
        return Err("exhausted");
      }
      cursor := cursor + 1;
      return Ok(MarketTick(cursor, prices[cursor], depths[cursor]));
    }

    /** Historical lookup: it succeeds exactly on what has been handed out already. */
    method TickAt(index: int) returns (r: Result<MarketTick>)
      requires Valid()
      ensures r.Ok? <==> 0 <= index <= cursor
      ensures r.Ok? ==> r.value == MarketTick(index, prices[index], depths[index])
    {
      if index < 0 {
        return Err("index must be non-negative");
      }
      if index > cursor {
        return Err("would peek past the cursor");
      }
      return Ok(MarketTick(index, prices[index], depths[index]));
    }
  }
}
