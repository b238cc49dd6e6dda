/**
 `PositionExposure`: an as-of join of positions with prices by two pointers.
 The price pointer never goes back, and yet every position is joined with the price that a
 separate search for its own time would find.
 */
module PositionExposure {
  import opened Sorting
  import opened Aggregation

  datatype FinancialMetric = FinancialMetric(value: real, timestamp: int, symbol: string, position: real, price: real)

  /** The naive search: the last sorted price at or before `t`, or the first price when there is none. */
  function PriceAsOf(prices: PriceTimeline, t: int): (i: nat)
    requires prices != []
    ensures i < |prices|
    ensures prices[i].timestamp <= t || i == 0
    ensures SortedBy(PriceTime, prices) ==> forall j :: i < j < |prices| ==> t < prices[j].timestamp
  {
    if |prices| == 1 then 0
    else if prices[|prices| - 1].timestamp <= t then |prices| - 1
    else
      assert SortedBy(PriceTime, prices) ==> SortedBy(PriceTime, prices[..|prices| - 1]);
      PriceAsOf(prices[..|prices| - 1], t)
  }

  function Joined(prices: PriceTimeline, p: NumericValue): FinancialMetric
    requires prices != []
  {
    var price := prices[PriceAsOf(prices, p.timestamp)].value;
    FinancialMetric(p.value * price, p.timestamp, p.symbol, p.value, price)
  }

  /** One result per position, each from its own search. */
  function JoinAll(positions: PriceTimeline, prices: PriceTimeline): seq<FinancialMetric>
    requires prices != []
  {
    seq(|positions|, i requires 0 <= i < |positions| => Joined(prices, positions[i]))
  }

  /** The metric is that of the position at the price as of its time: the last of the sorted prices that is
      not later, or the first price. */
  ghost predicate PricedAsOf(m: FinancialMetric, p: NumericValue, prices: PriceTimeline) {
    && m.position == p.value && m.timestamp == p.timestamp && m.symbol == p.symbol
    && m.value == p.value * m.price
    && exists i :: 0 <= i < |prices| && m.price == prices[i].value
                   && (prices[i].timestamp <= p.timestamp || i == 0)
                   && forall j :: i < j < |prices| ==> p.timestamp < prices[j].timestamp
  }

  lemma JoinedAsOf(prices: PriceTimeline, p: NumericValue)
    requires prices != [] && SortedBy(PriceTime, prices)
    ensures PricedAsOf(Joined(prices, p), p, prices)
  {
    var i := PriceAsOf(prices, p.timestamp);
    assert Joined(prices, p).price == prices[i].value;
  }

  lemma JoinStep(positions: PriceTimeline, n: nat, prices: PriceTimeline)
    requires n < |positions| && prices != []
    ensures JoinAll(positions[..n + 1], prices) == JoinAll(positions[..n], prices) + [Joined(prices, positions[n])]
  {
  }

  lemma AsOfUnique(prices: PriceTimeline, t: int, i: nat)
    requires prices != [] && SortedBy(PriceTime, prices) && i < |prices|
    requires prices[i].timestamp <= t || i == 0
    requires i + 1 < |prices| ==> t < prices[i + 1].timestamp
    ensures i == PriceAsOf(prices, t)
  {
    var j := PriceAsOf(prices, t);
    assert i + 1 < |prices| ==> forall k :: i + 1 < k < |prices| ==> PriceTime(prices[i + 1]) <= PriceTime(prices[k]);
  }

  /** The inner loop moves the pointer on to the price that a search from scratch would find. */
  method AdvancePrice(sortedPrices: PriceTimeline, from: nat, t: int) returns (priceIndex: nat)
    requires SortedBy(PriceTime, sortedPrices) && from < |sortedPrices|
    requires from == 0 || sortedPrices[from].timestamp <= t
    ensures sortedPrices != [] && priceIndex == PriceAsOf(sortedPrices, t)
  {
    priceIndex := from;
    while priceIndex < |sortedPrices| - 1
          && (sortedPrices[priceIndex + 1].timestamp < t || sortedPrices[priceIndex + 1].timestamp == t)
      invariant priceIndex < |sortedPrices|
      invariant priceIndex == 0 || sortedPrices[priceIndex].timestamp <= t
    {
      priceIndex := priceIndex + 1;
    }
    AsOfUnique(sortedPrices, t, priceIndex);
  }

  /** The two-pointer loop computes the naive join of the sorted inputs. */
  method Exposure(ps: PriceSort, positions: PriceTimeline, prices: PriceTimeline)
    returns (results: seq<FinancialMetric>)
    ensures positions == [] || prices == [] ==> results == []
    ensures positions != [] && prices != [] ==>
              ps(prices) != [] && results == JoinAll(ps(positions), ps(prices)) && |results| == |positions|
    ensures positions != [] && prices != [] ==>
              |results| == |ps(positions)|
              && forall n :: 0 <= n < |results| ==> PricedAsOf(results[n], ps(positions)[n], ps(prices))
  {
    if |positions| == 0 || |prices| == 0 {
      return [];
    }
    SortedPrices(ps, positions);
    SortedPrices(ps, prices);
    results := JoinSorted(ps(positions), ps(prices));
  }

  /** The loop over the positions; `priceIndex` never goes back. */
  method JoinSorted(sortedPositions: PriceTimeline, sortedPrices: PriceTimeline) returns (results: seq<FinancialMetric>)
    requires SortedBy(PriceTime, sortedPositions) && SortedBy(PriceTime, sortedPrices) && sortedPrices != []
    ensures results == JoinAll(sortedPositions, sortedPrices)
    ensures forall n :: 0 <= n < |results| ==> PricedAsOf(results[n], sortedPositions[n], sortedPrices)
  {
    results := [];
    var currentPosition := 0.0;
    var priceIndex := 0;
    for n := 0 to |sortedPositions|
      invariant 0 <= priceIndex < |sortedPrices|
      invariant priceIndex == 0 || (n > 0 && sortedPrices[priceIndex].timestamp <= sortedPositions[n - 1].timestamp)
      invariant results == JoinAll(sortedPositions[..n], sortedPrices)
    {
      var positionUpdate := sortedPositions[n];
      assert n > 0 ==> PriceTime(sortedPositions[n - 1]) <= PriceTime(sortedPositions[n]);
      currentPosition := positionUpdate.value;
      priceIndex := AdvancePrice(sortedPrices, priceIndex, positionUpdate.timestamp);
      if priceIndex < |sortedPrices| {
        var currentPrice := sortedPrices[priceIndex].value;
        var exposure := currentPosition * currentPrice;
        JoinStep(sortedPositions, n, sortedPrices);
        var metric := FinancialMetric(exposure, positionUpdate.timestamp, positionUpdate.symbol, currentPosition,
                                      currentPrice);
        assert metric == Joined(sortedPrices, positionUpdate);
        results := results + [metric];
      }
    }
    assert sortedPositions[..|sortedPositions|] == sortedPositions;
    forall n | 0 <= n < |results|
      ensures PricedAsOf(results[n], sortedPositions[n], sortedPrices)
    {
      JoinedAsOf(sortedPrices, sortedPositions[n]);
    }
  }

  lemma SortedPrices(ps: PriceSort, tl: PriceTimeline)
    ensures SortedBy(PriceTime, ps(tl)) && |ps(tl)| == |tl|
  {
    assert IsSortOf(PriceTime, tl, ps(tl));
    PermutationFacts(tl, ps(tl));
  }
}
