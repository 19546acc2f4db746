/** Order-book walks: the marketable order price (`getMarketOrderPrice`) and the expected average fill
    price (`getExpectedFillPrice`) of src/utils/markets.tsx. Prices and sizes are exact reals; the
    SDK's order book is a value holding its side, the market's tick size and its price levels. */
module OrderPricing {
  import opened Wrappers

  /** One L2 level: a price and the total size resting at it. */
  datatype Level = Level(price: real, size: real)

  /** An order-book side, best level first. */
  datatype Orderbook = Orderbook(isBids: bool, tickSize: real, levels: seq<Level>)

  /** The depth both walks ask for. */
  const L2Depth: nat := 1000

  /** `orderbook.getL2(depth)`: the best `depth` levels, or all of them when there are fewer. */
  function GetL2(book: Orderbook, depth: nat): (r: seq<Level>)
    ensures |r| == if |book.levels| < depth then |book.levels| else depth
    ensures r == book.levels[..|r|]
  {
    if |book.levels| <= depth then book.levels else book.levels[..depth]
  }

  /** Both walks read the book through `getL2(1000)`: a book of at most 1000 levels is walked whole,
      and levels below the 1000th never change what either walk sees. */
  lemma DeepLevelsIgnored(book: Orderbook, deeper: seq<Level>)
    ensures |book.levels| <= L2Depth ==> GetL2(book, L2Depth) == book.levels
    ensures |book.levels| >= L2Depth ==>
              GetL2(book.(levels := book.levels + deeper), L2Depth) == GetL2(book, L2Depth)
  {
    if |book.levels| >= L2Depth {
      assert (book.levels + deeper)[..L2Depth] == book.levels[..L2Depth];
    }
  }

  /** The failures of the source made explicit: reading `asks[0][0]` of an empty ask list throws,
      and dividing by a zero `Math.min(cost, spentCost)` yields NaN or an infinity. */
  datatype PricingError = EmptyAskBook | ZeroDivisor

  function Min(a: real, b: real): real {
    if a <= b then a else b
  }

  /** `(isBids ? 1 : price) * sizeAtLevel`: what taking a level costs, its size on the bid side,
      price times size on the ask side. */
  function LevelCost(isBids: bool, l: Level): real {
    (if isBids then 1.0 else l.price) * l.size
  }

  /** `amount * price`: what spending `amount` at `price` adds to the weighted price sum. */
  function PriceWeighted(amount: real, price: real): real {
    amount * price
  }

  /** The cost of taking the first `j` levels. */
  function CostUpTo(isBids: bool, levels: seq<Level>, j: nat): real
    requires j <= |levels|
  {
    if j == 0 then 0.0 else CostUpTo(isBids, levels, j - 1) + LevelCost(isBids, levels[j - 1])
  }

  /** The weighted price sum of taking the first `j` levels whole. */
  function WeightUpTo(isBids: bool, levels: seq<Level>, j: nat): real
    requires j <= |levels|
  {
    if j == 0 then 0.0
    else WeightUpTo(isBids, levels, j - 1) + PriceWeighted(LevelCost(isBids, levels[j - 1]), levels[j - 1].price)
  }

  lemma UpToStep(isBids: bool, levels: seq<Level>, i: nat)
    requires i < |levels|
    ensures CostUpTo(isBids, levels, i + 1) == CostUpTo(isBids, levels, i) + LevelCost(isBids, levels[i])
    ensures WeightUpTo(isBids, levels, i + 1)
         == WeightUpTo(isBids, levels, i) + PriceWeighted(LevelCost(isBids, levels[i]), levels[i].price)
  {
  }

  /** The search for the crossing level from position `from` on. */
  function CrossingFrom(isBids: bool, levels: seq<Level>, cost: real, from: nat): (k: nat)
    requires from <= |levels|
    requires forall j :: 0 < j <= from ==> CostUpTo(isBids, levels, j) <= cost
    ensures from <= k <= |levels|
    ensures forall j :: 0 < j <= k ==> CostUpTo(isBids, levels, j) <= cost
    ensures k < |levels| ==> CostUpTo(isBids, levels, k + 1) > cost
    decreases |levels| - from
  {
    if from == |levels| then from
    else if CostUpTo(isBids, levels, from + 1) > cost then from
    else CrossingFrom(isBids, levels, cost, from + 1)
  }

  /** Where both walks stop: the first level whose taking would bring the cost above `cost`, or
      `|levels|` when every prefix fits. */
  function FirstCrossing(isBids: bool, levels: seq<Level>, cost: real): (k: nat)
    ensures k <= |levels|
    ensures forall j :: 0 < j <= k ==> CostUpTo(isBids, levels, j) <= cost
    ensures k < |levels| ==> CostUpTo(isBids, levels, k + 1) > cost
  {
    CrossingFrom(isBids, levels, cost, 0)
  }

  /** The two properties of `FirstCrossing` determine it. */
  lemma CrossingUnique(isBids: bool, levels: seq<Level>, cost: real, k: nat)
    requires k <= |levels|
    requires forall j :: 0 < j <= k ==> CostUpTo(isBids, levels, j) <= cost
    requires k < |levels| ==> CostUpTo(isBids, levels, k + 1) > cost
    ensures FirstCrossing(isBids, levels, cost) == k
  {
  }

  /** Once the walk has passed `i` levels without crossing, level `i` is the crossing one exactly
      when taking it exceeds the target. */
  lemma CrossingBound(isBids: bool, levels: seq<Level>, cost: real, i: nat)
    requires i < |levels| && i <= FirstCrossing(isBids, levels, cost)
    ensures FirstCrossing(isBids, levels, cost) == i <==> CostUpTo(isBids, levels, i + 1) > cost
  {
  }

  /** `if (tickSizeDecimals) floorToDecimal(x, tickSizeDecimals) else x`; `floorToDecimal` lives
      outside this model and is a parameter. */
  function Formatted(x: real, tickSizeDecimals: Option<int>, floorToDecimal: (real, int) -> real): real {
    if tickSizeDecimals.Some? && tickSizeDecimals.value != 0 then floorToDecimal(x, tickSizeDecimals.value) else x
  }

  /** The price the ask walk ends on: the crossing level's, or the last level's when none crosses. */
  function StopPrice(asks: seq<Level>, cost: real): real
    requires |asks| > 0
  {
    var k := FirstCrossing(false, asks, cost);
    if k < |asks| then asks[k].price else asks[|asks| - 1].price
  }

  /** `Math.min(price * 1.02, asks[0][0] * 1.05)`: the stop price plus 2% slippage, capped at 5% above
      the best ask. */
  function SendPrice(asks: seq<Level>, cost: real): real
    requires |asks| > 0
  {
    Min(StopPrice(asks, cost) * 1.02, asks[0].price * 1.05)
  }

  /** `getMarketOrderPrice`: the tick size for a bid book; for an ask book the send price of the
      walk, rounded down when `tickSizeDecimals` is set and nonzero; an error for an empty ask book. */
  method GetMarketOrderPrice(orderbook: Orderbook, cost: real, tickSizeDecimals: Option<int>,
                             floorToDecimal: (real, int) -> real)
    returns (r: Result<real, PricingError>)
    ensures orderbook.isBids ==> r == Success(orderbook.tickSize)
    ensures !orderbook.isBids && |GetL2(orderbook, L2Depth)| == 0 ==> r == Failure(EmptyAskBook)
    ensures !orderbook.isBids && |GetL2(orderbook, L2Depth)| > 0 ==>
              r == Success(Formatted(SendPrice(GetL2(orderbook, L2Depth), cost), tickSizeDecimals, floorToDecimal))
  {
    if orderbook.isBids {
      return Success(orderbook.tickSize);
    }
    var spentCost := 0.0;
    var price := 0.0;
    var asks := GetL2(orderbook, L2Depth);
    var i := 0;
    while i < |asks|
      invariant i <= |asks|
      invariant spentCost == CostUpTo(false, asks, i)
      invariant i <= FirstCrossing(false, asks, cost)
      invariant 0 < i ==> price == asks[i - 1].price
    {
      price := asks[i].price;
      // price * sizeAtLevel
      var costAtLevel := LevelCost(false, asks[i]);
      UpToStep(false, asks, i);
      CrossingBound(false, asks, cost, i);
      if spentCost + costAtLevel > cost {
        break;
      }
      spentCost := spentCost + costAtLevel;
      i := i + 1;
    }
    if |asks| == 0 {
      return Failure(EmptyAskBook);
    }
    var sendPrice := Min(price * 1.02, asks[0].price * 1.05);
    var formattedPrice;
    if tickSizeDecimals.Some? && tickSizeDecimals.value != 0 {
      formattedPrice := floorToDecimal(sendPrice, tickSizeDecimals.value);
    } else {
      formattedPrice := sendPrice;
    }
    return Success(formattedPrice);
  }

  /** Before rounding, the price sent is the smaller of the stop price plus 2% and the best ask plus
      5%, so it never exceeds either. */
  lemma SendPriceBounds(asks: seq<Level>, cost: real)
    requires |asks| > 0
    ensures SendPrice(asks, cost) <= asks[0].price * 1.05
    ensures SendPrice(asks, cost) <= StopPrice(asks, cost) * 1.02
    ensures SendPrice(asks, cost) == StopPrice(asks, cost) * 1.02 || SendPrice(asks, cost) == asks[0].price * 1.05
  {
  }

  /** Asks (10, 5), (11, 5), (12, 100) with cost 60: the first level costs 50 and fits, the second
      would bring the cost to 105, so the walk stops at price 11, and the 5% cap (10.5) is below
      11 * 1.02. */
  lemma MarketOrderExample()
    ensures var asks := [Level(10.0, 5.0), Level(11.0, 5.0), Level(12.0, 100.0)];
            FirstCrossing(false, asks, 60.0) == 1 && StopPrice(asks, 60.0) == 11.0 && SendPrice(asks, 60.0) == 10.5
  {
    var asks := [Level(10.0, 5.0), Level(11.0, 5.0), Level(12.0, 100.0)];
    assert CostUpTo(false, asks, 1) == 50.0;
    assert CostUpTo(false, asks, 2) == 105.0;
    CrossingUnique(false, asks, 60.0, 1);
  }

  /** The weighted price sum and the cost spent when the fill walk ends. */
  datatype Fill = Fill(weighted: real, spent: real)

  /** The walk of `getExpectedFillPrice`: every level before the crossing one is taken whole; of the
      crossing level only the remainder `cost - spentCost` is weighted, and the spent cost becomes
      `cost`. */
  function FillTotals(isBids: bool, levels: seq<Level>, cost: real): Fill {
    var k := FirstCrossing(isBids, levels, cost);
    if k < |levels| then
      Fill(WeightUpTo(isBids, levels, k) + PriceWeighted(cost - CostUpTo(isBids, levels, k), levels[k].price), cost)
    else
      Fill(WeightUpTo(isBids, levels, |levels|), CostUpTo(isBids, levels, |levels|))
  }

  lemma FillTotalsCrossing(isBids: bool, levels: seq<Level>, cost: real)
    requires FirstCrossing(isBids, levels, cost) < |levels|
    ensures var k := FirstCrossing(isBids, levels, cost);
            FillTotals(isBids, levels, cost)
            == Fill(WeightUpTo(isBids, levels, k) + PriceWeighted(cost - CostUpTo(isBids, levels, k), levels[k].price), cost)
  {
  }

  lemma FillTotalsWhole(isBids: bool, levels: seq<Level>, cost: real)
    requires FirstCrossing(isBids, levels, cost) == |levels|
    ensures FillTotals(isBids, levels, cost) == Fill(WeightUpTo(isBids, levels, |levels|), CostUpTo(isBids, levels, |levels|))
  {
  }

  /** `avgPrice / Math.min(cost, spentCost)`, then rounded; a zero divisor is an error. */
  function AveragePrice(f: Fill, cost: real, tickSizeDecimals: Option<int>, floorToDecimal: (real, int) -> real): Result<real, PricingError> {
    var divisor := Min(cost, f.spent);
    if divisor == 0.0 then Failure(ZeroDivisor)
    else Success(Formatted(f.weighted / divisor, tickSizeDecimals, floorToDecimal))
  }

  /** `getExpectedFillPrice`. */
  method GetExpectedFillPrice(orderbook: Orderbook, cost: real, tickSizeDecimals: Option<int>,
                              floorToDecimal: (real, int) -> real)
    returns (r: Result<real, PricingError>)
    ensures r == AveragePrice(FillTotals(orderbook.isBids, GetL2(orderbook, L2Depth), cost), cost, tickSizeDecimals, floorToDecimal)
  {
    var spentCost := 0.0;
    var avgPrice := 0.0;
    var levels := GetL2(orderbook, L2Depth);
    var isBids := orderbook.isBids;
    var i := 0;
    while i < |levels|
      invariant i <= |levels|
      invariant spentCost == CostUpTo(isBids, levels, i)
      invariant avgPrice == WeightUpTo(isBids, levels, i)
      invariant i <= FirstCrossing(isBids, levels, cost)
    {
      var price := levels[i].price;
      var costAtLevel := LevelCost(isBids, levels[i]);
      UpToStep(isBids, levels, i);
      CrossingBound(isBids, levels, cost, i);
      if spentCost + costAtLevel > cost {
        FillTotalsCrossing(isBids, levels, cost);
        avgPrice := avgPrice + PriceWeighted(cost - spentCost, price);
        spentCost := cost;
        break;
      }
      avgPrice := avgPrice + PriceWeighted(costAtLevel, price);
      spentCost := spentCost + costAtLevel;
      i := i + 1;
    }
    if i == |levels| {
      FillTotalsWhole(isBids, levels, cost);
    }
    var divisor := Min(cost, spentCost);
    if divisor == 0.0 {
      return Failure(ZeroDivisor);
    }
    var totalAvgPrice := avgPrice / divisor;
    var formattedPrice;
    if tickSizeDecimals.Some? && tickSizeDecimals.value != 0 {
      formattedPrice := floorToDecimal(totalAvgPrice, tickSizeDecimals.value);
    } else {
      formattedPrice := totalAvgPrice;
    }
    return Success(formattedPrice);
  }

  /** Point values of the fill walk on the ask book of `MarketOrderExample`: 50 is spent whole at
      price 10 and the remaining 10 at price 11, so the weighted sum is 610 over a divisor of 60. */
  lemma ExpectedFillExample(floorToDecimal: (real, int) -> real)
    ensures var asks := [Level(10.0, 5.0), Level(11.0, 5.0), Level(12.0, 100.0)];
            FillTotals(false, asks, 60.0) == Fill(610.0, 60.0)
            && AveragePrice(FillTotals(false, asks, 60.0), 60.0, None, floorToDecimal) == Success(610.0 / 60.0)
  {
    var asks := [Level(10.0, 5.0), Level(11.0, 5.0), Level(12.0, 100.0)];
    MarketOrderExample();
    FillTotalsCrossing(false, asks, 60.0);
    assert WeightUpTo(false, asks, 1) == 500.0;
  }

  /** Every level of the book has a non-negative price and size. */
  predicate NonNegative(levels: seq<Level>) {
    forall i :: 0 <= i < |levels| ==> 0.0 <= levels[i].price && 0.0 <= levels[i].size
  }

  /** How many levels the fill walk looks at: those before the crossing level and the crossing level
      itself. */
  function Reached(isBids: bool, levels: seq<Level>, cost: real): (n: nat)
    ensures n <= |levels|
  {
    var k := FirstCrossing(isBids, levels, cost);
    if k < |levels| then k + 1 else k
  }

  lemma LevelCostNonNegative(isBids: bool, l: Level)
    requires 0.0 <= l.price && 0.0 <= l.size
    ensures 0.0 <= LevelCost(isBids, l)
  {
  }

  /** On a book without negative entries, taking more levels never costs less. */
  lemma {:induction false} CostMonotone(isBids: bool, levels: seq<Level>, j: nat, m: nat)
    requires NonNegative(levels)
    requires j <= m <= |levels|
    ensures 0.0 <= CostUpTo(isBids, levels, j) <= CostUpTo(isBids, levels, m)
  {
    if m > j {
      CostMonotone(isBids, levels, j, m - 1);
      LevelCostNonNegative(isBids, levels[m - 1]);
    } else if j > 0 {
      CostMonotone(isBids, levels, j - 1, j - 1);
      LevelCostNonNegative(isBids, levels[j - 1]);
    }
  }

  /** The spent cost never exceeds a non-negative target, so `Math.min(cost, spentCost)` is the
      spent cost; it reaches the target whenever the walk stops at a crossing level. */
  lemma FillSpent(isBids: bool, levels: seq<Level>, cost: real)
    requires 0.0 <= cost
    ensures FillTotals(isBids, levels, cost).spent <= cost
    ensures Min(cost, FillTotals(isBids, levels, cost).spent) == FillTotals(isBids, levels, cost).spent
    ensures FirstCrossing(isBids, levels, cost) < |levels| ==> FillTotals(isBids, levels, cost).spent == cost
  {
    var k := FirstCrossing(isBids, levels, cost);
    if k < |levels| {
      FillTotalsCrossing(isBids, levels, cost);
    } else {
      FillTotalsWhole(isBids, levels, cost);
      if k > 0 {
        assert CostUpTo(isBids, levels, k) <= cost;
      }
    }
  }

  /** On a book without negative entries and a non-negative target, the average price is an error
      exactly when the target is zero or the book's levels are worth nothing (an empty book
      included). */
  lemma NothingToDivide(isBids: bool, levels: seq<Level>, cost: real, tickSizeDecimals: Option<int>,
                        floorToDecimal: (real, int) -> real)
    requires NonNegative(levels) && 0.0 <= cost
    ensures AveragePrice(FillTotals(isBids, levels, cost), cost, tickSizeDecimals, floorToDecimal) == Failure(ZeroDivisor)
            <==> cost == 0.0 || CostUpTo(isBids, levels, |levels|) == 0.0
  {
    var n := |levels|;
    var k := FirstCrossing(isBids, levels, cost);
    FillSpent(isBids, levels, cost);
    CostMonotone(isBids, levels, 0, n);
    if k < n {
      FillTotalsCrossing(isBids, levels, cost);
      CostMonotone(isBids, levels, k + 1, n);
    } else {
      FillTotalsWhole(isBids, levels, cost);
    }
  }

  /** The weight `w` of cost `c` averages a price in `[lo, hi]`. */
  predicate Between(lo: real, hi: real, c: real, w: real) {
    lo * c <= w <= hi * c
  }

  lemma MulNonNegative(x: real, y: real)
    requires 0.0 <= x && 0.0 <= y
    ensures 0.0 <= x * y
  {
  }

  /** A non-negative amount spent at a price in `[lo, hi]`. */
  lemma WeightedBounds(a: real, p: real, lo: real, hi: real)
    requires 0.0 <= a && lo <= p <= hi
    ensures Between(lo, hi, a, PriceWeighted(a, p))
  {
    MulNonNegative(a, p - lo);
    MulNonNegative(a, hi - p);
  }

  /** Such bounds add up. */
  lemma SumBounds(c0: real, w0: real, c: real, w: real, ct: real, wt: real, lo: real, hi: real)
    requires Between(lo, hi, c0, w0) && Between(lo, hi, c, w)
    requires ct == c0 + c && wt == w0 + w
    ensures Between(lo, hi, ct, wt)
  {
    assert lo * ct == lo * c0 + lo * c;
    assert hi * ct == hi * c0 + hi * c;
  }

  /** `lo <= w / d <= hi` from the bounds on `w` and a positive `d`. */
  lemma DivBounds(w: real, d: real, lo: real, hi: real)
    requires 0.0 < d && Between(lo, hi, d, w)
    ensures lo <= w / d <= hi
  {
    var q := w / d;
    assert q * d == w;
    assert (q - lo) * d >= 0.0;
    assert (hi - q) * d >= 0.0;
  }

  /** Levels whose prices lie in `[lo, hi]`, taken whole, give a weighted sum between `lo` and `hi`
      times their cost. */
  lemma {:induction false} WeightBounds(isBids: bool, levels: seq<Level>, j: nat, lo: real, hi: real)
    requires j <= |levels|
    requires forall i :: 0 <= i < j ==> lo <= levels[i].price <= hi && 0.0 <= LevelCost(isBids, levels[i])
    ensures Between(lo, hi, CostUpTo(isBids, levels, j), WeightUpTo(isBids, levels, j))
  {
    if j > 0 {
      WeightBounds(isBids, levels, j - 1, lo, hi);
      var l := levels[j - 1];
      WeightedBounds(LevelCost(isBids, l), l.price, lo, hi);
      SumBounds(CostUpTo(isBids, levels, j - 1), WeightUpTo(isBids, levels, j - 1),
                LevelCost(isBids, l), PriceWeighted(LevelCost(isBids, l), l.price),
                CostUpTo(isBids, levels, j), WeightUpTo(isBids, levels, j), lo, hi);
    }
  }

  /** Positive levels cost something. */
  lemma {:induction false} CostPositive(isBids: bool, levels: seq<Level>, j: nat)
    requires 0 < j <= |levels|
    requires forall i :: 0 <= i < j ==> 0.0 < levels[i].price && 0.0 < levels[i].size
    ensures 0.0 < CostUpTo(isBids, levels, j)
  {
    assert 0.0 < LevelCost(isBids, levels[j - 1]);
    if j > 1 {
      CostPositive(isBids, levels, j - 1);
    }
  }

  /** The expected fill price is an average of the prices the walk reaches: on a non-empty book of
      positive levels and a positive target, when every reached level's price lies in `[lo, hi]`,
      the divisor is positive and the quotient lies in `[lo, hi]`. */
  lemma FillWithinReachedPrices(isBids: bool, levels: seq<Level>, cost: real, lo: real, hi: real)
    requires 0.0 < cost && 0.0 < lo && 0 < |levels|
    requires forall i :: 0 <= i < Reached(isBids, levels, cost) ==> lo <= levels[i].price <= hi && 0.0 < levels[i].size
    ensures var f := FillTotals(isBids, levels, cost);
            0.0 < Min(cost, f.spent) && lo <= f.weighted / Min(cost, f.spent) <= hi
  {
    var k := FirstCrossing(isBids, levels, cost);
    var n := |levels|;
    var f := FillTotals(isBids, levels, cost);
    FillSpent(isBids, levels, cost);
    assert forall i :: 0 <= i < k ==> 0.0 <= LevelCost(isBids, levels[i]) by {
      forall i | 0 <= i < k {
        LevelCostNonNegative(isBids, levels[i]);
      }
    }
    WeightBounds(isBids, levels, k, lo, hi);
    if k < n {
      FillTotalsCrossing(isBids, levels, cost);
      var c0 := CostUpTo(isBids, levels, k);
      assert c0 <= cost by {
        if k > 0 {
          assert CostUpTo(isBids, levels, k) <= cost;
        }
      }
      var pw := PriceWeighted(cost - c0, levels[k].price);
      WeightedBounds(cost - c0, levels[k].price, lo, hi);
      SumBounds(c0, WeightUpTo(isBids, levels, k), cost - c0, pw, cost, f.weighted, lo, hi);
      DivBounds(f.weighted, cost, lo, hi);
    } else {
      FillTotalsWhole(isBids, levels, cost);
      CostPositive(isBids, levels, n);
      DivBounds(f.weighted, f.spent, lo, hi);
    }
  }
}
