/** The TradingView symbol lookup of src/utils/tradingview.tsx. */
module TradingView {
  import opened Wrappers
  import opened Keys
  import opened Seqs
  import opened Registry

  /** The symbol returned when no lookup decides otherwise. */
  const DefaultTVMarket: string := "SDOGE/USDC"

  /** The entry's address, in base58, is the given text. */
  predicate HasAddress(marketAddressString: string, market: MarketInfo) {
    market.address.base58 == marketAddressString
  }

  /** What the `forEach` callback returns for one entry: the entry's name when its address matches,
      nothing (`undefined`) otherwise. */
  function CallbackResult(marketAddressString: string, market: MarketInfo): (r: Option<string>)
    ensures r.Some? <==> HasAddress(marketAddressString, market)
    ensures r.Some? ==> r.value == market.name
  {
    if HasAddress(marketAddressString, market) then Some(market.name) else None
  }

  /** `USE_MARKETS.forEach(callback)`: the callback runs on every entry, in order, and a matching
      entry does not stop the iteration; `forEach` itself returns `undefined`, so the results
      computed here are dropped by their caller. */
  function ForEachResults(useMarkets: seq<MarketInfo>, marketAddressString: string): (r: seq<Option<string>>)
    ensures |r| == |useMarkets|
    ensures forall i :: 0 <= i < |useMarkets| ==>
              (r[i].Some? <==> HasAddress(marketAddressString, useMarkets[i]))
              && (r[i].Some? ==> r[i].value == useMarkets[i].name)
  {
    Map(useMarkets, (m: MarketInfo) => CallbackResult(marketAddressString, m))
  }

  /** A match does not end the iteration: over a registry that splits in two, the callback still runs
      on every entry of the second part, whatever the first part holds. */
  lemma ForEachContinues(a: seq<MarketInfo>, b: seq<MarketInfo>, marketAddressString: string)
    ensures ForEachResults(a + b, marketAddressString)
            == ForEachResults(a, marketAddressString) + ForEachResults(b, marketAddressString)
    ensures |ForEachResults(a + b, marketAddressString)| == |a| + |b|
  {
    var r, ra, rb := ForEachResults(a + b, marketAddressString), ForEachResults(a, marketAddressString), ForEachResults(b, marketAddressString);
    assert forall i :: 0 <= i < |a| ==> (a + b)[i] == a[i];
    assert forall i :: |a| <= i < |a| + |b| ==> (a + b)[i] == b[i - |a|];
    assert forall i :: 0 <= i < |r| ==> r[i] == (ra + rb)[i];
  }

  /** `findTVMarketFromAddress` as written: the loop's results are discarded and the function
      always ends on its final `return`. The registry is only read. */
  function FindTVMarketFromAddress(useMarkets: seq<MarketInfo>, marketAddressString: string): (r: string)
    ensures r == DefaultTVMarket
  {
    var results := ForEachResults(useMarkets, marketAddressString);
    DefaultTVMarket
  }

  /** A registry entry whose address matches and whose name is not the default is still not the
      answer: the callback produced its name and the lookup returned something else. */
  lemma MatchIgnored(useMarkets: seq<MarketInfo>, marketAddressString: string, i: nat)
    requires i < |useMarkets| && HasAddress(marketAddressString, useMarkets[i])
    requires useMarkets[i].name != DefaultTVMarket
    ensures ForEachResults(useMarkets, marketAddressString)[i] == Some(useMarkets[i].name)
    ensures FindTVMarketFromAddress(useMarkets, marketAddressString) != useMarkets[i].name
  {
  }

  /** The lookup that was evidently meant: the name of the first entry whose address matches, or the
      default symbol when none does. */
  function FindTVMarketFromAddressIntended(useMarkets: seq<MarketInfo>, marketAddressString: string): (r: string)
    ensures (forall i :: 0 <= i < |useMarkets| ==> !HasAddress(marketAddressString, useMarkets[i])) ==> r == DefaultTVMarket
    ensures forall i :: FirstMatchAt(useMarkets, (m: MarketInfo) => HasAddress(marketAddressString, m), i) ==> r == useMarkets[i].name
  {
    var p := (m: MarketInfo) => HasAddress(marketAddressString, m);
    match Find(useMarkets, p)
    case None => DefaultTVMarket
    case Some(market) =>
      assert forall i, j :: FirstMatchAt(useMarkets, p, i) && FirstMatchAt(useMarkets, p, j) ==> i == j;
      market.name
  }

  /** One registry entry with address "9wFF" named "SRM/USDT", looked up by that address: the
      intended lookup answers "SRM/USDT", the lookup as written "SDOGE/USDC". */
  lemma LookupCounterexample()
    ensures var useMarkets := [MarketInfo(PublicKey("9wFF"), PublicKey("EUqo"), "SRM/USDT", false, None, None)];
            && FindTVMarketFromAddressIntended(useMarkets, "9wFF") == "SRM/USDT"
            && FindTVMarketFromAddress(useMarkets, "9wFF") == "SDOGE/USDC"
  {
    var useMarkets := [MarketInfo(PublicKey("9wFF"), PublicKey("EUqo"), "SRM/USDT", false, None, None)];
    assert FirstMatchAt(useMarkets, (m: MarketInfo) => HasAddress("9wFF", m), 0);
  }
}
