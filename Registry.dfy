/** The market registry: the static market list, user-added custom markets, and the filters over them
    (src/utils/markets.tsx). */
module Registry {
  import opened Wrappers
  import opened Keys
  import opened Seqs

  /** A registry entry. `USE_MARKETS` is a sequence of these, taken as an input everywhere. */
  datatype MarketInfo = MarketInfo(
    address: PublicKey,
    programId: PublicKey,
    name: string,
    deprecated: bool,
    baseLabel: Option<string>,
    quoteLabel: Option<string>)

  /** A custom market as kept in local storage: keys are still text. */
  datatype CustomMarketInfo = CustomMarketInfo(
    address: string,
    programId: string,
    name: string,
    baseLabel: Option<string>,
    quoteLabel: Option<string>)

  /** The error `new PublicKey` throws, with the text it was given. */
  datatype KeyError = InvalidPublicKey(input: string)

  /** The entry a well-formed custom market becomes: keys parsed, never deprecated. */
  function AsMarketInfo(m: CustomMarketInfo): MarketInfo {
    MarketInfo(PublicKey(m.address), PublicKey(m.programId), m.name, false, m.baseLabel, m.quoteLabel)
  }

  predicate WellFormed(m: CustomMarketInfo) {
    IsBase58(m.address) && IsBase58(m.programId)
  }

  /** One step of the `customMarkets.map(...)`: the address is parsed before the program ID. */
  function ParseCustomMarket(m: CustomMarketInfo): (r: Result<MarketInfo, KeyError>)
    ensures r.Success? <==> WellFormed(m)
    ensures r.Success? ==> r.value == AsMarketInfo(m)
    ensures r.Failure? ==> r.error == if IsBase58(m.address) then InvalidPublicKey(m.programId) else InvalidPublicKey(m.address)
  {
    match ParsePublicKey(m.address)
    case None => Failure(InvalidPublicKey(m.address))
    case Some(address) =>
      match ParsePublicKey(m.programId)
      case None => Failure(InvalidPublicKey(m.programId))
      case Some(programId) =>
        Success(MarketInfo(address, programId, m.name, false, m.baseLabel, m.quoteLabel))
  }

  /** The whole `customMarkets.map(...)`: all entries converted, or the error of the first bad one. */
  function ParseCustomMarkets(custom: seq<CustomMarketInfo>): (r: Result<seq<MarketInfo>, KeyError>)
    ensures r.Success? <==> forall i :: 0 <= i < |custom| ==> WellFormed(custom[i])
    ensures r.Success? ==> |r.value| == |custom| && forall i :: 0 <= i < |custom| ==> r.value[i] == AsMarketInfo(custom[i])
    ensures r.Failure? ==> exists i :: 0 <= i < |custom| && !WellFormed(custom[i]) && ParseCustomMarket(custom[i]) == Failure(r.error)
                                       && forall j :: 0 <= j < i ==> WellFormed(custom[j])
  {
    if |custom| == 0 then Success([])
    else
      match ParseCustomMarket(custom[0])
      case Failure(e) => Failure(e)
      case Success(m) =>
        match ParseCustomMarkets(custom[1..])
        case Failure(e) =>
          assert forall i :: 1 <= i < |custom| ==> custom[i] == custom[1..][i - 1];
          Failure(e)
        case Success(ms) =>
          assert forall i :: 1 <= i < |custom| ==> custom[i] == custom[1..][i - 1];
          Success([m] + ms)
  }

  /** `getMarketInfos`: the custom markets, in order and marked not deprecated, followed by the
      static list unchanged. Nothing is deduplicated, so the length is the sum of the two. */
  function GetMarketInfos(custom: seq<CustomMarketInfo>, useMarkets: seq<MarketInfo>): (r: Result<seq<MarketInfo>, KeyError>)
    ensures r.Success? <==> forall i :: 0 <= i < |custom| ==> WellFormed(custom[i])
    ensures r.Success? ==>
      && |r.value| == |custom| + |useMarkets|
      && (forall i :: 0 <= i < |custom| ==> r.value[i] == AsMarketInfo(custom[i]) && !r.value[i].deprecated)
      && r.value[|custom|..] == useMarkets
    ensures r.Failure? ==> exists i :: 0 <= i < |custom| && !WellFormed(custom[i]) && ParseCustomMarket(custom[i]) == Failure(r.error)
                                       && forall j :: 0 <= j < i ==> WellFormed(custom[j])
  {
    match ParseCustomMarkets(custom)
    case Failure(e) => Failure(e)
    case Success(infos) => Success(infos + useMarkets)
  }

  /** A custom market with a key that is not base58 text makes `getMarketInfos` throw, unless an
      earlier one already did: the error carries the offending text, the address before the program ID. */
  lemma MalformedKeyRejected(custom: seq<CustomMarketInfo>, useMarkets: seq<MarketInfo>, i: nat)
    requires i < |custom| && !WellFormed(custom[i])
    requires forall j :: 0 <= j < i ==> WellFormed(custom[j])
    ensures GetMarketInfos(custom, useMarkets)
            == Failure(if IsBase58(custom[i].address) then InvalidPublicKey(custom[i].programId) else InvalidPublicKey(custom[i].address))
  {
    var r := GetMarketInfos(custom, useMarkets);
    var k :| 0 <= k < |custom| && !WellFormed(custom[k]) && ParseCustomMarket(custom[k]) == Failure(r.error)
             && forall j :: 0 <= j < k ==> WellFormed(custom[j]);
    assert k == i;
  }

  /** Whether `useMarketsList` shows an entry: not deprecated, and its name is not a substring of the
      exclusion setting (which may be unset). */
  predicate Listed(m: MarketInfo, exclude: Option<string>) {
    !m.deprecated && !(exclude.Some? && Includes(exclude.value, m.name))
  }

  /** `useMarketsList`. */
  function MarketsList(useMarkets: seq<MarketInfo>, exclude: Option<string>): seq<MarketInfo> {
    Filter(useMarkets, m => Listed(m, exclude))
  }

  /** `useMarketsList` keeps exactly the listed entries, in their order: a list that splits into two
      parts yields the kept entries of the first part, then those of the second. */
  lemma MarketsListSpec(a: seq<MarketInfo>, b: seq<MarketInfo>, exclude: Option<string>)
    ensures forall m :: m in MarketsList(a, exclude) <==>
      m in a && !m.deprecated && !(exclude.Some? && exists i :: 0 <= i <= |exclude.value| && m.name <= exclude.value[i..])
    ensures MarketsList(a + b, exclude) == MarketsList(a, exclude) + MarketsList(b, exclude)
  {
    FilterAppend(a, b, m => Listed(m, exclude));
    if exclude.Some? {
      forall m: MarketInfo ensures Includes(exclude.value, m.name) <==> exists i :: 0 <= i <= |exclude.value| && m.name <= exclude.value[i..] {
        IncludesAt(exclude.value, m.name);
      }
    }
  }

  /** The exclusion is a substring test, not list membership: excluding "SRM/USDT" also hides a market
      named "SRM/USD", and any set exclusion hides a market with an empty name. */
  lemma ExclusionIsSubstring(m: MarketInfo)
    requires !m.deprecated
    ensures m.name == "SRM/USD" ==> m !in MarketsList([m], Some("SRM/USDT,FIDA/USDC"))
    ensures m.name == "" ==> forall e :: m !in MarketsList([m], Some(e))
    ensures m in MarketsList([m], None)
  {
    assert "SRM/USD" <= "SRM/USDT,FIDA/USDC";
  }

  /** `DEFAULT_MARKET`: the first non-deprecated entry named "SRM/USDT". */
  function DefaultMarket(useMarkets: seq<MarketInfo>): (r: Option<MarketInfo>)
    ensures r.Some? ==> r.value in useMarkets && r.value.name == "SRM/USDT" && !r.value.deprecated
    ensures r.None? <==> forall m :: m in useMarkets ==> m.name != "SRM/USDT" || m.deprecated
    ensures r.Some? ==> exists i :: 0 <= i < |useMarkets| && useMarkets[i] == r.value
                                    && forall j :: 0 <= j < i ==> useMarkets[j].name != "SRM/USDT" || useMarkets[j].deprecated
  {
    Find(useMarkets, (m: MarketInfo) => m.name == "SRM/USDT" && !m.deprecated)
  }
}
