# Serum DEX UI market data, modelled in Dafny

This project models the market-data core of the Serum DEX web UI:
- the market registry: the static list `USE_MARKETS`, custom markets, the visible-market filter and `DEFAULT_MARKET`;
- selecting the token account to trade from;
- finding open-orders accounts left on deprecated market programs;
- grouping open-orders balances by mint and summing wallet balances per mint;
- the two order-book walks behind market orders, `getMarketOrderPrice` and `getExpectedFillPrice`;
- the TradingView symbol lookup `findTVMarketFromAddress`.

Modules:
- `Wrappers`: `Option` and `Result`.
- `Seqs`: the JavaScript array and string operations the code relies on: `filter`, `find`, `map`, `Array.from(new Set(...))` and `String.prototype.includes`.
- `Keys`: public keys, identified by their base58 text.
- `Registry`, `TokenAccounts`, `OpenOrders`, `Balances`, `OrderPricing`, `TradingView`: one per concern above. `OrderPricing` follows `getMarketOrderPrice` and `getExpectedFillPrice`, and `TradingView` follows src/utils/tradingview.tsx; all modules except `TradingView` follow src/utils/markets.tsx.

Modelling choices:
- Data the SDK fetches from the chain becomes input. `OpenOrders.findForOwner` is a function parameter that yields the found accounts or an error. The mint metadata is a map. `orderbook.getL2(1000)` gives the first `min(1000, n)` levels of a given sequence.
- `floorToDecimal` is not part of this model. It is a parameter of type `(real, int) -> real`.
- `divideBnToNumber(new BN(raw), getTokenMultiplierFromDecimals(d))` is exact division of the raw amount by 10^d.
- Prices, sizes and amounts are exact reals.
- Where the JavaScript throws or would compute NaN, the model returns an error value instead:
  - reading `asks[0][0]` of an empty ask book gives `EmptyAskBook`;
  - dividing by a zero `Math.min(cost, spentCost)` gives `ZeroDivisor`;
  - `new PublicKey` on text that is not base58 gives `InvalidPublicKey`.
- The loops that update state step by step are methods with loop invariants. Each is proved equal to a function over its inputs:
  - the `concat` loop over deprecated program IDs;
  - the grouping loop of `useAllOpenOrdersBalances`;
  - the summing loop of `useWalletBalancesForAllMarkets`;
  - the two order-book walks.
  The map, filter and find expressions are functions.

`getMarketInfos` calls `new PublicKey` on each custom market's address and program ID. That call throws on bad input, so `Registry.GetMarketInfos` returns the error of the first malformed custom market.

## Model

| member | source | states |
|---|---|---|
| Seqs.Distinct | src/utils/markets.tsx:95-101 | `Array.from(new Set(s))` keeps every element of `s`, adds none, and has no duplicates |
| Seqs.DistinctOrder | src/utils/markets.tsx:95-101 | `Array.from(new Set(s))` lists elements in order of first occurrence: an element listed before another occurs in `s` before the other first does |
| Seqs.FilterHead | src/utils/markets.tsx:342-350 | a filtered list is empty exactly when nothing matches; otherwise its head is the first match |
| Seqs.IncludesAt | src/utils/markets.tsx:37 | `includes` is substring search: the needle is a prefix of some suffix of the text |
| Registry.ParseCustomMarket | src/utils/markets.tsx:638-643 | a custom market converts exactly when both keys are base58; it keeps its fields and has `deprecated` false; otherwise the error names the address first, then the program ID |
| Registry.ParseCustomMarkets | src/utils/markets.tsx:638-643 | all custom markets convert, in order and one for one, exactly when each is well formed; otherwise the error comes from a malformed one |
| Registry.GetMarketInfos | src/utils/markets.tsx:635-646 | the result is the converted custom markets in order, then `USE_MARKETS` unchanged; its length is the sum of both, with no deduplication; a malformed custom market is an error |
| Registry.MalformedKeyRejected | src/utils/markets.tsx:638-643 | a custom market whose address or program ID is not base58 text makes `getMarketInfos` throw, unless an earlier custom market already did; the error carries the offending text, the address checked first |
| Registry.MarketsListSpec | src/utils/markets.tsx:36-38 | `useMarketsList` keeps exactly the entries that are not deprecated and whose name is not a substring of the exclusion text, and it keeps their order (filtering distributes over concatenation) |
| Registry.ExclusionIsSubstring | src/utils/markets.tsx:37 | excluding "SRM/USDT,FIDA/USDC" also hides a market named "SRM/USD"; an empty name is hidden by every exclusion text; without exclusions every non-deprecated entry is listed |
| Registry.DefaultMarket | src/utils/markets.tsx:163-165 | `DEFAULT_MARKET` is the first non-deprecated entry named "SRM/USDT", and it is absent exactly when there is no such entry |
| TokenAccounts.SelectedTokenAccountForMint | src/utils/markets.tsx:334-351 | `null` exactly when the accounts or the mint are absent; `undefined` exactly when no account holds the mint and matches a given non-empty selection; otherwise the first account that does |
| OpenOrders.DeprecatedProgramIdsSpec | src/utils/markets.tsx:95-101 | the queried program IDs are those of deprecated entries, each exactly once |
| OpenOrders.GetUnmigratedOpenOrdersAccounts | src/utils/markets.tsx:89-134 | `[]` without a wallet, a connection or a wallet key; otherwise the deprecated program IDs are queried in order, and the result concatenates the filtered accounts of each query, skipping a query that failed |
| OpenOrders.GatheredAppend | src/utils/markets.tsx:103-131 | gathering over two lists of program IDs is the concatenation of gathering over each |
| OpenOrders.FailureIsSkipped | src/utils/markets.tsx:104-130 | a program ID whose query throws contributes nothing, and the queries after it still contribute |
| OpenOrders.GatheredMembers | src/utils/markets.tsx:110-123 | an account is returned exactly when a queried program ID found it, it has a nonzero base or quote total, and its market is a deprecated registry entry |
| OpenOrders.UnmigratedAreDeprecatedAndUnsettled | src/utils/markets.tsx:110-123 | every returned account has tokens left to settle and sits on a deprecated market |
| Balances.ScaleInverse | src/utils/markets.tsx:432-448 | a scaled amount is never negative, and multiplying it by 10^decimals gives back the raw amount |
| Balances.EntryAmounts | src/utils/markets.tsx:431-448 | each open-orders record keeps the account's market; when the mint it is filed under has no metadata (or no metadata is loaded), its free and total amounts are the account's raw amounts, decimals being taken as 0 |
| Balances.ScaleExamples | src/utils/markets.tsx:432-435 | 123450000 raw units at 6 decimals are 123.45; a mint without metadata keeps its raw amount |
| Balances.MarketsByAddressSpec | src/utils/markets.tsx:414-416 | the keys are exactly the base58 addresses of the loaded markets, and each key maps to a market with that address |
| Balances.AllOpenOrdersBalances | src/utils/markets.tsx:410-461 | `{}` until both the accounts and the mint metadata are loaded; then exactly the mints some account files under, each with its records in account order |
| Balances.FileByMint | src/utils/markets.tsx:420-460 | the grouping loop's result has as keys exactly the account mints, and under each key the records the accounts file there, in order |
| Balances.EntriesOutsideMints | src/utils/markets.tsx:424-429 | a mint that no account files under has no records |
| Balances.EntriesCount | src/utils/markets.tsx:450-459 | records are never merged: a mint holds one record per account whose base mint it is, plus one per account whose quote mint it is |
| Balances.EveryAccountListed | src/utils/markets.tsx:450-459 | every account's base record is filed under its base mint, and its quote record under its quote mint |
| Balances.WalletBalancesForAllMarkets | src/utils/markets.tsx:536-567 | `[]` when not connected or the metadata is not loaded; otherwise one balance per distinct mint of the accounts with data, in order of first appearance, each the sum of its accounts' scaled amounts |
| Balances.MintTotalSnoc | src/utils/markets.tsx:555-563 | one more account with data adds its scaled amount to its own mint's total and nothing to any other mint's; an account without data adds nothing |
| Balances.WrappedSolCountsLamports | src/utils/markets.tsx:545-563 | a wrapped-SOL account with data adds its lamports, scaled by the wrapped-SOL mint's decimals, to the wrapped-SOL total and leaves every other mint's total alone, whatever its token data says |
| Balances.UnknownMintSumsRaw | src/utils/markets.tsx:556-563 | an account whose mint has no metadata adds its raw amount to that mint's total |
| Balances.CountedMintsMembers | src/utils/markets.tsx:555-565 | a mint has a wallet balance exactly when some account with data holds it, and it has only one |
| Balances.MintTotalAbsent | src/utils/markets.tsx:555-563 | a mint that no account with data holds sums to zero |
| OrderPricing.DeepLevelsIgnored | src/utils/markets.tsx:673 | both walks read the book through `getL2(1000)`: a book of at most 1000 levels is walked whole, and levels below the 1000th never change what either walk sees |
| OrderPricing.FirstCrossing | src/utils/markets.tsx:674-680 | the walk stops at the first level whose taking would bring the spent cost above the target; every prefix before it fits; when none crosses, the walk runs to the end |
| OrderPricing.CrossingUnique | src/utils/markets.tsx:674-680 | the stopping level is determined by those two properties |
| OrderPricing.GetMarketOrderPrice | src/utils/markets.tsx:663-689 | the tick size for a bid book; an error for an empty ask book; otherwise the smaller of the stopping level's price plus 2% and the best ask plus 5%, through `floorToDecimal` when the tick-size decimals are set and nonzero |
| OrderPricing.SendPriceBounds | src/utils/markets.tsx:681 | the price sent never exceeds the best ask plus 5%, nor the stop price plus 2%, and it equals one of them |
| OrderPricing.MarketOrderExample | src/utils/markets.tsx:674-681 | asks (10, 5), (11, 5), (12, 100) with cost 60 stop at level 1 with price 11, and the 5% cap gives 10.5 |
| OrderPricing.GetExpectedFillPrice | src/utils/markets.tsx:691-717 | the result is the weighted price sum of the walk over the minimum of the target and the spent cost, rounded as above; the levels before the crossing level are taken whole and only the remainder of the crossing level counts; a zero divisor is an error |
| OrderPricing.ExpectedFillExample | src/utils/markets.tsx:699-709 | on the asks above with cost 60, the weighted sum is 610, the spent cost becomes 60, and the result is 610 / 60 |
| OrderPricing.CostMonotone | src/utils/markets.tsx:700-707 | on a book without negative entries the spent cost is never negative and only grows along the walk |
| OrderPricing.FillSpent | src/utils/markets.tsx:701-709 | for a non-negative target the spent cost never exceeds it, so the divisor is the spent cost, and it equals the target when a crossing level was hit |
| OrderPricing.NothingToDivide | src/utils/markets.tsx:709 | on a book without negative entries and with a non-negative target, the expected fill price is an error exactly when the target is zero or the levels are worth nothing (an empty book included) |
| OrderPricing.WeightBounds | src/utils/markets.tsx:706-707 | levels taken whole at prices in `[lo, hi]` have a weighted sum between `lo` and `hi` times their cost |
| OrderPricing.FillWithinReachedPrices | src/utils/markets.tsx:699-709 | on a non-empty book of positive levels with a positive target, when every level the walk reaches is priced within `[lo, hi]`, the divisor is positive and the unrounded result lies in `[lo, hi]` |
| TradingView.ForEachContinues | src/utils/tradingview.tsx:5-9 | a match does not end the `forEach`: over a registry that splits in two, the callback runs on every entry of the second part whatever the first holds, one result per entry |
| TradingView.FindTVMarketFromAddress | src/utils/tradingview.tsx:3-11 | as written, the lookup returns "SDOGE/USDC" for every registry and every address, and it only reads the registry |
| TradingView.MatchIgnored | src/utils/tradingview.tsx:5-10 | when an entry's address matches and its name is not the default, the callback produces that name and the lookup still returns something else |
| TradingView.FindTVMarketFromAddressIntended | src/utils/tradingview.tsx:3-11 | the name of the first entry whose address matches, or "SDOGE/USDC" when none does |
| TradingView.LookupCounterexample | src/utils/tradingview.tsx:3-11 | a one-entry registry looked up by that entry's address: the intended lookup gives its name, the lookup as written gives the default |

## Left out

- Chain and network I/O: `Market.load`, `OpenOrders.findForOwner`, `loadOrdersForOwner`, `getL2` and the symbol and trade HTTP API. Their results are inputs.
- The polling, caching and React plumbing: `useAsyncData`, `refreshCache`, contexts, `useState`/`useEffect`, local storage, notifications and the environment read. Those hooks' inputs (wallet, connection, loaded flags, exclusion text) are parameters.
- The `Promise.all` with random sleeps in `useAllOpenOrders`. It is concurrency over a shared array.
- The market provider, URL handling and the UI pages. These are not part of the core.
- IEEE-754 rounding of JavaScript numbers, and `BN.toNumber` throwing at 2^53 and above. Amounts are exact.
- `floorToDecimal`, `divideBnToNumber`, `getTokenMultiplierFromDecimals` and `parseTokenAccountData` are not part of this model:
  - `floorToDecimal` is an uninterpreted parameter;
  - the scaling is exact division by 10^d;
  - token data is carried already decoded.
- `USE_MARKETS` is an input sequence. `_IGNORE_DEPRECATED` is false in the source, so `USE_MARKETS` is the SDK's `MARKETS` list.
- Keys.ParsePublicKey: checks only the base58 alphabet, not the 32-byte length of the decoded key.
- Balances.WalletBalancesForAllMarkets: lists mints in order of first appearance. `Object.entries` would put integer-like keys first, and no base58 mint address of realistic length is one.
- Balances.AllOpenOrdersBalances: the result is a map, so the key order of the JavaScript object is not modelled. An account whose market was not loaded is filed under the key "undefined", as `obj[undefined]` does.
- OrderPricing.FillWithinReachedPrices: bounds the unrounded result only, since `floorToDecimal` is uninterpreted.

## Findings

| source | as written | input that shows it | evidently intended | confidence | as-written member | corrected member |
|---|---|---|---|---|---|---|
| src/utils/tradingview.tsx:5-10 | the `return market.name` sits inside the `forEach` callback, whose result `forEach` discards, so the function always returns 'SDOGE/USDC' | a registry with one entry named "SRM/USDT" whose address is "9wFF", looked up by "9wFF" | return the name of the first entry whose address matches, falling back to 'SDOGE/USDC' | high; not executed | TradingView.FindTVMarketFromAddress, TradingView.LookupCounterexample | TradingView.FindTVMarketFromAddressIntended |
