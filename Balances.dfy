/** Per-mint balances: open-orders amounts grouped by mint (`useAllOpenOrdersBalances`) and wallet
    token amounts summed by mint (`useWalletBalancesForAllMarkets`), both in src/utils/markets.tsx.
    What the hooks fetch (accounts, mint infos, loaded markets) are parameters. */
module Balances {
  import opened Wrappers
  import opened Keys
  import opened Seqs
  import opened TokenAccounts
  import opened OpenOrders

  function Pow10(d: nat): (r: nat)
    ensures r > 0
  {
    if d == 0 then 1 else 10 * Pow10(d - 1)
  }

  /** `divideBnToNumber(new BN(raw), getTokenMultiplierFromDecimals(decimals))`, as exact division. */
  function Scale(raw: nat, decimals: nat): real {
    raw as real / Pow10(decimals) as real
  }

  /** Scaling is undone by multiplying back, and never makes an amount negative. */
  lemma ScaleInverse(raw: nat, decimals: nat)
    ensures Scale(raw, decimals) >= 0.0
    ensures Scale(raw, decimals) * Pow10(decimals) as real == raw as real
  {
  }

  /** The part of a mint's metadata that is used. */
  datatype MintInfo = MintInfo(decimals: nat)

  /** `(mintInfos && mintInfos[mint])?.decimals || 0`: the mint's decimals, 0 when unknown. */
  function DecimalsOf(mintInfos: Option<map<string, MintInfo>>, mint: string): (d: nat)
    ensures mintInfos.None? || mint !in mintInfos.value ==> d == 0
    ensures mintInfos.Some? && mint in mintInfos.value ==> d == mintInfos.value[mint].decimals
  {
    if mintInfos.Some? && mint in mintInfos.value then mintInfos.value[mint].decimals else 0
  }

  /** Scaling divides by ten to the decimals, and missing metadata leaves the raw amount. */
  lemma ScaleExamples(mintInfos: Option<map<string, MintInfo>>, mint: string, raw: nat)
    requires mintInfos.None? || mint !in mintInfos.value
    ensures Scale(123450000, 6) == 123.45
    ensures Scale(raw, DecimalsOf(mintInfos, mint)) == raw as real
  {
    assert Pow10(6) == 1000000 by {
      assert Pow10(3) == 1000;
      assert Pow10(6) == 10 * 10 * 10 * Pow10(3);
    }
  }

  /** Each record keeps its account's market and is scaled by the decimals of the mint it is filed
      under; when that mint has no metadata, the record carries the raw amounts. */
  lemma EntryAmounts(ctx: Context, a: OpenOrdersAccount)
    ensures BaseEntry(ctx, a).market == a.market && QuoteEntry(ctx, a).market == a.market
    ensures ctx.mintInfos.None? || BaseMint(ctx, a) !in ctx.mintInfos.value ==>
              BaseEntry(ctx, a) == BalanceEntry(a.market, a.baseTokenFree as real, a.baseTokenTotal as real)
    ensures ctx.mintInfos.None? || QuoteMint(ctx, a) !in ctx.mintInfos.value ==>
              QuoteEntry(ctx, a) == BalanceEntry(a.market, a.quoteTokenFree as real, a.quoteTokenTotal as real)
  {
    ScaledAmount(a.baseTokenFree, ctx.mintInfos, BaseMint(ctx, a));
    ScaledAmount(a.baseTokenTotal, ctx.mintInfos, BaseMint(ctx, a));
    ScaledAmount(a.quoteTokenFree, ctx.mintInfos, QuoteMint(ctx, a));
    ScaledAmount(a.quoteTokenTotal, ctx.mintInfos, QuoteMint(ctx, a));
  }

  /** A mint without metadata leaves an amount raw: its decimals are taken as 0. */
  lemma ScaledAmount(raw: nat, mintInfos: Option<map<string, MintInfo>>, mint: string)
    ensures mintInfos.None? || mint !in mintInfos.value ==> Scale(raw, DecimalsOf(mintInfos, mint)) == raw as real
  {
  }

  /** A market as `useAllMarkets` loads it; only its address and mints are used here. */
  datatype LoadedMarket = LoadedMarket(address: PublicKey, baseMintAddress: PublicKey, quoteMintAddress: PublicKey,
                                       marketName: string, programId: PublicKey)

  /** `Object.fromEntries` keyed by base58 address. */
  function MarketsByAddress(allMarkets: seq<LoadedMarket>): map<string, LoadedMarket> {
    if |allMarkets| == 0 then map[]
    else
      var last := allMarkets[|allMarkets| - 1];
      MarketsByAddress(allMarkets[..|allMarkets| - 1])[last.address.base58 := last]
  }

  /** Every loaded market's address is a key, nothing else is, and when several markets share an
      address the last one wins. */
  lemma {:induction false} MarketsByAddressSpec(allMarkets: seq<LoadedMarket>)
    ensures forall k :: k in MarketsByAddress(allMarkets) <==> exists m :: m in allMarkets && m.address.base58 == k
    ensures forall k :: k in MarketsByAddress(allMarkets) ==>
              exists i :: && 0 <= i < |allMarkets| && allMarkets[i] == MarketsByAddress(allMarkets)[k]
                          && allMarkets[i].address.base58 == k
                          && forall j :: i < j < |allMarkets| ==> allMarkets[j].address.base58 != k
  {
    if |allMarkets| > 0 {
      var init, last := allMarkets[..|allMarkets| - 1], allMarkets[|allMarkets| - 1];
      assert allMarkets == init + [last];
      MarketsByAddressSpec(init);
      var m, r := MarketsByAddress(init), MarketsByAddress(allMarkets);
      forall k | k in r
        ensures exists i :: && 0 <= i < |allMarkets| && allMarkets[i] == r[k] && allMarkets[i].address.base58 == k
                            && forall j :: i < j < |allMarkets| ==> allMarkets[j].address.base58 != k
      {
        if k == last.address.base58 {
          assert allMarkets[|init|] == r[k];
        } else {
          var i :| && 0 <= i < |init| && init[i] == m[k] && init[i].address.base58 == k
                   && forall j :: i < j < |init| ==> init[j].address.base58 != k;
          assert allMarkets[i] == r[k];
        }
      }
    }
  }

  /** The mint key an account's base side is filed under: the loaded market's base mint, or the key
      "undefined" (JavaScript's property name for `undefined`) when its market was not loaded. */
  const UndefinedKey: string := "undefined"

  /** The loaded markets by address and the mint metadata, as the grouping loop sees them. */
  datatype Context = Context(byAddress: map<string, LoadedMarket>, mintInfos: Option<map<string, MintInfo>>)

  function BaseMint(ctx: Context, a: OpenOrdersAccount): string {
    var k := a.market.base58;
    if k in ctx.byAddress then ctx.byAddress[k].baseMintAddress.base58 else UndefinedKey
  }

  function QuoteMint(ctx: Context, a: OpenOrdersAccount): string {
    var k := a.market.base58;
    if k in ctx.byAddress then ctx.byAddress[k].quoteMintAddress.base58 else UndefinedKey
  }

  /** One `{market, free, total}` record. */
  datatype BalanceEntry = BalanceEntry(market: PublicKey, free: real, total: real)

  function BaseEntry(ctx: Context, a: OpenOrdersAccount): BalanceEntry {
    var d := DecimalsOf(ctx.mintInfos, BaseMint(ctx, a));
    BalanceEntry(a.market, Scale(a.baseTokenFree, d), Scale(a.baseTokenTotal, d))
  }

  function QuoteEntry(ctx: Context, a: OpenOrdersAccount): BalanceEntry {
    var d := DecimalsOf(ctx.mintInfos, QuoteMint(ctx, a));
    BalanceEntry(a.market, Scale(a.quoteTokenFree, d), Scale(a.quoteTokenTotal, d))
  }

  /** The records filed under mint `k`: per account in order, its base record if its base mint is `k`,
      then its quote record if its quote mint is `k`. */
  function EntriesFor(ctx: Context, accs: seq<OpenOrdersAccount>, k: string): seq<BalanceEntry> {
    if |accs| == 0 then []
    else
      var last := accs[|accs| - 1];
      EntriesFor(ctx, accs[..|accs| - 1], k)
      + (if BaseMint(ctx, last) == k then [BaseEntry(ctx, last)] else [])
      + (if QuoteMint(ctx, last) == k then [QuoteEntry(ctx, last)] else [])
  }

  /** The mints some account files a record under. */
  function MintsOf(ctx: Context, accs: seq<OpenOrdersAccount>): set<string> {
    (set a | a in accs :: BaseMint(ctx, a)) + (set a | a in accs :: QuoteMint(ctx, a))
  }

  /** `useAllOpenOrdersBalances`: `{}` until both the accounts and the mint infos are loaded; then one
      list per mint that is some account's base or quote mint, holding that mint's records. */
  method AllOpenOrdersBalances(openOrdersAccounts: Option<seq<OpenOrdersAccount>>, loadedOpenOrdersAccounts: bool,
                               mintInfos: Option<map<string, MintInfo>>, mintInfosConnected: bool,
                               allMarkets: Option<seq<LoadedMarket>>)
    returns (balances: map<string, seq<BalanceEntry>>)
    ensures !loadedOpenOrdersAccounts || !mintInfosConnected ==> balances == map[]
    ensures loadedOpenOrdersAccounts && mintInfosConnected ==>
              var ctx := Context(MarketsByAddress(allMarkets.GetOr([])), mintInfos);
              var accs := openOrdersAccounts.GetOr([]);
              && balances.Keys == MintsOf(ctx, accs)
              && forall k :: k in balances ==> balances[k] == EntriesFor(ctx, accs, k)
  {
    if !loadedOpenOrdersAccounts || !mintInfosConnected {
      return map[];
    }
    var marketsByAddress := MarketsByAddress(allMarkets.GetOr([]));
    balances := FileByMint(Context(marketsByAddress, mintInfos), openOrdersAccounts.GetOr([]));
  }

  /** The loop of `useAllOpenOrdersBalances`: for each account in order, append its base record to its
      base mint's list and its quote record to its quote mint's list, creating lists as needed. */
  method FileByMint(ctx: Context, accs: seq<OpenOrdersAccount>) returns (balances: map<string, seq<BalanceEntry>>)
    ensures balances.Keys == MintsOf(ctx, accs)
    ensures forall k :: k in balances ==> balances[k] == EntriesFor(ctx, accs, k)
  {
    assert accs[..0] == [];
    balances := map[];
    for i := 0 to |accs|
      invariant Files(ctx, accs[..i], balances)
    {
      var account := accs[i];
      ghost var before := balances;
      var baseMint, quoteMint := BaseMint(ctx, account), QuoteMint(ctx, account);
      if baseMint !in balances {
        balances := balances[baseMint := []];
      }
      if quoteMint !in balances {
        balances := balances[quoteMint := []];
      }
      ghost var created := balances;
      var baseEntry, quoteEntry := BaseEntry(ctx, account), QuoteEntry(ctx, account);
      balances := balances[baseMint := balances[baseMint] + [baseEntry]];
      ghost var withBase := balances;
      balances := balances[quoteMint := balances[quoteMint] + [quoteEntry]];
      forall k | k in balances
        ensures balances[k] == Filed(before, k) + (if baseMint == k then [baseEntry] else [])
                               + (if quoteMint == k then [quoteEntry] else [])
      {
        assert created[k] == Filed(before, k);
        assert withBase[k] == Filed(before, k) + (if baseMint == k then [baseEntry] else []);
      }
      FilingStep(ctx, accs, i, before, balances);
    }
    assert accs[..|accs|] == accs;
    assert Files(ctx, accs, balances);
  }

  /** `m` holds exactly the lists the accounts `accs` file. */
  ghost predicate Files(ctx: Context, accs: seq<OpenOrdersAccount>, m: map<string, seq<BalanceEntry>>) {
    && m.Keys == MintsOf(ctx, accs)
    && forall k :: k in m ==> m[k] == EntriesFor(ctx, accs, k)
  }

  /** The list under `k`, empty when there is none yet. */
  function Filed(m: map<string, seq<BalanceEntry>>, k: string): seq<BalanceEntry> {
    if k in m then m[k] else []
  }

  /** One iteration keeps the loop's invariant: `r` is `m` with the account's base record appended
      under its base mint and its quote record under its quote mint. */
  lemma FilingStep(ctx: Context, accs: seq<OpenOrdersAccount>, i: nat, m: map<string, seq<BalanceEntry>>,
                   r: map<string, seq<BalanceEntry>>)
    requires i < |accs| && Files(ctx, accs[..i], m)
    requires r.Keys == m.Keys + {BaseMint(ctx, accs[i]), QuoteMint(ctx, accs[i])}
    requires forall k :: k in r ==>
               r[k] == Filed(m, k)
                       + (if BaseMint(ctx, accs[i]) == k then [BaseEntry(ctx, accs[i])] else [])
                       + (if QuoteMint(ctx, accs[i]) == k then [QuoteEntry(ctx, accs[i])] else [])
    ensures Files(ctx, accs[..i + 1], r)
  {
    MintsStep(ctx, accs, i);
    forall k | k in r
      ensures r[k] == EntriesFor(ctx, accs[..i + 1], k)
    {
      EntriesStep(ctx, accs, i, k);
      if k !in m {
        EntriesOutsideMints(ctx, accs[..i], k);
      }
    }
  }

  lemma MintsStep(ctx: Context, accs: seq<OpenOrdersAccount>, i: nat)
    requires i < |accs|
    ensures MintsOf(ctx, accs[..i + 1]) == MintsOf(ctx, accs[..i]) + {BaseMint(ctx, accs[i]), QuoteMint(ctx, accs[i])}
  {
    assert accs[..i + 1] == accs[..i] + [accs[i]];
  }

  lemma EntriesStep(ctx: Context, accs: seq<OpenOrdersAccount>, i: nat, k: string)
    requires i < |accs|
    ensures EntriesFor(ctx, accs[..i + 1], k) == EntriesFor(ctx, accs[..i], k)
              + (if BaseMint(ctx, accs[i]) == k then [BaseEntry(ctx, accs[i])] else [])
              + (if QuoteMint(ctx, accs[i]) == k then [QuoteEntry(ctx, accs[i])] else [])
  {
    assert accs[..i + 1][..i] == accs[..i];
  }

  /** A mint no account files under has no records. */
  lemma {:induction false} EntriesOutsideMints(ctx: Context, accs: seq<OpenOrdersAccount>, k: string)
    requires k !in MintsOf(ctx, accs)
    ensures EntriesFor(ctx, accs, k) == []
  {
    if |accs| > 0 {
      var init := accs[..|accs| - 1];
      assert accs[|accs| - 1] in accs;
      EntriesOutsideMints(ctx, init, k);
      assert MintsOf(ctx, init) <= MintsOf(ctx, accs) by {
        assert forall a :: a in init ==> a in accs;
      }
    }
  }

  /** Records are never merged: the list under a mint has one record per account whose base mint it
      is plus one per account whose quote mint it is. */
  lemma {:induction false} EntriesCount(ctx: Context, accs: seq<OpenOrdersAccount>, k: string)
    ensures |EntriesFor(ctx, accs, k)| ==
            |Filter(accs, (a: OpenOrdersAccount) => BaseMint(ctx, a) == k)| + |Filter(accs, (a: OpenOrdersAccount) => QuoteMint(ctx, a) == k)|
  {
    if |accs| > 0 {
      var init, last := accs[..|accs| - 1], accs[|accs| - 1];
      assert accs == init + [last];
      EntriesCount(ctx, init, k);
      FilterAppend(init, [last], (a: OpenOrdersAccount) => BaseMint(ctx, a) == k);
      FilterAppend(init, [last], (a: OpenOrdersAccount) => QuoteMint(ctx, a) == k);
    }
  }

  /** Every account files its base record under its base mint and its quote record under its quote mint. */
  lemma {:induction false} EveryAccountListed(ctx: Context, accs: seq<OpenOrdersAccount>, i: nat)
    requires i < |accs|
    ensures BaseEntry(ctx, accs[i]) in EntriesFor(ctx, accs, BaseMint(ctx, accs[i]))
    ensures QuoteEntry(ctx, accs[i]) in EntriesFor(ctx, accs, QuoteMint(ctx, accs[i]))
  {
    var init := accs[..|accs| - 1];
    if i < |accs| - 1 {
      EveryAccountListed(ctx, init, i);
      assert init[i] == accs[i];
    }
  }

  /** A wallet balance: one per mint. */
  datatype MintBalance = MintBalance(mint: string, balance: real)

  /** The token data of an account that has data: for a wrapped-SOL account its mint is the
      wrapped-SOL mint and its amount is the account's lamports; otherwise the decoded data. */
  function ParsedAccount(a: TokenAccount): (t: TokenData)
    requires a.account.Some?
    ensures a.effectiveMint == WrappedSolMint ==> t == TokenData(WrappedSolMint, a.pubkey, a.account.value.lamports)
    ensures a.effectiveMint != WrappedSolMint ==> t == a.account.value.data
  {
    if a.effectiveMint == WrappedSolMint then TokenData(WrappedSolMint, a.pubkey, a.account.value.lamports)
    else a.account.value.data
  }

  /** The mints of the accounts that have data, in account order, with repetitions. */
  function CountedMints(accs: seq<TokenAccount>): seq<string> {
    if |accs| == 0 then []
    else
      var last := accs[|accs| - 1];
      CountedMints(accs[..|accs| - 1]) + (if last.account.Some? then [ParsedAccount(last).mint.base58] else [])
  }

  /** The sum of the scaled amounts of the accounts with data whose mint is `k`. */
  function MintTotal(mintInfos: Option<map<string, MintInfo>>, accs: seq<TokenAccount>, k: string): real {
    if |accs| == 0 then 0.0
    else
      var last := accs[|accs| - 1];
      MintTotal(mintInfos, accs[..|accs| - 1], k)
      + (if last.account.Some? && ParsedAccount(last).mint.base58 == k
         then Scale(ParsedAccount(last).amount, DecimalsOf(mintInfos, k)) else 0.0)
  }

  /** `useWalletBalancesForAllMarkets`: `[]` when not connected or the mint infos are not loaded;
      otherwise one balance per mint of an account with data, in order of first appearance, holding
      the sum over that mint's accounts. */
  method WalletBalancesForAllMarkets(tokenAccounts: Option<seq<TokenAccount>>, connected: bool,
                                     mintInfos: Option<map<string, MintInfo>>, mintInfosConnected: bool)
    returns (r: seq<MintBalance>)
    ensures !connected || !mintInfosConnected ==> r == []
    ensures connected && mintInfosConnected ==>
              var accs := tokenAccounts.GetOr([]);
              var mints := Distinct(CountedMints(accs));
              && |r| == |mints|
              && forall i :: 0 <= i < |r| ==> r[i] == MintBalance(mints[i], MintTotal(mintInfos, accs, mints[i]))
  {
    if !connected || !mintInfosConnected {
      return [];
    }
    var accs := tokenAccounts.GetOr([]);
    var balances: map<string, real> := map[];
    var order: seq<string> := [];
    for i := 0 to |accs|
      invariant order == Distinct(CountedMints(accs[..i]))
      invariant forall k :: k in balances <==> k in order
      invariant forall k :: k in balances ==> balances[k] == MintTotal(mintInfos, accs[..i], k)
    {
      var account := accs[i];
      assert accs[..i + 1] == accs[..i] + [account];
      assert accs[..i + 1][..i] == accs[..i];
      if account.account.None? {
        forall k ensures MintTotal(mintInfos, accs[..i + 1], k) == MintTotal(mintInfos, accs[..i], k) {
          MintTotalSnoc(mintInfos, accs[..i], account, k);
        }
        assert CountedMints(accs[..i + 1]) == CountedMints(accs[..i]);
        continue;
      }
      var parsed := ParsedAccount(account);
      var mint := parsed.mint.base58;
      ghost var mints := CountedMints(accs[..i + 1]);
      assert mints == CountedMints(accs[..i]) + [mint];
      assert mints[..|mints| - 1] == CountedMints(accs[..i]);
      if mint !in balances {
        CountedMintsMembers(accs[..i]);
        MintTotalAbsent(mintInfos, accs[..i], mint);
        balances := balances[mint := 0.0];
        order := order + [mint];
      }
      var additionalAmount := Scale(parsed.amount, DecimalsOf(mintInfos, mint));
      ghost var before := balances;
      balances := balances[mint := balances[mint] + additionalAmount];
      forall k | k in balances
        ensures balances[k] == MintTotal(mintInfos, accs[..i + 1], k)
      {
        MintTotalSnoc(mintInfos, accs[..i], account, k);
      }
    }
    assert accs[..|accs|] == accs;
    r := seq(|order|, j requires 0 <= j < |order| => MintBalance(order[j], balances[order[j]]));
  }

  /** A mint has a wallet balance exactly when some account with data holds it, and it has one only. */
  lemma {:induction false} CountedMintsMembers(accs: seq<TokenAccount>)
    ensures NoDuplicates(Distinct(CountedMints(accs)))
    ensures forall k :: k in Distinct(CountedMints(accs)) <==>
      exists i :: 0 <= i < |accs| && accs[i].account.Some? && ParsedAccount(accs[i]).mint.base58 == k
  {
    if |accs| > 0 {
      var init := accs[..|accs| - 1];
      CountedMintsMembers(init);
      assert forall i :: 0 <= i < |init| ==> init[i] == accs[i];
    }
  }

  /** One more account adds its scaled amount to its own mint's total and nothing to any other. */
  lemma MintTotalSnoc(mintInfos: Option<map<string, MintInfo>>, accs: seq<TokenAccount>, t: TokenAccount, k: string)
    ensures MintTotal(mintInfos, accs + [t], k) == MintTotal(mintInfos, accs, k)
            + (if t.account.Some? && ParsedAccount(t).mint.base58 == k then Scale(ParsedAccount(t).amount, DecimalsOf(mintInfos, k)) else 0.0)
  {
    assert (accs + [t])[..|accs|] == accs;
  }

  /** A wrapped-SOL account with data adds its lamports, scaled by the wrapped-SOL mint's decimals, to
      the wrapped-SOL total, and leaves every other mint's total alone, whatever its token data says. */
  lemma WrappedSolCountsLamports(mintInfos: Option<map<string, MintInfo>>, accs: seq<TokenAccount>, t: TokenAccount, k: string)
    requires t.account.Some? && t.effectiveMint == WrappedSolMint
    ensures MintTotal(mintInfos, accs + [t], WrappedSolMint.base58)
            == MintTotal(mintInfos, accs, WrappedSolMint.base58) + Scale(t.account.value.lamports, DecimalsOf(mintInfos, WrappedSolMint.base58))
    ensures k != WrappedSolMint.base58 ==> MintTotal(mintInfos, accs + [t], k) == MintTotal(mintInfos, accs, k)
  {
    MintTotalSnoc(mintInfos, accs, t, WrappedSolMint.base58);
    MintTotalSnoc(mintInfos, accs, t, k);
  }

  /** An account whose mint has no metadata adds its raw amount to that mint's total: its decimals are
      taken as 0. */
  lemma UnknownMintSumsRaw(mintInfos: Option<map<string, MintInfo>>, accs: seq<TokenAccount>, t: TokenAccount)
    requires t.account.Some?
    requires mintInfos.None? || ParsedAccount(t).mint.base58 !in mintInfos.value
    ensures MintTotal(mintInfos, accs + [t], ParsedAccount(t).mint.base58)
            == MintTotal(mintInfos, accs, ParsedAccount(t).mint.base58) + ParsedAccount(t).amount as real
  {
    MintTotalSnoc(mintInfos, accs, t, ParsedAccount(t).mint.base58);
  }

  /** A mint that no account with data holds sums to nothing. */
  lemma {:induction false} MintTotalAbsent(mintInfos: Option<map<string, MintInfo>>, accs: seq<TokenAccount>, k: string)
    requires forall i :: 0 <= i < |accs| && accs[i].account.Some? ==> ParsedAccount(accs[i]).mint.base58 != k
    ensures MintTotal(mintInfos, accs, k) == 0.0
  {
    if |accs| > 0 {
      var init := accs[..|accs| - 1];
      assert forall i :: 0 <= i < |init| ==> init[i] == accs[i];
      MintTotalAbsent(mintInfos, init, k);
    }
  }
}
