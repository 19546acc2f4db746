/** Open-orders accounts left on deprecated market programs (`getUnmigratedOpenOrdersAccounts` in
    src/utils/markets.tsx). The SDK's `OpenOrders.findForOwner` is a function parameter. */
module OpenOrders {
  import opened Wrappers
  import opened Keys
  import opened Seqs
  import opened Registry

  /** An on-chain open-orders account; token amounts are raw integer units. */
  datatype OpenOrdersAccount = OpenOrdersAccount(
    address: PublicKey,
    market: PublicKey,
    owner: PublicKey,
    baseTokenFree: nat,
    baseTokenTotal: nat,
    quoteTokenFree: nat,
    quoteTokenTotal: nat)

  /** What one `findForOwner(connection, owner, programId)` call yields: the accounts, or a thrown error. */
  datatype FindResult = Found(accounts: seq<OpenOrdersAccount>) | Failed(message: string)

  datatype Wallet = Wallet(publicKey: Option<PublicKey>)

  /** The distinct program IDs of deprecated registry entries, deduplicated by base58 text in order
      of first occurrence, then turned back into keys. */
  function DeprecatedProgramIds(useMarkets: seq<MarketInfo>): seq<PublicKey> {
    var texts := Map(Filter(useMarkets, (m: MarketInfo) => m.deprecated), (m: MarketInfo) => m.programId.base58);
    Map(Distinct(texts), (s: string) => PublicKey(s))
  }

  /** Each deprecated program ID appears exactly once, and nothing else appears. */
  lemma DeprecatedProgramIdsSpec(useMarkets: seq<MarketInfo>)
    ensures NoDuplicates(DeprecatedProgramIds(useMarkets))
    ensures forall k :: k in DeprecatedProgramIds(useMarkets) <==> exists m :: m in useMarkets && m.deprecated && m.programId == k
  {
    var deprecated := Filter(useMarkets, (m: MarketInfo) => m.deprecated);
    var texts := Map(deprecated, (m: MarketInfo) => m.programId.base58);
    var d := Distinct(texts);
    var ids := DeprecatedProgramIds(useMarkets);
    assert |ids| == |d| && forall i :: 0 <= i < |d| ==> ids[i] == PublicKey(d[i]);
    forall k ensures k in ids <==> exists m :: m in useMarkets && m.deprecated && m.programId == k {
      if k in ids {
        var i :| 0 <= i < |ids| && ids[i] == k;
        assert d[i] in texts;
        var j :| 0 <= j < |texts| && texts[j] == d[i];
        assert deprecated[j] in deprecated;
      }
      if exists m :: m in useMarkets && m.deprecated && m.programId == k {
        var m :| m in useMarkets && m.deprecated && m.programId == k;
        assert m in deprecated;
        var j :| 0 <= j < |deprecated| && deprecated[j] == m;
        assert texts[j] == k.base58;
        assert k.base58 in d;
        var i :| 0 <= i < |d| && d[i] == k.base58;
        assert ids[i] == k;
      }
    }
  }

  /** `baseTokenTotal.toNumber() || quoteTokenTotal.toNumber()`: something is left to settle. */
  predicate Unsettled(o: OpenOrdersAccount) {
    o.baseTokenTotal != 0 || o.quoteTokenTotal != 0
  }

  /** The account's market is the address of some deprecated registry entry. */
  predicate OnDeprecatedMarket(o: OpenOrdersAccount, useMarkets: seq<MarketInfo>) {
    exists m :: m in useMarkets && m.deprecated && m.address == o.market
  }

  /** The two filters applied to the accounts found under one program ID. */
  function Kept(found: seq<OpenOrdersAccount>, useMarkets: seq<MarketInfo>): seq<OpenOrdersAccount> {
    Filter(Filter(found, Unsettled), (o: OpenOrdersAccount) => OnDeprecatedMarket(o, useMarkets))
  }

  /** What one program ID adds to the result: nothing when its query failed. */
  function Contribution(r: FindResult, useMarkets: seq<MarketInfo>): seq<OpenOrdersAccount> {
    match r
    case Found(found) => Kept(found, useMarkets)
    case Failed(_) => []
  }

  /** What each program ID contributes, for a fixed owner and registry. */
  function Contributor(owner: PublicKey, findForOwner: (PublicKey, PublicKey) -> FindResult, useMarkets: seq<MarketInfo>)
    : PublicKey -> seq<OpenOrdersAccount>
  {
    id => Contribution(findForOwner(owner, id), useMarkets)
  }

  /** The result of querying `ids` in order and concatenating their contributions. */
  function Gathered(ids: seq<PublicKey>, owner: PublicKey, findForOwner: (PublicKey, PublicKey) -> FindResult,
                    useMarkets: seq<MarketInfo>): seq<OpenOrdersAccount>
  {
    ConcatMap(ids, Contributor(owner, findForOwner, useMarkets))
  }

  /** `getUnmigratedOpenOrdersAccounts`. Besides the accounts it returns the program IDs it queried,
      in order: the calls it makes to `findForOwner`. */
  method GetUnmigratedOpenOrdersAccounts(wallet: Option<Wallet>, connected: bool, useMarkets: seq<MarketInfo>,
                                         findForOwner: (PublicKey, PublicKey) -> FindResult)
    returns (accounts: seq<OpenOrdersAccount>, queried: seq<PublicKey>)
    ensures wallet.None? || !connected || wallet.value.publicKey.None? ==> accounts == [] && queried == []
    ensures wallet.Some? && connected && wallet.value.publicKey.Some? ==>
              && queried == DeprecatedProgramIds(useMarkets)
              && accounts == Gathered(queried, wallet.value.publicKey.value, findForOwner, useMarkets)
  {
    if wallet.None? || !connected || wallet.value.publicKey.None? {
      return [], [];
    }
    var owner := wallet.value.publicKey.value;
    var deprecatedProgramIds := DeprecatedProgramIds(useMarkets);
    ghost var contributor := Contributor(owner, findForOwner, useMarkets);
    accounts, queried := [], [];
    for i := 0 to |deprecatedProgramIds|
      invariant queried == deprecatedProgramIds[..i]
      invariant accounts == ConcatMap(queried, contributor)
    {
      var programId := deprecatedProgramIds[i];
      var found := findForOwner(owner, programId);
      ConcatMapSnoc(queried, programId, contributor);
      assert contributor(programId) == Contribution(found, useMarkets);
      queried := queried + [programId];
      match found {
        case Found(openOrdersAccounts) =>
          accounts := accounts + Kept(openOrdersAccounts, useMarkets);
        case Failed(_) =>
      }
    }
    assert queried == deprecatedProgramIds;
  }

  /** Gathering distributes over the list of program IDs. */
  lemma GatheredAppend(a: seq<PublicKey>, b: seq<PublicKey>, owner: PublicKey,
                       findForOwner: (PublicKey, PublicKey) -> FindResult, useMarkets: seq<MarketInfo>)
    ensures Gathered(a + b, owner, findForOwner, useMarkets)
            == Gathered(a, owner, findForOwner, useMarkets) + Gathered(b, owner, findForOwner, useMarkets)
  {
    ConcatMapAppend(a, b, Contributor(owner, findForOwner, useMarkets));
  }

  /** A program ID whose query fails contributes nothing, and the accounts gathered from the other
      IDs, before and after it, are all kept. */
  lemma FailureIsSkipped(a: seq<PublicKey>, id: PublicKey, b: seq<PublicKey>, owner: PublicKey,
                         findForOwner: (PublicKey, PublicKey) -> FindResult, useMarkets: seq<MarketInfo>)
    requires findForOwner(owner, id).Failed?
    ensures Gathered(a + [id] + b, owner, findForOwner, useMarkets)
            == Gathered(a, owner, findForOwner, useMarkets) + Gathered(b, owner, findForOwner, useMarkets)
  {
    var contributor := Contributor(owner, findForOwner, useMarkets);
    ConcatMapSnoc(a, id, contributor);
    assert contributor(id) == [];
    assert ConcatMap(a + [id], contributor) == ConcatMap(a, contributor);
    ConcatMapAppend(a + [id], b, contributor);
  }

  /** An account is returned exactly when some queried program ID found it, it has something left to
      settle and its market is a deprecated registry entry. */
  lemma GatheredMembers(ids: seq<PublicKey>, owner: PublicKey,
                        findForOwner: (PublicKey, PublicKey) -> FindResult, useMarkets: seq<MarketInfo>)
    ensures forall o :: o in Gathered(ids, owner, findForOwner, useMarkets) <==>
      && Unsettled(o) && OnDeprecatedMarket(o, useMarkets)
      && exists i :: 0 <= i < |ids| && findForOwner(owner, ids[i]).Found? && o in findForOwner(owner, ids[i]).accounts
  {
    var contributor := Contributor(owner, findForOwner, useMarkets);
    ConcatMapMembers(ids, contributor);
    forall o
      ensures (exists i :: 0 <= i < |ids| && o in contributor(ids[i])) <==>
              && Unsettled(o) && OnDeprecatedMarket(o, useMarkets)
              && exists i :: 0 <= i < |ids| && findForOwner(owner, ids[i]).Found? && o in findForOwner(owner, ids[i]).accounts
    {
      forall i | 0 <= i < |ids|
        ensures o in contributor(ids[i]) <==>
                Unsettled(o) && OnDeprecatedMarket(o, useMarkets) && findForOwner(owner, ids[i]).Found? && o in findForOwner(owner, ids[i]).accounts
      {
        var r := findForOwner(owner, ids[i]);
        assert contributor(ids[i]) == Contribution(r, useMarkets);
        if r.Found? {
          assert o in Kept(r.accounts, useMarkets) <==> o in Filter(r.accounts, Unsettled) && OnDeprecatedMarket(o, useMarkets);
        }
      }
    }
  }

  /** The result of `getUnmigratedOpenOrdersAccounts` holds only unsettled accounts on deprecated markets. */
  lemma UnmigratedAreDeprecatedAndUnsettled(wallet: Option<Wallet>, connected: bool, useMarkets: seq<MarketInfo>,
                                            findForOwner: (PublicKey, PublicKey) -> FindResult, o: OpenOrdersAccount)
    requires wallet.Some? && wallet.value.publicKey.Some?
    requires o in Gathered(DeprecatedProgramIds(useMarkets), wallet.value.publicKey.value, findForOwner, useMarkets)
    ensures Unsettled(o) && OnDeprecatedMarket(o, useMarkets)
  {
    GatheredMembers(DeprecatedProgramIds(useMarkets), wallet.value.publicKey.value, findForOwner, useMarkets);
  }
}
