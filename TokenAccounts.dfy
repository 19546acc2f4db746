/** Wallet token accounts and the choice of the account to trade from (src/utils/markets.tsx). */
module TokenAccounts {
  import opened Wrappers
  import opened Keys
  import opened Seqs

  /** What `parseTokenAccountData` decodes from an SPL token account's data. */
  datatype TokenData = TokenData(mint: PublicKey, owner: PublicKey, amount: nat)

  /** The on-chain account behind a token account; its data is carried already decoded. */
  datatype AccountInfo = AccountInfo(lamports: nat, data: TokenData)

  datatype TokenAccount = TokenAccount(pubkey: PublicKey, effectiveMint: PublicKey, account: Option<AccountInfo>)

  /** The optional `selectedPubKey` argument: absent (`null`/`undefined`), a string, or a key object. */
  datatype SelectedKey = NoSelection | KeyString(text: string) | KeyObject(key: PublicKey)

  /** The three outcomes of `getSelectedTokenAccountForMint`: `null`, `undefined`, or an account. */
  datatype Selection = NoInput | NoMatch | Selected(account: TokenAccount)

  /** The filter condition: the account holds `mint` and, when a non-empty selection is given,
      its key's base58 equals the selection's. An empty string is falsy, so it selects nothing. */
  predicate Matches(a: TokenAccount, mint: PublicKey, selected: SelectedKey) {
    && a.effectiveMint == mint
    && match selected
       case NoSelection => true
       case KeyString(s) => s == "" || s == a.pubkey.base58
       case KeyObject(k) => k.base58 == a.pubkey.base58
  }

  /** `getSelectedTokenAccountForMint`: `null` without accounts or mint; otherwise the first matching
      account, or `undefined` when none matches. */
  function SelectedTokenAccountForMint(accounts: Option<seq<TokenAccount>>, mint: Option<PublicKey>, selected: SelectedKey): (r: Selection)
    ensures r.NoInput? <==> accounts.None? || mint.None?
    ensures r.NoMatch? <==>
              && accounts.Some? && mint.Some?
              && forall i :: 0 <= i < |accounts.value| ==> !Matches(accounts.value[i], mint.value, selected)
    ensures r.Selected? ==>
              exists i :: && 0 <= i < |accounts.value| && accounts.value[i] == r.account
                          && Matches(r.account, mint.value, selected)
                          && forall j :: 0 <= j < i ==> !Matches(accounts.value[j], mint.value, selected)
  {
    if accounts.None? || mint.None? then NoInput
    else
      var p := (a: TokenAccount) => Matches(a, mint.value, selected);
      var filtered := Filter(accounts.value, p);
      FilterHead(accounts.value, p);
      if |filtered| == 0 then NoMatch else Selected(filtered[0])
  }
}
