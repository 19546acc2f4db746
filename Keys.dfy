/** Solana public keys, identified by their base58 text. */
module Keys {
  import opened Wrappers

  /** A public key; two keys are equal (`PublicKey.equals`) exactly when their base58 forms are. */
  datatype PublicKey = PublicKey(base58: string)

  const Base58Alphabet: string := "123456789ABCDEFGHJKLMNPQRSTUVWXYZabcdefghijkmnopqrstuvwxyz"

  predicate IsBase58(s: string) {
    forall i :: 0 <= i < |s| ==> s[i] in Base58Alphabet
  }

  /** `new PublicKey(s)` for a string: throws on text that is not base58. */
  function ParsePublicKey(s: string): (r: Option<PublicKey>)
    ensures r.Some? <==> IsBase58(s)
    ensures r.Some? ==> r.value.base58 == s
  {
    if IsBase58(s) then Some(PublicKey(s)) else None
  }

  /** The SPL token program's wrapped-SOL mint. */
  const WrappedSolMint: PublicKey := PublicKey("So11111111111111111111111111111111111111112")
}
