/**
  Issuer keys and FAEST signatures. FAEST is a parameter: a record of functions
  about which a theorem assumes at most that honest signatures verify, and that a
  signature presented in the run at hand is over a message the key holder signed.
 */
module Keys {
  import opened Encoding

  /** The published key; `alg` is a constant of the program and is not repeated. */
  datatype IssuerPublicKey = IssuerPublicKey(keyVersion: u32, key: Bytes)

  /** `token_key_id`: the hash of the key bytes. */
  function TokenKeyId(h: Hash, pk: IssuerPublicKey): Digest { h(pk.key) }

  datatype Faest = Faest(
    keyOk: Digest -> bool,
    verify: (Digest, Bytes, Bytes) -> bool,
    sign: (Bytes, Bytes) -> Bytes,
    public: Bytes -> Digest)
  {
    /** Honest signatures verify under the signer's public key. */
    ghost predicate Correct() {
      forall sk: Bytes, m: Bytes :: keyOk(public(sk)) && verify(public(sk), m, sign(sk, m))
    }

    /** If this signature passes, the key holder has signed this message. */
    ghost predicate Unforged(pub: Digest, message: Bytes, sig: Bytes, signed: set<Bytes>) {
      verify(pub, message, sig) ==> message in signed
    }
  }
}
