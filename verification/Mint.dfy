/**
  Blind issuance: the client's two steps, the issuer's signing step, the channel
  binding over a blinded batch, and token verification (pomfrit/src/lib.rs,
  core/src/lib.rs). PoMFRIT is a parameter with one law.
 */
module Mint {
  import opened Encoding
  import opened Keys
  import opened Wire

  datatype Blinding = Blinding(message: Bytes, state: Bytes, r: Digest)
  datatype Unblinding = Unblinding(proof: Bytes, r: Digest)

  /**
    The scheme's four steps. The last argument of each signing step is its
    randomness, and `r` is the buffer that each step may rewrite.
   */
  datatype Pomfrit = Pomfrit(
    expand: Bytes -> Bytes,
    sign1: (Bytes, Digest, Bytes) -> Blinding,
    sign2: (Bytes, Bytes, Bytes) -> Bytes,
    sign3: (Bytes, Bytes, Bytes, Bytes, Digest, Bytes) -> Unblinding,
    verify: (Bytes, Bytes, Bytes, Digest) -> bool)
  {
    /** One honest exchange over message `m` ends in a non-empty proof that verifies on `m`. */
    ghost predicate ExchangeVerifies(pk: Bytes, sk: Bytes, m: Bytes, r: Digest, c1: Bytes, c2: Bytes, c3: Bytes) {
      var b := sign1(m, r, c1);
      var u := sign3(pk, expand(pk), sign2(sk, b.message, c2), b.state, b.r, c3);
      |u.proof| > 0 && verify(expand(pk), m, u.proof, u.r)
    }

    /** The scheme's law for one key pair. */
    ghost predicate Lawful(pk: Bytes, sk: Bytes) {
      forall m, r, c1, c2, c3 :: ExchangeVerifies(pk, sk, m, r, c1, c2, c3)
    }
  }

  // ---- Channel binding ----

  const BINDING_DOMAIN: Bytes := Ascii("eat-pass/binding\0")

  function Item(b: Bytes): Bytes { BE(AsU32(|b|), 4) + b }

  function Items(blinded: seq<Bytes>): Bytes {
    if |blinded| == 0 then [] else Item(blinded[0]) + Items(blinded[1..])
  }

  function BindingPreimage(blinded: seq<Bytes>): Bytes {
    BINDING_DOMAIN + BE(AsU32(|blinded|), 4) + Items(blinded)
  }

  /** `binding_of`: feeds the hasher item by item. */
  method BindingOf(h: Hash, blinded: seq<Bytes>) returns (binding: Digest)
    ensures binding == h(BindingPreimage(blinded))
  {
    hide BE, Ascii;
    var fed := BINDING_DOMAIN + BE(AsU32(|blinded|), 4);
    ghost var opening := fed;
    for k := 0 to |blinded|
      invariant fed == opening + Items(blinded[..k])
    {
      ItemsSnoc(blinded[..k], blinded[k]);
      assert blinded[..k] + [blinded[k]] == blinded[..k + 1];
      ghost var before := fed;
      fed := fed + BE(AsU32(|blinded[k]|), 4) + blinded[k];
      assert fed == before + Item(blinded[k]);
      Associates(opening, Items(blinded[..k]), Item(blinded[k]));
    }
    assert blinded[..|blinded|] == blinded;
    binding := h(fed);
  }

  lemma {:induction false} ItemsSnoc(front: seq<Bytes>, last: Bytes)
    ensures Items(front + [last]) == Items(front) + Item(last)
  {
    if |front| > 0 {
      ItemsSnoc(front[1..], last);
      assert (front + [last])[1..] == front[1..] + [last];
    }
  }

  /** Every item is shorter than 2^32 bytes; there may be any number of items. */
  ghost predicate Short(blinded: seq<Bytes>) {
    forall i :: 0 <= i < |blinded| ==> |blinded[i]| <= U32_MAX
  }

  /** A length-prefixed item says where it ends. */
  lemma ItemSplits(x: Bytes, p: Bytes, y: Bytes, q: Bytes)
    requires |x| <= U32_MAX && |y| <= U32_MAX
    requires Item(x) + p == Item(y) + q
    ensures x == y && p == q
  {
    hide BE;
    assert Item(x) + p == BE(|x|, 4) + (x + p);
    assert Item(y) + q == BE(|y|, 4) + (y + q);
    SameSplit(BE(|x|, 4), x + p, BE(|y|, 4), y + q);
    Widths();
    BEInjective(|x|, |y|, 4);
    SameSplit(x, p, y, q);
  }

  lemma {:induction false} ItemsInjective(a: seq<Bytes>, b: seq<Bytes>)
    requires Short(a) && Short(b)
    requires Items(a) == Items(b)
    ensures a == b
  {
    hide BE;
    if |a| > 0 && |b| > 0 {
      ItemSplits(a[0], Items(a[1..]), b[0], Items(b[1..]));
      ItemsInjective(a[1..], b[1..]);
      assert a == [a[0]] + a[1..] && b == [b[0]] + b[1..];
    }
  }

  /**
    The nested layout of a blinded batch can be read back in one way only. The
    number of items is free: its truncated prefix may wrap, but the items say where
    they end.
   */
  lemma BindingInjective(a: seq<Bytes>, b: seq<Bytes>)
    requires Short(a) && Short(b)
    requires BindingPreimage(a) == BindingPreimage(b)
    ensures a == b
  {
    SameItems(a, b);
    ItemsInjective(a, b);
  }

  lemma SameItems(a: seq<Bytes>, b: seq<Bytes>)
    requires BindingPreimage(a) == BindingPreimage(b)
    ensures Items(a) == Items(b)
  {
    hide Items, BE, Ascii;
    SameSplit(BINDING_DOMAIN + BE(AsU32(|a|), 4), Items(a), BINDING_DOMAIN + BE(AsU32(|b|), 4), Items(b));
  }

  function Zeros(n: nat): (z: Bytes)
    ensures |z| == n
  {
    seq(n, _ => 0)
  }

  lemma ZeroPrefix()
    ensures BE(0, 4) == Zeros(4)
  {
    assert BE(0, 4) == [0, 0, 0, 0];
  }

  lemma PairItems(x: Bytes, y: Bytes)
    ensures Items([x, y]) == Item(x) + Item(y)
  {
    assert [x, y][1..] == [y] && [y][1..] == [];
    assert Items([y]) == Item(y) + Items([]) == Item(y);
  }

  /**
    One item of 2^32 bytes is enough for two batches of two items to share their
    layout, hence their binding.
   */
  lemma BindingAmbiguousBeyond()
    ensures var z := Zeros(0x1_0000_0000);
            [z, []] != [[], z] && BindingPreimage([z, []]) == BindingPreimage([[], z])
  {
    hide Ascii, BE, Items;
    var z := Zeros(0x1_0000_0000);
    ZeroPrefix();
    PairItems(z, []);
    PairItems([], z);
    assert Item(z) + Item([]) == Zeros(0x1_0000_0008) == Item([]) + Item(z);
    assert [z, []][0] != [[], z][0];
  }

  /** At most `count` items of at most `size` bytes each. */
  ghost predicate Within(blinded: seq<Bytes>, count: nat, size: nat) {
    |blinded| <= count && forall i :: 0 <= i < |blinded| ==> |blinded[i]| <= size
  }

  /** A batch of at most one item, of any size, is determined by its layout. */
  lemma SingleItem(a: seq<Bytes>, b: seq<Bytes>)
    requires |a| <= 1 && |b| <= 1 && Items(a) == Items(b)
    ensures a == b
  {
    hide BE;
    assert |a| == 1 ==> Items(a) == Item(a[0]);
    assert |b| == 1 ==> Items(b) == Item(b[0]);
    if |a| == 1 && |b| == 1 {
      SameSplit(BE(AsU32(|a[0]|), 4), a[0], BE(AsU32(|b[0]|), 4), b[0]);
    }
  }

  /**
    The exact bounds within which the layout of a batch determines the batch: items
    shorter than 2^32 bytes, in any number, or one item at most, of any size.
   */
  lemma BindingInjectiveIff(count: nat, size: nat)
    ensures (forall a, b ::
               (Within(a, count, size) && Within(b, count, size) && BindingPreimage(a) == BindingPreimage(b))
               ==> a == b)
       <==> size <= U32_MAX || count <= 1
  {
    hide BindingPreimage, Items;
    if size <= U32_MAX || count <= 1 {
      forall a, b | Within(a, count, size) && Within(b, count, size) && BindingPreimage(a) == BindingPreimage(b)
        ensures a == b
      {
        SameItems(a, b);
        if size <= U32_MAX {
          ItemsInjective(a, b);
        } else {
          SingleItem(a, b);
        }
      }
    } else {
      BindingAmbiguousBeyond();
      var z := Zeros(0x1_0000_0000);
      assert Within([z, []], count, size) && Within([[], z], count, size);
    }
  }

  // ---- Requests ----

  datatype SignRequest = SignRequest(
    tokenChallenge: TokenChallenge, keyVersion: u32, blinded: seq<Bytes>, binding: Digest)

  datatype PendingItem = PendingItem(state: Bytes, nonce: Digest, r: Digest)

  datatype PendingMint = PendingMint(
    pk: Bytes, challengeDigest: Digest, tokenKeyId: Digest, items: seq<PendingItem>)

  /** The randomness the client draws for one token. */
  datatype Coins = Coins(nonce: Digest, r: Digest, blind: Bytes)

  function TokenInput(nonce: Digest, challengeDigest: Digest, tokenKeyId: Digest): Bytes {
    BE(TOKEN_TYPE, 2) + nonce + challengeDigest + tokenKeyId
  }

  /** The message that a token's proof is about. */
  function MessageOf(t: SpendToken): Bytes { TokenInput(t.nonce, t.challengeDigest, t.tokenKeyId) }

  /** The signed message of a token determines its nonce, its challenge and its key. */
  lemma TokenInputInjective(n1: Digest, d1: Digest, k1: Digest, n2: Digest, d2: Digest, k2: Digest)
    requires TokenInput(n1, d1, k1) == TokenInput(n2, d2, k2)
    ensures n1 == n2 && d1 == d2 && k1 == k2
  {
    hide BE;
    var t := BE(TOKEN_TYPE, 2);
    SameSplit(t + n1 + d1, k1, t + n2 + d2, k2);
    SameSplit(t + n1, d1, t + n2, d2);
    SameSplit(t, n1, t, n2);
  }

  /** The blinding of one token. */
  function BlindOne(p: Pomfrit, tokenKeyId: Digest, challengeDigest: Digest, c: Coins): Blinding {
    p.sign1(TokenInput(c.nonce, challengeDigest, tokenKeyId), c.r, c.blind)
  }

  function Blinded(p: Pomfrit, tokenKeyId: Digest, challengeDigest: Digest, coins: seq<Coins>): seq<Bytes> {
    seq(|coins|, i requires 0 <= i < |coins| =>
      BlindOne(p, tokenKeyId, challengeDigest, coins[i]).message)
  }

  function PendingItems(p: Pomfrit, tokenKeyId: Digest, challengeDigest: Digest, coins: seq<Coins>)
    : seq<PendingItem>
  {
    seq(|coins|, i requires 0 <= i < |coins| =>
      var b := BlindOne(p, tokenKeyId, challengeDigest, coins[i]);
      PendingItem(b.state, coins[i].nonce, b.r))
  }

  /** What `Client::begin` produces for one token per element of `coins`. */
  function Begun(h: Hash, p: Pomfrit, pk: IssuerPublicKey, c: TokenChallenge, coins: seq<Coins>)
    : (SignRequest, PendingMint)
  {
    var digest, id := ChallengeDigest(h, c), TokenKeyId(h, pk);
    var blinded := Blinded(p, id, digest, coins);
    (SignRequest(c, pk.keyVersion, blinded, h(BindingPreimage(blinded))),
     PendingMint(pk.key, digest, id, PendingItems(p, id, digest, coins)))
  }

  method ClientBegin(h: Hash, p: Pomfrit, pk: IssuerPublicKey, c: TokenChallenge, coins: seq<Coins>)
    returns (req: SignRequest, pending: PendingMint)
    ensures (req, pending) == Begun(h, p, pk, c, coins)
  {
    var digest, id := ChallengeDigest(h, c), TokenKeyId(h, pk);
    var blinded: seq<Bytes> := [];
    var items: seq<PendingItem> := [];
    for k := 0 to |coins|
      invariant |blinded| == |items| == k
      invariant forall i :: 0 <= i < k ==>
                  blinded[i] == BlindOne(p, id, digest, coins[i]).message
      invariant forall i :: 0 <= i < k ==>
                  items[i] == PendingItem(BlindOne(p, id, digest, coins[i]).state, coins[i].nonce,
                                          BlindOne(p, id, digest, coins[i]).r)
    {
      var b := p.sign1(TokenInput(coins[k].nonce, digest, id), coins[k].r, coins[k].blind);
      blinded := blinded + [b.message];
      items := items + [PendingItem(b.state, coins[k].nonce, b.r)];
    }
    assert blinded == Blinded(p, id, digest, coins);
    assert items == PendingItems(p, id, digest, coins);
    var binding := BindingOf(h, blinded);
    req := SignRequest(c, pk.keyVersion, blinded, binding);
    pending := PendingMint(pk.key, digest, id, items);
  }

  // ---- The issuer ----

  datatype Issuer = Issuer(sk: Bytes, pk: IssuerPublicKey)

  /** `tape(i)` is the randomness of the i-th signature. */
  function SignAll(p: Pomfrit, sk: Bytes, blinded: seq<Bytes>, tape: nat -> Bytes): seq<Bytes> {
    seq(|blinded|, i requires 0 <= i < |blinded| => p.sign2(sk, blinded[i], tape(i)))
  }

  method IssuerSign(p: Pomfrit, sk: Bytes, blinded: seq<Bytes>, tape: nat -> Bytes)
    returns (sigs: seq<Bytes>)
    ensures sigs == SignAll(p, sk, blinded, tape)
  {
    sigs := [];
    for k := 0 to |blinded|
      invariant |sigs| == k
      invariant forall i :: 0 <= i < k ==> sigs[i] == p.sign2(sk, blinded[i], tape(i))
    {
      sigs := sigs + [p.sign2(sk, blinded[k], tape(k))];
    }
  }

  function BlindSign(p: Pomfrit, issuer: Issuer, req: SignRequest, tape: nat -> Bytes)
    : Result<seq<Bytes>, TokenError>
  {
    if req.keyVersion != issuer.pk.keyVersion then
      Err(KeyVersionMismatch(req.keyVersion, issuer.pk.keyVersion))
    else Ok(SignAll(p, issuer.sk, req.blinded, tape))
  }

  // ---- Finalizing and verifying ----

  /** One finished token; the authenticator is `r` followed by the proof. */
  function FinishOne(p: Pomfrit, pending: PendingMint, item: PendingItem, sig: Bytes, coin: Bytes): SpendToken {
    var u := p.sign3(pending.pk, p.expand(pending.pk), sig, item.state, item.r, coin);
    SpendToken(TOKEN_TYPE, item.nonce, pending.challengeDigest, pending.tokenKeyId, u.r + u.proof)
  }

  function FinishAll(p: Pomfrit, pending: PendingMint, sigs: seq<Bytes>, tape: nat -> Bytes): seq<SpendToken>
    requires |sigs| == |pending.items|
  {
    seq(|sigs|, i requires 0 <= i < |sigs| => FinishOne(p, pending, pending.items[i], sigs[i], tape(i)))
  }

  /** What `PendingTokens::finalize` produces. */
  function Finalized(p: Pomfrit, pending: PendingMint, pk: Bytes, sigs: seq<Bytes>, tape: nat -> Bytes)
    : Result<seq<SpendToken>, TokenError>
  {
    if pk != pending.pk then Err(Malformed("issuer pubkey mismatch"))
    else if |sigs| != |pending.items| then Err(CountMismatch(|pending.items|, |sigs|))
    else Ok(FinishAll(p, pending, sigs, tape))
  }

  method ClientFinalize(p: Pomfrit, pending: PendingMint, pk: Bytes, sigs: seq<Bytes>, tape: nat -> Bytes)
    returns (r: Result<seq<SpendToken>, TokenError>)
    ensures r == Finalized(p, pending, pk, sigs, tape)
  {
    if pk != pending.pk {
      return Err(Malformed("issuer pubkey mismatch"));
    }
    if |sigs| != |pending.items| {
      return Err(CountMismatch(|pending.items|, |sigs|));
    }
    var epk := p.expand(pending.pk);
    var out: seq<SpendToken> := [];
    for k := 0 to |sigs|
      invariant |out| == k
      invariant forall i :: 0 <= i < k ==>
                  out[i] == FinishOne(p, pending, pending.items[i], sigs[i], tape(i))
    {
      var item := pending.items[k];
      var u := p.sign3(pending.pk, epk, sigs[k], item.state, item.r, tape(k));
      out := out + [SpendToken(TOKEN_TYPE, item.nonce, pending.challengeDigest, pending.tokenKeyId, u.r + u.proof)];
    }
    assert out == FinishAll(p, pending, sigs, tape);
    r := Ok(out);
  }

  /**
    Finalizing refuses a foreign key and a wrong number of signatures, and nothing
    else; the tokens carry the pending nonces in order, under the pending challenge
    and key.
   */
  lemma FinalizedMeans(p: Pomfrit, pending: PendingMint, pk: Bytes, sigs: seq<Bytes>, tape: nat -> Bytes)
    ensures var r := Finalized(p, pending, pk, sigs, tape);
            (r.Ok? <==> pk == pending.pk && |sigs| == |pending.items|)
            && (r.Ok? ==>
                  |r.value| == |pending.items|
                  && forall i :: 0 <= i < |r.value| ==>
                       MessageOf(r.value[i]) ==
                       TokenInput(pending.items[i].nonce, pending.challengeDigest, pending.tokenKeyId)
                       && r.value[i].nonce == pending.items[i].nonce && r.value[i].tokenType == TOKEN_TYPE)
  {
    hide TokenInput;
    if pk == pending.pk && |sigs| == |pending.items| {
      var tokens := FinishAll(p, pending, sigs, tape);
      forall i | 0 <= i < |tokens|
        ensures tokens[i] == FinishOne(p, pending, pending.items[i], sigs[i], tape(i))
      {
      }
    }
  }

  /** `Verifier::verify` followed by the scheme's own check. */
  function VerifyToken(h: Hash, p: Pomfrit, pk: IssuerPublicKey, t: SpendToken, c: TokenChallenge)
    : Result<Digest, TokenError>
  {
    if t.tokenType != TOKEN_TYPE then Err(WrongTokenType(t.tokenType))
    else if t.challengeDigest != ChallengeDigest(h, c) then Err(ChallengeMismatch)
    else if t.tokenKeyId != TokenKeyId(h, pk) then Err(KeyIdMismatch)
    else if |t.authenticator| <= 32 then Err(Malformed("authenticator too short"))
    else if !p.verify(p.expand(pk.key), TokenInput(t.nonce, t.challengeDigest, t.tokenKeyId),
                      t.authenticator[32..], t.authenticator[..32]) then Err(VerifyFailed)
    else Ok(t.nonce)
  }

  /**
    For every batch size, an honest exchange under one lawful key pair yields one
    token per coin, in order; each survives its header and verifies with its own nonce.
   */
  lemma MintVerifies(h: Hash, p: Pomfrit, issuer: Issuer, c: TokenChallenge, coins: seq<Coins>,
                     signTape: nat -> Bytes, finishTape: nat -> Bytes)
    requires p.Lawful(issuer.pk.key, issuer.sk)
    ensures var (req, pending) := Begun(h, p, issuer.pk, c, coins);
            var sigs := BlindSign(p, issuer, req, signTape);
            sigs.Ok? &&
            var tokens := Finalized(p, pending, issuer.pk.key, sigs.value, finishTape);
            tokens.Ok? && |tokens.value| == |coins|
            && forall i :: 0 <= i < |coins| ==>
                 tokens.value[i].nonce == coins[i].nonce
                 && ParseAuthorization(Authorization(tokens.value[i])) == Ok(tokens.value[i])
                 && VerifyToken(h, p, issuer.pk, tokens.value[i], c) == Ok(coins[i].nonce)
  {
    hide ParseAuthorization, Authorization, TokenInput;
    var (req, pending) := Begun(h, p, issuer.pk, c, coins);
    var sigs := BlindSign(p, issuer, req, signTape).value;
    var tokens := Finalized(p, pending, issuer.pk.key, sigs, finishTape).value;
    forall i | 0 <= i < |coins|
      ensures tokens[i].nonce == coins[i].nonce
      ensures ParseAuthorization(Authorization(tokens[i])) == Ok(tokens[i])
      ensures VerifyToken(h, p, issuer.pk, tokens[i], c) == Ok(coins[i].nonce)
    {
      var m := TokenInput(coins[i].nonce, pending.challengeDigest, pending.tokenKeyId);
      assert p.ExchangeVerifies(issuer.pk.key, issuer.sk, m, coins[i].r, coins[i].blind, signTape(i), finishTape(i));
      var item := pending.items[i];
      var u := p.sign3(pending.pk, p.expand(pending.pk), sigs[i], item.state, item.r, finishTape(i));
      assert tokens[i].authenticator == u.r + u.proof;
      assert tokens[i].authenticator[32..] == u.proof && tokens[i].authenticator[..32] == u.r;
      AuthorizationRoundTrip(tokens[i]);
    }
  }
}
