/**
  The honest protocol from blinding to spending, for a client, an attester, an
  issuer in any state it can reach, and an origin of any age.
 */
module EndToEnd {
  import opened Authorize
  import opened Encoding
  import opened Issuance
  import opened Keys
  import opened Limits
  import opened Mint
  import opened Presenting
  import opened Redemption
  import opened Resolution
  import Spends
  import opened Wire

  /** The authorization an honest client obtains when it asks for `asked` items. */
  function HonestAuthorization(cfg: Config, eat: Bytes, req: SignRequest, asked: u32, now: u64)
    : Result<Authorize.Authorization, GateError>
  {
    AuthorizeEvidence(cfg.h, cfg.f, cfg.authorizer, eat, req.binding, asked, now)
  }

  /** A client asks for its own count, cast to `u32`; the attester authorizes that exactly when it is not zero. */
  lemma AuthorizedIff(cfg: Config, issuer: Issuer, c: TokenChallenge, coins: seq<Coins>, eat: Bytes, now: u64)
    requires cfg.authorizer.gate(eat, Begun(cfg.h, cfg.p, issuer.pk, c, coins).0.binding).Ok?
    ensures var (req, _) := Begun(cfg.h, cfg.p, issuer.pk, c, coins);
            HonestAuthorization(cfg, eat, req, AsU32(|req.blinded|), now).Ok? <==> AsU32(|coins|) != 0
  {
    hide SignedBytes, BindingPreimage;
  }

  /** An honest request under its own unexpired authorization and within quota is signed. */
  lemma HonestRequestIsSigned(cfg: Config, issuer: Issuer, c: TokenChallenge, coins: seq<Coins>, eat: Bytes,
                              asked: u32, authAt: u64, counters: Counters, epoch: u64, signAt: u64,
                              tape: nat -> Bytes)
    requires cfg.f.Correct() && asked != 0 && AsU32(|coins|) <= asked
    requires var (req, _) := Begun(cfg.h, cfg.p, issuer.pk, c, coins);
             cfg.authorizer.gate(eat, req.binding).Ok?
             && signAt <= SaturatingAdd64(authAt, cfg.authorizer.ttlSecs)
             && UsedIn(counters, epoch, RateLimitId(cfg.h, cfg.authorizer.gate(eat, req.binding).value))
                + AsU32(|coins|) <= cfg.maxPerEpoch
    ensures var (req, _) := Begun(cfg.h, cfg.p, issuer.pk, c, coins);
            var auth := HonestAuthorization(cfg, eat, req, asked, authAt);
            auth.Ok?
            && Issue(cfg.h, cfg.f, cfg.p, issuer, cfg.AttesterKey(), req, auth.value, counters,
                     cfg.maxPerEpoch, epoch, signAt, tape).1
               == Ok(SignAll(cfg.p, issuer.sk, req.blinded, tape))
  {
    hide BindingPreimage, RateLimitId, SignAll;
    var (req, _) := Begun(cfg.h, cfg.p, issuer.pk, c, coins);
    var auth := HonestAuthorization(cfg, eat, req, asked, authAt).value;
    assert SignedBytes(auth) == SignedBytes(auth.(sig := []));
  }

  /**
    Completeness under one lawful key pair: for every batch size whose `u32` cast is
    within what was asked for, an honest run yields exactly one token per coin, in order; each survives its header
    and is accepted by the verifier with its own nonce.
   */
  lemma {:induction false} HonestRunCompletes(
    cfg: Config, issuer: Issuer, c: TokenChallenge, coins: seq<Coins>, eat: Bytes, asked: u32, authAt: u64,
    counters: Counters, epoch: u64, signAt: u64, signTape: nat -> Bytes, finishTape: nat -> Bytes)
    requires cfg.f.Correct() && cfg.p.Lawful(issuer.pk.key, issuer.sk) && asked != 0 && AsU32(|coins|) <= asked
    requires var (req, _) := Begun(cfg.h, cfg.p, issuer.pk, c, coins);
             cfg.authorizer.gate(eat, req.binding).Ok?
             && signAt <= SaturatingAdd64(authAt, cfg.authorizer.ttlSecs)
             && UsedIn(counters, epoch, RateLimitId(cfg.h, cfg.authorizer.gate(eat, req.binding).value))
                + AsU32(|coins|) <= cfg.maxPerEpoch
    ensures var (req, pending) := Begun(cfg.h, cfg.p, issuer.pk, c, coins);
            var auth := HonestAuthorization(cfg, eat, req, asked, authAt);
            auth.Ok? &&
            var sigs := Issue(cfg.h, cfg.f, cfg.p, issuer, cfg.AttesterKey(), req, auth.value, counters,
                              cfg.maxPerEpoch, epoch, signAt, signTape).1;
            sigs.Ok? &&
            var tokens := Finalized(cfg.p, pending, issuer.pk.key, sigs.value, finishTape);
            tokens.Ok? && |tokens.value| == |coins|
            && forall i :: 0 <= i < |coins| ==>
                 tokens.value[i].nonce == coins[i].nonce
                 && ParseAuthorization(Wire.Authorization(tokens.value[i])) == Ok(tokens.value[i])
                 && VerifyToken(cfg.h, cfg.p, issuer.pk, tokens.value[i], c) == Ok(coins[i].nonce)
  {
    hide Finalized, SignAll, VerifyToken, ParseAuthorization, Wire.Authorization, HonestAuthorization;
    hide Issue, RateLimitId, UsedIn;
    HonestRequestIsSigned(cfg, issuer, c, coins, eat, asked, authAt, counters, epoch, signAt, signTape);
    MintVerifies(cfg.h, cfg.p, issuer, c, coins, signTape, finishTape);
  }

  /** The attester returns the honest client's authorization and records the acceptance. */
  lemma AttestReturns(cfg: Config, s: Sys, req: SignRequest, eat: Bytes, asked: u32, now: u64)
    requires cfg.authorizer.gate(eat, req.binding).Ok? && asked != 0
    ensures HonestAuthorization(cfg, eat, req, asked, now).Ok?
    ensures Do(cfg, s, Attest(eat, req.binding, asked, now)) ==
            s.(accepted := s.accepted + [Accepted(eat, req.binding, asked, now,
                                                  HonestAuthorization(cfg, eat, req, asked, now).value)])
  {
    hide SignedBytes, RateLimitId;
  }

  /** What an honest client's request needs in state `s`: accepted evidence, time and quota. */
  ghost predicate Admissible(cfg: Config, s: Sys, req: SignRequest, eat: Bytes, asked: u32, authAt: u64,
                             epoch: u64, signAt: u64)
  {
    cfg.authorizer.gate(eat, req.binding).Ok? && asked != 0 && AsU32(|req.blinded|) <= asked
    && signAt <= SaturatingAdd64(authAt, cfg.authorizer.ttlSecs)
    && UsedIn(s.counters, epoch, RateLimitId(cfg.h, cfg.authorizer.gate(eat, req.binding).value))
       + AsU32(|req.blinded|) <= cfg.maxPerEpoch
  }

  /** The tokens of one honest batch, authorized, signed in state `s` and finalized, if all goes through. */
  function Minted(cfg: Config, s: Sys, c: TokenChallenge, coins: seq<Coins>, eat: Bytes, asked: u32, authAt: u64,
                  epoch: u64, signAt: u64, signTape: nat -> Bytes, finishTape: nat -> Bytes): Option<seq<SpendToken>>
  {
    var pk := s.rot.current.pk;
    var (req, pending) := Begun(cfg.h, cfg.p, pk, c, coins);
    match HonestAuthorization(cfg, eat, req, asked, authAt)
    case Err(_) => None
    case Ok(auth) =>
      var after := Do(cfg, s, Sign(req, auth, signAt, epoch, signTape));
      if |after.issued| != |s.issued| + 1 then None
      else
        match Finalized(cfg.p, pending, pk.key, after.issued[|s.issued|].sigs, finishTape)
        case Err(_) => None
        case Ok(tokens) => Some(tokens)
  }

  /**
    End-to-end completeness: in every state that the issuer can reach, overlapping
    rotations included, a request begun with the published current key and admissible
    there is signed, and yields exactly one token per coin, in order; each survives
    its header and is accepted by the verifier with its own nonce.
   */
  lemma {:induction false} ReachableRunCompletes(
    cfg: Config, sk: Bytes, key: Bytes, now: u64, acts: seq<Action>, c: TokenChallenge, coins: seq<Coins>,
    eat: Bytes, asked: u32, authAt: u64, epoch: u64, signAt: u64, signTape: nat -> Bytes, finishTape: nat -> Bytes)
    requires cfg.f.Correct() && LawfulPairs(cfg, sk, key, acts)
    requires var s := Exec(cfg, InitRot(cfg, sk, key, now), acts);
             Admissible(cfg, s, Begun(cfg.h, cfg.p, s.rot.current.pk, c, coins).0, eat, asked, authAt, epoch, signAt)
    ensures var s := Exec(cfg, InitRot(cfg, sk, key, now), acts);
            var tokens := Minted(cfg, s, c, coins, eat, asked, authAt, epoch, signAt, signTape, finishTape);
            tokens.Some? && |tokens.value| == |coins|
            && forall i :: 0 <= i < |coins| ==>
                 tokens.value[i].nonce == coins[i].nonce
                 && ParseAuthorization(Wire.Authorization(tokens.value[i])) == Ok(tokens.value[i])
                 && VerifyToken(cfg.h, cfg.p, s.rot.current.pk, tokens.value[i], c) == Ok(coins[i].nonce)
  {
    var s := Exec(cfg, InitRot(cfg, sk, key, now), acts);
    BegunBlinds(cfg, s.rot.current.pk, c, coins);
    SigningKeyIsLawful(cfg, sk, key, now, acts);
    hide Exec, InitRot, LawfulPairs, Begun, Finalized, VerifyToken, ParseAuthorization, Wire.Authorization;
    hide HonestAuthorization, Issue, RateLimitId, UsedIn;
    HonestRunCompletes(cfg, s.rot.current, c, coins, eat, asked, authAt, s.counters, epoch, signAt,
                       signTape, finishTape);
  }

  lemma BegunBlinds(cfg: Config, pk: IssuerPublicKey, c: TokenChallenge, coins: seq<Coins>)
    ensures |Begun(cfg.h, cfg.p, pk, c, coins).0.blinded| == |coins|
  {
    hide BindingPreimage;
  }

  /**
    From evidence to grant: each token of an honest batch, begun and signed in any
    state of the issuer, is granted by any origin that holds its challenge, however
    many rotations came since and fall between the origin's two fetches; or two
    published keys collide.
   */
  lemma {:induction false} MintedTokenIsGranted(
    cfg: Config, sk: Bytes, key: Bytes, now: u64, acts: seq<Action>, j: nat, k: nat,
    c: TokenChallenge, coins: seq<Coins>, eat: Bytes, asked: u32, authAt: u64, epoch: u64, signAt: u64,
    signTape: nat -> Bytes, finishTape: nat -> Bytes, i: nat, env: Env, w: World, id: nat, n: nat)
    returns (e: KeyEntry, t: SpendToken)
    requires cfg.f.Correct() && j <= k <= |acts| && i < |coins|
    requires LawfulPairs(cfg, sk, key, acts[..j]) && Orderly(cfg, InitRot(cfg, sk, key, now), acts)
    requires Pins(env, cfg) && env.p == cfg.p && id !in w.requests && n in w.origins && OriginOk(env.h, w.origins[n])
    requires InWindow(w.origins[n].issued, |w.origins[n].issued|, c)
    requires forall v: u32 :: (v, coins[i].nonce) !in w.seen
    requires var s := Exec(cfg, InitRot(cfg, sk, key, now), acts[..j]);
             Admissible(cfg, s, Begun(cfg.h, cfg.p, s.rot.current.pk, c, coins).0, eat, asked, authAt, epoch, signAt)
    ensures var init := InitRot(cfg, sk, key, now);
            var s := Exec(cfg, init, acts[..j]);
            var r1, r2 := Exec(cfg, init, acts[..k]).rot, Exec(cfg, init, acts).rot;
            var tokens := Minted(cfg, s, c, coins, eat, asked, authAt, epoch, signAt, signTape, finishTape);
            tokens.Some? && |tokens.value| == |coins| && t == tokens.value[i]
            && (Collision(cfg.h, {e.pk.key, s.rot.current.pk.key})
                || GrantedIn(w, Run(env, w, Presenting.Script(id, n, t, Fetch(cfg, id, t.tokenKeyId, r1, r2))),
                             id, n, e, t))
  {
    hide Exec, InitRot, LawfulPairs, Minted, Begun, VerifyToken, Admissible, Presenting.Script, Fetch, Run;
    hide GrantedIn, InWindow, OriginOk, Orderly, ParseAuthorization, Wire.Authorization, TokenKeyId;
    var init := InitRot(cfg, sk, key, now);
    var s := Exec(cfg, init, acts[..j]);
    ReachableRunCompletes(cfg, sk, key, now, acts[..j], c, coins, eat, asked, authAt, epoch, signAt,
                          signTape, finishTape);
    CurrentIsPublished(cfg, sk, key, now, acts[..k], j);
    assert acts[..k][..j] == acts[..j];
    t := Minted(cfg, s, c, coins, eat, asked, authAt, epoch, signAt, signTape, finishTape).value[i];
    MintedIsPresentable(env, w, n, s.rot.current.pk, c, t, coins[i].nonce);
    hide Presentable, Collision, Minted;
    e := RotatedKeyIsGranted(cfg, sk, key, now, acts, k, |s.rot.published| - 1, env, w, id, n, c, t);
  }

  lemma MintedIsPresentable(env: Env, w: World, n: nat, pk: IssuerPublicKey, c: TokenChallenge, t: SpendToken,
                            nonce: Digest)
    requires n in w.origins && OriginOk(env.h, w.origins[n])
    requires InWindow(w.origins[n].issued, |w.origins[n].issued|, c)
    requires t.nonce == nonce && forall v: u32 :: (v, nonce) !in w.seen
    requires VerifyToken(env.h, env.p, pk, t, c).Ok?
    ensures Presentable(env, w, n, pk, c, t, _ => true)
  {
    hide OriginOk, InWindow, VerifyToken;
  }

  /** The key of an earlier state stays in the log, at the position it had. */
  lemma CurrentIsPublished(cfg: Config, sk: Bytes, key: Bytes, now: u64, acts: seq<Action>, j: nat)
    requires j <= |acts|
    ensures var init := InitRot(cfg, sk, key, now);
            var earlier, later := Exec(cfg, init, acts[..j]).rot, Exec(cfg, init, acts).rot;
            0 < |earlier.published| <= |later.published|
            && later.published[|earlier.published| - 1].pk == earlier.current.pk
  {
    hide Exec, InitRot;
    RotationKeepsInv(cfg, sk, key, now, acts[..j]);
    LogOnlyGrows(cfg, InitRot(cfg, sk, key, now), acts, j);
  }

  /** Spending the first `n` tokens in order. */
  function SpendFirst(seen: Spends.Seen, epoch: u32, tokens: seq<SpendToken>, n: nat): Spends.Seen
    requires n <= |tokens|
  {
    if n == 0 then seen
    else Spends.Step(SpendFirst(seen, epoch, tokens, n - 1), Spends.Mark(epoch, tokens[n - 1].nonce))
  }

  lemma {:induction false} SpendFirstContents(
    seen: Spends.Seen, epoch: u32, tokens: seq<SpendToken>, n: nat, nonce: Digest)
    requires n <= |tokens|
    ensures (epoch, nonce) in SpendFirst(seen, epoch, tokens, n)
       <==> (epoch, nonce) in seen || exists j :: 0 <= j < n && tokens[j].nonce == nonce
  {
    if n > 0 {
      SpendFirstContents(seen, epoch, tokens, n - 1, nonce);
    }
  }

  /** Tokens with pairwise distinct, unspent nonces are each accepted in turn, and refused ever after. */
  lemma EachSpentOnce(seen: Spends.Seen, epoch: u32, tokens: seq<SpendToken>, i: nat, n: nat)
    requires forall j, k :: 0 <= j < k < |tokens| ==> tokens[j].nonce != tokens[k].nonce
    requires forall j :: 0 <= j < |tokens| ==> (epoch, tokens[j].nonce) !in seen
    requires i < n <= |tokens|
    ensures (epoch, tokens[i].nonce) !in SpendFirst(seen, epoch, tokens, i)
    ensures (epoch, tokens[i].nonce) in SpendFirst(seen, epoch, tokens, n)
  {
    SpendFirstContents(seen, epoch, tokens, i, tokens[i].nonce);
    SpendFirstContents(seen, epoch, tokens, n, tokens[i].nonce);
  }
}
