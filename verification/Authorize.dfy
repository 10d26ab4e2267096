/**
  Issuance authorizations: what the attester signs after accepting evidence, and
  what the issuer checks before it blind-signs (core/src/authorize.rs,
  core/src/gate.rs).
 */
module Authorize {
  import opened Encoding
  import opened Keys
  import opened Limits
  import opened Mint

  const AUTHORIZATION_VERSION: u32 := 1
  const AUTH_DOMAIN: Bytes := Ascii("eat-pass/issuance-auth\0")
  const RATE_LIMIT_DOMAIN: Bytes := Ascii("eat-pass/v0/ratelimit-id\0")

  datatype GateError =
    | AttestationInvalid(reason: string)
    | MeasurementNotAllowed
    | BindingMismatch
    | QuotaExceeded
    | Unknown

  datatype Authorization = Authorization(
    version: u32, binding: Digest, rateLimitId: Bytes, policyLabel: Bytes,
    maxBatch: u32, exp: u64, iat: u64, sig: Bytes)

  function SignedBytes(a: Authorization): Bytes {
    AUTH_DOMAIN + LE(a.version, 4) + a.binding
    + LE(AsU32(|a.rateLimitId|), 4) + a.rateLimitId
    + LE(AsU32(|a.policyLabel|), 4) + a.policyLabel
    + LE(a.maxBatch, 4) + LE(a.exp, 8) + LE(a.iat, 8)
  }

  function VerifyAuthorization(f: Faest, pub: Digest, a: Authorization, now: u64): Result<(), GateError> {
    if a.version != AUTHORIZATION_VERSION then Err(AttestationInvalid("version unsupported"))
    else if a.maxBatch == 0 then Err(AttestationInvalid("max_batch must be non-zero"))
    else if now > a.exp then Err(AttestationInvalid("authorization expired"))
    else if !f.verify(pub, SignedBytes(a), a.sig) then Err(AttestationInvalid("authorization sig"))
    else Ok(())
  }

  // ---- The attester ----

  datatype Measurement = Measurement(platform: Bytes, valueX: Bytes, imaVerified: bool)

  function RateLimitPreimage(platform: Bytes, valueX: Bytes): Bytes {
    RATE_LIMIT_DOMAIN + platform + [0] + valueX
  }

  function RateLimitId(h: Hash, m: Measurement): Digest {
    h(RateLimitPreimage(m.platform, m.valueX))
  }

  /** `gate` stands for the hardware verifiers and the appraisal policy. */
  datatype Authorizer = Authorizer(
    sk: Bytes, gate: (Bytes, Digest) -> Result<Measurement, GateError>, ttlSecs: u64, policyLabel: Bytes)

  function SignAuthorization(h: Hash, f: Faest, z: Authorizer, m: Measurement,
                             binding: Digest, maxBatch: u32, now: u64): Result<Authorization, GateError>
  {
    if maxBatch == 0 then Err(AttestationInvalid("max_batch must be non-zero"))
    else
      var auth := Authorization(AUTHORIZATION_VERSION, binding, RateLimitId(h, m), z.policyLabel,
                                maxBatch, SaturatingAdd64(now, z.ttlSecs), now, []);
      Ok(auth.(sig := f.sign(z.sk, SignedBytes(auth))))
  }

  function AuthorizeEvidence(h: Hash, f: Faest, z: Authorizer, eat: Bytes,
                             binding: Digest, maxBatch: u32, now: u64): Result<Authorization, GateError>
  {
    if maxBatch == 0 then Err(AttestationInvalid("max_batch must be non-zero"))
    else
      var m :- z.gate(eat, binding);
      SignAuthorization(h, f, z, m, binding, maxBatch, now)
  }

  // ---- The issuer ----

  /** Every check before the quota; the result is the batch size the quota is charged. */
  function Admit(h: Hash, f: Faest, attester: Digest, req: SignRequest, auth: Authorization, now: u64)
    : Result<u32, GateError>
  {
    var _ :- VerifyAuthorization(f, attester, auth, now);
    var binding := h(BindingPreimage(req.blinded));
    if binding != req.binding then Err(BindingMismatch)
    else if binding != auth.binding then Err(BindingMismatch)
    else if AsU32(|req.blinded|) > auth.maxBatch then Err(AttestationInvalid("batch exceeds max_batch"))
    else Ok(AsU32(|req.blinded|))
  }

  /** The counters after one request and its outcome; a failed signature is still charged. */
  function Issue(h: Hash, f: Faest, p: Pomfrit, issuer: Issuer, attester: Digest, req: SignRequest,
                 auth: Authorization, counters: Counters, max: u32, epoch: u64, now: u64, tape: nat -> Bytes)
    : (Counters, Result<seq<Bytes>, GateError>)
  {
    match Admit(h, f, attester, req, auth, now)
    case Err(e) => (counters, Err(e))
    case Ok(batch) =>
      var (after, ok) := Consume(counters, max, Call(epoch, auth.rateLimitId, batch));
      if !ok then (after, Err(QuotaExceeded))
      else
        match BlindSign(p, issuer, req, tape)
        case Ok(sigs) => (after, Ok(sigs))
        case Err(_) => (after, Err(Unknown))
  }

  /**
    An admitted request is charged its size cast to `u32`, whether or not it is then
    signed, and a request that is not admitted is charged nothing; signatures come
    only with the charge granted, one for each item.
   */
  lemma IssueCharges(h: Hash, f: Faest, p: Pomfrit, issuer: Issuer, attester: Digest, req: SignRequest,
                     auth: Authorization, counters: Counters, max: u32, epoch: u64, now: u64, tape: nat -> Bytes)
    ensures var (after, r) := Issue(h, f, p, issuer, attester, req, auth, counters, max, epoch, now, tape);
            var (charged, ok) := Consume(counters, max, Call(epoch, auth.rateLimitId, AsU32(|req.blinded|)));
            (r.Ok? ==> ok && after == charged && |r.value| == |req.blinded|)
            && after == (if Admit(h, f, attester, req, auth, now).Ok? then charged else counters)
  {
    hide Consume, VerifyAuthorization, BindingPreimage;
  }

  method IssueAuthorizedWithLimit(h: Hash, f: Faest, p: Pomfrit, issuer: Issuer, attester: Digest,
                                  req: SignRequest, auth: Authorization, limiter: InMemoryRateLimiter,
                                  epoch: u64, now: u64, tape: nat -> Bytes)
    returns (r: Result<seq<Bytes>, GateError>)
    modifies limiter
    ensures (limiter.counters, r) == Issue(h, f, p, issuer, attester, req, auth, old(limiter.counters),
                                           limiter.maxPerEpoch, epoch, now, tape)
  {
    var verified := VerifyAuthorization(f, attester, auth, now);
    if verified.Err? {
      return Err(verified.error);
    }
    var binding := BindingOf(h, req.blinded);
    if binding != req.binding {
      return Err(BindingMismatch);
    }
    if binding != auth.binding {
      return Err(BindingMismatch);
    }
    var batch := AsU32(|req.blinded|);
    if batch > auth.maxBatch {
      return Err(AttestationInvalid("batch exceeds max_batch"));
    }
    var ok := limiter.TryConsumeAt(epoch, auth.rateLimitId, batch);
    if !ok {
      return Err(QuotaExceeded);
    }
    if req.keyVersion != issuer.pk.keyVersion {
      return Err(Unknown);
    }
    var sigs := IssuerSign(p, issuer.sk, req.blinded, tape);
    return Ok(sigs);
  }

  // ---- The signed layout ----

  /** A length-prefixed field says where it ends. */
  lemma FieldSplits(x: Bytes, p: Bytes, y: Bytes, q: Bytes)
    requires |x| <= U32_MAX && |y| <= U32_MAX
    requires LE(|x|, 4) + x + p == LE(|y|, 4) + y + q
    ensures x == y && p == q
  {
    hide LE;
    var m, n := LE(|x|, 4), LE(|y|, 4);
    Associates(m, x, p);
    Associates(n, y, q);
    SameSplit(m, x + p, n, y + q);
    Widths();
    LEInjective(|x|, |y|, 4);
    SameSplit(x, p, y, q);
  }

  function Opening(a: Authorization): Bytes { AUTH_DOMAIN + LE(a.version, 4) + a.binding }
  function Closing(a: Authorization): Bytes { LE(a.maxBatch, 4) + LE(a.exp, 8) + LE(a.iat, 8) }

  /** The signed layout as three fixed or self-delimiting parts. */
  lemma SignedBytesParts(a: Authorization)
    requires |a.rateLimitId| <= U32_MAX && |a.policyLabel| <= U32_MAX
    ensures SignedBytes(a) ==
            Opening(a) + (LE(|a.rateLimitId|, 4) + a.rateLimitId
                          + (LE(|a.policyLabel|, 4) + a.policyLabel + Closing(a)))
  {
    hide LE, Ascii;
  }

  lemma FixedPartsInjective(a: Authorization, b: Authorization)
    requires Opening(a) == Opening(b) && Closing(a) == Closing(b)
    ensures a.version == b.version && a.binding == b.binding
    ensures a.maxBatch == b.maxBatch && a.exp == b.exp && a.iat == b.iat
  {
    hide LE, Ascii;
    Widths();
    SameSplit(AUTH_DOMAIN + LE(a.version, 4), a.binding, AUTH_DOMAIN + LE(b.version, 4), b.binding);
    SameSplit(AUTH_DOMAIN, LE(a.version, 4), AUTH_DOMAIN, LE(b.version, 4));
    LEInjective(a.version, b.version, 4);
    SameSplit(LE(a.maxBatch, 4) + LE(a.exp, 8), LE(a.iat, 8), LE(b.maxBatch, 4) + LE(b.exp, 8), LE(b.iat, 8));
    SameSplit(LE(a.maxBatch, 4), LE(a.exp, 8), LE(b.maxBatch, 4), LE(b.exp, 8));
    LEInjective(a.maxBatch, b.maxBatch, 4);
    LEInjective(a.exp, b.exp, 8);
    LEInjective(a.iat, b.iat, 8);
  }

  /** Equal signed bytes mean equal authorizations, up to the signature. */
  lemma SignedBytesInjective(a: Authorization, b: Authorization)
    requires |a.rateLimitId| <= U32_MAX && |a.policyLabel| <= U32_MAX
    requires |b.rateLimitId| <= U32_MAX && |b.policyLabel| <= U32_MAX
    requires SignedBytes(a) == SignedBytes(b)
    ensures a.(sig := b.sig) == b
  {
    hide SignedBytes, Opening, Closing, LE;
    SignedBytesParts(a);
    SignedBytesParts(b);
    var restA := LE(|a.policyLabel|, 4) + a.policyLabel + Closing(a);
    var restB := LE(|b.policyLabel|, 4) + b.policyLabel + Closing(b);
    assert |Opening(a)| == |Opening(b)| by { OpeningLength(a); OpeningLength(b); }
    SameSplit(Opening(a), LE(|a.rateLimitId|, 4) + a.rateLimitId + restA,
              Opening(b), LE(|b.rateLimitId|, 4) + b.rateLimitId + restB);
    FieldSplits(a.rateLimitId, restA, b.rateLimitId, restB);
    FieldSplits(a.policyLabel, Closing(a), b.policyLabel, Closing(b));
    FixedPartsInjective(a, b);
  }

  lemma OpeningLength(a: Authorization)
    ensures |Opening(a)| == |AUTH_DOMAIN| + 36
  {
  }

  /** One side being short is enough: equal bytes have equal length, so the other side is short too. */
  lemma ShortSignedBytesInjective(a: Authorization, b: Authorization)
    requires |a.rateLimitId| + |a.policyLabel| <= U32_MAX
    requires SignedBytes(a) == SignedBytes(b)
    ensures a.(sig := b.sig) == b
  {
    assert |b.rateLimitId| + |b.policyLabel| == |a.rateLimitId| + |a.policyLabel| by {
      SignedBytesLength(a);
      SignedBytesLength(b);
    }
    SignedBytesInjective(a, b);
  }

  lemma SignedBytesLength(a: Authorization)
    ensures |SignedBytes(a)| == |AUTH_DOMAIN| + 64 + |a.rateLimitId| + |a.policyLabel|
  {
    hide LE, Ascii;
  }

  // ---- Separate quotas ----

  /** `p` with its terminator begins `q`. */
  predicate Shadows(p: Bytes, q: Bytes) { p + [0] <= q }

  lemma RateLimitSplits(p: Bytes, x: Bytes, q: Bytes, y: Bytes)
    requires RateLimitPreimage(p, x) == RateLimitPreimage(q, y)
    ensures (p == q && x == y) || Shadows(p, q) || Shadows(q, p)
  {
    hide Ascii;
    assert RateLimitPreimage(p, x) == RATE_LIMIT_DOMAIN + (p + [0] + x);
    assert RateLimitPreimage(q, y) == RATE_LIMIT_DOMAIN + (q + [0] + y);
    SameSplit(RATE_LIMIT_DOMAIN, p + [0] + x, RATE_LIMIT_DOMAIN, q + [0] + y);
    var s := p + [0] + x;
    if |p| == |q| {
      SameSplit(p + [0], x, q + [0], y);
      assert p == (p + [0])[..|p|] && q == (q + [0])[..|q|];
    } else if |p| < |q| {
      assert s[..|p| + 1] == p + [0] && s[..|q|] == q;
      assert q[..|p| + 1] == p + [0];
    } else {
      assert s[..|q| + 1] == q + [0] && s[..|p|] == p;
      assert p[..|q| + 1] == q + [0];
    }
  }

  /**
    Two platforms can have values that share a quota, without a hash collision,
    exactly when they are equal or one with a zero byte after it begins the other.
   */
  lemma PlatformsConfusedIff(p: Bytes, q: Bytes)
    ensures (exists x, y :: RateLimitPreimage(p, x) == RateLimitPreimage(q, y))
       <==> p == q || Shadows(p, q) || Shadows(q, p)
  {
    hide Ascii;
    if x, y :| RateLimitPreimage(p, x) == RateLimitPreimage(q, y) {
      RateLimitSplits(p, x, q, y);
    }
    if p == q {
      assert RateLimitPreimage(p, []) == RateLimitPreimage(q, []);
    } else if Shadows(p, q) {
      ShadowedShares(p, q);
    } else if Shadows(q, p) {
      ShadowedShares(q, p);
      var x := p[|q| + 1..] + [0];
      assert RateLimitPreimage(p, []) == RateLimitPreimage(q, x);
    }
  }

  lemma ShadowedShares(p: Bytes, q: Bytes)
    requires Shadows(p, q)
    ensures RateLimitPreimage(p, q[|p| + 1..] + [0]) == RateLimitPreimage(q, [])
  {
    hide Ascii;
    var rest := q[|p| + 1..];
    assert q == p + [0] + rest;
    assert RateLimitPreimage(p, rest + [0]) == RATE_LIMIT_DOMAIN + (p + [0] + rest) + [0];
    assert RateLimitPreimage(q, []) == RATE_LIMIT_DOMAIN + q + [0];
  }

  /**
    Builds that differ in platform or value have separate quotas, or their ids
    collide, if no platform holds a zero byte.
   */
  lemma QuotasAreSeparate(h: Hash, a: Measurement, b: Measurement)
    requires 0 !in a.platform && 0 !in b.platform && RateLimitId(h, a) == RateLimitId(h, b)
    ensures (a.platform == b.platform && a.valueX == b.valueX)
         || Collision(h, {RateLimitPreimage(a.platform, a.valueX), RateLimitPreimage(b.platform, b.valueX)})
  {
    hide RateLimitPreimage;
    if RateLimitPreimage(a.platform, a.valueX) == RateLimitPreimage(b.platform, b.valueX) {
      RateLimitSplits(a.platform, a.valueX, b.platform, b.valueX);
      ShadowHoldsZero(a.platform, b.platform);
      ShadowHoldsZero(b.platform, a.platform);
    }
  }

  lemma ShadowHoldsZero(p: Bytes, q: Bytes)
    ensures Shadows(p, q) ==> 0 in q
  {
    if Shadows(p, q) {
      assert q[|p|] == (p + [0])[|p|];
    }
  }
}
