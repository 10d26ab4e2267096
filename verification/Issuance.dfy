/**
  The attester and the issuer as one state machine (core/src/authorize.rs,
  cli/src/issuer.rs). Requests, evidence, clocks and keys are arbitrary inputs;
  rotation is two critical sections, so rotations may overlap.
 */
module Issuance {
  import opened Authorize
  import opened Encoding
  import opened Keys
  import opened Limits
  import opened Mint
  import opened Transparency
  import opened Wire

  datatype Config = Config(
    h: Hash, f: Faest, p: Pomfrit, authorizer: Authorizer, logSk: Bytes, maxPerEpoch: u32)
  {
    function AttesterKey(): Digest { f.public(authorizer.sk) }
    function LogKey(): Digest { f.public(logSk) }

    /** The policy label fits its length prefix together with a 32-byte rate-limit id. */
    predicate ShortLabel() { |authorizer.policyLabel| + 32 <= U32_MAX }
  }

  // ---- Rotation ----

  /**
    The issuer's state under its lock. The log is given by what was appended to it;
    its records are `OperatorLog` of that.
   */
  datatype RotState = RotState(
    current: Issuer, history: map<u32, IssuerPublicKey>, published: seq<Published>, signedHead: SignedHead)

  function InitRot(cfg: Config, sk: Bytes, key: Bytes, now: u64): RotState {
    var pk := IssuerPublicKey(1, key);
    RotState(Issuer(sk, pk), map[1 := pk], [Published(pk, now)],
             PublishedHead(cfg.h, cfg.f, cfg.logSk, [Published(pk, now)]))
  }

  /** `key_version + 1` on `u32`, which wraps in a release build. */
  function NextVersion(r: RotState): u32 { AsU32(r.current.pk.keyVersion + 1) }

  /** The write-locked half of a rotation. */
  function Commit(cfg: Config, r: RotState, issuer: Issuer, now: u64): RotState {
    var published := r.published + [Published(issuer.pk, now)];
    RotState(issuer, r.history[issuer.pk.keyVersion := issuer.pk], published,
             PublishedHead(cfg.h, cfg.f, cfg.logSk, published))
  }

  /** The locked part of the issuer as an object. */
  class Rotating {
    var current: Issuer
    var history: map<u32, IssuerPublicKey>
    const log: KeyLog
    var signedHead: SignedHead
    ghost var published: seq<Published>

    ghost predicate Valid(h: Hash)
      reads this, log
    {
      log.records == OperatorLog(h, published)
    }

    ghost function View(): RotState
      reads this
    {
      RotState(current, history, published, signedHead)
    }

    constructor (cfg: Config, sk: Bytes, key: Bytes, now: u64)
      ensures Valid(cfg.h) && fresh(log)
      ensures View() == InitRot(cfg, sk, key, now)
    {
      var pk := IssuerPublicKey(1, key);
      var keyLog := new KeyLog();
      var _ := keyLog.Append(cfg.h, pk, now, []);
      log := keyLog;
      current := Issuer(sk, pk);
      history := map[1 := pk];
      published := [] + [Published(pk, now)];
      OperatorDecodes(cfg.h, [] + [Published(pk, now)]);
      signedHead := SignLog(cfg.h, cfg.f, cfg.logSk, keyLog.records);
      new;
      assert published == [Published(pk, now)];
    }

    method CommitRotation(cfg: Config, newIssuer: Issuer, now: u64) returns (position: u64)
      requires Valid(cfg.h)
      modifies this, log
      ensures Valid(cfg.h)
      ensures View() == Commit(cfg, old(View()), newIssuer, now)
      ensures position == AsU64(|old(published)|)
    {
      hide SignHead, OperatorLog, OperatorEntries, DecodeRecords;
      position := log.Append(cfg.h, newIssuer.pk, now, published);
      published := published + [Published(newIssuer.pk, now)];
      OperatorDecodes(cfg.h, published);
      signedHead := SignLog(cfg.h, cfg.f, cfg.logSk, log.records);
      history := history[newIssuer.pk.keyVersion := newIssuer.pk];
      current := newIssuer;
    }
  }

  /** `LogSigner::sign` over records; an operator's own records always decode. */
  function SignLog(h: Hash, f: Faest, sk: Bytes, records: seq<KeyRecord>): SignedHead
    requires DecodeRecords(records).Ok?
  {
    SignHead(h, f, sk, DecodeRecords(records).value)
  }

  // ---- The system ----

  /** Evidence the attester accepted, and the authorization it returned. */
  datatype Accepted = Accepted(eat: Bytes, binding: Digest, maxBatch: u32, at: u64, auth: Authorization)

  /** A request the issuer signed under its key `pk`; `seen` counts the acceptances before it. */
  datatype Issued = Issued(
    auth: Authorization, req: SignRequest, pk: IssuerPublicKey, at: u64, epoch: u64, sigs: seq<Bytes>, seen: nat)

  datatype Sys = Sys(
    rot: RotState, pending: map<nat, u32>, counters: Counters, accepted: seq<Accepted>, issued: seq<Issued>)

  datatype Action =
    | Attest(eat: Bytes, binding: Digest, maxBatch: u32, now: u64)
    | Sign(req: SignRequest, auth: Authorization, now: u64, epoch: u64, tape: nat -> Bytes)
    | BeginRotate(id: nat)
    | CommitRotate(id: nat, sk: Bytes, key: Bytes, now: u64)
    | AbandonRotate(id: nat)

  function Do(cfg: Config, s: Sys, a: Action): Sys {
    match a
    case Attest(eat, binding, maxBatch, now) =>
      (match AuthorizeEvidence(cfg.h, cfg.f, cfg.authorizer, eat, binding, maxBatch, now)
       case Err(_) => s
       case Ok(auth) => s.(accepted := s.accepted + [Accepted(eat, binding, maxBatch, now, auth)]))
    case Sign(req, auth, now, epoch, tape) =>
      var (counters, r) := Issue(cfg.h, cfg.f, cfg.p, s.rot.current, cfg.AttesterKey(), req, auth,
                                 s.counters, cfg.maxPerEpoch, epoch, now, tape);
      (match r
       case Err(_) => s.(counters := counters)
       case Ok(sigs) =>
         s.(counters := counters,
            issued := s.issued + [Issued(auth, req, s.rot.current.pk, now, epoch, sigs, |s.accepted|)]))
    case BeginRotate(id) =>
      s.(pending := s.pending[id := NextVersion(s.rot)])
    case CommitRotate(id, sk, key, now) =>
      if id !in s.pending then s
      else s.(rot := Commit(cfg, s.rot, Issuer(sk, IssuerPublicKey(s.pending[id], key)), now),
              pending := s.pending - {id})
    case AbandonRotate(id) => s.(pending := s.pending - {id})
  }

  function Exec(cfg: Config, init: RotState, acts: seq<Action>): Sys {
    if |acts| == 0 then Sys(init, map[], map[], [], [])
    else Do(cfg, Exec(cfg, init, acts[..|acts| - 1]), acts[|acts| - 1])
  }

  /** Messages the attester's key has signed. */
  function SignedMessages(accepted: seq<Accepted>): set<Bytes> {
    set i | 0 <= i < |accepted| :: SignedBytes(accepted[i].auth)
  }

  /** Every signature presented to the issuer that passes is over a message the attester had signed by then. */
  ghost predicate NoForgery(cfg: Config, init: RotState, acts: seq<Action>) {
    forall k :: 0 <= k < |acts| && acts[k].Sign? ==>
      cfg.f.Unforged(cfg.AttesterKey(), SignedBytes(acts[k].auth), acts[k].auth.sig,
                     SignedMessages(Exec(cfg, init, acts[..k]).accepted))
  }

  lemma NoForgeryFront(cfg: Config, init: RotState, acts: seq<Action>)
    requires NoForgery(cfg, init, acts) && |acts| > 0
    ensures NoForgery(cfg, init, acts[..|acts| - 1])
    ensures acts[|acts| - 1].Sign? ==>
              var a := acts[|acts| - 1];
              cfg.f.Unforged(cfg.AttesterKey(), SignedBytes(a.auth), a.auth.sig,
                             SignedMessages(Exec(cfg, init, acts[..|acts| - 1]).accepted))
  {
    hide Do;
    var front := acts[..|acts| - 1];
    forall k | 0 <= k < |front| ensures front[k] == acts[k] && front[..k] == acts[..k] {
    }
  }

  // ---- Issued only if attested ----

  /** An acceptance as the attester makes it. */
  ghost predicate Sound(cfg: Config, a: Accepted) {
    cfg.authorizer.gate(a.eat, a.binding).Ok?
    && a.auth.rateLimitId == RateLimitId(cfg.h, cfg.authorizer.gate(a.eat, a.binding).value)
    && a.auth.binding == a.binding && a.auth.maxBatch == a.maxBatch
    && a.auth.iat == a.at && a.auth.exp == SaturatingAdd64(a.at, cfg.authorizer.ttlSecs)
    && a.auth.policyLabel == cfg.authorizer.policyLabel && a.auth.version == AUTHORIZATION_VERSION
  }

  /** The batch `e` was signed under the authorization returned for acceptance `a`. */
  ghost predicate Under(cfg: Config, a: Accepted, e: Issued) {
    a.binding == cfg.h(BindingPreimage(e.req.blinded))
    && e.auth == a.auth.(sig := e.auth.sig)
    && e.at <= SaturatingAdd64(a.at, cfg.authorizer.ttlSecs)
    && AsU32(|e.req.blinded|) <= a.maxBatch
    && |e.sigs| == |e.req.blinded|
  }

  ghost predicate AllAttested(cfg: Config, s: Sys) { Attested(cfg, s.accepted, s.issued) }

  ghost predicate Attested(cfg: Config, accepted: seq<Accepted>, issued: seq<Issued>) {
    (forall j :: 0 <= j < |accepted| ==> Sound(cfg, accepted[j]))
    && forall k :: 0 <= k < |issued| ==>
         issued[k].seen <= |accepted|
         && exists j :: 0 <= j < issued[k].seen && Under(cfg, accepted[j], issued[k])
  }

  lemma AttestKeeps(cfg: Config, s: Sys, a: Action)
    requires AllAttested(cfg, s) && a.Attest?
    ensures AllAttested(cfg, Do(cfg, s, a))
  {
    hide Under, Sound, AuthorizeEvidence;
    var after := Do(cfg, s, a);
    match AuthorizeEvidence(cfg.h, cfg.f, cfg.authorizer, a.eat, a.binding, a.maxBatch, a.now) {
      case Err(_) =>
      case Ok(auth) =>
        AcceptedIsSound(cfg, a, auth);
        forall j | 0 <= j < |after.accepted| ensures Sound(cfg, after.accepted[j]) {
          assert j < |s.accepted| ==> after.accepted[j] == s.accepted[j];
        }
        forall k | 0 <= k < |after.issued|
          ensures exists j :: 0 <= j < after.issued[k].seen && Under(cfg, after.accepted[j], after.issued[k])
        {
          var j :| 0 <= j < s.issued[k].seen && Under(cfg, s.accepted[j], s.issued[k]);
          assert after.accepted[j] == s.accepted[j];
        }
    }
  }

  lemma AcceptedIsSound(cfg: Config, a: Action, auth: Authorization)
    requires a.Attest?
    requires AuthorizeEvidence(cfg.h, cfg.f, cfg.authorizer, a.eat, a.binding, a.maxBatch, a.now) == Ok(auth)
    ensures Sound(cfg, Accepted(a.eat, a.binding, a.maxBatch, a.now, auth))
  {
    hide SignedBytes, RateLimitId;
  }

  /** A signature is given only under an authorization that was returned before. */
  lemma SignedUnder(cfg: Config, s: Sys, a: Action, sigs: seq<Bytes>) returns (j: nat)
    requires cfg.ShortLabel() && AllAttested(cfg, s) && a.Sign?
    requires cfg.f.Unforged(cfg.AttesterKey(), SignedBytes(a.auth), a.auth.sig, SignedMessages(s.accepted))
    requires Issue(cfg.h, cfg.f, cfg.p, s.rot.current, cfg.AttesterKey(), a.req, a.auth, s.counters,
                   cfg.maxPerEpoch, a.epoch, a.now, a.tape).1 == Ok(sigs)
    ensures j < |s.accepted|
    ensures Under(cfg, s.accepted[j], Issued(a.auth, a.req, s.rot.current.pk, a.now, a.epoch, sigs, |s.accepted|))
  {
    hide SignedBytes, BindingPreimage, Consume;
    j :| 0 <= j < |s.accepted| && SignedBytes(s.accepted[j].auth) == SignedBytes(a.auth);
    ShortSignedBytesInjective(s.accepted[j].auth, a.auth);
  }

  lemma SignKeeps(cfg: Config, s: Sys, a: Action)
    requires cfg.ShortLabel() && AllAttested(cfg, s) && a.Sign?
    requires cfg.f.Unforged(cfg.AttesterKey(), SignedBytes(a.auth), a.auth.sig, SignedMessages(s.accepted))
    ensures AllAttested(cfg, Do(cfg, s, a))
  {
    hide Issue, Under, Sound;
    var after := Do(cfg, s, a);
    var r := Issue(cfg.h, cfg.f, cfg.p, s.rot.current, cfg.AttesterKey(), a.req, a.auth, s.counters,
                   cfg.maxPerEpoch, a.epoch, a.now, a.tape).1;
    if r.Ok? {
      var i := SignedUnder(cfg, s, a, r.value);
      forall k | 0 <= k < |after.issued|
        ensures exists j :: 0 <= j < after.issued[k].seen && Under(cfg, after.accepted[j], after.issued[k])
      {
        if k < |s.issued| {
          var j :| 0 <= j < s.issued[k].seen && Under(cfg, s.accepted[j], s.issued[k]);
          assert Under(cfg, after.accepted[j], after.issued[k]);
        } else {
          assert Under(cfg, after.accepted[i], after.issued[k]);
        }
      }
    }
  }

  lemma RotateKeeps(cfg: Config, s: Sys, a: Action)
    requires AllAttested(cfg, s) && !a.Attest? && !a.Sign?
    ensures AllAttested(cfg, Do(cfg, s, a))
  {
    hide Attested, Commit;
  }

  lemma {:induction false} RunIsAttested(cfg: Config, init: RotState, acts: seq<Action>)
    requires cfg.ShortLabel() && NoForgery(cfg, init, acts)
    ensures AllAttested(cfg, Exec(cfg, init, acts))
  {
    if |acts| > 0 {
      hide AllAttested, Do, NoForgery;
      var front, a := acts[..|acts| - 1], acts[|acts| - 1];
      NoForgeryFront(cfg, init, acts);
      RunIsAttested(cfg, init, front);
      if a.Attest? {
        AttestKeeps(cfg, Exec(cfg, init, front), a);
      } else if a.Sign? {
        SignKeeps(cfg, Exec(cfg, init, front), a);
      } else {
        RotateKeeps(cfg, Exec(cfg, init, front), a);
      }
    }
  }

  /**
    Whenever the issuer returned signatures for a batch, the attester had earlier
    accepted evidence for the binding of that batch, the signing time is within the
    authorization's lifetime, the batch is no longer than what was authorized, and
    the quota it is charged to is that of the accepted measurement.
   */
  lemma {:induction false} IssuedOnlyIfAttested(cfg: Config, init: RotState, acts: seq<Action>, k: nat) returns (j: nat)
    requires cfg.ShortLabel() && NoForgery(cfg, init, acts)
    requires k < |Exec(cfg, init, acts).issued|
    ensures var s := Exec(cfg, init, acts);
            var e := s.issued[k];
            j < e.seen <= |s.accepted|
            && var a := s.accepted[j];
               cfg.authorizer.gate(a.eat, cfg.h(BindingPreimage(e.req.blinded))).Ok?
               && a.binding == cfg.h(BindingPreimage(e.req.blinded))
               && e.at <= SaturatingAdd64(a.at, cfg.authorizer.ttlSecs)
               && (|e.req.blinded| <= U32_MAX ==> |e.req.blinded| <= a.maxBatch)
               && e.auth == a.auth.(sig := e.auth.sig)
               && e.auth.rateLimitId
                  == RateLimitId(cfg.h, cfg.authorizer.gate(a.eat, cfg.h(BindingPreimage(e.req.blinded))).value)
               && e.auth.policyLabel == cfg.authorizer.policyLabel && e.auth.version == AUTHORIZATION_VERSION
  {
    hide BindingPreimage, RateLimitId, Exec, NoForgery;
    RunIsAttested(cfg, init, acts);
    var s := Exec(cfg, init, acts);
    j :| 0 <= j < s.issued[k].seen && Under(cfg, s.accepted[j], s.issued[k]);
    assert Sound(cfg, s.accepted[j]);
  }

  /**
    With no assumption on forgery: the issuer signs a batch only when both the request
    and the authorization name its binding, under the key version that the request
    asks for, and under a supported, unexpired authorization that passes the
    attester's key and allows that many items.
   */
  lemma {:induction false} IssuedIsBound(cfg: Config, init: RotState, acts: seq<Action>, k: nat)
    requires k < |Exec(cfg, init, acts).issued|
    ensures var e := Exec(cfg, init, acts).issued[k];
            e.auth.binding == e.req.binding == cfg.h(BindingPreimage(e.req.blinded))
            && e.req.keyVersion == e.pk.keyVersion
            && e.auth.version == AUTHORIZATION_VERSION && e.at <= e.auth.exp
            && e.auth.maxBatch > 0 && AsU32(|e.req.blinded|) <= e.auth.maxBatch
            && cfg.f.verify(cfg.AttesterKey(), SignedBytes(e.auth), e.auth.sig)
  {
    hide BindingPreimage, SignedBytes, Consume, AuthorizeEvidence, Commit, SignAll;
    var front := acts[..|acts| - 1];
    if k < |Exec(cfg, init, front).issued| {
      IssuedIsBound(cfg, init, front, k);
    }
  }

  /**
    Presenting an authorization again, with whatever signature, can only re-sign the
    batch it was used for, or two bindings collide.
   */
  lemma ReplaySignsSameBatch(cfg: Config, init: RotState, acts: seq<Action>, k: nat, m: nat)
    requires k < |Exec(cfg, init, acts).issued| && m < |Exec(cfg, init, acts).issued|
    requires Exec(cfg, init, acts).issued[k].auth.binding == Exec(cfg, init, acts).issued[m].auth.binding
    requires Short(Exec(cfg, init, acts).issued[k].req.blinded) && Short(Exec(cfg, init, acts).issued[m].req.blinded)
    ensures var a, b := Exec(cfg, init, acts).issued[k].req.blinded, Exec(cfg, init, acts).issued[m].req.blinded;
            a == b || Collision(cfg.h, {BindingPreimage(a), BindingPreimage(b)})
  {
    hide BindingPreimage, Exec;
    var s := Exec(cfg, init, acts);
    IssuedIsBound(cfg, init, acts, k);
    IssuedIsBound(cfg, init, acts, m);
    var a, b := s.issued[k].req.blinded, s.issued[m].req.blinded;
    if BindingPreimage(a) == BindingPreimage(b) {
      BindingInjective(a, b);
    }
  }

  // ---- Quota conservation ----

  /** Blind signatures returned for one rate-limit id in one epoch. */
  function SignedFor(issued: seq<Issued>, epoch: u64, id: Bytes): nat {
    if |issued| == 0 then 0
    else
      var last := issued[|issued| - 1];
      SignedFor(issued[..|issued| - 1], epoch, id)
      + (if last.epoch == epoch && last.auth.rateLimitId == id then |last.sigs| else 0)
  }

  /** The same with every batch counted by its size cast to `u32`. */
  function CastFor(issued: seq<Issued>, epoch: u64, id: Bytes): nat {
    if |issued| == 0 then 0
    else
      var last := issued[|issued| - 1];
      CastFor(issued[..|issued| - 1], epoch, id)
      + (if last.epoch == epoch && last.auth.rateLimitId == id then AsU32(|last.sigs|) else 0)
  }

  lemma ConsumeCounts(counters: Counters, max: u32, c: Call, epoch: u64, id: Bytes)
    requires max < U32_MAX && UsedIn(counters, epoch, id) <= max
    requires UsedIn(counters, c.epoch, c.id) <= max
    ensures var (after, ok) := Consume(counters, max, c);
            UsedIn(after, epoch, id) <= max
            && UsedIn(after, epoch, id) ==
               UsedIn(counters, epoch, id) + (if ok && c.epoch == epoch && c.id == id then c.n else 0)
  {
  }

  /** What a signature adds to both sums: nothing, or its whole batch. */
  lemma SignAdds(cfg: Config, s: Sys, a: Action, epoch: u64, id: Bytes)
    requires a.Sign?
    ensures var after := Do(cfg, s, a);
            after.issued == s.issued
            || var n := if a.epoch == epoch && a.auth.rateLimitId == id then |a.req.blinded| else 0;
               SignedFor(after.issued, epoch, id) == SignedFor(s.issued, epoch, id) + n
               && CastFor(after.issued, epoch, id) == CastFor(s.issued, epoch, id) + AsU32(n)
  {
    hide Issue;
    IssueCharges(cfg.h, cfg.f, cfg.p, s.rot.current, cfg.AttesterKey(), a.req, a.auth,
                 s.counters, cfg.maxPerEpoch, a.epoch, a.now, a.tape);
    var after := Do(cfg, s, a);
    if after.issued != s.issued {
      assert after.issued[..|after.issued| - 1] == s.issued;
    }
  }

  lemma OthersAddNothing(cfg: Config, s: Sys, a: Action)
    requires !a.Sign?
    ensures Do(cfg, s, a).issued == s.issued && Do(cfg, s, a).counters == s.counters
  {
    hide AuthorizeEvidence, Commit;
  }

  lemma SignCharges(cfg: Config, s: Sys, a: Action, epoch: u64, id: Bytes)
    requires cfg.maxPerEpoch < U32_MAX && a.Sign?
    requires CastFor(s.issued, epoch, id) <= UsedIn(s.counters, epoch, id) <= cfg.maxPerEpoch
    requires UsedIn(s.counters, a.epoch, a.auth.rateLimitId) <= cfg.maxPerEpoch
    ensures var after := Do(cfg, s, a);
            CastFor(after.issued, epoch, id) <= UsedIn(after.counters, epoch, id) <= cfg.maxPerEpoch
  {
    hide Issue, Consume, UsedIn;
    IssueCharges(cfg.h, cfg.f, cfg.p, s.rot.current, cfg.AttesterKey(), a.req, a.auth,
                 s.counters, cfg.maxPerEpoch, a.epoch, a.now, a.tape);
    ConsumeCounts(s.counters, cfg.maxPerEpoch, Call(a.epoch, a.auth.rateLimitId, AsU32(|a.req.blinded|)), epoch, id);
    SignAdds(cfg, s, a, epoch, id);
  }

  lemma {:induction false} Charged(cfg: Config, init: RotState, acts: seq<Action>, epoch: u64, id: Bytes)
    requires cfg.maxPerEpoch < U32_MAX
    ensures var s := Exec(cfg, init, acts);
            CastFor(s.issued, epoch, id) <= UsedIn(s.counters, epoch, id) <= cfg.maxPerEpoch
  {
    if |acts| > 0 {
      hide Issue, AuthorizeEvidence, Commit;
      var front, a := acts[..|acts| - 1], acts[|acts| - 1];
      Charged(cfg, init, front, epoch, id);
      if a.Sign? {
        Charged(cfg, init, front, a.epoch, a.auth.rateLimitId);
        SignCharges(cfg, Exec(cfg, init, front), a, epoch, id);
      }
    }
  }

  /** No request carries more than `size` items. */
  ghost predicate BatchesWithin(acts: seq<Action>, size: nat) {
    forall k :: 0 <= k < |acts| && acts[k].Sign? ==> |acts[k].req.blinded| <= size
  }

  lemma CastShort(blinded: seq<Bytes>)
    requires |blinded| <= U32_MAX
    ensures AsU32(|blinded|) == |blinded| && AsU32(0) == 0
  {
  }

  lemma {:induction false} ShortBatchesInFull(cfg: Config, init: RotState, acts: seq<Action>, epoch: u64, id: Bytes)
    requires BatchesWithin(acts, U32_MAX)
    ensures var s := Exec(cfg, init, acts); SignedFor(s.issued, epoch, id) == CastFor(s.issued, epoch, id)
  {
    if |acts| > 0 {
      hide Issue, AuthorizeEvidence, Commit;
      hide Do, SignedFor, CastFor;
      var front, a := acts[..|acts| - 1], acts[|acts| - 1];
      assert a.Sign? ==> |a.req.blinded| <= U32_MAX;
      assert BatchesWithin(front, U32_MAX);
      hide BatchesWithin, AsU32;
      ShortBatchesInFull(cfg, init, front, epoch, id);
      if a.Sign? {
        CastShort(a.req.blinded);
        SignAdds(cfg, Exec(cfg, init, front), a, epoch, id);
      } else {
        OthersAddNothing(cfg, Exec(cfg, init, front), a);
      }
    }
  }

  /**
    Over every run, one id gets at most `max_per_epoch` blind signatures in an epoch;
    a batch of 2^32 items or more counts as its size cast to `u32`.
   */
  lemma QuotaConserved(cfg: Config, init: RotState, acts: seq<Action>, epoch: u64, id: Bytes)
    requires cfg.maxPerEpoch < U32_MAX
    ensures CastFor(Exec(cfg, init, acts).issued, epoch, id) <= cfg.maxPerEpoch
    ensures BatchesWithin(acts, U32_MAX) ==> SignedFor(Exec(cfg, init, acts).issued, epoch, id) <= cfg.maxPerEpoch
  {
    hide Exec;
    Charged(cfg, init, acts, epoch, id);
    if BatchesWithin(acts, U32_MAX) {
      ShortBatchesInFull(cfg, init, acts, epoch, id);
    }
  }

  // ---- The quota's exact bounds ----

  /** A request for `blinded` at version `v`, under the authorization for it that allows one item. */
  function Presented(cfg: Config, v: u32, blinded: seq<Bytes>, eat: Bytes): (a: Action)
    requires cfg.authorizer.gate(eat, cfg.h(BindingPreimage(blinded))).Ok?
    ensures a.Sign? && a.req.blinded == blinded && a.epoch == 0
  {
    var binding := cfg.h(BindingPreimage(blinded));
    Sign(SignRequest(TokenChallenge(TOKEN_TYPE, [], [], []), v, blinded, binding),
         AuthorizeEvidence(cfg.h, cfg.f, cfg.authorizer, eat, binding, 1, 0).value, 0, 0, _ => [])
  }

  /** One acceptance, then its authorization presented `n` times. */
  function Replays(cfg: Config, init: RotState, blinded: seq<Bytes>, eat: Bytes, n: nat): seq<Action>
    requires cfg.authorizer.gate(eat, cfg.h(BindingPreimage(blinded))).Ok?
  {
    if n == 0 then [Attest(eat, cfg.h(BindingPreimage(blinded)), 1, 0)]
    else Replays(cfg, init, blinded, eat, n - 1) + [Presented(cfg, init.current.pk.keyVersion, blinded, eat)]
  }

  lemma PresentedIsSigned(cfg: Config, s: Sys, blinded: seq<Bytes>, eat: Bytes)
    requires cfg.f.Correct() && AsU32(|blinded|) <= 1
    requires cfg.authorizer.gate(eat, cfg.h(BindingPreimage(blinded))).Ok?
    requires var a := Presented(cfg, s.rot.current.pk.keyVersion, blinded, eat);
             SaturatingAdd32(UsedIn(s.counters, 0, a.auth.rateLimitId), AsU32(|blinded|)) <= cfg.maxPerEpoch
    ensures var a := Presented(cfg, s.rot.current.pk.keyVersion, blinded, eat);
            var after := Do(cfg, s, a);
            after.rot == s.rot && |after.issued| == |s.issued| + 1
            && UsedIn(after.counters, 0, a.auth.rateLimitId)
               == AsU32(UsedIn(s.counters, 0, a.auth.rateLimitId) + AsU32(|blinded|))
  {
    hide BindingPreimage, RateLimitId;
    var auth := Presented(cfg, s.rot.current.pk.keyVersion, blinded, eat).auth;
    assert SignedBytes(auth) == SignedBytes(auth.(sig := []));
  }

  lemma CountWraps(n: nat, c: nat)
    requires n > 0 && c <= 1
    ensures AsU32(AsU32((n - 1) * c) + c) == AsU32(n * c)
    ensures c == 0 ==> AsU32((n - 1) * c) == 0
  {
    assert c == 0 ==> n * c == 0 && (n - 1) * c == 0;
    assert c == 1 ==> n * c == n && (n - 1) * c == n - 1;
  }

  /** `s` has returned `n` times the batch, each time charging its size cast to `u32`. */
  ghost predicate Replayed(cfg: Config, init: RotState, blinded: seq<Bytes>, eat: Bytes, n: nat, s: Sys)
    requires cfg.authorizer.gate(eat, cfg.h(BindingPreimage(blinded))).Ok?
  {
    var id := Presented(cfg, init.current.pk.keyVersion, blinded, eat).auth.rateLimitId;
    s.rot == init && SignedFor(s.issued, 0, id) == n * |blinded|
    && UsedIn(s.counters, 0, id) == AsU32(n * AsU32(|blinded|))
  }

  /** A batch that the quota never refuses, whatever was charged before. */
  ghost predicate NeverRefused(cfg: Config, blinded: seq<Bytes>) {
    AsU32(|blinded|) == 0 || (|blinded| == 1 && cfg.maxPerEpoch == U32_MAX)
  }

  lemma ReplayStep(cfg: Config, init: RotState, blinded: seq<Bytes>, eat: Bytes, n: nat, s: Sys)
    requires cfg.f.Correct() && cfg.authorizer.gate(eat, cfg.h(BindingPreimage(blinded))).Ok?
    requires NeverRefused(cfg, blinded) && Replayed(cfg, init, blinded, eat, n, s)
    ensures Replayed(cfg, init, blinded, eat, n + 1,
                     Do(cfg, s, Presented(cfg, init.current.pk.keyVersion, blinded, eat)))
  {
    hide BindingPreimage, Presented, Do, UsedIn, SignedFor, CastFor;
    var a := Presented(cfg, init.current.pk.keyVersion, blinded, eat);
    CountWraps(n + 1, AsU32(|blinded|));
    PresentedIsSigned(cfg, s, blinded, eat);
    SignAdds(cfg, s, a, 0, a.auth.rateLimitId);
    assert (n + 1) * |blinded| == n * |blinded| + |blinded|;
  }

  lemma NothingReplayed(cfg: Config, init: RotState, blinded: seq<Bytes>, eat: Bytes)
    requires cfg.authorizer.gate(eat, cfg.h(BindingPreimage(blinded))).Ok?
    ensures Replayed(cfg, init, blinded, eat, 0, Exec(cfg, init, Replays(cfg, init, blinded, eat, 0)))
  {
    hide BindingPreimage, Presented, AuthorizeEvidence;
    assert Replays(cfg, init, blinded, eat, 0)[..0] == [];
  }

  /** `n` presentations of such a batch give `n` times the batch. */
  lemma {:induction false} ReplaysAreSigned(cfg: Config, init: RotState, blinded: seq<Bytes>, eat: Bytes, n: nat)
    requires cfg.f.Correct() && cfg.authorizer.gate(eat, cfg.h(BindingPreimage(blinded))).Ok?
    requires NeverRefused(cfg, blinded)
    ensures Replayed(cfg, init, blinded, eat, n, Exec(cfg, init, Replays(cfg, init, blinded, eat, n)))
  {
    hide BindingPreimage, Presented, AuthorizeEvidence, Do, Replayed;
    var acts := Replays(cfg, init, blinded, eat, n);
    if n == 0 {
      NothingReplayed(cfg, init, blinded, eat);
    } else {
      ReplaysAreSigned(cfg, init, blinded, eat, n - 1);
      assert acts[..|acts| - 1] == Replays(cfg, init, blinded, eat, n - 1);
      ReplayStep(cfg, init, blinded, eat, n - 1, Exec(cfg, init, acts[..|acts| - 1]));
    }
  }

  lemma {:induction false} ReplaysWithin(cfg: Config, init: RotState, blinded: seq<Bytes>, eat: Bytes, n: nat)
    requires cfg.authorizer.gate(eat, cfg.h(BindingPreimage(blinded))).Ok?
    ensures BatchesWithin(Replays(cfg, init, blinded, eat, n), |blinded|)
  {
    hide BindingPreimage, AuthorizeEvidence;
    if n > 0 {
      ReplaysWithin(cfg, init, blinded, eat, n - 1);
    }
  }

  /** 2^32 empty items: a batch whose size is cast to 0. */
  function UncountedBatch(): (b: seq<Bytes>)
    ensures |b| == 0x1_0000_0000
  {
    seq(0x1_0000_0000, _ => [])
  }

  /**
    Quota conservation holds over all runs exactly when batches stay below 2^32 items
    and the quota below 2^32 - 1. Otherwise one accepted evidence is enough: a batch
    of 2^32 items is charged nothing, and at 2^32 - 1 the quota never refuses.
   */
  lemma QuotaConservedIff(cfg: Config, init: RotState, size: nat, eat1: Bytes, eat2: Bytes)
    requires cfg.f.Correct()
    requires cfg.authorizer.gate(eat1, cfg.h(BindingPreimage([[]]))).Ok?
    requires cfg.authorizer.gate(eat2, cfg.h(BindingPreimage(UncountedBatch()))).Ok?
    ensures (forall acts, epoch, id :: BatchesWithin(acts, size) ==>
               SignedFor(Exec(cfg, init, acts).issued, epoch, id) <= cfg.maxPerEpoch)
       <==> size == 0 || (size <= U32_MAX && cfg.maxPerEpoch < U32_MAX)
  {
    hide Exec, SignedFor, BindingPreimage, Presented, Replays;
    if size <= U32_MAX && cfg.maxPerEpoch < U32_MAX {
      forall acts, epoch, id | BatchesWithin(acts, size)
        ensures SignedFor(Exec(cfg, init, acts).issued, epoch, id) <= cfg.maxPerEpoch
      {
        QuotaConserved(cfg, init, acts, epoch, id);
      }
    } else if size == 0 {
      forall acts, epoch, id | BatchesWithin(acts, 0)
        ensures SignedFor(Exec(cfg, init, acts).issued, epoch, id) == 0
      {
        NothingAsked(cfg, init, acts, epoch, id);
      }
    } else {
      var blinded: seq<Bytes> := if size > U32_MAX then UncountedBatch() else [[]];
      var eat, n := if size > U32_MAX then eat2 else eat1, 0x1_0000_0000;
      ReplaysAreSigned(cfg, init, blinded, eat, n);
      ReplaysWithin(cfg, init, blinded, eat, n);
      var id := Presented(cfg, init.current.pk.keyVersion, blinded, eat).auth.rateLimitId;
      assert BatchesWithin(Replays(cfg, init, blinded, eat, n), size);
      assert SignedFor(Exec(cfg, init, Replays(cfg, init, blinded, eat, n)).issued, 0, id) > cfg.maxPerEpoch;
    }
  }

  lemma {:induction false} NothingAsked(cfg: Config, init: RotState, acts: seq<Action>, epoch: u64, id: Bytes)
    requires BatchesWithin(acts, 0)
    ensures SignedFor(Exec(cfg, init, acts).issued, epoch, id) == 0
  {
    if |acts| > 0 {
      hide Issue, AuthorizeEvidence, Commit;
      hide Do, SignedFor, CastFor;
      var front, a := acts[..|acts| - 1], acts[|acts| - 1];
      NothingAsked(cfg, init, front, epoch, id);
      if a.Sign? {
        SignAdds(cfg, Exec(cfg, init, front), a, epoch, id);
      } else {
        OthersAddNothing(cfg, Exec(cfg, init, front), a);
      }
    }
  }

  // ---- Rotation, overlapping or not ----

  /** The last published key with version `v`. */
  function LastWith(published: seq<Published>, v: u32): Option<IssuerPublicKey> {
    if |published| == 0 then None
    else if published[|published| - 1].pk.keyVersion == v then Some(published[|published| - 1].pk)
    else LastWith(published[..|published| - 1], v)
  }

  ghost predicate RotInv(cfg: Config, r: RotState) {
    |r.published| > 0
    && r.signedHead == PublishedHead(cfg.h, cfg.f, cfg.logSk, r.published)
    && r.current.pk == r.published[|r.published| - 1].pk
    && forall v: u32 :: (if v in r.history then Some(r.history[v]) else None) == LastWith(r.published, v)
  }

  lemma CommitKeepsInv(cfg: Config, r: RotState, issuer: Issuer, now: u64)
    requires RotInv(cfg, r)
    ensures RotInv(cfg, Commit(cfg, r, issuer, now))
  {
    hide PublishedHead;
    var after := Commit(cfg, r, issuer, now);
    assert after.published[..|after.published| - 1] == r.published;
  }

  lemma InitInv(cfg: Config, sk: Bytes, key: Bytes, now: u64)
    ensures RotInv(cfg, InitRot(cfg, sk, key, now))
    ensures InOrder(Sys(InitRot(cfg, sk, key, now), map[], map[], [], []))
  {
    hide PublishedHead;
    var r := InitRot(cfg, sk, key, now);
    forall v: u32 ensures LastWith(r.published, v) == if v == 1 then Some(IssuerPublicKey(1, key)) else None {
      assert r.published[..0] == [];
    }
  }

  lemma {:induction false} RotationKeepsInv(cfg: Config, sk: Bytes, key: Bytes, now: u64, acts: seq<Action>)
    ensures RotInv(cfg, Exec(cfg, InitRot(cfg, sk, key, now), acts).rot)
  {
    hide PublishedHead, Issue, AuthorizeEvidence, RotInv, InitRot, Commit;
    InitInv(cfg, sk, key, now);
    if |acts| > 0 {
      var front, a := acts[..|acts| - 1], acts[|acts| - 1];
      RotationKeepsInv(cfg, sk, key, now, front);
      var s := Exec(cfg, InitRot(cfg, sk, key, now), front);
      if a.CommitRotate? && a.id in s.pending {
        CommitKeepsInv(cfg, s.rot, Issuer(a.sk, IssuerPublicKey(s.pending[a.id], a.key)), a.now);
      }
    }
  }

  lemma {:induction false} LogOnlyGrows(cfg: Config, init: RotState, acts: seq<Action>, k: nat)
    requires k <= |acts|
    ensures Exec(cfg, init, acts[..k]).rot.published <= Exec(cfg, init, acts).rot.published
  {
    hide Issue, AuthorizeEvidence, PublishedHead;
    if k < |acts| {
      var front := acts[..|acts| - 1];
      LogOnlyGrows(cfg, init, front, k);
      assert front[..k] == acts[..k];
    } else {
      assert acts[..k] == acts;
    }
  }

  /**
    In every reachable state, also with overlapping rotations: the records only
    grew since any earlier state, the published head verifies against the
    published records, the current version's history entry is the current key, and
    every history entry is the last key published with its version.
   */
  lemma RotationInvariant(cfg: Config, sk: Bytes, key: Bytes, now: u64, acts: seq<Action>, k: nat)
    requires cfg.f.Correct() && k <= |acts|
    requires |Exec(cfg, InitRot(cfg, sk, key, now), acts).rot.published| <= U64_MAX
    ensures var init := InitRot(cfg, sk, key, now);
            var earlier, r := Exec(cfg, init, acts[..k]).rot, Exec(cfg, init, acts).rot;
            OperatorLog(cfg.h, earlier.published) <= OperatorLog(cfg.h, r.published)
            && VerifyLog(cfg.h, cfg.f, cfg.LogKey(), OperatorLog(cfg.h, r.published), r.signedHead) == Ok(())
            && r.current.pk.keyVersion in r.history
            && r.history[r.current.pk.keyVersion] == r.current.pk
            && forall v: u32 :: (if v in r.history then Some(r.history[v]) else None) == LastWith(r.published, v)
  {
    hide PublishedHead, Exec, VerifyLog;
    var init := InitRot(cfg, sk, key, now);
    var r := Exec(cfg, init, acts).rot;
    RotationKeepsInv(cfg, sk, key, now, acts);
    LogOnlyGrows(cfg, init, acts, k);
    HonestLogVerifies(cfg.h, cfg.f, cfg.logSk, r.published);
    assert LastWith(r.published, r.current.pk.keyVersion) == Some(r.current.pk);
  }

  /** Every head message the log key signs in a run: one for each state's published head. */
  function HeadMessages(cfg: Config, init: RotState, acts: seq<Action>): set<Bytes> {
    set k | 0 <= k <= |acts| :: HeadMessage(cfg, Exec(cfg, init, acts[..k]).rot)
  }

  function HeadMessage(cfg: Config, r: RotState): Bytes {
    SthMessage(r.signedHead.seq_, HeadOf(cfg.h, OperatorEntries(cfg.h, r.published)))
  }

  /**
    The issuer only signs snapshots of its one log, so log soundness applies to
    whatever a client or an origin accepts under its log key.
   */
  lemma IssuerSignsOnlySnapshots(cfg: Config, sk: Bytes, key: Bytes, now: u64, acts: seq<Action>)
    ensures var init := InitRot(cfg, sk, key, now);
            SignsOnlySnapshots(cfg.h, Exec(cfg, init, acts).rot.published, HeadMessages(cfg, init, acts))
  {
    hide Exec, InitRot, SthMessage, HeadOf, OperatorEntries;
    var init := InitRot(cfg, sk, key, now);
    var all := Exec(cfg, init, acts).rot.published;
    forall m | m in HeadMessages(cfg, init, acts)
      ensures exists n :: 0 <= n <= |all| && m == SnapshotMessage(cfg.h, all, n)
    {
      var k :| 0 <= k <= |acts| && m == HeadMessage(cfg, Exec(cfg, init, acts[..k]).rot);
      var r := Exec(cfg, init, acts[..k]).rot;
      RotationKeepsInv(cfg, sk, key, now, acts[..k]);
      LogOnlyGrows(cfg, init, acts, k);
      assert all[..|r.published|] == r.published;
      EntriesLength(cfg.h, r.published);
      assert m == SnapshotMessage(cfg.h, all, |r.published|);
    }
  }

  /** One lifetime of the issuer process: its first key, its start, and what happened until it ended. */
  datatype Life = Life(sk: Bytes, key: Bytes, startedAt: u64, acts: seq<Action>)

  function Init(cfg: Config, life: Life): RotState { InitRot(cfg, life.sk, life.key, life.startedAt) }

  function PublishedIn(cfg: Config, life: Life): seq<Published> { Exec(cfg, Init(cfg, life), life.acts).rot.published }

  /** Every head message the log key signs over lives that each begin with an empty log. */
  function MessagesOver(cfg: Config, lives: seq<Life>): set<Bytes> {
    set i, m | 0 <= i < |lives| && m in HeadMessages(cfg, Init(cfg, lives[i]), lives[i].acts) :: m
  }

  /** Over restarts, each signed head is a snapshot of the log of one life, as log soundness over lives requires. */
  lemma LivesSignOnlySnapshots(cfg: Config, lives: seq<Life>)
    ensures forall m :: m in MessagesOver(cfg, lives) ==>
              exists i :: 0 <= i < |lives| && SignsOnlySnapshots(cfg.h, PublishedIn(cfg, lives[i]), {m})
  {
    hide HeadMessages, PublishedIn, Init, Exec, InitRot;
    forall m | m in MessagesOver(cfg, lives)
      ensures exists i :: 0 <= i < |lives| && SignsOnlySnapshots(cfg.h, PublishedIn(cfg, lives[i]), {m})
    {
      var i :| 0 <= i < |lives| && m in HeadMessages(cfg, Init(cfg, lives[i]), lives[i].acts);
      LifeSignsOnlySnapshots(cfg, lives[i], m);
    }
  }

  lemma LifeSignsOnlySnapshots(cfg: Config, life: Life, m: Bytes)
    requires m in HeadMessages(cfg, Init(cfg, life), life.acts)
    ensures SignsOnlySnapshots(cfg.h, PublishedIn(cfg, life), {m})
  {
    hide HeadMessages, Exec, InitRot;
    IssuerSignsOnlySnapshots(cfg, life.sk, life.key, life.startedAt, life.acts);
  }

  lemma EntriesLength(h: Hash, ps: seq<Published>)
    ensures |OperatorEntries(h, ps)| == |ps|
  {
  }

  // ---- The signing key ----

  /** The first key pair and every pair that a rotation brings in follow the scheme's law. */
  ghost predicate LawfulPairs(cfg: Config, sk: Bytes, key: Bytes, acts: seq<Action>) {
    cfg.p.Lawful(key, sk)
    && forall k :: 0 <= k < |acts| && acts[k].CommitRotate? ==> cfg.p.Lawful(acts[k].key, acts[k].sk)
  }

  /**
    In every reachable state, overlapping rotations included, the issuer signs with
    the secret key that belongs to the public key it publishes.
   */
  lemma {:induction false} SigningKeyIsLawful(cfg: Config, sk: Bytes, key: Bytes, now: u64, acts: seq<Action>)
    requires LawfulPairs(cfg, sk, key, acts)
    ensures var current := Exec(cfg, InitRot(cfg, sk, key, now), acts).rot.current;
            cfg.p.Lawful(current.pk.key, current.sk)
  {
    hide PublishedHead, Issue, AuthorizeEvidence, Pomfrit.Lawful;
    if |acts| > 0 {
      var front := acts[..|acts| - 1];
      forall k | 0 <= k < |front| ensures front[k] == acts[k] {
      }
      SigningKeyIsLawful(cfg, sk, key, now, front);
    }
  }

  // ---- Rotation without overlap ----

  /** A rotation that is begun and abandoned leaves the state as it was. */
  lemma AbandonedLeavesNoTrace(cfg: Config, s: Sys, id: nat)
    requires id !in s.pending
    ensures Do(cfg, Do(cfg, s, BeginRotate(id)), AbandonRotate(id)) == s
  {
    assert s.pending[id := NextVersion(s.rot)] - {id} == s.pending;
  }

  /** A rotation begins only when no other is under way. */
  ghost predicate OneAtATime(cfg: Config, init: RotState, acts: seq<Action>) {
    forall k :: 0 <= k < |acts| && acts[k].BeginRotate? ==> Exec(cfg, init, acts[..k]).pending == map[]
  }

  ghost predicate InOrder(s: Sys) {
    |s.rot.published| > 0
    && s.rot.current.pk == s.rot.published[|s.rot.published| - 1].pk
    && (forall i :: 0 <= i < |s.rot.published| ==> s.rot.published[i].pk.keyVersion == AsU32(i + 1))
    && (forall id :: id in s.pending ==> s.pending[id] == AsU32(|s.rot.published| + 1))
    && (forall i, j :: i in s.pending && j in s.pending ==> i == j)
  }

  lemma StepKeepsOrder(cfg: Config, s: Sys, a: Action)
    requires InOrder(s) && (a.BeginRotate? ==> s.pending == map[])
    ensures InOrder(Do(cfg, s, a))
  {
    hide PublishedHead, Issue, AuthorizeEvidence;
    if a.CommitRotate? && a.id in s.pending {
      CommitKeepsOrder(cfg, s, a);
    } else {
      hide Commit;
    }
  }

  lemma CommitKeepsOrder(cfg: Config, s: Sys, a: Action)
    requires InOrder(s) && a.CommitRotate? && a.id in s.pending
    ensures InOrder(Do(cfg, s, a))
  {
    hide PublishedHead, Issue, AuthorizeEvidence;
    var after := Do(cfg, s, a);
    assert after.rot.published[..|s.rot.published|] == s.rot.published;
    assert after.pending == map[] by {
      assert forall id :: id in s.pending ==> id == a.id;
    }
  }

  lemma {:induction false} VersionsInOrder(cfg: Config, sk: Bytes, key: Bytes, now: u64, acts: seq<Action>)
    requires OneAtATime(cfg, InitRot(cfg, sk, key, now), acts)
    ensures InOrder(Exec(cfg, InitRot(cfg, sk, key, now), acts))
  {
    hide Do, InOrder, InitRot;
    InitInv(cfg, sk, key, now);
    if |acts| > 0 {
      var init := InitRot(cfg, sk, key, now);
      var front := acts[..|acts| - 1];
      forall k | 0 <= k < |front| ensures front[k] == acts[k] && front[..k] == acts[..k] {
      }
      VersionsInOrder(cfg, sk, key, now, front);
      StepKeepsOrder(cfg, Exec(cfg, init, front), acts[|acts| - 1]);
    }
  }

  lemma {:induction false} LastWithOwnVersion(published: seq<Published>, i: nat)
    requires i < |published| <= U32_MAX
    requires forall j :: 0 <= j < |published| ==> published[j].pk.keyVersion == AsU32(j + 1)
    ensures LastWith(published, i + 1) == Some(published[i].pk)
  {
    if i < |published| - 1 {
      LastWithOwnVersion(published[..|published| - 1], i);
    }
  }

  /**
    When rotations do not overlap, record `i` has version `i + 1`, and its key id
    is that of the history entry for that version.
   */
  lemma {:induction false} RecordsMatchHistory(cfg: Config, sk: Bytes, key: Bytes, now: u64, acts: seq<Action>, i: nat)
    requires OneAtATime(cfg, InitRot(cfg, sk, key, now), acts)
    requires i < |Exec(cfg, InitRot(cfg, sk, key, now), acts).rot.published| <= U32_MAX
    ensures var r := Exec(cfg, InitRot(cfg, sk, key, now), acts).rot;
            OperatorLog(cfg.h, r.published)[i].keyVersion == i + 1
            && i + 1 in r.history && r.history[i + 1] == r.published[i].pk
            && DecodeRecord(OperatorLog(cfg.h, r.published)[i]).Ok?
            && DecodeRecord(OperatorLog(cfg.h, r.published)[i]).value.keyId == TokenKeyId(cfg.h, r.history[i + 1])
  {
    hide Exec, PublishedHead, LastWith, DecodeRecord, DecodeRecords;
    var s := Exec(cfg, InitRot(cfg, sk, key, now), acts);
    RotationKeepsInv(cfg, sk, key, now, acts);
    VersionsInOrder(cfg, sk, key, now, acts);
    LastWithOwnVersion(s.rot.published, i);
    OperatorDecodes(cfg.h, s.rot.published);
  }
}
