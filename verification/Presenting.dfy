/**
  Requests that an origin grants: from a cold cache through the log and
  `/keys/{version}`, from the cache afterwards, and once more for every version
  under which a key is held (cli/src/origin.rs).
 */
module Presenting {
  import opened Encoding
  import opened Issuance
  import opened Keys
  import opened Mint
  import opened Redemption
  import opened Resolution
  import opened Transparency
  import opened Wire

  // ---- Steps ----

  /** The events of one request; `fetch` is what happens between cache lookup and check. */
  function Script(id: nat, n: nat, t: SpendToken, fetch: seq<Event>): seq<Event> {
    [Arrive(id, n, t), LookUpKey(id)] + fetch + [CheckToken(id), Redeem(id), Deliver(id)]
  }

  lemma {:induction false} RunAppend(env: Env, w: World, a: seq<Event>, b: seq<Event>)
    ensures Run(env, w, a + b) == Run(env, Run(env, w, a), b)
  {
    hide Next;
    if |b| == 0 {
      assert a + b == a;
    } else {
      RunAppend(env, w, a, b[..|b| - 1]);
      assert (a + b)[..|a + b| - 1] == a + b[..|b| - 1];
    }
  }

  lemma RunThree(env: Env, w: World, a: Event, b: Event, c: Event)
    ensures Run(env, w, [a, b]) == Next(env, Next(env, w, a), b)
    ensures Run(env, w, [a, b, c]) == Next(env, Next(env, Next(env, w, a), b), c)
  {
    hide Next;
    assert [a, b, c][..2] == [a, b] && [a, b][..1] == [a] && [a][..0] == [];
    assert Run(env, w, []) == w;
    assert Run(env, w, [a]) == Next(env, w, a);
  }

  lemma RunScript(env: Env, w: World, id: nat, n: nat, t: SpendToken, fetch: seq<Event>)
    ensures Run(env, w, Script(id, n, t, fetch)) ==
            Run(env, Run(env, Run(env, w, [Arrive(id, n, t), LookUpKey(id)]), fetch),
                [CheckToken(id), Redeem(id), Deliver(id)])
  {
    hide Run;
    RunAppend(env, w, [Arrive(id, n, t), LookUpKey(id)] + fetch, [CheckToken(id), Redeem(id), Deliver(id)]);
    RunAppend(env, w, [Arrive(id, n, t), LookUpKey(id)], fetch);
  }

  /** `w` with request `id` in a new phase. */
  function Put(w: World, id: nat, n: nat, t: SpendToken, phase: Phase): World {
    w.(requests := w.requests[id := Request(n, t, phase)])
  }

  function CachedAt(w: World, n: nat, keyId: Digest, e: KeyEntry): World
    requires n in w.origins
  {
    w.(origins := w.origins[n := w.origins[n].(keys := w.origins[n].keys[keyId := e])])
  }

  lemma PutTwice(w: World, id: nat, n: nat, t: SpendToken, p: Phase, q: Phase)
    ensures Put(Put(w, id, n, t, p), id, n, t, q) == Put(w, id, n, t, q)
  {
    assert w.requests[id := Request(n, t, p)][id := Request(n, t, q)] == w.requests[id := Request(n, t, q)];
  }

  /** A step that only moves the request. */
  lemma Moves(w: World, id: nat, n: nat, t: SpendToken, p: Phase, q: Phase)
    ensures Moved(Put(w, id, n, t, p), id, q) == Put(w, id, n, t, q)
  {
    PutTwice(w, id, n, t, p, q);
  }

  lemma Opens(env: Env, w: World, id: nat, n: nat, t: SpendToken)
    requires n in w.origins && id !in w.requests
    ensures var keys := w.origins[n].keys;
            Run(env, w, [Arrive(id, n, t), LookUpKey(id)]) ==
            Put(w, id, n, t, if t.tokenKeyId in keys then HaveKey(keys[t.tokenKeyId]) else AwaitKt)
  {
    RunThree(env, w, Arrive(id, n, t), LookUpKey(id), Deliver(id));
    var keys := w.origins[n].keys;
    assert Next(env, w, Arrive(id, n, t)) == Put(w, id, n, t, Arrived);
    Moves(w, id, n, t, Arrived, if t.tokenKeyId in keys then HaveKey(keys[t.tokenKeyId]) else AwaitKt);
  }

  lemma StepKt(env: Env, w: World, id: nat, n: nat, t: SpendToken, kt: KtResponse)
    ensures var r := KtLookup(env.h, env.f, env.pinned, kt, t.tokenKeyId);
            Next(env, Put(w, id, n, t, AwaitKt), KtReply(id, kt)) ==
            Put(w, id, n, t, if r.Ok? && r.value.Some? then AwaitKey(r.value.value) else Refused)
  {
    hide KtLookup;
    var r := KtLookup(env.h, env.f, env.pinned, kt, t.tokenKeyId);
    Moves(w, id, n, t, AwaitKt, if r.Ok? && r.value.Some? then AwaitKey(r.value.value) else Refused);
  }

  lemma StepKey(env: Env, w: World, id: nat, n: nat, t: SpendToken, v: u32, pk: IssuerPublicKey)
    ensures var r := KeyCheck(env.h, pk, t.tokenKeyId);
            Next(env, Put(w, id, n, t, AwaitKey(v)), KeyReply(id, pk)) ==
            Put(w, id, n, t, if r.Ok? then Resolved(r.value) else Refused)
    ensures Next(env, Put(w, id, n, t, AwaitKey(v)), FetchFails(id)) == Put(w, id, n, t, Refused)
  {
    hide KeyCheck;
    var r := KeyCheck(env.h, pk, t.tokenKeyId);
    Moves(w, id, n, t, AwaitKey(v), if r.Ok? then Resolved(r.value) else Refused);
    Moves(w, id, n, t, AwaitKey(v), Refused);
  }

  lemma StepFill(env: Env, w: World, id: nat, n: nat, t: SpendToken, e: KeyEntry)
    requires n in w.origins
    ensures Next(env, Put(w, id, n, t, Resolved(e)), FillCache(id)) ==
            Put(CachedAt(w, n, t.tokenKeyId, e), id, n, t, HaveKey(e))
  {
    Moves(CachedAt(w, n, t.tokenKeyId, e), id, n, t, Resolved(e), HaveKey(e));
  }

  lemma RefusedStays(env: Env, w: World, id: nat, n: nat, t: SpendToken, e: Event)
    requires e == FillCache(id) || e == FetchFails(id) || (e.KeyReply? && e.id == id)
    ensures Next(env, Put(w, id, n, t, Refused), e) == Put(w, id, n, t, Refused)
  {
  }

  // ---- Fetching a key ----

  /** What the origin gets from `/keys/{version}` in state `r2`, after `/kt` in state `r1`. */
  function Fetched(cfg: Config, id: nat, keyId: Digest, r1: RotState, r2: RotState): Event {
    match KtLookup(cfg.h, cfg.f, cfg.LogKey(), ServedKt(cfg, r1), keyId)
    case Ok(Some(version)) => if version in r2.history then KeyReply(id, r2.history[version]) else FetchFails(id)
    case _ => FetchFails(id)
  }

  /** The issuer's replies, served in state `r1` and then in state `r2`. */
  function Fetch(cfg: Config, id: nat, keyId: Digest, r1: RotState, r2: RotState): seq<Event> {
    [KtReply(id, ServedKt(cfg, r1)), Fetched(cfg, id, keyId, r1, r2), FillCache(id)]
  }

  /** The origins of `env` pin the issuer's log key. */
  ghost predicate Pins(env: Env, cfg: Config) { env.h == cfg.h && env.f == cfg.f && env.pinned == cfg.LogKey() }

  lemma FetchResolves(env: Env, cfg: Config, w: World, id: nat, n: nat, t: SpendToken, r1: RotState, r2: RotState)
    requires Pins(env, cfg) && n in w.origins && t.tokenKeyId !in w.origins[n].keys
    ensures var entry := KeyFor(cfg, w.origins[n], r1, r2, t.tokenKeyId);
            Run(env, Put(w, id, n, t, AwaitKt), Fetch(cfg, id, t.tokenKeyId, r1, r2)) ==
              if entry.Some? then Put(CachedAt(w, n, t.tokenKeyId, entry.value), id, n, t, HaveKey(entry.value))
              else Put(w, id, n, t, Refused)
  {
    hide KtLookup, KeyCheck, ServedKt, Next, Put, CachedAt, Run;
    var keyId, e1, e2 := t.tokenKeyId, KtReply(id, ServedKt(cfg, r1)), Fetched(cfg, id, t.tokenKeyId, r1, r2);
    RunThree(env, Put(w, id, n, t, AwaitKt), e1, e2, FillCache(id));
    StepKt(env, w, id, n, t, ServedKt(cfg, r1));
    RefusedStays(env, w, id, n, t, e2);
    RefusedStays(env, w, id, n, t, FillCache(id));
    match KtLookup(cfg.h, cfg.f, cfg.LogKey(), ServedKt(cfg, r1), keyId) {
      case Ok(Some(version)) =>
        var pk := if version in r2.history then r2.history[version] else IssuerPublicKey(0, []);
        CheckKeepsEntry(env.h, pk, keyId);
        StepKey(env, w, id, n, t, version, pk);
        StepFill(env, w, id, n, t, KeyEntry(pk));
      case _ =>
    }
  }

  lemma CheckKeepsEntry(h: Hash, pk: IssuerPublicKey, keyId: Digest)
    ensures KeyCheck(h, pk, keyId).Ok? ==> KeyCheck(h, pk, keyId).value == KeyEntry(pk)
  {
  }

  /**
    From arrival to the check, a request follows `key_for`: with the issuer's replies
    it holds exactly the key that `key_for` gives, now cached under its id, or it is
    refused where `key_for` gives none; nothing else changes.
   */
  lemma RequestFollowsKeyFor(env: Env, cfg: Config, w: World, id: nat, n: nat, t: SpendToken,
                             r1: RotState, r2: RotState)
    requires Pins(env, cfg) && n in w.origins && id !in w.requests
    ensures var entry := KeyFor(cfg, w.origins[n], r1, r2, t.tokenKeyId);
            Run(env, Run(env, w, [Arrive(id, n, t), LookUpKey(id)]), Fetch(cfg, id, t.tokenKeyId, r1, r2)) ==
              if entry.Some? then Put(CachedAt(w, n, t.tokenKeyId, entry.value), id, n, t, HaveKey(entry.value))
              else Put(w, id, n, t, Refused)
  {
    Opens(env, w, id, n, t);
    var o := w.origins[n];
    if t.tokenKeyId in o.keys {
      var have := Put(w, id, n, t, HaveKey(o.keys[t.tokenKeyId]));
      CachedIgnoresFetch(env, cfg, have, id, t.tokenKeyId, r1, r2);
      assert o.keys[t.tokenKeyId := o.keys[t.tokenKeyId]] == o.keys;
      assert w.origins[n := o] == w.origins;
    } else {
      hide Run, Next, KeyFor, Fetch;
      FetchResolves(env, cfg, w, id, n, t, r1, r2);
    }
  }

  lemma CachedIgnoresFetch(env: Env, cfg: Config, w: World, id: nat, keyId: Digest, r1: RotState, r2: RotState)
    requires id in w.requests && w.requests[id].phase.HaveKey?
    ensures Run(env, w, Fetch(cfg, id, keyId, r1, r2)) == w
  {
    hide KtLookup, KeyCheck, ServedKt;
    RunThree(env, w, KtReply(id, ServedKt(cfg, r1)), Fetched(cfg, id, keyId, r1, r2), FillCache(id));
  }

  // ---- Checking and spending ----

  /**
    At origin `n`, which is in order, the token `t` under `pk` answers a challenge that
    is among the last 64 issued, and it is unspent under every version that `versions` picks.
   */
  ghost predicate Presentable(env: Env, w: World, n: nat, pk: IssuerPublicKey, c: TokenChallenge, t: SpendToken,
                              versions: u32 -> bool)
  {
    n in w.origins && OriginOk(env.h, w.origins[n])
    && InWindow(w.origins[n].issued, |w.origins[n].issued|, c)
    && VerifyToken(env.h, env.p, pk, t, c).Ok?
    && forall v: u32 :: versions(v) ==> (v, t.nonce) !in w.seen
  }

  lemma SameDigestVerifies(env: Env, pk: IssuerPublicKey, t: SpendToken, c: TokenChallenge, d: TokenChallenge)
    requires ChallengeDigest(env.h, c) == ChallengeDigest(env.h, d)
    ensures VerifyToken(env.h, env.p, pk, t, c) == VerifyToken(env.h, env.p, pk, t, d)
  {
  }

  lemma VerifiedDigest(env: Env, pk: IssuerPublicKey, t: SpendToken, c: TokenChallenge)
    requires VerifyToken(env.h, env.p, pk, t, c).Ok?
    ensures ChallengeDigest(env.h, c) == t.challengeDigest
  {
  }

  /** A challenge among the last 64 issued is found, or one with the same digest that serves as well. */
  lemma HeldIsFound(env: Env, o: OriginState, pk: IssuerPublicKey, c: TokenChallenge, t: SpendToken)
    requires OriginOk(env.h, o) && InWindow(o.issued, |o.issued|, c) && VerifyToken(env.h, env.p, pk, t, c).Ok?
    ensures var found := ChallengeFor(env.h, o.recent, t.challengeDigest);
            found.Some? && VerifyToken(env.h, env.p, pk, t, found.value).Ok?
            && (o.requireContext ==> found.value.HasRedemptionContext())
  {
    hide VerifyToken, ChallengeDigest;
    VerifiedDigest(env, pk, t, c);
    var i :| 0 <= i < |o.issued| && |o.issued| - MAX_RECENT_CHALLENGES <= i && o.issued[i] == c;
    assert o.recent[i - (|o.issued| - |o.recent|)] == c;
    var found := ChallengeFor(env.h, o.recent, t.challengeDigest);
    SameDigestVerifies(env, pk, t, c, found.value);
    assert found.value in o.issued;
  }

  lemma StepCheck(env: Env, w: World, id: nat, n: nat, e: KeyEntry, c: TokenChallenge, t: SpendToken)
    requires n in w.origins && OriginOk(env.h, w.origins[n])
    requires InWindow(w.origins[n].issued, |w.origins[n].issued|, c) && VerifyToken(env.h, env.p, e.pk, t, c).Ok?
    ensures var o := w.origins[n];
            var found := ChallengeFor(env.h, o.recent, t.challengeDigest);
            found.Some? && Next(env, Put(w, id, n, t, HaveKey(e)), CheckToken(id)) ==
                           Put(w, id, n, t, Spending(e, found.value, |o.issued|))
  {
    hide Checked, ChallengeFor, OriginOk, InWindow, VerifyToken;
    HeldPasses(env, w.origins[n], e, c, t);
    Moves(w, id, n, t, HaveKey(e), Checked(env, w.origins[n], t, e));
  }

  lemma HeldPasses(env: Env, o: OriginState, e: KeyEntry, c: TokenChallenge, t: SpendToken)
    requires OriginOk(env.h, o) && InWindow(o.issued, |o.issued|, c) && VerifyToken(env.h, env.p, e.pk, t, c).Ok?
    ensures var found := ChallengeFor(env.h, o.recent, t.challengeDigest);
            found.Some? && Checked(env, o, t, e) == Spending(e, found.value, |o.issued|)
  {
    HeldIsFound(env, o, e.pk, c, t);
    hide VerifyToken, ChallengeFor, OriginOk, InWindow;
  }

  lemma StepRedeem(env: Env, w: World, id: nat, n: nat, e: KeyEntry, c: TokenChallenge, lookup: nat, t: SpendToken)
    requires (e.pk.keyVersion, t.nonce) !in w.seen
    ensures Next(env, Put(w, id, n, t, Spending(e, c, lookup)), Redeem(id)) ==
            Put(Recorded(w, e, t), id, n, t, Replied(e, c, lookup, true))
  {
    Moves(Recorded(w, e, t), id, n, t, Spending(e, c, lookup), Replied(e, c, lookup, true));
  }

  lemma StepDeliver(env: Env, w: World, id: nat, n: nat, e: KeyEntry, c: TokenChallenge, lookup: nat, t: SpendToken)
    ensures Next(env, Put(w, id, n, t, Replied(e, c, lookup, true)), Deliver(id)) ==
            Put(w, id, n, t, Granted(e, c, lookup))
  {
    Moves(w, id, n, t, Replied(e, c, lookup, true), Granted(e, c, lookup));
  }

  /** `w` with the spend of `t` under `e` on record. */
  function Recorded(w: World, e: KeyEntry, t: SpendToken): World {
    w.(seen := w.seen + {(e.pk.keyVersion, t.nonce)})
  }

  /** The checked part of a request ends in a grant, recorded under the key's version. */
  lemma Concludes(env: Env, w: World, id: nat, n: nat, e: KeyEntry, c: TokenChallenge, t: SpendToken)
    requires Presentable(env, w, n, e.pk, c, t, v => v == e.pk.keyVersion)
    ensures var found := ChallengeFor(env.h, w.origins[n].recent, t.challengeDigest);
            found.Some? &&
            Run(env, Put(w, id, n, t, HaveKey(e)), [CheckToken(id), Redeem(id), Deliver(id)]) ==
              Put(Recorded(w, e, t), id, n, t, Granted(e, found.value, |w.origins[n].issued|))
  {
    StepCheck(env, w, id, n, e, c, t);
    hide VerifyToken, ChallengeFor, OriginOk, InWindow, Next, Put, Run;
    var found, lookup := ChallengeFor(env.h, w.origins[n].recent, t.challengeDigest).value, |w.origins[n].issued|;
    RunThree(env, Put(w, id, n, t, HaveKey(e)), CheckToken(id), Redeem(id), Deliver(id));
    StepRedeem(env, w, id, n, e, found, lookup, t);
    StepDeliver(env, Recorded(w, e, t), id, n, e, found, lookup, t);
  }

  // ---- Whole requests ----

  /** How a granted request leaves the world: granted, its key cached, its spend recorded, nothing else changed. */
  ghost predicate GrantedIn(w: World, after: World, id: nat, n: nat, e: KeyEntry, t: SpendToken) {
    n in w.origins
    && exists c: TokenChallenge ::
         after == Put(Recorded(CachedAt(w, n, t.tokenKeyId, e), e, t), id, n, t, Granted(e, c, |w.origins[n].issued|))
  }

  /** A valid unspent token is granted by any origin in order that has cached its key. */
  lemma ReadyOriginGrants(env: Env, w: World, id: nat, n: nat, c: TokenChallenge, t: SpendToken)
    requires n in w.origins && id !in w.requests && t.tokenKeyId in w.origins[n].keys
    requires var pk := w.origins[n].keys[t.tokenKeyId].pk; Presentable(env, w, n, pk, c, t, v => v == pk.keyVersion)
    ensures GrantedIn(w, Run(env, w, Script(id, n, t, [])), id, n, w.origins[n].keys[t.tokenKeyId], t)
  {
    hide VerifyToken, ChallengeFor, OriginOk, InWindow, Next, Put;
    RunScript(env, w, id, n, t, []);
    Opens(env, w, id, n, t);
    var o := w.origins[n];
    Concludes(env, w, id, n, o.keys[t.tokenKeyId], c, t);
    CachedAlready(w, n, t.tokenKeyId);
  }

  lemma CachedAlready(w: World, n: nat, keyId: Digest)
    requires n in w.origins && keyId in w.origins[n].keys
    ensures CachedAt(w, n, keyId, w.origins[n].keys[keyId]) == w
  {
    var o := w.origins[n];
    assert o.keys[keyId := o.keys[keyId]] == o.keys;
    assert w.origins[n := o] == w.origins;
  }

  /** A valid unspent token is granted whenever `key_for` resolves its key, which is then cached. */
  lemma ResolvedOriginGrants(env: Env, cfg: Config, w: World, id: nat, n: nat, c: TokenChallenge, t: SpendToken,
                             r1: RotState, r2: RotState)
    requires Pins(env, cfg) && n in w.origins && id !in w.requests
    requires KeyFor(cfg, w.origins[n], r1, r2, t.tokenKeyId).Some?
    requires var e := KeyFor(cfg, w.origins[n], r1, r2, t.tokenKeyId).value;
             TokenKeyId(env.h, e.pk) == t.tokenKeyId && Presentable(env, w, n, e.pk, c, t, v => v == e.pk.keyVersion)
    ensures GrantedIn(w, Run(env, w, Script(id, n, t, Fetch(cfg, id, t.tokenKeyId, r1, r2))), id, n,
                      KeyFor(cfg, w.origins[n], r1, r2, t.tokenKeyId).value, t)
  {
    hide Next, Run, VerifyToken, ChallengeFor, InWindow, KeyFor, Fetch, Script, TokenKeyId, OriginOk, Put;
    var o := w.origins[n];
    var e := KeyFor(cfg, o, r1, r2, t.tokenKeyId).value;
    RunScript(env, w, id, n, t, Fetch(cfg, id, t.tokenKeyId, r1, r2));
    RequestFollowsKeyFor(env, cfg, w, id, n, t, r1, r2);
    CacheKeepsOrigin(env.h, o, t.tokenKeyId, e);
    Concludes(env, CachedAt(w, n, t.tokenKeyId, e), id, n, e, c, t);
  }

  // ---- Rotated-out keys ----

  /** The issuer's key has versions in order: no rotation overlaps another, and versions do not wrap. */
  ghost predicate Orderly(cfg: Config, init: RotState, acts: seq<Action>) {
    OneAtATime(cfg, init, acts) && |Exec(cfg, init, acts).rot.published| <= U32_MAX
  }

  /**
    A token under any key ever published is granted by an origin of any age. With
    `/kt` served in one state and `/keys/{version}` in a later one, rotations not
    overlapping, the request ends in a grant and the key is cached under its id; or two
    keys collide.
   */
  lemma RotatedKeyIsGranted(cfg: Config, sk: Bytes, key: Bytes, now: u64, acts: seq<Action>, k: nat, i: nat,
                            env: Env, w: World, id: nat, n: nat, c: TokenChallenge, t: SpendToken)
    returns (e: KeyEntry)
    requires Pins(env, cfg) && cfg.f.Correct() && k <= |acts| && Orderly(cfg, InitRot(cfg, sk, key, now), acts)
    requires i < |Exec(cfg, InitRot(cfg, sk, key, now), acts[..k]).rot.published|
    requires id !in w.requests
    requires var pk := Exec(cfg, InitRot(cfg, sk, key, now), acts[..k]).rot.published[i].pk;
             Presentable(env, w, n, pk, c, t, _ => true)
    ensures var init := InitRot(cfg, sk, key, now);
            var r1, r2 := Exec(cfg, init, acts[..k]).rot, Exec(cfg, init, acts).rot;
            var pk := r1.published[i].pk;
            TokenKeyId(cfg.h, e.pk) == TokenKeyId(cfg.h, pk) == t.tokenKeyId
            && (Collision(cfg.h, {e.pk.key, pk.key})
                || (e.pk.key == pk.key
                    && GrantedIn(w, Run(env, w, Script(id, n, t, Fetch(cfg, id, t.tokenKeyId, r1, r2))), id, n, e, t)))
  {
    var init := InitRot(cfg, sk, key, now);
    var r1, r2 := Exec(cfg, init, acts[..k]).rot, Exec(cfg, init, acts).rot;
    var pk := r1.published[i].pk;
    VerifiedKeyId(env, pk, t, c);
    hide Exec, InitRot, KeyFor, Fetch, Script, Run, GrantedIn, VerifyToken, TokenKeyId, InWindow, OneAtATime, OriginOk;
    RotationStrandsNoKey(cfg, sk, key, now, acts, k, env, w.origins[n], i);
    e := KeyFor(cfg, w.origins[n], r1, r2, t.tokenKeyId).value;
    if !Collision(cfg.h, {e.pk.key, pk.key}) {
      SameKeyVerifies(env, pk, e.pk.keyVersion, t, c);
      assert pk.(keyVersion := e.pk.keyVersion) == e.pk;
      ResolvedOriginGrants(env, cfg, w, id, n, c, t, r1, r2);
    }
  }

  lemma VerifiedKeyId(env: Env, pk: IssuerPublicKey, t: SpendToken, c: TokenChallenge)
    requires VerifyToken(env.h, env.p, pk, t, c).Ok?
    ensures TokenKeyId(env.h, pk) == t.tokenKeyId
  {
  }

  /** A verdict does not depend on the version of the key. */
  lemma SameKeyVerifies(env: Env, pk: IssuerPublicKey, version: u32, t: SpendToken, c: TokenChallenge)
    ensures VerifyToken(env.h, env.p, pk.(keyVersion := version), t, c) == VerifyToken(env.h, env.p, pk, t, c)
  {
  }

  /** After a grant, another token under the same key is granted from the cache, without a fetch. */
  lemma ThenServedFromCache(env: Env, w: World, after: World, id: nat, n: nat, e: KeyEntry, t: SpendToken,
                            id2: nat, c2: TokenChallenge, t2: SpendToken)
    requires GrantedIn(w, after, id, n, e, t) && TokenKeyId(env.h, e.pk) == t.tokenKeyId == t2.tokenKeyId
    requires id2 !in w.requests && id2 != id && t2.nonce != t.nonce
    requires Presentable(env, w, n, e.pk, c2, t2, v => v == e.pk.keyVersion)
    ensures GrantedIn(after, Run(env, after, Script(id2, n, t2, [])), id2, n, e, t2)
  {
    hide Run, Script, InWindow, VerifyToken, OriginOk, TokenKeyId;
    CacheKeepsOrigin(env.h, w.origins[n], t.tokenKeyId, e);
    ReadyOriginGrants(env, after, id2, n, c2, t2);
  }

  // ---- One key under two versions ----

  /**
    One version per key is needed: two origins that hold the same key under two
    versions both grant the same valid token, because the redeemer files the two
    spends under different epochs.
   */
  lemma TwoVersionsTwoGrants(env: Env, w: World, pk: IssuerPublicKey, version: u32, c: TokenChallenge, t: SpendToken)
    requires version != pk.keyVersion && 0 !in w.requests && 1 !in w.requests
    requires Presentable(env, w, 0, pk, c, t, v => v == pk.keyVersion || v == version)
    requires Presentable(env, w, 1, pk, c, t, v => v == pk.keyVersion || v == version)
    requires w.origins[0].keys == map[t.tokenKeyId := KeyEntry(pk)]
    requires w.origins[1].keys == map[t.tokenKeyId := KeyEntry(pk.(keyVersion := version))]
    ensures var after := Run(env, w, Script(0, 0, t, []) + Script(1, 1, t, []));
            GrantedTo(after, 0, t) && GrantedTo(after, 1, t)
  {
    hide Run, Script, InWindow, VerifyToken, OriginOk;
    RunAppend(env, w, Script(0, 0, t, []), Script(1, 1, t, []));
    ReadyOriginGrants(env, w, 0, 0, c, t);
    SameKeyVerifies(env, pk, version, t, c);
    CachedAlready(w, 0, t.tokenKeyId);
    ReadyOriginGrants(env, Run(env, w, Script(0, 0, t, [])), 1, 1, c, t);
  }

  /** `o` with one cached key. */
  function Holding(o: OriginState, keyId: Digest, pk: IssuerPublicKey): OriginState {
    o.(keys := map[keyId := KeyEntry(pk)])
  }

  /** Two new origins that hold the same key under two versions. */
  function TwoOrigins(o: OriginState, pk: IssuerPublicKey, keyId: Digest, x: u32, y: u32): World {
    World(map[0 := Holding(o, keyId, pk.(keyVersion := x)), 1 := Holding(o, keyId, pk.(keyVersion := y))], map[], {})
  }

  /** The same after both have handed out `c`. */
  function TwoIssued(o: OriginState, pk: IssuerPublicKey, keyId: Digest, x: u32, y: u32, c: TokenChallenge): World {
    World(map[0 := WithChallenge(Holding(o, keyId, pk.(keyVersion := x)), c),
              1 := WithChallenge(Holding(o, keyId, pk.(keyVersion := y)), c)], map[], {})
  }

  /** Both hand out the same challenge; then the token is presented to each. */
  function TwiceOver(context: Digest, t: SpendToken): seq<Event> {
    [IssueChallenge(0, context), IssueChallenge(1, context)] + (Script(0, 0, t, []) + Script(1, 1, t, []))
  }

  /**
    A token that verifies under `pk` on a challenge of some origin is granted at most
    once, over all runs from fresh origins in which its key is cached and served
    under versions from `vs`, exactly when `vs` has at most one element.
   */
  lemma TokenGrantedOnceIff(env: Env, t: SpendToken, vs: set<u32>, pk: IssuerPublicKey, o: OriginState, context: Digest)
    requires o.recent == [] && o.issued == []
    requires VerifyToken(env.h, env.p, pk, t, FreshChallenge(o, context)).Ok?
    ensures (forall init, events, a, b ::
               (Starts(env, init) && VersionsWithin(env, t.tokenKeyId, vs, init, events)
                && GrantedTo(Run(env, init, events), a, t) && GrantedTo(Run(env, init, events), b, t)) ==> a == b)
       <==> AtMostOne(vs)
  {
    hide Run, GrantedTo, AtMostOne, VerifyToken;
    if AtMostOne(vs) {
      forall init, events, a, b |
        Starts(env, init) && VersionsWithin(env, t.tokenKeyId, vs, init, events)
        && GrantedTo(Run(env, init, events), a, t) && GrantedTo(Run(env, init, events), b, t)
        ensures a == b
      {
        TokenGrantedOnce(env, t, vs, init, events, a, b);
      }
    } else {
      var x, y := TwoOf(vs);
      var init, events := TwoOrigins(o, pk, t.tokenKeyId, x, y), TwiceOver(context, t);
      TwoOriginsStart(env, t, vs, pk, o, context, x, y);
      TwoOriginsGrant(env, t, pk, o, context, x, y);
      assert GrantedTo(Run(env, init, events), 0, t) && GrantedTo(Run(env, init, events), 1, t);
    }
  }

  lemma TwoOf(vs: set<u32>) returns (x: u32, y: u32)
    requires !AtMostOne(vs)
    ensures x in vs && y in vs && x != y
  {
    x, y :| x in vs && y in vs && x != y;
  }

  lemma TwoOriginsStart(env: Env, t: SpendToken, vs: set<u32>, pk: IssuerPublicKey, o: OriginState, context: Digest,
                        x: u32, y: u32)
    requires o.recent == [] && o.issued == [] && x in vs && y in vs
    requires VerifyToken(env.h, env.p, pk, t, FreshChallenge(o, context)).Ok?
    ensures Starts(env, TwoOrigins(o, pk, t.tokenKeyId, x, y))
    ensures VersionsWithin(env, t.tokenKeyId, vs, TwoOrigins(o, pk, t.tokenKeyId, x, y), TwiceOver(context, t))
  {
    VerifiedKeyId(env, pk, t, FreshChallenge(o, context));
    hide VerifyToken, FreshChallenge;
    assert TokenKeyId(env.h, pk.(keyVersion := x)) == TokenKeyId(env.h, pk) == TokenKeyId(env.h, pk.(keyVersion := y));
    forall k | 0 <= k < |TwiceOver(context, t)| ensures !TwiceOver(context, t)[k].KeyReply? {
    }
  }

  lemma TwoOriginsGrant(env: Env, t: SpendToken, pk: IssuerPublicKey, o: OriginState, context: Digest, x: u32, y: u32)
    requires o.recent == [] && o.issued == [] && x != y
    requires VerifyToken(env.h, env.p, pk, t, FreshChallenge(o, context)).Ok?
    ensures var after := Run(env, TwoOrigins(o, pk, t.tokenKeyId, x, y), TwiceOver(context, t));
            GrantedTo(after, 0, t) && GrantedTo(after, 1, t)
  {
    hide VerifyToken, OriginOk, InWindow, Run, Script, FreshChallenge, WithChallenge, Presentable, GrantedTo;
    var c := FreshChallenge(o, context);
    var w := TwoIssued(o, pk, t.tokenKeyId, x, y, c);
    BothIssued(env, o, pk, t.tokenKeyId, x, y, context);
    RunAppend(env, TwoOrigins(o, pk, t.tokenKeyId, x, y), [IssueChallenge(0, context), IssueChallenge(1, context)],
              Script(0, 0, t, []) + Script(1, 1, t, []));
    SameKeyVerifies(env, pk, x, t, c);
    NewIsPresentable(env, w, 0, o, pk.(keyVersion := x), x, context, t, y);
    NewIsPresentable(env, w, 1, o, pk.(keyVersion := x), y, context, t, y);
    KeysStay(Holding(o, t.tokenKeyId, pk.(keyVersion := x)), c);
    KeysStay(Holding(o, t.tokenKeyId, pk.(keyVersion := y)), c);
    TwoVersionsTwoGrants(env, w, pk.(keyVersion := x), y, c, t);
  }

  lemma KeysStay(o: OriginState, c: TokenChallenge)
    ensures WithChallenge(o, c).keys == o.keys
  {
  }

  lemma BothIssued(env: Env, o: OriginState, pk: IssuerPublicKey, keyId: Digest, x: u32, y: u32, context: Digest)
    ensures Run(env, TwoOrigins(o, pk, keyId, x, y), [IssueChallenge(0, context), IssueChallenge(1, context)])
         == TwoIssued(o, pk, keyId, x, y, FreshChallenge(o, context))
  {
    hide WithChallenge;
    var w := TwoOrigins(o, pk, keyId, x, y);
    RunThree(env, w, IssueChallenge(0, context), IssueChallenge(1, context), Deliver(0));
    assert FreshChallenge(w.origins[0], context) == FreshChallenge(o, context) == FreshChallenge(w.origins[1], context);
  }

  /** A new origin that has handed out one challenge of its own is in order and holds it. */
  lemma NewIsPresentable(env: Env, w: World, n: nat, o: OriginState, pk: IssuerPublicKey, held: u32,
                         context: Digest, t: SpendToken, version: u32)
    requires o.recent == [] && o.issued == []
    requires VerifyToken(env.h, env.p, pk, t, FreshChallenge(o, context)).Ok?
    requires n in w.origins && w.seen == {}
    requires w.origins[n] ==
             WithChallenge(Holding(o, t.tokenKeyId, pk.(keyVersion := held)), FreshChallenge(o, context))
    ensures Presentable(env, w, n, pk, FreshChallenge(o, context), t, v => v == pk.keyVersion || v == version)
  {
    hide VerifyToken, OriginOk, InWindow, WithChallenge, TokenKeyId, OwnChallenge;
    var c, origin := FreshChallenge(o, context), Holding(o, t.tokenKeyId, pk.(keyVersion := held));
    VerifiedKeyId(env, pk, t, c);
    KeyIdOfVersion(env, pk, held);
    HoldingIsInOrder(env.h, o, t.tokenKeyId, pk.(keyVersion := held));
    IssueKeepsOrigin(env.h, origin, context);
    JustIssued(origin, c);
  }

  lemma KeyIdOfVersion(env: Env, pk: IssuerPublicKey, version: u32)
    ensures TokenKeyId(env.h, pk.(keyVersion := version)) == TokenKeyId(env.h, pk)
  {
  }

  lemma HoldingIsInOrder(h: Hash, o: OriginState, keyId: Digest, pk: IssuerPublicKey)
    requires o.recent == [] && o.issued == [] && TokenKeyId(h, pk) == keyId
    ensures OriginOk(h, Holding(o, keyId, pk))
  {
    hide TokenKeyId, OwnChallenge;
  }

  lemma JustIssued(o: OriginState, c: TokenChallenge)
    ensures InWindow(WithChallenge(o, c).issued, |WithChallenge(o, c).issued|, c)
  {
    hide Newest;
    assert WithChallenge(o, c).issued[|o.issued|] == c;
  }
}
