/**
  Rotated-out keys: which of the keys an issuer has ever published an origin can
  still resolve through the log and `/keys/{version}` (cli/src/origin.rs,
  cli/src/issuer.rs).
 */
module Resolution {
  import opened Authorize
  import opened Encoding
  import opened Issuance
  import opened Keys
  import opened Mint
  import opened Redemption
  import opened Text
  import opened Transparency

  /** `GET /kt` */
  function ServedKt(cfg: Config, r: RotState): KtResponse {
    KtResponse(HexEncode(cfg.LogKey()), OperatorLog(cfg.h, r.published), r.signedHead)
  }

  /**
    `key_for`: the cache, then the log as served in state `r1`, then the key as
    served in state `r2`, which may be later.
   */
  function KeyFor(cfg: Config, o: OriginState, r1: RotState, r2: RotState, keyId: Digest): Option<KeyEntry> {
    if keyId in o.keys then Some(o.keys[keyId])
    else
      match KtLookup(cfg.h, cfg.f, cfg.LogKey(), ServedKt(cfg, r1), keyId)
      case Err(_) => None
      case Ok(None) => None
      case Ok(Some(version)) =>
        if version !in r2.history then None
        else
          match KeyCheck(cfg.h, r2.history[version], keyId)
          case Err(_) => None
          case Ok(entry) => Some(entry)
  }

  /**
    Whoever serves the log, a version found in it was published by the log's owner
    with this very key id, or two of the strings hashed on the way collide.
   */
  lemma ResolvedKeyWasPublished(h: Hash, f: Faest, pub: Digest, ps: seq<Published>, signed: set<Bytes>,
                                kt: KtResponse, keyId: Digest, version: u32)
    requires SignsOnlySnapshots(h, ps, signed)
    requires KtLookup(h, f, pub, kt, keyId) == Ok(Some(version))
    requires HeadUnforged(h, f, pub, kt.records, kt.signedHead, signed)
    ensures HexDecode(Trim(kt.logPub)) == Some(pub) && f.keyOk(pub)
    ensures (exists i :: 0 <= i < |ps| && TokenKeyId(h, ps[i].pk) == keyId && ps[i].pk.keyVersion == version)
         || Collision(h, HashedRecords(h, kt.records) + Hashed(h, OperatorEntries(h, ps)))
  {
    hide VerifyLog, SthMessage, DecodeRecords, HeadOf, Hashed, HashedRecords;
    hide HexEncode, EqIgnoreCase, SnapshotMessage, TokenKeyId;
    VerifyLogMeans(h, f, pub, kt.records, kt.signedHead);
    LogSoundness(h, f, pub, ps, signed, kt.records, kt.signedHead);
    var i := FindRecord(kt.records, HexEncode(keyId), 0).value;
    FoundIffUnpadded(kt.records[i], DecodeRecords(kt.records).value[i], keyId);
    assert |OperatorEntries(h, ps)| == |ps|;
    if |kt.records| <= |ps| {
      assert OperatorEntries(h, ps[..|kt.records|])[i].keyId == TokenKeyId(h, ps[i].pk);
    }
  }

  // ---- Which keys an origin trusts ----

  /** The log's owner published a key with this id. */
  ghost predicate Vouched(h: Hash, ps: seq<Published>, keyId: Digest) {
    exists i :: 0 <= i < |ps| && TokenKeyId(h, ps[i].pk) == keyId
  }

  /** The owner of the pinned key signed snapshots of `ps` only, and no reply carries a forged head. */
  ghost predicate HonestLogKey(env: Env, ps: seq<Published>, signed: set<Bytes>, events: seq<Event>) {
    SignsOnlySnapshots(env.h, ps, signed)
    && forall k :: 0 <= k < |events| && events[k].KtReply? ==>
         HeadUnforged(env.h, env.f, env.pinned, events[k].kt.records, events[k].kt.signedHead, signed)
  }

  ghost predicate CollisionIn(env: Env, ps: seq<Published>, e: Event) {
    e.KtReply? && Collision(env.h, HashedRecords(env.h, e.kt.records) + Hashed(env.h, OperatorEntries(env.h, ps)))
  }

  ghost predicate Known(env: Env, ps: seq<Published>, init: World, n: nat, keyId: Digest) {
    (n in init.origins && keyId in init.origins[n].keys) || Vouched(env.h, ps, keyId)
  }

  ghost predicate TrustsOnlyKnown(env: Env, ps: seq<Published>, init: World, w: World) {
    (forall n, keyId :: n in w.origins && keyId in w.origins[n].keys ==> Known(env, ps, init, n, keyId))
    && forall id :: id in w.requests && (w.requests[id].phase.AwaitKey? || HasEntry(w.requests[id].phase)) ==>
         Known(env, ps, init, w.requests[id].origin, w.requests[id].token.tokenKeyId)
  }

  lemma KtReplyTrusts(env: Env, ps: seq<Published>, signed: set<Bytes>, init: World, w: World, e: Event)
    requires TrustsOnlyKnown(env, ps, init, w) && e.KtReply? && !CollisionIn(env, ps, e)
    requires SignsOnlySnapshots(env.h, ps, signed)
    requires HeadUnforged(env.h, env.f, env.pinned, e.kt.records, e.kt.signedHead, signed)
    ensures TrustsOnlyKnown(env, ps, init, Next(env, w, e))
  {
    hide KtLookup, SignsOnlySnapshots, HeadUnforged, Collision, TokenKeyId, HashedRecords, Hashed, Known;
    if e.id in w.requests && w.requests[e.id].phase.AwaitKt? {
      var keyId := w.requests[e.id].token.tokenKeyId;
      var r := KtLookup(env.h, env.f, env.pinned, e.kt, keyId);
      if r.Ok? && r.value.Some? {
        ResolvedKeyWasPublished(env.h, env.f, env.pinned, ps, signed, e.kt, keyId, r.value.value);
        VouchedIsKnown(env, ps, init, w.requests[e.id].origin, keyId);
      }
    }
  }

  lemma VouchedIsKnown(env: Env, ps: seq<Published>, init: World, n: nat, keyId: Digest)
    requires Vouched(env.h, ps, keyId)
    ensures Known(env, ps, init, n, keyId)
  {
  }

  lemma OthersTrust(env: Env, ps: seq<Published>, init: World, w: World, e: Event)
    requires TrustsOnlyKnown(env, ps, init, w) && !e.KtReply?
    ensures TrustsOnlyKnown(env, ps, init, Next(env, w, e))
  {
    hide Known, KeyCheck, ChallengeFor, VerifyToken, FreshChallenge;
  }

  /**
    An origin trusts a key only if it is in the log: in every run, each key that an
    origin has cached, or that a request of it uses, was cached at the start or has an
    id that the owner of the pinned log key published; or one log reply exhibits a
    collision.
   */
  lemma {:induction false} TrustedKeysAreLogged(
    env: Env, ps: seq<Published>, signed: set<Bytes>, init: World, events: seq<Event>)
    requires Starts(env, init) && HonestLogKey(env, ps, signed, events)
    ensures TrustsOnlyKnown(env, ps, init, Run(env, init, events))
         || exists k :: 0 <= k < |events| && CollisionIn(env, ps, events[k])
  {
    hide Next, CollisionIn, SignsOnlySnapshots, HeadUnforged;
    if |events| == 0 {
      StartTrusts(env, ps, init);
    } else {
      var front, e := events[..|events| - 1], events[|events| - 1];
      forall k | 0 <= k < |front| ensures front[k] == events[k] {
      }
      TrustedKeysAreLogged(env, ps, signed, init, front);
      if TrustsOnlyKnown(env, ps, init, Run(env, init, front)) && !CollisionIn(env, ps, e) {
        if e.KtReply? {
          KtReplyTrusts(env, ps, signed, init, Run(env, init, front), e);
        } else {
          OthersTrust(env, ps, init, Run(env, init, front), e);
        }
      }
    }
  }

  lemma StartTrusts(env: Env, ps: seq<Published>, init: World)
    requires Starts(env, init)
    ensures TrustsOnlyKnown(env, ps, init, init)
  {
  }

  /** Every cached key has an id that the log's owner published. */
  ghost predicate AllVouched(env: Env, ps: seq<Published>, w: World) {
    forall n, keyId :: n in w.origins && keyId in w.origins[n].keys ==> Vouched(env.h, ps, keyId)
  }

  ghost predicate NoCollision(env: Env, ps: seq<Published>, events: seq<Event>) {
    forall k :: 0 <= k < |events| ==> !CollisionIn(env, ps, events[k])
  }

  /**
    Origins hold published keys only, over all runs without a forged head or a
    collision, exactly when the keys they are started with are published.
   */
  lemma TrustedKeysIff(env: Env, ps: seq<Published>, signed: set<Bytes>, init: World)
    requires Starts(env, init) && SignsOnlySnapshots(env.h, ps, signed)
    ensures (forall events :: HonestLogKey(env, ps, signed, events) && NoCollision(env, ps, events) ==>
               AllVouched(env, ps, Run(env, init, events)))
       <==> AllVouched(env, ps, init)
  {
    hide Run, SignsOnlySnapshots, HeadUnforged, CollisionIn, Vouched;
    if AllVouched(env, ps, init) {
      forall events | HonestLogKey(env, ps, signed, events) && NoCollision(env, ps, events)
        ensures AllVouched(env, ps, Run(env, init, events))
      {
        TrustedKeysAreLogged(env, ps, signed, init, events);
        var w := Run(env, init, events);
        forall n, keyId | n in w.origins && keyId in w.origins[n].keys ensures Vouched(env.h, ps, keyId) {
          assert Known(env, ps, init, n, keyId);
        }
      }
    } else {
      assert Run(env, init, []) == init by { NothingRun(env, init); }
      assert HonestLogKey(env, ps, signed, []) && NoCollision(env, ps, []);
    }
  }

  lemma NothingRun(env: Env, init: World)
    ensures Run(env, init, []) == init
  {
  }

  // ---- Rotated-out keys ----

  /** The first published key with this id. */
  ghost predicate FirstWithId(h: Hash, ps: seq<Published>, keyId: Digest, i: nat) {
    i < |ps| && TokenKeyId(h, ps[i].pk) == keyId && forall j :: 0 <= j < i ==> TokenKeyId(h, ps[j].pk) != keyId
  }

  lemma HonestLookup(cfg: Config, r: RotState, keyId: Digest, i: nat)
    requires cfg.f.Correct() && RotInv(cfg, r) && |r.published| <= U64_MAX
    requires FirstWithId(cfg.h, r.published, keyId, i)
    ensures KtLookup(cfg.h, cfg.f, cfg.LogKey(), ServedKt(cfg, r), keyId) == Ok(Some(r.published[i].pk.keyVersion))
  {
    hide HexEncode, HexDecode, EqIgnoreCase, VerifyLog, Trim, PublishedHead, TokenKeyId;
    HonestLogVerifies(cfg.h, cfg.f, cfg.logSk, r.published);
    HexRoundTrip(cfg.LogKey());
    HexIsTrimmed(HexEncode(cfg.LogKey()));
    var records := OperatorLog(cfg.h, r.published);
    forall j | 0 <= j < |records|
      ensures EqIgnoreCase(records[j].tokenKeyId, HexEncode(keyId)) <==> TokenKeyId(cfg.h, r.published[j].pk) == keyId
    {
      PrintedIdsCompare(TokenKeyId(cfg.h, r.published[j].pk), keyId);
    }
  }

  /**
    In every run, overlapping rotations included, an origin with a cold cache
    resolves a published key id exactly when the last record that carries the
    version of its first record holds the same key id.
   */
  lemma ResolvesIff(cfg: Config, sk: Bytes, key: Bytes, now: u64, acts: seq<Action>, k: nat,
                    o: OriginState, keyId: Digest, i: nat)
    requires cfg.f.Correct() && k <= |acts| && keyId !in o.keys
    requires var r1 := Exec(cfg, InitRot(cfg, sk, key, now), acts[..k]).rot;
             |r1.published| <= U64_MAX && FirstWithId(cfg.h, r1.published, keyId, i)
    ensures var init := InitRot(cfg, sk, key, now);
            var r1, r2 := Exec(cfg, init, acts[..k]).rot, Exec(cfg, init, acts).rot;
            var last := LastWith(r2.published, r1.published[i].pk.keyVersion);
            KeyFor(cfg, o, r1, r2, keyId) ==
              if last.Some? && TokenKeyId(cfg.h, last.value) == keyId then Some(KeyEntry(last.value)) else None
  {
    hide Exec, InitRot, KtLookup, ServedKt, LastWith, PublishedHead, TokenKeyId;
    var init := InitRot(cfg, sk, key, now);
    RotationKeepsInv(cfg, sk, key, now, acts[..k]);
    RotationKeepsInv(cfg, sk, key, now, acts);
    var r1, r2 := Exec(cfg, init, acts[..k]).rot, Exec(cfg, init, acts).rot;
    HonestLookup(cfg, r1, keyId, i);
    var v := r1.published[i].pk.keyVersion;
    assert (if v in r2.history then Some(r2.history[v]) else None) == LastWith(r2.published, v);
  }

  /** A key id that the log served does not list is not resolved, unless it is cached. */
  lemma UnpublishedIsUnresolved(cfg: Config, o: OriginState, r1: RotState, r2: RotState, keyId: Digest)
    requires keyId !in o.keys && !Vouched(cfg.h, r1.published, keyId)
    ensures KeyFor(cfg, o, r1, r2, keyId) == None
  {
    hide HexEncode, EqIgnoreCase, VerifyLog, TokenKeyId;
    var records := OperatorLog(cfg.h, r1.published);
    forall j | 0 <= j < |records| ensures !EqIgnoreCase(records[j].tokenKeyId, HexEncode(keyId)) {
      PrintedIdsCompare(TokenKeyId(cfg.h, r1.published[j].pk), keyId);
    }
  }

  lemma FirstExists(h: Hash, ps: seq<Published>, i: nat) returns (j: nat)
    requires i < |ps|
    ensures j <= i && FirstWithId(h, ps, TokenKeyId(h, ps[i].pk), j)
  {
    hide TokenKeyId;
    var id := TokenKeyId(h, ps[i].pk);
    j := 0;
    while TokenKeyId(h, ps[j].pk) != id
      invariant j <= i && forall q :: 0 <= q < j ==> TokenKeyId(h, ps[q].pk) != id
      decreases i - j
    {
      j := j + 1;
    }
  }

  /**
    Rotation strands no key: when rotations do not overlap, an origin of any age
    resolves the id of every key ever published, whatever was published between its
    two fetches, to a verifier for that same key, or two keys collide.
   */
  lemma RotationStrandsNoKey(cfg: Config, sk: Bytes, key: Bytes, now: u64, acts: seq<Action>, k: nat,
                             env: Env, o: OriginState, i: nat)
    requires cfg.f.Correct() && k <= |acts| && env.h == cfg.h && OriginOk(env.h, o)
    requires OneAtATime(cfg, InitRot(cfg, sk, key, now), acts)
    requires |Exec(cfg, InitRot(cfg, sk, key, now), acts).rot.published| <= U32_MAX
    requires i < |Exec(cfg, InitRot(cfg, sk, key, now), acts[..k]).rot.published|
    ensures var init := InitRot(cfg, sk, key, now);
            var r1, r2 := Exec(cfg, init, acts[..k]).rot, Exec(cfg, init, acts).rot;
            var pk := r1.published[i].pk;
            var entry := KeyFor(cfg, o, r1, r2, TokenKeyId(cfg.h, pk));
            entry.Some? && TokenKeyId(cfg.h, entry.value.pk) == TokenKeyId(cfg.h, pk)
            && (entry.value.pk.key == pk.key || Collision(cfg.h, {entry.value.pk.key, pk.key}))
  {
    hide Exec, InitRot, KtLookup, ServedKt, LastWith, PublishedHead, InOrder;
    var init := InitRot(cfg, sk, key, now);
    var r1, r2 := Exec(cfg, init, acts[..k]).rot, Exec(cfg, init, acts).rot;
    var keyId := TokenKeyId(cfg.h, r1.published[i].pk);
    LogOnlyGrows(cfg, init, acts, k);
    if keyId !in o.keys {
      var j := FirstExists(cfg.h, r1.published, i);
      ResolvesIff(cfg, sk, key, now, acts, k, o, keyId, j);
      VersionsInOrder(cfg, sk, key, now, acts);
      OrderMeans(Exec(cfg, init, acts), j);
      LastWithOwnVersion(r2.published, j);
      assert r2.published[j] == r1.published[j];
    }
  }

  lemma OrderMeans(s: Sys, j: nat)
    requires InOrder(s) && j < |s.rot.published| <= U32_MAX
    ensures forall i :: 0 <= i < |s.rot.published| ==> s.rot.published[i].pk.keyVersion == AsU32(i + 1)
    ensures s.rot.published[j].pk.keyVersion == j + 1
  {
  }

  /** Two rotations that both read the version before either commits. */
  function OverlappingRotations(skA: Bytes, keyA: Bytes, skB: Bytes, keyB: Bytes, now: u64): seq<Action> {
    [BeginRotate(1), BeginRotate(2), CommitRotate(1, skA, keyA, now), CommitRotate(2, skB, keyB, now)]
  }

  lemma {:induction false} OverlappingOutcome(cfg: Config, sk: Bytes, key: Bytes, now: u64,
                           skA: Bytes, keyA: Bytes, skB: Bytes, keyB: Bytes)
    ensures Exec(cfg, InitRot(cfg, sk, key, now), OverlappingRotations(skA, keyA, skB, keyB, now)).rot.published
         == [Published(IssuerPublicKey(1, key), now), Published(IssuerPublicKey(2, keyA), now),
             Published(IssuerPublicKey(2, keyB), now)]
  {
    hide PublishedHead, Issue, AuthorizeEvidence;
    var init, acts := InitRot(cfg, sk, key, now), OverlappingRotations(skA, keyA, skB, keyB, now);
    var s0 := Exec(cfg, init, []);
    assert acts[..3] == [acts[0], acts[1], acts[2]] && acts[..3][..2] == [acts[0], acts[1]];
    assert [acts[0], acts[1]][..1] == [acts[0]] && [acts[0]][..0] == [];
    var s1 := Exec(cfg, init, [acts[0]]);
    assert s1 == Do(cfg, s0, acts[0]);
    var s2 := Exec(cfg, init, [acts[0], acts[1]]);
    assert s2 == Do(cfg, s1, acts[1]);
    assert s2.pending[1] == 2 && s2.pending[2] == 2;
    var s3 := Exec(cfg, init, [acts[0], acts[1], acts[2]]);
    assert s3 == Do(cfg, s2, acts[2]);
    assert Exec(cfg, init, acts) == Do(cfg, s3, acts[3]);
  }

  /**
    Overlapping rotations strand a key: both publish version 2, the second replaces
    the history entry of the first, and no cold origin resolves the first key again.
   */
  lemma {:induction false} OverlapStrandsKey(cfg: Config, sk: Bytes, key: Bytes, now: u64,
                          skA: Bytes, keyA: Bytes, skB: Bytes, keyB: Bytes, o: OriginState)
    requires cfg.f.Correct() && cfg.h(keyA) != cfg.h(keyB) && cfg.h(keyA) != cfg.h(key)
    requires cfg.h(keyA) !in o.keys
    ensures var r := Exec(cfg, InitRot(cfg, sk, key, now), OverlappingRotations(skA, keyA, skB, keyB, now)).rot;
            |r.published| == 3 && r.published[1].pk == IssuerPublicKey(2, keyA)
            && KeyFor(cfg, o, r, r, cfg.h(keyA)) == None
  {
    hide Exec, InitRot, KeyFor;
    var acts := OverlappingRotations(skA, keyA, skB, keyB, now);
    OverlappingOutcome(cfg, sk, key, now, skA, keyA, skB, keyB);
    assert acts[..|acts|] == acts;
    ResolvesIff(cfg, sk, key, now, acts, |acts|, o, cfg.h(keyA), 1);
  }

  // ---- Restarts ----

  /**
    A restart begins a new log, at version 1, under the same log key. The new log
    verifies under the pinned key, so a cold origin follows it and no longer resolves
    an earlier key that it does not list; and a client that kept a head of the
    earlier life refuses the new log unless it begins with all the records of that
    head, or two of the strings hashed for the two logs collide.
   */
  lemma RestartIsNoticedByClients(cfg: Config, sk: Bytes, key: Bytes, now: u64, acts: seq<Action>,
                                  sk2: Bytes, key2: Bytes, now2: u64, acts2: seq<Action>,
                                  o: OriginState, keyId: Digest)
    requires cfg.f.Correct()
    requires |Exec(cfg, InitRot(cfg, sk, key, now), acts).rot.published| <= U64_MAX
    requires |Exec(cfg, InitRot(cfg, sk2, key2, now2), acts2).rot.published| <= U64_MAX
    requires keyId !in o.keys
    ensures var r1 := Exec(cfg, InitRot(cfg, sk, key, now), acts).rot;
            var r2 := Exec(cfg, InitRot(cfg, sk2, key2, now2), acts2).rot;
            var a, b := OperatorEntries(cfg.h, r1.published), OperatorEntries(cfg.h, r2.published);
            var ok := VerifyConsistency(cfg.h, Keep(r1.signedHead), OperatorLog(cfg.h, r2.published)).Ok?;
            VerifyLog(cfg.h, cfg.f, cfg.LogKey(), OperatorLog(cfg.h, r2.published), r2.signedHead).Ok?
            && (!Vouched(cfg.h, r2.published, keyId) ==> KeyFor(cfg, o, r2, r2, keyId) == None)
            && (a <= b ==> ok) && (ok ==> a <= b || Collision(cfg.h, Hashed(cfg.h, a) + Hashed(cfg.h, b)))
  {
    hide Exec, InitRot, VerifyLog, VerifyConsistency, KeyFor, Vouched, Hashed, PublishedHead;
    hide Collision, OperatorEntries;
    var r1 := Exec(cfg, InitRot(cfg, sk, key, now), acts).rot;
    var r2 := Exec(cfg, InitRot(cfg, sk2, key2, now2), acts2).rot;
    RotationKeepsInv(cfg, sk, key, now, acts);
    RotationKeepsInv(cfg, sk2, key2, now2, acts2);
    HonestLogVerifies(cfg.h, cfg.f, cfg.logSk, r2.published);
    ConsistentIffPrefix(cfg.h, cfg.f, cfg.logSk, r1.published, r2.published);
    if !Vouched(cfg.h, r2.published, keyId) {
      UnpublishedIsUnresolved(cfg, o, r2, r2, keyId);
    }
  }
}
