/**
  Origins and the central redeemer (cli/src/origin.rs, cli/src/redeemer.rs): any
  number of origin replicas and requests, interleaved between lock acquisitions
  and at every await, with replies that may be lost.
 */
module Redemption {
  import opened Encoding
  import opened Keys
  import opened Mint
  import opened Spends
  import opened Text
  import opened Transparency
  import opened Wire

  const MAX_RECENT_CHALLENGES := 64

  // ---- One origin ----

  /** The key a cached verifier checks with; its epoch is the key's version. */
  datatype KeyEntry = KeyEntry(pk: IssuerPublicKey)

  /** `issued` is every challenge handed out so far, `recent` what the origin still holds. */
  datatype OriginState = OriginState(
    issuerName: Bytes, originInfo: Bytes, requireContext: bool,
    recent: seq<TokenChallenge>, keys: map<Digest, KeyEntry>, issued: seq<TokenChallenge>)

  function FreshChallenge(o: OriginState, context: Digest): TokenChallenge {
    TokenChallenge(TOKEN_TYPE, o.issuerName, if o.requireContext then context else [], o.originInfo)
  }

  /** The last 64 of a list, or all of it if it is shorter. */
  function Newest(s: seq<TokenChallenge>): (r: seq<TokenChallenge>)
    ensures |r| == (if |s| < 64 then |s| else 64) && r == s[|s| - |r|..]
  {
    if |s| > MAX_RECENT_CHALLENGES then s[|s| - MAX_RECENT_CHALLENGES..] else s
  }

  function WithChallenge(o: OriginState, c: TokenChallenge): OriginState {
    o.(recent := Newest(o.recent + [c]), issued := o.issued + [c])
  }

  /** The first held challenge with this digest. */
  function ChallengeFor(h: Hash, recent: seq<TokenChallenge>, digest: Digest): (c: Option<TokenChallenge>)
    ensures c.Some? ==> c.value in recent && ChallengeDigest(h, c.value) == digest
    ensures c.None? ==> forall i :: 0 <= i < |recent| ==> ChallengeDigest(h, recent[i]) != digest
  {
    if |recent| == 0 then None
    else if ChallengeDigest(h, recent[0]) == digest then Some(recent[0])
    else ChallengeFor(h, recent[1..], digest)
  }

  /** A challenge that this origin may hand out: of its own names, with a 32-byte context exactly if it requires one. */
  predicate OwnChallenge(o: OriginState, c: TokenChallenge) {
    c.tokenType == TOKEN_TYPE && c.issuerName == o.issuerName && c.originInfo == o.originInfo
    && |c.redemptionContext| == (if o.requireContext then 32 else 0)
  }

  /**
    What holds of an origin at all times: it holds the newest 64 challenges it has
    issued, all of them its own, and caches keys under their own ids.
   */
  ghost predicate OriginOk(h: Hash, o: OriginState) {
    o.recent == Newest(o.issued)
    && (forall id :: id in o.keys ==> TokenKeyId(h, o.keys[id].pk) == id)
    && forall c :: c in o.issued ==> OwnChallenge(o, c)
  }

  lemma FreshIsOwn(o: OriginState, context: Digest)
    ensures OwnChallenge(o, FreshChallenge(o, context))
  {
  }

  /** Issuing a challenge keeps an origin in order. */
  lemma IssueKeepsOrigin(h: Hash, o: OriginState, context: Digest)
    requires OriginOk(h, o)
    ensures OriginOk(h, WithChallenge(o, FreshChallenge(o, context)))
  {
    hide TokenKeyId, Newest, FreshChallenge, OwnChallenge;
    var c := FreshChallenge(o, context);
    var after := WithChallenge(o, c);
    NewestAppend(o.issued, c);
    FreshIsOwn(o, context);
    forall d | d in after.issued ensures OwnChallenge(after, d) {
      OwnIsAboutNames(o, after, d);
      assert d in o.issued || d == c;
    }
  }

  lemma OwnIsAboutNames(o: OriginState, p: OriginState, c: TokenChallenge)
    requires o.issuerName == p.issuerName && o.originInfo == p.originInfo && o.requireContext == p.requireContext
    ensures OwnChallenge(o, c) <==> OwnChallenge(p, c)
  {
  }

  /** Caching a key under its own id keeps an origin in order. */
  lemma CacheKeepsOrigin(h: Hash, o: OriginState, keyId: Digest, entry: KeyEntry)
    requires OriginOk(h, o) && TokenKeyId(h, entry.pk) == keyId
    ensures OriginOk(h, o.(keys := o.keys[keyId := entry]))
  {
    hide TokenKeyId, Newest, OwnChallenge;
    var after := o.(keys := o.keys[keyId := entry]);
    forall c | c in after.issued ensures OwnChallenge(after, c) {
      OwnIsAboutNames(o, after, c);
    }
  }

  /** The mutable part of an origin, behind its two locks. */
  class Origin {
    const issuerName: Bytes
    const originInfo: Bytes
    const requireContext: bool
    var recent: seq<TokenChallenge>
    var keys: map<Digest, KeyEntry>
    ghost var issued: seq<TokenChallenge>

    ghost function View(): OriginState
      reads this
    {
      OriginState(issuerName, originInfo, requireContext, recent, keys, issued)
    }

    ghost predicate Valid(h: Hash)
      reads this
    {
      OriginOk(h, View())
    }

    constructor (h: Hash, issuer: Bytes, origin: Bytes, require: bool, pk: IssuerPublicKey)
      ensures Valid(h) && issued == []
      ensures View() == OriginState(issuer, origin, require, [], map[TokenKeyId(h, pk) := KeyEntry(pk)], [])
    {
      issuerName := issuer;
      originInfo := origin;
      requireContext := require;
      recent := [];
      keys := map[TokenKeyId(h, pk) := KeyEntry(pk)];
      issued := [];
    }

    /** Pushes, then drains the front down to the bound. */
    method IssueFreshChallenge(h: Hash, context: Digest) returns (c: TokenChallenge)
      requires Valid(h)
      modifies this
      ensures Valid(h)
      ensures c == FreshChallenge(old(View()), context)
      ensures View() == WithChallenge(old(View()), c)
    {
      hide OriginOk, Newest;
      c := TokenChallenge(TOKEN_TYPE, issuerName, if requireContext then context else [], originInfo);
      NewestAppend(issued, c);
      IssueKeepsOrigin(h, View(), context);
      recent := recent + [c];
      if |recent| > MAX_RECENT_CHALLENGES {
        var drop := |recent| - MAX_RECENT_CHALLENGES;
        recent := recent[drop..];
      }
      issued := issued + [c];
    }

    method ChallengeForDigest(h: Hash, digest: Digest) returns (c: Option<TokenChallenge>)
      ensures c == ChallengeFor(h, recent, digest)
    {
      for k := 0 to |recent|
        invariant ChallengeFor(h, recent, digest) == ChallengeFor(h, recent[k..], digest)
      {
        if ChallengeDigest(h, recent[k]) == digest {
          return Some(recent[k]);
        }
        assert recent[k..][1..] == recent[k + 1..];
      }
      return None;
    }

    /** Caching a key that was checked against its id keeps every cached key under its own id. */
    method CacheKey(h: Hash, keyId: Digest, entry: KeyEntry)
      requires Valid(h) && KeyCheck(h, entry.pk, keyId) == Ok(entry)
      modifies this
      ensures Valid(h)
      ensures View() == old(View()).(keys := old(keys)[keyId := entry])
    {
      hide OriginOk;
      CacheKeepsOrigin(h, View(), keyId, entry);
      keys := keys[keyId := entry];
    }
  }

  /** Bounding after each push keeps exactly the newest 64 of everything issued, in order. */
  lemma NewestAppend(issued: seq<TokenChallenge>, c: TokenChallenge)
    ensures Newest(Newest(issued) + [c]) == Newest(issued + [c])
  {
  }

  // ---- Resolving a key ----

  datatype ResolveError = WrongKtKey | KtRejected(e: KtError) | KeyDisagrees

  /** From a `/kt` reply to the version to fetch, `None` when the log does not list the key. */
  function KtLookup(h: Hash, f: Faest, pinned: Digest, kt: KtResponse, keyId: Digest)
    : Result<Option<u32>, ResolveError>
  {
    if ServedLogPub(kt) != pinned then Err(WrongKtKey)
    else
      match VerifyLog(h, f, pinned, kt.records, kt.signedHead)
      case Err(e) => Err(KtRejected(e))
      case Ok(_) =>
        match FindRecord(kt.records, HexEncode(keyId), 0)
        case None => Ok(None)
        case Some(i) => Ok(Some(kt.records[i].keyVersion))
  }

  /** From a `/keys/{version}` reply to a cache entry. */
  function KeyCheck(h: Hash, pk: IssuerPublicKey, keyId: Digest): Result<KeyEntry, ResolveError> {
    if TokenKeyId(h, pk) != keyId then Err(KeyDisagrees) else Ok(KeyEntry(pk))
  }

  // ---- Requests ----

  datatype Phase =
    | Arrived
    | AwaitKt
    | AwaitKey(version: u32)
    | Resolved(entry: KeyEntry)
    | HaveKey(entry: KeyEntry)
    | Spending(entry: KeyEntry, challenge: TokenChallenge, lookup: nat)
    | Replied(entry: KeyEntry, challenge: TokenChallenge, lookup: nat, ok: bool)
    | Granted(entry: KeyEntry, challenge: TokenChallenge, lookup: nat)
    | Refused

  /** `lookup` above is how many challenges the origin had issued when it looked the challenge up. */
  datatype Request = Request(origin: nat, token: SpendToken, phase: Phase)

  datatype World = World(origins: map<nat, OriginState>, requests: map<nat, Request>, seen: Seen)

  datatype Env = Env(h: Hash, f: Faest, p: Pomfrit, pinned: Digest)

  datatype Event =
    | IssueChallenge(origin: nat, context: Digest)
    | Arrive(id: nat, origin: nat, token: SpendToken)
    | LookUpKey(id: nat)
    | KtReply(id: nat, kt: KtResponse)
    | KeyReply(id: nat, pk: IssuerPublicKey)
    | FetchFails(id: nat)
    | FillCache(id: nat)
    | CheckToken(id: nat)
    | Redeem(id: nat)
    | StrayRedeem(epoch: u32, nonce: Digest)
    | Deliver(id: nat)
    | LoseReply(id: nat)

  function Moved(w: World, id: nat, phase: Phase): World
    requires id in w.requests
  {
    w.(requests := w.requests[id := w.requests[id].(phase := phase)])
  }

  /** The synchronous stretch from challenge lookup to the spend request. */
  function Checked(env: Env, o: OriginState, t: SpendToken, entry: KeyEntry): Phase {
    match ChallengeFor(env.h, o.recent, t.challengeDigest)
    case None => Refused
    case Some(c) =>
      if o.requireContext && !c.HasRedemptionContext() then Refused
      else
        match VerifyToken(env.h, env.p, entry.pk, t, c)
        case Err(_) => Refused
        case Ok(_) => Spending(entry, c, |o.issued|)
  }

  /** Events that do not apply leave the world as it is. */
  function Next(env: Env, w: World, e: Event): World {
    match e
    case IssueChallenge(origin, context) =>
      if origin !in w.origins then w
      else
        var o := w.origins[origin];
        w.(origins := w.origins[origin := WithChallenge(o, FreshChallenge(o, context))])
    case Arrive(id, origin, token) =>
      if id in w.requests || origin !in w.origins then w
      else w.(requests := w.requests[id := Request(origin, token, Arrived)])
    case LookUpKey(id) =>
      if id !in w.requests || !w.requests[id].phase.Arrived? || w.requests[id].origin !in w.origins then w
      else
        var o, keyId := w.origins[w.requests[id].origin], w.requests[id].token.tokenKeyId;
        Moved(w, id, if keyId in o.keys then HaveKey(o.keys[keyId]) else AwaitKt)
    case KtReply(id, kt) =>
      if id !in w.requests || !w.requests[id].phase.AwaitKt? then w
      else
        (match KtLookup(env.h, env.f, env.pinned, kt, w.requests[id].token.tokenKeyId)
         case Ok(Some(version)) => Moved(w, id, AwaitKey(version))
         case _ => Moved(w, id, Refused))
    case KeyReply(id, pk) =>
      if id !in w.requests || !w.requests[id].phase.AwaitKey? then w
      else
        (match KeyCheck(env.h, pk, w.requests[id].token.tokenKeyId)
         case Ok(entry) => Moved(w, id, Resolved(entry))
         case Err(_) => Moved(w, id, Refused))
    case FetchFails(id) =>
      if id !in w.requests || !(w.requests[id].phase.AwaitKt? || w.requests[id].phase.AwaitKey?) then w
      else Moved(w, id, Refused)
    case FillCache(id) =>
      if id !in w.requests || !w.requests[id].phase.Resolved? || w.requests[id].origin !in w.origins then w
      else
        var q := w.requests[id];
        var o := w.origins[q.origin];
        Moved(w.(origins := w.origins[q.origin := o.(keys := o.keys[q.token.tokenKeyId := q.phase.entry])]),
              id, HaveKey(q.phase.entry))
    case CheckToken(id) =>
      if id !in w.requests || !w.requests[id].phase.HaveKey? || w.requests[id].origin !in w.origins then w
      else
        var q := w.requests[id];
        Moved(w, id, Checked(env, w.origins[q.origin], q.token, q.phase.entry))
    case Redeem(id) =>
      if id !in w.requests || !w.requests[id].phase.Spending? then w
      else
        var q := w.requests[id];
        var key := (q.phase.entry.pk.keyVersion, q.token.nonce);
        Moved(w, id, Replied(q.phase.entry, q.phase.challenge, q.phase.lookup, key !in w.seen))
          .(seen := Step(w.seen, Mark(key.0, key.1)))
    case StrayRedeem(epoch, nonce) =>
      w.(seen := Step(w.seen, Mark(epoch, nonce)))
    case Deliver(id) =>
      if id !in w.requests || !w.requests[id].phase.Replied? then w
      else
        var ph := w.requests[id].phase;
        Moved(w, id, if ph.ok then Granted(ph.entry, ph.challenge, ph.lookup) else Refused)
    case LoseReply(id) =>
      if id !in w.requests || !(w.requests[id].phase.Spending? || w.requests[id].phase.Replied?) then w
      else Moved(w, id, Refused)
  }

  function Run(env: Env, init: World, events: seq<Event>): World {
    if |events| == 0 then init else Next(env, Run(env, init, events[..|events| - 1]), events[|events| - 1])
  }

  /** Origins as they start: no challenge issued, every cached key under its own id, no request. */
  ghost predicate Starts(env: Env, w: World) {
    w.requests == map[]
    && forall n :: n in w.origins ==>
         w.origins[n].recent == [] && w.origins[n].issued == []
         && forall id :: id in w.origins[n].keys ==> TokenKeyId(env.h, w.origins[n].keys[id].pk) == id
  }

  // ---- What every step keeps ----

  /** The redeemer has said yes to this request, and the origin has not dropped the reply. */
  predicate Won(q: Request) { q.phase.Granted? || (q.phase.Replied? && q.phase.ok) }

  /** What the redeemer recorded for a winner: key epoch and nonce. */
  function SpendOf(q: Request): (u32, Digest)
    requires Won(q)
  {
    (q.phase.entry.pk.keyVersion, q.token.nonce)
  }

  ghost predicate WinnersApart(w: World) {
    (forall a :: a in w.requests && Won(w.requests[a]) ==> SpendOf(w.requests[a]) in w.seen)
    && forall a, b :: (a in w.requests && b in w.requests && Won(w.requests[a]) && Won(w.requests[b])
                       && SpendOf(w.requests[a]) == SpendOf(w.requests[b])) ==> a == b
  }

  lemma StepKeepsWinnersApart(env: Env, w: World, e: Event)
    requires WinnersApart(w)
    ensures WinnersApart(Next(env, w, e))
  {
    hide KtLookup, KeyCheck, ChallengeFor, VerifyToken, WithChallenge, FreshChallenge;
  }

  predicate HasEntry(ph: Phase) {
    ph.Resolved? || ph.HaveKey? || ph.Spending? || ph.Replied? || ph.Granted?
  }

  predicate Passed(ph: Phase) { ph.Spending? || ph.Replied? || ph.Granted? }

  /** `c` is among the last 64 of the first `lookup` challenges issued. */
  ghost predicate InWindow(issued: seq<TokenChallenge>, lookup: nat, c: TokenChallenge) {
    lookup <= |issued| && exists i :: 0 <= i < lookup && lookup - MAX_RECENT_CHALLENGES <= i && issued[i] == c
  }

  ghost predicate RequestOk(env: Env, w: World, q: Request) {
    q.origin in w.origins
    && (HasEntry(q.phase) ==> TokenKeyId(env.h, q.phase.entry.pk) == q.token.tokenKeyId)
    && (Passed(q.phase) ==>
          InWindow(w.origins[q.origin].issued, q.phase.lookup, q.phase.challenge)
          && (w.origins[q.origin].requireContext ==> q.phase.challenge.HasRedemptionContext())
          && VerifyToken(env.h, env.p, q.phase.entry.pk, q.token, q.phase.challenge) == Ok(q.token.nonce))
  }

  ghost predicate Inv(env: Env, w: World) {
    (forall n :: n in w.origins ==> OriginOk(env.h, w.origins[n]))
    && forall id :: id in w.requests ==> RequestOk(env, w, w.requests[id])
  }

  lemma WindowHolds(issued: seq<TokenChallenge>, lookup: nat, c: TokenChallenge)
    requires InWindow(issued, lookup, c)
    ensures c in issued
  {
  }

  lemma WindowGrows(issued: seq<TokenChallenge>, lookup: nat, c: TokenChallenge, fresh_: TokenChallenge)
    requires InWindow(issued, lookup, c)
    ensures InWindow(issued + [fresh_], lookup, c)
  {
    var i :| 0 <= i < lookup && lookup - MAX_RECENT_CHALLENGES <= i && issued[i] == c;
    assert (issued + [fresh_])[i] == c;
  }

  lemma IssueKeeps(env: Env, w: World, e: Event)
    requires Inv(env, w) && e.IssueChallenge?
    ensures Inv(env, Next(env, w, e))
  {
    hide TokenKeyId, VerifyToken, FreshChallenge, Newest, InWindow, OriginOk;
    if e.origin in w.origins {
      var after, c := Next(env, w, e), FreshChallenge(w.origins[e.origin], e.context);
      IssueKeepsOrigin(env.h, w.origins[e.origin], e.context);
      forall id | id in w.requests ensures RequestOk(env, after, w.requests[id]) {
        var q := w.requests[id];
        assert RequestOk(env, w, q);
        if Passed(q.phase) && q.origin == e.origin {
          WindowGrows(w.origins[e.origin].issued, q.phase.lookup, q.phase.challenge, c);
        }
      }
    }
  }

  /** A change of phase needs checking for the request that moves only. */
  lemma MoveKeeps(env: Env, w: World, id: nat, phase: Phase)
    requires Inv(env, w) && id in w.requests
    requires RequestOk(env, w, w.requests[id].(phase := phase))
    ensures Inv(env, Moved(w, id, phase))
  {
    hide InWindow, VerifyToken, TokenKeyId, HasEntry, Passed, OriginOk;
    var after := Moved(w, id, phase);
    forall n | n in after.requests ensures RequestOk(env, after, after.requests[n]) {
      assert n != id ==> RequestOk(env, w, w.requests[n]);
    }
  }

  /** What the check finds at the moment of lookup. */
  lemma CheckedIsOk(env: Env, w: World, q: Request)
    requires RequestOk(env, w, q) && OriginOk(env.h, w.origins[q.origin]) && q.phase.HaveKey?
    ensures RequestOk(env, w, q.(phase := Checked(env, w.origins[q.origin], q.token, q.phase.entry)))
  {
    hide TokenKeyId, ChallengeFor, OriginOk, InWindow, VerifyToken;
    var o := w.origins[q.origin];
    var c := ChallengeFor(env.h, o.recent, q.token.challengeDigest);
    if c.Some? {
      HeldIsInWindow(env.h, o, c.value);
      VerifiedNonce(env, q.phase.entry.pk, q.token, c.value);
    }
  }

  lemma HeldIsInWindow(h: Hash, o: OriginState, c: TokenChallenge)
    requires OriginOk(h, o) && c in o.recent
    ensures InWindow(o.issued, |o.issued|, c)
  {
    hide TokenKeyId, OwnChallenge;
    var i :| 0 <= i < |o.recent| && o.recent[i] == c;
    assert o.issued[|o.issued| - |o.recent| + i] == c;
  }

  lemma VerifiedNonce(env: Env, pk: IssuerPublicKey, t: SpendToken, c: TokenChallenge)
    ensures VerifyToken(env.h, env.p, pk, t, c).Ok? ==> VerifyToken(env.h, env.p, pk, t, c).value == t.nonce
  {
  }

  lemma CheckKeeps(env: Env, w: World, e: Event)
    requires Inv(env, w) && e.CheckToken?
    ensures Inv(env, Next(env, w, e))
  {
    hide Checked, Inv, RequestOk, OriginOk;
    if e.id in w.requests && w.requests[e.id].phase.HaveKey? {
      InvMeans(env, w, e.id);
      var q := w.requests[e.id];
      CheckedIsOk(env, w, q);
      MoveKeeps(env, w, e.id, Checked(env, w.origins[q.origin], q.token, q.phase.entry));
    }
  }

  lemma FillKeeps(env: Env, w: World, e: Event)
    requires Inv(env, w) && e.FillCache?
    ensures Inv(env, Next(env, w, e))
  {
    hide TokenKeyId, InWindow, VerifyToken, OriginOk;
    var after := Next(env, w, e);
    forall id | id in after.requests ensures RequestOk(env, after, after.requests[id]) {
      assert RequestOk(env, w, w.requests[id]);
    }
    if e.id in w.requests && w.requests[e.id].phase.Resolved? {
      var q := w.requests[e.id];
      assert RequestOk(env, w, q);
      CacheKeepsOrigin(env.h, w.origins[q.origin], q.token.tokenKeyId, q.phase.entry);
    }
  }

  lemma CachedUnderOwnId(h: Hash, o: OriginState, keyId: Digest)
    requires OriginOk(h, o)
    ensures keyId in o.keys ==> TokenKeyId(h, o.keys[keyId].pk) == keyId
  {
    hide TokenKeyId, Newest, OwnChallenge;
  }

  lemma OtherKeeps(env: Env, w: World, e: Event)
    requires Inv(env, w) && !e.IssueChallenge? && !e.CheckToken? && !e.FillCache?
    ensures Inv(env, Next(env, w, e))
  {
    hide InWindow, VerifyToken, TokenKeyId, KtLookup, Inv, Step, OriginOk;
    if e.Arrive? {
      ArriveKeeps(env, w, e);
    } else if e.StrayRedeem? {
      SeenKeeps(env, w, Step(w.seen, Mark(e.epoch, e.nonce)));
    } else if e.id in w.requests {
      assert RequestOk(env, w, w.requests[e.id]) && OriginOk(env.h, w.origins[w.requests[e.id].origin]) by {
        InvMeans(env, w, e.id);
      }
      CachedUnderOwnId(env.h, w.origins[w.requests[e.id].origin], w.requests[e.id].token.tokenKeyId);
      var after := Next(env, w, e);
      if after != w {
        var phase := after.requests[e.id].phase;
        MoveKeeps(env, w, e.id, phase);
        SeenKeeps(env, Moved(w, e.id, phase), after.seen);
      }
    }
  }

  lemma InvMeans(env: Env, w: World, id: nat)
    requires Inv(env, w) && id in w.requests
    ensures w.requests[id].origin in w.origins
    ensures RequestOk(env, w, w.requests[id]) && OriginOk(env.h, w.origins[w.requests[id].origin])
  {
    hide OriginOk;
    assert RequestOk(env, w, w.requests[id]);
  }

  lemma ArriveKeeps(env: Env, w: World, e: Event)
    requires Inv(env, w) && e.Arrive?
    ensures Inv(env, Next(env, w, e))
  {
    hide InWindow, VerifyToken, TokenKeyId, OriginOk;
    var after := Next(env, w, e);
    forall id | id in after.requests ensures RequestOk(env, after, after.requests[id]) {
      assert id in w.requests ==> RequestOk(env, w, w.requests[id]);
    }
  }

  /** The redeemer's set plays no part in the invariant. */
  lemma SeenKeeps(env: Env, w: World, seen: Seen)
    requires Inv(env, w)
    ensures Inv(env, w.(seen := seen))
  {
    hide InWindow, VerifyToken, TokenKeyId, HasEntry, Passed, OriginOk;
    forall id | id in w.requests ensures RequestOk(env, w.(seen := seen), w.requests[id]) {
      assert RequestOk(env, w, w.requests[id]);
    }
  }

  lemma {:induction false} RunKeeps(env: Env, init: World, events: seq<Event>)
    requires Starts(env, init)
    ensures Inv(env, Run(env, init, events)) && WinnersApart(Run(env, init, events))
  {
    hide Next;
    if |events| > 0 {
      var w, e := Run(env, init, events[..|events| - 1]), events[|events| - 1];
      RunKeeps(env, init, events[..|events| - 1]);
      StepKeepsWinnersApart(env, w, e);
      if e.IssueChallenge? {
        IssueKeeps(env, w, e);
      } else if e.CheckToken? {
        CheckKeeps(env, w, e);
      } else if e.FillCache? {
        FillKeeps(env, w, e);
      } else {
        OtherKeeps(env, w, e);
      }
    }
  }

  // ---- At most one grant ----

  /**
    For any interleaving over any number of origins sharing the redeemer, each key
    epoch and nonce is granted to at most one request, whatever replies are lost.
   */
  lemma AtMostOneGrant(env: Env, init: World, events: seq<Event>, a: nat, b: nat)
    requires Starts(env, init)
    requires var w := Run(env, init, events);
             a in w.requests && b in w.requests && w.requests[a].phase.Granted? && w.requests[b].phase.Granted?
    requires var w := Run(env, init, events);
             w.requests[a].phase.entry.pk.keyVersion == w.requests[b].phase.entry.pk.keyVersion
             && w.requests[a].token.nonce == w.requests[b].token.nonce
    ensures a == b
  {
    RunKeeps(env, init, events);
  }

  /** The versions under which the key `keyId` is cached at the start or served later all lie in `vs`. */
  ghost predicate VersionsWithin(env: Env, keyId: Digest, vs: set<u32>, init: World, events: seq<Event>) {
    (forall n :: n in init.origins && keyId in init.origins[n].keys ==>
       init.origins[n].keys[keyId].pk.keyVersion in vs)
    && forall k :: 0 <= k < |events| && events[k].KeyReply? && TokenKeyId(env.h, events[k].pk) == keyId ==>
         events[k].pk.keyVersion in vs
  }

  ghost predicate Versioned(env: Env, keyId: Digest, vs: set<u32>, w: World) {
    (forall n :: n in w.origins && keyId in w.origins[n].keys ==> w.origins[n].keys[keyId].pk.keyVersion in vs)
    && forall id :: id in w.requests && HasEntry(w.requests[id].phase) && w.requests[id].token.tokenKeyId == keyId ==>
         w.requests[id].phase.entry.pk.keyVersion in vs
  }

  lemma StepKeepsVersions(env: Env, keyId: Digest, vs: set<u32>, w: World, e: Event)
    requires Versioned(env, keyId, vs, w)
    requires e.KeyReply? && TokenKeyId(env.h, e.pk) == keyId ==> e.pk.keyVersion in vs
    ensures Versioned(env, keyId, vs, Next(env, w, e))
  {
    hide KtLookup, ChallengeFor, VerifyToken, TokenKeyId, FreshChallenge;
  }

  lemma {:induction false} RunKeepsVersions(env: Env, keyId: Digest, vs: set<u32>, init: World, events: seq<Event>)
    requires Starts(env, init) && VersionsWithin(env, keyId, vs, init, events)
    ensures Versioned(env, keyId, vs, Run(env, init, events))
  {
    hide Next;
    if |events| > 0 {
      var front := events[..|events| - 1];
      forall k | 0 <= k < |front| ensures front[k] == events[k] {
      }
      RunKeepsVersions(env, keyId, vs, init, front);
      StepKeepsVersions(env, keyId, vs, Run(env, init, front), events[|events| - 1]);
    }
  }

  ghost predicate GrantedTo(w: World, a: nat, t: SpendToken) {
    a in w.requests && w.requests[a].phase.Granted? && w.requests[a].token == t
  }

  ghost predicate AtMostOne(vs: set<u32>) {
    forall x, y :: x in vs && y in vs ==> x == y
  }

  /** When its key is cached and served under one version only, a token is granted at most once. */
  lemma TokenGrantedOnce(env: Env, t: SpendToken, vs: set<u32>, init: World, events: seq<Event>, a: nat, b: nat)
    requires Starts(env, init) && VersionsWithin(env, t.tokenKeyId, vs, init, events) && AtMostOne(vs)
    requires GrantedTo(Run(env, init, events), a, t) && GrantedTo(Run(env, init, events), b, t)
    ensures a == b
  {
    hide Run;
    RunKeeps(env, init, events);
    RunKeepsVersions(env, t.tokenKeyId, vs, init, events);
  }

  /** The token's proof verifies, under this key, on the input made of its own fields. */
  predicate ProvesSpend(p: Pomfrit, pk: IssuerPublicKey, t: SpendToken) {
    t.tokenType == TOKEN_TYPE && |t.authenticator| >= 33
    && p.verify(p.expand(pk.key), TokenInput(t.nonce, t.challengeDigest, t.tokenKeyId),
                t.authenticator[32..], t.authenticator[..32])
  }

  /**
    A granted request was checked under a key with its token's key id, against a
    challenge with its digest that was among the origin's last 64 at lookup, and
    that carried a 32-byte context if the origin requires one; and its proof verifies.
   */
  lemma GrantSound(env: Env, init: World, events: seq<Event>, a: nat)
    requires Starts(env, init)
    requires a in Run(env, init, events).requests && Run(env, init, events).requests[a].phase.Granted?
    ensures var w := Run(env, init, events);
            var q := w.requests[a];
            q.origin in w.origins
            && var o := w.origins[q.origin];
               o.recent == Newest(o.issued)
               && InWindow(o.issued, q.phase.lookup, q.phase.challenge)
               && ChallengeDigest(env.h, q.phase.challenge) == q.token.challengeDigest
               && (o.requireContext ==> q.phase.challenge.HasRedemptionContext())
               && TokenKeyId(env.h, q.phase.entry.pk) == q.token.tokenKeyId
               && OwnChallenge(o, q.phase.challenge)
               && ProvesSpend(env.p, q.phase.entry.pk, q.token)
  {
    hide Run, InWindow, TokenKeyId, ChallengeDigest, TokenInput;
    RunKeeps(env, init, events);
    var w := Run(env, init, events);
    assert RequestOk(env, w, w.requests[a]);
    assert OriginOk(env.h, w.origins[w.requests[a].origin]);
    WindowHolds(w.origins[w.requests[a].origin].issued, w.requests[a].phase.lookup, w.requests[a].phase.challenge);
  }

  /**
    A token that answers the challenge `d` is granted only by an origin whose own
    challenge `d` is, with its type, issuer name, origin info and context; or two
    challenges collide.
   */
  lemma GrantedForOwnChallenge(env: Env, init: World, events: seq<Event>, a: nat, d: TokenChallenge)
    requires Starts(env, init)
    requires a in GrantedIds(Run(env, init, events))
    requires var q := Run(env, init, events).requests[a];
             q.token.challengeDigest == ChallengeDigest(env.h, d)
             && d.WellTyped() && d.InBounds() && q.phase.challenge.WellTyped() && q.phase.challenge.InBounds()
    ensures var w := Run(env, init, events);
            var q := w.requests[a];
            q.origin in w.origins
            && (OwnChallenge(w.origins[q.origin], d) || Collision(env.h, {ToBytes(d), ToBytes(q.phase.challenge)}))
  {
    hide Run, ToBytes, FromBytes, OwnChallenge, InWindow, ProvesSpend;
    hide TokenChallenge.InBounds, TokenChallenge.WellTyped;
    GrantSound(env, init, events, a);
    var c := Run(env, init, events).requests[a].phase.challenge;
    if ToBytes(d) == ToBytes(c) {
      ChallengeRoundTrip(c);
      ChallengeRoundTrip(d);
    } else {
      assert env.h(ToBytes(d)) == env.h(ToBytes(c));
    }
  }

  // ---- As many grants as signed messages ----

  function GrantedIds(w: World): set<nat> { set a | a in w.requests && w.requests[a].phase.Granted? }

  /** The messages of the granted tokens. */
  function GrantedMessages(w: World): set<Bytes> { set a | a in GrantedIds(w) :: MessageOf(w.requests[a].token) }

  /** Every key is cached and served under the one version that `version` gives its id. */
  ghost predicate OneVersionEach(env: Env, version: Digest -> u32, init: World, events: seq<Event>) {
    forall keyId: Digest :: VersionsWithin(env, keyId, {version(keyId)}, init, events)
  }

  /** Two grants on one signed message are one request, whatever the proofs. */
  lemma MessageGrantedOnce(env: Env, version: Digest -> u32, init: World, events: seq<Event>, a: nat, b: nat)
    requires Starts(env, init) && OneVersionEach(env, version, init, events)
    requires a in GrantedIds(Run(env, init, events)) && b in GrantedIds(Run(env, init, events))
    requires MessageOf(Run(env, init, events).requests[a].token) == MessageOf(Run(env, init, events).requests[b].token)
    ensures a == b
  {
    hide Run, TokenInput;
    var w := Run(env, init, events);
    var s, t := w.requests[a].token, w.requests[b].token;
    TokenInputInjective(s.nonce, s.challengeDigest, s.tokenKeyId, t.nonce, t.challengeDigest, t.tokenKeyId);
    RunKeepsVersions(env, s.tokenKeyId, {version(s.tokenKeyId)}, init, events);
    AtMostOneGrant(env, init, events, a, b);
  }

  lemma {:induction false} ImageSize(ids: set<nat>, f: nat -> Bytes)
    requires forall a, b :: a in ids && b in ids && f(a) == f(b) ==> a == b
    ensures |set a | a in ids :: f(a)| == |ids|
  {
    if ids != {} {
      var x :| x in ids;
      var rest := ids - {x};
      ImageSize(rest, f);
      assert (set a | a in ids :: f(a)) == (set a | a in rest :: f(a)) + {f(x)};
      assert f(x) !in set a | a in rest :: f(a);
    }
  }

  lemma {:induction false} SubsetSize(a: set<Bytes>, b: set<Bytes>)
    requires a <= b
    ensures |a| <= |b|
  {
    if a != {} {
      var x :| x in a;
      SubsetSize(a - {x}, b - {x});
    }
  }

  /**
    Grants are as many as messages: over a run, the granted requests stand one for
    one for the messages their proofs verify on. So when proofs pass only on messages
    that were blinded and signed, there are at most as many grants as those, whatever
    nonces, proofs and origins are tried.
   */
  lemma GrantsAtMostSigned(env: Env, version: Digest -> u32, init: World, events: seq<Event>, signed: set<Bytes>)
    requires Starts(env, init) && OneVersionEach(env, version, init, events)
    requires var w := Run(env, init, events);
             forall a :: a in GrantedIds(w) && ProvesSpend(env.p, w.requests[a].phase.entry.pk, w.requests[a].token) ==>
               MessageOf(w.requests[a].token) in signed
    ensures |GrantedIds(Run(env, init, events))| == |GrantedMessages(Run(env, init, events))| <= |signed|
  {
    hide Run, TokenInput, MessageOf, ProvesSpend;
    var w := Run(env, init, events);
    forall a | a in GrantedIds(w) ensures MessageOf(w.requests[a].token) in signed {
      GrantSound(env, init, events, a);
    }
    var f: nat -> Bytes := a => if a in w.requests then MessageOf(w.requests[a].token) else [];
    forall a, b | a in GrantedIds(w) && b in GrantedIds(w) && f(a) == f(b) ensures a == b {
      MessageGrantedOnce(env, version, init, events, a, b);
    }
    ImageSize(GrantedIds(w), f);
    assert GrantedMessages(w) == set a | a in GrantedIds(w) :: f(a);
    SubsetSize(GrantedMessages(w), signed);
  }
}
