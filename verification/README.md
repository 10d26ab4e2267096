# eat-pass: the attest, mint and spend protocol

This Dafny project models the core of eat-pass and proves what its protocol is
for. A client has its evidence accepted by an attester, which signs a short-lived
authorization for one blinded batch; an issuer blind-signs that batch within a
quota; origins accept the finished tokens, each once, through a central redeemer;
and a hash-chained key-transparency log ties the issuer's keys together over
rotations.

| module | what it models |
|---|---|
| `Encoding`, `Text` | machine integers, byte layouts, UTF-8, hexadecimal, base64url (section 5 of RFC 4648), trimming and splitting |
| `Keys` | issuer keys, and the FAEST signature scheme as a parameter |
| `Transparency` | the key log, signed heads, the log, inclusion and consistency checks, and a client's series of sessions |
| `Wire` | challenges (section 2.1.1 of RFC 9577) and spend tokens, as bytes and as headers |
| `Mint` | blind issuance, the binding of a blinded batch, token verification |
| `Limits`, `Spends` | quota and double-spend stores, in memory and in Redis, each against one exact ledger |
| `Authorize`, `Issuance` | authorizations, and attester plus issuer as one state machine with two-phase rotation |
| `Redemption`, `Resolution` | origin replicas and the redeemer interleaved at every await; resolving rotated-out keys |
| `Presenting` | requests that are granted, from a cold cache and from the cache |
| `EndToEnd` | honest runs from evidence to grant |
| `KnownAnswers` | the layouts on fixed inputs |
| `Policy` | policy validation, appraisal and difference |

## How it is modelled

- SHA-256 is a parameter, and every theorem holds for every hash function. No
  theorem assumes that it is injective. Where injectivity would be needed, the
  conclusion is "or two different strings in this set have the same hash", and the
  set holds only strings that the computation at hand has hashed.
- FAEST is a parameter. The security theorems assume only, signature by signature,
  that one which passes is over a message its key holder has signed; the
  completeness theorems assume that honest signatures verify.
- PoMFRIT is a parameter with one law: an honest exchange over a message ends in a
  non-empty proof that verifies on that message.
- Integers keep their widths. Casts truncate, saturating additions saturate, and
  plain additions (`key_version + 1`, `sth.seq + 1`, `*used += n`) wrap, as they do
  in a release build. `usize` is taken to have 64 bits.
- Rust strings are their UTF-8 bytes in binary layouts, and sequences of characters
  in textual ones. The base64 text of a head's signature is given by what it
  decodes to, if it does.
- Clock readings, randomness, evidence, requests and replies from servers are
  arbitrary inputs. The hardware verifiers are one arbitrary function from evidence
  and binding to a measurement or an error.
- Objects updated in place are classes: `Transparency.KeyLog`, `Issuance.Rotating`,
  `Redemption.Origin`, both limiters and both spend stores. Each method is proved
  equal to the function on values that the run theorems use.

## Where the code falls short of its promise

Each of these is proved with a concrete input, and with the exact condition under
which the promise holds: the lemma named last states it for all inputs, in both
directions.

- `verify_log` trims a record's key id before decoding it and `verify_inclusion`
  compares the text untrimmed: a record padded with whitespace verifies but is not
  found (`PaddedRecordIsRefused`, `InclusionAfterVerification`).
- At `max_per_epoch == 2^32 - 1` the saturating test never fails and the in-memory
  counter wraps (`MemoryExactIff`). A batch of 2^32 items is charged nothing. Over
  all runs of the issuer, quota conservation holds exactly when neither occurs
  (`QuotaConservedIff`).
- The Redis limiter's time to live of one and a half epochs covers scripts that run
  up to half an epoch after their clock reading, and no later ones
  (`LateScriptOvershoots`, `DelayToleranceIsHalfAnEpoch`).
- The comment at cli/src/store.rs:177 says a failed EXPIRE does not affect
  correctness. It does: a nonce spent just before the old expiry is accepted again
  (`LostExpireForgets`, `RedisLedger`). An EXPIRE that merely comes late does the
  same, because it finds no set to act on (`LateRefreshForgets`, `GapIff`).
- Two overlapping rotations publish the same version, and the second replaces the
  first one's history entry, which strands the first key (`OverlapStrandsKey`,
  `ResolvesIff`).
- The redeemer files a spend under the key's version, but an origin checks only the
  key id of a served key: a key served under two versions allows two grants
  (`TwoVersionsTwoGrants`, `TokenGrantedOnceIff`).
- A policy entry may carry an empty measurement beside its app id. It is valid, yet
  the reference check, the measurement class and the difference then read it
  differently (`ValidPolicySplitsViews`, `ViewsAgreeIff`). An empty difference also
  says nothing about the registry minimum (`EmptyDiffMissesRegistry`). `EmptyDiffIff`
  says exactly when an empty difference means equal decisions.
- One item of 2^32 bytes makes the binding of a batch of two ambiguous, because its
  length prefix is truncated; the truncated number of items does no harm
  (`BindingAmbiguousBeyond`, `BindingInjectiveIff`).
- A platform text with a zero byte can share a quota with another platform, because
  one zero byte ends it in what is hashed (`PlatformsConfusedIff`).
- A batch whose size is a multiple of 2^32 is refused by the attester
  (`AuthorizedIff`).
- The comment at cli/src/origin.rs:53-54 says that a key is trusted only if the log
  lists it. The key cached at startup is not looked up there; every other one is
  (`TrustedKeysAreLogged`, `TrustedKeysIff`).
- A restarted issuer begins a new log at version 1 under the same log key. Clients
  that kept a head refuse it unless it repeats their records; cold origins accept it
  and lose the earlier keys (`RestartIsNoticedByClients`).

## Model

| member | source | states |
|---|---|---|
| Transparency.AppendOnly | cli/src/client.rs:161-197 | over a client's whole series of accepted sessions, each carrying the head kept from the one before, the decoded records of any earlier log are a prefix of those of any later one, or a collision among the hashed strings |
| Transparency.SessionListsKey | cli/src/client.rs:161-197 | an accepted session was served by the pinned, usable log key, and its records hold the issuer's key id |
| Transparency.SessionKeyWasPublished | cli/src/client.rs:178-197 | under a log key that signed only states of one log, the issuer key of an accepted session was published by its owner, or a collision |
| Transparency.HonestSessionIff | cli/src/client.rs:161-197 | a session with an honest operator, from no head or any earlier head of it, is accepted if and only if the operator has published the key, and keeps the current head |
| Transparency.EqualHeads | core/src/transparency.rs:84-142 | equal chain heads come from equal record lists, whatever their lengths, or two strings hashed for them collide |
| Transparency.ConsistentExtends | core/src/transparency.rs:274-288 | a log that passes consistency against the head kept from a verified log extends that log, or a collision |
| Transparency.LogSoundness | core/src/transparency.rs:230-253 | under a log key that signed only states of one log, whatever `verify_log` accepts decodes, position by position, to a past snapshot of that log |
| Transparency.AcceptedLogPosition | core/src/transparency.rs:230-253 | under such a key an accepted log is not empty and its head's sequence number is its last position |
| Transparency.LogSoundnessOverLives | core/src/transparency.rs:230-253 | the same for a log key that outlives its log: what is accepted is a past snapshot of the log of one life, or a collision |
| Transparency.ConsistentIffPrefix | core/src/transparency.rs:274-288 | a head kept from one log is consistent with another if and only if the first is a prefix of the second, or a collision |
| Transparency.InclusionAfterVerification | core/src/transparency.rs:258-268 | on a verified log the inclusion check returns the first position holding the key id, if and only if that record's text is unpadded |
| Transparency.AbsentKeyIsRefused | core/src/transparency.rs:258-268 | a key id that no record decodes to is refused |
| Transparency.FoundIffUnpadded | core/src/transparency.rs:73-82 | comparing a record's text with a printed key id, ignoring case, agrees with decoding it exactly when it is unpadded |
| Transparency.PaddedRecordIsRefused | core/src/transparency.rs:258-268 | a log that verifies under the honest head and whose own key the inclusion check refuses |
| Transparency.HonestLogVerifies | core/src/transparency.rs:199-253 | every non-empty signed head of an honest operator passes `verify_log` with its own records |
| Transparency.HonestLogConsistent | core/src/transparency.rs:274-288 | every earlier head of an honest operator is consistent with every later record list |
| Transparency.ChainHeads | core/src/transparency.rs:126-134 | the one-pass loop yields at each position the head of that prefix, or the error of the first record that does not decode |
| Transparency.HeadsAt | core/src/transparency.rs:126-142 | the i-th intermediate head is the head of the first i + 1 records |
| Transparency.KeyLog.Append | core/src/transparency.rs:156-172 | appending assigns the next position and leaves all earlier records in place |
| Transparency.OperatorDecodes | core/src/transparency.rs:156-172 | an operator's own records decode to what was appended |
| Transparency.LeafInjective | core/src/transparency.rs:84-95 | the leaf layout determines every field of a record |
| Transparency.SthInjective | core/src/transparency.rs:212-218 | the signed-head message determines sequence number and head |
| Transparency.GenesisIsNoStep | core/src/transparency.rs:108-124 | the string hashed for the empty log is never one hashed for a step |
| Text.HexRoundTrip | core/src/transparency.rs:73-82 | hexadecimal text decodes to the bytes it was printed from |
| Text.EqIgnoreCaseIsDecoding | core/src/transparency.rs:258-268 | equality with a printed digest, ignoring case, is the same as decoding to it |
| Text.B64RoundTrip | core/src/lib.rs:363-411 | unpadded base64url decodes to the bytes it was encoded from |
| Text.B64Canonical | core/src/lib.rs:378-392 | accepted base64url text is the encoding of what it decodes to |
| Text.AlphabetIsClean | core/src/lib.rs:378-411 | base64url text is untouched by the trimming and quote-stripping of the header parsers and holds no delimiter |
| Wire.ChallengeRoundTrip | core/src/lib.rs:83-138 | a challenge survives encoding and decoding if and only if its lengths fit their prefixes |
| Wire.ChallengeCanonical | core/src/lib.rs:101-138 | every accepted byte string is the encoding of the challenge it yields |
| Wire.FromBytes | core/src/lib.rs:101-138 | on any byte string, reading stays in range, and what is accepted has valid text and lengths in bounds |
| Wire.TokenRoundTrip | pomfrit/src/lib.rs:188-214 | a token survives encoding and decoding if and only if its authenticator has at least 33 bytes |
| Wire.TokenCanonical | pomfrit/src/lib.rs:199-214 | every accepted byte string is the encoding of the token it yields |
| Wire.AuthorizationRoundTrip | core/src/lib.rs:374-392 | a printed `Authorization` header parses back to its token if and only if the authenticator has at least 33 bytes |
| Wire.WwwAuthenticateRoundTrip | core/src/lib.rs:363-411 | the challenge is recovered from its printed header, beside any issuer key, if and only if its lengths fit |
| Wire.QuotedTokenParses | core/src/lib.rs:378-392 | a quoted token parses as the bare one |
| Wire.TokenBeforeCommaParses | core/src/lib.rs:378-392 | a comma after the token is ignored |
| Wire.QuotedChallengeParses | core/src/lib.rs:395-411 | quoted challenge and key parse as the bare ones |
| KnownAnswers.Challenge | core/src/lib.rs:83-95 | the layout of section 2.1.1 of RFC 9577 on a fixed challenge |
| KnownAnswers.Token | pomfrit/src/lib.rs:189-197 | where each field of a token lies |
| KnownAnswers.SpendMessage | pomfrit/src/lib.rs:239-250 | the message under a proof: type, nonce, challenge digest, key id |
| KnownAnswers.Base64Url | core/src/lib.rs:363-376 | test vectors of section 10 of RFC 4648 without padding, and the URL-safe characters |
| KnownAnswers.Hexadecimal | core/src/transparency.rs:73-82 | digits in order, lower case written, either case read |
| KnownAnswers.RedisKeys | cli/src/store.rs:172-247 | the Redis keys of a counter and of a spent set on fixed inputs |
| Mint.BindingOf | pomfrit/src/lib.rs:254-264 | feeding the hasher item by item hashes the nested length-prefixed layout |
| Mint.BindingInjective | pomfrit/src/lib.rs:254-264 | with items below 2^32 bytes, in any number, equal layouts mean equal batches |
| Mint.BindingInjectiveIff | pomfrit/src/lib.rs:254-264 | for every bound on item count and item size, layouts determine batches within the bounds if and only if items stay below 2^32 bytes or there is at most one |
| Mint.BindingAmbiguousBeyond | pomfrit/src/lib.rs:254-264 | two different batches of two items, the longer of 2^32 bytes, with the same layout |
| Mint.ClientBegin | pomfrit/src/lib.rs:56-87 | the client's loop yields the request and the pending state of one blinding per token, in order |
| Mint.IssuerSign | pomfrit/src/lib.rs:89-96 | one signature per blinded item, in order |
| Mint.ClientFinalize | pomfrit/src/lib.rs:98-130 | tokens in the order of the pending items, or the mismatch it found |
| Mint.TokenInputInjective | pomfrit/src/lib.rs:239-250 | the signed message determines nonce, challenge digest and key id |
| Mint.MintVerifies | core/src/lib.rs:291-355 | for every batch size an honest exchange yields one token per drawn nonce, in order, each of which survives its header and verifies with its own nonce |
| Limits.MemoryCountsExactly | core/src/ratelimit.rs:76-96 | below a quota of 2^32 - 1 every counter holds the exact sum of what was granted since the last prune above its epoch, after any calls and prunes |
| Limits.MemoryExactIff | core/src/ratelimit.rs:76-96 | the saturating test decides as unbounded arithmetic on every run of calls and prunes, if and only if the quota is below 2^32 - 1 |
| Limits.InMemoryRateLimiter.TryConsumeAt | core/src/ratelimit.rs:76-90 | one call's verdict and its change to the counters, including the entry made by a refused call |
| Limits.PruneHarmlessIff | core/src/ratelimit.rs:93-96 | a prune leaves every count of an epoch as it is, after every run, if and only if it keeps that epoch |
| Limits.RedisRateLimiter.TryConsume | cli/src/store.rs:198-264 | one atomic script call: verdict and change to the key store, rollback and expiry included |
| Limits.RedisIsExact | cli/src/store.rs:198-264 | for any script calls from any replicas, rollback included, each verdict is the exact ledger's while scripts run within half an epoch of their clock reading |
| Limits.RedisConserves | cli/src/store.rs:198-264 | all replicas together grant an id, in each epoch, exactly what the ledger grants it, so at most the quota |
| Limits.DelayToleranceIsHalfAnEpoch | cli/src/store.rs:231-252 | all runs with a given bound on that delay are exact, if and only if the bound is at most half an epoch |
| Limits.LateScriptOvershoots | cli/src/store.rs:231-252 | a run with a script one second later than that which exceeds the quota |
| Limits.ScriptShows | cli/src/store.rs:198-208 | one script keeps every open counter equal to the exact sum |
| Limits.LimitKeyInjective | cli/src/store.rs:247-247 | different epochs or ids never share a Redis key |
| Spends.InMemorySpentStore.CheckAndMark | core/src/spend.rs:66-75 | accepts exactly the pairs not yet seen and records the pair either way |
| Spends.InMemorySpentStore.PruneEpochsBefore | core/src/spend.rs:52-55 | forgets exactly the earlier epochs |
| Spends.MemoryLedger | core/src/spend.rs:52-75 | an attempt is accepted if and only if a prune above its epoch lies between it and every earlier attempt on the same nonce |
| Spends.MemoryContents | core/src/spend.rs:52-75 | the set holds exactly the attempts that no later prune reached |
| Spends.RedisSpentStore.CheckAndMark | cli/src/store.rs:166-185 | one SADD and one EXPIRE, lost or at its own time, with any commands of other redeemers between: verdict and change to the key store |
| Spends.RedisLedger | cli/src/store.rs:166-185 | for SADD and EXPIRE commands interleaved in any way, an attempt is accepted if and only if, after every earlier attempt on the same nonce and epoch, some SADD found the epoch's set expired |
| Spends.RedisContents | cli/src/store.rs:166-185 | the stored set holds exactly the nonces added after which no SADD found it expired |
| Spends.TwiceOnlyAfterGap | cli/src/store.rs:166-185 | when every EXPIRE comes at the time of its SADD, a nonce is accepted twice only across a stretch of `ttl` seconds without any attempt on that epoch |
| Spends.TwiceOnlyAfterQuiet | cli/src/store.rs:166-185 | when every EXPIRE comes within a delay, a nonce is accepted twice only if the set was found expired after `ttl` less that delay without any attempt on that epoch |
| Spends.GapIff | cli/src/store.rs:166-185 | the gap of `ttl` seconds lies between any two acceptances, over all runs with a given delay, if and only if the delay is zero or the time to live is the one second that tells two times apart |
| Spends.LateRefreshForgets | cli/src/store.rs:174-178 | a run in which no command fails, one EXPIRE comes a second late, and a nonce is accepted twice within a second |
| Spends.InForceMeans | cli/src/store.rs:176-178 | which EXPIRE governs a set: the last that found a set to act on, until an SADD comes after it has run out |
| Spends.LostExpireForgets | cli/src/store.rs:177-178 | a run with one failed EXPIRE in which a nonce is accepted twice within a second |
| Spends.SpentKeyInjective | cli/src/store.rs:172-172 | different epochs never share a Redis key |
| Authorize.SignedBytesInjective | core/src/authorize.rs:47-62 | equal signed bytes mean equal authorizations, up to the signature |
| Authorize.ShortSignedBytesInjective | core/src/authorize.rs:47-62 | the same when only one side is known to fit its length prefixes |
| Authorize.IssueCharges | core/src/authorize.rs:172-207 | an admitted request is charged its size cast to 32 bits, signed or not, and any other request nothing; signatures come only with the charge granted, one for each item |
| Authorize.QuotasAreSeparate | core/src/gate.rs:63-71 | builds that differ in platform or value have separate quotas, or their ids collide, if no platform holds a zero byte |
| Authorize.PlatformsConfusedIff | core/src/gate.rs:63-71 | two platforms can have values that share a quota without a hash collision, if and only if they are equal or one with a zero byte after it begins the other |
| Authorize.IssueAuthorizedWithLimit | core/src/authorize.rs:172-207 | the checks in their order, the charge, and the signing that may still fail after it |
| Issuance.IssuedOnlyIfAttested | core/src/authorize.rs:120-207 | in every run, signatures for a batch imply an earlier accepted evidence for its binding, a signing time within the lifetime, a batch no longer than authorized, and a charge to the quota of the accepted measurement |
| Issuance.ReplaySignsSameBatch | core/src/authorize.rs:172-207 | presenting an authorization again, with whatever signature, can only sign the same batch again, or two bindings collide |
| Issuance.IssuedIsBound | core/src/authorize.rs:172-207 | in every run, whatever is presented, a batch is signed only if request and authorization name its binding, under the key version asked for, and under a supported, unexpired authorization that passes the attester's key and allows that many items |
| Issuance.RunIsAttested | cli/src/issuer.rs:178-211 | the invariant behind it, for every reachable state |
| Issuance.QuotaConserved | core/src/authorize.rs:189-206 | over every run, one id gets at most `max_per_epoch` signatures in one epoch, also when signing fails after the charge, a batch counting as its size cast to 32 bits and in full below 2^32 items |
| Issuance.QuotaConservedIff | core/src/authorize.rs:189-206 | given evidence that is accepted, the quota bounds all signatures over all runs with a bound on batch sizes, if and only if that bound is below 2^32 and the quota below 2^32 - 1, or no batch holds anything |
| Issuance.Charged | core/src/ratelimit.rs:76-90 | in every reachable state the signatures returned, by cast size, are covered by the counter, and the counter by the quota |
| Issuance.Rotating.constructor | cli/src/issuer.rs:65-102 | the initial state: version 1 current, in the history, logged and signed |
| Issuance.Rotating.CommitRotation | cli/src/issuer.rs:248-258 | the write-locked half of a rotation: log, head, history and current key change together |
| Issuance.RotationInvariant | cli/src/issuer.rs:213-271 | in every reachable state, overlapping rotations included: the log has only grown, the published head verifies with the published records, and the history maps each version to its last published key, the current one included |
| Issuance.SigningKeyIsLawful | cli/src/issuer.rs:248-258 | in every reachable state, overlapping rotations included, the issuer signs with the secret key of the public key it publishes |
| Issuance.LogOnlyGrows | cli/src/issuer.rs:248-258 | the published list of any earlier state is a prefix of the present one |
| Issuance.IssuerSignsOnlySnapshots | cli/src/issuer.rs:248-258 | every head message signed in one life of the process is a snapshot of its one log, as log soundness requires |
| Issuance.LivesSignOnlySnapshots | cli/src/issuer.rs:73-82 | over restarts, every head message signed is a snapshot of the log of one life, as log soundness over lives requires |
| Issuance.VersionsInOrder | cli/src/issuer.rs:234-258 | when rotations do not overlap, record i carries version i + 1 |
| Issuance.RecordsMatchHistory | cli/src/issuer.rs:156-167 | when rotations do not overlap, record i names version i + 1 and its key id is that of the history entry |
| Redemption.Origin.IssueFreshChallenge | cli/src/origin.rs:138-156 | pushing and draining keeps exactly the newest 64 challenges issued, in order |
| Redemption.Origin.ChallengeForDigest | cli/src/origin.rs:158-170 | the first held challenge with the digest, or none |
| Redemption.Origin.constructor | cli/src/origin.rs:62-136 | a started origin holds no challenge and one key, cached under its own id |
| Redemption.NewestAppend | cli/src/origin.rs:138-156 | bounding after each push keeps the newest 64 of everything issued |
| Redemption.Newest | cli/src/origin.rs:147-152 | what is kept is the last 64 challenges, or all if there are fewer |
| Redemption.AtMostOneGrant | cli/src/origin.rs:249-327 | for any interleaving over any number of origins, each key epoch and nonce is granted at most once, whatever replies are lost |
| Redemption.TokenGrantedOnce | cli/src/origin.rs:249-327 | a token whose key is cached and served under at most one version is granted at most once |
| Presenting.TokenGrantedOnceIff | cli/src/origin.rs:172-327 | for a token that verifies on an origin's challenge and a set of versions its key may be cached and served under, at most one grant over all runs, if and only if the set has at most one element |
| Redemption.StepKeepsWinnersApart | cli/src/origin.rs:313-327 | every step keeps: two accepted requests never share a spend record, and each has one |
| Redemption.RunKeeps | cli/src/origin.rs:172-311 | the invariants of origins and requests, in every reachable state |
| Redemption.GrantSound | cli/src/origin.rs:249-311 | a granted request's proof verified under a key with its key id, against a challenge with its digest that the origin itself issued, among its last 64 at lookup, with a 32-byte context exactly if required |
| Redemption.GrantedForOwnChallenge | cli/src/origin.rs:138-170 | a token is granted only by an origin whose own challenge it answers, with its type, names and context, or two challenges collide |
| Redemption.MessageGrantedOnce | pomfrit/src/lib.rs:132-145 | two grants on one signed message are one request, whatever the proofs |
| Redemption.GrantsAtMostSigned | cli/src/origin.rs:249-327 | over a run the grants stand one for one for the messages their proofs verify on, so there are at most as many as messages blinded and signed |
| Resolution.ResolvedKeyWasPublished | cli/src/origin.rs:195-232 | a version resolved through a reply names the pinned log key, and was published by its owner with that very key id, or a collision |
| Resolution.TrustedKeysAreLogged | cli/src/origin.rs:53-55 | in every run, each key an origin has cached or a request uses was cached at the start or has an id that the owner of the pinned log key published, or one log reply exhibits a collision |
| Resolution.TrustedKeysIff | cli/src/origin.rs:53-55 | over all runs without a forged head or a collision, origins hold only keys that the log's owner published, if and only if the keys they start with are |
| Resolution.UnpublishedIsUnresolved | cli/src/origin.rs:172-247 | a key id that is neither cached nor in the served log is not resolved |
| Resolution.RestartIsNoticedByClients | cli/src/issuer.rs:65-102 | after a restart the new log verifies under the pinned key, a cold origin no longer resolves keys it does not list, and a client's kept head is accepted if and only if the new log begins with its records, or a collision |
| Resolution.HonestLookup | cli/src/origin.rs:195-232 | an honest issuer's log resolves a published key id to the version of its first record |
| Resolution.ResolvesIff | cli/src/origin.rs:172-247 | in every run, a cold origin resolves a published key id if and only if the last key of the version found has that id |
| Resolution.RotationStrandsNoKey | cli/src/origin.rs:172-247 | without overlapping rotations, an origin of any age resolves every key ever published to that same key, whatever rotations fall between its two fetches |
| Resolution.OverlappingOutcome | cli/src/issuer.rs:234-258 | two rotations that overlap publish the same version twice |
| Resolution.OverlapStrandsKey | cli/src/issuer.rs:234-258 | after them no cold origin resolves the first of the two keys |
| EndToEnd.HonestRunCompletes | core/src/authorize.rs:120-207 | under a lawful key pair, for every batch size within what was asked for, begin, authorize, issue and finalize yield exactly that many tokens in order, each surviving its header and accepted with its own nonce |
| EndToEnd.ReachableRunCompletes | cli/src/issuer.rs:178-211 | the same for a request begun with the current key and signed in any state the issuer can reach, overlapping rotations included |
| EndToEnd.MintedTokenIsGranted | cli/src/origin.rs:249-311 | from evidence to grant: each such token is granted by any origin that holds its challenge, however many rotations came since, or two published keys collide |
| EndToEnd.AuthorizedIff | core/src/authorize.rs:120-161 | an honest batch is authorized if and only if its size, cast to 32 bits, is not zero |
| EndToEnd.HonestRequestIsSigned | core/src/authorize.rs:172-207 | an honest request within lifetime and quota is signed in full |
| EndToEnd.EachSpentOnce | core/src/spend.rs:66-75 | pairwise distinct unspent nonces are each accepted in turn and refused ever after |
| Presenting.ReadyOriginGrants | cli/src/origin.rs:249-311 | a valid unspent token on any of the last 64 challenges is granted by any origin that has cached its key, and nothing but its spend is recorded |
| Presenting.RequestFollowsKeyFor | cli/src/origin.rs:172-247 | with the issuer's replies, a request holds exactly the key that resolution gives, now cached under its id, or is refused where it gives none; nothing else changes |
| Presenting.ResolvedOriginGrants | cli/src/origin.rs:249-311 | a valid unspent token is granted whenever its key resolves |
| Presenting.RotatedKeyIsGranted | cli/src/origin.rs:172-311 | without overlapping rotations, a token under any key ever published is granted by an origin of any age, whatever rotations fall between its two fetches, and the key is cached, or two keys collide |
| Presenting.ThenServedFromCache | cli/src/origin.rs:172-181 | a further token under that key is then granted without a fetch |
| Presenting.TwoVersionsTwoGrants | cli/src/origin.rs:234-246 | one token granted twice by two origins that hold its key under two versions |
| Policy.Appraise | policy/src/appraise.rs:65-140 | passes exactly when all seven checks hold, the tier check at and above the minimum; reports each check's value in the fixed order, hands on a measurement exactly on success, and otherwise names a check that failed |
| Policy.FirstFailedMeans | policy/src/appraise.rs:134-140 | the reason is the first failed check, and there is none exactly when all passed |
| Policy.TierLadder | policy/src/schema.rs:63-95 | over the four labels in ascending order, the tier check passes exactly at and above the minimum, and never for an unknown label |
| Policy.RaisingTierOnlyRemoves | policy/src/appraise.rs:93-97 | raising the minimum tier keeps exactly the accepted claims at or above it |
| Policy.PassesUntilExpiry | policy/src/schema.rs:338-341 | passing at a time implies passing at every earlier time, up to the last instant of a policy and not after it |
| Policy.DetailsWiden | policy/src/appraise.rs:99-105 | an empty list of tier details admits all, and each further entry admits one more |
| Policy.ValidIff | policy/src/schema.rs:206-306 | the valid policies, without an order of checks: entries fit the profile, and exactly the desktop profile has trust roots, each 32 bytes of hexadecimal |
| Policy.ValidEntries | policy/src/schema.rs:206-306 | a valid policy's entries each carry exactly the one non-empty identity that its profile calls for |
| Policy.ViewsAgreeIff | policy/src/schema.rs:343-350 | the reference check and the class denote the same identities, if and only if the app id of every entry with both fields is in the class |
| Policy.ViewsAgree | policy/src/diff.rs:21-45 | with one field present in every entry, reference check, class and difference denote the same identities |
| Policy.DiffReadsClass | policy/src/diff.rs:21-45 | the printed identities that are compared are exactly those of the class |
| Policy.DiffReports | policy/src/diff.rs:29-45 | an identity is added when the right class alone has it and removed when the left alone has it, and applying both turns the left identities into the right ones |
| Policy.EmptyDiffMeans | policy/src/diff.rs:47-57 | the difference is empty if and only if everything it looks at is equal, entries by the identities of the class |
| Policy.EmptyDiffIff | policy/src/diff.rs:29-57 | two policies with an empty difference decide all checks alike on all claims at all times, if and only if they hide the same identities and have the same registry minimum; the five other checks always agree |
| Policy.EmptyDiffSameChecks | policy/src/diff.rs:29-57 | with one field present in every entry, an empty difference means every check but RegistryStatus agrees on all claims at all times |
| Policy.EmptyDiffMissesRegistry | policy/src/diff.rs:29-57 | two policies with an empty difference whose registry check differs |
| Policy.ValidPolicySplitsViews | policy/src/schema.rs:206-306 | valid policies whose three readings differ, and an empty difference between policies for different apps |

## Left out

- The internals of SHA-256, FAEST, MAYO and PoMFRIT, the size of FAEST keys beyond their 32 bytes, and key generation.
- The hardware verifiers, `ClassGated` and `assurance_tier`: arbitrary functions here.
- HTTP, TLS, JSON, command lines, environment, files, sidecars, logging, and the origin's `WWW-Authenticate` reply beyond its header text.
- The development attesters and the `issue_gated` paths, `NoLimit`, the mobile and desktop bindings, and the demos.
- Unlinkability and every other probabilistic claim.
- Failures of the Redis connection, pool or commands other than EXPIRE.
- Pruning of the in-memory limiter while the issuer runs: the program never calls it, so the issuer's runs are without it; `Limits.MemoryExactIff` covers it for the limiter alone.
- A restart as an action of the issuer's runs: each run is one life of the process, and the lemmas on restarts compare lives.
- Authorize.IssueAuthorizedWithLimit: charges the in-memory limiter; with the Redis limiter the reply may also be a backend error, and `Limits.RedisConserves` bounds what its replicas grant.
- Redis times to live of 2^63 seconds and more, which the cast to `i64` turns negative.
- The constant `alg` of a key, the ids of the two policies in a difference, the policy fields that validation, appraisal and difference all ignore, and the typed accessors for trust roots.
- The authentication of the rotation request and the HTTP status codes.
- Redemption.AtMostOneGrant: stated for a redeemer whose store is never pruned; `Spends.MemoryLedger` and `Spends.RedisLedger` say what forgetting allows.
- Issuance.IssuedOnlyIfAttested: stated for a policy label that fits its 32-bit length prefix together with the rate-limit id.
- Transparency.AppendOnly: stated for logs of fewer than 2^64 - 1 records.
