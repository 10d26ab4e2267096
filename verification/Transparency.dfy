/**
  The key-transparency log: a hash-chained list of issuer keys, its signed heads,
  and the three checks a client makes (core/src/transparency.rs), with the client
  session that carries a head from one check to the next (cli/src/client.rs).
 */
module Transparency {
  import opened Encoding
  import opened Keys
  import opened Text

  const LEAF_DOMAIN: Bytes := Ascii("eat-pass/kt/leaf\0")
  const HEAD_DOMAIN: Bytes := Ascii("eat-pass/kt/head\0")
  const STH_DOMAIN: Bytes := Ascii("eat-pass/kt/sth\0")

  datatype KtError =
    | BadHex(field: string)
    | BadLength(field: string)
    | HeadMismatch
    | SeqMismatch(sth: u64, records: nat)
    | BadSignature
    | NotIncluded
    | NotConsistent

  /** A record as served: its key id is text, in either case, perhaps padded. */
  datatype KeyRecord = KeyRecord(seq_: u64, keyVersion: u32, tokenKeyId: string, notBefore: u64)

  /** A record after hex decoding. */
  datatype Entry = Entry(seq_: u64, keyVersion: u32, keyId: Digest, notBefore: u64)

  /** `sig` is the decoded signature, `None` where the base64 text does not decode. */
  datatype SignedHead = SignedHead(seq_: u64, head: string, sig: Option<Bytes>)

  // ---- Hashing ----

  function ParseDigest(s: string, field: string): Result<Digest, KtError> {
    match HexDecode(Trim(s))
    case None => Err(BadHex(field))
    case Some(b) => if |b| == 32 then Ok(b) else Err(BadLength(field))
  }

  function DecodeRecord(r: KeyRecord): Result<Entry, KtError> {
    var id :- ParseDigest(r.tokenKeyId, "token_key_id");
    Ok(Entry(r.seq_, r.keyVersion, id, r.notBefore))
  }

  /** All records decoded, or the error of the first one that does not decode. */
  function DecodeRecords(records: seq<KeyRecord>): (r: Result<seq<Entry>, KtError>)
    ensures r.Ok? ==> |r.value| == |records|
    ensures r.Ok? ==> forall i :: 0 <= i < |records| ==> DecodeRecord(records[i]) == Ok(r.value[i])
  {
    if |records| == 0 then Ok([])
    else
      var front :- DecodeRecords(records[..|records| - 1]);
      var last :- DecodeRecord(records[|records| - 1]);
      Ok(front + [last])
  }

  function LeafPreimage(e: Entry): Bytes {
    LEAF_DOMAIN + BE(e.seq_, 8) + BE(e.keyVersion, 4) + e.keyId + BE(e.notBefore, 8)
  }

  function GenesisPreimage(): Bytes { HEAD_DOMAIN + Ascii("genesis") }

  function StepPreimage(prev: Digest, leaf: Digest): Bytes { HEAD_DOMAIN + prev + leaf }

  /** The chain head over `entries`. */
  function HeadOf(h: Hash, entries: seq<Entry>): Digest {
    if |entries| == 0 then h(GenesisPreimage())
    else h(StepPreimage(HeadOf(h, entries[..|entries| - 1]), h(LeafPreimage(entries[|entries| - 1]))))
  }

  /** Every string hashed while computing `HeadOf(h, entries)`. */
  function Hashed(h: Hash, entries: seq<Entry>): set<Bytes> {
    if |entries| == 0 then {GenesisPreimage()}
    else
      var front, leaf := entries[..|entries| - 1], LeafPreimage(entries[|entries| - 1]);
      Hashed(h, front) + {leaf, StepPreimage(HeadOf(h, front), h(leaf))}
  }

  function HashedRecords(h: Hash, records: seq<KeyRecord>): set<Bytes> {
    match DecodeRecords(records)
    case Ok(entries) => Hashed(h, entries)
    case Err(_) => {}
  }

  /** The head after each of `entries` in turn. */
  function Heads(h: Hash, entries: seq<Entry>): seq<Digest> {
    if |entries| == 0 then [] else Heads(h, entries[..|entries| - 1]) + [HeadOf(h, entries)]
  }

  lemma {:induction false} HeadsAt(h: Hash, entries: seq<Entry>)
    ensures |Heads(h, entries)| == |entries|
    ensures forall i :: 0 <= i < |entries| ==> Heads(h, entries)[i] == HeadOf(h, entries[..i + 1])
  {
    hide HeadOf;
    if |entries| > 0 {
      var front := entries[..|entries| - 1];
      HeadsAt(h, front);
      forall i | 0 <= i < |entries| ensures Heads(h, entries)[i] == HeadOf(h, entries[..i + 1]) {
        if i < |front| {
          assert front[..i + 1] == entries[..i + 1];
        } else {
          assert entries[..i + 1] == entries;
        }
      }
    }
  }

  /** `chain_heads`: every intermediate head in one pass. */
  method ChainHeads(h: Hash, records: seq<KeyRecord>) returns (r: Result<seq<Digest>, KtError>)
    ensures r.Err? ==> DecodeRecords(records) == Err(r.error)
    ensures r.Ok? ==> DecodeRecords(records).Ok? && |r.value| == |records|
    ensures r.Ok? ==> forall i :: 0 <= i < |records| ==>
              r.value[i] == HeadOf(h, DecodeRecords(records).value[..i + 1])
  {
    hide Ascii, BE, ParseDigest;
    var heads: seq<Digest> := [];
    var cur := h(GenesisPreimage());
    ghost var done: seq<Entry> := [];
    for k := 0 to |records|
      invariant DecodeRecords(records[..k]) == Ok(done)
      invariant cur == HeadOf(h, done) && heads == Heads(h, done)
    {
      assert records[..k + 1][..k] == records[..k];
      var entry := DecodeRecord(records[k]);
      if entry.Err? {
        DecodePrefixError(records, k);
        return Err(entry.error);
      }
      cur := h(StepPreimage(cur, h(LeafPreimage(entry.value))));
      heads := heads + [cur];
      ghost var before := done;
      done := done + [entry.value];
      assert done[..|done| - 1] == before;
    }
    assert records[..|records|] == records;
    HeadsAt(h, done);
    return Ok(heads);
  }

  lemma {:induction false} DecodePrefixError(records: seq<KeyRecord>, k: nat)
    requires k < |records| && DecodeRecords(records[..k]).Ok? && DecodeRecord(records[k]).Err?
    ensures DecodeRecords(records) == Err(DecodeRecord(records[k]).error)
  {
    var front := records[..|records| - 1];
    if k < |front| {
      assert front[..k] == records[..k];
      DecodePrefixError(front, k);
    }
  }

  // ---- The operator ----

  /** A key the operator appended, with its `not_before`. */
  datatype Published = Published(pk: IssuerPublicKey, notBefore: u64)

  function NewRecord(h: Hash, position: nat, p: Published): KeyRecord {
    KeyRecord(AsU64(position), p.pk.keyVersion, HexEncode(TokenKeyId(h, p.pk)), p.notBefore)
  }

  /** The records after appending `ps` in order to an empty log. */
  function OperatorLog(h: Hash, ps: seq<Published>): (records: seq<KeyRecord>)
    ensures |records| == |ps|
    ensures forall i :: 0 <= i < |ps| ==> records[i] == NewRecord(h, i, ps[i])
  {
    seq(|ps|, i requires 0 <= i < |ps| => NewRecord(h, i, ps[i]))
  }

  function OperatorEntries(h: Hash, ps: seq<Published>): seq<Entry> {
    seq(|ps|, i requires 0 <= i < |ps| =>
      Entry(AsU64(i), ps[i].pk.keyVersion, TokenKeyId(h, ps[i].pk), ps[i].notBefore))
  }

  class KeyLog {
    var records: seq<KeyRecord>

    constructor ()
      ensures records == []
    {
      records := [];
    }

    method Append(h: Hash, pk: IssuerPublicKey, notBefore: u64, ghost ps: seq<Published>)
      returns (position: u64)
      requires records == OperatorLog(h, ps)
      modifies this
      ensures position == AsU64(|old(records)|)
      ensures records == OperatorLog(h, ps + [Published(pk, notBefore)])
      ensures old(records) <= records
    {
      position := AsU64(|records|);
      records := records + [KeyRecord(position, pk.keyVersion, HexEncode(TokenKeyId(h, pk)), notBefore)];
      assert records == OperatorLog(h, ps + [Published(pk, notBefore)]);
    }
  }

  function SthMessage(position: u64, head: Digest): Bytes { STH_DOMAIN + BE(position, 8) + head }

  /** `LogSigner::sign` over a log whose records decode to `entries`. */
  function SignHead(h: Hash, f: Faest, sk: Bytes, entries: seq<Entry>): SignedHead {
    var head := HeadOf(h, entries);
    var position := AsU64(if |entries| == 0 then 0 else |entries| - 1);
    SignedHead(position, HexEncode(head), Some(f.sign(sk, SthMessage(position, head))))
  }

  // ---- The three client checks ----

  function VerifyLog(h: Hash, f: Faest, pub: Digest, records: seq<KeyRecord>, sth: SignedHead)
    : Result<(), KtError>
  {
    if AsU64(sth.seq_ + 1) != |records| then Err(SeqMismatch(sth.seq_, |records|))
    else
      var entries :- DecodeRecords(records);
      var head := HeadOf(h, entries);
      var served :- ParseDigest(sth.head, "head");
      if head != served then Err(HeadMismatch)
      else if !f.keyOk(pub) then Err(BadSignature)
      else if sth.sig.None? then Err(BadHex("sig"))
      else if !f.verify(pub, SthMessage(sth.seq_, head), sth.sig.value) then Err(BadSignature)
      else Ok(())
  }

  /** The first record whose key id text equals `want`, ignoring case, from `i` on. */
  function FindRecord(records: seq<KeyRecord>, want: string, i: nat): (r: Option<nat>)
    ensures r.Some? ==> i <= r.value < |records| && EqIgnoreCase(records[r.value].tokenKeyId, want)
    ensures forall j :: i <= j < (if r.Some? then r.value else |records|) ==>
      !EqIgnoreCase(records[j].tokenKeyId, want)
    decreases |records| - i
  {
    if i >= |records| then None
    else if EqIgnoreCase(records[i].tokenKeyId, want) then Some(i)
    else FindRecord(records, want, i + 1)
  }

  function VerifyInclusion(records: seq<KeyRecord>, keyId: Digest): Result<u64, KtError> {
    match FindRecord(records, HexEncode(keyId), 0)
    case Some(i) => Ok(records[i].seq_)
    case None => Err(NotIncluded)
  }

  function VerifyConsistency(h: Hash, kept: SignedHead, records: seq<KeyRecord>): Result<(), KtError> {
    if kept.seq_ >= |records| then Err(NotConsistent)
    else
      var entries :- DecodeRecords(records);
      var head :- ParseDigest(kept.head, "head");
      if HeadOf(h, entries[..kept.seq_ + 1]) != head then Err(NotConsistent) else Ok(())
  }

  lemma VerifyLogMeans(h: Hash, f: Faest, pub: Digest, records: seq<KeyRecord>, sth: SignedHead)
    requires VerifyLog(h, f, pub, records, sth).Ok?
    ensures DecodeRecords(records).Ok? && sth.sig.Some? && f.keyOk(pub)
    ensures f.verify(pub, SthMessage(sth.seq_, HeadOf(h, DecodeRecords(records).value)), sth.sig.value)
  {
    hide DecodeRecords, HeadOf, SthMessage, ParseDigest;
  }

  // ---- Equal heads ----

  lemma LeafInjective(a: Entry, b: Entry)
    requires LeafPreimage(a) == LeafPreimage(b)
    ensures a == b
  {
    Widths();
    var a3, b3 := LEAF_DOMAIN + BE(a.seq_, 8), LEAF_DOMAIN + BE(b.seq_, 8);
    var a2, b2 := a3 + BE(a.keyVersion, 4), b3 + BE(b.keyVersion, 4);
    SameSplit(a2 + a.keyId, BE(a.notBefore, 8), b2 + b.keyId, BE(b.notBefore, 8));
    SameSplit(a2, a.keyId, b2, b.keyId);
    SameSplit(a3, BE(a.keyVersion, 4), b3, BE(b.keyVersion, 4));
    SameSplit(LEAF_DOMAIN, BE(a.seq_, 8), LEAF_DOMAIN, BE(b.seq_, 8));
    BEInjective(a.seq_, b.seq_, 8);
    BEInjective(a.keyVersion, b.keyVersion, 4);
    BEInjective(a.notBefore, b.notBefore, 8);
  }

  lemma SthInjective(i: u64, a: Digest, j: u64, b: Digest)
    requires SthMessage(i, a) == SthMessage(j, b)
    ensures i == j && a == b
  {
    Widths();
    SameSplit(STH_DOMAIN + BE(i, 8), a, STH_DOMAIN + BE(j, 8), b);
    SameSplit(STH_DOMAIN, BE(i, 8), STH_DOMAIN, BE(j, 8));
    BEInjective(i, j, 8);
  }

  lemma GenesisIsNoStep(prev: Digest, leaf: Digest)
    ensures StepPreimage(prev, leaf) != GenesisPreimage()
  {
    assert |StepPreimage(prev, leaf)| == |HEAD_DOMAIN| + 64;
    assert |GenesisPreimage()| == |HEAD_DOMAIN| + 7;
  }

  lemma {:induction false} GenesisHashed(h: Hash, entries: seq<Entry>)
    ensures GenesisPreimage() in Hashed(h, entries)
  {
    if |entries| > 0 {
      GenesisHashed(h, entries[..|entries| - 1]);
    }
  }

  /**
    Equal heads come from equal lists, of whatever lengths, unless two of the
    strings hashed on the way collide.
   */
  lemma {:induction false} EqualHeads(h: Hash, a: seq<Entry>, b: seq<Entry>)
    requires HeadOf(h, a) == HeadOf(h, b)
    ensures a == b || Collision(h, Hashed(h, a) + Hashed(h, b))
    decreases |a|
  {
    hide Ascii, BE, LeafPreimage;
    var all := Hashed(h, a) + Hashed(h, b);
    GenesisHashed(h, a);
    GenesisHashed(h, b);
    if |a| == 0 || |b| == 0 {
      if a != b {
        var c := if |a| == 0 then b else a;
        var front, leaf := c[..|c| - 1], LeafPreimage(c[|c| - 1]);
        GenesisIsNoStep(HeadOf(h, front), h(leaf));
        assert StepPreimage(HeadOf(h, front), h(leaf)) in all && GenesisPreimage() in all;
      }
    } else if !Collision(h, all) {
      var fa, la := a[..|a| - 1], LeafPreimage(a[|a| - 1]);
      var fb, lb := b[..|b| - 1], LeafPreimage(b[|b| - 1]);
      var sa, sb := StepPreimage(HeadOf(h, fa), h(la)), StepPreimage(HeadOf(h, fb), h(lb));
      assert sa in all && sb in all && la in all && lb in all;
      SameSplit(HEAD_DOMAIN + HeadOf(h, fa), h(la), HEAD_DOMAIN + HeadOf(h, fb), h(lb));
      SameSplit(HEAD_DOMAIN, HeadOf(h, fa), HEAD_DOMAIN, HeadOf(h, fb));
      LeafInjective(a[|a| - 1], b[|b| - 1]);
      EqualHeads(h, fa, fb);
      assert a == fa + [a[|a| - 1]] && b == fb + [b[|b| - 1]];
    }
  }

  lemma {:induction false} HashedPrefix(h: Hash, entries: seq<Entry>, n: nat)
    requires n <= |entries|
    ensures Hashed(h, entries[..n]) <= Hashed(h, entries)
  {
    if n < |entries| {
      HashedPrefix(h, entries[..|entries| - 1], n);
      assert entries[..|entries| - 1][..n] == entries[..n];
    } else {
      assert entries[..n] == entries;
    }
  }

  // ---- Append-only over a client's life ----

  datatype KtResponse = KtResponse(logPub: string, records: seq<KeyRecord>, signedHead: SignedHead)

  datatype ClientError = WrongLogKey | LogRejected(e: KtError) | KeyRejected(e: KtError) | Rewritten(e: KtError)

  function ServedLogPub(kt: KtResponse): Bytes {
    match HexDecode(Trim(kt.logPub))
    case Some(b) => b
    case None => []
  }

  /** What a client prints after a session and passes to its next one. */
  function Keep(sth: SignedHead): SignedHead { SignedHead(sth.seq_, Trim(sth.head), Some([])) }

  /** One client session against the log: pinned key, log, inclusion, consistency. */
  function ClientSession(h: Hash, f: Faest, pinned: Digest, keyId: Digest,
                         known: Option<SignedHead>, kt: KtResponse): Result<SignedHead, ClientError>
  {
    if ServedLogPub(kt) != pinned then Err(WrongLogKey)
    else
      match VerifyLog(h, f, pinned, kt.records, kt.signedHead)
      case Err(e) => Err(LogRejected(e))
      case Ok(_) =>
        match VerifyInclusion(kt.records, keyId)
        case Err(e) => Err(KeyRejected(e))
        case Ok(_) =>
          if known.Some? && VerifyConsistency(h, known.value, kt.records).Err? then
            Err(Rewritten(VerifyConsistency(h, known.value, kt.records).error))
          else Ok(Keep(kt.signedHead))
  }

  datatype Session = Session(keyId: Digest, kt: KtResponse)

  /** Every session of a life accepts, each starting from the head the last one kept. */
  ghost predicate AcceptedLife(h: Hash, f: Faest, pinned: Digest, life: seq<Session>) {
    forall i :: 0 <= i < |life| ==>
      ClientSession(h, f, pinned, life[i].keyId, KnownBefore(life, i), life[i].kt).Ok?
  }

  function KnownBefore(life: seq<Session>, i: nat): Option<SignedHead>
    requires i <= |life|
  {
    if i == 0 then None else Some(Keep(life[i - 1].kt.signedHead))
  }

  /** All strings hashed while checking the logs of a life. */
  function HashedInLife(h: Hash, life: seq<Session>): set<Bytes> {
    set i, x | 0 <= i < |life| && x in HashedRecords(h, life[i].kt.records) :: x
  }

  lemma AcceptedSession(h: Hash, f: Faest, pinned: Digest, life: seq<Session>, i: nat)
    requires AcceptedLife(h, f, pinned, life) && i < |life|
    ensures VerifyLog(h, f, pinned, life[i].kt.records, life[i].kt.signedHead).Ok?
    ensures i > 0 ==> VerifyConsistency(h, Keep(life[i - 1].kt.signedHead), life[i].kt.records).Ok?
  {
    hide VerifyLog, VerifyInclusion, VerifyConsistency;
    assert ClientSession(h, f, pinned, life[i].keyId, KnownBefore(life, i), life[i].kt).Ok?;
  }

  lemma ConsistentExtends(h: Hash, f: Faest, pinned: Digest, old_: KtResponse, new_: KtResponse)
    requires VerifyLog(h, f, pinned, old_.records, old_.signedHead).Ok?
    requires |new_.records| < U64_MAX
    requires VerifyConsistency(h, Keep(old_.signedHead), new_.records).Ok?
    ensures DecodeRecords(old_.records).Ok? && DecodeRecords(new_.records).Ok?
    ensures DecodeRecords(old_.records).value <= DecodeRecords(new_.records).value
         || Collision(h, HashedRecords(h, old_.records) + HashedRecords(h, new_.records))
  {
    hide BE, HexDecode, Trim, HeadOf, Hashed, DecodeRecords;
    var a, b := DecodeRecords(old_.records).value, DecodeRecords(new_.records).value;
    var n := old_.signedHead.seq_ + 1;
    HexIsTrimmed(Trim(old_.signedHead.head));
    EqualHeads(h, a, b[..n]);
    HashedPrefix(h, b, n);
  }

  /**
    Append-only: whatever logs a client accepts over its life, the decoded
    records of an earlier one are a prefix of those of every later one, or two of
    the strings it hashed collide.
   */
  lemma {:induction false} AppendOnly(h: Hash, f: Faest, pinned: Digest, life: seq<Session>, i: nat, j: nat)
    requires AcceptedLife(h, f, pinned, life)
    requires forall k :: 0 <= k < |life| ==> |life[k].kt.records| < U64_MAX
    requires i <= j < |life|
    ensures DecodeRecords(life[i].kt.records).Ok? && DecodeRecords(life[j].kt.records).Ok?
    ensures DecodeRecords(life[i].kt.records).value <= DecodeRecords(life[j].kt.records).value
         || Collision(h, HashedInLife(h, life))
    decreases j
  {
    hide HashedRecords, HashedInLife, VerifyLog, VerifyConsistency, Collision, DecodeRecords;
    AcceptedSession(h, f, pinned, life, j);
    if i < j {
      AppendOnly(h, f, pinned, life, i, j - 1);
      AcceptedSession(h, f, pinned, life, j - 1);
      ConsistentExtends(h, f, pinned, life[j - 1].kt, life[j].kt);
      SessionHashes(h, life, j - 1);
      SessionHashes(h, life, j);
      var pair := HashedRecords(h, life[j - 1].kt.records) + HashedRecords(h, life[j].kt.records);
      if Collision(h, pair) {
        CollisionGrows(h, pair, HashedInLife(h, life));
      }
    } else {
      VerifyLogMeans(h, f, pinned, life[j].kt.records, life[j].kt.signedHead);
    }
  }

  lemma SessionHashes(h: Hash, life: seq<Session>, i: nat)
    requires i < |life|
    ensures HashedRecords(h, life[i].kt.records) <= HashedInLife(h, life)
  {
    hide HashedRecords;
  }

  // ---- What an accepted log is ----

  /** The message the operator signs after `n` appends of `ps`. */
  function SnapshotMessage(h: Hash, ps: seq<Published>, n: nat): Bytes
    requires n <= |ps|
  {
    SthMessage(AsU64(if n == 0 then 0 else n - 1), HeadOf(h, OperatorEntries(h, ps[..n])))
  }

  ghost predicate SignsOnlySnapshots(h: Hash, ps: seq<Published>, signed: set<Bytes>) {
    forall m :: m in signed ==> exists n :: 0 <= n <= |ps| && m == SnapshotMessage(h, ps, n)
  }

  /** If this head's signature passes, the log key's holder has signed its message. */
  ghost predicate HeadUnforged(h: Hash, f: Faest, pub: Digest, records: seq<KeyRecord>, sth: SignedHead,
                               signed: set<Bytes>)
  {
    DecodeRecords(records).Ok? && sth.sig.Some? ==>
      f.Unforged(pub, SthMessage(sth.seq_, HeadOf(h, DecodeRecords(records).value)), sth.sig.value, signed)
  }

  /**
    Log soundness: under a log key that has only ever signed states of one log,
    accepted records decode to a past snapshot of that log, entry by entry.
   */
  lemma LogSoundness(h: Hash, f: Faest, pub: Digest, ps: seq<Published>, signed: set<Bytes>,
                     records: seq<KeyRecord>, sth: SignedHead)
    requires SignsOnlySnapshots(h, ps, signed)
    requires VerifyLog(h, f, pub, records, sth).Ok?
    requires HeadUnforged(h, f, pub, records, sth, signed)
    ensures (|records| <= |ps| && DecodeRecords(records) == Ok(OperatorEntries(h, ps[..|records|])))
         || Collision(h, HashedRecords(h, records) + Hashed(h, OperatorEntries(h, ps)))
  {
    hide VerifyLog, SthMessage, DecodeRecords, HeadOf, Hashed;
    VerifyLogMeans(h, f, pub, records, sth);
    var entries := DecodeRecords(records).value;
    var n :| 0 <= n <= |ps| && SthMessage(sth.seq_, HeadOf(h, entries)) == SnapshotMessage(h, ps, n);
    var snapshot := OperatorEntries(h, ps[..n]);
    SthInjective(sth.seq_, HeadOf(h, entries), AsU64(if n == 0 then 0 else n - 1), HeadOf(h, snapshot));
    EqualHeads(h, entries, snapshot);
    assert OperatorEntries(h, ps)[..n] == snapshot;
    HashedPrefix(h, OperatorEntries(h, ps), n);
  }

  /**
    A log key that outlives its log, as after a restart, signs states of several logs.
    What is accepted is then a past snapshot of one of them.
   */
  lemma LogSoundnessOverLives(h: Hash, f: Faest, pub: Digest, lives: seq<seq<Published>>, signed: set<Bytes>,
                              records: seq<KeyRecord>, sth: SignedHead) returns (j: nat)
    requires forall m :: m in signed ==> exists i :: 0 <= i < |lives| && SignsOnlySnapshots(h, lives[i], {m})
    requires VerifyLog(h, f, pub, records, sth).Ok?
    requires HeadUnforged(h, f, pub, records, sth, signed)
    ensures j < |lives|
    ensures (|records| <= |lives[j]| && DecodeRecords(records) == Ok(OperatorEntries(h, lives[j][..|records|])))
         || Collision(h, HashedRecords(h, records) + Hashed(h, OperatorEntries(h, lives[j])))
  {
    hide VerifyLog, SthMessage, DecodeRecords, HeadOf, Hashed, HashedRecords, SignsOnlySnapshots, Collision;
    VerifyLogMeans(h, f, pub, records, sth);
    var m := SthMessage(sth.seq_, HeadOf(h, DecodeRecords(records).value));
    assert m in signed;
    j :| 0 <= j < |lives| && SignsOnlySnapshots(h, lives[j], {m});
    LogSoundness(h, f, pub, lives[j], {m}, records, sth);
  }

  /** `p` is the first position whose decoded key id is `keyId`. */
  ghost predicate FirstHolding(entries: seq<Entry>, keyId: Digest, p: nat) {
    p < |entries| && entries[p].keyId == keyId && forall i :: 0 <= i < p ==> entries[i].keyId != keyId
  }

  /** The inclusion check compares untrimmed text, so it misses exactly the padded key ids. */
  lemma FoundIffUnpadded(r: KeyRecord, e: Entry, keyId: Digest)
    requires DecodeRecord(r) == Ok(e)
    ensures EqIgnoreCase(r.tokenKeyId, HexEncode(keyId))
       <==> e.keyId == keyId && Trim(r.tokenKeyId) == r.tokenKeyId
  {
    EqIgnoreCaseIsDecoding(r.tokenKeyId, keyId);
    if HexDecode(r.tokenKeyId).Some? {
      HexIsTrimmed(r.tokenKeyId);
    }
  }

  /**
    The inclusion check on a verified log returns the first position holding the
    key id exactly when the text of that record carries no surrounding whitespace.
   */
  lemma InclusionAfterVerification(h: Hash, f: Faest, pub: Digest, ps: seq<Published>, signed: set<Bytes>,
                                   records: seq<KeyRecord>, sth: SignedHead, keyId: Digest, p: nat)
    requires SignsOnlySnapshots(h, ps, signed) && |ps| <= U64_MAX
    requires VerifyLog(h, f, pub, records, sth).Ok?
    requires HeadUnforged(h, f, pub, records, sth, signed)
    requires FirstHolding(DecodeRecords(records).value, keyId, p)
    ensures (VerifyInclusion(records, keyId) == Ok(p) <==> Trim(records[p].tokenKeyId) == records[p].tokenKeyId)
         || Collision(h, HashedRecords(h, records) + Hashed(h, OperatorEntries(h, ps)))
  {
    hide VerifyLog, SthMessage, DecodeRecords, HeadOf, Hashed, HexEncode, EqIgnoreCase, Trim, SnapshotMessage;
    VerifyLogMeans(h, f, pub, records, sth);
    LogSoundness(h, f, pub, ps, signed, records, sth);
    var entries := DecodeRecords(records).value;
    forall i | 0 <= i < |records|
      ensures EqIgnoreCase(records[i].tokenKeyId, HexEncode(keyId))
         <==> entries[i].keyId == keyId && Trim(records[i].tokenKeyId) == records[i].tokenKeyId
    {
      FoundIffUnpadded(records[i], entries[i], keyId);
    }
  }

  /** An absent key id is refused, padded or not. */
  lemma AbsentKeyIsRefused(records: seq<KeyRecord>, keyId: Digest)
    requires DecodeRecords(records).Ok?
    requires forall i :: 0 <= i < |records| ==> DecodeRecords(records).value[i].keyId != keyId
    ensures VerifyInclusion(records, keyId) == Err(NotIncluded)
  {
    forall i | 0 <= i < |records| ensures !EqIgnoreCase(records[i].tokenKeyId, HexEncode(keyId)) {
      FoundIffUnpadded(records[i], DecodeRecords(records).value[i], keyId);
    }
  }

  /**
    Under a key that signed states of one log only, an accepted log is not empty and
    its head's number is its last position.
   */
  lemma AcceptedLogPosition(h: Hash, f: Faest, pub: Digest, ps: seq<Published>, signed: set<Bytes>,
                            records: seq<KeyRecord>, sth: SignedHead)
    requires SignsOnlySnapshots(h, ps, signed) && |ps| <= U64_MAX
    requires VerifyLog(h, f, pub, records, sth).Ok?
    requires HeadUnforged(h, f, pub, records, sth, signed)
    ensures |records| > 0 && sth.seq_ == |records| - 1
  {
    hide SthMessage, DecodeRecords, HeadOf;
    VerifyLogMeans(h, f, pub, records, sth);
    var head := HeadOf(h, DecodeRecords(records).value);
    var n :| 0 <= n <= |ps| && SthMessage(sth.seq_, head) == SnapshotMessage(h, ps, n);
    SthInjective(sth.seq_, head, AsU64(if n == 0 then 0 else n - 1), HeadOf(h, OperatorEntries(h, ps[..n])));
  }

  // ---- What an accepted session has checked ----

  /** An accepted session was served by the pinned log, whose records hold the issuer's key id. */
  lemma SessionListsKey(h: Hash, f: Faest, pinned: Digest, keyId: Digest, known: Option<SignedHead>, kt: KtResponse)
    returns (p: nat)
    requires ClientSession(h, f, pinned, keyId, known, kt).Ok?
    ensures HexDecode(Trim(kt.logPub)) == Some(pinned) && f.keyOk(pinned)
    ensures DecodeRecords(kt.records).Ok? && p < |kt.records|
    ensures DecodeRecords(kt.records).value[p].keyId == keyId
  {
    hide HexDecode, HexEncode, Trim, EqIgnoreCase, HeadOf, SthMessage, DecodeRecord;
    VerifyLogMeans(h, f, pinned, kt.records, kt.signedHead);
    p := FindRecord(kt.records, HexEncode(keyId), 0).value;
    FoundIffUnpadded(kt.records[p], DecodeRecords(kt.records).value[p], keyId);
  }

  /**
    The issuer key of an accepted session was published by the owner of the pinned
    log key, or two of the strings hashed for the logs collide.
   */
  lemma SessionKeyWasPublished(h: Hash, f: Faest, pinned: Digest, ps: seq<Published>, signed: set<Bytes>,
                               keyId: Digest, known: Option<SignedHead>, kt: KtResponse)
    requires ClientSession(h, f, pinned, keyId, known, kt).Ok?
    requires SignsOnlySnapshots(h, ps, signed)
    requires HeadUnforged(h, f, pinned, kt.records, kt.signedHead, signed)
    ensures (exists i :: 0 <= i < |ps| && TokenKeyId(h, ps[i].pk) == keyId)
         || Collision(h, HashedRecords(h, kt.records) + Hashed(h, OperatorEntries(h, ps)))
  {
    var p := SessionListsKey(h, f, pinned, keyId, known, kt);
    SessionVerifiesLog(h, f, pinned, keyId, known, kt);
    hide ClientSession, VerifyLog, DecodeRecords, HeadUnforged, SignsOnlySnapshots, Hashed, HashedRecords;
    LogSoundness(h, f, pinned, ps, signed, kt.records, kt.signedHead);
    if |kt.records| <= |ps| && DecodeRecords(kt.records) == Ok(OperatorEntries(h, ps[..|kt.records|])) {
      assert OperatorEntries(h, ps[..|kt.records|])[p].keyId == TokenKeyId(h, ps[p].pk);
    }
  }

  lemma SessionVerifiesLog(h: Hash, f: Faest, pinned: Digest, keyId: Digest, known: Option<SignedHead>, kt: KtResponse)
    requires ClientSession(h, f, pinned, keyId, known, kt).Ok?
    ensures VerifyLog(h, f, pinned, kt.records, kt.signedHead).Ok?
  {
    hide VerifyLog, VerifyInclusion, VerifyConsistency;
  }

  // ---- An honest operator is accepted ----

  lemma {:induction false} OperatorDecodes(h: Hash, ps: seq<Published>)
    ensures DecodeRecords(OperatorLog(h, ps)) == Ok(OperatorEntries(h, ps))
  {
    hide Ascii, BE, HexDecode, HexEncode, Trim;
    if |ps| > 0 {
      var n := |ps| - 1;
      OperatorDecodes(h, ps[..n]);
      assert OperatorLog(h, ps)[..n] == OperatorLog(h, ps[..n]);
      HexRoundTrip(TokenKeyId(h, ps[n].pk));
      HexIsTrimmed(HexEncode(TokenKeyId(h, ps[n].pk)));
      assert OperatorEntries(h, ps) == OperatorEntries(h, ps[..n]) +
        [Entry(AsU64(n), ps[n].pk.keyVersion, TokenKeyId(h, ps[n].pk), ps[n].notBefore)];
    }
  }

  /** The head the operator publishes after appending `ps`. */
  function PublishedHead(h: Hash, f: Faest, sk: Bytes, ps: seq<Published>): SignedHead {
    SignHead(h, f, sk, OperatorEntries(h, ps))
  }

  lemma PublishedHeadParses(h: Hash, f: Faest, sk: Bytes, ps: seq<Published>)
    ensures ParseDigest(PublishedHead(h, f, sk, ps).head, "head") == Ok(HeadOf(h, OperatorEntries(h, ps)))
  {
    HexRoundTrip(HeadOf(h, OperatorEntries(h, ps)));
    HexIsTrimmed(HexEncode(HeadOf(h, OperatorEntries(h, ps))));
  }

  /** Each non-empty published head verifies with its own records. */
  lemma HonestLogVerifies(h: Hash, f: Faest, sk: Bytes, ps: seq<Published>)
    requires f.Correct() && 0 < |ps| <= U64_MAX
    ensures VerifyLog(h, f, f.public(sk), OperatorLog(h, ps), PublishedHead(h, f, sk, ps)) == Ok(())
  {
    hide Ascii, BE, HexDecode, HexEncode, Trim, DecodeRecords, HeadOf;
    OperatorDecodes(h, ps);
    PublishedHeadParses(h, f, sk, ps);
  }

  /** Each earlier published head is consistent with every later record list. */
  lemma HonestLogConsistent(h: Hash, f: Faest, sk: Bytes, ps: seq<Published>, n: nat)
    requires 0 < n <= |ps| <= U64_MAX
    ensures VerifyConsistency(h, Keep(PublishedHead(h, f, sk, ps[..n])), OperatorLog(h, ps)) == Ok(())
  {
    hide Ascii, BE, HexDecode, HexEncode, Trim, DecodeRecords, HeadOf;
    OperatorDecodes(h, ps);
    PublishedHeadParses(h, f, sk, ps[..n]);
    HexRoundTrip(HeadOf(h, OperatorEntries(h, ps[..n])));
    HexIsTrimmed(HexEncode(HeadOf(h, OperatorEntries(h, ps[..n]))));
    assert OperatorEntries(h, ps)[..n] == OperatorEntries(h, ps[..n]);
  }

  /** `GET /kt` of an operator that has appended `ps`. */
  function HonestKt(h: Hash, f: Faest, sk: Bytes, ps: seq<Published>): KtResponse {
    KtResponse(HexEncode(f.public(sk)), OperatorLog(h, ps), PublishedHead(h, f, sk, ps))
  }

  lemma HonestInclusionIff(h: Hash, ps: seq<Published>, keyId: Digest)
    ensures VerifyInclusion(OperatorLog(h, ps), keyId).Ok?
       <==> exists i :: 0 <= i < |ps| && TokenKeyId(h, ps[i].pk) == keyId
  {
    hide HexEncode, EqIgnoreCase, TokenKeyId;
    var records := OperatorLog(h, ps);
    forall j | 0 <= j < |records|
      ensures EqIgnoreCase(records[j].tokenKeyId, HexEncode(keyId)) <==> TokenKeyId(h, ps[j].pk) == keyId
    {
      PrintedIdsCompare(TokenKeyId(h, ps[j].pk), keyId);
    }
  }

  lemma PrintedIdsCompare(a: Digest, b: Digest)
    ensures EqIgnoreCase(HexEncode(a), HexEncode(b)) <==> a == b
  {
    EqIgnoreCaseIsDecoding(HexEncode(a), b);
    HexRoundTrip(a);
  }

  /**
    A session with an honest operator, started from no head or from any earlier head
    of that operator, is accepted exactly when the operator has published the key,
    and then keeps the operator's current head.
   */
  lemma HonestSessionIff(h: Hash, f: Faest, sk: Bytes, ps: seq<Published>, keyId: Digest, n: nat)
    requires f.Correct() && n <= |ps| && 0 < |ps| <= U64_MAX
    ensures var known := if n == 0 then None else Some(Keep(PublishedHead(h, f, sk, ps[..n])));
            var session := ClientSession(h, f, f.public(sk), keyId, known, HonestKt(h, f, sk, ps));
            (session.Ok? <==> exists i :: 0 <= i < |ps| && TokenKeyId(h, ps[i].pk) == keyId)
            && (session.Ok? ==> session.value == Keep(PublishedHead(h, f, sk, ps)))
  {
    hide VerifyLog, VerifyInclusion, VerifyConsistency, PublishedHead, HexDecode, HexEncode, Trim, TokenKeyId, Keep;
    HexRoundTrip(f.public(sk));
    HexIsTrimmed(HexEncode(f.public(sk)));
    HonestLogVerifies(h, f, sk, ps);
    HonestInclusionIff(h, ps, keyId);
    if n > 0 {
      HonestLogConsistent(h, f, sk, ps, n);
    }
  }

  /**
    A head kept from one log of an operator, checked against any log of any operator:
    consistent if the one log is a prefix of the other, and only then, or two of the
    strings hashed for them collide.
   */
  lemma ConsistentIffPrefix(h: Hash, f: Faest, sk: Bytes, ps: seq<Published>, qs: seq<Published>)
    requires 0 < |ps| <= U64_MAX
    ensures var ok := VerifyConsistency(h, Keep(PublishedHead(h, f, sk, ps)), OperatorLog(h, qs)).Ok?;
            var a, b := OperatorEntries(h, ps), OperatorEntries(h, qs);
            (a <= b ==> ok) && (ok ==> a <= b || Collision(h, Hashed(h, a) + Hashed(h, b)))
  {
    hide Ascii, BE, HexDecode, HexEncode, Trim, DecodeRecords, HeadOf, Hashed;
    var a, b := OperatorEntries(h, ps), OperatorEntries(h, qs);
    OperatorDecodes(h, qs);
    HexRoundTrip(HeadOf(h, a));
    HexIsTrimmed(HexEncode(HeadOf(h, a)));
    if |ps| <= |qs| {
      assert a <= b ==> b[..|ps|] == a;
      if HeadOf(h, b[..|ps|]) == HeadOf(h, a) {
        EqualHeads(h, a, b[..|ps|]);
        HashedPrefix(h, b, |ps|);
      }
    }
  }

  /**
    A padded record: the honest one-key log with one space put before its key id
    still verifies under the honest head, yet the inclusion check refuses the key.
   */
  lemma PaddedRecordIsRefused(h: Hash, f: Faest, sk: Bytes, p: Published)
    requires f.Correct()
    ensures var r := NewRecord(h, 0, p);
            var padded := [r.(tokenKeyId := " " + r.tokenKeyId)];
            VerifyLog(h, f, f.public(sk), padded, PublishedHead(h, f, sk, [p])) == Ok(())
            && VerifyInclusion(padded, TokenKeyId(h, p.pk)) == Err(NotIncluded)
  {
    var r := NewRecord(h, 0, p);
    var padded := r.(tokenKeyId := " " + r.tokenKeyId);
    HonestLogVerifies(h, f, sk, [p]);
    OperatorDecodes(h, [p]);
    HexRoundTrip(TokenKeyId(h, p.pk));
    HexIsTrimmed(r.tokenKeyId);
    assert padded.tokenKeyId[1..] == r.tokenKeyId;
    assert Trim(padded.tokenKeyId) == r.tokenKeyId;
    assert DecodeRecords([padded]) == DecodeRecords([r]);
    FoundIffUnpadded(padded, DecodeRecord(padded).value, TokenKeyId(h, p.pk));
  }
}
