/**
  Double-spend stores: in memory (core/src/spend.rs) and in Redis
  (cli/src/store.rs). Both keep one ideal ledger, in which an attempt is refused
  exactly when an earlier attempt on the same epoch and nonce has not been
  forgotten; they differ in what makes the store forget.
 */
module Spends {
  import opened Encoding
  import opened Text

  // ---- In memory ----

  type Seen = set<(u32, Digest)>

  class InMemorySpentStore {
    var seen: Seen

    constructor ()
      ensures seen == {}
    {
      seen := {};
    }

    /** `true` is `Ok(())`, `false` is `DoubleSpend`. */
    method CheckAndMark(epoch: u32, nonce: Digest) returns (ok: bool)
      modifies this
      ensures ok == ((epoch, nonce) !in old(seen))
      ensures seen == Step(old(seen), Mark(epoch, nonce))
    {
      if (epoch, nonce) in seen {
        return false;
      }
      seen := seen + {(epoch, nonce)};
      return true;
    }

    method PruneEpochsBefore(keepFrom: u32)
      modifies this
      ensures seen == Step(old(seen), Prune(keepFrom))
    {
      seen := set x | x in seen && x.0 >= keepFrom;
    }
  }

  datatype SpendOp = Mark(epoch: u32, nonce: Digest) | Prune(keepFrom: u32)

  function Step(seen: Seen, op: SpendOp): Seen {
    match op
    case Mark(epoch, nonce) => seen + {(epoch, nonce)}
    case Prune(keepFrom) => set x | x in seen && x.0 >= keepFrom
  }

  function RunMemory(ops: seq<SpendOp>): Seen {
    if |ops| == 0 then {} else Step(RunMemory(ops[..|ops| - 1]), ops[|ops| - 1])
  }

  predicate MemoryAccepts(ops: seq<SpendOp>, k: nat)
    requires k < |ops| && ops[k].Mark?
  {
    (ops[k].epoch, ops[k].nonce) !in RunMemory(ops[..k])
  }

  /** A prune above `epoch` lies strictly between `i` and `k`. */
  ghost predicate PrunedBetween(ops: seq<SpendOp>, epoch: u32, i: nat, k: nat) {
    exists j :: i < j < k < |ops| && ops[j].Prune? && ops[j].keepFrom > epoch
  }

  /** `(epoch, nonce)` was marked at `i` and nothing pruned it before `k`. */
  ghost predicate Remembered(ops: seq<SpendOp>, epoch: u32, nonce: Digest, i: nat, k: nat)
    requires k <= |ops|
  {
    i < k && ops[i] == Mark(epoch, nonce)
    && forall j :: i < j < k ==> !(ops[j].Prune? && ops[j].keepFrom > epoch)
  }

  lemma {:induction false} MemoryContents(ops: seq<SpendOp>, epoch: u32, nonce: Digest)
    ensures (epoch, nonce) in RunMemory(ops) <==> exists i :: Remembered(ops, epoch, nonce, i, |ops|)
  {
    if |ops| > 0 {
      var n := |ops| - 1;
      var front := ops[..n];
      MemoryContents(front, epoch, nonce);
      if ops[n] == Mark(epoch, nonce) {
        assert Remembered(ops, epoch, nonce, n, |ops|);
      } else if ops[n].Prune? && ops[n].keepFrom > epoch {
        assert forall i :: 0 <= i < n ==> !Remembered(ops, epoch, nonce, i, |ops|);
      } else {
        forall i: nat | i < n
          ensures Remembered(front, epoch, nonce, i, n) <==> Remembered(ops, epoch, nonce, i, |ops|)
        {
          assert forall j :: 0 <= j < n ==> front[j] == ops[j];
        }
      }
    }
  }

  /**
    The in-memory store: an attempt is accepted exactly when a prune above its
    epoch lies between it and every earlier attempt on the same nonce.
   */
  lemma MemoryLedger(ops: seq<SpendOp>, k: nat)
    requires k < |ops| && ops[k].Mark?
    ensures MemoryAccepts(ops, k)
       <==> forall i: nat :: i < k && ops[i] == ops[k] ==> PrunedBetween(ops, ops[k].epoch, i, k)
  {
    var front, epoch, nonce := ops[..k], ops[k].epoch, ops[k].nonce;
    MemoryContents(front, epoch, nonce);
    forall i: nat | i < k && ops[i] == ops[k]
      ensures Remembered(front, epoch, nonce, i, k) <==> !PrunedBetween(ops, epoch, i, k)
    {
      assert forall j :: 0 <= j < k ==> front[j] == ops[j];
    }
  }

  // ---- Redis ----

  /** A Redis set with its expiry. */
  datatype SpentSet = SpentSet(members: set<string>, expireAt: Option<int>)
  type Db = map<string, SpentSet>

  predicate Live(db: Db, now: int, key: string) {
    key in db && (db[key].expireAt.None? || now < db[key].expireAt.value)
  }

  function MembersAt(db: Db, now: int, key: string): set<string> {
    if Live(db, now, key) then db[key].members else {}
  }

  /** SADD: the reply says whether the member is new. */
  function SAdd(db: Db, now: int, key: string, m: string): (Db, bool) {
    var expireAt := if Live(db, now, key) then db[key].expireAt else None;
    (db[key := SpentSet(MembersAt(db, now, key) + {m}, expireAt)], m !in MembersAt(db, now, key))
  }

  /** EXPIRE: a key that is missing, or has expired, is left alone. */
  function Expire(db: Db, now: int, key: string, ttl: nat): Db {
    if Live(db, now, key) then db[key := db[key].(expireAt := Some(now + ttl))] else db
  }

  function SpentKey(epoch: u32): string { "eatpass:spent:" + Decimal(epoch) }

  /**
    The two commands of an attempt, each at the time Redis runs it: SADD, then EXPIRE.
    Commands of other redeemers may come between, and an EXPIRE may never come.
   */
  datatype Command = Add(at: int, epoch: u32, nonce: Digest) | Refresh(at: int, epoch: u32)

  function Apply(db: Db, ttl: nat, c: Command): Db {
    match c
    case Add(at, epoch, nonce) => SAdd(db, at, SpentKey(epoch), HexEncode(nonce)).0
    case Refresh(at, epoch) => Expire(db, at, SpentKey(epoch), ttl)
  }

  function ApplyAll(db: Db, ttl: nat, run: seq<Command>): Db {
    if |run| == 0 then db else Apply(ApplyAll(db, ttl, run[..|run| - 1]), ttl, run[|run| - 1])
  }

  class RedisSpentStore {
    const ttlSecs: nat
    var db: Db

    /** The time to live is at least one second, and fits `i64`. */
    constructor (ttl: nat)
      requires ttl < 0x8000_0000_0000_0000
      ensures ttlSecs == (if ttl == 0 then 1 else ttl) && db == map[]
    {
      ttlSecs := if ttl == 0 then 1 else ttl;
      db := map[];
    }

    /**
      One attempt: `others` are the commands Redis runs between its SADD at `addAt`
      and its EXPIRE, which runs at `expireAt` unless it is lost.
     */
    method CheckAndMark(epoch: u32, nonce: Digest, addAt: int, others: seq<Command>, expireAt: Option<int>)
      returns (ok: bool)
      modifies this`db
      ensures ok == (HexEncode(nonce) !in MembersAt(old(db), addAt, SpentKey(epoch)))
      ensures db == ApplyAll(old(db), ttlSecs, Attempted(epoch, nonce, addAt, others, expireAt))
    {
      var key := SpentKey(epoch);
      ghost var front := [Add(addAt, epoch, nonce)] + others;
      ApplyAppend(db, ttlSecs, [Add(addAt, epoch, nonce)], others);
      assert [Add(addAt, epoch, nonce)][..0] == [];
      var (added, isNew) := SAdd(db, addAt, key, HexEncode(nonce));
      assert ApplyAll(db, ttlSecs, [Add(addAt, epoch, nonce)]) == added;
      db := ApplyAll(added, ttlSecs, others);
      if expireAt.Some? {
        assert (front + [Refresh(expireAt.value, epoch)])[..|front|] == front;
        db := Expire(db, expireAt.value, key, ttlSecs);
      } else {
        assert front + [] == front;
      }
      return isNew;
    }
  }

  /** The commands Redis runs from an attempt's SADD to its EXPIRE. */
  function Attempted(epoch: u32, nonce: Digest, addAt: int, others: seq<Command>, expireAt: Option<int>)
    : seq<Command>
  {
    [Add(addAt, epoch, nonce)] + others + (if expireAt.Some? then [Refresh(expireAt.value, epoch)] else [])
  }

  lemma {:induction false} ApplyAppend(db: Db, ttl: nat, a: seq<Command>, b: seq<Command>)
    ensures ApplyAll(db, ttl, a + b) == ApplyAll(ApplyAll(db, ttl, a), ttl, b)
  {
    hide Apply;
    if |b| == 0 {
      assert a + b == a;
    } else {
      ApplyAppend(db, ttl, a, b[..|b| - 1]);
      assert (a + b)[..|a + b| - 1] == a + b[..|b| - 1];
    }
  }

  function RunRedis(run: seq<Command>, ttl: nat): Db { ApplyAll(map[], ttl, run) }

  /** The reply to the SADD at `k`. */
  predicate RedisAccepts(run: seq<Command>, ttl: nat, k: nat)
    requires k < |run| && run[k].Add?
  {
    SAdd(RunRedis(run[..k], ttl), run[k].at, SpentKey(run[k].epoch), HexEncode(run[k].nonce)).1
  }

  /** Some SADD on `epoch` is in `run`. */
  ghost predicate Added(run: seq<Command>, epoch: u32) {
    exists i :: 0 <= i < |run| && run[i].Add? && run[i].epoch == epoch
  }

  /** The EXPIRE on `epoch` that is in force after `run`, if any. */
  ghost function InForce(run: seq<Command>, ttl: nat, epoch: u32): (k: Option<nat>)
    ensures k.Some? ==> k.value < |run| && run[k.value].Refresh? && run[k.value].epoch == epoch
  {
    if |run| == 0 then None
    else
      var front, last := run[..|run| - 1], run[|run| - 1];
      var k := InForce(front, ttl, epoch);
      var over := k.Some? && last.at >= run[k.value].at + ttl;
      if last.epoch != epoch then k
      else if last.Add? then if over then None else k
      else if Added(front, epoch) && !over then Some(|run| - 1) else k
  }

  /** Command `m` finds that the set of its epoch has expired. */
  ghost predicate FindsExpired(run: seq<Command>, ttl: nat, m: nat)
    requires m < |run|
  {
    var k := InForce(run[..m], ttl, run[m].epoch);
    k.Some? && run[m].at >= run[k.value].at + ttl
  }

  /** The EXPIRE at `k` finds a set to act on. */
  ghost predicate TakesEffect(run: seq<Command>, ttl: nat, k: nat)
    requires k < |run| && run[k].Refresh?
  {
    Added(run[..k], run[k].epoch) && !FindsExpired(run, ttl, k)
  }

  /**
    The EXPIRE in force before `m` is the last that took effect, until an SADD comes
    after it has run out.
   */
  ghost predicate Governs(run: seq<Command>, ttl: nat, epoch: u32, k: nat, m: nat)
    requires m <= |run|
  {
    k < m && run[k].Refresh? && run[k].epoch == epoch && TakesEffect(run, ttl, k)
    && forall q :: k < q < m && run[q].epoch == epoch ==>
         if run[q].Add? then run[q].at < run[k].at + ttl else !TakesEffect(run, ttl, q)
  }

  lemma {:induction false} InForceMeans(run: seq<Command>, ttl: nat, epoch: u32, k: nat, m: nat)
    requires m <= |run|
    ensures InForce(run[..m], ttl, epoch) == Some(k) <==> Governs(run, ttl, epoch, k, m)
  {
    hide Added;
    if m > 0 {
      InForceMeans(run, ttl, epoch, k, m - 1);
      assert run[..m][..m - 1] == run[..m - 1];
    }
  }

  lemma SpentKeyInjective(a: u32, b: u32)
    requires SpentKey(a) == SpentKey(b)
    ensures a == b
  {
    SameSplit("eatpass:spent:", Decimal(a), "eatpass:spent:", Decimal(b));
    DecimalInjective(a, b);
  }

  /** One command changes the set of its own epoch only. */
  lemma ApplyElsewhere(db: Db, ttl: nat, c: Command, epoch: u32)
    requires c.epoch != epoch
    ensures var after := Apply(db, ttl, c);
            (SpentKey(epoch) in after <==> SpentKey(epoch) in db)
            && (SpentKey(epoch) in db ==> after[SpentKey(epoch)] == db[SpentKey(epoch)])
  {
    hide SpentKey;
    if SpentKey(epoch) == SpentKey(c.epoch) { SpentKeyInjective(epoch, c.epoch); }
  }

  lemma AddedSnoc(run: seq<Command>, epoch: u32)
    requires |run| > 0
    ensures var n := |run| - 1;
            Added(run, epoch) <==> Added(run[..n], epoch) || (run[n].Add? && run[n].epoch == epoch)
  {
    var n := |run| - 1;
    if i :| 0 <= i < n && run[..n][i].Add? && run[..n][i].epoch == epoch {
      assert run[i].Add? && run[i].epoch == epoch;
    }
    if i :| 0 <= i < |run| && run[i].Add? && run[i].epoch == epoch {
      assert i < n ==> run[..n][i] == run[i];
    }
  }

  /** An epoch has a set once something was added, and its stored expiry is that of the EXPIRE in force. */
  lemma {:induction false} ExpiryInForce(run: seq<Command>, ttl: nat, epoch: u32)
    ensures var db, k := RunRedis(run, ttl), InForce(run, ttl, epoch);
            (SpentKey(epoch) in db <==> Added(run, epoch))
            && (k.Some? ==> SpentKey(epoch) in db && db[SpentKey(epoch)].expireAt == Some(run[k.value].at + ttl))
            && (k.None? && SpentKey(epoch) in db ==> db[SpentKey(epoch)].expireAt == None)
  {
    hide SpentKey, Added;
    if |run| == 0 {
      assert !Added(run, epoch) by { NothingAdded(epoch); }
    } else {
      var front, last := run[..|run| - 1], run[|run| - 1];
      AddedSnoc(run, epoch);
      ExpiryInForce(front, ttl, epoch);
      if last.epoch != epoch {
        ApplyElsewhere(RunRedis(front, ttl), ttl, last, epoch);
      }
    }
  }

  lemma NothingAdded(epoch: u32)
    ensures !Added([], epoch)
  {
  }

  /** `(epoch, nonce)` was added at `i`, and no later SADD before `k` found its set expired. */
  ghost predicate Lasts(run: seq<Command>, ttl: nat, epoch: u32, nonce: Digest, i: nat, k: nat)
    requires k <= |run|
  {
    i < k && run[i].Add? && run[i].epoch == epoch && run[i].nonce == nonce
    && forall m :: i < m < k && run[m].Add? && run[m].epoch == epoch ==> !FindsExpired(run, ttl, m)
  }

  lemma LastsPrefix(run: seq<Command>, ttl: nat, epoch: u32, nonce: Digest, i: nat, k: nat)
    requires k <= |run|
    ensures Lasts(run[..k], ttl, epoch, nonce, i, k) <==> Lasts(run, ttl, epoch, nonce, i, k)
  {
    hide InForce;
    forall m | 0 <= m < k
      ensures run[..k][m] == run[m] && (FindsExpired(run[..k], ttl, m) <==> FindsExpired(run, ttl, m))
    {
      assert run[..k][..m] == run[..m];
    }
  }

  ghost predicate Stored(run: seq<Command>, ttl: nat, epoch: u32, nonce: Digest) {
    var db := RunRedis(run, ttl);
    SpentKey(epoch) in db && HexEncode(nonce) in db[SpentKey(epoch)].members
  }

  /** What the last command does to the contents of an epoch's set. */
  lemma StoredStep(run: seq<Command>, ttl: nat, epoch: u32, nonce: Digest)
    requires |run| > 0
    ensures var n := |run| - 1;
            var adds := run[n].Add? && run[n].epoch == epoch;
            Stored(run, ttl, epoch, nonce) <==>
              (adds && run[n].nonce == nonce)
              || (Stored(run[..n], ttl, epoch, nonce) && !(adds && FindsExpired(run, ttl, n)))
  {
    hide SpentKey, HexEncode, InForce, Added;
    var front, last := run[..|run| - 1], run[|run| - 1];
    ExpiryInForce(front, ttl, epoch);
    HexRoundTrip(nonce);
    if last.Add? {
      HexRoundTrip(last.nonce);
    }
    if last.epoch != epoch {
      ApplyElsewhere(RunRedis(front, ttl), ttl, last, epoch);
    }
  }

  lemma {:induction false} RedisContents(run: seq<Command>, ttl: nat, epoch: u32, nonce: Digest)
    ensures Stored(run, ttl, epoch, nonce) <==> exists i :: Lasts(run, ttl, epoch, nonce, i, |run|)
  {
    hide FindsExpired, SpentKey, HexEncode;
    if |run| > 0 {
      var n := |run| - 1;
      var front, adds := run[..n], run[n].Add? && run[n].epoch == epoch;
      var mine, emptied := adds && run[n].nonce == nonce, adds && FindsExpired(run, ttl, n);
      RedisContents(front, ttl, epoch, nonce);
      StoredStep(run, ttl, epoch, nonce);
      forall i: nat
        ensures Lasts(run, ttl, epoch, nonce, i, |run|)
           <==> (i == n && mine) || (Lasts(front, ttl, epoch, nonce, i, |front|) && !emptied)
      {
        LastsPrefix(run, ttl, epoch, nonce, i, n);
      }
      if mine {
        assert Lasts(run, ttl, epoch, nonce, n, |run|);
      } else if i: nat :| Lasts(front, ttl, epoch, nonce, i, |front|) {
        assert Stored(run, ttl, epoch, nonce) <==> Lasts(run, ttl, epoch, nonce, i, |run|);
      }
    }
  }

  /** Between `i` and `k` (perhaps at `k` itself) some SADD on the epoch found its set expired. */
  ghost predicate ExpiredBetween(run: seq<Command>, ttl: nat, i: nat, k: nat)
    requires i <= k < |run|
  {
    exists m :: i < m <= k && run[m].Add? && run[m].epoch == run[k].epoch && FindsExpired(run, ttl, m)
  }

  /**
    The Redis store, for commands interleaved in any way: an attempt is accepted
    exactly when, after every earlier attempt on the same nonce and epoch, some
    SADD found the set of the epoch expired.
   */
  lemma RedisLedger(run: seq<Command>, ttl: nat, k: nat)
    requires k < |run| && run[k].Add?
    ensures RedisAccepts(run, ttl, k)
       <==> forall i: nat :: i < k && run[i].Add? && run[i].epoch == run[k].epoch && run[i].nonce == run[k].nonce ==>
              ExpiredBetween(run, ttl, i, k)
  {
    hide SpentKey, HexEncode, InForce, Added;
    var front, epoch, nonce := run[..k], run[k].epoch, run[k].nonce;
    ExpiryInForce(front, ttl, epoch);
    RedisContents(front, ttl, epoch, nonce);
    forall i: nat ensures Lasts(front, ttl, epoch, nonce, i, k) <==> Lasts(run, ttl, epoch, nonce, i, k) {
      LastsPrefix(run, ttl, epoch, nonce, i, k);
    }
    assert RedisAccepts(run, ttl, k) <==> FindsExpired(run, ttl, k) || !Stored(front, ttl, epoch, nonce);
    forall i: nat | i < k && run[i].Add? && run[i].epoch == epoch && run[i].nonce == nonce
      ensures ExpiredBetween(run, ttl, i, k)
         <==> FindsExpired(run, ttl, k) || !Lasts(run, ttl, epoch, nonce, i, k)
    {
    }
  }

  // ---- Forgetting ----

  ghost predicate InTimeOrder(run: seq<Command>) {
    forall i, j :: 0 <= i < j < |run| ==> run[i].at <= run[j].at
  }

  /**
    Every SADD is followed by an EXPIRE on its epoch no more than `delay` seconds
    later; at the end of the run, some may still be due.
   */
  ghost predicate Prompt(run: seq<Command>, delay: nat) {
    forall i, m :: 0 <= i < m < |run| && run[i].Add? && run[m].at > run[i].at + delay ==> Followed(run, delay, i, m)
  }

  ghost predicate Followed(run: seq<Command>, delay: nat, i: nat, m: nat)
    requires i < m < |run|
  {
    exists r :: i < r < m && run[r].Refresh? && run[r].epoch == run[i].epoch && run[r].at <= run[i].at + delay
  }

  /**
    From command `k` on, a stretch of `span` seconds without an attempt on the epoch
    of the SADD at `m`.
   */
  ghost predicate Quiet(run: seq<Command>, span: int, k: nat, m: nat)
    requires k < m < |run|
  {
    run[m].Add? && run[k].epoch == run[m].epoch && run[m].at >= run[k].at + span
    && forall q :: k < q < m && run[q].Add? && run[q].epoch == run[m].epoch ==> run[q].at >= run[k].at + span
  }

  lemma Governor(run: seq<Command>, ttl: nat, m: nat) returns (k: nat)
    requires m < |run| && run[m].Add? && FindsExpired(run, ttl, m)
    ensures k < m && Governs(run, ttl, run[m].epoch, k, m) && run[m].at >= run[k].at + ttl
  {
    hide InForce, Added, TakesEffect;
    k := InForce(run[..m], ttl, run[m].epoch).value;
    InForceMeans(run, ttl, run[m].epoch, k, m);
  }

  /** When a set is found expired, `ttl - delay` seconds without any attempt on its epoch came before. */
  lemma ExpiredAfterQuiet(run: seq<Command>, ttl: nat, delay: nat, m: nat) returns (k: nat)
    requires InTimeOrder(run) && Prompt(run, delay)
    requires m < |run| && run[m].Add? && FindsExpired(run, ttl, m)
    ensures k < m && Governs(run, ttl, run[m].epoch, k, m) && run[m].at >= run[k].at + ttl
    ensures Quiet(run, ttl - delay, k, m)
  {
    hide InForce, Added, TakesEffect, FindsExpired;
    k := Governor(run, ttl, m);
    forall q | k < q < m && run[q].Add? && run[q].epoch == run[m].epoch ensures run[q].at >= run[k].at + ttl - delay {
      if run[q].at < run[k].at + ttl - delay {
        assert Followed(run, delay, q, m);
        var r :| q < r < m && run[r].Refresh? && run[r].epoch == run[q].epoch && run[r].at <= run[q].at + delay;
        TakesEffectInTime(run, ttl, run[m].epoch, k, q, r);
        assert false;
      }
    }
  }

  /** Before the EXPIRE in force has run out, the next one takes effect. */
  lemma TakesEffectInTime(run: seq<Command>, ttl: nat, epoch: u32, k: nat, q: nat, r: nat)
    requires r < |run| && Governs(run, ttl, epoch, k, r)
    requires k < q < r && run[q].Add? && run[q].epoch == epoch && run[r].Refresh? && run[r].epoch == epoch
    requires run[r].at < run[k].at + ttl
    ensures TakesEffect(run, ttl, r)
  {
    hide InForce;
    InForceMeans(run, ttl, epoch, k, r);
    assert run[..r][q].Add?;
  }

  /**
    A nonce accepted twice in one epoch: between the two, some SADD found the set
    expired, after `ttl - delay` seconds without any attempt on that epoch.
   */
  lemma TwiceOnlyAfterQuiet(run: seq<Command>, ttl: nat, delay: nat, i: nat, j: nat) returns (k: nat, m: nat)
    requires InTimeOrder(run) && Prompt(run, delay)
    requires i < j < |run| && run[i].Add? && run[j].Add?
    requires run[i].epoch == run[j].epoch && run[i].nonce == run[j].nonce && RedisAccepts(run, ttl, j)
    ensures i < m <= j && k < m && run[m].epoch == run[j].epoch && Quiet(run, ttl - delay, k, m)
    ensures run[m].at >= run[k].at + ttl
    ensures k < i ==> run[i].at >= run[k].at + ttl - delay
  {
    hide RedisAccepts, InForce, FindsExpired;
    RedisLedger(run, ttl, j);
    m :| i < m <= j && run[m].Add? && run[m].epoch == run[j].epoch && FindsExpired(run, ttl, m);
    k := ExpiredAfterQuiet(run, ttl, delay, m);
  }

  /** Between the attempts at `i` and `j` lies a stretch of `ttl` seconds without any attempt on their epoch. */
  ghost predicate GapBetween(run: seq<Command>, ttl: nat, i: nat, j: nat)
    requires i < j < |run|
  {
    exists k, m :: i <= k < m <= j && Quiet(run, ttl, k, m)
  }

  ghost predicate Repeated(run: seq<Command>, ttl: nat, i: nat, j: nat) {
    i < j < |run| && run[i].Add? && run[j].Add? && run[i].epoch == run[j].epoch && run[i].nonce == run[j].nonce
    && RedisAccepts(run, ttl, j)
  }

  /** An EXPIRE that comes one second late, just after the set of its own SADD has run out. */
  function LateRefresh(ttl: nat, other: Digest, nonce: Digest): seq<Command> {
    [Add(0, 1, other), Refresh(0, 1), Add(ttl - 1, 1, nonce), Refresh(ttl, 1), Add(ttl, 1, nonce)]
  }

  /** When every EXPIRE comes at the time of its SADD, a nonce is accepted twice only across such a gap. */
  lemma TwiceOnlyAfterGap(run: seq<Command>, ttl: nat, i: nat, j: nat)
    requires InTimeOrder(run) && Prompt(run, 0) && Repeated(run, ttl, i, j)
    ensures GapBetween(run, ttl, i, j)
  {
    hide RedisAccepts, InForce, FindsExpired;
    RedisLedger(run, ttl, j);
    var m :| i < m <= j && run[m].Add? && run[m].epoch == run[j].epoch && FindsExpired(run, ttl, m);
    var k := ExpiredAfterQuiet(run, ttl, 0, m);
    assert Quiet(run, ttl, k, m);
    assert i <= k;
  }

  /** With a time to live of one second, the gap is there however late an EXPIRE comes. */
  lemma GapOfOneSecond(run: seq<Command>, i: nat, j: nat)
    requires InTimeOrder(run) && Repeated(run, 1, i, j)
    ensures GapBetween(run, 1, i, j)
  {
    hide RedisAccepts, InForce, FindsExpired, TakesEffect;
    RedisLedger(run, 1, j);
    var m :| i < m <= j && run[m].Add? && run[m].epoch == run[j].epoch && FindsExpired(run, 1, m);
    var k := Governor(run, 1, m);
    var q := m - 1;
    while !(run[q].Add? && run[q].epoch == run[j].epoch)
      invariant i <= q < m
      invariant forall p :: q < p < m && run[p].Add? ==> run[p].epoch != run[j].epoch
      decreases q
    {
      q := q - 1;
    }
    assert Quiet(run, 1, q, m);
  }

  /**
    The promise of a gap of `ttl` seconds between two acceptances of one nonce holds,
    over all runs, exactly when no EXPIRE comes later than its SADD, or when the gap
    is the one second that tells two times apart. Otherwise a delay of one second
    breaks it, although no command fails.
   */
  lemma GapIff(ttl: nat, delay: nat, other: Digest, nonce: Digest)
    requires ttl > 0 && other != nonce
    ensures (forall run, i, j :: InTimeOrder(run) && Prompt(run, delay) && Repeated(run, ttl, i, j) ==>
               GapBetween(run, ttl, i, j))
       <==> delay == 0 || ttl == 1
  {
    hide RedisAccepts, GapBetween, Prompt;
    if delay == 0 || ttl == 1 {
      forall run, i, j | InTimeOrder(run) && Prompt(run, delay) && Repeated(run, ttl, i, j)
        ensures GapBetween(run, ttl, i, j)
      {
        if delay == 0 {
          TwiceOnlyAfterGap(run, ttl, i, j);
        } else {
          GapOfOneSecond(run, i, j);
        }
      }
    } else {
      var run := LateRefresh(ttl, other, nonce);
      LateRefreshForgets(ttl, other, nonce, delay);
      assert InTimeOrder(run);
    }
  }

  /** The first EXPIRE of a run that starts with one attempt governs what follows, until it has run out. */
  lemma FirstGoverns(run: seq<Command>, ttl: nat, m: nat)
    requires 2 <= m <= |run| && run[0].Add? && run[0].at == 0 && run[1] == Refresh(0, run[0].epoch)
    requires forall q :: 2 <= q < m ==> if run[q].Add? then run[q].at < ttl else run[q].at >= ttl
    ensures InForce(run[..m], ttl, run[0].epoch) == Some(1)
    decreases m
  {
    hide InForce;
    var epoch := run[0].epoch;
    assert run[..1][0].Add?;
    assert TakesEffect(run, ttl, 1);
    forall q | 2 <= q < m && run[q].Refresh? && run[q].epoch == epoch ensures !TakesEffect(run, ttl, q) {
      FirstGoverns(run, ttl, q);
    }
    InForceMeans(run, ttl, epoch, 1, m);
  }

  lemma LateRefreshForgets(ttl: nat, other: Digest, nonce: Digest, delay: nat)
    requires ttl > 1 && other != nonce && delay > 0
    ensures var run := LateRefresh(ttl, other, nonce);
            Prompt(run, delay) && RedisAccepts(run, ttl, 2) && Repeated(run, ttl, 2, 4)
            && !GapBetween(run, ttl, 2, 4)
  {
    hide RedisAccepts, InForce;
    var run := LateRefresh(ttl, other, nonce);
    assert run[1].Refresh? && run[3].Refresh?;
    assert Followed(run, delay, 0, 2) && Followed(run, delay, 0, 3) && Followed(run, delay, 0, 4);
    RedisLedger(run, ttl, 2);
    RedisLedger(run, ttl, 4);
    FirstGoverns(run, ttl, 4);
    assert ExpiredBetween(run, ttl, 2, 4);
  }

  /**
    A lost EXPIRE matters: a nonce accepted one second before the set's old expiry,
    whose own refresh was lost, is accepted again one second later.
   */
  lemma LostExpireForgets(ttl: nat, other: Digest, nonce: Digest)
    requires ttl > 0 && other != nonce
    ensures var run := [Add(0, 1, other), Refresh(0, 1), Add(ttl - 1, 1, nonce), Add(ttl, 1, nonce)];
            RedisAccepts(run, ttl, 2) && RedisAccepts(run, ttl, 3)
  {
    hide RedisAccepts, InForce;
    var run := [Add(0, 1, other), Refresh(0, 1), Add(ttl - 1, 1, nonce), Add(ttl, 1, nonce)];
    RedisLedger(run, ttl, 2);
    RedisLedger(run, ttl, 3);
    FirstGoverns(run, ttl, 3);
    assert ExpiredBetween(run, ttl, 2, 3);
  }
}
