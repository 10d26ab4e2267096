/**
  Issuance quotas: one exact ledger, the in-memory limiter
  (core/src/ratelimit.rs) and the Redis limiter (cli/src/store.rs), and exactly
  when each of the two decides as the ledger does.
 */
module Limits {
  import opened Encoding
  import opened Text

  // ---- The exact ledger ----

  datatype Call = Call(epoch: u64, id: Bytes, n: u32)

  /** Permits granted to `(epoch, id)` by unbounded arithmetic over `calls`. */
  function ExactUsed(max: u32, calls: seq<Call>, epoch: u64, id: Bytes): (used: nat)
    ensures used <= max
  {
    if |calls| == 0 then 0
    else
      var used := ExactUsed(max, calls[..|calls| - 1], epoch, id);
      var last := calls[|calls| - 1];
      if last.epoch == epoch && last.id == id && used + last.n <= max then used + last.n else used
  }

  predicate ExactVerdict(max: u32, calls: seq<Call>, k: nat)
    requires k < |calls|
  {
    ExactUsed(max, calls[..k], calls[k].epoch, calls[k].id) + calls[k].n <= max
  }

  // ---- In memory ----

  type Counters = map<(u64, Bytes), u32>

  function SaturatingAdd32(a: u32, b: u32): u32 {
    if a + b > U32_MAX then U32_MAX else a + b
  }

  function UsedIn(counters: Counters, epoch: u64, id: Bytes): u32 {
    if (epoch, id) in counters then counters[(epoch, id)] else 0
  }

  /** One call: the counters after it and its verdict. The addition wraps, as in a release build. */
  function Consume(counters: Counters, max: u32, c: Call): (Counters, bool) {
    var used := UsedIn(counters, c.epoch, c.id);
    if SaturatingAdd32(used, c.n) > max then (counters[(c.epoch, c.id) := used], false)
    else (counters[(c.epoch, c.id) := AsU32(used + c.n)], true)
  }

  function Kept(counters: Counters, keepFrom: u64): Counters {
    map k | k in counters && k.0 >= keepFrom :: counters[k]
  }

  class InMemoryRateLimiter {
    const maxPerEpoch: u32
    var counters: Counters

    constructor (max: u32)
      ensures maxPerEpoch == max && counters == map[]
    {
      maxPerEpoch := max;
      counters := map[];
    }

    method TryConsumeAt(epoch: u64, id: Bytes, n: u32) returns (ok: bool)
      modifies this
      ensures (counters, ok) == Consume(old(counters), maxPerEpoch, Call(epoch, id, n))
    {
      var key := (epoch, id);
      if key !in counters {
        counters := counters[key := 0];
      }
      var used := counters[key];
      if SaturatingAdd32(used, n) > maxPerEpoch {
        assert counters == old(counters)[key := used];
        return false;
      }
      counters := counters[key := AsU32(used + n)];
      assert counters == old(counters)[key := AsU32(used + n)];
      return true;
    }

    method PruneBefore(keepFrom: u64)
      modifies this
      ensures counters == LimitStep(old(counters), maxPerEpoch, Prune(keepFrom))
      ensures forall epoch: u64, id: Bytes ::
                UsedIn(counters, epoch, id) == if keepFrom <= epoch then UsedIn(old(counters), epoch, id) else 0
    {
      counters := map k | k in counters && k.0 >= keepFrom :: counters[k];
    }
  }

  datatype LimitOp = Take(call: Call) | Prune(keepFrom: u64)

  function LimitStep(counters: Counters, max: u32, op: LimitOp): Counters {
    match op
    case Take(c) => Consume(counters, max, c).0
    case Prune(keepFrom) => Kept(counters, keepFrom)
  }

  function RunMemory(max: u32, ops: seq<LimitOp>): Counters {
    if |ops| == 0 then map[] else LimitStep(RunMemory(max, ops[..|ops| - 1]), max, ops[|ops| - 1])
  }

  predicate MemoryVerdict(max: u32, ops: seq<LimitOp>, k: nat)
    requires k < |ops| && ops[k].Take?
  {
    Consume(RunMemory(max, ops[..k]), max, ops[k].call).1
  }

  /** The calls made since the last prune above `epoch`. */
  function Unpruned(ops: seq<LimitOp>, epoch: u64): seq<Call> {
    if |ops| == 0 then []
    else
      var front := Unpruned(ops[..|ops| - 1], epoch);
      match ops[|ops| - 1]
      case Take(c) => front + [c]
      case Prune(keepFrom) => if keepFrom > epoch then [] else front
  }

  /** What the exact ledger says of call `k`, given the calls that no prune has erased for its epoch. */
  predicate UnprunedVerdict(max: u32, ops: seq<LimitOp>, k: nat)
    requires k < |ops| && ops[k].Take?
  {
    var c := ops[k].call;
    ExactUsed(max, Unpruned(ops[..k], c.epoch), c.epoch, c.id) + c.n <= max
  }

  lemma ExactStep(max: u32, calls: seq<Call>, c: Call, epoch: u64, id: Bytes)
    ensures ExactUsed(max, calls + [c], epoch, id) ==
            var used := ExactUsed(max, calls, epoch, id);
            if c.epoch == epoch && c.id == id && used + c.n <= max then used + c.n else used
  {
    assert (calls + [c])[..|calls|] == calls;
  }

  /** One call changes one counter, and that as the ledger does. */
  lemma ConsumeStep(counters: Counters, max: u32, c: Call, epoch: u64, id: Bytes)
    requires max < U32_MAX && UsedIn(counters, epoch, id) <= max
    ensures UsedIn(Consume(counters, max, c).0, epoch, id) ==
            var used := UsedIn(counters, epoch, id);
            if c.epoch == epoch && c.id == id && used + c.n <= max then used + c.n else used
  {
  }

  lemma {:induction false} MemoryCountsExactly(max: u32, ops: seq<LimitOp>, epoch: u64, id: Bytes)
    requires max < U32_MAX
    ensures UsedIn(RunMemory(max, ops), epoch, id) == ExactUsed(max, Unpruned(ops, epoch), epoch, id)
  {
    if |ops| > 0 {
      var front, last := ops[..|ops| - 1], ops[|ops| - 1];
      MemoryCountsExactly(max, front, epoch, id);
      if last.Take? {
        hide Consume, UsedIn;
        ConsumeStep(RunMemory(max, front), max, last.call, epoch, id);
        ExactStep(max, Unpruned(front, epoch), last.call, epoch, id);
      }
    }
  }

  /**
    The saturating test decides as unbounded arithmetic would, on every run of calls
    and prunes, exactly when the quota is below 2^32 - 1. At 2^32 - 1 the test never
    fails and the counter wraps: a second call is granted after the first took the
    whole quota.
   */
  lemma MemoryExactIff(max: u32)
    ensures (forall ops: seq<LimitOp>, k: nat :: k < |ops| && ops[k].Take? ==>
               (MemoryVerdict(max, ops, k) <==> UnprunedVerdict(max, ops, k)))
       <==> max < U32_MAX
  {
    if max < U32_MAX {
      forall ops: seq<LimitOp>, k: nat | k < |ops| && ops[k].Take?
        ensures MemoryVerdict(max, ops, k) <==> UnprunedVerdict(max, ops, k)
      {
        MemoryCountsExactly(max, ops[..k], ops[k].call.epoch, ops[k].call.id);
      }
    } else {
      var first, second := Take(Call(0, [], U32_MAX)), Take(Call(0, [], 1));
      var ops := [first, second];
      assert ops[..1] == [first] && [first][..0] == [];
      assert RunMemory(max, []) == map[] && Unpruned([], 0) == [];
      assert Unpruned([first], 0) == [] + [first.call];
      ExactStep(max, [], first.call, 0, []);
      assert RunMemory(max, [first]) == Consume(map[], max, first.call).0;
      assert MemoryVerdict(max, ops, 1) && !UnprunedVerdict(max, ops, 1);
    }
  }

  /** A prune leaves every count of an epoch as it is, after every run, exactly when it keeps that epoch. */
  lemma PruneHarmlessIff(max: u32, keepFrom: u64, epoch: u64)
    requires 0 < max < U32_MAX
    ensures (forall ops: seq<LimitOp>, id: Bytes ::
               UsedIn(RunMemory(max, ops + [Prune(keepFrom)]), epoch, id) == UsedIn(RunMemory(max, ops), epoch, id))
       <==> keepFrom <= epoch
  {
    forall ops: seq<LimitOp>, id: Bytes
      ensures UsedIn(RunMemory(max, ops + [Prune(keepFrom)]), epoch, id)
           == if keepFrom <= epoch then UsedIn(RunMemory(max, ops), epoch, id) else 0
    {
      assert (ops + [Prune(keepFrom)])[..|ops|] == ops;
    }
    if keepFrom > epoch {
      var ops := [Take(Call(epoch, [], 1))];
      assert ops[..0] == [];
      assert UsedIn(RunMemory(max, ops), epoch, []) == 1;
      assert UsedIn(RunMemory(max, ops + [Prune(keepFrom)]), epoch, []) != UsedIn(RunMemory(max, ops), epoch, []);
    }
  }

  // ---- Redis ----

  /** A string key's integer and the instant it expires, if it does. */
  datatype Stored = Stored(value: int, expireAt: Option<int>)
  type Db = map<string, Stored>

  predicate Live(db: Db, now: nat, key: string) {
    key in db && (db[key].expireAt.None? || now < db[key].expireAt.value)
  }

  function ValueAt(db: Db, now: nat, key: string): int {
    if Live(db, now, key) then db[key].value else 0
  }

  /** INCRBY, and DECRBY with a negative `n`: a missing key counts from 0 and gets no expiry. */
  function IncrBy(db: Db, now: nat, key: string, n: int): Db {
    db[key := Stored(ValueAt(db, now, key) + n, if Live(db, now, key) then db[key].expireAt else None)]
  }

  /** EXPIRE: a time to live that is not positive deletes the key at once. */
  function Expire(db: Db, now: nat, key: string, ttl: int): Db {
    if !Live(db, now, key) then db
    else if ttl <= 0 then db - {key}
    else db[key := db[key].(expireAt := Some(now + ttl))]
  }

  /** `CONSUME_LUA`, which Redis runs atomically. */
  function ConsumeScript(db: Db, now: nat, key: string, n: u32, ttl: int, max: u32): (Db, bool) {
    var d1 := IncrBy(db, now, key, n);
    var v := ValueAt(d1, now, key);
    var d2 := if v == n then Expire(d1, now, key, ttl) else d1;
    if v > max then (IncrBy(d2, now, key, -(n as int)), false) else (d2, true)
  }

  /** `current_epoch` at a clock reading. */
  function Bucket(readAt: u64, epochSecs: u64): u64
    requires epochSecs > 0
  {
    readAt / epochSecs
  }

  /** The epoch length is positive, and the time to live it gives fits `i64`. */
  predicate FitsClock(epochSecs: u64) { epochSecs > 0 && epochSecs + epochSecs / 2 < 0x8000_0000_0000_0000 }

  function LimitKey(epoch: u64, id: Bytes): string {
    "eatpass:rl:" + Decimal(epoch) + ":" + HexEncode(id)
  }

  /** `as i64` */
  function AsI64(n: u64): int {
    if n < 0x8000_0000_0000_0000 then n else n - 0x1_0000_0000_0000_0000
  }

  function Ttl(epochSecs: u64): u64 {
    var t := SaturatingAdd64(epochSecs, epochSecs / 2);
    if t == 0 then 1 else t
  }

  class RedisRateLimiter {
    const maxPerEpoch: u32
    const epochSecs: u64
    var db: Db

    constructor (max: u32, secs: u64)
      ensures maxPerEpoch == max && epochSecs == (if secs == 0 then 1 else secs) && db == map[]
    {
      maxPerEpoch := max;
      epochSecs := if secs == 0 then 1 else secs;
      db := map[];
    }

    /** The clock is read at `readAt`; the script runs at `runAt`. */
    method TryConsume(id: Bytes, n: u32, readAt: u64, runAt: nat) returns (ok: bool)
      requires epochSecs > 0
      modifies this`db
      ensures (db, ok) == ConsumeScript(old(db), runAt, LimitKey(Bucket(readAt, epochSecs), id), n,
                                        AsI64(Ttl(epochSecs)), maxPerEpoch)
    {
      var key := LimitKey(Bucket(readAt, epochSecs), id);
      db := IncrBy(db, runAt, key, n);
      var v := ValueAt(db, runAt, key);
      if v == n {
        db := Expire(db, runAt, key, AsI64(Ttl(epochSecs)));
      }
      if v > maxPerEpoch {
        db := IncrBy(db, runAt, key, -(n as int));
        return false;
      }
      return true;
    }
  }

  /** A call by any replica: the clock it read, when its script ran, and what it asked for. */
  datatype TimedCall = TimedCall(readAt: u64, runAt: nat, id: Bytes, n: u32)

  function Timeless(c: TimedCall, epochSecs: u64): Call
    requires epochSecs > 0
  {
    Call(Bucket(c.readAt, epochSecs), c.id, c.n)
  }

  function AllTimeless(calls: seq<TimedCall>, epochSecs: u64): (timeless: seq<Call>)
    requires epochSecs > 0
    ensures |timeless| == |calls|
  {
    seq(|calls|, i requires 0 <= i < |calls| => Timeless(calls[i], epochSecs))
  }

  function Script(db: Db, max: u32, epochSecs: u64, c: TimedCall): (Db, bool)
    requires epochSecs > 0
  {
    ConsumeScript(db, c.runAt, LimitKey(Bucket(c.readAt, epochSecs), c.id), c.n, AsI64(Ttl(epochSecs)), max)
  }

  function RunRedis(max: u32, epochSecs: u64, calls: seq<TimedCall>): Db
    requires epochSecs > 0
  {
    if |calls| == 0 then map[]
    else Script(RunRedis(max, epochSecs, calls[..|calls| - 1]), max, epochSecs, calls[|calls| - 1]).0
  }

  predicate RedisVerdict(max: u32, epochSecs: u64, calls: seq<TimedCall>, k: nat)
    requires epochSecs > 0 && k < |calls|
  {
    Script(RunRedis(max, epochSecs, calls[..k]), max, epochSecs, calls[k]).1
  }

  /** Scripts run in time order, each at most `delay` seconds after its clock reading. */
  ghost predicate Timely(calls: seq<TimedCall>, delay: nat) {
    (forall i :: 0 <= i < |calls| ==> calls[i].readAt <= calls[i].runAt <= calls[i].readAt + delay)
    && (forall i, j :: 0 <= i < j < |calls| ==> calls[i].runAt <= calls[j].runAt)
  }

  lemma PlainDigits(a: string, b: string, x: string, y: string)
    requires forall i :: 0 <= i < |a| ==> '0' <= a[i] <= '9'
    requires forall i :: 0 <= i < |b| ==> '0' <= b[i] <= '9'
    requires a + ":" + x == b + ":" + y
    ensures a == b && x == y
  {
    BeforeSplits(a, ':', x);
    BeforeSplits(b, ':', y);
    SameSplit(a + ":", x, b + ":", y);
  }

  /** Different buckets never share a Redis key. */
  lemma LimitKeyInjective(e1: u64, id1: Bytes, e2: u64, id2: Bytes)
    requires LimitKey(e1, id1) == LimitKey(e2, id2)
    ensures e1 == e2 && id1 == id2
  {
    hide Decimal;
    var p := "eatpass:rl:";
    assert LimitKey(e1, id1) == p + (Decimal(e1) + ":" + HexEncode(id1));
    assert LimitKey(e2, id2) == p + (Decimal(e2) + ":" + HexEncode(id2));
    SameSplit(p, Decimal(e1) + ":" + HexEncode(id1), p, Decimal(e2) + ":" + HexEncode(id2));
    PlainDigits(Decimal(e1), Decimal(e2), HexEncode(id1), HexEncode(id2));
    DecimalInjective(e1, e2);
    HexRoundTrip(id1);
    HexRoundTrip(id2);
  }

  /** When the counter of `epoch` stops mattering: half an epoch after its bucket ends. */
  function WindowEnd(epoch: u64, epochSecs: u64): nat { (epoch + 1) * epochSecs + epochSecs / 2 }

  /** From `now` until its window ends, each counter shows the exact sum. */
  ghost predicate Shows(db: Db, now: nat, max: u32, epochSecs: u64, calls: seq<Call>) {
    forall e: u64, id: Bytes, t: nat {:trigger ValueAt(db, t, LimitKey(e, id))} ::
      now <= t < WindowEnd(e, epochSecs) ==>
        ValueAt(db, t, LimitKey(e, id)) == ExactUsed(max, calls, e, id)
  }

  /** One script, seen at its own key: until `t` the counter shows `used`, before and after. */
  lemma ScriptAtKey(db: Db, now: nat, t: nat, key: string, n: u32, ttl: int, max: u32, used: nat)
    requires now <= t < now + ttl && used <= max
    requires ValueAt(db, now, key) == used && ValueAt(db, t, key) == used
    ensures var (after, ok) := ConsumeScript(db, now, key, n, ttl, max);
            (ok <==> used + n <= max)
            && ValueAt(after, t, key) == (if used + n <= max then used + n else used)
  {
  }

  lemma ScriptElsewhere(db: Db, now: nat, t: nat, key: string, n: u32, ttl: int, max: u32, other: string)
    requires other != key
    ensures ValueAt(ConsumeScript(db, now, key, n, ttl, max).0, t, other) == ValueAt(db, t, other)
  {
  }

  /** A script that runs within half an epoch of its clock reading keeps every open counter exact. */
  lemma ScriptShows(db: Db, now: nat, max: u32, epochSecs: u64, front: seq<Call>, c: TimedCall)
    requires FitsClock(epochSecs)
    requires Shows(db, now, max, epochSecs, front)
    requires c.readAt <= c.runAt <= c.readAt + epochSecs / 2 && now <= c.runAt
    ensures Script(db, max, epochSecs, c).1
       <==> ExactUsed(max, front, Bucket(c.readAt, epochSecs), c.id) + c.n <= max
    ensures Shows(Script(db, max, epochSecs, c).0, c.runAt, max, epochSecs, front + [Timeless(c, epochSecs)])
  {
    hide ConsumeScript, LimitKey, ValueAt, Bucket, WindowEnd;
    var epoch := Bucket(c.readAt, epochSecs);
    var key, ttl := LimitKey(epoch, c.id), AsI64(Ttl(epochSecs));
    var used := ExactUsed(max, front, epoch, c.id);
    var calls := front + [Timeless(c, epochSecs)];
    assert calls[..|calls| - 1] == front;
    WindowBounds(c.readAt, epochSecs);
    assert ValueAt(db, c.runAt, key) == used;
    ScriptAtKey(db, c.runAt, c.runAt, key, c.n, ttl, max, used);
    forall e: u64, id: Bytes, t: nat | c.runAt <= t < WindowEnd(e, epochSecs)
      ensures ValueAt(Script(db, max, epochSecs, c).0, t, LimitKey(e, id)) == ExactUsed(max, calls, e, id)
    {
      assert ValueAt(db, t, LimitKey(e, id)) == ExactUsed(max, front, e, id);
      if e == epoch && id == c.id {
        ScriptAtKey(db, c.runAt, t, key, c.n, ttl, max, used);
      } else {
        if LimitKey(e, id) == key { LimitKeyInjective(e, id, epoch, c.id); }
        ScriptElsewhere(db, c.runAt, t, key, c.n, ttl, max, LimitKey(e, id));
      }
    }
  }

  lemma WindowBounds(readAt: u64, epochSecs: u64)
    requires epochSecs > 0
    ensures readAt + epochSecs / 2 < WindowEnd(Bucket(readAt, epochSecs), epochSecs)
    ensures WindowEnd(Bucket(readAt, epochSecs), epochSecs) <= readAt + epochSecs + epochSecs / 2
  {
    var q := readAt / epochSecs;
    assert (q + 1) * epochSecs == q * epochSecs + epochSecs;
    assert readAt == q * epochSecs + readAt % epochSecs;
  }

  lemma TimelyFront(calls: seq<TimedCall>, delay: nat)
    requires Timely(calls, delay) && |calls| > 0
    ensures var n := |calls| - 1;
            Timely(calls[..n], delay) && calls[n].readAt <= calls[n].runAt <= calls[n].readAt + delay
            && (n > 0 ==> calls[..n][n - 1].runAt <= calls[n].runAt)
  {
  }

  lemma {:induction false} RedisShows(max: u32, epochSecs: u64, calls: seq<TimedCall>)
    requires FitsClock(epochSecs)
    requires Timely(calls, epochSecs / 2)
    ensures Shows(RunRedis(max, epochSecs, calls), if |calls| == 0 then 0 else calls[|calls| - 1].runAt,
                  max, epochSecs, AllTimeless(calls, epochSecs))
  {
    hide Script, Bucket;
    if |calls| > 0 {
      hide Shows, ExactUsed, Timely;
      var front, last := calls[..|calls| - 1], calls[|calls| - 1];
      TimelyFront(calls, epochSecs / 2);
      RedisShows(max, epochSecs, front);
      ScriptShows(RunRedis(max, epochSecs, front), if |front| == 0 then 0 else front[|front| - 1].runAt,
                  max, epochSecs, AllTimeless(front, epochSecs), last);
      assert AllTimeless(calls, epochSecs) == AllTimeless(front, epochSecs) + [Timeless(last, epochSecs)];
    }
  }

  /**
    For every sequence of script calls from any number of replicas, rollback
    included, each verdict is the exact ledger's, provided that every script runs
    within half an epoch of its clock reading.
   */
  lemma RedisIsExact(max: u32, epochSecs: u64, calls: seq<TimedCall>, k: nat)
    requires FitsClock(epochSecs)
    requires Timely(calls, epochSecs / 2) && k < |calls|
    ensures RedisVerdict(max, epochSecs, calls, k)
       <==> ExactVerdict(max, AllTimeless(calls, epochSecs), k)
  {
    hide Script, RunRedis, ExactUsed, Bucket;
    var front := calls[..k];
    RedisShows(max, epochSecs, front);
    ScriptShows(RunRedis(max, epochSecs, front), if |front| == 0 then 0 else front[|front| - 1].runAt,
                max, epochSecs, AllTimeless(front, epochSecs), calls[k]);
    assert AllTimeless(calls, epochSecs)[..k] == AllTimeless(front, epochSecs);
  }

  /** Permits that the scripts granted to `id` in `epoch`. */
  function RedisGranted(max: u32, epochSecs: u64, calls: seq<TimedCall>, epoch: u64, id: Bytes): nat
    requires epochSecs > 0
  {
    if |calls| == 0 then 0
    else
      var n := |calls| - 1;
      RedisGranted(max, epochSecs, calls[..n], epoch, id)
      + (if RedisVerdict(max, epochSecs, calls, n) && Bucket(calls[n].readAt, epochSecs) == epoch && calls[n].id == id
         then calls[n].n else 0)
  }

  /** All replicas together grant an id, in each epoch, what the ledger grants it, so at most the quota. */
  lemma {:induction false} RedisConserves(max: u32, epochSecs: u64, calls: seq<TimedCall>, epoch: u64, id: Bytes)
    requires FitsClock(epochSecs) && Timely(calls, epochSecs / 2)
    ensures RedisGranted(max, epochSecs, calls, epoch, id) == ExactUsed(max, AllTimeless(calls, epochSecs), epoch, id)
    ensures RedisGranted(max, epochSecs, calls, epoch, id) <= max
  {
    hide RedisVerdict, Bucket;
    if |calls| > 0 {
      var n := |calls| - 1;
      RedisConserves(max, epochSecs, calls[..n], epoch, id);
      RedisIsExact(max, epochSecs, calls, n);
      assert AllTimeless(calls, epochSecs)[..n] == AllTimeless(calls[..n], epochSecs);
    }
  }

  /** A first script at time 0 and a second one, for the same bucket, that runs when its counter expires. */
  function LateRun(max: u32, epochSecs: u64): seq<TimedCall>
    requires epochSecs > 0
  {
    [TimedCall(0, 0, [], max), TimedCall(epochSecs - 1, epochSecs + epochSecs / 2, [], 1)]
  }

  lemma LateScriptOvershoots(max: u32, epochSecs: u64)
    requires max > 0 && FitsClock(epochSecs)
    ensures Timely(LateRun(max, epochSecs), epochSecs / 2 + 1)
    ensures RedisVerdict(max, epochSecs, LateRun(max, epochSecs), 1)
    ensures !ExactVerdict(max, AllTimeless(LateRun(max, epochSecs), epochSecs), 1)
  {
    hide LimitKey;
    var calls := LateRun(max, epochSecs);
    var key := LimitKey(0, []);
    assert 0 / epochSecs == 0 && (epochSecs - 1) / epochSecs == 0;
    assert calls[..1] == [calls[0]] && [calls[0]][..0] == [];
    var db := RunRedis(max, epochSecs, [calls[0]]);
    assert RunRedis(max, epochSecs, []) == map[];
    assert db == ConsumeScript(map[], 0, key, max, Ttl(epochSecs), max).0;
    assert db[key] == Stored(max, Some(Ttl(epochSecs)));
    var timeless := AllTimeless(calls, epochSecs);
    assert timeless[..1] == [Call(0, [], max)] && [Call(0, [], max)][..0] == [];
    assert ExactUsed(max, [], 0, []) == 0;
    assert ExactUsed(max, timeless[..1], 0, []) == max;
  }

  /**
    The time to live of one and a half epochs tolerates exactly half an epoch
    between reading the clock and running the script: all runs with that bound on
    the delay are exact, and no larger bound has this property.
   */
  lemma DelayToleranceIsHalfAnEpoch(max: u32, epochSecs: u64, delay: nat)
    requires max > 0 && FitsClock(epochSecs)
    ensures (forall calls: seq<TimedCall>, k: nat :: Timely(calls, delay) && k < |calls| ==>
               (RedisVerdict(max, epochSecs, calls, k)
                <==> ExactVerdict(max, AllTimeless(calls, epochSecs), k)))
       <==> delay <= epochSecs / 2
  {
    hide RedisVerdict, ExactVerdict, AllTimeless;
    if delay <= epochSecs / 2 {
      forall calls: seq<TimedCall>, k: nat | Timely(calls, delay) && k < |calls|
        ensures RedisVerdict(max, epochSecs, calls, k)
           <==> ExactVerdict(max, AllTimeless(calls, epochSecs), k)
      {
        RedisIsExact(max, epochSecs, calls, k);
      }
    } else {
      var calls := LateRun(max, epochSecs);
      LateScriptOvershoots(max, epochSecs);
      assert Timely(calls, delay);
      assert 1 < |calls|;
    }
  }
}
