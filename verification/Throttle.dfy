/** The fixed-window request counter, in memory and in Redis. */
module Throttle {
  import opened Numbers
  import opened Delivery
  import opened Wrappers

  datatype Key = Key(text: string)
  datatype MemRecord = MemRecord(hits: nat, expiresAt: int)

  /** What the throttler guard is told. Nothing stands for a number that is missing: `undefined`, or what arithmetic
      makes of it. */
  datatype StorageRecord = StorageRecord(totalHits: Option<nat>, timeToExpire: Option<int>)

  /** The guard refuses when `totalHits > limit`, which a missing total is not. */
  predicate Admits(record: StorageRecord, limit: nat) {
    record.totalHits.None? || record.totalHits.value <= limit
  }

  // ----- in memory -----

  /** The window that a call at `now` falls in: the stored one while it lasts, otherwise a new one. */
  function Window(mem: map<Key, MemRecord>, key: Key, ttl: int, now: int): MemRecord {
    if key in mem && now < mem[key].expiresAt then MemRecord(mem[key].hits + 1, mem[key].expiresAt)
    else MemRecord(1, now + ttl)
  }

  /** The new map, and the record of the call: a call that opens a window is told its whole length. */
  function MemIncrement(mem: map<Key, MemRecord>, key: Key, ttl: int, now: int): (map<Key, MemRecord>, StorageRecord) {
    var w := Window(mem, key, ttl, now);
    (mem[key := w], StorageRecord(Some(w.hits), Some(if w.hits == 1 then ttl else w.expiresAt - now)))
  }

  // ----- in Redis, one call at a time -----

  /** A Redis key: a counter and the instant it expires, if one was set. */
  datatype Entry = Entry(value: nat, expireAt: Option<int>)

  /** Whether the key is still there at its own expiry instant differs between servers: `lingers`. */
  predicate Alive(redis: map<Key, Entry>, key: Key, now: int, lingers: bool) {
    key in redis && match redis[key].expireAt
                    case None => true
                    case Some(e) => now < e || (lingers && now == e)
  }

  function Incr(redis: map<Key, Entry>, key: Key, now: int, lingers: bool): map<Key, Entry> {
    if Alive(redis, key, now, lingers) then redis[key := redis[key].(value := redis[key].value + 1)]
    else redis[key := Entry(1, None)]
  }

  function Pttl(redis: map<Key, Entry>, key: Key, now: int, lingers: bool): int {
    if !Alive(redis, key, now, lingers) then -2
    else match redis[key].expireAt case None => -1 case Some(e) => e - now
  }

  function Pexpire(redis: map<Key, Entry>, key: Key, ttl: int, now: int, lingers: bool): map<Key, Entry> {
    if !Alive(redis, key, now, lingers) then redis
    else if ttl <= 0 then redis - {key}
    else redis[key := redis[key].(expireAt := Some(now + ttl))]
  }

  function RedisIncrement(redis: map<Key, Entry>, key: Key, ttl: int, now: int, lingers: bool)
    : (map<Key, Entry>, StorageRecord)
  {
    var counted := Incr(redis, key, now, lingers);
    var totalHits := counted[key].value;
    var pttl := Pttl(counted, key, now, lingers);
    if totalHits == 1 || pttl == -1
    then (Pexpire(counted, key, ttl, now, lingers), StorageRecord(Some(totalHits), Some(ttl)))
    else (counted, StorageRecord(Some(totalHits), Some(Max(0, pttl))))
  }

  // ----- commands that fail -----

  /** The fates of the commands of one call. */
  datatype Wire = Wire(incr: Fate, pttl: Fate, pexpire: Fate)

  const SOUND_WIRE := Wire(Answered, Answered, Answered)

  /** One attempt in Redis, and its record; none when it throws. A pipeline answers a failed command with a pair of an
      error and no result, and never throws: the error is not looked at, and the call goes on without the number. Only
      `pexpire`, which is sent by itself, throws. */
  function RedisAttempt(redis: map<Key, Entry>, key: Key, ttl: int, now: int, lingers: bool, wire: Wire)
    : (map<Key, Entry>, Option<StorageRecord>)
  {
    var counted := if wire.incr.Lost? then redis else Incr(redis, key, now, lingers);
    var totalHits := if wire.incr.Answered? then Some(counted[key].value) else None;
    var pttl := if wire.pttl.Answered? then Some(Pttl(counted, key, now, lingers)) else None;
    if totalHits == Some(1) || pttl == Some(-1) then
      match wire.pexpire
      case Answered => (Pexpire(counted, key, ttl, now, lingers), Some(StorageRecord(totalHits, Some(ttl))))
      case Unanswered => (Pexpire(counted, key, ttl, now, lingers), None)
      case Lost => (counted, None)
    else
      (counted, Some(StorageRecord(totalHits, match pttl case None => None case Some(left) => Some(Max(0, left)))))
  }

  /** Without failures an attempt is one sequential increment. */
  lemma SoundAttemptIncrements(redis: map<Key, Entry>, key: Key, ttl: int, now: int, lingers: bool)
    ensures
      var (after, record) := RedisIncrement(redis, key, ttl, now, lingers);
      RedisAttempt(redis, key, ttl, now, lingers, SOUND_WIRE) == (after, Some(record))
  {
  }

  /** What becomes of the key and what is answered, for every fate of every command. `pexpire` is sent when the
      counter is told to be one or the key to have no expiry; the call throws exactly when that command is not
      answered. */
  lemma {:induction false} AttemptExactly(redis: map<Key, Entry>, key: Key, ttl: int, now: int, lingers: bool,
      wire: Wire)
    requires ttl > 0
    ensures
      var (after, record) := RedisAttempt(redis, key, ttl, now, lingers, wire);
      var end := if key in redis then redis[key].expireAt else None;
      var there := key in redis && (end == None || now < end.value || (lingers && now == end.value));
      var hits := (if there then redis[key].value else 0) + (if wire.incr == Lost then 0 else 1);
      var ends := there && end != None;
      var sends := || (wire.incr == Answered && hits == 1)
                   || (wire.pttl == Answered && (there || wire.incr != Lost) && !ends);
      && after - {key} == redis - {key}
      && (if there || wire.incr != Lost
          then key in after && after[key] == Entry(hits, if sends && wire.pexpire != Lost then Some(now + ttl)
                                                         else if there then end else None)
          else after == redis)
      && (record == None <==> sends && wire.pexpire != Answered)
      && (record != None ==>
            && record.value.totalHits == (if wire.incr == Answered then Some(hits) else None)
            && record.value.timeToExpire == if sends then Some(ttl)
                                            else if wire.pttl != Answered then None
                                            else Some(if ends then end.value - now else 0))
  {
  }

  // ----- the storage -----

  class RedisThrottlerStorage {
    const lingers: bool
    var mem: map<Key, MemRecord>
    var redis: map<Key, Entry>

    ghost predicate Valid()
      reads this
    {
      forall k :: k in mem ==> mem[k].hits >= 1
    }

    constructor (lingers: bool)
      ensures Valid() && this.lingers == lingers && mem == map[] && redis == map[]
    {
      this.lingers, mem, redis := lingers, map[], map[];
    }

    /** `available` says whether the Redis client is connected. A call that throws in Redis is counted in memory. */
    method Increment(key: Key, ttl: int, now: int, available: bool, wire: Wire) returns (record: StorageRecord)
      requires Valid()
      modifies this
      ensures Valid()
      ensures
        var attempt := RedisAttempt(old(redis), key, ttl, now, lingers, wire);
        && redis == (if available then attempt.0 else old(redis))
        && if available && attempt.1.Some? then mem == old(mem) && record == attempt.1.value
           else (mem, record) == MemIncrement(old(mem), key, ttl, now)
    {
      if available {
        var answer := IncrementRedis(key, ttl, now, wire);
        if answer.Some? {
          return answer.value;
        }
      }
      record := IncrementMem(key, ttl, now);
    }

    method IncrementRedis(key: Key, ttl: int, now: int, wire: Wire) returns (record: Option<StorageRecord>)
      modifies this`redis
      ensures (redis, record) == RedisAttempt(old(redis), key, ttl, now, lingers, wire)
    {
      var totalHits: Option<nat> := None;
      if !wire.incr.Lost? {
        redis := Incr(redis, key, now, lingers);
        if wire.incr.Answered? {
          totalHits := Some(redis[key].value);
        }
      }
      var pttl := if wire.pttl.Answered? then Some(Pttl(redis, key, now, lingers)) else None;
      if totalHits == Some(1) || pttl == Some(-1) {
        if wire.pexpire.Lost? {
          return None;
        }
        redis := Pexpire(redis, key, ttl, now, lingers);
        return if wire.pexpire.Answered? then Some(StorageRecord(totalHits, Some(ttl))) else None;
      }
      return Some(StorageRecord(totalHits, match pttl case None => None case Some(left) => Some(Max(0, left))));
    }

    method IncrementMem(key: Key, ttl: int, now: int) returns (record: StorageRecord)
      requires Valid()
      modifies this`mem
      ensures Valid()
      ensures (mem, record) == MemIncrement(old(mem), key, ttl, now)
    {
      if key !in mem || now >= mem[key].expiresAt {
        mem := mem[key := MemRecord(1, now + ttl)];
        return StorageRecord(Some(1), Some(ttl));
      }
      mem := mem[key := mem[key].(hits := mem[key].hits + 1)];
      return StorageRecord(Some(mem[key].hits), Some(Max(0, mem[key].expiresAt - now)));
    }
  }

  // ----- runs of calls for any keys at non-decreasing times -----

  datatype Run = Start | Then(past: Run, key: Key, now: int)

  predicate Ordered(r: Run) {
    match r
    case Start => true
    case Then(past, _, now) => Ordered(past) && (past.Then? ==> past.now <= now)
  }

  function Mem(r: Run, ttl: int): map<Key, MemRecord> {
    match r
    case Start => map[]
    case Then(past, key, now) => MemIncrement(Mem(past, ttl), key, ttl, now).0
  }

  /** `totalHits` of the last call, which memory always has. */
  function TotalHits(r: Run, ttl: int): nat
    requires r.Then?
  {
    Window(Mem(r.past, ttl), r.key, ttl, r.now).hits
  }

  function CallsFrom(r: Run, key: Key, from: int): nat {
    match r
    case Start => 0
    case Then(past, k, now) => CallsFrom(past, key, from) + if k == key && now >= from then 1 else 0
  }

  lemma {:induction false} NoCallBeyondWindow(r: Run, ttl: int, key: Key, from: int)
    requires ttl > 0
    requires key in Mem(r, ttl) ==> Mem(r, ttl)[key].expiresAt <= from
    ensures CallsFrom(r, key, from) == 0
  {
    match r
    case Start =>
    case Then(past, k, now) => NoCallBeyondWindow(past, ttl, key, from);
  }

  /** The counter is exactly the number of calls for its key since its window opened. */
  lemma {:induction false} HitsCountTheWindow(r: Run, ttl: int, key: Key)
    requires ttl > 0 && Ordered(r)
    ensures key in Mem(r, ttl) ==>
              && Mem(r, ttl)[key].hits == CallsFrom(r, key, Mem(r, ttl)[key].expiresAt - ttl)
              && r.Then? && Mem(r, ttl)[key].expiresAt - ttl <= r.now
  {
    match r
    case Start =>
    case Then(past, k, now) =>
      HitsCountTheWindow(past, ttl, key);
      if k == key && !(key in Mem(past, ttl) && now < Mem(past, ttl)[key].expiresAt) {
        NoCallBeyondWindow(past, ttl, key, now);
      }
  }

  /** Admitted calls for `key` in the half-open interval of one window length that begins at `a`. */
  function Admitted(r: Run, ttl: int, limit: nat, key: Key, a: int): nat {
    match r
    case Start => 0
    case Then(past, k, now) =>
      Admitted(past, ttl, limit, key, a)
      + if k == key && a <= now < a + ttl && TotalHits(r, ttl) <= limit then 1 else 0
  }

  /** By where the current window opened: before the interval, within it, or after it. */
  lemma {:induction false} AdmittedByWindow(r: Run, ttl: int, limit: nat, key: Key, a: int)
    requires Ordered(r) && limit >= 1
    ensures
      var n := Admitted(r, ttl, limit, key, a);
      if key !in Mem(r, ttl) then n == 0
      else
        var w := Mem(r, ttl)[key];
        var opening := w.expiresAt - ttl;
        && w.hits >= 1 && r.Then? && opening <= r.now
        && (r.now < a ==> n == 0)
        && n <= if opening < a then Min(w.hits, limit) - 1
                else if opening < a + ttl then limit - 1 + Min(w.hits, limit)
                else 2 * limit - 1
  {
    match r
    case Start =>
    case Then(past, k, now) => AdmittedByWindow(past, ttl, limit, key, a);
  }

  /** However calls are timed, an interval of one window length sees fewer than twice the limit admitted: the
      call that opened the older of its two windows came before it. */
  lemma {:induction false} FewerThanTwiceTheLimit(r: Run, ttl: int, limit: nat, key: Key, a: int)
    requires Ordered(r) && limit >= 1
    ensures Admitted(r, ttl, limit, key, a) <= 2 * limit - 1
  {
    AdmittedByWindow(r, ttl, limit, key, a);
  }

  function Burst(past: Run, key: Key, now: int, n: nat): Run {
    if n == 0 then past else Then(Burst(past, key, now, n - 1), key, now)
  }

  lemma {:induction false} BurstIsAdmitted(past: Run, key: Key, now: int, n: nat, ttl: int, limit: nat, a: int)
    requires ttl > 0 && Ordered(past) && (past.Then? ==> past.now <= now) && a <= now < a + ttl
    requires
      var hits := if key in Mem(past, ttl) && now < Mem(past, ttl)[key].expiresAt then Mem(past, ttl)[key].hits else 0;
      hits + n <= limit
    ensures
      var r := Burst(past, key, now, n);
      && Ordered(r) && (r.Then? ==> r.now <= now)
      && Admitted(r, ttl, limit, key, a) == Admitted(past, ttl, limit, key, a) + n
      && (n > 0 ==> key in Mem(r, ttl)
                    && Mem(r, ttl)[key].expiresAt == Window(Mem(past, ttl), key, ttl, now).expiresAt
                    && Mem(r, ttl)[key].hits == Window(Mem(past, ttl), key, ttl, now).hits + n - 1)
    decreases n
  {
    if n > 0 {
      BurstIsAdmitted(past, key, now, n - 1, ttl, limit, a);
    }
  }

  /** The bound is reached, for every limit: a window filled in its last millisecond, and the next one filled at
      once. */
  lemma TheBoundIsReached(ttl: int, limit: nat, key: Key)
    requires ttl >= 2 && limit >= 1
    ensures exists r, a :: Ordered(r) && Admitted(r, ttl, limit, key, a) == 2 * limit - 1
  {
    // One call opens a window at 0; the rest of it is filled at ttl - 1, and the next window at ttl.
    var opening := Then(Start, key, 0);
    var late := Burst(opening, key, ttl - 1, limit - 1);
    BurstIsAdmitted(opening, key, ttl - 1, limit - 1, ttl, limit, ttl - 1);
    var full := Burst(late, key, ttl, limit);
    BurstIsAdmitted(late, key, ttl, limit, ttl, limit, ttl - 1);
    assert Admitted(opening, ttl, limit, key, ttl - 1) == 0;
    assert Ordered(full) && Admitted(full, ttl, limit, key, ttl - 1) == 2 * limit - 1;
  }

  // ----- the Redis twin -----

  function Redis(r: Run, ttl: int, lingers: bool): map<Key, Entry> {
    match r
    case Start => map[]
    case Then(past, key, now) => RedisIncrement(Redis(past, ttl, lingers), key, ttl, now, lingers).0
  }

  predicate SameRecords(r: Run, ttl: int, lingers: bool) {
    match r
    case Start => true
    case Then(past, key, now) =>
      SameRecords(past, ttl, lingers)
      && RedisIncrement(Redis(past, ttl, lingers), key, ttl, now, lingers).1
          == MemIncrement(Mem(past, ttl), key, ttl, now).1
  }

  /** Some call arrives at the very instant its window expires. */
  predicate OnTheDot(r: Run, ttl: int) {
    match r
    case Start => false
    case Then(past, key, now) =>
      OnTheDot(past, ttl) || (key in Mem(past, ttl) && Mem(past, ttl)[key].expiresAt == now)
  }

  ghost predicate Twins(mem: map<Key, MemRecord>, redis: map<Key, Entry>) {
    && mem.Keys == redis.Keys
    && forall k :: k in mem ==> mem[k].hits >= 1 && redis[k] == Entry(mem[k].hits, Some(mem[k].expiresAt))
  }

  /** Both stores return the same records exactly when the key does not linger, or no call is on the dot. */
  lemma {:induction false} StoresAgreeExactly(r: Run, ttl: int, lingers: bool)
    requires ttl > 0
    ensures SameRecords(r, ttl, lingers) <==> !(lingers && OnTheDot(r, ttl))
    ensures SameRecords(r, ttl, lingers) ==> Twins(Mem(r, ttl), Redis(r, ttl, lingers))
  {
    match r
    case Start =>
    case Then(past, key, now) => StoresAgreeExactly(past, ttl, lingers);
  }

  /** A window without length is no window: every call is the first one, and Redis keeps nothing. */
  lemma {:induction false} NoLengthNoWindow(r: Run, ttl: int, lingers: bool)
    requires ttl <= 0 && Ordered(r)
    ensures Redis(r, ttl, lingers) == map[]
    ensures SameRecords(r, ttl, lingers)
    ensures r.Then? ==> MemIncrement(Mem(r.past, ttl), r.key, ttl, r.now).1 == StorageRecord(Some(1), Some(ttl))
    ensures forall k :: k in Mem(r, ttl) ==> r.Then? && Mem(r, ttl)[k].expiresAt <= r.now
  {
    match r
    case Start =>
    case Then(past, key, now) => NoLengthNoWindow(past, ttl, lingers);
  }
}
