/** The request counter over runs in which Redis comes and goes and single commands fail. A call is told the record of
    Redis, with or without a total, or that of the memory when Redis is away or throws. */
module ThrottleFaults {
  import opened Numbers
  import opened Delivery
  import opened Wrappers
  import opened Throttle

  /** Calls at non-decreasing times, each with what became of Redis during it. */
  datatype History = Nothing | Called(past: History, key: Key, now: int, available: bool, wire: Wire)

  predicate InOrder(h: History) {
    match h
    case Nothing => true
    case Called(past, _, now, _, _) => InOrder(past) && (past.Called? ==> past.now <= now)
  }

  function Keys(h: History, ttl: int, lingers: bool): map<Key, Entry> {
    match h
    case Nothing => map[]
    case Called(past, key, now, available, wire) =>
      var keys := Keys(past, ttl, lingers);
      if available then RedisAttempt(keys, key, ttl, now, lingers, wire).0 else keys
  }

  /** The record Redis gave to the last call, if it did. */
  function RedisAnswer(h: History, ttl: int, lingers: bool): Option<StorageRecord>
    requires h.Called?
  {
    if h.available then RedisAttempt(Keys(h.past, ttl, lingers), h.key, ttl, h.now, lingers, h.wire).1 else None
  }

  /** The calls that were counted in memory. */
  function Fallen(h: History, ttl: int, lingers: bool): Run {
    match h
    case Nothing => Start
    case Called(past, key, now, _, _) =>
      var fallen := Fallen(past, ttl, lingers);
      if RedisAnswer(h, ttl, lingers).Some? then fallen else Then(fallen, key, now)
  }

  /** The record that the last call is given. */
  function RecordOf(h: History, ttl: int, lingers: bool): StorageRecord
    requires h.Called?
  {
    match RedisAnswer(h, ttl, lingers)
    case Some(record) => record
    case None => MemIncrement(Mem(Fallen(h.past, ttl, lingers), ttl), h.key, ttl, h.now).1
  }

  predicate Within(h: History, ttl: int, key: Key, a: int)
    requires h.Called?
  {
    h.key == key && a <= h.now < a + ttl
  }

  /** Calls for `key` admitted in the half-open interval of one window length that begins at `a`. */
  function AdmittedOf(h: History, ttl: int, lingers: bool, limit: nat, key: Key, a: int): nat {
    match h
    case Nothing => 0
    case Called(past, _, _, _, _) =>
      AdmittedOf(past, ttl, lingers, limit, key, a)
      + if Within(h, ttl, key, a) && Admits(RecordOf(h, ttl, lingers), limit) then 1 else 0
  }

  predicate ToldTotal(h: History, ttl: int, lingers: bool)
    requires h.Called?
  {
    RedisAnswer(h, ttl, lingers).Some? && RedisAnswer(h, ttl, lingers).value.totalHits.Some?
  }

  /** Those that Redis told a total within the limit. */
  function AdmittedByRedis(h: History, ttl: int, lingers: bool, limit: nat, key: Key, a: int): nat {
    match h
    case Nothing => 0
    case Called(past, _, _, _, _) =>
      AdmittedByRedis(past, ttl, lingers, limit, key, a)
      + if Within(h, ttl, key, a) && ToldTotal(h, ttl, lingers) && Admits(RecordOf(h, ttl, lingers), limit)
        then 1 else 0
  }

  /** Those that Redis answered without a total, because their `incr` failed. */
  function Blind(h: History, ttl: int, lingers: bool, key: Key, a: int): nat {
    match h
    case Nothing => 0
    case Called(past, _, _, _, _) =>
      Blind(past, ttl, lingers, key, a)
      + if Within(h, ttl, key, a) && RecordOf(h, ttl, lingers).totalHits.None? then 1 else 0
  }

  // ----- the calls counted in memory -----

  lemma {:induction false} FallenIsOrdered(h: History, ttl: int, lingers: bool)
    requires InOrder(h)
    ensures Ordered(Fallen(h, ttl, lingers))
    ensures h.Nothing? ==> Fallen(h, ttl, lingers).Start?
    ensures h.Called? && Fallen(h, ttl, lingers).Then? ==> Fallen(h, ttl, lingers).now <= h.now
  {
    if h.Called? {
      FallenIsOrdered(h.past, ttl, lingers);
    }
  }

  lemma {:induction false} AdmittedSplits(h: History, ttl: int, lingers: bool, limit: nat, key: Key, a: int)
    ensures AdmittedOf(h, ttl, lingers, limit, key, a)
         == AdmittedByRedis(h, ttl, lingers, limit, key, a) + Blind(h, ttl, lingers, key, a)
            + Admitted(Fallen(h, ttl, lingers), ttl, limit, key, a)
  {
    if h.Called? {
      AdmittedSplits(h.past, ttl, lingers, limit, key, a);
    }
  }

  // ----- the calls counted in Redis -----

  /** When the window of `key` opened: the last time its counter was found gone. */
  function OpenedAt(h: History, ttl: int, lingers: bool, key: Key): Option<int> {
    match h
    case Nothing => None
    case Called(past, k, now, available, wire) =>
      if k == key && available && !wire.incr.Lost? && !Alive(Keys(past, ttl, lingers), key, now, lingers)
      then Some(now) else OpenedAt(past, ttl, lingers, key)
  }

  /** By where the window opened: before the interval, within it, or after it. A missing expiry only prolongs the
      window. */
  ghost predicate WindowBounds(h: History, ttl: int, lingers: bool, limit: nat, key: Key, a: int) {
    var keys, n := Keys(h, ttl, lingers), AdmittedByRedis(h, ttl, lingers, limit, key, a);
    && (h.Called? && h.now < a ==> n == 0)
    && if key !in keys then n == 0
       else
         && OpenedAt(h, ttl, lingers, key).Some?
         && var opening, hits := OpenedAt(h, ttl, lingers, key).value, keys[key].value;
            && hits >= 1 && h.Called? && opening <= h.now
            && (keys[key].expireAt.Some? ==> opening + ttl <= keys[key].expireAt.value)
            && n <= if opening < a then Min(hits, limit) - 1
                    else if opening < a + ttl then limit - 1 + Min(hits, limit)
                    else 2 * limit - 1
  }

  /** What one attempt does to the counter of its key and to the others. */
  lemma AttemptStep(keys: map<Key, Entry>, key: Key, ttl: int, now: int, lingers: bool, wire: Wire)
    requires ttl > 0 && (key in keys ==> keys[key].value >= 1)
    ensures
      var (keys', answer) := RedisAttempt(keys, key, ttl, now, lingers, wire);
      && (key in keys' <==> key in keys || !wire.incr.Lost?)
      && (key in keys' ==>
            && keys'[key].value == (if wire.incr.Lost? then keys[key].value
                                    else if Alive(keys, key, now, lingers) then keys[key].value + 1 else 1)
            && (keys'[key].expireAt.None? || keys'[key].expireAt == Some(now + ttl)
                || (key in keys && keys'[key].expireAt == keys[key].expireAt
                    && (wire.incr.Lost? || Alive(keys, key, now, lingers)))))
      && (answer.Some? && answer.value.totalHits.Some? ==>
            !wire.incr.Lost? && answer.value.totalHits.value == keys'[key].value)
      && (forall k :: k != key ==> (k in keys' <==> k in keys) && (k in keys ==> keys'[k] == keys[k]))
  {
  }

  /** A call that Redis does not see, or for another key, changes nothing there. */
  lemma UnseenKeepsBounds(h: History, ttl: int, lingers: bool, limit: nat, key: Key, a: int)
    requires h.Called? && InOrder(h) && limit >= 1 && WindowBounds(h.past, ttl, lingers, limit, key, a)
    requires !h.available
    ensures WindowBounds(h, ttl, lingers, limit, key, a)
  {
  }

  lemma OtherKeyKeepsBounds(h: History, ttl: int, lingers: bool, limit: nat, key: Key, a: int)
    requires h.Called? && InOrder(h) && limit >= 1 && ttl > 0 && WindowBounds(h.past, ttl, lingers, limit, key, a)
    requires h.available && h.key != key
    requires h.key in Keys(h.past, ttl, lingers) ==> Keys(h.past, ttl, lingers)[h.key].value >= 1
    ensures WindowBounds(h, ttl, lingers, limit, key, a)
  {
    AttemptStep(Keys(h.past, ttl, lingers), h.key, ttl, h.now, lingers, h.wire);
  }

  lemma UncountedKeepsBounds(h: History, ttl: int, lingers: bool, limit: nat, a: int)
    requires h.Called? && InOrder(h) && limit >= 1 && ttl > 0 && WindowBounds(h.past, ttl, lingers, limit, h.key, a)
    requires h.available && h.wire.incr.Lost?
    ensures WindowBounds(h, ttl, lingers, limit, h.key, a)
  {
    AttemptStep(Keys(h.past, ttl, lingers), h.key, ttl, h.now, lingers, h.wire);
  }

  lemma CountedKeepsBounds(h: History, ttl: int, lingers: bool, limit: nat, a: int)
    requires h.Called? && InOrder(h) && limit >= 1 && ttl > 0 && WindowBounds(h.past, ttl, lingers, limit, h.key, a)
    requires h.available && !h.wire.incr.Lost?
    ensures WindowBounds(h, ttl, lingers, limit, h.key, a)
  {
    AttemptStep(Keys(h.past, ttl, lingers), h.key, ttl, h.now, lingers, h.wire);
  }

  lemma {:induction false} RedisByWindow(h: History, ttl: int, lingers: bool, limit: nat, key: Key, a: int)
    requires InOrder(h) && limit >= 1 && ttl > 0
    ensures WindowBounds(h, ttl, lingers, limit, key, a)
  {
    if h.Called? {
      RedisByWindow(h.past, ttl, lingers, limit, key, a);
      RedisByWindow(h.past, ttl, lingers, limit, h.key, a);
      if !h.available {
        UnseenKeepsBounds(h, ttl, lingers, limit, key, a);
      } else if h.key != key {
        OtherKeyKeepsBounds(h, ttl, lingers, limit, key, a);
      } else if h.wire.incr.Lost? {
        UncountedKeepsBounds(h, ttl, lingers, limit, a);
      } else {
        CountedKeepsBounds(h, ttl, lingers, limit, a);
      }
    }
  }

  lemma {:induction false} EmptyInterval(h: History, ttl: int, lingers: bool, limit: nat, key: Key, a: int)
    requires ttl <= 0
    ensures AdmittedByRedis(h, ttl, lingers, limit, key, a) == 0
  {
    if h.Called? {
      EmptyInterval(h.past, ttl, lingers, limit, key, a);
    }
  }

  /** Redis by itself keeps the bound of the memory counter among the calls it tells a total, whether keys linger or
      not and whatever fails. */
  lemma {:induction false} RedisAdmitsFewerThanTwice(h: History, ttl: int, lingers: bool, limit: nat, key: Key, a: int)
    requires InOrder(h) && limit >= 1
    ensures AdmittedByRedis(h, ttl, lingers, limit, key, a) <= 2 * limit - 1
  {
    if ttl <= 0 {
      EmptyInterval(h, ttl, lingers, limit, key, a);
    } else {
      RedisByWindow(h, ttl, lingers, limit, key, a);
    }
  }

  /** Through any flips of availability and any failing commands, an interval of one window length sees every call
      that was answered without a total, and besides those at most twice that bound, once for each of the two
      counters, which are never merged. */
  lemma {:induction false} AdmittedUpToBlind(h: History, ttl: int, lingers: bool, limit: nat, key: Key, a: int)
    requires InOrder(h) && limit >= 1
    ensures Blind(h, ttl, lingers, key, a) <= AdmittedOf(h, ttl, lingers, limit, key, a)
    ensures AdmittedOf(h, ttl, lingers, limit, key, a) <= 2 * (2 * limit - 1) + Blind(h, ttl, lingers, key, a)
  {
    AdmittedSplits(h, ttl, lingers, limit, key, a);
    RedisAdmitsFewerThanTwice(h, ttl, lingers, limit, key, a);
    FallenIsOrdered(h, ttl, lingers);
    FewerThanTwiceTheLimit(Fallen(h, ttl, lingers), ttl, limit, key, a);
  }

  /** `n` more calls at one instant whose `incr` fails. */
  function Blindly(past: History, key: Key, now: int, n: nat): History {
    if n == 0 then past else Called(Blindly(past, key, now, n - 1), key, now, true, Wire(Lost, Lost, Answered))
  }

  /** There is no bound without the term: after any history, any number of such calls is admitted at one instant,
      whatever the limit. */
  lemma {:induction false} BlindCallsAreUnbounded(past: History, key: Key, now: int, n: nat, ttl: int, lingers: bool,
      limit: nat, a: int)
    requires InOrder(past) && (past.Called? ==> past.now <= now) && a <= now < a + ttl
    ensures
      var h := Blindly(past, key, now, n);
      && InOrder(h) && (h.Called? ==> h.now <= now)
      && AdmittedOf(h, ttl, lingers, limit, key, a) == AdmittedOf(past, ttl, lingers, limit, key, a) + n
      && Blind(h, ttl, lingers, key, a) == Blind(past, ttl, lingers, key, a) + n
  {
    if n > 0 {
      BlindCallsAreUnbounded(past, key, now, n - 1, ttl, lingers, limit, a);
    }
  }

  // ----- and the double bound is reached -----

  /** Every call twice: answered by Redis, and again while Redis is away. */
  function Doubled(r: Run): History {
    match r
    case Start => Nothing
    case Then(past, key, now) => Called(Called(Doubled(past), key, now, true, SOUND_WIRE), key, now, false, SOUND_WIRE)
  }

  lemma {:induction false} DoubledInOrder(r: Run)
    requires Ordered(r)
    ensures InOrder(Doubled(r))
    ensures Doubled(r).Called? <==> r.Then?
    ensures r.Then? ==> Doubled(r).now == r.now
  {
    if r.Then? {
      DoubledInOrder(r.past);
    }
  }

  lemma {:induction false} DoubledStores(r: Run, ttl: int, lingers: bool)
    ensures Keys(Doubled(r), ttl, lingers) == Redis(r, ttl, lingers) && Fallen(Doubled(r), ttl, lingers) == r
  {
    if r.Then? {
      DoubledStores(r.past, ttl, lingers);
      SoundAttemptIncrements(Redis(r.past, ttl, lingers), r.key, ttl, r.now, lingers);
    }
  }

  lemma {:induction false} OneByRedis(past: History, key: Key, now: int, ttl: int, lingers: bool, limit: nat, k: Key,
      a: int)
    ensures
      var total := RedisIncrement(Keys(past, ttl, lingers), key, ttl, now, lingers).1.totalHits;
      var h := Called(past, key, now, true, SOUND_WIRE);
      && total.Some?
      && AdmittedByRedis(h, ttl, lingers, limit, k, a)
           == AdmittedByRedis(past, ttl, lingers, limit, k, a)
              + (if key == k && a <= now < a + ttl && total.value <= limit then 1 else 0)
      && Blind(h, ttl, lingers, k, a) == Blind(past, ttl, lingers, k, a)
  {
    SoundAttemptIncrements(Keys(past, ttl, lingers), key, ttl, now, lingers);
  }

  lemma {:induction false} OneByMemory(past: History, key: Key, now: int, ttl: int, lingers: bool, limit: nat, k: Key,
      a: int)
    ensures
      var h := Called(past, key, now, false, SOUND_WIRE);
      && AdmittedByRedis(h, ttl, lingers, limit, k, a) == AdmittedByRedis(past, ttl, lingers, limit, k, a)
      && Blind(h, ttl, lingers, k, a) == Blind(past, ttl, lingers, k, a)
  {
  }

  /** Both stores admit the same calls when they return the same records. */
  lemma {:induction false} DoubledAdmits(r: Run, ttl: int, lingers: bool, limit: nat, key: Key, a: int)
    requires SameRecords(r, ttl, lingers)
    ensures AdmittedByRedis(Doubled(r), ttl, lingers, limit, key, a) == Admitted(r, ttl, limit, key, a)
    ensures Blind(Doubled(r), ttl, lingers, key, a) == 0
  {
    if r.Then? {
      DoubledAdmits(r.past, ttl, lingers, limit, key, a);
      DoubledStores(r.past, ttl, lingers);
      OneByRedis(Doubled(r.past), r.key, r.now, ttl, lingers, limit, key, a);
      OneByMemory(Called(Doubled(r.past), r.key, r.now, true, SOUND_WIRE), r.key, r.now, ttl, lingers, limit, key, a);
    }
  }

  lemma {:induction false} BurstIsOffTheDot(past: Run, key: Key, now: int, n: nat, ttl: int)
    requires ttl > 0 && !OnTheDot(past, ttl) && (key in Mem(past, ttl) ==> Mem(past, ttl)[key].expiresAt != now)
    ensures
      var r := Burst(past, key, now, n);
      !OnTheDot(r, ttl) && (key in Mem(r, ttl) ==> Mem(r, ttl)[key].expiresAt != now)
    decreases n
  {
    if n > 0 {
      BurstIsOffTheDot(past, key, now, n - 1, ttl);
    }
  }

  /** A window opened at 0 and filled at its end, and the next one filled at once, with no call at an expiry. */
  lemma {:induction false} TwoFullWindows(ttl: int, limit: nat, key: Key) returns (r: Run)
    requires ttl >= 3 && limit >= 1
    ensures Ordered(r) && r.Then? && r.now == ttl + 1 && !OnTheDot(r, ttl)
    ensures Admitted(r, ttl, limit, key, ttl - 1) == 2 * limit - 1
  {
    var start := Then(Start, key, 0);
    var late := Burst(start, key, ttl - 1, limit - 1);
    BurstIsAdmitted(start, key, ttl - 1, limit - 1, ttl, limit, ttl - 1);
    BurstIsOffTheDot(start, key, ttl - 1, limit - 1, ttl);
    assert Admitted(start, ttl, limit, key, ttl - 1) == 0;
    BurstIsAdmitted(late, key, ttl + 1, limit, ttl, limit, ttl - 1);
    BurstIsOffTheDot(late, key, ttl + 1, limit, ttl);
    r := Burst(late, key, ttl + 1, limit);
  }

  /** For every limit and every number of blind calls some history reaches the bound. */
  lemma {:induction false} TheBoundWithBlindIsReached(ttl: int, lingers: bool, limit: nat, key: Key, blind: nat)
    returns (h: History)
    requires ttl >= 3 && limit >= 1
    ensures InOrder(h) && Blind(h, ttl, lingers, key, ttl - 1) == blind
    ensures AdmittedOf(h, ttl, lingers, limit, key, ttl - 1) == 2 * (2 * limit - 1) + blind
  {
    var r := TwoFullWindows(ttl, limit, key);
    StoresAgreeExactly(r, ttl, lingers);
    DoubledInOrder(r);
    DoubledStores(r, ttl, lingers);
    DoubledAdmits(r, ttl, lingers, limit, key, ttl - 1);
    AdmittedSplits(Doubled(r), ttl, lingers, limit, key, ttl - 1);
    BlindCallsAreUnbounded(Doubled(r), key, ttl + 1, blind, ttl, lingers, limit, ttl - 1);
    h := Blindly(Doubled(r), key, ttl + 1, blind);
  }

  /** The class keeps to it: what one call of the storage does to both counters, and the record it returns. */
  lemma {:induction false} HistoryIsWhatIncrementDoes(h: History, ttl: int, lingers: bool)
    requires h.Called?
    ensures
      var keys, mem := Keys(h.past, ttl, lingers), Mem(Fallen(h.past, ttl, lingers), ttl);
      var attempt := RedisAttempt(keys, h.key, ttl, h.now, lingers, h.wire);
      && Keys(h, ttl, lingers) == (if h.available then attempt.0 else keys)
      && if h.available && attempt.1.Some?
         then Mem(Fallen(h, ttl, lingers), ttl) == mem && RecordOf(h, ttl, lingers) == attempt.1.value
         else (Mem(Fallen(h, ttl, lingers), ttl), RecordOf(h, ttl, lingers)) == MemIncrement(mem, h.key, ttl, h.now)
  {
  }
}
