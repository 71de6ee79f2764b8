/** Logged-out access tokens: a local map that is purged, or Redis keys that expire by themselves. */
module Denylist {
  import opened Time
  import opened Wrappers

  datatype Jti = Jti(uuid: string)

  // ----- the two stores -----

  /** `deny`: nothing for a token already past its expiry (in seconds). */
  function Remember(denied: map<Jti, int>, jti: Jti, exp: int, now: int): map<Jti, int> {
    if exp - Seconds(now) <= 0 then denied else denied[jti := exp]
  }

  predicate Remembers(denied: map<Jti, int>, jti: Jti, now: int) {
    jti in denied && Seconds(now) <= denied[jti]
  }

  /** What is left of the local map after an expired entry was asked for. */
  function Forget(denied: map<Jti, int>, jti: Jti, now: int): map<Jti, int> {
    if jti in denied && Seconds(now) > denied[jti] then denied - {jti} else denied
  }

  function Purged(denied: map<Jti, int>, now: int): map<Jti, int> {
    map jti | jti in denied && Seconds(now) <= denied[jti] :: denied[jti]
  }

  /** `setex`: the instant, in milliseconds, at which the Redis key expires. */
  function Setex(keys: map<Jti, int>, jti: Jti, exp: int, now: int): map<Jti, int> {
    var ttl := exp - Seconds(now);
    if ttl <= 0 then keys else keys[jti := now + 1000 * ttl]
  }

  /** Whether a key is still there at its own expiry instant differs between servers: `lingers`. */
  predicate Exists(keys: map<Jti, int>, jti: Jti, now: int, lingers: bool) {
    jti in keys && (now < keys[jti] || (lingers && now == keys[jti]))
  }

  class TokenDenylist {
    const redisAvailable: bool
    const lingers: bool
    var denied: map<Jti, int>
    var keys: map<Jti, int>

    constructor (redisAvailable: bool, lingers: bool)
      ensures this.redisAvailable == redisAvailable && this.lingers == lingers && denied == map[] && keys == map[]
    {
      this.redisAvailable, this.lingers, denied, keys := redisAvailable, lingers, map[], map[];
    }

    method Deny(jti: Jti, expiresAtSeconds: int, now: int)
      modifies this
      ensures denied == if redisAvailable then old(denied) else Remember(old(denied), jti, expiresAtSeconds, now)
      ensures keys == if redisAvailable then Setex(old(keys), jti, expiresAtSeconds, now) else old(keys)
    {
      var ttl := expiresAtSeconds - Seconds(now);
      if ttl <= 0 {
        return;
      }
      if redisAvailable {
        keys := keys[jti := now + 1000 * ttl];
        return;
      }
      denied := denied[jti := expiresAtSeconds];
    }

    method IsDenied(jti: Jti, now: int) returns (answer: bool)
      modifies this`denied
      ensures answer == if redisAvailable then Exists(keys, jti, now, lingers) else Remembers(old(denied), jti, now)
      ensures denied == if redisAvailable then old(denied) else Forget(old(denied), jti, now)
    {
      if redisAvailable {
        return Exists(keys, jti, now, lingers);
      }
      answer := MemoryIsDenied(jti, now);
    }

    method MemoryIsDenied(jti: Jti, now: int) returns (answer: bool)
      modifies this`denied
      ensures answer == Remembers(old(denied), jti, now)
      ensures denied == Forget(old(denied), jti, now)
    {
      if jti !in denied {
        return false;
      }
      if Seconds(now) > denied[jti] {
        denied := denied - {jti};
        return false;
      }
      return true;
    }

    method PurgeExpired(nowMs: int)
      modifies this`denied
      ensures denied == Purged(old(denied), nowMs)
    {
      var now := Seconds(nowMs);
      var left := denied.Keys;
      while left != {}
        invariant left <= old(denied).Keys
        invariant forall jti :: jti in denied <==> jti in old(denied) && (jti in left || now <= old(denied)[jti])
        invariant forall jti :: jti in denied ==> denied[jti] == old(denied)[jti]
      {
        var jti :| jti in left;
        left := left - {jti};
        if now > denied[jti] {
          denied := denied - {jti};
        }
      }
    }
  }

  // ----- runs -----

  datatype Op = Deny(jti: Jti, exp: int, now: int) | Ask(jti: Jti, now: int) | Purge(now: int)

  datatype Run = Start | Then(past: Run, op: Op)

  predicate Ordered(r: Run) {
    match r
    case Start => true
    case Then(past, op) => Ordered(past) && (past.Then? ==> past.op.now <= op.now)
  }

  /** The local map after a run. */
  function Local(r: Run): map<Jti, int> {
    match r
    case Start => map[]
    case Then(past, Deny(jti, exp, now)) => Remember(Local(past), jti, exp, now)
    case Then(past, Ask(jti, now)) => Forget(Local(past), jti, now)
    case Then(past, Purge(now)) => Purged(Local(past), now)
  }

  /** The Redis keys after a run. */
  function Keys(r: Run): map<Jti, int> {
    match r
    case Start => map[]
    case Then(past, Deny(jti, exp, now)) => Setex(Keys(past), jti, exp, now)
    case Then(past, _) => Keys(past)
  }

  /** The map that never forgets: the denials of the run and nothing else. */
  function Ever(r: Run): map<Jti, int> {
    match r
    case Start => map[]
    case Then(past, Deny(jti, exp, now)) => Remember(Ever(past), jti, exp, now)
    case Then(past, _) => Ever(past)
  }

  lemma {:induction false} LocalIsEverButExpired(r: Run)
    requires Ordered(r)
    ensures forall jti :: jti in Local(r) ==> jti in Ever(r) && Local(r)[jti] == Ever(r)[jti]
    ensures forall jti :: jti in Ever(r) && jti !in Local(r) ==> r.Then? && Ever(r)[jti] < Seconds(r.op.now)
  {
    match r
    case Start =>
    case Then(past, op) => LocalIsEverButExpired(past);
  }

  /** Purges and lazy deletions, whenever they ran, cannot be observed: every later answer is the one the map that
      never forgets gives. */
  lemma {:induction false} PurgeIsInvisible(r: Run, jti: Jti, now: int)
    requires Ordered(r) && (r.Then? ==> r.op.now <= now)
    ensures Remembers(Local(r), jti, now) <==> Remembers(Ever(r), jti, now)
  {
    LocalIsEverButExpired(r);
  }

  /** Every denial of `jti` in the run carries the expiry signed into that token. */
  predicate Signed(r: Run, jti: Jti, exp: int) {
    match r
    case Start => true
    case Then(past, op) => Signed(past, jti, exp) && (op.Deny? && op.jti == jti ==> op.exp == exp)
  }

  predicate Denied(r: Run, jti: Jti) {
    r.Then? && (Denied(r.past, jti) || (r.op.Deny? && r.op.jti == jti))
  }

  /** The JWT library refuses a token from its expiry on (section 4.1.4 of RFC 7519). */
  predicate Expired(exp: int, now: int) {
    Seconds(now) >= exp
  }

  lemma {:induction false} EverHoldsDenied(r: Run, jti: Jti, exp: int)
    requires Ordered(r) && Signed(r, jti, exp)
    ensures jti in Ever(r) ==> Ever(r)[jti] == exp
    ensures Denied(r, jti) ==> jti in Ever(r) || Expired(exp, r.op.now)
  {
    match r
    case Start =>
    case Then(past, op) => EverHoldsDenied(past, jti, exp);
  }

  /** A token passed to `deny` is refused at every later instant, by the denylist or by its own expiry; and only a
      token that was denied is refused by the denylist. */
  lemma {:induction false} LogoutIsPermanentLocally(r: Run, jti: Jti, exp: int, now: int)
    requires Ordered(r) && Signed(r, jti, exp) && (r.Then? ==> r.op.now <= now)
    ensures Denied(r, jti) ==> Expired(exp, now) || Remembers(Local(r), jti, now)
    ensures Remembers(Local(r), jti, now) ==> Denied(r, jti)
  {
    PurgeIsInvisible(r, jti, now);
    EverHoldsDenied(r, jti, exp);
    OnlyDeniedIsHeld(r, jti);
  }

  lemma {:induction false} OnlyDeniedIsHeld(r: Run, jti: Jti)
    ensures jti in Ever(r) || jti in Keys(r) ==> Denied(r, jti)
  {
    if r.Then? {
      OnlyDeniedIsHeld(r.past, jti);
    }
  }

  /** The key outlives the token by less than a second: the rounded lifetime never cuts it short. */
  lemma {:induction false} KeyCoversToken(r: Run, jti: Jti, exp: int)
    requires Ordered(r) && Signed(r, jti, exp)
    ensures jti in Keys(r) ==> 1000 * exp <= Keys(r)[jti] < 1000 * exp + 1000
    ensures Denied(r, jti) ==> jti in Keys(r) || Expired(exp, r.op.now)
  {
    match r
    case Start =>
    case Then(past, op) => KeyCoversToken(past, jti, exp);
  }

  lemma {:induction false} LogoutIsPermanentInRedis(r: Run, jti: Jti, exp: int, now: int, lingers: bool)
    requires Ordered(r) && Signed(r, jti, exp) && (r.Then? ==> r.op.now <= now)
    ensures Denied(r, jti) ==> Expired(exp, now) || Exists(Keys(r), jti, now, lingers)
    ensures Exists(Keys(r), jti, now, lingers) ==> Denied(r, jti)
  {
    KeyCoversToken(r, jti, exp);
    OnlyDeniedIsHeld(r, jti);
  }

  // ----- how long a denial is answered, to the millisecond -----

  /** The instant of the last denial of `jti` that came before the expiry of the token. */
  function LastDenial(r: Run, jti: Jti): Option<int> {
    match r
    case Start => None
    case Then(past, op) =>
      if op.Deny? && op.jti == jti && op.now < 1000 * op.exp then Some(op.now) else LastDenial(past, jti)
  }

  lemma {:induction false} EverHoldsExactly(r: Run, jti: Jti, exp: int)
    requires Signed(r, jti, exp)
    ensures jti in Ever(r) <==> LastDenial(r, jti).Some?
    ensures jti in Ever(r) ==> Ever(r)[jti] == exp
  {
    match r
    case Start =>
    case Then(past, op) => EverHoldsExactly(past, jti, exp);
  }

  /** The local map refuses a token that was denied in time up to the end of the second after its expiry. */
  lemma {:induction false} RefusedLocallyExactly(r: Run, jti: Jti, exp: int, now: int)
    requires Ordered(r) && Signed(r, jti, exp) && (r.Then? ==> r.op.now <= now)
    ensures Remembers(Local(r), jti, now) <==> LastDenial(r, jti).Some? && now < 1000 * exp + 1000
  {
    PurgeIsInvisible(r, jti, now);
    EverHoldsExactly(r, jti, exp);
  }

  /** Redis refuses it as long after its expiry as the last denial came after the start of its second. */
  lemma {:induction false} RefusedInRedisExactly(r: Run, jti: Jti, exp: int, now: int, lingers: bool)
    requires Signed(r, jti, exp)
    ensures Exists(Keys(r), jti, now, lingers)
       <==> match LastDenial(r, jti)
            case None => false
            case Some(t) => now < 1000 * exp + t % 1000 || (lingers && now == 1000 * exp + t % 1000)
  {
    match r
    case Start =>
    case Then(past, op) => RefusedInRedisExactly(past, jti, exp, now, lingers);
  }
}
