/** The Redis counter one command at a time: `incr` and `pttl` of one client are pipelined, not atomic, any number of
    clients share the key, any command may fail and any client may die. A window without an expiry would never end. */
module ThrottleSteps {
  import opened Numbers
  import opened Delivery
  import opened Wrappers
  import T = Throttle

  type CallId = nat

  /** An increment, between two of its commands, with the numbers it was told. */
  datatype Call =
    | Counted(total: Option<nat>)
    | MustExpire(total: Option<nat>)
    | Returned(total: Option<nat>, timeToExpire: Option<int>)
    | Thrown(total: Option<nat>)
    | Crashed(total: Option<nat>)

  /** The key, the clock of the server and the calls so far. Whether the key is still there at its own expiry instant
      differs between servers: `lingers`. */
  datatype State = State(entry: Option<T.Entry>, now: int, calls: map<CallId, Call>, lingers: bool)

  datatype Action =
    | Incr(id: CallId, fate: Fate)
    | Pttl(id: CallId, fate: Fate)
    | Pexpire(id: CallId, ttl: int, fate: Fate)
    | Crash(id: CallId)
    | Tick(now: int)

  /** The key as commands see it: gone once its expiry has passed. */
  function Visible(s: State): Option<T.Entry> {
    match s.entry
    case None => None
    case Some(e) =>
      if e.expireAt.None? || s.now < e.expireAt.value || (s.lingers && s.now == e.expireAt.value) then s.entry else None
  }

  predicate Enabled(s: State, a: Action) {
    match a
    case Incr(id, _) => id !in s.calls
    case Pttl(id, _) => id in s.calls && s.calls[id].Counted?
    case Pexpire(id, _, _) => id in s.calls && s.calls[id].MustExpire?
    case Crash(id) => id in s.calls && (s.calls[id].Counted? || s.calls[id].MustExpire?)
    case Tick(now) => s.now <= now
  }

  function Remaining(s: State): int {
    match Visible(s)
    case None => -2
    case Some(e) => match e.expireAt case None => -1 case Some(t) => t - s.now
  }

  function Increased(s: State): T.Entry {
    match Visible(s) case None => T.Entry(1, None) case Some(e) => e.(value := e.value + 1)
  }

  function Expiring(s: State, ttl: int): Option<T.Entry> {
    match Visible(s)
    case None => s.entry
    case Some(e) => if ttl <= 0 then None else Some(e.(expireAt := Some(s.now + ttl)))
  }

  function Step(s: State, a: Action): State {
    if !Enabled(s, a) then s
    else match a
    case Incr(id, Lost) => s.(calls := s.calls[id := Counted(None)])
    case Incr(id, fate) =>
      var told := if fate.Answered? then Some(Increased(s).value) else None;
      s.(entry := Some(Increased(s)), calls := s.calls[id := Counted(told)])
    case Pttl(id, fate) =>
      var total, left := s.calls[id].total, if fate.Answered? then Some(Remaining(s)) else None;
      s.(calls := s.calls[id := if total == Some(1) || left == Some(-1) then MustExpire(total)
                                else Returned(total, match left case None => None case Some(n) => Some(Max(0, n)))])
    case Pexpire(id, _, Lost) => s.(calls := s.calls[id := Thrown(s.calls[id].total)])
    case Pexpire(id, ttl, fate) =>
      var total := s.calls[id].total;
      s.(entry := Expiring(s, ttl),
         calls := s.calls[id := if fate.Answered? then Returned(total, Some(ttl)) else Thrown(total)])
    case Crash(id) => s.(calls := s.calls[id := Crashed(s.calls[id].total)])
    case Tick(now) => s.(now := now)
  }

  datatype Run = Start(now: int, lingers: bool) | Then(past: Run, action: Action)

  predicate Valid(r: Run) {
    match r
    case Start(_, _) => true
    case Then(past, a) => Valid(past) && Enabled(After(past), a)
  }

  function After(r: Run): State {
    match r
    case Start(now, lingers) => State(None, now, map[], lingers)
    case Then(past, a) => Step(After(past), a)
  }

  // ----- the expiry -----

  predicate NeverExpires(s: State) {
    s.entry.Some? && s.entry.value.expireAt.None?
  }

  predicate Creates(s: State, a: Action) {
    a.Incr? && !a.fate.Lost? && Visible(s).None?
  }

  /** The increment that created the key as it is: the last one that found none. */
  function Creator(r: Run): Option<CallId> {
    match r
    case Start(_, _) => None
    case Then(past, a) => if Creates(After(past), a) then Some(a.id) else Creator(past)
  }

  /** Some `pexpire` has run since then, whoever sent it and whether it was answered or not. */
  predicate RepairedSince(r: Run) {
    match r
    case Start(_, _) => false
    case Then(past, a) => !Creates(After(past), a) && (RepairedSince(past) || (a.Pexpire? && !a.fate.Lost?))
  }

  /** A call that is still to send `pexpire` if need be. */
  predicate InFlight(call: Call) {
    call.Counted? || call.MustExpire?
  }

  /** A call that will not: it died, its `pexpire` failed, or it was told nothing at all and could not know. */
  predicate Failed(call: Call) {
    call.Crashed? || call.Thrown? || call == Returned(None, None)
  }

  /** The key is without an expiry exactly from its creation to the first `pexpire` that runs after it; all that
      time the call that created it is in flight or failed. */
  lemma {:induction false} ExpiryIsNeverLost(r: Run)
    requires Valid(r)
    ensures NeverExpires(After(r)) <==> Creator(r).Some? && !RepairedSince(r)
    ensures NeverExpires(After(r)) ==>
              var id := Creator(r).value;
              && id in After(r).calls && (InFlight(After(r).calls[id]) || Failed(After(r).calls[id]))
              && (After(r).calls[id].total.None? || After(r).calls[id].total == Some(1))
  {
    if r.Then? {
      ExpiryIsNeverLost(r.past);
    }
  }

  /** The last action is a call that returns after its `pttl` was answered, or a `pexpire` that runs. */
  predicate Repairs(r: Run) {
    r.Then? &&
    match r.action
    case Pttl(id, Answered) => id in After(r).calls && After(r).calls[id].Returned?
    case Pexpire(_, _, fate) => !fate.Lost?
    case _ => false
  }

  /** Whatever failed before, such a call leaves the key with an expiry or gone: its last command saw one or set one. */
  lemma {:induction false} CompletionRepairs(r: Run)
    requires Valid(r) && Repairs(r)
    ensures !NeverExpires(After(r))
  {
    ExpiryIsNeverLost(r);
  }

  lemma {:induction false} CountersArePositive(r: Run)
    requires Valid(r)
    ensures After(r).entry.Some? ==> After(r).entry.value.value >= 1
  {
    if r.Then? {
      CountersArePositive(r.past);
    }
  }

  /** A call whose `pttl` fails returns and repairs nothing, unless its total is one. */
  lemma {:induction false} FailedPttlRepairsNothing(r: Run, id: CallId, fate: Fate)
    requires Valid(r) && NeverExpires(After(r)) && id !in After(r).calls && !fate.Answered?
    ensures
      var r' := Then(Then(r, Incr(id, Answered)), Pttl(id, fate));
      && Valid(r') && NeverExpires(After(r'))
      && After(r').calls[id] == Returned(Some(After(r).entry.value.value + 1), None)
  {
    CountersArePositive(r);
    var counted := Then(r, Incr(id, Answered));
    assert After(counted).calls[id] == Counted(Some(After(r).entry.value.value + 1));
  }

  /** When every call has returned, told at least one of its two numbers, the key is gone or will expire. */
  lemma {:induction false} RestIsSafe(r: Run)
    requires Valid(r)
    requires forall id :: id in After(r).calls ==> After(r).calls[id].Returned? && !Failed(After(r).calls[id])
    ensures !NeverExpires(After(r))
  {
    ExpiryIsNeverLost(r);
  }

  // ----- the admission bound, in every interleaving -----

  /** Every `pexpire` asks for the same window length. */
  predicate OneTtl(r: Run, ttl: int) {
    r.Then? ==> OneTtl(r.past, ttl) && (r.action.Pexpire? ==> r.action.ttl == ttl)
  }

  /** Increments told a total within the limit, in the half-open interval of one window length that begins at `a`. */
  function Admitted(r: Run, ttl: int, limit: nat, a: int): nat {
    match r
    case Start(_, _) => 0
    case Then(past, act) =>
      var s := After(past);
      Admitted(past, ttl, limit, a)
      + if act.Incr? && act.fate.Answered? && a <= s.now < a + ttl && Increased(s).value <= limit then 1 else 0
  }

  /** When the key as it is was created. */
  function OpenedAt(r: Run): Option<int> {
    match r
    case Start(_, _) => None
    case Then(past, a) => if Creates(After(past), a) then Some(After(past).now) else OpenedAt(past)
  }

  /** By where the window opened: before the interval, within it, or after it. */
  ghost predicate WindowBounds(r: Run, ttl: int, limit: nat, a: int) {
    var s, n := After(r), Admitted(r, ttl, limit, a);
    && (s.now < a ==> n == 0)
    && if s.entry.None? then n == 0
       else
         && OpenedAt(r).Some?
         && var opening, entry := OpenedAt(r).value, s.entry.value;
            && entry.value >= 1 && opening <= s.now
            && (entry.expireAt.Some? ==> opening + ttl <= entry.expireAt.value)
            && n <= if opening < a then Min(entry.value, limit) - 1
                    else if opening < a + ttl then limit - 1 + Min(entry.value, limit)
                    else 2 * limit - 1
  }

  lemma CountingKeepsBounds(r: Run, ttl: int, limit: nat, a: int)
    requires r.Then? && r.action.Incr? && Enabled(After(r.past), r.action) && ttl > 0 && limit >= 1
    requires WindowBounds(r.past, ttl, limit, a)
    ensures WindowBounds(r, ttl, limit, a)
  {
  }

  lemma OthersKeepBounds(r: Run, ttl: int, limit: nat, a: int)
    requires r.Then? && !r.action.Incr? && Enabled(After(r.past), r.action) && ttl > 0 && limit >= 1
    requires WindowBounds(r.past, ttl, limit, a) && (r.action.Pexpire? ==> r.action.ttl == ttl)
    ensures WindowBounds(r, ttl, limit, a)
  {
  }

  lemma {:induction false} EveryRunIsBounded(r: Run, ttl: int, limit: nat, a: int)
    requires Valid(r) && OneTtl(r, ttl) && ttl > 0 && limit >= 1
    ensures WindowBounds(r, ttl, limit, a)
  {
    if r.Then? {
      EveryRunIsBounded(r.past, ttl, limit, a);
      if r.action.Incr? {
        CountingKeepsBounds(r, ttl, limit, a);
      } else {
        OthersKeepBounds(r, ttl, limit, a);
      }
    }
  }

  /** In every interleaving of commands, failures and crashes, fewer than twice the limit are told a total within it
      in any interval of one window length: `incr` is atomic, and an expiry that comes late only prolongs a window. */
  lemma {:induction false} FewerThanTwiceTheLimit(r: Run, ttl: int, limit: nat, a: int)
    requires Valid(r) && OneTtl(r, ttl) && ttl > 0 && limit >= 1
    ensures Admitted(r, ttl, limit, a) <= 2 * limit - 1
  {
    EveryRunIsBounded(r, ttl, limit, a);
  }

  // ----- a call by itself -----

  /** The commands of one call with nothing between them. */
  function Alone(s: State, id: CallId, ttl: int, wire: T.Wire): State {
    var s := Step(Step(s, Incr(id, wire.incr)), Pttl(id, wire.pttl));
    Step(s, Pexpire(id, ttl, wire.pexpire))
  }

  function KeyIn(redis: map<T.Key, T.Entry>, key: T.Key): Option<T.Entry> {
    if key in redis then Some(redis[key]) else None
  }

  lemma CommandsAgree(s: State, redis: map<T.Key, T.Entry>, key: T.Key, ttl: int)
    requires s.entry == KeyIn(redis, key)
    ensures KeyIn(T.Incr(redis, key, s.now, s.lingers), key) == Some(Increased(s))
    ensures T.Pttl(redis, key, s.now, s.lingers) == Remaining(s)
    ensures KeyIn(T.Pexpire(redis, key, ttl, s.now, s.lingers), key) == Expiring(s, ttl)
  {
  }

  /** A call that nothing interrupts is one attempt, whatever its commands meet: the same key, and the same record or
      the same throw. */
  lemma {:induction false} CallAlone(s: State, id: CallId, redis: map<T.Key, T.Entry>, key: T.Key, ttl: int,
      wire: T.Wire)
    requires id !in s.calls && s.entry == KeyIn(redis, key)
    ensures
      var (after, record) := T.RedisAttempt(redis, key, ttl, s.now, s.lingers, wire);
      var s' := Alone(s, id, ttl, wire);
      && s'.entry == KeyIn(after, key)
      && id in s'.calls
      && match record
         case None => s'.calls[id].Thrown?
         case Some(told) => s'.calls[id] == Returned(told.totalHits, told.timeToExpire)
  {
    CommandsAgree(s, redis, key, ttl);
    var counted := Step(s, Incr(id, wire.incr));
    var redis' := if wire.incr.Lost? then redis else T.Incr(redis, key, s.now, s.lingers);
    CommandsAgree(counted, redis', key, ttl);
    var asked := Step(counted, Pttl(id, wire.pttl));
    assert asked.entry == counted.entry && asked.now == s.now && asked.lingers == s.lingers;
    assert asked.calls[id].MustExpire? ==> Expiring(asked, ttl) == Expiring(counted, ttl);
  }
}
