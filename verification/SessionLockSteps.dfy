/** Failed-login accounting one statement at a time: counting and locking are two statements, and any number
    of failing logins, successful logins and unlocks run between them, and any of them may crash there. */
module SessionLockSteps {
  import opened Wrappers
  import opened SessionRows
  import opened SessionSteps

  /** The accounts a run starts from. */
  predicate Unlocked(init: Users) {
    forall u :: u in init ==> init[u].failedLoginAttempts == 0 && init[u].lockedAt == None
  }

  function Init(r: Run): Users {
    match r case Start(users) => users case Then(past, _) => Init(past)
  }

  /** Counting statements run for `u` since the last statement that cleared its counter. */
  function Counted(c: Config, r: Run, u: UserId): nat {
    match r
    case Start(_) => 0
    case Then(past, a) =>
      var s := After(c, past);
      if !a.Advance? || a.id !in s.calls || s.calls[a.id].Finished? || s.calls[a.id].user != u then Counted(c, past, u)
      else if s.calls[a.id].LoginClear? || s.calls[a.id].UnlockRead? then 0
      else if s.calls[a.id].LoginWrong? then Counted(c, past, u) + 1
      else Counted(c, past, u)
  }

  lemma CountStep(c: Config, s: State, a: Action, u: UserId)
    requires Enabled(s, a) && u in Step(c, s, a).users
    ensures u in s.users
    ensures Step(c, s, a).users[u].failedLoginAttempts ==
              if !a.Advance? || s.calls[a.id].Finished? || s.calls[a.id].user != u then s.users[u].failedLoginAttempts
              else if s.calls[a.id].LoginClear? || s.calls[a.id].UnlockRead? then 0
              else if s.calls[a.id].LoginWrong? then s.users[u].failedLoginAttempts + 1
              else s.users[u].failedLoginAttempts
  {
  }

  lemma {:induction false} NoCountIsLost(c: Config, r: Run, u: UserId)
    requires Valid(c, r) && Unlocked(Init(r)) && u in After(c, r).users
    ensures After(c, r).users[u].failedLoginAttempts == Counted(c, r, u)
  {
    match r
    case Start(_) =>
    case Then(past, a) =>
      CountStep(c, After(c, past), a, u);
      NoCountIsLost(c, past, u);
  }

  /** The call that ran the last of those counting statements. */
  function LastCounter(c: Config, r: Run, u: UserId): Option<CallId> {
    match r
    case Start(_) => None
    case Then(past, a) =>
      var s := After(c, past);
      if !a.Advance? || a.id !in s.calls || s.calls[a.id].Finished?
          || s.calls[a.id].user != u then LastCounter(c, past, u)
      else if s.calls[a.id].LoginClear? || s.calls[a.id].UnlockRead? then None
      else if s.calls[a.id].LoginWrong? then Some(a.id)
      else LastCounter(c, past, u)
  }

  predicate Crashed(r: Run, id: CallId) {
    r.Then? && (Crashed(r.past, id) || r.action == Crash(id))
  }

  /** At the threshold or beyond, and not locked. */
  predicate Unpunished(c: Config, s: State, u: UserId) {
    u in s.users && s.users[u].failedLoginAttempts >= c.maxAttempts && s.users[u].lockedAt == None
  }

  lemma LockStep(c: Config, s: State, a: Action, u: UserId)
    requires c.maxAttempts >= 1 && Enabled(s, a) && Unpunished(c, Step(c, s, a), u)
    ensures
      var s' := Step(c, s, a);
      if a.Advance? && s.calls[a.id].LoginWrong? && s.calls[a.id].user == u
      then s'.calls[a.id] == LoginCounted(u, s'.users[u].failedLoginAttempts)
      else
        && Unpunished(c, s, u) && s'.users[u].failedLoginAttempts == s.users[u].failedLoginAttempts
        && !(a.Advance? && !s.calls[a.id].Finished? && s.calls[a.id].user == u
             && (s.calls[a.id].LoginCounted? || s.calls[a.id].LoginClear? || s.calls[a.id].UnlockRead?))
  {
  }

  lemma CounterStep(c: Config, s: State, a: Action, id: CallId)
    requires Enabled(s, a) && id in s.calls && (s.calls[id].LoginCounted? || s.calls[id].Finished?)
    ensures
      var s' := Step(c, s, a);
      && id in s'.calls
      && (!(a.Advance? && a.id == id && s.calls[id].LoginCounted?) && a != Crash(id) ==> s'.calls[id] == s.calls[id])
      && (a == Crash(id) ==> s'.calls[id].Finished?)
  {
  }

  /** An account at the threshold is locked, unless the call that counted last is about to lock it or died just
      before. */
  lemma {:induction false} LockIsNeverMissed(c: Config, r: Run, u: UserId)
    requires c.maxAttempts >= 1 && Valid(c, r) && Unlocked(Init(r)) && Unpunished(c, After(c, r), u)
    ensures
      var s := After(c, r);
      && LastCounter(c, r, u).Some?
      && var id := LastCounter(c, r, u).value;
         && id in s.calls
         && (|| s.calls[id] == LoginCounted(u, s.users[u].failedLoginAttempts)
             || (s.calls[id].Finished? && Crashed(r, id)))
  {
    var past, a := r.past, r.action;
    var s := After(c, past);
    LockStep(c, s, a, u);
    if !(a.Advance? && s.calls[a.id].LoginWrong? && s.calls[a.id].user == u) {
      LockIsNeverMissed(c, past, u);
      CounterStep(c, s, a, LastCounter(c, past, u).value);
    }
  }

  // ----- locked exactly -----

  /** The statement that `a` runs for `u`, if any, is one that clears its counter and its lock. */
  predicate ClearsFor(s: State, a: Action, u: UserId) {
    a.Advance? && a.id in s.calls && (s.calls[a.id].LoginClear? || s.calls[a.id].UnlockRead?) && s.calls[a.id].user == u
  }

  /** The calls that ran the counting statement for `u` since the last clearing one. */
  function Counters(c: Config, r: Run, u: UserId): set<CallId> {
    match r
    case Start(_) => {}
    case Then(past, a) =>
      var s := After(c, past);
      if ClearsFor(s, a, u) then {}
      else if a.Advance? && a.id in s.calls && s.calls[a.id] == LoginWrong(u) then Counters(c, past, u) + {a.id}
      else Counters(c, past, u)
  }

  /** The calls that ran the locking statement for `u` since the last clearing one. */
  function Lockers(c: Config, r: Run, u: UserId): set<CallId> {
    match r
    case Start(_) => {}
    case Then(past, a) =>
      var s := After(c, past);
      if ClearsFor(s, a, u) then {}
      else if a.Advance? && a.id in s.calls && s.calls[a.id].LoginCounted? && s.calls[a.id].user == u
      then Lockers(c, past, u) + {a.id}
      else Lockers(c, past, u)
  }

  lemma LockColumnStep(c: Config, s: State, a: Action, u: UserId)
    requires Enabled(s, a) && u in Step(c, s, a).users
    ensures u in s.users
    ensures Step(c, s, a).users[u].lockedAt ==
              if ClearsFor(s, a, u) then None
              else if a.Advance? && s.calls[a.id].LoginCounted? && s.calls[a.id].user == u then Some(a.now)
              else s.users[u].lockedAt
  {
  }

  /** An account is locked exactly while some call has run its locking statement since the last clearing one. */
  lemma {:induction false} LockedExactly(c: Config, r: Run, u: UserId)
    requires Valid(c, r) && Unlocked(Init(r)) && u in After(c, r).users
    ensures After(c, r).users[u].lockedAt.Some? <==> Lockers(c, r, u) != {}
  {
    match r
    case Start(_) =>
    case Then(past, a) =>
      LockColumnStep(c, After(c, past), a, u);
      LockedExactly(c, past, u);
  }

  /** A call that counted to the threshold remembers the count; while nothing cleared it, the count is still there. */
  ghost predicate CountsAreRemembered(c: Config, r: Run, u: UserId) {
    var s := After(c, r);
    forall id :: id in s.calls && s.calls[id].LoginCounted? && s.calls[id].user == u ==>
      && s.calls[id].attempts >= c.maxAttempts
      && (id in Counters(c, r, u) ==> u in s.users && s.calls[id].attempts <= s.users[u].failedLoginAttempts)
  }

  lemma CountedCameFrom(c: Config, s: State, a: Action, id: CallId, u: UserId)
    requires Enabled(s, a) && id in Step(c, s, a).calls
    requires Step(c, s, a).calls[id].LoginCounted? && Step(c, s, a).calls[id].user == u
    ensures
      var s' := Step(c, s, a);
      || (id in s.calls && s.calls[id] == s'.calls[id] && !(a.Advance? && a.id == id))
      || (a.Advance? && a.id == id && s.calls[id] == LoginWrong(u) && u in s'.users
          && s'.calls[id].attempts == s'.users[u].failedLoginAttempts >= c.maxAttempts)
  {
  }

  lemma {:induction false} CountsStayRemembered(c: Config, r: Run, u: UserId)
    requires Valid(c, r)
    ensures CountsAreRemembered(c, r, u)
  {
    if r.Then? {
      var past, a := r.past, r.action;
      var s, s' := After(c, past), After(c, r);
      CountsStayRemembered(c, past, u);
      forall id | id in s'.calls && s'.calls[id].LoginCounted? && s'.calls[id].user == u
        ensures s'.calls[id].attempts >= c.maxAttempts
        ensures id in Counters(c, r, u) ==> u in s'.users && s'.calls[id].attempts <= s'.users[u].failedLoginAttempts
      {
        CountedCameFrom(c, s, a, id, u);
        if id in s.calls && s.calls[id] == s'.calls[id] && id in Counters(c, r, u) && u in s.users {
          UsersRemain(c, s, a, u);
          CountStep(c, s, a, u);
        }
      }
    }
  }

  lemma UsersRemain(c: Config, s: State, a: Action, u: UserId)
    requires Enabled(s, a) && u in s.users
    ensures u in Step(c, s, a).users
  {
  }

  /** A locker that also counted since the last clearing statement had reached the threshold. */
  lemma {:induction false} CountingLockersHadCause(c: Config, r: Run, u: UserId)
    requires Valid(c, r) && Unlocked(Init(r)) && u in After(c, r).users && !(Lockers(c, r, u) !! Counters(c, r, u))
    ensures Counted(c, r, u) >= c.maxAttempts
  {
    var past, a := r.past, r.action;
    var s := After(c, past);
    CountStep(c, s, a, u);
    NoCountIsLost(c, r, u);
    NoCountIsLost(c, past, u);
    if !(Lockers(c, past, u) !! Counters(c, past, u)) {
      CountingLockersHadCause(c, past, u);
    } else {
      CountsStayRemembered(c, past, u);
      LockersHaveCounted(c, past, u, a.id);
    }
  }

  /** A call that has locked is no longer counting. */
  lemma {:induction false} LockersHaveCounted(c: Config, r: Run, u: UserId, id: CallId)
    requires Valid(c, r)
    ensures id in Lockers(c, r, u) ==> id in After(c, r).calls && After(c, r).calls[id].Finished?
  {
    if r.Then? {
      LockersHaveCounted(c, r.past, u, id);
      if id in Lockers(c, r.past, u) {
        CounterStep(c, After(c, r.past), r.action, id);
      }
    }
  }

  /** Locked below the threshold: every locker had counted before the last clearing statement and wrote after it. */
  lemma {:induction false} LockedWithoutCause(c: Config, r: Run, u: UserId)
    requires Valid(c, r) && Unlocked(Init(r)) && u in After(c, r).users
    requires After(c, r).users[u].lockedAt.Some? && Counted(c, r, u) < c.maxAttempts
    ensures Lockers(c, r, u) != {} && Lockers(c, r, u) !! Counters(c, r, u)
  {
    LockedExactly(c, r, u);
    if !(Lockers(c, r, u) !! Counters(c, r, u)) {
      CountingLockersHadCause(c, r, u);
    }
  }

  /** The call that counted last, if any, has run to its end. */
  predicate LastCounterAtRest(c: Config, r: Run, u: UserId) {
    LastCounter(c, r, u).Some? ==>
      && LastCounter(c, r, u).value in After(c, r).calls
      && After(c, r).calls[LastCounter(c, r, u).value].Finished? && !Crashed(r, LastCounter(c, r, u).value)
  }

  /** Once the last counting call has run to its end, an account is locked exactly when its wrong attempts since the
      last login or unlock reached the threshold, or a call that had counted before that locked it late; however the
      statements were interleaved and whatever else died. */
  lemma {:induction false} QuiescentAccountIsLocked(c: Config, r: Run, u: UserId)
    requires c.maxAttempts >= 1 && Valid(c, r) && Unlocked(Init(r)) && u in After(c, r).users
    requires LastCounterAtRest(c, r, u)
    ensures After(c, r).users[u].lockedAt.Some? <==>
              Counted(c, r, u) >= c.maxAttempts || Lockers(c, r, u) - Counters(c, r, u) != {}
  {
    NoCountIsLost(c, r, u);
    LockedExactly(c, r, u);
    if Unpunished(c, After(c, r), u) {
      LockIsNeverMissed(c, r, u);
    }
    if Lockers(c, r, u) != {} && Counted(c, r, u) < c.maxAttempts {
      LockedWithoutCause(c, r, u);
    }
  }

  // ----- the two ways it fails -----

  function Failing(p: Run, u: UserId, wrong: string, id: CallId, now: int, drawn: TokenHash): Run {
    Then(Then(p, BeginLogin(id, u, wrong)), Advance(id, now, drawn))
  }

  lemma {:induction false} FailingCounts(c: Config, p: Run, u: UserId, wrong: string, id: CallId, now: int,
      drawn: TokenHash)
    requires Valid(c, p) && Usable(After(c, p).users, u) && After(c, p).users[u].lockedAt == None
    requires After(c, p).users[u].failedLoginAttempts + 1 >= c.maxAttempts
        && !Matches(wrong, After(c, p).users[u].password)
    requires id !in After(c, p).calls && drawn !in After(c, p).lineage
    ensures
      var s, r := After(c, p), Failing(p, u, wrong, id, now, drawn);
      var row := s.users[u].(failedLoginAttempts := s.users[u].failedLoginAttempts + 1);
      && Valid(c, r) && After(c, r).users == s.users[u := row] && After(c, r).lineage == s.lineage
      && id in After(c, r).calls && After(c, r).calls[id] == LoginCounted(u, row.failedLoginAttempts)
  {
    var one := Then(p, BeginLogin(id, u, wrong));
    assert After(c, one).calls[id] == LoginWrong(u);
  }

  /** A failing login that dies between counting and locking leaves the account at the threshold and open: the right
      password still logs in. */
  lemma {:induction false} CrashLeavesAccountOpen(c: Config, p: Run, u: UserId, wrong: string, right: string,
      id: CallId, now: int, drawn: TokenHash)
    requires Valid(c, p) && Usable(After(c, p).users, u) && After(c, p).users[u].lockedAt == None
    requires After(c, p).users[u].failedLoginAttempts + 1 >= c.maxAttempts
    requires !Matches(wrong, After(c, p).users[u].password) && Matches(right, After(c, p).users[u].password)
    requires id !in After(c, p).calls && drawn !in After(c, p).lineage
    ensures
      var r := Then(Failing(p, u, wrong, id, now, drawn), Crash(id));
      && Valid(c, r) && Unpunished(c, After(c, r), u) && ReadForLogin(After(c, r), u, right).LoginRead?
  {
    FailingCounts(c, p, u, wrong, id, now, drawn);
  }

  /** The next failing login that does not die locks it. */
  lemma {:induction false} NextFailureRepairs(c: Config, p: Run, u: UserId, wrong: string, id: CallId, now: int,
      drawn: TokenHash)
    requires Valid(c, p) && Unpunished(c, After(c, p), u) && Usable(After(c, p).users, u)
    requires !Matches(wrong, After(c, p).users[u].password)
    requires id !in After(c, p).calls && drawn !in After(c, p).lineage
    ensures
      var r := Then(Failing(p, u, wrong, id, now, drawn), Advance(id, now, drawn));
      && Valid(c, r) && u in After(c, r).users && After(c, r).users[u].lockedAt == Some(now)
  {
    FailingCounts(c, p, u, wrong, id, now, drawn);
  }

  /** The opposite failure: an unlock between counting and locking clears the row, and the pending statement then
      locks an account whose counter is zero. The right password is refused. */
  lemma {:induction false} LateLockShutsOut(c: Config, p: Run, u: UserId, wrong: string, right: string, i: CallId,
      j: CallId, now: int, drawn: TokenHash)
    requires Valid(c, p) && Usable(After(c, p).users, u) && After(c, p).users[u].lockedAt == None
    requires After(c, p).users[u].failedLoginAttempts + 1 >= c.maxAttempts
        && !Matches(wrong, After(c, p).users[u].password)
    requires i != j && i !in After(c, p).calls && j !in After(c, p).calls && drawn !in After(c, p).lineage
    ensures
      var unlocked := Then(Then(Failing(p, u, wrong, i, now, drawn), BeginUnlock(j, u)), Advance(j, now, drawn));
      var r := Then(unlocked, Advance(i, now, drawn));
      && Valid(c, r) && u in After(c, r).users
      && After(c, r).users[u].failedLoginAttempts == 0 && After(c, r).users[u].lockedAt == Some(now)
      && ReadForLogin(After(c, r), u, right).Finished?
  {
    FailingCounts(c, p, u, wrong, i, now, drawn);
    CallsOfFailing(c, p, u, wrong, i, j, now, drawn);
    LateLock(c, Failing(p, u, wrong, i, now, drawn), u, right, i, j, now, drawn);
  }

  lemma CallsOfFailing(c: Config, p: Run, u: UserId, wrong: string, i: CallId, j: CallId, now: int, drawn: TokenHash)
    requires i != j && j !in After(c, p).calls
    ensures j !in After(c, Failing(p, u, wrong, i, now, drawn)).calls
  {
  }

  lemma {:induction false} LateLock(c: Config, p: Run, u: UserId, right: string, i: CallId, j: CallId, now: int,
      drawn: TokenHash)
    requires Valid(c, p) && Usable(After(c, p).users, u) && j !in After(c, p).calls && drawn !in After(c, p).lineage
    requires i in After(c, p).calls && After(c, p).calls[i].LoginCounted? && After(c, p).calls[i].user == u
    ensures
      var r := Then(Then(Then(p, BeginUnlock(j, u)), Advance(j, now, drawn)), Advance(i, now, drawn));
      && Valid(c, r) && u in After(c, r).users
      && After(c, r).users[u].failedLoginAttempts == 0 && After(c, r).users[u].lockedAt == Some(now)
      && ReadForLogin(After(c, r), u, right).Finished?
  {
    var one := Then(p, BeginUnlock(j, u));
    assert After(c, one).calls == After(c, p).calls[j := UnlockRead(u)] && Valid(c, one);
    var two := Then(one, Advance(j, now, drawn));
    assert After(c, two).calls == After(c, one).calls[j := Finished] && Valid(c, two);
    assert After(c, two).users[u].failedLoginAttempts == 0;
  }
}
