/** The session protocol one database statement at a time.

    Any number of calls are in flight; each step runs the next statement of one of them, so a
    call sees the tables as others left them and keeps what it read earlier. A call may die between
    any two of its statements: `Crash`. `lineage` and `sessions` record, for every refresh token ever
    created, the login that opened its session; no statement reads them. */
module SessionSteps {
  import opened Wrappers
  import opened SessionRows
  import Session

  type Config = Session.Config
  type CallId = nat

  /** What a completed token creation by a login fixed. */
  datatype Opened = Opened(user: UserId, epoch: nat, expiresAt: int)

  datatype CutKind = ByForceLogout | ByPassword(password: string)

  /** A call, between two of its statements, with what it has read so far. */
  datatype Call =
    // refreshTokens
    | RefreshRead(user: UserId, token: TokenHash, epoch: nat)
    | RefreshMissed(user: UserId, token: TokenHash, epoch: nat)
    | RefreshReplay(user: UserId)
    | RefreshConsumed(user: UserId, token: TokenHash, epoch: nat)
    | RefreshChecked(user: UserId, token: TokenHash, epoch: nat, expiresAt: int)
    | RefreshCreated(user: UserId, token: TokenHash, epoch: nat, expiresAt: int, successor: TokenHash)
    | RefreshDone(user: UserId, token: TokenHash, epoch: nat, expiresAt: int, successor: TokenHash)
    // login, after its user row was read
    | LoginWrong(user: UserId)
    | LoginCounted(user: UserId, attempts: nat)
    | LoginRead(user: UserId, epoch: nat, lastSeenAt: Option<int>)
    | LoginClear(user: UserId, epoch: nat)
    | LoginBumped(user: UserId, epoch: nat)
    | LoginSwept(user: UserId, epoch: nat)
    | LoginMinted(user: UserId, epoch: nat)
    | LoginDone(user: UserId, epoch: nat)
    // forceLogout, changePassword, resetPassword
    | CutRead(user: UserId, kind: CutKind)
    | CutBumped(user: UserId)
    // logout and unlockAccount
    | LogoutRevoked(user: UserId)
    | UnlockRead(user: UserId)
    // validate, when it found the stamp due at `at`
    | Stamping(user: UserId, at: int)
    // any call that was refused, died before creating a row, or has nothing left to do
    | Finished

  datatype State = State(
    users: Users,
    tokens: Tokens,
    calls: map<CallId, Call>,
    lineage: map<TokenHash, CallId>,
    sessions: map<CallId, Opened>)

  datatype Action =
    | BeginRefresh(id: CallId, user: UserId, token: TokenHash)
    | BeginLogin(id: CallId, user: UserId, password: string)
    | BeginCut(id: CallId, user: UserId, kind: CutKind)
    | BeginLogout(id: CallId, user: UserId, token: TokenHash)
    | BeginUnlock(id: CallId, user: UserId)
    | Advance(id: CallId, now: int, drawn: TokenHash)
    | Crash(id: CallId)
    | BeginValidate(id: CallId, user: UserId, epoch: nat, now: int)
    | SetActive(user: UserId, active: bool)

  // ----- first statements -----

  function ReadForRefresh(s: State, user: UserId, token: TokenHash): Call {
    if Usable(s.users, user) then RefreshRead(user, token, s.users[user].sessionEpoch) else Finished
  }

  function ReadForLogin(s: State, user: UserId, password: string): Call {
    if !Present(s.users, user) || s.users[user].lockedAt.Some? || !s.users[user].isActive then Finished
    else if !Matches(password, s.users[user].password) then LoginWrong(user)
    else LoginRead(user, s.users[user].sessionEpoch, s.users[user].lastSeenAt)
  }

  /** For an access token that is unexpired and not denied. */
  function ReadForValidate(s: State, user: UserId, epoch: nat, now: int): Call {
    if Usable(s.users, user) && s.users[user].sessionEpoch == epoch && Session.StampDue(s.users[user], now)
    then Stamping(user, now) else Finished
  }

  // ----- later statements: what the next one writes in each table, and what its call knows after it -----

  function NextTokens(c: Config, tokens: Tokens, call: Call, now: int, drawn: TokenHash): Tokens {
    match call
    case RefreshRead(u, h, _) => RevokeToken(tokens, h, u)
    case RefreshReplay(u) => RevokeAll(tokens, u)
    case RefreshChecked(u, _, e, x) => tokens[drawn := RefreshToken(u, x, false, e)]
    case LoginBumped(u, _) => RevokeAll(tokens, u)
    case LoginSwept(u, e) => tokens[drawn := RefreshToken(u, now + c.refreshMs, false, e)]
    case LoginMinted(u, _) => Purge(tokens, u, now)
    case CutBumped(u) => RevokeAll(tokens, u)
    case _ => tokens
  }

  predicate WritesUser(call: Call) {
    call.RefreshCreated? || call.LoginWrong? || call.LoginCounted? || call.LoginClear? || call.CutRead?
    || call.LogoutRevoked? || call.UnlockRead? || call.Stamping?
  }

  /** The row that the next statement of `call` stores for its user, given the row it finds. */
  function NextUser(call: Call, row: User, now: int): User {
    match call
    case RefreshCreated(_, _, _, _, _) => row.(lastSeenAt := Some(now))
    case LoginWrong(_) => row.(failedLoginAttempts := row.failedLoginAttempts + 1)
    case LoginCounted(_, _) => row.(lockedAt := Some(now))
    case LoginClear(_, e) =>
      row.(failedLoginAttempts := 0, lockedAt := None, sessionEpoch := e + 1, lastSeenAt := Some(now))
    case CutRead(_, ByForceLogout) => row.(sessionEpoch := row.sessionEpoch + 1, lastSeenAt := None)
    case CutRead(_, ByPassword(password)) => row.(sessionEpoch := row.sessionEpoch + 1, password := Bcrypt(password))
    case LogoutRevoked(_) => row.(lastSeenAt := None)
    case UnlockRead(_) => row.(failedLoginAttempts := 0, lockedAt := None)
    case Stamping(_, at) => row.(lastSeenAt := Some(at))
    case _ => row
  }

  function NextUsers(users: Users, call: Call, now: int): Users {
    if !WritesUser(call) || call.user !in users then users
    else users[call.user := NextUser(call, users[call.user], now)]
  }

  function NextCall(c: Config, s: State, call: Call, now: int, drawn: TokenHash): Call {
    match call
    case RefreshRead(u, h, e) =>
      if Live(s.tokens, h) && s.tokens[h].userId == u then RefreshConsumed(u, h, e) else RefreshMissed(u, h, e)
    case RefreshMissed(u, h, e) =>
      if h in s.tokens && s.tokens[h].userId == u && s.tokens[h].sessionEpoch == e && s.tokens[h].isRevoked
      then RefreshReplay(u) else Finished
    case RefreshConsumed(u, h, e) =>
      if h in s.tokens && s.tokens[h].userId == u && now <= s.tokens[h].expiresAt && s.tokens[h].sessionEpoch == e
      then RefreshChecked(u, h, e, s.tokens[h].expiresAt) else Finished
    case RefreshChecked(u, h, e, x) => RefreshCreated(u, h, e, x, drawn)
    case RefreshCreated(u, h, e, x, successor) => RefreshDone(u, h, e, x, successor)
    case LoginWrong(u) =>
      if u in s.users && s.users[u].failedLoginAttempts + 1 >= c.maxAttempts
      then LoginCounted(u, s.users[u].failedLoginAttempts + 1) else Finished
    case LoginRead(u, e, seen) =>
      if HasLiveSession(s.tokens, u, now) && seen.Some? && seen.value > now - c.idleMs
      then Finished else LoginClear(u, e)
    case LoginClear(u, e) => if u in s.users then LoginBumped(u, e + 1) else Finished
    case LoginBumped(u, e) => LoginSwept(u, e)
    case LoginSwept(u, e) => LoginMinted(u, e)
    case LoginMinted(u, e) => LoginDone(u, e)
    case CutRead(u, _) => if u in s.users then CutBumped(u) else Finished
    case RefreshDone(_, _, _, _, _) => call
    case LoginDone(_, _) => call
    case _ => Finished
  }

  function Next(c: Config, s: State, id: CallId, now: int, drawn: TokenHash): State
    requires id in s.calls
  {
    var call := s.calls[id];
    State(
      NextUsers(s.users, call, now),
      NextTokens(c, s.tokens, call, now, drawn),
      s.calls[id := NextCall(c, s, call, now, drawn)],
      if call.RefreshChecked? && call.token in s.lineage then s.lineage[drawn := s.lineage[call.token]]
      else if call.LoginSwept? then s.lineage[drawn := id]
      else s.lineage,
      if call.LoginSwept? then s.sessions[id := Opened(call.user, call.epoch, now + c.refreshMs)] else s.sessions)
  }

  /** What remains of a call that dies: a token it created is created for good, and no statement follows. */
  function Dead(call: Call): Call {
    match call
    case RefreshCreated(u, h, e, x, successor) => RefreshDone(u, h, e, x, successor)
    case LoginMinted(u, e) => LoginDone(u, e)
    case RefreshDone(_, _, _, _, _) => call
    case LoginDone(_, _) => call
    case _ => Finished
  }

  function Step(c: Config, s: State, a: Action): State {
    match a
    case BeginRefresh(id, u, h) => s.(calls := s.calls[id := ReadForRefresh(s, u, h)])
    case BeginLogin(id, u, password) => s.(calls := s.calls[id := ReadForLogin(s, u, password)])
    case BeginCut(id, u, kind) =>
      s.(calls := s.calls[id := if u in s.users && (kind.ByForceLogout? ==> !s.users[u].isDeleted)
                                then CutRead(u, kind) else Finished])
    case BeginLogout(id, u, h) =>
      s.(tokens := RevokeToken(s.tokens, h, u), calls := s.calls[id := LogoutRevoked(u)])
    case BeginUnlock(id, u) =>
      s.(calls := s.calls[id := if Present(s.users, u) then UnlockRead(u) else Finished])
    case BeginValidate(id, u, epoch, now) => s.(calls := s.calls[id := ReadForValidate(s, u, epoch, now)])
    case Advance(id, now, drawn) => if id in s.calls then Next(c, s, id, now, drawn) else s
    case Crash(id) => if id in s.calls then s.(calls := s.calls[id := Dead(s.calls[id])]) else s
    case SetActive(u, active) =>
      if u in s.users then s.(users := s.users[u := s.users[u].(isActive := active)]) else s
  }

  /** Call ids are not reused, and a hash drawn for a new token was never stored before. */
  predicate Enabled(s: State, a: Action) {
    match a
    case Advance(id, _, drawn) => id in s.calls && drawn !in s.lineage
    case Crash(id) => id in s.calls
    case SetActive(_, _) => true
    case _ => a.id !in s.calls
  }

  // ----- runs -----

  datatype Run = Start(init: Users) | Then(past: Run, action: Action)

  function After(c: Config, r: Run): State {
    match r
    case Start(users) => State(users, map[], map[], map[], map[])
    case Then(past, a) => Step(c, After(c, past), a)
  }

  predicate Valid(c: Config, r: Run) {
    match r
    case Start(_) => true
    case Then(past, a) => Valid(c, past) && Enabled(After(c, past), a)
  }

  /** The instant of an action that looks at the clock. */
  function TimeOf(a: Action): Option<int> {
    match a
    case Advance(_, now, _) => Some(now)
    case BeginValidate(_, _, _, now) => Some(now)
    case _ => None
  }

  /** The last instant looked at. */
  function Clock(r: Run): Option<int> {
    match r
    case Start(_) => None
    case Then(past, a) => if TimeOf(a).Some? then TimeOf(a) else Clock(past)
  }

  predicate NotBefore(clock: Option<int>, now: int) {
    clock.Some? ==> clock.value <= now
  }

  /** The clock never goes back. */
  predicate Timed(r: Run) {
    r.Then? ==> Timed(r.past) && (TimeOf(r.action).Some? ==> NotBefore(Clock(r.past), TimeOf(r.action).value))
  }

  predicate Prefix(p: Run, r: Run) {
    p == r || (r.Then? && Prefix(p, r.past))
  }

  /** `n` statements of one call in a row, at one instant. */
  function AdvanceTimes(c: Config, s: State, id: CallId, now: int, drawn: TokenHash, n: nat): State
    requires id in s.calls
    decreases n
  {
    if n == 0 then s else AdvanceTimes(c, Next(c, s, id, now, drawn), id, now, drawn, n - 1)
  }

  /** The only statement that deletes rows is the purge of a login, whatever the calls beside it minted meanwhile: it
      takes exactly the revoked rows of its user that have expired. */
  lemma {:induction false} RowsLeaveExactly(c: Config, s: State, a: Action, h: TokenHash)
    requires h in s.tokens
    ensures h !in Step(c, s, a).tokens
       <==> && a.Advance? && a.id in s.calls && s.calls[a.id].LoginMinted?
            && s.tokens[h].userId == s.calls[a.id].user && s.tokens[h].isRevoked && s.tokens[h].expiresAt < a.now
  {
    if a.Advance? && a.id in s.calls && !s.calls[a.id].LoginMinted? {
      assert h in NextTokens(c, s.tokens, s.calls[a.id], a.now, a.drawn);
    }
  }
}
