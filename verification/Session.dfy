/** The session protocol at the granularity of whole service calls.

    `Apply` is the effect and the answer of one call of AuthService, of JwtStrategy.validate
    or of the user administration that touches a session. A `Run` is a list of calls; every
    fact about the past (issued tokens, activity, failed attempts, who revoked a token) is a
    function of the run, so no history is stored beside the rows. */
module Session {
  import opened Wrappers
  import opened SessionRows
  import opened Time
  import R = Roles

  datatype Config = Config(maxAttempts: nat, idleMs: nat, refreshMs: nat, accessSeconds: nat)

  /** The signed claims of an access token. `exp` is in seconds (section 4.1.4 of RFC 7519);
      a token minted before epochs existed carries no `epoch`. */
  datatype AccessToken = AccessToken(sub: UserId, jti: Option<string>, epoch: Option<nat>, exp: int)

  datatype Db = Db(users: Users, tokens: Tokens, denied: set<string>)

  datatype Op =
    | Login(user: UserId, password: string, newToken: TokenHash, jti: string, now: int)
    | Refresh(user: UserId, token: TokenHash, newToken: TokenHash, jti: string, now: int)
    | Logout(user: UserId, token: TokenHash, access: AccessToken, now: int)
    | UnlockAccount(user: UserId, now: int)
    | ForceLogout(user: UserId, now: int)
    | ChangePassword(user: UserId, current: string, password: string, now: int)
    | ResetPassword(user: UserId, password: string, requester: seq<R.RoleType>, target: seq<R.RoleType>, now: int)
    | Validate(access: AccessToken, now: int)
    | CreateUser(user: UserId, password: string, active: bool, now: int)
    | SetActive(user: UserId, active: bool, now: int)
    | RemoveUser(user: UserId, now: int)

  datatype Failure = NoSuchUser | InactiveUser | WrongPassword

  datatype Reply =
    | LoggedIn(refresh: TokenHash, access: AccessToken)
    | Rotated(refresh: TokenHash, access: AccessToken)
    | Done
    | Accepted
    | Locked
    | InvalidCredentials(reason: Failure)
    | ActiveSession
    | UserNotFound
    | UserExists
    | NotPermitted
    | WrongCurrentPassword
    | Superseded
    | ReplayDetected
    | InvalidRefresh
    | RefreshExpired
    | AccessExpired
    | AccessDenied

  function Mint(c: Config, user: UserId, jti: string, epoch: nat, now: int): AccessToken {
    AccessToken(user, Some(jti), Some(epoch), Seconds(now) + c.accessSeconds)
  }

  function EpochOf(a: AccessToken): nat {
    match a.epoch case Some(e) => e case None => 0
  }

  // ----- the calls -----

  predicate RecentlyActive(c: Config, user: User, now: int) {
    user.lastSeenAt.Some? && user.lastSeenAt.value > now - c.idleMs
  }

  function CountFailure(c: Config, user: User, now: int): User {
    var attempts := user.failedLoginAttempts + 1;
    user.(failedLoginAttempts := attempts,
          lockedAt := if attempts >= c.maxAttempts then Some(now) else user.lockedAt)
  }

  function OpenSession(user: User, now: int): User {
    user.(failedLoginAttempts := 0, lockedAt := None, sessionEpoch := user.sessionEpoch + 1, lastSeenAt := Some(now))
  }

  function ApplyLogin(c: Config, db: Db, u: UserId, password: string, newToken: TokenHash, jti: string, now: int)
    : (Db, Reply)
  {
    if !Present(db.users, u) then (db, InvalidCredentials(NoSuchUser))
    else
      var user := db.users[u];
      if user.lockedAt.Some? then (db, Locked)
      else if !user.isActive then (db, InvalidCredentials(InactiveUser))
      else if !Matches(password, user.password) then
        (db.(users := db.users[u := CountFailure(c, user, now)]), InvalidCredentials(WrongPassword))
      else if HasLiveSession(db.tokens, u, now) && RecentlyActive(c, user, now) then (db, ActiveSession)
      else
        var epoch := user.sessionEpoch + 1;
        var withNew := RevokeAll(db.tokens, u)[newToken := RefreshToken(u, now + c.refreshMs, false, epoch)];
        (db.(users := db.users[u := OpenSession(user, now)], tokens := Purge(withNew, u, now)),
         LoggedIn(newToken, Mint(c, u, jti, epoch, now)))
  }

  function ApplyRefresh(c: Config, db: Db, u: UserId, token: TokenHash, newToken: TokenHash, jti: string, now: int)
    : (Db, Reply)
  {
    if !Usable(db.users, u) then (db, UserNotFound)
    else
      var epoch := db.users[u].sessionEpoch;
      if !(token in db.tokens && db.tokens[token].userId == u) then (db, InvalidRefresh)
      else
        var stored := db.tokens[token];
        if stored.isRevoked then
          if stored.sessionEpoch != epoch then (db, Superseded)
          else (db.(tokens := RevokeAll(db.tokens, u)), ReplayDetected)
        else
          var consumed := RevokeToken(db.tokens, token, u);
          if stored.expiresAt < now then (db.(tokens := consumed), RefreshExpired)
          else if stored.sessionEpoch != epoch then (db.(tokens := consumed), Superseded)
          else
            (db.(users := db.users[u := db.users[u].(lastSeenAt := Some(now))],
                 tokens := consumed[newToken := RefreshToken(u, stored.expiresAt, false, epoch)]),
             Rotated(newToken, Mint(c, u, jti, epoch, now)))
  }

  function ApplyLogout(db: Db, u: UserId, token: TokenHash, access: AccessToken, now: int): (Db, Reply) {
    var revoked := RevokeToken(db.tokens, token, u);
    var denied :=
      if access.jti.Some? && access.exp > Seconds(now) then db.denied + {access.jti.value} else db.denied;
    if u in db.users
    then (Db(db.users[u := db.users[u].(lastSeenAt := None)], revoked, denied), Done)
    else (Db(db.users, revoked, denied), UserNotFound)
  }

  function ApplyUnlock(db: Db, u: UserId): (Db, Reply) {
    if !Present(db.users, u) then (db, UserNotFound)
    else (db.(users := db.users[u := db.users[u].(failedLoginAttempts := 0, lockedAt := None)]), Done)
  }

  function ApplyForceLogout(db: Db, u: UserId): (Db, Reply) {
    if !Present(db.users, u) then (db, UserNotFound)
    else
      var user := db.users[u].(sessionEpoch := db.users[u].sessionEpoch + 1, lastSeenAt := None);
      (db.(users := db.users[u := user], tokens := RevokeAll(db.tokens, u)), Done)
  }

  function SetPassword(db: Db, u: UserId, password: string): Db
    requires u in db.users
  {
    var user := db.users[u].(password := Bcrypt(password), sessionEpoch := db.users[u].sessionEpoch + 1);
    db.(users := db.users[u := user], tokens := RevokeAll(db.tokens, u))
  }

  function ApplyChangePassword(db: Db, u: UserId, current: string, password: string): (Db, Reply) {
    if u !in db.users then (db, UserNotFound)
    else if !Matches(current, db.users[u].password) then (db, WrongCurrentPassword)
    else (SetPassword(db, u, password), Done)
  }

  /** A SUPER_ADMIN resets any password, anybody else only those of users who rank below every NOTARIO. */
  predicate MayReset(requester: seq<R.RoleType>, target: seq<R.RoleType>) {
    R.SUPER_ADMIN in requester
    || forall t :: t in target ==> R.InHierarchy(t) && R.RankOf(t) > R.RankOf(R.NOTARIO)
  }

  /** `requester` and `target` are the kinds of the roles that the two hold. */
  function ApplyResetPassword(db: Db, u: UserId, password: string, requester: seq<R.RoleType>, target: seq<R.RoleType>)
    : (Db, Reply)
  {
    if !Present(db.users, u) then (db, UserNotFound)
    else if !MayReset(requester, target) then (db, NotPermitted)
    else (SetPassword(db, u, password), Done)
  }

  const STAMP_INTERVAL_MS := 60_000

  predicate StampDue(user: User, now: int) {
    user.lastSeenAt.None? || now - user.lastSeenAt.value > STAMP_INTERVAL_MS
  }

  /** The expiry check is the one the JWT library makes before it hands the payload over. */
  function ApplyValidate(db: Db, a: AccessToken, now: int): (Db, Reply) {
    if Seconds(now) >= a.exp then (db, AccessExpired)
    else if a.jti.Some? && a.jti.value in db.denied then (db, AccessDenied)
    else if !Usable(db.users, a.sub) then (db, UserNotFound)
    else if EpochOf(a) != db.users[a.sub].sessionEpoch then (db, Superseded)
    else if StampDue(db.users[a.sub], now)
    then (db.(users := db.users[a.sub := db.users[a.sub].(lastSeenAt := Some(now))]), Accepted)
    else (db, Accepted)
  }

  function ApplyCreateUser(db: Db, u: UserId, password: string, active: bool): (Db, Reply) {
    if u in db.users then (db, UserExists)
    else (db.(users := db.users[u := User(Bcrypt(password), active, false, 0, None, 0, None)]), Done)
  }

  function ApplySetActive(db: Db, u: UserId, active: bool): (Db, Reply) {
    if !Present(db.users, u) then (db, UserNotFound)
    else (db.(users := db.users[u := db.users[u].(isActive := active)]), Done)
  }

  function ApplyRemoveUser(db: Db, u: UserId): (Db, Reply) {
    if !Present(db.users, u) then (db, UserNotFound)
    else (db.(users := db.users[u := db.users[u].(isActive := false, isDeleted := true)]), Done)
  }

  function Apply(c: Config, db: Db, op: Op): (Db, Reply) {
    match op
    case Login(u, password, newToken, jti, now) => ApplyLogin(c, db, u, password, newToken, jti, now)
    case Refresh(u, token, newToken, jti, now) => ApplyRefresh(c, db, u, token, newToken, jti, now)
    case Logout(u, token, access, now) => ApplyLogout(db, u, token, access, now)
    case UnlockAccount(u, _) => ApplyUnlock(db, u)
    case ForceLogout(u, _) => ApplyForceLogout(db, u)
    case ChangePassword(u, current, password, _) => ApplyChangePassword(db, u, current, password)
    case ResetPassword(u, password, requester, target, _) => ApplyResetPassword(db, u, password, requester, target)
    case Validate(a, now) => ApplyValidate(db, a, now)
    case CreateUser(u, password, active, _) => ApplyCreateUser(db, u, password, active)
    case SetActive(u, active, _) => ApplySetActive(db, u, active)
    case RemoveUser(u, _) => ApplyRemoveUser(db, u)
  }

  // ----- runs -----

  datatype Run = Start | Then(past: Run, op: Op)

  function After(c: Config, init: Db, r: Run): Db {
    match r
    case Start => init
    case Then(past, op) => Apply(c, After(c, init, past), op).0
  }

  function ReplyOf(c: Config, init: Db, r: Run): Reply
    requires r.Then?
  {
    Apply(c, After(c, init, r.past), r.op).1
  }

  /** The refresh-token hashes drawn so far; uuid v4 draws do not repeat. */
  function Drawn(r: Run): set<TokenHash> {
    match r
    case Start => {}
    case Then(past, op) => Drawn(past) + if op.Login? || op.Refresh? then {op.newToken} else {}
  }

  /** The token ids drawn so far. */
  function DrawnJtis(r: Run): set<string> {
    match r
    case Start => {}
    case Then(past, op) => DrawnJtis(past) + if op.Login? || op.Refresh? then {op.jti} else {}
  }

  /** Those, and the ones brought from before the run; uuid v4 draws repeat neither. */
  function KnownJtis(init: Db, r: Run): set<string> {
    match r
    case Start => init.denied
    case Then(past, op) =>
      KnownJtis(init, past)
      + if op.Login? || op.Refresh? then {op.jti}
        else if op.Logout? && op.access.jti.Some? then {op.access.jti.value} else {}
  }

  /** No refresh token yet, nobody seen, nobody failed or locked; any users, at any epochs. */
  predicate Initial(init: Db) {
    init.tokens == map[] &&
    forall u :: u in init.users ==>
      init.users[u].lastSeenAt == None && init.users[u].lockedAt == None && init.users[u].failedLoginAttempts == 0
  }

  predicate Valid(c: Config, init: Db, r: Run) {
    match r
    case Start => Initial(init)
    case Then(past, op) =>
      && Valid(c, init, past)
      && (past.Then? ==> past.op.now <= op.now)
      && (op.Login? || op.Refresh? ==> op.newToken !in Drawn(past) && op.jti !in KnownJtis(init, past))
  }

  predicate Prefix(p: Run, r: Run) {
    p == r || (r.Then? && Prefix(p, r.past))
  }
}
