/** Quantities a session is limited by, over every run of whole calls: the idle window,
    the failed-attempt counter and the absolute lifetime of a session. */
module SessionLimits {
  import opened Wrappers
  import opened SessionRows
  import opened Time
  import opened Session
  import opened SessionTheorems

  // ----- the idle window -----

  predicate Activity(op: Op, reply: Reply, u: UserId) {
    || (op.Login? && op.user == u && reply.LoggedIn?)
    || (op.Refresh? && op.user == u && reply.Rotated?)
    || (op.Validate? && op.access.sub == u && reply.Accepted?)
  }

  predicate Closes(op: Op, reply: Reply, u: UserId) {
    (op.Logout? || op.ForceLogout?) && op.user == u && reply.Done?
  }

  /** When `u` was really last active, every accepted request counted; nothing after a logout or a force-logout. */
  function LastActivity(c: Config, init: Db, r: Run, u: UserId): Option<int> {
    match r
    case Start => None
    case Then(past, op) =>
      var reply := ReplyOf(c, init, r);
      if Activity(op, reply, u) then Some(op.now)
      else if Closes(op, reply, u) then None
      else LastActivity(c, init, past, u)
  }

  /** What one call does to the stamp of `u`. */
  lemma StampStep(c: Config, db: Db, op: Op, u: UserId)
    requires u in db.users
    ensures
      var (db', reply) := Apply(c, db, op);
      var before, after := db.users[u].lastSeenAt, db'.users[u].lastSeenAt;
      && u in db'.users
      && (Closes(op, reply, u) ==> after == None)
      && (Activity(op, reply, u) ==>
            || after == Some(op.now)
            || (after == before && before.Some? && op.now - before.value <= STAMP_INTERVAL_MS))
      && (!Closes(op, reply, u) && !Activity(op, reply, u) ==> after == before)
  {
  }

  lemma NewUserUnseen(c: Config, db: Db, op: Op, u: UserId)
    requires u !in db.users && u in Apply(c, db, op).0.users
    ensures Apply(c, db, op).0.users[u].lastSeenAt == None
    ensures Apply(c, db, op).0.users[u].failedLoginAttempts == 0 && Apply(c, db, op).0.users[u].lockedAt == None
    ensures op.CreateUser? && op.user == u && Apply(c, db, op).1.Done?
  {
  }

  lemma UsersStay(c: Config, db: Db, op: Op, u: UserId)
    requires u in db.users
    ensures u in Apply(c, db, op).0.users
  {
  }

  lemma UnknownUserDoesNothing(c: Config, db: Db, op: Op, u: UserId)
    requires u !in db.users
    ensures !Activity(op, Apply(c, db, op).1, u) && !Cuts(op, Apply(c, db, op).1, u)
    ensures !(op.Login? && op.user == u && Apply(c, db, op).1 == InvalidCredentials(WrongPassword))
  {
  }

  lemma {:induction false} UnknownUserHasNoHistory(c: Config, init: Db, r: Run, u: UserId)
    requires u !in After(c, init, r).users
    ensures LastActivity(c, init, r, u) == None && WrongAttempts(c, init, r, u) == 0
  {
    match r
    case Start =>
    case Then(past, op) =>
      if u in After(c, init, past).users {
        UsersStay(c, After(c, init, past), op, u);
        assert false;
      }
      UnknownUserDoesNothing(c, After(c, init, past), op, u);
      UnknownUserHasNoHistory(c, init, past, u);
  }

  /** Although it is written at most once a minute, the stamp is never later than the real last
      activity and never more than a minute behind it. */
  lemma {:induction false} StampIsCloseToActivity(c: Config, init: Db, r: Run, u: UserId)
    requires Valid(c, init, r) && u in After(c, init, r).users
    ensures
      match After(c, init, r).users[u].lastSeenAt
      case None => LastActivity(c, init, r, u) == None
      case Some(stamp) =>
        && LastActivity(c, init, r, u).Some?
        && stamp <= LastActivity(c, init, r, u).value <= stamp + STAMP_INTERVAL_MS
        && r.Then? && LastActivity(c, init, r, u).value <= r.op.now
  {
    match r
    case Start =>
    case Then(past, op) =>
      var db := After(c, init, past);
      if u in db.users {
        StampIsCloseToActivity(c, init, past, u);
        StampStep(c, db, op, u);
      } else {
        NewUserUnseen(c, db, op, u);
        UnknownUserDoesNothing(c, db, op, u);
        UnknownUserHasNoHistory(c, init, past, u);
      }
  }

  /** A login that would otherwise succeed. */
  predicate GoodLogin(db: Db, op: Op) {
    op.Login? && Usable(db.users, op.user) && db.users[op.user].lockedAt == None
    && Matches(op.password, db.users[op.user].password)
  }

  /** The first session wins while it is active: with a live refresh token a good login is surely refused
      when the real last activity is less than the idle window minus a minute ago, and surely not
      refused when it is at least the idle window ago, when the session was closed, or without a live token. */
  lemma {:induction false} FirstSessionWins(c: Config, init: Db, r: Run, op: Op)
    requires Valid(c, init, r) && GoodLogin(After(c, init, r), op)
    ensures
      var db := After(c, init, r);
      var reply := Apply(c, db, op).1;
      var live := HasLiveSession(db.tokens, op.user, op.now);
      var activity := LastActivity(c, init, r, op.user);
      && (reply == ActiveSession || reply.LoggedIn?)
      && (live && activity.Some? && op.now - activity.value < c.idleMs - STAMP_INTERVAL_MS ==> reply == ActiveSession)
      && (!live || activity.None? || op.now - activity.value >= c.idleMs ==> reply.LoggedIn?)
      && (reply == ActiveSession ==> Apply(c, db, op).0 == db)
  {
    StampIsCloseToActivity(c, init, r, op.user);
  }

  /** A successful login replaces the session: its row is the only live one of the user and unexpired, the rows it
      leaves besides are revoked and unexpired, and nobody else's row is touched. */
  lemma {:induction false} LoginReplacesSession(c: Config, init: Db, r: Run, op: Op, h: TokenHash)
    requires Valid(c, init, Then(r, op)) && op.Login? && Apply(c, After(c, init, r), op).1.LoggedIn?
    ensures
      var db, db' := After(c, init, r), Apply(c, After(c, init, r), op).0;
      if h == op.newToken then
        h in db'.tokens && db'.tokens[h].userId == op.user && !db'.tokens[h].isRevoked
            && op.now <= db'.tokens[h].expiresAt
      else if h in db.tokens && db.tokens[h].userId != op.user then h in db'.tokens && db'.tokens[h] == db.tokens[h]
      else
        && (h in db'.tokens <==> h in db.tokens && op.now <= db.tokens[h].expiresAt)
        && (h in db'.tokens ==> db'.tokens[h] == db.tokens[h].(isRevoked := true))
  {
    TokensWereDrawn(c, init, r);
  }

  /** A replay ends the session without cutting it: no row of the user stays live, so only a login can open the next
      session, and nothing else changes, not even the epoch. */
  lemma {:induction false} ReplayEndsSession(c: Config, db: Db, op: Op, next: Op)
    requires op.Refresh? && Apply(c, db, op).1 == ReplayDetected
    ensures
      var db' := Apply(c, db, op).0;
      && db'.users == db.users && db'.denied == db.denied && db'.tokens.Keys == db.tokens.Keys
      && (forall h :: Live(db'.tokens, h) <==> Live(db.tokens, h) && db.tokens[h].userId != op.user)
      && (GoodLogin(db', next) && next.user == op.user ==> Apply(c, db', next).1.LoggedIn?)
      && (next.Refresh? && next.user == op.user ==> !Apply(c, db', next).1.Rotated?)
  {
    var db' := Apply(c, db, op).0;
    assert forall h :: h in db'.tokens && db'.tokens[h].userId == op.user ==> db'.tokens[h].isRevoked;
  }

  predicate LiveRow(db: Db, h: TokenHash, u: UserId) {
    Live(db.tokens, h) && db.tokens[h].userId == u
  }

  ghost predicate NoSession(db: Db, u: UserId) {
    forall h :: !LiveRow(db, h, u)
  }

  function LoginsSince(c: Config, init: Db, p: Run, r: Run, u: UserId): nat
    requires Prefix(p, r)
  {
    if p == r then 0
    else LoginsSince(c, init, p, r.past, u)
         + if r.op.Login? && r.op.user == u && ReplyOf(c, init, r).LoggedIn? then 1 else 0
  }

  lemma LiveRowCameFrom(c: Config, db: Db, op: Op, h: TokenHash, u: UserId)
    requires LiveRow(Apply(c, db, op).0, h, u) && (op.Login? || op.Refresh? ==> op.newToken !in db.tokens)
    ensures
      || LiveRow(db, h, u)
      || (op.Login? && op.user == u && Apply(c, db, op).1.LoggedIn?)
      || (op.Refresh? && LiveRow(db, op.token, u))
  {
  }

  /** A user without a session has none at any later time before a completed login: nothing else opens one. So a
      replay, a cut other than a login, or the logout of the live row ends the session for good. */
  lemma {:induction false} OnlyLoginOpensSession(c: Config, init: Db, p: Run, r: Run, u: UserId)
    requires Valid(c, init, r) && Prefix(p, r) && NoSession(After(c, init, p), u) && LoginsSince(c, init, p, r, u) == 0
    ensures NoSession(After(c, init, r), u)
  {
    if p != r {
      OnlyLoginOpensSession(c, init, p, r.past, u);
      TokensWereDrawn(c, init, r.past);
      forall h ensures !LiveRow(After(c, init, r), h, u) {
        if LiveRow(After(c, init, r), h, u) {
          LiveRowCameFrom(c, After(c, init, r.past), r.op, h, u);
        }
      }
    }
  }

  /** A logout ends its user's session exactly when there was none, or the token it was given is the live row. */
  lemma {:induction false} LogoutEndsSessionExactly(c: Config, init: Db, r: Run, op: Op)
    requires Valid(c, init, r) && op.Logout?
    ensures
      var db, db' := After(c, init, r), Apply(c, After(c, init, r), op).0;
      NoSession(db', op.user) <==> NoSession(db, op.user) || LiveRow(db, op.token, op.user)
  {
    SingleLiveSession(c, init, r);
    var db, db' := After(c, init, r), Apply(c, After(c, init, r), op).0;
    forall h ensures LiveRow(db', h, op.user) <==> LiveRow(db, h, op.user) && h != op.token {
    }
  }

  /** A password change takes effect at once: no session of the user is left to stand in the way, the new password logs
      in, and every other one is counted as a wrong attempt. */
  lemma {:induction false} NewPasswordTakesEffect(c: Config, db: Db, op: Op, next: Op)
    requires op.ChangePassword? || op.ResetPassword?
    requires Apply(c, db, op).1 == Done && next.Login? && next.user == op.user
    requires Usable(db.users, op.user) && db.users[op.user].lockedAt == None
    ensures
      var reply := Apply(c, Apply(c, db, op).0, next).1;
      if next.password == op.password then reply.LoggedIn? else reply == InvalidCredentials(WrongPassword)
  {
    var db' := Apply(c, db, op).0;
    assert forall h :: h in db'.tokens && db'.tokens[h].userId == op.user ==> db'.tokens[h].isRevoked;
  }

  // ----- lockout -----

  /** Wrong passwords given for `u` while it was active and not locked, since its last completed login or unlock. */
  function WrongAttempts(c: Config, init: Db, r: Run, u: UserId): nat {
    match r
    case Start => 0
    case Then(past, op) =>
      var reply := ReplyOf(c, init, r);
      if (op.Login? && op.user == u && reply.LoggedIn?) || (op.UnlockAccount? && op.user == u && reply.Done?) then 0
      else if op.Login? && op.user == u && reply == InvalidCredentials(WrongPassword)
      then WrongAttempts(c, init, past, u) + 1
      else WrongAttempts(c, init, past, u)
  }

  lemma LockStep(c: Config, db: Db, op: Op, u: UserId)
    requires u in db.users
    ensures
      var (db', reply) := Apply(c, db, op);
      && u in db'.users
      && var before, after := db.users[u], db'.users[u];
      if (op.Login? && op.user == u && reply.LoggedIn?) || (op.UnlockAccount? && op.user == u && reply.Done?) then
        after.failedLoginAttempts == 0 && after.lockedAt == None
      else if op.Login? && op.user == u && reply == InvalidCredentials(WrongPassword) then
        && before.lockedAt == None
        && after.failedLoginAttempts == before.failedLoginAttempts + 1
        && (after.lockedAt.Some? <==> after.failedLoginAttempts >= c.maxAttempts)
      else
        after.failedLoginAttempts == before.failedLoginAttempts && after.lockedAt == before.lockedAt
  {
  }

  /** The counter is exactly the number of wrong attempts, and the account is locked exactly
      when they reach the threshold: a login refused for an active session does not clear them. */
  lemma {:induction false} LockoutIsExact(c: Config, init: Db, r: Run, u: UserId)
    requires c.maxAttempts >= 1 && Valid(c, init, r) && u in After(c, init, r).users
    ensures
      var user := After(c, init, r).users[u];
      && user.failedLoginAttempts == WrongAttempts(c, init, r, u)
      && (user.lockedAt.Some? <==> WrongAttempts(c, init, r, u) >= c.maxAttempts)
  {
    match r
    case Start =>
    case Then(past, op) =>
      var db := After(c, init, past);
      if u in db.users {
        LockoutIsExact(c, init, past, u);
        LockStep(c, db, op, u);
      } else {
        NewUserUnseen(c, db, op, u);
        UnknownUserDoesNothing(c, db, op, u);
        UnknownUserHasNoHistory(c, init, past, u);
      }
  }

  function UnlocksSince(c: Config, init: Db, p: Run, r: Run, u: UserId): nat
    requires Prefix(p, r)
  {
    if p == r then 0
    else UnlocksSince(c, init, p, r.past, u)
         + if r.op.UnlockAccount? && r.op.user == u && ReplyOf(c, init, r).Done? then 1 else 0
  }

  /** A locked account stays locked, and refuses even the right password, until somebody unlocks it. */
  lemma {:induction false} LockedUntilUnlocked(c: Config, init: Db, p: Run, r: Run, op: Op)
    requires Prefix(p, r) && op.Login? && op.user in After(c, init, p).users
    requires After(c, init, p).users[op.user].lockedAt.Some? && UnlocksSince(c, init, p, r, op.user) == 0
    ensures op.user in After(c, init, r).users && After(c, init, r).users[op.user].lockedAt.Some?
    ensures Apply(c, After(c, init, r), op).1
         == if After(c, init, r).users[op.user].isDeleted then InvalidCredentials(NoSuchUser) else Locked
    ensures Apply(c, After(c, init, r), op).0 == After(c, init, r)
  {
    if p != r {
      LockedUntilUnlocked(c, init, p, r.past, op);
      LockStep(c, After(c, init, r.past), r.op, op.user);
    }
  }

  // ----- absolute lifetime -----

  /** The expiry fixed by the login that opened the current session of `u`; none after any other cut. */
  function SessionExpiry(c: Config, init: Db, r: Run, u: UserId): Option<int> {
    match r
    case Start => None
    case Then(past, op) =>
      if !Cuts(op, ReplyOf(c, init, r), u) then SessionExpiry(c, init, past, u)
      else if op.Login? then Some(op.now + c.refreshMs) else None
  }

  /** What one call does to the rows of the current epoch of `u`. */
  lemma CurrentRowStep(c: Config, db: Db, op: Op, h: TokenHash)
    requires SingleSession(db) && (op.Login? || op.Refresh? ==> op.newToken !in db.tokens)
    requires
      var db' := Apply(c, db, op).0;
      h in db'.tokens && db'.tokens[h].userId in db'.users
      && db'.tokens[h].sessionEpoch == db'.users[db'.tokens[h].userId].sessionEpoch
    ensures
      var (db', reply) := Apply(c, db, op);
      var row := db'.tokens[h];
      if Cuts(op, reply, row.userId) then op.Login? && row.expiresAt == op.now + c.refreshMs
      else
        && row.userId in db.users && db.users[row.userId].sessionEpoch == row.sessionEpoch
        && exists k :: k in db.tokens && db.tokens[k].userId == row.userId
                       && db.tokens[k].sessionEpoch == row.sessionEpoch && db.tokens[k].expiresAt == row.expiresAt
  {
    var (db', reply) := Apply(c, db, op);
    var row := db'.tokens[h];
    if h in db.tokens {
      RowsAreImmutable(c, db, op, h);
      EpochStep(c, db, op, row.userId);
    } else if op.Refresh? {
      assert h == op.newToken && op.token in db.tokens;
    }
  }

  /** All rows of the current session share the expiry its login fixed, however often it was rotated. */
  lemma {:induction false} RotationKeepsExpiry(c: Config, init: Db, r: Run, h: TokenHash)
    requires Valid(c, init, r) && h in After(c, init, r).tokens
    ensures SingleSession(After(c, init, r))
    ensures
      var db := After(c, init, r);
      var row := db.tokens[h];
      row.sessionEpoch == db.users[row.userId].sessionEpoch ==>
          SessionExpiry(c, init, r, row.userId) == Some(row.expiresAt)
  {
    SingleLiveSession(c, init, r);
    var db' := After(c, init, r);
    var row := db'.tokens[h];
    if row.sessionEpoch == db'.users[row.userId].sessionEpoch {
      var past, op := r.past, r.op;
      var db := After(c, init, past);
      SingleLiveSession(c, init, past);
      TokensWereDrawn(c, init, past);
      CurrentRowStep(c, db, op, h);
      if !Cuts(op, ReplyOf(c, init, r), row.userId) {
        var k :| k in db.tokens && db.tokens[k].userId == row.userId
                 && db.tokens[k].sessionEpoch == row.sessionEpoch && db.tokens[k].expiresAt == row.expiresAt;
        RotationKeepsExpiry(c, init, past, k);
      }
    }
  }

  /** No refresh succeeds after the expiry its login fixed. */
  lemma {:induction false} NoRefreshAfterExpiry(c: Config, init: Db, r: Run, op: Op)
    requires Valid(c, init, r) && op.Refresh? && Apply(c, After(c, init, r), op).1.Rotated?
    ensures SessionExpiry(c, init, r, op.user).Some? && op.now <= SessionExpiry(c, init, r, op.user).value
    ensures Apply(c, After(c, init, r), op).0.tokens[op.newToken].expiresAt == SessionExpiry(c, init, r, op.user).value
  {
    RotationKeepsExpiry(c, init, r, op.token);
  }

  lemma ClaimsOfIssued(c: Config, db: Db, op: Op)
    requires Issues(Apply(c, db, op).1)
    ensures
      var reply := Apply(c, db, op).1;
      && (op.Login? || op.Refresh?) && (reply.LoggedIn? <==> op.Login?)
      && reply.access.sub == op.user && reply.access.exp == Seconds(op.now) + c.accessSeconds
      && (Cuts(op, reply, op.user) <==> op.Login?)
  {
  }

  /** An access token is issued before the expiry of its session. */
  lemma {:induction false} IssuedBeforeExpiry(c: Config, init: Db, p: Run)
    requires Valid(c, init, p) && p.Then? && Issues(ReplyOf(c, init, p))
    ensures
      var a := ReplyOf(c, init, p).access;
      SessionExpiry(c, init, p, a.sub).Some?
          && a.exp <= Seconds(SessionExpiry(c, init, p, a.sub).value) + c.accessSeconds
  {
    ClaimsOfIssued(c, After(c, init, p.past), p.op);
    if p.op.Refresh? {
      NoRefreshAfterExpiry(c, init, p.past, p.op);
    }
  }

  /** No access token of the current session outlives that expiry by more than the access lifetime. */
  lemma {:induction false} AccessEndsWithSession(c: Config, init: Db, p: Run, r: Run, now: int)
    requires Valid(c, init, r) && Prefix(p, r) && p.Then? && Issues(ReplyOf(c, init, p))
    requires ApplyValidate(After(c, init, r), ReplyOf(c, init, p).access, now).1 == Accepted
    ensures
      var u := ReplyOf(c, init, p).access.sub;
      SessionExpiry(c, init, r, u).Some? && now < SessionExpiry(c, init, r, u).value + 1000 * c.accessSeconds
  {
    ValidPrefix(c, init, p, r);
    IssuedBeforeExpiry(c, init, p);
    AcceptedUntilCut(c, init, p, r, now);
    ExpiryUntilCut(c, init, p, r, ReplyOf(c, init, p).access.sub);
  }

  lemma {:induction false} ExpiryUntilCut(c: Config, init: Db, p: Run, r: Run, u: UserId)
    requires Prefix(p, r) && CutsSince(c, init, p, r, u) == 0
    ensures SessionExpiry(c, init, r, u) == SessionExpiry(c, init, p, u)
  {
    if p != r {
      ExpiryUntilCut(c, init, p, r.past, u);
    }
  }
}
