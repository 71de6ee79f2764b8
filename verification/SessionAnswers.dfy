/** What every whole call answers and writes, in terms of the columns of the rows alone: the definition that `Apply`
    is held to. Each `Answers` lemma is a table of the answers; each `Writes` lemma says what becomes of every row. */
module SessionAnswers {
  import opened Wrappers
  import opened SessionRows
  import opened Time
  import opened Session
  import opened SessionTheorems
  import R = Roles

  // ----- vocabulary: the columns that change, everything else being the same -----

  predicate OnlyUser(db: Db, db': Db, u: UserId, row: User) {
    db'.users == db.users[u := row]
  }

  /** The rows of `u` that `revoked` selects are revoked, and nothing else changes in the table. */
  ghost predicate RevokedExactly(tokens: Tokens, tokens': Tokens, revoked: TokenHash -> bool) {
    && tokens'.Keys == tokens.Keys
    && forall h :: h in tokens ==>
         && tokens'[h].userId == tokens[h].userId && tokens'[h].expiresAt == tokens[h].expiresAt
         && tokens'[h].sessionEpoch == tokens[h].sessionEpoch
         && (tokens'[h].isRevoked <==> tokens[h].isRevoked || revoked(h))
  }

  predicate OwnedBy(tokens: Tokens, u: UserId, h: TokenHash) {
    h in tokens && tokens[h].userId == u
  }

  // ----- login -----

  /** No live session of `u` stands in the way: none of its unrevoked rows is unexpired, or it was not seen for the idle
      window. */
  ghost predicate NothingInTheWay(c: Config, db: Db, u: UserId, now: int)
    requires u in db.users
  {
    || (forall h :: h in db.tokens && db.tokens[h].userId == u && !db.tokens[h].isRevoked ==>
          db.tokens[h].expiresAt <= now)
    || db.users[u].lastSeenAt == None
    || db.users[u].lastSeenAt.value <= now - c.idleMs
  }

  /** Who is admitted. */
  lemma {:induction false} LoginAdmitsExactly(c: Config, db: Db, op: Op)
    requires op.Login?
    ensures Apply(c, db, op).1.LoggedIn? <==>
              && op.user in db.users && !db.users[op.user].isDeleted && db.users[op.user].isActive
              && db.users[op.user].lockedAt == None && db.users[op.user].password == Bcrypt(op.password)
              && NothingInTheWay(c, db, op.user, op.now)
  {
  }

  /** Why the others are not, in the order of the checks. */
  lemma {:induction false} LoginAnswers(c: Config, db: Db, op: Op)
    requires op.Login? && !Apply(c, db, op).1.LoggedIn?
    ensures Apply(c, db, op).1 ==
              if op.user !in db.users || db.users[op.user].isDeleted then InvalidCredentials(NoSuchUser)
              else if db.users[op.user].lockedAt != None then Locked
              else if !db.users[op.user].isActive then InvalidCredentials(InactiveUser)
              else if db.users[op.user].password != Bcrypt(op.password) then InvalidCredentials(WrongPassword)
              else ActiveSession
  {
    LoginAdmitsExactly(c, db, op);
  }

  /** What an admitted login writes and hands out. `SessionLimits.LoginReplacesSession` says which token rows it
      leaves. */
  lemma {:induction false} LoginWrites(c: Config, db: Db, op: Op)
    requires op.Login? && Apply(c, db, op).1.LoggedIn?
    ensures
      var (db', reply) := Apply(c, db, op);
      var row := db.users[op.user];
      var epoch := row.sessionEpoch + 1;
      && OnlyUser(db, db', op.user, User(row.password, true, false, 0, None, epoch, Some(op.now)))
      && db'.denied == db.denied && op.newToken in db'.tokens
      && db'.tokens[op.newToken] == RefreshToken(op.user, op.now + c.refreshMs, false, epoch)
      && reply == LoggedIn(op.newToken,
                           AccessToken(op.user, Some(op.jti), Some(epoch), op.now / 1000 + c.accessSeconds))
  {
  }

  /** A refused one writes nothing, but for a wrong password, which is counted and at the threshold locks. */
  lemma {:induction false} RefusedLoginWrites(c: Config, db: Db, op: Op)
    requires op.Login? && !Apply(c, db, op).1.LoggedIn?
    ensures
      var (db', reply) := Apply(c, db, op);
      if reply != InvalidCredentials(WrongPassword) then db' == db
      else
        var row := db.users[op.user];
        var attempts := row.failedLoginAttempts + 1;
        var locked := if attempts >= c.maxAttempts then Some(op.now) else row.lockedAt;
        && OnlyUser(db, db', op.user, row.(failedLoginAttempts := attempts, lockedAt := locked))
        && db'.tokens == db.tokens && db'.denied == db.denied
  {
  }

  // ----- refresh -----

  lemma {:induction false} RefreshAnswers(c: Config, db: Db, op: Op)
    requires op.Refresh?
    ensures
      var reply := Apply(c, db, op).1;
      if op.user !in db.users || !db.users[op.user].isActive || db.users[op.user].isDeleted then reply == UserNotFound
      else if op.token !in db.tokens || db.tokens[op.token].userId != op.user then reply == InvalidRefresh
      else
        var row, epoch := db.tokens[op.token], db.users[op.user].sessionEpoch;
        && (reply == ReplayDetected <==> row.isRevoked && row.sessionEpoch == epoch)
        && (reply == RefreshExpired <==> !row.isRevoked && row.expiresAt < op.now)
        && (reply == Superseded <==> row.sessionEpoch != epoch && (row.isRevoked || op.now <= row.expiresAt))
        && (reply.Rotated? <==> !row.isRevoked && op.now <= row.expiresAt && row.sessionEpoch == epoch)
  {
  }

  /** A rotation consumes the token presented and creates one successor for the same user, expiry and epoch. */
  lemma {:induction false} RotationWrites(c: Config, db: Db, op: Op)
    requires op.Refresh? && Apply(c, db, op).1.Rotated? && op.newToken !in db.tokens
    ensures
      var (db', reply) := Apply(c, db, op);
      var user, row := db.users[op.user], db.tokens[op.token];
      && OnlyUser(db, db', op.user, user.(lastSeenAt := Some(op.now))) && db'.denied == db.denied
      && op.newToken in db'.tokens
      && db'.tokens[op.newToken] == RefreshToken(op.user, row.expiresAt, false, user.sessionEpoch)
      && RevokedExactly(db.tokens, db'.tokens - {op.newToken}, h => h == op.token)
      && reply == Rotated(op.newToken,
                          AccessToken(op.user, Some(op.jti), Some(user.sessionEpoch), op.now / 1000 + c.accessSeconds))
  {
  }

  /** A refused refresh revokes the token it consumed, all rows of the user after a replay, and changes nothing else. */
  lemma {:induction false} RefusedRefreshWrites(c: Config, db: Db, op: Op)
    requires op.Refresh? && !Apply(c, db, op).1.Rotated?
    ensures
      var (db', reply) := Apply(c, db, op);
      && db'.users == db.users && db'.denied == db.denied
      && RevokedExactly(db.tokens, db'.tokens,
                        h => (reply == ReplayDetected && OwnedBy(db.tokens, op.user, h))
                             || (reply in {RefreshExpired, Superseded} && h == op.token))
  {
  }

  // ----- logout -----

  lemma {:induction false} LogoutWrites(c: Config, db: Db, op: Op)
    requires op.Logout?
    ensures
      var (db', reply) := Apply(c, db, op);
      && (reply == Done <==> op.user in db.users) && (reply == UserNotFound <==> op.user !in db.users)
      && RevokedExactly(db.tokens, db'.tokens, h => h == op.token && OwnedBy(db.tokens, op.user, h))
      && db'.denied == db.denied
                       + (if op.access.jti.Some? && op.now < 1000 * op.access.exp then {op.access.jti.value} else {})
      && if op.user in db.users then OnlyUser(db, db', op.user, db.users[op.user].(lastSeenAt := None))
         else db'.users == db.users
  {
  }

  // ----- unlock, force-logout -----

  lemma {:induction false} UnlockWrites(c: Config, db: Db, op: Op)
    requires op.UnlockAccount?
    ensures
      var (db', reply) := Apply(c, db, op);
      && db'.tokens == db.tokens && db'.denied == db.denied
      && if op.user in db.users && !db.users[op.user].isDeleted
         then reply == Done
              && OnlyUser(db, db', op.user, db.users[op.user].(failedLoginAttempts := 0, lockedAt := None))
         else reply == UserNotFound && db'.users == db.users
  {
  }

  lemma {:induction false} ForceLogoutWrites(c: Config, db: Db, op: Op)
    requires op.ForceLogout?
    ensures
      var (db', reply) := Apply(c, db, op);
      && db'.denied == db.denied
      && if op.user in db.users && !db.users[op.user].isDeleted
         then
           var row := db.users[op.user];
           && reply == Done
           && OnlyUser(db, db', op.user, row.(sessionEpoch := row.sessionEpoch + 1, lastSeenAt := None))
           && RevokedExactly(db.tokens, db'.tokens, h => OwnedBy(db.tokens, op.user, h))
         else reply == UserNotFound && db' == db
  {
  }

  // ----- passwords -----

  /** A new password for `u`, and every session of `u` cut. */
  ghost predicate PasswordSet(db: Db, db': Db, u: UserId, password: string)
    requires u in db.users
  {
    && OnlyUser(db, db', u, db.users[u].(password := Bcrypt(password), sessionEpoch := db.users[u].sessionEpoch + 1))
    && RevokedExactly(db.tokens, db'.tokens, h => OwnedBy(db.tokens, u, h)) && db'.denied == db.denied
  }

  /** Only who knows the current password changes it. */
  lemma {:induction false} ChangePasswordExactly(c: Config, db: Db, op: Op)
    requires op.ChangePassword?
    ensures
      var (db', reply) := Apply(c, db, op);
      if op.user in db.users && db.users[op.user].password == Bcrypt(op.current)
      then reply == Done && PasswordSet(db, db', op.user, op.password)
      else db' == db && reply == if op.user in db.users then WrongCurrentPassword else UserNotFound
  {
  }

  /** Without SUPER_ADMIN only users all of whose roles are MATRIZADOR or ARCHIVADOR are reset: the password of a
      NOTARIO, of a SUPER_ADMIN or of a user with a role outside the hierarchy stays as it is. */
  lemma {:induction false} ResetPasswordExactly(c: Config, db: Db, op: Op)
    requires op.ResetPassword?
    ensures
      var (db', reply) := Apply(c, db, op);
      var present := op.user in db.users && !db.users[op.user].isDeleted;
      var permitted := R.SUPER_ADMIN in op.requester
                       || forall t :: t in op.target ==> t == R.MATRIZADOR || t == R.ARCHIVADOR;
      if present && permitted then reply == Done && PasswordSet(db, db', op.user, op.password)
      else db' == db && reply == if present then NotPermitted else UserNotFound
  {
    assert forall t: R.RoleType :: R.InHierarchy(t) && R.RankOf(t) > R.RankOf(R.NOTARIO) <==>
                                   t == R.MATRIZADOR || t == R.ARCHIVADOR;
  }

  // ----- validation -----

  lemma {:induction false} ValidateAnswers(c: Config, db: Db, op: Op)
    requires op.Validate?
    ensures
      var (db', reply) := Apply(c, db, op);
      var a := op.access;
      && (reply == AccessExpired <==> 1000 * a.exp <= op.now)
      && (reply == AccessDenied <==> op.now < 1000 * a.exp && a.jti.Some? && a.jti.value in db.denied)
      && (reply == Accepted <==>
            && op.now < 1000 * a.exp && !(a.jti.Some? && a.jti.value in db.denied)
            && a.sub in db.users && db.users[a.sub].isActive && !db.users[a.sub].isDeleted
            && db.users[a.sub].sessionEpoch == (if a.epoch == None then 0 else a.epoch.value))
      && (reply in {AccessExpired, AccessDenied, Accepted, UserNotFound, Superseded})
      && (reply == Superseded ==> a.sub in db.users && db.users[a.sub].isActive && !db.users[a.sub].isDeleted)
      && (reply == UserNotFound ==> a.sub !in db.users || !db.users[a.sub].isActive || db.users[a.sub].isDeleted)
  {
  }

  lemma {:induction false} ValidateWrites(c: Config, db: Db, op: Op)
    requires op.Validate?
    ensures
      var (db', reply) := Apply(c, db, op);
      var u := op.access.sub;
      if reply == Accepted && (db.users[u].lastSeenAt == None || db.users[u].lastSeenAt.value + 60_000 < op.now)
      then OnlyUser(db, db', u, db.users[u].(lastSeenAt := Some(op.now)))
           && db'.tokens == db.tokens && db'.denied == db.denied
      else db' == db
  {
  }

  // ----- accounts -----

  lemma {:induction false} CreateUserWrites(c: Config, db: Db, op: Op)
    requires op.CreateUser?
    ensures
      var (db', reply) := Apply(c, db, op);
      && db'.tokens == db.tokens && db'.denied == db.denied
      && if op.user in db.users then reply == UserExists && db'.users == db.users
         else reply == Done && OnlyUser(db, db', op.user, User(Bcrypt(op.password), op.active, false, 0, None, 0, None))
  {
  }

  /** Activation and removal touch those columns and nothing else: the rows of the user, its epoch and its lock stay. */
  lemma {:induction false} AccountWrites(c: Config, db: Db, op: Op)
    requires op.SetActive? || op.RemoveUser?
    ensures
      var (db', reply) := Apply(c, db, op);
      && db'.tokens == db.tokens && db'.denied == db.denied
      && if op.user !in db.users || db.users[op.user].isDeleted then reply == UserNotFound && db'.users == db.users
         else
           && reply == Done
           && OnlyUser(db, db', op.user,
                       if op.SetActive? then db.users[op.user].(isActive := op.active)
                       else db.users[op.user].(isActive := false, isDeleted := true))
  {
  }

  // ----- nobody deactivated is served -----

  function ActivationsSince(c: Config, init: Db, p: Run, r: Run, u: UserId): nat
    requires Prefix(p, r)
  {
    if p == r then 0
    else ActivationsSince(c, init, p, r.past, u) + if r.op.SetActive? && r.op.user == u && r.op.active then 1 else 0
  }

  lemma ActiveStep(c: Config, db: Db, op: Op, u: UserId)
    requires u in db.users && !db.users[u].isActive && !(op.SetActive? && op.user == u && op.active)
    ensures u in Apply(c, db, op).0.users && !Apply(c, db, op).0.users[u].isActive
    ensures Issues(Apply(c, db, op).1) ==> Apply(c, db, op).1.access.sub != u
    ensures op.Validate? && op.access.sub == u ==> Apply(c, db, op).1 != Accepted
  {
  }

  /** From a deactivation to the next activation no call hands credentials to the user, and none of its access tokens is
      accepted. */
  lemma {:induction false} DeactivatedIsNotServed(c: Config, init: Db, p: Run, r: Run, u: UserId, op: Op)
    requires Prefix(p, r) && u in After(c, init, p).users && !After(c, init, p).users[u].isActive
    requires ActivationsSince(c, init, p, r, u) == 0 && !(op.SetActive? && op.user == u && op.active)
    ensures u in After(c, init, r).users && !After(c, init, r).users[u].isActive
    ensures
      var reply := Apply(c, After(c, init, r), op).1;
      && (Issues(reply) ==> reply.access.sub != u)
      && (op.Validate? && op.access.sub == u ==> reply != Accepted)
  {
    if p != r {
      DeactivatedIsNotServed(c, init, p, r.past, u, r.op);
      ActiveStep(c, After(c, init, r.past), r.op, u);
    }
    ActiveStep(c, After(c, init, r), op, u);
  }

  // ----- access tokens are told apart -----

  /** An access token carries the id drawn for the call that issued it. */
  lemma {:induction false} IssuedJti(c: Config, db: Db, op: Op)
    requires Issues(Apply(c, db, op).1)
    ensures (op.Login? || op.Refresh?) && Apply(c, db, op).1.access.jti == Some(op.jti)
  {
  }

  lemma {:induction false} JtisStayKnown(init: Db, p: Run, r: Run)
    requires Prefix(p, r)
    ensures KnownJtis(init, p) <= KnownJtis(init, r)
  {
    if p != r {
      JtisStayKnown(init, p, r.past);
    }
  }

  /** Two calls of a run never issue access tokens with the same id. */
  lemma {:induction false} JtisAreDistinct(c: Config, init: Db, p: Run, q: Run)
    requires Valid(c, init, q) && p.Then? && q.Then? && Prefix(p, q.past)
    requires Issues(ReplyOf(c, init, p)) && Issues(ReplyOf(c, init, q))
    ensures ReplyOf(c, init, p).access.jti != ReplyOf(c, init, q).access.jti
  {
    IssuedJti(c, After(c, init, p.past), p.op);
    IssuedJti(c, After(c, init, q.past), q.op);
    JtisStayKnown(init, p, q.past);
  }

  /** The access tokens handed out so far. */
  ghost function Handed(c: Config, init: Db, r: Run): set<AccessToken> {
    match r
    case Start => {}
    case Then(past, op) =>
      Handed(c, init, past) + if Issues(ReplyOf(c, init, r)) then {ReplyOf(c, init, r).access} else {}
  }

  /** Signatures are sound: who presents a token id drawn in the run presents the token handed out with it. */
  ghost predicate Genuine(c: Config, init: Db, r: Run) {
    match r
    case Start => true
    case Then(past, op) =>
      && Genuine(c, init, past)
      && (op.Logout? && op.access.jti.Some? && op.access.jti.value in DrawnJtis(past) ==>
            op.access in Handed(c, init, past))
  }

  predicate LoggedOutWith(r: Run, a: AccessToken) {
    r.Then? && (LoggedOutWith(r.past, a) || (r.op.Logout? && r.op.access == a))
  }

  lemma {:induction false} DeniedIsKnown(c: Config, init: Db, r: Run)
    ensures After(c, init, r).denied <= KnownJtis(init, r)
  {
    if r.Then? {
      DeniedIsKnown(c, init, r.past);
      DeniedStep(c, After(c, init, r.past), r.op);
    }
  }

  lemma DeniedStep(c: Config, db: Db, op: Op)
    ensures Apply(c, db, op).0.denied
         <= db.denied + (if op.Logout? && op.access.jti.Some? then {op.access.jti.value} else {})
  {
  }

  lemma {:induction false} HandedWasDrawn(c: Config, init: Db, r: Run, a: AccessToken)
    requires a in Handed(c, init, r)
    ensures a.jti.Some? && a.jti.value in DrawnJtis(r) && a.jti.value in KnownJtis(init, r)
  {
    if a in Handed(c, init, r.past) {
      HandedWasDrawn(c, init, r.past, a);
    } else {
      IssuedJti(c, After(c, init, r.past), r.op);
    }
  }

  /** The id identifies the token. */
  lemma {:induction false} HandedIsUnique(c: Config, init: Db, r: Run, a: AccessToken, b: AccessToken)
    requires Valid(c, init, r) && a in Handed(c, init, r) && b in Handed(c, init, r) && a.jti == b.jti
    ensures a == b
  {
    var past := r.past;
    if Issues(ReplyOf(c, init, r)) {
      IssuedJti(c, After(c, init, past), r.op);
    }
    if a in Handed(c, init, past) {
      HandedWasDrawn(c, init, past, a);
      if b in Handed(c, init, past) {
        HandedIsUnique(c, init, past, a, b);
      }
    } else if b in Handed(c, init, past) {
      HandedWasDrawn(c, init, past, b);
    }
  }

  /** Nobody else's logout refuses it: a token handed out in the run is denied only after a logout that was given it. */
  lemma {:induction false} DeniedOnlyByItsLogout(c: Config, init: Db, r: Run, a: AccessToken)
    requires Valid(c, init, r) && Genuine(c, init, r) && a in Handed(c, init, r)
    ensures a.jti.Some? && (a.jti.value in After(c, init, r).denied ==> LoggedOutWith(r, a))
  {
    var past, op := r.past, r.op;
    DeniedStep(c, After(c, init, past), op);
    HandedWasDrawn(c, init, r, a);
    if a in Handed(c, init, past) {
      HandedWasDrawn(c, init, past, a);
      DeniedOnlyByItsLogout(c, init, past, a);
      if op.Logout? && op.access.jti == a.jti {
        HandedIsUnique(c, init, past, a, op.access);
      }
    } else {
      IssuedJti(c, After(c, init, past), op);
      DeniedIsKnown(c, init, past);
    }
  }
}
