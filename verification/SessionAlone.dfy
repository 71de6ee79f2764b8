/** The two granularities agree: a call whose statements run one after the other, with nothing in
    between, has exactly the effect and the outcome of the whole call. */
module SessionAlone {
  import opened Wrappers
  import opened SessionRows
  import opened SessionSteps
  import opened Time
  import S = Session

  function Tables(s: State, denied: set<string>): S.Db {
    S.Db(s.users, s.tokens, denied)
  }

  predicate Settled(call: Call) {
    call.Finished? || call.RefreshDone? || call.LoginDone?
  }

  lemma {:induction false} SettledStays(c: Config, s: State, id: CallId, now: int, drawn: TokenHash, n: nat)
    requires id in s.calls && Settled(s.calls[id])
    ensures AdvanceTimes(c, s, id, now, drawn, n) == s
    decreases n
  {
    if n > 0 {
      assert s.calls[id := s.calls[id]] == s.calls;
      SettledStays(c, s, id, now, drawn, n - 1);
    }
  }

  /** Once the checks have passed, two statements remain. */
  lemma {:induction false} CheckedAlone(c: Config, s: State, id: CallId, now: int, drawn: TokenHash, n: nat)
    requires n >= 2 && id in s.calls && s.calls[id].RefreshChecked? && s.calls[id].user in s.users
    ensures
      var call, end := s.calls[id], AdvanceTimes(c, s, id, now, drawn, n);
      && end.users == s.users[call.user := s.users[call.user].(lastSeenAt := Some(now))]
      && end.tokens == s.tokens[drawn := RefreshToken(call.user, call.expiresAt, false, call.epoch)]
      && id in end.calls
      && end.calls[id] == RefreshDone(call.user, call.token, call.epoch, call.expiresAt, drawn)
  {
    var s1 := Next(c, s, id, now, drawn);
    assert s1.users == s.users;
    SettledStays(c, Next(c, s1, id, now, drawn), id, now, drawn, n - 2);
  }

  lemma {:induction false} ConsumedAlone(c: Config, s: State, id: CallId, now: int, drawn: TokenHash, n: nat)
    requires n >= 3 && id in s.calls && s.calls[id].RefreshConsumed? && s.calls[id].user in s.users
    ensures
      var call, end := s.calls[id], AdvanceTimes(c, s, id, now, drawn, n);
      id in end.calls &&
      if call.token in s.tokens && s.tokens[call.token].userId == call.user
         && now <= s.tokens[call.token].expiresAt && s.tokens[call.token].sessionEpoch == call.epoch
      then
        && end.users == s.users[call.user := s.users[call.user].(lastSeenAt := Some(now))]
        && end.tokens == s.tokens[drawn := RefreshToken(call.user, s.tokens[call.token].expiresAt, false, call.epoch)]
        && end.calls[id] == RefreshDone(call.user, call.token, call.epoch, s.tokens[call.token].expiresAt, drawn)
      else end.users == s.users && end.tokens == s.tokens && end.calls[id].Finished?
  {
    var s1 := Next(c, s, id, now, drawn);
    assert s1.users == s.users && s1.tokens == s.tokens;
    if s1.calls[id].RefreshChecked? {
      CheckedAlone(c, s1, id, now, drawn, n - 1);
    } else {
      SettledStays(c, s1, id, now, drawn, n - 1);
    }
  }

  lemma {:induction false} MissedAlone(c: Config, s: State, id: CallId, now: int, drawn: TokenHash, n: nat)
    requires n >= 3 && id in s.calls && s.calls[id].RefreshMissed? && s.calls[id].user in s.users
    ensures
      var call, end := s.calls[id], AdvanceTimes(c, s, id, now, drawn, n);
      && id in end.calls && end.calls[id].Finished? && end.users == s.users
      && end.tokens == if call.token in s.tokens && s.tokens[call.token].userId == call.user
                          && s.tokens[call.token].sessionEpoch == call.epoch && s.tokens[call.token].isRevoked
                       then RevokeAll(s.tokens, call.user) else s.tokens
  {
    var s1 := Next(c, s, id, now, drawn);
    assert s1.users == s.users && s1.tokens == s.tokens;
    if s1.calls[id].RefreshReplay? {
      var s2 := Next(c, s1, id, now, drawn);
      assert s2.users == s.users;
      SettledStays(c, s2, id, now, drawn, n - 2);
    } else {
      SettledStays(c, s1, id, now, drawn, n - 1);
    }
  }

  /** A refresh left alone for its statements does what the whole call does, and hands out the same credentials. */
  lemma {:induction false} RefreshAlone(c: Config, s: State, id: CallId, u: UserId, token: TokenHash, drawn: TokenHash,
      jti: string, now: int, denied: set<string>, n: nat)
    requires n >= 4 && id !in s.calls
    ensures
      var begun := Step(c, s, BeginRefresh(id, u, token));
      var end := AdvanceTimes(c, begun, id, now, drawn, n);
      var (db, reply) := S.ApplyRefresh(c, Tables(s, denied), u, token, drawn, jti, now);
      && Tables(end, denied) == db
      && id in end.calls && (reply.Rotated? <==> end.calls[id].RefreshDone?)
      && (reply.Rotated? ==>
            reply.refresh == end.calls[id].successor && reply.access.epoch == Some(end.calls[id].epoch))
  {
    var s0 := Step(c, s, BeginRefresh(id, u, token));
    if s0.calls[id].Finished? {
      SettledStays(c, s0, id, now, drawn, n);
    } else {
      var s1 := Next(c, s0, id, now, drawn);
      assert s1.users == s.users;
      if s1.calls[id].RefreshConsumed? {
        ConsumedAlone(c, s1, id, now, drawn, n - 1);
      } else {
        assert s1.tokens == s.tokens;
        MissedAlone(c, s1, id, now, drawn, n - 1);
      }
    }
  }

  /** The rows a login leaves, from the rows it finds once its user is bumped to `epoch`. */
  function RowsAfterLogin(c: Config, tokens: Tokens, u: UserId, epoch: nat, drawn: TokenHash, now: int): Tokens {
    Purge(RevokeAll(tokens, u)[drawn := RefreshToken(u, now + c.refreshMs, false, epoch)], u, now)
  }

  lemma {:induction false} SweptAlone(c: Config, s: State, id: CallId, now: int, drawn: TokenHash, n: nat)
    requires n >= 2 && id in s.calls && s.calls[id].LoginSwept?
    ensures
      var call, end := s.calls[id], AdvanceTimes(c, s, id, now, drawn, n);
      && end.users == s.users
      && end.tokens
          == Purge(s.tokens[drawn := RefreshToken(call.user, now + c.refreshMs, false, call.epoch)], call.user, now)
      && id in end.calls && end.calls[id] == LoginDone(call.user, call.epoch)
  {
    var s1 := Next(c, s, id, now, drawn);
    assert s1.calls[id] == LoginMinted(s.calls[id].user, s.calls[id].epoch);
    SettledStays(c, Next(c, s1, id, now, drawn), id, now, drawn, n - 2);
  }

  lemma {:induction false} SweepNext(c: Config, s: State, id: CallId, now: int, drawn: TokenHash)
    requires id in s.calls && s.calls[id].LoginBumped?
    ensures
      var call, s1 := s.calls[id], Next(c, s, id, now, drawn);
      && s1.users == s.users && s1.tokens == RevokeAll(s.tokens, call.user)
      && id in s1.calls && s1.calls[id] == LoginSwept(call.user, call.epoch)
  {
  }

  lemma {:induction false} OneAndTheRest(c: Config, s: State, id: CallId, now: int, drawn: TokenHash, n: nat)
    requires n >= 1 && id in s.calls
    ensures id in Next(c, s, id, now, drawn).calls
    ensures AdvanceTimes(c, s, id, now, drawn, n) == AdvanceTimes(c, Next(c, s, id, now, drawn), id, now, drawn, n - 1)
  {
  }

  lemma {:induction false} BumpedAlone(c: Config, s: State, id: CallId, now: int, drawn: TokenHash, n: nat)
    requires n >= 3 && id in s.calls && s.calls[id].LoginBumped?
    ensures
      var call, end := s.calls[id], AdvanceTimes(c, s, id, now, drawn, n);
      && end.users == s.users && end.tokens == RowsAfterLogin(c, s.tokens, call.user, call.epoch, drawn, now)
      && id in end.calls && end.calls[id] == LoginDone(call.user, call.epoch)
  {
    SweepNext(c, s, id, now, drawn);
    OneAndTheRest(c, s, id, now, drawn, n);
    SweptAlone(c, Next(c, s, id, now, drawn), id, now, drawn, n - 1);
  }

  lemma {:induction false} ClearAlone(c: Config, s: State, id: CallId, now: int, drawn: TokenHash, n: nat)
    requires n >= 4 && id in s.calls && s.calls[id].LoginClear? && s.calls[id].user in s.users
    requires s.users[s.calls[id].user].sessionEpoch == s.calls[id].epoch
    ensures
      var call, end := s.calls[id], AdvanceTimes(c, s, id, now, drawn, n);
      && end.users == s.users[call.user := S.OpenSession(s.users[call.user], now)]
      && end.tokens == RowsAfterLogin(c, s.tokens, call.user, call.epoch + 1, drawn, now)
      && id in end.calls && end.calls[id] == LoginDone(call.user, call.epoch + 1)
  {
    BumpedAlone(c, Next(c, s, id, now, drawn), id, now, drawn, n - 1);
  }

  predicate Blocked(c: Config, s: State, call: Call, now: int)
    requires call.LoginRead?
  {
    HasLiveSession(s.tokens, call.user, now) && call.lastSeenAt.Some? && call.lastSeenAt.value > now - c.idleMs
  }

  lemma {:induction false} BlockedAlone(c: Config, s: State, id: CallId, now: int, drawn: TokenHash, n: nat)
    requires n >= 1 && id in s.calls && s.calls[id].LoginRead? && Blocked(c, s, s.calls[id], now)
    ensures AdvanceTimes(c, s, id, now, drawn, n) == s.(calls := s.calls[id := Finished])
  {
    var s1 := s.(calls := s.calls[id := Finished]);
    SettledStays(c, s1, id, now, drawn, n - 1);
    assert Next(c, s, id, now, drawn) == s1;
  }

  lemma {:induction false} UnblockedAlone(c: Config, s: State, id: CallId, now: int, drawn: TokenHash, n: nat)
    requires n >= 5 && id in s.calls && s.calls[id].LoginRead? && !Blocked(c, s, s.calls[id], now)
    requires s.calls[id].user in s.users && s.users[s.calls[id].user].sessionEpoch == s.calls[id].epoch
    ensures
      var call, end := s.calls[id], AdvanceTimes(c, s, id, now, drawn, n);
      && end.users == s.users[call.user := S.OpenSession(s.users[call.user], now)]
      && end.tokens == RowsAfterLogin(c, s.tokens, call.user, call.epoch + 1, drawn, now)
      && id in end.calls && end.calls[id] == LoginDone(call.user, call.epoch + 1)
  {
    var s1 := s.(calls := s.calls[id := LoginClear(s.calls[id].user, s.calls[id].epoch)]);
    ClearAlone(c, s1, id, now, drawn, n - 1);
    assert Next(c, s, id, now, drawn) == s1;
  }

  lemma {:induction false} WrongAlone(c: Config, s: State, id: CallId, now: int, drawn: TokenHash, n: nat)
    requires n >= 3 && id in s.calls && s.calls[id].LoginWrong? && s.calls[id].user in s.users
    requires s.users[s.calls[id].user].lockedAt == None
    ensures
      var call, end := s.calls[id], AdvanceTimes(c, s, id, now, drawn, n);
      && end.users == s.users[call.user := S.CountFailure(c, s.users[call.user], now)]
      && end.tokens == s.tokens && id in end.calls && end.calls[id].Finished?
  {
    var s1 := Next(c, s, id, now, drawn);
    if s1.calls[id].LoginCounted? {
      SettledStays(c, Next(c, s1, id, now, drawn), id, now, drawn, n - 2);
    } else {
      SettledStays(c, s1, id, now, drawn, n - 1);
    }
  }

  lemma {:induction false} BlockedLoginAlone(c: Config, s: State, id: CallId, u: UserId, password: string,
      drawn: TokenHash, jti: string, now: int, denied: set<string>, n: nat)
    requires n >= 5 && id !in s.calls && ReadForLogin(s, u, password).LoginRead?
    requires HasLiveSession(s.tokens, u, now) && S.RecentlyActive(c, s.users[u], now)
    ensures
      var end := AdvanceTimes(c, Step(c, s, BeginLogin(id, u, password)), id, now, drawn, n);
      && (Tables(end, denied), S.ActiveSession) == S.ApplyLogin(c, Tables(s, denied), u, password, drawn, jti, now)
      && id in end.calls && end.calls[id].Finished?
  {
    BlockedAlone(c, s.(calls := s.calls[id := ReadForLogin(s, u, password)]), id, now, drawn, n);
  }

  lemma {:induction false} UnblockedLoginAlone(c: Config, s: State, id: CallId, u: UserId, password: string,
      drawn: TokenHash, jti: string, now: int, denied: set<string>, n: nat)
    requires n >= 5 && id !in s.calls && ReadForLogin(s, u, password).LoginRead?
    requires !(HasLiveSession(s.tokens, u, now) && S.RecentlyActive(c, s.users[u], now))
    ensures
      var end := AdvanceTimes(c, Step(c, s, BeginLogin(id, u, password)), id, now, drawn, n);
      var (db, reply) := S.ApplyLogin(c, Tables(s, denied), u, password, drawn, jti, now);
      Tables(end, denied) == db && reply.LoggedIn? && id in end.calls && end.calls[id].LoginDone?
  {
    var s0 := Step(c, s, BeginLogin(id, u, password));
    assert s0.users == s.users && s0.tokens == s.tokens && s0.calls[id] == ReadForLogin(s, u, password);
    UnblockedAlone(c, s0, id, now, drawn, n);
  }

  /** A login left alone for its statements does what the whole call does. */
  lemma {:induction false} LoginAlone(c: Config, s: State, id: CallId, u: UserId, password: string, drawn: TokenHash,
      jti: string, now: int, denied: set<string>, n: nat)
    requires n >= 5 && id !in s.calls
    ensures
      var end := AdvanceTimes(c, Step(c, s, BeginLogin(id, u, password)), id, now, drawn, n);
      var (db, reply) := S.ApplyLogin(c, Tables(s, denied), u, password, drawn, jti, now);
      Tables(end, denied) == db && id in end.calls && (reply.LoggedIn? <==> end.calls[id].LoginDone?)
  {
    var s0 := Step(c, s, BeginLogin(id, u, password));
    match ReadForLogin(s, u, password) {
      case LoginRead(_, _, _) =>
        if HasLiveSession(s.tokens, u, now) && S.RecentlyActive(c, s.users[u], now) {
          BlockedLoginAlone(c, s, id, u, password, drawn, jti, now, denied, n);
        } else {
          UnblockedLoginAlone(c, s, id, u, password, drawn, jti, now, denied, n);
        }
      case LoginWrong(_) => WrongAlone(c, s0, id, now, drawn, n);
      case _ => SettledStays(c, s0, id, now, drawn, n);
    }
  }

  lemma {:induction false} CutReadAlone(c: Config, s: State, id: CallId, now: int, drawn: TokenHash, n: nat)
    requires n >= 2 && id in s.calls && s.calls[id].CutRead? && s.calls[id].user in s.users
    ensures
      var call, end := s.calls[id], AdvanceTimes(c, s, id, now, drawn, n);
      && end.users == s.users[call.user := NextUser(call, s.users[call.user], now)]
      && end.tokens == RevokeAll(s.tokens, call.user)
  {
    SettledStays(c, Next(c, Next(c, s, id, now, drawn), id, now, drawn), id, now, drawn, n - 2);
  }

  /** So do a force-logout and, past its checks, a password change. */
  lemma {:induction false} ForceLogoutAlone(c: Config, s: State, id: CallId, u: UserId, drawn: TokenHash, now: int,
      denied: set<string>, n: nat)
    requires n >= 2 && id !in s.calls
    ensures
      var end := AdvanceTimes(c, Step(c, s, BeginCut(id, u, ByForceLogout)), id, now, drawn, n);
      Tables(end, denied) == S.ApplyForceLogout(Tables(s, denied), u).0
  {
    var s0 := Step(c, s, BeginCut(id, u, ByForceLogout));
    if s0.calls[id].Finished? {
      SettledStays(c, s0, id, now, drawn, n);
    } else {
      CutReadAlone(c, s0, id, now, drawn, n);
    }
  }

  lemma {:induction false} ChangePasswordAlone(c: Config, s: State, id: CallId, u: UserId, password: string,
      drawn: TokenHash, now: int, denied: set<string>, n: nat)
    requires n >= 2 && id !in s.calls && u in s.users
    ensures
      var end := AdvanceTimes(c, Step(c, s, BeginCut(id, u, ByPassword(password))), id, now, drawn, n);
      Tables(end, denied) == S.SetPassword(Tables(s, denied), u, password)
  {
    CutReadAlone(c, Step(c, s, BeginCut(id, u, ByPassword(password))), id, now, drawn, n);
  }

  /** And a logout, but for the denylist, which is no statement. */
  lemma {:induction false} LogoutAlone(c: Config, s: State, id: CallId, u: UserId, token: TokenHash,
      access: S.AccessToken, drawn: TokenHash, now: int, denied: set<string>, n: nat)
    requires n >= 1 && id !in s.calls
    ensures
      var end := AdvanceTimes(c, Step(c, s, BeginLogout(id, u, token)), id, now, drawn, n);
      var db := S.ApplyLogout(Tables(s, denied), u, token, access, now).0;
      end.users == db.users && end.tokens == db.tokens
  {
    var s0 := Step(c, s, BeginLogout(id, u, token));
    SettledStays(c, Next(c, s0, id, now, drawn), id, now, drawn, n - 1);
  }

  lemma {:induction false} UnlockNext(c: Config, s: State, id: CallId, u: UserId, now: int, drawn: TokenHash)
    requires id in s.calls && s.calls[id] == UnlockRead(u) && u in s.users
    ensures
      var s1 := Next(c, s, id, now, drawn);
      && s1.users == s.users[u := s.users[u].(failedLoginAttempts := 0, lockedAt := None)] && s1.tokens == s.tokens
      && id in s1.calls && s1.calls[id].Finished?
  {
  }

  lemma {:induction false} UnlockAlone(c: Config, s: State, id: CallId, u: UserId, drawn: TokenHash, now: int,
      denied: set<string>, n: nat)
    requires n >= 1 && id !in s.calls
    ensures
      var end := AdvanceTimes(c, Step(c, s, BeginUnlock(id, u)), id, now, drawn, n);
      Tables(end, denied) == S.ApplyUnlock(Tables(s, denied), u).0
  {
    var s0 := Step(c, s, BeginUnlock(id, u));
    if s0.calls[id].Finished? {
      SettledStays(c, s0, id, now, drawn, n);
    } else {
      OneAndTheRest(c, s0, id, now, drawn, n);
      UnlockNext(c, s0, id, u, now, drawn);
      SettledStays(c, Next(c, s0, id, now, drawn), id, now, drawn, n - 1);
    }
  }

  lemma {:induction false} StampNext(c: Config, s: State, id: CallId, u: UserId, at: int, later: int, drawn: TokenHash)
    requires id in s.calls && s.calls[id] == Stamping(u, at) && u in s.users
    ensures
      var s1 := Next(c, s, id, later, drawn);
      && s1.users == s.users[u := s.users[u].(lastSeenAt := Some(at))] && s1.tokens == s.tokens
      && id in s1.calls && s1.calls[id].Finished?
  {
  }

  /** And a validation of an access token that is unexpired and not denied; of any other it runs no statement. */
  lemma {:induction false} ValidateAlone(c: Config, s: State, id: CallId, access: S.AccessToken, drawn: TokenHash,
      now: int, later: int, denied: set<string>, n: nat)
    requires n >= 1 && id !in s.calls
    requires Seconds(now) < access.exp && (access.jti.Some? ==> access.jti.value !in denied)
    ensures
      var begun := Step(c, s, BeginValidate(id, access.sub, S.EpochOf(access), now));
      var end := AdvanceTimes(c, begun, id, later, drawn, n);
      Tables(end, denied) == S.ApplyValidate(Tables(s, denied), access, now).0
  {
    var s0 := Step(c, s, BeginValidate(id, access.sub, S.EpochOf(access), now));
    if s0.calls[id].Finished? {
      SettledStays(c, s0, id, later, drawn, n);
    } else {
      StampNext(c, s0, id, access.sub, now, later, drawn);
      OneAndTheRest(c, s0, id, later, drawn, n);
      SettledStays(c, Next(c, s0, id, later, drawn), id, later, drawn, n - 1);
    }
  }
}
