/** The services themselves: every method runs its statements in the order of the source and is proved
    to have the effect and the answer of the whole call in module Session. */
module AuthServices {
  import opened Wrappers
  import opened SessionRows
  import opened Time
  import opened Session
  import R = Roles

  /** The tables, and the denylist as the set of token ids it was given. */
  class Store {
    var users: Users
    var tokens: Tokens
    var denied: set<string>

    constructor (users: Users)
      ensures Rows() == Db(users, map[], {})
    {
      this.users, tokens, denied := users, map[], {};
    }

    function Rows(): Db
      reads this
    {
      Db(users, tokens, denied)
    }

    /** `updateMany({ token, userId, isRevoked: false })`: the number of rows it changed. */
    method ConsumeToken(hash: TokenHash, user: UserId) returns (count: nat)
      modifies this`tokens
      ensures count == if Live(old(tokens), hash) && old(tokens)[hash].userId == user then 1 else 0
      ensures tokens == RevokeToken(old(tokens), hash, user)
      ensures count == 0 ==> tokens == old(tokens)
    {
      if hash in tokens && tokens[hash].userId == user && !tokens[hash].isRevoked {
        tokens := tokens[hash := tokens[hash].(isRevoked := true)];
        count := 1;
      } else {
        assert hash in tokens && tokens[hash].userId == user ==>
                 tokens[hash := tokens[hash].(isRevoked := true)] == tokens;
        count := 0;
      }
    }

    method RevokeUser(user: UserId)
      modifies this`tokens
      ensures tokens == RevokeAll(old(tokens), user)
    {
      tokens := RevokeAll(tokens, user);
    }
  }

  /** A table that gained one live row and lost no more than the revoked and expired rows of `u`, and all of them. */
  lemma OnlyExpiredWent(before: Tokens, after: Tokens, u: UserId, newToken: TokenHash, row: RefreshToken, now: int)
    requires newToken in after && after[newToken] == row && !row.isRevoked
    requires forall h :: h in after && h != newToken ==> h in before && after[h] == before[h]
    requires forall h :: h in before && h !in after ==>
               before[h].userId == u && before[h].isRevoked && before[h].expiresAt < now
    requires forall h :: h in after && after[h].userId == u && after[h].isRevoked ==> now <= after[h].expiresAt
    ensures after == Purge(before[newToken := row], u, now)
  {
  }

  class AuthService {
    const store: Store
    const config: Config

    constructor (store: Store, config: Config)
      ensures this.store == store && this.config == config
    {
      this.store, this.config := store, config;
    }

    method Login(u: UserId, password: string, newToken: TokenHash, jti: string, now: int) returns (reply: Reply)
      modifies store
      ensures (store.Rows(), reply) == ApplyLogin(config, old(store.Rows()), u, password, newToken, jti, now)
    {
      if !Present(store.users, u) {
        return InvalidCredentials(NoSuchUser);
      }
      var user := store.users[u];
      var passwordMatch := Matches(password, user.password);
      if user.lockedAt.Some? {
        return Locked;
      }
      if !user.isActive || !passwordMatch {
        if user.isActive && !passwordMatch {
          var attempts := user.failedLoginAttempts + 1;
          store.users := store.users[u := user.(failedLoginAttempts := attempts)];
          if attempts >= config.maxAttempts {
            store.users := store.users[u := store.users[u].(lockedAt := Some(now))];
          }
          assert store.users == old(store.users)[u := CountFailure(config, user, now)];
        }
        return InvalidCredentials(if !user.isActive then InactiveUser else WrongPassword);
      }
      var activeSession := HasLiveSession(store.tokens, u, now);
      var recentlyActive := user.lastSeenAt.Some? && user.lastSeenAt.value > now - config.idleMs;
      if activeSession && recentlyActive {
        return ActiveSession;
      }
      var nextEpoch := user.sessionEpoch + 1;
      store.users := store.users[u := user.(failedLoginAttempts := 0, lockedAt := None,
                                            sessionEpoch := nextEpoch, lastSeenAt := Some(now))];
      store.RevokeUser(u);
      ghost var revoked := store.tokens;
      var access := GenerateTokens(u, nextEpoch, newToken, jti, now);
      ghost var row := RefreshToken(u, now + config.refreshMs, false, nextEpoch);
      OnlyExpiredWent(revoked, store.tokens, u, newToken, row, now);
      return LoggedIn(newToken, access);
    }

    method GenerateTokens(u: UserId, epoch: nat, newToken: TokenHash, jti: string, now: int)
      returns (access: AccessToken)
      modifies store`tokens
      ensures access == Mint(config, u, jti, epoch, now)
      ensures newToken in store.tokens
          && store.tokens[newToken] == RefreshToken(u, now + config.refreshMs, false, epoch)
      ensures forall h :: h in store.tokens && h != newToken ==>
                h in old(store.tokens) && store.tokens[h] == old(store.tokens)[h]
      ensures forall h :: h in old(store.tokens) && h !in store.tokens ==>
                && old(store.tokens)[h].userId == u && old(store.tokens)[h].isRevoked
                && old(store.tokens)[h].expiresAt < now
      ensures forall h :: h in store.tokens && store.tokens[h].userId == u && store.tokens[h].isRevoked ==>
                now <= store.tokens[h].expiresAt
    {
      access := Mint(config, u, jti, epoch, now);
      var expiresAt := now + config.refreshMs;
      store.tokens := store.tokens[newToken := RefreshToken(u, expiresAt, false, epoch)];
      store.tokens := Purge(store.tokens, u, now);
    }

    method RefreshTokens(u: UserId, token: TokenHash, newToken: TokenHash, jti: string, now: int) returns (reply: Reply)
      modifies store
      ensures (store.Rows(), reply) == ApplyRefresh(config, old(store.Rows()), u, token, newToken, jti, now)
    {
      if !Usable(store.users, u) {
        return UserNotFound;
      }
      var user := store.users[u];
      var count := store.ConsumeToken(token, u);
      if count == 0 {
        if token in store.tokens && store.tokens[token].userId == u {
          var existing := store.tokens[token];
          if existing.sessionEpoch != user.sessionEpoch {
            return Superseded;
          }
          if existing.isRevoked {
            store.RevokeUser(u);
            return ReplayDetected;
          }
        }
        return InvalidRefresh;
      }
      var stored := store.tokens[token];
      if stored.expiresAt < now {
        return RefreshExpired;
      }
      if stored.sessionEpoch != user.sessionEpoch {
        return Superseded;
      }
      store.tokens := store.tokens[newToken := RefreshToken(u, stored.expiresAt, false, user.sessionEpoch)];
      store.users := store.users[u := user.(lastSeenAt := Some(now))];
      return Rotated(newToken, Mint(config, u, jti, user.sessionEpoch, now));
    }

    method Logout(u: UserId, token: TokenHash, access: AccessToken, now: int) returns (reply: Reply)
      modifies store
      ensures (store.Rows(), reply) == ApplyLogout(old(store.Rows()), u, token, access, now)
    {
      var _ := store.ConsumeToken(token, u);
      if access.jti.Some? {
        var ttl := access.exp - Seconds(now);
        if ttl > 0 {
          store.denied := store.denied + {access.jti.value};
        }
      }
      if u !in store.users {
        return UserNotFound;
      }
      store.users := store.users[u := store.users[u].(lastSeenAt := None)];
      return Done;
    }

    method UnlockAccount(u: UserId) returns (reply: Reply)
      modifies store
      ensures (store.Rows(), reply) == ApplyUnlock(old(store.Rows()), u)
    {
      if !Present(store.users, u) {
        return UserNotFound;
      }
      store.users := store.users[u := store.users[u].(failedLoginAttempts := 0, lockedAt := None)];
      return Done;
    }

    method ForceLogout(u: UserId) returns (reply: Reply)
      modifies store
      ensures (store.Rows(), reply) == ApplyForceLogout(old(store.Rows()), u)
    {
      if !Present(store.users, u) {
        return UserNotFound;
      }
      var user := store.users[u];
      store.users := store.users[u := user.(sessionEpoch := user.sessionEpoch + 1, lastSeenAt := None)];
      store.RevokeUser(u);
      return Done;
    }

    method ChangePassword(u: UserId, current: string, password: string) returns (reply: Reply)
      modifies store
      ensures (store.Rows(), reply) == ApplyChangePassword(old(store.Rows()), u, current, password)
    {
      if u !in store.users {
        return UserNotFound;
      }
      var user := store.users[u];
      if !Matches(current, user.password) {
        return WrongCurrentPassword;
      }
      store.users := store.users[u := user.(password := Bcrypt(password), sessionEpoch := user.sessionEpoch + 1)];
      store.RevokeUser(u);
      return Done;
    }

    /** `targetRoles` are the kinds of the roles that the target holds. */
    method ResetPassword(u: UserId, password: string, requesterRoles: seq<R.RoleType>, targetRoles: seq<R.RoleType>)
      returns (reply: Reply)
      modifies store
      ensures (store.Rows(), reply)
           == ApplyResetPassword(old(store.Rows()), u, password, requesterRoles, targetRoles)
    {
      if !Present(store.users, u) {
        return UserNotFound;
      }
      if R.SUPER_ADMIN !in requesterRoles {
        var allowedTargets := {R.MATRIZADOR, R.ARCHIVADOR};
        var canReset := forall t :: t in targetRoles ==> t in allowedTargets;
        if !canReset {
          return NotPermitted;
        }
      }
      var user := store.users[u];
      store.users := store.users[u := user.(password := Bcrypt(password), sessionEpoch := user.sessionEpoch + 1)];
      store.RevokeUser(u);
      return Done;
    }
  }

  class JwtStrategy {
    const store: Store

    constructor (store: Store)
      ensures this.store == store
    {
      this.store := store;
    }

    method Validate(payload: AccessToken, now: int) returns (reply: Reply)
      modifies store`users
      ensures (store.Rows(), reply) == ApplyValidate(old(store.Rows()), payload, now)
    {
      if Seconds(now) >= payload.exp {
        return AccessExpired;
      }
      if payload.jti.Some? && payload.jti.value in store.denied {
        return AccessDenied;
      }
      if !Usable(store.users, payload.sub) {
        return UserNotFound;
      }
      var user := store.users[payload.sub];
      var claimed := match payload.epoch case Some(e) => e case None => 0;
      if claimed != user.sessionEpoch {
        return Superseded;
      }
      if user.lastSeenAt.None? || now - user.lastSeenAt.value > STAMP_INTERVAL_MS {
        store.users := store.users[payload.sub := user.(lastSeenAt := Some(now))];
      }
      return Accepted;
    }
  }
}
