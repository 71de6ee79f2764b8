/** The two tables behind a session, `users` and `refresh_tokens`, and the bulk
    statements the services run against them. */
module SessionRows {
  import opened Wrappers

  datatype UserId = UserId(uuid: string)
  /** SHA-256 of a raw refresh token: the value stored, and looked up, in the table. */
  datatype TokenHash = Sha256(raw: string)

  /** A stored bcrypt hash, known only through the comparison below. */
  datatype PasswordHash = Bcrypt(plain: string)

  predicate Matches(password: string, hash: PasswordHash) {
    hash == Bcrypt(password)
  }

  /** Times are milliseconds since the Unix epoch. */
  datatype User = User(
    password: PasswordHash,
    isActive: bool,
    isDeleted: bool,
    failedLoginAttempts: nat,
    lockedAt: Option<int>,
    sessionEpoch: nat,
    lastSeenAt: Option<int>)

  datatype RefreshToken = RefreshToken(userId: UserId, expiresAt: int, isRevoked: bool, sessionEpoch: nat)

  type Users = map<UserId, User>
  type Tokens = map<TokenHash, RefreshToken>

  /** A row that counts as a usable refresh token, whatever its expiry. */
  predicate Live(tokens: Tokens, hash: TokenHash) {
    hash in tokens && !tokens[hash].isRevoked
  }

  /** `findFirst({ id, isActive: true, deletedAt: null })` finds a row. */
  predicate Usable(users: Users, user: UserId) {
    user in users && users[user].isActive && !users[user].isDeleted
  }

  /** `findFirst({ id, deletedAt: null })` finds a row. */
  predicate Present(users: Users, user: UserId) {
    user in users && !users[user].isDeleted
  }

  /** `updateMany({ token, userId }) -> isRevoked: true`; with or without `isRevoked: false` in the filter. */
  function RevokeToken(tokens: Tokens, hash: TokenHash, user: UserId): (r: Tokens)
  {
    if hash in tokens && tokens[hash].userId == user
    then tokens[hash := tokens[hash].(isRevoked := true)]
    else tokens
  }

  /** `updateMany({ userId }) -> isRevoked: true`. */
  function RevokeAll(tokens: Tokens, user: UserId): (r: Tokens)
  {
    map h | h in tokens ::
      if tokens[h].userId == user then tokens[h].(isRevoked := true) else tokens[h]
  }

  /** `deleteMany({ userId, isRevoked: true, expiresAt < now })`. */
  function Purge(tokens: Tokens, user: UserId, now: int): (r: Tokens)
  {
    map h | h in tokens && !(tokens[h].userId == user && tokens[h].isRevoked && tokens[h].expiresAt < now) ::
      tokens[h]
  }

  /** `findFirst({ userId, isRevoked: false, expiresAt > now })` finds a row. */
  predicate HasLiveSession(tokens: Tokens, user: UserId, now: int) {
    exists h :: h in tokens && tokens[h].userId == user && !tokens[h].isRevoked && tokens[h].expiresAt > now
  }
}
