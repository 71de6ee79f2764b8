/** What every run of whole calls keeps: one live session per user, a permanent cut-off,
    and an exact account of which refused refresh is called a replay. */
module SessionTheorems {
  import opened Wrappers
  import opened SessionRows
  import opened Time
  import opened Session

  // ----- one live session per user -----

  /** Every row belongs to a known user and to an epoch that user has reached. */
  ghost predicate Owned(db: Db) {
    forall h :: h in db.tokens ==>
      && db.tokens[h].userId in db.users
      && db.tokens[h].sessionEpoch <= db.users[db.tokens[h].userId].sessionEpoch
  }

  /** Every live row belongs to the current epoch of its user. */
  ghost predicate Current(db: Db) {
    forall h :: Live(db.tokens, h) && db.tokens[h].userId in db.users ==>
      db.tokens[h].sessionEpoch == db.users[db.tokens[h].userId].sessionEpoch
  }

  /** Two live rows never belong to the same user. */
  ghost predicate Unique(db: Db) {
    forall h, k :: Live(db.tokens, h) && Live(db.tokens, k) && db.tokens[h].userId == db.tokens[k].userId ==> h == k
  }

  ghost predicate SingleSession(db: Db) {
    Owned(db) && Current(db) && Unique(db)
  }

  /** No row appears or changes but for its revocation, and an epoch moves only under revoked rows. */
  ghost predicate Shrinks(db: Db, db': Db) {
    && (forall h :: h in db'.tokens ==>
          h in db.tokens && (db'.tokens[h] == db.tokens[h] || db'.tokens[h] == db.tokens[h].(isRevoked := true)))
    && (forall u :: u in db.users ==> u in db'.users && db.users[u].sessionEpoch <= db'.users[u].sessionEpoch)
    && (forall h :: Live(db'.tokens, h) && db'.tokens[h].userId in db.users ==>
          db'.users[db'.tokens[h].userId].sessionEpoch == db.users[db'.tokens[h].userId].sessionEpoch)
  }

  lemma ShrinkingKeepsOwned(db: Db, db': Db)
    requires Owned(db) && Shrinks(db, db')
    ensures Owned(db')
  {
  }

  lemma ShrinkingKeepsCurrent(db: Db, db': Db)
    requires Owned(db) && Current(db) && Shrinks(db, db')
    ensures Current(db')
  {
  }

  lemma ShrinkingKeepsUnique(db: Db, db': Db)
    requires Unique(db) && Shrinks(db, db')
    ensures Unique(db')
  {
  }

  lemma ShrinkingKeepsSingleSession(db: Db, db': Db)
    requires SingleSession(db) && Shrinks(db, db')
    ensures SingleSession(db')
  {
    ShrinkingKeepsOwned(db, db');
    ShrinkingKeepsCurrent(db, db');
    ShrinkingKeepsUnique(db, db');
  }

  lemma LoginKeepsOwned(c: Config, db: Db, op: Op)
    requires op.Login? && Owned(db)
    ensures Owned(Apply(c, db, op).0)
  {
    var (db', reply) := Apply(c, db, op);
    forall h | h in db'.tokens
      ensures db'.tokens[h].userId in db'.users
           && db'.tokens[h].sessionEpoch <= db'.users[db'.tokens[h].userId].sessionEpoch
    {
      if h in db.tokens && !(reply.LoggedIn? && h == op.newToken) {
        assert db'.tokens[h].userId == db.tokens[h].userId && db'.tokens[h].sessionEpoch == db.tokens[h].sessionEpoch;
      }
    }
  }

  lemma RefreshKeepsOwned(c: Config, db: Db, op: Op)
    requires op.Refresh? && Owned(db)
    ensures Owned(Apply(c, db, op).0)
  {
    var (db', reply) := Apply(c, db, op);
    forall h | h in db'.tokens
      ensures db'.tokens[h].userId in db'.users
           && db'.tokens[h].sessionEpoch <= db'.users[db'.tokens[h].userId].sessionEpoch
    {
      if h in db.tokens && !(reply.Rotated? && h == op.newToken) {
        assert db'.tokens[h].userId == db.tokens[h].userId && db'.tokens[h].sessionEpoch == db.tokens[h].sessionEpoch;
      }
    }
  }

  lemma MintingKeepsCurrent(c: Config, db: Db, op: Op)
    requires (op.Login? || op.Refresh?) && SingleSession(db) && op.newToken !in db.tokens
    ensures Current(Apply(c, db, op).0)
  {
  }

  lemma MintingKeepsUnique(c: Config, db: Db, op: Op)
    requires (op.Login? || op.Refresh?) && SingleSession(db) && op.newToken !in db.tokens
    ensures Unique(Apply(c, db, op).0)
  {
  }

  lemma SweepsShrink(c: Config, db: Db, op: Op)
    requires op.Logout? || op.ForceLogout? || op.ChangePassword? || op.ResetPassword?
    ensures Shrinks(db, Apply(c, db, op).0)
  {
  }

  lemma AccountCallsShrink(c: Config, db: Db, op: Op)
    requires op.UnlockAccount? || op.Validate? || op.CreateUser? || op.SetActive? || op.RemoveUser?
    ensures Shrinks(db, Apply(c, db, op).0)
  {
  }

  lemma OtherCallsShrink(c: Config, db: Db, op: Op)
    requires !op.Login? && !op.Refresh?
    ensures Shrinks(db, Apply(c, db, op).0)
  {
    if op.Logout? || op.ForceLogout? || op.ChangePassword? || op.ResetPassword? {
      SweepsShrink(c, db, op);
    } else {
      AccountCallsShrink(c, db, op);
    }
  }

  lemma {:induction false} TokensWereDrawn(c: Config, init: Db, r: Run)
    requires Valid(c, init, r)
    ensures After(c, init, r).tokens.Keys <= Drawn(r)
  {
    match r
    case Start =>
    case Then(past, op) => TokensWereDrawn(c, init, past);
  }

  lemma {:induction false} SingleLiveSession(c: Config, init: Db, r: Run)
    requires Valid(c, init, r)
    ensures SingleSession(After(c, init, r))
  {
    match r
    case Start =>
    case Then(past, op) =>
      SingleLiveSession(c, init, past);
      TokensWereDrawn(c, init, past);
      if op.Login? || op.Refresh? {
        if op.Login? {
          LoginKeepsOwned(c, After(c, init, past), op);
        } else {
          RefreshKeepsOwned(c, After(c, init, past), op);
        }
        MintingKeepsCurrent(c, After(c, init, past), op);
        MintingKeepsUnique(c, After(c, init, past), op);
      } else {
        OtherCallsShrink(c, After(c, init, past), op);
        ShrinkingKeepsSingleSession(After(c, init, past), After(c, init, r));
      }
  }

  lemma SupersededTokenIsRevoked(c: Config, db: Db, op: Op)
    requires op.Refresh? && SingleSession(db) && Apply(c, db, op).1 == Superseded
    ensures Apply(c, db, op).0 == db
    ensures op.token in db.tokens && db.tokens[op.token].isRevoked
  {
  }

  /** The epoch check after a successful consume never fires: a refresh that is told it was superseded
      has changed nothing, because its token was already revoked. */
  lemma {:induction false} SupersededChangesNothing(c: Config, init: Db, r: Run, op: Op)
    requires Valid(c, init, r) && op.Refresh? && Apply(c, After(c, init, r), op).1 == Superseded
    ensures Apply(c, After(c, init, r), op).0 == After(c, init, r)
    ensures op.token in After(c, init, r).tokens && After(c, init, r).tokens[op.token].isRevoked
  {
    SingleLiveSession(c, init, r);
    SupersededTokenIsRevoked(c, After(c, init, r), op);
  }

  // ----- epochs -----

  /** A completed call that ends every session of `u`. */
  predicate Cuts(op: Op, reply: Reply, u: UserId) {
    || (op.Login? && op.user == u && reply.LoggedIn?)
    || ((op.ForceLogout? || op.ChangePassword? || op.ResetPassword?) && op.user == u && reply.Done?)
  }

  /** How many calls cut the sessions of `u` after prefix `p` of `r`. */
  function CutsSince(c: Config, init: Db, p: Run, r: Run, u: UserId): nat
    requires Prefix(p, r)
  {
    if p == r then 0
    else CutsSince(c, init, p, r.past, u) + if Cuts(r.op, ReplyOf(c, init, r), u) then 1 else 0
  }

  lemma EpochStep(c: Config, db: Db, op: Op, u: UserId)
    requires u in db.users
    ensures u in Apply(c, db, op).0.users
    ensures Apply(c, db, op).0.users[u].sessionEpoch
         == db.users[u].sessionEpoch + if Cuts(op, Apply(c, db, op).1, u) then 1 else 0
  {
  }

  /** The epoch is a count of the completed cuts: it never decreases, and nothing else moves it. */
  lemma {:induction false} EpochCountsCuts(c: Config, init: Db, p: Run, r: Run, u: UserId)
    requires Prefix(p, r) && u in After(c, init, p).users
    ensures u in After(c, init, r).users
    ensures After(c, init, r).users[u].sessionEpoch
         == After(c, init, p).users[u].sessionEpoch + CutsSince(c, init, p, r, u)
  {
    if p != r {
      EpochCountsCuts(c, init, p, r.past, u);
      EpochStep(c, After(c, init, r.past), r.op, u);
    }
  }

  lemma {:induction false} ValidPrefix(c: Config, init: Db, p: Run, r: Run)
    requires Valid(c, init, r) && Prefix(p, r)
    ensures Valid(c, init, p)
  {
    if p != r {
      ValidPrefix(c, init, p, r.past);
    }
  }

  predicate Issues(reply: Reply) {
    reply.LoggedIn? || reply.Rotated?
  }

  lemma IssuedAtCurrentEpoch(c: Config, db: Db, op: Op)
    requires Issues(Apply(c, db, op).1)
    ensures
      var (db', reply) := Apply(c, db, op);
      && reply.access.jti.Some?
      && reply.access.sub in db'.users && db'.users[reply.access.sub].sessionEpoch == EpochOf(reply.access)
  {
  }

  /** An access token handed out by the last call of `p` is accepted at the end of any longer
      run exactly while it is unexpired and not logged out, its user is usable, and no call has cut
      that user's sessions since. */
  lemma {:induction false} AcceptedUntilCut(c: Config, init: Db, p: Run, r: Run, now: int)
    requires Valid(c, init, r) && Prefix(p, r) && p.Then? && Issues(ReplyOf(c, init, p))
    ensures
      var a := ReplyOf(c, init, p).access;
      var db := After(c, init, r);
      a.jti.Some? &&
      (ApplyValidate(db, a, now).1 == Accepted <==>
        && Seconds(now) < a.exp
        && a.jti.value !in db.denied
        && Usable(db.users, a.sub)
        && CutsSince(c, init, p, r, a.sub) == 0)
  {
    var a := ReplyOf(c, init, p).access;
    IssuedAtCurrentEpoch(c, After(c, init, p.past), p.op);
    EpochCountsCuts(c, init, p, r, a.sub);
  }

  lemma {:induction false} CutsOnlyGrow(c: Config, init: Db, p: Run, q: Run, r: Run, u: UserId)
    requires Prefix(p, q) && Prefix(q, r)
    ensures Prefix(p, r)
    ensures CutsSince(c, init, p, q, u) <= CutsSince(c, init, p, r, u)
  {
    if q != r {
      CutsOnlyGrow(c, init, p, q, r.past, u);
      PrefixIsShorter(p, r.past);
    }
  }

  /** One cut is final: an access token whose user was cut by the end of `q` is refused at the end of every longer run,
      at any instant. */
  lemma {:induction false} CutIsFinal(c: Config, init: Db, p: Run, q: Run, r: Run, now: int)
    requires Valid(c, init, r) && Prefix(p, q) && Prefix(q, r) && p.Then? && Issues(ReplyOf(c, init, p))
    requires CutsSince(c, init, p, q, ReplyOf(c, init, p).access.sub) > 0
    ensures ApplyValidate(After(c, init, r), ReplyOf(c, init, p).access, now).1 != Accepted
  {
    CutsOnlyGrow(c, init, p, q, r, ReplyOf(c, init, p).access.sub);
    AcceptedUntilCut(c, init, p, r, now);
  }

  function Length(r: Run): nat {
    match r case Start => 0 case Then(past, _) => Length(past) + 1
  }

  lemma {:induction false} PrefixIsShorter(p: Run, r: Run)
    requires Prefix(p, r)
    ensures Length(p) <= Length(r)
  {
    if p != r {
      PrefixIsShorter(p, r.past);
    }
  }

  // ----- replay or superseded -----

  /** The call that turned a row revoked, as the prefix of the run that ends with it. */
  function KilledBy(c: Config, init: Db, r: Run, h: TokenHash): Option<Run> {
    match r
    case Start => None
    case Then(past, op) =>
      if Live(After(c, init, past).tokens, h) && !Live(After(c, init, r).tokens, h) then Some(r)
      else KilledBy(c, init, past, h)
  }

  /** A row never changes owner, expiry or epoch, and never comes back to life. */
  lemma RowsAreImmutable(c: Config, db: Db, op: Op, h: TokenHash)
    requires op.Login? || op.Refresh? ==> op.newToken != h
    requires h in Apply(c, db, op).0.tokens
    ensures h in db.tokens
    ensures
      var row := Apply(c, db, op).0.tokens[h];
      row == db.tokens[h] || row == db.tokens[h].(isRevoked := true)
  {
  }

  lemma NewRowIsLive(c: Config, db: Db, op: Op)
    requires (op.Login? || op.Refresh?) && op.newToken !in db.tokens
    ensures op.newToken in Apply(c, db, op).0.tokens ==> Live(Apply(c, db, op).0.tokens, op.newToken)
  {
  }

  /** A revoked row was revoked by some call of the run, during the epoch it was issued in. */
  lemma {:induction false} KillerOfRevoked(c: Config, init: Db, r: Run, h: TokenHash)
    requires Valid(c, init, r)
    requires h in After(c, init, r).tokens && After(c, init, r).tokens[h].isRevoked
    ensures KilledBy(c, init, r, h).Some?
    ensures
      var k := KilledBy(c, init, r, h).value;
      var row := After(c, init, r).tokens[h];
      && k.Then? && Prefix(k, r) && Prefix(k.past, r)
      && row.userId in After(c, init, k.past).users
      && row.sessionEpoch == After(c, init, k.past).users[row.userId].sessionEpoch
  {
    var past, op := r.past, r.op;
    var db := After(c, init, past);
    TokensWereDrawn(c, init, past);
    if op.Login? || op.Refresh? {
      NewRowIsLive(c, db, op);
    }
    RowsAreImmutable(c, db, op, h);
    if Live(db.tokens, h) {
      SingleLiveSession(c, init, past);
      assert Prefix(r, r) && Prefix(past, r);
    } else {
      KillerOfRevoked(c, init, past, h);
    }
  }

  /** Exactly when a refresh is answered as a replay: the row is stored for a usable user,
      revoked, and no call has cut that user's sessions from the revoking call on. The revoking call
      itself counts, so a row revoked by a login, a force-logout or a password change is never a replay;
      one revoked by a refresh, a logout or an earlier replay is, until the next cut. */
  lemma {:induction false} ReplayExactly(c: Config, init: Db, r: Run, op: Op)
    requires Valid(c, init, r) && op.Refresh?
    ensures
      var db := After(c, init, r);
      Apply(c, db, op).1 == ReplayDetected <==>
        && Usable(db.users, op.user)
        && op.token in db.tokens && db.tokens[op.token].userId == op.user && db.tokens[op.token].isRevoked
        && KilledBy(c, init, r, op.token).Some?
        && KilledBy(c, init, r, op.token).value.Then?
        && Prefix(KilledBy(c, init, r, op.token).value.past, r)
        && CutsSince(c, init, KilledBy(c, init, r, op.token).value.past, r, op.user) == 0
  {
    var db := After(c, init, r);
    if op.token in db.tokens && db.tokens[op.token].userId == op.user && db.tokens[op.token].isRevoked {
      KillerOfRevoked(c, init, r, op.token);
      EpochCountsCuts(c, init, KilledBy(c, init, r, op.token).value.past, r, op.user);
    }
  }

  /** The call that cuts a row's session also cuts it out of replay: at the moment of the cut and ever after. */
  lemma {:induction false} CutRowIsNeverReplay(c: Config, init: Db, r: Run, op: Op)
    requires Valid(c, init, r) && op.Refresh?
    requires KilledBy(c, init, r, op.token).Some?
    requires
      var k := KilledBy(c, init, r, op.token).value;
      k.Then? && Prefix(k, r) && Cuts(k.op, ReplyOf(c, init, k), op.user)
    ensures Apply(c, After(c, init, r), op).1 != ReplayDetected
  {
    var k := KilledBy(c, init, r, op.token).value;
    ReplayExactly(c, init, r, op);
    assert Prefix(k.past, k);
    assert k.past != k;
    assert CutsSince(c, init, k.past, k, op.user) == 1;
    CutsOnlyGrow(c, init, k.past, k, r, op.user);
  }

  /** Presenting a refresh token of an older epoch changes nothing at all. */
  lemma {:induction false} OlderTokenIsHarmless(c: Config, init: Db, r: Run, op: Op)
    requires Valid(c, init, r) && op.Refresh?
    requires
      var db := After(c, init, r);
      && Usable(db.users, op.user) && op.token in db.tokens && db.tokens[op.token].userId == op.user
      && db.tokens[op.token].sessionEpoch != db.users[op.user].sessionEpoch
    ensures Apply(c, After(c, init, r), op) == (After(c, init, r), Superseded)
  {
    SingleLiveSession(c, init, r);
  }

  // ----- logout -----

  lemma DeniedStays(c: Config, db: Db, op: Op)
    ensures db.denied <= Apply(c, db, op).0.denied
  {
  }

  /** An access token given to a logout is never accepted again, whatever runs in between. */
  lemma {:induction false} LogoutIsPermanent(c: Config, init: Db, p: Run, r: Run, now: int)
    requires Prefix(p, r) && p.Then? && p.op.Logout? && p.op.access.jti.Some? && p.op.now <= now
    ensures p.op.access.exp > Seconds(p.op.now) ==> p.op.access.jti.value in After(c, init, r).denied
    ensures ApplyValidate(After(c, init, r), p.op.access, now).1 != Accepted
  {
    if p != r {
      LogoutIsPermanent(c, init, p, r.past, now);
      DeniedStays(c, After(c, init, r.past), r.op);
    }
  }
}
