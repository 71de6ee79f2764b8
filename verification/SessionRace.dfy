/** Runs in which the conditions of `SessionEpochs` fail: whenever a user can log in, two logins run beside each
    other can leave that user two live sessions at the current epoch, or bring a cut access token back. */
module SessionRace {
  import opened Wrappers
  import opened SessionRows
  import opened SessionSteps
  import opened SessionBaton
  import opened SessionEpochs
  import opened Time
  import S = Session

  /** The user could log in with `password` and would not be refused. */
  predicate CanLogin(c: Config, s: State, u: UserId, password: string, now: int) {
    && Usable(s.users, u) && s.users[u].lockedAt.None? && Matches(password, s.users[u].password)
    && !(HasLiveSession(s.tokens, u, now) && S.RecentlyActive(c, s.users[u], now))
  }

  /** `i` and `j` are two calls about to do `first` and `second`. */
  ghost predicate Beside(c: Config, r: Run, u: UserId, i: CallId, first: Call, j: CallId, second: Call, epoch: nat) {
    var s := After(c, r);
    && Valid(c, r)
    && i != j && i in s.calls && j in s.calls && s.calls[i] == first && s.calls[j] == second
    && u in s.users && s.users[u].sessionEpoch == epoch
  }

  function Begun(p: Run, u: UserId, password: string, i: CallId, j: CallId): Run {
    Then(Then(p, BeginLogin(i, u, password)), BeginLogin(j, u, password))
  }

  /** One statement of each login, at one instant. */
  function Turn(p: Run, i: CallId, h: TokenHash, j: CallId, k: TokenHash, now: int): Run {
    Then(Then(p, Advance(i, now, h)), Advance(j, now, k))
  }

  lemma {:induction false} BothBegin(c: Config, p: Run, u: UserId, password: string, now: int, i: CallId, j: CallId)
    requires Valid(c, p) && CanLogin(c, After(c, p), u, password, now)
    requires i != j && i !in After(c, p).calls && j !in After(c, p).calls
    ensures
      var s, s' := After(c, p), After(c, Begun(p, u, password, i, j));
      var row := s.users[u];
      var read := LoginRead(u, row.sessionEpoch, row.lastSeenAt);
      && Beside(c, Begun(p, u, password, i, j), u, i, read, j, read, row.sessionEpoch)
      && s'.users == s.users && s'.tokens == s.tokens && s'.lineage == s.lineage
  {
    var one := Then(p, BeginLogin(i, u, password));
    assert After(c, one).calls[i] == ReadForLogin(After(c, p), u, password);
  }

  /** The next statement of call `i`, and what it must do to be the next half turn. */
  lemma TurnKeepsBeside(c: Config, p: Run, a: Action, u: UserId, i: CallId, first: Call, j: CallId, second: Call,
      e: nat, first': Call, e': nat)
    requires Beside(c, p, u, i, first, j, second, e) && Enabled(After(c, p), a) && a.Advance? && a.id == i
    requires Step(c, After(c, p), a).calls[i] == first'
    requires u in Step(c, After(c, p), a).users && Step(c, After(c, p), a).users[u].sessionEpoch == e'
    ensures Beside(c, Then(p, a), u, j, second, i, first', e')
  {
    CallsOfOthersStay(c, After(c, p), a, j);
  }

  lemma CallsOfOthersStay(c: Config, s: State, a: Action, j: CallId)
    requires Enabled(s, a) && a.Advance? && a.id != j && j in s.calls
    ensures a.id in Step(c, s, a).calls && j in Step(c, s, a).calls && Step(c, s, a).calls[j] == s.calls[j]
  {
  }

  lemma ReadStep(c: Config, s: State, a: Action, u: UserId, e: nat, seen: Option<int>)
    requires Enabled(s, a) && a.Advance? && s.calls[a.id] == LoginRead(u, e, seen)
    requires !(HasLiveSession(s.tokens, u, a.now) && seen.Some? && seen.value > a.now - c.idleMs)
    ensures
      var s' := Step(c, s, a);
      s'.calls[a.id] == LoginClear(u, e) && s'.users == s.users && s'.tokens == s.tokens && s'.lineage == s.lineage
  {
  }

  lemma ClearStep(c: Config, s: State, a: Action, u: UserId, e: nat)
    requires Enabled(s, a) && a.Advance? && s.calls[a.id] == LoginClear(u, e) && u in s.users
    ensures
      var s' := Step(c, s, a);
      && s'.calls[a.id] == LoginBumped(u, e + 1) && s'.lineage == s.lineage
      && u in s'.users && s'.users[u].sessionEpoch == e + 1
  {
  }

  lemma SweepStep(c: Config, s: State, a: Action, u: UserId, e: nat)
    requires Enabled(s, a) && a.Advance? && s.calls[a.id] == LoginBumped(u, e)
    ensures
      var s' := Step(c, s, a);
      s'.calls[a.id] == LoginSwept(u, e) && s'.users == s.users && s'.lineage == s.lineage
  {
  }

  lemma MintStep(c: Config, s: State, a: Action, u: UserId, e: nat)
    requires Enabled(s, a) && a.Advance? && s.calls[a.id] == LoginSwept(u, e)
    ensures
      var s' := Step(c, s, a);
      && s'.calls[a.id] == LoginMinted(u, e) && s'.users == s.users && s'.lineage == s.lineage[a.drawn := a.id]
      && s'.tokens == s.tokens[a.drawn := RefreshToken(u, a.now + c.refreshMs, false, e)]
  {
  }

  lemma {:induction false} ReadStage(c: Config, r: Run, u: UserId, i: CallId, j: CallId, other: Call, e: nat,
      seen: Option<int>, now: int, h: TokenHash)
    requires Beside(c, r, u, i, LoginRead(u, e, seen), j, other, e)
    requires h !in After(c, r).lineage
    requires !(HasLiveSession(After(c, r).tokens, u, now) && seen.Some? && seen.value > now - c.idleMs)
    ensures
      var s, r' := After(c, r), Then(r, Advance(i, now, h));
      && Beside(c, r', u, j, other, i, LoginClear(u, e), e)
      && After(c, r').tokens == s.tokens && After(c, r').lineage == s.lineage
  {
    ReadStep(c, After(c, r), Advance(i, now, h), u, e, seen);
    TurnKeepsBeside(c, r, Advance(i, now, h), u, i, LoginRead(u, e, seen), j, other, e, LoginClear(u, e), e);
  }

  lemma {:induction false} ClearStage(c: Config, r: Run, u: UserId, i: CallId, j: CallId, other: Call, e: nat,
      found: nat, now: int, h: TokenHash)
    requires Beside(c, r, u, i, LoginClear(u, e), j, other, found)
    requires h !in After(c, r).lineage
    ensures
      var r' := Then(r, Advance(i, now, h));
      && Beside(c, r', u, j, other, i, LoginBumped(u, e + 1), e + 1)
      && After(c, r').lineage == After(c, r).lineage
  {
    ClearStep(c, After(c, r), Advance(i, now, h), u, e);
    TurnKeepsBeside(c, r, Advance(i, now, h), u, i, LoginClear(u, e), j, other, found, LoginBumped(u, e + 1), e + 1);
  }

  lemma {:induction false} SweepStage(c: Config, r: Run, u: UserId, i: CallId, j: CallId, other: Call, e: nat,
      now: int, h: TokenHash)
    requires Beside(c, r, u, i, LoginBumped(u, e), j, other, e)
    requires h !in After(c, r).lineage
    ensures
      var r' := Then(r, Advance(i, now, h));
      && Beside(c, r', u, j, other, i, LoginSwept(u, e), e)
      && After(c, r').lineage == After(c, r).lineage
  {
    SweepStep(c, After(c, r), Advance(i, now, h), u, e);
    TurnKeepsBeside(c, r, Advance(i, now, h), u, i, LoginBumped(u, e), j, other, e, LoginSwept(u, e), e);
  }

  lemma {:induction false} MintStage(c: Config, r: Run, u: UserId, i: CallId, j: CallId, other: Call, e: nat, now: int,
      h: TokenHash)
    requires Beside(c, r, u, i, LoginSwept(u, e), j, other, e)
    requires h !in After(c, r).lineage
    ensures
      var s, r' := After(c, r), Then(r, Advance(i, now, h));
      && Beside(c, r', u, j, other, i, LoginMinted(u, e), e)
      && After(c, r').tokens == s.tokens[h := RefreshToken(u, now + c.refreshMs, false, e)]
      && After(c, r').lineage == s.lineage[h := i]
  {
    MintStep(c, After(c, r), Advance(i, now, h), u, e);
    TurnKeepsBeside(c, r, Advance(i, now, h), u, i, LoginSwept(u, e), j, other, e, LoginMinted(u, e), e);
  }

  /** The two logins, statement by statement in turn. */
  function Race(p: Run, u: UserId, password: string, now: int, i: CallId, h: TokenHash, j: CallId, k: TokenHash): Run {
    var read := Turn(Begun(p, u, password, i, j), i, h, j, k, now);
    var bumped := Turn(read, i, h, j, k, now);
    var swept := Turn(bumped, i, h, j, k, now);
    Turn(swept, i, h, j, k, now)
  }

  lemma {:induction false} BothBump(c: Config, r: Run, u: UserId, i: CallId, h: TokenHash, j: CallId, k: TokenHash,
      e: nat, seen: Option<int>, now: int)
    requires Beside(c, r, u, i, LoginRead(u, e, seen), j, LoginRead(u, e, seen), e)
    requires h !in After(c, r).lineage && k !in After(c, r).lineage
    requires !(HasLiveSession(After(c, r).tokens, u, now) && seen.Some? && seen.value > now - c.idleMs)
    ensures
      var r' := Turn(Turn(r, i, h, j, k, now), i, h, j, k, now);
      && Beside(c, r', u, i, LoginBumped(u, e + 1), j, LoginBumped(u, e + 1), e + 1)
      && After(c, r').lineage == After(c, r).lineage
  {
    var other := LoginRead(u, e, seen);
    ReadStage(c, r, u, i, j, other, e, seen, now, h);
    ReadStage(c, Then(r, Advance(i, now, h)), u, j, i, LoginClear(u, e), e, seen, now, k);
    var read := Turn(r, i, h, j, k, now);
    assert Beside(c, read, u, i, LoginClear(u, e), j, LoginClear(u, e), e);
    ClearStage(c, read, u, i, j, LoginClear(u, e), e, e, now, h);
    var one := Then(read, Advance(i, now, h));
    assert Beside(c, one, u, j, LoginClear(u, e), i, LoginBumped(u, e + 1), e + 1);
    ClearStage(c, one, u, j, i, LoginBumped(u, e + 1), e, e + 1, now, k);
  }

  lemma {:induction false} BothSweep(c: Config, r: Run, u: UserId, i: CallId, h: TokenHash, j: CallId, k: TokenHash,
      e: nat, now: int)
    requires Beside(c, r, u, i, LoginBumped(u, e), j, LoginBumped(u, e), e)
    requires h !in After(c, r).lineage && k !in After(c, r).lineage
    ensures
      var r' := Turn(r, i, h, j, k, now);
      && Beside(c, r', u, i, LoginSwept(u, e), j, LoginSwept(u, e), e)
      && After(c, r').lineage == After(c, r).lineage
  {
    SweepStage(c, r, u, i, j, LoginBumped(u, e), e, now, h);
    SweepStage(c, Then(r, Advance(i, now, h)), u, j, i, LoginSwept(u, e), e, now, k);
  }

  lemma {:induction false} BothMint(c: Config, r: Run, u: UserId, i: CallId, h: TokenHash, j: CallId, k: TokenHash,
      e: nat, now: int)
    requires Beside(c, r, u, i, LoginSwept(u, e), j, LoginSwept(u, e), e)
    requires h !in After(c, r).lineage && k !in After(c, r).lineage && h != k
    ensures
      var r' := Turn(r, i, h, j, k, now);
      var s := After(c, r');
      && Beside(c, r', u, i, LoginMinted(u, e), j, LoginMinted(u, e), e)
      && Holds(s, Row(h)) && Holds(s, Row(k))
      && s.tokens[h] == s.tokens[k] == RefreshToken(u, now + c.refreshMs, false, e)
  {
    MintStage(c, r, u, i, j, LoginSwept(u, e), e, now, h);
    MintStage(c, Then(r, Advance(i, now, h)), u, j, i, LoginMinted(u, e), e, now, k);
  }

  lemma {:induction false} TwoLiveRowsAreTooMany(c: Config, r: Run, h: TokenHash, k: TokenHash)
    requires Valid(c, r) && h != k && Live(After(c, r).tokens, h) && Live(After(c, r).tokens, k)
    requires After(c, r).tokens[h].userId == After(c, r).tokens[k].userId
    requires After(c, r).tokens[h].sessionEpoch == After(c, r).tokens[k].sessionEpoch
    ensures !NeverMintsBeside(c, r) && !NoStaleWrite(c, r)
  {
    if NoStaleWrite(c, r) {
      FreshWritesSuffice(c, r);
    }
    if NeverMintsBeside(c, r) {
      LiveRowsAreDistinct(c, r, h, k);
    }
  }

  /** From every state in which a user can log in, two logins that run beside each other store the same epoch and both
      mint a row that is live at it: the second one writes over an epoch it did not read, and mints beside the first. */
  lemma {:induction false} ConcurrentLoginsShareAnEpoch(c: Config, p: Run, u: UserId, password: string, now: int,
      i: CallId, h: TokenHash, j: CallId, k: TokenHash)
    requires Valid(c, p) && CanLogin(c, After(c, p), u, password, now)
    requires i != j && i !in After(c, p).calls && j !in After(c, p).calls
    requires h != k && h !in After(c, p).lineage && k !in After(c, p).lineage
    ensures
      var r := Race(p, u, password, now, i, h, j, k);
      var s := After(c, r);
      && Valid(c, r) && !NeverMintsBeside(c, r) && !NoStaleWrite(c, r)
      && Holds(s, Row(h)) && Holds(s, Row(k)) && u in s.users
      && s.tokens[h] == s.tokens[k] == RefreshToken(u, now + c.refreshMs, false, s.users[u].sessionEpoch)
  {
    var row := After(c, p).users[u];
    BothBegin(c, p, u, password, now, i, j);
    var begun := Begun(p, u, password, i, j);
    BothBump(c, begun, u, i, h, j, k, row.sessionEpoch, row.lastSeenAt, now);
    var bumped := Turn(Turn(begun, i, h, j, k, now), i, h, j, k, now);
    BothSweep(c, bumped, u, i, h, j, k, row.sessionEpoch + 1, now);
    BothMint(c, Turn(bumped, i, h, j, k, now), u, i, h, j, k, row.sessionEpoch + 1, now);
    TwoLiveRowsAreTooMany(c, Race(p, u, password, now, i, h, j, k), h, k);
  }

  // ----- a late write -----

  predicate Free(s: State, u: UserId, id: CallId) {
    id !in s.calls && Usable(s.users, u)
  }

  lemma LoginKeepsFree(c: Config, s: State, a: Action, u: UserId, id: CallId)
    requires Enabled(s, a) && Free(s, u, id) && (a.BeginLogin? || a.Advance?) && a.id != id
    ensures Free(Step(c, s, a), u, id)
  {
  }

  lemma {:induction false} PrefixTransitive(p: Run, q: Run, r: Run)
    requires Prefix(p, q) && Prefix(q, r)
    ensures Prefix(p, r)
  {
    if q != r {
      PrefixTransitive(p, q, r.past);
    }
  }

  /** Both logins begin and pass their checks. */
  lemma {:induction false} BothCheck(c: Config, p: Run, u: UserId, password: string, now: int, i: CallId, h: TokenHash,
      j: CallId, k: TokenHash, m: CallId)
    returns (r: Run)
    requires Valid(c, p) && CanLogin(c, After(c, p), u, password, now)
    requires i != j && i !in After(c, p).calls && j !in After(c, p).calls && m !in After(c, p).calls && m != i && m != j
    requires h !in After(c, p).lineage && k !in After(c, p).lineage
    ensures
      var clear := LoginClear(u, After(c, p).users[u].sessionEpoch);
      && Prefix(p, r) && Beside(c, r, u, i, clear, j, clear, clear.epoch)
      && After(c, r).lineage == After(c, p).lineage && Free(After(c, r), u, m)
  {
    BothBegin(c, p, u, password, now, i, j);
    var e, seen := After(c, p).users[u].sessionEpoch, After(c, p).users[u].lastSeenAt;
    var begun := Begun(p, u, password, i, j);
    assert Prefix(p, begun.past) && Prefix(p, begun);
    LoginKeepsFree(c, After(c, p), begun.past.action, u, m);
    LoginKeepsFree(c, After(c, begun.past), begun.action, u, m);
    r := BothReadOn(c, begun, u, i, h, j, k, e, seen, now, m);
    PrefixTransitive(p, begun, r);
  }

  lemma {:induction false} BothReadOn(c: Config, p: Run, u: UserId, i: CallId, h: TokenHash, j: CallId, k: TokenHash,
      e: nat, seen: Option<int>, now: int, m: CallId)
    returns (r: Run)
    requires Beside(c, p, u, i, LoginRead(u, e, seen), j, LoginRead(u, e, seen), e) && Free(After(c, p), u, m)
        && m != i && m != j
    requires h !in After(c, p).lineage && k !in After(c, p).lineage
    requires !(HasLiveSession(After(c, p).tokens, u, now) && seen.Some? && seen.value > now - c.idleMs)
    ensures Prefix(p, r) && Beside(c, r, u, i, LoginClear(u, e), j, LoginClear(u, e), e)
    ensures After(c, r).lineage == After(c, p).lineage && Free(After(c, r), u, m)
  {
    ReadStage(c, p, u, i, j, LoginRead(u, e, seen), e, seen, now, h);
    var one := Then(p, Advance(i, now, h));
    assert Prefix(p, one);
    ReadStage(c, one, u, j, i, LoginClear(u, e), e, seen, now, k);
    r := Then(one, Advance(j, now, k));
    LoginKeepsFree(c, After(c, p), one.action, u, m);
    LoginKeepsFree(c, After(c, one), r.action, u, m);
  }

  /** The second login runs on until it has created its row. */
  lemma {:induction false} SecondMints(c: Config, p: Run, u: UserId, i: CallId, j: CallId, k: TokenHash, e: nat,
      now: int, m: CallId)
    returns (r: Run)
    requires Beside(c, p, u, i, LoginClear(u, e), j, LoginClear(u, e), e)
    requires k !in After(c, p).lineage && Free(After(c, p), u, m) && m != j
    ensures Prefix(p, r) && Beside(c, r, u, i, LoginClear(u, e), j, LoginMinted(u, e + 1), e + 1)
    ensures After(c, r).lineage == After(c, p).lineage[k := j] && Free(After(c, r), u, m)
  {
    assert Beside(c, p, u, j, LoginClear(u, e), i, LoginClear(u, e), e);
    ClearStage(c, p, u, j, i, LoginClear(u, e), e, e, now, k);
    var r1 := Then(p, Advance(j, now, k));
    assert Prefix(p, r1);
    SweepStage(c, r1, u, j, i, LoginClear(u, e), e + 1, now, k);
    var r2 := Then(r1, Advance(j, now, k));
    assert Prefix(p, r2);
    MintStage(c, r2, u, j, i, LoginClear(u, e), e + 1, now, k);
    r := Then(r2, Advance(j, now, k));
    LoginKeepsFree(c, After(c, p), r1.action, u, m);
    LoginKeepsFree(c, After(c, r1), r2.action, u, m);
    LoginKeepsFree(c, After(c, r2), r.action, u, m);
  }

  /** `Beside` says nothing of other calls: what they do to the epoch is all it takes to keep it. */
  lemma OtherCallKeepsBeside(c: Config, p: Run, a: Action, u: UserId, i: CallId, first: Call, j: CallId, second: Call,
      e: nat, e': nat)
    requires Beside(c, p, u, i, first, j, second, e) && Enabled(After(c, p), a)
    requires (a.BeginCut? || a.Advance?) && a.id != i && a.id != j
    requires u in After(c, Then(p, a)).users && After(c, Then(p, a)).users[u].sessionEpoch == e'
    ensures Beside(c, Then(p, a), u, i, first, j, second, e')
  {
  }

  lemma CutStatements(c: Config, s: State, a: Action, u: UserId, m: CallId)
    requires Enabled(s, a) && Usable(s.users, u) && (a.BeginCut? || a.Advance?) && a.id == m
    requires || a == BeginCut(m, u, ByForceLogout)
             || (a.Advance? && s.calls[m] in {CutRead(u, ByForceLogout), CutBumped(u)})
    ensures
      var s' := Step(c, s, a);
      && s'.lineage == s.lineage && Usable(s'.users, u) && m in s'.calls
      && s'.users[u].sessionEpoch == s.users[u].sessionEpoch + (if a.Advance? && s.calls[m].CutRead? then 1 else 0)
      && s'.calls[m] == if a.BeginCut? then CutRead(u, ByForceLogout)
                        else if s.calls[m].CutRead? then CutBumped(u) else Finished
  {
  }

  /** A force-logout runs to its end. */
  lemma {:induction false} ForcingOut(c: Config, p: Run, u: UserId, i: CallId, first: Call, j: CallId, second: Call,
      e: nat, m: CallId, now: int, h: TokenHash)
    returns (r: Run)
    requires Beside(c, p, u, i, first, j, second, e) && Free(After(c, p), u, m) && h !in After(c, p).lineage
    ensures Prefix(p, r) && Beside(c, r, u, i, first, j, second, e + 1)
    ensures After(c, r).lineage == After(c, p).lineage && Usable(After(c, r).users, u)
  {
    var begin, next := BeginCut(m, u, ByForceLogout), Advance(m, now, h);
    CutStatements(c, After(c, p), begin, u, m);
    OtherCallKeepsBeside(c, p, begin, u, i, first, j, second, e, e);
    var r1 := Then(p, begin);
    CutStatements(c, After(c, r1), next, u, m);
    OtherCallKeepsBeside(c, r1, next, u, i, first, j, second, e, e + 1);
    var r2 := Then(r1, next);
    CutStatements(c, After(c, r2), next, u, m);
    OtherCallKeepsBeside(c, r2, next, u, i, first, j, second, e + 1, e + 1);
    r := Then(r2, next);
    assert Prefix(p, r1) && Prefix(p, r2);
  }

  /** The answer of validation in a state of the interleaving. */
  function Validated(s: State, access: S.AccessToken, now: int): S.Reply {
    S.ApplyValidate(S.Db(s.users, s.tokens, {}), access, now).1
  }

  /** A login that read epoch `e` stores `e + 1` whatever came between: over a later epoch it lowers it, and every
      access token of epoch `e + 1` that was refused is accepted. */
  lemma {:induction false} LateWrite(c: Config, r: Run, u: UserId, e: nat, i: CallId, h: TokenHash,
      access: S.AccessToken, now: int)
    requires Valid(c, r) && i in After(c, r).calls && After(c, r).calls[i] == LoginClear(u, e)
        && h !in After(c, r).lineage
    requires Usable(After(c, r).users, u) && After(c, r).users[u].sessionEpoch > e + 1
    requires access.sub == u && access.epoch == Some(e + 1) && Seconds(now) < access.exp
    ensures
      var r' := Then(r, Advance(i, now, h));
      && Valid(c, r') && !NeverOverwrites(c, r')
      && u in After(c, r').users && After(c, r').users[u].sessionEpoch == e + 1
      && Validated(After(c, r), access, now) == S.Superseded && Validated(After(c, r'), access, now) == S.Accepted
  {
  }

  /** Worse than two live rows: from every state in which a user can log in, there is a run in which one login opens
      epoch `e + 1`, a force-logout cuts it, and the late write of another login brings every access token of the
      cut session back. */
  lemma {:induction false} LateLoginRevivesCutSession(c: Config, p: Run, u: UserId, password: string, now: int,
      i: CallId, h: TokenHash, j: CallId, k: TokenHash, m: CallId, access: S.AccessToken)
    returns (minted: Run, cut: Run)
    requires Valid(c, p) && CanLogin(c, After(c, p), u, password, now)
    requires i != j && m != i && m != j
    requires i !in After(c, p).calls && j !in After(c, p).calls && m !in After(c, p).calls
    requires h != k && h !in After(c, p).lineage && k !in After(c, p).lineage
    requires access.sub == u && access.epoch == Some(After(c, p).users[u].sessionEpoch + 1) && Seconds(now) < access.exp
    ensures
      var e, late := After(c, p).users[u].sessionEpoch, Then(cut, Advance(i, now, h));
      && Valid(c, late) && !NeverOverwrites(c, late) && Prefix(p, minted) && Prefix(minted, cut)
      && j in After(c, minted).calls && After(c, minted).calls[j] == LoginMinted(u, e + 1)
      && u in After(c, cut).users && After(c, cut).users[u].sessionEpoch == e + 2
      && u in After(c, late).users && After(c, late).users[u].sessionEpoch == e + 1
      && Validated(After(c, cut), access, now) == S.Superseded
      && Validated(After(c, late), access, now) == S.Accepted
  {
    var e := After(c, p).users[u].sessionEpoch;
    var checked := BothCheck(c, p, u, password, now, i, h, j, k, m);
    minted := SecondMints(c, checked, u, i, j, k, e, now, m);
    PrefixTransitive(p, checked, minted);
    cut := ForcingOut(c, minted, u, i, LoginClear(u, e), j, LoginMinted(u, e + 1), e + 1, m, now, h);
    LateWrite(c, cut, u, e, i, h, access, now);
  }
}
