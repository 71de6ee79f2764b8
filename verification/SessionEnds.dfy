/** When a session is over for good at statement level. Revoking a user's rows does not reach a rotation that has
    consumed its token and has yet to create the successor. */
module SessionEnds {
  import opened Wrappers
  import opened SessionRows
  import opened SessionSteps
  import opened SessionBaton

  predicate LiveRowOf(s: State, h: TokenHash, line: CallId) {
    Live(s.tokens, h) && h in s.lineage && s.lineage[h] == line
  }

  /** A rotation that has consumed a token of the session and may still create its successor: its checks passed, or
      still can, the token not having expired at the last instant `clock` looked at. */
  predicate MayMint(s: State, clock: Option<int>, i: CallId, line: CallId) {
    && i in s.calls && Carries(s.calls[i]) && s.calls[i].token in s.lineage && s.lineage[s.calls[i].token] == line
    && var call := s.calls[i];
       call.RefreshConsumed? ==>
         && call.token in s.tokens && s.tokens[call.token].userId == call.user
         && s.tokens[call.token].sessionEpoch == call.epoch
         && NotBefore(clock, s.tokens[call.token].expiresAt)
  }

  ghost predicate NoLiveRow(s: State, line: CallId) {
    forall h :: !LiveRowOf(s, h, line)
  }

  ghost predicate NobodyMints(s: State, clock: Option<int>, line: CallId) {
    forall i :: !MayMint(s, clock, i, line)
  }

  ghost predicate Over(s: State, clock: Option<int>, line: CallId) {
    NoLiveRow(s, line) && NobodyMints(s, clock, line)
  }

  /** In no continuation has the session a live row. */
  ghost predicate OverForGood(c: Config, p: Run, line: CallId) {
    forall r :: Valid(c, r) && Timed(r) && Prefix(p, r) ==> NoLiveRow(After(c, r), line)
  }

  // ----- what is over stays over -----

  /** The last instant looked at, once `a` has run. */
  function Later(clock: Option<int>, a: Action): Option<int> {
    if TimeOf(a).Some? then TimeOf(a) else clock
  }

  predicate InTime(clock: Option<int>, a: Action) {
    TimeOf(a).Some? ==> NotBefore(clock, TimeOf(a).value)
  }

  lemma LiveRowCameFrom(c: Config, s: State, clock: Option<int>, a: Action, h: TokenHash, line: CallId)
    requires Enabled(s, a) && LinesAreOpened(s) && line in s.sessions && LiveRowOf(Step(c, s, a), h, line)
    ensures LiveRowOf(s, h, line) || (Rotates(s, a) && MayMint(s, clock, a.id, line))
  {
  }

  lemma MinterRested(c: Config, s: State, clock: Option<int>, a: Action, i: CallId, line: CallId)
    requires Enabled(s, a) && InTime(clock, a) && SpendersAreSound(s)
    requires MayMint(Step(c, s, a), Later(clock, a), i, line) && i in s.calls && s.calls[i] == Step(c, s, a).calls[i]
    ensures MayMint(s, clock, i, line)
  {
  }

  lemma MinterMoved(c: Config, s: State, clock: Option<int>, a: Action, i: CallId, line: CallId)
    requires Enabled(s, a) && InTime(clock, a) && SpendersAreSound(s) && RowsDescend(s)
    requires MayMint(Step(c, s, a), Later(clock, a), i, line) && a.Advance? && a.id == i
    ensures MayMint(s, clock, i, line) || (Consumes(s, a) && LiveRowOf(s, s.calls[i].token, line))
  {
  }

  lemma CarrierRestedOrMoved(c: Config, s: State, a: Action, i: CallId)
    requires Enabled(s, a) && i in Step(c, s, a).calls && Carries(Step(c, s, a).calls[i])
    ensures (i in s.calls && s.calls[i] == Step(c, s, a).calls[i]) || (a.Advance? && a.id == i)
  {
  }

  lemma {:induction false} MinterCameFrom(c: Config, s: State, clock: Option<int>, a: Action, i: CallId, line: CallId)
    requires Enabled(s, a) && InTime(clock, a) && SpendersAreSound(s) && RowsDescend(s)
    requires MayMint(Step(c, s, a), Later(clock, a), i, line)
    ensures MayMint(s, clock, i, line) || (Consumes(s, a) && i == a.id && LiveRowOf(s, s.calls[i].token, line))
  {
    CarrierRestedOrMoved(c, s, a, i);
    if a.Advance? && a.id == i {
      MinterMoved(c, s, clock, a, i, line);
    } else {
      MinterRested(c, s, clock, a, i, line);
    }
  }

  lemma {:induction false} StepKeepsOver(c: Config, s: State, clock: Option<int>, a: Action, line: CallId)
    requires Enabled(s, a) && InTime(clock, a) && Inv(s) && line in s.sessions && Over(s, clock, line)
    ensures Over(Step(c, s, a), Later(clock, a), line) && line in Step(c, s, a).sessions
  {
    var s' := Step(c, s, a);
    forall h ensures !LiveRowOf(s', h, line) {
      if LiveRowOf(s', h, line) {
        LiveRowCameFrom(c, s, clock, a, h, line);
      }
    }
    forall i ensures !MayMint(s', Later(clock, a), i, line) {
      if MayMint(s', Later(clock, a), i, line) {
        MinterCameFrom(c, s, clock, a, i, line);
      }
    }
  }

  lemma {:induction false} OverStays(c: Config, p: Run, r: Run, line: CallId)
    requires Valid(c, r) && Timed(r) && Prefix(p, r)
    requires line in After(c, p).sessions && Over(After(c, p), Clock(p), line)
    ensures Over(After(c, r), Clock(r), line) && line in After(c, r).sessions
  {
    if p != r {
      OverStays(c, p, r.past, line);
      Invariant(c, r.past);
      StepKeepsOver(c, After(c, r.past), Clock(r.past), r.action, line);
    }
  }

  // ----- what is not over can go on -----

  lemma {:induction false} Longer(hashes: set<TokenHash>) returns (n: nat)
    ensures forall h :: h in hashes ==> |h.raw| < n
    decreases |hashes|
  {
    n := 0;
    if hashes != {} {
      var h :| h in hashes;
      var rest := Longer(hashes - {h});
      n := if |h.raw| < rest then rest else |h.raw| + 1;
    }
  }

  lemma {:induction false} FreshHash(hashes: set<TokenHash>) returns (h: TokenHash)
    ensures h !in hashes
  {
    var n := Longer(hashes);
    h := Sha256(seq(n, _ => 'x'));
  }

  lemma CheckingStep(c: Config, s: State, clock: Option<int>, i: CallId, line: CallId, drawn: TokenHash)
    requires MayMint(s, clock, i, line) && s.calls[i].RefreshConsumed? && drawn !in s.lineage
    ensures
      var a := Advance(i, s.tokens[s.calls[i].token].expiresAt, drawn);
      && Enabled(s, a) && InTime(clock, a)
      && MayMint(Step(c, s, a), Later(clock, a), i, line) && Step(c, s, a).calls[i].RefreshChecked?
  {
  }

  lemma MintingStep(c: Config, s: State, clock: Option<int>, i: CallId, line: CallId, now: int, drawn: TokenHash)
    requires MayMint(s, clock, i, line) && s.calls[i].RefreshChecked? && drawn !in s.lineage
    ensures Enabled(s, Advance(i, now, drawn)) && LiveRowOf(Step(c, s, Advance(i, now, drawn)), drawn, line)
  {
  }

  lemma {:induction false} CheckedGoesOn(c: Config, p: Run, i: CallId, line: CallId)
    requires Valid(c, p) && Timed(p) && MayMint(After(c, p), Clock(p), i, line) && After(c, p).calls[i].RefreshChecked?
    ensures !OverForGood(c, p, line)
  {
    var drawn := FreshHash(After(c, p).lineage.Keys);
    var now := if Clock(p).Some? then Clock(p).value else 0;
    MintingStep(c, After(c, p), Clock(p), i, line, now, drawn);
    var r := Then(p, Advance(i, now, drawn));
    assert Valid(c, r) && Timed(r) && Prefix(p, r) && LiveRowOf(After(c, r), drawn, line);
  }

  lemma {:induction false} GoingOnIsKept(c: Config, p: Run, a: Action, line: CallId)
    requires !OverForGood(c, Then(p, a), line)
    ensures !OverForGood(c, p, line)
  {
    var r :| Valid(c, r) && Timed(r) && Prefix(Then(p, a), r) && !NoLiveRow(After(c, r), line);
    LongerPrefix(p, a, r);
  }

  lemma {:induction false} LongerPrefix(p: Run, a: Action, r: Run)
    requires Prefix(Then(p, a), r)
    ensures Prefix(p, r)
  {
    if r != Then(p, a) {
      LongerPrefix(p, a, r.past);
    }
  }

  lemma {:induction false} MinterGoesOn(c: Config, p: Run, i: CallId, line: CallId)
    requires Valid(c, p) && Timed(p) && MayMint(After(c, p), Clock(p), i, line)
    ensures !OverForGood(c, p, line)
  {
    var s := After(c, p);
    if s.calls[i].RefreshChecked? {
      CheckedGoesOn(c, p, i, line);
    } else {
      var drawn := FreshHash(s.lineage.Keys);
      CheckingStep(c, s, Clock(p), i, line, drawn);
      var a := Advance(i, s.tokens[s.calls[i].token].expiresAt, drawn);
      CheckedGoesOn(c, Then(p, a), i, line);
      GoingOnIsKept(c, p, a, line);
    }
  }

  /** A session is over for good exactly when it has no live row and no rotation of it in flight may still create
      one: one that passed its checks, or has yet to make them and whose token has not expired. */
  lemma {:induction false} SessionIsOverExactly(c: Config, p: Run, line: CallId)
    requires Valid(c, p) && Timed(p) && line in After(c, p).sessions
    ensures Over(After(c, p), Clock(p), line) <==> OverForGood(c, p, line)
  {
    if Over(After(c, p), Clock(p), line) {
      forall r | Valid(c, r) && Timed(r) && Prefix(p, r) ensures NoLiveRow(After(c, r), line) {
        OverStays(c, p, r, line);
      }
    } else if NoLiveRow(After(c, p), line) {
      var i :| MayMint(After(c, p), Clock(p), i, line);
      MinterGoesOn(c, p, i, line);
    } else {
      assert Prefix(p, p);
    }
  }

  // ----- a sweep, and a logout -----

  /** The next statement of the call revokes every row of its user. */
  predicate Sweeps(call: Call) {
    call.RefreshReplay? || call.LoginBumped? || call.CutBumped?
  }

  lemma SweepStep(c: Config, s: State, clock: Option<int>, a: Action, line: CallId)
    requires Enabled(s, a) && a.Advance? && Sweeps(s.calls[a.id]) && RowsDescend(s)
    requires line in s.sessions && s.sessions[line].user == s.calls[a.id].user
    ensures NoLiveRow(Step(c, s, a), line)
    ensures forall i :: MayMint(Step(c, s, a), clock, i, line) <==> MayMint(s, clock, i, line)
  {
  }

  /** A sweep, such as the one that answers a replay, ends a session of its user for good exactly when no rotation
      of that session in flight may still create a row. */
  lemma {:induction false} SweepEndsExactly(c: Config, p: Run, a: Action, line: CallId)
    requires Valid(c, Then(p, a)) && Timed(Then(p, a)) && a.Advance? && Sweeps(After(c, p).calls[a.id])
    requires line in After(c, p).sessions && After(c, p).sessions[line].user == After(c, p).calls[a.id].user
    ensures OverForGood(c, Then(p, a), line) <==> NobodyMints(After(c, p), Some(a.now), line)
  {
    Invariant(c, p);
    SweepStep(c, After(c, p), Some(a.now), a, line);
    SessionsRemain(c, After(c, p), a, line);
    SessionIsOverExactly(c, Then(p, a), line);
  }

  lemma SessionsRemain(c: Config, s: State, a: Action, line: CallId)
    requires Enabled(s, a) && line in s.sessions
    ensures line in Step(c, s, a).sessions
  {
  }

  lemma LogoutStep(c: Config, s: State, clock: Option<int>, a: Action, line: CallId)
    requires Enabled(s, a) && a.BeginLogout? && RowsDescend(s)
    ensures
      var s' := Step(c, s, a);
      && (forall h :: LiveRowOf(s', h, line) <==>
            LiveRowOf(s, h, line) && !(h == a.token && s.tokens[h].userId == a.user))
      && (forall i :: MayMint(s', clock, i, line) <==> MayMint(s, clock, i, line))
  {
  }

  /** A logout ends the session of its own token for good exactly when that session is over already or the token is its
      live row. So one that comes beside a rotation, with the token that was just consumed, ends nothing. */
  lemma {:induction false} LogoutEndsExactly(c: Config, p: Run, a: Action, line: CallId)
    requires Valid(c, Then(p, a)) && Timed(p) && a.BeginLogout? && line in After(c, p).sessions
    requires After(c, p).sessions[line].user == a.user
    requires a.token in After(c, p).lineage && After(c, p).lineage[a.token] == line
    ensures OverForGood(c, Then(p, a), line) <==>
              Over(After(c, p), Clock(p), line) || Live(After(c, p).tokens, a.token)
  {
    var s := After(c, p);
    Invariant(c, p);
    LogoutStep(c, s, Clock(p), a, line);
    SessionsRemain(c, s, a, line);
    SessionIsOverExactly(c, Then(p, a), line);
    if Live(s.tokens, a.token) {
      OnlyHolder(c, p, a.token, Clock(p), line);
    }
  }

  /** A live row is the whole session. */
  lemma {:induction false} OnlyHolder(c: Config, p: Run, h: TokenHash, clock: Option<int>, line: CallId)
    requires Valid(c, p) && LiveRowOf(After(c, p), h, line)
    ensures NobodyMints(After(c, p), clock, line)
    ensures forall k :: LiveRowOf(After(c, p), k, line) ==> k == h
  {
    Invariant(c, p);
    var s := After(c, p);
    forall i ensures !MayMint(s, clock, i, line) {
      assert Holds(s, Row(h)) && LineOf(s, Row(h)) == line;
      assert MayMint(s, clock, i, line) ==> Holds(s, InFlight(i)) && LineOf(s, InFlight(i)) == line;
    }
    forall k | LiveRowOf(s, k, line) ensures k == h {
      assert Holds(s, Row(k)) && Holds(s, Row(h)) && LineOf(s, Row(k)) == LineOf(s, Row(h));
    }
  }

  // ----- a rotation that outlives the sweep of a replay -----

  lemma BeginRefreshStep(c: Config, s: State, i: CallId, u: UserId, h: TokenHash)
    requires i !in s.calls && Usable(s.users, u)
    ensures Step(c, s, BeginRefresh(i, u, h)) == s.(calls := s.calls[i := RefreshRead(u, h, s.users[u].sessionEpoch)])
  {
  }

  lemma ConsumeStep(c: Config, s: State, i: CallId, u: UserId, h: TokenHash, e: nat, now: int, drawn: TokenHash)
    requires i in s.calls && s.calls[i] == RefreshRead(u, h, e) && Live(s.tokens, h) && s.tokens[h].userId == u
    ensures
      Step(c, s, Advance(i, now, drawn))
        == s.(tokens := s.tokens[h := s.tokens[h].(isRevoked := true)], calls := s.calls[i := RefreshConsumed(u, h, e)])
  {
  }

  lemma MissStep(c: Config, s: State, j: CallId, u: UserId, h: TokenHash, e: nat, now: int, drawn: TokenHash)
    requires j in s.calls && s.calls[j] == RefreshRead(u, h, e)
    requires h in s.tokens && s.tokens[h].isRevoked && s.tokens[h].userId == u
    ensures Step(c, s, Advance(j, now, drawn)) == s.(calls := s.calls[j := RefreshMissed(u, h, e)])
  {
    assert s.tokens[h := s.tokens[h].(isRevoked := true)] == s.tokens;
  }

  lemma ReplayStep(c: Config, s: State, j: CallId, u: UserId, h: TokenHash, e: nat, now: int, drawn: TokenHash)
    requires j in s.calls && s.calls[j] == RefreshMissed(u, h, e)
    requires h in s.tokens && s.tokens[h].isRevoked && s.tokens[h].userId == u && s.tokens[h].sessionEpoch == e
    ensures Step(c, s, Advance(j, now, drawn)) == s.(calls := s.calls[j := RefreshReplay(u)])
  {
  }

  lemma {:induction false} ConsumedFirst(c: Config, p: Run, u: UserId, h: TokenHash, line: CallId, i: CallId, now: int,
      drawn: TokenHash)
    requires Valid(c, p) && LiveRowOf(After(c, p), h, line) && Usable(After(c, p).users, u)
    requires After(c, p).tokens[h].userId == u
        && After(c, p).tokens[h].sessionEpoch == After(c, p).users[u].sessionEpoch
    requires i !in After(c, p).calls && drawn !in After(c, p).lineage
    ensures
      var s, r := After(c, p), Then(Then(p, BeginRefresh(i, u, h)), Advance(i, now, drawn));
      && Valid(c, r)
      && After(c, r) == s.(tokens := s.tokens[h := s.tokens[h].(isRevoked := true)],
                           calls := s.calls[i := RefreshConsumed(u, h, s.users[u].sessionEpoch)])
  {
    var s, e := After(c, p), After(c, p).users[u].sessionEpoch;
    BeginRefreshStep(c, s, i, u, h);
    var s1 := s.(calls := s.calls[i := RefreshRead(u, h, e)]);
    ConsumeStep(c, s1, i, u, h, e, now, drawn);
    assert s1.calls[i := RefreshConsumed(u, h, e)] == s.calls[i := RefreshConsumed(u, h, e)];
  }

  lemma {:induction false} ReplaySecond(c: Config, p: Run, u: UserId, h: TokenHash, j: CallId, now: int,
      drawn: TokenHash)
    requires Valid(c, p) && Usable(After(c, p).users, u) && j !in After(c, p).calls && drawn !in After(c, p).lineage
    requires
      var s := After(c, p);
      h in s.tokens && s.tokens[h] == RefreshToken(u, s.tokens[h].expiresAt, true, s.users[u].sessionEpoch)
    ensures
      var r := Then(Then(Then(p, BeginRefresh(j, u, h)), Advance(j, now, drawn)), Advance(j, now, drawn));
      Valid(c, r) && After(c, r) == After(c, p).(calls := After(c, p).calls[j := RefreshReplay(u)])
  {
    var s, e := After(c, p), After(c, p).users[u].sessionEpoch;
    var one := Then(p, BeginRefresh(j, u, h));
    BeginRefreshStep(c, s, j, u, h);
    assert After(c, one) == s.(calls := s.calls[j := RefreshRead(u, h, e)]) && Valid(c, one);
    SecondMisses(c, one, u, h, j, e, now, drawn);
    assert s.calls[j := RefreshRead(u, h, e)][j := RefreshReplay(u)] == s.calls[j := RefreshReplay(u)];
  }

  lemma {:induction false} SecondMisses(c: Config, p: Run, u: UserId, h: TokenHash, j: CallId, e: nat, now: int,
      drawn: TokenHash)
    requires Valid(c, p) && j in After(c, p).calls && After(c, p).calls[j] == RefreshRead(u, h, e)
    requires drawn !in After(c, p).lineage
    requires
      var tokens := After(c, p).tokens;
      h in tokens && tokens[h] == RefreshToken(u, tokens[h].expiresAt, true, e)
    ensures
      var r := Then(Then(p, Advance(j, now, drawn)), Advance(j, now, drawn));
      Valid(c, r) && After(c, r) == After(c, p).(calls := After(c, p).calls[j := RefreshReplay(u)])
  {
    var s := After(c, p);
    MissStep(c, s, j, u, h, e, now, drawn);
    var s1 := s.(calls := s.calls[j := RefreshMissed(u, h, e)]);
    ReplayStep(c, s1, j, u, h, e, now, drawn);
    assert s1.calls[j := RefreshReplay(u)] == s.calls[j := RefreshReplay(u)];
    var one := Then(p, Advance(j, now, drawn));
    assert After(c, one) == s1 && Valid(c, one);
  }

  /** From every state in which a refresh would succeed: let call `i` consume the token and call `j` present it
      again. `j` is told it is a replay and sweeps the rows of the user, and yet the session is not over: `i` may
      still create its successor. */
  lemma {:induction false} RotationOutlivesReplay(c: Config, p: Run, u: UserId, h: TokenHash, line: CallId, i: CallId,
      j: CallId, now: int, drawn: TokenHash)
    requires Valid(c, p) && Timed(p) && LiveRowOf(After(c, p), h, line) && Usable(After(c, p).users, u)
    requires After(c, p).tokens[h].userId == u
    requires After(c, p).tokens[h].sessionEpoch == After(c, p).users[u].sessionEpoch
    requires NotBefore(Clock(p), now) && now <= After(c, p).tokens[h].expiresAt
    requires i != j && i !in After(c, p).calls && j !in After(c, p).calls && drawn !in After(c, p).lineage
    ensures
      var consumed := Then(Then(p, BeginRefresh(i, u, h)), Advance(i, now, drawn));
      var replayed := Then(Then(Then(consumed, BeginRefresh(j, u, h)), Advance(j, now, drawn)), Advance(j, now, drawn));
      var swept := Then(replayed, Advance(j, now, drawn));
      && Valid(c, swept) && Timed(swept)
      && j in After(c, replayed).calls && After(c, replayed).calls[j] == RefreshReplay(u)
      && NoLiveRow(After(c, swept), line) && !OverForGood(c, swept, line)
  {
    var consumed := Then(Then(p, BeginRefresh(i, u, h)), Advance(i, now, drawn));
    ConsumedFirst(c, p, u, h, line, i, now, drawn);
    ReplaySecond(c, consumed, u, h, j, now, drawn);
    InTimeTwice(p, BeginRefresh(i, u, h), now, Advance(i, now, drawn));
    ReplayInTime(consumed, u, h, j, now, drawn);
    SweptBeside(c, Then(Then(Then(consumed, BeginRefresh(j, u, h)), Advance(j, now, drawn)), Advance(j, now, drawn)),
                u, line, i, j, now, drawn);
  }

  lemma InTimeTwice(p: Run, a: Action, now: int, b: Action)
    requires Timed(p) && NotBefore(Clock(p), now) && TimeOf(a).None? && TimeOf(b) == Some(now)
    ensures Timed(Then(Then(p, a), b)) && Clock(Then(Then(p, a), b)) == Some(now)
  {
    assert Timed(Then(p, a)) && Clock(Then(p, a)) == Clock(p);
  }

  lemma ReplayInTime(p: Run, u: UserId, h: TokenHash, j: CallId, now: int, drawn: TokenHash)
    requires Timed(p) && Clock(p) == Some(now)
    ensures
      var r := Then(Then(Then(p, BeginRefresh(j, u, h)), Advance(j, now, drawn)), Advance(j, now, drawn));
      Timed(r) && Clock(r) == Some(now)
  {
    var one := Then(p, BeginRefresh(j, u, h));
    var two := Then(one, Advance(j, now, drawn));
    assert Timed(one) && Clock(one) == Some(now) && Timed(two) && Clock(two) == Some(now);
  }

  lemma {:induction false} SweptBeside(c: Config, p: Run, u: UserId, line: CallId, i: CallId, j: CallId, now: int,
      drawn: TokenHash)
    requires Valid(c, p) && Timed(p) && NotBefore(Clock(p), now)
    requires j in After(c, p).calls && After(c, p).calls[j] == RefreshReplay(u) && drawn !in After(c, p).lineage
    requires MayMint(After(c, p), Some(now), i, line) && After(c, p).calls[i].user == u
    ensures
      var swept := Then(p, Advance(j, now, drawn));
      Valid(c, swept) && Timed(swept) && NoLiveRow(After(c, swept), line) && !OverForGood(c, swept, line)
  {
    Invariant(c, p);
    SweepStep(c, After(c, p), Some(now), Advance(j, now, drawn), line);
    SweepEndsExactly(c, p, Advance(j, now, drawn), line);
  }
}
