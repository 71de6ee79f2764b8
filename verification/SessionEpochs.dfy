/** What a user's epochs keep at statement level. Login stores an epoch computed from an earlier read, so its write may
    come late: after another epoch write of the same user. Every result here asks for no more than it needs of that. */
module SessionEpochs {
  import opened Wrappers
  import opened SessionRows
  import opened SessionSteps
  import opened SessionBaton
  import S = Session

  // ----- epochs grow, exactly when no login writes late over a later epoch -----

  /** The action is the write of a login, into a row of its user. */
  predicate WritesLogin(s: State, a: Action) {
    a.Advance? && a.id in s.calls && s.calls[a.id].LoginClear? && s.calls[a.id].user in s.users
  }

  /** The only statement that ever lowers an epoch, and when it does. */
  lemma EpochFallsExactly(c: Config, s: State, a: Action, u: UserId)
    requires Enabled(s, a) && u in s.users
    ensures u in Step(c, s, a).users
    ensures Step(c, s, a).users[u].sessionEpoch < s.users[u].sessionEpoch <==>
              WritesLogin(s, a) && s.calls[a.id].user == u && s.calls[a.id].epoch + 1 < s.users[u].sessionEpoch
  {
  }

  /** No login writes over an epoch later than the one it stores. */
  predicate NeverOverwrites(c: Config, r: Run) {
    match r
    case Start(_) => true
    case Then(past, a) =>
      && NeverOverwrites(c, past)
      && var s := After(c, past);
         WritesLogin(s, a) ==> s.users[s.calls[a.id].user].sessionEpoch <= s.calls[a.id].epoch + 1
  }

  ghost predicate NeverFalls(c: Config, r: Run) {
    match r
    case Start(_) => true
    case Then(past, a) =>
      && NeverFalls(c, past)
      && forall u :: u in After(c, past).users ==>
           u in After(c, r).users && After(c, past).users[u].sessionEpoch <= After(c, r).users[u].sessionEpoch
  }

  lemma {:induction false} EpochsGrowExactly(c: Config, r: Run)
    requires Valid(c, r)
    ensures NeverFalls(c, r) <==> NeverOverwrites(c, r)
  {
    match r
    case Start(_) =>
    case Then(past, a) =>
      EpochsGrowExactly(c, past);
      var s := After(c, past);
      forall u | u in s.users
        ensures u in After(c, r).users
        ensures After(c, r).users[u].sessionEpoch < s.users[u].sessionEpoch <==>
                  WritesLogin(s, a) && s.calls[a.id].user == u && s.calls[a.id].epoch + 1 < s.users[u].sessionEpoch
      {
        EpochFallsExactly(c, s, a, u);
      }
  }

  lemma {:induction false} EpochsGrow(c: Config, p: Run, r: Run, u: UserId)
    requires Valid(c, r) && NeverOverwrites(c, r) && Prefix(p, r) && u in After(c, p).users
    ensures u in After(c, r).users && After(c, p).users[u].sessionEpoch <= After(c, r).users[u].sessionEpoch
  {
    if p != r {
      EpochsGrow(c, p, r.past, u);
      EpochFallsExactly(c, After(c, r.past), r.action, u);
    }
  }

  lemma {:induction false} ValidPrefix(c: Config, p: Run, r: Run)
    requires Valid(c, r) && Prefix(p, r)
    ensures Valid(c, p) && (NeverOverwrites(c, r) ==> NeverOverwrites(c, p))
  {
    if p != r {
      ValidPrefix(c, p, r.past);
    }
  }

  // ----- one baton per user and epoch, exactly when no login mints beside another one -----

  /** The user and epoch whose next refresh the holder has the right to. */
  function TermsOf(s: State, x: Holder): Opened
    requires Holds(s, x) && LineOf(s, x) in s.sessions
  {
    s.sessions[LineOf(s, x)]
  }

  predicate HoldsFor(s: State, x: Holder, u: UserId, e: nat) {
    && Holds(s, x) && LineOf(s, x) in s.sessions
    && TermsOf(s, x).user == u && TermsOf(s, x).epoch == e
  }

  ghost predicate OnePerEpoch(s: State) {
    forall x, y, u, e :: HoldsFor(s, x, u, e) && HoldsFor(s, y, u, e) ==> x == y
  }

  ghost predicate AlwaysOne(c: Config, r: Run) {
    OnePerEpoch(After(c, r)) && (r.Then? ==> AlwaysOne(c, r.past))
  }

  /** A login creates its row while somebody holds the user and epoch it is about to open. */
  ghost predicate MintsBeside(s: State, a: Action) {
    Opens(s, a) && exists x :: HoldsFor(s, x, s.calls[a.id].user, s.calls[a.id].epoch)
  }

  ghost predicate NeverMintsBeside(c: Config, r: Run) {
    match r
    case Start(_) => true
    case Then(past, a) => NeverMintsBeside(c, past) && !MintsBeside(After(c, past), a)
  }

  lemma RowCameFrom(c: Config, s: State, a: Action, h: TokenHash)
    requires Enabled(s, a) && SpendersAreSound(s) && Holds(Step(c, s, a), Row(h))
    ensures
      var s' := Step(c, s, a);
      || (Holds(s, Row(h)) && s.lineage[h] == s'.lineage[h])
      || (Opens(s, a) && h == a.drawn)
      || (Rotates(s, a) && h == a.drawn && Holds(s, InFlight(a.id)) && LineOf(s, InFlight(a.id)) == s'.lineage[h])
  {
  }

  lemma FlightCameFrom(c: Config, s: State, a: Action, id: CallId)
    requires Enabled(s, a) && SpendersAreSound(s) && RowsDescend(s) && Holds(Step(c, s, a), InFlight(id))
    ensures
      var s' := Step(c, s, a);
      var token := s'.calls[id].token;
      || (Holds(s, InFlight(id)) && s.calls[id].token == token && s.lineage[token] == s'.lineage[token])
      || (Consumes(s, a) && id == a.id && Holds(s, Row(token)) && s.lineage[token] == s'.lineage[token])
  {
  }

  /** Only a login opens a new line; every other statement hands the baton on within its line. */
  lemma {:induction false} HolderCameFrom(c: Config, s: State, a: Action, x: Holder)
    returns (y: Holder)
    requires Enabled(s, a) && SpendersAreSound(s) && RowsDescend(s) && Holds(Step(c, s, a), x)
    requires !(Opens(s, a) && x == Row(a.drawn))
    ensures Holds(s, y) && LineOf(s, y) == LineOf(Step(c, s, a), x)
  {
    match x
    case Row(h) =>
      RowCameFrom(c, s, a, h);
      y := if Rotates(s, a) && h == a.drawn then InFlight(a.id) else x;
    case InFlight(id) =>
      FlightCameFrom(c, s, a, id);
      y := if Consumes(s, a) && id == a.id then Row(s.calls[id].token) else x;
  }

  lemma SessionsStay(c: Config, s: State, a: Action, id: CallId)
    requires Enabled(s, a) && LinesAreOpened(s) && id in s.sessions
    ensures id in Step(c, s, a).sessions && Step(c, s, a).sessions[id] == s.sessions[id]
  {
  }

  lemma MintedHolds(c: Config, s: State, a: Action)
    requires Enabled(s, a) && Opens(s, a)
    ensures HoldsFor(Step(c, s, a), Row(a.drawn), s.calls[a.id].user, s.calls[a.id].epoch)
    ensures LineOf(Step(c, s, a), Row(a.drawn)) == a.id
  {
  }

  lemma OldHolderStays(c: Config, s: State, a: Action, x: Holder, u: UserId, e: nat)
    requires Enabled(s, a) && Opens(s, a) && LinesAreOpened(s) && HoldsFor(s, x, u, e)
    ensures x != Row(a.drawn) && HoldsFor(Step(c, s, a), x, u, e)
  {
    SessionsStay(c, s, a, LineOf(s, x));
  }

  /** A holder after the step, but for the row of a login that just minted, has a forerunner with the same terms. */
  lemma ForerunnerHolds(c: Config, s: State, a: Action, x: Holder, u: UserId, e: nat)
    returns (y: Holder)
    requires Enabled(s, a) && Inv(s) && HoldsFor(Step(c, s, a), x, u, e) && !(Opens(s, a) && x == Row(a.drawn))
    ensures HoldsFor(s, y, u, e) && LineOf(s, y) == LineOf(Step(c, s, a), x)
  {
    y := HolderCameFrom(c, s, a, x);
    LineIsOpened(s, y);
    SessionsStay(c, s, a, LineOf(s, y));
  }

  lemma LineIsOpened(s: State, x: Holder)
    requires Inv(s) && Holds(s, x)
    ensures LineOf(s, x) in s.sessions
  {
  }

  lemma {:induction false} StepKeepsOne(c: Config, s: State, a: Action)
    requires Enabled(s, a) && Inv(s) && OneHolder(Step(c, s, a)) && OnePerEpoch(s) && !MintsBeside(s, a)
    ensures OnePerEpoch(Step(c, s, a))
  {
    var s' := Step(c, s, a);
    forall x, y, u, e | HoldsFor(s', x, u, e) && HoldsFor(s', y, u, e) ensures x == y {
      if Opens(s, a) && (x == Row(a.drawn) || y == Row(a.drawn)) {
        MintedHolds(c, s, a);
        if x != y {
          var z := ForerunnerHolds(c, s, a, if x == Row(a.drawn) then y else x, u, e);
        }
      } else {
        var x0 := ForerunnerHolds(c, s, a, x, u, e);
        var y0 := ForerunnerHolds(c, s, a, y, u, e);
        assert LineOf(s', x) == LineOf(s', y);
      }
    }
  }

  lemma {:induction false} MintingBesideBreaksOne(c: Config, s: State, a: Action)
    requires Enabled(s, a) && Inv(s) && MintsBeside(s, a)
    ensures !OnePerEpoch(Step(c, s, a))
  {
    var u, e := s.calls[a.id].user, s.calls[a.id].epoch;
    var x :| HoldsFor(s, x, u, e);
    MintedHolds(c, s, a);
    OldHolderStays(c, s, a, x, u, e);
  }

  /** At most one live row or rotation in flight per user and epoch, at every moment of a run, exactly when no login
      of the run creates its row while somebody holds the user and epoch it opens. */
  lemma {:induction false} OneBatonPerUserAndEpoch(c: Config, r: Run)
    requires Valid(c, r)
    ensures AlwaysOne(c, r) <==> NeverMintsBeside(c, r)
  {
    match r
    case Start(_) =>
    case Then(past, a) =>
      OneBatonPerUserAndEpoch(c, past);
      Invariant(c, past);
      Invariant(c, r);
      if MintsBeside(After(c, past), a) {
        MintingBesideBreaksOne(c, After(c, past), a);
      } else if AlwaysOne(c, past) {
        StepKeepsOne(c, After(c, past), a);
      }
  }

  /** In terms of the stored columns: two live rows of one user at one epoch are the same row. */
  lemma {:induction false} LiveRowsAreDistinct(c: Config, r: Run, h: TokenHash, k: TokenHash)
    requires Valid(c, r) && NeverMintsBeside(c, r)
    requires Live(After(c, r).tokens, h) && Live(After(c, r).tokens, k)
    requires After(c, r).tokens[h].userId == After(c, r).tokens[k].userId
    requires After(c, r).tokens[h].sessionEpoch == After(c, r).tokens[k].sessionEpoch
    ensures h == k
  {
    OneBatonPerUserAndEpoch(c, r);
    Invariant(c, r);
    var s := After(c, r);
    assert HoldsFor(s, Row(h), s.tokens[h].userId, s.tokens[h].sessionEpoch);
    assert HoldsFor(s, Row(k), s.tokens[k].userId, s.tokens[k].sessionEpoch);
  }

  // ----- a condition a caller can keep: no login writes over an epoch it did not read -----

  /** Every login finds, when it writes, the epoch it read: no other epoch write of its user came between. Cuts, refused
      logins, crashes and whatever comes after the write are free. */
  predicate NoStaleWrite(c: Config, r: Run) {
    match r
    case Start(_) => true
    case Then(past, a) =>
      && NoStaleWrite(c, past)
      && var s := After(c, past);
         WritesLogin(s, a) ==> s.users[s.calls[a.id].user].sessionEpoch == s.calls[a.id].epoch
  }

  /** A login that has stored its epoch. */
  predicate Stored(call: Call) {
    call.LoginBumped? || call.LoginSwept? || call.LoginMinted? || call.LoginDone?
  }

  /** Stored epochs are reached, and no two logins of a user stored the same one. */
  ghost predicate StoredOnce(s: State) {
    && (forall i :: i in s.calls && Stored(s.calls[i]) ==>
          s.calls[i].user in s.users && s.calls[i].epoch <= s.users[s.calls[i].user].sessionEpoch)
    && (forall i, j ::
          (i in s.calls && j in s.calls && Stored(s.calls[i]) && Stored(s.calls[j])
           && s.calls[i].user == s.calls[j].user && s.calls[i].epoch == s.calls[j].epoch)
          ==> i == j)
  }

  lemma StorerCameFrom(c: Config, s: State, a: Action, i: CallId)
    requires Enabled(s, a) && i in Step(c, s, a).calls && Stored(Step(c, s, a).calls[i])
    ensures
      var call' := Step(c, s, a).calls[i];
      && i in s.calls
      && (|| (Stored(s.calls[i]) && s.calls[i].user == call'.user && s.calls[i].epoch == call'.epoch)
          || (WritesLogin(s, a) && i == a.id && s.calls[i].user == call'.user && call'.epoch == s.calls[i].epoch + 1
              && Step(c, s, a).users[call'.user].sessionEpoch == call'.epoch))
  {
  }

  lemma {:induction false} StepKeepsStoredOnce(c: Config, s: State, a: Action)
    requires Enabled(s, a) && StoredOnce(s)
    requires WritesLogin(s, a) ==> s.users[s.calls[a.id].user].sessionEpoch == s.calls[a.id].epoch
    ensures StoredOnce(Step(c, s, a))
  {
    var s' := Step(c, s, a);
    forall i | i in s'.calls && Stored(s'.calls[i])
      ensures s'.calls[i].user in s'.users && s'.calls[i].epoch <= s'.users[s'.calls[i].user].sessionEpoch
    {
      StorerCameFrom(c, s, a, i);
      if Stored(s.calls[i]) {
        EpochFallsExactly(c, s, a, s.calls[i].user);
      }
    }
    forall i, j | i in s'.calls && j in s'.calls && Stored(s'.calls[i]) && Stored(s'.calls[j])
                  && s'.calls[i].user == s'.calls[j].user && s'.calls[i].epoch == s'.calls[j].epoch
      ensures i == j
    {
      StorerCameFrom(c, s, a, i);
      StorerCameFrom(c, s, a, j);
    }
  }

  lemma {:induction false} StoredOnceInvariant(c: Config, r: Run)
    requires Valid(c, r) && NoStaleWrite(c, r)
    ensures StoredOnce(After(c, r))
  {
    if r.Then? {
      StoredOnceInvariant(c, r.past);
      StepKeepsStoredOnce(c, After(c, r.past), r.action);
    }
  }

  lemma {:induction false} StoredOnceMintsAlone(c: Config, s: State, a: Action)
    requires Enabled(s, a) && Inv(s) && StoredOnce(s)
    ensures !MintsBeside(s, a)
  {
    if MintsBeside(s, a) {
      var x :| HoldsFor(s, x, s.calls[a.id].user, s.calls[a.id].epoch);
      assert LineOf(s, x) in s.calls && Stored(s.calls[LineOf(s, x)]);
    }
  }

  /** Then epochs never fall and the user and epoch of every login are its own. */
  lemma {:induction false} FreshWritesSuffice(c: Config, r: Run)
    requires Valid(c, r) && NoStaleWrite(c, r)
    ensures NeverOverwrites(c, r) && NeverMintsBeside(c, r) && NeverFalls(c, r) && AlwaysOne(c, r)
  {
    if r.Then? {
      FreshWritesSuffice(c, r.past);
      Invariant(c, r.past);
      StoredOnceInvariant(c, r.past);
      StoredOnceMintsAlone(c, After(c, r.past), r.action);
    }
    EpochsGrowExactly(c, r);
    OneBatonPerUserAndEpoch(c, r);
  }

  // ----- an epoch that was passed is over -----

  /** Once the epoch of `u` has passed `e` it stays past it, and validation refuses every access token of `e`. */
  lemma {:induction false} PassedEpochIsOver(c: Config, p: Run, r: Run, u: UserId, e: nat, a: S.AccessToken,
      denied: set<string>, now: int)
    requires Valid(c, r) && NeverOverwrites(c, r) && Prefix(p, r)
    requires u in After(c, p).users && e < After(c, p).users[u].sessionEpoch
    requires a.sub == u && a.epoch == Some(e)
    ensures u in After(c, r).users && e < After(c, r).users[u].sessionEpoch
    ensures S.ApplyValidate(S.Db(After(c, r).users, After(c, r).tokens, denied), a, now).1 != S.Accepted
  {
    EpochsGrow(c, p, r, u);
  }

  lemma FinishedStep(c: Config, s: State, a: Action, id: CallId)
    requires Enabled(s, a) && id in s.calls && s.calls[id].Finished?
    ensures id in Step(c, s, a).calls && Step(c, s, a).calls[id].Finished?
  {
  }

  lemma {:induction false} FinishedStays(c: Config, p: Run, r: Run, id: CallId)
    requires Valid(c, r) && Prefix(p, r) && id in After(c, p).calls && After(c, p).calls[id].Finished?
    ensures id in After(c, r).calls && After(c, r).calls[id].Finished?
  {
    if p != r {
      FinishedStays(c, p, r.past, id);
      FinishedStep(c, After(c, r.past), r.action, id);
    }
  }

  /** A refresh that begins from then on, `q`, with a token issued for that user and epoch, in whosever name, never
      passes. */
  lemma {:induction false} PassedEpochNeverRefreshes(c: Config, p: Run, q: Run, r: Run, u: UserId, e: nat)
    requires Valid(c, r) && NeverOverwrites(c, r)
    requires q.Then? && Prefix(p, q.past) && Prefix(q, r) && q.action.BeginRefresh?
    requires u in After(c, p).users && e < After(c, p).users[u].sessionEpoch
    requires
      var s, token := After(c, q), q.action.token;
      && token in s.lineage && s.lineage[token] in s.sessions
      && s.sessions[s.lineage[token]].user == u && s.sessions[s.lineage[token]].epoch == e
    ensures q.action.id in After(c, r).calls && !Passed(After(c, r).calls[q.action.id])
  {
    ValidPrefix(c, q, r);
    EpochsGrow(c, p, q.past, u);
    if After(c, q).calls[q.action.id].RefreshRead? {
      StaleTokenNeverPasses(c, q, r, q.action.id);
    } else {
      FinishedStays(c, q, r, q.action.id);
    }
  }

  // ----- an overtaken refresh -----

  ghost predicate SuccessorsDescend(s: State) {
    forall id :: id in s.calls && (s.calls[id].RefreshCreated? || s.calls[id].RefreshDone?) ==>
      s.calls[id].token in s.lineage && s.calls[id].successor in s.lineage
      && s.lineage[s.calls[id].successor] == s.lineage[s.calls[id].token]
  }

  lemma SuccessorCameFrom(c: Config, s: State, a: Action, id: CallId)
    requires Enabled(s, a) && id in Step(c, s, a).calls
    requires Step(c, s, a).calls[id].RefreshCreated? || Step(c, s, a).calls[id].RefreshDone?
    ensures
      var call' := Step(c, s, a).calls[id];
      && id in s.calls
      && (|| ((s.calls[id].RefreshCreated? || s.calls[id].RefreshDone?)
              && call'.token == s.calls[id].token && call'.successor == s.calls[id].successor)
          || (Rotates(s, a) && id == a.id && call'.token == s.calls[id].token && call'.successor == a.drawn))
  {
  }

  lemma {:induction false} StepKeepsSuccessors(c: Config, s: State, a: Action)
    requires Enabled(s, a) && SpendersAreSound(s) && SuccessorsDescend(s)
    ensures SuccessorsDescend(Step(c, s, a))
  {
    var s' := Step(c, s, a);
    forall id | id in s'.calls && (s'.calls[id].RefreshCreated? || s'.calls[id].RefreshDone?)
      ensures s'.calls[id].token in s'.lineage && s'.calls[id].successor in s'.lineage
      ensures s'.lineage[s'.calls[id].successor] == s'.lineage[s'.calls[id].token]
    {
      SuccessorCameFrom(c, s, a, id);
    }
  }

  lemma {:induction false} SuccessorInvariant(c: Config, r: Run)
    requires Valid(c, r)
    ensures SuccessorsDescend(After(c, r))
  {
    if r.Then? {
      SuccessorInvariant(c, r.past);
      Invariant(c, r.past);
      StepKeepsSuccessors(c, After(c, r.past), r.action);
    }
  }

  /** Call `i` created its successor although the epoch of its user has passed the one it read. */
  predicate OvertakenRefresh(s: State, i: CallId) {
    && i in s.calls && (s.calls[i].RefreshCreated? || s.calls[i].RefreshDone?)
    && s.calls[i].user in s.users && s.calls[i].epoch < s.users[s.calls[i].user].sessionEpoch
  }

  /** What it minted is useless for ever: validation refuses its access token, and the row it created is behind. */
  lemma {:induction false} OvertakenRefreshIsUseless(c: Config, p: Run, r: Run, i: CallId, a: S.AccessToken,
      denied: set<string>, now: int)
    requires Valid(c, r) && NeverOverwrites(c, r) && Prefix(p, r) && OvertakenRefresh(After(c, p), i)
    requires a.sub == After(c, p).calls[i].user && a.epoch == Some(After(c, p).calls[i].epoch)
    ensures S.ApplyValidate(S.Db(After(c, r).users, After(c, r).tokens, denied), a, now).1 != S.Accepted
    ensures
      var call, s := After(c, p).calls[i], After(c, r);
      && call.user in s.users && call.epoch < s.users[call.user].sessionEpoch
      && (call.successor in s.tokens ==>
            s.tokens[call.successor].userId == call.user && s.tokens[call.successor].sessionEpoch == call.epoch)
  {
    var call := After(c, p).calls[i];
    ValidPrefix(c, p, r);
    Invariant(c, p);
    Invariant(c, r);
    SuccessorInvariant(c, p);
    HistoryIsKept(c, p, r, call.successor);
    PassedEpochIsOver(c, p, r, call.user, call.epoch, a, denied, now);
  }

  /** A refresh that begins from then on and presents that row, for whichever user, never passes. */
  lemma {:induction false} OvertakenSuccessorNeverPasses(c: Config, p: Run, q: Run, r: Run, i: CallId)
    requires Valid(c, r) && NeverOverwrites(c, r) && OvertakenRefresh(After(c, p), i)
    requires q.Then? && Prefix(p, q.past) && Prefix(q, r)
    requires q.action.BeginRefresh? && q.action.token == After(c, p).calls[i].successor
    ensures q.action.id in After(c, r).calls && !Passed(After(c, r).calls[q.action.id])
  {
    var call := After(c, p).calls[i];
    ValidPrefix(c, q, r);
    ValidPrefix(c, p, q.past);
    Invariant(c, p);
    SuccessorInvariant(c, p);
    HistoryIsKept(c, p, q, call.successor);
    PassedEpochNeverRefreshes(c, p, q, r, call.user, call.epoch);
  }

  // ----- an overtaken login -----

  /** Login `i` stored an epoch that its user's has passed since, whether it has created its row yet or not. */
  predicate OvertakenLogin(s: State, i: CallId) {
    && i in s.calls && Stored(s.calls[i])
    && s.calls[i].user in s.users && s.calls[i].epoch < s.users[s.calls[i].user].sessionEpoch
  }

  lemma StorerStep(c: Config, s: State, a: Action, i: CallId)
    requires Enabled(s, a) && i in s.calls && (Stored(s.calls[i]) || s.calls[i].Finished?)
    ensures
      var s' := Step(c, s, a);
      && i in s'.calls
      && (|| s'.calls[i].Finished?
          || (Stored(s.calls[i]) && Stored(s'.calls[i])
              && s'.calls[i].user == s.calls[i].user && s'.calls[i].epoch == s.calls[i].epoch))
  {
  }

  lemma {:induction false} StorerStays(c: Config, p: Run, r: Run, i: CallId)
    requires Valid(c, r) && Prefix(p, r) && i in After(c, p).calls && Stored(After(c, p).calls[i])
    ensures
      var call, s := After(c, p).calls[i], After(c, r);
      && i in s.calls
      && (s.calls[i].Finished? || (Stored(s.calls[i]) && s.calls[i].user == call.user
          && s.calls[i].epoch == call.epoch))
  {
    if p != r {
      StorerStays(c, p, r.past, i);
      StorerStep(c, After(c, r.past), r.action, i);
    }
  }

  /** What it mints, then or later, is useless for ever: its access token is refused and every row of its session is
      behind. */
  lemma {:induction false} OvertakenLoginIsUseless(c: Config, p: Run, r: Run, i: CallId, a: S.AccessToken,
      denied: set<string>, now: int)
    requires Valid(c, r) && NeverOverwrites(c, r) && Prefix(p, r) && OvertakenLogin(After(c, p), i)
    requires a.sub == After(c, p).calls[i].user && a.epoch == Some(After(c, p).calls[i].epoch)
    ensures S.ApplyValidate(S.Db(After(c, r).users, After(c, r).tokens, denied), a, now).1 != S.Accepted
    ensures
      var call, s := After(c, p).calls[i], After(c, r);
      && call.user in s.users && call.epoch < s.users[call.user].sessionEpoch
      && (forall h :: h in s.tokens && h in s.lineage && s.lineage[h] == i ==>
            s.tokens[h].userId == call.user && s.tokens[h].sessionEpoch == call.epoch)
  {
    var call := After(c, p).calls[i];
    Invariant(c, r);
    StorerStays(c, p, r, i);
    PassedEpochIsOver(c, p, r, call.user, call.epoch, a, denied, now);
  }

  /** A refresh that begins from then on and presents a row of that session, for whichever user, never passes. */
  lemma {:induction false} OvertakenLoginNeverRefreshes(c: Config, p: Run, q: Run, r: Run, i: CallId)
    requires Valid(c, r) && NeverOverwrites(c, r) && OvertakenLogin(After(c, p), i)
    requires q.Then? && Prefix(p, q.past) && Prefix(q, r) && q.action.BeginRefresh?
    requires q.action.token in After(c, q).lineage && After(c, q).lineage[q.action.token] == i
    ensures q.action.id in After(c, r).calls && !Passed(After(c, r).calls[q.action.id])
  {
    var call := After(c, p).calls[i];
    ValidPrefix(c, q, r);
    Invariant(c, q);
    StorerStays(c, p, q.past, i);
    StorerStep(c, After(c, q.past), q.action, i);
    PassedEpochNeverRefreshes(c, p, q, r, call.user, call.epoch);
  }
}
