/** One baton per session, in every interleaving of statements, with no assumption on who runs beside whom. */
module SessionBaton {
  import opened SessionRows
  import opened SessionSteps

  // ----- what a call holds -----

  /** It consumed a token and has yet to create the successor. */
  predicate Carries(call: Call) {
    call.RefreshConsumed? || call.RefreshChecked?
  }

  /** It consumed a token, whatever became of it since. */
  predicate Spent(call: Call) {
    Carries(call) || call.RefreshCreated? || call.RefreshDone?
  }

  /** It passed every check of refreshTokens; only creating and stamping are left, or nothing. */
  predicate Passed(call: Call) {
    call.RefreshChecked? || call.RefreshCreated? || call.RefreshDone?
  }

  /** The right to the next refresh of a session: a live row, or a call between consuming and creating. */
  datatype Holder = Row(hash: TokenHash) | InFlight(id: CallId)

  predicate Holds(s: State, x: Holder) {
    match x
    case Row(h) => Live(s.tokens, h) && h in s.lineage
    case InFlight(id) => id in s.calls && Carries(s.calls[id]) && s.calls[id].token in s.lineage
  }

  /** The login whose session the holder continues. */
  function LineOf(s: State, x: Holder): CallId
    requires Holds(s, x)
  {
    match x
    case Row(h) => s.lineage[h]
    case InFlight(id) => s.lineage[s.calls[id].token]
  }

  // ----- the invariant -----

  /** Every row descends from a login and carries the owner, epoch and expiry that login fixed. */
  ghost predicate RowsDescend(s: State) {
    forall h :: h in s.tokens ==>
      h in s.lineage && s.lineage[h] in s.sessions
      && var o := s.sessions[s.lineage[h]];
         s.tokens[h].userId == o.user && s.tokens[h].sessionEpoch == o.epoch && s.tokens[h].expiresAt == o.expiresAt
  }

  ghost predicate LinesAreOpened(s: State) {
    && (forall h :: h in s.lineage ==> s.lineage[h] in s.sessions)
    && (forall id :: id in s.sessions ==>
          id in s.calls && (s.calls[id].LoginMinted? || s.calls[id].LoginDone?)
          && s.calls[id].user == s.sessions[id].user && s.calls[id].epoch == s.sessions[id].epoch)
  }

  /** A consumed token is dead for good, and a call past the checks works for the session it consumed from. */
  ghost predicate SpendersAreSound(s: State) {
    forall id :: id in s.calls && Spent(s.calls[id]) ==>
      var call := s.calls[id];
      && call.token in s.lineage && s.lineage[call.token] in s.sessions
      && !Live(s.tokens, call.token)
      && var o := s.sessions[s.lineage[call.token]];
         call.user == o.user && (Passed(call) ==> call.epoch == o.epoch && call.expiresAt == o.expiresAt)
  }

  ghost predicate OneSpender(s: State) {
    forall i, j ::
      (i in s.calls && j in s.calls && Spent(s.calls[i]) && Spent(s.calls[j]) && s.calls[i].token == s.calls[j].token)
      ==> i == j
  }

  ghost predicate OneHolder(s: State) {
    forall x, y :: Holds(s, x) && Holds(s, y) && LineOf(s, x) == LineOf(s, y) ==> x == y
  }

  ghost predicate Inv(s: State) {
    RowsDescend(s) && LinesAreOpened(s) && SpendersAreSound(s) && OneSpender(s) && OneHolder(s)
  }

  // ----- steps that hand nothing on -----

  /** No row appears or changes but for its revocation, and no session is opened. */
  ghost predicate QuietRows(s: State, s': State) {
    && s'.lineage == s.lineage && s'.sessions == s.sessions
    && (forall h :: h in s'.tokens ==>
          h in s.tokens && (s'.tokens[h] == s.tokens[h] || s'.tokens[h] == s.tokens[h].(isRevoked := true)))
    && (forall id :: id in s.calls && (s.calls[id].LoginMinted? || s.calls[id].LoginDone?) ==>
          id in s'.calls && (s'.calls[id].LoginMinted? || s'.calls[id].LoginDone?)
          && s'.calls[id].user == s.calls[id].user && s'.calls[id].epoch == s.calls[id].epoch)
  }

  /** A call that has spent a token had spent it before, and passed its checks before or against the stored row. */
  ghost predicate QuietCalls(s: State, s': State) {
    forall id :: id in s'.calls && Spent(s'.calls[id]) ==>
      && id in s.calls && Spent(s.calls[id])
      && s'.calls[id].token == s.calls[id].token && s'.calls[id].user == s.calls[id].user
      && (Carries(s'.calls[id]) ==> Carries(s.calls[id]))
      && (Passed(s'.calls[id]) ==> SameTerms(s, s.calls[id], s'.calls[id]))
  }

  ghost predicate SameTerms(s: State, before: Call, after: Call)
    requires Spent(before) && Passed(after)
  {
    if Passed(before) then after.epoch == before.epoch && after.expiresAt == before.expiresAt
    else after.token in s.tokens
         && after.epoch == s.tokens[after.token].sessionEpoch && after.expiresAt == s.tokens[after.token].expiresAt
  }

  lemma QuietKeepsRows(s: State, s': State)
    requires RowsDescend(s) && QuietRows(s, s')
    ensures RowsDescend(s')
  {
  }

  lemma QuietKeepsLines(s: State, s': State)
    requires LinesAreOpened(s) && QuietRows(s, s')
    ensures LinesAreOpened(s')
  {
  }

  lemma QuietKeepsSpenders(s: State, s': State)
    requires RowsDescend(s) && SpendersAreSound(s) && QuietRows(s, s') && QuietCalls(s, s')
    ensures SpendersAreSound(s')
  {
  }

  lemma QuietKeepsOneSpender(s: State, s': State)
    requires OneSpender(s) && QuietCalls(s, s')
    ensures OneSpender(s')
  {
  }

  lemma QuietKeepsOneHolder(s: State, s': State)
    requires OneHolder(s) && QuietRows(s, s') && QuietCalls(s, s')
    ensures OneHolder(s')
  {
    forall x | Holds(s', x) ensures Holds(s, x) && LineOf(s, x) == LineOf(s', x) {
    }
  }

  predicate Consumes(s: State, a: Action) {
    a.Advance? && a.id in s.calls && s.calls[a.id].RefreshRead?
    && Live(s.tokens, s.calls[a.id].token) && s.tokens[s.calls[a.id].token].userId == s.calls[a.id].user
  }

  predicate Rotates(s: State, a: Action) {
    a.Advance? && a.id in s.calls && s.calls[a.id].RefreshChecked?
  }

  predicate Opens(s: State, a: Action) {
    a.Advance? && a.id in s.calls && s.calls[a.id].LoginSwept?
  }

  lemma BeginningKeepsRowsQuiet(c: Config, s: State, a: Action)
    requires Enabled(s, a) && !a.Advance?
    ensures QuietRows(s, Step(c, s, a))
  {
  }

  lemma BeginningKeepsCallsQuiet(c: Config, s: State, a: Action)
    requires Enabled(s, a) && !a.Advance?
    ensures QuietCalls(s, Step(c, s, a))
  {
  }

  lemma AdvancingKeepsRowsQuiet(c: Config, s: State, a: Action)
    requires Enabled(s, a) && a.Advance? && !Rotates(s, a) && !Opens(s, a)
    ensures QuietRows(s, Step(c, s, a))
  {
  }

  lemma AdvancingKeepsCallsQuiet(c: Config, s: State, a: Action)
    requires Enabled(s, a) && a.Advance? && !Consumes(s, a) && !Rotates(s, a) && !Opens(s, a)
    ensures QuietCalls(s, Step(c, s, a))
  {
    var s' := Step(c, s, a);
    forall id | id in s'.calls && id != a.id ensures id in s.calls && s'.calls[id] == s.calls[id] {
    }
  }

  // ----- the three steps that pass the baton -----

  lemma ConsumeKeepsSpenders(c: Config, s: State, a: Action)
    requires Enabled(s, a) && Consumes(s, a)
    requires RowsDescend(s) && SpendersAreSound(s) && OneSpender(s)
    ensures SpendersAreSound(Step(c, s, a)) && OneSpender(Step(c, s, a))
  {
  }

  lemma ConsumeKeepsOneHolder(c: Config, s: State, a: Action)
    requires Enabled(s, a) && Consumes(s, a) && RowsDescend(s) && OneHolder(s)
    ensures OneHolder(Step(c, s, a))
  {
    var s' := Step(c, s, a);
    var h := s.calls[a.id].token;
    assert Holds(s, Row(h));
    forall x | Holds(s', x)
      ensures || (x == InFlight(a.id) && LineOf(s', x) == LineOf(s, Row(h)))
              || (x != Row(h) && Holds(s, x) && LineOf(s', x) == LineOf(s, x)) {
    }
  }

  lemma RotateKeepsRows(c: Config, s: State, a: Action)
    requires Enabled(s, a) && Rotates(s, a)
    requires RowsDescend(s) && LinesAreOpened(s) && SpendersAreSound(s)
    ensures RowsDescend(Step(c, s, a)) && LinesAreOpened(Step(c, s, a))
  {
  }

  lemma RotateKeepsSpenders(c: Config, s: State, a: Action)
    requires Enabled(s, a) && Rotates(s, a)
    requires SpendersAreSound(s) && OneSpender(s)
    ensures SpendersAreSound(Step(c, s, a)) && OneSpender(Step(c, s, a))
  {
  }

  lemma RotateKeepsOneHolder(c: Config, s: State, a: Action)
    requires Enabled(s, a) && Rotates(s, a) && SpendersAreSound(s) && OneHolder(s)
    ensures OneHolder(Step(c, s, a))
  {
    var s' := Step(c, s, a);
    assert Holds(s, InFlight(a.id));
    forall x | Holds(s', x)
      ensures || (x == Row(a.drawn) && LineOf(s', x) == LineOf(s, InFlight(a.id)))
              || (x != InFlight(a.id) && Holds(s, x) && LineOf(s', x) == LineOf(s, x)) {
    }
  }

  lemma OpenKeepsRows(c: Config, s: State, a: Action)
    requires Enabled(s, a) && Opens(s, a) && RowsDescend(s) && LinesAreOpened(s)
    ensures RowsDescend(Step(c, s, a)) && LinesAreOpened(Step(c, s, a))
  {
  }

  lemma OpenKeepsSpenders(c: Config, s: State, a: Action)
    requires Enabled(s, a) && Opens(s, a) && LinesAreOpened(s) && SpendersAreSound(s)
    ensures SpendersAreSound(Step(c, s, a))
  {
  }

  lemma OpenKeepsOneSpender(c: Config, s: State, a: Action)
    requires Enabled(s, a) && Opens(s, a) && OneSpender(s)
    ensures OneSpender(Step(c, s, a))
  {
  }

  lemma OpenKeepsOneHolder(c: Config, s: State, a: Action)
    requires Enabled(s, a) && Opens(s, a) && LinesAreOpened(s) && SpendersAreSound(s) && OneHolder(s)
    ensures OneHolder(Step(c, s, a))
  {
    var s' := Step(c, s, a);
    assert a.id !in s.sessions;
    forall x | Holds(s', x)
      ensures || (x == Row(a.drawn) && LineOf(s', x) == a.id)
              || (Holds(s, x) && LineOf(s', x) == LineOf(s, x) && LineOf(s, x) in s.sessions) {
    }
  }

  lemma {:induction false} Invariant(c: Config, r: Run)
    requires Valid(c, r)
    ensures Inv(After(c, r))
  {
    match r
    case Start(_) =>
    case Then(past, a) =>
      Invariant(c, past);
      var s := After(c, past);
      var s' := After(c, r);
      if Rotates(s, a) {
        RotateKeepsRows(c, s, a);
        RotateKeepsSpenders(c, s, a);
        RotateKeepsOneHolder(c, s, a);
      } else if Opens(s, a) {
        OpenKeepsRows(c, s, a);
        OpenKeepsSpenders(c, s, a);
        OpenKeepsOneSpender(c, s, a);
        OpenKeepsOneHolder(c, s, a);
      } else {
        if a.Advance? {
          AdvancingKeepsRowsQuiet(c, s, a);
        } else {
          BeginningKeepsRowsQuiet(c, s, a);
        }
        QuietKeepsRows(s, s');
        QuietKeepsLines(s, s');
        if Consumes(s, a) {
          ConsumeKeepsSpenders(c, s, a);
          ConsumeKeepsOneHolder(c, s, a);
        } else {
          if a.Advance? {
            AdvancingKeepsCallsQuiet(c, s, a);
          } else {
            BeginningKeepsCallsQuiet(c, s, a);
          }
          QuietKeepsSpenders(s, s');
          QuietKeepsOneSpender(s, s');
          QuietKeepsOneHolder(s, s');
        }
      }
  }

  // ----- what follows, in every interleaving -----

  /** A session has one baton: two live rows, or a live row and a call about to create one, are never of the same
      login. */
  lemma {:induction false} OneBatonPerSession(c: Config, r: Run, x: Holder, y: Holder)
    requires Valid(c, r) && Holds(After(c, r), x) && Holds(After(c, r), y)
    ensures LineOf(After(c, r), x) == LineOf(After(c, r), y) ==> x == y
  {
    Invariant(c, r);
  }

  predicate Exchanged(s: State, id: CallId, h: TokenHash) {
    id in s.calls && (s.calls[id].RefreshCreated? || s.calls[id].RefreshDone?) && s.calls[id].token == h
  }

  lemma ExchangeStep(c: Config, s: State, a: Action, id: CallId, h: TokenHash)
    requires Enabled(s, a) && Exchanged(s, id, h)
    ensures Exchanged(Step(c, s, a), id, h)
  {
  }

  lemma {:induction false} ExchangeIsRemembered(c: Config, p: Run, r: Run, id: CallId, h: TokenHash)
    requires Valid(c, r) && Prefix(p, r) && Exchanged(After(c, p), id, h)
    ensures Exchanged(After(c, r), id, h)
  {
    if p != r {
      ExchangeIsRemembered(c, p, r.past, id, h);
      ExchangeStep(c, After(c, r.past), r.action, id, h);
    }
  }

  /** A refresh token is exchanged at most once over a whole run: by one call, and by no later one even
      after its row was purged. */
  lemma {:induction false} SingleUse(c: Config, p: Run, r: Run, i: CallId, j: CallId, h: TokenHash)
    requires Valid(c, r) && Prefix(p, r) && Exchanged(After(c, p), i, h) && Exchanged(After(c, r), j, h)
    ensures i == j
    ensures !Live(After(c, r).tokens, h)
  {
    ExchangeIsRemembered(c, p, r, i, h);
    Invariant(c, r);
  }

  /** However often a session is rotated, a call passes the checks only up to the expiry its login fixed, and the
      row it then creates has that owner, epoch and expiry. */
  lemma {:induction false} RotationKeepsTerms(c: Config, r: Run, a: Action)
    requires Valid(c, r) && Enabled(After(c, r), a) && a.Advance?
    ensures
      var s, s' := After(c, r), Step(c, After(c, r), a);
      && (s.calls[a.id].RefreshConsumed? && s'.calls[a.id].RefreshChecked? ==>
            var h := s.calls[a.id].token;
            h in s.lineage && s.lineage[h] in s.sessions && a.now <= s.sessions[s.lineage[h]].expiresAt)
      && (s.calls[a.id].RefreshChecked? ==>
            var h := s.calls[a.id].token;
            && h in s.lineage && s.lineage[h] in s.sessions
            && s'.lineage[a.drawn] == s.lineage[h]
            && var o := s.sessions[s.lineage[h]];
               s'.tokens[a.drawn] == RefreshToken(o.user, o.expiresAt, false, o.epoch))
  {
    Invariant(c, r);
  }

  /** The call that began as `begun` and has not been refused still has the token and epoch it read. */
  predicate Continues(begun: Call, call: Call) {
    && begun.RefreshRead?
    && (Spent(call) ==> call.user == begun.user && call.token == begun.token && call.epoch == begun.epoch)
    && !call.LoginRead? && (call.RefreshRead? ==> call == begun)
    && (call.RefreshRead? || call.RefreshMissed? || call.RefreshReplay? || Spent(call) || call.Finished?)
  }

  lemma RefreshStep(c: Config, s: State, a: Action, begun: Call, id: CallId)
    requires Enabled(s, a) && id in s.calls && Continues(begun, s.calls[id])
    ensures id in Step(c, s, a).calls && Continues(begun, Step(c, s, a).calls[id])
  {
  }

  lemma {:induction false} RefreshKeepsItsRead(c: Config, p: Run, r: Run, id: CallId)
    requires Valid(c, r) && Prefix(p, r) && id in After(c, p).calls && After(c, p).calls[id].RefreshRead?
    ensures id in After(c, r).calls && Continues(After(c, p).calls[id], After(c, r).calls[id])
  {
    if p != r {
      RefreshKeepsItsRead(c, p, r.past, id);
      RefreshStep(c, After(c, r.past), r.action, After(c, p).calls[id], id);
    }
  }

  /** A refresh that reads another user, or its user at another epoch, than its token was issued for never succeeds. */
  lemma {:induction false} StaleTokenNeverPasses(c: Config, p: Run, r: Run, id: CallId)
    requires Valid(c, r) && Prefix(p, r) && id in After(c, p).calls && After(c, p).calls[id].RefreshRead?
    requires
      var s, call := After(c, p), After(c, p).calls[id];
      && call.token in s.lineage && s.lineage[call.token] in s.sessions
      && var o := s.sessions[s.lineage[call.token]]; o.user != call.user || o.epoch != call.epoch
    ensures id in After(c, r).calls && !Passed(After(c, r).calls[id])
  {
    Invariant(c, r);
    RefreshKeepsItsRead(c, p, r, id);
    HistoryIsKept(c, p, r, After(c, p).calls[id].token);
  }

  lemma HistoryStep(c: Config, s: State, a: Action, h: TokenHash)
    requires Enabled(s, a) && LinesAreOpened(s) && h in s.lineage
    ensures h in Step(c, s, a).lineage && Step(c, s, a).lineage[h] == s.lineage[h]
    ensures s.lineage[h] in Step(c, s, a).sessions && Step(c, s, a).sessions[s.lineage[h]] == s.sessions[s.lineage[h]]
  {
  }

  lemma {:induction false} HistoryIsKept(c: Config, p: Run, r: Run, h: TokenHash)
    requires Valid(c, r) && Prefix(p, r) && h in After(c, p).lineage && After(c, p).lineage[h] in After(c, p).sessions
    ensures h in After(c, r).lineage && After(c, r).lineage[h] == After(c, p).lineage[h]
    ensures After(c, p).lineage[h] in After(c, r).sessions
    ensures After(c, r).sessions[After(c, p).lineage[h]] == After(c, p).sessions[After(c, p).lineage[h]]
  {
    if p != r {
      HistoryIsKept(c, p, r.past, h);
      Invariant(c, r.past);
      HistoryStep(c, After(c, r.past), r.action, h);
    }
  }
}
