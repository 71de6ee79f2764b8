/** Interleavings in which, for each user, at most one call is on its way to write the epoch: there every login
    writes over the epoch it read. A call that has written or died is out of the way. */
module SessionSerial {
  import opened SessionRows
  import opened SessionSteps
  import opened SessionEpochs

  /** It has yet to write the epoch of `u`. */
  predicate Writes(call: Call, u: UserId) {
    (call.LoginRead? || call.LoginClear? || call.CutRead?) && call.user == u
  }

  ghost predicate NobodyWrites(s: State, u: UserId) {
    forall id :: id in s.calls ==> !Writes(s.calls[id], u)
  }

  /** A call that will write begins only when no other is about to for its user. */
  ghost predicate Serial(c: Config, r: Run) {
    match r
    case Start(_) => true
    case Then(past, a) =>
      && Serial(c, past)
      && (a.BeginLogin? || a.BeginCut? ==>
            var begun := After(c, r).calls[a.id];
            Writes(begun, a.user) ==> NobodyWrites(After(c, past), a.user))
  }

  ghost predicate OneWriter(s: State) {
    forall i, j, u ::
      (i in s.calls && j in s.calls && Writes(s.calls[i], u) && Writes(s.calls[j], u)) ==> i == j
  }

  /** What a login read is the epoch its user still has when it writes. */
  ghost predicate LoginsAreCurrent(s: State) {
    forall id :: id in s.calls && (s.calls[id].LoginRead? || s.calls[id].LoginClear?) ==>
      s.calls[id].user in s.users && s.users[s.calls[id].user].sessionEpoch == s.calls[id].epoch
  }

  /** The premise of one step of a serial run. */
  ghost predicate StepIsSerial(c: Config, s: State, a: Action) {
    Enabled(s, a) &&
    (a.BeginLogin? || a.BeginCut? ==>
       Writes(Step(c, s, a).calls[a.id], a.user) ==> NobodyWrites(s, a.user))
  }

  lemma WriterCameFrom(c: Config, s: State, a: Action, i: CallId, u: UserId)
    requires StepIsSerial(c, s, a) && i in Step(c, s, a).calls && Writes(Step(c, s, a).calls[i], u)
    ensures i in s.calls ==> Writes(s.calls[i], u)
    ensures i !in s.calls ==> NobodyWrites(s, u) && i == a.id
  {
  }

  lemma StepKeepsOneWriter(c: Config, s: State, a: Action)
    requires StepIsSerial(c, s, a) && OneWriter(s)
    ensures OneWriter(Step(c, s, a))
  {
    var s' := Step(c, s, a);
    forall i, j, u | i in s'.calls && j in s'.calls && Writes(s'.calls[i], u) && Writes(s'.calls[j], u) ensures i == j {
      WriterCameFrom(c, s, a, i, u);
      WriterCameFrom(c, s, a, j, u);
    }
  }

  /** Epochs never decrease, and move only by the call that writes them. */
  lemma StepMovesEpochs(c: Config, s: State, a: Action, u: UserId)
    requires StepIsSerial(c, s, a) && LoginsAreCurrent(s) && u in s.users
    ensures u in Step(c, s, a).users
    ensures s.users[u].sessionEpoch <= Step(c, s, a).users[u].sessionEpoch
    ensures Step(c, s, a).users[u].sessionEpoch != s.users[u].sessionEpoch ==>
              a.Advance? && (s.calls[a.id].LoginClear? || s.calls[a.id].CutRead?) && s.calls[a.id].user == u
  {
  }

  lemma StepKeepsLoginsCurrent(c: Config, s: State, a: Action)
    requires StepIsSerial(c, s, a) && OneWriter(s) && LoginsAreCurrent(s)
    ensures LoginsAreCurrent(Step(c, s, a))
  {
    var s' := Step(c, s, a);
    forall id | id in s'.calls && (s'.calls[id].LoginRead? || s'.calls[id].LoginClear?)
      ensures s'.calls[id].user in s'.users && s'.users[s'.calls[id].user].sessionEpoch == s'.calls[id].epoch
    {
      var u := s'.calls[id].user;
      assert u in s.users;
      StepMovesEpochs(c, s, a, u);
      if a.Advance? && a.id != id && id in s.calls {
        assert Writes(s.calls[id], u);
      }
    }
  }

  lemma {:induction false} SerialInvariant(c: Config, r: Run)
    requires Valid(c, r) && Serial(c, r)
    ensures OneWriter(After(c, r)) && LoginsAreCurrent(After(c, r))
  {
    if r.Then? {
      SerialInvariant(c, r.past);
      StepKeepsOneWriter(c, After(c, r.past), r.action);
      StepKeepsLoginsCurrent(c, After(c, r.past), r.action);
    }
  }

  /** One such call at a time is enough for every result of `SessionEpochs`. */
  lemma {:induction false} SerialIsNeverStale(c: Config, r: Run)
    requires Valid(c, r) && Serial(c, r)
    ensures NoStaleWrite(c, r)
  {
    if r.Then? {
      SerialIsNeverStale(c, r.past);
      SerialInvariant(c, r.past);
    }
  }

  /** The premise survives crashes: once the writing call of a user has died, at whatever statement, the next login or
      cut of that user may begin. */
  lemma {:induction false} CrashedWriterMakesRoom(c: Config, r: Run, id: CallId, u: UserId, a: Action)
    requires Valid(c, r) && Serial(c, r) && id in After(c, r).calls && Writes(After(c, r).calls[id], u)
    requires (a.BeginLogin? || a.BeginCut?) && a.user == u
    ensures Serial(c, Then(Then(r, Crash(id)), a))
  {
    SerialInvariant(c, r);
    assert Serial(c, Then(r, Crash(id)));
    assert NobodyWrites(After(c, Then(r, Crash(id))), u);
  }
}
