/** The activity stamp one statement at a time: validation reads the row and writes the stamp in two statements, so
    its write may come after a logout has cleared the stamp, or over a newer one. */
module SessionStamps {
  import opened SessionRows
  import opened SessionSteps
  import opened Wrappers
  import Session

  /** The instant at which `a` finds or makes `u` active, if it does. */
  function ActiveAt(s: State, a: Action, u: UserId): Option<int> {
    match a
    case BeginValidate(_, v, epoch, now) =>
      if v == u && ReadForValidate(s, v, epoch, now).Stamping? then Some(now) else None
    case Advance(id, now, _) =>
      if id in s.calls && (s.calls[id].RefreshCreated? || s.calls[id].LoginClear?) && s.calls[id].user == u
      then Some(now) else None
    case _ => None
  }

  /** The stamp `u` began with, and every instant at which it was active since. */
  function ActiveTimes(c: Config, r: Run, u: UserId): set<int> {
    match r
    case Start(users) => if u in users && users[u].lastSeenAt.Some? then {users[u].lastSeenAt.value} else {}
    case Then(past, a) =>
      ActiveTimes(c, past, u)
      + match ActiveAt(After(c, past), a, u) case None => {} case Some(t) => {t}
  }

  ghost predicate StampsAreReal(c: Config, r: Run, u: UserId) {
    var s, times := After(c, r), ActiveTimes(c, r, u);
    && (u in s.users && s.users[u].lastSeenAt.Some? ==> s.users[u].lastSeenAt.value in times)
    && (forall id :: id in s.calls && s.calls[id].Stamping? && s.calls[id].user == u ==> s.calls[id].at in times)
  }

  lemma StamperCameFrom(c: Config, s: State, a: Action, id: CallId)
    requires Enabled(s, a) && id in Step(c, s, a).calls && Step(c, s, a).calls[id].Stamping?
    ensures
      var call := Step(c, s, a).calls[id];
      (id in s.calls && s.calls[id] == call) || ActiveAt(s, a, call.user) == Some(call.at)
  {
  }

  lemma StampCameFrom(c: Config, s: State, a: Action, u: UserId)
    requires Enabled(s, a) && u in Step(c, s, a).users && Step(c, s, a).users[u].lastSeenAt.Some?
    ensures
      var stamp := Step(c, s, a).users[u].lastSeenAt;
      || (u in s.users && s.users[u].lastSeenAt == stamp)
      || ActiveAt(s, a, u) == stamp
      || (a.Advance? && s.calls[a.id] == Stamping(u, stamp.value))
  {
  }

  /** However statements are interleaved, a stamp is never made up: it is an instant at which its user was active. */
  lemma {:induction false} StampIsReal(c: Config, r: Run, u: UserId)
    requires Valid(c, r)
    ensures StampsAreReal(c, r, u)
  {
    if r.Then? {
      StampIsReal(c, r.past, u);
      var s, s' := After(c, r.past), After(c, r);
      if u in s'.users && s'.users[u].lastSeenAt.Some? {
        StampCameFrom(c, s, r.action, u);
      }
      forall id | id in s'.calls && s'.calls[id].Stamping? && s'.calls[id].user == u
        ensures s'.calls[id].at in ActiveTimes(c, r, u)
      {
        StamperCameFrom(c, s, r.action, id);
      }
    }
  }

  /** But it may be an old one. While the clock does not go back, the only statement that sets a stamp back is the late
      write of a validation. */
  lemma StampGoesBackExactly(c: Config, s: State, a: Action, u: UserId, stamp: int)
    requires Enabled(s, a) && u in s.users && s.users[u].lastSeenAt == Some(stamp) && (a.Advance? ==> stamp <= a.now)
    ensures u in Step(c, s, a).users
    ensures
      var after := Step(c, s, a).users[u].lastSeenAt;
      after.Some? && after.value < stamp <==>
        a.Advance? && s.calls[a.id].Stamping? && s.calls[a.id].user == u && s.calls[a.id].at < stamp
  {
  }

  lemma {:induction false} ValidationBegins(c: Config, p: Run, u: UserId, id: CallId, now: int)
    requires Valid(c, p) && Usable(After(c, p).users, u) && id !in After(c, p).calls
    requires Session.StampDue(After(c, p).users[u], now)
    ensures
      var s, r := After(c, p), Then(p, BeginValidate(id, u, After(c, p).users[u].sessionEpoch, now));
      Valid(c, r) && After(c, r) == s.(calls := s.calls[id := Stamping(u, now)])
  {
  }

  lemma StampingStep(c: Config, s: State, id: CallId, u: UserId, at: int, now: int, drawn: TokenHash)
    requires id in s.calls && s.calls[id] == Stamping(u, at) && u in s.users
    ensures
      Step(c, s, Advance(id, now, drawn))
        == s.(users := s.users[u := s.users[u].(lastSeenAt := Some(at))], calls := s.calls[id := Finished])
  {
  }

  lemma {:induction false} LogoutRuns(c: Config, p: Run, u: UserId, h: TokenHash, j: CallId, now: int, drawn: TokenHash)
    requires Valid(c, p) && u in After(c, p).users && j !in After(c, p).calls && drawn !in After(c, p).lineage
    ensures
      var s, r := After(c, p), Then(Then(p, BeginLogout(j, u, h)), Advance(j, now, drawn));
      && Valid(c, r) && After(c, r).lineage == s.lineage
      && After(c, r).users == s.users[u := s.users[u].(lastSeenAt := None)]
      && (forall i :: i in s.calls ==> i in After(c, r).calls && After(c, r).calls[i] == s.calls[i])
  {
    var one := Then(p, BeginLogout(j, u, h));
    assert Valid(c, one) && After(c, one).calls == After(c, p).calls[j := LogoutRevoked(u)];
    assert After(c, one).users == After(c, p).users && After(c, one).lineage == After(c, p).lineage;
  }

  /** The stamp comes back after a logout has cleared it: from every state in which it is due, a validation reads, a
      logout runs to its end, and the validation writes. */
  lemma {:induction false} StampOutlivesLogout(c: Config, p: Run, u: UserId, h: TokenHash, i: CallId, j: CallId,
      now: int, drawn: TokenHash)
    requires Valid(c, p) && Usable(After(c, p).users, u) && Session.StampDue(After(c, p).users[u], now)
    requires i != j && i !in After(c, p).calls && j !in After(c, p).calls && drawn !in After(c, p).lineage
    ensures
      var begun := Then(p, BeginValidate(i, u, After(c, p).users[u].sessionEpoch, now));
      var closed := Then(Then(begun, BeginLogout(j, u, h)), Advance(j, now, drawn));
      var r := Then(closed, Advance(i, now, drawn));
      && Valid(c, r) && u in After(c, closed).users && After(c, closed).users[u].lastSeenAt == None
      && u in After(c, r).users && After(c, r).users[u].lastSeenAt == Some(now)
  {
    ValidationBegins(c, p, u, i, now);
    var begun := Then(p, BeginValidate(i, u, After(c, p).users[u].sessionEpoch, now));
    LogoutRuns(c, begun, u, h, j, now, drawn);
    var closed := Then(Then(begun, BeginLogout(j, u, h)), Advance(j, now, drawn));
    StampingStep(c, After(c, closed), i, u, now, now, drawn);
  }

  /** And it goes back over a newer one: two validations read one after the other and write in the opposite order. */
  lemma {:induction false} StampGoesBack(c: Config, p: Run, u: UserId, i: CallId, j: CallId, now: int, later: int,
      drawn: TokenHash)
    requires Valid(c, p) && Usable(After(c, p).users, u) && Session.StampDue(After(c, p).users[u], now) && now < later
    requires i != j && i !in After(c, p).calls && j !in After(c, p).calls && drawn !in After(c, p).lineage
    ensures
      var e := After(c, p).users[u].sessionEpoch;
      var begun := Then(Then(p, BeginValidate(i, u, e, now)), BeginValidate(j, u, e, later));
      var newer := Then(begun, Advance(j, later, drawn));
      var r := Then(newer, Advance(i, later, drawn));
      && Valid(c, r) && u in After(c, newer).users && After(c, newer).users[u].lastSeenAt == Some(later)
      && u in After(c, r).users && After(c, r).users[u].lastSeenAt == Some(now)
  {
    var e := After(c, p).users[u].sessionEpoch;
    ValidationBegins(c, p, u, i, now);
    var one := Then(p, BeginValidate(i, u, e, now));
    ValidationBegins(c, one, u, j, later);
    var begun := Then(one, BeginValidate(j, u, e, later));
    StampingStep(c, After(c, begun), j, u, later, later, drawn);
    var newer := Then(begun, Advance(j, later, drawn));
    assert Valid(c, newer) && After(c, newer).calls[i] == Stamping(u, now);
    assert After(c, newer).lineage == After(c, p).lineage;
    StampingStep(c, After(c, newer), i, u, now, later, drawn);
  }
}
