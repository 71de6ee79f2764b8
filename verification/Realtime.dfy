/** The index of connected sockets in the realtime gateway, against the rooms of the socket server.

    Events arrive in any order the server allows: a handshake is suspended while its token is verified,
    a socket may drop at any moment, and its disconnect event is delivered later. */
module Realtime {
  datatype User = User(id: string)
  datatype SocketId = SocketId(id: string)

  /** `users` is `client.data.userId` of every authenticated socket; `rooms` belongs to the server. */
  datatype State = State(
    index: map<User, set<SocketId>>,
    users: map<SocketId, User>,
    rooms: map<User, set<SocketId>>,
    dropped: set<SocketId>)

  function Members(m: map<User, set<SocketId>>, u: User): set<SocketId> {
    if u in m then m[u] else {}
  }

  // ----- what each handler does -----

  function Add(m: map<User, set<SocketId>>, u: User, c: SocketId): map<User, set<SocketId>> {
    m[u := Members(m, u) + {c}]
  }

  /** `set.delete(id); if (set.size === 0) userSockets.delete(user)`. */
  function Delete(m: map<User, set<SocketId>>, u: User, c: SocketId): map<User, set<SocketId>> {
    if u !in m then m
    else if m[u] - {c} == {} then m - {u}
    else m[u := m[u] - {c}]
  }

  datatype Event =
    | Verified(client: SocketId, user: User, joins: bool)
    | Drop(client: SocketId)
    | HandleDisconnect(client: SocketId)
    | DisconnectUser(user: User)

  /** `Verified` is the rest of handleConnection, after its token was verified. Whether a socket that dropped
      meanwhile is still put in the room is left open (`joins`): it depends on the socket server, and socket.io ^4.8
      (package.json:64) ignores such a join. A socket that did not drop is put in the room. */
  function Step(s: State, e: Event): State {
    match e
    case Verified(c, u, joins) =>
      s.(users := s.users[c := u],
         rooms := if joins || c !in s.dropped then Add(s.rooms, u, c) else s.rooms,
         index := Add(s.index, u, c))
    case Drop(c) =>
      s.(rooms := map u | u in s.rooms :: s.rooms[u] - {c}, dropped := s.dropped + {c})
    case HandleDisconnect(c) =>
      if c in s.users then s.(index := Delete(s.index, s.users[c], c)) else s
    case DisconnectUser(u) =>
      if u !in s.index then s
      else s.(dropped := s.dropped + Members(s.rooms, u), rooms := s.rooms[u := {}], index := s.index - {u})
  }

  /** A handshake completes once per socket; a disconnect event follows the drop, however late. */
  predicate Enabled(s: State, e: Event) {
    match e
    case Verified(c, _, _) => c !in s.users
    case HandleDisconnect(c) => c in s.dropped
    case _ => true
  }

  datatype Run = Start | Then(past: Run, event: Event)

  function After(r: Run): State {
    match r
    case Start => State(map[], map[], map[], {})
    case Then(past, e) => Step(After(past), e)
  }

  predicate Valid(r: Run) {
    match r
    case Start => true
    case Then(past, e) => Valid(past) && Enabled(After(past), e)
  }

  // ----- the invariant -----

  /** The sockets of a room that are still connected. */
  function Connected(s: State, u: User): set<SocketId> {
    Members(s.rooms, u) - s.dropped
  }

  ghost predicate Indexed(s: State) {
    && (forall u, c :: c in Connected(s, u) ==> c in Members(s.index, u))
    && (forall u :: u in s.index ==> s.index[u] != {})
    && (forall u, c :: c in Members(s.index, u) ==> c in s.users && s.users[c] == u)
    && (forall c :: c in s.users && c !in s.dropped ==> c in Members(s.rooms, s.users[c]))
  }

  lemma UsersStayInRoom(s: State, e: Event)
    requires Indexed(s) && Enabled(s, e)
    ensures
      var s' := Step(s, e);
      forall c :: c in s'.users && c !in s'.dropped ==> c in Members(s'.rooms, s'.users[c])
  {
    var s' := Step(s, e);
    forall c | c in s'.users && c !in s'.dropped ensures c in Members(s'.rooms, s'.users[c]) {
      assert c in s.users && c !in s.dropped ==> c in Connected(s, s.users[c]);
    }
  }

  lemma {:induction false} StepKeepsIndexed(s: State, e: Event)
    requires Indexed(s) && Enabled(s, e)
    ensures Indexed(Step(s, e))
  {
    var s' := Step(s, e);
    forall u, c | c in Connected(s', u) ensures c in Members(s'.index, u) {
      assert c in Connected(s, u) ==> c in Members(s.index, u) && s.users[c] == u;
    }
    forall u, c | c in Members(s'.index, u) ensures c in s'.users && s'.users[c] == u {
      assert c in Members(s.index, u) || (e.Verified? && e.client == c && e.user == u);
    }
    UsersStayInRoom(s, e);
  }

  lemma {:induction false} IndexInvariant(r: Run)
    requires Valid(r)
    ensures Indexed(After(r))
  {
    if r.Then? {
      IndexInvariant(r.past);
      StepKeepsIndexed(After(r.past), r.event);
    }
  }

  /** The sockets an event for `u` is sent to: none unless the index knows the user, otherwise the room. */
  function Reached(s: State, u: User): set<SocketId> {
    if u !in s.index then {} else Members(s.rooms, u)
  }

  /** Asking the index first loses nothing: an event reaches every connected socket of the room. */
  lemma {:induction false} GateIsTransparent(r: Run, u: User)
    requires Valid(r)
    ensures Reached(After(r), u) - After(r).dropped == Connected(After(r), u)
  {
    IndexInvariant(r);
    var s := After(r);
    if u !in s.index {
      assert forall c :: c in Connected(s, u) ==> c in Members(s.index, u);
      assert Connected(s, u) == {};
    }
  }

  /** A connected socket is in a user's room exactly when it is in the index, and exactly when it was authenticated as
      that user: whatever else the index holds has dropped. */
  lemma {:induction false} ConnectedExactly(r: Run, c: SocketId, u: User)
    requires Valid(r) && c !in After(r).dropped
    ensures c in Members(After(r).index, u) <==> c in Members(After(r).rooms, u)
    ensures c in Members(After(r).index, u) <==> c in After(r).users && After(r).users[c] == u
  {
    IndexInvariant(r);
    assert c in Members(After(r).rooms, u) ==> c in Connected(After(r), u);
  }

  predicate InNoRoom(s: State, c: SocketId) {
    forall u :: u in s.rooms ==> c !in s.rooms[u]
  }

  /** No disconnect event finds its socket back in a room. */
  predicate Prompt(r: Run) {
    match r
    case Start => true
    case Then(past, e) => Prompt(past) && (e.HandleDisconnect? ==> InNoRoom(After(past), e.client))
  }

  /** Every member of every room, dropped or not, is in the index. */
  ghost predicate Covered(s: State) {
    forall u, c :: c in Members(s.rooms, u) ==> c in Members(s.index, u)
  }

  ghost predicate AlwaysCovered(r: Run) {
    Covered(After(r)) && (r.Then? ==> AlwaysCovered(r.past))
  }

  lemma {:induction false} MembersAreUsers(r: Run, u: User, c: SocketId)
    requires Valid(r) && c in Members(After(r).rooms, u)
    ensures c in After(r).users && After(r).users[c] == u
  {
    var s := After(r.past);
    if c in Members(s.rooms, u) {
      MembersAreUsers(r.past, u, c);
    }
  }

  lemma StepKeepsCovered(r: Run, e: Event)
    requires Valid(r) && Covered(After(r))
    requires e.HandleDisconnect? ==> InNoRoom(After(r), e.client)
    ensures Covered(Step(After(r), e))
  {
    var s, s' := After(r), Step(After(r), e);
    forall u, c | c in Members(s'.rooms, u) ensures c in Members(s'.index, u) {
      if c in Members(s.rooms, u) {
        MembersAreUsers(r, u, c);
      }
    }
  }

  lemma LateEventUncovers(r: Run, c: SocketId)
    requires Valid(r) && !InNoRoom(After(r), c)
    ensures !Covered(Step(After(r), HandleDisconnect(c)))
  {
    var s, s' := After(r), Step(After(r), HandleDisconnect(c));
    var u :| u in s.rooms && c in s.rooms[u];
    assert c in Members(s.rooms, u);
    MembersAreUsers(r, u, c);
    assert c in Members(s'.rooms, u) && c !in Members(s'.index, u);
  }

  /** The index covers the rooms, dropped sockets included, at every moment of a run exactly when no disconnect event
      finds its socket back in a room. */
  lemma {:induction false} IndexCoversRooms(r: Run)
    requires Valid(r)
    ensures AlwaysCovered(r) <==> Prompt(r)
  {
    match r
    case Start =>
    case Then(past, e) =>
      IndexCoversRooms(past);
      if AlwaysCovered(past) {
        if e.HandleDisconnect? && !InNoRoom(After(past), e.client) {
          LateEventUncovers(past, e.client);
        } else {
          StepKeepsCovered(past, e);
        }
      }
  }

  /** A run in which it fails: the socket drops during its handshake, is put in the room, and its disconnect event
      comes last. */
  lemma {:induction false} LateJoinEscapesIndex(c: SocketId, u: User)
    ensures
      var r := Then(Then(Then(Start, Drop(c)), Verified(c, u, true)), HandleDisconnect(c));
      Valid(r) && c in Members(After(r).rooms, u) && c !in Members(After(r).index, u)
  {
    var dropped := Then(Start, Drop(c));
    var joined := Then(dropped, Verified(c, u, true));
    assert After(dropped).rooms == map[] && After(dropped).dropped == {c};
    assert Valid(dropped) && After(dropped) == State(map[], map[], map[], {c});
    assert Valid(joined) && After(joined) == State(map[u := {c}], map[c := u], map[u := {c}], {c});
  }

  /** The socket server ignores the join of a socket that has dropped. */
  predicate IgnoresLateJoins(r: Run) {
    match r
    case Start => true
    case Then(past, e) => IgnoresLateJoins(past) && (e.Verified? && e.client in After(past).dropped ==> !e.joins)
  }

  /** Then nobody in a room has dropped, and the index covers the rooms at every moment, whenever events arrive. */
  lemma {:induction false} IgnoredJoinsKeepCover(r: Run)
    requires Valid(r) && IgnoresLateJoins(r)
    ensures forall u, c :: c in Members(After(r).rooms, u) ==> c !in After(r).dropped
    ensures Prompt(r) && AlwaysCovered(r)
  {
    if r.Then? {
      IgnoredJoinsKeepCover(r.past);
      var s, s', e := After(r.past), After(r), r.event;
      forall u, c | c in Members(s'.rooms, u) ensures c !in s'.dropped {
        if c in Members(s.rooms, u) {
          MembersAreUsers(r.past, u, c);
        }
        if e.DisconnectUser? && c in Members(s.rooms, e.user) {
          MembersAreUsers(r.past, e.user, c);
        }
      }
      forall u | u in s.rooms ensures s.rooms[u] == Members(s.rooms, u) {
      }
    }
    IndexCoversRooms(r);
  }

  /** After disconnectUser nobody connected is left in the room, whether or not the index knew the user, and nobody
      else is touched: exactly the sockets that were connected there drop, none of a user the index does not know. */
  lemma {:induction false} DisconnectEmptiesRoom(r: Run, u: User)
    requires Valid(r)
    ensures
      var s, s' := After(r), Step(After(r), DisconnectUser(u));
      && Connected(s', u) == {} && u !in s'.index
      && (forall v :: v != u ==>
            Members(s'.rooms, v) == Members(s.rooms, v) && Members(s'.index, v) == Members(s.index, v))
      && s'.dropped == s.dropped + Connected(s, u) && s'.users == s.users
      && (u !in s.index ==> s' == s)
  {
    GateIsTransparent(r, u);
  }

  /** A late disconnect event removes its own socket and no other, neither of a newer session of the same user nor of
      anybody else. */
  lemma {:induction false} LateDisconnectIsLocal(r: Run, c: SocketId)
    requires Valid(r)
    ensures
      var s, s' := After(r), Step(After(r), HandleDisconnect(c));
      && s'.rooms == s.rooms
      && forall u, d :: d in Members(s'.index, u) <==> d in Members(s.index, u) && d != c
  {
    IndexInvariant(r);
    var s, s' := After(r), Step(After(r), HandleDisconnect(c));
    forall u ensures Members(s'.index, u) == Members(s.index, u) - {c} {
      if c in s.users && u == s.users[c] {
        assert Members(Delete(s.index, u, c), u) == Members(s.index, u) - {c};
      } else {
        assert c !in Members(s.index, u);
      }
    }
  }

  /** `c` was verified as `u`, and since then neither its disconnect event was delivered nor `u` was disconnected. */
  predicate Standing(r: Run, c: SocketId, u: User) {
    match r
    case Start => false
    case Then(past, e) =>
      match e
      case Verified(d, v, _) => (d == c && v == u) || Standing(past, c, u)
      case HandleDisconnect(d) => d != c && Standing(past, c, u)
      case DisconnectUser(v) => v != u && Standing(past, c, u)
      case Drop(_) => Standing(past, c, u)
  }

  /** What the index holds, dropped sockets included: a socket that is verified after its disconnect event stays
      until its user is disconnected. */
  lemma {:induction false} IndexExactly(r: Run, c: SocketId, u: User)
    requires Valid(r)
    ensures c in Members(After(r).index, u) <==> Standing(r, c, u)
  {
    if r.Then? {
      IndexExactly(r.past, c, u);
      IndexInvariant(r.past);
      if r.event.HandleDisconnect? {
        LateDisconnectIsLocal(r.past, r.event.client);
      }
    }
  }

  // ----- the gateway -----

  class RealtimeGateway {
    var userSockets: map<User, set<SocketId>>
    var clientUser: map<SocketId, User>
    var rooms: map<User, set<SocketId>>
    var dropped: set<SocketId>

    constructor ()
      ensures View() == After(Start)
    {
      userSockets, clientUser, rooms, dropped := map[], map[], map[], {};
    }

    function View(): State
      reads this
    {
      State(userSockets, clientUser, rooms, dropped)
    }

    method CompleteConnection(client: SocketId, userId: User, joins: bool)
      modifies this
      ensures View() == Step(old(View()), Verified(client, userId, joins))
    {
      clientUser := clientUser[client := userId];
      if joins || client !in dropped {
        rooms := Add(rooms, userId, client);
      }
      if userId !in userSockets {
        userSockets := userSockets[userId := {}];
      }
      userSockets := userSockets[userId := userSockets[userId] + {client}];
      assert userSockets == Add(old(userSockets), userId, client);
    }

    method HandleDisconnect(client: SocketId)
      modifies this`userSockets
      ensures View() == Step(old(View()), Event.HandleDisconnect(client))
    {
      if client !in clientUser {
        return;
      }
      var userId := clientUser[client];
      if userId !in userSockets {
        return;
      }
      userSockets := userSockets[userId := userSockets[userId] - {client}];
      if |userSockets[userId]| == 0 {
        userSockets := userSockets - {userId};
      }
      assert userSockets == Delete(old(userSockets), userId, client);
    }

    method EmitToUser(userId: User) returns (reached: set<SocketId>)
      ensures reached == Reached(View(), userId)
    {
      if userId !in userSockets {
        return {};
      }
      return if userId in rooms then rooms[userId] else {};
    }

    method DisconnectUser(userId: User)
      modifies this
      ensures View() == Step(old(View()), Event.DisconnectUser(userId))
    {
      if userId !in userSockets {
        return;
      }
      dropped := dropped + Members(rooms, userId);
      rooms := rooms[userId := {}];
      userSockets := userSockets - {userId};
    }
  }
}
