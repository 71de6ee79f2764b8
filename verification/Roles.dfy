/** The role hierarchy: two implementations of rank, and what no sequence of grants can reach. */
module Roles {
  datatype RoleType = SUPER_ADMIN | NOTARIO | MATRIZADOR | ARCHIVADOR | Other(name: string)

  datatype RoleId = RoleId(uuid: string)
  datatype UserId = UserId(uuid: string)

  /** Lower index = higher authority. */
  const ROLE_HIERARCHY: seq<RoleType> := [SUPER_ADMIN, NOTARIO, MATRIZADOR, ARCHIVADOR]

  /** `ROLE_HIERARCHY.indexOf(t)`. */
  function IndexOf(t: RoleType): (i: int)
    ensures if i == -1 then t !in ROLE_HIERARCHY else 0 <= i < |ROLE_HIERARCHY| && ROLE_HIERARCHY[i] == t
  {
    match t
    case SUPER_ADMIN => 0
    case NOTARIO => 1
    case MATRIZADOR => 2
    case ARCHIVADOR => 3
    case Other(_) => -1
  }

  // ----- rank, first implementation (roles service) -----

  /** `Math.min` of no arguments is Infinity. */
  datatype Bound = Finite(n: nat) | Infinity

  function RankOf(t: RoleType): nat {
    if IndexOf(t) == -1 then |ROLE_HIERARCHY| else IndexOf(t)
  }

  function MinBound(a: nat, b: Bound): Bound {
    match b case Infinity => Finite(a) case Finite(n) => if a < n then Finite(a) else b
  }

  function HighestRank(roles: seq<RoleType>): Bound {
    if roles == [] then Infinity else MinBound(RankOf(roles[0]), HighestRank(roles[1..]))
  }

  /** `targetRoleRank <= requesterHighestRank`. */
  predicate RefusedByRoles(target: RoleType, requester: seq<RoleType>) {
    match HighestRank(requester) case Infinity => true case Finite(n) => RankOf(target) <= n
  }

  // ----- rank, second implementation (users service) -----

  function Reduce(roles: seq<RoleType>, min: int): int {
    if roles == [] then min
    else
      var idx := IndexOf(roles[0]);
      Reduce(roles[1..], if idx != -1 && idx < min then idx else min)
  }

  predicate RefusedByUsers(target: RoleType, requester: seq<RoleType>) {
    IndexOf(target) <= Reduce(requester, |ROLE_HIERARCHY|)
  }

  // ----- the two agree -----

  lemma {:induction false} HighestRankIsLeast(roles: seq<RoleType>)
    ensures HighestRank(roles) == Infinity <==> roles == []
    ensures forall t :: t in roles ==> HighestRank(roles).n <= RankOf(t)
    ensures roles != [] ==> exists t :: t in roles && HighestRank(roles).n == RankOf(t)
  {
    if roles != [] {
      HighestRankIsLeast(roles[1..]);
      assert roles == [roles[0]] + roles[1..];
      if roles[1..] != [] {
        var t :| t in roles[1..] && HighestRank(roles[1..]).n == RankOf(t);
        assert t in roles && roles[0] in roles;
      } else {
        assert roles[0] in roles;
      }
    }
  }

  lemma {:induction false} ReduceIsHighestRank(roles: seq<RoleType>, min: int)
    requires 0 <= min <= |ROLE_HIERARCHY|
    ensures Reduce(roles, min) == match HighestRank(roles)
                                  case Infinity => min
                                  case Finite(n) => if n < min then n else min
  {
    if roles != [] {
      var idx := IndexOf(roles[0]);
      ReduceIsHighestRank(roles[1..], if idx != -1 && idx < min then idx else min);
    }
  }

  predicate InHierarchy(t: RoleType) {
    IndexOf(t) != -1
  }

  /** The two services decide identically exactly for a target inside the hierarchy, or a requester with no ranked role
      at all; the empty requester is refused everything by both. The stored enumeration has no value outside the
      hierarchy, so on stored roles they always agree. */
  lemma DecisionsAgreeExactly(target: RoleType, requester: seq<RoleType>)
    ensures (RefusedByRoles(target, requester) <==> RefusedByUsers(target, requester))
       <==> InHierarchy(target) || forall t :: t in requester ==> !InHierarchy(t)
    ensures requester == [] ==> RefusedByRoles(target, requester) && RefusedByUsers(target, requester)
  {
    ReduceIsHighestRank(requester, |ROLE_HIERARCHY|);
    HighestRankIsLeast(requester);
  }

  // ----- the calls -----

  datatype Role = Role(kind: RoleType, isDeleted: bool)

  type Table = map<RoleId, Role>

  /** `held` has an entry for every user that is not deleted, and the roles of a deleted user stay. */
  datatype State = State(held: map<UserId, set<RoleId>>, deleted: set<UserId>)

  datatype Op =
    | Assign(actor: UserId, asOf: Run, roles: seq<RoleType>, user: UserId, role: RoleId)
    | Revoke(actor: UserId, asOf: Run, roles: seq<RoleType>, user: UserId, role: RoleId)
    | Create(actor: UserId, asOf: Run, roles: seq<RoleType>, user: UserId, roleIds: seq<RoleId>)
    | Update(actor: UserId, asOf: Run, roles: seq<RoleType>, user: UserId, roleIds: seq<RoleId>)

  /** A list of calls; each carries the roles its actor was seen with, as of some earlier moment of the run. */
  datatype Run = Start | Then(past: Run, op: Op)

  datatype Reply = Ok | NotFound | Forbidden | Failed

  function Ids(roleIds: seq<RoleId>): set<RoleId> {
    set id | id in roleIds
  }

  predicate Distinct(roleIds: seq<RoleId>) {
    forall i, j :: 0 <= i < j < |roleIds| ==> roleIds[i] != roleIds[j]
  }

  /** `validateRoleCreationPermission` throws; role ids without a row are not looked at. */
  predicate CreationForbidden(table: Table, roleIds: seq<RoleId>, requester: seq<RoleType>) {
    exists id :: id in roleIds && id in table && RefusedByUsers(table[id].kind, requester)
  }

  function ApplyAssign(table: Table, s: State, requester: seq<RoleType>, user: UserId, role: RoleId)
    : (State, Reply)
  {
    if !(role in table && !table[role].isDeleted) then (s, NotFound)
    else if RefusedByRoles(table[role].kind, requester) then (s, Forbidden)
    else if !(user in s.held && user !in s.deleted) then (s, NotFound)
    else (s.(held := s.held[user := s.held[user] + {role}]), Ok)
  }

  function ApplyRevoke(table: Table, s: State, requester: seq<RoleType>, user: UserId, role: RoleId)
    : (State, Reply)
  {
    if role !in table then (s, NotFound)
    else if RefusedByRoles(table[role].kind, requester) then (s, Forbidden)
    else (if user in s.held then s.(held := s.held[user := s.held[user] - {role}]) else s, Ok)
  }

  /** A missing or a repeated role id makes the insert fail as a whole. */
  function ApplyCreate(table: Table, s: State, requester: seq<RoleType>, user: UserId, roleIds: seq<RoleId>)
    : (State, Reply)
  {
    if SUPER_ADMIN !in requester && roleIds != [] && CreationForbidden(table, roleIds, requester) then (s, Forbidden)
    else if user in s.held || !(Ids(roleIds) <= table.Keys) || !Distinct(roleIds) then (s, Failed)
    else (s.(held := s.held[user := Ids(roleIds)]), Ok)
  }

  /** Deleting the old roles and inserting the new ones are two statements: a missing role id fails the second only. */
  function ApplyUpdate(table: Table, s: State, requester: seq<RoleType>, user: UserId, roleIds: seq<RoleId>)
    : (State, Reply)
  {
    if !(user in s.held && user !in s.deleted) then (s, NotFound)
    else if roleIds == [] then (s, Ok)
    else if SUPER_ADMIN !in requester && CreationForbidden(table, roleIds, requester) then (s, Forbidden)
    else if !(Ids(roleIds) <= table.Keys) then (s.(held := s.held[user := {}]), Failed)
    else (s.(held := s.held[user := Ids(roleIds)]), Ok)
  }

  function Apply(table: Table, s: State, op: Op): (State, Reply) {
    match op
    case Assign(_, _, requester, user, role) => ApplyAssign(table, s, requester, user, role)
    case Revoke(_, _, requester, user, role) => ApplyRevoke(table, s, requester, user, role)
    case Create(_, _, requester, user, roleIds) => ApplyCreate(table, s, requester, user, roleIds)
    case Update(_, _, requester, user, roleIds) => ApplyUpdate(table, s, requester, user, roleIds)
  }

  function After(table: Table, init: State, r: Run): State {
    match r
    case Start => init
    case Then(past, op) => Apply(table, After(table, init, past), op).0
  }

  predicate Prefix(p: Run, r: Run) {
    p == r || (r.Then? && Prefix(p, r.past))
  }

  predicate Holds(s: State, user: UserId, role: RoleId) {
    user in s.held && role in s.held[user]
  }

  /** The coalition and everybody it created so far. */
  function Actors(table: Table, init: State, coalition: set<UserId>, r: Run): set<UserId> {
    match r
    case Start => coalition
    case Then(past, op) =>
      Actors(table, init, coalition, past)
      + if op.Create? && Apply(table, After(table, init, past), op).1 == Ok then {op.user} else {}
  }

  /** Every call is made by an actor, with roles (in any order) its rows gave it at some earlier moment. */
  ghost predicate Valid(table: Table, init: State, coalition: set<UserId>, r: Run) {
    match r
    case Start => forall u, id :: Holds(init, u, id) ==> id in table
    case Then(past, op) =>
      && Valid(table, init, coalition, past)
      && op.actor in Actors(table, init, coalition, past)
      && Prefix(op.asOf, past)
      && forall t :: t in op.roles ==>
           exists id :: Holds(After(table, init, op.asOf), op.actor, id) && id in table && table[id].kind == t
  }

  // ----- what each call answers and stores -----

  /** The order of the hierarchy, and what is outside it. */
  lemma RanksInOrder(name: string)
    ensures RankOf(SUPER_ADMIN) < RankOf(NOTARIO) < RankOf(MATRIZADOR) < RankOf(ARCHIVADOR) < RankOf(Other(name))
    ensures InHierarchy(SUPER_ADMIN) && InHierarchy(NOTARIO) && InHierarchy(MATRIZADOR) && InHierarchy(ARCHIVADOR)
    ensures !InHierarchy(Other(name))
  {
  }

  /** Some role of the requester is strictly above `target`. */
  ghost predicate Outranks(requester: seq<RoleType>, target: RoleType) {
    exists t :: t in requester && RankOf(t) < RankOf(target)
  }

  lemma {:induction false} RefusedExactly(target: RoleType, requester: seq<RoleType>)
    ensures RefusedByRoles(target, requester) <==> !Outranks(requester, target)
    ensures RefusedByUsers(target, requester) <==> !(InHierarchy(target) && Outranks(requester, target))
  {
    HighestRankIsLeast(requester);
    ReduceIsHighestRank(requester, |ROLE_HIERARCHY|);
  }

  predicate PresentUser(s: State, user: UserId) {
    user in s.held && user !in s.deleted
  }

  /** `user` holds exactly the roles that `kept` selects, and nothing else changes. */
  ghost predicate HoldsExactly(s: State, s': State, user: UserId, kept: RoleId -> bool) {
    && s'.deleted == s.deleted && user in s'.held && (forall id :: id in s'.held[user] <==> kept(id))
    && s'.held - {user} == s.held - {user}
  }

  lemma {:induction false} AssignExactly(table: Table, s: State, requester: seq<RoleType>, user: UserId, role: RoleId)
    ensures
      var (s', reply) := ApplyAssign(table, s, requester, user, role);
      && (reply == Ok <==>
            && role in table && !table[role].isDeleted && Outranks(requester, table[role].kind) && PresentUser(s, user))
      && (reply == Forbidden <==> role in table && !table[role].isDeleted && !Outranks(requester, table[role].kind))
      && reply in {Ok, Forbidden, NotFound}
      && if reply == Ok then HoldsExactly(s, s', user, id => Holds(s, user, id) || id == role) else s' == s
  {
    if role in table {
      RefusedExactly(table[role].kind, requester);
    }
  }

  /** Of a user without an entry nothing is revoked, and the answer is the same. */
  lemma {:induction false} RevokeExactly(table: Table, s: State, requester: seq<RoleType>, user: UserId, role: RoleId)
    ensures
      var (s', reply) := ApplyRevoke(table, s, requester, user, role);
      && (reply == Ok <==> role in table && Outranks(requester, table[role].kind))
      && (reply == Forbidden <==> role in table && !Outranks(requester, table[role].kind))
      && reply in {Ok, Forbidden, NotFound}
      && if reply == Ok && user in s.held then HoldsExactly(s, s', user, id => Holds(s, user, id) && id != role)
         else s' == s
  {
    if role in table {
      RefusedExactly(table[role].kind, requester);
    }
  }

  /** Every stored role of the list is strictly below some role of the requester, or the requester is a SUPER_ADMIN. */
  ghost predicate MayGive(table: Table, requester: seq<RoleType>, roleIds: seq<RoleId>) {
    SUPER_ADMIN in requester
    || forall id :: id in roleIds && id in table ==> InHierarchy(table[id].kind) && Outranks(requester, table[id].kind)
  }

  lemma {:induction false} MayGiveExactly(table: Table, requester: seq<RoleType>, roleIds: seq<RoleId>)
    ensures MayGive(table, requester, roleIds) <==>
              SUPER_ADMIN in requester || !CreationForbidden(table, roleIds, requester)
  {
    forall id | id in roleIds && id in table
      ensures RefusedByUsers(table[id].kind, requester) <==>
                !(InHierarchy(table[id].kind) && Outranks(requester, table[id].kind))
    {
      RefusedExactly(table[id].kind, requester);
    }
  }

  lemma {:induction false} CreateExactly(table: Table, s: State, requester: seq<RoleType>, user: UserId,
      roleIds: seq<RoleId>)
    ensures
      var (s', reply) := ApplyCreate(table, s, requester, user, roleIds);
      && (reply == Forbidden <==> !MayGive(table, requester, roleIds))
      && (reply == Ok <==>
            && MayGive(table, requester, roleIds) && user !in s.held
            && (forall i :: 0 <= i < |roleIds| ==> roleIds[i] in table && roleIds[i] !in roleIds[..i]))
      && reply in {Ok, Forbidden, Failed}
      && if reply == Ok then HoldsExactly(s, s', user, id => id in roleIds) else s' == s
  {
    MayGiveExactly(table, requester, roleIds);
    assert Distinct(roleIds) <==> forall i :: 0 <= i < |roleIds| ==> roleIds[i] !in roleIds[..i];
    assert Ids(roleIds) <= table.Keys <==> forall i :: 0 <= i < |roleIds| ==> roleIds[i] in table;
  }

  /** The old roles are gone once the new ones are permitted, even when those cannot be stored. */
  lemma {:induction false} UpdateExactly(table: Table, s: State, requester: seq<RoleType>, user: UserId,
      roleIds: seq<RoleId>)
    ensures
      var (s', reply) := ApplyUpdate(table, s, requester, user, roleIds);
      var stored := forall id :: id in roleIds ==> id in table;
      && (reply == NotFound <==> !PresentUser(s, user))
      && (reply == Forbidden <==> PresentUser(s, user) && !MayGive(table, requester, roleIds))
      && (reply == Failed <==> PresentUser(s, user) && MayGive(table, requester, roleIds) && !stored)
      && reply in {Ok, NotFound, Forbidden, Failed}
      && if roleIds == [] || reply in {NotFound, Forbidden} then s' == s
         else HoldsExactly(s, s', user, id => stored && id in roleIds)
  {
    MayGiveExactly(table, requester, roleIds);
    assert Ids(roleIds) <= table.Keys <==> forall id :: id in roleIds ==> id in table;
  }

  // ----- no escalation -----

  /** No role of rank `k` or above is held by anyone who did not hold it at the start. */
  ghost predicate Contained(table: Table, init: State, s: State, k: nat) {
    forall u, id :: Holds(s, u, id) && id in table && RankOf(table[id].kind) <= k ==> Holds(init, u, id)
  }

  lemma WeakRequesterGrantsBelow(target: RoleType, requester: seq<RoleType>, k: nat)
    requires 1 <= k <= |ROLE_HIERARCHY| && forall t :: t in requester ==> RankOf(t) >= k
    ensures SUPER_ADMIN !in requester
    ensures !RefusedByRoles(target, requester) ==> RankOf(target) > k
    ensures !RefusedByUsers(target, requester) && InHierarchy(target) ==> RankOf(target) > k
  {
    HighestRankIsLeast(requester);
    ReduceIsHighestRank(requester, |ROLE_HIERARCHY|);
  }

  lemma StepIsContained(table: Table, init: State, s: State, op: Op, k: nat)
    requires 1 <= k <= |ROLE_HIERARCHY| && Contained(table, init, s, k)
    requires forall id :: id in table ==> InHierarchy(table[id].kind)
    requires forall t :: t in op.roles ==> RankOf(t) >= k
    ensures Contained(table, init, Apply(table, s, op).0, k)
  {
    var s' := Apply(table, s, op).0;
    forall u, id | Holds(s', u, id) && id in table && RankOf(table[id].kind) <= k ensures Holds(init, u, id) {
      WeakRequesterGrantsBelow(table[id].kind, op.roles, k);
    }
  }

  /** The rank of everything an actor holds, at any moment, is at least that of the coalition. */
  lemma ActorsStayWeak(table: Table, init: State, coalition: set<UserId>, r: Run, k: nat, u: UserId, id: RoleId)
    requires Contained(table, init, After(table, init, r), k)
    requires forall v, i :: v in coalition && Holds(init, v, i) && i in table ==> RankOf(table[i].kind) >= k
    requires u in coalition || u !in init.held
    requires Holds(After(table, init, r), u, id) && id in table
    ensures RankOf(table[id].kind) >= k
  {
  }

  lemma {:induction false} CreatedWereUnknown(table: Table, init: State, coalition: set<UserId>, r: Run, u: UserId)
    requires u in Actors(table, init, coalition, r)
    ensures u in coalition || u !in init.held
    ensures init.held.Keys <= After(table, init, r).held.Keys
  {
    match r
    case Start =>
    case Then(past, op) =>
      UsersStay(table, init, past);
      if u in Actors(table, init, coalition, past) {
        CreatedWereUnknown(table, init, coalition, past, u);
      }
  }

  lemma {:induction false} UsersStay(table: Table, init: State, r: Run)
    ensures init.held.Keys <= After(table, init, r).held.Keys
  {
    if r.Then? {
      UsersStay(table, init, r.past);
    }
  }

  lemma {:induction false} ContainedRequesterIsWeak(table: Table, init: State, coalition: set<UserId>, r: Run, k: nat)
    requires r.Then? && Valid(table, init, coalition, r) && Contained(table, init, After(table, init, r.op.asOf), k)
    requires forall u, id :: u in coalition && Holds(init, u, id) && id in table ==> RankOf(table[id].kind) >= k
    ensures forall t :: t in r.op.roles ==> RankOf(t) >= k
  {
    var op := r.op;
    CreatedWereUnknown(table, init, coalition, r.past, op.actor);
    forall t | t in op.roles ensures RankOf(t) >= k {
      var id :| Holds(After(table, init, op.asOf), op.actor, id) && id in table && table[id].kind == t;
      ActorsStayWeak(table, init, coalition, op.asOf, k, op.actor, id);
    }
  }

  /** No escalation by collusion: whatever non-SUPER_ADMIN requesters of best rank `k`, and users they create, assign,
      revoke, create and update, in any order and with stale views of their own roles, at no moment does anybody hold a
      role of rank `k` or above that they did not hold at the start. */
  lemma {:induction false} NoEscalation(table: Table, init: State, coalition: set<UserId>, p: Run, r: Run, k: nat)
    requires 1 <= k <= |ROLE_HIERARCHY|
    requires forall id :: id in table ==> InHierarchy(table[id].kind)
    requires forall u, id :: u in coalition && Holds(init, u, id) && id in table ==> RankOf(table[id].kind) >= k
    requires Valid(table, init, coalition, r) && Prefix(p, r)
    ensures Contained(table, init, After(table, init, p), k)
    decreases r
  {
    if r.Then? {
      if p != r {
        NoEscalation(table, init, coalition, p, r.past, k);
      } else {
        NoEscalation(table, init, coalition, r.past, r.past, k);
        NoEscalation(table, init, coalition, r.op.asOf, r.past, k);
        ContainedRequesterIsWeak(table, init, coalition, r, k);
        StepIsContained(table, init, After(table, init, r.past), r.op, k);
      }
    }
  }

  /** No call of such a run is made with a role above the best rank of the coalition. */
  lemma {:induction false} RequesterIsWeak(table: Table, init: State, coalition: set<UserId>, r: Run, k: nat)
    requires 1 <= k <= |ROLE_HIERARCHY| && r.Then? && Valid(table, init, coalition, r)
    requires forall id :: id in table ==> InHierarchy(table[id].kind)
    requires forall u, id :: u in coalition && Holds(init, u, id) && id in table ==> RankOf(table[id].kind) >= k
    ensures forall t :: t in r.op.roles ==> RankOf(t) >= k
  {
    NoEscalation(table, init, coalition, r.op.asOf, r.past, k);
    ContainedRequesterIsWeak(table, init, coalition, r, k);
  }

  /** `requester` lists the kinds of the roles that `user` holds, in some order. */
  ghost predicate KindsOf(table: Table, s: State, user: UserId, requester: seq<RoleType>) {
    forall t :: t in requester <==> exists id :: Holds(s, user, id) && id in table && table[id].kind == t
  }

  /** The premises of `NoEscalation`, and a member whose roles `requester` has the best rank `k` of the coalition. */
  ghost predicate BestRank(table: Table, init: State, coalition: set<UserId>, actor: UserId, requester: seq<RoleType>,
      k: nat)
  {
    && 1 <= k <= |ROLE_HIERARCHY| && Valid(table, init, coalition, Start)
    && (forall id :: id in table ==> InHierarchy(table[id].kind))
    && (forall u, id :: u in coalition && Holds(init, u, id) && id in table ==> RankOf(table[id].kind) >= k)
    && actor in coalition && KindsOf(table, init, actor, requester) && HighestRank(requester) == Finite(k)
  }

  ghost predicate Reachable(table: Table, init: State, coalition: set<UserId>, user: UserId, role: RoleId) {
    exists r :: Valid(table, init, coalition, r) && Holds(After(table, init, r), user, role)
  }

  lemma OneUpdateReaches(table: Table, init: State, coalition: set<UserId>, actor: UserId, requester: seq<RoleType>,
      user: UserId, role: RoleId)
    requires Valid(table, init, coalition, Start) && actor in coalition && KindsOf(table, init, actor, requester)
    requires user in init.held && user !in init.deleted && role in table
    requires !RefusedByUsers(table[role].kind, requester)
    ensures Reachable(table, init, coalition, user, role)
  {
    var r := Then(Start, Update(actor, Start, requester, user, [role]));
    assert Prefix(Start, Start) && Valid(table, init, coalition, r);
    assert Ids([role]) == {role};
    assert Holds(After(table, init, r), user, role);
  }

  /** The bound is exact: what a coalition whose best rank `k` one member has can bring to a present user who lacks
      it is every stored role strictly below `k`, and no other. */
  lemma {:induction false} ReachableExactly(table: Table, init: State, coalition: set<UserId>, actor: UserId,
      requester: seq<RoleType>, user: UserId, role: RoleId, k: nat)
    requires BestRank(table, init, coalition, actor, requester, k)
    requires user in init.held && user !in init.deleted && role in table && !Holds(init, user, role)
    ensures Reachable(table, init, coalition, user, role) <==> RankOf(table[role].kind) > k
  {
    if RankOf(table[role].kind) > k {
      ReduceIsHighestRank(requester, |ROLE_HIERARCHY|);
      OneUpdateReaches(table, init, coalition, actor, requester, user, role);
    }
    forall r | Valid(table, init, coalition, r) && Holds(After(table, init, r), user, role)
      ensures RankOf(table[role].kind) > k
    {
      assert Prefix(r, r);
      NoEscalation(table, init, coalition, r, r, k);
    }
  }

  // ----- what a coalition can take away -----

  ghost predicate Removable(table: Table, init: State, coalition: set<UserId>, user: UserId, role: RoleId) {
    exists r :: Valid(table, init, coalition, r) && !Holds(After(table, init, r), user, role)
  }

  lemma {:induction false} Longer(ids: set<RoleId>) returns (n: nat)
    ensures forall id :: id in ids ==> |id.uuid| < n
    decreases |ids|
  {
    n := 0;
    if ids != {} {
      var id :| id in ids;
      var rest := Longer(ids - {id});
      n := if |id.uuid| < rest then rest else |id.uuid| + 1;
    }
  }

  /** An update whose new roles cannot be stored still deletes the old ones. */
  lemma {:induction false} UpdateStrips(table: Table, init: State, coalition: set<UserId>, actor: UserId,
      requester: seq<RoleType>, user: UserId, role: RoleId, k: nat)
    requires BestRank(table, init, coalition, actor, requester, k)
    requires user in init.held && user !in init.deleted && role in table
    ensures Removable(table, init, coalition, user, role)
  {
    var n := Longer(table.Keys);
    var unknown := RoleId(seq(n, _ => 'x'));
    assert unknown !in table;
    var r := Then(Start, Update(actor, Start, requester, user, [unknown]));
    assert Prefix(Start, Start) && Valid(table, init, coalition, r);
    assert unknown in [unknown] && unknown in Ids([unknown]);
    assert !Holds(After(table, init, r), user, role);
  }

  lemma {:induction false} RevokeStrips(table: Table, init: State, coalition: set<UserId>, actor: UserId,
      requester: seq<RoleType>, user: UserId, role: RoleId, k: nat)
    requires BestRank(table, init, coalition, actor, requester, k)
    requires user in init.held && role in table && RankOf(table[role].kind) > k
    ensures Removable(table, init, coalition, user, role)
  {
    var r := Then(Start, Revoke(actor, Start, requester, user, role));
    assert Prefix(Start, Start) && Valid(table, init, coalition, r);
    assert !Holds(After(table, init, r), user, role);
  }

  lemma DeletedKeepsHighRole(table: Table, s: State, op: Op, user: UserId, role: RoleId, k: nat)
    requires 1 <= k <= |ROLE_HIERARCHY| && forall t :: t in op.roles ==> RankOf(t) >= k
    requires user in s.deleted && Holds(s, user, role) && role in table && RankOf(table[role].kind) <= k
    ensures user in Apply(table, s, op).0.deleted && Holds(Apply(table, s, op).0, user, role)
  {
    WeakRequesterGrantsBelow(table[role].kind, op.roles, k);
  }

  lemma {:induction false} DeletedKeepsHighRoles(table: Table, init: State, coalition: set<UserId>, r: Run,
      user: UserId, role: RoleId, k: nat)
    requires 1 <= k <= |ROLE_HIERARCHY| && Valid(table, init, coalition, r)
    requires forall id :: id in table ==> InHierarchy(table[id].kind)
    requires forall u, id :: u in coalition && Holds(init, u, id) && id in table ==> RankOf(table[id].kind) >= k
    requires user in init.deleted && Holds(init, user, role) && role in table && RankOf(table[role].kind) <= k
    ensures user in After(table, init, r).deleted && Holds(After(table, init, r), user, role)
  {
    if r.Then? {
      DeletedKeepsHighRoles(table, init, coalition, r.past, user, role, k);
      RequesterIsWeak(table, init, coalition, r, k);
      DeletedKeepsHighRole(table, After(table, init, r.past), r.op, user, role, k);
    }
  }

  /** What it can take away is not bounded by rank: every role of a present user, the highest included, because an
      update replaces the roles of its user without asking their rank; of a deleted user, whom updates do not reach,
      exactly the roles strictly below `k`, which a revocation takes. */
  lemma {:induction false} RemovableExactly(table: Table, init: State, coalition: set<UserId>, actor: UserId,
      requester: seq<RoleType>, user: UserId, role: RoleId, k: nat)
    requires BestRank(table, init, coalition, actor, requester, k) && Holds(init, user, role)
    ensures role in table
    ensures Removable(table, init, coalition, user, role) <==> user !in init.deleted || RankOf(table[role].kind) > k
  {
    if user !in init.deleted {
      UpdateStrips(table, init, coalition, actor, requester, user, role, k);
    } else if RankOf(table[role].kind) > k {
      RevokeStrips(table, init, coalition, actor, requester, user, role, k);
    } else {
      forall r | Valid(table, init, coalition, r) ensures Holds(After(table, init, r), user, role) {
        DeletedKeepsHighRoles(table, init, coalition, r, user, role, k);
      }
    }
  }

  // ----- the services -----

  class RoleStore {
    const table: Table
    var held: map<UserId, set<RoleId>>
    var deleted: set<UserId>

    constructor (table: Table, init: State)
      ensures this.table == table && View() == init
    {
      this.table, held, deleted := table, init.held, init.deleted;
    }

    function View(): State
      reads this
    {
      State(held, deleted)
    }

    method AssignToUser(user: UserId, role: RoleId, requesterRoles: seq<RoleType>) returns (reply: Reply)
      modifies this`held
      ensures (View(), reply) == ApplyAssign(table, old(View()), requesterRoles, user, role)
    {
      if role !in table || table[role].isDeleted {
        return NotFound;
      }
      if RefusedByRoles(table[role].kind, requesterRoles) {
        return Forbidden;
      }
      if user !in held || user in deleted {
        return NotFound;
      }
      held := held[user := held[user] + {role}];
      return Ok;
    }

    method RevokeFromUser(user: UserId, role: RoleId, requesterRoles: seq<RoleType>) returns (reply: Reply)
      modifies this`held
      ensures (View(), reply) == ApplyRevoke(table, old(View()), requesterRoles, user, role)
    {
      if role !in table {
        return NotFound;
      }
      if RefusedByRoles(table[role].kind, requesterRoles) {
        return Forbidden;
      }
      if user in held {
        held := held[user := held[user] - {role}];
      }
      return Ok;
    }

    method ValidateRoleCreationPermission(roleIds: seq<RoleId>, requesterRoles: seq<RoleType>) returns (allowed: bool)
      ensures allowed == !CreationForbidden(table, roleIds, requesterRoles)
    {
      var min := |ROLE_HIERARCHY|;
      for i := 0 to |requesterRoles|
        invariant Reduce(requesterRoles[i..], min) == Reduce(requesterRoles, |ROLE_HIERARCHY|)
      {
        var idx := IndexOf(requesterRoles[i]);
        assert requesterRoles[i..][0] == requesterRoles[i] && requesterRoles[i..][1..] == requesterRoles[i + 1..];
        if idx != -1 && idx < min {
          min := idx;
        }
      }
      for i := 0 to |roleIds|
        invariant forall id :: id in roleIds[..i] && id in table ==> !RefusedByUsers(table[id].kind, requesterRoles)
      {
        if roleIds[i] in table {
          var idx := IndexOf(table[roleIds[i]].kind);
          if idx <= min {
            return false;
          }
        }
      }
      assert roleIds[..|roleIds|] == roleIds;
      return true;
    }

    method CreateUser(user: UserId, roleIds: seq<RoleId>, requesterRoles: seq<RoleType>) returns (reply: Reply)
      modifies this`held
      ensures (View(), reply) == ApplyCreate(table, old(View()), requesterRoles, user, roleIds)
    {
      if SUPER_ADMIN !in requesterRoles && |roleIds| > 0 {
        var allowed := ValidateRoleCreationPermission(roleIds, requesterRoles);
        if !allowed {
          return Forbidden;
        }
      }
      if user in held || !(Ids(roleIds) <= table.Keys) || !Distinct(roleIds) {
        return Failed;
      }
      held := held[user := Ids(roleIds)];
      return Ok;
    }

    method UpdateUser(user: UserId, roleIds: seq<RoleId>, requesterRoles: seq<RoleType>) returns (reply: Reply)
      modifies this`held
      ensures (View(), reply) == ApplyUpdate(table, old(View()), requesterRoles, user, roleIds)
    {
      if user !in held || user in deleted {
        return NotFound;
      }
      if |roleIds| > 0 {
        if SUPER_ADMIN !in requesterRoles {
          var allowed := ValidateRoleCreationPermission(roleIds, requesterRoles);
          if !allowed {
            return Forbidden;
          }
        }
        held := held[user := {}];
        if !(Ids(roleIds) <= table.Keys) {
          return Failed;
        }
        held := held[user := held[user] + Ids(roleIds)];
        assert {} + Ids(roleIds) == Ids(roleIds);
        assert held == old(held)[user := Ids(roleIds)];
      }
      return Ok;
    }
  }
}
