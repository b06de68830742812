/** services/invitations/invitation_service.py, apps/invitations/models.py and services/rbac/rbac_service.py:
    invitations to a tenant, and the (user, tenant) -> role table that accepting them fills. */
module Invitations {
  import opened Prelude

  type UserId = nat
  type TenantId = nat
  type InvitationId = nat
  type Time = int

  const EXPIRY: int := 72 * 60 * 60

  datatype Role = Owner | Admin | Member

  /** A role as a caller spells it. */
  datatype RoleName = Known(role: Role) | Unknown(text: string)

  datatype Status = Pending | Accepted | Revoked | Expired

  datatype Invitation = Invitation(
    tenant: TenantId,
    email: string,
    role: Role,
    token: string,
    status: Status,
    invitedBy: Option<UserId>,
    acceptedBy: Option<UserId>,
    expiresAt: Time)

  datatype Membership = Membership(role: Role, assignedBy: Option<UserId>)

  type Roles = map<(UserId, TenantId), Membership>

  datatype State = State(
    users: map<UserId, string>,                        // emails
    invitations: map<InvitationId, Invitation>,
    roles: Roles,
    now: Time)

  /** `TenantInvitation.is_expired` and `is_usable` */
  predicate IsExpired(i: Invitation, now: Time) { now > i.expiresAt }

  predicate IsUsable(i: Invitation, now: Time) { i.status == Pending && !IsExpired(i, now) }

  /** `InvitationService.list_pending` */
  function ListPending(invitations: map<InvitationId, Invitation>, tenant: TenantId, now: Time): set<InvitationId> {
    set i | i in invitations && invitations[i].tenant == tenant && invitations[i].status == Pending
            && invitations[i].expiresAt > now
  }

  function Normalize(email: string): string { Lower(Strip(email)) }

  /** `User.objects.filter(email=email).first()`, in primary-key order. */
  predicate IsFirstWithEmail(users: map<UserId, string>, email: string, u: UserId) {
    u in users && users[u] == email && forall v :: v in users && users[v] == email ==> u <= v
  }

  predicate ExistingMember(users: map<UserId, string>, roles: Roles, tenant: TenantId, email: string) {
    exists u :: u in users && IsFirstWithEmail(users, email, u) && (u, tenant) in roles
  }

  predicate HasPending(invitations: map<InvitationId, Invitation>, tenant: TenantId, email: string) {
    exists i :: i in invitations && invitations[i].tenant == tenant && invitations[i].email == email
                && invitations[i].status == Pending
  }

  predicate TokenTaken(invitations: map<InvitationId, Invitation>, token: string) {
    exists i :: i in invitations && invitations[i].token == token
  }

  function Members(roles: Roles, tenant: TenantId): set<UserId> {
    set key | key in roles && key.1 == tenant :: key.0
  }

  /** `PlanLimitService.check_member_limit`: no plan, or a limit of 0, is no limit. */
  predicate OverLimit(roles: Roles, tenant: TenantId, limit: Option<nat>) {
    limit.Some? && limit.value != 0 && |Members(roles, tenant)| >= limit.value
  }

  datatype Op =
    | Send(tenant: TenantId, email: string, role: RoleName, invitedBy: UserId, limit: Option<nat>,
           id: InvitationId, token: string)
    | Accept(token: string, user: UserId)
    | Revoke(id: InvitationId, tenant: TenantId)
    | AssignRole(user: UserId, tenant: TenantId, role: RoleName, assignedBy: Option<UserId>)
    | RevokeRole(user: UserId, tenant: TenantId)
    | Anonymize(user: UserId, email: string)     // GDPRService.anonymize, as far as these tables go
    | HardDelete(user: UserId)                   // GDPRService.hard_delete, likewise
    | Wait(seconds: nat)

  /** `IntegrityError` is the database refusing a reused token or primary key. */
  datatype Outcome = Ok | ValidationError | ConflictError | NotFoundError | LimitError | IntegrityError

  // ---- RBACService ----

  function Assign(roles: Roles, user: UserId, tenant: TenantId, role: RoleName, assignedBy: Option<UserId>)
    : (Roles, Outcome)
  {
    if role.Unknown? then (roles, ValidationError)
    else (roles[(user, tenant) := Membership(role.role, assignedBy)], Ok)
  }

  function WithoutUser(roles: Roles, user: UserId): Roles {
    map key | key in roles && key.0 != user :: roles[key]
  }

  function Nulled(reference: Option<UserId>, user: UserId): Option<UserId> {
    if reference == Some(user) then None else reference
  }

  /** Who asks; `is_superuser` is a flag of the user row. */
  datatype Principal = Anonymous | Authenticated(user: UserId, isSuperuser: bool)

  /** `RBACService.has_role` */
  predicate HasRole(roles: Roles, who: Principal, tenant: TenantId, allowed: set<Role>) {
    && who.Authenticated?
    && (who.isSuperuser || ((who.user, tenant) in roles && roles[(who.user, tenant)].role in allowed))
  }

  // ---- The operations ----

  function SendOp(s: State, op: Op): (State, Outcome)
    requires op.Send?
  {
    var email := Normalize(op.email);
    if op.role.Unknown? then (s, ValidationError)
    else if ExistingMember(s.users, s.roles, op.tenant, email) then (s, ConflictError)
    else if HasPending(s.invitations, op.tenant, email) then (s, ConflictError)
    else if OverLimit(s.roles, op.tenant, op.limit) then (s, LimitError)
    else if op.id in s.invitations || TokenTaken(s.invitations, op.token) then (s, IntegrityError)
    else
      var i := Invitation(op.tenant, email, op.role.role, op.token, Pending, Some(op.invitedBy), None, s.now + EXPIRY);
      (s.(invitations := s.invitations[op.id := i]), Ok)
  }

  ghost function AcceptOp(s: State, op: Op): (State, Outcome)
    requires op.Accept?
  {
    if !TokenTaken(s.invitations, op.token) then (s, NotFoundError)
    else
      var id := ByToken(s.invitations, op.token);
      var i := s.invitations[id];
      if i.status != Pending then (s, NotFoundError)
      else if IsExpired(i, s.now) then
        (s.(invitations := s.invitations[id := i.(status := Expired)]), ValidationError)
      else if (op.user, i.tenant) in s.roles then (s, ConflictError)
      else
        (s.(roles := s.roles[(op.user, i.tenant) := Membership(i.role, i.invitedBy)],
            invitations := s.invitations[id := i.(status := Accepted, acceptedBy := Some(op.user))]), Ok)
  }

  ghost function ByToken(invitations: map<InvitationId, Invitation>, token: string): (id: InvitationId)
    requires TokenTaken(invitations, token)
    ensures id in invitations && invitations[id].token == token
  {
    var id :| id in invitations && invitations[id].token == token;
    id
  }

  function RevokeOp(s: State, op: Op): (State, Outcome)
    requires op.Revoke?
  {
    if op.id !in s.invitations || s.invitations[op.id].tenant != op.tenant then (s, NotFoundError)
    else if s.invitations[op.id].status != Pending then (s, ValidationError)
    else (s.(invitations := s.invitations[op.id := s.invitations[op.id].(status := Revoked)]), Ok)
  }

  /** Deleting a user row removes the rows it owns and nulls the other references to it. */
  function HardDeleteOp(s: State, user: UserId): State {
    State(s.users - {user},
          map i | i in s.invitations :: s.invitations[i].(invitedBy := Nulled(s.invitations[i].invitedBy, user),
                                                          acceptedBy := Nulled(s.invitations[i].acceptedBy, user)),
          map key | key in s.roles && key.0 != user ::
            s.roles[key].(assignedBy := Nulled(s.roles[key].assignedBy, user)),
          s.now)
  }

  ghost function Apply(s: State, op: Op): (State, Outcome) {
    match op
    case Send(_, _, _, _, _, _, _) => SendOp(s, op)
    case Accept(_, _) => AcceptOp(s, op)
    case Revoke(_, _) => RevokeOp(s, op)
    case AssignRole(user, tenant, role, assignedBy) =>
      var (roles, outcome) := Assign(s.roles, user, tenant, role, assignedBy);
      (s.(roles := roles), outcome)
    case RevokeRole(user, tenant) => (s.(roles := s.roles - {(user, tenant)}), Ok)
    case Anonymize(user, email) =>
      (if user in s.users then s.(users := s.users[user := email], roles := WithoutUser(s.roles, user)) else s, Ok)
    case HardDelete(user) => (HardDeleteOp(s, user), Ok)
    case Wait(seconds) => (s.(now := s.now + seconds), Ok)
  }

  // ---- Invariant ----

  ghost predicate TokensUnique(invitations: map<InvitationId, Invitation>) {
    forall i, j :: i in invitations && j in invitations && i != j ==> invitations[i].token != invitations[j].token
  }

  ghost predicate OnePending(invitations: map<InvitationId, Invitation>) {
    forall i, j :: i in invitations && j in invitations && i != j
                   && invitations[i].status == Pending && invitations[j].status == Pending
                   && invitations[i].tenant == invitations[j].tenant
                   ==> invitations[i].email != invitations[j].email
  }

  ghost predicate EmailsNormal(invitations: map<InvitationId, Invitation>) {
    forall i :: i in invitations ==> Normalize(invitations[i].email) == invitations[i].email
  }

  ghost predicate Invariant(s: State) {
    TokensUnique(s.invitations) && OnePending(s.invitations) && EmailsNormal(s.invitations)
  }

  lemma NormalizeIsIdempotent(email: string)
    ensures Normalize(Normalize(email)) == Normalize(email)
  {
    StripTrims(email);
    StripOfTrimmed(Normalize(email));
    assert Lower(Normalize(email)) == Normalize(email);
  }

  lemma AddingKeepsInvariant(s: State, id: InvitationId, i: Invitation)
    requires Invariant(s) && id !in s.invitations && !TokenTaken(s.invitations, i.token)
    requires !HasPending(s.invitations, i.tenant, i.email) && Normalize(i.email) == i.email
    ensures Invariant(s.(invitations := s.invitations[id := i]))
  {
  }

  lemma SendKeepsInvariant(s: State, op: Op)
    requires Invariant(s) && op.Send?
    ensures Invariant(SendOp(s, op).0)
  {
    NormalizeIsIdempotent(op.email);
    var (after, outcome) := SendOp(s, op);
    if outcome == Ok {
      AddingKeepsInvariant(s, op.id, after.invitations[op.id]);
    }
  }

  /** Giving one invitation a final status. */
  lemma ClosingKeepsInvariant(s: State, id: InvitationId, closed: Invitation)
    requires Invariant(s) && id in s.invitations && closed.status != Pending
    requires closed.token == s.invitations[id].token && closed.email == s.invitations[id].email
    ensures Invariant(s.(invitations := s.invitations[id := closed]))
  {
  }

  lemma HardDeleteKeepsInvariant(s: State, user: UserId)
    requires Invariant(s)
    ensures Invariant(HardDeleteOp(s, user))
  {
  }

  lemma ApplyKeepsInvariant(s: State, op: Op)
    requires Invariant(s)
    ensures Invariant(Apply(s, op).0)
  {
    match op
    case Send(_, _, _, _, _, _, _) => SendKeepsInvariant(s, op);
    case Accept(token, user) =>
      if TokenTaken(s.invitations, token) {
        var id := ByToken(s.invitations, token);
        ClosingKeepsInvariant(s, id, s.invitations[id].(status := Expired));
        ClosingKeepsInvariant(s, id, s.invitations[id].(status := Accepted, acceptedBy := Some(user)));
      }
    case Revoke(id, _) =>
      if id in s.invitations {
        ClosingKeepsInvariant(s, id, s.invitations[id].(status := Revoked));
      }
    case HardDelete(user) => HardDeleteKeepsInvariant(s, user);
    case _ =>
  }

  // ---- Runs ----

  ghost function Run(s: State, ops: seq<Op>): State {
    if ops == [] then s else Apply(Run(s, ops[..|ops| - 1]), ops[|ops| - 1]).0
  }

  /** The state before operation i. */
  ghost function At(s: State, ops: seq<Op>, i: int): State
    requires 0 <= i <= |ops|
  {
    Run(s, ops[..i])
  }

  lemma NextState(s: State, ops: seq<Op>, i: int)
    requires 0 <= i < |ops|
    ensures At(s, ops, i + 1) == Apply(At(s, ops, i), ops[i]).0
  {
    assert ops[..i + 1][..i] == ops[..i];
  }

  predicate Initial(s: State) { s.invitations == map[] }

  /** Lifecycle: every reachable state has unique tokens and at most one pending invitation per tenant and
      normalised email. */
  lemma {:induction false} ReachableStatesAreSound(s: State, ops: seq<Op>, n: int)
    requires Initial(s) && 0 <= n <= |ops|
    ensures Invariant(At(s, ops, n))
    decreases n
  {
    if n == 0 {
    } else {
      ReachableStatesAreSound(s, ops, n - 1);
      NextState(s, ops, n - 1);
      ApplyKeepsInvariant(At(s, ops, n - 1), ops[n - 1]);
    }
  }

  /** Invitations are never removed, keep their identity, and leave no status but PENDING. */
  ghost predicate Evolves(before: Invitation, after: Invitation) {
    && after.token == before.token && after.tenant == before.tenant && after.email == before.email
    && after.role == before.role && after.expiresAt == before.expiresAt
    && (before.status != Pending ==> after.status == before.status)
  }

  lemma ApplyEvolves(s: State, op: Op, id: InvitationId)
    requires id in s.invitations
    ensures id in Apply(s, op).0.invitations && Evolves(s.invitations[id], Apply(s, op).0.invitations[id])
  {
  }

  lemma {:induction false} FinalStatusesAbsorb(s: State, ops: seq<Op>, i: int, j: int, id: InvitationId)
    requires 0 <= i <= j <= |ops| && id in At(s, ops, i).invitations
    ensures id in At(s, ops, j).invitations
    ensures Evolves(At(s, ops, i).invitations[id], At(s, ops, j).invitations[id])
    decreases j
  {
    if i == j {
    } else {
      FinalStatusesAbsorb(s, ops, i, j - 1, id);
      NextState(s, ops, j - 1);
      ApplyEvolves(At(s, ops, j - 1), ops[j - 1], id);
    }
  }

  /** Operation i is an accept that succeeds. */
  ghost predicate AcceptsAt(s: State, ops: seq<Op>, i: int) {
    0 <= i < |ops| && ops[i].Accept? && Apply(At(s, ops, i), ops[i]).1 == Ok
  }

  /** When an accept succeeds, and everything it does: it adds one membership, with the invited role. An expired
      invitation is marked so, and the accept still fails. */
  lemma AcceptSucceedsExactly(s: State, token: string, user: UserId, id: InvitationId)
    requires TokensUnique(s.invitations) && id in s.invitations && s.invitations[id].token == token
    ensures var i, (t, outcome) := s.invitations[id], Apply(s, Accept(token, user));
      && (outcome == Ok <==> IsUsable(i, s.now) && (user, i.tenant) !in s.roles)
      && (outcome == Ok ==>
           && t.roles == s.roles[(user, i.tenant) := Membership(i.role, i.invitedBy)]
           && t.roles.Keys - s.roles.Keys == {(user, i.tenant)}
           && t.invitations == s.invitations[id := i.(status := Accepted, acceptedBy := Some(user))])
      && (i.status == Pending && IsExpired(i, s.now) ==>
           outcome == ValidationError && t == s.(invitations := s.invitations[id := i.(status := Expired)]))
      && (outcome != Ok && !(i.status == Pending && IsExpired(i, s.now)) ==> t == s)
  {
  }

  /** Each token succeeds at most once in a run. */
  lemma TokensAreSingleUse(s: State, ops: seq<Op>, i: int, j: int)
    requires Initial(s) && i < j && AcceptsAt(s, ops, i) && AcceptsAt(s, ops, j)
    ensures ops[i].token != ops[j].token
  {
    if ops[i].token == ops[j].token {
      var before, later := At(s, ops, i), At(s, ops, j);
      ReachableStatesAreSound(s, ops, i);
      ReachableStatesAreSound(s, ops, j);
      var id := ByToken(before.invitations, ops[i].token);
      AcceptSucceedsExactly(before, ops[i].token, ops[i].user, id);
      NextState(s, ops, i);
      FinalStatusesAbsorb(s, ops, i + 1, j, id);
      AcceptSucceedsExactly(later, ops[j].token, ops[j].user, id);
    }
  }

  /** An operation that takes away a user's role in a tenant. */
  predicate RemovesRole(op: Op, user: UserId, tenant: TenantId) {
    op == RevokeRole(user, tenant) || (op.Anonymize? && op.user == user) || op == HardDelete(user)
  }

  ghost predicate JoinsAt(s: State, ops: seq<Op>, i: int, user: UserId, tenant: TenantId) {
    && AcceptsAt(s, ops, i) && ops[i].user == user
    && At(s, ops, i).invitations[ByToken(At(s, ops, i).invitations, ops[i].token)].tenant == tenant
  }

  lemma OnlyRemovalRemoves(s: State, op: Op, user: UserId, tenant: TenantId)
    requires (user, tenant) in s.roles && !RemovesRole(op, user, tenant)
    ensures (user, tenant) in Apply(s, op).0.roles
  {
  }

  /** Operation k takes away a role that the user had in the tenant. */
  ghost predicate LosesRoleAt(s: State, ops: seq<Op>, k: int, user: UserId, tenant: TenantId) {
    && 0 <= k < |ops| && RemovesRole(ops[k], user, tenant)
    && (user, tenant) in At(s, ops, k).roles && (user, tenant) !in At(s, ops, k + 1).roles
  }

  lemma {:induction false} RoleLostBetween(s: State, ops: seq<Op>, i: int, j: int, user: UserId, tenant: TenantId)
    returns (k: int)
    requires 0 <= i <= j <= |ops|
    requires (user, tenant) in At(s, ops, i).roles && (user, tenant) !in At(s, ops, j).roles
    ensures i <= k < j && LosesRoleAt(s, ops, k, user, tenant)
    decreases j
  {
    if (user, tenant) in At(s, ops, j - 1).roles {
      k := j - 1;
      NextState(s, ops, k);
      if !RemovesRole(ops[k], user, tenant) {
        OnlyRemovalRemoves(At(s, ops, k), ops[k], user, tenant);
      }
    } else {
      k := RoleLostBetween(s, ops, i, j - 1, user, tenant);
    }
  }

  /** Between two successful accepts by one user in one tenant, a revocation or an erasure took away the user's role
      there. */
  lemma RejoiningNeedsRemoval(s: State, ops: seq<Op>, i: int, j: int, user: UserId, tenant: TenantId)
    requires Initial(s) && i < j && JoinsAt(s, ops, i, user, tenant) && JoinsAt(s, ops, j, user, tenant)
    ensures exists k :: i < k < j && LosesRoleAt(s, ops, k, user, tenant)
  {
    NextState(s, ops, i);
    var k := RoleLostBetween(s, ops, i + 1, j, user, tenant);
  }

  /** A sent invitation can be accepted, with its role, by any non-member for 72 hours: the instant of expiry is
      still in time, a second later is not. */
  lemma SentInvitationIsGoodFor72Hours(s: State, op: Op, wait: nat, user: UserId)
    requires Invariant(s) && op.Send? && SendOp(s, op).1 == Ok && (user, op.tenant) !in s.roles
    ensures var waited := Apply(SendOp(s, op).0, Wait(wait)).0;
      var (after, outcome) := AcceptOp(waited, Accept(op.token, user));
      && (outcome == Ok <==> wait <= 72 * 60 * 60)
      && (outcome == Ok ==> HasRole(after.roles, Authenticated(user, false), op.tenant, {op.role.role}))
  {
    SendKeepsInvariant(s, op);
    AcceptSucceedsExactly(Apply(SendOp(s, op).0, Wait(wait)).0, op.token, user, op.id);
  }

  /** A sent invitation can be revoked, and then nobody can accept it. */
  lemma RevokedInvitationIsDead(s: State, op: Op, user: UserId)
    requires Invariant(s) && op.Send? && SendOp(s, op).1 == Ok
    ensures var (revoked, outcome) := RevokeOp(SendOp(s, op).0, Revoke(op.id, op.tenant));
      outcome == Ok && AcceptOp(revoked, Accept(op.token, user)).1 == NotFoundError
  {
  }

  // ---- Each operation by itself ----

  lemma {:induction false} MembersAreRows(roles: Roles, tenant: TenantId)
    ensures |Members(roles, tenant)| == |set key | key in roles && key.1 == tenant|
  {
    var rows := set key | key in roles && key.1 == tenant;
    assert forall user :: user in Members(roles, tenant) ==> (user, tenant) in rows;
    if rows == {} {
    } else {
      var key :| key in rows;
      var fewer := roles - {key};
      MembersAreRows(fewer, tenant);
      assert rows == (set k | k in fewer && k.1 == tenant) + {key};
      assert Members(roles, tenant) == Members(fewer, tenant) + {key.0};
      assert key.0 !in Members(fewer, tenant);
    }
  }

  /** When an invitation is sent and when it is refused, and why: an unknown role, the address of a member, a pending
      invitation of the address, a full tenant, in this order. */
  lemma SendSucceedsExactly(s: State, op: Op)
    requires op.Send?
    ensures var email, (t, outcome) := Lower(Strip(op.email)), Apply(s, op);
      var isMember := exists u ::
        u in s.users && s.users[u] == email && (u, op.tenant) in s.roles
        && forall v :: v in s.users && s.users[v] == email ==> u <= v;
      var isInvited := exists i ::
        i in s.invitations && s.invitations[i].tenant == op.tenant && s.invitations[i].email == email
        && s.invitations[i].status == Pending;
      var isFull := op.limit.Some? && 0 < op.limit.value <= |set key | key in s.roles && key.1 == op.tenant|;
      var isNew := op.id !in s.invitations && forall i :: i in s.invitations ==> s.invitations[i].token != op.token;
      && (outcome == ValidationError <==> op.role.Unknown?)
      && (outcome == ConflictError <==> op.role.Known? && (isMember || isInvited))
      && (outcome == LimitError <==> op.role.Known? && !isMember && !isInvited && isFull)
      && (outcome == Ok <==> op.role.Known? && !isMember && !isInvited && !isFull && isNew)
      && (outcome != Ok ==> t == s)
      && (outcome == Ok ==> t == s.(invitations := s.invitations[op.id := Invitation(
            op.tenant, email, op.role.role, op.token, Pending, Some(op.invitedBy), None, s.now + 259200)]))
  {
    MembersAreRows(s.roles, op.tenant);
    if u :| u in s.users && s.users[u] == Lower(Strip(op.email)) && (u, op.tenant) in s.roles
            && forall v :: v in s.users && s.users[v] == Lower(Strip(op.email)) ==> u <= v {
      assert IsFirstWithEmail(s.users, Lower(Strip(op.email)), u);
    }
  }

  /** The one user of an address can be invited exactly if not a member already. */
  lemma MembersAreNotInvited(s: State, op: Op, u: UserId)
    requires op.Send? && op.role.Known? && op.limit.None? && op.id !in s.invitations
    requires forall i :: i in s.invitations ==> s.invitations[i].token != op.token
    requires forall i :: i in s.invitations && s.invitations[i].tenant == op.tenant ==>
      s.invitations[i].email != Lower(Strip(op.email)) || s.invitations[i].status != Pending
    requires u in s.users && forall v :: v in s.users ==> (s.users[v] == Lower(Strip(op.email)) <==> v == u)
    ensures Apply(s, op).1 == if (u, op.tenant) in s.roles then ConflictError else Ok
  {
    SendSucceedsExactly(s, op);
  }

  lemma RevokeSucceedsExactly(s: State, id: InvitationId, tenant: TenantId)
    ensures var (t, outcome) := Apply(s, Revoke(id, tenant));
      if id !in s.invitations || s.invitations[id].tenant != tenant then t == s && outcome == NotFoundError
      else if s.invitations[id].status != Pending then t == s && outcome == ValidationError
      else outcome == Ok && t == s.(invitations := s.invitations[id := s.invitations[id].(status := Revoked)])
  {
  }

  lemma NothingToAccept(s: State, token: string, user: UserId)
    requires forall i :: i in s.invitations ==> s.invitations[i].token != token
    ensures Apply(s, Accept(token, user)) == (s, NotFoundError)
  {
  }

  /** What an accept that fails answers. */
  lemma RefusalsOfAccept(s: State, token: string, user: UserId, id: InvitationId)
    requires TokensUnique(s.invitations) && id in s.invitations && s.invitations[id].token == token
    ensures var i, outcome := s.invitations[id], Apply(s, Accept(token, user)).1;
      && (outcome == NotFoundError <==> i.status != Pending)
      && (outcome == ValidationError <==> i.status == Pending && s.now > i.expiresAt)
      && (outcome == ConflictError <==> i.status == Pending && s.now <= i.expiresAt && (user, i.tenant) in s.roles)
  {
  }

  /** `has_role`: nobody without authentication, superusers always, everybody else by the one row of the tenant. */
  lemma RolesGrantExactly(roles: Roles, user: UserId, tenant: TenantId, allowed: set<Role>)
    ensures !HasRole(roles, Anonymous, tenant, allowed)
    ensures HasRole(roles, Authenticated(user, true), tenant, allowed)
    ensures HasRole(roles, Authenticated(user, false), tenant, allowed) <==>
      exists role :: role in allowed && (user, tenant) in roles && roles[(user, tenant)].role == role
  {
  }

  /** An assignment grants exactly the assigned role, whatever was there before, and a revocation every role; neither
      touches another (user, tenant) pair. */
  lemma AssignedRoleIsHeld(s: State, user: UserId, tenant: TenantId, role: Role, grantor: Option<UserId>,
                           allowed: set<Role>)
    ensures var (t, outcome) := Apply(s, AssignRole(user, tenant, Known(role), grantor));
      && outcome == Ok
      && t == s.(roles := s.roles[(user, tenant) := Membership(role, grantor)])
      && (HasRole(t.roles, Authenticated(user, false), tenant, allowed) <==> role in allowed)
    ensures forall text :: Apply(s, AssignRole(user, tenant, Unknown(text), grantor)) == (s, ValidationError)
    ensures var t := Apply(s, RevokeRole(user, tenant)).0;
      && t == s.(roles := t.roles)
      && !HasRole(t.roles, Authenticated(user, false), tenant, allowed)
      && forall key :: key != (user, tenant) ==>
           (key in t.roles <==> key in s.roles) && (key in s.roles ==> t.roles[key] == s.roles[key])
  {
  }

  /** Erasures of a user take away all roles of that user and none of anybody else. A hard delete also takes away the
      user row, and nulls what refers to it. */
  lemma ErasureTakesAllRoles(s: State, user: UserId, address: string)
    ensures var t := Apply(s, Anonymize(user, address)).0;
      && (user !in s.users ==> t == s)
      && (user in s.users ==>
            && t == s.(users := s.users[user := address], roles := t.roles)
            && forall key :: (key in t.roles <==> key in s.roles && key.0 != user)
                             && (key in t.roles ==> t.roles[key] == s.roles[key]))
    ensures var t := Apply(s, HardDelete(user)).0;
      && t.users == s.users - {user} && t.now == s.now && t.invitations.Keys == s.invitations.Keys
      && (forall key :: (key in t.roles <==> key in s.roles && key.0 != user)
                        && (key in t.roles ==>
                              && t.roles[key].role == s.roles[key].role
                              && t.roles[key].assignedBy == WithoutReference(s.roles[key].assignedBy, user)))
      && (forall i :: i in s.invitations ==>
            t.invitations[i] == s.invitations[i].(
              invitedBy := WithoutReference(s.invitations[i].invitedBy, user),
              acceptedBy := WithoutReference(s.invitations[i].acceptedBy, user)))
  {
  }

  function WithoutReference(reference: Option<UserId>, user: UserId): Option<UserId> {
    match reference
    case None => None
    case Some(u) => if u == user then None else Some(u)
  }

  // ---- Tenants are isolated ----

  /** The operation belongs to a tenant other than `tenant`. */
  ghost predicate ConcernsOther(s: State, op: Op, tenant: TenantId) {
    match op
    case Send(t, _, _, _, _, _, _) => t != tenant
    case Accept(token, _) => TokenTaken(s.invitations, token) ==>
      s.invitations[ByToken(s.invitations, token)].tenant != tenant
    case Revoke(_, t) => t != tenant
    case AssignRole(_, t, _, _) => t != tenant
    case RevokeRole(_, t) => t != tenant
    case Anonymize(_, _) => false
    case HardDelete(_) => false
    case Wait(_) => true
  }

  lemma StepIsIsolated(s: State, op: Op, tenant: TenantId, user: UserId)
    requires ConcernsOther(s, op, tenant)
    ensures var t := Apply(s, op).0;
      && ((user, tenant) in t.roles <==> (user, tenant) in s.roles)
      && ((user, tenant) in s.roles ==> t.roles[(user, tenant)] == s.roles[(user, tenant)])
      && forall i :: i in s.invitations && s.invitations[i].tenant == tenant ==>
           i in t.invitations && t.invitations[i] == s.invitations[i]
  {
  }

  /** A run of operations on other tenants changes no `has_role` answer, and no invitation, of this one. */
  lemma {:induction false} TenantsAreIsolated(s: State, ops: seq<Op>, n: int, tenant: TenantId, who: Principal,
                                              allowed: set<Role>)
    requires 0 <= n <= |ops|
    requires forall k :: 0 <= k < n ==> ConcernsOther(At(s, ops, k), ops[k], tenant)
    ensures HasRole(At(s, ops, n).roles, who, tenant, allowed) <==> HasRole(s.roles, who, tenant, allowed)
    ensures forall i :: i in s.invitations && s.invitations[i].tenant == tenant ==>
              i in At(s, ops, n).invitations && At(s, ops, n).invitations[i] == s.invitations[i]
    decreases n
  {
    if n == 0 {
    } else {
      TenantsAreIsolated(s, ops, n - 1, tenant, who, allowed);
      NextState(s, ops, n - 1);
      StepIsIsolated(At(s, ops, n - 1), ops[n - 1], tenant, if who.Anonymous? then 0 else who.user);
    }
  }

  // ---- Listing and accepting ----

  /** The listing and the accept path disagree about one instant. A pending invitation that a non-member could accept
      is listed unless it expires exactly now; nothing else is listed. */
  lemma ListedIsAcceptableExceptAtTheDeadline(s: State, id: InvitationId, user: UserId)
    requires TokensUnique(s.invitations) && id in s.invitations && (user, s.invitations[id].tenant) !in s.roles
    ensures id in ListPending(s.invitations, s.invitations[id].tenant, s.now)
            <==> Apply(s, Accept(s.invitations[id].token, user)).1 == Ok && s.now != s.invitations[id].expiresAt
  {
    AcceptSucceedsExactly(s, s.invitations[id].token, user, id);
  }

  /** An invitation that has run out but was never presented is still PENDING: it is not listed, yet it blocks every
      new invitation of the same address. */
  lemma LapsedInvitationStillBlocks(s: State, id: InvitationId, op: Op)
    requires id in s.invitations && s.invitations[id].status == Pending && IsExpired(s.invitations[id], s.now)
    requires op.Send? && op.role.Known? && op.tenant == s.invitations[id].tenant
    requires Normalize(op.email) == s.invitations[id].email
    ensures id !in ListPending(s.invitations, op.tenant, s.now)
    ensures Apply(s, op) == (s, ConflictError)
  {
  }

  // ---- The services ----

  class RBACService {
    var roles: Roles

    constructor ()
      ensures roles == map[]
    {
      roles := map[];
    }

    method AssignRole(user: UserId, tenant: TenantId, role: RoleName, assignedBy: Option<UserId>)
      returns (outcome: Outcome)
      modifies this
      ensures (roles, outcome) == Assign(old(roles), user, tenant, role, assignedBy)
    {
      if role.Unknown? { return ValidationError; }
      roles := roles[(user, tenant) := Membership(role.role, assignedBy)];
      return Ok;
    }

    method RevokeRole(user: UserId, tenant: TenantId) returns (deleted: bool)
      modifies this
      ensures roles == old(roles) - {(user, tenant)}
      ensures deleted <==> (user, tenant) in old(roles)
    {
      deleted := (user, tenant) in roles;
      roles := roles - {(user, tenant)};
    }

    method GetRole(user: UserId, tenant: TenantId) returns (role: Option<Role>)
      ensures forall r :: role == Some(r) <==> HasRole(roles, Authenticated(user, false), tenant, {r})
    {
      role := if (user, tenant) in roles then Some(roles[(user, tenant)].role) else None;
    }
  }

  class InvitationService {
    var users: map<UserId, string>
    var invitations: map<InvitationId, Invitation>
    const rbac: RBACService

    constructor (users: map<UserId, string>, rbac: RBACService)
      ensures this.users == users && this.rbac == rbac && invitations == map[]
    {
      this.users, this.rbac := users, rbac;
      invitations := map[];
    }

    function Abstract(now: Time): State
      reads this, rbac
    {
      State(users, invitations, rbac.roles, now)
    }

    method SendInvitation(tenant: TenantId, email: string, role: RoleName, invitedBy: UserId, limit: Option<nat>,
                          id: InvitationId, token: string, now: Time) returns (outcome: Outcome)
      modifies this`invitations
      ensures (Abstract(now), outcome)
        == Apply(old(Abstract(now)), Send(tenant, email, role, invitedBy, limit, id, token))
    {
      var address := Normalize(email);
      if role.Unknown? { return ValidationError; }
      if ExistingMember(users, rbac.roles, tenant, address) { return ConflictError; }
      if HasPending(invitations, tenant, address) { return ConflictError; }
      if OverLimit(rbac.roles, tenant, limit) { return LimitError; }
      if id in invitations || TokenTaken(invitations, token) { return IntegrityError; }
      invitations := invitations[id :=
        Invitation(tenant, address, role.role, token, Pending, Some(invitedBy), None, now + EXPIRY)];
      return Ok;
    }

    method AcceptInvitation(token: string, user: UserId, now: Time) returns (outcome: Outcome)
      requires TokensUnique(invitations)
      modifies this`invitations, rbac
      ensures (Abstract(now), outcome) == Apply(old(Abstract(now)), Accept(token, user))
    {
      if id :| id in invitations && invitations[id].token == token {
        assert id == ByToken(invitations, token);
        var i := invitations[id];
        if i.status != Pending { return NotFoundError; }
        if IsExpired(i, now) {
          invitations := invitations[id := i.(status := Expired)];
          return ValidationError;
        }
        if (user, i.tenant) in rbac.roles { return ConflictError; }
        var granted := rbac.AssignRole(user, i.tenant, Known(i.role), i.invitedBy);
        invitations := invitations[id := i.(status := Accepted, acceptedBy := Some(user))];
        return Ok;
      }
      return NotFoundError;
    }

    method RevokeInvitation(id: InvitationId, tenant: TenantId, now: Time) returns (outcome: Outcome)
      modifies this`invitations
      ensures (Abstract(now), outcome) == Apply(old(Abstract(now)), Revoke(id, tenant))
    {
      if id !in invitations || invitations[id].tenant != tenant { return NotFoundError; }
      if invitations[id].status != Pending { return ValidationError; }
      invitations := invitations[id := invitations[id].(status := Revoked)];
      return Ok;
    }
  }
}
