/** services/users/user_service.py, `_get_or_create_user` of services/auth/social_auth_service.py and
    services/users/gdpr_service.py: who exists, under which username and email, and what erasing a user leaves
    behind. */
module Identity {
  import opened Prelude
  import Usernames

  type UserId = nat
  type RowId = nat

  datatype User = User(
    username: string,
    email: string,
    firstName: string,
    lastName: string,
    isActive: bool,
    hasPassword: bool)

  /** Tables that point at users. A record is any row that only mentions one. */
  datatype Kind = Role | Notification | Token | Profile | Totp | Record

  /** A SET_NULL reference to a user: created_by, updated_by, deleted_by, assigned_by, invited_by, accepted_by, ... */
  type Column = string

  /** The SET_NULL references of a row that are not null. */
  type Mentions = map<Column, UserId>

  /** `owner` is the user a row belongs to. */
  datatype Row = Row(kind: Kind, owner: Option<UserId>, mentions: Mentions)

  datatype State = State(users: map<UserId, User>, rows: map<RowId, Row>, nextUser: UserId)

  predicate UsernameTaken(users: map<UserId, User>, username: string) {
    exists u :: u in users && users[u].username == username
  }

  predicate EmailTaken(users: map<UserId, User>, email: string) {
    exists u :: u in users && users[u].email == email
  }

  function UsernamesOf(users: map<UserId, User>): set<string> {
    set u | u in users :: users[u].username
  }

  function Normalize(email: string): string { Lower(Strip(email)) }

  // ---- Invariant ----

  ghost predicate UsernamesUnique(users: map<UserId, User>) {
    forall u, v :: u in users && v in users && u != v ==> users[u].username != users[v].username
  }

  ghost predicate EmailsUnique(users: map<UserId, User>) {
    forall u, v :: u in users && v in users && u != v ==> users[u].email != users[v].email
  }

  predicate ValidReference(users: map<UserId, User>, reference: Option<UserId>) {
    reference.Some? ==> reference.value in users
  }

  ghost predicate ReferencesValid(users: map<UserId, User>, rows: map<RowId, Row>) {
    forall r :: r in rows ==> ValidReference(users, rows[r].owner) && rows[r].mentions.Values <= users.Keys
  }

  ghost predicate Invariant(s: State) {
    && UsernamesUnique(s.users) && EmailsUnique(s.users) && ReferencesValid(s.users, s.rows)
    && forall u :: u in s.users ==> u < s.nextUser
  }

  // ---- Operations ----

  datatype Op =
    | Register(email: string, username: string, firstName: string, lastName: string, passwordOk: bool, cleanOk: bool)
    | SocialLogin(email: string, base: string, firstName: string, lastName: string)
    | Anonymize(user: UserId, tag: string)
    | HardDelete(user: UserId)
    | AddRow(r: RowId, row: Row)

  datatype Outcome =
    | Created(user: UserId)
    | Existing(user: UserId)
    | Erased(notifications: nat, roles: nat)
    | ValidationError
    | ConflictError
    | IntegrityError       // the unique username column refuses; the transaction is rolled back
    | NoSuchUser
    | Stored

  function Insert(s: State, user: User): State {
    State(s.users[s.nextUser := user], s.rows, s.nextUser + 1)
  }

  /** `create_user`. `passwordOk` covers the empty check and `validate_password`; `cleanOk` is Django's `full_clean`,
      whose exception the service does not translate. */
  function RegisterOp(s: State, op: Op): (State, Outcome)
    requires op.Register?
  {
    var email, username := Normalize(op.email), Strip(op.username);
    if email == "" || '@' !in email || username == "" || !op.passwordOk then (s, ValidationError)
    else if UsernameTaken(s.users, username) || EmailTaken(s.users, email) then (s, ConflictError)
    else if !op.cleanOk then (s, ValidationError)
    else (Insert(s, User(username, email, Strip(op.firstName), Strip(op.lastName), true, true)), Created(s.nextUser))
  }

  ghost function WithEmail(users: map<UserId, User>, email: string): (u: UserId)
    requires EmailTaken(users, email)
    ensures u in users && users[u].email == email
  {
    var u :| u in users && users[u].email == email;
    u
  }

  /** `_get_or_create_user` behind the provider's own checks. */
  ghost function SocialLoginOp(s: State, op: Op): (State, Outcome)
    requires op.SocialLogin?
  {
    var email := Normalize(op.email);
    if email == "" then (s, ValidationError)
    else if EmailTaken(s.users, email) then (s, Existing(WithEmail(s.users, email)))
    else
      var username := Usernames.FreeName(op.base, UsernamesOf(s.users));
      (Insert(s, User(username, email, op.firstName, op.lastName, true, false)), Created(s.nextUser))
  }

  /** The kinds that both erasures delete explicitly. */
  predicate Personal(kind: Kind) { kind == Token || kind == Notification || kind == Role }

  function Owned(rows: map<RowId, Row>, user: UserId, kind: Kind): set<RowId> {
    set r | r in rows && rows[r].owner == Some(user) && rows[r].kind == kind
  }

  function WithoutPersonal(rows: map<RowId, Row>, user: UserId): map<RowId, Row> {
    map r | r in rows && !(rows[r].owner == Some(user) && Personal(rows[r].kind)) :: rows[r]
  }

  function Tombstone(tag: string): User {
    User("deleted_" + tag, "deleted_" + tag + "@deleted.invalid", "", "", false, false)
  }

  function AnonymizeOp(s: State, user: UserId, tag: string): (State, Outcome) {
    if user !in s.users then (s, NoSuchUser)
    else if UsernameTaken(s.users - {user}, Tombstone(tag).username) then (s, IntegrityError)
    else
      (State(s.users[user := Tombstone(tag)], WithoutPersonal(s.rows, user), s.nextUser),
       Erased(|Owned(s.rows, user, Notification)|, |Owned(s.rows, user, Role)|))
  }

  function Nulled(mentions: Mentions, user: UserId): Mentions {
    map column | column in mentions && mentions[column] != user :: mentions[column]
  }

  /** `user.delete()`: owned rows cascade, mentions are nulled. */
  function Cascade(rows: map<RowId, Row>, user: UserId): map<RowId, Row> {
    map r | r in rows && rows[r].owner != Some(user) :: rows[r].(mentions := Nulled(rows[r].mentions, user))
  }

  function HardDeleteOp(s: State, user: UserId): (State, Outcome) {
    if user !in s.users then (s, NoSuchUser)
    else
      (State(s.users - {user}, Cascade(WithoutPersonal(s.rows, user), user), s.nextUser),
       Erased(|Owned(s.rows, user, Notification)|, |Owned(s.rows, user, Role)|))
  }

  ghost function Apply(s: State, op: Op): (State, Outcome) {
    match op
    case Register(_, _, _, _, _, _) => RegisterOp(s, op)
    case SocialLogin(_, _, _, _) => SocialLoginOp(s, op)
    case Anonymize(user, tag) => AnonymizeOp(s, user, tag)
    case HardDelete(user) => HardDeleteOp(s, user)
    case AddRow(r, row) =>
      if r !in s.rows && ValidReference(s.users, row.owner) && row.mentions.Values <= s.users.Keys
      then (s.(rows := s.rows[r := row]), Stored)
      else (s, IntegrityError)
  }

  // ---- One step ----

  /** The email column is not unique in the database, so anonymising relies on its random tag. */
  predicate FreshTag(s: State, op: Op) {
    op.Anonymize? ==> !EmailTaken(s.users - {op.user}, Tombstone(op.tag).email)
  }

  lemma InsertKeepsInvariant(s: State, user: User)
    requires Invariant(s) && !UsernameTaken(s.users, user.username) && !EmailTaken(s.users, user.email)
    ensures Invariant(Insert(s, user))
  {
  }

  lemma AnonymizeKeepsInvariant(s: State, user: UserId, tag: string)
    requires Invariant(s) && FreshTag(s, Anonymize(user, tag))
    ensures Invariant(AnonymizeOp(s, user, tag).0)
  {
    var others := s.users - {user};
    forall v | v in s.users && v != user && user in s.users
      ensures s.users[v].email != Tombstone(tag).email
      ensures AnonymizeOp(s, user, tag).1.Erased? ==> s.users[v].username != Tombstone(tag).username
    {
      assert v in others && others[v] == s.users[v];
    }
  }

  lemma HardDeleteKeepsInvariant(s: State, user: UserId)
    requires Invariant(s)
    ensures Invariant(HardDeleteOp(s, user).0)
  {
  }

  lemma ApplyKeepsInvariant(s: State, op: Op)
    requires Invariant(s) && FreshTag(s, op)
    ensures Invariant(Apply(s, op).0)
  {
    match op
    case Register(_, _, _, _, _, _) =>
      if RegisterOp(s, op).1.Created? {
        InsertKeepsInvariant(s, RegisterOp(s, op).0.users[s.nextUser]);
      }
    case SocialLogin(_, base, _, _) =>
      if SocialLoginOp(s, op).1.Created? {
        var user := SocialLoginOp(s, op).0.users[s.nextUser];
        assert !UsernameTaken(s.users, user.username) by {
          assert user.username !in UsernamesOf(s.users);
        }
        InsertKeepsInvariant(s, user);
      }
    case Anonymize(user, tag) => AnonymizeKeepsInvariant(s, user, tag);
    case HardDelete(user) => HardDeleteKeepsInvariant(s, user);
    case AddRow(r, row) =>
  }

  /** The tag matters: a successful anonymisation keeps emails unique if and only if nobody else already uses the
      address it makes up. The username column, which is unique in the database, needs no such luck. */
  lemma AnonymizeNeedsAFreshAddress(s: State, user: UserId, tag: string)
    requires Invariant(s) && AnonymizeOp(s, user, tag).1.Erased?
    ensures EmailsUnique(AnonymizeOp(s, user, tag).0.users) <==> FreshTag(s, Anonymize(user, tag))
    ensures UsernamesUnique(AnonymizeOp(s, user, tag).0.users)
  {
    var after := AnonymizeOp(s, user, tag).0.users;
    var others := s.users - {user};
    forall v | v in s.users && v != user
      ensures s.users[v].username != Tombstone(tag).username
    {
      assert v in others && others[v] == s.users[v];
    }
    if EmailTaken(others, Tombstone(tag).email) {
      var v :| v in others && others[v].email == Tombstone(tag).email;
      assert v != user && after[v].email == after[user].email;
    }
    if FreshTag(s, Anonymize(user, tag)) {
      AnonymizeKeepsInvariant(s, user, tag);
    }
  }

  /** Text that normalisation keeps, like the hexadecimal tags. */
  predicate Plain(text: string) {
    forall i :: 0 <= i < |text| ==> !IsSpace(text[i]) && !IsUpper(text[i])
  }

  lemma PlainStays(text: string)
    requires Plain(text)
    ensures Strip(text) == text && Normalize(text) == text
  {
    StripOfTrimmed(text);
  }

  lemma TombstoneIsPlain(tag: string)
    requires Plain(tag)
    ensures Plain(Tombstone(tag).email) && '@' in Tombstone(tag).email
  {
    var head, tail := "deleted_", "@deleted.invalid";
    assert Plain(head) && Plain(tail);
    assert Tombstone(tag).email == head + tag + tail;
    assert tail[0] == '@';
    assert Tombstone(tag).email[|head + tag|] == '@';
  }

  /** Somebody registers under the address that an anonymisation of another user will make up. */
  function ClashingOps(tag: string, other: string): seq<Op> {
    [Register(Tombstone(tag).email, "a", "", "", true, true),
     Register(other, "b", "", "", true, true),
     Anonymize(2, tag)]
  }

  lemma ClashingRegistrations(tag: string, other: string)
    requires Plain(tag) && Plain(other) && '@' in other && other != Tombstone(tag).email
    ensures At(State(map[], map[], 1), ClashingOps(tag, other), 2).users
            == map[1 := User("a", Tombstone(tag).email, "", "", true, true), 2 := User("b", other, "", "", true, true)]
  {
    var s, ops := State(map[], map[], 1), ClashingOps(tag, other);
    assert At(s, ops, 0) == s;
    NextState(s, ops, 0);
    NextState(s, ops, 1);
    TombstoneIsPlain(tag);
    PlainStays(Tombstone(tag).email);
    PlainStays(other);
    PlainStays("a");
    PlainStays("b");
    assert At(s, ops, 1).users == map[1 := User("a", Tombstone(tag).email, "", "", true, true)];
  }

  /** So the condition can fail in a run from an empty database, whatever the tag, and then two users share an
      address. */
  lemma MadeUpAddressCanBeTaken(tag: string, other: string)
    requires Plain(tag) && Plain(other) && '@' in other && other != Tombstone(tag).email
    ensures var s, ops := State(map[], map[], 1), ClashingOps(tag, other);
      && Invariant(s) && !FreshTag(At(s, ops, 2), ops[2])
      && Apply(At(s, ops, 2), ops[2]).1.Erased? && !EmailsUnique(At(s, ops, 3).users)
  {
    var s, ops := State(map[], map[], 1), ClashingOps(tag, other);
    ClashingRegistrations(tag, other);
    NextState(s, ops, 2);
    assert (At(s, ops, 2).users - {2})[1].email == Tombstone(tag).email;
    var after := At(s, ops, 3).users;
    assert Tombstone(tag).username[0] == 'd';
    assert after[1].email == after[2].email;
  }

  // ---- Erasure ----

  /** The row is as it was, but for its references to the user, which are all null now. */
  ghost predicate OnlyNulled(before: Row, after: Row, user: UserId) {
    && after.kind == before.kind && after.owner == before.owner
    && forall column :: MentionOf(after, column) == if MentionOf(before, column) == Some(user) then None
                                                    else MentionOf(before, column)
  }

  function MentionOf(row: Row, column: Column): Option<UserId> {
    if column in row.mentions then Some(row.mentions[column]) else None
  }

  /** After either erasure no role, notification or token of the user remains, and after a hard delete nothing of the
      user's and no mention. An anonymisation deletes nothing else: the user's profile and TOTP row stay. Rows of
      others all survive: untouched by an anonymisation, and changed by a hard delete at most in a nulled reference.
      The counts are those of the rows that went. */
  lemma ErasureIsCompleteAndContained(s: State, op: Op, user: UserId, r: RowId)
    requires op.HardDelete? || op.Anonymize?
    requires op.user == user && Apply(s, op).1.Erased?
    ensures var (t, outcome) := Apply(s, op);
      && Owned(t.rows, user, Role) == Owned(t.rows, user, Notification) == Owned(t.rows, user, Token) == {}
      && (op.HardDelete? ==>
            && user !in t.users
            && forall q :: q in t.rows ==> t.rows[q].owner != Some(user) && user !in t.rows[q].mentions.Values)
      && t.rows.Keys <= s.rows.Keys
      && (r in s.rows && s.rows[r].owner != Some(user) ==>
            r in t.rows && if op.HardDelete? then OnlyNulled(s.rows[r], t.rows[r], user) else t.rows[r] == s.rows[r])
      && (op.Anonymize? && r in s.rows ==>
            if s.rows[r].owner == Some(user) && s.rows[r].kind in {Role, Notification, Token} then r !in t.rows
            else r in t.rows && t.rows[r] == s.rows[r])
      && t.users - {user} == s.users - {user}
      && outcome == Erased(|Owned(s.rows, user, Notification)|, |Owned(s.rows, user, Role)|)
      && Owned(s.rows, user, Notification) + Owned(s.rows, user, Role) <= s.rows.Keys - t.rows.Keys
  {
  }

  /** A second anonymisation deletes nothing. */
  lemma SecondAnonymizeDeletesNothing(s: State, user: UserId, tag1: string, tag2: string)
    requires AnonymizeOp(s, user, tag1).1.Erased?
    ensures var once := AnonymizeOp(s, user, tag1).0;
      var (twice, outcome) := AnonymizeOp(once, user, tag2);
      && twice.rows == once.rows
      && (outcome == IntegrityError || outcome == Erased(0, 0))
  {
  }

  /** Nothing is left of what the user row said: two worlds that differ only in that row are the same world after the
      anonymisation. */
  lemma AnonymizeForgets(s: State, user: UserId, other: User, tag: string)
    requires user in s.users
    ensures AnonymizeOp(s.(users := s.users[user := other]), user, tag).1 == AnonymizeOp(s, user, tag).1
    ensures AnonymizeOp(s, user, tag).1.Erased? ==>
              AnonymizeOp(s.(users := s.users[user := other]), user, tag).0 == AnonymizeOp(s, user, tag).0
  {
    var t := s.(users := s.users[user := other]);
    assert t.users - {user} == s.users - {user};
    assert t.users[user := Tombstone(tag)] == s.users[user := Tombstone(tag)];
  }

  // ---- Each operation by itself ----

  /** When a registration succeeds, and the row it makes. */
  lemma RegisterSucceedsExactly(s: State, op: Op)
    requires op.Register?
    ensures var (t, outcome) := Apply(s, op);
      var email, username := Lower(Strip(op.email)), Strip(op.username);
      var isValid := '@' in email && username != "" && op.passwordOk;
      var isTaken := exists u :: u in s.users && (s.users[u].username == username || s.users[u].email == email);
      && (outcome.Created? <==> isValid && !isTaken && op.cleanOk)
      && (outcome == ConflictError <==> isValid && isTaken)
      && (outcome == ValidationError <==> !isValid || (!isTaken && !op.cleanOk))
      && (outcome.Created? ==>
            && outcome.user == s.nextUser
            && t == s.(nextUser := s.nextUser + 1, users := s.users[s.nextUser :=
                 User(username, email, Strip(op.firstName), Strip(op.lastName), true, true)]))
      && (!outcome.Created? ==> t == s)
  {
  }

  /** A social login finds the user of the address, or makes one without a password under the first free name. */
  lemma SocialLoginExactly(s: State, op: Op)
    requires op.SocialLogin? && EmailsUnique(s.users)
    ensures var (t, outcome) := Apply(s, op);
      var email := Lower(Strip(op.email));
      && (email == "" ==> t == s && outcome == ValidationError)
      && (forall u :: email != "" && u in s.users && s.users[u].email == email ==> t == s && outcome == Existing(u))
      && (email != "" && (forall u :: u in s.users ==> s.users[u].email != email) ==>
            outcome == Created(s.nextUser) && exists k: nat ::
              && Usernames.FirstFree(op.base, UsernamesOf(s.users), k)
              && t == s.(nextUser := s.nextUser + 1, users := s.users[s.nextUser :=
                   User(Usernames.Candidate(op.base, k), email, op.firstName, op.lastName, true, false)]))
  {
    var names := UsernamesOf(s.users);
    assert Usernames.FirstFree(op.base, names, Usernames.SearchFrom(op.base, names, 0));
  }

  /** A row is stored under a new key exactly if all its references are to existing users. */
  lemma RowIsStoredExactly(s: State, r: RowId, row: Row)
    ensures var (t, outcome) := Apply(s, AddRow(r, row));
      if r !in s.rows && (row.owner.Some? ==> row.owner.value in s.users)
         && forall column :: column in row.mentions ==> row.mentions[column] in s.users
      then outcome == Stored && t == s.(rows := s.rows[r := row])
      else outcome == IntegrityError && t == s
  {
  }

  lemma HardDeleteNeedsAUser(s: State, user: UserId)
    ensures var (t, outcome) := Apply(s, HardDelete(user));
      if user in s.users then outcome.Erased? && t.users == s.users - {user} && t.nextUser == s.nextUser
      else outcome == NoSuchUser && t == s
  {
  }

  /** An anonymised user cannot log in, and has no name left. */
  lemma AnonymizedUserIsInert(s: State, user: UserId, tag: string)
    ensures var (t, outcome) := Apply(s, Anonymize(user, tag));
      && (outcome == NoSuchUser <==> user !in s.users)
      && (outcome == IntegrityError <==>
            user in s.users && exists u :: u in s.users && u != user && s.users[u].username == "deleted_" + tag)
      && (outcome.Erased? ==>
            && t.users == s.users[user := t.users[user]]
            && t.users[user].username == "deleted_" + tag
            && t.users[user].email == "deleted_" + tag + "@deleted.invalid"
            && t.users[user].firstName == t.users[user].lastName == ""
            && !t.users[user].isActive && !t.users[user].hasPassword)
      && (!outcome.Erased? ==> t == s)
  {
    if u :| u in s.users && u != user && s.users[u].username == "deleted_" + tag {
      assert (s.users - {user})[u].username == "deleted_" + tag;
    }
  }

  // ---- Runs ----

  ghost function Run(s: State, ops: seq<Op>): State {
    if ops == [] then s else Apply(Run(s, ops[..|ops| - 1]), ops[|ops| - 1]).0
  }

  ghost function At(s: State, ops: seq<Op>, i: int): State
    requires 0 <= i <= |ops|
  {
    Run(s, ops[..i])
  }

  lemma NextState(s: State, ops: seq<Op>, i: int)
    requires 0 <= i < |ops|
    ensures At(s, ops, i + 1) == Apply(At(s, ops, i), ops[i]).0
  {
    assert ops[..i + 1][..i] == ops[..i];
  }

  ghost predicate FreshTags(s: State, ops: seq<Op>) {
    forall i :: 0 <= i < |ops| ==> FreshTag(At(s, ops, i), ops[i])
  }

  /** Registration, social login and both erasures, in any order, keep usernames and emails unique and every
      reference to a user valid or null. */
  lemma {:induction false} RunsKeepInvariant(s: State, ops: seq<Op>, n: int)
    requires Invariant(s) && FreshTags(s, ops) && 0 <= n <= |ops|
    ensures Invariant(At(s, ops, n))
    decreases n
  {
    if n == 0 {
    } else {
      RunsKeepInvariant(s, ops, n - 1);
      NextState(s, ops, n - 1);
      ApplyKeepsInvariant(At(s, ops, n - 1), ops[n - 1]);
    }
  }

  predicate Erases(op: Op, user: UserId) {
    (op.Anonymize? || op.HardDelete?) && op.user == user
  }

  lemma StepKeepsUser(s: State, op: Op, user: UserId)
    requires user in s.users && user < s.nextUser && !Erases(op, user)
    ensures var t := Apply(s, op).0; user in t.users && t.users[user] == s.users[user] && user < t.nextUser
  {
  }

  lemma {:induction false} UserStaysUntilErased(s: State, ops: seq<Op>, i: int, n: int, user: UserId)
    requires 0 <= i <= n <= |ops| && user in At(s, ops, i).users && user < At(s, ops, i).nextUser
    requires forall k :: i <= k < n ==> !Erases(ops[k], user)
    ensures user in At(s, ops, n).users && At(s, ops, n).users[user] == At(s, ops, i).users[user]
    ensures user < At(s, ops, n).nextUser
    decreases n
  {
    if i == n {
    } else {
      UserStaysUntilErased(s, ops, i, n - 1, user);
      NextState(s, ops, n - 1);
      StepKeepsUser(At(s, ops, n - 1), ops[n - 1], user);
    }
  }

  predicate LogsIn(outcome: Outcome, user: UserId) {
    outcome == Created(user) || outcome == Existing(user)
  }

  /** Repeated social logins with one email, up to case and surrounding space, give the same user until that user is
      erased. */
  lemma SocialLoginIsStable(s: State, ops: seq<Op>, i: int, j: int, user: UserId)
    requires Invariant(s) && FreshTags(s, ops) && 0 <= i < j < |ops|
    requires ops[i].SocialLogin? && ops[j].SocialLogin? && Normalize(ops[i].email) == Normalize(ops[j].email)
    requires LogsIn(Apply(At(s, ops, i), ops[i]).1, user)
    requires forall k :: i < k < j ==> !Erases(ops[k], user)
    ensures Apply(At(s, ops, j), ops[j]).1 == Existing(user)
  {
    NextState(s, ops, i);
    RunsKeepInvariant(s, ops, i + 1);
    UserStaysUntilErased(s, ops, i + 1, j, user);
    RunsKeepInvariant(s, ops, j);
    var email := Normalize(ops[j].email);
    assert At(s, ops, j).users[user].email == email;
    assert WithEmail(At(s, ops, j).users, email) == user;
  }

  // ---- The services ----

  class Accounts {
    var users: map<UserId, User>
    var rows: map<RowId, Row>
    var nextUser: UserId

    constructor ()
      ensures users == map[] && rows == map[] && nextUser == 1
    {
      users, rows, nextUser := map[], map[], 1;
    }

    function Abstract(): State
      reads this
    {
      State(users, rows, nextUser)
    }

    method CreateUser(email: string, username: string, firstName: string, lastName: string, passwordOk: bool,
                      cleanOk: bool)
      returns (outcome: Outcome)
      modifies this
      ensures (Abstract(), outcome)
        == Apply(old(Abstract()), Register(email, username, firstName, lastName, passwordOk, cleanOk))
    {
      var address, name := Normalize(email), Strip(username);
      if address == "" || '@' !in address { return ValidationError; }
      if name == "" { return ValidationError; }
      if !passwordOk { return ValidationError; }
      if UsernameTaken(users, name) { return ConflictError; }
      if EmailTaken(users, address) { return ConflictError; }
      if !cleanOk { return ValidationError; }
      outcome := Created(nextUser);
      users := users[nextUser := User(name, address, Strip(firstName), Strip(lastName), true, true)];
      nextUser := nextUser + 1;
    }

    method SocialLogIn(email: string, base: string, firstName: string, lastName: string) returns (outcome: Outcome)
      requires EmailsUnique(users)
      modifies this
      ensures (Abstract(), outcome) == Apply(old(Abstract()), SocialLogin(email, base, firstName, lastName))
    {
      var address := Normalize(email);
      if address == "" { return ValidationError; }
      if u :| u in users && users[u].email == address {
        assert u == WithEmail(users, address);
        return Existing(u);
      }
      var username := Usernames.UniqueUsername(base, UsernamesOf(users));
      outcome := Created(nextUser);
      users := users[nextUser := User(username, address, firstName, lastName, true, false)];
      nextUser := nextUser + 1;
    }

    /** `_revoke_tokens`, `_delete_notifications`, `_delete_roles` */
    method DeleteOwned(user: UserId, kind: Kind) returns (count: nat)
      modifies this`rows
      ensures rows == old(rows) - Owned(old(rows), user, kind)
      ensures count == |Owned(old(rows), user, kind)|
    {
      var doomed := Owned(rows, user, kind);
      rows := rows - doomed;
      return |doomed|;
    }

    method AnonymizeUser(user: UserId, tag: string) returns (outcome: Outcome)
      requires user in users
      modifies this
      ensures (Abstract(), outcome) == Apply(old(Abstract()), Anonymize(user, tag))
    {
      var savedRows := rows;
      var tokens := DeleteOwned(user, Token);
      var notifications := DeleteOwned(user, Notification);
      var roles := DeleteOwned(user, Role);
      if UsernameTaken(users - {user}, "deleted_" + tag) {
        rows := savedRows;
        return IntegrityError;
      }
      users := users[user := User("deleted_" + tag, "deleted_" + tag + "@deleted.invalid", "", "", false, false)];
      OwnedAfterDeletion(savedRows, user);
      return Erased(notifications, roles);
    }

    method HardDeleteUser(user: UserId) returns (outcome: Outcome)
      requires user in users
      modifies this
      ensures (Abstract(), outcome) == Apply(old(Abstract()), HardDelete(user))
    {
      var tokens := DeleteOwned(user, Token);
      var notifications := DeleteOwned(user, Notification);
      var roles := DeleteOwned(user, Role);
      OwnedAfterDeletion(old(rows), user);
      rows := Cascade(rows, user);
      users := users - {user};
      return Erased(notifications, roles);
    }
  }

  /** Deleting one kind after another removes the personal rows, and each deletion counts what was there at first. */
  lemma OwnedAfterDeletion(rows: map<RowId, Row>, user: UserId)
    ensures var noTokens := rows - Owned(rows, user, Token);
      var noNotifications := noTokens - Owned(noTokens, user, Notification);
      && Owned(noTokens, user, Notification) == Owned(rows, user, Notification)
      && Owned(noNotifications, user, Role) == Owned(rows, user, Role)
      && noNotifications - Owned(noNotifications, user, Role) == WithoutPersonal(rows, user)
  {
  }
}
