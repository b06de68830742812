/** apps/authentication: TOTP set-up, and logins that need a second factor.

    The TOTP arithmetic (section 5.2 of RFC 6238) stays uninterpreted: `verify` says whether a code is good for a
    secret at a time. */
module TwoFactor {
  import opened Prelude

  type UserId = nat
  type Time = int
  type Verifier = (string, string, Time) -> bool

  const SESSION_TTL: int := 300

  /** A UserTOTP row. */
  datatype Totp = Totp(secret: string, isEnabled: bool, backupCodes: seq<string>)

  /** A pre-auth session in the cache. */
  datatype Session = Session(user: UserId, expires: Time)

  datatype State = State(
    now: Time,
    users: set<UserId>,
    totp: map<UserId, Totp>,
    sessions: map<string, Session>)

  datatype Op =
    | Setup(user: UserId, secret: string, codes: seq<string>)    // the random secret and, for a new row, backup codes
    | Enable(user: UserId, code: string)
    | Disable(user: UserId, code: string)
    | Login(user: UserId, key: string)  // the password was right; `key` is the random session key
    | Complete(key: string, code: string)
    | SocialLogin(user: UserId)         // the provider vouches for this user, who may be a new one
    | DeleteUser(user: UserId)
    | Wait(seconds: nat)

  datatype Outcome =
    | Refused
    | SecretIssued(secret: string)
    | Enabled(codes: seq<string>)
    | Disabled
    | SessionIssued(key: string)
    | Tokens(user: UserId)
    | Done

  function Without(codes: seq<string>, code: string): seq<string> {
    if codes == [] then []
    else (if codes[0] == code then [] else [codes[0]]) + Without(codes[1..], code)
  }

  lemma {:induction false} WithoutRemoves(codes: seq<string>, code: string)
    ensures forall c :: c in Without(codes, code) <==> c in codes && c != code
    ensures |Without(codes, code)| <= |codes|
  {
    if codes == [] {
    } else {
      WithoutRemoves(codes[1..], code);
      assert codes == [codes[0]] + codes[1..];
    }
  }

  lemma {:induction false} WithoutAppend(codes: seq<string>, last: string, code: string)
    ensures Without(codes + [last], code) == Without(codes, code) + if last == code then [] else [last]
  {
    if codes == [] {
    } else {
      assert (codes + [last])[1..] == codes[1..] + [last];
      WithoutAppend(codes[1..], last, code);
    }
  }

  /** What a code is worth against a row: a TOTP code, one of the backup codes, or nothing. */
  datatype Check = ByTotp | ByBackup(code: string) | Bad

  function CheckCode(verify: Verifier, row: Totp, code: string, now: Time): Check {
    var backup := Upper(Strip(code));
    if verify(row.secret, code, now) then ByTotp
    else if backup in row.backupCodes then ByBackup(backup)
    else Bad
  }

  /** The row after a check: a backup code is used up. */
  function AfterCheck(row: Totp, check: Check): Totp {
    if check.ByBackup? then row.(backupCodes := Without(row.backupCodes, check.code)) else row
  }

  predicate IsActive(totp: map<UserId, Totp>, user: UserId) {
    user in totp && totp[user].isEnabled
  }

  predicate IsLive(s: State, key: string) {
    key in s.sessions && s.now < s.sessions[key].expires
  }

  function Apply(verify: Verifier, s: State, op: Op): (State, Outcome) {
    match op
    case Setup(user, secret, codes) =>
      if user !in s.users || IsActive(s.totp, user) then (s, Refused)
      else
        var row :=
          if user in s.totp then s.totp[user].(secret := secret, isEnabled := false) else Totp(secret, false, codes);
        (s.(totp := s.totp[user := row]), SecretIssued(secret))
    case Enable(user, rawCode) =>
      var code := Strip(rawCode);
      if code == "" || user !in s.totp || s.totp[user].isEnabled || !verify(s.totp[user].secret, code, s.now)
      then (s, Refused)
      else (s.(totp := s.totp[user := s.totp[user].(isEnabled := true)]), Enabled(s.totp[user].backupCodes))
    case Disable(user, rawCode) =>
      var code := Strip(rawCode);
      if code == "" || !IsActive(s.totp, user) || CheckCode(verify, s.totp[user], code, s.now).Bad? then (s, Refused)
      else (s.(totp := s.totp - {user}), Disabled)
    case Login(user, key) =>
      if user !in s.users then (s, Refused)
      else if IsActive(s.totp, user) then
        (s.(sessions := s.sessions[key := Session(user, s.now + SESSION_TTL)]), SessionIssued(key))
      else (s, Tokens(user))
    case Complete(rawKey, rawCode) => CompleteStep(verify, s, Strip(rawKey), Strip(rawCode))
    case SocialLogin(user) => (s.(users := s.users + {user}), Tokens(user))
    case DeleteUser(user) => (s.(users := s.users - {user}, totp := s.totp - {user}), Done)
    case Wait(seconds) => (s.(now := s.now + seconds), Done)
  }

  function CompleteStep(verify: Verifier, s: State, key: string, code: string): (State, Outcome) {
    if key == "" || code == "" || !IsLive(s, key) || s.sessions[key].user !in s.users then (s, Refused)
    else
      var user := s.sessions[key].user;
      if !IsActive(s.totp, user) then (s.(sessions := s.sessions - {key}), Refused)
      else
        var check := CheckCode(verify, s.totp[user], code, s.now);
        if check.Bad? then (s, Refused)
        else
          (s.(totp := s.totp[user := AfterCheck(s.totp[user], check)], sessions := s.sessions - {key}), Tokens(user))
  }

  // ---- Runs ----

  function Run(verify: Verifier, s: State, ops: seq<Op>): State {
    if ops == [] then s else Apply(verify, Run(verify, s, ops[..|ops| - 1]), ops[|ops| - 1]).0
  }

  /** The state before operation i, and what the operation answers. */
  function At(verify: Verifier, s: State, ops: seq<Op>, i: int): State
    requires 0 <= i <= |ops|
  {
    Run(verify, s, ops[..i])
  }

  function OutcomeAt(verify: Verifier, s: State, ops: seq<Op>, i: int): Outcome
    requires 0 <= i < |ops|
  {
    Apply(verify, At(verify, s, ops, i), ops[i]).1
  }

  lemma NextState(verify: Verifier, s: State, ops: seq<Op>, i: int)
    requires 0 <= i < |ops|
    ensures At(verify, s, ops, i + 1) == Apply(verify, At(verify, s, ops, i), ops[i]).0
  {
    assert ops[..i + 1][..i] == ops[..i];
  }

  predicate Initial(s: State) { s.totp == map[] && s.sessions == map[] }

  // ---- Sessions ----

  /** Operation i is the login that issued this session key to this user. */
  predicate IssuesAt(verify: Verifier, s: State, ops: seq<Op>, i: int, key: string, user: UserId) {
    0 <= i < |ops| && ops[i] == Login(user, key) && OutcomeAt(verify, s, ops, i) == SessionIssued(key)
  }

  /** Operation j completes a login with this session key, and tokens are issued. */
  predicate CompletesAt(verify: Verifier, s: State, ops: seq<Op>, j: int, key: string) {
    0 <= j < |ops| && ops[j].Complete? && Strip(ops[j].key) == key && OutcomeAt(verify, s, ops, j).Tokens?
  }

  lemma LoginSessions(verify: Verifier, s: State, user: UserId, key: string)
    ensures var (t, outcome) := Apply(verify, s, Login(user, key));
      && (outcome == SessionIssued(key) ==> t.sessions == s.sessions[key := Session(user, s.now + 300)])
      && (!outcome.SessionIssued? ==> t.sessions == s.sessions)
      && (outcome.SessionIssued? ==> outcome.key == key)
  {
  }

  lemma CompletionSessions(verify: Verifier, s: State, key: string, code: string)
    ensures var (t, outcome) := CompleteStep(verify, s, key, code);
      && (t.sessions == s.sessions || t.sessions == s.sessions - {key})
      && (outcome.Tokens? ==> t.sessions == s.sessions - {key})
  {
  }

  /** A session is the one that a login has just issued, or it was there before and has not been completed. */
  lemma SessionOrigin(verify: Verifier, s: State, op: Op, key: string)
    requires key in Apply(verify, s, op).0.sessions
    ensures var (t, outcome) := Apply(verify, s, op);
      || (op == Login(t.sessions[key].user, key) && outcome == SessionIssued(key)
          && t.sessions[key].expires == s.now + 300)
      || (key in s.sessions && t.sessions[key] == s.sessions[key]
          && !(op.Complete? && Strip(op.key) == key && outcome.Tokens?))
  {
    match op
    case Login(user, issued) => LoginSessions(verify, s, user, issued);
    case Complete(rawKey, rawCode) => CompletionSessions(verify, s, Strip(rawKey), Strip(rawCode));
    case _ =>
  }

  lemma EnabledOrigin(verify: Verifier, s: State, op: Op, user: UserId)
    requires IsActive(Apply(verify, s, op).0.totp, user)
    ensures var (t, outcome) := Apply(verify, s, op);
      || (IsActive(s.totp, user) && t.totp[user].secret == s.totp[user].secret)
      || (op.Enable? && op.user == user && user in s.totp && t.totp[user].secret == s.totp[user].secret
          && verify(s.totp[user].secret, Strip(op.code), s.now))
  {
  }

  /** Operation i issued this session, and no operation between i and n completed it. */
  ghost predicate OpenSince(verify: Verifier, s: State, ops: seq<Op>, i: int, n: int, key: string, session: Session)
    requires 0 <= n <= |ops|
  {
    && 0 <= i < n && IssuesAt(verify, s, ops, i, key, session.user)
    && session.expires == At(verify, s, ops, i).now + 300
    && forall k :: i < k < n ==> !CompletesAt(verify, s, ops, k, key)
  }

  lemma SessionStep(verify: Verifier, s: State, ops: seq<Op>, n: int, key: string)
    requires 0 <= n < |ops| && key in At(verify, s, ops, n + 1).sessions
    ensures var session := At(verify, s, ops, n + 1).sessions[key];
      || OpenSince(verify, s, ops, n, n + 1, key, session)
      || (key in At(verify, s, ops, n).sessions && At(verify, s, ops, n).sessions[key] == session
          && forall i :: OpenSince(verify, s, ops, i, n, key, session)
                         ==> OpenSince(verify, s, ops, i, n + 1, key, session))
  {
    NextState(verify, s, ops, n);
    SessionOrigin(verify, At(verify, s, ops, n), ops[n], key);
  }

  /** A session in the cache was issued by a login, and has not been completed since. */
  lemma {:induction false} SessionWasIssued(verify: Verifier, s: State, ops: seq<Op>, n: int, key: string)
    returns (i: int)
    requires Initial(s) && 0 <= n <= |ops| && key in At(verify, s, ops, n).sessions
    ensures OpenSince(verify, s, ops, i, n, key, At(verify, s, ops, n).sessions[key])
    decreases n
  {
    assert n > 0 by {
      assert ops[..0] == [];
    }
    SessionStep(verify, s, ops, n - 1, key);
    if OpenSince(verify, s, ops, n - 1, n, key, At(verify, s, ops, n).sessions[key]) {
      i := n - 1;
    } else {
      i := SessionWasIssued(verify, s, ops, n - 1, key);
    }
  }

  /** Tokens go only to the user who logged in, only within 300 seconds, and only once for each time the session key
      was issued. */
  lemma CompletionFollowsItsLogin(verify: Verifier, s: State, ops: seq<Op>, j: int, key: string)
    requires Initial(s) && CompletesAt(verify, s, ops, j, key)
    ensures exists i ::
              && 0 <= i < j
              && IssuesAt(verify, s, ops, i, key, OutcomeAt(verify, s, ops, j).user)
              && At(verify, s, ops, j).now < At(verify, s, ops, i).now + 300
              && forall k :: i < k < j ==> !CompletesAt(verify, s, ops, k, key)
  {
    var i := SessionWasIssued(verify, s, ops, j, key);
  }

  /** Session keys are random: none is issued twice. */
  ghost predicate FreshKeys(verify: Verifier, s: State, ops: seq<Op>) {
    forall i, j, key, u, v :: IssuesAt(verify, s, ops, i, key, u) && IssuesAt(verify, s, ops, j, key, v) ==> i == j
  }

  /** Then each pre-auth session yields at most one token pair in a whole run. */
  lemma SessionsAreSingleUse(verify: Verifier, s: State, ops: seq<Op>, i: int, j: int, key: string)
    requires Initial(s) && FreshKeys(verify, s, ops)
    requires CompletesAt(verify, s, ops, i, key) && CompletesAt(verify, s, ops, j, key)
    ensures i == j
  {
    if i != j {
      var first, second := if i < j then i else j, if i < j then j else i;
      CompletionFollowsItsLogin(verify, s, ops, first, key);
      CompletionFollowsItsLogin(verify, s, ops, second, key);
    }
  }

  /** Everything a user does to get in with a second factor: set up, enable, log in, wait, complete. */
  function Journey(user: UserId, secret: string, codes: seq<string>, first: string, key: string, wait: nat,
                   second: string): seq<Op> {
    [Setup(user, secret, codes), Enable(user, first), Login(user, key), Wait(wait), Complete(key, second)]
  }

  /** The state in which the journey's login leaves an enabled user. */
  function LoggedIn(s: State, user: UserId, row: Totp, key: string): State {
    s.(totp := s.totp[user := row], sessions := s.sessions[key := Session(user, s.now + SESSION_TTL)])
  }

  lemma JourneyToLogin(verify: Verifier, s: State, user: UserId, secret: string, codes: seq<string>, first: string,
                       key: string)
    requires user in s.users && user !in s.totp
    requires Strip(first) != "" && verify(secret, Strip(first), s.now)
    ensures var one := Apply(verify, s, Setup(user, secret, codes)).0;
      var two := Apply(verify, one, Enable(user, first)).0;
      Apply(verify, two, Login(user, key)).0 == LoggedIn(s, user, Totp(secret, true, codes), key)
  {
    var one := Apply(verify, s, Setup(user, secret, codes)).0;
    assert one == s.(totp := s.totp[user := Totp(secret, false, codes)]);
    var two := Apply(verify, one, Enable(user, first)).0;
    assert two == s.(totp := s.totp[user := Totp(secret, true, codes)]);
  }

  /** A session just issued to an enabled user yields tokens exactly within 300 seconds and with a good code. */
  lemma FreshSessionCompletes(verify: Verifier, s: State, user: UserId, row: Totp, key: string, wait: nat, code: string)
    requires user in s.users && row.isEnabled && Strip(key) == key != "" && Strip(code) != ""
    ensures var later := Apply(verify, LoggedIn(s, user, row, key), Wait(wait)).0;
      Apply(verify, later, Complete(key, code)).1 == Tokens(user) <==>
        wait < 300 && (verify(row.secret, Strip(code), s.now + wait) || Upper(Strip(code)) in row.backupCodes)
  {
    StripIsIdempotent(code);
  }

  lemma RunOfFive(verify: Verifier, s: State, ops: seq<Op>)
    requires |ops| == 5
    ensures var one := Apply(verify, s, ops[0]).0;
      var two := Apply(verify, one, ops[1]).0;
      var three := Apply(verify, two, ops[2]).0;
      var four := Apply(verify, three, ops[3]).0;
      OutcomeAt(verify, s, ops, 4) == Apply(verify, four, ops[4]).1
  {
    assert At(verify, s, ops, 0) == s;
    NextState(verify, s, ops, 0);
    NextState(verify, s, ops, 1);
    NextState(verify, s, ops, 2);
    NextState(verify, s, ops, 3);
  }

  /** The journey ends with tokens for that user exactly when the second code comes within 300 seconds of the login
      and is good: by its secret at that time, or as a backup code. */
  lemma HonestLoginSucceeds(verify: Verifier, s: State, user: UserId, secret: string, codes: seq<string>, first: string,
                            key: string, wait: nat, second: string)
    requires user in s.users && user !in s.totp
    requires Strip(first) != "" && verify(secret, Strip(first), s.now) && Strip(key) == key != "" && Strip(second) != ""
    ensures OutcomeAt(verify, s, Journey(user, secret, codes, first, key, wait, second), 4) == Tokens(user) <==>
              wait < 300 && (verify(secret, Strip(second), s.now + wait) || Upper(Strip(second)) in codes)
  {
    RunOfFive(verify, s, Journey(user, secret, codes, first, key, wait, second));
    JourneyToLogin(verify, s, user, secret, codes, first, key);
    FreshSessionCompletes(verify, s, user, Totp(secret, true, codes), key, wait, second);
  }

  // ---- Tokens without a second factor ----

  /** Operation j completes a login of this user with a good code, under a session that a login of the same user
      issued less than 300 seconds before. */
  ghost predicate SecondFactorAt(verify: Verifier, s: State, ops: seq<Op>, j: int, user: UserId) {
    && 0 <= j < |ops| && ops[j].Complete?
    && user in At(verify, s, ops, j).totp
    && !CheckCode(verify, At(verify, s, ops, j).totp[user], Strip(ops[j].code), At(verify, s, ops, j).now).Bad?
    && exists i :: 0 <= i < j && IssuesAt(verify, s, ops, i, Strip(ops[j].key), user)
                   && At(verify, s, ops, j).now < At(verify, s, ops, i).now + 300
  }

  /** In every run, a user whose second factor is enabled gets tokens by completing a login with a good code or by a
      social login, which asks for none, and in no other way. */
  lemma TokensOfEnabledUsers(verify: Verifier, s: State, ops: seq<Op>, j: int, user: UserId)
    requires Initial(s) && 0 <= j < |ops| && IsActive(At(verify, s, ops, j).totp, user)
    ensures OutcomeAt(verify, s, ops, j) == Tokens(user) ==>
              SecondFactorAt(verify, s, ops, j, user) || ops[j] == SocialLogin(user)
    ensures ops[j] == SocialLogin(user) ==> OutcomeAt(verify, s, ops, j) == Tokens(user)
  {
    if OutcomeAt(verify, s, ops, j) == Tokens(user) && ops[j].Complete? {
      CompletionFollowsItsLogin(verify, s, ops, j, Strip(ops[j].key));
      CompletionChecksCode(verify, At(verify, s, ops, j), Strip(ops[j].key), Strip(ops[j].code));
    }
  }

  lemma CompletionChecksCode(verify: Verifier, s: State, key: string, code: string)
    requires CompleteStep(verify, s, key, code).1.Tokens?
    ensures var user := CompleteStep(verify, s, key, code).1.user;
      user in s.totp && !CheckCode(verify, s.totp[user], code, s.now).Bad?
  {
  }

  // ---- Enabling ----

  /** Operation i is a successful check of a code against the user's secret. */
  predicate VerifiesAt(verify: Verifier, s: State, ops: seq<Op>, i: int, user: UserId, secret: string) {
    && 0 <= i < |ops| && ops[i].Enable? && ops[i].user == user
    && user in At(verify, s, ops, i).totp && At(verify, s, ops, i).totp[user].secret == secret
    && verify(secret, Strip(ops[i].code), At(verify, s, ops, i).now)
  }

  /** An enabled row's current secret was verified, and the row has been enabled with that secret ever since. */
  lemma {:induction false} EnabledWasVerified(verify: Verifier, s: State, ops: seq<Op>, n: int, user: UserId)
    returns (i: int)
    requires Initial(s) && 0 <= n <= |ops| && IsActive(At(verify, s, ops, n).totp, user)
    ensures i < n && VerifiesAt(verify, s, ops, i, user, At(verify, s, ops, n).totp[user].secret)
    ensures forall k :: i < k <= n ==> KeepsSecret(At(verify, s, ops, k), user, At(verify, s, ops, n).totp[user].secret)
    decreases n
  {
    assert n > 0;
    NextState(verify, s, ops, n - 1);
    EnabledOrigin(verify, At(verify, s, ops, n - 1), ops[n - 1], user);
    if VerifiesAt(verify, s, ops, n - 1, user, At(verify, s, ops, n).totp[user].secret) {
      i := n - 1;
    } else {
      i := EnabledWasVerified(verify, s, ops, n - 1, user);
    }
  }

  predicate KeepsSecret(s: State, user: UserId, secret: string) {
    IsActive(s.totp, user) && s.totp[user].secret == secret
  }

  /** So `is_enabled` implies that a code was verified against the current secret after it was set. */
  lemma EnabledMeansVerified(verify: Verifier, s: State, ops: seq<Op>, n: int, user: UserId)
    requires Initial(s) && 0 <= n <= |ops| && IsActive(At(verify, s, ops, n).totp, user)
    ensures exists i ::
              && 0 <= i < n
              && VerifiesAt(verify, s, ops, i, user, At(verify, s, ops, n).totp[user].secret)
              && forall k :: i < k <= n ==>
                KeepsSecret(At(verify, s, ops, k), user, At(verify, s, ops, n).totp[user].secret)
  {
    var i := EnabledWasVerified(verify, s, ops, n, user);
  }

  // ---- Each view by itself ----

  /** The code is good for the row: by its secret at this time, or as one of its backup codes. */
  predicate GoodCode(verify: Verifier, row: Totp, code: string, now: Time) {
    verify(row.secret, Strip(code), now) || Upper(Strip(code)) in row.backupCodes
  }

  /** Set-up refuses an enabled row. Otherwise the row has the new secret and is not enabled, and its backup codes are
      the new ones only if the row is new. */
  lemma SetupExactly(verify: Verifier, s: State, user: UserId, secret: string, codes: seq<string>)
    requires user in s.users
    ensures var (t, outcome) := Apply(verify, s, Setup(user, secret, codes));
      if user in s.totp && s.totp[user].isEnabled then t == s && outcome == Refused
      else
        && outcome == SecretIssued(secret) && t == s.(totp := t.totp) && t.totp.Keys == s.totp.Keys + {user}
        && (forall other :: other in s.totp && other != user ==> t.totp[other] == s.totp[other])
        && t.totp[user].secret == secret && !t.totp[user].isEnabled
        && t.totp[user].backupCodes == if user in s.totp then s.totp[user].backupCodes else codes
  {
  }

  lemma EnableExactly(verify: Verifier, s: State, user: UserId, code: string)
    ensures var (t, outcome) := Apply(verify, s, Enable(user, code));
      if user in s.totp && !s.totp[user].isEnabled && Strip(code) != ""
         && verify(s.totp[user].secret, Strip(code), s.now)
      then
        && outcome == Enabled(s.totp[user].backupCodes)
        && t == s.(totp := s.totp[user := Totp(s.totp[user].secret, true, s.totp[user].backupCodes)])
      else t == s && outcome == Refused
  {
  }

  lemma DisableExactly(verify: Verifier, s: State, user: UserId, code: string)
    ensures var (t, outcome) := Apply(verify, s, Disable(user, code));
      if user in s.totp && s.totp[user].isEnabled && Strip(code) != "" && GoodCode(verify, s.totp[user], code, s.now)
      then outcome == Disabled && t == s.(totp := s.totp - {user})
      else t == s && outcome == Refused
  {
    StripIsIdempotent(code);
  }

  lemma LoginExactly(verify: Verifier, s: State, user: UserId, key: string)
    ensures var (t, outcome) := Apply(verify, s, Login(user, key));
      if user !in s.users then outcome == Refused && t == s
      else if user in s.totp && s.totp[user].isEnabled
      then outcome == SessionIssued(key) && t == s.(sessions := s.sessions[key := Session(user, s.now + 300)])
      else outcome == Tokens(user) && t == s
  {
  }

  /** A social login makes the user known, the deletion of a user takes the second factor along. */
  lemma UsersComeAndGo(verify: Verifier, s: State, user: UserId)
    ensures Apply(verify, s, SocialLogin(user)) == (s.(users := s.users + {user}), Tokens(user))
    ensures var t := Apply(verify, s, DeleteUser(user)).0;
      && t == s.(users := t.users, totp := t.totp)
      && (forall u :: u in t.users <==> u in s.users && u != user)
      && (forall u :: (u in t.totp <==> u in s.totp && u != user) && (u in t.totp ==> t.totp[u] == s.totp[u]))
  {
  }

  /** Completing needs a live session of an existing user. If that user's second factor is off, the session goes
      without tokens. If it is on, a good code gives tokens and takes the session away, together with every copy of
      the backup code unless the secret verified. */
  lemma CompleteExactly(verify: Verifier, s: State, rawKey: string, rawCode: string)
    ensures var (t, outcome) := Apply(verify, s, Complete(rawKey, rawCode));
      var key, code := Strip(rawKey), Strip(rawCode);
      if key == "" || code == "" || key !in s.sessions || s.now >= s.sessions[key].expires
         || s.sessions[key].user !in s.users
      then t == s && outcome == Refused
      else
        var user := s.sessions[key].user;
        if user !in s.totp || !s.totp[user].isEnabled then t == s.(sessions := s.sessions - {key}) && outcome == Refused
        else if !GoodCode(verify, s.totp[user], rawCode, s.now) then t == s && outcome == Refused
        else
          && outcome == Tokens(user)
          && t == s.(sessions := s.sessions - {key}, totp := s.totp[user := t.totp[user]])
          && t.totp[user].secret == s.totp[user].secret && t.totp[user].isEnabled
          && forall c :: c in t.totp[user].backupCodes <==>
               c in s.totp[user].backupCodes && (verify(s.totp[user].secret, code, s.now) || c != Upper(code))
  {
    StripIsIdempotent(rawCode);
    var key := Strip(rawKey);
    if key in s.sessions && s.sessions[key].user in s.totp {
      WithoutRemoves(s.totp[s.sessions[key].user].backupCodes, Upper(Strip(rawCode)));
    }
  }

  /** In every run the second factor of a user goes off only by the user's own post of a good code, by the deletion of
      the user, and in no other way. */
  lemma SwitchingOffNeedsACode(verify: Verifier, s: State, ops: seq<Op>, j: int, user: UserId)
    requires 0 <= j < |ops|
    requires IsActive(At(verify, s, ops, j).totp, user) && !IsActive(At(verify, s, ops, j + 1).totp, user)
    ensures var before := At(verify, s, ops, j);
      || ops[j] == DeleteUser(user)
      || (ops[j].Disable? && ops[j].user == user && GoodCode(verify, before.totp[user], ops[j].code, before.now))
  {
    NextState(verify, s, ops, j);
    if ops[j].Disable? {
      DisableExactly(verify, At(verify, s, ops, j), ops[j].user, ops[j].code);
    }
  }

  // ---- Backup codes ----

  /** The user's row exists in every state from i to n, so it is the same row: deleting one leaves a state without. */
  predicate RowLives(verify: Verifier, s: State, ops: seq<Op>, i: int, n: int, user: UserId) {
    0 <= i <= n <= |ops| && forall k :: i <= k <= n ==> user in At(verify, s, ops, k).totp
  }

  lemma StepShrinksCodes(verify: Verifier, s: State, op: Op, user: UserId)
    requires user in s.totp && user in Apply(verify, s, op).0.totp
    ensures var before, after := s.totp[user].backupCodes, Apply(verify, s, op).0.totp[user].backupCodes;
      |after| <= |before| && forall c :: c in after ==> c in before
  {
    if op.Complete? {
      var key := Strip(op.key);
      if key in s.sessions && s.sessions[key].user in s.totp {
        var owner := s.sessions[key].user;
        WithoutRemoves(s.totp[owner].backupCodes, Upper(Strip(Strip(op.code))));
      }
    }
  }

  /** While a row lives its backup codes only shrink. */
  lemma {:induction false} BackupCodesShrink(verify: Verifier, s: State, ops: seq<Op>, i: int, n: int, user: UserId)
    requires RowLives(verify, s, ops, i, n, user)
    ensures |At(verify, s, ops, n).totp[user].backupCodes| <= |At(verify, s, ops, i).totp[user].backupCodes|
    ensures forall c :: c in At(verify, s, ops, n).totp[user].backupCodes ==>
      c in At(verify, s, ops, i).totp[user].backupCodes
    decreases n
  {
    if i == n {
    } else {
      BackupCodesShrink(verify, s, ops, i, n - 1, user);
      NextState(verify, s, ops, n - 1);
      StepShrinksCodes(verify, At(verify, s, ops, n - 1), ops[n - 1], user);
    }
  }

  /** Operation i completes a login of the user by this backup code. (Disabling by a backup code deletes the row.) */
  predicate SpendsAt(verify: Verifier, s: State, ops: seq<Op>, i: int, user: UserId, code: string) {
    && 0 <= i < |ops| && ops[i].Complete? && OutcomeAt(verify, s, ops, i) == Tokens(user)
    && user in At(verify, s, ops, i).totp
    && CheckCode(verify, At(verify, s, ops, i).totp[user], Strip(ops[i].code), At(verify, s, ops, i).now)
      == ByBackup(code)
  }

  /** While a row lives each of its backup codes is accepted at most once: after a login spent it, no check of any
      code, at any time, comes out as that backup code again. */
  lemma BackupCodesAreSingleUse(verify: Verifier, s: State, ops: seq<Op>, i: int, j: int, user: UserId, code: string,
                                attempt: string)
    requires i < j && SpendsAt(verify, s, ops, i, user, code) && RowLives(verify, s, ops, i, j, user)
    ensures CheckCode(verify, At(verify, s, ops, j).totp[user], attempt, At(verify, s, ops, j).now) != ByBackup(code)
  {
    NextState(verify, s, ops, i);
    WithoutRemoves(At(verify, s, ops, i).totp[user].backupCodes, code);
    assert RowLives(verify, s, ops, i + 1, j, user);
    BackupCodesShrink(verify, s, ops, i + 1, j, user);
  }

  // ---- The views ----

  class TwoFactorViews {
    const verify: Verifier
    var now: Time
    var users: set<UserId>
    var totp: map<UserId, Totp>
    var sessions: map<string, Session>

    constructor (verify: Verifier, now: Time, users: set<UserId>)
      ensures this.verify == verify && this.now == now && this.users == users
      ensures totp == map[] && sessions == map[]
    {
      this.verify, this.now, this.users := verify, now, users;
      totp, sessions := map[], map[];
    }

    function Abstract(): State
      reads this
    {
      State(now, users, totp, sessions)
    }

    method SetupGet(user: UserId, secret: string, codes: seq<string>) returns (outcome: Outcome)
      requires user in users
      modifies this`totp
      ensures (Abstract(), outcome) == Apply(verify, old(Abstract()), Setup(user, secret, codes))
    {
      if user in totp && totp[user].isEnabled { return Refused; }
      if user in totp {
        totp := totp[user := totp[user].(secret := secret, isEnabled := false)];
      } else {
        totp := totp[user := Totp(secret, false, codes)];
      }
      return SecretIssued(secret);
    }

    method EnablePost(user: UserId, rawCode: string) returns (outcome: Outcome)
      modifies this`totp
      ensures (Abstract(), outcome) == Apply(verify, old(Abstract()), Enable(user, rawCode))
    {
      var code := Strip(rawCode);
      if code == "" || user !in totp { return Refused; }
      if totp[user].isEnabled { return Refused; }
      if !verify(totp[user].secret, code, now) { return Refused; }
      totp := totp[user := totp[user].(isEnabled := true)];
      return Enabled(totp[user].backupCodes);
    }

    /** `UserTOTP.use_backup_code` */
    method UseBackupCode(user: UserId, rawCode: string) returns (valid: bool)
      requires user in totp
      modifies this`totp
      ensures valid <==> Upper(Strip(rawCode)) in old(totp)[user].backupCodes
      ensures totp == if valid then old(totp)[user := AfterCheck(old(totp)[user], ByBackup(Upper(Strip(rawCode))))]
                      else old(totp)
    {
      var code := Upper(Strip(rawCode));
      if code !in totp[user].backupCodes { return false; }
      var kept := Filter(totp[user].backupCodes, code);
      totp := totp[user := totp[user].(backupCodes := kept)];
      return true;
    }

    /** The list comprehension of `use_backup_code`. */
    static method Filter(codes: seq<string>, code: string) returns (kept: seq<string>)
      ensures kept == Without(codes, code)
    {
      kept := [];
      for i := 0 to |codes|
        invariant kept == Without(codes[..i], code)
      {
        WithoutAppend(codes[..i], codes[i], code);
        assert codes[..i + 1] == codes[..i] + [codes[i]];
        if codes[i] != code { kept := kept + [codes[i]]; }
      }
      assert codes[..|codes|] == codes;
    }

    method DisablePost(user: UserId, rawCode: string) returns (outcome: Outcome)
      modifies this`totp
      ensures (Abstract(), outcome) == Apply(verify, old(Abstract()), Disable(user, rawCode))
    {
      var code := Strip(rawCode);
      if code == "" || user !in totp || !totp[user].isEnabled { return Refused; }
      var validTotp := verify(totp[user].secret, code, now);
      var validBackup := false;
      if !validTotp { validBackup := UseBackupCode(user, code); }
      if !validTotp && !validBackup { return Refused; }
      totp := totp - {user};
      assert totp == old(totp) - {user};
      return Disabled;
    }

    method TokenPost(user: UserId, key: string) returns (outcome: Outcome)
      requires user in users
      modifies this`sessions
      ensures (Abstract(), outcome) == Apply(verify, old(Abstract()), Login(user, key))
    {
      if user in totp && totp[user].isEnabled {
        sessions := sessions[key := Session(user, now + SESSION_TTL)];
        return SessionIssued(key);
      }
      return Tokens(user);
    }

    /** The social login view, once the provider's token is good and the user is found or created. */
    method SocialPost(user: UserId) returns (outcome: Outcome)
      modifies this`users
      ensures (Abstract(), outcome) == Apply(verify, old(Abstract()), SocialLogin(user))
    {
      users := users + {user};
      return Tokens(user);
    }

    method CompletePost(rawKey: string, rawCode: string) returns (outcome: Outcome)
      modifies this`totp, this`sessions
      ensures (Abstract(), outcome) == Apply(verify, old(Abstract()), Complete(rawKey, rawCode))
    {
      var key, code := Strip(rawKey), Strip(rawCode);
      if key == "" || code == "" { return Refused; }
      if !(key in sessions && now < sessions[key].expires) { return Refused; }
      var user := sessions[key].user;
      if user !in users { return Refused; }
      if user !in totp || !totp[user].isEnabled {
        sessions := sessions - {key};
        return Refused;
      }
      var validTotp := verify(totp[user].secret, code, now);
      var validBackup := false;
      if !validTotp { validBackup := UseBackupCode(user, code); }
      if !validTotp && !validBackup { return Refused; }
      sessions := sessions - {key};
      assert validTotp ==> totp == old(totp)[user := old(totp)[user]];
      return Tokens(user);
    }
  }
}
