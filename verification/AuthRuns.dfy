/** What holds over every run of the authentication service. */
module AuthRuns {
  import opened AuthModel
  import opened Numbers
  import opened Options

  // ----- the invariant -------------------------------------------------------------------

  ghost predicate UsersOk(s: State) {
    && (forall u :: u in s.users ==> u < s.nextId)
    && (forall u :: u in s.users ==> LockOk(s.users[u]))
  }

  /** The timer is only set on locked accounts, and an unlocked account has tries left. */
  predicate LockOk(user: User) {
    && (user.lockedUntil.Some? ==> user.isLocked)
    && (!user.isLocked ==> user.failedLogins < MAX_FAILED_LOGINS)
  }

  ghost predicate SessionsOk(s: State, cfg: Settings) {
    forall i :: i in s.sessions ==>
      && i < s.nextId
      && s.sessions[i].userId in s.users
      && s.sessions[i].expiresAt == s.sessions[i].createdAt + RefreshDays(cfg, s.sessions[i].rememberMe) * DAY
  }

  /** Every signed token names a session and its user. */
  ghost predicate IssuedOk(s: State) {
    forall t :: t in s.issued ==> t.jti < s.nextId && t.sid in s.sessions && t.sub == s.sessions[t.sid].userId
  }

  /** Every stored row belongs to a signed refresh token and agrees with its session. */
  ghost predicate RowsOk(s: State) {
    forall t :: t in s.tokens ==>
      && t in s.issued && t.typ == Refresh && t.sid in s.sessions
      && s.tokens[t].sessionId == t.sid && s.tokens[t].userId == t.sub
      && s.tokens[t].expiresAt == s.sessions[t.sid].expiresAt
  }

  predicate Live(s: State, t: Jwt) {
    t in s.tokens && s.tokens[t].revokedAt.None?
  }

  /** A session has at most one refresh row that is not revoked. */
  ghost predicate OneLiveRow(s: State) {
    forall t, u :: Live(s, t) && Live(s, u) && s.tokens[t].sessionId == s.tokens[u].sessionId ==> t == u
  }

  ghost predicate Inv(s: State, cfg: Settings) {
    UsersOk(s) && SessionsOk(s, cfg) && IssuedOk(s) && RowsOk(s) && OneLiveRow(s)
  }

  // ----- what later states keep ----------------------------------------------------------

  /** Sessions, rows and locks of `s` are still there in `t`, with the same owner and deadline,
      and what was revoked or locked still is. */
  ghost predicate Keeps(s: State, t: State) {
    && s.nextId <= t.nextId && s.issued <= t.issued
    && (forall i :: i in s.sessions ==> i in t.sessions && KeepsSession(s.sessions[i], t.sessions[i]))
    && (forall j :: j in s.tokens ==> j in t.tokens && KeepsRow(s.tokens[j], t.tokens[j]))
    && (forall u :: u in s.users ==> u in t.users && (s.users[u].isLocked ==> t.users[u].isLocked))
    && (forall n :: n in s.names ==> n in t.names && t.names[n] == s.names[n])
    && (forall j :: j in t.issued && j !in s.issued ==> j.jti >= s.nextId)
  }

  predicate KeepsSession(a: Session, b: Session) {
    && a.userId == b.userId && a.createdAt == b.createdAt && a.expiresAt == b.expiresAt && a.rememberMe == b.rememberMe
    && (a.revokedAt.Some? ==> b.revokedAt == a.revokedAt)
  }

  predicate KeepsRow(a: TokenRow, b: TokenRow) {
    && a.userId == b.userId && a.sessionId == b.sessionId && a.expiresAt == b.expiresAt
    && (a.revokedAt.Some? ==> b.revokedAt.Some?)
  }

  lemma KeepsTransitive(s: State, t: State, u: State)
    requires Keeps(s, t) && Keeps(t, u)
    ensures Keeps(s, u)
  {}

  // ----- every call keeps both -----------------------------------------------------------

  lemma IssueKeeps(s: State, cfg: Settings, now: int, userId: Id, sid: Id)
    requires Inv(s, cfg) && sid in s.sessions && s.sessions[sid].userId == userId
    requires forall t :: Live(s, t) ==> s.tokens[t].sessionId != sid
    ensures Inv(Issue(s, cfg, now, userId, sid), cfg) && Keeps(s, Issue(s, cfg, now, userId, sid))
  {
    var t := Issue(s, cfg, now, userId, sid);
    var pair := NewTokens(s, cfg, now, userId, sid, s.sessions[sid].rememberMe);
    assert pair.refresh !in s.issued && pair.access !in s.issued;
    assert t.tokens == s.tokens[pair.refresh := TokenRow(userId, sid, s.sessions[sid].expiresAt, None)];
    assert RowsOk(t);
    forall j, k | Live(t, j) && Live(t, k) && t.tokens[j].sessionId == t.tokens[k].sessionId ensures j == k {
      assert j == pair.refresh || Live(s, j);
      assert k == pair.refresh || Live(s, k);
    }
  }

  lemma CreateUserKeeps(s: State, cfg: Settings, name: string, password: string, isActive: bool, isAdmin: bool)
    requires Inv(s, cfg)
    ensures var t := CreateUser(s, name, password, isActive, isAdmin).0; Inv(t, cfg) && Keeps(s, t)
  {
    var t := CreateUser(s, name, password, isActive, isAdmin).0;
    assert forall j :: Live(t, j) <==> Live(s, j);
  }

  lemma UserChange(s: State, cfg: Settings, id: Id, user: User)
    requires Inv(s, cfg) && id in s.users && LockOk(user) && (s.users[id].isLocked ==> user.isLocked)
    ensures Inv(SetUser(s, id, user), cfg) && Keeps(s, SetUser(s, id, user))
  {
    var t := SetUser(s, id, user);
    assert forall j :: Live(t, j) <==> Live(s, j);
  }

  lemma OpenSessionKeeps(s: State, cfg: Settings, now: int, id: Id, rememberMe: bool)
    requires Inv(s, cfg) && id in s.users
    ensures var t := OpenSession(s, cfg, now, id, rememberMe);
            Inv(t, cfg) && Keeps(s, t) && forall j :: Live(t, j) ==> t.tokens[j].sessionId != s.nextId
  {
    var t := OpenSession(s, cfg, now, id, rememberMe);
    assert forall j :: Live(t, j) <==> Live(s, j);
  }

  lemma LoginKeeps(s: State, cfg: Settings, now: int, name: string, password: string, rememberMe: bool)
    requires Inv(s, cfg)
    ensures var t := Login(s, cfg, now, name, password, rememberMe).0; Inv(t, cfg) && Keeps(s, t)
  {
    if name in s.names && s.names[name] in s.users {
      var id := s.names[name];
      var user := s.users[id];
      if Refusal(user, now).None? {
        if password != user.password {
          UserChange(s, cfg, id, Failed(user, now));
        } else {
          SignInKeeps(s, cfg, now, id, rememberMe);
        }
      }
    }
  }

  lemma SignInKeeps(s: State, cfg: Settings, now: int, id: Id, rememberMe: bool)
    requires Inv(s, cfg) && id in s.users && !s.users[id].isLocked
    ensures var t := SignIn(s, cfg, now, id, rememberMe).0; Inv(t, cfg) && Keeps(s, t)
  {
    var user := s.users[id].(failedLogins := 0, isLocked := false, lockedUntil := None);
    var cleared := SetUser(s, id, user);
    UserChange(s, cfg, id, user);
    var started := OpenSession(cleared, cfg, now, id, rememberMe);
    OpenSessionKeeps(cleared, cfg, now, id, rememberMe);
    KeepsTransitive(s, cleared, started);
    IssueKeeps(started, cfg, now, id, s.nextId);
    KeepsTransitive(s, started, Issue(started, cfg, now, id, s.nextId));
  }

  lemma TouchKeeps(s: State, cfg: Settings, now: int, sid: Id)
    requires Inv(s, cfg) && sid in s.sessions
    ensures var t := Touch(s, now, sid); Inv(t, cfg) && Keeps(s, t) && t.tokens == s.tokens
  {
    var t := Touch(s, now, sid);
    assert forall j :: Live(t, j) <==> Live(s, j);
  }

  lemma TokensChange(s: State, cfg: Settings, tokens: map<Jwt, TokenRow>)
    requires Inv(s, cfg) && tokens.Keys == s.tokens.Keys
    requires forall j :: j in tokens ==> KeepsRow(s.tokens[j], tokens[j])
    ensures var t := s.(tokens := tokens); Inv(t, cfg) && Keeps(s, t) && forall j :: Live(t, j) ==> Live(s, j)
  {
    var t := s.(tokens := tokens);
    forall j | Live(t, j) ensures Live(s, j) && t.tokens[j].sessionId == s.tokens[j].sessionId {}
  }

  lemma SpendKeeps(s: State, cfg: Settings, now: int, token: Jwt)
    requires Inv(s, cfg) && token in s.tokens
    ensures var t := Spend(s, now, token); Inv(t, cfg) && Keeps(s, t) && forall j :: Live(t, j) ==> Live(s, j) && j != token
  {
    TokensChange(s, cfg, s.tokens[token := s.tokens[token].(revokedAt := Some(now))]);
  }

  /** Once its one live row is spent, a session has none. */
  lemma SpentSessionEmpty(s: State, cfg: Settings, now: int, token: Jwt)
    requires Inv(s, cfg) && Live(s, token)
    ensures var t := Spend(s, now, token); forall j :: Live(t, j) ==> t.tokens[j].sessionId != token.sid
  {
    SpendKeeps(s, cfg, now, token);
  }

  lemma ExchangeKeeps(s: State, cfg: Settings, now: int, token: Jwt)
    requires Inv(s, cfg)
    ensures var t := Exchange(s, cfg, now, token).0; Inv(t, cfg) && Keeps(s, t)
  {
    if RefreshProblem(s, now, token).None? {
      var sid := s.tokens[token].sessionId;
      var spent := Spend(s, now, token);
      SpendKeeps(s, cfg, now, token);
      SpentSessionEmpty(s, cfg, now, token);
      var rotated := Touch(spent, now, sid);
      TouchKeeps(spent, cfg, now, sid);
      KeepsTransitive(s, spent, rotated);
      assert forall j :: Live(rotated, j) <==> Live(spent, j);
      IssueKeeps(rotated, cfg, now, s.sessions[sid].userId, sid);
      KeepsTransitive(s, rotated, Issue(rotated, cfg, now, s.sessions[sid].userId, sid));
    }
  }

  lemma RevokeTokensKeeps(s: State, cfg: Settings, userId: Id, only: Option<Id>, except: Option<Id>, now: int)
    requires Inv(s, cfg)
    ensures var t := s.(tokens := RevokeTokens(s.tokens, userId, only, except, now)); Inv(t, cfg) && Keeps(s, t)
  {
    TokensChange(s, cfg, RevokeTokens(s.tokens, userId, only, except, now));
  }

  lemma SessionsChange(s: State, cfg: Settings, sessions: map<Id, Session>)
    requires Inv(s, cfg) && sessions.Keys == s.sessions.Keys
    requires forall i :: i in sessions ==> KeepsSession(s.sessions[i], sessions[i])
    ensures var t := s.(sessions := sessions); Inv(t, cfg) && Keeps(s, t)
  {
    var t := s.(sessions := sessions);
    assert forall j :: Live(t, j) <==> Live(s, j);
  }

  lemma RevokeAllKeeps(s: State, cfg: Settings, userId: Id, except: Option<Id>, now: int)
    requires Inv(s, cfg)
    ensures var t := RevokeAll(s, userId, except, now); Inv(t, cfg) && Keeps(s, t)
  {
    var a := s.(sessions := RevokeSessions(s.sessions, userId, except, now));
    SessionsChange(s, cfg, a.sessions);
    RevokeTokensKeeps(a, cfg, userId, None, except, now);
    KeepsTransitive(s, a, RevokeAll(s, userId, except, now));
  }

  lemma LogoutKeeps(s: State, cfg: Settings, now: int, who: Principal, token: Option<Jwt>)
    requires Inv(s, cfg)
    ensures var t := Logout(s, now, who, token); Inv(t, cfg) && Keeps(s, t)
  {
    var a := s.(sessions := EndSession(s.sessions, who.sessionId, now));
    SessionsChange(s, cfg, a.sessions);
    var b := a.(tokens := RevokeTokens(a.tokens, who.userId, Some(who.sessionId), None, now));
    RevokeTokensKeeps(a, cfg, who.userId, Some(who.sessionId), None, now);
    KeepsTransitive(s, a, b);
    if token.Some? && token.value in b.tokens && b.tokens[token.value].userId == who.userId {
      SpendKeeps(b, cfg, now, token.value);
      KeepsTransitive(s, b, Logout(s, now, who, token));
    }
  }

  lemma ChangePasswordKeeps(s: State, cfg: Settings, now: int, who: Principal, current: string, chosen: string)
    requires Inv(s, cfg)
    ensures var t := ChangePassword(s, now, who, current, chosen).0; Inv(t, cfg) && Keeps(s, t)
  {
    if ChangePassword(s, now, who, current, chosen).1.Ok? {
      var user := s.users[who.userId].(password := chosen);
      var a := SetUser(s, who.userId, user);
      UserChange(s, cfg, who.userId, user);
      RevokeAllKeeps(a, cfg, who.userId, Some(who.sessionId), now);
      KeepsTransitive(s, a, RevokeAll(a, who.userId, Some(who.sessionId), now));
    }
  }

  lemma UpdateUserKeeps(s: State, cfg: Settings, now: int, userId: Id, isActive: Option<bool>, isAdmin: Option<bool>)
    requires Inv(s, cfg)
    ensures var t := UpdateUser(s, now, userId, isActive, isAdmin).0; Inv(t, cfg) && Keeps(s, t)
  {
    if userId in s.users {
      var user := s.users[userId].(
        isActive := if isActive.Some? then isActive.value else s.users[userId].isActive,
        isAdmin := if isAdmin.Some? then isAdmin.value else s.users[userId].isAdmin);
      var a := SetUser(s, userId, user);
      UserChange(s, cfg, userId, user);
      RevokeAllKeeps(a, cfg, userId, None, now);
      KeepsTransitive(s, a, RevokeAll(a, userId, None, now));
    }
  }

  lemma DeleteUserKeeps(s: State, cfg: Settings, now: int, userId: Id)
    requires Inv(s, cfg)
    ensures var t := DeleteUser(s, now, userId).0; Inv(t, cfg) && Keeps(s, t)
  {
    if userId in s.users {
      var user := s.users[userId].(isActive := false);
      var a := SetUser(s, userId, user);
      UserChange(s, cfg, userId, user);
      RevokeAllKeeps(a, cfg, userId, None, now);
      KeepsTransitive(s, a, RevokeAll(a, userId, None, now));
    }
  }

  lemma ResolveKeeps(s: State, cfg: Settings, now: int, token: Jwt)
    requires Inv(s, cfg)
    ensures var t := Resolve(s, now, token).0; Inv(t, cfg) && Keeps(s, t)
  {
    if ResolveProblem(s, now, token).None? {
      TouchKeeps(s, cfg, now, token.sid);
    }
  }

  lemma RevokeSessionKeeps(s: State, cfg: Settings, now: int, who: Principal, sessionId: Id)
    requires Inv(s, cfg)
    ensures var t := RevokeSession(s, now, who, sessionId).0; Inv(t, cfg) && Keeps(s, t)
  {
    SessionsChange(s, cfg, EndSession(s.sessions, sessionId, now));
  }

  predicate IsAccountOp(op: Op) {
    op.CreateUserOp? || op.ChangePasswordOp? || op.UpdateUserOp? || op.DeleteUserOp?
  }

  lemma AccountStepKeeps(s: State, cfg: Settings, c: Call)
    requires Inv(s, cfg) && IsAccountOp(c.op)
    ensures Inv(Step(s, cfg, c), cfg) && Keeps(s, Step(s, cfg, c))
  {
    match c.op
    case CreateUserOp(name, password, isActive, isAdmin) => CreateUserKeeps(s, cfg, name, password, isActive, isAdmin);
    case ChangePasswordOp(who, current, chosen) => ChangePasswordKeeps(s, cfg, c.now, who, current, chosen);
    case UpdateUserOp(userId, active, admin) => UpdateUserKeeps(s, cfg, c.now, userId, active, admin);
    case DeleteUserOp(userId) => DeleteUserKeeps(s, cfg, c.now, userId);
  }

  lemma SessionStepKeeps(s: State, cfg: Settings, c: Call)
    requires Inv(s, cfg) && !IsAccountOp(c.op)
    ensures Inv(Step(s, cfg, c), cfg) && Keeps(s, Step(s, cfg, c))
  {
    match c.op
    case LoginOp(allowed, name, password, rememberMe) => LoginKeeps(s, cfg, c.now, name, password, rememberMe);
    case ExchangeOp(token) => ExchangeKeeps(s, cfg, c.now, token);
    case ResolveOp(token) => ResolveKeeps(s, cfg, c.now, token);
    case LogoutOp(who, token) => LogoutKeeps(s, cfg, c.now, who, token);
    case RevokeSessionOp(who, sessionId) => RevokeSessionKeeps(s, cfg, c.now, who, sessionId);
    case RevokeAllOp(who) => RevokeAllKeeps(s, cfg, who.userId, None, c.now);
  }

  lemma StepKeeps(s: State, cfg: Settings, c: Call)
    requires Inv(s, cfg)
    ensures Inv(Step(s, cfg, c), cfg) && Keeps(s, Step(s, cfg, c))
  {
    if IsAccountOp(c.op) {
      AccountStepKeeps(s, cfg, c);
    } else {
      SessionStepKeeps(s, cfg, c);
    }
  }

  lemma {:induction false} RunKeeps(s: State, cfg: Settings, calls: seq<Call>)
    requires Inv(s, cfg)
    ensures Inv(Run(s, cfg, calls), cfg) && Keeps(s, Run(s, cfg, calls))
  {
    if calls != [] {
      var t := Run(s, cfg, calls[..|calls| - 1]);
      RunKeeps(s, cfg, calls[..|calls| - 1]);
      StepKeeps(t, cfg, calls[|calls| - 1]);
      KeepsTransitive(s, t, Run(s, cfg, calls));
    }
  }

  // ----- the main results ----------------------------------------------------------------

  /** In every state the service can reach, a session has at most one live refresh row, and
      every row agrees with its session on user and deadline. */
  lemma ReachableStates(cfg: Settings, calls: seq<Call>)
    ensures Inv(Run(EMPTY, cfg, calls), cfg)
  {
    RunKeeps(EMPTY, cfg, calls);
  }

  /** The token may still be accepted, as a refresh or as an access token. */
  predicate Accepted(s: State, now: int, token: Jwt) {
    RefreshProblem(s, now, token).None? || ResolveProblem(s, now, token).None?
  }

  /** An exchanged refresh token is worthless in every later state. */
  lemma ExchangedOnce(s: State, cfg: Settings, now: int, token: Jwt, calls: seq<Call>, later: int)
    requires Inv(s, cfg) && Exchange(s, cfg, now, token).1.Ok?
    ensures !Accepted(Run(Exchange(s, cfg, now, token).0, cfg, calls), later, token)
  {
    var t := Exchange(s, cfg, now, token).0;
    ExchangeKeeps(s, cfg, now, token);
    ExchangeSpends(s, cfg, now, token);
    SpentForever(t, cfg, token, calls, later);
  }

  /** A row that is stored and revoked. */
  predicate Spent(s: State, token: Jwt) {
    token in s.tokens && s.tokens[token].revokedAt.Some?
  }

  lemma ExchangeSpends(s: State, cfg: Settings, now: int, token: Jwt)
    requires Inv(s, cfg) && Exchange(s, cfg, now, token).1.Ok?
    ensures Spent(Exchange(s, cfg, now, token).0, token)
  {
    assert token.jti < s.nextId;
  }

  lemma SpentForever(s: State, cfg: Settings, token: Jwt, calls: seq<Call>, later: int)
    requires Inv(s, cfg) && Spent(s, token)
    ensures !Accepted(Run(s, cfg, calls), later, token)
  {
    RunKeeps(s, cfg, calls);
  }

  /** No token of a session is accepted at or after its deadline, which is fixed at login. */
  lemma AcceptedBeforeDeadline(s: State, cfg: Settings, now: int, token: Jwt)
    requires Inv(s, cfg) && Accepted(s, now, token)
    ensures token.sid in s.sessions
    ensures var session := s.sessions[token.sid];
            now < session.createdAt + RefreshDays(cfg, session.rememberMe) * DAY
  {}

  /** No chain of exchanges extends a session beyond the days chosen when signing in: this holds
      for the tokens of the login and for every token of its session signed later. */
  lemma LoginDeadline(s: State, cfg: Settings, at: int, name: string, password: string, rememberMe: bool,
                      calls: seq<Call>, now: int, token: Jwt)
    requires Inv(s, cfg) && Login(s, cfg, at, name, password, rememberMe).1.Ok?
    requires var (t, r) := Login(s, cfg, at, name, password, rememberMe);
             token.sid == r.value.refresh.sid && Accepted(Run(t, cfg, calls), now, token)
    ensures now < at + RefreshDays(cfg, rememberMe) * DAY
  {
    var (t, r) := Login(s, cfg, at, name, password, rememberMe);
    LoginKeeps(s, cfg, at, name, password, rememberMe);
    assert t.sessions[r.value.refresh.sid].createdAt == at && t.sessions[r.value.refresh.sid].rememberMe == rememberMe;
    RunKeeps(t, cfg, calls);
    AcceptedBeforeDeadline(Run(t, cfg, calls), cfg, now, token);
  }

  /** The tokens of an exchange belong to the same session as the token exchanged. */
  lemma ExchangeStaysInSession(s: State, cfg: Settings, now: int, token: Jwt)
    requires Inv(s, cfg) && Exchange(s, cfg, now, token).1.Ok?
    ensures var pair := Exchange(s, cfg, now, token).1.value;
            && pair.access.sid == pair.refresh.sid == token.sid
            && pair.access.sub == pair.refresh.sub == token.sub
            && pair.refresh !in s.issued && pair.access !in s.issued
            && Live(Exchange(s, cfg, now, token).0, pair.refresh)
  {
    var pair := Exchange(s, cfg, now, token).1.value;
    assert pair.refresh.jti == s.nextId + 1 && pair.access.jti == s.nextId;
  }

  predicate Ended(s: State, sid: Id) {
    sid in s.sessions && s.sessions[sid].revokedAt.Some?
  }

  /** Revocation is permanent: no token of an ended session is accepted in any later state. */
  lemma EndedForever(s: State, cfg: Settings, sid: Id, calls: seq<Call>, now: int, token: Jwt)
    requires Inv(s, cfg) && Ended(s, sid) && token.sid == sid
    ensures !Accepted(Run(s, cfg, calls), now, token)
  {
    RunKeeps(s, cfg, calls);
  }

  /** After a password change no other session the user had is ever honoured again. */
  lemma PasswordChangeEndsOthers(s: State, cfg: Settings, at: int, who: Principal, current: string, chosen: string,
                                 calls: seq<Call>, now: int, token: Jwt)
    requires Inv(s, cfg) && ChangePassword(s, at, who, current, chosen).1.Ok?
    requires token.sid in s.sessions && s.sessions[token.sid].userId == who.userId && token.sid != who.sessionId
    ensures !Accepted(Run(ChangePassword(s, at, who, current, chosen).0, cfg, calls), now, token)
  {
    var t := ChangePassword(s, at, who, current, chosen).0;
    ChangePasswordKeeps(s, cfg, at, who, current, chosen);
    assert Ended(t, token.sid);
    EndedForever(t, cfg, token.sid, calls, now, token);
  }

  /** After deactivation no session the user had is ever honoured again, whatever happens to the
      account later: reactivating it does not bring a session back. */
  lemma DeactivationEndsAll(s: State, cfg: Settings, at: int, userId: Id, isAdmin: Option<bool>, deleted: bool,
                            calls: seq<Call>, now: int, token: Jwt)
    requires Inv(s, cfg) && userId in s.users
    requires token.sid in s.sessions && s.sessions[token.sid].userId == userId
    ensures var t := if deleted then DeleteUser(s, at, userId).0 else UpdateUser(s, at, userId, Some(false), isAdmin).0;
            !Accepted(Run(t, cfg, calls), now, token)
  {
    var t := if deleted then DeleteUser(s, at, userId).0 else UpdateUser(s, at, userId, Some(false), isAdmin).0;
    DeleteUserKeeps(s, cfg, at, userId);
    UpdateUserKeeps(s, cfg, at, userId, Some(false), isAdmin);
    assert Ended(t, token.sid);
    EndedForever(t, cfg, token.sid, calls, now, token);
  }

  /** Signing out ends the session of the principal for good. */
  lemma LogoutEnds(s: State, cfg: Settings, at: int, who: Principal, optional: Option<Jwt>, calls: seq<Call>, now: int, token: Jwt)
    requires Inv(s, cfg) && who.sessionId in s.sessions && token.sid == who.sessionId
    ensures !Accepted(Run(Logout(s, at, who, optional), cfg, calls), now, token)
  {
    LogoutKeeps(s, cfg, at, who, optional);
    EndedForever(Logout(s, at, who, optional), cfg, token.sid, calls, now, token);
  }

  /** Revoking a session ends it for good, although its refresh row is left alone. */
  lemma RevocationEnds(s: State, cfg: Settings, at: int, who: Principal, calls: seq<Call>, now: int, token: Jwt)
    requires Inv(s, cfg) && RevokeSession(s, at, who, token.sid).1.Ok?
    ensures RevokeSession(s, at, who, token.sid).0.tokens == s.tokens
    ensures !Accepted(Run(RevokeSession(s, at, who, token.sid).0, cfg, calls), now, token)
  {
    var t := RevokeSession(s, at, who, token.sid).0;
    RevokeSessionKeeps(s, cfg, at, who, token.sid);
    EndedForever(t, cfg, token.sid, calls, now, token);
  }

  /** A lock is never lifted: the timer runs out without effect, and a locked account can
      neither sign in nor use a token in any later state. */
  lemma LockedForever(s: State, cfg: Settings, name: string, calls: seq<Call>, now: int, password: string, rememberMe: bool, token: Jwt)
    requires Inv(s, cfg) && name in s.names && s.names[name] in s.users && s.users[s.names[name]].isLocked
    ensures var t := Run(s, cfg, calls);
            && Login(t, cfg, now, name, password, rememberMe).1 == Err(AccountLocked)
            && (token in t.issued && token.sub == s.names[name] ==> !Accepted(t, now, token))
  {
    RunKeeps(s, cfg, calls);
  }

  /** One wrong password adds a failure, and locks exactly when it is the fifth. */
  lemma FifthFailureLocks(s: State, cfg: Settings, now: int, name: string, password: string, rememberMe: bool)
    requires Inv(s, cfg) && name in s.names && s.names[name] in s.users
    requires var user := s.users[s.names[name]]; user.isActive && !user.isLocked && password != user.password
    ensures var before, after := s.users[s.names[name]], Login(s, cfg, now, name, password, rememberMe).0.users[s.names[name]];
            && after.failedLogins == before.failedLogins + 1
            && (after.isLocked <==> after.failedLogins == MAX_FAILED_LOGINS)
  {}

  /** Whether an account may be used. */
  predicate Usable(user: User) { user.isActive && !user.isLocked }

  /** Signing in succeeds exactly with the right password of a usable account: the timer never
      decides.  It opens a session of its own that lasts the days asked for, with one live refresh
      row, clears the failures, and touches no other account, session or row. */
  lemma SignInCharacterized(s: State, cfg: Settings, now: int, name: string, password: string, rememberMe: bool)
    requires Inv(s, cfg)
    ensures var (t, r) := Login(s, cfg, now, name, password, rememberMe);
            && (r.Ok? <==> name in s.names && s.names[name] in s.users
                           && Usable(s.users[s.names[name]]) && s.users[s.names[name]].password == password)
            && (r.Ok? ==>
                 var (id, sid) := (s.names[name], r.value.refresh.sid);
                 && sid !in s.sessions && r.value.access.sid == sid && r.value.access.sub == r.value.refresh.sub == id
                 && t.sessions == s.sessions[sid := Session(id, now, now + RefreshDays(cfg, rememberMe) * DAY, rememberMe, now, None)]
                 && r.value.refresh !in s.tokens && Live(t, r.value.refresh)
                 && (forall j :: j in s.tokens ==> t.tokens[j] == s.tokens[j]) && t.tokens.Keys == s.tokens.Keys + {r.value.refresh}
                 && t.users == s.users[id := s.users[id].(failedLogins := 0)])
            && (r.Err? ==> t.sessions == s.sessions && t.tokens == s.tokens && t.issued == s.issued)
  {
    if Login(s, cfg, now, name, password, rememberMe).1.Ok? {
      var id := s.names[name];
      assert s.users[id].(failedLogins := 0, isLocked := false, lockedUntil := None) == s.users[id].(failedLogins := 0);
    }
  }

  /** An exchange succeeds exactly for a live refresh token before its own expiry and the deadline
      of its session, while the session has not ended and its account is usable. */
  lemma ExchangeCharacterized(s: State, cfg: Settings, now: int, token: Jwt)
    requires Inv(s, cfg)
    ensures Exchange(s, cfg, now, token).1.Ok? <==>
            && Live(s, token) && now < token.exp * SECOND
            && now < s.sessions[token.sid].expiresAt && !Ended(s, token.sid) && Usable(s.users[token.sub])
  {}

  /** An access token is honoured exactly when it was signed, has not expired, and its session and
      account are in order; the request is then made as the owner of the session. */
  lemma ResolveCharacterized(s: State, cfg: Settings, now: int, token: Jwt)
    requires Inv(s, cfg)
    ensures var r := Resolve(s, now, token).1;
            && (r.Ok? <==>
                 && token in s.issued && token.typ == Access && now < token.exp * SECOND
                 && now < s.sessions[token.sid].expiresAt && !Ended(s, token.sid) && Usable(s.users[token.sub]))
            && (r.Ok? ==> r.value == Principal(s.sessions[token.sid].userId, token.sid, s.users[token.sub].isAdmin))
  {}
}
