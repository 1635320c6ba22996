/** What an issued pair of tokens is good for, and for how long: right away, and over every run of
    other calls (backend/app/auth/service.py:205-377).  Times are in microseconds. */
module AuthTokens {
  import opened AuthLockout
  import opened AuthModel
  import opened AuthRuns
  import opened Numbers
  import opened Options

  /** A token's expiry is kept in whole seconds. */
  function WholeSeconds(at: int): int { at / 1_000_000 * 1_000_000 }

  function AccessEnds(cfg: Settings, now: int): int { WholeSeconds(now + cfg.accessMinutes * 60_000_000) }

  function DaysLater(cfg: Settings, now: int, rememberMe: bool): int {
    now + (if rememberMe then cfg.rememberMeDays else cfg.refreshDays) * 86_400_000_000
  }

  function RefreshEnds(cfg: Settings, now: int, rememberMe: bool): int { WholeSeconds(DaysLater(cfg, now, rememberMe)) }

  predicate Resolves(s: State, now: int, token: Jwt) { Resolve(s, now, token).1.Ok? }
  predicate Exchanges(s: State, cfg: Settings, now: int, token: Jwt) { Exchange(s, cfg, now, token).1.Ok? }

  // ----- a pair of tokens ----------------------------------------------------------------

  /** A pair issued at `now` for a session opened at `start`. */
  ghost predicate IsPair(s: State, cfg: Settings, pair: Tokens, now: int, start: int, rememberMe: bool) {
    && pair.access in s.issued && pair.access.typ == Access && pair.access.exp * SECOND == AccessEnds(cfg, now)
    && pair.refresh in s.tokens && pair.refresh.exp * SECOND == RefreshEnds(cfg, now, rememberMe)
    && pair.access.sid == pair.refresh.sid && pair.access.sub == pair.refresh.sub
    && pair.refresh.sid in s.sessions && s.sessions[pair.refresh.sid].expiresAt == DaysLater(cfg, start, rememberMe)
  }

  /** The session has not ended, and the account may be used. */
  ghost predicate InOrder(s: State, sid: Id, id: Id) { sid in s.sessions && !Ended(s, sid) && id in s.users && Usable(s.users[id]) }

  lemma PairServes(s: State, cfg: Settings, pair: Tokens, now: int, start: int, rememberMe: bool, later: int)
    requires Inv(s, cfg) && IsPair(s, cfg, pair, now, start, rememberMe)
    ensures Resolves(s, later, pair.access) <==>
              InOrder(s, pair.access.sid, pair.access.sub)
              && later < AccessEnds(cfg, now) && later < DaysLater(cfg, start, rememberMe)
    ensures Exchanges(s, cfg, later, pair.refresh) <==>
              InOrder(s, pair.refresh.sid, pair.refresh.sub) && Live(s, pair.refresh)
              && later < RefreshEnds(cfg, now, rememberMe) && later < DaysLater(cfg, start, rememberMe)
    ensures !Resolves(s, later, pair.refresh) && !Exchanges(s, cfg, later, pair.access)
  {
    ExchangeCharacterized(s, cfg, later, pair.refresh);
    ExchangeCharacterized(s, cfg, later, pair.access);
    ResolveCharacterized(s, cfg, later, pair.access);
    ResolveCharacterized(s, cfg, later, pair.refresh);
  }

  lemma PairKept(s: State, t: State, cfg: Settings, pair: Tokens, now: int, start: int, rememberMe: bool)
    requires Keeps(s, t) && IsPair(s, cfg, pair, now, start, rememberMe)
    ensures IsPair(t, cfg, pair, now, start, rememberMe)
  {}

  lemma IssuePair(s: State, cfg: Settings, now: int, userId: Id, sid: Id)
    requires Inv(s, cfg) && sid in s.sessions
    ensures var session := s.sessions[sid];
            IsPair(Issue(s, cfg, now, userId, sid), cfg, NewTokens(s, cfg, now, userId, sid, session.rememberMe), now,
                   session.createdAt, session.rememberMe)
  {}

  /** Signing in issues the pair from the tables with the new session. */
  lemma SignInIssues(s: State, cfg: Settings, now: int, id: Id, rememberMe: bool)
    requires Inv(s, cfg) && id in s.users && !s.users[id].isLocked
    ensures var user := s.users[id].(failedLogins := 0, isLocked := false, lockedUntil := None);
            var started := OpenSession(SetUser(s, id, user), cfg, now, id, rememberMe);
            && Inv(started, cfg) && s.nextId in started.sessions
            && started.sessions[s.nextId].createdAt == now && started.sessions[s.nextId].rememberMe == rememberMe
            && SignIn(s, cfg, now, id, rememberMe)
               == (Issue(started, cfg, now, id, s.nextId), Ok(NewTokens(started, cfg, now, id, s.nextId, rememberMe)))
  {
    var user := s.users[id].(failedLogins := 0, isLocked := false, lockedUntil := None);
    UserChange(s, cfg, id, user);
    OpenSessionKeeps(SetUser(s, id, user), cfg, now, id, rememberMe);
  }

  lemma LoginIsPair(s: State, cfg: Settings, now: int, name: string, password: string, rememberMe: bool)
    requires Inv(s, cfg) && Login(s, cfg, now, name, password, rememberMe).1.Ok?
    ensures var (t, r) := Login(s, cfg, now, name, password, rememberMe); IsPair(t, cfg, r.value, now, now, rememberMe)
  {
    var id := s.names[name];
    var user := s.users[id].(failedLogins := 0, isLocked := false, lockedUntil := None);
    SignInIssues(s, cfg, now, id, rememberMe);
    IssuePair(OpenSession(SetUser(s, id, user), cfg, now, id, rememberMe), cfg, now, id, s.nextId);
  }

  lemma LoginPair(s: State, cfg: Settings, now: int, name: string, password: string, rememberMe: bool)
    requires Inv(s, cfg) && Login(s, cfg, now, name, password, rememberMe).1.Ok?
    ensures var (t, r) := Login(s, cfg, now, name, password, rememberMe);
            && Inv(t, cfg) && IsPair(t, cfg, r.value, now, now, rememberMe)
            && InOrder(t, r.value.access.sid, r.value.access.sub) && Live(t, r.value.refresh)
  {
    LoginKeeps(s, cfg, now, name, password, rememberMe);
    LoginIsPair(s, cfg, now, name, password, rememberMe);
    SignInCharacterized(s, cfg, now, name, password, rememberMe);
  }

  lemma Rotates(s: State, cfg: Settings, now: int, token: Jwt)
    requires Inv(s, cfg) && Exchanges(s, cfg, now, token)
    ensures token in s.tokens && token.sid in s.sessions
    ensures var rotated := Touch(Spend(s, now, token), now, token.sid);
            && Inv(rotated, cfg)
            && rotated.sessions[token.sid].createdAt == s.sessions[token.sid].createdAt
            && rotated.sessions[token.sid].rememberMe == s.sessions[token.sid].rememberMe
            && Exchange(s, cfg, now, token).0 == Issue(rotated, cfg, now, token.sub, token.sid)
            && Exchange(s, cfg, now, token).1.value
               == NewTokens(rotated, cfg, now, token.sub, token.sid, s.sessions[token.sid].rememberMe)
  {
    SpendKeeps(s, cfg, now, token);
    TouchKeeps(Spend(s, now, token), cfg, now, token.sid);
  }

  lemma ExchangePair(s: State, cfg: Settings, now: int, token: Jwt)
    requires Inv(s, cfg) && Exchanges(s, cfg, now, token)
    ensures var (t, r) := Exchange(s, cfg, now, token);
            && Inv(t, cfg) && token.sid in s.sessions
            && IsPair(t, cfg, r.value, now, s.sessions[token.sid].createdAt, s.sessions[token.sid].rememberMe)
  {
    ExchangeKeeps(s, cfg, now, token);
    Rotates(s, cfg, now, token);
    IssuePair(Touch(Spend(s, now, token), now, token.sid), cfg, now, token.sub, token.sid);
  }

  lemma ExchangeInOrder(s: State, cfg: Settings, now: int, token: Jwt)
    requires Inv(s, cfg) && Exchanges(s, cfg, now, token)
    ensures var (t, r) := Exchange(s, cfg, now, token);
            && r.value.access.sid == r.value.refresh.sid == token.sid && r.value.access.sub == r.value.refresh.sub == token.sub
            && InOrder(t, token.sid, token.sub) && Live(t, r.value.refresh)
  {
    ExchangeStaysInSession(s, cfg, now, token);
  }

  // ----- right away ----------------------------------------------------------------------

  /** After signing in the access token works for the minutes of the settings, and the refresh token
      for the days chosen, both cut to whole seconds; and neither works as the other. */
  lemma LoginTokensServe(s: State, cfg: Settings, now: int, name: string, password: string, rememberMe: bool, later: int)
    requires Inv(s, cfg) && Login(s, cfg, now, name, password, rememberMe).1.Ok?
    ensures var (t, r) := Login(s, cfg, now, name, password, rememberMe);
            && (Resolves(t, later, r.value.access) <==>
                  later < AccessEnds(cfg, now) && later < DaysLater(cfg, now, rememberMe))
            && (Exchanges(t, cfg, later, r.value.refresh) <==> later < RefreshEnds(cfg, now, rememberMe))
            && !Resolves(t, later, r.value.refresh) && !Exchanges(t, cfg, later, r.value.access)
  {
    var (t, r) := Login(s, cfg, now, name, password, rememberMe);
    LoginPair(s, cfg, now, name, password, rememberMe);
    PairServes(t, cfg, r.value, now, now, rememberMe, later);
  }

  /** After an exchange the new tokens work as long, but never beyond the deadline of the session,
      which is counted from its opening. */
  lemma ExchangeTokensServe(s: State, cfg: Settings, now: int, token: Jwt, later: int)
    requires Inv(s, cfg) && Exchanges(s, cfg, now, token)
    ensures var (t, r) := Exchange(s, cfg, now, token);
            token.sid in s.sessions &&
            var session := s.sessions[token.sid];
            var deadline := DaysLater(cfg, session.createdAt, session.rememberMe);
            && (Resolves(t, later, r.value.access) <==> later < AccessEnds(cfg, now) && later < deadline)
            && (Exchanges(t, cfg, later, r.value.refresh) <==> later < RefreshEnds(cfg, now, session.rememberMe) && later < deadline)
            && !Resolves(t, later, r.value.refresh) && !Exchanges(t, cfg, later, r.value.access)
  {
    var (t, r) := Exchange(s, cfg, now, token);
    ExchangePair(s, cfg, now, token);
    ExchangeInOrder(s, cfg, now, token);
    PairServes(t, cfg, r.value, now, s.sessions[token.sid].createdAt, s.sessions[token.sid].rememberMe, later);
  }

  // ----- over runs -----------------------------------------------------------------------

  /** The call neither spends the refresh token, nor ends the session, nor makes the account
      unusable by a wrong password, a deactivation or a deletion. */
  predicate Spares(s: State, cfg: Settings, c: Call, refresh: Jwt) {
    match c.op
    case CreateUserOp(_, _, _, _) => true
    case LoginOp(_, _, _, _) => !WrongTry(s, cfg, c, refresh.sub)
    case ExchangeOp(token) => token != refresh
    case ResolveOp(_) => true
    case LogoutOp(who, token) => who.sessionId != refresh.sid && (who.userId != refresh.sub || token != Some(refresh))
    case ChangePasswordOp(who, _, _) => who.userId != refresh.sub || who.sessionId == refresh.sid
    case UpdateUserOp(userId, active, _) => userId != refresh.sub || active != Some(false)
    case DeleteUserOp(userId) => userId != refresh.sub
    case RevokeSessionOp(_, sessionId) => sessionId != refresh.sid
    case RevokeAllOp(who) => who.userId != refresh.sub
  }

  predicate AllSpare(s: State, cfg: Settings, calls: seq<Call>, refresh: Jwt) {
    calls == []
    || (AllSpare(s, cfg, calls[..|calls| - 1], refresh)
        && Spares(Run(s, cfg, calls[..|calls| - 1]), cfg, calls[|calls| - 1], refresh))
  }

  ghost predicate Good(s: State, refresh: Jwt) { Live(s, refresh) && InOrder(s, refresh.sid, refresh.sub) }

  /** Signing in touches no session and no row that was there. */
  lemma LoginLeaves(s: State, cfg: Settings, c: Call, sid: Id, token: Jwt)
    requires Inv(s, cfg) && c.op.LoginOp? && sid in s.sessions && token in s.tokens
    ensures var t := Step(s, cfg, c);
            sid in t.sessions && t.sessions[sid] == s.sessions[sid] && token in t.tokens && t.tokens[token] == s.tokens[token]
  {
    SignInCharacterized(s, cfg, c.now, c.op.loginName, c.op.loginPassword, c.op.rememberMe);
  }

  lemma LoginSpares(s: State, cfg: Settings, c: Call, refresh: Jwt)
    requires Inv(s, cfg) && Good(s, refresh) && c.op.LoginOp? && Spares(s, cfg, c, refresh)
    ensures Good(Step(s, cfg, c), refresh)
  {
    var t := Step(s, cfg, c);
    LoginCounts(s, cfg, c, refresh.sub);
    LoginActive(s, cfg, c, refresh.sub);
    LoginLeaves(s, cfg, c, refresh.sid, refresh);
    assert Counts(s, cfg, c, refresh.sub, s.users[refresh.sub], t.users[refresh.sub]);
  }

  lemma LoginActive(s: State, cfg: Settings, c: Call, id: Id)
    requires c.op.LoginOp? && id in s.users
    ensures id in Step(s, cfg, c).users && Step(s, cfg, c).users[id].isActive == s.users[id].isActive
  {
    var name := c.op.loginName;
    if name in s.names && s.names[name] in s.users {
      SignInUsers(s, cfg, c.now, s.names[name], c.op.rememberMe);
    }
  }

  lemma AccountSpares(s: State, cfg: Settings, c: Call, refresh: Jwt)
    requires Inv(s, cfg) && Good(s, refresh) && IsAccountOp(c.op) && Spares(s, cfg, c, refresh)
    ensures Good(Step(s, cfg, c), refresh)
  {}

  lemma SessionSpares(s: State, cfg: Settings, c: Call, refresh: Jwt)
    requires Inv(s, cfg) && Good(s, refresh) && !IsAccountOp(c.op) && !c.op.LoginOp? && Spares(s, cfg, c, refresh)
    ensures Good(Step(s, cfg, c), refresh)
  {}

  lemma {:induction false} RunSpares(s: State, cfg: Settings, calls: seq<Call>, refresh: Jwt)
    requires Inv(s, cfg) && Good(s, refresh) && AllSpare(s, cfg, calls, refresh)
    ensures Inv(Run(s, cfg, calls), cfg) && Keeps(s, Run(s, cfg, calls)) && Good(Run(s, cfg, calls), refresh)
  {
    RunKeeps(s, cfg, calls);
    if calls != [] {
      var before, c := calls[..|calls| - 1], calls[|calls| - 1];
      RunSpares(s, cfg, before, refresh);
      var t := Run(s, cfg, before);
      if c.op.LoginOp? {
        LoginSpares(t, cfg, c, refresh);
      } else if IsAccountOp(c.op) {
        AccountSpares(t, cfg, c, refresh);
      } else {
        SessionSpares(t, cfg, c, refresh);
      }
    }
  }

  /** Over every run that spares it, a pair works exactly as it would right away. */
  lemma PairServesOn(s: State, cfg: Settings, pair: Tokens, now: int, start: int, rememberMe: bool, calls: seq<Call>, later: int)
    requires Inv(s, cfg) && IsPair(s, cfg, pair, now, start, rememberMe) && Good(s, pair.refresh)
    requires AllSpare(s, cfg, calls, pair.refresh)
    ensures var u := Run(s, cfg, calls);
            && (Resolves(u, later, pair.access) <==> later < AccessEnds(cfg, now) && later < DaysLater(cfg, start, rememberMe))
            && (Exchanges(u, cfg, later, pair.refresh) <==>
                  later < RefreshEnds(cfg, now, rememberMe) && later < DaysLater(cfg, start, rememberMe))
  {
    var u := Run(s, cfg, calls);
    RunSpares(s, cfg, calls, pair.refresh);
    PairKept(s, u, cfg, pair, now, start, rememberMe);
    PairServes(u, cfg, pair, now, start, rememberMe, later);
  }

  /** Over every run of other calls after signing in that neither spends the refresh token, nor ends
      the session, nor makes the account unusable, both tokens work exactly as long as issued for. */
  lemma LoginTokensServeOn(s: State, cfg: Settings, now: int, name: string, password: string, rememberMe: bool,
                           calls: seq<Call>, later: int)
    requires Inv(s, cfg) && Login(s, cfg, now, name, password, rememberMe).1.Ok?
    requires var (t, r) := Login(s, cfg, now, name, password, rememberMe); AllSpare(t, cfg, calls, r.value.refresh)
    ensures var (t, r) := Login(s, cfg, now, name, password, rememberMe);
            var u := Run(t, cfg, calls);
            && (Resolves(u, later, r.value.access) <==>
                  later < AccessEnds(cfg, now) && later < DaysLater(cfg, now, rememberMe))
            && (Exchanges(u, cfg, later, r.value.refresh) <==> later < RefreshEnds(cfg, now, rememberMe))
  {
    var (t, r) := Login(s, cfg, now, name, password, rememberMe);
    LoginPair(s, cfg, now, name, password, rememberMe);
    PairServesOn(t, cfg, r.value, now, now, rememberMe, calls, later);
  }

  /** The same after an exchange. */
  lemma ExchangeTokensServeOn(s: State, cfg: Settings, now: int, token: Jwt, calls: seq<Call>, later: int)
    requires Inv(s, cfg) && Exchanges(s, cfg, now, token)
    requires var (t, r) := Exchange(s, cfg, now, token); AllSpare(t, cfg, calls, r.value.refresh)
    ensures token.sid in s.sessions
    ensures var (t, r) := Exchange(s, cfg, now, token);
            var u, session := Run(t, cfg, calls), s.sessions[token.sid];
            var deadline := DaysLater(cfg, session.createdAt, session.rememberMe);
            && (Resolves(u, later, r.value.access) <==> later < AccessEnds(cfg, now) && later < deadline)
            && (Exchanges(u, cfg, later, r.value.refresh) <==> later < RefreshEnds(cfg, now, session.rememberMe) && later < deadline)
  {
    var (t, r) := Exchange(s, cfg, now, token);
    ExchangePair(s, cfg, now, token);
    ExchangeInOrder(s, cfg, now, token);
    PairServesOn(t, cfg, r.value, now, s.sessions[token.sid].createdAt, s.sessions[token.sid].rememberMe, calls, later);
  }

  // ----- refusals ------------------------------------------------------------------------

  /** Why an access token is refused: it was not signed, or is no access token; it has expired; its
      session has ended or reached its deadline; the account is switched off, or else locked. */
  lemma WhyNotResolved(s: State, cfg: Settings, now: int, token: Jwt)
    requires Inv(s, cfg)
    ensures var r, signed := Resolve(s, now, token).1, token in s.issued;
            var valid := signed && now < token.exp * 1_000_000 && token.typ == Access;
            var running := valid && !Ended(s, token.sid) && now < s.sessions[token.sid].expiresAt;
            && (r == Err(TokenExpired) <==> signed && token.exp * 1_000_000 <= now)
            && (r == Err(TokenInvalid) <==> !signed || (now < token.exp * 1_000_000 && token.typ != Access))
            && (r == Err(SessionInvalid) <==> valid && !running)
            && (r == Err(AccountUnavailable) <==> running && !s.users[token.sub].isActive)
            && (r == Err(AccountLocked) <==> running && s.users[token.sub].isActive && s.users[token.sub].isLocked)
  {}

  /** Why a refresh token is refused: it was not signed, is none, or has been spent; it has expired, or
      its session has reached the deadline; its session has ended; or the account cannot be used. */
  lemma WhyNotExchanged(s: State, cfg: Settings, now: int, token: Jwt)
    requires Inv(s, cfg)
    ensures var r, signed := Exchange(s, cfg, now, token).1, token in s.issued;
            var valid := signed && now < token.exp * 1_000_000;
            var alive := valid && Live(s, token);
            var timely := alive && now < s.sessions[token.sid].expiresAt;
            && (r == Err(TokenInvalid) <==> !signed || (valid && !alive))
            && (r == Err(TokenExpired) <==> (signed && !valid) || (alive && !timely))
            && (r == Err(SessionInvalid) <==> timely && Ended(s, token.sid))
            && (r == Err(AccountUnavailable) <==> timely && !Ended(s, token.sid) && !Usable(s.users[token.sub]))
  {}
}
