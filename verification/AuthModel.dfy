/** Accounts, sessions and tokens of backend/app/auth: the tables as values, and every service
    call as a function from tables to tables.  Times are in microseconds. */
module AuthModel {
  import opened Numbers
  import opened Options

  type Id = nat

  const MAX_FAILED_LOGINS := 5
  const LOCKOUT_MINUTES := 15
  const PASSWORD_MIN_LENGTH := 12
  const PASSWORD_MAX_LENGTH := 128

  datatype Settings = Settings(accessMinutes: nat, refreshDays: nat, rememberMeDays: nat)

  /** `password` stands for the stored hash: verification is equality. */
  datatype User = User(
    password: string,
    isActive: bool,
    isAdmin: bool,
    isLocked: bool,
    failedLogins: nat,
    lockedUntil: Option<int>)

  datatype Session = Session(
    userId: Id,
    createdAt: int,
    expiresAt: int,
    rememberMe: bool,
    lastActivityAt: int,
    revokedAt: Option<int>)

  datatype TokenType = Access | Refresh

  /** A signed token; `exp` is in whole seconds and `jti` is fresh for every token. */
  datatype Jwt = Jwt(typ: TokenType, sub: Id, sid: Id, exp: int, jti: Id)

  /** The stored row of a refresh token, found by the token's hash. */
  datatype TokenRow = TokenRow(userId: Id, sessionId: Id, expiresAt: int, revokedAt: Option<int>)

  datatype Tokens = Tokens(access: Jwt, refresh: Jwt)

  /** Who a request is made as. */
  datatype Principal = Principal(userId: Id, sessionId: Id, isAdmin: bool)

  datatype Error =
    | TooManyAttempts | InvalidCredentials | AccountLocked | AccountDisabled | TokenInvalid
    | TokenExpired | SessionInvalid | AccountUnavailable | NotFound | WrongPassword
    | PasswordPolicy | NameTaken | NotAllowed

  datatype Result<+T> = Ok(value: T) | Err(error: Error)

  /** The tables.  `names` maps the folded user name to the user; `issued` are the tokens ever
      signed; `nextId` is the source of fresh identifiers. */
  datatype State = State(
    users: map<Id, User>,
    names: map<string, Id>,
    sessions: map<Id, Session>,
    tokens: map<Jwt, TokenRow>,
    issued: set<Jwt>,
    nextId: Id)

  const EMPTY := State(map[], map[], map[], map[], {}, 0)

  function RefreshDays(cfg: Settings, rememberMe: bool): nat {
    if rememberMe then cfg.rememberMeDays else cfg.refreshDays
  }

  /** Checking signature and expiry. */
  function Decode(s: State, token: Jwt, now: int): Result<Jwt> {
    if token !in s.issued then Err(TokenInvalid)
    else if token.exp * SECOND <= now then Err(TokenExpired)
    else Ok(token)
  }

  function NewJwt(typ: TokenType, userId: Id, sessionId: Id, expiry: int, jti: Id): Jwt {
    Jwt(typ, userId, sessionId, expiry / SECOND, jti)
  }

  function NewTokens(s: State, cfg: Settings, now: int, userId: Id, sessionId: Id, rememberMe: bool): Tokens {
    Tokens(
      NewJwt(Access, userId, sessionId, now + cfg.accessMinutes * MINUTE, s.nextId),
      NewJwt(Refresh, userId, sessionId, now + RefreshDays(cfg, rememberMe) * DAY, s.nextId + 1))
  }

  /** Signing two tokens and storing the row of the refresh token. */
  function Issue(s: State, cfg: Settings, now: int, userId: Id, sessionId: Id): State
    requires sessionId in s.sessions
  {
    var session := s.sessions[sessionId];
    var pair := NewTokens(s, cfg, now, userId, sessionId, session.rememberMe);
    s.(tokens := s.tokens[pair.refresh := TokenRow(userId, sessionId, session.expiresAt, None)],
       issued := s.issued + {pair.access, pair.refresh},
       nextId := s.nextId + 2)
  }

  // ----- the service calls ---------------------------------------------------------------

  function CreateUser(s: State, name: string, password: string, isActive: bool, isAdmin: bool): (State, Result<Id>) {
    if password == "" then (s, Err(PasswordPolicy))
    else if name in s.names then (s, Err(NameTaken))
    else
      (s.(users := s.users[s.nextId := User(password, isActive, isAdmin, false, 0, None)],
          names := s.names[name := s.nextId],
          nextId := s.nextId + 1), Ok(s.nextId))
  }

  /** The account after a wrong password. */
  function Failed(user: User, now: int): User {
    var count := user.failedLogins + 1;
    if count >= MAX_FAILED_LOGINS then
      user.(failedLogins := count, isLocked := true, lockedUntil := Some(now + LOCKOUT_MINUTES * MINUTE))
    else user.(failedLogins := count)
  }

  /** Why a login is refused before the password is looked at. */
  function Refusal(user: User, now: int): Option<Error> {
    if user.lockedUntil.Some? && user.lockedUntil.value > now then Some(AccountLocked)
    else if user.isLocked then Some(AccountLocked)
    else if !user.isActive then Some(AccountDisabled)
    else None
  }

  function SetUser(s: State, id: Id, user: User): State { s.(users := s.users[id := user]) }

  /** Opening a session, whose identifier is the next one. */
  function OpenSession(s: State, cfg: Settings, now: int, userId: Id, rememberMe: bool): State {
    s.(sessions := s.sessions[s.nextId := Session(userId, now, now + RefreshDays(cfg, rememberMe) * DAY, rememberMe, now, None)],
       nextId := s.nextId + 1)
  }

  function SignIn(s: State, cfg: Settings, now: int, id: Id, rememberMe: bool): (State, Result<Tokens>)
    requires id in s.users
  {
    var cleared := SetUser(s, id, s.users[id].(failedLogins := 0, isLocked := false, lockedUntil := None));
    var started := OpenSession(cleared, cfg, now, id, rememberMe);
    (Issue(started, cfg, now, id, s.nextId), Ok(NewTokens(started, cfg, now, id, s.nextId, rememberMe)))
  }

  /** Signing in, once the address is allowed to try. */
  function Login(s: State, cfg: Settings, now: int, name: string, password: string, rememberMe: bool): (State, Result<Tokens>) {
    if name !in s.names || s.names[name] !in s.users then (s, Err(InvalidCredentials))
    else
      var id := s.names[name];
      var user := s.users[id];
      if Refusal(user, now).Some? then (s, Err(Refusal(user, now).value))
      else if password != user.password then
        (SetUser(s, id, Failed(user, now)), Err(InvalidCredentials))
      else
        SignIn(s, cfg, now, id, rememberMe)
  }

  /** Why a stored refresh row cannot be exchanged, if so. */
  function RefreshProblem(s: State, now: int, token: Jwt): Option<Error> {
    var decoded := Decode(s, token, now);
    if decoded.Err? then Some(decoded.error)
    else if token.typ != Refresh then Some(TokenInvalid)
    else if token !in s.tokens || s.tokens[token].revokedAt.Some? then Some(TokenInvalid)
    else if s.tokens[token].expiresAt <= now then Some(TokenExpired)
    else
      var sid := s.tokens[token].sessionId;
      if sid !in s.sessions || s.sessions[sid].revokedAt.Some? || s.sessions[sid].expiresAt <= now then Some(SessionInvalid)
      else
        var uid := s.sessions[sid].userId;
        if uid !in s.users || !s.users[uid].isActive || s.users[uid].isLocked then Some(AccountUnavailable)
        else None
  }

  function Spend(s: State, now: int, token: Jwt): State
    requires token in s.tokens
  {
    s.(tokens := s.tokens[token := s.tokens[token].(revokedAt := Some(now))])
  }

  function Touch(s: State, now: int, sid: Id): State
    requires sid in s.sessions
  {
    s.(sessions := s.sessions[sid := s.sessions[sid].(lastActivityAt := now)])
  }

  function Exchange(s: State, cfg: Settings, now: int, token: Jwt): (State, Result<Tokens>) {
    var problem := RefreshProblem(s, now, token);
    if problem.Some? then (s, Err(problem.value))
    else
      var sid := s.tokens[token].sessionId;
      var session := s.sessions[sid];
      var rotated := Touch(Spend(s, now, token), now, sid);
      (Issue(rotated, cfg, now, session.userId, sid),
       Ok(NewTokens(rotated, cfg, now, session.userId, sid, session.rememberMe)))
  }

  function ResolveProblem(s: State, now: int, token: Jwt): Option<Error> {
    var decoded := Decode(s, token, now);
    if decoded.Err? then Some(decoded.error)
    else if token.typ != Access then Some(TokenInvalid)
    else if token.sid !in s.sessions || s.sessions[token.sid].userId != token.sub
         || s.sessions[token.sid].revokedAt.Some? || s.sessions[token.sid].expiresAt <= now then Some(SessionInvalid)
    else if token.sub !in s.users || !s.users[token.sub].isActive then Some(AccountUnavailable)
    else if s.users[token.sub].isLocked then Some(AccountLocked)
    else None
  }

  function Resolve(s: State, now: int, token: Jwt): (State, Result<Principal>) {
    var problem := ResolveProblem(s, now, token);
    if problem.Some? then (s, Err(problem.value))
    else
      (Touch(s, now, token.sid), Ok(Principal(token.sub, token.sid, s.users[token.sub].isAdmin)))
  }

  /** The rows the bulk update touches: unrevoked ones of the user, narrowed by the filters. */
  predicate Selected(row: TokenRow, userId: Id, only: Option<Id>, except: Option<Id>) {
    && row.userId == userId
    && row.revokedAt.None?
    && (only.Some? ==> row.sessionId == only.value)
    && (except.Some? ==> row.sessionId != except.value)
  }

  function RevokeTokens(tokens: map<Jwt, TokenRow>, userId: Id, only: Option<Id>, except: Option<Id>, now: int): map<Jwt, TokenRow> {
    map t | t in tokens :: if Selected(tokens[t], userId, only, except) then tokens[t].(revokedAt := Some(now)) else tokens[t]
  }

  /** Ending all live sessions of a user but `except`. */
  function RevokeSessions(sessions: map<Id, Session>, userId: Id, except: Option<Id>, now: int): map<Id, Session> {
    map i | i in sessions ::
      if sessions[i].userId == userId && sessions[i].revokedAt.None? && except != Some(i)
      then sessions[i].(revokedAt := Some(now)) else sessions[i]
  }

  function RevokeAll(s: State, userId: Id, except: Option<Id>, now: int): State {
    s.(sessions := RevokeSessions(s.sessions, userId, except, now),
       tokens := RevokeTokens(s.tokens, userId, None, except, now))
  }

  function EndSession(sessions: map<Id, Session>, id: Id, now: int): map<Id, Session> {
    if id in sessions && sessions[id].revokedAt.None? then sessions[id := sessions[id].(revokedAt := Some(now))]
    else sessions
  }

  function Logout(s: State, now: int, who: Principal, token: Option<Jwt>): State {
    var tokens := RevokeTokens(s.tokens, who.userId, Some(who.sessionId), None, now);
    s.(sessions := EndSession(s.sessions, who.sessionId, now),
       tokens :=
         if token.Some? && token.value in tokens && tokens[token.value].userId == who.userId
         then tokens[token.value := tokens[token.value].(revokedAt := Some(now))] else tokens)
  }

  predicate HasChar(s: string, p: char -> bool) {
    exists i :: 0 <= i < |s| && p(s[i])
  }

  predicate IsLower(c: char) { 'a' <= c <= 'z' }
  predicate IsUpper(c: char) { 'A' <= c <= 'Z' }
  predicate IsDigit(c: char) { '0' <= c <= '9' }
  predicate IsSpecial(c: char) { !IsLower(c) && !IsUpper(c) && !IsDigit(c) }

  predicate AcceptablePassword(password: string) {
    && PASSWORD_MIN_LENGTH <= |password| <= PASSWORD_MAX_LENGTH
    && HasChar(password, IsLower) && HasChar(password, IsUpper)
    && HasChar(password, IsDigit) && HasChar(password, IsSpecial)
  }

  function ChangePassword(s: State, now: int, who: Principal, current: string, chosen: string): (State, Result<()>) {
    if !AcceptablePassword(chosen) then (s, Err(PasswordPolicy))
    else if who.userId !in s.users then (s, Err(NotFound))
    else if current != s.users[who.userId].password then (s, Err(WrongPassword))
    else if current == chosen then (s, Err(PasswordPolicy))
    else
      var changed := SetUser(s, who.userId, s.users[who.userId].(password := chosen));
      (RevokeAll(changed, who.userId, Some(who.sessionId), now), Ok(()))
  }

  /** Changing the active flag or the administrator role of an account. */
  function UpdateUser(s: State, now: int, userId: Id, isActive: Option<bool>, isAdmin: Option<bool>): (State, Result<()>) {
    if userId !in s.users then (s, Err(NotFound))
    else
      var user := s.users[userId];
      var active := if isActive.Some? then isActive.value else user.isActive;
      var admin := if isAdmin.Some? then isAdmin.value else user.isAdmin;
      var updated := SetUser(s, userId, user.(isActive := active, isAdmin := admin));
      (if isActive == Some(false) then RevokeAll(updated, userId, None, now) else updated, Ok(()))
  }

  function DeleteUser(s: State, now: int, userId: Id): (State, Result<()>) {
    if userId !in s.users then (s, Err(NotFound))
    else
      var updated := SetUser(s, userId, s.users[userId].(isActive := false));
      (RevokeAll(updated, userId, None, now), Ok(()))
  }

  function RevokeSession(s: State, now: int, who: Principal, sessionId: Id): (State, Result<()>) {
    if sessionId !in s.sessions then (s, Err(NotFound))
    else if s.sessions[sessionId].userId != who.userId && !who.isAdmin then (s, Err(NotAllowed))
    else (s.(sessions := EndSession(s.sessions, sessionId, now)), Ok(()))
  }

  // ----- runs ----------------------------------------------------------------------------

  /** One service call, with whatever arguments and principal it is made. */
  datatype Op =
    | CreateUserOp(name: string, password: string, isActive: bool, isAdmin: bool)
    | LoginOp(allowed: bool, loginName: string, loginPassword: string, rememberMe: bool)
    | ExchangeOp(refreshToken: Jwt)
    | ResolveOp(accessToken: Jwt)
    | LogoutOp(who: Principal, optionalToken: Option<Jwt>)
    | ChangePasswordOp(who: Principal, current: string, chosen: string)
    | UpdateUserOp(userId: Id, active: Option<bool>, admin: Option<bool>)
    | DeleteUserOp(userId: Id)
    | RevokeSessionOp(who: Principal, sessionId: Id)
    | RevokeAllOp(who: Principal)

  datatype Call = Call(now: int, op: Op)

  function Step(s: State, cfg: Settings, c: Call): State {
    match c.op
    case CreateUserOp(name, password, isActive, isAdmin) => CreateUser(s, name, password, isActive, isAdmin).0
    case LoginOp(allowed, name, password, rememberMe) => if allowed then Login(s, cfg, c.now, name, password, rememberMe).0 else s
    case ExchangeOp(token) => Exchange(s, cfg, c.now, token).0
    case ResolveOp(token) => Resolve(s, c.now, token).0
    case LogoutOp(who, token) => Logout(s, c.now, who, token)
    case ChangePasswordOp(who, current, chosen) => ChangePassword(s, c.now, who, current, chosen).0
    case UpdateUserOp(userId, active, admin) => UpdateUser(s, c.now, userId, active, admin).0
    case DeleteUserOp(userId) => DeleteUser(s, c.now, userId).0
    case RevokeSessionOp(who, sessionId) => RevokeSession(s, c.now, who, sessionId).0
    case RevokeAllOp(who) => RevokeAll(s, who.userId, None, c.now)
  }

  /** The tables after a run of calls. */
  function Run(s: State, cfg: Settings, calls: seq<Call>): State {
    if calls == [] then s else Step(Run(s, cfg, calls[..|calls| - 1]), cfg, calls[|calls| - 1])
  }
}
