/** The service itself (backend/app/auth/service.py): an object that updates its tables in place,
    proved against the calls on values. */
module AuthService {
  import opened AuthModel
  import opened AuthThrottle
  import opened Numbers
  import opened Options

  /** Revoking exactly the selected rows is what the calls on values do. */
  lemma RowsRevoked(before: map<Jwt, TokenRow>, after: map<Jwt, TokenRow>, userId: Id, only: Option<Id>, except: Option<Id>, now: int)
    requires after.Keys == before.Keys
    requires forall t :: t in after && !Selected(before[t], userId, only, except) ==> after[t] == before[t]
    requires forall t :: t in after && Selected(before[t], userId, only, except) ==>
               after[t].revokedAt == Some(now) && after[t].(revokedAt := None) == before[t]
    ensures after == RevokeTokens(before, userId, only, except, now)
  {
    forall t | t in after ensures after[t] == RevokeTokens(before, userId, only, except, now)[t] {
      if Selected(before[t], userId, only, except) {
        assert before[t].revokedAt == None;
        assert after[t] == before[t].(revokedAt := Some(now));
      }
    }
  }

  class Service {
    const cfg: Settings
    const throttle: IpThrottle
    var users: map<Id, User>
    var names: map<string, Id>
    var sessions: map<Id, Session>
    var tokens: map<Jwt, TokenRow>
    var issued: set<Jwt>
    var nextId: Id

    /** The tables as a value. */
    function View(): State
      reads this
    {
      State(users, names, sessions, tokens, issued, nextId)
    }

    constructor (cfg: Settings, throttle: IpThrottle)
      ensures View() == EMPTY && this.cfg == cfg && this.throttle == throttle
    {
      this.cfg, this.throttle := cfg, throttle;
      users, names, sessions, tokens, issued, nextId := map[], map[], map[], map[], {}, 0;
    }

    method CreateUser(name: string, password: string, isActive: bool, isAdmin: bool) returns (r: Result<Id>)
      modifies this
      ensures (View(), r) == AuthModel.CreateUser(old(View()), name, password, isActive, isAdmin)
    {
      if password == "" {
        return Err(PasswordPolicy);
      }
      if name in names {
        return Err(NameTaken);
      }
      var id := nextId;
      nextId := nextId + 1;
      users := users[id := User(password, isActive, isAdmin, false, 0, None)];
      names := names[name := id];
      return Ok(id);
    }

    method IssueTokens(now: int, userId: Id, sessionId: Id) returns (pair: Tokens)
      requires sessionId in sessions
      modifies this
      ensures View() == Issue(old(View()), cfg, now, userId, sessionId)
      ensures pair == NewTokens(old(View()), cfg, now, userId, sessionId, old(sessions[sessionId].rememberMe))
    {
      var row := sessions[sessionId];
      var access := NewJwt(Access, userId, sessionId, now + cfg.accessMinutes * MINUTE, nextId);
      var refresh := NewJwt(TokenType.Refresh, userId, sessionId, now + RefreshDays(cfg, row.rememberMe) * DAY, nextId + 1);
      nextId := nextId + 2;
      issued := issued + {access, refresh};
      tokens := tokens[refresh := TokenRow(userId, sessionId, row.expiresAt, None)];
      return Tokens(access, refresh);
    }

    /** What a sign-in means for the throttle. */
    static function OutcomeOf(r: Result<Tokens>): Outcome {
      if r == Err(InvalidCredentials) then Wrong else if r.Ok? then Right else Untouched
    }

    method CountFailure(id: Id, now: int)
      requires id in users
      modifies this`users
      ensures users == old(users)[id := Failed(old(users)[id], now)]
    {
      var user := users[id];
      user := user.(failedLogins := user.failedLogins + 1);
      if user.failedLogins >= MAX_FAILED_LOGINS {
        user := user.(isLocked := true, lockedUntil := Some(now + LOCKOUT_MINUTES * MINUTE));
      }
      users := users[id := user];
    }

    /** The account part of signing in. */
    method SignIn(now: int, name: string, password: string, rememberMe: bool) returns (r: Result<Tokens>)
      modifies this
      ensures (View(), r) == AuthModel.Login(old(View()), cfg, now, name, password, rememberMe)
    {
      if name !in names || names[name] !in users {
        return Err(InvalidCredentials);
      }
      var id := names[name];
      var user := users[id];
      if user.lockedUntil.Some? && user.lockedUntil.value > now {
        return Err(AccountLocked);
      }
      if user.isLocked {
        return Err(AccountLocked);
      }
      if !user.isActive {
        return Err(AccountDisabled);
      }
      if password != user.password {
        CountFailure(id, now);
        return Err(InvalidCredentials);
      }
      users := users[id := user.(failedLogins := 0, isLocked := false, lockedUntil := None)];
      var sid := nextId;
      nextId := nextId + 1;
      sessions := sessions[sid := Session(id, now, now + RefreshDays(cfg, rememberMe) * DAY, rememberMe, now, None)];
      var pair := IssueTokens(now, id, sid);
      return Ok(pair);
    }

    /** Signing in from `ip`: the address is checked at `gate`, the account at `now`, and a
        failure is recorded at `failedAt`, as soon as credentials turn out to be invalid. */
    method Login(ip: Option<string>, gate: int, now: int, failedAt: int, name: string, password: string, rememberMe: bool)
      returns (r: Result<Tokens>)
      modifies this, throttle
      ensures var allowed := ip.None? || ip.value == "" || Allowed(old(throttle.Stamps(ip.value)), gate);
              if allowed then (View(), r) == AuthModel.Login(old(View()), cfg, now, name, password, rememberMe)
              else View() == old(View()) && r == Err(TooManyAttempts)
      ensures ip.Some? && ip.value != "" ==>
                throttle.Stamps(ip.value) == AfterAttempt(old(throttle.Stamps(ip.value)), Attempt(gate, failedAt, OutcomeOf(r)))
      ensures forall other :: ip != Some(other) || other == "" ==> throttle.Stamps(other) == old(throttle.Stamps(other))
      ensures old(throttle.Bounded()) ==> throttle.Bounded()
    {
      if throttle.Bounded() && ip.Some? {
        forall o ensures |AfterAttempt(throttle.Stamps(ip.value), Attempt(gate, failedAt, o))| <= IP_MAX_FAILURES {
          AttemptKeepsBound(throttle.Stamps(ip.value), Attempt(gate, failedAt, o));
        }
      }
      var allowed := throttle.AssertIpAllowed(ip, gate);
      if !allowed {
        return Err(TooManyAttempts);
      }
      r := SignIn(now, name, password, rememberMe);
      if r == Err(InvalidCredentials) {
        throttle.RegisterIpFailure(ip, failedAt);
      }
      if r.Ok? {
        throttle.ClearIpFailures(ip);
      }
    }

    method Refresh(now: int, token: Jwt) returns (r: Result<Tokens>)
      modifies this
      ensures (View(), r) == Exchange(old(View()), cfg, now, token)
    {
      var decoded := Decode(View(), token, now);
      if decoded.Err? {
        return Err(decoded.error);
      }
      if token.typ != TokenType.Refresh {
        return Err(TokenInvalid);
      }
      if token !in tokens || tokens[token].revokedAt.Some? {
        return Err(TokenInvalid);
      }
      var stored := tokens[token];
      if stored.expiresAt <= now {
        return Err(TokenExpired);
      }
      var sid := stored.sessionId;
      if sid !in sessions || sessions[sid].revokedAt.Some? || sessions[sid].expiresAt <= now {
        return Err(SessionInvalid);
      }
      var row := sessions[sid];
      if row.userId !in users || !users[row.userId].isActive || users[row.userId].isLocked {
        return Err(AccountUnavailable);
      }
      tokens := tokens[token := stored.(revokedAt := Some(now))];
      sessions := sessions[sid := row.(lastActivityAt := now)];
      var pair := IssueTokens(now, row.userId, sid);
      return Ok(pair);
    }

    method ResolveAccessToken(now: int, token: Jwt) returns (r: Result<Principal>)
      modifies this
      ensures (View(), r) == Resolve(old(View()), now, token)
    {
      var decoded := Decode(View(), token, now);
      if decoded.Err? {
        return Err(decoded.error);
      }
      if token.typ != Access {
        return Err(TokenInvalid);
      }
      if token.sid !in sessions || sessions[token.sid].userId != token.sub
         || sessions[token.sid].revokedAt.Some? || sessions[token.sid].expiresAt <= now {
        return Err(SessionInvalid);
      }
      if token.sub !in users || !users[token.sub].isActive {
        return Err(AccountUnavailable);
      }
      if users[token.sub].isLocked {
        return Err(AccountLocked);
      }
      sessions := sessions[token.sid := sessions[token.sid].(lastActivityAt := now)];
      return Ok(Principal(token.sub, token.sid, users[token.sub].isAdmin));
    }

    /** The bulk update of the refresh rows, narrowed filter by filter: afterwards no selected row
        is left, every other row is as it was, and none is added or lost. */
    method RevokeRefreshTokens(userId: Id, only: Option<Id>, except: Option<Id>, now: int)
      modifies this`tokens
      ensures tokens.Keys == old(tokens).Keys
      ensures forall t :: t in tokens ==> !Selected(tokens[t], userId, only, except)
      ensures forall t :: t in tokens && !Selected(old(tokens)[t], userId, only, except) ==> tokens[t] == old(tokens)[t]
      ensures forall t :: t in tokens && Selected(old(tokens)[t], userId, only, except) ==>
                && tokens[t].revokedAt == Some(now)
                && tokens[t].(revokedAt := None) == old(tokens)[t]
    {
      var chosen := set t | t in tokens && tokens[t].userId == userId && tokens[t].revokedAt.None?;
      if only.Some? {
        chosen := set t | t in chosen && tokens[t].sessionId == only.value;
      }
      if except.Some? {
        chosen := set t | t in chosen && tokens[t].sessionId != except.value;
      }
      tokens := map t | t in tokens :: if t in chosen then tokens[t].(revokedAt := Some(now)) else tokens[t];
    }

    /** Ending the live sessions of a user one by one, in whatever order the table lists them. */
    method RevokeUserSessions(userId: Id, except: Option<Id>, now: int)
      modifies this`sessions
      ensures sessions == RevokeSessions(old(sessions), userId, except, now)
    {
      var listed := set i | i in sessions && sessions[i].userId == userId;
      while listed != {}
        invariant sessions.Keys == old(sessions).Keys
        invariant forall i :: i in listed ==> i in sessions && sessions[i] == old(sessions)[i] && sessions[i].userId == userId
        invariant forall i :: i in sessions && i !in listed ==>
                    sessions[i] == RevokeSessions(old(sessions), userId, except, now)[i]
        decreases listed
      {
        var i :| i in listed;
        if except != Some(i) && sessions[i].revokedAt.None? {
          sessions := sessions[i := sessions[i].(revokedAt := Some(now))];
        }
        listed := listed - {i};
      }
    }

    method EndOwnSession(sessionId: Id, now: int)
      modifies this`sessions
      ensures sessions == EndSession(old(sessions), sessionId, now)
    {
      if sessionId in sessions && sessions[sessionId].revokedAt.None? {
        sessions := sessions[sessionId := sessions[sessionId].(revokedAt := Some(now))];
      }
    }

    method Logout(now: int, who: Principal, token: Option<Jwt>)
      modifies this
      ensures View() == AuthModel.Logout(old(View()), now, who, token)
    {
      EndOwnSession(who.sessionId, now);
      ghost var before := tokens;
      RevokeRefreshTokens(who.userId, Some(who.sessionId), None, now);
      RowsRevoked(before, tokens, who.userId, Some(who.sessionId), None, now);
      if token.Some? && token.value in tokens && tokens[token.value].userId == who.userId {
        tokens := tokens[token.value := tokens[token.value].(revokedAt := Some(now))];
      }
    }

    method RevokeAllOf(userId: Id, except: Option<Id>, now: int)
      modifies this
      ensures View() == RevokeAll(old(View()), userId, except, now)
    {
      RevokeUserSessions(userId, except, now);
      ghost var before := tokens;
      RevokeRefreshTokens(userId, None, except, now);
      RowsRevoked(before, tokens, userId, None, except, now);
    }

    method ChangePassword(now: int, who: Principal, current: string, chosen: string) returns (r: Result<()>)
      modifies this
      ensures (View(), r) == AuthModel.ChangePassword(old(View()), now, who, current, chosen)
    {
      if !AcceptablePassword(chosen) {
        return Err(PasswordPolicy);
      }
      if who.userId !in users {
        return Err(NotFound);
      }
      if current != users[who.userId].password {
        return Err(WrongPassword);
      }
      if current == chosen {
        return Err(PasswordPolicy);
      }
      users := users[who.userId := users[who.userId].(password := chosen)];
      RevokeAllOf(who.userId, Some(who.sessionId), now);
      return Ok(());
    }

    method UpdateUser(now: int, userId: Id, isActive: Option<bool>, isAdmin: Option<bool>) returns (r: Result<()>)
      modifies this
      ensures (View(), r) == AuthModel.UpdateUser(old(View()), now, userId, isActive, isAdmin)
    {
      if userId !in users {
        return Err(NotFound);
      }
      var user := users[userId];
      if isActive.Some? {
        user := user.(isActive := isActive.value);
      }
      if isAdmin.Some? {
        user := user.(isAdmin := isAdmin.value);
      }
      users := users[userId := user];
      if isActive == Some(false) {
        RevokeAllOf(userId, None, now);
      }
      return Ok(());
    }

    method DeleteUser(now: int, userId: Id) returns (r: Result<()>)
      modifies this
      ensures (View(), r) == AuthModel.DeleteUser(old(View()), now, userId)
    {
      if userId !in users {
        return Err(NotFound);
      }
      users := users[userId := users[userId].(isActive := false)];
      RevokeAllOf(userId, None, now);
      return Ok(());
    }

    method RevokeSession(now: int, who: Principal, sessionId: Id) returns (r: Result<()>)
      modifies this
      ensures (View(), r) == AuthModel.RevokeSession(old(View()), now, who, sessionId)
    {
      if sessionId !in sessions {
        return Err(NotFound);
      }
      if sessions[sessionId].userId != who.userId && !who.isAdmin {
        return Err(NotAllowed);
      }
      EndOwnSession(sessionId, now);
      return Ok(());
    }
  }
}
