/** What changing an account means for those who use it: who can sign in afterwards, and whose
    tokens still work (backend/app/auth/service.py:401-639). */
module AuthAccounts {
  import opened AuthLockout
  import opened AuthModel
  import opened AuthRuns
  import opened AuthTokens
  import opened Options

  /** `name` with this password signs in. */
  predicate SignsIn(s: State, cfg: Settings, now: int, name: string, password: string, rememberMe: bool) {
    Login(s, cfg, now, name, password, rememberMe).1.Ok?
  }

  predicate NameOf(s: State, name: string, id: Id) { name in s.names && s.names[name] == id }

  lemma SignsInWhen(s: State, cfg: Settings, now: int, name: string, password: string, rememberMe: bool)
    requires Inv(s, cfg)
    ensures SignsIn(s, cfg, now, name, password, rememberMe) <==>
              name in s.names && s.names[name] in s.users && s.users[s.names[name]].isActive
              && !s.users[s.names[name]].isLocked && s.users[s.names[name]].password == password
  {
    SignInCharacterized(s, cfg, now, name, password, rememberMe);
  }

  // ----- creating an account -------------------------------------------------------------

  /** Names belong to identifiers that have been given out. */
  ghost predicate NamesOk(s: State) { forall name :: name in s.names ==> s.names[name] < s.nextId }

  lemma NamesAfterStep(s: State, cfg: Settings, c: Call)
    requires NamesOk(s)
    ensures NamesOk(Step(s, cfg, c))
  {}

  lemma {:induction false} NamesAfterRun(cfg: Settings, calls: seq<Call>)
    ensures NamesOk(Run(EMPTY, cfg, calls))
  {
    if calls != [] {
      NamesAfterRun(cfg, calls[..|calls| - 1]);
      NamesAfterStep(Run(EMPTY, cfg, calls[..|calls| - 1]), cfg, calls[|calls| - 1]);
    }
  }

  /** In every state the service can reach, a new account signs in with its password exactly if it was
      created active, and nothing changes for the others. */
  lemma CreatedSignsIn(cfg: Settings, calls: seq<Call>, name: string, password: string, isActive: bool, isAdmin: bool,
                       now: int, other: string, tried: string, rememberMe: bool)
    requires CreateUser(Run(EMPTY, cfg, calls), name, password, isActive, isAdmin).1.Ok?
    ensures var s := Run(EMPTY, cfg, calls);
            var t := CreateUser(s, name, password, isActive, isAdmin).0;
            SignsIn(t, cfg, now, other, tried, rememberMe) <==>
              if other == name then isActive && tried == password else SignsIn(s, cfg, now, other, tried, rememberMe)
  {
    var s := Run(EMPTY, cfg, calls);
    ReachableStates(cfg, calls);
    NamesAfterRun(cfg, calls);
    CreateUserKeeps(s, cfg, name, password, isActive, isAdmin);
    SignsInWhen(s, cfg, now, other, tried, rememberMe);
    SignsInWhen(CreateUser(s, name, password, isActive, isAdmin).0, cfg, now, other, tried, rememberMe);
  }

  // ----- switching accounts off and on ---------------------------------------------------

  function Switched(s: State, at: int, userId: Id, active: Option<bool>, admin: Option<bool>, deleted: bool): State {
    if deleted then DeleteUser(s, at, userId).0 else UpdateUser(s, at, userId, active, admin).0
  }

  lemma SwitchedKeeps(s: State, cfg: Settings, at: int, userId: Id, active: Option<bool>, admin: Option<bool>, deleted: bool)
    requires Inv(s, cfg)
    ensures Inv(Switched(s, at, userId, active, admin, deleted), cfg)
  {
    DeleteUserKeeps(s, cfg, at, userId);
    UpdateUserKeeps(s, cfg, at, userId, active, admin);
  }

  /** After an update, the account signs in with its password exactly if it is not locked and was
      switched on; without a flag in the update nothing changes; and nothing changes for others. */
  lemma UpdatedSignsIn(s: State, cfg: Settings, at: int, userId: Id, active: Option<bool>, admin: Option<bool>,
                       now: int, name: string, password: string, rememberMe: bool)
    requires Inv(s, cfg) && userId in s.users
    ensures var t := UpdateUser(s, at, userId, active, admin).0;
            SignsIn(t, cfg, now, name, password, rememberMe) <==>
              if NameOf(s, name, userId) && active.Some?
              then active.value && !s.users[userId].isLocked && s.users[userId].password == password
              else SignsIn(s, cfg, now, name, password, rememberMe)
  {
    UpdateUserKeeps(s, cfg, at, userId, active, admin);
    SignsInWhen(s, cfg, now, name, password, rememberMe);
    SignsInWhen(UpdateUser(s, at, userId, active, admin).0, cfg, now, name, password, rememberMe);
  }

  predicate SwitchedOff(s: State, userId: Id) { userId in s.users && !s.users[userId].isActive }

  lemma SameUsers(s: State, cfg: Settings, c: Call)
    requires !c.op.LoginOp? && !IsAccountOp(c.op)
    ensures Step(s, cfg, c).users == s.users
  {}

  lemma OffAfterStep(s: State, cfg: Settings, c: Call, userId: Id)
    requires Inv(s, cfg) && SwitchedOff(s, userId) && !(c.op.UpdateUserOp? && c.op.userId == userId && c.op.active == Some(true))
    ensures SwitchedOff(Step(s, cfg, c), userId)
  {
    if c.op.LoginOp? {
      LoginActive(s, cfg, c, userId);
    } else if !IsAccountOp(c.op) {
      SameUsers(s, cfg, c);
    }
  }

  lemma {:induction false} OffAfterRun(s: State, cfg: Settings, calls: seq<Call>, userId: Id)
    requires Inv(s, cfg) && SwitchedOff(s, userId)
    requires forall i :: 0 <= i < |calls| ==>
               !(calls[i].op.UpdateUserOp? && calls[i].op.userId == userId && calls[i].op.active == Some(true))
    ensures SwitchedOff(Run(s, cfg, calls), userId)
  {
    if calls != [] {
      var n := |calls| - 1;
      OffAfterRun(s, cfg, calls[..n], userId);
      RunKeeps(s, cfg, calls[..n]);
      OffAfterStep(Run(s, cfg, calls[..n]), cfg, calls[n], userId);
    }
  }

  /** Once deactivated or deleted, a user stays out under every name and password, over every run
      that does not switch the account on again. */
  lemma StaysOut(s: State, cfg: Settings, at: int, userId: Id, admin: Option<bool>, deleted: bool, calls: seq<Call>,
                 now: int, name: string, password: string, rememberMe: bool)
    requires Inv(s, cfg) && userId in s.users
    requires forall i :: 0 <= i < |calls| ==>
               !(calls[i].op.UpdateUserOp? && calls[i].op.userId == userId && calls[i].op.active == Some(true))
    ensures var u := Run(Switched(s, at, userId, Some(false), admin, deleted), cfg, calls);
            NameOf(u, name, userId) ==> !SignsIn(u, cfg, now, name, password, rememberMe)
  {
    var t := Switched(s, at, userId, Some(false), admin, deleted);
    SwitchedKeeps(s, cfg, at, userId, Some(false), admin, deleted);
    OffAfterRun(t, cfg, calls, userId);
    RunKeeps(t, cfg, calls);
    SignsInWhen(Run(t, cfg, calls), cfg, now, name, password, rememberMe);
  }

  // ----- the administrator role ----------------------------------------------------------

  predicate IsAdminNow(s: State, userId: Id, admin: bool) { userId in s.users && s.users[userId].isAdmin == admin }

  lemma AdminAfterLogin(s: State, cfg: Settings, c: Call, userId: Id)
    requires c.op.LoginOp? && userId in s.users
    ensures userId in Step(s, cfg, c).users && Step(s, cfg, c).users[userId].isAdmin == s.users[userId].isAdmin
  {
    var name := c.op.loginName;
    if name in s.names && s.names[name] in s.users {
      SignInUsers(s, cfg, c.now, s.names[name], c.op.rememberMe);
    }
  }

  lemma AdminAfterStep(s: State, cfg: Settings, c: Call, userId: Id, admin: bool)
    requires Inv(s, cfg) && IsAdminNow(s, userId, admin) && !(c.op.UpdateUserOp? && c.op.userId == userId && c.op.admin.Some?)
    ensures IsAdminNow(Step(s, cfg, c), userId, admin)
  {
    if c.op.LoginOp? {
      AdminAfterLogin(s, cfg, c, userId);
    } else if !IsAccountOp(c.op) {
      SameUsers(s, cfg, c);
    }
  }

  lemma {:induction false} AdminAfterRun(s: State, cfg: Settings, calls: seq<Call>, userId: Id, admin: bool)
    requires Inv(s, cfg) && IsAdminNow(s, userId, admin)
    requires forall i :: 0 <= i < |calls| ==>
               !(calls[i].op.UpdateUserOp? && calls[i].op.userId == userId && calls[i].op.admin.Some?)
    ensures IsAdminNow(Run(s, cfg, calls), userId, admin)
  {
    if calls != [] {
      var n := |calls| - 1;
      AdminAfterRun(s, cfg, calls[..n], userId, admin);
      RunKeeps(s, cfg, calls[..n]);
      AdminAfterStep(Run(s, cfg, calls[..n]), cfg, calls[n], userId, admin);
    }
  }

  /** A request is made as an administrator exactly as the last update of the role said, tokens issued
      before it included. */
  lemma RequestsAsAdmin(s: State, cfg: Settings, at: int, userId: Id, active: Option<bool>, admin: bool, calls: seq<Call>,
                        now: int, token: Jwt)
    requires Inv(s, cfg) && userId in s.users && token.sub == userId
    requires forall i :: 0 <= i < |calls| ==>
               !(calls[i].op.UpdateUserOp? && calls[i].op.userId == userId && calls[i].op.admin.Some?)
    ensures var u := Run(UpdateUser(s, at, userId, active, Some(admin)).0, cfg, calls);
            Resolves(u, now, token) ==> Resolve(u, now, token).1.value == Principal(userId, token.sid, admin)
  {
    var t := UpdateUser(s, at, userId, active, Some(admin)).0;
    UpdateUserKeeps(s, cfg, at, userId, active, Some(admin));
    AdminAfterRun(t, cfg, calls, userId, admin);
  }

  // ----- changing a password -------------------------------------------------------------

  /** When a password can be changed: with the current one, to another that has 12 to 128 characters,
      among them a small letter, a capital, a digit, and something else. */
  lemma PasswordChanges(s: State, now: int, who: Principal, current: string, chosen: string)
    ensures ChangePassword(s, now, who, current, chosen).1.Ok? <==>
              && who.userId in s.users && s.users[who.userId].password == current && current != chosen
              && 12 <= |chosen| <= 128
              && (exists i :: 0 <= i < |chosen| && 'a' <= chosen[i] <= 'z') && (exists i :: 0 <= i < |chosen| && 'A' <= chosen[i] <= 'Z')
              && (exists i :: 0 <= i < |chosen| && '0' <= chosen[i] <= '9')
              && (exists i :: 0 <= i < |chosen| && !('a' <= chosen[i] <= 'z' || 'A' <= chosen[i] <= 'Z' || '0' <= chosen[i] <= '9'))
  {
    if i :| 0 <= i < |chosen| && 'a' <= chosen[i] <= 'z' { assert IsLower(chosen[i]); }
    if i :| 0 <= i < |chosen| && 'A' <= chosen[i] <= 'Z' { assert IsUpper(chosen[i]); }
    if i :| 0 <= i < |chosen| && '0' <= chosen[i] <= '9' { assert AuthModel.IsDigit(chosen[i]); }
    if i :| 0 <= i < |chosen| && !('a' <= chosen[i] <= 'z' || 'A' <= chosen[i] <= 'Z' || '0' <= chosen[i] <= '9') {
      assert IsSpecial(chosen[i]);
    }
  }

  /** After a change, a usable account signs in with the chosen password and with no other, the old
      one included; and nothing changes for others. */
  lemma ChangedSignsIn(s: State, cfg: Settings, at: int, who: Principal, current: string, chosen: string,
                       now: int, name: string, password: string, rememberMe: bool)
    requires Inv(s, cfg) && ChangePassword(s, at, who, current, chosen).1.Ok?
    ensures var t := ChangePassword(s, at, who, current, chosen).0;
            SignsIn(t, cfg, now, name, password, rememberMe) <==>
              if NameOf(s, name, who.userId) then Usable(s.users[who.userId]) && password == chosen
              else SignsIn(s, cfg, now, name, password, rememberMe)
    ensures current != chosen
  {
    ChangePasswordKeeps(s, cfg, at, who, current, chosen);
    SignsInWhen(s, cfg, now, name, password, rememberMe);
    SignsInWhen(ChangePassword(s, at, who, current, chosen).0, cfg, now, name, password, rememberMe);
  }

  lemma SameLife(s: State, t: State, cfg: Settings, now: int, token: Jwt)
    requires Inv(s, cfg) && Inv(t, cfg) && Keeps(s, t) && t.issued == s.issued && t.tokens.Keys == s.tokens.Keys
    requires token in s.issued && (Live(t, token) <==> Live(s, token)) && (Ended(t, token.sid) <==> Ended(s, token.sid))
    requires Usable(t.users[token.sub]) <==> Usable(s.users[token.sub])
    ensures Resolves(t, now, token) <==> Resolves(s, now, token)
    ensures Exchanges(t, cfg, now, token) <==> Exchanges(s, cfg, now, token)
  {
    ResolveCharacterized(s, cfg, now, token);
    ResolveCharacterized(t, cfg, now, token);
    ExchangeCharacterized(s, cfg, now, token);
    ExchangeCharacterized(t, cfg, now, token);
  }

  /** The session the password was changed in goes on, and so do the sessions of others: their tokens
      work exactly as before. */
  lemma OwnSessionSurvives(s: State, cfg: Settings, at: int, who: Principal, current: string, chosen: string,
                           now: int, token: Jwt)
    requires Inv(s, cfg) && ChangePassword(s, at, who, current, chosen).1.Ok?
    requires token in s.issued && (token.sid == who.sessionId || token.sub != who.userId)
    ensures var t := ChangePassword(s, at, who, current, chosen).0;
            && (Resolves(t, now, token) <==> Resolves(s, now, token))
            && (Exchanges(t, cfg, now, token) <==> Exchanges(s, cfg, now, token))
  {
    var t := ChangePassword(s, at, who, current, chosen).0;
    ChangePasswordKeeps(s, cfg, at, who, current, chosen);
    SameLife(s, t, cfg, now, token);
  }

  // ----- ending sessions -----------------------------------------------------------------

  /** Ending all sessions of a user ends each of them for good, and leaves the tokens of others as
      they were. */
  lemma AllSessionsEnd(s: State, cfg: Settings, at: int, userId: Id, calls: seq<Call>, now: int, token: Jwt)
    requires Inv(s, cfg) && token in s.issued
    ensures var t := RevokeAll(s, userId, None, at);
            if token.sub == userId then !Accepted(Run(t, cfg, calls), now, token)
            else (Resolves(t, now, token) <==> Resolves(s, now, token))
                 && (Exchanges(t, cfg, now, token) <==> Exchanges(s, cfg, now, token))
  {
    var t := RevokeAll(s, userId, None, at);
    RevokeAllKeeps(s, cfg, userId, None, at);
    if token.sub == userId {
      EndedForever(t, cfg, token.sid, calls, now, token);
    } else {
      SameLife(s, t, cfg, now, token);
    }
  }

  /** Signing out with a refresh token makes that token worthless too, whatever session of the user it
      belongs to; other sessions go on. */
  lemma LogoutSpends(s: State, cfg: Settings, at: int, who: Principal, optional: Option<Jwt>, calls: seq<Call>, now: int, token: Jwt)
    requires Inv(s, cfg) && token in s.issued && token.sid != who.sessionId
    ensures var t := Logout(s, at, who, optional);
            if optional == Some(token) && token in s.tokens && token.sub == who.userId
            then !Accepted(Run(t, cfg, calls), now, token)
            else (Resolves(t, now, token) <==> Resolves(s, now, token))
                 && (Exchanges(t, cfg, now, token) <==> Exchanges(s, cfg, now, token))
  {
    var t := Logout(s, at, who, optional);
    LogoutKeeps(s, cfg, at, who, optional);
    if optional == Some(token) && token in s.tokens && token.sub == who.userId {
      SpentForever(t, cfg, token, calls, now);
    } else {
      SameLife(s, t, cfg, now, token);
    }
  }

  /** Why a sign-in is refused: the name is unknown, or the password is wrong for a usable account; the
      account is locked, whatever else; or it is switched off and not locked. */
  lemma WhyRefused(s: State, cfg: Settings, now: int, name: string, password: string, rememberMe: bool)
    requires Inv(s, cfg)
    ensures var r := Login(s, cfg, now, name, password, rememberMe).1;
            if !(name in s.names && s.names[name] in s.users) then r == Err(InvalidCredentials)
            else
              var user := s.users[s.names[name]];
              && (r == Err(AccountLocked) <==> user.isLocked)
              && (r == Err(AccountDisabled) <==> !user.isLocked && !user.isActive)
              && (r == Err(InvalidCredentials) <==> Usable(user) && password != user.password)
  {}

  /** A session can be ended by its owner and by administrators; its tokens die for good, and all other
      tokens work as before. */
  lemma RevokedByOwnerOrAdmin(s: State, cfg: Settings, at: int, who: Principal, sid: Id, calls: seq<Call>, now: int, token: Jwt)
    requires Inv(s, cfg) && token in s.issued
    ensures var (t, r) := RevokeSession(s, at, who, sid);
            && (r.Ok? <==> sid in s.sessions && (s.sessions[sid].userId == who.userId || who.isAdmin))
            && (r.Err? ==> t == s)
            && (r.Ok? ==>
                  if token.sid == sid then !Accepted(Run(t, cfg, calls), now, token)
                  else (Resolves(t, now, token) <==> Resolves(s, now, token))
                       && (Exchanges(t, cfg, now, token) <==> Exchanges(s, cfg, now, token)))
  {
    var (t, r) := RevokeSession(s, at, who, sid);
    RevokeSessionKeeps(s, cfg, at, who, sid);
    if r.Ok? && token.sid == sid {
      RevocationEnds(s, cfg, at, who, calls, now, token);
    } else if r.Ok? {
      SameLife(s, t, cfg, now, token);
    }
  }
}
