/** The lockout of accounts over whole runs (backend/app/auth/service.py:255-302). */
module AuthLockout {
  import opened AuthModel
  import opened AuthRuns
  import opened Options

  /** `c` tries to sign in to account `id`. */
  predicate Tries(s: State, c: Call, id: Id) {
    c.op.LoginOp? && c.op.allowed && c.op.loginName in s.names && s.names[c.op.loginName] == id && id in s.users
  }

  function Answer(s: State, cfg: Settings, c: Call): Result<Tokens>
    requires c.op.LoginOp?
  {
    Login(s, cfg, c.now, c.op.loginName, c.op.loginPassword, c.op.rememberMe).1
  }

  /** A try that fails for its password. */
  predicate WrongTry(s: State, cfg: Settings, c: Call, id: Id) {
    Tries(s, c, id) && Answer(s, cfg, c) == Err(InvalidCredentials)
  }

  predicate RightTry(s: State, cfg: Settings, c: Call, id: Id) {
    Tries(s, c, id) && Answer(s, cfg, c).Ok?
  }

  /** Wrong passwords in a row: those since the last successful sign-in, whatever else happened. */
  function Streak(s: State, cfg: Settings, calls: seq<Call>, id: Id): nat {
    if calls == [] then 0
    else
      var before, c := calls[..|calls| - 1], calls[|calls| - 1];
      var t := Run(s, cfg, before);
      if WrongTry(t, cfg, c, id) then Streak(s, cfg, before, id) + 1
      else if RightTry(t, cfg, c, id) then 0
      else Streak(s, cfg, before, id)
  }

  /** What a call can do to the failures and the lock of an account. */
  ghost predicate Counts(s: State, cfg: Settings, c: Call, id: Id, before: User, after: User) {
    if WrongTry(s, cfg, c, id) then
      !before.isLocked && after.failedLogins == before.failedLogins + 1
      && (after.isLocked <==> after.failedLogins >= MAX_FAILED_LOGINS)
    else if RightTry(s, cfg, c, id) then !before.isLocked && after.failedLogins == 0 && !after.isLocked
    else after.failedLogins == before.failedLogins && after.isLocked == before.isLocked
  }

  lemma SignInUsers(s: State, cfg: Settings, now: int, id: Id, rememberMe: bool)
    requires id in s.users
    ensures SignIn(s, cfg, now, id, rememberMe).0.users
            == s.users[id := s.users[id].(failedLogins := 0, isLocked := false, lockedUntil := None)]
    ensures SignIn(s, cfg, now, id, rememberMe).1.Ok?
  {}

  lemma LoginCounts(s: State, cfg: Settings, c: Call, id: Id)
    requires Inv(s, cfg) && id in s.users && c.op.LoginOp?
    ensures var t := Step(s, cfg, c); id in t.users && Counts(s, cfg, c, id, s.users[id], t.users[id])
  {
    var name := c.op.loginName;
    if name in s.names && s.names[name] in s.users {
      SignInUsers(s, cfg, c.now, s.names[name], c.op.rememberMe);
    }
  }

  /** Failures and lock of an account are as they were. */
  ghost predicate SameLock(s: State, t: State, id: Id)
    requires id in s.users
  {
    id in t.users && t.users[id].failedLogins == s.users[id].failedLogins && t.users[id].isLocked == s.users[id].isLocked
  }

  lemma UpdateSameLock(s: State, now: int, userId: Id, active: Option<bool>, admin: Option<bool>, id: Id)
    requires id in s.users
    ensures SameLock(s, UpdateUser(s, now, userId, active, admin).0, id)
  {}

  lemma PasswordSameLock(s: State, now: int, who: Principal, current: string, chosen: string, id: Id)
    requires id in s.users
    ensures SameLock(s, ChangePassword(s, now, who, current, chosen).0, id)
  {}

  lemma AccountCounts(s: State, cfg: Settings, c: Call, id: Id)
    requires UsersOk(s) && id in s.users && IsAccountOp(c.op)
    ensures SameLock(s, Step(s, cfg, c), id)
  {
    match c.op {
      case UpdateUserOp(userId, active, admin) => UpdateSameLock(s, c.now, userId, active, admin, id);
      case ChangePasswordOp(who, current, chosen) => PasswordSameLock(s, c.now, who, current, chosen, id);
      case _ =>
    }
  }

  lemma SessionCounts(s: State, cfg: Settings, c: Call, id: Id)
    requires id in s.users && !c.op.LoginOp? && !IsAccountOp(c.op)
    ensures SameLock(s, Step(s, cfg, c), id)
  {}

  lemma StepCounts(s: State, cfg: Settings, c: Call, id: Id)
    requires Inv(s, cfg) && id in s.users
    ensures var t := Step(s, cfg, c); id in t.users && Counts(s, cfg, c, id, s.users[id], t.users[id])
  {
    if c.op.LoginOp? {
      LoginCounts(s, cfg, c, id);
    } else if IsAccountOp(c.op) {
      AccountCounts(s, cfg, c, id);
    } else {
      SessionCounts(s, cfg, c, id);
    }
  }

  /** Over every run from an unlocked account without failures, whatever other calls lie between,
      the account is locked exactly when five wrong passwords came in a row; and a sixth is never
      looked at. */
  lemma {:induction false} LockedAtFive(s: State, cfg: Settings, calls: seq<Call>, id: Id)
    requires Inv(s, cfg) && id in s.users && s.users[id].failedLogins == 0 && !s.users[id].isLocked
    ensures var t := Run(s, cfg, calls);
            && id in t.users
            && t.users[id].failedLogins == Streak(s, cfg, calls, id)
            && (t.users[id].isLocked <==> Streak(s, cfg, calls, id) >= 5)
            && Streak(s, cfg, calls, id) <= 5
  {
    if calls != [] {
      var before, c := calls[..|calls| - 1], calls[|calls| - 1];
      LockedAtFive(s, cfg, before, id);
      RunKeeps(s, cfg, before);
      StepCounts(Run(s, cfg, before), cfg, c, id);
    }
  }

  /** A try with a wrong password for the account that goes by `name`. */
  ghost predicate IsWrong(c: Call, name: string, password: string) {
    c.op.LoginOp? && c.op.allowed && c.op.loginName == name && c.op.loginPassword != password
  }

  /** In particular, of wrong passwords only, the first four do not lock an active account and the
      fifth does, at whatever times they come. */
  lemma {:induction false} OnlyWrongPasswords(s: State, cfg: Settings, name: string, calls: seq<Call>)
    requires Inv(s, cfg) && name in s.names && s.names[name] in s.users
    requires var user := s.users[s.names[name]]; user.isActive && !user.isLocked && user.failedLogins == 0
    requires forall i :: 0 <= i < |calls| ==> IsWrong(calls[i], name, s.users[s.names[name]].password)
    ensures var t := Run(s, cfg, calls);
            && t.names == s.names && s.names[name] in t.users
            && var user := t.users[s.names[name]];
               && user.isActive && user.password == s.users[s.names[name]].password
               && user.failedLogins == (if |calls| <= 5 then |calls| else 5)
               && (user.isLocked <==> |calls| >= 5)
  {
    if calls != [] {
      var n := |calls| - 1;
      OnlyWrongPasswords(s, cfg, name, calls[..n]);
      assert IsWrong(calls[n], name, s.users[s.names[name]].password);
      RunKeeps(s, cfg, calls[..n]);
    }
  }
}
