/** Who holds which role in a case after each request about its members
    (backend/app/collaboration/service.py:94-258): the outcome of a call, read off the memberships. */
module MemberRoles {
  import opened Bags
  import opened CaseMembers
  import opened Options

  ghost predicate HoldsRole(t: Table, userId: Id, role: Role) { exists m :: m in t.rows && m.userId == userId && m.role == role }

  ghost predicate IsMember(t: Table, userId: Id) { exists m :: m in t.rows && m.userId == userId }

  /** Who may change the members: the system, administrators of users, owners and lead investigators. */
  ghost predicate Manages(t: Table, who: Option<Principal>) {
    who.None? || who.value.managesUsers || HoldsRole(t, who.value.userId, Owner) || HoldsRole(t, who.value.userId, LeadInvestigator)
  }

  lemma OnlyRow(t: Table, i: nat, m: Member)
    requires Proper(t) && i < |t.rows| && m in t.rows && (m.userId == t.rows[i].userId || m.id == t.rows[i].id)
    ensures m == t.rows[i]
  {
    var j :| 0 <= j < |t.rows| && t.rows[j] == m;
  }

  lemma ManagesWhen(t: Table, who: Option<Principal>)
    requires Proper(t)
    ensures CanManage(t.rows, who) <==> Manages(t, who)
  {
    if who.Some? {
      var mine := OfUser(t.rows, who.value.userId);
      if mine.Some? {
        var m := t.rows[mine.value];
        assert m in t.rows;
        forall other | other in t.rows && other.userId == who.value.userId ensures other == m {
          OnlyRow(t, mine.value, other);
        }
      }
    }
  }

  /** A user is added exactly when the caller manages members, the user and the role exist, and the user
      is no member yet; afterwards the user holds that role, and everyone else holds what they held. */
  lemma AddOutcome(t: Table, users: set<Id>, userId: Id, role: Option<Role>, who: Option<Principal>)
    requires Proper(t)
    ensures var (next, r) := Add(t, users, userId, role, who);
            && (r.Ok? <==> Manages(t, who) && userId in users && role.Some? && !IsMember(t, userId))
            && (r.Err? ==> next == t)
            && (r.Ok? ==> forall u: Id, x: Role ::
                  HoldsRole(next, u, x) <==> if u == userId then x == role.value else HoldsRole(t, u, x))
  {
    ManagesWhen(t, who);
    var (next, r) := Add(t, users, userId, role, who);
    var mine := OfUser(t.rows, userId);
    if mine.Some? {
      assert t.rows[mine.value] in t.rows;
    }
    if r.Ok? {
      var row := Member(t.nextId, userId, role.value);
      assert next.rows == t.rows + [row] && row in next.rows;
      forall u: Id, x: Role ensures HoldsRole(next, u, x) <==> if u == userId then x == role.value else HoldsRole(t, u, x) {
        if HoldsRole(t, u, x) {
          var m :| m in t.rows && m.userId == u && m.role == x;
          assert m in next.rows;
        }
      }
    }
  }

  /** After the role in one row has changed, its user holds the new one, and everyone else holds what
      they held. */
  lemma RoleSet(t: Table, i: nat, role: Role)
    requires Proper(t) && i < |t.rows|
    ensures forall u: Id, x: Role :: HoldsRole(t.(rows := WithRole(t.rows, i, role)), u, x) <==>
              if u == t.rows[i].userId then x == role else HoldsRole(t, u, x)
  {
    var next := t.(rows := WithRole(t.rows, i, role));
    assert next.rows[i] in next.rows;
    forall u: Id, x: Role ensures HoldsRole(next, u, x) <==> if u == t.rows[i].userId then x == role else HoldsRole(t, u, x) {
      if HoldsRole(next, u, x) {
        var m :| m in next.rows && m.userId == u && m.role == x;
        var j :| 0 <= j < |next.rows| && next.rows[j] == m;
        assert t.rows[j] in t.rows && t.rows[j].userId == m.userId;
      }
      if HoldsRole(t, u, x) && u != t.rows[i].userId {
        var m :| m in t.rows && m.userId == u && m.role == x;
        var j :| 0 <= j < |t.rows| && t.rows[j] == m;
        assert next.rows[j] == m && m in next.rows;
      }
    }
  }

  /** The row `m` is the only one of an owner. */
  ghost predicate LastOwnerIs(t: Table, m: Member) { m.role == Owner && forall o :: o in t.rows && o.role == Owner ==> o == m }

  lemma LastOwnerCounted(t: Table, i: nat)
    requires Proper(t) && i < |t.rows|
    ensures LastOwnerIs(t, t.rows[i]) <==> t.rows[i].role == Owner && CountOwners(t.rows) <= 1
  {
    CountTwo(t.rows, IsOwner);
    assert t.rows[i] in t.rows;
    if t.rows[i].role == Owner && CountOwners(t.rows) <= 1 {
      forall o | o in t.rows && o.role == Owner ensures o == t.rows[i] {
        var j :| 0 <= j < |t.rows| && t.rows[j] == o;
        assert IsOwner(t.rows[i]) && IsOwner(t.rows[j]);
      }
    }
    if CountOwners(t.rows) >= 2 {
      var j, k :| 0 <= j < k < |t.rows| && IsOwner(t.rows[j]) && IsOwner(t.rows[k]);
      assert t.rows[j] in t.rows && t.rows[k] in t.rows && t.rows[j].userId != t.rows[k].userId;
    }
  }

  lemma MemberAt(t: Table, m: Member)
    requires Proper(t) && m in t.rows
    ensures OfMember(t.rows, m.id).Some? && t.rows[OfMember(t.rows, m.id).value] == m
  {
    OnlyRow(t, OfMember(t.rows, m.id).value, m);
  }

  /** A role is changed exactly when the caller manages members and the last owner is not demoted;
      afterwards that member holds it, and everyone else holds what they held. */
  lemma ChangeOutcome(t: Table, m: Member, role: Role, who: Option<Principal>)
    requires Proper(t) && m in t.rows
    ensures var (next, r) := Update(t, m.id, To(role), false, who);
            && (r.Ok? <==> Manages(t, who) && !(LastOwnerIs(t, m) && role != Owner))
            && (r.Err? ==> next == t)
            && (r.Ok? ==> forall u: Id, x: Role ::
                  HoldsRole(next, u, x) <==> if u == m.userId then x == role else HoldsRole(t, u, x))
  {
    MemberAt(t, m);
    var i := OfMember(t.rows, m.id).value;
    ManagesWhen(t, who);
    LastOwnerCounted(t, i);
    RoleSet(t, i, role);
  }

  /** Ownership is handed over exactly by an owner, or by an administrator of users; afterwards the
      named member is an owner, whoever asked and is another member is lead investigator, and everyone
      else holds what they held. */
  lemma TransferOutcome(t: Table, m: Member, change: RoleChange, who: Option<Principal>)
    requires Proper(t) && m in t.rows
    ensures var (next, r) := Update(t, m.id, change, true, who);
            && (r.Ok? <==> who.Some? && (who.value.managesUsers || HoldsRole(t, who.value.userId, Owner)))
            && (r.Err? ==> next == t)
            && (r.Ok? ==> forall u: Id, x: Role ::
                  HoldsRole(next, u, x) <==>
                    if u == m.userId then x == Owner
                    else if u == who.value.userId && IsMember(t, u) then x == LeadInvestigator
                    else HoldsRole(t, u, x))
  {
    MemberAt(t, m);
    var i := OfMember(t.rows, m.id).value;
    ManagesWhen(t, who);
    if who.Some? {
      MayTransfer(t, who.value);
      var mine := OfUser(t.rows, who.value.userId);
      if mine.Some? {
        assert t.rows[mine.value] in t.rows;
        RoleSet(t, mine.value, LeadInvestigator);
        RolesKeepProper(t, mine.value, LeadInvestigator);
        RoleSet(t.(rows := WithRole(t.rows, mine.value, LeadInvestigator)), i, Owner);
      } else {
        RoleSet(t, i, Owner);
      }
    }
  }

  lemma MayTransfer(t: Table, who: Principal)
    requires Proper(t)
    ensures CanTransfer(t.rows, who) <==> who.managesUsers || HoldsRole(t, who.userId, Owner)
  {
    var mine := OfUser(t.rows, who.userId);
    if mine.Some? {
      assert t.rows[mine.value] in t.rows;
      forall other | other in t.rows && other.userId == who.userId ensures other == t.rows[mine.value] {
        OnlyRow(t, mine.value, other);
      }
    }
  }

  /** A member is removed exactly when the caller manages members and it is not the last owner;
      afterwards that user holds no role, and everyone else holds what they held. */
  lemma RemoveOutcome(t: Table, m: Member, who: Option<Principal>)
    requires Proper(t) && m in t.rows
    ensures var (next, r) := Remove(t, m.id, who);
            && (r.Ok? <==> Manages(t, who) && !LastOwnerIs(t, m))
            && (r.Err? ==> next == t)
            && (r.Ok? ==> forall u: Id, x: Role :: HoldsRole(next, u, x) <==> u != m.userId && HoldsRole(t, u, x))
  {
    MemberAt(t, m);
    var i := OfMember(t.rows, m.id).value;
    ManagesWhen(t, who);
    LastOwnerCounted(t, i);
    RowGone(t, i);
  }

  lemma RowsLeft(t: Table, i: nat, m: Member)
    requires Proper(t) && i < |t.rows|
    ensures m in t.rows[..i] + t.rows[i + 1..] <==> m in t.rows && m.userId != t.rows[i].userId
  {
    var left := t.rows[..i] + t.rows[i + 1..];
    if m in t.rows && m.userId != t.rows[i].userId {
      var j :| 0 <= j < |t.rows| && t.rows[j] == m;
      assert left[if j < i then j else j - 1] == m;
    }
    if m in left {
      var j :| 0 <= j < |left| && left[j] == m;
      assert t.rows[if j < i then j else j + 1] == m;
    }
  }

  lemma RowGone(t: Table, i: nat)
    requires Proper(t) && i < |t.rows|
    ensures forall u: Id, x: Role :: HoldsRole(t.(rows := t.rows[..i] + t.rows[i + 1..]), u, x) <==>
              u != t.rows[i].userId && HoldsRole(t, u, x)
  {
    var next := t.(rows := t.rows[..i] + t.rows[i + 1..]);
    forall u: Id, x: Role ensures HoldsRole(next, u, x) <==> u != t.rows[i].userId && HoldsRole(t, u, x) {
      if m :| m in next.rows && m.userId == u && m.role == x {
        RowsLeft(t, i, m);
      }
      if m :| m in t.rows && m.userId == u && m.role == x {
        RowsLeft(t, i, m);
      }
    }
  }

  /** Without a role to change, and without a transfer, nothing happens to a member. */
  lemma NoChange(t: Table, m: Member, who: Option<Principal>)
    requires Proper(t) && m in t.rows
    ensures var (next, r) := Update(t, m.id, RoleChange.Keep, false, who); next == t && (r.Ok? <==> Manages(t, who))
  {
    MemberAt(t, m);
    ManagesWhen(t, who);
  }

  function RoleName(role: Role): string {
    match role
    case Owner => "owner"
    case LeadInvestigator => "lead_investigator"
    case Investigator => "investigator"
    case Analyst => "analyst"
    case Reviewer => "reviewer"
    case Viewer => "viewer"
  }

  /** A role is read from exactly its own name. */
  lemma RoleRead(s: string, role: Role)
    ensures ParseRole(s) == Some(role) <==> s == RoleName(role)
  {
    assert "owner"[0] == 'o' && "lead_investigator"[0] == 'l' && "investigator"[0] == 'i' && "analyst"[0] == 'a'
           && "reviewer"[0] == 'r' && "viewer"[0] == 'v';
  }
}
