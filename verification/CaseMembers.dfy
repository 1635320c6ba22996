/** Membership of one case (backend/app/collaboration/service.py:94-258): who may change it, and
    why a case never loses its last owner. */
module CaseMembers {
  import opened Bags
  import opened Options

  type Id = nat

  datatype Role = Owner | LeadInvestigator | Investigator | Analyst | Reviewer | Viewer

  /** A stored membership. */
  datatype Member = Member(id: Id, userId: Id, role: Role)

  /** Who asks; a call without a principal is made by the system itself. */
  datatype Principal = Principal(userId: Id, managesUsers: bool)

  datatype Error = Forbidden | NotFound | UnknownRole | AlreadyMember | LastOwner

  datatype Result<+T> = Ok(value: T) | Err(error: Error)

  /** The memberships of a case, and the source of fresh identifiers. */
  datatype Table = Table(rows: seq<Member>, nextId: Id)

  const EMPTY := Table([], 0)

  function ParseRole(s: string): Option<Role> {
    if s == "owner" then Some(Owner)
    else if s == "lead_investigator" then Some(LeadInvestigator)
    else if s == "investigator" then Some(Investigator)
    else if s == "analyst" then Some(Analyst)
    else if s == "reviewer" then Some(Reviewer)
    else if s == "viewer" then Some(Viewer)
    else None
  }

  predicate IsOwner(m: Member) { m.role == Owner }

  function CountOwners(rows: seq<Member>): nat { Count(rows, IsOwner) }

  /** Position of the row that satisfies `p`. */
  function Find(rows: seq<Member>, p: Member -> bool): (i: Option<nat>)
    ensures i.Some? ==> i.value < |rows| && p(rows[i.value])
    ensures i.None? ==> forall m :: m in rows ==> !p(m)
  {
    if rows == [] then None
    else if p(rows[|rows| - 1]) then Some(|rows| - 1)
    else Find(rows[..|rows| - 1], p)
  }

  /** Position of a user's membership. */
  function OfUser(rows: seq<Member>, userId: Id): Option<nat> { Find(rows, (m: Member) => m.userId == userId) }

  /** Position of a membership. */
  function OfMember(rows: seq<Member>, id: Id): Option<nat> { Find(rows, (m: Member) => m.id == id) }

  predicate CanManage(rows: seq<Member>, who: Option<Principal>) {
    || who.None?
    || who.value.managesUsers
    || (OfUser(rows, who.value.userId).Some?
        && (var role := rows[OfUser(rows, who.value.userId).value].role; role == Owner || role == LeadInvestigator))
  }

  function WithRole(rows: seq<Member>, i: nat, role: Role): seq<Member>
    requires i < |rows|
  {
    rows[i := rows[i].(role := role)]
  }

  // ----- the calls on values -------------------------------------------------------------

  /** Adding a user; `role` is missing when it could not be read. */
  function Add(t: Table, users: set<Id>, userId: Id, role: Option<Role>, who: Option<Principal>): (Table, Result<Id>) {
    if !CanManage(t.rows, who) then (t, Err(Forbidden))
    else if userId !in users then (t, Err(NotFound))
    else if role.None? then (t, Err(UnknownRole))
    else if OfUser(t.rows, userId).Some? then (t, Err(AlreadyMember))
    else (Table(t.rows + [Member(t.nextId, userId, role.value)], t.nextId + 1), Ok(t.nextId))
  }

  /** Whether a transfer is allowed: by an owner, or by an administrator of users. */
  predicate CanTransfer(rows: seq<Member>, who: Principal) {
    || who.managesUsers
    || (OfUser(rows, who.userId).Some? && rows[OfUser(rows, who.userId).value].role == Owner)
  }

  /** The asking member, if any, becomes lead investigator, and the named member owner. */
  function Transferred(rows: seq<Member>, i: nat, who: Principal): seq<Member>
    requires i < |rows|
  {
    var mine := OfUser(rows, who.userId);
    WithRole(if mine.Some? then WithRole(rows, mine.value, LeadInvestigator) else rows, i, Owner)
  }

  /** What an update asks of the role. */
  datatype RoleChange = Keep | Unreadable | To(role: Role)

  function ReadRole(role: Option<string>): RoleChange {
    if role.None? then RoleChange.Keep
    else if ParseRole(role.value).None? then Unreadable
    else To(ParseRole(role.value).value)
  }

  function Update(t: Table, id: Id, role: RoleChange, transfer: bool, who: Option<Principal>): (Table, Result<()>) {
    if !CanManage(t.rows, who) then (t, Err(Forbidden))
    else if OfMember(t.rows, id).None? then (t, Err(NotFound))
    else
      var i := OfMember(t.rows, id).value;
      if transfer then
        if who.None? || !CanTransfer(t.rows, who.value) then (t, Err(Forbidden))
        else (t.(rows := Transferred(t.rows, i, who.value)), Ok(()))
      else
        match role
        case Keep => (t, Ok(()))
        case Unreadable => (t, Err(UnknownRole))
        case To(wanted) =>
          if t.rows[i].role == Owner && wanted != Owner && CountOwners(t.rows) <= 1 then (t, Err(LastOwner))
          else (t.(rows := WithRole(t.rows, i, wanted)), Ok(()))
  }

  function Remove(t: Table, id: Id, who: Option<Principal>): (Table, Result<()>) {
    if !CanManage(t.rows, who) then (t, Err(Forbidden))
    else if OfMember(t.rows, id).None? then (t, Err(NotFound))
    else
      var i := OfMember(t.rows, id).value;
      if t.rows[i].role == Owner && CountOwners(t.rows) <= 1 then (t, Err(LastOwner))
      else (t.(rows := t.rows[..i] + t.rows[i + 1..]), Ok(()))
  }

  // ----- the stored table ----------------------------------------------------------------

  class Membership {
    var rows: seq<Member>
    var nextId: Id

    function View(): Table
      reads this
    {
      Table(rows, nextId)
    }

    constructor ()
      ensures View() == EMPTY
    {
      rows, nextId := [], 0;
    }

    method AddMember(users: set<Id>, userId: Id, role: string, who: Option<Principal>) returns (r: Result<Id>)
      modifies this
      ensures (View(), r) == Add(old(View()), users, userId, ParseRole(role), who)
    {
      if !CanManage(rows, who) {
        return Err(Forbidden);
      }
      if userId !in users {
        return Err(NotFound);
      }
      var parsed := ParseRole(role);
      if parsed.None? {
        return Err(UnknownRole);
      }
      var existing := OfUser(rows, userId);
      if existing.Some? {
        return Err(AlreadyMember);
      }
      rows := rows + [Member(nextId, userId, parsed.value)];
      nextId := nextId + 1;
      return Ok(nextId - 1);
    }

    method UpdateMember(id: Id, role: Option<string>, transfer: bool, who: Option<Principal>) returns (r: Result<()>)
      modifies this
      ensures (View(), r) == Update(old(View()), id, ReadRole(role), transfer, who)
    {
      if !CanManage(rows, who) {
        return Err(Forbidden);
      }
      var found := OfMember(rows, id);
      if found.None? {
        return Err(NotFound);
      }
      var i := found.value;
      if transfer {
        if who.None? {
          return Err(Forbidden);
        }
        var mine := OfUser(rows, who.value.userId);
        if mine.None? || rows[mine.value].role != Owner {
          if !who.value.managesUsers {
            return Err(Forbidden);
          }
        }
        if mine.Some? {
          rows := rows[mine.value := rows[mine.value].(role := LeadInvestigator)];
        }
        rows := rows[i := rows[i].(role := Owner)];
      } else if role.Some? {
        var parsed := ParseRole(role.value);
        if parsed.None? {
          return Err(UnknownRole);
        }
        if rows[i].role == Owner && parsed.value != Owner && CountOwners(rows) <= 1 {
          return Err(LastOwner);
        }
        rows := rows[i := rows[i].(role := parsed.value)];
      }
      return Ok(());
    }

    method RemoveMember(id: Id, who: Option<Principal>) returns (r: Result<()>)
      modifies this
      ensures (View(), r) == Remove(old(View()), id, who)
    {
      if !CanManage(rows, who) {
        return Err(Forbidden);
      }
      var found := OfMember(rows, id);
      if found.None? {
        return Err(NotFound);
      }
      if rows[found.value].role == Owner && CountOwners(rows) <= 1 {
        return Err(LastOwner);
      }
      rows := rows[..found.value] + rows[found.value + 1..];
      return Ok(());
    }
  }

  // ----- histories -----------------------------------------------------------------------

  datatype Request =
    | AddRequest(users: set<Id>, userId: Id, newRole: Option<Role>, who: Option<Principal>)
    | UpdateRequest(id: Id, change: RoleChange, transfer: bool, who: Option<Principal>)
    | RemoveRequest(id: Id, who: Option<Principal>)

  function Step(t: Table, q: Request): Table {
    match q
    case AddRequest(users, userId, role, who) => Add(t, users, userId, role, who).0
    case UpdateRequest(id, change, transfer, who) => Update(t, id, change, transfer, who).0
    case RemoveRequest(id, who) => Remove(t, id, who).0
  }

  function After(t: Table, requests: seq<Request>): Table {
    if requests == [] then t else Step(After(t, requests[..|requests| - 1]), requests[|requests| - 1])
  }

  ghost predicate HasOwner(t: Table) { exists m :: m in t.rows && IsOwner(m) }

  /** No user has two memberships, and identifiers are not reused. */
  ghost predicate Proper(t: Table) {
    && (forall i, j :: 0 <= i < j < |t.rows| ==> t.rows[i].userId != t.rows[j].userId && t.rows[i].id != t.rows[j].id)
    && (forall i :: 0 <= i < |t.rows| ==> t.rows[i].id < t.nextId)
  }

  lemma OneMore(before: seq<Member>, m: Member, after: seq<Member>)
    ensures CountOwners(before + [m] + after) == CountOwners(before + after) + if IsOwner(m) then 1 else 0
  {
    KeepSplit(before + [m], after, IsOwner);
    KeepSplit(before, [m], IsOwner);
    KeepSplit(before, after, IsOwner);
    assert [m][1..] == [];
  }

  /** Taking away one row leaves an owner, unless it was the only one. */
  lemma OwnerElsewhere(rows: seq<Member>, i: nat) returns (j: nat)
    requires i < |rows| && CountOwners(rows) > (if IsOwner(rows[i]) then 1 else 0)
    ensures j < |rows| && j != i && IsOwner(rows[j])
  {
    var others := rows[..i] + rows[i + 1..];
    assert rows == rows[..i] + [rows[i]] + rows[i + 1..];
    OneMore(rows[..i], rows[i], rows[i + 1..]);
    CountPositive(others, IsOwner);
    var m :| m in others && IsOwner(m);
    var k :| 0 <= k < |others| && others[k] == m;
    j := if k < i then k else k + 1;
  }

  lemma OwnersCounted(t: Table)
    ensures HasOwner(t) <==> CountOwners(t.rows) > 0
  {
    CountPositive(t.rows, IsOwner);
  }

  lemma OwnerAt(t: Table, j: nat)
    requires j < |t.rows| && IsOwner(t.rows[j])
    ensures HasOwner(t)
  {
    assert t.rows[j] in t.rows;
  }

  lemma UpdateKeepsOwner(t: Table, id: Id, change: RoleChange, transfer: bool, who: Option<Principal>)
    requires HasOwner(t)
    ensures HasOwner(Update(t, id, change, transfer, who).0)
  {
    OwnersCounted(t);
    var next := Update(t, id, change, transfer, who).0;
    if next != t {
      var i := OfMember(t.rows, id).value;
      if transfer || change.role == Owner {
        OwnerAt(next, i);
      } else {
        var j := OwnerElsewhere(t.rows, i);
        OwnerAt(next, j);
      }
    }
  }

  lemma RemoveKeepsOwner(t: Table, id: Id, who: Option<Principal>)
    requires HasOwner(t)
    ensures HasOwner(Remove(t, id, who).0)
  {
    OwnersCounted(t);
    var next := Remove(t, id, who).0;
    if next != t {
      var i := OfMember(t.rows, id).value;
      var j := OwnerElsewhere(t.rows, i);
      OwnerAt(next, if j < i then j else j - 1);
    }
  }

  lemma StepKeepsOwner(t: Table, q: Request)
    requires HasOwner(t)
    ensures HasOwner(Step(t, q))
  {
    match q {
      case AddRequest(users, userId, role, who) =>
        var m :| m in t.rows && IsOwner(m);
        assert m in Step(t, q).rows;
      case UpdateRequest(id, change, transfer, who) => UpdateKeepsOwner(t, id, change, transfer, who);
      case RemoveRequest(id, who) => RemoveKeepsOwner(t, id, who);
    }
  }

  /** Once a case has an owner it always has one: through promotions, demotions, removals, and
      transfers to anyone, oneself included, by owners and administrators. */
  lemma {:induction false} AlwaysAnOwner(t: Table, requests: seq<Request>)
    requires HasOwner(t)
    ensures HasOwner(After(t, requests))
  {
    if requests != [] {
      AlwaysAnOwner(t, requests[..|requests| - 1]);
      StepKeepsOwner(After(t, requests[..|requests| - 1]), requests[|requests| - 1]);
    }
  }

  lemma AddKeepsProper(t: Table, users: set<Id>, userId: Id, role: Option<Role>, who: Option<Principal>)
    requires Proper(t)
    ensures Proper(Add(t, users, userId, role, who).0)
  {
    if OfUser(t.rows, userId).None? {
      forall i | 0 <= i < |t.rows| ensures t.rows[i].userId != userId {
        assert t.rows[i] in t.rows;
      }
    }
  }

  lemma RolesKeepProper(t: Table, i: nat, role: Role)
    requires Proper(t) && i < |t.rows|
    ensures Proper(t.(rows := WithRole(t.rows, i, role)))
  {}

  lemma UpdateKeepsProper(t: Table, id: Id, change: RoleChange, transfer: bool, who: Option<Principal>)
    requires Proper(t)
    ensures Proper(Update(t, id, change, transfer, who).0)
  {
    if OfMember(t.rows, id).Some? {
      var i := OfMember(t.rows, id).value;
      if transfer && who.Some? {
        var mine := OfUser(t.rows, who.value.userId);
        if mine.Some? {
          RolesKeepProper(t, mine.value, LeadInvestigator);
          RolesKeepProper(t.(rows := WithRole(t.rows, mine.value, LeadInvestigator)), i, Owner);
        } else {
          RolesKeepProper(t, i, Owner);
        }
      } else if change.To? {
        RolesKeepProper(t, i, change.role);
      }
    }
  }

  lemma StepKeepsProper(t: Table, q: Request)
    requires Proper(t)
    ensures Proper(Step(t, q))
  {
    match q {
      case AddRequest(users, userId, role, who) => AddKeepsProper(t, users, userId, role, who);
      case UpdateRequest(id, change, transfer, who) => UpdateKeepsProper(t, id, change, transfer, who);
      case RemoveRequest(id, who) =>
    }
  }

  /** In no history does a user hold two memberships of the case. */
  lemma {:induction false} OneMembershipEach(requests: seq<Request>)
    ensures Proper(After(EMPTY, requests))
  {
    if requests != [] {
      OneMembershipEach(requests[..|requests| - 1]);
      StepKeepsProper(After(EMPTY, requests[..|requests| - 1]), requests[|requests| - 1]);
    }
  }

  /** Only the system, administrators of users, owners and lead investigators change anything. */
  lemma OthersChangeNothing(t: Table, q: Request)
    requires Proper(t) && q.who.Some? && !q.who.value.managesUsers
    requires forall m :: m in t.rows && m.userId == q.who.value.userId ==> m.role != Owner && m.role != LeadInvestigator
    ensures Step(t, q) == t
  {}

  /** A transfer leaves exactly the other owners, and the new one: the number of owners does not
      grow when an owner hands over, and does not change when it is handed to oneself. */
  lemma TransferCounts(t: Table, i: nat, who: Principal)
    requires Proper(t) && i < |t.rows|
    requires OfUser(t.rows, who.userId).Some? && t.rows[OfUser(t.rows, who.userId).value].role == Owner
    ensures var next := Transferred(t.rows, i, who);
            CountOwners(next) == CountOwners(t.rows) - (if IsOwner(t.rows[i]) && t.rows[i].userId != who.userId then 1 else 0)
    ensures forall k :: 0 <= k < |t.rows| && k != i && t.rows[k].userId != who.userId ==> Transferred(t.rows, i, who)[k] == t.rows[k]
  {
    var mine := OfUser(t.rows, who.userId).value;
    var demoted := WithRole(t.rows, mine, LeadInvestigator);
    ChangeCounts(t.rows, mine, LeadInvestigator);
    ChangeCounts(demoted, i, Owner);
  }

  lemma ChangeCounts(rows: seq<Member>, i: nat, role: Role)
    requires i < |rows|
    ensures CountOwners(WithRole(rows, i, role)) ==
            CountOwners(rows) - (if IsOwner(rows[i]) then 1 else 0) + if role == Owner then 1 else 0
  {
    var changed := WithRole(rows, i, role);
    assert rows == rows[..i] + [rows[i]] + rows[i + 1..];
    assert changed == rows[..i] + [changed[i]] + rows[i + 1..];
    OneMore(rows[..i], rows[i], rows[i + 1..]);
    OneMore(rows[..i], changed[i], rows[i + 1..]);
  }

  /** A manager's demotion or removal is refused exactly when it would leave the case without any
      owner it had. */
  lemma RefusedWhenOwnerless(t: Table, id: Id, role: Role, who: Option<Principal>)
    requires CanManage(t.rows, who) && OfMember(t.rows, id).Some?
    ensures var i := OfMember(t.rows, id).value;
            && (Update(t, id, To(role), false, who).1 == Err(LastOwner) <==>
                  HasOwner(t) && !HasOwner(t.(rows := WithRole(t.rows, i, role))))
            && (Remove(t, id, who).1 == Err(LastOwner) <==>
                  HasOwner(t) && !HasOwner(t.(rows := t.rows[..i] + t.rows[i + 1..])))
  {
    var i := OfMember(t.rows, id).value;
    OwnersCounted(t);
    OwnersCounted(t.(rows := WithRole(t.rows, i, role)));
    OwnersCounted(t.(rows := t.rows[..i] + t.rows[i + 1..]));
    ChangeCounts(t.rows, i, role);
    RemovalCounts(t.rows, i);
  }

  lemma RemovalCounts(rows: seq<Member>, i: nat)
    requires i < |rows|
    ensures CountOwners(rows[..i] + rows[i + 1..]) == CountOwners(rows) - if IsOwner(rows[i]) then 1 else 0
  {
    assert rows == rows[..i] + [rows[i]] + rows[i + 1..];
    OneMore(rows[..i], rows[i], rows[i + 1..]);
  }
}
