/** Roles, what they may do, and the changes of role and removals of members of one organization. */
module Permissions {
  import opened Text

  datatype Role = VIEWER | STAFF | ADMIN | OWNER

  datatype Permission =
    | ServerRead | ServerWrite | ServerDelete | CredentialManage | CommandIssue | ConfigurationWrite
    | AlertRead | AlertTriage | IncidentRead | IncidentWrite | MemberRead | MemberManage | OwnerManage
    | AuditRead | AnalyticsRead | BillingManage | OrganizationDelete | NotificationManage
    | DetectionRead | BanRead | BanManage | RuleRead | RuleManage | AnticheatConfigure

  /** The matrix grants each role its permissions one by one, without inheritance. */
  function Grants(role: Role): set<Permission>
  {
    match role
    case OWNER => {DetectionRead, BanRead, BanManage, RuleRead, RuleManage, AnticheatConfigure, ServerRead,
                   ServerWrite, ServerDelete, CredentialManage, CommandIssue, ConfigurationWrite, AlertRead,
                   AlertTriage, IncidentRead, IncidentWrite, MemberRead, MemberManage, OwnerManage, AuditRead,
                   AnalyticsRead, BillingManage, OrganizationDelete, NotificationManage}
    case ADMIN => {DetectionRead, BanRead, BanManage, RuleRead, RuleManage, AnticheatConfigure, ServerRead,
                   ServerWrite, ServerDelete, CredentialManage, CommandIssue, ConfigurationWrite, AlertRead,
                   AlertTriage, IncidentRead, IncidentWrite, MemberRead, MemberManage, AuditRead, AnalyticsRead,
                   NotificationManage}
    case STAFF => {DetectionRead, BanRead, BanManage, RuleRead, ServerRead, AlertRead, AlertTriage, IncidentRead,
                   IncidentWrite, MemberRead, AnalyticsRead}
    case VIEWER => {DetectionRead, BanRead, RuleRead, ServerRead, AlertRead, IncidentRead, MemberRead, AnalyticsRead}
  }

  predicate Can(role: Role, p: Permission) { p in Grants(role) }

  function Rank(role: Role): nat
  {
    match role case VIEWER => 0 case STAFF => 1 case ADMIN => 2 case OWNER => 3
  }

  /** Although nothing is inherited, a higher rank can do everything that a lower rank can. */
  lemma HigherRankCanMore(low: Role, high: Role, p: Permission)
    requires Rank(low) <= Rank(high) && Can(low, p)
    ensures Can(high, p)
  {
  }

  lemma OwnersCanAll(p: Permission)
    ensures Can(OWNER, p)
    ensures p == OwnerManage || p == BillingManage || p == OrganizationDelete <==> !Can(ADMIN, p)
  {
    match p
    case ServerRead => case ServerWrite => case ServerDelete => case CredentialManage => case CommandIssue =>
    case ConfigurationWrite => case AlertRead => case AlertTriage => case IncidentRead => case IncidentWrite =>
    case MemberRead => case MemberManage => case OwnerManage => case AuditRead => case AnalyticsRead =>
    case BillingManage => case OrganizationDelete => case NotificationManage => case DetectionRead =>
    case BanRead => case BanManage => case RuleRead => case RuleManage => case AnticheatConfigure =>
  }

  /** The least role that has a permission. */
  ghost function LeastRole(p: Permission): Role
  {
    match p
    case OwnerManage => OWNER case BillingManage => OWNER case OrganizationDelete => OWNER
    case BanManage => STAFF case AlertTriage => STAFF case IncidentWrite => STAFF
    case DetectionRead => VIEWER case BanRead => VIEWER case RuleRead => VIEWER case ServerRead => VIEWER
    case AlertRead => VIEWER case IncidentRead => VIEWER case MemberRead => VIEWER case AnalyticsRead => VIEWER
    case _ => ADMIN
  }

  ghost predicate AtLeast(role: Role, least: Role)
  {
    match least
    case VIEWER => true
    case STAFF => role != VIEWER
    case ADMIN => role == ADMIN || role == OWNER
    case OWNER => role == OWNER
  }

  /** The matrix grants a permission to its least role and to every role above it, and to no other. */
  lemma MatrixExactly(role: Role, p: Permission)
    ensures Can(role, p) <==> AtLeast(role, LeastRole(p))
  {
    match p
    case ServerRead => case ServerWrite => case ServerDelete => case CredentialManage => case CommandIssue =>
    case ConfigurationWrite => case AlertRead => case AlertTriage => case IncidentRead => case IncidentWrite =>
    case MemberRead => case MemberManage => case OwnerManage => case AuditRead => case AnalyticsRead =>
    case BillingManage => case OrganizationDelete => case NotificationManage => case DetectionRead =>
    case BanRead => case BanManage => case RuleRead => case RuleManage => case AnticheatConfigure =>
  }

  lemma RanksExactly(a: Role, b: Role)
    ensures Rank(a) <= Rank(b) <==> AtLeast(b, a)
  {
  }

  datatype Refusal = SelfElevation | SelfDemotionLastOwner | OwnerRequiresOwner | LastOwnerRemoval
                   | InsufficientPermission

  function CheckRoleChange(actorRole: Role, actorUser: string, targetUser: string, current: Role, wanted: Role,
                           ownerCount: nat): Option<Refusal>
  {
    var isSelf := actorUser == targetUser;
    if !Can(actorRole, MemberManage) then Some(InsufficientPermission)
    else if isSelf && Rank(wanted) > Rank(current) then Some(SelfElevation)
    else if (wanted == OWNER || current == OWNER) && !Can(actorRole, OwnerManage) then Some(OwnerRequiresOwner)
    else if current == OWNER && wanted != OWNER && ownerCount <= 1 then
      Some(if isSelf then SelfDemotionLastOwner else LastOwnerRemoval)
    else None
  }

  function CheckMemberRemoval(actorRole: Role, targetRole: Role, ownerCount: nat): Option<Refusal>
  {
    if !Can(actorRole, MemberManage) then Some(InsufficientPermission)
    else if targetRole == OWNER && !Can(actorRole, OwnerManage) then Some(OwnerRequiresOwner)
    else if targetRole == OWNER && ownerCount <= 1 then Some(LastOwnerRemoval)
    else None
  }

  /**
   * A role is changed by an ADMIN or OWNER: not upwards by its holder, to or from OWNER by an OWNER only, and not away
   * from the last OWNER. The first of these rules that is broken is the reason given.
   */
  lemma RoleChangeExactly(actorRole: Role, actor: string, target: string, current: Role, wanted: Role, owners: nat)
    ensures var r := CheckRoleChange(actorRole, actor, target, current, wanted, owners);
            var raises := actor == target && !AtLeast(current, wanted);
            && (!AtLeast(actorRole, ADMIN) ==> r == Some(InsufficientPermission))
            && (AtLeast(actorRole, ADMIN) && raises ==> r == Some(SelfElevation))
            && (actorRole == ADMIN && !raises && (current == OWNER || wanted == OWNER) ==>
                  r == Some(OwnerRequiresOwner))
            && (actorRole == OWNER && !raises && current == OWNER && wanted != OWNER && owners <= 1 ==>
                  r == Some(if actor == target then SelfDemotionLastOwner else LastOwnerRemoval))
            && (r == None <==> AtLeast(actorRole, ADMIN) && !raises
                               && (current == OWNER || wanted == OWNER ==> actorRole == OWNER)
                               && (current == OWNER && wanted != OWNER ==> owners > 1))
  {
    MatrixExactly(actorRole, MemberManage);
    MatrixExactly(actorRole, OwnerManage);
    RanksExactly(wanted, current);
  }

  /** A member is removed by an ADMIN or OWNER, an OWNER by an OWNER only, and the last OWNER by nobody. */
  lemma RemovalExactly(actorRole: Role, target: Role, owners: nat)
    ensures CheckMemberRemoval(actorRole, target, owners)
         == if !AtLeast(actorRole, ADMIN) then Some(InsufficientPermission)
            else if target == OWNER && actorRole != OWNER then Some(OwnerRequiresOwner)
            else if target == OWNER && owners <= 1 then Some(LastOwnerRemoval) else None
  {
    MatrixExactly(actorRole, MemberManage);
    MatrixExactly(actorRole, OwnerManage);
  }

  // ------------------------------------------------------------------ memberships

  datatype Member = Member(user: string, role: Role)

  type Members = map<string, Member>

  function Owners(m: Members): set<string> { set id | id in m && m[id].role == OWNER }

  predicate OneRowPerUser(m: Members)
  {
    forall i, j | i in m && j in m :: m[i].user == m[j].user ==> i == j
  }

  /** A request carries the role that its actor had when the session was resolved. */
  datatype Op =
    | Change(actor: string, actorRole: Role, id: string, role: Role)
    | Remove(actor: string, actorRole: Role, id: string)

  /** None when the request is carried out. */
  datatype Reply = Carried | NotFound | Forbidden(refusal: Refusal)

  /** What the request decides from the row it locked and the owners it counted. */
  function Decide(m: Members, op: Op): Reply
  {
    if op.id !in m then NotFound
    else
      var target := m[op.id];
      var refusal := match op
        case Change(actor, actorRole, _, role) =>
          CheckRoleChange(actorRole, actor, target.user, target.role, role, |Owners(m)|)
        case Remove(_, actorRole, _) => CheckMemberRemoval(actorRole, target.role, |Owners(m)|);
      if refusal.Some? then Forbidden(refusal.value) else Carried
  }

  function Write(m: Members, op: Op): Members
  {
    match op
    case Change(_, _, id, role) => if id in m then m[id := m[id].(role := role)] else m
    case Remove(_, _, id) => m - {id}
  }

  function Apply(m: Members, op: Op): Members { if Decide(m, op) == Carried then Write(m, op) else m }

  function Run(m: Members, ops: seq<Op>): Members
    decreases |ops|
  {
    if ops == [] then m else Run(Apply(m, ops[0]), ops[1..])
  }

  class Organization {
    var members: Members

    constructor (id: string, founder: string)
      ensures members == map[id := Member(founder, OWNER)]
    {
      members := map[id := Member(founder, OWNER)];
    }

    method ChangeRole(actor: string, actorRole: Role, id: string, role: Role) returns (reply: Reply)
      modifies this
      ensures reply == Decide(old(members), Change(actor, actorRole, id, role))
      ensures members == Apply(old(members), Change(actor, actorRole, id, role))
      ensures reply == NotFound <==> id !in old(members)
      ensures id in old(members) ==>
                var target, owners := old(members)[id], |set x | x in old(members) && old(members)[x].role == OWNER|;
                reply == match CheckRoleChange(actorRole, actor, target.user, target.role, role, owners)
                         case Some(refusal) => Forbidden(refusal) case None => Carried
      ensures members == if reply == Carried then old(members)[id := Member(old(members)[id].user, role)]
                         else old(members)
    {
      if id !in members {
        return NotFound;
      }
      var target := members[id];
      var refusal := CheckRoleChange(actorRole, actor, target.user, target.role, role, |Owners(members)|);
      if refusal.Some? {
        return Forbidden(refusal.value);
      }
      members := members[id := target.(role := role)];
      return Carried;
    }

    method RemoveMember(actor: string, actorRole: Role, id: string) returns (reply: Reply)
      modifies this
      ensures reply == Decide(old(members), Remove(actor, actorRole, id))
      ensures members == Apply(old(members), Remove(actor, actorRole, id))
      ensures reply == NotFound <==> id !in old(members)
      ensures id in old(members) ==>
                var owners := |set x | x in old(members) && old(members)[x].role == OWNER|;
                reply == match CheckMemberRemoval(actorRole, old(members)[id].role, owners)
                         case Some(refusal) => Forbidden(refusal) case None => Carried
      ensures members == if reply == Carried then old(members) - {id} else old(members)
    {
      if id !in members {
        return NotFound;
      }
      var refusal := CheckMemberRemoval(actorRole, members[id].role, |Owners(members)|);
      if refusal.Some? {
        return Forbidden(refusal.value);
      }
      members := members - {id};
      return Carried;
    }
  }

  // ------------------------------------------------------------------ serial runs

  predicate Drops(m: Members, op: Op)
  {
    op.id in m && m[op.id].role == OWNER && (op.Change? ==> op.role != OWNER)
  }

  predicate Adds(m: Members, op: Op)
  {
    op.id in m && op.Change? && op.role == OWNER && m[op.id].role != OWNER
  }

  /** Carrying out a request removes its target from the owners, adds it, or leaves the owners alone. */
  lemma WriteOwners(m: Members, op: Op)
    ensures Owners(Write(m, op)) == if Drops(m, op) then Owners(m) - {op.id}
                                    else if Adds(m, op) then Owners(m) + {op.id} else Owners(m)
  {
    var owners := Owners(Write(m, op));
    forall id ensures id in owners <==> id in (if Drops(m, op) then Owners(m) - {op.id}
                                    else if Adds(m, op) then Owners(m) + {op.id} else Owners(m)) {
    }
  }

  /** Whatever role the actor is taken to have, a carried request leaves an owner. */
  lemma StepKeepsAnOwner(m: Members, op: Op)
    requires Owners(m) != {}
    ensures Owners(Apply(m, op)) != {}
  {
    WriteOwners(m, op);
    if Decide(m, op) == Carried && Drops(m, op) {
      assert |Owners(m) - {op.id}| == |Owners(m)| - 1 > 0;
    }
  }

  /** Over every run of requests executed one after the other, at least one OWNER remains. */
  lemma {:induction false} AnOwnerRemains(m: Members, ops: seq<Op>)
    requires Owners(m) != {}
    ensures Owners(Run(m, ops)) != {}
    decreases |ops|
  {
    if ops != [] {
      StepKeepsAnOwner(m, ops[0]);
      AnOwnerRemains(Apply(m, ops[0]), ops[1..]);
    }
  }

  /** No request raises the actor's own role, even when the role it was resolved with is out of date. */
  lemma NobodyRaisesThemselves(m: Members, op: Op, id: string)
    requires id in m && m[id].user == op.actor && id in Apply(m, op)
    ensures Rank(Apply(m, op)[id].role) <= Rank(m[id].role)
  {
  }

  lemma OnlyOwnersManageOwners(role: Role)
    ensures Can(role, OwnerManage) <==> role == OWNER
  {
    match role case VIEWER => case STAFF => case ADMIN => case OWNER =>
  }

  lemma NonOwnerCarries(m: Members, op: Op)
    requires op.actorRole != OWNER && Decide(m, op) == Carried
    ensures !Drops(m, op) && !Adds(m, op)
  {
    OnlyOwnersManageOwners(op.actorRole);
  }

  lemma NonOwnerStep(m: Members, op: Op)
    requires op.actorRole != OWNER
    ensures Owners(Apply(m, op)) == Owners(m)
  {
    if Decide(m, op) == Carried {
      NonOwnerCarries(m, op);
      WriteOwners(m, op);
    }
  }

  /** A run whose actors are never OWNER leaves the set of OWNERs as it was. */
  lemma {:induction false} OnlyOwnersChangeOwners(m: Members, ops: seq<Op>)
    requires forall op | op in ops :: op.actorRole != OWNER
    ensures Owners(Run(m, ops)) == Owners(m)
    decreases |ops|
  {
    if ops != [] {
      assert ops[0] in ops && forall op | op in ops[1..] :: op in ops;
      NonOwnerStep(m, ops[0]);
      OnlyOwnersChangeOwners(Apply(m, ops[0]), ops[1..]);
    }
  }

  lemma {:induction false} RowsStayUnique(m: Members, ops: seq<Op>)
    requires OneRowPerUser(m)
    ensures OneRowPerUser(Run(m, ops))
    decreases |ops|
  {
    if ops != [] { RowsStayUnique(Apply(m, ops[0]), ops[1..]); }
  }

  // ----------------------------------------------------------- overlapping requests

  /** Writing one row neither gives nor takes the ownership of another. */
  lemma WriteElsewhere(m: Members, first: Op, second: Op)
    requires first.id != second.id
    ensures Drops(Write(m, first), second) == Drops(m, second) && Adds(Write(m, first), second) == Adds(m, second)
  {
  }

  lemma TwoFewer(owners: set<string>, a: string, b: string)
    requires a in owners && b in owners && a != b
    ensures |owners - {a} - {b}| == |owners| - 2
  {
    assert |owners - {a}| == |owners| - 1;
  }

  lemma DropLeaves(m: Members, op: Op)
    requires Decide(m, op) == Carried && Drops(m, op)
    ensures op.id in Owners(m) && |Owners(m) - {op.id}| == |Owners(m)| - 1 > 0
  {
  }

  /**
   * Two requests on different rows lock different rows, so both may count the owners before either writes. Then
   * an owner remains exactly when they are not both taking away one of only two owners.
   */
  lemma OverlappingRequests(m: Members, first: Op, second: Op)
    requires Owners(m) != {} && first.id != second.id
    requires Decide(m, first) == Carried && Decide(m, second) == Carried
    ensures Owners(Write(Write(m, first), second)) != {}
       <==> !(Drops(m, first) && Drops(m, second) && |Owners(m)| == 2)
  {
    WriteOwners(m, first);
    WriteOwners(Write(m, first), second);
    WriteElsewhere(m, first, second);
    if Drops(m, first) && Drops(m, second) {
      DropLeaves(m, first);
      DropLeaves(m, second);
      TwoFewer(Owners(m), first.id, second.id);
    } else if Drops(m, first) {
      DropLeaves(m, first);
    } else if Drops(m, second) {
      DropLeaves(m, second);
      assert Owners(m) - {second.id} <= Owners(Write(Write(m, first), second));
    }
  }

  /** Two owners who demote each other at the same time leave an organization without an owner. */
  lemma MutualDemotion(a: string, b: string, alice: string, bob: string)
    requires a != b && alice != bob
    ensures var m := map[a := Member(alice, OWNER), b := Member(bob, OWNER)];
            var first, second := Change(alice, OWNER, b, VIEWER), Change(bob, OWNER, a, VIEWER);
            && Decide(m, first) == Carried && Decide(m, second) == Carried
            && Owners(Write(Write(m, first), second)) == {}
  {
    var m := map[a := Member(alice, OWNER), b := Member(bob, OWNER)];
    assert Owners(m) == {a, b};
    OverlappingRequests(m, Change(alice, OWNER, b, VIEWER), Change(bob, OWNER, a, VIEWER));
  }

  // ---------------------------------------------------------- accepting invitations

  predicate IsRowOf(m: Members, id: string, user: string) { id in m && m[id].user == user }

  /** A user who is already a member has the role overwritten; invitations are made for every role but OWNER. */
  ghost function Accept(m: Members, newId: string, user: string, role: Role): Members
  {
    if id :| IsRowOf(m, id, user) then m[id := m[id].(role := role)] else m[newId := Member(user, role)]
  }

  /** The one row of the user gets the role of the invitation; without one a row is added. */
  lemma AcceptExactly(m: Members, newId: string, user: string, role: Role)
    requires OneRowPerUser(m)
    ensures forall id | id in m && m[id].user == user :: Accept(m, newId, user, role) == m[id := Member(user, role)]
    ensures (forall id | id in m :: m[id].user != user) ==>
              Accept(m, newId, user, role) == m[newId := Member(user, role)]
  {
    forall id | id in m && m[id].user == user
      ensures Accept(m, newId, user, role) == m[id := Member(user, role)]
    {
      assert IsRowOf(m, id, user);
    }
  }

  lemma AcceptOwners(m: Members, newId: string, user: string, role: Role)
    requires OneRowPerUser(m) && newId !in m && role != OWNER
    ensures OneRowPerUser(Accept(m, newId, user, role))
    ensures Owners(Accept(m, newId, user, role)) == set id | id in Owners(m) && !IsRowOf(m, id, user)
  {
    var m' := Accept(m, newId, user, role);
    if id :| IsRowOf(m, id, user) {
      assert m' == m[id := m[id].(role := role)];
    } else {
      assert m' == m[newId := Member(user, role)] by {
        assert !exists id :: IsRowOf(m, id, user);
      }
      forall i | i in m ensures m[i].user != user { assert !IsRowOf(m, i, user); }
    }
  }

  /**
   * After any serial run of role changes and removals, accepting an invitation takes the last OWNER away exactly
   * when it is the last OWNER who accepts.
   */
  lemma AcceptingMayDemoteTheLastOwner(start: Members, ops: seq<Op>, newId: string, user: string, role: Role)
    requires OneRowPerUser(start) && Owners(start) != {} && newId !in Run(start, ops) && role != OWNER
    ensures var m := Run(start, ops);
            && OneRowPerUser(Accept(m, newId, user, role))
            && (Owners(Accept(m, newId, user, role)) == {}
                <==> exists id :: IsRowOf(m, id, user) && Owners(m) == {id})
  {
    var m := Run(start, ops);
    RowsStayUnique(start, ops);
    AnOwnerRemains(start, ops);
    AcceptOwners(m, newId, user, role);
    var left := Owners(Accept(m, newId, user, role));
    if left == {} {
      var id :| id in Owners(m);
      assert id !in left && IsRowOf(m, id, user);
      forall other | other in Owners(m) ensures other == id { assert other !in left; }
      assert Owners(m) == {id};
    }
  }
}
