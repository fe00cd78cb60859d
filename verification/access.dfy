/** Role-based access control (`RoleChecker`): a checker holds the names of
    the roles it admits, and a request passes when its access token names
    an existing, active account whose role is one of them. The five ACLs
    are nested, from administrators only to every role but `suspended`. */
module Access {
  import opened Common
  import opened AccountModels
  import opened AccountService

  datatype UserRole = Admin | TechnicalLead | Programmer | Operator | Viewer | Suspended

  /** The string value of each member. */
  function RoleValue(r: UserRole): string
  {
    match r
    case Admin => "admin"
    case TechnicalLead => "technical_lead"
    case Programmer => "programmer"
    case Operator => "operator"
    case Viewer => "viewer"
    case Suspended => "suspended"
  }

  /** Distinct members have distinct values. */
  lemma RoleValueInjective(a: UserRole, b: UserRole)
    requires RoleValue(a) == RoleValue(b)
    ensures a == b
  {
  }

  /** A checker: the values of the roles it admits. */
  datatype RoleChecker = RoleChecker(allowedRoles: seq<string>)

  /** `RoleChecker(roles)`: the values of the given members, in order. */
  function NewRoleChecker(roles: seq<UserRole>): (c: RoleChecker)
    ensures |c.allowedRoles| == |roles|
    ensures forall i :: 0 <= i < |roles| ==> c.allowedRoles[i] == RoleValue(roles[i])
  {
    if roles == [] then RoleChecker([])
    else
      var init := NewRoleChecker(roles[..|roles| - 1]);
      RoleChecker(init.allowedRoles + [RoleValue(roles[|roles| - 1])])
  }

  /** A checker admits the value of a member exactly when the member is in
      its list. */
  lemma CheckerHasRole(roles: seq<UserRole>, r: UserRole)
    ensures RoleValue(r) in NewRoleChecker(roles).allowedRoles <==> r in roles
  {
    var c := NewRoleChecker(roles);
    if RoleValue(r) in c.allowedRoles {
      var i :| 0 <= i < |c.allowedRoles| && c.allowedRoles[i] == RoleValue(r);
      RoleValueInjective(r, roles[i]);
    }
    if r in roles {
      var i :| 0 <= i < |roles| && roles[i] == r;
      assert c.allowedRoles[i] == RoleValue(r);
    }
  }

  /** Every name a checker admits is the value of a member in its list. */
  lemma CheckerValue(roles: seq<UserRole>, s: string)
    requires s in NewRoleChecker(roles).allowedRoles
    ensures exists r :: r in roles && RoleValue(r) == s
  {
    var c := NewRoleChecker(roles);
    var i :| 0 <= i < |c.allowedRoles| && c.allowedRoles[i] == s;
    assert roles[i] in roles;
  }

  const AclAdmin: seq<UserRole> := [Admin]
  const AclTechLead: seq<UserRole> := [Admin, TechnicalLead]
  const AclProgrammer: seq<UserRole> := [Admin, TechnicalLead, Programmer]
  const AclOperator: seq<UserRole> := [Admin, TechnicalLead, Programmer, Operator]
  const AclViewer: seq<UserRole> := [Admin, TechnicalLead, Programmer, Operator, Viewer]

  function RequireAdmin(): RoleChecker { NewRoleChecker(AclAdmin) }
  function RequireTechLead(): RoleChecker { NewRoleChecker(AclTechLead) }
  function RequireProgrammer(): RoleChecker { NewRoleChecker(AclProgrammer) }
  function RequireOperator(): RoleChecker { NewRoleChecker(AclOperator) }
  function RequireViewer(): RoleChecker { NewRoleChecker(AclViewer) }

  /** Why `__call__` refuses: an exception escaping from decoding or from
      reading the subject, or one of its three `HTTPException`s. */
  datatype AccessError =
    | Unhandled
    | UserNotFound
    | AccountSuspended
    | RoleNotAllowed(required: seq<string>, actual: string)

  /** The HTTP status each refusal produces. */
  function Status(e: AccessError): (code: int)
    ensures code == 401 <==> e == UserNotFound
    ensures code == 403 <==> e.AccountSuspended? || e.RoleNotAllowed?
  {
    match e
    case Unhandled => 500
    case UserNotFound => 401
    case AccountSuspended => 403
    case RoleNotAllowed(_, _) => 403
  }

  /** The role row an account refers to. */
  function FindRole(roles: seq<Role>, id: Uuid): (r: Option<Role>)
    ensures r.None? <==> forall x :: x in roles ==> x.id != id
    ensures r.Some? ==> r.value in roles && r.value.id == id
  {
    if roles == [] then None
    else if roles[0].id == id then Some(roles[0])
    else
      assert roles == [roles[0]] + roles[1..];
      FindRole(roles[1..], id)
  }

  /** The guards after the account lookup: missing, inactive, then the
      role name. A role row that does not exist fails unhandled. */
  function Decide(checker: RoleChecker, user: Option<Account>, roles: seq<Role>): (r: Result<Account, AccessError>)
    ensures r == Err(UserNotFound) <==> user.None?
    ensures r == Err(AccountSuspended) <==> user.Some? && !user.value.isActive
    ensures r.Ok? <==> user.Some? && user.value.isActive && FindRole(roles, user.value.roleId).Some?
                       && FindRole(roles, user.value.roleId).value.name in checker.allowedRoles
    ensures r.Ok? ==> r.value == user.value
    ensures r.Err? && r.error.RoleNotAllowed? ==>
              user.Some? && FindRole(roles, user.value.roleId).Some?
              && r.error == RoleNotAllowed(checker.allowedRoles, FindRole(roles, user.value.roleId).value.name)
              && r.error.actual !in checker.allowedRoles
  {
    if user.None? then Err(UserNotFound)
    else if !user.value.isActive then Err(AccountSuspended)
    else
      match FindRole(roles, user.value.roleId)
      case None => Err(Unhandled)
      case Some(role) =>
        if role.name !in checker.allowedRoles then Err(RoleNotAllowed(checker.allowedRoles, role.name))
        else Ok(user.value)
  }

  /** `RoleChecker.__call__`: decode the token, parse its `sub` as a UUID,
      look the account up by id, then decide. */
  function Call(checker: RoleChecker, token: string, decode: string -> Option<Payload>,
                parseUuid: string -> Option<Uuid>, accounts: seq<Account>, roles: seq<Role>): (r: Result<Account, AccessError>)
    ensures r == Err(Unhandled) <==>
              decode(token).None? || decode(token).value.sub.None? || parseUuid(decode(token).value.sub.value).None?
              || (var u := FindById(accounts, parseUuid(decode(token).value.sub.value).value);
                  u.Some? && u.value.isActive && FindRole(roles, u.value.roleId).None?)
    ensures r.Err? && r.error != Unhandled ==>
              r == Decide(checker, FindById(accounts, parseUuid(decode(token).value.sub.value).value), roles)
    ensures r.Ok? ==> r.value in accounts && Some(r.value.id) == parseUuid(decode(token).value.sub.value)
  {
    var payload := decode(token);
    if payload.None? || payload.value.sub.None? then Err(Unhandled)
    else
      match parseUuid(payload.value.sub.value)
      case None => Err(Unhandled)
      case Some(id) => Decide(checker, FindById(accounts, id), roles)
  }

  /** Admission is monotone in the checker: whoever a checker admits, a
      checker admitting at least the same role names admits too. */
  lemma CallMonotone(c1: RoleChecker, c2: RoleChecker, token: string, decode: string -> Option<Payload>,
                     parseUuid: string -> Option<Uuid>, accounts: seq<Account>, roles: seq<Role>)
    requires forall s :: s in c1.allowedRoles ==> s in c2.allowedRoles
    requires Call(c1, token, decode, parseUuid, accounts, roles).Ok?
    ensures Call(c2, token, decode, parseUuid, accounts, roles) == Call(c1, token, decode, parseUuid, accounts, roles)
  {
  }

  /** Whatever role names the checker of `inner` admits, the checker of
      `outer` admits too, when every member of `inner` is in `outer`. */
  lemma CheckerIncluded(inner: seq<UserRole>, outer: seq<UserRole>)
    requires forall r :: r in inner ==> r in outer
    ensures forall s :: s in NewRoleChecker(inner).allowedRoles ==> s in NewRoleChecker(outer).allowedRoles
  {
    forall s | s in NewRoleChecker(inner).allowedRoles
      ensures s in NewRoleChecker(outer).allowedRoles
    {
      CheckerValue(inner, s);
      var r :| r in inner && RoleValue(r) == s;
      CheckerHasRole(outer, r);
    }
  }

  /** The ACLs are nested: ADMIN within TECH_LEAD within PROGRAMMER within
      OPERATOR within VIEWER. */
  lemma AclsNested()
    ensures forall s :: s in RequireAdmin().allowedRoles ==> s in RequireTechLead().allowedRoles
    ensures forall s :: s in RequireTechLead().allowedRoles ==> s in RequireProgrammer().allowedRoles
    ensures forall s :: s in RequireProgrammer().allowedRoles ==> s in RequireOperator().allowedRoles
    ensures forall s :: s in RequireOperator().allowedRoles ==> s in RequireViewer().allowedRoles
  {
    CheckerIncluded(AclAdmin, AclTechLead);
    CheckerIncluded(AclTechLead, AclProgrammer);
    CheckerIncluded(AclProgrammer, AclOperator);
    CheckerIncluded(AclOperator, AclViewer);
  }

  /** Passing `require_admin` implies passing every other checker. */
  lemma AdminPassesAll(token: string, decode: string -> Option<Payload>,
                       parseUuid: string -> Option<Uuid>, accounts: seq<Account>, roles: seq<Role>)
    requires Call(RequireAdmin(), token, decode, parseUuid, accounts, roles).Ok?
    ensures Call(RequireTechLead(), token, decode, parseUuid, accounts, roles).Ok?
    ensures Call(RequireProgrammer(), token, decode, parseUuid, accounts, roles).Ok?
    ensures Call(RequireOperator(), token, decode, parseUuid, accounts, roles).Ok?
    ensures Call(RequireViewer(), token, decode, parseUuid, accounts, roles).Ok?
  {
    AclsNested();
    CallMonotone(RequireAdmin(), RequireTechLead(), token, decode, parseUuid, accounts, roles);
    CallMonotone(RequireAdmin(), RequireProgrammer(), token, decode, parseUuid, accounts, roles);
    CallMonotone(RequireAdmin(), RequireOperator(), token, decode, parseUuid, accounts, roles);
    CallMonotone(RequireAdmin(), RequireViewer(), token, decode, parseUuid, accounts, roles);
  }

  /** The lists of the five checkers of the application. */
  predicate IsAcl(acl: seq<UserRole>)
  {
    acl == AclAdmin || acl == AclTechLead || acl == AclProgrammer || acl == AclOperator || acl == AclViewer
  }

  /** The `suspended` role is in no ACL: an active account with it is
      refused with 403 by all five checkers. */
  lemma SuspendedRoleRefused(acl: seq<UserRole>, user: Account, roles: seq<Role>)
    requires IsAcl(acl)
    requires user.isActive && FindRole(roles, user.roleId).Some? && FindRole(roles, user.roleId).value.name == "suspended"
    ensures Decide(NewRoleChecker(acl), Some(user), roles) == Err(RoleNotAllowed(NewRoleChecker(acl).allowedRoles, "suspended"))
    ensures Status(Decide(NewRoleChecker(acl), Some(user), roles).error) == 403
  {
    assert Suspended !in acl by {
      assert acl == AclAdmin || acl == AclTechLead || acl == AclProgrammer || acl == AclOperator || acl == AclViewer;
    }
    CheckerHasRole(acl, Suspended);
    assert RoleValue(Suspended) == "suspended";
    var c := NewRoleChecker(acl);
    assert "suspended" !in c.allowedRoles;
  }

  /** The `admin` role is in every ACL: an active account with it is
      admitted by all five checkers. */
  lemma AdminRoleAdmitted(acl: seq<UserRole>, user: Account, roles: seq<Role>)
    requires IsAcl(acl)
    requires user.isActive && FindRole(roles, user.roleId).Some? && FindRole(roles, user.roleId).value.name == "admin"
    ensures Decide(NewRoleChecker(acl), Some(user), roles) == Ok(user)
  {
    assert acl[0] == Admin;
    CheckerHasRole(acl, Admin);
  }

  /** An inactive account is refused with 403 whatever its role and the
      checker: activity is checked before the role. */
  lemma InactiveRefused(c: RoleChecker, user: Account, roles: seq<Role>)
    requires !user.isActive
    ensures Decide(c, Some(user), roles) == Err(AccountSuspended)
    ensures Status(Decide(c, Some(user), roles).error) == 403
  {
  }
}
