/** The four request-level permission classes. Each `has_permission` is one boolean
    expression over the request's HTTP method and the role of the requesting user.

    `request.user` is modelled by `Requester`: no user at all (a falsy user, which denies),
    the framework's anonymous user (truthy, but without a `role` attribute, so reading
    the role raises), or a user account with its role string. */
module Permissions {
  datatype Requester = NoUser | Anonymous | Account(role: string)

  datatype Request = Request(httpMethod: string, user: Requester)

  /** A permission check grants, denies, or raises (the role read on the anonymous user). */
  datatype Verdict = Grant | Deny | Raise

  /** The framework's `SAFE_METHODS`. */
  const SafeMethods: set<string> := {"GET", "HEAD", "OPTIONS"}

  /** The role strings of the user model's `ROLE_CHOICES`. */
  const Teacher := "Teacher"
  const ProgramCoordinator := "Program Co-ordinator"
  const University := "University"
  const Admin := "Admin"
  const Department := "Department"

  /** `user and user.role == role`, read as a permission verdict. */
  function HasRole(user: Requester, role: string): (v: Verdict)
    ensures v == Grant <==> user.Account? && user.role == role
    ensures v == Raise <==> user.Anonymous?
  {
    match user
    case NoUser => Deny
    case Anonymous => Raise
    case Account(r) => if r == role then Grant else Deny
  }

  /** `IsAdminOrReadOnly`: a safe method is always allowed; any other needs an admin. */
  function IsAdminOrReadOnly(req: Request): (v: Verdict)
    ensures req.httpMethod in SafeMethods ==> v == Grant
    ensures v == Grant <==> req.httpMethod in SafeMethods || req.user == Account(Admin)
    ensures v == Raise <==> req.httpMethod !in SafeMethods && req.user.Anonymous?
  {
    if req.httpMethod in SafeMethods then Grant else HasRole(req.user, Admin)
  }

  /** `IsAdminUser`: only an admin, whatever the method. */
  function IsAdminUser(req: Request): (v: Verdict)
    ensures v == Grant <==> req.user == Account(Admin)
    ensures v == Raise <==> req.user.Anonymous?
  {
    HasRole(req.user, Admin)
  }

  /** `IsProgramCoordinator`: only a program co-ordinator, whatever the method. */
  function IsProgramCoordinator(req: Request): (v: Verdict)
    ensures v == Grant <==> req.user == Account(ProgramCoordinator)
    ensures v == Raise <==> req.user.Anonymous?
  {
    HasRole(req.user, ProgramCoordinator)
  }

  /** `IsDepartmentHead`: only a department user, whatever the method. */
  function IsDepartmentHead(req: Request): (v: Verdict)
    ensures v == Grant <==> req.user == Account(Department)
    ensures v == Raise <==> req.user.Anonymous?
  {
    HasRole(req.user, Department)
  }

  // ---------------------------------------------------------------------------
  // Properties

  /** Whatever `IsAdminUser` grants, `IsAdminOrReadOnly` grants too. */
  lemma AdminOnlyWithinAdminOrReadOnly(req: Request)
    ensures IsAdminUser(req) == Grant ==> IsAdminOrReadOnly(req) == Grant
  {
  }

  /** The three role checks never grant the same request: the roles they want differ. */
  lemma RoleChecksExclusive(req: Request)
    ensures !(IsAdminUser(req) == Grant && IsProgramCoordinator(req) == Grant)
    ensures !(IsAdminUser(req) == Grant && IsDepartmentHead(req) == Grant)
    ensures !(IsProgramCoordinator(req) == Grant && IsDepartmentHead(req) == Grant)
  {
    assert Admin != ProgramCoordinator by { assert Admin[0] != ProgramCoordinator[0]; }
    assert Admin != Department by { assert Admin[0] != Department[0]; }
    assert ProgramCoordinator != Department by { assert ProgramCoordinator[0] != Department[0]; }
  }

  /** The role checks ignore the HTTP method. */
  lemma RoleChecksIgnoreMethod(req: Request, other: string)
    ensures IsAdminUser(req.(httpMethod := other)) == IsAdminUser(req)
    ensures IsProgramCoordinator(req.(httpMethod := other)) == IsProgramCoordinator(req)
    ensures IsDepartmentHead(req.(httpMethod := other)) == IsDepartmentHead(req)
  {
  }

  /** A teacher or a university user passes none of the role checks, and may only read. */
  lemma ReadOnlyRoles(req: Request)
    requires req.user == Account(Teacher) || req.user == Account(University)
    ensures IsAdminUser(req) == Deny && IsProgramCoordinator(req) == Deny && IsDepartmentHead(req) == Deny
    ensures IsAdminOrReadOnly(req) == Grant <==> req.httpMethod in SafeMethods
  {
    assert Teacher[0] != Admin[0] && Teacher[0] != ProgramCoordinator[0] && Teacher[0] != Department[0];
    assert University[0] != Admin[0] && University[0] != ProgramCoordinator[0] && University[0] != Department[0];
  }
}
