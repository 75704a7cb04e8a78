/** The route table and the `ProtectedRoute` guard. */
module Routes {
  import opened Wrappers
  import opened Types

  /** The application's paths; `EventPath(id)` is '/event/:id'. */
  datatype Path = LandingPath | LoginPath | RegisterPath | AdminPath | DashboardPath | EventPath(id: string) | MyTicketsPath

  /** A route is either rendered directly or wrapped in the guard with an optional required role. */
  datatype Access = Public | Guarded(requiredRole: Option<UserRole>)

  /** What the guard returns: the page, or a replacing redirect. */
  datatype Decision = Render | Redirect(to: Path)

  /** The route table: which paths sit behind the guard, and with which role. */
  function AccessOf(p: Path): (a: Access)
    ensures a.Public? <==> p == LandingPath || p == LoginPath || p == RegisterPath
    ensures a.Guarded? ==> a.requiredRole.Some?
    ensures a == Guarded(Some(RoleAdmin)) <==> p == AdminPath
  {
    match p
    case LandingPath => Public
    case LoginPath => Public
    case RegisterPath => Public
    case AdminPath => Guarded(Some(RoleAdmin))
    case DashboardPath => Guarded(Some(RoleUser))
    case EventPath(_) => Guarded(Some(RoleUser))
    case MyTicketsPath => Guarded(Some(RoleUser))
  }

  /** `ProtectedRoute`: no session goes to '/login'; a session with the wrong role goes to '/';
      otherwise the page renders. */
  function ProtectedRoute(user: Option<User>, requiredRole: Option<UserRole>): (d: Decision)
    ensures user.None? ==> d == Redirect(LoginPath)
    ensures user.Some? && requiredRole.Some? && user.value.role != requiredRole.value ==> d == Redirect(LandingPath)
    ensures d == Render <==> user.Some? && (requiredRole.None? || requiredRole.value == user.value.role)
  {
    if user.None? then Redirect(LoginPath)
    else if requiredRole.Some? && user.value.role != requiredRole.value then Redirect(LandingPath)
    else Render
  }

  /** Navigating to `p` with session `user`. */
  function Visit(user: Option<User>, p: Path): (d: Decision)
    ensures d.Redirect? ==> d.to == LoginPath || d.to == LandingPath
    ensures d == Redirect(LoginPath) <==> user.None? && AccessOf(p).Guarded?
    ensures d == Render <==> AccessOf(p).Public? || (user.Some? && AccessOf(p).requiredRole == Some(user.value.role))
  {
    match AccessOf(p)
    case Public => Render
    case Guarded(role) => ProtectedRoute(user, role)
  }

  /** The role a guarded path demands, if it demands one. */
  function RoleFor(p: Path): Option<UserRole> {
    match AccessOf(p)
    case Public => None
    case Guarded(role) => role
  }

  /** '/', '/login' and '/register' always render; every other path renders exactly for a
      session whose role is the path's role. */
  lemma VisitRendersIff(user: Option<User>, p: Path)
    ensures p == LandingPath || p == LoginPath || p == RegisterPath ==> Visit(user, p) == Render
    ensures p == AdminPath ==> (Visit(user, p) == Render <==> user.Some? && user.value.role == RoleAdmin)
    ensures p == DashboardPath || p.EventPath? || p == MyTicketsPath ==>
              (Visit(user, p) == Render <==> user.Some? && user.value.role == RoleUser)
    ensures p.AdminPath? || p.DashboardPath? || p.EventPath? || p.MyTicketsPath? ==>
              (user.None? ==> Visit(user, p) == Redirect(LoginPath))
  {
  }

  /** An admin session never reaches a user page, and a user session never reaches '/admin':
      both are sent home. */
  lemma RolesAreSeparated(u: User, p: Path)
    ensures u.role == RoleAdmin && RoleFor(p) == Some(RoleUser) ==> Visit(Some(u), p) == Redirect(LandingPath)
    ensures u.role == RoleUser && p == AdminPath ==> Visit(Some(u), p) == Redirect(LandingPath)
  {
  }
}
