/** The navigation bar: which links a session sees, and the logout button. */
module Navbar {
  import opened Wrappers
  import opened Types
  import opened Routes
  import AppContext

  /** The links on the bar, in order; the brand link to '/' is always first. */
  function Links(user: Option<User>): (links: seq<Path>)
    ensures |links| >= 2 && links[0] == LandingPath
    ensures user.None? ==> links[1..] == [LoginPath, RegisterPath]
    ensures user.Some? && user.value.role == RoleAdmin ==> links[1..] == [AdminPath]
    ensures user.Some? && user.value.role != RoleAdmin ==> links[1..] == [DashboardPath, MyTicketsPath]
  {
    [LandingPath] +
      match user
      case None => [LoginPath, RegisterPath]
      case Some(u) => if u.role == RoleAdmin then [AdminPath] else [DashboardPath, MyTicketsPath]
  }

  /** Every link the bar offers renders for that session: nobody is shown a link that redirects. */
  lemma EveryLinkRenders(user: Option<User>)
    ensures forall i :: 0 <= i < |Links(user)| ==> Visit(user, Links(user)[i]) == Render
  {
  }

  /** A logged-in session is never offered '/login' or '/register', and an admin is never
      offered a user page. */
  lemma LinksMatchSession(user: Option<User>)
    ensures user.Some? ==> LoginPath !in Links(user) && RegisterPath !in Links(user)
    ensures user.None? ==> AdminPath !in Links(user) && DashboardPath !in Links(user) && MyTicketsPath !in Links(user)
    ensures user.Some? && user.value.role == RoleAdmin ==> DashboardPath !in Links(user) && MyTicketsPath !in Links(user)
    ensures user.Some? && user.value.role == RoleUser ==> AdminPath !in Links(user)
  {
  }

  /** `handleLogout`: clears the session, then navigates to '/', which renders without a session. */
  function HandleLogout(s: AppContext.Store): (r: (AppContext.Store, Path))
    ensures r.0.user.None? && r.0.events == s.events && r.0.tickets == s.tickets
    ensures r.1 == LandingPath && Visit(r.0.user, r.1) == Render
  {
    (AppContext.Logout(s), LandingPath)
  }
}
