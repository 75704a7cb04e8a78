/** The sign-in page: its form state and `handleSubmit`. */
module LoginPage {
  import opened Types
  import opened Routes
  import AppContext

  /** The form's fields; the role toggle starts on 'user'. */
  datatype LoginForm = LoginForm(email: string, password: string, role: UserRole)

  const InitialForm: LoginForm := LoginForm("", "", RoleUser)

  /** Both inputs are `required`: the browser submits the form only when each holds text. */
  predicate CanSubmit(f: LoginForm) {
    f.email != "" && f.password != ""
  }

  /** The 'User' / 'Admin' toggle buttons. */
  function SelectRole(f: LoginForm, role: UserRole): (r: LoginForm)
    ensures r.role == role && r.email == f.email && r.password == f.password
  {
    f.(role := role)
  }

  /** Where a successful sign-in sends the browser. */
  function TargetFor(role: UserRole): (p: Path)
    ensures p == AdminPath <==> role == RoleAdmin
    ensures p == AdminPath || p == DashboardPath
  {
    if role == RoleAdmin then AdminPath else DashboardPath
  }

  /** `handleSubmit`: logs in with the entered email and the selected role (never the password),
      then navigates to the role's home; that destination always passes the guard. */
  function HandleSubmit(s: AppContext.Store, f: LoginForm, freshId: string): (r: (AppContext.Store, Path))
    ensures r.0.user.Some? && r.0.user.value.role == f.role
    ensures r.0.events == s.events && r.0.tickets == s.tickets
    ensures r.1 == AdminPath <==> f.role == RoleAdmin
    ensures Visit(r.0.user, r.1) == Render
  {
    (AppContext.Login(s, f.email, f.role, freshId), TargetFor(f.role))
  }

  /** The untouched form signs in as a plain user and lands on '/dashboard'. */
  lemma DefaultSubmitGoesToDashboard(s: AppContext.Store, email: string, freshId: string)
    ensures HandleSubmit(s, InitialForm.(email := email), freshId).1 == DashboardPath
  {
  }

  /** The untouched form cannot be submitted: the email and the password must be typed first. */
  lemma UntouchedFormBlocked(role: UserRole)
    ensures !CanSubmit(SelectRole(InitialForm, role))
  {
  }

  /** The password never reaches the store. */
  lemma PasswordIgnored(s: AppContext.Store, f: LoginForm, password: string, freshId: string)
    ensures HandleSubmit(s, f.(password := password), freshId) == HandleSubmit(s, f, freshId)
  {
  }
}
