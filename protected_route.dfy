/** The route guard around the dashboard: a spinner while the session is
    loading, a redirect to the login page when nobody is signed in, an
    "Access Restricted" page for an institution that has not paid, and the
    protected page otherwise. */
module ProtectedRoute {
  import opened Js
  import AuthContext

  datatype View =
    | Spinner
    | Redirect(to: string, replace: bool)
    | AccessRestricted
    | Children

  /** The checks in their order: loading, signed in, paid. */
  function Gate(isLoading: bool, institution: Option<AuthContext.Institution>): (v: View)
    ensures isLoading ==> v == Spinner
    ensures !isLoading && institution.None? ==> v == Redirect("/login", true)
    ensures !isLoading && institution.Some? && !institution.value.hasPaid ==> v == AccessRestricted
    ensures v == Children <==> !isLoading && institution.Some? && institution.value.hasPaid
  {
    if isLoading then Spinner
    else match institution
      case None => Redirect("/login", true)
      case Some(i) => if !i.hasPaid then AccessRestricted else Children
  }

  /** Loading hides everything else: two states differing only in the
      institution render the same while loading. */
  lemma LoadingIgnoresInstitution(a: Option<AuthContext.Institution>, b: Option<AuthContext.Institution>)
    ensures Gate(true, a) == Gate(true, b)
  {
  }

  /** Whoever logs in gets the dashboard, and after logout the login page. */
  lemma LoginOpensLogoutCloses(email: string)
    ensures Gate(false, Some(AuthContext.MockInstitution(email))) == Children
    ensures Gate(false, None) == Redirect("/login", true)
  {
  }

  /** The gate a provider renders, right after a login and a logout. */
  method GateAcrossSession(p: AuthContext.AuthProvider, email: string, password: string)
    returns (afterLogin: View, afterLogout: View)
    modifies p
    ensures afterLogin == Children
    ensures afterLogout == Redirect("/login", true)
  {
    var ok := p.Login(email, password, false);
    afterLogin := Gate(p.isLoading, p.institution);
    p.Logout();
    afterLogout := Gate(p.isLoading, p.institution);
  }
}
