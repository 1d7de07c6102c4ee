/**
 * What the authentication middleware leaves for a tool, passed explicitly:
 * whether the caller is authenticated, the error text it recorded, and the
 * repository named in the request headers.
 */
module Access {
  import opened Wrappers

  datatype Session = Session(authenticated: bool, errorMessage: Option<string>, repo: Option<string>)

  /** The JSON `{"status": "error", "error": ...}` that `check_access(True)` returns for an unauthenticated caller. */
  datatype Denial = Denial(error: string)

  const NotAuthenticated := "User is not authenticated."

  /** `check_access(True)`: nothing for an authenticated caller, otherwise the recorded error or the default text. */
  function CheckAccess(session: Session): (r: Option<Denial>)
    ensures r.None? <==> session.authenticated
    ensures session.errorMessage.Some? && r.Some? ==> r.value.error == session.errorMessage.value
    ensures session.errorMessage.None? && r.Some? ==> r.value.error == NotAuthenticated
  {
    if session.authenticated then None else Some(Denial(session.errorMessage.GetOr(NotAuthenticated)))
  }

  /** Python truthiness of an optional string: neither `None` nor empty. */
  predicate Truthy(v: Option<string>) {
    v.Some? && v.value != ""
  }

  /**
   * `repo or middleware_repo` behind the guard `if not repo and not middleware_repo`:
   * the argument when it is truthy, else the header value when that is, else nothing.
   */
  function ResolveRepo(arg: Option<string>, header: Option<string>): (r: Option<string>)
    ensures r.Some? <==> Truthy(arg) || Truthy(header)
    ensures r.Some? ==> r.value != "" && (r == arg || r == header)
    ensures Truthy(arg) ==> r == arg
  {
    if !Truthy(arg) && !Truthy(header) then None
    else if Truthy(arg) then arg
    else header
  }
}
