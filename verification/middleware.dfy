/** Route protection (`middleware/auth.js`): requests for the admin
    dashboard need a valid session cookie, otherwise they are redirected to
    the login page. */
module AuthMiddleware {
  import opened Common
  import opened Auth

  const DashboardRoot: string := "/dashboard-admin"
  const LoginPage: string := "/admin"

  /** What the middleware answers: let the request through, or redirect to
      `location` with an optional `redirectTo` query parameter. */
  datatype Decision = Next | Redirect(location: string, redirectTo: Option<string>)

  /** The characters the regular-expression `.` does not match. */
  predicate IsLineTerminator(c: char)
  {
    c == '\n' || c == '\r' || c == '\U{2028}' || c == '\U{2029}'
  }

  /** `^/dashboard-admin(/.*)?$`: the dashboard root, or the root followed
      by `/` and a rest without line terminators. */
  predicate IsProtected(path: string)
  {
    path == DashboardRoot
    || (DashboardRoot + "/" <= path
        && forall i :: |DashboardRoot| < i < |path| ==> !IsLineTerminator(path[i]))
  }

  /** A protected path is the root or lies below it; a look-alike such as
      `/dashboard-administrator` is not protected. */
  lemma ProtectedPrefix(path: string)
    ensures IsProtected(path) ==> DashboardRoot <= path
                                  && (|path| == |DashboardRoot| || path[|DashboardRoot|] == '/')
    ensures !IsProtected("/dashboard-administrator") && !IsProtected("/dashboard")
    ensures IsProtected("/dashboard-admin/produk")
  {
    assert "/dashboard-administrator"[16] != '/';
    assert !(DashboardRoot <= "/dashboard");
  }

  /** `authMiddleware`; `token` is the session cookie's value, if any. */
  function Decide(pathname: string, token: Option<string>, now: int,
                  sign: string -> string, decode: string -> Option<Payload>): (d: Decision)
    ensures !IsProtected(pathname) ==> d == Next
    ensures d.Redirect? <==> IsProtected(pathname) && Verified(token, now, sign, decode).None?
    ensures d.Redirect? ==> d.location == LoginPage
    ensures d.Redirect? ==> (d.redirectTo.Some? <==> pathname != DashboardRoot)
    ensures d.Redirect? && d.redirectTo.Some? ==> d.redirectTo.value == pathname
  {
    if !IsProtected(pathname) then Next
    else if Verified(token, now, sign, decode).None? then
      Redirect(LoginPage, if pathname != [] && pathname != DashboardRoot then Some(pathname) else None)
    else Next
  }

  /** The cookie of a freshly created session opens every protected page
      until the session expires. */
  lemma {:induction false} FreshSessionPasses(pathname: string, user: User, issuedAt: int, now: int,
                                              sign: string -> string,
                                              encode: Payload -> string,
                                              decode: string -> Option<Payload>)
    requires var p := Payload(user, issuedAt, Some(issuedAt + SessionTtlMs));
      && encode(p) != [] && '.' !in encode(p)
      && sign(encode(p)) != [] && '.' !in sign(encode(p))
      && decode(encode(p)) == Some(p)
    requires now <= issuedAt + SessionTtlMs
    ensures Decide(pathname, Some(CreateSession(user, issuedAt, sign, encode).token),
                   now, sign, decode) == Next
  {
    CreatedSessionVerifies(user, issuedAt, now, sign, encode, decode);
  }
}
