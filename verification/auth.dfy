/**
 * The `useAuth` hook: it checks the session when a page mounts, sends a
 * visitor without a session to the login page and a signed-in visitor away
 * from it, follows auth-state changes, and signs out.
 */
module Auth {
  import opened Js

  const LoginPath := "/login"
  const HomePath := "/"
  const SignedOutEvent := "SIGNED_OUT"

  /**
   * The pages `checkAuth` pushes, in order: two independent checks, for a
   * missing session away from the login page and for a session on it.
   */
  function Redirects(hasSession: bool, pathname: string): (pushed: seq<string>)
    ensures |pushed| <= 1
    ensures pushed == [LoginPath] <==> !hasSession && pathname != LoginPath
    ensures pushed == [HomePath] <==> hasSession && pathname == LoginPath
  {
    assert [LoginPath] != [HomePath] && [LoginPath] != [] by { assert LoginPath[1] != HomePath[0]; }
    (if !hasSession && pathname != LoginPath then [LoginPath] else [])
    + (if hasSession && pathname == LoginPath then [HomePath] else [])
  }

  /** A redirect never targets the page being shown, and the page it leads to redirects no further. */
  lemma RedirectSettles(hasSession: bool, pathname: string)
    ensures forall p :: p in Redirects(hasSession, pathname) ==> p != pathname && Redirects(hasSession, p) == []
  {
  }

  /** The pages that need no redirect: the login page without a session, any other page with one. */
  lemma NoRedirectExactly(hasSession: bool, pathname: string)
    ensures Redirects(hasSession, pathname) == [] <==> (hasSession <==> pathname != LoginPath)
  {
  }

  class AuthState {
    var isAuthenticated: bool
    var loading: bool
    /** The pages pushed onto the router so far. */
    var pushed: seq<string>

    constructor ()
      ensures !isAuthenticated && loading && pushed == []
    {
      isAuthenticated := false;
      loading := true;
      pushed := [];
    }

    /**
     * checkAuth. `session` is `getSession`'s outcome: whether a session
     * exists, or the error it threw. An error counts as signed out and
     * redirects nowhere. Loading ends false either way.
     */
    method CheckAuth(pathname: string, session: Result<bool, string>)
      modifies this`isAuthenticated, this`loading, this`pushed
      ensures isAuthenticated == (session.Ok? && session.value)
      ensures !loading
      ensures pushed == old(pushed) + if session.Ok? then Redirects(session.value, pathname) else []
    {
      match session {
        case Err(_) =>
          isAuthenticated := false;
        case Ok(hasSession) =>
          isAuthenticated := hasSession;
          if !hasSession && pathname != LoginPath {
            pushed := pushed + [LoginPath];
          }
          if hasSession && pathname == LoginPath {
            pushed := pushed + [HomePath];
          }
      }
      loading := false;
    }

    /** The auth-state listener: it tracks the session, and a sign-out leads to the login page. */
    method OnAuthStateChange(event: string, hasSession: bool)
      modifies this`isAuthenticated, this`pushed
      ensures isAuthenticated == hasSession
      ensures pushed == old(pushed) + if event == SignedOutEvent then [LoginPath] else []
    {
      isAuthenticated := hasSession;
      if event == SignedOutEvent {
        pushed := pushed + [LoginPath];
      }
    }

    /** signOut. `signedOut` is whether the call returned (false: it threw, which is only logged). */
    method SignOut(signedOut: bool)
      modifies this`pushed
      ensures pushed == old(pushed) + if signedOut then [LoginPath] else []
    {
      if signedOut {
        pushed := pushed + [LoginPath];
      }
    }
  }
}
