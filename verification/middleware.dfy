/**
 * The redirect rule of the session middleware (`updateSession`), which runs
 * on every page request: anonymous visitors are sent to the login page,
 * signed-in users are kept away from the login and signup pages.
 */
module AuthMiddleware {
  import Text

  datatype Decision = PassThrough | Redirect(location: string)

  const LoginPath := "/login"
  const HomePath := "/"

  /** A login or signup page, recognised by substring (`pathname.includes`), not by equality. */
  predicate IsAuthPage(path: string) {
    Text.Includes(path, "login") || Text.Includes(path, "signup")
  }

  /** The decision `updateSession` takes once the auth service has said whether a user is signed in. */
  function UpdateSession(signedIn: bool, path: string): (d: Decision)
    ensures d == Redirect(LoginPath) <==> !signedIn && !IsAuthPage(path)
    ensures d == Redirect(HomePath) <==> signedIn && IsAuthPage(path)
    ensures d == PassThrough <==> (signedIn <==> !IsAuthPage(path))
  {
    if !signedIn && !Text.Includes(path, "login") && !Text.Includes(path, "signup") then
      Redirect(LoginPath)
    else if signedIn && (Text.Includes(path, "login") || Text.Includes(path, "signup")) then
      Redirect(HomePath)
    else
      PassThrough
  }

  lemma LoginPathIsAuthPage()
    ensures IsAuthPage(LoginPath)
  {
    Text.IncludesInfix("/", "login", "");
    assert "/" + "login" + "" == LoginPath;
  }

  lemma HomePathIsNotAuthPage()
    ensures !IsAuthPage(HomePath)
  {
    Text.ShorterExcludes(HomePath, "login");
    Text.ShorterExcludes(HomePath, "signup");
  }

  /** Following a redirect with the same sign-in state is never redirected again. */
  lemma NoRedirectLoop(signedIn: bool, path: string)
    ensures UpdateSession(signedIn, path).Redirect? ==>
              UpdateSession(signedIn, UpdateSession(signedIn, path).location) == PassThrough
  {
    LoginPathIsAuthPage();
    HomePathIsNotAuthPage();
  }

  /**
   * Any path merely containing "login" counts as an auth page: an anonymous
   * visitor passes through and a signed-in user is sent home.
   */
  lemma MatchesBySubstring(before: string, after: string)
    ensures UpdateSession(false, before + "login" + after) == PassThrough
    ensures UpdateSession(true, before + "login" + after) == Redirect(HomePath)
  {
    Text.IncludesInfix(before, "login", after);
  }
}
