/** The route guard that runs before the matched pages: it decides from the
    requested path and whether a session token is present whether to send the
    visitor home, to the login page, or on to the page they asked for. */
module Middleware {
  import opened Common

  datatype Decision = RedirectHome | RedirectLogin | Continue

  /** The pages a visitor without a session may see. */
  const AuthPaths: seq<string> := ["/login", "/register"]

  /** The paths the guard is installed on (`config.matcher`). */
  const Matcher: seq<string> := ["/", "/login", "/register"]

  predicate IsPublicPath(path: string) {
    path == "/login" || path == "/register"
  }

  /** Where a decision sends the browser; `None` when the request goes on. */
  function Target(d: Decision): Option<string> {
    match d
    case RedirectHome => Some("/")
    case RedirectLogin => Some("/login")
    case Continue => None
  }

  /** The guard's decision for one request. Only a visitor with a token is
      sent home, only one without a token is sent to login, and no page is
      ever redirected to itself. */
  function Guard(path: string, hasToken: bool): (d: Decision)
    ensures d.RedirectHome? ==> hasToken && IsPublicPath(path)
    ensures d.RedirectLogin? ==> !hasToken && !IsPublicPath(path)
    ensures Target(d) != Some(path)
  {
    if IsPublicPath(path) && hasToken then RedirectHome
    else if !hasToken && path !in AuthPaths then RedirectLogin
    else Continue
  }

  /** The two ways the source names the public pages agree. */
  lemma PublicPathsAreAuthPaths(path: string)
    ensures IsPublicPath(path) <==> path in AuthPaths
  {
  }

  /** The full decision table: with a token exactly the public pages redirect
      home, without one exactly the other pages redirect to login, and every
      remaining request continues. */
  lemma GuardCases(path: string, hasToken: bool)
    ensures Guard(path, hasToken) == RedirectHome <==> hasToken && path in AuthPaths
    ensures Guard(path, hasToken) == RedirectLogin <==> !hasToken && path !in AuthPaths
    ensures Guard(path, hasToken) == Continue <==> (hasToken <==> path !in AuthPaths)
  {
  }

  /** Following a redirect with the same session never redirects again, so
      the guard cannot produce a redirect loop. */
  lemma RedirectSettles(path: string, hasToken: bool)
    requires Target(Guard(path, hasToken)).Some?
    ensures Guard(Target(Guard(path, hasToken)).value, hasToken) == Continue
  {
  }

  /** The guard on each matched path: the home page needs a session, the two
      public pages need its absence. */
  lemma GuardOnMatchedPaths()
    ensures Guard(Matcher[0], false) == RedirectLogin && Guard(Matcher[0], true) == Continue
    ensures Guard(Matcher[1], false) == Continue && Guard(Matcher[1], true) == RedirectHome
    ensures Guard(Matcher[2], false) == Continue && Guard(Matcher[2], true) == RedirectHome
  {
  }
}
