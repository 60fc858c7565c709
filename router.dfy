/** frontend/src/router/index.js: the route table and the navigation guard
    that sends unauthenticated users to the login page and authenticated
    users away from it. */
module Router {
  import opened Js

  /** A route record: its path, its name and its `meta.requiresAuth` flag. */
  datatype Route = Route(path: string, name: string, requiresAuth: bool)

  const LoginPath: string := "/login"
  const HomePath: string := "/"

  const Routes: seq<Route> := [
    Route("/login", "Login", false),
    Route("/", "Dashboard", true),
    Route("/clients", "ConnectedClients", true),
    Route("/blocked", "BlockedClients", true),
    Route("/groups", "Groups", true)
  ]

  /** The first route whose path is `path`; None when no route matches. */
  function Match(routes: seq<Route>, path: string): (r: Option<Route>)
    ensures r.None? <==> forall x :: x in routes ==> x.path != path
    ensures r.Some? ==> r.value in routes && r.value.path == path
    ensures r.Some? ==> exists i :: 0 <= i < |routes| && routes[i] == r.value
                                    && forall j :: 0 <= j < i ==> routes[j].path != path
  {
    if routes == [] then None
    else if routes[0].path == path then Some(routes[0])
    else Match(routes[1..], path)
  }

  /** `to.meta.requiresAuth`: false for an unmatched path, whose meta is
      empty. */
  predicate RequiresAuth(path: string) {
    var m := Match(Routes, path);
    m.Some? && m.value.requiresAuth
  }

  /** The argument the guard passes to `next`. */
  datatype Decision = Redirect(to: string) | Proceed

  /** beforeEach. */
  function Guard(path: string, authenticated: bool): (d: Decision)
    ensures RequiresAuth(path) && !authenticated ==> d == Redirect(LoginPath)
    ensures !(RequiresAuth(path) && !authenticated) && path == LoginPath && authenticated ==> d == Redirect(HomePath)
    ensures d == Proceed <==> !(RequiresAuth(path) && !authenticated) && !(path == LoginPath && authenticated)
  {
    if RequiresAuth(path) && !authenticated then Redirect(LoginPath)
    else if path == LoginPath && authenticated then Redirect(HomePath)
    else Proceed
  }

  /** Every declared route but the login page requires authentication, and
      each path is declared once. */
  lemma OnlyLoginIsPublic(path: string)
    requires Match(Routes, path).Some?
    ensures RequiresAuth(path) <==> path != LoginPath
  {
  }

  /** An unauthenticated user who navigates to a declared route only ever
      stays on the login page; any other declared route sends them there. */
  lemma UnauthenticatedLandsOnLogin(path: string)
    requires Match(Routes, path).Some?
    ensures Guard(path, false) == Proceed <==> path == LoginPath
    ensures path != LoginPath ==> Guard(path, false) == Redirect(LoginPath)
  {
    OnlyLoginIsPublic(path);
  }

  /** No redirect loops: the target of a redirect is let through on the
      next navigation by the same user. */
  lemma RedirectTargetProceeds(path: string, authenticated: bool)
    requires Guard(path, authenticated).Redirect?
    ensures Guard(Guard(path, authenticated).to, authenticated) == Proceed
  {
    assert Match(Routes, LoginPath) == Some(Routes[0]);
    assert Match(Routes, HomePath) == Some(Routes[1]);
  }

  /** An authenticated user is never redirected except away from the login
      page; unknown paths proceed for everyone. */
  lemma AuthenticatedProceeds(path: string)
    ensures Guard(path, true) == (if path == LoginPath then Redirect(HomePath) else Proceed)
    ensures Match(Routes, path).None? ==> Guard(path, false) == Proceed
  {
  }
}
