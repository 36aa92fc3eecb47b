/** The console's redirect router: one request in a fixed backend state. */
module Router {
  import opened Text
  import opened OrgRoutes
  import opened Onboarding

  /** What the backend answers while one chain of redirects is followed. */
  datatype World = World(
    signedIn: bool,
    status: Option<Status>,
    activeSlug: Option<string>,
    signupAllowed: Option<bool>,
    pendingTokens: set<string>)

  /** Serve carries the page rendered, after an internal rewrite if there was one. */
  datatype Response = Serve(page: Url) | Redirect(target: Url)

  const LOGIN := Page("/login")

  const HOME := "/home"
  const GET_STARTED := "/get-started"

  function LoginFor(callback: Url): Url {
    Url("/login", NO_QUERY.(callback := Some(callback)))
  }

  // ----- auth-callback-url.ts and invitation-routes.ts

  predicate IsSlugChar(c: char) {
    IsAlpha(c) || IsDigit(c) || c == '_' || c == '-'
  }

  predicate IsSlug(s: string) {
    s != "" && forall c :: c in s ==> IsSlugChar(c)
  }

  predicate IsDashboardCallbackPath(path: string) {
    || path == DASHBOARD
    || StartsWith(path, "/dashboard/")
    || (StartsWith(path, "/")
        && var slug := path[1..][..Find(path[1..], '/')];
           var tail := path[1 + |slug|..];
           && IsSlug(slug)
           && (tail == DASHBOARD || StartsWith(tail, "/dashboard/"))
           && Lower(slug) !in RESERVED_SEGMENTS + {"nearzero"})
  }

  predicate IsAllowedAuthCallback(target: Url) {
    || IsDashboardCallbackPath(target.path)
    || target.path == "/register"
    || (target.path == "/invitation" && TrimmedOrEmpty(target.query.token) != "")
  }

  function SanitizeCallback(callback: Option<Url>): Option<Url> {
    if callback.Some? && IsAllowedAuthCallback(callback.value) then callback else None
  }

  function ParseInvitationCallback(callback: Option<Url>): Option<string> {
    if callback.Some? && callback.value.path == "/invitation" then Some(TrimmedOrEmpty(callback.value.query.token))
    else None
  }

  // ----- middleware.ts

  predicate ConsolePathUsesSession(path: string) {
    path in {"/register", "/login", "/invitation", DASHBOARD, DASHBOARD + HOME} || StartsWith(path, "/dashboard/")
  }

  /** The router looks at the session only for these paths. */
  predicate SeesSession(w: World, path: string) {
    w.signedIn && ConsolePathUsesSession(path)
  }

  function DashboardLanding(slug: Option<string>, query: Query): Url {
    Url(if TrimmedOrEmpty(slug) != "" then OrgDashboardPath(TrimmedOrEmpty(slug), AGENT) else AGENT, query)
  }

  function OrganizationLanding(w: World): Url {
    Page(if Truthy(w.activeSlug) then OrgDashboardPath(w.activeSlug.value, AGENT) else AGENT)
  }

  predicate Pending(w: World) {
    w.status.Some? && Truthy(w.status.value.pendingInvitationId)
  }

  predicate Incomplete(w: World) {
    w.status.Some? && !w.status.value.complete
  }

  function PostAuthRedirect(w: World, query: Query): Url {
    var callback := SanitizeCallback(query.callback);
    var token := ParseInvitationCallback(callback);
    if token.Some? && token.value in w.pendingTokens then InvitationPath(token.value)
    else if Pending(w) then InvitationPath(w.status.value.pendingInvitationId.value)
    else if Incomplete(w) then ResumePath(w.status.value)
    else if token.Some? || callback.None? then OrganizationLanding(w)
    else callback.value
  }

  /** Where a request for a dashboard page is sent instead; None lets it through. */
  function GuardDashboardAccess(w: World, session: bool, path: string, query: Query): Option<Url> {
    if !session then Some(LoginFor(Url(path, query)))
    else if Pending(w) then Some(InvitationPath(w.status.value.pendingInvitationId.value))
    else if Incomplete(w) then Some(ResumePath(w.status.value))
    else None
  }

  function Guarded(blocked: Option<Url>, response: Response): Response {
    if blocked.Some? then Redirect(blocked.value) else response
  }

  /** The redirects of /register, in order; None when the page is served. */
  function RegisterRedirect(w: World, query: Query): Option<Url> {
    var token := TrimmedOrEmpty(query.token);
    var rawStep := if query.step.Some? then Lower(query.step.value) else "";
    var step := ParseRegisterStep(query.step);
    if token == "" && w.signupAllowed == Some(false) && !w.signedIn then Some(LOGIN)
    else if rawStep == "verify" then Some(Page("/register"))
    else if rawStep == "source" then Some(RegisterStepPath(Profile, None))
    else if token != "" && IsOnboardingRegisterStep(step) && query.mode != Some(WORKSPACE_SETUP) then
      Some(InvitationPath(token))
    else if SeesSession(w, "/register") then
      RegisterPathForSession(step, w.status, if token == "" then None else Some(token), query.mode)
    else None
  }

  /** An organization-scoped dashboard page; rewriting runs the handler again on the unscoped path. */
  function HandleOrgDashboard(w: World, url: Url, route: DashboardRoute): Response
    requires route == NormalizeDashboardPath(url.path) && route.orgSlug.Some?
    decreases |url.path|, 0
  {
    var slug := route.orgSlug.value;
    if IsReservedOrgSegment(slug) then Redirect(Page(AGENT))
    else if IsDashboardRootPath(url.path) || route.dashboardPath == DASHBOARD + HOME then
      Guarded(GuardDashboardAccess(w, w.signedIn, AGENT, url.query),
              Redirect(DashboardLanding(if w.activeSlug.Some? then w.activeSlug else Some(slug), url.query)))
    else
      Guarded(GuardDashboardAccess(w, w.signedIn, route.dashboardPath, url.query),
              if Truthy(w.activeSlug) && w.activeSlug.value != slug then
                Redirect(Url(OrgDashboardPath(w.activeSlug.value, route.dashboardPath), url.query))
              else Handle(w, Url(route.dashboardPath, url.query), true))
  }

  function HandleDashboard(w: World, url: Url, rewritten: bool): Response {
    var session := SeesSession(w, url.path);
    if rewritten then Guarded(GuardDashboardAccess(w, session, url.path, url.query), Serve(url))
    else if IsDashboardRootPath(url.path) || url.path == DASHBOARD + HOME then
      Guarded(GuardDashboardAccess(w, session, AGENT, url.query),
              Redirect(DashboardLanding(w.activeSlug, url.query)))
    else
      Guarded(GuardDashboardAccess(w, session, url.path, url.query),
              if Truthy(w.activeSlug) then
                Redirect(Url(OrgDashboardPath(w.activeSlug.value, url.path), url.query))
              else Serve(url))
  }

  function Handle(w: World, url: Url, rewritten: bool): Response
    decreases |url.path|, 1
  {
    var path := url.path;
    var route := NormalizeDashboardPath(path);
    if path == "/" then
      Redirect(if w.signedIn then PostAuthRedirect(w, url.query) else LOGIN)
    else if path == "/setup" || StartsWith(path, "/setup/") then Redirect(LOGIN)
    else if path == "/register" then
      var to := RegisterRedirect(w, url.query);
      if to.Some? then Redirect(to.value) else Serve(url)
    else if route.dashboardPath == DASHBOARD + GET_STARTED then
      Redirect(DashboardLanding(route.orgSlug, NO_QUERY))
    else if path == "/login" && SeesSession(w, path) then Redirect(PostAuthRedirect(w, url.query))
    else if route.orgSlug.Some? then HandleOrgDashboard(w, url, route)
    else if StartsWith(path, DASHBOARD) then HandleDashboard(w, url, rewritten)
    else Serve(url)
  }

  /** One request of the browser. */
  function Step(w: World, url: Url): Response {
    Handle(w, url, false)
  }

  /** The browser, sent to url, is served after at most n redirects. */
  predicate ServedWithin(w: World, url: Url, n: nat)
    decreases n
  {
    match Step(w, url)
    case Serve(_) => true
    case Redirect(target) => n > 0 && ServedWithin(w, target, n - 1)
  }
}
