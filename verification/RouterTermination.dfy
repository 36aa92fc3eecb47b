/** Every chain of redirects ends within five, exactly when the active slug is not captured. */
module RouterTermination {
  import opened Text
  import opened OrgRoutes
  import opened Onboarding
  import opened Router

  predicate SpaceFree(s: string) {
    forall c :: c in s ==> !IsSpace(c)
  }

  /** URL paths are percent-encoded: they never hold white space. */
  predicate ValidUrl(url: Url) {
    && SpaceFree(url.path)
    && (url.query.callback.Some? ==> ValidUrl(url.query.callback.value))
  }

  /** The backend hands out slugs of letters, digits, "_" and "-", or none. */
  predicate SlugOk(w: World) {
    Truthy(w.activeSlug) ==> IsSlug(w.activeSlug.value)
  }

  /** A signed-in user with nothing pending: the guard lets dashboards through. */
  predicate Open(w: World) {
    w.signedIn && !Pending(w) && !Incomplete(w)
  }

  /** Slugs whose scoped pages are taken over by another branch of the router. */
  predicate Captured(slug: string) {
    slug == "setup" || IsReservedOrgSegment(slug)
  }

  predicate Looping(w: World) {
    Open(w) && Truthy(w.activeSlug) && Captured(w.activeSlug.value)
  }

  // ----- Shapes of paths

  lemma NoSlashInside()
    ensures '/' !in "dashboard" && '/' !in "/setup"[1..] && '/' !in "/register"[1..]
    ensures '/' !in "/login"[1..] && '/' !in "/invitation"[1..]
  {
    assert "/setup"[1..] == "setup" && "/register"[1..] == "register";
    assert "/login"[1..] == "login" && "/invitation"[1..] == "invitation";
  }

  lemma OneSlashIsUnscoped(path: string)
    requires path != "" && '/' !in path[1..]
    ensures NormalizeDashboardPath(path) == DashboardRoute(None, path)
  {
    assert Find(path[1..], '/') == |path[1..]|;
  }

  lemma AgentIsPlain()
    ensures NormalizeDashboardPath(AGENT) == DashboardRoute(None, AGENT)
    ensures !IsDashboardRootPath(AGENT)
  {
    hide Find;
    FindAt("dashboard", '/', "agent");
    assert AGENT[1..] == "dashboard" + ['/'] + "agent";
    assert AGENT[1..][9..] == "/agent";
    assert AGENT[15] == 't';
  }

  lemma AgentIsNoShortcut()
    ensures "/agent" != HOME && "/agent" != GET_STARTED && "/agent" != "" && "/agent" != "/"
    ensures AGENT != DASHBOARD + HOME && AGENT != DASHBOARD + GET_STARTED
    ensures (DASHBOARD + "/agent")[|DASHBOARD|..] == "/agent"
    ensures StartsWith(AGENT, DASHBOARD) && StartsWith(AGENT, "/dashboard/")
  {
    assert "/agent"[1] == 'a' && HOME[1] == 'h' && GET_STARTED[1] == 'g';
    Tails("/agent", HOME);
    Tails("/agent", GET_STARTED);
    assert AGENT[..11] == "/dashboard/";
  }

  /** A path with a second slash is none of the router's own pages. */
  lemma SecondSlash(path: string, k: nat)
    requires 1 <= k < |path| && path[k] == '/'
    ensures path != "/" && path != "/setup" && path != "/register" && path != "/login" && path != "/invitation"
  {
    assert '/' in path[1..] by { assert path[1..][k - 1] == '/'; }
    NoSlashInside();
  }

  lemma SetupPrefix(slug: string, tail: string)
    requires '/' !in slug
    ensures StartsWith("/" + slug + "/" + tail, "/setup/") <==> slug == "setup"
  {
    hide Find;
    var path := "/" + slug + "/" + tail;
    FindAt(slug, '/', tail);
    assert path[1..] == slug + ['/'] + tail;
    if StartsWith(path, "/setup/") {
      FindAt("setup", '/', path[7..]);
      assert path[1..] == "setup" + ['/'] + path[7..];
      assert slug == path[1..6] == "setup";
    }
  }

  /** A scoped path and the facts the router reads off it. */
  lemma ScopedPath(slug: string, suffix: string)
    requires slug != "" && '/' !in slug && IsSuffix(suffix)
    ensures var path := "/" + slug + DASHBOARD + suffix;
      && NormalizeDashboardPath(path) == DashboardRoute(Some(slug), DASHBOARD + suffix)
      && path != "/" && path != "/setup" && path != "/register" && path != "/login"
      && (StartsWith(path, "/setup/") <==> slug == "setup")
  {
    hide NormalizeDashboardPath, IsSuffix, StartsWith;
    var path := "/" + slug + DASHBOARD + suffix;
    RecognisesScopedPath(slug, suffix);
    SecondSlash(path, 1 + |slug|);
    SetupPrefix(slug, "dashboard" + suffix);
    assert path == "/" + slug + "/" + ("dashboard" + suffix);
  }

  // ----- How far each kind of URL is from being served

  lemma Sooner(w: World, url: Url, n: nat, m: nat)
    requires ServedWithin(w, url, n) && n <= m
    ensures ServedWithin(w, url, m)
    decreases n
  {
    match Step(w, url)
    case Serve(_) =>
    case Redirect(target) => Sooner(w, target, n - 1, m - 1);
  }

  lemma InvitationServed(w: World, query: Query)
    ensures ServedWithin(w, Url("/invitation", query), 0)
  {
    hide RegisterRedirect, HandleOrgDashboard, HandleDashboard, PostAuthRedirect, NormalizeDashboardPath;
    hide DashboardLanding;
    assert "/invitation"[1] == 'i' && "/setup"[1] == 's' && "/register"[1] == 'r' && "/login"[1] == 'l'
      && DASHBOARD[1] == 'd';
    NoSlashInside();
    OneSlashIsUnscoped("/invitation");
  }

  lemma LoginServed(w: World, query: Query)
    requires !w.signedIn
    ensures ServedWithin(w, Url("/login", query), 0)
  {
    hide RegisterRedirect, HandleOrgDashboard, HandleDashboard, PostAuthRedirect, NormalizeDashboardPath;
    NoSlashInside();
    OneSlashIsUnscoped("/login");
  }

  lemma RegisterOutcome(w: World, query: Query)
    ensures var url := Url("/register", query);
      var to := RegisterRedirect(w, query);
      Step(w, url) == if to.Some? then Redirect(to.value) else Serve(url)
  {
    hide RegisterRedirect, HandleOrgDashboard, HandleDashboard, PostAuthRedirect, NormalizeDashboardPath;
    assert "/register"[1] != "/setup/"[1];
  }

  /** A registration page that carries no token and names its step plainly is left to the gate. */
  lemma PlainRegisterRedirect(w: World, step: RegisterStep, mode: Option<string>)
    requires step != Verify
    ensures var query := RegisterStepPath(step, mode).query;
      RegisterRedirect(w, query) ==
        if w.signedIn then Gate(w.status, query)
        else if w.signupAllowed == Some(false) then Some(LOGIN) else None
  {
    hide Trim, TrimStart, TrimEnd, Lower, ParseRegisterStep, RegisterPathForSession;
    StepPathRoundTrip(step, mode);
    var name := StepName(step);
    assert Lower(name) == name;
    assert name != "source";
    assert name != "verify";
  }

  lemma RegisterStepStep(w: World, step: RegisterStep, mode: Option<string>)
    requires w.signedIn && step != Verify
    ensures var url := RegisterStepPath(step, mode);
      var to := Gate(w.status, url.query);
      Step(w, url) == if to.Some? then Redirect(to.value) else Serve(url)
  {
    hide Handle, Gate, RegisterRedirect;
    PlainRegisterRedirect(w, step, mode);
    RegisterOutcome(w, RegisterStepPath(step, mode).query);
  }

  lemma SettledRegisterServed(w: World, step: RegisterStep, mode: Option<string>)
    requires w.signedIn && step != Verify
    requires Settled(w.status, RegisterStepPath(step, mode))
    ensures ServedWithin(w, RegisterStepPath(step, mode), 0)
  {
    hide Handle, Gate;
    RegisterStepStep(w, step, mode);
  }

  /** Signed in, with an active slug the router does not take over. */
  predicate Live(w: World) {
    w.signedIn && SlugOk(w) && !Looping(w)
  }

  function ScopedUrl(slug: string, suffix: string, query: Query): Url {
    Url("/" + slug + DASHBOARD + suffix, query)
  }

  /** The branch a scoped path takes. */
  lemma ScopedStep(w: World, slug: string, suffix: string, query: Query, rewritten: bool)
    requires slug != "" && '/' !in slug && IsSuffix(suffix)
    ensures var url := ScopedUrl(slug, suffix, query);
      var route := DashboardRoute(Some(slug), DASHBOARD + suffix);
      && NormalizeDashboardPath(url.path) == route
      && Handle(w, url, rewritten) ==
         if slug == "setup" then Redirect(LOGIN)
         else if suffix == GET_STARTED then Redirect(DashboardLanding(Some(slug), NO_QUERY))
         else HandleOrgDashboard(w, url, route)
  {
    hide HandleOrgDashboard, HandleDashboard, RegisterRedirect, PostAuthRedirect, NormalizeDashboardPath;
    hide DashboardLanding, IsSuffix, StartsWith;
    ScopedPath(slug, suffix);
    Tails(suffix, GET_STARTED);
  }

  lemma ResumeServed(w: World)
    requires w.signedIn && w.status.Some? && Settled(w.status, ResumePath(w.status.value))
    ensures ServedWithin(w, ResumePath(w.status.value), 0)
  {
    hide Handle, Gate;
    var status := w.status.value;
    if Truthy(status.pendingInvitationId) {
      InvitationServed(w, ResumePath(status).query);
    } else if status.needsWorkspaceSetup {
      SettledRegisterServed(w, Profile, Some(WORKSPACE_SETUP));
    } else if status.needsInviteMemberSetup {
      SettledRegisterServed(w, if status.inviteMemberProfileComplete then Role else Profile, Some(INVITE_MEMBER));
    } else {
      SettledRegisterServed(w, if status.profileComplete then Role else Profile, None);
    }
  }

  /** What the guard sends a signed-in user to is served at once. */
  lemma BlockedServed(w: World, path: string, query: Query)
    requires w.signedIn && GuardDashboardAccess(w, true, path, query).Some?
    ensures ServedWithin(w, GuardDashboardAccess(w, true, path, query).value, 0)
  {
    hide Handle, Settled;
    if Pending(w) {
      InvitationServed(w, InvitationPath(w.status.value.pendingInvitationId.value).query);
    } else {
      ResumeIsSettled(w.status.value);
      ResumeServed(w);
    }
  }

  lemma SlugHasNoSlash(slug: string)
    requires IsSlug(slug)
    ensures '/' !in slug && Trim(slug) == slug
  {
    hide Trim;
    assert slug[0] in slug && slug[|slug| - 1] in slug;
    assert Trim(slug) == slug;
  }

  /** The branch an unscoped dashboard path takes. */
  lemma PlainStep(w: World, path: string, query: Query, rewritten: bool)
    requires StartsWith(path, DASHBOARD) && NormalizeDashboardPath(path).orgSlug.None?
    ensures Handle(w, Url(path, query), rewritten) ==
      if path == DASHBOARD + GET_STARTED then Redirect(DashboardLanding(None, NO_QUERY))
      else HandleDashboard(w, Url(path, query), rewritten)
  {
    hide HandleOrgDashboard, HandleDashboard, RegisterRedirect, PostAuthRedirect, NormalizeDashboardPath;
    assert path[1] == DASHBOARD[1] == 'd';
    assert "/setup/"[1] == "/setup"[1] == 's' && "/register"[1] == 'r' && "/login"[1] == 'l';
  }

  lemma ScopedRoot(slug: string, suffix: string)
    requires slug != "" && '/' !in slug && IsSuffix(suffix)
    ensures IsDashboardRootPath("/" + slug + DASHBOARD + suffix) <==> suffix == "" || suffix == "/"
  {
    hide NormalizeDashboardPath, IsSuffix;
    RecognisesScopedPath(slug, suffix);
    DropSlashOfDashboard(suffix);
    var path := "/" + slug + DASHBOARD + suffix;
    assert |DropSlash(path)| >= |path| - 1 >= |DASHBOARD| + 1;
  }

  lemma DropSlashOfDashboard(suffix: string)
    ensures DropSlash(DASHBOARD + suffix) == DASHBOARD <==> suffix == "" || suffix == "/"
  {
    var path := DASHBOARD + suffix;
    assert path[|DASHBOARD|..] == suffix && path[..|DASHBOARD|] == DASHBOARD;
    if suffix == "" {
      assert path == DASHBOARD && path[9] == 'd';
    } else {
      assert path[|path| - 1] == suffix[|suffix| - 1];
      assert path[|path| - 1..] == [suffix[|suffix| - 1]];
      assert |path| == |DASHBOARD| + |suffix|;
      if |suffix| == 1 { assert path[..|path| - 1] == DASHBOARD; }
    }
  }

  /** Own pages: scoped by the active slug, apart from the landing shortcuts. */
  predicate OwnSuffix(suffix: string) {
    IsSuffix(suffix) && suffix != "" && suffix != "/" && suffix != HOME && suffix != GET_STARTED
  }

  predicate HasOwn(w: World) {
    Open(w) && Truthy(w.activeSlug) && IsSlug(w.activeSlug.value) && !Captured(w.activeSlug.value)
  }

  /** An own page is rewritten to its unscoped form. */
  lemma OwnStep(w: World, suffix: string, query: Query)
    requires HasOwn(w) && OwnSuffix(suffix)
    ensures Step(w, ScopedUrl(w.activeSlug.value, suffix, query)) == Handle(w, Url(DASHBOARD + suffix, query), true)
  {
    hide Handle, NormalizeDashboardPath;
    var slug := w.activeSlug.value;
    SlugHasNoSlash(slug);
    ScopedStep(w, slug, suffix, query, false);
    ScopedRoot(slug, suffix);
    Tails(suffix, HOME);
  }

  lemma OwnServed(w: World, suffix: string, query: Query)
    requires HasOwn(w) && OwnSuffix(suffix)
    requires NormalizeDashboardPath(DASHBOARD + suffix).orgSlug.None?
    ensures Step(w, ScopedUrl(w.activeSlug.value, suffix, query)) == Serve(Url(DASHBOARD + suffix, query))
  {
    hide Handle, NormalizeDashboardPath;
    OwnStep(w, suffix, query);
    PlainStep(w, DASHBOARD + suffix, query, true);
    var path := DASHBOARD + suffix;
    assert path[|DASHBOARD|..] == suffix;
    Tails(suffix, GET_STARTED);
    assert path[|DASHBOARD|] == '/';
    assert path[..11] == "/dashboard/";
  }

  lemma OwnAgentServed(w: World, query: Query)
    requires HasOwn(w)
    ensures OrgDashboardPath(w.activeSlug.value, AGENT) == ScopedUrl(w.activeSlug.value, "/agent", query).path
    ensures ServedWithin(w, Url(OrgDashboardPath(w.activeSlug.value, AGENT), query), 0)
  {
    hide Handle, NormalizeDashboardPath;
    AgentIsPlain();
    Tails("/agent", "");
    OwnServed(w, "/agent", query);
  }

  lemma AgentServed(w: World, query: Query)
    requires w.signedIn ==> Live(w)
    ensures ServedWithin(w, Url(AGENT, query), 1)
  {
    hide Handle, NormalizeDashboardPath;
    AgentIsPlain();
    PlainStep(w, AGENT, query, false);
    AgentIsNoShortcut();
    if !w.signedIn {
      LoginServed(w, LoginFor(Url(AGENT, query)).query);
    } else if GuardDashboardAccess(w, true, AGENT, query).Some? {
      BlockedServed(w, AGENT, query);
    } else if Truthy(w.activeSlug) {
      OwnAgentServed(w, query);
    }
  }

  predicate Sound(w: World) {
    w.signedIn ==> Live(w)
  }

  /** The guard's answer, signed in or not, is served at once. */
  lemma GuardServed(w: World, path: string, query: Query)
    requires GuardDashboardAccess(w, w.signedIn, path, query).Some?
    ensures ServedWithin(w, GuardDashboardAccess(w, w.signedIn, path, query).value, 0)
  {
    hide Handle;
    if w.signedIn {
      BlockedServed(w, path, query);
    } else {
      LoginServed(w, LoginFor(Url(path, query)).query);
    }
  }

  /** The agent page of any organization. */
  lemma ScopedAgentStep(w: World, s: string, query: Query)
    requires s != "" && s != "setup" && '/' !in s
    ensures Step(w, ScopedUrl(s, "/agent", query)) ==
      if IsReservedOrgSegment(s) then Redirect(Page(AGENT))
      else Guarded(GuardDashboardAccess(w, w.signedIn, AGENT, query),
        if Truthy(w.activeSlug) && w.activeSlug.value != s then
          Redirect(Url(OrgDashboardPath(w.activeSlug.value, AGENT), query))
        else Handle(w, Url(AGENT, query), true))
  {
    hide Handle, NormalizeDashboardPath, IsReservedOrgSegment, GuardDashboardAccess, OrgDashboardPath;
    hide IsDashboardRootPath;
    ScopedStep(w, s, "/agent", query, false);
    ScopedRoot(s, "/agent");
    AgentIsNoShortcut();
  }

  lemma LandingServed(w: World, slug: Option<string>, query: Query)
    requires Sound(w)
    requires slug.Some? ==>
      slug.value != "" && slug.value != "setup" && '/' !in slug.value && Trim(slug.value) == slug.value
    ensures ServedWithin(w, DashboardLanding(slug, query), 2)
    ensures HasOwn(w) && slug == w.activeSlug ==> ServedWithin(w, DashboardLanding(slug, query), 0)
  {
    hide Handle, NormalizeDashboardPath, Trim, IsReservedOrgSegment, HandleOrgDashboard, HandleDashboard;
    if slug.None? {
      AgentServed(w, query);
      Sooner(w, Url(AGENT, query), 1, 2);
    } else {
      var s := slug.value;
      Tails("/agent", "");
      assert DashboardLanding(slug, query) == ScopedUrl(s, "/agent", query);
      if HasOwn(w) { OwnAgentServed(w, query); }
      ScopedAgentServed(w, s, query);
    }
  }

  lemma ScopedAgentServed(w: World, s: string, query: Query)
    requires Sound(w)
    requires s != "" && s != "setup" && '/' !in s
    ensures ServedWithin(w, ScopedUrl(s, "/agent", query), 2)
  {
    hide Handle, NormalizeDashboardPath, IsReservedOrgSegment, HandleOrgDashboard, OrgDashboardPath;
    ScopedAgentStep(w, s, query);
    if IsReservedOrgSegment(s) {
      AgentServed(w, NO_QUERY);
    } else if GuardDashboardAccess(w, w.signedIn, AGENT, query).Some? {
      GuardServed(w, AGENT, query);
      Sooner(w, GuardDashboardAccess(w, w.signedIn, AGENT, query).value, 0, 1);
    } else if Truthy(w.activeSlug) && w.activeSlug.value != s {
      OwnAgentServed(w, query);
      Sooner(w, Url(OrgDashboardPath(w.activeSlug.value, AGENT), query), 0, 1);
    } else {
      AgentIsPlain();
      PlainStep(w, AGENT, query, true);
      AgentIsNoShortcut();
    }
  }

  /** Reserved slugs lead to the agent page. */
  lemma ReservedServed(w: World, slug: string, suffix: string, query: Query)
    requires Sound(w)
    requires slug != "" && '/' !in slug && IsSuffix(suffix) && Trim(slug) == slug && IsReservedOrgSegment(slug)
    ensures ServedWithin(w, ScopedUrl(slug, suffix, query), 3)
    ensures suffix != GET_STARTED ==> ServedWithin(w, ScopedUrl(slug, suffix, query), 2)
  {
    hide Handle, NormalizeDashboardPath, Trim;
    ScopedStep(w, slug, suffix, query, false);
    assert Lower("setup") == "setup";
    if suffix == GET_STARTED {
      LandingServed(w, Some(slug), NO_QUERY);
    } else {
      AgentServed(w, NO_QUERY);
    }
  }

  lemma NestedSlug(suffix: string)
    requires IsSuffix(suffix)
    requires NormalizeDashboardPath(DASHBOARD + suffix).orgSlug.Some?
    ensures NormalizeDashboardPath(DASHBOARD + suffix).orgSlug == Some("dashboard")
  {
    hide NormalizeDashboardPath, IsSuffix;
    var path := DASHBOARD + suffix;
    var route := NormalizeDashboardPath(path);
    assert path == "/" + "dashboard" + suffix;
    NoSlashInside();
    SuffixShape(suffix);
    assert route.dashboardPath[0] == DASHBOARD[0];
    FirstSegment(path, route.orgSlug.value, route.dashboardPath);
    FirstSegment(path, "dashboard", suffix);
  }

  lemma SuffixShape(suffix: string)
    requires IsSuffix(suffix)
    ensures suffix == "" || suffix[0] == '/'
  {
  }

  /** The text between a leading slash and the next one is determined by the path. */
  lemma FirstSegment(path: string, segment: string, tail: string)
    requires path == "/" + segment + tail && '/' !in segment && (tail == "" || tail[0] == '/')
    ensures Find(path[1..], '/') == |segment| && path[1..][..|segment|] == segment
  {
    hide Find;
    assert path[1..] == segment + tail;
    assert (segment + tail)[..|segment|] == segment;
    if tail != "" {
      FindAt(segment, '/', tail[1..]);
      assert segment + tail == segment + ['/'] + tail[1..];
    } else {
      assert segment + tail == segment;
    }
  }

  lemma DashboardIsReserved()
    ensures IsReservedOrgSegment("dashboard") && Trim("dashboard") == "dashboard"
  {
    hide Lower, Trim;
    assert Lower("dashboard") == "dashboard";
    assert Trim("dashboard") == "dashboard";
  }

  /** An unscoped path that reads as a page of the slug "dashboard" is redirected, even after a rewrite. */
  lemma NestedRewrite(w: World, suffix: string, query: Query)
    requires IsSuffix(suffix) && NormalizeDashboardPath(DASHBOARD + suffix).orgSlug.Some?
    ensures var inner := NormalizeDashboardPath(DASHBOARD + suffix).dashboardPath;
      Handle(w, Url(DASHBOARD + suffix, query), true) ==
        Redirect(if inner == DASHBOARD + GET_STARTED then DashboardLanding(Some("dashboard"), NO_QUERY)
          else Page(AGENT))
  {
    hide Handle, NormalizeDashboardPath, Trim, IsReservedOrgSegment, DashboardLanding, IsSuffix, IsDashboardRootPath;
    var path := DASHBOARD + suffix;
    var inner := NormalizeDashboardPath(path).dashboardPath[|DASHBOARD|..];
    NestedSlug(suffix);
    DashboardIsReserved();
    assert NormalizeDashboardPath(path).dashboardPath == DASHBOARD + inner;
    assert path == ScopedUrl("dashboard", inner, query).path;
    ScopedStep(w, "dashboard", inner, query, true);
    Tails(inner, GET_STARTED);
    assert "dashboard"[0] == 'd' && "setup"[0] == 's';
  }

  /** Rewriting to the unscoped page serves it, or leads through the pages of the slug "dashboard". */
  lemma RewriteServed(w: World, suffix: string, query: Query)
    requires Open(w) && Live(w) && OwnSuffix(suffix)
    ensures var response := Handle(w, Url(DASHBOARD + suffix, query), true);
      if response.Serve? then response.page == Url(DASHBOARD + suffix, query)
      else ServedWithin(w, response.target, 2)
  {
    hide Handle, NormalizeDashboardPath, Trim, IsSuffix, DashboardLanding, IsReservedOrgSegment;
    var path := DASHBOARD + suffix;
    if NormalizeDashboardPath(path).orgSlug.None? {
      PlainStep(w, path, query, true);
      Tails(suffix, GET_STARTED);
      OwnSuffixHasSession(suffix);
    } else {
      NestedRewrite(w, suffix, query);
      DashboardIsReserved();
      assert "dashboard"[0] == 'd' && "setup"[0] == 's';
      LandingServed(w, Some("dashboard"), NO_QUERY);
      AgentServed(w, NO_QUERY);
      Sooner(w, Page(AGENT), 1, 2);
    }
  }

  lemma OwnSuffixHasSession(suffix: string)
    requires OwnSuffix(suffix)
    ensures ConsolePathUsesSession(DASHBOARD + suffix) && StartsWith(DASHBOARD + suffix, "/dashboard/")
  {
    assert (DASHBOARD + suffix)[..11] == "/dashboard/";
  }

  lemma OwnPageServed(w: World, suffix: string, query: Query)
    requires HasOwn(w) && Live(w) && OwnSuffix(suffix)
    ensures ServedWithin(w, ScopedUrl(w.activeSlug.value, suffix, query), 3)
  {
    hide Handle;
    OwnStep(w, suffix, query);
    RewriteServed(w, suffix, query);
  }

  lemma LoginStep(w: World, query: Query)
    ensures Step(w, Url("/login", query)) ==
      if w.signedIn then Redirect(PostAuthRedirect(w, query)) else Serve(Url("/login", query))
    ensures Step(w, Url("/", query)) == Redirect(if w.signedIn then PostAuthRedirect(w, query) else LOGIN)
  {
    hide RegisterRedirect, HandleOrgDashboard, HandleDashboard, PostAuthRedirect, NormalizeDashboardPath;
    NoSlashInside();
    OneSlashIsUnscoped("/login");
    assert "/login"[1] == 'l' && "/setup"[1] == 's' && DASHBOARD[1] == 'd';
  }

  lemma OrganizationLandingServed(w: World)
    requires Open(w) && Live(w)
    ensures ServedWithin(w, OrganizationLanding(w), 1)
  {
    hide Handle, NormalizeDashboardPath, OrgDashboardPath;
    if Truthy(w.activeSlug) {
      OwnAgentServed(w, NO_QUERY);
      Sooner(w, OrganizationLanding(w), 0, 1);
    } else {
      AgentServed(w, NO_QUERY);
    }
  }

  /** Unless it follows its callback, signing in leads to a page served within one redirect. */
  lemma PlainPostAuthServed(w: World, query: Query)
    requires Live(w)
    requires SanitizeCallback(query.callback).None? || PostAuthRedirect(w, query) != query.callback.value
    ensures ServedWithin(w, PostAuthRedirect(w, query), 1)
  {
    hide Handle, NormalizeDashboardPath, OrganizationLanding, IsAllowedAuthCallback;
    var to := PostAuthRedirect(w, query);
    if Pending(w) || Incomplete(w) {
      GuardServed(w, AGENT, query);
      Sooner(w, GuardDashboardAccess(w, true, AGENT, query).value, 0, 1);
    } else {
      OrganizationLandingServed(w);
    }
    if to.path == "/invitation" {
      InvitationServed(w, to.query);
      Sooner(w, to, 0, 1);
    }
  }

  lemma LoginPageServed(w: World)
    requires Sound(w)
    ensures ServedWithin(w, LOGIN, 2)
  {
    hide Handle, PostAuthRedirect;
    LoginStep(w, NO_QUERY);
    if w.signedIn {
      PlainPostAuthServed(w, NO_QUERY);
    }
  }

  lemma OpenLandingServed(w: World, slug: string, query: Query)
    requires Open(w) && Live(w)
    requires slug != "" && slug != "setup" && '/' !in slug && Trim(slug) == slug
    ensures ServedWithin(w, DashboardLanding(if w.activeSlug.Some? then w.activeSlug else Some(slug), query), 2)
    ensures ServedWithin(w, DashboardLanding(w.activeSlug, query), 2)
  {
    hide Handle, NormalizeDashboardPath, Trim, IsReservedOrgSegment;
    if Truthy(w.activeSlug) {
      SlugHasNoSlash(w.activeSlug.value);
      LandingServed(w, w.activeSlug, query);
    } else {
      assert Trim("") == "";
      AgentServed(w, query);
      Sooner(w, Url(AGENT, query), 1, 2);
      LandingServed(w, Some(slug), query);
    }
  }

  lemma OpenScopedServed(w: World, slug: string, suffix: string, query: Query)
    requires Open(w) && Live(w)
    requires slug != "" && '/' !in slug && Trim(slug) == slug && IsSuffix(suffix)
    requires slug != "setup" && !IsReservedOrgSegment(slug) && suffix != GET_STARTED
    ensures ServedWithin(w, ScopedUrl(slug, suffix, query), 4)
  {
    hide Handle, NormalizeDashboardPath, Trim, IsReservedOrgSegment, OrgDashboardPath, IsDashboardRootPath;
    hide DashboardLanding;
    var path := DASHBOARD + suffix;
    ScopedStep(w, slug, suffix, query, false);
    ScopedRoot(slug, suffix);
    Tails(suffix, HOME);
    if suffix == "" || suffix == "/" || suffix == HOME {
      OpenLandingServed(w, slug, query);
      Sooner(w, DashboardLanding(if w.activeSlug.Some? then w.activeSlug else Some(slug), query), 2, 3);
    } else if Truthy(w.activeSlug) && w.activeSlug.value != slug {
      ScopingIsScopedUrl(w.activeSlug.value, suffix, query);
      OwnPageServed(w, suffix, query);
    } else {
      RewriteServed(w, suffix, query);
      var rewritten := Handle(w, Url(path, query), true);
      if rewritten.Redirect? { Sooner(w, rewritten.target, 2, 3); }
    }
  }

  lemma ScopingIsScopedUrl(slug: string, suffix: string, query: Query)
    requires suffix != ""
    ensures OrgDashboardPath(slug, DASHBOARD + suffix) == ScopedUrl(slug, suffix, query).path
  {
    assert (DASHBOARD + suffix)[|DASHBOARD|..] == suffix;
    assert |DASHBOARD + suffix| > |DASHBOARD|;
  }

  lemma ScopedServed(w: World, slug: string, suffix: string, query: Query)
    requires Sound(w)
    requires slug != "" && '/' !in slug && Trim(slug) == slug && IsSuffix(suffix)
    ensures ServedWithin(w, ScopedUrl(slug, suffix, query), 4)
  {
    hide Handle, NormalizeDashboardPath, Trim, IsReservedOrgSegment, IsDashboardRootPath, DashboardLanding;
    var url := ScopedUrl(slug, suffix, query);
    ScopedStep(w, slug, suffix, query, false);
    if IsReservedOrgSegment(slug) {
      ReservedServed(w, slug, suffix, query);
      Sooner(w, url, 3, 4);
    } else if slug == "setup" {
      LoginPageServed(w);
      Sooner(w, LOGIN, 2, 3);
    } else if suffix == GET_STARTED {
      LandingServed(w, Some(slug), NO_QUERY);
      Sooner(w, DashboardLanding(Some(slug), NO_QUERY), 2, 3);
    } else if Open(w) {
      OpenScopedServed(w, slug, suffix, query);
    } else {
      var asked := if IsDashboardRootPath(url.path) || DASHBOARD + suffix == DASHBOARD + HOME then AGENT
        else DASHBOARD + suffix;
      GuardServed(w, asked, query);
      Sooner(w, GuardDashboardAccess(w, w.signedIn, asked, query).value, 0, 3);
    }
  }

  lemma PlainServed(w: World, path: string, query: Query)
    requires Sound(w)
    requires StartsWith(path, DASHBOARD) && NormalizeDashboardPath(path).orgSlug.None?
    requires SpaceFree(path)
    ensures ServedWithin(w, Url(path, query), 4)
  {
    hide Handle, NormalizeDashboardPath, Trim, OrgDashboardPath, IsDashboardRootPath, DashboardLanding;
    var url := Url(path, query);
    PlainStep(w, path, query, false);
    if path == DASHBOARD + GET_STARTED {
      LandingServed(w, None, NO_QUERY);
      Sooner(w, DashboardLanding(None, NO_QUERY), 2, 3);
    } else if !w.signedIn {
      var asked := if IsDashboardRootPath(path) || path == DASHBOARD + HOME then AGENT else path;
      LoginServed(w, LoginFor(Url(asked, query)).query);
      Sooner(w, LoginFor(Url(asked, query)), 0, 3);
    } else if !ConsolePathUsesSession(path) {
      NoSessionServed(w, path, query);
    } else if !Open(w) {
      var asked := if IsDashboardRootPath(path) || path == DASHBOARD + HOME then AGENT else path;
      GuardServed(w, asked, query);
      Sooner(w, GuardDashboardAccess(w, true, asked, query).value, 0, 3);
    } else {
      OpenPlainServed(w, path, query);
    }
  }

  /** Paths such as "/dashboards" are treated as signed out; after signing in they are not followed. */
  lemma NoSessionServed(w: World, path: string, query: Query)
    requires Live(w)
    requires StartsWith(path, DASHBOARD) && NormalizeDashboardPath(path).orgSlug.None?
    requires !ConsolePathUsesSession(path) && path != DASHBOARD + GET_STARTED
    requires SpaceFree(path)
    ensures ServedWithin(w, Url(path, query), 4)
  {
    hide Handle, PostAuthRedirect, IsAllowedAuthCallback, IsDashboardRootPath;
    PlainStep(w, path, query, false);
    var asked := if IsDashboardRootPath(path) then AGENT else path;
    var login := LoginFor(Url(asked, query));
    LoginStep(w, login.query);
    if IsDashboardRootPath(path) {
      RootPlain(path);
    } else {
      NotACallback(path, query);
      PlainPostAuthServed(w, login.query);
      Sooner(w, login, 2, 3);
    }
  }

  lemma RootPlain(path: string)
    requires NormalizeDashboardPath(path).orgSlug.None?
    requires IsDashboardRootPath(path)
    ensures path == DASHBOARD || path == "/dashboard/"
    ensures ConsolePathUsesSession(path)
  {
    hide NormalizeDashboardPath;
    if EndsWith(path, "/") {
      assert path == path[..|path| - 1] + path[|path| - 1..];
    }
  }

  lemma SpaceFreeSuffix(path: string, k: nat)
    requires SpaceFree(path) && k <= |path|
    requires k < |path| ==> path[k] == '/'
    ensures IsSuffix(path[k..])
  {
    assert forall c :: c in path[k..] ==> c in path;
  }

  lemma SessionPath(path: string)
    requires StartsWith(path, DASHBOARD)
    ensures ConsolePathUsesSession(path) <==> path == DASHBOARD || StartsWith(path, "/dashboard/")
  {
    assert path[1] == DASHBOARD[1] == 'd' && "/register"[1] == 'r' && "/login"[1] == 'l' && "/invitation"[1] == 'i';
    assert (DASHBOARD + HOME)[..11] == "/dashboard/";
  }

  /** A callback outside "/dashboard" itself is scoped by a slug. */
  lemma CallbackIsScoped(path: string)
    requires SpaceFree(path) && IsDashboardCallbackPath(path)
    requires path != DASHBOARD && !StartsWith(path, "/dashboard/")
    ensures NormalizeDashboardPath(path).orgSlug.Some?
  {
    hide NormalizeDashboardPath, Find, SpaceFree, IsSuffix, Lower;
    var slug := path[1..][..Find(path[1..], '/')];
    var tail := path[1 + |slug|..];
    var k := 1 + |slug| + |DASHBOARD|;
    assert tail[..|DASHBOARD|] == DASHBOARD by { assert "/dashboard/"[..10] == DASHBOARD; }
    SlugHasNoSlash(slug);
    assert path[k..] == tail[|DASHBOARD|..];
    if tail != DASHBOARD { assert path[k] == tail[..11][10] == '/'; }
    SpaceFreeSuffix(path, k);
    RecognisesScopedPath(slug, path[k..]);
    assert path == "/" + slug + DASHBOARD + path[k..];
  }

  lemma NotACallback(path: string, query: Query)
    requires StartsWith(path, DASHBOARD) && NormalizeDashboardPath(path).orgSlug.None?
    requires !ConsolePathUsesSession(path)
    requires SpaceFree(path)
    ensures !IsAllowedAuthCallback(Url(path, query))
  {
    hide NormalizeDashboardPath, ConsolePathUsesSession, SpaceFree, IsDashboardCallbackPath;
    SessionPath(path);
    assert path[1] == DASHBOARD[1] == 'd' && "/register"[1] == 'r' && "/invitation"[1] == 'i';
    if IsDashboardCallbackPath(path) {
      CallbackIsScoped(path);
    }
  }

  lemma OpenPlainServed(w: World, path: string, query: Query)
    requires Open(w) && Live(w)
    requires StartsWith(path, DASHBOARD) && NormalizeDashboardPath(path).orgSlug.None?
    requires ConsolePathUsesSession(path) && path != DASHBOARD + GET_STARTED
    requires SpaceFree(path)
    ensures ServedWithin(w, Url(path, query), 3)
  {
    hide Handle, NormalizeDashboardPath, OrgDashboardPath, IsDashboardRootPath, DashboardLanding, SpaceFree;
    hide OwnSuffix, ConsolePathUsesSession, Trim;
    PlainStep(w, path, query, false);
    if IsDashboardRootPath(path) || path == DASHBOARD + HOME {
      assert Trim("a") == "a";
      OpenLandingServed(w, "a", query);
    } else if Truthy(w.activeSlug) {
      var suffix := path[|DASHBOARD|..];
      assert path == DASHBOARD + suffix;
      PlainOwnSuffix(path);
      ScopingIsScopedUrl(w.activeSlug.value, suffix, query);
      OwnServed(w, suffix, query);
    }
  }

  lemma RootsAreRoots()
    ensures IsDashboardRootPath(DASHBOARD) && IsDashboardRootPath("/dashboard/")
  {
    assert DropSlash(DASHBOARD) == DASHBOARD && DropSlash("/dashboard/") == DASHBOARD;
  }

  lemma PlainOwnSuffix(path: string)
    requires NormalizeDashboardPath(path).orgSlug.None? && !IsDashboardRootPath(path)
    requires ConsolePathUsesSession(path) && StartsWith(path, DASHBOARD)
    requires path != DASHBOARD + HOME && path != DASHBOARD + GET_STARTED
    requires SpaceFree(path)
    ensures path[|DASHBOARD|..] != "" && OwnSuffix(path[|DASHBOARD|..])
  {
    hide NormalizeDashboardPath, SpaceFree, IsSuffix, ConsolePathUsesSession, IsDashboardRootPath, DropSlash;
    SessionPath(path);
    RootsAreRoots();
    var suffix := path[|DASHBOARD|..];
    assert path == DASHBOARD + suffix;
    assert path[10] == path[..11][10] == '/';
    SpaceFreeSuffix(path, 10);
    assert DASHBOARD + "/" == "/dashboard/";
    Tails(suffix, HOME);
    Tails(suffix, GET_STARTED);
  }

  /** A redirect of the gate leads to a page served within one more. */
  lemma GateServed(w: World, query: Query)
    requires Live(w) && Gate(w.status, query).Some?
    ensures ServedWithin(w, Gate(w.status, query).value, 1)
  {
    hide Handle, Gate, InviteBeforeProfile;
    var to := Gate(w.status, query).value;
    var step, mode := GateTargets(w.status, query);
    if to.path == "/invitation" {
      InvitationServed(w, to.query);
      Sooner(w, to, 0, 1);
    } else if to == Page(AGENT) {
      AgentServed(w, NO_QUERY);
    } else {
      RegisterStepStep(w, step, mode);
      GateIsFixedPoint(w.status, query);
      if InviteBeforeProfile(w.status, query) {
        ProfileAfterWorkspace(w, query);
      }
    }
  }

  lemma ProfileAfterWorkspace(w: World, query: Query)
    requires Live(w) && InviteBeforeProfile(w.status, query)
    ensures ServedWithin(w, InviteMemberSetupPath(Workspace), 1)
  {
    hide Handle, ParseRegisterStep;
    StepPathRoundTrip(Workspace, Some(INVITE_MEMBER));
    StepPathRoundTrip(Profile, Some(INVITE_MEMBER));
    RegisterStepStep(w, Workspace, Some(INVITE_MEMBER));
    SettledRegisterServed(w, Profile, Some(INVITE_MEMBER));
  }

  lemma RegisterStepServed(w: World, step: RegisterStep, mode: Option<string>)
    requires Sound(w) && step != Verify
    ensures ServedWithin(w, RegisterStepPath(step, mode), 2)
  {
    hide Handle, Gate, RegisterRedirect;
    var query := RegisterStepPath(step, mode).query;
    RegisterOutcome(w, query);
    PlainRegisterRedirect(w, step, mode);
    if w.signedIn {
      if Gate(w.status, query).Some? { GateServed(w, query); }
    } else {
      LoginServed(w, NO_QUERY);
      Sooner(w, LOGIN, 0, 1);
    }
  }

  /** The invitation token reaches the gate trimmed, which makes no difference to it. */
  lemma TrimmedTokenSameGate(status: Option<Status>, query: Query)
    ensures var token := TrimmedOrEmpty(query.token);
      var cleaned := if token == "" then None else Some(token);
      RegisterPathForSession(ParseRegisterStep(query.step), status, cleaned, query.mode)
      == Gate(status, query)
  {
    hide ParseRegisterStep, Trim, ResumePath;
    var token := TrimmedOrEmpty(query.token);
    assert Trim(token) == token;
  }

  lemma RegisterServed(w: World, query: Query)
    requires Sound(w)
    ensures ServedWithin(w, Url("/register", query), 3)
  {
    hide Handle, Gate, ParseRegisterStep, RegisterPathForSession, Trim, Lower;
    RegisterOutcome(w, query);
    TrimmedTokenSameGate(w.status, query);
    var to := RegisterRedirect(w, query);
    if to == Some(LOGIN) {
      LoginPageServed(w);
    } else if to.Some? && to.value.path == "/invitation" {
      InvitationServed(w, to.value.query);
      Sooner(w, to.value, 0, 2);
    } else if to == Some(Page("/register")) {
      RegisterStepServed(w, Signup, None);
    } else if to == Some(RegisterStepPath(Profile, None)) {
      RegisterStepServed(w, Profile, None);
    } else if to.Some? {
      GateServed(w, query);
      Sooner(w, to.value, 1, 2);
    }
  }

  /** Callback targets are served within four redirects. */
  lemma CallbackServed(w: World, target: Url)
    requires Sound(w) && ValidUrl(target) && IsAllowedAuthCallback(target)
    ensures ServedWithin(w, target, 4)
  {
    hide Handle, NormalizeDashboardPath, Trim, IsDashboardCallbackPath;
    if target.path == "/register" {
      RegisterServed(w, target.query);
      Sooner(w, target, 3, 4);
    } else if target.path == "/invitation" {
      InvitationServed(w, target.query);
      Sooner(w, target, 0, 4);
    } else {
      DashboardUrlServed(w, target);
      CallbackLooksLikeDashboard(target.path);
    }
  }

  lemma CallbackLooksLikeDashboard(path: string)
    requires SpaceFree(path) && IsDashboardCallbackPath(path)
    ensures StartsWith(path, DASHBOARD) || NormalizeDashboardPath(path).orgSlug.Some?
  {
    hide NormalizeDashboardPath, SpaceFree, Find;
    if path != DASHBOARD && !StartsWith(path, "/dashboard/") {
      CallbackIsScoped(path);
    } else {
      assert "/dashboard/"[..10] == DASHBOARD;
    }
  }

  /** Dashboard pages, scoped or not. */
  lemma DashboardUrlServed(w: World, url: Url)
    requires Sound(w) && ValidUrl(url)
    ensures StartsWith(url.path, DASHBOARD) || NormalizeDashboardPath(url.path).orgSlug.Some? ==>
      ServedWithin(w, url, 4)
  {
    hide Handle, Trim;
    var route := NormalizeDashboardPath(url.path);
    if route.orgSlug.Some? {
      var slug, suffix := route.orgSlug.value, route.dashboardPath[|DASHBOARD|..];
      assert url.path == "/" + slug + DASHBOARD + suffix;
      assert forall c :: c in slug ==> c in url.path;
      assert slug[0] in slug && slug[|slug| - 1] in slug;
      assert Trim(slug) == slug;
      ScopedServed(w, slug, suffix, url.query);
      assert url == ScopedUrl(slug, suffix, url.query);
    } else if StartsWith(url.path, DASHBOARD) {
      PlainServed(w, url.path, url.query);
    }
  }

  lemma PostAuthServed(w: World, query: Query)
    requires Live(w) && (query.callback.Some? ==> ValidUrl(query.callback.value))
    ensures ServedWithin(w, PostAuthRedirect(w, query), 4)
  {
    hide Handle, PostAuthRedirect, IsAllowedAuthCallback;
    var to := PostAuthRedirect(w, query);
    if SanitizeCallback(query.callback).Some? && to == query.callback.value {
      CallbackServed(w, to);
    } else {
      PlainPostAuthServed(w, query);
      Sooner(w, to, 1, 4);
    }
  }

  /** The pages that are neither dashboards nor registration. */
  lemma OtherStep(w: World, url: Url)
    requires NormalizeDashboardPath(url.path).orgSlug.None? && !StartsWith(url.path, DASHBOARD)
    requires url.path != "/register" && url.path != "/" && url.path != "/login"
    ensures Step(w, url) == if url.path == "/setup" || StartsWith(url.path, "/setup/") then Redirect(LOGIN)
      else Serve(url)
  {
    hide RegisterRedirect, HandleOrgDashboard, HandleDashboard, PostAuthRedirect, NormalizeDashboardPath;
    assert (DASHBOARD + GET_STARTED)[..|DASHBOARD|] == DASHBOARD;
  }

  /** In a world that is not looping, every URL is served after at most five redirects. */
  lemma ServedWithinFive(w: World, url: Url)
    requires SlugOk(w) && !Looping(w) && ValidUrl(url)
    ensures ServedWithin(w, url, 5)
  {
    hide Handle, PostAuthRedirect, IsSlug, ValidUrl, StartsWith, NormalizeDashboardPath;
    var path := url.path;
    LoginPageServed(w);
    Sooner(w, LOGIN, 2, 4);
    LoginStep(w, url.query);
    CallbackValid(url);
    if w.signedIn {
      PostAuthServed(w, url.query);
    }
    DashboardUrlServed(w, url);
    if StartsWith(path, DASHBOARD) || NormalizeDashboardPath(path).orgSlug.Some? {
      Sooner(w, url, 4, 5);
    } else if path == "/register" {
      RegisterServed(w, url.query);
      Sooner(w, url, 3, 5);
    } else if path != "/" && path != "/login" {
      OtherStep(w, url);
    }
  }

  lemma CallbackValid(url: Url)
    requires ValidUrl(url)
    ensures url.query.callback.Some? ==> ValidUrl(url.query.callback.value)
  {
  }
}
