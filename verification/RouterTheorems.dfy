/** What a visitor can rely on: chains end and never repeat, guarded pages stay guarded, deep links survive login. */
module RouterTheorems {
  import opened Text
  import opened OrgRoutes
  import opened Onboarding
  import opened Router
  import opened RouterTermination

  // ----- Chains of redirects

  /** The URLs the browser visits, from the first request to the page served, over at most n redirects. */
  function Chain(w: World, url: Url, n: nat): (chain: seq<Url>)
    ensures 1 <= |chain| <= n + 1 && chain[0] == url
    decreases n
  {
    var response := Step(w, url);
    if response.Serve? || n == 0 then [url] else [url] + Chain(w, response.target, n - 1)
  }

  /** The page a chain of at most n redirects ends with. */
  function FinalPage(w: World, url: Url, n: nat): Option<Url>
    decreases n
  {
    match Step(w, url)
    case Serve(page) => Some(page)
    case Redirect(target) => if n == 0 then None else FinalPage(w, target, n - 1)
  }

  lemma {:induction false} ChainIgnoresFuel(w: World, url: Url, n: nat, m: nat)
    requires ServedWithin(w, url, n) && ServedWithin(w, url, m)
    ensures Chain(w, url, n) == Chain(w, url, m)
    decreases n
  {
    hide Step;
    var response := Step(w, url);
    if response.Redirect? {
      ChainIgnoresFuel(w, response.target, n - 1, m - 1);
    }
  }

  lemma {:induction false} ChainFrom(w: World, url: Url, n: nat, i: nat)
    requires ServedWithin(w, url, n) && i < |Chain(w, url, n)|
    ensures i <= n && ServedWithin(w, Chain(w, url, n)[i], n - i)
    ensures Chain(w, url, n)[i..] == Chain(w, Chain(w, url, n)[i], n - i)
    decreases n
  {
    hide Step;
    var response := Step(w, url);
    if i > 0 {
      ChainFrom(w, response.target, n - 1, i - 1);
    }
  }

  /** Two places of a chain that ends hold different URLs. */
  lemma ChainPlacesDiffer(w: World, url: Url, n: nat, i: nat, j: nat)
    requires ServedWithin(w, url, n) && i < j < |Chain(w, url, n)|
    ensures Chain(w, url, n)[i] != Chain(w, url, n)[j]
  {
    hide Step, Chain;
    var chain := Chain(w, url, n);
    ChainFrom(w, url, n, i);
    ChainFrom(w, url, n, j);
    assert |chain[i..]| > |chain[j..]|;
    if chain[i] == chain[j] {
      ChainIgnoresFuel(w, chain[i], n - i, n - j);
    }
  }

  // ----- Exactly when chains end

  /** Where a looping world goes round. */
  function LoopUrl(w: World): Url
    requires Looping(w)
  {
    if w.activeSlug.value == "setup" then LOGIN else Page(AGENT)
  }

  lemma LoopTurns(w: World)
    requires SlugOk(w) && Looping(w)
    ensures var first := Step(w, LoopUrl(w));
      first.Redirect? && Step(w, first.target) == Redirect(LoopUrl(w))
  {
    hide Handle, NormalizeDashboardPath, Trim, IsReservedOrgSegment, OrgDashboardPath, HandleOrgDashboard;
    var slug := w.activeSlug.value;
    SlugHasNoSlash(slug);
    ScopingIsScopedUrl(slug, "/agent", NO_QUERY);
    ScopedStep(w, slug, "/agent", NO_QUERY, false);
    LoginStep(w, NO_QUERY);
    AgentIsPlain();
    PlainStep(w, AGENT, NO_QUERY, false);
    AgentIsNoShortcut();
    if slug != "setup" {
      ScopedAgentStep(w, slug, NO_QUERY);
    }
  }

  lemma {:induction false} LoopsForever(w: World, n: nat)
    requires SlugOk(w) && Looping(w)
    ensures !ServedWithin(w, LoopUrl(w), n)
  {
    hide Step, Looping, SlugOk;
    LoopTurns(w);
    if n >= 2 {
      LoopsForever(w, n - 2);
    }
  }

  lemma SpaceFreeLiterals()
    ensures SpaceFree("/login") && SpaceFree(AGENT)
  {
  }

  lemma NoChainInALoop(w: World)
    requires SlugOk(w) && Looping(w)
    ensures ValidUrl(LoopUrl(w)) && forall n: nat :: !ServedWithin(w, LoopUrl(w), n)
  {
    hide SlugOk, Looping, Step, SpaceFree, ServedWithin;
    SpaceFreeLiterals();
    forall n: nat ensures !ServedWithin(w, LoopUrl(w), n) {
      LoopsForever(w, n);
    }
  }

  /** Every URL is served within five redirects, exactly when a signed-in user's active slug is neither
      "setup" nor reserved. */
  lemma RedirectsEnd(w: World)
    requires SlugOk(w)
    ensures (forall url :: ValidUrl(url) ==> ServedWithin(w, url, 5)) <==> !Looping(w)
  {
    hide ValidUrl, SlugOk, Looping, Step;
    if Looping(w) {
      NoChainInALoop(w);
    } else {
      forall url | ValidUrl(url) ensures ServedWithin(w, url, 5) {
        ServedWithinFive(w, url);
      }
    }
  }

  lemma {:induction false} ChainEndsServed(w: World, url: Url, n: nat)
    requires ServedWithin(w, url, n)
    ensures var chain := Chain(w, url, n); Step(w, chain[|chain| - 1]).Serve?
    decreases n
  {
    hide Step;
    if Step(w, url).Redirect? { ChainEndsServed(w, Step(w, url).target, n - 1); }
  }

  /** Unless a signed-in user's active slug is "setup" or reserved, a browser sent to any URL visits at most six URLs,
      no one of them twice, and the last one is served. */
  lemma ChainNeverRevisits(w: World, url: Url)
    requires SlugOk(w) && !Looping(w) && ValidUrl(url)
    ensures var chain := Chain(w, url, 5);
      && chain[0] == url && |chain| <= 6 && Step(w, chain[|chain| - 1]).Serve?
      && forall i, j :: 0 <= i < j < |chain| ==> chain[i] != chain[j]
  {
    hide SlugOk, Looping, ValidUrl, Step, Chain, ServedWithin;
    ServedWithinFive(w, url);
    ChainEndsServed(w, url, 5);
    var chain := Chain(w, url, 5);
    forall i, j | 0 <= i < j < |chain| ensures chain[i] != chain[j] { ChainPlacesDiffer(w, url, 5, i, j); }
  }

  // ----- Guarded pages

  lemma RewriteServesItself(w: World, suffix: string, query: Query)
    requires IsSuffix(suffix)
    ensures var response := Handle(w, Url(DASHBOARD + suffix, query), true);
      response.Serve? ==>
        && response.page == Url(DASHBOARD + suffix, query)
        && NormalizeDashboardPath(DASHBOARD + suffix).orgSlug.None?
  {
    hide Handle, NormalizeDashboardPath, IsSuffix, DashboardLanding;
    if NormalizeDashboardPath(DASHBOARD + suffix).orgSlug.Some? {
      NestedRewrite(w, suffix, query);
    } else {
      PlainStep(w, DASHBOARD + suffix, query, true);
    }
  }

  /** A dashboard page is only served to a signed-in user with nothing pending, and under an active
      organization only through that organization's own path. */
  lemma DashboardsAreGuarded(w: World, url: Url)
    requires Step(w, url).Serve? && StartsWith(Step(w, url).page.path, DASHBOARD)
    ensures Open(w)
    ensures Step(w, url).page == Url(NormalizeDashboardPath(url.path).dashboardPath, url.query)
    ensures NormalizeDashboardPath(Step(w, url).page.path).orgSlug.None?
    ensures Truthy(w.activeSlug) ==> NormalizeDashboardPath(url.path).orgSlug == w.activeSlug
  {
    hide Handle, NormalizeDashboardPath, IsDashboardRootPath, DashboardLanding, IsReservedOrgSegment;
    var route := NormalizeDashboardPath(url.path);
    if route.orgSlug.Some? {
      var slug, suffix := route.orgSlug.value, route.dashboardPath[|DASHBOARD|..];
      assert route.dashboardPath == DASHBOARD + suffix;
      assert url.path == "/" + slug + DASHBOARD + suffix;
      ScopedStep(w, slug, suffix, url.query, false);
      assert url == ScopedUrl(slug, suffix, url.query);
      RewriteServesItself(w, suffix, url.query);
    } else if StartsWith(url.path, DASHBOARD) {
      PlainStep(w, url.path, url.query, false);
    } else {
      ServesOnlyItself(w, url);
    }
  }

  lemma ServesOnlyItself(w: World, url: Url)
    requires NormalizeDashboardPath(url.path).orgSlug.None? && !StartsWith(url.path, DASHBOARD)
    ensures Step(w, url).Serve? ==> Step(w, url).page == url
  {
    hide RegisterRedirect, PostAuthRedirect, NormalizeDashboardPath, HandleDashboard;
  }

  // ----- Deep links

  function SignIn(w: World): World {
    w.(signedIn := true)
  }

  /** The unscoped form of a dashboard page that is neither a landing shortcut nor scoped. */
  predicate PlainPage(path: string) {
    && StartsWith(path, "/dashboard/") && NormalizeDashboardPath(path).orgSlug.None?
    && !IsDashboardRootPath(path)
    && path != DASHBOARD + HOME && path != DASHBOARD + GET_STARTED
    && SpaceFree(path)
  }

  /** Signed out, a request for the same page is answered with the login page. */
  lemma ServedPageIsPlain(w: World, url: Url)
    requires w.signedIn && ValidUrl(url)
    requires Step(w, url).Serve? && StartsWith(Step(w, url).page.path, DASHBOARD)
    ensures var page := Step(w, url).page;
      PlainPage(page.path) && Step(w.(signedIn := false), url) == Redirect(LoginFor(page))
  {
    hide Handle, NormalizeDashboardPath, DashboardLanding, IsReservedOrgSegment, ConsolePathUsesSession, SpaceFree;
    DashboardsAreGuarded(w, url);
    var route, signedOut := NormalizeDashboardPath(url.path), w.(signedIn := false);
    var path := Step(w, url).page.path;
    assert "/dashboard/"[..10] == DASHBOARD;
    if route.orgSlug.Some? {
      var slug, suffix := route.orgSlug.value, route.dashboardPath[|DASHBOARD|..];
      assert path == DASHBOARD + suffix;
      assert url == ScopedUrl(slug, suffix, url.query);
      ScopedStep(w, slug, suffix, url.query, false);
      ScopedStep(signedOut, slug, suffix, url.query, false);
      ServedScopedIsPlain(w, slug, suffix, url.query);
      assert SpaceFree(path) by { SpaceFreeTail(url.path, 1 + |slug|); assert url.path[1 + |slug|..] == path; }
    } else if StartsWith(url.path, DASHBOARD) {
      PlainStep(w, path, url.query, false);
      PlainStep(signedOut, path, url.query, false);
      SessionPath(path);
      RootsAreRoots();
    } else {
      ServesOnlyItself(w, url);
    }
  }

  lemma SpaceFreeTail(s: string, k: nat)
    requires SpaceFree(s) && k <= |s|
    ensures SpaceFree(s[k..])
  {
    assert forall c :: c in s[k..] ==> c in s;
  }

  lemma ServedScopedIsPlain(w: World, slug: string, suffix: string, query: Query)
    requires slug != "" && '/' !in slug && IsSuffix(suffix)
    requires Step(w, ScopedUrl(slug, suffix, query)) == Serve(Url(DASHBOARD + suffix, query))
    requires NormalizeDashboardPath(DASHBOARD + suffix).orgSlug.None?
    ensures var path := DASHBOARD + suffix;
      && StartsWith(path, "/dashboard/") && !IsDashboardRootPath(path)
      && path != DASHBOARD + HOME && path != DASHBOARD + GET_STARTED
  {
    hide Handle, NormalizeDashboardPath, DashboardLanding, IsReservedOrgSegment, IsDashboardRootPath;
    var path := DASHBOARD + suffix;
    ScopedStep(w, slug, suffix, query, false);
    ScopedRoot(slug, suffix);
    assert path[|DASHBOARD|..] == suffix;
    Tails(suffix, GET_STARTED);
    assert path[10] == '/' && path[..11] == "/dashboard/";
    assert DASHBOARD[|DASHBOARD|..] == "" && "/dashboard/"[|DASHBOARD|..] == "/";
    if IsDashboardRootPath(path) {
      RootPlain(path);
    }
  }

  lemma PlainPageServed(w: World, page: Url)
    requires Open(w) && Live(w) && PlainPage(page.path)
    ensures ServedWithin(w, page, 1) && FinalPage(w, page, 1) == Some(page)
  {
    hide Handle, NormalizeDashboardPath, OrgDashboardPath, IsDashboardRootPath, DashboardLanding, SpaceFree, OwnSuffix;
    hide ConsolePathUsesSession;
    var path := page.path;
    assert "/dashboard/"[..10] == DASHBOARD;
    SessionPath(path);
    PlainStep(w, path, page.query, false);
    if Truthy(w.activeSlug) {
      var suffix := path[|DASHBOARD|..];
      assert path == DASHBOARD + suffix;
      PlainOwnSuffix(path);
      ScopingIsScopedUrl(w.activeSlug.value, suffix, page.query);
      OwnServed(w, suffix, page.query);
    }
  }

  lemma LoginFollowsCallback(w: World, page: Url)
    requires Open(w) && PlainPage(page.path)
    ensures PostAuthRedirect(w, LoginFor(page).query) == page
  {
    hide Find, NormalizeDashboardPath;
    assert page.path[1] == page.path[..11][1] == 'd' && "/invitation"[1] == 'i';
  }

  /** A visitor who asks for a dashboard page is sent to log in, and from there to that very page. */
  lemma DeepLinkSurvivesLogin(w: World, url: Url)
    requires !w.signedIn && SlugOk(w) && !Looping(SignIn(w)) && ValidUrl(url)
    requires Step(SignIn(w), url).Serve? && StartsWith(Step(SignIn(w), url).page.path, DASHBOARD)
    ensures var page := Step(SignIn(w), url).page;
      && Step(w, url) == Redirect(LoginFor(page))
      && ServedWithin(SignIn(w), LoginFor(page), 2)
      && FinalPage(SignIn(w), LoginFor(page), 2) == Some(page)
  {
    hide Handle, PostAuthRedirect, PlainPage, ValidUrl;
    var w' := SignIn(w);
    var page := Step(w', url).page;
    DashboardsAreGuarded(w', url);
    ServedPageIsPlain(w', url);
    assert w'.(signedIn := false) == w;
    PlainPageServed(w', page);
    LoginStep(w', LoginFor(page).query);
    LoginFollowsCallback(w', page);
  }

  // ----- Where the landing shortcuts end

  lemma AgentIsPage()
    ensures PlainPage(AGENT)
  {
    hide NormalizeDashboardPath, IsDashboardRootPath, SpaceFree;
    AgentIsPlain();
    AgentIsNoShortcut();
    SpaceFreeLiterals();
  }

  /** The landing page of an onboarded user is the agent page, with the query kept. */
  lemma LandingIsAgent(w: World, query: Query)
    requires Open(w) && Live(w)
    ensures FinalPage(w, DashboardLanding(w.activeSlug, query), 1) == Some(Url(AGENT, query))
    ensures DashboardLanding(w.activeSlug, NO_QUERY) == OrganizationLanding(w)
  {
    hide Handle, NormalizeDashboardPath, PlainPage, OwnSuffix;
    AgentIsPage();
    PlainPageServed(w, Url(AGENT, query));
    if Truthy(w.activeSlug) {
      SlugHasNoSlash(w.activeSlug.value);
      OwnAgentServed(w, query);
      OwnAgent(w, query);
    } else {
      NoSlug(w.activeSlug);
    }
  }

  lemma NoSlug(slug: Option<string>)
    requires !Truthy(slug)
    ensures TrimmedOrEmpty(slug) == ""
  {
  }

  lemma OwnAgent(w: World, query: Query)
    requires HasOwn(w)
    ensures Step(w, ScopedUrl(w.activeSlug.value, "/agent", query)) == Serve(Url(AGENT, query))
  {
    hide Handle, NormalizeDashboardPath;
    AgentIsPlain();
    AgentIsNoShortcut();
    GetStartedIsSuffix();
    OwnServed(w, "/agent", query);
  }

  lemma OneMoreHop(w: World, url: Url, target: Url, n: nat)
    requires Step(w, url) == Redirect(target)
    ensures FinalPage(w, url, n + 1) == FinalPage(w, target, n)
  {
    hide Step;
  }

  /** Signing in without a callback leads to the pending invitation, else to the page where registration was left off,
      else to the agent page of the active organization. The front page does the same. */
  lemma SignInLands(w: World, query: Query)
    requires Live(w) && query.callback == None
    ensures var page :=
        if Pending(w) then InvitationPath(w.status.value.pendingInvitationId.value)
        else if Incomplete(w) then ResumePath(w.status.value)
        else Page(AGENT);
      FinalPage(w, Url("/login", query), 2) == Some(page) && FinalPage(w, Url("/", query), 2) == Some(page)
  {
    hide Step, ResumePath, OrganizationLanding, DashboardLanding, FinalPage;
    LoginStep(w, query);
    var to := PostAuthRedirect(w, query);
    OneMoreHop(w, Url("/login", query), to, 1);
    OneMoreHop(w, Url("/", query), to, 1);
    if Pending(w) {
      PageServed(w, "/invitation", to.query);
      ServedIsFinal(w, to, 1);
    } else if Incomplete(w) {
      ResumeIsSettled(w.status.value);
      ResumeServed(w);
      RegistrationServesItself(w, to);
      ServedIsFinal(w, to, 1);
    } else {
      LandingIsAgent(w, NO_QUERY);
    }
  }

  lemma ServedIsFinal(w: World, url: Url, n: nat)
    requires Step(w, url) == Serve(url)
    ensures FinalPage(w, url, n) == Some(url)
  {
    hide Step;
  }

  lemma RegistrationServesItself(w: World, url: Url)
    requires w.status.Some? && url == ResumePath(w.status.value) && ServedWithin(w, url, 0)
    ensures Step(w, url) == Serve(url)
  {
    hide Step, RegisterRedirect;
    if url.path == "/invitation" {
      PageServed(w, "/invitation", url.query);
    } else {
      RegisterOutcome(w, url.query);
    }
  }

  /** The dashboard's root and home lead an onboarded user to the agent page, with the query kept. */
  lemma DashboardRootLands(w: World, path: string, query: Query)
    requires Open(w) && Live(w) && path in {DASHBOARD, DASHBOARD + "/", DASHBOARD + HOME}
    ensures FinalPage(w, Url(path, query), 2) == Some(Url(AGENT, query))
  {
    hide Handle, NormalizeDashboardPath, DashboardLanding, FinalPage, IsDashboardRootPath, SlugOk;
    RootPathStep(w, path, query);
    OneMoreHop(w, Url(path, query), DashboardLanding(w.activeSlug, query), 1);
    LandingIsAgent(w, query);
  }

  lemma ShortIsUnscoped(suffix: string)
    requires IsSuffix(suffix) && |suffix| < 10
    ensures NormalizeDashboardPath(DASHBOARD + suffix).orgSlug.None?
  {
    hide IsSuffix;
    if NormalizeDashboardPath(DASHBOARD + suffix).orgSlug.Some? {
      NestedSlug(suffix);
      assert false;
    }
  }

  lemma RootShapes()
    ensures IsSuffix("") && IsSuffix("/") && IsSuffix(HOME)
    ensures DASHBOARD + "" == DASHBOARD && StartsWith(DASHBOARD + "/", "/dashboard/") && DASHBOARD != GET_STARTED
    ensures HOME != GET_STARTED && "/" != GET_STARTED && "" != GET_STARTED
  {
  }

  lemma RootPathStep(w: World, path: string, query: Query)
    requires Open(w) && path in {DASHBOARD, DASHBOARD + "/", DASHBOARD + HOME}
    ensures Step(w, Url(path, query)) == Redirect(DashboardLanding(w.activeSlug, query))
  {
    hide Handle, NormalizeDashboardPath, DashboardLanding;
    var suffix := if path == DASHBOARD then "" else if path == DASHBOARD + "/" then "/" else HOME;
    RootShapes();
    assert path == DASHBOARD + suffix;
    ShortIsUnscoped(suffix);
    Tails(suffix, GET_STARTED);
    RootsAreRoots();
    PlainStep(w, path, query, false);
    SessionPath(path);
    assert (DASHBOARD + HOME)[..11] == "/dashboard/";
  }

  // ----- Where sign-in may lead

  /** Nothing, or the slug of an organization that is not reserved. */
  predicate IsCallbackPrefix(prefix: string) {
    prefix != "" ==>
      prefix[0] == '/' && IsSlug(prefix[1..]) && Lower(prefix[1..]) !in RESERVED_SEGMENTS + {"nearzero"}
  }

  /** A dashboard page, scoped or not. */
  predicate IsDashboardPage(path: string, prefix: string, suffix: string) {
    path == prefix + DASHBOARD + suffix && IsCallbackPrefix(prefix) && (suffix == "" || suffix[0] == '/')
  }

  lemma CallbackSuffix(suffix: string)
    requires suffix == "" || suffix[0] == '/'
    ensures DASHBOARD + suffix == DASHBOARD || StartsWith(DASHBOARD + suffix, "/dashboard/")
  {
    if suffix != "" { assert (DASHBOARD + suffix)[..11] == "/dashboard/"; }
  }

  lemma ScopedCallbackPath(path: string, prefix: string, suffix: string)
    requires IsDashboardPage(path, prefix, suffix)
    ensures IsDashboardCallbackPath(path)
  {
    hide Find, Lower, IsSlug;
    var tail := DASHBOARD + suffix;
    CallbackSuffix(suffix);
    if prefix == "" {
      assert path == tail;
    } else {
      var slug := prefix[1..];
      SlugHasNoSlash(slug);
      assert path == "/" + slug + tail;
      FirstSegment(path, slug, tail);
      assert path[1 + |slug|..] == tail;
      SlugCallback(path, slug, tail);
    }
  }

  lemma SlugCallback(path: string, slug: string, tail: string)
    requires StartsWith(path, "/") && path[1..][..Find(path[1..], '/')] == slug && path[1 + |slug|..] == tail
    requires IsSlug(slug) && Lower(slug) !in RESERVED_SEGMENTS + {"nearzero"}
    requires tail == DASHBOARD || StartsWith(tail, "/dashboard/")
    ensures IsDashboardCallbackPath(path)
  {
    hide Find, Lower, IsSlug;
  }

  lemma CallbackParts(path: string) returns (prefix: string, suffix: string)
    requires IsDashboardCallbackPath(path)
    ensures IsDashboardPage(path, prefix, suffix)
  {
    hide Find, Lower, IsSlug;
    if path == DASHBOARD || StartsWith(path, "/dashboard/") {
      prefix, suffix := "", path[10..];
      assert "/dashboard/"[..10] == DASHBOARD && "/dashboard/"[10] == '/';
      assert path[..10] == DASHBOARD;
    } else {
      var slug := path[1..][..Find(path[1..], '/')];
      var tail := path[1 + |slug|..];
      prefix, suffix := "/" + slug, tail[10..];
      assert "/dashboard/"[..10] == DASHBOARD && "/dashboard/"[10] == '/';
      assert tail[..10] == DASHBOARD;
      assert path == "/" + slug + tail;
      assert prefix[1..] == slug;
    }
  }

  /** Sign-in follows a callback exactly to registration, to an invitation that carries a token, and to the dashboard
      pages of no organization or of one whose slug is not reserved. */
  lemma CallbacksExactly(target: Url)
    ensures IsAllowedAuthCallback(target) <==>
      || target.path == "/register"
      || (target.path == "/invitation" && TrimmedOrEmpty(target.query.token) != "")
      || exists prefix, suffix :: IsDashboardPage(target.path, prefix, suffix)
  {
    hide IsDashboardCallbackPath, IsDashboardPage, Trim;
    if IsDashboardCallbackPath(target.path) {
      var prefix, suffix := CallbackParts(target.path);
    }
    if prefix, suffix :| IsDashboardPage(target.path, prefix, suffix) {
      ScopedCallbackPath(target.path, prefix, suffix);
    }
  }

  // ----- Registration and invitations

  /** What a signed-out visitor of a registration URL ends up with. A token is lost on the retired steps, so
      that with sign-up closed an invited visitor is sent to log in from there. */
  lemma SignedOutRegistration(w: World, query: Query)
    requires !w.signedIn
    ensures var page := FinalPage(w, Url("/register", query), 2);
      var token := TrimmedOrEmpty(query.token);
      var retired := query.step.Some? && Lower(query.step.value) in {"verify", "source"};
      && page.Some?
      && page.value.path in {"/login", "/invitation", "/register"}
      && (page.value.path == "/login" <==> w.signupAllowed == Some(false) && (token == "" || retired))
      && (page.value.path == "/invitation" <==>
           token != "" && !retired && query.mode != Some(WORKSPACE_SETUP)
           && IsOnboardingRegisterStep(ParseRegisterStep(query.step)))
      && (page.value.path == "/invitation" ==> page.value == InvitationPath(token))
  {
    hide Step, Trim, Lower, ParseRegisterStep, RegisterPathForSession, SpaceFree;
    RegisterOutcome(w, query);
    RegisterOutcome(w, NO_QUERY);
    RegisterOutcome(w, RegisterStepPath(Profile, None).query);
    PlainRegisterRedirect(w, Signup, None);
    PlainRegisterRedirect(w, Profile, None);
    PageServed(w, "/login", NO_QUERY);
    PageServed(w, "/invitation", InvitationPath(TrimmedOrEmpty(query.token)).query);
  }

  /** A signed-in visitor with an invitation token is sent to that invitation, from every step but the retired ones,
      unless a workspace or invite-member setup is under way and the URL is not an onboarding step outside the
      workspace setup. */
  lemma SignedInInvitation(w: World, query: Query)
    requires w.signedIn && TrimmedOrEmpty(query.token) != ""
    requires !(query.step.Some? && Lower(query.step.value) in {"verify", "source"})
    ensures var response, token := Step(w, Url("/register", query)), TrimmedOrEmpty(query.token);
      var step, outside := ParseRegisterStep(query.step), query.mode != Some(WORKSPACE_SETUP);
      var status := if w.status.Some? then w.status.value else NO_SETUP;
      var inSetup := status.needsWorkspaceSetup || status.needsInviteMemberSetup;
      if (IsOnboardingRegisterStep(step) && outside) || !inSetup then
        response == Redirect(InvitationPath(token)) && ServedWithin(w, InvitationPath(token), 0)
      else if status.needsWorkspaceSetup then
        if step == Profile && !outside then response == Serve(Url("/register", query))
        else response == Redirect(WorkspaceSetupPath())
      else
        response == Redirect(if step == Invite then InviteMemberSetupPath(Workspace) else ResumePath(status))
  {
    hide Step, Trim, Lower, ParseRegisterStep, ResumePath;
    RegisterOutcome(w, query);
    InvitationServed(w, InvitationPath(TrimmedOrEmpty(query.token)).query);
    TrimTwice(query.token);
  }

  const NO_SETUP := Status(false, false, None, false, false, false)

  lemma TrimTwice(s: Option<string>)
    ensures TrimmedOrEmpty(Some(TrimmedOrEmpty(s))) == TrimmedOrEmpty(s)
  {
    hide Trim;
    if TrimmedOrEmpty(s) == "" { assert Trim("") == ""; }
  }

  /** The retired steps lead to the sign-up step and to the profile step, and the token is gone. */
  lemma RetiredSteps(w: World, query: Query)
    requires query.step.Some? && Lower(query.step.value) in {"verify", "source"}
    requires w.signedIn || w.signupAllowed != Some(false) || TrimmedOrEmpty(query.token) != ""
    ensures Step(w, Url("/register", query)) == Redirect(
      RegisterStepPath(if Lower(query.step.value) == "verify" then Signup else Profile, None))
  {
    hide Step, Trim, Lower, ParseRegisterStep;
    RegisterOutcome(w, query);
  }

  /** Without a token a signed-in visitor of a registration step that is not retired goes where the gate says. */
  lemma SignedInRegistration(w: World, query: Query)
    requires w.signedIn && TrimmedOrEmpty(query.token) == ""
    requires !(query.step.Some? && Lower(query.step.value) in {"verify", "source"})
    ensures Step(w, Url("/register", query)) ==
      match Gate(w.status, query)
      case Some(to) => Redirect(to)
      case None => Serve(Url("/register", query))
  {
    hide Step, Trim, Lower, ParseRegisterStep, ResumePath;
    RegisterOutcome(w, query);
  }

  lemma PageServed(w: World, path: string, query: Query)
    requires path == "/invitation" || (path == "/login" && !w.signedIn)
    ensures Step(w, Url(path, query)) == Serve(Url(path, query))
  {
    hide Handle, NormalizeDashboardPath;
    if path == "/login" { LoginServed(w, query); } else { InvitationServed(w, query); }
    NoSlashInside();
    OneSlashIsUnscoped(path);
    assert path[1] == 'l' || path[1] == 'i';
    assert DASHBOARD[1] == 'd';
    ServesOnlyItself(w, Url(path, query));
  }

  /** Logging in on the way to an invitation leads to it, exactly when it is still pending. */
  lemma InvitationSurvivesLogin(w: World, token: string)
    requires w.signedIn && Trim(token) != ""
    ensures var login, invitation := LoginFor(InvitationPath(token)), InvitationPath(Trim(token));
      && (Step(w, login) == Redirect(invitation) <==>
           Trim(token) in w.pendingTokens
           || (Pending(w) && w.status.value.pendingInvitationId == Some(Trim(token))))
      && (Step(w, login) == Redirect(invitation) ==> FinalPage(w, login, 1) == Some(invitation))
  {
    hide Handle, Trim, OrgDashboardPath, IsDashboardCallbackPath;
    LoginStep(w, LoginFor(InvitationPath(token)).query);
    PageServed(w, "/invitation", InvitationPath(Trim(token)).query);
  }

  // ----- Five redirects are needed

  /** An onboarded user of the organization "acme". */
  function LongestWorld(): World {
    World(true, Some(Status(true, true, None, false, false, false)), Some("acme"), Some(true), {})
  }

  /** Signing in on the way to another organization's retired guide, under a page called "dashboard". */
  function LongestUrl(): Url {
    LoginFor(ScopedUrl("other", DASHBOARD + GET_STARTED, NO_QUERY))
  }

  lemma FiveAreNeeded()
    ensures SlugOk(LongestWorld()) && !Looping(LongestWorld()) && ValidUrl(LongestUrl())
    ensures !ServedWithin(LongestWorld(), LongestUrl(), 4)
  {
    hide Handle, NormalizeDashboardPath, Trim, ServedWithin;
    var w := LongestWorld();
    var tail := DASHBOARD + GET_STARTED;
    var first := ScopedUrl("other", tail, NO_QUERY);
    var second := ScopedUrl("acme", tail, NO_QUERY);
    var third := ScopedUrl("dashboard", "/agent", NO_QUERY);
    LongestWorldIsFine();
    LongestSteps();
    RedirectCosts(w, Page(AGENT), ScopedUrl("acme", "/agent", NO_QUERY), 0);
    RedirectCosts(w, third, Page(AGENT), 1);
    RedirectCosts(w, second, third, 2);
    RedirectCosts(w, first, second, 3);
    RedirectCosts(w, LongestUrl(), first, 4);
  }

  lemma RedirectCosts(w: World, url: Url, target: Url, n: nat)
    requires Step(w, url) == Redirect(target) && (n > 0 ==> !ServedWithin(w, target, n - 1))
    ensures !ServedWithin(w, url, n)
  {
    hide Step;
  }

  lemma LongestWorldIsFine()
    ensures SlugOk(LongestWorld()) && !Looping(LongestWorld()) && HasOwn(LongestWorld()) && ValidUrl(LongestUrl())
  {
    hide Lower;
    assert Lower("acme") == "acme";
    AcmeIsFree();
    LongestPathIsSpaceFree();
  }

  lemma AcmeIsFree()
    ensures "acme" !in RESERVED_SEGMENTS && "acme" != "setup" && IsSlug("acme")
  {
    assert "acme"[1] == 'c' && "api"[1] == 'p' && "accept-invitation"[2] == 'c';
  }

  lemma LongestPathIsSpaceFree()
    ensures SpaceFree(ScopedUrl("other", DASHBOARD + GET_STARTED, NO_QUERY).path) && SpaceFree("/login")
  {
    SpaceFreeLiterals();
    assert SpaceFree("/" + "other") && SpaceFree(DASHBOARD) && SpaceFree(GET_STARTED);
    assert forall a, b :: SpaceFree(a) && SpaceFree(b) ==> SpaceFree(a + b);
  }

  lemma LongestSteps()
    ensures var w, tail := LongestWorld(), DASHBOARD + GET_STARTED;
      && Step(w, LongestUrl()) == Redirect(ScopedUrl("other", tail, NO_QUERY))
      && Step(w, ScopedUrl("other", tail, NO_QUERY)) == Redirect(ScopedUrl("acme", tail, NO_QUERY))
      && Step(w, ScopedUrl("acme", tail, NO_QUERY)) == Redirect(ScopedUrl("dashboard", "/agent", NO_QUERY))
      && Step(w, ScopedUrl("dashboard", "/agent", NO_QUERY)) == Redirect(Page(AGENT))
      && Step(w, Page(AGENT)) == Redirect(ScopedUrl("acme", "/agent", NO_QUERY))
  {
    hide Step;
    LongestStep1();
    LongestStep2();
    LongestStep3();
    LongestStep4();
    LongestStep5();
  }

  /** Pages of an unreserved organization are allowed as callbacks. */
  lemma ScopedIsCallback(slug: string, suffix: string)
    requires IsSlug(slug) && Lower(slug) !in RESERVED_SEGMENTS + {"nearzero"} && IsSuffix(suffix)
    ensures IsDashboardCallbackPath("/" + slug + DASHBOARD + suffix)
  {
    hide Find, Lower;
    SlugHasNoSlash(slug);
    var path := "/" + slug + DASHBOARD + suffix;
    FindAt(slug, '/', "dashboard" + suffix);
    assert path[1..] == slug + ['/'] + ("dashboard" + suffix);
    assert path[1..][..|slug|] == slug;
    assert path[1 + |slug|..] == DASHBOARD + suffix;
    if suffix != "" { assert (DASHBOARD + suffix)[..11] == "/dashboard/"; }
  }

  lemma LongestStep1()
    ensures Step(LongestWorld(), LongestUrl()) == Redirect(ScopedUrl("other", DASHBOARD + GET_STARTED, NO_QUERY))
  {
    hide Handle, IsSlug, IsDashboardCallbackPath, IsSuffix, SpaceFree;
    var tail := DASHBOARD + GET_STARTED;
    var first := ScopedUrl("other", tail, NO_QUERY);
    LoginStep(LongestWorld(), LongestUrl().query);
    OtherIsPlain();
    TailIsNoShortcut();
    ScopedIsCallback("other", tail);
    assert first.path[6] == '/';
    SecondSlash(first.path, 6);
  }

  lemma OtherIsPlain()
    ensures Lower("other") == "other" && IsSlug("other") && Lower("other") !in RESERVED_SEGMENTS + {"nearzero"}
  {
    assert Lower("other") == "other";
  }

  lemma TailIsNoShortcut()
    ensures OwnSuffix(DASHBOARD + GET_STARTED)
    ensures DASHBOARD + (DASHBOARD + GET_STARTED) != DASHBOARD + HOME
  {
    var tail := DASHBOARD + GET_STARTED;
    assert tail[1] == 'd' && GET_STARTED[1] == 'g' && HOME[1] == 'h';
    Tails(tail, HOME);
    assert SpaceFree(tail) by { LongestPathIsSpaceFree(); }
    SpaceFreeSuffix(tail, 0);
    assert tail[0..] == tail;
  }

  lemma LongestStep2()
    ensures var w, tail := LongestWorld(), DASHBOARD + GET_STARTED;
      Step(w, ScopedUrl("other", tail, NO_QUERY)) == Redirect(ScopedUrl("acme", tail, NO_QUERY))
  {
    hide Handle, NormalizeDashboardPath, IsSlug, IsDashboardRootPath, OrgDashboardPath, IsSuffix;
    var w, tail := LongestWorld(), DASHBOARD + GET_STARTED;
    OtherIsPlain();
    TailIsNoShortcut();
    ScopedStep(w, "other", tail, NO_QUERY, false);
    ScopedRoot("other", tail);
    ScopingIsScopedUrl("acme", tail, NO_QUERY);
  }

  lemma LongestStep3()
    ensures var w, tail := LongestWorld(), DASHBOARD + GET_STARTED;
      Step(w, ScopedUrl("acme", tail, NO_QUERY)) == Redirect(ScopedUrl("dashboard", "/agent", NO_QUERY))
  {
    hide Handle, NormalizeDashboardPath, OrgDashboardPath, IsSuffix, Trim;
    var w, tail := LongestWorld(), DASHBOARD + GET_STARTED;
    LongestWorldIsFine();
    TailIsNoShortcut();
    OwnStep(w, tail, NO_QUERY);
    assert DASHBOARD + tail == "/" + "dashboard" + DASHBOARD + GET_STARTED;
    GetStartedIsSuffix();
    RecognisesScopedPath("dashboard", GET_STARTED);
    NestedRewrite(w, tail, NO_QUERY);
    DashboardIsReserved();
    ScopingIsScopedUrl("dashboard", "/agent", NO_QUERY);
  }

  lemma GetStartedIsSuffix()
    ensures IsSuffix(GET_STARTED) && '/' !in "dashboard"
  {
  }

  lemma LongestStep4()
    ensures Step(LongestWorld(), ScopedUrl("dashboard", "/agent", NO_QUERY)) == Redirect(Page(AGENT))
  {
    hide Handle, IsReservedOrgSegment, GuardDashboardAccess, OrgDashboardPath, Guarded, ScopedUrl, Step;
    hide LongestWorld, Trim;
    DashboardIsReserved();
    GetStartedIsSuffix();
    assert "dashboard" != "setup" by { assert |"dashboard"| == 9 && |"setup"| == 5; }
    ScopedAgentStep(LongestWorld(), "dashboard", NO_QUERY);
  }

  lemma LongestStep5()
    ensures Step(LongestWorld(), Page(AGENT)) == Redirect(ScopedUrl("acme", "/agent", NO_QUERY))
  {
    hide Handle, NormalizeDashboardPath, OrgDashboardPath, IsDashboardRootPath;
    AgentIsPlain();
    AgentIsNoShortcut();
    PlainStep(LongestWorld(), AGENT, NO_QUERY, false);
    ScopingIsScopedUrl("acme", "/agent", NO_QUERY);
  }
}
