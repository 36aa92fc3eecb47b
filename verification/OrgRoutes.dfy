/** Organization-scoped dashboard paths: "/<slug>/dashboard..." and back. */
module OrgRoutes {
  import opened Text

  const DASHBOARD := "/dashboard"
  const AGENT := DASHBOARD + "/agent"

  const RESERVED_SEGMENTS := {
    "api", "register", "login", "invitation", "dashboard", "accept-invitation", "_astro"
  }

  /** Characters the regular-expression dot does not match. */
  predicate IsLineBreak(c: char) {
    c in {'\n', '\r', '\U{2028}', '\U{2029}'}
  }

  /** What may follow "/dashboard" in a scoped path: nothing, or a slash and one line of text. */
  predicate IsSuffix(suffix: string) {
    suffix != "" ==> suffix[0] == '/' && forall c :: c in suffix ==> !IsLineBreak(c)
  }

  datatype DashboardRoute = DashboardRoute(orgSlug: Option<string>, dashboardPath: string)

  function NormalizeDashboardPath(path: string): (r: DashboardRoute)
    ensures r.orgSlug.None? ==> r.dashboardPath == path
    ensures r.orgSlug.Some? ==>
      && r.orgSlug.value != "" && '/' !in r.orgSlug.value
      && path == "/" + r.orgSlug.value + r.dashboardPath
      && DASHBOARD <= r.dashboardPath && IsSuffix(r.dashboardPath[|DASHBOARD|..])
  {
    if path == "" || path[0] != '/' then DashboardRoute(None, path)
    else
      var rest := path[1..];
      var k := Find(rest, '/');
      if 0 < k && DASHBOARD <= rest[k..] && IsSuffix(rest[k..][|DASHBOARD|..])
      then DashboardRoute(Some(rest[..k]), rest[k..])
      else DashboardRoute(None, path)
  }

  function OrgDashboardPath(orgSlug: string, dashboardPath: string): string {
    var normalized :=
      if StartsWith(dashboardPath, DASHBOARD) then dashboardPath
      else DASHBOARD + (if StartsWith(dashboardPath, "/") then dashboardPath else "/" + dashboardPath);
    var suffix := if normalized == DASHBOARD then "/agent" else normalized[|DASHBOARD|..];
    "/" + orgSlug + DASHBOARD + suffix
  }

  predicate IsReservedOrgSegment(segment: string) {
    Lower(segment) in RESERVED_SEGMENTS
  }

  /** The path without one trailing slash. */
  function DropSlash(path: string): string {
    if EndsWith(path, "/") then path[..|path| - 1] else path
  }

  predicate IsDashboardRootPath(path: string) {
    || DropSlash(path) == DASHBOARD
    || var route := NormalizeDashboardPath(path);
       route.orgSlug.Some? && DropSlash(route.dashboardPath) == DASHBOARD
  }

  function ScopeDashboardHref(path: string, orgSlug: Option<string>): string {
    if orgSlug.None? || Trim(orgSlug.value) == "" || !StartsWith(path, DASHBOARD) then path
    else OrgDashboardPath(Trim(orgSlug.value), path)
  }

  // ----- Properties

  /** Every well-shaped scoped path is recognised, whatever the slug. */
  lemma RecognisesScopedPath(slug: string, suffix: string)
    requires slug != "" && '/' !in slug && IsSuffix(suffix)
    ensures NormalizeDashboardPath("/" + slug + DASHBOARD + suffix)
         == DashboardRoute(Some(slug), DASHBOARD + suffix)
  {
    hide Find, IsSuffix;
    var tail := "dashboard" + suffix;
    var rest := slug + ['/'] + tail;
    FindAt(slug, '/', tail);
    assert ['/'] + tail == DASHBOARD + suffix;
    assert "/" + slug + DASHBOARD + suffix == "/" + rest;
    assert rest[|slug|..] == DASHBOARD + suffix && rest[..|slug|] == slug;
    assert (DASHBOARD + suffix)[|DASHBOARD|..] == suffix;
  }

  lemma Tails(a: string, b: string)
    ensures DASHBOARD + a == DASHBOARD + b <==> a == b
    ensures (DASHBOARD + a)[|DASHBOARD|..] == a
  {
    assert (DASHBOARD + a)[|DASHBOARD|..] == a && (DASHBOARD + b)[|DASHBOARD|..] == b;
  }

  /** Unscoping undoes scoping, for every slash-free slug and every dashboard path. */
  lemma NormalizeInvertsScoping(slug: string, suffix: string)
    requires slug != "" && '/' !in slug
    requires suffix != "" && IsSuffix(suffix)
    ensures NormalizeDashboardPath(OrgDashboardPath(slug, DASHBOARD + suffix))
         == DashboardRoute(Some(slug), DASHBOARD + suffix)
  {
    RecognisesScopedPath(slug, suffix);
    assert (DASHBOARD + suffix)[|DASHBOARD|..] == suffix;
  }

  /** A page given without "/dashboard", with or without a slash in front, is scoped as that page of the dashboard. */
  lemma ScopingCompletesPath(slug: string, page: string)
    requires !StartsWith(page, "/")
    ensures OrgDashboardPath(slug, page) == "/" + slug + DASHBOARD + "/" + page
    ensures !StartsWith("/" + page, DASHBOARD) ==> OrgDashboardPath(slug, "/" + page) == OrgDashboardPath(slug, page)
    ensures OrgDashboardPath(slug, DASHBOARD) == "/" + slug + AGENT
  {
    assert DASHBOARD[0] == '/' && ("/" + page)[0] == '/';
    var full := DASHBOARD + ("/" + page);
    assert full[|DASHBOARD|..] == "/" + page;
    assert "/" + slug + DASHBOARD + ("/" + page) == "/" + slug + DASHBOARD + "/" + page;
    assert "/" + slug + DASHBOARD + "/agent" == "/" + slug + AGENT;
  }

  /** Reserved segments are recognised in any case, and a blank slug scopes nothing. */
  lemma CaseAndBlanks(segment: string, path: string)
    ensures IsReservedOrgSegment(segment) <==> IsReservedOrgSegment(Lower(segment))
    ensures Trim(segment) == "" ==> ScopeDashboardHref(path, Some(segment)) == path
    ensures ScopeDashboardHref(path, Some(segment)) == ScopeDashboardHref(path, Some(Trim(segment)))
  {
    hide Trim, Lower;
    assert Lower(Lower(segment)) == Lower(segment);
    if Trim(segment) == "" { assert Trim("") == ""; } else { assert Trim(Trim(segment)) == Trim(segment); }
  }

  lemma ScopedLooksUnscoped(slug: string, tail: string)
    requires slug != ""
    ensures DASHBOARD <= "/" + slug + DASHBOARD + tail <==> "dashboard" <= slug
  {
    var p := "/" + slug + DASHBOARD + tail;
    assert p[1..][..|slug|] == slug;
    if |slug| >= 9 {
      assert p[..10] == "/" + slug[..9] && DASHBOARD == "/" + "dashboard";
    } else {
      // The slash after the slug stands where DASHBOARD has a letter.
      assert p[1 + |slug|] == '/' != DASHBOARD[1 + |slug|];
    }
  }

  /** Scoping a link twice is scoping it once, exactly when the slug does not itself begin with "dashboard". */
  lemma ScopingTwice(path: string, slug: string)
    requires Trim(slug) != "" && StartsWith(path, DASHBOARD)
    ensures var once := ScopeDashboardHref(path, Some(slug));
      ScopeDashboardHref(once, Some(slug)) == once <==> !StartsWith(Trim(slug), "dashboard")
  {
    TwiceScoped(Trim(slug), path);
  }

  lemma TwiceScoped(slug: string, path: string)
    requires slug != "" && StartsWith(path, DASHBOARD)
    ensures StartsWith(OrgDashboardPath(slug, path), DASHBOARD) <==> StartsWith(slug, "dashboard")
    ensures var once := OrgDashboardPath(slug, path);
      StartsWith(once, DASHBOARD) ==> OrgDashboardPath(slug, once) != once
  {
    var tail := if path == DASHBOARD then "/agent" else path[|DASHBOARD|..];
    var once := "/" + slug + DASHBOARD + tail;
    assert once == OrgDashboardPath(slug, path);
    ScopedLooksUnscoped(slug, tail);
    if StartsWith(once, DASHBOARD) {
      assert |OrgDashboardPath(slug, once)| == |once| + 1 + |slug|;
    }
  }
}
