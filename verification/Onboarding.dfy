/** The registration steps and the gate that keeps a session on the right one. */
module Onboarding {
  import opened Text
  import OrgRoutes

  /** The query parameters the console reads; everything else travels in rest. The
      callback is the target of callbackUrl, None when it is missing, not root-relative or
      does not parse to this origin. */
  datatype Query = Query(
    token: Option<string>, step: Option<string>, mode: Option<string>, callback: Option<Url>, rest: string)

  datatype Url = Url(path: string, query: Query)

  const NO_QUERY := Query(None, None, None, None, "")

  function Page(path: string): Url {
    Url(path, NO_QUERY)
  }

  datatype RegisterStep = Signup | Verify | Profile | Role | Workspace | Invite

  datatype Status = Status(
    complete: bool,
    profileComplete: bool,
    pendingInvitationId: Option<string>,
    needsWorkspaceSetup: bool,
    needsInviteMemberSetup: bool,
    inviteMemberProfileComplete: bool)

  const WORKSPACE_SETUP := "workspace-setup"
  const INVITE_MEMBER := "invite-member"

  predicate IsOnboardingRegisterStep(step: RegisterStep) {
    step in {Profile, Role, Workspace, Invite}
  }

  function StepName(step: RegisterStep): string {
    match step
    case Signup => "signup"
    case Verify => "verify"
    case Profile => "profile"
    case Role => "role"
    case Workspace => "workspace"
    case Invite => "invite"
  }

  function ParseRegisterStep(raw: Option<string>): RegisterStep {
    var value := if raw.None? then "" else Lower(Trim(raw.value));
    if value == "verify" then Verify
    else if value == "profile" || value == "source" then Profile
    else if value == "role" then Role
    else if value == "workspace" then Workspace
    else if value == "invite" then Invite
    else Signup
  }

  function RegisterStepPath(step: RegisterStep, mode: Option<string>): Url {
    Url("/register", NO_QUERY.(step := if step == Signup then None else Some(StepName(step)), mode := mode))
  }

  function InvitationPath(token: string): Url {
    Url("/invitation", NO_QUERY.(token := Some(token)))
  }

  function WorkspaceSetupPath(): Url {
    RegisterStepPath(Profile, Some(WORKSPACE_SETUP))
  }

  function InviteMemberSetupPath(step: RegisterStep): Url {
    RegisterStepPath(step, Some(INVITE_MEMBER))
  }

  /** A value JavaScript treats as true: present and not empty. */
  predicate Truthy(s: Option<string>) {
    s.Some? && s.value != ""
  }

  function TrimmedOrEmpty(s: Option<string>): string {
    if s.Some? then Trim(s.value) else ""
  }

  function ResumePath(status: Status): Url {
    if Truthy(status.pendingInvitationId) then InvitationPath(status.pendingInvitationId.value)
    else if status.needsWorkspaceSetup then WorkspaceSetupPath()
    else if status.needsInviteMemberSetup then
      InviteMemberSetupPath(if status.inviteMemberProfileComplete then Role else Profile)
    else RegisterStepPath(if status.profileComplete then Role else Profile, None)
  }

  /** Where a signed-in session on the given step must go; None when it may stay. */
  function RegisterPathForSession(
    step: RegisterStep, status: Option<Status>, token: Option<string>, mode: Option<string>): Option<Url>
  {
    if status.Some? && status.value.needsWorkspaceSetup then
      if step == Profile && mode == Some(WORKSPACE_SETUP) then None else Some(WorkspaceSetupPath())
    else if status.Some? && status.value.needsInviteMemberSetup then
      if step == Signup || step == Verify then Some(ResumePath(status.value))
      else if step == Invite then Some(InviteMemberSetupPath(Workspace))
      else if mode == Some(INVITE_MEMBER) then
        if !status.value.inviteMemberProfileComplete && step != Profile then Some(InviteMemberSetupPath(Profile))
        else if status.value.inviteMemberProfileComplete && step == Profile then Some(InviteMemberSetupPath(Role))
        else None
      else Some(ResumePath(status.value))
    else
      var pending := if status.Some? then TrimmedOrEmpty(status.value.pendingInvitationId) else "";
      var invite := if TrimmedOrEmpty(token) != "" then TrimmedOrEmpty(token) else pending;
      if invite != "" then Some(InvitationPath(invite))
      else if status.None? then None
      else if status.value.complete then Some(Page(OrgRoutes.AGENT))
      else if step == Verify then Some(ResumePath(status.value))
      else if IsOnboardingRegisterStep(step) then
        if !status.value.profileComplete && step != Profile then Some(RegisterStepPath(Profile, None)) else None
      else Some(ResumePath(status.value))
  }

  /** The gate as a /register URL meets it. */
  function Gate(status: Option<Status>, query: Query): Option<Url> {
    RegisterPathForSession(ParseRegisterStep(query.step), status, query.token, query.mode)
  }

  /** The gate lets the URL be served, or the URL is not a registration page. */
  predicate Settled(status: Option<Status>, url: Url) {
    url.path == "/register" ==> Gate(status, url.query).None?
  }

  // ----- Properties

  lemma StepNamesDiffer()
    ensures "signup"[0] == "source"[0] == 's' && "source"[1] == 'o'
    ensures "verify"[0] == 'v' && "profile"[0] == 'p' && "role"[0] == 'r' && "workspace"[0] == 'w' && "invite"[0] == 'i'
  {
  }

  lemma PlainName(name: string)
    requires name != "" && forall c :: c in name ==> 'a' <= c <= 'z'
    ensures Lower(Trim(name)) == name
  {
    hide Trim, Lower;
    assert name[0] in name && name[|name| - 1] in name;
    assert Trim(name) == name;
    assert forall i :: 0 <= i < |name| ==> name[i] in name;
    assert Lower(name) == name;
  }

  lemma StepNamesRoundTrip(step: RegisterStep)
    ensures ParseRegisterStep(Some(StepName(step))) == step
  {
    hide Trim, Lower;
    PlainName(StepName(step));
    StepNamesDiffer();
  }

  lemma StepPathRoundTrip(step: RegisterStep, mode: Option<string>)
    ensures ParseRegisterStep(RegisterStepPath(step, mode).query.step) == step
  {
    StepNamesRoundTrip(step);
  }

  /** The resume page is a page the gate accepts, except for a user who has nothing left to resume. */
  lemma ResumeIsSettled(status: Status)
    ensures Settled(Some(status), ResumePath(status))
      <==> !(status.complete
             && !Truthy(status.pendingInvitationId)
             && !status.needsWorkspaceSetup
             && !status.needsInviteMemberSetup)
  {
    hide ParseRegisterStep, Trim, TrimStart, TrimEnd;
    StepPathRoundTrip(Role, None);
    StepPathRoundTrip(Profile, None);
    StepPathRoundTrip(Role, Some(INVITE_MEMBER));
    StepPathRoundTrip(Profile, Some(INVITE_MEMBER));
    StepPathRoundTrip(Profile, Some(WORKSPACE_SETUP));
  }

  /** The one URL whose redirect target the gate redirects again: the invite step of a member without a profile. */
  predicate InviteBeforeProfile(status: Option<Status>, query: Query) {
    && status.Some?
    && status.value.needsInviteMemberSetup
    && !status.value.needsWorkspaceSetup
    && !status.value.inviteMemberProfileComplete
    && ParseRegisterStep(query.step) == Invite
  }

  /** A gate redirect leads to a page the gate accepts, except in that one case. */
  lemma GateIsFixedPoint(status: Option<Status>, query: Query)
    requires Gate(status, query).Some?
    ensures Settled(status, Gate(status, query).value) <==> !InviteBeforeProfile(status, query)
  {
    hide ParseRegisterStep, Trim, TrimStart, TrimEnd;
    if status.Some? {
      ResumeIsSettled(status.value);
    }
    StepPathRoundTrip(Workspace, Some(INVITE_MEMBER));
    StepPathRoundTrip(Profile, Some(INVITE_MEMBER));
    StepPathRoundTrip(Role, Some(INVITE_MEMBER));
    StepPathRoundTrip(Profile, Some(WORKSPACE_SETUP));
    StepPathRoundTrip(Profile, None);
  }

  /** Two redirects of the gate always reach a page it accepts. */
  lemma GateSettlesInTwo(status: Option<Status>, query: Query)
    requires Gate(status, query).Some?
    requires !Settled(status, Gate(status, query).value)
    ensures var first := Gate(status, query).value;
      Gate(status, first.query).Some? && Settled(status, Gate(status, first.query).value)
  {
    hide ParseRegisterStep, Trim, TrimStart, TrimEnd;
    GateIsFixedPoint(status, query);
    GateIsFixedPoint(status, Gate(status, query).value.query);
    StepPathRoundTrip(Workspace, Some(INVITE_MEMBER));
  }

  /** The user still owes the profile their situation asks for. */
  predicate OwesProfile(status: Status) {
    || status.needsWorkspaceSetup
    || if status.needsInviteMemberSetup then !status.inviteMemberProfileComplete else !status.profileComplete
  }

  predicate AsksForProfile(url: Url) {
    url.path == "/register" && ParseRegisterStep(url.query.step) == Profile
  }

  /** No later step is served to a user who owes a profile, and no redirect asks for it again once it is there. */
  lemma ProfileFirstAndOnce(status: Status, query: Query)
    ensures OwesProfile(status) && Gate(Some(status), query).None? ==> ParseRegisterStep(query.step) == Profile
    ensures !OwesProfile(status) && Gate(Some(status), query).Some? ==> !AsksForProfile(Gate(Some(status), query).value)
    ensures !Truthy(status.pendingInvitationId) ==> (OwesProfile(status) <==> AsksForProfile(ResumePath(status)))
  {
    hide ParseRegisterStep, Trim, TrimStart, TrimEnd;
    StepPathRoundTrip(Workspace, Some(INVITE_MEMBER));
    StepPathRoundTrip(Profile, Some(INVITE_MEMBER));
    StepPathRoundTrip(Role, Some(INVITE_MEMBER));
    StepPathRoundTrip(Profile, Some(WORKSPACE_SETUP));
    StepPathRoundTrip(Profile, None);
    StepPathRoundTrip(Role, None);
  }

  /** The place of a step in the registration. */
  function Place(step: RegisterStep): nat {
    match step
    case Signup => 0
    case Verify => 1
    case Profile => 2
    case Role => 3
    case Workspace => 4
    case Invite => 5
  }

  /** Without an invitation to answer a user resumes at the profile or, once it is there, at the step after it, in the
      mode of the setup under way. */
  lemma ResumesAtNextStep(status: Status)
    requires !Truthy(status.pendingInvitationId)
    ensures var url := ResumePath(status);
      && url.path == "/register" && url.query.token == None
      && Place(ParseRegisterStep(url.query.step)) == Place(Profile) + (if OwesProfile(status) then 0 else 1)
      && url.query.mode ==
        (if status.needsWorkspaceSetup then Some(WORKSPACE_SETUP)
         else if status.needsInviteMemberSetup then Some(INVITE_MEMBER) else None)
  {
    hide ParseRegisterStep;
    StepPathRoundTrip(Profile, Some(INVITE_MEMBER));
    StepPathRoundTrip(Role, Some(INVITE_MEMBER));
    StepPathRoundTrip(Profile, Some(WORKSPACE_SETUP));
    StepPathRoundTrip(Profile, None);
    StepPathRoundTrip(Role, None);
  }

  /** The invitation the gate knows of: that of the URL, else a pending one; empty when there is none. */
  function KnownInvitation(status: Option<Status>, query: Query): string {
    if TrimmedOrEmpty(query.token) != "" then TrimmedOrEmpty(query.token)
    else if status.Some? then TrimmedOrEmpty(status.value.pendingInvitationId)
    else ""
  }

  /** Who is served which registration page: a workspace owner the workspace profile; an invited member the profile
      until it is there and then the other onboarding steps but invite; anyone else, without an invitation and not yet
      onboarded, the profile and, once it is there, every onboarding step. */
  lemma GateServesExactly(status: Option<Status>, query: Query)
    ensures var step := ParseRegisterStep(query.step);
      Gate(status, query).None? <==>
        if status.None? then KnownInvitation(status, query) == ""
        else if status.value.needsWorkspaceSetup then step == Profile && query.mode == Some(WORKSPACE_SETUP)
        else if status.value.needsInviteMemberSetup then
          && query.mode == Some(INVITE_MEMBER)
          && step in (if status.value.inviteMemberProfileComplete then {Role, Workspace} else {Profile})
        else
          && KnownInvitation(status, query) == "" && !status.value.complete
          && step in (if status.value.profileComplete then {Profile, Role, Workspace, Invite} else {Profile})
  {
    hide ParseRegisterStep, Trim;
    var step := ParseRegisterStep(query.step);
    assert step == Signup || step == Verify || step == Profile || step == Role || step == Workspace || step == Invite;
  }

  /** Where everybody else is sent: to the invitation, to the dashboard when onboarded, and otherwise to the page
      where the user left off. Only the invite step of an invited member and that member's own setup pages do not lead
      there. */
  lemma GateLeads(status: Option<Status>, query: Query)
    requires Gate(status, query).Some?
    ensures var to, step := Gate(status, query).value, ParseRegisterStep(query.step);
      var invitation := KnownInvitation(status, query);
      if status.None? then to == InvitationPath(invitation)
      else if status.value.needsWorkspaceSetup then to == WorkspaceSetupPath()
      else if status.value.needsInviteMemberSetup then
        if step == Invite then to == InviteMemberSetupPath(Workspace)
        else
          || to == ResumePath(status.value)
          || (query.mode == Some(INVITE_MEMBER) && step in {Profile, Role, Workspace}
              && to == ResumePath(status.value.(pendingInvitationId := None)))
      else
        to == if invitation != "" then InvitationPath(invitation)
              else if status.value.complete then Page(OrgRoutes.AGENT)
              else ResumePath(status.value.(pendingInvitationId :=
                if Truthy(status.value.pendingInvitationId) && step in {Signup, Verify}
                then status.value.pendingInvitationId else None))
  {
    hide ParseRegisterStep, Trim;
  }

  /** A step is read in any case and with white space around it; "source" is an old name of the profile step. */
  lemma ParsesLoosely(raw: string, step: RegisterStep)
    requires step != Signup
    ensures ParseRegisterStep(Some(raw)) == step
      <==> Lower(Trim(raw)) == StepName(step) || (step == Profile && Lower(Trim(raw)) == "source")
  {
    hide Trim, Lower;
    StepNamesDiffer();
  }

  /** The pages the gate can redirect to. */
  lemma GateTargets(status: Option<Status>, query: Query) returns (step: RegisterStep, mode: Option<string>)
    requires Gate(status, query).Some?
    ensures var to := Gate(status, query).value;
      || to.path == "/invitation"
      || to == Page(OrgRoutes.AGENT)
      || (to == RegisterStepPath(step, mode) && step != Verify)
    ensures Gate(status, query).value == Page(OrgRoutes.AGENT) ==> status.Some? && status.value.complete
    ensures InviteBeforeProfile(status, query) ==> Gate(status, query).value == InviteMemberSetupPath(Workspace)
  {
    hide ParseRegisterStep, Trim;
    var to := Gate(status, query).value;
    step, mode := Profile, to.query.mode;
    if to == RegisterStepPath(Role, mode) { step := Role; }
    if to == RegisterStepPath(Workspace, mode) { step := Workspace; }
  }
}
