# Verification of the Nearzero console, DNS init and monitoring logic

A Dafny 4.11 model of the parts of Nearzero whose correctness rests on an argument rather than on one
function body. `dafny verify dfyconfig.toml` checks all of it.

| files | what they model |
|---|---|
| `OrgRoutes`, `Onboarding`, `Router`, `RouterTermination`, `RouterTheorems` | the console's redirect router: paths scoped by organization, the registration gate, one request in a fixed backend state, and chains of redirects |
| `DerReader`, `DerScan`, `DerEncoding`, `DerNames`, `DerText`, `DerLoop` | the certificate reader that walks over DER bytes, its loop for the common name, an encoder written from X.690 and RFC 5280, when the loop finds the name, and when it ends |
| `CookieSplit` | splitting a joined Set-Cookie header |
| `DeploymentLogs` | folding progress lines and rendering log rows incrementally |
| `DockerLogs` | the 500-line window on a log stream and the token-guarded sockets that feed it |
| `AsyncRegion` | overlapping page loads for one dashboard outlet, with time |
| `MatrixOrders` | the walking orders of the dot matrix, for any side length |
| `DnsNames`, `DnsInit` | names of the managed zone and the init step that is rerun at every start |
| `EnvBlock` | printing, parsing and importing environment variables |
| `Timestamps` | trimmed timestamps used as text by retention and history queries |
| `Text` | trimming, splitting, joining and decimal digits |

## What the proofs found

- A chain of redirects can need five hops, not fewer: signing in with a callback to
  `/other/dashboard/dashboard/get-started` while another organization is active takes all five.
- An active organization whose slug is `setup` sends its users in a circle between `/login` and
  `/setup/dashboard/agent`, because the retired wizard's path is handled first and is not among the reserved
  segments. A reserved slug loops between `/dashboard/agent` and its scoped form. In every other backend state no
  chain loops.
- The registration gate redirects its own redirect once: an invited member without a profile who opens the invite
  step is sent to the workspace step and from there to the profile step.
- An invited visitor who is signed out loses the invitation token on the retired steps `verify` and `source`; with
  sign-up closed the visitor ends on the login page.
- The common-name scan takes any byte 0x31 for the start of a field. A value that ends in the digit 1 swallows the
  tag of the attribute right behind it: a common name standing there is missed; when an attribute without that digit
  stands in between, it is found. A length of 2^31 or more in a value can send the loop back to where it was, for ever.
- A failed refetch of build logs leaves its message under rows that the next refetch appends, unless the first
  line of the logs has changed.
- The load that has waited out the minimum spinner time swaps without checking that it still owns the outlet. The
  last navigation wins all the same, as long as its own page loads. When it fails, a load that waits at that moment
  replaces the error by an older page.
- Within one second the text order of trimmed timestamps is not time order. A cutoff on a whole second deletes
  every row of that second, newer ones included.
- A legacy zone file whose copy was cut off stays cut off unless the part that was copied begins with the marker and
  the configuration names that zone (`DnsInit.TruncatedCopyStays`). A Corefile that was cut off stays so as well.

## How the model is set up

A URL is a path and the query parameters the console reads; the callback parameter is its parsed target. The backend
state of one chain (session, onboarding status, active organization, registration status, pending invitations) is
fixed. Paths hold no white space, since URL parsing percent-encodes it. An internal rewrite runs the handler again on
the unscoped path with the rewrite header set, as the comment at `apps/console/src/middleware.ts:32` says it does.

Certificates are bytes. Reading past the end gives JavaScript's undefined, which takes part in arithmetic as NaN does;
the shift in the length loop wraps to 32 bits. The subject loop is modelled as rounds that may lead backwards; its
method records the offsets it has been at and returns `Endless` on coming to one again, where the source goes on for
ever. Bytes are in step when the scan, run on them alone, comes out exactly at their end. For attributes of at most
129 bytes this needs no reader: from a byte other than 0x31 the stride is 1; from 0x31 it is 3, or 5 when the byte two
places on is 0x30, and only the start of an attribute has the byte 6 four places on. An attribute is quiet when no
other 0x31 in its encoding has such a byte 6, or a long length, behind it. The public key follows the subject, as
section 4.1 of RFC 5280 requires.

The log panel, the log sockets, the outlet, the DNS volume, the env wizard and the metric tables are classes whose
methods are proved equal to steps of a transition function; the theorems are about every run of those steps. Timers
are exact: time does not pass a waiting load's deadline before it swaps. The two animation frames between a navigation
and the start of its load take at least one millisecond.

A start of the DNS init is also given as its single writes and its rename. A start that is cut off has performed some of
them, and of the next write only the first characters are in the file.

## Model

| member | source | states |
|---|---|---|
| `RouterTheorems.RedirectsEnd` | apps/console/src/middleware.ts:145-363 | In every fixed backend state with a well-formed active slug, every URL is served within five redirects if and only if a signed-in user with nothing pending does not have an active slug that is "setup" or reserved |
| `RouterTheorems.FiveAreNeeded` | apps/console/src/middleware.ts:213-216 | A concrete user and URL that really need five redirects, so the bound cannot be lowered (the live script allows a chain of ten) |
| `RouterTheorems.NoChainInALoop` | apps/console/src/middleware.ts:162-165 | For a captured active slug, "setup" included, one URL is redirected for ever: the reserved set does not list the path the retired wizard takes over |
| `RouterTheorems.ChainNeverRevisits` | apps/console/src/middleware.ts:145-363 | Unless a signed-in user's active slug is "setup" or reserved, the chain from any URL has at most six URLs, all different, and ends with one that is served: the loops feared at lines 169-172 do not occur |
| `RouterTermination.ServedWithinFive` | apps/console/src/middleware.ts:145-363 | The upper bound itself, over unbounded paths, slugs, steps and callbacks |
| `RouterTermination.CallbackServed` | apps/console/src/lib/auth-callback-url.ts:14-61 | Every target the callback sanitizer lets through is served within four redirects, signed in or not |
| `RouterTermination.RegisterServed` | apps/console/src/middleware.ts:167-242 | Every registration URL, whatever its token, step and mode, is served within three redirects |
| `RouterTermination.DashboardUrlServed` | apps/console/src/middleware.ts:244-356 | Every dashboard URL, scoped or not, is served within four redirects |
| `RouterTermination.PlainPostAuthServed` | apps/console/src/middleware.ts:76-106 | Unless sign-in follows its callback, it leads to a page served within one redirect |
| `RouterTermination.BlockedServed` | apps/console/src/middleware.ts:108-143 | Where the guard sends a signed-in user is served at once |
| `RouterTermination.RewriteServed` | apps/console/src/middleware.ts:289-317 | The internal rewrite serves the unscoped page, or leaves through the pages of the slug "dashboard" in at most two redirects |
| `RouterTheorems.DashboardsAreGuarded` | apps/console/src/middleware.ts:244-356 | A served dashboard page means: signed in, nothing pending, onboarding not incomplete, query kept, and under an active organization only through that organization's path |
| `RouterTheorems.DeepLinkSurvivesLogin` | apps/console/src/middleware.ts:108-121 | A signed-out visitor of a dashboard page is sent to the login page, and from there, once signed in, to exactly the page asked for |
| `RouterTheorems.SignInLands` | apps/console/src/middleware.ts:76-106 | Signing in without a callback, or opening the front page signed in, ends at the pending invitation, else at the page where registration was left off, else at the agent page of the active organization |
| `RouterTheorems.DashboardRootLands` | apps/console/src/middleware.ts:319-356 | The dashboard's root and home lead an onboarded user to the agent page with the query kept |
| `RouterTheorems.InvitationSurvivesLogin` | apps/console/src/middleware.ts:76-106 | Signing in on the way to an invitation leads to it, if and only if its token is still pending |
| `RouterTheorems.SignedOutRegistration` | apps/console/src/middleware.ts:167-216 | Where a signed-out visitor of any registration URL ends up: the exact conditions for the login page and for the invitation |
| `RouterTheorems.SignedInInvitation` | apps/console/src/middleware.ts:167-242 | Where a signed-in visitor with an invitation token ends up on every registration URL but the retired steps: at that invitation, or in the exact cases of a setup under way at the page of that setup |
| `RouterTheorems.SignedInRegistration` | apps/console/src/middleware.ts:229-242 | Without a token a signed-in visitor is served or redirected as the gate says |
| `RouterTheorems.RetiredSteps` | apps/console/src/middleware.ts:189-201 | The retired steps lead to the sign-up step and to the profile step, and the token is gone |
| `RouterTheorems.CallbacksExactly` | apps/console/src/lib/auth-callback-url.ts:14-61 | Exactly which callbacks sign-in follows: registration, invitations with a token, and dashboard pages of no organization or of one whose slug is not reserved |
| `RouterTheorems.ScopedIsCallback` | apps/console/src/lib/auth-callback-url.ts:14-23 | Every page under an unreserved slug is an allowed callback |
| `Onboarding.GateIsFixedPoint` | apps/console/src/lib/onboarding-gates.ts:86-146 | A gate redirect leads to a page the same gate accepts, if and only if it is not the invite step of an invited member without a profile |
| `Onboarding.GateSettlesInTwo` | apps/console/src/lib/onboarding-gates.ts:105-122 | In that one case the second redirect settles |
| `Onboarding.ProfileFirstAndOnce` | apps/console/src/lib/onboarding-gates.ts:86-146 | Nobody who owes a profile is served a later step, and once it is there neither the gate nor the resume page asks for it again |
| `Onboarding.GateServesExactly` | apps/console/src/lib/onboarding-gates.ts:86-146 | Exactly which registration pages each user is served |
| `Onboarding.GateLeads` | apps/console/src/lib/onboarding-gates.ts:86-146 | Where the gate sends everybody else: to the invitation, to the dashboard when onboarded, and otherwise to the resume page, with the exact exceptions of an invited member |
| `Onboarding.ResumesAtNextStep` | apps/console/src/lib/onboarding-gates.ts:55-79 | A user without an invitation resumes at the profile or, once it is there, at the step after it, in the mode of the setup under way |
| `Onboarding.ParsesLoosely` | apps/console/src/lib/register-onboarding.ts:75-90 | A step is read in any case and with white space around it, and "source" as the profile step; nothing else is read as that step |
| `Onboarding.ResumeIsSettled` | apps/console/src/lib/onboarding-gates.ts:55-79 | The resume page is accepted by the gate, if and only if the user has something left to resume |
| `Onboarding.StepPathRoundTrip` | apps/console/src/lib/register-onboarding.ts:75-113 | Parsing the step of a printed registration URL gives the step back, for every step and mode |
| `OrgRoutes.NormalizeDashboardPath` | apps/console/src/lib/org-routes.ts:11-26 | The slug and the unscoped path found in a scoped path put together give the path back; any other path is returned unchanged |
| `OrgRoutes.NormalizeInvertsScoping` | apps/console/src/lib/org-routes.ts:11-39 | Unscoping undoes scoping for every non-empty slash-free slug and every dashboard path |
| `OrgRoutes.ScopingTwice` | apps/console/src/lib/org-routes.ts:63-68 | Scoping a link twice equals scoping it once, if and only if the slug does not begin with "dashboard" |
| `OrgRoutes.ScopingCompletesPath` | apps/console/src/lib/org-routes.ts:29-39 | A page given without the dashboard prefix, with or without a slash in front, is scoped as that page |
| `OrgRoutes.CaseAndBlanks` | apps/console/src/lib/org-routes.ts:41-68 | Reserved segments are recognised in any case, blank slugs scope nothing, and white space around a slug makes no difference |
| `DerReader.ReadLength` | apps/console/src/lib/certificate-utils.ts:24-36 | The length loop computes the specified value and offset on every input, past the end and in 32-bit overflow included |
| `DerReader.ReadNotAfter` | apps/console/src/lib/certificate-utils.ts:21-76 | The offset walk returns the contents of the specified field, and nothing for wrong tags, on every byte sequence |
| `DerReader.DateFoundExactly` | apps/console/src/lib/certificate-utils.ts:38-76 | A date is read exactly when the outer sequences, the three fields before the validity and the validity have the tags looked for, and is then its second field |
| `DerScan.ExtractCommonName` | apps/console/src/lib/certificate-utils.ts:114-205 | The subject loop returns the result of the loop's rounds on every byte sequence, backward moves included, and Endless exactly when the rounds never end |
| `DerScan.NameNeedsTags` | apps/console/src/lib/certificate-utils.ts:139-167 | Without the two outer sequences and a sequence in the place of the subject nothing is returned |
| `DerScan.EndlessGoesOn` | apps/console/src/lib/certificate-utils.ts:173-203 | Endless is the result if and only if there is an offset after every number of rounds |
| `DerEncoding.LengthRoundTrip` | apps/console/src/lib/certificate-utils.ts:24-36 | Reading inverts short and long form lengths (section 8.1.3 of X.690) for every length below 2^31, wherever it stands in the bytes |
| `DerEncoding.LengthIsValue` | apps/console/src/lib/certificate-utils.ts:24-36 | Any length code below 2^31, the shortest or not, is read as the number its bytes stand for |
| `DerEncoding.FieldRoundTrip` | apps/console/src/lib/certificate-utils.ts:131-137 | At an encoded field the reader finds its tag, its contents and the offset after it |
| `DerEncoding.NotAfterRoundTrip` | apps/console/src/lib/certificate-utils.ts:38-76 | For every encoded certificate, with or without a version field, the bytes read are those of notAfter |
| `DerEncoding.ParseTimeText` | apps/console/src/lib/certificate-utils.ts:78-95 | Both time layouts of section 4.1.2.5 of RFC 5280 are read back as the date printed, with the two-digit window of section 4.1.2.5.1 |
| `DerEncoding.TimeLengths` | apps/console/src/lib/certificate-utils.ts:78-95 | Exactly the texts of 13 and 15 characters are times |
| `DerEncoding.ExpirationRoundTrip` | apps/console/src/lib/certificate-utils.ts:11-102 | For every encoded certificate the date handed to Date is exactly notAfter |
| `DerNames.CommonNameRoundTrip` | apps/console/src/lib/certificate-utils.ts:104-210 | For every encoded certificate whose values before the first common name are in step, that name's bytes are returned, and null when there is none |
| `DerNames.NoSetTagInStep` | apps/console/src/lib/certificate-utils.ts:173-203 | In particular a value without the byte 0x31 is in step |
| `DerNames.NameFoundInStep` | apps/console/src/lib/certificate-utils.ts:173-203 | Whatever the bytes of the attributes and what follows: when the scan over the attributes before a common name, taken alone, comes out at their end, that name is returned |
| `DerText.CommonNameExactly` | apps/console/src/lib/certificate-utils.ts:104-210 | For every encoded certificate with short, quiet attributes and any number of common names: the result is the first one to which strides of one, three or five bytes (six and the identifier's length at an attribute) lead exactly, and null when there is none |
| `DerText.TextIsQuiet` | apps/console/src/lib/certificate-utils.ts:173-203 | Text in UTF-8 is quiet when no letter outside ASCII stands right behind a digit 0 or 1 |
| `DerText.NameFoundExactly` | apps/console/src/lib/certificate-utils.ts:173-203 | With one common name, anywhere in the subject: it is returned if and only if the attributes before it are in step, which the strides decide; otherwise the result is null |
| `DerText.TrailingOne` | apps/console/src/lib/certificate-utils.ts:173-176 | Anywhere in a subject: a common name right behind a value whose only digit 1 is its last byte, such as the text "Unit 1", is missed; with one attribute free of that digit in between it is found |
| `DerText.Unit1HidesTheName` | apps/console/src/lib/certificate-utils.ts:173-203 | A valid certificate with the unit "Unit 1" and a common name, for which null is returned |
| `DerNames.CrossValue` | apps/console/src/lib/certificate-utils.ts:173-188 | A value in step is crossed exactly, whatever bytes surround it |
| `DerLoop.EndlessExactly` | apps/console/src/lib/certificate-utils.ts:173-203 | On every byte sequence the loop never ends if and only if it comes to some offset twice |
| `DerLoop.LoopEndsExactly` | apps/console/src/lib/certificate-utils.ts:173-203 | The same for the subject of every encoded certificate; and an endless loop comes to an offset from which an identifier's length of 2^31 or more leads back |
| `DerLoop.LoopEnds` | apps/console/src/lib/certificate-utils.ts:173-203 | The loop ends when no identifier tag in the subject or the 258 bytes behind it is followed by a length of 2^31 or more |
| `DerLoop.EndlessLoop` | apps/console/src/lib/certificate-utils.ts:182-188 | In every certificate with eleven given bytes as a value that the scan comes to in step, the loop comes to the start of that value, stays there in every later round and never ends |
| `DerLoop.EndlessCertificate` | apps/console/src/lib/certificate-utils.ts:173-203 | A valid certificate on which the loop has an offset after every number of rounds |
| `CookieSplit.SplitSetCookieHeader` | apps/console/src/lib/backendProxy.ts:24-50 | The index loop returns the trimmed non-empty pieces between the commas after which '=' comes before ';' in all the text that follows |
| `CookieSplit.SeparatesByPosition` | apps/console/src/lib/backendProxy.ts:29-39 | A comma separates exactly when some '=' behind it has no ';' in between |
| `CookieSplit.FirstMarkIs` | apps/console/src/lib/backendProxy.ts:30-38 | What the look-ahead meets first is '=' or ';' exactly when that mark stands somewhere without the other before it, and the end when there is neither |
| `CookieSplit.SplitUndoesJoin` | apps/console/src/lib/backendProxy.ts:23-50 | Splitting a comma-joined list gives the list back if and only if the cookies are trimmed and non-empty, behind each join some '=' has no ';' before it, and behind no inner comma |
| `CookieSplit.RejoinableCookieByCookie` | apps/console/src/lib/backendProxy.ts:29-39 | For cookies that name a value first the condition is local: an inner comma meets ';' first inside its own cookie, in the last cookie it may meet neither |
| `CookieSplit.CommasConserved` | apps/console/src/lib/backendProxy.ts:39-48 | Every cut removes exactly one comma and no other comma is lost |
| `DeploymentLogs.FoldProgress` | apps/console/src/scripts/deployments-dashboard.ts:537-554 | The fold drops exactly the progress lines that another progress line directly follows |
| `DeploymentLogs.ProgressLines` | apps/console/src/scripts/deployments-dashboard.ts:541-544 | A line is progress exactly when its trimmed text is an optional lead, one of four names, a colon, white space, digits, a percent sign and anything |
| `DeploymentLogs.MaximalRun` | apps/console/src/lib/deployment-logs.ts:22-39 | Every maximal run of progress lines is replaced by its last line, and what stands around it is treated on its own |
| `DeploymentLogs.NothingToFold` | apps/console/src/lib/deployment-logs.ts:22-39 | Logs without progress lines are unchanged |
| `DeploymentLogs.NormalizedLines` | apps/console/src/scripts/deployments-dashboard.ts:532-556 | The normalised logs are, trimmed as a whole, the folded lines of the redacted text, where a carriage return ends a line |
| `DeploymentLogs.MatchesExactly` | apps/console/src/scripts/deployments-dashboard.ts:606-627 | A search shows exactly the lines in which the text stands somewhere, in any case, under their own numbers |
| `DeploymentLogs.MatchesRise` | apps/console/src/scripts/deployments-dashboard.ts:606-627 | The matching rows come in the order of their lines |
| `DeploymentLogs.RebuildExactly` | apps/console/src/scripts/deployments-dashboard.ts:576-667 | Exactly when a rebuilt panel shows the notice for no logs, the notice for no match, or rows |
| `DeploymentLogs.RowsExactly` | apps/console/src/scripts/deployments-dashboard.ts:630-667 | Without a search there is one row for every line, under its own number |
| `DeploymentLogs.RenderedIsRebuild` | apps/console/src/scripts/deployments-dashboard.ts:576-667 | From a view in step, an incremental rendering shows exactly what a full rebuild from logs and query would show, and stays in step |
| `DeploymentLogs.RunsAreFaithful` | apps/console/src/scripts/deployments-dashboard.ts:669-724 | Over every run of loads, answers and search edits without a failure after a success, the rows equal a full rebuild |
| `DeploymentLogs.RightAgainExactly` | apps/console/src/scripts/deployments-dashboard.ts:576-696 | From a failed refetch until the next one the panel is right if and only if some rendering since was filtered, was empty, or did not begin with the line the unfiltered page began with |
| `DeploymentLogs.LoadsOneAtATime` | apps/console/src/scripts/deployments-dashboard.ts:669-696 | A load starts exactly when none runs and there are no logs yet or a refetch is forced, keeps the rows of loaded logs, and ends with its answer or failure |
| `DeploymentLogs.LogPanel.RenderLogs` | apps/console/src/scripts/deployments-dashboard.ts:576-667 | The method leaves the page and the remembered lines as specified, removing and appending only what changed |
| `DeploymentLogs.LogPanel.BeginLoad` | apps/console/src/scripts/deployments-dashboard.ts:669-679 | Starts a load unless one is running or logs are there and no refetch is forced; the spinner replaces the page only before the first logs |
| `DeploymentLogs.LogPanel.LogsArrive` | apps/console/src/scripts/deployments-dashboard.ts:685-689 | The answer is stored and rendered under the search text of that moment |
| `DeploymentLogs.LogPanel.LoadFails` | apps/console/src/scripts/deployments-dashboard.ts:690-695 | The failure message replaces the page while the remembered lines stay |
| `DeploymentLogs.LogPanel.EditSearch` | apps/console/src/scripts/deployments-dashboard.ts:722-724 | A search edit renders only when logs are there |
| `DockerLogs.WindowForgetsOnlyOldLines` | apps/console/src/scripts/docker-logs-ws.ts:41-43 | Cutting to the last n lines before a chunk arrives makes no difference once it has arrived, for every n above 0 |
| `DockerLogs.BufferIsEndOfStream` | apps/console/src/scripts/docker-logs-ws.ts:27-46 | After any sequence of chunks the buffer is the last 500 lines of the whole stream, however it was cut |
| `DockerLogs.LogWindow.OnMessage` | apps/console/src/scripts/docker-logs-ws.ts:40-46 | One message keeps the buffer equal to the last 500 lines received |
| `DockerLogs.AtMostOneOpen` | apps/console/src/scripts/docker-logs-ws.ts:9-62 | In every reachable state at most one opened socket has not been closed, and it belongs to the newest mount |
| `DockerLogs.RunsAreSafe` | apps/console/src/scripts/docker-logs-ws.ts:9-62 | The invariant behind it holds over every interleaving of mounts, disconnects and late URLs |
| `DockerLogs.SupersededNeverOpens` | apps/console/src/scripts/docker-logs-ws.ts:33-38 | A mount that a newer mount or a disconnect superseded never opens a socket, whatever happens later |
| `DockerLogs.NothingOpensLate` | apps/console/src/scripts/docker-logs-ws.ts:9-62 | After a mount or a disconnect the URL of an earlier mount, however late, opens nothing |
| `DockerLogs.NewestMountOpens` | apps/console/src/scripts/docker-logs-ws.ts:29-38 | After any run, a mount left alone until its URL resolves opens exactly one socket, which is active, not closed and its own; all earlier ones are closed |
| `DockerLogs.StaysOpen` | apps/console/src/scripts/docker-logs-ws.ts:9-62 | An open socket stays open and active until the next mount or disconnect |
| `DockerLogs.DisconnectClosesAll` | apps/console/src/scripts/docker-logs-ws.ts:12-62 | A mount or a disconnect leaves no socket open and none active |
| `DockerLogs.LogSocket.MountDockerLogs` | apps/console/src/scripts/docker-logs-ws.ts:12-27 | A mount closes the active socket and takes a token above every earlier one |
| `DockerLogs.LogSocket.OnUrl` | apps/console/src/scripts/docker-logs-ws.ts:29-38 | A resolved URL opens a socket for the current token only |
| `DockerLogs.LogSocket.DisconnectDockerLogs` | apps/console/src/scripts/docker-logs-ws.ts:58-62 | After a disconnect every opened socket has had close called on it |
| `AsyncRegion.LastNavigationWins` | apps/console/src/scripts/dashboard-async-region.ts:283-317 | For every interleaving of same-shell navigations, once all have settled the outlet shows the last navigation's page unless that page itself failed |
| `AsyncRegion.ErrorStaysExactly` | apps/console/src/scripts/dashboard-async-region.ts:304-316 | When the newest page fails and nobody navigates on, its error is what remains if and only if no load was waiting out the minimum spinner time at that moment |
| `AsyncRegion.LoadIdsAreDistinct` | apps/console/src/scripts/dashboard-async-region.ts:291-293 | In every reachable state later loads carry later load ids: the two animation frames of a navigation keep them apart |
| `AsyncRegion.SpinnerUntilSettled` | apps/console/src/scripts/dashboard-async-region.ts:433-443 | From a navigation on, when no load was waiting then, the outlet shows the spinner until that navigation's page or error |
| `AsyncRegion.SpinnerStaysVisible` | apps/console/src/scripts/dashboard-async-region.ts:304-308 | The newest page is never on screen before the minimum spinner time is over |
| `AsyncRegion.NewestGoesOn` | apps/console/src/scripts/dashboard-async-region.ts:283-317 | The newest load is never dropped: each of its steps leads on to the screen, to the wait, or to its error |
| `AsyncRegion.RunsKeepInvariant` | apps/console/src/scripts/dashboard-async-region.ts:283-473 | The invariant: the newest load owns the outlet, and no older load is left to swap once it has swapped |
| `AsyncRegion.FailureCanBeOverwritten` | apps/console/src/scripts/dashboard-async-region.ts:304-316 | A reachable run that settles with an older page in place of the last page's error: the swap after the wait is not checked again |
| `AsyncRegion.Outlet.NavigateWithState` | apps/console/src/scripts/dashboard-async-region.ts:433-443 | A navigation takes the next number, clears the outlet's state and load id and shows the spinner |
| `AsyncRegion.Outlet.AfterPaint` | apps/console/src/scripts/dashboard-async-region.ts:443-472 | Only the newest navigation starts its load, and only when none is loading |
| `AsyncRegion.Outlet.AfterFetch` | apps/console/src/scripts/dashboard-async-region.ts:296-300 | A load that lost the outlet is dropped when its data arrives |
| `AsyncRegion.Outlet.AfterStylesheets` | apps/console/src/scripts/dashboard-async-region.ts:301-308 | A load that still owns the outlet waits out the minimum time or swaps at once |
| `AsyncRegion.Outlet.OnError` | apps/console/src/scripts/dashboard-async-region.ts:309-315 | A failing load shows its error only while it owns the outlet |
| `MatrixOrders.BuildSnakeOrder` | apps/console/src/lib/dotmatrix-core.tsx:276-294 | For every side length the array holds each cell's place in the snake |
| `MatrixOrders.BuildSpiralInwardOrder` | apps/console/src/lib/dotmatrix-core.tsx:306-346 | For every side length the array holds each cell's place in the inward spiral |
| `MatrixOrders.BuildDiagonalSnakeOrder` | apps/console/src/lib/dotmatrix-core.tsx:429-453 | For every side length the array holds each cell's place in the diagonal snake |
| `MatrixOrders.NumberOfCell` | apps/console/src/lib/dotmatrix-core.tsx:276-453 | Every cell has a number below n * n, and the inverse walk leads from that number back to the cell |
| `MatrixOrders.CellOfNumber` | apps/console/src/lib/dotmatrix-core.tsx:276-453 | Every number below n * n is the number of a cell |
| `MatrixOrders.OrderMapIsPermutation` | apps/console/src/lib/dotmatrix-core.tsx:181-190 | The array holds each of 0..n * n - 1 at exactly one index |
| `MatrixOrders.StepsCrossOneEdge` | apps/console/src/lib/dotmatrix-core.tsx:276-346 | In the snake and the spiral consecutive numbers sit in edge-neighbouring cells |
| `MatrixOrders.SnakeInOrder` | apps/console/src/lib/dotmatrix-core.tsx:276-294 | The snake goes row by row, to the right in even rows and to the left in odd ones |
| `MatrixOrders.DiagonalInOrder` | apps/console/src/lib/dotmatrix-core.tsx:429-453 | The diagonal snake goes diagonal by diagonal, upwards in even ones and downwards in odd ones |
| `MatrixOrders.SpiralInward` | apps/console/src/lib/dotmatrix-core.tsx:306-346 | Every cell nearer to the border comes earlier in the spiral |
| `MatrixOrders.SpiralEntersCorner` | apps/console/src/lib/dotmatrix-core.tsx:306-346 | Every ring is entered at its top left corner and first walked to the right |
| `MatrixOrders.DiagonalStartClosed` | apps/console/src/lib/dotmatrix-core.tsx:433-435 | The diagonals before the d-th hold a triangle of cells, after the middle the square less a triangle |
| `DnsInit.StartTouchesOnlyItsZone` | docker/dns-init.ts:119-224 | A start changes no existing file except its own unadopted bootstrap zone and temporary files, removes none, and adds only legacy zones |
| `DnsInit.LegacyZonesArrive` | docker/dns-init.ts:139-148 | Every missing legacy zone file arrives as it is unless the start writes that zone itself, and no other file of the legacy directory does |
| `DnsInit.CorefileArrives` | docker/dns-init.ts:119-137 | After a start there is a Corefile, the old one or the fixed text |
| `DnsInit.ForeignStaysOverRuns` | docker/dns-init.ts:207-211 | Over every run of starts, adoptions and outside edits, a zone file without the bootstrap marker changes only by an outside edit of that file |
| `DnsInit.AdoptedZoneIsLeftAlone` | docker/dns-init.ts:155-159 | Once the adoption marker exists the bootstrap step writes nothing |
| `DnsInit.WritesExactly` | docker/dns-init.ts:150-211 | Exactly when the bootstrap step writes a zone file |
| `DnsInit.FailsExactly` | docker/dns-init.ts:150-184 | Exactly when it ends with an error before anything is written |
| `DnsInit.BootstrapRecords` | docker/dns-init.ts:185-205 | The zone file gives the address to the two name servers and to the owner of a management host in the zone, and to nothing else, names both as servers, and holds the printed mailbox and the serial |
| `DnsInit.CorefileAndMarkersStay` | docker/dns-init.ts:119-137 | Over every run an existing Corefile and the adoption markers stay as they are |
| `DnsInit.StartTwice` | docker/dns-init.ts:207-224 | A second start, by whatever process, leaves exactly what one start with the second serial would have left, up to temporary files, and these too if none was there before |
| `DnsInit.RestartChangesOnlySerial` | docker/dns-init.ts:185-217 | A repeated start, by whatever process, changes nothing but the serial line of the zone file |
| `DnsInit.StartIsItsOps` | docker/dns-init.ts:119-224 | The single writes and the rename of a start, performed in order, are the start |
| `DnsInit.CutStartOnlyAdds` | docker/dns-init.ts:119-217 | A start cut off inside any of these calls leaves every file as it was and adds missing legacy zones, of which only the one being copied can be incomplete |
| `DnsInit.ZoneFileIsWhole` | docker/dns-init.ts:212-217 | Wherever a start is cut off, a zone path that is not being copied holds the old contents or those of the complete start |
| `DnsInit.ZoneFilesOverRuns` | docker/dns-init.ts:139-217 | Over every run of starts, cut-off starts, adoptions and outside edits, a zone file holds its first contents, a complete bootstrap file, an outside edit, or a legacy copy that is complete unless a start was cut off |
| `DnsInit.FileStaysExactly` | docker/dns-init.ts:150-217 | A file stays as it is over every run of starts under one configuration, whole or cut off, adoptions and edits of other files, if and only if that configuration does not write it |
| `DnsInit.TruncatedCopyStays` | docker/dns-init.ts:139-148 | A legacy copy that was cut off is never completed, if and only if the part copied lacks the marker or the configuration would not write that file; otherwise a bootstrap file replaces it |
| `DnsInit.TruncatedCorefileStays` | docker/dns-init.ts:119-137 | A Corefile whose writing was cut off is never completed |
| `DnsInit.DnsVolume.CopyLegacyZones` | docker/dns-init.ts:139-148 | Copies exactly the legacy zone files that are not there yet, in any directory order |
| `DnsInit.DnsVolume.EnsureCorefile` | docker/dns-init.ts:119-137 | Writes the Corefile only when there is none |
| `DnsInit.DnsVolume.EnsureBootstrapZone` | docker/dns-init.ts:150-218 | Writes the planned zone file through a temporary file, does nothing, or fails before writing, exactly as planned |
| `DnsInit.DnsVolume.Start` | docker/dns-init.ts:220-224 | The three steps in order make up one start |
| `DnsNames.NormalizeIsIdempotent` | docker/dns-init.ts:40-59 | Normalising a normal name changes nothing, given that the ASCII form of an accepted label is its own |
| `DnsNames.NormalNameLimits` | docker/dns-init.ts:42-58 | A normal name has at least two labels, each within 63 characters (section 2.3.4 of RFC 1035), and at most 253 in all |
| `DnsNames.NormalNamesStay` | docker/dns-init.ts:40-59 | Normalising leaves a name as it is, if and only if it has two or more valid labels in ASCII form and at most 253 characters |
| `DnsNames.NormalizesLoosely` | docker/dns-init.ts:40-41 | Case, white space around a name and one final dot make no difference |
| `DnsNames.LabelsExactly` | docker/dns-init.ts:46-55 | A label is one to 63 lower-case letters, digits and hyphens without a hyphen at either end |
| `DnsNames.MailboxRoundTrip` | docker/dns-init.ts:61-80 | Reading the printed mailbox at its first unescaped dot (sections 3.3.13 and 5.1 of RFC 1035) gives back the local part and the normal domain |
| `DnsNames.MailboxAccepted` | docker/dns-init.ts:61-80 | Exactly the mailboxes with allowed characters before the last at sign and a domain name after it are accepted |
| `DnsNames.OwnerPlusOrigin` | docker/dns-init.ts:82-86 | A host gets an owner if and only if it is in the zone, and owner plus origin is the host |
| `DnsNames.OwnerExactly` | docker/dns-init.ts:82-86 | The owner of a host is exactly the one name that stands for it under the origin |
| `EnvBlock.ParseEnvBlockWithDiagnostics` | apps/console/src/lib/git-application-source.ts:180-211 | The loop returns the rows and issues of the line-by-line verdicts |
| `EnvBlock.VerdictAt` | apps/console/src/lib/git-application-source.ts:188-208 | The verdict on a line depends on its text, its number and the keys accepted before it |
| `EnvBlock.JudgeExactly` | apps/console/src/lib/git-application-source.ts:188-208 | A line is skipped, lacks its equals sign, is accepted or is a duplicate exactly as the grammar of comments and assignments says |
| `EnvBlock.LinesAccountedFor` | apps/console/src/lib/git-application-source.ts:188-210 | Every line of a text is exactly one of skipped, row or issue; rows and issues come in the order of their lines, each from its own line |
| `EnvBlock.IssueNumbers` | apps/console/src/lib/git-application-source.ts:194-203 | An issue carries its own line number |
| `EnvBlock.ExportIsIgnored` | apps/console/src/lib/git-application-source.ts:189-191 | One export in front of a line makes no difference to its verdict, unless a comment or another export follows |
| `EnvBlock.RoundTrip` | apps/console/src/lib/git-application-source.ts:140-145 | Parsing a printed block gives the same rows and no issue if and only if the keys are valid and distinct and the values are one line without trailing white space |
| `EnvBlock.TidyRoundTrip` | apps/console/src/lib/git-application-source.ts:140-145 | For any rows of the form: printing drops rows without a key and white space around keys, and parsing returns what is left, if and only if that is printable |
| `EnvBlock.ReparseRows` | apps/console/src/lib/git-application-source.ts:140-211 | Printing and re-parsing the rows of any parse gives those rows back |
| `EnvBlock.ParsedRowsPrintable` | apps/console/src/lib/git-application-source.ts:180-211 | Accepted rows have valid keys, distinct from each other and from the existing ones |
| `EnvBlock.ImportKeepsDistinct` | apps/console/src/scripts/env-app-git-wizard.ts:1180-1206 | An import keeps the trimmed non-blank keys distinct, and one with issues adds no row |
| `EnvBlock.ImportsKeepDistinct` | apps/console/src/scripts/env-app-git-wizard.ts:1180-1206 | So does every run of imports |
| `EnvBlock.ImportOfPrinted` | apps/console/src/scripts/env-app-git-wizard.ts:1180-1206 | Importing a printed block of new rows appends exactly those rows to the rows that have a name |
| `EnvBlock.TakenNameIsNoImport` | apps/console/src/scripts/env-app-git-wizard.ts:1180-1206 | A text that assigns to a name the form already has changes nothing |
| `EnvBlock.Wizard.ImportEnvText` | apps/console/src/scripts/env-app-git-wizard.ts:1167-1206 | The wizard's rows after an import of the rows on the page and a text |
| `Timestamps.TextOrder` | apps/monitoring/database/server.go:30-33 | For two instants in time order, years 0 to 9999, the printed texts are in that order if and only if they do not fall in one second with the earlier fraction's digits beginning the later one's |
| `Timestamps.FieldsAreTime` | apps/monitoring/database/cleanup.go:13-14 | Calendar fields are ordered as the seconds they stand for, leap years included |
| `Timestamps.CountsSeconds` | apps/monitoring/database/cleanup.go:13-14 | Time is counted second by second, at the end of every month and year included |
| `Timestamps.LeapDays` | apps/monitoring/database/cleanup.go:13-14 | The days before a year follow the leap year rule of every four, hundred and four hundred years |
| `Timestamps.FormatReadsBack` | apps/monitoring/database/server.go:30-33 | The printed text has the layout of section 5.6 of RFC 3339 and stands for the instant to the nanosecond |
| `Timestamps.SecondTextInOrder` | apps/monitoring/database/cleanup.go:14 | The text down to the second is ordered as the calendar fields |
| `Timestamps.FractionOrder` | apps/monitoring/database/cleanup.go:14 | Trimmed fractions stand in numeric order if and only if the smaller one's digits do not begin the larger one's |
| `Timestamps.RetentionExactly` | apps/monitoring/database/cleanup.go:12-26 | Exactly which rows a cleanup keeps: older rows go and newer rows stay, except within the cutoff's own second where the text order decides |
| `Timestamps.WholeSecondCutoffDeletesNewer` | apps/monitoring/database/cleanup.go:13-20 | A cutoff on a whole second deletes every row of that second, newer ones included |
| `Timestamps.Database.CleanupMetrics` | apps/monitoring/database/cleanup.go:12-31 | Both tables are cleaned in order, and a failing statement ends the cleanup |
| `Timestamps.Database.SaveMetric` | apps/monitoring/database/server.go:30-40 | A row gets the current time when it has none, and is refused when its timestamp is taken |
| `Timestamps.LastNAreLargest` | apps/monitoring/database/server.go:66-76 | The last-N query returns that many rows, ascending, and no row left out comes after a row returned |
| `Timestamps.LeftOutIsOlder` | apps/monitoring/database/server.go:66-76 | A row left out is older than a row returned whenever they fall in different seconds |

## Left out

- fetch, tRPC, WebSocket transport, Docker and the database engine: their answers are parameters or events.
- URL parsing, percent-encoding, base64 and IDNA: URLs are given parsed, certificates as bytes, and the ASCII form of a label by a function.
- The rewrite header sent by a client: top-level requests are taken to come without it.
- Trim, lower-casing and character counts follow Unicode scalar values; lower-casing changes ASCII letters only, which is all the compared names contain.
- DerEncoding.ExpirationRoundTrip: the text handed to Date is modelled, not Date itself; bytes outside ASCII are decoded one by one, which encoded times never contain.
- DerText.NameFoundExactly: exact for attributes of at most 129 bytes that are quiet, as text is; for other bytes NameFoundInStep gives the sufficient condition only, because a long-form length read inside a value can land on the next field by accident.
- DerLoop.LoopEnds: names bytes that can be looked at beforehand, so it is sufficient only; LoopEndsExactly gives the exact condition, on the offsets the loop comes to.
- Certificates with multi-valued RDNs, splitting a PEM chain and the minimum over a chain.
- DeploymentLogs.RunsAreFaithful: the two path redactions are one given function; failure highlighting, the summary line, scrolling and the expanded state are not modelled.
- AsyncRegion.LastNavigationWins: same-shell navigations of one outlet; frame swaps across shells, retry buttons and history entries are not modelled, and the load id and the elapsed time are read from one clock that is never set back.
- DockerLogs.AtMostOneOpen: whether a message can still arrive after close has been called is the browser's business.
- MatrixOrders.BuildSnakeOrder: the builders are stated for every side length; the fixed ring tables for side 5 are left out.
- DnsInit.CutStartOnlyAdds: a call that is cut off leaves a beginning of the text; a file system that loses or reorders writes is not modelled.
- The public-address table of the DNS init, file modes and directory creation: the address check is a given flag.
- DnsNames.MailboxRoundTrip: the local part is not limited to 63 characters because the code does not limit it.
- Timestamps.RetentionExactly: the column is compared byte by byte, as SQLite does for text without a collation; leap seconds are not modelled.
- The permissive env parser, issue messages and the rest of the import wizard.
- Edition policy, schedules, the agent store, settings tables and rendering: they would only add easy members.
