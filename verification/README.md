# Tetra control plane: algorithms and protocols

The control plane mostly calls other services, but it contains a number of
small algorithms and protocols whose correctness can be stated exactly. This
project models them in Dafny and proves what they promise, over every input,
every run or every interleaving. Where the code keeps less than its
documentation promises, the code is modelled as it is, and a lemma says
exactly when the promise is kept.

`dafny verify dfyconfig.toml` checks everything.

## How it is organised

| file | part of the system |
|---|---|
| `Common.dfy` | two facts shared by all parts |
| `Text.dfy` | Python's string operations: strip, split, join, splitlines, decimal printing |
| `Sse.dfy`, `BuildLog.dfy`, `LogStream.dfy`, `WatchBuild.dfy` | build-log streaming: frame printer and reader, log parser, polling loop, and all of them end to end |
| `RateLimit.dfy` | the sliding-window rate limiter against a history that forgets nothing |
| `Cache.dfy` | the TTL cache, and interleaved `get_or_set` calls against a log that evicts nothing |
| `Quota.dfy`, `QuotaProtocol.dfy`, `ProjectOnce.dfy` | counting, shares and reservations; concurrent transactions under the tenant lock; when a project is reserved once |
| `DockerEngine.dfy`, `Apps.dfy`, `Deploys.dfy` | stack names; installing and removing apps; builds in the background, running stacks and their reservations |
| `Slug.dfy` | tenant slugs |
| `Base32.dfy`, `TwoFactor.dfy`, `LoginRace.dfy` | secrets, one-time codes, recovery codes, and the account operations on them; logins that overlap |
| `Compose.dfy`, `ComposePipeline.dfy` | the three rewrites of a compose file, and what they do together |
| `Cron.dfy`, `Scheduler.dfy` | cron expressions; the minute loop |
| `Schema.dfy`, `SchemaRows.dfy` | the schema upgrade and its backfills; what they leave in every row |
| `Billing.dfy` | resale prices |
| `Uptime.dfy` | uptime alerts |

Code that changes things step by step is a method or a class, proved against
a specification function; the lemmas are about those functions. Time is a
whole number of ticks (a real number for the rate limiter), the clock readings,
the outside world and every random choice are inputs.

## Where the code departs from its documentation or from what one would expect

- A log line that a poll finds half written stays half written at the client:
  the stream counts lines and never looks at a counted line again
  (`WatchBuild.PlainLogReachesClient`).
- `normalize_slug` is not idempotent for names with whitespace next to an edge
  dash, and for those names `_unique_slug` can return a taken slug
  (`Slug.ResultIsFreeExactlyWhenCleanEdges`).
- `Retry-After` is truncated, so a client that waits exactly that long may be
  denied again (`RateLimit.WaitingExactly`); a limit of zero or less on an
  empty bucket is an IndexError (`RateLimit.AnswersMatchFullHistory`).
- A JSON log whose items are rewritten in place keeps the first version of each
  line at the client (`WatchBuild.JsonLogReachesClient`).
- `TTLCache.delete` does not stop a fill that was already running from storing
  the old object afterwards (`Cache.DeleteIsFinalExactlyWhenNothingInFlight`).
- `_count_apps` counts a project more than once when it is reserved twice, or
  built twice without a reservation (`Quota.CountsEachProjectOnce`). Two
  concurrent installs can reserve one project twice, because the check for an
  existing app comes before the lock (`QuotaProtocol.SameProjectReservedTwice`,
  and exactly when in `ProjectOnce.ReservedOnceExactly`).
- `release` ignores the provider, so a first deploy that fails also deletes a
  reservation of another provider under the same name
  (`Deploys.FailedDeployRestoresExactly`, `Deploys.ForeignReservationIsLost`).
- A redeploy that fails releases the reservation of the app that is still
  running, which then counts no more; repeated, it lets any number of stacks run
  on a plan for one app (`Deploys.EveryStackIsReservedExactly`,
  `Deploys.FailedRedeploysLiftTheBound`). So does removing an app while it is
  being built: the build goes on and its stack runs without a reservation
  (`Deploys.EarlyRemovalsLiftTheBound`).
- Two logins that overlap can both spend one recovery code
  (`LoginRace.ConservedExactly`, `LoginRace.OneCodeManyLogins`), and a login that
  overlaps with two-factor being disabled and enabled anew stores the withdrawn
  codes again (`LoginRace.WithdrawnCodesComeBack`).
- Uptime alerts already sent are not undone when the probe of a later monitor
  raises and the statuses are rolled back, so the same alert goes out again with
  every pass (`Uptime.AlertsAlternateExactly`, `Uptime.DownIsSentAgain`).
- The allocation backfill overwrites recorded memory and disk where the CPU
  value, or its column, is missing (`Schema.AllocationsSurviveExactly`).
- A compose file that declares the edge network itself loses that declaration
  (`ComposePipeline.PipelineOnTopLevel`).
- A service with an empty network map loses the default network
  (`ComposePipeline.KeepsNetworksExactly`).
- On Sundays the rewrite of 7 to 0 changes what some day-of-week fields mean
  (`Cron.SundayExactly`), and a `*` inside a list is valid but never matches
  (`Cron.StarInListIsIgnored`).
- A job whose call raises anything but an HTTP error keeps the later jobs of
  the same minute from being called (`Scheduler.AllDueCalledExactly`).

## Model

| member | source | states |
|---|---|---|
| Sse.StreamFrames | tetra_cli/client.py:277-290 | the client's loop over the response lines yields one frame per data line, under the event name of the latest event line since the last data line, else "message" |
| Sse.SendableFramesArrive | app/api/routes.py:240-241 | any list of frames with clean names and payloads, printed one after the other and read back, is the same list |
| Sse.ReceivedIsSendable | tetra_cli/client.py:277-290 | whatever text is received, the reader yields only single-line, edge-trimmed names and payloads |
| Sse.RoundTrip | app/api/routes.py:240-241 | printing and reading are inverse on exactly the lists of frames whose name and payload are single lines without edge whitespace |
| Sse.EachLineExactly | tetra_cli/client.py:277-290 | a data line adds one frame with its stripped payload, under the name of the latest event line since the last data line or "message"; every other line adds none |
| BuildLog.ParseDeploymentLogLines | app/services/coolify.py:201-246 | a stored log, absent, JSON list, JSON object or plain text, becomes the list of its items or of its non-blank lines |
| BuildLog.ItemsExactly | app/services/coolify.py:217-225 | which stored logs are JSON logs, and which items they hold: those of the list, or of the first of "logs", "data" and "output" that is something and a list, else the object itself |
| BuildLog.ItemExactly | app/services/coolify.py:232-245 | what an item yields: text from output, line or message, type or "stdout", time from timestamp or created_at; and for anything but an object its own text |
| BuildLog.PlainExactly | app/services/coolify.py:226-231 | the lines of a plain log are exactly its non-blank ones |
| BuildLog.PlainGrowthExactly | app/services/coolify.py:226-231 | when a plain-text log grows by any text, every old line stays and is at most written on; the old list is a prefix of the new one exactly when the last line was finished or blank, or the growth is empty or starts with a line break |
| LogStream.StreamDeploymentLogs | app/api/routes.py:244-283 | the polling loop stops at the first poll that finds the reader gone, the deployment gone, a terminal status or the time limit reached, and has then sent exactly what the history of polls calls for |
| LogStream.StreamRound | app/api/routes.py:262-279 | one round sends the new status, the lines past the longest list seen so far and the closing event, and keeps its two counters equal to their meaning over the history |
| LogStream.StopsExactly | app/api/routes.py:258-283 | said of the world alone: the stream stops after poll n if and only if every poll before found the build running with (k + 1) intervals below the limit, and poll n found the reader or the deployment gone, a terminal status, or n intervals at or above the limit |
| LogStream.StopsOnce | app/api/routes.py:258-283 | so there is only one point at which it can stop |
| LogStream.PollsAreBounded | app/api/routes.py:258-283 | the stream ends within ceil(max_seconds / poll_interval) polls, or after its first |
| LogStream.EachIndexSentOnce | app/api/routes.py:271-275 | for any polls, shrinking lists included, each index below the longest list is sent exactly once, in increasing order, with the content of its first appearance |
| LogStream.StatusesAreSqueezed | app/api/routes.py:268-270 | the status events are the polled statuses without consecutive repeats |
| LogStream.AppendingLogArrivesWhole | app/api/routes.py:271-275 | when lists only grow by appending, the lines sent are the last list |
| LogStream.DeliveredExactly | app/api/routes.py:258-283 | for any polls: what was sent is the last list if and only if every line is still there, at its index, as it was when its index was first reached |
| LogStream.StreamDelivers | app/api/routes.py:244-283 | for an appending log the whole stream holds the final lines once each in order, the squeezed statuses, and one closing event which comes last, or none if the reader disconnects |
| LogStream.LastEventTells | app/api/routes.py:265-283 | the last event carries the status polled last, and is marked as a timeout exactly when that status does not end a build; or it says that the deployment is gone |
| WatchBuild.EventsArriveIntact | app/api/routes.py:240-241 | every sequence of events survives encoding, printing, line splitting, reading and decoding unchanged |
| WatchBuild.Watch | app/api/routes.py:244-283 | server loop and client loop composed: the client has received exactly what the history of fetches calls for |
| WatchBuild.ClientSeesFinalLog | tetra_cli/client.py:271-290 | for any appending log the client has the final log lines exactly once and in order, then exactly one closing event and nothing after it; no closing event if it hung up |
| WatchBuild.ClientReadsFinalLog | app/api/routes.py:271-275 | field by field: log event i carries the output, type and timestamp of line i of the final log |
| WatchBuild.ClientLearnsHowItEnded | app/api/routes.py:265-283 | the client's last event is "done" with the status polled last and a timeout flag exactly if that does not end a build, or "error" |
| WatchBuild.TerminalExactly | app/api/routes.py:226-237 | a status ends a build exactly if, in any case, it is one of the ten listed |
| WatchBuild.WholeLinesOnlyAppend | app/services/coolify.py:226-231 | a plain-text log that only gets longer gives appending line lists exactly when no fetch caught a non-blank line half written |
| WatchBuild.HalfLineStays | app/api/routes.py:271-275 | once a fetch has caught a half-written line, the lines sent never equal the final log, however the run continues |
| WatchBuild.PlainLogReachesClient | app/api/routes.py:244-283 | over whole runs: a plain-text log that only gets longer reaches the client as exactly its final lines if and only if it grew by whole lines |
| WatchBuild.JsonLogReachesClient | app/services/coolify.py:217-246 | over whole runs: a JSON log that grows, shrinks or rewrites its items reaches the client as exactly its final lines if and only if every item ever seen is still there and reads as when its index was first reached |
| RateLimit.InMemoryRateLimiter.Check | app/rate_limit.py:19-40 | new buckets and answer of one check; other keys keep their queues |
| RateLimit.AnswersMatchFullHistory | app/rate_limit.py:19-40 | each answer equals that of a never-pruned history, and is "allowed" exactly when fewer than `limit` calls were let through in the window; the IndexError case is characterised exactly |
| RateLimit.RemainingExactly | app/rate_limit.py:34-40 | an allowed call is told how many more there is room for in the window |
| RateLimit.NeverMoreThanLimit | app/rate_limit.py:19-40 | over any run with a fixed window and limit, every interval (t - W, t] holds at most `limit` allowed calls |
| RateLimit.OtherKeysDoNotMatter | app/rate_limit.py:22 | any sequence of checks on other keys leaves a key's queue as it was |
| RateLimit.RetryAfterDenial | app/rate_limit.py:23-32 | after a denial, a lone retry is allowed exactly when the oldest counted entry has left the window |
| RateLimit.WaitingOneMoreSuffices | app/rate_limit.py:27 | waiting one second more than `Retry-After` always suffices |
| RateLimit.WaitingExactly | app/rate_limit.py:27 | waiting exactly `Retry-After` suffices if and only if the remaining time was a whole number of seconds or at most one |
| Cache.TTLCache.Get | app/cache.py:21-29 | answer and table after a look-up; an expired entry is dropped |
| Cache.LookupsMatchTheLog | app/cache.py:21-37 | in every interleaving of `get_or_set`, `get`, `set` and `delete`, a look-up answers from the latest live store of a log that never evicts, or starts the caller's factory: eviction cannot be observed |
| Cache.EveryHitIsExplained | app/cache.py:39-51 | every cached hit returned a value stored under that key less than its time-to-live ago, with no later store or delete |
| Cache.MissReturnsOwnValue | app/cache.py:45-51 | a call not answered from the cache returns what its own factory produced for the key it asked for |
| Cache.OldFillReturns | app/cache.py:35-51 | a fill in flight across a delete can store and be hit afterwards |
| Cache.DeleteIsFinalExactlyWhenNothingInFlight | app/cache.py:35-51 | no continuation of the run ever hits a value older than the delete, if and only if no fill for the key was in flight at the delete |
| Quota.Session.CheckAndReserve | app/services/quota.py:223-271 | admits or refuses by the count and the plan; inserts exactly one reservation, or nothing; other tenants keep theirs |
| Quota.CountsEachProjectOnce | app/services/quota.py:80-108 | the count is never below the number of distinct projects in use, and equal to it exactly when none is reserved twice and no unreserved one is built twice |
| Quota.UniformUsage | app/services/quota.py:202-221 | rows with one allocation sum to their number times that allocation, defaults substituted |
| Quota.UsageCountsEachRow | app/services/quota.py:202-221 | the sums take in every row exactly once, with what it records or, where that is missing or zero, the default |
| Quota.AllocationIsShare | app/services/quota.py:154-162 | what an app is allotted: of each total the whole units of its share among max(maxApps, 1) apps, never less than the default; without a plan the defaults |
| Quota.OnlyOneShare | app/services/quota.py:157-162 | no other number is that share |
| Quota.SeededShares | app/db/session.py:229-284 | the shares of the three seeded plans, in numbers |
| Quota.PlanIsUsedUp | app/services/quota.py:249-271 | of n installs as many go through as the plan has apps, one without any plan, all of them for the platform's own tenant |
| Quota.ShareStaysInBudget | app/services/quota.py:157-162 | n shares by floor division stay within the plan total, or within the defaults for as many apps |
| Quota.UsageStaysInBudget | app/services/quota.py:134-221 | CPU, memory and disk of a tenant's reservations each stay within max(plan total, max_apps times default) |
| Quota.SeededPlansAreNeverExceeded | app/db/session.py:229-284 | under the three seeded plans the sums never exceed the plan itself |
| QuotaProtocol.ReservationsNeverExceedPlan | app/services/quota.py:164-177 | under every interleaving of locking, counting, reserving, releasing, commits and rollbacks, and whatever builds appear, a billed tenant never has more reservations than its plan allows, the lock holder's pending ones included |
| QuotaProtocol.StepKeepsInv | app/services/quota.py:223-287 | every single step of every transaction keeps the invariant behind that |
| QuotaProtocol.FreshDatabaseIsOk | app/services/quota.py:223-271 | the empty database satisfies the invariant |
| QuotaProtocol.RecordedUsageStaysInBudget | app/services/quota.py:183-271 | in every reachable state a billed tenant's recorded usage stays in budget |
| QuotaProtocol.CommitOrRollback | app/services/quota.py:223-271 | a reserving transaction that commits leaves exactly its row behind, and one that rolls back leaves nothing |
| QuotaProtocol.ReleaseReaches | app/services/quota.py:273-287 | a transaction that releases a project and commits deletes exactly the tenant's app rows of that name |
| QuotaProtocol.WithoutLockQuotaIsExceeded | app/services/quota.py:172-177 | without the lock, for every plan that admits an app and every n, n transactions that count before any reserves all get in |
| QuotaProtocol.SameProjectReservedTwice | app/modules/apps/service.py:141-167 | even with the lock, two installs of one project can both reserve it, since the existing app is looked for before the lock: a concrete run |
| ProjectOnce.StepKeepsOnceExactly | app/services/quota.py:223-271 | a step reserves a project a second time exactly if it commits a reservation for which another one was committed between look and lock, and is still there |
| ProjectOnce.ReservedOnceExactly | app/modules/apps/service.py:141-167 | from any state without transactions, under every interleaving of careful installers: each project is reserved at most once at every moment if and only if no transaction commits over such an intruder |
| ProjectOnce.LookUnderLockSuffices | app/modules/deploys/service.py:186-201 | from any state without transactions: were the look made under the lock, each project would be reserved at most once at every moment of every run |
| DockerEngine.SanitizedIsProjectName | app/services/docker_engine.py:35-38 | every sanitised name is a legal project name, starting and ending with a letter or digit |
| DockerEngine.FixedExactlyProjectNames | app/services/docker_engine.py:35-38 | sanitising leaves a string alone exactly when it is a legal project name that does not end in a dash or underscore |
| DockerEngine.SanitizeIsIdempotent | app/services/docker_engine.py:35-38 | sanitising twice is sanitising once, so the recorded name is the one Docker uses |
| DockerEngine.SanitizeJoinsWords | app/services/docker_engine.py:35-38 | any run of other characters between two sanitised names becomes a single dash, and nothing is lost |
| DockerEngine.SanitizeIgnoresCase | app/services/docker_engine.py:35-38 | case and surrounding whitespace make no difference |
| Apps.AppsService.InstallForTenant | app/modules/apps/service.py:123-200 | inside the request's session: which answer is given; success leaves exactly one new reservation, one READY deployment and one stack, all under one name; a refusal changes nothing; a failed deploy releases the slot; a billed tenant stays within its plan |
| Apps.AppsService.RemoveForTenant | app/modules/apps/service.py:214-238 | who may remove, and exactly which reservations and deployments go |
| Apps.AppsRoute.Install | app/api/routes.py:2164-2183 | an install goes through exactly if actions are enabled, the template exists with a compose file, the project is not installed, the plan has room and the deploy succeeds; it then commits exactly one reservation and one READY deployment; an install that fails, for whatever reason, leaves the committed tables exactly as they were |
| Apps.RefusalExactly | app/modules/apps/service.py:133-154 | which refusal is given, exactly |
| Apps.DomainIsRouted | app/modules/apps/service.py:156-158 | an install is named after what was asked for, else after its template, and the domain it reports is the first host that the edge routes to it |
| Apps.RemoveUndoesInstall | app/modules/apps/service.py:214-238 | removing restores the reservations of before the install, and the deployments exactly when none was left over |
| Deploys.DeploysService.StartDeployForTenant | app/modules/deploys/service.py:172-216 | commits one reservation and one queued build, or nothing when the project exists or the quota is used up |
| Deploys.FailedDeployRestoresExactly | app/modules/deploys/service.py:318-330 | a first deploy that fails leaves the reservations as they were if and only if no app row of another provider carries the project's name |
| Deploys.ForeignReservationIsLost | app/modules/deploys/service.py:318-330 | an input on which the reservation of another provider is gone for good |
| Deploys.StepHoldsExactly | app/modules/deploys/service.py:246-348 | a step leaves a running or in-flight project without a reservation exactly if it is a failing build that leaves a stack, or whose project runs already or is being built once more, or the removal of an app that is being built, or a failing install that leaves a stack |
| Deploys.EveryStackIsReservedExactly | app/modules/deploys/service.py:172-216 | over any run of deploys, redeploys, rollbacks, previews, installs, removals and ends of builds: whatever runs or is being built has a reservation at every moment if and only if no step is one of these |
| Deploys.StacksStayWithinPlan | app/services/quota.py:223-271 | in such a run no more stacks run than the plan allows |
| Deploys.FailedRedeploysLiftTheBound | app/modules/deploys/service.py:572-605 | with failed redeploys any number of stacks can run on a plan that admits one app: a run for every n |
| Deploys.EarlyRemovalsLiftTheBound | app/modules/apps/service.py:214-238 | so it can with removals of apps that are being built, although nothing fails: a run for every n |
| Slug.NormalizeGivesNormalForm | app/modules/auth/service.py:30-33 | every normalised slug is lower-case, non-empty, and free of underscores, doubled dashes and edge dashes |
| Slug.FixedExactlyWhenTrimmed | app/modules/auth/service.py:30-33 | a slug in normal form is a fixed point exactly when it has no edge whitespace |
| Slug.IdempotentExactlyWhenCleanEdges | app/modules/auth/service.py:30-33 | normalising is idempotent on a name if and only if stripping whitespace and then dashes leaves no edge whitespace |
| Slug.SlugKeepsLetters | app/modules/auth/service.py:30-33 | apart from dashes and underscores every character of the stripped, lower-cased name is in the slug, in order, and nothing else; only a name without any gives "default" |
| Slug.SlugJoinsWords | app/modules/auth/service.py:30-33 | any run of dashes and underscores between two slugs becomes a single dash |
| Slug.KeysAreDistinct | app/modules/auth/service.py:201-209 | no two tries of the search look up the same key |
| Slug.UniqueSlug | app/modules/auth/service.py:201-209 | for every name and every finite set of slugs the search ends after at most one look-up more than there are slugs, with the first candidate whose key is free |
| Slug.ResultIsFreeExactlyWhenCleanEdges | app/modules/auth/service.py:55-57 | the slug returned is free, whatever is taken, if and only if the name has clean edges |
| Slug.ResultIsNormal | app/modules/auth/service.py:201-209 | for a name with clean edges the result is free, in normal form and a fixed point |
| Slug.ResultIsNumbered | app/modules/auth/service.py:201-209 | the slug found is the normalised name, or it with the first number from 2 on whose look-up finds none |
| Base32.ToFromDigits | app/services/totp.py:28-31 | digits read as a number and written out again are the same digits |
| Base32.FromToDigits | app/services/totp.py:34-37 | a number written in digits and read again is the same number |
| Base32.UnpaddedSecretDecodes | app/services/totp.py:28-37 | dropping the padding and restoring it by length loses nothing, for byte strings of every length (section 6 of RFC 4648) |
| Base32.SecretRoundTrip | app/services/totp.py:28-37 | neither inserted spaces nor changed case makes a difference |
| Base32.CanonicalIgnoresSpaces | app/services/totp.py:34-37 | trimming and space removal leave the letters of a typed secret, upper-cased |
| Base32.DecodesExactly | app/services/totp.py:34-37 | which secrets decode, by their characters and the number of their final pads |
| Base32.TestVectors | app/services/totp.py:28-31 | the test vectors of section 10 of RFC 4648 up to five bytes |
| TwoFactor.VerifyCode | app/services/totp.py:52-66 | the search loop gives the verdict that VerifyExactly characterises |
| TwoFactor.VerifyExactly | app/services/totp.py:52-66 | a code is accepted if and only if its digits are the code of the counter of this period, the one before or the one after; the check raises if and only if the code has six digits and the secret does not decode or a counter is negative |
| TwoFactor.AtMostThreePass | app/services/totp.py:52-66 | at any moment at most three strings of digits pass |
| TwoFactor.HotpSpellsNumber | app/services/totp.py:40-45 | the code spells the number of the HMAC modulo a million |
| TwoFactor.GeneratedSecretGivesSixDigits | app/services/totp.py:28-46 | every generated secret yields codes of exactly six digits |
| TwoFactor.GeneratedSecretWorks | app/services/totp.py:28-66 | the current code of a generated secret is accepted however it is typed, and no code makes the check raise |
| TwoFactor.BackupCodeIsNoTotp | app/services/totp.py:48-98 | a recovery code, however typed, never passes as a one-time password and never makes the check raise |
| TwoFactor.LoginExactly | app/modules/auth/service.py:130-156 | a login passes exactly with an accepted code, which is one of the window, or with a recovery code whose hash is on the list, which is the one then spent |
| TwoFactor.EnableExactly | app/modules/auth/service.py:101-118 | two-factor goes on exactly for an account that has it off, has a secret and shows a code of its window; the codes issued then are those stored |
| TwoFactor.SetupAndDisableExactly | app/modules/auth/service.py:87-128 | setting up stores a secret and switches nothing on, only while two-factor is off; disabling takes the password and leaves nothing a login could use |
| TwoFactor.IssuedCodeWorks | app/modules/auth/service.py:101-156 | every recovery code that was issued works, however it is spaced |
| TwoFactor.AdminUser.EnableTotp | app/modules/auth/service.py:101-118 | new account state and answer, in the order of the checks |
| TwoFactor.AdminUser.VerifyTotpLogin | app/modules/auth/service.py:130-140 | which logins pass, and how, with the new account state |
| TwoFactor.AdminUser.ConsumeBackupCode | app/modules/auth/service.py:142-156 | a matching hash is removed once; otherwise nothing changes |
| TwoFactor.CodesAreConserved | app/modules/auth/service.py:101-156 | operations one after the other: from enabling to disabling, codes left plus codes spent are exactly the codes issued, and the secret never changes |
| TwoFactor.BackupLoginsAreBounded | app/modules/auth/service.py:130-156 | operations one after the other: a code succeeds at most as often as it was issued, and at most ten logins use one |
| TwoFactor.FailuresLeaveNoTrace | app/modules/auth/service.py:87-156 | a run ends in the same account as the run without its failed attempts |
| TwoFactor.NothingCrashes | app/modules/auth/service.py:87-156 | in every reachable state the secret is a generated one, and no code check raises |
| TwoFactor.EnabledMeansSecret | app/modules/auth/service.py:87-128 | in every reachable state, two-factor that is on has a secret and at most ten codes, and a secret in use is never replaced |
| LoginRace.StepConservesExactly | app/modules/auth/service.py:142-156 | a step keeps codes left plus codes spent at the codes issued exactly if it is not a login that spends a code when the codes are no longer those it has read |
| LoginRace.ConservedExactly | app/modules/auth/service.py:87-156 | over all runs of logins that overlap with each other and with two-factor being set up, enabled and disabled: conservation at every moment if and only if no login does that |
| LoginRace.BoundedOneAtATime | app/modules/auth/service.py:130-156 | what takes place one at a time never does, and spends no code more often than it was issued |
| LoginRace.OneCodeManyLogins | app/modules/auth/service.py:142-156 | otherwise one code is good for n logins, for every n: a run |
| LoginRace.WithdrawnCodesComeBack | app/modules/auth/service.py:101-156 | a run in which a login stores codes that were withdrawn and replaced while it was under way |
| Compose.NormalizeComposeForEngine | app/services/app_catalog.py:104-135 | the loops over services and volumes compute the document with every referenced volume declared, or fail where the source raises |
| Compose.LabelsToDict | app/services/edge.py:31-41 | the loop over a label list or map gives the map with the last value of each key |
| Compose.ApplyResourceLimits | app/services/limits.py:16-45 | the loop over services fills in the caps in each |
| ComposePipeline.VolumesExactly | app/services/app_catalog.py:91-135 | said of the file alone: a volume is declared afterwards if and only if it was declared before, or some service mounts it by name in the short form or in the long form of type volume; paths and mounts of another type add nothing |
| ComposePipeline.MountDeclaresItsVolume | app/services/app_catalog.py:98-132 | "name:path" in the list of any service declares the name, also in the deployed file |
| ComposePipeline.PathsMountNothing | app/services/app_catalog.py:98-101 | a mount that starts with a slash, a dot, a tilde or a dollar sign mounts no volume |
| ComposePipeline.VolumesEndUpDeclared | app/services/app_catalog.py:104-135 | no declaration is overridden, and nothing but volume declarations changes |
| ComposePipeline.NormalizeIsIdempotent | app/services/app_catalog.py:104-135 | declaring volumes twice is declaring them once |
| ComposePipeline.KeepsNetworksExactly | app/services/edge.py:44-60 | counting the implicit default network, the routed service loses none if and only if its network map was not empty (or the edge network is the default one) |
| ComposePipeline.PublicServiceExactly | app/services/edge.py:63-76 | which service is routed: the first whose environment mentions the variable, else the first that is a map, else none |
| ComposePipeline.AddressesExactly | app/services/edge.py:103-112 | the sites of the routed service: its own host first, then exactly the extra hosts that are not empty |
| ComposePipeline.LabelsExactly | app/services/edge.py:31-41 | a list of labels "key=value" gives each key its last value, and a key alone the empty one |
| ComposePipeline.LimitsFillGaps | app/services/limits.py:34-45 | caps a service sets are kept, missing ones get the configured values, zero meaning none, and no other key changes |
| ComposePipeline.LimitsAreIdempotent | app/services/limits.py:34-45 | capping twice is capping once |
| ComposePipeline.EdgeAndLimitsCommute | app/modules/apps/service.py:136-165 | routing and capping commute, failures included |
| ComposePipeline.EdgeIsIdempotent | app/services/edge.py:79-127 | routing a routed file changes nothing |
| ComposePipeline.PipelineVolumesExactly | app/modules/apps/service.py:136-165 | the deployed file declares exactly the volumes that were declared or that some service mounts by name |
| ComposePipeline.PipelineOnServices | app/modules/apps/service.py:136-165 | of every service the whole pipeline changes only the caps it lacks, and of the one with the route also the two routing labels and the networks, which keep all that was there with the exception above; everything else is unchanged |
| ComposePipeline.PipelineOnTopLevel | app/modules/apps/service.py:136-165 | of the top level it changes only volumes and networks; all volume declarations survive, and all network declarations do if and only if nothing is routed, or the edge network was undeclared or declared external |
| ComposePipeline.OwnEdgeNetworkIsReplaced | app/services/edge.py:121-125 | an input whose own declaration of the edge network is lost |
| ComposePipeline.PipelineIsIdempotent | app/modules/apps/service.py:136-165 | running the whole pipeline on its own output changes nothing |
| Cron.FieldMeaning | app/services/cron.py:11-36 | for every field of the documented grammar and every value, matching the printed field agrees with membership in the set its syntax tree denotes |
| Cron.ExprMeaning | app/services/cron.py:39-54 | the same for five-field expressions on every weekday, and on Sundays for faithful day fields |
| Cron.SundayExactly | app/services/cron.py:46-47 | the Sunday rewrite keeps the meaning of exactly the faithful day-of-week fields |
| Cron.SundayNumbers | app/services/cron.py:46-47 | a list of single days fires on Sundays exactly when it contains 0 or 7 |
| Cron.GrammarIsValid | app/services/cron.py:57-74 | validation accepts every expression of the grammar |
| Cron.ValidExactly | app/services/cron.py:57-74 | an expression is valid exactly if it has five fields and every item of each is a lone star, or nothing but digits, dashes, slashes and whitespace behind an optional "*/" |
| Cron.StarInListIsIgnored | app/services/cron.py:15-35 | a `*` anywhere in a list is valid and never matches anything: the other items alone decide |
| Scheduler.CallDue | app/services/scheduler.py:43-55 | the loop over due jobs calls them in order up to the first that raises |
| Scheduler.JobStore.RunDueJobs | app/services/scheduler.py:36-56 | calls, run rows and job fields after one tick; when a call raises the calls stay made and the rows are rolled back |
| Scheduler.TickRecords | app/services/scheduler.py:44-55 | a due job gets one run row with its own status and detail, and carries them with that minute; any other job gets none and stays as it was |
| Scheduler.SchedulerLoop | app/services/scheduler.py:69-87 | the ticks and the calls of the first n rounds |
| Scheduler.TicksIncrease | app/services/scheduler.py:69-75 | ticks are strictly increasing whole minutes, whatever the overshoot and the work |
| Scheduler.NextMinuteExactly | app/services/scheduler.py:69-75 | no minute is skipped between two ticks if and only if the work ended within its minute and the sleep did not overshoot the next one |
| Scheduler.NoMinuteSkipped | app/services/scheduler.py:69-75 | a punctual run covers consecutive minutes |
| Scheduler.AtMostOncePerMinute | app/services/scheduler.py:36-87 | in any run no job is called twice for one minute |
| Scheduler.AllDueCalledExactly | app/services/scheduler.py:42-55 | all due jobs of a tick are called if and only if none but the last raises |
| Scheduler.EveryDueJobFires | app/services/scheduler.py:36-87 | a punctual run calls every enabled matching job in every minute it covers, exactly once |
| Scheduler.CronJobFires | app/services/scheduler.py:36-87 | the same for a job with an expression of the grammar, by the expression's meaning |
| Schema.Connection.UpgradeExistingSchema | app/db/session.py:108-226 | the sequence of column and row updates turns a database into the upgraded one |
| Schema.UpgradeEstablishes | app/db/session.py:108-226 | afterwards all columns, plans and allocations are there and the backfilled rows are settled |
| Schema.UpgradeIsIdempotent | app/db/session.py:108-354 | upgrading twice is upgrading once, from every legacy state |
| Schema.UpgradePromises | app/db/session.py:287-337 | every tenant has a plan, some admin is platform admin if there is any, every platform admin's tenant is platform-scope, and in a database from before tenancy every admin has a tenant |
| Schema.LegacyAdminsFindHome | app/db/session.py:108-226 | every admin of a database from before tenancy ends up in an existing tenant |
| Schema.UpgradeTakesNothingBack | app/db/session.py:108-354 | from every legacy state no row disappears, and only default plans whose key was missing and one adopting tenant are added; identities stay; and plans, homes, scopes, roles, statuses and allocations stay wherever their column was there |
| SchemaRows.AdminsExactly | app/db/session.py:305-325 | from every legacy state an admin ends as platform admin if and only if it was one, or has the bootstrap e-mail, or there is neither and it is the oldest; otherwise its role is what it was, or owner without a role column; and which tenant it is in |
| SchemaRows.TenantsExactly | app/db/session.py:287-337 | a tenant ends platform-scope if and only if it was, or its slug is "default", or a platform admin lives in it; which plan it is on; and it is suspended exactly if it was inactive but counted as active |
| SchemaRows.ResourcesExactly | app/db/session.py:340-354 | an app without a recorded CPU value gets the three defaults, and every other resource keeps what it had |
| Schema.AllocationsSurviveExactly | app/db/session.py:340-354 | for every set of columns there: a recorded memory or disk value of an app survives the allocation backfill if and only if its CPU was recorded too, or it was the default |
| Billing.RoundIsNearest | app/modules/billing/service.py:33-40 | rounding is to the nearest integer, to even on ties, and nothing else has that property |
| Billing.PriceIsMonotone | app/modules/billing/service.py:33-40 | a dearer cost is never sold cheaper, under any rule |
| Billing.PriceCoversCost | app/modules/billing/service.py:33-40 | a non-negative markup or margin never sells below cost |
| Billing.PriceIsAsAsked | app/modules/billing/service.py:33-40 | the price is a whole number of cents, at most half a cent from the fixed price, the cost plus the margin, or cost times (100 + percent) / 100, and zero where that is negative |
| Billing.SplitChargesDriftLittle | app/modules/billing/service.py:33-40 | pricing n charges separately differs from pricing their sum by at most (n + 1) / 2 cents |
| Billing.BillingService.GetQuote | app/modules/billing/service.py:57-82 | which cost and rule a quote uses, its price and margin, and when there is none |
| Uptime.UptimeService.CheckOne | app/services/uptime.py:98-122 | status and alerts after one check; a raising probe changes nothing; other monitors keep their status |
| Uptime.UptimeService.CheckAll | app/services/uptime.py:127-135 | the loop over monitors sends the alerts of all checks up to the first probe that raises |
| Uptime.UptimeService.Run | app/services/scheduler.py:59-66 | inside its transaction: all statuses are committed, or none when a probe raises, while alerts stay sent |
| Uptime.StepKeepsExactly | app/services/uptime.py:90-135 | a pass or single check keeps every monitor's alerts in line with its status if and only if no monitor alerted before a probe raised |
| Uptime.StatusIsLastSeen | app/services/uptime.py:98-135 | at every moment a monitor has the status that the last step which was not rolled back saw |
| Uptime.AlertsAlternateExactly | app/services/uptime.py:90-135 | over any number of passes and single checks: at every moment the alerts of each monitor alternate down and up starting with down, the latest telling its status, if and only if in no pass a monitor alerted before the probe of another one raised |
| Uptime.AlertsAlternate | app/services/uptime.py:90-135 | so they do whenever all URLs can be probed |
| Uptime.DownIsSentAgain | app/services/uptime.py:74-88 | otherwise the same down alert goes out twice: a run of two passes |

## Left out

- Provider clients (Coolify calls, Cloudflare, Mailcow, Hetzner, OpenRouter, R2, Umami, GlitchTip): network plumbing.
- Routes other than the streaming helper, contracts, GraphQL, templates, middleware, the plugin registry, command-line parsing and printing: wiring and user interface.
- HMAC, SHA-256, Fernet, RSA and password hashing are arbitrary functions, random bytes and codes are inputs: nothing is claimed about their strength.
- JSON and YAML text: compose files are trees, `json.loads` of a stored log is an arbitrary function.
- WatchBuild.EventsArriveIntact: does not model JSON text; encoding and decoding are any pair of functions that are inverse, with single-line, edge-trimmed output, on the payloads sent here, as Python's are.
- WatchBuild.Watch: the client splits the whole response text at once; cutting it into network chunks is httpx's part.
- LogStream.StreamDeploymentLogs: requires a positive polling interval, since with a zero interval the source's own time limit never triggers; times are whole ticks.
- Characters: case mapping and decimal digits are those of ASCII; non-ASCII letters, digits and lone surrogates are left out. Whitespace and line breaks are Python's full lists.
- RateLimit.InMemoryRateLimiter.Check: checks are taken one at a time with the clock never running backwards, as they are on one event loop, where nothing is awaited between reading the clock and releasing the lock; floating-point seconds are reals.
- Cache: a factory that raises is a fill that never finishes; times are whole ticks.
- SQL and the ORM: tables are sets or sequences of rows, transactions are steps that see committed rows and their own; column length limits are not modelled.
- QuotaProtocol.ReservationsNeverExceedPlan: plans, scopes and default allocations are fixed during a run; rows inserted by platform admins outside the quota service are excluded. Each tenant has a lock of its own, whereas in the source tenants whose names hash to the same number share one; that only makes more transactions wait.
- ProjectOnce.ReservedOnceExactly: installers look for a project before they decide about it and reserve it once in a transaction, as all callers in the source do; removal of installed apps appears only as the release of their rows.
- Apps.AppsService.InstallForTenant: template rendering, the compose text and the domain route are not part of it; the compose rewrites are in ComposePipeline, and Docker's outcome is an input.
- Slug.UniqueSlug: the tenants do not change during the search.
- Compose: rewriting is done on values, so YAML anchors that share one map between services are not modelled; map keys have no order except that of the services.
- ComposePipeline.PipelineOnServices: the environment map is searched entry by entry instead of as one joined text, and keys and values are turned into text by an arbitrary function.
- Compose.ApplyResourceLimits: the cap's decimal text is not modelled, only which number it is made from.
- Cron.FieldMeaning: numerals longer than the length at which Python refuses to convert them are left out.
- Scheduler.SchedulerLoop: microseconds are whole numbers, sleeping is never short, the clock never runs backwards, and only the first n rounds of the endless loop are taken, for every n; uptime checks are part of a round's work.
- Schema.Connection.UpgradeExistingSchema: models the tables and columns whose rows later steps read; the remaining columns are only noted as present. Which of several equally old admins is promoted is left open by the source, and fixed here as the first listed.
- SchemaRows.AdminsExactly: admins have distinct ids, as the primary key demands.
- ComposePipeline.AddressesExactly: hosts contain no comma and no whitespace at their edges, as host names do not.
- Billing: prices are exact reals, where the source uses binary floating point.
- Uptime.AlertsAlternateExactly: passes and single checks take place one after the other, on a fixed set of monitors; two checks of one monitor that overlap could both send an alert. Latency, detail text and check times are not modelled.
- Deploys: one tenant, one transaction at a time, with provider actions enabled; rows that platform admins insert or delete by hand, the removal of previews, and builds lost in a restart of the server are not part of it, nor is what a build does besides ending well or badly.
- TwoFactor.CodesAreConserved: operations take place one after the other; logins that overlap are in LoginRace.
- LoginRace.ConservedExactly: setting up, enabling and disabling are one step each, so two of them do not overlap; each login's write is one step.
- The credit wallet, the HTTP retry loop, tenant status endpoints, the MCP gate and resource filters: they would only add easy members.
- The services for domains, scheduled-job management, teams, single sign-on and resellers are not part of this model.
