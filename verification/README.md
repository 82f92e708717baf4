# lucos_repos: verified model

lucos_repos audits a fleet of GitHub repositories. A sweep runs every convention against every repo, retries the
indeterminate checks once, writes findings to a table, and keeps one tracked issue per violation. It then regenerates
an architecture model from several sources and routes the contradictions between them to issues. This project models
the machinery around the individual checks and proves what it promises.

| module | component |
|---|---|
| IssueTitles, IssueTracker, IssueOverflow | issue titles, the Ensure/Close protocol and its safety over every run, more than one page of issues |
| C4Routing, C4Convergence, C4Overflow, C4OffPage, C4Tracked | reconciliation of divergences with open "c4-" issues, within and beyond one page |
| Findings, Sweep, SweepResults, SweepTable, SweepIssues, SweepCloses, SweepFields, Rerun, LateRerun | the sweep, the findings table, interleaved reruns, the issues a sweep leaves, failed closes |
| DryRun, StatusReport, AuditDiff, SweepDiff, Misreport | the second implementation of the sweep, both summaries, the difference of reports, and what a check reporting another ID does to them |
| SingleFlight, Throttle, AuditLimiter | the two single-flight sweepers and the two limiters, over all interleavings |
| RateLimit, HttpCache, CachingSteps, RetryClient | the transport stack, sequentially and with every step interleaved, and the retry tail's own client |
| C4Producers, C4Webhooks, C4WebhooksOrder, C4Model, C4Determinism, C4Ambiguity, C4Estate, C4Render, C4Mermaid, C4ReadBack, C4ReadChart, C4Report, WriteBack, C4Stage, C4Published | the generators in the estate's own fields, exactly when they are independent of map order, closure of their output and reading it back, the write-back, and what the output repo then shows |
| Text, Dockerfile, DockerfileExact, DockerfileRoundTrip, PemRepair | the two text scanners, what they find on any text, and their round trips |
| SmallFleet, Sorting, Wrappers | a fleet for concrete cases; what an unstable sort by a comparison promises; shared helpers |

External behaviour is a parameter of every result: check answers, API fates (answered, refused, applied with the reply
lost), database failures, clock readings and map iteration orders are arbitrary unless a lemma says otherwise. Loops
and in-place updates of the source are methods with invariants, proved against functions or predicates; lemmas are
about those.

## Where the code does less than it says

Each of these is backed by a lemma, with the exact condition or a family of inputs.

- IDs with a colon do not survive their title, so a webhook host with a port makes its issue flap on every run
  (`C4Convergence.ColonIdFlaps`, `C4Tracked.TargetIdSurvivesTitle`).
- "At most one open issue per convention" needs the ID's issue on the first page (`IssueTracker.EnsureDuplicatesOffPage`,
  `IssueOverflow.HundredYoungerDuplicate`), and reconciliation leaves the stale issues that are off the page
  (`C4Overflow.ConvergesExactlyWhen`, `C4OffPage.ConvergesByOpenIssues`, `C4OffPage.HundredYoungerHideStale`).
- A failed repo upsert drops the repo without counting it as skipped, and the purge then removes its rows
  (`SweepResults.AllAccountedExactlyWhen`, `SweepTable.DroppedRepoIsPurged`).
- The comment on `processCheckResult` says that a failed close counts as skipped; the code only counts failed ensures
  (src/audit.go:500-503, src/audit.go:538-548). The two results are the same exactly when
  no close is lost, and a nil sweep can leave a passing check's issue open (`SweepCloses.DocumentedExactlyWhen`,
  `SweepCloses.FailedCloseIsSilent`).
- The sweep saves a finding under the ID a check reports, the dry run under the check's own; `env-var-passthrough`
  reports another. The two agree exactly when the reported IDs are, all told, the checks' own
  (`DryRun.DryRunAgreesWithSweep`), and while that check fails an unchanged registry shows it both as a new failure and
  as resolved (`Misreport.FailureShowsTwice`).
- A rerun that stamps its row before a sweep starts and commits it during the sweep loses the row
  (`LateRerun.WrittenRowLostExactlyWhen`, `LateRerun.LateStampLosesRow`).
- "Rate-limit responses are never cached" holds for the first of the two attempts only
  (`HttpCache.RateLimitIsCachedExactlyWhen`, `HttpCache.BusyTwice`).
- `Stats()` can exceed `Misses()` while a call is in flight (`CachingSteps.StatsExceedsExactlyWhen`,
  `CachingSteps.StatsCanRunAhead`).
- A Retry-After of just over 9223372036 seconds wraps around and retries at once (`RateLimit.HugeRetryAfterRetriesAtOnce`).
- The two summaries count a repo no convention applies to differently (`StatusReport.SummariesOfSweep`,
  `StatusReport.CountsDiffer`).
- The generated model depends on map order exactly when its sources are ambiguous (`C4Ambiguity.DeterministicExactlyWhen`,
  `C4WebhooksOrder.HyphenAndDotClash`).
- A PEM text whose first footer starts before its first header ends makes the slice expression panic
  (`PemRepair.PanicsExactlyWhen`).

## Model

| member | source | states |
|---|---|---|
| IssueTitles.TitleRoundTrip | src/github_issues.go:25-35 | The ID read back from a title is the ID that went in, for every description, exactly when the ID has no colon |
| IssueTitles.TitleTells | src/github_issues.go:25-35 | Titles of colon-free IDs tell both the ID and the description |
| IssueTitles.TitleReads | src/github_issues.go:25-35 | A concrete title, as people see it |
| IssueTitles.PrefixFindsItsId | src/github_issues.go:173-181 | On titles as the tool raises them, a colon-free ID's search prefix matches exactly the titles that read back as that ID |
| IssueTitles.PrefixTellsIdsApart | src/github_issues.go:139-145 | The search prefix of one colon-free ID starts another's title exactly when the IDs are equal, also when one is a string prefix of the other |
| IssueTitles.ColonMakesIdsCollide | src/github_issues.go:173-176 | Two concrete IDs, one with a colon, that the prefix search confuses |
| IssueTracker.FirstMatch | src/github_issues.go:139-145 | The first listed issue whose title starts with the prefix: it matches, nothing before it does |
| IssueTracker.GitHub.constructor | src/github_issues.go:52-56 | A tracker with given issues and no calls made yet |
| IssueTracker.GitHub.FetchIssuesList | src/github_issues.go:207-258 | One list call: an error, or the newest hundred open labelled issues |
| IssueTracker.PageExactly | src/github_issues.go:207-258 | A list call sees the open labelled issues, newest first, up to a hundred |
| IssueTracker.GitHub.CreateIssue | src/github_issues.go:378-445 | One create call: refused, applied, or applied with its reply lost; nothing else changes |
| IssueTracker.GitHub.CloseIssue | src/github_issues.go:331-368 | One close call with the same three ends |
| IssueTracker.GitHub.FindOpenIssueObject | src/github_issues.go:128-146 | The first listed issue of the ID, none, or the list call's error |
| IssueTracker.GitHub.EnsureIssueExists | src/github_issues.go:76-104 | The tracker and the answer after an Ensure, for every pair of fates of its calls |
| IssueTracker.GitHub.CloseIssueIfOpen | src/github_issues.go:265-290 | The same for a Close |
| IssueTracker.PageIsComplete | src/github_issues.go:128-133 | With one open issue per ID and at most a hundred IDs, the single page holds every open labelled issue |
| IssueTracker.OpenIdIsFound | src/github_issues.go:134-146 | On a complete page the search finds every open ID |
| IssueTracker.StepKeepsTidy | src/github_issues.go:76-146 | Every Ensure or Close, whatever its calls' fates, keeps one open issue per ID |
| IssueTracker.RunsNeverDuplicate | src/github_issues.go:76-146 | Over every run of Ensure and Close with any failures and lost replies, no ID ever has two open issues and the page stays complete, for at most a hundred colon-free IDs |
| IssueTracker.EnsureNamesItsIssue | src/github_issues.go:76-117 | An Ensure answers with an open issue of its own ID, the one on the page or the one it created; it errs exactly when a call it needed did not go through, and says "unavailable" exactly when that call did |
| IssueTracker.CloseAnswers | src/github_issues.go:265-290 | The same account of a Close's errors |
| IssueTracker.EnsureDuplicatesOffPage | src/github_issues.go:128-133 | Without the bound on IDs, an Ensure keeps one issue per ID exactly when the ID's open issue is on the first page |
| IssueOverflow.HundredYoungerDuplicate | src/github_issues.go:130-133 | A concrete case: with a hundred younger issues an acknowledged Ensure raises a second issue for the oldest ID |
| IssueTracker.StepTouchesOnlyItsId | src/github_issues.go:76-104 | A step adds one issue of its own ID or closes one of its own prefix; no other entry changes, whatever fails |
| C4Routing.FindOpenIssuesByIdPrefix | src/github_issues.go:155-171 | The open "c4-" issues of the page, or the call's error |
| C4Routing.SelectC4 | src/github_issues.go:163-170 | Exactly the listed issues in the "c4-" namespace, in order |
| C4Routing.GroupByRepo | src/c4.go:812-815 | The divergences of each repo, in their order |
| C4Routing.RouteDivergencesToIssues | src/c4.go:805-862 | The tracker after routing, for any order of the candidate set and any fates |
| C4Routing.RouteToRepo | src/c4.go:838-861 | One candidate repo: raise its divergences, then close what no longer reproduces |
| C4Routing.ReconcileRepo | src/c4.go:846-861 | List, then close; a failed list call closes nothing |
| C4Convergence.CloseAllCounts | src/c4.go:851-861 | k snapshot entries of a stale ID drive k closes of it; no other ID's count changes |
| C4Convergence.RouteConverges | src/c4.go:805-862 | After an error-free reconciliation the open "c4-" IDs of a repo are exactly its colon-free current ones, so all current ones exactly when none has a colon |
| C4Convergence.RouteAllConverges | src/c4.go:817-861 | The same for every candidate repo after a whole routing; other repos are unchanged |
| C4Convergence.ConvergedIsFixed | src/c4.go:838-861 | On a converged repo routing creates nothing and closes nothing |
| C4Convergence.SecondRunIsIdle | src/c4.go:805-862 | A second identical run changes nothing when current IDs have no colon |
| C4Convergence.ColonIdFlaps | src/c4.go:396-403 | An ID with a colon is raised and closed again on every run |
| C4Convergence.RouteTouchesOnlyC4 | src/c4.go:805-862 | Whatever calls fail, only stale "c4-" issues are closed and only "c4-" issues are added |
| C4Convergence.RouteAllTouchesOnlyC4 | src/c4.go:817-861 | The same for the whole routing: on every repo, candidate or not, only "c4-" issues change whatever fails |
| C4Overflow.ReconcileClosesThePage | src/c4.go:846-861 | Without a bound on open issues, an error-free reconciliation closes of each stale ID exactly the issues on the page |
| C4Overflow.RouteBeyondOnePage | src/c4.go:805-862 | Without a bound, a colon-free current ID ends open, and a stale one ends open exactly if it had an issue off the page |
| C4Overflow.ConvergesExactlyWhen | src/c4.go:805-862 | So the routing of a repo converges if and only if, once its divergences are raised, no stale "c4-" issue is off the page |
| C4OffPage.EnsuresRaise | src/c4.go:838-844 | The open issues once the divergences are raised, as a function of the open issues before the call |
| C4OffPage.ConvergesByOpenIssues | src/c4.go:805-862 | The same condition read off the open issues before the call |
| C4OffPage.OffPageBlocks | src/c4.go:805-862 | A stale issue off the page before the call keeps the routing from converging; where every current divergence is on the page already, only such an issue does |
| C4OffPage.HundredYoungerHideStale | src/github_issues.go:155-171 | A concrete case: a hundred younger issues, an error-free routing, and a stale "c4-" issue that stays open |
| Findings.FindingsTable.constructor | src/database.go:60-109 | A table with given rows and an empty statement log |
| Findings.FindingsTable.SaveFinding | src/database.go:142-162 | The row of (repo, convention) is replaced, or nothing changes when the statement fails |
| Findings.FindingsTable.DeleteStaleFindings | src/database.go:168-181 | Exactly the rows stamped before the cutoff go |
| Findings.ReplayAt | src/database.go:142-181 | Replaying purge-free statements, a key's row is the last one saved for it, or the one it had |
| Sweep.AuditSweeper.constructor | src/audit.go:178-195 | A sweeper on a findings table |
| Sweep.AuditSweeper.Sweep | src/audit.go:294-497 | The sweep's result, the statements it commits and the checks it runs, for every behaviour of checks, tracker, token and database; the C4 stage runs, and is reported on, exactly after a success |
| Sweep.AuditSweeper.CheckRepo | src/audit.go:408-436 | The first pass over one repo |
| Sweep.AuditSweeper.FirstAttempt | src/audit.go:417-435 | One check of the first pass: deferred when indeterminate, otherwise applied |
| Sweep.AuditSweeper.RetryTail | src/audit.go:438-472 | One retry of each deferred check; a second indeterminate result is skipped |
| Sweep.AuditSweeper.ProcessCheckResult | src/audit.go:504-559 | What is asked of the tracker, the finding that is saved, and what an error of the tracker leads to: it is logged, and only a failed raise counts the check as skipped |
| SweepResults.FirstPassIsFlat | src/audit.go:352-440 | The first pass is cut short exactly when some active repo's token cannot be refreshed; otherwise the nested loops run one flat list of checks |
| SweepResults.SweepSummary | src/audit.go:443-487 | Skip count, result and statements in closed form: nil exactly when nothing was indeterminate twice and no issue failed to be raised |
| SweepResults.EveryPairOnce | src/audit.go:343-476 | Every in-scope pair of a recorded repo is settled at first, settled in the tail, or indeterminate twice, in exactly one way, and checked at most twice; a pair of a repo whose upsert failed appears nowhere |
| SweepResults.CheckedExactlyWhen | src/audit.go:393-396 | An in-scope pair is checked if and only if its repo's upsert succeeds |
| SweepResults.AllAccountedExactlyWhen | src/audit.go:393-396 | All in-scope pairs are accounted for if and only if no active repo with a check in scope fails its upsert |
| SweepResults.InScopeExactly | conventions/conventions.go:163-187 | In scope is exactly a repo that is neither archived nor a fork with a convention that lists the repo's type, or no type, and does not exclude the repo; a repo without a type is "unconfigured" |
| SweepResults.InScopeOnce | src/audit.go:343-416 | With distinct repo names and convention IDs no pair is in scope twice |
| SweepFields.RunsExactly | src/audit.go:352-460 | Every due check is run once, and a second time exactly after a first indeterminate answer |
| SweepFields.ResultExactly | src/audit.go:294-497 | Which error is returned, in the inputs' own fields: nil exactly when nothing stops the sweep and no due check is indeterminate twice or, in production, fails without its issue being raised |
| SweepFields.CommitsExactly | src/audit.go:478-559 | The statements of a sweep that nothing stops, in the inputs' own fields: the row of every settled due check, with key, verdict, detail, time and issue, and after a nil result the purge |
| SweepTable.SweepWritesOwn | src/audit.go:478-483 | Whatever its result, a sweep writes only final results and purges only when it succeeds, with its start as cutoff |
| SweepTable.SuccessSettles | src/audit.go:443-476 | A successful sweep settles every in-scope check of a recorded repo |
| SweepTable.SuccessfulSweepTable | src/audit.go:294-483 | After a successful sweep, under every interleaving of reruns, the table holds exactly the keys that settled in-scope checks report, with such a check's final result, and the rows stamped since its start |
| SweepTable.RowOfCheck | src/audit.go:555-557 | Where in-scope checks report different keys, each one's final result is found under the key it reports |
| SweepTable.FailedSweepTable | src/audit.go:474-476 | A sweep that returns an error deletes no row, and a key that no check it settles reports keeps the row reruns left it |
| SweepTable.UnsettledKeepsItsRow | src/audit.go:460-466 | So a twice indeterminate check keeps its row, where in-scope checks report different keys |
| SweepTable.PurgeInTheMiddle | src/database.go:164-181 | Without assumptions on stamps, exactly which rows survive a purge between other statements: a late-committed early stamp is lost |
| LateRerun.WrittenRowLostExactlyWhen | src/audit.go:478-483 | After a nil sweep and any reruns, a key the sweep wrote is missing if and only if it is not saved after the purge and the last save before it, a rerun's, is stamped before the sweep's start |
| LateRerun.LateStampLosesRow | src/database.go:164-181 | A family: a nil sweep saves its in-scope check, a rerun stamped earlier commits after it, and the purge takes the row away |
| SweepTable.RowsFollowReportedIds | src/audit.go:555-557 | A sweep that reaches its end saves exactly the keys that settled in-scope checks report, each with the result of such a check |
| SweepTable.DroppedRepoIsPurged | src/audit.go:393-396 | A successful sweep purges the stale rows of every repo it could not record |
| SweepTable.FailedUpsertsAreSilent | src/audit.go:393-396 | A concrete family: with every repo upsert failing the sweep still succeeds, writes nothing, and purges |
| SweepIssues.StepSetsItsId | src/github_issues.go:76-104 | A step changes no other ID's open state; an Ensure opens its own and a Close closes its own exactly if its calls take effect |
| SweepIssues.LastStepDecides | src/github_issues.go:76-290 | In any run, an effective last step on an ID decides whether it ends open, whatever failed before |
| SweepIssues.SweepOpsAre | src/audit.go:504-551 | The tracker steps of a sweep on a repo are, in production, those of its settled checks' final attempts, and none otherwise |
| SweepIssues.OpenIssuesExactly | src/audit.go:504-551 | After any sweep in production, also one cut short, the issue of a failing settled check is open if it was or its Ensure took effect, that of a passing one if it was and its Close did not; never two; other IDs, and all outside production, are as before |
| SweepIssues.RunExactly | src/audit.go:443-476 | A sweep that reaches its end makes the final attempt of exactly the in-scope checks of recorded repos |
| SweepIssues.NilMeansAsked | src/audit.go:474-476 | A nil sweep ran every in-scope check of a recorded repo to a result, and no issue call of a failing one failed but for unavailable issues |
| SweepIssues.NamedStaysOpen | src/audit.go:516-533 | The very issue the tracker named for a failing check stays open through the rest of the sweep |
| SweepIssues.SavedIssueIsOpen | src/audit.go:516-557 | After any sweep the issue in a finding is the open issue of that check on that repo; there is one exactly for a failure in production that the tracker named an issue for |
| SweepIssues.NilRaisesEveryFailure | src/audit.go:474-476 | After a nil sweep in production every failing in-scope check of a recorded repo has an open issue of its own, the one in its finding, unless issues are unavailable there |
| SweepCloses.CodeLeavesClosesOut | src/audit.go:500-551 | The sweep's result counts, of the checks it ran, second errors and failed raises, and no failed close |
| SweepCloses.DocumentedExactlyWhen | src/audit.go:500-503 | The sweep returns what the comment documents if and only if it is cut short or no settled passing in-scope check of a recorded repo has a failed close |
| SweepCloses.NilLeavesOpenExactlyWhen | src/audit.go:538-548 | After a nil sweep in production a passing in-scope check of a recorded repo still has an open issue if and only if it had one and the calls to close it took no effect |
| SweepCloses.FailedCloseIsSilent | src/audit.go:538-548 | A family: a refused list call, a nil sweep, one documented skip, and a passing check whose issue stays open |
| Rerun.RerunRepos | src/rerun_handler.go:105-196 | The statements of a rerun, the repos it reports and what it reports of each |
| Rerun.RerunRepo | src/rerun_handler.go:134-184 | Exactly the wanted checks of a repo are answered, with an error, a pass, or a failure and its linked issue |
| Rerun.RerunCheck | src/rerun_handler.go:144-180 | An indeterminate answer is reported but not saved |
| Rerun.WantedExactly | src/rerun_handler.go:108-142 | A check is wanted exactly if the filter names it, it lists the repo's type or none, and it does not exclude the repo; the type is configy's, "unconfigured" if configy has none, and the report's if configy could not be asked |
| Rerun.RerunSavesExactly | src/rerun_handler.go:167-179 | A rerun deletes nothing, and its statements are exactly the determinate answers of the wanted checks, passing or failing, a failing one with the report's link |
| DryRun.RunAuditDryRun | src/cmd_audit.go:157-255 | The report holds the final status of exactly the in-scope checks, and the skip count is that of twice-indeterminate checks |
| DryRun.CheckRepo | src/cmd_audit.go:191-222 | The first pass of the dry run over one repo |
| DryRun.Record | src/cmd_audit.go:213-219 | Entering one status keeps the compliance flag equal to having no failing non-skipped entry |
| DryRun.RetryTail | src/cmd_audit.go:225-260 | The retried checks get their second result, or are marked skipped |
| DryRun.EntriesAreFinalResults | src/cmd_audit.go:191-260 | The non-skipped entries are those of the settled in-scope checks, each with the verdict and detail of the row the sweep saves for it |
| DryRun.ReportExactly | src/cmd_audit.go:135-256 | The finished report in the inputs' own fields: its repos with their types, one entry for each check in scope, the second answer where the first was indeterminate, and a mark where both were |
| DryRun.EveryCheckAgrees | src/cmd_audit.go:213-219 | Check by check both implementations have the same result, entered under the check's own ID and saved under the one it reports |
| DryRun.DryRunAgreesWithSweep | src/cmd_audit.go:157-255 | Both skip the same number of checks, and entries and findings have the same keys if and only if the settled checks report, all told, the set of their own IDs |
| DryRun.ResultsAgreeExactlyWhen | src/cmd_audit.go:157-255 | Entries and findings are equal, results included, if and only if besides no two settled checks with different results trade IDs |
| DryRun.OwnIdsAgree | src/cmd_audit.go:157-255 | So they are equal where every in-scope check reports its own ID |
| Misreport.EntryWithoutRow | conventions/env-var-passthrough.go:253-282 | The shipped check that reports another ID: an entry without a finding under its own key, a finding without an entry under the other |
| StatusReport.GetStatusReport | src/database.go:302-336 | The table's rows grouped by repo, with the repo's stored type, whatever order they are read in |
| StatusReport.StatusExactly | src/database.go:311-336 | The report holds exactly the rows, each with verdict, detail and issue; a repo is compliant exactly if all its rows pass |
| StatusReport.Summarise | src/cmd_audit.go:263-274 | The three counters are the numbers of repos, compliant repos and failing entries |
| StatusReport.SummariesAgree | src/database.go:338-355 | Whatever keys the rows stand under, both summaries count the same violations, and the same repos exactly when every repo has some settled check |
| StatusReport.SummariesOfSweep | src/database.go:338-355 | After a clean sweep the summaries of the table and of the dry run agree on violations, and differ in repos and compliant repos by exactly the active repos no convention applies to |
| StatusReport.CountsDiffer | src/database.go:338-355 | A concrete case: two repos, one without an applicable convention, counted two and one |
| StatusReport.CleanTable | src/audit.go:352-483 | After a successful sweep over older rows the table holds exactly the in-scope results under the keys their checks report |
| StatusReport.TableMatchesDryRun | src/audit.go:352-472 | Row by row the table holds the dry run's entries with their verdicts, on their repos, under the keys their checks report |
| StatusReport.SameKeysExactlyWhen | src/audit.go:352-472 | Under the same keys if and only if the checks report, all told, the set of their own IDs |
| SingleFlight.SingleFlightAlways | src/audit.go:211-255 | In every reachable state the flag holds exactly while one body runs, and the status fields are the latest outcome and the latest success |
| SingleFlight.AuditSweeper.constructor | src/audit.go:178-195 | No sweep has run |
| SingleFlight.AuditSweeper.TriggerSweep | src/audit.go:219-230 | True, with one more body, exactly when none was active |
| SingleFlight.AuditSweeper.RecordOutcome | src/audit.go:232-257 | Outcome and flag are set in one lock section; a failure keeps the time of the latest success |
| SingleFlight.AuditSweeper.Status | src/audit.go:211-215 | The latest success time and the latest outcome |
| SingleFlight.PrSingleFlightAlways | src/pr_dashboard.go:141-213 | The same for the PR sweeper; the shown data is always the latest published |
| SingleFlight.PublishedBeforeCleared | src/pr_dashboard.go:160-213 | When a body that published clears the flag, readers see that body's data |
| SingleFlight.PrSweeper.constructor | src/pr_dashboard.go:118-126 | No data and no body |
| SingleFlight.PrSweeper.TriggerSweep | src/pr_dashboard.go:141-152 | True exactly when none was active |
| SingleFlight.PrSweeper.RunSweep | src/pr_dashboard.go:160-213 | Publishes before it clears the flag; clears it also when a fetch fails |
| SingleFlight.PrSweeper.Data | src/pr_dashboard.go:154-158 | The latest published data |
| Throttle.ThrottleTransport.constructor | conventions/throttle_transport.go:41-46 | An empty history |
| Throttle.ThrottleTransport.Reserve | conventions/throttle_transport.go:52-67 | The slot is the later of the clock and the previous slot plus the interval, and the sleep reaches exactly it |
| Throttle.SlotsSpread | conventions/throttle_transport.go:52-67 | Slots lie at least one interval apart |
| Throttle.RateIsBounded | conventions/throttle_transport.go:52-68 | However callers interleave and oversleep, by time T at most 1 + (T - first slot) / interval requests are dispatched |
| Throttle.WaitIsBounded | conventions/throttle_transport.go:52-68 | No caller waits longer than one interval per earlier slot later than one interval before its clock reading |
| AuditLimiter.AuditRateLimiter.constructor | src/audit_api.go:92-98 | No accepted requests |
| AuditLimiter.AuditRateLimiter.Allow | src/audit_api.go:100-126 | Accepted exactly when fewer than the limit were accepted in the window ending now; other repos are unaffected |
| AuditLimiter.PruningIsHarmless | src/audit_api.go:107-117 | Dropping expired entries never changes a later decision |
| AuditLimiter.WindowExactly | src/audit_api.go:107-117 | The window holds the entries later than one window ago and not later than now |
| AuditLimiter.WindowNeverOverfull | src/audit_api.go:100-126 | At every instant at most the limit of accepted requests lies in the window that ends there |
| AuditLimiter.RejectedExactlyAtLimit | src/audit_api.go:115-118 | A rejection finds exactly the limit of acceptances in the window |
| RateLimit.Wire.constructor | conventions/ratelimit_transport.go:52-57 | A wrapped transport given by its answers, not asked yet |
| RateLimit.Wire.RoundTrip | conventions/ratelimit_transport.go:71-71 | One call on the wrapped transport, which keeps the URLs it was asked for |
| RateLimit.RateLimitTransport.constructor | conventions/ratelimit_transport.go:52-57 | A transport with its maximum wait |
| RateLimit.RateLimitTransport.RoundTrip | conventions/ratelimit_transport.go:70-135 | The answer, the calls made, all for the request's URL, and the sleep, from the two answers the wrapped transport would give |
| RateLimit.RoundTripIsBounded | conventions/ratelimit_transport.go:70-135 | At most two calls and at most the effective maximum of sleep; a second call exactly when the first answer is a rate limit whose wait is known and within the maximum; a rate-limit 403 comes out exactly when the second answer then is one too |
| RateLimit.ParsesDecimal | conventions/ratelimit_transport.go:179-184 | Every count of seconds that fits 64 bits is read back from its decimal form |
| RateLimit.ParsesExactly | conventions/ratelimit_transport.go:170-184 | The integer parser reads exactly an optional sign, any zeros and a decimal form, of a value that fits 64 bits |
| RateLimit.DelayIsSlept | conventions/ratelimit_transport.go:179-184 | A Retry-After of n seconds is slept in full within the maximum, and given up on beyond it |
| RateLimit.ResetIsAwaited | conventions/ratelimit_transport.go:186-192 | Without it the transport sleeps up to the reset stamp, retries at once when that is past, and gives up when it is too far ahead |
| RateLimit.NoHeaderGivesUp | conventions/ratelimit_transport.go:96-101 | With neither header usable there is one call and an error |
| RateLimit.OthersPassThrough | conventions/ratelimit_transport.go:70-90 | Every other answer is handed on as it came, at once; only of a 403 must the body be readable |
| RateLimit.RetryAfterOverrides | conventions/ratelimit_transport.go:179-192 | A valid Retry-After decides whatever the reset header says, and means that many seconds exactly while the nanoseconds fit 64 bits |
| RateLimit.HugeRetryAfterRetriesAtOnce | conventions/ratelimit_transport.go:181-183 | From one second more on, the wait wraps to a negative one: an immediate retry |
| HttpCache.Header.constructor | conventions/httpcache.go:88-88 | A header with given fields |
| HttpCache.Header.Clone | conventions/httpcache.go:88-88 | A fresh header with the same fields |
| HttpCache.CachedResponse.constructor | conventions/httpcache.go:86-90 | An entry made from one answer |
| HttpCache.CachedResponse.ToResponse | conventions/httpcache.go:122-129 | The entry's answer with a header of its own |
| HttpCache.CachingTransport.constructor | conventions/httpcache.go:46-54 | An empty cache |
| HttpCache.CachingTransport.RoundTrip | conventions/httpcache.go:58-102 | A cached URL costs no call and no sleep; anything else is exactly one round trip of the wrapped transport, answered with its result, and a complete answer to a GET is kept; entries stay; no header handed out is kept by the cache |
| HttpCache.CachingTransport.Fetch | conventions/httpcache.go:74-102 | A miss is exactly one round trip for its URL: an error leaves the cache alone, its complete answer is stored and counted |
| HttpCache.CachingTransport.Stats | conventions/httpcache.go:105-119 | In sequential use the number of cached URLs equals the number of misses |
| HttpCache.MutationStaysPrivate | conventions/httpcache.go:122-129 | A caller that overwrites its response's header does not change what a later request gets |
| HttpCache.RateLimitIsCachedExactlyWhen | conventions/ratelimit_transport.go:131-134 | A miss makes at most two calls, sleeps at most the maximum, and leaves a rate-limit 403 in the cache if and only if the first answer is a rate limit with an acceptable wait and the second is one too |
| HttpCache.CachedRateLimitWasTwice | conventions/ratelimit_transport.go:131-134 | A rate-limit 403 in the cache is the second of two calls really made for its URL in a row, both limited |
| HttpCache.BusyTwice | conventions/ratelimit_transport.go:131-134 | A concrete case: two limited answers, a cached 403, and a later request answered with it without a call |
| HttpCache.StableOriginCachesFaithfully | conventions/httpcache.go:58-102 | With one answer per URL from the origin, a cached answer is the uncached one |
| RetryClient.RetryThroughCache | src/audit.go:444-451 | Through the sweep's caching client a retry replays the first pass's answer, whatever its status |
| RetryClient.RetryThroughTail | src/audit.go:452-459 | Through the tail's own client every answer is the origin's, on a new call, and the sweep's cache takes no part |
| CachingSteps.StepKeepsInvariant | conventions/httpcache.go:58-102 | Every separate step of any caller keeps all answers the origin's own and the counters in line; no entry is removed |
| CachingSteps.EveryAnswerIsTheOrigins | conventions/httpcache.go:58-102 | Over every interleaving each answer handed out is one the origin gave for that URL, and hits plus misses count them |
| CachingSteps.StatsExceedsExactlyWhen | conventions/httpcache.go:88-119 | Stats() exceeds Misses() if and only if more callers stand between store and count than stores were overwrites; with no call in flight it falls short of it by the overwrites |
| CachingSteps.StatsCanRunAhead | conventions/httpcache.go:92-96 | Between a store and its count Stats() exceeds Misses() |
| CachingSteps.StableOriginIsTransparent | conventions/httpcache.go:58-102 | With a stable origin every interleaving gives what no cache would give |
| Sorting.SortSlice | src/c4.go:327-333 | A sorted permutation; the order of equal elements is left open, as the library leaves it |
| Sorting.StrLeExactly | src/c4.go:418-423 | Strings compare by their first difference, a proper prefix first |
| Sorting.SortingIsUnique | src/c4.go:327-333 | There is only one sorted permutation when the comparison tells the elements apart |
| Sorting.SortingIsNotUnique | src/c4.go:424-424 | Otherwise a sort may return either of two different sequences |
| C4Producers.DslIdentCollides | src/c4.go:96-98 | Two names share an identifier exactly when they differ only in which of the three separators they use |
| C4Producers.ParseLoganneProducers | src/c4.go:311-335 | Every edge of a known source as often as observed, one divergence per unknown source, both sorted, for any map order |
| C4Producers.ProducersIgnoreMapOrder | src/c4.go:311-335 | The two reports alone determine the result: no map order and no tie-breaking reaches it |
| C4Producers.BuildProducerElements | src/c4.go:345-361 | One element of the recorded kind for each producing source that is not a system, sorted, none twice |
| C4Producers.BuiltExactly | src/c4.go:345-361 | Which elements there are and of what kind; one whose kind is not recorded is a "producer" |
| C4Producers.ElementsAreDetermined | src/c4.go:345-361 | The elements depend only on which sources the edges have |
| C4Webhooks.HostOfUrl | src/c4.go:395-400 | A scheme, two slashes, a host and any path: the host comes back, port included |
| C4Webhooks.TargetIdTells | src/c4.go:403-403 | Two unknown targets share an ID exactly when their events and their hosts share identifiers |
| C4Webhooks.ParseLoganneWebhooks | src/c4.go:369-426 | One divergence for an unparseable file; otherwise a sorted permutation of the edges and deduplicated divergences of some visiting order |
| C4Webhooks.CollectWebhooks | src/c4.go:383-416 | The nested loops with their seen-set, for any visiting order |
| C4WebhooksOrder.EveryUrlOneEdge | src/c4.go:393-423 | Each listed URL of a known host gives one edge of its event, and the sorted edges are the same in every order |
| C4WebhooksOrder.OneDivergencePerId | src/c4.go:401-412 | One divergence for every ID an unknown target has, and each is that of some unknown target |
| C4WebhooksOrder.OneDivergencePerTarget | src/c4.go:401-412 | One for every unknown target when no two share an ID |
| C4WebhooksOrder.DeterminedUnlessClash | src/c4.go:369-426 | The divergences are independent of map order exactly when no two different events' own divergences share an ID or a message |
| C4WebhooksOrder.HyphenAndDotClash | src/c4.go:401-412 | A concrete clash: two events that differ in a separator only |
| C4Model.DepsIgnoreCheckOrder | src/c4.go:259-273 | Two iterations of a system's checks give the same dependencies up to order |
| C4Model.SyncIgnoresCheckOrder | src/c4.go:259-273 | The sync edges of all systems are the same up to order, whatever order each answer's checks are iterated in |
| C4Model.ProbeSystems | src/c4.go:645-681 | Sync edges, name divergences and unreachable systems, system by system |
| C4Model.BuildDomains | src/c4.go:560-568 | The domain lookup built from the sorted systems |
| C4Model.ProbeProducers | src/c4.go:620-640 | Producers are parsed only when loganne has a domain and its probe answers |
| C4Model.AssembleModel | src/c4.go:541-712 | The whole model from its sources, for any iteration orders |
| C4Model.AssembledIsGrounded | src/c4.go:649-681 | Consumers and edge sources are systems or declared elements; no sync edge leaves loganne |
| C4Model.DivergencesLandOnCandidates | src/c4.go:822-836 | Every generated divergence names a candidate repo and a "c4-" ID |
| C4Estate.LookupExactly | src/c4.go:560-568 | A domain resolves to the last of the sorted systems that has it |
| C4Estate.HostExactly | src/c4.go:395-400 | The host of a URL is what stands between its second slash and the third or its end |
| C4Estate.ConsumersExactly | src/c4.go:376-416 | In the estate's fields: a consumer edge is there exactly when the configuration lists, for its event, a URL whose host is the consumer's domain |
| C4Estate.ProducersExactly | src/c4.go:592-640 | A producer edge is there as often as observed exactly when configy has its source as a system, a component or a script |
| C4Estate.ElementsExactly | src/c4.go:599-643 | An element is declared for exactly the drawn sources that are no system, as a script if configy has it as one and as a component if not |
| C4Estate.SyncExactly | src/c4.go:649-681 | A dependency edge is there exactly when a system with a domain, other than loganne, names the dependency in some check of its answer |
| C4Estate.UnreachableExactly | src/c4.go:649-660 | Reported as unreachable are exactly the systems with a domain that gave no usable answer |
| C4Estate.DivergencesAre | src/c4.go:369-412 | Every divergence is a misnamed system's, an unmatched webhook target's, an unparseable configuration's or a stray producer's, with its repo, ID and message |
| C4Estate.DivergencesCover | src/c4.go:661-692 | And each of these has one; for webhook targets, one of its ID |
| C4Estate.OrderExactly | src/c4.go:418-424 | By which fields each part of the model is sorted |
| C4Determinism.BacktickFreeNamesApart | src/c4.go:663-671 | System IDs without backticks keep the messages of name divergences apart |
| C4Determinism.MessagesTell | src/c4.go:690-692 | Under a condition on the sources the divergences' messages tell them apart |
| C4Determinism.AssemblyIsDeterministic | src/c4.go:557-712 | From the same unambiguous sources any two assemblies are equal, whatever order the webhook entries, the producers and every answer's checks are iterated in |
| C4Ambiguity.DeterministicExactlyWhen | src/c4.go:557-712 | The model is independent of every map order and tie if and only if IDs name one system, no two webhook events clash, and name divergences differ in their messages |
| C4Tracked.EveryDivergenceIsTracked | src/c4.go:690-701 | From sources to tracker: after an error-free run each colon-free divergence is open on its repo, and every open "c4-" issue of a candidate repo is a current divergence |
| C4Tracked.CandidatesExactly | src/c4.go:822-836 | The candidate repos are exactly those of the systems, and loganne's |
| C4Tracked.TargetIdSurvivesTitle | src/c4.go:396-403 | A webhook divergence's ID survives its title exactly when neither event nor host has a colon |
| C4Render.GenerateDsl | src/c4.go:102-148 | The declarations and then the relationships, in source order, and the whole text made of them |
| C4Render.DeclaredCounts | src/c4.go:106-119 | An identifier is declared as often as named things share it |
| C4Render.RelationEnds | src/c4.go:121-141 | The endpoints of drawn relationships are the identifiers of the drawn names |
| C4Render.ClosedExactlyWhen | src/c4.go:102-148 | Every drawn endpoint is declared exactly once if and only if loganne's identifier is declared when event edges are drawn and no drawn identifier is shared |
| C4Render.DslIsClosed | src/c4.go:102-148 | So the DSL of any assembled model is closed when loganne is a system and identifiers do not collide |
| C4ReadBack.StatementReadsBack | src/c4.go:106-141 | A reader defined apart from the printer gets every declaration and relationship back from its line |
| C4ReadBack.DslReadsBack | src/c4.go:102-148 | Reading the whole text of model.dsl gives the declarations and the relationships in their order, for printable names |
| C4ReadBack.ArrowsExactly | src/c4.go:121-141 | An arrow of model.dsl is a dependency, from the dependent to what it depends on, an event from its source to loganne, or one from loganne to its consumer; and each of these has its arrow |
| C4ReadBack.DeclaredExactly | src/c4.go:103-119 | model.dsl declares the person, every system with its domain and every other producer with its kind |
| C4Mermaid.GenerateMermaid | src/c4.go:154-206 | The sorted connected names as nodes, then the links, and the whole text made of them |
| C4Mermaid.CollectConnected | src/c4.go:156-176 | The connected set is the set of drawn names |
| C4Mermaid.ChartAgreesWithDsl | src/c4.go:188-204 | Kind by kind the chart draws the DSL's relationships in the same order: every event edge once, and the same sync edges |
| C4Mermaid.NodesAreEndpoints | src/c4.go:154-206 | A node is drawn for exactly the endpoints of the drawn links |
| C4ReadChart.ChartReadsBack | src/c4.go:154-206 | Reading the whole text of landscape.md gives the nodes and the links in their order |
| C4ReadChart.ChartArrowsExactly | src/c4.go:188-204 | Its solid arrows are the dependencies, its dotted ones the events to loganne and from it, in that direction |
| C4ReadChart.ChartNodesExactly | src/c4.go:156-187 | Its nodes are the names at the ends of its arrows |
| C4Mermaid.ChartIsDetermined | src/c4.go:178-182 | The iteration order of the connected set does not show |
| C4Report.GenerateDivergences | src/c4.go:212-235 | The report's text |
| C4Report.GenerateArtifacts | src/c4.go:714-716 | The three artifacts at their three paths |
| C4Report.ThreePaths | src/c4.go:744-751 | No two artifacts share a path |
| C4Report.ArtifactsAreDetermined | src/c4.go:557-751 | Unambiguous sources give the same three texts |
| WriteBack.ContentsApi.constructor | src/c4.go:433-440 | An output repo with given files |
| WriteBack.ContentsApi.Fetch | src/c4.go:437-484 | The file, its absence, or an error |
| WriteBack.ContentsApi.Put | src/c4.go:489-526 | Taken only with the SHA of the file as it is; refused, applied, or applied with its reply lost |
| WriteBack.ContentsApi.Commit | src/c4.go:753-780 | The repo and the failed paths after all artifacts |
| WriteBack.ContentsApi.CommitFile | src/c4.go:754-778 | One artifact: read, compare, and write only when it differs |
| WriteBack.OnlyTheReadVersionIsReplaced | src/c4.go:767-772 | With other writers in between, a write that changes the repo replaces the very version that was read |
| WriteBack.SuccessHoldsText | src/c4.go:754-778 | With other writers in between, success means the file holds the text, and every other file is as they left it |
| WriteBack.CommitOneFacts | src/c4.go:754-778 | Without other writers, success means the file holds the text; failure leaves it as it was or, with a lost reply, updated; an equal file is not written |
| WriteBack.CommitOneExactly | src/c4.go:754-778 | Without other writers, call by call: when an artifact succeeds, when its PUT is made, and when it takes effect |
| WriteBack.NilMeansCommitted | src/c4.go:753-780 | No error only if every artifact holds its generated text; other files are unchanged |
| C4Published.ReportReadsBack | src/c4.go:212-235 | divergences.md line by line: the messages in their order or "None.", and the unreachable systems |
| C4Published.UnreachableReadsBack | src/c4.go:228-234 | The list of unreachable systems gives their IDs back in their order |
| C4Published.DependenciesPublished | src/c4.go:541-780 | From the estate to the committed files: a solid arrow goes exactly from every system to every system it depends on, and model.dsl draws the same unless an event has the dependency label as its name |
| C4Published.ProducersPublished | src/c4.go:541-780 | A dotted arrow goes to loganne exactly from each observed source that configy knows, for each of its events |
| C4Published.ConsumersPublished | src/c4.go:541-780 | A dotted arrow goes from loganne exactly to each system that a URL listed for the event resolves to |
| WriteBack.NothingToCommit | src/c4.go:762-765 | When everything is in place nothing is written, and there is no error exactly when every read succeeds |
| WriteBack.LostReplyHeals | src/c4.go:770-776 | A write whose reply was lost is not repeated by the next run |
| WriteBack.RerunMakesNoPut | src/c4.go:744-780 | A second run over the same unambiguous sources makes no PUT after a run that returned nil, however each run iterates its maps |
| C4Stage.GenerateAndCommit | src/c4.go:541-780 | From the sources to the tracker and the output repo: divergences are routed as soon as there is a model, the artifacts are committed when there is a writer, and the error says which stage failed or which files |
| AuditDiff.ComputeAuditDiff | src/cmd_audit_diff.go:61-145 | The sorted new and resolved entries and the two counts, for any iteration orders of both reports |
| AuditDiff.CompareOne | src/cmd_audit_diff.go:67-110 | One candidate entry is put in exactly one class |
| AuditDiff.DiffExactly | src/cmd_audit_diff.go:64-125 | Which entries are new failures and which are resolved, in the fields of both reports |
| AuditDiff.CountsExactly | src/cmd_audit_diff.go:67-110 | Which entries count as unchanged and which as skipped |
| AuditDiff.DiffOrder | src/cmd_audit_diff.go:127-142 | Both lists are sorted by convention and then repo, and name no check twice |
| AuditDiff.DiffIsCanonical | src/cmd_audit_diff.go:127-144 | Every iteration order gives the identical difference |
| AuditDiff.EveryEntryCountedOnce | src/cmd_audit_diff.go:64-112 | New failures, resolved entries still checked, unchanged and skipped add up to the candidate's entries |
| AuditDiff.ReplayGivesCandidate | src/cmd_audit_diff.go:61-145 | Replaying the difference on the baseline, absent counting as passing, gives the candidate's verdict on every non-skipped entry |
| AuditDiff.AbsentRepoIsNotMentioned | src/cmd_audit_diff.go:116-121 | A repo missing from the candidate is not mentioned |
| SweepDiff.DifferenceOfSameAnswers | src/cmd_audit_diff.go:61-145 | Between the table after a successful sweep and a dry run on the same answers, the new failures are the failing checks' own keys that none reports, and the resolved ones the reverse |
| SweepDiff.EmptyExactlyWhen | src/cmd_audit_diff.go:61-145 | That difference is empty if and only if the failing checks report, all told, their own keys |
| Misreport.FailureShowsTwice | conventions/env-var-passthrough.go:253-282 | While the shipped check that reports another ID fails, an unchanged registry shows it as a new failure and as resolved |
| Text.TrimPadded | conventions/dockerfile-copy-from-blind.go:69-69 | Trimming takes off exactly the padding |
| Text.CaseExactly | conventions/dockerfile-copy-from-blind.go:70-70 | Case mapping pairs the 26 letters and leaves every other character |
| Text.SpacesExactly | conventions/dockerfile-copy-from-blind.go:69-69 | The white space characters that trimming takes off |
| Text.Index | src/github_auth.go:85-86 | The first occurrence, or -1 exactly when there is none |
| Text.LastIndex | conventions/dockerfile-copy-from-blind.go:79-79 | The last occurrence, or -1 exactly when there is none |
| Text.LinesOfUnlines | conventions/dockerfile-copy-from-blind.go:68-68 | Splitting newline-terminated lines gives them back, and an empty last one |
| Text.LinesExactly | conventions/dockerfile-copy-from-blind.go:68-68 | No line holds a newline, and the lines with newlines between them are the text |
| Dockerfile.NamedStages | conventions/dockerfile-copy-from-blind.go:65-88 | The stage set of the line-by-line scan |
| Dockerfile.BlindCopyFromImages | conventions/dockerfile-copy-from-blind.go:96-143 | The findings of the line-by-line scan |
| Dockerfile.HasArgInFrom | conventions/dockerfile-copy-from-blind.go:148-165 | True exactly when some FROM line's image holds a '$' |
| Dockerfile.CollectIsDistinct | conventions/dockerfile-copy-from-blind.go:96-143 | The findings are the reportable references, each spelling once, first spelling first |
| Dockerfile.MoreKnownFewerFindings | conventions/dockerfile-copy-from-blind.go:124-133 | Enlarging stages or contexts removes exactly the findings it names, on any text |
| DockerfileExact.KeywordsExactly | conventions/dockerfile-copy-from-blind.go:70-104 | A line is a FROM or a COPY exactly if it starts with that word, in any case, and a space |
| DockerfileExact.StageNameExactly | conventions/dockerfile-copy-from-blind.go:77-86 | A stage is named by what follows the last " AS ", trimmed |
| DockerfileExact.CopySourceExactly | conventions/dockerfile-copy-from-blind.go:105-118 | A COPY names the word after the first "--from=", up to a space, a tab or the line's end |
| DockerfileExact.ImageExactly | conventions/dockerfile-copy-from-blind.go:155-160 | A FROM's image is the rest of its line up to the first " AS ", trimmed |
| DockerfileExact.NamedStagesExactly | conventions/dockerfile-copy-from-blind.go:65-88 | On any text: the stages are the decimal indices of its FROMs and the lowercased names they give |
| DockerfileExact.FindingsExactly | conventions/dockerfile-copy-from-blind.go:96-143 | On any text: a reference is reported exactly if it has a slash, a colon or an at sign, is no stage or context, and is the first spelling that some COPY names |
| DockerfileRoundTrip.FromScanned | conventions/dockerfile-copy-from-blind.go:70-86 | A printed FROM gives its image and its alias back |
| DockerfileRoundTrip.CopyScanned | conventions/dockerfile-copy-from-blind.go:101-121 | A printed COPY gives its reference back, whatever flags precede it |
| DockerfileRoundTrip.PlainCopyIsOther | conventions/dockerfile-copy-from-blind.go:105-108 | A COPY without a source flag may stand in a printed list |
| DockerfileRoundTrip.PrintedStages | conventions/dockerfile-copy-from-blind.go:65-88 | Scanning a printed list gives exactly the lowercased names and the indices of its FROMs |
| DockerfileRoundTrip.PrintedRefs | conventions/dockerfile-copy-from-blind.go:96-143 | Scanning a printed list gives exactly its external unknown references, deduplicated, in first-occurrence order |
| DockerfileRoundTrip.PrintedArgs | conventions/dockerfile-copy-from-blind.go:148-165 | A printed list is reported exactly when some image holds a '$' |
| PemRepair.FooterFreeExactlyWhen | src/github_auth.go:85-91 | The footer found is the key's own exactly when the body spells none |
| PemRepair.UnflattenedRoundTrip | src/github_auth.go:91-95 | An unflattened key comes back unchanged exactly when its body has no space and no white space at its ends |
| PemRepair.FlattenedRoundTrip | src/github_auth.go:78-95 | A flattened key is rebuilt exactly when, besides, flattening its body spells no footer |
| PemRepair.RebuildIsStable | src/github_auth.go:91-95 | Rebuilding a rebuilt key gives it back |
| PemRepair.MissingExactlyWhen | src/github_auth.go:87-89 | Rejected exactly when header or footer is missing |
| PemRepair.PanicsExactlyWhen | src/github_auth.go:91-91 | The slice is out of range if and only if both markers occur and the first footer starts before the first header ends; otherwise the text is rejected or rebuilt |
| PemRepair.FooterFirstPanics | src/github_auth.go:91-91 | A family: texts that start with the footer followed by the header |
| PemRepair.SharedDashesPanic | src/github_auth.go:91-91 | A family: the header comes first and the footer shares its closing dashes |

## Left out

- HTTP, JSON, YAML and base64 decoding, SQL text and date formats, logging and environment variables: their results are values, oracles or failing steps.
- The checks themselves, apart from the Dockerfile scanners: single predicates over fetched content, modelled as an oracle on (repo, convention, attempt).
- Issue bodies, comments and back-references to closed issues: they do not affect which issues are open. Issue URLs are taken to be non-empty.
- The two attempts of a rate-limited list call are one call with one fate.
- Humans reopening or relabelling issues during a run, and stale reads: a list call sees all earlier writes.
- Language classification of repos: fetched in the sweep, stored beside the repo, read by no modelled decision.
- SweepIssues.OpenIssuesExactly: the tracker steps are read off the sequence of checks that the sweep method returns; the sweep method itself is given the tracker's answers, which SweepIssues.Answered ties to those steps.
- SweepIssues.NilRaisesEveryFailure: says nothing of a repo whose upsert failed, because the code runs none of its checks.
- Sweep.AuditSweeper.Sweep: the one token fetched before the loops, the repo list and the configy data are a single setup flag, and whether the C4 stage succeeds is an input of it (C4Stage.GenerateAndCommit models that stage).
- Throttle.ThrottleTransport.Reserve: asks that the clock does not run backwards between lock sections and that the zero time lies at least one interval back.
- RateLimit.RateLimitTransport.RoundTrip: time arithmetic on reset stamps saturates as `Sub` does, but overflow inside `time.Unix` for stamps beyond its range is not modelled.
- CachingSteps.EveryAnswerIsTheOrigins: bodies and headers of an answer are one string there; their aliasing is treated in HttpCache.
- C4Model.AssembleModel: the probes' answers are given per system; networking and time-outs are part of "Unreachable", and a dependsOn value is the list of its strings.
- C4Ambiguity.DeterministicExactlyWhen: a sort may break ties in any way, as the library documents; that one library version breaks them alike for the same input order is not used.
- C4ReadBack.DslReadsBack: asks for IDs without spaces, quotes, newlines, '#', '%' and '[', and for texts without quotes and newlines, because the code escapes none of them.
- Rerun.RerunRepos: the detail texts of its response, and the filters and errors of the handler before the repos are chosen.
- StatusReport.TableMatchesDryRun: asks that in-scope checks report different keys, as the shipped ones do; two checks of one repo that report one key leave one row.
- Dockerfile.NamedStages: case mapping is that of ASCII letters; other letters are left as they are.
- PemRepair.FlattenedRoundTrip: the PEM decoder and the key parser after the reconstruction are not modelled.
- RSA, JWT, OIDC and JWKS code; dashboards, templates and catalogue rendering; HTTP handlers other than the rerun's save rule and the limiter.
- Sorting of PR counts and the dashboard's buckets: presentation.
