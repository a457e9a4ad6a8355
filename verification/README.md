# Verified model of the AI SaaS Guard core

This Dafny project models the parts of the repository that carry real algorithms, and proves what they
are for. `dafny verify dfyconfig.toml` checks all of it.

| file | what it models |
|---|---|
| `ScanQueue.dfy`, `ScanQueueSafety.dfy` | the hosted scan queue as a protocol: webhooks, manual reruns and any number of worker runs, each split where it awaits; invariants of every interleaving |
| `ScanQueueIntake.dfy` | which webhooks and claims get in, how a worker run ends, and what everything in the queue can be traced back to |
| `ScanQueueHistory.dfy` | the records and their order, read off the webhooks of a run alone |
| `ScanQueueRuns.dfy`, `ScanQueueIds.dfy`, `ScanQueueAttempts.dfy`, `ScanQueueReruns.dfy` | draining the queue; exactly when a report id repeats; which attempt a report is filed under; exactly when a manual rerun is kept |
| `ScanService.dfy` | the same as the mutable runtime (records updated in place in a shared map), each handler proved to take the protocol's step |
| `ScanIdentity.dfy` | idempotency keys, report ids and key-value names, and exactly when they coincide |
| `CleanupPlan.dfy`, `CleanupScope.dfy` | the deletion and retention planners, carrying a plan out, and what a request reaches |
| `CheckoutRunner.dfy`, `CheckoutSource.dfy` | the read-only checkout scan under every failure pattern, the guard of its plan, and what the scan reads and reports |
| `FileCollection.dfy`, `FileCoverage.dfy`, `FilePaths.dfy` | the bounded directory walk, and what it collects and reports, said on locations and paths |
| `LaunchGate.dfy`, `LaunchVerdict.dfy` | the guard configuration and the launch verdict |
| `RegexSyntax.dfy`, `Glob.dfy`, `SuppressionPaths.dfy`, `IgnoreRules.dfy`, `GlobMeaning.dfy` | the two glob compilers, against a parser and a semantics of the regular expressions they emit, and against what a pattern says |
| `SqlPredicates.dfy`, `BracketScan.dfy` | quote-aware parenthesis and bracket matching, paren stripping |
| `TerminalText.dfy` | the terminal-escape stripper and the one-line sanitizer |
| `KeywordWindow.dfy`, `DiffFiles.dfy` | keyword-window searches, word tokenising, splitting a diff into files |
| `Der.dfy` | DER lengths and triples, PKCS#1 to PKCS#8 |
| `RateLimit.dfy`, `KvCleanup.dfy` | the fixed-window rate limiter over expiring entries, paginated deletion over a key-value store |
| `Text.dfy` | strings: order, trimming, decimal numbers, separators |

How things are represented:

- A `char` is a Unicode scalar value. In the program a string is made of UTF-16 code units, so the two agree
  on text of the basic multilingual plane without lone surrogates. Lower-casing is the ASCII one. Regular expressions have the
  ECMAScript meaning without flags: `.` does not match a line terminator, and the direct glob matcher
  says so too (`OneLine`), so the glob theorems hold for every path.
- Code that updates state in place is a class or a method with loops, proved equal to a function of its
  input or its old state; the laws are lemmas about those functions. For each operation some law says in
  plain terms of its input what it does, without the tests the operation itself uses.
- What leaves the process (file system, network, clock, child processes, stores) is an answer passed in:
  an unreadable file is a `None`, a failing stage is missing from a `World`, an await is a protocol step.
- In the queue protocol a store or a publisher that reports success has taken what it was given when it
  was called; one that fails may or may not have. A selected or removed repository list is read as a value at
  the time of the claim.
- The key-value store lists names in character order, a page at a time. A page may be empty and still carry
  a cursor, which then stands further ahead (names that are gone keep their place for a while); there are
  finitely many places. `KvStore.List` is that promise of the platform.
- Ids of installations, repositories and pull requests are non-negative integers. Dates are what
  `Date.parse` makes of them: a number of milliseconds, or invalid.

Where the code does not do what one would expect, the model follows the code, an input or a run shows it,
and the exact condition is proved:

- A report id can be stored twice. It takes a claim of a key whose next id is already stored or about to be
  (`ReportIdsNeverRepeat`), and from every reachable state such a claim can be continued to a repeated id
  (`SpentClaimRepeats`, and both ways `ClaimRepeatsExactlyWhen`). A rerun during a scan does it
  (`ReportIdsCanRepeat`), also when no two runs scan at the same time (`ReportIdsCanRepeatOneByOne`).
- A completed record can name the report of an earlier attempt. It names that of its current one exactly
  when no rerun was accepted between the return of the scan and the answer of the publisher
  (`CompletesCurrentAttemptExactlyWhen`, `CompletedCanNameOlderReport`).
- A manual rerun is kept exactly when no worker run is on its key as it arrives (`RerunIsKeptExactlyWhen`).
- Two commits can share a key under two scanner versions exactly when one version ends with a colon and the
  other (`VersionsCollideExactlyWhen`).
- Wrapping in parentheses hides a broad predicate exactly when its text is padded or not balanced
  (`WrappedIsBroadExactlyWhen`); a parenthesis in double quotes is enough (`DoubleQuotesHideBroad`).
- The plain window search is complete exactly for needles without a border
  (`WindowSearchCompleteExactlyWhen`).
- Looking back one character for a backslash is enough exactly when no quote and no bracket stands right
  behind an even, non-empty run of backslashes (`LookbackIsEnoughEverywhereExactlyWhen`, `DoubleBackslashHidesClose`).
- An added line of text that begins with `++`, or a removed one that begins with `--`, is not counted; these
  are the only ones (`CountsMissExactly`, `LineIsCountedExactlyWhen`).
- 32-bit shifts lose the lengths from 2^31 on (`LengthReadsBackExactlyWhen`).
- A cleanup asked for again can find reports: exactly those in its scope that were stored after the first one,
  as a running job is only asked to stop (`RepeatedCleanupFindsOnlyLate`, `LateReportIsFound`).
- A cleanup touches nothing in any state exactly when it is for a repository and names none, or is an expiry
  at a time that does not parse (`TouchesNothingExactlyWhen`).
- The scan gets the record's base commit exactly when it is not spelt like the checkout placeholder, or is the
  directory (`BaseIsPassedExactlyWhen`, `PlaceholderIsReplaced`).

## Model

| member | source | states |
|---|---|---|
| ScanQueueSafety.TalliesInEveryRun | src/hosted/service.ts:261-391 | in every interleaving and for every key: published check runs <= stored reports <= claims <= attempts |
| ScanQueueSafety.CompletedIsBacked | src/hosted/service.ts:318-360 | a completed record names a report that is in the store under its key, and a check run was published for it |
| ScanQueueSafety.ClaimedAtMostOnce | src/hosted/contracts.ts:1086-1164 | without manual reruns no key is ever claimed twice |
| ScanQueueSafety.DeliveryOnOneRecord | src/hosted/contracts.ts:817-848 | replay rejection and upsert note each delivery id on at most one record |
| ScanQueueSafety.PublicationIsNeverRefused | src/hosted/service.ts:326-351 | the check-run plan asks under the scope of the claim, so it is always authorized |
| ScanQueueSafety.StepKeepsInv | src/hosted/service.ts:177-391 | every step of a handler or a worker run keeps the invariant of records, jobs, stores and deliveries |
| ScanQueueIntake.AcceptedExactlyWhen | src/hosted/contracts.ts:817-848 | a webhook is accepted if and only if it is genuine, its delivery id is new, and it asks for a scan of a repository that is open; the key answered is that scan's |
| ScanQueueIntake.RefusedForItsReason | src/hosted/service.ts:178-259 | a refused webhook gets its true reason and leaves nothing behind but the id of a fresh delivery; one that is not genuine changes nothing |
| ScanQueueIntake.DecisionIsTrue | src/hosted/contracts.ts:1086-1164 | a worker is to be enqueued if and only if a new attempt was opened, and an old report is to be used only if it is stored and published |
| ScanQueueIntake.ClaimStartsExactlyWhen | src/hosted/service.ts:261-302 | a claim starts a scan if and only if the scope it reads opens the repository; otherwise record and job have failed |
| ScanQueueIntake.TickCompletesExactlyWhen | src/hosted/service.ts:261-391 | a worker run completes its record if and only if the repository is open and runner, store and publisher succeed; it stores and publishes exactly as far as it got |
| ScanQueueIntake.RecordsAreTraced | src/hosted/service.ts:178-259 | in every run each delivery id on a record is that of an earlier genuine webhook that asked for a scan under the record's key, and the record's identity is that of one of them |
| ScanQueueHistory.RecordsTellTheirHistory | src/hosted/service.ts:178-391 | in every run a key has a record if and only if a fresh, genuine webhook asked for it; the record lists the delivery ids of all of those, in order and once each, its attempt is one more than the reruns among the later ones, and it dates from the first |
| ScanQueueHistory.QueueKeepsItsOrder | src/hosted/service.ts:178-391 | in every run the queue's keys stand in the order in which they were first asked for |
| ScanQueueIntake.ScansAreAuthorized | src/hosted/service.ts:261-351 | in every run a job scans, stores or publishes only if the scope its claim read opens the repository, and every stored report is that of such a job |
| ScanQueueIntake.StepsStamp | src/hosted/service.ts:178-391 | a step that changes a record stamps it with its time; identity and creation time stay |
| ScanQueueIds.ReportIdsNeverRepeat | src/hosted/service.ts:261-324 | as long as no claim takes a spent key, one whose next report id is stored or about to be, no report id is stored twice |
| ScanQueueIds.CalmRunsAreFrugal | src/hosted/service.ts:261-391 | worker runs that do not overlap on a key never take a spent one, so their ids never repeat |
| ScanQueueIds.SpentClaimRepeats | src/hosted/service.ts:261-324 | from every state, a claim of a spent key can be continued, by scans returning, to a state with an id stored twice |
| ScanQueueIds.ClaimRepeatsExactlyWhen | src/hosted/service.ts:261-324 | in every state a frugal run reaches, a claim can lead the runs under way to store an id twice if and only if it takes a spent key |
| ScanQueueIds.OverlapRepeatsReportId | src/hosted/service.ts:318-324 | two scans of one key that return one right after the other are stored under the same id |
| ScanQueueAttempts.ScansShareIdExactlyWhen | src/hosted/service.ts:304-324 | whatever happens between the returns of two scans of one key, their reports share an id if and only if no rerun of the key was accepted in between |
| ScanQueueAttempts.AttemptsCount | src/hosted/contracts.ts:1086-1164 | over any steps the attempt of a record never falls, and stays the same if and only if no rerun of it was accepted |
| ScanQueueAttempts.CompletesCurrentAttemptExactlyWhen | src/hosted/service.ts:318-360 | whatever happens between the return of a scan and the answer of the publisher, the record completed names the report of its current attempt if and only if no rerun was accepted in between |
| ScanQueueAttempts.CompletedCanNameOlderReport | src/hosted/service.ts:318-360 | a run from the empty state that ends with a completed record naming an earlier attempt's report |
| ScanQueueIds.ReportIdsCanRepeat | src/hosted/service.ts:261-324 | a run from the empty state in which a rerun during a scan makes a report id repeat |
| ScanQueueIds.ReportIdsCanRepeatOneByOne | src/hosted/service.ts:261-324 | a run in which an id repeats although the first scan has returned before the second is claimed |
| ScanQueueReruns.RerunIsKeptExactlyWhen | src/hosted/service.ts:261-391 | over every interleaving of webhooks, claims and worker runs, a manual rerun is sure to be still queued or claimed by a later job if and only if no run was on its key when it arrived |
| ScanQueueReruns.RerunSurvivesExactlyWhen | src/hosted/service.ts:261-391 | while nobody claims the key or reruns it again, whatever else happens: once the runs on it have ended, the rerun is still queued if and only if there were none when it arrived |
| ScanQueueRuns.QueueDrains | src/hosted/service.ts:457-467 | without new webhooks, n successive runs end min(n, queued) records, each by one run |
| ScanQueueRuns.DrainTouchesQueuedOnly | src/hosted/service.ts:261-391 | draining ends each queued record completed or failed and leaves every other record as it was |
| ScanQueueRuns.TickEndsOne | src/hosted/service.ts:261-391 | one whole run ends exactly the first queued record |
| ScanQueue.FirstQueuedIsFirst | src/hosted/service.ts:457-467 | a key is found if and only if its record is queued and no earlier record in the queue is |
| ScanService.HostedService.HandlePullRequestWebhook | src/hosted/service.ts:178-259 | the handler on mutable records takes exactly the protocol's webhook step, rejections included |
| ScanService.HostedService.PlanQueueUpsert | src/hosted/contracts.ts:1086-1164 | inserting or updating a record in place is the protocol's upsert |
| ScanService.HostedService.NextQueuedRecord | src/hosted/service.ts:457-467 | the loop finds the first queued record in insertion order |
| ScanService.HostedService.ClaimNext | src/hosted/service.ts:261-302 | a run up to its first await is the protocol's claim |
| ScanService.HostedService.AfterScan | src/hosted/service.ts:304-324 | from the scan's return to the store's await |
| ScanService.HostedService.AfterSave | src/hosted/service.ts:326-351 | from the store's return to the publisher's await |
| ScanService.HostedService.AfterPublish | src/hosted/service.ts:351-391 | from the publisher's return to the end |
| ScanIdentity.KeysCoincide | src/hosted/contracts.ts:1034-1042 | exactly when two identities share a key, for arbitrary commits and versions |
| ScanIdentity.KeyIdentifiesScan | src/hosted/contracts.ts:1034-1042 | under one scanner version: installation, repository, pull request and commit agree |
| ScanIdentity.VersionsCollideExactlyWhen | src/hosted/contracts.ts:1034-1042 | two different commits can share a key under two versions if and only if one version ends with a colon and the other |
| ScanIdentity.KeysCollideAcrossVersions | src/hosted/contracts.ts:1034-1042 | two different commits that share a key |
| ScanIdentity.ReportIdInjective | src/hosted/service.ts:318 | a report id determines key and attempt |
| ScanIdentity.InstallationPrefixExact | hosted/cloudflare-worker/src/index.js:986-1003 | the prefix `scan:I:` starts installation I's scan names and no others |
| ScanIdentity.RepositoryPrefixExact | hosted/cloudflare-worker/src/index.js:986-1003 | the repository prefix starts that repository's scan names and no others |
| CleanupPlan.ResolveHostedRetentionDays | src/hosted/contracts.ts:1327-1334 | the whole days asked for, but at least one and at most thirty |
| CleanupPlan.PlanCompactReportCleanup | src/hosted/contracts.ts:1938-1960 | the loop lists the reports to delete and to preserve, in order |
| CleanupPlan.PlanWorkerCheckoutCleanup | src/hosted/contracts.ts:2016-2034 | the loop lists the checkouts to delete and to keep, in order |
| CleanupPlan.PlanHostedRetentionAndDeletionCleanup | src/hosted/contracts.ts:1585-1661 | the aggregate plan |
| CleanupPlan.JobListsPartition | src/hosted/contracts.ts:1176-1215 | for every trigger each job stands in exactly one of the four lists |
| CleanupPlan.ReportAndCheckoutListsPartition | src/hosted/contracts.ts:1938-2055 | each report and each checkout stands in exactly one of its two lists |
| CleanupPlan.RepeatedCleanupFindsOnlyLate | src/hosted/contracts.ts:1585-1661 | after a deletion, with running jobs only asked to stop, any later request for the same repository or a part of the same installation deletes exactly the reports in its scope stored since, drops no checkout, cancels nothing and repeats at most those requests to stop |
| CleanupPlan.RepeatedCleanupFindsNothing | src/hosted/contracts.ts:1585-1661 | if no report was stored since, it deletes and cancels nothing, and once those jobs have stopped it finds nothing at all |
| CleanupPlan.LateReportIsFound | src/hosted/service.ts:304-324 | a running job asked to stop ends completed, and its report, stored after the deletion, is left for a second one |
| CleanupPlan.ApplyCarriesOut | src/hosted/contracts.ts:1585-1661 | the state in which everything listed is gone and stopped is one in which the plan was carried out |
| CleanupPlan.RepeatedExpiryFindsNothing | src/hosted/contracts.ts:1585-1661 | the same for an expiry at the same time |
| CleanupPlan.UntouchedExactlyWhen | src/hosted/contracts.ts:1912-2055 | everything a request does not mean to touch stays if and only if it shares no id with something the request acts on |
| CleanupPlan.DeletionKeepsOtherRepositories | src/hosted/contracts.ts:1938-1972 | with ids made from identities a deletion never takes another repository's report |
| CleanupPlan.DeletionKeepsOtherJobs | src/hosted/contracts.ts:1912-1922 | with keys made from identities it never cancels another repository's job |
| CleanupPlan.TouchesNothingExactlyWhen | src/hosted/contracts.ts:1912-1997 | a request touches nothing in any state if and only if it is a repository removal or a repeated cleanup that names no repository, or an expiry at a time that does not parse |
| CleanupPlan.InstallationAbsorbsRepository | src/hosted/contracts.ts:1585-1661 | once every running job has followed the request to stop, cleaning up repositories before their installation ends in the same state as cleaning up the installation |
| CleanupPlan.InstallationAbsorbsWhileJobsRun | src/hosted/contracts.ts:1585-1661 | while running jobs may go on or end as they like, the states that cleaning up repositories and then their installation can lead to are exactly those that cleaning up the installation can lead to |
| CleanupScope.ReportGoesExactlyWhen | src/hosted/contracts.ts:1924-1972 | a deletion lists a report if and only if it is of the installation, and of the repository if the request is for one |
| CleanupScope.ReportExpiresExactlyWhen | src/hosted/contracts.ts:1974-1997 | an expiry lists a report it reaches if and only if its own expiry has come, or without one the days asked for, one to thirty, have passed since its creation |
| CleanupScope.DaysExist | src/hosted/contracts.ts:1327-1334 | every request for days, and a missing one, comes to some number from one to thirty |
| CleanupScope.JobStandsExactlyWhere | src/hosted/contracts.ts:1176-1215 | a job reached is cancelled if queued, asked to stop if running, kept if it has ended; any other job is left alone |
| CleanupScope.CheckoutGoesExactlyWhen | src/hosted/contracts.ts:2016-2055 | a deletion drops exactly the checkouts it reaches that are not deleted yet, and an expiry none |
| CleanupPlan.LaterExpiryDeletesMore | src/hosted/contracts.ts:1938-1997 | a later expiry deletes a superset |
| CleanupPlan.RetentionIsAtMostThirtyDays | src/hosted/contracts.ts:1974-1997 | a report without an expiry of its own is gone thirty days after its creation |
| CleanupPlan.RetentionIsAtLeastOneDay | src/hosted/contracts.ts:1974-1997 | and never within its first day |
| CleanupPlan.NeverExpiresExactlyWhen | src/hosted/contracts.ts:1974-1997 | no expiry ever deletes exactly the reports whose deciding date does not parse |
| CleanupPlan.ExpiryLeavesWork | src/hosted/contracts.ts:1597-1609 | an expiry changes no job and no checkout |
| CleanupPlan.CleanupKeyIdentifiesRequest | src/hosted/contracts.ts:1572-1583 | two requests share an idempotency key exactly when trigger, installation and scope agree, and then stop the same jobs |
| CheckoutRunner.Worker.RunReadOnlyCheckoutScan | src/hosted/worker.ts:509-669 | the try/catch/finally procedure leaves exactly the specified trace and result, for every world |
| CheckoutRunner.Worker.RunSteps | src/hosted/worker.ts:552-661 | the try block takes the ten steps up to and including the first that fails |
| CheckoutSource.ScanReadsTheHead | src/hosted/worker.ts:578-653 | when the scan starts, exactly five commands have run, with success and in the run's directory: the record's repository is the origin, its head and base commits were fetched with the depth asked for, and the head commit is checked out |
| CheckoutSource.EnvironmentsExactly | src/hosted/worker.ts:554-651 | each git process asks the file written for it and, if the worker starts it itself, finds the token; the scan gets five plain variables |
| CheckoutSource.DirectoryIsClosedFirst | src/hosted/worker.ts:550-568 | under every failure pattern the directory is closed to others before the credentials file is written into it and before any process runs |
| CheckoutSource.TurnedDownExactlyWhen | src/hosted/worker.ts:513-532 | which of the three reasons a run is turned down for, if any |
| CheckoutSource.ReportsExactly | src/hosted/worker.ts:544-669 | a run reports a missing token, a failed cleanup, the first step that failed, or else what the scan's output compacts to |
| CheckoutSource.TraceIsTrue | src/hosted/worker.ts:513-669 | every action of a run went as the outcomes say, and after one that failed only the cleanup is done |
| CheckoutSource.RefusedPlanAsksForNothing | src/hosted/contracts.ts:1217-1287 | which of the four reasons a scan is refused for, and that a refused plan has no token scope, checkout, command or output |
| CheckoutSource.AdmittedIsReadOnly | src/hosted/worker.ts:736-782 | an admitted plan reads contents only, has no network and keeps no source, diffs or secrets |
| CheckoutRunner.CommandsArePrefixOfSix | src/hosted/worker.ts:578-653 | under every failure pattern the commands started are a first part of the fixed six |
| CheckoutRunner.AskpassIsGoneBeforeCli | src/hosted/worker.ts:554-653 | when the scan starts, the askpass file was removed successfully and is not written again |
| CheckoutRunner.CliSeesNoSecret | src/hosted/worker.ts:637-653 | the scan's environment has five plain variables and its arguments are fixed by the queue record and the directory |
| CheckoutRunner.BaseIsPassedExactlyWhen | src/hosted/worker.ts:637-653 | the argument after `--base` is the record's base commit if and only if that is not spelt like the placeholder or is the directory |
| CheckoutRunner.PlaceholderIsReplaced | src/hosted/worker.ts:637-653 | a record, its plan and a run in which the scan gets the directory as its base |
| CheckoutRunner.TokenDecidesNothing | src/hosted/worker.ts:552-668 | whatever two tokens and whatever fails: as long as two runs have gone alike they go on with the same action, but for one variable of a git process, and end at the same point |
| CheckoutRunner.TokenStaysWithGit | src/hosted/worker.ts:569-653 | so another token with the same outcomes gives the same run and result, but for that variable |
| CheckoutRunner.TokenGoesNowhereElse | src/hosted/worker.ts:569-653 | whatever two tokens, failures and outcomes, the actions at the same place of the two runs differ at most in that one variable, and the scan is started alike |
| CheckoutRunner.CleanupOnceAndLast | src/hosted/worker.ts:550-668 | cleanup happens exactly once and last if the directory was made, otherwise not at all |
| CheckoutRunner.ReturnsExactlyWhen | src/hosted/worker.ts:509-669 | a normal return if and only if all six stages ran and no action failed, cleanup included |
| CheckoutRunner.CleanupFailureWins | src/hosted/worker.ts:662-668 | `cleanup_failed` is reported if and only if the directory was made and its cleanup failed |
| CheckoutRunner.AdmitsExactlyPlanned | src/hosted/worker.ts:736-782 | the guard admits exactly the plan the planner makes for the record |
| CheckoutRunner.PlannedPassesExactlyWhen | src/hosted/contracts.ts:1217-1287 | a planned scan passes the guard if and only if installation, selection and read permission were right |
| CheckoutRunner.RepositoryNameExactly | src/hosted/worker.ts:846-855 | accepted are exactly two plain path segments joined by a slash, and they are read back whole |
| CheckoutRunner.ClampPositiveInteger | src/hosted/worker.ts:918-925 | the whole part of the value, cut to between one and the maximum; the fallback if there is no value |
| FileCollection.Collector.Collect | src/utils/files.ts:64-84 | the walk over mutable arrays and counters computes the specified collection |
| FileCollection.Collector.Walk | src/utils/files.ts:86-165 | the recursive loop with its breaks is the specified walk |
| FileCollection.WalkIsGreedy | src/utils/files.ts:86-165 | the recursive walk equals one greedy pass over what a walk without budgets meets |
| FileCollection.VisitsAreReached | src/utils/files.ts:116-129 | that list holds exactly what is reached through entries no rule prunes |
| FileCollection.CollectionWithinBudget | src/utils/files.ts:94-159 | file count, total bytes and per-file bytes never exceed their limits |
| FileCollection.SmallerFileLimitGivesPrefix | src/utils/files.ts:94-121 | a smaller file limit gives the prefix cut at that limit |
| FilePaths.CollectedIsKept | src/utils/files.ts:116-159 | whatever the budgets, each file collected stands in the tree with that size and content, is a text file by its path, and neither it nor a directory above it is ignored, skipped or generated |
| FilePaths.CleanCollectsEveryKeptFile | src/utils/files.ts:86-165 | without any coverage diagnostic every such file of the tree is collected with its content |
| FilePaths.EveryKeptFileTurnsUp | src/utils/files.ts:126-159 | without a budget flag every such file is collected or named in the list that says why not, and so is every directory that could not be read |
| FilePaths.ListedIsTrue | src/utils/files.ts:131-159 | every name in a list is that of such a file, or directory, and what the list says of it is so |
| FilePaths.ListedOnce | src/utils/files.ts:184-186 | no name is listed twice |
| FilePaths.FlagsSayWhy | src/utils/files.ts:94-121 | each flag is set only for its own budget |
| FilePaths.EverythingFitsExactlyWhen | src/utils/files.ts:94-159 | everything met is collected if and only if each file is readable and small enough and the budgets leave room for it, up to the last byte |
| FileCoverage.EveryLossIsReported | src/utils/files.ts:86-165 | without a budget flag every file or locked directory met was collected or is named in a list |
| FileCoverage.NoSilentLoss | src/utils/files.ts:86-165 | without any coverage diagnostic the files are exactly the candidates that nothing prunes |
| FileCoverage.CollectionIsDepthFirst | src/utils/files.ts:103-107 | as no directory has two entries of one name, files come in strictly ascending depth-first order, whatever the budgets and failures |
| FileCoverage.DepthFirstMeansOnce | src/utils/files.ts:103-107 | and so each at most once |
| FileCollection.LimitsFrom | src/utils/files.ts:70-79 | every limit is positive, and without an option it is one MiB for a file, ten thousand files and fifty MiB in all |
| FileCollection.PositiveIntegerOrDefault | src/utils/files.ts:288-295 | the whole part of a value of at least one, otherwise the default |
| LaunchGate.SummarizeFindings | src/report/findings.ts:5-20 | the counting loop counts each severity |
| LaunchGate.SummaryAddsUp | src/report/findings.ts:5-20 | every finding is counted under exactly one severity |
| LaunchGate.KeptExactly | src/config.ts:38-57 | what survives the configuration, before sorting, is the sequence of the findings neither switched off nor suppressed, each as often and in the order it was, with its configured severity |
| LaunchGate.PathMatchesAsCompiled | src/config.ts:150-156 | a suppression path matches exactly when the compiled expression tests true |
| LaunchGate.IgnoredAsCompiled | src/utils/files.ts:238-240 | the walk prunes a path exactly when some compiled ignore line tests true |
| LaunchVerdict.SurvivesExactlyWhen | src/config.ts:38-57 | a finding counts with a severity if and only if its rule is configured so, or is not and it has that severity itself, and no suppression for its rule has a pattern that reads one of its files |
| LaunchVerdict.VerdictExactlyWhen | src/report/launchGate.ts:4-22 | blocked if and only if some finding counts as critical, for review if none does but one counts as high, and so on down; the note on coverage if and only if something was not covered |
| LaunchVerdict.ClearMeansEveryFileWasRead | src/report/launchGate.ts:4-22 | a clear verdict means that no finding counts and that every text file of the tree that nothing cuts off was read |
| LaunchGate.ClearExactlyWhen | src/report/launchGate.ts:4-22 | the verdict is clear if and only if no finding is left, no package file is malformed, and the collection is clean and not empty |
| LaunchGate.ClearMeansComplete | src/report/presentation.ts:51-67 | a clear verdict means every candidate file of the repository was read |
| LaunchGate.ClearWithoutCollection | src/report/presentation.ts:51-67 | without collection diagnostics a report can be clear whatever was read |
| Glob.GlobToRegExp | src/config.ts:158-183 | the index loop emits the source of the pattern's tokens |
| Glob.GlobToRegexSource | src/utils/files.ts:262-282 | the other loop emits the source of its tokens |
| IgnoreRules.IgnorePatternToRegex | src/utils/files.ts:242-256 | the source of an ignore rule |
| SuppressionPaths.SuppressionPreservesMeaning | src/config.ts:158-187 | the emitted expression, parsed back, accepts exactly the paths the direct matcher accepts |
| IgnoreRules.RulePreservesMeaning | src/utils/files.ts:242-286 | a rule's expression parses and tests true exactly on the paths the rule ignores |
| IgnoreRules.IgnorePreservesMeaning | src/utils/files.ts:242-286 | the same for every line of the ignore file |
| GlobMeaning.TokensReadAsPattern | src/config.ts:158-183 | the tokens describe a text if and only if the pattern reads it, star by star and character by character |
| GlobMeaning.SuppressionReadsAsPattern | src/config.ts:150-187 | the compiled expression, parsed back, tests true exactly on the paths the pattern reads |
| GlobMeaning.LineReadsAsName | src/utils/files.ts:242-286 | the compiled expression of an ignore line tests true exactly on the paths that its name says, anchored or not, directory or not |
| GlobMeaning.PlainLineIgnores | src/utils/files.ts:242-256 | a name without a star ignores that path, anything of that name, and what lies in it at the root; behind a slash just that path |
| GlobMeaning.DirectoryLineIgnores | src/utils/files.ts:242-256 | a directory's name ignores it and everything in it, anywhere; behind a slash only at the root |
| SuppressionPaths.CompilersAgree | src/config.ts:158-187 | the two compilers write the same source exactly for patterns without `?` |
| SqlPredicates.ExtractBalancedParentheses | src/scanners/supabase.ts:597-625 | the loop that skips doubled quotes returns the trimmed text up to the first index that closes by quote parity, or nothing if none does |
| SqlPredicates.ExtractedIsBalanced | src/scanners/supabase.ts:597-625 | the text in between is balanced with no negative prefix |
| SqlPredicates.StripWrappingParens | src/scanners/supabase.ts:627-637 | the loop peels to the end |
| SqlPredicates.PeelExactly | src/scanners/supabase.ts:627-637 | one turn peels exactly a pair around a trimmed, balanced text |
| SqlPredicates.StripShape | src/scanners/supabase.ts:627-637 | the trimmed input is k opening parentheses, the result and k closing ones; stripping is idempotent |
| SqlPredicates.WrappingIsInvisibleExactlyWhen | src/scanners/supabase.ts:627-637 | one more pair makes no difference if and only if the text inside is trimmed and balanced |
| SqlPredicates.WrappedIsBroadExactlyWhen | src/scanners/supabase.ts:627-650 | a text in parentheses is recognised as broad if and only if the text is, and is trimmed and balanced |
| SqlPredicates.QuotesHideParentheses | src/scanners/supabase.ts:597-625 | parentheses in single quotes do not count and all others do |
| SqlPredicates.ComparisonIsBroadExactlyWhen | src/scanners/supabase.ts:639-650 | a comparison of two constants is broad if and only if they are the same up to case |
| SqlPredicates.BroadExactlyWhen | src/scanners/supabase.ts:639-650 | a text is broad if and only if, unwrapped and in lower case, it is the word `true` or a constant compared with itself |
| SqlPredicates.DoubleQuotesHideBroad | src/scanners/supabase.ts:627-650 | a broad predicate with parentheses in double quotes that tight parentheses hide |
| BracketScan.FindMatchingBrace | src/scanners/silentSuccess.ts:310-332 | the least index where the unquoted, unescaped depth returns to zero, or -1 if there is none |
| BracketScan.FindMatchingParen | src/scanners/apiRoutes.ts:257-280 | the same for parentheses, and -1 for a missing opener |
| BracketScan.BlockIsOpen | src/scanners/silentSuccess.ts:310-332 | from an opener that is not escaped the depth stays positive up to the match, or to the end without one |
| BracketScan.MatchFollowsOpener | src/scanners/silentSuccess.ts:310-332 | the match lies behind its opener |
| BracketScan.QuotesHideBrackets | src/scanners/silentSuccess.ts:310-332 | whatever stands in quotes of any of the three kinds, the same brackets behind it close and none within it |
| BracketScan.LookbackIsEnoughExactlyWhen | src/scanners/silentSuccess.ts:310-332 | in a text, however it is cut off and continued without adding a character the two rules read differently, looking back one character finds the match the language's escape rule finds, if and only if no such character stands before the first match |
| BracketScan.LookbackIsEnoughEverywhereExactlyWhen | src/scanners/silentSuccess.ts:310-332 | so from every opening index, if and only if no quote and no bracket stands right behind an even, non-empty run of backslashes |
| BracketScan.DoubleBackslashHidesClose | src/scanners/silentSuccess.ts:310-332 | a text in which the match is missed |
| TerminalText.SkipTerminalEscapeSequence | src/report/presentation.ts:125-150 | the cursor loops end where the recursive definition of a control sequence ends, within a linear number of inspections |
| TerminalText.StripTerminalEscapeSequences | src/report/presentation.ts:105-123 | slicing and joining equals recursive removal, with at most three inspections per character |
| TerminalText.StripsExactlySequences | src/report/presentation.ts:105-150 | exactly the control sequences are taken out, each as long as the grammar says, and all text between them stays |
| TerminalText.SequenceIsOne | src/report/presentation.ts:125-150 | the grammar gives an escape one end only |
| TerminalText.StrippedIsClean | src/report/presentation.ts:105-123 | no escape is left, and the result is a subsequence of the input |
| TerminalText.StrippingIsIdempotent | src/report/presentation.ts:105-123 | stripping twice is stripping once |
| TerminalText.SanitizedIsSafe | src/report/presentation.ts:22-28 | the output is one line of visible characters with single spaces between them |
| TerminalText.SanitizingSpacesTheWords | src/report/presentation.ts:22-28 | the line is the words of the stripped text with single spaces between them |
| TerminalText.SanitizingIsIdempotent | src/report/presentation.ts:22-28 | sanitizing twice is sanitizing once |
| TerminalText.SanitizingKeepsVisible | src/report/presentation.ts:22-28 | outside control sequences no visible character is lost, added or moved |
| KeywordWindow.HasKeywordWindowMatch | src/scanners/gitDiff.ts:486-498 | the jumping search finds a match among its hits |
| KeywordWindow.KeywordSearchIsComplete | src/scanners/gitDiff.ts:486-498 | for keywords of word characters it is true exactly if some delimited occurrence has a wanted window |
| KeywordWindow.HasWindowMatch | src/scanners/gitDiff.ts:500-508 | the search without delimiters |
| KeywordWindow.WindowSearchCompleteExactlyWhen | src/scanners/gitDiff.ts:500-508 | that search is complete on every text if and only if the needle has no border |
| KeywordWindow.SearchesFindWhatStands | src/scanners/gitDiff.ts:486-508 | the keyword search, and for needles without a border the plain one, is true if and only if the text can be divided around the needle with a wanted window from it on |
| KeywordWindow.NormalizeWords | src/scanners/gitDiff.ts:521-536 | the flag loop writes the maximal runs of word characters, one space around each |
| KeywordWindow.WordsAreRuns | src/scanners/gitDiff.ts:521-536 | the words are exactly the runs of small letters, digits and underscores |
| KeywordWindow.IncludesAnyWord | src/scanners/gitDiff.ts:516-519 | the search in the normalised text |
| KeywordWindow.IncludesPhrases | src/scanners/gitDiff.ts:516-536 | for any list of words it is true exactly if one of them, between spaces, spells out successive words of the text |
| KeywordWindow.IncludesWholeWords | src/scanners/gitDiff.ts:516-536 | for words of word characters it is true exactly if one of them is a whole word of the text |
| DiffFiles.ParseDiffFiles | src/scanners/gitDiff.ts:246-273 | the accumulator loop reads the files line by line |
| DiffFiles.FilesOwnTheirLines | src/scanners/gitDiff.ts:246-273 | one file per header, in order, and each owns exactly the lines up to the next header |
| DiffFiles.TotalsAreComplete | src/scanners/gitDiff.ts:246-273 | added and removed counts add up to all lines from the first header on that pass the code's own tests |
| DiffFiles.CountsMissExactly | src/scanners/gitDiff.ts:265-268 | of the lines that begin with `+` or `-` exactly those that begin with three of them are not counted |
| DiffFiles.LineIsCountedExactlyWhen | src/scanners/gitDiff.ts:265-268 | an added text is counted if and only if it does not begin with `++`, a removed one if and only if it does not begin with `--` |
| DiffFiles.SplitEnded | src/scanners/gitDiff.ts:246-250 | lines are told apart by either kind of line end, mixed as they may be |
| DiffFiles.HeaderPathExactly | src/scanners/gitDiff.ts:275-285 | a line gives a path if and only if it is a header, of a file that moved or not, whose last ` b/` stands before that path |
| DiffFiles.HeaderReadsBackExactlyWhen | src/scanners/gitDiff.ts:275-285 | a header gives its path back if and only if the path is not empty and has no ` b/` inside |
| DiffFiles.RenderParses | src/scanners/gitDiff.ts:246-285 | parsing a rendered list of files gives back paths, lines and counts |
| Der.DerLength | hosted/cloudflare-worker/src/index.js:1589-1598 | the shifting loop writes the length octets |
| Der.LengthReadsBackExactlyWhen | hosted/cloudflare-worker/src/index.js:1589-1598 | a length reads back, the rest untouched, if and only if it is below 2^31 |
| Der.EncodingIsMinimal | hosted/cloudflare-worker/src/index.js:1589-1598 | no definite encoding of the same length is shorter |
| Der.ConcatBytes | hosted/cloudflare-worker/src/index.js:1600-1609 | one allocation and offset copies give the concatenation |
| Der.TripleReadsBack | hosted/cloudflare-worker/src/index.js:1585-1587 | a tag-length-value triple reads back with the rest untouched |
| Der.TriplesArePrefixFree | hosted/cloudflare-worker/src/index.js:1585-1587 | no triple is a proper prefix of another |
| Der.WrapParsesExactlyWhen | hosted/cloudflare-worker/src/index.js:1565-1587 | the wrapped key parses as a PrivateKeyInfo whose octet string is the key if and only if the key is shorter than 2^31 - 24 bytes |
| RateLimit.Limiter.CheckRepositoryRateLimit | hosted/cloudflare-worker/src/index.js:661-712 | one check: decision and stored counter, the corrupt and the unconfigured case included |
| RateLimit.RefusesExactlyWhen | hosted/cloudflare-worker/src/index.js:661-712 | a check refuses if and only if the store speaks of a counter that cannot be trusted or of one that is full while its window lasts, and announces the least sufficient number of seconds |
| RateLimit.CorruptBlocksOneWindow | hosted/cloudflare-worker/src/index.js:671-683 | from a corrupt counter on everything is refused for one window, which refusals do not prolong |
| RateLimit.RefusedMeansFull | hosted/cloudflare-worker/src/index.js:661-712 | from an empty store nothing is refused before `maxEvents` were allowed in its window |
| RateLimit.RetryIsAllowed | hosted/cloudflare-worker/src/index.js:671-701 | a retry after the announced seconds with nothing in between is allowed, also after a corrupt counter |
| RateLimit.RetryIsTight | hosted/cloudflare-worker/src/index.js:696-701 | a second earlier it is still refused |
| RateLimit.WindowLimit | hosted/cloudflare-worker/src/index.js:661-712 | at most `maxEvents` are allowed per window, in every run with a clock that does not go back |
| RateLimit.SlidingLimit | hosted/cloudflare-worker/src/index.js:661-712 | at most twice as many in any stretch of one window's length, whatever entry the run found |
| RateLimit.FreshSlidingLimit | hosted/cloudflare-worker/src/index.js:661-712 | from an empty store at most one less than that |
| RateLimit.FreshSlidingLimitIsReached | hosted/cloudflare-worker/src/index.js:661-712 | and this bound is reached under every configuration |
| RateLimit.ExpiryKeepsLiveWindow | hosted/cloudflare-worker/src/index.js:722-724 | expiry never drops a window the run opened while it lasts |
| KvCleanup.KvStore.List | hosted/cloudflare-worker/src/index.js:1008 | a page: the next names in order, possibly none, and a cursor that has moved ahead exactly when more may follow |
| KvCleanup.DeleteScanRecords | hosted/cloudflare-worker/src/index.js:1005-1025 | the cursor loop deletes exactly the names under a prefix, counts them and the queued ones, and ends |
| KvCleanup.DeleteDeliveryRecords | hosted/cloudflare-worker/src/index.js:1031-1047 | the second loop deletes exactly the matching receipts other than the current one |
| KvCleanup.DeleteCompactRecordsForInstallation | hosted/cloudflare-worker/src/index.js:986-1050 | afterwards the store lacks exactly what was in scope, and both counts are true |
| KvCleanup.ScanRecordGoesExactlyWhen | hosted/cloudflare-worker/src/index.js:998-1008 | a scan record goes if and only if its installation and repository are in scope |
| KvCleanup.ReceiptGoesExactlyWhen | hosted/cloudflare-worker/src/index.js:1031-1065 | a receipt goes if and only if its installation and repository are in scope, an installation's receipt only with the whole installation, and one that names none stays |
| KvCleanup.CountsExactlyWhen | hosted/cloudflare-worker/src/index.js:1008-1020 | a scan record counts as a cancelled job if and only if it is queued, pending or running |
| KvCleanup.OutOfScopeStays | hosted/cloudflare-worker/src/index.js:1027-1047 | names that are neither scan records nor receipts, and the current receipt, stay |
| KvCleanup.SecondCleanupFindsNothing | hosted/cloudflare-worker/src/index.js:986-1050 | cleaning up again deletes nothing |
| KvCleanup.InstallationCoversRepositories | hosted/cloudflare-worker/src/index.js:1052-1065 | an installation's cleanup takes everything a cleanup of its repositories takes |
| KvCleanup.RepositoriesOneByOne | hosted/cloudflare-worker/src/index.js:986-1065 | several repositories can be cleaned up together or one part after the other, with the same deletions |

## Left out

- File system, child processes, HTTP routing, GitHub API calls, HTML pages and command-line parsing: abstract outcomes instead.
- HMAC and RSA signatures, base64, JSON parsing, `Date.parse` and `new URL`: outcomes or parsed values are inputs.
- Reading the ignore file into lines (its lines are given, trimmed and without comments) and the expression that tells text files by their path, which is a parameter.
- The heuristic rule expressions of the scanners, finding texts, privacy records and the flat readiness gates.
- `sortFindings`, `uniqueFindings` and the wording of verdicts: findings keep the order they have, which no theorem here depends on.
- Compacting the scan's output to findings and counts (`src/hosted/worker.ts:722-734`): whether it succeeds is part of the `World`.
- The shortcut for repeated cleanups (`hosted/cloudflare-worker/src/index.js:804-808`), which skips the deletion when an earlier result is stored; only the deletion itself is proved complete.
- Timeouts and output limits of the commands: a command that exceeds them is one that fails.
- Errors thrown by the key-value store during a cleanup, and entries that expire or appear while it runs.
- Concurrent requests to the rate limiter: its runs are sequential, as its read and its write are not one operation.
- `NaN` and infinite option values, lower-casing outside ASCII, symbolic links.
- Characters beyond the basic multilingual plane, which the program sees as two code units each, and lone surrogates.
- The in-memory adapters' own arrays: reports and check runs are sequences in the protocol's state, changed when the store or publisher is called.
- CheckoutRunner.TokenStaysWithGit: one failure pattern for both tokens; TokenDecidesNothing and TokenGoesNowhereElse do not assume it.
- CleanupPlan.InstallationAbsorbsRepository: compares states in which the running jobs have followed the request to stop; InstallationAbsorbsWhileJobsRun does not assume it.
