/** What a checkout scan reads and what it reports (`src/hosted/worker.ts`): the commit and repository behind the
    scan, the processes' environments, and the reason that goes with each failure. */
module CheckoutSource {
  import opened CheckoutRunner
  import opened ScanIdentity
  import opened Text

  // ---------------------------------------------------------------- what ran before the scan

  /** The commands of a trace, in order. */
  function Runs(trace: seq<Event>): seq<Command> {
    if trace == [] then []
    else
      var last := trace[|trace| - 1].action;
      Runs(trace[..|trace| - 1]) + if last.Run? then [last.command] else []
  }

  /** When the scan starts, the eight steps before it were taken, each with success. */
  lemma BeforeScan(job: Job, w: World, k: nat)
    requires k < |Trace(job, w)| && StartsCli(Trace(job, w)[k])
    ensures MakesDirectory(w) && k == 11
    ensures Trace(job, w)[0] == Event(RequestToken, true) && Trace(job, w)[1] == Event(MakeRoot, true)
    ensures Trace(job, w)[2] == Event(MakeDirectory, true)
    ensures forall j :: 3 <= j < 11 ==>
            Trace(job, w)[j] == Event(StepAt(job, w.token.text, w.directory.value, j - 3), true)
    ensures Trace(job, w)[11].action == Run(CliCommand(job, w.directory.value))
  {
    StepsAreShaped(job, w.token.text, w.directory.value);
    AskpassRemovedAt(w, StepsOf(job, w), w.directory.value, k);
    FullTraceAt(w, StepsOf(job, w), w.directory.value, k);
  }

  /** The five commands that fetch and check out, as a run starts them. */
  function GitCommands(job: Job, w: World): (s: seq<Command>)
    requires MakesDirectory(w)
    ensures |s| == 5
  {
    seq(5, n requires 0 <= n < 5 => GitCommand(STAGES[n], job, w.token.text, w.directory.value))
  }

  lemma OneMoreEvent(trace: seq<Event>, k: nat)
    requires k < |trace|
    ensures Runs(trace[..k + 1]) == Runs(trace[..k]) + if trace[k].action.Run? then [trace[k].action.command] else []
  {
    assert trace[..k + 1][..k] == trace[..k];
  }

  /** How many of them are among the first `n` events. */
  function GitCount(n: nat): nat { if n <= 5 then 0 else if n <= 10 then n - 5 else 5 }

  /** The commands of the trace are these, at the places from 5 to 9. */
  ghost predicate RunsAt(trace: seq<Event>, all: seq<Command>) {
    && |trace| >= 11 && |all| == 5
    && forall j :: 0 <= j < 11 ==>
         (trace[j].action.Run? <==> 5 <= j <= 9) && (5 <= j <= 9 ==> trace[j].action == Run(all[j - 5]))
  }

  lemma {:induction false} RunsSoFar(trace: seq<Event>, all: seq<Command>, n: nat)
    requires RunsAt(trace, all) && n <= 11
    ensures Runs(trace[..n]) == all[..GitCount(n)]
  {
    if n > 0 {
      RunsSoFar(trace, all, n - 1);
      OneMoreEvent(trace, n - 1);
      if 6 <= n <= 10 { assert all[..n - 5] == all[..n - 6] + [all[n - 6]]; }
    }
  }

  lemma GitRunsBeforeScan(job: Job, w: World, k: nat)
    requires k < |Trace(job, w)| && StartsCli(Trace(job, w)[k])
    ensures MakesDirectory(w) && Runs(Trace(job, w)[..k]) == GitCommands(job, w)
  {
    BeforeScan(job, w, k);
    var trace, all := Trace(job, w), GitCommands(job, w);
    forall j | 0 <= j < 11
      ensures trace[j].action.Run? <==> 5 <= j <= 9
      ensures 5 <= j <= 9 ==> trace[j].action == Run(all[j - 5])
    {
    }
    RunsSoFar(trace, all, 11);
    assert all[..5] == all;
  }

  // ---------------------------------------------------------------- the commit

  /** The whole part of the depth asked for, from 1 to 1000, or 100. */
  predicate IsDepth(asked: Option<real>, n: nat) {
    match asked
    case None => n == 100
    case Some(x) => 1 <= n <= 1000 && (n == 1 || n as real <= x) && (n == 1000 || x < n as real + 1.0)
  }

  lemma DepthIs(asked: Option<real>)
    ensures IsDepth(asked, ClampPositiveInteger(asked, DEFAULT_FETCH_DEPTH, MAX_FETCH_DEPTH))
  {
  }

  /** What the five commands say for a record. */
  ghost predicate FetchesAndChecksOut(runs: seq<Command>, i: Identity, origin: string, depth: nat) {
    && |runs| == 5
    && runs[0].args == ["init"]
    && runs[1].args == ["remote", "add", "origin", origin]
    && runs[2].args == ["fetch", "--no-tags", "--depth", Decimal(depth), "origin", i.headSha]
    && runs[3].args == ["fetch", "--no-tags", "--depth", Decimal(depth), "origin", i.baseSha]
    && runs[4].args == ["checkout", "--detach", i.headSha]
  }

  lemma ReadyJob(p: ScanPlan, record: QueueRecord, o: Options)
    requires Prepare(p, record, o).Ready?
    ensures var job := Prepare(p, record, o).job;
      && job.options == o && o.cloneBaseUrl.Some?
      && job.checkout.targetCommitSha == record.identity.headSha && job.checkout.baseSha == record.identity.baseSha
      && job.cloneUrl == o.cloneBaseUrl.value + "/" + record.identity.repositoryFullName + ".git"
      && job.cli.command == "ai-saas-guard"
  {
    AdmitsExactlyPlanned(p, record);
    var name := record.identity.repositoryFullName;
    var parts := ParseRepositoryFullName(name).value;
    RepositoryNameExactly(name, parts.0, parts.1);
    var base := o.cloneBaseUrl.value;
    assert base + "/" + parts.0 + "/" + parts.1 + ".git" == base + "/" + name + ".git";
  }

  /** Main result: when the scan starts, exactly five commands have run before it, all with success and in the
      run's directory. They made a repository whose origin is that of the record, fetched the record's head and
      base commits from it, and checked out the head commit, which is what the scan reads. */
  lemma ScanReadsTheHead(p: ScanPlan, record: QueueRecord, o: Options, w: World, k: nat)
    requires Prepare(p, record, o).Ready?
    requires var trace := Trace(Prepare(p, record, o).job, w); k < |trace| && StartsCli(trace[k])
    ensures w.directory.Some? && o.cloneBaseUrl.Some?
    ensures var trace := Trace(Prepare(p, record, o).job, w);
      && (forall j :: 0 <= j < k ==> trace[j].ok)
      && (forall c <- Runs(trace[..k]) :: c.cwd == w.directory.value
                                          && c.program == if o.gitCommand.Some? then o.gitCommand.value else "git")
      && trace[k].action.command.cwd == w.directory.value
      && trace[k].action.command.program == (if o.cliCommand.Some? then o.cliCommand.value else "ai-saas-guard")
      && exists depth: nat :: IsDepth(o.fetchDepth, depth) &&
           FetchesAndChecksOut(Runs(trace[..k]), record.identity,
                               o.cloneBaseUrl.value + "/" + record.identity.repositoryFullName + ".git", depth)
  {
    var job := Prepare(p, record, o).job;
    BeforeScan(job, w, k);
    GitRunsBeforeScan(job, w, k);
    ReadyJob(p, record, o);
    DepthIs(o.fetchDepth);
    CommandsSay(job, w, record.identity);
  }

  lemma CommandsSay(job: Job, w: World, i: Identity)
    requires MakesDirectory(w) && job.checkout.targetCommitSha == i.headSha && job.checkout.baseSha == i.baseSha
    ensures FetchesAndChecksOut(GitCommands(job, w), i, job.cloneUrl,
                                ClampPositiveInteger(job.options.fetchDepth, DEFAULT_FETCH_DEPTH, MAX_FETCH_DEPTH))
    ensures forall c <- GitCommands(job, w) ::
              c.cwd == w.directory.value
              && c.program == if job.options.gitCommand.Some? then job.options.gitCommand.value else "git"
  {
  }

  // ---------------------------------------------------------------- the environments

  /** What every process gets. */
  function PlainEnv(directory: string, hostPath: Option<string>): map<string, string> {
    map["PATH" := if hostPath.Some? then hostPath.value else "/usr/bin:/bin", "HOME" := directory,
        "TMPDIR" := directory,
        "CI" := "true", "NO_COLOR" := "1"]
  }

  /** What git gets besides: nothing to ask on a terminal, no configuration from outside, and the file it asks
      for credentials. */
  function AskingEnv(askpass: string): map<string, string> {
    map["GIT_ASKPASS" := askpass, "GIT_TERMINAL_PROMPT" := "0", "GIT_CONFIG_NOSYSTEM" := "1",
        "GIT_CONFIG_GLOBAL" := "/dev/null"]
  }

  function TokenEnv(o: Options, token: string): map<string, string> {
    if o.customRunner then map[] else map["AI_SAAS_GUARD_GITHUB_TOKEN" := token]
  }

  lemma GitEnvironment(stage: Stage, job: Job, token: string, directory: string)
    ensures GitCommand(stage, job, token, directory).env ==
            PlainEnv(directory, job.options.hostPath) + AskingEnv(AskpassPath(directory)) + TokenEnv(job.options, token)
  {
    assert SafeEnv(directory, job.options) == PlainEnv(directory, job.options.hostPath);
    assert GitEnv(directory, job.options) ==
           PlainEnv(directory, job.options.hostPath) + AskingEnv(AskpassPath(directory));
  }

  lemma ScanEnvironment(job: Job, directory: string)
    ensures CliCommand(job, directory).env == PlainEnv(directory, job.options.hostPath)
  {
    assert SafeEnv(directory, job.options) + map[] == SafeEnv(directory, job.options);
  }

  /** Main result: each git process asks the file that was written for it, and only a process the worker starts
      itself finds the token; the scan gets the plain variables and nothing else. */
  lemma EnvironmentsExactly(job: Job, w: World, k: nat) returns (askpass: string)
    requires k < |Trace(job, w)| && StartsCli(Trace(job, w)[k])
    ensures w.token.Token? && w.directory.Some?
    ensures Event(WriteAskpass(askpass), true) in Trace(job, w)[..k]
    ensures forall c <- Runs(Trace(job, w)[..k]) ::
              c.env == PlainEnv(w.directory.value, job.options.hostPath) + AskingEnv(askpass) +
                       TokenEnv(job.options, w.token.text)
    ensures Trace(job, w)[k].action.command.env == PlainEnv(w.directory.value, job.options.hostPath)
  {
    BeforeScan(job, w, k);
    GitRunsBeforeScan(job, w, k);
    askpass := AskpassPath(w.directory.value);
    assert Trace(job, w)[..k][4] == Trace(job, w)[4];
    forall stage ensures GitCommand(stage, job, w.token.text, w.directory.value).env ==
                         PlainEnv(w.directory.value, job.options.hostPath) + AskingEnv(askpass) +
                         TokenEnv(job.options, w.token.text)
    {
      GitEnvironment(stage, job, w.token.text, w.directory.value);
    }
    ScanEnvironment(job, w.directory.value);
  }

  /** The directory is closed to others before the file with the credentials is written into it, under whatever
      failures; only then a process runs. */
  lemma DirectoryIsClosedFirst(job: Job, w: World, k: nat)
    requires k < |Trace(job, w)| && (Trace(job, w)[k].action.WriteAskpass? || Trace(job, w)[k].action.Run?)
    ensures w.directory.Some? && k > 3 && Trace(job, w)[3] == Event(Restrict(w.directory.value), true)
    ensures Trace(job, w)[k].action.WriteAskpass? ==>
              Trace(job, w)[k].action.path == w.directory.value + "/.git-askpass.sh"
    ensures Trace(job, w)[k].action.Run? ==> Trace(job, w)[k].action.command.cwd == w.directory.value
  {
    var steps := StepsOf(job, w);
    StepsAreShaped(job, w.token.text, w.directory.value);
    FullTraceAt(w, steps, w.directory.value, k);
    assert steps[0] == Restrict(w.directory.value);
    assert steps[k - 3] == StepAt(job, w.token.text, w.directory.value, k - 3);
  }

  // ---------------------------------------------------------------- what is reported

  const CAPITALS := "ABCDEFGHIJKLMNOPQRSTUVWXYZ"
  const SMALL_LETTERS := "abcdefghijklmnopqrstuvwxyz"

  /** An owner or a repository as it may stand in an address: no step to a directory above, nothing to escape. */
  predicate PlainName(s: string) {
    s !in {"", ".", ".."} && forall c <- s :: c in CAPITALS || c in SMALL_LETTERS || c in "0123456789" || c in "_.-"
  }

  lemma CapitalsAre(c: char)
    ensures c in CAPITALS <==> 'A' <= c <= 'Z'
  {
    if 'A' <= c <= 'Z' { assert CAPITALS[c as int - 'A' as int] == c; }
  }

  lemma SmallLettersAre(c: char)
    ensures c in SMALL_LETTERS <==> 'a' <= c <= 'z'
  {
    if 'a' <= c <= 'z' { assert SMALL_LETTERS[c as int - 'a' as int] == c; }
  }

  lemma DigitsAre(c: char)
    ensures c in "0123456789" <==> '0' <= c <= '9'
  {
    if '0' <= c <= '9' { assert "0123456789"[c as int - '0' as int] == c; }
  }

  lemma PlainNameIsSegment(s: string)
    ensures PlainName(s) <==> IsPathSegment(s)
  {
    forall c | c in s
      ensures (c in CAPITALS || c in SMALL_LETTERS || c in "0123456789" || c in "_.-") <==> IsNameCharacter(c)
    {
      CapitalsAre(c);
      SmallLettersAre(c);
      DigitsAre(c);
    }
  }

  /** Main result, both ways: why a run is turned down before it does anything. */
  lemma TurnedDownExactlyWhen(p: ScanPlan, record: QueueRecord, o: Options)
    ensures var planned := p.(reason := None) == AcceptedPlan(record.identity, record.key, p.requestedAt);
      var named := exists owner, repo ::
        record.identity.repositoryFullName == owner + "/" + repo && PlainName(owner) && PlainName(repo);
      && (Prepare(p, record, o) == Rejected("invalid_worker_plan") <==> !planned)
      && (Prepare(p, record, o) == Rejected("invalid_repository_full_name") <==> planned && !named)
      && (Prepare(p, record, o) == Rejected("invalid_clone_base_url") <==> planned && named && o.cloneBaseUrl.None?)
      && (Prepare(p, record, o).Ready? <==> planned && named && o.cloneBaseUrl.Some?)
  {
    AdmitsExactlyPlanned(p, record);
    var name := record.identity.repositoryFullName;
    if ParseRepositoryFullName(name).Some? {
      var parts := ParseRepositoryFullName(name).value;
      RepositoryNameExactly(name, parts.0, parts.1);
      PlainNameIsSegment(parts.0);
      PlainNameIsSegment(parts.1);
    }
    if owner, repo :| name == owner + "/" + repo && PlainName(owner) && PlainName(repo) {
      PlainNameIsSegment(owner);
      PlainNameIsSegment(repo);
      RepositoryNameExactly(name, owner, repo);
    }
  }

  /** Main result, both ways: why a scan is not planned, and that a plan refused asks for nothing at all. */
  lemma RefusedPlanAsksForNothing(r: ScanRequest)
    ensures var p, i := PlanReadOnlyScan(r), r.identity;
      var mismatch, removed := r.installationId != i.installationId, i.repositoryId in r.removedRepositoryIds;
      var unknown, unreadable := i.repositoryId !in r.selectedRepositoryIds, r.contents != Some("read");
      && (p.accepted <==> !mismatch && !removed && !unknown && !unreadable)
      && (p.reason == Some("installation_mismatch") <==> mismatch)
      && (p.reason == Some("repository_removed_from_installation") <==> !mismatch && removed)
      && (p.reason == Some("repository_not_installed") <==> !mismatch && !removed && unknown)
      && (p.reason == Some("contents_read_permission_required") <==> !mismatch && !removed && !unknown && unreadable)
      && (p.accepted <==> p.reason.None?)
      && p.jobKey == r.jobKey && p.requestedAt == r.requestedAt && p.readOnly
      && !p.shouldPersistRawSource && !p.shouldPersistRawDiffs && !p.shouldCreatePrComment
      && (p.accepted <==> p.shouldFetchSource) && (p.accepted <==> p.shouldRunCli)
      && (p.accepted <==> p.installationTokenScope.Some?) && (p.accepted <==> p.checkout.Some?)
      && (p.accepted <==> p.cli.Some?) && (p.accepted <==> p.output.Some?)
  {
    assert "installation_mismatch"[0] == 'i' && "contents_read_permission_required"[0] == 'c';
    assert |"repository_removed_from_installation"| != |"repository_not_installed"|;
  }

  /** What an accepted plan allows. */
  lemma AdmittedIsReadOnly(p: ScanPlan, record: QueueRecord)
    requires Admits(p, record)
    ensures p.readOnly && !p.shouldPersistRawSource && !p.shouldPersistRawDiffs && !p.shouldCreatePrComment
    ensures p.installationTokenScope.value ==
            TokenScope(record.identity.installationId, record.identity.repositoryId, "read", true)
    ensures p.cli.value.networkAccess == "disabled" && p.cli.value.writeMode == "read_only"
    ensures p.output.value == Output(true, false, false, false, false)
    ensures p.checkout.value.cleanupRequired && !p.checkout.value.returnsCheckoutPath
  {
    AdmitsExactlyPlanned(p, record);
  }

  /** The reason that goes with the step that failed. */
  function ReasonFor(a: Action): string {
    match a
    case Run(c) =>
      (match c.stage
       case GitInit => "git_init_failed"
       case GitRemoteAdd => "git_remote_add_failed"
       case GitFetchHead => "git_fetch_head_failed"
       case GitFetchBase => "git_fetch_base_failed"
       case GitCheckout => "git_checkout_failed"
       case CliScan => "cli_scan_failed")
    case Compact => "invalid_cli_output"
    case _ => "cli_scan_failed"
  }

  lemma ReasonIs(a: Action)
    ensures Reason(a) == ReasonFor(a)
  {
    if a.Run? { StageReason(a.command.stage); }
  }

  lemma StageReason(s: Stage)
    ensures StageName(s) + "_failed" ==
      match s
      case GitInit => "git_init_failed"
      case GitRemoteAdd => "git_remote_add_failed"
      case GitFetchHead => "git_fetch_head_failed"
      case GitFetchBase => "git_fetch_base_failed"
      case GitCheckout => "git_checkout_failed"
      case CliScan => "cli_scan_failed"
  {
  }

  predicate Blank(text: string) { forall c <- text :: IsSpace(c) }

  lemma {:induction false} BlankTrims(text: string)
    ensures Trim(text) == "" <==> Blank(text)
  {
    TrimStartShape(text);
    StartIsBlank(text);
    TrimEndShape(TrimStart(text));
    if TrimStart(text) != "" { EndKeeps(TrimStart(text)); }
  }

  lemma {:induction false} StartIsBlank(s: string)
    ensures TrimStart(s) == "" <==> Blank(s)
  {
    if s != "" {
      StartIsBlank(s[1..]);
      assert s == [s[0]] + s[1..];
    }
  }

  lemma {:induction false} EndKeeps(s: string)
    requires s != "" && !IsSpace(s[0])
    ensures TrimEnd(s) != ""
  {
    if |s| > 1 && IsSpace(s[|s| - 1]) { EndKeeps(s[..|s| - 1]); }
  }

  /** Main result: the trace is the truth. Each action in it went as the world has it, and after one that failed
      nothing is done but the cleanup. */
  lemma TraceIsTrue(job: Job, w: World, k: nat)
    requires k < |Trace(job, w)|
    ensures var e := Trace(job, w)[k];
      && e.ok == Succeeds(w, e.action)
      && (!e.action.CleanUp? ==> forall j :: 0 <= j < k ==> Trace(job, w)[j].ok)
  {
    if MakesDirectory(w) {
      var steps := StepsOf(job, w);
      AttemptIsTrue(w, steps);
      FullTraceParts(w, steps, k);
      forall j | 0 <= j < k ensures j < 3 + |Attempt(w, steps)| - 1 ==> Trace(job, w)[j].ok {
        FullTraceParts(w, steps, j);
      }
    }
  }

  lemma {:induction false} AttemptIsTrue(w: World, steps: seq<Action>)
    ensures forall e <- Attempt(w, steps) :: e.ok == Succeeds(w, e.action)
    ensures forall i :: 0 <= i < |Attempt(w, steps)| - 1 ==> Attempt(w, steps)[i].ok
  {
    if steps != [] && Succeeds(w, steps[0]) { AttemptIsTrue(w, steps[1..]); }
  }

  /** Main result: what a run reports. Without a token it says so; if its directory cannot be cleaned up it says
      that and nothing else; otherwise it names the first step that failed, and if none did it returns what the
      scan's output compacts to. */
  lemma ReportsExactly(job: Job, w: World)
    ensures (w.token.NotAString? || (w.token.Token? && Blank(w.token.text))) <==>
            RunResult(job, w) == Err(Safe("missing_installation_token"))
    ensures w.token.Throws? ==> RunResult(job, w) == Err(Foreign)
    ensures Event(MakeDirectory, true) !in Trace(job, w) ==> RunResult(job, w).Err?
    ensures Event(MakeDirectory, true) in Trace(job, w) && w.cleansUp ==>
            var trace := Trace(job, w);
            && |trace| >= 2
            && var last := trace[|trace| - 2];
               if last.ok then
                 CliScan in w.outputs && w.outputs[CliScan] in w.compacts &&
                   RunResult(job, w) == Ok(w.compacts[w.outputs[CliScan]])
               else RunResult(job, w) == Err(Safe(ReasonFor(last.action)))
  {
    if w.token.Token? { BlankTrims(w.token.text); }
    DirectoryMade(job, w);
    if MakesDirectory(w) && w.cleansUp { FullRunReports(job, w); }
    if MakesDirectory(w) { NotForTheToken(job, w); }
  }

  lemma DirectoryMade(job: Job, w: World)
    ensures Event(MakeDirectory, true) in Trace(job, w) <==> MakesDirectory(w)
  {
    if MakesDirectory(w) {
      FullTraceParts(w, StepsOf(job, w), 2);
      assert Trace(job, w)[2] == Event(MakeDirectory, true);
    }
  }

  lemma NotForTheToken(job: Job, w: World)
    requires MakesDirectory(w)
    ensures RunResult(job, w) != Err(Safe("missing_installation_token")) && RunResult(job, w) != Err(Foreign)
  {
    var steps := StepsOf(job, w);
    StepsAreShaped(job, w.token.text, w.directory.value);
    AttemptReports(w, steps);
    forall a ensures ReasonFor(a) != "missing_installation_token" {}
  }

  lemma FullRunReports(job: Job, w: World)
    requires MakesDirectory(w) && w.cleansUp
    ensures var trace := Trace(job, w);
      && |trace| >= 2
      && var last := trace[|trace| - 2];
         if last.ok then
           CliScan in w.outputs && w.outputs[CliScan] in w.compacts &&
             RunResult(job, w) == Ok(w.compacts[w.outputs[CliScan]])
         else RunResult(job, w) == Err(Safe(ReasonFor(last.action)))
  {
    var steps := StepsOf(job, w);
    StepsAreShaped(job, w.token.text, w.directory.value);
    AttemptReports(w, steps);
    FullTraceParts(w, steps, |Attempt(w, steps)| + 2);
  }

  lemma AttemptReports(w: World, steps: seq<Action>)
    requires |steps| == 10 && steps[9] == Compact
    ensures Attempt(w, steps) != []
    ensures var last := Attempt(w, steps)[|Attempt(w, steps)| - 1];
      if last.ok then
        CliScan in w.outputs && w.outputs[CliScan] in w.compacts &&
          StepsResult(w, steps) == Ok(w.compacts[w.outputs[CliScan]])
      else StepsResult(w, steps) == Err(Safe(ReasonFor(last.action)))
  {
    AttemptIsPrefix(w, steps);
    if FirstFailure(w, steps).Some? {
      FailureIsRecorded(w, steps);
      ReasonIs(FirstFailure(w, steps).value);
    } else {
      assert Attempt(w, steps)[9] == Event(steps[9], Succeeds(w, steps[9]));
    }
  }
}
