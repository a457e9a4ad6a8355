/** The read-only checkout scan of the hosted worker (`src/hosted/worker.ts`) and the plan it trusts
    (`src/hosted/contracts.ts`). Calls that leave the process become actions whose outcomes a `World`
    fixes; a run leaves the trace of its actions. */
module CheckoutRunner {
  import opened Text
  import opened ScanIdentity

  // ---------------------------------------------------------------- the plan and its guard

  datatype TokenScope = TokenScope(installationId: nat, repositoryId: nat, contents: string,
                                   selectedRepositoryOnly: bool)

  datatype Checkout = Checkout(repositoryId: nat, repositoryFullName: string, pullRequestNumber: nat, baseSha: string,
                               targetCommitSha: string, directoryScope: string, cleanupRequired: bool,
                               returnsCheckoutPath: bool)

  datatype Cli = Cli(command: string, args: seq<string>, workingDirectory: string, networkAccess: string,
                     writeMode: string)

  datatype Output = Output(compactJsonOnly: bool, persistRawSource: bool, persistRawDiffs: bool,
                           persistSecrets: bool, persistCustomerPayloads: bool)

  /** A scan plan, trusted or not: as a value it may hold anything. */
  datatype ScanPlan = ScanPlan(
    accepted: bool, reason: Option<string>, jobKey: string, requestedAt: string, readOnly: bool,
    shouldFetchSource: bool, shouldRunCli: bool, shouldPersistRawSource: bool, shouldPersistRawDiffs: bool,
    shouldCreatePrComment: bool,
    installationTokenScope: Option<TokenScope>, checkout: Option<Checkout>, cli: Option<Cli>, output: Option<Output>)

  datatype QueueRecord = QueueRecord(key: string, identity: Identity)

  const CHECKOUT_PLACEHOLDER := "<worker-checkout>"

  function CliArgs(baseSha: string): seq<string> {
    ["pr-risk", "--root", CHECKOUT_PLACEHOLDER, "--base", baseSha, "--json"]
  }

  datatype ScanRequest = ScanRequest(identity: Identity, jobKey: string, requestedAt: string, installationId: nat,
                                     selectedRepositoryIds: seq<nat>, removedRepositoryIds: seq<nat>,
                                     contents: Option<string>)

  /** `authorizeInstallationTokenScope`: the reason for refusing, if any. */
  function ScopeRefusal(r: ScanRequest): Option<string> {
    if r.installationId != r.identity.installationId then Some("installation_mismatch")
    else if r.identity.repositoryId in r.removedRepositoryIds then Some("repository_removed_from_installation")
    else if r.identity.repositoryId !in r.selectedRepositoryIds then Some("repository_not_installed")
    else None
  }

  /** `planHostedWorkerReadOnlyScan`. */
  function PlanReadOnlyScan(r: ScanRequest): ScanPlan {
    if ScopeRefusal(r).Some? then Refused(r, ScopeRefusal(r).value)
    else if r.contents != Some("read") then Refused(r, "contents_read_permission_required")
    else AcceptedPlan(r.identity, r.jobKey, r.requestedAt)
  }

  function Refused(r: ScanRequest, reason: string): ScanPlan {
    ScanPlan(false, Some(reason), r.jobKey, r.requestedAt, true, false, false, false, false, false, None, None, None,
             None)
  }

  function AcceptedPlan(i: Identity, jobKey: string, requestedAt: string): ScanPlan {
    ScanPlan(true, None, jobKey, requestedAt, true, true, true, false, false, false,
      Some(TokenScope(i.installationId, i.repositoryId, "read", true)),
      Some(Checkout(i.repositoryId, i.repositoryFullName, i.pullRequestNumber, i.baseSha, i.headSha,
                    "temporary_worker_directory", true, false)),
      Some(Cli("ai-saas-guard", CliArgs(i.baseSha), CHECKOUT_PLACEHOLDER, "disabled", "read_only")),
      Some(Output(true, false, false, false, false)))
  }

  predicate ArraysEqual(left: seq<string>, right: seq<string>) {
    |left| == |right| && forall i :: 0 <= i < |left| ==> left[i] == right[i]
  }

  /** `isTrustedFixedReadOnlyPlan`. */
  predicate IsTrustedFixedReadOnlyPlan(p: ScanPlan, record: QueueRecord) {
    var i := record.identity;
    && p.checkout.Some? && p.cli.Some? && p.installationTokenScope.Some? && p.output.Some?
    && p.jobKey == record.key
    && p.readOnly && p.shouldFetchSource && p.shouldRunCli
    && !p.shouldPersistRawSource && !p.shouldPersistRawDiffs && !p.shouldCreatePrComment
    && p.installationTokenScope.value.installationId == i.installationId
    && p.installationTokenScope.value.repositoryId == i.repositoryId
    && p.installationTokenScope.value.contents == "read"
    && p.installationTokenScope.value.selectedRepositoryOnly
    && p.checkout.value.repositoryId == i.repositoryId
    && p.checkout.value.repositoryFullName == i.repositoryFullName
    && p.checkout.value.pullRequestNumber == i.pullRequestNumber
    && p.checkout.value.baseSha == i.baseSha
    && p.checkout.value.targetCommitSha == i.headSha
    && p.checkout.value.directoryScope == "temporary_worker_directory"
    && p.checkout.value.cleanupRequired && !p.checkout.value.returnsCheckoutPath
    && p.cli.value.command == "ai-saas-guard"
    && p.cli.value.workingDirectory == CHECKOUT_PLACEHOLDER
    && p.cli.value.networkAccess == "disabled" && p.cli.value.writeMode == "read_only"
    && ArraysEqual(p.cli.value.args, CliArgs(i.baseSha))
    && p.output.value.compactJsonOnly && !p.output.value.persistRawSource && !p.output.value.persistRawDiffs
    && !p.output.value.persistSecrets && !p.output.value.persistCustomerPayloads
  }

  /** The two guards at the start of a run. */
  predicate Admits(p: ScanPlan, record: QueueRecord) {
    && p.accepted && p.readOnly && p.checkout.Some? && p.cli.Some? && p.cli.value.writeMode == "read_only"
    && IsTrustedFixedReadOnlyPlan(p, record)
  }

  /** Main result: the guard admits exactly the plan the planner makes for the record, and no other,
      up to the time of the request and the reason no accepted plan carries. */
  lemma AdmitsExactlyPlanned(p: ScanPlan, record: QueueRecord)
    ensures Admits(p, record) <==> p.(reason := None) == AcceptedPlan(record.identity, record.key, p.requestedAt)
  {
    if Admits(p, record) {
      assert p.cli.value.args == CliArgs(record.identity.baseSha);
      var planned := AcceptedPlan(record.identity, record.key, p.requestedAt);
      assert p.checkout.value == planned.checkout.value && p.cli.value == planned.cli.value;
    }
  }

  /** Main result: a plan made for a record's identity and key passes exactly when the request was for
      the right installation, a selected repository not removed, and read access to contents. */
  lemma PlannedPassesExactlyWhen(r: ScanRequest, record: QueueRecord)
    requires r.identity == record.identity && r.jobKey == record.key
    ensures Admits(PlanReadOnlyScan(r), record) <==>
      && r.installationId == r.identity.installationId && r.contents == Some("read")
      && r.identity.repositoryId in r.selectedRepositoryIds && r.identity.repositoryId !in r.removedRepositoryIds
  {
    AdmitsExactlyPlanned(PlanReadOnlyScan(r), record);
  }

  // ---------------------------------------------------------------- repository names

  predicate IsNameCharacter(c: char) {
    'A' <= c <= 'Z' || 'a' <= c <= 'z' || '0' <= c <= '9' || c in {'_', '.', '-'}
  }

  predicate IsPathSegment(s: string) {
    s != "" && s != "." && s != ".." && forall c <- s :: IsNameCharacter(c)
  }

  /** The index of the first slash, or the length. */
  function FirstSlash(s: string): (n: nat)
    ensures n <= |s| && '/' !in s[..n] && (n < |s| ==> s[n] == '/')
  {
    if s == "" || s[0] == '/' then 0
    else
      var n := FirstSlash(s[1..]);
      assert s[..1 + n] == [s[0]] + s[1..][..n];
      1 + n
  }

  /** `parseRepositoryFullName`: an owner and a repository with one slash between them. */
  function ParseRepositoryFullName(value: string): Option<(string, string)> {
    var n := FirstSlash(value);
    if n == |value| then None
    else
      var owner, repo := value[..n], value[n + 1..];
      if IsPathSegment(owner) && IsPathSegment(repo) then Some((owner, repo)) else None
  }

  lemma {:induction false} SlashIsFound(value: string, k: nat)
    requires k < |value| && value[k] == '/'
    ensures FirstSlash(value) <= k
  {
  }

  /** Exactly the names that are two plain path segments are accepted, and they are read back whole. */
  lemma RepositoryNameExactly(value: string, owner: string, repo: string)
    ensures ParseRepositoryFullName(value) == Some((owner, repo)) <==>
            value == owner + "/" + repo && IsPathSegment(owner) && IsPathSegment(repo)
  {
    var n := FirstSlash(value);
    if value == owner + "/" + repo && IsPathSegment(owner) && IsPathSegment(repo) {
      assert value[|owner|] == '/' && '/' !in owner;
      SlashIsFound(value, |owner|);
      assert value == value[..n] + "/" + value[n + 1..];
      SplitFirst(owner, repo, value[..n], value[n + 1..], '/');
    }
    if ParseRepositoryFullName(value) == Some((owner, repo)) {
      assert value == value[..n] + [value[n]] + value[n + 1..];
    }
  }

  // ---------------------------------------------------------------- actions

  datatype Stage = GitInit | GitRemoteAdd | GitFetchHead | GitFetchBase | GitCheckout | CliScan

  const STAGES := [GitInit, GitRemoteAdd, GitFetchHead, GitFetchBase, GitCheckout, CliScan]

  function StageName(s: Stage): string {
    match s
    case GitInit => "git_init"
    case GitRemoteAdd => "git_remote_add"
    case GitFetchHead => "git_fetch_head"
    case GitFetchBase => "git_fetch_base"
    case GitCheckout => "git_checkout"
    case CliScan => "cli_scan"
  }

  /** A command as it is started, with the environment the process gets. */
  datatype Command = Command(stage: Stage, program: string, args: seq<string>, cwd: string, env: map<string, string>)

  datatype Action =
    | RequestToken
    | MakeRoot
    | MakeDirectory
    | Restrict(directory: string)
    | WriteAskpass(path: string)
    | Run(command: Command)
    | RemoveAskpass(path: string)
    | Compact
    | CleanUp(directory: string)

  datatype TokenOutcome = Throws | NotAString | Token(text: string)

  /** How every call a run can make turns out. A stage that succeeds has an output; an output that
      compacts has a result. */
  datatype World = World(token: TokenOutcome, makesRoot: bool, directory: Option<string>, restricts: bool,
                         writesAskpass: bool, outputs: map<Stage, string>, removesAskpass: bool,
                         compacts: map<string, string>, cleansUp: bool)

  predicate Succeeds(w: World, a: Action) {
    match a
    case RequestToken => !w.token.Throws?
    case MakeRoot => w.makesRoot
    case MakeDirectory => w.directory.Some?
    case Restrict(_) => w.restricts
    case WriteAskpass(_) => w.writesAskpass
    case Run(c) => c.stage in w.outputs
    case RemoveAskpass(_) => w.removesAskpass
    case Compact => CliScan in w.outputs && w.outputs[CliScan] in w.compacts
    case CleanUp(_) => w.cleansUp
  }

  datatype Event = Event(action: Action, ok: bool)

  /** `Foreign` stands for errors thrown by others that pass through unchanged. */
  datatype Failure = Safe(reason: string) | Foreign

  datatype Result = Ok(value: string) | Err(failure: Failure)

  /** The options; a clone base address is what normalising it gave, if it is acceptable. */
  datatype Options = Options(cloneBaseUrl: Option<string>, gitCommand: Option<string>, cliCommand: Option<string>,
                             fetchDepth: Option<real>, customRunner: bool, hostPath: Option<string>)

  const DEFAULT_FETCH_DEPTH := 100
  const MAX_FETCH_DEPTH := 1000

  /** `clampPositiveInteger`, for a finite number or none. */
  function ClampPositiveInteger(value: Option<real>, fallback: nat, maximum: nat): (n: nat)
    requires 1 <= fallback <= maximum
    ensures 1 <= n <= maximum
    ensures value.None? ==> n == fallback
    ensures value.Some? ==> n == 1 || n as real <= value.value
    ensures value.Some? ==> n == maximum || value.value < n as real + 1.0
  {
    if value.None? then fallback
    else
      var whole := value.value.Floor;
      var atLeastOne := if whole > 1 then whole else 1;
      if maximum < atLeastOne then maximum else atLeastOne
  }

  const TOKEN_VARIABLE := "AI_SAAS_GUARD_GITHUB_TOKEN"

  /** `safeWorkerEnv` without extras. */
  function SafeEnv(directory: string, o: Options): map<string, string> {
    map["PATH" := if o.hostPath.Some? then o.hostPath.value else "/usr/bin:/bin",
        "HOME" := directory, "TMPDIR" := directory, "CI" := "true", "NO_COLOR" := "1"]
  }

  function AskpassPath(directory: string): string { directory + "/.git-askpass.sh" }

  function GitEnv(directory: string, o: Options): map<string, string> {
    SafeEnv(directory, o) +
    map["GIT_ASKPASS" := AskpassPath(directory), "GIT_TERMINAL_PROMPT" := "0",
        "GIT_CONFIG_NOSYSTEM" := "1", "GIT_CONFIG_GLOBAL" := "/dev/null"]
  }

  /** `runCommand`: the secret variables are added only for a process the worker starts itself. */
  function ProcessEnv(o: Options, env: map<string, string>, secretEnv: map<string, string>): map<string, string> {
    if o.customRunner then env else env + secretEnv
  }

  /** What a run that passed the tests of its plan works with. */
  datatype Job = Job(options: Options, checkout: Checkout, cli: Cli, cloneUrl: string)

  function GitArgs(stage: Stage, job: Job): seq<string> {
    var depth := Decimal(ClampPositiveInteger(job.options.fetchDepth, DEFAULT_FETCH_DEPTH, MAX_FETCH_DEPTH));
    match stage
    case GitInit => ["init"]
    case GitRemoteAdd => ["remote", "add", "origin", job.cloneUrl]
    case GitFetchHead => ["fetch", "--no-tags", "--depth", depth, "origin", job.checkout.targetCommitSha]
    case GitFetchBase => ["fetch", "--no-tags", "--depth", depth, "origin", job.checkout.baseSha]
    case GitCheckout => ["checkout", "--detach", job.checkout.targetCommitSha]
    case CliScan => []
  }

  function GitCommand(stage: Stage, job: Job, token: string, directory: string): Command {
    var o := job.options;
    Command(stage, if o.gitCommand.Some? then o.gitCommand.value else "git", GitArgs(stage, job), directory,
            ProcessEnv(o, GitEnv(directory, o), map[TOKEN_VARIABLE := token]))
  }

  function CliCommand(job: Job, directory: string): Command {
    var o, args := job.options, job.cli.args;
    Command(CliScan, if o.cliCommand.Some? then o.cliCommand.value else job.cli.command,
            seq(|args|, i requires 0 <= i < |args| => if args[i] == CHECKOUT_PLACEHOLDER then directory else args[i]),
            directory, ProcessEnv(o, SafeEnv(directory, o), map[]))
  }

  // ---------------------------------------------------------------- the specification of a run

  /** The ten steps between making the directory and cleaning up. */
  function StepAt(job: Job, token: string, directory: string, i: nat): Action {
    if i == 0 then Restrict(directory)
    else if i == 1 then WriteAskpass(AskpassPath(directory))
    else if i <= 6 then Run(GitCommand(STAGES[i - 2], job, token, directory))
    else if i == 7 then RemoveAskpass(AskpassPath(directory))
    else if i == 8 then Run(CliCommand(job, directory))
    else Compact
  }

  function Steps(job: Job, token: string, directory: string): (s: seq<Action>)
    ensures |s| == 10
  {
    seq(10, i requires 0 <= i < 10 => StepAt(job, token, directory, i))
  }

  /** Steps are taken in order up to and including the first that fails. */
  function Attempt(w: World, steps: seq<Action>): seq<Event> {
    if steps == [] then []
    else if Succeeds(w, steps[0]) then [Event(steps[0], true)] + Attempt(w, steps[1..])
    else [Event(steps[0], false)]
  }

  function FirstFailure(w: World, steps: seq<Action>): Option<Action> {
    if steps == [] then None
    else if Succeeds(w, steps[0]) then FirstFailure(w, steps[1..])
    else Some(steps[0])
  }

  /** The safe reason a failed step is reported under. */
  function Reason(a: Action): string {
    match a
    case Run(c) => StageName(c.stage) + "_failed"
    case Compact => "invalid_cli_output"
    case _ => "cli_scan_failed"
  }

  function StepsResult(w: World, steps: seq<Action>): Result {
    var failed := FirstFailure(w, steps);
    if failed.Some? then Err(Safe(Reason(failed.value)))
    else if Succeeds(w, Compact) then Ok(w.compacts[w.outputs[CliScan]])
    else Err(Foreign)
  }

  datatype Preparation = Ready(job: Job) | Rejected(reason: string)

  /** The tests before the first effect. */
  function Prepare(p: ScanPlan, record: QueueRecord, o: Options): Preparation {
    if !Admits(p, record) then Rejected("invalid_worker_plan")
    else
      var repository := ParseRepositoryFullName(p.checkout.value.repositoryFullName);
      if repository.None? then Rejected("invalid_repository_full_name")
      else if o.cloneBaseUrl.None? then Rejected("invalid_clone_base_url")
      else Ready(Job(o, p.checkout.value, p.cli.value,
                     o.cloneBaseUrl.value + "/" + repository.value.0 + "/" + repository.value.1 + ".git"))
  }

  predicate HasToken(w: World) { w.token.Token? && Trim(w.token.text) != "" }

  predicate MakesDirectory(w: World) { HasToken(w) && w.makesRoot && w.directory.Some? }

  /** The steps of a run that gets as far as its directory. */
  function StepsOf(job: Job, w: World): seq<Action>
    requires MakesDirectory(w)
  {
    Steps(job, w.token.text, w.directory.value)
  }

  /** The trace of a run that makes a directory and then takes these steps. */
  function FullTrace(w: World, steps: seq<Action>): seq<Event>
    requires w.directory.Some?
  {
    [Event(RequestToken, true), Event(MakeRoot, true), Event(MakeDirectory, true)] +
    Attempt(w, steps) + [Event(CleanUp(w.directory.value), w.cleansUp)]
  }

  function Trace(job: Job, w: World): seq<Event> {
    if MakesDirectory(w) then FullTrace(w, StepsOf(job, w))
    else if !HasToken(w) then [Event(RequestToken, !w.token.Throws?)]
    else if !w.makesRoot then [Event(RequestToken, true), Event(MakeRoot, false)]
    else [Event(RequestToken, true), Event(MakeRoot, true), Event(MakeDirectory, false)]
  }

  function RunResult(job: Job, w: World): Result {
    if MakesDirectory(w) then if w.cleansUp then StepsResult(w, StepsOf(job, w)) else Err(Safe("cleanup_failed"))
    else if w.token.Throws? || HasToken(w) then Err(Foreign)
    else Err(Safe("missing_installation_token"))
  }

  // ---------------------------------------------------------------- the runner

  lemma {:induction false} AttemptExtends(w: World, steps: seq<Action>, k: nat)
    requires k < |steps| && FirstFailure(w, steps[..k]).None?
    ensures Attempt(w, steps[..k + 1]) == Attempt(w, steps[..k]) + [Event(steps[k], Succeeds(w, steps[k]))]
    ensures Succeeds(w, steps[k]) ==> FirstFailure(w, steps[..k + 1]).None?
    ensures !Succeeds(w, steps[k]) ==>
              Attempt(w, steps) == Attempt(w, steps[..k + 1]) && FirstFailure(w, steps) == Some(steps[k])
  {
    if k > 0 {
      assert steps[..k][0] == steps[0] == steps[..k + 1][0];
      assert steps[..k][1..] == steps[1..][..k - 1] && steps[..k + 1][1..] == steps[1..][..k];
      AttemptExtends(w, steps[1..], k - 1);
    }
  }

  ghost predicate GitStepsAre(steps: seq<Action>, job: Job, token: string, directory: string) {
    && |steps| == 10
    && steps[2] == Run(GitCommand(GitInit, job, token, directory))
    && steps[3] == Run(GitCommand(GitRemoteAdd, job, token, directory))
    && steps[4] == Run(GitCommand(GitFetchHead, job, token, directory))
    && steps[5] == Run(GitCommand(GitFetchBase, job, token, directory))
    && steps[6] == Run(GitCommand(GitCheckout, job, token, directory))
  }

  ghost predicate OtherStepsAre(steps: seq<Action>, job: Job, directory: string) {
    && |steps| == 10
    && steps[0] == Restrict(directory) && steps[1] == WriteAskpass(AskpassPath(directory))
    && steps[7] == RemoveAskpass(AskpassPath(directory)) && steps[8] == Run(CliCommand(job, directory))
    && steps[9] == Compact
  }

  lemma StepsAre(job: Job, token: string, directory: string)
    ensures GitStepsAre(Steps(job, token, directory), job, token, directory)
    ensures OtherStepsAre(Steps(job, token, directory), job, directory)
  {
  }

  /** The worker: what it does is recorded, and turns out as its world says. */
  class Worker {
    const world: World
    var trace: seq<Event>

    constructor (world: World)
      ensures this.world == world && trace == []
    {
      this.world, trace := world, [];
    }

    method Do(action: Action) returns (ok: bool)
      modifies this
      ensures ok == Succeeds(world, action) && trace == old(trace) + [Event(action, ok)]
    {
      ok := Succeeds(world, action);
      trace := trace + [Event(action, ok)];
    }

    /** The first `k` steps went well, and the trace since `start` shows them. */
    ghost predicate At(steps: seq<Action>, k: nat, start: seq<Event>)
      requires k <= |steps|
      reads this
    {
      FirstFailure(world, steps[..k]).None? && trace == start + Attempt(world, steps[..k])
    }

    /** `Do`, as step `k` of a run, with the reason if it fails. */
    method Step(ghost steps: seq<Action>, ghost k: nat, ghost start: seq<Event>, action: Action)
      returns (failed: Option<string>)
      requires k < |steps| && steps[k] == action && At(steps, k, start)
      modifies this
      ensures failed.None? ==> Succeeds(world, action) && At(steps, k + 1, start)
      ensures failed.Some? ==>
                StepsResult(world, steps) == Err(Safe(failed.value)) && trace == start + Attempt(world, steps)
    {
      AttemptExtends(world, steps, k);
      var ok := Do(action);
      failed := if ok then None else Some(Reason(action));
    }

    /** The commands that use the token. */
    method RunGit(job: Job, token: string, directory: string, ghost steps: seq<Action>, ghost start: seq<Event>)
      returns (failed: Option<string>)
      requires GitStepsAre(steps, job, token, directory) && At(steps, 2, start)
      modifies this
      ensures failed.None? ==> At(steps, 7, start)
      ensures failed.Some? ==>
                StepsResult(world, steps) == Err(Safe(failed.value)) && trace == start + Attempt(world, steps)
    {
      failed := Step(steps, 2, start, Run(GitCommand(GitInit, job, token, directory)));
      if failed.Some? { return; }
      failed := Step(steps, 3, start, Run(GitCommand(GitRemoteAdd, job, token, directory)));
      if failed.Some? { return; }
      failed := Step(steps, 4, start, Run(GitCommand(GitFetchHead, job, token, directory)));
      if failed.Some? { return; }
      failed := Step(steps, 5, start, Run(GitCommand(GitFetchBase, job, token, directory)));
      if failed.Some? { return; }
      failed := Step(steps, 6, start, Run(GitCommand(GitCheckout, job, token, directory)));
    }

    /** The `try` block. */
    method RunSteps(job: Job, token: string, directory: string, ghost steps: seq<Action>) returns (r: Result)
      requires GitStepsAre(steps, job, token, directory) && OtherStepsAre(steps, job, directory)
      modifies this
      ensures trace == old(trace) + Attempt(world, steps) && r == StepsResult(world, steps)
    {
      ghost var start := trace;
      var failed := Step(steps, 0, start, Restrict(directory));
      if failed.Some? { return Err(Safe(failed.value)); }
      failed := Step(steps, 1, start, WriteAskpass(AskpassPath(directory)));
      if failed.Some? { return Err(Safe(failed.value)); }
      failed := RunGit(job, token, directory, steps, start);
      if failed.Some? { return Err(Safe(failed.value)); }
      r := RunScan(job, directory, steps, start);
    }

    /** Giving up the askpass file, and the scan. */
    method RunScan(job: Job, directory: string, ghost steps: seq<Action>, ghost start: seq<Event>) returns (r: Result)
      requires OtherStepsAre(steps, job, directory) && At(steps, 7, start)
      modifies this
      ensures trace == start + Attempt(world, steps) && r == StepsResult(world, steps)
    {
      var failed := Step(steps, 7, start, RemoveAskpass(AskpassPath(directory)));
      if failed.Some? { return Err(Safe(failed.value)); }
      failed := Step(steps, 8, start, Run(CliCommand(job, directory)));
      if failed.Some? { return Err(Safe(failed.value)); }
      failed := Step(steps, 9, start, Compact);
      if failed.Some? { return Err(Safe(failed.value)); }
      assert steps[..10] == steps;
      return Ok(world.compacts[world.outputs[CliScan]]);
    }

    /** `runHostedReadOnlyCheckoutScan`. */
    method RunReadOnlyCheckoutScan(p: ScanPlan, record: QueueRecord, o: Options) returns (r: Result)
      modifies this
      ensures match Prepare(p, record, o)
        case Rejected(reason) => trace == old(trace) && r == Err(Safe(reason))
        case Ready(job) => trace == old(trace) + Trace(job, world) && r == RunResult(job, world)
    {
      if !Admits(p, record) { return Err(Safe("invalid_worker_plan")); }
      var repository := ParseRepositoryFullName(p.checkout.value.repositoryFullName);
      if repository.None? { return Err(Safe("invalid_repository_full_name")); }
      if o.cloneBaseUrl.None? { return Err(Safe("invalid_clone_base_url")); }
      var cloneUrl := o.cloneBaseUrl.value + "/" + repository.value.0 + "/" + repository.value.1 + ".git";
      r := RunJob(Job(o, p.checkout.value, p.cli.value, cloneUrl));
    }

    /** Its part from the request for a token on. */
    method RunJob(job: Job) returns (r: Result)
      modifies this
      ensures trace == old(trace) + Trace(job, world) && r == RunResult(job, world)
    {
      var ok := Do(RequestToken);
      if !ok { return Err(Foreign); }
      if !world.token.Token? || Trim(world.token.text) == "" { return Err(Safe("missing_installation_token")); }
      ok := Do(MakeRoot);
      if !ok { return Err(Foreign); }
      ok := Do(MakeDirectory);
      if !ok { return Err(Foreign); }
      r := RunInDirectory(job, world.token.text, world.directory.value, StepsOf(job, world));
      assert trace == old(trace) + FullTrace(world, StepsOf(job, world));
    }

    /** The `try` block and the `finally` after it. */
    method RunInDirectory(job: Job, token: string, directory: string, ghost steps: seq<Action>) returns (r: Result)
      requires steps == Steps(job, token, directory)
      modifies this
      ensures trace == old(trace) + Attempt(world, steps) + [Event(CleanUp(directory), world.cleansUp)]
      ensures r == if world.cleansUp then StepsResult(world, steps) else Err(Safe("cleanup_failed"))
    {
      StepsAre(job, token, directory);
      r := RunSteps(job, token, directory, steps);
      var ok := Do(CleanUp(directory));
      if !ok { r := Err(Safe("cleanup_failed")); }
    }
  }

  // ---------------------------------------------------------------- what every run keeps

  lemma {:induction false} AttemptIsPrefix(w: World, steps: seq<Action>)
    ensures |Attempt(w, steps)| <= |steps|
    ensures forall i :: 0 <= i < |Attempt(w, steps)| ==> Attempt(w, steps)[i] == Event(steps[i], Succeeds(w, steps[i]))
    ensures forall i :: 0 <= i < |Attempt(w, steps)| - 1 ==> Attempt(w, steps)[i].ok
    ensures FirstFailure(w, steps).None? ==>
              |Attempt(w, steps)| == |steps| && forall i :: 0 <= i < |steps| ==> Succeeds(w, steps[i])
    ensures (forall i :: 0 <= i < |steps| ==> Succeeds(w, steps[i])) ==> FirstFailure(w, steps).None?
  {
    if steps != [] && Succeeds(w, steps[0]) { AttemptIsPrefix(w, steps[1..]); }
  }

  /** The stages of the commands of a trace, in order. */
  function StagesOf(trace: seq<Event>): seq<Stage> {
    if trace == [] then []
    else (if trace[0].action.Run? then [trace[0].action.command.stage] else []) + StagesOf(trace[1..])
  }

  lemma {:induction false} StagesAppend(a: seq<Event>, b: seq<Event>)
    ensures StagesOf(a + b) == StagesOf(a) + StagesOf(b)
  {
    if a == [] {
      assert a + b == b;
    } else {
      assert (a + b)[1..] == a[1..] + b;
      StagesAppend(a[1..], b);
    }
  }

  /** The number of commands among the first `n` of the ten steps. */
  function Commands(n: nat): nat { if n <= 2 then 0 else if n <= 7 then n - 2 else if n == 8 then 5 else 6 }

  /** Which of the ten steps are commands, and of what stage. */
  ghost predicate Shaped(steps: seq<Action>, directory: string) {
    && |steps| == 10
    && (forall i :: 0 <= i < 10 ==>
         && (steps[i].Run? <==> 2 <= i <= 6 || i == 8) && (steps[i].WriteAskpass? <==> i == 1)
         && !steps[i].CleanUp? && !steps[i].RequestToken? && !steps[i].MakeRoot? && !steps[i].MakeDirectory?)
    && (forall i :: 2 <= i <= 6 ==> steps[i].command.stage == STAGES[i - 2])
    && steps[8].command.stage == CliScan
    && steps[1] == WriteAskpass(AskpassPath(directory)) && steps[7] == RemoveAskpass(AskpassPath(directory))
  }

  lemma StepsAreShaped(job: Job, token: string, directory: string)
    ensures Shaped(Steps(job, token, directory), directory)
  {
  }

  lemma NextCommand(n: nat)
    requires 1 <= n <= 10
    ensures STAGES[..Commands(n)] ==
      STAGES[..Commands(n - 1)] + if 3 <= n <= 7 then [STAGES[n - 3]] else if n == 9 then [CliScan] else []
  {
  }

  lemma {:induction false} StagesOfAttempt(steps: seq<Action>, directory: string, events: seq<Event>)
    requires Shaped(steps, directory) && |events| <= 10
    requires forall i :: 0 <= i < |events| ==> events[i].action == steps[i]
    ensures StagesOf(events) == STAGES[..Commands(|events|)]
  {
    if events != [] {
      var front, last := events[..|events| - 1], events[|events| - 1];
      assert events == front + [last];
      StagesOfAttempt(steps, directory, front);
      StagesAppend(front, [last]);
      assert StagesOf([last]) == if last.action.Run? then [last.action.command.stage] else [];
      var n := |events|;
      assert last.action == steps[n - 1];
      NextCommand(n);
    }
  }

  lemma {:induction false} NoStages(trace: seq<Event>)
    requires forall e <- trace :: !e.action.Run?
    ensures StagesOf(trace) == []
  {
    if trace != [] { NoStages(trace[1..]); }
  }

  lemma StagesOfFullTrace(w: World, steps: seq<Action>, directory: string)
    requires w.directory.Some? && Shaped(steps, directory)
    ensures StagesOf(FullTrace(w, steps)) == STAGES[..Commands(|Attempt(w, steps)|)]
  {
    var before := [Event(RequestToken, true), Event(MakeRoot, true), Event(MakeDirectory, true)];
    var after := [Event(CleanUp(w.directory.value), w.cleansUp)];
    AttemptIsPrefix(w, steps);
    StagesOfAttempt(steps, directory, Attempt(w, steps));
    StagesAppend(before, Attempt(w, steps));
    StagesAppend(before + Attempt(w, steps), after);
    NoStages(before);
    NoStages(after);
  }

  /** Main result: under every failure pattern the commands started are a first part of the fixed six. */
  lemma CommandsArePrefixOfSix(job: Job, w: World)
    ensures StagesOf(Trace(job, w)) <= STAGES
  {
    if MakesDirectory(w) {
      StepsAreShaped(job, w.token.text, w.directory.value);
      StagesOfFullTrace(w, StepsOf(job, w), w.directory.value);
    } else {
      NoStages(Trace(job, w));
    }
  }

  predicate StartsCli(e: Event) { e.action.Run? && e.action.command.stage == CliScan }

  lemma FullTraceAt(w: World, steps: seq<Action>, directory: string, k: nat)
    requires w.directory.Some? && Shaped(steps, directory) && k < |FullTrace(w, steps)|
    requires FullTrace(w, steps)[k].action.Run? || FullTrace(w, steps)[k].action.WriteAskpass?
    ensures 3 <= k < 13 && FullTrace(w, steps)[k].action == steps[k - 3]
    ensures forall j :: 3 <= j < k ==> FullTrace(w, steps)[j] == Event(steps[j - 3], true)
  {
    AttemptIsPrefix(w, steps);
    var attempt := Attempt(w, steps);
    assert forall j :: 3 <= j < 3 + |attempt| ==> FullTrace(w, steps)[j] == attempt[j - 3];
  }

  lemma AskpassRemovedAt(w: World, steps: seq<Action>, directory: string, k: nat)
    requires w.directory.Some? && Shaped(steps, directory)
    requires k < |FullTrace(w, steps)| && StartsCli(FullTrace(w, steps)[k])
    ensures k == 11 && FullTrace(w, steps)[10] == Event(RemoveAskpass(AskpassPath(directory)), true)
    ensures forall j :: 0 <= j < |FullTrace(w, steps)| && FullTrace(w, steps)[j].action.WriteAskpass? ==>
              j == 4 && FullTrace(w, steps)[j].action == WriteAskpass(AskpassPath(directory))
  {
    FullTraceAt(w, steps, directory, k);
    forall j | 0 <= j < |FullTrace(w, steps)| && FullTrace(w, steps)[j].action.WriteAskpass?
      ensures j == 4 && FullTrace(w, steps)[j].action == WriteAskpass(AskpassPath(directory))
    {
      FullTraceAt(w, steps, directory, j);
    }
  }

  /** Main result: when the scan starts, the askpass file has been removed, successfully, and it is not
      written again. */
  lemma AskpassIsGoneBeforeCli(job: Job, w: World, k: nat) returns (removal: nat, path: string)
    requires k < |Trace(job, w)| && StartsCli(Trace(job, w)[k])
    ensures removal < k && Trace(job, w)[removal] == Event(RemoveAskpass(path), true)
    ensures forall j :: 0 <= j < |Trace(job, w)| && Trace(job, w)[j].action.WriteAskpass? ==>
              j < removal && Trace(job, w)[j].action == WriteAskpass(path)
  {
    StepsAreShaped(job, w.token.text, w.directory.value);
    AskpassRemovedAt(w, StepsOf(job, w), w.directory.value, k);
    removal, path := 10, AskpassPath(w.directory.value);
  }

  /** What the scan is started with. Every placeholder is replaced, so a base commit that is spelt like
      the placeholder becomes the directory too. */
  function ScanArgs(baseSha: string, directory: string): seq<string> {
    ["pr-risk", "--root", directory, "--base", if baseSha == CHECKOUT_PLACEHOLDER then directory else baseSha, "--json"]
  }

  /** Main result: the scan's process gets five plain variables, neither the token nor anything that
      would let it ask for it, and for a plan the guard admits one fixed list of arguments. */
  lemma CliSeesNoSecret(p: ScanPlan, record: QueueRecord, o: Options, w: World, k: nat)
    requires Prepare(p, record, o).Ready?
    requires var trace := Trace(Prepare(p, record, o).job, w); k < |trace| && StartsCli(trace[k])
    ensures w.directory.Some?
    ensures var c := Trace(Prepare(p, record, o).job, w)[k].action.command;
      && c.env.Keys == {"PATH", "HOME", "TMPDIR", "CI", "NO_COLOR"}
      && c.args == ScanArgs(record.identity.baseSha, w.directory.value)
  {
    var job := Prepare(p, record, o).job;
    CliCommandOfTrace(job, w, k);
    ReadyCli(p, record, o);
    CliCommandIsPlain(job, record.identity.baseSha, w.directory.value);
  }

  /** Both ways: the record's base commit is what the scan gets as its base exactly if it is not spelt like
      the placeholder, or happens to be the directory. */
  lemma BaseIsPassedExactlyWhen(p: ScanPlan, record: QueueRecord, o: Options, w: World, k: nat)
    requires Prepare(p, record, o).Ready?
    requires var trace := Trace(Prepare(p, record, o).job, w); k < |trace| && StartsCli(trace[k])
    ensures var args, baseSha := Trace(Prepare(p, record, o).job, w)[k].action.command.args, record.identity.baseSha;
      && w.directory.Some? && |args| == 6 && args[3] == "--base"
      && (args[4] == baseSha <==> baseSha != "<worker-checkout>" || w.directory == Some(baseSha))
  {
    CliSeesNoSecret(p, record, o, w, k);
  }

  /** A world in which everything succeeds. */
  function GoodWorld(directory: string): World {
    World(Token("t"), true, Some(directory), true, true, map s: Stage {:trigger StageName(s)} | true :: "", true,
          map["" := ""], true)
  }

  /** A record whose base commit is the placeholder. */
  const PLACEHOLDER_RECORD := QueueRecord("key", Identity(1, 2, "o/r", 3, CHECKOUT_PLACEHOLDER, "head", "1"))

  lemma PlaceholderIsReady(o: Options, requestedAt: string)
    requires o.cloneBaseUrl.Some?
    ensures var record := PLACEHOLDER_RECORD;
      Prepare(AcceptedPlan(record.identity, record.key, requestedAt), record, o).Ready?
  {
    var record := PLACEHOLDER_RECORD;
    AdmitsExactlyPlanned(AcceptedPlan(record.identity, record.key, requestedAt), record);
    assert record.identity.repositoryFullName == "o" + "/" + "r";
    RepositoryNameExactly(record.identity.repositoryFullName, "o", "r");
  }

  lemma GoodWorldScans(job: Job, directory: string)
    ensures |Trace(job, GoodWorld(directory))| > 11 && StartsCli(Trace(job, GoodWorld(directory))[11])
  {
    var w := GoodWorld(directory);
    assert Trim("t") != "";
    StepsAreShaped(job, "t", directory);
    AttemptIsPrefix(w, StepsOf(job, w));
    AllSucceeds(w, StepsOf(job, w));
    assert Trace(job, w)[11] == Attempt(w, StepsOf(job, w))[8];
  }

  lemma {:induction false} AllSucceeds(w: World, steps: seq<Action>)
    requires forall a <- steps :: Succeeds(w, a)
    ensures |Attempt(w, steps)| == |steps|
  {
    if steps != [] { AllSucceeds(w, steps[1..]); }
  }

  /** So for the plan made for that record the scan compares with the directory instead. */
  lemma PlaceholderIsReplaced(o: Options, directory: string, requestedAt: string)
    requires o.cloneBaseUrl.Some?
    ensures var record := PLACEHOLDER_RECORD;
      var ready, w := Prepare(AcceptedPlan(record.identity, record.key, requestedAt), record, o), GoodWorld(directory);
      && ready.Ready? && |Trace(ready.job, w)| > 11 && StartsCli(Trace(ready.job, w)[11])
      && Trace(ready.job, w)[11].action.command.args == ["pr-risk", "--root", directory, "--base", directory, "--json"]
  {
    var record := PLACEHOLDER_RECORD;
    var p := AcceptedPlan(record.identity, record.key, requestedAt);
    PlaceholderIsReady(o, requestedAt);
    GoodWorldScans(Prepare(p, record, o).job, directory);
    CliSeesNoSecret(p, record, o, GoodWorld(directory), 11);
  }

  lemma CliCommandOfTrace(job: Job, w: World, k: nat)
    requires k < |Trace(job, w)| && StartsCli(Trace(job, w)[k])
    ensures w.directory.Some? && Trace(job, w)[k].action.command == CliCommand(job, w.directory.value)
  {
    var steps := StepsOf(job, w);
    StepsAreShaped(job, w.token.text, w.directory.value);
    AskpassRemovedAt(w, steps, w.directory.value, k);
    FullTraceAt(w, steps, w.directory.value, k);
    assert steps[8] == StepAt(job, w.token.text, w.directory.value, 8);
  }

  lemma ReadyCli(p: ScanPlan, record: QueueRecord, o: Options)
    requires Prepare(p, record, o).Ready?
    ensures Prepare(p, record, o).job.cli.args == CliArgs(record.identity.baseSha)
  {
  }

  lemma CliCommandIsPlain(job: Job, baseSha: string, directory: string)
    requires job.cli.args == CliArgs(baseSha)
    ensures CliCommand(job, directory).env.Keys == {"PATH", "HOME", "TMPDIR", "CI", "NO_COLOR"}
    ensures CliCommand(job, directory).args == ScanArgs(baseSha, directory)
  {
  }

  // ---------------------------------------------------------------- where the token goes

  function Redact(e: Event): Event {
    if e.action.Run? && e.action.command.stage != CliScan
    then e.(action := Run(e.action.command.(env := e.action.command.env - {TOKEN_VARIABLE})))
    else e
  }

  function Redacted(trace: seq<Event>): (r: seq<Event>)
    ensures |r| == |trace| && forall i :: 0 <= i < |trace| ==> r[i] == Redact(trace[i])
  {
    seq(|trace|, i requires 0 <= i < |trace| => Redact(trace[i]))
  }

  lemma GitCommandHidesToken(stage: Stage, job: Job, t: string, u: string, directory: string, ok: bool)
    requires stage != CliScan
    ensures Redact(Event(Run(GitCommand(stage, job, t, directory)), ok))
         == Redact(Event(Run(GitCommand(stage, job, u, directory)), ok))
  {
    var env := GitEnv(directory, job.options);
    assert (env + map[TOKEN_VARIABLE := t]) - {TOKEN_VARIABLE} == (env + map[TOKEN_VARIABLE := u]) - {TOKEN_VARIABLE};
  }

  /** The same steps but for the token. */
  ghost predicate SameButToken(steps: seq<Action>, others: seq<Action>) {
    && |steps| == |others|
    && forall i, ok :: 0 <= i < |steps| ==> Redact(Event(steps[i], ok)) == Redact(Event(others[i], ok))
  }

  lemma StepsHideToken(job: Job, t: string, u: string, directory: string)
    ensures SameButToken(Steps(job, t, directory), Steps(job, u, directory))
  {
    var steps, others := Steps(job, t, directory), Steps(job, u, directory);
    forall i: nat, ok | i < 10 ensures Redact(Event(steps[i], ok)) == Redact(Event(others[i], ok)) {
      if 2 <= i <= 6 {
        GitCommandHidesToken(STAGES[i - 2], job, t, u, directory, ok);
      }
    }
  }

  lemma SameAction(w: World, v: World, a: Action, b: Action)
    requires v == w.(token := v.token) && !a.RequestToken? && Redact(Event(a, true)) == Redact(Event(b, true))
    ensures Succeeds(w, a) == Succeeds(v, b) && Reason(a) == Reason(b)
  {
  }

  ghost predicate SameOutcomes(w: World, v: World, steps: seq<Action>, others: seq<Action>) {
    && |steps| == |others|
    && forall i :: 0 <= i < |steps| ==>
         Succeeds(w, steps[i]) == Succeeds(v, others[i]) && Reason(steps[i]) == Reason(others[i])
  }

  lemma {:induction false} SameOutcomesSameEnd(w: World, v: World, steps: seq<Action>, others: seq<Action>)
    requires SameOutcomes(w, v, steps, others)
    ensures |Attempt(w, steps)| == |Attempt(v, others)|
    ensures FirstFailure(w, steps).None? <==> FirstFailure(v, others).None?
    ensures FirstFailure(w, steps).Some? ==>
            Reason(FirstFailure(w, steps).value) == Reason(FirstFailure(v, others).value)
  {
    if steps != [] && Succeeds(w, steps[0]) { SameOutcomesSameEnd(w, v, steps[1..], others[1..]); }
  }

  lemma AttemptHidesToken(w: World, v: World, steps: seq<Action>, others: seq<Action>)
    requires v == w.(token := v.token) && SameButToken(steps, others) && forall a <- steps :: !a.RequestToken?
    ensures SameOutcomes(w, v, steps, others)
    ensures Redacted(Attempt(w, steps)) == Redacted(Attempt(v, others))
  {
    forall i | 0 <= i < |steps|
      ensures Succeeds(w, steps[i]) == Succeeds(v, others[i]) && Reason(steps[i]) == Reason(others[i])
    {
      assert steps[i] in steps && Redact(Event(steps[i], true)) == Redact(Event(others[i], true));
      SameAction(w, v, steps[i], others[i]);
    }
    SameOutcomesSameEnd(w, v, steps, others);
    AttemptIsPrefix(w, steps);
    AttemptIsPrefix(v, others);
    forall i | 0 <= i < |Attempt(w, steps)| ensures Redacted(Attempt(w, steps))[i] == Redacted(Attempt(v, others))[i] {
      var ok := Succeeds(w, steps[i]);
      assert Redact(Event(steps[i], ok)) == Redact(Event(others[i], ok));
    }
  }

  lemma RedactedParts(a: seq<Event>, b: seq<Event>, c: seq<Event>)
    ensures Redacted(a + b + c) == Redacted(a) + Redacted(b) + Redacted(c)
  {
  }

  lemma FullTraceHidesToken(w: World, v: World, steps: seq<Action>, others: seq<Action>)
    requires w.directory.Some? && v == w.(token := v.token)
    requires SameButToken(steps, others) && forall a <- steps :: !a.RequestToken?
    ensures Redacted(FullTrace(w, steps)) == Redacted(FullTrace(v, others)) &&
            StepsResult(w, steps) == StepsResult(v, others)
  {
    AttemptHidesToken(w, v, steps, others);
    SameOutcomesSameEnd(w, v, steps, others);
    var before := [Event(RequestToken, true), Event(MakeRoot, true), Event(MakeDirectory, true)];
    var after := [Event(CleanUp(w.directory.value), w.cleansUp)];
    RedactedParts(before, Attempt(w, steps), after);
    RedactedParts(before, Attempt(v, others), after);
  }

  /** Main result: the token goes into one variable of the git processes and nowhere else. With another
      token and the same outcomes, a run does the same things in the same way, but for that variable,
      and ends the same; the scan's own command does not change at all. */
  lemma TokenStaysWithGit(job: Job, w: World, other: string)
    requires HasToken(w) && HasToken(w.(token := Token(other)))
    ensures var v := w.(token := Token(other));
      Redacted(Trace(job, v)) == Redacted(Trace(job, w)) && RunResult(job, v) == RunResult(job, w)
  {
    if MakesDirectory(w) {
      StepsHideToken(job, w.token.text, other, w.directory.value);
      StepsAreShaped(job, w.token.text, w.directory.value);
      FullTraceHidesToken(w, w.(token := Token(other)), StepsOf(job, w), Steps(job, other, w.directory.value));
    }
  }

  lemma AttemptEnds(w: World, steps: seq<Action>, k: nat)
    requires 0 < k == |Attempt(w, steps)| < |steps|
    ensures !Attempt(w, steps)[k - 1].ok
  {
    AttemptIsPrefix(w, steps);
    if FirstFailure(w, steps).Some? { FailureIsRecorded(w, steps); }
  }

  /** The first `n` of these events went alike. */
  ghost predicate WentAlike(a: seq<Event>, b: seq<Event>, n: nat) {
    n <= |a| && n <= |b| && forall k :: 0 <= k < n ==> a[k].ok == b[k].ok
  }

  lemma AttemptsGoOnAlike(w: World, v: World, steps: seq<Action>, others: seq<Action>, n: nat)
    requires |steps| == |others| > 0 && WentAlike(Attempt(w, steps), Attempt(v, others), n)
    ensures n < |Attempt(w, steps)| ==> n < |Attempt(v, others)|
  {
    AttemptIsPrefix(w, steps);
    AttemptIsPrefix(v, others);
    if n == |Attempt(v, others)| < |Attempt(w, steps)| { AttemptEnds(v, others, n); }
  }

  lemma FullTraceParts(w: World, steps: seq<Action>, k: nat)
    requires w.directory.Some? && k < |FullTrace(w, steps)|
    ensures |FullTrace(w, steps)| == |Attempt(w, steps)| + 4
    ensures 3 <= k < 3 + |Attempt(w, steps)| ==>
              FullTrace(w, steps)[k] == Attempt(w, steps)[k - 3] && k - 3 < |steps| &&
                FullTrace(w, steps)[k].action == steps[k - 3]
    ensures k == 3 + |Attempt(w, steps)| ==> FullTrace(w, steps)[k].action == CleanUp(w.directory.value)
    ensures k < 3 ==> FullTrace(w, steps)[k] == Event([RequestToken, MakeRoot, MakeDirectory][k], true)
  {
    AttemptIsPrefix(w, steps);
  }

  /** As far as two full traces went alike, so did the attempts in them. */
  lemma AttemptsWentAlike(w: World, v: World, steps: seq<Action>, others: seq<Action>, n: nat)
    requires w.directory.Some? && v.directory.Some? && 3 <= n && n - 3 <= |Attempt(w, steps)| &&
             n - 3 <= |Attempt(v, others)|
    requires WentAlike(FullTrace(w, steps), FullTrace(v, others), n)
    ensures WentAlike(Attempt(w, steps), Attempt(v, others), n - 3)
  {
    forall k | 0 <= k < n - 3 ensures Attempt(w, steps)[k].ok == Attempt(v, others)[k].ok {
      FullTraceParts(w, steps, k + 3);
      FullTraceParts(v, others, k + 3);
      assert FullTrace(w, steps)[k + 3].ok == FullTrace(v, others)[k + 3].ok;
    }
  }

  lemma FullTracesGoOnAlike(w: World, v: World, steps: seq<Action>, others: seq<Action>, n: nat)
    requires w.directory == v.directory && w.directory.Some? && SameButToken(steps, others) && |steps| > 0
    requires WentAlike(FullTrace(w, steps), FullTrace(v, others), n) && n < |FullTrace(w, steps)|
    ensures n < |FullTrace(v, others)|
    ensures SameUpToToken(FullTrace(w, steps)[n].action, FullTrace(v, others)[n].action)
  {
    FullTraceParts(w, steps, n);
    if n >= 3 { AttemptsAreAlike(w, v, steps, others, n); }
    FullTraceParts(v, others, n);
    if 3 <= n < 3 + |Attempt(w, steps)| { SameStep(steps, others, n - 3); }
  }

  /** As long as the traces went alike, an attempt takes its next step exactly if the other does. */
  lemma AttemptsAreAlike(w: World, v: World, steps: seq<Action>, others: seq<Action>, n: nat)
    requires w.directory == v.directory && w.directory.Some? && |steps| == |others| > 0
    requires 3 <= n < |FullTrace(w, steps)| && WentAlike(FullTrace(w, steps), FullTrace(v, others), n)
    ensures |FullTrace(v, others)| == |Attempt(v, others)| + 4 && |FullTrace(w, steps)| == |Attempt(w, steps)| + 4
    ensures n - 3 <= |Attempt(v, others)| && (n - 3 < |Attempt(v, others)| <==> n - 3 < |Attempt(w, steps)|)
  {
    var b := |Attempt(v, others)|;
    FullTraceParts(w, steps, 0);
    FullTraceParts(v, others, 0);
    var m := if n - 3 <= b then n - 3 else b;
    WentAlikeFewer(FullTrace(w, steps), FullTrace(v, others), n, m + 3);
    AttemptsWentAlike(w, v, steps, others, m + 3);
    AttemptsGoOnAlike(w, v, steps, others, m);
    WentAlikeBack(Attempt(w, steps), Attempt(v, others), m);
    AttemptsGoOnAlike(v, w, others, steps, m);
  }

  lemma SameStep(steps: seq<Action>, others: seq<Action>, i: nat)
    requires SameButToken(steps, others) && i < |steps|
    ensures SameUpToToken(steps[i], others[i])
  {
    assert Redact(Event(steps[i], true)) == Redact(Event(others[i], true));
  }

  lemma WentAlikeFewer(a: seq<Event>, b: seq<Event>, n: nat, m: nat)
    requires WentAlike(a, b, n) && m <= n
    ensures WentAlike(a, b, m)
  {
  }

  lemma WentAlikeBack(a: seq<Event>, b: seq<Event>, n: nat)
    requires WentAlike(a, b, n)
    ensures WentAlike(b, a, n)
  {
  }

  ghost predicate SameUpToToken(a: Action, b: Action) { Redact(Event(a, true)) == Redact(Event(b, true)) }

  /** Main result, whatever the tokens and whatever fails: as long as two runs of a job in the same
      directory have gone alike, they go on with the same action, but for the token variable of a git
      process, and end at the same point. So the token decides nothing but through what fails. */
  lemma TokenDecidesNothing(job: Job, w: World, v: World, n: nat)
    requires HasToken(w) && HasToken(v) && w.directory == v.directory && WentAlike(Trace(job, w), Trace(job, v), n)
    ensures n < |Trace(job, w)| <==> n < |Trace(job, v)|
    ensures n < |Trace(job, w)| ==> SameUpToToken(Trace(job, w)[n].action, Trace(job, v)[n].action)
  {
    if MakesDirectory(w) && MakesDirectory(v) {
      var steps, others := StepsOf(job, w), StepsOf(job, v);
      StepsHideToken(job, w.token.text, v.token.text, w.directory.value);
      StepsHideToken(job, v.token.text, w.token.text, w.directory.value);
      WentAlikeBack(Trace(job, w), Trace(job, v), n);
      if n < |Trace(job, w)| { FullTracesGoOnAlike(w, v, steps, others, n); }
      if n < |Trace(job, v)| { FullTracesGoOnAlike(v, w, others, steps, n); }
    } else {
      assert Trace(job, w)[1] == Event(MakeRoot, w.makesRoot) && Trace(job, v)[1] == Event(MakeRoot, v.makesRoot);
    }
  }

  /** Which action of a full run it is, by its place in it. */
  function Place(a: Action): nat {
    match a
    case RequestToken => 0
    case MakeRoot => 1
    case MakeDirectory => 2
    case Restrict(_) => 3
    case WriteAskpass(_) => 4
    case Run(c) => (match c.stage case GitInit => 5 case GitRemoteAdd => 6 case GitFetchHead => 7 case GitFetchBase => 8
                                  case GitCheckout => 9 case CliScan => 11)
    case RemoveAskpass(_) => 10
    case Compact => 12
    case CleanUp(_) => 13
  }

  lemma StepPlace(job: Job, token: string, directory: string, i: nat)
    requires i < 10
    ensures Place(StepAt(job, token, directory, i)) == i + 3
  {
    if 2 <= i <= 6 { assert STAGES[i - 2] == [GitInit, GitRemoteAdd, GitFetchHead, GitFetchBase, GitCheckout][i - 2]; }
  }

  /** What stands at a place of a trace is fixed by the job, the token and the directory. */
  lemma TraceAction(job: Job, w: World, k: nat)
    requires k < |Trace(job, w)|
    ensures var a := Trace(job, w)[k].action;
      && (3 <= Place(a) <= 12 ==> MakesDirectory(w) && a == StepAt(job, w.token.text, w.directory.value, Place(a) - 3))
      && (Place(a) == 13 ==> w.directory.Some? && a == CleanUp(w.directory.value))
  {
    if MakesDirectory(w) {
      var steps := StepsOf(job, w);
      AttemptIsPrefix(w, steps);
      if 3 <= k < 3 + |Attempt(w, steps)| {
        StepPlace(job, w.token.text, w.directory.value, k - 3);
        assert Trace(job, w)[k] == Attempt(w, steps)[k - 3];
      }
    }
  }

  lemma StepHidesToken(job: Job, t: string, u: string, directory: string, i: nat)
    requires i < 10
    ensures SameUpToToken(StepAt(job, t, directory, i), StepAt(job, u, directory, i))
  {
    if 2 <= i <= 6 { GitCommandHidesToken(STAGES[i - 2], job, t, u, directory, true); }
  }

  /** Main result, whatever the tokens and whatever fails: an action that two runs of a job in the same
      directory both take is the same in both, but for the token variable of a git process. The scan's
      command is the same altogether. */
  lemma TokenGoesNowhereElse(job: Job, w: World, v: World, k: nat, l: nat)
    requires w.directory == v.directory && k < |Trace(job, w)| && l < |Trace(job, v)|
    requires Place(Trace(job, w)[k].action) == Place(Trace(job, v)[l].action)
    ensures SameUpToToken(Trace(job, w)[k].action, Trace(job, v)[l].action)
    ensures StartsCli(Trace(job, w)[k]) ==> Trace(job, v)[l].action == Trace(job, w)[k].action
  {
    TraceAction(job, w, k);
    TraceAction(job, v, l);
    var n := Place(Trace(job, w)[k].action);
    if 3 <= n <= 12 { StepHidesToken(job, w.token.text, v.token.text, w.directory.value, n - 3); }
  }

  // ---------------------------------------------------------------- cleaning up and returning

  ghost predicate CleansUpOnce(trace: seq<Event>, directory: Option<string>) {
    && (forall k :: 0 <= k < |trace| && trace[k].action.CleanUp? ==>
          k == |trace| - 1 && directory == Some(trace[k].action.directory))
    && ((exists k :: 0 <= k < |trace| && trace[k].action.CleanUp?) <==> Event(MakeDirectory, true) in trace)
  }

  lemma FullTraceCleansUp(w: World, steps: seq<Action>, directory: string)
    requires w.directory.Some? && Shaped(steps, directory)
    ensures CleansUpOnce(FullTrace(w, steps), w.directory)
  {
    AttemptIsPrefix(w, steps);
    var trace, attempt := FullTrace(w, steps), Attempt(w, steps);
    assert forall j :: 3 <= j < 3 + |attempt| ==> trace[j] == attempt[j - 3];
    assert trace[2] == Event(MakeDirectory, true);
    assert trace[|trace| - 1].action.CleanUp?;
  }

  /** Main result: a run cleans up exactly once and as its very last action if it made a directory, and
      not at all if it did not. */
  lemma CleanupOnceAndLast(job: Job, w: World)
    ensures CleansUpOnce(Trace(job, w), w.directory)
  {
    if MakesDirectory(w) {
      StepsAreShaped(job, w.token.text, w.directory.value);
      FullTraceCleansUp(w, StepsOf(job, w), w.directory.value);
    }
  }

  lemma {:induction false} FailureIsRecorded(w: World, steps: seq<Action>)
    requires FirstFailure(w, steps).Some?
    ensures Attempt(w, steps) != [] &&
            Attempt(w, steps)[|Attempt(w, steps)| - 1] == Event(FirstFailure(w, steps).value, false)
  {
    if Succeeds(w, steps[0]) { FailureIsRecorded(w, steps[1..]); }
  }

  lemma FullTraceWentWell(w: World, steps: seq<Action>)
    requires w.directory.Some?
    ensures (forall e <- FullTrace(w, steps) :: e.ok) <==> w.cleansUp && FirstFailure(w, steps).None?
  {
    AttemptIsPrefix(w, steps);
    var trace, attempt := FullTrace(w, steps), Attempt(w, steps);
    assert forall j :: 3 <= j < 3 + |attempt| ==> trace[j] == attempt[j - 3];
    assert trace[|trace| - 1] == Event(CleanUp(w.directory.value), w.cleansUp);
    if FirstFailure(w, steps).Some? {
      FailureIsRecorded(w, steps);
      assert trace[2 + |attempt|] == attempt[|attempt| - 1];
    }
  }

  /** Main result: a run returns normally exactly when all six stages ran and no action of it failed, the
      cleanup included. */
  lemma ReturnsExactlyWhen(job: Job, w: World)
    ensures RunResult(job, w).Ok? <==> StagesOf(Trace(job, w)) == STAGES && forall e <- Trace(job, w) :: e.ok
  {
    if MakesDirectory(w) {
      var steps := StepsOf(job, w);
      StepsAreShaped(job, w.token.text, w.directory.value);
      StagesOfFullTrace(w, steps, w.directory.value);
      FullTraceWentWell(w, steps);
      AttemptIsPrefix(w, steps);
      assert STAGES[..6] == STAGES;
      assert steps[9] == Compact;
    } else {
      NoStages(Trace(job, w));
    }
  }

  /** A failed cleanup hides every other outcome, and nothing else is reported as one. */
  lemma CleanupFailureWins(job: Job, w: World)
    ensures RunResult(job, w) == Err(Safe("cleanup_failed")) <==> MakesDirectory(w) && !w.cleansUp
  {
  }
}
