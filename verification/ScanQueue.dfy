/** The hosted scan queue (`src/hosted/service.ts`, `src/hosted/contracts.ts`) as a protocol. A run of
    the worker is split where it awaits: the scan, the saving of the report, the publishing of the
    check run. Webhooks, manual reruns and other worker runs may come in between. */
module ScanQueue {
  import opened Text
  import opened ScanIdentity

  // ---------------------------------------------------------------- state

  datatype Status = Queued | Running | Completed | Failed | Cancelled

  datatype Record = Record(
    identity: Identity,
    status: Status,
    attempt: nat,
    deliveryIds: seq<string>,
    createdAt: int,
    updatedAt: int,
    reportId: Option<string>)

  datatype StoredReport = StoredReport(id: string, jobKey: string, createdAt: int)

  /** Which repositories an installation gives access to, as the operator configured it. */
  datatype Scope = Scope(selected: map<nat, seq<nat>>, removed: map<nat, seq<nat>>)

  datatype Stage =
    | Scanning                  // awaiting the scan runner
    | Saving                    // awaiting the report store
    | Publishing                // awaiting the check run publisher
    | Ended(status: Status)

  /** One call of `runNextQueuedScan` that found a record. `stored` and `published` record whether
      the store and the publisher have taken what the job handed them. */
  datatype Job = Job(key: string, scope: Scope, stage: Stage, reportId: string, stored: bool, published: bool)

  datatype State = State(
    records: map<string, Record>,
    order: seq<string>,         // insertion order of the `Map`
    seen: set<string>,          // `seenDeliveryIds`
    reports: seq<StoredReport>,
    checks: seq<string>,        // job keys of the published check runs
    jobs: seq<Job>)

  const INIT := State(map[], [], {}, [], [], [])

  function RepositoryIds(source: map<nat, seq<nat>>, installationId: nat): seq<nat> {
    if installationId in source then source[installationId] else []
  }

  /** `authorizeInstallationTokenScope` for the identity's own installation. */
  predicate Authorized(scope: Scope, i: Identity) {
    && i.repositoryId !in RepositoryIds(scope.removed, i.installationId)
    && i.repositoryId in RepositoryIds(scope.selected, i.installationId)
  }

  // ---------------------------------------------------------------- webhook intake

  datatype Signature = Missing | Malformed | Mismatch | Genuine

  /** A parsed payload; the fields that `valueAsNumber` and `valueAsString` reject are `None`. A payload
      that parses to a falsy value, such as `null`, is treated like one that does not parse. */
  datatype Payload =
    | InvalidJson
    | NotAnObject
    | Event(action: Option<string>, installationId: Option<nat>, repositoryId: Option<nat>,
            repositoryFullName: Option<string>, pullRequestNumber: Option<nat>,
            baseSha: Option<string>, headSha: Option<string>, draft: bool)

  datatype Request = Request(signature: Signature, deliveryId: string, payload: Payload, manualRerun: bool,
                             allowDraft: bool)

  datatype Reason =
    | MissingSignature | MalformedSignature | InvalidSignature | ReplayedDeliveryId | MissingDeliveryId
    | NoJson | MissingRequiredField | UnsupportedAction | DraftPullRequest
    | RepositoryRemoved | RepositoryNotInstalled

  datatype Decision = Decision(key: string, created: bool, existingStatus: Option<Status>, attempt: nat,
                               shouldEnqueueWorker: bool, shouldReuseCompletedReport: bool)

  datatype WebhookResult = Rejected(reason: Reason) | Accepted(decision: Decision)

  const SUPPORTED_ACTIONS: seq<string> := ["opened", "reopened", "synchronize", "ready_for_review"]

  /** `verifyGitHubWebhook`: a fresh delivery id of a genuine request is remembered. */
  function VerifyWebhook(r: Request, seen: set<string>): (Option<Reason>, set<string>) {
    match r.signature
    case Missing => (Some(MissingSignature), seen)
    case Malformed => (Some(MalformedSignature), seen)
    case Mismatch => (Some(InvalidSignature), seen)
    case Genuine =>
      if r.deliveryId == "" then (None, seen)
      else if r.deliveryId in seen then (Some(ReplayedDeliveryId), seen)
      else (None, seen + {r.deliveryId})
  }

  datatype EventResult = NoIdentity(reason: Reason) | Parsed(identity: Identity)

  /** `parseWebhookPayload` and `parseHostedPullRequestEvent`. */
  function ParseEvent(payload: Payload, scannerVersion: string, allowDraft: bool): EventResult {
    match payload
    case InvalidJson => NoIdentity(NoJson)
    case NotAnObject => NoIdentity(MissingRequiredField)
    case Event(action, installation, repository, fullName, number, base, head, draft) =>
      if action.None? || action.value !in SUPPORTED_ACTIONS then NoIdentity(UnsupportedAction)
      else if installation.None? || repository.None? || fullName.None? || number.None? || base.None? || head.None? then
        NoIdentity(MissingRequiredField)
      else if draft && !allowDraft then NoIdentity(DraftPullRequest)
      else Parsed(Identity(installation.value, repository.value, fullName.value, number.value, base.value, head.value,
                           scannerVersion))
  }

  function AddDelivery(ids: seq<string>, id: string): seq<string> {
    if id in ids then ids else ids + [id]
  }

  /** `planHostedScanQueueUpsert`. */
  function Upsert(st: State, i: Identity, deliveryId: string, now: int, manualRerun: bool): (State, Decision) {
    var key := Key(i);
    if key !in st.records then
      var record := Record(i, Queued, 1, [deliveryId], now, now, None);
      (st.(records := st.records[key := record], order := st.order + [key]),
       Decision(key, true, None, 1, true, false))
    else
      var was := st.records[key];
      var record := was.(deliveryIds := AddDelivery(was.deliveryIds, deliveryId), updatedAt := now);
      if manualRerun then
        (st.(records := st.records[key := record.(attempt := was.attempt + 1, status := Queued)]),
         Decision(key, false, Some(was.status), was.attempt + 1, true, false))
      else
        (st.(records := st.records[key := record]),
         Decision(key, false, Some(was.status), was.attempt, false, was.status == Completed))
  }

  /** `handlePullRequestWebhook`: nothing is awaited, so the whole handler is one step. */
  function Webhook(st: State, r: Request, scope: Scope, scannerVersion: string, now: int): (State, WebhookResult) {
    var (refusal, seen) := VerifyWebhook(r, st.seen);
    var st := st.(seen := seen);
    if refusal.Some? then (st, Rejected(refusal.value))
    else if r.deliveryId == "" then (st, Rejected(MissingDeliveryId))
    else match ParseEvent(r.payload, scannerVersion, r.allowDraft)
      case NoIdentity(reason) => (st, Rejected(reason))
      case Parsed(i) =>
        if i.repositoryId in RepositoryIds(scope.removed, i.installationId) then (st, Rejected(RepositoryRemoved))
        else if !Authorized(scope, i) then (st, Rejected(RepositoryNotInstalled))
        else
          var (st', decision) := Upsert(st, i, r.deliveryId, now, r.manualRerun);
          (st', Accepted(decision))
  }

  // ---------------------------------------------------------------- the worker

  function FirstQueued(records: map<string, Record>, order: seq<string>): (key: Option<string>)
    requires forall k :: k in order ==> k in records
    ensures key.Some? ==> key.value in order && records[key.value].status == Queued
    ensures key.None? ==> forall k :: k in order ==> records[k].status != Queued
  {
    if order == [] then None
    else if records[order[0]].status == Queued then Some(order[0])
    else FirstQueued(records, order[1..])
  }

  /** The record found is queued and no record before it is. */
  lemma {:induction false} FirstQueuedIsFirst(records: map<string, Record>, order: seq<string>, key: string)
    requires forall k :: k in order ==> k in records
    ensures FirstQueued(records, order) == Some(key) <==>
      exists j :: 0 <= j < |order| && order[j] == key && records[key].status == Queued &&
        forall i :: 0 <= i < j ==> records[order[i]].status != Queued
  {
    if order != [] && records[order[0]].status != Queued {
      FirstQueuedIsFirst(records, order[1..], key);
      if FirstQueued(records, order) == Some(key) {
        var j :| 0 <= j < |order[1..]| && order[1..][j] == key &&
                 forall i :: 0 <= i < j ==> records[order[1..][i]].status != Queued;
        assert order[j + 1] == key;
        forall i | 0 <= i < j + 1 ensures records[order[i]].status != Queued {
          if i > 0 { assert order[1..][i - 1] == order[i]; }
        }
      }
      if j :| 0 <= j < |order| && order[j] == key && records[key].status == Queued &&
              forall i :: 0 <= i < j ==> records[order[i]].status != Queued
      {
        assert order[1..][j - 1] == key;
        assert forall i :: 0 <= i < j - 1 ==> order[1..][i] == order[i + 1];
      }
    }
  }

  function SetStatus(st: State, key: string, status: Status, now: int): State
    requires key in st.records
  {
    st.(records := st.records[key := st.records[key].(status := status, updatedAt := now)])
  }

  /** Up to the first `await`: claim the first queued record and plan its scan. */
  function Claim(st: State, scope: Scope, now: int): State
    requires Ordered(st)
  {
    match FirstQueued(st.records, st.order)
    case None => st
    case Some(key) => ClaimRecord(st, key, scope, now)
  }

  function ClaimRecord(st: State, key: string, scope: Scope, now: int): State
    requires key in st.records
  {
    var ok := Authorized(scope, st.records[key].identity);
    var stage := if ok then Scanning else Ended(Failed);
    SetStatus(st, key, if ok then Running else Failed, now)
      .(jobs := st.jobs + [Job(key, scope, stage, "", false, false)])
  }

  function SetJob(st: State, j: nat, job: Job): State
    requires j < |st.jobs|
  {
    st.(jobs := st.jobs[j := job])
  }

  function Fail(st: State, j: nat, now: int): State
    requires j < |st.jobs| && st.jobs[j].key in st.records
  {
    SetJob(SetStatus(st, st.jobs[j].key, Failed, now), j, st.jobs[j].(stage := Ended(Failed)))
  }

  /** The scan returned: build the report under the attempt the record has by now and hand it to the store. */
  function ScanReturned(st: State, j: nat, ok: bool, stored: bool, now: int): State
    requires j < |st.jobs| && st.jobs[j].key in st.records
  {
    var key := st.jobs[j].key;
    if !ok then Fail(st, j, now)
    else
      var id := ReportId(key, st.records[key].attempt);
      var reports := if stored then st.reports + [StoredReport(id, key, now)] else st.reports;
      SetJob(st, j, st.jobs[j].(stage := Saving, reportId := id, stored := stored)).(reports := reports)
  }

  /** The store returned: plan the check run under the scope read at the claim and hand it to the publisher. */
  function SaveReturned(st: State, j: nat, ok: bool, published: bool, now: int): State
    requires j < |st.jobs| && st.jobs[j].key in st.records
  {
    var job := st.jobs[j];
    if !ok || !Authorized(job.scope, st.records[job.key].identity) then Fail(st, j, now)
    else
      var checks := if published then st.checks + [job.key] else st.checks;
      SetJob(st, j, job.(stage := Publishing, published := published)).(checks := checks)
  }

  /** The publisher returned: the record is completed, whatever its status was. */
  function PublishReturned(st: State, j: nat, ok: bool, now: int): State
    requires j < |st.jobs| && st.jobs[j].key in st.records
  {
    var job := st.jobs[j];
    if !ok then Fail(st, j, now)
    else
      var record := st.records[job.key].(status := Completed, reportId := Some(job.reportId), updatedAt := now);
      SetJob(st, j, job.(stage := Ended(Completed))).(records := st.records[job.key := record])
  }

  // ---------------------------------------------------------------- steps and runs

  datatype Step =
    | WebhookStep(request: Request, scope: Scope, now: int)
    | ClaimStep(scope: Scope, now: int)
    | ScanReturnedStep(job: nat, ok: bool, effect: bool, now: int)
    | SaveReturnedStep(job: nat, ok: bool, effect: bool, now: int)
    | PublishReturnedStep(job: nat, ok: bool, now: int)

  ghost predicate Ordered(st: State) {
    && (forall k :: k in st.order <==> k in st.records)
    && (forall i, j :: 0 <= i < j < |st.order| ==> st.order[i] != st.order[j])
  }

  /** A store or publisher that reports success has taken what it was given; one that fails may or may not have. */
  predicate Enabled(st: State, s: Step) {
    match s
    case WebhookStep(_, _, _) => true
    case ClaimStep(_, _) => true
    case ScanReturnedStep(j, ok, effect, _) => j < |st.jobs| && st.jobs[j].stage == Scanning && (effect ==> ok)
    case SaveReturnedStep(j, ok, effect, _) =>
      j < |st.jobs| && st.jobs[j].stage == Saving && (ok ==> st.jobs[j].stored) && (effect ==> ok)
    case PublishReturnedStep(j, ok, _) =>
      j < |st.jobs| && st.jobs[j].stage == Publishing && (ok ==> st.jobs[j].published)
  }

  ghost predicate JobsHaveRecords(st: State) {
    forall j :: 0 <= j < |st.jobs| ==> st.jobs[j].key in st.records
  }

  ghost function Apply(st: State, s: Step, scannerVersion: string): State
    requires Enabled(st, s) && Ordered(st) && JobsHaveRecords(st)
  {
    match s
    case WebhookStep(r, scope, now) => Webhook(st, r, scope, scannerVersion, now).0
    case ClaimStep(scope, now) => Claim(st, scope, now)
    case ScanReturnedStep(j, ok, stored, now) => ScanReturned(st, j, ok, stored, now)
    case SaveReturnedStep(j, ok, published, now) => SaveReturned(st, j, ok, published, now)
    case PublishReturnedStep(j, ok, now) => PublishReturned(st, j, ok, now)
  }
}
