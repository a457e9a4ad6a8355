/** What gets into the queue: which webhooks are accepted and with what effect, what a claim starts, how a
    worker run ends, and what everything in a reachable state can be traced back to. */
module ScanQueueIntake {
  import opened ScanIdentity
  import opened ScanQueue
  import opened ScanQueueRuns
  import opened ScanQueueSafety
  import opened Text

  // ---------------------------------------------------------------- requests in plain terms

  /** Signed by the platform, with a delivery id that was not seen before. */
  predicate Fresh(st: State, r: Request) {
    r.signature == Genuine && r.deliveryId != "" && r.deliveryId !in st.seen
  }

  predicate HasWantedAction(p: Payload) {
    p.Event? && p.action.Some? && p.action.value in {"opened", "reopened", "synchronize", "ready_for_review"}
  }

  /** The payload names all of the identity. */
  predicate Names(p: Payload, i: Identity, scannerVersion: string) {
    && p.Event? && i.scannerVersion == scannerVersion
    && p.installationId == Some(i.installationId) && p.repositoryId == Some(i.repositoryId)
    && p.repositoryFullName == Some(i.repositoryFullName) && p.pullRequestNumber == Some(i.pullRequestNumber)
    && p.baseSha == Some(i.baseSha) && p.headSha == Some(i.headSha)
  }

  /** A field is missing. */
  predicate Lacks(p: Payload) {
    p.Event? && (p.installationId.None? || p.repositoryId.None? || p.repositoryFullName.None? ||
                 p.pullRequestNumber.None? || p.baseSha.None? || p.headSha.None?)
  }

  predicate Removed(scope: Scope, i: Identity) {
    i.installationId in scope.removed && i.repositoryId in scope.removed[i.installationId]
  }

  /** The repository is one the installation gives access to. */
  predicate Open(scope: Scope, i: Identity) {
    && i.installationId in scope.selected && i.repositoryId in scope.selected[i.installationId]
    && !Removed(scope, i)
  }

  /** An event that asks for a scan of `i`. */
  predicate AsksFor(r: Request, scope: Scope, scannerVersion: string, i: Identity) {
    && Names(r.payload, i, scannerVersion) && HasWantedAction(r.payload) && (r.payload.draft ==> r.allowDraft)
    && Open(scope, i)
  }

  lemma OpenIsAuthorized(scope: Scope, i: Identity)
    ensures Authorized(scope, i) <==> Open(scope, i)
  {
  }

  lemma ParsedExactlyWhen(p: Payload, scannerVersion: string, allowDraft: bool, i: Identity)
    ensures ParseEvent(p, scannerVersion, allowDraft) == Parsed(i) <==>
      Names(p, i, scannerVersion) && HasWantedAction(p) && (p.draft ==> allowDraft)
  {
  }

  /** Main result, both ways: a webhook is accepted exactly if it is fresh and asks for a scan, and the key
      answered is that of the scan asked for. */
  lemma AcceptedExactlyWhen(st: State, r: Request, scope: Scope, scannerVersion: string, now: int)
    ensures var answer := Webhook(st, r, scope, scannerVersion, now).1;
      && (answer.Accepted? <==> Fresh(st, r) && exists i: Identity :: AsksFor(r, scope, scannerVersion, i))
      && (answer.Accepted? ==>
            exists i: Identity :: AsksFor(r, scope, scannerVersion, i) && answer.decision.key == Key(i))
  {
    var event := ParseEvent(r.payload, scannerVersion, r.allowDraft);
    if Webhook(st, r, scope, scannerVersion, now).1.Accepted? {
      ParsedExactlyWhen(r.payload, scannerVersion, r.allowDraft, event.identity);
      OpenIsAuthorized(scope, event.identity);
      assert AsksFor(r, scope, scannerVersion, event.identity);
    }
    if i: Identity :| AsksFor(r, scope, scannerVersion, i) {
      ParsedExactlyWhen(r.payload, scannerVersion, r.allowDraft, i);
      OpenIsAuthorized(scope, i);
    }
  }

  /** Each refusal tells what was wrong. The cases exclude each other, so it tells it exactly. */
  predicate IsTrueReason(st: State, r: Request, scope: Scope, scannerVersion: string, reason: Reason) {
    match reason
    case MissingSignature => r.signature == Missing
    case MalformedSignature => r.signature == Malformed
    case InvalidSignature => r.signature == Mismatch
    case MissingDeliveryId => r.signature == Genuine && r.deliveryId == ""
    case ReplayedDeliveryId => r.signature == Genuine && r.deliveryId != "" && r.deliveryId in st.seen
    case NoJson => Fresh(st, r) && r.payload == InvalidJson
    case UnsupportedAction => Fresh(st, r) && r.payload.Event? && !HasWantedAction(r.payload)
    case MissingRequiredField =>
      Fresh(st, r) && (r.payload == NotAnObject || (HasWantedAction(r.payload) && Lacks(r.payload)))
    case DraftPullRequest =>
      Fresh(st, r) && HasWantedAction(r.payload) && !Lacks(r.payload) && r.payload.draft && !r.allowDraft
    case RepositoryRemoved =>
      Fresh(st, r) && HasWantedAction(r.payload) && !Lacks(r.payload) && (r.payload.draft ==> r.allowDraft) &&
      r.payload.installationId.value in scope.removed &&
      r.payload.repositoryId.value in scope.removed[r.payload.installationId.value]
    case RepositoryNotInstalled =>
      Fresh(st, r) && HasWantedAction(r.payload) && !Lacks(r.payload) && (r.payload.draft ==> r.allowDraft) &&
      !(r.payload.installationId.value in scope.removed &&
        r.payload.repositoryId.value in scope.removed[r.payload.installationId.value]) &&
      !(r.payload.installationId.value in scope.selected &&
        r.payload.repositoryId.value in scope.selected[r.payload.installationId.value])
  }

  /** Main result: a refused webhook gets its true reason, and all it leaves behind is the delivery id of a
      fresh request. In particular a request that is not genuine changes nothing. */
  lemma RefusedForItsReason(st: State, r: Request, scope: Scope, scannerVersion: string, now: int)
    ensures var (b, answer) := Webhook(st, r, scope, scannerVersion, now);
      answer.Rejected? ==>
        && IsTrueReason(st, r, scope, scannerVersion, answer.reason)
        && b == st.(seen := if Fresh(st, r) then st.seen + {r.deliveryId} else st.seen)
  {
  }

  /** Main result: what the answer to an accepted webhook says is so. A worker is to be enqueued exactly if a
      new attempt was opened, and an old report is to be used only if it is stored and published. */
  lemma DecisionIsTrue(st: State, r: Request, scope: Scope, scannerVersion: string, now: int)
    requires Inv(st) && Webhook(st, r, scope, scannerVersion, now).1.Accepted?
    ensures var (b, answer) := Webhook(st, r, scope, scannerVersion, now);
      var d, was := answer.decision, st.records;
      && d.key in b.records && d.attempt == b.records[d.key].attempt
      && (d.created <==> d.key !in was)
      && d.existingStatus == (if d.key in was then Some(was[d.key].status) else None)
      && (d.shouldEnqueueWorker <==> d.attempt == 1 + if d.key in was then was[d.key].attempt else 0)
      && (d.shouldEnqueueWorker <==> d.created || r.manualRerun)
      && (d.shouldEnqueueWorker ==> b.records[d.key].status == Queued)
      && (d.shouldReuseCompletedReport <==> !d.shouldEnqueueWorker && d.existingStatus == Some(Completed))
      && (d.shouldReuseCompletedReport ==>
            && b.records[d.key].reportId.Some? && d.key in b.checks
            && InStore(b.reports, b.records[d.key].reportId.value, d.key))
  {
    var d := Webhook(st, r, scope, scannerVersion, now).1.decision;
    if d.key in st.records { assert RecordFits(st, d.key, st.records[d.key]); }
  }

  // ---------------------------------------------------------------- claims and worker runs in plain terms

  /** Main result, both ways: a claim starts a scan exactly if the scope it reads opens the repository;
      otherwise job and record have failed at once. */
  lemma ClaimStartsExactlyWhen(st: State, scope: Scope, now: int, key: string)
    requires Ordered(st) && FirstQueued(st.records, st.order) == Some(key)
    ensures var b, open := Claim(st, scope, now), Open(scope, st.records[key].identity);
      && |b.jobs| == |st.jobs| + 1 && b.jobs[..|st.jobs|] == st.jobs
      && b.jobs[|st.jobs|].key == key && b.jobs[|st.jobs|].scope == scope
      && (open ==> b.jobs[|st.jobs|].stage == Scanning && b.records[key].status == Running)
      && (!open ==> b.jobs[|st.jobs|].stage == Ended(Failed) && b.records[key].status == Failed)
  {
    OpenIsAuthorized(scope, st.records[key].identity);
  }

  /** What became of the stores in a whole worker run on `key`. */
  ghost predicate Leaves(a: State, b: State, key: string, report: bool, check: bool, now: int)
    requires key in a.records
  {
    && b.reports == a.reports + (if report then [StoredReport(ReportId(key, a.records[key].attempt), key, now)] else [])
    && b.checks == a.checks + (if check then [key] else [])
  }

  /** Main result, both ways: a worker run with nothing in between completes its record exactly if the
      repository is open to it and the runner, the store and the publisher all succeed. It stores a report
      exactly as far as it got, and publishes a check run exactly as far as it got. */
  lemma TickCompletesExactlyWhen(st: State, o: Outcome, key: string)
    requires Ordered(st) && FirstQueued(st.records, st.order) == Some(key)
    ensures var b := Tick(st, o);
      var report := Open(o.scope, st.records[key].identity) && o.scanOk && o.stored;
      var check := report && o.saveOk && o.published;
      var done := check && o.publishOk;
      && key in b.records
      && b.records[key].status == (if done then Completed else Failed)
      && b.records[key].reportId ==
         (if done then Some(ReportId(key, st.records[key].attempt)) else st.records[key].reportId)
      && b.records[key].attempt == st.records[key].attempt && b.records[key].updatedAt == o.now
      && Leaves(st, b, key, report, check, o.now)
  {
    OpenIsAuthorized(o.scope, st.records[key].identity);
    var st1 := Claim(st, o.scope, o.now);
    if st1.jobs[|st.jobs|].stage == Scanning { FinishCompletes(st1, |st.jobs|, o); }
  }

  lemma FinishCompletes(st: State, j: nat, o: Outcome)
    requires j < |st.jobs| && st.jobs[j].key in st.records && st.jobs[j].scope == o.scope
    requires Authorized(o.scope, st.records[st.jobs[j].key].identity)
    ensures var b, key, report := Finish(st, j, o), st.jobs[j].key, o.scanOk && o.stored;
      var check := report && o.saveOk && o.published;
      var done := check && o.publishOk;
      && key in b.records
      && b.records[key].status == (if done then Completed else Failed)
      && b.records[key].reportId ==
         (if done then Some(ReportId(key, st.records[key].attempt)) else st.records[key].reportId)
      && b.records[key].attempt == st.records[key].attempt && b.records[key].updatedAt == o.now
      && Leaves(st, b, key, report, check, o.now)
  {
  }

  // ---------------------------------------------------------------- where everything comes from

  /** The record is as it was, or was touched at the time of the step; identity and creation stay. */
  ghost predicate StampedBy(a: State, b: State, s: Step, key: string)
    requires key in b.records
  {
    if key in a.records then
      && b.records[key].identity == a.records[key].identity && b.records[key].createdAt == a.records[key].createdAt
      && (b.records[key] == a.records[key] || b.records[key].updatedAt == s.now)
    else b.records[key].createdAt == b.records[key].updatedAt == s.now
  }

  /** A genuine webhook among the steps that carried `id` and asked for a scan of `i`. */
  ghost predicate Delivered(steps: seq<Step>, scannerVersion: string, id: string, i: Identity) {
    exists k :: 0 <= k < |steps| && Delivers(steps[k], scannerVersion, id, i)
  }

  ghost predicate Delivers(s: Step, scannerVersion: string, id: string, i: Identity) {
    && s.WebhookStep? && s.request.signature == Genuine && s.request.deliveryId == id && id != ""
    && AsksFor(s.request, s.scope, scannerVersion, i)
  }

  ghost predicate IdIsTraced(steps: seq<Step>, scannerVersion: string, key: string, id: string) {
    exists i: Identity :: Delivered(steps, scannerVersion, id, i) && Key(i) == key
  }

  ghost predicate IdentityIsTraced(steps: seq<Step>, scannerVersion: string, ids: seq<string>, i: Identity) {
    exists id :: id in ids && Delivered(steps, scannerVersion, id, i)
  }

  /** Everything on the record was delivered, and its identity by one of the deliveries. */
  ghost predicate RecordIsTraced(steps: seq<Step>, scannerVersion: string, key: string, r: Record) {
    && (forall id <- r.deliveryIds :: IdIsTraced(steps, scannerVersion, key, id))
    && IdentityIsTraced(steps, scannerVersion, r.deliveryIds, r.identity)
  }

  lemma DeliveredFurther(steps: seq<Step>, s: Step, scannerVersion: string, id: string, i: Identity)
    requires Delivered(steps, scannerVersion, id, i)
    ensures Delivered(steps + [s], scannerVersion, id, i)
  {
    var k :| 0 <= k < |steps| && Delivers(steps[k], scannerVersion, id, i);
    assert (steps + [s])[k] == steps[k];
  }

  lemma IdTracedFurther(steps: seq<Step>, s: Step, scannerVersion: string, key: string, id: string)
    requires IdIsTraced(steps, scannerVersion, key, id)
    ensures IdIsTraced(steps + [s], scannerVersion, key, id)
  {
    var i: Identity :| Delivered(steps, scannerVersion, id, i) && Key(i) == key;
    DeliveredFurther(steps, s, scannerVersion, id, i);
  }

  lemma IdentityTracedFurther(steps: seq<Step>, s: Step, scannerVersion: string, ids: seq<string>, more: seq<string>,
                              i: Identity)
    requires IdentityIsTraced(steps, scannerVersion, ids, i)
    ensures IdentityIsTraced(steps + [s], scannerVersion, ids + more, i)
  {
    var id :| id in ids && Delivered(steps, scannerVersion, id, i);
    DeliveredFurther(steps, s, scannerVersion, id, i);
    assert id in ids + more;
  }

  /** What a webhook adds to a record is its own delivery id, if it asked for the scan. */
  lemma WebhookAdds(a: State, s: Step, scannerVersion: string, key: string) returns (i: Identity)
    requires s.WebhookStep? && key in Webhook(a, s.request, s.scope, scannerVersion, s.now).0.records
    ensures var b, id := Webhook(a, s.request, s.scope, scannerVersion, s.now).0, s.request.deliveryId;
      if key in a.records && b.records[key].deliveryIds == a.records[key].deliveryIds then
        b.records[key].identity == a.records[key].identity
      else
        && Delivers(s, scannerVersion, id, i) && Key(i) == key
        && if key in a.records
           then b.records[key].deliveryIds == a.records[key].deliveryIds + [id] &&
                b.records[key].identity == a.records[key].identity
           else b.records[key].deliveryIds == [id] && b.records[key].identity == i
  {
    i := Identity(0, 0, "", 0, "", "", "");
    AcceptedExactlyWhen(a, s.request, s.scope, scannerVersion, s.now);
    if Webhook(a, s.request, s.scope, scannerVersion, s.now).1.Accepted? {
      i := ParseEvent(s.request.payload, scannerVersion, s.request.allowDraft).identity;
      ParsedExactlyWhen(s.request.payload, scannerVersion, s.request.allowDraft, i);
      OpenIsAuthorized(s.scope, i);
    }
  }

  /** Nothing but a webhook adds to what is traced. */
  lemma OthersAddNothing(a: State, s: Step, scannerVersion: string, key: string)
    requires Sound(a) && Enabled(a, s) && !s.WebhookStep? && key in Apply(a, s, scannerVersion).records
    ensures var b := Apply(a, s, scannerVersion);
      && key in a.records && b.records[key].deliveryIds == a.records[key].deliveryIds
      && b.records[key].identity == a.records[key].identity
  {
  }

  lemma NewIsTraced(steps: seq<Step>, s: Step, scannerVersion: string, id: string, i: Identity)
    requires Delivers(s, scannerVersion, id, i)
    ensures Delivered(steps + [s], scannerVersion, id, i) && IdIsTraced(steps + [s], scannerVersion, Key(i), id)
  {
    assert (steps + [s])[|steps|] == s;
  }

  lemma TracedWith(steps: seq<Step>, s: Step, scannerVersion: string, key: string, was: Record, r: Record, id: string,
                   i: Identity)
    requires RecordIsTraced(steps, scannerVersion, key, was) && Delivers(s, scannerVersion, id, i) && Key(i) == key
    requires r.deliveryIds == was.deliveryIds + [id] && r.identity == was.identity
    ensures RecordIsTraced(steps + [s], scannerVersion, key, r)
  {
    NewIsTraced(steps, s, scannerVersion, id, i);
    forall x <- r.deliveryIds ensures IdIsTraced(steps + [s], scannerVersion, key, x) {
      if x in was.deliveryIds { IdTracedFurther(steps, s, scannerVersion, key, x); }
    }
    IdentityTracedFurther(steps, s, scannerVersion, was.deliveryIds, [id], was.identity);
  }

  lemma TracedAsBefore(steps: seq<Step>, s: Step, scannerVersion: string, key: string, was: Record, r: Record)
    requires RecordIsTraced(steps, scannerVersion, key, was)
    requires r.deliveryIds == was.deliveryIds && r.identity == was.identity
    ensures RecordIsTraced(steps + [s], scannerVersion, key, r)
  {
    forall x <- r.deliveryIds ensures IdIsTraced(steps + [s], scannerVersion, key, x) {
      IdTracedFurther(steps, s, scannerVersion, key, x);
    }
    IdentityTracedFurther(steps, s, scannerVersion, was.deliveryIds, [], was.identity);
    assert was.deliveryIds + [] == was.deliveryIds;
  }

  lemma StepTraces(steps: seq<Step>, a: State, s: Step, scannerVersion: string, key: string)
    requires Ordered(a) && JobsHaveRecords(a) && Enabled(a, s)
    requires key in a.records ==> RecordIsTraced(steps, scannerVersion, key, a.records[key])
    requires key in Apply(a, s, scannerVersion).records
    ensures RecordIsTraced(steps + [s], scannerVersion, key, Apply(a, s, scannerVersion).records[key])
  {
    var r := Apply(a, s, scannerVersion).records[key];
    if s.WebhookStep? {
      var i := WebhookAdds(a, s, scannerVersion, key);
      if key in a.records && r.deliveryIds == a.records[key].deliveryIds {
        TracedAsBefore(steps, s, scannerVersion, key, a.records[key], r);
      } else {
        NewIsTraced(steps, s, scannerVersion, s.request.deliveryId, i);
        if key in a.records {
          TracedWith(steps, s, scannerVersion, key, a.records[key], r, s.request.deliveryId, i);
        } else {
          assert s.request.deliveryId in r.deliveryIds;
        }
      }
    } else {
      OthersAddNothing(a, s, scannerVersion, key);
      TracedAsBefore(steps, s, scannerVersion, key, a.records[key], r);
    }
  }

  lemma LastStepTraces(steps: seq<Step>, a: State, scannerVersion: string, key: string)
    requires steps != []
    requires var front, s := steps[..|steps| - 1], steps[|steps| - 1];
      && Ordered(a) && JobsHaveRecords(a) && Enabled(a, s) && key in Apply(a, s, scannerVersion).records
      && (key in a.records ==> RecordIsTraced(front, scannerVersion, key, a.records[key]))
    ensures RecordIsTraced(steps, scannerVersion, key, Apply(a, steps[|steps| - 1], scannerVersion).records[key])
  {
    StepTraces(steps[..|steps| - 1], a, steps[|steps| - 1], scannerVersion, key);
    assert steps == steps[..|steps| - 1] + [steps[|steps| - 1]];
  }

  /** Main result: in every run, each delivery id on a record belongs to an earlier webhook that was genuine
      and asked for a scan under that record's key, of a repository then open; and the record's identity is
      that of one of them. */
  lemma {:induction false} RecordsAreTraced(steps: seq<Step>, scannerVersion: string, key: string)
    requires Run(steps, scannerVersion).Some? && key in Run(steps, scannerVersion).value.records
    ensures RecordIsTraced(steps, scannerVersion, key, Run(steps, scannerVersion).value.records[key])
  {
    if steps != [] {
      var front, s := steps[..|steps| - 1], steps[|steps| - 1];
      var a := Run(front, scannerVersion).value;
      StepKeepsInv(a, s, scannerVersion);
      if key in a.records { RecordsAreTraced(front, scannerVersion, key); }
      LastStepTraces(steps, a, scannerVersion, key);
    }
  }

  /** Main result: times are true. A step that changes a record stamps it; nothing else about its origin changes. */
  lemma StepsStamp(a: State, s: Step, scannerVersion: string, key: string)
    requires Inv(a) && Sound(a) && Enabled(a, s) && key in Apply(a, s, scannerVersion).records
    ensures key in a.records || s.WebhookStep?
    ensures StampedBy(a, Apply(a, s, scannerVersion), s, key)
  {
    match s
    case WebhookStep(r, scope, now) => WebhookStamps(a, r, scope, scannerVersion, now, key);
    case ClaimStep(scope, now) =>
    case ScanReturnedStep(j, ok, stored, now) => ScanReturnedStamps(a, j, ok, stored, now, key);
    case SaveReturnedStep(j, ok, published, now) => SaveReturnedStamps(a, j, ok, published, now, key);
    case PublishReturnedStep(j, ok, now) => PublishReturnedStamps(a, j, ok, now, key);
  }

  lemma ScanReturnedStamps(a: State, j: nat, ok: bool, stored: bool, now: int, key: string)
    requires j < |a.jobs| && a.jobs[j].key in a.records && key in ScanReturned(a, j, ok, stored, now).records
    ensures key in a.records
    ensures StampedBy(a, ScanReturned(a, j, ok, stored, now), ScanReturnedStep(j, ok, stored, now), key)
  {
  }

  lemma SaveReturnedStamps(a: State, j: nat, ok: bool, published: bool, now: int, key: string)
    requires j < |a.jobs| && a.jobs[j].key in a.records && key in SaveReturned(a, j, ok, published, now).records
    ensures key in a.records
    ensures StampedBy(a, SaveReturned(a, j, ok, published, now), SaveReturnedStep(j, ok, published, now), key)
  {
  }

  lemma PublishReturnedStamps(a: State, j: nat, ok: bool, now: int, key: string)
    requires j < |a.jobs| && a.jobs[j].key in a.records && key in PublishReturned(a, j, ok, now).records
    ensures key in a.records
    ensures StampedBy(a, PublishReturned(a, j, ok, now), PublishReturnedStep(j, ok, now), key)
  {
  }

  lemma WebhookStamps(a: State, r: Request, scope: Scope, scannerVersion: string, now: int, key: string)
    requires key in Webhook(a, r, scope, scannerVersion, now).0.records
    ensures StampedBy(a, Webhook(a, r, scope, scannerVersion, now).0, WebhookStep(r, scope, now), key)
  {
  }

  // ---------------------------------------------------------------- reports and jobs

  /** A claim among the steps that read this scope. */
  ghost predicate ReadAtClaim(steps: seq<Step>, scope: Scope) {
    exists k :: 0 <= k < |steps| && steps[k].ClaimStep? && steps[k].scope == scope
  }

  /** The job was started by a claim, and has done anything at all only if the scope it read there opens the
      repository. */
  ghost predicate JobIsTraced(steps: seq<Step>, st: State, job: Job) {
    && ReadAtClaim(steps, job.scope)
    && job.key in st.records
    && (job.stage != Ended(Failed) || job.stored || job.published ==> Open(job.scope, st.records[job.key].identity))
  }

  /** Some job stored the report. */
  ghost predicate ReportIsTraced(st: State, r: StoredReport) {
    exists j :: 0 <= j < |st.jobs| && st.jobs[j].key == r.jobKey && st.jobs[j].stored && st.jobs[j].reportId == r.id
  }

  ghost predicate AllTraced(steps: seq<Step>, st: State) {
    && (forall j :: 0 <= j < |st.jobs| ==> JobIsTraced(steps, st, st.jobs[j]))
    && (forall i :: 0 <= i < |st.reports| ==> ReportIsTraced(st, st.reports[i]))
  }

  lemma ReadFurther(steps: seq<Step>, s: Step, scope: Scope)
    ensures ReadAtClaim(steps, scope) ==> ReadAtClaim(steps + [s], scope)
    ensures s.ClaimStep? ==> ReadAtClaim(steps + [s], s.scope)
  {
    if k :| 0 <= k < |steps| && steps[k].ClaimStep? && steps[k].scope == scope { assert (steps + [s])[k] == steps[k]; }
    assert (steps + [s])[|steps|] == s;
  }

  /** What a step does to one job. */
  ghost predicate JobGoesOn(a: State, b: State, j: nat) {
    && j < |a.jobs| <= |b.jobs| && b.jobs[j].key == a.jobs[j].key && b.jobs[j].scope == a.jobs[j].scope
    && (a.jobs[j].stage == Ended(Failed) ==> b.jobs[j] == a.jobs[j])
    && (a.jobs[j].stored ==> b.jobs[j].stored && b.jobs[j].reportId == a.jobs[j].reportId)
  }

  lemma StepLetsJobGoOn(a: State, s: Step, scannerVersion: string, j: nat)
    requires Inv(a) && Sound(a) && Enabled(a, s) && j < |a.jobs|
    ensures JobGoesOn(a, Apply(a, s, scannerVersion), j)
  {
    assert JobFits(a, a.jobs[j]);
    match s
    case WebhookStep(_, _, _) =>
    case ClaimStep(_, _) =>
    case ScanReturnedStep(i, ok, stored, now) => assert i == j ==> !a.jobs[j].stored;
    case SaveReturnedStep(i, ok, published, now) => SaveReturnedGoesOn(a, i, ok, published, now, j);
    case PublishReturnedStep(i, ok, now) => PublishReturnedGoesOn(a, i, ok, now, j);
  }

  lemma SaveReturnedGoesOn(a: State, i: nat, ok: bool, published: bool, now: int, j: nat)
    requires i < |a.jobs| && j < |a.jobs| && a.jobs[i].key in a.records && a.jobs[i].stage == Saving
    ensures JobGoesOn(a, SaveReturned(a, i, ok, published, now), j)
  {
  }

  lemma PublishReturnedGoesOn(a: State, i: nat, ok: bool, now: int, j: nat)
    requires i < |a.jobs| && j < |a.jobs| && a.jobs[i].key in a.records && a.jobs[i].stage == Publishing
    ensures JobGoesOn(a, PublishReturned(a, i, ok, now), j)
  {
  }

  lemma StepKeepsIdentity(a: State, s: Step, scannerVersion: string, key: string)
    requires Inv(a) && Sound(a) && Enabled(a, s) && key in a.records
    ensures key in Apply(a, s, scannerVersion).records
    ensures Apply(a, s, scannerVersion).records[key].identity == a.records[key].identity
  {
    match s
    case WebhookStep(r, scope, now) =>
      WebhookEffect(a, r, scope, scannerVersion, now, key);
      WebhookStamps(a, r, scope, scannerVersion, now, key);
    case ClaimStep(_, _) =>
    case _ => StepMovesOn(a, s, scannerVersion, key);
  }

  /** A new job comes from a claim, a new report from a job. */
  lemma StepBrings(a: State, s: Step, scannerVersion: string)
    requires Inv(a) && Sound(a) && Enabled(a, s)
    ensures var b := Apply(a, s, scannerVersion);
      && |b.jobs| <= |a.jobs| + 1 && |b.reports| <= |a.reports| + 1 && a.reports <= b.reports
      && (|b.jobs| > |a.jobs| ==>
            var job := b.jobs[|a.jobs|];
            && s.ClaimStep? && job.scope == s.scope && job.key in b.records && !job.stored && !job.published
            && (job.stage == Ended(Failed) || Open(job.scope, b.records[job.key].identity)))
      && (|b.reports| > |a.reports| ==> ReportIsTraced(b, b.reports[|a.reports|]))
  {
    match s
    case WebhookStep(_, _, _) =>
    case ClaimStep(scope, now) =>
      var first := FirstQueued(a.records, a.order);
      if first.Some? { ClaimStartsExactlyWhen(a, scope, now, first.value); }
    case ScanReturnedStep(j, ok, stored, now) => assert Apply(a, s, scannerVersion).jobs[j].key == a.jobs[j].key;
    case SaveReturnedStep(_, _, _, _) =>
    case PublishReturnedStep(_, _, _) =>
  }

  lemma StepTracesJobs(steps: seq<Step>, a: State, s: Step, scannerVersion: string, j: nat)
    requires Inv(a) && Sound(a) && Enabled(a, s) && AllTraced(steps, a) && j < |Apply(a, s, scannerVersion).jobs|
    ensures var b := Apply(a, s, scannerVersion); JobIsTraced(steps + [s], b, b.jobs[j])
  {
    var b := Apply(a, s, scannerVersion);
    ReadFurther(steps, s, b.jobs[j].scope);
    if j < |a.jobs| {
      assert JobIsTraced(steps, a, a.jobs[j]);
      StepLetsJobGoOn(a, s, scannerVersion, j);
      StepKeepsIdentity(a, s, scannerVersion, a.jobs[j].key);
    } else {
      StepBrings(a, s, scannerVersion);
    }
  }

  lemma StepTracesReports(steps: seq<Step>, a: State, s: Step, scannerVersion: string, i: nat)
    requires Inv(a) && Sound(a) && Enabled(a, s) && AllTraced(steps, a) && i < |Apply(a, s, scannerVersion).reports|
    ensures var b := Apply(a, s, scannerVersion); ReportIsTraced(b, b.reports[i])
  {
    var b := Apply(a, s, scannerVersion);
    StepBrings(a, s, scannerVersion);
    if i < |a.reports| {
      assert b.reports[i] == a.reports[i] && ReportIsTraced(a, a.reports[i]);
      var j :| 0 <= j < |a.jobs| && a.jobs[j].key == a.reports[i].jobKey && a.jobs[j].stored &&
               a.jobs[j].reportId == a.reports[i].id;
      StepLetsJobGoOn(a, s, scannerVersion, j);
    }
  }

  lemma StepTracesAll(steps: seq<Step>, a: State, s: Step, scannerVersion: string)
    requires Inv(a) && Sound(a) && Enabled(a, s) && AllTraced(steps, a)
    ensures AllTraced(steps + [s], Apply(a, s, scannerVersion))
  {
    var b := Apply(a, s, scannerVersion);
    forall j | 0 <= j < |b.jobs| ensures JobIsTraced(steps + [s], b, b.jobs[j]) {
      StepTracesJobs(steps, a, s, scannerVersion, j);
    }
    forall i | 0 <= i < |b.reports| ensures ReportIsTraced(b, b.reports[i]) {
      StepTracesReports(steps, a, s, scannerVersion, i);
    }
  }

  lemma LastStepTracesAll(steps: seq<Step>, a: State, scannerVersion: string)
    requires steps != [] && Inv(a) && JobsHaveRecords(a) && Enabled(a, steps[|steps| - 1])
    requires AllTraced(steps[..|steps| - 1], a)
    ensures AllTraced(steps, Apply(a, steps[|steps| - 1], scannerVersion))
  {
    StepTracesAll(steps[..|steps| - 1], a, steps[|steps| - 1], scannerVersion);
    assert steps == steps[..|steps| - 1] + [steps[|steps| - 1]];
  }

  /** Main result: in every run, a job scans, stores or publishes only if the scope its claim read selects the
      repository of its record and does not remove it, and every stored report is that of such a job. */
  lemma {:induction false} ScansAreAuthorized(steps: seq<Step>, scannerVersion: string)
    requires Run(steps, scannerVersion).Some?
    ensures AllTraced(steps, Run(steps, scannerVersion).value)
  {
    if steps != [] {
      var front, s := steps[..|steps| - 1], steps[|steps| - 1];
      ScansAreAuthorized(front, scannerVersion);
      StepKeepsInv(Run(front, scannerVersion).value, s, scannerVersion);
      LastStepTracesAll(steps, Run(front, scannerVersion).value, scannerVersion);
    }
  }
}
