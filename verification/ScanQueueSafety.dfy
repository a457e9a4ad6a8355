/** What every interleaving of webhooks, manual reruns and worker runs keeps. */
module ScanQueueSafety {
  import opened Text
  import opened ScanIdentity
  import opened ScanQueue

  // ---------------------------------------------------------------- counting

  datatype Tally = Claims | Saves | Publishes

  predicate Counts(job: Job, key: string, t: Tally) {
    job.key == key && match t
      case Claims => true
      case Saves => job.stored
      case Publishes => job.published
  }

  /** How many worker runs claimed `key`, handed over a report of it, published a check run of it. */
  function CountJobs(jobs: seq<Job>, key: string, t: Tally): nat {
    if jobs == [] then 0
    else CountJobs(jobs[..|jobs| - 1], key, t) + Bit(Counts(jobs[|jobs| - 1], key, t))
  }

  function CountReports(reports: seq<StoredReport>, key: string): nat {
    if reports == [] then 0
    else CountReports(reports[..|reports| - 1], key) + Bit(reports[|reports| - 1].jobKey == key)
  }

  function CountChecks(checks: seq<string>, key: string): nat {
    if checks == [] then 0 else CountChecks(checks[..|checks| - 1], key) + Bit(checks[|checks| - 1] == key)
  }

  lemma {:induction false} CountUpdate(jobs: seq<Job>, j: nat, job: Job, key: string, t: Tally)
    requires j < |jobs|
    ensures CountJobs(jobs[j := job], key, t) + Bit(Counts(jobs[j], key, t)) ==
            CountJobs(jobs, key, t) + Bit(Counts(job, key, t))
  {
    var front, jobs' := jobs[..|jobs| - 1], jobs[j := job];
    if j == |jobs| - 1 {
      assert jobs'[..|jobs| - 1] == front;
    } else {
      assert jobs'[..|jobs| - 1] == front[j := job];
      CountUpdate(front, j, job, key, t);
    }
  }

  lemma CountAppend(jobs: seq<Job>, job: Job, key: string, t: Tally)
    ensures CountJobs(jobs + [job], key, t) == CountJobs(jobs, key, t) + Bit(Counts(job, key, t))
  {
  }

  lemma CountReportsAppend(reports: seq<StoredReport>, r: StoredReport, key: string)
    ensures CountReports(reports + [r], key) == CountReports(reports, key) + Bit(r.jobKey == key)
  {
  }

  lemma CountChecksAppend(checks: seq<string>, c: string, key: string)
    ensures CountChecks(checks + [c], key) == CountChecks(checks, key) + Bit(c == key)
  {
  }

  lemma {:induction false} TalliesDescend(jobs: seq<Job>, key: string)
    requires forall j :: 0 <= j < |jobs| ==> jobs[j].published ==> jobs[j].stored
    ensures CountJobs(jobs, key, Publishes) <= CountJobs(jobs, key, Saves) <= CountJobs(jobs, key, Claims)
  {
    if jobs != [] { TalliesDescend(jobs[..|jobs| - 1], key); }
  }

  // ---------------------------------------------------------------- the invariant

  predicate InStore(reports: seq<StoredReport>, id: string, key: string) {
    exists r :: r in reports && r.id == id && r.jobKey == key
  }

  ghost predicate JobFits(st: State, job: Job) {
    && job.key in st.records
    && (job.published ==> job.stored)
    && (job.stage == Scanning ==> !job.stored && !job.published)
    && (job.stage == Saving ==> !job.published)
    && (job.stage == Publishing ==> job.stored)
    && ((job.stage == Saving || job.stage == Publishing) ==> Authorized(job.scope, st.records[job.key].identity))
    && (job.stage == Scanning ==> Authorized(job.scope, st.records[job.key].identity))
    && (job.stage == Ended(Completed) ==> job.stored && job.published)
    && (job.stage.Ended? ==> job.stage.status == Completed || job.stage.status == Failed)
    && (job.stored ==> InStore(st.reports, job.reportId, job.key))
    && (job.published ==> job.key in st.checks)
  }

  ghost predicate RecordFits(st: State, key: string, r: Record) {
    && key == Key(r.identity)
    && r.attempt >= 1
    && (r.status == Completed ==>
          && r.reportId.Some?
          && InStore(st.reports, r.reportId.value, key)
          && key in st.checks)
    && (forall id :: id in r.deliveryIds ==> id in st.seen)
  }

  /** Stores and publisher agree with the jobs, and a queued record has an attempt left over. */
  ghost predicate Balanced(st: State, key: string) {
    && CountReports(st.reports, key) == CountJobs(st.jobs, key, Saves)
    && CountChecks(st.checks, key) == CountJobs(st.jobs, key, Publishes)
    && (key in st.records ==>
          CountJobs(st.jobs, key, Claims) + Bit(st.records[key].status == Queued) <= st.records[key].attempt)
    && (key !in st.records ==> CountJobs(st.jobs, key, Claims) == 0)
  }

  ghost predicate JobsFit(st: State) {
    forall j :: 0 <= j < |st.jobs| ==> JobFits(st, st.jobs[j])
  }

  ghost predicate RecordsFit(st: State) {
    forall k :: k in st.records ==> RecordFits(st, k, st.records[k])
  }

  ghost predicate AllBalanced(st: State) {
    forall k :: Balanced(st, k)
  }

  ghost predicate Inv(st: State) {
    Ordered(st) && JobsFit(st) && RecordsFit(st) && AllBalanced(st) && DeliveriesApart(st)
  }

  /** No delivery is noted on two records. */
  ghost predicate DeliveriesApart(st: State) {
    forall k, l, id ::
      (k in st.records && l in st.records && id in st.records[k].deliveryIds && id in st.records[l].deliveryIds) ==>
      k == l
  }

  /** Nothing is dropped from the stores. */
  ghost predicate StoresGrow(a: State, b: State) {
    && (forall r :: r in a.reports ==> r in b.reports)
    && (forall c :: c in a.checks ==> c in b.checks)
    && a.seen <= b.seen
  }

  lemma JobStillFits(a: State, b: State, job: Job)
    requires JobFits(a, job) && StoresGrow(a, b)
    requires job.key in b.records && b.records[job.key].identity == a.records[job.key].identity
    ensures JobFits(b, job)
  {
  }

  lemma RecordStillFits(a: State, b: State, key: string, r: Record)
    requires RecordFits(a, key, r) && StoresGrow(a, b)
    ensures RecordFits(b, key, r)
  {
  }

  /** Every record but `key` is as before; `key` keeps its identity and its deliveries. */
  ghost predicate OnlyTouches(a: State, b: State, key: string) {
    && key in a.records && b.records.Keys == a.records.Keys
    && b.order == a.order
    && (forall k :: k in a.records && k != key ==> b.records[k] == a.records[k])
    && b.records[key].identity == a.records[key].identity
    && b.records[key].deliveryIds == a.records[key].deliveryIds
    && b.records[key].attempt == a.records[key].attempt
    && b.seen == a.seen
  }

  /** A worker step: job `j` moves on, its record is updated, the stores may gain what it hands over. */
  ghost predicate JobMoves(a: State, b: State, j: nat) {
    && j < |a.jobs| && |b.jobs| == |a.jobs| && b.jobs == a.jobs[j := b.jobs[j]]
    && OnlyTouches(a, b, a.jobs[j].key) && StoresGrow(a, b)
    && b.jobs[j].key == a.jobs[j].key && JobFits(b, b.jobs[j])
    && RecordFits(b, a.jobs[j].key, b.records[a.jobs[j].key])
    && (b.records[a.jobs[j].key].status == Queued ==> a.records[a.jobs[j].key].status == Queued)
    && (a.jobs[j].stored ==> b.jobs[j].stored) && (a.jobs[j].published ==> b.jobs[j].published)
    && StoresMatch(a, b, j)
  }

  ghost predicate StoresMatch(a: State, b: State, j: nat)
    requires j < |a.jobs| && j < |b.jobs|
  {
    && (forall k :: CountReports(b.reports, k) ==
          CountReports(a.reports, k) + Bit(k == b.jobs[j].key && b.jobs[j].stored && !a.jobs[j].stored))
    && (forall k :: CountChecks(b.checks, k) ==
          CountChecks(a.checks, k) + Bit(k == b.jobs[j].key && b.jobs[j].published && !a.jobs[j].published))
  }

  lemma TouchKeepsOrder(a: State, b: State, key: string)
    requires OnlyTouches(a, b, key) && Ordered(a) && DeliveriesApart(a)
    ensures Ordered(b) && DeliveriesApart(b)
  {
    assert forall k :: k in a.records ==> b.records[k].deliveryIds == a.records[k].deliveryIds;
  }

  lemma JobMoveKeepsJobs(a: State, b: State, j: nat)
    requires Inv(a) && JobMoves(a, b, j)
    ensures JobsFit(b)
  {
    forall i | 0 <= i < |b.jobs| ensures JobFits(b, b.jobs[i]) {
      if i != j {
        assert JobFits(a, a.jobs[i]);
        JobStillFits(a, b, a.jobs[i]);
      }
    }
  }

  lemma JobMoveKeepsRecords(a: State, b: State, j: nat)
    requires Inv(a) && JobMoves(a, b, j)
    ensures RecordsFit(b)
  {
  }

  lemma JobMoveKeepsBalance(a: State, b: State, j: nat, k: string)
    requires Balanced(a, k) && JobMoves(a, b, j)
    ensures Balanced(b, k)
  {
    CountUpdate(a.jobs, j, b.jobs[j], k, Claims);
    CountUpdate(a.jobs, j, b.jobs[j], k, Saves);
    CountUpdate(a.jobs, j, b.jobs[j], k, Publishes);
  }

  lemma JobStepKeepsInv(a: State, b: State, j: nat)
    requires Inv(a) && JobMoves(a, b, j)
    ensures Inv(b)
  {
    JobMoveKeepsJobs(a, b, j);
    JobMoveKeepsRecords(a, b, j);
    TouchKeepsOrder(a, b, a.jobs[j].key);
    forall k ensures Balanced(b, k) {
      assert Balanced(a, k);
      JobMoveKeepsBalance(a, b, j, k);
    }
  }

  lemma FailKeepsInv(a: State, j: nat, now: int)
    requires Inv(a) && j < |a.jobs| && JobFits(a, a.jobs[j])
    ensures Inv(Fail(a, j, now))
  {
    JobStepKeepsInv(a, Fail(a, j, now), j);
  }

  lemma ScanReturnedKeepsInv(a: State, j: nat, ok: bool, stored: bool, now: int)
    requires Inv(a) && j < |a.jobs| && JobFits(a, a.jobs[j]) && a.jobs[j].stage == Scanning
    ensures Inv(ScanReturned(a, j, ok, stored, now))
  {
    var key := a.jobs[j].key;
    var b := ScanReturned(a, j, ok, stored, now);
    if !ok {
      FailKeepsInv(a, j, now);
    } else {
      var r := StoredReport(ReportId(key, a.records[key].attempt), key, now);
      forall k ensures CountReports(b.reports, k) == CountReports(a.reports, k) + Bit(k == key && stored) {
        CountReportsAppend(a.reports, r, k);
      }
      if stored { assert r in b.reports; }
      RecordStillFits(a, b, key, a.records[key]);
      JobStepKeepsInv(a, b, j);
    }
  }

  lemma SaveReturnedKeepsInv(a: State, j: nat, ok: bool, published: bool, now: int)
    requires Inv(a) && j < |a.jobs| && JobFits(a, a.jobs[j]) && a.jobs[j].stage == Saving && (ok ==> a.jobs[j].stored)
    ensures Inv(SaveReturned(a, j, ok, published, now))
  {
    var key := a.jobs[j].key;
    var b := SaveReturned(a, j, ok, published, now);
    if !ok || !Authorized(a.jobs[j].scope, a.records[key].identity) {
      FailKeepsInv(a, j, now);
    } else {
      forall k ensures CountChecks(b.checks, k) == CountChecks(a.checks, k) + Bit(k == key && published) {
        CountChecksAppend(a.checks, key, k);
      }
      if published { assert key in b.checks; }
      RecordStillFits(a, b, key, a.records[key]);
      JobStillFits(a, b, a.jobs[j]);
      JobStepKeepsInv(a, b, j);
    }
  }

  lemma PublishReturnedKeepsInv(a: State, j: nat, ok: bool, now: int)
    requires Inv(a) && j < |a.jobs| && JobFits(a, a.jobs[j]) && a.jobs[j].stage == Publishing &&
             (ok ==> a.jobs[j].published)
    ensures Inv(PublishReturned(a, j, ok, now))
  {
    if !ok { FailKeepsInv(a, j, now); } else { JobStepKeepsInv(a, PublishReturned(a, j, ok, now), j); }
  }

  lemma ClaimKeepsBalance(a: State, scope: Scope, now: int, k: string)
    requires Ordered(a) && Balanced(a, k)
    ensures Balanced(Claim(a, scope, now), k)
  {
    var b := Claim(a, scope, now);
    if FirstQueued(a.records, a.order).Some? {
      var job := b.jobs[|a.jobs|];
      CountAppend(a.jobs, job, k, Claims);
      CountAppend(a.jobs, job, k, Saves);
      CountAppend(a.jobs, job, k, Publishes);
    }
  }

  lemma ClaimKeepsJobs(a: State, scope: Scope, now: int)
    requires Inv(a)
    ensures JobsFit(Claim(a, scope, now))
  {
    var b := Claim(a, scope, now);
    forall i | 0 <= i < |b.jobs| ensures JobFits(b, b.jobs[i]) {
      if i < |a.jobs| {
        assert JobFits(a, a.jobs[i]);
        JobStillFits(a, b, a.jobs[i]);
      }
    }
  }

  lemma ClaimKeepsRecord(a: State, scope: Scope, now: int, k: string)
    requires Ordered(a) && k in a.records && RecordFits(a, k, a.records[k])
    ensures var b := Claim(a, scope, now); k in b.records && RecordFits(b, k, b.records[k])
  {
  }

  lemma ClaimKeepsInv(a: State, scope: Scope, now: int)
    requires Inv(a)
    ensures Inv(Claim(a, scope, now))
  {
    ClaimKeepsJobs(a, scope, now);
    var first := FirstQueued(a.records, a.order);
    if first.Some? { TouchKeepsOrder(a, Claim(a, scope, now), first.value); }
    forall k | k in a.records ensures RecordFits(Claim(a, scope, now), k, Claim(a, scope, now).records[k]) {
      assert RecordFits(a, k, a.records[k]);
      ClaimKeepsRecord(a, scope, now, k);
    }
    forall k ensures Balanced(Claim(a, scope, now), k) {
      assert Balanced(a, k);
      ClaimKeepsBalance(a, scope, now, k);
    }
  }

  lemma WebhookKeepsInv(a: State, r: Request, scope: Scope, scannerVersion: string, now: int)
    requires Inv(a)
    ensures Inv(Webhook(a, r, scope, scannerVersion, now).0)
  {
    var (refusal, seen) := VerifyWebhook(r, a.seen);
    var b := a.(seen := seen);
    SeenKeepsInv(a, b);
    if refusal.None? && r.deliveryId != "" {
      var event := ParseEvent(r.payload, scannerVersion, r.allowDraft);
      if event.Parsed? && Authorized(scope, event.identity) {
        assert r.deliveryId !in a.seen;
        assert forall k :: k in b.records ==> r.deliveryId !in b.records[k].deliveryIds by {
          forall k | k in a.records ensures r.deliveryId !in a.records[k].deliveryIds {
            assert RecordFits(a, k, a.records[k]);
          }
        }
        UpsertKeepsInv(b, event.identity, r.deliveryId, now, r.manualRerun);
      }
    }
  }

  lemma SeenKeepsInv(a: State, b: State)
    requires Inv(a) && a.seen <= b.seen && b == a.(seen := b.seen)
    ensures Inv(b)
  {
    forall i | 0 <= i < |b.jobs| ensures JobFits(b, b.jobs[i]) { JobStillFits(a, b, a.jobs[i]); }
    forall k | k in b.records ensures RecordFits(b, k, b.records[k]) { RecordStillFits(a, b, k, a.records[k]); }
    forall k ensures Balanced(b, k) { assert Balanced(a, k); }
  }

  lemma UpsertKeepsJobs(a: State, i: Identity, deliveryId: string, now: int, manualRerun: bool)
    requires JobsFit(a)
    requires forall k :: k in a.records ==> k == Key(a.records[k].identity)
    ensures JobsFit(Upsert(a, i, deliveryId, now, manualRerun).0)
  {
    var b := Upsert(a, i, deliveryId, now, manualRerun).0;
    forall x | 0 <= x < |b.jobs| ensures JobFits(b, b.jobs[x]) {
      assert JobFits(a, a.jobs[x]);
      JobStillFits(a, b, a.jobs[x]);
    }
  }

  lemma UpsertKeepsRecord(a: State, i: Identity, deliveryId: string, now: int, manualRerun: bool, k: string)
    requires deliveryId in a.seen && (k in a.records ==> RecordFits(a, k, a.records[k]))
    ensures var b := Upsert(a, i, deliveryId, now, manualRerun).0; k in b.records ==> RecordFits(b, k, b.records[k])
  {
  }

  lemma UpsertKeepsBalance(a: State, i: Identity, deliveryId: string, now: int, manualRerun: bool, k: string)
    requires Balanced(a, k)
    ensures Balanced(Upsert(a, i, deliveryId, now, manualRerun).0, k)
  {
  }

  lemma UpsertKeepsDeliveries(a: State, i: Identity, deliveryId: string, now: int, manualRerun: bool)
    requires DeliveriesApart(a) && forall k :: k in a.records ==> deliveryId !in a.records[k].deliveryIds
    ensures DeliveriesApart(Upsert(a, i, deliveryId, now, manualRerun).0)
  {
  }

  lemma UpsertKeepsOrder(a: State, i: Identity, deliveryId: string, now: int, manualRerun: bool)
    requires Ordered(a)
    ensures Ordered(Upsert(a, i, deliveryId, now, manualRerun).0)
  {
  }

  lemma UpsertKeepsInv(a: State, i: Identity, deliveryId: string, now: int, manualRerun: bool)
    requires Inv(a) && deliveryId in a.seen
    requires forall k :: k in a.records ==> deliveryId !in a.records[k].deliveryIds
    ensures Inv(Upsert(a, i, deliveryId, now, manualRerun).0)
  {
    var b := Upsert(a, i, deliveryId, now, manualRerun).0;
    forall k | k in a.records ensures k == Key(a.records[k].identity) { assert RecordFits(a, k, a.records[k]); }
    UpsertKeepsJobs(a, i, deliveryId, now, manualRerun);
    UpsertKeepsDeliveries(a, i, deliveryId, now, manualRerun);
    UpsertKeepsOrder(a, i, deliveryId, now, manualRerun);
    forall k | k in b.records ensures RecordFits(b, k, b.records[k]) {
      UpsertKeepsRecord(a, i, deliveryId, now, manualRerun, k);
    }
    forall k ensures Balanced(b, k) {
      assert Balanced(a, k);
      UpsertKeepsBalance(a, i, deliveryId, now, manualRerun, k);
    }
  }

  lemma StepKeepsInv(a: State, s: Step, scannerVersion: string)
    requires Inv(a) && Enabled(a, s)
    ensures JobsHaveRecords(a) && Inv(Apply(a, s, scannerVersion))
  {
    forall j | 0 <= j < |a.jobs| ensures a.jobs[j].key in a.records { assert JobFits(a, a.jobs[j]); }
    match s
    case WebhookStep(r, scope, now) => WebhookKeepsInv(a, r, scope, scannerVersion, now);
    case ClaimStep(scope, now) => ClaimKeepsInv(a, scope, now);
    case ScanReturnedStep(j, ok, stored, now) => ScanReturnedKeepsInv(a, j, ok, stored, now);
    case SaveReturnedStep(j, ok, published, now) => SaveReturnedKeepsInv(a, j, ok, published, now);
    case PublishReturnedStep(j, ok, now) => PublishReturnedKeepsInv(a, j, ok, now);
  }

  lemma InitInv()
    ensures Inv(INIT)
  {
  }

  // ---------------------------------------------------------------- runs

  /** The state after `steps`, if each of them could be taken. */
  ghost function Run(steps: seq<Step>, scannerVersion: string): (r: Option<State>)
    ensures r.Some? ==> Inv(r.value)
  {
    if steps == [] then
      InitInv();
      Some(INIT)
    else
      match Run(steps[..|steps| - 1], scannerVersion)
      case None => None
      case Some(st) =>
        var s := steps[|steps| - 1];
        if Enabled(st, s) then
          StepKeepsInv(st, s, scannerVersion);
          Some(Apply(st, s, scannerVersion))
        else None
  }

  /** Main result: in every interleaving, for every key, at most as many check runs are published as
      reports are stored, at most as many reports as there were claims, at most as many claims as
      attempts; and the stores hold exactly what the worker runs handed over. */
  lemma TalliesInEveryRun(steps: seq<Step>, scannerVersion: string, key: string)
    ensures match Run(steps, scannerVersion)
      case None => true
      case Some(st) =>
        && CountChecks(st.checks, key) <= CountReports(st.reports, key) <= CountJobs(st.jobs, key, Claims)
        && CountJobs(st.jobs, key, Claims) <= if key in st.records then st.records[key].attempt else 0
  {
    match Run(steps, scannerVersion)
    case None =>
    case Some(st) =>
      assert Balanced(st, key);
      forall j | 0 <= j < |st.jobs| ensures st.jobs[j].published ==> st.jobs[j].stored {
        assert JobFits(st, st.jobs[j]);
      }
      TalliesDescend(st.jobs, key);
  }

  /** Main result: a completed record names a report that is in the store under its key, and a check
      run was published for it. */
  lemma CompletedIsBacked(steps: seq<Step>, scannerVersion: string, key: string)
    ensures match Run(steps, scannerVersion)
      case None => true
      case Some(st) =>
        key in st.records && st.records[key].status == Completed ==>
          && st.records[key].reportId.Some?
          && InStore(st.reports, st.records[key].reportId.value, key)
          && key in st.checks
  {
  }

  /** A delivery id is noted on at most one record. */
  lemma DeliveryOnOneRecord(steps: seq<Step>, scannerVersion: string, id: string, k: string, l: string)
    ensures match Run(steps, scannerVersion)
      case None => true
      case Some(st) =>
        k in st.records && l in st.records && id in st.records[k].deliveryIds && id in st.records[l].deliveryIds ==>
          k == l
  {
  }

  /** The check run plan asks under the scope the claim was granted under, so it is never refused. */
  lemma PublicationIsNeverRefused(steps: seq<Step>, scannerVersion: string, j: nat)
    ensures match Run(steps, scannerVersion)
      case None => true
      case Some(st) =>
        j < |st.jobs| && st.jobs[j].stage == Saving ==>
          st.jobs[j].key in st.records && Authorized(st.jobs[j].scope, st.records[st.jobs[j].key].identity)
  {
  }

  ghost predicate NoReruns(steps: seq<Step>) {
    forall k :: 0 <= k < |steps| ==> steps[k].WebhookStep? ==> !steps[k].request.manualRerun
  }

  ghost predicate FirstAttempts(st: State) {
    forall k :: k in st.records ==> st.records[k].attempt == 1
  }

  lemma StepKeepsFirstAttempts(a: State, s: Step, scannerVersion: string)
    requires Enabled(a, s) && Ordered(a) && JobsHaveRecords(a) && FirstAttempts(a)
    requires s.WebhookStep? ==> !s.request.manualRerun
    ensures FirstAttempts(Apply(a, s, scannerVersion))
  {
  }

  lemma {:induction false} AttemptsStayOne(steps: seq<Step>, scannerVersion: string)
    requires Run(steps, scannerVersion).Some? && NoReruns(steps)
    ensures FirstAttempts(Run(steps, scannerVersion).value)
  {
    if steps != [] {
      var front, s := steps[..|steps| - 1], steps[|steps| - 1];
      AttemptsStayOne(front, scannerVersion);
      var a := Run(front, scannerVersion).value;
      StepKeepsInv(a, s, scannerVersion);
      StepKeepsFirstAttempts(a, s, scannerVersion);
    }
  }

  /** Main result: without manual reruns no key is ever claimed twice. */
  lemma ClaimedAtMostOnce(steps: seq<Step>, scannerVersion: string, key: string)
    requires NoReruns(steps)
    ensures match Run(steps, scannerVersion)
      case None => true
      case Some(st) => CountJobs(st.jobs, key, Claims) <= 1
  {
    if Run(steps, scannerVersion).Some? {
      AttemptsStayOne(steps, scannerVersion);
      TalliesInEveryRun(steps, scannerVersion, key);
    }
  }
}
