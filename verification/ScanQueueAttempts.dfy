/** Which attempt a report is filed under when manual reruns come in between. */
module ScanQueueAttempts {
  import opened ScanIdentity
  import opened ScanQueue
  import opened ScanQueueIds
  import opened ScanQueueRuns
  import opened ScanQueueSafety
  import opened Text

  // ---------------------------------------------------------------- accepted reruns

  /** The step is a manual rerun of `key` that the webhook answers as accepted, for a record there is. */
  predicate Reruns(st: State, s: Step, scannerVersion: string, key: string) {
    && s.WebhookStep? && s.request.manualRerun
    && match Webhook(st, s.request, s.scope, scannerVersion, s.now).1
       case Rejected(_) => false
       case Accepted(decision) => decision.key == key && !decision.created
  }

  ghost predicate RerunAmong(st: State, steps: seq<Step>, scannerVersion: string, key: string)
    requires After(st, steps, scannerVersion).Some?
  {
    steps != [] &&
    (RerunAmong(st, steps[..|steps| - 1], scannerVersion, key) ||
     Reruns(After(st, steps[..|steps| - 1], scannerVersion).value, steps[|steps| - 1], scannerVersion, key))
  }

  lemma WebhookCounts(a: State, r: Request, scope: Scope, scannerVersion: string, now: int, key: string)
    requires key in a.records
    ensures var b := Webhook(a, r, scope, scannerVersion, now).0;
      && key in b.records
      && b.records[key].attempt ==
           a.records[key].attempt + Bit(Reruns(a, WebhookStep(r, scope, now), scannerVersion, key))
  {
  }

  /** An attempt is counted for each accepted rerun and for nothing else. */
  lemma StepCounts(a: State, s: Step, scannerVersion: string, key: string)
    requires Inv(a) && Sound(a) && Enabled(a, s) && key in a.records
    ensures var b := Apply(a, s, scannerVersion);
      key in b.records && b.records[key].attempt == a.records[key].attempt + Bit(Reruns(a, s, scannerVersion, key))
  {
    match s
    case WebhookStep(r, scope, now) => WebhookCounts(a, r, scope, scannerVersion, now, key);
    case ClaimStep(scope, now) => ClaimCounts(a, scope, now, key);
    case ScanReturnedStep(j, ok, stored, now) => ScanReturnedCounts(a, j, ok, stored, now, key);
    case SaveReturnedStep(j, ok, published, now) => SaveReturnedCounts(a, j, ok, published, now, key);
    case PublishReturnedStep(j, ok, now) => PublishReturnedCounts(a, j, ok, now, key);
  }

  ghost predicate SameAttempt(a: State, b: State, key: string)
    requires key in a.records
  {
    key in b.records && b.records[key].attempt == a.records[key].attempt
  }

  lemma ClaimCounts(a: State, scope: Scope, now: int, key: string)
    requires Ordered(a) && key in a.records
    ensures SameAttempt(a, Claim(a, scope, now), key)
  {
  }

  lemma ScanReturnedCounts(a: State, j: nat, ok: bool, stored: bool, now: int, key: string)
    requires j < |a.jobs| && a.jobs[j].key in a.records && key in a.records
    ensures SameAttempt(a, ScanReturned(a, j, ok, stored, now), key)
  {
  }

  lemma SaveReturnedCounts(a: State, j: nat, ok: bool, published: bool, now: int, key: string)
    requires j < |a.jobs| && a.jobs[j].key in a.records && key in a.records
    ensures SameAttempt(a, SaveReturned(a, j, ok, published, now), key)
  {
  }

  lemma PublishReturnedCounts(a: State, j: nat, ok: bool, now: int, key: string)
    requires j < |a.jobs| && a.jobs[j].key in a.records && key in a.records
    ensures SameAttempt(a, PublishReturned(a, j, ok, now), key)
  {
  }

  lemma {:induction false} AttemptsCount(st: State, steps: seq<Step>, scannerVersion: string, key: string)
    requires Inv(st) && key in st.records && After(st, steps, scannerVersion).Some?
    ensures var b := After(st, steps, scannerVersion).value;
      && key in b.records && st.records[key].attempt <= b.records[key].attempt
      && (b.records[key].attempt == st.records[key].attempt <==> !RerunAmong(st, steps, scannerVersion, key))
  {
    if steps != [] {
      var front := steps[..|steps| - 1];
      AttemptsCount(st, front, scannerVersion, key);
      AfterKeepsInv(st, front, scannerVersion);
      StepCounts(After(st, front, scannerVersion).value, steps[|steps| - 1], scannerVersion, key);
    }
  }

  // ---------------------------------------------------------------- what a job carries

  /** The job is still there and works on the same key; once its scan has returned its report is settled. */
  ghost predicate StillThere(a: State, b: State, j: nat) {
    && j < |a.jobs| <= |b.jobs| && b.jobs[j].key == a.jobs[j].key
    && (a.jobs[j].stage != Scanning ==> b.jobs[j].stage != Scanning && b.jobs[j].reportId == a.jobs[j].reportId)
    && a.reports <= b.reports
  }

  lemma StepLeavesJob(a: State, s: Step, scannerVersion: string, j: nat)
    requires Sound(a) && Enabled(a, s) && j < |a.jobs|
    ensures StillThere(a, Apply(a, s, scannerVersion), j)
  {
  }

  lemma {:induction false} JobStays(st: State, steps: seq<Step>, scannerVersion: string, j: nat)
    requires j < |st.jobs| && After(st, steps, scannerVersion).Some?
    ensures StillThere(st, After(st, steps, scannerVersion).value, j)
  {
    if steps != [] {
      var front := steps[..|steps| - 1];
      JobStays(st, front, scannerVersion, j);
      StepLeavesJob(After(st, front, scannerVersion).value, steps[|steps| - 1], scannerVersion, j);
    }
  }

  // ---------------------------------------------------------------- completing

  /** The record is completed and names the report of the attempt it has reached. */
  predicate NamesCurrentReport(st: State, key: string) {
    && key in st.records && st.records[key].status == Completed
    && st.records[key].reportId == Some(ReportId(key, st.records[key].attempt))
  }

  lemma CompletionNames(c: State, j: nat, later: int, n: nat)
    requires j < |c.jobs| && c.jobs[j].key in c.records && c.jobs[j].reportId == ReportId(c.jobs[j].key, n)
    ensures NamesCurrentReport(PublishReturned(c, j, true, later), c.jobs[j].key) <==>
            c.records[c.jobs[j].key].attempt == n
  {
    ReportIdInjective(c.jobs[j].key, n, c.jobs[j].key, c.records[c.jobs[j].key].attempt);
  }

  /** Main result, both ways: between the return of a scan and the answer of the publisher anything may
      happen. The job then completes its record, and the report named is that of the record's current
      attempt exactly if no rerun of the key was accepted since the scan returned. */
  lemma CompletesCurrentAttemptExactlyWhen(a: State, j: nat, stored: bool, now: int, steps: seq<Step>, later: int,
                                           scannerVersion: string)
    requires Inv(a) && j < |a.jobs| && a.jobs[j].stage == Scanning
    ensures a.jobs[j].key in a.records
    ensures var key, b := a.jobs[j].key, ScanReturned(a, j, true, stored, now);
      match After(b, steps, scannerVersion)
      case None => true
      case Some(c) =>
        && j < |c.jobs| && c.jobs[j].key == key && key in c.records
        && PublishReturned(c, j, true, later).records[key].status == Completed
        && (NamesCurrentReport(PublishReturned(c, j, true, later), key) <==> !RerunAmong(b, steps, scannerVersion, key))
  {
    assert JobFits(a, a.jobs[j]);
    ScanReturnedKeepsInv(a, j, true, stored, now);
    var key, b := a.jobs[j].key, ScanReturned(a, j, true, stored, now);
    if After(b, steps, scannerVersion).Some? {
      JobStays(b, steps, scannerVersion, j);
      AttemptsCount(b, steps, scannerVersion, key);
      CompletionNames(After(b, steps, scannerVersion).value, j, later, a.records[key].attempt);
    }
  }

  /** A rerun between the two: the record ends completed, with the report of the attempt before. */
  lemma CompletedCanNameOlderReport(scannerVersion: string) returns (steps: seq<Step>, key: string)
    ensures match Run(steps, scannerVersion)
      case None => false
      case Some(st) => key in st.records && st.records[key].status == Completed && !NamesCurrentReport(st, key)
  {
    var scope := Scope(map[1 := [2]], map[]);
    assert Authorized(scope, Sample(scannerVersion));
    steps := PublishingRun(scope, scannerVersion);
    key := Key(Sample(scannerVersion));
    var st := Run(steps, scannerVersion).value;
    RunOne(steps, PublishReturnedStep(0, true, 0), scannerVersion);
    CompletionNames(st, 0, 0, st.records[key].attempt - 1);
    steps := steps + [PublishReturnedStep(0, true, 0)];
  }

  /** The job's report is of the attempt before the one the record has. */
  ghost predicate FallsBehind(st: State, i: Identity, job: Job) {
    && OnlyRecord(st, i, Queued, {"a"} + {"bb"}) && st.records[Key(i)].attempt >= 1
    && st.jobs == [job] && job.key == Key(i) && job.reportId == ReportId(Key(i), st.records[Key(i)].attempt - 1)
  }

  lemma SavedIsPublishing(st: State, i: Identity, scope: Scope)
    requires Authorized(scope, i) && |st.jobs| == 1 && FallsBehind(st, i, st.jobs[0])
    requires st.jobs[0] == Job(Key(i), scope, Saving, st.jobs[0].reportId, true, false)
    ensures var b := SaveReturned(st, 0, true, true, 0);
      FallsBehind(b, i, st.jobs[0].(stage := Publishing, published := true))
  {
  }

  lemma PublishingRun(scope: Scope, scannerVersion: string) returns (steps: seq<Step>)
    requires Authorized(scope, Sample(scannerVersion))
    ensures match Run(steps, scannerVersion)
      case None => false
      case Some(st) => exists id: string ::
        FallsBehind(st, Sample(scannerVersion), Job(Key(Sample(scannerVersion)), scope, Publishing, id, true, true))
  {
    steps := RerunBehindScan(scope, scannerVersion);
    SavedIsPublishing(Run(steps, scannerVersion).value, Sample(scannerVersion), scope);
    RunOne(steps, SaveReturnedStep(0, true, true, 0), scannerVersion);
    steps := steps + [SaveReturnedStep(0, true, true, 0)];
  }

  lemma RerunBehindScan(scope: Scope, scannerVersion: string) returns (steps: seq<Step>)
    requires Authorized(scope, Sample(scannerVersion))
    ensures match Run(steps, scannerVersion)
      case None => false
      case Some(st) =>
        && |st.jobs| == 1 && FallsBehind(st, Sample(scannerVersion), st.jobs[0])
        && st.jobs[0] == Job(Key(Sample(scannerVersion)), scope, Saving, st.jobs[0].reportId, true, false)
  {
    steps := ScanningRun(scope, scannerVersion);
    RunOne(steps, ScanReturnedStep(0, true, true, 0), scannerVersion);
    steps := steps + [ScanReturnedStep(0, true, true, 0)];
    assert |"a"| != |"bb"|;
    DeliverRun(steps, "bb", true, scope, scannerVersion);
    steps := steps + [WebhookStep(Request(Genuine, "bb", OPENED, true, false), scope, 0)];
  }

  // ---------------------------------------------------------------- two scans of one key

  /** Main result, both ways: two scans of one key return, and anything may happen in between. Their
      reports, both stored, have one id exactly if no rerun of the key was accepted in between. */
  lemma ScansShareIdExactlyWhen(a: State, i: nat, j: nat, now: int, steps: seq<Step>, later: int,
                                scannerVersion: string)
    requires Inv(a) && i < |a.jobs| && j < |a.jobs| && a.jobs[i].key == a.jobs[j].key && a.jobs[i].stage == Scanning
    ensures a.jobs[i].key in a.records
    ensures var key, b := a.jobs[i].key, ScanReturned(a, i, true, true, now);
      match After(b, steps, scannerVersion)
      case None => true
      case Some(c) =>
        && j < |c.jobs| && c.jobs[j].key in c.records
        && var d := ScanReturned(c, j, true, true, later);
           && |a.reports| < |b.reports| <= |c.reports| < |d.reports| && b.reports <= d.reports
           && (d.reports[|a.reports|].id == d.reports[|c.reports|].id <==> !RerunAmong(b, steps, scannerVersion, key))
  {
    assert JobFits(a, a.jobs[i]);
    ScanReturnedKeepsInv(a, i, true, true, now);
    var key, b := a.jobs[i].key, ScanReturned(a, i, true, true, now);
    if After(b, steps, scannerVersion).Some? {
      var c := After(b, steps, scannerVersion).value;
      JobStays(b, steps, scannerVersion, j);
      AttemptsCount(b, steps, scannerVersion, key);
      ReportIdInjective(key, a.records[key].attempt, key, c.records[key].attempt);
      assert c.reports[|a.reports|] == b.reports[|a.reports|];
    }
  }
}
