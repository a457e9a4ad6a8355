/** The service runtime itself: the shared `Map` of records that handlers and worker runs update in
    place. Each handler, and each stretch of a worker run between two awaits, is proved to take the
    protocol step of `ScanQueue`. */
module ScanService {
  import opened Text
  import opened ScanIdentity
  import opened ScanQueue

  class QueueRecord {
    const key: string
    const identity: Identity
    const createdAt: int
    var status: Status
    var attempt: nat
    var deliveryIds: seq<string>
    var updatedAt: int
    var reportId: Option<string>

    function Value(): Record
      reads this
    {
      Record(identity, status, attempt, deliveryIds, createdAt, updatedAt, reportId)
    }

    constructor (identity: Identity, deliveryId: string, now: int)
      ensures key == Key(identity) && Value() == Record(identity, Queued, 1, [deliveryId], now, now, None)
    {
      this.key, this.identity, createdAt := Key(identity), identity, now;
      status, attempt, deliveryIds, updatedAt, reportId := Queued, 1, [deliveryId], now, None;
    }
  }

  class HostedService {
    const scannerVersion: string
    var records: map<string, QueueRecord>
    var order: seq<string>
    var seenDeliveryIds: set<string>
    var reports: seq<StoredReport>
    var checks: seq<string>
    var jobs: seq<Job>          // the local variables of the worker runs

    ghost predicate Valid()
      reads this, records.Values
    {
      && (forall k :: k in records ==> records[k].key == k)
      && Ordered(Now()) && JobsHaveRecords(Now())
    }

    ghost function Now(): State
      reads this, records.Values
    {
      State(map k | k in records :: records[k].Value(), order, seenDeliveryIds, reports, checks, jobs)
    }

    constructor (scannerVersion: string)
      ensures this.scannerVersion == scannerVersion && Valid() && Now() == INIT
    {
      this.scannerVersion := scannerVersion;
      records, order, seenDeliveryIds, reports, checks, jobs := map[], [], {}, [], [], [];
    }

    method HandlePullRequestWebhook(r: Request, scope: Scope, now: int) returns (result: WebhookResult)
      requires Valid()
      modifies this, records.Values
      ensures Valid() && fresh(records.Values - old(records.Values))
      ensures (Now(), result) == Webhook(old(Now()), r, scope, scannerVersion, now)
    {
      match r.signature {
        case Missing => return Rejected(MissingSignature);
        case Malformed => return Rejected(MalformedSignature);
        case Mismatch => return Rejected(InvalidSignature);
        case Genuine =>
      }
      if r.deliveryId == "" {
        assert Now() == old(Now()).(seen := old(seenDeliveryIds));
        return Rejected(MissingDeliveryId);
      }
      if r.deliveryId in seenDeliveryIds {
        return Rejected(ReplayedDeliveryId);
      }
      seenDeliveryIds := seenDeliveryIds + {r.deliveryId};
      assert Now() == old(Now()).(seen := seenDeliveryIds);

      var event := ParseEvent(r.payload, scannerVersion, r.allowDraft);
      if event.NoIdentity? {
        return Rejected(event.reason);
      }
      var i := event.identity;
      if i.repositoryId in RepositoryIds(scope.removed, i.installationId) {
        return Rejected(RepositoryRemoved);
      }
      if i.repositoryId !in RepositoryIds(scope.selected, i.installationId) {
        return Rejected(RepositoryNotInstalled);
      }
      var decision := PlanQueueUpsert(i, r.deliveryId, now, r.manualRerun);
      return Accepted(decision);
    }

    method InsertRecord(record: QueueRecord)
      requires Valid() && record.key !in records
      modifies this`records, this`order
      ensures Valid() && records.Values == old(records.Values) + {record}
      ensures Now() == old(Now()).(records := old(Now()).records[record.key := record.Value()],
                                   order := old(order) + [record.key])
    {
      records := records[record.key := record];
      order := order + [record.key];
      assert Now().records == old(Now()).records[record.key := record.Value()];
      assert record.key !in old(order) by { assert record.key !in old(Now()).records; }
      assert records.Values == old(records.Values) + {record} by {
        assert records[record.key] == record;
        forall k | k in old(records) ensures records[k] == old(records)[k] {}
      }
    }

    method TouchRecord(key: string, deliveryId: string, now: int, manualRerun: bool)
      requires Valid() && key in records
      modifies records[key]
      ensures Valid()
      ensures var was := old(Now()).records[key];
        var record := was.(deliveryIds := AddDelivery(was.deliveryIds, deliveryId), updatedAt := now);
        Now() == old(Now()).(records := old(Now()).records[key :=
          if manualRerun then record.(attempt := was.attempt + 1, status := Queued) else record])
    {
      var existing := records[key];
      if deliveryId !in existing.deliveryIds {
        existing.deliveryIds := existing.deliveryIds + [deliveryId];
      }
      if manualRerun {
        existing.attempt := existing.attempt + 1;
        existing.status := Queued;
      }
      existing.updatedAt := now;
      assert existing.deliveryIds == AddDelivery(old(existing.deliveryIds), deliveryId);
      OnlyOneTouched(key);
      NowFits(key);
    }

    /** What is left to check of the state. */
    twostate lemma NowFits(key: string)
      requires old(Valid()) && key in records && records == old(records) && order == old(order)
      requires seenDeliveryIds == old(seenDeliveryIds) && reports == old(reports)
      requires checks == old(checks) && jobs == old(jobs)
      requires Now().records == old(Now()).records[key := records[key].Value()]
      ensures Valid() && Now() == old(Now()).(records := old(Now()).records[key := records[key].Value()])
    {
    }

    method CompleteRecord(key: string, reportId: string, now: int)
      requires Valid() && key in records
      modifies records[key]
      ensures Valid()
      ensures Now() == old(Now()).(records := old(Now()).records[key :=
                old(Now()).records[key].(status := Completed, reportId := Some(reportId), updatedAt := now)])
    {
      var record := records[key];
      record.status := Completed;
      record.reportId := Some(reportId);
      record.updatedAt := now;
      OnlyOneTouched(key);
    }

    /** `planHostedScanQueueUpsert`. */
    method PlanQueueUpsert(i: Identity, deliveryId: string, now: int, manualRerun: bool) returns (decision: Decision)
      requires Valid()
      modifies this`records, this`order, records.Values
      ensures Valid() && fresh(records.Values - old(records.Values))
      ensures (Now(), decision) == Upsert(old(Now()), i, deliveryId, now, manualRerun)
    {
      var key := Key(i);
      if key !in records {
        var record := new QueueRecord(i, deliveryId, now);
        InsertRecord(record);
        return Decision(key, true, None, 1, true, false);
      }
      assert records[key] in records.Values;
      decision := ReuseRecord(i, deliveryId, now, manualRerun);
    }

    /** The part for a key that is already queued, running or done. */
    method ReuseRecord(i: Identity, deliveryId: string, now: int, manualRerun: bool) returns (decision: Decision)
      requires Valid() && Key(i) in records
      modifies records[Key(i)]
      ensures Valid()
      ensures (Now(), decision) == Upsert(old(Now()), i, deliveryId, now, manualRerun)
    {
      var key := Key(i);
      var existingStatus := records[key].status;
      assert Now().records[key] == records[key].Value();
      TouchRecord(key, deliveryId, now, manualRerun);
      assert Now().records[key] == records[key].Value();
      if manualRerun {
        return Decision(key, false, Some(existingStatus), records[key].attempt, true, false);
      }
      return Decision(key, false, Some(existingStatus), records[key].attempt, false, existingStatus == Completed);
    }

    /** Updating the record of one key leaves the records of the other keys alone. */
    twostate lemma OnlyOneTouched(key: string)
      requires old(Valid()) && key in records && records == old(records)
      requires forall r :: r in records.Values && r != records[key] ==> unchanged(r)
      ensures Now().records == old(Now()).records[key := records[key].Value()]
    {
      forall k | k in records && k != key ensures records[k].Value() == old(records[k].Value()) {
        assert records[k].key == k && records[key].key == key;
        assert records[k] in records.Values;
      }
    }

    /** `nextQueuedRecord`. */
    method NextQueuedRecord() returns (key: Option<string>)
      requires Valid()
      ensures key == FirstQueued(Now().records, order)
    {
      for n := 0 to |order|
        invariant FirstQueued(Now().records, order) == FirstQueued(Now().records, order[n..])
      {
        assert order[n] in order && order[n..][1..] == order[n + 1..];
        if records[order[n]].status == Queued {
          return Some(order[n]);
        }
      }
      return None;
    }

    method SetRecordStatus(key: string, status: Status, now: int)
      requires Valid() && key in records
      modifies records[key]
      ensures Valid() && Now() == SetStatus(old(Now()), key, status, now)
    {
      var record := records[key];
      record.status := status;
      record.updatedAt := now;
      OnlyOneTouched(key);
    }

    /** The status a claim leaves behind: running, or failed at once if the scan plan is refused. */
    method MarkClaimed(key: string, scope: Scope, now: int) returns (accepted: bool)
      requires Valid() && key in records
      modifies records[key]
      ensures Valid()
      ensures accepted == Authorized(scope, old(Now()).records[key].identity)
      ensures Now() == SetStatus(old(Now()), key, if accepted then Running else Failed, now)
    {
      assert records[key].identity == Now().records[key].identity;
      SetRecordStatus(key, Running, now);
      accepted := Authorized(scope, records[key].identity);
      if !accepted {
        SetRecordStatus(key, Failed, now);
      }
    }

    /** `runNextQueuedScan` up to its first await; `job` is where its local variables are kept. */
    method ClaimNext(scope: Scope, now: int) returns (job: Option<nat>)
      requires Valid()
      modifies this`jobs, records.Values
      ensures Valid() && records == old(records)
      ensures Now() == Claim(old(Now()), scope, now)
      ensures job == if FirstQueued(old(Now()).records, old(order)).None? then None else Some(old(|jobs|))
    {
      var key := NextQueuedRecord();
      if key.None? {
        return None;
      }
      assert key.value in Now().records;
      assert records[key.value] in records.Values;
      job := Some(|jobs|);
      ClaimKey(key.value, scope, now);
    }

    method ClaimKey(key: string, scope: Scope, now: int)
      requires Valid() && key in records
      modifies this`jobs, records[key]
      ensures Valid() && Now() == ClaimRecord(old(Now()), key, scope, now)
    {
      var accepted := MarkClaimed(key, scope, now);
      StartJob(Job(key, scope, if accepted then Scanning else Ended(Failed), "", false, false));
    }

    method StartJob(job: Job)
      requires Valid() && job.key in records
      modifies this`jobs
      ensures Valid() && Now() == old(Now()).(jobs := old(jobs) + [job])
    {
      jobs := jobs + [job];
      assert Now().records == old(Now()).records;
    }

    method FailJob(j: nat, now: int)
      requires Valid() && j < |jobs|
      modifies this`jobs, records.Values
      ensures Valid() && records == old(records)
      ensures Now() == Fail(old(Now()), j, now)
    {
      assert jobs[j].key in Now().records;
      assert records[jobs[j].key] in records.Values;
      SetRecordStatus(jobs[j].key, Failed, now);
      jobs := jobs[j := jobs[j].(stage := Ended(Failed))];
    }

    /** From the return of the scan runner to the await of the report store. */
    method AfterScan(j: nat, ok: bool, stored: bool, now: int)
      requires Valid() && j < |jobs| && jobs[j].stage == Scanning
      modifies this`jobs, this`reports, records.Values
      ensures Valid() && records == old(records)
      ensures Now() == ScanReturned(old(Now()), j, ok, stored, now)
    {
      if !ok {
        FailJob(j, now);
        return;
      }
      var key := jobs[j].key;
      assert key in Now().records;
      var reportId := ReportId(key, records[key].attempt);
      if stored {
        reports := reports + [StoredReport(reportId, key, now)];
      }
      jobs := jobs[j := jobs[j].(stage := Saving, reportId := reportId, stored := stored)];
      assert Now().records == old(Now()).records;
    }

    /** From the return of the report store to the await of the publisher. */
    method AfterSave(j: nat, ok: bool, published: bool, now: int)
      requires Valid() && j < |jobs| && jobs[j].stage == Saving
      modifies this`jobs, this`checks, records.Values
      ensures Valid() && records == old(records)
      ensures Now() == SaveReturned(old(Now()), j, ok, published, now)
    {
      var job := jobs[j];
      assert job.key in Now().records;
      if !ok || !Authorized(job.scope, records[job.key].identity) {
        FailJob(j, now);
        return;
      }
      if published {
        checks := checks + [job.key];
      }
      jobs := jobs[j := job.(stage := Publishing, published := published)];
      assert Now().records == old(Now()).records;
    }

    /** From the return of the publisher to the end. */
    method AfterPublish(j: nat, ok: bool, now: int)
      requires Valid() && j < |jobs| && jobs[j].stage == Publishing
      modifies this`jobs, records.Values
      ensures Valid() && records == old(records)
      ensures Now() == PublishReturned(old(Now()), j, ok, now)
    {
      if !ok {
        FailJob(j, now);
        return;
      }
      var job := jobs[j];
      assert job.key in Now().records;
      assert records[job.key] in records.Values;
      CompleteRecord(job.key, job.reportId, now);
      SetJobState(j, job.(stage := Ended(Completed)));
    }

    method SetJobState(j: nat, job: Job)
      requires Valid() && j < |jobs| && job.key == jobs[j].key
      modifies this`jobs
      ensures Valid() && Now() == SetJob(old(Now()), j, job)
    {
      assert jobs[j].key in Now().records;
      jobs := jobs[j := job];
      assert Now().records == old(Now()).records;
    }
  }
}
