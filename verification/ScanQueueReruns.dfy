/** What becomes of a manual rerun that arrives while worker runs are under way. */
module ScanQueueReruns {
  import opened ScanIdentity
  import opened ScanQueue
  import opened ScanQueueAttempts
  import opened ScanQueueRuns
  import opened ScanQueueSafety
  import opened Text

  /** The step neither claims `key` nor reruns it. */
  ghost predicate LeavesAlone(st: State, s: Step, scannerVersion: string, key: string)
    requires Sound(st)
  {
    !Reruns(st, s, scannerVersion, key) && (s.ClaimStep? ==> FirstQueued(st.records, st.order) != Some(key))
  }

  ghost predicate AllLeaveAlone(st: State, steps: seq<Step>, scannerVersion: string, key: string)
    requires After(st, steps, scannerVersion).Some?
  {
    steps != [] ==>
      var front := steps[..|steps| - 1];
      && AllLeaveAlone(st, front, scannerVersion, key)
      && LeavesAlone(After(st, front, scannerVersion).value, steps[|steps| - 1], scannerVersion, key)
  }

  /** What may become of a key that was queued. */
  ghost predicate QueuedStill(a: State, b: State, key: string)
    requires key in a.records
  {
    && key in b.records
    && (!InFlight(a, key) ==> !InFlight(b, key) && b.records[key].status == a.records[key].status)
    && (InFlight(a, key) ==> InFlight(b, key) || b.records[key].status != Queued)
    && (a.records[key].status != Queued ==> b.records[key].status != Queued)
  }

  lemma WebhookLeavesQueued(a: State, r: Request, scope: Scope, scannerVersion: string, now: int, key: string)
    requires key in a.records && !Reruns(a, WebhookStep(r, scope, now), scannerVersion, key)
    ensures QueuedStill(a, Webhook(a, r, scope, scannerVersion, now).0, key)
  {
    assert InFlight(Webhook(a, r, scope, scannerVersion, now).0, key) == InFlight(a, key);
  }

  lemma ClaimLeavesQueued(a: State, scope: Scope, now: int, key: string)
    requires Ordered(a) && key in a.records && FirstQueued(a.records, a.order) != Some(key)
    ensures QueuedStill(a, Claim(a, scope, now), key)
  {
    var b, first := Claim(a, scope, now), FirstQueued(a.records, a.order);
    if first.Some? { OneMoreJob(a, b, b.jobs[|a.jobs|], key); }
  }

  lemma StepLeavesQueued(a: State, s: Step, scannerVersion: string, key: string)
    requires Inv(a) && Sound(a) && Enabled(a, s) && key in a.records && LeavesAlone(a, s, scannerVersion, key)
    ensures QueuedStill(a, Apply(a, s, scannerVersion), key)
  {
    match s
    case WebhookStep(r, scope, now) => WebhookLeavesQueued(a, r, scope, scannerVersion, now, key);
    case ClaimStep(scope, now) => ClaimLeavesQueued(a, scope, now, key);
    case _ =>
      StepMovesOn(a, s, scannerVersion, key);
      MoveKeepsQueued(a, Apply(a, s, scannerVersion), s.job, key);
  }

  lemma {:induction false} QueuedWhileOthersGoOn(st: State, steps: seq<Step>, scannerVersion: string, key: string)
    requires Inv(st) && key in st.records && st.records[key].status == Queued && After(st, steps, scannerVersion).Some?
    requires AllLeaveAlone(st, steps, scannerVersion, key)
    ensures var b := After(st, steps, scannerVersion).value;
      && key in b.records
      && if InFlight(st, key) then InFlight(b, key) || b.records[key].status != Queued
         else !InFlight(b, key) && b.records[key].status == Queued
  {
    if steps != [] {
      var front := steps[..|steps| - 1];
      QueuedWhileOthersGoOn(st, front, scannerVersion, key);
      AfterKeepsInv(st, front, scannerVersion);
      StepLeavesQueued(After(st, front, scannerVersion).value, steps[|steps| - 1], scannerVersion, key);
    }
  }

  /** Main result, both ways: webhooks, claims and worker runs go on in any order, but nobody claims the key
      or reruns it again. When the worker runs on it have all ended, a manual rerun is still queued exactly
      if none of them was on it when it arrived; otherwise the end of that run overwrote its status. */
  lemma RerunSurvivesExactlyWhen(a: State, i: Identity, deliveryId: string, now: int, steps: seq<Step>,
                                 scannerVersion: string)
    requires Inv(a) && Key(i) in a.records && deliveryId in a.seen
    requires forall k :: k in a.records ==> deliveryId !in a.records[k].deliveryIds
    ensures var queued := Upsert(a, i, deliveryId, now, true).0;
      && Inv(queued)
      && (After(queued, steps, scannerVersion).Some? && AllLeaveAlone(queued, steps, scannerVersion, Key(i)) ==>
            var b := After(queued, steps, scannerVersion).value;
            Key(i) in b.records && (!InFlight(b, Key(i)) ==>
              (b.records[Key(i)].status == Queued <==> !InFlight(a, Key(i)))))
  {
    var queued := Upsert(a, i, deliveryId, now, true).0;
    UpsertKeepsInv(a, i, deliveryId, now, true);
    assert InFlight(queued, Key(i)) == InFlight(a, Key(i));
    if After(queued, steps, scannerVersion).Some? && AllLeaveAlone(queued, steps, scannerVersion, Key(i)) {
      QueuedWhileOthersGoOn(queued, steps, scannerVersion, Key(i));
    }
  }

  // ---------------------------------------------------------------- every interleaving

  /** A job that started as number `n` or later works on `key`. */
  ghost predicate TakenSince(st: State, key: string, n: nat) {
    exists j :: n <= j < |st.jobs| && st.jobs[j].key == key
  }

  /** The rerun waits, and nobody is on its key who could overwrite its status; or it has been claimed. */
  ghost predicate WaitsOrTaken(st: State, key: string, n: nat) {
    key in st.records && n <= |st.jobs| &&
      ((st.records[key].status == Queued && !InFlight(st, key)) || TakenSince(st, key, n))
  }

  lemma TakenStays(a: State, b: State, key: string, n: nat)
    requires TakenSince(a, key, n) && |a.jobs| <= |b.jobs|
    requires forall j :: 0 <= j < |a.jobs| ==> b.jobs[j].key == a.jobs[j].key
    ensures TakenSince(b, key, n)
  {
    var j :| n <= j < |a.jobs| && a.jobs[j].key == key;
    assert b.jobs[j].key == key;
  }

  lemma WebhookKeepsWaiting(a: State, r: Request, scope: Scope, scannerVersion: string, now: int, key: string, n: nat)
    requires WaitsOrTaken(a, key, n)
    ensures WaitsOrTaken(Webhook(a, r, scope, scannerVersion, now).0, key, n)
  {
    var b := Webhook(a, r, scope, scannerVersion, now).0;
    assert b.jobs == a.jobs;
    assert a.records[key].status == Queued ==> b.records[key].status == Queued;
    assert InFlight(b, key) == InFlight(a, key) && TakenSince(b, key, n) == TakenSince(a, key, n);
  }

  lemma ClaimKeepsWaiting(a: State, scope: Scope, now: int, key: string, n: nat)
    requires Ordered(a) && WaitsOrTaken(a, key, n)
    ensures WaitsOrTaken(Claim(a, scope, now), key, n)
  {
    var b, first := Claim(a, scope, now), FirstQueued(a.records, a.order);
    if first.Some? {
      assert b.jobs[..|a.jobs|] == a.jobs && b.jobs[|a.jobs|].key == first.value;
      assert forall j :: 0 <= j < |a.jobs| ==> b.jobs[j] == b.jobs[..|a.jobs|][j];
      if TakenSince(a, key, n) {
        TakenStays(a, b, key, n);
      } else {
        OneMoreJob(a, b, b.jobs[|a.jobs|], key);
      }
    }
  }

  lemma StepKeepsWaiting(a: State, s: Step, scannerVersion: string, key: string, n: nat)
    requires Inv(a) && Enabled(a, s) && JobsHaveRecords(a) && WaitsOrTaken(a, key, n)
    ensures WaitsOrTaken(Apply(a, s, scannerVersion), key, n)
  {
    match s
    case WebhookStep(r, scope, now) => WebhookKeepsWaiting(a, r, scope, scannerVersion, now, key, n);
    case ClaimStep(scope, now) => ClaimKeepsWaiting(a, scope, now, key, n);
    case _ =>
      StepMovesOn(a, s, scannerVersion, key);
      MoveKeepsWaiting(a, Apply(a, s, scannerVersion), s.job, key, n);
  }

  lemma MoveKeepsWaiting(a: State, b: State, j: nat, key: string, n: nat)
    requires WaitsOrTaken(a, key, n) && MovesOn(a, b, j, key)
    ensures WaitsOrTaken(b, key, n)
  {
    MoveKeepsQueued(a, b, j, key);
    if TakenSince(a, key, n) { TakenStays(a, b, key, n); }
  }

  lemma {:induction false} AfterKeepsWaiting(st: State, steps: seq<Step>, scannerVersion: string, key: string, n: nat)
    requires Inv(st) && WaitsOrTaken(st, key, n) && After(st, steps, scannerVersion).Some?
    ensures WaitsOrTaken(After(st, steps, scannerVersion).value, key, n)
  {
    if steps != [] {
      var front, s := steps[..|steps| - 1], steps[|steps| - 1];
      AfterKeepsWaiting(st, front, scannerVersion, key, n);
      var a := After(st, front, scannerVersion).value;
      AfterKeepsInv(st, front, scannerVersion);
      StepKeepsInv(a, s, scannerVersion);
      StepKeepsWaiting(a, s, scannerVersion, key, n);
    }
  }

  /** The rerun is still queued, or a job that started after it has claimed its key. */
  ghost predicate Kept(st: State, key: string, n: nat) {
    key in st.records && (st.records[key].status == Queued || TakenSince(st, key, n))
  }

  /** In every interleaving from `st` on. */
  ghost predicate AlwaysKept(st: State, key: string, n: nat, scannerVersion: string) {
    forall steps: seq<Step> :: After(st, steps, scannerVersion).Some? ==>
      Kept(After(st, steps, scannerVersion).value, key, n)
  }

  lemma FailingStep(st: State, j: nat, scannerVersion: string) returns (s: Step)
    requires Inv(st) && j < |st.jobs| && !st.jobs[j].stage.Ended? && st.jobs[j].key in st.records
    ensures After(st, [s], scannerVersion) == Some(Fail(st, j, 0))
  {
    InvIsSound(st);
    if st.jobs[j].stage == Scanning {
      s := ScanReturnedStep(j, false, false, 0);
    } else if st.jobs[j].stage == Saving {
      s := SaveReturnedStep(j, false, false, 0);
    } else {
      s := PublishReturnedStep(j, false, 0);
    }
    AfterOne(st, [], s, scannerVersion);
    assert [] + [s] == [s];
  }

  /** One failing answer to a worker run on the key loses the rerun. */
  lemma FailureLoses(st: State, key: string, scannerVersion: string) returns (s: Step)
    requires Inv(st) && key in st.records && InFlight(st, key)
    ensures var b := After(st, [s], scannerVersion); b.Some? && !Kept(b.value, key, |st.jobs|)
  {
    var j :| 0 <= j < |st.jobs| && st.jobs[j].key == key && !st.jobs[j].stage.Ended?;
    s := FailingStep(st, j, scannerVersion);
  }

  /** Main result, both ways, over every interleaving of webhooks, claims and worker runs: a manual rerun
      is sure to be still queued or claimed by a job that started after it exactly if no worker run was
      on its key when it arrived. */
  lemma RerunIsKeptExactlyWhen(a: State, i: Identity, deliveryId: string, now: int, scannerVersion: string)
    requires Inv(a) && Key(i) in a.records && deliveryId in a.seen
    requires forall k :: k in a.records ==> deliveryId !in a.records[k].deliveryIds
    ensures var queued := Upsert(a, i, deliveryId, now, true).0;
      Inv(queued) && (AlwaysKept(queued, Key(i), |a.jobs|, scannerVersion) <==> !InFlight(a, Key(i)))
  {
    var queued, key := Upsert(a, i, deliveryId, now, true).0, Key(i);
    UpsertKeepsInv(a, i, deliveryId, now, true);
    assert queued.jobs == a.jobs && InFlight(queued, key) == InFlight(a, key);
    QueuedIsKeptExactlyWhen(queued, key, scannerVersion);
  }

  lemma QueuedIsKeptExactlyWhen(queued: State, key: string, scannerVersion: string)
    requires Inv(queued) && key in queued.records && queued.records[key].status == Queued
    ensures AlwaysKept(queued, key, |queued.jobs|, scannerVersion) <==> !InFlight(queued, key)
  {
    if InFlight(queued, key) {
      var s := FailureLoses(queued, key, scannerVersion);
      assert After(queued, [s], scannerVersion).Some?;
    } else {
      forall steps: seq<Step> | After(queued, steps, scannerVersion).Some?
        ensures Kept(After(queued, steps, scannerVersion).value, key, |queued.jobs|)
      {
        AfterKeepsWaiting(queued, steps, scannerVersion, key, |queued.jobs|);
      }
    }
  }
}
