/** Runs of the queue taken further: the state after more steps, what a step of a worker run under way
    changes, and how the queue drains when one worker run follows another. */
module ScanQueueRuns {
  import opened ScanQueue
  import opened ScanQueueSafety
  import opened Text

  // ---------------------------------------------------------------- going on from a state

  ghost predicate InFlight(st: State, key: string) {
    exists j :: 0 <= j < |st.jobs| && st.jobs[j].key == key && !st.jobs[j].stage.Ended?
  }

  /** A new job changes nothing for the other keys. */
  lemma OneMoreJob(a: State, b: State, job: Job, key: string)
    requires b.jobs == a.jobs + [job]
    ensures InFlight(a, key) ==> InFlight(b, key)
    ensures job.key != key && InFlight(b, key) ==> InFlight(a, key)
  {
    if InFlight(a, key) {
      var j :| 0 <= j < |a.jobs| && a.jobs[j].key == key && !a.jobs[j].stage.Ended?;
      assert b.jobs[j] == a.jobs[j];
    }
  }

  lemma UnendedIsInFlight(st: State, j: nat)
    requires j < |st.jobs| && !st.jobs[j].stage.Ended?
    ensures InFlight(st, st.jobs[j].key)
  {
  }

  /** A step of a worker run under way: no webhook and no new claim. */
  predicate GoesOn(s: Step) { s.ScanReturnedStep? || s.SaveReturnedStep? || s.PublishReturnedStep? }

  /** What the steps need to be defined; every state that keeps the invariant is sound. */
  ghost predicate Sound(st: State) { Ordered(st) && JobsHaveRecords(st) }

  lemma InvIsSound(st: State)
    requires Inv(st)
    ensures Sound(st)
  {
    forall j | 0 <= j < |st.jobs| ensures st.jobs[j].key in st.records { assert JobFits(st, st.jobs[j]); }
  }

  /** The state after `steps` from `st`, if each of them could be taken. */
  ghost function After(st: State, steps: seq<Step>, scannerVersion: string): Option<State> {
    if steps == [] then Some(st)
    else
      match After(st, steps[..|steps| - 1], scannerVersion)
      case None => None
      case Some(b) =>
        var s := steps[|steps| - 1];
        if Sound(b) && Enabled(b, s) then Some(Apply(b, s, scannerVersion)) else None
  }

  lemma AfterOne(st: State, steps: seq<Step>, s: Step, scannerVersion: string)
    requires match After(st, steps, scannerVersion) case None => false case Some(b) => Sound(b) && Enabled(b, s)
    ensures After(st, steps + [s], scannerVersion) ==
            Some(Apply(After(st, steps, scannerVersion).value, s, scannerVersion))
  {
    assert (steps + [s])[..|steps|] == steps;
  }

  lemma {:induction false} AfterAfter(st: State, steps: seq<Step>, more: seq<Step>, scannerVersion: string)
    requires After(st, steps, scannerVersion).Some?
    ensures After(st, steps + more, scannerVersion) ==
            After(After(st, steps, scannerVersion).value, more, scannerVersion)
  {
    if more == [] {
      assert steps + more == steps;
    } else {
      var front := more[..|more| - 1];
      assert (steps + more)[..|steps + more| - 1] == steps + front;
      AfterAfter(st, steps, front, scannerVersion);
    }
  }

  lemma {:induction false} AfterKeepsInv(st: State, steps: seq<Step>, scannerVersion: string)
    requires Inv(st) && After(st, steps, scannerVersion).Some?
    ensures Inv(After(st, steps, scannerVersion).value)
  {
    if steps != [] {
      var front := steps[..|steps| - 1];
      AfterKeepsInv(st, front, scannerVersion);
      StepKeepsInv(After(st, front, scannerVersion).value, steps[|steps| - 1], scannerVersion);
    }
  }

  /** A run goes on where it stopped. */
  lemma {:induction false} RunAfter(steps: seq<Step>, more: seq<Step>, scannerVersion: string)
    requires Run(steps, scannerVersion).Some?
    ensures Run(steps + more, scannerVersion) == After(Run(steps, scannerVersion).value, more, scannerVersion)
  {
    if more == [] {
      assert steps + more == steps;
    } else {
      var front := more[..|more| - 1];
      assert (steps + more)[..|steps + more| - 1] == steps + front;
      RunAfter(steps, front, scannerVersion);
      if Run(steps + front, scannerVersion).Some? { InvIsSound(Run(steps + front, scannerVersion).value); }
    }
  }

  /** One such step on job `j`: only its record and its own stage change, and ending it un-queues the record. */
  ghost predicate MovesOn(a: State, b: State, j: nat, key: string) {
    && j < |a.jobs| && |b.jobs| == |a.jobs| && b.jobs == a.jobs[j := b.jobs[j]] && b.jobs[j].key == a.jobs[j].key
    && !a.jobs[j].stage.Ended? && key in a.records && key in b.records
    && (key != a.jobs[j].key ==> b.records[key] == a.records[key])
    && (if b.jobs[j].stage.Ended? && key == a.jobs[j].key then b.records[key].status != Queued
        else b.records[key].status == a.records[key].status)
  }

  lemma StepMovesOn(a: State, s: Step, scannerVersion: string, key: string)
    requires Inv(a) && Enabled(a, s) && JobsHaveRecords(a) && GoesOn(s) && key in a.records
    ensures MovesOn(a, Apply(a, s, scannerVersion), s.job, key)
  {
    match s
    case ScanReturnedStep(j, ok, stored, now) => ScanReturnedMovesOn(a, j, ok, stored, now, key);
    case SaveReturnedStep(j, ok, published, now) => SaveReturnedMovesOn(a, j, ok, published, now, key);
    case PublishReturnedStep(j, ok, now) => PublishReturnedMovesOn(a, j, ok, now, key);
  }

  lemma ScanReturnedMovesOn(a: State, j: nat, ok: bool, stored: bool, now: int, key: string)
    requires j < |a.jobs| && a.jobs[j].stage == Scanning && a.jobs[j].key in a.records && key in a.records
    ensures MovesOn(a, ScanReturned(a, j, ok, stored, now), j, key)
  {
  }

  lemma SaveReturnedMovesOn(a: State, j: nat, ok: bool, published: bool, now: int, key: string)
    requires j < |a.jobs| && a.jobs[j].stage == Saving && a.jobs[j].key in a.records && key in a.records
    ensures MovesOn(a, SaveReturned(a, j, ok, published, now), j, key)
  {
  }

  lemma PublishReturnedMovesOn(a: State, j: nat, ok: bool, now: int, key: string)
    requires j < |a.jobs| && a.jobs[j].stage == Publishing && a.jobs[j].key in a.records && key in a.records
    ensures MovesOn(a, PublishReturned(a, j, ok, now), j, key)
  {
  }

  lemma MoveKeepsQueued(a: State, b: State, j: nat, key: string)
    requires MovesOn(a, b, j, key)
    ensures !InFlight(a, key) ==> !InFlight(b, key) && b.records[key].status == a.records[key].status
    ensures InFlight(a, key) ==> InFlight(b, key) || b.records[key].status != Queued
    ensures a.records[key].status != Queued ==> b.records[key].status != Queued
  {
    if InFlight(a, key) && !(b.jobs[j].stage.Ended? && key == a.jobs[j].key) {
      var i :| 0 <= i < |a.jobs| && a.jobs[i].key == key && !a.jobs[i].stage.Ended?;
      assert b.jobs[i].key == key && !b.jobs[i].stage.Ended?;
    }
    if InFlight(b, key) {
      var i :| 0 <= i < |b.jobs| && b.jobs[i].key == key && !b.jobs[i].stage.Ended?;
      assert a.jobs[i].key == key && !a.jobs[i].stage.Ended?;
    }
  }

  /** A webhook leaves jobs and reports alone and never lowers an attempt; a record it queues gets a new one. */
  lemma WebhookEffect(a: State, r: Request, scope: Scope, scannerVersion: string, now: int, key: string)
    requires key in a.records
    ensures var b := Webhook(a, r, scope, scannerVersion, now).0;
      && b.jobs == a.jobs && b.reports == a.reports && key in b.records
      && a.records[key].attempt <= b.records[key].attempt
      && (b.records[key].status == a.records[key].status || a.records[key].attempt < b.records[key].attempt)
  {
  }

  // ---------------------------------------------------------------- draining

  /** How one whole worker run went: `ok` answers of the runner, the store and the publisher. */
  datatype Outcome = Outcome(scope: Scope, scanOk: bool, stored: bool, saveOk: bool, published: bool, publishOk: bool,
                             now: int)

  /** `runNextQueuedScan` from start to end with nothing in between. */
  function Tick(st: State, o: Outcome): State
    requires Ordered(st)
  {
    if FirstQueued(st.records, st.order).None? then st
    else
      var st1 := Claim(st, o.scope, o.now);
      if st1.jobs[|st.jobs|].stage == Scanning then Finish(st1, |st.jobs|, o) else st1
  }

  /** What follows the first `await`. */
  function Finish(st: State, j: nat, o: Outcome): State
    requires j < |st.jobs| && st.jobs[j].key in st.records
  {
    var st2 := ScanReturned(st, j, o.scanOk, o.stored && o.scanOk, o.now);
    if !o.scanOk then st2
    else
      var saved := o.saveOk && o.stored;
      var st3 := SaveReturned(st2, j, saved, o.published && saved, o.now);
      if st3.jobs[j].stage == Publishing then PublishReturned(st3, j, o.publishOk && o.published, o.now) else st3
  }

  function QueuedIn(records: map<string, Record>, order: seq<string>): nat
    requires forall k :: k in order ==> k in records
  {
    if order == [] then 0 else Bit(records[order[0]].status == Queued) + QueuedIn(records, order[1..])
  }

  function Waiting(st: State): nat
    requires Ordered(st)
  {
    QueuedIn(st.records, st.order)
  }

  lemma {:induction false} QueuedInChange(a: map<string, Record>, b: map<string, Record>, order: seq<string>,
                                          key: string)
    requires forall k :: k in order ==> k in a && k in b
    requires forall k :: k in order && k != key ==> b[k] == a[k]
    requires forall i, j :: 0 <= i < j < |order| ==> order[i] != order[j]
    ensures key in order && a[key].status == Queued && b[key].status != Queued ==>
            QueuedIn(a, order) == QueuedIn(b, order) + 1
    ensures key !in order ==> QueuedIn(a, order) == QueuedIn(b, order)
  {
    if order != [] {
      QueuedInChange(a, b, order[1..], key);
    }
  }

  lemma {:induction false} NoneQueued(records: map<string, Record>, order: seq<string>)
    requires forall k :: k in order ==> k in records
    ensures QueuedIn(records, order) == 0 <==> forall k :: k in order ==> records[k].status != Queued
  {
    if order != [] {
      NoneQueued(records, order[1..]);
      assert order == [order[0]] + order[1..];
    }
  }

  /** Only the record `key` may differ. */
  ghost predicate OthersSame(a: State, b: State, key: string) {
    && b.order == a.order && b.records.Keys == a.records.Keys
    && forall k :: k in a.records && k != key ==> b.records[k] == a.records[k]
  }

  lemma FinishEnds(st: State, j: nat, o: Outcome)
    requires j < |st.jobs| && st.jobs[j].key in st.records
    ensures var key, b := st.jobs[j].key, Finish(st, j, o);
      && OthersSame(st, b, key) && |b.jobs| == |st.jobs|
      && (b.records[key].status == Completed || b.records[key].status == Failed)
  {
    var key := st.jobs[j].key;
    var st2 := ScanReturned(st, j, o.scanOk, o.stored && o.scanOk, o.now);
    ScanReturnedTouchesOne(st, j, o.scanOk, o.stored && o.scanOk, o.now);
    if o.scanOk {
      var saved := o.saveOk && o.stored;
      var st3 := SaveReturned(st2, j, saved, o.published && saved, o.now);
      SaveReturnedTouchesOne(st2, j, saved, o.published && saved, o.now);
      if st3.jobs[j].stage == Publishing {
        PublishReturnedTouchesOne(st3, j, o.publishOk && o.published, o.now);
      }
    }
  }

  /** The step touched one record and one job, and the record has ended if the job has. */
  ghost predicate TouchesOne(a: State, b: State, j: nat)
    requires j < |a.jobs| && a.jobs[j].key in a.records
  {
    var key := a.jobs[j].key;
    && OthersSame(a, b, key) && |b.jobs| == |a.jobs| && b.jobs[j].key == key
    && (b.jobs[j].stage.Ended? ==> b.records[key].status == Completed || b.records[key].status == Failed)
  }

  lemma ScanReturnedTouchesOne(st: State, j: nat, ok: bool, stored: bool, now: int)
    requires j < |st.jobs| && st.jobs[j].key in st.records
    ensures TouchesOne(st, ScanReturned(st, j, ok, stored, now), j)
    ensures !ok ==> ScanReturned(st, j, ok, stored, now).jobs[j].stage.Ended?
  {
  }

  lemma SaveReturnedTouchesOne(st: State, j: nat, ok: bool, published: bool, now: int)
    requires j < |st.jobs| && st.jobs[j].key in st.records
    ensures TouchesOne(st, SaveReturned(st, j, ok, published, now), j)
    ensures var stage := SaveReturned(st, j, ok, published, now).jobs[j].stage; stage.Ended? || stage == Publishing
  {
  }

  lemma PublishReturnedTouchesOne(st: State, j: nat, ok: bool, now: int)
    requires j < |st.jobs| && st.jobs[j].key in st.records
    ensures TouchesOne(st, PublishReturned(st, j, ok, now), j) && PublishReturned(st, j, ok, now).jobs[j].stage.Ended?
  {
  }

  /** One worker run ends exactly one queued record, the first, and leaves every other record alone. */
  lemma TickEndsOne(st: State, o: Outcome)
    requires Ordered(st)
    ensures var b := Tick(st, o);
      match FirstQueued(st.records, st.order)
      case None => b == st
      case Some(key) =>
        && OthersSame(st, b, key) && |b.jobs| == |st.jobs| + 1
        && (b.records[key].status == Completed || b.records[key].status == Failed)
  {
    var first := FirstQueued(st.records, st.order);
    if first.Some? {
      var st1 := Claim(st, o.scope, o.now);
      assert OthersSame(st, st1, first.value) && st1.jobs[|st.jobs|].key == first.value;
      if st1.jobs[|st.jobs|].stage == Scanning { FinishEnds(st1, |st.jobs|, o); }
    }
  }

  lemma TickDrains(st: State, o: Outcome)
    requires Ordered(st)
    ensures Ordered(Tick(st, o))
    ensures Waiting(Tick(st, o)) == if Waiting(st) == 0 then 0 else Waiting(st) - 1
    ensures |Tick(st, o).jobs| == |st.jobs| + if Waiting(st) == 0 then 0 else 1
  {
    TickEndsOne(st, o);
    NoneQueued(st.records, st.order);
    var first := FirstQueued(st.records, st.order);
    if first.Some? {
      QueuedInChange(st.records, Tick(st, o).records, st.order, first.value);
    }
  }

  ghost function Ticks(st: State, outcomes: seq<Outcome>): (r: State)
    requires Ordered(st)
    ensures Ordered(r)
    decreases |outcomes|
  {
    if outcomes == [] then st
    else
      TickDrains(st, outcomes[0]);
      Ticks(Tick(st, outcomes[0]), outcomes[1..])
  }

  /** Main result: with no new webhooks, `n` worker runs end `n` queued records as long as there are
      any, whatever each run's outcome; the queue is drained by exactly as many as were waiting. */
  lemma {:induction false} QueueDrains(st: State, outcomes: seq<Outcome>)
    requires Ordered(st)
    ensures var b := Ticks(st, outcomes);
      && Waiting(b) == (if |outcomes| < Waiting(st) then Waiting(st) - |outcomes| else 0)
      && |b.jobs| - |st.jobs| == (if |outcomes| < Waiting(st) then |outcomes| else Waiting(st))
    decreases |outcomes|
  {
    if outcomes != [] {
      TickDrains(st, outcomes[0]);
      QueueDrains(Tick(st, outcomes[0]), outcomes[1..]);
    }
  }

  /** ... and each record that waited ends completed or failed while the others stay as they were. */
  lemma {:induction false} DrainTouchesQueuedOnly(st: State, outcomes: seq<Outcome>, key: string)
    requires Ordered(st) && key in st.records && |outcomes| >= Waiting(st)
    ensures var b := Ticks(st, outcomes);
      && key in b.records
      && if st.records[key].status == Queued
         then b.records[key].status == Completed || b.records[key].status == Failed
         else b.records[key] == st.records[key]
    decreases |outcomes|
  {
    NoneQueued(st.records, st.order);
    if outcomes != [] {
      TickDrains(st, outcomes[0]);
      TickEndsOne(st, outcomes[0]);
      DrainTouchesQueuedOnly(Tick(st, outcomes[0]), outcomes[1..], key);
    }
  }
}
