/** Report ids: the exact condition under which a report id is stored twice. */
module ScanQueueIds {
  import opened ScanIdentity
  import opened ScanQueue
  import opened ScanQueueRuns
  import opened ScanQueueSafety
  import opened Text

  // ---------------------------------------------------------------- spent keys

  ghost predicate BeingScanned(st: State, key: string) {
    exists j :: 0 <= j < |st.jobs| && st.jobs[j].key == key && st.jobs[j].stage == Scanning
  }

  predicate Stored(reports: seq<StoredReport>, id: string) {
    exists i :: 0 <= i < |reports| && reports[i].id == id
  }

  /** The id that a scan of `key` would store under is taken, or another scan is about to take it. */
  ghost predicate Spent(st: State, key: string)
    requires key in st.records
  {
    BeingScanned(st, key) || Stored(st.reports, ReportId(key, st.records[key].attempt))
  }

  /** A claim that starts a scan of a spent key; one refused by the scan plan starts none. */
  ghost predicate TakesSpent(st: State, s: Step)
    requires Ordered(st)
  {
    s.ClaimStep? &&
    match FirstQueued(st.records, st.order)
    case None => false
    case Some(key) => Spent(st, key) && Authorized(s.scope, st.records[key].identity)
  }

  ghost predicate FrugalRun(steps: seq<Step>, scannerVersion: string) {
    && Run(steps, scannerVersion).Some?
    && (steps != [] ==>
          && FrugalRun(steps[..|steps| - 1], scannerVersion)
          && !TakesSpent(Run(steps[..|steps| - 1], scannerVersion).value, steps[|steps| - 1]))
  }

  // ---------------------------------------------------------------- the invariant

  ghost predicate DistinctIds(reports: seq<StoredReport>) {
    forall i, j :: 0 <= i < j < |reports| ==> reports[i].id != reports[j].id
  }

  ghost predicate OneScan(st: State) {
    forall i, j :: 0 <= i < j < |st.jobs| && st.jobs[i].stage == st.jobs[j].stage == Scanning ==>
      st.jobs[i].key != st.jobs[j].key
  }

  /** The report was stored under an attempt its record has reached. */
  ghost predicate Dated(st: State, r: StoredReport) {
    r.jobKey in st.records && exists n: nat :: r.id == ReportId(r.jobKey, n) && n <= st.records[r.jobKey].attempt
  }

  ghost predicate AllDated(st: State) {
    forall i :: 0 <= i < |st.reports| ==> Dated(st, st.reports[i])
  }

  /** The id of the current attempt is free while a scan is going to use it ... */
  ghost predicate ScansFree(st: State) {
    forall j :: 0 <= j < |st.jobs| && st.jobs[j].stage == Scanning && st.jobs[j].key in st.records ==>
      !Stored(st.reports, ReportId(st.jobs[j].key, st.records[st.jobs[j].key].attempt))
  }

  /** ... and while the record is queued and no worker run is on it. */
  ghost predicate QueuedFree(st: State) {
    forall k :: k in st.records && st.records[k].status == Queued && !InFlight(st, k) ==>
      !Stored(st.reports, ReportId(k, st.records[k].attempt))
  }

  ghost predicate IdInv(st: State) {
    OneScan(st) && AllDated(st) && ScansFree(st) && QueuedFree(st) && DistinctIds(st.reports)
  }

  /** An attempt beyond the one reached has never been stored under. */
  lemma HigherIsFree(st: State, key: string, n: nat)
    requires AllDated(st) && (key in st.records ==> st.records[key].attempt < n)
    ensures !Stored(st.reports, ReportId(key, n))
  {
    forall i | 0 <= i < |st.reports| ensures st.reports[i].id != ReportId(key, n) {
      assert Dated(st, st.reports[i]);
      var m: nat :| st.reports[i].id == ReportId(st.reports[i].jobKey, m) &&
        m <= st.records[st.reports[i].jobKey].attempt;
      ReportIdInjective(st.reports[i].jobKey, m, key, n);
    }
  }

  lemma DatesStay(a: State, b: State)
    requires AllDated(a) && b.reports == a.reports
    requires forall k :: k in a.records ==> k in b.records && a.records[k].attempt <= b.records[k].attempt
    ensures AllDated(b)
  {
    forall i | 0 <= i < |b.reports| ensures Dated(b, b.reports[i]) {
      assert Dated(a, a.reports[i]);
    }
  }

  lemma WebhookKeepsIds(a: State, r: Request, scope: Scope, scannerVersion: string, now: int)
    requires Inv(a) && IdInv(a)
    ensures IdInv(Webhook(a, r, scope, scannerVersion, now).0)
  {
    var b := Webhook(a, r, scope, scannerVersion, now).0;
    forall k | k in a.records ensures QueuedOrSame(a, b, k) { WebhookEffect(a, r, scope, scannerVersion, now, k); }
    InvIsSound(a);
    QueueingKeepsIds(a, b);
  }

  /** The record is queued for a new attempt, or as before up to its deliveries. */
  ghost predicate QueuedOrSame(a: State, b: State, k: string)
    requires k in a.records
  {
    && k in b.records && a.records[k].attempt <= b.records[k].attempt
    && (b.records[k].status == a.records[k].status || a.records[k].attempt < b.records[k].attempt)
  }

  lemma QueueingKeepsIds(a: State, b: State)
    requires IdInv(a) && JobsHaveRecords(a) && b.jobs == a.jobs && b.reports == a.reports
    requires forall k :: k in a.records ==> QueuedOrSame(a, b, k)
    ensures IdInv(b)
  {
    forall k | k in a.records ensures k in b.records && a.records[k].attempt <= b.records[k].attempt {
      assert QueuedOrSame(a, b, k);
    }
    DatesStay(a, b);
    forall k | k in b.records && (k in a.records ==> a.records[k].attempt < b.records[k].attempt)
      ensures !Stored(b.reports, ReportId(k, b.records[k].attempt))
    {
      HigherIsFree(a, k, b.records[k].attempt);
    }
    forall k | k in b.records && b.records[k].status == Queued && !InFlight(b, k)
      ensures !Stored(b.reports, ReportId(k, b.records[k].attempt))
    {
      if k in a.records && b.records[k].attempt == a.records[k].attempt {
        assert QueuedOrSame(a, b, k) && InFlight(b, k) == InFlight(a, k);
      }
    }
  }

  lemma ClaimKeepsIds(a: State, scope: Scope, now: int)
    requires Inv(a) && IdInv(a) && !TakesSpent(a, ClaimStep(scope, now))
    ensures IdInv(Claim(a, scope, now))
  {
    var b, first := Claim(a, scope, now), FirstQueued(a.records, a.order);
    if first.Some? {
      assert forall j :: 0 <= j < |a.jobs| ==> b.jobs[j] == a.jobs[j];
      DatesStay(a, b);
      ClaimKeepsScans(a, scope, now, first.value);
      ClaimKeepsQueued(a, scope, now, first.value);
    }
  }

  lemma ClaimKeepsScans(a: State, scope: Scope, now: int, key: string)
    requires OneScan(a) && ScansFree(a) && key in a.records
    requires Spent(a, key) ==> !Authorized(scope, a.records[key].identity)
    ensures var b := ClaimRecord(a, key, scope, now); OneScan(b) && ScansFree(b)
  {
    assert forall j :: 0 <= j < |a.jobs| ==> ClaimRecord(a, key, scope, now).jobs[j] == a.jobs[j];
  }

  lemma ClaimKeepsQueued(a: State, scope: Scope, now: int, key: string)
    requires QueuedFree(a) && key in a.records
    ensures QueuedFree(ClaimRecord(a, key, scope, now))
  {
    var b := ClaimRecord(a, key, scope, now);
    assert forall j :: 0 <= j < |a.jobs| ==> b.jobs[j] == a.jobs[j];
    forall k | k in b.records && b.records[k].status == Queued && !InFlight(b, k)
      ensures !Stored(b.reports, ReportId(k, b.records[k].attempt))
    {
      assert k != key && b.records[k] == a.records[k];
      OneMoreJob(a, b, b.jobs[|a.jobs|], k);
    }
  }

  /** What a step of a worker run under way stores. */
  ghost predicate Stores(a: State, b: State, j: nat)
    requires j < |a.jobs| && a.jobs[j].key in a.records
  {
    && b.records.Keys == a.records.Keys && (forall k :: k in a.records ==> b.records[k].attempt == a.records[k].attempt)
    && |b.jobs| == |a.jobs| && b.jobs[j].stage != Scanning
    && (b.reports == a.reports ||
        (a.jobs[j].stage == Scanning && b.jobs[j].stage == Saving && |b.reports| == |a.reports| + 1 &&
         b.reports[..|a.reports|] == a.reports && b.reports[|a.reports|].jobKey == a.jobs[j].key &&
         b.reports[|a.reports|].id == ReportId(a.jobs[j].key, a.records[a.jobs[j].key].attempt)))
  }

  lemma StepStores(a: State, s: Step, scannerVersion: string)
    requires Inv(a) && Enabled(a, s) && JobsHaveRecords(a) && GoesOn(s)
    ensures s.job < |a.jobs| && Stores(a, Apply(a, s, scannerVersion), s.job)
  {
    match s
    case ScanReturnedStep(j, ok, stored, now) => ScanReturnedStores(a, j, ok, stored, now);
    case SaveReturnedStep(j, ok, published, now) => SaveReturnedStores(a, j, ok, published, now);
    case PublishReturnedStep(j, ok, now) => PublishReturnedStores(a, j, ok, now);
  }

  lemma ScanReturnedStores(a: State, j: nat, ok: bool, stored: bool, now: int)
    requires j < |a.jobs| && a.jobs[j].stage == Scanning && a.jobs[j].key in a.records
    ensures Stores(a, ScanReturned(a, j, ok, stored, now), j)
  {
  }

  lemma SaveReturnedStores(a: State, j: nat, ok: bool, published: bool, now: int)
    requires j < |a.jobs| && a.jobs[j].key in a.records
    ensures Stores(a, SaveReturned(a, j, ok, published, now), j)
  {
  }

  lemma PublishReturnedStores(a: State, j: nat, ok: bool, now: int)
    requires j < |a.jobs| && a.jobs[j].key in a.records
    ensures Stores(a, PublishReturned(a, j, ok, now), j)
  {
  }

  lemma OneMoreStored(reports: seq<StoredReport>, more: seq<StoredReport>, id: string)
    requires |more| == |reports| + 1 && more[..|reports|] == reports
    ensures id != more[|reports|].id ==> Stored(more, id) == Stored(reports, id)
  {
    assert forall i :: 0 <= i < |reports| ==> more[i] == more[..|reports|][i];
  }

  /** The id a scan stores is new. */
  lemma StoringIsFresh(a: State, b: State, j: nat)
    requires IdInv(a) && j < |a.jobs| && a.jobs[j].key in a.records && Stores(a, b, j) && b.reports != a.reports
    ensures DistinctIds(b.reports) && AllDated(b)
  {
    assert forall i :: 0 <= i < |a.reports| ==> b.reports[i] == b.reports[..|a.reports|][i];
    assert !Stored(a.reports, b.reports[|a.reports|].id);
    forall i | 0 <= i < |b.reports| ensures Dated(b, b.reports[i]) {
      if i < |a.reports| { assert Dated(a, a.reports[i]); }
    }
  }

  lemma StillFree(a: State, b: State, j: nat, k: string)
    requires IdInv(a) && j < |a.jobs| && a.jobs[j].key in a.records && Stores(a, b, j) && k in a.records
    requires !Stored(a.reports, ReportId(k, a.records[k].attempt)) && (b.reports != a.reports ==> k != a.jobs[j].key)
    ensures !Stored(b.reports, ReportId(k, b.records[k].attempt))
  {
    if b.reports != a.reports {
      var id := ReportId(k, a.records[k].attempt);
      ReportIdInjective(k, a.records[k].attempt, a.jobs[j].key, a.records[a.jobs[j].key].attempt);
      OneMoreStored(a.reports, b.reports, id);
    }
  }

  lemma MoveKeepsScans(a: State, b: State, j: nat)
    requires IdInv(a) && j < |a.jobs| && a.jobs[j].key in a.records && Stores(a, b, j)
    requires MovesOn(a, b, j, a.jobs[j].key)
    ensures OneScan(b) && ScansFree(b)
  {
    assert forall i :: 0 <= i < |b.jobs| && i != j ==> b.jobs[i] == a.jobs[i];
    forall i | 0 <= i < |b.jobs| && b.jobs[i].stage == Scanning && b.jobs[i].key in b.records
      ensures !Stored(b.reports, ReportId(b.jobs[i].key, b.records[b.jobs[i].key].attempt))
    {
      StillFree(a, b, j, a.jobs[i].key);
    }
  }

  lemma MoveKeepsQueuedFree(a: State, b: State, j: nat)
    requires IdInv(a) && j < |a.jobs| && a.jobs[j].key in a.records && Stores(a, b, j)
    requires forall k :: k in a.records ==> MovesOn(a, b, j, k)
    ensures QueuedFree(b)
  {
    forall k | k in b.records && b.records[k].status == Queued && !InFlight(b, k)
      ensures !Stored(b.reports, ReportId(k, b.records[k].attempt))
    {
      assert MovesOn(a, b, j, k);
      MoveKeepsQueued(a, b, j, k);
      if b.reports != a.reports { UnendedIsInFlight(b, j); }
      StillFree(a, b, j, k);
    }
  }

  lemma MoveKeepsIds(a: State, b: State, j: nat)
    requires Inv(a) && IdInv(a) && j < |a.jobs| && a.jobs[j].key in a.records && Stores(a, b, j)
    requires forall k :: k in a.records ==> MovesOn(a, b, j, k)
    ensures IdInv(b)
  {
    assert MovesOn(a, b, j, a.jobs[j].key);
    MoveKeepsScans(a, b, j);
    MoveKeepsQueuedFree(a, b, j);
    if b.reports == a.reports { DatesStay(a, b); } else { StoringIsFresh(a, b, j); }
  }

  lemma StepKeepsIds(a: State, s: Step, scannerVersion: string)
    requires Inv(a) && IdInv(a) && Enabled(a, s) && JobsHaveRecords(a) && !TakesSpent(a, s)
    ensures IdInv(Apply(a, s, scannerVersion))
  {
    match s
    case WebhookStep(r, scope, now) => WebhookKeepsIds(a, r, scope, scannerVersion, now);
    case ClaimStep(scope, now) => ClaimKeepsIds(a, scope, now);
    case _ =>
      StepStores(a, s, scannerVersion);
      forall k | k in a.records ensures MovesOn(a, Apply(a, s, scannerVersion), s.job, k) {
        StepMovesOn(a, s, scannerVersion, k);
      }
      MoveKeepsIds(a, Apply(a, s, scannerVersion), s.job);
  }

  // ---------------------------------------------------------------- one way: without such a claim no id repeats

  /** Main result: as long as no claim takes a spent key, no report id is ever stored twice. */
  lemma {:induction false} ReportIdsNeverRepeat(steps: seq<Step>, scannerVersion: string)
    requires FrugalRun(steps, scannerVersion)
    ensures DistinctIds(Run(steps, scannerVersion).value.reports)
    ensures IdInv(Run(steps, scannerVersion).value)
  {
    if steps != [] {
      var front, s := steps[..|steps| - 1], steps[|steps| - 1];
      ReportIdsNeverRepeat(front, scannerVersion);
      StepKeepsInv(Run(front, scannerVersion).value, s, scannerVersion);
      StepKeepsIds(Run(front, scannerVersion).value, s, scannerVersion);
    }
  }

  /** No claim takes a key that another worker run still works on, as when worker runs do not overlap. */
  ghost predicate CalmRun(steps: seq<Step>, scannerVersion: string) {
    && Run(steps, scannerVersion).Some?
    && (steps != [] ==>
          && CalmRun(steps[..|steps| - 1], scannerVersion)
          && Calm(Run(steps[..|steps| - 1], scannerVersion).value, steps[|steps| - 1]))
  }

  ghost predicate Calm(st: State, s: Step)
    requires Ordered(st)
  {
    s.ClaimStep? ==>
      match FirstQueued(st.records, st.order)
      case None => true
      case Some(key) => !InFlight(st, key)
  }

  /** Main result: worker runs that do not overlap on a key never take a spent one, so their ids never repeat. */
  lemma {:induction false} CalmRunsAreFrugal(steps: seq<Step>, scannerVersion: string)
    requires CalmRun(steps, scannerVersion)
    ensures FrugalRun(steps, scannerVersion) && DistinctIds(Run(steps, scannerVersion).value.reports)
  {
    if steps != [] {
      var front := steps[..|steps| - 1];
      CalmRunsAreFrugal(front, scannerVersion);
      ReportIdsNeverRepeat(front, scannerVersion);
      CalmTakesNothingSpent(Run(front, scannerVersion).value, steps[|steps| - 1]);
    }
    ReportIdsNeverRepeat(steps, scannerVersion);
  }

  lemma CalmTakesNothingSpent(st: State, s: Step)
    requires Inv(st) && IdInv(st) && Calm(st, s)
    ensures !TakesSpent(st, s)
  {
    if s.ClaimStep? && FirstQueued(st.records, st.order).Some? {
      ScannedIsInFlight(st, FirstQueued(st.records, st.order).value);
    }
  }

  lemma ScannedIsInFlight(st: State, key: string)
    ensures BeingScanned(st, key) ==> InFlight(st, key)
  {
  }

  // ---------------------------------------------------------------- the other way: such a claim lets one repeat

  /** Two scans of one key that return with no rerun in between store under one id. */
  lemma OverlapRepeatsReportId(a: State, i: nat, j: nat, now: int)
    requires i < |a.jobs| && j < |a.jobs| && i != j
    requires a.jobs[i].stage == a.jobs[j].stage == Scanning && a.jobs[i].key == a.jobs[j].key &&
             a.jobs[i].key in a.records
    ensures var b := ScanReturned(ScanReturned(a, i, true, true, now), j, true, true, now);
      |b.reports| == |a.reports| + 2 && b.reports[|a.reports|].id == b.reports[|a.reports| + 1].id
  {
  }

  /** Main result: from every state, a claim that takes a spent key can be continued, by scans returning
      and nothing else, to a state with one id stored twice. */
  lemma SpentClaimRepeats(st: State, scope: Scope, now: int, scannerVersion: string) returns (more: seq<Step>)
    requires Sound(st) && TakesSpent(st, ClaimStep(scope, now))
    ensures forall s <- more :: s.ScanReturnedStep?
    ensures var b := After(st, [ClaimStep(scope, now)] + more, scannerVersion); b.Some? && !DistinctIds(b.value.reports)
  {
    var key := FirstQueued(st.records, st.order).value;
    if i :| 0 <= i < |st.reports| && st.reports[i].id == ReportId(key, st.records[key].attempt) {
      more := StoredClaimRepeats(st, key, scope, now, i, scannerVersion);
    } else {
      var i :| 0 <= i < |st.jobs| && st.jobs[i].key == key && st.jobs[i].stage == Scanning;
      more := ScannedClaimRepeats(st, key, scope, now, i, scannerVersion);
    }
  }

  lemma ScannedClaimRepeats(st: State, key: string, scope: Scope, now: int, i: nat, scannerVersion: string)
    returns (more: seq<Step>)
    requires Sound(st) && FirstQueued(st.records, st.order) == Some(key) && Authorized(scope, st.records[key].identity)
    requires i < |st.jobs| && st.jobs[i].key == key && st.jobs[i].stage == Scanning
    ensures forall s <- more :: s.ScanReturnedStep?
    ensures var b := After(st, [ClaimStep(scope, now)] + more, scannerVersion); b.Some? && !DistinctIds(b.value.reports)
  {
    AfterClaim(st, ClaimStep(scope, now), scannerVersion);
    ClaimStarts(st, key, scope, now);
    more := RepeatScanned(st, ClaimStep(scope, now), Claim(st, scope, now), i, |st.jobs|, scannerVersion);
  }

  lemma StoredClaimRepeats(st: State, key: string, scope: Scope, now: int, i: nat, scannerVersion: string)
    returns (more: seq<Step>)
    requires Sound(st) && FirstQueued(st.records, st.order) == Some(key) && Authorized(scope, st.records[key].identity)
    requires i < |st.reports| && st.reports[i].id == ReportId(key, st.records[key].attempt)
    ensures |more| == 1 && more[0].ScanReturnedStep?
    ensures var b := After(st, [ClaimStep(scope, now)] + more, scannerVersion); b.Some? && !DistinctIds(b.value.reports)
  {
    AfterClaim(st, ClaimStep(scope, now), scannerVersion);
    ClaimStarts(st, key, scope, now);
    more := RepeatStored(st, ClaimStep(scope, now), Claim(st, scope, now), i, |st.jobs|, scannerVersion);
  }

  lemma ClaimStarts(st: State, key: string, scope: Scope, now: int)
    requires key in st.records && Authorized(scope, st.records[key].identity)
    ensures var a := ClaimRecord(st, key, scope, now);
      && |a.jobs| == |st.jobs| + 1 && a.jobs[|st.jobs|].key == key && a.jobs[|st.jobs|].stage == Scanning
      && (forall i :: 0 <= i < |st.jobs| ==> a.jobs[i] == st.jobs[i])
      && a.reports == st.reports && key in a.records && a.records[key].attempt == st.records[key].attempt
  {
  }

  lemma AfterClaim(st: State, claim: Step, scannerVersion: string)
    requires Sound(st) && claim.ClaimStep?
    ensures After(st, [claim], scannerVersion) == Some(Claim(st, claim.scope, claim.now))
  {
    AfterOne(st, [], claim, scannerVersion);
    assert [] + [claim] == [claim];
  }

  lemma AfterScanReturns(st: State, steps: seq<Step>, a: State, j: nat, scannerVersion: string)
    requires After(st, steps, scannerVersion) == Some(a) && Sound(a)
    requires j < |a.jobs| && a.jobs[j].stage == Scanning && a.jobs[j].key in a.records
    ensures After(st, steps + [ScanReturnedStep(j, true, true, 0)], scannerVersion) ==
            Some(ScanReturned(a, j, true, true, 0))
  {
    AfterOne(st, steps, ScanReturnedStep(j, true, true, 0), scannerVersion);
  }

  lemma RepeatStored(st: State, claim: Step, a: State, i: nat, j: nat, scannerVersion: string) returns (more: seq<Step>)
    requires After(st, [claim], scannerVersion) == Some(a) && Sound(a)
    requires j < |a.jobs| && a.jobs[j].stage == Scanning && a.jobs[j].key in a.records
    requires i < |a.reports| && a.reports[i].id == ReportId(a.jobs[j].key, a.records[a.jobs[j].key].attempt)
    ensures |more| == 1 && more[0].ScanReturnedStep?
    ensures var b := After(st, [claim] + more, scannerVersion); b.Some? && !DistinctIds(b.value.reports)
  {
    more := [ScanReturnedStep(j, true, true, 0)];
    AfterScanReturns(st, [claim], a, j, scannerVersion);
    var b := ScanReturned(a, j, true, true, 0);
    assert b.reports[i].id == b.reports[|a.reports|].id;
  }

  lemma RepeatScanned(st: State, claim: Step, a: State, i: nat, j: nat, scannerVersion: string)
    returns (more: seq<Step>)
    requires After(st, [claim], scannerVersion) == Some(a) && Sound(a)
    requires i < j < |a.jobs| && a.jobs[i].stage == a.jobs[j].stage == Scanning && a.jobs[i].key == a.jobs[j].key &&
             a.jobs[j].key in a.records
    ensures forall s <- more :: s.ScanReturnedStep?
    ensures var b := After(st, [claim] + more, scannerVersion); b.Some? && !DistinctIds(b.value.reports)
  {
    var first, second := ScanReturnedStep(i, true, true, 0), ScanReturnedStep(j, true, true, 0);
    AfterScanReturns(st, [claim], a, i, scannerVersion);
    ReturnKeepsOther(a, i, j);
    AfterScanReturns(st, [claim] + [first], ScanReturned(a, i, true, true, 0), j, scannerVersion);
    more := [first] + [second];
    assert [claim] + more == [claim] + [first] + [second];
    OverlapRepeatsReportId(a, i, j, 0);
  }

  lemma ReturnKeepsOther(a: State, i: nat, j: nat)
    requires Sound(a) && i < |a.jobs| && j < |a.jobs| && i != j && a.jobs[i].key in a.records
    ensures var b := ScanReturned(a, i, true, true, 0);
      Sound(b) && |b.jobs| == |a.jobs| && b.jobs[j] == a.jobs[j] && b.records == a.records
  {
  }

  lemma {:induction false} GoingOnKeepsIds(a: State, more: seq<Step>, scannerVersion: string)
    requires Inv(a) && IdInv(a)
    requires (forall s <- more :: GoesOn(s)) && After(a, more, scannerVersion).Some?
    ensures IdInv(After(a, more, scannerVersion).value)
  {
    if more != [] {
      var front, s := more[..|more| - 1], more[|more| - 1];
      assert s in more;
      GoingOnKeepsIds(a, front, scannerVersion);
      AfterKeepsInv(a, front, scannerVersion);
      var b := After(a, front, scannerVersion).value;
      StepKeepsInv(b, s, scannerVersion);
      StepKeepsIds(b, s, scannerVersion);
    }
  }

  lemma FreshClaimKeepsIds(st: State, claim: Step, more: seq<Step>, scannerVersion: string)
    requires Inv(st) && IdInv(st) && claim.ClaimStep? && !TakesSpent(st, claim)
    requires (forall s <- more :: GoesOn(s)) && After(st, [claim] + more, scannerVersion).Some?
    ensures DistinctIds(After(st, [claim] + more, scannerVersion).value.reports)
  {
    InvIsSound(st);
    AfterClaim(st, claim, scannerVersion);
    AfterAfter(st, [claim], more, scannerVersion);
    ClaimKeepsInv(st, claim.scope, claim.now);
    ClaimKeepsIds(st, claim.scope, claim.now);
    GoingOnKeepsIds(Claim(st, claim.scope, claim.now), more, scannerVersion);
  }

  /** From `st`, the claim and then the worker runs under way store an id twice. */
  ghost predicate RepeatsBy(st: State, claim: Step, more: seq<Step>, scannerVersion: string) {
    && (forall s <- more :: GoesOn(s))
    && match After(st, [claim] + more, scannerVersion)
       case None => false
       case Some(b) => !DistinctIds(b.reports)
  }

  /** Main result, both ways: after a run in which no spent key was taken, one more claim can lead the
      worker runs under way to store an id twice exactly if it takes a spent key. */
  lemma ClaimRepeatsExactlyWhen(steps: seq<Step>, claim: Step, scannerVersion: string)
    requires FrugalRun(steps, scannerVersion) && claim.ClaimStep?
    ensures var st := Run(steps, scannerVersion).value;
      TakesSpent(st, claim) <==> exists more: seq<Step> :: RepeatsBy(st, claim, more, scannerVersion)
  {
    var st := Run(steps, scannerVersion).value;
    ReportIdsNeverRepeat(steps, scannerVersion);
    if TakesSpent(st, claim) {
      InvIsSound(st);
      var more := SpentClaimRepeats(st, claim.scope, claim.now, scannerVersion);
      assert RepeatsBy(st, claim, more, scannerVersion);
    } else {
      forall more: seq<Step> ensures !RepeatsBy(st, claim, more, scannerVersion) {
        if (forall s <- more :: GoesOn(s)) && After(st, [claim] + more, scannerVersion).Some? {
          FreshClaimKeepsIds(st, claim, more, scannerVersion);
        }
      }
    }
  }

  // ---------------------------------------------------------------- runs that reach a spent key

  lemma RunOne(steps: seq<Step>, s: Step, scannerVersion: string)
    requires Run(steps, scannerVersion).Some? && Enabled(Run(steps, scannerVersion).value, s)
    ensures var st := Run(steps, scannerVersion).value;
      JobsHaveRecords(st) && Run(steps + [s], scannerVersion) == Some(Apply(st, s, scannerVersion))
  {
  }

  ghost predicate OnlyRecord(st: State, i: Identity, status: Status, seen: set<string>) {
    && st.order == [Key(i)] && st.records.Keys == {Key(i)} && st.seen == seen
    && st.records[Key(i)].identity == i && st.records[Key(i)].status == status
  }

  lemma ClaimOnly(st: State, i: Identity, scope: Scope, seen: set<string>)
    requires Ordered(st) && OnlyRecord(st, i, Queued, seen) && Authorized(scope, i)
    ensures var b := Claim(st, scope, 0);
      OnlyRecord(b, i, Running, seen) && b.jobs == st.jobs + [Job(Key(i), scope, Scanning, "", false, false)]
  {
  }

  const OPENED := Event(Some("opened"), Some(1), Some(2), Some("o/r"), Some(3), Some("base"), Some("head"), false)

  function Sample(scannerVersion: string): Identity {
    Identity(1, 2, "o/r", 3, "base", "head", scannerVersion)
  }

  lemma OpenedParses(scannerVersion: string)
    ensures ParseEvent(OPENED, scannerVersion, false) == Parsed(Sample(scannerVersion))
  {
  }

  lemma DeliverSample(st: State, id: string, rerun: bool, scope: Scope, scannerVersion: string)
    requires id != "" && id !in st.seen && Authorized(scope, Sample(scannerVersion))
    requires if rerun then OnlyRecord(st, Sample(scannerVersion), Running, st.seen) else st == INIT
    ensures var b := Webhook(st, Request(Genuine, id, OPENED, rerun, false), scope, scannerVersion, 0).0;
      && OnlyRecord(b, Sample(scannerVersion), Queued, st.seen + {id}) && b.jobs == st.jobs
      && (rerun ==> b.records[Key(Sample(scannerVersion))].attempt ==
                    st.records[Key(Sample(scannerVersion))].attempt + 1)
  {
    OpenedParses(scannerVersion);
  }

  lemma DeliverRun(steps: seq<Step>, id: string, rerun: bool, scope: Scope, scannerVersion: string)
    requires Run(steps, scannerVersion).Some? && Authorized(scope, Sample(scannerVersion))
    requires var st := Run(steps, scannerVersion).value;
      && id != "" && id !in st.seen
      && if rerun then OnlyRecord(st, Sample(scannerVersion), Running, st.seen) else st == INIT
    ensures var step := WebhookStep(Request(Genuine, id, OPENED, rerun, false), scope, 0);
      var next := Run(steps + [step], scannerVersion);
      var st := Run(steps, scannerVersion).value;
      && next.Some? && OnlyRecord(next.value, Sample(scannerVersion), Queued, st.seen + {id})
      && next.value.jobs == st.jobs
      && (rerun ==> next.value.records[Key(Sample(scannerVersion))].attempt ==
                    st.records[Key(Sample(scannerVersion))].attempt + 1)
  {
    DeliverSample(Run(steps, scannerVersion).value, id, rerun, scope, scannerVersion);
    RunOne(steps, WebhookStep(Request(Genuine, id, OPENED, rerun, false), scope, 0), scannerVersion);
  }

  lemma ClaimRun(steps: seq<Step>, seen: set<string>, scope: Scope, scannerVersion: string)
    requires Run(steps, scannerVersion).Some? && Authorized(scope, Sample(scannerVersion))
    requires OnlyRecord(Run(steps, scannerVersion).value, Sample(scannerVersion), Queued, seen)
    ensures var next := Run(steps + [ClaimStep(scope, 0)], scannerVersion);
      && next.Some? && OnlyRecord(next.value, Sample(scannerVersion), Running, seen)
      && next.value.jobs == Run(steps, scannerVersion).value.jobs +
        [Job(Key(Sample(scannerVersion)), scope, Scanning, "", false, false)]
  {
    ClaimOnly(Run(steps, scannerVersion).value, Sample(scannerVersion), scope, seen);
    RunOne(steps, ClaimStep(scope, 0), scannerVersion);
  }

  lemma ScanningRun(scope: Scope, scannerVersion: string) returns (steps: seq<Step>)
    requires Authorized(scope, Sample(scannerVersion))
    ensures Run(steps, scannerVersion).Some?
    ensures var st := Run(steps, scannerVersion).value;
      && OnlyRecord(st, Sample(scannerVersion), Running, {"a"})
      && st.jobs == [Job(Key(Sample(scannerVersion)), scope, Scanning, "", false, false)]
  {
    steps := DeliveredRun("a", scope, scannerVersion);
    ClaimRun(steps, {"a"}, scope, scannerVersion);
    steps := steps + [ClaimStep(scope, 0)];
  }

  lemma DeliveredRun(id: string, scope: Scope, scannerVersion: string) returns (steps: seq<Step>)
    requires Authorized(scope, Sample(scannerVersion)) && id != ""
    ensures Run(steps, scannerVersion).Some?
    ensures var st := Run(steps, scannerVersion).value;
      OnlyRecord(st, Sample(scannerVersion), Queued, {id}) && st.jobs == []
  {
    steps := [];
    DeliverRun(steps, id, false, scope, scannerVersion);
    steps := steps + [WebhookStep(Request(Genuine, id, OPENED, false, false), scope, 0)];
    assert INIT.seen + {id} == {id};
  }

  lemma RequeuedRun(scope: Scope, scannerVersion: string) returns (steps: seq<Step>)
    requires Authorized(scope, Sample(scannerVersion))
    ensures Run(steps, scannerVersion).Some?
    ensures var st := Run(steps, scannerVersion).value;
      && OnlyRecord(st, Sample(scannerVersion), Queued, {"a"} + {"bb"})
      && st.jobs == [Job(Key(Sample(scannerVersion)), scope, Scanning, "", false, false)]
  {
    steps := ScanningRun(scope, scannerVersion);
    assert |"a"| != |"bb"|;
    DeliverRun(steps, "bb", true, scope, scannerVersion);
    steps := steps + [WebhookStep(Request(Genuine, "bb", OPENED, true, false), scope, 0)];
  }

  lemma SampleIsFirst(st: State, i: Identity, seen: set<string>)
    requires Ordered(st) && OnlyRecord(st, i, Queued, seen)
    ensures FirstQueued(st.records, st.order) == Some(Key(i))
  {
  }

  /** A rerun during a scan: the key is spent, since its scan still goes on. */
  lemma ReportIdsCanRepeat(scannerVersion: string) returns (steps: seq<Step>)
    ensures Run(steps, scannerVersion).Some? && !DistinctIds(Run(steps, scannerVersion).value.reports)
  {
    var scope, i := Scope(map[1 := [2]], map[]), Sample(scannerVersion);
    assert Authorized(scope, i);
    steps := RequeuedRun(scope, scannerVersion);
    var st := Run(steps, scannerVersion).value;
    InvIsSound(st);
    SampleIsFirst(st, i, {"a"} + {"bb"});
    assert st.jobs[0].key == Key(i) && st.jobs[0].stage == Scanning;
    var more := SpentClaimRepeats(st, scope, 0, scannerVersion);
    RunAfter(steps, [ClaimStep(scope, 0)] + more, scannerVersion);
    steps := steps + ([ClaimStep(scope, 0)] + more);
  }

  /** A scan that stores for a key queued again leaves it queued, with the id of its attempt taken. */
  lemma StoredRun(scope: Scope, scannerVersion: string) returns (steps: seq<Step>)
    requires Authorized(scope, Sample(scannerVersion))
    ensures match Run(steps, scannerVersion)
      case None => false
      case Some(st) => HasStored(st, Sample(scannerVersion), {"a"} + {"bb"})
  {
    steps := RequeuedRun(scope, scannerVersion);
    RunOne(steps, ScanReturnedStep(0, true, true, 0), scannerVersion);
    assert Apply(Run(steps, scannerVersion).value, ScanReturnedStep(0, true, true, 0), scannerVersion)
        == ScanReturned(Run(steps, scannerVersion).value, 0, true, true, 0);
    steps := steps + [ScanReturnedStep(0, true, true, 0)];
  }

  /** The one record is queued, the one job has stored its report, under the attempt the record has. */
  ghost predicate HasStored(st: State, i: Identity, seen: set<string>) {
    && OnlyRecord(st, i, Queued, seen) && |st.jobs| == 1 && st.jobs[0].stage == Saving
    && |st.reports| > 0 && st.reports[|st.reports| - 1].id == ReportId(Key(i), st.records[Key(i)].attempt)
  }

  ghost predicate SpentByReport(st: State, scope: Scope) {
    && Sound(st)
    && match FirstQueued(st.records, st.order)
       case None => false
       case Some(key) =>
         && Authorized(scope, st.records[key].identity)
         && |st.reports| > 0 && st.reports[|st.reports| - 1].id == ReportId(key, st.records[key].attempt)
  }

  lemma StoredIsSpent(st: State, i: Identity, seen: set<string>, scope: Scope)
    requires Sound(st) && HasStored(st, i, seen) && Authorized(scope, i)
    ensures SpentByReport(st, scope) && forall k :: !BeingScanned(st, k)
  {
    SampleIsFirst(st, i, seen);
  }

  lemma StoredGoesOn(steps: seq<Step>, scope: Scope, scannerVersion: string) returns (more: seq<Step>)
    requires Run(steps, scannerVersion).Some? && SpentByReport(Run(steps, scannerVersion).value, scope)
    ensures |more| == 2 && more[0].ClaimStep? && more[1].ScanReturnedStep?
    ensures var b := Run(steps + more, scannerVersion); b.Some? && !DistinctIds(b.value.reports)
  {
    var st := Run(steps, scannerVersion).value;
    var back := StoredClaimRepeats(st, FirstQueued(st.records, st.order).value, scope, 0, |st.reports| - 1,
      scannerVersion);
    more := [ClaimStep(scope, 0)] + back;
    RunAfter(steps, more, scannerVersion);
  }

  /** ... so if the scan stores before the next claim, the key is spent without any scan going on: no two
      runs ever scan together, and the id repeats all the same. */
  lemma ReportIdsCanRepeatOneByOne(scannerVersion: string) returns (steps: seq<Step>, more: seq<Step>)
    ensures Run(steps, scannerVersion).Some? && Run(steps + more, scannerVersion).Some?
    ensures forall k :: !BeingScanned(Run(steps, scannerVersion).value, k)
    ensures |more| == 2 && more[0].ClaimStep? && more[1].ScanReturnedStep?
    ensures !DistinctIds(Run(steps + more, scannerVersion).value.reports)
  {
    var scope := Scope(map[1 := [2]], map[]);
    assert Authorized(scope, Sample(scannerVersion));
    steps := StoredRun(scope, scannerVersion);
    InvIsSound(Run(steps, scannerVersion).value);
    StoredIsSpent(Run(steps, scannerVersion).value, Sample(scannerVersion), {"a"} + {"bb"}, scope);
    more := StoredGoesOn(steps, scope, scannerVersion);
  }
}
