/** Planning what a hosted cleanup deletes, cancels and keeps (`src/hosted/contracts.ts`). */
module CleanupPlan {
  import opened Text
  import opened ScanIdentity

  // ---------------------------------------------------------------- filtering and mapping

  function Filter<T>(s: seq<T>, p: T -> bool): seq<T> {
    if s == [] then [] else Filter(s[..|s| - 1], p) + if p(s[|s| - 1]) then [s[|s| - 1]] else []
  }

  function Map<T, U>(f: T -> U, s: seq<T>): (r: seq<U>)
    ensures |r| == |s| && forall i :: 0 <= i < |s| ==> r[i] == f(s[i])
  {
    seq(|s|, i requires 0 <= i < |s| => f(s[i]))
  }

  lemma {:induction false} FilterMembers<T>(s: seq<T>, p: T -> bool)
    ensures forall x :: x in Filter(s, p) <==> x in s && p(x)
  {
    if s != [] {
      FilterMembers(s[..|s| - 1], p);
      assert s == s[..|s| - 1] + [s[|s| - 1]];
    }
  }

  lemma MapMembers<T, U>(f: T -> U, s: seq<T>)
    ensures forall y :: y in Map(f, s) <==> exists i :: 0 <= i < |s| && f(s[i]) == y
    ensures forall x :: x in s ==> f(x) in Map(f, s)
  {
  }

  lemma MapTwice<T, U, V>(s: seq<T>, f: T -> U, g: U -> V, both: T -> V)
    requires forall x <- s :: g(f(x)) == both(x)
    ensures Map(g, Map(f, s)) == Map(both, s)
  {
  }

  lemma MapAppend<T, U>(f: T -> U, s: seq<T>, t: seq<T>)
    ensures Map(f, s + t) == Map(f, s) + Map(f, t)
  {
  }

  lemma {:induction false} FilterNone<T>(s: seq<T>, p: T -> bool)
    requires forall x <- s :: !p(x)
    ensures Filter(s, p) == []
  {
    if s != [] { FilterNone(s[..|s| - 1], p); }
  }

  lemma {:induction false} FilterTwice<T>(s: seq<T>, p: T -> bool, q: T -> bool, both: T -> bool)
    requires forall x <- s :: both(x) == (p(x) && q(x))
    ensures Filter(Filter(s, p), q) == Filter(s, both)
  {
    if s != [] {
      var front, last := s[..|s| - 1], s[|s| - 1];
      FilterTwice(front, p, q, both);
      assert (Filter(front, p) + [last])[..|Filter(front, p)|] == Filter(front, p);
      assert Filter(front, p) + [] == Filter(front, p);
    }
  }

  /** Splitting by a condition loses and repeats nothing. */
  lemma {:induction false} FilterSplits<T, U>(s: seq<T>, p: T -> bool, q: T -> bool, both: T -> bool, f: T -> U)
    requires forall x <- s :: both(x) == (p(x) || q(x)) && !(p(x) && q(x))
    ensures multiset(Map(f, Filter(s, both))) == multiset(Map(f, Filter(s, p))) + multiset(Map(f, Filter(s, q)))
  {
    if s != [] {
      var front, last := s[..|s| - 1], s[|s| - 1];
      FilterSplits(front, p, q, both, f);
      MapLast(front, last, p, f);
      MapLast(front, last, q, f);
      MapLast(front, last, both, f);
      assert front + [last] == s;
    }
  }

  lemma MapLast<T, U>(front: seq<T>, last: T, p: T -> bool, f: T -> U)
    ensures Map(f, Filter(front + [last], p)) == Map(f, Filter(front, p)) + if p(last) then [f(last)] else []
  {
    assert (front + [last])[..|front|] == front;
    MapAppend(f, Filter(front, p), [last]);
    assert Map(f, [last]) == [f(last)];
    assert Filter(front, p) + [] == Filter(front, p);
    assert Map(f, Filter(front, p)) + [] == Map(f, Filter(front, p));
  }

  lemma {:induction false} FilterAll<T>(s: seq<T>, p: T -> bool)
    requires forall x <- s :: p(x)
    ensures Filter(s, p) == s
  {
    if s != [] {
      FilterAll(s[..|s| - 1], p);
      assert s == s[..|s| - 1] + [s[|s| - 1]];
    }
  }

  // ---------------------------------------------------------------- requests and what they meet

  /** What `Date.parse` makes of a date string. */
  datatype Date = Invalid | At(ms: int)

  datatype Report = Report(id: string, installationId: nat, repositoryId: nat,
                           createdAt: Date, retentionDays: Option<real>, expiresAt: Option<Date>)

  datatype JobStatus = Queued | Running | Completed | Failed | Cancelled

  datatype Job = Job(key: string, identity: Identity, status: JobStatus)

  datatype CheckoutStatus = Active | DeletionPending | Deleted

  datatype Checkout = Checkout(key: string, identity: Identity, status: Option<CheckoutStatus>)

  datatype Trigger = RepositoryRemoved | InstallationDeleted | RepeatedCleanup | RetentionExpired

  datatype Scope = WholeInstallation | OneRepository

  datatype Request = Request(trigger: Trigger, installationId: nat, repositoryId: Option<nat>, requestedAt: Date)

  /** `resolveRetentionAndDeletionCleanupScope`. */
  function ResolveScope(r: Request): Scope {
    if r.trigger == InstallationDeleted then WholeInstallation
    else if r.trigger == RetentionExpired && r.repositoryId.None? then WholeInstallation
    else OneRepository
  }

  predicate InScope(r: Request, scope: Scope, installationId: nat, repositoryId: nat) {
    installationId == r.installationId && (scope == WholeInstallation || r.repositoryId == Some(repositoryId))
  }

  const RETENTION_DAYS := 30
  const DAY_MS := 24 * 60 * 60 * 1000

  /** `resolveHostedRetentionDays`: as many whole days as were asked for, but one to thirty. */
  function ResolveHostedRetentionDays(requested: Option<real>): (days: int)
    ensures 1 <= days <= RETENTION_DAYS
    ensures requested.None? ==> days == RETENTION_DAYS
    ensures requested.Some? ==> days == 1 || days as real <= requested.value
    ensures requested.Some? ==> days == RETENTION_DAYS || requested.value < days as real + 1.0
  {
    if requested.None? then RETENTION_DAYS
    else
      var whole := requested.value.Floor;
      var atLeastOne := if whole > 1 then whole else 1;
      if RETENTION_DAYS < atLeastOne then RETENTION_DAYS else atLeastOne
  }

  /** `isCompactReportExpired`. */
  predicate IsCompactReportExpired(report: Report, requestedAt: Date) {
    requestedAt.At? &&
    if report.expiresAt.Some? then
      report.expiresAt.value.At? && report.expiresAt.value.ms <= requestedAt.ms
    else
      report.createdAt.At? &&
      report.createdAt.ms + ResolveHostedRetentionDays(report.retentionDays) * DAY_MS <= requestedAt.ms
  }

  // The conditions of the plan, as function values.

  predicate ShouldDelete(r: Request, report: Report) {
    && InScope(r, ResolveScope(r), report.installationId, report.repositoryId)
    && (r.trigger != RetentionExpired || IsCompactReportExpired(report, r.requestedAt))
  }

  function Deletes(r: Request): Report -> bool { (report: Report) => ShouldDelete(r, report) }
  function Preserves(r: Request): Report -> bool { (report: Report) => !ShouldDelete(r, report) }

  predicate QueueCleanupMatches(r: Request, job: Job) {
    InScope(r, if r.trigger == InstallationDeleted then WholeInstallation else OneRepository,
            job.identity.installationId, job.identity.repositoryId)
  }

  predicate IsTerminal(status: JobStatus) { status in {Completed, Failed, Cancelled} }

  function Matches(r: Request): Job -> bool { (job: Job) => QueueCleanupMatches(r, job) }
  function Misses(r: Request): Job -> bool { (job: Job) => !QueueCleanupMatches(r, job) }
  function IsQueued(): Job -> bool { (job: Job) => job.status == Queued }
  function IsRunning(): Job -> bool { (job: Job) => job.status == Running }
  function IsDone(): Job -> bool { (job: Job) => IsTerminal(job.status) }

  predicate ShouldDeleteCheckout(r: Request, c: Checkout) {
    InScope(r, ResolveScope(r), c.identity.installationId, c.identity.repositoryId) && c.status != Some(Deleted)
  }

  function DeletesCheckout(r: Request): Checkout -> bool { (c: Checkout) => ShouldDeleteCheckout(r, c) }
  function KeepsCheckout(r: Request): Checkout -> bool { (c: Checkout) => !ShouldDeleteCheckout(r, c) }

  function ReportName(): Report -> string { (report: Report) => report.id }
  function JobName(): Job -> string { (job: Job) => job.key }
  function CheckoutName(): Checkout -> string { (c: Checkout) => c.key }

  // ---------------------------------------------------------------- the plan

  datatype QueueActions = QueueActions(cancelQueued: seq<string>, requestRunningCancellation: seq<string>,
                                       preserveTerminal: seq<string>, keepUnmatched: seq<string>)

  /** `createHostedQueueCleanupPlan`, or for an expiry the empty actions. */
  function QueueCleanup(r: Request, jobs: seq<Job>): QueueActions {
    if r.trigger == RetentionExpired then QueueActions([], [], [], Map(JobName(), jobs))
    else
      var matched := Filter(jobs, Matches(r));
      QueueActions(Map(JobName(), Filter(matched, IsQueued())), Map(JobName(), Filter(matched, IsRunning())),
                   Map(JobName(), Filter(matched, IsDone())), Map(JobName(), Filter(jobs, Misses(r))))
  }

  datatype State = State(reports: seq<Report>, jobs: seq<Job>, checkouts: seq<Checkout>)

  datatype Plan = Plan(deleteReports: seq<string>, preserveReports: seq<string>, queue: QueueActions,
                       deleteCheckouts: seq<string>, keepCheckouts: seq<string>)

  function PlanFor(r: Request, s: State): Plan {
    Plan(Map(ReportName(), Filter(s.reports, Deletes(r))), Map(ReportName(), Filter(s.reports, Preserves(r))),
         QueueCleanup(r, s.jobs),
         if r.trigger == RetentionExpired then [] else Map(CheckoutName(), Filter(s.checkouts, DeletesCheckout(r))),
         if r.trigger == RetentionExpired then Map(CheckoutName(), s.checkouts)
         else Map(CheckoutName(), Filter(s.checkouts, KeepsCheckout(r))))
  }

  /** `planHostedCompactReportCleanup`: one pass over the reports. */
  method PlanCompactReportCleanup(r: Request, scope: Scope, reports: seq<Report>)
    returns (deleteIds: seq<string>, preserveIds: seq<string>)
    requires scope == ResolveScope(r)
    ensures deleteIds == Map(ReportName(), Filter(reports, Deletes(r)))
    ensures preserveIds == Map(ReportName(), Filter(reports, Preserves(r)))
  {
    deleteIds, preserveIds := [], [];
    for i := 0 to |reports|
      invariant deleteIds == Map(ReportName(), Filter(reports[..i], Deletes(r)))
      invariant preserveIds == Map(ReportName(), Filter(reports[..i], Preserves(r)))
    {
      var report := reports[i];
      assert reports[..i + 1] == reports[..i] + [report];
      MapLast(reports[..i], report, Deletes(r), ReportName());
      MapLast(reports[..i], report, Preserves(r), ReportName());
      var matchesScope := InScope(r, scope, report.installationId, report.repositoryId);
      if matchesScope && (r.trigger != RetentionExpired || IsCompactReportExpired(report, r.requestedAt)) {
        deleteIds := deleteIds + [report.id];
      } else {
        preserveIds := preserveIds + [report.id];
      }
    }
    assert reports[..|reports|] == reports;
  }

  /** `planHostedWorkerCheckoutCleanup`: one pass over the checkouts. */
  method PlanWorkerCheckoutCleanup(r: Request, scope: Scope, checkouts: seq<Checkout>)
    returns (deleteKeys: seq<string>, keepKeys: seq<string>)
    requires scope == ResolveScope(r)
    ensures deleteKeys == Map(CheckoutName(), Filter(checkouts, DeletesCheckout(r)))
    ensures keepKeys == Map(CheckoutName(), Filter(checkouts, KeepsCheckout(r)))
  {
    deleteKeys, keepKeys := [], [];
    for i := 0 to |checkouts|
      invariant deleteKeys == Map(CheckoutName(), Filter(checkouts[..i], DeletesCheckout(r)))
      invariant keepKeys == Map(CheckoutName(), Filter(checkouts[..i], KeepsCheckout(r)))
    {
      var c := checkouts[i];
      assert checkouts[..i + 1] == checkouts[..i] + [c];
      MapLast(checkouts[..i], c, DeletesCheckout(r), CheckoutName());
      MapLast(checkouts[..i], c, KeepsCheckout(r), CheckoutName());
      if InScope(r, scope, c.identity.installationId, c.identity.repositoryId) && c.status != Some(Deleted) {
        deleteKeys := deleteKeys + [c.key];
      } else {
        keepKeys := keepKeys + [c.key];
      }
    }
    assert checkouts[..|checkouts|] == checkouts;
  }

  /** `planHostedRetentionAndDeletionCleanup`. */
  method PlanHostedRetentionAndDeletionCleanup(r: Request, s: State) returns (plan: Plan)
    ensures plan == PlanFor(r, s)
  {
    var scope := ResolveScope(r);
    var deleteIds, preserveIds := PlanCompactReportCleanup(r, scope, s.reports);
    var deleteKeys, keepKeys := [], Map(CheckoutName(), s.checkouts);
    if r.trigger != RetentionExpired {
      deleteKeys, keepKeys := PlanWorkerCheckoutCleanup(r, scope, s.checkouts);
    }
    plan := Plan(deleteIds, preserveIds, QueueCleanup(r, s.jobs), deleteKeys, keepKeys);
  }

  // ---------------------------------------------------------------- nothing is missed or listed twice

  /** Main result: whatever the trigger, each job stands in exactly one of the four lists. */
  lemma JobListsPartition(r: Request, jobs: seq<Job>)
    ensures var q := QueueCleanup(r, jobs);
      multiset(q.cancelQueued) + multiset(q.requestRunningCancellation) + multiset(q.preserveTerminal) +
        multiset(q.keepUnmatched)
      == multiset(Map(JobName(), jobs))
  {
    if r.trigger != RetentionExpired {
      var matched, all := Filter(jobs, Matches(r)), (job: Job) => true;
      var busy := (job: Job) => job.status == Queued || job.status == Running;
      FilterSplits(jobs, Matches(r), Misses(r), all, JobName());
      FilterAll(jobs, all);
      FilterSplits(matched, IsQueued(), IsRunning(), busy, JobName());
      FilterSplits(matched, busy, IsDone(), all, JobName());
      FilterAll(matched, all);
    }
  }

  /** ... and each report, and each checkout, in exactly one of two. */
  lemma ReportAndCheckoutListsPartition(r: Request, s: State)
    ensures var p := PlanFor(r, s);
      && multiset(p.deleteReports) + multiset(p.preserveReports) == multiset(Map(ReportName(), s.reports))
      && multiset(p.deleteCheckouts) + multiset(p.keepCheckouts) == multiset(Map(CheckoutName(), s.checkouts))
  {
    var anyReport, anyCheckout := (report: Report) => true, (c: Checkout) => true;
    FilterSplits(s.reports, Deletes(r), Preserves(r), anyReport, ReportName());
    FilterAll(s.reports, anyReport);
    FilterSplits(s.checkouts, DeletesCheckout(r), KeepsCheckout(r), anyCheckout, CheckoutName());
    FilterAll(s.checkouts, anyCheckout);
  }

  predicate Stops(r: Request, job: Job) {
    r.trigger != RetentionExpired && QueueCleanupMatches(r, job) && job.status in {Queued, Running}
  }

  /** The names a plan acts on. */
  function StoppedKeys(p: Plan): seq<string> { p.queue.cancelQueued + p.queue.requestRunningCancellation }

  lemma ListedWhere(r: Request, jobs: seq<Job>, p: Job -> bool)
    ensures forall k :: k in Map(JobName(), Filter(Filter(jobs, Matches(r)), p)) <==>
      exists job <- jobs :: job.key == k && QueueCleanupMatches(r, job) && p(job)
  {
    var matched := Filter(jobs, Matches(r));
    FilterMembers(jobs, Matches(r));
    FilterMembers(matched, p);
    MapMembers(JobName(), Filter(matched, p));
    forall k <- Map(JobName(), Filter(matched, p))
      ensures exists job <- jobs :: job.key == k && QueueCleanupMatches(r, job) && p(job)
    {
      var i :| 0 <= i < |Filter(matched, p)| && JobName()(Filter(matched, p)[i]) == k;
      assert Filter(matched, p)[i] in Filter(matched, p);
    }
  }

  lemma ListedJobs(r: Request, s: State)
    ensures forall k :: k in StoppedKeys(PlanFor(r, s)) <==> exists job <- s.jobs :: job.key == k && Stops(r, job)
    ensures forall job <- s.jobs :: Stops(r, job) ==> job.key in StoppedKeys(PlanFor(r, s))
  {
    if r.trigger != RetentionExpired {
      ListedWhere(r, s.jobs, IsQueued());
      ListedWhere(r, s.jobs, IsRunning());
    }
  }

  lemma ListedReports(r: Request, s: State)
    ensures forall k :: k in PlanFor(r, s).deleteReports <==>
            exists report <- s.reports :: report.id == k && ShouldDelete(r, report)
    ensures forall report <- s.reports :: ShouldDelete(r, report) ==> report.id in PlanFor(r, s).deleteReports
  {
    var listed := Filter(s.reports, Deletes(r));
    FilterMembers(s.reports, Deletes(r));
    MapMembers(ReportName(), listed);
    forall k <- PlanFor(r, s).deleteReports
      ensures exists report <- s.reports :: report.id == k && ShouldDelete(r, report)
    {
      var i :| 0 <= i < |listed| && ReportName()(listed[i]) == k;
      assert listed[i] in listed;
    }
  }

  predicate DropsCheckout(r: Request, c: Checkout) {
    r.trigger != RetentionExpired && ShouldDeleteCheckout(r, c)
  }

  lemma ListedCheckouts(r: Request, s: State)
    ensures forall k :: k in PlanFor(r, s).deleteCheckouts <==>
            exists c <- s.checkouts :: c.key == k && DropsCheckout(r, c)
    ensures forall c <- s.checkouts :: DropsCheckout(r, c) ==> c.key in PlanFor(r, s).deleteCheckouts
  {
    if r.trigger != RetentionExpired {
      var listed := Filter(s.checkouts, DeletesCheckout(r));
      FilterMembers(s.checkouts, DeletesCheckout(r));
      MapMembers(CheckoutName(), listed);
      forall k <- PlanFor(r, s).deleteCheckouts ensures exists c <- s.checkouts :: c.key == k && DropsCheckout(r, c) {
        var i :| 0 <= i < |listed| && CheckoutName()(listed[i]) == k;
        assert listed[i] in listed;
      }
    }
  }

  // ---------------------------------------------------------------- carrying a plan out

  function Survives(p: Plan): Report -> bool { (report: Report) => report.id !in p.deleteReports }

  function CarryJob(p: Plan, job: Job): Job {
    if job.key in StoppedKeys(p) then job.(status := Cancelled) else job
  }

  function CarryCheckout(p: Plan, c: Checkout): Checkout {
    if c.key in p.deleteCheckouts then c.(status := Some(Deleted)) else c
  }

  function JobCarrier(p: Plan): Job -> Job { (job: Job) => CarryJob(p, job) }
  function CheckoutCarrier(p: Plan): Checkout -> Checkout { (c: Checkout) => CarryCheckout(p, c) }

  /** What a plan asks for, by name: the listed reports go, the listed jobs end up cancelled, the listed
      checkouts deleted. */
  function Apply(s: State, p: Plan): State {
    State(Filter(s.reports, Survives(p)), Map(JobCarrier(p), s.jobs), Map(CheckoutCarrier(p), s.checkouts))
  }

  /** The request leaves nothing in the state to act on. */
  ghost predicate NothingToDo(r: Request, s: State) {
    && PlanFor(r, s).deleteReports == []
    && PlanFor(r, s).queue.cancelQueued == [] && PlanFor(r, s).queue.requestRunningCancellation == []
    && PlanFor(r, s).deleteCheckouts == []
  }

  lemma NothingToDoWhen(r: Request, s: State)
    requires forall report <- s.reports :: !ShouldDelete(r, report)
    requires forall job <- s.jobs :: !Stops(r, job)
    requires forall c <- s.checkouts :: !DropsCheckout(r, c)
    ensures NothingToDo(r, s)
  {
    FilterNone(s.reports, Deletes(r));
    if r.trigger != RetentionExpired {
      var matched := Filter(s.jobs, Matches(r));
      FilterMembers(s.jobs, Matches(r));
      FilterNone(matched, IsQueued());
      FilterNone(matched, IsRunning());
      FilterNone(s.checkouts, DeletesCheckout(r));
    }
  }

  /** A later request that reaches no further than an earlier one. */
  predicate ReachesNoFurther(later: Request, earlier: Request) {
    && later.installationId == earlier.installationId
    && earlier.trigger != RetentionExpired
    && (ResolveScope(earlier) == WholeInstallation ||
        (ResolveScope(later) == OneRepository && later.repositoryId == earlier.repositoryId))
  }

  /** What may have become of a job. A queued one that is listed is cancelled; a running one is only asked
      to stop, so it may still run, or have ended in any way. */
  predicate Follows(p: Plan, was: Job, now: Job) {
    && now == was.(status := now.status)
    && if was.key in p.queue.cancelQueued then now.status == Cancelled
       else now.status == was.status || (was.key in p.queue.requestRunningCancellation && IsTerminal(now.status))
  }

  /** `t` is a state that carrying out `p` in `s` can lead to. */
  ghost predicate CarriedOut(s: State, p: Plan, t: State) {
    && t.reports == Filter(s.reports, Survives(p))
    && t.checkouts == Map(CheckoutCarrier(p), s.checkouts)
    && |t.jobs| == |s.jobs| && forall i :: 0 <= i < |s.jobs| ==> Follows(p, s.jobs[i], t.jobs[i])
  }

  /** If every running job stops in the end, it leads to `Apply`. */
  lemma ApplyCarriesOut(s: State, p: Plan)
    ensures CarriedOut(s, p, Apply(s, p))
  {
  }

  /** A job still to be stopped is one that was asked to stop and still runs. */
  lemma OnlyAskedStillRun(first: Request, s: State, t: State, again: Request, job: Job)
    requires ReachesNoFurther(again, first) && CarriedOut(s, PlanFor(first, s), t)
    requires job in t.jobs && Stops(again, job)
    ensures job.status == Running && job.key in PlanFor(first, s).queue.requestRunningCancellation
  {
    ListedWhere(first, s.jobs, IsQueued());
    ListedWhere(first, s.jobs, IsRunning());
    var i :| 0 <= i < |t.jobs| && t.jobs[i] == job;
    assert s.jobs[i] in s.jobs && Follows(PlanFor(first, s), s.jobs[i], t.jobs[i]);
  }

  /** The state after some more reports were stored. */
  function WithLate(t: State, late: seq<Report>): State { t.(reports := t.reports + late) }

  /** Main result: once a deletion has been carried out, asking again, under whatever trigger and at
      whatever time, for the same repository or any part of the same installation finds no checkout to
      delete and no queued job to cancel. It repeats at most requests to running jobs that were asked
      before. The reports it deletes are those that such jobs, or anyone, stored after the deletion and
      that are in its scope; so it deletes none exactly if no such report was stored. */
  lemma RepeatedCleanupFindsOnlyLate(first: Request, s: State, t: State, late: seq<Report>, again: Request)
    requires ReachesNoFurther(again, first) && CarriedOut(s, PlanFor(first, s), t)
    ensures var q, asked := PlanFor(again, WithLate(t, late)), PlanFor(first, s).queue.requestRunningCancellation;
      && q.deleteCheckouts == [] && q.queue.cancelQueued == []
      && (forall k <- q.queue.requestRunningCancellation :: k in asked)
      && (forall id :: id in q.deleteReports <==> exists x <- late :: x.id == id && ShouldDelete(again, x))
      && (q.deleteReports == [] <==> forall x <- late :: !ShouldDelete(again, x))
      && ((forall job <- t.jobs :: job.key in asked ==> job.status != Running) ==>
            q.queue.requestRunningCancellation == [])
  {
    var asked := PlanFor(first, s).queue.requestRunningCancellation;
    NothingLeftToDelete(first, s, t, again);
    OnlyLateReports(again, t, late);
    forall job <- t.jobs ensures Stops(again, job) ==> job.status == Running && job.key in asked {
      if Stops(again, job) { OnlyAskedStillRun(first, s, t, again, job); }
    }
    if again.trigger != RetentionExpired {
      ListedWhere(again, t.jobs, IsRunning());
      FilterMembers(t.jobs, Matches(again));
      FilterNone(Filter(t.jobs, Matches(again)), IsQueued());
    }
    if forall job <- t.jobs :: job.key in asked ==> job.status != Running {
      if again.trigger != RetentionExpired { FilterNone(Filter(t.jobs, Matches(again)), IsRunning()); }
    }
  }

  lemma OnlyLateReports(again: Request, t: State, late: seq<Report>)
    requires PlanFor(again, t).deleteReports == []
    ensures var ids := PlanFor(again, WithLate(t, late)).deleteReports;
      && (forall id :: id in ids <==> exists x <- late :: x.id == id && ShouldDelete(again, x))
      && (ids == [] <==> forall x <- late :: !ShouldDelete(again, x))
  {
    var ids := PlanFor(again, WithLate(t, late)).deleteReports;
    ListedReports(again, t);
    ListedReports(again, WithLate(t, late));
    assert ids != [] ==> ids[0] in ids;
  }

  /** If nothing was stored meanwhile, it deletes nothing, and once the jobs asked have stopped it finds
      nothing at all. */
  lemma RepeatedCleanupFindsNothing(first: Request, s: State, t: State, again: Request)
    requires ReachesNoFurther(again, first) && CarriedOut(s, PlanFor(first, s), t)
    ensures var q, asked := PlanFor(again, t), PlanFor(first, s).queue.requestRunningCancellation;
      && q.deleteReports == [] && q.deleteCheckouts == [] && q.queue.cancelQueued == []
      && (forall k <- q.queue.requestRunningCancellation :: k in asked)
      && ((forall job <- t.jobs :: job.key in asked ==> job.status != Running) ==> NothingToDo(again, t))
  {
    RepeatedCleanupFindsOnlyLate(first, s, t, [], again);
    assert WithLate(t, []) == t;
  }

  /** And there can be such a report: a running scan is only asked to stop, so it may end completed, its
      report stored after the deletion. */
  lemma LateReportIsFound(i: Identity, createdAt: Date)
    ensures var r := Request(RepositoryRemoved, i.installationId, Some(i.repositoryId), createdAt);
      var running := State([], [Job(Key(i), i, Running)], []);
      var completed := State([], [Job(Key(i), i, Completed)], []);
      var late := Report(ReportId(Key(i), 1), i.installationId, i.repositoryId, createdAt, None, None);
      && CarriedOut(running, PlanFor(r, running), completed)
      && late.id in PlanFor(r, WithLate(completed, [late])).deleteReports
  {
    var r := Request(RepositoryRemoved, i.installationId, Some(i.repositoryId), createdAt);
    var late := Report(ReportId(Key(i), 1), i.installationId, i.repositoryId, createdAt, None, None);
    RunningMayComplete(r, Job(Key(i), i, Running));
    var u := WithLate(State([], [Job(Key(i), i, Completed)], []), [late]);
    ListedReports(r, u);
    assert late in u.reports;
  }

  /** A running job that is alone and reached may have completed. */
  lemma RunningMayComplete(r: Request, job: Job)
    requires r.trigger != RetentionExpired && job.status == Running && QueueCleanupMatches(r, job)
    ensures var running := State([], [job], []);
      CarriedOut(running, PlanFor(r, running), State([], [job.(status := Completed)], []))
  {
    ListedWhere(r, [job], IsQueued());
    ListedWhere(r, [job], IsRunning());
    assert [job][0] in [job] && IsRunning()(job);
  }

  lemma NothingLeftToDelete(first: Request, s: State, t: State, again: Request)
    requires ReachesNoFurther(again, first) && CarriedOut(s, PlanFor(first, s), t)
    ensures PlanFor(again, t).deleteReports == [] && PlanFor(again, t).deleteCheckouts == []
  {
    var p := PlanFor(first, s);
    ListedReports(first, s);
    ListedCheckouts(first, s);
    FilterMembers(s.reports, Survives(p));
    forall c <- t.checkouts ensures !DropsCheckout(again, c) {
      var i :| 0 <= i < |t.checkouts| && t.checkouts[i] == c;
      assert s.checkouts[i] in s.checkouts;
    }
    FilterNone(t.reports, Deletes(again));
    if again.trigger != RetentionExpired { FilterNone(t.checkouts, DeletesCheckout(again)); }
  }

  /** An expiry, carried out, is done too, for the same time. */
  lemma RepeatedExpiryFindsNothing(r: Request, s: State)
    requires r.trigger == RetentionExpired
    ensures NothingToDo(r, Apply(s, PlanFor(r, s)))
  {
    var p := PlanFor(r, s);
    ListedReports(r, s);
    FilterMembers(s.reports, Survives(p));
    NothingToDoWhen(r, Apply(s, p));
  }

  // ---------------------------------------------------------------- what a plan must not touch

  ghost predicate Untouched(r: Request, s: State) {
    var p := PlanFor(r, s);
    && (forall report <- s.reports :: !ShouldDelete(r, report) ==> Survives(p)(report))
    && (forall job <- s.jobs :: !Stops(r, job) ==> CarryJob(p, job) == job)
    && (forall c <- s.checkouts :: !DropsCheckout(r, c) ==> CarryCheckout(p, c) == c)
  }

  /** Names that a kept item shares with an item acted on. */
  ghost predicate SharesReportId(r: Request, s: State) {
    exists x <- s.reports, y <- s.reports :: x.id == y.id && ShouldDelete(r, x) && !ShouldDelete(r, y)
  }

  ghost predicate SharesJobKey(r: Request, s: State) {
    exists x <- s.jobs, y <- s.jobs :: x.key == y.key && Stops(r, x) && !Stops(r, y) && y.status != Cancelled
  }

  ghost predicate SharesCheckoutKey(r: Request, s: State) {
    exists x <- s.checkouts, y <- s.checkouts ::
      x.key == y.key && DropsCheckout(r, x) && !DropsCheckout(r, y) && y.status != Some(Deleted)
  }

  /** Main result: plans name things by id, so everything a request does not mean to touch stays as it
      is exactly when no such thing shares its id with something the request acts on. */
  lemma UntouchedExactlyWhen(r: Request, s: State)
    ensures Untouched(r, s) <==> !SharesReportId(r, s) && !SharesJobKey(r, s) && !SharesCheckoutKey(r, s)
  {
    ListedReports(r, s);
    ListedJobs(r, s);
    ListedCheckouts(r, s);
  }

  /** Reports of the hosted service have ids made from the identity scanned. */
  ghost predicate IdsFromIdentities(s: State, identities: seq<Identity>, attempts: seq<nat>) {
    && |identities| == |attempts| == |s.reports|
    && forall i :: 0 <= i < |s.reports| ==>
         && s.reports[i].id == ReportId(Key(identities[i]), attempts[i])
         && s.reports[i].installationId == identities[i].installationId
         && s.reports[i].repositoryId == identities[i].repositoryId
  }

  /** Main result: with ids made that way a deletion never takes a report of another installation or
      repository, whatever commit and version strings the ids contain, and even if ids repeat. */
  lemma DeletionKeepsOtherRepositories(r: Request, s: State, identities: seq<Identity>, attempts: seq<nat>)
    requires r.trigger != RetentionExpired && IdsFromIdentities(s, identities, attempts)
    ensures !SharesReportId(r, s)
  {
    forall i, j | 0 <= i < |s.reports| && 0 <= j < |s.reports| && s.reports[i].id == s.reports[j].id
      ensures ShouldDelete(r, s.reports[i]) == ShouldDelete(r, s.reports[j])
    {
      ReportIdInjective(Key(identities[i]), attempts[i], Key(identities[j]), attempts[j]);
      KeysCoincide(identities[i], identities[j]);
    }
  }

  /** ... and with job keys made from the identities it never cancels another repository's job. */
  lemma DeletionKeepsOtherJobs(r: Request, s: State, job: Job)
    requires r.trigger != RetentionExpired && job in s.jobs && !QueueCleanupMatches(r, job)
    requires forall j <- s.jobs :: j.key == Key(j.identity)
    ensures CarryJob(PlanFor(r, s), job) == job
  {
    ListedJobs(r, s);
    forall j <- s.jobs | j.key == job.key ensures !Stops(r, j) {
      KeysCoincide(j.identity, job.identity);
    }
  }

  /** The requests that can touch nothing: a repository's cleanup that names no repository, as a repeated
      installation cleanup can be, and an expiry whose time does not parse. */
  predicate IsIdle(r: Request) {
    || (r.trigger in {RepositoryRemoved, RepeatedCleanup} && r.repositoryId.None?)
    || (r.trigger == RetentionExpired && r.requestedAt.Invalid?)
  }

  /** A report that any other request deletes. */
  function SampleReport(r: Request): Report {
    Report("", r.installationId, if r.repositoryId.Some? then r.repositoryId.value else 0, Invalid, None,
           Some(r.requestedAt))
  }

  /** Main result, both ways: a request leaves every state as it is exactly if it is one of those. */
  lemma TouchesNothingExactlyWhen(r: Request)
    ensures (forall s: State :: NothingToDo(r, s)) <==> IsIdle(r)
  {
    if IsIdle(r) {
      forall s: State ensures NothingToDo(r, s) { IdleDoesNothing(r, s); }
    } else {
      var s := State([SampleReport(r)], [], []);
      assert ShouldDelete(r, SampleReport(r)) && SampleReport(r) in s.reports;
      ListedReports(r, s);
      assert !NothingToDo(r, s);
    }
  }

  lemma IdleDoesNothing(r: Request, s: State)
    requires IsIdle(r)
    ensures NothingToDo(r, s)
  {
    NothingToDoWhen(r, s);
  }

  // ---------------------------------------------------------------- one cleanup after another

  /** Main result: removing repositories before their installation changes nothing in the end. */
  lemma InstallationAbsorbsRepository(repository: Request, installation: Request, s: State)
    requires repository.trigger in {RepositoryRemoved, RepeatedCleanup} && installation.trigger == InstallationDeleted
    requires repository.installationId == installation.installationId
    ensures var t := Apply(s, PlanFor(repository, s));
      Apply(t, PlanFor(installation, t)) == Apply(s, PlanFor(installation, s))
  {
    var p := PlanFor(repository, s);
    var t := Apply(s, p);
    var q, whole := PlanFor(installation, t), PlanFor(installation, s);
    AbsorbReports(repository, installation, s, t);
    AbsorbJobs(repository, installation, s);
    AbsorbCheckouts(repository, installation, s, t);
    MapTwice(s.jobs, JobCarrier(p), JobCarrier(q), JobCarrier(whole));
    MapTwice(s.checkouts, CheckoutCarrier(p), CheckoutCarrier(q), CheckoutCarrier(whole));
  }

  lemma AbsorbReports(repository: Request, installation: Request, s: State, t: State)
    requires repository.trigger in {RepositoryRemoved, RepeatedCleanup} && installation.trigger == InstallationDeleted
    requires repository.installationId == installation.installationId
    requires t.reports == Filter(s.reports, Survives(PlanFor(repository, s)))
    ensures Filter(t.reports, Survives(PlanFor(installation, t))) ==
            Filter(s.reports, Survives(PlanFor(installation, s)))
  {
    var p := PlanFor(repository, s);
    var q, whole := PlanFor(installation, t), PlanFor(installation, s);
    ListedReports(repository, s);
    ListedReports(installation, s);
    ListedReports(installation, t);
    FilterMembers(s.reports, Survives(p));
    forall x <- s.reports ensures Survives(whole)(x) == (Survives(p)(x) && Survives(q)(x)) {
      if x.id in whole.deleteReports && x.id !in p.deleteReports {
        var y :| y in s.reports && y.id == x.id && ShouldDelete(installation, y);
        assert y in t.reports;
      }
    }
    FilterTwice(s.reports, Survives(p), Survives(q), Survives(whole));
  }

  lemma AbsorbJobsKey(repository: Request, installation: Request, s: State, k: string)
    requires repository.trigger in {RepositoryRemoved, RepeatedCleanup} && installation.trigger == InstallationDeleted
    requires repository.installationId == installation.installationId
    ensures var p := PlanFor(repository, s);
      var q := PlanFor(installation, Apply(s, p));
      k in StoppedKeys(PlanFor(installation, s)) <==> k in StoppedKeys(p) || k in StoppedKeys(q)
  {
    var p := PlanFor(repository, s);
    var t := Apply(s, p);
    ListedJobs(repository, s);
    ListedJobs(installation, s);
    ListedJobs(installation, t);
    if k in StoppedKeys(PlanFor(installation, s)) && k !in StoppedKeys(p) {
      var i :| 0 <= i < |s.jobs| && s.jobs[i].key == k && Stops(installation, s.jobs[i]);
      assert t.jobs[i] == s.jobs[i] && t.jobs[i] in t.jobs;
    }
    if k in StoppedKeys(PlanFor(installation, t)) {
      var i :| 0 <= i < |t.jobs| && t.jobs[i].key == k && Stops(installation, t.jobs[i]);
      assert t.jobs[i] == CarryJob(p, s.jobs[i]) && s.jobs[i] in s.jobs;
    }
  }

  lemma AbsorbJobs(repository: Request, installation: Request, s: State)
    requires repository.trigger in {RepositoryRemoved, RepeatedCleanup} && installation.trigger == InstallationDeleted
    requires repository.installationId == installation.installationId
    ensures var p := PlanFor(repository, s);
      var q := PlanFor(installation, Apply(s, p));
      forall job <- s.jobs :: CarryJob(q, CarryJob(p, job)) == CarryJob(PlanFor(installation, s), job)
  {
    forall job <- s.jobs
      ensures var p := PlanFor(repository, s);
        var q := PlanFor(installation, Apply(s, p));
        CarryJob(q, CarryJob(p, job)) == CarryJob(PlanFor(installation, s), job)
    {
      AbsorbJobsKey(repository, installation, s, job.key);
    }
  }

  lemma AbsorbCheckoutsKey(repository: Request, installation: Request, s: State, t: State, k: string)
    requires repository.trigger in {RepositoryRemoved, RepeatedCleanup} && installation.trigger == InstallationDeleted
    requires repository.installationId == installation.installationId
    requires t.checkouts == Map(CheckoutCarrier(PlanFor(repository, s)), s.checkouts)
    ensures var p, q := PlanFor(repository, s), PlanFor(installation, t);
      k in PlanFor(installation, s).deleteCheckouts <==> k in p.deleteCheckouts || k in q.deleteCheckouts
  {
    var p := PlanFor(repository, s);
    ListedCheckouts(repository, s);
    ListedCheckouts(installation, s);
    ListedCheckouts(installation, t);
    if k in PlanFor(installation, s).deleteCheckouts && k !in p.deleteCheckouts {
      var i :| 0 <= i < |s.checkouts| && s.checkouts[i].key == k && DropsCheckout(installation, s.checkouts[i]);
      UnlistedStays(p, s.checkouts, t.checkouts, i);
    }
    if k in PlanFor(installation, t).deleteCheckouts {
      var i :| 0 <= i < |t.checkouts| && t.checkouts[i].key == k && DropsCheckout(installation, t.checkouts[i]);
      DroppedWasDropped(p, installation, s.checkouts, t.checkouts, i);
    }
  }

  lemma UnlistedStays(p: Plan, was: seq<Checkout>, now: seq<Checkout>, i: nat)
    requires now == Map(CheckoutCarrier(p), was) && i < |was| && was[i].key !in p.deleteCheckouts
    ensures was[i] in now
  {
    assert now[i] == was[i];
  }

  lemma DroppedWasDropped(p: Plan, r: Request, was: seq<Checkout>, now: seq<Checkout>, i: nat)
    requires now == Map(CheckoutCarrier(p), was) && i < |was| && DropsCheckout(r, now[i])
    ensures was[i] in was && was[i].key == now[i].key && DropsCheckout(r, was[i])
  {
    assert now[i] == CarryCheckout(p, was[i]);
  }

  lemma AbsorbCheckouts(repository: Request, installation: Request, s: State, t: State)
    requires repository.trigger in {RepositoryRemoved, RepeatedCleanup} && installation.trigger == InstallationDeleted
    requires repository.installationId == installation.installationId
    requires t.checkouts == Map(CheckoutCarrier(PlanFor(repository, s)), s.checkouts)
    ensures var p, q := PlanFor(repository, s), PlanFor(installation, t);
      forall c <- s.checkouts :: CarryCheckout(q, CarryCheckout(p, c)) == CarryCheckout(PlanFor(installation, s), c)
  {
    forall c <- s.checkouts
      ensures var p, q := PlanFor(repository, s), PlanFor(installation, t);
        CarryCheckout(q, CarryCheckout(p, c)) == CarryCheckout(PlanFor(installation, s), c)
    {
      AbsorbCheckoutsKey(repository, installation, s, t, c.key);
    }
  }

  // The same while jobs still run. Jobs live in a map by key, so no two have the same one.

  ghost predicate DistinctKeys(jobs: seq<Job>) {
    forall i, j :: 0 <= i < j < |jobs| ==> jobs[i].key != jobs[j].key
  }

  /** With distinct keys a job is listed for what it is itself. */
  lemma ListedForItself(r: Request, jobs: seq<Job>, i: nat)
    requires r.trigger != RetentionExpired && DistinctKeys(jobs) && i < |jobs|
    ensures var q := QueueCleanup(r, jobs);
      && (jobs[i].key in q.cancelQueued <==> QueueCleanupMatches(r, jobs[i]) && jobs[i].status == Queued)
      && (jobs[i].key in q.requestRunningCancellation <==> QueueCleanupMatches(r, jobs[i]) && jobs[i].status == Running)
  {
    ListedWhere(r, jobs, IsQueued());
    ListedWhere(r, jobs, IsRunning());
    assert jobs[i] in jobs;
    forall job <- jobs | job.key == jobs[i].key ensures job == jobs[i] {
      var j :| 0 <= j < |jobs| && jobs[j] == job;
    }
  }

  /** What may become of a job that is listed for what it is itself. */
  predicate Turns(r: Request, was: Job, now: Job) {
    && now == was.(status := now.status)
    && if !QueueCleanupMatches(r, was) then now.status == was.status
       else if was.status == Queued then now.status == Cancelled
       else now.status == was.status || (was.status == Running && IsTerminal(now.status))
  }

  lemma FollowsMeansTurns(r: Request, s: State, jobs: seq<Job>, i: nat)
    requires r.trigger != RetentionExpired && DistinctKeys(s.jobs) && i < |s.jobs| == |jobs|
    ensures Follows(PlanFor(r, s), s.jobs[i], jobs[i]) <==> Turns(r, s.jobs[i], jobs[i])
  {
    ListedForItself(r, s.jobs, i);
  }

  lemma CarriedOutMeansTurns(r: Request, s: State, t: State)
    requires r.trigger != RetentionExpired && DistinctKeys(s.jobs) && |t.jobs| == |s.jobs|
    ensures (forall i :: 0 <= i < |s.jobs| ==> Follows(PlanFor(r, s), s.jobs[i], t.jobs[i])) <==>
            (forall i :: 0 <= i < |s.jobs| ==> Turns(r, s.jobs[i], t.jobs[i]))
  {
    forall i | 0 <= i < |s.jobs|
      ensures Follows(PlanFor(r, s), s.jobs[i], t.jobs[i]) <==> Turns(r, s.jobs[i], t.jobs[i])
    {
      FollowsMeansTurns(r, s, t.jobs, i);
    }
  }

  /** Where the repository's cleanup may have led on the way to `u`. */
  function HalfWay(repository: Request, s: State, u: State): State
    requires |u.jobs| == |s.jobs|
  {
    State(Filter(s.reports, Survives(PlanFor(repository, s))),
          seq(|s.jobs|, i requires 0 <= i < |s.jobs| =>
            if QueueCleanupMatches(repository, s.jobs[i]) then u.jobs[i] else s.jobs[i]),
          Map(CheckoutCarrier(PlanFor(repository, s)), s.checkouts))
  }

  /** `u` can be reached by cleaning up the repository, and then the installation. */
  ghost predicate InTwoParts(repository: Request, installation: Request, s: State, u: State) {
    exists t: State :: CarriedOut(s, PlanFor(repository, s), t) && CarriedOut(t, PlanFor(installation, t), u)
  }

  lemma AbsorbStores(repository: Request, installation: Request, s: State, t: State)
    requires repository.trigger in {RepositoryRemoved, RepeatedCleanup} && installation.trigger == InstallationDeleted
    requires repository.installationId == installation.installationId
    requires t.reports == Filter(s.reports, Survives(PlanFor(repository, s)))
    requires t.checkouts == Map(CheckoutCarrier(PlanFor(repository, s)), s.checkouts)
    ensures Filter(t.reports, Survives(PlanFor(installation, t))) ==
            Filter(s.reports, Survives(PlanFor(installation, s)))
    ensures Map(CheckoutCarrier(PlanFor(installation, t)), t.checkouts) ==
            Map(CheckoutCarrier(PlanFor(installation, s)), s.checkouts)
  {
    AbsorbReports(repository, installation, s, t);
    AbsorbCheckouts(repository, installation, s, t);
    MapTwice(s.checkouts, CheckoutCarrier(PlanFor(repository, s)), CheckoutCarrier(PlanFor(installation, t)),
             CheckoutCarrier(PlanFor(installation, s)));
  }

  lemma TurnsTwice(repository: Request, installation: Request, a: Job, b: Job, c: Job)
    requires repository.trigger in {RepositoryRemoved, RepeatedCleanup} && installation.trigger == InstallationDeleted
    requires repository.installationId == installation.installationId
    ensures Turns(repository, a, b) && Turns(installation, b, c) ==> Turns(installation, a, c)
    ensures Turns(installation, a, c) && b == (if QueueCleanupMatches(repository, a) then c else a) ==>
              Turns(repository, a, b) && Turns(installation, b, c)
  {
  }

  lemma TwoPartsAreOne(repository: Request, installation: Request, s: State, t: State, u: State)
    requires repository.trigger in {RepositoryRemoved, RepeatedCleanup} && installation.trigger == InstallationDeleted
    requires repository.installationId == installation.installationId && DistinctKeys(s.jobs)
    requires CarriedOut(s, PlanFor(repository, s), t) && CarriedOut(t, PlanFor(installation, t), u)
    ensures CarriedOut(s, PlanFor(installation, s), u)
  {
    AbsorbStores(repository, installation, s, t);
    forall i | 0 <= i < |s.jobs| ensures t.jobs[i].key == s.jobs[i].key {
      assert Follows(PlanFor(repository, s), s.jobs[i], t.jobs[i]);
    }
    CarriedOutMeansTurns(repository, s, t);
    CarriedOutMeansTurns(installation, t, u);
    CarriedOutMeansTurns(installation, s, u);
    forall i | 0 <= i < |s.jobs| ensures Turns(installation, s.jobs[i], u.jobs[i]) {
      TurnsTwice(repository, installation, s.jobs[i], t.jobs[i], u.jobs[i]);
    }
  }

  lemma OneIsTwoParts(repository: Request, installation: Request, s: State, u: State)
    requires repository.trigger in {RepositoryRemoved, RepeatedCleanup} && installation.trigger == InstallationDeleted
    requires repository.installationId == installation.installationId && DistinctKeys(s.jobs)
    requires CarriedOut(s, PlanFor(installation, s), u)
    ensures InTwoParts(repository, installation, s, u)
  {
    var t := HalfWay(repository, s, u);
    AbsorbStores(repository, installation, s, t);
    CarriedOutMeansTurns(installation, s, u);
    HalfWayTurns(repository, installation, s, u);
    CarriedOutMeansTurns(repository, s, t);
    CarriedOutMeansTurns(installation, t, u);
  }

  lemma HalfWayTurns(repository: Request, installation: Request, s: State, u: State)
    requires repository.trigger in {RepositoryRemoved, RepeatedCleanup} && installation.trigger == InstallationDeleted
    requires repository.installationId == installation.installationId && DistinctKeys(s.jobs)
    requires |u.jobs| == |s.jobs| && forall i :: 0 <= i < |s.jobs| ==> Turns(installation, s.jobs[i], u.jobs[i])
    ensures var t := HalfWay(repository, s, u);
      && DistinctKeys(t.jobs)
      && forall i :: 0 <= i < |s.jobs| ==>
           Turns(repository, s.jobs[i], t.jobs[i]) && Turns(installation, t.jobs[i], u.jobs[i])
  {
    var t := HalfWay(repository, s, u);
    forall i | 0 <= i < |s.jobs|
      ensures t.jobs[i].key == s.jobs[i].key
      ensures Turns(repository, s.jobs[i], t.jobs[i]) && Turns(installation, t.jobs[i], u.jobs[i])
    {
      TurnsTwice(repository, installation, s.jobs[i], t.jobs[i], u.jobs[i]);
    }
  }

  /** Main result, both ways: while running jobs are only asked to stop and may go on or end as they like,
      cleaning up repositories before their installation can lead to exactly the states that cleaning up
      the installation can lead to. */
  lemma InstallationAbsorbsWhileJobsRun(repository: Request, installation: Request, s: State, u: State)
    requires repository.trigger in {RepositoryRemoved, RepeatedCleanup} && installation.trigger == InstallationDeleted
    requires repository.installationId == installation.installationId && DistinctKeys(s.jobs)
    ensures InTwoParts(repository, installation, s, u) <==> CarriedOut(s, PlanFor(installation, s), u)
  {
    if t: State :| CarriedOut(s, PlanFor(repository, s), t) && CarriedOut(t, PlanFor(installation, t), u) {
      TwoPartsAreOne(repository, installation, s, t, u);
    }
    if CarriedOut(s, PlanFor(installation, s), u) { OneIsTwoParts(repository, installation, s, u); }
  }

  // ---------------------------------------------------------------- retention

  /** Main result: an expiry asked for later deletes at least what an earlier one would. */
  lemma LaterExpiryDeletesMore(r: Request, later: int, s: State)
    requires r.trigger == RetentionExpired && r.requestedAt.At? && r.requestedAt.ms <= later
    ensures forall id <- PlanFor(r, s).deleteReports :: id in PlanFor(r.(requestedAt := At(later)), s).deleteReports
  {
    ListedReports(r, s);
    ListedReports(r.(requestedAt := At(later)), s);
  }

  /** Main result: a report in scope, created at a known time and with no expiry of its own, goes at
      the end of its days: never in its first day, always once thirty are over. */
  lemma RetentionIsAtMostThirtyDays(r: Request, s: State, report: Report)
    requires r.trigger == RetentionExpired && r.requestedAt.At? && report in s.reports
    requires report.createdAt.At? && report.expiresAt.None?
    requires InScope(r, ResolveScope(r), report.installationId, report.repositoryId)
    requires r.requestedAt.ms >= report.createdAt.ms + RETENTION_DAYS * DAY_MS
    ensures report.id in PlanFor(r, s).deleteReports
  {
    ListedReports(r, s);
  }

  lemma RetentionIsAtLeastOneDay(r: Request, report: Report)
    requires r.trigger == RetentionExpired && report.expiresAt.None? && report.createdAt.At?
    requires r.requestedAt.At? && r.requestedAt.ms < report.createdAt.ms + DAY_MS
    ensures !ShouldDelete(r, report)
  {
  }

  /** Exactly which reports no expiry will ever delete: those whose deciding date does not parse. */
  lemma NeverExpiresExactlyWhen(report: Report)
    ensures (forall at: Date :: !IsCompactReportExpired(report, at)) <==>
            report.expiresAt == Some(Invalid) || (report.expiresAt.None? && report.createdAt == Invalid)
  {
    if report.expiresAt.Some? && report.expiresAt.value.At? {
      assert IsCompactReportExpired(report, report.expiresAt.value);
    }
    if report.expiresAt.None? && report.createdAt.At? {
      var end := At(report.createdAt.ms + ResolveHostedRetentionDays(report.retentionDays) * DAY_MS);
      assert IsCompactReportExpired(report, end);
    }
  }

  /** An expiry leaves jobs and checkouts as they are. */
  lemma ExpiryLeavesWork(r: Request, s: State)
    requires r.trigger == RetentionExpired
    ensures Apply(s, PlanFor(r, s)).jobs == s.jobs && Apply(s, PlanFor(r, s)).checkouts == s.checkouts
  {
  }

  // ---------------------------------------------------------------- the key of a cleanup

  function TriggerName(t: Trigger): string {
    match t
    case RepositoryRemoved => "repository_removed"
    case InstallationDeleted => "installation_deleted"
    case RepeatedCleanup => "repeated_cleanup"
    case RetentionExpired => "retention_expired"
  }

  function RepositoryName(r: Request): string {
    if ResolveScope(r) == OneRepository && r.repositoryId.Some? then Decimal(r.repositoryId.value) else "all"
  }

  /** `getHostedRetentionAndDeletionCleanupIdempotencyKey`, as the planner calls it. */
  function CleanupKey(r: Request): string {
    "retention-cleanup:" + (TriggerName(r.trigger) + ":" + (Decimal(r.installationId) + ":" + RepositoryName(r)))
  }

  /** Main result: two requests share a key exactly when they have one trigger, one installation and one
      scope, and so ask for the same deletions of the same jobs and checkouts. */
  lemma CleanupKeyIdentifiesRequest(a: Request, b: Request)
    ensures CleanupKey(a) == CleanupKey(b) <==>
      a.trigger == b.trigger && a.installationId == b.installationId && RepositoryName(a) == RepositoryName(b)
    ensures CleanupKey(a) == CleanupKey(b) ==> forall job :: Stops(a, job) <==> Stops(b, job)
  {
    if CleanupKey(a) == CleanupKey(b) {
      var x := Decimal(a.installationId) + ":" + RepositoryName(a);
      var y := Decimal(b.installationId) + ":" + RepositoryName(b);
      assert CleanupKey(a)[18..] == TriggerName(a.trigger) + ":" + x;
      assert CleanupKey(b)[18..] == TriggerName(b.trigger) + ":" + y;
      SplitFirst(TriggerName(a.trigger), x, TriggerName(b.trigger), y, ':');
      SplitFirst(Decimal(a.installationId), RepositoryName(a), Decimal(b.installationId), RepositoryName(b), ':');
      DecimalInjective(a.installationId, b.installationId);
      TriggerNamesDiffer(a.trigger, b.trigger);
      if a.repositoryId.Some? && b.repositoryId.Some? && ResolveScope(a) == ResolveScope(b) == OneRepository {
        DecimalInjective(a.repositoryId.value, b.repositoryId.value);
      }
      forall n: nat ensures Decimal(n) != "all" { assert 'a' !in Decimal(n) && "all"[0] == 'a'; }
    }
  }

  lemma TriggerNamesDiffer(a: Trigger, b: Trigger)
    ensures TriggerName(a) == TriggerName(b) <==> a == b
  {
  }
}
