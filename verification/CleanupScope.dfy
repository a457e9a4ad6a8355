/** What a cleanup asks for, said on its request (`src/hosted/contracts.ts`): which reports, jobs and checkouts it
    reaches, and to the millisecond when a report expires. Things named alike are told apart nowhere in the
    source, so each statement is about a name that stands for one thing. */
module CleanupScope {
  import opened CleanupPlan
  import opened ScanIdentity
  import opened Text

  // ---------------------------------------------------------------- scope

  /** The installation, and if the request is for one repository, that one. */
  predicate Reaches(r: Request, i: nat, repository: nat) {
    && i == r.installationId
    && match r.trigger
       case InstallationDeleted => true
       case RetentionExpired => r.repositoryId.None? || r.repositoryId.value == repository
       case _ => r.repositoryId.Some? && r.repositoryId.value == repository
  }

  /** No other report has the id. */
  ghost predicate OnlyReport(s: State, report: Report) {
    report in s.reports && forall y <- s.reports :: y.id == report.id ==> y == report
  }

  ghost predicate OnlyJob(s: State, job: Job) {
    job in s.jobs && forall y <- s.jobs :: y.key == job.key ==> y == job
  }

  ghost predicate OnlyCheckout(s: State, c: Checkout) {
    c in s.checkouts && forall y <- s.checkouts :: y.key == c.key ==> y == c
  }

  lemma ListedExactlyWhen(r: Request, s: State, report: Report)
    requires OnlyReport(s, report)
    ensures report.id in PlanFor(r, s).deleteReports <==> ShouldDelete(r, report)
    ensures report.id in PlanFor(r, s).preserveReports <==> !ShouldDelete(r, report)
  {
    ListedReports(r, s);
    var kept := Filter(s.reports, Preserves(r));
    FilterMembers(s.reports, Preserves(r));
    MapMembers(ReportName(), kept);
    if report.id in PlanFor(r, s).preserveReports {
      var i :| 0 <= i < |kept| && ReportName()(kept[i]) == report.id;
      assert kept[i] in kept;
    }
  }

  /** Main result, both ways: a deletion lists exactly the reports it reaches. */
  lemma ReportGoesExactlyWhen(r: Request, s: State, report: Report)
    requires r.trigger != RetentionExpired && OnlyReport(s, report)
    ensures report.id in PlanFor(r, s).deleteReports <==> Reaches(r, report.installationId, report.repositoryId)
    ensures report.id in PlanFor(r, s).preserveReports <==> !Reaches(r, report.installationId, report.repositoryId)
  {
    ListedExactlyWhen(r, s, report);
  }

  // ---------------------------------------------------------------- retention

  /** As many whole days as were asked for, from one to thirty, and thirty if nothing was asked. */
  predicate IsDays(asked: Option<real>, n: nat) {
    match asked
    case None => n == 30
    case Some(x) => 1 <= n <= 30 && (n == 1 || n as real <= x) && (n == 30 || x < n as real + 1.0)
  }

  /** The report's time is over: at its own expiry if it has one, else so many days after its creation. */
  predicate IsOver(report: Report, at: int, days: nat) {
    match report.expiresAt
    case Some(expiry) => expiry.At? && expiry.ms <= at
    case None => report.createdAt.At? && report.createdAt.ms + days * 86_400_000 <= at
  }

  /** Main result, both ways: an expiry lists exactly the reports it reaches whose time is over: by an expiry of
      their own, or when the days of their team have passed since their creation, not a millisecond earlier. */
  lemma ReportExpiresExactlyWhen(r: Request, s: State, report: Report, days: nat)
    requires r.trigger == RetentionExpired && OnlyReport(s, report) && IsDays(report.retentionDays, days)
    ensures report.id in PlanFor(r, s).deleteReports <==>
      r.requestedAt.At? && Reaches(r, report.installationId, report.repositoryId) &&
      IsOver(report, r.requestedAt.ms, days)
  {
    ListedExactlyWhen(r, s, report);
    DaysAreDays(report.retentionDays, days);
  }

  lemma DaysAreDays(asked: Option<real>, days: nat)
    requires IsDays(asked, days)
    ensures ResolveHostedRetentionDays(asked) == days
  {
  }

  /** Every request for days comes to some number of them. */
  lemma DaysExist(asked: Option<real>)
    ensures exists n: nat :: IsDays(asked, n)
  {
    var n: nat := ResolveHostedRetentionDays(asked);
    assert IsDays(asked, n);
  }

  // ---------------------------------------------------------------- work

  /** A job is reached like a report, but never by an expiry. */
  predicate ReachesJob(r: Request, job: Job) {
    r.trigger != RetentionExpired && Reaches(r, job.identity.installationId, job.identity.repositoryId)
  }

  lemma MatchesExactlyWhen(r: Request, job: Job)
    requires r.trigger != RetentionExpired
    ensures QueueCleanupMatches(r, job) <==> ReachesJob(r, job)
  {
  }

  /** Main result, both ways: a job reached is cancelled if it is queued, asked to stop if it runs and left as it is
      if it has ended; one that is not reached is left alone. */
  lemma JobStandsExactlyWhere(r: Request, s: State, job: Job)
    requires OnlyJob(s, job)
    ensures var q, reached := PlanFor(r, s).queue, ReachesJob(r, job);
      && (job.key in q.cancelQueued <==> reached && job.status == Queued)
      && (job.key in q.requestRunningCancellation <==> reached && job.status == Running)
      && (job.key in q.preserveTerminal <==> reached && job.status in {Completed, Failed, Cancelled})
      && (job.key in q.keepUnmatched <==> !reached)
  {
    if r.trigger != RetentionExpired {
      forall x: Job ensures QueueCleanupMatches(r, x) <==> ReachesJob(r, x) { MatchesExactlyWhen(r, x); }
      ListedWhere(r, s.jobs, IsQueued());
      ListedWhere(r, s.jobs, IsRunning());
      ListedWhere(r, s.jobs, IsDone());
      UnmatchedExactlyWhen(r, s, job);
    } else {
      MapMembers(JobName(), s.jobs);
    }
  }

  lemma UnmatchedExactlyWhen(r: Request, s: State, job: Job)
    requires OnlyJob(s, job)
    ensures job.key in Map(JobName(), Filter(s.jobs, Misses(r))) <==> !QueueCleanupMatches(r, job)
  {
    var missed := Filter(s.jobs, Misses(r));
    FilterMembers(s.jobs, Misses(r));
    MapMembers(JobName(), missed);
    if job.key in Map(JobName(), missed) {
      var i :| 0 <= i < |missed| && JobName()(missed[i]) == job.key;
      assert missed[i] in missed;
    }
    if !QueueCleanupMatches(r, job) { assert job in missed; }
  }

  /** Main result, both ways: a deletion drops exactly the checkouts it reaches that are not deleted yet, and an
      expiry drops none. */
  lemma CheckoutGoesExactlyWhen(r: Request, s: State, c: Checkout)
    requires OnlyCheckout(s, c)
    ensures var reached :=
        r.trigger != RetentionExpired && Reaches(r, c.identity.installationId, c.identity.repositoryId);
      && (c.key in PlanFor(r, s).deleteCheckouts <==> reached && c.status != Some(Deleted))
      && (c.key in PlanFor(r, s).keepCheckouts <==> !(reached && c.status != Some(Deleted)))
  {
    ListedCheckouts(r, s);
    KeptCheckoutExactlyWhen(r, s, c);
    assert DropsCheckout(r, c) <==>
      r.trigger != RetentionExpired && Reaches(r, c.identity.installationId, c.identity.repositoryId) &&
      c.status != Some(Deleted);
  }

  lemma KeptCheckoutExactlyWhen(r: Request, s: State, c: Checkout)
    requires OnlyCheckout(s, c)
    ensures c.key in PlanFor(r, s).keepCheckouts <==> !DropsCheckout(r, c)
  {
    var kept := if r.trigger == RetentionExpired then s.checkouts else Filter(s.checkouts, KeepsCheckout(r));
    FilterMembers(s.checkouts, KeepsCheckout(r));
    MapMembers(CheckoutName(), kept);
    if c.key in Map(CheckoutName(), kept) {
      var i :| 0 <= i < |kept| && CheckoutName()(kept[i]) == c.key;
      assert kept[i] in kept;
    }
    if !DropsCheckout(r, c) { assert c in kept; }
  }
}
