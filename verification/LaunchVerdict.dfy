/** The launch verdict said on the findings and on the files (`src/report/launchGate.ts`, `src/config.ts`): which
    verdict a scan gets, and when a finding counts under which severity. */
module LaunchVerdict {
  import opened FileCollection
  import opened FileCoverage
  import opened FilePaths
  import GlobMeaning
  import opened LaunchGate
  import opened Text

  /** A path of the configuration or of a finding, with slashes only and without one `./` in front. */
  function Normal(path: string): string {
    var t := Slashed(path);
    if |t| >= 2 && t[0] == '.' && t[1] == '/' then t[2..] else t
  }

  lemma NormalIsNormalized(path: string)
    ensures NormalizeConfigPath(path) == Normal(path)
  {
    var t := Slashed(path);
    ToPosixIsSlashed(path);
    if |t| >= 2 { assert t[..2] == [t[0], t[1]]; }
  }

  /** The suppression is for the finding's rule, and one of its patterns reads one of the finding's files. */
  ghost predicate Suppresses(x: Suppression, f: Finding) {
    x.ruleId == f.ruleId &&
    exists file, pattern :: file in f.evidenceFiles && pattern in x.paths &&
      GlobMeaning.Fits(Normal(pattern), true, Normal(file))
  }

  lemma MatchesAsRead(pattern: string, file: string)
    ensures PathMatches(pattern, file) <==> GlobMeaning.Fits(Normal(pattern), true, Normal(file))
  {
    NormalIsNormalized(pattern);
    NormalIsNormalized(file);
    var p, t := Normal(pattern), Normal(file);
    GlobMeaning.TokensReadAsPattern(p, 0, true, t, 0, |t|);
    assert p[0..] == p && t[0..|t|] == t;
  }

  lemma SuppressedExactlyWhen(f: Finding, suppressions: seq<Suppression>)
    ensures IsSuppressed(f, suppressions) <==> exists x :: x in suppressions && Suppresses(x, f)
  {
    forall pattern, file ensures PathMatches(pattern, file) <==> GlobMeaning.Fits(Normal(pattern), true, Normal(file)) {
      MatchesAsRead(pattern, file);
    }
  }

  /** The finding counts, with this severity: the one its rule is configured with, or else its own. */
  ghost predicate Graded(f: Finding, config: GuardConfig, severity: Severity) {
    && (if f.ruleId in config.rules then config.rules[f.ruleId] == RuleSetting.Severity(severity)
        else f.severity == severity)
    && !exists x :: x in config.suppressions && Suppresses(x, f)
  }

  /** Both ways: a finding survives the configuration with a severity exactly if it is graded so. */
  lemma SurvivesExactlyWhen(f: Finding, config: GuardConfig, severity: Severity)
    ensures !Muted(f, config) && Configured(f, config).severity == severity <==> Graded(f, config, severity)
  {
    SuppressedExactlyWhen(f, config.suppressions);
  }

  ghost predicate SomeGraded(findings: seq<Finding>, config: GuardConfig, severity: Severity) {
    exists f <- findings :: Graded(f, config, severity)
  }

  lemma {:induction false} CountsSome(findings: seq<Finding>, severity: Severity)
    ensures Count(findings, severity) > 0 <==> exists f <- findings :: f.severity == severity
  {
    if findings != [] {
      CountsSome(findings[..|findings| - 1], severity);
      assert findings == findings[..|findings| - 1] + [findings[|findings| - 1]];
    }
  }

  lemma KeptIsGraded(report: Report, config: GuardConfig, severity: Severity, g: Finding)
    requires g in ApplyGuardConfig(report, config).findings && g.severity == severity
    ensures SomeGraded(report.findings, config, severity)
  {
    var kept := ApplyGuardConfig(report, config).findings;
    var at := KeptExactly(report, config);
    var k :| 0 <= k < |kept| && kept[k] == g;
    var f := report.findings[at[k]];
    assert at[k] in at && f in report.findings;
    SurvivesExactlyWhen(f, config, severity);
  }

  lemma GradedIsKept(report: Report, config: GuardConfig, severity: Severity, f: Finding)
    requires f in report.findings && Graded(f, config, severity)
    ensures exists g <- ApplyGuardConfig(report, config).findings :: g.severity == severity
  {
    var kept := ApplyGuardConfig(report, config).findings;
    var at := KeptExactly(report, config);
    SurvivesExactlyWhen(f, config, severity);
    var i :| 0 <= i < |report.findings| && report.findings[i] == f;
    assert i in at;
    var k :| 0 <= k < |at| && at[k] == i;
    assert kept[k] in kept && kept[k].severity == severity;
  }

  /** The summary of a configured report counts what survived. */
  lemma CountsGraded(report: Report, config: GuardConfig, severity: Severity)
    requires report.summary == Summarized(report.findings)
    ensures var kept := ApplyGuardConfig(report, config);
      && kept.summary == Summarized(kept.findings)
      && (Count(kept.findings, severity) > 0 <==> SomeGraded(report.findings, config, severity))
  {
    var kept := ApplyGuardConfig(report, config).findings;
    CountsSome(kept, severity);
    if g :| g in kept && g.severity == severity { KeptIsGraded(report, config, severity, g); }
    if f :| f in report.findings && Graded(f, config, severity) { GradedIsKept(report, config, severity, f); }
  }

  /** Which verdict goes with which counts. */
  lemma VerdictOfSummary(r: Report, st: State)
    requires r.fileCollection == Some(st)
    ensures var v, n, uncovered := LaunchGateVerdict(r), r.summary, Uncovered(st, r.malformedPackages);
      var minor := n.low > 0 || n.info > 0;
      && (v.Blocked? <==> n.critical > 0)
      && (v.ReviewRequired? <==> n.critical == 0 && n.high > 0)
      && (v.CheckBeforeLaunch? <==> n.critical == n.high == 0 && n.medium > 0)
      && (v.LowNoise? <==> n.critical == n.high == n.medium == 0 && minor)
      && (v.Incomplete? <==> n.critical == n.high == n.medium == 0 && !minor && uncovered)
      && (v.Clear? <==> n.critical == n.high == n.medium == 0 && !minor && !uncovered)
      && (v.Blocked? || v.ReviewRequired? || v.CheckBeforeLaunch? || v.LowNoise? ==> (v.incomplete <==> uncovered))
  {
  }

  /** What a scan could not cover. */
  predicate Uncovered(st: State, malformed: bool) {
    malformed || !Clean(st) || st.progress.files == []
  }

  function VerdictOf(s: Setup, root: Entry, findings: seq<Finding>, malformed: bool,
                     config: GuardConfig): LaunchGate.Verdict
    requires root.Directory? || root.LockedDirectory?
  {
    LaunchGateVerdict(ApplyGuardConfig(ScanReport(s, root, findings, malformed), config))
  }

  /** Main result, both ways: which verdict a scan gets. It is blocked exactly if some finding counts as
      critical, is up for review exactly if none does but one counts as high, and so on down; without any it is
      clear or incomplete by what was covered. */
  lemma VerdictExactlyWhen(s: Setup, root: Entry, findings: seq<Finding>, malformed: bool, config: GuardConfig)
    requires root.Directory? || root.LockedDirectory?
    ensures var v, st := VerdictOf(s, root, findings, malformed, config), Collection(s, root);
      var critical, high := SomeGraded(findings, config, Critical), SomeGraded(findings, config, High);
      var medium := SomeGraded(findings, config, Medium);
      var minor := SomeGraded(findings, config, Low) || SomeGraded(findings, config, Info);
      && (v.Blocked? <==> critical)
      && (v.ReviewRequired? <==> !critical && high)
      && (v.CheckBeforeLaunch? <==> !critical && !high && medium)
      && (v.LowNoise? <==> !critical && !high && !medium && minor)
      && (v.Incomplete? <==> !critical && !high && !medium && !minor && Uncovered(st, malformed))
      && (v.Clear? <==> !critical && !high && !medium && !minor && !Uncovered(st, malformed))
      && (v.Blocked? || v.ReviewRequired? || v.CheckBeforeLaunch? || v.LowNoise? ==>
            (v.incomplete <==> Uncovered(st, malformed)))
  {
    var report := ScanReport(s, root, findings, malformed);
    CountsGraded(report, config, Critical);
    CountsGraded(report, config, High);
    CountsGraded(report, config, Medium);
    CountsGraded(report, config, Low);
    CountsGraded(report, config, Info);
    VerdictOfSummary(ApplyGuardConfig(report, config), Collection(s, root));
  }

  lemma NothingIsGraded(s: Setup, root: Entry, findings: seq<Finding>, malformed: bool, config: GuardConfig,
                        severity: Severity)
    requires (root.Directory? || root.LockedDirectory?) && VerdictOf(s, root, findings, malformed, config).Clear?
    ensures !SomeGraded(findings, config, severity)
  {
    VerdictExactlyWhen(s, root, findings, malformed, config);
    match severity
    case Critical =>
    case High =>
    case Medium =>
    case Low =>
    case Info =>
  }

  /** Main result: a clear verdict means that no finding counts and that every text file of the tree that nothing
      cuts off was read, with its content. */
  lemma ClearMeansEveryFileWasRead(s: Setup, root: Entry, findings: seq<Finding>, malformed: bool, config: GuardConfig,
                                   location: seq<string>, file: Entry)
    requires (root.Directory? || root.LockedDirectory?) && VerdictOf(s, root, findings, malformed, config).Clear?
    requires file.File? && StandsAt(root, location, file) && KeptFile(s, location)
    ensures Readable(file) && Copy(location, file) in Collection(s, root).progress.files
    ensures forall f <- findings, severity :: !Graded(f, config, severity)
  {
    VerdictExactlyWhen(s, root, findings, malformed, config);
    CleanCollectsEveryKeptFile(s, root, location, file);
    forall f <- findings, severity ensures !Graded(f, config, severity) {
      NothingIsGraded(s, root, findings, malformed, config, severity);
    }
  }
}
