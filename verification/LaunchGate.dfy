/** The launch verdict (`src/report/launchGate.ts`, `src/report/presentation.ts`,
    `src/report/findings.ts`) over a report whose findings went through the guard configuration
    (`src/config.ts`) and whose coverage comes from a file collection. */
module LaunchGate {
  import FileCollection
  import FileCoverage
  import Glob
  import IgnoreRules
  import RegexSyntax
  import SuppressionPaths
  import opened Text

  datatype Severity = Critical | High | Medium | Low | Info

  datatype Finding = Finding(ruleId: string, title: string, severity: Severity, evidenceFiles: seq<string>)

  datatype Summary = Summary(critical: nat, high: nat, medium: nat, low: nat, info: nat, total: nat)

  datatype Report = Report(
    findings: seq<Finding>,
    summary: Summary,
    malformedPackages: bool,
    fileCollection: Option<FileCollection.State>)

  datatype Verdict =
    | Blocked(incomplete: bool)
    | ReviewRequired(incomplete: bool)
    | CheckBeforeLaunch(incomplete: bool)
    | LowNoise(incomplete: bool)
    | Incomplete
    | Clear

  // ---------------------------------------------------------------- summary

  function Count(findings: seq<Finding>, severity: Severity): nat {
    if findings == [] then 0
    else Count(findings[..|findings| - 1], severity) + if findings[|findings| - 1].severity == severity then 1 else 0
  }

  function Summarized(findings: seq<Finding>): Summary {
    Summary(Count(findings, Critical), Count(findings, High), Count(findings, Medium),
            Count(findings, Low), Count(findings, Info), |findings|)
  }

  method SummarizeFindings(findings: seq<Finding>) returns (summary: Summary)
    ensures summary == Summarized(findings)
  {
    summary := Summary(0, 0, 0, 0, 0, |findings|);
    for i := 0 to |findings|
      invariant summary == Summarized(findings[..i]).(total := |findings|)
    {
      assert findings[..i + 1][..i] == findings[..i];
      match findings[i].severity {
        case Critical => summary := summary.(critical := summary.critical + 1);
        case High => summary := summary.(high := summary.high + 1);
        case Medium => summary := summary.(medium := summary.medium + 1);
        case Low => summary := summary.(low := summary.low + 1);
        case Info => summary := summary.(info := summary.info + 1);
      }
    }
    assert findings[..|findings|] == findings;
  }

  /** Every finding is counted under exactly one severity. */
  lemma {:induction false} SummaryAddsUp(findings: seq<Finding>)
    ensures var s := Summarized(findings); s.critical + s.high + s.medium + s.low + s.info == s.total
  {
    if findings != [] { SummaryAddsUp(findings[..|findings| - 1]); }
  }

  // ---------------------------------------------------------------- configuration

  datatype RuleSetting = Off | Severity(severity: Severity)

  datatype Suppression = Suppression(ruleId: string, paths: seq<string>)

  datatype GuardConfig = GuardConfig(rules: map<string, RuleSetting>, suppressions: seq<Suppression>)

  function NormalizeConfigPath(path: string): string {
    var posix := FileCollection.ToPosix(path);
    if StartsWith(posix, "./") then posix[2..] else posix
  }

  predicate PathMatches(pattern: string, file: string) {
    var path := NormalizeConfigPath(file);
    Glob.Describes(Glob.Tokens(NormalizeConfigPath(pattern), true), path, 0, |path|)
  }

  predicate IsSuppressed(finding: Finding, suppressions: seq<Suppression>) {
    exists s :: s in suppressions && s.ruleId == finding.ruleId &&
      exists file, pattern :: file in finding.evidenceFiles && pattern in s.paths && PathMatches(pattern, file)
  }

  predicate Muted(finding: Finding, config: GuardConfig) {
    || (finding.ruleId in config.rules && config.rules[finding.ruleId].Off?)
    || IsSuppressed(finding, config.suppressions)
  }

  function Configured(finding: Finding, config: GuardConfig): Finding {
    if finding.ruleId in config.rules && config.rules[finding.ruleId].Severity?
    then finding.(severity := config.rules[finding.ruleId].severity)
    else finding
  }

  /** The findings that survive, before they are sorted again. */
  function Kept(findings: seq<Finding>, config: GuardConfig): seq<Finding> {
    if findings == [] then []
    else (if Muted(findings[0], config) then [] else [Configured(findings[0], config)]) + Kept(findings[1..], config)
  }

  function ApplyGuardConfig(report: Report, config: GuardConfig): Report {
    if |config.rules| == 0 && config.suppressions == [] then report
    else
      var findings := Kept(report.findings, config);
      report.(findings := findings, summary := Summarized(findings))
  }

  lemma {:induction false} NothingKept(findings: seq<Finding>, config: GuardConfig)
    ensures Kept(findings, config) == [] <==> forall f :: f in findings ==> Muted(f, config)
  {
    if findings != [] {
      NothingKept(findings[1..], config);
      assert findings == [findings[0]] + findings[1..];
    }
  }

  /** `at` lists the places of the unmuted findings from the `n`th on, in order. */
  ghost predicate PlacesOfUnmuted(findings: seq<Finding>, config: GuardConfig, n: nat, at: seq<nat>) {
    && (forall i: nat :: i in at <==> n <= i < |findings| && !Muted(findings[i], config))
    && (forall k, l :: 0 <= k < l < |at| ==> at[k] < at[l])
  }

  /** `kept` holds what stands at these places, configured, and nothing else. */
  ghost predicate ConfiguredAt(findings: seq<Finding>, config: GuardConfig, at: seq<nat>, kept: seq<Finding>) {
    && |kept| == |at|
    && forall k :: 0 <= k < |at| ==> at[k] < |findings| && kept[k] == Configured(findings[at[k]], config)
  }

  lemma OnePlaceMore(findings: seq<Finding>, config: GuardConfig, n: nat, at: seq<nat>)
    requires n < |findings| && PlacesOfUnmuted(findings, config, n + 1, at)
    ensures PlacesOfUnmuted(findings, config, n, if Muted(findings[n], config) then at else [n] + at)
  {
    if !Muted(findings[n], config) {
      forall i: nat ensures i in [n] + at <==> n <= i < |findings| && !Muted(findings[i], config) {
        assert i in [n] + at <==> i == n || i in at;
      }
      forall l | 0 <= l < |at| ensures n < at[l] { assert at[l] in at; }
    }
  }

  lemma {:induction false} PlacesOfKept(findings: seq<Finding>, config: GuardConfig, n: nat) returns (at: seq<nat>)
    requires n <= |findings|
    ensures PlacesOfUnmuted(findings, config, n, at) && ConfiguredAt(findings, config, at, Kept(findings[n..], config))
    decreases |findings| - n
  {
    at := [];
    if n < |findings| {
      at := PlacesOfKept(findings, config, n + 1);
      OnePlaceMore(findings, config, n, at);
      KeptStep(findings, config, n);
      if !Muted(findings[n], config) {
        OneMoreConfigured(findings, config, n, at, Kept(findings[n + 1..], config));
        at := [n] + at;
      }
    }
  }

  lemma KeptStep(findings: seq<Finding>, config: GuardConfig, n: nat)
    requires n < |findings|
    ensures var rest := Kept(findings[n + 1..], config);
      Kept(findings[n..], config) ==
      if Muted(findings[n], config) then rest else [Configured(findings[n], config)] + rest
  {
    assert findings[n..][1..] == findings[n + 1..];
    assert [] + Kept(findings[n + 1..], config) == Kept(findings[n + 1..], config);
  }

  lemma OneMoreConfigured(findings: seq<Finding>, config: GuardConfig, n: nat, at: seq<nat>, kept: seq<Finding>)
    requires n < |findings| && ConfiguredAt(findings, config, at, kept)
    ensures ConfiguredAt(findings, config, [n] + at, [Configured(findings[n], config)] + kept)
  {
  }

  lemma {:induction false} NothingConfigured(findings: seq<Finding>, config: GuardConfig)
    requires |config.rules| == 0 && config.suppressions == []
    ensures Kept(findings, config) == findings
  {
    if findings != [] { NothingConfigured(findings[1..], config); }
  }

  /** Main result: the findings after the configuration, before they are sorted again, are the unmuted ones
      in their order, each as often as it was there and with the severity configured for its rule. */
  lemma KeptExactly(report: Report, config: GuardConfig) returns (at: seq<nat>)
    ensures PlacesOfUnmuted(report.findings, config, 0, at)
    ensures ConfiguredAt(report.findings, config, at, ApplyGuardConfig(report, config).findings)
  {
    at := PlacesOfKept(report.findings, config, 0);
    assert report.findings[0..] == report.findings;
    if |config.rules| == 0 && config.suppressions == [] { NothingConfigured(report.findings, config); }
  }

  // ---------------------------------------------------------------- verdict

  predicate HasIncompleteScanCoverage(report: Report) {
    match report.fileCollection
    case None => report.malformedPackages
    case Some(c) =>
      || |c.progress.files| == 0
      || |c.progress.unreadableFiles| > 0
      || |c.progress.unreadableDirectories| > 0
      || |c.progress.skippedLargeFiles| > 0
      || |c.progress.skippedBudgetFiles| > 0
      || c.maxFilesReached
      || c.maxTotalBytesReached
      || report.malformedPackages
  }

  function LaunchGateVerdict(report: Report): Verdict {
    var incomplete := HasIncompleteScanCoverage(report);
    if report.summary.critical > 0 then Blocked(incomplete)
    else if report.summary.high > 0 then ReviewRequired(incomplete)
    else if report.summary.medium > 0 then CheckBeforeLaunch(incomplete)
    else if report.summary.low > 0 || report.summary.info > 0 then LowNoise(incomplete)
    else if incomplete then Verdict.Incomplete
    else Clear
  }

  /** The report of one scan: the tree `root` walked from scratch, and the findings made. */
  function ScanReport(s: FileCollection.Setup, root: FileCollection.Entry, findings: seq<Finding>,
                      malformedPackages: bool): Report
    requires root.Directory? || root.LockedDirectory?
  {
    var st := FileCollection.WalkDirectory(s, FileCollection.State(FileCollection.NOTHING, false, false), [], root);
    Report(findings, Summarized(findings), malformedPackages, Some(st))
  }

  lemma ClearVerdict(report: Report, st: FileCollection.State)
    requires report.fileCollection == Some(st) && report.summary == Summarized(report.findings)
    ensures LaunchGateVerdict(report) == Clear <==>
      report.findings == [] && !report.malformedPackages && FileCoverage.Clean(st) && st.progress.files != []
  {
  }

  /** Main result, both ways: the verdict is clear exactly when no finding is left after muting,
      no package manifest is malformed, and the collection is clean and not empty. */
  lemma ClearExactlyWhen(s: FileCollection.Setup, root: FileCollection.Entry, findings: seq<Finding>, malformed: bool,
                         config: GuardConfig)
    requires root.Directory? || root.LockedDirectory?
    ensures var report := ApplyGuardConfig(ScanReport(s, root, findings, malformed), config);
      var st := report.fileCollection.value;
      LaunchGateVerdict(report) == Clear <==>
        && (forall f :: f in findings ==> Muted(f, config))
        && !malformed && FileCoverage.Clean(st) && st.progress.files != []
  {
    var report := ApplyGuardConfig(ScanReport(s, root, findings, malformed), config);
    ClearVerdict(report, report.fileCollection.value);
    NothingKept(findings, config);
    if |config.rules| == 0 && config.suppressions == [] {
      assert forall f :: f in findings ==> !Muted(f, config);
      assert findings != [] ==> findings[0] in findings;
    }
  }

  /** ... and then every candidate file of the repository was read. */
  lemma ClearMeansComplete(s: FileCollection.Setup, root: FileCollection.Entry, findings: seq<Finding>,
                           malformed: bool, config: GuardConfig)
    requires root.Directory? || root.LockedDirectory?
    requires LaunchGateVerdict(ApplyGuardConfig(ScanReport(s, root, findings, malformed), config)) == Clear
    ensures var report := ApplyGuardConfig(ScanReport(s, root, findings, malformed), config);
      var files := report.fileCollection.value.progress.files;
      && report.findings == [] && files != []
      && FileCoverage.ExactlyTheCandidates(s, root, files)
  {
    var report := ApplyGuardConfig(ScanReport(s, root, findings, malformed), config);
    ClearVerdict(report, report.fileCollection.value);
    FileCoverage.NoSilentLoss(s, root);
  }

  /** A report without file-collection diagnostics can be clear whatever was read. */
  lemma ClearWithoutCollection(findings: seq<Finding>)
    ensures LaunchGateVerdict(Report(findings, Summarized(findings), false, None)) == Clear <==> findings == []
  {
  }

  /** The walk's path test of a repository: its ignore file, read rule by rule. */
  function RepositorySetup(limits: FileCollection.Limits, ignoreLines: seq<string>,
                           text: string -> bool): FileCollection.Setup {
    var rules := seq(|ignoreLines|, k requires 0 <= k < |ignoreLines| => IgnoreRules.ReadIgnoreRule(ignoreLines[k]));
    FileCollection.Setup(limits, path => IgnoreRules.IsIgnored(path, rules), text)
  }

  /** A suppression path matches exactly when the compiled expression tests true on the file. */
  lemma PathMatchesAsCompiled(pattern: string, file: string)
    ensures var r := RegexSyntax.Parse(SuppressionPaths.SuppressionSource(NormalizeConfigPath(pattern)));
      r.Some? && (PathMatches(pattern, file) <==> RegexSyntax.Test(r.value, NormalizeConfigPath(file)))
  {
    SuppressionPaths.SuppressionPreservesMeaning(NormalizeConfigPath(pattern), NormalizeConfigPath(file));
  }

  /** The walk prunes a path exactly when the compiled expression of some ignore line tests true on it. */
  lemma IgnoredAsCompiled(limits: FileCollection.Limits, ignoreLines: seq<string>, text: string -> bool, path: string)
    ensures RepositorySetup(limits, ignoreLines, text).ignored(path) <==>
      exists line <- ignoreLines ::
        var r := RegexSyntax.Parse(IgnoreRules.IgnoreSource(IgnoreRules.ReadIgnoreRule(line)));
        r.Some? && RegexSyntax.Test(r.value, path)
  {
    var rules := seq(|ignoreLines|, k requires 0 <= k < |ignoreLines| => IgnoreRules.ReadIgnoreRule(ignoreLines[k]));
    forall line <- ignoreLines
      ensures var r := RegexSyntax.Parse(IgnoreRules.IgnoreSource(IgnoreRules.ReadIgnoreRule(line)));
        r.Some? && (RegexSyntax.Test(r.value, path) <==> IgnoreRules.Ignores(IgnoreRules.ReadIgnoreRule(line), path))
    {
      IgnoreRules.IgnorePreservesMeaning(line, path);
    }
    if k :| 0 <= k < |rules| && IgnoreRules.Ignores(rules[k], path) {
      assert ignoreLines[k] in ignoreLines;
    }
    if line :| line in ignoreLines && IgnoreRules.Ignores(IgnoreRules.ReadIgnoreRule(line), path) {
      var k :| 0 <= k < |ignoreLines| && ignoreLines[k] == line;
      assert rules[k] == IgnoreRules.ReadIgnoreRule(line);
    }
  }
}
