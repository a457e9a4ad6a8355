/** Scan identities and the strings built from them: the idempotency key of a queue record and the
    id of a stored report (`src/hosted/contracts.ts`, `src/hosted/service.ts`), and the key-value
    names of the Cloudflare worker (`hosted/cloudflare-worker/src/index.js`). */
module ScanIdentity {
  import opened Text

  /** Ids are positive safe integers in the source; a commit is any non-empty string. */
  datatype Identity = Identity(
    installationId: nat,
    repositoryId: nat,
    repositoryFullName: string,
    pullRequestNumber: nat,
    baseSha: string,
    headSha: string,
    scannerVersion: string)

  /** `getHostedScanIdempotencyKey`. */
  function Key(i: Identity): string {
    Decimal(i.installationId) + ":" + (Decimal(i.repositoryId) + ":" + (Decimal(i.pullRequestNumber) + ":" +
      (i.headSha + ":" + i.scannerVersion)))
  }

  predicate SameScan(a: Identity, b: Identity) {
    && a.installationId == b.installationId
    && a.repositoryId == b.repositoryId
    && a.pullRequestNumber == b.pullRequestNumber
  }

  /** Exactly when two identities share a key, for arbitrary commits and versions. */
  lemma KeysCoincide(a: Identity, b: Identity)
    ensures Key(a) == Key(b) <==>
            SameScan(a, b) && a.headSha + ":" + a.scannerVersion == b.headSha + ":" + b.scannerVersion
  {
    if Key(a) == Key(b) {
      var ra := Decimal(a.pullRequestNumber) + ":" + (a.headSha + ":" + a.scannerVersion);
      var rb := Decimal(b.pullRequestNumber) + ":" + (b.headSha + ":" + b.scannerVersion);
      SplitFirst(Decimal(a.installationId), Decimal(a.repositoryId) + ":" + ra,
                 Decimal(b.installationId), Decimal(b.repositoryId) + ":" + rb, ':');
      SplitFirst(Decimal(a.repositoryId), ra, Decimal(b.repositoryId), rb, ':');
      SplitFirst(Decimal(a.pullRequestNumber), a.headSha + ":" + a.scannerVersion,
                 Decimal(b.pullRequestNumber), b.headSha + ":" + b.scannerVersion, ':');
      DecimalInjective(a.installationId, b.installationId);
      DecimalInjective(a.repositoryId, b.repositoryId);
      DecimalInjective(a.pullRequestNumber, b.pullRequestNumber);
    }
  }

  /** Under one scanner version a key stands for one installation, repository, pull request and commit. */
  lemma KeyIdentifiesScan(a: Identity, b: Identity)
    requires a.scannerVersion == b.scannerVersion
    ensures Key(a) == Key(b) <==> SameScan(a, b) && a.headSha == b.headSha
  {
    KeysCoincide(a, b);
    if a.headSha + ":" + a.scannerVersion == b.headSha + ":" + b.scannerVersion {
      var s := a.headSha + ":" + a.scannerVersion;
      assert a.headSha == s[..|s| - 1 - |a.scannerVersion|] == b.headSha;
    }
  }

  /** Across versions the colon inside a commit string can move the boundary. */
  lemma KeysCollideAcrossVersions(i: Identity)
    ensures var a, b := i.(headSha := "a:b", scannerVersion := "c"), i.(headSha := "a", scannerVersion := "b:c");
      Key(a) == Key(b) && a.headSha != b.headSha
  {
  }

  /** Two scans of different commits under the versions `v` and `w` with one key. */
  ghost predicate Collides(a: Identity, b: Identity, v: string, w: string) {
    && a.scannerVersion == v && b.scannerVersion == w && a.headSha != "" && b.headSha != ""
    && a.headSha != b.headSha && Key(a) == Key(b)
  }

  /** Main result, both ways: the versions under which different commits can share a key are those of
      which one ends in a colon and the other. */
  lemma VersionsCollideExactlyWhen(v: string, w: string)
    ensures (exists a: Identity, b: Identity :: Collides(a, b, v, w)) <==> EndsWith(v, ":" + w) || EndsWith(w, ":" + v)
  {
    if a: Identity, b: Identity :| Collides(a, b, v, w) {
      KeysCoincide(a, b);
      ShorterCommit(a.headSha, v, b.headSha, w);
      ShorterCommit(b.headSha, w, a.headSha, v);
    }
    if EndsWith(v, ":" + w) { MakeCollision(v, w); }
    if EndsWith(w, ":" + v) {
      MakeCollision(w, v);
      var a: Identity, b: Identity :| Collides(a, b, w, v);
      assert Collides(b, a, v, w);
    }
  }

  lemma ShorterCommit(g: string, v: string, h: string, w: string)
    requires g + ":" + v == h + ":" + w
    ensures |g| < |h| ==> EndsWith(v, ":" + w)
    ensures |g| == |h| ==> g == h
  {
    var s := g + ":" + v;
    assert s[|g| + 1..] == v && g == s[..|g|] && h == s[..|h|];
    assert s[|h|..] == ":" + w by { assert h + ":" + w == h + (":" + w); }
    if |g| < |h| { assert v[|h| - |g| - 1..] == s[|h|..]; }
  }

  lemma MakeCollision(v: string, w: string)
    requires EndsWith(v, ":" + w)
    ensures exists a: Identity, b: Identity :: Collides(a, b, v, w)
  {
    var x := v[..|v| - |w| - 1];
    assert v == x + (":" + w);
    var a := Identity(1, 1, "", 1, "", "a", v);
    var b := Identity(1, 1, "", 1, "", "a:" + x, w);
    assert "a" + ":" + v == "a:" + x + ":" + w;
    KeysCoincide(a, b);
    assert Collides(a, b, v, w);
  }

  /** The id under which a report is stored: the record's key and its attempt. */
  function ReportId(key: string, attempt: nat): string {
    key + ":" + Decimal(attempt)
  }

  lemma ReportIdInjective(k: string, m: nat, l: string, n: nat)
    ensures ReportId(k, m) == ReportId(l, n) <==> k == l && m == n
  {
    if ReportId(k, m) == ReportId(l, n) {
      SplitLast(k, Decimal(m), l, Decimal(n), ':');
      DecimalInjective(m, n);
    }
  }

  // ---------------------------------------------------------------- key-value names

  /** The name of a scan record in the worker's key-value store. */
  function ScanName(installationId: nat, repositoryId: nat, rest: string): string {
    "scan:" + (Decimal(installationId) + ":" + (Decimal(repositoryId) + ":" + rest))
  }

  function InstallationPrefix(installationId: nat): string {
    "scan:" + (Decimal(installationId) + ":")
  }

  function RepositoryPrefix(installationId: nat, repositoryId: nat): string {
    "scan:" + (Decimal(installationId) + ":" + (Decimal(repositoryId) + ":"))
  }

  lemma PrefixSplit(s: string, prefix: string)
    requires StartsWith(s, prefix)
    ensures s == prefix + s[|prefix|..]
  {
  }

  /** An installation's prefix is the start of that installation's scan names and of no others. */
  lemma InstallationPrefixExact(i: nat, j: nat, r: nat, rest: string)
    ensures StartsWith(ScanName(j, r, rest), InstallationPrefix(i)) <==> i == j
  {
    var name := ScanName(j, r, rest);
    var tail := Decimal(r) + ":" + rest;
    assert name == "scan:" + (Decimal(j) + ":" + tail);
    if StartsWith(name, InstallationPrefix(i)) {
      PrefixSplit(name, InstallationPrefix(i));
      var x := name[|InstallationPrefix(i)|..];
      assert name == "scan:" + (Decimal(i) + ":" + x);
      assert name[5..] == Decimal(i) + ":" + x == Decimal(j) + ":" + tail;
      SplitFirst(Decimal(i), x, Decimal(j), tail, ':');
      DecimalInjective(i, j);
    }
    if i == j {
      assert name == InstallationPrefix(i) + tail;
    }
  }

  lemma RepositoryPrefixExact(i: nat, q: nat, j: nat, r: nat, rest: string)
    ensures StartsWith(ScanName(j, r, rest), RepositoryPrefix(i, q)) <==> i == j && q == r
  {
    var name := ScanName(j, r, rest);
    var tail := Decimal(r) + ":" + rest;
    assert name == "scan:" + (Decimal(j) + ":" + tail);
    if StartsWith(name, RepositoryPrefix(i, q)) {
      PrefixSplit(name, RepositoryPrefix(i, q));
      var x := name[|RepositoryPrefix(i, q)|..];
      var y := Decimal(q) + ":" + x;
      assert name == "scan:" + (Decimal(i) + ":" + y);
      assert name[5..] == Decimal(i) + ":" + y == Decimal(j) + ":" + tail;
      SplitFirst(Decimal(i), y, Decimal(j), tail, ':');
      SplitFirst(Decimal(q), x, Decimal(r), rest, ':');
      DecimalInjective(i, j);
      DecimalInjective(q, r);
    }
    if i == j && q == r {
      assert name == RepositoryPrefix(i, q) + rest;
    }
  }
}
