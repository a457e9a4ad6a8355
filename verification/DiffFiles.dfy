/** Splitting a unified diff into files (`parseDiffFiles` of `src/scanners/gitDiff.ts`). */
module DiffFiles {
  import opened Text

  datatype DiffFile = DiffFile(path: string, added: nat, removed: nat, lines: seq<string>)

  // ---------------------------------------------------------------- lines

  /** The end of a line: without the carriage return before its line feed. */
  function ChopReturn(s: string): string {
    if s != "" && s[|s| - 1] == '\r' then s[..|s| - 1] else s
  }

  /** `split(/\r?\n/)`; `line` is what was read of the current line. */
  function SplitFrom(line: string, s: string): (lines: seq<string>)
    ensures |lines| > 0
    decreases |s|
  {
    if s == "" then [line]
    else if s[0] == '\n' then [ChopReturn(line)] + SplitFrom("", s[1..])
    else SplitFrom(line + [s[0]], s[1..])
  }

  function SplitLines(s: string): seq<string> { SplitFrom("", s) }

  function JoinLines(lines: seq<string>): string {
    if lines == [] then "" else if |lines| == 1 then lines[0] else lines[0] + "\n" + JoinLines(lines[1..])
  }

  /** A line that survives joining and splitting. */
  predicate IsLine(s: string) {
    '\n' !in s && (s == "" || s[|s| - 1] != '\r')
  }

  lemma {:induction false} SplitReads(line: string, a: string, s: string)
    requires '\n' !in a
    ensures SplitFrom(line, a + s) == SplitFrom(line + a, s)
    decreases |a|
  {
    if a == "" {
      assert a + s == s && line + a == line;
    } else {
      assert a[0] in a;
      assert (a + s)[0] == a[0] && (a + s)[1..] == a[1..] + s;
      SplitReads(line + [a[0]], a[1..], s);
      assert line + [a[0]] + a[1..] == line + a;
    }
  }

  lemma {:induction false} SplitJoin(lines: seq<string>)
    requires lines != [] && forall l :: l in lines ==> IsLine(l)
    ensures SplitLines(JoinLines(lines)) == lines
  {
    var first := lines[0];
    assert first in lines;
    if |lines| == 1 {
      assert first + "" == first && "" + first == first;
      SplitReads("", first, "");
    } else {
      var rest := "\n" + JoinLines(lines[1..]);
      assert JoinLines(lines) == first + rest && "" + first == first;
      SplitReads("", first, rest);
      assert rest[1..] == JoinLines(lines[1..]);
      SplitJoin(lines[1..]);
    }
  }

  /** The lines with an end behind each but the last, a carriage return and a line feed where `crlf` says so. */
  function JoinEnded(lines: seq<string>, crlf: seq<bool>): string
    requires |crlf| == |lines|
  {
    if lines == [] then "" else if |lines| == 1 then lines[0]
    else lines[0] + (if crlf[0] then "\r\n" else "\n") + JoinEnded(lines[1..], crlf[1..])
  }

  /** Main result: lines are told apart by either kind of line end, mixed as they may be. */
  lemma {:induction false} SplitEnded(lines: seq<string>, crlf: seq<bool>)
    requires |crlf| == |lines| > 0
    requires forall k :: 0 <= k < |lines| ==> '\n' !in lines[k]
    requires forall k :: 0 <= k < |lines| - 1 ==> crlf[k] || lines[k] == "" || lines[k][|lines[k]| - 1] != '\r'
    ensures SplitLines(JoinEnded(lines, crlf)) == lines
  {
    var first := lines[0];
    if |lines| == 1 {
      assert first + "" == first && "" + first == first;
      SplitReads("", first, "");
    } else {
      var later := JoinEnded(lines[1..], crlf[1..]);
      var line := if crlf[0] then first + "\r" else first;
      assert JoinEnded(lines, crlf) == line + ("\n" + later);
      SplitEnded(lines[1..], crlf[1..]);
      SplitAtEnd(line, later);
      assert ChopReturn(line) == first;
    }
  }

  lemma SplitAtEnd(line: string, later: string)
    requires '\n' !in line
    ensures SplitLines(line + ("\n" + later)) == [ChopReturn(line)] + SplitLines(later)
  {
    var rest := "\n" + later;
    SplitReads("", line, rest);
    assert "" + line == line && rest[1..] == later;
  }

  // ---------------------------------------------------------------- headers

  const HEADER_PREFIX := "diff --git a/"
  const SEPARATOR := " b/"

  /** `lastIndexOf`, looking at positions up to `i`. */
  function LastIndexUpTo(s: string, sub: string, i: nat): (r: Option<nat>)
    ensures r.Some? ==> r.value + |sub| <= |s|
  {
    if OccursAt(s, sub, i) then Some(i) else if i == 0 then None else LastIndexUpTo(s, sub, i - 1)
  }

  lemma {:induction false} LastIndexIsLast(s: string, sub: string, i: nat)
    ensures var r := LastIndexUpTo(s, sub, i);
      && (r.Some? ==> r.value <= i && OccursAt(s, sub, r.value))
      && forall k: nat :: k <= i && (r.Some? ==> r.value < k) ==> !OccursAt(s, sub, k)
  {
    if !OccursAt(s, sub, i) && i > 0 { LastIndexIsLast(s, sub, i - 1); }
  }

  function ParseDiffHeaderPath(line: string): Option<string> {
    if !StartsWith(line, HEADER_PREFIX) then None
    else match LastIndexUpTo(line, SEPARATOR, |line|)
      case None => None
      case Some(i) =>
        var path := line[i + |SEPARATOR|..];
        if path == "" then None else Some(path)
  }

  /** The header of a file that moved. */
  function HeaderOf(was: string, path: string): string {
    HEADER_PREFIX + was + SEPARATOR + path
  }

  function HeaderLine(path: string): string {
    HeaderOf(path, path)
  }

  predicate Mentions(s: string, sub: string) {
    exists i: nat :: i <= |s| && OccursAt(s, sub, i)
  }

  lemma HeaderTail(was: string, path: string)
    ensures var line, at := HeaderOf(was, path), |HEADER_PREFIX| + |was|;
      && |line| == at + 3 + |path|
      && line[at] == ' ' && line[at + 1] == 'b' && line[at + 2] == '/' && line[at + 3..] == path
  {
  }

  lemma SeparatorBegins(s: string, k: nat)
    requires OccursAt(s, SEPARATOR, k)
    ensures s[k] == ' ' && s[k + 1] == 'b'
  {
    assert s[k] == s[k..k + 3][0] && s[k + 1] == s[k..k + 3][1];
  }

  lemma SeparatorStands(was: string, path: string)
    ensures OccursAt(HeaderOf(was, path), SEPARATOR, |HEADER_PREFIX| + |was|)
  {
    HeaderTail(was, path);
    var line, at := HeaderOf(was, path), |HEADER_PREFIX| + |was|;
    assert line[at..at + 3] == SEPARATOR;
  }

  /** A separator behind the one a header has is one of the path. */
  lemma SeparatorBehind(was: string, path: string, k: nat)
    requires k > |HEADER_PREFIX| + |was| && OccursAt(HeaderOf(was, path), SEPARATOR, k)
    ensures k >= |HEADER_PREFIX| + |was| + 3 && OccursAt(path, SEPARATOR, k - |HEADER_PREFIX| - |was| - 3)
  {
    HeaderTail(was, path);
    SeparatorBegins(HeaderOf(was, path), k);
    OccursBehind(HeaderOf(was, path), SEPARATOR, |HEADER_PREFIX| + |was| + 3, k);
  }

  /** A path in which the separator stands does not read back. */
  lemma SeparatorOfPath(line: string, i: nat, k: nat)
    requires i + 3 <= |line| && OccursAt(line[i + 3..], SEPARATOR, k)
    ensures OccursAt(line, SEPARATOR, i + 3 + k)
  {
    OccursBehind(line, SEPARATOR, i + 3, i + 3 + k);
  }

  /** The separator does not begin within the prefix. */
  lemma BehindPrefix(line: string, i: nat)
    requires StartsWith(line, HEADER_PREFIX) && OccursAt(line, SEPARATOR, i)
    ensures i >= |HEADER_PREFIX|
  {
    SeparatorBegins(line, i);
    forall k | 0 <= k < |HEADER_PREFIX| ensures line[k] == HEADER_PREFIX[k] {
      assert line[..|HEADER_PREFIX|][k] == line[k];
    }
  }

  /** Main result, both ways: a line gives a path exactly if it is a header, of a file that moved or not, whose last
      ` b/` stands before that path and the path is not empty. */
  lemma HeaderPathExactly(line: string, path: string)
    ensures ParseDiffHeaderPath(line) == Some(path) <==>
      path != "" && !Mentions(path, " b/") && exists was :: line == "diff --git a/" + was + " b/" + path
  {
    LastIndexIsLast(line, SEPARATOR, |line|);
    if ParseDiffHeaderPath(line) == Some(path) {
      var i := LastIndexUpTo(line, SEPARATOR, |line|).value;
      BehindPrefix(line, i);
      assert line == "diff --git a/" + line[|HEADER_PREFIX|..i] + " b/" + path by {
        assert line[i..i + 3] == SEPARATOR;
        assert line == line[..|HEADER_PREFIX|] + line[|HEADER_PREFIX|..i] + line[i..i + 3] + line[i + 3..];
      }
      if k: nat :| k <= |path| && OccursAt(path, " b/", k) { SeparatorOfPath(line, i, k); }
    }
    if path != "" && !Mentions(path, " b/") {
      if was :| line == "diff --git a/" + was + " b/" + path { HeaderReads(was, path); }
    }
  }

  lemma HeaderReads(was: string, path: string)
    requires path != "" && !Mentions(path, SEPARATOR)
    ensures ParseDiffHeaderPath(HeaderOf(was, path)) == Some(path)
  {
    var line, at := HeaderOf(was, path), |HEADER_PREFIX| + |was|;
    assert line[..|HEADER_PREFIX|] == HEADER_PREFIX;
    SeparatorStands(was, path);
    HeaderTail(was, path);
    LastIndexIsLast(line, SEPARATOR, |line|);
    var i := LastIndexUpTo(line, SEPARATOR, |line|).value;
    assert i >= at;
    if i > at { SeparatorBehind(was, path, i); }
  }

  /** So a header gives its path back exactly when the path is not empty and has no ` b/` inside. */
  lemma HeaderReadsBackExactlyWhen(path: string)
    ensures ParseDiffHeaderPath(HeaderLine(path)) == Some(path) <==> path != "" && !Mentions(path, SEPARATOR)
  {
    HeaderPathExactly(HeaderLine(path), path);
    assert HeaderLine(path) == "diff --git a/" + path + " b/" + path;
  }

  // ---------------------------------------------------------------- files

  predicate IsAdded(line: string) { StartsWith(line, "+") && !StartsWith(line, "+++") }

  predicate IsRemoved(line: string) { StartsWith(line, "-") && !StartsWith(line, "---") }

  function CountAdded(lines: seq<string>): nat {
    if lines == [] then 0 else CountAdded(lines[..|lines| - 1]) + Bit(IsAdded(lines[|lines| - 1]))
  }

  function CountRemoved(lines: seq<string>): nat {
    if lines == [] then 0 else CountRemoved(lines[..|lines| - 1]) + Bit(IsRemoved(lines[|lines| - 1]))
  }

  function MakeFile(path: string, lines: seq<string>): DiffFile {
    DiffFile(path, CountAdded(lines), CountRemoved(lines), lines)
  }

  function AddLine(f: DiffFile, line: string): DiffFile {
    DiffFile(f.path, f.added + Bit(IsAdded(line)), f.removed + Bit(IsRemoved(line)), f.lines + [line])
  }

  /** The files after reading `lines`; the last one is still being filled. */
  function Read(header: string -> Option<string>, lines: seq<string>): seq<DiffFile> {
    if lines == [] then []
    else
      var files, line := Read(header, lines[..|lines| - 1]), lines[|lines| - 1];
      if header(line).Some? then files + [MakeFile(header(line).value, [])]
      else if files == [] then []
      else files[..|files| - 1] + [AddLine(files[|files| - 1], line)]
  }

  lemma ReadOneMore(header: string -> Option<string>, lines: seq<string>, line: string)
    ensures var files := Read(header, lines);
      Read(header, lines + [line]) ==
        if header(line).Some? then files + [MakeFile(header(line).value, [])]
        else if files == [] then []
        else files[..|files| - 1] + [AddLine(files[|files| - 1], line)]
  {
  }

  /** The files read so far, with the one that is being filled. */
  function WithCurrent(files: seq<DiffFile>, current: Option<DiffFile>): seq<DiffFile> {
    files + if current.Some? then [current.value] else []
  }

  /** `files` and `current` are what the first `i` lines say. */
  ghost predicate ReadSoFar(header: string -> Option<string>, lines: seq<string>, i: nat,
                            files: seq<DiffFile>, current: Option<DiffFile>)
    requires i <= |lines|
  {
    Read(header, lines[..i]) == WithCurrent(files, current) && (current.None? ==> files == [])
  }

  lemma ReadLine(header: string -> Option<string>, lines: seq<string>, i: nat,
                 files: seq<DiffFile>, current: Option<DiffFile>)
    requires i < |lines| && ReadSoFar(header, lines, i, files, current)
    ensures var name := header(lines[i]);
      if name.Some? then
        ReadSoFar(header, lines, i + 1, WithCurrent(files, current), Some(DiffFile(name.value, 0, 0, [])))
      else if current.None? then ReadSoFar(header, lines, i + 1, files, current)
      else ReadSoFar(header, lines, i + 1, files, Some(AddLine(current.value, lines[i])))
  {
    var front, line := lines[..i], lines[i];
    assert lines[..i + 1] == front + [line];
    ReadOneMore(header, front, line);
    CurrentIsLast(files, current);
  }

  lemma CurrentIsLast(files: seq<DiffFile>, current: Option<DiffFile>)
    ensures current.Some? ==>
              var all := WithCurrent(files, current); all[..|all| - 1] == files && all[|all| - 1] == current.value
    ensures current.None? ==> WithCurrent(files, current) == files
  {
  }

  method ParseSections(header: string -> Option<string>, lines: seq<string>) returns (files: seq<DiffFile>)
    ensures files == Read(header, lines)
  {
    files := [];
    var current: Option<DiffFile> := None;
    for i := 0 to |lines|
      invariant ReadSoFar(header, lines, i, files, current)
    {
      var line := lines[i];
      ReadLine(header, lines, i, files, current);
      var filePath := header(line);
      if filePath.Some? {
        files := Finish(files, current);
        current := Some(DiffFile(filePath.value, 0, 0, []));
        continue;
      }
      if current.None? { continue; }
      current := Some(AddLine(current.value, line));
    }
    assert lines[..|lines|] == lines;
    files := Finish(files, current);
  }

  /** `if (current) files.push(...)`. */
  method Finish(files: seq<DiffFile>, current: Option<DiffFile>) returns (more: seq<DiffFile>)
    ensures more == WithCurrent(files, current)
  {
    more := files;
    if current.Some? { more := more + [current.value]; }
  }

  /** `parseDiffFiles`. */
  method ParseDiffFiles(diffText: string) returns (files: seq<DiffFile>)
    ensures files == Read(ParseDiffHeaderPath, SplitLines(diffText))
  {
    files := ParseSections(ParseDiffHeaderPath, SplitLines(diffText));
  }

  // ---------------------------------------------------------------- who owns which line

  function EndOf(starts: seq<nat>, k: nat, n: nat): nat
    requires k < |starts|
  {
    if k + 1 < |starts| then starts[k + 1] else n
  }

  ghost predicate AreHeaders(header: string -> Option<string>, lines: seq<string>, starts: seq<nat>) {
    forall j: nat :: j in starts <==> j < |lines| && header(lines[j]).Some?
  }

  ghost predicate OwnsOne(header: string -> Option<string>, lines: seq<string>, f: DiffFile, starts: seq<nat>, k: nat)
    requires k < |starts|
  {
    starts[k] < EndOf(starts, k, |lines|) && Section(header, lines, f, starts[k], EndOf(starts, k, |lines|))
  }

  /** `starts` are the header lines, in order, and file `k` has the path of its header and exactly
      the lines up to the next header, counted. */
  ghost predicate Owns(header: string -> Option<string>, lines: seq<string>, files: seq<DiffFile>, starts: seq<nat>) {
    && |starts| == |files|
    && AreHeaders(header, lines, starts)
    && forall k :: 0 <= k < |starts| ==> OwnsOne(header, lines, files[k], starts, k)
  }

  ghost predicate Section(header: string -> Option<string>, lines: seq<string>, f: DiffFile, from: nat, to: nat) {
    && from < to <= |lines| && header(lines[from]).Some?
    && f == MakeFile(header(lines[from]).value, lines[from + 1..to])
  }

  lemma SectionStays(header: string -> Option<string>, lines: seq<string>, line: string, f: DiffFile, from: nat,
                     to: nat)
    requires Section(header, lines, f, from, to)
    ensures Section(header, lines + [line], f, from, to)
  {
    assert (lines + [line])[from + 1..to] == lines[from + 1..to];
  }

  lemma AddLineCounts(path: string, lines: seq<string>, line: string)
    ensures AddLine(MakeFile(path, lines), line) == MakeFile(path, lines + [line])
  {
  }

  lemma SectionGrows(header: string -> Option<string>, lines: seq<string>, line: string, f: DiffFile, from: nat)
    requires Section(header, lines, f, from, |lines|)
    ensures Section(header, lines + [line], AddLine(f, line), from, |lines| + 1)
  {
    AddLineCounts(f.path, lines[from + 1..], line);
    assert lines[from + 1..|lines|] == lines[from + 1..];
    assert (lines + [line])[from + 1..|lines| + 1] == lines[from + 1..] + [line];
  }

  lemma OwnsHeader(header: string -> Option<string>, lines: seq<string>, line: string, files: seq<DiffFile>,
                   starts: seq<nat>)
    requires Owns(header, lines, files, starts) && header(line).Some?
    ensures Owns(header, lines + [line], files + [MakeFile(header(line).value, [])], starts + [|lines|])
  {
    var lines', files', starts' := lines + [line], files + [MakeFile(header(line).value, [])], starts + [|lines|];
    assert lines'[|lines| + 1..|lines| + 1] == [];
    forall k | 0 <= k < |starts'| ensures OwnsOne(header, lines', files'[k], starts', k) {
      if k < |starts| {
        assert OwnsOne(header, lines, files[k], starts, k);
        assert EndOf(starts', k, |lines'|) == EndOf(starts, k, |lines|);
        SectionStays(header, lines, line, files[k], starts[k], EndOf(starts, k, |lines|));
      }
    }
  }

  lemma OwnsBodyOne(header: string -> Option<string>, lines: seq<string>, line: string, f: DiffFile, starts: seq<nat>,
                    k: nat)
    requires k < |starts| && OwnsOne(header, lines, f, starts, k)
    ensures OwnsOne(header, lines + [line], if k + 1 < |starts| then f else AddLine(f, line), starts, k)
  {
    if k + 1 < |starts| {
      SectionStays(header, lines, line, f, starts[k], EndOf(starts, k, |lines|));
    } else {
      SectionGrows(header, lines, line, f, starts[k]);
    }
  }

  lemma StartsStay(header: string -> Option<string>, lines: seq<string>, line: string, starts: seq<nat>)
    requires header(line).None? && AreHeaders(header, lines, starts)
    ensures AreHeaders(header, lines + [line], starts)
  {
  }

  lemma OwnsBody(header: string -> Option<string>, lines: seq<string>, line: string, files: seq<DiffFile>,
                 starts: seq<nat>)
    requires Owns(header, lines, files, starts) && header(line).None? && files != []
    ensures Owns(header, lines + [line], files[..|files| - 1] + [AddLine(files[|files| - 1], line)], starts)
  {
    StartsStay(header, lines, line, starts);
    var files' := files[..|files| - 1] + [AddLine(files[|files| - 1], line)];
    forall k | 0 <= k < |starts| ensures OwnsOne(header, lines + [line], files'[k], starts, k) {
      OwnsBodyOne(header, lines, line, files[k], starts, k);
    }
  }

  /** Main result: there is one file per header line, in order, and each owns exactly the lines
      between its header and the next one. */
  lemma {:induction false} FilesOwnTheirLines(header: string -> Option<string>, lines: seq<string>)
    returns (starts: seq<nat>)
    ensures Owns(header, lines, Read(header, lines), starts)
  {
    if lines == [] {
      starts := [];
    } else {
      var front, line := lines[..|lines| - 1], lines[|lines| - 1];
      assert lines == front + [line];
      starts := FilesOwnTheirLines(header, front);
      var files := Read(header, front);
      if header(line).Some? {
        OwnsHeader(header, front, line, files, starts);
        starts := starts + [|front|];
      } else if files != [] {
        OwnsBody(header, front, line, files, starts);
      }
    }
  }

  function TotalAdded(files: seq<DiffFile>): nat {
    if files == [] then 0 else TotalAdded(files[..|files| - 1]) + files[|files| - 1].added
  }

  function TotalRemoved(files: seq<DiffFile>): nat {
    if files == [] then 0 else TotalRemoved(files[..|files| - 1]) + files[|files| - 1].removed
  }

  /** A header counts neither as added nor as removed. */
  ghost predicate Neutral(header: string -> Option<string>) {
    forall l :: header(l).Some? ==> !IsAdded(l) && !IsRemoved(l)
  }

  lemma DiffHeadersAreNeutral()
    ensures Neutral(ParseDiffHeaderPath)
  {
    forall l | ParseDiffHeaderPath(l).Some? ensures !IsAdded(l) && !IsRemoved(l) {
      assert l[0] == l[..|HEADER_PREFIX|][0] == 'd';
      assert l[..1] == "d";
    }
  }

  /** `first` is the first header line, or the end. */
  ghost predicate FirstHeader(header: string -> Option<string>, lines: seq<string>, first: nat) {
    && first <= |lines| && (first < |lines| ==> header(lines[first]).Some?)
    && forall j :: 0 <= j < first ==> header(lines[j]).None?
  }

  lemma {:induction false} NothingBeforeHeader(header: string -> Option<string>, lines: seq<string>)
    ensures Read(header, lines) == [] <==> forall j :: 0 <= j < |lines| ==> header(lines[j]).None?
  {
    if lines != [] {
      NothingBeforeHeader(header, lines[..|lines| - 1]);
    }
  }

  /** One more line after the first header. */
  lemma CountOneMore(lines: seq<string>, first: nat)
    requires first < |lines|
    ensures CountAdded(lines[first..]) == CountAdded(lines[..|lines| - 1][first..]) + Bit(IsAdded(lines[|lines| - 1]))
    ensures CountRemoved(lines[first..]) ==
            CountRemoved(lines[..|lines| - 1][first..]) + Bit(IsRemoved(lines[|lines| - 1]))
  {
    assert lines[first..][..|lines| - first - 1] == lines[..|lines| - 1][first..];
  }

  lemma TotalOneMore(files: seq<DiffFile>, line: string)
    requires files != []
    ensures var files' := files[..|files| - 1] + [AddLine(files[|files| - 1], line)];
      && TotalAdded(files') == TotalAdded(files) + Bit(IsAdded(line))
      && TotalRemoved(files') == TotalRemoved(files) + Bit(IsRemoved(line))
  {
  }

  lemma TotalNewFile(files: seq<DiffFile>, path: string)
    ensures TotalAdded(files + [MakeFile(path, [])]) == TotalAdded(files) &&
            TotalRemoved(files + [MakeFile(path, [])]) == TotalRemoved(files)
  {
  }

  lemma {:induction false} TotalsFrom(header: string -> Option<string>, lines: seq<string>, first: nat)
    requires Neutral(header) && FirstHeader(header, lines, first)
    ensures TotalAdded(Read(header, lines)) == CountAdded(lines[first..])
    ensures TotalRemoved(Read(header, lines)) == CountRemoved(lines[first..])
  {
    NothingBeforeHeader(header, lines);
    if first < |lines| {
      var front, line := lines[..|lines| - 1], lines[|lines| - 1];
      CountOneMore(lines, first);
      TotalsFrom(header, front, first);
      NothingBeforeHeader(header, front);
      var files := Read(header, front);
      if header(line).Some? {
        TotalNewFile(files, header(line).value);
      } else {
        assert first < |front| && front[first] == lines[first];
        TotalOneMore(files, line);
      }
    }
  }

  /** Main result: the files of a diff together count every line from the first header on that the code
      takes for an added or a removed one. */
  lemma TotalsAreComplete(diffText: string, first: nat)
    requires FirstHeader(ParseDiffHeaderPath, SplitLines(diffText), first)
    ensures var lines := SplitLines(diffText);
      var files := Read(ParseDiffHeaderPath, lines);
      TotalAdded(files) == CountAdded(lines[first..]) && TotalRemoved(files) == CountRemoved(lines[first..])
  {
    DiffHeadersAreNeutral();
    TotalsFrom(ParseDiffHeaderPath, SplitLines(diffText), first);
  }

  /** A line with `text` added is taken for one exactly if the text does not begin with `++`, which would
      make it look like a file's name; and the same for removing. */
  lemma LineIsCountedExactlyWhen(text: string)
    ensures IsAdded("+" + text) <==> !StartsWith(text, "++")
    ensures IsRemoved("-" + text) <==> !StartsWith(text, "--")
  {
    StartsWithOneMore('+', text);
    StartsWithOneMore('-', text);
  }

  lemma StartsWithOneMore(c: char, text: string)
    ensures StartsWith([c] + text, [c]) && (StartsWith([c] + text, [c, c, c]) <==> StartsWith(text, [c, c]))
  {
    if |text| >= 2 { assert ([c] + text)[..3] == [c] + text[..2]; }
  }

  function CountStarting(lines: seq<string>, prefix: string): nat {
    if lines == [] then 0 else CountStarting(lines[..|lines| - 1], prefix) + Bit(StartsWith(lines[|lines| - 1], prefix))
  }

  /** Main result: what the counts miss. Of the lines that begin with `+` exactly those that go on with
      `++` are left out, such as an added line of text that begins with `++`; and the same for `-`, such
      as a removed comment of SQL. */
  lemma {:induction false} CountsMissExactly(lines: seq<string>)
    ensures CountAdded(lines) + CountStarting(lines, "+++") == CountStarting(lines, "+")
    ensures CountRemoved(lines) + CountStarting(lines, "---") == CountStarting(lines, "-")
  {
    if lines != [] {
      CountsMissExactly(lines[..|lines| - 1]);
      LongerPrefix(lines[|lines| - 1], '+');
      LongerPrefix(lines[|lines| - 1], '-');
    }
  }

  lemma LongerPrefix(line: string, c: char)
    ensures StartsWith(line, [c, c, c]) ==> StartsWith(line, [c])
  {
    if StartsWith(line, [c, c, c]) { assert line[..1] == line[..3][..1]; }
  }

  // ---------------------------------------------------------------- rendering and parsing back

  function RenderLines(files: seq<DiffFile>): seq<string> {
    if files == [] then []
    else RenderLines(files[..|files| - 1]) + [HeaderLine(files[|files| - 1].path)] + files[|files| - 1].lines
  }

  function Render(files: seq<DiffFile>): string { JoinLines(RenderLines(files)) }

  predicate Renderable(header: string -> Option<string>, f: DiffFile) {
    && header(HeaderLine(f.path)) == Some(f.path) && IsLine(HeaderLine(f.path))
    && (forall l :: l in f.lines ==> IsLine(l) && header(l).None?)
    && f == MakeFile(f.path, f.lines)
  }

  lemma ReadBodyLine(header: string -> Option<string>, lines: seq<string>, line: string, files: seq<DiffFile>,
                     path: string, body: seq<string>)
    requires Read(header, lines) == files + [MakeFile(path, body)] && header(line).None?
    ensures Read(header, lines + [line]) == files + [MakeFile(path, body + [line])]
  {
    ReadOneMore(header, lines, line);
    AddLineCounts(path, body, line);
    assert (files + [MakeFile(path, body)])[..|files|] == files;
  }

  lemma {:induction false} ReadBody(header: string -> Option<string>, lines: seq<string>, body: seq<string>,
                                    files: seq<DiffFile>, path: string)
    requires Read(header, lines) == files + [MakeFile(path, [])]
    requires forall l :: l in body ==> header(l).None?
    ensures Read(header, lines + body) == files + [MakeFile(path, body)]
  {
    if body == [] {
      assert lines + body == lines;
    } else {
      var front, line := body[..|body| - 1], body[|body| - 1];
      assert body == front + [line] && line in body;
      ReadBody(header, lines, front, files, path);
      ReadBodyLine(header, lines + front, line, files, path, front);
      assert lines + (front + [line]) == (lines + front) + [line];
    }
  }

  lemma {:induction false} RenderedLinesParse(header: string -> Option<string>, files: seq<DiffFile>)
    requires forall f :: f in files ==> Renderable(header, f)
    ensures Read(header, RenderLines(files)) == files
    ensures forall l :: l in RenderLines(files) ==> IsLine(l)
  {
    if files != [] {
      var front, f := files[..|files| - 1], files[|files| - 1];
      assert f in files && files == front + [f];
      RenderedLinesParse(header, front);
      ReadOneMore(header, RenderLines(front), HeaderLine(f.path));
      ReadBody(header, RenderLines(front) + [HeaderLine(f.path)], f.lines, front, f.path);
    }
  }

  /** A file whose path and lines a diff can carry: a path that is not empty, has no ` b/` and no
      line break, and body lines that are no headers. */
  predicate Plain(f: DiffFile) {
    && f.path != "" && !Mentions(f.path, SEPARATOR) && IsLine(f.path)
    && (forall l :: l in f.lines ==> IsLine(l) && ParseDiffHeaderPath(l).None?)
    && f == MakeFile(f.path, f.lines)
  }

  lemma PlainIsRenderable(f: DiffFile)
    requires Plain(f)
    ensures Renderable(ParseDiffHeaderPath, f)
  {
    HeaderReadsBackExactlyWhen(f.path);
    var line := HeaderLine(f.path);
    assert line[|line| - 1] == f.path[|f.path| - 1];
    assert '\n' !in HEADER_PREFIX && '\n' !in SEPARATOR;
  }

  /** Main result: parsing a rendered list of files gives back paths, lines and counts. */
  lemma RenderParses(files: seq<DiffFile>)
    requires forall f :: f in files ==> Plain(f)
    ensures Read(ParseDiffHeaderPath, SplitLines(Render(files))) == files
  {
    forall f | f in files ensures Renderable(ParseDiffHeaderPath, f) { PlainIsRenderable(f); }
    RenderedLinesParse(ParseDiffHeaderPath, files);
    if files == [] {
      assert SplitLines("") == [""] && ParseDiffHeaderPath("") == None;
      ReadOneMore(ParseDiffHeaderPath, [], "");
      assert [] + [""] == [""];
    } else {
      SplitJoin(RenderLines(files));
    }
  }
}
