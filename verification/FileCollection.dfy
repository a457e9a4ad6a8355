/** Bounded file collection (`src/utils/files.ts`): a recursive walk with three budgets, pruning and
    early exits. The walk is proved equal to one greedy pass over the depth-first list of what a
    walk without budgets would meet; the budget laws are proved on that pass. */
module FileCollection {
  import opened Text

  // ---------------------------------------------------------------- the directory tree

  /** What `readdir`, `stat` and `readFile` answer: `None` is a thrown error. */
  datatype Entry =
    | File(name: string, size: Option<nat>, content: Option<string>)
    | Directory(name: string, entries: seq<Entry>)
    | LockedDirectory(name: string)
    | Special(name: string)          // symbolic links, sockets, ...

  /** A collected file; the `path` field of the source is `RelativePath(location)`. */
  datatype TextFile = TextFile(location: seq<string>, size: nat, content: string)

  datatype Limits = Limits(maxFileBytes: nat, maxFiles: nat, maxTotalBytes: nat)

  /** The limits, and the two path tests the walk asks. */
  datatype Setup = Setup(limits: Limits, ignored: string -> bool, text: string -> bool)

  const DEFAULT_MAX_TEXT_FILE_BYTES := 1024 * 1024
  const DEFAULT_MAX_TEXT_FILES := 10_000
  const DEFAULT_MAX_TOTAL_TEXT_BYTES := 50 * 1024 * 1024

  /** A missing or non-positive option falls back; `NaN` and infinities do too and are `None` here. */
  function PositiveIntegerOrDefault(value: Option<real>, fallback: nat): (n: nat)
    requires fallback > 0
    ensures n > 0
    ensures value.Some? && value.value >= 1.0 ==> n as real <= value.value < n as real + 1.0
    ensures value.None? || value.value < 1.0 ==> n == fallback
  {
    if value.Some? && value.value.Floor > 0 then value.value.Floor else fallback
  }

  /** The limits of a collection with these options. */
  function LimitsFrom(maxFileBytes: Option<real>, maxFiles: Option<real>, maxTotalBytes: Option<real>): (l: Limits)
    ensures l.maxFileBytes > 0 && l.maxFiles > 0 && l.maxTotalBytes > 0
    ensures maxFileBytes.None? ==> l.maxFileBytes == 1_048_576
    ensures maxFiles.None? ==> l.maxFiles == 10_000
    ensures maxTotalBytes.None? ==> l.maxTotalBytes == 52_428_800
  {
    Limits(PositiveIntegerOrDefault(maxFileBytes, DEFAULT_MAX_TEXT_FILE_BYTES),
           PositiveIntegerOrDefault(maxFiles, DEFAULT_MAX_TEXT_FILES),
           PositiveIntegerOrDefault(maxTotalBytes, DEFAULT_MAX_TOTAL_TEXT_BYTES))
  }

  const IGNORED_DIRECTORIES: seq<string> :=
    [".git", ".next", ".turbo", "coverage", "dist", "build", "node_modules", "out"]

  predicate Skipped(name: string) {
    name == ".DS_Store" || StartsWith(name, "._")
  }

  function Join(location: seq<string>): string {
    if location == [] then ""
    else if |location| == 1 then location[0]
    else location[0] + "/" + Join(location[1..])
  }

  function ToPosix(path: string): (posix: string)
    ensures |posix| == |path|
    ensures forall k :: 0 <= k < |path| ==> posix[k] == if path[k] == '\\' then '/' else path[k]
  {
    if path == "" then "" else [if path[0] == '\\' then '/' else path[0]] + ToPosix(path[1..])
  }

  function RelativePath(location: seq<string>): string {
    ToPosix(Join(location))
  }

  function RelativeCollectionPath(location: seq<string>): string {
    if RelativePath(location) == "" then "." else RelativePath(location)
  }

  // ---------------------------------------------------------------- sorting a listing

  function Insert(e: Entry, sorted: seq<Entry>): (r: seq<Entry>)
    ensures multiset(r) == multiset{e} + multiset(sorted)
  {
    if sorted == [] then [e]
    else if Less(sorted[0].name, e.name) then
      assert sorted == [sorted[0]] + sorted[1..];
      [sorted[0]] + Insert(e, sorted[1..])
    else [e] + sorted
  }

  /** `entries.sort(compareText by name)`. */
  function SortByName(entries: seq<Entry>): (r: seq<Entry>)
    ensures multiset(r) == multiset(entries)
    ensures forall e :: e in r <==> e in entries
  {
    if entries == [] then []
    else
      assert entries == [entries[0]] + entries[1..];
      var r := Insert(entries[0], SortByName(entries[1..]));
      assert forall e :: e in r <==> e in multiset(r);
      r
  }

  ghost predicate NamesAscend(entries: seq<Entry>) {
    forall i, j :: 0 <= i < j < |entries| ==> !Less(entries[j].name, entries[i].name)
  }

  lemma {:induction false} InsertAscends(e: Entry, sorted: seq<Entry>)
    requires NamesAscend(sorted)
    ensures NamesAscend(Insert(e, sorted))
  {
    if sorted != [] {
      if Less(sorted[0].name, e.name) {
        InsertAscends(e, sorted[1..]);
        var rest := Insert(e, sorted[1..]);
        forall j | 0 <= j < |rest| ensures !Less(rest[j].name, sorted[0].name) {
          InsertBehind(e, sorted, rest[j]);
        }
        FirstAscends(sorted[0], rest);
      } else {
        forall j | 0 <= j < |sorted| ensures !Less(sorted[j].name, e.name) {
          if Less(sorted[j].name, e.name) {
            LessTotal(sorted[0].name, sorted[j].name);
            if Less(sorted[0].name, sorted[j].name) { LessTransitive(sorted[0].name, sorted[j].name, e.name); }
          }
        }
        FirstAscends(e, sorted);
        assert Insert(e, sorted) == [e] + sorted;
      }
    } else {
      assert Insert(e, sorted) == [e];
    }
  }

  lemma FirstAscends(e: Entry, rest: seq<Entry>)
    requires NamesAscend(rest) && forall j :: 0 <= j < |rest| ==> !Less(rest[j].name, e.name)
    ensures NamesAscend([e] + rest)
  {
  }

  lemma InsertBehind(e: Entry, sorted: seq<Entry>, x: Entry)
    requires sorted != [] && NamesAscend(sorted) && Less(sorted[0].name, e.name) && x in Insert(e, sorted[1..])
    ensures !Less(x.name, sorted[0].name)
  {
    LessTotal(e.name, sorted[0].name);
    assert x in multiset(Insert(e, sorted[1..]));
    if x != e { assert x in sorted[1..]; }
  }

  lemma {:induction false} SortAscends(entries: seq<Entry>)
    ensures NamesAscend(SortByName(entries))
  {
    if entries != [] {
      SortAscends(entries[1..]);
      InsertAscends(entries[0], SortByName(entries[1..]));
    }
  }

  // ---------------------------------------------------------------- the walk

  datatype Progress = Progress(
    files: seq<TextFile>,
    collectedBytes: nat,
    unreadableFiles: seq<string>,
    unreadableDirectories: seq<string>,
    skippedLargeFiles: seq<string>,
    skippedBudgetFiles: seq<string>)

  const NOTHING := Progress([], 0, [], [], [], [])

  datatype State = State(progress: Progress, maxFilesReached: bool, maxTotalBytesReached: bool)

  predicate FilesFull(limits: Limits, p: Progress) { |p.files| >= limits.maxFiles }

  predicate BytesFull(limits: Limits, p: Progress) { p.collectedBytes >= limits.maxTotalBytes }

  predicate Full(limits: Limits, p: Progress) { FilesFull(limits, p) || BytesFull(limits, p) }

  predicate OverBudget(limits: Limits, p: Progress, size: nat) {
    size <= limits.maxFileBytes && p.collectedBytes + size > limits.maxTotalBytes
  }

  function PushUnique(target: seq<string>, value: string): seq<string> {
    if value in target then target else target + [value]
  }

  /** One text file: stat it, check the two byte limits, read it. */
  function TakeFile(limits: Limits, p: Progress, location: seq<string>, file: Entry): Progress
    requires file.File?
  {
    var path := RelativePath(location);
    if file.size.None? then p.(unreadableFiles := PushUnique(p.unreadableFiles, path))
    else if file.size.value > limits.maxFileBytes then
      p.(skippedLargeFiles := PushUnique(p.skippedLargeFiles, path))
    else if OverBudget(limits, p, file.size.value) then
      p.(skippedBudgetFiles := PushUnique(p.skippedBudgetFiles, path))
    else if file.content.None? then p.(unreadableFiles := PushUnique(p.unreadableFiles, path))
    else
      p.(files := p.files + [TextFile(location, file.size.value, file.content.value)],
         collectedBytes := p.collectedBytes + file.size.value)
  }

  function LockedAt(p: Progress, location: seq<string>): Progress {
    p.(unreadableDirectories := PushUnique(p.unreadableDirectories, RelativeCollectionPath(location)))
  }

  /** Mark the budget that is used up; the file count is looked at first. */
  function Exhaust(limits: Limits, st: State): State {
    if FilesFull(limits, st.progress) then st.(maxFilesReached := true) else st.(maxTotalBytesReached := true)
  }

  predicate Pruned(s: Setup, location: seq<string>, e: Entry) {
    || Skipped(e.name)
    || s.ignored(RelativePath(location + [e.name]))
    || ((e.Directory? || e.LockedDirectory?) && e.name in IGNORED_DIRECTORIES)
    || (e.File? && !s.text(RelativePath(location + [e.name])))
    || e.Special?
  }

  function WalkDirectory(s: Setup, st: State, location: seq<string>, dir: Entry): State
    requires dir.Directory? || dir.LockedDirectory?
    decreases dir, 1, 0
  {
    if Full(s.limits, st.progress) then Exhaust(s.limits, st)
    else if dir.LockedDirectory? then st.(progress := LockedAt(st.progress, location))
    else WalkEntries(s, st, location, dir, SortByName(dir.entries))
  }

  function WalkEntries(s: Setup, st: State, location: seq<string>, dir: Entry, entries: seq<Entry>): State
    requires dir.Directory? && forall e :: e in entries ==> e in dir.entries
    decreases dir, 0, |entries|
  {
    if entries == [] then st
    else if Full(s.limits, st.progress) then Exhaust(s.limits, st)
    else WalkEntries(s, WalkEntry(s, st, location, dir, entries[0]), location, dir, entries[1..])
  }

  function WalkEntry(s: Setup, st: State, location: seq<string>, dir: Entry, e: Entry): State
    requires dir.Directory? && e in dir.entries
    decreases dir, 0, 0
  {
    if Pruned(s, location, e) then st
    else if e.File? then
      var over := e.size.Some? && OverBudget(s.limits, st.progress, e.size.value);
      State(TakeFile(s.limits, st.progress, location + [e.name], e), st.maxFilesReached,
            st.maxTotalBytesReached || over)
    else WalkDirectory(s, st, location + [e.name], e)
  }

  /** The arrays and counters the walk updates in place. */
  class Collector {
    const setup: Setup
    var files: seq<TextFile>
    var collectedBytes: nat
    var unreadableFiles: seq<string>
    var unreadableDirectories: seq<string>
    var skippedLargeFiles: seq<string>
    var skippedBudgetFiles: seq<string>
    var maxFilesReached: bool
    var maxTotalBytesReached: bool
    var filesScanned: nat
    var bytesScanned: nat

    function Now(): State
      reads this
    {
      State(Progress(files, collectedBytes, unreadableFiles, unreadableDirectories, skippedLargeFiles,
                     skippedBudgetFiles),
            maxFilesReached, maxTotalBytesReached)
    }

    constructor (setup: Setup)
      ensures this.setup == setup && Now() == State(NOTHING, false, false)
    {
      this.setup := setup;
      files, collectedBytes := [], 0;
      unreadableFiles, unreadableDirectories, skippedLargeFiles, skippedBudgetFiles := [], [], [], [];
      maxFilesReached, maxTotalBytesReached := false, false;
      filesScanned, bytesScanned := 0, 0;
    }

    /** `collectTextFilesWithDiagnostics`. */
    method Collect(root: Entry)
      requires root.Directory? || root.LockedDirectory?
      modifies this
      ensures Now() == WalkDirectory(setup, old(Now()), [], root)
      ensures filesScanned == |files| && bytesScanned == collectedBytes
    {
      Walk([], root);
      filesScanned := |files|;
      bytesScanned := collectedBytes;
    }

    method Walk(location: seq<string>, dir: Entry)
      requires dir.Directory? || dir.LockedDirectory?
      modifies this
      ensures Now() == WalkDirectory(setup, old(Now()), location, dir)
      decreases dir
    {
      if |files| >= setup.limits.maxFiles {
        maxFilesReached := true;
        return;
      }
      if collectedBytes >= setup.limits.maxTotalBytes {
        maxTotalBytesReached := true;
        return;
      }
      if dir.LockedDirectory? {
        unreadableDirectories := PushUnique(unreadableDirectories, RelativeCollectionPath(location));
        return;
      }

      var entries := SortByName(dir.entries);
      var i := 0;
      while i < |entries|
        invariant i <= |entries|
        invariant WalkEntries(setup, old(Now()), location, dir, entries) ==
                  WalkEntries(setup, Now(), location, dir, entries[i..])
      {
        assert entries[i..][0] == entries[i] && entries[i..][1..] == entries[i + 1..];
        if |files| >= setup.limits.maxFiles {
          maxFilesReached := true;
          break;
        }
        if collectedBytes >= setup.limits.maxTotalBytes {
          maxTotalBytesReached := true;
          break;
        }
        var entry := entries[i];
        assert entry in entries && entry in dir.entries;
        i := i + 1;
        if Skipped(entry.name) { continue; }
        var relativePath := RelativePath(location + [entry.name]);
        if setup.ignored(relativePath) { continue; }
        if entry.Directory? || entry.LockedDirectory? {
          if entry.name in IGNORED_DIRECTORIES { continue; }
          Walk(location + [entry.name], entry);
          continue;
        }
        if !entry.File? || !setup.text(relativePath) { continue; }
        Take(location + [entry.name], entry);
      }
    }

    /** The file part of the loop body. */
    method Take(location: seq<string>, file: Entry)
      requires file.File?
      modifies this
      ensures Now().progress == TakeFile(setup.limits, old(Now()).progress, location, file)
      ensures maxFilesReached == old(maxFilesReached)
      ensures maxTotalBytesReached ==
              (old(maxTotalBytesReached) ||
               (file.size.Some? && OverBudget(setup.limits, old(Now()).progress, file.size.value)))
    {
      var relativePath := RelativePath(location);
      if file.size.None? {
        unreadableFiles := PushUnique(unreadableFiles, relativePath);
        return;
      }
      if file.size.value > setup.limits.maxFileBytes {
        skippedLargeFiles := PushUnique(skippedLargeFiles, relativePath);
        return;
      }
      if collectedBytes + file.size.value > setup.limits.maxTotalBytes {
        maxTotalBytesReached := true;
        skippedBudgetFiles := PushUnique(skippedBudgetFiles, relativePath);
        return;
      }
      if file.content.None? {
        unreadableFiles := PushUnique(unreadableFiles, relativePath);
        return;
      }
      files := files + [TextFile(location, file.size.value, file.content.value)];
      collectedBytes := collectedBytes + file.size.value;
    }
  }

  // ---------------------------------------------------------------- what a walk without budgets meets

  datatype Visit =
    | Candidate(location: seq<string>, file: Entry)
    | Locked(location: seq<string>)

  function Visits(s: Setup, location: seq<string>, dir: Entry): seq<Visit>
    requires dir.Directory? || dir.LockedDirectory?
    decreases dir, 1, 0
  {
    if dir.LockedDirectory? then [Locked(location)]
    else VisitsIn(s, location, dir, SortByName(dir.entries))
  }

  function VisitsIn(s: Setup, location: seq<string>, dir: Entry, entries: seq<Entry>): seq<Visit>
    requires dir.Directory? && forall e :: e in entries ==> e in dir.entries
    decreases dir, 0, |entries|
  {
    if entries == [] then []
    else VisitsAt(s, location, dir, entries[0]) + VisitsIn(s, location, dir, entries[1..])
  }

  function VisitsAt(s: Setup, location: seq<string>, dir: Entry, e: Entry): seq<Visit>
    requires dir.Directory? && e in dir.entries
    decreases dir, 0, 0
  {
    if Pruned(s, location, e) then []
    else if e.File? then [Candidate(location + [e.name], e)]
    else Visits(s, location + [e.name], e)
  }

  /** Said without any order: `v` is `dir` itself, locked, or is reached through entries none of
      which is pruned, so neither the file nor a directory above it is ignored. */
  predicate Reaches(s: Setup, location: seq<string>, dir: Entry, v: Visit)
    requires dir.Directory? || dir.LockedDirectory?
    decreases dir
  {
    if dir.LockedDirectory? then v == Locked(location)
    else exists e :: e in dir.entries && !Pruned(s, location, e) &&
           if e.File? then v == Candidate(location + [e.name], e)
           else Reaches(s, location + [e.name], e, v)
  }

  lemma {:induction false} VisitsAreReached(s: Setup, location: seq<string>, dir: Entry, v: Visit)
    requires dir.Directory? || dir.LockedDirectory?
    ensures v in Visits(s, location, dir) <==> Reaches(s, location, dir, v)
    decreases dir, 1, 0
  {
    if dir.Directory? {
      var entries := SortByName(dir.entries);
      VisitsInAreReached(s, location, dir, entries, v);
    }
  }

  predicate ReachesThrough(s: Setup, location: seq<string>, e: Entry, v: Visit) {
    !Pruned(s, location, e) &&
    if e.File? then v == Candidate(location + [e.name], e) else Reaches(s, location + [e.name], e, v)
  }

  lemma {:induction false} VisitsInAreReached(s: Setup, location: seq<string>, dir: Entry, entries: seq<Entry>,
                                              v: Visit)
    requires dir.Directory? && forall e :: e in entries ==> e in dir.entries
    ensures v in VisitsIn(s, location, dir, entries) <==> exists e :: e in entries && ReachesThrough(s, location, e, v)
    decreases dir, 0, |entries|
  {
    if entries != [] {
      var e := entries[0];
      assert entries == [e] + entries[1..] && e in entries;
      VisitsInAreReached(s, location, dir, entries[1..], v);
      if !Pruned(s, location, e) && !e.File? {
        VisitsAreReached(s, location + [e.name], e, v);
      }
      assert v in VisitsAt(s, location, dir, e) <==> ReachesThrough(s, location, e, v);
    }
  }

  // ---------------------------------------------------------------- one greedy pass

  function Take(limits: Limits, p: Progress, v: Visit): Progress {
    if v.Candidate? && v.file.File? then TakeFile(limits, p, v.location, v.file) else LockedAt(p, v.location)
  }

  /** Take the visits in order until a budget is used up. */
  function Greedy(limits: Limits, p: Progress, visits: seq<Visit>): Progress
    decreases |visits|
  {
    if visits == [] || Full(limits, p) then p
    else Greedy(limits, Take(limits, p, visits[0]), visits[1..])
  }

  lemma {:induction false} GreedyAppend(limits: Limits, p: Progress, a: seq<Visit>, b: seq<Visit>)
    ensures Greedy(limits, p, a + b) == Greedy(limits, Greedy(limits, p, a), b)
    decreases |a|
  {
    if a == [] {
      assert a + b == b;
    } else if !Full(limits, p) {
      assert (a + b)[0] == a[0] && (a + b)[1..] == a[1..] + b;
      GreedyAppend(limits, Take(limits, p, a[0]), a[1..], b);
    }
  }

  /** The recursive walk with its breaks collects what the greedy pass over `Visits` collects. */
  lemma {:induction false} WalkIsGreedy(s: Setup, st: State, location: seq<string>, dir: Entry)
    requires dir.Directory? || dir.LockedDirectory?
    ensures WalkDirectory(s, st, location, dir).progress == Greedy(s.limits, st.progress, Visits(s, location, dir))
    decreases dir, 1, 0
  {
    if dir.LockedDirectory? {
      GreedyOne(s.limits, st.progress, Locked(location));
    } else if !Full(s.limits, st.progress) {
      WalkEntriesIsGreedy(s, st, location, dir, SortByName(dir.entries));
    }
  }

  lemma GreedyOne(limits: Limits, p: Progress, v: Visit)
    ensures Greedy(limits, p, [v]) == if Full(limits, p) then p else Take(limits, p, v)
  {
  }

  lemma {:induction false} WalkEntriesIsGreedy(s: Setup, st: State, location: seq<string>, dir: Entry,
                                               entries: seq<Entry>)
    requires dir.Directory? && forall e :: e in entries ==> e in dir.entries
    ensures WalkEntries(s, st, location, dir, entries).progress ==
            Greedy(s.limits, st.progress, VisitsIn(s, location, dir, entries))
    decreases dir, 0, |entries|
  {
    if entries != [] && !Full(s.limits, st.progress) {
      var e := entries[0];
      var st' := WalkEntry(s, st, location, dir, e);
      var at, rest := VisitsAt(s, location, dir, e), VisitsIn(s, location, dir, entries[1..]);
      WalkEntriesIsGreedy(s, st', location, dir, entries[1..]);
      GreedyAppend(s.limits, st.progress, at, rest);
      if !Pruned(s, location, e) {
        if e.File? {
          GreedyOne(s.limits, st.progress, Candidate(location + [e.name], e));
        } else {
          WalkIsGreedy(s, st, location + [e.name], e);
        }
      }
    }
  }

  // ---------------------------------------------------------------- budget laws

  function TotalSize(files: seq<TextFile>): nat {
    if files == [] then 0 else TotalSize(files[..|files| - 1]) + files[|files| - 1].size
  }

  ghost predicate WithinBudget(limits: Limits, p: Progress) {
    && |p.files| <= limits.maxFiles
    && p.collectedBytes == TotalSize(p.files) <= limits.maxTotalBytes
    && forall k :: 0 <= k < |p.files| ==> p.files[k].size <= limits.maxFileBytes
  }

  lemma TakeWithinBudget(limits: Limits, p: Progress, v: Visit)
    requires WithinBudget(limits, p) && !Full(limits, p)
    ensures WithinBudget(limits, Take(limits, p, v))
  {
  }

  lemma {:induction false} GreedyWithinBudget(limits: Limits, p: Progress, visits: seq<Visit>)
    requires WithinBudget(limits, p)
    ensures WithinBudget(limits, Greedy(limits, p, visits))
    decreases |visits|
  {
    if visits != [] && !Full(limits, p) {
      TakeWithinBudget(limits, p, visits[0]);
      GreedyWithinBudget(limits, Take(limits, p, visits[0]), visits[1..]);
    }
  }

  /** Main result: no budget is ever exceeded, on any tree and with any failures. */
  lemma CollectionWithinBudget(s: Setup, root: Entry)
    requires root.Directory? || root.LockedDirectory?
    ensures WithinBudget(s.limits, WalkDirectory(s, State(NOTHING, false, false), [], root).progress)
  {
    WalkIsGreedy(s, State(NOTHING, false, false), [], root);
    GreedyWithinBudget(s.limits, NOTHING, Visits(s, [], root));
  }

  lemma {:induction false} GreedyKeepsFront(limits: Limits, p: Progress, visits: seq<Visit>)
    ensures p.files <= Greedy(limits, p, visits).files
    decreases |visits|
  {
    if visits != [] && !Full(limits, p) {
      GreedyKeepsFront(limits, Take(limits, p, visits[0]), visits[1..]);
    }
  }

  lemma {:induction false} GreedyPrefix(few: Limits, many: Limits, p: Progress, visits: seq<Visit>)
    requires few.(maxFiles := many.maxFiles) == many && |p.files| <= few.maxFiles <= many.maxFiles
    ensures var a, b := Greedy(few, p, visits), Greedy(many, p, visits);
      a.files <= b.files && (|a.files| < few.maxFiles ==> a == b)
    decreases |visits|
  {
    if visits != [] && !Full(few, p) {
      GreedyPrefix(few, many, Take(few, p, visits[0]), visits[1..]);
    } else {
      GreedyKeepsFront(many, p, visits);
    }
  }

  /** Main result: with the byte limits fixed, a smaller file limit gives a prefix of what a larger
      one gives, cut at exactly that limit. */
  lemma SmallerFileLimitGivesPrefix(s: Setup, maxFiles: nat, root: Entry)
    requires root.Directory? || root.LockedDirectory?
    requires maxFiles <= s.limits.maxFiles
    ensures var few := s.(limits := s.limits.(maxFiles := maxFiles));
      var a := WalkDirectory(few, State(NOTHING, false, false), [], root).progress.files;
      var b := WalkDirectory(s, State(NOTHING, false, false), [], root).progress.files;
      a == b[..if maxFiles < |b| then maxFiles else |b|]
  {
    var few := s.(limits := s.limits.(maxFiles := maxFiles));
    WalkIsGreedy(few, State(NOTHING, false, false), [], root);
    WalkIsGreedy(s, State(NOTHING, false, false), [], root);
    VisitsIgnoreLimits(s, few, [], root);
    var visits := Visits(s, [], root);
    GreedyPrefix(few.limits, s.limits, NOTHING, visits);
    GreedyWithinBudget(few.limits, NOTHING, visits);
  }

  lemma {:induction false} VisitsIgnoreLimits(s: Setup, t: Setup, location: seq<string>, dir: Entry)
    requires dir.Directory? || dir.LockedDirectory?
    requires t == s.(limits := t.limits)
    ensures Visits(s, location, dir) == Visits(t, location, dir)
    decreases dir, 1, 0
  {
    if dir.Directory? { VisitsInIgnoreLimits(s, t, location, dir, SortByName(dir.entries)); }
  }

  lemma {:induction false} VisitsInIgnoreLimits(s: Setup, t: Setup, location: seq<string>, dir: Entry,
                                                entries: seq<Entry>)
    requires dir.Directory? && forall e :: e in entries ==> e in dir.entries
    requires t == s.(limits := t.limits)
    ensures VisitsIn(s, location, dir, entries) == VisitsIn(t, location, dir, entries)
    decreases dir, 0, |entries|
  {
    if entries != [] {
      assert entries[0] in entries;
      VisitsInIgnoreLimits(s, t, location, dir, entries[1..]);
      if !Pruned(s, location, entries[0]) && !entries[0].File? {
        VisitsIgnoreLimits(s, t, location + [entries[0].name], entries[0]);
      }
    }
  }
}
