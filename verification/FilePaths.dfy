/** A bounded collection said on locations and paths (`src/utils/files.ts`): which files of a tree are
    collected, which are named in a list, and when a budget flag is set, without the walk's own tests. */
module FilePaths {
  import opened FileCollection
  import opened FileCoverage
  import opened Text

  // ---------------------------------------------------------------- looking an entry up

  /** Following the names of `location` from `dir` leads to `e`. */
  predicate StandsAt(dir: Entry, location: seq<string>, e: Entry)
    decreases |location|
  {
    if location == [] then e == dir
    else dir.Directory? && exists c :: c in dir.entries && c.name == location[0] && StandsAt(c, location[1..], e)
  }

  /** The name with slashes only. */
  function Slashed(name: string): string {
    seq(|name|, k requires 0 <= k < |name| => if name[k] == '\\' then '/' else name[k])
  }

  /** The names with slashes between them. */
  function PathOf(location: seq<string>): string {
    if location == [] then ""
    else if |location| == 1 then Slashed(location[0])
    else PathOf(location[..|location| - 1]) + "/" + Slashed(location[|location| - 1])
  }

  lemma {:induction false} JoinLast(location: seq<string>)
    requires |location| >= 2
    ensures Join(location) == Join(location[..|location| - 1]) + ("/" + location[|location| - 1])
  {
    var front, rest, last := location[..|location| - 1], location[1..], location[|location| - 1];
    if |location| > 2 {
      JoinLast(rest);
      assert rest[..|rest| - 1] == front[1..] && rest[|rest| - 1] == last;
      Assoc(location[0] + "/", Join(front[1..]), "/" + last);
    } else {
      assert rest == [last] && front == [location[0]];
      Assoc(location[0], "/", last);
    }
  }

  lemma Assoc(a: string, b: string, c: string)
    ensures a + (b + c) == (a + b) + c
  {
  }

  lemma ToPosixIsSlashed(name: string)
    ensures ToPosix(name) == Slashed(name)
  {
  }

  lemma SlashedAppend(a: string, b: string)
    ensures Slashed(a + b) == Slashed(a) + Slashed(b)
  {
  }

  lemma {:induction false} RelativePathIs(location: seq<string>)
    ensures RelativePath(location) == PathOf(location)
  {
    if |location| >= 2 {
      var front, last := location[..|location| - 1], location[|location| - 1];
      RelativePathIs(front);
      JoinLast(location);
      Assoc(Join(front), "/", last);
      SlashedAppend(Join(front) + "/", last);
      SlashedAppend(Join(front), "/");
      ToPosixIsSlashed(Join(front));
    }
    ToPosixIsSlashed(Join(location));
    assert |location| == 1 ==> Slashed(Join(location)) == PathOf(location);
  }

  // ---------------------------------------------------------------- what is not cut off

  predicate PlainName(name: string) {
    name != ".DS_Store" && !(|name| >= 2 && name[0] == '.' && name[1] == '_')
  }

  predicate Generated(name: string) {
    name in {".git", ".next", ".turbo", "coverage", "dist", "build", "node_modules", "out"}
  }

  /** Below `base`, no name of `location` is skipped and no path along it ignored, and none of the first
      `directories` names, those of directories, is that of a generated directory. */
  ghost predicate KeptBelow(s: Setup, base: seq<string>, location: seq<string>, directories: int) {
    && (forall k :: 0 <= k < |location| ==> PlainName(location[k]))
    && (forall k :: 0 < k <= |location| ==> !s.ignored(PathOf(base + location[..k])))
    && (forall k :: 0 <= k < |location| && k < directories ==> !Generated(location[k]))
  }

  /** A text file that nothing above it and no rule of its own cuts off. */
  ghost predicate KeptFile(s: Setup, location: seq<string>) {
    location != [] && KeptBelow(s, [], location, |location| - 1) && s.text(PathOf(location))
  }

  ghost predicate KeptDirectory(s: Setup, location: seq<string>) {
    KeptBelow(s, [], location, |location|)
  }

  /** The first name, and the rest below it. */
  lemma KeptStep(s: Setup, base: seq<string>, location: seq<string>, directories: int)
    requires location != []
    ensures KeptBelow(s, base, location, directories) <==>
      && PlainName(location[0]) && !s.ignored(PathOf(base + [location[0]]))
      && (directories > 0 ==> !Generated(location[0]))
      && KeptBelow(s, base + [location[0]], location[1..], directories - 1)
  {
    var below, rest := base + [location[0]], location[1..];
    assert location[..1] == [location[0]];
    assert forall k :: 0 <= k <= |rest| ==> base + location[..k + 1] == below + rest[..k];
    if KeptBelow(s, base, location, directories) {
      forall k | 0 < k <= |rest| ensures !s.ignored(PathOf(below + rest[..k])) {
        assert base + location[..k + 1] == below + rest[..k];
      }
    }
    if PlainName(location[0]) && !s.ignored(PathOf(below)) && (directories > 0 ==> !Generated(location[0])) &&
       KeptBelow(s, below, rest, directories - 1)
    {
      forall k | 0 < k <= |location| ensures !s.ignored(PathOf(base + location[..k])) {
        assert base + location[..k] == below + rest[..k - 1];
      }
      forall k | 0 <= k < |location| ensures PlainName(location[k]) && (k < directories ==> !Generated(location[k])) {
        if k > 0 { assert location[k] == rest[k - 1]; }
      }
    }
  }

  lemma PrunedExactlyWhen(s: Setup, base: seq<string>, e: Entry)
    ensures !Pruned(s, base, e) <==>
      && PlainName(e.name) && !s.ignored(PathOf(base + [e.name])) && !e.Special?
      && (e.Directory? || e.LockedDirectory? ==> !Generated(e.name))
      && (e.File? ==> s.text(PathOf(base + [e.name])))
  {
    RelativePathIs(base + [e.name]);
    assert StartsWith(e.name, "._") <==> |e.name| >= 2 && e.name[0] == '.' && e.name[1] == '_' by {
      if |e.name| >= 2 { assert e.name[..2] == [e.name[0], e.name[1]]; }
    }
  }

  /** The file stands below `dir` and nothing on the way cuts it off. */
  ghost predicate FileBelow(s: Setup, base: seq<string>, dir: Entry, location: seq<string>, file: Entry) {
    && location != [] && file.File? && StandsAt(dir, location, file)
    && KeptBelow(s, base, location, |location| - 1) && s.text(PathOf(base + location))
  }

  ghost predicate LockedBelow(s: Setup, base: seq<string>, dir: Entry, location: seq<string>) {
    && KeptBelow(s, base, location, |location|)
    && exists e :: StandsAt(dir, location, e) && e.LockedDirectory?
  }

  lemma Regroup(base: seq<string>, location: seq<string>)
    requires location != []
    ensures base + location == (base + [location[0]]) + location[1..]
  {
  }

  lemma {:induction false} FileReached(s: Setup, base: seq<string>, dir: Entry, location: seq<string>, file: Entry)
    requires (dir.Directory? || dir.LockedDirectory?) && FileBelow(s, base, dir, location, file)
    ensures Reaches(s, base, dir, Candidate(base + location, file))
    decreases |location|
  {
    var c :| c in dir.entries && c.name == location[0] && StandsAt(c, location[1..], file);
    KeptStep(s, base, location, |location| - 1);
    PrunedExactlyWhen(s, base, c);
    Regroup(base, location);
    if |location| == 1 {
      assert location == [c.name] && c == file;
    } else {
      FileReached(s, base + [c.name], c, location[1..], file);
    }
  }

  lemma {:induction false} ReachedFile(s: Setup, base: seq<string>, dir: Entry, v: Visit)
    returns (location: seq<string>)
    requires (dir.Directory? || dir.LockedDirectory?) && Reaches(s, base, dir, v) && v.Candidate?
    ensures v.location == base + location && FileBelow(s, base, dir, location, v.file)
    decreases dir
  {
    var e :| e in dir.entries && !Pruned(s, base, e) &&
             if e.File? then v == Candidate(base + [e.name], e) else Reaches(s, base + [e.name], e, v);
    PrunedExactlyWhen(s, base, e);
    if e.File? {
      location := [e.name];
      FileStandsThere(s, base, dir, e);
    } else {
      var rest := ReachedFile(s, base + [e.name], e, v);
      location := [e.name] + rest;
      FileFurtherUp(s, base, dir, e, rest, v.file);
    }
  }

  lemma FileStandsThere(s: Setup, base: seq<string>, dir: Entry, e: Entry)
    requires dir.Directory? && e in dir.entries && !Pruned(s, base, e) && e.File?
    ensures FileBelow(s, base, dir, [e.name], e)
  {
    var location := [e.name];
    PrunedExactlyWhen(s, base, e);
    assert StandsAt(e, location[1..], e);
    assert base + location[..1] == base + [e.name];
  }

  /** A file below a directory that is not cut off is one below the directory it stands in. */
  lemma FileFurtherUp(s: Setup, base: seq<string>, dir: Entry, e: Entry, rest: seq<string>, file: Entry)
    requires dir.Directory? && e in dir.entries && !Pruned(s, base, e) && !e.File?
    requires FileBelow(s, base + [e.name], e, rest, file)
    ensures FileBelow(s, base, dir, [e.name] + rest, file)
    ensures base + ([e.name] + rest) == (base + [e.name]) + rest
  {
    var location := [e.name] + rest;
    assert location[1..] == rest;
    PrunedExactlyWhen(s, base, e);
    KeptStep(s, base, location, |location| - 1);
    Regroup(base, location);
  }

  lemma {:induction false} LockedReached(s: Setup, base: seq<string>, dir: Entry, location: seq<string>, e: Entry)
    requires dir.Directory? || dir.LockedDirectory?
    requires StandsAt(dir, location, e) && e.LockedDirectory? && KeptBelow(s, base, location, |location|)
    ensures Reaches(s, base, dir, Locked(base + location))
    decreases |location|
  {
    if location == [] {
      assert base + location == base;
    } else {
      var c :| c in dir.entries && c.name == location[0] && StandsAt(c, location[1..], e);
      KeptStep(s, base, location, |location|);
      PrunedExactlyWhen(s, base, c);
      Regroup(base, location);
      LockedReached(s, base + [c.name], c, location[1..], e);
    }
  }

  lemma {:induction false} ReachedLocked(s: Setup, base: seq<string>, dir: Entry, v: Visit)
    returns (location: seq<string>)
    requires (dir.Directory? || dir.LockedDirectory?) && Reaches(s, base, dir, v) && v.Locked?
    ensures v.location == base + location && LockedBelow(s, base, dir, location)
    decreases dir
  {
    if dir.LockedDirectory? {
      location := [];
      assert base + location == base && StandsAt(dir, location, dir);
    } else {
      var e :| e in dir.entries && !Pruned(s, base, e) &&
               if e.File? then v == Candidate(base + [e.name], e) else Reaches(s, base + [e.name], e, v);
      PrunedExactlyWhen(s, base, e);
      var rest := ReachedLocked(s, base + [e.name], e, v);
      location := [e.name] + rest;
      assert location[1..] == rest;
      var x :| StandsAt(e, rest, x) && x.LockedDirectory?;
      assert StandsAt(dir, location, x);
      KeptStep(s, base, location, |location|);
      Regroup(base, location);
    }
  }

  /** Both ways: the files and the locked directories a walk without budgets meets. */
  lemma ReachedExactlyWhen(s: Setup, root: Entry, location: seq<string>, file: Entry)
    requires root.Directory? || root.LockedDirectory?
    ensures Reaches(s, [], root, Candidate(location, file)) <==>
            file.File? && StandsAt(root, location, file) && KeptFile(s, location)
    ensures Reaches(s, [], root, Locked(location)) <==>
            KeptDirectory(s, location) && exists e :: StandsAt(root, location, e) && e.LockedDirectory?
  {
    FileReachedExactlyWhen(s, root, location, file);
    LockedReachedExactlyWhen(s, root, location);
  }

  lemma FileReachedExactlyWhen(s: Setup, root: Entry, location: seq<string>, file: Entry)
    requires root.Directory? || root.LockedDirectory?
    ensures Reaches(s, [], root, Candidate(location, file)) <==>
            file.File? && StandsAt(root, location, file) && KeptFile(s, location)
  {
    assert [] + location == location;
    if Reaches(s, [], root, Candidate(location, file)) {
      var l := ReachedFile(s, [], root, Candidate(location, file));
      assert [] + l == l;
    }
    if file.File? && StandsAt(root, location, file) && KeptFile(s, location) {
      FileReached(s, [], root, location, file);
    }
  }

  lemma LockedReachedExactlyWhen(s: Setup, root: Entry, location: seq<string>)
    requires root.Directory? || root.LockedDirectory?
    ensures Reaches(s, [], root, Locked(location)) <==>
            KeptDirectory(s, location) && exists e :: StandsAt(root, location, e) && e.LockedDirectory?
  {
    assert [] + location == location;
    if Reaches(s, [], root, Locked(location)) {
      var l := ReachedLocked(s, [], root, Locked(location));
      assert [] + l == l;
    }
    if KeptDirectory(s, location) {
      if e :| StandsAt(root, location, e) && e.LockedDirectory? { LockedReached(s, [], root, location, e); }
    }
  }

  // ---------------------------------------------------------------- what is collected

  function Collection(s: Setup, root: Entry): State
    requires root.Directory? || root.LockedDirectory?
  {
    WalkDirectory(s, State(NOTHING, false, false), [], root)
  }

  lemma {:induction false} GreedyCopies(limits: Limits, p: Progress, visits: seq<Visit>, f: TextFile)
    requires f in Greedy(limits, p, visits).files
    ensures f in p.files || exists v :: v in visits && v.Candidate? && Readable(v.file) && f == Copy(v.location, v.file)
    decreases |visits|
  {
    if visits != [] && !Full(limits, p) {
      var v := visits[0];
      GreedyCopies(limits, Take(limits, p, v), visits[1..], f);
      assert visits == [v] + visits[1..];
      if f !in p.files && f in Take(limits, p, v).files {
        assert v in visits && v.Candidate? && Readable(v.file) && f == Copy(v.location, v.file);
      }
    }
  }

  /** Main result: whatever the budgets and whatever fails, each file collected stands in the tree with the
      size and the content collected, is small enough, and nothing cuts it off: its path is that of a text
      file, neither it nor any directory above it is ignored or has a skipped name, and no directory above it
      is a generated one. */
  lemma CollectedIsKept(s: Setup, root: Entry, f: TextFile)
    requires (root.Directory? || root.LockedDirectory?) && f in Collection(s, root).progress.files
    ensures KeptFile(s, f.location) && f.size <= s.limits.maxFileBytes
    ensures exists file: Entry :: file.File? && StandsAt(root, f.location, file)
                                  && file.size == Some(f.size) && file.content == Some(f.content)
  {
    var v := CollectedFrom(s, root, f);
    VisitsAreReached(s, [], root, v);
    FileReachedExactlyWhen(s, root, v.location, v.file);
    CollectionWithinBudget(s, root);
    var k :| 0 <= k < |Collection(s, root).progress.files| && Collection(s, root).progress.files[k] == f;
  }

  lemma CollectedFrom(s: Setup, root: Entry, f: TextFile) returns (v: Visit)
    requires (root.Directory? || root.LockedDirectory?) && f in Collection(s, root).progress.files
    ensures v in Visits(s, [], root) && v.Candidate? && Readable(v.file) && f == Copy(v.location, v.file)
  {
    WalkIsGreedy(s, State(NOTHING, false, false), [], root);
    GreedyCopies(s.limits, NOTHING, Visits(s, [], root), f);
    v :| v in Visits(s, [], root) && v.Candidate? && Readable(v.file) && f == Copy(v.location, v.file);
  }

  /** Main result: if no diagnostic is set, every text file of the tree that nothing cuts off is collected,
      with its content, and every directory that nothing cuts off could be read. */
  lemma CleanCollectsEveryKeptFile(s: Setup, root: Entry, location: seq<string>, e: Entry)
    requires (root.Directory? || root.LockedDirectory?) && Clean(Collection(s, root)) && StandsAt(root, location, e)
    ensures e.File? && KeptFile(s, location) ==> Readable(e) && Copy(location, e) in Collection(s, root).progress.files
    ensures KeptDirectory(s, location) ==> !e.LockedDirectory?
  {
    NoSilentLoss(s, root);
    ReachedExactlyWhen(s, root, location, e);
    if e.File? && KeptFile(s, location) {
      assert Reaches(s, [], root, Candidate(location, e));
    }
  }

  // ---------------------------------------------------------------- what is reported

  /** Where the file must turn up when the walk was not cut short: in exactly one place. */
  predicate TurnsUp(limits: Limits, p: Progress, location: seq<string>, file: Entry)
    requires file.File?
  {
    if file.size.None? then PathOf(location) in p.unreadableFiles
    else if file.size.value > limits.maxFileBytes then PathOf(location) in p.skippedLargeFiles
    else if file.content.None? then PathOf(location) in p.unreadableFiles
    else TextFile(location, file.size.value, file.content.value) in p.files
  }

  predicate TurnsUpAsMet(limits: Limits, p: Progress, v: Visit) {
    if v.Candidate? && v.file.File? then TurnsUp(limits, p, v.location, v.file)
    else (if PathOf(v.location) == "" then "." else PathOf(v.location)) in p.unreadableDirectories
  }

  lemma TakenTurnsUp(limits: Limits, p: Progress, v: Visit)
    requires !Blocked(limits, p, v)
    ensures TurnsUpAsMet(limits, Take(limits, p, v), v)
  {
    RelativePathIs(v.location);
  }

  lemma {:induction false} UnstoppedTurnsUp(limits: Limits, p: Progress, visits: seq<Visit>, v: Visit)
    requires Unstopped(limits, p, visits) && v in visits
    ensures TurnsUpAsMet(limits, Greedy(limits, p, visits), v)
    decreases |visits|
  {
    var q := Take(limits, p, visits[0]);
    GreedyGrows(limits, q, visits[1..]);
    if v == visits[0] {
      TakenTurnsUp(limits, p, v);
    } else {
      assert visits == [visits[0]] + visits[1..];
      UnstoppedTurnsUp(limits, q, visits[1..], v);
    }
  }

  /** Main result: if neither budget flag is set, every text file that nothing cuts off is collected or named
      in the list that says why not, and every directory that could not be read is named. */
  lemma EveryKeptFileTurnsUp(s: Setup, root: Entry, location: seq<string>, e: Entry)
    requires (root.Directory? || root.LockedDirectory?) && !Flagged(Collection(s, root)) && StandsAt(root, location, e)
    ensures e.File? && KeptFile(s, location) ==> TurnsUp(s.limits, Collection(s, root).progress, location, e)
    ensures e.LockedDirectory? && KeptDirectory(s, location) ==>
              (if PathOf(location) == "" then "." else PathOf(location))
              in Collection(s, root).progress.unreadableDirectories
  {
    var start := State(NOTHING, false, false);
    UnflaggedIsUnstopped(s, start, [], root);
    WalkIsGreedy(s, start, [], root);
    ReachedExactlyWhen(s, root, location, e);
    if e.File? && KeptFile(s, location) {
      VisitsAreReached(s, [], root, Candidate(location, e));
      UnstoppedTurnsUp(s.limits, NOTHING, Visits(s, [], root), Candidate(location, e));
    }
    if e.LockedDirectory? && KeptDirectory(s, location) {
      VisitsAreReached(s, [], root, Locked(location));
      UnstoppedTurnsUp(s.limits, NOTHING, Visits(s, [], root), Locked(location));
    }
  }

  /** The name stands in a list for this visit, and rightly so. */
  ghost predicate NamesUnreadable(limits: Limits, v: Visit, name: string) {
    v.Candidate? && v.file.File? && name == PathOf(v.location) &&
    (v.file.size.None? || (v.file.size.value <= limits.maxFileBytes && v.file.content.None?))
  }

  ghost predicate NamesLarge(limits: Limits, v: Visit, name: string) {
    v.Candidate? && v.file.File? && name == PathOf(v.location) && v.file.size.Some? &&
    v.file.size.value > limits.maxFileBytes
  }

  /** The file would not have fitted even in the end. */
  ghost predicate NamesOverBudget(limits: Limits, p: Progress, v: Visit, name: string) {
    v.Candidate? && v.file.File? && name == PathOf(v.location) && v.file.size.Some? &&
    v.file.size.value <= limits.maxFileBytes && p.collectedBytes + v.file.size.value > limits.maxTotalBytes
  }

  ghost predicate NamesLocked(v: Visit, name: string) {
    v.Locked? && name == if PathOf(v.location) == "" then "." else PathOf(v.location)
  }

  ghost predicate Distinct(names: seq<string>) {
    forall i, j :: 0 <= i < j < |names| ==> names[i] != names[j]
  }

  /** Every name in a list is there once, and for one of the visits. */
  ghost predicate ListsAreTrue(limits: Limits, p: Progress, visits: seq<Visit>) {
    && (forall name <- p.unreadableFiles :: exists v <- visits :: NamesUnreadable(limits, v, name))
    && (forall name <- p.skippedLargeFiles :: exists v <- visits :: NamesLarge(limits, v, name))
    && (forall name <- p.skippedBudgetFiles :: exists v <- visits :: NamesOverBudget(limits, p, v, name))
    && (forall name <- p.unreadableDirectories :: exists v <- visits :: NamesLocked(v, name))
    && Distinct(p.unreadableFiles) && Distinct(p.skippedLargeFiles)
    && Distinct(p.skippedBudgetFiles) && Distinct(p.unreadableDirectories)
  }

  lemma TakeKeepsListsTrue(limits: Limits, p: Progress, visits: seq<Visit>, v: Visit)
    requires ListsAreTrue(limits, p, visits) && v in visits && (v.Candidate? ==> v.file.File?)
    ensures ListsAreTrue(limits, Take(limits, p, v), visits)
  {
    RelativePathIs(v.location);
    BudgetListStaysTrue(limits, p, visits, v);
  }

  lemma BudgetListStaysTrue(limits: Limits, p: Progress, visits: seq<Visit>, v: Visit)
    requires v in visits && (v.Candidate? ==> v.file.File?)
    requires forall name <- p.skippedBudgetFiles :: exists u <- visits :: NamesOverBudget(limits, p, u, name)
    ensures var q := Take(limits, p, v);
      forall name <- q.skippedBudgetFiles :: exists u <- visits :: NamesOverBudget(limits, q, u, name)
  {
    RelativePathIs(v.location);
    var q := Take(limits, p, v);
    forall name <- q.skippedBudgetFiles ensures exists u <- visits :: NamesOverBudget(limits, q, u, name) {
      if name in p.skippedBudgetFiles {
        var u :| u in visits && NamesOverBudget(limits, p, u, name);
        assert NamesOverBudget(limits, q, u, name);
      } else {
        assert NamesOverBudget(limits, q, v, name);
      }
    }
  }

  lemma {:induction false} GreedyKeepsListsTrue(limits: Limits, p: Progress, visits: seq<Visit>, all: seq<Visit>)
    requires ListsAreTrue(limits, p, all)
    requires forall v :: v in visits ==> v in all && (v.Candidate? ==> v.file.File?)
    ensures ListsAreTrue(limits, Greedy(limits, p, visits), all)
    decreases |visits|
  {
    if visits != [] && !Full(limits, p) {
      TakeKeepsListsTrue(limits, p, all, visits[0]);
      GreedyKeepsListsTrue(limits, Take(limits, p, visits[0]), visits[1..], all);
    }
  }

  /** A kept file stands at this path. */
  ghost predicate KeptFileAt(s: Setup, root: Entry, name: string, file: Entry) {
    file.File? && exists location :: PathOf(location) == name && StandsAt(root, location, file) && KeptFile(s, location)
  }

  ghost predicate IsUnreadable(s: Setup, root: Entry, name: string) {
    exists file: Entry :: KeptFileAt(s, root, name, file) &&
      (file.size.None? || (file.size.value <= s.limits.maxFileBytes && file.content.None?))
  }

  ghost predicate IsLarge(s: Setup, root: Entry, name: string) {
    exists file: Entry :: KeptFileAt(s, root, name, file) && file.size.Some? && file.size.value > s.limits.maxFileBytes
  }

  /** Small enough for one file, but too large for what the collection left of the total. */
  ghost predicate IsOverBudget(s: Setup, root: Entry, name: string, collectedBytes: nat) {
    exists file: Entry :: KeptFileAt(s, root, name, file) && file.size.Some? &&
      file.size.value <= s.limits.maxFileBytes && collectedBytes + file.size.value > s.limits.maxTotalBytes
  }

  ghost predicate IsLocked(s: Setup, root: Entry, name: string) {
    exists location, e :: StandsAt(root, location, e) && e.LockedDirectory? && KeptDirectory(s, location) &&
      name == if PathOf(location) == "" then "." else PathOf(location)
  }

  lemma MetIsKept(s: Setup, root: Entry, v: Visit)
    requires (root.Directory? || root.LockedDirectory?) && v in Visits(s, [], root)
    ensures v.Candidate? ==> v.file.File? && KeptFileAt(s, root, PathOf(v.location), v.file)
    ensures v.Locked? ==> IsLocked(s, root, if PathOf(v.location) == "" then "." else PathOf(v.location))
  {
    VisitsAreReached(s, [], root, v);
    ReachedExactlyWhen(s, root, v.location, if v.Candidate? then v.file else root);
  }

  lemma ListsAreTrueOfVisits(s: Setup, root: Entry)
    requires root.Directory? || root.LockedDirectory?
    ensures ListsAreTrue(s.limits, Collection(s, root).progress, Visits(s, [], root))
  {
    var visits := Visits(s, [], root);
    WalkIsGreedy(s, State(NOTHING, false, false), [], root);
    forall v | v in visits ensures v.Candidate? ==> v.file.File? { MetIsKept(s, root, v); }
    GreedyKeepsListsTrue(s.limits, NOTHING, visits, visits);
  }

  /** Main result: the lists are true. A file named as unreadable, as too large or as over budget stands in the
      tree, nothing cuts it off, and it is that; so is a directory named as unreadable. */
  lemma ListedIsTrue(s: Setup, root: Entry, name: string)
    requires root.Directory? || root.LockedDirectory?
    ensures var p := Collection(s, root).progress;
      && (name in p.unreadableFiles ==> IsUnreadable(s, root, name))
      && (name in p.skippedLargeFiles ==> IsLarge(s, root, name))
      && (name in p.skippedBudgetFiles ==> IsOverBudget(s, root, name, p.collectedBytes))
      && (name in p.unreadableDirectories ==> IsLocked(s, root, name))
  {
    if name in Collection(s, root).progress.unreadableFiles { UnreadableIsTrue(s, root, name); }
    if name in Collection(s, root).progress.skippedLargeFiles { LargeIsTrue(s, root, name); }
    if name in Collection(s, root).progress.skippedBudgetFiles { OverBudgetIsTrue(s, root, name); }
    if name in Collection(s, root).progress.unreadableDirectories { LockedIsTrue(s, root, name); }
  }

  lemma UnreadableIsTrue(s: Setup, root: Entry, name: string)
    requires (root.Directory? || root.LockedDirectory?) && name in Collection(s, root).progress.unreadableFiles
    ensures IsUnreadable(s, root, name)
  {
    ListsAreTrueOfVisits(s, root);
    var v :| v in Visits(s, [], root) && NamesUnreadable(s.limits, v, name);
    MetIsKept(s, root, v);
  }

  lemma LargeIsTrue(s: Setup, root: Entry, name: string)
    requires (root.Directory? || root.LockedDirectory?) && name in Collection(s, root).progress.skippedLargeFiles
    ensures IsLarge(s, root, name)
  {
    ListsAreTrueOfVisits(s, root);
    var v :| v in Visits(s, [], root) && NamesLarge(s.limits, v, name);
    MetIsKept(s, root, v);
  }

  lemma OverBudgetIsTrue(s: Setup, root: Entry, name: string)
    requires (root.Directory? || root.LockedDirectory?) && name in Collection(s, root).progress.skippedBudgetFiles
    ensures IsOverBudget(s, root, name, Collection(s, root).progress.collectedBytes)
  {
    ListsAreTrueOfVisits(s, root);
    var v :| v in Visits(s, [], root) && NamesOverBudget(s.limits, Collection(s, root).progress, v, name);
    MetIsKept(s, root, v);
  }

  lemma LockedIsTrue(s: Setup, root: Entry, name: string)
    requires (root.Directory? || root.LockedDirectory?) && name in Collection(s, root).progress.unreadableDirectories
    ensures IsLocked(s, root, name)
  {
    ListsAreTrueOfVisits(s, root);
    var v :| v in Visits(s, [], root) && NamesLocked(v, name);
    MetIsKept(s, root, v);
  }

  /** ... and no name is listed twice. */
  lemma ListedOnce(s: Setup, root: Entry)
    requires root.Directory? || root.LockedDirectory?
    ensures var p := Collection(s, root).progress;
      && Distinct(p.unreadableFiles) && Distinct(p.skippedLargeFiles)
      && Distinct(p.skippedBudgetFiles) && Distinct(p.unreadableDirectories)
  {
    ListsAreTrueOfVisits(s, root);
  }

  // ---------------------------------------------------------------- budget flags

  /** A flag is set for its own budget only. */
  predicate FlagsAreTrue(limits: Limits, st: State) {
    && (st.maxFilesReached ==> |st.progress.files| >= limits.maxFiles)
    && (st.maxTotalBytesReached ==>
          st.progress.collectedBytes >= limits.maxTotalBytes || st.progress.skippedBudgetFiles != [])
  }

  lemma {:induction false} WalkKeepsFlagsTrue(s: Setup, st: State, location: seq<string>, dir: Entry)
    requires (dir.Directory? || dir.LockedDirectory?) && FlagsAreTrue(s.limits, st)
    ensures FlagsAreTrue(s.limits, WalkDirectory(s, st, location, dir))
    decreases dir, 1, 0
  {
    if dir.Directory? && !Full(s.limits, st.progress) {
      WalkEntriesKeepsFlagsTrue(s, st, location, dir, SortByName(dir.entries));
    }
  }

  lemma {:induction false} WalkEntriesKeepsFlagsTrue(s: Setup, st: State, location: seq<string>, dir: Entry,
                                                     entries: seq<Entry>)
    requires dir.Directory? && FlagsAreTrue(s.limits, st) && forall e :: e in entries ==> e in dir.entries
    ensures FlagsAreTrue(s.limits, WalkEntries(s, st, location, dir, entries))
    decreases dir, 0, |entries|
  {
    if entries != [] && !Full(s.limits, st.progress) {
      assert entries[0] in entries;
      if !Pruned(s, location, entries[0]) && !entries[0].File? {
        WalkKeepsFlagsTrue(s, st, location + [entries[0].name], entries[0]);
      }
      WalkEntriesKeepsFlagsTrue(s, WalkEntry(s, st, location, dir, entries[0]), location, dir, entries[1..]);
    }
  }

  /** Main result: each flag says what it says. The file flag is set only with as many files as allowed, the
      byte flag only with as many bytes as allowed or a file turned away. */
  lemma FlagsSayWhy(s: Setup, root: Entry)
    requires root.Directory? || root.LockedDirectory?
    ensures var st := Collection(s, root);
      && (st.maxFilesReached ==> |st.progress.files| == s.limits.maxFiles)
      && (st.maxTotalBytesReached ==>
            st.progress.collectedBytes == s.limits.maxTotalBytes || st.progress.skippedBudgetFiles != [])
  {
    WalkKeepsFlagsTrue(s, State(NOTHING, false, false), [], root);
    CollectionWithinBudget(s, root);
  }

  // ---------------------------------------------------------------- when everything fits

  /** The sizes of the visits, as far as they are known. */
  function SizeOf(visits: seq<Visit>): nat {
    if visits == [] then 0
    else SizeOf(visits[..|visits| - 1]) +
         var v := visits[|visits| - 1];
         if v.Candidate? && v.file.File? && v.file.size.Some? then v.file.size.value else 0
  }

  /** Before the `k`th visit both budgets have room, and its file is readable, small enough and fits. */
  predicate FitsAt(limits: Limits, visits: seq<Visit>, k: nat)
    requires k < |visits|
  {
    && visits[k].Candidate? && Readable(visits[k].file) && visits[k].file.size.value <= limits.maxFileBytes
    && k < limits.maxFiles && SizeOf(visits[..k]) < limits.maxTotalBytes
    && SizeOf(visits[..k + 1]) <= limits.maxTotalBytes
  }

  /** After `k` visits everything met so far is collected. */
  ghost predicate CollectedSoFar(visits: seq<Visit>, p: Progress, k: nat)
    requires k <= |visits|
  {
    Collects(visits[..k], p.files) && p.collectedBytes == SizeOf(visits[..k])
  }

  lemma OneMoreCollected(limits: Limits, visits: seq<Visit>, p: Progress, k: nat)
    requires k < |visits| && CollectedSoFar(visits, p, k) && !Full(limits, p)
    requires visits[k].Candidate? ==> visits[k].file.File?
    ensures FitsAt(limits, visits, k) <==> |Take(limits, p, visits[k]).files| == k + 1
    ensures FitsAt(limits, visits, k) ==> CollectedSoFar(visits, Take(limits, p, visits[k]), k + 1)
  {
    assert visits[..k + 1][..k] == visits[..k] && visits[..k + 1][k] == visits[k];
    if FitsAt(limits, visits, k) {
      var q := Take(limits, p, visits[k]);
      forall i | 0 <= i < k + 1
        ensures visits[..k + 1][i].Candidate? && Readable(visits[..k + 1][i].file)
        ensures q.files[i] == Copy(visits[..k + 1][i].location, visits[..k + 1][i].file)
      {
        if i < k { assert visits[..k][i] == visits[..k + 1][i]; }
      }
    }
  }

  lemma {:induction false} GreedyAddsAtMost(limits: Limits, p: Progress, visits: seq<Visit>)
    ensures |Greedy(limits, p, visits).files| <= |p.files| + |visits|
    decreases |visits|
  {
    if visits != [] && !Full(limits, p) { GreedyAddsAtMost(limits, Take(limits, p, visits[0]), visits[1..]); }
  }

  lemma {:induction false} CollectsFrom(limits: Limits, visits: seq<Visit>, p: Progress, k: nat)
    requires k <= |visits| && CollectedSoFar(visits, p, k) && forall v <- visits :: v.Candidate? ==> v.file.File?
    ensures Collects(visits, Greedy(limits, p, visits[k..]).files) <==>
            forall i :: k <= i < |visits| ==> FitsAt(limits, visits, i)
    decreases |visits| - k
  {
    if k == |visits| {
      assert visits[..k] == visits;
    } else if !Full(limits, p) {
      assert visits[k] in visits && visits[k..][1..] == visits[k + 1..];
      OneMoreCollected(limits, visits, p, k);
      if FitsAt(limits, visits, k) {
        CollectsFrom(limits, visits, Take(limits, p, visits[k]), k + 1);
      } else {
        GreedyAddsAtMost(limits, Take(limits, p, visits[k]), visits[k + 1..]);
      }
    } else {
      assert !FitsAt(limits, visits, k);
    }
  }

  /** Main result, both ways: everything a walk without budgets meets is collected, in its order, exactly if
      each file is readable and within the limit for one file, and the file count and the bytes taken before
      it leave room for it; the last file may use a budget up to its last byte. */
  lemma EverythingFitsExactlyWhen(s: Setup, root: Entry)
    requires root.Directory? || root.LockedDirectory?
    ensures var visits := Visits(s, [], root);
      Collects(visits, Collection(s, root).progress.files) <==>
        forall k :: 0 <= k < |visits| ==> FitsAt(s.limits, visits, k)
  {
    var visits := Visits(s, [], root);
    WalkIsGreedy(s, State(NOTHING, false, false), [], root);
    forall v <- visits ensures v.Candidate? ==> v.file.File? {
      if v.Candidate? {
        VisitsAreReached(s, [], root, v);
        ReachedExactlyWhen(s, root, v.location, v.file);
      }
    }
    CollectsFrom(s.limits, visits, NOTHING, 0);
    assert visits[0..] == visits;
  }
}
