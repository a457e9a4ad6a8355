/** What a bounded collection leaves out (`src/utils/files.ts`): everything left out is reported, without
    a report nothing is left out, and the files come in depth-first order. */
module FileCoverage {
  import opened FileCollection
  import opened Text

  // ---------------------------------------------------------------- nothing is lost silently

  predicate Blocked(limits: Limits, p: Progress, v: Visit) {
    Full(limits, p) || (v.Candidate? && v.file.File? && v.file.size.Some? && OverBudget(limits, p, v.file.size.value))
  }

  /** The greedy pass got to the end and no budget turned a file away. */
  predicate Unstopped(limits: Limits, p: Progress, visits: seq<Visit>)
    decreases |visits|
  {
    visits == [] || (!Blocked(limits, p, visits[0]) && Unstopped(limits, Take(limits, p, visits[0]), visits[1..]))
  }

  lemma {:induction false} UnstoppedAppend(limits: Limits, p: Progress, a: seq<Visit>, b: seq<Visit>)
    requires Unstopped(limits, p, a) && Unstopped(limits, Greedy(limits, p, a), b)
    ensures Unstopped(limits, p, a + b)
    decreases |a|
  {
    if a == [] {
      assert a + b == b;
    } else {
      var v, rest := a[0], a[1..];
      UnstoppedAppend(limits, Take(limits, p, v), rest, b);
      UnstoppedFirst(limits, p, v, rest + b);
      assert a + b == [v] + (rest + b);
    }
  }

  lemma UnstoppedFirst(limits: Limits, p: Progress, v: Visit, rest: seq<Visit>)
    requires !Blocked(limits, p, v) && Unstopped(limits, Take(limits, p, v), rest)
    ensures Unstopped(limits, p, [v] + rest)
  {
    assert ([v] + rest)[1..] == rest;
  }

  predicate Flagged(st: State) { st.maxFilesReached || st.maxTotalBytesReached }

  lemma {:induction false} WalkKeepsFlags(s: Setup, st: State, location: seq<string>, dir: Entry)
    requires dir.Directory? || dir.LockedDirectory?
    ensures Flagged(st) ==> Flagged(WalkDirectory(s, st, location, dir))
    decreases dir, 1, 0
  {
    if dir.Directory? && !Full(s.limits, st.progress) {
      WalkEntriesKeepsFlags(s, st, location, dir, SortByName(dir.entries));
    }
  }

  lemma {:induction false} WalkEntriesKeepsFlags(s: Setup, st: State, location: seq<string>, dir: Entry,
                                                 entries: seq<Entry>)
    requires dir.Directory? && forall e :: e in entries ==> e in dir.entries
    ensures Flagged(st) ==> Flagged(WalkEntries(s, st, location, dir, entries))
    decreases dir, 0, |entries|
  {
    if entries != [] && !Full(s.limits, st.progress) {
      assert entries[0] in entries;
      if !Pruned(s, location, entries[0]) && !entries[0].File? {
        WalkKeepsFlags(s, st, location + [entries[0].name], entries[0]);
      }
      WalkEntriesKeepsFlags(s, WalkEntry(s, st, location, dir, entries[0]), location, dir, entries[1..]);
    }
  }

  /** If the walk leaves both flags down, the greedy pass was never stopped. */
  lemma {:induction false} UnflaggedIsUnstopped(s: Setup, st: State, location: seq<string>, dir: Entry)
    requires dir.Directory? || dir.LockedDirectory?
    requires !Flagged(WalkDirectory(s, st, location, dir))
    ensures Unstopped(s.limits, st.progress, Visits(s, location, dir))
    decreases dir, 1, 0
  {
    if dir.LockedDirectory? {
      assert [Locked(location)][1..] == [];
    } else {
      UnflaggedEntriesUnstopped(s, st, location, dir, SortByName(dir.entries));
    }
  }

  lemma {:induction false} UnflaggedEntriesUnstopped(s: Setup, st: State, location: seq<string>, dir: Entry,
                                                     entries: seq<Entry>)
    requires dir.Directory? && forall e :: e in entries ==> e in dir.entries
    requires !Flagged(WalkEntries(s, st, location, dir, entries))
    ensures Unstopped(s.limits, st.progress, VisitsIn(s, location, dir, entries))
    decreases dir, 0, |entries|
  {
    if entries != [] {
      assert entries[0] in entries;
      var e := entries[0];
      var st' := WalkEntry(s, st, location, dir, e);
      WalkEntriesKeepsFlags(s, st', location, dir, entries[1..]);
      UnflaggedEntriesUnstopped(s, st', location, dir, entries[1..]);
      UnflaggedEntryUnstopped(s, st, location, dir, e);
      UnstoppedAppend(s.limits, st.progress, VisitsAt(s, location, dir, e), VisitsIn(s, location, dir, entries[1..]));
    }
  }

  lemma {:induction false} UnflaggedEntryUnstopped(s: Setup, st: State, location: seq<string>, dir: Entry, e: Entry)
    requires dir.Directory? && e in dir.entries && !Full(s.limits, st.progress)
    requires !Flagged(WalkEntry(s, st, location, dir, e))
    ensures Unstopped(s.limits, st.progress, VisitsAt(s, location, dir, e))
    ensures WalkEntry(s, st, location, dir, e).progress == Greedy(s.limits, st.progress, VisitsAt(s, location, dir, e))
    decreases dir, 0, 0
  {
    if !Pruned(s, location, e) {
      if e.File? {
        assert [Candidate(location + [e.name], e)][1..] == [];
        GreedyOne(s.limits, st.progress, Candidate(location + [e.name], e));
      } else {
        WalkIsGreedy(s, st, location + [e.name], e);
        UnflaggedIsUnstopped(s, st, location + [e.name], e);
      }
    }
  }

  predicate Readable(file: Entry) {
    file.File? && file.size.Some? && file.content.Some?
  }

  function Copy(location: seq<string>, file: Entry): TextFile
    requires Readable(file)
  {
    TextFile(location, file.size.value, file.content.value)
  }

  /** What became of `v`: collected with its content, or named in the list that says why not. */
  predicate Accounted(limits: Limits, p: Progress, v: Visit) {
    if v.Locked? then RelativeCollectionPath(v.location) in p.unreadableDirectories
    else
      || (Readable(v.file) && v.file.size.value <= limits.maxFileBytes && Copy(v.location, v.file) in p.files)
      || (v.file.File? && !Readable(v.file) && RelativePath(v.location) in p.unreadableFiles)
      || (v.file.File? && v.file.size.Some? && v.file.size.value > limits.maxFileBytes &&
        RelativePath(v.location) in p.skippedLargeFiles)
      || (!v.file.File? && RelativeCollectionPath(v.location) in p.unreadableDirectories)
  }

  /** Nothing is taken back. */
  ghost predicate Grows(p: Progress, q: Progress) {
    && p.files <= q.files
    && p.unreadableFiles <= q.unreadableFiles
    && p.unreadableDirectories <= q.unreadableDirectories
    && p.skippedLargeFiles <= q.skippedLargeFiles
    && p.skippedBudgetFiles <= q.skippedBudgetFiles
  }

  lemma {:induction false} GreedyGrows(limits: Limits, p: Progress, visits: seq<Visit>)
    ensures Grows(p, Greedy(limits, p, visits))
    decreases |visits|
  {
    if visits != [] && !Full(limits, p) {
      GreedyGrows(limits, Take(limits, p, visits[0]), visits[1..]);
    }
  }

  lemma {:induction false} UnstoppedAccounts(limits: Limits, p: Progress, visits: seq<Visit>)
    requires Unstopped(limits, p, visits)
    ensures forall v :: v in visits ==> Accounted(limits, Greedy(limits, p, visits), v)
    decreases |visits|
  {
    if visits != [] {
      var q := Take(limits, p, visits[0]);
      UnstoppedAccounts(limits, q, visits[1..]);
      GreedyGrows(limits, q, visits[1..]);
      assert Accounted(limits, q, visits[0]);
      assert visits == [visits[0]] + visits[1..];
    }
  }

  /** Main result: whatever a collection leaves out is accounted for. If neither budget flag is set,
      every file and every locked directory the pruning rules let through was collected, with its
      content, or is named in a list. */
  lemma EveryLossIsReported(s: Setup, root: Entry, v: Visit)
    requires root.Directory? || root.LockedDirectory?
    requires Reaches(s, [], root, v)
    ensures var st := WalkDirectory(s, State(NOTHING, false, false), [], root);
      Flagged(st) || Accounted(s.limits, st.progress, v)
  {
    var start := State(NOTHING, false, false);
    var st := WalkDirectory(s, start, [], root);
    if !Flagged(st) {
      UnflaggedIsUnstopped(s, start, [], root);
      WalkIsGreedy(s, start, [], root);
      UnstoppedAccounts(s.limits, NOTHING, Visits(s, [], root));
      VisitsAreReached(s, [], root, v);
    }
  }

  /** No coverage diagnostic is set. */
  predicate Clean(st: State) {
    && !Flagged(st)
    && st.progress.unreadableFiles == st.progress.unreadableDirectories == []
    && st.progress.skippedLargeFiles == st.progress.skippedBudgetFiles == []
  }

  ghost predicate Collects(visits: seq<Visit>, files: seq<TextFile>) {
    && |files| == |visits|
    && forall k :: 0 <= k < |visits| ==>
         visits[k].Candidate? && Readable(visits[k].file) && files[k] == Copy(visits[k].location, visits[k].file)
  }

  predicate EmptyLists(p: Progress) {
    p.unreadableFiles == p.unreadableDirectories == p.skippedLargeFiles == p.skippedBudgetFiles == []
  }

  lemma TailAfter<T>(front: seq<T>, x: T, all: seq<T>)
    requires front + [x] <= all
    ensures all[|front|..] == [x] + all[|front| + 1..]
  {
    assert all[|front|] == (front + [x])[|front|];
  }

  lemma {:induction false} UnstoppedCollects(limits: Limits, p: Progress, visits: seq<Visit>)
    requires Unstopped(limits, p, visits) && EmptyLists(Greedy(limits, p, visits))
    ensures p.files <= Greedy(limits, p, visits).files
    ensures Collects(visits, Greedy(limits, p, visits).files[|p.files|..])
    decreases |visits|
  {
    if visits != [] {
      var q := Take(limits, p, visits[0]);
      GreedyGrows(limits, p, visits);
      GreedyGrows(limits, q, visits[1..]);
      UnstoppedCollects(limits, q, visits[1..]);
      var v := visits[0];
      assert EmptyLists(q) && EmptyLists(p);
      assert v.Candidate? && Readable(v.file) && q.files == p.files + [Copy(v.location, v.file)];
      var r := Greedy(limits, p, visits);
      TailAfter(p.files, Copy(v.location, v.file), r.files);
    }
  }

  // ---------------------------------------------------------------- order

  /** Component by component: the order a depth-first walk over sorted listings follows. */
  predicate LocationLess(a: seq<string>, b: seq<string>) {
    b != [] && (a == [] || Less(a[0], b[0]) || (a[0] == b[0] && LocationLess(a[1..], b[1..])))
  }

  ghost predicate Ascends(locations: seq<seq<string>>) {
    forall i, j :: 0 <= i < j < |locations| ==> LocationLess(locations[i], locations[j])
  }

  /** A directory has no two entries of one name. */
  predicate Tidy(dir: Entry) {
    dir.Directory? ==>
      && (forall i, j :: 0 <= i < j < |dir.entries| ==> dir.entries[i].name != dir.entries[j].name)
      && (forall e :: e in dir.entries ==> Tidy(e))
  }

  function Locations(visits: seq<Visit>): (r: seq<seq<string>>)
    ensures |r| == |visits| && forall k :: 0 <= k < |visits| ==> r[k] == visits[k].location
  {
    seq(|visits|, k requires 0 <= k < |visits| => visits[k].location)
  }

  ghost predicate Under(location: seq<string>, visits: seq<Visit>) {
    forall v :: v in visits ==> location <= v.location
  }

  lemma {:induction false} BelowCommon(common: seq<string>, a: seq<string>, b: seq<string>)
    requires |a| > |common| && |b| > |common| && common <= a && common <= b && Less(a[|common|], b[|common|])
    ensures LocationLess(a, b)
  {
    if common != [] {
      BelowCommon(common[1..], a[1..], b[1..]);
    }
  }

  lemma {:induction false} VisitsUnder(s: Setup, location: seq<string>, dir: Entry)
    requires dir.Directory? || dir.LockedDirectory?
    ensures Under(location, Visits(s, location, dir))
    decreases dir, 1, 0
  {
    if dir.Directory? { VisitsInUnder(s, location, dir, SortByName(dir.entries)); }
  }

  /** Everything met through `entries` lies below `location` and one of their names. */
  lemma {:induction false} VisitsInUnder(s: Setup, location: seq<string>, dir: Entry, entries: seq<Entry>)
    requires dir.Directory? && forall e :: e in entries ==> e in dir.entries
    ensures Under(location, VisitsIn(s, location, dir, entries))
    ensures forall v :: v in VisitsIn(s, location, dir, entries) ==>
              |v.location| > |location| && exists e :: e in entries && e.name == v.location[|location|]
    decreases dir, 0, |entries|
  {
    if entries != [] {
      var e := entries[0];
      assert entries == [e] + entries[1..];
      VisitsInUnder(s, location, dir, entries[1..]);
      VisitsAtUnder(s, location, dir, e);
      forall v | v in VisitsIn(s, location, dir, entries)
        ensures location <= v.location && |v.location| > |location|
        ensures exists e :: e in entries && e.name == v.location[|location|]
      {
        if v in VisitsAt(s, location, dir, e) {
          assert e in entries && v.location[..|location| + 1] == location + [e.name];
          assert v.location[..|location| + 1][|location|] == e.name;
        } else {
          var e' :| e' in entries[1..] && e'.name == v.location[|location|];
          assert e' in entries;
        }
      }
    }
  }

  lemma {:induction false} VisitsAtUnder(s: Setup, location: seq<string>, dir: Entry, e: Entry)
    requires dir.Directory? && e in dir.entries
    ensures Under(location + [e.name], VisitsAt(s, location, dir, e))
    decreases dir, 0, 0
  {
    if !Pruned(s, location, e) && !e.File? { VisitsUnder(s, location + [e.name], e); }
  }

  lemma {:induction false} VisitsAscend(s: Setup, location: seq<string>, dir: Entry)
    requires (dir.Directory? || dir.LockedDirectory?) && Tidy(dir)
    ensures Ascends(Locations(Visits(s, location, dir)))
    decreases dir, 1, 0
  {
    if dir.Directory? {
      var entries := SortByName(dir.entries);
      SortAscends(dir.entries);
      DistinctStays(dir.entries, entries);
      VisitsInAscend(s, location, dir, entries);
    }
  }

  ghost predicate StrictlyAscend(entries: seq<Entry>) {
    forall i, j :: 0 <= i < j < |entries| ==> Less(entries[i].name, entries[j].name)
  }

  ghost predicate DistinctNames(entries: seq<Entry>) {
    forall i, j :: 0 <= i < j < |entries| ==> entries[i].name != entries[j].name
  }

  lemma DistinctStays(entries: seq<Entry>, sorted: seq<Entry>)
    requires DistinctNames(entries) && multiset(sorted) == multiset(entries) && NamesAscend(sorted)
    ensures StrictlyAscend(sorted)
  {
    forall i, j | 0 <= i < j < |sorted| ensures Less(sorted[i].name, sorted[j].name) {
      LessTotal(sorted[i].name, sorted[j].name);
      if sorted[i].name == sorted[j].name {
        assert sorted[i] in multiset(sorted) && sorted[j] in multiset(sorted);
        assert sorted[i] in entries && sorted[j] in entries;
        assert sorted[i] == sorted[j];
        TwiceIsTwice(sorted, i, j);
        OnceIsOnce(entries, sorted[i]);
      }
    }
  }

  lemma TwiceIsTwice(entries: seq<Entry>, i: nat, j: nat)
    requires i < j < |entries| && entries[i] == entries[j]
    ensures multiset(entries)[entries[i]] >= 2
  {
    assert entries == entries[..i] + [entries[i]] + entries[i + 1..j] + [entries[j]] + entries[j + 1..];
  }

  lemma {:induction false} OnceIsOnce(entries: seq<Entry>, e: Entry)
    requires DistinctNames(entries)
    ensures multiset(entries)[e] <= 1
  {
    if entries != [] {
      OnceIsOnce(entries[1..], e);
      assert entries == [entries[0]] + entries[1..];
      if e == entries[0] {
        assert e !in entries[1..];
      }
    }
  }

  lemma {:induction false} VisitsInAscend(s: Setup, location: seq<string>, dir: Entry, entries: seq<Entry>)
    requires dir.Directory? && Tidy(dir) && forall e :: e in entries ==> e in dir.entries
    requires StrictlyAscend(entries)
    ensures Ascends(Locations(VisitsIn(s, location, dir, entries)))
    decreases dir, 0, |entries|
  {
    if entries != [] {
      var e := entries[0];
      assert e in entries;
      var a, b := VisitsAt(s, location, dir, e), VisitsIn(s, location, dir, entries[1..]);
      VisitsInAscend(s, location, dir, entries[1..]);
      VisitsInUnder(s, location, dir, entries[1..]);
      VisitsAtUnder(s, location, dir, e);
      if !Pruned(s, location, e) && !e.File? { VisitsAscend(s, location + [e.name], e); }
      assert Ascends(Locations(a));
      forall v, w | v in a && w in b ensures LocationLess(v.location, w.location) {
        var e' :| e' in entries[1..] && e'.name == w.location[|location|];
        assert v.location[..|location| + 1] == location + [e.name];
        assert v.location[..|location| + 1][|location|] == e.name;
        BelowCommon(location, v.location, w.location);
      }
      AscendAppend(a, b);
    }
  }

  lemma AscendAppend(a: seq<Visit>, b: seq<Visit>)
    requires Ascends(Locations(a)) && Ascends(Locations(b))
    requires forall v, w :: v in a && w in b ==> LocationLess(v.location, w.location)
    ensures Ascends(Locations(a + b))
  {
    var l := Locations(a + b);
    forall i, j | 0 <= i < j < |l| ensures LocationLess(l[i], l[j]) {
      if j < |a| {
        assert l[i] == Locations(a)[i] && l[j] == Locations(a)[j];
      } else if i >= |a| {
        assert l[i] == Locations(b)[i - |a|] && l[j] == Locations(b)[j - |a|];
      } else {
        assert (a + b)[i] in a && (a + b)[j] in b;
      }
    }
  }

  lemma CleanCollects(s: Setup, root: Entry)
    requires root.Directory? || root.LockedDirectory?
    requires Clean(WalkDirectory(s, State(NOTHING, false, false), [], root))
    ensures Collects(Visits(s, [], root), WalkDirectory(s, State(NOTHING, false, false), [], root).progress.files)
  {
    var start := State(NOTHING, false, false);
    UnflaggedIsUnstopped(s, start, [], root);
    WalkIsGreedy(s, start, [], root);
    UnstoppedCollects(s.limits, NOTHING, Visits(s, [], root));
    var files := WalkDirectory(s, start, [], root).progress.files;
    assert files[0..] == files;
  }

  /** `files` are the candidates of the tree, no more and no fewer, each with its content. */
  ghost predicate ExactlyTheCandidates(s: Setup, root: Entry, files: seq<TextFile>)
    requires root.Directory? || root.LockedDirectory?
  {
    && (forall v :: Reaches(s, [], root, v) ==> v.Candidate? && Readable(v.file) && Copy(v.location, v.file) in files)
    && (forall f :: f in files ==>
          exists file ::
            Readable(file) && Reaches(s, [], root, Candidate(f.location, file)) && f == Copy(f.location, file))
  }

  /** Strictly ascending in depth-first order, so no location comes twice. */
  ghost predicate DepthFirst(files: seq<TextFile>) {
    forall i, j :: 0 <= i < j < |files| ==> LocationLess(files[i].location, files[j].location)
  }

  /** Main result: if no coverage diagnostic is set, the collected files are exactly the text files
      that no pruning rule cuts off. */
  lemma NoSilentLoss(s: Setup, root: Entry)
    requires root.Directory? || root.LockedDirectory?
    requires Clean(WalkDirectory(s, State(NOTHING, false, false), [], root))
    ensures ExactlyTheCandidates(s, root, WalkDirectory(s, State(NOTHING, false, false), [], root).progress.files)
  {
    var files := WalkDirectory(s, State(NOTHING, false, false), [], root).progress.files;
    var visits := Visits(s, [], root);
    CleanCollects(s, root);
    forall v | Reaches(s, [], root, v) ensures v.Candidate? && Readable(v.file) && Copy(v.location, v.file) in files {
      VisitsAreReached(s, [], root, v);
      var k :| 0 <= k < |visits| && visits[k] == v;
      assert files[k] == Copy(v.location, v.file);
    }
    forall f | f in files
      ensures exists file ::
                Readable(file) && Reaches(s, [], root, Candidate(f.location, file)) && f == Copy(f.location, file)
    {
      var k :| 0 <= k < |files| && files[k] == f;
      VisitsAreReached(s, [], root, visits[k]);
      assert visits[k] == Candidate(f.location, visits[k].file);
    }
  }

  // ---------------------------------------------------------------- collection order, whatever the budgets

  /** `files` are the copies of some of `visits`, in their order. */
  lemma {:induction false} GreedyFollowsVisits(limits: Limits, p: Progress, visits: seq<Visit>, k: nat)
    requires Ascends(Locations(visits)) && k <= |visits|
    requires DepthFirst(p.files) && Before(p.files, visits[k..])
    ensures DepthFirst(Greedy(limits, p, visits[k..]).files)
    decreases |visits| - k
  {
    var rest := visits[k..];
    if rest != [] && !Full(limits, p) {
      var q := Take(limits, p, rest[0]);
      assert rest[1..] == visits[k + 1..];
      forall i | 0 <= i < |rest[1..]| ensures LocationLess(rest[0].location, rest[1..][i].location) {
        assert Locations(visits)[k] == rest[0].location && Locations(visits)[k + 1 + i] == rest[1..][i].location;
      }
      TakeFollows(limits, p, rest);
      GreedyFollowsVisits(limits, q, visits, k + 1);
    }
  }

  ghost predicate Before(files: seq<TextFile>, visits: seq<Visit>) {
    forall i, j :: 0 <= i < |files| && 0 <= j < |visits| ==> LocationLess(files[i].location, visits[j].location)
  }

  lemma TakeFollows(limits: Limits, p: Progress, rest: seq<Visit>)
    requires rest != [] && DepthFirst(p.files) && Before(p.files, rest)
    requires forall i :: 0 <= i < |rest[1..]| ==> LocationLess(rest[0].location, rest[1..][i].location)
    ensures var q := Take(limits, p, rest[0]); DepthFirst(q.files) && Before(q.files, rest[1..])
  {
  }

  /** Main result: on a tree where a directory has no two entries of one name, whatever the budgets
      and failures, the files come in strictly ascending depth-first order. */
  lemma CollectionIsDepthFirst(s: Setup, root: Entry)
    requires (root.Directory? || root.LockedDirectory?) && Tidy(root)
    ensures DepthFirst(WalkDirectory(s, State(NOTHING, false, false), [], root).progress.files)
  {
    var visits := Visits(s, [], root);
    WalkIsGreedy(s, State(NOTHING, false, false), [], root);
    VisitsAscend(s, [], root);
    assert visits[0..] == visits;
    GreedyFollowsVisits(s.limits, NOTHING, visits, 0);
  }

  lemma {:induction false} DepthFirstMeansOnce(files: seq<TextFile>)
    requires DepthFirst(files)
    ensures forall i, j :: 0 <= i < j < |files| ==> files[i].location != files[j].location
  {
    forall i, j | 0 <= i < j < |files| ensures files[i].location != files[j].location {
      LocationIrreflexive(files[i].location);
    }
  }

  lemma {:induction false} LocationIrreflexive(a: seq<string>)
    ensures !LocationLess(a, a)
  {
    if a != [] {
      LessTotal(a[0], a[0]);
      LocationIrreflexive(a[1..]);
    }
  }
}
