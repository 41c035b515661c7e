/**
 * The device cleanup handler: before a sync it empties the device, keeping
 * hidden, system and user-protected entries.  The scan lists every entry
 * below the mount point (to the configured depth), deepest first, and
 * splits it into protected entries and entries to delete; the deletion
 * removes files with `remove_file` and directories with `remove_dir`, which
 * only succeeds on an empty directory.
 */
module Cleanup {
  import opened Wrappers
  import opened Text
  import opened Files
  import opened Errors
  import opened Sorting
  import opened Playlist
  import opened Device

  datatype CleanupOptions = CleanupOptions(
    skipHidden: bool,
    skipSystemFiles: bool,
    protectedPatterns: seq<string>,
    verifyDeletions: bool,
    dryRun: bool,
    maxDepth: int)

  function DefaultCleanupOptions(): CleanupOptions {
    CleanupOptions(true, true, [], true, false, -1)
  }

  /** One file or directory scheduled for deletion; `deleted` is None until the deletion ran. */
  datatype CleanupEntry = CleanupEntry(path: Path, isDirectory: bool, sizeBytes: nat, deleted: Option<bool>)

  datatype SkippedEntry = SkippedEntry(path: Path, reason: string)

  datatype CleanupResult = CleanupResult(
    mountPoint: Path,
    filesDeleted: nat,
    directoriesDeleted: nat,
    bytesFreed: nat,
    filesSkipped: nat,
    filesFailed: nat,
    dryRun: bool,
    entries: seq<CleanupEntry>,
    skippedEntries: seq<SkippedEntry>,
    verificationPassed: Option<bool>)

  /** `is_success`: nothing failed and the verification, when it ran, passed. */
  function IsSuccess(r: CleanupResult): (b: bool)
    ensures b <==> r.filesFailed == 0 && r.verificationPassed != Some(false)
  {
    r.filesFailed == 0 && r.verificationPassed.UnwrapOr(true)
  }

  // ---------------------------------------------------------------------
  // Protection
  // ---------------------------------------------------------------------

  const SYSTEM_PATTERNS: seq<string> := [
    "System Volume Information",
    "$RECYCLE.BIN",
    "RECYCLER",
    ".Spotlight-V100",
    ".Trashes",
    ".fseventsd",
    ".TemporaryItems",
    ".DS_Store",
    "Thumbs.db",
    "desktop.ini",
    ".metadata_never_index",
    ".com.apple.timemachine.donotpresent"
  ]

  /** The handler's set of system names, lower-cased once when it is built. */
  function SystemNames(): set<string> {
    set s | s in SYSTEM_PATTERNS :: Lower(s)
  }

  /** The first custom pattern contained in the lower-cased name (equality included). */
  function PatternReason(lname: string, patterns: seq<string>): Option<string> {
    if patterns == [] then None
    else
      var pl := Lower(patterns[0]);
      if lname == pl || Contains(lname, pl) then Some("matches protected pattern: " + patterns[0])
      else PatternReason(lname, patterns[1..])
  }

  /**
   * Why `p` must not be deleted, judged from its own file name alone:
   * hidden, then system, then the custom patterns; None for a path without
   * a file name.
   */
  function ProtectedReason(p: Path, o: CleanupOptions): Option<string> {
    if p == [] || FileName(p) == ".." then None
    else
      var name := FileName(p);
      var lname := Lower(name);
      if o.skipHidden && StartsWith(name, ".") then Some("hidden file")
      else if o.skipSystemFiles && lname in SystemNames() then Some("system file")
      else PatternReason(lname, o.protectedPatterns)
  }

  /** `is_protected`: the pattern loop stops at the first match. */
  method IsProtected(p: Path, o: CleanupOptions) returns (r: Option<string>)
    ensures r == ProtectedReason(p, o)
  {
    if p == [] || FileName(p) == ".." {
      return None;
    }
    var name := FileName(p);
    var lname := Lower(name);
    if o.skipHidden && StartsWith(name, ".") {
      return Some("hidden file");
    }
    if o.skipSystemFiles && lname in SystemNames() {
      return Some("system file");
    }
    var patterns := o.protectedPatterns;
    for k := 0 to |patterns|
      invariant PatternReason(lname, patterns) == PatternReason(lname, patterns[k..])
    {
      assert patterns[k..][1..] == patterns[k + 1..];
      var pl := Lower(patterns[k]);
      if lname == pl || Contains(lname, pl) {
        return Some("matches protected pattern: " + patterns[k]);
      }
    }
    assert patterns[|patterns|..] == [];
    return None;
  }

  /** A string contains itself, so the equality test is subsumed by the substring test. */
  lemma ContainsItself(s: string)
    ensures Contains(s, s)
  {
    assert OccursAt(s, s, 0);
  }

  /**
   * The pattern rule: protected exactly when some pattern, lower-cased, occurs
   * in the lower-cased name, and then the reason names the first such pattern.
   */
  lemma {:induction false} PatternReasonSpec(lname: string, patterns: seq<string>)
    ensures PatternReason(lname, patterns).None? <==> forall k :: 0 <= k < |patterns| ==> !Contains(lname, Lower(patterns[k]))
    ensures PatternReason(lname, patterns).Some? ==>
      exists k :: 0 <= k < |patterns| && Contains(lname, Lower(patterns[k])) &&
        (forall j :: 0 <= j < k ==> !Contains(lname, Lower(patterns[j]))) &&
        PatternReason(lname, patterns).value == "matches protected pattern: " + patterns[k]
    decreases |patterns|
  {
    if patterns != [] {
      ContainsItself(lname);
      PatternReasonSpec(lname, patterns[1..]);
      assert forall k :: 1 <= k < |patterns| ==> patterns[k] == patterns[1..][k - 1];
      if PatternReason(lname, patterns).Some? && !Contains(lname, Lower(patterns[0])) {
        var k :| 0 <= k < |patterns[1..]| && Contains(lname, Lower(patterns[1..][k])) &&
          (forall j :: 0 <= j < k ==> !Contains(lname, Lower(patterns[1..][j]))) &&
          PatternReason(lname, patterns[1..]).value == "matches protected pattern: " + patterns[1..][k];
        assert patterns[k + 1] == patterns[1..][k];
      }
    }
  }

  /** The order of the three tests and when an entry is left unprotected. */
  lemma ProtectedReasonSpec(p: Path, o: CleanupOptions)
    requires p != [] && FileName(p) != ".."
    ensures o.skipHidden && StartsWith(FileName(p), ".") ==> ProtectedReason(p, o) == Some("hidden file")
    ensures !(o.skipHidden && StartsWith(FileName(p), ".")) && o.skipSystemFiles && Lower(FileName(p)) in SystemNames() ==>
      ProtectedReason(p, o) == Some("system file")
    ensures ProtectedReason(p, o).None? <==>
      && !(o.skipHidden && StartsWith(FileName(p), "."))
      && !(o.skipSystemFiles && Lower(FileName(p)) in SystemNames())
      && forall k :: 0 <= k < |o.protectedPatterns| ==> !Contains(Lower(FileName(p)), Lower(o.protectedPatterns[k]))
  {
    PatternReasonSpec(Lower(FileName(p)), o.protectedPatterns);
  }

  /** A hidden file is protected by default, and not when hidden files are included. */
  lemma HiddenExample()
    ensures ProtectedReason(["test", ".hidden"], DefaultCleanupOptions()) == Some("hidden file")
    ensures ProtectedReason([], DefaultCleanupOptions()).None?
  {
    assert StartsWith(".hidden", ".");
  }

  /** The system names are matched without regard to case. */
  lemma SystemExample()
    ensures ProtectedReason(["Volumes", "MP3", "Thumbs.db"], DefaultCleanupOptions()) == Some("system file")
  {
    assert "Thumbs.db"[..1][0] == 'T';
    assert "Thumbs.db" in SYSTEM_PATTERNS;
    assert Lower("Thumbs.db") in SystemNames();
  }

  // ---------------------------------------------------------------------
  // The walk
  // ---------------------------------------------------------------------

  /** `p` lies strictly below `root`, at most `maxDepth` levels down unless `maxDepth` is negative. */
  predicate InScope(root: Path, maxDepth: int, p: Path) {
    IsPrefix(root, p) && |p| > |root| && (maxDepth < 0 || |p| - |root| <= maxDepth)
  }

  /** The entries `WalkDir::new(root).min_depth(1)` visits, with `max_depth` when it is not negative. */
  function Scope(m: Entries, root: Path, maxDepth: int): (r: set<Path>)
    ensures forall p :: p in r <==> p in m && InScope(root, maxDepth, p)
  {
    set p | p in m && InScope(root, maxDepth, p)
  }

  predicate Distinct(s: seq<Path>) {
    forall i, j :: 0 <= i < j < |s| ==> s[i] != s[j]
  }

  /** The walk: every entry in scope once, in an order the file system chooses. */
  method Walk(fs: Fs, root: Path, maxDepth: int) returns (walk: seq<Path>)
    ensures forall p :: p in walk <==> p in Scope(fs.entries, root, maxDepth)
    ensures Distinct(walk)
  {
    var todo := Scope(fs.entries, root, maxDepth);
    walk := [];
    while todo != {}
      invariant forall p :: p in walk <==> p in Scope(fs.entries, root, maxDepth) && p !in todo
      invariant todo <= Scope(fs.entries, root, maxDepth)
      invariant Distinct(walk)
      decreases |todo|
    {
      var p :| p in todo;
      walk := walk + [p];
      todo := todo - {p};
    }
  }

  /** Deepest first: `sort_by_key(Reverse(depth))`. */
  function DeeperFirst(): (Path, Path) -> bool {
    (a: Path, b: Path) => |a| >= |b|
  }

  lemma DeeperFirstTotal()
    ensures TotalPreorder(DeeperFirst())
  {
  }

  lemma {:induction false} DistinctOccursOnce(s: seq<Path>, x: Path)
    requires Distinct(s)
    ensures multiset(s)[x] <= 1
    decreases |s|
  {
    if s != [] {
      assert s == [s[0]] + s[1..];
      assert Distinct(s[1..]) by {
        forall i, j | 0 <= i < j < |s[1..]| ensures s[1..][i] != s[1..][j] {
          assert s[1..][i] == s[i + 1] && s[1..][j] == s[j + 1];
        }
      }
      DistinctOccursOnce(s[1..], x);
      if s[0] == x {
        assert x !in s[1..] by {
          forall j | 0 <= j < |s[1..]| ensures s[1..][j] != x {
            assert s[1..][j] == s[j + 1];
          }
        }
      }
    }
  }

  /** Reordering keeps the paths distinct. */
  lemma PermutationKeepsDistinct(s: seq<Path>, r: seq<Path>)
    requires multiset(r) == multiset(s) && Distinct(s)
    ensures Distinct(r)
  {
    forall i, j | 0 <= i < j < |r|
      ensures r[i] != r[j]
    {
      if r[i] == r[j] {
        OccursTwice(r, i, j);
        DistinctOccursOnce(s, r[i]);
      }
    }
  }

  // ---------------------------------------------------------------------
  // The scan
  // ---------------------------------------------------------------------

  /** A scheduled entry as the scan records it: directories report size 0. */
  function PlanEntry(m: Entries, p: Path): (e: CleanupEntry)
    requires p in m
    ensures e.path == p && e.deleted.None? && (e.isDirectory <==> IsDir(m, p))
    ensures e.sizeBytes == if IsDir(m, p) then 0 else |m[p].content|
  {
    CleanupEntry(p, m[p].Dir?, Size(m[p]), None)
  }

  predicate DistinctPaths(es: seq<CleanupEntry>) {
    forall i, j :: 0 <= i < j < |es| ==> es[i].path != es[j].path
  }

  predicate SkippedDistinct(ss: seq<SkippedEntry>) {
    forall i, j :: 0 <= i < j < |ss| ==> ss[i].path != ss[j].path
  }

  /** Never a shallower entry before a deeper one. */
  predicate DeepestFirst(es: seq<CleanupEntry>) {
    forall i, j :: 0 <= i < j < |es| ==> |es[i].path| >= |es[j].path|
  }

  /**
   * What `scan_for_cleanup` yields: every entry in scope exactly once,
   * protected ones among the skipped (with their reason), the others
   * scheduled deepest first.
   */
  ghost predicate Planned(m: Entries, root: Path, o: CleanupOptions, plan: seq<CleanupEntry>, skipped: seq<SkippedEntry>) {
    && (forall e :: e in plan <==>
          e.path in Scope(m, root, o.maxDepth) && ProtectedReason(e.path, o).None? && e == PlanEntry(m, e.path))
    && (forall s :: s in skipped <==>
          s.path in Scope(m, root, o.maxDepth) && ProtectedReason(s.path, o) == Some(s.reason))
    && DistinctPaths(plan) && SkippedDistinct(skipped)
    && DeepestFirst(plan)
  }

  /** The scan's loop invariant after the entries `seen`. */
  ghost predicate ScanInv(m: Entries, o: CleanupOptions, seen: seq<Path>, plan: seq<CleanupEntry>, skipped: seq<SkippedEntry>) {
    && (forall e :: e in plan <==> e.path in seen && e.path in m && ProtectedReason(e.path, o).None? && e == PlanEntry(m, e.path))
    && (forall s :: s in skipped <==> s.path in seen && ProtectedReason(s.path, o) == Some(s.reason))
    && DistinctPaths(plan) && SkippedDistinct(skipped)
    && DeepestFirst(plan)
  }

  /** One entry of the sorted walk, protected or scheduled. */
  lemma ScanStep(m: Entries, o: CleanupOptions, seen: seq<Path>, p: Path, plan: seq<CleanupEntry>, skipped: seq<SkippedEntry>)
    requires ScanInv(m, o, seen, plan, skipped)
    requires p in m && p !in seen && forall q :: q in seen ==> |q| >= |p|
    ensures ProtectedReason(p, o).Some? ==>
      ScanInv(m, o, seen + [p], plan, skipped + [SkippedEntry(p, ProtectedReason(p, o).value)])
    ensures ProtectedReason(p, o).None? ==>
      ScanInv(m, o, seen + [p], plan + [PlanEntry(m, p)], skipped)
  {
    var reason := ProtectedReason(p, o);
    if reason.Some? {
      SkipStep(skipped, seen, SkippedEntry(p, reason.value));
    } else {
      PlanStep(plan, seen, PlanEntry(m, p));
    }
  }

  /** The walk sorted deepest first. */
  method DeepestFirstWalk(fs: Fs, root: Path, maxDepth: int) returns (sorted: seq<Path>)
    ensures forall p :: p in sorted <==> p in Scope(fs.entries, root, maxDepth)
    ensures Distinct(sorted)
    ensures forall i, j :: 0 <= i < j < |sorted| ==> |sorted[i]| >= |sorted[j]|
  {
    var walk := Walk(fs, root, maxDepth);
    DeeperFirstTotal();
    sorted := SortBy(walk, DeeperFirst());
    PermutationKeepsDistinct(walk, sorted);
    assert forall p :: p in sorted <==> p in multiset(walk);
    assert SortedBy(sorted, DeeperFirst());
  }

  /** Once the whole walk is seen, the invariant is the scan's promise. */
  lemma ScanDone(m: Entries, root: Path, o: CleanupOptions, sorted: seq<Path>, plan: seq<CleanupEntry>, skipped: seq<SkippedEntry>)
    requires ScanInv(m, o, sorted, plan, skipped)
    requires forall p :: p in sorted <==> p in Scope(m, root, o.maxDepth)
    ensures Planned(m, root, o, plan, skipped)
  {
  }

  /** `scan_for_cleanup`. */
  method ScanForCleanup(fs: Fs, root: Path, o: CleanupOptions) returns (plan: seq<CleanupEntry>, skipped: seq<SkippedEntry>)
    ensures Planned(fs.entries, root, o, plan, skipped)
  {
    ghost var m := fs.entries;
    var sorted := DeepestFirstWalk(fs, root, o.maxDepth);
    plan, skipped := [], [];
    for i := 0 to |sorted|
      invariant ScanInv(m, o, sorted[..i], plan, skipped)
    {
      var p := sorted[i];
      assert p in sorted;
      assert sorted[..i + 1] == sorted[..i] + [p];
      assert p !in sorted[..i];
      assert forall q :: q in sorted[..i] ==> |q| >= |p|;
      ScanStep(m, o, sorted[..i], p, plan, skipped);
      var reason := IsProtected(p, o);
      if reason.Some? {
        skipped := skipped + [SkippedEntry(p, reason.value)];
      } else {
        plan := plan + [PlanEntry(fs.entries, p)];
      }
    }
    assert sorted[..|sorted|] == sorted;
    ScanDone(m, root, o, sorted, plan, skipped);
  }

  lemma PlanStep(plan: seq<CleanupEntry>, seen: seq<Path>, e: CleanupEntry)
    requires DistinctPaths(plan) && DeepestFirst(plan)
    requires forall x :: x in plan ==> x.path in seen && |x.path| >= |e.path|
    requires e.path !in seen
    ensures DistinctPaths(plan + [e]) && DeepestFirst(plan + [e])
  {
    assert forall i :: 0 <= i < |plan| ==> plan[i] in plan;
  }

  lemma SkipStep(skipped: seq<SkippedEntry>, seen: seq<Path>, s: SkippedEntry)
    requires SkippedDistinct(skipped)
    requires forall x :: x in skipped ==> x.path in seen
    requires s.path !in seen
    ensures SkippedDistinct(skipped + [s])
  {
    assert forall i :: 0 <= i < |skipped| ==> skipped[i] in skipped;
  }

  /** No entry is both skipped and scheduled, and each path in scope is one of the two. */
  lemma PlanPartitionsScope(m: Entries, root: Path, o: CleanupOptions, plan: seq<CleanupEntry>, skipped: seq<SkippedEntry>)
    requires Planned(m, root, o, plan, skipped)
    ensures forall e, s :: e in plan && s in skipped ==> e.path != s.path
    ensures forall p :: p in Scope(m, root, o.maxDepth) ==>
      (exists e :: e in plan && e.path == p) || (exists s :: s in skipped && s.path == p)
  {
    forall p | p in Scope(m, root, o.maxDepth)
      ensures (exists e :: e in plan && e.path == p) || (exists s :: s in skipped && s.path == p)
    {
      var reason := ProtectedReason(p, o);
      if reason.Some? {
        assert SkippedEntry(p, reason.value) in skipped;
      } else {
        assert PlanEntry(m, p) in plan;
      }
    }
  }

  /**
   * Deepest first means children before parents: an entry never comes
   * after one of its ancestors, so a directory's scheduled contents are
   * deleted before the directory is tried.
   */
  lemma ChildrenBeforeParents(plan: seq<CleanupEntry>, i: nat, j: nat)
    requires DeepestFirst(plan) && i < |plan| && j < |plan|
    requires IsPrefix(plan[i].path, plan[j].path) && plan[i].path != plan[j].path
    ensures j < i
  {

  }

  /** A negative maximum depth scans everything below the mount point; a maximum of `k` stops at depth `k`. */
  lemma ScopeDepth(m: Entries, root: Path, maxDepth: int, p: Path)
    ensures maxDepth < 0 ==> (p in Scope(m, root, maxDepth) <==> p in m && IsPrefix(root, p) && p != root)
    ensures maxDepth >= 0 && p in Scope(m, root, maxDepth) ==> |p| - |root| <= maxDepth
    ensures maxDepth == 0 ==> Scope(m, root, maxDepth) == {}
  {

  }

  // ---------------------------------------------------------------------
  // The deletion
  // ---------------------------------------------------------------------

  /** `remove_dir` succeeds on an empty directory, `remove_file` on a regular file. */
  predicate Removable(m: Entries, e: CleanupEntry) {
    if e.isDirectory then e.path != [] && IsDir(m, e.path) && Children(m, e.path) == {}
    else IsFile(m, e.path)
  }

  /**
   * The deletions in order: the file system after them and each entry
   * with its outcome recorded.
   */
  function Deletion(m: Entries, plan: seq<CleanupEntry>): (r: (Entries, seq<CleanupEntry>))
    ensures |r.1| == |plan|
    ensures forall i :: 0 <= i < |plan| ==> r.1[i].deleted.Some? && r.1[i] == plan[i].(deleted := r.1[i].deleted)
    decreases |plan|
  {
    if plan == [] then (m, [])
    else
      var ok := Removable(m, plan[0]);
      var next := Deletion(if ok then m - {plan[0].path} else m, plan[1..]);
      (next.0, [plan[0].(deleted := Some(ok))] + next.1)
  }

  /** The paths the deletion reports as removed. */
  function DeletedPaths(es: seq<CleanupEntry>): set<Path> {
    if es == [] then {}
    else (if es[0].deleted == Some(true) then {es[0].path} else {}) + DeletedPaths(es[1..])
  }

  lemma {:induction false} DeletedPathsMember(es: seq<CleanupEntry>, i: nat)
    requires i < |es| && es[i].deleted == Some(true)
    ensures es[i].path in DeletedPaths(es)
    decreases i
  {
    if i > 0 {
      DeletedPathsMember(es[1..], i - 1);
    }
  }

  lemma {:induction false} DeletedPathsFrom(es: seq<CleanupEntry>, p: Path)
    requires p in DeletedPaths(es)
    ensures exists i :: 0 <= i < |es| && es[i].deleted == Some(true) && es[i].path == p
    decreases |es|
  {
    if es[0].deleted != Some(true) || es[0].path != p {
      DeletedPathsFrom(es[1..], p);
      var i :| 0 <= i < |es[1..]| && es[1..][i].deleted == Some(true) && es[1..][i].path == p;
      assert es[i + 1] == es[1..][i];
    }
  }

  /** The file system afterwards is the one before, less exactly the paths reported removed. */
  lemma {:induction false} DeletionRemovesReported(m: Entries, plan: seq<CleanupEntry>)
    ensures Deletion(m, plan).0 == m - DeletedPaths(Deletion(m, plan).1)
    ensures DeletedPaths(Deletion(m, plan).1) <= m.Keys
    decreases |plan|
  {
    if plan != [] {
      var ok := Removable(m, plan[0]);
      var m1 := if ok then m - {plan[0].path} else m;
      DeletionRemovesReported(m1, plan[1..]);
      var done := Deletion(m, plan).1;
      assert done[1..] == Deletion(m1, plan[1..]).1;
    }
  }

  /**
   * A scheduled regular file is always removed: no earlier deletion touches
   * its path, so `remove_file` still finds it.
   */
  lemma {:induction false} FilesAlwaysRemoved(m: Entries, plan: seq<CleanupEntry>)
    requires DistinctPaths(plan)
    requires forall i :: 0 <= i < |plan| && !plan[i].isDirectory ==> IsFile(m, plan[i].path)
    ensures forall i :: 0 <= i < |plan| && !plan[i].isDirectory ==> Deletion(m, plan).1[i].deleted == Some(true)
    decreases |plan|
  {
    if plan != [] {
      var ok := Removable(m, plan[0]);
      var m1 := if ok then m - {plan[0].path} else m;
      assert forall i :: 1 <= i < |plan| ==> plan[1..][i - 1] == plan[i] && plan[i].path != plan[0].path;
      FilesAlwaysRemoved(m1, plan[1..]);
      forall i | 1 <= i < |plan| && !plan[i].isDirectory
        ensures Deletion(m, plan).1[i].deleted == Some(true)
      {
        assert Deletion(m, plan).1[i] == Deletion(m1, plan[1..]).1[i - 1];
      }
    }
  }

  // ---------------------------------------------------------------------
  // Counting
  // ---------------------------------------------------------------------

  /** Entries of the given kind (directories or files). */
  function CountKind(es: seq<CleanupEntry>, dirs: bool): nat {
    if es == [] then 0
    else CountKind(es[..|es| - 1], dirs) + (if es[|es| - 1].isDirectory == dirs then 1 else 0)
  }

  /** Their sizes, removed or not. */
  function TotalBytes(es: seq<CleanupEntry>): nat {
    if es == [] then 0 else TotalBytes(es[..|es| - 1]) + es[|es| - 1].sizeBytes
  }

  /** Entries of the given kind reported removed. */
  function CountDeleted(es: seq<CleanupEntry>, dirs: bool): nat {
    if es == [] then 0
    else
      var last := es[|es| - 1];
      CountDeleted(es[..|es| - 1], dirs) + (if last.deleted == Some(true) && last.isDirectory == dirs then 1 else 0)
  }

  /** Entries reported not removed. */
  function CountFailed(es: seq<CleanupEntry>): nat {
    if es == [] then 0
    else CountFailed(es[..|es| - 1]) + (if es[|es| - 1].deleted == Some(false) then 1 else 0)
  }

  /** The sizes of the files reported removed. */
  function FreedBytes(es: seq<CleanupEntry>): nat {
    if es == [] then 0
    else
      var last := es[|es| - 1];
      FreedBytes(es[..|es| - 1]) + (if last.deleted == Some(true) && !last.isDirectory then last.sizeBytes else 0)
  }

  lemma AppendEntry(es: seq<CleanupEntry>, e: CleanupEntry)
    ensures CountKind(es + [e], true) == CountKind(es, true) + (if e.isDirectory then 1 else 0)
    ensures CountKind(es + [e], false) == CountKind(es, false) + (if e.isDirectory then 0 else 1)
    ensures TotalBytes(es + [e]) == TotalBytes(es) + e.sizeBytes
    ensures CountDeleted(es + [e], true) == CountDeleted(es, true) + (if e.deleted == Some(true) && e.isDirectory then 1 else 0)
    ensures CountDeleted(es + [e], false) == CountDeleted(es, false) + (if e.deleted == Some(true) && !e.isDirectory then 1 else 0)
    ensures CountFailed(es + [e]) == CountFailed(es) + (if e.deleted == Some(false) then 1 else 0)
    ensures FreedBytes(es + [e]) == FreedBytes(es) + (if e.deleted == Some(true) && !e.isDirectory then e.sizeBytes else 0)
  {
    assert (es + [e])[..|es + [e]| - 1] == es;
  }

  /** Once every entry has an outcome, each is counted once: removed file, removed directory, or failure. */
  lemma {:induction false} OutcomesPartition(es: seq<CleanupEntry>)
    requires forall i :: 0 <= i < |es| ==> es[i].deleted.Some?
    ensures CountDeleted(es, false) + CountDeleted(es, true) + CountFailed(es) == |es|
    ensures CountDeleted(es, false) <= CountKind(es, false)
    ensures CountDeleted(es, true) <= CountKind(es, true)
    ensures FreedBytes(es) <= TotalBytes(es)
    decreases |es|
  {
    if es != [] {
      var front := es[..|es| - 1];
      assert forall i :: 0 <= i < |front| ==> front[i] == es[i];
      assert es == front + [es[|es| - 1]];
      OutcomesPartition(front);
      AppendEntry(front, es[|es| - 1]);
      var last := es[|es| - 1];
      assert last.deleted.Some?;
      if last.deleted.value {
        assert last.deleted == Some(true);
      } else {
        assert last.deleted == Some(false);
      }
    }
  }

  /** Files only: no directory is counted. */
  lemma {:induction false} FilesOnlyCounts(es: seq<CleanupEntry>)
    requires forall i :: 0 <= i < |es| ==> !es[i].isDirectory
    ensures CountDeleted(es, true) == 0 && CountKind(es, true) == 0 && CountKind(es, false) == |es|
    decreases |es|
  {
    if es != [] {
      assert forall i :: 0 <= i < |es| - 1 ==> es[..|es| - 1][i] == es[i];
      FilesOnlyCounts(es[..|es| - 1]);
    }
  }

  /** Strip the outcomes again. */
  function Unrun(es: seq<CleanupEntry>): (r: seq<CleanupEntry>)
    ensures |r| == |es| && forall i :: 0 <= i < |es| ==> r[i] == es[i].(deleted := None)
  {
    seq(|es|, i requires 0 <= i < |es| => es[i].(deleted := None))
  }

  /**
   * The deletion loop of `cleanup_device` and `cleanup_audio_files_only`:
   * `delete_entry` on each scheduled entry in order, with the running
   * counters.
   */
  method DeleteEntries(fs: Fs, plan: seq<CleanupEntry>)
    returns (done: seq<CleanupEntry>, filesDeleted: nat, directoriesDeleted: nat, bytesFreed: nat, filesFailed: nat)
    requires fs.Valid()
    modifies fs
    ensures fs.Valid()
    ensures (fs.entries, done) == Deletion(old(fs.entries), plan)
    ensures filesDeleted == CountDeleted(done, false) && directoriesDeleted == CountDeleted(done, true)
    ensures bytesFreed == FreedBytes(done) && filesFailed == CountFailed(done)
  {
    ghost var m0 := fs.entries;
    done, filesDeleted, directoriesDeleted, bytesFreed, filesFailed := [], 0, 0, 0, 0;
    assert plan[0..] == plan;
    assert [] + Deletion(m0, plan).1 == Deletion(m0, plan).1;
    for i := 0 to |plan|
      invariant fs.Valid()
      invariant Deletion(m0, plan) == (Deletion(fs.entries, plan[i..]).0, done + Deletion(fs.entries, plan[i..]).1)
      invariant filesDeleted == CountDeleted(done, false) && directoriesDeleted == CountDeleted(done, true)
      invariant bytesFreed == FreedBytes(done) && filesFailed == CountFailed(done)
    {
      var e := plan[i];
      ghost var before := fs.entries;
      var ok;
      if e.isDirectory {
        ok := fs.RemoveDir(e.path);
      } else {
        ok := fs.RemoveFile(e.path);
      }
      DeletionStep(before, plan, i, done, ok);
      var outcome := e.(deleted := Some(ok));
      AppendEntry(done, outcome);
      done := done + [outcome];
      if ok {
        if e.isDirectory {
          directoriesDeleted := directoriesDeleted + 1;
        } else {
          filesDeleted := filesDeleted + 1;
          bytesFreed := bytesFreed + e.sizeBytes;
        }
      } else {
        filesFailed := filesFailed + 1;
      }
    }
    assert plan[|plan|..] == [];
    assert done + [] == done;
  }

  /** One deletion moves the loop's bookkeeping one entry on. */
  lemma DeletionStep(m: Entries, plan: seq<CleanupEntry>, i: nat, done: seq<CleanupEntry>, ok: bool)
    requires i < |plan| && ok == Removable(m, plan[i])
    ensures var m1 := if ok then m - {plan[i].path} else m;
      (Deletion(m, plan[i..]).0, done + Deletion(m, plan[i..]).1) ==
      (Deletion(m1, plan[i + 1..]).0, (done + [plan[i].(deleted := Some(ok))]) + Deletion(m1, plan[i + 1..]).1)
  {
    assert plan[i..][0] == plan[i] && plan[i..][1..] == plan[i + 1..];
    var m1 := if ok then m - {plan[i].path} else m;
    var rest := Deletion(m1, plan[i + 1..]);
    assert Deletion(m, plan[i..]) == (rest.0, [plan[i].(deleted := Some(ok))] + rest.1);
    assert done + ([plan[i].(deleted := Some(ok))] + rest.1) == (done + [plan[i].(deleted := Some(ok))]) + rest.1;
  }

  /** `verify_cleanup`: every entry reported removed is gone. */
  method VerifyCleanup(fs: Fs, es: seq<CleanupEntry>) returns (ok: bool)
    ensures ok <==> forall i :: 0 <= i < |es| && es[i].deleted == Some(true) ==> es[i].path !in fs.entries
  {
    for i := 0 to |es|
      invariant forall j :: 0 <= j < i && es[j].deleted == Some(true) ==> es[j].path !in fs.entries
    {
      if es[i].deleted == Some(true) && es[i].path in fs.entries {
        return false;
      }
    }
    return true;
  }

  /** The post-deletion check cannot fail here: a path reported removed was removed. */
  lemma VerificationPasses(m: Entries, plan: seq<CleanupEntry>)
    ensures var r := Deletion(m, plan);
      forall i :: 0 <= i < |r.1| && r.1[i].deleted == Some(true) ==> r.1[i].path !in r.0
  {
    DeletionRemovesReported(m, plan);
    var r := Deletion(m, plan);
    forall i | 0 <= i < |r.1| && r.1[i].deleted == Some(true)
      ensures r.1[i].path !in r.0
    {
      DeletedPathsMember(r.1, i);
    }
  }

  /**
   * Protected entries survive the run, and so does everything outside the
   * scan's scope, the mount point included.
   */
  lemma ProtectedSurvive(m: Entries, root: Path, o: CleanupOptions, plan: seq<CleanupEntry>, skipped: seq<SkippedEntry>)
    requires Planned(m, root, o, plan, skipped)
    ensures forall s :: s in skipped ==> s.path in Deletion(m, plan).0
    ensures forall p :: p in m && p !in Scope(m, root, o.maxDepth) ==> p in Deletion(m, plan).0
  {
    DeletionRemovesReported(m, plan);
    var r := Deletion(m, plan);
    forall p | p in DeletedPaths(r.1)
      ensures p in Scope(m, root, o.maxDepth) && ProtectedReason(p, o).None?
    {
      DeletedPathsFrom(r.1, p);
      var i :| 0 <= i < |r.1| && r.1[i].deleted == Some(true) && r.1[i].path == p;
      assert plan[i] in plan;
    }
  }

  /** The paths of the scheduled entries. */
  function PlanPaths(es: seq<CleanupEntry>): set<Path> {
    set e | e in es :: e.path
  }

  /**
   * In deepest-first order, a scheduled directory whose every entry below is
   * scheduled too finds itself empty when its turn comes: its children are
   * deeper, so they came first.
   */
  lemma EmptyWhenReached(m: Entries, root: Path, o: CleanupOptions, plan: seq<CleanupEntry>, k: nat)
    requires Planned(m, root, o, plan, []) && o.maxDepth < 0
    requires k < |plan| && plan[k].isDirectory
    ensures Children(m - PlanPaths(plan[..k]), plan[k].path) == {}
  {
    var cur := m - PlanPaths(plan[..k]);
    var d := plan[k].path;
    assert plan[k] in plan;
    UnprotectedWhenNoneSkipped(m, root, o, plan);
    forall c | d + [c] in m
      ensures d + [c] in PlanPaths(plan[..k])
    {
      var q := d + [c];
      PrefixSnoc(root, d, c);
      assert PlanEntry(m, q) in plan;
      var j :| 0 <= j < |plan| && plan[j] == PlanEntry(m, q);
      assert j < k by {
        assert |plan[j].path| > |plan[k].path|;
      }
      assert plan[..k][j] == plan[j];
    }
  }

  /**
   * A full-depth cleanup with nothing protected empties the device: every
   * scheduled entry is removed, in order, and only the mount point and what
   * lies outside it remain.
   */
  lemma {:induction false} WipeFrom(m: Entries, root: Path, o: CleanupOptions, plan: seq<CleanupEntry>, k: nat)
    requires Planned(m, root, o, plan, []) && o.maxDepth < 0 && k <= |plan|
    ensures var r := Deletion(m - PlanPaths(plan[..k]), plan[k..]);
      r.0 == m - PlanPaths(plan) && forall i :: 0 <= i < |r.1| ==> r.1[i].deleted == Some(true)
    decreases |plan| - k
  {
    var cur := m - PlanPaths(plan[..k]);
    if k == |plan| {
      assert plan[..k] == plan;
    } else {
      var e := plan[k];
      assert e in plan;
      assert e.path !in PlanPaths(plan[..k]);
      if e.isDirectory {
        EmptyWhenReached(m, root, o, plan, k);
      }
      assert Removable(cur, e);
      assert plan[k..][0] == e && plan[k..][1..] == plan[k + 1..];
      assert plan[..k + 1] == plan[..k] + [e];
      assert PlanPaths(plan[..k + 1]) == PlanPaths(plan[..k]) + {e.path};
      assert cur - {e.path} == m - PlanPaths(plan[..k + 1]);
      WipeFrom(m, root, o, plan, k + 1);
      var rest := Deletion(cur - {e.path}, plan[k + 1..]);
      assert Deletion(cur, plan[k..]).1 == [e.(deleted := Some(true))] + rest.1;
    }
  }

  /** Every entry in scope is either scheduled or skipped with its reason. */
  lemma ScheduledOrSkipped(m: Entries, root: Path, o: CleanupOptions, plan: seq<CleanupEntry>, skipped: seq<SkippedEntry>, p: Path)
    requires Planned(m, root, o, plan, skipped) && p in Scope(m, root, o.maxDepth)
    ensures match ProtectedReason(p, o)
      case None => PlanEntry(m, p) in plan
      case Some(reason) => SkippedEntry(p, reason) in skipped
  {
  }

  /** With nothing skipped, every entry in scope is scheduled. */
  lemma UnprotectedWhenNoneSkipped(m: Entries, root: Path, o: CleanupOptions, plan: seq<CleanupEntry>)
    requires Planned(m, root, o, plan, [])
    ensures forall p :: p in Scope(m, root, o.maxDepth) ==> PlanEntry(m, p) in plan
  {
    forall p | p in Scope(m, root, o.maxDepth)
      ensures PlanEntry(m, p) in plan
    {
      ScheduledOrSkipped(m, root, o, plan, [], p);
    }
  }

  /** The whole run: with unlimited depth and nothing protected, the device is left holding nothing below its mount point. */
  lemma FullCleanupEmptiesDevice(m: Entries, root: Path, o: CleanupOptions, plan: seq<CleanupEntry>)
    requires Planned(m, root, o, plan, []) && o.maxDepth < 0
    ensures Deletion(m, plan).0 == m - Scope(m, root, o.maxDepth)
    ensures forall i :: 0 <= i < |plan| ==> Deletion(m, plan).1[i].deleted == Some(true)
  {
    WipeFrom(m, root, o, plan, 0);
    UnprotectedWhenNoneSkipped(m, root, o, plan);
    assert plan[..0] == [] && plan[0..] == plan;
    assert m - PlanPaths([]) == m;
    forall p ensures p in PlanPaths(plan) <==> p in Scope(m, root, o.maxDepth) {
      if p in Scope(m, root, o.maxDepth) {
        assert PlanEntry(m, p) in plan;
      }
    }
  }

  // ---------------------------------------------------------------------
  // The device operations
  // ---------------------------------------------------------------------

  /** `verify_device_writable`; `readOnly` is the mount point's permission bit. */
  function WritableCheck(m: Entries, mountPoint: Path, readOnly: bool): (r: Option<Error>)
    ensures r.None? <==> IsDir(m, mountPoint) && !readOnly
  {
    if mountPoint !in m then Some(Device(NotMounted(mountPoint)))
    else if !IsDir(m, mountPoint) then Some(FileSystem(InvalidPath(mountPoint, "mount point is not a directory")))
    else if readOnly then Some(Device(ReadOnly(mountPoint)))
    else None
  }

  /** The check before a cleanup: writability for a real run, mere existence for a dry run. */
  function AccessCheck(m: Entries, mountPoint: Path, o: CleanupOptions, readOnly: bool): (r: Option<Error>)
    ensures r.None? <==> if o.dryRun then mountPoint in m else IsDir(m, mountPoint) && !readOnly
  {
    if !o.dryRun then WritableCheck(m, mountPoint, readOnly)
    else if mountPoint !in m then Some(Device(NotMounted(mountPoint)))
    else None
  }

  /** The access errors, in the order they are raised. */
  lemma AccessErrors(m: Entries, mountPoint: Path, o: CleanupOptions, readOnly: bool)
    ensures mountPoint !in m ==> AccessCheck(m, mountPoint, o, readOnly) == Some(Device(NotMounted(mountPoint)))
    ensures !o.dryRun && mountPoint in m && !IsDir(m, mountPoint) ==>
      AccessCheck(m, mountPoint, o, readOnly) == Some(FileSystem(InvalidPath(mountPoint, "mount point is not a directory")))
    ensures !o.dryRun && IsDir(m, mountPoint) && readOnly ==> AccessCheck(m, mountPoint, o, readOnly) == Some(Device(ReadOnly(mountPoint)))
    ensures o.dryRun && mountPoint in m ==> AccessCheck(m, mountPoint, o, readOnly).None?
  {
  }

  /**
   * `cleanup_device`: check access, scan, then either report the plan (dry
   * run, nothing is touched) or delete it and verify.
   */
  method CleanupDevice(fs: Fs, mountPoint: Path, o: CleanupOptions, readOnly: bool) returns (r: Result<CleanupResult, Error>)
    requires fs.Valid()
    modifies fs
    ensures fs.Valid()
    ensures AccessCheck(old(fs.entries), mountPoint, o, readOnly).Some? ==>
      r == Err(AccessCheck(old(fs.entries), mountPoint, o, readOnly).value) && fs.entries == old(fs.entries)
    ensures r.Ok? <==> AccessCheck(old(fs.entries), mountPoint, o, readOnly).None?
    ensures r.Ok? ==> Planned(old(fs.entries), mountPoint, o, Unrun(r.value.entries), r.value.skippedEntries)
    ensures r.Ok? ==> r.value.mountPoint == mountPoint && r.value.dryRun == o.dryRun
    ensures r.Ok? ==> r.value.filesSkipped == |r.value.skippedEntries|
    ensures r.Ok? && o.dryRun ==> DryRunReport(r.value) && fs.entries == old(fs.entries)
    ensures r.Ok? && !o.dryRun ==> RealRunReport(old(fs.entries), fs.entries, r.value, o)
    ensures CleanupOutcome(old(fs.entries), fs.entries, mountPoint, o, readOnly, r)
  {
    var failure := AccessCheck(fs.entries, mountPoint, o, readOnly);
    if failure.Some? {
      return Err(failure.value);
    }
    var plan, skipped := ScanForCleanup(fs, mountPoint, o);
    assert Unrun(plan) == plan;
    if o.dryRun {
      return Ok(CleanupResult(mountPoint, CountKind(plan, false), CountKind(plan, true), TotalBytes(plan),
                              |skipped|, 0, true, plan, skipped, None));
    }
    r := RunPlan(fs, mountPoint, plan, skipped, o);
  }

  /** Everything `cleanup_device` promises about its result `r` and the entries before (`m0`) and after (`m1`). */
  ghost predicate CleanupOutcome(m0: Entries, m1: Entries, mountPoint: Path, o: CleanupOptions, readOnly: bool,
                                 r: Result<CleanupResult, Error>) {
    && (AccessCheck(m0, mountPoint, o, readOnly).Some? ==> r == Err(AccessCheck(m0, mountPoint, o, readOnly).value))
    && (r.Ok? <==> AccessCheck(m0, mountPoint, o, readOnly).None?)
    && (r.Err? ==> m1 == m0)
    && (r.Ok? ==> Planned(m0, mountPoint, o, Unrun(r.value.entries), r.value.skippedEntries))
    && (r.Ok? ==> r.value.mountPoint == mountPoint && r.value.dryRun == o.dryRun)
    && (r.Ok? ==> r.value.filesSkipped == |r.value.skippedEntries|)
    && (r.Ok? && o.dryRun ==> DryRunReport(r.value) && m1 == m0)
    && (r.Ok? && !o.dryRun ==> RealRunReport(m0, m1, r.value, o))
  }

  /** A dry run reports the plan: would-be deletions by kind, their bytes, no failure, no verification. */
  predicate DryRunReport(r: CleanupResult) {
    && (forall i :: 0 <= i < |r.entries| ==> r.entries[i].deleted.None?)
    && r.filesDeleted == CountKind(r.entries, false)
    && r.directoriesDeleted == CountKind(r.entries, true)
    && r.bytesFreed == TotalBytes(r.entries)
    && r.filesFailed == 0
    && r.verificationPassed.None?
  }

  /**
   * A real run: the outcomes are the deletions in plan order, the counters
   * tally them, and the verification (when asked for) passes.
   */
  ghost predicate RealRunReport(m0: Entries, m1: Entries, r: CleanupResult, o: CleanupOptions) {
    && (m1, r.entries) == Deletion(m0, Unrun(r.entries))
    && r.filesDeleted == CountDeleted(r.entries, false)
    && r.directoriesDeleted == CountDeleted(r.entries, true)
    && r.bytesFreed == FreedBytes(r.entries)
    && r.filesFailed == CountFailed(r.entries)
    && r.filesDeleted + r.directoriesDeleted + r.filesFailed == |r.entries|
    && r.verificationPassed == (if o.verifyDeletions then Some(true) else None)
    && (IsSuccess(r) <==> forall i :: 0 <= i < |r.entries| ==> r.entries[i].deleted == Some(true))
  }

  /** The real run shared by both cleanups: delete, then verify when asked. */
  method RunPlan(fs: Fs, mountPoint: Path, plan: seq<CleanupEntry>, skipped: seq<SkippedEntry>, o: CleanupOptions)
    returns (r: Result<CleanupResult, Error>)
    requires fs.Valid()
    requires forall i :: 0 <= i < |plan| ==> plan[i].deleted.None?
    modifies fs
    ensures fs.Valid()
    ensures r.Ok? && Unrun(r.value.entries) == plan && r.value.skippedEntries == skipped
    ensures r.value.mountPoint == mountPoint && !r.value.dryRun && r.value.filesSkipped == |skipped|
    ensures RealRunReport(old(fs.entries), fs.entries, r.value, o)
  {
    ghost var m0 := fs.entries;
    var done, filesDeleted, directoriesDeleted, bytesFreed, filesFailed := DeleteEntries(fs, plan);
    assert Unrun(done) == plan;
    OutcomesPartition(done);
    VerificationPasses(m0, plan);
    var verification: Option<bool> := None;
    if o.verifyDeletions {
      var ok := VerifyCleanup(fs, done);
      verification := Some(ok);
    }
    var res := CleanupResult(mountPoint, filesDeleted, directoriesDeleted, bytesFreed, |skipped|, filesFailed,
                             false, done, skipped, verification);
    SuccessMeansAllRemoved(done);
    return Ok(res);
  }

  lemma {:induction false} SuccessMeansAllRemoved(es: seq<CleanupEntry>)
    requires forall i :: 0 <= i < |es| ==> es[i].deleted.Some?
    ensures CountFailed(es) == 0 <==> forall i :: 0 <= i < |es| ==> es[i].deleted == Some(true)
    decreases |es|
  {
    if es != [] {
      var front := es[..|es| - 1];
      var last := es[|es| - 1];
      forall i | 0 <= i < |front| ensures front[i].deleted.Some? {
        assert front[i] == es[i];
      }
      SuccessMeansAllRemoved(front);
      assert CountFailed(es) == CountFailed(front) + (if last.deleted == Some(false) then 1 else 0);
      if CountFailed(es) == 0 {
        assert CountFailed(front) == 0;
        assert last.deleted.Some? && last.deleted != Some(false);
        assert last.deleted == Some(last.deleted.value) && last.deleted.value;
        forall i | 0 <= i < |es| ensures es[i].deleted == Some(true) {
          if i < |front| {
            assert front[i] == es[i] && front[i].deleted == Some(true);
          } else {
            assert es[i] == last;
          }
        }
      }
      if forall i :: 0 <= i < |es| ==> es[i].deleted == Some(true) {
        forall i | 0 <= i < |front| ensures front[i].deleted == Some(true) {
          assert front[i] == es[i];
        }
      }
    }
  }

  /** `preview_cleanup`: the same cleanup as a dry run. */
  method PreviewCleanup(fs: Fs, mountPoint: Path, o: CleanupOptions, readOnly: bool) returns (r: Result<CleanupResult, Error>)
    requires fs.Valid()
    modifies fs
    ensures fs.entries == old(fs.entries)
    ensures r.Ok? <==> mountPoint in fs.entries
    ensures r.Ok? ==> DryRunReport(r.value) && r.value.dryRun
  {
    r := CleanupDevice(fs, mountPoint, o.(dryRun := true), readOnly);
  }

  /** `cleanup_device_verified`: a device the detector no longer sees is refused before anything else. */
  method CleanupDeviceVerified(fs: Fs, mgr: DeviceManager, device: DeviceInfo, o: CleanupOptions, readOnly: bool)
    returns (r: Result<CleanupResult, Error>)
    requires fs.Valid()
    modifies fs
    ensures fs.Valid()
    ensures !mgr.IsDeviceConnected(device.mountPoint) ==>
      r == Err(Device(DeviceError.Disconnected(device.name))) && fs.entries == old(fs.entries)
    ensures mgr.IsDeviceConnected(device.mountPoint) ==>
      (r.Ok? <==> AccessCheck(old(fs.entries), device.mountPoint, o, readOnly).None?)
    ensures r.Ok? ==> Planned(old(fs.entries), device.mountPoint, o, Unrun(r.value.entries), r.value.skippedEntries)
    ensures mgr.IsDeviceConnected(device.mountPoint) ==>
      CleanupOutcome(old(fs.entries), fs.entries, device.mountPoint, o, readOnly, r)
  {
    if !mgr.IsDeviceConnected(device.mountPoint) {
      return Err(Device(DeviceError.Disconnected(device.name)));
    }
    r := CleanupDevice(fs, device.mountPoint, o, readOnly);
  }

  // ---------------------------------------------------------------------
  // Audio-only cleanup
  // ---------------------------------------------------------------------

  /** The extensions the audio-only cleanup deletes; unlike the library's list it has no "mp4". */
  const CLEANUP_AUDIO_EXTENSIONS: seq<string> := ["mp3", "m4a", "wav", "flac", "ogg", "aac"]

  predicate IsCleanupAudio(name: string) {
    var e := Extension(name);
    e.Some? && Lower(e.value) in CLEANUP_AUDIO_EXTENSIONS
  }

  /** The audio test on a path's file name. */
  predicate IsCleanupAudioPath(p: Path) {
    p != [] && IsCleanupAudio(FileName(p))
  }

  /** An ".mp4" track counts as audio in a playlist but is kept by the audio-only cleanup. */
  lemma Mp4KeptByAudioCleanup()
    ensures IsAudioFile("song.mp4") && !IsCleanupAudio("song.mp4")
  {
    ExtensionAt("song.mp4", 4);
    assert Lower("mp4") == "mp4";
  }

  /** The extension test ignores case. */
  lemma UpperCaseMp3Cleaned()
    ensures IsCleanupAudio("song.MP3")
  {
    ExtensionAt("song.MP3", 4);
    assert Lower("MP3") == "mp3";
  }

  /** Every audio file the cleanup deletes is one the library also counts as audio. */
  lemma CleanupAudioIsAudio(name: string)
    ensures IsCleanupAudio(name) ==> IsAudioFile(name)
  {
  }

  /**
   * What the audio-only scan yields: directories are passed over entirely;
   * each file in scope is scheduled when unprotected and audio, otherwise
   * skipped with its protection reason or "not an audio file".
   */
  ghost predicate AudioPlanned(m: Entries, root: Path, o: CleanupOptions, plan: seq<CleanupEntry>, skipped: seq<SkippedEntry>) {
    && (forall e :: e in plan <==>
          e.path in Scope(m, root, o.maxDepth) && IsFile(m, e.path) && ProtectedReason(e.path, o).None? &&
          IsCleanupAudioPath(e.path) && e == PlanEntry(m, e.path))
    && (forall s :: s in skipped <==>
          s.path in Scope(m, root, o.maxDepth) && IsFile(m, s.path) &&
          (if ProtectedReason(s.path, o).Some? then s.reason == ProtectedReason(s.path, o).value
           else !IsCleanupAudioPath(s.path) && s.reason == "not an audio file"))
    && DistinctPaths(plan) && SkippedDistinct(skipped)
  }

  /** The scan inside `cleanup_audio_files_only`, in walk order. */
  method ScanAudioFiles(fs: Fs, root: Path, o: CleanupOptions) returns (plan: seq<CleanupEntry>, skipped: seq<SkippedEntry>)
    ensures AudioPlanned(fs.entries, root, o, plan, skipped)
    ensures forall i :: 0 <= i < |plan| ==> !plan[i].isDirectory
  {
    ghost var m := fs.entries;
    var walk := Walk(fs, root, o.maxDepth);
    plan, skipped := [], [];
    for i := 0 to |walk|
      invariant forall e :: e in plan <==>
        e.path in walk[..i] && IsFile(m, e.path) && ProtectedReason(e.path, o).None? &&
        IsCleanupAudioPath(e.path) && e == PlanEntry(m, e.path)
      invariant forall s :: s in skipped <==>
        s.path in walk[..i] && IsFile(m, s.path) &&
        (if ProtectedReason(s.path, o).Some? then s.reason == ProtectedReason(s.path, o).value
         else !IsCleanupAudioPath(s.path) && s.reason == "not an audio file")
      invariant DistinctPaths(plan) && SkippedDistinct(skipped)
      invariant forall j :: 0 <= j < |plan| ==> !plan[j].isDirectory
    {
      var p := walk[i];
      assert p in walk;
      assert walk[..i + 1] == walk[..i] + [p];
      assert p !in walk[..i];
      if IsDir(fs.entries, p) {
        continue;
      }
      var reason := IsProtected(p, o);
      if reason.Some? {
        SkipStep(skipped, walk[..i], SkippedEntry(p, reason.value));
        skipped := skipped + [SkippedEntry(p, reason.value)];
        continue;
      }
      if !IsCleanupAudioPath(p) {
        SkipStep(skipped, walk[..i], SkippedEntry(p, "not an audio file"));
        skipped := skipped + [SkippedEntry(p, "not an audio file")];
        continue;
      }
      var e := PlanEntry(fs.entries, p);
      AudioPlanStep(plan, walk[..i], e);
      plan := plan + [e];
    }
    assert walk[..|walk|] == walk;
  }

  lemma AudioPlanStep(plan: seq<CleanupEntry>, seen: seq<Path>, e: CleanupEntry)
    requires DistinctPaths(plan)
    requires forall x :: x in plan ==> x.path in seen
    requires e.path !in seen
    ensures DistinctPaths(plan + [e])
  {
    assert forall i :: 0 <= i < |plan| ==> plan[i] in plan;
  }

  /**
   * `cleanup_audio_files_only`: the same access check, the audio scan, and
   * the same report as `cleanup_device` with no directory ever counted.
   */
  method CleanupAudioFilesOnly(fs: Fs, mountPoint: Path, o: CleanupOptions, readOnly: bool) returns (r: Result<CleanupResult, Error>)
    requires fs.Valid()
    modifies fs
    ensures fs.Valid()
    ensures AccessCheck(old(fs.entries), mountPoint, o, readOnly).Some? ==>
      r == Err(AccessCheck(old(fs.entries), mountPoint, o, readOnly).value) && fs.entries == old(fs.entries)
    ensures r.Ok? <==> AccessCheck(old(fs.entries), mountPoint, o, readOnly).None?
    ensures r.Ok? ==> AudioPlanned(old(fs.entries), mountPoint, o, Unrun(r.value.entries), r.value.skippedEntries)
    ensures r.Ok? ==> AudioReport(old(fs.entries), fs.entries, mountPoint, o, r.value)
  {
    var failure := AccessCheck(fs.entries, mountPoint, o, readOnly);
    if failure.Some? {
      return Err(failure.value);
    }
    var plan, skipped := ScanAudioFiles(fs, mountPoint, o);
    forall i | 0 <= i < |plan| ensures plan[i].deleted.None? {
      assert plan[i] in plan;
    }
    var res := ReportAudioPlan(fs, mountPoint, plan, skipped, o);
    r := Ok(res);
  }

  /** What an audio-only cleanup reports once the access check has passed. */
  ghost predicate AudioReport(m0: Entries, m1: Entries, mountPoint: Path, o: CleanupOptions, r: CleanupResult) {
    && r.mountPoint == mountPoint && r.dryRun == o.dryRun
    && r.directoriesDeleted == 0 && r.filesSkipped == |r.skippedEntries|
    && (forall i :: 0 <= i < |r.entries| ==> !r.entries[i].isDirectory)
    && (o.dryRun ==> DryRunReport(r) && m1 == m0)
    && (!o.dryRun ==> RealRunReport(m0, m1, r, o))
  }

  /** The dry-run report or the real run of an audio plan. */
  method ReportAudioPlan(fs: Fs, mountPoint: Path, plan: seq<CleanupEntry>, skipped: seq<SkippedEntry>, o: CleanupOptions)
    returns (r: CleanupResult)
    requires fs.Valid()
    requires forall i :: 0 <= i < |plan| ==> !plan[i].isDirectory && plan[i].deleted.None?
    modifies fs
    ensures fs.Valid()
    ensures Unrun(r.entries) == plan && r.skippedEntries == skipped
    ensures AudioReport(old(fs.entries), fs.entries, mountPoint, o, r)
  {
    assert Unrun(plan) == plan;
    FilesOnlyCounts(plan);
    if o.dryRun {
      return CleanupResult(mountPoint, |plan|, 0, TotalBytes(plan), |skipped|, 0, true, plan, skipped, None);
    }
    var run := RunPlan(fs, mountPoint, plan, skipped, o);
    FilesOnlyCounts(run.value.entries);
    r := run.value.(directoriesDeleted := 0);
  }

  /** A real audio-only run removes every audio file it scheduled: it never fails. */
  lemma AudioCleanupNeverFails(m: Entries, root: Path, o: CleanupOptions, plan: seq<CleanupEntry>, skipped: seq<SkippedEntry>)
    requires AudioPlanned(m, root, o, plan, skipped)
    ensures forall i :: 0 <= i < |plan| ==> Deletion(m, plan).1[i].deleted == Some(true)
  {
    forall i | 0 <= i < |plan| ensures !plan[i].isDirectory && IsFile(m, plan[i].path) {
      assert plan[i] in plan;
    }
    FilesAlwaysRemoved(m, plan);
  }
}
