/**
 * Mirroring a playlist folder onto a device: `clear_directory` empties the
 * mount point except for hidden entries and Windows' system folder, and
 * `copy_directory_contents` copies the playlist tree onto it, leaving out
 * every `playlist.json`.
 *
 * Both walk a directory whose listing order the platform chooses; the
 * methods pick the next entry arbitrarily, and their contracts are the
 * order-independent end states `Cleared` and `Copied`.
 */
module PlaylistSync {
  import opened Wrappers
  import opened Text
  import opened Files
  import opened Errors
  import opened Playlist

  /** `q` lies strictly inside directory `d`. */
  predicate StrictlyBelow(d: Path, q: Path) {
    |d| < |q| && q[..|d|] == d
  }

  /** `m1` and `m2` agree on every path that is not strictly inside `d`. */
  ghost predicate SameOutside(m1: Entries, m2: Entries, d: Path) {
    forall q :: !StrictlyBelow(d, q) ==> (q in m1 <==> q in m2) && (q in m1 ==> m1[q] == m2[q])
  }

  lemma SameOutsideTrans(m1: Entries, m2: Entries, m3: Entries, d: Path)
    requires SameOutside(m1, m2, d) && SameOutside(m2, m3, d)
    ensures SameOutside(m1, m3, d)
  {
  }

  // ---------------------------------------------------------------------------
  // clear_directory
  // ---------------------------------------------------------------------------

  /** Entries `clear_directory` skips: hidden names and `System Volume Information` in any case. */
  predicate KeptOnClear(name: string) {
    StartsWith(name, ".") || EqIgnoreCase(name, "System Volume Information")
  }

  /** `q` is removed once the children of `d` named in `done` have been cleared. */
  predicate ClearedBy(d: Path, q: Path, done: set<string>) {
    StrictlyBelow(d, q) && q[|d|] in done && !KeptOnClear(q[|d|])
  }

  function ClearedOn(m: Entries, d: Path, done: set<string>): (r: Entries)
    ensures forall q :: q in r <==> q in m && !ClearedBy(d, q, done)
    ensures forall q | q in r :: r[q] == m[q]
  {
    map q | q in m && !ClearedBy(d, q, done) :: m[q]
  }

  /**
   * The state `clear_directory(d)` leaves: everything strictly inside `d`
   * whose top-level name is not kept is gone, and nothing else changes.
   */
  function Cleared(m: Entries, d: Path): (r: Entries)
    ensures forall q :: q in r <==> q in m && !(StrictlyBelow(d, q) && !KeptOnClear(q[|d|]))
    ensures forall q | q in r :: r[q] == m[q]
  {
    map q | q in m && !(StrictlyBelow(d, q) && !KeptOnClear(q[|d|])) :: m[q]
  }

  lemma ClearedAll(m: Entries, d: Path)
    requires WellFormed(m)
    ensures ClearedOn(m, d, Children(m, d)) == Cleared(m, d)
  {
    forall q | q in m && StrictlyBelow(d, q)
      ensures q[|d|] in Children(m, d)
    {
      ChildOfBelow(m, d, q);
    }
  }

  /** The top-level entry above anything inside `d` exists. */
  lemma ChildOfBelow(m: Entries, d: Path, q: Path)
    requires StrictlyBelow(d, q) && q in m
    ensures d + [q[|d|]] in m || !WellFormed(m)
  {
    if WellFormed(m) {
      assert q[..|d| + 1] == d + [q[|d|]];
      WellFormedAncestor(m, q, |d| + 1);
      assert q[..|q|] == q;
    }
  }

  /** The paths at or below child `c` of `d` are those strictly inside `d` under top-level name `c`. */
  lemma PrefixChild(d: Path, c: string, q: Path)
    ensures IsPrefix(d + [c], q) <==> StrictlyBelow(d, q) && q[|d|] == c
  {
    if StrictlyBelow(d, q) && q[|d|] == c {
      assert q[..|d| + 1] == d + [c];
    }
    if IsPrefix(d + [c], q) {
      assert q[..|d| + 1][..|d|] == d;
    }
  }

  lemma ClearStepDir(m0: Entries, d: Path, done: set<string>, c: string)
    requires c !in done && !KeptOnClear(c)
    ensures RemoveTree(ClearedOn(m0, d, done), d + [c]) == ClearedOn(m0, d, done + {c})
  {
    forall q
      ensures ClearedBy(d, q, done + {c}) <==> ClearedBy(d, q, done) || IsPrefix(d + [c], q)
    {
      PrefixChild(d, c, q);
    }
  }

  lemma ClearStepFile(m0: Entries, d: Path, done: set<string>, c: string)
    requires WellFormed(m0) && c !in done && d + [c] in m0 && !IsDir(m0, d + [c]) && !KeptOnClear(c)
    ensures ClearedOn(m0, d, done) - {d + [c]} == ClearedOn(m0, d, done + {c})
  {
    forall q | q in m0
      ensures ClearedBy(d, q, done + {c}) <==> ClearedBy(d, q, done) || q == d + [c]
    {
      PrefixChild(d, c, q);
      if IsPrefix(d + [c], q) && q != d + [c] {
        WellFormedAncestor(m0, q, |d| + 1);
      }
    }
  }

  /** One entry of the listing: the bookkeeping and the state the next step starts from. */
  lemma ClearIter(m0: Entries, d: Path, todo: set<string>, done: set<string>, c: string)
    requires WellFormed(m0) && todo + done == Children(m0, d) && todo !! done && c in todo
    ensures (todo - {c}) + (done + {c}) == Children(m0, d) && (todo - {c}) !! (done + {c})
    ensures d + [c] in ClearedOn(m0, d, done) && ClearedOn(m0, d, done)[d + [c]] == m0[d + [c]]
    ensures KeptOnClear(c) ==> ClearedOn(m0, d, done + {c}) == ClearedOn(m0, d, done)
    ensures !KeptOnClear(c) && IsDir(m0, d + [c]) ==>
      RemoveTree(ClearedOn(m0, d, done), d + [c]) == ClearedOn(m0, d, done + {c})
    ensures !KeptOnClear(c) && !IsDir(m0, d + [c]) ==>
      ClearedOn(m0, d, done) - {d + [c]} == ClearedOn(m0, d, done + {c})
  {
    assert (d + [c])[|d|] == c && StrictlyBelow(d, d + [c]);
    if !KeptOnClear(c) {
      if IsDir(m0, d + [c]) {
        ClearStepDir(m0, d, done, c);
      } else {
        ClearStepFile(m0, d, done, c);
      }
    } else {
      assert forall q :: ClearedBy(d, q, done + {c}) == ClearedBy(d, q, done);
    }
  }

  /** `clear_directory(dir)`. */
  method ClearDirectory(fs: Fs, dir: Path) returns (r: Result<(), Error>)
    requires fs.Valid()
    modifies fs
    ensures fs.Valid()
    ensures r.Ok? <==> IsDir(old(fs.entries), dir)
    ensures r.Err? ==> r.error == FileSystem(FileSystemError.ReadFailed(dir)) && fs.entries == old(fs.entries)
    ensures r.Ok? ==> fs.entries == Cleared(old(fs.entries), dir)
  {
    if !IsDir(fs.entries, dir) {
      return Err(FileSystem(FileSystemError.ReadFailed(dir)));
    }
    ghost var m0 := fs.entries;
    var todo := Children(fs.entries, dir);
    ghost var done: set<string> := {};
    assert ClearedOn(m0, dir, {}) == m0;
    while todo != {}
      invariant fs.Valid()
      invariant todo + done == Children(m0, dir) && todo !! done
      invariant fs.entries == ClearedOn(m0, dir, done)
      decreases |todo|
    {
      var c :| c in todo;
      var p := dir + [c];
      ClearIter(m0, dir, todo, done, c);
      if !KeptOnClear(c) {
        if IsDir(fs.entries, p) {
          var _ := fs.RemoveDirAll(p);
        } else {
          var _ := fs.RemoveFile(p);
        }
      }
      todo := todo - {c};
      done := done + {c};
    }
    ClearedAll(m0, dir);
    return Ok(());
  }

  // ---------------------------------------------------------------------------
  // copy_directory_contents
  // ---------------------------------------------------------------------------

  /** No component of the relative path is `playlist.json`. */
  predicate NoMetadataFile(rel: Path) {
    forall i :: 0 <= i < |rel| ==> rel[i] != METADATA_FILE
  }

  /**
   * The entry at `src + rel` is copied when the top-level name of `rel` is in
   * `names`: no level of the walk skipped it as a `playlist.json`.
   */
  ghost predicate Copies(m: Entries, src: Path, rel: Path, names: set<string>) {
    rel != [] && rel[0] in names && src + rel in m && NoMetadataFile(rel)
  }

  ghost predicate IsTarget(m: Entries, src: Path, dst: Path, q: Path, names: set<string>) {
    IsPrefix(dst, q) && Copies(m, src, q[|dst|..], names)
  }

  /**
   * The state after copying the subtrees of `src`'s children named in `names`
   * onto `dst`: every copied entry appears at the same relative place under
   * `dst`, a file with its content and a directory as a directory.
   */
  ghost function CopiedOn(m: Entries, src: Path, dst: Path, names: set<string>): (r: Entries)
    ensures forall q :: q in r <==> q in m || IsTarget(m, src, dst, q, names)
    ensures forall q | q in r :: r[q] == if IsTarget(m, src, dst, q, names) then m[src + q[|dst|..]] else m[q]
  {
    var targets := set q | q in m && IsPrefix(src, q) && Copies(m, src, q[|src|..], names) :: dst + q[|src|..];
    forall q | IsTarget(m, src, dst, q, names)
      ensures q in targets
    {
      var s := src + q[|dst|..];
      assert s[|src|..] == q[|dst|..] && IsPrefix(src, s);
      assert q == dst + s[|src|..];
    }
    forall q | q in targets
      ensures IsTarget(m, src, dst, q, names)
    {
      var s :| s in m && IsPrefix(src, s) && Copies(m, src, s[|src|..], names) && q == dst + s[|src|..];
      assert q[|dst|..] == s[|src|..];
    }
    map q | q in m.Keys + targets :: if IsTarget(m, src, dst, q, names) then m[src + q[|dst|..]] else m[q]
  }

  /** `copy_directory_contents(src, dst)` after it succeeded. */
  ghost function Copied(m: Entries, src: Path, dst: Path): Entries {
    CopiedOn(m, src, dst, Children(m, src))
  }

  /** A copied entry meets an entry of the other kind at its destination. */
  ghost predicate Clash(m: Entries, s: Path, t: Path) {
    s in m && ((m[s].File? && IsDir(m, t)) || (m[s].Dir? && IsFile(m, t)))
  }

  ghost predicate ConflictOn(m: Entries, src: Path, dst: Path, names: set<string>) {
    exists rel :: Copies(m, src, rel, names) && Clash(m, src + rel, dst + rel)
  }

  /**
   * The copy fails exactly when some copied file lands on a directory
   * (`fs::copy` refuses it) or some copied directory lands on a file
   * (`create_dir_all` refuses it).
   */
  ghost predicate Conflict(m: Entries, src: Path, dst: Path) {
    ConflictOn(m, src, dst, Children(m, src))
  }

  /** Everything at or below `p`; it shrinks along the recursion. */
  ghost function Below(m: Entries, p: Path): set<Path> {
    set q | q in m && IsPrefix(p, q)
  }

  lemma DisjointChild(src: Path, dst: Path, c: string)
    requires Disjoint(src, dst)
    ensures Disjoint(src + [c], dst + [c])
    ensures !IsPrefix(dst, src + [c]) && !StrictlyBelow(dst, src + [c])
  {
    PrefixDrop(src, dst, c);
    PrefixDrop(dst, src, c);
    PrefixSnoc(dst, src, c);
    PrefixSnoc(src, src, c);
    assert src[..|src|] == src;
  }

  /** Paths inside the source tree are never destinations of the copy. */
  lemma SourceNotTarget(m: Entries, src: Path, dst: Path, q: Path, names: set<string>)
    requires Disjoint(src, dst) && IsPrefix(src, q)
    ensures !IsTarget(m, src, dst, q, names) && !StrictlyBelow(dst, q)
  {
    if |src| <= |dst| {
      PrefixOrderIf(src, dst, q);
    } else {
      PrefixOrderIf(dst, src, q);
    }
  }

  lemma PrefixOrderIf(p: Path, q: Path, r: Path)
    requires |p| <= |q|
    ensures IsPrefix(p, r) && IsPrefix(q, r) ==> IsPrefix(p, q)
  {
    if IsPrefix(p, r) && IsPrefix(q, r) {
      PrefixOrder(p, q, r);
    }
  }

  lemma CopiedOnSameOutside(m: Entries, src: Path, dst: Path, names: set<string>)
    ensures SameOutside(m, CopiedOn(m, src, dst, names), dst)
  {
  }

  lemma BelowShrinks(m0: Entries, m1: Entries, src: Path, dst: Path, c: string)
    requires Disjoint(src, dst) && src in m0 && SameOutside(m0, m1, dst)
    ensures |Below(m1, src + [c])| < |Below(m0, src)|
  {
    var a := Below(m1, src + [c]);
    var b := Below(m0, src);
    forall q | q in a
      ensures q in b - {src}
    {
      assert q[..|src| + 1][..|src|] == src;
      SourceNotTarget(m0, src, dst, q, {});
    }
    assert a <= b - {src};
    SubsetCard(a, b - {src});
  }

  lemma SubsetCard<T>(a: set<T>, b: set<T>)
    requires a <= b
    ensures |a| <= |b|
  {
    assert b == a + (b - a);
  }

  /** A `playlist.json` child of `src` adds nothing and risks nothing. */
  lemma SkipStep(m0: Entries, src: Path, dst: Path, done: set<string>)
    ensures CopiedOn(m0, src, dst, done + {METADATA_FILE}) == CopiedOn(m0, src, dst, done)
    ensures ConflictOn(m0, src, dst, done + {METADATA_FILE}) == ConflictOn(m0, src, dst, done)
  {
    forall q
      ensures IsTarget(m0, src, dst, q, done + {METADATA_FILE}) == IsTarget(m0, src, dst, q, done)
    {
    }
    assert forall rel :: Copies(m0, src, rel, done + {METADATA_FILE}) == Copies(m0, src, rel, done);
  }

  /** The top-level entry of a copied path exists, and is a directory when the path goes deeper. */
  lemma CopiesTop(m: Entries, src: Path, rel: Path, names: set<string>)
    requires WellFormed(m) && Copies(m, src, rel, names)
    ensures src + [rel[0]] in m && (|rel| > 1 ==> IsDir(m, src + [rel[0]]))
  {
    assert (src + rel)[..|src| + 1] == src + [rel[0]];
    assert (src + rel)[..|src + rel|] == src + rel;
    WellFormedAncestor(m, src + rel, |src| + 1);
  }

  /** A file child of `src` is copied onto `dst + [c]` and nothing else. */
  lemma FileStep(m0: Entries, src: Path, dst: Path, done: set<string>, c: string)
    requires WellFormed(m0) && IsFile(m0, src + [c]) && c != METADATA_FILE
    ensures CopiedOn(m0, src, dst, done)[dst + [c] := m0[src + [c]]] == CopiedOn(m0, src, dst, done + {c})
    ensures ConflictOn(m0, src, dst, done + {c}) ==>
      ConflictOn(m0, src, dst, done) || IsDir(m0, dst + [c])
  {
    forall rel | Copies(m0, src, rel, {c})
      ensures rel == [c]
    {
      CopiesTop(m0, src, rel, {c});
      assert rel == [rel[0]];
    }
    var cur := CopiedOn(m0, src, dst, done);
    var nxt := CopiedOn(m0, src, dst, done + {c});
    forall q
      ensures IsTarget(m0, src, dst, q, done + {c}) <==> IsTarget(m0, src, dst, q, done) || q == dst + [c]
    {
      if q == dst + [c] {
        assert q[|dst|..] == [c];
        assert src + [c] in m0;
      }
      if IsTarget(m0, src, dst, q, done + {c}) && q[|dst|..][0] == c {
        assert q[|dst|..] == [c] by { assert Copies(m0, src, q[|dst|..], {c}); }
        assert q == q[..|dst|] + q[|dst|..];
      }
    }
    assert (dst + [c])[|dst|..] == [c];
    assert cur[dst + [c] := m0[src + [c]]] == nxt;
    if ConflictOn(m0, src, dst, done + {c}) {
      var rel :| Copies(m0, src, rel, done + {c}) && Clash(m0, src + rel, dst + rel);
      if rel[0] == c {
        assert Copies(m0, src, rel, {c});
      } else {
        assert Copies(m0, src, rel, done);
      }
    }
  }

  /**
   * A directory child of `src`: after `create_dir_all(dst + [c])` produced
   * `m1`, copying `src + [c]` onto `dst + [c]` in `m1` is the step from `done`
   * to `done + {c}` of the whole copy.
   */
  lemma DirStep(m0: Entries, src: Path, dst: Path, done: set<string>, c: string, m1: Entries)
    requires WellFormed(m0) && WellFormed(m1) && Disjoint(src, dst) && IsDir(m0, dst)
    requires IsDir(m0, src + [c]) && c != METADATA_FILE && c !in done
    requires !IsFile(CopiedOn(m0, src, dst, done), dst + [c])
    requires m1 == AddDirs(CopiedOn(m0, src, dst, done), dst + [c])
    ensures Copied(m1, src + [c], dst + [c]) == CopiedOn(m0, src, dst, done + {c})
  {
    var lhs := Copied(m1, src + [c], dst + [c]);
    var rhs := CopiedOn(m0, src, dst, done + {c});
    forall q
      ensures q in lhs <==> q in rhs
      ensures q in lhs ==> lhs[q] == rhs[q]
    {
      DirStepAt(m0, src, dst, done, c, m1, q);
    }
    assert lhs.Keys == rhs.Keys;
  }

  lemma DirStepAt(m0: Entries, src: Path, dst: Path, done: set<string>, c: string, m1: Entries, q: Path)
    requires WellFormed(m0) && WellFormed(m1) && Disjoint(src, dst) && IsDir(m0, dst)
    requires IsDir(m0, src + [c]) && c != METADATA_FILE && c !in done
    requires !IsFile(CopiedOn(m0, src, dst, done), dst + [c])
    requires m1 == AddDirs(CopiedOn(m0, src, dst, done), dst + [c])
    ensures q in Copied(m1, src + [c], dst + [c]) <==> q in CopiedOn(m0, src, dst, done + {c})
    ensures q in Copied(m1, src + [c], dst + [c]) ==> Copied(m1, src + [c], dst + [c])[q] == CopiedOn(m0, src, dst, done + {c})[q]
  {
    if StrictlyBelow(dst + [c], q) {
      DirStepBelow(m0, src, dst, done, c, m1, q);
    } else if q == dst + [c] {
      DirStepSelf(m0, src, dst, done, c, m1, q);
    } else {
      DirStepOutside(m0, src, dst, done, c, m1, q);
    }
  }

  lemma DirStepSelf(m0: Entries, src: Path, dst: Path, done: set<string>, c: string, m1: Entries, q: Path)
    requires WellFormed(m0) && WellFormed(m1) && Disjoint(src, dst) && IsDir(m0, dst)
    requires IsDir(m0, src + [c]) && c != METADATA_FILE && c !in done
    requires !IsFile(CopiedOn(m0, src, dst, done), dst + [c])
    requires m1 == AddDirs(CopiedOn(m0, src, dst, done), dst + [c])
    requires q == dst + [c]
    ensures q in Copied(m1, src + [c], dst + [c]) <==> q in CopiedOn(m0, src, dst, done + {c})
    ensures q in Copied(m1, src + [c], dst + [c]) ==> Copied(m1, src + [c], dst + [c])[q] == CopiedOn(m0, src, dst, done + {c})[q]
  {
    var s := src + [c];
    var d := dst + [c];
    CopiedOnSameOutside(m0, src, dst, done);
    assert !IsTarget(m1, s, d, q, Children(m1, s));
    assert q[|dst|..] == [c];
    assert IsTarget(m0, src, dst, q, done + {c});
  }

  lemma DirStepOutside(m0: Entries, src: Path, dst: Path, done: set<string>, c: string, m1: Entries, q: Path)
    requires WellFormed(m0) && Disjoint(src, dst) && IsDir(m0, dst)
    requires IsDir(m0, src + [c]) && c != METADATA_FILE && c !in done
    requires !IsFile(CopiedOn(m0, src, dst, done), dst + [c])
    requires m1 == AddDirs(CopiedOn(m0, src, dst, done), dst + [c])
    requires q != dst + [c] && !StrictlyBelow(dst + [c], q)
    ensures q in Copied(m1, src + [c], dst + [c]) <==> q in CopiedOn(m0, src, dst, done + {c})
    ensures q in Copied(m1, src + [c], dst + [c]) ==> Copied(m1, src + [c], dst + [c])[q] == CopiedOn(m0, src, dst, done + {c})[q]
  {
    var d := dst + [c];
    var cur := CopiedOn(m0, src, dst, done);
    var lhs := Copied(m1, src + [c], d);
    var rhs := CopiedOn(m0, src, dst, done + {c});
    // `q` is not a destination of the child's copy, so the left side is `m1` at `q`.
    assert !IsPrefix(d, q);
    assert (q in lhs <==> q in m1) && (q in lhs ==> lhs[q] == m1[q]);
    OutsideNoNewTarget(m0, src, dst, done, c, q);
    OutsideAddDirs(m0, src, dst, done, c, m1, q);
  }

  /** Outside `dst + [c]`, taking child `c` adds no destination to the whole copy. */
  lemma OutsideNoNewTarget(m0: Entries, src: Path, dst: Path, done: set<string>, c: string, q: Path)
    requires q != dst + [c] && !StrictlyBelow(dst + [c], q)
    ensures var cur := CopiedOn(m0, src, dst, done); var rhs := CopiedOn(m0, src, dst, done + {c});
      (q in rhs <==> q in cur) && (q in rhs ==> rhs[q] == cur[q])
  {
    if IsPrefix(dst, q) && |q| > |dst| {
      PrefixExtend(dst, q);
      assert q[|dst|..][0] == q[|dst|] != c;
    }
    assert IsTarget(m0, src, dst, q, done + {c}) <==> IsTarget(m0, src, dst, q, done);
  }

  /** `create_dir_all` only adds the ancestors of `dst + [c]`, and those above `dst` already exist. */
  lemma OutsideAddDirs(m0: Entries, src: Path, dst: Path, done: set<string>, c: string, m1: Entries, q: Path)
    requires WellFormed(m0) && IsDir(m0, dst)
    requires m1 == AddDirs(CopiedOn(m0, src, dst, done), dst + [c])
    requires q != dst + [c]
    ensures var cur := CopiedOn(m0, src, dst, done); (q in m1 <==> q in cur) && (q in m1 ==> m1[q] == cur[q])
  {
    var d := dst + [c];
    if IsPrefix(q, d) {
      assert IsPrefix(q, dst) by { assert q == d[..|q|] == dst[..|q|]; }
      WellFormedAncestor(m0, dst, |q|);
      assert dst[..|q|] == q;
      assert q in m0;
    }
  }

  lemma DirStepBelow(m0: Entries, src: Path, dst: Path, done: set<string>, c: string, m1: Entries, q: Path)
    requires WellFormed(m0) && WellFormed(m1) && Disjoint(src, dst) && IsDir(m0, dst)
    requires IsDir(m0, src + [c]) && c != METADATA_FILE && c !in done
    requires !IsFile(CopiedOn(m0, src, dst, done), dst + [c])
    requires m1 == AddDirs(CopiedOn(m0, src, dst, done), dst + [c])
    requires StrictlyBelow(dst + [c], q)
    ensures q in Copied(m1, src + [c], dst + [c]) <==> q in CopiedOn(m0, src, dst, done + {c})
    ensures q in Copied(m1, src + [c], dst + [c]) ==> Copied(m1, src + [c], dst + [c])[q] == CopiedOn(m0, src, dst, done + {c})[q]
  {
    BelowUntouched(m0, src, dst, done, c, m1, q);
    BelowTarget(m0, src, dst, done, c, m1, q);
  }

  /** Below `dst + [c]`, neither the copy so far nor `create_dir_all` has changed anything. */
  lemma BelowUntouched(m0: Entries, src: Path, dst: Path, done: set<string>, c: string, m1: Entries, q: Path)
    requires c !in done
    requires m1 == AddDirs(CopiedOn(m0, src, dst, done), dst + [c])
    requires StrictlyBelow(dst + [c], q)
    ensures (q in m1 <==> q in m0) && (q in m1 ==> m1[q] == m0[q])
  {
    var d := dst + [c];
    assert q[..|d|] == d;
    assert q[|dst|..][0] == q[|dst|] == c;
    assert !IsTarget(m0, src, dst, q, done);
    PrefixSnoc(q, dst, c);
    assert !IsPrefix(q, d);
  }

  /** Below `dst + [c]`, the child's copy and the whole copy target the same paths, from the same source entries. */
  lemma BelowTarget(m0: Entries, src: Path, dst: Path, done: set<string>, c: string, m1: Entries, q: Path)
    requires WellFormed(m1) && Disjoint(src, dst) && c != METADATA_FILE
    requires m1 == AddDirs(CopiedOn(m0, src, dst, done), dst + [c])
    requires StrictlyBelow(dst + [c], q)
    ensures IsTarget(m1, src + [c], dst + [c], q, Children(m1, src + [c])) <==> IsTarget(m0, src, dst, q, done + {c})
    ensures (src + [c]) + q[|dst + [c]|..] == src + q[|dst|..]
    ensures src + q[|dst|..] in m0 ==> m1[src + q[|dst|..]] == m0[src + q[|dst|..]]
  {
    var s := src + [c];
    var d := dst + [c];
    var rel' := q[|d|..];
    var rel := [c] + rel';
    assert q == d + rel';
    assert q[|dst|..] == rel && q[..|dst|] == dst;
    assert s + rel' == src + rel;
    assert IsPrefix(d, q);
    ConflictTransferCopies(m0, src, dst, done, c, m1, rel');
    assert Copies(m0, src, rel, {c}) <==> Copies(m0, src, rel, done + {c});
    SourceUnchanged(m0, src, dst, done, c, m1, src + rel);
  }

  /** The copy and `create_dir_all(dst + [c])` leave the source tree alone. */
  lemma SourceUnchanged(m0: Entries, src: Path, dst: Path, done: set<string>, c: string, m1: Entries, p: Path)
    requires Disjoint(src, dst) && IsPrefix(src, p)
    requires m1 == AddDirs(CopiedOn(m0, src, dst, done), dst + [c])
    ensures p in m1 <==> p in m0
    ensures p in m0 ==> m1[p] == m0[p]
  {
    SourceNotTarget(m0, src, dst, p, done);
    PrefixTransIf(src, p, dst + [c]);
    PrefixSnoc(src, dst, c);
    PrefixSnoc(dst, dst, c);
    assert dst[..|dst|] == dst;
  }

  lemma PrefixTransIf(a: Path, b: Path, d: Path)
    ensures IsPrefix(a, b) && IsPrefix(b, d) ==> IsPrefix(a, d)
  {
    if IsPrefix(a, b) && IsPrefix(b, d) {
      assert d[..|a|] == d[..|b|][..|a|];
    }
  }

  /** A conflict inside the subtree of child `c` is a conflict of the whole copy, and conversely. */
  lemma DirStepConflict(m0: Entries, src: Path, dst: Path, done: set<string>, c: string, m1: Entries)
    requires WellFormed(m0) && WellFormed(m1) && Disjoint(src, dst) && IsDir(m0, dst)
    requires IsDir(m0, src + [c]) && c != METADATA_FILE && c !in done && c in Children(m0, src)
    requires !IsFile(CopiedOn(m0, src, dst, done), dst + [c])
    requires m1 == AddDirs(CopiedOn(m0, src, dst, done), dst + [c])
    ensures Conflict(m1, src + [c], dst + [c]) ==> Conflict(m0, src, dst)
    ensures ConflictOn(m0, src, dst, done + {c}) ==>
      ConflictOn(m0, src, dst, done) || IsFile(m0, dst + [c]) || Conflict(m1, src + [c], dst + [c])
  {
    var s := src + [c];
    var d := dst + [c];
    var cur := CopiedOn(m0, src, dst, done);
    CopiedOnSameOutside(m0, src, dst, done);
    if Conflict(m1, s, d) {
      var rel' :| Copies(m1, s, rel', Children(m1, s)) && Clash(m1, s + rel', d + rel');
      var rel := [c] + rel';
      ConflictTransfer(m0, src, dst, done, c, m1, rel');
      assert Copies(m0, src, rel, Children(m0, src));
    }
    if ConflictOn(m0, src, dst, done + {c}) {
      var rel :| Copies(m0, src, rel, done + {c}) && Clash(m0, src + rel, dst + rel);
      if rel[0] == c && |rel| > 1 {
        var rel' := rel[1..];
        assert rel == [c] + rel';
        ConflictTransfer(m0, src, dst, done, c, m1, rel');
        assert Copies(m1, s, rel', Children(m1, s));
      } else if rel[0] == c {
        assert rel == [c];
      } else {
        assert Copies(m0, src, rel, done);
      }
    }
  }

  lemma ConflictTransfer(m0: Entries, src: Path, dst: Path, done: set<string>, c: string, m1: Entries, rel': Path)
    requires WellFormed(m0) && WellFormed(m1) && Disjoint(src, dst) && IsDir(m0, dst)
    requires c != METADATA_FILE && c !in done
    requires m1 == AddDirs(CopiedOn(m0, src, dst, done), dst + [c])
    requires rel' != []
    ensures Copies(m1, src + [c], rel', Children(m1, src + [c])) <==> Copies(m0, src, [c] + rel', {c})
    ensures Copies(m1, src + [c], rel', Children(m1, src + [c])) ==>
      (Clash(m1, src + [c] + rel', dst + [c] + rel') <==> Clash(m0, src + ([c] + rel'), dst + ([c] + rel')))
  {
    ConflictTransferCopies(m0, src, dst, done, c, m1, rel');
    ConflictTransferClash(m0, src, dst, done, c, m1, rel');
  }

  /** The child's copy takes exactly the entries the whole copy takes through `c`. */
  lemma ConflictTransferCopies(m0: Entries, src: Path, dst: Path, done: set<string>, c: string, m1: Entries, rel': Path)
    requires WellFormed(m1) && Disjoint(src, dst) && c != METADATA_FILE
    requires m1 == AddDirs(CopiedOn(m0, src, dst, done), dst + [c])
    requires rel' != []
    ensures Copies(m1, src + [c], rel', Children(m1, src + [c])) <==> Copies(m0, src, [c] + rel', {c})
  {
    var s := src + [c];
    var rel := [c] + rel';
    assert s + rel' == src + rel;
    SourceNotTarget(m0, src, dst, src + rel, done);
    CopiedOnSameOutside(m0, src, dst, done);
    assert src + rel in m1 <==> src + rel in m0;
    if src + rel in m0 {
      ChildOfBelow(m1, s, s + rel');
      assert (s + rel')[|s|] == rel'[0];
    }
    NoMetadataFileCons(c, rel');
  }

  lemma NoMetadataFileCons(c: string, rel: Path)
    requires c != METADATA_FILE
    ensures NoMetadataFile([c] + rel) <==> NoMetadataFile(rel)
  {
    forall i | 0 <= i < |rel|
      ensures ([c] + rel)[i + 1] == rel[i]
    {
    }
  }

  /** Where the child's copy clashes, the whole copy clashes, and the other way round. */
  lemma ConflictTransferClash(m0: Entries, src: Path, dst: Path, done: set<string>, c: string, m1: Entries, rel': Path)
    requires Disjoint(src, dst) && c !in done
    requires m1 == AddDirs(CopiedOn(m0, src, dst, done), dst + [c])
    requires rel' != []
    ensures Clash(m1, src + [c] + rel', dst + [c] + rel') <==> Clash(m0, src + ([c] + rel'), dst + ([c] + rel'))
  {
    var rel := [c] + rel';
    assert src + [c] + rel' == src + rel;
    assert dst + [c] + rel' == dst + rel;
    SourceNotTarget(m0, src, dst, src + rel, done);
    CopiedOnSameOutside(m0, src, dst, done);
    assert (src + rel in m1 <==> src + rel in m0) && (src + rel in m0 ==> m1[src + rel] == m0[src + rel]);
    var t := dst + rel;
    assert StrictlyBelow(dst, t) && t[..|dst|] == dst && t[|dst|..] == rel;
    assert !IsTarget(m0, src, dst, t, done);
    assert !IsPrefix(t, dst + [c]);
    assert (t in m1 <==> t in m0) && (t in m0 ==> m1[t] == m0[t]);
  }

  /** One child `c` of the listing: bookkeeping, and what the state holds at `src + [c]` and `dst + [c]`. */
  lemma CopyIter(m0: Entries, src: Path, dst: Path, todo: set<string>, done: set<string>, c: string)
    requires Disjoint(src, dst) && IsDir(m0, dst)
    requires todo + done == Children(m0, src) && todo !! done && c in todo
    ensures (todo - {c}) + (done + {c}) == Children(m0, src) && (todo - {c}) !! (done + {c})
    ensures c in Children(m0, src) && c !in done && Parent(dst + [c]) == dst
    ensures src + [c] in CopiedOn(m0, src, dst, done) && CopiedOn(m0, src, dst, done)[src + [c]] == m0[src + [c]]
    ensures dst + [c] in CopiedOn(m0, src, dst, done) <==> dst + [c] in m0
    ensures dst + [c] in m0 ==> CopiedOn(m0, src, dst, done)[dst + [c]] == m0[dst + [c]]
    ensures IsDir(CopiedOn(m0, src, dst, done + {c}), dst)
  {
    SourceNotTarget(m0, src, dst, src + [c], done);
    assert (dst + [c])[|dst|..] == [c];
    assert !IsTarget(m0, src, dst, dst + [c], done);
    assert dst[|dst|..] == [];
    assert !IsTarget(m0, src, dst, dst, done + {c});
  }

  /** A copied child meeting an entry of the other kind at its destination is a conflict. */
  lemma ChildClash(m0: Entries, src: Path, dst: Path, c: string)
    requires c in Children(m0, src) && c != METADATA_FILE
    requires (IsFile(m0, src + [c]) && IsDir(m0, dst + [c])) || (IsDir(m0, src + [c]) && IsFile(m0, dst + [c]))
    ensures Conflict(m0, src, dst)
  {
    assert [c][0] == c && src + [c] in m0;
    assert Copies(m0, src, [c], Children(m0, src)) && Clash(m0, src + [c], dst + [c]);
  }

  /** `create_dir_all(p)` succeeding means no file sits at `p`. */
  lemma CreateDirNoFile(m: Entries, p: Path)
    requires forall i | 0 <= i <= |p| :: !IsFile(m, p[..i])
    ensures !IsFile(m, p)
  {
    assert p[..|p|] == p;
  }

  /** What the recursive call into a directory child may assume and what it implies. */
  lemma DirPrep(m0: Entries, src: Path, dst: Path, done: set<string>, c: string, m1: Entries)
    requires WellFormed(m0) && WellFormed(m1) && WellFormed(CopiedOn(m0, src, dst, done))
    requires Disjoint(src, dst) && IsDir(m0, dst)
    requires IsDir(m0, src + [c]) && c != METADATA_FILE && c !in done && c in Children(m0, src)
    requires !IsFile(CopiedOn(m0, src, dst, done), dst + [c])
    requires m1 == AddDirs(CopiedOn(m0, src, dst, done), dst + [c])
    ensures IsDir(m1, dst + [c]) && Disjoint(src + [c], dst + [c])
    ensures |Below(m1, src + [c])| < |Below(m0, src)|
    ensures Conflict(m1, src + [c], dst + [c]) ==> Conflict(m0, src, dst)
    ensures ConflictOn(m0, src, dst, done + {c}) ==>
      ConflictOn(m0, src, dst, done) || IsFile(m0, dst + [c]) || Conflict(m1, src + [c], dst + [c])
  {
    DirPrepShape(m0, src, dst, done, c, m1);
    DirStepConflict(m0, src, dst, done, c, m1);
  }

  /** After `create_dir_all(dst + [c])`: the child's destination is a directory and the recursion has less to visit. */
  lemma DirPrepShape(m0: Entries, src: Path, dst: Path, done: set<string>, c: string, m1: Entries)
    requires WellFormed(m0) && WellFormed(CopiedOn(m0, src, dst, done))
    requires Disjoint(src, dst) && IsDir(m0, dst) && IsDir(m0, src + [c])
    requires !IsFile(CopiedOn(m0, src, dst, done), dst + [c])
    requires m1 == AddDirs(CopiedOn(m0, src, dst, done), dst + [c])
    ensures IsDir(m1, dst + [c]) && Disjoint(src + [c], dst + [c])
    ensures |Below(m1, src + [c])| < |Below(m0, src)|
  {
    var cur := CopiedOn(m0, src, dst, done);
    CopiedOnSameOutside(m0, src, dst, done);
    CreateDirAllStep(cur, dst, c);
    SameOutsideTrans(m0, cur, m1, dst);
    DisjointChild(src, dst, c);
    ParentIsDir(m0, src + [c]);
    assert Parent(src + [c]) == src;
    BelowShrinks(m0, m1, src, dst, c);
  }

  /** A failed recursive copy still changed nothing outside `dst`. */
  lemma DirFrame(m0: Entries, src: Path, dst: Path, done: set<string>, c: string, m1: Entries, m2: Entries)
    requires WellFormed(CopiedOn(m0, src, dst, done)) && IsDir(m0, dst)
    requires m1 == AddDirs(CopiedOn(m0, src, dst, done), dst + [c])
    requires SameOutside(m1, m2, dst + [c])
    ensures SameOutside(m0, m2, dst)
  {
    var cur := CopiedOn(m0, src, dst, done);
    CopiedOnSameOutside(m0, src, dst, done);
    CreateDirAllStep(cur, dst, c);
    SameOutsideNarrow(m1, m2, dst, c);
    SameOutsideTrans(m0, cur, m1, dst);
    SameOutsideTrans(m0, m1, m2, dst);
  }

  /** `copy_directory_contents(src, dst)`. */
  method CopyDirectoryContents(fs: Fs, src: Path, dst: Path) returns (r: Result<(), Error>)
    requires fs.Valid() && IsDir(fs.entries, dst) && Disjoint(src, dst)
    modifies fs
    decreases |Below(fs.entries, src)|
    ensures fs.Valid()
    ensures SameOutside(old(fs.entries), fs.entries, dst)
    ensures r.Ok? <==> !Conflict(old(fs.entries), src, dst)
    ensures r.Ok? ==> fs.entries == Copied(old(fs.entries), src, dst)
    ensures r.Err? ==> r.error.FileSystem? && (r.error.fs.CopyFailed? || r.error.fs.CreateDirFailed?)
  {
    ghost var m0 := fs.entries;
    if !IsDir(fs.entries, src) {
      // `WalkDir` over a missing path or a file yields no entries at depth 1.
      NoChildren(m0, src);
      CopiedOnSameOutside(m0, src, dst, {});
      CopiedOnNothing(m0, src, dst);
      return Ok(());
    }
    var todo := Children(fs.entries, src);
    ghost var done: set<string> := {};
    CopiedOnNothing(m0, src, dst);
    while todo != {}
      invariant fs.Valid() && IsDir(fs.entries, dst)
      invariant todo + done == Children(m0, src) && todo !! done
      invariant fs.entries == CopiedOn(m0, src, dst, done)
      invariant !ConflictOn(m0, src, dst, done)
      decreases |todo|
    {
      var c :| c in todo;
      ghost var cur := fs.entries;
      CopyIter(m0, src, dst, todo, done, c);
      if c == METADATA_FILE {
        SkipStep(m0, src, dst, done);
      } else if IsFile(fs.entries, src + [c]) {
        var ok := fs.CopyFile(src + [c], dst + [c]);
        if !ok {
          ChildClash(m0, src, dst, c);
          CopiedOnSameOutside(m0, src, dst, done);
          return Err(FileSystem(FileSystemError.CopyFailed(src + [c], dst + [c])));
        }
        FileStep(m0, src, dst, done, c);
      } else {
        var ok := fs.CreateDirAll(dst + [c]);
        if !ok {
          CreateDirFailure(cur, dst, c);
          ChildClash(m0, src, dst, c);
          CopiedOnSameOutside(m0, src, dst, done);
          return Err(FileSystem(FileSystemError.CreateDirFailed(dst + [c])));
        }
        ghost var m1 := fs.entries;
        CreateDirNoFile(cur, dst + [c]);
        DirPrep(m0, src, dst, done, c, m1);
        var sub := CopyDirectoryContents(fs, src + [c], dst + [c]);
        if sub.Err? {
          DirFrame(m0, src, dst, done, c, m1, fs.entries);
          return sub;
        }
        DirStep(m0, src, dst, done, c, m1);
      }
      todo := todo - {c};
      done := done + {c};
    }
    CopiedOnSameOutside(m0, src, dst, done);
    return Ok(());
  }

  /** A path that is not a directory has no children. */
  lemma NoChildren(m: Entries, p: Path)
    requires WellFormed(m) && !IsDir(m, p)
    ensures Children(m, p) == {}
  {
    forall c | c in Children(m, p)
      ensures false
    {
      ParentIsDir(m, p + [c]);
    }
  }

  /** Before any child is handled the copy has changed nothing. */
  lemma CopiedOnNothing(m: Entries, src: Path, dst: Path)
    ensures CopiedOn(m, src, dst, {}) == m
  {
  }

  /** `create_dir_all(dst + [c])` under an existing directory fails only on a file at `dst + [c]`. */
  lemma CreateDirFailure(m: Entries, dst: Path, c: string)
    requires WellFormed(m) && IsDir(m, dst)
    requires !forall i | 0 <= i <= |dst + [c]| :: !IsFile(m, (dst + [c])[..i])
    ensures IsFile(m, dst + [c])
  {
    forall i | 0 <= i <= |dst|
      ensures !IsFile(m, (dst + [c])[..i])
    {
      assert (dst + [c])[..i] == dst[..i];
      WellFormedAncestor(m, dst, i);
      assert dst[..|dst|] == dst;
    }
    assert (dst + [c])[..|dst| + 1] == dst + [c];
  }

  /** What `create_dir_all(dst + [c])` changes under an existing directory `dst`. */
  lemma CreateDirAllStep(m: Entries, dst: Path, c: string)
    requires WellFormed(m) && IsDir(m, dst)
    ensures SameOutside(m, AddDirs(m, dst + [c]), dst)
  {
    var m1 := AddDirs(m, dst + [c]);
    forall q | !StrictlyBelow(dst, q) && q in m1
      ensures q in m
    {
      if q !in m {
        assert IsPrefix(q, dst + [c]);
        if |q| <= |dst| {
          assert q == dst[..|q|];
          WellFormedAncestor(m, dst, |q|);
        }
      }
    }
  }

  lemma SameOutsideNarrow(m1: Entries, m2: Entries, dst: Path, c: string)
    requires SameOutside(m1, m2, dst + [c])
    ensures SameOutside(m1, m2, dst)
  {
    forall q | StrictlyBelow(dst + [c], q)
      ensures StrictlyBelow(dst, q)
    {
      assert q[..|dst| + 1][..|dst|] == dst;
    }
  }
}
