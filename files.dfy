/**
 * The host file system the engine reads and writes (through `std::fs` and
 * `walkdir`), modelled as a finite map from absolute paths to entries.  A path
 * is its list of components from the root; the root is `[]`.
 *
 * `Fs` is the mutable file system.  Its methods are the `std::fs` calls the
 * core makes; each states exactly when the call succeeds and what it changes.
 * I/O failures that do not follow from the shape of the tree (permissions,
 * a device pulled out mid-call) are not modelled.
 */
module Files {
  import opened Wrappers

  type Path = seq<string>
  type Bytes = seq<bv8>

  datatype Node = Dir | File(content: Bytes)

  type Entries = map<Path, Node>

  predicate IsContinuation(b: bv8) {
    0x80 <= b <= 0xBF
  }

  /**
   * Well-formed UTF-8 (section 4 of RFC 3629): each character is one to four
   * bytes, with no overlong forms, no surrogates and nothing past U+10FFFF.
   * `fs::read_to_string` refuses a file whose bytes are not.
   */
  predicate ValidUtf8(s: Bytes)
    decreases |s|
  {
    if s == [] then true
    else if s[0] <= 0x7F then ValidUtf8(s[1..])
    else if 0xC2 <= s[0] <= 0xDF then
      |s| >= 2 && IsContinuation(s[1]) && ValidUtf8(s[2..])
    else if 0xE0 <= s[0] <= 0xEF then
      |s| >= 3 && IsContinuation(s[1]) && IsContinuation(s[2]) &&
      (s[0] != 0xE0 || s[1] >= 0xA0) && (s[0] != 0xED || s[1] <= 0x9F) &&
      ValidUtf8(s[3..])
    else if 0xF0 <= s[0] <= 0xF4 then
      |s| >= 4 && IsContinuation(s[1]) && IsContinuation(s[2]) && IsContinuation(s[3]) &&
      (s[0] != 0xF0 || s[1] >= 0x90) && (s[0] != 0xF4 || s[1] <= 0x8F) &&
      ValidUtf8(s[4..])
    else false
  }

  /** Text made only of ASCII bytes is valid UTF-8. */
  lemma {:induction false} AsciiIsUtf8(s: Bytes)
    requires forall i :: 0 <= i < |s| ==> s[i] <= 0x7F
    ensures ValidUtf8(s)
    decreases |s|
  {
    if s != [] {
      AsciiIsUtf8(s[1..]);
    }
  }

  lemma Utf8Examples()
    ensures ValidUtf8([0xC3, 0xA9])
    ensures !ValidUtf8([0xC0, 0x80])
    ensures !ValidUtf8([0xED, 0xA0, 0x80])
    ensures !ValidUtf8([0xE2, 0x82])
  {
  }

  /** `len()` of the entry's metadata; directories report 0 here. */
  function Size(n: Node): nat {
    if n.File? then |n.content| else 0
  }

  /**
   * The characters the core refuses or replaces in a file or playlist name:
   * path separators, the characters Windows forbids, and NUL.
   */
  predicate InvalidNameChar(c: char) {
    c == '/' || c == '\\' || c == ':' || c == '*' || c == '?' || c == '"' || c == '<' || c == '>' || c == '|' || c == '\0'
  }

  predicate IsPrefix(p: Path, q: Path) {
    |p| <= |q| && q[..|p|] == p
  }

  /** Neither path lies inside the other. */
  predicate Disjoint(p: Path, q: Path) {
    !IsPrefix(p, q) && !IsPrefix(q, p)
  }

  /** Two prefixes of one path are ordered by length. */
  lemma PrefixOrder(p: Path, q: Path, r: Path)
    requires IsPrefix(p, r) && IsPrefix(q, r) && |p| <= |q|
    ensures IsPrefix(p, q)
  {
    assert q[..|p|] == r[..|q|][..|p|];
  }

  /** The prefixes of `p + [c]` are those of `p` and `p + [c]` itself. */
  lemma PrefixSnoc(d: Path, p: Path, c: string)
    ensures IsPrefix(d, p + [c]) <==> IsPrefix(d, p) || d == p + [c]
  {
    assert (p + [c])[..|p| + 1] == p + [c];
    if |d| <= |p| {
      assert (p + [c])[..|d|] == p[..|d|];
    }
  }

  /** A longer path below `d` lies below `d` extended by its next name. */
  lemma PrefixExtend(d: Path, q: Path)
    requires IsPrefix(d, q) && |d| < |q|
    ensures IsPrefix(d + [q[|d|]], q)
  {
    assert q[..|d| + 1] == q[..|d|] + [q[|d|]];
  }

  lemma PrefixDrop(p: Path, q: Path, c: string)
    ensures IsPrefix(p + [c], q + [c]) ==> IsPrefix(p, q)
  {
    if |p| <= |q| {
      assert (q + [c])[..|p|] == q[..|p|];
    }
  }

  /**
   * One step of a walk over a directory listing: `c` moves from the names
   * still to visit to the names visited.
   */
  lemma WalkStep(all: set<string>, todo: set<string>, done: set<string>, c: string)
    requires todo + done == all && todo !! done && c in todo
    ensures (todo - {c}) + (done + {c}) == all && (todo - {c}) !! (done + {c}) && c !in done
  {
  }

  function Parent(p: Path): Path
    requires p != []
  {
    p[..|p| - 1]
  }

  /** `path.file_name()` */
  function FileName(p: Path): string
    requires p != []
  {
    p[|p| - 1]
  }

  /** The root exists as a directory and every entry's parent is a directory. */
  ghost predicate WellFormed(m: Entries) {
    [] in m && m[[]].Dir? &&
    forall p, c | p + [c] in m :: IsDir(m, p)
  }

  lemma ParentIsDir(m: Entries, p: Path)
    requires WellFormed(m) && p in m && p != []
    ensures IsDir(m, Parent(p))
  {
    assert p == Parent(p) + [p[|p| - 1]];
  }

  predicate IsDir(m: Entries, p: Path) {
    p in m && m[p].Dir?
  }

  predicate IsFile(m: Entries, p: Path) {
    p in m && m[p].File?
  }

  /** The names listed by `read_dir(d)` (walkdir at depth 1). */
  function Children(m: Entries, d: Path): (r: set<string>)
    ensures forall c :: c in r <==> d + [c] in m
  {
    var r := set p | p in m && |p| == |d| + 1 && p[..|d|] == d :: p[|d|];
    assert forall c :: d + [c] in m ==> (d + [c])[..|d|] == d && (d + [c])[|d|] == c;
    assert forall p | p in m && |p| == |d| + 1 && p[..|d|] == d :: p == d + [p[|d|]];
    r
  }

  lemma WellFormedAncestor(m: Entries, p: Path, i: nat)
    requires WellFormed(m) && p in m && i <= |p|
    ensures IsDir(m, p[..i]) || i == |p|
    decreases |p| - i
  {
    if i < |p| {
      var q := p[..|p| - 1];
      ParentIsDir(m, p);
      WellFormedAncestor(m, q, i);
      assert q[..i] == p[..i];
    }
  }

  /** Everything outside the subtree rooted at `p`: `remove_dir_all(p)`. */
  function RemoveTree(m: Entries, p: Path): (r: Entries)
    ensures forall q :: q in r <==> q in m && !IsPrefix(p, q)
    ensures forall q | q in r :: r[q] == m[q]
  {
    map q | q in m && !IsPrefix(p, q) :: m[q]
  }

  lemma RemoveTreeWellFormed(m: Entries, p: Path)
    requires WellFormed(m) && p != []
    ensures WellFormed(RemoveTree(m, p))
  {
    var r := RemoveTree(m, p);
    forall q, c | q + [c] in r
      ensures IsDir(r, q)
    {
      assert q + [c] in m && IsDir(m, q);
      if |p| <= |q| { assert (q + [c])[..|p|] == q[..|p|]; }
    }
  }

  /** Every prefix of `p`, including `[]` and `p` itself. */
  function Prefixes(p: Path): (r: set<Path>)
    ensures forall q :: q in r <==> IsPrefix(q, p)
  {
    var r := set i | 0 <= i <= |p| :: p[..i];
    assert forall q | IsPrefix(q, p) :: q == p[..|q|];
    r
  }

  /** `create_dir_all(p)` after it succeeded: every missing prefix becomes a directory. */
  function AddDirs(m: Entries, p: Path): (r: Entries)
    ensures forall q :: q in r <==> q in m || IsPrefix(q, p)
    ensures forall q | q in m :: r[q] == m[q]
    ensures forall q | q !in m && IsPrefix(q, p) :: r[q] == Dir
  {
    map q | q in m.Keys + Prefixes(p) :: if q in m then m[q] else Dir
  }

  /** `/a/b` for `["a", "b"]` and `/` for the root: the text form used to compare mount points. */
  function Render(p: Path): (r: string)
    ensures |r| >= 1 && r[0] == '/'
  {
    if p == [] then "/" else RenderComponents(p)
  }

  function RenderComponents(p: Path): string {
    if p == [] then "" else "/" + p[0] + RenderComponents(p[1..])
  }

  class Fs {
    var entries: Entries

    ghost predicate Valid()
      reads this
    {
      WellFormed(entries)
    }

    /** An empty file system holding only the root directory. */
    constructor ()
      ensures Valid() && entries == map[[] := Dir]
    {
      entries := map[[] := Dir];
    }

    /** `fs::read_dir(d)`: the names of the entries directly inside `d`. */
    method ReadDir(d: Path) returns (names: set<string>)
      ensures forall c :: c in names <==> d + [c] in entries
    {
      names := Children(entries, d);
    }

    /** `fs::read_to_string(p)`: the bytes of a regular file holding UTF-8 text. */
    method ReadToString(p: Path) returns (r: Option<Bytes>)
      ensures r.Some? <==> IsFile(entries, p) && ValidUtf8(entries[p].content)
      ensures r.Some? ==> r.value == entries[p].content
    {
      if IsFile(entries, p) && ValidUtf8(entries[p].content) {
        return Some(entries[p].content);
      }
      return None;
    }

    /** `fs::remove_file(p)`: succeeds exactly on a regular file. */
    method RemoveFile(p: Path) returns (ok: bool)
      requires Valid()
      modifies this
      ensures Valid()
      ensures ok <==> IsFile(old(entries), p)
      ensures entries == if ok then old(entries) - {p} else old(entries)
    {
      ok := IsFile(entries, p);
      if ok {
        ghost var m := entries;
        entries := entries - {p};
        forall q, c | q + [c] in entries
          ensures IsDir(entries, q)
        {
          assert q + [c] in m && IsDir(m, q);
        }
      }
    }

    /** `fs::remove_dir(p)`: succeeds exactly on an empty directory other than the root. */
    method RemoveDir(p: Path) returns (ok: bool)
      requires Valid()
      modifies this
      ensures Valid()
      ensures ok <==> p != [] && IsDir(old(entries), p) && Children(old(entries), p) == {}
      ensures entries == if ok then old(entries) - {p} else old(entries)
    {
      ok := p != [] && IsDir(entries, p) && Children(entries, p) == {};
      if ok {
        ghost var m := entries;
        entries := entries - {p};
        forall q, c | q + [c] in entries
          ensures IsDir(entries, q)
        {
          assert q + [c] in m && IsDir(m, q);
          assert c in Children(m, q);
        }
      }
    }

    /** `fs::remove_dir_all(p)`: removes a directory and everything below it. */
    method RemoveDirAll(p: Path) returns (ok: bool)
      requires Valid()
      modifies this
      ensures Valid()
      ensures ok <==> p != [] && IsDir(old(entries), p)
      ensures entries == if ok then RemoveTree(old(entries), p) else old(entries)
    {
      ok := p != [] && IsDir(entries, p);
      if ok {
        RemoveTreeWellFormed(entries, p);
        entries := RemoveTree(entries, p);
      }
    }

    /** `fs::create_dir_all(p)`: fails exactly when some prefix of `p` is a file. */
    method CreateDirAll(p: Path) returns (ok: bool)
      requires Valid()
      modifies this
      ensures Valid()
      ensures ok <==> forall i | 0 <= i <= |p| :: !IsFile(old(entries), p[..i])
      ensures entries == if ok then AddDirs(old(entries), p) else old(entries)
    {
      ok := forall i | 0 <= i <= |p| :: !IsFile(entries, p[..i]);
      if ok {
        ghost var m := entries;
        entries := AddDirs(entries, p);
        forall q, c | q + [c] in entries
          ensures IsDir(entries, q)
        {
          if q + [c] !in m {
            assert IsPrefix(q + [c], p);
            assert q == p[..|q|];
            assert !IsFile(m, p[..|q|]);
          } else {
            assert IsDir(m, q);
          }
        }
      }
    }

    /** `fs::write(p, data)`: needs an existing parent directory and refuses a directory. */
    method WriteFile(p: Path, data: Bytes) returns (ok: bool)
      requires Valid()
      modifies this
      ensures Valid()
      ensures ok <==> p != [] && IsDir(old(entries), Parent(p)) && !IsDir(old(entries), p)
      ensures entries == if ok then old(entries)[p := File(data)] else old(entries)
    {
      ok := p != [] && IsDir(entries, Parent(p)) && !IsDir(entries, p);
      if ok {
        ghost var m := entries;
        entries := entries[p := File(data)];
        forall q, c | q + [c] in entries
          ensures IsDir(entries, q)
        {
          if q + [c] == p { assert q == Parent(p); } else { assert IsDir(m, q); }
        }
      }
    }

    /** `fs::copy(src, dst)`: a regular file onto a path that is not a directory. */
    method CopyFile(src: Path, dst: Path) returns (ok: bool)
      requires Valid()
      modifies this
      ensures Valid()
      ensures ok <==> IsFile(old(entries), src) && dst != [] && IsDir(old(entries), Parent(dst)) && !IsDir(old(entries), dst)
      ensures entries == if ok then old(entries)[dst := old(entries)[src]] else old(entries)
    {
      ok := IsFile(entries, src) && dst != [] && IsDir(entries, Parent(dst)) && !IsDir(entries, dst);
      if ok {
        ghost var m := entries;
        entries := entries[dst := entries[src]];
        forall q, c | q + [c] in entries
          ensures IsDir(entries, q)
        {
          if q + [c] == dst { assert q == Parent(dst); } else { assert IsDir(m, q); }
        }
      }
    }
  }
}
