/**
 * File integrity: the checksum manifest (`checksums.json`), the
 * verification of a directory against it, and the report of files on the
 * device the manifest does not list.
 *
 * SHA-256 is the `hash` parameter, the clock is a `now` parameter, and the
 * text of an error (`e.to_string()`) is the `describe` parameter.  The order
 * in which a `HashMap` or a directory listing yields its entries is not
 * specified: the methods pick the next one with `:|`, so what they promise
 * holds for every order, and they return the order they used as a ghost
 * value.
 */
module Integrity {
  import opened Wrappers
  import opened Text
  import opened Files
  import opened Errors
  import opened Playlist
  import Transfer

  const MANIFEST_FILE: string := "checksums.json"
  const MANIFEST_VERSION: nat := 1

  datatype FileChecksum = FileChecksum(fileName: string, checksum: string, sizeBytes: nat, computedAt: nat)

  // ---------------------------------------------------------------------
  // The manifest
  // ---------------------------------------------------------------------

  /** `merge`'s outcome: every key of either map, `newer`'s entry winning on a conflict. */
  function Merged(older: map<string, FileChecksum>, newer: map<string, FileChecksum>): (r: map<string, FileChecksum>)
  {
    map k | k in older.Keys + newer.Keys :: if k in newer then newer[k] else older[k]
  }

  lemma MergedSpec(older: map<string, FileChecksum>, newer: map<string, FileChecksum>)
    ensures var r := Merged(older, newer);
      && r.Keys == older.Keys + newer.Keys
      && (forall k :: k in newer ==> r[k] == newer[k])
      && (forall k :: k in older && k !in newer ==> r[k] == older[k])
  {
  }

  /** Merging the same manifest twice changes nothing the second time, and merging an empty one changes nothing. */
  lemma MergedIdempotent(older: map<string, FileChecksum>, newer: map<string, FileChecksum>)
    ensures Merged(Merged(older, newer), newer) == Merged(older, newer)
    ensures Merged(older, map[]) == older
  {
  }

  class ChecksumManifest {
    var version: nat
    var createdAt: nat
    var updatedAt: nat
    var description: Option<string>
    var files: map<string, FileChecksum>

    /** `new()` / `with_description`: an empty manifest stamped with the current time. */
    constructor (description: Option<string>, now: nat)
      ensures this.description == description && files == map[]
      ensures version == MANIFEST_VERSION && createdAt == now && updatedAt == now
    {
      version := MANIFEST_VERSION;
      createdAt := now;
      updatedAt := now;
      this.description := description;
      files := map[];
    }

    /** `add_file`: keyed by the entry's own file name; an entry of the same name is replaced. */
    method AddFile(c: FileChecksum, now: nat)
      modifies this
      ensures files == old(files)[c.fileName := c]
      ensures updatedAt == now
      ensures version == old(version) && createdAt == old(createdAt) && description == old(description)
    {
      updatedAt := now;
      files := files[c.fileName := c];
    }

    /** `remove_file`: the entry that was there, if any; afterwards the name is absent. */
    method RemoveFile(name: string, now: nat) returns (previous: Option<FileChecksum>)
      modifies this
      ensures previous == GetFileIn(old(files), name)
      ensures files == old(files) - {name}
      ensures updatedAt == now
      ensures version == old(version) && createdAt == old(createdAt) && description == old(description)
    {
      updatedAt := now;
      previous := GetFileIn(files, name);
      files := files - {name};
    }

    /** `get_file` */
    function GetFile(name: string): (r: Option<FileChecksum>)
      reads this
      ensures r.Some? <==> name in files
      ensures r.Some? ==> r.value == files[name]
    {
      GetFileIn(files, name)
    }

    /**
     * `merge`: every entry of `other` is inserted, overwriting an entry of
     * the same name.  The two manifests are distinct objects, as Rust's
     * borrow rules guarantee for `&mut self` and `&Self`.
     */
    method Merge(other: ChecksumManifest, now: nat)
      requires other != this
      modifies this
      ensures files == Merged(old(files), other.files)
      ensures updatedAt == now
      ensures version == old(version) && createdAt == old(createdAt) && description == old(description)
    {
      var incoming := other.files;
      var acc := files;
      var todo := incoming.Keys;
      while todo != {}
        invariant MergedSoFar(old(files), incoming, todo, acc)
        invariant unchanged(this)
        decreases |todo|
      {
        var k :| k in todo;
        MergeStep(old(files), incoming, todo, acc, k);
        acc := acc[k := incoming[k]];
        todo := todo - {k};
      }
      MergeDone(old(files), incoming, acc);
      files := acc;
      updatedAt := now;
    }
  }

  /** Part way through `merge`: the entries of `incoming` outside `todo` have been inserted over `older`. */
  ghost predicate MergedSoFar(older: map<string, FileChecksum>, incoming: map<string, FileChecksum>, todo: set<string>,
                        acc: map<string, FileChecksum>) {
    && todo <= incoming.Keys
    && (forall k :: k in acc <==> k in older || (k in incoming && k !in todo))
    && (forall k :: k in acc ==> acc[k] == if k in incoming && k !in todo then incoming[k] else older[k])
  }

  lemma MergeStep(older: map<string, FileChecksum>, incoming: map<string, FileChecksum>, todo: set<string>,
                  acc: map<string, FileChecksum>, k: string)
    requires MergedSoFar(older, incoming, todo, acc) && k in todo
    ensures MergedSoFar(older, incoming, todo - {k}, acc[k := incoming[k]])
  {
  }

  lemma MergeDone(older: map<string, FileChecksum>, incoming: map<string, FileChecksum>, acc: map<string, FileChecksum>)
    requires MergedSoFar(older, incoming, {}, acc)
    ensures acc == Merged(older, incoming)
  {
  }

  function GetFileIn(files: map<string, FileChecksum>, name: string): Option<FileChecksum> {
    if name in files then Some(files[name]) else None
  }

  /** Re-adding a name replaces its entry: the lookup afterwards returns the new one, and other names are untouched. */
  lemma AddThenGet(files: map<string, FileChecksum>, c: FileChecksum, name: string)
    ensures GetFileIn(files[c.fileName := c], c.fileName) == Some(c)
    ensures name != c.fileName ==> GetFileIn(files[c.fileName := c], name) == GetFileIn(files, name)
  {
  }

  /** Removing a name and adding it back gives the added entry; adding and removing it leaves the other names as they were. */
  lemma RemoveThenAdd(files: map<string, FileChecksum>, c: FileChecksum)
    ensures (files - {c.fileName})[c.fileName := c] == files[c.fileName := c]
    ensures files[c.fileName := c] - {c.fileName} == files - {c.fileName}
    ensures GetFileIn(files - {c.fileName}, c.fileName) == None
  {
  }

  // ---------------------------------------------------------------------
  // The manifest of a transfer
  // ---------------------------------------------------------------------

  /**
   * `FileChecksum::from_transferred_file`: a file the engine copied with a
   * checksum, keyed by the destination's file name.
   */
  function ChecksumOf(f: Transfer.TransferredFile, now: nat): Option<FileChecksum> {
    if f.skipped || f.checksum.None? || f.destination == [] then None
    else Some(FileChecksum(FileName(f.destination), f.checksum.value, f.sizeBytes, now))
  }

  /** The manifest's entries after adding the first files in order; a later file overwrites an earlier one of the same name. */
  function ManifestOf(fs: seq<Transfer.TransferredFile>, now: nat): map<string, FileChecksum> {
    if fs == [] then map[]
    else
      var front := ManifestOf(fs[..|fs| - 1], now);
      match ChecksumOf(fs[|fs| - 1], now)
      case None => front
      case Some(c) => front[c.fileName := c]
  }

  /** File `i` is the last one in `fs` that contributes an entry named `k`. */
  predicate LastNamed(fs: seq<Transfer.TransferredFile>, now: nat, k: string, i: int) {
    && 0 <= i < |fs| && ChecksumOf(fs[i], now).Some? && ChecksumOf(fs[i], now).value.fileName == k
    && forall j :: i < j < |fs| ==> ChecksumOf(fs[j], now).None? || ChecksumOf(fs[j], now).value.fileName != k
  }

  /**
   * `from_transfer_result`: the names are exactly those of the copied (not
   * skipped) files that carry a checksum, and each entry is the one built
   * from the last such file of that name.
   */
  lemma {:induction false} ManifestOfSpec(fs: seq<Transfer.TransferredFile>, now: nat, k: string)
    ensures k in ManifestOf(fs, now) <==> exists i :: LastNamed(fs, now, k, i)
    ensures forall i :: LastNamed(fs, now, k, i) ==> ManifestOf(fs, now)[k] == ChecksumOf(fs[i], now).value
    decreases |fs|
  {
    if fs != [] {
      var n := |fs| - 1;
      var front := fs[..n];
      ManifestOfSpec(front, now, k);
      var c := ChecksumOf(fs[n], now);
      if c.Some? && c.value.fileName == k {
        assert LastNamed(fs, now, k, n);
        forall i | LastNamed(fs, now, k, i) ensures i == n {
        }
      } else {
        forall i | LastNamed(fs, now, k, i) ensures LastNamed(front, now, k, i) {
          assert front[i] == fs[i];
        }
        forall i | LastNamed(front, now, k, i) ensures LastNamed(fs, now, k, i) {
          assert front[i] == fs[i];
        }
      }
    }
  }

  /** Only copied files that carry a checksum contribute; a skipped file never does. */
  lemma ManifestOfSkipsSkipped(fs: seq<Transfer.TransferredFile>, now: nat, f: Transfer.TransferredFile)
    ensures f.skipped ==> ManifestOf(fs + [f], now) == ManifestOf(fs, now)
    ensures f.checksum.None? ==> ManifestOf(fs + [f], now) == ManifestOf(fs, now)
  {
    assert (fs + [f])[..|fs + [f]| - 1] == fs;
  }

  /** `from_transfer_result` */
  method FromTransferResult(result: Transfer.TransferResult, now: nat) returns (manifest: ChecksumManifest)
    ensures fresh(manifest)
    ensures manifest.files == ManifestOf(result.transferredFiles, now)
    ensures manifest.description == Some("Generated from file transfer")
    ensures manifest.version == MANIFEST_VERSION && manifest.createdAt == now && manifest.updatedAt == now
  {
    manifest := new ChecksumManifest(Some("Generated from file transfer"), now);
    var fs := result.transferredFiles;
    for i := 0 to |fs|
      invariant manifest.files == ManifestOf(fs[..i], now)
      invariant manifest.description == Some("Generated from file transfer")
      invariant manifest.version == MANIFEST_VERSION && manifest.createdAt == now && manifest.updatedAt == now
    {
      assert fs[..i + 1][..i] == fs[..i];
      var c := ChecksumOf(fs[i], now);
      if c.Some? {
        manifest.AddFile(c.value, now);
      }
    }
    assert fs[..|fs|] == fs;
  }

  // ---------------------------------------------------------------------
  // Verification results
  // ---------------------------------------------------------------------

  /** One file's verdict; the duration is not modelled. */
  datatype FileVerificationResult = FileVerificationResult(
    fileName: string,
    path: Path,
    passed: bool,
    expectedChecksum: string,
    actualChecksum: Option<string>,
    expectedSize: nat,
    actualSize: Option<nat>,
    error: Option<string>)

  /** The verdict on a whole directory; the duration is not modelled. */
  datatype VerificationResult = VerificationResult(
    totalFiles: nat,
    passed: nat,
    failed: nat,
    missing: nat,
    extraFiles: nat,
    totalBytes: nat,
    fileResults: seq<FileVerificationResult>,
    extraFileNames: seq<string>,
    success: bool)

  function NewVerificationResult(): VerificationResult {
    VerificationResult(0, 0, 0, 0, 0, 0, [], [], true)
  }

  /** A failed verdict whose message says the file was not found. */
  predicate CountsAsMissing(r: FileVerificationResult) {
    !r.passed && r.error.Some? && Contains(r.error.value, "not found")
  }

  /** `add_result`: count the verdict, and record it. */
  function AddResult(res: VerificationResult, r: FileVerificationResult): VerificationResult {
    if r.passed then
      res.(totalFiles := res.totalFiles + 1, passed := res.passed + 1,
           totalBytes := res.totalBytes + (if r.actualSize.Some? then r.actualSize.value else 0),
           fileResults := res.fileResults + [r])
    else
      res.(totalFiles := res.totalFiles + 1, failed := res.failed + 1, success := false,
           missing := res.missing + (if CountsAsMissing(r) then 1 else 0),
           fileResults := res.fileResults + [r])
  }

  function PassedIn(rs: seq<FileVerificationResult>): nat {
    if rs == [] then 0 else PassedIn(rs[..|rs| - 1]) + (if rs[|rs| - 1].passed then 1 else 0)
  }

  function MissingIn(rs: seq<FileVerificationResult>): nat {
    if rs == [] then 0 else MissingIn(rs[..|rs| - 1]) + (if CountsAsMissing(rs[|rs| - 1]) then 1 else 0)
  }

  /** The counters agree with the recorded verdicts. */
  predicate Counted(res: VerificationResult) {
    && res.totalFiles == |res.fileResults|
    && res.totalFiles == res.passed + res.failed
    && res.passed == PassedIn(res.fileResults)
    && res.missing == MissingIn(res.fileResults)
    && res.missing <= res.failed
    && (res.success <==> res.failed == 0)
  }

  /**
   * Adding a verdict keeps the counters in step with the verdicts, and once
   * a failed verdict is added the result stays unsuccessful.
   */
  lemma AddResultCounts(res: VerificationResult, r: FileVerificationResult)
    requires Counted(res)
    ensures var next := AddResult(res, r);
      && Counted(next)
      && next.fileResults == res.fileResults + [r]
      && (!r.passed ==> !next.success)
      && (!res.success ==> !next.success)
      && next.extraFiles == res.extraFiles && next.extraFileNames == res.extraFileNames
  {
    var rs := AddResult(res, r).fileResults;
    assert rs[..|rs| - 1] == res.fileResults;
  }

  // ---------------------------------------------------------------------
  // Verifying one file
  // ---------------------------------------------------------------------

  datatype VerificationOptions = VerificationOptions(
    checkExtraFiles: bool,
    failFast: bool,
    verifySizesFirst: bool,
    fileExtensions: seq<string>)

  function DefaultVerificationOptions(): VerificationOptions {
    VerificationOptions(true, false, true, ["mp3", "m4a"])
  }

  function StrictVerificationOptions(): VerificationOptions {
    VerificationOptions(true, false, true, [])
  }

  function QuickVerificationOptions(): VerificationOptions {
    VerificationOptions(false, true, true, ["mp3"])
  }

  function SizeMismatchText(expected: nat, actual: nat): string {
    "Size mismatch: expected " + NatToString(expected) + " bytes, got " + NatToString(actual) + " bytes"
  }

  /**
   * `verify_file`: a missing file fails first; then, with
   * `verify_sizes_first`, a size that differs from the manifest's; then the
   * checksum decides.  Reading the checksum of something that is not a
   * regular file is an error.
   */
  function VerifyFile(o: VerificationOptions, m: Entries, hash: Bytes -> string, path: Path, expected: FileChecksum)
    : Result<FileVerificationResult, Error>
  {
    var name := expected.fileName;
    if path !in m then
      Ok(FileVerificationResult(name, path, false, expected.checksum, None, expected.sizeBytes, None, Some("File not found")))
    else
      var size := Size(m[path]);
      if o.verifySizesFirst && size != expected.sizeBytes then
        Ok(FileVerificationResult(name, path, false, expected.checksum, None, expected.sizeBytes, Some(size),
                                  Some(SizeMismatchText(expected.sizeBytes, size))))
      else if !IsFile(m, path) then Err(FileSystem(ReadFailed(path)))
      else
        var actual := hash(m[path].content);
        if actual == expected.checksum then
          Ok(FileVerificationResult(name, path, true, actual, Some(actual), size, Some(size), None))
        else
          Ok(FileVerificationResult(name, path, false, expected.checksum, Some(actual), expected.sizeBytes, Some(size),
                                    Some("Checksum mismatch")))
  }

  /** The order of the tests, and what each verdict carries. */
  lemma VerifyFileSpec(o: VerificationOptions, m: Entries, hash: Bytes -> string, path: Path, expected: FileChecksum)
    ensures var r := VerifyFile(o, m, hash, path, expected);
      && (path !in m ==> r.Ok? && !r.value.passed && r.value.error == Some("File not found") && r.value.actualSize.None?)
      && (path in m && o.verifySizesFirst && Size(m[path]) != expected.sizeBytes ==>
            r.Ok? && !r.value.passed && r.value.actualChecksum.None? && r.value.actualSize == Some(Size(m[path])))
      && (r.Err? <==> path in m && !IsFile(m, path) && !(o.verifySizesFirst && Size(m[path]) != expected.sizeBytes))
      && (r.Ok? && r.value.passed <==>
            IsFile(m, path) && hash(m[path].content) == expected.checksum
            && (!o.verifySizesFirst || |m[path].content| == expected.sizeBytes))
      && (r.Ok? && r.value.passed ==> r.value.actualSize == Some(|m[path].content|) && r.value.error.None?)
      && (r.Ok? && !r.value.passed ==> r.value.error.Some?)
      && (r.Ok? ==> r.value.fileName == expected.fileName && r.value.path == path)
  {
  }

  /** Only the missing-file verdict, of the three fixed messages, counts as missing. */
  lemma MissingMessage()
    ensures Contains("File not found", "not found")
    ensures !Contains("Checksum mismatch", "not found")
  {
    assert OccursAt("File not found", "not found", 5);
    forall i: nat | i <= |"Checksum mismatch"| ensures !OccursAt("Checksum mismatch", "not found", i) {
      if i + 9 <= 17 {
        assert "Checksum mismatch"[i..i + 9][0] == "Checksum mismatch"[i];
      }
    }
  }

  // ---------------------------------------------------------------------
  // Verifying a directory
  // ---------------------------------------------------------------------

  predicate DistinctNames(s: seq<string>) {
    forall i, j :: 0 <= i < j < |s| ==> s[i] != s[j]
  }

  /** The verdict recorded for manifest entry `name`: a read error becomes a failed verdict carrying the error's text. */
  function FileOutcome(o: VerificationOptions, m: Entries, hash: Bytes -> string, describe: Error -> string, dir: Path,
                       name: string, expected: FileChecksum): FileVerificationResult
  {
    var path := Join(dir, name);
    match VerifyFile(o, m, hash, path, expected)
    case Ok(r) => r
    case Err(e) => FileVerificationResult(name, path, false, expected.checksum, None, expected.sizeBytes, None, Some(describe(e)))
  }

  /** The result after the entries named in `order` have been verified, in that order. */
  function VerifiedOver(o: VerificationOptions, m: Entries, hash: Bytes -> string, describe: Error -> string, dir: Path,
                        files: map<string, FileChecksum>, order: seq<string>): VerificationResult
    requires forall i :: 0 <= i < |order| ==> order[i] in files
  {
    if order == [] then NewVerificationResult()
    else
      var k := order[|order| - 1];
      AddResult(VerifiedOver(o, m, hash, describe, dir, files, order[..|order| - 1]),
                FileOutcome(o, m, hash, describe, dir, k, files[k]))
  }

  /** Whatever the order: the counters agree with the verdicts, and there is one verdict per visited entry. */
  lemma {:induction false} VerifiedOverCounts(o: VerificationOptions, m: Entries, hash: Bytes -> string,
                                              describe: Error -> string, dir: Path, files: map<string, FileChecksum>,
                                              order: seq<string>)
    requires forall i :: 0 <= i < |order| ==> order[i] in files
    ensures var res := VerifiedOver(o, m, hash, describe, dir, files, order);
      Counted(res) && |res.fileResults| == |order| && res.extraFiles == 0 && res.extraFileNames == []
    decreases |order|
  {
    if order != [] {
      var front := order[..|order| - 1];
      VerifiedOverCounts(o, m, hash, describe, dir, files, front);
      var before := VerifiedOver(o, m, hash, describe, dir, files, front);
      AddResultCounts(before, FileOutcome(o, m, hash, describe, dir, order[|order| - 1], files[order[|order| - 1]]));
    }
  }

  /** The `i`-th verdict is that of the `i`-th visited entry. */
  lemma {:induction false} VerifiedOverResults(o: VerificationOptions, m: Entries, hash: Bytes -> string,
                                               describe: Error -> string, dir: Path, files: map<string, FileChecksum>,
                                               order: seq<string>, i: nat)
    requires forall i :: 0 <= i < |order| ==> order[i] in files
    requires i < |order|
    ensures var res := VerifiedOver(o, m, hash, describe, dir, files, order);
      i < |res.fileResults| && res.fileResults[i] == FileOutcome(o, m, hash, describe, dir, order[i], files[order[i]])
    decreases |order|
  {
    var front := order[..|order| - 1];
    var all := VerifiedOver(o, m, hash, describe, dir, files, order).fileResults;
    var prev := VerifiedOver(o, m, hash, describe, dir, files, front).fileResults;
    var last := FileOutcome(o, m, hash, describe, dir, order[|order| - 1], files[order[|order| - 1]]);
    VerifiedOverStep(o, m, hash, describe, dir, files, order);
    VerifiedOverCounts(o, m, hash, describe, dir, files, front);
    SnocIndex(prev, last, all, i);
    if i < |front| {
      VerifiedOverResults(o, m, hash, describe, dir, files, front, i);
      assert front[i] == order[i];
    }
  }

  lemma SnocIndex<T>(prev: seq<T>, last: T, all: seq<T>, i: nat)
    requires all == prev + [last] && i <= |prev|
    ensures i < |all| && all[i] == if i < |prev| then prev[i] else last
  {
  }

  /** Visiting one more entry appends its verdict. */
  lemma VerifiedOverStep(o: VerificationOptions, m: Entries, hash: Bytes -> string, describe: Error -> string,
                         dir: Path, files: map<string, FileChecksum>, order: seq<string>)
    requires forall i :: 0 <= i < |order| ==> order[i] in files
    requires order != []
    ensures VerifiedOver(o, m, hash, describe, dir, files, order).fileResults ==
      VerifiedOver(o, m, hash, describe, dir, files, order[..|order| - 1]).fileResults
      + [FileOutcome(o, m, hash, describe, dir, order[|order| - 1], files[order[|order| - 1]])]
  {
    var before := VerifiedOver(o, m, hash, describe, dir, files, order[..|order| - 1]);
    AddResultAppends(before, FileOutcome(o, m, hash, describe, dir, order[|order| - 1], files[order[|order| - 1]]));
  }

  lemma AddResultAppends(res: VerificationResult, r: FileVerificationResult)
    ensures AddResult(res, r).fileResults == res.fileResults + [r]
  {
  }

  /** Every verdict passed exactly when the passed count is the number of verdicts. */
  lemma {:induction false} PassedInAll(rs: seq<FileVerificationResult>)
    ensures PassedIn(rs) <= |rs|
    ensures PassedIn(rs) == |rs| <==> forall i :: 0 <= i < |rs| ==> rs[i].passed
    decreases |rs|
  {
    if rs != [] {
      var front := rs[..|rs| - 1];
      PassedInAll(front);
      if PassedIn(rs) == |rs| {
        forall i | 0 <= i < |rs| ensures rs[i].passed {
          if i < |front| { assert front[i] == rs[i]; }
        }
      }
      if forall i :: 0 <= i < |rs| ==> rs[i].passed {
        forall i | 0 <= i < |front| ensures front[i].passed {
          assert front[i] == rs[i];
        }
      }
    }
  }

  /** A verification is a success exactly when every visited entry passed. */
  lemma VerifiedOverSuccess(o: VerificationOptions, m: Entries, hash: Bytes -> string, describe: Error -> string,
                            dir: Path, files: map<string, FileChecksum>, order: seq<string>)
    requires forall i :: 0 <= i < |order| ==> order[i] in files
    ensures VerifiedOver(o, m, hash, describe, dir, files, order).success <==>
      forall i :: 0 <= i < |order| ==> FileOutcome(o, m, hash, describe, dir, order[i], files[order[i]]).passed
  {
    var res := VerifiedOver(o, m, hash, describe, dir, files, order);
    VerifiedOverCounts(o, m, hash, describe, dir, files, order);
    PassedInAll(res.fileResults);
    forall i | 0 <= i < |order|
      ensures res.fileResults[i] == FileOutcome(o, m, hash, describe, dir, order[i], files[order[i]])
    {
      VerifiedOverResults(o, m, hash, describe, dir, files, order, i);
    }
  }

  /** A distinct listing of all the keys has one element per key. */
  lemma {:induction false} DistinctCovers(order: seq<string>, keys: set<string>)
    requires DistinctNames(order) && forall k :: k in keys <==> k in order
    ensures |keys| == |order|
    decreases |order|
  {
    if order != [] {
      var last := order[|order| - 1];
      var front := order[..|order| - 1];
      forall k | k in front ensures k in keys - {last} {
        var i :| 0 <= i < |front| && front[i] == k;
        assert order[i] == k;
      }
      forall k | k in keys - {last} ensures k in front {
        var i :| 0 <= i < |order| && order[i] == k;
        assert front[i] == k;
      }
      DistinctCovers(front, keys - {last});
    } else {
      assert keys == {};
    }
  }

  /** With every entry verified, the result counts every entry of the manifest. */
  lemma CompleteVisitCounts(o: VerificationOptions, m: Entries, hash: Bytes -> string, describe: Error -> string,
                            dir: Path, files: map<string, FileChecksum>, order: seq<string>)
    requires DistinctNames(order) && forall k :: k in files <==> k in order
    ensures forall i :: 0 <= i < |order| ==> order[i] in files
    ensures VerifiedOver(o, m, hash, describe, dir, files, order).totalFiles == |files|
  {
    VerifiedOverCounts(o, m, hash, describe, dir, files, order);
    DistinctCovers(order, files.Keys);
  }

  /** `fail_fast` stops at the first failing entry: then at most one verdict fails, the last one. */
  lemma FailFastAtMostOne(o: VerificationOptions, m: Entries, hash: Bytes -> string, describe: Error -> string,
                          dir: Path, files: map<string, FileChecksum>, order: seq<string>)
    requires forall i :: 0 <= i < |order| ==> order[i] in files
    requires forall i :: 0 <= i < |order| - 1 ==> FileOutcome(o, m, hash, describe, dir, order[i], files[order[i]]).passed
    ensures VerifiedOver(o, m, hash, describe, dir, files, order).failed <= 1
  {
    VerifiedOverCounts(o, m, hash, describe, dir, files, order);
    if order != [] {
      var front := order[..|order| - 1];
      VerifiedOverCounts(o, m, hash, describe, dir, files, front);
      VerifiedOverSuccess(o, m, hash, describe, dir, files, front);
      assert forall i :: 0 <= i < |front| ==> front[i] == order[i];
    }
  }

  /** The file extension as `check_extra_files` compares it: lower-cased, empty when there is none. */
  function LowerExtension(name: string): string {
    match Extension(name)
    case None => ""
    case Some(e) => Lower(e)
  }

  /** A file of the directory that `check_extra_files` reports. */
  predicate IsExtra(o: VerificationOptions, m: Entries, dir: Path, files: map<string, FileChecksum>, c: string) {
    && IsFile(m, dir + [c])
    && c != MANIFEST_FILE
    && (o.fileExtensions == [] || LowerExtension(c) in o.fileExtensions)
    && c !in files
  }

  /** `after` is `before` with the directory's extra files appended, each once, and nothing else changed. */
  ghost predicate ExtrasAdded(o: VerificationOptions, m: Entries, dir: Path, files: map<string, FileChecksum>,
                              before: VerificationResult, after: VerificationResult) {
    && |before.extraFileNames| <= |after.extraFileNames|
    && var added := after.extraFileNames[|before.extraFileNames|..];
      && after == before.(extraFiles := before.extraFiles + |added|, extraFileNames := before.extraFileNames + added)
      && DistinctNames(added)
      && forall c :: c in added <==> IsExtra(o, m, dir, files, c)
  }

  /** Part way through the directory listing: `added` holds the extra files among the names already looked at. */
  ghost predicate ExtraScan(o: VerificationOptions, m: Entries, dir: Path, files: map<string, FileChecksum>,
                            todo: set<string>, added: seq<string>) {
    && DistinctNames(added)
    && forall c :: c in added <==> c !in todo && IsExtra(o, m, dir, files, c)
  }

  lemma ExtraScanStep(o: VerificationOptions, m: Entries, dir: Path, files: map<string, FileChecksum>,
                      todo: set<string>, added: seq<string>, c: string)
    requires ExtraScan(o, m, dir, files, todo, added) && c in todo
    ensures ExtraScan(o, m, dir, files, todo - {c}, if IsExtra(o, m, dir, files, c) then added + [c] else added)
  {
  }

  /** `add_extra_file` */
  function AddExtraFile(res: VerificationResult, name: string): VerificationResult {
    res.(extraFiles := res.extraFiles + 1, extraFileNames := res.extraFileNames + [name])
  }

  /**
   * `check_extra_files`: list the directory and report every regular file
   * that is neither the manifest file itself nor listed in the manifest,
   * keeping to the configured extensions when there are any.  A directory
   * that cannot be listed is an error.
   */
  method CheckExtraFiles(fs: Fs, o: VerificationOptions, dir: Path, files: map<string, FileChecksum>, res: VerificationResult)
    returns (r: Result<VerificationResult, Error>)
    ensures r.Err? <==> !IsDir(fs.entries, dir)
    ensures r.Err? ==> r.error == FileSystem(ReadFailed(dir))
    ensures r.Ok? ==> ExtrasAdded(o, fs.entries, dir, files, res, r.value)
  {
    if !IsDir(fs.entries, dir) {
      return Err(FileSystem(ReadFailed(dir)));
    }
    var todo := fs.ReadDir(dir);
    var acc := res;
    ghost var added: seq<string> := [];
    ExtraScanStart(o, fs.entries, dir, files, todo);
    while todo != {}
      invariant ExtraScan(o, fs.entries, dir, files, todo, added)
      invariant acc == res.(extraFiles := res.extraFiles + |added|, extraFileNames := res.extraFileNames + added)
      decreases |todo|
    {
      var c :| c in todo;
      ExtraScanStep(o, fs.entries, dir, files, todo, added, c);
      if IsExtra(o, fs.entries, dir, files, c) {
        acc := AddExtraFile(acc, c);
        added := added + [c];
      }
      todo := todo - {c};
    }
    ExtraScanDone(o, fs.entries, dir, files, res, added);
    return Ok(acc);
  }

  lemma ExtraScanStart(o: VerificationOptions, m: Entries, dir: Path, files: map<string, FileChecksum>, todo: set<string>)
    requires forall c :: c in todo <==> dir + [c] in m
    ensures ExtraScan(o, m, dir, files, todo, [])
  {
  }

  lemma ExtraScanDone(o: VerificationOptions, m: Entries, dir: Path, files: map<string, FileChecksum>,
                      res: VerificationResult, added: seq<string>)
    requires ExtraScan(o, m, dir, files, {}, added)
    ensures ExtrasAdded(o, m, dir, files, res,
                        res.(extraFiles := res.extraFiles + |added|, extraFileNames := res.extraFileNames + added))
  {
    assert (res.extraFileNames + added)[|res.extraFileNames|..] == added;
  }

  /** Part way through the manifest: `order` lists, once each, the entries outside `todo`. */
  ghost predicate Visited(files: map<string, FileChecksum>, todo: set<string>, order: seq<string>) {
    && DistinctNames(order)
    && forall k :: k in order <==> k in files && k !in todo
  }

  lemma VisitStep(files: map<string, FileChecksum>, todo: set<string>, order: seq<string>, k: string)
    requires Visited(files, todo, order) && k in todo && todo <= files.Keys
    ensures Visited(files, todo - {k}, order + [k])
  {
  }

  /** With `fail_fast`, the visit ended at a failing entry. */
  ghost predicate StoppedEarly(o: VerificationOptions, m: Entries, hash: Bytes -> string, describe: Error -> string,
                               dir: Path, files: map<string, FileChecksum>, order: seq<string>)
    requires forall i :: 0 <= i < |order| ==> order[i] in files
  {
    && o.failFast && order != []
    && !FileOutcome(o, m, hash, describe, dir, order[|order| - 1], files[order[|order| - 1]]).passed
  }

  /**
   * `verify_directory`: verify every manifest entry against the file of the
   * same name in `dir`, stopping after the first failure with `fail_fast`;
   * then, unless it stopped early, look for extra files when
   * `check_extra_files`.  The ghost `order` is the order the entries were
   * visited in.
   */
  method VerifyDirectory(fs: Fs, o: VerificationOptions, dir: Path, manifest: ChecksumManifest, hash: Bytes -> string,
                         describe: Error -> string)
    returns (r: Result<VerificationResult, Error>, ghost order: seq<string>)
    ensures DistinctNames(order) && forall i :: 0 <= i < |order| ==> order[i] in manifest.files
    ensures o.failFast ==> forall i :: 0 <= i < |order| - 1 ==>
      FileOutcome(o, fs.entries, hash, describe, dir, order[i], manifest.files[order[i]]).passed
    ensures !StoppedEarly(o, fs.entries, hash, describe, dir, manifest.files, order) ==>
      forall k :: k in manifest.files <==> k in order
    ensures StoppedEarly(o, fs.entries, hash, describe, dir, manifest.files, order) || !o.checkExtraFiles ==>
      r == Ok(VerifiedOver(o, fs.entries, hash, describe, dir, manifest.files, order))
    ensures !StoppedEarly(o, fs.entries, hash, describe, dir, manifest.files, order) && o.checkExtraFiles ==>
      && (r.Err? <==> !IsDir(fs.entries, dir))
      && (r.Err? ==> r.error == FileSystem(ReadFailed(dir)))
      && (r.Ok? ==> ExtrasAdded(o, fs.entries, dir, manifest.files,
                                VerifiedOver(o, fs.entries, hash, describe, dir, manifest.files, order), r.value))
  {
    var files := manifest.files;
    var todo := files.Keys;
    var res := NewVerificationResult();
    order := [];
    while todo != {}
      invariant todo <= files.Keys && Visited(files, todo, order)
      invariant res == VerifiedOver(o, fs.entries, hash, describe, dir, files, order)
      invariant o.failFast ==> forall i :: 0 <= i < |order| ==>
        FileOutcome(o, fs.entries, hash, describe, dir, order[i], files[order[i]]).passed
      decreases |todo|
    {
      var k :| k in todo;
      VisitStep(files, todo, order, k);
      var outcome := FileOutcome(o, fs.entries, hash, describe, dir, k, files[k]);
      assert (order + [k])[..|order|] == order;
      res := AddResult(res, outcome);
      order := order + [k];
      todo := todo - {k};
      if o.failFast && !outcome.passed {
        return Ok(res), order;
      }
    }
    if o.checkExtraFiles {
      r := CheckExtraFiles(fs, o, dir, files, res);
    } else {
      r := Ok(res);
    }
  }

  /**
   * A complete verification (no early stop) counts every manifest entry,
   * and succeeds exactly when every entry passed; files the manifest does
   * not list never make it fail.
   */
  lemma CompleteVerification(o: VerificationOptions, m: Entries, hash: Bytes -> string, describe: Error -> string,
                             dir: Path, files: map<string, FileChecksum>, order: seq<string>, r: VerificationResult)
    requires DistinctNames(order) && forall k :: k in files <==> k in order
    requires var res := VerifiedOver(o, m, hash, describe, dir, files, order);
      r == res || ExtrasAdded(o, m, dir, files, res, r)
    ensures r.totalFiles == |files| && r.totalFiles == r.passed + r.failed && r.missing <= r.failed
    ensures r.success <==> forall k :: k in files ==> FileOutcome(o, m, hash, describe, dir, k, files[k]).passed
  {
    CompleteVisitCounts(o, m, hash, describe, dir, files, order);
    VerifiedOverCounts(o, m, hash, describe, dir, files, order);
    VerifiedOverSuccess(o, m, hash, describe, dir, files, order);
    var res := VerifiedOver(o, m, hash, describe, dir, files, order);
    assert r.success == res.success && r.totalFiles == res.totalFiles && r.passed == res.passed;
    if forall i :: 0 <= i < |order| ==> FileOutcome(o, m, hash, describe, dir, order[i], files[order[i]]).passed {
      forall k | k in files ensures FileOutcome(o, m, hash, describe, dir, k, files[k]).passed {
        var i :| 0 <= i < |order| && order[i] == k;
      }
    }
  }
}
