/**
 * The transfer engine: copies a list of files into a destination directory,
 * skipping files already there, retrying failed copies, and keeping the
 * counters of the `TransferResult`.
 *
 * What the engine cannot see is an input: `hash` is SHA-256 over a file's
 * bytes, `attempt(i, n)` is the outcome of the n-th copy attempt of the i-th
 * item (the digest the copy computed, or the error it raised), `residue(i)`
 * is what a failed item leaves at its destination, and `cancelAt` is the
 * first checkpoint at which a concurrent `cancel()` has become visible.
 * Checkpoint 0 is the one before the loop, checkpoint i + 1 the one before
 * item i.  The file system is threaded through the run: every item is
 * decided on the entries the earlier items left.
 */
module Transfer {
  import opened Wrappers
  import opened Text
  import opened Files
  import opened Errors
  import opened Sorting
  import opened Playlist
  import opened PlaylistStore

  const DEFAULT_CHUNK_SIZE: nat := 64 * 1024
  const MIN_CHUNK_SIZE: nat := 4 * 1024
  const MAX_CHUNK_SIZE: nat := 1024 * 1024
  const DEFAULT_PROGRESS_INTERVAL_MS: nat := 100

  /** Durations are whole milliseconds. */
  datatype TransferOptions = TransferOptions(
    chunkSize: nat,
    verifyIntegrity: bool,
    skipExisting: bool,
    verifyExistingChecksum: bool,
    preserveTimestamps: bool,
    progressIntervalMs: nat,
    continueOnError: bool,
    maxRetries: nat,
    retryDelayMs: nat)

  function DefaultOptions(): TransferOptions {
    TransferOptions(DEFAULT_CHUNK_SIZE, true, true, false, true, DEFAULT_PROGRESS_INTERVAL_MS, true, 3, 1000)
  }

  /** `fast()`: no verification, largest chunks. */
  function FastOptions(): TransferOptions {
    DefaultOptions().(verifyIntegrity := false, verifyExistingChecksum := false, chunkSize := MAX_CHUNK_SIZE)
  }

  /** `reliable()`: full verification and five retries. */
  function ReliableOptions(): TransferOptions {
    DefaultOptions().(verifyIntegrity := true, verifyExistingChecksum := true, maxRetries := 5)
  }

  /** `validate`: the chunk size must lie between 4 KiB and 1 MiB. */
  function Validate(o: TransferOptions): (r: Result<(), Error>)
    ensures r.Ok? <==> MIN_CHUNK_SIZE <= o.chunkSize <= MAX_CHUNK_SIZE
    ensures o.chunkSize < MIN_CHUNK_SIZE ==> r == Err(Configuration("chunk_size must be at least 4096 bytes"))
    ensures o.chunkSize > MAX_CHUNK_SIZE ==> r == Err(Configuration("chunk_size must be at most 1048576 bytes"))
  {
    if o.chunkSize < MIN_CHUNK_SIZE then Err(Configuration("chunk_size must be at least 4096 bytes"))
    else if o.chunkSize > MAX_CHUNK_SIZE then Err(Configuration("chunk_size must be at most 1048576 bytes"))
    else Ok(())
  }

  lemma PresetsAreValid()
    ensures Validate(DefaultOptions()).Ok? && Validate(FastOptions()).Ok? && Validate(ReliableOptions()).Ok?
    ensures FastOptions().chunkSize == MAX_CHUNK_SIZE && !FastOptions().verifyIntegrity
    ensures ReliableOptions().verifyExistingChecksum && ReliableOptions().maxRetries == 5
  {
  }

  // ---------------------------------------------------------------------
  // Results
  // ---------------------------------------------------------------------

  datatype TransferItem = TransferItem(source: Path, destination: Path, sizeBytes: nat)

  /** A copied or skipped file; the per-file duration is not modelled. */
  datatype TransferredFile = TransferredFile(
    source: Path,
    destination: Path,
    sizeBytes: nat,
    checksum: Option<string>,
    skipped: bool)

  datatype FailedTransfer = FailedTransfer(source: Path, destination: Path, error: string, retryCount: nat)

  /** The result record; the duration and average speed are not modelled. */
  datatype TransferResult = TransferResult(
    totalFiles: nat,
    filesTransferred: nat,
    filesSkipped: nat,
    filesFailed: nat,
    bytesTransferred: nat,
    bytesSkipped: nat,
    transferredFiles: seq<TransferredFile>,
    failedTransfers: seq<FailedTransfer>,
    wasCancelled: bool,
    success: bool)

  function EmptyResult(): TransferResult {
    TransferResult(0, 0, 0, 0, 0, 0, [], [], false, true)
  }

  // ---------------------------------------------------------------------
  // Building the items
  // ---------------------------------------------------------------------

  /** A source the engine can take: it exists and has a file name. */
  predicate Transferable(m: Entries, source: Path) {
    source in m && source != []
  }

  function SourceError(m: Entries, source: Path): Error {
    if source !in m then Transfer(SourceNotFound(source))
    else FileSystem(InvalidPath(source, "source file has no name"))
  }

  function ItemOf(m: Entries, source: Path, dest: Path): TransferItem
    requires Transferable(m, source)
  {
    TransferItem(source, dest + [FileName(source)], Size(m[source]))
  }

  /** The items for `sources`, or the error of the first source that is missing or nameless. */
  function BuildItems(m: Entries, sources: seq<Path>, dest: Path): Result<seq<TransferItem>, Error>
  {
    if sources == [] then Ok([])
    else if !Transferable(m, sources[0]) then Err(SourceError(m, sources[0]))
    else
      var rest :- BuildItems(m, sources[1..], dest);
      Ok([ItemOf(m, sources[0], dest)] + rest)
  }

  /** One item per source, in order, each sized from its source; else the first bad source's error. */
  lemma {:induction false} BuildItemsSpec(m: Entries, sources: seq<Path>, dest: Path)
    ensures BuildItems(m, sources, dest).Ok? <==> forall k :: 0 <= k < |sources| ==> Transferable(m, sources[k])
    ensures BuildItems(m, sources, dest).Ok? ==>
      |BuildItems(m, sources, dest).value| == |sources| &&
      forall k :: 0 <= k < |sources| ==> BuildItems(m, sources, dest).value[k] == ItemOf(m, sources[k], dest)
    ensures BuildItems(m, sources, dest).Err? ==>
      exists k :: 0 <= k < |sources| && !Transferable(m, sources[k]) &&
        (forall j :: 0 <= j < k ==> Transferable(m, sources[j])) &&
        BuildItems(m, sources, dest).error == SourceError(m, sources[k])
  {
    if sources != [] {
      BuildItemsSpec(m, sources[1..], dest);
      if !Transferable(m, sources[0]) {
        assert 0 < |sources|;
      } else if BuildItems(m, sources[1..], dest).Err? {
        var k :| 0 <= k < |sources[1..]| && !Transferable(m, sources[1..][k]) &&
                 (forall j :: 0 <= j < k ==> Transferable(m, sources[1..][j])) &&
                 BuildItems(m, sources[1..], dest).error == SourceError(m, sources[1..][k]);
        assert sources[k + 1] == sources[1..][k];
        forall j | 0 <= j < k + 1 ensures Transferable(m, sources[j]) {
          if j > 0 { assert sources[j] == sources[1..][j - 1]; }
        }
      } else {
        forall k | 0 <= k < |sources| ensures Transferable(m, sources[k]) {
          if k > 0 { assert sources[k] == sources[1..][k - 1]; }
        }
      }
    }
  }

  /** `build_transfer_items`: the loop over the sources. */
  method BuildTransferItems(fs: Fs, sources: seq<Path>, dest: Path) returns (r: Result<seq<TransferItem>, Error>)
    ensures r == BuildItems(fs.entries, sources, dest)
  {
    var items: seq<TransferItem> := [];
    assert sources[0..] == sources;
    ghost var all := BuildItems(fs.entries, sources, dest);
    assert all.Ok? ==> [] + all.value == all.value;
    for i := 0 to |sources|
      invariant BuildItems(fs.entries, sources, dest) == Prepend(items, BuildItems(fs.entries, sources[i..], dest))
    {
      assert sources[i..][1..] == sources[i + 1..] && sources[i..][0] == sources[i];
      if sources[i] !in fs.entries {
        return Err(Transfer(SourceNotFound(sources[i])));
      }
      if sources[i] == [] {
        return Err(FileSystem(InvalidPath(sources[i], "source file has no name")));
      }
      PrependAssoc(items, ItemOf(fs.entries, sources[i], dest), BuildItems(fs.entries, sources[i + 1..], dest));
      items := items + [ItemOf(fs.entries, sources[i], dest)];
    }
    assert sources[|sources|..] == [] && items + [] == items;
    r := Ok(items);
  }

  function Prepend(front: seq<TransferItem>, r: Result<seq<TransferItem>, Error>): Result<seq<TransferItem>, Error> {
    if r.Ok? then Ok(front + r.value) else r
  }

  lemma PrependAssoc(front: seq<TransferItem>, x: TransferItem, r: Result<seq<TransferItem>, Error>)
    ensures Prepend(front, (var rest :- r; Ok([x] + rest))) == Prepend(front + [x], r)
  {
    if r.Ok? {
      assert front + ([x] + r.value) == front + [x] + r.value;
    }
  }

  // ---------------------------------------------------------------------
  // Deciding one item
  // ---------------------------------------------------------------------

  /**
   * What the engine cannot compute itself, with `m` the entries as the
   * current item finds them.  A failed item's last attempt may have left a
   * partial or truncated file (`Some` of its bytes) or removed it, or never
   * created it (`None`).
   */
  datatype Env = Env(
    m: Entries,
    hash: Bytes -> string,
    attempt: (nat, nat) -> Result<string, string>,
    residue: nat -> Option<Bytes>,
    cancelAt: Option<nat>)

  /** The cancellation flag as read at checkpoint `c`, starting from the engine's own flag. */
  predicate CancelledAt(flag: bool, env: Env, c: nat) {
    flag || (env.cancelAt.Some? && env.cancelAt.value <= c)
  }

  /** `compute_file_checksum`: fails on anything that is not a readable file. */
  function FileChecksum(env: Env, p: Path): Result<string, Error> {
    if IsFile(env.m, p) then Ok(env.hash(env.m[p].content)) else Err(FileSystem(ReadFailed(p)))
  }

  /**
   * The skip test: with `skip_existing`, a destination that exists and has
   * the source's size (and, with `verify_existing_checksum`, its checksum)
   * is left alone.  Reading a checksum can fail, which ends the whole run.
   */
  function SkipCheck(o: TransferOptions, env: Env, item: TransferItem): Result<bool, Error> {
    if o.skipExisting && item.destination in env.m then
      var sizesMatch := Size(env.m[item.destination]) == item.sizeBytes;
      if o.verifyExistingChecksum && sizesMatch then
        var a :- FileChecksum(env, item.source);
        var b :- FileChecksum(env, item.destination);
        Ok(a == b)
      else Ok(sizesMatch)
    else Ok(false)
  }

  lemma SkipRule(o: TransferOptions, env: Env, item: TransferItem)
    ensures SkipCheck(o, env, item) == Ok(true) <==>
      o.skipExisting && item.destination in env.m && Size(env.m[item.destination]) == item.sizeBytes &&
      (o.verifyExistingChecksum ==>
        IsFile(env.m, item.source) && IsFile(env.m, item.destination) &&
        env.hash(env.m[item.source].content) == env.hash(env.m[item.destination].content))
    ensures SkipCheck(o, env, item).Err? <==>
      o.skipExisting && item.destination in env.m && Size(env.m[item.destination]) == item.sizeBytes &&
      o.verifyExistingChecksum && !(IsFile(env.m, item.source) && IsFile(env.m, item.destination))
    ensures !o.skipExisting || item.destination !in env.m ==> SkipCheck(o, env, item) == Ok(false)
  {
  }

  datatype Decision = Skip | Copy(checksum: Option<string>) | Fail(error: string)

  /**
   * The retry loop from attempt `n` on: the first attempt that succeeds
   * copies the file (its digest becomes the checksum when integrity is
   * verified); after attempt `maxRetries` fails, the item fails with that
   * attempt's error.
   */
  function Retry(o: TransferOptions, env: Env, i: nat, n: nat): (d: Decision)
    requires n <= o.maxRetries
    ensures !d.Skip?
    decreases o.maxRetries - n
  {
    var outcome := env.attempt(i, n);
    if outcome.Ok? then Copy(if o.verifyIntegrity then Some(outcome.value) else None)
    else if n == o.maxRetries then Fail(outcome.error)
    else Retry(o, env, i, n + 1)
  }

  /** An item fails exactly when all `maxRetries + 1` attempts fail, with the last attempt's error. */
  lemma {:induction false} RetrySpec(o: TransferOptions, env: Env, i: nat, n: nat)
    requires n <= o.maxRetries
    ensures Retry(o, env, i, n).Fail? <==> forall t :: n <= t <= o.maxRetries ==> env.attempt(i, t).Err?
    ensures Retry(o, env, i, n).Fail? ==> Retry(o, env, i, n).error == env.attempt(i, o.maxRetries).error
    ensures Retry(o, env, i, n).Copy? ==>
      exists t :: n <= t <= o.maxRetries && env.attempt(i, t).Ok? &&
        (forall u :: n <= u < t ==> env.attempt(i, u).Err?) &&
        Retry(o, env, i, n).checksum == (if o.verifyIntegrity then Some(env.attempt(i, t).value) else None)
    decreases o.maxRetries - n
  {
    if env.attempt(i, n).Err? && n < o.maxRetries {
      RetrySpec(o, env, i, n + 1);
    }
  }

  function Decide(o: TransferOptions, env: Env, i: nat, item: TransferItem): Result<Decision, Error> {
    var skip :- SkipCheck(o, env, item);
    Ok(if skip then Skip else Retry(o, env, i, 0))
  }

  /** Book one decided item into the result. */
  function Record(o: TransferOptions, res: TransferResult, item: TransferItem, d: Decision): TransferResult {
    match d
    case Skip =>
      res.(filesSkipped := res.filesSkipped + 1, bytesSkipped := res.bytesSkipped + item.sizeBytes,
           transferredFiles := res.transferredFiles + [TransferredFile(item.source, item.destination, item.sizeBytes, None, true)])
    case Copy(checksum) =>
      res.(filesTransferred := res.filesTransferred + 1, bytesTransferred := res.bytesTransferred + item.sizeBytes,
           transferredFiles := res.transferredFiles + [TransferredFile(item.source, item.destination, item.sizeBytes, checksum, false)])
    case Fail(error) =>
      res.(filesFailed := res.filesFailed + 1,
           failedTransfers := res.failedTransfers + [FailedTransfer(item.source, item.destination, error, o.maxRetries + 1)])
  }

  // ---------------------------------------------------------------------
  // What an item does to the destination
  // ---------------------------------------------------------------------

  /**
   * `File::create(p)` and writing `data` into it: refused, changing
   * nothing, on a directory or without a parent directory.
   */
  function Written(m: Entries, p: Path, data: Bytes): Entries {
    if p != [] && IsDir(m, Parent(p)) && !IsDir(m, p) then m[p := File(data)] else m
  }

  /** `fs::remove_file(p)`: only a regular file goes. */
  function Removed(m: Entries, p: Path): Entries {
    if IsFile(m, p) then m - {p} else m
  }

  /** The bytes a copy reads from `p`. */
  function SourceBytes(m: Entries, p: Path): Bytes {
    if IsFile(m, p) then m[p].content else []
  }

  /**
   * The entries after item `i` was decided `d`: a skip changes nothing, a
   * copy writes the source's bytes to the destination, and a failure
   * leaves the residue of its last attempt there.
   */
  function Apply(env: Env, i: nat, item: TransferItem, d: Decision): Entries {
    match d
    case Skip => env.m
    case Copy(_) => Written(env.m, item.destination, SourceBytes(env.m, item.source))
    case Fail(_) =>
      if env.residue(i).Some? then Written(env.m, item.destination, env.residue(i).value)
      else Removed(env.m, item.destination)
  }

  /** The environment the next item finds. */
  function After(env: Env, i: nat, item: TransferItem, d: Decision): Env {
    env.(m := Apply(env, i, item, d))
  }

  /**
   * An item touches only its destination, never creates or removes a
   * directory, and a copy leaves the source's bytes at a destination that
   * is not a directory and whose parent is one.
   */
  lemma ApplySpec(env: Env, i: nat, item: TransferItem, d: Decision)
    ensures var m' := Apply(env, i, item, d);
      && (forall p :: p != item.destination ==> (p in m' <==> p in env.m) && (p in m' ==> m'[p] == env.m[p]))
      && (forall p :: IsDir(m', p) <==> IsDir(env.m, p))
      && (d.Copy? && item.destination != [] && IsDir(env.m, Parent(item.destination)) && !IsDir(env.m, item.destination) ==>
            item.destination in m' && m'[item.destination] == File(SourceBytes(env.m, item.source)))
      && (d.Skip? ==> m' == env.m)
  {
  }

  // ---------------------------------------------------------------------
  // The run
  // ---------------------------------------------------------------------

  /**
   * The loop from item `k` on: stop at a visible cancellation, end the run
   * with an error when a skip test cannot read a checksum, and stop after a
   * failed item unless `continue_on_error`.
   */
  function Run(o: TransferOptions, env: Env, flag: bool, items: seq<TransferItem>, k: nat, res: TransferResult): Result<TransferResult, Error>
    requires k <= |items|
    decreases |items| - k
  {
    if k == |items| then Ok(res)
    else if CancelledAt(flag, env, k + 1) then Ok(res.(wasCancelled := true, success := false))
    else
      var d :- Decide(o, env, k, items[k]);
      var next := Record(o, res, items[k], d);
      if d.Fail? && !o.continueOnError then Ok(next.(success := false))
      else Run(o, After(env, k, items[k], d), flag, items, k + 1, next)
  }

  /** The entries the loop from item `k` on leaves behind. */
  function Effect(o: TransferOptions, env: Env, flag: bool, items: seq<TransferItem>, k: nat): Entries
    requires k <= |items|
    decreases |items| - k
  {
    if k == |items| || CancelledAt(flag, env, k + 1) then env.m
    else match Decide(o, env, k, items[k])
      case Err(_) => env.m
      case Ok(d) =>
        var after := After(env, k, items[k], d);
        if d.Fail? && !o.continueOnError then after.m
        else Effect(o, after, flag, items, k + 1)
  }

  function Finalize(res: TransferResult): TransferResult {
    res.(success := res.success && res.filesFailed == 0 && !res.wasCancelled)
  }

  /** `transfer_files`, as a function of the inputs. */
  function TransferSpec(o: TransferOptions, env: Env, flag: bool, sources: seq<Path>, dest: Path): Result<TransferResult, Error> {
    var _ :- Validate(o);
    if dest !in env.m then Err(FileSystem(FileSystemError.NotFound(dest)))
    else if !IsDir(env.m, dest) then Err(FileSystem(InvalidPath(dest, "destination is not a directory")))
    else
      var start := EmptyResult().(totalFiles := |sources|);
      var items :- BuildItems(env.m, sources, dest);
      if CancelledAt(flag, env, 0) then Ok(start.(wasCancelled := true, success := false))
      else
        var res :- Run(o, env, flag, items, 0, start);
        Ok(Finalize(res))
  }

  /** The entries `transfer_files` leaves: untouched unless the loop ran. */
  function TransferEffect(o: TransferOptions, env: Env, flag: bool, sources: seq<Path>, dest: Path): Entries {
    if Validate(o).Err? || !IsDir(env.m, dest) || BuildItems(env.m, sources, dest).Err? || CancelledAt(flag, env, 0) then env.m
    else Effect(o, env, flag, BuildItems(env.m, sources, dest).value, 0)
  }

  // ---------------------------------------------------------------------
  // Accounting
  // ---------------------------------------------------------------------

  /** The number of records with the given `skipped` flag. */
  function CountWhere(files: seq<TransferredFile>, skipped: bool): nat {
    if files == [] then 0
    else CountWhere(files[..|files| - 1], skipped) + (if files[|files| - 1].skipped == skipped then 1 else 0)
  }

  /** The bytes of the records with the given `skipped` flag. */
  function BytesWhere(files: seq<TransferredFile>, skipped: bool): nat {
    if files == [] then 0
    else BytesWhere(files[..|files| - 1], skipped) + (if files[|files| - 1].skipped == skipped then files[|files| - 1].sizeBytes else 0)
  }

  lemma {:induction false} CountWhereSplit(files: seq<TransferredFile>)
    ensures CountWhere(files, true) + CountWhere(files, false) == |files|
  {
    if files != [] {
      CountWhereSplit(files[..|files| - 1]);
    }
  }

  lemma AppendRecord(files: seq<TransferredFile>, f: TransferredFile, skipped: bool)
    ensures CountWhere(files + [f], skipped) == CountWhere(files, skipped) + (if f.skipped == skipped then 1 else 0)
    ensures BytesWhere(files + [f], skipped) == BytesWhere(files, skipped) + (if f.skipped == skipped then f.sizeBytes else 0)
  {
    assert (files + [f])[..|files + [f]| - 1] == files;
  }

  /**
   * The counters agree with the records: skipped and copied files are the
   * records with and without the `skipped` flag, their bytes likewise,
   * every failed record stores `max_retries + 1` attempts, and `success`
   * was only ever cleared by a failure or a cancellation.
   */
  predicate Accounted(o: TransferOptions, res: TransferResult) {
    && res.filesSkipped == CountWhere(res.transferredFiles, true)
    && res.filesTransferred == CountWhere(res.transferredFiles, false)
    && res.bytesSkipped == BytesWhere(res.transferredFiles, true)
    && res.bytesTransferred == BytesWhere(res.transferredFiles, false)
    && res.filesFailed == |res.failedTransfers|
    && (forall f :: f in res.failedTransfers ==> f.retryCount == o.maxRetries + 1)
    && (res.success || res.filesFailed > 0 || res.wasCancelled)
  }

  /** The items booked so far. */
  function Processed(res: TransferResult): nat {
    |res.transferredFiles| + |res.failedTransfers|
  }

  /** Booking an item moves exactly one of the three counters, by one, and keeps the books straight. */
  lemma RecordAccounted(o: TransferOptions, res: TransferResult, item: TransferItem, d: Decision)
    requires Accounted(o, res)
    ensures var next := Record(o, res, item, d);
      && Accounted(o, next)
      && Processed(next) == Processed(res) + 1
      && next.filesTransferred + next.filesSkipped + next.filesFailed == res.filesTransferred + res.filesSkipped + res.filesFailed + 1
      && (d.Skip? <==> next.filesSkipped == res.filesSkipped + 1)
      && (d.Copy? <==> next.filesTransferred == res.filesTransferred + 1)
      && (d.Fail? <==> next.filesFailed == res.filesFailed + 1)
      && next.totalFiles == res.totalFiles && next.wasCancelled == res.wasCancelled
  {
    var next := Record(o, res, item, d);
    match d
    case Skip =>
      AppendRecord(res.transferredFiles, TransferredFile(item.source, item.destination, item.sizeBytes, None, true), true);
      AppendRecord(res.transferredFiles, TransferredFile(item.source, item.destination, item.sizeBytes, None, true), false);
    case Copy(c) =>
      AppendRecord(res.transferredFiles, TransferredFile(item.source, item.destination, item.sizeBytes, c, false), true);
      AppendRecord(res.transferredFiles, TransferredFile(item.source, item.destination, item.sizeBytes, c, false), false);
    case Fail(e) =>
      assert forall f :: f in next.failedTransfers ==> f in res.failedTransfers || f.retryCount == o.maxRetries + 1;
  }

  /**
   * The loop keeps the books straight, never books more items than there
   * are, and stops early only for a cancellation or, without
   * `continue_on_error`, right after the first failure.
   */
  lemma {:induction false} RunAccounted(o: TransferOptions, env: Env, flag: bool, items: seq<TransferItem>, k: nat, res: TransferResult)
    requires k <= |items| && Accounted(o, res) && Processed(res) == k
    ensures var r := Run(o, env, flag, items, k, res);
      r.Ok? ==>
        && Accounted(o, r.value)
        && Processed(r.value) <= |items|
        && r.value.totalFiles == res.totalFiles
        && (Processed(r.value) < |items| ==> r.value.wasCancelled || (!o.continueOnError && r.value.filesFailed == res.filesFailed + 1 && !r.value.success))
        && (!o.continueOnError && res.filesFailed == 0 ==> r.value.filesFailed <= 1)
    decreases |items| - k
  {
    if k < |items| && !CancelledAt(flag, env, k + 1) {
      var d := Decide(o, env, k, items[k]);
      if d.Ok? {
        var next := Record(o, res, items[k], d.value);
        RecordAccounted(o, res, items[k], d.value);
        if !(d.value.Fail? && !o.continueOnError) {
          RunAccounted(o, After(env, k, items[k], d.value), flag, items, k + 1, next);
        }
      }
    }
  }

  /** What `transfer_files` reports about the files it saw. */
  lemma TransferCounts(o: TransferOptions, env: Env, flag: bool, sources: seq<Path>, dest: Path)
    ensures var r := TransferSpec(o, env, flag, sources, dest);
      r.Ok? ==>
        && r.value.totalFiles == |sources|
        && r.value.filesTransferred + r.value.filesSkipped == |r.value.transferredFiles|
        && r.value.filesFailed == |r.value.failedTransfers|
        && r.value.filesTransferred + r.value.filesSkipped + r.value.filesFailed <= r.value.totalFiles
        && r.value.bytesSkipped == BytesWhere(r.value.transferredFiles, true)
        && r.value.bytesTransferred == BytesWhere(r.value.transferredFiles, false)
        && (forall f :: f in r.value.failedTransfers ==> f.retryCount == o.maxRetries + 1)
        && (!o.continueOnError ==> r.value.filesFailed <= 1)
  {
    var r := TransferSpec(o, env, flag, sources, dest);
    if r.Ok? && !CancelledAt(flag, env, 0) {
      var start := EmptyResult().(totalFiles := |sources|);
      var items := BuildItems(env.m, sources, dest).value;
      BuildItemsSpec(env.m, sources, dest);
      RunAccounted(o, env, flag, items, 0, start);
      CountWhereSplit(r.value.transferredFiles);
    }
  }

  /** `success` holds exactly when the run was neither cancelled nor saw a failure. */
  lemma TransferSuccess(o: TransferOptions, env: Env, flag: bool, sources: seq<Path>, dest: Path)
    ensures var r := TransferSpec(o, env, flag, sources, dest);
      r.Ok? ==> (r.value.success <==> !r.value.wasCancelled && r.value.filesFailed == 0)
  {
    var r := TransferSpec(o, env, flag, sources, dest);
    if r.Ok? && !CancelledAt(flag, env, 0) {
      var start := EmptyResult().(totalFiles := |sources|);
      BuildItemsSpec(env.m, sources, dest);
      RunAccounted(o, env, flag, BuildItems(env.m, sources, dest).value, 0, start);
    }
  }

  /** Every source is dealt with unless the run was cancelled or stopped at a failure. */
  lemma TransferCompletes(o: TransferOptions, env: Env, flag: bool, sources: seq<Path>, dest: Path)
    ensures var r := TransferSpec(o, env, flag, sources, dest);
      r.Ok? && !r.value.wasCancelled && (o.continueOnError || r.value.filesFailed == 0) ==>
        Processed(r.value) == |sources|
  {
    var r := TransferSpec(o, env, flag, sources, dest);
    if r.Ok? && !CancelledAt(flag, env, 0) {
      var start := EmptyResult().(totalFiles := |sources|);
      BuildItemsSpec(env.m, sources, dest);
      RunAccounted(o, env, flag, BuildItems(env.m, sources, dest).value, 0, start);
    }
  }

  /**
   * The errors `transfer_files` raises before touching any file, in order:
   * invalid options, missing destination, destination not a directory,
   * then the first missing or nameless source.  The only other error is a
   * checksum read failing during a skip test.
   */
  lemma TransferErrors(o: TransferOptions, env: Env, flag: bool, sources: seq<Path>, dest: Path)
    ensures var r := TransferSpec(o, env, flag, sources, dest);
      && (Validate(o).Err? ==> r == Err(Validate(o).error))
      && (Validate(o).Ok? && dest !in env.m ==> r == Err(FileSystem(FileSystemError.NotFound(dest))))
      && (Validate(o).Ok? && dest in env.m && !IsDir(env.m, dest) ==> r == Err(FileSystem(InvalidPath(dest, "destination is not a directory"))))
      && (Validate(o).Ok? && IsDir(env.m, dest) && BuildItems(env.m, sources, dest).Err? ==> r == Err(BuildItems(env.m, sources, dest).error))
      && (r.Err? && Validate(o).Ok? && IsDir(env.m, dest) && BuildItems(env.m, sources, dest).Ok? ==> r.error.FileSystem? && r.error.fs.ReadFailed?)
  {
    var r := TransferSpec(o, env, flag, sources, dest);
    if r.Err? && Validate(o).Ok? && IsDir(env.m, dest) && BuildItems(env.m, sources, dest).Ok? && !CancelledAt(flag, env, 0) {
      RunErrors(o, env, flag, BuildItems(env.m, sources, dest).value, 0, EmptyResult().(totalFiles := |sources|));
    }
  }

  lemma {:induction false} RunErrors(o: TransferOptions, env: Env, flag: bool, items: seq<TransferItem>, k: nat, res: TransferResult)
    requires k <= |items|
    ensures Run(o, env, flag, items, k, res).Err? ==> Run(o, env, flag, items, k, res).error.FileSystem? && Run(o, env, flag, items, k, res).error.fs.ReadFailed?
    decreases |items| - k
  {
    if k < |items| && !CancelledAt(flag, env, k + 1) {
      var d := Decide(o, env, k, items[k]);
      if d.Ok? && !(d.value.Fail? && !o.continueOnError) {
        RunErrors(o, After(env, k, items[k], d.value), flag, items, k + 1, Record(o, res, items[k], d.value));
      }
    }
  }

  /** A cancellation already visible before the loop: Ok, cancelled, unsuccessful, nothing booked. */
  lemma CancelledBeforeStart(o: TransferOptions, env: Env, flag: bool, sources: seq<Path>, dest: Path)
    requires Validate(o).Ok? && IsDir(env.m, dest) && BuildItems(env.m, sources, dest).Ok?
    requires CancelledAt(flag, env, 0)
    ensures var r := TransferSpec(o, env, flag, sources, dest);
      r.Ok? && r.value.wasCancelled && !r.value.success && Processed(r.value) == 0 && r.value.totalFiles == |sources|
  {
  }

  /** No sources and no cancellation: a successful, empty run. */
  lemma EmptySourcesSucceed(o: TransferOptions, env: Env, flag: bool, dest: Path)
    requires Validate(o).Ok? && IsDir(env.m, dest) && !CancelledAt(flag, env, 0)
    ensures var r := TransferSpec(o, env, flag, [], dest);
      r.Ok? && r.value.success && r.value == EmptyResult()
  {
  }

  // ---------------------------------------------------------------------
  // What the run leaves on disk
  // ---------------------------------------------------------------------

  /** The loop changes nothing but the destinations of the items it reaches. */
  lemma {:induction false} EffectFrame(o: TransferOptions, env: Env, flag: bool, items: seq<TransferItem>, k: nat, p: Path)
    requires k <= |items|
    requires forall j :: k <= j < |items| ==> items[j].destination != p
    ensures var e := Effect(o, env, flag, items, k);
      (p in e <==> p in env.m) && (p in e ==> e[p] == env.m[p])
    decreases |items| - k
  {
    if k < |items| && !CancelledAt(flag, env, k + 1) {
      var d := Decide(o, env, k, items[k]);
      if d.Ok? {
        ApplySpec(env, k, items[k], d.value);
        if !(d.value.Fail? && !o.continueOnError) {
          EffectFrame(o, After(env, k, items[k], d.value), flag, items, k + 1, p);
        }
      }
    }
  }

  /** The loop never creates or removes a directory. */
  lemma {:induction false} EffectKeepsDirs(o: TransferOptions, env: Env, flag: bool, items: seq<TransferItem>, k: nat, p: Path)
    requires k <= |items|
    ensures IsDir(Effect(o, env, flag, items, k), p) <==> IsDir(env.m, p)
    decreases |items| - k
  {
    if k < |items| && !CancelledAt(flag, env, k + 1) {
      var d := Decide(o, env, k, items[k]);
      if d.Ok? {
        ApplySpec(env, k, items[k], d.value);
        if !(d.value.Fail? && !o.continueOnError) {
          EffectKeepsDirs(o, After(env, k, items[k], d.value), flag, items, k + 1, p);
        }
      }
    }
  }

  /**
   * The items from `k` on have distinct destinations, none of which is an
   * item's source, and each destination is a non-directory inside a
   * directory.
   */
  ghost predicate Landable(m: Entries, items: seq<TransferItem>, k: nat) {
    && (forall j, l :: k <= j < l < |items| ==> items[j].destination != items[l].destination)
    && (forall j, l :: k <= j < |items| && k <= l < |items| ==> items[j].destination != items[l].source)
    && (forall j :: k <= j < |items| ==>
          items[j].destination != [] && IsDir(m, Parent(items[j].destination)) && !IsDir(m, items[j].destination))
  }

  /**
   * A record of an item from `k` on, read against the entries `m` the loop
   * started from and the entries `e` it left: a copied file's destination
   * holds the bytes of its source, and a skipped file's destination is as
   * it was.
   */
  ghost predicate Landed(m: Entries, e: Entries, items: seq<TransferItem>, k: nat, f: TransferredFile) {
    && (exists l :: k <= l < |items| && f.source == items[l].source && f.destination == items[l].destination)
    && f.destination in e
    && (!f.skipped ==> e[f.destination] == File(SourceBytes(m, f.source)))
    && (f.skipped ==> f.destination in m && e[f.destination] == m[f.destination])
  }

  /** `m2` differs from `m1` at most at `p`, and has the same directories. */
  ghost predicate OnlyAt(m1: Entries, m2: Entries, p: Path) {
    && (forall q :: q != p ==> (q in m2 <==> q in m1) && (q in m2 ==> m2[q] == m1[q]))
    && (forall q :: IsDir(m2, q) <==> IsDir(m1, q))
  }

  lemma LandableAfter(m1: Entries, m2: Entries, items: seq<TransferItem>, k: nat)
    requires k < |items| && Landable(m1, items, k) && OnlyAt(m1, m2, items[k].destination)
    ensures Landable(m2, items, k + 1)
  {
  }

  /** A record of a later item that landed against `m2` has landed against `m1` too. */
  lemma LandedEarlier(m1: Entries, m2: Entries, e: Entries, items: seq<TransferItem>, k: nat, f: TransferredFile)
    requires k < |items| && Landable(m1, items, k) && OnlyAt(m1, m2, items[k].destination)
    requires Landed(m2, e, items, k + 1, f)
    ensures Landed(m1, e, items, k, f)
  {
    var l :| k + 1 <= l < |items| && f.source == items[l].source && f.destination == items[l].destination;
    assert f.source != items[k].destination && f.destination != items[k].destination;
  }

  /** The record of item `k` itself, copied or skipped, has landed. */
  lemma LandedHere(o: TransferOptions, env: Env, items: seq<TransferItem>, k: nat, d: Decision, e: Entries, f: TransferredFile)
    requires k < |items| && Landable(env.m, items, k) && Decide(o, env, k, items[k]) == Ok(d) && !d.Fail?
    requires f == TransferredFile(items[k].source, items[k].destination, items[k].sizeBytes, if d.Copy? then d.checksum else None, d.Skip?)
    requires var m2 := Apply(env, k, items[k], d);
      items[k].destination in e <==> items[k].destination in m2
    requires var m2 := Apply(env, k, items[k], d);
      items[k].destination in e ==> e[items[k].destination] == m2[items[k].destination]
    ensures Landed(env.m, e, items, k, f)
  {
    ApplySpec(env, k, items[k], d);
    if d.Skip? {
      SkipRule(o, env, items[k]);
    }
  }

  /** Every record the loop adds has landed. */
  lemma {:induction false} RunLands(o: TransferOptions, env: Env, flag: bool, items: seq<TransferItem>, k: nat, res: TransferResult)
    requires k <= |items| && Landable(env.m, items, k)
    ensures var r := Run(o, env, flag, items, k, res);
      r.Ok? ==>
        && res.transferredFiles <= r.value.transferredFiles
        && forall t :: |res.transferredFiles| <= t < |r.value.transferredFiles| ==>
             Landed(env.m, Effect(o, env, flag, items, k), items, k, r.value.transferredFiles[t])
    decreases |items| - k
  {
    if k < |items| && !CancelledAt(flag, env, k + 1) {
      var d := Decide(o, env, k, items[k]);
      if d.Ok? && !(d.value.Fail? && !o.continueOnError) {
        var item := items[k];
        var after := After(env, k, item, d.value);
        var next := Record(o, res, item, d.value);
        RunUnfold(o, env, flag, items, k, res, d.value);
        ApplySpec(env, k, item, d.value);
        assert OnlyAt(env.m, after.m, item.destination);
        LandableAfter(env.m, after.m, items, k);
        RunLands(o, after, flag, items, k + 1, next);
        var r := Run(o, after, flag, items, k + 1, next);
        if r.Ok? {
          if !d.value.Fail? {
            EffectFrame(o, after, flag, items, k + 1, item.destination);
          }
          RunLandsCombine(o, env, items, k, d.value, res, r.value.transferredFiles, Effect(o, after, flag, items, k + 1));
        }
      }
    }
  }

  /** One item that neither ends the loop nor is cancelled hands over to the next. */
  lemma RunUnfold(o: TransferOptions, env: Env, flag: bool, items: seq<TransferItem>, k: nat, res: TransferResult, d: Decision)
    requires k < |items| && !CancelledAt(flag, env, k + 1) && Decide(o, env, k, items[k]) == Ok(d)
    requires !(d.Fail? && !o.continueOnError)
    ensures var after := After(env, k, items[k], d);
      && Run(o, env, flag, items, k, res) == Run(o, after, flag, items, k + 1, Record(o, res, items[k], d))
      && Effect(o, env, flag, items, k) == Effect(o, after, flag, items, k + 1)
  {
  }

  /** The records from item `k` on land, given that those from `k + 1` on did. */
  lemma RunLandsCombine(o: TransferOptions, env: Env, items: seq<TransferItem>, k: nat, d: Decision, res: TransferResult,
                        tf: seq<TransferredFile>, e: Entries)
    requires k < |items| && Landable(env.m, items, k) && Decide(o, env, k, items[k]) == Ok(d)
    requires var next := Record(o, res, items[k], d);
      && next.transferredFiles <= tf
      && forall t :: |next.transferredFiles| <= t < |tf| ==>
           Landed(After(env, k, items[k], d).m, e, items, k + 1, tf[t])
    requires var m2 := Apply(env, k, items[k], d);
      !d.Fail? ==>
        (items[k].destination in e <==> items[k].destination in m2) &&
        (items[k].destination in e ==> e[items[k].destination] == m2[items[k].destination])
    ensures res.transferredFiles <= tf
    ensures forall t :: |res.transferredFiles| <= t < |tf| ==> Landed(env.m, e, items, k, tf[t])
  {
    var item := items[k];
    var after := After(env, k, item, d);
    var next := Record(o, res, item, d);
    var n := |res.transferredFiles|;
    ApplySpec(env, k, item, d);
    assert OnlyAt(env.m, after.m, item.destination);
    assert res.transferredFiles <= next.transferredFiles;
    if !d.Fail? {
      assert tf[n] == next.transferredFiles[n];
      LandedHere(o, env, items, k, d, e, tf[n]);
    }
    forall t | n <= t < |tf| && (d.Fail? || t > n)
      ensures Landed(env.m, e, items, k, tf[t])
    {
      LandedEarlier(env.m, after.m, e, items, k, tf[t]);
    }
  }

  /** `p` is an entry directly inside `dir`. */
  predicate ChildOf(dir: Path, p: Path) {
    p != [] && Parent(p) == dir
  }

  /**
   * `transfer_files` changes nothing outside the entries directly inside
   * the destination directory, and never creates or removes a directory.
   */
  lemma TransferStaysInDest(o: TransferOptions, env: Env, flag: bool, sources: seq<Path>, dest: Path)
    ensures var e := TransferEffect(o, env, flag, sources, dest);
      && (forall p :: !ChildOf(dest, p) ==> (p in e <==> p in env.m) && (p in e ==> e[p] == env.m[p]))
      && (forall p :: IsDir(e, p) <==> IsDir(env.m, p))
  {
    var e := TransferEffect(o, env, flag, sources, dest);
    if e != env.m {
      var items := BuildItems(env.m, sources, dest).value;
      BuildItemsSpec(env.m, sources, dest);
      forall p | !ChildOf(dest, p)
        ensures (p in e <==> p in env.m) && (p in e ==> e[p] == env.m[p])
      {
        forall j | 0 <= j < |items| ensures items[j].destination != p {
          assert ChildOf(dest, items[j].destination);
        }
        EffectFrame(o, env, flag, items, 0, p);
      }
      forall p ensures IsDir(e, p) <==> IsDir(env.m, p) {
        EffectKeepsDirs(o, env, flag, items, 0, p);
      }
    }
  }

  /**
   * A record of `transfer_files` into `dest`, read against the entries `m`
   * before the run and `e` after it: one source's copy to the same name in
   * the destination; a copied file's destination holds that source's
   * bytes, and a skipped file's destination is as it was.
   */
  ghost predicate SourceLanded(m: Entries, e: Entries, sources: seq<Path>, dest: Path, f: TransferredFile) {
    && f.source in sources && f.source != [] && f.destination == dest + [FileName(f.source)]
    && f.destination in e
    && (!f.skipped ==> e[f.destination] == File(SourceBytes(m, f.source)))
    && (f.skipped ==> f.destination in m && e[f.destination] == m[f.destination])
  }

  /**
   * With sources of distinct names, none directly inside the destination
   * and none meeting a directory there, every record of `transfer_files`
   * has landed.
   */
  lemma TransferLands(o: TransferOptions, env: Env, flag: bool, sources: seq<Path>, dest: Path)
    requires forall j, l :: 0 <= j < l < |sources| && sources[j] != [] && sources[l] != [] ==>
      FileName(sources[j]) != FileName(sources[l])
    requires forall j :: 0 <= j < |sources| && sources[j] != [] ==>
      Parent(sources[j]) != dest && !IsDir(env.m, dest + [FileName(sources[j])])
    ensures var r := TransferSpec(o, env, flag, sources, dest);
      r.Ok? ==> forall f :: f in r.value.transferredFiles ==>
        SourceLanded(env.m, TransferEffect(o, env, flag, sources, dest), sources, dest, f)
  {
    var r := TransferSpec(o, env, flag, sources, dest);
    if r.Ok? && Validate(o).Ok? && IsDir(env.m, dest) && !CancelledAt(flag, env, 0) {
      var items := BuildItems(env.m, sources, dest).value;
      var start := EmptyResult().(totalFiles := |sources|);
      TransferRunsLoop(o, env, flag, sources, dest);
      ItemsLandable(env.m, sources, dest);
      RunLands(o, env, flag, items, 0, start);
      var run := Run(o, env, flag, items, 0, start);
      RecordsLanded(env.m, Effect(o, env, flag, items, 0), items, sources, dest, run.value.transferredFiles);
    }
  }

  lemma RecordsLanded(m: Entries, e: Entries, items: seq<TransferItem>, sources: seq<Path>, dest: Path, tf: seq<TransferredFile>)
    requires |items| == |sources|
    requires forall j :: 0 <= j < |sources| ==>
      items[j].source == sources[j] && sources[j] != [] && items[j].destination == dest + [FileName(sources[j])]
    requires forall t :: 0 <= t < |tf| ==> Landed(m, e, items, 0, tf[t])
    ensures forall f :: f in tf ==> SourceLanded(m, e, sources, dest, f)
  {
    forall f | f in tf ensures SourceLanded(m, e, sources, dest, f) {
      var t :| 0 <= t < |tf| && tf[t] == f;
      var l :| 0 <= l < |items| && f.source == items[l].source && f.destination == items[l].destination;
    }
  }

  /** Past the checks, `transfer_files` is the loop over the built items. */
  lemma TransferRunsLoop(o: TransferOptions, env: Env, flag: bool, sources: seq<Path>, dest: Path)
    requires TransferSpec(o, env, flag, sources, dest).Ok? && Validate(o).Ok? && IsDir(env.m, dest) && !CancelledAt(flag, env, 0)
    ensures BuildItems(env.m, sources, dest).Ok?
    ensures var run := Run(o, env, flag, BuildItems(env.m, sources, dest).value, 0, EmptyResult().(totalFiles := |sources|));
      run.Ok? && TransferSpec(o, env, flag, sources, dest) == Ok(Finalize(run.value))
    ensures TransferEffect(o, env, flag, sources, dest) == Effect(o, env, flag, BuildItems(env.m, sources, dest).value, 0)
  {
  }

  /** Sources of distinct names, none directly inside `dest` nor meeting a directory there, give landable items. */
  lemma ItemsLandable(m: Entries, sources: seq<Path>, dest: Path)
    requires IsDir(m, dest) && BuildItems(m, sources, dest).Ok?
    requires forall j, l :: 0 <= j < l < |sources| && sources[j] != [] && sources[l] != [] ==>
      FileName(sources[j]) != FileName(sources[l])
    requires forall j :: 0 <= j < |sources| && sources[j] != [] ==>
      Parent(sources[j]) != dest && !IsDir(m, dest + [FileName(sources[j])])
    ensures Landable(m, BuildItems(m, sources, dest).value, 0)
    ensures |BuildItems(m, sources, dest).value| == |sources|
    ensures forall j :: 0 <= j < |sources| ==>
      BuildItems(m, sources, dest).value[j].source == sources[j] && sources[j] != [] &&
      BuildItems(m, sources, dest).value[j].destination == dest + [FileName(sources[j])]
  {
    var items := BuildItems(m, sources, dest).value;
    BuildItemsSpec(m, sources, dest);
    forall j, l | 0 <= j < l < |items|
      ensures items[j].destination != items[l].destination
    {
      assert (dest + [FileName(sources[j])])[|dest|] == FileName(sources[j]);
      assert (dest + [FileName(sources[l])])[|dest|] == FileName(sources[l]);
    }
  }

  /**
   * The engine.  Its only state is the cancellation flag, shared with the
   * caller; `TransferFiles` reads it at each checkpoint.
   */
  class TransferEngine {
    var cancelled: bool

    constructor ()
      ensures !cancelled
    {
      cancelled := false;
    }

    method Cancel()
      modifies this
      ensures cancelled
    {
      cancelled := true;
    }

    predicate IsCancelledAt(env: Env, c: nat)
      reads this
    {
      CancelledAt(cancelled, env, c)
    }

    /**
     * `transfer_files`: the result and the entries it leaves are those of
     * the specification, each item being decided on what the earlier ones
     * wrote.
     */
    method TransferFiles(fs: Fs, sources: seq<Path>, dest: Path, o: TransferOptions, env: Env)
      returns (r: Result<TransferResult, Error>)
      requires fs.Valid() && env.m == fs.entries
      modifies fs
      ensures fs.Valid()
      ensures r == TransferSpec(o, env, cancelled, sources, dest)
      ensures fs.entries == TransferEffect(o, env, cancelled, sources, dest)
    {
      var _ :- Validate(o);
      if dest !in fs.entries {
        return Err(FileSystem(FileSystemError.NotFound(dest)));
      }
      if !IsDir(fs.entries, dest) {
        return Err(FileSystem(InvalidPath(dest, "destination is not a directory")));
      }
      var result := EmptyResult().(totalFiles := |sources|);
      var items :- BuildTransferItems(fs, sources, dest);
      if IsCancelledAt(env, 0) {
        result := result.(wasCancelled := true, success := false);
        return Ok(result);
      }
      ghost var start := result;
      var cur := env;
      var i := 0;
      while i < |items|
        invariant i <= |items| && fs.Valid()
        invariant cur == env.(m := fs.entries)
        invariant Run(o, env, cancelled, items, 0, start) == Run(o, cur, cancelled, items, i, result)
        invariant Effect(o, env, cancelled, items, 0) == Effect(o, cur, cancelled, items, i)
        decreases |items| - i
      {
        if IsCancelledAt(env, i + 1) {
          result := result.(wasCancelled := true, success := false);
          return Ok(Finalize(result));
        }
        var item := items[i];
        var skip :- SkipCheck(o, cur, item);
        if skip {
          result := Record(o, result, item, Skip);
          i := i + 1;
          continue;
        }
        var decision := TransferWithRetries(o, cur, i);
        var wrote;
        if decision.Copy? {
          wrote := fs.WriteFile(item.destination, SourceBytes(fs.entries, item.source));
        } else if env.residue(i).Some? {
          wrote := fs.WriteFile(item.destination, env.residue(i).value);
        } else {
          wrote := fs.RemoveFile(item.destination);
        }
        cur := After(cur, i, item, decision);
        result := Record(o, result, item, decision);
        if decision.Fail? && !o.continueOnError {
          result := result.(success := false);
          return Ok(Finalize(result));
        }
        i := i + 1;
      }
      return Ok(Finalize(result));
    }

    /**
     * `transfer_playlist`: the regular audio files directly inside `source`,
     * sorted by name, handed to `transfer_files`.  A folder without audio
     * files gives an empty result before the destination or the
     * cancellation flag is looked at.
     */
    method TransferPlaylist(fs: Fs, source: Path, dest: Path, o: TransferOptions, env: Env)
      returns (r: Result<TransferResult, Error>)
      requires fs.Valid() && env.m == fs.entries
      modifies fs
      ensures fs.Valid()
      ensures source !in env.m ==> r == Err(FileSystem(FileSystemError.NotFound(source)))
      ensures source in env.m && !IsDir(env.m, source) ==>
        r == Err(FileSystem(InvalidPath(source, "source is not a directory")))
      ensures IsDir(env.m, source) && AudioFilesIn(env.m, source) == {} ==> r == Ok(EmptyResult())
      ensures IsDir(env.m, source) && AudioFilesIn(env.m, source) != {} ==>
        r == TransferSpec(o, env, cancelled, Under(source, SortedNames(AudioFilesIn(env.m, source))), dest)
      ensures r == PlaylistTransferSpec(o, env, cancelled, source, dest)
      ensures fs.entries == PlaylistTransferEffect(o, env, cancelled, source, dest)
    {
      if source !in fs.entries {
        return Err(FileSystem(FileSystemError.NotFound(source)));
      }
      if !IsDir(fs.entries, source) {
        return Err(FileSystem(InvalidPath(source, "source is not a directory")));
      }
      ghost var audio := AudioFilesIn(fs.entries, source);
      var found: seq<string> := [];
      var todo := fs.ReadDir(source);
      ghost var all, done: set<string> := todo, {};
      while todo != {}
        invariant fs.entries == env.m
        invariant todo + done == all && todo !! done
        invariant forall c :: c in found <==> c in done && c in audio
        invariant KeysDistinct(found, NameKey)
        decreases |todo|
      {
        var c :| c in todo;
        WalkStep(all, todo, done, c);
        if IsFile(fs.entries, source + [c]) && IsAudioFile(c) {
          NameStep(found, done, c);
          found := found + [c];
        }
        todo := todo - {c};
        done := done + {c};
      }
      if found == [] {
        assert forall c :: c in audio ==> source + [c] in fs.entries;
        return Ok(EmptyResult());
      }
      ByKeyTotal(NameKey);
      var names := SortBy(found, ByKey(NameKey));
      PermutationKeepsKeysDistinct(found, names, NameKey);
      SortedDistinctIsStrict(names, NameKey);
      assert forall c :: c in names <==> c in multiset(found);
      assert forall c :: c in audio ==> source + [c] in fs.entries;
      StrictlyIncreasingUnique(names, SortedNames(audio), NameKey);
      r := TransferFiles(fs, Under(source, names), dest, o, env);
    }
  }

  /** The audio files of a folder listed by name, without repeats. */
  ghost predicate SortedNamesOf(s: set<string>, names: seq<string>) {
    StrictlyIncreasing(names, NameKey) && forall c :: c in names <==> c in s
  }

  /** Some sequence lists a finite set of names once each. */
  lemma {:induction false} DistinctListing(s: set<string>) returns (l: seq<string>)
    ensures KeysDistinct(l, NameKey) && forall c :: c in l <==> c in s
    decreases |s|
  {
    if s == {} {
      l := [];
    } else {
      var x :| x in s;
      var rest := DistinctListing(s - {x});
      NameStep(rest, s - {x}, x);
      l := rest + [x];
    }
  }

  lemma SortedNamesExist(s: set<string>)
    ensures exists names :: SortedNamesOf(s, names)
  {
    var l := DistinctListing(s);
    ByKeyTotal(NameKey);
    var names := SortBy(l, ByKey(NameKey));
    PermutationKeepsKeysDistinct(l, names, NameKey);
    SortedDistinctIsStrict(names, NameKey);
    assert forall c :: c in names <==> c in multiset(l);
    assert SortedNamesOf(s, names);
  }

  /** The names of `s` in strictly increasing order: the one listing `transfer_playlist` can produce. */
  ghost function SortedNames(s: set<string>): (names: seq<string>)
    ensures SortedNamesOf(s, names)
  {
    SortedNamesExist(s);
    var names :| SortedNamesOf(s, names);
    names
  }

  /**
   * What `transfer_playlist` returns: a missing or non-directory source is
   * an error, a folder without audio files an empty result, and otherwise
   * the run over its audio files in name order.
   */
  ghost function PlaylistTransferSpec(o: TransferOptions, env: Env, flag: bool, source: Path, dest: Path): Result<TransferResult, Error> {
    if source !in env.m then Err(FileSystem(FileSystemError.NotFound(source)))
    else if !IsDir(env.m, source) then Err(FileSystem(InvalidPath(source, "source is not a directory")))
    else if AudioFilesIn(env.m, source) == {} then Ok(EmptyResult())
    else TransferSpec(o, env, flag, Under(source, SortedNames(AudioFilesIn(env.m, source))), dest)
  }

  /** The entries `transfer_playlist` leaves: only a run over audio files changes anything. */
  ghost function PlaylistTransferEffect(o: TransferOptions, env: Env, flag: bool, source: Path, dest: Path): Entries {
    if !IsDir(env.m, source) || AudioFilesIn(env.m, source) == {} then env.m
    else TransferEffect(o, env, flag, Under(source, SortedNames(AudioFilesIn(env.m, source))), dest)
  }

  /**
   * `transfer_playlist` changes nothing outside the entries directly inside
   * the destination directory, and never creates or removes a directory.
   */
  lemma PlaylistStaysInDest(o: TransferOptions, env: Env, flag: bool, source: Path, dest: Path)
    ensures var e := PlaylistTransferEffect(o, env, flag, source, dest);
      && (forall p :: !ChildOf(dest, p) ==> (p in e <==> p in env.m) && (p in e ==> e[p] == env.m[p]))
      && (forall p :: IsDir(e, p) <==> IsDir(env.m, p))
  {
    if IsDir(env.m, source) && AudioFilesIn(env.m, source) != {} {
      TransferStaysInDest(o, env, flag, Under(source, SortedNames(AudioFilesIn(env.m, source))), dest);
    }
  }

  /**
   * A record of `transfer_playlist` from `source` into `dest`, read against
   * the entries `m` before and `e` after: one of the folder's audio files,
   * going to the same name in the destination; a copied file's destination
   * then holds that file, and a skipped file's destination is as it was.
   */
  ghost predicate AudioLanded(m: Entries, e: Entries, source: Path, dest: Path, f: TransferredFile) {
    && f.source != [] && Parent(f.source) == source && IsFile(m, f.source) && IsAudioFile(FileName(f.source))
    && f.destination == dest + [FileName(f.source)] && f.destination in e
    && (!f.skipped ==> e[f.destination] == m[f.source])
    && (f.skipped ==> f.destination in m && e[f.destination] == m[f.destination])
  }

  /** Every record of a playlist folder other than the destination, none of whose audio names meets a directory there, has landed. */
  lemma PlaylistLands(o: TransferOptions, env: Env, flag: bool, source: Path, dest: Path)
    requires source != dest
    requires forall c :: c in AudioFilesIn(env.m, source) ==> !IsDir(env.m, dest + [c])
    ensures var r := PlaylistTransferSpec(o, env, flag, source, dest);
      r.Ok? ==> forall f :: f in r.value.transferredFiles ==>
        AudioLanded(env.m, PlaylistTransferEffect(o, env, flag, source, dest), source, dest, f)
  {
    var audio := AudioFilesIn(env.m, source);
    if IsDir(env.m, source) && audio != {} {
      var names := SortedNames(audio);
      var sources := Under(source, names);
      assert PlaylistTransferSpec(o, env, flag, source, dest) == TransferSpec(o, env, flag, sources, dest);
      assert PlaylistTransferEffect(o, env, flag, source, dest) == TransferEffect(o, env, flag, sources, dest);
      forall j, l | 0 <= j < l < |sources|
        ensures FileName(sources[j]) != FileName(sources[l])
      {
        assert StrLess(names[j], names[l]);
        StrLessIrreflexive(names[j]);
      }
      forall j | 0 <= j < |sources|
        ensures Parent(sources[j]) != dest && !IsDir(env.m, dest + [FileName(sources[j])])
      {
        assert names[j] in names;
      }
      TransferLands(o, env, flag, sources, dest);
      var r := TransferSpec(o, env, flag, sources, dest);
      if r.Ok? {
        forall f | f in r.value.transferredFiles
          ensures AudioLanded(env.m, TransferEffect(o, env, flag, sources, dest), source, dest, f)
        {
          assert SourceLanded(env.m, TransferEffect(o, env, flag, sources, dest), sources, dest, f);
          var j :| 0 <= j < |sources| && sources[j] == f.source;
          assert names[j] in names;
        }
      }
    }
  }

  /** A file name is its own sort key. */
  function NameKey(name: string): string {
    name
  }

  /** The paths of `names` inside `dir`, in order. */
  function Under(dir: Path, names: seq<string>): (r: seq<Path>)
    ensures |r| == |names|
    ensures forall i :: 0 <= i < |names| ==> r[i] == dir + [names[i]] && FileName(r[i]) == names[i]
  {
    seq(|names|, i requires 0 <= i < |names| => dir + [names[i]])
  }

  lemma NameStep(s: seq<string>, done: set<string>, c: string)
    requires KeysDistinct(s, NameKey) && (forall x :: x in s ==> x in done) && c !in done
    ensures KeysDistinct(s + [c], NameKey)
  {
    assert forall i :: 0 <= i < |s| ==> s[i] in s;
  }

  /**
   * The playlist's files are all transferable, so `transfer_playlist` never
   * fails on a source, and its listing does not depend on the order in
   * which the directory was read.
   */
  lemma PlaylistSources(m: Entries, source: Path, dest: Path, a: seq<string>, b: seq<string>)
    requires forall c :: c in a <==> c in AudioFilesIn(m, source)
    requires forall c :: c in b <==> c in AudioFilesIn(m, source)
    requires StrictlyIncreasing(a, NameKey) && StrictlyIncreasing(b, NameKey)
    ensures a == b
    ensures var items := BuildItems(m, Under(source, a), dest);
      items.Ok? && |items.value| == |a| &&
      forall i :: 0 <= i < |a| ==> items.value[i].source == source + [a[i]] && items.value[i].destination == dest + [a[i]]
  {
    StrictlyIncreasingUnique(a, b, NameKey);
    var paths := Under(source, a);
    forall i | 0 <= i < |paths| ensures Transferable(m, paths[i]) {
      assert a[i] in a;
    }
    BuildItemsSpec(m, paths, dest);
  }

  /** The retry loop of one item. */
  method TransferWithRetries(o: TransferOptions, env: Env, i: nat) returns (d: Decision)
    ensures d == Retry(o, env, i, 0)
  {
    var retryCount := 0;
    var done := false;
    var checksum: Option<string> := None;
    var lastError := "Unknown error";
    while retryCount <= o.maxRetries && !done
      invariant retryCount <= o.maxRetries + 1
      invariant done ==> retryCount <= o.maxRetries && Retry(o, env, i, 0) == Copy(checksum)
      invariant !done && retryCount <= o.maxRetries ==> Retry(o, env, i, 0) == Retry(o, env, i, retryCount)
      invariant !done && retryCount == o.maxRetries + 1 ==> Retry(o, env, i, 0) == Fail(lastError)
      decreases o.maxRetries + 1 - retryCount, if done then 0 else 1
    {
      var outcome := env.attempt(i, retryCount);
      if outcome.Ok? {
        checksum := if o.verifyIntegrity then Some(outcome.value) else None;
        done := true;
      } else {
        lastError := outcome.error;
        retryCount := retryCount + 1;
      }
    }
    if done {
      d := Copy(checksum);
    } else {
      d := Fail(lastError);
    }
  }
}
