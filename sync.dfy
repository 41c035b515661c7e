/**
 * The sync orchestrator: verify the device, total the playlists' audio
 * bytes and check the free space, optionally clean the device, then hand
 * each requested playlist to the transfer engine, in request order.
 *
 * The cancellation flag is the orchestrator's own flag, which another
 * thread may set at any moment; `SyncEnv.cancelAt` names the first
 * checkpoint at which `sync` sees it set.  The checkpoints are, in order:
 * the start, after the space check, after the cleanup phase, and before
 * each playlist.  The transfer engine shares the flag; what it sees during
 * playlist `i` is `transferCancelAt(i)`.
 *
 * The whole run is specified by `SyncSpec` and `SyncEffect`, functions of
 * the entries before and after the cleanup phase and of what the cleanup
 * phase returned; `SyncOrchestrator.Sync` is proved to compute both.  Each
 * playlist is transferred over the entries the earlier ones left.
 */
module Sync {
  import opened Wrappers
  import opened Files
  import opened Errors
  import opened Device
  import opened Playlist
  import opened PlaylistStore
  import Capacity
  import Cleanup
  import Transfer

  datatype SyncPhase = Verifying | Cleaning | Transferring | Completed | Failed | Cancelled

  datatype SyncOptions = SyncOptions(
    cleanupEnabled: bool,
    cleanupOptions: Cleanup.CleanupOptions,
    transferOptions: Transfer.TransferOptions,
    verifyDeviceBetweenPhases: bool,
    abortOnCleanupFailure: bool,
    skipExistingMatches: bool)

  function DefaultSyncOptions(): SyncOptions {
    SyncOptions(true, Cleanup.DefaultCleanupOptions(), Transfer.DefaultOptions(), true, true, true)
  }

  /** `fast()`: `full_cleanup()` (the same as the default cleanup), fast transfers, no re-verification. */
  function FastSyncOptions(): SyncOptions {
    SyncOptions(true, Cleanup.DefaultCleanupOptions(), Transfer.FastOptions(), false, true, true)
  }

  function ReliableSyncOptions(): SyncOptions {
    SyncOptions(true, Cleanup.DefaultCleanupOptions(), Transfer.ReliableOptions(), true, true, false)
  }

  /** `dry_run()`: the cleanup only reports, and its failure does not stop the sync. */
  function DryRunSyncOptions(): SyncOptions {
    SyncOptions(true, Cleanup.DefaultCleanupOptions().(dryRun := true), Transfer.DefaultOptions(), false, false, true)
  }

  /** Every preset hands the transfer engine options it accepts, and only the dry-run preset keeps the device's files. */
  lemma SyncPresets()
    ensures Transfer.Validate(DefaultSyncOptions().transferOptions).Ok?
    ensures Transfer.Validate(FastSyncOptions().transferOptions).Ok?
    ensures Transfer.Validate(ReliableSyncOptions().transferOptions).Ok?
    ensures Transfer.Validate(DryRunSyncOptions().transferOptions).Ok?
    ensures DryRunSyncOptions().cleanupOptions.dryRun && !DefaultSyncOptions().cleanupOptions.dryRun
    ensures !FastSyncOptions().cleanupOptions.dryRun && !ReliableSyncOptions().cleanupOptions.dryRun
  {
    Transfer.PresetsAreValid();
  }

  // ---------------------------------------------------------------------
  // The result and its two updates
  // ---------------------------------------------------------------------

  datatype PlaylistTransferResult = PlaylistTransferResult(playlistName: string, transferResult: Transfer.TransferResult)

  datatype SyncResult = SyncResult(
    success: bool,
    wasCancelled: bool,
    finalPhase: SyncPhase,
    cleanupResult: Option<Cleanup.CleanupResult>,
    transferResults: seq<PlaylistTransferResult>,
    totalFilesTransferred: nat,
    totalFilesSkipped: nat,
    totalFilesFailed: nat,
    totalBytesTransferred: nat,
    errorMessage: Option<string>)

  function EmptySyncResult(): SyncResult {
    SyncResult(false, false, Verifying, None, [], 0, 0, 0, 0, None)
  }

  /** The four running totals, summed over the per-playlist results. */
  function FilesTransferredIn(rs: seq<PlaylistTransferResult>): nat {
    if rs == [] then 0 else FilesTransferredIn(rs[..|rs| - 1]) + rs[|rs| - 1].transferResult.filesTransferred
  }

  function FilesSkippedIn(rs: seq<PlaylistTransferResult>): nat {
    if rs == [] then 0 else FilesSkippedIn(rs[..|rs| - 1]) + rs[|rs| - 1].transferResult.filesSkipped
  }

  function FilesFailedIn(rs: seq<PlaylistTransferResult>): nat {
    if rs == [] then 0 else FilesFailedIn(rs[..|rs| - 1]) + rs[|rs| - 1].transferResult.filesFailed
  }

  function BytesTransferredIn(rs: seq<PlaylistTransferResult>): nat {
    if rs == [] then 0 else BytesTransferredIn(rs[..|rs| - 1]) + rs[|rs| - 1].transferResult.bytesTransferred
  }

  /** The totals agree with the per-playlist results. */
  predicate Tallied(res: SyncResult) {
    && res.totalFilesTransferred == FilesTransferredIn(res.transferResults)
    && res.totalFilesSkipped == FilesSkippedIn(res.transferResults)
    && res.totalFilesFailed == FilesFailedIn(res.transferResults)
    && res.totalBytesTransferred == BytesTransferredIn(res.transferResults)
  }

  /** `add_transfer_result`: add the playlist's counts to the totals and record its result. */
  function AddTransferResult(res: SyncResult, name: string, tr: Transfer.TransferResult): SyncResult {
    res.(totalFilesTransferred := res.totalFilesTransferred + tr.filesTransferred,
         totalFilesSkipped := res.totalFilesSkipped + tr.filesSkipped,
         totalFilesFailed := res.totalFilesFailed + tr.filesFailed,
         totalBytesTransferred := res.totalBytesTransferred + tr.bytesTransferred,
         transferResults := res.transferResults + [PlaylistTransferResult(name, tr)])
  }

  /** Adding a playlist's result appends exactly one record, with that name, and keeps the totals tallied. */
  lemma AddTransferResultTallies(res: SyncResult, name: string, tr: Transfer.TransferResult)
    requires Tallied(res)
    ensures var next := AddTransferResult(res, name, tr);
      && Tallied(next)
      && next.transferResults[..|res.transferResults|] == res.transferResults
      && |next.transferResults| == |res.transferResults| + 1
      && next.transferResults[|res.transferResults|] == PlaylistTransferResult(name, tr)
      && next.success == res.success && next.wasCancelled == res.wasCancelled
      && next.finalPhase == res.finalPhase && next.cleanupResult == res.cleanupResult
  {
    var rs := AddTransferResult(res, name, tr).transferResults;
    assert rs[..|rs| - 1] == res.transferResults;
  }

  /** `finalize`: the sync succeeded when nothing failed, nothing was cancelled and no error was recorded. */
  function Finalize(res: SyncResult): SyncResult {
    var success := res.totalFilesFailed == 0 && !res.wasCancelled && res.errorMessage.None?;
    res.(success := success, finalPhase := if success then Completed else res.finalPhase)
  }

  lemma FinalizeSpec(res: SyncResult)
    ensures var r := Finalize(res);
      && (r.success <==> res.totalFilesFailed == 0 && !res.wasCancelled && res.errorMessage.None?)
      && (r.success ==> r.finalPhase == Completed)
      && (!r.success ==> r.finalPhase == res.finalPhase)
      && r.transferResults == res.transferResults && r.wasCancelled == res.wasCancelled
      && Finalize(r) == r
  {
  }

  /** The state `sync` returns on cancellation. */
  function CancelledResult(res: SyncResult): SyncResult {
    res.(wasCancelled := true, finalPhase := SyncPhase.Cancelled)
  }

  // ---------------------------------------------------------------------
  // The checks before any change
  // ---------------------------------------------------------------------

  /** What `sync` cannot compute itself. */
  datatype SyncEnv = SyncEnv(
    cancelAt: Option<nat>,
    spaceDisks: seq<Disk>,
    readOnly: bool,
    hash: Bytes -> string,
    attempts: nat -> ((nat, nat) -> Result<string, string>),
    residues: nat -> (nat -> Option<Bytes>),
    transferCancelAt: nat -> Option<nat>)

  /** The flag as `sync` reads it at checkpoint `c`. */
  predicate FlagAt(flag: bool, env: SyncEnv, c: nat) {
    flag || (env.cancelAt.Some? && env.cancelAt.value <= c)
  }

  const AFTER_CHECKS: nat := 1
  const AFTER_CLEANUP: nat := 2

  function BeforePlaylist(i: nat): nat {
    3 + i
  }

  /** `verify_device`: the detector must see the mount point, and it must be an existing directory. */
  function VerifyDevice(disks: seq<Disk>, m: Entries, mp: Path): (r: Result<(), Error>)
    ensures !IsConnected(disks, mp) ==> r == Err(Device(DeviceError.Disconnected(Render(mp))))
    ensures IsConnected(disks, mp) && !IsDir(m, mp) ==> r == Err(Device(NotMounted(mp)))
    ensures r.Ok? <==> IsConnected(disks, mp) && IsDir(m, mp)
  {
    if !IsConnected(disks, mp) then Err(Device(DeviceError.Disconnected(Render(mp))))
    else if mp !in m then Err(Device(NotMounted(mp)))
    else if !IsDir(m, mp) then Err(Device(NotMounted(mp)))
    else Ok(())
  }

  /**
   * `verify_device_space`: the first disk mounted at `mp` must have the
   * bytes available; a mount point no disk reports passes.
   */
  function SpaceCheck(disks: seq<Disk>, mp: Path, required: nat): (r: Result<(), Error>)
  {
    if disks == [] then Ok(())
    else if disks[0].mountPoint == mp then
      if disks[0].availableSpace < required then Err(Device(InsufficientSpace(Render(mp), disks[0].availableSpace, required)))
      else Ok(())
    else SpaceCheck(disks[1..], mp, required)
  }

  /** A mount point no disk reports passes the space check. */
  lemma {:induction false} SpaceCheckUnknownPasses(disks: seq<Disk>, mp: Path, required: nat)
    ensures !IsConnected(disks, mp) ==> SpaceCheck(disks, mp, required) == Ok(())
    decreases |disks|
  {
    if disks != [] && !IsConnected(disks, mp) {
      assert !IsConnected(disks[1..], mp) by {
        forall k | 0 <= k < |disks[1..]| ensures disks[1..][k].mountPoint != mp {
          assert disks[1..][k] == disks[k + 1];
        }
      }
      SpaceCheckUnknownPasses(disks[1..], mp, required);
    }
  }

  /** The first disk mounted at `mp`, if any. */
  predicate FirstAt(disks: seq<Disk>, mp: Path, k: nat) {
    k < |disks| && disks[k].mountPoint == mp && forall j :: 0 <= j < k ==> disks[j].mountPoint != mp
  }

  /** The check fails exactly when the first disk mounted at `mp` has less available than required, and then reports that disk's figure. */
  lemma {:induction false} SpaceCheckFails(disks: seq<Disk>, mp: Path, required: nat, k: nat)
    requires FirstAt(disks, mp, k)
    ensures SpaceCheck(disks, mp, required).Err? <==> disks[k].availableSpace < required
    ensures SpaceCheck(disks, mp, required).Err? ==>
      SpaceCheck(disks, mp, required).error == Device(InsufficientSpace(Render(mp), disks[k].availableSpace, required))
    decreases k
  {
    if k > 0 {
      assert disks[0].mountPoint != mp;
      assert FirstAt(disks[1..], mp, k - 1) by {
        forall j | 0 <= j < k - 1 ensures disks[1..][j].mountPoint != mp {
          assert disks[1..][j] == disks[j + 1];
        }
      }
      SpaceCheckFails(disks[1..], mp, required, k - 1);
    }
  }

  /** Playlist `k` is the first requested one whose directory does not exist. */
  ghost predicate FirstMissingAt(m: Entries, base: Path, names: seq<string>, k: int) {
    0 <= k < |names| && Join(base, names[k]) !in m && Capacity.AllFound(m, base, names[..k])
  }

  /** When some playlist is missing, there is a first missing one. */
  lemma {:induction false} FirstMissingExists(m: Entries, base: Path, names: seq<string>)
    requires !Capacity.AllFound(m, base, names)
    ensures exists k :: FirstMissingAt(m, base, names, k)
    decreases |names|
  {
    var front := names[..|names| - 1];
    if Capacity.AllFound(m, base, front) {
      assert forall j :: 0 <= j < |names| - 1 ==> front[j] == names[j];
      assert Join(base, names[|names| - 1]) !in m;
      assert names[..|names| - 1] == front;
      assert FirstMissingAt(m, base, names, |names| - 1);
    } else {
      FirstMissingExists(m, base, front);
      var k :| FirstMissingAt(m, base, front, k);
      assert front[..k] == names[..k];
      assert front[k] == names[k];
      assert FirstMissingAt(m, base, names, k);
    }
  }

  /** There is only one first missing playlist. */
  lemma FirstMissingUnique(m: Entries, base: Path, names: seq<string>, j: int, k: int)
    requires FirstMissingAt(m, base, names, j) && FirstMissingAt(m, base, names, k)
    ensures j == k
  {
  }

  /** The count stops at the first missing playlist with its NotFound. */
  lemma TotalBytesMissing(m: Entries, base: Path, names: seq<string>, i: nat)
    requires i < |names| && Capacity.AllFound(m, base, names[..i]) && Join(base, names[i]) !in m
    ensures TotalBytes(m, base, names) == Err(Playlist(PlaylistError.NotFound(names[i])))
  {
    assert FirstMissingAt(m, base, names, i);
    var k :| FirstMissingAt(m, base, names, k) && TotalBytes(m, base, names).error == Playlist(PlaylistError.NotFound(names[k]));
    FirstMissingUnique(m, base, names, i, k);
  }

  /**
   * `calculate_total_bytes`: the playlists' audio bytes, in request order;
   * the first playlist that does not exist ends the count with its NotFound.
   */
  ghost function TotalBytes(m: Entries, base: Path, names: seq<string>): (r: Result<nat, Error>)
    ensures r.Ok? <==> Capacity.AllFound(m, base, names)
    ensures r.Ok? ==> r.value == Capacity.AudioBytes(m, base, names)
    ensures r.Err? ==> exists k :: FirstMissingAt(m, base, names, k) && r.error == Playlist(PlaylistError.NotFound(names[k]))
  {
    if Capacity.AllFound(m, base, names) then Ok(Capacity.AudioBytes(m, base, names))
    else
      FirstMissingExists(m, base, names);
      var k :| FirstMissingAt(m, base, names, k);
      Err(Playlist(PlaylistError.NotFound(names[k])))
  }

  /** The checks of phase 1: the device, the byte count, the free space. */
  ghost function Preflight(disks: seq<Disk>, m: Entries, pm: PlaylistManager, names: seq<string>, mp: Path, env: SyncEnv)
    : Result<nat, Error>
  {
    var _ :- VerifyDevice(disks, m, mp);
    var total :- TotalBytes(m, pm.basePath, names);
    var _ :- SpaceCheck(env.spaceDisks, mp, total);
    Ok(total)
  }

  // ---------------------------------------------------------------------
  // The cleanup phase
  // ---------------------------------------------------------------------

  /**
   * What the orchestrator's `cleanup_device` promises: the device must be
   * among the listed devices (else NotFound), and then the verified cleanup
   * of that device runs.
   */
  ghost predicate CleanupStageOutcome(m0: Entries, m1: Entries, disks: seq<Disk>, mp: Path, o: Cleanup.CleanupOptions,
                                      readOnly: bool, r: Result<Cleanup.CleanupResult, Error>) {
    var found := DeviceByMountPoint(Accepted(disks), mp);
    && (found.Err? ==> r == Err(found.error) && m1 == m0)
    && (found.Ok? ==> Cleanup.CleanupOutcome(m0, m1, mp, o, readOnly, r))
  }

  /**
   * The cleanup phase's verdict: nothing when cleanup is off; a failed
   * cleanup ends the sync only with `abort_on_cleanup_failure`; then the
   * device is verified again when `verify_device_between_phases`.
   */
  function CleanupPhase(o: SyncOptions, cleanup: Result<Cleanup.CleanupResult, Error>, reverify: Result<(), Error>)
    : (r: Result<Option<Cleanup.CleanupResult>, Error>)
  {
    if !o.cleanupEnabled then Ok(None)
    else if cleanup.Err? && o.abortOnCleanupFailure then Err(cleanup.error)
    else if o.verifyDeviceBetweenPhases && reverify.Err? then Err(reverify.error)
    else if cleanup.Ok? then Ok(Some(cleanup.value))
    else Ok(None)
  }

  lemma CleanupPhaseSpec(o: SyncOptions, cleanup: Result<Cleanup.CleanupResult, Error>, reverify: Result<(), Error>)
    ensures var r := CleanupPhase(o, cleanup, reverify);
      && (!o.cleanupEnabled ==> r == Ok(None))
      && (o.cleanupEnabled && cleanup.Err? && o.abortOnCleanupFailure ==> r == Err(cleanup.error))
      && (o.cleanupEnabled && cleanup.Err? && !o.abortOnCleanupFailure ==> r.Ok? ==> r.value.None?)
      && (o.cleanupEnabled && cleanup.Ok? && (reverify.Ok? || !o.verifyDeviceBetweenPhases) ==> r == Ok(Some(cleanup.value)))
      && (r.Err? ==> o.cleanupEnabled && ((cleanup.Err? && r.error == cleanup.error) || (reverify.Err? && r.error == reverify.error)))
  {
  }

  // ---------------------------------------------------------------------
  // The transfer phase
  // ---------------------------------------------------------------------

  /** The engine's environment for playlist `i`, over the entries `m`. */
  function TransferEnvFor(env: SyncEnv, m: Entries, i: nat): Transfer.Env {
    Transfer.Env(m, env.hash, env.attempts(i), env.residues(i), env.transferCancelAt(i))
  }

  /**
   * One playlist's transfer outcome folded into the result: a cancelled
   * transfer is recorded and ends the sync, `Error::Cancelled` ends it
   * without a record, and any other error fails the sync.
   */
  function PlaylistStep(res: SyncResult, name: string, outcome: Result<Transfer.TransferResult, Error>): (r: Result<SyncResult, Error>)
  {
    if outcome.Ok? then
      if outcome.value.wasCancelled then Ok(CancelledResult(AddTransferResult(res, name, outcome.value)))
      else Ok(AddTransferResult(res, name, outcome.value))
    else if outcome.error == Error.Cancelled then Ok(CancelledResult(res))
    else Err(outcome.error)
  }

  lemma PlaylistStepSpec(res: SyncResult, name: string, outcome: Result<Transfer.TransferResult, Error>)
    requires Tallied(res) && !res.wasCancelled
    ensures var r := PlaylistStep(res, name, outcome);
      && (r.Err? <==> outcome.Err? && outcome.error != Error.Cancelled)
      && (r.Err? ==> r.error == outcome.error)
      && (r.Ok? ==> Tallied(r.value) && r.value.success == res.success && r.value.cleanupResult == res.cleanupResult)
      && (r.Ok? ==> (r.value.wasCancelled <==> outcome == Err(Error.Cancelled) || (outcome.Ok? && outcome.value.wasCancelled)))
      && (r.Ok? && r.value.wasCancelled ==> r.value.finalPhase == SyncPhase.Cancelled)
      && (r.Ok? && !r.value.wasCancelled ==> r.value.finalPhase == res.finalPhase)
      && (outcome.Ok? ==> r.value.transferResults == res.transferResults + [PlaylistTransferResult(name, outcome.value)])
      && (outcome == Err(Error.Cancelled) ==> r.value.transferResults == res.transferResults)
  {
    if outcome.Ok? {
      AddTransferResultTallies(res, name, outcome.value);
    }
  }

  /** The entries playlist `i` leaves when the engine finds the entries `m`. */
  ghost function AfterPlaylist(o: SyncOptions, names: seq<string>, env: SyncEnv, m: Entries, pm: PlaylistManager,
                               mp: Path, i: nat): Entries
    requires i < |names|
  {
    var path := GetPlaylistPath(m, pm, names[i]);
    if path.Err? then m
    else Transfer.PlaylistTransferEffect(o.transferOptions, TransferEnvFor(env, m, i), false, path.value, mp)
  }

  /** The entries playlist `j` finds, when the first one found `m`. */
  ghost function StateBefore(o: SyncOptions, names: seq<string>, env: SyncEnv, m: Entries, pm: PlaylistManager,
                             mp: Path, j: nat): Entries
    requires j <= |names|
  {
    if j == 0 then m else AfterPlaylist(o, names, env, StateBefore(o, names, env, m, pm, mp, j - 1), pm, mp, j - 1)
  }

  /**
   * The loop over the playlists from index `i` on, over the entries `m`
   * the earlier playlists left: check the flag, verify the device again
   * (only from the second playlist on), find the playlist, transfer it,
   * record the outcome.
   */
  ghost function TransferLoop(o: SyncOptions, names: seq<string>, flag: bool, env: SyncEnv, disks: seq<Disk>, m: Entries,
                              pm: PlaylistManager, mp: Path, i: nat, res: SyncResult): Result<SyncResult, Error>
    decreases |names| - i
  {
    if i >= |names| then Ok(Finalize(res))
    else if FlagAt(flag, env, BeforePlaylist(i)) then Ok(CancelledResult(res))
    else if o.verifyDeviceBetweenPhases && i > 0 && VerifyDevice(disks, m, mp).Err? then Err(VerifyDevice(disks, m, mp).error)
    else
      var path :- GetPlaylistPath(m, pm, names[i]);
      var outcome := Transfer.PlaylistTransferSpec(o.transferOptions, TransferEnvFor(env, m, i), false, path, mp);
      var next :- PlaylistStep(res, names[i], outcome);
      if next.wasCancelled then Ok(next)
      else TransferLoop(o, names, flag, env, disks, AfterPlaylist(o, names, env, m, pm, mp, i), pm, mp, i + 1, next)
  }

  /** The entries the loop from playlist `i` on leaves. */
  ghost function TransferLoopEffect(o: SyncOptions, names: seq<string>, flag: bool, env: SyncEnv, disks: seq<Disk>, m: Entries,
                                    pm: PlaylistManager, mp: Path, i: nat): Entries
    decreases |names| - i
  {
    if i >= |names| || FlagAt(flag, env, BeforePlaylist(i)) then m
    else if o.verifyDeviceBetweenPhases && i > 0 && VerifyDevice(disks, m, mp).Err? then m
    else if GetPlaylistPath(m, pm, names[i]).Err? then m
    else
      var outcome := Transfer.PlaylistTransferSpec(o.transferOptions, TransferEnvFor(env, m, i), false,
                                                    GetPlaylistPath(m, pm, names[i]).value, mp);
      var after := AfterPlaylist(o, names, env, m, pm, mp, i);
      if outcome.Err? || outcome.value.wasCancelled then after
      else TransferLoopEffect(o, names, flag, env, disks, after, pm, mp, i + 1)
  }

  /**
   * `sync`: cancellation at the start, the checks, cancellation, the
   * cleanup phase over the entries `m0` (leaving `m1`), cancellation, the
   * transfers over `m1`.
   */
  ghost function SyncSpec(o: SyncOptions, names: seq<string>, flag: bool, env: SyncEnv, disks: seq<Disk>, pm: PlaylistManager,
                          mp: Path, m0: Entries, cleanup: Result<Cleanup.CleanupResult, Error>, m1: Entries)
    : Result<SyncResult, Error>
  {
    if FlagAt(flag, env, 0) then Ok(CancelledResult(EmptySyncResult()))
    else
      var _ :- Preflight(disks, m0, pm, names, mp, env);
      if FlagAt(flag, env, AFTER_CHECKS) then Ok(CancelledResult(EmptySyncResult()))
      else
        var cleaned :- CleanupPhase(o, cleanup, VerifyDevice(disks, m1, mp));
        var start := EmptySyncResult().(cleanupResult := cleaned);
        if FlagAt(flag, env, AFTER_CLEANUP) then Ok(CancelledResult(start))
        else TransferLoop(o, names, flag, env, disks, m1, pm, mp, 0, start)
  }

  /** The entries `sync` leaves: `m0` before the cleanup phase, `m1` after it, and then the transfers' changes. */
  ghost function SyncEffect(o: SyncOptions, names: seq<string>, flag: bool, env: SyncEnv, disks: seq<Disk>, pm: PlaylistManager,
                            mp: Path, m0: Entries, cleanup: Result<Cleanup.CleanupResult, Error>, m1: Entries): Entries
  {
    if FlagAt(flag, env, 0) || Preflight(disks, m0, pm, names, mp, env).Err? || FlagAt(flag, env, AFTER_CHECKS) then m0
    else if CleanupPhase(o, cleanup, VerifyDevice(disks, m1, mp)).Err? || FlagAt(flag, env, AFTER_CLEANUP) then m1
    else TransferLoopEffect(o, names, flag, env, disks, m1, pm, mp, 0)
  }

  /** Whether a run gets as far as the cleanup phase and runs it. */
  ghost predicate ReachesCleanup(o: SyncOptions, names: seq<string>, flag: bool, env: SyncEnv, disks: seq<Disk>,
                                 pm: PlaylistManager, mp: Path, m0: Entries) {
    && o.cleanupEnabled
    && !FlagAt(flag, env, 0)
    && Preflight(disks, m0, pm, names, mp, env).Ok?
    && !FlagAt(flag, env, AFTER_CHECKS)
  }

  /**
   * The record the loop keeps for playlist `j` when it gets past it, the
   * first playlist having found the entries `m`: the playlist's name and
   * what the transfer engine reported for it over the entries the earlier
   * playlists left.
   */
  ghost function ExpectedRecord(o: SyncOptions, names: seq<string>, env: SyncEnv, m: Entries, pm: PlaylistManager,
                                mp: Path, j: nat): Option<PlaylistTransferResult>
    requires j < |names|
  {
    var before := StateBefore(o, names, env, m, pm, mp, j);
    var path := GetPlaylistPath(before, pm, names[j]);
    if path.Err? then None
    else
      var outcome := Transfer.PlaylistTransferSpec(o.transferOptions, TransferEnvFor(env, before, j), false, path.value, mp);
      if outcome.Err? then None else Some(PlaylistTransferResult(names[j], outcome.value))
  }

  /** The records are those of the first playlists, in request order. */
  ghost predicate Recorded(o: SyncOptions, names: seq<string>, env: SyncEnv, m: Entries, pm: PlaylistManager, mp: Path,
                           rs: seq<PlaylistTransferResult>) {
    && |rs| <= |names|
    && forall j :: 0 <= j < |rs| ==> ExpectedRecord(o, names, env, m, pm, mp, j) == Some(rs[j])
  }

  /** What any successful result of the loop satisfies, given the state it started from. */
  ghost predicate LoopResult(names: seq<string>, res: SyncResult, r: SyncResult) {
    && Tallied(r)
    && r.cleanupResult == res.cleanupResult
    && r.errorMessage == res.errorMessage
    && res.transferResults <= r.transferResults
    && (r.success <==> !r.wasCancelled && r.totalFilesFailed == 0)
    && (!r.wasCancelled ==> |r.transferResults| == |names|)
    && r.finalPhase == (if r.success then Completed else if r.wasCancelled then SyncPhase.Cancelled else res.finalPhase)
  }

  /**
   * The transfer loop, from any playlist on, the first playlist having
   * found the entries `m0`: the totals stay the sums of the per-playlist
   * records, each record is the engine's report for the playlist of the
   * same index over the entries the earlier playlists left, every playlist
   * is recorded unless the run was cancelled, and the run succeeds exactly
   * when it was not cancelled and no file failed.
   */
  lemma {:induction false} TransferLoopSpec(o: SyncOptions, names: seq<string>, flag: bool, env: SyncEnv, disks: seq<Disk>,
                                            m0: Entries, m: Entries, pm: PlaylistManager, mp: Path, i: nat, res: SyncResult)
    requires i <= |names| && |res.transferResults| == i && m == StateBefore(o, names, env, m0, pm, mp, i)
    requires Tallied(res) && !res.wasCancelled && !res.success && res.errorMessage.None?
    requires Recorded(o, names, env, m0, pm, mp, res.transferResults)
    ensures var r := TransferLoop(o, names, flag, env, disks, m, pm, mp, i, res);
      r.Ok? ==> LoopResult(names, res, r.value) && Recorded(o, names, env, m0, pm, mp, r.value.transferResults)
    decreases |names| - i
  {
    if i >= |names| {
      FinalizeSpec(res);
    } else if FlagAt(flag, env, BeforePlaylist(i)) {
    } else if o.verifyDeviceBetweenPhases && i > 0 && VerifyDevice(disks, m, mp).Err? {
    } else if GetPlaylistPath(m, pm, names[i]).Ok? {
      var outcome := Transfer.PlaylistTransferSpec(o.transferOptions, TransferEnvFor(env, m, i), false,
                                                   GetPlaylistPath(m, pm, names[i]).value, mp);
      var step := PlaylistStep(res, names[i], outcome);
      LoopUnfold(o, names, flag, env, disks, m, pm, mp, i, res);
      if step.Ok? {
        ExpectedRecordAt(o, names, env, m0, m, pm, mp, i);
        LoopStep(o, names, env, m0, pm, mp, i, res, outcome, step.value);
        if !step.value.wasCancelled {
          var after := AfterPlaylist(o, names, env, m, pm, mp, i);
          StateBeforeNext(o, names, env, m0, m, pm, mp, i);
          TransferLoopSpec(o, names, flag, env, disks, m0, after, pm, mp, i + 1, step.value);
        }
      }
    }
  }

  lemma ExpectedRecordAt(o: SyncOptions, names: seq<string>, env: SyncEnv, m0: Entries, m: Entries, pm: PlaylistManager,
                         mp: Path, i: nat)
    requires i < |names| && m == StateBefore(o, names, env, m0, pm, mp, i) && GetPlaylistPath(m, pm, names[i]).Ok?
    ensures var outcome := Transfer.PlaylistTransferSpec(o.transferOptions, TransferEnvFor(env, m, i), false,
                                                         GetPlaylistPath(m, pm, names[i]).value, mp);
      outcome.Ok? ==> ExpectedRecord(o, names, env, m0, pm, mp, i) == Some(PlaylistTransferResult(names[i], outcome.value))
  {
  }

  lemma StateBeforeNext(o: SyncOptions, names: seq<string>, env: SyncEnv, m0: Entries, m: Entries, pm: PlaylistManager,
                        mp: Path, i: nat)
    requires i < |names| && m == StateBefore(o, names, env, m0, pm, mp, i)
    ensures AfterPlaylist(o, names, env, m, pm, mp, i) == StateBefore(o, names, env, m0, pm, mp, i + 1)
  {
  }

  /** One turn of the loop: the playlist's outcome decides whether the loop ends or goes on over the entries it left. */
  lemma LoopUnfold(o: SyncOptions, names: seq<string>, flag: bool, env: SyncEnv, disks: seq<Disk>, m: Entries,
                   pm: PlaylistManager, mp: Path, i: nat, res: SyncResult)
    requires i < |names| && !FlagAt(flag, env, BeforePlaylist(i))
    requires !(o.verifyDeviceBetweenPhases && i > 0 && VerifyDevice(disks, m, mp).Err?)
    requires GetPlaylistPath(m, pm, names[i]).Ok?
    ensures var outcome := Transfer.PlaylistTransferSpec(o.transferOptions, TransferEnvFor(env, m, i), false,
                                                         GetPlaylistPath(m, pm, names[i]).value, mp);
      var step := PlaylistStep(res, names[i], outcome);
      var r := TransferLoop(o, names, flag, env, disks, m, pm, mp, i, res);
      && (step.Err? ==> r == Err(step.error))
      && (step.Ok? && step.value.wasCancelled ==> r == step)
      && (step.Ok? && !step.value.wasCancelled ==>
            r == TransferLoop(o, names, flag, env, disks, AfterPlaylist(o, names, env, m, pm, mp, i), pm, mp, i + 1, step.value))
  {
  }

  /**
   * The transfer loop changes nothing outside the entries directly inside
   * the mount point, and never creates or removes a directory.
   */
  lemma {:induction false} TransferLoopStaysInMount(o: SyncOptions, names: seq<string>, flag: bool, env: SyncEnv, disks: seq<Disk>,
                                                    m: Entries, pm: PlaylistManager, mp: Path, i: nat)
    ensures var e := TransferLoopEffect(o, names, flag, env, disks, m, pm, mp, i);
      && (forall p :: !Transfer.ChildOf(mp, p) ==> (p in e <==> p in m) && (p in e ==> e[p] == m[p]))
      && (forall p :: IsDir(e, p) <==> IsDir(m, p))
    decreases |names| - i
  {
    if i < |names| && !FlagAt(flag, env, BeforePlaylist(i)) && !(o.verifyDeviceBetweenPhases && i > 0 && VerifyDevice(disks, m, mp).Err?)
       && GetPlaylistPath(m, pm, names[i]).Ok? {
      var after := AfterPlaylist(o, names, env, m, pm, mp, i);
      Transfer.PlaylistStaysInDest(o.transferOptions, TransferEnvFor(env, m, i), false, GetPlaylistPath(m, pm, names[i]).value, mp);
      TransferLoopStaysInMount(o, names, flag, env, disks, after, pm, mp, i + 1);
    }
  }

  /** One recorded playlist: the record is the engine's report, and the totals stay tallied. */
  lemma LoopStep(o: SyncOptions, names: seq<string>, env: SyncEnv, m: Entries, pm: PlaylistManager, mp: Path, i: nat,
                 res: SyncResult, outcome: Result<Transfer.TransferResult, Error>, next: SyncResult)
    requires i < |names| && |res.transferResults| == i
    requires Tallied(res) && !res.wasCancelled && !res.success && res.errorMessage.None?
    requires Recorded(o, names, env, m, pm, mp, res.transferResults)
    requires outcome.Ok? ==> ExpectedRecord(o, names, env, m, pm, mp, i) == Some(PlaylistTransferResult(names[i], outcome.value))
    requires PlaylistStep(res, names[i], outcome) == Ok(next)
    ensures Tallied(next) && Recorded(o, names, env, m, pm, mp, next.transferResults)
    ensures next.cleanupResult == res.cleanupResult && next.errorMessage.None? && !next.success
    ensures res.transferResults <= next.transferResults
    ensures next.wasCancelled ==> next.finalPhase == SyncPhase.Cancelled
    ensures !next.wasCancelled ==> |next.transferResults| == i + 1 && next.finalPhase == res.finalPhase
  {
    PlaylistStepSpec(res, names[i], outcome);
    if outcome.Ok? {
      RecordedAppend(o, names, env, m, pm, mp, res.transferResults, PlaylistTransferResult(names[i], outcome.value));
    }
  }

  lemma RecordedAppend(o: SyncOptions, names: seq<string>, env: SyncEnv, m: Entries, pm: PlaylistManager, mp: Path,
                       rs: seq<PlaylistTransferResult>, x: PlaylistTransferResult)
    requires Recorded(o, names, env, m, pm, mp, rs) && |rs| < |names|
    requires ExpectedRecord(o, names, env, m, pm, mp, |rs|) == Some(x)
    ensures Recorded(o, names, env, m, pm, mp, rs + [x])
  {
    assert forall j :: 0 <= j < |rs| ==> (rs + [x])[j] == rs[j];
    assert (rs + [x])[|rs|] == x;
  }

  /** The checks, in the order `sync` makes them: connection, mount, playlists, free space. */
  lemma PreflightSpec(disks: seq<Disk>, m: Entries, pm: PlaylistManager, names: seq<string>, mp: Path, env: SyncEnv)
    ensures var r := Preflight(disks, m, pm, names, mp, env);
      && (r.Ok? <==> IsConnected(disks, mp) && IsDir(m, mp) && Capacity.AllFound(m, pm.basePath, names)
                     && SpaceCheck(env.spaceDisks, mp, Capacity.AudioBytes(m, pm.basePath, names)).Ok?)
      && (r.Ok? ==> r.value == Capacity.AudioBytes(m, pm.basePath, names))
      && (!IsConnected(disks, mp) ==> r == Err(Device(DeviceError.Disconnected(Render(mp)))))
      && (IsConnected(disks, mp) && !IsDir(m, mp) ==> r == Err(Device(NotMounted(mp))))
      && (IsConnected(disks, mp) && IsDir(m, mp) && !Capacity.AllFound(m, pm.basePath, names) ==>
            exists k :: FirstMissingAt(m, pm.basePath, names, k) && r == Err(Playlist(PlaylistError.NotFound(names[k]))))
  {
  }

  /** A sync cancelled before it starts changes nothing and reports only the cancellation. */
  lemma SyncCancelledAtStart(o: SyncOptions, names: seq<string>, flag: bool, env: SyncEnv, disks: seq<Disk>,
                             pm: PlaylistManager, mp: Path, m0: Entries, cleanup: Result<Cleanup.CleanupResult, Error>, m1: Entries)
    requires FlagAt(flag, env, 0)
    ensures var r := SyncSpec(o, names, flag, env, disks, pm, mp, m0, cleanup, m1);
      && r.Ok? && r.value.wasCancelled && !r.value.success && r.value.finalPhase == SyncPhase.Cancelled
      && r.value.transferResults == [] && r.value.cleanupResult.None? && r.value.totalFilesTransferred == 0
      && !ReachesCleanup(o, names, flag, env, disks, pm, mp, m0)
  {
  }

  /** A failed check ends the sync with that check's error, before any cleanup. */
  lemma SyncChecksFail(o: SyncOptions, names: seq<string>, flag: bool, env: SyncEnv, disks: seq<Disk>,
                       pm: PlaylistManager, mp: Path, m0: Entries, cleanup: Result<Cleanup.CleanupResult, Error>, m1: Entries)
    requires !FlagAt(flag, env, 0) && Preflight(disks, m0, pm, names, mp, env).Err?
    ensures SyncSpec(o, names, flag, env, disks, pm, mp, m0, cleanup, m1) == Err(Preflight(disks, m0, pm, names, mp, env).error)
    ensures !ReachesCleanup(o, names, flag, env, disks, pm, mp, m0)
  {
  }

  /** With `abort_on_cleanup_failure`, a failed cleanup fails the sync with the cleanup's error. */
  lemma SyncCleanupAborts(o: SyncOptions, names: seq<string>, flag: bool, env: SyncEnv, disks: seq<Disk>,
                          pm: PlaylistManager, mp: Path, m0: Entries, cleanup: Result<Cleanup.CleanupResult, Error>, m1: Entries)
    requires ReachesCleanup(o, names, flag, env, disks, pm, mp, m0) && cleanup.Err? && o.abortOnCleanupFailure
    ensures SyncSpec(o, names, flag, env, disks, pm, mp, m0, cleanup, m1) == Err(cleanup.error)
  {
    CleanupPhaseSpec(o, cleanup, VerifyDevice(disks, m1, mp));
  }

  /**
   * Whatever a sync returns as `Ok`: the totals are the sums of the
   * per-playlist records, the records are the engine's reports for the
   * first playlists in request order, a run that was not cancelled passed
   * every check and recorded every playlist, and it succeeded exactly when
   * no file failed.  A finished run in which files failed is not marked
   * successful and keeps the phase it started the transfers in.
   */
  lemma {:induction false} SyncOutcome(o: SyncOptions, names: seq<string>, flag: bool, env: SyncEnv, disks: seq<Disk>,
                                       pm: PlaylistManager, mp: Path, m0: Entries, cleanup: Result<Cleanup.CleanupResult, Error>,
                                       m1: Entries)
    requires SyncSpec(o, names, flag, env, disks, pm, mp, m0, cleanup, m1).Ok?
    ensures var r := SyncSpec(o, names, flag, env, disks, pm, mp, m0, cleanup, m1).value;
      && Tallied(r)
      && Recorded(o, names, env, m1, pm, mp, r.transferResults)
      && (r.success <==> !r.wasCancelled && r.totalFilesFailed == 0)
      && (r.success ==> r.finalPhase == Completed)
      && (r.wasCancelled ==> r.finalPhase == SyncPhase.Cancelled)
      && (!r.success && !r.wasCancelled ==> r.finalPhase == Verifying)
      && (!r.wasCancelled ==> |r.transferResults| == |names| && Preflight(disks, m0, pm, names, mp, env).Ok?)
      && (r.cleanupResult.Some? ==> o.cleanupEnabled && cleanup == Ok(r.cleanupResult.value))
  {
    if !FlagAt(flag, env, 0) && Preflight(disks, m0, pm, names, mp, env).Ok? && !FlagAt(flag, env, AFTER_CHECKS) {
      CleanupPhaseSpec(o, cleanup, VerifyDevice(disks, m1, mp));
      var cleaned := CleanupPhase(o, cleanup, VerifyDevice(disks, m1, mp));
      if cleaned.Ok? && !FlagAt(flag, env, AFTER_CLEANUP) {
        var start := EmptySyncResult().(cleanupResult := cleaned.value);
        TransferLoopSpec(o, names, flag, env, disks, m1, m1, pm, mp, 0, start);
      }
    }
  }

  /** A SpaceCheck for nothing always passes. */
  lemma {:induction false} SpaceCheckNothing(disks: seq<Disk>, mp: Path)
    ensures SpaceCheck(disks, mp, 0) == Ok(())
    decreases |disks|
  {
    if disks != [] {
      SpaceCheckNothing(disks[1..], mp);
    }
  }

  /** An empty request on a mounted device, without cleanup and without cancellation, succeeds with no records. */
  lemma SyncNothing(o: SyncOptions, flag: bool, env: SyncEnv, disks: seq<Disk>, pm: PlaylistManager, mp: Path, m0: Entries,
                    cleanup: Result<Cleanup.CleanupResult, Error>, m1: Entries)
    requires !FlagAt(flag, env, AFTER_CLEANUP) && !o.cleanupEnabled
    requires IsConnected(disks, mp) && IsDir(m0, mp)
    ensures var r := SyncSpec(o, [], flag, env, disks, pm, mp, m0, cleanup, m1);
      r == Ok(EmptySyncResult().(success := true, finalPhase := Completed))
  {
    SpaceCheckNothing(env.spaceDisks, mp);
  }

  // ---------------------------------------------------------------------
  // The orchestrator
  // ---------------------------------------------------------------------

  class SyncOrchestrator {
    var cancelled: bool

    constructor ()
      ensures !cancelled
    {
      cancelled := false;
    }

    method Cancel()
      modifies this
      ensures cancelled
    {
      cancelled := true;
    }

    predicate IsCancelledAt(env: SyncEnv, c: nat)
      reads this
    {
      FlagAt(cancelled, env, c)
    }

    /** `calculate_total_bytes` */
    method CalculateTotalBytes(fs: Fs, pm: PlaylistManager, names: seq<string>) returns (r: Result<nat, Error>)
      requires fs.Valid()
      ensures r == TotalBytes(fs.entries, pm.basePath, names)
    {
      var total := 0;
      for i := 0 to |names|
        invariant Capacity.AllFound(fs.entries, pm.basePath, names[..i])
        invariant total == Capacity.AudioBytes(fs.entries, pm.basePath, names[..i])
      {
        var stats := GetFolderStatistics(fs, pm, names[i]);
        if stats.Err? {
          TotalBytesMissing(fs.entries, pm.basePath, names, i);
          return Err(stats.error);
        }
        Capacity.AudioBytesStep(fs.entries, pm.basePath, names, i);
        total := total + stats.value.audioSizeBytes;
      }
      assert names[..|names|] == names;
      return Ok(total);
    }

    /** The orchestrator's `cleanup_device`: look the device up among the listed ones, then run the verified cleanup. */
    method CleanupStage(fs: Fs, detector: DeviceManager, mp: Path, o: Cleanup.CleanupOptions, readOnly: bool)
      returns (r: Result<Cleanup.CleanupResult, Error>)
      requires fs.Valid()
      modifies fs
      ensures fs.Valid()
      ensures CleanupStageOutcome(old(fs.entries), fs.entries, detector.disks, mp, o, readOnly, r)
    {
      var found := DeviceByMountPoint(detector.ListDevices(), mp);
      if found.Err? {
        return Err(found.error);
      }
      ListedIsConnected(detector.disks, found.value);
      r := Cleanup.CleanupDeviceVerified(fs, detector, found.value, o, readOnly);
    }

    /** The loop over the playlists, from the result the cleanup phase left. */
    method TransferPhase(fs: Fs, pm: PlaylistManager, detector: DeviceManager, names: seq<string>, mp: Path, o: SyncOptions,
                         env: SyncEnv, start: SyncResult)
      returns (r: Result<SyncResult, Error>)
      requires fs.Valid() && !start.wasCancelled
      modifies fs
      ensures fs.Valid()
      ensures r == TransferLoop(o, names, cancelled, env, detector.disks, old(fs.entries), pm, mp, 0, start)
      ensures fs.entries == TransferLoopEffect(o, names, cancelled, env, detector.disks, old(fs.entries), pm, mp, 0)
    {
      ghost var m0 := fs.entries;
      var result := start;
      var engine := new Transfer.TransferEngine();
      for i := 0 to |names|
        invariant fs.Valid()
        invariant !engine.cancelled
        invariant !result.wasCancelled
        invariant TransferLoop(o, names, cancelled, env, detector.disks, m0, pm, mp, 0, start)
               == TransferLoop(o, names, cancelled, env, detector.disks, fs.entries, pm, mp, i, result)
        invariant TransferLoopEffect(o, names, cancelled, env, detector.disks, m0, pm, mp, 0)
               == TransferLoopEffect(o, names, cancelled, env, detector.disks, fs.entries, pm, mp, i)
      {
        if IsCancelledAt(env, BeforePlaylist(i)) {
          return Ok(CancelledResult(result));
        }
        if o.verifyDeviceBetweenPhases && i > 0 {
          var again := VerifyDevice(detector.disks, fs.entries, mp);
          if again.Err? {
            return Err(again.error);
          }
        }
        var path := GetPlaylistPath(fs.entries, pm, names[i]);
        if path.Err? {
          return Err(path.error);
        }
        ghost var before := fs.entries;
        var outcome := engine.TransferPlaylist(fs, path.value, mp, o.transferOptions, TransferEnvFor(env, fs.entries, i));
        assert fs.entries == AfterPlaylist(o, names, env, before, pm, mp, i);
        if outcome.Ok? {
          if outcome.value.wasCancelled {
            return Ok(CancelledResult(AddTransferResult(result, names[i], outcome.value)));
          }
          result := AddTransferResult(result, names[i], outcome.value);
        } else if outcome.error == Error.Cancelled {
          return Ok(CancelledResult(result));
        } else {
          return Err(outcome.error);
        }
      }
      return Ok(Finalize(result));
    }

    /**
     * `sync`.  The ghost `cleanup` is what the cleanup phase returned, when
     * it ran, and `afterCleanup` the entries it left.
     */
    method Sync(fs: Fs, pm: PlaylistManager, detector: DeviceManager, names: seq<string>, mp: Path, o: SyncOptions, env: SyncEnv)
      returns (r: Result<SyncResult, Error>, ghost cleanup: Result<Cleanup.CleanupResult, Error>, ghost afterCleanup: Entries)
      requires fs.Valid()
      modifies fs
      ensures fs.Valid()
      ensures r == SyncSpec(o, names, cancelled, env, detector.disks, pm, mp, old(fs.entries), cleanup, afterCleanup)
      ensures fs.entries == SyncEffect(o, names, cancelled, env, detector.disks, pm, mp, old(fs.entries), cleanup, afterCleanup)
      ensures ReachesCleanup(o, names, cancelled, env, detector.disks, pm, mp, old(fs.entries)) ==>
        CleanupStageOutcome(old(fs.entries), afterCleanup, detector.disks, mp, o.cleanupOptions, env.readOnly, cleanup)
      ensures !ReachesCleanup(o, names, cancelled, env, detector.disks, pm, mp, old(fs.entries)) ==>
        afterCleanup == old(fs.entries)
    {
      cleanup := Err(Error.Cancelled);
      afterCleanup := fs.entries;
      var result := EmptySyncResult();
      if IsCancelledAt(env, 0) {
        return Ok(CancelledResult(result)), cleanup, afterCleanup;
      }
      var verified := VerifyDevice(detector.disks, fs.entries, mp);
      if verified.Err? {
        return Err(verified.error), cleanup, afterCleanup;
      }
      var total := CalculateTotalBytes(fs, pm, names);
      if total.Err? {
        return Err(total.error), cleanup, afterCleanup;
      }
      var space := SpaceCheck(env.spaceDisks, mp, total.value);
      if space.Err? {
        return Err(space.error), cleanup, afterCleanup;
      }
      if IsCancelledAt(env, AFTER_CHECKS) {
        return Ok(CancelledResult(result)), cleanup, afterCleanup;
      }
      if o.cleanupEnabled {
        var outcome := CleanupStage(fs, detector, mp, o.cleanupOptions, env.readOnly);
        cleanup := outcome;
        afterCleanup := fs.entries;
        if outcome.Ok? {
          result := result.(cleanupResult := Some(outcome.value));
        } else if o.abortOnCleanupFailure {
          return Err(outcome.error), cleanup, afterCleanup;
        }
        if o.verifyDeviceBetweenPhases {
          var again := VerifyDevice(detector.disks, fs.entries, mp);
          if again.Err? {
            return Err(again.error), cleanup, afterCleanup;
          }
        }
      }
      if IsCancelledAt(env, AFTER_CLEANUP) {
        return Ok(CancelledResult(result)), cleanup, afterCleanup;
      }
      r := TransferPhase(fs, pm, detector, names, mp, o, env, result);
    }
  }
}
