/**
 * The capacity planner behind the `check_sync_capacity` command: how many
 * bytes the requested playlists need, whether they fit on the device, and
 * how full the device will be afterwards.
 *
 * The source computes the fill level as an `f64` percentage; here the two
 * thresholds are compared exactly, `used * 100 > 95 * total`.
 */
module Capacity {
  import opened Wrappers
  import opened Files
  import opened Errors
  import opened Playlist
  import opened PlaylistStore
  import opened Device

  datatype CapacityWarningLevel = Ok | Warning | Critical

  /** The three kinds of message, with the figures each one prints. */
  datatype CapacityMessage =
    | Insufficient(deficit: nat, device: string)
    | Limited(device: string)
    | Ready(remaining: nat, device: string)

  datatype CapacityCheckResult = CapacityCheckResult(
    canFit: bool,
    requiredBytes: nat,
    availableBytes: nat,
    totalBytes: nat,
    warningLevel: CapacityWarningLevel,
    message: CapacityMessage)

  /** The fill level after the sync exceeds `percent`%; an empty-capacity device counts as 100% full. */
  predicate UsageAbove(usedAfter: nat, total: nat, percent: nat) {
    total == 0 || usedAfter * 100 > percent * total
  }

  /** The classification and message that follow the byte count. */
  function Classify(d: DeviceInfo, required: nat): (r: CapacityCheckResult)
    ensures r.requiredBytes == required && r.availableBytes == d.availableBytes && r.totalBytes == d.totalBytes
    ensures r.canFit <==> d.availableBytes >= required
  {
    var canFit := d.availableBytes >= required;
    var usedAfter := UsedBytes(d) + required;
    var level :=
      if !canFit || UsageAbove(usedAfter, d.totalBytes, 95) then Critical
      else if UsageAbove(usedAfter, d.totalBytes, 85) then Warning
      else CapacityWarningLevel.Ok;
    var message :=
      if !canFit then Insufficient(required - d.availableBytes, d.name)
      else if level == Warning then Limited(d.name)
      else Ready(d.availableBytes - required, d.name);
    CapacityCheckResult(canFit, required, d.availableBytes, d.totalBytes, level, message)
  }

  /** The three levels, each stated on integers. */
  lemma ClassifyLevels(d: DeviceInfo, required: nat)
    ensures var r := Classify(d, required); var usedAfter := UsedBytes(d) + required;
      && (r.warningLevel == Critical <==> d.availableBytes < required || d.totalBytes == 0 || usedAfter * 100 > 95 * d.totalBytes)
      && (r.warningLevel == Warning <==>
            d.availableBytes >= required && d.totalBytes > 0 && 85 * d.totalBytes < usedAfter * 100 <= 95 * d.totalBytes)
      && (r.warningLevel == CapacityWarningLevel.Ok <==> d.availableBytes >= required && d.totalBytes > 0 && usedAfter * 100 <= 85 * d.totalBytes)
  {
  }

  /** A playlist set that does not fit, or a device reporting no capacity, is always Critical. */
  lemma CriticalCases(d: DeviceInfo, required: nat)
    ensures d.availableBytes < required ==> Classify(d, required).warningLevel == Critical
    ensures d.totalBytes == 0 ==> Classify(d, required).warningLevel == Critical
  {
  }

  /**
   * The message's figures never underflow: the deficit is reported only when
   * the playlists do not fit, and the space left over only when they do.
   */
  lemma ClassifyMessage(d: DeviceInfo, required: nat)
    ensures var r := Classify(d, required);
      && (r.message.Insufficient? <==> !r.canFit)
      && (r.message.Insufficient? ==> r.message.deficit + d.availableBytes == required)
      && (r.message.Limited? <==> r.warningLevel == Warning)
      && (r.message.Ready? <==> r.canFit && r.warningLevel != Warning)
      && (r.message.Ready? ==> r.message.remaining + required == d.availableBytes)
      && r.message.device == d.name
  {
  }

  /** When the device reports consistent figures, a fitting sync never fills it past 100%. */
  lemma FitKeepsWithinCapacity(d: DeviceInfo, required: nat)
    ensures d.availableBytes <= d.totalBytes && Classify(d, required).canFit ==> UsedBytes(d) + required <= d.totalBytes
  {
  }

  /** The bytes the first `names` need, when every one of them exists: the sum of their audio sizes. */
  ghost function AudioBytes(m: Entries, base: Path, names: seq<string>): nat
  {
    if names == [] then 0
    else
      var last := Join(base, names[|names| - 1]);
      AudioBytes(m, base, names[..|names| - 1])
      + (if last in m then StatisticsOf(m, last).audioSizeBytes else 0)
  }

  /** Every requested playlist's directory exists. */
  predicate AllFound(m: Entries, base: Path, names: seq<string>) {
    forall k :: 0 <= k < |names| ==> Join(base, names[k]) in m
  }

  /** Adding a playlist to the request never lowers the byte count. */
  lemma {:induction false} AudioBytesMonotone(m: Entries, base: Path, names: seq<string>, more: seq<string>)
    ensures AudioBytes(m, base, names) <= AudioBytes(m, base, names + more)
    decreases |more|
  {
    if more != [] {
      var front := more[..|more| - 1];
      assert (names + more)[..|names + more| - 1] == names + front;
      AudioBytesMonotone(m, base, names, front);
    } else {
      assert names + more == names;
    }
  }

  /**
   * `check_sync_capacity`: look the device up among the listed devices,
   * total the requested playlists' audio bytes (the first playlist whose
   * statistics fail aborts the check), then classify.
   */
  method CheckSyncCapacity(fs: Fs, mgr: PlaylistManager, devices: seq<DeviceInfo>, names: seq<string>, mountPoint: Path)
    returns (r: Result<CapacityCheckResult, Error>)
    requires fs.Valid()
    ensures DeviceByMountPoint(devices, mountPoint).Err? ==> r == Err(DeviceByMountPoint(devices, mountPoint).error)
    ensures DeviceByMountPoint(devices, mountPoint).Ok? && !AllFound(fs.entries, mgr.basePath, names) ==>
      exists k :: 0 <= k < |names| && Join(mgr.basePath, names[k]) !in fs.entries
        && AllFound(fs.entries, mgr.basePath, names[..k])
        && r == Err(Playlist(PlaylistError.NotFound(names[k])))
    ensures DeviceByMountPoint(devices, mountPoint).Ok? && AllFound(fs.entries, mgr.basePath, names) ==>
      r == Result.Ok(Classify(DeviceByMountPoint(devices, mountPoint).value, AudioBytes(fs.entries, mgr.basePath, names)))
  {
    var device :- DeviceByMountPoint(devices, mountPoint);
    var total := 0;
    for i := 0 to |names|
      invariant AllFound(fs.entries, mgr.basePath, names[..i])
      invariant total == AudioBytes(fs.entries, mgr.basePath, names[..i])
    {
      var stats := GetFolderStatistics(fs, mgr, names[i]);
      if stats.Err? {
        FirstMissing(fs.entries, mgr.basePath, names, i);
        return Err(stats.error);
      }
      AudioBytesStep(fs.entries, mgr.basePath, names, i);
      total := total + stats.value.audioSizeBytes;
    }
    assert names[..|names|] == names;
    r := Result.Ok(Classify(device, total));
  }

  /** One more found playlist: its audio bytes join the total. */
  lemma AudioBytesStep(m: Entries, base: Path, names: seq<string>, i: nat)
    requires i < |names| && AllFound(m, base, names[..i]) && Join(base, names[i]) in m
    ensures AllFound(m, base, names[..i + 1])
    ensures AudioBytes(m, base, names[..i + 1]) ==
      AudioBytes(m, base, names[..i]) + StatisticsOf(m, Join(base, names[i])).audioSizeBytes
  {
    assert names[..i + 1][..i] == names[..i];
    assert forall k :: 0 <= k < i ==> names[..i + 1][k] == names[..i][k];
  }

  /** The first missing playlist is the one the scan stops at. */
  lemma FirstMissing(m: Entries, base: Path, names: seq<string>, i: nat)
    requires i < |names| && AllFound(m, base, names[..i]) && Join(base, names[i]) !in m
    ensures !AllFound(m, base, names)
    ensures exists k :: 0 <= k < |names| && Join(base, names[k]) !in m && AllFound(m, base, names[..k]) && k == i
  {
  }

  /**
   * `verify_device_space`: look the device up, then apply the space check;
   * true when the requested bytes fit.
   */
  function VerifyDeviceSpace(devices: seq<DeviceInfo>, mountPoint: Path, required: nat): (r: Result<bool, Error>)
    ensures r.Ok? ==> r.value
    ensures r.Ok? <==> DeviceByMountPoint(devices, mountPoint).Ok? && required <= DeviceByMountPoint(devices, mountPoint).value.availableBytes
    ensures (forall d :: d in devices ==> d.mountPoint != mountPoint) ==> r == Err(Device(DeviceError.NotFound(Render(mountPoint))))
  {
    var d :- DeviceByMountPoint(devices, mountPoint);
    var _ :- CheckDeviceSpace(d, required);
    Result.Ok(true)
  }
}
