/**
 * Device catalog: the disks the OS reports, the filter that keeps the ones
 * that look like MP3 players, lookup by mount point, the free-space check,
 * the accessibility check and the watcher's connect/disconnect diff.
 *
 * Mount points are `Path`s; the textual tests of the filter look at their
 * rendering (`/Volumes/STICK`).  Byte counts are `nat`; the one subtraction
 * the source saturates is written out.
 */
module Device {
  import opened Wrappers
  import opened Text
  import opened Files
  import opened Errors

  /** A disk as the OS disk enumeration reports it. */
  datatype Disk = Disk(
    name: string,
    mountPoint: Path,
    totalSpace: nat,
    availableSpace: nat,
    fileSystem: string,
    isRemovable: bool)

  datatype DeviceInfo = DeviceInfo(
    name: string,
    mountPoint: Path,
    totalBytes: nat,
    availableBytes: nat,
    fileSystem: string,
    isRemovable: bool)

  /** `used_bytes`: `total_bytes.saturating_sub(available_bytes)`. */
  function UsedBytes(d: DeviceInfo): nat {
    if d.availableBytes <= d.totalBytes then d.totalBytes - d.availableBytes else 0
  }

  lemma UsedBytesSpec(d: DeviceInfo)
    ensures UsedBytes(d) <= d.totalBytes
    ensures d.availableBytes <= d.totalBytes ==> UsedBytes(d) + d.availableBytes == d.totalBytes
    ensures d.availableBytes > d.totalBytes ==> UsedBytes(d) == 0
  {
  }

  // ---------------------------------------------------------------------
  // The MP3-player filter
  // ---------------------------------------------------------------------

  const EXTERNAL_MOUNT_PREFIXES: seq<string> := ["/Volumes/", "/media/", "/mnt/", "/run/media/"]
  const SUPPORTED_FILE_SYSTEMS: seq<string> := ["fat32", "fat", "vfat", "exfat", "msdos", "msdosfs"]
  const MACOS_SYSTEM_VOLUME: string := "/Volumes/Macintosh HD"

  predicate IsExternalMount(mount: string) {
    exists k :: 0 <= k < |EXTERNAL_MOUNT_PREFIXES| && StartsWith(mount, EXTERNAL_MOUNT_PREFIXES[k])
  }

  predicate IsSystemVolume(mount: string) {
    mount == MACOS_SYSTEM_VOLUME || Contains(mount, "Recovery") || Contains(mount, "Preboot")
  }

  /** The lowercased file-system name contains one of the supported names. */
  predicate IsSupportedFileSystem(fs: string) {
    exists k :: 0 <= k < |SUPPORTED_FILE_SYSTEMS| && Contains(Lower(fs), SUPPORTED_FILE_SYSTEMS[k])
  }

  /** `is_likely_mp3_device`: removable or externally mounted, not a system volume, FAT-like. */
  predicate IsLikelyMp3Device(disk: Disk) {
    var mount := Render(disk.mountPoint);
    (disk.isRemovable || IsExternalMount(mount))
    && !IsSystemVolume(mount)
    && IsSupportedFileSystem(disk.fileSystem)
  }

  /** A match of `inner` inside a match of `sub` is a match in `s`. */
  lemma OccursInside(s: string, sub: string, i: nat, inner: string, j: nat)
    requires OccursAt(s, sub, i) && OccursAt(sub, inner, j)
    ensures OccursAt(s, inner, i + j)
  {
    forall t | 0 <= t < |inner| ensures s[i + j + t] == inner[t] {
      assert inner[t] == sub[j..j + |inner|][t] == sub[j + t];
      assert sub[j + t] == s[i..i + |sub|][j + t];
    }
  }

  /** Of the six supported names only "fat" and "msdos" matter: every other one contains one of them. */
  lemma SupportedFileSystemSimplified(fs: string)
    ensures IsSupportedFileSystem(fs) <==> Contains(Lower(fs), "fat") || Contains(Lower(fs), "msdos")
  {
    var l := Lower(fs);
    if IsSupportedFileSystem(fs) {
      var k :| 0 <= k < |SUPPORTED_FILE_SYSTEMS| && Contains(l, SUPPORTED_FILE_SYSTEMS[k]);
      var sub := SUPPORTED_FILE_SYSTEMS[k];
      var i: nat :| i <= |l| && OccursAt(l, sub, i);
      if k == 0 {
        assert OccursAt(sub, "fat", 0);
        OccursInside(l, sub, i, "fat", 0);
      } else if k == 2 {
        assert OccursAt(sub, "fat", 1);
        OccursInside(l, sub, i, "fat", 1);
      } else if k == 3 {
        assert OccursAt(sub, "fat", 2);
        OccursInside(l, sub, i, "fat", 2);
      } else if k == 5 {
        assert OccursAt(sub, "msdos", 0);
        OccursInside(l, sub, i, "msdos", 0);
      }
    } else {
      assert SUPPORTED_FILE_SYSTEMS[1] == "fat" && SUPPORTED_FILE_SYSTEMS[4] == "msdos";
    }
  }

  /** A stick mounted under `/media/` with a vfat file system is accepted even when not flagged removable. */
  lemma ExternalVfatAccepted()
    ensures IsLikelyMp3Device(Disk("STICK", ["media", "user", "STICK"], 8, 4, "vfat", false))
  {
    var stick := Render(["media", "user", "STICK"]);
    assert stick == "/media/user/STICK";
    assert StartsWith(stick, EXTERNAL_MOUNT_PREFIXES[1]);
    assert Lower("vfat") == "vfat";
    assert OccursAt("vfat", SUPPORTED_FILE_SYSTEMS[2], 0);
    assert !Contains(stick, "Recovery") by {
      forall i: nat | i <= |stick| ensures !OccursAt(stick, "Recovery", i) {
        if i + 8 <= 17 {
          assert stick[i..i + 8][0] == stick[i];
        }
      }
    }
    assert !Contains(stick, "Preboot") by {
      forall i: nat | i <= |stick| ensures !OccursAt(stick, "Preboot", i) {
        if i + 7 <= 17 {
          assert stick[i..i + 7][0] == stick[i];
        }
      }
    }
  }

  /** A fixed disk mounted at the root is refused whatever its file system. */
  lemma FixedRootRefused(fs: string)
    ensures !IsLikelyMp3Device(Disk("root", [], 8, 4, fs, false))
  {
    assert Render([]) == "/";
    assert !IsExternalMount("/") by {
      forall k | 0 <= k < |EXTERNAL_MOUNT_PREFIXES| ensures !StartsWith("/", EXTERNAL_MOUNT_PREFIXES[k]) {
      }
    }
  }

  /** A removable ext4 disk is refused. */
  lemma Ext4Refused(mp: Path)
    ensures !IsLikelyMp3Device(Disk("USB", mp, 8, 4, "ext4", true))
  {
    var ext4 := Lower("ext4");
    assert ext4 == "ext4";
    SupportedFileSystemSimplified("ext4");
    assert !Contains(ext4, "fat") by {
      forall i: nat | i <= |ext4| ensures !OccursAt(ext4, "fat", i) {
        if i + 3 <= 4 {
          assert ext4[i..i + 3][0] == ext4[i];
        }
      }
    }
  }

  /** A macOS recovery volume is refused even with a FAT file system. */
  lemma RecoveryVolumeRefused()
    ensures !IsLikelyMp3Device(Disk("Recovery", ["Volumes", "Recovery"], 8, 4, "msdos", true))
  {
    var rec := Render(["Volumes", "Recovery"]);
    assert rec == "/Volumes/Recovery";
    assert OccursAt(rec, "Recovery", 9);
  }

  /** The device record built from an accepted disk. */
  function InfoOf(disk: Disk): DeviceInfo {
    DeviceInfo(disk.name, disk.mountPoint, disk.totalSpace, disk.availableSpace, disk.fileSystem, disk.isRemovable)
  }

  /** `list_devices`: the accepted disks, in disk order, as device records. */
  function Accepted(disks: seq<Disk>): (r: seq<DeviceInfo>)
    ensures |r| <= |disks|
  {
    if disks == [] then []
    else if IsLikelyMp3Device(disks[0]) then [InfoOf(disks[0])] + Accepted(disks[1..])
    else Accepted(disks[1..])
  }

  /** Every accepted disk is listed and every listed device comes from an accepted disk. */
  lemma {:induction false} AcceptedMembers(disks: seq<Disk>)
    ensures forall k :: 0 <= k < |disks| && IsLikelyMp3Device(disks[k]) ==> InfoOf(disks[k]) in Accepted(disks)
    ensures forall d :: d in Accepted(disks) ==> exists k :: 0 <= k < |disks| && IsLikelyMp3Device(disks[k]) && d == InfoOf(disks[k])
  {
    if disks != [] {
      AcceptedMembers(disks[1..]);
      forall k | 0 <= k < |disks| && IsLikelyMp3Device(disks[k]) ensures InfoOf(disks[k]) in Accepted(disks) {
        if k > 0 {
          assert disks[k] == disks[1..][k - 1];
        }
      }
      forall d | d in Accepted(disks)
        ensures exists k :: 0 <= k < |disks| && IsLikelyMp3Device(disks[k]) && d == InfoOf(disks[k])
      {
        if d in Accepted(disks[1..]) {
          var k :| 0 <= k < |disks[1..]| && IsLikelyMp3Device(disks[1..][k]) && d == InfoOf(disks[1..][k]);
          assert disks[k + 1] == disks[1..][k];
        } else {
          assert IsLikelyMp3Device(disks[0]) && d == InfoOf(disks[0]);
        }
      }
    }
  }

  /** Listing keeps disk order: listing a concatenation concatenates the listings. */
  lemma {:induction false} AcceptedAppend(a: seq<Disk>, b: seq<Disk>)
    ensures Accepted(a + b) == Accepted(a) + Accepted(b)
  {
    if a != [] {
      assert (a + b)[1..] == a[1..] + b;
      AcceptedAppend(a[1..], b);
    } else {
      assert a + b == b;
    }
  }

  /** `is_device_connected`: some disk (accepted or not) is mounted exactly there. */
  predicate IsConnected(disks: seq<Disk>, mp: Path) {
    exists k :: 0 <= k < |disks| && disks[k].mountPoint == mp
  }

  /**
   * The detector over the OS's disk list; `Refresh` stands for the sysinfo
   * refresh, whose new list is its argument.
   */
  class DeviceManager {
    var disks: seq<Disk>

    constructor (initial: seq<Disk>)
      ensures disks == initial
    {
      disks := initial;
    }

    method Refresh(current: seq<Disk>)
      modifies this
      ensures disks == current
    {
      disks := current;
    }

    function ListDevices(): (r: seq<DeviceInfo>)
      reads this
      ensures forall d :: d in r <==> exists k :: 0 <= k < |disks| && IsLikelyMp3Device(disks[k]) && d == InfoOf(disks[k])
    {
      AcceptedMembers(disks);
      Accepted(disks)
    }

    function IsDeviceConnected(mp: Path): (r: bool)
      reads this
      ensures r <==> exists k :: 0 <= k < |disks| && disks[k].mountPoint == mp
    {
      IsConnected(disks, mp)
    }
  }

  /** A device can be connected without being listed: the filter does not affect `is_device_connected`. */
  lemma ListedIsConnected(disks: seq<Disk>, d: DeviceInfo)
    ensures d in Accepted(disks) ==> IsConnected(disks, d.mountPoint)
  {
    AcceptedMembers(disks);
  }

  // ---------------------------------------------------------------------
  // Lookup, space and accessibility checks
  // ---------------------------------------------------------------------

  /** `get_device_by_mount_point`: the first listed device at `mp`. */
  function DeviceByMountPoint(devices: seq<DeviceInfo>, mp: Path): (r: Result<DeviceInfo, Error>)
    ensures r.Ok? ==> r.value in devices && r.value.mountPoint == mp
    ensures r.Ok? ==> exists k :: 0 <= k < |devices| && devices[k] == r.value &&
                        forall j :: 0 <= j < k ==> devices[j].mountPoint != mp
    ensures r.Err? <==> forall d :: d in devices ==> d.mountPoint != mp
    ensures r.Err? ==> r.error == Device(DeviceError.NotFound(Render(mp)))
  {
    if devices == [] then Err(Device(DeviceError.NotFound(Render(mp))))
    else if devices[0].mountPoint == mp then Ok(devices[0])
    else
      var rest := DeviceByMountPoint(devices[1..], mp);
      assert forall d :: d in devices ==> d == devices[0] || d in devices[1..];
      if rest.Ok? then
        var k :| 0 <= k < |devices[1..]| && devices[1..][k] == rest.value &&
                 forall j :: 0 <= j < k ==> devices[1..][j].mountPoint != mp;
        assert devices[k + 1] == rest.value;
        assert forall j :: 1 <= j < k + 1 ==> devices[j] == devices[1..][j - 1];
        rest
      else rest
  }

  /** `check_device_space`: fails exactly when less is available than required. */
  function CheckDeviceSpace(d: DeviceInfo, required: nat): (r: Result<(), Error>)
    ensures r.Err? <==> d.availableBytes < required
    ensures r.Err? ==> r.error == Device(InsufficientSpace(d.name, d.availableBytes, required))
  {
    if d.availableBytes < required then Err(Device(InsufficientSpace(d.name, d.availableBytes, required)))
    else Ok(())
  }

  lemma CheckDeviceSpaceExamples(d: DeviceInfo)
    ensures CheckDeviceSpace(d, 0).Ok?
    ensures CheckDeviceSpace(d, d.availableBytes).Ok?
    ensures CheckDeviceSpace(d, d.availableBytes + 1).Err?
  {
  }

  /**
   * `verify_device_accessible`: the detector must still see the mount point
   * (else Disconnected), and the mount point must exist (else NotMounted).
   */
  function VerifyDeviceAccessible(disks: seq<Disk>, m: Entries, d: DeviceInfo): (r: Result<(), Error>)
    ensures r.Ok? <==> IsConnected(disks, d.mountPoint) && d.mountPoint in m
    ensures !IsConnected(disks, d.mountPoint) ==> r == Err(Device(DeviceError.Disconnected(d.name)))
    ensures IsConnected(disks, d.mountPoint) && d.mountPoint !in m ==> r == Err(Device(NotMounted(d.mountPoint)))
  {
    if !IsConnected(disks, d.mountPoint) then Err(Device(DeviceError.Disconnected(d.name)))
    else if d.mountPoint !in m then Err(Device(NotMounted(d.mountPoint)))
    else Ok(())
  }

  // ---------------------------------------------------------------------
  // The watcher's diff
  // ---------------------------------------------------------------------

  datatype DeviceEvent =
    | Connected(info: DeviceInfo)
    | Disconnected(info: DeviceInfo)
    | Refreshed(devices: seq<DeviceInfo>)

  function MountPoints(devices: seq<DeviceInfo>): (r: set<Path>)
    ensures forall mp :: mp in r <==> exists d :: d in devices && d.mountPoint == mp
  {
    set d | d in devices :: d.mountPoint
  }

  /** The record the watcher makes up for a device that has gone. */
  function GoneDevice(mp: Path): DeviceInfo {
    DeviceInfo(if mp == [] then "Unknown" else FileName(mp), mp, 0, 0, "", true)
  }

  /** One Connected event per device of `current` whose mount point the watcher did not know, in list order. */
  function ConnectedEvents(current: seq<DeviceInfo>, known: set<Path>): (r: seq<DeviceEvent>)
    ensures |r| <= |current|
  {
    if current == [] then []
    else if current[0].mountPoint !in known then [Connected(current[0])] + ConnectedEvents(current[1..], known)
    else ConnectedEvents(current[1..], known)
  }

  /** Exactly the listed devices at unknown mount points are announced. */
  lemma {:induction false} ConnectedEventsMembers(current: seq<DeviceInfo>, known: set<Path>)
    ensures forall e :: e in ConnectedEvents(current, known) <==> e.Connected? && e.info in current && e.info.mountPoint !in known
  {
    if current != [] {
      ConnectedEventsMembers(current[1..], known);
      assert forall d :: d in current <==> d == current[0] || d in current[1..];
    }
  }

  /**
   * The watcher task's state between polls: the mount points it has
   * announced.  `Start` is the initial listing, `Poll` one successful tick.
   */
  class DeviceWatcher {
    var known: set<Path>

    constructor ()
      ensures known == {}
    {
      known := {};
    }

    method Start(devices: seq<DeviceInfo>) returns (event: DeviceEvent)
      modifies this
      ensures known == MountPoints(devices)
      ensures event == Refreshed(devices)
    {
      known := {};
      for i := 0 to |devices|
        invariant known == MountPoints(devices[..i])
      {
        assert devices[..i + 1] == devices[..i] + [devices[i]];
        known := known + {devices[i].mountPoint};
      }
      assert devices[..|devices|] == devices;
      event := Refreshed(devices);
    }

    /**
     * One tick with a successful listing: announce the new devices in list
     * order, then every known mount point that is no longer listed, then
     * remember the current mount points.
     */
    method Poll(current: seq<DeviceInfo>) returns (connected: seq<DeviceEvent>, disconnected: seq<DeviceEvent>)
      modifies this
      ensures connected == ConnectedEvents(current, old(known))
      ensures forall e :: e in disconnected <==> e.Disconnected? && e.info.mountPoint in old(known) - MountPoints(current) && e.info == GoneDevice(e.info.mountPoint)
      ensures |disconnected| == |old(known) - MountPoints(current)|
      ensures known == MountPoints(current)
    {
      var now := MountPoints(current);
      connected := [];
      for i := 0 to |current|
        invariant known == old(known)
        invariant connected == ConnectedEvents(current[..i], known)
      {
        ConnectedEventsAppend(current[..i], current[i], known);
        assert current[..i + 1] == current[..i] + [current[i]];
        if current[i].mountPoint !in known {
          connected := connected + [Connected(current[i])];
        }
      }
      assert current[..|current|] == current;
      var gone := known - now;
      var todo := gone;
      disconnected := [];
      while todo != {}
        invariant known == old(known)
        invariant todo <= gone
        invariant |disconnected| + |todo| == |gone|
        invariant forall e :: e in disconnected <==> e.Disconnected? && e.info.mountPoint in gone - todo && e.info == GoneDevice(e.info.mountPoint)
        decreases |todo|
      {
        var mp :| mp in todo;
        disconnected := disconnected + [DeviceEvent.Disconnected(GoneDevice(mp))];
        todo := todo - {mp};
      }
      known := now;
    }
  }

  lemma {:induction false} ConnectedEventsAppend(s: seq<DeviceInfo>, d: DeviceInfo, known: set<Path>)
    ensures ConnectedEvents(s + [d], known) == ConnectedEvents(s, known) + (if d.mountPoint !in known then [Connected(d)] else [])
  {
    if s == [] {
      assert [d][1..] == [];
    } else {
      assert (s + [d])[1..] == s[1..] + [d];
      ConnectedEventsAppend(s[1..], d, known);
    }
  }

  /** The events of one poll: the new devices and the vanished mount points, and nothing else. */
  lemma PollEvents(current: seq<DeviceInfo>, known: set<Path>)
    ensures forall e :: e in ConnectedEvents(current, known) ==> e.Connected? && e.info.mountPoint in MountPoints(current) - known
    ensures forall mp :: mp in MountPoints(current) - known ==> exists e :: e in ConnectedEvents(current, known) && e.Connected? && e.info.mountPoint == mp
    ensures known == MountPoints(current) ==> ConnectedEvents(current, known) == [] && known - MountPoints(current) == {}
  {
    ConnectedEventsMembers(current, known);
    forall mp | mp in MountPoints(current) - known
      ensures exists e :: e in ConnectedEvents(current, known) && e.Connected? && e.info.mountPoint == mp
    {
      var d :| d in current && d.mountPoint == mp;
      assert Connected(d) in ConnectedEvents(current, known);
    }
    var events := ConnectedEvents(current, known);
    assert |events| > 0 ==> events[0] in events;
  }
}
