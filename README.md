# youtun4: the playlist-to-device sync engine, in Dafny

youtun4 downloads YouTube playlists as MP3 folders and mirrors them onto a
portable MP3 player. This project models its core and proves properties of
that model:

- **Playlist library** (`Playlist`, `PlaylistStore`, `PlaylistSync`). It checks
  playlist names, decides which files are audio tracks, and keeps the
  `playlist.json` sidecar. It creates, lists, inspects, annotates and deletes
  playlist folders. Its destructive sync clears the device, keeping hidden
  entries and the Windows system folder, then copies the playlist without its
  sidecar.
- **Device catalog** (`Device`). It filters disks down to likely MP3 players,
  looks devices up by mount point, checks free space and accessibility, and
  computes the watcher's connect/disconnect diff.
- **Capacity planner** (`Capacity`). It checks whether the requested playlists
  fit on the device, and how full the device will then be.
- **Transfer engine** (`Transfer`). It copies files with skip, retry, fail and
  cancel accounting, writing each copy into the file system, so a later file
  meets what the earlier ones left.
- **Device cleanup** (`Cleanup`). It applies protection rules, plans the
  deletions deepest first, then runs them or does a dry run, and can verify the
  result afterwards.
- **Sync orchestrator** (`Sync`). It verifies the device, checks free space,
  optionally cleans the device, then transfers each playlist onto the device
  as the earlier playlists left it, with cancellation checkpoints between
  phases.
- **Integrity manifest** (`Integrity`). It holds checksum manifests, verifies a
  directory against one, and reports extra files.
- **Cache** (`Cache`). It keeps the manifest accounting of the metadata and
  thumbnail cache: byte totals, expiry, making room and eviction.
- **Download queue** (`Queue`). It selects downloads by priority and age, caps
  concurrency, and handles pause, retry and clearing.
- **Thumbnails and metadata** (`Thumbnail`, `Metadata`, `YouTube`). These cover
  YouTube image URLs, the thumbnail manager on top of the cache, ID3 display
  helpers, playlist URL parsing and file-name sanitising.

The host file system is a finite map from paths to entries (`Files.Fs`). A
playlist name is joined onto the library directory as `Path::join` joins it:
split at `/`, with `.` and `..` resolved and an absolute name replacing the
base (`Playlist.Join`).
Operations that change state in the source are methods of classes (`Fs`,
`DeviceManager`, `DeviceWatcher`, `TransferEngine`, `SyncOrchestrator`,
`ChecksumManifest`, `CacheManager`, `DownloadQueueManager`,
`ThumbnailManager`). Each method is proved to compute a specification
function, and lemmas state what the source promises about those functions.
Where the source iterates a `HashMap` or a directory listing, the methods
pick the next element arbitrarily. Their contracts therefore hold for every
iteration order.

The `mp3youtube-core` crate carries near-identical copies of `playlist.rs`
and `device.rs` (the name validator, audio-file test, listings, statistics,
folder validation, clear-then-copy sync, `used_bytes`, the device filter,
`list_devices`, `is_device_connected` and `get_device_by_mount_point`). One
model serves both copies, and the table cites the `youtun4-core` lines.

Faithful quirks the model keeps (each stated by a member below):

- Once the cache is over its target, `cleanup_to_target` evicts every
  remaining entry (`Cache.CleanupEvictsEverything`).
- A finished sync with failed files returns `Ok` but is not successful, and
  its phase is left at Verifying (`Sync.SyncOutcome`).
- An unknown mount point passes the sync's space check
  (`Sync.SpaceCheckUnknownPasses`).
- `mark_completed` and `mark_failed` do not look at the item's status.
- `retry` keeps the total video count.
- `has_thumbnail` does not check the entry's kind.
- `sanitize_filename` is not idempotent
  (`YouTube.SanitizeFilenameNotIdempotent`).
- The audio-only cleanup does not treat `.mp4` as audio
  (`Cleanup.Mp4KeptByAudioCleanup`).
- Extra files never make an integrity verification fail.

## Model

| member | source | states |
|---|---|---|
| YouTube.UpToAmpersand | crates/mp3youtube-core/src/youtube.rs:135-137 | the extracted id is the longest prefix of the rest of the URL containing no `&`: it stops at the first `&` or at the end |
| YouTube.ExtractPlaylistIdErrors | crates/mp3youtube-core/src/youtube.rs:121-151 | a URL mentioning neither `youtube.com` nor `youtu.be` fails with InvalidYouTubeUrl, exactly those; a YouTube URL whose lower-cased text has no `list=` fails with NotAPlaylist, exactly those; every error is one of the two kinds |
| YouTube.ExtractPlaylistIdOk | crates/mp3youtube-core/src/youtube.rs:129-145 | a successful id is non-empty, free of `&`, and sits in the original URL right after the first case-insensitive `list=`, ending at a `&` or the end of the URL |
| YouTube.ExtractPlaylistIdRoundTrip | crates/mp3youtube-core/src/youtube.rs:121-151 | appending `list=` and any non-empty `&`-free id to a YouTube URL prefix without `=` extracts exactly that id |
| YouTube.ReplaceInvalid | crates/mp3youtube-core/src/youtube.rs:156-167 | the mapped name has the same length and each of the ten forbidden characters is replaced by `_`, every other character is kept |
| YouTube.SanitizeFilename | crates/mp3youtube-core/src/youtube.rs:172-177 | a sanitised name fits in 200 UTF-8 bytes and is the longest prefix of whole characters of the trimmed name that does: one more character would not fit |
| YouTube.SanitizeFilenameNoInvalidChar | crates/mp3youtube-core/src/youtube.rs:155-178 | no forbidden character survives sanitising |
| YouTube.SanitizeFilenameNoEdgeDots | crates/mp3youtube-core/src/youtube.rs:169-170 | a sanitised name never starts with a dot, and one from a name of at most 200 bytes, which is never cut, does not end with one either |
| YouTube.SanitizeFilenameKeepsCleanName | crates/mp3youtube-core/src/youtube.rs:155-178 | a name of at most 200 UTF-8 bytes with no forbidden character and no Unicode whitespace or dot at either end is returned unchanged |
| YouTube.SanitizeFilenameAsWrittenPanics | crates/mp3youtube-core/src/youtube.rs:172-177 | as written, the cut `trimmed[..200]` panics exactly when the trimmed name is over 200 bytes and no prefix of it ends at byte 200 |
| YouTube.SanitizeFilenameAsWrittenPanicsOnEuros | crates/mp3youtube-core/src/youtube.rs:172-177 | a title of 67 euro signs (201 bytes) makes the cut panic |
| YouTube.SanitizeFilenameAgrees | crates/mp3youtube-core/src/youtube.rs:155-178 | where the code as written does not panic, it returns what the corrected sanitiser returns |
| YouTube.SanitizeTrimmedUtf8Length | crates/mp3youtube-core/src/youtube.rs:158-170 | replacing forbidden characters and trimming never makes a name longer in bytes |
| YouTube.SanitizeFilenameNotIdempotent | crates/mp3youtube-core/src/youtube.rs:169-170 | sanitising twice can differ from sanitising once: `"a ."` becomes `"a "` and then `"a"`, because whitespace is trimmed before dots |
| YouTube.ParsePlaylistUrl | crates/mp3youtube-core/src/youtube.rs:199-212 | an id-extraction error is passed through unchanged; otherwise the result carries the extracted id, a video count of zero and no videos |
| YouTube.PlaceholderResults | crates/mp3youtube-core/src/youtube.rs:248-254 | one download result per video |
| YouTube.PlaceholderResultsAt | crates/mp3youtube-core/src/youtube.rs:245-254 | the i-th result names the i-th video, is not a success, and its output path is the output directory joined with the sanitised title plus `.mp3` |
| YouTube.StartingReports | crates/mp3youtube-core/src/youtube.rs:229-240 | one Starting progress report per video, numbered from 1, carrying the playlist length and that video's title |
| YouTube.DownloadPlaylist | crates/mp3youtube-core/src/youtube.rs:214-258 | the loop produces exactly the placeholder results and the Starting reports, in video order |
| Metadata.Empty | crates/youtun4-core/src/metadata.rs:61-63 | every field of an empty record is absent |
| Metadata.HasContentIgnoresOtherFields | crates/youtun4-core/src/metadata.rs:67-72 | a record has content exactly when title, artist, album or duration is present; the other fields never matter and the empty record has none |
| Metadata.DisplayTitle | crates/youtun4-core/src/metadata.rs:76-78 | the title when present, `Unknown Title` otherwise |
| Metadata.DisplayArtist | crates/youtun4-core/src/metadata.rs:82-84 | the artist when present, `Unknown Artist` otherwise |
| Metadata.DisplayAlbum | crates/youtun4-core/src/metadata.rs:88-90 | the album when present, `Unknown Album` otherwise |
| Metadata.TwoDigits | crates/youtun4-core/src/metadata.rs:94-100 | the zero-padded seconds field is exactly two decimal digits |
| Metadata.FormattedDurationReadsBack | crates/youtun4-core/src/metadata.rs:94-100 | a duration formats exactly when present, as minutes `:` two-digit seconds below 60, and reading the digits back gives the duration in seconds |
| Metadata.FormattedTrackNumberReadsBack | crates/youtun4-core/src/metadata.rs:104-112 | a track number formats exactly when present, as `n` or `n/total`, and reading the digits back gives the track number and the total |
| Metadata.ParseTrackNumber | crates/youtun4-core/src/metadata.rs:190-197 | the track number is the tag's; a total is reported only with a track number, and then it is the tag's total |
| Metadata.ExtractMetadata | crates/youtun4-core/src/metadata.rs:139-187 | a missing file fails with NotFound, exactly those; a file without a readable tag gives the empty record; a tagged file gives the tag's title, no bitrate, and never a total without a track number |
| Metadata.ExtractMetadataBatch | crates/youtun4-core/src/metadata.rs:211-221 | one pair per path in order; a path that cannot be read gets the empty record, every other path its extracted metadata |
| Device.UsedBytesSpec | crates/youtun4-core/src/device.rs:42-44 | used bytes never exceed the total; with consistent figures used plus available is the total, and an over-reported availability saturates to zero used |
| Device.SupportedFileSystemSimplified | crates/youtun4-core/src/device.rs:111-115 | the six supported file-system names reduce to "contains fat or msdos" after lower-casing |
| Device.ExternalVfatAccepted | crates/youtun4-core/src/device.rs:85-116 | a non-removable vfat disk mounted under `/media/` is accepted, since an external mount point counts as removable |
| Device.FixedRootRefused | crates/youtun4-core/src/device.rs:90-101 | a fixed disk mounted at `/` is refused whatever its file system |
| Device.Ext4Refused | crates/youtun4-core/src/device.rs:111-115 | a removable ext4 disk is refused |
| Device.RecoveryVolumeRefused | crates/youtun4-core/src/device.rs:103-109 | a removable FAT volume whose mount point contains `Recovery` is refused |
| Device.Accepted | crates/youtun4-core/src/device.rs:126-142 | never more devices than disks |
| Device.AcceptedMembers | crates/youtun4-core/src/device.rs:126-142 | every disk passing the MP3-player filter is listed, and every listed device is the record of such a disk |
| Device.AcceptedAppend | crates/youtun4-core/src/device.rs:126-142 | listing keeps disk order: the listing of a concatenation is the concatenation of the listings |
| Device.DeviceManager.constructor | crates/youtun4-core/src/device.rs:78-82 | the manager starts with the enumerated disks |
| Device.DeviceManager.Refresh | crates/youtun4-core/src/device.rs:150-152 | after a refresh the manager holds the disks now reported |
| Device.DeviceManager.ListDevices | crates/youtun4-core/src/device.rs:126-142 | a device is listed exactly when it is the record of a held disk passing the filter |
| Device.DeviceManager.IsDeviceConnected | crates/youtun4-core/src/device.rs:144-148 | connected exactly when some held disk, filtered or not, is mounted at that path |
| Device.ListedIsConnected | crates/youtun4-core/src/device.rs:126-148 | every listed device counts as connected |
| Device.DeviceByMountPoint | crates/youtun4-core/src/device.rs:160-173 | the result is the first listed device at the mount point; NotFound, naming the rendered path, exactly when no listed device is mounted there |
| Device.CheckDeviceSpace | crates/youtun4-core/src/device.rs:180-189 | fails with InsufficientSpace (device name, available, required) exactly when less is available than required |
| Device.CheckDeviceSpaceExamples | crates/youtun4-core/src/device.rs:180-189 | zero and exactly the available amount fit; one byte more does not |
| Device.VerifyDeviceAccessible | crates/youtun4-core/src/device.rs:196-211 | succeeds exactly when the device is connected and its mount point exists; Disconnected is checked first, NotMounted second |
| Device.MountPoints | crates/youtun4-core/src/device.rs:322-325 | the set of mount points of the listed devices, nothing else |
| Device.ConnectedEvents | crates/youtun4-core/src/device.rs:328-333 | never more Connected events than listed devices |
| Device.ConnectedEventsMembers | crates/youtun4-core/src/device.rs:328-333 | an event is announced exactly for a listed device whose mount point was not known |
| Device.ConnectedEventsAppend | crates/youtun4-core/src/device.rs:328-333 | announcements follow list order: one more device adds one Connected event at the end exactly when its mount point is new |
| Device.DeviceWatcher.constructor | crates/youtun4-core/src/device.rs:294 | the watcher starts knowing no mount point |
| Device.DeviceWatcher.Start | crates/youtun4-core/src/device.rs:297-308 | the watcher learns the mount points of the initial listing and sends one Refreshed event with that listing |
| Device.DeviceWatcher.Poll | crates/youtun4-core/src/device.rs:317-357 | Connected events for the new devices in list order; one Disconnected event per vanished mount point, carrying the made-up record; afterwards the known set is the current mount points |
| Device.PollEvents | crates/youtun4-core/src/device.rs:322-356 | Connected events name exactly the newly listed mount points; a poll that finds the known set unchanged announces nothing |
| Capacity.Classify | src-tauri/src/commands/device.rs:192-237 | the result carries the required, available and total bytes, and fits exactly when available is at least required |
| Capacity.ClassifyLevels | src-tauri/src/commands/device.rs:193-207 | Critical exactly when it does not fit, the device reports no capacity or it would be over 95% full; Warning when over 85% and up to 95%; Ok otherwise |
| Capacity.CriticalCases | src-tauri/src/commands/device.rs:195-202 | a sync that does not fit, or a device reporting zero total bytes, is always Critical |
| Capacity.ClassifyMessage | src-tauri/src/commands/device.rs:209-227 | Insufficient with the exact deficit when it does not fit; Limited exactly at Warning level; otherwise Ready with the exact bytes left; every message names the device |
| Capacity.FitKeepsWithinCapacity | src-tauri/src/commands/device.rs:193-194 | when the device reports consistent figures, a fitting sync never fills it past its total |
| Capacity.AudioBytesMonotone | src-tauri/src/commands/device.rs:170-189 | requesting more playlists never lowers the byte count |
| Capacity.CheckSyncCapacity | src-tauri/src/commands/device.rs:147-249 | a lookup error is returned unchanged; otherwise the first missing playlist fails with NotFound; otherwise the result classifies the sum of the playlists' audio bytes |
| Capacity.AudioBytesStep | src-tauri/src/commands/device.rs:172-175 | one more found playlist adds its audio bytes to the total |
| Capacity.FirstMissing | src-tauri/src/commands/device.rs:181-187 | the scan stops at the first missing playlist, and all before it were found |
| Capacity.VerifyDeviceSpace | src-tauri/src/commands/device.rs:119-143 | answers true exactly when the device is listed at the mount point and has enough space; an unknown mount point fails with NotFound |
| Playlist.ExtensionSpec | crates/youtun4-core/src/playlist.rs:1161-1163 | a file name has an extension exactly when it has a dot after its first character and is not `..`; the extension is the text after the last dot and contains no dot |
| Playlist.AudioFileBySuffix | crates/youtun4-core/src/playlist.rs:1161-1170 | a file is audio exactly when its lower-cased name ends in `.` plus one of the seven supported extensions with at least one character before the dot |
| Playlist.UpperCaseExtensionIsAudio | crates/youtun4-core/src/playlist.rs:1164-1168 | `song.MP3` is audio: the extension is compared lower-cased |
| Playlist.OpusIsNotAudio | crates/youtun4-core/src/playlist.rs:1165-1168 | `file.opus` is not audio |
| Playlist.HiddenFileIsNotAudio | crates/youtun4-core/src/playlist.rs:1162 | `.mp3` has no extension and is not audio |
| Playlist.ValidatePlaylistName | crates/youtun4-core/src/playlist.rs:1178-1215 | every refusal is InvalidName carrying the name as given |
| Playlist.ValidatePlaylistNameReasons | crates/youtun4-core/src/playlist.rs:1179-1212 | the reason is "cannot be empty", "too long" (over 255 UTF-8 bytes), "contains invalid characters" or "is reserved" exactly when that check is the first to fail |
| Playlist.ValidatePlaylistNameAccepts | crates/youtun4-core/src/playlist.rs:1178-1215 | a name is accepted exactly when it is non-empty, at most 255 UTF-8 bytes, free of the ten forbidden characters and not one of the 22 reserved device names in any case |
| Playlist.ReservedIgnoresCase | crates/youtun4-core/src/playlist.rs:1203-1207 | comparing the upper-cased name with the list is case-insensitive equality with some reserved name |
| Playlist.ValidatePlaylistNameCaseInsensitive | crates/youtun4-core/src/playlist.rs:1178-1215 | two names differing only in case are both accepted or both refused |
| Playlist.ReservedLength | crates/youtun4-core/src/playlist.rs:1203-1206 | a reserved name has three or four characters |
| Playlist.ValidNameExample | crates/youtun4-core/src/playlist.rs:1178-1215 | `Rock & Roll` is accepted |
| Playlist.RefusedNameExamples | crates/youtun4-core/src/playlist.rs:1179-1200 | the empty name, `test/name` and a 300-character name are refused |
| Playlist.ReservedNameExample | crates/youtun4-core/src/playlist.rs:1202-1212 | `lpt1` is refused as reserved |
| Playlist.FromYouTubeVideo | crates/youtun4-core/src/playlist.rs:1101-1124 | the track keeps its file name and video id, is stamped with the clock reading, and its source URL is the watch URL prefix followed by the video id |
| Playlist.FromYouTubeVideoUrlIsYouTube | crates/youtun4-core/src/playlist.rs:1109 | the recorded source URL is one the playlist URL parser accepts as a YouTube URL |
| Playlist.FindTrack | crates/youtun4-core/src/playlist.rs:854-858 | the first track with that file name, or none when no track has it |
| Playlist.UpsertTrackContents | crates/youtun4-core/src/playlist.rs:853-864 | the new track is in the list, tracks with other names stay, nothing else appears, and the list grows by one exactly when the name was new |
| Playlist.UpsertTrackKeepsNamesUnique | crates/youtun4-core/src/playlist.rs:853-864 | file names unique before an upsert stay unique after it |
| Playlist.UpsertTracksKeepsNamesUnique | crates/youtun4-core/src/playlist.rs:906-919 | the batch loop keeps file names unique |
| Playlist.UpsertTracksLastWins | crates/youtun4-core/src/playlist.rs:906-919 | of several tracks with one file name in a batch, the last one is the one kept |
| Playlist.PatchText | crates/youtun4-core/src/playlist.rs:765-770 | an absent patch leaves the field; an empty one clears it; any other sets it, so a patched field is never set to empty text |
| Playlist.PatchUrl | crates/youtun4-core/src/playlist.rs:771-776 | an absent patch leaves the URL; a present one replaces it, clearing it when it holds none |
| Playlist.ApplyPatch | crates/youtun4-core/src/playlist.rs:764-781 | creation time, counts, size and tracks are unchanged and the modification time is the clock reading |
| Playlist.EmptyPatchTouchesOnlyModified | crates/youtun4-core/src/playlist.rs:764-781 | an update naming no field changes only the modification time |
| Playlist.ApplyPatchIdempotent | crates/youtun4-core/src/playlist.rs:764-781 | applying the same update twice gives the same record as applying it once |
| PlaylistStore.AudioFilesIn | crates/youtun4-core/src/playlist.rs:268-275 | exactly the regular files directly inside the folder whose names are audio names |
| PlaylistStore.OtherFilesIn | crates/youtun4-core/src/playlist.rs:243-248 | exactly the regular files directly inside that are neither audio nor `playlist.json`; disjoint from the audio files |
| PlaylistStore.CountTracks | crates/youtun4-core/src/playlist.rs:264-284 | the loop counts exactly the audio files directly inside the folder and sums exactly their sizes |
| PlaylistStore.StatisticsOf | crates/youtun4-core/src/playlist.rs:222-260 | total files is audio plus other files; the audio count and bytes are those of the audio files; the total bytes are those of every file, the sidecar included; the metadata flag says whether `playlist.json` exists |
| PlaylistStore.StatisticsBounds | crates/youtun4-core/src/playlist.rs:236-248 | audio bytes never exceed total bytes, and the file count never exceeds the files present |
| PlaylistStore.GetFolderStatistics | crates/youtun4-core/src/playlist.rs:214-261 | NotFound for a missing playlist; otherwise the loop's tallies are exactly the folder's statistics |
| PlaylistStore.NewManager | crates/youtun4-core/src/playlist.rs:97-107 | an existing base path is used as it is; a missing one is created with its ancestors unless a file blocks the way, which fails with CreateDirFailed and changes nothing |
| PlaylistStore.GetPlaylistPath | crates/youtun4-core/src/playlist.rs:369-377 | the name joined onto the base directory as `Path::join` does (split at `/`, an absolute name replacing the base) when something exists there, NotFound naming the playlist otherwise |
| Playlist.Join | crates/youtun4-core/src/playlist.rs:370 | a name without `/` is one step: the empty name and `.` stay at the base, `..` climbs to its parent, any other name is appended |
| Playlist.JoinNested | crates/youtun4-core/src/playlist.rs:370 | joining `a/b` onto a path is joining `a` and then `b`, for a non-empty `a` and a relative `b` |
| Playlist.JoinAbsolute | crates/youtun4-core/src/playlist.rs:346 | a name that starts with `/` ignores the base directory |
| Playlist.JoinNormal | crates/youtun4-core/src/playlist.rs:346 | whatever the name holds, joining it onto a path of plain components gives one: no empty, `.`, `..` or `/`-holding component |
| PlaylistStore.JoinPlainName | crates/youtun4-core/src/playlist.rs:1178-1215 | a valid name other than `.` and `..` names a folder directly inside the base directory, and different such names name different folders |
| PlaylistStore.LoadMetadata | crates/youtun4-core/src/playlist.rs:709-717 | reading `playlist.json` gives ReadFailed when it cannot be read, a Serialization error when it does not parse, and the decoded record otherwise |
| PlaylistStore.ReadMetadataAfterWrite | crates/youtun4-core/src/playlist.rs:784-791 | with a JSON codec that round-trips, what was written to `playlist.json` reads back unchanged |
| PlaylistStore.PlaylistMetadataOf | crates/youtun4-core/src/playlist.rs:159-169 | a successful record is named after the folder's last path component |
| PlaylistStore.PlaylistMetadataOfSpec | crates/youtun4-core/src/playlist.rs:159-207 | fails exactly for a path without a name or an unreadable or unparsable `playlist.json`; counts are the folder's audio statistics; source URL and creation time come from `playlist.json` when it exists and from the file system otherwise |
| PlaylistStore.GetPlaylistMetadata | crates/youtun4-core/src/playlist.rs:159-207 | the imperative computation returns exactly that record or error |
| PlaylistStore.ListPlaylists | crates/youtun4-core/src/playlist.rs:120-152 | ReadFailed exactly when the base is not a directory; otherwise exactly the readable subdirectories' records, strictly sorted by name |
| PlaylistStore.ListPlaylistsDeterministic | crates/youtun4-core/src/playlist.rs:130-151 | the listing is determined by the file system, whatever order the directory is read in |
| PlaylistStore.ListedExactlyReadable | crates/youtun4-core/src/playlist.rs:139-145 | a subdirectory whose metadata fails is skipped, not fatal; every readable one is listed |
| PlaylistStore.ListTracksWithOptions | crates/youtun4-core/src/playlist.rs:653-694 | NotFound for a missing playlist; otherwise exactly one record per audio file directly inside, strictly sorted by file name |
| PlaylistStore.ListTracks | crates/youtun4-core/src/playlist.rs:384-386 | the same listing, without tags |
| PlaylistStore.TrackListingMatchesStatistics | crates/youtun4-core/src/playlist.rs:214-284 | the track listing and the folder statistics count the same audio files |
| PlaylistStore.ValidationOfSpec | crates/youtun4-core/src/playlist.rs:426-478 | valid exactly when no issue is reported; the flags say the folder is a directory and the sidecar exists and parses; the audio count is the statistics' count and the no-audio issue appears exactly when it is zero |
| PlaylistStore.ValidateFolder | crates/youtun4-core/src/playlist.rs:426-478 | the imperative check returns exactly that validation result |
| PlaylistStore.MetadataFileIsNotAudio | crates/youtun4-core/src/playlist.rs:1161-1170 | `playlist.json` is never an audio file, so it never counts as a track |
| PlaylistStore.GetSavedMetadata | crates/youtun4-core/src/playlist.rs:701-737 | NotFound for a missing playlist, the parsed `playlist.json` when it exists, otherwise a default record with the current audio counts |
| PlaylistStore.SaveMetadata | crates/youtun4-core/src/playlist.rs:784-791 | writing succeeds when the folder is a directory and the sidecar is not; then only the sidecar changes, to the encoded record; otherwise WriteFailed and nothing changes |
| PlaylistStore.SavedMetadataReadsBack | crates/youtun4-core/src/playlist.rs:701-737 | a record that was written is what reading the saved metadata then returns |
| PlaylistStore.SidecarWriteKeepsAudio | crates/youtun4-core/src/playlist.rs:784-791 | writing the sidecar leaves the folder's audio files and their sizes as they were |
| PlaylistStore.RecountedMatchesStatistics | crates/youtun4-core/src/playlist.rs:811-829 | after a recounting write, the recorded counts equal the folder statistics as the folder now stands |
| PlaylistStore.UpdatePlaylistMetadataFull | crates/youtun4-core/src/playlist.rs:747-794 | a NotFound or read error changes nothing; otherwise the patched record with modification time now is written back |
| PlaylistStore.RefreshPlaylistStats | crates/youtun4-core/src/playlist.rs:801-830 | a NotFound or read error changes nothing; otherwise the record is rewritten with the folder's current audio counts and modification time now |
| PlaylistStore.AddTrackMetadata | crates/youtun4-core/src/playlist.rs:839-885 | a NotFound or read error changes nothing; otherwise the track is upserted by file name, the counts are refreshed and the record is written |
| PlaylistStore.AddTracksMetadata | crates/youtun4-core/src/playlist.rs:892-940 | the same, with each new track upserted in turn before one recount and write |
| PlaylistStore.AddedTrackReadsBack | crates/youtun4-core/src/playlist.rs:839-885 | after a successful add, reading the playlist back shows the track, and file names stay unique when they were |
| PlaylistStore.CreatePlaylist | crates/youtun4-core/src/playlist.rs:291-338 | the validator's error first, then AlreadyExists, both changing nothing; otherwise the folder is created with the initial `playlist.json`, or CreateDirFailed when a file blocks the way |
| PlaylistStore.CreatedPlaylistState | crates/youtun4-core/src/playlist.rs:303-337 | a new playlist is a directory whose sidecar reads back as the initial record, holds no tracks, and whose only validation issue is the missing audio |
| PlaylistStore.DeletePlaylist | crates/youtun4-core/src/playlist.rs:345-362 | NotFound when nothing is at the path `Path::join` gives for the name; otherwise the tree is removed when it is a non-root directory, and DeleteFailed changes nothing |
| PlaylistStore.DeleteEmptyNameRemovesLibrary | crates/youtun4-core/src/playlist.rs:345-362 | deleting the playlist named by the empty string removes the base directory and every playlist in it |
| PlaylistStore.DeletePlaylistChecked | crates/youtun4-core/src/playlist.rs:345-362 | with the name validated as creation validates it, a delete removes one folder directly inside the base directory and nothing outside it |
| PlaylistStore.DeleteAbsoluteNameRemovesOutside | crates/youtun4-core/src/playlist.rs:345-362 | deleting the playlist `/x` removes the top-level directory `x`, which lies outside the library |
| PlaylistStore.DeleteParentNameRemovesSibling | crates/youtun4-core/src/playlist.rs:345-362 | deleting the playlist `../x` reaches a sibling of the library directory |
| PlaylistStore.SyncToDevice | crates/youtun4-core/src/playlist.rs:395-420 | playlist NotFound before device NotMounted, then ReadFailed for a device that is not a directory, all changing nothing; otherwise the device is cleared and the playlist copied, succeeding exactly when no file blocks the copy |
| PlaylistStore.ClearedSameOutside | crates/youtun4-core/src/playlist.rs:1218-1264 | clearing the device touches nothing outside it |
| PlaylistStore.SourceSurvivesClear | crates/youtun4-core/src/playlist.rs:410-416 | clearing a device disjoint from the playlist leaves the playlist intact |
| PlaylistStore.SyncedDevice | crates/youtun4-core/src/playlist.rs:395-420 | after a sync, the device's non-kept entries are exactly the playlist's entries with no `playlist.json` on their path, with the playlist's contents |
| PlaylistStore.SyncKeepsHidden | crates/youtun4-core/src/playlist.rs:1218-1264 | hidden entries and the system folder on the device survive a sync |
| PlaylistStore.SyncCopiesPlaylist | crates/youtun4-core/src/playlist.rs:1267-1307 | every playlist entry with no `playlist.json` on its path lands on the device with its contents |
| PlaylistStore.SyncedHasNoSidecar | crates/youtun4-core/src/playlist.rs:1267-1307 | no `playlist.json` lies at the top of the device after a sync |
| PlaylistStore.SecondSyncReplacesFirst | crates/youtun4-core/src/playlist.rs:395-420 | syncing playlist b after playlist a leaves exactly b's entries among the device's non-kept entries |
| PlaylistSync.Cleared | crates/youtun4-core/src/playlist.rs:1226-1261 | after clearing, an entry survives exactly when it lies outside the directory or under a hidden name or `System Volume Information`; survivors keep their contents |
| PlaylistSync.ClearDirectory | crates/youtun4-core/src/playlist.rs:1218-1264 | fails with ReadFailed, changing nothing, exactly when the path is not a directory; otherwise the loop over the listing leaves exactly the cleared state |
| PlaylistSync.CopiedOn | crates/youtun4-core/src/playlist.rs:1274-1303 | after copying the listed children, every copied entry appears at the same relative place under the destination with the source's contents, and every other entry is unchanged |
| PlaylistSync.CopiedOnSameOutside | crates/youtun4-core/src/playlist.rs:1267-1307 | a copy changes nothing outside the destination |
| PlaylistSync.SourceNotTarget | crates/youtun4-core/src/playlist.rs:1267-1307 | with disjoint source and destination, no path of the source tree is ever written |
| PlaylistSync.SkipStep | crates/youtun4-core/src/playlist.rs:1280-1283 | a `playlist.json` child adds nothing to the copy and cannot make it fail |
| PlaylistSync.FileStep | crates/youtun4-core/src/playlist.rs:1287-1294 | a file child is copied onto the joined destination path and nothing else; it can fail only on a directory there |
| PlaylistSync.DirStep | crates/youtun4-core/src/playlist.rs:1295-1302 | creating the child's destination directory and recursing into it copies exactly what the whole copy takes through that child |
| PlaylistSync.DirStepConflict | crates/youtun4-core/src/playlist.rs:1295-1302 | a clash inside the child's recursive copy is a clash of the whole copy, and every clash through the child is found there or at the child itself |
| PlaylistSync.ChildClash | crates/youtun4-core/src/playlist.rs:1287-1302 | a file child meeting a directory, or a directory child meeting a file, at its destination is a conflict |
| PlaylistSync.CreateDirFailure | crates/youtun4-core/src/playlist.rs:1296-1301 | creating the child directory under an existing directory fails only when a file sits at the child's destination |
| PlaylistSync.CreateDirAllStep | crates/youtun4-core/src/playlist.rs:1296 | creating the child directory changes nothing outside the destination |
| PlaylistSync.CopyDirectoryContents | crates/youtun4-core/src/playlist.rs:1267-1307 | nothing outside the destination changes; the copy succeeds exactly when no copied file meets a directory and no copied directory meets a file, and then the state is the full copy; failures are CopyFailed or CreateDirFailed |
| Transfer.Validate | crates/youtun4-core/src/transfer.rs:148-160 | options are accepted exactly when the chunk size lies between 4096 and 1048576 bytes, and each bound has its own Configuration message |
| Transfer.PresetsAreValid | crates/youtun4-core/src/transfer.rs:109-145 | the default, fast and reliable presets all validate; fast uses the largest chunk and no verification; reliable checks existing checksums and retries five times |
| Transfer.BuildItemsSpec | crates/youtun4-core/src/transfer.rs:675-714 | items are built exactly when every source exists and has a file name: one item per source, in order, sized from the source; otherwise the error of the first bad source |
| Transfer.BuildTransferItems | crates/youtun4-core/src/transfer.rs:675-714 | the loop returns exactly those items or that error |
| Transfer.SkipRule | crates/youtun4-core/src/transfer.rs:527-557 | with skip_existing, an existing destination of the source's size is skipped, and with checksum checking only when both digests agree; an unreadable checksum ends the run with an error; without skip_existing or a destination, nothing is skipped |
| Transfer.RetrySpec | crates/youtun4-core/src/transfer.rs:559-603 | an item fails exactly when all attempts up to max_retries fail, with the last attempt's error; otherwise it is copied by the first attempt that succeeds, with that attempt's digest as checksum when integrity is verified |
| Transfer.RecordAccounted | crates/youtun4-core/src/transfer.rs:539-634 | booking one item moves exactly one of the transferred, skipped and failed counters, by one, and keeps file lists and byte totals in step |
| Transfer.RunAccounted | crates/youtun4-core/src/transfer.rs:510-635 | the loop keeps the books straight; it stops early only on cancellation or on a first failure without continue_on_error, so it never sees two failures then |
| Transfer.TransferCounts | crates/youtun4-core/src/transfer.rs:454-672 | the total is the number of sources; the counters match the file lists and never exceed the total; byte totals are the sums over skipped and copied records; every failure records max_retries + 1 attempts |
| Transfer.TransferSuccess | crates/youtun4-core/src/transfer.rs:646 | the run succeeds exactly when it was not cancelled and no file failed |
| Transfer.TransferCompletes | crates/youtun4-core/src/transfer.rs:510-635 | a run that was not cancelled, and either continues on error or saw no failure, deals with every source |
| Transfer.TransferErrors | crates/youtun4-core/src/transfer.rs:464-485 | invalid options, a missing destination, a destination that is not a directory and a bad source each give their own error, in that order; any later error is a ReadFailed from a checksum |
| Transfer.RunErrors | crates/youtun4-core/src/transfer.rs:533-534 | the only error the loop itself can raise is a checksum ReadFailed |
| Transfer.CancelledBeforeStart | crates/youtun4-core/src/transfer.rs:497-502 | a cancellation visible before the loop gives an unsuccessful, cancelled result with nothing booked |
| Transfer.EmptySourcesSucceed | crates/youtun4-core/src/transfer.rs:480-502 | no sources and no cancellation give a successful, empty result |
| Transfer.TransferEngine.constructor | crates/youtun4-core/src/transfer.rs:410-414 | a new engine is not cancelled |
| Transfer.TransferEngine.Cancel | crates/youtun4-core/src/transfer.rs:423-425 | after cancel the flag is set |
| Transfer.TransferEngine.TransferFiles | crates/youtun4-core/src/transfer.rs:454-672 | the imperative run returns exactly the result of the specification and leaves the file system exactly as the specification's effect says, each item meeting the destination as the items before it left it |
| Transfer.TransferEngine.TransferPlaylist | crates/youtun4-core/src/transfer.rs:948-1006 | a missing source is NotFound, a non-directory source is InvalidPath, a folder without audio gives an empty result; otherwise its audio files, sorted by name, are transferred, and the file system ends as that transfer leaves it |
| Transfer.SortedNames | crates/youtun4-core/src/transfer.rs:980-996 | the audio names of a folder in strictly increasing order, each once |
| Transfer.Under | crates/youtun4-core/src/transfer.rs:980-1005 | one path per name, in order, inside the folder, whose file name is that name |
| Transfer.PlaylistSources | crates/youtun4-core/src/transfer.rs:971-1005 | the sorted listing is unique, and every item built from it copies an audio file of the folder to the same name in the destination |
| Transfer.TransferWithRetries | crates/youtun4-core/src/transfer.rs:559-603 | the retry loop decides exactly what the retry specification says |
| Transfer.ApplySpec | crates/youtun4-core/src/transfer.rs:718-881 | one item changes the file system at its own destination only and never creates or removes a directory; a copy into an existing directory leaves the source's bytes there, and a skip changes nothing |
| Transfer.EffectFrame | crates/youtun4-core/src/transfer.rs:510-635 | the loop changes nothing but the destinations of the items it reaches |
| Transfer.EffectKeepsDirs | crates/youtun4-core/src/transfer.rs:510-635 | the loop never creates or removes a directory |
| Transfer.RunLands | crates/youtun4-core/src/transfer.rs:510-635 | with distinct destinations that are no item's source, each inside a directory, every file the loop books has landed: a copied file's destination ends up holding its source's bytes as the loop first saw them, and a skipped file's destination is as it was |
| Transfer.TransferStaysInDest | crates/youtun4-core/src/transfer.rs:454-672 | `transfer_files` changes nothing outside the files directly inside the destination directory, and creates or removes no directory |
| Transfer.TransferLands | crates/youtun4-core/src/transfer.rs:454-672 | with sources of distinct names, none already directly inside the destination and none meeting a directory there, every booked file sits at the destination under its source's name, holding the source's bytes when copied and unchanged when skipped |
| Transfer.PlaylistStaysInDest | crates/youtun4-core/src/transfer.rs:948-1006 | `transfer_playlist` changes nothing outside the files directly inside the destination directory, and creates or removes no directory |
| Transfer.PlaylistLands | crates/youtun4-core/src/transfer.rs:948-1006 | for a folder other than the destination, every booked file is an audio file of the folder and sits at the destination under its name, holding the folder file's content when copied and unchanged when skipped |
| Cleanup.IsSuccess | crates/mp3youtube-core/src/cleanup.rs:140-142 | a cleanup succeeded exactly when nothing failed and the verification, when it ran, passed |
| Cleanup.IsProtected | crates/mp3youtube-core/src/cleanup.rs:205-228 | the loop over the custom patterns returns exactly the protection reason of the specification |
| Cleanup.PatternReasonSpec | crates/mp3youtube-core/src/cleanup.rs:219-225 | no reason exactly when no pattern, lower-cased, occurs in the lower-cased name; otherwise the reason names the first such pattern as written |
| Cleanup.ProtectedReasonSpec | crates/mp3youtube-core/src/cleanup.rs:205-228 | hidden names first, then system names compared lower-cased, then the custom patterns; an entry is unprotected exactly when all three tests pass |
| Cleanup.HiddenExample | crates/mp3youtube-core/src/cleanup.rs:205-212 | `.hidden` is protected as a hidden file by default; a path without a file name is never protected |
| Cleanup.SystemExample | crates/mp3youtube-core/src/cleanup.rs:197-217 | `Thumbs.db` is protected as a system file |
| Cleanup.Scope | crates/mp3youtube-core/src/cleanup.rs:273-279 | the walk covers exactly the entries strictly below the mount point, down to max_depth unless it is negative |
| Cleanup.Walk | crates/mp3youtube-core/src/cleanup.rs:282-285 | the walk lists every entry in scope exactly once |
| Cleanup.DeeperFirstTotal | crates/mp3youtube-core/src/cleanup.rs:288 | ordering by decreasing depth is a total preorder, so the sort is well defined |
| Cleanup.DeepestFirstWalk | crates/mp3youtube-core/src/cleanup.rs:282-288 | the sorted walk still lists every entry in scope exactly once, and never a shallower entry before a deeper one |
| Cleanup.PlanEntry | crates/mp3youtube-core/src/cleanup.rs:300-313 | a scheduled entry records its path and kind, no outcome yet, size 0 for a directory and the file size otherwise |
| Cleanup.ScanForCleanup | crates/mp3youtube-core/src/cleanup.rs:264-317 | every entry in scope is either scheduled or skipped with its reason, each once, and the schedule is deepest first |
| Cleanup.PlanPartitionsScope | crates/mp3youtube-core/src/cleanup.rs:290-314 | no path is both skipped and scheduled, and every path in scope is one of the two |
| Cleanup.ChildrenBeforeParents | crates/mp3youtube-core/src/cleanup.rs:288 | in the schedule, an entry inside a directory comes before that directory |
| Cleanup.ScopeDepth | crates/mp3youtube-core/src/cleanup.rs:273-279 | a negative max_depth scans everything below the mount point; a max_depth of k stops at depth k, and 0 scans nothing |
| Cleanup.Deletion | crates/mp3youtube-core/src/cleanup.rs:431-442 | every entry gets an outcome and is otherwise unchanged |
| Cleanup.DeletionRemovesReported | crates/mp3youtube-core/src/cleanup.rs:320-341 | afterwards the file system is the one before less exactly the paths reported removed |
| Cleanup.FilesAlwaysRemoved | crates/mp3youtube-core/src/cleanup.rs:320-341 | every scheduled regular file is removed |
| Cleanup.OutcomesPartition | crates/mp3youtube-core/src/cleanup.rs:431-442 | each entry is counted once, as a removed file, a removed directory or a failure; freed bytes never exceed the scheduled bytes |
| Cleanup.Unrun | crates/mp3youtube-core/src/cleanup.rs:307-313 | stripping the outcomes gives back the entries as scheduled |
| Cleanup.DeleteEntries | crates/mp3youtube-core/src/cleanup.rs:426-442 | the loop leaves exactly the deletion's state and outcomes, and its counters are the outcome counts |
| Cleanup.VerifyCleanup | crates/mp3youtube-core/src/cleanup.rs:344-355 | passes exactly when no entry reported removed still exists |
| Cleanup.VerificationPasses | crates/mp3youtube-core/src/cleanup.rs:445-449 | right after the deletion, the verification cannot fail |
| Cleanup.ProtectedSurvive | crates/mp3youtube-core/src/cleanup.rs:290-298 | skipped entries and everything out of scope survive the cleanup |
| Cleanup.ScheduledOrSkipped | crates/mp3youtube-core/src/cleanup.rs:290-314 | an unprotected entry in scope is scheduled as its plan entry; a protected one is skipped with its reason |
| Cleanup.UnprotectedWhenNoneSkipped | crates/mp3youtube-core/src/cleanup.rs:290-314 | with nothing skipped, every entry in scope is scheduled |
| Cleanup.FullCleanupEmptiesDevice | crates/mp3youtube-core/src/cleanup.rs:365-473 | with unlimited depth and nothing protected, the device keeps nothing below its mount point and every deletion succeeds |
| Cleanup.WritableCheck | crates/mp3youtube-core/src/cleanup.rs:231-260 | the device passes exactly when the mount point is a directory that is not read-only |
| Cleanup.AccessCheck | crates/mp3youtube-core/src/cleanup.rs:383-389 | a real run needs a writable mount point; a dry run only needs it to exist |
| Cleanup.AccessErrors | crates/mp3youtube-core/src/cleanup.rs:231-260 | NotMounted, then InvalidPath for a non-directory, then ReadOnly, in that order; a dry run on an existing mount point passes |
| Cleanup.CleanupDevice | crates/mp3youtube-core/src/cleanup.rs:365-473 | an access error changes nothing; otherwise the entries are exactly the scan's plan; a dry run reports the plan without touching anything; a real run deletes, counts and verifies as specified |
| Cleanup.RunPlan | crates/mp3youtube-core/src/cleanup.rs:426-472 | the real run keeps the plan and the skipped list, and reports the deletion's counts and the verification as asked |
| Cleanup.SuccessMeansAllRemoved | crates/mp3youtube-core/src/cleanup.rs:140-142 | once every entry has an outcome, no failure means every scheduled entry was removed |
| Cleanup.PreviewCleanup | crates/mp3youtube-core/src/cleanup.rs:505-513 | a preview never changes anything, succeeds exactly when the mount point exists, and is a dry-run report |
| Cleanup.CleanupDeviceVerified | crates/mp3youtube-core/src/cleanup.rs:486-500 | a device the detector no longer sees is refused with Disconnected before anything else; otherwise it is a cleanup of its mount point |
| Cleanup.Mp4KeptByAudioCleanup | crates/mp3youtube-core/src/cleanup.rs:534-537 | an `.mp4` file counts as audio in a playlist but is kept by the audio-only cleanup |
| Cleanup.UpperCaseMp3Cleaned | crates/mp3youtube-core/src/cleanup.rs:565-568 | the audio-only cleanup compares extensions lower-cased |
| Cleanup.CleanupAudioIsAudio | crates/mp3youtube-core/src/cleanup.rs:534-568 | every file the audio-only cleanup deletes is one the library also counts as audio |
| Cleanup.ScanAudioFiles | crates/mp3youtube-core/src/cleanup.rs:547-584 | directories are passed over; each file is skipped as protected, skipped as not audio, or scheduled, in walk order; nothing scheduled is a directory |
| Cleanup.CleanupAudioFilesOnly | crates/mp3youtube-core/src/cleanup.rs:519-647 | the same access errors; otherwise the audio plan is reported without deleting in a dry run, and deleted and counted in a real run, never with a directory |
| Cleanup.ReportAudioPlan | crates/mp3youtube-core/src/cleanup.rs:586-646 | the report keeps the plan and the skipped list, with no directories, as a dry run or a real run |
| Cleanup.AudioCleanupNeverFails | crates/mp3youtube-core/src/cleanup.rs:614-621 | a real audio-only run removes every file it scheduled |
| Sync.SyncPresets | crates/mp3youtube-core/src/sync.rs:111-161 | every sync preset hands the transfer engine options it accepts, and only the dry-run preset's cleanup merely reports |
| Sync.AddTransferResultTallies | crates/mp3youtube-core/src/sync.rs:435-445 | adding a playlist's result appends exactly one record with that name, leaves the earlier records, keeps the four totals equal to the sums over the records and touches nothing else |
| Sync.FinalizeSpec | crates/mp3youtube-core/src/sync.rs:448-462 | success exactly when nothing failed, nothing was cancelled and no error was recorded; success moves the phase to Completed, otherwise the phase stays; finalizing twice changes nothing more |
| Sync.VerifyDevice | crates/mp3youtube-core/src/sync.rs:848-869 | Disconnected, naming the rendered mount point, when the detector does not see it; NotMounted when it is not an existing directory; passes exactly otherwise |
| Sync.SpaceCheckUnknownPasses | crates/mp3youtube-core/src/sync.rs:877-898 | a mount point no disk reports passes the space check |
| Sync.SpaceCheckFails | crates/mp3youtube-core/src/sync.rs:877-892 | the check fails exactly when the first disk mounted there has less available than required, and reports that disk's figure |
| Sync.SpaceCheckNothing | crates/mp3youtube-core/src/sync.rs:872-899 | requiring zero bytes always passes |
| Sync.FirstMissingUnique | crates/mp3youtube-core/src/sync.rs:909-912 | there is only one first missing playlist |
| Sync.TotalBytes | crates/mp3youtube-core/src/sync.rs:902-916 | succeeds exactly when every requested playlist exists, with the sum of their audio bytes; otherwise NotFound for the first missing one |
| Sync.TotalBytesMissing | crates/mp3youtube-core/src/sync.rs:909-912 | the count stops at the first missing playlist with its NotFound |
| Sync.CleanupPhaseSpec | crates/mp3youtube-core/src/sync.rs:633-685 | no cleanup when disabled; a failed cleanup fails the sync only with abort_on_cleanup_failure; a successful one is recorded unless the re-verification fails; every error is the cleanup's or the re-verification's |
| Sync.PlaylistStepSpec | crates/mp3youtube-core/src/sync.rs:741-830 | a transfer error other than Cancelled fails the sync with that error; a Cancelled error or a cancelled transfer marks the result cancelled; a completed transfer's result is appended; totals stay tallied |
| Sync.TransferLoopSpec | crates/mp3youtube-core/src/sync.rs:702-831 | any successful end of the loop holds exactly the records of the first playlists, in request order, each the engine's report for that playlist against the device as the earlier playlists' copies left it, with the totals tallied |
| Sync.LoopStep | crates/mp3youtube-core/src/sync.rs:702-831 | one recorded playlist: its record is the engine's report, and the totals and the earlier records are kept |
| Sync.TransferLoopStaysInMount | crates/mp3youtube-core/src/sync.rs:702-831 | the playlists' transfers change nothing but the files directly inside the mount point, and create or remove no directory |
| Sync.PreflightSpec | crates/mp3youtube-core/src/sync.rs:603-619 | the checks run in order (connection, mount, playlists, free space) and the first that fails gives the error; passing them yields the total audio bytes |
| Sync.SyncCancelledAtStart | crates/mp3youtube-core/src/sync.rs:591-599 | a sync cancelled before it starts reports only the cancellation and never reaches the cleanup |
| Sync.SyncChecksFail | crates/mp3youtube-core/src/sync.rs:603-619 | a failed check ends the sync with that check's error, before any cleanup |
| Sync.SyncCleanupAborts | crates/mp3youtube-core/src/sync.rs:657-667 | with abort_on_cleanup_failure, a failed cleanup fails the sync with the cleanup's error |
| Sync.SyncOutcome | crates/mp3youtube-core/src/sync.rs:562-845 | a successful sync has tallied totals and one engine record per transferred playlist, each against the device as the cleanup and the earlier playlists left it; it succeeded exactly when not cancelled and nothing failed; Completed on success, Cancelled when cancelled, Verifying otherwise; a run not cancelled passed the checks and recorded every playlist |
| Sync.SyncNothing | crates/mp3youtube-core/src/sync.rs:562-845 | an empty request to a mounted device, with no cleanup and no cancellation, succeeds with no records |
| Sync.SyncOrchestrator.constructor | crates/mp3youtube-core/src/sync.rs:515-520 | a new orchestrator is not cancelled |
| Sync.SyncOrchestrator.Cancel | crates/mp3youtube-core/src/sync.rs:532-534 | after cancel the flag is set |
| Sync.SyncOrchestrator.CalculateTotalBytes | crates/mp3youtube-core/src/sync.rs:902-916 | the loop returns exactly the total-bytes specification |
| Sync.SyncOrchestrator.CleanupStage | crates/mp3youtube-core/src/sync.rs:919-938 | NotFound when no listed device is at the mount point; otherwise the verified cleanup of that device |
| Sync.SyncOrchestrator.TransferPhase | crates/mp3youtube-core/src/sync.rs:700-831 | the loop over the playlists returns exactly the transfer-loop specification and leaves the device as the playlists' transfers, one after another, leave it |
| Sync.SyncOrchestrator.Sync | crates/mp3youtube-core/src/sync.rs:562-845 | the imperative sync returns exactly the sync specification and leaves the file system as the specification's effect says; the cleanup it runs is the device cleanup, and a run that never reaches the cleanup or the transfers changes nothing |
| Integrity.MergedSpec | crates/youtun4-core/src/integrity.rs:211-218 | the merged manifest holds every name of either side, the incoming entry winning on a conflict and the older one kept otherwise |
| Integrity.MergedIdempotent | crates/youtun4-core/src/integrity.rs:211-218 | merging the same manifest a second time changes nothing, and merging an empty one changes nothing |
| Integrity.ChecksumManifest.constructor | crates/youtun4-core/src/integrity.rs:130-150 | a new manifest is empty, at the current version, created and updated now, with the given description |
| Integrity.ChecksumManifest.AddFile | crates/youtun4-core/src/integrity.rs:174-179 | the entry is stored under its own file name, replacing one of that name; the update time is now; nothing else changes |
| Integrity.ChecksumManifest.RemoveFile | crates/youtun4-core/src/integrity.rs:182-187 | returns the entry that was there, if any; afterwards the name is absent and the other entries are kept |
| Integrity.ChecksumManifest.GetFile | crates/youtun4-core/src/integrity.rs:191-193 | some entry exactly when the name is in the manifest, and then that entry |
| Integrity.ChecksumManifest.Merge | crates/youtun4-core/src/integrity.rs:211-218 | the loop over the other manifest leaves exactly the merged map, with the update time now |
| Integrity.MergeDone | crates/youtun4-core/src/integrity.rs:212-214 | once every incoming entry is inserted, the loop's map is the merged map |
| Integrity.AddThenGet | crates/youtun4-core/src/integrity.rs:174-193 | after adding an entry its name looks it up; other names look up as before |
| Integrity.RemoveThenAdd | crates/youtun4-core/src/integrity.rs:174-187 | removing then adding a name equals adding it; adding then removing equals removing; a removed name looks up nothing |
| Integrity.ManifestOfSpec | crates/youtun4-core/src/integrity.rs:157-171 | the manifest of a transfer holds a name exactly when some copied file with a checksum has it, with the entry of the last such file |
| Integrity.ManifestOfSkipsSkipped | crates/youtun4-core/src/integrity.rs:160-168 | a skipped file, or one without a checksum, adds no entry |
| Integrity.FromTransferResult | crates/youtun4-core/src/integrity.rs:157-171 | the loop builds exactly the manifest of the transfer, with the fixed description and the current time |
| Integrity.AddResultCounts | crates/youtun4-core/src/integrity.rs:484-505 | adding a verdict appends it, keeps total = passed + failed and the counters equal to the counts over the verdicts, and a failed verdict makes the result unsuccessful for good |
| Integrity.VerifyFileSpec | crates/youtun4-core/src/integrity.rs:701-762 | a missing file fails as not found; with sizes checked first a different size fails before any checksum; anything else that is not a file is a read error; a verdict passes exactly when the file's checksum (and, if checked, its size) matches |
| Integrity.MissingMessage | crates/youtun4-core/src/integrity.rs:368-385 | only the missing-file message counts as missing; the checksum-mismatch message does not |
| Integrity.VerifiedOverCounts | crates/youtun4-core/src/integrity.rs:775-857 | in any visiting order the counters agree with the verdicts, one verdict per visited entry and no extra files yet |
| Integrity.VerifiedOverResults | crates/youtun4-core/src/integrity.rs:810-856 | the i-th verdict is that of the i-th visited entry, a read error becoming a failed verdict with the error's text |
| Integrity.VerifiedOverSuccess | crates/youtun4-core/src/integrity.rs:484-505 | a verification succeeds exactly when every visited entry passed |
| Integrity.PassedInAll | crates/youtun4-core/src/integrity.rs:484-505 | the passed count is at most the number of verdicts, and equals it exactly when every verdict passed |
| Integrity.CompleteVisitCounts | crates/youtun4-core/src/integrity.rs:810-856 | visiting every manifest entry once counts every entry of the manifest |
| Integrity.FailFastAtMostOne | crates/youtun4-core/src/integrity.rs:829-850 | with fail_fast the visit stops at the first failure, so at most one verdict fails |
| Integrity.CheckExtraFiles | crates/youtun4-core/src/integrity.rs:880-930 | a read error exactly when the directory cannot be listed; otherwise every file the manifest does not list (and, with an extension filter, whose extension is listed) is added once and nothing else changes |
| Integrity.VerifyDirectory | crates/youtun4-core/src/integrity.rs:775-877 | visits manifest entries once each, stopping early only at a failure under fail_fast; the result is the verification of the visited entries, followed by the extra-file scan when enabled and the visit was complete |
| Integrity.CompleteVerification | crates/youtun4-core/src/integrity.rs:775-877 | a complete verification counts every manifest entry, total = passed + failed, missing within failed, and succeeds exactly when every entry's own verdict passed, extra files notwithstanding |
| Cache.DefaultConfig | crates/youtun4-core/src/cache.rs:120-131 | the default cache is on for metadata and thumbnails, holds 100 MiB, keeps entries seven days and uses the default directory |
| Cache.DisabledConfig | crates/youtun4-core/src/cache.rs:164-169 | the disabled configuration is the default with caching switched off |
| Cache.SatSub | crates/youtun4-core/src/cache.rs:536 | saturating subtraction: the exact difference when it is not negative, zero otherwise |
| Cache.IsExpired | crates/youtun4-core/src/cache.rs:192-198 | an entry is expired exactly when more than the TTL has passed since it was created; an entry dated in the future never is |
| Cache.ThumbnailKey | crates/youtun4-core/src/cache.rs:608-610 | the thumbnail key is the video id behind a fixed six-character prefix |
| Cache.ThumbnailKeyInjective | crates/youtun4-core/src/cache.rs:608-610 | distinct videos never share a thumbnail entry |
| Cache.MetadataKey | crates/youtun4-core/src/cache.rs:463-471 | the metadata key is the hash behind a fixed five-character prefix |
| Cache.KindsNeverCollide | crates/youtun4-core/src/cache.rs:463-471 | a metadata key is never a thumbnail key |
| Cache.ThumbnailPath | crates/youtun4-core/src/cache.rs:647 | a thumbnail is stored one level below the thumbnails directory |
| Cache.MetadataPath | crates/youtun4-core/src/cache.rs:524 | a metadata file is stored one level below the metadata directory |
| Cache.TotalRemove | crates/youtun4-core/src/cache.rs:794-805 | taking an entry out lowers the byte total by exactly its size, whichever entry is taken |
| Cache.TotalInsert | crates/youtun4-core/src/cache.rs:539-540 | inserting a new entry raises the total by exactly its size |
| Cache.Unexpired | crates/youtun4-core/src/cache.rs:934-964 | the unexpired entries are exactly the entries of the manifest that are not expired, unchanged |
| Cache.ExpiredKeys | crates/youtun4-core/src/cache.rs:937-942 | the expired keys are exactly the manifest's expired entries |
| Cache.CleanedToTargetSpec | crates/youtun4-core/src/cache.rs:829-892 | a cleanup to a target keeps no expired entry and ends within the target; it keeps every unexpired entry when they fit and, as written, evicts all of them when they do not |
| Cache.CleanupEvictsEverything | crates/youtun4-core/src/cache.rs:856-882 | two entries whose total is over the target are both evicted, though evicting one would have met the target |
| Cache.AfterEnsureSpace | crates/youtun4-core/src/cache.rs:808-826 | ensure_space leaves the manifest untouched when the new bytes fit |
| Cache.EnsureSpaceSucceedsBelowTarget | crates/youtun4-core/src/cache.rs:808-826 | when the target leaves room for the new bytes, ensure_space always makes them fit |
| Cache.WithoutTemp | crates/youtun4-core/src/cache.rs:747-764 | the temporary cleanup keeps exactly the entries that are not temporary |
| Cache.KindsPartition | crates/youtun4-core/src/cache.rs:427-456 | the counts of the three entry kinds add up to the number of entries |
| Cache.CacheManager.constructor | crates/youtun4-core/src/cache.rs:309-342 | a new cache has the given configuration, an empty manifest and the configured directory, or the default when none is set |
| Cache.CacheManager.Stats | crates/youtun4-core/src/cache.rs:427-456 | the stats count the entries by kind, the kinds add up to the total, and the byte figures are the manifest's |
| Cache.CacheManager.HasThumbnail | crates/youtun4-core/src/cache.rs:704-714 | true exactly when thumbnails are cached and the video's key holds an unexpired entry |
| Cache.CacheManager.RemoveKeys | crates/youtun4-core/src/cache.rs:842-853 | removes exactly the given keys, counts them, and the freed bytes plus the new total are the old total |
| Cache.CacheManager.RemoveEntry | crates/youtun4-core/src/cache.rs:794-805 | the key is gone and the total drops by its size when it was there; otherwise nothing changes |
| Cache.CacheManager.CleanupExpired | crates/youtun4-core/src/cache.rs:934-964 | exactly the expired entries go, counted as expired, and their bytes are reported freed |
| Cache.CacheManager.CleanupToTarget | crates/youtun4-core/src/cache.rs:829-892 | the manifest becomes the cleanup-to-target state; the stats count the expired entries and the evicted ones, and the freed bytes account for the drop in total |
| Cache.CacheManager.EnsureSpace | crates/youtun4-core/src/cache.rs:808-826 | succeeds exactly when the new bytes fit after the cleanup it may run; otherwise CacheFull with the sizes; the cleanup time changes only when a cleanup ran |
| Cache.CacheManager.Put | crates/youtun4-core/src/cache.rs:478-545 | after making room, stores the entry created and accessed now when it fits and the file was written; CacheFull when it does not fit, a write error when the write failed, and the total stays the sum of the entries |
| Cache.CacheManager.PutMetadata | crates/youtun4-core/src/cache.rs:478-545 | does nothing when metadata caching is off; otherwise stores the entry under the metadata key exactly when it fits and the write succeeded, within the size limit |
| Cache.CacheManager.PutThumbnail | crates/youtun4-core/src/cache.rs:617-668 | does nothing when thumbnail caching is off; otherwise stores it exactly when it fits and the write succeeded, after which the cache has the thumbnail |
| Cache.CacheManager.GetThumbnail | crates/youtun4-core/src/cache.rs:673-700 | returns the stored image exactly when the cache has the thumbnail and the file reads; a hit refreshes the access time, an unreadable file drops the entry, a miss changes nothing |
| Cache.CacheManager.GetMetadata | crates/youtun4-core/src/cache.rs:550-601 | returns the cached tags exactly when the entry is live and the file parses with the same modification time; a hit refreshes the access time, a stale or unreadable entry is dropped |
| Cache.CacheManager.Touch | crates/youtun4-core/src/cache.rs:201-206 | only the entry's access time changes, to now |
| Cache.CacheManager.CleanupTemp | crates/youtun4-core/src/cache.rs:738-787 | nothing happens without a temp directory; otherwise every temporary entry goes and the stats count them and the bytes freed, including the loose files |
| Cache.CacheManager.Cleanup | crates/youtun4-core/src/cache.rs:900-931 | nothing when the cache is off; above the threshold the manifest is cleaned to the target and the cleanup time is now; otherwise only expired entries go; orphan files count in the stats |
| Cache.CacheManager.Clear | crates/youtun4-core/src/cache.rs:1008-1035 | the manifest becomes empty with no recorded cleanup, and the stats report every entry and byte it held |
| Cache.CacheManager.UpdateConfig | crates/youtun4-core/src/cache.rs:1046-1054 | every setting is replaced except the cache directory, and the manifest is untouched |
| Cache.CountDone | crates/youtun4-core/src/cache.rs:432-438 | once every entry is visited, the three counters are the sizes of the three kinds |
| Queue.Rank | crates/mp3youtube-core/src/queue.rs:28-39 | priorities rank Low < Normal < High, Low lowest and High highest |
| Queue.DefaultQueueConfig | crates/mp3youtube-core/src/queue.rs:110-117 | by default two concurrent downloads, auto-start on, auto-retry off, three retries |
| Queue.Clamp | crates/mp3youtube-core/src/queue.rs:122-126 | the clamped value lies in the bounds, equals the input when it already does and the nearer bound otherwise |
| Queue.Validate | crates/mp3youtube-core/src/queue.rs:122-126 | the concurrency limit is brought within 1 to 4; a configuration already within it is unchanged; the other settings are kept |
| Queue.ValidateIdempotent | crates/mp3youtube-core/src/queue.rs:122-126 | validating twice is validating once |
| Queue.NewItem | crates/mp3youtube-core/src/queue.rs:220-240 | a new item is pending, added now, with no retries, task or timestamps |
| Queue.DisplayName | crates/mp3youtube-core/src/queue.rs:244-249 | the playlist name when there is one, the URL otherwise |
| Queue.FilterSplit | crates/mp3youtube-core/src/queue.rs:840-864 | an item list splits into the items kept and the items removed by a filter and its complement |
| Queue.StatusesPartition | crates/mp3youtube-core/src/queue.rs:410-435 | the five status counts add up to the number of items |
| Queue.IndexOf | crates/mp3youtube-core/src/queue.rs:400-407 | finds the first item with the id, or none exactly when no item has it |
| Queue.NextPendingIn | crates/mp3youtube-core/src/queue.rs:389-397 | picks a pending item whose priority is highest and, among those, added earliest, the first of equal ones; none exactly when nothing is pending |
| Queue.PendingOrderTotal | crates/mp3youtube-core/src/queue.rs:612-622 | the pending order (higher priority, then earlier) compares any two items |
| Queue.PendingHeadIsNext | crates/mp3youtube-core/src/queue.rs:389-397 | the first of the sorted pending items is the item the queue starts next, and there is none exactly when nothing is pending |
| Queue.DownloadQueueManager.constructor | crates/mp3youtube-core/src/queue.rs:457-466 | a new queue is empty, unpaused, numbering from zero, with the validated configuration |
| Queue.DownloadQueueManager.Add | crates/mp3youtube-core/src/queue.rs:471-486 | appends a new pending item under a fresh id that no earlier item has, and advances the id counter |
| Queue.DownloadQueueManager.AddBatch | crates/mp3youtube-core/src/queue.rs:491-510 | appends one new item per request, in order, with consecutive fresh ids, keeping the earlier items |
| Queue.DownloadQueueManager.Remove | crates/mp3youtube-core/src/queue.rs:516-536 | removes the item exactly when it exists and is not downloading; the other items keep their order |
| Queue.DownloadQueueManager.Cancel | crates/mp3youtube-core/src/queue.rs:541-567 | cancels the item, finished now, exactly when it exists and is not finished; nothing else changes |
| Queue.DownloadQueueManager.SetPriority | crates/mp3youtube-core/src/queue.rs:572-592 | changes only the item's priority, exactly when it exists and is not finished |
| Queue.DownloadQueueManager.MoveToFront | crates/mp3youtube-core/src/queue.rs:595-597 | changes only the item's priority, to high, exactly when it exists and is not finished; the queue order stays |
| Queue.DownloadQueueManager.GetItem | crates/mp3youtube-core/src/queue.rs:600-603 | some item exactly when one has the id, and then an item of the queue with that id |
| Queue.DownloadQueueManager.GetPendingItems | crates/mp3youtube-core/src/queue.rs:612-622 | exactly the pending items, sorted higher priority first and then by the time they were added |
| Queue.DownloadQueueManager.GetDownloadingItems | crates/mp3youtube-core/src/queue.rs:625-633 | exactly the items that are downloading |
| Queue.DownloadQueueManager.ActiveDownloadCount | crates/mp3youtube-core/src/queue.rs:379-384 | zero exactly when nothing is downloading, and never more than the number of items |
| Queue.DownloadQueueManager.Stats | crates/mp3youtube-core/src/queue.rs:410-435 | the counts by status over all items, adding up to the total |
| Queue.DownloadQueueManager.StartNext | crates/mp3youtube-core/src/queue.rs:653-690 | starts an item exactly when a download can start; that item is the next pending one, now downloading and started now; the active count rises by one and stays within the limit |
| Queue.DownloadQueueManager.MarkStarted | crates/mp3youtube-core/src/queue.rs:693-703 | records a task id on the item, if it exists, and nothing else |
| Queue.DownloadQueueManager.UpdateProgress | crates/mp3youtube-core/src/queue.rs:706-736 | overwrites only the progress fields that are given, on the item if it exists |
| Queue.DownloadQueueManager.MarkCompleted | crates/mp3youtube-core/src/queue.rs:739-757 | the item, if it exists and whatever its status, becomes completed, finished now |
| Queue.DownloadQueueManager.MarkFailed | crates/mp3youtube-core/src/queue.rs:760-778 | the item, if it exists and whatever its status, becomes failed with the error, finished now |
| Queue.DownloadQueueManager.Retry | crates/mp3youtube-core/src/queue.rs:783-811 | a failed item with retries left goes back to pending with one more retry, its run data cleared and the total video count kept; the retry count never passes the limit; anything else is unchanged |
| Queue.DownloadQueueManager.Pause | crates/mp3youtube-core/src/queue.rs:814-821 | the queue is paused and the items are untouched |
| Queue.DownloadQueueManager.Resume | crates/mp3youtube-core/src/queue.rs:824-831 | the queue is running again and the items are untouched |
| Queue.DownloadQueueManager.ClearFinished | crates/mp3youtube-core/src/queue.rs:840-849 | keeps exactly the unfinished items, in order, and reports how many went |
| Queue.DownloadQueueManager.ClearAll | crates/mp3youtube-core/src/queue.rs:852-864 | keeps exactly the downloading items, in order, and reports how many went |
| Queue.DownloadQueueManager.SetConfig | crates/mp3youtube-core/src/queue.rs:873-879 | the configuration becomes the validated one, nothing else changes |
| Queue.DownloadQueueManager.SetMaxConcurrent | crates/mp3youtube-core/src/queue.rs:882-892 | only the concurrency limit changes, clamped to 1 to 4 |
| Queue.IdsUnique | crates/mp3youtube-core/src/queue.rs:372-376 | two items with the same id are the same item |
| Thumbnail.YoutubeThumbnailUrl | crates/youtun4-core/src/thumbnail.rs:142-147 | the URL is the image host, then the video id, then the high-quality file name |
| Thumbnail.YoutubeThumbnailUrlMaxres | crates/youtun4-core/src/thumbnail.rs:153-155 | the URL is the image host, then the video id, then the full-resolution file name |
| Thumbnail.ThumbnailUrlsInjective | crates/youtun4-core/src/thumbnail.rs:142-155 | the video id is recovered from a URL of either quality, so distinct videos get distinct URLs |
| Thumbnail.QualitiesDiffer | crates/youtun4-core/src/thumbnail.rs:142-155 | a high-quality URL is never a full-resolution URL, whatever the two ids |
| Thumbnail.GetPlaylistThumbnailUrl | crates/youtun4-core/src/thumbnail.rs:162-169 | the playlist's own thumbnail when it has one, otherwise the first video's high-quality image, and none exactly when neither exists |
| Thumbnail.FetchThumbnailData | crates/youtun4-core/src/thumbnail.rs:105-136 | succeeds exactly when a response arrived with a non-empty body, returning that body; every failure is a network error |
| Thumbnail.ThumbnailManager.constructor | crates/youtun4-core/src/thumbnail.rs:28-33 | a new manager uses the given cache and the 30-second timeout |
| Thumbnail.ThumbnailManager.WithTimeout | crates/youtun4-core/src/thumbnail.rs:37-40 | the timeout becomes the given one |
| Thumbnail.ThumbnailManager.IsCached | crates/youtun4-core/src/thumbnail.rs:82-84 | true exactly when the cache has the video's thumbnail |
| Thumbnail.ThumbnailManager.GetThumbnailPath | crates/youtun4-core/src/thumbnail.rs:90-97 | a path exactly when the cache has the thumbnail, and then the thumbnail's file under the cache's thumbnails directory |
| Thumbnail.ThumbnailManager.GetCached | crates/youtun4-core/src/thumbnail.rs:76-78 | the stored image exactly when the cache has the thumbnail and its file reads |
| Thumbnail.ThumbnailManager.FetchAndCache | crates/youtun4-core/src/thumbnail.rs:54-71 | a cache hit returns the stored image; otherwise a failed fetch returns its error, and after a successful one the call returns the downloaded non-empty body exactly when caching thumbnails is off or the cache, once it has made room, can hold the body and the write succeeds; an enabled cache then has the thumbnail |
| Thumbnail.UrlExample | crates/youtun4-core/src/thumbnail.rs:177-180 | the high-quality URL of a known video is the one the tests expect |
| Thumbnail.MaxresUrlExample | crates/youtun4-core/src/thumbnail.rs:183-189 | the full-resolution URL of a known video is the one the tests expect |
| Thumbnail.PlaylistUrlExample | crates/youtun4-core/src/thumbnail.rs:198-204 | a playlist without its own thumbnail falls back to its first video's image |

## Left out

- Real I/O is not modelled: disk enumeration (sysinfo), `walkdir`, reading and writing files, the SHA-256 hasher, the ID3 reader, HTTP (reqwest) and the YouTube downloader. Each becomes an input: the `Fs` state, a `hash` function, `TagRead`, `FetchResponse`, and `attempt` outcomes.
- JSON (de)serialisation of `playlist.json` is the abstract `MetadataCodec`. Lemmas that read back what was written assume it round-trips (`RoundTrips`). The cache's and the integrity manifest's own `load`/`save` to disk are not modelled; their in-memory state is.
- File-system failures that do not follow from the shape of the tree are not modelled: permissions, a device pulled out mid-call, a full disk. `remove_file`, `remove_dir_all` and writes fail only where the tree makes them fail. Where the source reports such a failure, the model takes the outcome as an input: `written`, `readOnly`, `attempt`.
- Cleanup.CleanupDevice: the PermissionDenied error for a mount point whose metadata cannot be read is not modelled. `verify_device_writable`'s permission test is the `readOnly` input, and the ReadOnly error carries the mount point rather than its rendered name.
- Wall-clock time is not modelled. `SystemTime`/`Instant` readings are `now` parameters, and durations, elapsed times and retry sleeps are omitted.
- Queue.DownloadQueueManager.AddBatch: one `now` stands for the clock reading of every item in the batch, where the source reads the clock once per item.
- Floating point is not modelled: `usage_percentage`, progress percentages, transfer speed and ETA, `VerificationProgress::percentage`. The capacity thresholds (85 % and 95 %) are compared exactly on integers. The cache's `f64` cleanup threshold and target fractions are integer byte parameters.
- Integers are unbounded. Every `saturating_sub` is written out, but `u64` overflow of the running totals is not modelled.
- Concurrency is not modelled: the queue's `RwLock` and event channel, the device watcher's task and channel, and the progress callbacks. The shared cancellation flag becomes the first checkpoint at which a cancel is visible (`cancelAt`, `transferCancelAt`).
- Case folding is ASCII only, as `eq_ignore_ascii_case` does. `to_lowercase` on non-ASCII letters is not modelled.
- The platform mount, unmount and eject handlers in `crates/youtun4-core/src/device.rs` shell out to OS tools and are not part of this model.
- `ensure_folder_structure`, `repair_folder`, `import_folder`, `sync_to_device_with_progress` and `sync_to_device_cancellable` of the playlist manager are not part of this model. The last two repeat `sync_to_device`'s clear-then-copy with progress callbacks and a cancellation flag between files.
- `crates/youtun4-core/src/error.rs` and `crates/mp3youtube-core/src/error.rs` are not part of this model beyond the variants the core raises (`Errors`). Error message strings are kept only where the source tests their text.
- PlaylistStore.SyncToDevice: requires the playlist folder and the device to be disjoint trees. The source does not check this, and a device mounted inside the playlist, or the reverse, would make the clear destroy the source.
- Queue.DownloadQueueManager.GetPendingItems: the result is stated as sorted and a permutation of the pending items. The stability of `sort_by_key` among items with equal keys is not stated.
- Thumbnail.ThumbnailManager.FetchAndCache: when storing the fetched image in the cache fails, the contract says only that the call does not return the image. Which cache error it returns is not stated.
- Transfer.TransferEngine.TransferFiles: what a failed item leaves at its destination (nothing, or a partial file the source did not get to remove) is an input, `residue`, since it depends on the I/O step that failed.
- Playlist.Join: `..` is resolved lexically. Symbolic links and a `..` after a directory that does not exist, both of which the operating system resolves differently, are not modelled, and neither is `\` as a separator on Windows.
- Files.WellFormed: it does not require path components to be plain names. Paths the model builds from a playlist name go through `Playlist.Join`, which yields plain components (`Playlist.JoinNormal`); the others are built from components already in the tree or from sanitised names, which hold no `/`.
- Text.IsWhitespace: it is the Unicode `White_Space` set that `char::is_whitespace` uses, written out as code points; the Unicode tables themselves are not modelled.
- Metadata.ExtractMetadata: the ID3 reader's answer is an input. Its own parsing of frames is a foreign library.

## Findings

| source | as written | input that shows it | evidently intended | confidence | as-written member | corrected member |
|---|---|---|---|---|---|---|
| crates/youtun4-core/src/playlist.rs:345-362 | `delete_playlist` joins the name onto the library directory without validating it, so the empty name resolves to the library directory itself and `remove_dir_all` deletes every playlist | name `""` with any non-empty library | only a playlist folder is ever removed; names the validator refuses fail with InvalidName | not executed | PlaylistStore.DeleteEmptyNameRemovesLibrary | PlaylistStore.DeletePlaylistChecked |
| crates/mp3youtube-core/src/youtube.rs:172-177 | `sanitize_filename` cuts a name over 200 bytes with `trimmed[..200]`, which panics when byte 200 falls inside a multi-byte character | a video title of 67 `€` signs (201 bytes, three per sign) | keep the longest prefix of whole characters that fits in 200 bytes | not executed | YouTube.SanitizeFilenameAsWrittenPanicsOnEuros | YouTube.SanitizeFilename |
| crates/youtun4-core/src/playlist.rs:345-362 | `delete_playlist` also accepts an absolute name or one that climbs with `..`; `Path::join` then reaches a directory outside the library, which `remove_dir_all` deletes | name `/x` with a top-level directory `x`; name `../x` with a sibling `x` of the library | only a playlist folder is ever removed; names the validator refuses fail with InvalidName | not executed | PlaylistStore.DeleteAbsoluteNameRemovesOutside | PlaylistStore.DeletePlaylistChecked |
