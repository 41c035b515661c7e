/**
 * `PlaylistManager`: the playlist folders under a base directory, each with
 * its `playlist.json` sidecar, and the operations that list, create, delete,
 * inspect, annotate and sync them.
 *
 * Every operation works on the `Fs` it is given.  Read-only operations are
 * proved equal to a specification function over the entries; those that
 * write state exactly what changes.  Clock readings are the `now` parameter,
 * file-system timestamps are the `Stamps` parameter, and the ID3 tags a
 * track carries are the `tags` parameter.
 */
module PlaylistStore {
  import opened Wrappers
  import opened Text
  import opened Files
  import opened Errors
  import opened Metadata
  import opened Sorting
  import opened Playlist
  import opened PlaylistSync

  datatype PlaylistManager = PlaylistManager(basePath: Path)

  /** Creation and modification times the file system reports; a missing one reads as 0. */
  datatype Stamps = Stamps(created: map<Path, nat>, modified: map<Path, nat>)

  /** `fs::metadata(p).and_then(created/modified)`, falling back to 0 when `p` or its time is missing. */
  function StampOf(m: Entries, times: map<Path, nat>, p: Path): nat {
    if p in m && p in times then times[p] else 0
  }

  // ---------------------------------------------------------------------------
  // Sizes and counts over one directory level
  // ---------------------------------------------------------------------------

  /** `fs::metadata(path).map(|m| m.len()).unwrap_or(0)` */
  function SizeAt(m: Entries, q: Path): nat {
    if q in m then Size(m[q]) else 0
  }

  /** The total size of the children of `p` named in `names`. */
  ghost function SizeOf(m: Entries, p: Path, names: set<string>): nat
    decreases names
  {
    if names == {} then 0
    else
      var c :| c in names;
      SizeAt(m, p + [c]) + SizeOf(m, p, names - {c})
  }

  lemma {:induction false} SizeOfRemove(m: Entries, p: Path, names: set<string>, c: string)
    requires c in names
    ensures SizeOf(m, p, names) == SizeAt(m, p + [c]) + SizeOf(m, p, names - {c})
    decreases names
  {
    var d :| d in names && SizeOf(m, p, names) == SizeAt(m, p + [d]) + SizeOf(m, p, names - {d});
    if d != c {
      SizeOfRemove(m, p, names - {d}, c);
      SizeOfRemove(m, p, names - {c}, d);
      assert names - {d} - {c} == names - {c} - {d};
    }
  }

  lemma SizeOfAdd(m: Entries, p: Path, names: set<string>, c: string)
    requires c !in names
    ensures SizeOf(m, p, names + {c}) == SizeOf(m, p, names) + SizeAt(m, p + [c])
  {
    SizeOfRemove(m, p, names + {c}, c);
    assert names + {c} - {c} == names;
  }

  lemma {:induction false} SizeOfSubset(m: Entries, p: Path, a: set<string>, b: set<string>)
    requires a <= b
    ensures SizeOf(m, p, a) <= SizeOf(m, p, b)
    decreases b
  {
    if b != {} {
      var c :| c in b;
      SizeOfRemove(m, p, b, c);
      if c in a {
        SizeOfRemove(m, p, a, c);
        SizeOfSubset(m, p, a - {c}, b - {c});
      } else {
        SizeOfSubset(m, p, a, b - {c});
      }
    }
  }

  ghost predicate AreFilesIn(m: Entries, p: Path, r: set<string>) {
    forall c :: c in r <==> IsFile(m, p + [c])
  }

  lemma FilesInExist(m: Entries, p: Path)
    ensures exists r :: AreFilesIn(m, p, r)
  {
    assert AreFilesIn(m, p, set c | c in Children(m, p) && IsFile(m, p + [c]));
  }

  /** Files directly inside `p` (what `WalkDir` at depth 1 filtered by `is_file` yields). */
  ghost function FilesIn(m: Entries, p: Path): (r: set<string>)
    ensures forall c :: c in r <==> IsFile(m, p + [c])
  {
    FilesInExist(m, p);
    var r :| AreFilesIn(m, p, r);
    r
  }

  /** The audio files directly inside `p`. */
  ghost function AudioFilesIn(m: Entries, p: Path): (r: set<string>)
    ensures forall c :: c in r <==> IsFile(m, p + [c]) && IsAudioFile(c)
    ensures r <= FilesIn(m, p)
  {
    set c | c in FilesIn(m, p) && IsAudioFile(c)
  }

  /** The files that count as "other": neither audio nor the sidecar. */
  ghost function OtherFilesIn(m: Entries, p: Path): (r: set<string>)
    ensures forall c :: c in r <==> IsFile(m, p + [c]) && !IsAudioFile(c) && c != METADATA_FILE
    ensures r <= FilesIn(m, p) && r !! AudioFilesIn(m, p)
    ensures METADATA_FILE !in r
  {
    set c | c in FilesIn(m, p) && !IsAudioFile(c) && c != METADATA_FILE
  }

  /** `count_tracks`: the number of audio files directly inside `p` and their total size. */
  method CountTracks(fs: Fs, p: Path) returns (count: nat, totalBytes: nat)
    requires fs.Valid()
    ensures count == |AudioFilesIn(fs.entries, p)|
    ensures totalBytes == SizeOf(fs.entries, p, AudioFilesIn(fs.entries, p))
  {
    ghost var m := fs.entries;
    ghost var audio := AudioFilesIn(m, p);
    count, totalBytes := 0, 0;
    var todo := fs.ReadDir(p);
    ghost var all, done: set<string> := todo, {};
    while todo != {}
      invariant todo + done == all && todo !! done
      invariant count == |audio * done|
      invariant totalBytes == SizeOf(m, p, audio * done)
      decreases |todo|
    {
      var c :| c in todo;
      var q := p + [c];
      WalkStep(all, todo, done, c);
      VisitOne(m, p, audio, done, c);
      if IsFile(fs.entries, q) && IsAudioFile(c) {
        count := count + 1;
        totalBytes := totalBytes + SizeAt(fs.entries, q);
      }
      todo := todo - {c};
      done := done + {c};
    }
    WalkedAll(m, p, done);
  }

  /** `get_folder_statistics` for an existing folder, as the loop computes it. */
  ghost function StatisticsOf(m: Entries, p: Path): (s: FolderStatistics)
    ensures s.totalFiles == s.audioFiles + s.otherFiles
    ensures s.audioFiles == |AudioFilesIn(m, p)| && s.otherFiles == |OtherFilesIn(m, p)|
    ensures s.audioSizeBytes == SizeOf(m, p, AudioFilesIn(m, p))
    ensures s.totalSizeBytes == SizeOf(m, p, FilesIn(m, p))
    ensures s.hasMetadata <==> p + [METADATA_FILE] in m
  {
    var audio := |AudioFilesIn(m, p)|;
    var other := |OtherFilesIn(m, p)|;
    FolderStatistics(audio + other, audio, other, SizeOf(m, p, AudioFilesIn(m, p)),
      SizeOf(m, p, FilesIn(m, p)), p + [METADATA_FILE] in m)
  }

  /** The audio bytes are part of the total, and the sidecar is never an "other" file. */
  lemma StatisticsBounds(m: Entries, p: Path)
    ensures StatisticsOf(m, p).audioSizeBytes <= StatisticsOf(m, p).totalSizeBytes
    ensures StatisticsOf(m, p).totalFiles <= |FilesIn(m, p)|
  {
    SizeOfSubset(m, p, AudioFilesIn(m, p), FilesIn(m, p));
    var a := AudioFilesIn(m, p);
    var o := OtherFilesIn(m, p);
    assert a + o <= FilesIn(m, p);
    SubsetCard(a + o, FilesIn(m, p));
  }

  /** `get_folder_statistics(name)` */
  method GetFolderStatistics(fs: Fs, mgr: PlaylistManager, name: string) returns (r: Result<FolderStatistics, Error>)
    requires fs.Valid()
    ensures Join(mgr.basePath, name) !in fs.entries ==> r == Err(Playlist(PlaylistError.NotFound(name)))
    ensures Join(mgr.basePath, name) in fs.entries ==> r == Ok(StatisticsOf(fs.entries, Join(mgr.basePath, name)))
  {
    var p := Join(mgr.basePath, name);
    if p !in fs.entries {
      return Err(Playlist(PlaylistError.NotFound(name)));
    }
    ghost var m := fs.entries;
    var audioFiles, otherFiles, audioSize, totalSize := 0, 0, 0, 0;
    var hasMetadata := p + [METADATA_FILE] in fs.entries;
    var todo := fs.ReadDir(p);
    ghost var all, done: set<string> := todo, {};
    while todo != {}
      invariant todo + done == all && todo !! done
      invariant audioFiles == |AudioFilesIn(m, p) * done| && otherFiles == |OtherFilesIn(m, p) * done|
      invariant audioSize == SizeOf(m, p, AudioFilesIn(m, p) * done)
      invariant totalSize == SizeOf(m, p, FilesIn(m, p) * done)
      decreases |todo|
    {
      var c :| c in todo;
      var q := p + [c];
      WalkStep(all, todo, done, c);
      TallyStep(m, p, done, c);
      if IsFile(fs.entries, q) {
        var size := SizeAt(fs.entries, q);
        totalSize := totalSize + size;
        if IsAudioFile(c) {
          audioFiles := audioFiles + 1;
          audioSize := audioSize + size;
        } else if c != METADATA_FILE {
          otherFiles := otherFiles + 1;
        }
      }
      todo := todo - {c};
      done := done + {c};
    }
    WalkedAll(m, p, done);
    StatisticsOfIs(m, p, audioFiles, otherFiles, audioSize, totalSize, hasMetadata);
    return Ok(FolderStatistics(audioFiles + otherFiles, audioFiles, otherFiles, audioSize, totalSize, hasMetadata));
  }

  /** How visiting child `c` moves each running total of `get_folder_statistics`. */
  lemma TallyStep(m: Entries, p: Path, done: set<string>, c: string)
    requires c !in done
    ensures var f := IsFile(m, p + [c]); var a := f && IsAudioFile(c);
      SizeOf(m, p, FilesIn(m, p) * (done + {c})) == SizeOf(m, p, FilesIn(m, p) * done) + (if f then SizeAt(m, p + [c]) else 0) &&
      |AudioFilesIn(m, p) * (done + {c})| == |AudioFilesIn(m, p) * done| + (if a then 1 else 0) &&
      SizeOf(m, p, AudioFilesIn(m, p) * (done + {c})) == SizeOf(m, p, AudioFilesIn(m, p) * done) + (if a then SizeAt(m, p + [c]) else 0)
    ensures var o := IsFile(m, p + [c]) && !IsAudioFile(c) && c != METADATA_FILE;
      |OtherFilesIn(m, p) * (done + {c})| == |OtherFilesIn(m, p) * done| + (if o then 1 else 0)
  {
    VisitOne(m, p, FilesIn(m, p), done, c);
    VisitOne(m, p, AudioFilesIn(m, p), done, c);
    VisitOne(m, p, OtherFilesIn(m, p), done, c);
  }

  lemma StatisticsOfIs(m: Entries, p: Path, audio: nat, other: nat, audioSize: nat, totalSize: nat, hasMetadata: bool)
    requires audio == |AudioFilesIn(m, p)| && other == |OtherFilesIn(m, p)|
    requires audioSize == SizeOf(m, p, AudioFilesIn(m, p)) && totalSize == SizeOf(m, p, FilesIn(m, p))
    requires hasMetadata == (p + [METADATA_FILE] in m)
    ensures FolderStatistics(audio + other, audio, other, audioSize, totalSize, hasMetadata) == StatisticsOf(m, p)
  {
  }

  /** Once every child is visited, each filtered set has been seen whole. */
  lemma WalkedAll(m: Entries, p: Path, done: set<string>)
    requires forall c :: c in done <==> p + [c] in m
    ensures FilesIn(m, p) * done == FilesIn(m, p)
    ensures AudioFilesIn(m, p) * done == AudioFilesIn(m, p)
    ensures OtherFilesIn(m, p) * done == OtherFilesIn(m, p)
  {
  }

  lemma VisitOne(m: Entries, p: Path, s: set<string>, done: set<string>, c: string)
    requires c !in done
    ensures |s * (done + {c})| == |s * done| + (if c in s then 1 else 0)
    ensures SizeOf(m, p, s * (done + {c})) == SizeOf(m, p, s * done) + (if c in s then SizeAt(m, p + [c]) else 0)
  {
    if c in s {
      assert s * (done + {c}) == s * done + {c};
      SizeOfAdd(m, p, s * done, c);
    } else {
      assert s * (done + {c}) == s * done;
    }
  }

  // ---------------------------------------------------------------------------
  // The manager and its paths
  // ---------------------------------------------------------------------------

  /** `PlaylistManager::new(base)`: creates the base directory when nothing is there yet. */
  method NewManager(fs: Fs, basePath: Path) returns (r: Result<PlaylistManager, Error>)
    requires fs.Valid()
    modifies fs
    ensures fs.Valid()
    ensures r.Ok? ==> r.value == PlaylistManager(basePath) && basePath in fs.entries
    ensures basePath in old(fs.entries) ==> r.Ok? && fs.entries == old(fs.entries)
    ensures basePath !in old(fs.entries) ==>
      (r.Ok? <==> forall i | 0 <= i <= |basePath| :: !IsFile(old(fs.entries), basePath[..i])) &&
      (r.Ok? ==> fs.entries == AddDirs(old(fs.entries), basePath)) &&
      (r.Err? ==> r.error == FileSystem(FileSystemError.CreateDirFailed(basePath)) && fs.entries == old(fs.entries))
  {
    if basePath !in fs.entries {
      var ok := fs.CreateDirAll(basePath);
      if !ok {
        return Err(FileSystem(FileSystemError.CreateDirFailed(basePath)));
      }
    }
    return Ok(PlaylistManager(basePath));
  }

  /** `get_playlist_path(name)`: the folder path, provided something exists there. */
  function GetPlaylistPath(m: Entries, mgr: PlaylistManager, name: string): (r: Result<Path, Error>)
    ensures r.Ok? <==> Join(mgr.basePath, name) in m
    ensures r.Ok? ==> r.value == Join(mgr.basePath, name)
    ensures r.Err? ==> r.error == Playlist(PlaylistError.NotFound(name))
  {
    var p := Join(mgr.basePath, name);
    if p in m then Ok(p) else Err(Playlist(PlaylistError.NotFound(name)))
  }

  /**
   * A name the validator accepts, other than `.` and `..`, names a folder
   * directly inside the base directory, and different such names name
   * different folders.
   */
  lemma JoinPlainName(base: Path, a: string, b: string)
    requires ValidatePlaylistName(a).Ok? && a != "." && a != ".."
    requires ValidatePlaylistName(b).Ok? && b != "." && b != ".."
    ensures Join(base, a) == base + [a] && Parent(Join(base, a)) == base && FileName(Join(base, a)) == a
    ensures Join(base, a) == Join(base, b) ==> a == b
  {
    ValidatePlaylistNameAccepts(a);
    ValidatePlaylistNameAccepts(b);
    if Join(base, a) == Join(base, b) {
      assert (base + [a])[|base|] == a;
    }
  }

  // ---------------------------------------------------------------------------
  // Reading `playlist.json`
  // ---------------------------------------------------------------------------

  function MetadataPath(p: Path): Path {
    p + [METADATA_FILE]
  }

  /** `read_to_string` (ReadFailed) followed by `serde_json::from_str` (Serialization). */
  function ReadMetadata(m: Entries, codec: MetadataCodec, meta: Path): Result<SavedPlaylistMetadata, Error> {
    if !(IsFile(m, meta) && ValidUtf8(m[meta].content)) then Err(FileSystem(FileSystemError.ReadFailed(meta)))
    else match codec.decode(m[meta].content)
      case None => Err(Serialization)
      case Some(md) => Ok(md)
  }

  method LoadMetadata(fs: Fs, codec: MetadataCodec, meta: Path) returns (r: Result<SavedPlaylistMetadata, Error>)
    ensures r == ReadMetadata(fs.entries, codec, meta)
  {
    var text := fs.ReadToString(meta);
    if text.None? {
      return Err(FileSystem(FileSystemError.ReadFailed(meta)));
    }
    var decoded := codec.decode(text.value);
    if decoded.None? {
      return Err(Serialization);
    }
    return Ok(decoded.value);
  }

  /** What was written to `playlist.json` reads back unchanged, whatever else the file system holds. */
  lemma ReadMetadataAfterWrite(m: Entries, codec: MetadataCodec, meta: Path, md: SavedPlaylistMetadata)
    requires RoundTrips(codec)
    ensures ReadMetadata(m[meta := File(codec.encode(md))], codec, meta) == Ok(md)
  {
    assert ValidUtf8(codec.encode(md)) && codec.decode(codec.encode(md)) == Some(md);
  }

  // ---------------------------------------------------------------------------
  // get_playlist_metadata / list_playlists
  // ---------------------------------------------------------------------------

  /**
   * `get_playlist_metadata(path)`: the folder's name, the source URL and
   * creation time from `playlist.json` when one exists (its read and parse
   * errors propagate) or from the file system otherwise, the modification
   * time, and the audio tracks directly inside.
   */
  ghost function PlaylistMetadataOf(m: Entries, codec: MetadataCodec, stamps: Stamps, p: Path): (r: Result<PlaylistMetadata, Error>)
    ensures r.Ok? ==> p != [] && r.value.name == FileName(p)
  {
    if p == [] then Err(Playlist(PlaylistError.InvalidName("", "Invalid path")))
    else
      var head: Result<(Option<string>, nat), Error> :=
        if MetadataPath(p) in m then
          (match ReadMetadata(m, codec, MetadataPath(p))
            case Ok(saved) => Ok((saved.sourceUrl, saved.createdAt))
            case Err(e) => Err(e))
        else Ok((None, StampOf(m, stamps.created, p)));
      match head
      case Err(e) => Err(e)
      case Ok(h) =>
        var audio := AudioFilesIn(m, p);
        Ok(PlaylistMetadata(FileName(p), h.0, h.1, StampOf(m, stamps.modified, p), |audio|, SizeOf(m, p, audio)))
  }

  /**
   * The listing's counts are the folder statistics' audio counts, and only
   * an unreadable or unparsable `playlist.json` makes a folder fail.
   */
  lemma PlaylistMetadataOfSpec(m: Entries, codec: MetadataCodec, stamps: Stamps, p: Path)
    ensures var r := PlaylistMetadataOf(m, codec, stamps, p);
      (r.Err? <==> p == [] || (MetadataPath(p) in m && ReadMetadata(m, codec, MetadataPath(p)).Err?)) &&
      (r.Ok? ==> r.value.trackCount == StatisticsOf(m, p).audioFiles &&
                 r.value.totalBytes == StatisticsOf(m, p).audioSizeBytes &&
                 r.value.modifiedAt == StampOf(m, stamps.modified, p)) &&
      (r.Ok? && MetadataPath(p) in m ==>
         r.value.sourceUrl == ReadMetadata(m, codec, MetadataPath(p)).value.sourceUrl &&
         r.value.createdAt == ReadMetadata(m, codec, MetadataPath(p)).value.createdAt) &&
      (r.Ok? && MetadataPath(p) !in m ==> r.value.sourceUrl.None? && r.value.createdAt == StampOf(m, stamps.created, p))
  {
  }

  method GetPlaylistMetadata(fs: Fs, codec: MetadataCodec, stamps: Stamps, p: Path) returns (r: Result<PlaylistMetadata, Error>)
    requires fs.Valid()
    ensures r == PlaylistMetadataOf(fs.entries, codec, stamps, p)
  {
    if p == [] {
      return Err(Playlist(PlaylistError.InvalidName("", "Invalid path")));
    }
    var name := FileName(p);
    var meta := MetadataPath(p);
    var sourceUrl: Option<string>, createdAt: nat;
    if meta in fs.entries {
      var saved := LoadMetadata(fs, codec, meta);
      if saved.Err? {
        return Err(saved.error);
      }
      sourceUrl, createdAt := saved.value.sourceUrl, saved.value.createdAt;
    } else {
      sourceUrl, createdAt := None, StampOf(fs.entries, stamps.created, p);
    }
    var modifiedAt := StampOf(fs.entries, stamps.modified, p);
    var trackCount, totalBytes := CountTracks(fs, p);
    return Ok(PlaylistMetadata(name, sourceUrl, createdAt, modifiedAt, trackCount, totalBytes));
  }

  function NameOf(pm: PlaylistMetadata): string {
    pm.name
  }

  /** `pm` is what `list_playlists` reports for the subdirectory of `base` named after it. */
  ghost predicate ListedIn(m: Entries, codec: MetadataCodec, stamps: Stamps, base: Path, pm: PlaylistMetadata) {
    IsDir(m, base + [pm.name]) && PlaylistMetadataOf(m, codec, stamps, base + [pm.name]) == Ok(pm)
  }

  /**
   * `list_playlists()`: one record per subdirectory of the base directory
   * whose metadata can be read (the others are skipped), sorted by name.
   */
  method ListPlaylists(fs: Fs, mgr: PlaylistManager, codec: MetadataCodec, stamps: Stamps)
    returns (r: Result<seq<PlaylistMetadata>, Error>)
    requires fs.Valid()
    ensures r.Err? <==> !IsDir(fs.entries, mgr.basePath)
    ensures r.Err? ==> r.error == FileSystem(FileSystemError.ReadFailed(mgr.basePath))
    ensures r.Ok? ==> forall pm :: pm in r.value <==> ListedIn(fs.entries, codec, stamps, mgr.basePath, pm)
    ensures r.Ok? ==> StrictlyIncreasing(r.value, NameOf)
  {
    var base := mgr.basePath;
    if !IsDir(fs.entries, base) {
      return Err(FileSystem(FileSystemError.ReadFailed(base)));
    }
    ghost var m := fs.entries;
    var playlists: seq<PlaylistMetadata> := [];
    var todo := fs.ReadDir(base);
    ghost var all, done: set<string> := todo, {};
    while todo != {}
      invariant todo + done == all && todo !! done
      invariant forall pm :: pm in playlists <==> pm.name in done && ListedIn(m, codec, stamps, base, pm)
      invariant KeysDistinct(playlists, NameOf)
      decreases |todo|
    {
      var c :| c in todo;
      WalkStep(all, todo, done, c);
      var path := base + [c];
      if IsDir(fs.entries, path) {
        var md := GetPlaylistMetadata(fs, codec, stamps, path);
        if md.Ok? {
          assert md.value.name == c;
          ListStep(playlists, md.value, done, c);
          playlists := playlists + [md.value];
        }
      }
      todo := todo - {c};
      done := done + {c};
    }
    ByKeyTotal(NameOf);
    var sorted := SortBy(playlists, ByKey(NameOf));
    PermutationKeepsKeysDistinct(playlists, sorted, NameOf);
    SortedDistinctIsStrict(sorted, NameOf);
    assert forall pm :: pm in sorted <==> pm in multiset(playlists);
    return Ok(sorted);
  }

  /** Appending a record whose name was not seen yet keeps the names distinct. */
  lemma ListStep(s: seq<PlaylistMetadata>, pm: PlaylistMetadata, done: set<string>, c: string)
    requires KeysDistinct(s, NameOf) && forall x :: x in s ==> x.name in done
    requires pm.name == c && c !in done
    ensures KeysDistinct(s + [pm], NameOf)
  {
    assert forall i :: 0 <= i < |s| ==> s[i] in s;
  }

  /** The listing is determined by the file system: it does not depend on the order `read_dir` yields. */
  lemma ListPlaylistsDeterministic(m: Entries, codec: MetadataCodec, stamps: Stamps, base: Path, a: seq<PlaylistMetadata>, b: seq<PlaylistMetadata>)
    requires forall pm :: pm in a <==> ListedIn(m, codec, stamps, base, pm)
    requires forall pm :: pm in b <==> ListedIn(m, codec, stamps, base, pm)
    requires StrictlyIncreasing(a, NameOf) && StrictlyIncreasing(b, NameOf)
    ensures a == b
  {
    StrictlyIncreasingUnique(a, b, NameOf);
  }

  /**
   * A subdirectory whose metadata cannot be read is left out of the listing
   * instead of failing it; every readable one is listed.
   */
  lemma ListedExactlyReadable(m: Entries, codec: MetadataCodec, stamps: Stamps, base: Path, c: string)
    requires IsDir(m, base + [c])
    ensures PlaylistMetadataOf(m, codec, stamps, base + [c]).Err? ==>
      forall pm :: ListedIn(m, codec, stamps, base, pm) ==> pm.name != c
    ensures PlaylistMetadataOf(m, codec, stamps, base + [c]).Ok? ==>
      ListedIn(m, codec, stamps, base, PlaylistMetadataOf(m, codec, stamps, base + [c]).value)
  {
    var r := PlaylistMetadataOf(m, codec, stamps, base + [c]);
    if r.Ok? {
      assert FileName(base + [c]) == c;
    }
  }

  // ---------------------------------------------------------------------------
  // list_tracks / list_tracks_with_options
  // ---------------------------------------------------------------------------

  function FileNameOf(t: TrackInfo): string {
    t.fileName
  }

  /**
   * The record for audio file `c` of folder `p`: its size (0 when unreadable)
   * and, when asked for, its tags (`extract_metadata(path).ok()`).
   */
  function TrackOf(m: Entries, p: Path, c: string, includeMetadata: bool, readTag: Path -> TagRead): TrackInfo {
    var q := p + [c];
    var md := if includeMetadata then
        (match ExtractMetadata(m, q, readTag) case Ok(v) => Some(v) case Err(_) => None)
      else None;
    TrackInfo(c, q, SizeAt(m, q), md)
  }

  /** `t` is the record of an audio file directly inside `p`. */
  ghost predicate IsTrackIn(m: Entries, p: Path, includeMetadata: bool, readTag: Path -> TagRead, t: TrackInfo) {
    IsFile(m, p + [t.fileName]) && IsAudioFile(t.fileName) && t == TrackOf(m, p, t.fileName, includeMetadata, readTag)
  }

  /**
   * `list_tracks_with_options(name, include_metadata)`: NotFound for a
   * missing playlist; otherwise one record per regular audio file directly
   * inside the folder, sorted by file name.
   */
  method ListTracksWithOptions(fs: Fs, mgr: PlaylistManager, name: string, includeMetadata: bool, readTag: Path -> TagRead)
    returns (r: Result<seq<TrackInfo>, Error>)
    requires fs.Valid()
    ensures r.Err? <==> Join(mgr.basePath, name) !in fs.entries
    ensures r.Err? ==> r.error == Playlist(PlaylistError.NotFound(name))
    ensures r.Ok? ==> forall t :: t in r.value <==> IsTrackIn(fs.entries, Join(mgr.basePath, name), includeMetadata, readTag, t)
    ensures r.Ok? ==> StrictlyIncreasing(r.value, FileNameOf)
    ensures r.Ok? ==> |r.value| == |AudioFilesIn(fs.entries, Join(mgr.basePath, name))|
  {
    var path :- GetPlaylistPath(fs.entries, mgr, name);
    ghost var m := fs.entries;
    ghost var audio := AudioFilesIn(m, path);
    var tracks: seq<TrackInfo> := [];
    var todo := fs.ReadDir(path);
    ghost var all, done: set<string> := todo, {};
    while todo != {}
      invariant todo + done == all && todo !! done
      invariant forall t :: t in tracks <==> t.fileName in done && IsTrackIn(m, path, includeMetadata, readTag, t)
      invariant KeysDistinct(tracks, FileNameOf)
      invariant |tracks| == |audio * done|
      decreases |todo|
    {
      var c :| c in todo;
      WalkStep(all, todo, done, c);
      VisitOne(m, path, audio, done, c);
      var q := path + [c];
      if IsFile(fs.entries, q) && IsAudioFile(c) {
        var t := TrackOf(fs.entries, path, c, includeMetadata, readTag);
        TrackStep(tracks, t, done, c);
        tracks := tracks + [t];
      }
      todo := todo - {c};
      done := done + {c};
    }
    WalkedAll(m, path, done);
    ByKeyTotal(FileNameOf);
    var sorted := SortBy(tracks, ByKey(FileNameOf));
    PermutationKeepsKeysDistinct(tracks, sorted, FileNameOf);
    SortedDistinctIsStrict(sorted, FileNameOf);
    assert forall t :: t in sorted <==> t in multiset(tracks);
    assert |sorted| == |multiset(sorted)|;
    return Ok(sorted);
  }

  lemma TrackStep(s: seq<TrackInfo>, t: TrackInfo, done: set<string>, c: string)
    requires KeysDistinct(s, FileNameOf) && forall x :: x in s ==> x.fileName in done
    requires t.fileName == c && c !in done
    ensures KeysDistinct(s + [t], FileNameOf)
  {
    assert forall i :: 0 <= i < |s| ==> s[i] in s;
  }

  /** `list_tracks(name)`: the same listing without tags. */
  method ListTracks(fs: Fs, mgr: PlaylistManager, name: string, readTag: Path -> TagRead) returns (r: Result<seq<TrackInfo>, Error>)
    requires fs.Valid()
    ensures r.Err? <==> Join(mgr.basePath, name) !in fs.entries
    ensures r.Ok? ==> forall t :: t in r.value <==> IsTrackIn(fs.entries, Join(mgr.basePath, name), false, readTag, t)
    ensures r.Ok? ==> StrictlyIncreasing(r.value, FileNameOf)
    ensures r.Ok? ==> forall t :: t in r.value ==> t.metadata.None?
  {
    r := ListTracksWithOptions(fs, mgr, name, false, readTag);
  }

  /** The track listing and the folder statistics count the same audio files. */
  lemma TrackListingMatchesStatistics(m: Entries, p: Path, tracks: seq<TrackInfo>, includeMetadata: bool, readTag: Path -> TagRead)
    requires forall t :: t in tracks <==> IsTrackIn(m, p, includeMetadata, readTag, t)
    requires |tracks| == |AudioFilesIn(m, p)|
    ensures |tracks| == StatisticsOf(m, p).audioFiles
    ensures forall c :: c in AudioFilesIn(m, p) <==> exists t :: t in tracks && t.fileName == c
  {
    forall c | c in AudioFilesIn(m, p)
      ensures exists t :: t in tracks && t.fileName == c
    {
      assert IsTrackIn(m, p, includeMetadata, readTag, TrackOf(m, p, c, includeMetadata, readTag));
    }
  }

  // ---------------------------------------------------------------------------
  // validate_folder
  // ---------------------------------------------------------------------------

  const NO_FOLDER_ISSUE: string := "Folder does not exist"
  const UNREADABLE_ISSUE: string := "Could not read metadata file"
  const INVALID_JSON_ISSUE: string := "Metadata file contains invalid JSON"
  const MISSING_METADATA_ISSUE: string := "Missing playlist.json metadata file"
  const NO_AUDIO_ISSUE: string := "No audio files found"

  /** The issues found in `playlist.json` of an existing folder. */
  function MetadataIssues(m: Entries, codec: MetadataCodec, meta: Path): seq<string> {
    if meta !in m then [MISSING_METADATA_ISSUE]
    else match ReadMetadata(m, codec, meta)
      case Ok(_) => []
      case Err(e) => if e == Serialization then [INVALID_JSON_ISSUE] else [UNREADABLE_ISSUE]
  }

  /** `validate_folder(name)` for the folder at `p`. */
  ghost function ValidationOf(m: Entries, codec: MetadataCodec, p: Path): FolderValidationResult {
    if !IsDir(m, p) then FolderValidationResult(false, false, false, 0, [NO_FOLDER_ISSUE])
    else
      var meta := MetadataPath(p);
      var count := |AudioFilesIn(m, p)|;
      FolderValidationResult(true, meta in m, meta in m && ReadMetadata(m, codec, meta).Ok?, count,
        MetadataIssues(m, codec, meta) + (if count == 0 then [NO_AUDIO_ISSUE] else []))
  }

  /**
   * A folder is valid exactly when no issue is reported, and each field
   * says what it names: the folder is a directory, the sidecar exists and
   * parses, and the audio count is the statistics' count.
   */
  lemma ValidationOfSpec(m: Entries, codec: MetadataCodec, p: Path)
    ensures var v := ValidationOf(m, codec, p);
      (v.IsValid() <==> v.issues == []) &&
      (v.folderExists <==> IsDir(m, p)) &&
      (v.folderExists ==> (v.hasMetadata <==> MetadataPath(p) in m)) &&
      (v.metadataValid <==> IsDir(m, p) && ReadMetadata(m, codec, MetadataPath(p)).Ok?) &&
      (v.folderExists ==> v.audioFileCount == StatisticsOf(m, p).audioFiles) &&
      (v.folderExists ==> (NO_AUDIO_ISSUE in v.issues <==> v.audioFileCount == 0)) &&
      1 <= |v.issues| + (if v.IsValid() then 1 else 0) <= 3
  {
    var v := ValidationOf(m, codec, p);
    if IsDir(m, p) {
      var meta := MetadataPath(p);
      if ReadMetadata(m, codec, meta).Ok? {
        assert meta in m;
      }
      assert |MetadataIssues(m, codec, meta)| <= 1;
      assert NO_AUDIO_ISSUE !in MetadataIssues(m, codec, meta);
    }
  }

  method ValidateFolder(fs: Fs, mgr: PlaylistManager, codec: MetadataCodec, name: string) returns (v: FolderValidationResult)
    requires fs.Valid()
    ensures v == ValidationOf(fs.entries, codec, Join(mgr.basePath, name))
  {
    var path := Join(mgr.basePath, name);
    if !IsDir(fs.entries, path) {
      return FolderValidationResult(false, false, false, 0, [NO_FOLDER_ISSUE]);
    }
    var issues: seq<string> := [];
    var meta := MetadataPath(path);
    var hasMetadata := meta in fs.entries;
    var metadataValid := false;
    if hasMetadata {
      var saved := LoadMetadata(fs, codec, meta);
      if saved.Ok? {
        metadataValid := true;
      } else if saved.error == Serialization {
        issues := issues + [INVALID_JSON_ISSUE];
      } else {
        issues := issues + [UNREADABLE_ISSUE];
      }
    } else {
      issues := issues + [MISSING_METADATA_ISSUE];
    }
    var audioFileCount, _ := CountTracks(fs, path);
    if audioFileCount == 0 {
      issues := issues + [NO_AUDIO_ISSUE];
    }
    return FolderValidationResult(true, hasMetadata, metadataValid, audioFileCount, issues);
  }

  // ---------------------------------------------------------------------------
  // get_saved_metadata and the operations that rewrite `playlist.json`
  // ---------------------------------------------------------------------------

  /** `playlist.json` is not an audio file, so writing it never changes the track counts. */
  lemma MetadataFileIsNotAudio()
    ensures !IsAudioFile(METADATA_FILE)
  {
    ExtensionExample(METADATA_FILE, 8);
    assert METADATA_FILE[9..] == "json";
    assert Lower("json") == "json";
  }

  /** What `get_saved_metadata` returns for a folder without `playlist.json`. */
  function DefaultMetadata(trackCount: nat, totalSizeBytes: nat, now: nat): SavedPlaylistMetadata {
    SavedPlaylistMetadata(None, None, None, None, now, now, trackCount, totalSizeBytes, [])
  }

  /**
   * `get_saved_metadata(name)`: NotFound for a missing playlist; the parsed
   * `playlist.json` when there is one (its read and parse errors propagate);
   * otherwise a default record with the folder's current audio counts.
   */
  ghost function SavedMetadataOf(m: Entries, codec: MetadataCodec, mgr: PlaylistManager, name: string, now: nat)
    : Result<SavedPlaylistMetadata, Error>
  {
    var p := Join(mgr.basePath, name);
    if p !in m then Err(Playlist(PlaylistError.NotFound(name)))
    else if MetadataPath(p) in m then ReadMetadata(m, codec, MetadataPath(p))
    else
      var audio := AudioFilesIn(m, p);
      Ok(DefaultMetadata(|audio|, SizeOf(m, p, audio), now))
  }

  method GetSavedMetadata(fs: Fs, mgr: PlaylistManager, codec: MetadataCodec, name: string, now: nat)
    returns (r: Result<SavedPlaylistMetadata, Error>)
    requires fs.Valid()
    ensures r == SavedMetadataOf(fs.entries, codec, mgr, name, now)
  {
    var path := Join(mgr.basePath, name);
    if path !in fs.entries {
      return Err(Playlist(PlaylistError.NotFound(name)));
    }
    var meta := MetadataPath(path);
    if meta in fs.entries {
      r := LoadMetadata(fs, codec, meta);
    } else {
      var trackCount, totalSizeBytes := CountTracks(fs, path);
      r := Ok(DefaultMetadata(trackCount, totalSizeBytes, now));
    }
  }

  /**
   * `fs::write(p/playlist.json, to_string_pretty(md))` from `m0` to `m1`:
   * it succeeds when `p` is a directory and the sidecar is not one, and then
   * the sidecar holds the encoded record and nothing else changed;
   * otherwise WriteFailed and nothing changed.
   */
  ghost predicate WroteMetadata(m0: Entries, m1: Entries, codec: MetadataCodec, p: Path, md: SavedPlaylistMetadata,
                                r: Result<SavedPlaylistMetadata, Error>) {
    var meta := MetadataPath(p);
    (r.Ok? <==> IsDir(m0, p) && !IsDir(m0, meta)) &&
    (r.Ok? ==> r.value == md && m1 == m0[meta := File(codec.encode(md))]) &&
    (r.Err? ==> r.error == FileSystem(FileSystemError.WriteFailed(meta)) && m1 == m0)
  }

  method SaveMetadata(fs: Fs, codec: MetadataCodec, p: Path, md: SavedPlaylistMetadata) returns (r: Result<SavedPlaylistMetadata, Error>)
    requires fs.Valid()
    modifies fs
    ensures fs.Valid()
    ensures WroteMetadata(old(fs.entries), fs.entries, codec, p, md, r)
  {
    var meta := MetadataPath(p);
    assert Parent(meta) == p;
    var ok := fs.WriteFile(meta, codec.encode(md));
    if !ok {
      return Err(FileSystem(FileSystemError.WriteFailed(meta)));
    }
    return Ok(md);
  }

  /** A record written by any of the operations below is what `get_saved_metadata` then returns. */
  lemma SavedMetadataReadsBack(m0: Entries, m1: Entries, codec: MetadataCodec, mgr: PlaylistManager, name: string,
                               md: SavedPlaylistMetadata, r: Result<SavedPlaylistMetadata, Error>, now: nat)
    requires RoundTrips(codec)
    requires WroteMetadata(m0, m1, codec, Join(mgr.basePath, name), md, r) && r.Ok?
    ensures SavedMetadataOf(m1, codec, mgr, name, now) == Ok(md)
  {
    ReadMetadataAfterWrite(m0, codec, MetadataPath(Join(mgr.basePath, name)), md);
  }

  lemma {:induction false} SizeOfCongruent(m1: Entries, m2: Entries, p: Path, names: set<string>)
    requires forall c :: c in names ==> SizeAt(m1, p + [c]) == SizeAt(m2, p + [c])
    ensures SizeOf(m1, p, names) == SizeOf(m2, p, names)
    decreases names
  {
    if names != {} {
      var c :| c in names;
      SizeOfRemove(m1, p, names, c);
      SizeOfRemove(m2, p, names, c);
      SizeOfCongruent(m1, m2, p, names - {c});
    }
  }

  /** Writing the sidecar leaves the folder's audio files and their sizes as they were. */
  lemma SidecarWriteKeepsAudio(m: Entries, p: Path, data: Bytes)
    ensures AudioFilesIn(m[MetadataPath(p) := File(data)], p) == AudioFilesIn(m, p)
    ensures SizeOf(m[MetadataPath(p) := File(data)], p, AudioFilesIn(m, p)) == SizeOf(m, p, AudioFilesIn(m, p))
  {
    MetadataFileIsNotAudio();
    var m1 := m[MetadataPath(p) := File(data)];
    assert forall c :: (p + [c])[|p|] == c;
    assert forall c :: IsAudioFile(c) ==> p + [c] != MetadataPath(p);
    SizeOfCongruent(m1, m, p, AudioFilesIn(m, p));
  }

  /** `md` with the folder's current audio counts and the modification time `now`. */
  ghost function Recounted(md: SavedPlaylistMetadata, m: Entries, p: Path, now: nat): SavedPlaylistMetadata {
    var audio := AudioFilesIn(m, p);
    md.(trackCount := |audio|, totalSizeBytes := SizeOf(m, p, audio), modifiedAt := now)
  }

  /**
   * After a recounting write the recorded counts are those of the folder as
   * it now stands: the folder statistics agree with `playlist.json`.
   */
  lemma RecountedMatchesStatistics(m0: Entries, m1: Entries, codec: MetadataCodec, p: Path, md: SavedPlaylistMetadata,
                                   r: Result<SavedPlaylistMetadata, Error>, now: nat)
    requires WroteMetadata(m0, m1, codec, p, Recounted(md, m0, p, now), r) && r.Ok?
    ensures r.value.trackCount == StatisticsOf(m1, p).audioFiles
    ensures r.value.totalSizeBytes == StatisticsOf(m1, p).audioSizeBytes
    ensures r.value.modifiedAt == now && r.value.tracks == md.tracks
  {
    SidecarWriteKeepsAudio(m0, p, codec.encode(Recounted(md, m0, p, now)));
  }

  /**
   * `update_playlist_metadata_full(name, ...)`: NotFound, or the read error
   * of `get_saved_metadata`; otherwise the patched record is written back
   * with modification time `now`.
   */
  method UpdatePlaylistMetadataFull(fs: Fs, mgr: PlaylistManager, codec: MetadataCodec, name: string,
                                    title: Option<string>, description: Option<string>,
                                    sourceUrl: Option<Option<string>>, thumbnailUrl: Option<Option<string>>, now: nat)
    returns (r: Result<SavedPlaylistMetadata, Error>)
    requires fs.Valid()
    modifies fs
    ensures fs.Valid()
    ensures var saved := SavedMetadataOf(old(fs.entries), codec, mgr, name, now);
      (saved.Err? ==> r == saved && fs.entries == old(fs.entries)) &&
      (saved.Ok? ==> WroteMetadata(old(fs.entries), fs.entries, codec, Join(mgr.basePath, name),
                                   ApplyPatch(saved.value, title, description, sourceUrl, thumbnailUrl, now), r))
  {
    var path := Join(mgr.basePath, name);
    if path !in fs.entries {
      return Err(Playlist(PlaylistError.NotFound(name)));
    }
    var metadata :- GetSavedMetadata(fs, mgr, codec, name, now);
    metadata := ApplyPatch(metadata, title, description, sourceUrl, thumbnailUrl, now);
    r := SaveMetadata(fs, codec, path, metadata);
  }

  /** `refresh_playlist_stats(name)`: rewrite the record with the folder's current counts. */
  method RefreshPlaylistStats(fs: Fs, mgr: PlaylistManager, codec: MetadataCodec, name: string, now: nat)
    returns (r: Result<SavedPlaylistMetadata, Error>)
    requires fs.Valid()
    modifies fs
    ensures fs.Valid()
    ensures var saved := SavedMetadataOf(old(fs.entries), codec, mgr, name, now);
      (saved.Err? ==> r == saved && fs.entries == old(fs.entries)) &&
      (saved.Ok? ==> WroteMetadata(old(fs.entries), fs.entries, codec, Join(mgr.basePath, name),
                                   Recounted(saved.value, old(fs.entries), Join(mgr.basePath, name), now), r))
  {
    var path := Join(mgr.basePath, name);
    if path !in fs.entries {
      return Err(Playlist(PlaylistError.NotFound(name)));
    }
    var metadata :- GetSavedMetadata(fs, mgr, codec, name, now);
    var trackCount, totalSizeBytes := CountTracks(fs, path);
    metadata := metadata.(trackCount := trackCount, totalSizeBytes := totalSizeBytes, modifiedAt := now);
    r := SaveMetadata(fs, codec, path, metadata);
  }

  /**
   * `add_track_metadata(name, track)`: the track replaces the entry with the
   * same file name or is appended, and the counts are refreshed.
   */
  method AddTrackMetadata(fs: Fs, mgr: PlaylistManager, codec: MetadataCodec, name: string, track: SavedTrackMetadata, now: nat)
    returns (r: Result<SavedPlaylistMetadata, Error>)
    requires fs.Valid()
    modifies fs
    ensures fs.Valid()
    ensures var saved := SavedMetadataOf(old(fs.entries), codec, mgr, name, now);
      (saved.Err? ==> r == saved && fs.entries == old(fs.entries)) &&
      (saved.Ok? ==> WroteMetadata(old(fs.entries), fs.entries, codec, Join(mgr.basePath, name),
                                   Recounted(saved.value.(tracks := UpsertTrack(saved.value.tracks, track)),
                                             old(fs.entries), Join(mgr.basePath, name), now), r))
  {
    var path := Join(mgr.basePath, name);
    if path !in fs.entries {
      return Err(Playlist(PlaylistError.NotFound(name)));
    }
    var metadata :- GetSavedMetadata(fs, mgr, codec, name, now);
    var tracks := metadata.tracks;
    var found := FindTrack(tracks, track.fileName);
    if found.Some? {
      tracks := tracks[found.value := track];
    } else {
      tracks := tracks + [track];
    }
    var trackCount, totalSizeBytes := CountTracks(fs, path);
    metadata := metadata.(tracks := tracks, trackCount := trackCount, totalSizeBytes := totalSizeBytes, modifiedAt := now);
    r := SaveMetadata(fs, codec, path, metadata);
  }

  /** `add_tracks_metadata(name, tracks)`: each new track upserted in turn, then one recount and write. */
  method AddTracksMetadata(fs: Fs, mgr: PlaylistManager, codec: MetadataCodec, name: string, news: seq<SavedTrackMetadata>, now: nat)
    returns (r: Result<SavedPlaylistMetadata, Error>)
    requires fs.Valid()
    modifies fs
    ensures fs.Valid()
    ensures var saved := SavedMetadataOf(old(fs.entries), codec, mgr, name, now);
      (saved.Err? ==> r == saved && fs.entries == old(fs.entries)) &&
      (saved.Ok? ==> WroteMetadata(old(fs.entries), fs.entries, codec, Join(mgr.basePath, name),
                                   Recounted(saved.value.(tracks := UpsertTracks(saved.value.tracks, news)),
                                             old(fs.entries), Join(mgr.basePath, name), now), r))
  {
    var path := Join(mgr.basePath, name);
    if path !in fs.entries {
      return Err(Playlist(PlaylistError.NotFound(name)));
    }
    var metadata :- GetSavedMetadata(fs, mgr, codec, name, now);
    var tracks := metadata.tracks;
    for i := 0 to |news|
      invariant tracks == UpsertTracks(metadata.tracks, news[..i])
    {
      var track := news[i];
      var found := FindTrack(tracks, track.fileName);
      if found.Some? {
        tracks := tracks[found.value := track];
      } else {
        tracks := tracks + [track];
      }
      assert news[..i + 1][..i] == news[..i];
    }
    assert news[..|news|] == news;
    var trackCount, totalSizeBytes := CountTracks(fs, path);
    metadata := metadata.(tracks := tracks, trackCount := trackCount, totalSizeBytes := totalSizeBytes, modifiedAt := now);
    r := SaveMetadata(fs, codec, path, metadata);
  }

  /**
   * After `add_track_metadata` succeeds, reading the playlist back shows the
   * track, with file names still unique when they were before.
   */
  lemma AddedTrackReadsBack(m0: Entries, m1: Entries, codec: MetadataCodec, mgr: PlaylistManager, name: string,
                            track: SavedTrackMetadata, r: Result<SavedPlaylistMetadata, Error>, now: nat, later: nat)
    requires RoundTrips(codec) && SavedMetadataOf(m0, codec, mgr, name, now).Ok?
    requires var saved := SavedMetadataOf(m0, codec, mgr, name, now).value;
      WroteMetadata(m0, m1, codec, Join(mgr.basePath, name),
                    Recounted(saved.(tracks := UpsertTrack(saved.tracks, track)), m0, Join(mgr.basePath, name), now), r)
    requires r.Ok?
    ensures SavedMetadataOf(m1, codec, mgr, name, later).Ok?
    ensures track in SavedMetadataOf(m1, codec, mgr, name, later).value.tracks
    ensures UniqueNames(SavedMetadataOf(m0, codec, mgr, name, now).value.tracks) ==>
      UniqueNames(SavedMetadataOf(m1, codec, mgr, name, later).value.tracks)
  {
    var saved := SavedMetadataOf(m0, codec, mgr, name, now).value;
    SavedMetadataReadsBack(m0, m1, codec, mgr, name, r.value, r, later);
    UpsertTrackContents(saved.tracks, track);
    if UniqueNames(saved.tracks) {
      UpsertTrackKeepsNamesUnique(saved.tracks, track);
    }
  }

  // ---------------------------------------------------------------------------
  // create_playlist / delete_playlist
  // ---------------------------------------------------------------------------

  /** The record `create_playlist` writes: no title or description, no tracks, both times `now`. */
  function InitialMetadata(sourceUrl: Option<string>, now: nat): SavedPlaylistMetadata {
    SavedPlaylistMetadata(None, None, sourceUrl, None, now, now, 0, 0, [])
  }

  /** The state `create_playlist` leaves: the folder and its ancestors, and the initial sidecar. */
  ghost function Created(m: Entries, codec: MetadataCodec, p: Path, sourceUrl: Option<string>, now: nat): Entries {
    AddDirs(m, p)[MetadataPath(p) := File(codec.encode(InitialMetadata(sourceUrl, now)))]
  }

  /**
   * `create_playlist(name, source_url)`: the name is validated first, an
   * existing path gives AlreadyExists, then the folder is created and its
   * `playlist.json` written.
   */
  method CreatePlaylist(fs: Fs, mgr: PlaylistManager, codec: MetadataCodec, name: string, sourceUrl: Option<string>, now: nat)
    returns (r: Result<Path, Error>)
    requires fs.Valid()
    modifies fs
    ensures fs.Valid()
    ensures ValidatePlaylistName(name).Err? ==>
      r == Err(ValidatePlaylistName(name).error) && fs.entries == old(fs.entries)
    ensures ValidatePlaylistName(name).Ok? && Join(mgr.basePath, name) in old(fs.entries) ==>
      r == Err(Playlist(PlaylistError.AlreadyExists(name))) && fs.entries == old(fs.entries)
    ensures ValidatePlaylistName(name).Ok? && Join(mgr.basePath, name) !in old(fs.entries) ==>
      var p := Join(mgr.basePath, name);
      (r.Ok? <==> forall i | 0 <= i <= |p| :: !IsFile(old(fs.entries), p[..i])) &&
      (r.Ok? ==> r.value == p && fs.entries == Created(old(fs.entries), codec, p, sourceUrl, now)) &&
      (r.Err? ==> r.error == FileSystem(FileSystemError.CreateDirFailed(p)) && fs.entries == old(fs.entries))
  {
    var valid := ValidatePlaylistName(name);
    if valid.Err? {
      return Err(valid.error);
    }
    var path := Join(mgr.basePath, name);
    if path in fs.entries {
      return Err(Playlist(PlaylistError.AlreadyExists(name)));
    }
    ghost var m0 := fs.entries;
    var created := fs.CreateDirAll(path);
    if !created {
      return Err(FileSystem(FileSystemError.CreateDirFailed(path)));
    }
    var meta := MetadataPath(path);
    FreshFolderIsEmpty(m0, path, METADATA_FILE);
    assert Parent(meta) == path;
    var written := fs.WriteFile(meta, codec.encode(InitialMetadata(sourceUrl, now)));
    assert written;
    return Ok(path);
  }

  /** Nothing lies inside a path that does not exist, nor inside it once it is created. */
  lemma FreshFolderIsEmpty(m: Entries, p: Path, c: string)
    requires WellFormed(m) && p !in m
    ensures p + [c] !in m && p + [c] !in AddDirs(m, p)
  {
    assert p + [c] in m ==> IsDir(m, p);
    assert !IsPrefix(p + [c], p);
  }

  /**
   * A freshly created playlist is a folder whose sidecar reads back as the
   * initial record, holding no tracks, and whose only validation issue is
   * the missing audio.
   */
  lemma CreatedPlaylistState(m: Entries, codec: MetadataCodec, mgr: PlaylistManager, name: string,
                             sourceUrl: Option<string>, now: nat, later: nat)
    requires WellFormed(m) && RoundTrips(codec) && Join(mgr.basePath, name) !in m
    ensures var p := Join(mgr.basePath, name); var m1 := Created(m, codec, p, sourceUrl, now);
      IsDir(m1, p) && IsFile(m1, MetadataPath(p)) &&
      SavedMetadataOf(m1, codec, mgr, name, later) == Ok(InitialMetadata(sourceUrl, now)) &&
      AudioFilesIn(m1, p) == {} &&
      ValidationOf(m1, codec, p) == FolderValidationResult(true, true, true, 0, [NO_AUDIO_ISSUE])
  {
    var p := Join(mgr.basePath, name);
    var m1 := Created(m, codec, p, sourceUrl, now);
    ReadMetadataAfterWrite(AddDirs(m, p), codec, MetadataPath(p), InitialMetadata(sourceUrl, now));
    MetadataFileIsNotAudio();
    forall c
      ensures IsFile(m1, p + [c]) ==> c == METADATA_FILE
    {
      FreshFolderIsEmpty(m, p, c);
      assert (p + [c])[|p|] == c;
    }
  }

  /**
   * `delete_playlist(name)` as written: NotFound when nothing is at the
   * joined path, otherwise `remove_dir_all` on it.  The name is not
   * validated.
   */
  method DeletePlaylist(fs: Fs, mgr: PlaylistManager, name: string) returns (r: Result<(), Error>)
    requires fs.Valid()
    modifies fs
    ensures fs.Valid()
    ensures var p := Join(mgr.basePath, name);
      (p !in old(fs.entries) ==> r == Err(Playlist(PlaylistError.NotFound(name))) && fs.entries == old(fs.entries)) &&
      (p in old(fs.entries) ==>
        (r.Ok? <==> p != [] && IsDir(old(fs.entries), p)) &&
        (r.Ok? ==> fs.entries == RemoveTree(old(fs.entries), p)) &&
        (r.Err? ==> r.error == FileSystem(FileSystemError.DeleteFailed(p)) && fs.entries == old(fs.entries)))
  {
    var path := Join(mgr.basePath, name);
    if path !in fs.entries {
      return Err(Playlist(PlaylistError.NotFound(name)));
    }
    var ok := fs.RemoveDirAll(path);
    if !ok {
      return Err(FileSystem(FileSystemError.DeleteFailed(path)));
    }
    return Ok(());
  }

  /**
   * The empty name joins to the base directory itself, so deleting the
   * playlist "" removes the whole library: every playlist goes with it.
   */
  lemma DeleteEmptyNameRemovesLibrary(m: Entries, base: Path, other: string)
    requires IsDir(m, base) && base != [] && base + [other] in m
    ensures Join(base, "") in m && IsDir(m, Join(base, ""))
    ensures base !in RemoveTree(m, Join(base, "")) && base + [other] !in RemoveTree(m, Join(base, ""))
  {
    assert (base + [other])[..|base|] == base;
  }

  /**
   * An absolute name replaces the base directory, so deleting the playlist
   * `/x` removes the top-level directory `x`, which lies outside the library.
   */
  lemma DeleteAbsoluteNameRemovesOutside(m: Entries, base: Path, x: string)
    requires NormalComponent(x) && IsDir(m, [x]) && base != [] && base[0] != x
    ensures Join(base, "/" + x) == [x] && !StrictlyBelow(base, [x])
    ensures IsDir(m, Join(base, "/" + x)) && [x] !in RemoveTree(m, Join(base, "/" + x))
  {
    JoinAbsolute(base, x);
    assert [x][..0] == [];
  }

  /** A name that climbs with `..` reaches a sibling of the library. */
  lemma DeleteParentNameRemovesSibling(base: Path, x: string)
    requires NormalComponent(x) && base != []
    ensures Join(base, "../" + x) == Parent(base) + [x]
    ensures !StrictlyBelow(base, Join(base, "../" + x))
  {
    JoinNested(base, "..", x);
    assert ".." + "/" + x == "../" + x;
    assert |Parent(base) + [x]| == |base|;
  }

  /**
   * `delete_playlist` with the name checked as `create_playlist` checks it:
   * a name the validator refuses is refused, and `.` and `..`, which no
   * playlist can carry, are not found.  A successful delete then removes one
   * folder directly inside the base directory and nothing outside it.
   */
  method DeletePlaylistChecked(fs: Fs, mgr: PlaylistManager, name: string) returns (r: Result<(), Error>)
    requires fs.Valid()
    modifies fs
    ensures fs.Valid()
    ensures ValidatePlaylistName(name).Err? ==> r == Err(ValidatePlaylistName(name).error) && fs.entries == old(fs.entries)
    ensures ValidatePlaylistName(name).Ok? ==>
      var p := mgr.basePath + [name];
      (name == "." || name == ".." || p !in old(fs.entries) ==>
         r == Err(Playlist(PlaylistError.NotFound(name))) && fs.entries == old(fs.entries)) &&
      (r.Ok? <==> name != "." && name != ".." && IsDir(old(fs.entries), p)) &&
      (r.Ok? ==> fs.entries == RemoveTree(old(fs.entries), p))
    ensures r.Ok? ==> forall q :: q in old(fs.entries) && !StrictlyBelow(mgr.basePath, q) ==> q in fs.entries
  {
    var valid := ValidatePlaylistName(name);
    if valid.Err? {
      return Err(valid.error);
    }
    if name == "." || name == ".." {
      return Err(Playlist(PlaylistError.NotFound(name)));
    }
    JoinPlainName(mgr.basePath, name, name);
    r := DeletePlaylist(fs, mgr, name);
    RemovedInsideBase(old(fs.entries), mgr.basePath, name);
  }

  lemma RemovedInsideBase(m: Entries, base: Path, name: string)
    ensures forall q :: q in m && !StrictlyBelow(base, q) ==> q in RemoveTree(m, base + [name])
  {
    forall q
      ensures IsPrefix(base + [name], q) ==> StrictlyBelow(base, q)
    {
      if |base| < |q| {
        assert q[..|base|] == q[..|base| + 1][..|base|];
      }
    }
  }

  // ---------------------------------------------------------------------------
  // sync_to_device
  // ---------------------------------------------------------------------------

  /** The device after a successful sync of the folder `p`: cleared, then the copy. */
  ghost function Synced(m: Entries, p: Path, device: Path): Entries {
    Copied(Cleared(m, device), p, device)
  }

  /**
   * `sync_to_device(name, device)`: playlist NotFound is reported before
   * device NotMounted; then the device is cleared, and only then is the
   * playlist copied onto it.
   */
  method SyncToDevice(fs: Fs, mgr: PlaylistManager, name: string, device: Path) returns (r: Result<(), Error>)
    requires fs.Valid() && Disjoint(Join(mgr.basePath, name), device)
    modifies fs
    ensures fs.Valid()
    ensures var p := Join(mgr.basePath, name); var m0 := old(fs.entries);
      (p !in m0 ==> r == Err(Playlist(PlaylistError.NotFound(name))) && fs.entries == m0) &&
      (p in m0 && device !in m0 ==> r == Err(Device(DeviceError.NotMounted(device))) && fs.entries == m0) &&
      (p in m0 && device in m0 && !IsDir(m0, device) ==>
         r == Err(FileSystem(FileSystemError.ReadFailed(device))) && fs.entries == m0) &&
      (p in m0 && IsDir(m0, device) ==>
         (r.Ok? <==> !Conflict(Cleared(m0, device), p, device)) &&
         (r.Ok? ==> fs.entries == Synced(m0, p, device)) &&
         (r.Err? ==> SameOutside(m0, fs.entries, device) &&
                     r.error.FileSystem? && (r.error.fs.CopyFailed? || r.error.fs.CreateDirFailed?)))
  {
    var path :- GetPlaylistPath(fs.entries, mgr, name);
    if device !in fs.entries {
      return Err(Device(DeviceError.NotMounted(device)));
    }
    ghost var m0 := fs.entries;
    var cleared := ClearDirectory(fs, device);
    if cleared.Err? {
      return cleared;
    }
    ghost var m1 := fs.entries;
    r := CopyDirectoryContents(fs, path, device);
    ClearedSameOutside(m0, device);
    SameOutsideTrans(m0, m1, fs.entries, device);
  }

  lemma ClearedSameOutside(m: Entries, d: Path)
    ensures SameOutside(m, Cleared(m, d), d)
  {
  }

  lemma ClearedWellFormed(m: Entries, d: Path)
    requires WellFormed(m)
    ensures WellFormed(Cleared(m, d))
  {
    var r := Cleared(m, d);
    forall q, c | q + [c] in r
      ensures IsDir(r, q)
    {
      assert IsDir(m, q);
      if StrictlyBelow(d, q) {
        assert (q + [c])[..|d|] == q[..|d|] && (q + [c])[|d|] == q[|d|];
      }
    }
  }

  /** Paths inside the playlist are untouched by clearing the device. */
  lemma SourceSurvivesClear(m: Entries, p: Path, device: Path, rel: Path)
    requires Disjoint(p, device)
    ensures p + rel in Cleared(m, device) <==> p + rel in m
  {
    assert (p + rel)[..|p|] == p;
    SourceNotTarget(m, p, device, p + rel, {});
  }

  /**
   * After a sync, the device's entries outside the kept names (hidden
   * entries and the system folder) are exactly the playlist's entries that
   * have no `playlist.json` on their path, with the playlist's contents:
   * nothing the device held before survives among them.
   */
  lemma SyncedDevice(m: Entries, p: Path, device: Path, q: Path)
    requires WellFormed(m) && Disjoint(p, device)
    requires StrictlyBelow(device, q) && !KeptOnClear(q[|device|])
    ensures q in Synced(m, p, device) <==> p + q[|device|..] in m && NoMetadataFile(q[|device|..])
    ensures q in Synced(m, p, device) ==> Synced(m, p, device)[q] == m[p + q[|device|..]]
  {
    var m1 := Cleared(m, device);
    var rel := q[|device|..];
    ClearedWellFormed(m, device);
    SourceSurvivesClear(m, p, device, rel);
    SourceSurvivesClear(m, p, device, [rel[0]]);
    assert q == device + rel;
    if p + rel in m1 {
      WellFormedAncestor(m1, p + rel, |p| + 1);
      assert (p + rel)[..|p| + 1] == p + [rel[0]];
      assert (p + rel)[..|p + rel|] == p + rel;
    }
  }

  /** Hidden entries and the system folder on the device survive a sync. */
  lemma SyncKeepsHidden(m: Entries, p: Path, device: Path, q: Path)
    requires StrictlyBelow(device, q) && KeptOnClear(q[|device|]) && q in m
    ensures q in Synced(m, p, device)
  {
  }

  /** Every entry of the playlist that has no `playlist.json` on its path lands on the device. */
  lemma SyncCopiesPlaylist(m: Entries, p: Path, device: Path, rel: Path)
    requires WellFormed(m) && Disjoint(p, device)
    requires rel != [] && p + rel in m && NoMetadataFile(rel)
    ensures device + rel in Synced(m, p, device) && Synced(m, p, device)[device + rel] == m[p + rel]
  {
    var m1 := Cleared(m, device);
    ClearedWellFormed(m, device);
    SourceSurvivesClear(m, p, device, rel);
    SourceSurvivesClear(m, p, device, [rel[0]]);
    WellFormedAncestor(m1, p + rel, |p| + 1);
    assert (p + rel)[..|p| + 1] == p + [rel[0]];
    assert (p + rel)[..|p + rel|] == p + rel;
    assert (device + rel)[|device|..] == rel && (device + rel)[..|device|] == device;
  }

  /** No `playlist.json` sits at the top of the device after a sync. */
  lemma SyncedHasNoSidecar(m: Entries, p: Path, device: Path)
    requires WellFormed(m) && Disjoint(p, device)
    ensures device + [METADATA_FILE] !in Synced(m, p, device)
  {
    var q := device + [METADATA_FILE];
    assert q[..|device|] == device && q[|device|] == METADATA_FILE && q[|device|..] == [METADATA_FILE];
    assert METADATA_FILE[..1] == "p";
    assert !EqIgnoreCase(METADATA_FILE, "System Volume Information");
    SyncedDevice(m, p, device, q);
  }

  /**
   * Syncing playlist `b` after playlist `a` leaves exactly `b`'s entries
   * among the device's entries that are not kept: nothing of `a` remains.
   */
  lemma SecondSyncReplacesFirst(m: Entries, a: Path, b: Path, device: Path, m1: Entries, q: Path)
    requires WellFormed(m) && Disjoint(a, device) && Disjoint(b, device)
    requires m1 == Synced(m, a, device) && WellFormed(m1)
    requires StrictlyBelow(device, q) && !KeptOnClear(q[|device|])
    ensures q in Synced(m1, b, device) <==> b + q[|device|..] in m && NoMetadataFile(q[|device|..])
  {
    SyncedDevice(m1, b, device, q);
    ClearedSameOutside(m, device);
    CopiedOnSameOutside(Cleared(m, device), a, device, Children(Cleared(m, device), a));
    SameOutsideTrans(m, Cleared(m, device), m1, device);
    var s := b + q[|device|..];
    assert s[..|b|] == b;
    SourceNotTarget(m, b, device, s, {});
  }
}
