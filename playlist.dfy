/**
 * Playlist folders: the names the library accepts, which files count as
 * audio tracks, the records kept in `playlist.json`, and the pure updates the
 * manager applies to those records.
 */
module Playlist {
  import opened Wrappers
  import opened Text
  import opened Files
  import opened Errors
  import opened Metadata
  import YouTube

  /** The per-folder metadata file; it is never counted as a track nor copied to a device. */
  const METADATA_FILE: string := "playlist.json"

  /** Longest accepted playlist name, in UTF-8 bytes. */
  const MAX_NAME_BYTES: nat := 255

  const AUDIO_EXTENSIONS: seq<string> := ["mp3", "m4a", "mp4", "wav", "flac", "ogg", "aac"]

  /** Device names Windows reserves; compared against the upper-cased playlist name. */
  const RESERVED_NAMES: seq<string> := [
    "CON", "PRN", "AUX", "NUL",
    "COM1", "COM2", "COM3", "COM4", "COM5", "COM6", "COM7", "COM8", "COM9",
    "LPT1", "LPT2", "LPT3", "LPT4", "LPT5", "LPT6", "LPT7", "LPT8", "LPT9"
  ]

  /** `s.split('/')`: the text between separators, empty pieces included. */
  function SplitSlash(s: string): (r: seq<string>)
    ensures |r| >= 1
  {
    if s == [] then [[]]
    else
      var rest := SplitSlash(s[1..]);
      if s[0] == '/' then [[]] + rest else [[s[0]] + rest[0]] + rest[1..]
  }

  /** A name without separators is one piece. */
  lemma {:induction false} SplitSlashPlain(s: string)
    requires '/' !in s
    ensures SplitSlash(s) == [s]
  {
    if s != [] {
      assert '/' !in s[1..];
      SplitSlashPlain(s[1..]);
      assert [s[0]] + s[1..] == s;
    }
  }

  /**
   * Pushing one piece of a name onto a path, resolved the way the operating
   * system resolves the path when it is used: an empty piece and `.` stay,
   * `..` climbs to the parent (the root is its own parent).
   */
  function Step(base: Path, c: string): (p: Path)
    ensures c != "" && c != "." && c != ".." ==> p == base + [c]
    ensures c == ".." && base != [] ==> p == Parent(base)
  {
    if c == "" || c == "." then base
    else if c == ".." then (if base == [] then [] else Parent(base))
    else base + [c]
  }

  function Resolve(base: Path, pieces: seq<string>): Path
    decreases |pieces|
  {
    if pieces == [] then base else Resolve(Step(base, pieces[0]), pieces[1..])
  }

  /**
   * `base.join(name)`, resolved: the name is split at `/` and its pieces are
   * pushed in turn; a name that starts with `/` is absolute and replaces `base`.
   */
  function Join(base: Path, name: string): (p: Path)
    ensures '/' !in name ==> p == Step(base, name)
  {
    var pieces := SplitSlash(name);
    assert '/' !in name ==> pieces == [name] && pieces[1..] == [] by {
      if '/' !in name { SplitSlashPlain(name); }
    }
    assert '/' !in name ==> Resolve(base, pieces) == Resolve(Step(base, name), []);
    if name != [] && name[0] == '/' then Resolve([], pieces) else Resolve(base, pieces)
  }

  /** A component the resolved path can hold: not empty, not `.` or `..`, and free of `/`. */
  predicate NormalComponent(c: string) {
    c != "" && c != "." && c != ".." && '/' !in c
  }

  predicate NormalPath(p: Path) {
    forall i :: 0 <= i < |p| ==> NormalComponent(p[i])
  }

  lemma {:induction false} ResolveNormal(base: Path, pieces: seq<string>)
    requires NormalPath(base)
    requires forall i :: 0 <= i < |pieces| ==> '/' !in pieces[i]
    ensures NormalPath(Resolve(base, pieces))
    decreases |pieces|
  {
    if pieces != [] {
      var next := Step(base, pieces[0]);
      assert NormalPath(next);
      ResolveNormal(next, pieces[1..]);
    }
  }

  /** Joining any name onto a path of normal components yields one, whatever the name holds. */
  lemma JoinNormal(base: Path, name: string)
    requires NormalPath(base)
    ensures NormalPath(Join(base, name))
  {
    SplitSlashPieces(name);
    ResolveNormal(base, SplitSlash(name));
    ResolveNormal([], SplitSlash(name));
  }

  /** No piece holds a separator. */
  lemma {:induction false} SplitSlashPieces(s: string)
    ensures forall i :: 0 <= i < |SplitSlash(s)| ==> '/' !in SplitSlash(s)[i]
  {
    if s != [] {
      SplitSlashPieces(s[1..]);
    }
  }

  lemma SplitSlashCons(c: char, t: string)
    ensures var r := SplitSlash(t);
      SplitSlash([c] + t) == if c == '/' then [[]] + r else [[c] + r[0]] + r[1..]
  {
    assert ([c] + t)[0] == c && ([c] + t)[1..] == t;
  }

  /** The separator between `a` and `b` ends the last piece of `a`. */
  lemma {:induction false} SplitSlashConcat(a: string, b: string)
    ensures SplitSlash(a + "/" + b) == SplitSlash(a) + SplitSlash(b)
    decreases |a|
  {
    if a == [] {
      assert a + "/" + b == ['/'] + b;
      SplitSlashCons('/', b);
    } else {
      SplitSlashConcat(a[1..], b);
      SplitSlashConcatStep(a[0], a[1..], b);
      assert a + "/" + b == [a[0]] + (a[1..] + "/" + b);
      assert a == [a[0]] + a[1..];
    }
  }

  lemma SplitSlashConcatStep(c: char, u: string, b: string)
    requires SplitSlash(u + "/" + b) == SplitSlash(u) + SplitSlash(b)
    ensures SplitSlash([c] + (u + "/" + b)) == SplitSlash([c] + u) + SplitSlash(b)
  {
    SplitSlashCons(c, u + "/" + b);
    SplitSlashCons(c, u);
    if c != '/' {
      Regroup([c], SplitSlash(u), SplitSlash(b));
    }
  }

  lemma Regroup(x: string, ru: seq<string>, rb: seq<string>)
    requires |ru| >= 1
    ensures [x + (ru + rb)[0]] + (ru + rb)[1..] == ([x + ru[0]] + ru[1..]) + rb
  {
    assert (ru + rb)[0] == ru[0];
    assert (ru + rb)[1..] == ru[1..] + rb;
  }

  lemma {:induction false} ResolveConcat(base: Path, xs: seq<string>, ys: seq<string>)
    ensures Resolve(base, xs + ys) == Resolve(Resolve(base, xs), ys)
    decreases |xs|
  {
    if xs == [] {
      assert xs + ys == ys;
    } else {
      assert (xs + ys)[1..] == xs[1..] + ys;
      ResolveConcat(Step(base, xs[0]), xs[1..], ys);
    }
  }

  /** `base.join("a/b")` is `base.join("a").join("b")` when `a` is not empty and `b` is relative. */
  lemma JoinNested(base: Path, a: string, b: string)
    requires a != []
    requires b == [] || b[0] != '/'
    ensures Join(base, a + "/" + b) == Join(Join(base, a), b)
  {
    SplitSlashConcat(a, b);
    var ra := SplitSlash(a);
    assert (a + "/" + b)[0] == a[0];
    var start := if a[0] == '/' then [] else base;
    ResolveConcat(start, ra, SplitSlash(b));
  }

  /** An absolute name ignores the base: `base.join("/x")` is `/x`. */
  lemma JoinAbsolute(base: Path, rest: string)
    ensures Join(base, "/" + rest) == Join([], rest)
  {
    assert ("/" + rest)[1..] == rest;
    assert SplitSlash("/" + rest) == [[]] + SplitSlash(rest);
  }

  // ---------------------------------------------------------------------------
  // Audio files
  // ---------------------------------------------------------------------------

  function LastIndexOf(s: string, c: char): (r: Option<nat>)
    ensures r.Some? ==> r.value < |s| && s[r.value] == c
    ensures r.Some? ==> forall j :: r.value < j < |s| ==> s[j] != c
    ensures r.None? ==> forall j :: 0 <= j < |s| ==> s[j] != c
  {
    if s == [] then None
    else if s[|s| - 1] == c then Some(|s| - 1)
    else LastIndexOf(s[..|s| - 1], c)
  }

  /**
   * `Path::extension` of a file name: the text after the last `.`, except
   * that a name whose only dot is its first character (`.mp3`) and the name
   * `..` have none.
   */
  function Extension(name: string): Option<string> {
    if name == ".." then None
    else match LastIndexOf(name, '.')
      case None => None
      case Some(i) => if i == 0 then None else Some(name[i + 1..])
  }

  /**
   * What `Extension` yields: present exactly when some dot other than the
   * first character exists, and then the dot-free text after the last dot.
   */
  lemma ExtensionSpec(name: string)
    ensures var r := Extension(name);
      (r.Some? <==> name != ".." && exists i :: 0 < i < |name| && name[i] == '.') &&
      (r.Some? ==> |r.value| + 2 <= |name| && name[|name| - |r.value| - 1] == '.') &&
      (r.Some? ==> r.value == name[|name| - |r.value|..]) &&
      (r.Some? ==> forall j :: 0 <= j < |r.value| ==> r.value[j] != '.')
  {
  }

  /** `is_audio_file`: the extension, lower-cased, is one of the supported formats. */
  predicate IsAudioFile(name: string) {
    var e := Extension(name);
    e.Some? && Lower(e.value) in AUDIO_EXTENSIONS
  }

  lemma AudioExtensionsHaveNoDot(e: string)
    requires e in AUDIO_EXTENSIONS
    ensures |e| >= 3 && forall j :: 0 <= j < |e| ==> e[j] != '.'
  {
  }

  lemma LowerIsDot(c: char)
    ensures LowerChar(c) == '.' <==> c == '.'
  {
  }

  /** The extension of a name whose last dot sits at `k > 0`. */
  lemma ExtensionAt(name: string, k: nat)
    requires 0 < k < |name| && name[k] == '.' && name != ".."
    requires forall j :: k < j < |name| ==> name[j] != '.'
    ensures Extension(name) == Some(name[k + 1..])
  {
  }

  lemma AudioFileHasSuffix(name: string)
    requires IsAudioFile(name)
    ensures exists e :: e in AUDIO_EXTENSIONS && |e| + 2 <= |name| && EndsWith(Lower(name), "." + e)
  {
    var low := Lower(name);
    ExtensionSpec(name);
    var x := Extension(name).value;
    var e := Lower(x);
    var k := |name| - |x| - 1;
    assert low[k..] == "." + e by {
      forall j | 0 <= j < |low| - k
        ensures low[k..][j] == ("." + e)[j]
      {
        if j > 0 { assert name[k + j] == x[j - 1]; }
      }
    }
    assert |e| + 2 <= |name| && EndsWith(low, "." + e);
  }

  lemma AudioFileFromSuffix(name: string, e: string)
    requires e in AUDIO_EXTENSIONS && |e| + 2 <= |name| && EndsWith(Lower(name), "." + e)
    ensures IsAudioFile(name)
  {
    var low := Lower(name);
    AudioExtensionsHaveNoDot(e);
    var k := |name| - |e| - 1;
    assert low[k] == ("." + e)[0] == '.';
    LowerIsDot(name[k]);
    forall j | k < j < |name|
      ensures name[j] != '.'
    {
      assert low[j] == ("." + e)[j - k] == e[j - k - 1];
      LowerIsDot(name[j]);
    }
    ExtensionAt(name, k);
    var x := name[k + 1..];
    assert Lower(x) == e by {
      forall j | 0 <= j < |e|
        ensures Lower(x)[j] == e[j]
      {
        assert x[j] == name[k + 1 + j];
        assert low[k + 1 + j] == ("." + e)[j + 1];
      }
    }
  }

  /**
   * Independent reading of `is_audio_file`: the name, lower-cased, ends in
   * `.` followed by a supported extension, with at least one character
   * before that dot.
   */
  lemma AudioFileBySuffix(name: string)
    ensures IsAudioFile(name) <==>
      exists e :: e in AUDIO_EXTENSIONS && |e| + 2 <= |name| && EndsWith(Lower(name), "." + e)
  {
    if IsAudioFile(name) {
      AudioFileHasSuffix(name);
    }
    if e :| e in AUDIO_EXTENSIONS && |e| + 2 <= |name| && EndsWith(Lower(name), "." + e) {
      AudioFileFromSuffix(name, e);
    }
  }

  /** Extensions are compared without regard to case. */
  lemma UpperCaseExtensionIsAudio()
    ensures IsAudioFile("song.MP3")
  {
    ExtensionExample("song.MP3", 4);
    assert "song.MP3"[5..] == "MP3";
    assert Lower("MP3") == "mp3" == AUDIO_EXTENSIONS[0];
  }

  /** An extension outside the list is not audio. */
  lemma OpusIsNotAudio()
    ensures !IsAudioFile("file.opus")
  {
    ExtensionExample("file.opus", 4);
    assert "file.opus"[5..] == "opus";
    assert Lower("opus") == "opus";
  }

  /** A hidden file has no extension, so `.mp3` is not audio. */
  lemma HiddenFileIsNotAudio()
    ensures !IsAudioFile(".mp3")
  {
    ExtensionExample(".mp3", 0);
  }

  lemma ExtensionExample(name: string, i: nat)
    requires i < |name| && name[i] == '.' && name != ".."
    requires forall j :: 0 <= j < |name| && j != i ==> name[j] != '.'
    ensures Extension(name) == if i == 0 then None else Some(name[i + 1..])
  {
  }

  // ---------------------------------------------------------------------------
  // Playlist names
  // ---------------------------------------------------------------------------

  /** `list.contains(&u)`, unfolded one entry at a time. */
  predicate InList(u: string, list: seq<string>) {
    list != [] && (list[0] == u || InList(u, list[1..]))
  }

  lemma {:induction false} InListIff(u: string, list: seq<string>)
    ensures InList(u, list) <==> exists k :: 0 <= k < |list| && list[k] == u
  {
    if list != [] {
      InListIff(u, list[1..]);
      if exists k :: 0 <= k < |list| && list[k] == u {
        var k :| 0 <= k < |list| && list[k] == u;
        if k > 0 { assert list[1..][k - 1] == u; }
      }
    }
  }

  predicate HasInvalidChar(name: string) {
    exists i :: 0 <= i < |name| && InvalidNameChar(name[i])
  }

  predicate IsReserved(name: string) {
    InList(Upper(name), RESERVED_NAMES)
  }

  function InvalidName(name: string, reason: string): Error {
    Playlist(PlaylistError.InvalidName(name, reason))
  }

  /** `validate_playlist_name`: four checks, the first that fails names the reason. */
  function ValidatePlaylistName(name: string): (r: Result<(), Error>)
    ensures r.Err? ==> r.error.Playlist? && r.error.playlist.InvalidName? && r.error.playlist.name == name
  {
    if name == [] then Err(InvalidName(name, "Playlist name cannot be empty"))
    else if Utf8Length(name) > MAX_NAME_BYTES then Err(InvalidName(name, "Playlist name too long"))
    else if HasInvalidChar(name) then Err(InvalidName(name, "Playlist name contains invalid characters"))
    else if IsReserved(name) then Err(InvalidName(name, "Playlist name is reserved"))
    else Ok(())
  }

  function Reason(r: Result<(), Error>): string {
    if r.Err? && r.error.Playlist? && r.error.playlist.InvalidName? then r.error.playlist.reason else ""
  }

  /** Each refusal reason is reported exactly when its check is the first to fail. */
  lemma ValidatePlaylistNameReasons(name: string)
    ensures Reason(ValidatePlaylistName(name)) == "Playlist name cannot be empty" <==> name == []
    ensures Reason(ValidatePlaylistName(name)) == "Playlist name too long" <==>
      name != [] && Utf8Length(name) > MAX_NAME_BYTES
    ensures Reason(ValidatePlaylistName(name)) == "Playlist name contains invalid characters" <==>
      name != [] && Utf8Length(name) <= MAX_NAME_BYTES && HasInvalidChar(name)
    ensures Reason(ValidatePlaylistName(name)) == "Playlist name is reserved" <==>
      name != [] && Utf8Length(name) <= MAX_NAME_BYTES && !HasInvalidChar(name) && IsReserved(name)
  {
  }

  /**
   * A name is accepted exactly when it is non-empty, at most 255 bytes long,
   * free of separators and Windows-forbidden characters, and not a reserved
   * device name in any letter case.
   */
  lemma ValidatePlaylistNameAccepts(name: string)
    ensures ValidatePlaylistName(name).Ok? <==>
      1 <= |name| && Utf8Length(name) <= MAX_NAME_BYTES &&
      (forall i :: 0 <= i < |name| ==> !InvalidNameChar(name[i])) &&
      (forall k :: 0 <= k < |RESERVED_NAMES| ==> !EqIgnoreCase(name, RESERVED_NAMES[k]))
  {
    ReservedIgnoresCase(name);
    assert ValidatePlaylistName(name).Ok? <==>
      name != [] && Utf8Length(name) <= MAX_NAME_BYTES && !HasInvalidChar(name) && !IsReserved(name);
  }

  lemma ReservedIgnoresCase(name: string)
    ensures IsReserved(name) <==> exists k :: 0 <= k < |RESERVED_NAMES| && EqIgnoreCase(name, RESERVED_NAMES[k])
  {
    InListIff(Upper(name), RESERVED_NAMES);
    if IsReserved(name) {
      var k :| 0 <= k < |RESERVED_NAMES| && RESERVED_NAMES[k] == Upper(name);
      ReservedIsUpper(k);
      UpperLowerAgree(name, RESERVED_NAMES[k]);
    }
    forall k | 0 <= k < |RESERVED_NAMES| && EqIgnoreCase(name, RESERVED_NAMES[k])
      ensures IsReserved(name)
    {
      ReservedIsUpper(k);
      UpperLowerAgree(name, RESERVED_NAMES[k]);
    }
  }

  lemma ReservedIsUpper(k: nat)
    requires k < |RESERVED_NAMES|
    ensures Upper(RESERVED_NAMES[k]) == RESERVED_NAMES[k]
  {
  }

  /** For a name `u` that is its own upper case, `Upper(s) == u` is case-insensitive equality. */
  lemma UpperLowerAgree(s: string, u: string)
    requires Upper(u) == u
    ensures Upper(s) == u <==> EqIgnoreCase(s, u)
  {
    if Upper(s) == u {
      assert Lower(s) == Lower(u) by {
        forall i | 0 <= i < |s|
          ensures LowerChar(s[i]) == LowerChar(u[i])
        {
          assert UpperChar(s[i]) == u[i];
        }
      }
    }
    if EqIgnoreCase(s, u) {
      assert |s| == |Lower(s)| == |Lower(u)| == |u|;
      forall i | 0 <= i < |s|
        ensures UpperChar(s[i]) == u[i]
      {
        assert LowerChar(s[i]) == LowerChar(u[i]);
        assert UpperChar(u[i]) == u[i];
      }
    }
  }

  /** `Upper(s)[i]` fixes everything but ASCII lower-case letters. */
  lemma UpperCharSameWidthAndValidity(a: char, b: char)
    requires UpperChar(a) == UpperChar(b)
    ensures Utf8Width(a) == Utf8Width(b)
    ensures InvalidNameChar(a) <==> InvalidNameChar(b)
  {
  }

  lemma {:induction false} Utf8LengthOfCaseVariants(a: string, b: string)
    requires Upper(a) == Upper(b)
    ensures Utf8Length(a) == Utf8Length(b)
  {
    if a != [] {
      assert |a| == |b|;
      var n := |a| - 1;
      UpperCharSameWidthAndValidity(a[n], b[n]);
      assert Upper(a[..n]) == Upper(b[..n]) by {
        forall i | 0 <= i < n
          ensures UpperChar(a[..n][i]) == UpperChar(b[..n][i])
        {
          assert UpperChar(a[i]) == Upper(a)[i];
        }
      }
      Utf8LengthOfCaseVariants(a[..n], b[..n]);
    }
  }

  /**
   * Names differing only in ASCII letter case are accepted or refused
   * together, so two folders that a case-insensitive device file system would
   * merge are treated alike.
   */
  lemma ValidatePlaylistNameCaseInsensitive(a: string, b: string)
    requires EqIgnoreCase(a, b)
    ensures ValidatePlaylistName(a).Ok? <==> ValidatePlaylistName(b).Ok?
  {
    assert |a| == |b|;
    assert Upper(a) == Upper(b) by {
      forall i | 0 <= i < |a|
        ensures UpperChar(a[i]) == UpperChar(b[i])
      {
        assert LowerChar(a[i]) == Lower(a)[i] == Lower(b)[i] == LowerChar(b[i]);
      }
    }
    Utf8LengthOfCaseVariants(a, b);
    forall i | 0 <= i < |a|
      ensures InvalidNameChar(a[i]) <==> InvalidNameChar(b[i])
    {
      assert UpperChar(a[i]) == Upper(a)[i];
      UpperCharSameWidthAndValidity(a[i], b[i]);
    }
  }

  /** Every reserved name has three or four characters. */
  lemma ReservedLength(name: string)
    requires IsReserved(name)
    ensures 3 <= |name| <= 4
  {
    InListIff(Upper(name), RESERVED_NAMES);
    ReservedLengths();
  }

  lemma ReservedLengths()
    ensures forall k :: 0 <= k < |RESERVED_NAMES| ==> 3 <= |RESERVED_NAMES[k]| <= 4
  {
  }

  lemma ValidNameExample()
    ensures ValidatePlaylistName("Rock & Roll").Ok?
  {
    var name := "Rock & Roll";
    assert !HasInvalidChar(name);
    if IsReserved(name) { ReservedLength(name); }
  }

  lemma RefusedNameExamples()
    ensures ValidatePlaylistName("").Err?
    ensures ValidatePlaylistName("test/name").Err?
    ensures ValidatePlaylistName(seq(300, i => 'a')).Err?
  {
    assert "test/name"[4] == '/';
  }

  lemma ReservedNameExample()
    ensures ValidatePlaylistName("lpt1").Err?
  {
    assert Upper("lpt1") == "LPT1" == RESERVED_NAMES[13];
    InListIff("LPT1", RESERVED_NAMES);
  }

  // ---------------------------------------------------------------------------
  // Records
  // ---------------------------------------------------------------------------

  /** Summary of one playlist folder, as listed by the manager. */
  datatype PlaylistMetadata = PlaylistMetadata(
    name: string,
    sourceUrl: Option<string>,
    createdAt: nat,
    modifiedAt: nat,
    trackCount: nat,
    totalBytes: nat)

  datatype TrackInfo = TrackInfo(fileName: string, path: Path, sizeBytes: nat, metadata: Option<Mp3Metadata>)

  datatype FolderStatistics = FolderStatistics(
    totalFiles: nat,
    audioFiles: nat,
    otherFiles: nat,
    audioSizeBytes: nat,
    totalSizeBytes: nat,
    hasMetadata: bool)

  datatype FolderValidationResult = FolderValidationResult(
    folderExists: bool,
    hasMetadata: bool,
    metadataValid: bool,
    audioFileCount: nat,
    issues: seq<string>)
  {
    predicate IsValid() {
      folderExists && hasMetadata && metadataValid && audioFileCount > 0
    }
  }

  /** One track's entry in `playlist.json`. */
  datatype SavedTrackMetadata = SavedTrackMetadata(
    fileName: string,
    videoId: Option<string>,
    sourceUrl: Option<string>,
    title: Option<string>,
    channel: Option<string>,
    durationSecs: Option<nat>,
    thumbnailUrl: Option<string>,
    downloadedAt: nat)

  /** The contents of `playlist.json`. */
  datatype SavedPlaylistMetadata = SavedPlaylistMetadata(
    title: Option<string>,
    description: Option<string>,
    sourceUrl: Option<string>,
    thumbnailUrl: Option<string>,
    createdAt: nat,
    modifiedAt: nat,
    trackCount: nat,
    totalSizeBytes: nat,
    tracks: seq<SavedTrackMetadata>)

  /**
   * The JSON encoding of `playlist.json` (`serde_json::to_string_pretty`, and
   * `serde_json::from_str` applied to what `read_to_string` returned).
   * Encoding never fails for this record; decoding fails on text that is not
   * a valid record.  The serializer itself is not modelled: the properties
   * the core relies on are stated by `RoundTrips`.
   */
  datatype MetadataCodec = MetadataCodec(
    encode: SavedPlaylistMetadata -> Bytes,
    decode: Bytes -> Option<SavedPlaylistMetadata>)

  ghost predicate RoundTrips(codec: MetadataCodec) {
    forall md :: ValidUtf8(codec.encode(md)) && codec.decode(codec.encode(md)) == Some(md)
  }

  const WATCH_URL_PREFIX: string := "https://www.youtube.com/watch?v="

  /** `SavedTrackMetadata::from_youtube_video`, with the clock reading passed in as `now`. */
  function FromYouTubeVideo(
    fileName: string, videoId: string, title: Option<string>, channel: Option<string>,
    durationSecs: Option<nat>, thumbnailUrl: Option<string>, now: nat): (t: SavedTrackMetadata)
    ensures t.fileName == fileName && t.videoId == Some(videoId) && t.downloadedAt == now
    ensures t.sourceUrl.Some? && StartsWith(t.sourceUrl.value, WATCH_URL_PREFIX)
    ensures t.sourceUrl.value[|WATCH_URL_PREFIX|..] == videoId
  {
    SavedTrackMetadata(fileName, Some(videoId), Some(WATCH_URL_PREFIX + videoId), title, channel,
      durationSecs, thumbnailUrl, now)
  }

  /** The source URL recorded for a downloaded track is one the URL parser recognises as YouTube's. */
  lemma FromYouTubeVideoUrlIsYouTube(
    fileName: string, videoId: string, title: Option<string>, channel: Option<string>,
    durationSecs: Option<nat>, thumbnailUrl: Option<string>, now: nat)
    ensures YouTube.IsYouTubeUrl(FromYouTubeVideo(fileName, videoId, title, channel, durationSecs, thumbnailUrl, now).sourceUrl.value)
  {
    var url := WATCH_URL_PREFIX + videoId;
    assert OccursAt(url, "youtube.com", 12) by {
      assert url[12..23] == WATCH_URL_PREFIX[12..23];
    }
  }

  // ---------------------------------------------------------------------------
  // Track list upserts (`add_track_metadata`, `add_tracks_metadata`)
  // ---------------------------------------------------------------------------

  /** The index `iter().find` stops at: the first track with that file name. */
  function FindTrack(tracks: seq<SavedTrackMetadata>, fileName: string): (r: Option<nat>)
    ensures r.Some? ==> r.value < |tracks| && tracks[r.value].fileName == fileName
    ensures r.Some? ==> forall j :: 0 <= j < r.value ==> tracks[j].fileName != fileName
    ensures r.None? ==> forall j :: 0 <= j < |tracks| ==> tracks[j].fileName != fileName
  {
    if tracks == [] then None
    else if tracks[0].fileName == fileName then Some(0)
    else match FindTrack(tracks[1..], fileName)
      case None => None
      case Some(j) => Some(j + 1)
  }

  /** Replace the first track with the same file name, or append. */
  function UpsertTrack(tracks: seq<SavedTrackMetadata>, track: SavedTrackMetadata): seq<SavedTrackMetadata> {
    match FindTrack(tracks, track.fileName)
      case Some(i) => tracks[i := track]
      case None => tracks + [track]
  }

  predicate UniqueNames(tracks: seq<SavedTrackMetadata>) {
    forall i, j :: 0 <= i < j < |tracks| ==> tracks[i].fileName != tracks[j].fileName
  }

  /** The track lands in the list, tracks with other names stay, and nothing else appears. */
  lemma UpsertTrackContents(tracks: seq<SavedTrackMetadata>, track: SavedTrackMetadata)
    ensures track in UpsertTrack(tracks, track)
    ensures forall u :: u in tracks && u.fileName != track.fileName ==> u in UpsertTrack(tracks, track)
    ensures forall u :: u in UpsertTrack(tracks, track) ==> u == track || u in tracks
    ensures |UpsertTrack(tracks, track)| == |tracks| + (if FindTrack(tracks, track.fileName).Some? then 0 else 1)
  {
    var r := UpsertTrack(tracks, track);
    match FindTrack(tracks, track.fileName)
    case Some(i) =>
      assert r[i] == track;
      forall u | u in tracks && u.fileName != track.fileName
        ensures u in r
      {
        var j :| 0 <= j < |tracks| && tracks[j] == u;
        assert r[j] == u;
      }
      forall u | u in r
        ensures u == track || u in tracks
      {
        var j :| 0 <= j < |r| && r[j] == u;
        if j != i { assert u == tracks[j]; }
      }
    case None =>
  }

  /** With file names unique before, they are unique after. */
  lemma UpsertTrackKeepsNamesUnique(tracks: seq<SavedTrackMetadata>, track: SavedTrackMetadata)
    requires UniqueNames(tracks)
    ensures UniqueNames(UpsertTrack(tracks, track))
  {
  }

  /** `add_tracks_metadata`'s loop: upsert each new track in turn. */
  function UpsertTracks(tracks: seq<SavedTrackMetadata>, news: seq<SavedTrackMetadata>): seq<SavedTrackMetadata>
    decreases |news|
  {
    if news == [] then tracks else UpsertTrack(UpsertTracks(tracks, news[..|news| - 1]), news[|news| - 1])
  }

  lemma {:induction false} UpsertTracksKeepsNamesUnique(tracks: seq<SavedTrackMetadata>, news: seq<SavedTrackMetadata>)
    requires UniqueNames(tracks)
    ensures UniqueNames(UpsertTracks(tracks, news))
    decreases |news|
  {
    if news != [] {
      UpsertTracksKeepsNamesUnique(tracks, news[..|news| - 1]);
      UpsertTrackKeepsNamesUnique(UpsertTracks(tracks, news[..|news| - 1]), news[|news| - 1]);
    }
  }

  /**
   * When several new tracks share a file name, the last of them is the one
   * kept; every new track's name ends up in the list.
   */
  lemma {:induction false} UpsertTracksLastWins(tracks: seq<SavedTrackMetadata>, news: seq<SavedTrackMetadata>, k: nat)
    requires k < |news|
    requires forall j :: k < j < |news| ==> news[j].fileName != news[k].fileName
    ensures news[k] in UpsertTracks(tracks, news)
    decreases |news|
  {
    var init := news[..|news| - 1];
    var prev := UpsertTracks(tracks, init);
    UpsertTrackContents(prev, news[|news| - 1]);
    if k < |news| - 1 {
      UpsertTracksLastWins(tracks, init, k);
    }
  }

  // ---------------------------------------------------------------------------
  // Field updates (`update_playlist_metadata_full`)
  // ---------------------------------------------------------------------------

  /** An optional text field: absent leaves it, empty clears it, anything else sets it. */
  function PatchText(current: Option<string>, patch: Option<string>): (r: Option<string>)
    ensures patch.None? ==> r == current
    ensures patch.Some? ==> (r.None? <==> patch.value == "")
    ensures r.Some? ==> r.value != "" || (patch.None? && current == r)
  {
    match patch
      case None => current
      case Some(t) => if t == "" then None else Some(t)
  }

  /** An optional URL field: absent leaves it, present replaces it (`Some(None)` clears it). */
  function PatchUrl(current: Option<string>, patch: Option<Option<string>>): (r: Option<string>)
    ensures patch.None? ==> r == current
    ensures patch.Some? ==> r == patch.value
  {
    if patch.Some? then patch.value else current
  }

  function ApplyPatch(
    md: SavedPlaylistMetadata, title: Option<string>, description: Option<string>,
    sourceUrl: Option<Option<string>>, thumbnailUrl: Option<Option<string>>, now: nat): (r: SavedPlaylistMetadata)
    ensures r.createdAt == md.createdAt && r.trackCount == md.trackCount
    ensures r.totalSizeBytes == md.totalSizeBytes && r.tracks == md.tracks
    ensures r.modifiedAt == now
  {
    md.(title := PatchText(md.title, title),
        description := PatchText(md.description, description),
        sourceUrl := PatchUrl(md.sourceUrl, sourceUrl),
        thumbnailUrl := PatchUrl(md.thumbnailUrl, thumbnailUrl),
        modifiedAt := now)
  }

  /** An update that names no field only moves the modification time. */
  lemma EmptyPatchTouchesOnlyModified(md: SavedPlaylistMetadata, now: nat)
    ensures ApplyPatch(md, None, None, None, None, now) == md.(modifiedAt := now)
  {
  }

  /** Applying the same update twice is the same as applying it once. */
  lemma ApplyPatchIdempotent(
    md: SavedPlaylistMetadata, title: Option<string>, description: Option<string>,
    sourceUrl: Option<Option<string>>, thumbnailUrl: Option<Option<string>>, now: nat)
    ensures var once := ApplyPatch(md, title, description, sourceUrl, thumbnailUrl, now);
      ApplyPatch(once, title, description, sourceUrl, thumbnailUrl, now) == once
  {
  }
}
