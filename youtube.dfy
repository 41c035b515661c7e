/**
 * Playlist URL parsing, file-name sanitising and the placeholder downloader
 * of the YouTube front end.
 */
module YouTube {
  import opened Wrappers
  import opened Text
  import opened Files
  import opened Errors

  datatype VideoInfo = VideoInfo(id: string, title: string, durationSecs: Option<nat>, channel: Option<string>)

  datatype PlaylistInfo = PlaylistInfo(id: string, title: string, videoCount: nat, videos: seq<VideoInfo>)

  datatype DownloadStatus = Starting | Downloading | Converting | Completed | Failed(reason: string)

  /** A progress report; the fractional progress fields are left out. */
  datatype DownloadProgress = DownloadProgress(currentIndex: nat, totalVideos: nat, currentTitle: string, status: DownloadStatus)

  datatype DownloadResult = DownloadResult(video: VideoInfo, success: bool, outputPath: Option<Path>, error: Option<string>)

  predicate IsYouTubeUrl(url: string) {
    Contains(url, "youtube.com") || Contains(url, "youtu.be")
  }

  /** `rest[..rest.find('&').unwrap_or(rest.len())]`: the text before the first `&`, which the first `&`, if any, ends. */
  function UpToAmpersand(rest: string): (id: string)
    ensures |id| <= |rest| && id == rest[..|id|]
    ensures forall i :: 0 <= i < |id| ==> id[i] != '&'
    ensures |id| == |rest| || rest[|id|] == '&'
  {
    var end := match Find(rest, "&") case Some(e) => e case None => |rest|;
    forall i | 0 <= i < end ensures rest[i] != '&' {
      assert !OccursAt(rest, "&", i);
      assert rest[i..i + 1] == [rest[i]];
    }
    assert end < |rest| ==> rest[end..end + 1] == "&";
    rest[..end]
  }

  /**
   * `extract_playlist_id`: the text after the first case-insensitive
   * `list=` up to the next `&` or the end of the URL.
   */
  function ExtractPlaylistId(url: string): Result<string, Error> {
    if !IsYouTubeUrl(url) then Err(InvalidYouTubeUrl("URL must be a YouTube URL"))
    else match Find(Lower(url), "list=")
      case None => Err(NotAPlaylist("URL does not contain a playlist ID"))
      case Some(pos) =>
        var id := UpToAmpersand(url[pos + 5..]);
        if id == [] then Err(NotAPlaylist("Empty playlist ID in URL")) else Ok(id)
  }

  /** The error cases of `extract_playlist_id`, each in both directions. */
  lemma ExtractPlaylistIdErrors(url: string)
    ensures ExtractPlaylistId(url) == Err(InvalidYouTubeUrl("URL must be a YouTube URL")) <==> !IsYouTubeUrl(url)
    ensures ExtractPlaylistId(url) == Err(NotAPlaylist("URL does not contain a playlist ID")) <==>
      IsYouTubeUrl(url) && !Contains(Lower(url), "list=")
    ensures ExtractPlaylistId(url).Err? ==> ExtractPlaylistId(url).error.InvalidYouTubeUrl? || ExtractPlaylistId(url).error.NotAPlaylist?
  {
  }

  /**
   * A successful id is non-empty, free of `&`, and sits in the URL right
   * after the first case-insensitive `list=`, ending at an `&` or at the end.
   */
  lemma ExtractPlaylistIdOk(url: string)
    requires ExtractPlaylistId(url).Ok?
    ensures var id := ExtractPlaylistId(url).value;
      IsYouTubeUrl(url) && id != [] && (forall i :: 0 <= i < |id| ==> id[i] != '&') &&
      exists p: nat :: OccursAt(Lower(url), "list=", p) &&
        (forall q: nat :: q < p ==> !OccursAt(Lower(url), "list=", q)) &&
        OccursAt(url, id, p + 5) && (p + 5 + |id| == |url| || url[p + 5 + |id|] == '&')
  {
    var pos := Find(Lower(url), "list=").value;
    var rest := url[pos + 5..];
    var id := UpToAmpersand(rest);
    assert url[pos + 5..pos + 5 + |id|] == id;
  }

  lemma OccursAtAppend(a: string, b: string, sub: string, k: nat)
    requires OccursAt(a, sub, k)
    ensures OccursAt(a + b, sub, k)
  {
    assert (a + b)[k..k + |sub|] == a[k..k + |sub|];
  }

  lemma IsYouTubeUrlAppend(a: string, b: string)
    requires IsYouTubeUrl(a)
    ensures IsYouTubeUrl(a + b)
  {
    var k: nat :| k <= |a| && (OccursAt(a, "youtube.com", k) || OccursAt(a, "youtu.be", k));
    if OccursAt(a, "youtube.com", k) {
      OccursAtAppend(a, b, "youtube.com", k);
    } else {
      OccursAtAppend(a, b, "youtu.be", k);
    }
  }

  lemma FindListAfterPrefix(prefix: string, id: string)
    requires forall i :: 0 <= i < |prefix| ==> prefix[i] != '='
    ensures Find(Lower(prefix + "list=" + id), "list=") == Some(|prefix|)
  {
    var url := prefix + "list=" + id;
    var p := |prefix|;
    var l := Lower(url);
    assert l[p..p + 5] == "list=";
    forall q: nat | q < p ensures !OccursAt(l, "list=", q) {
      assert url[q + 4] != '=';
    }
    assert OccursAt(l, "list=", p);
    assert Contains(l, "list=");
  }

  lemma FindAbsent(s: string, c: char)
    requires forall i :: 0 <= i < |s| ==> s[i] != c
    ensures Find(s, [c]) == None
  {
    forall j: nat | j <= |s| ensures !OccursAt(s, [c], j) {
      if j < |s| { assert s[j..j + 1] == [s[j]]; }
    }
  }

  /**
   * Round trip: a YouTube URL prefix without `=`, then `list=`, then an
   * `&`-free id, yields that id.
   */
  lemma ExtractPlaylistIdRoundTrip(prefix: string, id: string)
    requires IsYouTubeUrl(prefix)
    requires forall i :: 0 <= i < |prefix| ==> prefix[i] != '='
    requires id != [] && forall i :: 0 <= i < |id| ==> id[i] != '&'
    ensures ExtractPlaylistId(prefix + "list=" + id) == Ok(id)
  {
    var url := prefix + "list=" + id;
    IsYouTubeUrlAppend(prefix, "list=" + id);
    assert url == prefix + ("list=" + id);
    FindListAfterPrefix(prefix, id);
    var rest := url[|prefix| + 5..];
    assert rest == id;
    FindAbsent(id, '&');
    assert rest[..|rest|] == id;
  }

  function ReplaceInvalid(name: string): (r: string)
    ensures |r| == |name|
    ensures forall i :: 0 <= i < |name| ==> r[i] == if InvalidNameChar(name[i]) then '_' else name[i]
  {
    if name == [] then [] else [if InvalidNameChar(name[0]) then '_' else name[0]] + ReplaceInvalid(name[1..])
  }

  /** Replacing a forbidden character, all of them ASCII, by `_` keeps the byte length. */
  lemma {:induction false} ReplaceInvalidUtf8Length(name: string)
    ensures Utf8Length(ReplaceInvalid(name)) == Utf8Length(name)
  {
    if name != [] {
      var c := if InvalidNameChar(name[0]) then '_' else name[0];
      assert Utf8Length([c]) == Utf8Width(c) by { assert [c][..0] == []; }
      assert Utf8Length([name[0]]) == Utf8Width(name[0]) by { assert [name[0]][..0] == []; }
      Utf8LengthConcat([c], ReplaceInvalid(name[1..]));
      assert name == [name[0]] + name[1..];
      Utf8LengthConcat([name[0]], name[1..]);
      ReplaceInvalidUtf8Length(name[1..]);
    }
  }

  /** The byte limit `sanitize_filename` puts on a name, leaving room for an extension. */
  const MAX_FILE_NAME_LEN := 200

  /** The name after replacing the forbidden characters and trimming whitespace, then dots. */
  function SanitizeTrimmed(name: string): string {
    TrimMatches(Trim(ReplaceInvalid(name)), '.')
  }

  /** Trimming never makes a name longer in bytes. */
  lemma SanitizeTrimmedUtf8Length(name: string)
    ensures Utf8Length(SanitizeTrimmed(name)) <= Utf8Length(name)
  {
    var m := ReplaceInvalid(name);
    ReplaceInvalidUtf8Length(name);
    TrimUtf8Length(m);
    TrimMatchesUtf8Length(Trim(m), '.');
  }

  /**
   * `sanitize_filename` as written: a trimmed name longer than 200 UTF-8
   * bytes is cut with `trimmed[..200]`, which panics (`None` here) unless
   * byte 200 falls between two characters.
   */
  function SanitizeFilenameAsWritten(name: string): Option<string> {
    var t := SanitizeTrimmed(name);
    if Utf8Length(t) > MAX_FILE_NAME_LEN then
      var r := CutToBytes(t, MAX_FILE_NAME_LEN);
      if Utf8Length(r) == MAX_FILE_NAME_LEN then Some(r) else None
    else Some(t)
  }

  /** The cut panics exactly when the trimmed name is too long and no prefix of it ends at byte 200. */
  lemma SanitizeFilenameAsWrittenPanics(name: string)
    ensures var t := SanitizeTrimmed(name);
      SanitizeFilenameAsWritten(name).None? <==>
        Utf8Length(t) > MAX_FILE_NAME_LEN && forall j :: 0 <= j <= |t| ==> Utf8Length(t[..j]) != MAX_FILE_NAME_LEN
  {
    var t := SanitizeTrimmed(name);
    if Utf8Length(t) > MAX_FILE_NAME_LEN && exists j :: 0 <= j <= |t| && Utf8Length(t[..j]) == MAX_FILE_NAME_LEN {
      var j :| 0 <= j <= |t| && Utf8Length(t[..j]) == MAX_FILE_NAME_LEN;
      CharBoundaryFits(t, MAX_FILE_NAME_LEN, j);
    }
  }

  /** A title of 67 euro signs (201 bytes, three per sign) makes the cut at byte 200 panic. */
  lemma SanitizeFilenameAsWrittenPanicsOnEuros()
    ensures SanitizeFilenameAsWritten(seq(67, _ => '\U{20AC}')).None?
  {
    var name := seq(67, _ => '\U{20AC}');
    assert ReplaceInvalid(name) == name;
    TrimUntouched(name);
    TrimMatchesUntouched(name, '.');
    assert SanitizeTrimmed(name) == name;
    Utf8LengthUniform(name, 3);
    forall j | 0 <= j <= |name|
      ensures Utf8Length(name[..j]) != MAX_FILE_NAME_LEN
    {
      Utf8LengthUniform(name[..j], 3);
    }
    SanitizeFilenameAsWrittenPanics(name);
  }

  /**
   * `sanitize_filename` as evidently intended: the output fits in 200 UTF-8
   * bytes and is the longest prefix of whole characters of the trimmed name
   * that does, so one more character would not fit.
   */
  function SanitizeFilename(name: string): (r: string)
    ensures var t := SanitizeTrimmed(name);
      Utf8Length(r) <= MAX_FILE_NAME_LEN && |r| <= |t| && r == t[..|r|]
      && (|r| < |t| ==> Utf8Length(t[..|r| + 1]) > MAX_FILE_NAME_LEN)
  {
    var t := SanitizeTrimmed(name);
    var r := CutToBytes(t, MAX_FILE_NAME_LEN);
    assert Utf8Length(r) <= MAX_FILE_NAME_LEN && |r| <= |t| && r == t[..|r|];
    r
  }

  /** Where the source does not panic, it returns what the corrected sanitiser does. */
  lemma SanitizeFilenameAgrees(name: string)
    ensures SanitizeFilenameAsWritten(name).Some? ==> SanitizeFilenameAsWritten(name).value == SanitizeFilename(name)
  {
  }

  function NotInvalid(c: char): bool { !InvalidNameChar(c) }

  /** No character the sanitiser replaces survives in its output. */
  lemma SanitizeFilenameNoInvalidChar(name: string)
    ensures var r := SanitizeFilename(name); forall i :: 0 <= i < |r| ==> !InvalidNameChar(r[i])
  {
    var m := ReplaceInvalid(name);
    assert forall i :: 0 <= i < |m| ==> NotInvalid(m[i]);
    TrimKeeps(m, NotInvalid);
    TrimMatchesKeeps(Trim(m), '.', NotInvalid);
  }

  /**
   * The output never starts with a dot, and a name of at most 200 bytes,
   * which is never cut, does not end with one either.
   */
  lemma SanitizeFilenameNoEdgeDots(name: string)
    ensures var r := SanitizeFilename(name);
      r != [] ==> r[0] != '.' && (Utf8Length(name) <= MAX_FILE_NAME_LEN ==> r[|r| - 1] != '.')
  {
    var t := SanitizeTrimmed(name);
    var r := SanitizeFilename(name);
    SanitizeTrimmedEnds(name);
    if r != [] {
      assert r[0] == t[0];
      if Utf8Length(name) <= MAX_FILE_NAME_LEN {
        SanitizeTrimmedUtf8Length(name);
        assert r == t;
      }
    }
  }

  lemma SanitizeTrimmedEnds(name: string)
    ensures var t := SanitizeTrimmed(name); t != [] ==> t[0] != '.' && t[|t| - 1] != '.'
  {
    TrimMatchesEnds(Trim(ReplaceInvalid(name)), '.');
  }

  /** A name that is already clean comes back unchanged. */
  lemma SanitizeFilenameKeepsCleanName(name: string)
    requires Utf8Length(name) <= MAX_FILE_NAME_LEN
    requires forall i :: 0 <= i < |name| ==> !InvalidNameChar(name[i])
    requires name != [] ==> !IsWhitespace(name[0]) && !IsWhitespace(name[|name| - 1])
    requires name != [] ==> name[0] != '.' && name[|name| - 1] != '.'
    ensures SanitizeFilename(name) == name
  {
    assert ReplaceInvalid(name) == name;
    TrimUntouched(name);
    TrimMatchesUntouched(name, '.');
  }

  /**
   * The sanitiser is not idempotent: trimming dots can uncover whitespace,
   * so `"a ."` becomes `"a "`, which a second pass turns into `"a"`.
   */
  lemma SanitizeFilenameNotIdempotent()
    ensures SanitizeFilename("a .") == "a "
    ensures SanitizeFilename("a ") == "a"
  {
    SanitizeDotAfterSpace();
    SanitizeTrailingSpace();
  }

  lemma SanitizeDotAfterSpace()
    ensures SanitizeFilename("a .") == "a "
  {
    var m := ReplaceInvalid("a .");
    assert m == "a .";
    TrimUntouched(m);
    var l := LeadingRun(m, '.');
    assert l == 0;
    assert TrailingRun(m, '.') == 1;
    assert m[0..2] == "a ";
  }

  lemma SanitizeTrailingSpace()
    ensures SanitizeFilename("a ") == "a"
  {
    var m := ReplaceInvalid("a ");
    assert m == "a ";
    assert LeadingWhitespace(m) == 0;
    assert TrailingWhitespace(m) == 1;
    assert Trim(m) == "a";
    TrimMatchesUntouched("a", '.');
  }

  /** `parse_playlist_url` of the placeholder downloader. */
  function ParsePlaylistUrl(url: string): (r: Result<PlaylistInfo, Error>)
    ensures ExtractPlaylistId(url).Err? ==> r == Err(ExtractPlaylistId(url).error)
    ensures ExtractPlaylistId(url).Ok? ==>
      r.Ok? && r.value.id == ExtractPlaylistId(url).value && r.value.videoCount == 0 && r.value.videos == []
  {
    var id :- ExtractPlaylistId(url);
    Ok(PlaylistInfo(id, "Placeholder", 0, []))
  }

  /** The file a video is written to: `<output_dir>/<sanitised title>.mp3`. */
  function OutputPath(outputDir: Path, video: VideoInfo): Path {
    outputDir + [SanitizeFilename(video.title) + ".mp3"]
  }

  const NOT_IMPLEMENTED: string := "Download not yet implemented"

  /** What the placeholder reports for one video: a failure naming the file it would have written. */
  function PlaceholderResult(outputDir: Path, video: VideoInfo): DownloadResult {
    DownloadResult(video, false, Some(OutputPath(outputDir, video)), Some(NOT_IMPLEMENTED))
  }

  /** The results of the placeholder downloader for a list of videos, one per video in order. */
  function PlaceholderResults(outputDir: Path, videos: seq<VideoInfo>): (r: seq<DownloadResult>)
    ensures |r| == |videos|
  {
    if videos == [] then []
    else PlaceholderResults(outputDir, videos[..|videos| - 1]) + [PlaceholderResult(outputDir, videos[|videos| - 1])]
  }

  /**
   * The result for the i-th video is a failure for that very video, naming
   * `<output_dir>/<sanitised title>.mp3`.
   */
  lemma {:induction false} PlaceholderResultsAt(outputDir: Path, videos: seq<VideoInfo>, i: nat)
    requires i < |videos|
    ensures PlaceholderResults(outputDir, videos)[i] == PlaceholderResult(outputDir, videos[i])
    ensures PlaceholderResults(outputDir, videos)[i].video == videos[i]
    ensures !PlaceholderResults(outputDir, videos)[i].success
    ensures PlaceholderResults(outputDir, videos)[i].outputPath == Some(OutputPath(outputDir, videos[i]))
  {
    PlaceholderResultsIndex(outputDir, videos, i);
  }

  lemma {:induction false} PlaceholderResultsIndex(outputDir: Path, videos: seq<VideoInfo>, i: nat)
    requires i < |videos|
    ensures PlaceholderResults(outputDir, videos)[i] == PlaceholderResult(outputDir, videos[i])
    decreases |videos|
  {
    var front := videos[..|videos| - 1];
    var last := PlaceholderResult(outputDir, videos[|videos| - 1]);
    assert PlaceholderResults(outputDir, videos) == PlaceholderResults(outputDir, front) + [last];
    if i < |videos| - 1 {
      PlaceholderResultsIndex(outputDir, front, i);
      assert front[i] == videos[i];
    }
  }

  /** The progress reports of the placeholder downloader: one `Starting` report per video, numbered from 1. */
  function StartingReports(videos: seq<VideoInfo>, total: nat): (r: seq<DownloadProgress>)
    ensures |r| == |videos|
    ensures forall i :: 0 <= i < |videos| ==> r[i] == DownloadProgress(i + 1, total, videos[i].title, Starting)
  {
    if videos == [] then []
    else StartingReports(videos[..|videos| - 1], total) + [DownloadProgress(|videos|, total, videos[|videos| - 1].title, Starting)]
  }

  /**
   * The placeholder `download_playlist`: one progress report and one failed
   * result per video, in playlist order.
   */
  method DownloadPlaylist(playlist: PlaylistInfo, outputDir: Path)
    returns (results: seq<DownloadResult>, reports: seq<DownloadProgress>)
    ensures results == PlaceholderResults(outputDir, playlist.videos)
    ensures reports == StartingReports(playlist.videos, |playlist.videos|)
  {
    results := [];
    reports := [];
    var index := 0;
    while index < |playlist.videos|
      invariant 0 <= index <= |playlist.videos|
      invariant results == PlaceholderResults(outputDir, playlist.videos[..index])
      invariant reports == StartingReports(playlist.videos[..index], |playlist.videos|)
    {
      var video := playlist.videos[index];
      reports := reports + [DownloadProgress(index + 1, |playlist.videos|, video.title, Starting)];
      var outputPath := OutputPath(outputDir, video);
      results := results + [DownloadResult(video, false, Some(outputPath), Some(NOT_IMPLEMENTED))];
      assert playlist.videos[..index + 1][..index] == playlist.videos[..index];
      index := index + 1;
    }
    assert playlist.videos[..index] == playlist.videos;
  }
}
