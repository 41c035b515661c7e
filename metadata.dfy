/**
 * ID3 metadata of a track (`Mp3Metadata`) and the helpers that render it.
 * The ID3 reader itself is a foreign library: its answer for a path is an
 * input (`TagRead`).
 */
module Metadata {
  import opened Wrappers
  import opened Text
  import opened Files
  import opened Errors

  datatype Mp3Metadata = Mp3Metadata(
    title: Option<string>,
    artist: Option<string>,
    album: Option<string>,
    durationSecs: Option<nat>,
    trackNumber: Option<nat>,
    totalTracks: Option<nat>,
    year: Option<int>,
    genre: Option<string>,
    albumArtist: Option<string>,
    bitrateKbps: Option<nat>)

  /** `Mp3Metadata::empty()`, which is `Default::default()`: every field unset. */
  function Empty(): (r: Mp3Metadata)
    ensures r.title.None? && r.artist.None? && r.album.None? && r.durationSecs.None?
    ensures r.trackNumber.None? && r.totalTracks.None? && r.year.None?
    ensures r.genre.None? && r.albumArtist.None? && r.bitrateKbps.None?
  {
    Mp3Metadata(None, None, None, None, None, None, None, None, None, None)
  }

  /** `has_content`: title, artist, album or duration is present. */
  predicate HasContent(md: Mp3Metadata) {
    md.title.Some? || md.artist.Some? || md.album.Some? || md.durationSecs.Some?
  }

  /** Only title, artist, album and duration decide `has_content`; track, year, genre and the rest never do. */
  lemma HasContentIgnoresOtherFields(md: Mp3Metadata, track: Option<nat>, total: Option<nat>, year: Option<int>,
                                     genre: Option<string>, albumArtist: Option<string>, bitrate: Option<nat>)
    ensures HasContent(md) == HasContent(md.(trackNumber := track, totalTracks := total, year := year,
                                             genre := genre, albumArtist := albumArtist, bitrateKbps := bitrate))
    ensures !HasContent(Empty())
    ensures HasContent(md) <==> md != md.(title := None, artist := None, album := None, durationSecs := None)
  {
  }

  function DisplayTitle(md: Mp3Metadata): (r: string)
    ensures md.title.Some? ==> r == md.title.value
    ensures md.title.None? ==> r == "Unknown Title"
  {
    md.title.UnwrapOr("Unknown Title")
  }

  function DisplayArtist(md: Mp3Metadata): (r: string)
    ensures md.artist.Some? ==> r == md.artist.value
    ensures md.artist.None? ==> r == "Unknown Artist"
  {
    md.artist.UnwrapOr("Unknown Artist")
  }

  function DisplayAlbum(md: Mp3Metadata): (r: string)
    ensures md.album.Some? ==> r == md.album.value
    ensures md.album.None? ==> r == "Unknown Album"
  {
    md.album.UnwrapOr("Unknown Album")
  }

  /** `{secs:02}` for a value below 100: always two digits. */
  function TwoDigits(n: nat): (r: string)
    requires n < 100
    ensures |r| == 2 && IsDigit(r[0]) && IsDigit(r[1])
  {
    [DigitChar(n / 10), DigitChar(n % 10)]
  }

  /** `formatted_duration`: `M:SS`, minutes unbounded. */
  function FormattedDuration(md: Mp3Metadata): Option<string> {
    match md.durationSecs
    case None => None
    case Some(d) => Some(NatToString(d / 60) + ":" + TwoDigits(d % 60))
  }

  /**
   * The rendered duration reads back as the duration: minutes before the
   * colon, exactly two digits of seconds below 60 after it.
   */
  lemma FormattedDurationReadsBack(md: Mp3Metadata)
    ensures FormattedDuration(md).None? <==> md.durationSecs.None?
    ensures md.durationSecs.Some? ==>
      var s := FormattedDuration(md).value;
      |s| >= 4 && s[|s| - 3] == ':' &&
      (forall i :: 0 <= i < |s| && i != |s| - 3 ==> IsDigit(s[i])) &&
      ParseDigits(s[|s| - 2..]) < 60 &&
      ParseDigits(s[..|s| - 3]) * 60 + ParseDigits(s[|s| - 2..]) == md.durationSecs.value
  {
    if md.durationSecs.Some? {
      var d := md.durationSecs.value;
      var s := FormattedDuration(md).value;
      var m := NatToString(d / 60);
      assert s == m + ":" + TwoDigits(d % 60);
      assert s[..|s| - 3] == m;
      ParseNatToString(d / 60);
      var t := s[|s| - 2..];
      assert t == TwoDigits(d % 60);
      assert t[..1] == [t[0]];
      assert t[..1][..0] == [];
      assert ParseDigits(t[..1]) == DigitValue(t[0]) == d % 60 / 10;
      assert ParseDigits(t) == (d % 60 / 10) * 10 + d % 60 % 10;
    }
  }

  /** `formatted_track_number`: `n/total` when the total is known, else `n`. */
  function FormattedTrackNumber(md: Mp3Metadata): Option<string> {
    match md.trackNumber
    case None => None
    case Some(n) =>
      match md.totalTracks
      case Some(total) => Some(NatToString(n) + "/" + NatToString(total))
      case None => Some(NatToString(n))
  }

  /** The rendered track number holds a '/' exactly when the total is known, and both numbers read back. */
  lemma FormattedTrackNumberReadsBack(md: Mp3Metadata)
    ensures FormattedTrackNumber(md).None? <==> md.trackNumber.None?
    ensures md.trackNumber.Some? && md.totalTracks.None? ==>
      var s := FormattedTrackNumber(md).value;
      (forall i :: 0 <= i < |s| ==> IsDigit(s[i])) && ParseDigits(s) == md.trackNumber.value
    ensures md.trackNumber.Some? && md.totalTracks.Some? ==>
      var s := FormattedTrackNumber(md).value;
      exists k :: 0 < k < |s| - 1 && s[k] == '/' &&
        (forall i :: 0 <= i < |s| && i != k ==> IsDigit(s[i])) &&
        ParseDigits(s[..k]) == md.trackNumber.value && ParseDigits(s[k + 1..]) == md.totalTracks.value
  {
    if md.trackNumber.Some? {
      ParseNatToString(md.trackNumber.value);
      if md.totalTracks.Some? {
        var a := NatToString(md.trackNumber.value);
        var b := NatToString(md.totalTracks.value);
        var s := FormattedTrackNumber(md).value;
        assert s == a + "/" + b;
        ParseNatToString(md.totalTracks.value);
        assert s[..|a|] == a && s[|a| + 1..] == b;
        assert s[|a|] == '/';
      }
    }
  }

  /** What the ID3 reader reports for a file. */
  datatype Id3Tag = Id3Tag(
    title: Option<string>,
    artist: Option<string>,
    album: Option<string>,
    duration: Option<nat>,
    track: Option<nat>,
    totalTracks: Option<nat>,
    year: Option<int>,
    genre: Option<string>,
    albumArtist: Option<string>)

  datatype TagRead = NoTag | ReadError | Tag(tag: Id3Tag)

  /** `parse_track_number`: a total is kept only alongside a track number. */
  function ParseTrackNumber(tag: Id3Tag): (r: (Option<nat>, Option<nat>))
    ensures r.1.Some? ==> r.0.Some?
    ensures r.0 == tag.track
    ensures tag.track.Some? ==> r.1 == tag.totalTracks
  {
    if tag.track.Some? then (tag.track, tag.totalTracks) else (None, None)
  }

  /**
   * `extract_metadata(path)`: NotFound for a missing path; a file without a
   * tag, or whose tag cannot be read, gives empty metadata rather than an error.
   */
  function ExtractMetadata(m: Entries, path: Path, readTag: Path -> TagRead): (r: Result<Mp3Metadata, Error>)
    ensures r.Err? <==> path !in m
    ensures r.Err? ==> r.error == FileSystem(FileSystemError.NotFound(path))
    ensures r.Ok? && !readTag(path).Tag? ==> r.value == Empty()
    ensures r.Ok? && readTag(path).Tag? ==>
      r.value.title == readTag(path).tag.title && r.value.bitrateKbps.None? &&
      (r.value.totalTracks.Some? ==> r.value.trackNumber.Some?)
  {
    if path !in m then Err(FileSystem(FileSystemError.NotFound(path)))
    else
      match readTag(path)
      case NoTag => Ok(Empty())
      case ReadError => Ok(Empty())
      case Tag(tag) =>
        var (track, total) := ParseTrackNumber(tag);
        Ok(Mp3Metadata(tag.title, tag.artist, tag.album, tag.duration, track, total,
                       tag.year, tag.genre, tag.albumArtist, None))
  }

  /**
   * `extract_metadata_batch`: one pair per input path, in input order; a path
   * whose extraction fails gets the default metadata.
   */
  function ExtractMetadataBatch(m: Entries, paths: seq<Path>, readTag: Path -> TagRead): (r: seq<(Path, Mp3Metadata)>)
    ensures |r| == |paths|
    ensures forall i :: 0 <= i < |paths| ==> r[i].0 == paths[i]
    ensures forall i :: 0 <= i < |paths| ==> (paths[i] !in m ==> r[i].1 == Empty())
    ensures forall i :: 0 <= i < |paths| ==> (paths[i] in m ==> r[i].1 == ExtractMetadata(m, paths[i], readTag).value)
  {
    if paths == [] then []
    else
      var md := match ExtractMetadata(m, paths[0], readTag)
        case Ok(v) => v
        case Err(_) => Empty();
      [(paths[0], md)] + ExtractMetadataBatch(m, paths[1..], readTag)
  }
}
