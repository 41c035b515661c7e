/**
 * Playlist and video thumbnails: the YouTube image URLs, the choice of a
 * playlist's thumbnail, and the manager that serves thumbnails from the
 * cache and fetches the missing ones.  The HTTP request is a foreign call;
 * its outcome is an input (`FetchResponse`).
 */
module Thumbnail {
  import opened Wrappers
  import opened Files
  import opened Errors
  import Cache

  const DEFAULT_FETCH_TIMEOUT_SECS: nat := 30
  const IMAGE_HOST: string := "https://img.youtube.com/vi/"
  const HQ_SUFFIX: string := "/hqdefault.jpg"
  const MAXRES_SUFFIX: string := "/maxresdefault.jpg"

  /** `youtube_thumbnail_url`: the high-quality image of the video. */
  function YoutubeThumbnailUrl(videoId: string): (r: string)
    ensures |r| == |IMAGE_HOST| + |videoId| + |HQ_SUFFIX|
    ensures r[..|IMAGE_HOST|] == IMAGE_HOST && r[|IMAGE_HOST|..|IMAGE_HOST| + |videoId|] == videoId
    ensures r[|IMAGE_HOST| + |videoId|..] == HQ_SUFFIX
  {
    IMAGE_HOST + videoId + HQ_SUFFIX
  }

  /** `youtube_thumbnail_url_maxres`: the full-resolution image of the video. */
  function YoutubeThumbnailUrlMaxres(videoId: string): (r: string)
    ensures |r| == |IMAGE_HOST| + |videoId| + |MAXRES_SUFFIX|
    ensures r[..|IMAGE_HOST|] == IMAGE_HOST && r[|IMAGE_HOST|..|IMAGE_HOST| + |videoId|] == videoId
    ensures r[|IMAGE_HOST| + |videoId|..] == MAXRES_SUFFIX
  {
    IMAGE_HOST + videoId + MAXRES_SUFFIX
  }

  /** The video id is recovered from a thumbnail URL of either quality, so distinct videos get distinct URLs. */
  lemma ThumbnailUrlsInjective(a: string, b: string)
    ensures YoutubeThumbnailUrl(a) == YoutubeThumbnailUrl(b) ==> a == b
    ensures YoutubeThumbnailUrlMaxres(a) == YoutubeThumbnailUrlMaxres(b) ==> a == b
  {
    var ha, hb := YoutubeThumbnailUrl(a), YoutubeThumbnailUrl(b);
    if ha == hb {
      assert a == ha[|IMAGE_HOST|..|IMAGE_HOST| + |a|];
    }
    var ma, mb := YoutubeThumbnailUrlMaxres(a), YoutubeThumbnailUrlMaxres(b);
    if ma == mb {
      assert a == ma[|IMAGE_HOST|..|IMAGE_HOST| + |a|];
    }
  }

  /** The two qualities never share a URL, whatever the two ids. */
  lemma QualitiesDiffer(a: string, b: string)
    ensures YoutubeThumbnailUrl(a) != YoutubeThumbnailUrlMaxres(b)
  {
    var h, m := YoutubeThumbnailUrl(a), YoutubeThumbnailUrlMaxres(b);
    if |h| == |m| {
      var i := |h| - |HQ_SUFFIX|;
      assert h[i] == HQ_SUFFIX[0] == '/';
      assert m[i] == MAXRES_SUFFIX[4] == 'r';
    }
  }

  /**
   * `get_playlist_thumbnail_url`: the playlist's own thumbnail when it has
   * one, else the first video's high-quality image, else nothing.
   */
  function GetPlaylistThumbnailUrl(playlistThumbnail: Option<string>, firstVideoId: Option<string>): (r: Option<string>)
    ensures r.None? <==> playlistThumbnail.None? && firstVideoId.None?
    ensures playlistThumbnail.Some? ==> r == playlistThumbnail
    ensures playlistThumbnail.None? && firstVideoId.Some? ==> r == Some(YoutubeThumbnailUrl(firstVideoId.value))
  {
    match playlistThumbnail
    case Some(url) => Some(url)
    case None =>
      match firstVideoId
      case Some(id) => Some(YoutubeThumbnailUrl(id))
      case None => None
  }

  /** What the HTTP exchange of `fetch_thumbnail_data` ended with. */
  datatype FetchResponse =
    | ClientError(reason: string)
    | SendError(reason: string)
    | BodyError(reason: string)
    | Received(body: Bytes)

  /** `fetch_thumbnail_data`: the body, unless a step failed or the body is empty. */
  function FetchThumbnailData(response: FetchResponse): (r: Result<Bytes, Error>)
    ensures r.Ok? <==> response.Received? && response.body != []
    ensures r.Ok? ==> r.value == response.body
    ensures r.Err? ==> r.error.Network?
  {
    match response
    case ClientError(e) => Err(Network("Failed to create HTTP client: " + e))
    case SendError(e) => Err(Network("Failed to fetch thumbnail: " + e))
    case BodyError(e) => Err(Network("Failed to read thumbnail data: " + e))
    case Received(data) => if data == [] then Err(Network("Empty thumbnail data")) else Ok(data)
  }

  /** `ThumbnailManager`: a fetch timeout and the cache it borrows. */
  class ThumbnailManager {
    const cache: Cache.CacheManager
    var timeoutSecs: nat

    constructor (cache: Cache.CacheManager)
      ensures this.cache == cache && timeoutSecs == DEFAULT_FETCH_TIMEOUT_SECS
    {
      this.cache := cache;
      timeoutSecs := DEFAULT_FETCH_TIMEOUT_SECS;
    }

    method WithTimeout(secs: nat)
      modifies this
      ensures timeoutSecs == secs
    {
      timeoutSecs := secs;
    }

    /** `is_cached` */
    function IsCached(id: string, now: nat): (r: bool)
      reads this, cache
      ensures r <==> cache.HasThumbnail(id, now)
    {
      cache.HasThumbnail(id, now)
    }

    /**
     * `get_thumbnail_path`: present exactly when the cache reports the
     * thumbnail, and then the file `put_thumbnail` writes for that id.
     */
    function GetThumbnailPath(id: string, now: nat): (r: Option<Path>)
      reads this, cache
      ensures r.Some? <==> cache.HasThumbnail(id, now)
      ensures r.Some? ==> r.value == cache.cacheDir + Cache.ThumbnailPath(Cache.ThumbnailKey(id))
      ensures r.Some? ==> r.value == cache.cacheDir + [Cache.THUMBNAIL_CACHE_DIR, "thumb_" + id + ".jpg"]
    {
      if cache.HasThumbnail(id, now) then Some(cache.cacheDir + [Cache.THUMBNAIL_CACHE_DIR, "thumb_" + id + ".jpg"])
      else None
    }

    /** `get_cached` */
    method GetCached(id: string, now: nat, stored: Option<Bytes>) returns (r: Option<Bytes>)
      requires cache.Valid()
      modifies cache
      ensures cache.Valid()
      ensures r.Some? <==> old(cache.HasThumbnail(id, now)) && stored.Some?
      ensures r.Some? ==> r == stored
    {
      r := cache.GetThumbnail(id, now, stored);
    }

    /**
     * `fetch_and_cache`: a cache hit is returned without fetching;
     * otherwise the fetched image is stored (`size` target, write outcome
     * and clock as for `put_thumbnail`) and returned.  A fetched image is
     * returned exactly when the cache is off for thumbnails or storing it
     * succeeds: it fits once space is made, and the file is written.  A
     * cached entry whose file could not be read is dropped first.
     */
    method FetchAndCache(id: string, now: nat, stored: Option<Bytes>, response: FetchResponse, target: nat, written: bool)
      returns (r: Result<Bytes, Error>)
      requires cache.Valid()
      modifies cache
      ensures cache.Valid()
      ensures old(cache.HasThumbnail(id, now)) && stored.Some? ==> r == Ok(stored.value)
      ensures !(old(cache.HasThumbnail(id, now)) && stored.Some?) && FetchThumbnailData(response).Err? ==>
        r == Err(FetchThumbnailData(response).error)
      ensures !(old(cache.HasThumbnail(id, now)) && stored.Some?) && r.Ok? ==>
        && response.Received? && r.value == response.body && r.value != []
        && (cache.config.enabled && cache.config.cacheThumbnails ==> cache.HasThumbnail(id, now))
      ensures !(old(cache.HasThumbnail(id, now)) && stored.Some?) && FetchThumbnailData(response).Ok? ==>
        var before := if old(cache.HasThumbnail(id, now)) then old(cache.entries) - {Cache.ThumbnailKey(id)} else old(cache.entries);
        var c := old(cache.config);
        var room := Cache.AfterEnsureSpace(before, c.ttlSecs, now, c.maxSizeBytes, |response.body|, target);
        (r.Ok? <==> !c.enabled || !c.cacheThumbnails || (Cache.Total(room) + |response.body| <= c.maxSizeBytes && written))
    {
      var hit := cache.GetThumbnail(id, now, stored);
      if hit.Some? {
        return Ok(hit.value);
      }
      var data :- FetchThumbnailData(response);
      var put := cache.PutThumbnail(id, |data|, target, now, written);
      if put.Err? {
        return Err(put.error);
      }
      r := Ok(data);
    }
  }

  /** The high-quality image URL the source's tests expect. */
  lemma UrlExample()
    ensures YoutubeThumbnailUrl("dQw4w9WgXcQ") == "https://img.youtube.com/vi/dQw4w9WgXcQ/hqdefault.jpg"
  {
  }

  /** The full-resolution image URL the source's tests expect. */
  lemma MaxresUrlExample()
    ensures YoutubeThumbnailUrlMaxres("dQw4w9WgXcQ") == "https://img.youtube.com/vi/dQw4w9WgXcQ/maxresdefault.jpg"
  {
  }

  /** A playlist without its own thumbnail falls back to its first video's image. */
  lemma PlaylistUrlExample()
    ensures GetPlaylistThumbnailUrl(None, Some("abc123")) == Some("https://img.youtube.com/vi/abc123/hqdefault.jpg")
  {
    assert YoutubeThumbnailUrl("abc123") == "https://img.youtube.com/vi/abc123/hqdefault.jpg";
  }
}
