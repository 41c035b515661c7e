/**
 * The cache manager's manifest bookkeeping: which metadata, thumbnail and
 * temporary files the cache holds, how many bytes they take, when each one
 * expires, and how the cache makes room when it is full.
 *
 * The manifest (`entries` and `totalSizeBytes`) is modelled exactly; the
 * cached files' bytes are not.  What a read of a cached file returns, whether
 * a write succeeds, the clock and the `f64` size thresholds are inputs.
 */
module Cache {
  import opened Wrappers
  import opened Files
  import opened Errors
  import opened Metadata

  const DEFAULT_MAX_CACHE_SIZE: nat := 100 * 1024 * 1024
  const DEFAULT_CACHE_TTL_SECS: nat := 7 * 24 * 60 * 60
  const METADATA_CACHE_DIR: string := "metadata"
  const THUMBNAIL_CACHE_DIR: string := "thumbnails"
  const TEMP_CACHE_DIR: string := "temp"

  datatype CacheEntryType = Metadata | Thumbnail | Temp

  /** One manifest entry; `path` is relative to the cache directory. */
  datatype CacheEntry = CacheEntry(
    key: string,
    path: Path,
    sizeBytes: nat,
    createdAt: nat,
    lastAccessedAt: nat,
    entryType: CacheEntryType)

  /**
   * `CacheConfig` without its two `f64` fractions: the byte sizes they yield
   * (`max_size_bytes * cleanup_target` and `max_size_bytes * cleanup_threshold`)
   * are passed to the operations that use them.
   */
  datatype CacheConfig = CacheConfig(
    enabled: bool,
    maxSizeBytes: nat,
    ttlSecs: nat,
    cacheMetadata: bool,
    cacheThumbnails: bool,
    customCacheDir: Option<Path>)

  function DefaultConfig(): (c: CacheConfig)
    ensures c.enabled && c.cacheMetadata && c.cacheThumbnails && c.customCacheDir.None?
    ensures c.maxSizeBytes == 104857600 && c.ttlSecs == 604800
  {
    CacheConfig(true, DEFAULT_MAX_CACHE_SIZE, DEFAULT_CACHE_TTL_SECS, true, true, None)
  }

  /** `CacheConfig::disabled()`: the defaults with caching switched off. */
  function DisabledConfig(): (c: CacheConfig)
    ensures !c.enabled && c == DefaultConfig().(enabled := false)
  {
    DefaultConfig().(enabled := false)
  }

  /** `CacheCleanupStats` without its duration. */
  datatype CacheCleanupStats = CacheCleanupStats(
    entriesRemoved: nat,
    bytesFreed: nat,
    expiredEntries: nat,
    spaceReclaimedEntries: nat)

  function NoCleanup(): CacheCleanupStats {
    CacheCleanupStats(0, 0, 0, 0)
  }

  /** `CacheStats` without its `f64` usage fraction. */
  datatype CacheStats = CacheStats(
    totalEntries: nat,
    metadataEntries: nat,
    thumbnailEntries: nat,
    tempEntries: nat,
    totalSizeBytes: nat,
    maxSizeBytes: nat,
    enabled: bool)

  /** The content of a cached metadata file, when it can be read and parsed. */
  datatype CachedMetadata = CachedMetadata(metadata: Mp3Metadata, sourcePath: Path, sourceModifiedAt: nat)

  /** `u64::saturating_sub` */
  function SatSub(a: nat, b: nat): (r: nat)
    ensures a >= b ==> r + b == a
    ensures a < b ==> r == 0
  {
    if a >= b then a - b else 0
  }

  /** `is_expired`: more than `ttl` seconds have passed since the entry was created. */
  function IsExpired(e: CacheEntry, ttl: nat, now: nat): (r: bool)
    ensures r <==> now > e.createdAt + ttl
  {
    SatSub(now, e.createdAt) > ttl
  }

  function ThumbnailKey(videoId: string): (k: string)
    ensures |k| == |videoId| + 6 && k[6..] == videoId
  {
    "thumb_" + videoId
  }

  /** Distinct videos never share a thumbnail entry. */
  lemma ThumbnailKeyInjective(a: string, b: string)
    ensures ThumbnailKey(a) == ThumbnailKey(b) ==> a == b
  {
  }

  /** `metadata_cache_key`: `hash` stands for the 16 hex digits of the hash of the path and its modification time. */
  function MetadataKey(hash: string): (k: string)
    ensures |k| == |hash| + 5 && k[5..] == hash
  {
    "meta_" + hash
  }

  /** A metadata entry and a thumbnail entry never share a key. */
  lemma KindsNeverCollide(hash: string, videoId: string)
    ensures MetadataKey(hash) != ThumbnailKey(videoId)
  {
    assert MetadataKey(hash)[0] == 'm' && ThumbnailKey(videoId)[0] == 't';
  }

  function ThumbnailPath(key: string): (p: Path)
    ensures |p| == 2 && p[0] == THUMBNAIL_CACHE_DIR
  {
    [THUMBNAIL_CACHE_DIR, key + ".jpg"]
  }

  function MetadataPath(key: string): (p: Path)
    ensures |p| == 2 && p[0] == METADATA_CACHE_DIR
  {
    [METADATA_CACHE_DIR, key + ".json"]
  }

  // ---------------------------------------------------------------------
  // The manifest's byte total
  // ---------------------------------------------------------------------

  type Entries = map<string, CacheEntry>

  /** The sum of the entries' sizes. */
  ghost function Total(m: Entries): nat
    decreases m.Keys
  {
    if m == map[] then 0
    else
      var k :| k in m;
      m[k].sizeBytes + Total(m - {k})
  }

  /** The sum does not depend on which entry is taken out first. */
  lemma {:induction false} TotalRemove(m: Entries, k: string)
    requires k in m
    ensures Total(m) == m[k].sizeBytes + Total(m - {k})
    decreases m.Keys
  {
    var j :| j in m && Total(m) == m[j].sizeBytes + Total(m - {j});
    if j != k {
      TotalRemove(m - {j}, k);
      TotalRemove(m - {k}, j);
      assert (m - {j}) - {k} == (m - {k}) - {j};
    }
  }

  lemma TotalInsert(m: Entries, k: string, e: CacheEntry)
    requires k !in m
    ensures Total(m[k := e]) == e.sizeBytes + Total(m)
  {
    TotalRemove(m[k := e], k);
    assert m[k := e] - {k} == m;
  }

  /** Replacing an entry by one of the same size keeps the total. */
  lemma TotalReplaceSameSize(m: Entries, k: string, e: CacheEntry)
    requires k in m && m[k].sizeBytes == e.sizeBytes
    ensures Total(m[k := e]) == Total(m)
  {
    TotalRemove(m[k := e], k);
    TotalRemove(m, k);
    assert m[k := e] - {k} == m - {k};
  }

  lemma TotalEmpty()
    ensures Total(map[]) == 0
  {
  }

  /** Every key names its own entry, as `put_metadata` and `put_thumbnail` build them. */
  ghost predicate KeysMatch(m: Entries) {
    forall k :: k in m ==> m[k].key == k
  }

  // ---------------------------------------------------------------------
  // The manifest states the cleanups lead to
  // ---------------------------------------------------------------------

  function Unexpired(m: Entries, ttl: nat, now: nat): (r: Entries)
    ensures forall k :: k in r <==> k in m && !IsExpired(m[k], ttl, now)
    ensures forall k :: k in r ==> r[k] == m[k]
  {
    map k | k in m && !IsExpired(m[k], ttl, now) :: m[k]
  }

  function ExpiredKeys(m: Entries, ttl: nat, now: nat): (r: set<string>)
    ensures forall k :: k in r <==> k in m && IsExpired(m[k], ttl, now)
  {
    set k | k in m.Keys && IsExpired(m[k], ttl, now)
  }

  /**
   * What `cleanup_to_target` leaves: the unexpired entries, unless their
   * total still exceeds the target, in which case nothing at all.
   */
  ghost function CleanedToTarget(m: Entries, ttl: nat, now: nat, target: nat): (r: Entries)
    ensures Total(r) <= target || r == Unexpired(m, ttl, now)
  {
    var kept := Unexpired(m, ttl, now);
    if Total(kept) > target then TotalEmpty(); map[] else kept
  }

  /** After a cleanup to a target no expired entry is left and the total is within the target. */
  lemma CleanedToTargetSpec(m: Entries, ttl: nat, now: nat, target: nat)
    ensures var r := CleanedToTarget(m, ttl, now, target);
      && (forall k :: k in r ==> k in m && r[k] == m[k] && !IsExpired(m[k], ttl, now))
      && (Total(Unexpired(m, ttl, now)) <= target ==> r == Unexpired(m, ttl, now))
      && (Total(Unexpired(m, ttl, now)) > target ==> r == map[])
      && Total(r) <= target
  {
    TotalEmpty();
  }

  /**
   * The eviction does not stop once the total is below the target: two
   * fresh 10-byte entries over a 15-byte target are both removed, though
   * removing one would have been enough.
   */
  lemma CleanupEvictsEverything()
    ensures var a := CacheEntry("a", ["temp", "a"], 10, 0, 0, Temp);
      var b := CacheEntry("b", ["temp", "b"], 10, 0, 5, Temp);
      var m := map["a" := a, "b" := b];
      && Total(m - {"a"}) <= 15
      && CleanedToTarget(m, 100, 0, 15) == map[]
  {
    var a := CacheEntry("a", ["temp", "a"], 10, 0, 0, Temp);
    var b := CacheEntry("b", ["temp", "b"], 10, 0, 5, Temp);
    var m := map["a" := a, "b" := b];
    assert Unexpired(m, 100, 0) == m;
    TotalRemove(m, "a");
    TotalRemove(m - {"a"}, "b");
    assert m - {"a"} - {"b"} == map[];
    TotalEmpty();
  }

  /** What `ensure_space` leaves: the manifest untouched when the bytes fit, the cleaned manifest otherwise. */
  ghost function AfterEnsureSpace(m: Entries, ttl: nat, now: nat, max: nat, required: nat, target: nat): (r: Entries)
    ensures Total(m) + required <= max ==> r == m
  {
    if Total(m) + required <= max then m else CleanedToTarget(m, ttl, now, target)
  }

  /** With the target leaving room for `required` bytes, `ensure_space` always succeeds. */
  lemma EnsureSpaceSucceedsBelowTarget(m: Entries, ttl: nat, now: nat, max: nat, required: nat, target: nat)
    requires target + required <= max
    ensures Total(AfterEnsureSpace(m, ttl, now, max, required, target)) + required <= max
  {
    CleanedToTargetSpec(m, ttl, now, target);
  }

  function WithoutTemp(m: Entries): (r: Entries)
    ensures forall k :: k in r <==> k in m && m[k].entryType != Temp
    ensures forall k :: k in r ==> r[k] == m[k]
  {
    map k | k in m && m[k].entryType != Temp :: m[k]
  }

  function KeysOfType(m: Entries, t: CacheEntryType): (r: set<string>)
    ensures forall k :: k in r <==> k in m && m[k].entryType == t
  {
    set k | k in m.Keys && m[k].entryType == t
  }

  /** The three kinds partition the manifest. */
  lemma KindsPartition(m: Entries)
    ensures |KeysOfType(m, Metadata)| + |KeysOfType(m, Thumbnail)| + |KeysOfType(m, Temp)| == |m|
  {
    var a, b, c := KeysOfType(m, Metadata), KeysOfType(m, Thumbnail), KeysOfType(m, Temp);
    assert a * b == {};
    assert (a + b) * c == {};
    assert a + b + c == m.Keys;
  }

  // ---------------------------------------------------------------------
  // The removal loops
  // ---------------------------------------------------------------------

  /** Part-way through removing `keys` from `orig`: those already taken are gone, the rest untouched. */
  ghost predicate RemovedSoFar(orig: Entries, keys: set<string>, todo: set<string>, cur: Entries) {
    && todo <= keys
    && (forall k :: k in cur <==> k in orig && (k !in keys || k in todo))
    && (forall k :: k in cur ==> cur[k] == orig[k])
  }

  lemma RemoveStep(orig: Entries, keys: set<string>, todo: set<string>, cur: Entries, k: string)
    requires RemovedSoFar(orig, keys, todo, cur) && keys <= orig.Keys && k in todo
    ensures k in cur && cur[k] == orig[k]
    ensures RemovedSoFar(orig, keys, todo - {k}, cur - {k})
  {
  }

  lemma RemoveDone(orig: Entries, keys: set<string>, cur: Entries)
    requires RemovedSoFar(orig, keys, {}, cur)
    ensures cur == orig - keys
  {
  }

  lemma KeysMatchSub(m: Entries, keys: set<string>)
    requires KeysMatch(m)
    ensures KeysMatch(m - keys)
  {
  }

  class CacheManager {
    var config: CacheConfig
    var cacheDir: Path
    var entries: Entries
    var totalSizeBytes: nat
    var lastCleanupAt: nat

    /** The manifest's running total is the sum of its entries' sizes. */
    ghost predicate Valid()
      reads this
    {
      totalSizeBytes == Total(entries) && KeysMatch(entries)
    }

    /**
     * `CacheManager::new` with no manifest on disk (or caching disabled):
     * the directory is the configured one, or the platform default.
     */
    constructor (config: CacheConfig, defaultDir: Path)
      ensures Valid()
      ensures this.config == config && entries == map[] && lastCleanupAt == 0
      ensures cacheDir == if config.customCacheDir.Some? then config.customCacheDir.value else defaultDir
    {
      this.config := config;
      cacheDir := config.customCacheDir.UnwrapOr(defaultDir);
      entries := map[];
      totalSizeBytes := 0;
      lastCleanupAt := 0;
      new;
      TotalEmpty();
    }

    /** `stats`: the entries counted by kind; the kinds add up to the total. */
    method Stats() returns (s: CacheStats)
      ensures s.totalEntries == |entries|
      ensures s.metadataEntries == |KeysOfType(entries, Metadata)|
      ensures s.thumbnailEntries == |KeysOfType(entries, Thumbnail)|
      ensures s.tempEntries == |KeysOfType(entries, Temp)|
      ensures s.metadataEntries + s.thumbnailEntries + s.tempEntries == s.totalEntries
      ensures s.totalSizeBytes == totalSizeBytes && s.maxSizeBytes == config.maxSizeBytes && s.enabled == config.enabled
    {
      var m := entries;
      var todo := m.Keys;
      var meta, thumb, temp := 0, 0, 0;
      while todo != {}
        invariant CountedSoFar(m, todo, meta, thumb, temp)
        decreases |todo|
      {
        var k :| k in todo;
        CountStep(m, todo, meta, thumb, temp, k);
        match m[k].entryType {
          case Metadata => meta := meta + 1;
          case Thumbnail => thumb := thumb + 1;
          case Temp => temp := temp + 1;
        }
        todo := todo - {k};
      }
      CountDone(m, meta, thumb, temp);
      KindsPartition(m);
      s := CacheStats(|m|, meta, thumb, temp, totalSizeBytes, config.maxSizeBytes, config.enabled);
    }

    /** `has_thumbnail`: the cache is on for thumbnails and holds an unexpired entry for the video. */
    function HasThumbnail(videoId: string, now: nat): (r: bool)
      reads this
      ensures r <==> (config.enabled && config.cacheThumbnails && ThumbnailKey(videoId) in entries
                      && now <= entries[ThumbnailKey(videoId)].createdAt + config.ttlSecs)
    {
      var key := ThumbnailKey(videoId);
      config.enabled && config.cacheThumbnails && key in entries && !IsExpired(entries[key], config.ttlSecs, now)
    }

    /** Removes the given keys, subtracting each entry's size; the shared body of the cleanup loops. */
    method RemoveKeys(keys: set<string>) returns (removed: nat, freed: nat)
      requires Valid() && keys <= entries.Keys
      modifies this
      ensures Valid()
      ensures entries == old(entries) - keys
      ensures removed == |keys| && freed + totalSizeBytes == old(totalSizeBytes)
      ensures config == old(config) && cacheDir == old(cacheDir) && lastCleanupAt == old(lastCleanupAt)
    {
      var m := entries;
      var total := totalSizeBytes;
      var todo := keys;
      removed, freed := 0, 0;
      while todo != {}
        invariant RemovedSoFar(old(entries), keys, todo, m)
        invariant total == Total(m)
        invariant removed + |todo| == |keys|
        invariant freed + total == old(totalSizeBytes)
        invariant unchanged(this)
        decreases |todo|
      {
        var k :| k in todo;
        RemoveStep(old(entries), keys, todo, m, k);
        var e := m[k];
        TotalRemove(m, k);
        m := m - {k};
        total := SatSub(total, e.sizeBytes);
        removed, freed := removed + 1, freed + e.sizeBytes;
        todo := todo - {k};
      }
      RemoveDone(old(entries), keys, m);
      KeysMatchSub(old(entries), keys);
      entries, totalSizeBytes := m, total;
    }

    /** `remove_entry`: drops the key, if present, and its size from the total. */
    method RemoveEntry(key: string)
      requires Valid()
      modifies this
      ensures Valid()
      ensures entries == old(entries) - {key}
      ensures key in old(entries) ==> totalSizeBytes + old(entries)[key].sizeBytes == old(totalSizeBytes)
      ensures key !in old(entries) ==> totalSizeBytes == old(totalSizeBytes)
      ensures config == old(config) && cacheDir == old(cacheDir) && lastCleanupAt == old(lastCleanupAt)
    {
      if key in entries {
        var e := entries[key];
        TotalRemove(entries, key);
        KeysMatchSub(entries, {key});
        entries := entries - {key};
        totalSizeBytes := SatSub(totalSizeBytes, e.sizeBytes);
      } else {
        assert entries - {key} == entries;
      }
    }

    /** `cleanup_expired`: every expired entry goes, nothing else. */
    method CleanupExpired(now: nat) returns (stats: CacheCleanupStats)
      requires Valid()
      modifies this
      ensures Valid()
      ensures entries == Unexpired(old(entries), config.ttlSecs, now)
      ensures stats.entriesRemoved == stats.expiredEntries == |ExpiredKeys(old(entries), config.ttlSecs, now)|
      ensures stats.spaceReclaimedEntries == 0
      ensures stats.bytesFreed + totalSizeBytes == old(totalSizeBytes)
      ensures config == old(config) && cacheDir == old(cacheDir) && lastCleanupAt == old(lastCleanupAt)
    {
      var expired := ExpiredKeys(entries, config.ttlSecs, now);
      var removed, freed := RemoveKeys(expired);
      assert entries == Unexpired(old(entries), config.ttlSecs, now);
      stats := CacheCleanupStats(removed, freed, removed, 0);
    }

    /**
     * `cleanup_to_target`: the expired entries first; then, if the total
     * still exceeds the target, every remaining entry (the loop meant to
     * stop at the target tests a total that does not change while it runs,
     * so the least-recently-used order it sorts by decides nothing).
     */
    method CleanupToTarget(target: nat, now: nat) returns (stats: CacheCleanupStats)
      requires Valid()
      modifies this
      ensures Valid()
      ensures entries == CleanedToTarget(old(entries), config.ttlSecs, now, target)
      ensures totalSizeBytes <= target || entries == Unexpired(old(entries), config.ttlSecs, now)
      ensures stats.expiredEntries == |ExpiredKeys(old(entries), config.ttlSecs, now)|
      ensures stats.spaceReclaimedEntries ==
        if Total(Unexpired(old(entries), config.ttlSecs, now)) > target then |Unexpired(old(entries), config.ttlSecs, now)| else 0
      ensures stats.entriesRemoved == stats.expiredEntries + stats.spaceReclaimedEntries
      ensures stats.bytesFreed + totalSizeBytes == old(totalSizeBytes)
      ensures lastCleanupAt == now
      ensures config == old(config) && cacheDir == old(cacheDir)
    {
      stats := CleanupExpired(now);
      ghost var kept := entries;
      if totalSizeBytes > target {
        var removed, freed := RemoveKeys(entries.Keys);
        assert entries == map[];
        assert |kept.Keys| == |kept|;
        stats := stats.(entriesRemoved := stats.entriesRemoved + removed,
                        spaceReclaimedEntries := removed,
                        bytesFreed := stats.bytesFreed + freed);
      }
      lastCleanupAt := now;
    }

    /**
     * `ensure_space`: nothing happens when the bytes fit; otherwise the
     * cache is cleaned to `target` (`max_size_bytes * cleanup_target`) and
     * fails with CacheFull if they still do not fit.
     */
    method EnsureSpace(required: nat, target: nat, now: nat) returns (r: Result<(), Error>)
      requires Valid()
      modifies this
      ensures Valid()
      ensures entries == AfterEnsureSpace(old(entries), config.ttlSecs, now, config.maxSizeBytes, required, target)
      ensures r.Ok? <==> totalSizeBytes + required <= config.maxSizeBytes
      ensures r.Err? ==> r.error == CacheFull(totalSizeBytes, config.maxSizeBytes)
      ensures old(totalSizeBytes) + required <= config.maxSizeBytes ==> lastCleanupAt == old(lastCleanupAt)
      ensures old(totalSizeBytes) + required > config.maxSizeBytes ==> lastCleanupAt == now
      ensures config == old(config) && cacheDir == old(cacheDir)
    {
      if totalSizeBytes + required <= config.maxSizeBytes {
        return Ok(());
      }
      var _ := CleanupToTarget(target, now);
      if totalSizeBytes + required > config.maxSizeBytes {
        return Err(CacheFull(totalSizeBytes, config.maxSizeBytes));
      }
      r := Ok(());
    }

    /**
     * The common body of `put_metadata` and `put_thumbnail`: make room,
     * write the file (`written` is whether the write succeeded), then
     * replace any entry under the same key by the new one.
     */
    method Put(key: string, relPath: Path, size: nat, kind: CacheEntryType, target: nat, now: nat, written: bool)
      returns (r: Result<(), Error>)
      requires Valid()
      modifies this
      ensures Valid()
      ensures var room := AfterEnsureSpace(old(entries), config.ttlSecs, now, config.maxSizeBytes, size, target);
        && (r.Ok? <==> Total(room) + size <= config.maxSizeBytes && written)
        && entries == (if r.Ok? then room[key := CacheEntry(key, relPath, size, now, now, kind)] else room)
        && (Total(room) + size > config.maxSizeBytes ==> r == Err(CacheFull(Total(room), config.maxSizeBytes)))
        && (Total(room) + size <= config.maxSizeBytes && !written ==> r == Err(FileSystem(WriteFailed(cacheDir + relPath))))
      ensures r.Ok? ==> totalSizeBytes <= config.maxSizeBytes
      ensures config == old(config) && cacheDir == old(cacheDir)
    {
      r := EnsureSpace(size, target, now);
      if r.Err? {
        return;
      }
      if !written {
        return Err(FileSystem(WriteFailed(cacheDir + relPath)));
      }
      ghost var room := entries;
      ghost var roomTotal := totalSizeBytes;
      RemoveEntry(key);
      var e := CacheEntry(key, relPath, size, now, now, kind);
      TotalInsert(entries, key, e);
      assert entries[key := e] == room[key := e];
      entries := entries[key := e];
      totalSizeBytes := totalSizeBytes + size;
    }

    /** `put_metadata`, with the path's hash and the JSON's length as inputs. */
    method PutMetadata(hash: string, size: nat, target: nat, now: nat, written: bool) returns (r: Result<(), Error>)
      requires Valid()
      modifies this
      ensures Valid()
      ensures !config.enabled || !config.cacheMetadata ==> r.Ok? && unchanged(this)
      ensures config.enabled && config.cacheMetadata && r.Ok? ==>
        var key := MetadataKey(hash);
        key in entries && entries[key] == CacheEntry(key, MetadataPath(key), size, now, now, Metadata)
        && totalSizeBytes <= config.maxSizeBytes
      ensures config.enabled && config.cacheMetadata ==>
        var room := AfterEnsureSpace(old(entries), config.ttlSecs, now, config.maxSizeBytes, size, target);
        (r.Ok? <==> Total(room) + size <= config.maxSizeBytes && written)
    {
      if !config.enabled || !config.cacheMetadata {
        return Ok(());
      }
      var key := MetadataKey(hash);
      r := Put(key, MetadataPath(key), size, Metadata, target, now, written);
    }

    /** `put_thumbnail`, with the image's length as input. */
    method PutThumbnail(videoId: string, size: nat, target: nat, now: nat, written: bool) returns (r: Result<(), Error>)
      requires Valid()
      modifies this
      ensures Valid()
      ensures !config.enabled || !config.cacheThumbnails ==> r.Ok? && unchanged(this)
      ensures config.enabled && config.cacheThumbnails && r.Ok? ==>
        var key := ThumbnailKey(videoId);
        key in entries && entries[key] == CacheEntry(key, ThumbnailPath(key), size, now, now, Thumbnail)
        && HasThumbnail(videoId, now)
      ensures config.enabled && config.cacheThumbnails ==>
        var room := AfterEnsureSpace(old(entries), config.ttlSecs, now, config.maxSizeBytes, size, target);
        (r.Ok? <==> Total(room) + size <= config.maxSizeBytes && written)
      ensures config == old(config) && cacheDir == old(cacheDir)
    {
      if !config.enabled || !config.cacheThumbnails {
        return Ok(());
      }
      var key := ThumbnailKey(videoId);
      r := Put(key, ThumbnailPath(key), size, Thumbnail, target, now, written);
    }

    /**
     * `get_thumbnail`: `stored` is what reading the cached file yields.  A
     * hit refreshes the entry's access time; an unreadable file drops the
     * entry.
     */
    method GetThumbnail(videoId: string, now: nat, stored: Option<Bytes>) returns (r: Option<Bytes>)
      requires Valid()
      modifies this
      ensures Valid()
      ensures r.Some? <==> old(HasThumbnail(videoId, now)) && stored.Some?
      ensures r.Some? ==> r == stored
      ensures var key := ThumbnailKey(videoId);
        && (!old(HasThumbnail(videoId, now)) ==> entries == old(entries))
        && (old(HasThumbnail(videoId, now)) && stored.None? ==> entries == old(entries) - {key})
        && (r.Some? ==> entries == old(entries)[key := old(entries)[key].(lastAccessedAt := now)])
      ensures config == old(config) && cacheDir == old(cacheDir) && lastCleanupAt == old(lastCleanupAt)
    {
      if !HasThumbnail(videoId, now) {
        return None;
      }
      var key := ThumbnailKey(videoId);
      if stored.None? {
        RemoveEntry(key);
        return None;
      }
      Touch(key, now);
      r := stored;
    }

    /**
     * `get_metadata`: `cached` is the parsed cached file (None when it cannot
     * be read or parsed), `modifiedAt` the source file's modification time
     * and `hash` the hash of the path and that time.  A stale or unreadable entry is dropped.
     */
    method GetMetadata(hash: string, modifiedAt: nat, now: nat, cached: Option<CachedMetadata>) returns (r: Option<Mp3Metadata>)
      requires Valid()
      modifies this
      ensures Valid()
      ensures var key := MetadataKey(hash);
        var live := config.enabled && config.cacheMetadata && key in old(entries)
          && !IsExpired(old(entries)[key], config.ttlSecs, now);
        && (r.Some? <==> live && cached.Some? && cached.value.sourceModifiedAt == modifiedAt)
        && (r.Some? ==> (r.value == cached.value.metadata
                         && entries == old(entries)[key := old(entries)[key].(lastAccessedAt := now)]))
        && (!live ==> entries == old(entries))
        && (live && r.None? ==> entries == old(entries) - {key})
      ensures config == old(config) && cacheDir == old(cacheDir) && lastCleanupAt == old(lastCleanupAt)
    {
      if !config.enabled || !config.cacheMetadata {
        return None;
      }
      var key := MetadataKey(hash);
      if key !in entries || IsExpired(entries[key], config.ttlSecs, now) {
        return None;
      }
      if cached.None? || cached.value.sourceModifiedAt != modifiedAt {
        RemoveEntry(key);
        return None;
      }
      Touch(key, now);
      r := Some(cached.value.metadata);
    }

    /** `touch`: the entry's access time becomes `now`. */
    method Touch(key: string, now: nat)
      requires Valid() && key in entries
      modifies this
      ensures Valid()
      ensures entries == old(entries)[key := old(entries)[key].(lastAccessedAt := now)]
      ensures totalSizeBytes == old(totalSizeBytes)
      ensures config == old(config) && cacheDir == old(cacheDir) && lastCleanupAt == old(lastCleanupAt)
    {
      var e := entries[key].(lastAccessedAt := now);
      TotalReplaceSameSize(entries, key, e);
      entries := entries[key := e];
    }

    /**
     * `cleanup_temp`: when the temp directory exists, every Temp entry
     * leaves the manifest; `tempFileBytes` is the size of the files then
     * deleted from the directory.
     */
    method CleanupTemp(tempDirExists: bool, tempFileBytes: nat) returns (stats: CacheCleanupStats)
      requires Valid()
      modifies this
      ensures Valid()
      ensures !tempDirExists ==> stats == NoCleanup() && entries == old(entries)
      ensures tempDirExists ==> entries == WithoutTemp(old(entries))
      ensures tempDirExists ==> (stats.entriesRemoved == |KeysOfType(old(entries), Temp)|
                                 && stats.bytesFreed == old(totalSizeBytes) - totalSizeBytes + tempFileBytes
                                 && stats.expiredEntries == 0 && stats.spaceReclaimedEntries == 0)
      ensures totalSizeBytes <= old(totalSizeBytes)
      ensures config == old(config) && cacheDir == old(cacheDir) && lastCleanupAt == old(lastCleanupAt)
    {
      if !tempDirExists {
        return NoCleanup();
      }
      var temp := KeysOfType(entries, Temp);
      var removed, freed := RemoveKeys(temp);
      assert entries == WithoutTemp(old(entries));
      stats := CacheCleanupStats(removed, freed + tempFileBytes, 0, 0);
    }

    /**
     * `cleanup`: a cleanup to `target` when the total exceeds `threshold`
     * (`max_size_bytes * cleanup_threshold`), otherwise only the expired
     * entries; `orphanFiles`/`orphanBytes` count the files found on disk
     * but not in the manifest, which are deleted too.
     */
    method Cleanup(threshold: nat, target: nat, now: nat, orphanFiles: nat, orphanBytes: nat) returns (stats: CacheCleanupStats)
      requires Valid()
      modifies this
      ensures Valid()
      ensures !config.enabled ==> stats == NoCleanup() && unchanged(this)
      ensures config.enabled && old(totalSizeBytes) > threshold ==>
        entries == CleanedToTarget(old(entries), config.ttlSecs, now, target) && lastCleanupAt == now
      ensures config.enabled && old(totalSizeBytes) <= threshold ==>
        entries == Unexpired(old(entries), config.ttlSecs, now) && lastCleanupAt == old(lastCleanupAt)
      ensures config.enabled ==>
        stats.bytesFreed == old(totalSizeBytes) - totalSizeBytes + orphanBytes
        && stats.entriesRemoved == stats.expiredEntries + stats.spaceReclaimedEntries + orphanFiles
        && stats.expiredEntries == |ExpiredKeys(old(entries), config.ttlSecs, now)|
      ensures config == old(config) && cacheDir == old(cacheDir)
    {
      if !config.enabled {
        return NoCleanup();
      }
      if totalSizeBytes > threshold {
        stats := CleanupToTarget(target, now);
      } else {
        stats := CleanupExpired(now);
      }
      stats := stats.(entriesRemoved := stats.entriesRemoved + orphanFiles, bytesFreed := stats.bytesFreed + orphanBytes);
    }

    /** `clear`: the manifest starts over; the stats report what it held. */
    method Clear() returns (stats: CacheCleanupStats)
      requires Valid()
      modifies this
      ensures Valid()
      ensures entries == map[] && totalSizeBytes == 0 && lastCleanupAt == 0
      ensures stats == CacheCleanupStats(|old(entries)|, Total(old(entries)), 0, 0)
      ensures config == old(config) && cacheDir == old(cacheDir)
    {
      stats := CacheCleanupStats(|entries|, totalSizeBytes, 0, 0);
      entries := map[];
      totalSizeBytes := 0;
      lastCleanupAt := 0;
      TotalEmpty();
    }

    /** `update_config`: every setting but the cache directory, which stays as configured. */
    method UpdateConfig(c: CacheConfig)
      modifies this
      ensures config == c.(customCacheDir := old(config.customCacheDir))
      ensures config.customCacheDir == old(config.customCacheDir)
      ensures entries == old(entries) && totalSizeBytes == old(totalSizeBytes) && cacheDir == old(cacheDir)
      ensures lastCleanupAt == old(lastCleanupAt)
    {
      config := c.(customCacheDir := config.customCacheDir);
    }
  }

  /** Part-way through counting `m` by kind: the keys not in `todo` are counted. */
  ghost predicate CountedSoFar(m: Entries, todo: set<string>, meta: nat, thumb: nat, temp: nat) {
    && todo <= m.Keys
    && meta == |KeysOfType(m, Metadata) - todo|
    && thumb == |KeysOfType(m, Thumbnail) - todo|
    && temp == |KeysOfType(m, Temp) - todo|
  }

  lemma CountStep(m: Entries, todo: set<string>, meta: nat, thumb: nat, temp: nat, k: string)
    requires CountedSoFar(m, todo, meta, thumb, temp) && k in todo
    ensures var t := m[k].entryType;
      CountedSoFar(m, todo - {k},
        if t == Metadata then meta + 1 else meta,
        if t == Thumbnail then thumb + 1 else thumb,
        if t == Temp then temp + 1 else temp)
  {
    CountOne(m, todo, k, Metadata);
    CountOne(m, todo, k, Thumbnail);
    CountOne(m, todo, k, Temp);
  }

  /** Visiting `k` adds it to the count of its own kind only. */
  lemma CountOne(m: Entries, todo: set<string>, k: string, t: CacheEntryType)
    requires todo <= m.Keys && k in todo
    ensures |KeysOfType(m, t) - (todo - {k})| == |KeysOfType(m, t) - todo| + (if m[k].entryType == t then 1 else 0)
  {
    if m[k].entryType == t {
      assert KeysOfType(m, t) - (todo - {k}) == (KeysOfType(m, t) - todo) + {k};
    } else {
      assert KeysOfType(m, t) - (todo - {k}) == KeysOfType(m, t) - todo;
    }
  }

  lemma CountDone(m: Entries, meta: nat, thumb: nat, temp: nat)
    requires CountedSoFar(m, {}, meta, thumb, temp)
    ensures meta == |KeysOfType(m, Metadata)| && thumb == |KeysOfType(m, Thumbnail)| && temp == |KeysOfType(m, Temp)|
  {
    forall t: CacheEntryType
      ensures KeysOfType(m, t) - {} == KeysOfType(m, t)
    {
    }
  }
}
