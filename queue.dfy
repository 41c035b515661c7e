/**
 * The download queue: playlist download requests waiting, running and
 * finished, with a priority order, a concurrency limit, a pause switch and
 * retries.  The queue's state (`QueueState`, behind the manager's lock) is
 * the class `DownloadQueueManager`, whose methods are the manager's
 * operations; the lock and the event channel are not modelled, and the
 * clock is an input (`now`).
 */
module Queue {
  import opened Wrappers
  import opened Files
  import Sorting

  const DEFAULT_MAX_CONCURRENT_DOWNLOADS: nat := 2
  const MIN_CONCURRENT_DOWNLOADS: nat := 1
  const MAX_CONCURRENT_DOWNLOADS: nat := 4

  datatype DownloadPriority = Low | Normal | High

  /** The enum's discriminant, which its derived ordering follows. */
  function Rank(p: DownloadPriority): (r: nat)
    ensures r <= 2
    ensures (r == 0 <==> p == Low) && (r == 2 <==> p == High)
  {
    match p
    case Low => 0
    case Normal => 1
    case High => 2
  }

  datatype QueueItemStatus = Pending | Downloading | Completed | Failed(message: string) | Cancelled

  datatype QueueConfig = QueueConfig(
    maxConcurrentDownloads: nat,
    autoStart: bool,
    autoRetry: bool,
    maxRetries: nat)

  function DefaultQueueConfig(): (c: QueueConfig)
    ensures c.maxConcurrentDownloads == 2 && c.autoStart && !c.autoRetry && c.maxRetries == 3
  {
    QueueConfig(DEFAULT_MAX_CONCURRENT_DOWNLOADS, true, false, 3)
  }

  /** `usize::clamp` */
  function Clamp(n: nat, lo: nat, hi: nat): (r: nat)
    requires lo <= hi
    ensures lo <= r <= hi
    ensures lo <= n <= hi ==> r == n
    ensures n < lo ==> r == lo
    ensures n > hi ==> r == hi
  {
    if n < lo then lo else if n > hi then hi else n
  }

  /** `QueueConfig::validate`: the concurrency limit is brought into [1, 4]; nothing else changes. */
  function Validate(c: QueueConfig): (r: QueueConfig)
    ensures MIN_CONCURRENT_DOWNLOADS <= r.maxConcurrentDownloads <= MAX_CONCURRENT_DOWNLOADS
    ensures MIN_CONCURRENT_DOWNLOADS <= c.maxConcurrentDownloads <= MAX_CONCURRENT_DOWNLOADS ==> r == c
    ensures r.autoStart == c.autoStart && r.autoRetry == c.autoRetry && r.maxRetries == c.maxRetries
  {
    c.(maxConcurrentDownloads := Clamp(c.maxConcurrentDownloads, MIN_CONCURRENT_DOWNLOADS, MAX_CONCURRENT_DOWNLOADS))
  }

  /** Validating twice is validating once. */
  lemma ValidateIdempotent(c: QueueConfig)
    ensures Validate(Validate(c)) == Validate(c)
  {
  }

  datatype DownloadRequest = DownloadRequest(
    url: string,
    outputDir: Path,
    playlistName: Option<string>,
    audioQuality: Option<string>,
    embedThumbnail: Option<bool>,
    priority: DownloadPriority)

  /** `QueueItem` without its `f64` progress. */
  datatype QueueItem = QueueItem(
    id: nat,
    request: DownloadRequest,
    status: QueueItemStatus,
    taskId: Option<nat>,
    retryCount: nat,
    addedAt: nat,
    startedAt: Option<nat>,
    finishedAt: Option<nat>,
    currentVideo: Option<string>,
    totalVideos: Option<nat>,
    videosCompleted: Option<nat>)

  /** `QueueItem::new`: a fresh Pending item stamped with the time it was added. */
  function NewItem(id: nat, request: DownloadRequest, now: nat): (r: QueueItem)
    ensures r.id == id && r.request == request && r.status == Pending && r.addedAt == now
    ensures r.retryCount == 0 && r.taskId.None? && r.startedAt.None? && r.finishedAt.None?
  {
    QueueItem(id, request, Pending, None, 0, now, None, None, None, None, None)
  }

  /** `display_name`: the playlist name when given, the URL otherwise. */
  function DisplayName(item: QueueItem): (r: string)
    ensures item.request.playlistName.Some? ==> r == item.request.playlistName.value
    ensures item.request.playlistName.None? ==> r == item.request.url
  {
    item.request.playlistName.UnwrapOr(item.request.url)
  }

  predicate IsPending(x: QueueItem) { x.status.Pending? }
  predicate IsDownloading(x: QueueItem) { x.status.Downloading? }
  predicate IsCompleted(x: QueueItem) { x.status.Completed? }
  predicate IsFailed(x: QueueItem) { x.status.Failed? }
  predicate IsCancelled(x: QueueItem) { x.status.Cancelled? }
  predicate IsNotDownloading(x: QueueItem) { !x.status.Downloading? }

  /** `is_finished`: completed, failed or cancelled. */
  predicate IsFinished(x: QueueItem) { x.status.Completed? || x.status.Failed? || x.status.Cancelled? }

  predicate IsUnfinished(x: QueueItem) { !IsFinished(x) }

  /** `can_retry`: a failed item with retries left. */
  predicate CanRetry(x: QueueItem, maxRetries: nat) { x.status.Failed? && x.retryCount < maxRetries }

  // ---------------------------------------------------------------------
  // Sequences of items
  // ---------------------------------------------------------------------

  /** The items satisfying `p`, in queue order (`retain`, `filter`). */
  function Filter(s: seq<QueueItem>, p: QueueItem -> bool): (r: seq<QueueItem>)
    ensures |r| <= |s|
    ensures forall x :: x in r <==> x in s && p(x)
    decreases |s|
  {
    if s == [] then []
    else Filter(s[..|s| - 1], p) + (if p(s[|s| - 1]) then [s[|s| - 1]] else [])
  }

  /** Queue order is id order. */
  predicate IdsIncreasing(s: seq<QueueItem>) {
    forall i, j :: 0 <= i < j < |s| ==> s[i].id < s[j].id
  }

  /** Keeping some of the items keeps them in id order. */
  lemma {:induction false} FilterIncreasing(s: seq<QueueItem>, p: QueueItem -> bool)
    requires IdsIncreasing(s)
    ensures IdsIncreasing(Filter(s, p))
    decreases |s|
  {
    if s != [] {
      var front := s[..|s| - 1];
      FilterIncreasing(front, p);
      var f := Filter(front, p);
      forall i | 0 <= i < |f|
        ensures f[i].id < s[|s| - 1].id
      {
        assert f[i] in front;
      }
    }
  }

  /** Two complementary filters split the queue. */
  lemma {:induction false} FilterSplit(s: seq<QueueItem>, p: QueueItem -> bool, q: QueueItem -> bool)
    requires forall x :: p(x) <==> !q(x)
    ensures |Filter(s, p)| + |Filter(s, q)| == |s|
    decreases |s|
  {
    if s != [] {
      FilterSplit(s[..|s| - 1], p, q);
    }
  }

  /** Replacing one item changes a filter's count by what the old and new items contribute. */
  lemma {:induction false} FilterCountUpdate(s: seq<QueueItem>, k: nat, x: QueueItem, p: QueueItem -> bool)
    requires k < |s|
    ensures |Filter(s[k := x], p)| + (if p(s[k]) then 1 else 0) == |Filter(s, p)| + (if p(x) then 1 else 0)
    decreases |s|
  {
    var n := |s| - 1;
    assert s[k := x][..n] == if k == n then s[..n] else s[..n][k := x];
    if k < n {
      FilterCountUpdate(s[..n], k, x, p);
    }
  }

  /** Every id is below `bound`, the next one to be handed out. */
  predicate IdsBelow(s: seq<QueueItem>, bound: nat) {
    forall i :: 0 <= i < |s| ==> s[i].id < bound
  }

  /** Updating an item in place without changing its id keeps the ids in order and below `bound`. */
  lemma UpdateKeepsIds(s: seq<QueueItem>, k: nat, x: QueueItem, bound: nat)
    requires IdsIncreasing(s) && IdsBelow(s, bound)
    requires k < |s| && x.id == s[k].id
    ensures IdsIncreasing(s[k := x]) && IdsBelow(s[k := x], bound)
  {
  }

  lemma RemoveAtIncreasing(s: seq<QueueItem>, k: nat)
    requires IdsIncreasing(s) && k < |s|
    ensures IdsIncreasing(s[..k] + s[k + 1..])
  {
    var r := s[..k] + s[k + 1..];
    forall i, j | 0 <= i < j < |r|
      ensures r[i].id < r[j].id
    {
      var a := if i < k then i else i + 1;
      var b := if j < k then j else j + 1;
      assert r[i] == s[a] && r[j] == s[b];
    }
  }

  /** The first item carrying `id` (`find`, `position`). */
  function IndexOf(s: seq<QueueItem>, id: nat): (r: Option<nat>)
    ensures r.Some? ==> r.value < |s| && s[r.value].id == id && forall j :: 0 <= j < r.value ==> s[j].id != id
    ensures r.None? <==> forall j :: 0 <= j < |s| ==> s[j].id != id
    decreases |s|
  {
    if s == [] then None
    else if s[0].id == id then Some(0)
    else
      match IndexOf(s[1..], id)
      case None => None
      case Some(k) => Some(k + 1)
  }

  /** Ordering items for download: higher priority first, then added earlier. */
  predicate KeyLt(a: QueueItem, b: QueueItem) {
    Rank(a.request.priority) > Rank(b.request.priority)
    || (Rank(a.request.priority) == Rank(b.request.priority) && a.addedAt < b.addedAt)
  }

  predicate KeyLe(a: QueueItem, b: QueueItem) {
    Rank(a.request.priority) > Rank(b.request.priority)
    || (Rank(a.request.priority) == Rank(b.request.priority) && a.addedAt <= b.addedAt)
  }

  /**
   * `next_pending_item`: the index of the Pending item `min_by_key` picks
   * for the key (highest priority, earliest added); among equal keys the
   * first one in the queue.
   */
  function NextPendingIn(s: seq<QueueItem>): (r: Option<nat>)
    ensures r.Some? ==> r.value < |s| && IsPending(s[r.value])
    ensures r.Some? ==> forall j :: 0 <= j < |s| && IsPending(s[j]) ==> KeyLe(s[r.value], s[j])
    ensures r.Some? ==> forall j :: 0 <= j < r.value && IsPending(s[j]) ==> KeyLt(s[r.value], s[j])
    ensures r.None? <==> forall j :: 0 <= j < |s| ==> !IsPending(s[j])
    decreases |s|
  {
    if s == [] then None
    else
      var n := |s| - 1;
      var best := NextPendingIn(s[..n]);
      if !IsPending(s[n]) then best
      else if best.None? || KeyLt(s[n], s[best.value]) then Some(n)
      else best
  }

  /**
   * The order `get_pending_items` sorts into: the download key, and for
   * equal keys queue order, which for a queue in id order is id order
   * (`sort_by_key` is stable).
   */
  predicate PendingOrder(a: QueueItem, b: QueueItem) {
    KeyLt(a, b) || (KeyLe(a, b) && KeyLe(b, a) && a.id <= b.id)
  }

  lemma PendingOrderTotal()
    ensures Sorting.TotalPreorder(PendingOrder)
  {
  }

  // ---------------------------------------------------------------------
  // The queue state
  // ---------------------------------------------------------------------

  datatype QueueStats = QueueStats(
    totalItems: nat,
    pendingCount: nat,
    downloadingCount: nat,
    completedCount: nat,
    failedCount: nat,
    cancelledCount: nat)

  /** The queue's counts by status. */
  function CountsOf(s: seq<QueueItem>): QueueStats {
    QueueStats(|s|, |Filter(s, IsPending)|, |Filter(s, IsDownloading)|, |Filter(s, IsCompleted)|,
               |Filter(s, IsFailed)|, |Filter(s, IsCancelled)|)
  }

  /** One more item adds one to the count of its status. */
  lemma CountsStep(s: seq<QueueItem>, i: nat)
    requires i < |s|
    ensures var c := CountsOf(s[..i]); var x := s[i];
      CountsOf(s[..i + 1]) == QueueStats(i + 1,
        c.pendingCount + (if IsPending(x) then 1 else 0),
        c.downloadingCount + (if IsDownloading(x) then 1 else 0),
        c.completedCount + (if IsCompleted(x) then 1 else 0),
        c.failedCount + (if IsFailed(x) then 1 else 0),
        c.cancelledCount + (if IsCancelled(x) then 1 else 0))
  {
    assert s[..i + 1][..i] == s[..i];
  }

  /** The five statuses partition the queue. */
  lemma {:induction false} StatusesPartition(s: seq<QueueItem>)
    ensures |Filter(s, IsPending)| + |Filter(s, IsDownloading)| + |Filter(s, IsCompleted)|
      + |Filter(s, IsFailed)| + |Filter(s, IsCancelled)| == |s|
    decreases |s|
  {
    if s != [] {
      StatusesPartition(s[..|s| - 1]);
    }
  }

  class DownloadQueueManager {
    var items: seq<QueueItem>
    var nextId: nat
    var config: QueueConfig
    var paused: bool

    /**
     * Items sit in the order they were added, which is id order; every id
     * was handed out already; the concurrency limit is within [1, 4].
     */
    ghost predicate Valid()
      reads this
    {
      && IdsIncreasing(items)
      && IdsBelow(items, nextId)
      && MIN_CONCURRENT_DOWNLOADS <= config.maxConcurrentDownloads <= MAX_CONCURRENT_DOWNLOADS
    }

    /** `with_config`: an empty, running queue with the configuration validated. */
    constructor (config: QueueConfig)
      ensures Valid()
      ensures items == [] && nextId == 0 && !paused && this.config == Validate(config)
    {
      items := [];
      nextId := 0;
      this.config := Validate(config);
      paused := false;
    }

    /** `add`: the item gets the next id and goes to the back of the queue. */
    method Add(request: DownloadRequest, now: nat) returns (id: nat)
      requires Valid()
      modifies this
      ensures Valid()
      ensures id == old(nextId) && nextId == id + 1
      ensures forall i :: 0 <= i < |old(items)| ==> old(items)[i].id != id
      ensures items == old(items) + [NewItem(id, request, now)]
      ensures config == old(config) && paused == old(paused)
    {
      id := nextId;
      nextId := nextId + 1;
      items := items + [NewItem(id, request, now)];
    }

    /** `add_batch`: each request in turn, as `add` does; the ids are consecutive. */
    method AddBatch(requests: seq<DownloadRequest>, now: nat) returns (ids: seq<nat>)
      requires Valid()
      modifies this
      ensures Valid()
      ensures |ids| == |requests| && nextId == old(nextId) + |requests|
      ensures forall i :: 0 <= i < |ids| ==> ids[i] == old(nextId) + i
      ensures |items| == |old(items)| + |requests| && items[..|old(items)|] == old(items)
      ensures forall i :: 0 <= i < |requests| ==> items[|old(items)| + i] == NewItem(old(nextId) + i, requests[i], now)
      ensures config == old(config) && paused == old(paused)
    {
      ids := [];
      for i := 0 to |requests|
        invariant Valid()
        invariant |ids| == i && nextId == old(nextId) + i
        invariant forall k :: 0 <= k < i ==> ids[k] == old(nextId) + k
        invariant |items| == |old(items)| + i && items[..|old(items)|] == old(items)
        invariant forall k :: 0 <= k < i ==> items[|old(items)| + k] == NewItem(old(nextId) + k, requests[k], now)
        invariant config == old(config) && paused == old(paused)
      {
        var id := Add(requests[i], now);
        ids := ids + [id];
      }
    }

    /** `remove`: refused for a downloading item or an unknown id; otherwise the item leaves the queue. */
    method Remove(id: nat) returns (removed: bool)
      requires Valid()
      modifies this
      ensures Valid()
      ensures removed <==> IndexOf(old(items), id).Some? && !IsDownloading(old(items)[IndexOf(old(items), id).value])
      ensures removed ==> var k := IndexOf(old(items), id).value; items == old(items)[..k] + old(items)[k + 1..]
      ensures !removed ==> items == old(items)
      ensures forall i :: 0 <= i < |items| ==> items[i].id != id || !removed
      ensures nextId == old(nextId) && config == old(config) && paused == old(paused)
    {
      var pos := IndexOf(items, id);
      if pos.None? {
        return false;
      }
      var k := pos.value;
      if IsDownloading(items[k]) {
        return false;
      }
      RemoveAtIncreasing(items, k);
      items := items[..k] + items[k + 1..];
      removed := true;
    }

    /** `cancel`: refused for a finished item or an unknown id; otherwise the item is Cancelled now. */
    method Cancel(id: nat, now: nat) returns (cancelled: bool)
      requires Valid()
      modifies this
      ensures Valid()
      ensures cancelled <==> IndexOf(old(items), id).Some? && !IsFinished(old(items)[IndexOf(old(items), id).value])
      ensures cancelled ==> var k := IndexOf(old(items), id).value;
        items == old(items)[k := old(items)[k].(status := Cancelled, finishedAt := Some(now))]
      ensures !cancelled ==> items == old(items)
      ensures nextId == old(nextId) && config == old(config) && paused == old(paused)
    {
      var pos := IndexOf(items, id);
      if pos.None? || IsFinished(items[pos.value]) {
        return false;
      }
      var k := pos.value;
      items := items[k := items[k].(status := Cancelled, finishedAt := Some(now))];
      cancelled := true;
    }

    /** `set_priority`: refused for a finished item or an unknown id. */
    method SetPriority(id: nat, priority: DownloadPriority) returns (updated: bool)
      requires Valid()
      modifies this
      ensures Valid()
      ensures updated <==> IndexOf(old(items), id).Some? && !IsFinished(old(items)[IndexOf(old(items), id).value])
      ensures updated ==> var k := IndexOf(old(items), id).value;
        items == old(items)[k := old(items)[k].(request := old(items)[k].request.(priority := priority))]
      ensures !updated ==> items == old(items)
      ensures nextId == old(nextId) && config == old(config) && paused == old(paused)
    {
      var pos := IndexOf(items, id);
      if pos.None? || IsFinished(items[pos.value]) {
        return false;
      }
      var k := pos.value;
      items := items[k := items[k].(request := items[k].request.(priority := priority))];
      updated := true;
    }

    /** `move_to_front`: raising the item to High priority. */
    method MoveToFront(id: nat) returns (updated: bool)
      requires Valid()
      modifies this
      ensures Valid()
      ensures updated <==> IndexOf(old(items), id).Some? && !IsFinished(old(items)[IndexOf(old(items), id).value])
      ensures updated ==> var k := IndexOf(old(items), id).value;
        items == old(items)[k := old(items)[k].(request := old(items)[k].request.(priority := High))]
      ensures !updated ==> items == old(items)
      ensures nextId == old(nextId) && config == old(config) && paused == old(paused)
    {
      updated := SetPriority(id, High);
    }

    /** `get_item` */
    function GetItem(id: nat): (r: Option<QueueItem>)
      reads this
      ensures r.Some? <==> exists i :: 0 <= i < |items| && items[i].id == id
      ensures r.Some? ==> r.value in items && r.value.id == id
    {
      match IndexOf(items, id)
      case None => None
      case Some(k) => Some(items[k])
    }

    /** `get_pending_items`: the Pending items, sorted highest priority first, then oldest first. */
    function GetPendingItems(): (r: seq<QueueItem>)
      reads this
      ensures multiset(r) == multiset(Filter(items, IsPending))
      ensures forall i, j :: 0 <= i < j < |r| ==> KeyLe(r[i], r[j])
    {
      PendingOrderTotal();
      Sorting.SortBy(Filter(items, IsPending), PendingOrder)
    }

    /** `get_downloading_items` */
    function GetDownloadingItems(): (r: seq<QueueItem>)
      reads this
      ensures forall x :: x in r <==> x in items && IsDownloading(x)
    {
      Filter(items, IsDownloading)
    }

    /** `active_download_count` */
    function ActiveDownloadCount(): (r: nat)
      reads this
      ensures r <= |items|
      ensures r == 0 <==> forall i :: 0 <= i < |items| ==> !IsDownloading(items[i])
    {
      var d := Filter(items, IsDownloading);
      assert d != [] ==> d[0] in d;
      |d|
    }

    /** `can_start_download`: running, below the limit, and something waiting. */
    predicate CanStartDownload()
      reads this
    {
      !paused && ActiveDownloadCount() < config.maxConcurrentDownloads && NextPendingIn(items).Some?
    }

    /** `stats`: one count per status, over one pass through the queue. */
    method Stats() returns (s: QueueStats)
      ensures s == CountsOf(items)
      ensures s.totalItems == |items|
      ensures s.pendingCount + s.downloadingCount + s.completedCount + s.failedCount + s.cancelledCount == s.totalItems
    {
      var pending, downloading, completed, failed, cancelled := 0, 0, 0, 0, 0;
      for i := 0 to |items|
        invariant QueueStats(i, pending, downloading, completed, failed, cancelled) == CountsOf(items[..i])
      {
        CountsStep(items, i);
        match items[i].status {
          case Pending => pending := pending + 1;
          case Downloading => downloading := downloading + 1;
          case Completed => completed := completed + 1;
          case Failed(_) => failed := failed + 1;
          case Cancelled => cancelled := cancelled + 1;
        }
      }
      assert items[..|items|] == items;
      StatusesPartition(items);
      s := QueueStats(|items|, pending, downloading, completed, failed, cancelled);
    }

    /**
     * `start_next`: when the queue runs, is below its limit and holds a
     * Pending item, the one `next_pending_item` picks becomes Downloading.
     */
    method StartNext(now: nat) returns (r: Option<QueueItem>)
      requires Valid()
      modifies this
      ensures Valid()
      ensures r.Some? <==> old(CanStartDownload())
      ensures r.None? ==> items == old(items)
      ensures r.Some? ==> var k := NextPendingIn(old(items)).value;
        && r.value == old(items)[k].(status := Downloading, startedAt := Some(now))
        && items == old(items)[k := r.value]
        && ActiveDownloadCount() == old(ActiveDownloadCount()) + 1
        && ActiveDownloadCount() <= config.maxConcurrentDownloads
      ensures nextId == old(nextId) && config == old(config) && paused == old(paused)
    {
      if paused || ActiveDownloadCount() >= config.maxConcurrentDownloads {
        return None;
      }
      var next := NextPendingIn(items);
      if next.None? {
        return None;
      }
      var k := next.value;
      var started := items[k].(status := Downloading, startedAt := Some(now));
      FilterCountUpdate(items, k, started, IsDownloading);
      UpdateKeepsIds(items, k, started, nextId);
      items := items[k := started];
      r := Some(started);
    }

    /** `mark_started`: records a task id on the item; an unknown id is ignored. */
    method MarkStarted(id: nat, taskId: nat)
      requires Valid()
      modifies this
      ensures Valid()
      ensures IndexOf(old(items), id).None? ==> items == old(items)
      ensures IndexOf(old(items), id).Some? ==> var k := IndexOf(old(items), id).value;
        items == old(items)[k := old(items)[k].(taskId := Some(taskId))]
      ensures nextId == old(nextId) && config == old(config) && paused == old(paused)
    {
      var pos := IndexOf(items, id);
      if pos.Some? {
        var k := pos.value;
        items := items[k := items[k].(taskId := Some(taskId))];
      }
    }

    /** `update_progress`: each given figure replaces the stored one; an unknown id is ignored. */
    method UpdateProgress(id: nat, currentVideo: Option<string>, totalVideos: Option<nat>, videosCompleted: Option<nat>)
      requires Valid()
      modifies this
      ensures Valid()
      ensures IndexOf(old(items), id).None? ==> items == old(items)
      ensures IndexOf(old(items), id).Some? ==> var k := IndexOf(old(items), id).value; var x := old(items)[k];
        items == old(items)[k := x.(currentVideo := if currentVideo.Some? then currentVideo else x.currentVideo,
                                    totalVideos := if totalVideos.Some? then totalVideos else x.totalVideos,
                                    videosCompleted := if videosCompleted.Some? then videosCompleted else x.videosCompleted)]
      ensures nextId == old(nextId) && config == old(config) && paused == old(paused)
    {
      var pos := IndexOf(items, id);
      if pos.Some? {
        var k := pos.value;
        var x := items[k];
        items := items[k := x.(currentVideo := if currentVideo.Some? then currentVideo else x.currentVideo,
                               totalVideos := if totalVideos.Some? then totalVideos else x.totalVideos,
                               videosCompleted := if videosCompleted.Some? then videosCompleted else x.videosCompleted)];
      }
    }

    /** `mark_completed`: whatever its status, the item becomes Completed; an unknown id is ignored. */
    method MarkCompleted(id: nat, now: nat)
      requires Valid()
      modifies this
      ensures Valid()
      ensures IndexOf(old(items), id).None? ==> items == old(items)
      ensures IndexOf(old(items), id).Some? ==> var k := IndexOf(old(items), id).value;
        items == old(items)[k := old(items)[k].(status := Completed, finishedAt := Some(now))]
      ensures nextId == old(nextId) && config == old(config) && paused == old(paused)
    {
      var pos := IndexOf(items, id);
      if pos.Some? {
        var k := pos.value;
        items := items[k := items[k].(status := Completed, finishedAt := Some(now))];
      }
    }

    /** `mark_failed`: whatever its status, the item becomes Failed with the message; an unknown id is ignored. */
    method MarkFailed(id: nat, error: string, now: nat)
      requires Valid()
      modifies this
      ensures Valid()
      ensures IndexOf(old(items), id).None? ==> items == old(items)
      ensures IndexOf(old(items), id).Some? ==> var k := IndexOf(old(items), id).value;
        items == old(items)[k := old(items)[k].(status := Failed(error), finishedAt := Some(now))]
      ensures nextId == old(nextId) && config == old(config) && paused == old(paused)
    {
      var pos := IndexOf(items, id);
      if pos.Some? {
        var k := pos.value;
        items := items[k := items[k].(status := Failed(error), finishedAt := Some(now))];
      }
    }

    /**
     * `retry`: only a failed item with retries left goes back to Pending,
     * one retry counted and its run's figures reset (the total video count
     * is kept).
     */
    method Retry(id: nat) returns (retried: bool)
      requires Valid()
      modifies this
      ensures Valid()
      ensures retried <==> IndexOf(old(items), id).Some? && CanRetry(old(items)[IndexOf(old(items), id).value], config.maxRetries)
      ensures retried ==> var k := IndexOf(old(items), id).value; var x := old(items)[k];
        && items == old(items)[k := x.(status := Pending, retryCount := x.retryCount + 1, taskId := None,
                                       startedAt := None, finishedAt := None, currentVideo := None, videosCompleted := None)]
        && items[k].retryCount <= config.maxRetries
      ensures !retried ==> items == old(items)
      ensures nextId == old(nextId) && config == old(config) && paused == old(paused)
    {
      var pos := IndexOf(items, id);
      if pos.None? || !CanRetry(items[pos.value], config.maxRetries) {
        return false;
      }
      var k := pos.value;
      var x := items[k];
      items := items[k := x.(status := Pending, retryCount := x.retryCount + 1, taskId := None,
                             startedAt := None, finishedAt := None, currentVideo := None, videosCompleted := None)];
      retried := true;
    }

    method Pause()
      modifies this
      ensures paused
      ensures items == old(items) && nextId == old(nextId) && config == old(config)
    {
      if !paused {
        paused := true;
      }
    }

    method Resume()
      modifies this
      ensures !paused
      ensures items == old(items) && nextId == old(nextId) && config == old(config)
    {
      if paused {
        paused := false;
      }
    }

    /** `clear_finished`: the finished items leave, the rest keep their order; the count removed is returned. */
    method ClearFinished() returns (removed: nat)
      requires Valid()
      modifies this
      ensures Valid()
      ensures items == Filter(old(items), IsUnfinished)
      ensures removed == |Filter(old(items), IsFinished)|
      ensures forall x :: x in old(items) ==> (x in items <==> !IsFinished(x))
      ensures nextId == old(nextId) && config == old(config) && paused == old(paused)
    {
      var before := |items|;
      FilterIncreasing(items, IsUnfinished);
      forall x | x in Filter(items, IsUnfinished)
        ensures x.id < nextId
      {
        var i :| 0 <= i < |items| && items[i] == x;
      }
      FilterSplit(items, IsUnfinished, IsFinished);
      items := Filter(items, IsUnfinished);
      removed := before - |items|;
    }

    /** `clear_all`: everything but the downloading items leaves; the count removed is returned. */
    method ClearAll() returns (removed: nat)
      requires Valid()
      modifies this
      ensures Valid()
      ensures items == Filter(old(items), IsDownloading)
      ensures removed == |Filter(old(items), IsNotDownloading)|
      ensures forall x :: x in old(items) ==> (x in items <==> IsDownloading(x))
      ensures nextId == old(nextId) && config == old(config) && paused == old(paused)
    {
      var before := |items|;
      FilterIncreasing(items, IsDownloading);
      forall x | x in Filter(items, IsDownloading)
        ensures x.id < nextId
      {
        var i :| 0 <= i < |items| && items[i] == x;
      }
      FilterSplit(items, IsDownloading, IsNotDownloading);
      items := Filter(items, IsDownloading);
      removed := before - |items|;
    }

    /** `set_config`: the new configuration, validated. */
    method SetConfig(c: QueueConfig)
      requires Valid()
      modifies this
      ensures Valid()
      ensures config == Validate(c)
      ensures items == old(items) && nextId == old(nextId) && paused == old(paused)
    {
      config := Validate(c);
    }

    /** `set_max_concurrent`: the limit clamped into [1, 4]. */
    method SetMaxConcurrent(max: nat)
      requires Valid()
      modifies this
      ensures Valid()
      ensures config == old(config).(maxConcurrentDownloads := Clamp(max, MIN_CONCURRENT_DOWNLOADS, MAX_CONCURRENT_DOWNLOADS))
      ensures items == old(items) && nextId == old(nextId) && paused == old(paused)
    {
      config := config.(maxConcurrentDownloads := Clamp(max, MIN_CONCURRENT_DOWNLOADS, MAX_CONCURRENT_DOWNLOADS));
    }
  }

  /** In a queue in id order, no two items share an id. */
  lemma IdsUnique(s: seq<QueueItem>, i: nat, j: nat)
    requires IdsIncreasing(s) && i < |s| && j < |s| && s[i].id == s[j].id
    ensures i == j
  {
  }

  /** The head of a sorted listing comes no later than any of its elements. */
  lemma HeadFirst(sorted: seq<QueueItem>, x: QueueItem)
    requires Sorting.SortedBy(sorted, PendingOrder) && x in multiset(sorted)
    ensures PendingOrder(sorted[0], x)
  {
    var i :| 0 <= i < |sorted| && sorted[i] == x;
    if i > 0 {
      assert PendingOrder(sorted[0], sorted[i]);
    }
  }

  /**
   * `get_pending_items` and `start_next` agree: in a queue in id order, the
   * first of the sorted pending items is the one `next_pending_item` picks.
   */
  lemma PendingHeadIsNext(s: seq<QueueItem>)
    requires IdsIncreasing(s)
    ensures var sorted := Sorting.SortBy(Filter(s, IsPending), PendingOrder);
      && (sorted == [] <==> NextPendingIn(s).None?)
      && (sorted != [] ==> sorted[0] == s[NextPendingIn(s).value])
  {
    PendingOrderTotal();
    var f := Filter(s, IsPending);
    var sorted := Sorting.SortBy(f, PendingOrder);
    forall j | 0 <= j < |s| && IsPending(s[j])
      ensures s[j] in multiset(sorted)
    {
      assert s[j] in f;
    }
    if sorted != [] {
      var h := sorted[0];
      assert h in multiset(f);
      assert h in f;
      var k :| 0 <= k < |s| && s[k] == h;
      var n := NextPendingIn(s).value;
      HeadFirst(sorted, s[n]);
      assert KeyLe(s[n], s[k]);
      assert !KeyLt(h, s[n]);
      assert h.id <= s[n].id;
      assert k <= n;
      IdsUnique(s, k, n);
    }
  }
}
