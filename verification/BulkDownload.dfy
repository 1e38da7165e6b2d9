/**
 * Bulk downloads: the check made when a job is created (src/api/src/videos/handlers.rs)
 * and the worker that turns the job into a zip with a manifest
 * (src/worker/src/bulk_download.rs).
 */
module BulkDownload {
  import opened Common

  /** The text of a UUID. */
  type VideoId = string

  datatype Video = Video(published: bool, deleted: bool, visible: bool, sizeBytes: int)

  type Videos = map<VideoId, Video>

  // ---------------------------------------------------------------- creating a job

  const MAX_VIDEOS := 10

  predicate Offered(video: Video) {
    video.published && !video.deleted && video.visible
  }

  function Elements(ids: seq<VideoId>): set<VideoId> {
    set id | id in ids
  }

  lemma {:induction false} ElementsCount(ids: seq<VideoId>)
    ensures |Elements(ids)| <= |ids|
    ensures |Elements(ids)| == |ids| <==> Distinct(ids)
  {
    if ids == [] {
      assert Elements(ids) == {};
    } else {
      var rest := ids[1..];
      ElementsCount(rest);
      assert Elements(ids) == Elements(rest) + {ids[0]};
      if ids[0] in rest {
        assert Elements(ids) == Elements(rest);
        var k :| 0 <= k < |rest| && rest[k] == ids[0];
        assert ids[k + 1] == ids[0];
      } else {
        assert forall i, j | 0 <= i < j < |ids| :: ids[j] == rest[j - 1] && (i > 0 ==> ids[i] == rest[i - 1]);
        assert Distinct(rest) ==> Distinct(ids);
        assert Distinct(ids) ==> forall i, j | 0 <= i < j < |rest| :: rest[i] == ids[i + 1] && rest[j] == ids[j + 1];
      }
    }
  }

  /** One to ten distinct videos that are all offered. */
  ghost predicate Acceptable(ids: seq<VideoId>, videos: Videos) {
    && 0 < |ids| <= MAX_VIDEOS
    && Distinct(ids)
    && (forall i | 0 <= i < |ids| :: ids[i] in videos && Offered(videos[ids[i]]))
  }

  datatype Request = Accepted | NoVideos | TooManyVideos | Unavailable(missing: seq<VideoId>)

  /** Comparing the number of rows with the number of ids accepts exactly the lists of
      distinct, available videos. A refused list names the ids without a row, which are
      none when the only fault is a repetition. */
  method ValidateVideos(ids: seq<VideoId>, videos: Videos) returns (r: Request)
    ensures r.Accepted? <==> Acceptable(ids, videos)
    ensures r.Accepted? <==>
              && 0 < |ids| <= 10 && Distinct(ids)
              && forall i | 0 <= i < |ids| ::
                   ids[i] in videos && videos[ids[i]].published && videos[ids[i]].visible && !videos[ids[i]].deleted
    ensures r.NoVideos? <==> ids == []
    ensures r.TooManyVideos? <==> |ids| > 10
    ensures r.Unavailable? ==> forall id :: id in r.missing <==> id in ids && !(id in videos && Offered(videos[id]))
    ensures r.Unavailable? && r.missing == [] ==> !Distinct(ids)
  {
    if |ids| == 0 {
      return NoVideos;
    }
    if |ids| > MAX_VIDEOS {
      return TooManyVideos;
    }
    var found := set id | id in videos && id in ids && Offered(videos[id]);
    ElementsCount(ids);
    SubsetSize(found, Elements(ids));
    if |found| == |ids| {
      SameSizeSubset(found, Elements(ids));
      assert forall i | 0 <= i < |ids| :: ids[i] in Elements(ids);
      return Accepted;
    }
    var missing: seq<VideoId> := [];
    for i := 0 to |ids|
      invariant forall id :: id in missing <==> id in ids[..i] && id !in found
    {
      assert ids[..i + 1] == ids[..i] + [ids[i]];
      if ids[i] !in found {
        missing := missing + [ids[i]];
      }
    }
    assert ids[..|ids|] == ids;
    assert missing == [] ==> Elements(ids) == found by {
      if missing == [] {
        forall id | id in ids ensures id in found {
          assert id in missing <==> id in ids && id !in found;
        }
      }
    }
    assert found != Elements(ids) ==> exists i :: 0 <= i < |ids| && ids[i] !in found;
    return Unavailable(missing);
  }

  lemma {:induction false} SameSizeSubset<T>(a: set<T>, b: set<T>)
    requires a <= b && |a| >= |b|
    ensures a == b
  {
    if x :| x in b && x !in a {
      SubsetSize(a, b - {x});
    }
  }

  // ---------------------------------------------------------------- one attempt

  datatype Entry = Entry(video: VideoId, filename: string, sizeBytes: int)

  datatype Failure = Failure(video: VideoId, reason: string)

  datatype Manifest = Manifest(successful: seq<Entry>, failed: seq<Failure>)

  /** What one attempt meets: the video rows, how the download of each requested video
      ends, and whether zipping, uploading and recording succeed. */
  datatype Attempt = Attempt(videos: Videos, errors: seq<Option<string>>, stored: bool)

  /** The worker looks at publication and deletion, not at moderation. */
  predicate Available(videos: Videos, id: VideoId) {
    id in videos && videos[id].published && !videos[id].deleted
  }

  predicate Fetched(ids: seq<VideoId>, attempt: Attempt, i: nat)
    requires i < |ids| == |attempt.errors|
  {
    Available(attempt.videos, ids[i]) && attempt.errors[i].None?
  }

  predicate Succeeds(ids: seq<VideoId>, attempt: Attempt)
    requires |ids| == |attempt.errors|
  {
    attempt.stored && exists i | 0 <= i < |ids| :: Fetched(ids, attempt, i)
  }

  function FileName(id: VideoId): string {
    id + ".mp4"
  }

  const GONE := "Video no longer available"

  /** The number of the first `n` requests that were fetched. */
  function Hits(ids: seq<VideoId>, attempt: Attempt, n: nat): (h: nat)
    requires n <= |ids| == |attempt.errors|
    ensures h <= n
  {
    if n == 0 then 0 else Hits(ids, attempt, n - 1) + if Fetched(ids, attempt, n - 1) then 1 else 0
  }

  /** The k-th entry is the fetched request that k fetched ones precede. */
  ghost predicate Lists(ids: seq<VideoId>, attempt: Attempt, n: nat, entry: Entry, k: nat)
    requires n <= |ids| == |attempt.errors|
  {
    exists i | 0 <= i < n ::
      && Fetched(ids, attempt, i)
      && Hits(ids, attempt, i) == k
      && entry == Entry(ids[i], FileName(ids[i]), attempt.videos[ids[i]].sizeBytes)
  }

  /** The k-th failure is the other request that k other ones precede. */
  ghost predicate Blames(ids: seq<VideoId>, attempt: Attempt, n: nat, failure: Failure, k: nat)
    requires n <= |ids| == |attempt.errors|
  {
    exists i | 0 <= i < n ::
      && !Fetched(ids, attempt, i)
      && i - Hits(ids, attempt, i) == k
      && failure.video == ids[i]
      && failure.reason == if Available(attempt.videos, ids[i]) then attempt.errors[i].value else GONE
  }

  /** The manifest of the first `n` requests: each list in request order. */
  ghost predicate Records(ids: seq<VideoId>, attempt: Attempt, n: nat, m: Manifest)
    requires n <= |ids| == |attempt.errors|
  {
    && |m.successful| == Hits(ids, attempt, n)
    && |m.failed| == n - Hits(ids, attempt, n)
    && (forall k | 0 <= k < |m.successful| :: Lists(ids, attempt, n, m.successful[k], k))
    && (forall k | 0 <= k < |m.failed| :: Blames(ids, attempt, n, m.failed[k], k))
  }

  /** The manifest with one more request. */
  function Recorded(ids: seq<VideoId>, attempt: Attempt, n: nat, m: Manifest): Manifest
    requires n < |ids| == |attempt.errors|
  {
    var id := ids[n];
    if Fetched(ids, attempt, n) then
      m.(successful := m.successful + [Entry(id, FileName(id), attempt.videos[id].sizeBytes)])
    else
      var reason := if Available(attempt.videos, id) then attempt.errors[n].value else GONE;
      m.(failed := m.failed + [Failure(id, reason)])
  }

  lemma ListsMore(ids: seq<VideoId>, attempt: Attempt, n: nat, entry: Entry, k: nat)
    requires n < |ids| == |attempt.errors| && Lists(ids, attempt, n, entry, k)
    ensures Lists(ids, attempt, n + 1, entry, k)
  {
  }

  lemma BlamesMore(ids: seq<VideoId>, attempt: Attempt, n: nat, failure: Failure, k: nat)
    requires n < |ids| == |attempt.errors| && Blames(ids, attempt, n, failure, k)
    ensures Blames(ids, attempt, n + 1, failure, k)
  {
  }

  lemma RecordsOneMore(ids: seq<VideoId>, attempt: Attempt, n: nat, m: Manifest)
    requires n < |ids| == |attempt.errors| && Records(ids, attempt, n, m)
    ensures Records(ids, attempt, n + 1, Recorded(ids, attempt, n, m))
  {
    var m' := Recorded(ids, attempt, n, m);
    forall k | 0 <= k < |m'.successful| ensures Lists(ids, attempt, n + 1, m'.successful[k], k) {
      if k < |m.successful| {
        ListsMore(ids, attempt, n, m.successful[k], k);
      }
    }
    forall k | 0 <= k < |m'.failed| ensures Blames(ids, attempt, n + 1, m'.failed[k], k) {
      if k < |m.failed| {
        BlamesMore(ids, attempt, n, m.failed[k], k);
      }
    }
  }

  lemma {:induction false} HitsGrow(ids: seq<VideoId>, attempt: Attempt, i: nat, j: nat)
    requires i <= j <= |ids| == |attempt.errors|
    ensures Hits(ids, attempt, i) <= Hits(ids, attempt, j) <= Hits(ids, attempt, i) + j - i
    decreases j
  {
    if i < j {
      HitsGrow(ids, attempt, i, j - 1);
    }
  }

  /** Two fetched requests are preceded by different numbers of fetched ones. */
  lemma HitsTellApart(ids: seq<VideoId>, attempt: Attempt, i: nat, j: nat)
    requires i < |ids| == |attempt.errors| && j < |ids| && Fetched(ids, attempt, i) == Fetched(ids, attempt, j)
    requires if Fetched(ids, attempt, i) then Hits(ids, attempt, i) == Hits(ids, attempt, j)
             else i - Hits(ids, attempt, i) == j - Hits(ids, attempt, j)
    ensures i == j
  {
    if i < j {
      HitsGrow(ids, attempt, i + 1, j);
    } else if j < i {
      HitsGrow(ids, attempt, j + 1, i);
    }
  }

  ghost predicate Names(m: Manifest, id: VideoId) {
    || (exists k | 0 <= k < |m.successful| :: m.successful[k].video == id)
    || (exists k | 0 <= k < |m.failed| :: m.failed[k].video == id)
  }

  lemma ListedIsRequested(ids: seq<VideoId>, attempt: Attempt, entry: Entry, i: nat)
    requires i < |ids| == |attempt.errors| && Fetched(ids, attempt, i)
    requires Lists(ids, attempt, |ids|, entry, Hits(ids, attempt, i))
    ensures entry.video == ids[i]
  {
    var j :| 0 <= j < |ids| && Fetched(ids, attempt, j) && Hits(ids, attempt, j) == Hits(ids, attempt, i)
          && entry.video == ids[j];
    HitsTellApart(ids, attempt, i, j);
  }

  lemma BlamedIsRequested(ids: seq<VideoId>, attempt: Attempt, failure: Failure, i: nat)
    requires i < |ids| == |attempt.errors| && !Fetched(ids, attempt, i)
    requires Blames(ids, attempt, |ids|, failure, i - Hits(ids, attempt, i))
    ensures failure.video == ids[i]
  {
    var j :| 0 <= j < |ids| && !Fetched(ids, attempt, j)
             && j - Hits(ids, attempt, j) == i - Hits(ids, attempt, i) && failure.video == ids[j];
    HitsTellApart(ids, attempt, i, j);
  }

  /** Every requested id is in one of the lists. */
  lemma EveryRequestIsRecorded(ids: seq<VideoId>, attempt: Attempt, m: Manifest, i: nat)
    requires |attempt.errors| == |ids| && Records(ids, attempt, |ids|, m) && i < |ids|
    ensures Names(m, ids[i])
  {
    var k := Hits(ids, attempt, i);
    HitsGrow(ids, attempt, i + 1, |ids|);
    if Fetched(ids, attempt, i) {
      ListedIsRequested(ids, attempt, m.successful[k], i);
    } else {
      BlamedIsRequested(ids, attempt, m.failed[i - k], i);
    }
  }

  /** With distinct requests, no id is in both lists or twice in one. */
  lemma RequestsAreRecordedOnce(ids: seq<VideoId>, attempt: Attempt, m: Manifest)
    requires Distinct(ids) && |attempt.errors| == |ids| && Records(ids, attempt, |ids|, m)
    ensures forall k, l | 0 <= k < l < |m.successful| :: m.successful[k].video != m.successful[l].video
    ensures forall k, l | 0 <= k < l < |m.failed| :: m.failed[k].video != m.failed[l].video
    ensures forall k, l | 0 <= k < |m.successful| && 0 <= l < |m.failed| :: m.successful[k].video != m.failed[l].video
  {
    assert forall k | 0 <= k < |m.successful| :: Lists(ids, attempt, |ids|, m.successful[k], k);
    assert forall k | 0 <= k < |m.failed| :: Blames(ids, attempt, |ids|, m.failed[k], k);
  }

  lemma FileNamesDiffer(a: VideoId, b: VideoId)
    requires a != b
    ensures FileName(a) != FileName(b)
  {
    assert FileName(a)[..|FileName(a)| - 4] == a && FileName(b)[..|FileName(b)| - 4] == b;
  }

  /** So the zip's entries have different names, none of them the manifest's. */
  lemma ZipNamesDiffer(ids: seq<VideoId>, attempt: Attempt, m: Manifest)
    requires Distinct(ids) && |attempt.errors| == |ids| && Records(ids, attempt, |ids|, m)
    ensures Distinct(ZipNames(m))
  {
    RequestsAreRecordedOnce(ids, attempt, m);
    forall k, l | 0 <= k < l < |ZipNames(m)| ensures ZipNames(m)[k] != ZipNames(m)[l] {
      var last := m.successful[l - 1];
      assert Lists(ids, attempt, |ids|, last, l - 1);
      if k == 0 {
        assert last.filename[|last.filename| - 1] == '4';
      } else {
        assert Lists(ids, attempt, |ids|, m.successful[k - 1], k - 1);
        FileNamesDiffer(m.successful[k - 1].video, last.video);
      }
    }
  }

  // ---------------------------------------------------------------- moderation

  ghost predicate Packs(m: Manifest, id: VideoId) {
    exists k | 0 <= k < |m.successful| :: m.successful[k].video == id
  }

  ghost predicate IsFetched(ids: seq<VideoId>, attempt: Attempt, id: VideoId)
    requires |attempt.errors| == |ids|
  {
    exists i | 0 <= i < |ids| :: ids[i] == id && Fetched(ids, attempt, i)
  }

  /** A video is packed exactly when its row is published and not deleted and the download of
      a request for it succeeded. */
  lemma PackedIffFetched(ids: seq<VideoId>, attempt: Attempt, m: Manifest, id: VideoId)
    requires |attempt.errors| == |ids| && Records(ids, attempt, |ids|, m)
    ensures Packs(m, id) <==> IsFetched(ids, attempt, id)
    ensures Packs(m, id) <==>
              && id in attempt.videos && attempt.videos[id].published && !attempt.videos[id].deleted
              && exists i | 0 <= i < |ids| :: ids[i] == id && attempt.errors[i].None?
  {
    if Packs(m, id) {
      var k :| 0 <= k < |m.successful| && m.successful[k].video == id;
      assert Lists(ids, attempt, |ids|, m.successful[k], k);
    }
    if i :| 0 <= i < |ids| && ids[i] == id && Fetched(ids, attempt, i) {
      HitsGrow(ids, attempt, i + 1, |ids|);
      ListedIsRequested(ids, attempt, m.successful[Hits(ids, attempt, i)], i);
    }
  }

  /** Every attempt has its manifest. */
  lemma {:induction false} ManifestExists(ids: seq<VideoId>, attempt: Attempt, n: nat) returns (m: Manifest)
    requires n <= |ids| == |attempt.errors|
    ensures Records(ids, attempt, n, m)
  {
    if n == 0 {
      m := Manifest([], []);
    } else {
      m := ManifestExists(ids, attempt, n - 1);
      RecordsOneMore(ids, attempt, n - 1, m);
      m := Recorded(ids, attempt, n - 1, m);
    }
  }

  /** No hidden video is packed by the attempt that `m` records. */
  ghost predicate PacksNoHidden(videos: Videos, m: Manifest) {
    forall id | id in videos && !videos[id].visible :: !Packs(m, id)
  }

  /** Whatever downloads succeed, no attempt that meets these rows packs a hidden video,
      exactly when every hidden video requested is also unpublished or deleted: moderation
      alone keeps nothing out. */
  lemma HiddenStaysOut(ids: seq<VideoId>, videos: Videos)
    ensures (forall errors, stored, m |
               |errors| == |ids| && Records(ids, Attempt(videos, errors, stored), |ids|, m) :: PacksNoHidden(videos, m))
            <==> (forall i | 0 <= i < |ids| && ids[i] in videos && !videos[ids[i]].visible ::
                  !videos[ids[i]].published || videos[ids[i]].deleted)
  {
    if forall i | 0 <= i < |ids| && ids[i] in videos && !videos[ids[i]].visible :: !Available(videos, ids[i]) {
      forall errors, stored, m | |errors| == |ids| && Records(ids, Attempt(videos, errors, stored), |ids|, m)
        ensures PacksNoHidden(videos, m)
      {
        forall id | id in videos && !videos[id].visible ensures !Packs(m, id) {
          PackedIffFetched(ids, Attempt(videos, errors, stored), m, id);
        }
      }
    } else {
      var i :| 0 <= i < |ids| && ids[i] in videos && !videos[ids[i]].visible && Available(videos, ids[i]);
      var attempt := Attempt(videos, seq(|ids|, _ => None), true);
      var m := ManifestExists(ids, attempt, |ids|);
      assert Fetched(ids, attempt, i);
      PackedIffFetched(ids, attempt, m, ids[i]);
      assert !PacksNoHidden(videos, m);
    }
  }

  /** A video that is accepted while visible and hidden before the worker comes is packed
      by an attempt that completes the job. */
  lemma HiddenIsPacked(id: VideoId, m: Manifest)
    requires Records([id], Attempt(map[id := Video(true, false, false, 0)], [None], true), 1, m)
    ensures Acceptable([id], map[id := Video(true, false, true, 0)])
    ensures Succeeds([id], Attempt(map[id := Video(true, false, false, 0)], [None], true))
    ensures Packs(m, id)
  {
    var attempt := Attempt(map[id := Video(true, false, false, 0)], [None], true);
    assert Fetched([id], attempt, 0) && [id][0] == id;
    PackedIffFetched([id], attempt, m, id);
  }

  const MANIFEST_NAME := "manifest.json"

  /** The entries of the zip: the manifest, then the videos. */
  function ZipNames(m: Manifest): seq<string> {
    [MANIFEST_NAME] + seq(|m.successful|, k requires 0 <= k < |m.successful| => m.successful[k].filename)
  }

  method BuildManifest(ids: seq<VideoId>, attempt: Attempt) returns (m: Manifest, files: seq<VideoId>)
    requires |attempt.errors| == |ids|
    ensures Records(ids, attempt, |ids|, m)
    ensures |files| == |m.successful| && forall k | 0 <= k < |files| :: files[k] == m.successful[k].video
    ensures files != [] <==> exists i | 0 <= i < |ids| :: Fetched(ids, attempt, i)
  {
    m := Manifest([], []);
    files := [];
    for n := 0 to |ids|
      invariant Records(ids, attempt, n, m)
      invariant |files| == |m.successful| && forall k | 0 <= k < |files| :: files[k] == m.successful[k].video
    {
      RecordsOneMore(ids, attempt, n, m);
      var id := ids[n];
      if Available(attempt.videos, id) {
        if attempt.errors[n].None? {
          files := files + [id];
          m := m.(successful := m.successful + [Entry(id, FileName(id), attempt.videos[id].sizeBytes)]);
        } else {
          m := m.(failed := m.failed + [Failure(id, attempt.errors[n].value)]);
        }
      } else {
        m := m.(failed := m.failed + [Failure(id, GONE)]);
      }
    }
    FetchedIsListed(ids, attempt);
  }

  lemma {:induction false} FetchedIsListed(ids: seq<VideoId>, attempt: Attempt)
    requires |attempt.errors| == |ids|
    ensures Hits(ids, attempt, |ids|) > 0 <==> exists i | 0 <= i < |ids| :: Fetched(ids, attempt, i)
  {
    NoneFetched(ids, attempt, |ids|);
    if i :| 0 <= i < |ids| && Fetched(ids, attempt, i) {
      HitsGrow(ids, attempt, i + 1, |ids|);
    }
  }

  lemma {:induction false} NoneFetched(ids: seq<VideoId>, attempt: Attempt, n: nat)
    requires n <= |ids| == |attempt.errors|
    ensures Hits(ids, attempt, n) == 0 || exists i | 0 <= i < n :: Fetched(ids, attempt, i)
  {
    if n > 0 {
      NoneFetched(ids, attempt, n - 1);
    }
  }

  method CreateZip(files: seq<VideoId>, m: Manifest) returns (names: seq<string>)
    requires |files| == |m.successful| && forall k | 0 <= k < |files| :: FileName(files[k]) == m.successful[k].filename
    ensures names == ZipNames(m)
    ensures |names| == |files| + 1 && names[0] == "manifest.json"
    ensures forall k | 0 <= k < |files| :: names[k + 1] == m.successful[k].filename == files[k] + ".mp4"
  {
    names := [MANIFEST_NAME];
    for k := 0 to |files|
      invariant names == ZipNames(m)[..k + 1]
    {
      names := names + [FileName(files[k])];
    }
  }

  // ---------------------------------------------------------------- the job

  datatype Status = Pending | Processing | Completed | Failed

  const MAX_RETRIES := 3

  class Job {
    const ids: seq<VideoId>
    var status: Status
    var retryCount: int
    var manifest: Option<Manifest>
    var slept: nat

    constructor (ids: seq<VideoId>)
      ensures this.ids == ids && status == Pending && retryCount == 0 && manifest == None && slept == 0
    {
      this.ids, status, retryCount, manifest, slept := ids, Pending, 0, None, 0;
    }

    /** One attempt completes the job exactly when it is stored with at least one video. */
    method ProcessJob(attempt: Attempt) returns (ok: bool)
      requires |attempt.errors| == |ids|
      modifies this`status, this`manifest
      ensures ok == Succeeds(ids, attempt)
      ensures ok ==> status == Completed && manifest.Some? && manifest.value.successful != []
      ensures ok ==> Records(ids, attempt, |ids|, manifest.value)
      ensures !ok ==> status == old(status) && manifest == old(manifest)
    {
      var m, files := BuildManifest(ids, attempt);
      if files == [] {
        return false;
      }
      var names := CreateZip(files, m);
      if !attempt.stored {
        return false;
      }
      status := Completed;
      manifest := Some(m);
      return true;
    }

    /** Tries until one attempt succeeds or the retries are used up; the wait doubles. */
    method ProcessWithRetries(attempts: seq<Attempt>) returns (ok: bool, tried: nat)
      requires |attempts| == MAX_RETRIES && forall k | 0 <= k < |attempts| :: |attempts[k].errors| == |ids|
      requires retryCount >= 0
      modifies this
      ensures tried <= Max(0, MAX_RETRIES - old(retryCount))
      ensures forall k | 0 <= k < tried - (if ok then 1 else 0) :: !Succeeds(ids, attempts[k])
      ensures ok ==> tried > 0 && Succeeds(ids, attempts[tried - 1]) && status == Completed
      ensures ok ==> manifest.Some? && manifest.value.successful != []
      ensures ok ==> Records(ids, attempts[tried - 1], |ids|, manifest.value)
      ensures !ok ==> tried == Max(0, MAX_RETRIES - old(retryCount))
      ensures !ok ==> status == old(status) && manifest == old(manifest)
      ensures retryCount == old(retryCount) + Max(0, tried - 1)
      ensures slept == old(slept) + if tried == 0 then 0 else Pow2(old(retryCount) + tried) - Pow2(old(retryCount) + 1)
    {
      var attempt := retryCount;
      tried := 0;
      while attempt < MAX_RETRIES
        invariant attempt == old(retryCount) + tried && tried <= Max(0, MAX_RETRIES - old(retryCount))
        invariant forall k | 0 <= k < tried :: !Succeeds(ids, attempts[k])
        invariant status == old(status) && manifest == old(manifest)
        invariant retryCount == attempt
        invariant slept == old(slept) + if tried == 0 then 0 else Pow2(attempt + 1) - Pow2(old(retryCount) + 1)
        invariant attempt == MAX_RETRIES ==> tried == 0
        decreases MAX_RETRIES - attempt
      {
        ok := ProcessJob(attempts[tried]);
        tried := tried + 1;
        if ok {
          return;
        }
        attempt := attempt + 1;
        if attempt < MAX_RETRIES {
          retryCount := attempt;
          slept := slept + Pow2(attempt);
        } else {
          return;
        }
      }
      return false, tried;
    }

    /** A job taken from the queue ends completed or failed, whatever it was before. */
    method ProcessNext(attempts: seq<Attempt>)
      requires |attempts| == MAX_RETRIES && forall k | 0 <= k < |attempts| :: |attempts[k].errors| == |ids|
      requires retryCount >= 0
      modifies this
      ensures status == Completed <==> exists k | 0 <= k < MAX_RETRIES - old(retryCount) :: Succeeds(ids, attempts[k])
      ensures status == Completed || status == Failed
      ensures status == Completed ==> manifest.Some? && manifest.value.successful != []
    {
      status := Processing;
      var ok, tried := ProcessWithRetries(attempts);
      if !ok {
        status := Failed;
      }
    }
  }
}
