/** The upload batch of the upload page, as `useUploadState` keeps it: the in-flight list, the
    recorded progress per temporary id, the batch counters, the failures and the cached photo
    list. The worker pool runs here as one sequential loop over the shared claim index; the
    outcome of each upload and the temporary ids are parameters. */
module Uploads {
  import opened Strings
  import opened Photos

  /** `UPLOAD_CONCURRENCY`. */
  const UploadConcurrency: nat := 5
  const UploadFailedMessage: string := "Upload failed."

  /** A file chosen by the user; the model knows only its name. */
  datatype File = File(name: string)

  datatype UploadingItem = UploadingItem(tempId: string, filename: string, progress: int)

  datatype FailedUpload = FailedUpload(file: File, filename: string, error: string)

  /** How one upload ends: the photo row that was stored, or what was thrown on the way (by the
      Cloudinary upload or the insert), `None` when the thrown value is not an `Error`. */
  datatype UploadOutcome = Stored(photo: Photo) | Threw(error: Option<string>)

  /** How many workers a batch of `n` files starts. */
  function WorkerCount(n: nat): (w: nat)
    ensures w <= UploadConcurrency && w <= n
    ensures n > 0 ==> w > 0
    ensures w == n || w == UploadConcurrency
  {
    if n < UploadConcurrency then n else UploadConcurrency
  }

  predicate Distinct(ids: seq<string>) {
    forall i, j :: 0 <= i < j < |ids| ==> ids[i] != ids[j]
  }

  function TempIds(items: seq<UploadingItem>): (ids: seq<string>)
    ensures |ids| == |items|
    ensures forall i :: 0 <= i < |items| ==> ids[i] == items[i].tempId
  {
    if items == [] then [] else [items[0].tempId] + TempIds(items[1..])
  }

  /** The new in-flight items of a batch: one per file with its temporary id, at 0 %. */
  function NewItems(files: seq<File>, tempIds: seq<string>): (items: seq<UploadingItem>)
    requires |tempIds| == |files|
    ensures |items| == |files|
    ensures forall i :: 0 <= i < |files| ==> items[i] == UploadingItem(tempIds[i], files[i].name, 0)
  {
    if files == [] then [] else [UploadingItem(tempIds[0], files[0].name, 0)] + NewItems(files[1..], tempIds[1..])
  }

  /** `prev.filter((u) => u.tempId !== tempId)`. */
  function WithoutTemp(items: seq<UploadingItem>, tempId: string): (r: seq<UploadingItem>)
    ensures |r| <= |items|
  {
    if items == [] then []
    else (if items[0].tempId != tempId then [items[0]] else []) + WithoutTemp(items[1..], tempId)
  }

  /** The filter drops exactly the items with that id. */
  lemma {:induction false} WithoutTempMembers(items: seq<UploadingItem>, tempId: string, u: UploadingItem)
    ensures u in WithoutTemp(items, tempId) <==> u in items && u.tempId != tempId
  {
    if items != [] {
      WithoutTempMembers(items[1..], tempId, u);
      assert items == [items[0]] + items[1..];
    }
  }

  lemma {:induction false} WithoutAbsentTemp(items: seq<UploadingItem>, tempId: string)
    requires tempId !in TempIds(items)
    ensures WithoutTemp(items, tempId) == items
  {
    if items != [] {
      assert TempIds(items)[0] == items[0].tempId;
      assert TempIds(items[1..]) == TempIds(items)[1..];
      WithoutAbsentTemp(items[1..], tempId);
      assert items == [items[0]] + items[1..];
    }
  }

  /** The filter keeps the order of the list. */
  lemma {:induction false} WithoutTempConcat(a: seq<UploadingItem>, b: seq<UploadingItem>, tempId: string)
    ensures WithoutTemp(a + b, tempId) == WithoutTemp(a, tempId) + WithoutTemp(b, tempId)
  {
    if a != [] {
      assert (a + b)[1..] == a[1..] + b;
      WithoutTempConcat(a[1..], b, tempId);
    } else {
      assert a + b == b;
    }
  }

  /** Removing the first new item of a batch from the in-flight list leaves the older items and
      the rest of the batch. */
  lemma RemoveFinished(before: seq<UploadingItem>, batch: seq<UploadingItem>)
    requires batch != [] && batch[0].tempId !in TempIds(before) && batch[0].tempId !in TempIds(batch[1..])
    ensures WithoutTemp(before + batch, batch[0].tempId) == before + batch[1..]
  {
    var t := batch[0].tempId;
    WithoutTempConcat(before, batch, t);
    WithoutAbsentTemp(before, t);
    WithoutAbsentTemp(batch[1..], t);
    assert WithoutTemp(batch, t) == WithoutTemp(batch[1..], t);
  }

  /** What a failed upload records: the file, its name, and the thrown message or the default. */
  function FailureOf(file: File, outcome: UploadOutcome): (r: seq<FailedUpload>)
    ensures r == [] <==> outcome.Stored?
    ensures r != [] ==> r == [FailedUpload(file, file.name,
                                          if outcome.error.Some? then outcome.error.value else UploadFailedMessage)]
  {
    match outcome
    case Stored(_) => []
    case Threw(e) => [FailedUpload(file, file.name, if e.Some? then e.value else UploadFailedMessage)]
  }

  /** The failures of a batch, in claim order. */
  function Failures(files: seq<File>, outcomes: seq<UploadOutcome>): (r: seq<FailedUpload>)
    requires |outcomes| == |files|
    ensures |r| <= |files|
  {
    if files == [] then []
    else
      var n := |files| - 1;
      Failures(files[..n], outcomes[..n]) + FailureOf(files[n], outcomes[n])
  }

  function StoredCount(outcomes: seq<UploadOutcome>): (k: nat)
    ensures k <= |outcomes|
  {
    if outcomes == [] then 0
    else StoredCount(outcomes[..|outcomes| - 1]) + (if outcomes[|outcomes| - 1].Stored? then 1 else 0)
  }

  /** Every upload either failed or stored a photo. */
  lemma {:induction false} FailuresAndStoredAddUp(files: seq<File>, outcomes: seq<UploadOutcome>)
    requires |outcomes| == |files|
    ensures |Failures(files, outcomes)| + StoredCount(outcomes) == |files|
  {
    if files != [] {
      var n := |files| - 1;
      FailuresAndStoredAddUp(files[..n], outcomes[..n]);
    }
  }

  /** Each failure carries the file that failed and the message it failed with. */
  lemma {:induction false} FailureHasItsFile(files: seq<File>, outcomes: seq<UploadOutcome>, f: FailedUpload)
    requires |outcomes| == |files|
    requires f in Failures(files, outcomes)
    ensures exists i :: 0 <= i < |files| && f.file == files[i] && f.filename == files[i].name && outcomes[i].Threw?
  {
    var n := |files| - 1;
    if f in Failures(files[..n], outcomes[..n]) {
      FailureHasItsFile(files[..n], outcomes[..n], f);
      var i :| 0 <= i < n && f.file == files[..n][i] && f.filename == files[..n][i].name && outcomes[..n][i].Threw?;
      assert files[i] == files[..n][i] && outcomes[i] == outcomes[..n][i];
    } else {
      assert f in FailureOf(files[n], outcomes[n]);
    }
  }

  /** The cached photo list after one upload: a stored photo is put in front,
      `old ? [photo, ...old] : [photo]`. */
  function CacheStep(cache: Option<seq<Photo>>, outcome: UploadOutcome): Option<seq<Photo>>
  {
    match outcome
    case Stored(photo) => Some([photo] + (if cache.Some? then cache.value else []))
    case Threw(_) => cache
  }

  /** The cached photo list after a batch. */
  function CacheAfter(cache: Option<seq<Photo>>, outcomes: seq<UploadOutcome>): (r: Option<seq<Photo>>)
    ensures r.None? ==> cache.None?
  {
    if outcomes == [] then cache
    else CacheStep(CacheAfter(cache, outcomes[..|outcomes| - 1]), outcomes[|outcomes| - 1])
  }

  /** The photos of a cache entry; an empty entry holds none. */
  function Cached(cache: Option<seq<Photo>>): seq<Photo> {
    if cache.Some? then cache.value else []
  }

  /** The cached photos before the batch are kept, at the end, behind one new photo per stored
      upload. */
  lemma {:induction false} CacheGrowsInFront(cache: Option<seq<Photo>>, outcomes: seq<UploadOutcome>)
    ensures |Cached(CacheAfter(cache, outcomes))| == |Cached(cache)| + StoredCount(outcomes)
    ensures Cached(CacheAfter(cache, outcomes))[StoredCount(outcomes)..] == Cached(cache)
  {
    if outcomes != [] {
      var n := |outcomes| - 1;
      var front := outcomes[..n];
      CacheGrowsInFront(cache, front);
      var mid := Cached(CacheAfter(cache, front));
      var k := StoredCount(front);
      assert CacheAfter(cache, outcomes) == CacheStep(CacheAfter(cache, front), outcomes[n]);
      if outcomes[n].Stored? {
        var after := [outcomes[n].photo] + mid;
        assert Cached(CacheAfter(cache, outcomes)) == after;
        assert StoredCount(outcomes) == k + 1;
        assert after[k + 1..] == mid[k..];
      } else {
        assert StoredCount(outcomes) == k;
      }
    }
  }

  /** Every stored photo is in the cache afterwards. */
  lemma {:induction false} StoredPhotoIsCached(cache: Option<seq<Photo>>, outcomes: seq<UploadOutcome>, i: nat)
    requires i < |outcomes| && outcomes[i].Stored?
    ensures CacheAfter(cache, outcomes).Some? && outcomes[i].photo in CacheAfter(cache, outcomes).value
  {
    var n := |outcomes| - 1;
    if i < n {
      StoredPhotoIsCached(cache, outcomes[..n], i);
    }
  }

  /** The error shown after a batch: none without failures, one failure's own message, or the
      count of failures. */
  function BatchError(failures: seq<FailedUpload>): (r: Option<string>)
    ensures r.None? <==> failures == []
    ensures |failures| == 1 ==> r == Some(failures[0].error)
    ensures |failures| > 1 ==> r == Some(NatToString(|failures|) + " upload(s) failed.")
  {
    if failures == [] then None
    else if |failures| == 1 then Some(failures[0].error)
    else Some(NatToString(|failures|) + " upload(s) failed.")
  }

  /** The files of a list of failures, in order (`failedUploads.map((f) => f.file)`). */
  function FilesOf(failures: seq<FailedUpload>): (files: seq<File>)
    ensures |files| == |failures|
    ensures forall i :: 0 <= i < |failures| ==> files[i] == failures[i].file
  {
    if failures == [] then [] else [failures[0].file] + FilesOf(failures[1..])
  }

  /** The progress map once the recorded values of the given ids are set to 0. */
  function ZeroProgress(tempIds: seq<string>): (m: map<string, int>)
    ensures forall t :: t in m <==> t in tempIds
    ensures forall t :: t in m ==> m[t] == 0
  {
    map t | t in tempIds :: 0
  }

  /** One item under `flushProgress`: it takes its recorded progress when there is one. */
  function FlushItem(u: UploadingItem, progress: map<string, int>): UploadingItem {
    if u.tempId in progress then UploadingItem(u.tempId, u.filename, progress[u.tempId]) else u
  }

  /** An item changes under a flush exactly when its recorded progress differs from its own. */
  predicate Stale(u: UploadingItem, progress: map<string, int>) {
    u.tempId in progress && progress[u.tempId] != u.progress
  }

  /** A flush keeps the id and the name, takes the recorded progress, and changes the item
      exactly when it is stale. */
  lemma FlushItemShape(u: UploadingItem, progress: map<string, int>)
    ensures var r := FlushItem(u, progress);
      r.tempId == u.tempId && r.filename == u.filename
      && r.progress == (if u.tempId in progress then progress[u.tempId] else u.progress)
      && (r != u <==> Stale(u, progress))
  {
  }

  /** `flushProgress` on a list. */
  function Flushed(items: seq<UploadingItem>, progress: map<string, int>): (r: seq<UploadingItem>)
    ensures |r| == |items|
    ensures forall i :: 0 <= i < |items| ==> r[i] == FlushItem(items[i], progress)
  {
    if items == [] then [] else [FlushItem(items[0], progress)] + Flushed(items[1..], progress)
  }

  /** A flush with nothing stale gives back the list as it was, and a second flush changes
      nothing. */
  lemma FlushWithoutStaleIsSame(items: seq<UploadingItem>, progress: map<string, int>)
    ensures (forall i :: 0 <= i < |items| ==> !Stale(items[i], progress)) ==> Flushed(items, progress) == items
    ensures Flushed(Flushed(items, progress), progress) == Flushed(items, progress)
  {
    if forall i :: 0 <= i < |items| ==> !Stale(items[i], progress) {
      assert forall i :: 0 <= i < |items| ==> Flushed(items, progress)[i] == items[i];
    }
    var once := Flushed(items, progress);
    assert forall i :: 0 <= i < |once| ==> Flushed(once, progress)[i] == once[i];
  }

  /** After a percent is recorded for a temporary id, the next flush shows it on that id's items
      and leaves the other items as a flush without it would. */
  lemma RecordedProgressShows(items: seq<UploadingItem>, progress: map<string, int>, tempId: string, percent: int)
    ensures var r := Flushed(items, progress[tempId := percent]);
      forall i :: 0 <= i < |items| ==>
        (items[i].tempId == tempId ==> r[i].progress == percent)
        && (items[i].tempId != tempId ==> r[i] == Flushed(items, progress)[i])
  {
  }

  /** The sum of the in-flight progress values. */
  function ProgressSum(items: seq<UploadingItem>): int {
    if items == [] then 0 else items[0].progress + ProgressSum(items[1..])
  }

  lemma {:induction false} ProgressSumBounds(items: seq<UploadingItem>)
    requires forall i :: 0 <= i < |items| ==> 0 <= items[i].progress <= 100
    ensures 0 <= ProgressSum(items) <= 100 * |items|
  {
    if items != [] {
      ProgressSumBounds(items[1..]);
    }
  }

  /** The batch size the page shows: 0 once nothing is in flight. */
  function TotalForDisplay(uploading: seq<UploadingItem>, totalBatchSize: nat): (t: nat)
    ensures t == 0 || t == totalBatchSize
    ensures uploading == [] ==> t == 0
  {
    if |uploading| > 0 then totalBatchSize else 0
  }

  /** The overall percent before rounding and the cap: completed files count 100 each, in-flight
      ones their progress, over the batch size. */
  function OverallPercent(uploading: seq<UploadingItem>, totalBatchSize: nat, completed: nat): (p: real)
    ensures TotalForDisplay(uploading, totalBatchSize) == 0 ==> p == 0.0
  {
    var total := TotalForDisplay(uploading, totalBatchSize);
    if total > 0 then
      var done := if completed < total then completed else total;
      ((done * 100 + ProgressSum(uploading)) as real) / (total as real)
    else 0.0
  }

  /** The shown percent, capped at 100 (the rounding to one decimal is not modelled). */
  function ShownPercent(uploading: seq<UploadingItem>, totalBatchSize: nat, completed: nat): (p: real)
    ensures p <= 100.0
    ensures uploading == [] ==> p == 0.0
  {
    var overall := OverallPercent(uploading, totalBatchSize, completed);
    if overall < 100.0 then overall else 100.0
  }

  /** With progress values between 0 and 100 and no more files than the batch holds, the
      percent lies between 0 and 100 before the cap. */
  lemma OverallPercentInRange(uploading: seq<UploadingItem>, totalBatchSize: nat, completed: nat)
    requires forall i :: 0 <= i < |uploading| ==> 0 <= uploading[i].progress <= 100
    requires completed + |uploading| <= totalBatchSize
    ensures 0.0 <= OverallPercent(uploading, totalBatchSize, completed) <= 100.0
  {
    var total := TotalForDisplay(uploading, totalBatchSize);
    if total > 0 {
      ProgressSumBounds(uploading);
      var done := if completed < total then completed else total;
      var num := done * 100 + ProgressSum(uploading);
      assert 0 <= num <= 100 * total;
      assert (num as real) / (total as real) <= 100.0 by {
        assert (num as real) <= 100.0 * (total as real);
      }
    }
  }

  /** Where a batch started from: the in-flight list and the progress map without the batch's
      ids, the batch's new items, ids, files and outcomes, the cached photos and the failure
      state. */
  datatype BatchStart = BatchStart(before: seq<UploadingItem>, next: seq<UploadingItem>, kept: map<string, int>,
                                   tempIds: seq<string>, files: seq<File>, outcomes: seq<UploadOutcome>,
                                   cache: Option<seq<Photo>>, error: Option<string>, failed: seq<FailedUpload>)

  ghost predicate WellStarted(b: BatchStart) {
    |b.tempIds| == |b.files| && |b.outcomes| == |b.files| && |b.next| == |b.files| && Distinct(b.tempIds)
    && (forall k :: 0 <= k < |b.next| ==> b.next[k].tempId == b.tempIds[k])
    && (forall t :: t in b.tempIds ==> t !in TempIds(b.before) && t !in b.kept)
  }

  class UploadState {
    var uploading: seq<UploadingItem>
    var uploadError: Option<string>
    var failedUploads: seq<FailedUpload>
    var totalBatchSize: nat
    var completedInBatch: nat
    var progress: map<string, int>
    /** The project's cached photo list, `None` before it was loaded. */
    var cachedPhotos: Option<seq<Photo>>

    constructor(cache: Option<seq<Photo>>)
      ensures uploading == [] && uploadError == None && failedUploads == []
      ensures totalBatchSize == 0 && completedInBatch == 0 && progress == map[] && cachedPhotos == cache
    {
      uploading := [];
      uploadError := None;
      failedUploads := [];
      totalBatchSize := 0;
      completedInBatch := 0;
      progress := map[];
      cachedPhotos := cache;
    }

    /** The `onProgress` callback of one upload: records its percent under its temporary id,
        for the next flush to show. */
    method RecordProgress(tempId: string, percent: int)
      modifies this
      ensures progress == old(progress)[tempId := percent]
      ensures uploading == old(uploading) && failedUploads == old(failedUploads) && uploadError == old(uploadError)
      ensures totalBatchSize == old(totalBatchSize) && completedInBatch == old(completedInBatch)
      ensures cachedPhotos == old(cachedPhotos)
    {
      progress := progress[tempId := percent];
    }

    /** `flushProgress`: copies recorded progress into the in-flight items; `changed` tells
        whether any item was stale. */
    method FlushProgress() returns (changed: bool)
      modifies this
      ensures uploading == Flushed(old(uploading), progress)
      ensures changed <==> exists i :: 0 <= i < |old(uploading)| && Stale(old(uploading)[i], progress)
      ensures !changed ==> uploading == old(uploading)
      ensures progress == old(progress) && failedUploads == old(failedUploads) && uploadError == old(uploadError)
      ensures totalBatchSize == old(totalBatchSize) && completedInBatch == old(completedInBatch)
      ensures cachedPhotos == old(cachedPhotos)
    {
      var prev := uploading;
      changed := false;
      if |prev| == 0 {
        return;
      }
      var next: seq<UploadingItem> := [];
      for k := 0 to |prev|
        invariant |next| == k
        invariant forall i :: 0 <= i < k ==> next[i] == FlushItem(prev[i], progress)
        invariant changed <==> exists i :: 0 <= i < k && Stale(prev[i], progress)
      {
        var u := prev[k];
        if u.tempId in progress && progress[u.tempId] != u.progress {
          changed := true;
          next := next + [UploadingItem(u.tempId, u.filename, progress[u.tempId])];
        } else {
          next := next + [u];
        }
      }
      FlushWithoutStaleIsSame(prev, progress);
      if changed {
        uploading := next;
      }
    }

    /** One pass of `doOne` after its claim: the upload of the file, then the bookkeeping of
        `finally`. */
    method DoOne(file: File, tempId: string, outcome: UploadOutcome) returns (failure: seq<FailedUpload>)
      modifies this
      ensures failure == FailureOf(file, outcome)
      ensures cachedPhotos == CacheStep(old(cachedPhotos), outcome)
      ensures completedInBatch == old(completedInBatch) + 1
      ensures progress == old(progress) - {tempId}
      ensures uploading == WithoutTemp(old(uploading), tempId)
      ensures totalBatchSize == old(totalBatchSize)
      ensures uploadError == old(uploadError) && failedUploads == old(failedUploads)
    {
      match outcome {
        case Stored(photo) =>
          cachedPhotos := Some([photo] + (if cachedPhotos.Some? then cachedPhotos.value else []));
          failure := [];
        case Threw(e) =>
          failure := [FailedUpload(file, file.name, if e.Some? then e.value else UploadFailedMessage)];
      }
      completedInBatch := completedInBatch + 1;
      progress := progress - {tempId};
      uploading := WithoutTemp(uploading, tempId);
    }

    /** The state `i` files into a batch that started from `b`. */
    ghost predicate InBatch(b: BatchStart, i: nat)
      reads this
    {
      WellStarted(b) && i <= |b.files| && completedInBatch == i && totalBatchSize == |b.files|
      && uploading == b.before + b.next[i..] && progress == b.kept + ZeroProgress(b.tempIds[i..])
      && cachedPhotos == CacheAfter(b.cache, b.outcomes[..i])
      && uploadError == b.error && failedUploads == b.failed
    }

    /** A worker's turn: it claims the next file and uploads it. */
    method ClaimNext(ghost b: BatchStart, i: nat, file: File, tempId: string, outcome: UploadOutcome)
      returns (failure: seq<FailedUpload>)
      modifies this
      requires InBatch(b, i) && i < |b.files|
      requires file == b.files[i] && tempId == b.tempIds[i] && outcome == b.outcomes[i]
      ensures InBatch(b, i + 1)
      ensures failure == FailureOf(file, outcome)
    {
      ghost var cacheBefore := cachedPhotos;
      ghost var progressBefore := progress;
      ghost var uploadingBefore := uploading;
      failure := DoOne(file, tempId, outcome);
      TakeOneMore(b.outcomes, i);
      FinishedTempIsGone(b.kept, b.tempIds, i);
      assert progress == progressBefore - {tempId};
      FinishedItemIsGone(b.before, b.next, b.tempIds, i);
      assert uploading == WithoutTemp(uploadingBefore, tempId);
      assert cachedPhotos == CacheStep(cacheBefore, outcome);
    }

    /** The start of `runUploadQueue`: the batch size is set, the counter reset, and one
        in-flight item at 0 % added per file. */
    method StartBatch(files: seq<File>, tempIds: seq<string>, outcomes: seq<UploadOutcome>)
      returns (next: seq<UploadingItem>, ghost b: BatchStart)
      modifies this
      requires |tempIds| == |files| && |outcomes| == |files|
      requires Distinct(tempIds) && forall t :: t in tempIds ==> t !in TempIds(uploading)
      ensures next == NewItems(files, tempIds)
      ensures b == BatchStart(old(uploading), next, old(progress) - (set t | t in tempIds), tempIds, files,
                              outcomes, old(cachedPhotos), old(uploadError), old(failedUploads))
      ensures InBatch(b, 0)
    {
      totalBatchSize := |files|;
      completedInBatch := 0;
      next := NewItems(files, tempIds);
      var before := uploading;
      uploading := uploading + next;
      ghost var kept := progress - (set t | t in tempIds);
      progress := progress + ZeroProgress(tempIds);
      b := BatchStart(before, next, kept, tempIds, files, outcomes, cachedPhotos, uploadError, failedUploads);
      assert progress == kept + ZeroProgress(tempIds[0..]);
      assert outcomes[..0] == [];
    }

    /** The end of `runUploadQueue`: every item of the batch has left and the batch size is
        reset. */
    method EndBatch(ghost b: BatchStart)
      modifies this
      requires InBatch(b, |b.files|)
      ensures uploading == b.before && progress == b.kept
      ensures cachedPhotos == CacheAfter(b.cache, b.outcomes)
      ensures completedInBatch == |b.files| && totalBatchSize == 0
      ensures uploadError == b.error && failedUploads == b.failed
    {
      assert b.outcomes[..|b.files|] == b.outcomes;
      assert b.next[|b.files|..] == [] && b.tempIds[|b.files|..] == [];
      assert ZeroProgress([]) == map[];
      totalBatchSize := 0;
    }

    /** The workers of a batch: while an index is left, one of them claims it and uploads its
        file. */
    method WorkQueue(ghost b: BatchStart, files: seq<File>, next: seq<UploadingItem>, outcomes: seq<UploadOutcome>)
      returns (failures: seq<FailedUpload>, ghost claims: seq<nat>)
      modifies this
      requires InBatch(b, 0) && b.files == files && b.next == next && b.outcomes == outcomes
      ensures InBatch(b, |files|)
      ensures failures == Failures(files, outcomes)
      ensures |claims| == |files| && forall k :: 0 <= k < |claims| ==> claims[k] == k
    {
      var total := |files|;
      failures := [];
      claims := [];
      var index := 0;
      while index < total
        invariant index <= total && InBatch(b, index) && b.files == files
        invariant |claims| == index && forall k :: 0 <= k < index ==> claims[k] == k
        invariant failures == Failures(files[..index], outcomes[..index])
      {
        var i := index;
        index := index + 1;
        ClaimInOrder(claims, i);
        claims := claims + [i];
        var failure := ClaimNext(b, i, files[i], next[i].tempId, outcomes[i]);
        TakeOneMore(files, i);
        TakeOneMore(outcomes, i);
        failures := failures + failure;
      }
      assert files[..total] == files && outcomes[..total] == outcomes;
    }

    /** `runUploadQueue`: starts the batch, lets the workers claim the files one index at a time,
        uploads each, and finishes it. `claims` lists the indices in the order they were
        claimed. */
    method RunUploadQueue(files: seq<File>, tempIds: seq<string>, outcomes: seq<UploadOutcome>)
      returns (failures: seq<FailedUpload>, ghost claims: seq<nat>)
      modifies this
      requires |tempIds| == |files| && |outcomes| == |files|
      requires Distinct(tempIds) && forall t :: t in tempIds ==> t !in TempIds(uploading)
      ensures failures == Failures(files, outcomes)
      ensures |claims| == |files| && forall k :: 0 <= k < |claims| ==> claims[k] == k
      ensures uploading == old(uploading)
      ensures progress == old(progress) - (set t | t in tempIds)
      ensures completedInBatch == |files| && totalBatchSize == 0
      ensures cachedPhotos == CacheAfter(old(cachedPhotos), outcomes)
      ensures uploadError == old(uploadError) && failedUploads == old(failedUploads)
    {
      var next, b := StartBatch(files, tempIds, outcomes);
      failures, claims := WorkQueue(b, files, next, outcomes);
      EndBatch(b);
    }

    /** `handleFiles`: nothing without files or for an invalid project; else a fresh batch whose
        failures, if any, are kept with their error. */
    method HandleFiles(files: Option<seq<File>>, isValidProject: bool, tempIds: seq<string>,
                       outcomes: seq<UploadOutcome>)
      modifies this
      requires files.Some? ==> |tempIds| == |files.value| && |outcomes| == |files.value|
      requires Distinct(tempIds) && forall t :: t in tempIds ==> t !in TempIds(uploading)
      ensures files.None? || files.value == [] || !isValidProject ==>
        uploading == old(uploading) && uploadError == old(uploadError) && failedUploads == old(failedUploads)
        && progress == old(progress) && cachedPhotos == old(cachedPhotos)
        && totalBatchSize == old(totalBatchSize) && completedInBatch == old(completedInBatch)
      ensures files.Some? && files.value != [] && isValidProject ==>
        failedUploads == Failures(files.value, outcomes) && uploadError == BatchError(failedUploads)
        && uploading == old(uploading) && cachedPhotos == CacheAfter(old(cachedPhotos), outcomes)
        && completedInBatch == |files.value| && totalBatchSize == 0
    {
      if files.None? || files.value == [] || !isValidProject {
        return;
      }
      uploadError := None;
      failedUploads := [];
      var failures, _ := RunUploadQueue(files.value, tempIds, outcomes);
      if |failures| > 0 {
        failedUploads := failures;
        uploadError := BatchError(failures);
      }
    }

    /** `retryFailedUploads`: nothing without failures; else the failed files run again as a new
        batch, in the order they failed. */
    method RetryFailedUploads(tempIds: seq<string>, outcomes: seq<UploadOutcome>)
      modifies this
      requires |tempIds| == |failedUploads| && |outcomes| == |failedUploads|
      requires Distinct(tempIds) && forall t :: t in tempIds ==> t !in TempIds(uploading)
      ensures old(failedUploads) == [] ==>
        uploading == old(uploading) && uploadError == old(uploadError) && failedUploads == []
        && progress == old(progress) && cachedPhotos == old(cachedPhotos)
        && totalBatchSize == old(totalBatchSize) && completedInBatch == old(completedInBatch)
      ensures old(failedUploads) != [] ==>
        failedUploads == Failures(FilesOf(old(failedUploads)), outcomes) && uploadError == BatchError(failedUploads)
        && uploading == old(uploading) && cachedPhotos == CacheAfter(old(cachedPhotos), outcomes)
        && completedInBatch == |old(failedUploads)| && totalBatchSize == 0
    {
      if |failedUploads| == 0 {
        return;
      }
      uploadError := None;
      var files := FilesOf(failedUploads);
      failedUploads := [];
      var failures, _ := RunUploadQueue(files, tempIds, outcomes);
      if |failures| > 0 {
        failedUploads := failures;
        uploadError := BatchError(failures);
      }
    }

    /** `dismissFailedUploads`. */
    method DismissFailedUploads()
      modifies this
      ensures failedUploads == [] && uploadError == None
      ensures uploading == old(uploading) && progress == old(progress) && cachedPhotos == old(cachedPhotos)
      ensures totalBatchSize == old(totalBatchSize) && completedInBatch == old(completedInBatch)
    {
      failedUploads := [];
      uploadError := None;
    }
  }

  /** The shared index hands out the next index. */
  lemma ClaimInOrder(claims: seq<nat>, i: nat)
    requires |claims| == i && forall k :: 0 <= k < i ==> claims[k] == k
    ensures forall k :: 0 <= k < i + 1 ==> (claims + [i])[k] == k
  {
  }

  /** Finishing the `i`-th file of a batch removes its id from the zeroed progress. */
  lemma FinishedTempIsGone(kept: map<string, int>, tempIds: seq<string>, i: nat)
    requires i < |tempIds| && Distinct(tempIds)
    requires forall t :: t in tempIds ==> t !in kept
    ensures (kept + ZeroProgress(tempIds[i..])) - {tempIds[i]} == kept + ZeroProgress(tempIds[i + 1..])
  {
    var rest := tempIds[i + 1..];
    assert tempIds[i..] == [tempIds[i]] + rest;
    assert tempIds[i] !in rest by {
      assert forall k :: 0 <= k < |rest| ==> rest[k] == tempIds[i + 1 + k];
    }
    DropZeroed(kept, tempIds[i], rest);
  }

  lemma DropZeroed(kept: map<string, int>, first: string, rest: seq<string>)
    requires first !in rest && first !in kept
    ensures (kept + ZeroProgress([first] + rest)) - {first} == kept + ZeroProgress(rest)
  {
    var lhs := (kept + ZeroProgress([first] + rest)) - {first};
    var rhs := kept + ZeroProgress(rest);
    forall t
      ensures t in lhs <==> t in rhs
      ensures t in lhs ==> lhs[t] == rhs[t]
    {
      assert t in [first] + rest <==> t == first || t in rest;
    }
  }

  /** Finishing the `i`-th file of a batch removes its item from the in-flight list. */
  lemma FinishedItemIsGone(before: seq<UploadingItem>, next: seq<UploadingItem>, tempIds: seq<string>, i: nat)
    requires i < |next| && |next| == |tempIds| && Distinct(tempIds)
    requires forall k :: 0 <= k < |next| ==> next[k].tempId == tempIds[k]
    requires forall t :: t in tempIds ==> t !in TempIds(before)
    ensures WithoutTemp(before + next[i..], tempIds[i]) == before + next[i + 1..]
  {
    var batch := next[i..];
    assert batch[1..] == next[i + 1..];
    assert tempIds[i] !in TempIds(batch[1..]) by {
      forall k | 0 <= k < |batch[1..]|
        ensures TempIds(batch[1..])[k] != tempIds[i]
      {
        assert batch[1..][k] == next[i + 1 + k];
      }
    }
    RemoveFinished(before, batch);
  }
}

/** The batch card of the upload page (`UploadProgressCard`). */
module ProgressCard {
  import opened Strings
  import opened Uploads

  /** What the card shows, when it shows anything. */
  datatype Card = Card(total: int, completed: int, showsCount: bool, barWidth: real)

  /** No card while nothing is in flight; the total is the batch size, or the in-flight count
      when the batch size is 0; completed is the total less those in flight. */
  function CardFor(uploading: seq<UploadingItem>, totalBatchSize: nat, overallPercent: real): (c: Option<Card>)
    ensures c.None? <==> uploading == []
    ensures c.Some? ==> c.value.total == (if totalBatchSize == 0 then |uploading| else totalBatchSize)
    ensures c.Some? ==> c.value.completed == c.value.total - |uploading|
    ensures c.Some? ==> (c.value.showsCount <==> c.value.total > 1)
    ensures c.Some? ==> c.value.barWidth <= 100.0
  {
    if uploading == [] then None
    else
      var total := if totalBatchSize == 0 then |uploading| else totalBatchSize;
      Some(Card(total, total - |uploading|, total > 1, if overallPercent < 100.0 then overallPercent else 100.0))
  }

  /** Within a batch that holds every in-flight file, the completed count lies between 0 and the
      total. */
  lemma CompletedInRange(uploading: seq<UploadingItem>, totalBatchSize: nat, overallPercent: real)
    requires uploading != [] && (totalBatchSize == 0 || |uploading| <= totalBatchSize)
    ensures var c := CardFor(uploading, totalBatchSize, overallPercent).value;
      0 <= c.completed < c.total
  {
  }
}
