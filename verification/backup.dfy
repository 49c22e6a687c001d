/**
 * `backup_videos`: read every video of the channel, fetch the details in
 * batches of 50, write one row per video (insert or overwrite), count new,
 * updated and failed items, and log one backup run.  The database is a map
 * from video id to row plus the list of run records; the API is given as
 * its replies; the two `datetime.now()` readings are parameters.
 */
module Backup {
  import opened Wrappers
  import opened Batching
  import opened Paging

  /** The fields of a returned video's `snippet` that the backup reads; any may be missing. */
  datatype VideoFields = VideoFields(
    title: Option<string>,
    description: Option<string>,
    publishedAt: Option<string>,
    categoryId: Option<string>,
    tags: Option<seq<string>>)

  /** One item of a `videos().list` reply; `id` or `snippet` may be missing. */
  datatype VideoItem = VideoItem(id: Option<string>, snippet: Option<VideoFields>)

  /** The reply to `videos().list(part='snippet', id=<batch>)`. */
  datatype DetailsReply =
    | DetailsHttpError
    | Details(items: seq<VideoItem>)

  /** A row of the `videos` table, keyed by video id. */
  datatype Row = Row(
    title: string,
    description: string,
    publishedAt: string,
    categoryId: string,
    tags: seq<string>,
    backedUpAt: string)

  /** A row of the `backup_runs` table. */
  datatype RunRecord = RunRecord(
    timestamp: string,
    videosCount: nat,
    newCount: nat,
    updatedCount: nat,
    notes: string)

  datatype Database = Database(videos: map<string, Row>, runs: seq<RunRecord>)

  datatype Tally = Tally(newCount: nat, updatedCount: nat, errorCount: nat)

  /** The state the item loop carries: the `videos` table and the three counters. */
  datatype Progress = Progress(videos: map<string, Row>, tally: Tally)

  const RunNote: string := "Full backup"

  function Total(t: Tally): nat
  {
    t.newCount + t.updatedCount + t.errorCount
  }

  /** `get_video_details`: the reply's items, or none when the request fails. */
  function GetVideoDetails(reply: DetailsReply): (r: seq<VideoItem>)
    ensures reply.DetailsHttpError? ==> r == []
    ensures reply.Details? ==> r == reply.items
  {
    match reply
    case DetailsHttpError => []
    case Details(items) => items
  }

  /** An item the backup can write: it has both an id and a snippet (otherwise the lookup raises). */
  predicate Saveable(item: VideoItem)
  {
    item.id.Some? && item.snippet.Some?
  }

  /** The row written for a snippet: missing text fields become `''`, missing tags `[]`. */
  function RowOf(fields: VideoFields, stamp: string): (r: Row)
    ensures fields.title.Some? ==> r.title == fields.title.value
    ensures fields.title.None? ==> r.title == ""
    ensures fields.description.Some? ==> r.description == fields.description.value
    ensures fields.description.None? ==> r.description == ""
    ensures fields.publishedAt.Some? ==> r.publishedAt == fields.publishedAt.value
    ensures fields.publishedAt.None? ==> r.publishedAt == ""
    ensures fields.categoryId.Some? ==> r.categoryId == fields.categoryId.value
    ensures fields.categoryId.None? ==> r.categoryId == ""
    ensures fields.tags.Some? ==> r.tags == fields.tags.value
    ensures fields.tags.None? ==> r.tags == []
    ensures r.backedUpAt == stamp
  {
    Row(fields.title.GetOr(""), fields.description.GetOr(""), fields.publishedAt.GetOr(""),
        fields.categoryId.GetOr(""), fields.tags.GetOr([]), stamp)
  }

  /** The body of the item loop: upsert one video and count it. */
  function SaveVideo(p: Progress, item: VideoItem, stamp: string): (r: Progress)
    ensures Total(r.tally) == Total(p.tally) + 1
    ensures !Saveable(item) ==> r.videos == p.videos && r.tally == p.tally.(errorCount := p.tally.errorCount + 1)
    ensures Saveable(item) ==>
              && r.videos.Keys == p.videos.Keys + {item.id.value}
              && r.videos[item.id.value] == RowOf(item.snippet.value, stamp)
              && (item.id.value in p.videos ==> r.tally == p.tally.(updatedCount := p.tally.updatedCount + 1))
              && (item.id.value !in p.videos ==> r.tally == p.tally.(newCount := p.tally.newCount + 1))
    ensures forall k :: k in p.videos && !(Saveable(item) && k == item.id.value) ==> r.videos[k] == p.videos[k]
  {
    if !Saveable(item) then
      Progress(p.videos, p.tally.(errorCount := p.tally.errorCount + 1))
    else
      var id := item.id.value;
      var tally :=
        if id in p.videos then p.tally.(updatedCount := p.tally.updatedCount + 1)
        else p.tally.(newCount := p.tally.newCount + 1);
      Progress(p.videos[id := RowOf(item.snippet.value, stamp)], tally)
  }

  /** The ids of the items the backup can write. */
  function IdsOf(items: seq<VideoItem>): set<string>
  {
    if items == [] then {}
    else
      var last := items[|items| - 1];
      IdsOf(items[..|items| - 1]) + (if Saveable(last) then {last.id.value} else {})
  }

  /** The item loop over `items`, as a fold. */
  function SaveAll(p: Progress, items: seq<VideoItem>, stamp: string): Progress
    decreases |items|
  {
    if items == [] then p
    else SaveVideo(SaveAll(p, items[..|items| - 1], stamp), items[|items| - 1], stamp)
  }

  /** Every item is counted exactly once, as new, updated or failed. */
  lemma {:induction false} SaveAllCounts(p: Progress, items: seq<VideoItem>, stamp: string)
    ensures Total(SaveAll(p, items, stamp).tally) == Total(p.tally) + |items|
    decreases |items|
  {
    if items != [] {
      SaveAllCounts(p, items[..|items| - 1], stamp);
    }
  }

  /**
   * The fold never deletes a row, adds the rows of the saveable items, and
   * leaves every other row as it was.
   */
  lemma {:induction false} SaveAllRows(p: Progress, items: seq<VideoItem>, stamp: string)
    ensures SaveAll(p, items, stamp).videos.Keys == p.videos.Keys + IdsOf(items)
    ensures forall k :: k in p.videos && k !in IdsOf(items) ==> SaveAll(p, items, stamp).videos[k] == p.videos[k]
    decreases |items|
  {
    if items != [] {
      SaveAllRows(p, items[..|items| - 1], stamp);
    }
  }

  /** The new-video counter grows by exactly the number of rows the fold adds. */
  lemma {:induction false} NewCountIsRowsAdded(p: Progress, items: seq<VideoItem>, stamp: string)
    ensures SaveAll(p, items, stamp).tally.newCount + |p.videos|
              == p.tally.newCount + |SaveAll(p, items, stamp).videos|
    decreases |items|
  {
    if items != [] {
      var init := items[..|items| - 1];
      var q := SaveAll(p, init, stamp);
      NewCountIsRowsAdded(p, init, stamp);
      var item := items[|items| - 1];
      if Saveable(item) && item.id.value !in q.videos {
        assert SaveAll(p, items, stamp).videos.Keys == q.videos.Keys + {item.id.value};
      }
    }
  }

  /** Folding over `a + b` is folding over `a`, then over `b`. */
  lemma {:induction false} SaveAllConcat(p: Progress, a: seq<VideoItem>, b: seq<VideoItem>, stamp: string)
    ensures SaveAll(p, a + b, stamp) == SaveAll(SaveAll(p, a, stamp), b, stamp)
    decreases |b|
  {
    if b == [] {
      assert a + b == a;
    } else {
      var b' := b[..|b| - 1];
      assert (a + b)[..|a + b| - 1] == a + b';
      assert (a + b)[|a + b| - 1] == b[|b| - 1];
      SaveAllConcat(p, a, b', stamp);
    }
  }

  /**
   * When the same id comes back several times, the row holds the fields of
   * its last saveable occurrence.
   */
  lemma {:induction false} LastOccurrenceWins(p: Progress, items: seq<VideoItem>, stamp: string, j: nat)
    requires j < |items| && Saveable(items[j])
    requires forall l :: j < l < |items| ==> !(Saveable(items[l]) && items[l].id == items[j].id)
    ensures var r := SaveAll(p, items, stamp);
            items[j].id.value in r.videos && r.videos[items[j].id.value] == RowOf(items[j].snippet.value, stamp)
    decreases |items|
  {
    var init := items[..|items| - 1];
    if j < |items| - 1 {
      forall l | j < l < |init|
        ensures !(Saveable(init[l]) && init[l].id == init[j].id)
      {
        assert init[l] == items[l];
      }
      LastOccurrenceWins(p, init, stamp, j);
    }
  }

  /**
   * The item at `j` counts as new exactly when it is saveable and its id was
   * neither in the table at the start nor among the saveable items before it.
   */
  lemma ClassifiedNew(p: Progress, items: seq<VideoItem>, stamp: string, j: nat)
    requires j < |items|
    ensures var before := SaveAll(p, items[..j], stamp);
            var after := SaveAll(p, items[..j + 1], stamp);
            (after.tally.newCount == before.tally.newCount + 1) <==>
              (Saveable(items[j]) && items[j].id.value !in p.videos && items[j].id.value !in IdsOf(items[..j]))
  {
    SaveAllSnoc(p, items, j, stamp);
    SaveAllRows(p, items[..j], stamp);
  }

  /** An id seen earlier in the same run counts as updated, not new. */
  lemma RepeatedIdIsUpdated(p: Progress, items: seq<VideoItem>, stamp: string, j: nat)
    requires j < |items| && Saveable(items[j]) && items[j].id.value in IdsOf(items[..j])
    ensures var before := SaveAll(p, items[..j], stamp);
            var after := SaveAll(p, items[..j + 1], stamp);
            after.tally == before.tally.(updatedCount := before.tally.updatedCount + 1)
  {
    SaveAllSnoc(p, items, j, stamp);
    SaveAllRows(p, items[..j], stamp);
  }

  /** The items the detail requests returned, batch after batch; a failed batch adds none. */
  function FetchedItems(details: seq<string> -> DetailsReply, batches: seq<seq<string>>): (r: seq<VideoItem>)
  {
    if batches == [] then []
    else
      var last := batches[|batches| - 1];
      var init := FetchedItems(details, batches[..|batches| - 1]);
      init + GetVideoDetails(details(last))
  }

  /** Every fetched item was returned by the successful request of one of the batches. */
  lemma {:induction false} FetchedItemsOrigin(details: seq<string> -> DetailsReply, batches: seq<seq<string>>,
                                              item: VideoItem)
    requires item in FetchedItems(details, batches)
    ensures exists j :: 0 <= j < |batches| && details(batches[j]).Details? && item in details(batches[j]).items
    decreases |batches|
  {
    var init := batches[..|batches| - 1];
    var last := batches[|batches| - 1];
    if item in FetchedItems(details, init) {
      FetchedItemsOrigin(details, init, item);
      var j :| 0 <= j < |init| && details(init[j]).Details? && item in details(init[j]).items;
      assert batches[j] == init[j];
    } else {
      assert item in GetVideoDetails(details(last));
      assert batches[|batches| - 1] == last;
    }
  }

  /** A batch whose request fails leaves the table and the counters as they were. */
  lemma FailedBatchIsSkipped(p: Progress, details: seq<string> -> DetailsReply,
                             batches: seq<seq<string>>, batch: seq<string>, stamp: string)
    requires details(batch).DetailsHttpError?
    ensures SaveAll(p, FetchedItems(details, batches + [batch]), stamp)
              == SaveAll(p, FetchedItems(details, batches), stamp)
  {
    assert (batches + [batch])[..|batches|] == batches;
    assert FetchedItems(details, batches + [batch]) == FetchedItems(details, batches) + [];
    assert FetchedItems(details, batches) + [] == FetchedItems(details, batches);
  }

  /** The state before the first item: the table as stored, all counters zero. */
  function Start(db: Database): Progress
  {
    Progress(db.videos, Tally(0, 0, 0))
  }

  /** The database and counters after the item loops `p`, with the run record appended. */
  function Recorded(db: Database, videosCount: nat, p: Progress, runStamp: string): (Database, Tally)
  {
    var record := RunRecord(runStamp, videosCount, p.tally.newCount, p.tally.updatedCount, RunNote);
    (Database(p.videos, db.runs + [record]), p.tally)
  }

  /** Save every item the batches of `ids` return, then log the run. */
  function SaveAndRecord(db: Database, ids: seq<string>, details: seq<string> -> DetailsReply,
                         rowStamp: string, runStamp: string): (Database, Tally)
  {
    Recorded(db, |ids|, SaveAll(Start(db), FetchedItems(details, Batches(ids)), rowStamp), runStamp)
  }

  /**
   * Reference definition of one backup run: nothing happens when the
   * channel yields no videos; otherwise every fetched item is saved and one
   * run record is appended.
   */
  function BackupRun(db: Database, channel: ChannelReply, pages: seq<PageReply>,
                     details: seq<string> -> DetailsReply, rowStamp: string, runStamp: string)
    : (r: (Database, Tally))
    ensures VideoIds(ChannelVideos(channel, pages)) == [] ==> r == (db, Tally(0, 0, 0))
  {
    var ids := VideoIds(ChannelVideos(channel, pages));
    if ids == [] then (db, Tally(0, 0, 0))
    else SaveAndRecord(db, ids, details, rowStamp, runStamp)
  }

  /**
   * A run over a non-empty id list appends exactly one record, which counts
   * all ids (not only the saved ones) and the new and updated videos.
   */
  lemma RunIsLogged(db: Database, ids: seq<string>, details: seq<string> -> DetailsReply,
                    rowStamp: string, runStamp: string)
    ensures var r := SaveAndRecord(db, ids, details, rowStamp, runStamp);
            && |r.0.runs| == |db.runs| + 1
            && r.0.runs[..|db.runs|] == db.runs
            && r.0.runs[|db.runs|] == RunRecord(runStamp, |ids|, r.1.newCount, r.1.updatedCount, RunNote)
  {
    var r := SaveAndRecord(db, ids, details, rowStamp, runStamp);
    assert r.0.runs[..|db.runs|] == db.runs;
  }

  /** Every item the detail requests returned is counted once, as new, updated or failed. */
  lemma RunCountsEveryItem(db: Database, ids: seq<string>, details: seq<string> -> DetailsReply,
                           rowStamp: string, runStamp: string)
    ensures Total(SaveAndRecord(db, ids, details, rowStamp, runStamp).1)
              == |FetchedItems(details, Batches(ids))|
  {
    SaveAllCounts(Start(db), FetchedItems(details, Batches(ids)), rowStamp);
  }

  /** The new-video count of a run is the number of rows it added to the table. */
  lemma RunNewCountIsRowsAdded(db: Database, ids: seq<string>, details: seq<string> -> DetailsReply,
                               rowStamp: string, runStamp: string)
    ensures SaveAndRecord(db, ids, details, rowStamp, runStamp).1.newCount + |db.videos|
              == |SaveAndRecord(db, ids, details, rowStamp, runStamp).0.videos|
  {
    NewCountFromStart(db, FetchedItems(details, Batches(ids)), rowStamp);
  }

  lemma NewCountFromStart(db: Database, items: seq<VideoItem>, stamp: string)
    ensures SaveAll(Start(db), items, stamp).tally.newCount + |db.videos|
              == |SaveAll(Start(db), items, stamp).videos|
  {
    NewCountIsRowsAdded(Start(db), items, stamp);
  }

  /** A run keeps every stored row and adds those of the saved items. */
  lemma RunKeepsRows(db: Database, ids: seq<string>, details: seq<string> -> DetailsReply,
                     rowStamp: string, runStamp: string)
    ensures var fetched := FetchedItems(details, Batches(ids));
            var r := SaveAndRecord(db, ids, details, rowStamp, runStamp);
            && r.0.videos.Keys == db.videos.Keys + IdsOf(fetched)
            && forall k :: k in db.videos && k !in IdsOf(fetched) ==> r.0.videos[k] == db.videos[k]
  {
    SaveAllRows(Start(db), FetchedItems(details, Batches(ids)), rowStamp);
  }

  lemma SaveAllSnoc(p: Progress, items: seq<VideoItem>, k: nat, stamp: string)
    requires k < |items|
    ensures SaveAll(p, items[..k + 1], stamp) == SaveVideo(SaveAll(p, items[..k], stamp), items[k], stamp)
  {
    assert items[..k + 1][..k] == items[..k];
  }

  /** The body of the item loop, on the table and the counters. */
  method SaveOne(p: Progress, video: VideoItem, stamp: string) returns (r: Progress)
    ensures r == SaveVideo(p, video, stamp)
  {
    var videos := p.videos;
    var newCount, updatedCount, errorCount := p.tally.newCount, p.tally.updatedCount, p.tally.errorCount;
    if video.id.Some? && video.snippet.Some? {
      var id := video.id.value;
      if id in videos {
        updatedCount := updatedCount + 1;
      } else {
        newCount := newCount + 1;
      }
      videos := videos[id := RowOf(video.snippet.value, stamp)];
    } else {
      errorCount := errorCount + 1;
    }
    r := Progress(videos, Tally(newCount, updatedCount, errorCount));
  }

  /** The item loop of one batch. */
  method SaveVideos(p: Progress, items: seq<VideoItem>, stamp: string) returns (r: Progress)
    ensures r == SaveAll(p, items, stamp)
  {
    r := p;
    var k := 0;
    while k < |items|
      invariant k <= |items|
      invariant r == SaveAll(p, items[..k], stamp)
    {
      r := SaveOne(r, items[k], stamp);
      SaveAllSnoc(p, items, k, stamp);
      k := k + 1;
    }
    assert items[..k] == items;
  }

  /** Saving the items of one more batch extends the fold over the earlier batches. */
  lemma SaveNextBatch(p: Progress, details: seq<string> -> DetailsReply, done: seq<seq<string>>,
                      batch: seq<string>, stamp: string)
    ensures SaveAll(p, FetchedItems(details, done + [batch]), stamp)
              == SaveAll(SaveAll(p, FetchedItems(details, done), stamp), GetVideoDetails(details(batch)), stamp)
  {
    assert (done + [batch])[..|done|] == done;
    SaveAllConcat(p, FetchedItems(details, done), GetVideoDetails(details(batch)), stamp);
  }

  /**
   * One turn of the batch loop at index `i`: the slice it takes is the next
   * batch, and saving its items continues the fold over the batches so far.
   */
  lemma BatchLoopStep(p: Progress, ids: seq<string>, details: seq<string> -> DetailsReply, stamp: string,
                      done: seq<seq<string>>, i: nat, r: Progress)
    requires i < |ids|
    requires Batches(ids) == done + Batches(ids[i..])
    requires r == SaveAll(p, FetchedItems(details, done), stamp)
    ensures var batch := ids[i..Min(i + BatchSize, |ids|)];
            && Batches(ids) == (done + [batch]) + Batches(ids[Min(i + BatchSize, |ids|)..])
            && SaveAll(r, GetVideoDetails(details(batch)), stamp)
               == SaveAll(p, FetchedItems(details, done + [batch]), stamp)
  {
    var batch := ids[i..Min(i + BatchSize, |ids|)];
    NextBatch(ids, i);
    assert done + ([batch] + Batches(ids[Min(i + BatchSize, |ids|)..]))
        == (done + [batch]) + Batches(ids[Min(i + BatchSize, |ids|)..]);
    SaveNextBatch(p, details, done, batch, stamp);
  }

  /** The batch loop: slice the ids 50 at a time, fetch each slice, save what comes back. */
  method SaveBatches(p: Progress, ids: seq<string>, details: seq<string> -> DetailsReply, stamp: string)
    returns (r: Progress)
    ensures r == SaveAll(p, FetchedItems(details, Batches(ids)), stamp)
  {
    ghost var done: seq<seq<string>> := [];
    r := p;
    var i := 0;
    while i < |ids|
      invariant Batches(ids) == done + Batches(ids[Min(i, |ids|)..])
      invariant r == SaveAll(p, FetchedItems(details, done), stamp)
      decreases |ids| - i
    {
      BatchLoopStep(p, ids, details, stamp, done, i, r);
      var batch := ids[i..Min(i + BatchSize, |ids|)];
      r := SaveVideos(r, GetVideoDetails(details(batch)), stamp);
      done := done + [batch];
      i := i + BatchSize;
    }
    assert ids[|ids|..] == [];
    assert done + [] == done;
  }

  /**
   * `backup_videos` as the loops the script runs: batches of 50 ids taken
   * by slicing, and an item loop that upserts each video.
   */
  method BackupVideos(db: Database, channel: ChannelReply, pages: seq<PageReply>,
                      details: seq<string> -> DetailsReply, rowStamp: string, runStamp: string)
    returns (result: Database, tally: Tally)
    ensures (result, tally) == BackupRun(db, channel, pages, details, rowStamp, runStamp)
    ensures |result.runs| <= |db.runs| + 1 && result.runs[..|db.runs|] == db.runs
  {
    var items := ChannelVideos(channel, pages);
    if items == [] {
      return db, Tally(0, 0, 0);
    }
    var ids := VideoIds(items);
    var p := SaveBatches(Start(db), ids, details, rowStamp);
    var record := RunRecord(runStamp, |ids|, p.tally.newCount, p.tally.updatedCount, RunNote);
    result := Database(p.videos, db.runs + [record]);
    tally := p.tally;
  }
}
