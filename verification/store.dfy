/** The persistence layer (database.py) as an immutable value: the `videos`
    table as a map from video id to row plus the table's insertion (rowid)
    order, and the `channels` table as a map from channel id to row. Every
    statement the source runs is one function from store to store. */
module Store {
  import opened Common

  /** `videos.summary_status`: pending | processing | done | failed | skipped. */
  datatype SummaryStatus = Pending | Processing | Done | Failed | Skipped

  /** `videos.output_status`: pending | done | failed. */
  datatype OutputStatus = OutputPending | OutputDone | OutputFailed

  /** One row of the `videos` table (timestamps are seconds; the
      housekeeping `created_at`/`updated_at` columns are not modelled). */
  datatype Video = Video(
    videoId: string,
    channelId: string,
    channelName: string,
    title: string,
    publishedAt: Option<int>,
    transcriptTier: Option<int>,
    transcriptText: Option<string>,
    summaryStatus: SummaryStatus,
    summaryText: Option<string>,
    summaryError: Option<string>,
    tokensInput: Option<int>,
    tokensOutput: Option<int>,
    outputStatus: OutputStatus,
    outputRef: Option<string>,
    outputError: Option<string>)

  /** One row of the `channels` table. */
  datatype Channel = Channel(
    channelId: string,
    channelName: string,
    lastCheckedAt: Option<int>,
    errorCount: int,
    enabled: bool)

  /** The whole database. `order` lists the video ids in insertion order,
      the order SQLite visits rows in when no index decides it. */
  datatype Db = Db(videos: map<string, Video>, order: seq<string>, channels: map<string, Channel>)

  /** The table invariants: `video_id` is the primary key, so every row is
      stored under its own id, once, and the rowid order lists each row once. */
  ghost predicate Valid(db: Db) {
    && NoDup(db.order)
    && (forall k :: k in db.videos <==> k in db.order)
    && (forall k :: k in db.videos ==> db.videos[k].videoId == k)
  }

  /** Validity is a property of the videos table alone. */
  lemma ValidIgnoresChannels(a: Db, b: Db)
    requires a.videos == b.videos && a.order == b.order
    ensures Valid(a) == Valid(b)
  {
  }

  /** A freshly created database (after `migrate`). */
  function EmptyDb(): (db: Db)
    ensures Valid(db)
    ensures db.videos == map[] && db.channels == map[]
  {
    Db(map[], [], map[])
  }

  // ---------------------------------------------------------------------------
  // Column groups

  /** Identity columns: id, channel, title, publication time. */
  predicate SameIdentity(a: Video, b: Video) {
    a.videoId == b.videoId && a.channelId == b.channelId && a.channelName == b.channelName
    && a.title == b.title && a.publishedAt == b.publishedAt
  }

  predicate SameTranscript(a: Video, b: Video) {
    a.transcriptTier == b.transcriptTier && a.transcriptText == b.transcriptText
  }

  predicate SameSummary(a: Video, b: Video) {
    a.summaryStatus == b.summaryStatus && a.summaryText == b.summaryText
    && a.summaryError == b.summaryError && a.tokensInput == b.tokensInput
    && a.tokensOutput == b.tokensOutput
  }

  predicate SameOutput(a: Video, b: Video) {
    a.outputStatus == b.outputStatus && a.outputRef == b.outputRef && a.outputError == b.outputError
  }

  /** `r` differs from `db` at most in the video row `id`. */
  predicate OnlyRowChanged(db: Db, r: Db, id: string) {
    && r.order == db.order
    && r.channels == db.channels
    && r.videos.Keys == db.videos.Keys
    && (forall k :: k in db.videos && k != id ==> r.videos[k] == db.videos[k])
  }

  /** `r` differs from `db` at most in the channels table. */
  predicate OnlyChannelsChanged(db: Db, r: Db) {
    r.videos == db.videos && r.order == db.order
  }

  // ---------------------------------------------------------------------------
  // Channel helpers (database.py:148-174)

  /** `upsert_channel`: insert with column defaults, or on conflict change
      only the name. */
  function UpsertChannel(db: Db, channelId: string, channelName: string): (r: Db)
    ensures OnlyChannelsChanged(db, r)
    ensures r.channels.Keys == db.channels.Keys + {channelId}
    ensures forall k :: k in db.channels && k != channelId ==> r.channels[k] == db.channels[k]
    ensures r.channels[channelId].channelName == channelName
    ensures channelId in db.channels ==>
      r.channels[channelId] == db.channels[channelId].(channelName := channelName)
    ensures channelId !in db.channels ==>
      var c := r.channels[channelId];
      c.channelId == channelId && c.lastCheckedAt == None && c.errorCount == 0 && c.enabled
  {
    if channelId in db.channels then
      db.(channels := db.channels[channelId := db.channels[channelId].(channelName := channelName)])
    else
      db.(channels := db.channels[channelId := Channel(channelId, channelName, None, 0, true)])
  }

  /** `mark_channel_checked`: record the check time and reset the error
      counter; an unknown channel is left alone. */
  function MarkChannelChecked(db: Db, channelId: string, now: int): (r: Db)
    ensures OnlyChannelsChanged(db, r)
    ensures r.channels.Keys == db.channels.Keys
    ensures forall k :: k in db.channels && k != channelId ==> r.channels[k] == db.channels[k]
    ensures channelId in db.channels ==>
      var old_ := db.channels[channelId];
      var c := r.channels[channelId];
      && c.errorCount == 0 && c.lastCheckedAt == Some(now)
      && c.channelId == old_.channelId && c.channelName == old_.channelName && c.enabled == old_.enabled
    ensures channelId !in db.channels ==> r == db
  {
    if channelId in db.channels then
      db.(channels := db.channels[channelId := db.channels[channelId].(lastCheckedAt := Some(now), errorCount := 0)])
    else db
  }

  /** `increment_channel_error`: add exactly one to the error counter. */
  function IncrementChannelError(db: Db, channelId: string): (r: Db)
    ensures OnlyChannelsChanged(db, r)
    ensures r.channels.Keys == db.channels.Keys
    ensures forall k :: k in db.channels && k != channelId ==> r.channels[k] == db.channels[k]
    ensures channelId in db.channels ==>
      var old_ := db.channels[channelId];
      var c := r.channels[channelId];
      && c.errorCount == old_.errorCount + 1 && c.lastCheckedAt == old_.lastCheckedAt
      && c.channelId == old_.channelId && c.channelName == old_.channelName && c.enabled == old_.enabled
    ensures channelId !in db.channels ==> r == db
  {
    if channelId in db.channels then
      db.(channels := db.channels[channelId := db.channels[channelId].(errorCount := db.channels[channelId].errorCount + 1)])
    else db
  }

  // ---------------------------------------------------------------------------
  // Video helpers (database.py:181-261)

  /** `is_video_known`. */
  function IsVideoKnown(db: Db, videoId: string): (known: bool)
    ensures Valid(db) ==> (known <==> videoId in GetAllVideoIds(db))
  {
    videoId in db.videos
  }

  /** The row `insert_video` creates: the identity columns it is given and
      the schema defaults for everything else. */
  predicate Discovered(v: Video, videoId: string, channelId: string, channelName: string,
                       title: string, publishedAt: Option<int>) {
    && v.videoId == videoId && v.channelId == channelId && v.channelName == channelName
    && v.title == title && v.publishedAt == publishedAt
    && v.transcriptTier == None && v.transcriptText == None
    && v.summaryStatus == Pending && v.summaryText == None && v.summaryError == None
    && v.tokensInput == None && v.tokensOutput == None
    && v.outputStatus == OutputPending && v.outputRef == None && v.outputError == None
  }

  /** `insert_video`: INSERT ... ON CONFLICT(video_id) DO NOTHING. */
  function InsertVideo(db: Db, videoId: string, channelId: string, channelName: string,
                       title: string, publishedAt: Option<int> := None): (r: Db)
    ensures videoId in r.videos
    ensures videoId in db.videos ==> r == db
    ensures videoId !in db.videos ==>
      && r.videos.Keys == db.videos.Keys + {videoId}
      && (forall k :: k in db.videos ==> r.videos[k] == db.videos[k])
      && r.order == db.order + [videoId]
      && r.channels == db.channels
      && Discovered(r.videos[videoId], videoId, channelId, channelName, title, publishedAt)
    ensures Valid(db) ==> Valid(r)
  {
    if videoId in db.videos then db
    else
      var v := Video(videoId, channelId, channelName, title, publishedAt,
                     None, None, Pending, None, None, None, None,
                     OutputPending, None, None);
      var r := Db(db.videos[videoId := v], db.order + [videoId], db.channels);
      assert Valid(db) ==> NoDup(r.order) by {
        if Valid(db) {
          assert videoId !in db.order;
        }
      }
      r
  }

  /** `update_transcript`: set tier and text, nothing else. */
  function UpdateTranscript(db: Db, videoId: string, tier: int, text: string): (r: Db)
    ensures OnlyRowChanged(db, r, videoId)
    ensures videoId !in db.videos ==> r == db
    ensures videoId in db.videos ==>
      var a := db.videos[videoId];
      var b := r.videos[videoId];
      && SameIdentity(a, b) && SameSummary(a, b) && SameOutput(a, b)
      && b.transcriptTier == Some(tier) && b.transcriptText == Some(text)
    ensures Valid(db) ==> Valid(r)
  {
    if videoId in db.videos then
      db.(videos := db.videos[videoId := db.videos[videoId].(transcriptTier := Some(tier), transcriptText := Some(text))])
    else db
  }

  /** `update_summary`: overwrite the five summary columns together; an
      omitted argument is written as NULL. */
  function UpdateSummary(db: Db, videoId: string, status: SummaryStatus,
                         summaryText: Option<string> := None, error: Option<string> := None,
                         tokensInput: Option<int> := None, tokensOutput: Option<int> := None): (r: Db)
    ensures OnlyRowChanged(db, r, videoId)
    ensures videoId !in db.videos ==> r == db
    ensures videoId in db.videos ==>
      var a := db.videos[videoId];
      var b := r.videos[videoId];
      && SameIdentity(a, b) && SameTranscript(a, b) && SameOutput(a, b)
      && b.summaryStatus == status && b.summaryText == summaryText && b.summaryError == error
      && b.tokensInput == tokensInput && b.tokensOutput == tokensOutput
    ensures Valid(db) ==> Valid(r)
  {
    if videoId in db.videos then
      db.(videos := db.videos[videoId := db.videos[videoId].(
        summaryStatus := status, summaryText := summaryText, summaryError := error,
        tokensInput := tokensInput, tokensOutput := tokensOutput)])
    else db
  }

  /** `update_output`: overwrite status, reference and error together. */
  function UpdateOutput(db: Db, videoId: string, status: OutputStatus,
                        outputRef: Option<string> := None, error: Option<string> := None): (r: Db)
    ensures OnlyRowChanged(db, r, videoId)
    ensures videoId !in db.videos ==> r == db
    ensures videoId in db.videos ==>
      var a := db.videos[videoId];
      var b := r.videos[videoId];
      && SameIdentity(a, b) && SameTranscript(a, b) && SameSummary(a, b)
      && b.outputStatus == status && b.outputRef == outputRef && b.outputError == error
    ensures Valid(db) ==> Valid(r)
  {
    if videoId in db.videos then
      db.(videos := db.videos[videoId := db.videos[videoId].(
        outputStatus := status, outputRef := outputRef, outputError := error)])
    else db
  }

  /** The default tier `mark_video_seen` records when the caller gives none. */
  const SeenDefaultTier: int := 3

  /** `mark_video_seen`: INSERT OR IGNORE of a row that is already summarised
      and delivered; an existing row, whatever its state, is left alone. */
  function MarkVideoSeen(db: Db, videoId: string, channelId: string, channelName: string,
                         title: string, summary: string, transcriptTier: int := SeenDefaultTier): (r: Db)
    ensures videoId in r.videos
    ensures videoId in db.videos ==> r == db
    ensures videoId !in db.videos ==>
      var v := r.videos[videoId];
      && r.videos.Keys == db.videos.Keys + {videoId}
      && (forall k :: k in db.videos ==> r.videos[k] == db.videos[k])
      && r.order == db.order + [videoId]
      && r.channels == db.channels
      && v.videoId == videoId && v.channelId == channelId && v.channelName == channelName
      && v.title == title && v.publishedAt == None
      && v.transcriptTier == Some(transcriptTier) && v.transcriptText == None
      && v.summaryStatus == Done && v.summaryText == Some(summary) && v.summaryError == None
      && v.tokensInput == None && v.tokensOutput == None
      && v.outputStatus == OutputDone && v.outputRef == None && v.outputError == None
    ensures Valid(db) ==> Valid(r)
  {
    if videoId in db.videos then db
    else
      var v := Video(videoId, channelId, channelName, title, None,
                     Some(transcriptTier), None, Done, Some(summary), None, None, None,
                     OutputDone, None, None);
      var r := Db(db.videos[videoId := v], db.order + [videoId], db.channels);
      assert Valid(db) ==> NoDup(r.order) by {
        if Valid(db) {
          assert videoId !in db.order;
        }
      }
      r
  }

  // ---------------------------------------------------------------------------
  // Queries (database.py:264-312)

  /** SQLite's ordering of a nullable timestamp: NULL sorts first. */
  predicate PublishedLe(a: Option<int>, b: Option<int>) {
    a.None? || (b.Some? && a.value <= b.value)
  }

  /** `a` may come before `b` under ORDER BY published_at ASC (or DESC). */
  predicate InOrder(a: Video, b: Video, ascending: bool) {
    if ascending then PublishedLe(a.publishedAt, b.publishedAt)
    else PublishedLe(b.publishedAt, a.publishedAt)
  }

  predicate Sorted(rows: seq<Video>, ascending: bool) {
    forall i, j :: 0 <= i < j < |rows| ==> InOrder(rows[i], rows[j], ascending)
  }

  /** `v` is, exactly, the row stored under its own id. */
  predicate IsRow(db: Db, v: Video) {
    v.videoId in db.videos && db.videos[v.videoId] == v
  }

  /** No two rows share an id. */
  predicate DistinctIds(rows: seq<Video>) {
    forall i, j :: 0 <= i < j < |rows| ==> rows[i].videoId != rows[j].videoId
  }

  function InsertSorted(rows: seq<Video>, v: Video, ascending: bool): (r: seq<Video>)
    requires Sorted(rows, ascending)
    ensures Sorted(r, ascending)
    ensures |r| == |rows| + 1
    ensures forall x :: x in r <==> x in rows || x == v
    ensures NoDup(rows) && v !in rows ==> NoDup(r)
  {
    if |rows| == 0 then [v]
    else if InOrder(v, rows[0], ascending) then [v] + rows
    else
      var tail := InsertSorted(rows[1..], v, ascending);
      assert InOrder(rows[0], v, ascending);
      assert forall j :: 0 <= j < |tail| ==> InOrder(rows[0], tail[j], ascending) by {
        forall j | 0 <= j < |tail|
          ensures InOrder(rows[0], tail[j], ascending)
        {
          assert tail[j] in tail;
          if tail[j] != v {
            assert tail[j] in rows[1..];
            var m :| 0 <= m < |rows[1..]| && rows[1..][m] == tail[j];
            assert rows[m + 1] == tail[j];
          }
        }
      }
      ConsSorted(rows[0], tail, ascending);
      assert NoDup(rows) && v !in rows ==> NoDup([rows[0]] + tail) by {
        if NoDup(rows) && v !in rows {
          assert rows[0] !in rows[1..];
          ConsNoDup(rows[0], tail);
        }
      }
      [rows[0]] + tail
  }

  lemma ConsSorted(h: Video, tail: seq<Video>, ascending: bool)
    requires Sorted(tail, ascending)
    requires forall j :: 0 <= j < |tail| ==> InOrder(h, tail[j], ascending)
    ensures Sorted([h] + tail, ascending)
  {
    var r := [h] + tail;
    forall i, j | 0 <= i < j < |r|
      ensures InOrder(r[i], r[j], ascending)
    {
      if i > 0 {
        assert r[i] == tail[i - 1] && r[j] == tail[j - 1];
      }
    }
  }

  lemma ConsNoDup<T>(h: T, tail: seq<T>)
    requires NoDup(tail) && h !in tail
    ensures NoDup([h] + tail)
  {
    var r := [h] + tail;
    forall i, j | 0 <= i < j < |r|
      ensures r[i] != r[j]
    {
      if i > 0 {
        assert r[i] == tail[i - 1] && r[j] == tail[j - 1];
      } else {
        assert r[j] in tail;
      }
    }
  }

  /** An insertion sort on the publication time. */
  function SortRows(rows: seq<Video>, ascending: bool): (r: seq<Video>)
    ensures Sorted(r, ascending)
    ensures |r| == |rows|
    ensures forall x :: x in r <==> x in rows
    ensures NoDup(rows) ==> NoDup(r)
  {
    if |rows| == 0 then []
    else
      var init := rows[..|rows| - 1];
      assert forall x :: x in rows <==> x in init || x == rows[|rows| - 1];
      InsertSorted(SortRows(init, ascending), rows[|rows| - 1], ascending)
  }

  /** The rows whose ids are listed in `ids`, in that order, that satisfy `keep`. */
  function Select(db: Db, ids: seq<string>, keep: Video -> bool): (rows: seq<Video>)
    requires forall k :: k in ids ==> k in db.videos && db.videos[k].videoId == k
    ensures forall v :: v in rows <==> v.videoId in ids && IsRow(db, v) && keep(v)
    ensures NoDup(ids) ==> NoDup(rows)
  {
    if |ids| == 0 then []
    else
      var v := db.videos[ids[0]];
      var rest := Select(db, ids[1..], keep);
      assert forall k :: k in ids <==> k == ids[0] || k in ids[1..];
      if keep(v) then [v] + rest else rest
  }

  /** SELECT * FROM videos WHERE keep ORDER BY published_at. */
  function Query(db: Db, keep: Video -> bool, ascending: bool): (rows: seq<Video>)
    requires Valid(db)
    ensures forall v :: v in rows <==> IsRow(db, v) && keep(v)
    ensures DistinctIds(rows)
    ensures Sorted(rows, ascending)
  {
    var rows := SortRows(Select(db, db.order, keep), ascending);
    assert DistinctIds(rows) by {
      forall i, j | 0 <= i < j < |rows|
        ensures rows[i].videoId != rows[j].videoId
      {
        assert rows[i] in rows && rows[j] in rows;
        assert rows[i] != rows[j];
      }
    }
    rows
  }

  /** The filters of the three queries. */
  predicate AwaitingSummary(v: Video) {
    v.summaryStatus == Pending && v.transcriptText.Some?
  }

  predicate AwaitingOutput(v: Video) {
    v.summaryStatus == Done && v.outputStatus == OutputPending
  }

  predicate Summarised(v: Video) {
    v.summaryStatus == Done
  }

  /** `get_pending_videos`: summary pending and transcript present, oldest first. */
  function GetPendingVideos(db: Db): (rows: seq<Video>)
    requires Valid(db)
    ensures forall v :: v in rows <==> IsRow(db, v) && v.summaryStatus == Pending && v.transcriptText.Some?
    ensures DistinctIds(rows)
    ensures Sorted(rows, true)
  {
    Query(db, AwaitingSummary, true)
  }

  /** `get_pending_output_videos`: summarised but not yet delivered, oldest first. */
  function GetPendingOutputVideos(db: Db): (rows: seq<Video>)
    requires Valid(db)
    ensures forall v :: v in rows <==> IsRow(db, v) && v.summaryStatus == Done && v.outputStatus == OutputPending
    ensures DistinctIds(rows)
    ensures Sorted(rows, true)
  {
    Query(db, AwaitingOutput, true)
  }

  /** SQLite's LIMIT: a negative limit means no limit. */
  function Limit(rows: seq<Video>, limit: int): (r: seq<Video>)
    ensures limit < 0 ==> r == rows
    ensures 0 <= limit ==> r == rows[..if limit < |rows| then limit else |rows|]
  {
    if limit < 0 || |rows| <= limit then rows else rows[..limit]
  }

  /** `get_recent_summaries`: the `limit` most recently published summarised
      rows, newest first. */
  function GetRecentSummaries(db: Db, limit: int := 50): (rows: seq<Video>)
    requires Valid(db)
    ensures forall v :: v in rows ==> IsRow(db, v) && v.summaryStatus == Done
    ensures 0 <= limit ==> |rows| <= limit
    ensures DistinctIds(rows)
    ensures Sorted(rows, false)
    ensures forall v :: IsRow(db, v) && v.summaryStatus == Done && v !in rows ==>
      0 <= limit == |rows| && forall i :: 0 <= i < |rows| ==> InOrder(rows[i], v, false)
  {
    var all := Query(db, Summarised, false);
    LimitOfSorted(all, limit);
    Limit(all, limit)
  }

  /** Cutting a sorted list of distinct rows keeps it sorted and distinct,
      and whatever is cut off comes after everything kept. */
  lemma LimitOfSorted(all: seq<Video>, limit: int)
    requires DistinctIds(all) && Sorted(all, false)
    ensures var rows := Limit(all, limit);
            && (forall v :: v in rows ==> v in all)
            && (0 <= limit ==> |rows| <= limit)
            && DistinctIds(rows) && Sorted(rows, false)
            && forall v :: v in all && v !in rows ==>
                 0 <= limit == |rows| && forall i :: 0 <= i < |rows| ==> InOrder(rows[i], v, false)
  {
    var rows := Limit(all, limit);
    forall v | v in all && v !in rows
      ensures 0 <= limit == |rows| && forall i :: 0 <= i < |rows| ==> InOrder(rows[i], v, false)
    {
      var j :| 0 <= j < |all| && all[j] == v;
      assert j >= |rows|;
    }
  }

  /** `get_all_video_ids`: every stored id, once each. */
  function GetAllVideoIds(db: Db): (ids: seq<string>)
    ensures Valid(db) ==> NoDup(ids) && forall k :: k in ids <==> k in db.videos
  {
    db.order
  }

  // ---------------------------------------------------------------------------
  // Properties relating several operations

  /** Inserting a known id a second time is a no-op: the first call's fields win. */
  lemma InsertIsIdempotent(db: Db, videoId: string, channelId: string, channelName: string,
                           title: string, publishedAt: Option<int>,
                           channelId': string, channelName': string, title': string,
                           publishedAt': Option<int>)
    ensures var once := InsertVideo(db, videoId, channelId, channelName, title, publishedAt);
            InsertVideo(once, videoId, channelId', channelName', title', publishedAt') == once
  {
  }

  /** After `insert_video` or `mark_video_seen` the id is known. */
  lemma KnownAfterInsert(db: Db, videoId: string, channelId: string, channelName: string,
                         title: string, publishedAt: Option<int>, summary: string, tier: int)
    ensures IsVideoKnown(InsertVideo(db, videoId, channelId, channelName, title, publishedAt), videoId)
    ensures IsVideoKnown(MarkVideoSeen(db, videoId, channelId, channelName, title, summary, tier), videoId)
  {
  }

  /** A row that is not pending delivery never shows up among the rows
      waiting to be delivered, so nothing can pick it up for publishing. */
  lemma DeliveredIsNeverPendingOutput(db: Db, videoId: string)
    requires Valid(db)
    requires videoId in db.videos && db.videos[videoId].outputStatus != OutputPending
    ensures forall v :: v in GetPendingOutputVideos(db) ==> v.videoId != videoId
  {
  }
}
