/** Orchestration (monitor.py): the startup configuration check, the
    per-video pipeline as status transitions on the store, one poll-and-
    process cycle with its shutdown check, and when the main loop goes on.
    The transcript, summary and publish calls are parameters returning a
    value or raising; the shutdown flag is a parameter read at each check. */
module Monitor {
  import opened Common
  import opened Store
  import Channels
  import Seeder

  // ---------------------------------------------------------------------------
  // Startup validation (monitor.py:58-86)

  /** The configuration `_validate_startup` reads; `backendCheck` is the
      outcome of the backend's own `validate_config`. */
  datatype Settings = Settings(
    anthropicKey: string,
    channelCount: nat,
    backendCheck: Result<()>,
    youtubeApiEnabled: bool,
    youtubeApiKey: string,
    proxyEnabled: bool,
    proxyUsername: string,
    proxyPassword: string)

  /** The errors `_validate_startup` can collect; `BackendConfig` carries the
      message of the backend's own configuration error. */
  datatype ConfigError =
    | NoAnthropicKey
    | NoChannels
    | BackendConfig(message: string)
    | NoYoutubeKey
    | NoProxyCredentials

  /** The line logged for each error. */
  function ErrorMessage(e: ConfigError): string {
    match e
    case NoAnthropicKey => "ANTHROPIC_API_KEY is not set in .env"
    case NoChannels => "No channels configured. Add channel IDs to CHANNELS dict in config.py."
    case BackendConfig(message) => message
    case NoYoutubeKey => "YOUTUBE_API_ENABLED=True but YOUTUBE_API_KEY is not set in .env."
    case NoProxyCredentials => "PROXY_ENABLED=True but PROXY_USERNAME or PROXY_PASSWORD is not set in .env."
  }

  /** Every configuration error `_validate_startup` collects, in the order
      it checks them. */
  function StartupErrors(s: Settings): (errors: seq<ConfigError>)
    ensures |errors| <= 5
    ensures |errors| == 0 <==>
              && s.anthropicKey != "" && s.channelCount > 0 && s.backendCheck.Ok?
              && !(s.youtubeApiEnabled && s.youtubeApiKey == "")
              && !(s.proxyEnabled && (s.proxyUsername == "" || s.proxyPassword == ""))
    ensures NoAnthropicKey in errors <==> s.anthropicKey == ""
    ensures NoChannels in errors <==> s.channelCount == 0
    ensures s.backendCheck.Ok? ==> forall e :: e in errors ==> !e.BackendConfig?
    ensures s.backendCheck.Err? ==> BackendConfig(s.backendCheck.message) in errors
    ensures NoYoutubeKey in errors <==> s.youtubeApiEnabled && s.youtubeApiKey == ""
    ensures NoProxyCredentials in errors <==> s.proxyEnabled && (s.proxyUsername == "" || s.proxyPassword == "")
  {
    var a := if s.anthropicKey == "" then [NoAnthropicKey] else [];
    var b := if s.channelCount == 0 then [NoChannels] else [];
    var c := if s.backendCheck.Err? then [BackendConfig(s.backendCheck.message)] else [];
    var d := if s.youtubeApiEnabled && s.youtubeApiKey == "" then [NoYoutubeKey] else [];
    var e := if s.proxyEnabled && (s.proxyUsername == "" || s.proxyPassword == "") then [NoProxyCredentials] else [];
    var errors := a + b + c + d + e;
    assert forall x :: x in errors <==> x in a || x in b || x in c || x in d || x in e;
    errors
  }

  // ---------------------------------------------------------------------------
  // One video (monitor.py:93-157)

  /** What the summarizer returns. */
  datatype Summary = Summary(text: string, tokensInput: int, tokensOutput: int)

  /** The collaborators `process_video` calls, each returning or raising.
      `publish` receives the pending-output row and returns the reference
      stored as `output_ref` (None when the backend returns nothing). */
  datatype Services = Services(
    transcribe: Channels.Candidate -> Result<Seeder.Transcript>,
    summarize: (Channels.Candidate, Seeder.Transcript) -> Result<Summary>,
    publish: Video -> Result<Option<string>>)

  /** The store after processing, the rows handed to `publish`, and the
      store as it stood when the summarizer was called (if it was). */
  datatype Processed = Processed(db: Db, published: seq<Video>, atSummarize: Option<Db>)

  const TranscriptErrorPrefix := "Transcript error: "

  /** The store after one publish call for `videoId`. */
  function RecordPublish(db: Db, videoId: string, outcome: Result<Option<string>>): (r: Db)
    ensures OnlyRowChanged(db, r, videoId)
    ensures Valid(db) ==> Valid(r)
    ensures videoId !in db.videos ==> r == db
    ensures videoId in db.videos ==>
      var a := db.videos[videoId];
      var b := r.videos[videoId];
      && SameIdentity(a, b) && SameTranscript(a, b) && SameSummary(a, b)
      && (outcome.Ok? ==> b.outputStatus == OutputDone && b.outputRef == outcome.value && b.outputError == None)
      && (outcome.Err? ==> b.outputStatus == OutputFailed && b.outputRef == None && b.outputError == Some(outcome.message))
    ensures videoId in db.videos ==> r.videos[videoId].outputStatus != OutputPending
  {
    match outcome
    case Ok(ref) => UpdateOutput(db, videoId, OutputDone, ref)
    case Err(message) => UpdateOutput(db, videoId, OutputFailed, None, Some(message))
  }

  /** The publish loop: every row of `rows` whose id is `videoId` is handed to
      `publish`, and each outcome is written back. Returns the store and the
      rows published. */
  function PublishRows(db: Db, rows: seq<Video>, videoId: string, publish: Video -> Result<Option<string>>): (r: (Db, seq<Video>))
    decreases |rows|
    ensures OnlyRowChanged(db, r.0, videoId)
    ensures Valid(db) ==> Valid(r.0)
    ensures forall v :: v in r.1 ==> v in rows && v.videoId == videoId
    ensures |r.1| > 0 && videoId in db.videos ==> r.0.videos[videoId].outputStatus != OutputPending
    ensures |r.1| == 0 ==> r.0 == db
  {
    if |rows| == 0 then (db, [])
    else if rows[0].videoId != videoId then PublishRows(db, rows[1..], videoId, publish)
    else
      var after := RecordPublish(db, videoId, publish(rows[0]));
      var rest := PublishRows(after, rows[1..], videoId, publish);
      (rest.0, [rows[0]] + rest.1)
  }

  /** Among rows with distinct ids the loop publishes at most once, and
      exactly the row with the video's id when there is one. */
  lemma {:induction false} PublishOnce(db: Db, rows: seq<Video>, videoId: string, publish: Video -> Result<Option<string>>)
    requires DistinctIds(rows)
    ensures var r := PublishRows(db, rows, videoId, publish);
            |r.1| <= 1 && (|r.1| == 1 <==> exists v :: v in rows && v.videoId == videoId)
  {
    if |rows| > 0 {
      var tail := rows[1..];
      assert DistinctIds(tail) by {
        assert forall i :: 0 <= i < |tail| ==> tail[i] == rows[i + 1];
      }
      if rows[0].videoId != videoId {
        PublishOnce(db, tail, videoId, publish);
        assert forall v :: v in rows && v != rows[0] ==> v in tail;
      } else {
        var after := RecordPublish(db, videoId, publish(rows[0]));
        NoneLeft(after, tail, videoId, publish, rows);
      }
    }
  }

  lemma NoneLeft(db: Db, tail: seq<Video>, videoId: string, publish: Video -> Result<Option<string>>, rows: seq<Video>)
    requires |rows| > 0 && tail == rows[1..] && rows[0].videoId == videoId
    requires DistinctIds(rows)
    ensures PublishRows(db, tail, videoId, publish).1 == []
  {
    forall i | 0 <= i < |tail|
      ensures tail[i].videoId != videoId
    {
      assert tail[i] == rows[i + 1];
    }
    NoMatch(db, tail, videoId, publish);
  }

  lemma {:induction false} NoMatch(db: Db, rows: seq<Video>, videoId: string, publish: Video -> Result<Option<string>>)
    requires forall i :: 0 <= i < |rows| ==> rows[i].videoId != videoId
    ensures PublishRows(db, rows, videoId, publish).1 == []
  {
    if |rows| > 0 {
      NoMatch(db, rows[1..], videoId, publish);
    }
  }

  /** The publish step: the pending-output rows are fetched and the loop
      runs over them. The row is published iff it is summarised and its
      output still pending, and then exactly once. */
  function PublishStep(db: Db, videoId: string, publish: Video -> Result<Option<string>>): (r: (Db, seq<Video>))
    requires Valid(db)
    ensures Valid(r.0)
    ensures OnlyRowChanged(db, r.0, videoId)
    ensures |r.1| <= 1
    ensures |r.1| == 1 <==> videoId in db.videos && AwaitingOutput(db.videos[videoId])
    ensures |r.1| == 1 ==> r.1[0] == db.videos[videoId] && r.0 == RecordPublish(db, videoId, publish(r.1[0]))
    ensures |r.1| == 0 ==> r.0 == db
  {
    var rows := GetPendingOutputVideos(db);
    PublishStepFacts(db, rows, videoId, publish);
    PublishRows(db, rows, videoId, publish)
  }

  /** The loop over the pending-output rows, whatever order they come in. */
  lemma PublishStepFacts(db: Db, rows: seq<Video>, videoId: string, publish: Video -> Result<Option<string>>)
    requires Valid(db)
    requires forall v :: v in rows <==> IsRow(db, v) && AwaitingOutput(v)
    requires DistinctIds(rows)
    ensures var r := PublishRows(db, rows, videoId, publish);
            && |r.1| <= 1
            && (|r.1| == 1 <==> videoId in db.videos && AwaitingOutput(db.videos[videoId]))
            && (|r.1| == 1 ==> r.1[0] == db.videos[videoId] && r.0 == RecordPublish(db, videoId, publish(r.1[0])))
  {
    PublishOnce(db, rows, videoId, publish);
    SingleMatch(db, rows, videoId, publish);
    var r := PublishRows(db, rows, videoId, publish);
    if |r.1| == 1 {
      assert r.1[0] in r.1;
    }
    if videoId in db.videos && AwaitingOutput(db.videos[videoId]) {
      assert db.videos[videoId] in rows;
    }
  }

  /** With one matching row among distinct ids, the loop's store is that
      row's publish outcome written back. */
  lemma {:induction false} SingleMatch(db: Db, rows: seq<Video>, videoId: string, publish: Video -> Result<Option<string>>)
    requires DistinctIds(rows)
    ensures var r := PublishRows(db, rows, videoId, publish);
            |r.1| == 1 ==> r.0 == RecordPublish(db, videoId, publish(r.1[0]))
  {
    if |rows| > 0 {
      var tail := rows[1..];
      assert DistinctIds(tail) by {
        assert forall i :: 0 <= i < |tail| ==> tail[i] == rows[i + 1];
      }
      if rows[0].videoId != videoId {
        SingleMatch(db, tail, videoId, publish);
      } else {
        var after := RecordPublish(db, videoId, publish(rows[0]));
        NoneLeft(after, tail, videoId, publish, rows);
      }
    }
  }

  /** Steps 2 and 3, once the transcript is stored: `processing` is the store
      with the row marked `processing`, as the summarizer sees it. */
  function SummariseAndPublish(processing: Db, c: Channels.Candidate, t: Seeder.Transcript, svc: Services): (r: Processed)
    requires Valid(processing)
    ensures Valid(r.db)
    ensures OnlyRowChanged(processing, r.db, c.videoId)
    ensures r.atSummarize == Some(processing)
    ensures |r.published| <= 1
    ensures c.videoId in processing.videos ==>
              var before := processing.videos[c.videoId];
              var after := r.db.videos[c.videoId];
              && SameTranscript(before, after)
              && (svc.summarize(c, t).Err? ==>
                    && after.summaryStatus == Failed
                    && after.summaryError == Some(svc.summarize(c, t).message)
                    && SameOutput(before, after) && r.published == [])
              && (svc.summarize(c, t).Ok? ==>
                    var s := svc.summarize(c, t).value;
                    && after.summaryStatus == Done && after.summaryText == Some(s.text)
                    && after.tokensInput == Some(s.tokensInput) && after.tokensOutput == Some(s.tokensOutput)
                    && (|r.published| == 1 <==> before.outputStatus == OutputPending))
              && (|r.published| == 1 ==>
                    && r.published[0].videoId == c.videoId && r.published[0].summaryStatus == Done
                    && before.outputStatus == OutputPending
                    && (svc.publish(r.published[0]).Ok? ==>
                          after.outputStatus == OutputDone && after.outputRef == svc.publish(r.published[0]).value)
                    && (svc.publish(r.published[0]).Err? ==>
                          after.outputStatus == OutputFailed && after.outputError == Some(svc.publish(r.published[0]).message)))
              && (|r.published| == 0 ==> SameOutput(before, after))
    ensures c.videoId !in processing.videos ==> r.db == processing && r.published == []
  {
    var id := c.videoId;
    match svc.summarize(c, t)
    case Err(message) =>
      Processed(UpdateSummary(processing, id, Failed, error := Some(message)), [], Some(processing))
    case Ok(s) =>
      var summarised := UpdateSummary(processing, id, Done, Some(s.text), None, Some(s.tokensInput), Some(s.tokensOutput));
      var published := PublishStep(summarised, id, svc.publish);
      Processed(published.0, published.1, Some(processing))
  }

  /** `process_video`: transcript, then summary, then publish, each step's
      failure recorded on the row and ending the pipeline. A row is published
      only while its output is pending, and is left delivered or failed. */
  function ProcessVideo(db: Db, c: Channels.Candidate, svc: Services): (r: Processed)
    requires Valid(db)
    ensures Valid(r.db)
    ensures OnlyRowChanged(db, r.db, c.videoId)
    ensures |r.published| <= 1
    ensures forall v :: v in r.published ==>
              && v.videoId == c.videoId && c.videoId in db.videos
              && db.videos[c.videoId].outputStatus == OutputPending
              && r.db.videos[c.videoId].outputStatus != OutputPending
    ensures c.videoId in db.videos && r.published == [] ==> SameOutput(db.videos[c.videoId], r.db.videos[c.videoId])
    ensures c.videoId !in db.videos ==> r.db == db && r.published == []
  {
    var id := c.videoId;
    match svc.transcribe(c)
    case Err(message) =>
      Processed(UpdateSummary(db, id, Failed, error := Some(TranscriptErrorPrefix + message)), [], None)
    case Ok(t) =>
      var processing := UpdateSummary(UpdateTranscript(db, id, t.tier, t.text), id, Processing);
      var r := SummariseAndPublish(processing, c, t, svc);
      assert c.videoId in db.videos ==> SameOutput(db.videos[id], processing.videos[id]);
      assert |r.published| == 1 ==> r.published[0] in r.published;
      r
  }

  /** A failed transcript marks the summary failed with the prefixed
      message; nothing else runs. */
  lemma TranscriptFailure(db: Db, c: Channels.Candidate, svc: Services)
    requires Valid(db) && c.videoId in db.videos
    requires svc.transcribe(c).Err?
    ensures var r := ProcessVideo(db, c, svc);
            var before := db.videos[c.videoId];
            var after := r.db.videos[c.videoId];
            && after.summaryStatus == Failed
            && after.summaryError == Some(TranscriptErrorPrefix + svc.transcribe(c).message)
            && SameTranscript(before, after) && SameOutput(before, after)
            && r.published == [] && r.atSummarize == None
  {
  }

  /** The transcript is stored and the row is `processing` when the
      summarizer is called; a failed summary is recorded and nothing is
      published. */
  lemma SummaryStep(db: Db, c: Channels.Candidate, svc: Services)
    requires Valid(db) && c.videoId in db.videos
    requires svc.transcribe(c).Ok?
    ensures var r := ProcessVideo(db, c, svc);
            var t := svc.transcribe(c).value;
            var after := r.db.videos[c.videoId];
            && r.atSummarize.Some?
            && r.atSummarize.value.videos[c.videoId].summaryStatus == Processing
            && r.atSummarize.value.videos[c.videoId].transcriptText == Some(t.text)
            && after.transcriptTier == Some(t.tier) && after.transcriptText == Some(t.text)
            && (svc.summarize(c, t).Err? ==>
                  && after.summaryStatus == Failed
                  && after.summaryError == Some(svc.summarize(c, t).message)
                  && SameOutput(db.videos[c.videoId], after)
                  && r.published == [])
  {
    var t := svc.transcribe(c).value;
    var transcribed := UpdateTranscript(db, c.videoId, t.tier, t.text);
    var processing := UpdateSummary(transcribed, c.videoId, Processing);
    assert ProcessVideo(db, c, svc) == SummariseAndPublish(processing, c, t, svc);
  }

  /** A successful summary is stored with its token counts; the row is then
      published iff it is still awaiting output, and the publish outcome is
      recorded. */
  lemma Delivery(db: Db, c: Channels.Candidate, svc: Services)
    requires Valid(db) && c.videoId in db.videos
    requires svc.transcribe(c).Ok? && svc.summarize(c, svc.transcribe(c).value).Ok?
    ensures var r := ProcessVideo(db, c, svc);
            var s := svc.summarize(c, svc.transcribe(c).value).value;
            var before := db.videos[c.videoId];
            var after := r.db.videos[c.videoId];
            && after.summaryStatus == Done && after.summaryText == Some(s.text)
            && after.tokensInput == Some(s.tokensInput) && after.tokensOutput == Some(s.tokensOutput)
            && (|r.published| == 1 <==> before.outputStatus == OutputPending)
            && (|r.published| == 1 ==>
                  && r.published[0].summaryStatus == Done
                  && (svc.publish(r.published[0]).Ok? ==>
                        after.outputStatus == OutputDone && after.outputRef == svc.publish(r.published[0]).value)
                  && (svc.publish(r.published[0]).Err? ==>
                        after.outputStatus == OutputFailed && after.outputError == Some(svc.publish(r.published[0]).message)))
            && (|r.published| == 0 ==> SameOutput(before, after))
  {
    var t := svc.transcribe(c).value;
    var transcribed := UpdateTranscript(db, c.videoId, t.tier, t.text);
    var processing := UpdateSummary(transcribed, c.videoId, Processing);
    assert ProcessVideo(db, c, svc) == SummariseAndPublish(processing, c, t, svc);
    assert SameOutput(db.videos[c.videoId], processing.videos[c.videoId]);
  }

  // ---------------------------------------------------------------------------
  // One cycle (monitor.py:164-182)

  /** Processing `items` one after another; returns the store and every row
      handed to `publish`. */
  function ProcessAll(db: Db, items: seq<Channels.Candidate>, svc: Services): (r: (Db, seq<Video>))
    requires Valid(db)
    ensures Valid(r.0)
    ensures r.0.videos.Keys == db.videos.Keys
  {
    if |items| == 0 then (db, [])
    else
      var prev := ProcessAll(db, items[..|items| - 1], svc);
      var step := ProcessVideo(prev.0, items[|items| - 1], svc);
      (step.db, prev.1 + step.published)
  }

  /** What holds of the rows `published` while a cycle turns `db` into
      `cur`: no video twice, each one published while its output was pending
      and left delivered or failed, and an output that was delivered or
      failed before the cycle untouched. */
  ghost predicate CycleInvariant(db: Db, cur: Db, published: seq<Video>) {
    && cur.videos.Keys == db.videos.Keys
    && DistinctIds(published)
    && (forall v :: v in published ==> v.videoId in cur.videos && cur.videos[v.videoId].outputStatus != OutputPending)
    && (forall v :: v in published ==> v.videoId in db.videos && db.videos[v.videoId].outputStatus == OutputPending)
    && (forall k :: k in db.videos && db.videos[k].outputStatus != OutputPending ==>
          k in cur.videos && cur.videos[k].outputStatus == db.videos[k].outputStatus)
  }

  /** Processing one more item extends the run over the earlier ones. */
  lemma ProcessAllStep(db: Db, items: seq<Channels.Candidate>, n: nat, svc: Services)
    requires Valid(db) && n < |items|
    ensures var prev := ProcessAll(db, items[..n], svc);
            var step := ProcessVideo(prev.0, items[n], svc);
            ProcessAll(db, items[..n + 1], svc) == (step.db, prev.1 + step.published)
  {
    assert items[..n + 1][..n] == items[..n];
  }

  /** Across a cycle no video is published twice, a published video is left
      delivered or failed, and a video that was delivered or failed before
      the cycle is neither published nor changed. */
  lemma {:induction false} PublishedAtMostOnce(db: Db, items: seq<Channels.Candidate>, svc: Services)
    requires Valid(db)
    ensures var r := ProcessAll(db, items, svc);
            CycleInvariant(db, r.0, r.1)
  {
    if |items| > 0 {
      var n := |items| - 1;
      var prev := ProcessAll(db, items[..n], svc);
      PublishedAtMostOnce(db, items[..n], svc);
      CycleStep(db, prev.0, prev.1, items[n], svc);
    }
  }

  /** Processing one more video keeps the cycle invariant. */
  lemma CycleStep(db: Db, cur: Db, published: seq<Video>, c: Channels.Candidate, svc: Services)
    requires Valid(cur)
    requires CycleInvariant(db, cur, published)
    ensures var step := ProcessVideo(cur, c, svc);
            CycleInvariant(db, step.db, published + step.published)
  {
    var step := ProcessVideo(cur, c, svc);
    StepKeepsDistinct(db, cur, published, c, svc);
    StepSettles(db, cur, published, c, svc);
    StepWasPending(db, cur, published, c, svc);
  }

  lemma StepKeepsDistinct(db: Db, cur: Db, published: seq<Video>, c: Channels.Candidate, svc: Services)
    requires Valid(cur)
    requires CycleInvariant(db, cur, published)
    ensures DistinctIds(published + ProcessVideo(cur, c, svc).published)
  {
    var step := ProcessVideo(cur, c, svc);
    var all: seq<Video> := published + step.published;
    forall i, j | 0 <= i < j < |all|
      ensures all[i].videoId != all[j].videoId
    {
      if j >= |published| && i < |published| {
        assert all[i] in published && all[j] in step.published;
      }
    }
  }

  lemma StepSettles(db: Db, cur: Db, published: seq<Video>, c: Channels.Candidate, svc: Services)
    requires Valid(cur)
    requires CycleInvariant(db, cur, published)
    ensures var step := ProcessVideo(cur, c, svc);
            forall v :: v in published + step.published ==>
              v.videoId in step.db.videos && step.db.videos[v.videoId].outputStatus != OutputPending
  {
    var step := ProcessVideo(cur, c, svc);
    forall v | v in published + step.published
      ensures v.videoId in step.db.videos && step.db.videos[v.videoId].outputStatus != OutputPending
    {
      if v in published && v.videoId == c.videoId {
        assert step.published == [];
      }
    }
  }

  lemma StepWasPending(db: Db, cur: Db, published: seq<Video>, c: Channels.Candidate, svc: Services)
    requires Valid(cur)
    requires CycleInvariant(db, cur, published)
    ensures var step := ProcessVideo(cur, c, svc);
            forall v :: v in published + step.published ==>
              v.videoId in db.videos && db.videos[v.videoId].outputStatus == OutputPending
  {
    var step := ProcessVideo(cur, c, svc);
    forall v | v in published + step.published
      ensures v.videoId in db.videos && db.videos[v.videoId].outputStatus == OutputPending
    {
      if v in step.published {
        var id := c.videoId;
        assert v.videoId == id && id in cur.videos && cur.videos[id].outputStatus == OutputPending;
        assert id in db.videos;
      }
    }
  }

  /** `run_once`: poll every channel, then process the new videos in order,
      checking the shutdown flag before each one. `scan` is the poll's
      outcome; `shutdown(i)` is the flag as read before the `i`-th video. */
  method RunOnce(db: Db, channels: seq<(string, string)>, feed: string -> Channels.FeedFetch,
                 now: int, maxAgeDays: int, shutdown: nat -> bool, svc: Services)
    returns (scan: Channels.Scan, r: Db, processed: nat, published: seq<Video>)
    requires Valid(db)
    ensures scan == Channels.PollAllChannels(db, channels, feed, now, maxAgeDays)
    ensures Valid(r)
    ensures processed <= |scan.found|
    ensures forall i :: 0 <= i < processed ==> !shutdown(i)
    ensures processed < |scan.found| ==> shutdown(processed)
    ensures (r, published) == ProcessAll(scan.db, scan.found[..processed], svc)
  {
    scan := Channels.PollAllChannels(db, channels, feed, now, maxAgeDays);
    r, processed, published := ProcessFound(scan.db, scan.found, shutdown, svc);
  }

  /** The loop of `run_once` over the videos found, stopping before the
      first one at which a shutdown has been requested. */
  method ProcessFound(db: Db, found: seq<Channels.Candidate>, shutdown: nat -> bool, svc: Services)
    returns (r: Db, processed: nat, published: seq<Video>)
    requires Valid(db)
    ensures Valid(r)
    ensures processed <= |found|
    ensures forall i :: 0 <= i < processed ==> !shutdown(i)
    ensures processed < |found| ==> shutdown(processed)
    ensures (r, published) == ProcessAll(db, found[..processed], svc)
  {
    r, processed, published := db, 0, [];
    while processed < |found|
      invariant processed <= |found|
      invariant r == ProcessAll(db, found[..processed], svc).0
      invariant published == ProcessAll(db, found[..processed], svc).1
      invariant forall i: nat :: i < processed ==> !shutdown(i)
    {
      if shutdown(processed) {
        break;
      }
      r, published := ProcessNext(db, found, processed, r, published, svc);
      processed := processed + 1;
    }
  }

  /** `process_video` on the next video found, extending the run so far. */
  method ProcessNext(db: Db, found: seq<Channels.Candidate>, n: nat, r: Db, published: seq<Video>, svc: Services)
    returns (r': Db, published': seq<Video>)
    requires Valid(db) && n < |found|
    requires r == ProcessAll(db, found[..n], svc).0 && published == ProcessAll(db, found[..n], svc).1
    ensures r' == ProcessAll(db, found[..n + 1], svc).0 && published' == ProcessAll(db, found[..n + 1], svc).1
  {
    ProcessAllStep(db, found, n, svc);
    var step := ProcessVideo(r, found[n], svc);
    r', published' := step.db, published + step.published;
  }

  // ---------------------------------------------------------------------------
  // The main loop (monitor.py:219-238)

  /** How one call of `run_once` ended. */
  datatype CycleOutcome = Completed | Raised | Interrupted

  /** Why the loop stopped; `CycleLimit` is the bound on the number of cycles
      looked at, not a way the program stops. */
  datatype Stop = ShutdownBeforeCycle | ShutdownAfterCycle | KeyboardInterrupt | CycleLimit

  /** The main loop over at most `limit` cycles. `before(i)` and `after(i)`
      are the shutdown flag as read before and after cycle `i`. An exception
      from a cycle is logged and the loop goes on; only the flag or a
      keyboard interrupt ends it. */
  method MainLoop(outcome: nat -> CycleOutcome, before: nat -> bool, after: nat -> bool, limit: nat)
    returns (cycles: nat, stop: Stop)
    ensures cycles <= limit
    ensures forall i :: 0 <= i < cycles ==> !before(i)
    ensures forall i :: 0 <= i + 1 < cycles ==> outcome(i) != Interrupted && !after(i)
    ensures stop == ShutdownBeforeCycle <==> cycles < limit && before(cycles) && (cycles == 0 || (outcome(cycles - 1) != Interrupted && !after(cycles - 1)))
    ensures stop == KeyboardInterrupt <==> cycles > 0 && outcome(cycles - 1) == Interrupted
    ensures stop == ShutdownAfterCycle <==> cycles > 0 && outcome(cycles - 1) != Interrupted && after(cycles - 1)
    ensures stop == CycleLimit ==> cycles == limit
  {
    cycles, stop := 0, CycleLimit;
    while cycles < limit
      invariant cycles <= limit
      invariant forall i :: 0 <= i < cycles ==> !before(i)
      invariant forall i :: 0 <= i < cycles ==> outcome(i) != Interrupted && !after(i)
    {
      if before(cycles) {
        stop := ShutdownBeforeCycle;
        return;
      }
      var o := outcome(cycles);
      cycles := cycles + 1;
      if o == Interrupted {
        stop := KeyboardInterrupt;
        return;
      }
      if after(cycles - 1) {
        stop := ShutdownAfterCycle;
        return;
      }
    }
  }
}
