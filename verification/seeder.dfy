/** Startup backfill (seeder.py): the most recent feed entries of every
    channel are summarised and published unless the board already links the
    video or this run already seeded it. The local store is written after a
    successful publish but never read to decide what to seed. The feed
    fetch, the board lookup, the transcript, the summary and the publish
    call are parameters. */
module Seeder {
  import opened Common
  import opened Text
  import opened Store
  import Channels
  import TrelloBackend
  import Output

  const SeedDepth: int := 3

  const WebHost := "https://www."

  /** "https://www.youtube.com/watch?v=", spelled through the URL form the
      Trello backend recognises. */
  const WatchUrlPrefix := WebHost + TrelloBackend.WatchForm

  function WatchUrl(videoId: string): string {
    WatchUrlPrefix + videoId
  }

  /** One entry `_fetch_recent_entries` returns. */
  datatype SeedEntry = SeedEntry(videoId: string, title: string, url: string, channelId: string)

  // ---------------------------------------------------------------------------
  // Recent entries (seeder.py:52-73)

  /** `len(xs[:stop])` for a list of length `n`, Python slice rules included:
      a negative `stop` counts from the end. */
  function SliceLength(n: nat, stop: int): (k: nat)
    ensures k <= n
    ensures 0 <= stop ==> k <= stop
    ensures 0 <= stop <= n ==> k == stop
    ensures stop < 0 ==> k == if n + stop < 0 then 0 else n + stop
  {
    if stop >= 0 then (if stop < n then stop else n)
    else if n + stop < 0 then 0
    else n + stop
  }

  /** The video id of an entry: `yt_videoid` when present and non-empty,
      otherwise the text after the last ':' of the entry id. */
  function SeedId(e: Channels.FeedEntry): string {
    var direct := e.ytVideoId.GetOr("");
    if direct != "" then direct else LastField(e.atomId.GetOr(""), ':')
  }

  /** Without `yt_videoid` the id comes from the `yt:video:<id>` entry id. */
  lemma AtomIdFallback(e: Channels.FeedEntry, v: string)
    requires e.ytVideoId.GetOr("") == ""
    requires e.atomId == Some("yt:video:" + v)
    requires ':' !in v
    ensures SeedId(e) == v
  {
    assert "yt:video:" + v == "yt:video" + [':'] + v;
    LastFieldAfter("yt:video", ':', v);
  }

  /** The seed entry for a feed entry, or None when it has no id. */
  function SeedEntryOf(e: Channels.FeedEntry, channelId: string): (r: Option<SeedEntry>)
    ensures r.Some? <==> SeedId(e) != ""
    ensures r.Some? ==> r.value.videoId == SeedId(e) && r.value.url == WatchUrl(SeedId(e))
                        && r.value.title == Channels.EntryTitle(e) && r.value.channelId == channelId
  {
    var id := SeedId(e);
    if id == "" then None else Some(SeedEntry(id, Channels.EntryTitle(e), WatchUrl(id), channelId))
  }

  /** The seed entries of `entries`, in feed order, entries without an id dropped. */
  function SeedEntries(entries: seq<Channels.FeedEntry>, channelId: string): (r: seq<SeedEntry>)
    ensures |r| <= |entries|
    ensures forall i :: 0 <= i < |r| ==>
              r[i].videoId != "" && r[i].url == WatchUrl(r[i].videoId) && r[i].channelId == channelId
    ensures forall j :: 0 <= j < |entries| && SeedId(entries[j]) != "" ==>
              SeedEntryOf(entries[j], channelId).value in r
  {
    if |entries| == 0 then []
    else
      var rest := SeedEntries(entries[1..], channelId);
      assert forall j :: 1 <= j < |entries| ==> entries[j] == entries[1..][j - 1];
      match SeedEntryOf(entries[0], channelId)
      case Some(x) => [x] + rest
      case None => rest
  }

  /** The positions from `from` on of the entries that have an id, in
      increasing order. */
  function IdPositions(entries: seq<Channels.FeedEntry>, from: nat): (ps: seq<nat>)
    requires from <= |entries|
    ensures forall k :: 0 <= k < |ps| ==> from <= ps[k] < |entries| && SeedId(entries[ps[k]]) != ""
    ensures forall k, l :: 0 <= k < l < |ps| ==> ps[k] < ps[l]
    ensures forall j :: from <= j < |entries| && SeedId(entries[j]) != "" ==> j in ps
    decreases |entries| - from
  {
    if from == |entries| then []
    else
      var rest := IdPositions(entries, from + 1);
      if SeedId(entries[from]) != "" then [from] + rest else rest
  }

  lemma SeedEntriesCons(entries: seq<Channels.FeedEntry>, channelId: string)
    requires |entries| > 0
    ensures SeedEntries(entries, channelId)
         == (match SeedEntryOf(entries[0], channelId) case Some(x) => [x] case None => [])
            + SeedEntries(entries[1..], channelId)
  {
  }

  lemma ConsIndex<T>(x: T, s: seq<T>, k: nat)
    requires 1 <= k <= |s|
    ensures ([x] + s)[k] == s[k - 1]
  {
  }

  /** The seed entries are exactly those of the entries with an id, one for
      each, in feed order. */
  lemma {:induction false} SeedEntriesInOrder(entries: seq<Channels.FeedEntry>, from: nat, channelId: string)
    requires from <= |entries|
    ensures var r := SeedEntries(entries[from..], channelId);
            var ps := IdPositions(entries, from);
            |r| == |ps| && forall k :: 0 <= k < |r| ==> Some(r[k]) == SeedEntryOf(entries[ps[k]], channelId)
    decreases |entries| - from
  {
    if from < |entries| {
      SeedEntriesInOrder(entries, from + 1, channelId);
      var rest := SeedEntries(entries[from + 1..], channelId);
      var later := IdPositions(entries, from + 1);
      assert entries[from..][0] == entries[from];
      assert entries[from..][1..] == entries[from + 1..];
      var e := SeedEntryOf(entries[from], channelId);
      var r := SeedEntries(entries[from..], channelId);
      var ps := IdPositions(entries, from);
      SeedEntriesCons(entries[from..], channelId);
      if e.Some? {
        assert r == [e.value] + rest && ps == [from] + later;
        forall k | 1 <= k < |r|
          ensures Some(r[k]) == SeedEntryOf(entries[ps[k]], channelId)
        {
          ConsIndex(e.value, rest, k);
          ConsIndex(from, later, k);
        }
      } else {
        assert r == rest && ps == later;
      }
    }
  }

  /** `_fetch_recent_entries`: the first `depth` feed entries that have an id;
      a failed fetch gives none. */
  function FetchRecentEntries(fetch: Result<seq<Channels.FeedEntry>>, channelId: string, depth: int): (r: seq<SeedEntry>)
    ensures fetch.Err? ==> r == []
    ensures fetch.Ok? ==> |r| <= SliceLength(|fetch.value|, depth)
    ensures 0 <= depth ==> |r| <= depth
    ensures forall i :: 0 <= i < |r| ==>
              r[i].videoId != "" && r[i].url == WatchUrl(r[i].videoId) && r[i].channelId == channelId
    ensures fetch.Ok? ==> forall j :: 0 <= j < SliceLength(|fetch.value|, depth) && SeedId(fetch.value[j]) != "" ==>
              SeedEntryOf(fetch.value[j], channelId).value in r
  {
    match fetch
    case Err(_) => []
    case Ok(entries) =>
      var recent := entries[..SliceLength(|entries|, depth)];
      assert forall j :: 0 <= j < |recent| ==> recent[j] == entries[j];
      SeedEntries(recent, channelId)
  }

  /** The recent entries are those of the first `depth` feed entries that
      have an id, one for each, in feed order. */
  lemma RecentEntriesInOrder(fetch: Result<seq<Channels.FeedEntry>>, channelId: string, depth: int)
    requires fetch.Ok?
    ensures var r := FetchRecentEntries(fetch, channelId, depth);
            var ps := IdPositions(fetch.value[..SliceLength(|fetch.value|, depth)], 0);
            && |r| == |ps|
            && (forall k :: 0 <= k < |ps| ==> ps[k] < SliceLength(|fetch.value|, depth))
            && (forall k :: 0 <= k < |r| ==> Some(r[k]) == SeedEntryOf(fetch.value[ps[k]], channelId))
  {
    var recent := fetch.value[..SliceLength(|fetch.value|, depth)];
    SeedEntriesInOrder(recent, 0, channelId);
    assert recent[0..] == recent;
  }

  // ---------------------------------------------------------------------------
  // Board lookup (seeder.py:80-95)

  /** `_get_trello_video_ids`: the board's id set, or the empty set when the
      backend has no board lookup or the lookup fails. */
  function BoardVideoIds(backend: Output.Backend, lookup: Result<seq<TrelloBackend.Card>>): (ids: set<string>)
    ensures forall id :: id in ids ==> TrelloBackend.IsVideoId(id)
    ensures backend.Dashboard? || lookup.Err? ==> ids == {}
    ensures backend.Trello? && lookup.Ok? ==> ids == TrelloBackend.ExistingVideoIds(lookup.value)
  {
    match backend
    case Dashboard => {}
    case Trello => if lookup.Ok? then TrelloBackend.ExistingVideoIds(lookup.value) else {}
  }

  // ---------------------------------------------------------------------------
  // Processing one entry (seeder.py:178-212)

  /** What the transcript collaborator hands back. */
  datatype Transcript = Transcript(text: string, tier: nat)

  datatype SummaryRequest = SummaryRequest(videoId: string, title: string, channelName: string, transcript: Transcript)

  /** The arguments of one `publish` call; the tier is passed as `str(tier)`. */
  datatype Publication = Publication(
    videoId: string, title: string, channelName: string, url: string,
    summary: string, transcriptTier: string)

  /** The collaborators a seed step calls, each returning or raising. */
  datatype Services = Services(
    transcribe: (string, string) -> Result<Transcript>,
    summarize: SummaryRequest -> Result<string>,
    publish: Publication -> Result<()>)

  /** A feed entry queued for seeding, with its channel's display name. */
  datatype SeedItem = SeedItem(entry: SeedEntry, channelName: string)

  /** The outcome of `_process_seed_entry`: the store afterwards, the publish
      call made (if any) and whether every step returned. */
  datatype SeedStep = SeedStep(db: Db, attempted: Option<Publication>, ok: bool)

  /** The publish call processing `item` makes: made once the transcript
      and the summary have returned, and carrying both. */
  function Attempt(item: SeedItem, svc: Services): Option<Publication> {
    var e := item.entry;
    match svc.transcribe(e.videoId, e.title)
    case Err(_) => None
    case Ok(t) =>
      match svc.summarize(SummaryRequest(e.videoId, e.title, item.channelName, t))
      case Err(_) => None
      case Ok(summary) => Some(Publication(e.videoId, e.title, item.channelName, e.url, summary, Decimal(t.tier)))
  }

  /** Every step of processing `item` returns. */
  predicate Succeeds(item: SeedItem, svc: Services) {
    Attempt(item, svc).Some? && svc.publish(Attempt(item, svc).value).Ok?
  }

  /** `_process_seed_entry`: transcript, summary, publish, then the store
      write, each step reached only when the ones before it returned. */
  function ProcessSeedEntry(db: Db, item: SeedItem, svc: Services): (r: SeedStep)
    ensures r.ok <==> Succeeds(item, svc)
    ensures r.attempted.Some? <==>
              svc.transcribe(item.entry.videoId, item.entry.title).Ok?
              && svc.summarize(SummaryRequest(item.entry.videoId, item.entry.title, item.channelName,
                                              svc.transcribe(item.entry.videoId, item.entry.title).value)).Ok?
    ensures r.attempted.Some? ==>
              r.attempted.value.videoId == item.entry.videoId && r.attempted.value.url == item.entry.url
              && r.attempted.value.title == item.entry.title && r.attempted.value.channelName == item.channelName
    ensures svc.transcribe(item.entry.videoId, item.entry.title).Ok? ==>
              var t := svc.transcribe(item.entry.videoId, item.entry.title).value;
              var summary := svc.summarize(SummaryRequest(item.entry.videoId, item.entry.title, item.channelName, t));
              summary.Ok? ==>
                r.attempted.Some? && r.attempted.value.summary == summary.value
                && r.attempted.value.transcriptTier == Decimal(t.tier)
    ensures r.ok ==> r.attempted.Some? && svc.publish(r.attempted.value).Ok?
    ensures !r.ok ==> r.db == db
    ensures r.ok ==> item.entry.videoId in r.db.videos
    ensures r.ok && item.entry.videoId !in db.videos ==>
              var t := svc.transcribe(item.entry.videoId, item.entry.title).value;
              var v := r.db.videos[item.entry.videoId];
              && v.title == item.entry.title && v.channelId == item.entry.channelId
              && v.channelName == item.channelName && v.transcriptTier == Some(t.tier)
              && v.summaryText == Some(r.attempted.value.summary)
              && v.summaryStatus == Done && v.outputStatus == OutputDone
    ensures forall id :: id in db.videos ==> id in r.db.videos && r.db.videos[id] == db.videos[id]
    ensures forall id :: id in r.db.videos ==> id in db.videos || id == item.entry.videoId
    ensures Valid(db) ==> Valid(r.db)
  {
    var e := item.entry;
    match svc.transcribe(e.videoId, e.title)
    case Err(_) => SeedStep(db, None, false)
    case Ok(t) =>
      match svc.summarize(SummaryRequest(e.videoId, e.title, item.channelName, t))
      case Err(_) => SeedStep(db, None, false)
      case Ok(summary) =>
        var p := Publication(e.videoId, e.title, item.channelName, e.url, summary, Decimal(t.tier));
        match svc.publish(p)
        case Err(_) => SeedStep(db, Some(p), false)
        case Ok(_) => SeedStep(MarkVideoSeen(db, e.videoId, e.channelId, item.channelName, e.title, summary, t.tier), Some(p), true)
  }

  /** A video seeded from the feed lands in the store as already summarised
      and delivered, so the polling loop never processes it again. */
  lemma SeededRowIsDelivered(db: Db, item: SeedItem, svc: Services)
    requires item.entry.videoId !in db.videos
    requires Succeeds(item, svc)
    ensures var t := svc.transcribe(item.entry.videoId, item.entry.title).value;
            var summary := svc.summarize(SummaryRequest(item.entry.videoId, item.entry.title, item.channelName, t)).value;
            var v := ProcessSeedEntry(db, item, svc).db.videos[item.entry.videoId];
            && v.summaryStatus == Done && v.outputStatus == OutputDone
            && v.summaryText == Some(summary) && v.transcriptTier == Some(t.tier)
            && v.title == item.entry.title && v.channelId == item.entry.channelId
            && v.channelName == item.channelName
  {
  }

  // ---------------------------------------------------------------------------
  // The seed run (seeder.py:102-175)

  /** The entries a run goes through: each channel's recent entries, channel
      by channel. */
  function SeedWork(channels: seq<(string, string)>, feeds: string -> Result<seq<Channels.FeedEntry>>): (work: seq<SeedItem>)
    ensures forall i :: 0 <= i < |work| ==>
              work[i].entry.videoId != "" && work[i].entry.url == WatchUrl(work[i].entry.videoId)
  {
    if |channels| == 0 then []
    else
      var (channelId, channelName) := channels[0];
      var recent := FetchRecentEntries(feeds(channelId), channelId, SeedDepth);
      (seq(|recent|, i requires 0 <= i < |recent| => SeedItem(recent[i], channelName)))
        + SeedWork(channels[1..], feeds)
  }

  /** What the run does with one queued entry. */
  datatype Decision = OnBoard | SeededEarlier | Seeded | NotSeeded

  /** The decisions for the queued entries `work`, and the ids seeded so far:
      skip what the board links or this run has seeded, process the rest. */
  function Decide(work: seq<SeedItem>, boardIds: set<string>, svc: Services): (r: (seq<Decision>, set<string>))
    ensures |r.0| == |work|
  {
    if |work| == 0 then ([], {})
    else
      var prev := Decide(work[..|work| - 1], boardIds, svc);
      var item := work[|work| - 1];
      var id := item.entry.videoId;
      if id in boardIds then (prev.0 + [OnBoard], prev.1)
      else if id in prev.1 then (prev.0 + [SeededEarlier], prev.1)
      else if Succeeds(item, svc) then (prev.0 + [Seeded], prev.1 + {id})
      else (prev.0 + [NotSeeded], prev.1)
  }

  /** Among the first `k` queued entries, one with video `id` was decided `Seeded`. */
  ghost predicate SeededBefore(work: seq<SeedItem>, d: seq<Decision>, k: nat, id: string) {
    exists j :: 0 <= j < k && j < |work| && j < |d| && d[j] == Seeded && work[j].entry.videoId == id
  }

  /** The seeded set holds exactly the ids of the entries decided `Seeded`. */
  lemma {:induction false} DecideSeenSet(work: seq<SeedItem>, boardIds: set<string>, svc: Services)
    ensures forall id :: id in Decide(work, boardIds, svc).1 <==>
              SeededBefore(work, Decide(work, boardIds, svc).0, |work|, id)
  {
    if |work| > 0 {
      var n := |work| - 1;
      var d := Decide(work, boardIds, svc);
      var prev := Decide(work[..n], boardIds, svc);
      DecideSeenSet(work[..n], boardIds, svc);
      DecidePrefix(work, boardIds, svc);
      forall id
        ensures id in d.1 <==> SeededBefore(work, d.0, |work|, id)
      {
        if id in prev.1 {
          assert SeededBefore(work[..n], prev.0, n, id);
          var j :| 0 <= j < n && j < |work[..n]| && j < |prev.0| && prev.0[j] == Seeded && work[..n][j].entry.videoId == id;
          assert d.0[j] == Seeded && work[j].entry.videoId == id;
        } else if SeededBefore(work, d.0, |work|, id) {
          var j :| 0 <= j < |work| && j < |d.0| && d.0[j] == Seeded && work[j].entry.videoId == id;
        } else {
          assert !(d.0[n] == Seeded && work[n].entry.videoId == id);
        }
      }
    }
  }

  /** Adding entries at the end leaves the earlier decisions alone. */
  lemma DecidePrefix(work: seq<SeedItem>, boardIds: set<string>, svc: Services)
    requires |work| > 0
    ensures var n := |work| - 1;
            forall i :: 0 <= i < n ==>
              (Decide(work, boardIds, svc).0[i] == Decide(work[..n], boardIds, svc).0[i] && work[..n][i] == work[i])
  {
  }

  /** Decisions for a prefix of the queue are the decisions for the whole
      queue restricted to it. */
  lemma {:induction false} DecideStable(work: seq<SeedItem>, boardIds: set<string>, svc: Services, k: nat)
    requires k <= |work|
    ensures forall i :: 0 <= i < k ==> Decide(work, boardIds, svc).0[i] == Decide(work[..k], boardIds, svc).0[i]
    decreases |work| - k
  {
    if k < |work| {
      DecideStable(work, boardIds, svc, k + 1);
      DecidePrefix(work[..k + 1], boardIds, svc);
      assert work[..k + 1][..k] == work[..k];
    } else {
      assert work[..k] == work;
    }
  }

  /** The skip rule: an entry is skipped iff the board links its video or an
      earlier entry of this run seeded it; the local store plays no part. */
  lemma DecideSkipRule(work: seq<SeedItem>, boardIds: set<string>, svc: Services, i: nat)
    requires i < |work|
    ensures var d := Decide(work, boardIds, svc).0;
            var id := work[i].entry.videoId;
            && (d[i] == OnBoard <==> id in boardIds)
            && (d[i] == SeededEarlier <==>
                  id !in boardIds && exists j :: 0 <= j < i && d[j] == Seeded && work[j].entry.videoId == id)
            && (d[i] == Seeded <==>
                  id !in boardIds && Succeeds(work[i], svc)
                  && !exists j :: 0 <= j < i && d[j] == Seeded && work[j].entry.videoId == id)
  {
    var d := Decide(work, boardIds, svc).0;
    var id := work[i].entry.videoId;
    var prev := Decide(work[..i], boardIds, svc);
    assert work[..i + 1][..i] == work[..i];
    assert work[..i + 1][i] == work[i];
    DecideStable(work, boardIds, svc, i + 1);
    DecideStable(work, boardIds, svc, i);
    DecideSeenSet(work[..i], boardIds, svc);
    assert (id in prev.1) <==> exists j :: 0 <= j < i && d[j] == Seeded && work[j].entry.videoId == id by {
      if id in prev.1 {
        assert SeededBefore(work[..i], prev.0, i, id);
        var j :| 0 <= j < i && j < |work[..i]| && j < |prev.0| && prev.0[j] == Seeded && work[..i][j].entry.videoId == id;
        assert d[j] == Seeded && work[j].entry.videoId == id;
      }
      if exists j :: 0 <= j < i && d[j] == Seeded && work[j].entry.videoId == id {
        var j :| 0 <= j < i && d[j] == Seeded && work[j].entry.videoId == id;
        assert prev.0[j] == Seeded && work[..i][j].entry.videoId == id;
        assert SeededBefore(work[..i], prev.0, i, id);
      }
    }
  }

  /** No video is seeded twice in one run. */
  lemma SeededOnce(work: seq<SeedItem>, boardIds: set<string>, svc: Services, i: nat, j: nat)
    requires i < j < |work|
    requires Decide(work, boardIds, svc).0[i] == Seeded && Decide(work, boardIds, svc).0[j] == Seeded
    ensures work[i].entry.videoId != work[j].entry.videoId
  {
    DecideSkipRule(work, boardIds, svc, j);
  }

  /** The publish calls a run over `work` makes, in order: one for each
      entry not skipped whose transcript and summary return. */
  function Attempts(work: seq<SeedItem>, boardIds: set<string>, svc: Services): (ps: seq<Publication>)
    ensures |ps| <= |work|
  {
    if |work| == 0 then []
    else
      var n := |work| - 1;
      var id := work[n].entry.videoId;
      var a := Attempt(work[n], svc);
      Attempts(work[..n], boardIds, svc)
      + (if id in boardIds || id in Decide(work[..n], boardIds, svc).1 || a.None? then [] else [a.value])
  }

  /** Publication `p` was made for a queued entry that the run processed,
      whether or not it was then seeded. */
  predicate PublishedFor(work: seq<SeedItem>, decisions: seq<Decision>, p: Publication) {
    exists i :: 0 <= i < |work| && i < |decisions| && (decisions[i] == Seeded || decisions[i] == NotSeeded)
              && p.videoId == work[i].entry.videoId && p.url == work[i].entry.url
  }

  /** Some publication of the run is for video `id`. */
  predicate PublishesId(published: seq<Publication>, id: string) {
    exists k :: 0 <= k < |published| && published[k].videoId == id
  }

  /** Every publish call is for a queued entry the run processed rather
      than skipped, so never for a video the board links. */
  lemma {:induction false} AttemptsProcessed(work: seq<SeedItem>, boardIds: set<string>, svc: Services)
    ensures forall k :: 0 <= k < |Attempts(work, boardIds, svc)| ==>
              PublishedFor(work, Decide(work, boardIds, svc).0, Attempts(work, boardIds, svc)[k])
              && Attempts(work, boardIds, svc)[k].videoId !in boardIds
  {
    if |work| > 0 {
      var n := |work| - 1;
      var pre := work[..n];
      AttemptsProcessed(pre, boardIds, svc);
      var d := Decide(work, boardIds, svc).0;
      var dp := Decide(pre, boardIds, svc).0;
      assert d[..n] == dp;
      var ps := Attempts(work, boardIds, svc);
      var pp := Attempts(pre, boardIds, svc);
      assert ps[..|pp|] == pp;
      forall k | 0 <= k < |ps|
        ensures PublishedFor(work, d, ps[k]) && ps[k].videoId !in boardIds
      {
        if k < |pp| {
          assert ps[k] == pp[k];
          assert PublishedFor(pre, dp, pp[k]);
          PublishedForExtends(pre, work, dp, d, pp[k]);
        } else {
          assert ps[k] == Attempt(work[n], svc).value;
          assert d[n] == Seeded || d[n] == NotSeeded;
        }
      }
    }
  }

  /** A publication made for an entry of a prefix of the run is one made
      for that entry of the whole run. */
  lemma PublishedForExtends(pre: seq<SeedItem>, work: seq<SeedItem>, dp: seq<Decision>, d: seq<Decision>, p: Publication)
    requires |pre| <= |work| && pre == work[..|pre|]
    requires |dp| <= |d| && dp == d[..|dp|]
    requires PublishedFor(pre, dp, p)
    ensures PublishedFor(work, d, p)
  {
    var i :| 0 <= i < |pre| && i < |dp| && (dp[i] == Seeded || dp[i] == NotSeeded)
             && p.videoId == pre[i].entry.videoId && p.url == pre[i].entry.url;
    assert d[i] == dp[i] && work[i] == pre[i];
  }

  /** Every video the run seeds was published by it. */
  lemma {:induction false} SeededWasPublished(work: seq<SeedItem>, boardIds: set<string>, svc: Services)
    ensures forall id :: id in Decide(work, boardIds, svc).1 ==> PublishesId(Attempts(work, boardIds, svc), id)
  {
    if |work| > 0 {
      var n := |work| - 1;
      var pre := work[..n];
      SeededWasPublished(pre, boardIds, svc);
      var ps := Attempts(work, boardIds, svc);
      var pp := Attempts(pre, boardIds, svc);
      assert ps[..|pp|] == pp;
      forall id | id in Decide(work, boardIds, svc).1
        ensures PublishesId(ps, id)
      {
        if id in Decide(pre, boardIds, svc).1 {
          var k :| 0 <= k < |pp| && pp[k].videoId == id;
          assert ps[k] == pp[k];
        } else {
          assert ps[|pp|].videoId == id;
        }
      }
    }
  }

  /** `run_seed`: goes through the queued entries in order, skipping by the
      rule above and processing the rest; a failed entry is left for a
      later run and the loop goes on. */
  method RunSeed(db: Db, channels: seq<(string, string)>, boardIds: set<string>,
                 feeds: string -> Result<seq<Channels.FeedEntry>>, svc: Services)
    returns (r: Db, decisions: seq<Decision>, published: seq<Publication>)
    ensures |channels| == 0 ==> r == db && decisions == [] && published == []
    ensures decisions == Decide(SeedWork(channels, feeds), boardIds, svc).0
    ensures published == Attempts(SeedWork(channels, feeds), boardIds, svc)
    ensures forall i :: 0 <= i < |published| ==> published[i].videoId !in boardIds
    ensures forall k :: 0 <= k < |published| ==> PublishedFor(SeedWork(channels, feeds), decisions, published[k])
    ensures forall id :: id in Decide(SeedWork(channels, feeds), boardIds, svc).1 ==> PublishesId(published, id)
    ensures forall id :: id in db.videos ==> id in r.videos && r.videos[id] == db.videos[id]
    ensures forall id :: id in r.videos && id !in db.videos ==> id in Decide(SeedWork(channels, feeds), boardIds, svc).1
    ensures forall id :: id in Decide(SeedWork(channels, feeds), boardIds, svc).1 ==> id in r.videos
    ensures Valid(db) ==> Valid(r)
  {
    r, decisions, published := db, [], [];
    if |channels| == 0 {
      return;
    }
    r, decisions, published := SeedLoop(db, SeedWork(channels, feeds), boardIds, svc);
  }

  /** One processed entry, with only the facts the seed loop relies on. */
  method SeedOne(db: Db, item: SeedItem, svc: Services) returns (step: SeedStep)
    ensures step.ok <==> Succeeds(item, svc)
    ensures step.attempted == Attempt(item, svc)
    ensures !step.ok ==> step.db == db
    ensures step.ok ==> item.entry.videoId in step.db.videos
    ensures forall id :: id in db.videos ==> id in step.db.videos && step.db.videos[id] == db.videos[id]
    ensures forall id :: id in step.db.videos ==> id in db.videos || id == item.entry.videoId
    ensures Valid(db) ==> Valid(step.db)
  {
    step := ProcessSeedEntry(db, item, svc);
  }

  /** The loop of `run_seed` over the queued entries. */
  method SeedLoop(db: Db, work: seq<SeedItem>, boardIds: set<string>, svc: Services)
    returns (r: Db, decisions: seq<Decision>, published: seq<Publication>)
    ensures decisions == Decide(work, boardIds, svc).0
    ensures published == Attempts(work, boardIds, svc)
    ensures forall i :: 0 <= i < |published| ==> published[i].videoId !in boardIds
    ensures forall k :: 0 <= k < |published| ==> PublishedFor(work, decisions, published[k])
    ensures forall id :: id in Decide(work, boardIds, svc).1 ==> PublishesId(published, id)
    ensures forall id :: id in db.videos ==> id in r.videos && r.videos[id] == db.videos[id]
    ensures forall id :: id in r.videos && id !in db.videos ==> id in Decide(work, boardIds, svc).1
    ensures forall id :: id in Decide(work, boardIds, svc).1 ==> id in r.videos
    ensures Valid(db) ==> Valid(r)
  {
    r, decisions, published := db, [], [];
    var seen: set<string> := {};
    var i := 0;
    while i < |work|
      invariant i <= |work|
      invariant decisions == Decide(work[..i], boardIds, svc).0
      invariant seen == Decide(work[..i], boardIds, svc).1
      invariant published == Attempts(work[..i], boardIds, svc)
      invariant forall id :: id in db.videos ==> id in r.videos && r.videos[id] == db.videos[id]
      invariant forall id :: id in r.videos && id !in db.videos ==> id in seen
      invariant forall id :: id in seen ==> id in r.videos
      invariant Valid(db) ==> Valid(r)
    {
      assert work[..i + 1][..i] == work[..i];
      var item := work[i];
      var id := item.entry.videoId;
      if id in boardIds {
        decisions := decisions + [OnBoard];
      } else if id in seen {
        decisions := decisions + [SeededEarlier];
      } else {
        var step := SeedOne(r, item, svc);
        r := step.db;
        if step.attempted.Some? {
          published := published + [step.attempted.value];
        }
        if step.ok {
          decisions := decisions + [Seeded];
          seen := seen + {id};
        } else {
          decisions := decisions + [NotSeeded];
        }
      }
      i := i + 1;
    }
    assert work[..|work|] == work;
    AttemptsProcessed(work, boardIds, svc);
    SeededWasPublished(work, boardIds, svc);
  }

  // ---------------------------------------------------------------------------
  // The board recognises what the seeder publishes

  /** The card a seeded publication creates links its video, so the next
      run's board lookup finds it and skips the entry. */
  lemma PublishedCardIsRecognised(p: Publication)
    requires TrelloBackend.IsVideoId(p.videoId)
    requires p.url == WatchUrl(p.videoId)
    ensures var card := TrelloBackend.Card(Some(TrelloBackend.CardName(p.channelName, p.title)),
                                           Some(TrelloBackend.FormatDescription(p.url, p.summary, p.transcriptTier)));
            p.videoId in TrelloBackend.ExistingVideoIds([card])
  {
    var name := TrelloBackend.CardName(p.channelName, p.title);
    var desc := TrelloBackend.FormatDescription(p.url, p.summary, p.transcriptTier);
    var card := TrelloBackend.Card(Some(name), Some(desc));
    assert p.videoId in TrelloBackend.ScanIds(desc) by {
      LinkInDescription(p.url, p.videoId, desc);
    }
    assert p.videoId in TrelloBackend.CardIds(card);
    TrelloBackend.ExistingVideoIdsMembers([card], p.videoId);
  }

  /** A description that opens with the source line links the video the
      line names. */
  lemma LinkInDescription(url: string, videoId: string, desc: string)
    requires TrelloBackend.IsVideoId(videoId)
    requires url == WatchUrl(videoId)
    requires TrelloBackend.SourceHeading + url + "\n" <= desc
    ensures videoId in TrelloBackend.ScanIds(desc)
  {
    var head := TrelloBackend.SourceHeading + WebHost;
    var link := TrelloBackend.WatchForm + videoId;
    var rest := desc[|TrelloBackend.SourceHeading + url|..];
    assert desc == head + (link + rest) by {
      assert TrelloBackend.SourceHeading + url == head + link;
      assert TrelloBackend.SourceHeading + url <= desc;
    }
    assert TrelloBackend.ScanIds(head + (link + rest)) == [videoId] + TrelloBackend.ScanIds(rest) by {
      NoLinkInHeading();
      TrelloBackend.SkipWithoutY(head, link + rest);
      TrelloBackend.ScanAfterPrefix(0, videoId, rest);
    }
  }

  lemma NoLinkInHeading()
    ensures 'y' !in TrelloBackend.SourceHeading + WebHost
  {
  }
}
