/** Discovery (channels.py): per-channel feed scanning with the age filter,
    the poll over every configured channel, and the ISO 8601 duration
    reader used by the optional metadata enrichment. The feed fetch is a
    parameter returning an already-parsed feed or a parse failure. */
module Channels {
  import opened Common
  import opened Text
  import opened Store

  const SecondsPerDay: int := 86400

  /** One entry of a parsed feed. `atomId` is the entry's `id`
      (`yt:video:<id>`), read only by the startup backfill; `published` is the
      result of `_parse_published` (seconds, or None when absent or unreadable). */
  datatype FeedEntry = FeedEntry(
    ytVideoId: Option<string>,
    atomId: Option<string>,
    title: Option<string>,
    published: Option<int>,
    summary: Option<string>)

  /** What `feedparser.parse` hands back: the malformed-document flag (set
      together with its exception), the HTTP status if any, and the entries. */
  datatype Feed = Feed(bozo: bool, status: Option<int>, entries: seq<FeedEntry>)

  datatype FeedFetch = ParseFailed(message: string) | Fetched(feed: Feed)

  /** `VideoEntry` without the enrichment fields. */
  datatype Candidate = Candidate(
    videoId: string,
    channelId: string,
    channelName: string,
    title: string,
    publishedAt: Option<int>,
    description: string)

  /** A store together with the candidates found so far. */
  datatype Scan = Scan(db: Db, found: seq<Candidate>)

  // ---------------------------------------------------------------------------
  // Age filter (channels.py:73-78)

  /** `_is_too_old`: strictly older than `maxAgeDays` days before `now`;
      never when the filter is off (0) or the time is unknown. */
  function IsTooOld(publishedAt: Option<int>, now: int, maxAgeDays: int): bool {
    maxAgeDays != 0 && publishedAt.Some? && publishedAt.value < now - maxAgeDays * SecondsPerDay
  }

  /** The age filter is off when the limit is zero or the time is unknown;
      otherwise it is exactly the strict cutoff comparison, and a video
      published at the cutoff instant or later is kept. */
  lemma AgeFilterCutoff(publishedAt: Option<int>, now: int, maxAgeDays: int)
    ensures maxAgeDays == 0 || publishedAt.None? ==> !IsTooOld(publishedAt, now, maxAgeDays)
    ensures maxAgeDays != 0 && publishedAt.Some? ==>
      (IsTooOld(publishedAt, now, maxAgeDays) <==> publishedAt.value + maxAgeDays * SecondsPerDay < now)
    ensures publishedAt.Some? && publishedAt.value >= now - maxAgeDays * SecondsPerDay ==>
      !IsTooOld(publishedAt, now, maxAgeDays)
  {
  }

  /** Once too old, always too old: the cutoff only moves forward in time. */
  lemma TooOldStaysTooOld(publishedAt: Option<int>, now: int, later: int, maxAgeDays: int)
    requires now <= later
    ensures IsTooOld(publishedAt, now, maxAgeDays) ==> IsTooOld(publishedAt, later, maxAgeDays)
  {
  }

  // ---------------------------------------------------------------------------
  // Per-channel scan (channels.py:81-162)

  /** `getattr(entry, "yt_videoid", None)`, with a falsy value read as "". */
  function EntryVideoId(e: FeedEntry): string {
    e.ytVideoId.GetOr("")
  }

  function EntryTitle(e: FeedEntry): string {
    e.title.GetOr("Untitled")
  }

  function ToCandidate(e: FeedEntry, channelId: string, channelName: string): Candidate {
    Candidate(EntryVideoId(e), channelId, channelName, EntryTitle(e), e.published, e.summary.GetOr(""))
  }

  /** The non-empty video ids a list of entries carries. */
  function EntryIds(entries: seq<FeedEntry>): (ids: set<string>)
    ensures forall i :: 0 <= i < |entries| && EntryVideoId(entries[i]) != "" ==> EntryVideoId(entries[i]) in ids
    ensures "" !in ids
  {
    set i | 0 <= i < |entries| && EntryVideoId(entries[i]) != "" :: EntryVideoId(entries[i])
  }

  /** Every entry read as a candidate, in feed order. */
  function Candidates(entries: seq<FeedEntry>, channelId: string, channelName: string): (cs: seq<Candidate>)
    ensures |cs| == |entries|
    ensures forall i :: 0 <= i < |entries| ==> cs[i] == ToCandidate(entries[i], channelId, channelName)
  {
    if |entries| == 0 then []
    else [ToCandidate(entries[0], channelId, channelName)] + Candidates(entries[1..], channelId, channelName)
  }

  /** The ids of the entries the age filter rejects. */
  function TooOldIds(entries: seq<FeedEntry>, now: int, maxAgeDays: int): (ids: set<string>)
    ensures forall i :: 0 <= i < |entries| ==>
      (EntryVideoId(entries[i]) != "" && IsTooOld(entries[i].published, now, maxAgeDays) ==> EntryVideoId(entries[i]) in ids)
  {
    if |entries| == 0 then {}
    else
      var e := entries[0];
      var rest := TooOldIds(entries[1..], now, maxAgeDays);
      assert forall i :: 1 <= i < |entries| ==> entries[i] == entries[1..][i - 1];
      if EntryVideoId(e) != "" && IsTooOld(e.published, now, maxAgeDays) then {EntryVideoId(e)} + rest else rest
  }

  /** The ids of the candidates found. */
  function FoundIds(found: seq<Candidate>): set<string> {
    set c | c in found :: c.videoId
  }

  /** The row the age filter leaves behind: inserted as new, then
      `update_summary(video_id, status="skipped")`. */
  predicate SkippedRow(v: Video) {
    && v.summaryStatus == Skipped && v.summaryText == None && v.summaryError == None
    && v.tokensInput == None && v.tokensOutput == None
    && v.transcriptTier == None && v.transcriptText == None
    && v.outputStatus == OutputPending && v.outputRef == None && v.outputError == None
  }

  /** The `for entry in feed.entries` loop: entries without an id or with a
      known id are passed over, too-old ones are stored as skipped, the rest
      become candidates (and are not stored here). */
  function ScanEntries(db: Db, channelId: string, channelName: string, entries: seq<FeedEntry>,
                       now: int, maxAgeDays: int): (r: Scan)
    ensures r.db.channels == db.channels
    ensures forall k :: k in db.videos ==> k in r.db.videos && r.db.videos[k] == db.videos[k]
    ensures forall k :: k in r.db.videos && k !in db.videos ==> k in EntryIds(entries) && SkippedRow(r.db.videos[k])
    ensures forall c :: c in r.found ==>
      && c.videoId != "" && c.videoId !in db.videos
      && !IsTooOld(c.publishedAt, now, maxAgeDays)
      && c in Candidates(entries, channelId, channelName)
    ensures EntryIds(entries) <= r.db.videos.Keys + FoundIds(r.found)
    ensures |r.found| <= |entries|
    ensures Valid(db) ==> Valid(r.db)
    decreases |entries|
  {
    if |entries| == 0 then Scan(db, [])
    else
      var e := entries[0];
      var id := EntryVideoId(e);
      assert forall i :: 0 <= i < |entries[1..]| ==> entries[1..][i] == entries[i + 1];
      assert EntryIds(entries) == EntryIds(entries[1..]) + (if id == "" then {} else {id});
      if id == "" || id in db.videos then
        ScanEntries(db, channelId, channelName, entries[1..], now, maxAgeDays)
      else if IsTooOld(e.published, now, maxAgeDays) then
        var stored := UpdateSummary(InsertVideo(db, id, channelId, channelName, EntryTitle(e), e.published),
                                    id, Skipped);
        ScanEntries(stored, channelId, channelName, entries[1..], now, maxAgeDays)
      else
        var rest := ScanEntries(db, channelId, channelName, entries[1..], now, maxAgeDays);
        var c := ToCandidate(e, channelId, channelName);
        assert FoundIds([c] + rest.found) == {id} + FoundIds(rest.found);
        Scan(rest.db, [c] + rest.found)
  }

  /** The scan stores exactly the ids the age filter rejects: every one of
      them ends up stored (as skipped, unless it was known already), and no
      other id is added. */
  lemma {:induction false} OldEntriesStored(db: Db, channelId: string, channelName: string,
                                            entries: seq<FeedEntry>, now: int, maxAgeDays: int)
    ensures ScanEntries(db, channelId, channelName, entries, now, maxAgeDays).db.videos.Keys
         == db.videos.Keys + TooOldIds(entries, now, maxAgeDays)
    decreases |entries|
  {
    if |entries| > 0 {
      var e := entries[0];
      var id := EntryVideoId(e);
      if id == "" || id in db.videos {
        OldEntriesStored(db, channelId, channelName, entries[1..], now, maxAgeDays);
      } else if IsTooOld(e.published, now, maxAgeDays) {
        var stored := UpdateSummary(InsertVideo(db, id, channelId, channelName, EntryTitle(e), e.published),
                                    id, Skipped);
        OldEntriesStored(stored, channelId, channelName, entries[1..], now, maxAgeDays);
      } else {
        OldEntriesStored(db, channelId, channelName, entries[1..], now, maxAgeDays);
      }
    }
  }

  /** A feed whose every id is already known yields no candidates and
      leaves the store as it was: a second poll never re-emits a video. */
  lemma {:induction false} RescanFindsNothing(db: Db, channelId: string, channelName: string,
                                              entries: seq<FeedEntry>, now: int, maxAgeDays: int)
    requires EntryIds(entries) <= db.videos.Keys
    ensures ScanEntries(db, channelId, channelName, entries, now, maxAgeDays) == Scan(db, [])
  {
    if |entries| > 0 {
      assert forall i :: 0 <= i < |entries[1..]| ==> entries[1..][i] == entries[i + 1];
      assert EntryIds(entries[1..]) <= EntryIds(entries);
      RescanFindsNothing(db, channelId, channelName, entries[1..], now, maxAgeDays);
    }
  }

  /** One turn of the scan loop, applied to the scan so far: the loop
      body of `fetch_new_videos_from_rss` read from the front. */
  function ScanStep(s: Scan, e: FeedEntry, channelId: string, channelName: string,
                    now: int, maxAgeDays: int): Scan {
    var id := EntryVideoId(e);
    if id == "" || id in s.db.videos then s
    else if IsTooOld(e.published, now, maxAgeDays) then
      Scan(UpdateSummary(InsertVideo(s.db, id, channelId, channelName, EntryTitle(e), e.published), id, Skipped),
           s.found)
    else Scan(s.db, s.found + [ToCandidate(e, channelId, channelName)])
  }

  /** Scanning one more entry is one more turn of the loop: the scan is the
      left-to-right loop over the feed. */
  lemma {:induction false} ScanSnoc(db: Db, channelId: string, channelName: string, entries: seq<FeedEntry>,
                                    e: FeedEntry, now: int, maxAgeDays: int)
    ensures ScanEntries(db, channelId, channelName, entries + [e], now, maxAgeDays)
         == ScanStep(ScanEntries(db, channelId, channelName, entries, now, maxAgeDays),
                     e, channelId, channelName, now, maxAgeDays)
    decreases |entries|
  {
    if |entries| == 0 {
      assert entries + [e] == [e];
      assert [e][1..] == [];
    } else {
      var x := entries[0];
      var id := EntryVideoId(x);
      assert (entries + [e])[0] == x;
      assert (entries + [e])[1..] == entries[1..] + [e];
      if id == "" || id in db.videos {
        ScanSnoc(db, channelId, channelName, entries[1..], e, now, maxAgeDays);
      } else if IsTooOld(x.published, now, maxAgeDays) {
        var stored := UpdateSummary(InsertVideo(db, id, channelId, channelName, EntryTitle(x), x.published),
                                    id, Skipped);
        ScanSnoc(stored, channelId, channelName, entries[1..], e, now, maxAgeDays);
      } else {
        ScanSnoc(db, channelId, channelName, entries[1..], e, now, maxAgeDays);
        var c := ToCandidate(x, channelId, channelName);
        var rest := ScanEntries(db, channelId, channelName, entries[1..], now, maxAgeDays);
        var longer := ScanEntries(db, channelId, channelName, entries[1..] + [e], now, maxAgeDays);
        assert ScanEntries(db, channelId, channelName, entries, now, maxAgeDays) == Scan(rest.db, [c] + rest.found);
        assert ScanEntries(db, channelId, channelName, entries + [e], now, maxAgeDays) == Scan(longer.db, [c] + longer.found);
        StepAfterCandidate(rest, c, e, channelId, channelName, now, maxAgeDays);
      }
    }
  }

  lemma StepAfterCandidate(s: Scan, c: Candidate, e: FeedEntry, channelId: string, channelName: string,
                           now: int, maxAgeDays: int)
    ensures var t := ScanStep(s, e, channelId, channelName, now, maxAgeDays);
            ScanStep(Scan(s.db, [c] + s.found), e, channelId, channelName, now, maxAgeDays) == Scan(t.db, [c] + t.found)
  {
    assert forall ys: seq<Candidate> :: [c] + (s.found + ys) == ([c] + s.found) + ys;
  }

  /** Entry `i` of a feed becomes a candidate: it carries an id, the id is
      neither in the store nor among the too-old ids of the entries before
      it (those are stored as the loop reaches them), and the entry is
      recent enough. */
  predicate Fresh(known: set<string>, entries: seq<FeedEntry>, i: int, now: int, maxAgeDays: int)
    requires 0 <= i < |entries|
  {
    var id := EntryVideoId(entries[i]);
    && id != "" && id !in known
    && id !in TooOldIds(entries[..i], now, maxAgeDays)
    && !IsTooOld(entries[i].published, now, maxAgeDays)
  }

  /** The fresh entries of a feed read as candidates, in feed order. */
  function FreshCandidates(known: set<string>, entries: seq<FeedEntry>, channelId: string, channelName: string,
                           now: int, maxAgeDays: int): (cs: seq<Candidate>)
    ensures |cs| <= |entries|
    decreases |entries|
  {
    if |entries| == 0 then []
    else
      var n := |entries| - 1;
      FreshCandidates(known, entries[..n], channelId, channelName, now, maxAgeDays)
      + (if Fresh(known, entries, n, now, maxAgeDays) then [ToCandidate(entries[n], channelId, channelName)] else [])
  }

  /** A fresh entry is among the fresh candidates, and every fresh candidate
      comes from a fresh entry. */
  lemma {:induction false} FreshCandidatesMembers(known: set<string>, entries: seq<FeedEntry>,
                                                  channelId: string, channelName: string,
                                                  now: int, maxAgeDays: int)
    ensures var cs := FreshCandidates(known, entries, channelId, channelName, now, maxAgeDays);
            && (forall i :: 0 <= i < |entries| && Fresh(known, entries, i, now, maxAgeDays) ==>
                  ToCandidate(entries[i], channelId, channelName) in cs)
            && (forall c :: c in cs ==>
                  exists i :: 0 <= i < |entries| && Fresh(known, entries, i, now, maxAgeDays)
                           && c == ToCandidate(entries[i], channelId, channelName))
    decreases |entries|
  {
    if |entries| > 0 {
      var n := |entries| - 1;
      var a := entries[..n];
      FreshCandidatesMembers(known, a, channelId, channelName, now, maxAgeDays);
      assert forall i :: 0 <= i < n ==> a[..i] == entries[..i] && a[i] == entries[i];
      assert forall i :: 0 <= i < n ==> Fresh(known, a, i, now, maxAgeDays) == Fresh(known, entries, i, now, maxAgeDays);
      var cs := FreshCandidates(known, entries, channelId, channelName, now, maxAgeDays);
      forall c | c in cs
        ensures exists i :: 0 <= i < |entries| && Fresh(known, entries, i, now, maxAgeDays)
                         && c == ToCandidate(entries[i], channelId, channelName)
      {
        if c in FreshCandidates(known, a, channelId, channelName, now, maxAgeDays) {
          var i :| 0 <= i < |a| && Fresh(known, a, i, now, maxAgeDays) && c == ToCandidate(a[i], channelId, channelName);
          assert Fresh(known, entries, i, now, maxAgeDays);
        }
      }
    }
  }

  /** What the scan emits: exactly the fresh entries, in feed order. Entries
      without an id, known ids, too-old entries and ids an earlier too-old
      entry of the same feed stored are left out; a fresh id that occurs
      twice is emitted twice, since candidates are stored only after the
      scan. */
  lemma {:induction false} ScanEmitsFresh(db: Db, channelId: string, channelName: string,
                                          entries: seq<FeedEntry>, now: int, maxAgeDays: int)
    ensures ScanEntries(db, channelId, channelName, entries, now, maxAgeDays).found
         == FreshCandidates(db.videos.Keys, entries, channelId, channelName, now, maxAgeDays)
    decreases |entries|
  {
    if |entries| > 0 {
      var n := |entries| - 1;
      var a := entries[..n];
      assert a + [entries[n]] == entries;
      ScanSnoc(db, channelId, channelName, a, entries[n], now, maxAgeDays);
      ScanEmitsFresh(db, channelId, channelName, a, now, maxAgeDays);
      OldEntriesStored(db, channelId, channelName, a, now, maxAgeDays);
    }
  }

  /** The fetch could not be used: a parse exception, or a malformed
      document served with an HTTP error status. A malformed document with
      no status or a status below 400 is still scanned. */
  predicate FetchFailed(fetch: FeedFetch) {
    fetch.ParseFailed? || (fetch.feed.bozo && fetch.feed.status.Some? && fetch.feed.status.value >= 400)
  }

  /** `fetch_new_videos_from_rss`. */
  function FetchNewVideos(db: Db, channelId: string, channelName: string, fetch: FeedFetch,
                          now: int, maxAgeDays: int): (r: Scan)
    ensures FetchFailed(fetch) ==> r == Scan(IncrementChannelError(db, channelId), [])
    ensures !FetchFailed(fetch) ==>
      var s := ScanEntries(db, channelId, channelName, fetch.feed.entries, now, maxAgeDays);
      r == Scan(MarkChannelChecked(s.db, channelId, now), s.found)
    ensures Valid(db) ==> Valid(r.db)
  {
    if fetch.ParseFailed? || (fetch.feed.bozo && fetch.feed.status.Some? && fetch.feed.status.value >= 400) then
      var failed := IncrementChannelError(db, channelId);
      ValidIgnoresChannels(db, failed);
      Scan(failed, [])
    else
      var s := ScanEntries(db, channelId, channelName, fetch.feed.entries, now, maxAgeDays);
      var checked := MarkChannelChecked(s.db, channelId, now);
      ValidIgnoresChannels(s.db, checked);
      Scan(checked, s.found)
  }

  /** What one channel's fetch does to the channel row and the candidates:
      a failed fetch adds one to the error counter and leaves the check
      time alone; a usable one resets the counter and records the check. */
  lemma FetchOutcome(db: Db, channelId: string, channelName: string, fetch: FeedFetch,
                     now: int, maxAgeDays: int)
    requires channelId in db.channels
    ensures var r := FetchNewVideos(db, channelId, channelName, fetch, now, maxAgeDays);
            var before := db.channels[channelId];
            var after := r.db.channels[channelId];
            && (FetchFailed(fetch) ==>
                  r.found == [] && r.db.videos == db.videos
                  && after.errorCount == before.errorCount + 1 && after.lastCheckedAt == before.lastCheckedAt)
            && (!FetchFailed(fetch) ==> after.errorCount == 0 && after.lastCheckedAt == Some(now))
  {
  }

  // ---------------------------------------------------------------------------
  // Poll over all channels (channels.py:234-275)

  /** Store every candidate with `insert_video`, in order. */
  function InsertCandidates(db: Db, found: seq<Candidate>): (r: Db)
    ensures r.channels == db.channels
    ensures forall k :: k in db.videos ==> k in r.videos && r.videos[k] == db.videos[k]
    ensures r.videos.Keys == db.videos.Keys + FoundIds(found)
    ensures forall k :: k in r.videos && k !in db.videos ==>
      exists c :: c in found && c.videoId == k
               && Discovered(r.videos[k], c.videoId, c.channelId, c.channelName, c.title, c.publishedAt)
    ensures Valid(db) ==> Valid(r)
    decreases |found|
  {
    if |found| == 0 then db
    else
      var c := found[0];
      var inserted := InsertVideo(db, c.videoId, c.channelId, c.channelName, c.title, c.publishedAt);
      var r := InsertCandidates(inserted, found[1..]);
      assert FoundIds(found) == {c.videoId} + FoundIds(found[1..]);
      assert forall k :: k in r.videos && k !in db.videos ==>
        exists x :: x in found && x.videoId == k
                 && Discovered(r.videos[k], x.videoId, x.channelId, x.channelName, x.title, x.publishedAt) by {
        forall k | k in r.videos && k !in db.videos
          ensures exists x :: x in found && x.videoId == k
                   && Discovered(r.videos[k], x.videoId, x.channelId, x.channelName, x.title, x.publishedAt)
        {
          if k in inserted.videos {
            assert k == c.videoId && c in found;
          } else {
            var x :| x in found[1..] && x.videoId == k
                     && Discovered(r.videos[k], x.videoId, x.channelId, x.channelName, x.title, x.publishedAt);
            assert x in found;
          }
        }
      }
      r
  }

  /** One channel: upsert its row, scan its feed, store its candidates. */
  function PollOne(db: Db, channelId: string, channelName: string, fetch: FeedFetch,
                   now: int, maxAgeDays: int): (r: Scan)
    ensures forall k :: k in db.videos ==> k in r.db.videos && r.db.videos[k] == db.videos[k]
    ensures forall c :: c in r.found ==> c.videoId in r.db.videos && c.videoId !in db.videos
    ensures forall c :: c in r.found ==> c.channelId == channelId
    ensures r.db.channels.Keys == db.channels.Keys + {channelId}
    ensures !FetchFailed(fetch) ==> EntryIds(fetch.feed.entries) <= r.db.videos.Keys
    ensures Valid(db) ==> Valid(r.db)
  {
    var upserted := UpsertChannel(db, channelId, channelName);
    ValidIgnoresChannels(db, upserted);
    var scanned := FetchNewVideos(upserted, channelId, channelName, fetch, now, maxAgeDays);
    Scan(InsertCandidates(scanned.db, scanned.found), scanned.found)
  }

  /** One channel after another, in configuration order. */
  function PollChannels(db: Db, channels: seq<(string, string)>, feed: string -> FeedFetch,
                        now: int, maxAgeDays: int): (r: Scan)
    ensures forall k :: k in db.videos ==> k in r.db.videos && r.db.videos[k] == db.videos[k]
    ensures forall c :: c in r.found ==> c.videoId in r.db.videos && c.videoId !in db.videos
    ensures r.db.channels.Keys >= db.channels.Keys
    decreases |channels|
  {
    if |channels| == 0 then Scan(db, [])
    else
      var (channelId, channelName) := channels[0];
      var first := PollOne(db, channelId, channelName, feed(channelId), now, maxAgeDays);
      var rest := PollChannels(first.db, channels[1..], feed, now, maxAgeDays);
      assert forall c :: c in first.found + rest.found ==> c in first.found || c in rest.found;
      Scan(rest.db, first.found + rest.found)
  }

  /** `poll_all_channels`: nothing at all when no channel is configured. */
  function PollAllChannels(db: Db, channels: seq<(string, string)>, feed: string -> FeedFetch,
                           now: int, maxAgeDays: int): (r: Scan)
    ensures |channels| == 0 ==> r == Scan(db, [])
    ensures forall k :: k in db.videos ==> k in r.db.videos && r.db.videos[k] == db.videos[k]
    ensures forall c :: c in r.found ==> c.videoId in r.db.videos && c.videoId !in db.videos
    ensures forall i :: 0 <= i < |channels| ==> channels[i].0 in r.db.channels
    ensures forall i :: 0 <= i < |channels| && !FetchFailed(feed(channels[i].0)) ==>
      EntryIds(feed(channels[i].0).feed.entries) <= r.db.videos.Keys
    ensures Valid(db) ==> Valid(r.db)
  {
    if |channels| == 0 then Scan(db, [])
    else
      var r := PollChannels(db, channels, feed, now, maxAgeDays);
      PollCovers(db, channels, feed, now, maxAgeDays);
      assert Valid(db) ==> Valid(r.db) by {
        if Valid(db) {
          PollKeepsValid(db, channels, feed, now, maxAgeDays);
        }
      }
      r
  }

  /** Every candidate belongs to one of the configured channels. */
  lemma {:induction false} PollFoundChannels(db: Db, channels: seq<(string, string)>, feed: string -> FeedFetch,
                                             now: int, maxAgeDays: int)
    ensures forall c :: c in PollChannels(db, channels, feed, now, maxAgeDays).found ==>
      exists i :: 0 <= i < |channels| && c.channelId == channels[i].0
    decreases |channels|
  {
    if |channels| > 0 {
      var (channelId, channelName) := channels[0];
      var first := PollOne(db, channelId, channelName, feed(channelId), now, maxAgeDays);
      var rest := PollChannels(first.db, channels[1..], feed, now, maxAgeDays);
      PollFoundChannels(first.db, channels[1..], feed, now, maxAgeDays);
      forall c | c in PollChannels(db, channels, feed, now, maxAgeDays).found
        ensures exists i :: 0 <= i < |channels| && c.channelId == channels[i].0
      {
        if c in first.found {
          assert c.channelId == channels[0].0;
        } else {
          assert c in rest.found;
          var i :| 0 <= i < |channels[1..]| && c.channelId == channels[1..][i].0;
          assert c.channelId == channels[i + 1].0;
        }
      }
    }
  }

  /** Every configured channel has a row afterwards, and every id of a
      usable feed is stored, as a candidate or as a skipped old video. */
  lemma {:induction false} PollCovers(db: Db, channels: seq<(string, string)>, feed: string -> FeedFetch,
                                      now: int, maxAgeDays: int)
    ensures var r := PollChannels(db, channels, feed, now, maxAgeDays);
            && (forall i :: 0 <= i < |channels| ==> channels[i].0 in r.db.channels)
            && (forall i :: 0 <= i < |channels| && !FetchFailed(feed(channels[i].0)) ==>
                  EntryIds(feed(channels[i].0).feed.entries) <= r.db.videos.Keys)
    decreases |channels|
  {
    if |channels| > 0 {
      var (channelId, channelName) := channels[0];
      var first := PollOne(db, channelId, channelName, feed(channelId), now, maxAgeDays);
      var r := PollChannels(db, channels, feed, now, maxAgeDays);
      assert r.db == PollChannels(first.db, channels[1..], feed, now, maxAgeDays).db;
      PollCovers(first.db, channels[1..], feed, now, maxAgeDays);
      forall i | 0 <= i < |channels|
        ensures channels[i].0 in r.db.channels
        ensures !FetchFailed(feed(channels[i].0)) ==> EntryIds(feed(channels[i].0).feed.entries) <= r.db.videos.Keys
      {
        if i > 0 {
          assert channels[i] == channels[1..][i - 1];
        }
      }
    }
  }

  /** Every poll step keeps the table invariants. */
  lemma {:induction false} PollKeepsValid(db: Db, channels: seq<(string, string)>, feed: string -> FeedFetch,
                                          now: int, maxAgeDays: int)
    requires Valid(db)
    ensures Valid(PollChannels(db, channels, feed, now, maxAgeDays).db)
    decreases |channels|
  {
    if |channels| > 0 {
      var (channelId, channelName) := channels[0];
      var first := PollOne(db, channelId, channelName, feed(channelId), now, maxAgeDays);
      PollKeepsValid(first.db, channels[1..], feed, now, maxAgeDays);
    }
  }

  /** What one channel contributes: nothing when its fetch fails, otherwise
      the fresh entries of its feed against the store as it stood, in feed
      order; the store gains exactly the rejected ids and the candidates. */
  lemma PollOneEmits(db: Db, channelId: string, channelName: string, fetch: FeedFetch,
                     now: int, maxAgeDays: int)
    ensures var r := PollOne(db, channelId, channelName, fetch, now, maxAgeDays);
            && (FetchFailed(fetch) ==> r.found == [] && r.db.videos == db.videos)
            && (!FetchFailed(fetch) ==>
                  && r.found == FreshCandidates(db.videos.Keys, fetch.feed.entries, channelId, channelName, now, maxAgeDays)
                  && r.db.videos.Keys == db.videos.Keys + TooOldIds(fetch.feed.entries, now, maxAgeDays) + FoundIds(r.found)
                  && (forall k :: k in r.db.videos && k !in db.videos && k !in TooOldIds(fetch.feed.entries, now, maxAgeDays) ==>
                        exists c :: c in r.found && c.videoId == k
                                 && Discovered(r.db.videos[k], c.videoId, c.channelId, c.channelName, c.title, c.publishedAt)))
  {
    var upserted := UpsertChannel(db, channelId, channelName);
    if !FetchFailed(fetch) {
      ScanEmitsFresh(upserted, channelId, channelName, fetch.feed.entries, now, maxAgeDays);
      OldEntriesStored(upserted, channelId, channelName, fetch.feed.entries, now, maxAgeDays);
    }
  }

  /** Polling one more channel appends that channel's candidates after the
      ones found so far: the candidates come channel by channel, in
      configuration order, each channel's against the store the channels
      before it left behind. */
  lemma {:induction false} PollChannelsSnoc(db: Db, channels: seq<(string, string)>, ch: (string, string),
                                            feed: string -> FeedFetch, now: int, maxAgeDays: int)
    ensures var p := PollChannels(db, channels, feed, now, maxAgeDays);
            var one := PollOne(p.db, ch.0, ch.1, feed(ch.0), now, maxAgeDays);
            PollChannels(db, channels + [ch], feed, now, maxAgeDays) == Scan(one.db, p.found + one.found)
    decreases |channels|
  {
    if |channels| == 0 {
      assert channels + [ch] == [ch];
      PollOneChannel(db, ch, feed, now, maxAgeDays);
      var one := PollOne(db, ch.0, ch.1, feed(ch.0), now, maxAgeDays);
      assert one.found == [] + one.found;
    } else {
      var first := PollOne(db, channels[0].0, channels[0].1, feed(channels[0].0), now, maxAgeDays);
      assert (channels + [ch])[0] == channels[0];
      assert (channels + [ch])[1..] == channels[1..] + [ch];
      PollChannelsCons(db, channels, feed, now, maxAgeDays);
      PollChannelsCons(db, channels + [ch], feed, now, maxAgeDays);
      PollChannelsSnoc(first.db, channels[1..], ch, feed, now, maxAgeDays);
      var p := PollChannels(first.db, channels[1..], feed, now, maxAgeDays);
      var one := PollOne(p.db, ch.0, ch.1, feed(ch.0), now, maxAgeDays);
      AppendAssoc(first.found, p.found, one.found);
    }
  }

  lemma PollChannelsCons(db: Db, channels: seq<(string, string)>, feed: string -> FeedFetch, now: int, maxAgeDays: int)
    requires |channels| > 0
    ensures var first := PollOne(db, channels[0].0, channels[0].1, feed(channels[0].0), now, maxAgeDays);
            var rest := PollChannels(first.db, channels[1..], feed, now, maxAgeDays);
            PollChannels(db, channels, feed, now, maxAgeDays) == Scan(rest.db, first.found + rest.found)
  {
  }

  lemma AppendAssoc<T>(a: seq<T>, b: seq<T>, c: seq<T>)
    ensures a + (b + c) == (a + b) + c
  {
  }

  /** The candidates of a poll over one more channel, spelled out: those of
      the channels before it, then the fresh entries of its feed. */
  lemma PollAppendsFresh(db: Db, channels: seq<(string, string)>, ch: (string, string),
                         feed: string -> FeedFetch, now: int, maxAgeDays: int)
    ensures var p := PollChannels(db, channels, feed, now, maxAgeDays);
            PollChannels(db, channels + [ch], feed, now, maxAgeDays).found
              == p.found + (if FetchFailed(feed(ch.0)) then []
                            else FreshCandidates(p.db.videos.Keys, feed(ch.0).feed.entries, ch.0, ch.1, now, maxAgeDays))
  {
    var p := PollChannels(db, channels, feed, now, maxAgeDays);
    PollChannelsSnoc(db, channels, ch, feed, now, maxAgeDays);
    PollOneEmits(p.db, ch.0, ch.1, feed(ch.0), now, maxAgeDays);
  }

  /** Polling the same feeds a second time finds nothing new: every id of a
      usable feed was stored by the first poll, whether as a candidate or as
      a skipped old video. */
  lemma {:induction false} SecondPollFindsNothing(db: Db, channels: seq<(string, string)>,
                                                  feed: string -> FeedFetch, now: int, later: int,
                                                  maxAgeDays: int)
    ensures var first := PollAllChannels(db, channels, feed, now, maxAgeDays);
            PollAllChannels(first.db, channels, feed, later, maxAgeDays).found == []
  {
    var first := PollAllChannels(db, channels, feed, now, maxAgeDays);
    if |channels| > 0 {
      RepollFindsNothing(first.db, channels, feed, later, maxAgeDays);
    }
  }

  lemma {:induction false} RepollFindsNothing(db: Db, channels: seq<(string, string)>,
                                              feed: string -> FeedFetch, now: int, maxAgeDays: int)
    requires forall i :: 0 <= i < |channels| && !FetchFailed(feed(channels[i].0)) ==>
      EntryIds(feed(channels[i].0).feed.entries) <= db.videos.Keys
    ensures PollChannels(db, channels, feed, now, maxAgeDays).found == []
    ensures PollChannels(db, channels, feed, now, maxAgeDays).db.videos == db.videos
    decreases |channels|
  {
    if |channels| > 0 {
      var (channelId, channelName) := channels[0];
      var upserted := UpsertChannel(db, channelId, channelName);
      var fetch := feed(channelId);
      var scanned := FetchNewVideos(upserted, channelId, channelName, fetch, now, maxAgeDays);
      assert scanned.found == [] && scanned.db.videos == db.videos by {
        if !FetchFailed(fetch) {
          assert EntryIds(fetch.feed.entries) <= upserted.videos.Keys;
          RescanFindsNothing(upserted, channelId, channelName, fetch.feed.entries, now, maxAgeDays);
        }
      }
      assert PollOne(db, channelId, channelName, fetch, now, maxAgeDays) == Scan(scanned.db, []);
      assert forall i :: 1 <= i < |channels| ==> channels[i] == channels[1..][i - 1];
      RepollFindsNothing(scanned.db, channels[1..], feed, now, maxAgeDays);
    }
  }

  // ---------------------------------------------------------------------------
  // An old entry without a title, as written (channels.py:129-133, 254-256)

  /** How the scan loop ends as written: normally, or with the
      AttributeError that the debug line's `entry.title` raises for an
      entry without a title, after the writes made so far. */
  datatype ScanOutcome = Finished(scan: Scan) | Raised(db: Db)

  /** The scan loop as written: like `ScanEntries`, except that reaching an
      unknown too-old entry without a title raises before it is stored. */
  function ScanAsWritten(db: Db, channelId: string, channelName: string, entries: seq<FeedEntry>,
                         now: int, maxAgeDays: int): (r: ScanOutcome)
    ensures r.Finished? ==> r.scan == ScanEntries(db, channelId, channelName, entries, now, maxAgeDays)
    ensures (forall i :: 0 <= i < |entries| ==> entries[i].title.Some?) ==> r.Finished?
    ensures r.Raised? ==>
      exists i :: 0 <= i < |entries| && entries[i].title.None? && EntryVideoId(entries[i]) != ""
               && EntryVideoId(entries[i]) !in db.videos && IsTooOld(entries[i].published, now, maxAgeDays)
    decreases |entries|
  {
    if |entries| == 0 then Finished(Scan(db, []))
    else
      var e := entries[0];
      var id := EntryVideoId(e);
      assert forall i :: 0 <= i < |entries[1..]| ==> entries[1..][i] == entries[i + 1];
      if id == "" || id in db.videos then
        ScanAsWritten(db, channelId, channelName, entries[1..], now, maxAgeDays)
      else if IsTooOld(e.published, now, maxAgeDays) then
        if e.title.None? then Raised(db)
        else
          var stored := UpdateSummary(InsertVideo(db, id, channelId, channelName, EntryTitle(e), e.published),
                                      id, Skipped);
          ScanAsWritten(stored, channelId, channelName, entries[1..], now, maxAgeDays)
      else
        match ScanAsWritten(db, channelId, channelName, entries[1..], now, maxAgeDays)
        case Raised(d) => Raised(d)
        case Finished(rest) => Finished(Scan(rest.db, [ToCandidate(e, channelId, channelName)] + rest.found))
  }

  /** How a poll ends as written: with its candidates, or aborted by the
      exception above, which nothing in `poll_all_channels` or `run_once`
      catches, after the writes made so far. */
  datatype PollOutcome = Polled(scan: Scan) | Aborted(db: Db)

  /** Some entry of the feed has an id, no title, and is too old: the only
      kind of entry at which the scan as written can raise. */
  predicate HasOldUntitled(entries: seq<FeedEntry>, now: int, maxAgeDays: int) {
    exists j :: 0 <= j < |entries| && entries[j].title.None? && EntryVideoId(entries[j]) != ""
              && IsTooOld(entries[j].published, now, maxAgeDays)
  }

  /** Some configured channel serves a usable feed holding such an entry. */
  predicate SomeFeedHasOldUntitled(channels: seq<(string, string)>, feed: string -> FeedFetch, now: int, maxAgeDays: int) {
    exists i :: 0 <= i < |channels| && !FetchFailed(feed(channels[i].0))
              && HasOldUntitled(feed(channels[i].0).feed.entries, now, maxAgeDays)
  }

  /** `poll_all_channels` as written: a channel whose scan raises ends the
      whole poll; the candidates of the channels before it are stored but
      never returned. */
  function PollAsWritten(db: Db, channels: seq<(string, string)>, feed: string -> FeedFetch,
                         now: int, maxAgeDays: int): (r: PollOutcome)
    ensures r.Polled? ==> r.scan == PollChannels(db, channels, feed, now, maxAgeDays)
    ensures r.Aborted? ==> SomeFeedHasOldUntitled(channels, feed, now, maxAgeDays)
    ensures !SomeFeedHasOldUntitled(channels, feed, now, maxAgeDays) ==> r.Polled?
    decreases |channels|
  {
    if |channels| == 0 then Polled(Scan(db, []))
    else
      assert forall i :: 0 <= i < |channels[1..]| ==> channels[1..][i] == channels[i + 1];
      var channelId := channels[0].0;
      var channelName := channels[0].1;
      var upserted := UpsertChannel(db, channelId, channelName);
      var fetch := feed(channelId);
      if !FetchFailed(fetch) && ScanAsWritten(upserted, channelId, channelName, fetch.feed.entries, now, maxAgeDays).Raised? then
        Aborted(ScanAsWritten(upserted, channelId, channelName, fetch.feed.entries, now, maxAgeDays).db)
      else
        var first := PollOne(db, channelId, channelName, fetch, now, maxAgeDays);
        match PollAsWritten(first.db, channels[1..], feed, now, maxAgeDays)
        case Aborted(d) => Aborted(d)
        case Polled(rest) => Polled(Scan(rest.db, first.found + rest.found))
  }

  const RecentId: string := "recent"
  const OldId: string := "old"

  /** Two channels: the first serves one recent titled entry, the second one
      ten-day-old entry without a title. */
  function StallingFeed(channelId: string): FeedFetch {
    if channelId == "a" then Fetched(Feed(false, None, [FeedEntry(Some(RecentId), None, Some("t"), Some(10 * SecondsPerDay), None)]))
    else Fetched(Feed(false, None, [FeedEntry(Some(OldId), None, None, Some(0), None)]))
  }

  const StallingChannels: seq<(string, string)> := [("a", "A"), ("b", "B")]

  /** The first channel of the stalling feeds, polled on day eleven: its
      one video becomes the only candidate and the only stored row. */
  lemma FirstChannelOfStallingFeed()
    ensures var first := PollOne(EmptyDb(), "a", "A", StallingFeed("a"), 11 * SecondsPerDay, 1);
            && first.found == [ToCandidate(StallingFeed("a").feed.entries[0], "a", "A")]
            && first.db.videos.Keys == {RecentId}
            && first.db.videos[RecentId].summaryStatus == Pending
  {
    var now := 11 * SecondsPerDay;
    var entriesA := StallingFeed("a").feed.entries;
    var c := ToCandidate(entriesA[0], "a", "A");
    var a := UpsertChannel(EmptyDb(), "a", "A");
    assert !IsTooOld(entriesA[0].published, now, 1);
    assert ScanEntries(a, "a", "A", entriesA, now, 1) == Scan(a, [c]);
    assert FoundIds([c]) == {RecentId};
  }

  /** As written, any poll of the stalling feeds after the first day aborts
      at the second channel, once the first channel's poll is done. */
  lemma StallingPollAborts(db: Db, now: int)
    requires now > SecondsPerDay
    requires OldId !in PollOne(db, "a", "A", StallingFeed("a"), now, 1).db.videos
    ensures var one := PollOne(db, "a", "A", StallingFeed("a"), now, 1);
            PollAsWritten(db, StallingChannels, StallingFeed, now, 1) == Aborted(UpsertChannel(one.db, "b", "B"))
  {
    var entriesA := StallingFeed("a").feed.entries;
    assert StallingChannels[0] == ("a", "A") && StallingChannels[1..] == [("b", "B")];
    assert forall i :: 0 <= i < |entriesA| ==> entriesA[i].title.Some?;
    var one := PollOne(db, "a", "A", StallingFeed("a"), now, 1);
    SecondStallingChannelAborts(one.db, now);
  }

  /** As written, the second stalling channel alone aborts the poll. */
  lemma SecondStallingChannelAborts(db: Db, now: int)
    requires now > SecondsPerDay
    requires OldId !in db.videos
    ensures PollAsWritten(db, [("b", "B")], StallingFeed, now, 1) == Aborted(UpsertChannel(db, "b", "B"))
  {
    var entriesB := StallingFeed("b").feed.entries;
    assert [("b", "B")][1..] == [];
    var b := UpsertChannel(db, "b", "B");
    assert IsTooOld(entriesB[0].published, now, 1);
    assert ScanAsWritten(b, "b", "B", entriesB, now, 1) == Raised(b);
  }

  /** As written, the poll aborts at the second channel after storing the
      first channel's video as pending; the next poll aborts the same way,
      and the stored video, now known, is never handed on again. */
  lemma TitleLessOldEntryStallsPolls()
    ensures var first := PollAsWritten(EmptyDb(), StallingChannels, StallingFeed, 11 * SecondsPerDay, 1);
            && first.Aborted?
            && RecentId in first.db.videos && first.db.videos[RecentId].summaryStatus == Pending
            && OldId !in first.db.videos
            && var second := PollAsWritten(first.db, StallingChannels, StallingFeed, 12 * SecondsPerDay, 1);
               second.Aborted? && second.db.videos == first.db.videos
  {
    var now := 11 * SecondsPerDay;
    var later := 12 * SecondsPerDay;
    FirstChannelOfStallingFeed();
    var first := PollOne(EmptyDb(), "a", "A", StallingFeed("a"), now, 1);
    StallingPollAborts(EmptyDb(), now);
    var b := UpsertChannel(first.db, "b", "B");
    var entriesA := StallingFeed("a").feed.entries;
    assert EntryIds(entriesA) <= UpsertChannel(b, "a", "A").videos.Keys;
    RescanFindsNothing(UpsertChannel(b, "a", "A"), "a", "A", entriesA, later, 1);
    var again := PollOne(b, "a", "A", StallingFeed("a"), later, 1);
    assert again.db.videos == b.videos;
    StallingPollAborts(b, later);
  }

  /** The second channel polled after the first, with the title
      defaulted: no candidate, and the old video stored as skipped. */
  lemma SecondChannelOfStallingFeed(db: Db)
    requires db.videos.Keys == {RecentId}
    ensures var second := PollOne(db, "b", "B", StallingFeed("b"), 11 * SecondsPerDay, 1);
            && second.found == []
            && OldId in second.db.videos && second.db.videos[OldId].summaryStatus == Skipped
  {
    var now := 11 * SecondsPerDay;
    var entriesB := StallingFeed("b").feed.entries;
    var b := UpsertChannel(db, "b", "B");
    assert entriesB == [entriesB[0]] && EntryVideoId(entriesB[0]) == OldId;
    OneOldEntry(b, "b", "B", entriesB[0], now, 1);
  }

  /** A feed of one unknown too-old entry yields no candidate and stores
      the entry as skipped. */
  lemma OneOldEntry(db: Db, channelId: string, channelName: string, e: FeedEntry, now: int, maxAgeDays: int)
    requires EntryVideoId(e) != "" && EntryVideoId(e) !in db.videos && IsTooOld(e.published, now, maxAgeDays)
    ensures var r := ScanEntries(db, channelId, channelName, [e], now, maxAgeDays);
            r.found == [] && EntryVideoId(e) in r.db.videos && r.db.videos[EntryVideoId(e)].summaryStatus == Skipped
  {
    var id := EntryVideoId(e);
    var stored := UpdateSummary(InsertVideo(db, id, channelId, channelName, EntryTitle(e), e.published), id, Skipped);
    assert [e][1..] == [];
    assert ScanEntries(db, channelId, channelName, [e], now, maxAgeDays) == Scan(stored, []);
  }

  /** With at least one channel configured, the poll is the loop over them. */
  lemma PollAllIsLoop(db: Db, channels: seq<(string, string)>, feed: string -> FeedFetch, now: int, maxAgeDays: int)
    requires |channels| > 0
    ensures PollAllChannels(db, channels, feed, now, maxAgeDays) == PollChannels(db, channels, feed, now, maxAgeDays)
  {
  }

  /** A poll over one channel is that channel's poll. */
  lemma PollOneChannel(db: Db, ch: (string, string), feed: string -> FeedFetch, now: int, maxAgeDays: int)
    ensures PollChannels(db, [ch], feed, now, maxAgeDays) == PollOne(db, ch.0, ch.1, feed(ch.0), now, maxAgeDays)
  {
    var first := PollOne(db, ch.0, ch.1, feed(ch.0), now, maxAgeDays);
    assert [ch][1..] == [];
    assert first.found + [] == first.found;
  }

  /** A poll over two channels, one after the other. */
  lemma PollTwoChannels(db: Db, one: (string, string), two: (string, string), feed: string -> FeedFetch,
                        now: int, maxAgeDays: int)
    ensures var first := PollOne(db, one.0, one.1, feed(one.0), now, maxAgeDays);
            var second := PollOne(first.db, two.0, two.1, feed(two.0), now, maxAgeDays);
            PollChannels(db, [one] + [two], feed, now, maxAgeDays) == Scan(second.db, first.found + second.found)
  {
    PollOneChannel(db, one, feed, now, maxAgeDays);
    PollChannelsSnoc(db, [one], two, feed, now, maxAgeDays);
  }

  lemma PollOfStallingChannels(now: int)
    ensures var first := PollOne(EmptyDb(), "a", "A", StallingFeed("a"), now, 1);
            var second := PollOne(first.db, "b", "B", StallingFeed("b"), now, 1);
            PollAllChannels(EmptyDb(), StallingChannels, StallingFeed, now, 1) == Scan(second.db, first.found + second.found)
  {
    PollTwoChannels(EmptyDb(), ("a", "A"), ("b", "B"), StallingFeed, now, 1);
    assert [("a", "A")] + [("b", "B")] == StallingChannels;
    PollAllIsLoop(EmptyDb(), StallingChannels, StallingFeed, now, 1);
  }

  lemma FirstPollOfStallingFeed()
    ensures var first := PollAllChannels(EmptyDb(), StallingChannels, StallingFeed, 11 * SecondsPerDay, 1);
            && |first.found| == 1 && first.found[0].videoId == RecentId
            && OldId in first.db.videos && first.db.videos[OldId].summaryStatus == Skipped
  {
    var now := 11 * SecondsPerDay;
    FirstChannelOfStallingFeed();
    var first := PollOne(EmptyDb(), "a", "A", StallingFeed("a"), now, 1);
    SecondChannelOfStallingFeed(first.db);
    PollOfStallingChannels(now);
  }

  /** With the title defaulted, as the insert below the debug line already
      does, the same two polls return the recent video once, store the old
      one as skipped, and then find nothing. */
  lemma TitleLessOldEntryStored()
    ensures var first := PollAllChannels(EmptyDb(), StallingChannels, StallingFeed, 11 * SecondsPerDay, 1);
            && |first.found| == 1 && first.found[0].videoId == RecentId
            && OldId in first.db.videos && first.db.videos[OldId].summaryStatus == Skipped
            && PollAllChannels(first.db, StallingChannels, StallingFeed, 12 * SecondsPerDay, 1).found == []
  {
    FirstPollOfStallingFeed();
    SecondPollFindsNothing(EmptyDb(), StallingChannels, StallingFeed, 11 * SecondsPerDay, 12 * SecondsPerDay, 1);
  }

  // ---------------------------------------------------------------------------
  // ISO 8601 durations (channels.py:217-227)

  /** Length of the run of ASCII digits at the front of `s`. */
  function DigitRun(s: string): (n: nat)
    ensures n <= |s|
    ensures AllDigits(s[..n])
    ensures n < |s| ==> !IsDigit(s[n])
  {
    if |s| == 0 || !IsDigit(s[0]) then 0 else 1 + DigitRun(s[1..])
  }

  /** The optional group `(?:(\d+)U)?`: a digit run followed by the unit
      letter, or nothing (the input is then left untouched). */
  function Component(s: string, unit: char): (r: (nat, string))
    ensures |r.1| <= |s|
  {
    var n := DigitRun(s);
    if 0 < n < |s| && s[n] == unit then (DigitsValue(s[..n]), s[n + 1..]) else (0, s)
  }

  /** The three optional groups in the order the pattern reads them,
      each with its weight in seconds. */
  const DurationUnits: seq<(char, nat)> := [('H', 3600), ('M', 60), ('S', 1)]

  /** The optional groups for `units` read one after the other: the
      weighted sum of the components found. */
  function ReadGroups(s: string, units: seq<(char, nat)>): nat
    decreases |units|
  {
    if |units| == 0 then 0
    else
      var c := Component(s, units[0].0);
      c.0 * units[0].1 + ReadGroups(c.1, units[1..])
  }

  /** `_parse_iso8601_duration`: None for "" or text not starting with
      "PT"; otherwise hours, minutes and seconds in that order, each
      optional and counted as 0 when absent. Trailing text is ignored. */
  function ParseIso8601Duration(duration: string): (r: Option<nat>)
    ensures r.None? <==> duration == "" || !("PT" <= duration)
  {
    if duration == "" || !("PT" <= duration) then None
    else Some(ReadGroups(duration[2..], DurationUnits))
  }

  /** One optional component written out: `<digits><unit>`, or nothing. */
  function Spell(n: Option<nat>, unit: char): string {
    if n.Some? then Decimal(n.value) + [unit] else ""
  }

  /** Optional components written out in unit order. */
  function SpellAll(values: seq<Option<nat>>, units: seq<(char, nat)>): string
    requires |values| == |units|
    decreases |units|
  {
    if |units| == 0 then "" else Spell(values[0], units[0].0) + SpellAll(values[1..], units[1..])
  }

  /** The weighted sum of the components, absent ones counting as zero. */
  function Total(values: seq<Option<nat>>, units: seq<(char, nat)>): nat
    requires |values| == |units|
    decreases |units|
  {
    if |units| == 0 then 0 else values[0].GetOr(0) * units[0].1 + Total(values[1..], units[1..])
  }

  /** Unit letters that are not digits, none repeated. */
  predicate GoodUnits(units: seq<(char, nat)>) {
    && (forall i :: 0 <= i < |units| ==> !IsDigit(units[i].0))
    && (forall i, j :: 0 <= i < j < |units| ==> units[i].0 != units[j].0)
  }

  lemma {:induction false} DigitRunOfDigits(ds: string, u: char, rest: string)
    requires AllDigits(ds) && !IsDigit(u)
    ensures DigitRun(ds + [u] + rest) == |ds|
    decreases |ds|
  {
    if |ds| > 0 {
      assert (ds + [u] + rest)[1..] == ds[1..] + [u] + rest;
      DigitRunOfDigits(ds[1..], u, rest);
    }
  }

  lemma DigitRunOfSpelled(n: nat, u: char, rest: string)
    requires !IsDigit(u)
    ensures DigitRun(Decimal(n) + [u] + rest) == |Decimal(n)|
    ensures (Decimal(n) + [u] + rest)[..|Decimal(n)|] == Decimal(n)
    ensures (Decimal(n) + [u] + rest)[|Decimal(n)|] == u
    ensures (Decimal(n) + [u] + rest)[|Decimal(n)| + 1..] == rest
  {
    DigitRunOfDigits(Decimal(n), u, rest);
  }

  /** A component written with its own unit is read back. */
  lemma ComponentHit(n: nat, unit: char, rest: string)
    requires !IsDigit(unit)
    ensures Component(Decimal(n) + [unit] + rest, unit) == (n, rest)
  {
    DigitRunOfSpelled(n, unit, rest);
    DecimalValue(n);
  }

  /** A component written with another unit is not consumed. */
  lemma ComponentMiss(n: nat, u: char, unit: char, rest: string)
    requires !IsDigit(u) && u != unit
    ensures Component(Decimal(n) + [u] + rest, unit) == (0, Decimal(n) + [u] + rest)
  {
    DigitRunOfSpelled(n, u, rest);
  }

  /** Components written with other units leave a group untouched. */
  lemma {:induction false} GroupMiss(values: seq<Option<nat>>, units: seq<(char, nat)>, unit: char)
    requires |values| == |units|
    requires forall i :: 0 <= i < |units| ==> !IsDigit(units[i].0) && units[i].0 != unit
    ensures Component(SpellAll(values, units), unit) == (0, SpellAll(values, units))
    decreases |units|
  {
    if |units| > 0 {
      var tail := SpellAll(values[1..], units[1..]);
      if values[0].Some? {
        assert SpellAll(values, units) == Decimal(values[0].value) + [units[0].0] + tail;
        ComponentMiss(values[0].value, units[0].0, unit, tail);
      } else {
        assert SpellAll(values, units) == tail;
        assert forall i :: 0 <= i < |units[1..]| ==> units[1..][i] == units[i + 1];
        GroupMiss(values[1..], units[1..], unit);
      }
    }
  }

  /** Reading components written out in unit order gives back their
      weighted sum, absent components counting as zero. */
  lemma {:induction false} ReadSpelled(values: seq<Option<nat>>, units: seq<(char, nat)>)
    requires |values| == |units|
    requires GoodUnits(units)
    ensures ReadGroups(SpellAll(values, units), units) == Total(values, units)
    decreases |units|
  {
    if |units| > 0 {
      var w := SpellAll(values, units);
      var tail := SpellAll(values[1..], units[1..]);
      var u := units[0].0;
      if values[0].Some? {
        assert w == Decimal(values[0].value) + [u] + tail;
        ComponentHit(values[0].value, u, tail);
      } else {
        assert w == tail;
        assert forall i :: 0 <= i < |units[1..]| ==> units[1..][i] == units[i + 1];
        GroupMiss(values[1..], units[1..], u);
      }
      assert Component(w, u) == (values[0].GetOr(0), tail);
      assert forall i :: 0 <= i < |units[1..]| ==> units[1..][i] == units[i + 1];
      ReadSpelled(values[1..], units[1..]);
    }
  }

  /** Reading a duration written as `PT[<h>H][<m>M][<s>S]` gives back the
      total number of seconds, absent components counting as zero. */
  lemma DurationRoundTrip(values: seq<Option<nat>>)
    requires |values| == |DurationUnits|
    ensures ParseIso8601Duration("PT" + SpellAll(values, DurationUnits)) == Some(Total(values, DurationUnits))
  {
    ReadSpelled(values, DurationUnits);
    var d := "PT" + SpellAll(values, DurationUnits);
    assert "PT" <= d && d[2..] == SpellAll(values, DurationUnits);
  }

  /** For hours, minutes and seconds the written form is `PT<h>H<m>M<s>S`
      with absent parts left out ... */
  lemma SpelledHms(h: Option<nat>, m: Option<nat>, s: Option<nat>)
    ensures SpellAll([h, m, s], DurationUnits) == Spell(h, 'H') + Spell(m, 'M') + Spell(s, 'S')
  {
    var values: seq<Option<nat>> := [h, m, s];
    assert values[1..] == [m, s] && values[1..][1..] == [s] && |values[1..][1..][1..]| == 0;
    assert DurationUnits[1..] == [('M', 60), ('S', 1)];
    assert DurationUnits[1..][1..] == [('S', 1)];
    assert |DurationUnits[1..][1..][1..]| == 0;
  }

  /** ... and the total is `3600 h + 60 m + s`. */
  lemma TotalHms(h: Option<nat>, m: Option<nat>, s: Option<nat>)
    ensures Total([h, m, s], DurationUnits) == h.GetOr(0) * 3600 + m.GetOr(0) * 60 + s.GetOr(0)
  {
    var values: seq<Option<nat>> := [h, m, s];
    assert values[1..] == [m, s] && values[1..][1..] == [s] && |values[1..][1..][1..]| == 0;
    assert DurationUnits[1..] == [('M', 60), ('S', 1)];
    assert DurationUnits[1..][1..] == [('S', 1)];
    assert |DurationUnits[1..][1..][1..]| == 0;
  }
}
