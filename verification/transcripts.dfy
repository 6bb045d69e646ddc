/** Caption fetching (transcripts.py): the retry loop with exponential
    backoff, the proxy rotation that avoids proxies already tried, and the
    text parser of the downloaded proxy list. The caption API, the random
    draws and the HTTP download are parameters. */
module Transcripts {
  import opened Common
  import opened Text

  /** One caption segment as the caption API returns it. */
  datatype Segment = Segment(text: string, start: real, duration: real)

  /** What one call to the caption API does: return segments, or raise one
      of the three permanent errors, or raise anything else. */
  datatype Attempt =
    | Captions(segments: seq<Segment>)
    | Disabled
    | NotFound
    | Unavailable
    | Transient(error: string)

  /** TranscriptsDisabled, NoTranscriptFound and VideoUnavailable: no
      retry can change them. */
  predicate Permanent(a: Attempt) {
    a.Disabled? || a.NotFound? || a.Unavailable?
  }

  /** The `proxies` mapping handed to the caption API. */
  datatype ProxyConfig = ProxyConfig(http: string, https: string)

  // ---------------------------------------------------------------------------
  // Proxy rotation (transcripts.py:125-140)

  /** The pool entries not yet tried, in pool order. */
  function Untried(pool: seq<string>, attempted: set<string>): (available: seq<string>)
    ensures forall p :: p in available <==> p in pool && p !in attempted
  {
    if |pool| == 0 then []
    else if pool[0] in attempted then Untried(pool[1..], attempted)
    else [pool[0]] + Untried(pool[1..], attempted)
  }

  /** `_pick_proxy`: no proxy when proxying is off or the pool is empty;
      otherwise the entry at `choice` (modulo the length) among the untried
      ones, or among the whole pool after forgetting every attempt once all
      have been tried. Returns the proxy and the updated attempted set. */
  function PickProxy(proxyEnabled: bool, pool: seq<string>, attempted: set<string>, choice: nat)
    : (r: (Option<ProxyConfig>, set<string>))
    ensures !proxyEnabled || |pool| == 0 ==> r.0 == None && r.1 == attempted
    ensures proxyEnabled && |pool| > 0 ==>
      && r.0.Some? && r.0.value.http == r.0.value.https
      && r.0.value.http in pool
      && r.0.value.http in r.1
    ensures proxyEnabled && |pool| > 0 && (exists p :: p in pool && p !in attempted) ==>
      r.0.value.http !in attempted && r.1 == attempted + {r.0.value.http}
    ensures proxyEnabled && |pool| > 0 && (forall p :: p in pool ==> p in attempted) ==>
      r.1 == {r.0.value.http}
  {
    if !proxyEnabled || |pool| == 0 then (None, attempted)
    else
      var available := Untried(pool, attempted);
      if |available| == 0 then
        var url := pool[choice % |pool|];
        (Some(ProxyConfig(url, url)), {url})
      else
        var url := available[choice % |available|];
        (Some(ProxyConfig(url, url)), attempted + {url})
  }

  /** `random.choice` may land on any untried entry: every one of them is
      the pick for some draw. */
  lemma AnyUntriedCanBePicked(pool: seq<string>, attempted: set<string>, p: string)
    requires p in pool && p !in attempted
    ensures exists choice: nat :: PickProxy(true, pool, attempted, choice).0 == Some(ProxyConfig(p, p))
  {
    var available := Untried(pool, attempted);
    var k :| 0 <= k < |available| && available[k] == p;
    assert k % |available| == k;
    assert PickProxy(true, pool, attempted, k).0 == Some(ProxyConfig(p, p));
  }

  // ---------------------------------------------------------------------------
  // Retry loop (transcripts.py:66-122)

  /** `backoff_base ** n` for a whole exponent. */
  function Pow(base: real, n: nat): real {
    if n == 0 then 1.0 else base * Pow(base, n - 1)
  }

  /** The wait after the failed attempt with 0-based index `i`:
      `backoff_base ** i` plus a jitter drawn from [0, 1). */
  predicate BackoffWait(w: real, base: real, i: nat) {
    Pow(base, i) <= w < Pow(base, i) + 1.0
  }

  /** The waits after the first `n` failed attempts. */
  function Backoffs(base: real, jitters: nat -> real, n: nat): (waits: seq<real>)
    ensures |waits| == n
  {
    if n == 0 then [] else Backoffs(base, jitters, n - 1) + [Pow(base, n - 1) + jitters(n - 1)]
  }

  /** With jitter drawn from [0, 1), the wait after attempt `i` is at least
      `base ** i` and less than one second more. */
  lemma {:induction false} BackoffsBounded(base: real, jitters: nat -> real, n: nat)
    requires forall i :: 0.0 <= jitters(i) < 1.0
    ensures forall i :: 0 <= i < n ==> BackoffWait(Backoffs(base, jitters, n)[i], base, i)
  {
    if n > 0 {
      BackoffsBounded(base, jitters, n - 1);
      assert forall i :: 0 <= i < n - 1 ==> Backoffs(base, jitters, n)[i] == Backoffs(base, jitters, n - 1)[i];
    }
  }

  /** The number of calls `range(max_retries)` allows. */
  function MaxCalls(maxRetries: int): nat {
    if maxRetries < 0 then 0 else maxRetries
  }

  /** The set of distinct pool entries. */
  function PoolSet(pool: seq<string>): set<string> {
    set p | p in pool
  }

  /** `get_transcript`. `capture(i, proxy)` is the caption API's answer to
      attempt `i` through `proxy`; `choices(i)` and `jitters(i)` are the
      random draws of attempt `i`. Returns the segments (or None), the
      proxy used for each call made, every wait, and the last transient
      error. */
  method GetTranscript(capture: (nat, Option<ProxyConfig>) -> Attempt, maxRetries: int, backoffBase: real,
                       proxyEnabled: bool, pool: seq<string>, choices: nat -> nat, jitters: nat -> real)
    returns (result: Option<seq<Segment>>, proxies: seq<Option<ProxyConfig>>, waits: seq<real>,
             lastError: Option<string>)
    ensures |proxies| <= MaxCalls(maxRetries)
    ensures proxies == Schedule(proxyEnabled, pool, choices, |proxies|).0
    // one wait after each failed call: every call but a final success or
    // permanent error failed transiently
    ensures |waits| <= |proxies| <= |waits| + 1
    ensures forall i :: 0 <= i < |waits| ==> capture(i, proxies[i]).Transient?
    ensures waits == Backoffs(backoffBase, jitters, |waits|)
    ensures lastError == if |waits| == 0 then None else Some(capture(|waits| - 1, proxies[|waits| - 1]).error)
    // the loop stops early only on captions or a permanent error
    ensures |proxies| == |waits| ==> |proxies| == MaxCalls(maxRetries)
    ensures |proxies| > |waits| ==> !capture(|waits|, proxies[|waits|]).Transient?
    ensures result == if |proxies| > |waits| && capture(|waits|, proxies[|waits|]).Captions?
                      then Some(capture(|waits|, proxies[|waits|]).segments) else None
  {
    result, proxies, waits, lastError := None, [], [], None;
    var attempted: set<string> := {};
    var attempt: nat := 0;
    while attempt < MaxCalls(maxRetries)
      invariant attempt == |proxies| == |waits| <= MaxCalls(maxRetries)
      invariant forall i :: 0 <= i < attempt ==> capture(i, proxies[i]).Transient?
      invariant waits == Backoffs(backoffBase, jitters, attempt)
      invariant lastError == if attempt == 0 then None else Some(capture(attempt - 1, proxies[attempt - 1]).error)
      invariant (proxies, attempted) == Schedule(proxyEnabled, pool, choices, attempt)
      decreases MaxCalls(maxRetries) - attempt
    {
      var proxy, outcome;
      proxy, attempted, outcome := CallOnce(capture, proxyEnabled, pool, choices, attempt, proxies, attempted);
      proxies := proxies + [proxy];
      if !outcome.Transient? {
        assert proxies[|waits|] == proxy && outcome == capture(|waits|, proxy);
        if outcome.Captions? {
          result := Some(outcome.segments);
        }
        return;
      }
      lastError := Some(outcome.error);
      waits := NextWait(backoffBase, jitters, attempt, waits);
      attempt := attempt + 1;
    }
  }

  /** The sleep after failed attempt `attempt`, appended to the waits so far. */
  method NextWait(backoffBase: real, jitters: nat -> real, attempt: nat, waits: seq<real>) returns (waits': seq<real>)
    requires waits == Backoffs(backoffBase, jitters, attempt)
    ensures waits' == Backoffs(backoffBase, jitters, attempt + 1)
  {
    waits' := waits + [Pow(backoffBase, attempt) + jitters(attempt)];
  }

  /** One pass of the loop up to the call: pick a proxy, then call the
      caption API through it. */
  method CallOnce(capture: (nat, Option<ProxyConfig>) -> Attempt, proxyEnabled: bool, pool: seq<string>,
                  choices: nat -> nat, attempt: nat, proxies: seq<Option<ProxyConfig>>, attempted: set<string>)
    returns (proxy: Option<ProxyConfig>, attempted': set<string>, outcome: Attempt)
    requires (proxies, attempted) == Schedule(proxyEnabled, pool, choices, attempt)
    ensures (proxies + [proxy], attempted') == Schedule(proxyEnabled, pool, choices, attempt + 1)
    ensures outcome == capture(attempt, proxy)
  {
    var picked := PickProxy(proxyEnabled, pool, attempted, choices(attempt));
    proxy, attempted' := picked.0, picked.1;
    outcome := capture(attempt, proxy);
  }

  /** The proxies of the first `n` calls and the attempted set after them.
      Which proxy a call uses depends only on the draws, never on what
      earlier calls returned. */
  function Schedule(proxyEnabled: bool, pool: seq<string>, choices: nat -> nat, n: nat)
    : (r: (seq<Option<ProxyConfig>>, set<string>))
    ensures |r.0| == n
  {
    if n == 0 then ([], {})
    else
      var prev := Schedule(proxyEnabled, pool, choices, n - 1);
      var picked := PickProxy(proxyEnabled, pool, prev.1, choices(n - 1));
      (prev.0 + [picked.0], picked.1)
  }

  /** A call goes direct when proxying is off or the pool is empty, and
      otherwise through a pool entry used for both schemes. */
  predicate ProxyAllowed(proxy: Option<ProxyConfig>, proxyEnabled: bool, pool: seq<string>) {
    if proxyEnabled && |pool| > 0 then
      proxy.Some? && proxy.value.http in pool && proxy.value.http == proxy.value.https
    else proxy.None?
  }

  lemma {:induction false} ScheduleUsesPool(proxyEnabled: bool, pool: seq<string>, choices: nat -> nat, n: nat)
    ensures forall i :: 0 <= i < n ==> ProxyAllowed(Schedule(proxyEnabled, pool, choices, n).0[i], proxyEnabled, pool)
  {
    if n > 0 {
      ScheduleUsesPool(proxyEnabled, pool, choices, n - 1);
      var prev := Schedule(proxyEnabled, pool, choices, n - 1);
      var picked := PickProxy(proxyEnabled, pool, prev.1, choices(n - 1));
      var ps := Schedule(proxyEnabled, pool, choices, n).0;
      assert ps == prev.0 + [picked.0];
      assert ProxyAllowed(picked.0, proxyEnabled, pool);
    }
  }

  /** No proxy is reused before every distinct pool entry has had a turn. */
  lemma {:induction false} ScheduleRotates(pool: seq<string>, choices: nat -> nat, n: nat)
    requires |pool| > 0 && n <= |PoolSet(pool)|
    ensures var s := Schedule(true, pool, choices, n);
            Rotation(s.0, s.1) && NoDup(s.0)
  {
    if n > 0 {
      ScheduleRotates(pool, choices, n - 1);
      var prev := Schedule(true, pool, choices, n - 1);
      RotationStep(pool, prev.1, prev.0, choices(n - 1));
    }
  }

  /** Since the last reset, each call used a different proxy and the
      attempted set holds exactly the proxies used. */
  ghost predicate Rotation(proxies: seq<Option<ProxyConfig>>, attempted: set<string>) {
    && (forall p :: p in attempted <==> Some(ProxyConfig(p, p)) in proxies)
    && |attempted| == |proxies|
    && NoDup(proxies)
  }

  /** Before the pool is exhausted, a pick extends the rotation with a
      proxy not used before. */
  lemma RotationStep(pool: seq<string>, attempted: set<string>, proxies: seq<Option<ProxyConfig>>, choice: nat)
    requires |pool| > 0 && |proxies| < |PoolSet(pool)|
    requires Rotation(proxies, attempted)
    ensures var picked := PickProxy(true, pool, attempted, choice);
            Rotation(proxies + [picked.0], picked.1)
  {
    UntriedRemains(pool, attempted);
    var picked := PickProxy(true, pool, attempted, choice);
    var url := picked.0.value.http;
    assert picked.0 == Some(ProxyConfig(url, url));
    assert picked.0 !in proxies;
    var r := proxies + [picked.0];
    forall i, j | 0 <= i < j < |r|
      ensures r[i] != r[j]
    {
      if j == |proxies| {
        assert r[i] in proxies;
      }
    }
  }

  /** While fewer entries have been tried than the pool holds, some entry
      is still untried. */
  lemma UntriedRemains(pool: seq<string>, attempted: set<string>)
    requires |attempted| < |PoolSet(pool)|
    ensures exists p :: p in pool && p !in attempted
  {
    if forall p :: p in pool ==> p in attempted {
      assert PoolSet(pool) <= attempted;
      SubsetCard(PoolSet(pool), attempted);
    }
  }

  lemma SubsetCard<T>(a: set<T>, b: set<T>)
    requires a <= b
    ensures |a| <= |b|
  {
    assert b == a + (b - a);
  }

  // ---------------------------------------------------------------------------
  // Proxy list text (transcripts.py:38-49)

  const NoProxiesMessage: string := "No proxies returned from Webshare — check your download URL."

  /** The proxy URL built from an `ip:port:username:password` line. */
  function ProxyUrl(ip: string, port: string, username: string, password: string): string {
    "http://" + username + ":" + password + "@" + ip + ":" + port
  }

  predicate IsColon(c: char) {
    c == ':'
  }

  /** The URL a line contributes, if any: blank lines and lines that do
      not split into exactly four ':' fields contribute none. */
  function LineProxy(line: string): (r: Option<string>)
    ensures r.Some? <==> Strip(line) != "" && |SplitWhere(Strip(line), IsColon)| == 4
  {
    var l := Strip(line);
    var parts := SplitWhere(l, IsColon);
    if l == "" || |parts| != 4 then None else Some(ProxyUrl(parts[0], parts[1], parts[2], parts[3]))
  }

  /** The URLs of the lines, in input order. */
  function LineProxies(lines: seq<string>): (urls: seq<string>)
    ensures |urls| <= |lines|
  {
    if |lines| == 0 then []
    else
      var rest := LineProxies(lines[1..]);
      match LineProxy(lines[0])
      case Some(url) => [url] + rest
      case None => rest
  }

  /** Each line contributes on its own: the URLs of a list of lines are those
      of its first part followed by those of the rest, and one line gives
      its own URL or nothing. */
  lemma {:induction false} LineProxiesConcat(a: seq<string>, b: seq<string>)
    ensures LineProxies(a + b) == LineProxies(a) + LineProxies(b)
    ensures LineProxies([]) == []
    ensures forall line :: LineProxies([line]) == (match LineProxy(line) case Some(url) => [url] case None => [])
    decreases |a|
  {
    if |a| > 0 {
      assert (a + b)[0] == a[0];
      assert (a + b)[1..] == a[1..] + b;
      LineProxiesConcat(a[1..], b);
      assert forall xs: seq<string> :: xs + (LineProxies(a[1..]) + LineProxies(b)) == (xs + LineProxies(a[1..])) + LineProxies(b);
    } else {
      assert a + b == b;
    }
    forall line
      ensures LineProxies([line]) == (match LineProxy(line) case Some(url) => [url] case None => [])
    {
      assert [line][1..] == [];
    }
  }

  /** The parser inside `_load_proxies`, applied to the downloaded text:
      the URLs, or the error raised when there are none. */
  function ParseProxyList(text: string): (r: Result<seq<string>>)
    ensures r.Err? <==> LineProxies(SplitWhere(Strip(text), IsLineBreak)) == []
    ensures r.Err? ==> r.message == NoProxiesMessage
    ensures r.Ok? ==> r.value == LineProxies(SplitWhere(Strip(text), IsLineBreak))
  {
    var urls := LineProxies(SplitWhere(Strip(text), IsLineBreak));
    if urls == [] then Err(NoProxiesMessage) else Ok(urls)
  }

  /** One entry of a proxy list: address, port and credentials. */
  datatype ProxyEntry = ProxyEntry(ip: string, port: string, username: string, password: string)

  /** A field as a proxy list writes it: no whitespace and no ':'. */
  predicate PlainField(f: string) {
    forall k :: 0 <= k < |f| ==> !IsSpace(f[k]) && f[k] != ':'
  }

  predicate PlainEntry(e: ProxyEntry) {
    PlainField(e.ip) && PlainField(e.port) && PlainField(e.username) && PlainField(e.password)
  }

  function EntryLine(e: ProxyEntry): string {
    Join([e.ip, e.port, e.username, e.password], ":")
  }

  function EntryLines(entries: seq<ProxyEntry>): (lines: seq<string>)
    ensures |lines| == |entries|
    ensures forall i :: 0 <= i < |entries| ==> lines[i] == EntryLine(entries[i])
  {
    if |entries| == 0 then [] else [EntryLine(entries[0])] + EntryLines(entries[1..])
  }

  function EntryUrls(entries: seq<ProxyEntry>): (urls: seq<string>)
    ensures |urls| == |entries|
    ensures forall i :: 0 <= i < |entries| ==>
      urls[i] == ProxyUrl(entries[i].ip, entries[i].port, entries[i].username, entries[i].password)
  {
    if |entries| == 0 then []
    else [ProxyUrl(entries[0].ip, entries[0].port, entries[0].username, entries[0].password)] + EntryUrls(entries[1..])
  }

  /** A line written from plain fields is read back as its URL. */
  lemma LineProxyOfEntry(e: ProxyEntry)
    requires PlainEntry(e)
    ensures LineProxy(EntryLine(e)) == Some(ProxyUrl(e.ip, e.port, e.username, e.password))
  {
    var fields := [e.ip, e.port, e.username, e.password];
    var line := EntryLine(e);
    assert Strip(line) == line by {
      JoinFree(fields, ':', IsSpace);
    }
    assert SplitWhere(line, IsColon) == fields by {
      assert forall i :: 0 <= i < |fields| ==> Free(fields[i], IsColon);
      SplitJoin(fields, ':', IsColon);
    }
  }

  /** Joining pieces that avoid a character class with a separator outside
      it gives a string that avoids it. */
  lemma {:induction false} JoinFree(parts: seq<string>, sep: char, isBad: char -> bool)
    requires !isBad(sep)
    requires forall i :: 0 <= i < |parts| ==> Free(parts[i], isBad)
    ensures Free(Join(parts, [sep]), isBad)
    decreases |parts|
  {
    if |parts| > 1 {
      JoinFree(parts[1..], sep, isBad);
      var tail := Join(parts[1..], [sep]);
      assert Join(parts, [sep]) == parts[0] + [sep] + tail;
      forall k | 0 <= k < |parts[0] + [sep] + tail|
        ensures !isBad((parts[0] + [sep] + tail)[k])
      {
        if k < |parts[0]| {
          assert (parts[0] + [sep] + tail)[k] == parts[0][k];
        } else if k > |parts[0]| {
          assert (parts[0] + [sep] + tail)[k] == tail[k - |parts[0]| - 1];
        }
      }
    }
  }

  /** A list written one plain entry per line is read back as the URLs of
      its entries, in order; an empty list is the error. */
  lemma {:induction false} ProxyListRoundTrip(entries: seq<ProxyEntry>)
    requires forall i :: 0 <= i < |entries| ==> PlainEntry(entries[i])
    ensures |entries| > 0 ==> ParseProxyList(Join(EntryLines(entries), "\n")) == Ok(EntryUrls(entries))
    ensures |entries| == 0 ==> ParseProxyList(Join(EntryLines(entries), "\n")).Err?
  {
    var lines := EntryLines(entries);
    var text := Join(lines, "\n");
    if |entries| == 0 {
      assert text == "";
      assert SplitWhere(Strip(text), IsLineBreak) == [""];
    } else {
      forall i | 0 <= i < |lines|
        ensures Free(lines[i], IsLineBreak)
        ensures lines[i] != "" && !IsSpace(lines[i][0]) && !IsSpace(lines[i][|lines[i]| - 1])
      {
        LineIsPlain(entries[i]);
      }
      JoinEnds(lines, '\n');
      assert Strip(text) == text;
      SplitJoin(lines, '\n', IsLineBreak);
      ReadLines(entries);
    }
  }

  /** An entry's line has no line break and no whitespace at either end. */
  lemma LineIsPlain(e: ProxyEntry)
    requires PlainEntry(e)
    ensures Free(EntryLine(e), IsLineBreak)
    ensures EntryLine(e) != "" && !IsSpace(EntryLine(e)[0]) && !IsSpace(EntryLine(e)[|EntryLine(e)| - 1])
  {
    var fields := [e.ip, e.port, e.username, e.password];
    JoinFree(fields, ':', IsSpace);
    var line := EntryLine(e);
    assert line == e.ip + ":" + Join(fields[1..], ":");
    forall k | 0 <= k < |line|
      ensures !IsLineBreak(line[k])
    {
      LineBreakIsSpace(line[k]);
    }
  }

  /** The joined text starts with the first line's first character and ends
      with the last line's last character. */
  lemma {:induction false} JoinEnds(lines: seq<string>, sep: char)
    requires |lines| > 0
    requires forall i :: 0 <= i < |lines| ==> lines[i] != ""
    ensures var t := Join(lines, [sep]);
            t != "" && t[0] == lines[0][0] && t[|t| - 1] == lines[|lines| - 1][|lines[|lines| - 1]| - 1]
    decreases |lines|
  {
    if |lines| > 1 {
      JoinEnds(lines[1..], sep);
      assert Join(lines, [sep]) == lines[0] + [sep] + Join(lines[1..], [sep]);
    }
  }

  lemma {:induction false} ReadLines(entries: seq<ProxyEntry>)
    requires forall i :: 0 <= i < |entries| ==> PlainEntry(entries[i])
    ensures LineProxies(EntryLines(entries)) == EntryUrls(entries)
    decreases |entries|
  {
    if |entries| > 0 {
      LineProxyOfEntry(entries[0]);
      assert EntryLines(entries)[1..] == EntryLines(entries[1..]);
      ReadLines(entries[1..]);
    }
  }
}
