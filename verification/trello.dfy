/** The Trello output backend's pure parts: pulling YouTube video ids out of
    card text (the board-wide duplicate check), the configuration check,
    and the card name and description a published summary gets. */
module TrelloBackend {
  import opened Common
  import opened Text

  // ---------------------------------------------------------------------------
  // Video-id extraction

  /** The URL forms the id pattern recognises, as alternatives in this order. */
  const WatchForm := "youtube.com/watch?v="
  const ShortForm := "youtu.be/"
  const EmbedForm := "youtube.com/embed/"
  const Prefixes: seq<string> := [WatchForm, ShortForm, EmbedForm]

  const IdLength: nat := 11

  /** `[A-Za-z0-9_-]` */
  predicate IsIdChar(c: char) {
    ('A' <= c <= 'Z') || ('a' <= c <= 'z') || ('0' <= c <= '9') || c == '_' || c == '-'
  }

  /** What the capture group matches: exactly eleven id characters. */
  predicate IsVideoId(id: string) {
    |id| == IdLength && forall i :: 0 <= i < |id| ==> IsIdChar(id[i])
  }

  /** `form` starts `s` and eleven id characters follow it. */
  predicate MatchesWith(s: string, form: string) {
    form <= s && |form| + IdLength <= |s| && IsVideoId(s[|form|..|form| + IdLength])
  }

  /** Length of the match anchored at the start of `s`: the alternatives are
      tried in order, and one only matches when the id group matches after it. */
  function MatchAt(s: string): (n: Option<nat>)
    ensures n.Some? ==> IdLength <= n.value <= |s| && IsVideoId(s[n.value - IdLength..n.value])
    ensures n.None? <==> !MatchesWith(s, WatchForm) && !MatchesWith(s, ShortForm) && !MatchesWith(s, EmbedForm)
  {
    if MatchesWith(s, WatchForm) then Some(|WatchForm| + IdLength)
    else if MatchesWith(s, ShortForm) then Some(|ShortForm| + IdLength)
    else if MatchesWith(s, EmbedForm) then Some(|EmbedForm| + IdLength)
    else None
  }

  /** The id captured by a match anchored at the start of `s`, if any. */
  function GroupAt(s: string): (g: Option<string>)
    ensures g.Some? ==> IsVideoId(g.value)
  {
    match MatchAt(s)
    case Some(n) => Some(s[n - IdLength..n])
    case None => None
  }

  /** The capture groups of `finditer` over `s`, left to right: after a match
      the scan resumes at its end, otherwise one character further on. */
  function ScanIds(s: string): (ids: seq<string>)
    ensures forall i :: 0 <= i < |ids| ==> IsVideoId(ids[i])
    decreases |s|
  {
    if |s| == 0 then []
    else match MatchAt(s)
      case Some(n) => [s[n - IdLength..n]] + ScanIds(s[n..])
      case None => ScanIds(s[1..])
  }

  /** A match capturing `id` starts somewhere in `s`. */
  ghost predicate LinkedIn(s: string, id: string) {
    exists p :: 0 <= p <= |s| && GroupAt(s[p..]) == Some(id)
  }

  /** Every id the scan reports really is linked in the text. */
  lemma {:induction false} ScannedIdsAreLinked(s: string)
    ensures forall id :: id in ScanIds(s) ==> LinkedIn(s, id)
    decreases |s|
  {
    if |s| > 0 {
      var step := if MatchAt(s).Some? then MatchAt(s).value else 1;
      ScannedIdsAreLinked(s[step..]);
      forall id | id in ScanIds(s)
        ensures LinkedIn(s, id)
      {
        if MatchAt(s).Some? && id == s[step - IdLength..step] {
          assert s[0..] == s;
        } else {
          assert id in ScanIds(s[step..]);
          LinkedShift(s, step, id);
        }
      }
    }
  }

  lemma LinkedShift(s: string, n: nat, id: string)
    requires n <= |s|
    requires LinkedIn(s[n..], id)
    ensures LinkedIn(s, id)
  {
    var p :| 0 <= p <= |s[n..]| && GroupAt(s[n..][p..]) == Some(id);
    assert s[n..][p..] == s[n + p..];
  }

  /** Text with no `y` holds no link: every URL form starts with `y`. */
  lemma {:induction false} SkipWithoutY(a: string, s: string)
    requires 'y' !in a
    ensures ScanIds(a + s) == ScanIds(s)
    decreases |a|
  {
    if |a| > 0 {
      var t := a + s;
      assert t[0] == a[0];
      assert !(WatchForm <= t) && !(ShortForm <= t) && !(EmbedForm <= t) by {
        assert WatchForm[0] == 'y' && ShortForm[0] == 'y' && EmbedForm[0] == 'y';
      }
      assert ScanIds(t) == ScanIds(t[1..]);
      assert t[1..] == a[1..] + s;
      assert 'y' !in a[1..] by {
        assert forall i :: 0 <= i < |a[1..]| ==> a[1..][i] == a[i + 1];
      }
      SkipWithoutY(a[1..], s);
    } else {
      assert a + s == s;
    }
  }

  /** A recognised URL form followed by an id yields that id, and the scan
      resumes right after it. */
  lemma ScanAfterPrefix(k: nat, id: string, rest: string)
    requires k < |Prefixes|
    requires IsVideoId(id)
    ensures ScanIds(Prefixes[k] + id + rest) == [id] + ScanIds(rest)
  {
    var form := Prefixes[k];
    var s := form + id + rest;
    var n := |form| + IdLength;
    assert s[..|form|] == form;
    assert s[|form|..n] == id;
    assert s[n..] == rest;
    assert MatchesWith(s, form);
    if k == 1 {
      assert s[5] == '.' != WatchForm[5];
    } else if k == 2 {
      assert s[12] == 'e' != WatchForm[12];
      assert s[5] == 'b' != ShortForm[5];
    }
    assert MatchAt(s) == Some(n);
  }

  /** Only the first eleven id characters after a URL form are taken, however
      many follow. */
  lemma FirstElevenOnly(k: nat, id: string, more: string)
    requires k < |Prefixes|
    requires IsVideoId(id)
    requires 'y' !in more
    ensures ScanIds(Prefixes[k] + id + more) == [id]
  {
    ScanAfterPrefix(k, id, more);
    SkipWithoutY(more, "");
    assert more + "" == more;
  }

  // ---------------------------------------------------------------------------
  // Board-wide id set

  /** A card as the board listing returns it; either field may be absent. */
  datatype Card = Card(name: Option<string>, desc: Option<string>)

  /** Ids found in one card: its name scanned first, then its description,
      an absent field scanned as "". */
  function CardIds(c: Card): (ids: seq<string>)
    ensures forall i :: 0 <= i < |ids| ==> IsVideoId(ids[i])
  {
    ScanIds(c.name.GetOr("")) + ScanIds(c.desc.GetOr(""))
  }

  /** The id set built by `get_existing_video_ids` from every card listed,
      active or archived. */
  function ExistingVideoIds(cards: seq<Card>): (ids: set<string>)
    ensures forall id :: id in ids ==> IsVideoId(id)
  {
    if |cards| == 0 then {}
    else
      var found := CardIds(cards[|cards| - 1]);
      ExistingVideoIds(cards[..|cards| - 1]) + set i | 0 <= i < |found| :: found[i]
  }

  /** An id is in the board set iff some card links it, in its name or its
      description. */
  lemma {:induction false} ExistingVideoIdsMembers(cards: seq<Card>, id: string)
    ensures id in ExistingVideoIds(cards) <==> exists i :: 0 <= i < |cards| && id in CardIds(cards[i])
  {
    if |cards| > 0 {
      var earlier := cards[..|cards| - 1];
      ExistingVideoIdsMembers(earlier, id);
      assert forall i :: 0 <= i < |earlier| ==> earlier[i] == cards[i];
    }
  }

  // ---------------------------------------------------------------------------
  // Configuration

  const MissingConfigPrefix := "Trello backend: missing required config: "

  /** The names of the empty settings among TRELLO_API_KEY, TRELLO_TOKEN and
      TRELLO_LIST_ID, in that order. */
  function MissingKeys(apiKey: string, token: string, listId: string): (missing: seq<string>)
    ensures |missing| == 0 <==> apiKey != "" && token != "" && listId != ""
    ensures "TRELLO_API_KEY" in missing <==> apiKey == ""
    ensures "TRELLO_TOKEN" in missing <==> token == ""
    ensures "TRELLO_LIST_ID" in missing <==> listId == ""
  {
    (if apiKey == "" then ["TRELLO_API_KEY"] else [])
    + (if token == "" then ["TRELLO_TOKEN"] else [])
    + (if listId == "" then ["TRELLO_LIST_ID"] else [])
  }

  /** `validate_config`: succeeds iff all three settings are non-empty;
      otherwise the error names the empty ones, joined by ", ". */
  function ValidateConfig(apiKey: string, token: string, listId: string): (r: Result<()>)
    ensures r.Ok? <==> apiKey != "" && token != "" && listId != ""
    ensures r.Err? ==> r.message == MissingConfigPrefix + Join(MissingKeys(apiKey, token, listId), ", ")
  {
    var missing := MissingKeys(apiKey, token, listId);
    if |missing| == 0 then Ok(()) else Err(MissingConfigPrefix + Join(missing, ", "))
  }

  // ---------------------------------------------------------------------------
  // Card contents

  /** The card title `"[channel] title"`. */
  function CardName(channelName: string, title: string): (r: string)
    ensures |r| == |channelName| + |title| + 3
    ensures r[0] == '[' && r[1..|channelName| + 1] == channelName
    ensures r[|channelName| + 1..|channelName| + 3] == "] " && r[|channelName| + 3..] == title
  {
    "[" + channelName + "] " + title
  }

  /** When channel names hold no `]`, the card name determines both the
      channel and the title. */
  lemma CardNameInjective(c1: string, t1: string, c2: string, t2: string)
    requires ']' !in c1 && ']' !in c2
    requires CardName(c1, t1) == CardName(c2, t2)
    ensures c1 == c2 && t1 == t2
  {
    var isBracket := (c: char) => c == ']';
    var n := CardName(c1, t1);
    assert n[1..] == c1 + [']'] + (" " + t1);
    assert n[1..] == c2 + [']'] + (" " + t2);
    FirstWhereOfJoin(c1, ']', " " + t1, isBracket);
    FirstWhereOfJoin(c2, ']', " " + t2, isBracket);
  }

  /** The human label of a transcript tier; an unlisted value is shown as is. */
  const TierLabels: map<string, string> :=
    map["1" := "Full captions", "2" := "Whisper transcription", "3" := "Metadata only", "unknown" := "Unknown"]

  function TierLabel(tier: string): (shown: string)
    ensures tier in TierLabels ==> shown == TierLabels[tier]
    ensures tier !in TierLabels ==> shown == tier
  {
    if tier in TierLabels then TierLabels[tier] else tier
  }

  const SourceHeading := "**Source:** "
  const QualityHeading := "**Transcript quality:** "
  const Rule := "---"

  /** `_format_description`: the source line, the tier line, a blank line,
      a rule and a blank line, then the summary verbatim. */
  function FormatDescription(url: string, summary: string, transcriptTier: string): (d: string)
    ensures |summary| <= |d|
    ensures SourceHeading + url + "\n" <= d
    ensures d[|d| - |summary|..] == summary
  {
    var r := SourceHeading + url + "\n" + QualityHeading + TierLabel(transcriptTier) + "\n\n" + Rule + "\n\n" + summary;
    r
  }

  /** Split at its newlines, a description gives back its parts: the source
      line with the URL, the tier line with the label, a blank line, the
      rule, a blank line, and then the summary's own lines. */
  lemma DescriptionLines(url: string, summary: string, transcriptTier: string)
    requires '\n' !in url && '\n' !in transcriptTier
    ensures SplitWhere(FormatDescription(url, summary, transcriptTier), IsNewline)
         == [SourceHeading + url, QualityHeading + TierLabel(transcriptTier), "", Rule, ""] + SplitWhere(summary, IsNewline)
  {
    HeadingLinesFree(url, transcriptTier);
    DescriptionPieces(url, summary, transcriptTier);
    SplitFiveLines(SourceHeading + url, QualityHeading + TierLabel(transcriptTier), "", Rule, "", summary,
                   '\n', IsNewline);
  }

  lemma HeadingLinesFree(url: string, transcriptTier: string)
    requires '\n' !in url && '\n' !in transcriptTier
    ensures Free(SourceHeading + url, IsNewline)
    ensures Free(QualityHeading + TierLabel(transcriptTier), IsNewline)
    ensures Free(Rule, IsNewline) && Free("", IsNewline)
  {
    assert Free(SourceHeading, IsNewline) && Free(QualityHeading, IsNewline) && Free(Rule, IsNewline);
    LabelFree(transcriptTier);
    FreeConcat(SourceHeading, url, IsNewline);
    FreeConcat(QualityHeading, TierLabel(transcriptTier), IsNewline);
  }

  lemma LabelFree(transcriptTier: string)
    requires '\n' !in transcriptTier
    ensures Free(TierLabel(transcriptTier), IsNewline)
  {
    assert forall v :: v in TierLabels.Values ==> '\n' !in v;
  }

  lemma FreeConcat(a: string, b: string, isSep: char -> bool)
    requires Free(a, isSep) && Free(b, isSep)
    ensures Free(a + b, isSep)
  {
    assert forall k :: |a| <= k < |a + b| ==> (a + b)[k] == b[k - |a|];
  }

  lemma DescriptionPieces(url: string, summary: string, transcriptTier: string)
    ensures FormatDescription(url, summary, transcriptTier)
         == (SourceHeading + url) + ['\n'] + ((QualityHeading + TierLabel(transcriptTier)) + ['\n']
            + ("" + ['\n'] + (Rule + ['\n'] + ("" + ['\n'] + summary))))
  {
    assert "\n" == ['\n'] && "\n\n" == ['\n', '\n'];
    Regroup(SourceHeading + url, QualityHeading + TierLabel(transcriptTier), Rule, summary, '\n');
  }

  lemma Regroup(a: string, b: string, r: string, s: string, c: char)
    ensures a + [c] + b + [c, c] + r + [c, c] + s == a + [c] + (b + [c] + ("" + [c] + (r + [c] + ("" + [c] + s))))
  {
    assert [c, c] == [c] + [c];
  }

  /** Five separator-free lines in front of a text split off as five pieces. */
  lemma SplitFiveLines(a: string, b: string, c: string, d: string, e: string, rest: string,
                       sep: char, isSep: char -> bool)
    requires isSep(sep)
    requires Free(a, isSep) && Free(b, isSep) && Free(c, isSep) && Free(d, isSep) && Free(e, isSep)
    ensures SplitWhere(a + [sep] + (b + [sep] + (c + [sep] + (d + [sep] + (e + [sep] + rest)))), isSep)
         == [a, b, c, d, e] + SplitWhere(rest, isSep)
  {
    var lines := SplitWhere(rest, isSep);
    SplitAfter(e, sep, rest, isSep);
    SplitAfter(d, sep, e + [sep] + rest, isSep);
    SplitAfter(c, sep, d + [sep] + (e + [sep] + rest), isSep);
    SplitAfter(b, sep, c + [sep] + (d + [sep] + (e + [sep] + rest)), isSep);
    SplitAfter(a, sep, b + [sep] + (c + [sep] + (d + [sep] + (e + [sep] + rest))), isSep);
    ConsFive(a, b, c, d, e, lines);
  }

  lemma ConsFive<T>(a: T, b: T, c: T, d: T, e: T, rest: seq<T>)
    ensures [a] + ([b] + ([c] + ([d] + ([e] + rest)))) == [a, b, c, d, e] + rest
  {
  }
}
