/** The handful of Python string operations the pipeline relies on:
    `str.isspace`, `str.strip`, `str.split(sep)`, `sep.join`, `str.lower`
    on ASCII, and decimal digit strings as `re`'s `\d+` plus `int()` read them. */
module Text {

  /** Python's `str.isspace` for one character. */
  predicate IsSpace(c: char) {
    || ('\U{9}' <= c <= '\U{D}')
    || ('\U{1C}' <= c <= '\U{20}')
    || c == '\U{85}' || c == '\U{A0}' || c == '\U{1680}'
    || ('\U{2000}' <= c <= '\U{200A}')
    || c == '\U{2028}' || c == '\U{2029}' || c == '\U{202F}'
    || c == '\U{205F}' || c == '\U{3000}'
  }

  /** The characters at which Python's `str.splitlines` breaks a line
      (`\r\n` counts as one break there, as two breaks here; the extra
      piece is empty). */
  predicate IsLineBreak(c: char) {
    || c == '\n' || c == '\r' || c == '\U{B}' || c == '\U{C}'
    || c == '\U{1C}' || c == '\U{1D}' || c == '\U{1E}'
    || c == '\U{85}' || c == '\U{2028}' || c == '\U{2029}'
  }

  /** The one separator of `str.split("\n")`. */
  predicate IsNewline(c: char) {
    c == '\n'
  }

  lemma LineBreakIsSpace(c: char)
    ensures IsLineBreak(c) ==> IsSpace(c)
  {
  }

  predicate IsDigit(c: char) {
    '0' <= c <= '9'
  }

  /** No character of `s` satisfies `isSep`. */
  predicate Free(s: string, isSep: char -> bool) {
    forall k :: 0 <= k < |s| ==> !isSep(s[k])
  }

  predicate AllDigits(s: string) {
    forall i :: 0 <= i < |s| ==> IsDigit(s[i])
  }

  // ---------------------------------------------------------------------------
  // Searching and splitting

  /** Index of the first character satisfying `isSep`, or `|s|` when there is none. */
  function FirstWhere(s: string, isSep: char -> bool): (i: nat)
    ensures i <= |s|
    ensures forall j :: 0 <= j < i ==> !isSep(s[j])
    ensures i < |s| ==> isSep(s[i])
  {
    if |s| == 0 then 0
    else if isSep(s[0]) then 0
    else 1 + FirstWhere(s[1..], isSep)
  }

  /** `s` cut at every separator character, as Python's `str.split(sep)`
      does for a one-character `sep`: `k` separators give `k + 1` pieces,
      empty pieces included. */
  function SplitWhere(s: string, isSep: char -> bool): (parts: seq<string>)
    ensures |parts| >= 1
    ensures forall i :: 0 <= i < |parts| ==> Free(parts[i], isSep)
    decreases |s|
  {
    var i := FirstWhere(s, isSep);
    if i == |s| then [s] else [s[..i]] + SplitWhere(s[i + 1..], isSep)
  }

  /** Python's `sep.join(parts)`. */
  function Join(parts: seq<string>, sep: string): string {
    if |parts| == 0 then ""
    else if |parts| == 1 then parts[0]
    else parts[0] + sep + Join(parts[1..], sep)
  }

  /** Splitting on a single separator character and joining back with it
      gives the original string. */
  lemma {:induction false} JoinSplit(s: string, sep: char, isSep: char -> bool)
    requires forall c :: isSep(c) <==> c == sep
    ensures Join(SplitWhere(s, isSep), [sep]) == s
    decreases |s|
  {
    var i := FirstWhere(s, isSep);
    if i < |s| {
      var rest := SplitWhere(s[i + 1..], isSep);
      JoinSplit(s[i + 1..], sep, isSep);
      assert SplitWhere(s, isSep) == [s[..i]] + rest;
      assert s == s[..i] + [sep] + s[i + 1..];
    }
  }

  lemma FirstWhereOfJoin(a: string, sep: char, b: string, isSep: char -> bool)
    requires isSep(sep)
    requires Free(a, isSep)
    ensures FirstWhere(a + [sep] + b, isSep) == |a|
    decreases |a|
  {
    if |a| > 0 {
      FirstWhereOfJoin(a[1..], sep, b, isSep);
      assert (a + [sep] + b)[1..] == a[1..] + [sep] + b;
    }
  }

  /** The first piece of a split is what precedes the first separator. */
  lemma SplitAfter(a: string, sep: char, b: string, isSep: char -> bool)
    requires isSep(sep)
    requires Free(a, isSep)
    ensures SplitWhere(a + [sep] + b, isSep) == [a] + SplitWhere(b, isSep)
  {
    var s := a + [sep] + b;
    FirstWhereOfJoin(a, sep, b, isSep);
    assert s[..|a|] == a;
    assert s[|a| + 1..] == b;
  }

  lemma FirstWhereNone(a: string, isSep: char -> bool)
    requires Free(a, isSep)
    ensures FirstWhere(a, isSep) == |a|
  {
  }

  /** Joining separator-free pieces and splitting again gives the pieces back. */
  lemma {:induction false} SplitJoin(parts: seq<string>, sep: char, isSep: char -> bool)
    requires |parts| >= 1
    requires isSep(sep)
    requires forall i :: 0 <= i < |parts| ==> Free(parts[i], isSep)
    ensures SplitWhere(Join(parts, [sep]), isSep) == parts
    decreases |parts|
  {
    if |parts| == 1 {
      FirstWhereNone(parts[0], isSep);
    } else {
      var head := parts[0];
      var tail := Join(parts[1..], [sep]);
      var s := head + [sep] + tail;
      assert Join(parts, [sep]) == s;
      assert Free(head, isSep);
      assert FirstWhere(s, isSep) == |head| by {
        FirstWhereOfJoin(head, sep, tail, isSep);
      }
      assert s[..|head|] == head;
      assert s[|head| + 1..] == tail;
      assert SplitWhere(s, isSep) == [head] + SplitWhere(tail, isSep);
      SplitJoin(parts[1..], sep, isSep);
      assert [head] + parts[1..] == parts;
    }
  }

  /** The last piece of `s.split(sep)` (Python's `s.split(sep)[-1]`): the
      text after the last separator, or all of `s` when there is none. */
  function LastField(s: string, sep: char): (r: string)
    ensures sep !in r
    ensures |r| <= |s| && r == s[|s| - |r|..]
    ensures sep !in s ==> r == s
  {
    if |s| == 0 then ""
    else if s[|s| - 1] == sep then ""
    else LastField(s[..|s| - 1], sep) + [s[|s| - 1]]
  }

  /** Whatever precedes the last separator is dropped. */
  lemma {:induction false} LastFieldAfter(a: string, sep: char, b: string)
    requires sep !in b
    ensures LastField(a + [sep] + b, sep) == b
    decreases |b|
  {
    var s := a + [sep] + b;
    if |b| > 0 {
      var last := |b| - 1;
      assert s[|s| - 1] == b[last] != sep;
      assert LastField(s, sep) == LastField(s[..|s| - 1], sep) + [b[last]];
      assert s[..|s| - 1] == a + [sep] + b[..last];
      assert sep !in b[..last];
      LastFieldAfter(a, sep, b[..last]);
      assert b == b[..last] + [b[last]];
    }
  }

  // ---------------------------------------------------------------------------
  // Stripping

  /** Number of whitespace characters at the front of `s`. */
  function LeadingSpaces(s: string): (k: nat)
    ensures k <= |s|
    ensures forall i :: 0 <= i < k ==> IsSpace(s[i])
    ensures k < |s| ==> !IsSpace(s[k])
  {
    FirstWhere(s, c => !IsSpace(c))
  }

  /** Number of whitespace characters at the end of `s`. */
  function TrailingSpaces(s: string): (k: nat)
    ensures k <= |s|
    ensures forall i :: |s| - k <= i < |s| ==> IsSpace(s[i])
    ensures k < |s| ==> !IsSpace(s[|s| - k - 1])
  {
    if |s| == 0 then 0
    else if IsSpace(s[|s| - 1]) then 1 + TrailingSpaces(s[..|s| - 1])
    else 0
  }

  /** Python's `str.strip()` with no argument. */
  function Strip(s: string): (r: string)
    ensures r == "" || (!IsSpace(r[0]) && !IsSpace(r[|r| - 1]))
    ensures r == "" <==> forall i :: 0 <= i < |s| ==> IsSpace(s[i])
    ensures s == "" || (!IsSpace(s[0]) && !IsSpace(s[|s| - 1])) ==> r == s
  {
    var a := LeadingSpaces(s);
    var t := s[a..];
    var b := TrailingSpaces(t);
    var r := t[..|t| - b];
    StripEnds(s, a, t, b, r);
    StripEmpty(s, a, t, b, r);
    StripUnpadded(s, a, t, b, r);
    r
  }

  /** The pieces of `Strip`: `a` leading and `b` trailing spaces cut off. */
  predicate StripParts(s: string, a: nat, t: string, b: nat, r: string) {
    && a == LeadingSpaces(s) && t == s[a..]
    && b == TrailingSpaces(t) && r == t[..|t| - b]
  }

  lemma StripEnds(s: string, a: nat, t: string, b: nat, r: string)
    requires StripParts(s, a, t, b, r)
    ensures r == "" || (!IsSpace(r[0]) && !IsSpace(r[|r| - 1]))
  {
    if r != "" {
      assert r[0] == s[a];
      assert r[|r| - 1] == t[|t| - b - 1];
    }
  }

  lemma StripEmpty(s: string, a: nat, t: string, b: nat, r: string)
    requires StripParts(s, a, t, b, r)
    ensures r == "" <==> forall i :: 0 <= i < |s| ==> IsSpace(s[i])
  {
    if r != "" {
      assert !IsSpace(s[a]);
    }
  }

  lemma StripUnpadded(s: string, a: nat, t: string, b: nat, r: string)
    requires StripParts(s, a, t, b, r)
    ensures s == "" || (!IsSpace(s[0]) && !IsSpace(s[|s| - 1])) ==> r == s
  {
    if s != "" && !IsSpace(s[0]) && !IsSpace(s[|s| - 1]) {
      assert a == 0;
      assert t == s;
      assert b == 0;
    }
  }

  /** A whitespace character in front of `s` is stripped away. */
  lemma StripDropsFront(c: char, s: string)
    requires IsSpace(c)
    ensures Strip([c] + s) == Strip(s)
  {
    var x := [c] + s;
    assert x[1..] == s;
    assert LeadingSpaces(x) == 1 + LeadingSpaces(s);
    assert x[LeadingSpaces(x)..] == s[LeadingSpaces(s)..];
  }

  /** Leading whitespace is counted the same once more text follows a non-space. */
  lemma {:induction false} LeadingSpacesOfLonger(s: string, c: char)
    requires !(forall i :: 0 <= i < |s| ==> IsSpace(s[i]))
    ensures LeadingSpaces(s + [c]) == LeadingSpaces(s)
  {
    var k := LeadingSpaces(s);
    var x := s + [c];
    assert x[k] == s[k];
    assert forall i :: 0 <= i < k ==> x[i] == s[i];
    assert FirstWhere(x, c => !IsSpace(c)) == k by {
      FirstIsUnique(x, c => !IsSpace(c), k);
    }
  }

  /** Any index with no hit before it and a hit at it is the first hit. */
  lemma {:induction false} FirstIsUnique(s: string, hit: char -> bool, k: nat)
    requires k < |s| && hit(s[k])
    requires forall j :: 0 <= j < k ==> !hit(s[j])
    ensures FirstWhere(s, hit) == k
  {
    if k > 0 {
      assert !hit(s[0]);
      FirstIsUnique(s[1..], hit, k - 1);
    }
  }

  /** A whitespace character after `s` is stripped away. */
  lemma StripDropsBack(s: string, c: char)
    requires IsSpace(c)
    ensures Strip(s + [c]) == Strip(s)
  {
    var x := s + [c];
    if forall i :: 0 <= i < |s| ==> IsSpace(s[i]) {
      assert forall i :: 0 <= i < |x| ==> IsSpace(x[i]) by {
        assert forall i :: 0 <= i < |s| ==> x[i] == s[i];
      }
    } else {
      LeadingSpacesOfLonger(s, c);
      var a := LeadingSpaces(s);
      var t := s[a..];
      assert x[a..] == t + [c];
      assert (t + [c])[..|t|] == t;
      assert TrailingSpaces(t + [c]) == 1 + TrailingSpaces(t);
    }
  }

  /** Whitespace added in front of `s` does not change `s.strip()`. */
  lemma {:induction false} StripPaddedFront(pre: string, s: string)
    requires forall i :: 0 <= i < |pre| ==> IsSpace(pre[i])
    ensures Strip(pre + s) == Strip(s)
  {
    if |pre| > 0 {
      var rest := pre[1..];
      assert Strip(pre + s) == Strip(rest + s) by {
        assert pre + s == [pre[0]] + (rest + s);
        StripDropsFront(pre[0], rest + s);
      }
      assert forall i :: 0 <= i < |rest| ==> IsSpace(rest[i]) by {
        assert forall i :: 0 <= i < |rest| ==> rest[i] == pre[i + 1];
      }
      StripPaddedFront(rest, s);
    } else {
      assert pre + s == s;
    }
  }

  /** Whitespace added after `s` does not change `s.strip()`. */
  lemma {:induction false} StripPaddedBack(s: string, post: string)
    requires forall i :: 0 <= i < |post| ==> IsSpace(post[i])
    ensures Strip(s + post) == Strip(s)
  {
    if |post| > 0 {
      var last := |post| - 1;
      var rest := post[..last];
      assert Strip(s + post) == Strip(s + rest) by {
        assert s + post == (s + rest) + [post[last]];
        StripDropsBack(s + rest, post[last]);
      }
      assert forall i :: 0 <= i < |rest| ==> IsSpace(rest[i]);
      StripPaddedBack(s, rest);
    } else {
      assert s + post == s;
    }
  }

  // ---------------------------------------------------------------------------
  // Case and digits

  /** Python's `str.lower` restricted to ASCII letters. */
  function LowerChar(c: char): char {
    if 'A' <= c <= 'Z' then (c as int - 'A' as int + 'a' as int) as char else c
  }

  function Lower(s: string): (r: string)
    ensures |r| == |s|
    ensures forall i :: 0 <= i < |s| ==> r[i] == LowerChar(s[i])
  {
    if |s| == 0 then "" else [LowerChar(s[0])] + Lower(s[1..])
  }

  lemma {:induction false} LowerConcat(a: string, b: string)
    ensures Lower(a + b) == Lower(a) + Lower(b)
  {
    if |a| == 0 {
      assert a + b == b;
    } else {
      assert (a + b)[1..] == a[1..] + b;
      LowerConcat(a[1..], b);
    }
  }

  /** Whitespace is left alone by lower-casing. */
  lemma LowerSpaces(s: string)
    requires forall i :: 0 <= i < |s| ==> IsSpace(s[i])
    ensures Lower(s) == s
  {
  }

  /** Python's `int()` applied to a run of ASCII digits (leading zeros allowed). */
  function DigitsValue(ds: string): nat
    requires AllDigits(ds)
  {
    if |ds| == 0 then 0
    else DigitsValue(ds[..|ds| - 1]) * 10 + (ds[|ds| - 1] as int - '0' as int)
  }

  function DigitChar(d: nat): (c: char)
    requires d < 10
    ensures IsDigit(c)
  {
    (d + '0' as int) as char
  }

  /** The decimal spelling of `n` (Python's `str(n)`). */
  function Decimal(n: nat): (ds: string)
    ensures |ds| >= 1
    ensures AllDigits(ds)
  {
    if n < 10 then [DigitChar(n)] else Decimal(n / 10) + [DigitChar(n % 10)]
  }

  /** Reading back a decimal spelling gives the number. */
  lemma {:induction false} DecimalValue(n: nat)
    ensures DigitsValue(Decimal(n)) == n
  {
    if n >= 10 {
      DecimalValue(n / 10);
      var ds := Decimal(n);
      assert ds[..|ds| - 1] == Decimal(n / 10);
    }
  }
}
