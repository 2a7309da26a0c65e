/** The matching half of the content pipeline: `_analyze_content`,
    `_extract_context` and `_detect_antibot_page`. The pattern
    `\b{re.escape(variation)}\b` with `re.I` is modelled with `\b` over ASCII
    word characters and ASCII case folding. Sentiment scoring and the text
    extraction that produces `text` are not modelled. */
module Matching {
  import opened Text
  import opened Common

  /** `\b` at position `p` of `t`: exactly one of the characters on either side
      is a word character (positions outside the text count as non-word). */
  predicate WordBoundary(t: string, p: nat)
    requires p <= |t|
  {
    (p > 0 && IsWordChar(t[p - 1])) != (p < |t| && IsWordChar(t[p]))
  }

  /** `\b<v>\b` matches `t` at index `i`, ignoring ASCII case. */
  predicate MatchesAt(t: string, v: string, i: nat) {
    && i + |v| <= |t|
    && LowerStr(t[i..i + |v|]) == LowerStr(v)
    && WordBoundary(t, i)
    && WordBoundary(t, i + |v|)
  }

  /** The leftmost whole-word match of `v` in `t` at or after `from`. */
  function FindMatchFrom(t: string, v: string, from: nat): (r: Option<nat>)
    ensures r.Some? ==> from <= r.value && MatchesAt(t, v, r.value)
    ensures r.Some? ==> forall j :: from <= j < r.value ==> !MatchesAt(t, v, j)
    ensures r.None? ==> forall j :: from <= j ==> !MatchesAt(t, v, j)
    decreases |t| + 1 - from
  {
    if from + |v| > |t| then None
    else if MatchesAt(t, v, from) then Some(from)
    else FindMatchFrom(t, v, from + 1)
  }

  /** `re.search(rf'\b{re.escape(v)}\b', t, re.I)`: where the leftmost match starts. */
  function Search(t: string, v: string): (r: Option<nat>)
    ensures r.Some? ==> MatchesAt(t, v, r.value) && forall j :: 0 <= j < r.value ==> !MatchesAt(t, v, j)
    ensures r.None? ==> forall j :: 0 <= j ==> !MatchesAt(t, v, j)
  {
    FindMatchFrom(t, v, 0)
  }

  /** The `window` default of `_extract_context`. */
  function ContextWindow(c: Crawler): nat {
    match c
    case Enhanced => 150
    case Deep => 100
  }

  function Max(a: int, b: int): int { if a < b then b else a }
  function Min(a: int, b: int): int { if a < b then a else b }

  /** `_extract_context`: the text from `window` characters before the first
      match to `window` characters after it, clamped to the text, with each
      newline replaced by a space and the result stripped; `''` when nothing
      matches. The slice bounds are always in range, and the context never
      exceeds the match plus two windows and holds no newline and no outer
      whitespace (`ContextHoldsMatch` shows it keeps the match). */
  function ExtractContext(t: string, v: string, window: nat): (r: string)
    ensures Search(t, v).None? ==> r == ""
    ensures |r| <= |v| + 2 * window
    ensures '\n' !in r
    ensures r == [] || (!IsSpace(r[0]) && !IsSpace(r[|r| - 1]))
  {
    match Search(t, v)
    case None => ""
    case Some(s) => ContextAround(t, s, |v|, window)
  }

  /** The stripped, newline-free window around `t[s..s + n]`. */
  function ContextAround(t: string, s: nat, n: nat, window: nat): (r: string)
    requires s + n <= |t|
    ensures |r| <= n + 2 * window
    ensures '\n' !in r
    ensures r == [] || (!IsSpace(r[0]) && !IsSpace(r[|r| - 1]))
  {
    Flattened(t, Max(0, s - window), Min(|t|, s + n + window))
  }

  /** `t[lo:hi].replace('\n', ' ').strip()`. */
  function Flattened(t: string, lo: nat, hi: nat): (r: string)
    requires lo <= hi <= |t|
    ensures |r| <= hi - lo
    ensures '\n' !in r
    ensures r == [] || (!IsSpace(r[0]) && !IsSpace(r[|r| - 1]))
  {
    var u := ReplaceChar(t[lo..hi], '\n', ' ');
    var r := Strip(u);
    assert '\n' !in r by {
      assert forall k :: 0 <= k < |r| ==> r[k] in u;
    }
    r
  }

  lemma LowerKeepsClass(c: char)
    ensures Lower(c) == '\n' <==> c == '\n'
    ensures IsSpace(Lower(c)) <==> IsSpace(c)
  {
  }

  /** A piece `w` of `u` that starts and ends with non-whitespace survives the strip. */
  lemma StripKeepsInner(u: string, a: nat, b: nat, w: string)
    requires a < b <= |u| && u[a..b] == w
    requires !IsSpace(u[a]) && !IsSpace(u[b - 1])
    ensures Contains(Strip(u), w)
  {
    var r := Strip(u);
    var i :| 0 <= i <= |u| && TrimmedAt(u, r, i);
    assert i <= a;
    assert b <= i + |r|;
    var piece := r[a - i..b - i];
    forall k | 0 <= k < b - a
      ensures piece[k] == u[a..b][k]
    {
      assert piece[k] == r[a - i + k] == u[i..i + |r|][a - i + k];
    }
    assert piece == w;
    assert OccursAt(r, w, a - i);
  }

  /** Lower-casing keeps an occurrence. */
  lemma ContainsLower(s: string, w: string)
    requires Contains(s, w)
    ensures Contains(LowerStr(s), LowerStr(w))
  {
    var i :| 0 <= i <= |s| && OccursAt(s, w, i);
    LowerStrSlice(s, i, i + |w|);
    assert OccursAt(LowerStr(s), LowerStr(w), i);
  }

  /** The text a match covers has a newline or an outer space only where the
      variation has one. */
  lemma MatchedTextLikeVariation(t: string, v: string, s: nat)
    requires MatchesAt(t, v, s) && v != []
    ensures '\n' !in v ==> '\n' !in t[s..s + |v|]
    ensures IsSpace(t[s]) <==> IsSpace(v[0])
    ensures IsSpace(t[s + |v| - 1]) <==> IsSpace(v[|v| - 1])
  {
    var w := t[s..s + |v|];
    var n := |v|;
    assert LowerStr(w) == LowerStr(v);
    if '\n' !in v {
      forall k | 0 <= k < n
        ensures w[k] != '\n'
      {
        assert w[k] == t[s + k];
        assert LowerStr(w)[k] == LowerStr(v)[k];
        assert v[k] in v;
        LowerKeepsClass(w[k]);
        LowerKeepsClass(v[k]);
      }
    }
    assert LowerStr(w)[0] == LowerStr(v)[0];
    assert LowerStr(w)[n - 1] == LowerStr(v)[n - 1];
    LowerKeepsClass(w[0]);
    LowerKeepsClass(v[0]);
    LowerKeepsClass(w[n - 1]);
    LowerKeepsClass(v[n - 1]);
  }

  /** Replacing newlines in the window leaves a newline-free piece with
      non-space ends untouched. */
  lemma WindowKeepsMatch(t: string, lo: nat, hi: nat, s: nat, n: nat)
    requires lo <= s && 0 < n && s + n <= hi <= |t|
    requires '\n' !in t[s..s + n] && !IsSpace(t[s]) && !IsSpace(t[s + n - 1])
    ensures var u := ReplaceChar(t[lo..hi], '\n', ' ');
            && u[s - lo..s - lo + n] == t[s..s + n]
            && !IsSpace(u[s - lo]) && !IsSpace(u[s - lo + n - 1])
  {
    var u := ReplaceChar(t[lo..hi], '\n', ' ');
    forall k | s <= k < s + n
      ensures u[k - lo] == t[k]
    {
      assert t[s..s + n][k - s] == t[k];
      assert t[lo..hi][k - lo] == t[k];
    }
  }

  lemma FlattenedKeeps(t: string, lo: nat, hi: nat, s: nat, n: nat)
    requires lo <= s && 0 < n && s + n <= hi <= |t|
    requires '\n' !in t[s..s + n] && !IsSpace(t[s]) && !IsSpace(t[s + n - 1])
    ensures Contains(Flattened(t, lo, hi), t[s..s + n])
  {
    WindowKeepsMatch(t, lo, hi, s, n);
    StripKeepsInner(ReplaceChar(t[lo..hi], '\n', ' '), s - lo, s - lo + n, t[s..s + n]);
  }

  /** The window around a newline-free piece with non-space ends keeps it. */
  lemma ContextAroundKeeps(t: string, s: nat, n: nat, window: nat)
    requires 0 < n && s + n <= |t|
    requires '\n' !in t[s..s + n] && !IsSpace(t[s]) && !IsSpace(t[s + n - 1])
    ensures Contains(ContextAround(t, s, n, window), t[s..s + n])
  {
    FlattenedKeeps(t, Max(0, s - window), Min(|t|, s + n + window), s, n);
  }

  /** The context of a match contains the matched variation (ignoring case)
      whenever the variation itself has no newline and no outer whitespace. */
  lemma ContextHoldsMatch(t: string, v: string, window: nat)
    requires Search(t, v).Some?
    requires v != [] && '\n' !in v && !IsSpace(v[0]) && !IsSpace(v[|v| - 1])
    ensures Contains(LowerStr(ExtractContext(t, v, window)), LowerStr(v))
  {
    var s := Search(t, v).value;
    MatchedTextLikeVariation(t, v, s);
    ContextAroundKeeps(t, s, |v|, window);
    var r := ContextAround(t, s, |v|, window);
    ContainsLower(r, t[s..s + |v|]);
    assert LowerStr(t[s..s + |v|]) == LowerStr(v);
    assert ExtractContext(t, v, window) == r;
  }

  /** What `_log_match` records; the timestamp, the sentiment scores and the
      deep crawler's random `source` field are not modelled. */
  datatype MatchRecord = MatchRecord(url: string, variation: string, context: string)

  /** The index of the first variation that occurs as a whole word in `text`. */
  function FirstMatching(text: string, variations: seq<string>, from: nat): (k: Option<nat>)
    ensures k.Some? ==> from <= k.value < |variations| && Search(text, variations[k.value]).Some?
    ensures k.Some? ==> forall j :: from <= j < k.value ==> Search(text, variations[j]).None?
    ensures k.None? ==> forall j :: from <= j < |variations| ==> Search(text, variations[j]).None?
    decreases |variations| - from
  {
    if from >= |variations| then None
    else if Search(text, variations[from]).Some? then Some(from)
    else FirstMatching(text, variations, from + 1)
  }

  /** What `_analyze_content` records for a page: the first variation, in list
      order, that matches, with its context; nothing when none matches. So at
      most one record per page. */
  function PageRecord(c: Crawler, url: string, text: string, variations: seq<string>): (r: Option<MatchRecord>)
    ensures r.None? <==> forall k :: 0 <= k < |variations| ==> Search(text, variations[k]).None?
    ensures r.Some? ==>
              exists k :: && 0 <= k < |variations|
                          && Search(text, variations[k]).Some?
                          && (forall j :: 0 <= j < k ==> Search(text, variations[j]).None?)
                          && r.value == MatchRecord(url, variations[k], ExtractContext(text, variations[k], ContextWindow(c)))
  {
    match FirstMatching(text, variations, 0)
    case None => None
    case Some(k) => Some(MatchRecord(url, variations[k], ExtractContext(text, variations[k], ContextWindow(c))))
  }

  /** `_analyze_content`: tries the variations in list order and stops at the
      first that matches. */
  method AnalyzeContent(c: Crawler, url: string, text: string, variations: seq<string>)
    returns (record: Option<MatchRecord>)
    ensures record == PageRecord(c, url, text, variations)
  {
    var k := 0;
    while k < |variations|
      invariant k <= |variations|
      invariant FirstMatching(text, variations, 0) == FirstMatching(text, variations, k)
    {
      var variation := variations[k];
      if Search(text, variation).Some? {
        var context := ExtractContext(text, variation, ContextWindow(c));
        return Some(MatchRecord(url, variation, context));
      }
      k := k + 1;
    }
    return None;
  }

  /** The marker vocabulary of `_detect_antibot_page`. */
  const AntibotMarkers: seq<string> :=
    ["captcha", "cloudflare", "human verification", "robot", "automated",
     "bot check", "security check", "prove you're human", "ddos protection"]

  function AnyMarker(s: string, markers: seq<string>): (found: bool)
    ensures found <==> exists m :: m in markers && Contains(s, m)
  {
    if markers == [] then false
    else Contains(s, markers[0]) || AnyMarker(s, markers[1..])
  }

  /** `_detect_antibot_page`: some marker is a substring of the lower-cased page. */
  function DetectAntibotPage(page: string): (detected: bool)
    ensures detected <==> exists m :: m in AntibotMarkers && Contains(LowerStr(page), m)
  {
    AnyMarker(LowerStr(page), AntibotMarkers)
  }

  /** Detection ignores case. */
  lemma DetectIgnoresCase(page: string)
    ensures DetectAntibotPage(LowerStr(page)) == DetectAntibotPage(page)
  {
    LowerStrIdempotent(page);
  }

  /** Content around a detected page cannot hide the marker. */
  lemma DetectSurvivesPadding(page: string, before: string, after: string)
    requires DetectAntibotPage(page)
    ensures DetectAntibotPage(before + page + after)
  {
    var lp, lb, la := LowerStr(page), LowerStr(before), LowerStr(after);
    var m :| m in AntibotMarkers && Contains(lp, m);
    LowerStrAppend(before, page);
    LowerStrAppend(before + page, after);
    assert LowerStr(before + page + after) == lb + (lp + la);
    ContainsInAppend(lp, la, m);
    ContainsInAppend(lp + la, lb, m);
  }
}
