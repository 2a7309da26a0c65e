/** URL validation and normalisation shared by both crawlers' `_enqueue_links`. */
module Urls {
  import opened Text
  import opened Common

  /** The three fields of `urlparse(url)` the crawlers read. Parsing itself is
      the standard library's and is taken as given. */
  datatype UrlParts = UrlParts(scheme: string, netloc: string, path: string)

  /** `_get_blacklist()`: hosts that are never enqueued. */
  function Blacklist(c: Crawler): set<string> {
    match c
    case Enhanced =>
      {"localhost", "127.0.0.1", "example.com", "facebook.com",
       "twitter.com", "instagram.com", "youtube.com", "tiktok.com"}
    case Deep =>
      {"localhost", "127.0.0.1", "example.com"}
  }

  /** The alternatives of the extension pattern in `_validate_url`, with
      `docx?`, `xlsx?` and `mp[34]` written out. */
  function BlockedExtensions(c: Crawler): set<string> {
    match c
    case Enhanced =>
      {"jpg", "jpeg", "png", "gif", "pdf", "doc", "docx", "xls", "xlsx",
       "zip", "rar", "gz", "tar", "mp3", "mp4", "avi", "mov"}
    case Deep =>
      {"jpg", "jpeg", "png", "gif", "pdf", "doc", "docx", "xls", "xlsx"}
  }

  lemma BlockedExtensionsHaveNoDot(c: Crawler)
    ensures forall e :: e in BlockedExtensions(c) ==> '.' !in e
  {
  }

  /** `p`, ignoring ASCII case, ends in a dot followed by `e`. */
  predicate EndsWithDotExt(p: string, e: string) {
    EndsWith(LowerStr(p), "." + e)
  }

  /** What `re.search(r'\.(e1|e2|...)$', path, re.I)` finds: an alternative,
      preceded by a dot, at the very end of the path or just before a final
      newline (where `$` also matches). This is the reference reading of the
      pattern; `HasBlockedExtension` is how the model evaluates it. */
  ghost predicate MatchesExtensionPattern(path: string, exts: set<string>) {
    exists e | e in exts ::
      || EndsWithDotExt(path, e)
      || (|path| > 0 && path[|path| - 1] == '\n' && EndsWithDotExt(path[..|path| - 1], e))
  }

  /** The characters after the last dot of `p`, if it has one. */
  function AfterLastDot(p: string): (r: Option<string>)
    ensures r.None? ==> '.' !in p
    ensures r.Some? ==> |r.value| < |p| && p[|p| - |r.value| - 1] == '.'
                        && r.value == p[|p| - |r.value|..] && '.' !in r.value
  {
    if p == [] then None
    else if p[|p| - 1] == '.' then Some([])
    else
      match AfterLastDot(p[..|p| - 1])
      case None =>
        assert p == p[..|p| - 1] + [p[|p| - 1]];
        None
      case Some(t) =>
        assert p[|p| - |t| - 1..] == p[..|p| - 1][|p| - 1 - |t|..] + [p[|p| - 1]];
        Some(t + [p[|p| - 1]])
  }

  /** The extension after the last dot of `p` is, ignoring case, one of `exts`. */
  predicate BlockedTail(p: string, exts: set<string>) {
    var t := AfterLastDot(p);
    t.Some? && LowerStr(t.value) in exts
  }

  /** The model's evaluation of the extension pattern (see `MatchesExtensionPattern`). */
  predicate HasBlockedExtension(path: string, exts: set<string>) {
    || BlockedTail(path, exts)
    || (|path| > 0 && path[|path| - 1] == '\n' && BlockedTail(path[..|path| - 1], exts))
  }

  lemma {:induction false} AfterLastDotAt(p: string, k: nat)
    requires k < |p| && p[k] == '.'
    requires forall j :: k < j < |p| ==> p[j] != '.'
    ensures AfterLastDot(p) == Some(p[k + 1..])
    decreases |p|
  {
    if k < |p| - 1 {
      AfterLastDotAt(p[..|p| - 1], k);
      assert p[k + 1..] == p[..|p| - 1][k + 1..] + [p[|p| - 1]];
    }
  }

  lemma LowerIsDot(c: char)
    ensures Lower(c) == '.' <==> c == '.'
  {
  }

  lemma BlockedTailEndsWithExt(p: string, exts: set<string>)
    requires BlockedTail(p, exts)
    ensures EndsWithDotExt(p, LowerStr(AfterLastDot(p).value))
  {
    var t := AfterLastDot(p).value;
    var n := |p| - |t| - 1;
    LowerStrSlice(p, n, |p|);
    assert p[n..] == "." + t;
    LowerStrAppend(".", t);
    assert LowerStr(".") == ".";
    var lp := LowerStr(p);
    assert lp[n..] == "." + LowerStr(t);
    assert |lp| - |"." + LowerStr(t)| == n;
  }

  lemma ExtEndsBlockedTail(p: string, e: string)
    requires '.' !in e
    requires EndsWithDotExt(p, e)
    ensures AfterLastDot(p).Some? && LowerStr(AfterLastDot(p).value) == e
  {
    var k := |p| - |e| - 1;
    var lp := LowerStr(p);
    assert lp[k..] == "." + e;
    assert lp[k] == '.';
    LowerIsDot(p[k]);
    forall j | k < j < |p|
      ensures p[j] != '.'
    {
      assert lp[j] == lp[k..][j - k];
      assert e[j - k - 1] in e;
      LowerIsDot(p[j]);
    }
    AfterLastDotAt(p, k);
    LowerStrSlice(p, k + 1, |p|);
    assert lp[k + 1..] == lp[k..][1..];
  }

  /** Taking the text after the last dot decides the alternation correctly,
      because no alternative contains a dot. */
  lemma BlockedTailMatchesPattern(p: string, exts: set<string>)
    requires forall e :: e in exts ==> '.' !in e
    ensures BlockedTail(p, exts) <==> exists e | e in exts :: EndsWithDotExt(p, e)
  {
    if BlockedTail(p, exts) {
      BlockedTailEndsWithExt(p, exts);
    }
    if e :| e in exts && EndsWithDotExt(p, e) {
      ExtEndsBlockedTail(p, e);
    }
  }

  lemma HasBlockedExtensionMatchesPattern(path: string, exts: set<string>)
    requires forall e :: e in exts ==> '.' !in e
    ensures HasBlockedExtension(path, exts) <==> MatchesExtensionPattern(path, exts)
  {
    BlockedTailMatchesPattern(path, exts);
    if |path| > 0 {
      BlockedTailMatchesPattern(path[..|path| - 1], exts);
    }
  }

  /** `_validate_url`: false exactly when the scheme is not http/https, the host
      is blacklisted, or the path ends in a blocked extension. */
  function ValidateUrl(c: Crawler, u: UrlParts): (ok: bool)
    ensures ok <==> && (u.scheme == "http" || u.scheme == "https")
                    && u.netloc !in Blacklist(c)
                    && !MatchesExtensionPattern(u.path, BlockedExtensions(c))
  {
    HasBlockedExtensionMatchesPattern(u.path, BlockedExtensions(c));
    if u.scheme != "http" && u.scheme != "https" then false
    else if u.netloc in Blacklist(c) then false
    else if HasBlockedExtension(u.path, BlockedExtensions(c)) then false
    else true
  }

  /** `split('#')[0]` in the enhanced `_enqueue_links`: drops the fragment
      (section 3.5 of RFC 3986). */
  function StripFragment(url: string): (r: string)
    ensures r <= url && '#' !in r
    ensures |r| < |url| ==> url[|r|] == '#'
  {
    BeforeFirst(url, '#')
  }

  /** `split('#')[0].split('?')[0]` in the deep `_enqueue_links`: drops the
      fragment, then the query (sections 3.4 and 3.5 of RFC 3986). */
  function StripFragmentAndQuery(url: string): (r: string)
    ensures r <= url && '#' !in r && '?' !in r
    ensures |r| < |url| ==> url[|r|] == '#' || url[|r|] == '?'
  {
    var f := StripFragment(url);
    var r := BeforeFirst(f, '?');
    assert forall i :: 0 <= i < |r| ==> r[i] == f[i];
    r
  }

  /** How each crawler normalises a joined link before validating it. */
  function Normalize(c: Crawler, url: string): (r: string)
    ensures r <= url && '#' !in r
    ensures c == Deep ==> '?' !in r
    ensures c == Enhanced && |r| < |url| ==> url[|r|] == '#'
    ensures c == Deep && |r| < |url| ==> url[|r|] == '#' || url[|r|] == '?'
  {
    match c
    case Enhanced => StripFragment(url)
    case Deep => StripFragmentAndQuery(url)
  }

  lemma {:induction false} BeforeFirstSplit(a: string, b: string, d: char)
    requires d !in a
    ensures BeforeFirst(a + [d] + b, d) == a
  {
    if a != [] {
      assert a[0] in a;
      assert (a + [d] + b)[1..] == a[1..] + [d] + b;
      BeforeFirstSplit(a[1..], b, d);
    }
  }

  /** Normalising twice is normalising once. */
  lemma NormalizeIdempotent(c: Crawler, url: string)
    ensures Normalize(c, Normalize(c, url)) == Normalize(c, url)
  {
    var r := Normalize(c, url);
    BeforeFirstNoDelimiter(r, '#');
    if c == Deep {
      BeforeFirstNoDelimiter(r, '?');
    }
  }

  /** A PDF link is rejected whatever the case of its extension. */
  lemma UpperCasePdfRejected(c: Crawler)
    ensures !ValidateUrl(c, UrlParts("https", "news.org", "/files/report.PDF"))
  {
    var p := "/files/report.PDF";
    assert LowerStr(p)[|p| - 4..] == ".pdf";
    assert EndsWithDotExt(p, "pdf");
  }

  /** A URL and the same URL with a fragment normalise identically. */
  lemma FragmentIgnored(c: Crawler, url: string, fragment: string)
    requires '#' !in url
    requires c == Enhanced || '?' !in url
    ensures Normalize(c, url + "#" + fragment) == Normalize(c, url)
  {
    BeforeFirstSplit(url, fragment, '#');
    BeforeFirstNoDelimiter(url, '#');
    if c == Deep {
      BeforeFirstNoDelimiter(url, '?');
    }
  }
}
