/** The link handling both crawlers' `_enqueue_links` share: joining has
    happened already (each link is the joined URL, or `None` where `urljoin`
    or `urlparse` raised), then every link is normalised, validated, collected
    once, and the already visited ones are dropped. */
module Frontier {
  import opened Text
  import opened Common
  import opened Urls

  /** The URL a joined link contributes to `new_links`, if it passes `_validate_url`. */
  function LinkAt(c: Crawler, parse: string -> UrlParts, link: Option<string>): (r: set<string>)
    ensures |r| <= 1
    ensures forall u :: u in r ==> ValidateUrl(c, parse(u)) && '#' !in u && (c == Deep ==> '?' !in u)
  {
    if link.Some? && ValidateUrl(c, parse(Normalize(c, link.value))) then {Normalize(c, link.value)} else {}
  }

  /** `new_links`: the normalised forms of the links that pass `_validate_url`.
      Each has lost its fragment (and, for the deep crawler, its query). */
  function LinkTargets(c: Crawler, parse: string -> UrlParts, links: seq<Option<string>>): set<string>
  {
    UnionOf(links, (l: Option<string>) => LinkAt(c, parse, l))
  }

  /** The union of `f(x)` over the elements of `xs`. */
  function UnionOf<T>(xs: seq<T>, f: T -> set<string>): set<string>
  {
    if xs == [] then {} else UnionOf(xs[..|xs| - 1], f) + f(xs[|xs| - 1])
  }

  lemma {:induction false} UnionOfMembers<T>(xs: seq<T>, f: T -> set<string>)
    ensures forall u :: u in UnionOf(xs, f) <==> exists i :: 0 <= i < |xs| && u in f(xs[i])
  {
    if xs != [] {
      var init := xs[..|xs| - 1];
      UnionOfMembers(init, f);
      forall u | u in UnionOf(xs, f)
        ensures exists i :: 0 <= i < |xs| && u in f(xs[i])
      {
        if u in UnionOf(init, f) {
          var i :| 0 <= i < |init| && u in f(init[i]);
          assert init[i] == xs[i];
        } else {
          assert u in f(xs[|xs| - 1]);
        }
      }
      forall u, i | 0 <= i < |xs| && u in f(xs[i])
        ensures u in UnionOf(xs, f)
      {
        if i < |init| {
          assert init[i] == xs[i];
        }
      }
    }
  }

  /** A URL is in `new_links` exactly when some link contributes it. */
  lemma LinkTargetsMembers(c: Crawler, parse: string -> UrlParts, links: seq<Option<string>>)
    ensures forall u :: u in LinkTargets(c, parse, links) <==> exists i :: 0 <= i < |links| && u in LinkAt(c, parse, links[i])
  {
    UnionOfMembers(links, (l: Option<string>) => LinkAt(c, parse, l));
  }

  /** Every URL `_enqueue_links` may add passes `_validate_url` and carries no
      fragment (and, for the deep crawler, no query). */
  lemma LinkTargetsClean(c: Crawler, parse: string -> UrlParts, links: seq<Option<string>>, u: string)
    requires u in LinkTargets(c, parse, links)
    ensures ValidateUrl(c, parse(u)) && '#' !in u && (c == Deep ==> '?' !in u)
  {
    LinkTargetsMembers(c, parse, links);
    var i :| 0 <= i < |links| && u in LinkAt(c, parse, links[i]);
  }

  /** The loop that fills `new_links`, followed by `new_links - self.visited_urls`;
      the batch lists each remaining URL once. */
  method CollectNewLinks(c: Crawler, parse: string -> UrlParts, links: seq<Option<string>>, visited: set<string>)
    returns (batch: seq<string>)
    ensures NoDups(batch)
    ensures forall u :: u in batch <==> u in LinkTargets(c, parse, links) && u !in visited
  {
    batch := [];
    var i := 0;
    while i < |links|
      invariant i <= |links|
      invariant NoDups(batch)
      invariant forall u :: u in batch <==> u in LinkTargets(c, parse, links[..i]) && u !in visited
    {
      assert links[..i + 1][..i] == links[..i];
      var link := links[i];
      if link.Some? {
        var url := Normalize(c, link.value);
        if ValidateUrl(c, parse(url)) && url !in visited && url !in batch {
          batch := batch + [url];
        }
      }
      i := i + 1;
    }
    assert links[..i] == links;
  }

  /** Every URL on `host` comes before every URL elsewhere. */
  predicate HostOrdered(parse: string -> UrlParts, host: string, s: seq<string>) {
    forall i, j :: 0 <= i < j < |s| && parse(s[j]).netloc == host ==> parse(s[i]).netloc == host
  }

  /** `[url for url in s if urlparse(url).netloc == host]`, or `!=` when `on` is false. */
  function OnHost(parse: string -> UrlParts, host: string, s: seq<string>, on: bool): (r: seq<string>)
    ensures forall u :: u in r <==> u in s && ((parse(u).netloc == host) == on)
    ensures NoDups(s) ==> NoDups(r)
  {
    if s == [] then []
    else
      var rest := OnHost(parse, host, s[1..], on);
      assert forall u :: u in s[1..] ==> u in s;
      if (parse(s[0]).netloc == host) == on then
        assert NoDups(s) ==> s[0] !in s[1..];
        [s[0]] + rest
      else rest
  }

  lemma {:induction false} OnHostSplitsLength(parse: string -> UrlParts, host: string, s: seq<string>)
    ensures |OnHost(parse, host, s, true)| + |OnHost(parse, host, s, false)| == |s|
  {
    if s != [] {
      OnHostSplitsLength(parse, host, s[1..]);
    }
  }

  /** `same_domain + other_domain` in the enhanced `_enqueue_links`: the same
      URLs, each still once, with the base host's ones first. */
  function SameHostFirst(parse: string -> UrlParts, host: string, s: seq<string>): (r: seq<string>)
    ensures |r| == |s|
    ensures forall u :: u in r <==> u in s
    ensures NoDups(s) ==> NoDups(r)
    ensures HostOrdered(parse, host, r)
  {
    var on := OnHost(parse, host, s, true);
    var off := OnHost(parse, host, s, false);
    OnHostSplitsLength(parse, host, s);
    var r := on + off;
    assert forall k :: 0 <= k < |on| ==> on[k] in on;
    assert forall k :: 0 <= k < |off| ==> off[k] in off;
    assert forall k :: |on| <= k < |r| ==> r[k] == off[k - |on|];
    r
  }
}
