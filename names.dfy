/** The string logic of both crawlers' `_collect_target_info` and
    `_generate_name_variations`: splitting the target's name, the variation
    lists, the organisation and keyword extensions and the seed URL. The
    prompts are not modelled; the lines the user types are given as a
    sequence, and running out of lines ends the collection (Python's `input()`
    raises `EOFError`). `list(set(...))` has no defined order; the model keeps
    first occurrences in order, and the contracts state only membership and the
    absence of duplicates. */
module Names {
  import opened Text
  import opened Common

  /** `list(set(s))`: every element of `s` exactly once. */
  function Dedup(s: seq<string>): (r: seq<string>)
    ensures NoDups(r)
    ensures forall x :: x in r <==> x in s
    ensures |r| <= |s|
  {
    if s == [] then []
    else
      var rest := Dedup(s[..|s| - 1]);
      assert forall x :: x in s <==> x in s[..|s| - 1] || x == s[|s| - 1] by {
        assert s == s[..|s| - 1] + [s[|s| - 1]];
      }
      if s[|s| - 1] in rest then rest else rest + [s[|s| - 1]]
  }

  /** `filter(None, s)`: drops the empty strings. */
  function RemoveEmpty(s: seq<string>): (r: seq<string>)
    ensures forall x :: x in r <==> x in s && x != ""
  {
    if s == [] then []
    else (if s[0] == "" then [] else [s[0]]) + RemoveEmpty(s[1..])
  }

  /** The twelve candidates of the enhanced `_generate_name_variations`. */
  function EnhancedCandidates(first: string, middle: string, last: string): seq<string>
    requires first != [] && last != []
  {
    [ first + " " + last,
      last + ", " + first,
      Strip(first + " " + middle + " " + last),
      [first[0]] + ". " + last,
      Strip([first[0]] + ". " + middle + " " + last),
      [first[0]] + last,
      first + "." + last,
      first + "_" + last,
      last + "_" + first,
      first + last,
      first + " " + [last[0]],
      last + " " + first ]
  }

  /** The enhanced `_generate_name_variations`: the non-empty candidates, each once. */
  function EnhancedVariations(first: string, middle: string, last: string): (r: seq<string>)
    requires first != [] && last != []
    ensures NoDups(r) && "" !in r
    ensures forall x :: x in r <==> x in EnhancedCandidates(first, middle, last) && x != ""
  {
    Dedup(RemoveEmpty(EnhancedCandidates(first, middle, last)))
  }

  /** With a non-empty first name the enhanced list holds the full name, the
      reversed form and the initial followed by the last name. */
  lemma EnhancedVariationsHoldBasics(first: string, middle: string, last: string)
    requires first != [] && last != []
    ensures var r := EnhancedVariations(first, middle, last);
            && first + " " + last in r
            && last + ", " + first in r
            && [first[0]] + last in r
  {
    var c := EnhancedCandidates(first, middle, last);
    assert c[0] == first + " " + last && c[1] == last + ", " + first && c[5] == [first[0]] + last;
  }

  /** Without a middle name the middle candidate keeps both spaces: the strip
      removes only outer whitespace, so for tokens `first` and `last` the list
      holds `"first  last"` beside `"first last"`. */
  lemma EmptyMiddleKeepsDoubleSpace(first: string, last: string)
    requires IsToken(first) && IsToken(last)
    ensures first + "  " + last in EnhancedVariations(first, "", last)
    ensures first + " " + last in EnhancedVariations(first, "", last)
  {
    var s := first + " " + "" + " " + last;
    assert s == first + "  " + last;
    assert s[0] == first[0] && first[0] in first;
    assert s[|s| - 1] == last[|last| - 1] && last[|last| - 1] in last;
    StripUnchanged(s);
    var c := EnhancedCandidates(first, "", last);
    assert c[0] == first + " " + last && c[2] == s;
  }

  /** The eight candidates of the deep `_generate_name_variations`; iterating
      over `first[0]` yields the single initial. */
  function DeepCandidates(first: string, last: string): seq<string>
    requires first != []
  {
    [ first + " " + last,
      last + ", " + first,
      first + " A. " + last,
      first + " B. " + last,
      first + " C. " + last,
      last + "-" + first,
      [first[0]] + "." + last,
      last + [first[0]] ]
  }

  /** The deep `_generate_name_variations`: each candidate once. */
  function DeepVariations(first: string, last: string): (r: seq<string>)
    requires first != []
    ensures NoDups(r)
    ensures forall x :: x in r <==> x in DeepCandidates(first, last)
  {
    Dedup(DeepCandidates(first, last))
  }

  lemma DeepVariationsHoldAll(first: string, last: string)
    requires first != []
    ensures var r := DeepVariations(first, last);
            && first + " " + last in r && last + ", " + first in r
            && first + " A. " + last in r && first + " B. " + last in r && first + " C. " + last in r
            && last + "-" + first in r
            && [first[0]] + "." + last in r && last + [first[0]] in r
  {
    var c := DeepCandidates(first, last);
    assert c[0] in c && c[1] in c && c[2] in c && c[3] in c;
    assert c[4] in c && c[5] in c && c[6] in c && c[7] in c;
  }

  /** The name as the enhanced crawler splits it: the first token, the tokens
      between, joined by single spaces, and the last token; `None` for fewer
      than two tokens (the crawler exits). */
  datatype FullName = FullName(first: string, middle: string, last: string)

  function EnhancedNameParts(name: string): (r: Option<FullName>)
    ensures r.None? <==> |Split(name)| < 2
    ensures r.Some? ==> IsToken(r.value.first) && IsToken(r.value.last)
  {
    var parts := Split(name);
    if |parts| < 2 then None
    else
      assert parts[0] in parts && parts[|parts| - 1] in parts;
      Some(FullName(parts[0], if |parts| > 2 then Join(parts[1..|parts| - 1], " ") else "", parts[|parts| - 1]))
  }

  /** A name typed as tokens separated by single spaces splits back into the
      same first, middle and last names. */
  lemma EnhancedNamePartsRoundTrip(first: string, middle: seq<string>, last: string)
    requires IsToken(first) && IsToken(last)
    requires forall t :: t in middle ==> IsToken(t)
    ensures EnhancedNameParts(Join([first] + middle + [last], " ")) == Some(FullName(first, Join(middle, " "), last))
  {
    var parts := [first] + middle + [last];
    SplitJoin(parts);
    assert parts[1..|parts| - 1] == middle;
  }

  /** `first, last = name.split()[:2]` in the deep crawler: the first two tokens;
      with fewer than two the unpacking raises, shown as `None`. */
  function DeepNameParts(name: string): (r: Option<(string, string)>)
    ensures r.None? <==> |Split(name)| < 2
    ensures r.Some? ==> IsToken(r.value.0) && IsToken(r.value.1)
  {
    var parts := Split(name);
    if |parts| < 2 then None
    else
      assert parts[0] in parts && parts[1] in parts;
      Some((parts[0], parts[1]))
  }

  lemma DeepNamePartsTakesFirstTwo(parts: seq<string>)
    requires |parts| >= 2
    requires forall t :: t in parts ==> IsToken(t)
    ensures DeepNameParts(Join(parts, " ")) == Some((parts[0], parts[1]))
  {
    SplitJoin(parts);
  }

  /** The three entries the enhanced crawler appends for a non-empty
      organisation; nothing is appended for an empty one. */
  function WithOrg(variations: seq<string>, first: string, last: string, org: string): (r: seq<string>)
    ensures variations <= r
    ensures org == "" ==> r == variations
    ensures org != "" ==> |r| == |variations| + 3
    ensures forall k :: |variations| <= k < |r| ==> Contains(r[k], org) && Contains(r[k], first + " " + last)
    ensures "" !in variations ==> "" !in r
  {
    if org == "" then variations
    else
      var name := first + " " + last;
      var added := [name + " " + org, name + ", " + org, org + " " + name];
      assert OccursAt(added[0], org, |name| + 1) && OccursAt(added[0], name, 0);
      assert OccursAt(added[1], org, |name| + 2) && OccursAt(added[1], name, 0);
      assert OccursAt(added[2], org, 0) && OccursAt(added[2], name, |org| + 1);
      variations + added
  }

  /** Each typed line as `input().strip()` returns it. */
  function StrippedAll(input: seq<string>): (r: seq<string>)
    ensures |r| == |input| && forall i :: 0 <= i < |input| ==> r[i] == Strip(input[i])
  {
    seq(|input|, i requires 0 <= i < |input| => Strip(input[i]))
  }

  /** Index of the first empty line from `lines[k]` on. */
  function FirstBlank(lines: seq<string>, k: nat): (r: Option<nat>)
    ensures r.Some? ==> k <= r.value < |lines| && lines[r.value] == ""
    ensures r.Some? ==> forall i :: k <= i < r.value ==> lines[i] != ""
    ensures r.None? ==> forall i :: k <= i < |lines| ==> lines[i] != ""
    decreases |lines| - k
  {
    if k >= |lines| then None
    else if lines[k] == "" then Some(k)
    else FirstBlank(lines, k + 1)
  }

  /** Skipping lines that are not empty does not move the first empty one. */
  lemma {:induction false} FirstBlankSkip(lines: seq<string>, k: nat, i: nat)
    requires k <= i <= |lines|
    requires forall j :: k <= j < i ==> lines[j] != ""
    ensures FirstBlank(lines, k) == FirstBlank(lines, i)
    decreases i - k
  {
    if k < i {
      FirstBlankSkip(lines, k + 1, i);
    }
  }

  /** The `while True: line = input().strip(); if not line: break` loops, over
      the typed lines as `input().strip()` returns them: reads from `lines[k]`
      on until a line is empty. `next` is the line after the empty one; `None`
      when the input ends first. */
  method ReadUntilBlank(lines: seq<string>, k: nat) returns (block: Option<seq<string>>, next: nat)
    requires k <= |lines|
    ensures block.Some? <==> FirstBlank(lines, k).Some?
    ensures block.Some? ==>
              && next == FirstBlank(lines, k).value + 1
              && block.value == lines[k..next - 1]
              && "" !in block.value
  {
    var read: seq<string> := [];
    var i := k;
    while i < |lines|
      invariant k <= i <= |lines|
      invariant read == lines[k..i]
      invariant forall j :: k <= j < i ==> lines[j] != ""
    {
      var line := lines[i];
      if line == "" {
        FirstBlankSkip(lines, k, i);
        return Some(read), i + 1;
      }
      read := read + [line];
      i := i + 1;
    }
    FirstBlankSkip(lines, k, i);
    return None, i;
  }

  /** What `_collect_target_info` leaves behind: the variation list and the queue. */
  datatype TargetInfo = TargetInfo(variations: seq<string>, queue: seq<string>)

  /** The enhanced `_collect_target_info` over the lines typed: name, primary
      seed, further seeds up to a blank line, organisation, keywords up to a
      blank line. `None` when the name has fewer than two tokens or the input
      ends early. */
  method CollectEnhancedTarget(input: seq<string>) returns (r: Option<TargetInfo>)
    ensures var lines := StrippedAll(input);
            r.Some? <==> && |input| >= 2
                         && |Split(lines[0])| >= 2
                         && FirstBlank(lines, 2).Some?
                         && FirstBlank(lines, 2).value + 1 < |input|
                         && FirstBlank(lines, FirstBlank(lines, 2).value + 2).Some?
    ensures r.Some? ==>
              var lines := StrippedAll(input);
              var n := EnhancedNameParts(lines[0]).value;
              var blank := FirstBlank(lines, 2).value;
              var end := FirstBlank(lines, blank + 2).value;
              && r.value.variations
                   == WithOrg(EnhancedVariations(n.first, n.middle, n.last), n.first, n.last, lines[blank + 1])
                      + lines[blank + 2..end]
              && r.value.queue == [lines[1]] + lines[2..blank]
    ensures r.Some? ==> "" !in r.value.variations && "" !in r.value.queue[1..]
  {
    if |input| < 2 {
      return None;
    }
    var lines := StrippedAll(input);
    var name := EnhancedNameParts(lines[0]);
    if name.None? {
      return None;
    }
    var n := name.value;
    var variations := EnhancedVariations(n.first, n.middle, n.last);
    var seeds, next := ReadUntilBlank(lines, 2);
    if seeds.None? || next >= |lines| {
      return None;
    }
    var queue := [lines[1]] + seeds.value;
    var org := lines[next];
    var withOrg := WithOrg(variations, n.first, n.last, org);
    var keywords, _ := ReadUntilBlank(lines, next + 1);
    if keywords.None? {
      return None;
    }
    var all := withOrg + keywords.value;
    assert queue[1..] == seeds.value;
    return Some(TargetInfo(all, queue));
  }

  /** The deep crawler's seed URL: `https://` is put in front unless it already
      starts with `http://` or `https://`. */
  function DefaultScheme(url: string): (r: string)
    ensures StartsWith(r, "http://") || StartsWith(r, "https://")
    ensures StartsWith(url, "http://") || StartsWith(url, "https://") ==> r == url
    ensures !(StartsWith(url, "http://") || StartsWith(url, "https://")) ==> r == "https://" + url
  {
    if !StartsWith(url, "http://") && !StartsWith(url, "https://") then "https://" + url else url
  }

  lemma DefaultSchemeIdempotent(url: string)
    ensures DefaultScheme(DefaultScheme(url)) == DefaultScheme(url)
  {
  }

  /** The entries the deep crawler appends after the generated variations. */
  function CompanyVariations(first: string, last: string): seq<string>
    requires first != []
  {
    [first + "@company.com", last + "@company.com", [first[0]] + last]
  }

  /** The deep `_collect_target_info` over the lines typed: name, then seed
      URL. `None` when the name has fewer than two tokens (the unpacking raises)
      or the input ends early. */
  function CollectDeepTarget(input: seq<string>): (r: Option<TargetInfo>)
    ensures r.Some? <==> |input| >= 2 && |Split(Strip(input[0]))| >= 2
    ensures r.Some? ==>
              var (first, last) := DeepNameParts(Strip(input[0])).value;
              && r.value.variations == DeepVariations(first, last) + CompanyVariations(first, last)
              && r.value.queue == [DefaultScheme(Strip(input[1]))]
  {
    if |input| < 2 then None
    else
      match DeepNameParts(Strip(input[0]))
      case None => None
      case Some((first, last)) =>
        Some(TargetInfo(DeepVariations(first, last) + CompanyVariations(first, last),
                        [DefaultScheme(Strip(input[1]))]))
  }
}
