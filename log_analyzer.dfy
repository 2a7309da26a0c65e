/** `CrawlerLogAnalyzer.parse_log` (utils/log_analyzer.py): one pass over the
    lines of the enhanced crawler's log that tracks the time range, the URLs
    processed, the time from `Processing:` to `Added … new URLs to queue`, the
    strategies tried and the error lines. The leftmost
    `\d{4}-\d{2}-\d{2} \d{2}:\d{2}:\d{2},\d{3}` match of a line and its parse
    by `strptime` are taken as given: each line carries its timestamp as an
    integer (milliseconds, say), or none. */
module LogAnalysis {
  import opened Text
  import opened Common

  datatype LogLine = LogLine(stamp: Option<int>, text: string)

  /** The fields `parse_log` fills. `strategies` is the `Counter` (a missing
      name counts 0) and `urlTimes` the `defaultdict(list)`. */
  datatype Analysis = Analysis(
    start: Option<int>,
    end: Option<int>,
    urls: set<string>,
    urlTimes: map<string, seq<int>>,
    strategies: map<string, nat>,
    errors: seq<string>)

  const EmptyAnalysis := Analysis(None, None, {}, map[], map[], [])

  /** The analysis with the loop's locals `current_url` and `url_start_time`. */
  datatype State = State(a: Analysis, currentUrl: Option<string>, urlStartTime: Option<int>)

  /** Length of the run of `\w` characters that starts `s`. */
  function WordRun(s: string): (n: nat)
    ensures n <= |s|
    ensures forall k :: 0 <= k < n ==> IsWordChar(s[k])
    ensures n < |s| ==> !IsWordChar(s[n])
  {
    if |s| > 0 && IsWordChar(s[0]) then 1 + WordRun(s[1..]) else 0
  }

  /** `https?://[^\s]+` matches at the start of `s`; the match is the whole
      run of non-whitespace characters. */
  predicate UrlAt(s: string) {
    var w := s[..WordLength(s)];
    (StartsWith(w, "http://") && |w| > 7) || (StartsWith(w, "https://") && |w| > 8)
  }

  /** `Processing: (https?://[^\s]+)` matches `s` at index `i`. */
  predicate ProcessingAt(s: string, i: nat) {
    OccursAt(s, "Processing: ", i) && UrlAt(s[i + 12..])
  }

  /** The leftmost match of the processing pattern at or after `from`. */
  function FirstProcessing(s: string, from: nat): (r: Option<nat>)
    ensures r.Some? ==> from <= r.value && ProcessingAt(s, r.value)
    ensures r.Some? ==> forall j :: from <= j < r.value ==> !ProcessingAt(s, j)
    ensures r.None? ==> forall j :: from <= j ==> !ProcessingAt(s, j)
    decreases |s| + 1 - from
  {
    if from + 12 > |s| then None
    else if ProcessingAt(s, from) then Some(from)
    else FirstProcessing(s, from + 1)
  }

  /** `group(1)` of `re.search(r'Processing: (https?://[^\s]+)', s)`. */
  function ProcessedUrl(s: string): (r: Option<string>)
    ensures r.Some? ==> StartsWith(r.value, "http") && forall c :: c in r.value ==> !IsSpace(c)
  {
    match FirstProcessing(s, 0)
    case None => None
    case Some(i) =>
      var t := s[i + 12..];
      var u := t[..WordLength(t)];
      assert forall c :: c in u ==> !IsSpace(c) by {
        assert forall k :: 0 <= k < |u| ==> u[k] == t[k];
      }
      assert u[..4] == "http";
      Some(u)
  }

  /** `strategy: (_\w+)` matches `s` at index `i`. */
  predicate StrategyAt(s: string, i: nat) {
    OccursAt(s, "strategy: _", i) && WordRun(s[i + 10..]) >= 2
  }

  function FirstStrategy(s: string, from: nat): (r: Option<nat>)
    ensures r.Some? ==> from <= r.value && StrategyAt(s, r.value)
    ensures r.Some? ==> forall j :: from <= j < r.value ==> !StrategyAt(s, j)
    ensures r.None? ==> forall j :: from <= j ==> !StrategyAt(s, j)
    decreases |s| + 1 - from
  {
    if from + 11 > |s| then None
    else if StrategyAt(s, from) then Some(from)
    else FirstStrategy(s, from + 1)
  }

  /** `group(1)` of `re.search(r'strategy: (_\w+)', s)`: `_` and the longest
      run of word characters after it. */
  function StrategyName(s: string): (r: Option<string>)
    ensures r.Some? ==> |r.value| >= 2 && r.value[0] == '_' && forall c :: c in r.value ==> IsWordChar(c)
  {
    match FirstStrategy(s, 0)
    case None => None
    case Some(i) =>
      var t := s[i + 10..];
      var n := WordRun(t);
      assert t[0] == '_' by {
        assert s[i..i + 11][10] == '_';
      }
      assert forall c :: c in t[..n] ==> IsWordChar(c) by {
        assert forall k :: 0 <= k < n ==> t[..n][k] == t[k];
      }
      Some(t[..n])
  }

  /** The line passes `'Processing:' in line and timestamp_match` and the URL
      pattern matches: the URL it names. */
  function ProcessingUrl(line: LogLine): Option<string> {
    if line.stamp.Some? && Contains(line.text, "Processing:") then ProcessedUrl(line.text) else None
  }

  predicate AddedLine(text: string) {
    Contains(text, "Added") && Contains(text, "new URLs to queue")
  }

  /** The strategy a line is counted for, if any. */
  function LineStrategy(text: string): Option<string> {
    if Contains(text, "strategy:") then StrategyName(text) else None
  }

  predicate ErrorLine(text: string) {
    Contains(text, "[ERROR]") || Contains(text, "[WARNING]")
  }

  /** The entry an `[ERROR]` or `[WARNING]` line adds to `errors`. */
  function ErrorEntry(line: LogLine): Option<string> {
    if ErrorLine(line.text) then Some(Strip(line.text)) else None
  }

  /** What the tests of the loop body find in one line. The tests only read
      the line, so evaluating them before the updates changes nothing. */
  datatype LineFacts = LineFacts(
    stamp: Option<int>,
    url: Option<string>,
    added: bool,
    strategy: Option<string>,
    error: Option<string>)

  function Classify(line: LogLine): LineFacts {
    LineFacts(line.stamp, ProcessingUrl(line), AddedLine(line.text), LineStrategy(line.text), ErrorEntry(line))
  }

  function ClassifyAll(lines: seq<LogLine>): (facts: seq<LineFacts>)
    ensures |facts| == |lines| && forall i :: 0 <= i < |lines| ==> facts[i] == Classify(lines[i])
  {
    seq(|lines|, i requires 0 <= i < |lines| => Classify(lines[i]))
  }

  /** A `Counter` lookup: a missing key counts 0. */
  function Count(m: map<string, nat>, k: string): nat {
    if k in m then m[k] else 0
  }

  /** `counter[k] += 1`. */
  function Tally(m: map<string, nat>, k: string): map<string, nat> {
    m[k := Count(m, k) + 1]
  }

  /** A `defaultdict(list)` lookup. */
  function Durations(m: map<string, seq<int>>, k: string): seq<int> {
    if k in m then m[k] else []
  }

  /** The timestamp block: widen the time range. */
  function TrackTime(s: State, stamp: Option<int>): State {
    var a := s.a;
    var start := if stamp.Some? && (a.start.None? || stamp.value < a.start.value) then stamp else a.start;
    var end := if stamp.Some? && (a.end.None? || stamp.value > a.end.value) then stamp else a.end;
    s.(a := a.(start := start, end := end))
  }

  /** The `Processing:` block: a timestamped line naming a URL makes it the
      pending one. */
  function TrackProcessing(s: State, f: LineFacts): State {
    match f.url
    case None => s
    case Some(u) => State(s.a.(urls := s.a.urls + {u}), Some(u), f.stamp)
  }

  /** The `Added … new URLs to queue` block: a timestamped line records the
      pending URL's duration and clears it. */
  function TrackCompletion(s: State, f: LineFacts): State {
    if f.added && s.currentUrl.Some? && s.urlStartTime.Some? && f.stamp.Some? then
      var u := s.currentUrl.value;
      var d := f.stamp.value - s.urlStartTime.value;
      State(s.a.(urlTimes := s.a.urlTimes[u := Durations(s.a.urlTimes, u) + [d]]), None, None)
    else s
  }

  /** The strategy block. */
  function TrackStrategy(s: State, f: LineFacts): State {
    match f.strategy
    case None => s
    case Some(name) => s.(a := s.a.(strategies := Tally(s.a.strategies, name)))
  }

  /** The error block. */
  function TrackErrors(s: State, f: LineFacts): State {
    match f.error
    case None => s
    case Some(e) => s.(a := s.a.(errors := s.a.errors + [e]))
  }

  /** One iteration of the `for line in f` loop body. */
  function Step(s: State, f: LineFacts): State {
    TrackErrors(TrackStrategy(TrackCompletion(TrackProcessing(TrackTime(s, f.stamp), f), f), f), f)
  }

  /** The loop run over the lines' facts from state `s`. */
  function Replay(s: State, facts: seq<LineFacts>): State
    decreases |facts|
  {
    if facts == [] then s else Step(Replay(s, facts[..|facts| - 1]), facts[|facts| - 1])
  }

  lemma ReplaySnoc(s: State, facts: seq<LineFacts>, i: nat)
    requires i < |facts|
    ensures Replay(s, facts[..i + 1]) == Step(Replay(s, facts[..i]), facts[i])
  {
    assert facts[..i + 1][..i] == facts[..i];
  }

  const Fresh := State(EmptyAnalysis, None, None)

  /** `parse_log` on a freshly constructed analyzer. */
  function Analyze(lines: seq<LogLine>): Analysis {
    Replay(Fresh, ClassifyAll(lines)).a
  }

  /** The body of the `for line in f` loop, on the fields and the two locals,
      given what its tests find in the line. */
  method ParseLine(s: State, f: LineFacts) returns (r: State)
    ensures r == Step(s, f)
  {
    var start, end, urls, times, counts, errs := s.a.start, s.a.end, s.a.urls, s.a.urlTimes, s.a.strategies, s.a.errors;
    var currentUrl, urlStartTime := s.currentUrl, s.urlStartTime;
    if f.stamp.Some? {
      if start.None? || f.stamp.value < start.value {
        start := f.stamp;
      }
      if end.None? || f.stamp.value > end.value {
        end := f.stamp;
      }
    }
    if f.url.Some? {
      currentUrl := f.url;
      urlStartTime := f.stamp;
      urls := urls + {f.url.value};
    }
    if f.added && currentUrl.Some? && urlStartTime.Some? {
      if f.stamp.Some? {
        var u := currentUrl.value;
        times := times[u := Durations(times, u) + [f.stamp.value - urlStartTime.value]];
        currentUrl := None;
        urlStartTime := None;
      }
    }
    if f.strategy.Some? {
      counts := Tally(counts, f.strategy.value);
    }
    if f.error.Some? {
      errs := errs + [f.error.value];
    }
    r := State(Analysis(start, end, urls, times, counts, errs), currentUrl, urlStartTime);
  }

  class CrawlerLogAnalyzer {
    var startTime: Option<int>
    var endTime: Option<int>
    var urlsProcessed: set<string>
    var urlTimes: map<string, seq<int>>
    var strategies: map<string, nat>
    var errors: seq<string>

    function Fields(): Analysis
      reads this
    {
      Analysis(startTime, endTime, urlsProcessed, urlTimes, strategies, errors)
    }

    constructor ()
      ensures Fields() == EmptyAnalysis
    {
      startTime, endTime := None, None;
      urlsProcessed, urlTimes, strategies, errors := {}, map[], map[], [];
    }

    /** `parse_log` over the lines of the file (reading it is not modelled).
        The loop works on local copies of the fields, written back at the end. */
    method ParseLog(lines: seq<LogLine>)
      modifies this
      ensures Fields() == Replay(State(old(Fields()), None, None), ClassifyAll(lines)).a
    {
      var start: Option<int>, end: Option<int> := startTime, endTime;
      var urls: set<string>, times: map<string, seq<int>> := urlsProcessed, urlTimes;
      var counts: map<string, nat>, errs: seq<string> := strategies, errors;
      var currentUrl: Option<string> := None;
      var urlStartTime: Option<int> := None;
      ghost var init := State(old(Fields()), None, None);
      ghost var facts := ClassifyAll(lines);
      assert Replay(init, facts[..0]) == init;
      var i := 0;
      while i < |lines|
        invariant i <= |lines|
        invariant State(Analysis(start, end, urls, times, counts, errs), currentUrl, urlStartTime) == Replay(init, facts[..i])
      {
        ReplaySnoc(init, facts, i);
        var f := Classify(lines[i]);
        var next := ParseLine(State(Analysis(start, end, urls, times, counts, errs), currentUrl, urlStartTime), f);
        start, end, urls, times, counts, errs := next.a.start, next.a.end, next.a.urls, next.a.urlTimes, next.a.strategies, next.a.errors;
        currentUrl, urlStartTime := next.currentUrl, next.urlStartTime;
        i := i + 1;
      }
      assert facts[..i] == facts;
      startTime, endTime, urlsProcessed, urlTimes, strategies, errors := start, end, urls, times, counts, errs;
    }
  }

  /** Only the timestamp block touches the time range. */
  lemma StepKeepsRange(s: State, f: LineFacts)
    ensures Step(s, f).a.start == TrackTime(s, f.stamp).a.start
    ensures Step(s, f).a.end == TrackTime(s, f.stamp).a.end
  {
  }

  /** The time range over the facts of a line sequence. */
  lemma {:induction false} RangeOfFacts(facts: seq<LineFacts>)
    ensures var a := Replay(Fresh, facts).a;
            && (a.start.None? <==> forall i :: 0 <= i < |facts| ==> facts[i].stamp.None?)
            && (a.end.None? <==> a.start.None?)
            && (a.start.Some? ==> exists i :: 0 <= i < |facts| && facts[i].stamp == a.start)
            && (a.end.Some? ==> exists i :: 0 <= i < |facts| && facts[i].stamp == a.end)
            && (forall i :: 0 <= i < |facts| && facts[i].stamp.Some? ==>
                  a.start.value <= facts[i].stamp.value <= a.end.value)
    decreases |facts|
  {
    if facts != [] {
      var n := |facts| - 1;
      var init := facts[..n];
      RangeOfFacts(init);
      assert forall i :: 0 <= i < n ==> init[i] == facts[i];
      var s := Replay(Fresh, init);
      StepKeepsRange(s, facts[n]);
      var a := Replay(Fresh, facts).a;
      assert a.start == TrackTime(s, facts[n].stamp).a.start;
      assert a.end == TrackTime(s, facts[n].stamp).a.end;
      forall i | 0 <= i < |facts| && facts[i].stamp.Some?
        ensures a.start.value <= facts[i].stamp.value <= a.end.value
      {
        if i < n {
          assert init[i].stamp.Some?;
        }
      }
    }
  }

  /** The earliest and latest timestamps of the log: both unset when no line
      has one, otherwise attained by some line and bounding every line. */
  lemma TimeRange(lines: seq<LogLine>)
    ensures var a := Analyze(lines);
            && (a.start.None? <==> forall i :: 0 <= i < |lines| ==> lines[i].stamp.None?)
            && (a.end.None? <==> a.start.None?)
            && (a.start.Some? ==> exists i :: 0 <= i < |lines| && lines[i].stamp == a.start)
            && (a.end.Some? ==> exists i :: 0 <= i < |lines| && lines[i].stamp == a.end)
            && (forall i :: 0 <= i < |lines| && lines[i].stamp.Some? ==>
                  a.start.value <= lines[i].stamp.value <= a.end.value)
  {
    var facts := ClassifyAll(lines);
    RangeOfFacts(facts);
    assert forall i :: 0 <= i < |lines| ==> facts[i].stamp == lines[i].stamp;
  }

  lemma StartNotAfterEnd(lines: seq<LogLine>)
    requires Analyze(lines).start.Some?
    ensures Analyze(lines).end.Some? && Analyze(lines).start.value <= Analyze(lines).end.value
  {
    TimeRange(lines);
    var i :| 0 <= i < |lines| && lines[i].stamp == Analyze(lines).start;
  }

  /** Only the processing block touches `urls_processed`. */
  lemma StepAddsUrl(s: State, f: LineFacts)
    ensures f.url.None? ==> Step(s, f).a.urls == s.a.urls
    ensures f.url.Some? ==> Step(s, f).a.urls == s.a.urls + {f.url.value}
  {
  }

  lemma {:induction false} UrlsOfFacts(facts: seq<LineFacts>)
    ensures forall u :: u in Replay(Fresh, facts).a.urls <==> exists i :: 0 <= i < |facts| && facts[i].url == Some(u)
    decreases |facts|
  {
    if facts != [] {
      var n := |facts| - 1;
      var init := facts[..n];
      UrlsOfFacts(init);
      assert forall i :: 0 <= i < n ==> init[i] == facts[i];
      StepAddsUrl(Replay(Fresh, init), facts[n]);
    }
  }

  /** `urls_processed` is exactly the set of URLs named by timestamped
      `Processing:` lines. */
  lemma UrlsProcessed(lines: seq<LogLine>)
    ensures forall u :: u in Analyze(lines).urls <==> exists i :: 0 <= i < |lines| && ProcessingUrl(lines[i]) == Some(u)
  {
    var facts := ClassifyAll(lines);
    UrlsOfFacts(facts);
    assert forall i :: 0 <= i < |lines| ==> facts[i].url == ProcessingUrl(lines[i]);
  }

  /** Throughout the loop the pending URL and every key of `url_times` are in
      `urls_processed`. */
  predicate KeysProcessed(s: State) {
    && (forall u :: u in s.a.urlTimes ==> u in s.a.urls)
    && (s.currentUrl.Some? ==> s.currentUrl.value in s.a.urls)
  }

  lemma {:induction false} KeysProcessedKept(facts: seq<LineFacts>)
    ensures KeysProcessed(Replay(Fresh, facts))
    decreases |facts|
  {
    if facts != [] {
      KeysProcessedKept(facts[..|facts| - 1]);
    }
  }

  /** Every key of `url_times` is a processed URL. */
  lemma UrlTimesKeysProcessed(lines: seq<LogLine>)
    ensures forall u :: u in Analyze(lines).urlTimes ==> u in Analyze(lines).urls
  {
    KeysProcessedKept(ClassifyAll(lines));
  }

  /** The elements `f` picks out of `xs`, in order. */
  function Collect<T, U>(xs: seq<T>, f: T -> Option<U>): seq<U>
    decreases |xs|
  {
    if xs == [] then []
    else Collect(xs[..|xs| - 1], f) + (match f(xs[|xs| - 1]) case None => [] case Some(y) => [y])
  }

  /** Two sequences whose elements pick out the same values collect the same. */
  lemma {:induction false} CollectAgree<T, U, V>(xs: seq<T>, f: T -> Option<V>, ys: seq<U>, g: U -> Option<V>)
    requires |xs| == |ys| && forall i :: 0 <= i < |xs| ==> f(xs[i]) == g(ys[i])
    ensures Collect(xs, f) == Collect(ys, g)
    decreases |xs|
  {
    if xs != [] {
      var n := |xs| - 1;
      CollectAgree(xs[..n], f, ys[..n], g);
    }
  }

  /** The number of elements of `xs` that satisfy `p`. */
  function CountWhere<T>(xs: seq<T>, p: T -> bool): nat
    decreases |xs|
  {
    if xs == [] then 0 else CountWhere(xs[..|xs| - 1], p) + (if p(xs[|xs| - 1]) then 1 else 0)
  }

  lemma {:induction false} CountAgree<T, U>(xs: seq<T>, p: T -> bool, ys: seq<U>, q: U -> bool)
    requires |xs| == |ys| && forall i :: 0 <= i < |xs| ==> p(xs[i]) == q(ys[i])
    ensures CountWhere(xs, p) == CountWhere(ys, q)
    decreases |xs|
  {
    if xs != [] {
      var n := |xs| - 1;
      CountAgree(xs[..n], p, ys[..n], q);
    }
  }

  /** Only the strategy block touches `strategies`. */
  lemma StepTallies(s: State, f: LineFacts, name: string)
    ensures Count(Step(s, f).a.strategies, name) == Count(s.a.strategies, name) + (if f.strategy == Some(name) then 1 else 0)
  {
  }

  lemma {:induction false} StrategiesOfFacts(facts: seq<LineFacts>, name: string)
    ensures Count(Replay(Fresh, facts).a.strategies, name) == CountWhere(facts, (f: LineFacts) => f.strategy == Some(name))
    decreases |facts|
  {
    if facts != [] {
      var n := |facts| - 1;
      StrategiesOfFacts(facts[..n], name);
      StepTallies(Replay(Fresh, facts[..n]), facts[n], name);
    }
  }

  /** Number of lines counted for strategy `name`. */
  function StrategyLines(lines: seq<LogLine>, name: string): nat {
    CountWhere(lines, (line: LogLine) => LineStrategy(line.text) == Some(name))
  }

  /** `strategies[name]` is the number of lines whose `strategy: (_\w+)` match
      names `name`. */
  lemma StrategiesCounted(lines: seq<LogLine>, name: string)
    ensures Count(Analyze(lines).strategies, name) == StrategyLines(lines, name)
  {
    var facts := ClassifyAll(lines);
    StrategiesOfFacts(facts, name);
    CountAgree(facts, (f: LineFacts) => f.strategy == Some(name), lines, (line: LogLine) => LineStrategy(line.text) == Some(name));
  }

  /** Only the error block touches `errors`. */
  lemma StepCollectsError(s: State, f: LineFacts)
    ensures Step(s, f).a.errors == s.a.errors + (match f.error case None => [] case Some(e) => [e])
  {
  }

  function FactError(f: LineFacts): Option<string> {
    f.error
  }

  lemma {:induction false} ErrorsOfFacts(facts: seq<LineFacts>)
    ensures Replay(Fresh, facts).a.errors == Collect(facts, FactError)
    decreases |facts|
  {
    if facts != [] {
      var n := |facts| - 1;
      ErrorsOfFacts(facts[..n]);
      StepCollectsError(Replay(Fresh, facts[..n]), facts[n]);
    }
  }

  /** The stripped `[ERROR]` and `[WARNING]` lines, in file order. */
  function ErrorLines(lines: seq<LogLine>): seq<string> {
    Collect(lines, ErrorEntry)
  }

  lemma ErrorsCollected(lines: seq<LogLine>)
    ensures Analyze(lines).errors == ErrorLines(lines)
  {
    var facts := ClassifyAll(lines);
    ErrorsOfFacts(facts);
    CollectAgree(facts, FactError, lines, ErrorEntry);
  }

  /** `d` is the gap between a line of `facts` naming `u` and an `Added` line
      at or after it. */
  predicate Timed(facts: seq<LineFacts>, u: string, d: int) {
    exists i, j :: && 0 <= i <= j < |facts|
                   && facts[i].url == Some(u) && facts[i].stamp.Some?
                   && facts[j].added && facts[j].stamp.Some?
                   && d == facts[j].stamp.value - facts[i].stamp.value
  }

  /** Every recorded duration is such a gap, and a pending URL was named by a
      line carrying the pending start time. */
  predicate DurationsExplained(facts: seq<LineFacts>, times: map<string, seq<int>>,
                               current: Option<string>, since: Option<int>) {
    && (forall u, k :: u in times && 0 <= k < |times[u]| ==> Timed(facts, u, times[u][k]))
    && (current.Some? ==> exists i :: 0 <= i < |facts| && facts[i].url == current && facts[i].stamp == since)
  }

  /** Only the processing and completion blocks touch `url_times` and the
      pending URL. */
  lemma StepTimes(s: State, f: LineFacts)
    ensures var c := TrackCompletion(TrackProcessing(s, f), f);
            && Step(s, f).a.urlTimes == c.a.urlTimes
            && Step(s, f).currentUrl == c.currentUrl
            && Step(s, f).urlStartTime == c.urlStartTime
  {
  }

  lemma TimedGrows(init: seq<LineFacts>, f: LineFacts, u: string, d: int)
    requires Timed(init, u, d)
    ensures Timed(init + [f], u, d)
  {
    var i, j :| && 0 <= i <= j < |init|
                && init[i].url == Some(u) && init[i].stamp.Some?
                && init[j].added && init[j].stamp.Some?
                && d == init[j].stamp.value - init[i].stamp.value;
    assert (init + [f])[i] == init[i] && (init + [f])[j] == init[j];
  }

  /** The processing block keeps the pending URL explained by the lines so far. */
  lemma PendingStep(init: seq<LineFacts>, f: LineFacts, s: State)
    requires s.currentUrl.Some? ==> exists i :: 0 <= i < |init| && init[i].url == s.currentUrl && init[i].stamp == s.urlStartTime
    ensures var p := TrackProcessing(s, f);
            p.currentUrl.Some? ==> exists i :: 0 <= i < |init| + 1 && (init + [f])[i].url == p.currentUrl && (init + [f])[i].stamp == p.urlStartTime
  {
    var facts := init + [f];
    if f.url.Some? {
      assert facts[|init|] == f;
    } else if s.currentUrl.Some? {
      var i :| 0 <= i < |init| && init[i].url == s.currentUrl && init[i].stamp == s.urlStartTime;
      assert facts[i] == init[i];
    }
  }

  /** A `Processing:` line that is not also an `Added` line replaces the
      pending URL and its start time and records no duration. */
  lemma ProcessingReplacesPending(s: State, f: LineFacts)
    requires f.url.Some? && !f.added
    ensures Step(s, f).currentUrl == f.url && Step(s, f).urlStartTime == f.stamp
    ensures Step(s, f).a.urlTimes == s.a.urlTimes
  {
  }

  /** With no new `Processing:` URL on the line, the pending URL is cleared
      exactly when a duration is recorded for it. */
  lemma PendingClearedOnlyByRecord(s: State, f: LineFacts)
    requires s.currentUrl.Some? && f.url.None?
    ensures Step(s, f).currentUrl.None? <==> f.added && s.urlStartTime.Some? && f.stamp.Some?
    ensures Step(s, f).currentUrl.Some? ==> Step(s, f).currentUrl == s.currentUrl && Step(s, f).a.urlTimes == s.a.urlTimes
    ensures Step(s, f).currentUrl.None? ==>
              var u := s.currentUrl.value;
              Step(s, f).a.urlTimes == s.a.urlTimes[u := Durations(s.a.urlTimes, u) + [f.stamp.value - s.urlStartTime.value]]
  {
  }

  /** A second `Processing:` line before the `Added` line takes over: only the
      later URL gets a duration, measured from its own line. */
  lemma OverwrittenUrlGetsNoDuration(u1: string, u2: string, t1: int, t2: int, t3: int)
    requires u1 != u2
    ensures var facts := [LineFacts(Some(t1), Some(u1), false, None, None),
                          LineFacts(Some(t2), Some(u2), false, None, None),
                          LineFacts(Some(t3), None, true, None, None)];
            Replay(Fresh, facts).a.urlTimes == map[u2 := [t3 - t2]]
  {
    var facts := [LineFacts(Some(t1), Some(u1), false, None, None),
                  LineFacts(Some(t2), Some(u2), false, None, None),
                  LineFacts(Some(t3), None, true, None, None)];
    ReplaySnoc(Fresh, facts, 0);
    ReplaySnoc(Fresh, facts, 1);
    ReplaySnoc(Fresh, facts, 2);
    assert facts[..0] == [] && facts[..3] == facts;
    var s1 := Step(Fresh, facts[0]);
    assert s1.currentUrl == Some(u1) && s1.a.urlTimes == map[];
    var s2 := Step(s1, facts[1]);
    assert s2.currentUrl == Some(u2) && s2.urlStartTime == Some(t2) && s2.a.urlTimes == map[];
    var f3 := facts[2];
    assert f3.added && f3.stamp == Some(t3) && f3.url.None?;
    var p := TrackProcessing(TrackTime(s2, f3.stamp), f3);
    assert p.currentUrl == Some(u2) && p.urlStartTime == Some(t2) && p.a.urlTimes == map[];
    assert Durations(p.a.urlTimes, u2) + [t3 - t2] == [t3 - t2];
    assert TrackCompletion(p, f3).a.urlTimes == map[][u2 := [t3 - t2]];
  }

  /** The completion block keeps every duration explained. */
  lemma CompletionStep(init: seq<LineFacts>, f: LineFacts, p: State)
    requires forall u, k :: u in p.a.urlTimes && 0 <= k < |p.a.urlTimes[u]| ==> Timed(init, u, p.a.urlTimes[u][k])
    requires p.currentUrl.Some? ==> exists i :: 0 <= i < |init| + 1 && (init + [f])[i].url == p.currentUrl && (init + [f])[i].stamp == p.urlStartTime
    ensures var c := TrackCompletion(p, f);
            DurationsExplained(init + [f], c.a.urlTimes, c.currentUrl, c.urlStartTime)
  {
    var facts := init + [f];
    var n := |init|;
    var c := TrackCompletion(p, f);
    var fires := f.added && p.currentUrl.Some? && p.urlStartTime.Some? && f.stamp.Some?;
    forall u, k | u in c.a.urlTimes && 0 <= k < |c.a.urlTimes[u]|
      ensures Timed(facts, u, c.a.urlTimes[u][k])
    {
      var before := Durations(p.a.urlTimes, u);
      if fires && u == p.currentUrl.value {
        assert c.a.urlTimes[u] == before + [f.stamp.value - p.urlStartTime.value];
      } else {
        assert c.a.urlTimes[u] == before;
      }
      if k < |before| {
        assert c.a.urlTimes[u][k] == p.a.urlTimes[u][k];
        TimedGrows(init, f, u, p.a.urlTimes[u][k]);
      } else {
        // The entry appended by this line, timed from the pending URL's line.
        var i :| 0 <= i <= n && facts[i].url == p.currentUrl && facts[i].stamp == p.urlStartTime;
        assert facts[n] == f;
        assert c.a.urlTimes[u][k] == facts[n].stamp.value - facts[i].stamp.value;
      }
    }
  }

  lemma {:induction false} DurationsOfFacts(facts: seq<LineFacts>)
    ensures var s := Replay(Fresh, facts);
            DurationsExplained(facts, s.a.urlTimes, s.currentUrl, s.urlStartTime)
    decreases |facts|
  {
    if facts != [] {
      var n := |facts| - 1;
      var init := facts[..n];
      DurationsOfFacts(init);
      var s := Replay(Fresh, init);
      var f := facts[n];
      StepTimes(s, f);
      PendingStep(init, f, s);
      assert TrackProcessing(s, f).a.urlTimes == s.a.urlTimes;
      CompletionStep(init, f, TrackProcessing(s, f));
      assert init + [f] == facts;
    }
  }

  /** `d` is the gap between a timestamped `Processing:` line naming `u` and
      a timestamped `Added` line that is the same line or a later one. */
  predicate PairTimed(lines: seq<LogLine>, u: string, d: int) {
    exists i, j :: && 0 <= i <= j < |lines|
                   && ProcessingUrl(lines[i]) == Some(u) && lines[i].stamp.Some?
                   && AddedLine(lines[j].text) && lines[j].stamp.Some?
                   && d == lines[j].stamp.value - lines[i].stamp.value
  }

  /** A gap between facts is a gap between the lines they were read from. */
  lemma TimedIsPairTimed(lines: seq<LogLine>, facts: seq<LineFacts>, u: string, d: int)
    requires |facts| == |lines|
    requires forall i :: 0 <= i < |lines| ==>
               && facts[i].url == ProcessingUrl(lines[i])
               && facts[i].stamp == lines[i].stamp
               && facts[i].added == AddedLine(lines[i].text)
    requires Timed(facts, u, d)
    ensures PairTimed(lines, u, d)
  {
    var i, j :| && 0 <= i <= j < |facts|
                && facts[i].url == Some(u) && facts[i].stamp.Some?
                && facts[j].added && facts[j].stamp.Some?
                && d == facts[j].stamp.value - facts[i].stamp.value;
    assert ProcessingUrl(lines[i]) == Some(u) && AddedLine(lines[j].text);
  }

  /** Every duration recorded in `url_times[u]` is such a gap. */
  lemma DurationsFromPairs(lines: seq<LogLine>)
    ensures forall u, k :: u in Analyze(lines).urlTimes && 0 <= k < |Analyze(lines).urlTimes[u]| ==>
              PairTimed(lines, u, Analyze(lines).urlTimes[u][k])
  {
    var facts := ClassifyAll(lines);
    DurationsOfFacts(facts);
    var times := Analyze(lines).urlTimes;
    assert times == Replay(Fresh, facts).a.urlTimes;
    forall u, k | u in times && 0 <= k < |times[u]|
      ensures PairTimed(lines, u, times[u][k])
    {
      TimedIsPairTimed(lines, facts, u, times[u][k]);
    }
  }
}
