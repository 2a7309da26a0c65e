# Crawl engine of the stealth crawlers, in Dafny

This project models the crawl engine of two web crawlers and the parser of the
crawler's log, and proves properties of the model:

- `EnhancedStealthCrawler` in `enhanced_reaper.py`. Its frontier is a URL queue,
  a visited set and a map of failed URLs. Its `run` loop prefers URLs on hosts
  it has not visited yet. Pages are fetched through a five-strategy escalation
  (`RetryStrategy.execute`) with capped exponential backoff. Pages are matched
  against a list of name variations, and links are enqueued with same-host
  links first.
- `StealthCrawler` in `Reapers/deep_reaper.py`. Its queue is a plain FIFO, and
  `_fetch_content` makes three attempts. Links lose both fragment and query.
  A link that cannot be joined aborts the whole enqueue.
- The Tor circuit renewal of both crawlers. It is a client of Tor's control
  port: `AUTHENTICATE` (section 3.5 of Tor's control-spec) and `SIGNAL NEWNYM`
  (section 3.7), each expected to be answered by a reply containing `250`.
  The loop makes at most three attempts. The enhanced crawler retries when a
  reply is rejected; the deep crawler gives up at once.
- `CrawlerLogAnalyzer.parse_log` in `utils/log_analyzer.py`. It is one pass over
  the log lines and tracks:
  - the time range;
  - the processed URLs;
  - the per-URL durations from `Processing:` to `Added … new URLs to queue`;
  - the strategy counts;
  - the error lines.

Each block a crawler runs under its lock is one method of a Dafny class. The
classes hold the fields the source updates: `queue: seq<string>`,
`visited: set<string>`, `failed: map<string, string>`, and the analyzer's six
fields. A dispatched page is processed before the next pass of the loop.

Library outputs are taken as inputs to the model:
- `urlparse`, as a function to `UrlParts`;
- the joined links, with `None` where joining raised;
- the page text;
- each strategy's outcome;
- the replies on the control port;
- the parsed timestamp of a log line.

Loops become methods with invariants, and each method is proved against a
specification function. The pure parts are functions with lemmas:
- validation and normalisation of URLs;
- whole-word search and context extraction;
- name variations;
- the replay of the log.

Files:
- `common.dfy`: the crawler tag, `Option`, `Result` and `NoDups`.
- `text.dfy`: the `str` operations the code uses.
- `urls.dfy`: `_validate_url`, `_get_blacklist` and fragment/query stripping.
- `frontier.dfy`: link collection and same-host-first ordering.
- `retry.dfy`: `execute`, the backoff and `_fetch_content`.
- `tor_control.dfy`: `renew_tor_ip`.
- `matching.dfy`: `_analyze_content`, `_extract_context` and `_detect_antibot_page`.
- `names.dfy`: `_generate_name_variations` and `_collect_target_info`.
- `enhanced_crawler.dfy` and `deep_crawler.dfy`: the two crawler classes.
- `log_analyzer.dfy`: the log analyzer.

## Model

| member | source | states |
|---|---|---|
| Text.LowerStr | enhanced_reaper.py:156 | `str.lower()`: same length, each character folded (ASCII letters) |
| Text.Strip | enhanced_reaper.py:522 | `str.strip()`: the result is the input with only leading and trailing whitespace removed, and it neither starts nor ends with whitespace |
| Text.Split | enhanced_reaper.py:629 | `str.split()`: every part is a non-empty whitespace-free token, and the parts put together are the input with every whitespace character removed |
| Text.SplitSkipsSpace | enhanced_reaper.py:629 | a whitespace character in front does not change the split |
| Text.SplitJoin | enhanced_reaper.py:629 | splitting tokens joined by single spaces gives the tokens back |
| Text.Join | enhanced_reaper.py:636 | `' '.join(parts)`: the parts with the separator between each two consecutive ones |
| Text.BeforeFirst | enhanced_reaper.py:554 | `s.split(c)[0]`: a prefix of `s` without `c`, cut exactly at the first `c` |
| Text.ReplaceChar | enhanced_reaper.py:522 | `replace('\n', ' ')`: same length, every `\n` becomes a space, every other character is kept |
| Text.StripIdempotent | enhanced_reaper.py:522 | stripping twice is stripping once |
| Urls.ValidateUrl | enhanced_reaper.py:570-591 | `_validate_url` is false exactly when the scheme is not http/https, the host is one of the 8 blacklisted hosts, or the path matches the 17-extension pattern, case-insensitively and with `$` also before a final newline; for the deep crawler (Reapers/deep_reaper.py:287-303) the same with 3 hosts and 9 extensions |
| Urls.HasBlockedExtensionMatchesPattern | enhanced_reaper.py:576 | testing the text after the last dot decides the regular expression `\.(…)$` with `re.I`, under ASCII case folding |
| Urls.BlockedExtensionsHaveNoDot | enhanced_reaper.py:576 | no alternative of either pattern contains a dot |
| Urls.UpperCasePdfRejected | enhanced_reaper.py:576 | a `.PDF` path is rejected by both crawlers |
| Urls.StripFragment | enhanced_reaper.py:554 | the joined URL cut before its first `#`: a prefix without `#`, followed in the URL by `#` when shorter |
| Urls.StripFragmentAndQuery | Reapers/deep_reaper.py:282 | cut before the first `#`, then before the first `?`: a prefix with neither, followed in the URL by `#` or `?` when shorter |
| Urls.Normalize | Reapers/deep_reaper.py:282 | each crawler's normalisation yields a prefix without `#` (and, for the deep crawler, without `?`), cut where the URL has `#` (deep: `#` or `?`); the enhanced crawler's is at enhanced_reaper.py:554 |
| Urls.NormalizeIdempotent | Reapers/deep_reaper.py:282 | normalising twice is normalising once |
| Urls.FragmentIgnored | enhanced_reaper.py:554 | a URL with a fragment appended normalises to the URL itself |
| Frontier.LinkAt | enhanced_reaper.py:553-556 | a link contributes at most one URL, and only a normalised one that passes `_validate_url` |
| Frontier.LinkTargetsMembers | enhanced_reaper.py:551-556 | a URL is in `new_links` exactly when some link contributes it |
| Frontier.LinkTargetsClean | Reapers/deep_reaper.py:280-284 | every URL in `new_links` is valid and has no fragment (deep: and no query) |
| Frontier.CollectNewLinks | enhanced_reaper.py:551-560 | the batch holds exactly the URLs of `new_links` that are not visited, each once |
| Frontier.OnHost | enhanced_reaper.py:564-565 | each comprehension keeps exactly the URLs on (or off) the base host, without duplicates |
| Frontier.OnHostSplitsLength | enhanced_reaper.py:564-565 | the two comprehensions together have as many entries as `filtered_links` |
| Frontier.SameHostFirst | enhanced_reaper.py:563-567 | `same_domain + other_domain` is a duplicate-free rearrangement of the batch with every base-host URL before every other URL |
| EnhancedCrawler.FirstUnexplored | enhanced_reaper.py:604-608 | the first queue index whose host is not the host of any visited URL, or none |
| EnhancedCrawler.Selected | enhanced_reaper.py:604-610 | the popped index is the first one on an unexplored host, or 0 when there is none |
| EnhancedCrawler.FifoWhileNothingVisited | enhanced_reaper.py:604-610 | with nothing visited the loop pops the head |
| EnhancedCrawler.NewHostJumpsQueue | enhanced_reaper.py:604-608 | an entry on a new host is popped before a head on an explored host |
| EnhancedCrawler.EnhancedStealthCrawler.constructor | enhanced_reaper.py:213-215 | the crawler starts from the loaded queue, visited set and failed map |
| EnhancedCrawler.EnhancedStealthCrawler.SelectIndex | enhanced_reaper.py:604-610 | the `for … else` search returns `Selected` |
| EnhancedCrawler.EnhancedStealthCrawler.RunStep | enhanced_reaper.py:599-614 | removes exactly the selected entry and keeps the others in order; a visited URL is skipped, any other is added to `visited` and dispatched; `failed` is unchanged |
| EnhancedCrawler.EnhancedStealthCrawler.EnqueueLinks | enhanced_reaper.py:549-568 | the old queue is a prefix of the new one, and the appended batch holds exactly the valid, fragment-free, unvisited link targets, each once, base-host URLs first |
| EnhancedCrawler.EnhancedStealthCrawler.ProcessPage | enhanced_reaper.py:472-503 | robots refusal changes nothing; a failed escalation stores its message in `failed[url]` and no other entry of `failed` changes; empty content changes nothing; otherwise the page record is the first matching variation and the links are enqueued |
| EnhancedCrawler.EnhancedStealthCrawler.Crawl | enhanced_reaper.py:598-616 | the loop ends with an empty queue (or the pass budget spent); no URL is dispatched twice or was visited before; `visited` grows by exactly the dispatched URLs; every record is for a dispatched URL, at most one per URL; a new `failed` entry is only for a dispatched URL, and the entries of URLs not dispatched stay as they were |
| EnhancedCrawler.RecordNewUrl | enhanced_reaper.py:598-616 | a record for a URL not dispatched before keeps the records at most one per URL, since `run` never dispatches a visited URL again |
| DeepCrawler.StealthCrawler.constructor | Reapers/deep_reaper.py:33-34 | the crawler starts from the loaded queue and visited set |
| DeepCrawler.StealthCrawler.RunStep | Reapers/deep_reaper.py:308-312 | pops index 0; a visited URL is skipped, any other is added to `visited` and dispatched |
| DeepCrawler.StealthCrawler.EnqueueLinks | Reapers/deep_reaper.py:278-285 | raises exactly when some link cannot be joined, leaving the queue as it was; otherwise appends exactly the valid, fragment- and query-free, unvisited targets, each once |
| DeepCrawler.StealthCrawler.ProcessPage | Reapers/deep_reaper.py:158-180 | no content or empty content changes nothing; otherwise the record is the first matching variation, and the links are enqueued unless joining one raised |
| DeepCrawler.StealthCrawler.Crawl | Reapers/deep_reaper.py:307-314 | the loop ends with an empty queue (or the budget spent); no URL is dispatched twice or was visited before; `visited` grows by exactly the dispatched URLs |
| Retry.Rank | enhanced_reaper.py:52-58 | each strategy's position in the table: direct, selenium, tor, selenium+tor, aggressive |
| Retry.StrategyAt | enhanced_reaper.py:194-196 | attempt `a` runs the table entry at `a` while `a` is below the table's length, and `_aggressive_selenium` from the last index on |
| Retry.EscalationOrder | enhanced_reaper.py:194-196 | attempt `a` uses table entry `min(a, 4)`, so escalation never goes back |
| Retry.Doublings | Reapers/deep_reaper.py:190 | the sleeps after failed attempts are `2 ** a` in attempt order |
| Retry.Backoff | enhanced_reaper.py:202 | `min(2 ** attempt + u, 60)` for the jitter `u`; its properties are the lemmas below |
| Retry.Backoffs | enhanced_reaper.py:202 | one backoff per failed attempt |
| Retry.BackoffsAt | enhanced_reaper.py:202 | entry `a` of the schedule is `min(2 ** a + u, 60)` for attempt `a`'s jitter |
| Retry.BackoffBoundedAndMonotone | enhanced_reaper.py:202 | with jitter in [0, 1) a backoff lies in [1, 60] and never decreases from one attempt to a later one |
| Retry.BackoffCappedFrom6 | enhanced_reaper.py:202 | from attempt 6 on the backoff is the cap, 60 |
| Retry.FailureEntry | enhanced_reaper.py:203 | the `f"{strategy.__name__}: {str(e)}"` entry of a failed attempt |
| Retry.FailureEntryNamesStrategy | enhanced_reaper.py:203 | the text before an entry's first `:` is the name of the strategy that failed, and the entry ends with the exception's message |
| Retry.FailureLog | enhanced_reaper.py:203 | the error list after `n` failures has exactly `n` entries |
| Retry.FailureLogSnoc | enhanced_reaper.py:203 | each failure appends its `name: message` entry at the end, in attempt order |
| Retry.FirstSuccess | enhanced_reaper.py:194-200 | the first attempt that fetched content, all earlier ones having raised, or none |
| Retry.FirstSuccessAt | enhanced_reaper.py:194-200 | a success after only failures is the first success |
| Retry.ExecuteResult | enhanced_reaper.py:190-207 | the content of the first attempt that fetched, or the aggregated error, which names `max_retries` and holds one entry per attempt |
| Retry.ExecuteSucceedsIffSomeFetch | enhanced_reaper.py:194-200 | `execute` returns content exactly when some attempt fetched, and the content is that attempt's |
| Retry.ExecuteSucceedsAt | enhanced_reaper.py:194-200 | `execute` returns the content of a success that follows only failures |
| Retry.ExecuteFailsAfterAll | enhanced_reaper.py:207 | when all `max_retries` attempts fail, `execute` raises the aggregated error with the full log |
| Retry.FailureMessage | enhanced_reaper.py:207 | the raised message starts with `All retry strategies failed after ` |
| Retry.Execute | enhanced_reaper.py:190-207 | attempt `a` runs strategy `min(a, 4)`; the first content is returned at once; each failure sleeps its backoff; after `max_retries` failures the error holds exactly `max_retries` entries in attempt order |
| Retry.FetchResult | Reapers/deep_reaper.py:182-191 | some content exactly when one of the three attempts fetched, and then that attempt's content; `None` otherwise |
| Retry.FetchContent | Reapers/deep_reaper.py:182-191 | at most 3 attempts; the first content is returned; each failure sleeps `2 ** a`; after 3 failures the result is `None`, with nothing raised |
| TorControl.Accepted | enhanced_reaper.py:415 | `b'250' in response`, for a reply that was read (also enhanced_reaper.py:420 and Reapers/deep_reaper.py:109, 115) |
| TorControl.Attempt | Reapers/deep_reaper.py:104-122 | NEWNYM is sent only after an accepted AUTHENTICATE; nothing is sent without a connection; a refused connection or a failed read is retried by both crawlers; the enhanced crawler (enhanced_reaper.py:410-425) returns exactly when both replies hold `250` and retries anything else; the deep crawler returns on a rejected AUTHENTICATE, on a rejected NEWNYM, or on a changed IP, each exactly in that case, and retries a failed echo or an unchanged IP |
| TorControl.RenewFrom | enhanced_reaper.py:410-431 | the loop from attempt `a` makes between `a + 1` and 3 attempts and gives up only after the third |
| TorControl.Renew | enhanced_reaper.py:410-431 | a whole call makes 1 to 3 attempts, retries every attempt before its last, reports a renewal only when the last attempt's replies both hold `250`, and gives up exactly when the third attempt was retried too |
| TorControl.RenewFromEnds | enhanced_reaper.py:410-431 | the loop ends on the attempt that returned, or gives up after a last attempt that was retried |
| TorControl.RenewFromRetriedBefore | enhanced_reaper.py:410-429 | every attempt before the last one the loop made was retried |
| TorControl.RetryGoesOn | enhanced_reaper.py:426-429 | a retried attempt that is not the last is followed by the next attempt, with its commands sent first |
| TorControl.ExceptionRetries | enhanced_reaper.py:426-429 | a refused connection, a failed read or (deep crawler, Reapers/deep_reaper.py:118-126) a failed echo or an unchanged IP before the last attempt leads to a further attempt |
| TorControl.LastRetryGivesUp | enhanced_reaper.py:426-431 | a retried third attempt ends the call with the warning and nothing raised |
| TorControl.DeepStopsOnAuthRejection | Reapers/deep_reaper.py:107-112 | a rejected AUTHENTICATE ends the deep call in attempt 1, before NEWNYM |
| TorControl.EnhancedRetriesOnAuthRejection | enhanced_reaper.py:413-416 | the same reply makes the enhanced crawler go on with attempt 2 |
| TorControl.DeepStopsOnSignalRejection | Reapers/deep_reaper.py:113-117 | a rejected NEWNYM ends the deep call at once |
| TorControl.DeepRetriesOnUnchangedIp | Reapers/deep_reaper.py:118-121 | an unchanged IP makes the deep crawler try again |
| TorControl.NewnymAfterAuthAppend | enhanced_reaper.py:410-421 | joining the commands of successive attempts keeps every NEWNYM right after an AUTHENTICATE |
| TorControl.AttemptNewnymAfterAuth | enhanced_reaper.py:413-418 | within one attempt NEWNYM is only sent right after AUTHENTICATE |
| TorControl.NewnymOnlyAfterAuth | enhanced_reaper.py:413-418 | in any call, NEWNYM is only ever sent right after AUTHENTICATE |
| TorControl.RenewFromStep | enhanced_reaper.py:410-429 | one turn of the loop: return, give up after the third attempt, or go on with the next |
| TorControl.RenewTorIp | enhanced_reaper.py:407-431 | never raises, makes at most 3 attempts, sends what `Renew` describes, and sleeps `2 ** a` after each failed attempt; with the deep crawler's attempt (Reapers/deep_reaper.py:101-126) it is that crawler's loop |
| Matching.WordBoundary | enhanced_reaper.py:510 | `\b` at a position: exactly one neighbour is a word character |
| Matching.MatchesAt | enhanced_reaper.py:510 | `\b{re.escape(v)}\b` with `re.I` matches at an index: the text there equals `v` ignoring case, with a boundary on both sides |
| Matching.FindMatchFrom | enhanced_reaper.py:510 | the leftmost whole-word, case-insensitive match at or after `from` |
| Matching.Search | enhanced_reaper.py:518 | `re.search(rf'\b{re.escape(v)}\b', t, re.I)`: the leftmost match, or none |
| Matching.ExtractContext | enhanced_reaper.py:517-523 | `''` when nothing matches; otherwise at most the match plus two windows, with no newline and no outer whitespace; the deep crawler's window is 100 (Reapers/deep_reaper.py:248-254) |
| Matching.ContextAround | enhanced_reaper.py:520-522 | the clamped window is always in range and its flattened form is bounded |
| Matching.Flattened | enhanced_reaper.py:522 | a slice with `\n` replaced and stripped has no newline and no outer whitespace |
| Matching.StripKeepsInner | enhanced_reaper.py:522 | stripping keeps a piece that starts and ends with non-whitespace |
| Matching.WindowKeepsMatch | enhanced_reaper.py:522 | replacing newlines leaves a newline-free piece untouched |
| Matching.FlattenedKeeps | enhanced_reaper.py:520-522 | the flattened window still contains such a piece |
| Matching.ContextAroundKeeps | enhanced_reaper.py:520-522 | the context around such a piece contains it |
| Matching.MatchedTextLikeVariation | enhanced_reaper.py:518 | matched text has a newline or outer whitespace only where the variation has one |
| Matching.ContextHoldsMatch | enhanced_reaper.py:517-523 | the context of a match contains the variation, ignoring case |
| Matching.FirstMatching | enhanced_reaper.py:509-515 | the index of the first variation, in list order, that matches |
| Matching.PageRecord | enhanced_reaper.py:509-515 | no record exactly when no variation matches; otherwise one record, for the first matching variation, with its context |
| Matching.AnalyzeContent | enhanced_reaper.py:505-515 | the loop with `break` logs exactly `PageRecord`, for either crawler (Reapers/deep_reaper.py:238-246 uses a window of 100) |
| Matching.AnyMarker | enhanced_reaper.py:163 | true exactly when some marker is a substring |
| Matching.DetectAntibotPage | enhanced_reaper.py:154-163 | true exactly when one of the nine markers occurs in the lower-cased page |
| Matching.DetectIgnoresCase | enhanced_reaper.py:156 | detection does not depend on the page's case |
| Matching.DetectSurvivesPadding | enhanced_reaper.py:163 | content around a detected page does not hide the marker |
| Names.Dedup | enhanced_reaper.py:687 | `list(set(…))`: the same elements, each once |
| Names.RemoveEmpty | enhanced_reaper.py:687 | `filter(None, …)`: exactly the non-empty elements |
| Names.EnhancedCandidates | enhanced_reaper.py:670-684 | the twelve f-strings of the enhanced `_generate_name_variations`, in order |
| Names.EnhancedVariations | enhanced_reaper.py:669-687 | exactly the non-empty candidates, each once |
| Names.EnhancedVariationsHoldBasics | enhanced_reaper.py:671-676 | the list holds `first last`, `last, first` and `first[0] + last` |
| Names.EmptyMiddleKeepsDoubleSpace | enhanced_reaper.py:673 | with no middle name the list holds `first  last` (two spaces) beside `first last` |
| Names.DeepCandidates | Reapers/deep_reaper.py:340-346 | the eight strings the deep `itertools.chain` yields, in order |
| Names.DeepVariations | Reapers/deep_reaper.py:339-346 | exactly the eight candidates, each once |
| Names.DeepVariationsHoldAll | Reapers/deep_reaper.py:341-345 | the list holds all eight forms |
| Names.EnhancedNameParts | enhanced_reaper.py:629-636 | fewer than two tokens exits; otherwise first and last are tokens |
| Names.EnhancedNamePartsRoundTrip | enhanced_reaper.py:629-636 | a name typed as tokens splits back into its first, middle and last names |
| Names.DeepNameParts | Reapers/deep_reaper.py:325 | fewer than two tokens raises; otherwise the first two tokens |
| Names.DeepNamePartsTakesFirstTwo | Reapers/deep_reaper.py:325 | for any name of two or more tokens the first two are taken |
| Names.WithOrg | enhanced_reaper.py:653-659 | an empty organisation adds nothing; otherwise three entries, each holding the organisation and the full name |
| Names.StrippedAll | enhanced_reaper.py:628 | every typed line as `input().strip()` returns it |
| Names.FirstBlank | enhanced_reaper.py:646-649 | the index of the first empty line from a position on, with no empty line before it; none when there is no empty line |
| Names.ReadUntilBlank | enhanced_reaper.py:646-650 | returns a block exactly when an empty line follows; the block is exactly the lines before the first empty one, none of them empty, and reading resumes after it |
| Names.CollectEnhancedTarget | enhanced_reaper.py:626-667 | collects exactly when the name has two or more tokens and the input holds the seed block, an organisation line and the keyword block, each block ended by a blank line; the variations are exactly the generated list, the organisation entries and the keywords; the queue is exactly the primary seed followed by the further seeds; no variation and no further seed is empty |
| Names.DefaultScheme | Reapers/deep_reaper.py:329-330 | `https://` is prepended exactly when the URL starts with neither `http://` nor `https://` |
| Names.DefaultSchemeIdempotent | Reapers/deep_reaper.py:329-330 | defaulting twice is defaulting once |
| Names.CompanyVariations | Reapers/deep_reaper.py:333-337 | the three entries the deep crawler appends: `first@company.com`, `last@company.com`, initial plus last name |
| Names.CollectDeepTarget | Reapers/deep_reaper.py:322-337 | defined exactly for a name of two or more tokens; variations are the generated list plus the three company entries; the queue is exactly the typed seed URL with `https://` put in front unless it already starts with `http://` or `https://` |
| LogAnalysis.WordRun | utils/log_analyzer.py:26 | the run of `\w` characters at the start |
| LogAnalysis.FirstProcessing | utils/log_analyzer.py:48 | the leftmost match of `Processing: (https?://[^\s]+)` |
| LogAnalysis.ProcessedUrl | utils/log_analyzer.py:48-50 | the captured URL starts with `http` and has no whitespace |
| LogAnalysis.FirstStrategy | utils/log_analyzer.py:64 | the leftmost match of `strategy: (_\w+)` |
| LogAnalysis.StrategyName | utils/log_analyzer.py:64-66 | the captured name is `_` followed by word characters |
| LogAnalysis.Classify | utils/log_analyzer.py:35-70 | what the tests of the loop body find in one line: its timestamp, the URL of a timestamped `Processing:` line, whether it reports added URLs, the strategy name and the error entry |
| LogAnalysis.ClassifyAll | utils/log_analyzer.py:33 | one classification per line, in order |
| LogAnalysis.TrackTime | utils/log_analyzer.py:41-44 | the timestamp block: a timestamp lowers `start_time` and raises `end_time` where it lies outside them |
| LogAnalysis.TrackProcessing | utils/log_analyzer.py:47-51 | the `Processing:` block: the named URL becomes the pending one, with the line's time, and joins `urls_processed` |
| LogAnalysis.TrackCompletion | utils/log_analyzer.py:55-60 | the `Added … new URLs to queue` block: with a URL pending and a timestamp, the gap is appended to that URL's durations and the pending URL is cleared |
| LogAnalysis.TrackStrategy | utils/log_analyzer.py:63-66 | the strategy block: the named strategy's count goes up by one |
| LogAnalysis.TrackErrors | utils/log_analyzer.py:69-70 | the error block: the stripped line is appended |
| LogAnalysis.Step | utils/log_analyzer.py:33-70 | one pass of the loop body: the five blocks in source order |
| LogAnalysis.Replay | utils/log_analyzer.py:33-70 | the loop over the lines, in file order |
| LogAnalysis.Analyze | utils/log_analyzer.py:21-70 | `parse_log` on a freshly constructed analyzer |
| LogAnalysis.ParseLine | utils/log_analyzer.py:35-70 | the loop body changes the fields and the two locals as `Step` describes |
| LogAnalysis.CrawlerLogAnalyzer.constructor | utils/log_analyzer.py:13-19 | the fields start empty |
| LogAnalysis.CrawlerLogAnalyzer.ParseLog | utils/log_analyzer.py:21-70 | the fields end as the replay of every line, in file order, from the old fields with no URL pending |
| LogAnalysis.StepKeepsRange | utils/log_analyzer.py:41-44 | only the timestamp block changes the time range |
| LogAnalysis.RangeOfFacts | utils/log_analyzer.py:35-44 | the time range over the lines' timestamps: unset when none, attained, and bounding all |
| LogAnalysis.TimeRange | utils/log_analyzer.py:35-44 | `start_time` is the minimum and `end_time` the maximum timestamp; both unset exactly when no line has one |
| LogAnalysis.StartNotAfterEnd | utils/log_analyzer.py:41-44 | a set start is never after the end |
| LogAnalysis.StepAddsUrl | utils/log_analyzer.py:47-52 | only a timestamped `Processing:` line adds to `urls_processed` |
| LogAnalysis.UrlsOfFacts | utils/log_analyzer.py:47-52 | the processed URLs are exactly those the lines name |
| LogAnalysis.UrlsProcessed | utils/log_analyzer.py:47-52 | `urls_processed` is exactly the set of URLs after `Processing: ` on timestamped lines |
| LogAnalysis.KeysProcessedKept | utils/log_analyzer.py:47-60 | every key of `url_times`, and the pending URL, is a processed URL throughout |
| LogAnalysis.UrlTimesKeysProcessed | utils/log_analyzer.py:55-58 | every key of `url_times` is in `urls_processed` |
| LogAnalysis.StepTallies | utils/log_analyzer.py:63-66 | only the strategy block counts, and by one |
| LogAnalysis.StrategiesOfFacts | utils/log_analyzer.py:63-66 | each count is the number of lines naming that strategy |
| LogAnalysis.StrategiesCounted | utils/log_analyzer.py:63-66 | `strategies[name]` is the number of lines whose `strategy: (_\w+)` match names `name` |
| LogAnalysis.StepCollectsError | utils/log_analyzer.py:69-70 | only the error block appends, one stripped line |
| LogAnalysis.ErrorsOfFacts | utils/log_analyzer.py:69-70 | the error list collects the lines' entries in order |
| LogAnalysis.ErrorsCollected | utils/log_analyzer.py:69-70 | `errors` is the file-ordered list of stripped `[ERROR]` and `[WARNING]` lines |
| LogAnalysis.StepTimes | utils/log_analyzer.py:47-60 | only the processing and completion blocks touch `url_times` and the pending URL |
| LogAnalysis.ProcessingReplacesPending | utils/log_analyzer.py:47-51 | a `Processing:` line that is not also an `Added … new URLs to queue` line replaces the pending URL and records no duration |
| LogAnalysis.PendingClearedOnlyByRecord | utils/log_analyzer.py:55-60 | the pending URL is cleared exactly when a duration is recorded for it |
| LogAnalysis.OverwrittenUrlGetsNoDuration | utils/log_analyzer.py:47-60 | of two `Processing:` lines before an `Added` line, only the later URL gets a duration |
| LogAnalysis.PendingStep | utils/log_analyzer.py:47-51 | the pending URL was named by a line carrying its start time |
| LogAnalysis.CompletionStep | utils/log_analyzer.py:55-60 | each recorded duration is a gap between a `Processing:` line and a later or same `Added` line |
| LogAnalysis.DurationsOfFacts | utils/log_analyzer.py:55-60 | the replay keeps every duration explained |
| LogAnalysis.DurationsFromPairs | utils/log_analyzer.py:47-60 | every duration in `url_times[u]` is the gap from a timestamped `Processing:` line naming `u` to a timestamped `Added` line at or after it |

## Left out

- Browser automation, HTTP sessions, the robots.txt fetch, Tor connectivity checks and the IP echo service are I/O. A strategy is an abstract outcome (content, or a raised message); a control-port exchange is an abstract `Exchange`; the enhanced crawler's robots answer is a per-site boolean. The deep crawler's `_check_robots_txt` always allows and is folded into `ProcessPage`.
- Randomness is a parameter: the backoff jitter, the deep crawler's choice of fetch back end, and the random Tor renewal inside `process_page` (not modelled). Weibull and uniform sleeps are not modelled. Backoffs are recorded as values.
- TextBlob sentiment, BeautifulSoup text and link extraction, `urljoin` and `urlparse` are foreign libraries. Their outputs are inputs to the model.
- Pickle and gzip persistence, content files, `hash(url)` file names and the wall-clock save interval are file I/O and clock.
- The thread pool, the lock, the signal handlers and `sys.exit` are concurrency and process control. Each locked block is one atomic method, and a dispatched page is processed before the next pop.
- EnhancedCrawler.EnhancedStealthCrawler.Crawl: the `running` flag that a signal clears is replaced by a budget of passes.
- EnhancedCrawler.EnhancedStealthCrawler.Crawl: the source's `run` stops as soon as the queue is empty when the loop tests it, even while submitted pages are still being processed (enhanced_reaper.py:598-616); links those pages find stay in the saved queue for the next run. The model processes each dispatched page before the next test, so its crawl goes on through them.
- DeepCrawler.StealthCrawler.Crawl: the `running` flag is replaced by a budget of passes, as in the enhanced crawler.
- DeepCrawler.StealthCrawler.Crawl: the same early exit on a momentarily empty queue (Reapers/deep_reaper.py:307-314) is not modelled.
- The interactive prompts of `_collect_target_info` are a sequence of typed lines, each stripped once as it is read; running out of lines ends the collection (`EOFError`); `print` output is not modelled.
- Names.Dedup: `list(set(…))` has no defined order; the model keeps first occurrences, and contracts state only membership and the absence of duplicates.
- Frontier.CollectNewLinks: the same; the batch order is the model's, and only the set, the absence of duplicates and, for the enhanced crawler, same-host-first are stated.
- Text.Strip: whitespace is ASCII whitespace; Python's `str.strip()` also removes Unicode spaces such as U+00A0.
- Text.Split: the same ASCII whitespace as `Strip`.
- Text.LowerStr: only ASCII letters are lowered; Python's `str.lower()` lowers every Unicode letter.
- Matching.Search: `\b` and `re.I` are modelled with ASCII word characters and ASCII case folding; Python's `re` also treats Unicode letters and digits as word characters and folds their case.
- Matching.DetectAntibotPage: the page is lowered as in `Text.LowerStr`, so a marker reached only through Unicode lowering (the Kelvin sign K lowers to `k`) is not detected by the model.
- Urls.HasBlockedExtensionMatchesPattern: `re.I` is modelled with ASCII case folding. Python's `re.I` also matches `ı` and `İ` to `i`, `ſ` to `s` and the Kelvin sign to `k`, so a path ending in `.zıp` or `.xlſ` is rejected by the source and passes the model.
- Urls.ValidateUrl: the same gap, through the extension pattern.
- LogAnalysis.FirstProcessing: `[^\s]` stops only at ASCII whitespace; Python's `\s` also stops at Unicode spaces such as U+00A0.
- LogAnalysis.ProcessedUrl: the same gap as `FirstProcessing`.
- LogAnalysis.WordRun: `\w` is ASCII letters, digits and `_`; Python's `\w` also matches Unicode letters and digits.
- Retry.FailureMessage: `str(errors)` quotes each entry; Python's escaping of quotes and backslashes inside an entry is not modelled, and the contract states only the fixed prefix.
- LogAnalysis.CrawlerLogAnalyzer.ParseLog: the timestamp regular expression and `strptime` are taken as given (each line carries an integer timestamp or none); reading the file, `FileNotFoundError` and the other exception paths are left out.
- LogAnalysis.ParseLine: the tests a line undergoes only read the line, so they are evaluated before the updates (`LineFacts`); the tests that read `current_url` stay in the method.
- Exceptions other than those named (a failing `urlparse` inside `_validate_url`, a failing `_save_content`) are not modelled.
- `display_stats`, `generate_charts`, `main` and the other repository files (`analyze_results.py`, `tor_manager.py`, `utils/cleanup.py`, `clean_crawler_state.py`, `Reapers/run_reaper.py`, `combine_scraped_data.py`) are presentation, wrappers or file handling and are not part of this model.
