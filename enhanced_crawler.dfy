/** The frontier of `EnhancedStealthCrawler` (enhanced_reaper.py): the URL
    queue, the visited set and the failed-URL map, the domain-diversity pop in
    `run`, `_enqueue_links` and the failure recording of `process_page`. Each
    block the crawler runs under its lock is one method here, and a dispatched
    page is processed before the next pop (the thread pool is not modelled). */
module EnhancedCrawler {
  import opened Text
  import opened Common
  import opened Urls
  import opened Retry
  import opened Matching
  import opened Frontier

  /** `{urlparse(u).netloc for u in self.visited_urls}`. */
  function Explored(parse: string -> UrlParts, visited: set<string>): set<string> {
    set u | u in visited :: parse(u).netloc
  }

  /** The host of `url` has not been visited yet. */
  predicate Unexplored(parse: string -> UrlParts, visited: set<string>, url: string) {
    parse(url).netloc !in Explored(parse, visited)
  }

  /** The first queue index from `from` on whose host is unexplored. */
  function FirstUnexplored(parse: string -> UrlParts, queue: seq<string>, visited: set<string>, from: nat): (r: Option<nat>)
    ensures r.Some? ==> from <= r.value < |queue| && Unexplored(parse, visited, queue[r.value])
    ensures r.Some? ==> forall j :: from <= j < r.value ==> !Unexplored(parse, visited, queue[j])
    ensures r.None? ==> forall j :: from <= j < |queue| ==> !Unexplored(parse, visited, queue[j])
    decreases |queue| - from
  {
    if from >= |queue| then None
    else if Unexplored(parse, visited, queue[from]) then Some(from)
    else FirstUnexplored(parse, queue, visited, from + 1)
  }

  /** The index `run` pops: the first entry on an unexplored host, or 0 when
      every entry's host has been visited. */
  function Selected(parse: string -> UrlParts, queue: seq<string>, visited: set<string>): (i: nat)
    requires queue != []
    ensures i < |queue|
    ensures Unexplored(parse, visited, queue[i]) ==> forall j :: 0 <= j < i ==> !Unexplored(parse, visited, queue[j])
    ensures !Unexplored(parse, visited, queue[i]) ==>
              i == 0 && forall j :: 0 <= j < |queue| ==> !Unexplored(parse, visited, queue[j])
  {
    match FirstUnexplored(parse, queue, visited, 0)
    case Some(i) => i
    case None => 0
  }

  /** Before anything is visited, `run` pops in FIFO order. */
  lemma FifoWhileNothingVisited(parse: string -> UrlParts, queue: seq<string>)
    requires queue != []
    ensures Selected(parse, queue, {}) == 0
  {
    assert Explored(parse, {}) == {};
  }

  /** A queue head on an explored host is passed over for any entry on a new host. */
  lemma NewHostJumpsQueue(parse: string -> UrlParts, queue: seq<string>, visited: set<string>, k: nat)
    requires k < |queue| && Unexplored(parse, visited, queue[k])
    requires !Unexplored(parse, visited, queue[0])
    ensures 0 < Selected(parse, queue, visited) <= k
    ensures Unexplored(parse, visited, queue[Selected(parse, queue, visited)])
  {
  }

  /** What `_enqueue_links` appends: the new valid URLs, each once, none of them
      visited, those on the page's host first. */
  ghost predicate EnqueuedBatch(parse: string -> UrlParts, links: seq<Option<string>>, visited: set<string>,
                          host: string, batch: seq<string>) {
    && NoDups(batch)
    && (forall u :: u in batch <==> u in LinkTargets(Enhanced, parse, links) && u !in visited)
    && HostOrdered(parse, host, batch)
  }

  /** What the outside world shows the crawler for one URL: whether robots.txt
      allows it, the outcome of each fetch strategy per attempt, the backoff
      jitter, and the text and the joined links BeautifulSoup extracts from
      fetched content (`None` for a link whose joining raised). */
  datatype Site = Site(
    robotsAllow: bool,
    strategies: (nat, Strategy) -> Outcome,
    jitter: nat -> real,
    text: string -> string,
    links: string -> seq<Option<string>>)

  /** No two records are for the same URL. */
  predicate OneRecordPerUrl(records: seq<MatchRecord>) {
    forall i, j :: 0 <= i < j < |records| ==> records[i].url != records[j].url
  }

  /** A record for a URL no earlier record names keeps the records one per URL. */
  lemma RecordNewUrl(records: seq<MatchRecord>, record: MatchRecord, urls: seq<string>)
    requires OneRecordPerUrl(records)
    requires forall r :: r in records ==> r.url in urls
    requires record.url !in urls
    ensures OneRecordPerUrl(records + [record])
  {
    var rs := records + [record];
    forall i, j | 0 <= i < j < |rs|
      ensures rs[i].url != rs[j].url
    {
      if j == |records| {
        assert rs[i] in records;
      }
    }
  }

  class EnhancedStealthCrawler {
    var queue: seq<string>
    var visited: set<string>
    /** `failed_urls`: URL to the message of the exception that ended its processing. */
    var failed: map<string, string>
    /** `urlparse`, taken as given. */
    const parse: string -> UrlParts

    /** The crawler with its loaded state (the pickles are not modelled). */
    constructor (parse: string -> UrlParts, queue: seq<string>, visited: set<string>, failed: map<string, string>)
      ensures this.parse == parse && this.queue == queue && this.visited == visited && this.failed == failed
    {
      this.parse := parse;
      this.queue := queue;
      this.visited := visited;
      this.failed := failed;
    }

    /** The `for i, url in enumerate(self.queue)` search with its `else` branch. */
    method SelectIndex() returns (i: nat)
      requires queue != []
      ensures i == Selected(parse, queue, visited)
    {
      var explored := set u | u in visited :: parse(u).netloc;
      i := 0;
      while i < |queue|
        invariant i <= |queue|
        invariant FirstUnexplored(parse, queue, visited, 0) == FirstUnexplored(parse, queue, visited, i)
      {
        if parse(queue[i]).netloc !in explored {
          return;
        }
        i := i + 1;
      }
      i := 0;
    }

    /** One pass of the `run` loop under the lock: removes exactly the selected
        entry, keeping the others in order; a visited URL is skipped, any other
        is marked visited and dispatched. */
    method RunStep() returns (dispatched: Option<string>)
      requires queue != []
      modifies this
      ensures var i := Selected(parse, old(queue), old(visited));
              && queue == old(queue)[..i] + old(queue)[i + 1..]
              && (old(queue)[i] in old(visited) ==> dispatched == None && visited == old(visited))
              && (old(queue)[i] !in old(visited) ==>
                    dispatched == Some(old(queue)[i]) && visited == old(visited) + {old(queue)[i]})
      ensures failed == old(failed)
    {
      var i := SelectIndex();
      var url := queue[i];
      queue := queue[..i] + queue[i + 1..];
      if url in visited {
        return None;
      }
      visited := visited + {url};
      return Some(url);
    }

    /** `_enqueue_links`: appends the batch and changes nothing else. URLs
        already waiting in the queue are not looked for. */
    method EnqueueLinks(baseUrl: string, links: seq<Option<string>>)
      modifies this
      ensures visited == old(visited) && failed == old(failed)
      ensures old(queue) <= queue
      ensures EnqueuedBatch(parse, links, visited, parse(baseUrl).netloc, queue[|old(queue)|..])
    {
      var batch := CollectNewLinks(Enhanced, parse, links, visited);
      var ordered := SameHostFirst(parse, parse(baseUrl).netloc, batch);
      queue := queue + ordered;
      assert queue[|old(queue)|..] == ordered;
    }

    /** `process_page`: a page robots.txt forbids is skipped; content is fetched
        through the strategy escalation; if that raises, its message is stored in
        `failed`; empty content is dropped; otherwise the page is matched and its
        links enqueued. The random Tor renewal, the saving of content and state
        and the sleeps are not modelled. */
    method ProcessPage(url: string, site: Site, variations: seq<string>) returns (record: Option<MatchRecord>)
      modifies this
      ensures visited == old(visited)
      ensures record.Some? ==> record.value.url == url && record.value.variation in variations
      ensures forall u :: u in failed ==> u in old(failed) || u == url
      ensures forall u :: u in old(failed) && u != url ==> u in failed && failed[u] == old(failed)[u]
      ensures !site.robotsAllow ==> queue == old(queue) && failed == old(failed) && record == None
      ensures site.robotsAllow && ExecuteResult(DefaultMaxRetries, site.strategies).Failure? ==>
                && queue == old(queue) && record == None
                && failed == old(failed)[url := FailureMessage(ExecuteResult(DefaultMaxRetries, site.strategies).error)]
      ensures site.robotsAllow && ExecuteResult(DefaultMaxRetries, site.strategies) == Success("") ==>
                queue == old(queue) && failed == old(failed) && record == None
      ensures site.robotsAllow && ExecuteResult(DefaultMaxRetries, site.strategies).Success? ==>
                var content := ExecuteResult(DefaultMaxRetries, site.strategies).value;
                content != "" ==>
                  && failed == old(failed)
                  && record == PageRecord(Enhanced, url, site.text(content), variations)
                  && old(queue) <= queue
                  && EnqueuedBatch(parse, site.links(content), visited, parse(url).netloc, queue[|old(queue)|..])
    {
      if !site.robotsAllow {
        return None;
      }
      var result, _, _ := Execute(DefaultMaxRetries, site.strategies, site.jitter);
      if result.Failure? {
        failed := failed[url := FailureMessage(result.error)];
        return None;
      }
      var content := result.value;
      if content == "" {
        return None;
      }
      record := AnalyzeContent(Enhanced, url, site.text(content), variations);
      EnqueueLinks(url, site.links(content));
    }

    /** The `run` loop, stopped after at most `budget` passes (the stand-in for
        the `running` flag a signal clears). No URL is dispatched twice, none
        that was visited before, and each dispatched URL ends up visited. */
    method Crawl(sites: string -> Site, variations: seq<string>, budget: nat)
      returns (dispatched: seq<string>, records: seq<MatchRecord>, passes: nat)
      modifies this
      ensures passes <= budget && (queue == [] || passes == budget)
      ensures NoDups(dispatched)
      ensures forall u :: u in dispatched ==> u !in old(visited)
      ensures visited == old(visited) + set u | u in dispatched
      ensures forall r :: r in records ==> r.url in dispatched && r.variation in variations
      ensures |records| <= |dispatched|
      ensures OneRecordPerUrl(records)
      ensures forall u :: u in failed ==> u in old(failed) || u in dispatched
      ensures forall u :: u in old(failed) && u !in dispatched ==> u in failed && failed[u] == old(failed)[u]
    {
      dispatched, records, passes := [], [], 0;
      while passes < budget && queue != []
        invariant passes <= budget
        invariant NoDups(dispatched)
        invariant forall u :: u in dispatched ==> u !in old(visited)
        invariant visited == old(visited) + set u | u in dispatched
        invariant forall r :: r in records ==> r.url in dispatched && r.variation in variations
        invariant |records| <= |dispatched|
        invariant OneRecordPerUrl(records)
        invariant forall u :: u in failed ==> u in old(failed) || u in dispatched
        invariant forall u :: u in old(failed) && u !in dispatched ==> u in failed && failed[u] == old(failed)[u]
      {
        var next := RunStep();
        passes := passes + 1;
        if next.Some? {
          var url := next.value;
          assert url !in dispatched;
          var earlier := dispatched;
          dispatched := dispatched + [url];
          var record := ProcessPage(url, sites(url), variations);
          if record.Some? {
            RecordNewUrl(records, record.value, earlier);
            records := records + [record.value];
          }
        }
      }
    }
  }
}
