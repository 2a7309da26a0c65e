/** The frontier of `StealthCrawler` (Reapers/deep_reaper.py): a FIFO queue and
    the visited set. Each block the crawler runs under its lock is one method
    here, and a dispatched page is processed before the next pop (the thread
    pool is not modelled). */
module DeepCrawler {
  import opened Text
  import opened Common
  import opened Urls
  import opened Retry
  import opened Matching
  import opened Frontier

  /** What `_enqueue_links` appends: the new valid URLs, each once, none of them
      visited. */
  ghost predicate EnqueuedBatch(parse: string -> UrlParts, links: seq<Option<string>>, visited: set<string>,
                                batch: seq<string>) {
    && NoDups(batch)
    && (forall u :: u in batch <==> u in LinkTargets(Deep, parse, links) && u !in visited)
  }

  /** Some link could not be joined: `_enqueue_links` raises. */
  predicate JoinFails(links: seq<Option<string>>) {
    exists i :: 0 <= i < |links| && links[i].None?
  }

  /** What the outside world shows the crawler for one URL: the outcome of each
      of the three fetch attempts, and the text and joined links BeautifulSoup
      extracts from fetched content (`None` for a link whose joining raised). */
  datatype Site = Site(
    attempts: nat -> Outcome,
    text: string -> string,
    links: string -> seq<Option<string>>)

  class StealthCrawler {
    var queue: seq<string>
    var visited: set<string>
    /** `urlparse`, taken as given. */
    const parse: string -> UrlParts

    /** The crawler with its loaded state (the pickles are not modelled). */
    constructor (parse: string -> UrlParts, queue: seq<string>, visited: set<string>)
      ensures this.parse == parse && this.queue == queue && this.visited == visited
    {
      this.parse := parse;
      this.queue := queue;
      this.visited := visited;
    }

    /** One pass of the `run` loop under the lock: pops the head; a visited URL
        is skipped, any other is marked visited and dispatched. */
    method RunStep() returns (dispatched: Option<string>)
      requires queue != []
      modifies this
      ensures queue == old(queue)[1..]
      ensures old(queue)[0] in old(visited) ==> dispatched == None && visited == old(visited)
      ensures old(queue)[0] !in old(visited) ==>
                dispatched == Some(old(queue)[0]) && visited == old(visited) + {old(queue)[0]}
    {
      var url := queue[0];
      queue := queue[1..];
      if url in visited {
        return None;
      }
      visited := visited + {url};
      return Some(url);
    }

    /** `_enqueue_links`: appends the batch, or raises (leaving the queue as it
        was) when some link cannot be joined. */
    method EnqueueLinks(baseUrl: string, links: seq<Option<string>>) returns (raised: bool)
      modifies this
      ensures visited == old(visited)
      ensures raised <==> JoinFails(links)
      ensures raised ==> queue == old(queue)
      ensures !raised ==> old(queue) <= queue && EnqueuedBatch(parse, links, visited, queue[|old(queue)|..])
    {
      var i := 0;
      while i < |links|
        invariant i <= |links|
        invariant forall j :: 0 <= j < i ==> links[j].Some?
      {
        if links[i].None? {
          return true;
        }
        i := i + 1;
      }
      var batch := CollectNewLinks(Deep, parse, links, visited);
      queue := queue + batch;
      assert queue[|old(queue)|..] == batch;
      return false;
    }

    /** `process_page`: `_check_robots_txt` allows every URL, so content comes
        from `_fetch_content` at once; no content or empty content ends the call;
        otherwise the page is matched and its links enqueued. An exception from
        `_enqueue_links` is printed and swallowed. The random Tor renewal and the
        saving of content and state are not modelled. */
    method ProcessPage(url: string, site: Site, variations: seq<string>) returns (record: Option<MatchRecord>)
      modifies this
      ensures visited == old(visited)
      ensures record.Some? ==> record.value.url == url && record.value.variation in variations
      ensures FetchResult(site.attempts) in {None, Some("")} ==> queue == old(queue) && record == None
      ensures FetchResult(site.attempts).Some? ==>
                var content := FetchResult(site.attempts).value;
                content != "" ==>
                  && record == PageRecord(Deep, url, site.text(content), variations)
                  && (JoinFails(site.links(content)) ==> queue == old(queue))
                  && (!JoinFails(site.links(content)) ==>
                        old(queue) <= queue && EnqueuedBatch(parse, site.links(content), visited, queue[|old(queue)|..]))
    {
      var content, _, _ := FetchContent(site.attempts);
      if content.None? || content.value == "" {
        return None;
      }
      record := AnalyzeContent(Deep, url, site.text(content.value), variations);
      var _ := EnqueueLinks(url, site.links(content.value));
    }

    /** The `run` loop, stopped after at most `budget` passes (the stand-in for
        the `running` flag a signal clears). No URL is dispatched twice, none
        that was visited before, and each dispatched URL ends up visited. */
    method Crawl(sites: string -> Site, variations: seq<string>, budget: nat)
      returns (dispatched: seq<string>, records: seq<MatchRecord>, passes: nat)
      modifies this
      ensures passes <= budget && (queue == [] || passes == budget)
      ensures NoDups(dispatched)
      ensures forall u :: u in dispatched ==> u !in old(visited)
      ensures visited == old(visited) + set u | u in dispatched
      ensures forall r :: r in records ==> r.url in dispatched && r.variation in variations
    {
      dispatched, records, passes := [], [], 0;
      while passes < budget && queue != []
        invariant passes <= budget
        invariant NoDups(dispatched)
        invariant forall u :: u in dispatched ==> u !in old(visited)
        invariant visited == old(visited) + set u | u in dispatched
        invariant forall r :: r in records ==> r.url in dispatched && r.variation in variations
      {
        var next := RunStep();
        passes := passes + 1;
        if next.Some? {
          var url := next.value;
          assert url !in dispatched;
          dispatched := dispatched + [url];
          var record := ProcessPage(url, sites(url), variations);
          if record.Some? {
            records := records + [record.value];
          }
        }
      }
    }
  }
}
