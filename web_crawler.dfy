/**
 * The crawler itself (crawler/WebCrawler.java): one DownloadRunner per call
 * of `download`, whose fields are updated step by step as the tasks run.
 *
 * Every method is proved against the pure description in module Traversal:
 * after each one, the runner's fields (read together by `Snapshot`) are the
 * Traversal function of the fields before, so everything proved there about
 * Crawl holds for the runner.
 */
module WebCrawler {
  import opened Wrappers
  import opened Traversal

  class DownloadRunner<D> {
    /** The network, the parser, host extraction and the pools' acceptance. */
    const env: Environment<D>
    /** Addresses containing one of these substrings are ignored. */
    const excluded: set<string>

    var visited: set<Address>
    var downloaded: seq<Address>
    var errors: map<Address, Error>
    var nextPending: seq<Address>
    /** The parties the current level's barrier was created with. */
    var parties: nat
    /** The arrivals the current level's barrier has received. */
    var arrivals: nat

    /** Every address handed to addDownloadTask, in order. */
    ghost var processed: seq<Address>
    /** Every barrier that advanced. */
    ghost var phases: seq<Phase>

    ghost function Snapshot(): Progress
      reads this
    {
      Progress(visited, downloaded, errors, nextPending, parties, arrivals, processed, phases)
    }

    constructor (env: Environment<D>, excludes: set<string>)
      ensures this.env == env && excluded == excludes
      ensures Snapshot() == Fresh
    {
      this.env := env;
      excluded := excludes;
      visited, downloaded, errors, nextPending := {}, [], map[], [];
      parties, arrivals := 0, 0;
      processed, phases := [], [];
    }

    /** Records the error for `url` (the last one written wins) and arrives
        at the barrier. */
    method MarkError(url: Address, error: Error)
      modifies this
      ensures Snapshot() == old(Snapshot()).(errors := old(errors)[url := error], arrivals := old(arrivals) + 1)
    {
      errors := errors[url := error];
      arrivals := arrivals + 1;
    }

    /** Adds `url` to `visited`, answering whether it was new. */
    method MarkVisited(url: Address) returns (added: bool)
      modifies this`visited
      ensures added <==> url !in old(visited)
      ensures visited == old(visited) + {url}
    {
      added := url !in visited;
      visited := visited + {url};
    }

    /** True exactly when `url` is not excluded and not yet visited; an
        excluded address is not marked, since the exclusion test comes
        first. Once it has answered true for `url`, `url` is visited and it
        answers false for it from then on. */
    method NeedsDownloading(url: Address) returns (needed: bool)
      modifies this`visited
      ensures needed <==> !Excluded(excluded, url) && url !in old(visited)
      ensures visited == if Excluded(excluded, url) then old(visited) else old(visited) + {url}
      ensures needed ==> url in visited
    {
      if Excluded(excluded, url) {
        needed := false;
      } else {
        needed := MarkVisited(url);
      }
    }

    /** The extract stage for the page of `url`: if the extract pool takes
        the task, the page's links are filtered through NeedsDownloading and
        the accepted ones appended to the next frontier, or the extraction
        error is recorded; the stage arrives at the barrier exactly once. */
    method AddExtractTask(doc: D, url: Address)
      modifies this
      ensures Snapshot() == Extract(env, excluded, old(Snapshot()), url, doc)
    {
      if !env.extractAccepted(url) {
        arrivals := arrivals + 1;
        return;
      }
      match env.links(doc)
      case None =>
        MarkError(url, ExtractFailed);
      case Some(urls) =>
        ghost var before := visited;
        var accepted: seq<Address> := [];
        for k := 0 to |urls|
          modifies this`visited
          invariant visited == MarkAll(excluded, before, urls[..k])
          invariant accepted == Accept(excluded, before, urls[..k])
        {
          assert urls[..k + 1][..k] == urls[..k];
          var needed := NeedsDownloading(urls[k]);
          if needed {
            accepted := accepted + [urls[k]];
          }
        }
        assert urls[..|urls|] == urls;
        nextPending := nextPending + accepted;
        arrivals := arrivals + 1;
    }

    /** Everything that follows from handing `url` to the download stage:
        a malformed address is an error; a task the download pool rejects
        only arrives; otherwise the task runs, recording a failed download
        as an error or adding the page to `downloaded` and going on to the
        extract stage. */
    method AddDownloadTask(url: Address)
      modifies this
      ensures Snapshot() == Step(env, excluded, old(Snapshot()), url)
    {
      processed := processed + [url];
      match env.hostOf(url)
      case None =>
        MarkError(url, MalformedUrl);
      case Some(_) =>
        if !env.fetchAccepted(url) {
          arrivals := arrivals + 1;
        } else {
          match env.fetch(url)
          case None =>
            MarkError(url, FetchFailed);
          case Some(doc) =>
            downloaded := downloaded + [url];
            AddExtractTask(doc, url);
        }
    }

    /** `pending.forEach(this::addDownloadTask)`. */
    method AddDownloadTasks(pending: seq<Address>)
      modifies this
      ensures Snapshot() == RunLevel(env, excluded, old(Snapshot()), pending)
    {
      for j := 0 to |pending|
        invariant Snapshot() == RunLevel(env, excluded, old(Snapshot()), pending[..j])
      {
        assert pending[..j + 1][..j] == pending[..j];
        AddDownloadTask(pending[j]);
      }
      assert pending[..|pending|] == pending;
    }

    /** One iteration of the loop in `download`: a barrier is created with
        one party per frontier address plus the driver, the frontier is
        swapped out for an empty one, each of its addresses goes through
        AddDownloadTask, and the driver arrives and waits. The barrier
        advances at that point, every one of its parties having arrived. */
    method NextLevel()
      modifies this
      ensures Snapshot() == Advance(env, excluded, old(Snapshot()))
    {
      parties, arrivals := |nextPending| + 1, 0;
      var pending;
      pending, nextPending := nextPending, [];
      AddDownloadTasks(pending);
      arrivals := arrivals + 1;
      assert arrivals == parties;
      phases := phases + [Phase(pending, parties, arrivals)];
    }

    /** The loop of `download`: `depth` levels, none if `depth` is not
        positive. */
    method RunLevels(depth: int)
      modifies this
      ensures Snapshot() == Levels(env, excluded, old(Snapshot()), depth)
    {
      var i := 0;
      while i < depth
        invariant 0 <= i <= if depth < 0 then 0 else depth
        invariant Snapshot() == Levels(env, excluded, old(Snapshot()), i)
      {
        NextLevel();
        LevelsSucc(env, excluded, old(Snapshot()), i);
        i := i + 1;
      }
      assert Levels(env, excluded, old(Snapshot()), i) == Levels(env, excluded, old(Snapshot()), depth);
    }

    /** The crawl from `url`: the seed goes through NeedsDownloading and, if
        it is let through, becomes the only address of the first of `depth`
        levels. */
    method Download(url: Address, depth: int) returns (result: CrawlResult)
      requires Snapshot() == Fresh
      modifies this
      ensures Snapshot() == Crawl(env, excluded, url, depth)
      ensures result == Outcome(Crawl(env, excluded, url, depth))
    {
      var needed := NeedsDownloading(url);
      if needed {
        nextPending := [url];
        assert Snapshot() == Seeded(url);
        RunLevels(depth);
      } else {
        assert Excluded(excluded, url);
      }
      result := CrawlResult(downloaded, errors);
    }
  }

  /** WebCrawler.download(url, depth, excludes): a fresh runner per call. */
  method Download<D>(env: Environment<D>, url: Address, depth: int, excludes: set<string>) returns (result: CrawlResult)
    ensures result == Outcome(Crawl(env, excludes, url, depth))
  {
    var runner := new DownloadRunner(env, excludes);
    result := runner.Download(url, depth);
  }

  /** WebCrawler.download(url, depth): no exclusions. */
  method DownloadAll<D>(env: Environment<D>, url: Address, depth: int) returns (result: CrawlResult)
    ensures result == Outcome(Crawl(env, {}, url, depth))
  {
    result := Download(env, url, depth, {});
  }
}
