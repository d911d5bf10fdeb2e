# Parallel web crawler: admission table and level-by-level crawl

This project models the core of a Java web crawler in Dafny and proves
properties of the model. The core has two parts.

- **BoundedExecutor** (`admission.dfy`, module `Admission`) is keyed
  admission control in front of a thread pool. Each task has a tag (the
  crawler uses the host). At most `bound` tasks with one tag run at a time,
  and the others wait in a per-tag FIFO queue. Class `BoundedExecutor` keeps
  the table of `DeferredEntry` values in a `map` field that `Execute` and
  `FinishTask` update. Ghost per-tag histories record every submitted
  command, every command handed to the pool, and every completion. The
  class invariant `Valid` states the following for each tag:
  - the running count stays within `1..bound` while the entry exists, and
    the entry is gone when nothing runs;
  - a non-empty queue means every slot is taken;
  - what was submitted equals what was dispatched followed by what is still
    queued, which is FIFO order with nothing lost;
  - the running count equals the number dispatched minus the number
    finished.
- **DownloadRunner** (`web_crawler.dfy`, module `WebCrawler`) is one crawl:
  - the seed passes the exclusion filter and the test-and-insert on
    `visited`;
  - then, `depth` times, a barrier (a Phaser) is created with one party per
    frontier address plus the driver, and the frontier is swapped out;
  - every address goes through the download stage, and a fetched page
    then goes through the link-extraction stage;
  - the driver arrives and waits.

  The class has the runner's fields. Each method is proved against a pure
  function of module `Traversal` (`traversal.dfy`): `Step`, `Extract`,
  `RunLevel`, `Advance`, `Levels` and `Crawl`, over a value `Progress` that
  mirrors the fields. The lemmas about `Crawl` state what a crawl promises:
  - no address is processed or downloaded twice;
  - `visited` is exactly the processed addresses plus the frontier left
    over;
  - each address's entry in `downloaded` and `errors` depends only on which
    stage failed;
  - every barrier received exactly `|frontier| + 1` arrivals;
  - exactly `depth` levels run, each level is made of links of the
    previous level's pages, and every non-excluded link of a level's pages
    is in that level, an earlier one or the next one, so the levels are the
    breadth-first layers from the seed;
  - no non-excluded link of a processed page is lost.

The network (`Downloader.download`), link extraction
(`Document.extractLinks`) and host parsing (`URLUtils.getHost`) are
deterministic functions in an `Environment`. So is whether the download pool
and the extract pool accept a task; a pool rejects work only once the
crawler is being closed. The model runs the concurrent tasks in one
sequential order: every download task, and the extract task it spawns,
runs to completion before the next address of the frontier is handed out.

The loop runs the levels `0 .. depth-1` (crawler/WebCrawler.java:153), so a
crawl of depth 2 from `a`, where `a` links to `b` and `c` and `b` links to
`d`, downloads `a`, `b` and `c` and leaves `d` in the frontier;
`Scenario.TwoLevels` proves it. For the same reason, an address exactly `depth` links from
the seed is visited but never downloaded. An address whose download task
the pool rejects is in neither `downloaded` nor `errors`.

## Model

| member | source | states |
|---|---|---|
| Admission.BoundedExecutor.constructor | crawler/BoundedExecutor.java:32-36 | a new executor has an empty table and satisfies the per-tag invariant |
| Admission.BoundedExecutor.Execute | crawler/BoundedExecutor.java:46-59 | below the bound, the running count rises by one, the command is dispatched and the queue is unchanged; at the bound, the command joins the tail of the queue and nothing is dispatched; the command is added to the tag's submitted history; every other tag is untouched; the invariant (count within 1..bound, queue only when full, submitted = dispatched ++ queue) is kept |
| Admission.BoundedExecutor.AddTask | crawler/BoundedExecutor.java:61-66 | handing a task to the pool appends it to its tag's dispatched history and changes nothing else |
| Admission.BoundedExecutor.FinishTask | crawler/BoundedExecutor.java:68-79 | a tag without an entry is left alone; otherwise the head of the queue is dispatched with the running count unchanged, or, with an empty queue, the count drops by one and the entry is deleted exactly when it reaches zero; other tags are untouched; the invariant is kept |
| Admission.BoundedExecutor.ReleaseSlot | crawler/BoundedExecutor.java:70-73 | with an empty queue the count drops by one and the entry remains exactly when the old count was above one; nothing is dispatched; the invariant is kept |
| Admission.BoundedExecutor.PassSlot | crawler/BoundedExecutor.java:74-76 | with a waiting task, the head of the queue (the oldest) is dispatched, the queue becomes its tail, and the count is unchanged; the invariant is kept |
| Traversal.ContainsIffOccurs | crawler/WebCrawler.java:141 | `url.contains(x)` holds exactly when `x` occurs in `url` at some index |
| Traversal.ExcludedIffSomeOccurrence | crawler/WebCrawler.java:141 | an address is excluded exactly when some excluded string occurs in it |
| Traversal.MarkAllMembers | crawler/WebCrawler.java:140-146 | after the link filter, `visited` holds the old visited addresses and exactly the non-excluded links |
| Traversal.AcceptSpec | crawler/WebCrawler.java:132 | the link filter lets through each link at most once, and only if it is neither excluded nor visited before; every address it marks was visited before or let through |
| Traversal.Extract | crawler/WebCrawler.java:122-138 | the extract stage arrives at the barrier exactly once on each path (rejected, extraction failure, success) |
| Traversal.Step | crawler/WebCrawler.java:97-120 | the download stage of one address arrives at the barrier exactly once on each of its paths (malformed address, rejected task, failed download, then each extract path) and leaves the barrier's parties alone |
| Traversal.StepEffect | crawler/WebCrawler.java:97-120 | the download stage appends the address to `downloaded` exactly when its page is fetched, records exactly its own error (if any), and lets its page's links through the filter |
| Traversal.RunLevel | crawler/WebCrawler.java:159 | handing out a frontier produces one arrival per address and appends the frontier to the processed addresses |
| Traversal.FetchedOfSpec | crawler/WebCrawler.java:114 | the addresses a sequence contributes to `downloaded` are exactly its members whose page is fetched, and none occurs there more often than in the sequence |
| Traversal.ErrorsOfSpec | crawler/WebCrawler.java:92-95 | the error map of a sequence has an entry for exactly its failing addresses, holding each one's own error |
| Traversal.StepInv | crawler/WebCrawler.java:97-138 | one download stage keeps the crawl invariant (no duplicates, `visited` = processed ++ frontiers, nothing excluded, records match, links closed, barriers balanced) |
| Traversal.RunLevelInv | crawler/WebCrawler.java:159 | handing out a whole frontier keeps the crawl invariant |
| Traversal.AdvanceInv | crawler/WebCrawler.java:154-160 | one iteration of the level loop keeps the crawl invariant, and its barrier is balanced |
| Traversal.LevelsInv | crawler/WebCrawler.java:153-161 | any number of levels keeps the crawl invariant |
| Traversal.CrawlInv | crawler/WebCrawler.java:148-164 | every crawl ends in a state satisfying the crawl invariant |
| Traversal.RunLevelLinked | crawler/WebCrawler.java:124-133 | the next frontier collected while running a level holds only links of that level's pages |
| Traversal.AdvanceShape | crawler/WebCrawler.java:154-160 | a level records its barrier with the frontier it ran and `|frontier| + 1` parties and arrivals, appends the frontier to the processed addresses, and leaves a next frontier made of its pages' links |
| Traversal.LevelsShape | crawler/WebCrawler.java:150-161 | `depth` levels advance `depth` barriers, the first on the initial frontier; the processed addresses are the levels' frontiers in order; each later frontier holds only links of the previous level's pages |
| Traversal.InvSafety | crawler/WebCrawler.java:148-164 | a state satisfying the crawl invariant has no duplicate in processed or downloaded, downloads only visited addresses, visits no excluded address, and has only balanced barriers |
| Traversal.CrawlSafety | crawler/WebCrawler.java:148-164 | after a crawl: no address processed or downloaded twice; `downloaded` ⊆ `visited`; no excluded address visited; `visited` = processed ∪ frontier left over; every barrier got `|frontier| + 1` arrivals for `|frontier| + 1` parties |
| Traversal.CrawlAccounting | crawler/WebCrawler.java:97-138 | after a crawl, an address is downloaded exactly when it was processed and its page fetched, and it is in `errors` exactly when it was processed and a stage failed, with that stage's error |
| Traversal.CrawlPaths | crawler/WebCrawler.java:97-138 | per path: malformed ⇒ only an error; rejected download ⇒ neither downloaded nor in error; failed download ⇒ only an error; failed extraction ⇒ both downloaded and in error; otherwise only downloaded |
| Traversal.CrawlLevels | crawler/WebCrawler.java:148-164 | exactly `depth` levels run (none for an excluded seed or `depth <= 0`, and then nothing is processed, downloaded or recorded); the seed is visited iff not excluded; level 0 is the seed alone; each later level holds only links of the previous level (the converse is `Traversal.CrawlLayers`); the levels are the processed addresses and repeat no address |
| Traversal.CrawlLayers | crawler/WebCrawler.java:150-160 | every non-excluded link of a page of level `i` is in level `i` or an earlier level, or in level `i + 1` (the frontier left over after the last level): no link is put off to a later level, so the levels are breadth-first layers |
| Traversal.CrawlClosed | crawler/WebCrawler.java:122-138 | every non-excluded link of a processed page was processed or waits in the frontier left over |
| WebCrawler.DownloadRunner.constructor | crawler/WebCrawler.java:88-90 | a new runner has nothing visited, downloaded or recorded |
| WebCrawler.DownloadRunner.MarkError | crawler/WebCrawler.java:92-95 | the error for the address is written (the last write wins) and the barrier gets one arrival; nothing else changes |
| WebCrawler.DownloadRunner.MarkVisited | crawler/WebCrawler.java:144-146 | answers whether the address was new and adds it to `visited` |
| WebCrawler.DownloadRunner.NeedsDownloading | crawler/WebCrawler.java:140-142 | true exactly when the address is neither excluded nor visited; an excluded address leaves `visited` unchanged; after a true answer the address is visited, so the next call for it answers false |
| WebCrawler.DownloadRunner.AddExtractTask | crawler/WebCrawler.java:122-138 | the runner's new state is `Extract` of the old one (the loop over the links is proved against the link filter) |
| WebCrawler.DownloadRunner.AddDownloadTask | crawler/WebCrawler.java:97-120 | the runner's new state is `Step` of the old one |
| WebCrawler.DownloadRunner.AddDownloadTasks | crawler/WebCrawler.java:159 | the runner's new state is `RunLevel` of the old one over the frontier |
| WebCrawler.DownloadRunner.NextLevel | crawler/WebCrawler.java:154-160 | the runner's new state is `Advance` of the old one; the barrier has received every party's arrival when the driver waits |
| WebCrawler.DownloadRunner.RunLevels | crawler/WebCrawler.java:153-161 | the runner's new state is `Levels` of the old one for `depth` iterations |
| WebCrawler.DownloadRunner.Download | crawler/WebCrawler.java:148-164 | from a fresh runner, the final state is `Crawl` and the result is its downloaded list and error map |
| WebCrawler.Download | crawler/WebCrawler.java:42-44 | the result of a crawl on a fresh runner is `Outcome(Crawl(...))`, so every `Crawl` lemma applies to it |
| WebCrawler.DownloadAll | crawler/WebCrawler.java:53-55 | the two-argument download is the crawl with no exclusions |
| Scenario.TwoLevels | crawler/WebCrawler.java:153-161 | depth 2 from `a` (a→b,c; b→d) downloads `a`, `b`, `c`, records no error and leaves `d` in the frontier |

## Left out

- Threads, the pools and the Phaser's blocking are not modelled. One sequential order of task completions is modelled: each download task, and its extract task, runs as soon as it is submitted. An arrival is a counter increment. The assertion in `NextLevel` that arrivals equal parties when the driver waits stands for "the barrier advances, neither early nor never".
- WebCrawler's constructor and `close` (crawler/WebCrawler.java:28-32, 60-77) and BoundedExecutor's `close`, `shutdown` and `awaitTermination` (crawler/BoundedExecutor.java:88-129) are left out. They are lifecycle and interrupt handling that delegate to the pools.
- crawler/URLUtils.java, crawler/Downloader.java and `Document` are not part of this model. They are the `Environment` functions `hostOf`, `fetch` and `links`. Failures of these are a `None` result, and the `IOException` they carry becomes an `Error` tag.
- crawler/Result.java is not part of this model. Its defensive copies are replaced by the value `CrawlResult`.
- The crawl does not route download tasks through `BoundedExecutor`. The admission table is modelled on its own in `Admission`. As long as the download pool accepts every task, the per-host bound changes only timing.
- `fetchAccepted` models only rejection when a task is submitted (crawler/WebCrawler.java:117-118). A task that the per-host bound deferred is queued, not rejected (crawler/BoundedExecutor.java:51-52). If the pool is closed before `finishTask` hands it over (crawler/BoundedExecutor.java:75), `executor.execute` throws inside the worker, after the task has left the queue. That task never runs, its address never arrives at the barrier, and the driver waits forever at crawler/WebCrawler.java:160. The model does not capture this hang.
- WebCrawler.DownloadRunner.NextLevel: does not model the Phaser's limit of 65535 parties. `new Phaser(nextPending.size() + 1)` (crawler/WebCrawler.java:154) throws `IllegalArgumentException` for a frontier of 65535 or more addresses, and `download` then throws. The model runs such a level like any other, so `Traversal.Advance`, `Traversal.CrawlLevels` and `WebCrawler.Download` promise a result that the source does not deliver in that case.
- Admission.BoundedExecutor.Execute: assumes the pool accepts every task. If `executor.execute` throws `RejectedExecutionException` inside `compute`, the source has already raised the running count in place (crawler/BoundedExecutor.java:54-55). The model does not capture that leaked slot. Rejection is modelled only on the crawler side, through `fetchAccepted` and `extractAccepted`.
- Admission.BoundedExecutor.constructor: requires `bound >= 1`. The source accepts any `int`. With `bound == 0` every task waits forever, and with a negative bound the cap never applies. The invariant is stated for positive bounds only.
- Admission.BoundedExecutor.FinishTask: the `DeferredEntry` that `compute` mutates in place (an `ArrayDeque` and an `int`) is a value that is replaced in the map, so aliasing of the entry is not modelled. Running the task between `AddTask` and `FinishTask` is left to the caller.
- WebCrawler.DownloadRunner.Download: requires a fresh runner, which is what `WebCrawler.download` always creates (crawler/WebCrawler.java:43).
- The loop of `download` is split into the methods `RunLevels`, `NextLevel` and `AddDownloadTasks` (`pending.forEach`). The list swap through `temp` and `clear` is a reassignment of sequence values.
- The order of `downloaded` is the order of the sequential schedule. With real threads it can be any interleaving.
