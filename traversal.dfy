/**
 * The level-by-level crawl of crawler/WebCrawler.java (inner class
 * DownloadRunner), stated as pure functions over a value `Progress` that
 * mirrors the runner's fields.
 *
 * The network, the HTML parser and host extraction are deterministic
 * collaborators (`Environment`). Whether the download pool or the extract
 * pool accepts a submission is also a collaborator: the pools reject work
 * only once the crawler is being closed.
 *
 * One sequential order of the concurrent tasks is modelled: every download
 * task, and the extract task it spawns, runs to completion before the next
 * address of the frontier is handed out. The level barrier (a Phaser) is a
 * party count and an arrival counter.
 */
module Traversal {
  import opened Wrappers

  type Address = string
  type Host = string

  /** What is recorded for an address that failed. */
  datatype Error = MalformedUrl | FetchFailed | ExtractFailed

  /** The collaborators of one crawl. */
  datatype Environment<!D> = Environment(
    hostOf: Address -> Option<Host>,   // None: the address is malformed
    fetch: Address -> Option<D>,       // None: the download failed
    links: D -> Option<seq<Address>>,  // None: link extraction failed
    fetchAccepted: Address -> bool,    // the download pool takes this address's task
    extractAccepted: Address -> bool)  // the extract pool takes this address's task

  /** One level barrier once it has advanced: the addresses of the level,
      the parties it was created with and the arrivals it received. */
  datatype Phase = Phase(frontier: seq<Address>, parties: nat, arrived: nat)

  /** The state of one crawl: the runner's fields, the current barrier, and
      two records the source keeps only implicitly: every address handed to
      the download step (in order) and every barrier that advanced. */
  datatype Progress = Progress(
    visited: set<Address>,
    downloaded: seq<Address>,
    errors: map<Address, Error>,
    nextPending: seq<Address>,
    parties: nat,
    arrivals: nat,
    processed: seq<Address>,
    phases: seq<Phase>)

  /** A new runner: nothing visited, downloaded or recorded. */
  const Fresh := Progress({}, [], map[], [], 0, 0, [], [])

  /** The snapshot returned to the caller (crawler/Result.java). */
  datatype CrawlResult = CrawlResult(downloaded: seq<Address>, errors: map<Address, Error>)

  function Outcome(p: Progress): CrawlResult
  {
    CrawlResult(p.downloaded, p.errors)
  }

  // ---------------------------------------------------------------------
  // Exclusion

  /** `s` contains `sub` (Java's String.contains): `sub` is a prefix of `s`
      or is contained in the rest of `s`. */
  function Contains(s: string, sub: string): bool
    decreases |s|
  {
    (|sub| <= |s| && s[..|sub|] == sub) || (|sub| < |s| && Contains(s[1..], sub))
  }

  /** `sub` occurs in `s` starting at index `i`. */
  ghost predicate OccursAt(s: string, sub: string, i: int)
  {
    0 <= i && i + |sub| <= |s| && s[i..i + |sub|] == sub
  }

  lemma TailSlice(s: string, i: nat, n: nat)
    requires i + n < |s|
    ensures s[1..][i..i + n] == s[i + 1..i + 1 + n]
  {
    var a, b := s[1..][i..i + n], s[i + 1..i + 1 + n];
    assert |a| == |b|;
    assert forall k | 0 <= k < n :: a[k] == b[k];
  }

  lemma {:induction false} OccursContains(s: string, sub: string, i: int)
    requires OccursAt(s, sub, i)
    ensures Contains(s, sub)
    decreases |s|
  {
    if i > 0 {
      TailSlice(s, i - 1, |sub|);
      assert OccursAt(s[1..], sub, i - 1);
      OccursContains(s[1..], sub, i - 1);
    } else {
      assert s[..|sub|] == s[i..i + |sub|];
    }
  }

  lemma {:induction false} ContainsOccurs(s: string, sub: string)
    requires Contains(s, sub)
    ensures exists i :: OccursAt(s, sub, i)
    decreases |s|
  {
    if |sub| <= |s| && s[..|sub|] == sub {
      assert OccursAt(s, sub, 0);
    } else {
      ContainsOccurs(s[1..], sub);
      var i :| OccursAt(s[1..], sub, i);
      TailSlice(s, i, |sub|);
      assert OccursAt(s, sub, i + 1);
    }
  }

  /** Contains agrees with the plain definition of a substring occurrence. */
  lemma ContainsIffOccurs(s: string, sub: string)
    ensures Contains(s, sub) <==> exists i :: OccursAt(s, sub, i)
  {
    if Contains(s, sub) {
      ContainsOccurs(s, sub);
    }
    if exists i :: OccursAt(s, sub, i) {
      var i :| OccursAt(s, sub, i);
      OccursContains(s, sub, i);
    }
  }

  /** `url` contains one of the excluded substrings: the negation of the
      source's `excluded.stream().noneMatch(url::contains)`. */
  predicate Excluded(excluded: set<string>, url: Address)
  {
    exists x | x in excluded :: Contains(url, x)
  }

  lemma ExcludedIffSomeOccurrence(excluded: set<string>, url: Address)
    ensures Excluded(excluded, url) <==> exists x, i :: x in excluded && OccursAt(url, x, i)
  {
    forall x | x in excluded {
      ContainsIffOccurs(url, x);
    }
  }

  // ---------------------------------------------------------------------
  // The link filter: `urls.stream().filter(this::needsDownloading)`

  /** `visited` after `needsDownloading` has run on each of `urls`. */
  function MarkAll(excluded: set<string>, visited: set<Address>, urls: seq<Address>): set<Address>
    decreases |urls|
  {
    if urls == [] then visited
    else
      var u := urls[|urls| - 1];
      var v := MarkAll(excluded, visited, urls[..|urls| - 1]);
      if Excluded(excluded, u) then v else v + {u}
  }

  /** Every address of `urls` that is not excluded gets marked, and nothing else. */
  lemma {:induction false} MarkAllMembers(excluded: set<string>, visited: set<Address>, urls: seq<Address>)
    ensures forall u :: u in MarkAll(excluded, visited, urls) <==> u in visited || (u in urls && !Excluded(excluded, u))
    decreases |urls|
  {
    if urls != [] {
      var front := urls[..|urls| - 1];
      assert urls == front + [urls[|urls| - 1]];
      MarkAllMembers(excluded, visited, front);
    }
  }

  /** The addresses for which `needsDownloading` answers true, in order. */
  function Accept(excluded: set<string>, visited: set<Address>, urls: seq<Address>): seq<Address>
    decreases |urls|
  {
    if urls == [] then []
    else
      var front := urls[..|urls| - 1];
      var u := urls[|urls| - 1];
      Accept(excluded, visited, front) + (if !Excluded(excluded, u) && u !in MarkAll(excluded, visited, front) then [u] else [])
  }

  /** The test-and-insert on `visited` lets through each address of `urls`
      at most once, only if it is neither excluded nor visited before, and
      every address it marks is either visited before or let through. */
  lemma {:induction false} AcceptSpec(excluded: set<string>, visited: set<Address>, urls: seq<Address>)
    ensures NoDup(Accept(excluded, visited, urls))
    ensures forall u | u in Accept(excluded, visited, urls) :: u in urls && !Excluded(excluded, u) && u !in visited
    ensures forall u :: u in MarkAll(excluded, visited, urls) <==> u in visited || u in Accept(excluded, visited, urls)
    decreases |urls|
  {
    if urls != [] {
      var front := urls[..|urls| - 1];
      var u := urls[|urls| - 1];
      assert urls == front + [u];
      AcceptSpec(excluded, visited, front);
      MarkAllMembers(excluded, visited, front);
    }
  }

  /** No element occurs twice. */
  ghost predicate NoDup(s: seq<Address>)
  {
    forall x :: multiset(s)[x] <= 1
  }

  // ---------------------------------------------------------------------
  // One address: addDownloadTask, the download task, addExtractTask and the
  // extract task, each ending in exactly one barrier arrival.

  /** The extract stage for the page of `url` (addExtractTask). */
  function Extract<D>(env: Environment<D>, excluded: set<string>, p: Progress, url: Address, doc: D): (r: Progress)
    ensures r.arrivals == p.arrivals + 1
  {
    if !env.extractAccepted(url) then p.(arrivals := p.arrivals + 1)
    else match env.links(doc)
      case None => p.(errors := p.errors[url := ExtractFailed], arrivals := p.arrivals + 1)
      case Some(urls) =>
        p.(visited := MarkAll(excluded, p.visited, urls),
           nextPending := p.nextPending + Accept(excluded, p.visited, urls),
           arrivals := p.arrivals + 1)
  }

  /** Everything that happens for one frontier address (addDownloadTask and
      the download task it submits). */
  function Step<D>(env: Environment<D>, excluded: set<string>, p: Progress, url: Address): (r: Progress)
    ensures r.arrivals == p.arrivals + 1
    ensures r.processed == p.processed + [url]
    ensures r.parties == p.parties && r.phases == p.phases
  {
    var p := p.(processed := p.processed + [url]);
    match env.hostOf(url)
    case None => p.(errors := p.errors[url := MalformedUrl], arrivals := p.arrivals + 1)
    case Some(_) =>
      if !env.fetchAccepted(url) then p.(arrivals := p.arrivals + 1)
      else match env.fetch(url)
        case None => p.(errors := p.errors[url := FetchFailed], arrivals := p.arrivals + 1)
        case Some(doc) => Extract(env, excluded, p.(downloaded := p.downloaded + [url]), url, doc)
  }

  /** The download step applied to each address of `frontier` in turn
      (`pending.forEach(this::addDownloadTask)`). */
  function RunLevel<D>(env: Environment<D>, excluded: set<string>, p: Progress, frontier: seq<Address>): (r: Progress)
    ensures r.arrivals == p.arrivals + |frontier|
    ensures r.processed == p.processed + frontier
    ensures r.parties == p.parties && r.phases == p.phases
    decreases |frontier|
  {
    if frontier == [] then p
    else
      var front := frontier[..|frontier| - 1];
      assert frontier == front + [frontier[|frontier| - 1]];
      Step(env, excluded, RunLevel(env, excluded, p, front), frontier[|frontier| - 1])
  }

  /** One iteration of the loop in `download`: a barrier with one party per
      pending address plus the driver, the frontier swap, the level's tasks,
      and the driver's own arrival. */
  function Advance<D>(env: Environment<D>, excluded: set<string>, p: Progress): (r: Progress)
  {
    var frontier := p.nextPending;
    var start := p.(parties := |frontier| + 1, arrivals := 0, nextPending := []);
    var q := RunLevel(env, excluded, start, frontier);
    q.(arrivals := q.arrivals + 1, phases := q.phases + [Phase(frontier, q.parties, q.arrivals + 1)])
  }

  /** `depth` iterations of the loop (none when `depth <= 0`). */
  function Levels<D>(env: Environment<D>, excluded: set<string>, p: Progress, depth: int): (r: Progress)
    decreases depth
  {
    if depth <= 0 then p else Advance(env, excluded, Levels(env, excluded, p, depth - 1))
  }

  /** One more level is one more Advance. */
  lemma LevelsSucc<D>(env: Environment<D>, excluded: set<string>, p: Progress, depth: nat)
    ensures Levels(env, excluded, p, depth + 1) == Advance(env, excluded, Levels(env, excluded, p, depth))
  {
  }

  /** The whole crawl (DownloadRunner.download). */
  function Crawl<D>(env: Environment<D>, excluded: set<string>, seed: Address, depth: int): Progress
  {
    if Excluded(excluded, seed) then Fresh
    else Levels(env, excluded, Seeded(seed), depth)
  }

  // ---------------------------------------------------------------------
  // What happens to one address, independently of the crawl around it.

  /** The page of `u` is downloaded once its task runs. */
  predicate Fetched<D>(env: Environment<D>, u: Address)
  {
    env.hostOf(u).Some? && env.fetchAccepted(u) && env.fetch(u).Some?
  }

  /** The error recorded for `u` once its task runs, if any. */
  function ErrorOf<D>(env: Environment<D>, u: Address): Option<Error>
  {
    match env.hostOf(u)
    case None => Some(MalformedUrl)
    case Some(_) =>
      if !env.fetchAccepted(u) then None
      else match env.fetch(u)
        case None => Some(FetchFailed)
        case Some(doc) => if env.extractAccepted(u) && env.links(doc).None? then Some(ExtractFailed) else None
  }

  /** The links the crawl learns from the page of `u` (none unless the page
      is downloaded and its links are extracted). */
  function Discovered<D>(env: Environment<D>, u: Address): seq<Address>
  {
    if Fetched(env, u) && env.extractAccepted(u) && env.links(env.fetch(u).value).Some?
    then env.links(env.fetch(u).value).value
    else []
  }

  /** The download step adds `url` to `downloaded` exactly when its page
      is fetched, records exactly its own error if it has one, and lets
      through its page's links as the link filter does. */
  lemma StepEffect<D>(env: Environment<D>, excluded: set<string>, p: Progress, url: Address)
    ensures var r := Step(env, excluded, p, url);
      && r.downloaded == p.downloaded + (if Fetched(env, url) then [url] else [])
      && r.errors == (if ErrorOf(env, url).Some? then p.errors[url := ErrorOf(env, url).value] else p.errors)
      && r.visited == MarkAll(excluded, p.visited, Discovered(env, url))
      && r.nextPending == p.nextPending + Accept(excluded, p.visited, Discovered(env, url))
  {
  }

  /** The addresses of `s` whose page gets downloaded, in order. */
  function FetchedOf<D>(env: Environment<D>, s: seq<Address>): seq<Address>
    decreases |s|
  {
    if s == [] then []
    else FetchedOf(env, s[..|s| - 1]) + (if Fetched(env, s[|s| - 1]) then [s[|s| - 1]] else [])
  }

  /** FetchedOf keeps exactly the downloaded addresses and repeats none that
      `s` does not repeat. */
  lemma {:induction false} FetchedOfSpec<D>(env: Environment<D>, s: seq<Address>)
    ensures forall u :: u in FetchedOf(env, s) <==> u in s && Fetched(env, u)
    ensures forall u :: multiset(FetchedOf(env, s))[u] <= multiset(s)[u]
    decreases |s|
  {
    if s != [] {
      var front := s[..|s| - 1];
      assert s == front + [s[|s| - 1]];
      FetchedOfSpec(env, front);
    }
  }

  /** The errors recorded for the addresses of `s`, the last write winning. */
  function ErrorsOf<D>(env: Environment<D>, s: seq<Address>): map<Address, Error>
    decreases |s|
  {
    if s == [] then map[]
    else
      var m := ErrorsOf(env, s[..|s| - 1]);
      match ErrorOf(env, s[|s| - 1])
      case None => m
      case Some(e) => m[s[|s| - 1] := e]
  }

  /** ErrorsOf holds an entry for exactly the failing addresses of `s`, each
      with that address's own error. */
  lemma {:induction false} ErrorsOfSpec<D>(env: Environment<D>, s: seq<Address>)
    ensures forall u :: u in ErrorsOf(env, s) <==> u in s && ErrorOf(env, u).Some?
    ensures forall u | u in ErrorsOf(env, s) :: ErrorOf(env, u) == Some(ErrorsOf(env, s)[u])
    decreases |s|
  {
    if s != [] {
      var front := s[..|s| - 1];
      assert s == front + [s[|s| - 1]];
      ErrorsOfSpec(env, front);
    }
  }

  // ---------------------------------------------------------------------
  // The crawl invariant

  /** No address is in two places among the processed addresses, the rest
      of the current frontier and the next frontier, and `visited` holds
      exactly those addresses, none of them excluded. */
  ghost predicate Disjoint(excluded: set<string>, p: Progress, rest: seq<Address>)
  {
    var all := p.processed + rest + p.nextPending;
    && NoDup(all)
    && (forall u :: u in p.visited <==> u in all)
    && (forall u | u in p.visited :: !Excluded(excluded, u))
  }

  /** `downloaded` and `errors` are what the processed addresses produce. */
  ghost predicate Recorded<D>(env: Environment<D>, p: Progress)
  {
    && p.downloaded == FetchedOf(env, p.processed)
    && p.errors == ErrorsOf(env, p.processed)
  }

  /** The links of every processed page are visited unless excluded. */
  ghost predicate Closed<D>(env: Environment<D>, excluded: set<string>, p: Progress)
  {
    forall u, l | u in p.processed && l in Discovered(env, u) :: !Excluded(excluded, l) ==> l in p.visited
  }

  /** Every barrier that advanced had one party per address of its level
      plus the driver, and received exactly that many arrivals. */
  ghost predicate Balanced(p: Progress)
  {
    forall ph | ph in p.phases :: ph.arrived == ph.parties == |ph.frontier| + 1
  }

  /** The crawl invariant, while `rest` is the part of the current frontier
      not yet handed out. */
  ghost predicate Inv<D>(env: Environment<D>, excluded: set<string>, p: Progress, rest: seq<Address>)
  {
    Disjoint(excluded, p, rest) && Recorded(env, p) && Closed(env, excluded, p) && Balanced(p)
  }

  /** Accepting `links` adds only addresses found nowhere in `before`. */
  lemma NoDupAfterAccept(excluded: set<string>, visited: set<Address>, before: seq<Address>, links: seq<Address>)
    requires NoDup(before)
    requires forall u | u in before :: u in visited
    ensures NoDup(before + Accept(excluded, visited, links))
  {
    var added := Accept(excluded, visited, links);
    AcceptSpec(excluded, visited, links);
    assert multiset(before + added) == multiset(before) + multiset(added);
    forall x
      ensures multiset(before + added)[x] <= 1
    {
      if x in added {
        assert multiset(before)[x] == 0;
      }
    }
  }

  /** Disjoint survives handing out `url` and accepting some of `links`. */
  lemma DisjointAfterStep(excluded: set<string>, p: Progress, r: Progress, url: Address, rest: seq<Address>, links: seq<Address>)
    requires Disjoint(excluded, p, [url] + rest)
    requires r.processed == p.processed + [url]
    requires r.visited == MarkAll(excluded, p.visited, links)
    requires r.nextPending == p.nextPending + Accept(excluded, p.visited, links)
    ensures Disjoint(excluded, r, rest)
  {
    var added := Accept(excluded, p.visited, links);
    var before := p.processed + ([url] + rest) + p.nextPending;
    var after := r.processed + rest + r.nextPending;
    assert after == before + added;
    NoDupAfterAccept(excluded, p.visited, before, links);
    AcceptSpec(excluded, p.visited, links);
    MarkAllMembers(excluded, p.visited, links);
  }

  lemma StepDisjoint<D>(env: Environment<D>, excluded: set<string>, p: Progress, url: Address, rest: seq<Address>)
    requires Disjoint(excluded, p, [url] + rest)
    ensures Disjoint(excluded, Step(env, excluded, p, url), rest)
  {
    StepEffect(env, excluded, p, url);
    DisjointAfterStep(excluded, p, Step(env, excluded, p, url), url, rest, Discovered(env, url));
  }

  lemma StepRecorded<D>(env: Environment<D>, excluded: set<string>, p: Progress, url: Address)
    requires Recorded(env, p)
    ensures Recorded(env, Step(env, excluded, p, url))
  {
    var r := Step(env, excluded, p, url);
    StepEffect(env, excluded, p, url);
    assert r.processed[..|r.processed| - 1] == p.processed;
  }

  lemma StepClosed<D>(env: Environment<D>, excluded: set<string>, p: Progress, url: Address)
    requires Closed(env, excluded, p)
    ensures Closed(env, excluded, Step(env, excluded, p, url))
  {
    StepEffect(env, excluded, p, url);
    MarkAllMembers(excluded, p.visited, Discovered(env, url));
  }

  lemma StepInv<D>(env: Environment<D>, excluded: set<string>, p: Progress, url: Address, rest: seq<Address>)
    requires Inv(env, excluded, p, [url] + rest)
    ensures Inv(env, excluded, Step(env, excluded, p, url), rest)
  {
    StepDisjoint(env, excluded, p, url, rest);
    StepRecorded(env, excluded, p, url);
    StepClosed(env, excluded, p, url);
  }

  lemma {:induction false} RunLevelInv<D>(env: Environment<D>, excluded: set<string>, p: Progress, frontier: seq<Address>, rest: seq<Address>)
    requires Inv(env, excluded, p, frontier + rest)
    ensures Inv(env, excluded, RunLevel(env, excluded, p, frontier), rest)
    decreases |frontier|
  {
    if frontier != [] {
      var n := |frontier| - 1;
      assert frontier[..n] + ([frontier[n]] + rest) == frontier + rest;
      RunLevelInv(env, excluded, p, frontier[..n], [frontier[n]] + rest);
      StepInv(env, excluded, RunLevel(env, excluded, p, frontier[..n]), frontier[n], rest);
      assert RunLevel(env, excluded, p, frontier) == Step(env, excluded, RunLevel(env, excluded, p, frontier[..n]), frontier[n]);
    } else {
      assert frontier + rest == rest;
    }
  }

  /** The invariant does not depend on the barrier counters, nor on where
      the boundary between the current and the next frontier lies. */
  lemma InvMove<D>(env: Environment<D>, excluded: set<string>, p: Progress, rest: seq<Address>, q: Progress, rest': seq<Address>)
    requires Inv(env, excluded, p, rest)
    requires q.visited == p.visited && q.downloaded == p.downloaded && q.errors == p.errors
    requires q.processed == p.processed && rest' + q.nextPending == rest + p.nextPending
    requires Balanced(q)
    ensures Inv(env, excluded, q, rest')
  {
    assert p.processed + rest + p.nextPending == p.processed + (rest + p.nextPending);
    assert q.processed + rest' + q.nextPending == q.processed + (rest' + q.nextPending);
  }

  lemma AdvanceInv<D>(env: Environment<D>, excluded: set<string>, p: Progress)
    requires Inv(env, excluded, p, [])
    ensures Inv(env, excluded, Advance(env, excluded, p), [])
  {
    var frontier := p.nextPending;
    var start := p.(parties := |frontier| + 1, arrivals := 0, nextPending := []);
    assert frontier + [] == [] + frontier;
    InvMove(env, excluded, p, [], start, frontier);
    assert frontier + [] == frontier;
    RunLevelInv(env, excluded, start, frontier, []);
    var q := RunLevel(env, excluded, start, frontier);
    var r := Advance(env, excluded, p);
    assert r.phases == q.phases + [Phase(frontier, |frontier| + 1, |frontier| + 1)];
    InvMove(env, excluded, q, [], r, []);
  }

  lemma {:induction false} LevelsInv<D>(env: Environment<D>, excluded: set<string>, p: Progress, depth: int)
    requires Inv(env, excluded, p, [])
    ensures Inv(env, excluded, Levels(env, excluded, p, depth), [])
    decreases depth
  {
    if depth > 0 {
      LevelsInv(env, excluded, p, depth - 1);
      LevelInv(env, excluded, p, depth);
    }
  }

  lemma LevelInv<D>(env: Environment<D>, excluded: set<string>, p: Progress, depth: int)
    requires depth > 0 && Inv(env, excluded, Levels(env, excluded, p, depth - 1), [])
    ensures Inv(env, excluded, Levels(env, excluded, p, depth), [])
  {
    AdvanceInv(env, excluded, Levels(env, excluded, p, depth - 1));
  }

  lemma CrawlInv<D>(env: Environment<D>, excluded: set<string>, seed: Address, depth: int)
    ensures Inv(env, excluded, Crawl(env, excluded, seed, depth), [])
  {
    if !Excluded(excluded, seed) {
      assert Seeded(seed).processed + [] + Seeded(seed).nextPending == [seed];
      LevelsInv(env, excluded, Seeded(seed), depth);
    }
  }

  // ---------------------------------------------------------------------
  // The shape of the levels

  /** The addresses of the advanced levels, level after level. */
  function Flatten(phases: seq<Phase>): seq<Address>
    decreases |phases|
  {
    if phases == [] then [] else Flatten(phases[..|phases| - 1]) + phases[|phases| - 1].frontier
  }

  /** Each level's addresses are among the flattened ones. */
  lemma {:induction false} FlattenHolds(phases: seq<Phase>, i: nat)
    requires i < |phases|
    ensures forall u | u in phases[i].frontier :: u in Flatten(phases)
    decreases |phases|
  {
    if i < |phases| - 1 {
      FlattenHolds(phases[..|phases| - 1], i);
    }
  }

  /** Every address of `next` is a link of the page of some address of `level`. */
  ghost predicate LinkedFrom<D>(env: Environment<D>, level: seq<Address>, next: seq<Address>)
  {
    forall u | u in next :: exists v | v in level :: u in Discovered(env, v)
  }

  /** Starting with an empty next frontier, running a level collects only
      links of that level's pages. */
  lemma {:induction false} RunLevelLinked<D>(env: Environment<D>, excluded: set<string>, p: Progress, frontier: seq<Address>)
    requires p.nextPending == []
    ensures LinkedFrom(env, frontier, RunLevel(env, excluded, p, frontier).nextPending)
    decreases |frontier|
  {
    if frontier != [] {
      var n := |frontier| - 1;
      var q := RunLevel(env, excluded, p, frontier[..n]);
      RunLevelLinked(env, excluded, p, frontier[..n]);
      AcceptSpec(excluded, q.visited, Discovered(env, frontier[n]));
      StepEffect(env, excluded, q, frontier[n]);
      var r := Step(env, excluded, q, frontier[n]);
      assert RunLevel(env, excluded, p, frontier) == r;
      forall u | u in r.nextPending
        ensures exists v | v in frontier :: u in Discovered(env, v)
      {
        if u in q.nextPending {
          var v :| v in frontier[..n] && u in Discovered(env, v);
          assert v in frontier;
        } else {
          assert u in Discovered(env, frontier[n]);
        }
      }
    }
  }

  /** One level: its barrier is recorded with the frontier it ran, the
      frontier is appended to the processed addresses, and the next
      frontier holds only links of its pages. */
  lemma AdvanceShape<D>(env: Environment<D>, excluded: set<string>, p: Progress)
    ensures Advance(env, excluded, p).phases == p.phases + [Phase(p.nextPending, |p.nextPending| + 1, |p.nextPending| + 1)]
    ensures Advance(env, excluded, p).processed == p.processed + p.nextPending
    ensures LinkedFrom(env, p.nextPending, Advance(env, excluded, p).nextPending)
  {
    var start := p.(parties := |p.nextPending| + 1, arrivals := 0, nextPending := []);
    RunLevelLinked(env, excluded, start, p.nextPending);
  }

  /** From a runner that has processed nothing, `depth` levels advance
      `depth` barriers; the processed addresses are the levels' frontiers
      in order; the first frontier is the initial one and each later one,
      as well as the frontier left over, holds only links of the previous
      level's pages. */
  lemma {:induction false} LevelsShape<D>(env: Environment<D>, excluded: set<string>, p: Progress, depth: int)
    requires p.phases == [] && p.processed == []
    ensures |Levels(env, excluded, p, depth).phases| == if depth <= 0 then 0 else depth
    ensures Levels(env, excluded, p, depth).processed == Flatten(Levels(env, excluded, p, depth).phases)
    ensures depth > 0 ==> Levels(env, excluded, p, depth).phases[0].frontier == p.nextPending
    ensures forall i | 0 < i < |Levels(env, excluded, p, depth).phases| ::
              LinkedFrom(env, Levels(env, excluded, p, depth).phases[i - 1].frontier, Levels(env, excluded, p, depth).phases[i].frontier)
    ensures depth > 0 ==>
              LinkedFrom(env, Levels(env, excluded, p, depth).phases[depth - 1].frontier, Levels(env, excluded, p, depth).nextPending)
    decreases depth
  {
    if depth > 0 {
      var q := Levels(env, excluded, p, depth - 1);
      var r := Advance(env, excluded, q);
      LevelsShape(env, excluded, p, depth - 1);
      AdvanceShape(env, excluded, q);
      assert Levels(env, excluded, p, depth) == r;
      assert r.phases[..|r.phases| - 1] == q.phases;
      assert r.processed == Flatten(r.phases);
      forall i | 0 < i < |r.phases|
        ensures LinkedFrom(env, r.phases[i - 1].frontier, r.phases[i].frontier)
      {
        if i < |q.phases| {
          assert r.phases[i - 1] == q.phases[i - 1] && r.phases[i] == q.phases[i];
        }
      }
    }
  }

  /** The frontier that followed level `i`: the next level's, or the one
      left over after the last level. */
  function NextFrontier(p: Progress, i: nat): seq<Address>
  {
    if i + 1 < |p.phases| then p.phases[i + 1].frontier else p.nextPending
  }

  /** Every non-excluded link of a page of level `i` is in that level or an
      earlier one, or in the frontier that followed it: no link is put off
      to a later level. */
  ghost predicate LevelComplete<D>(env: Environment<D>, excluded: set<string>, p: Progress, i: nat)
    requires i < |p.phases|
  {
    forall v, l | v in p.phases[i].frontier && l in Discovered(env, v) && !Excluded(excluded, l) ::
      l in Flatten(p.phases[..i + 1]) || l in NextFrontier(p, i)
  }

  /** Every advanced level is complete. */
  ghost predicate Layered<D>(env: Environment<D>, excluded: set<string>, p: Progress)
  {
    forall i | 0 <= i < |p.phases| :: LevelComplete(env, excluded, p, i)
  }

  /** A level that was complete stays complete when one more level runs:
      the frontier that followed it becomes the new level's. */
  lemma AdvanceKeepsLevel<D>(env: Environment<D>, excluded: set<string>, q: Progress, i: nat)
    requires i < |q.phases| && LevelComplete(env, excluded, q, i)
    ensures i < |Advance(env, excluded, q).phases| && LevelComplete(env, excluded, Advance(env, excluded, q), i)
  {
    var r := Advance(env, excluded, q);
    AdvanceShape(env, excluded, q);
    assert r.phases[..i + 1] == q.phases[..i + 1];
    assert r.phases[i] == q.phases[i];
    assert NextFrontier(r, i) == NextFrontier(q, i);
  }

  /** The level that has just run is complete: the link filter visited each
      non-excluded link of its pages, and a visited address was processed
      (in this level or an earlier one) or waits in the next frontier. */
  lemma AdvanceCompletesLevel<D>(env: Environment<D>, excluded: set<string>, q: Progress)
    requires Inv(env, excluded, q, []) && q.processed == Flatten(q.phases)
    ensures |Advance(env, excluded, q).phases| == |q.phases| + 1
    ensures LevelComplete(env, excluded, Advance(env, excluded, q), |q.phases|)
  {
    var r := Advance(env, excluded, q);
    var i := |q.phases|;
    AdvanceShape(env, excluded, q);
    AdvanceInv(env, excluded, q);
    InvSafety(env, excluded, r);
    assert r.phases[..i] == q.phases;
    assert r.phases[..i + 1] == r.phases;
    assert r.processed == Flatten(r.phases);
    assert Closed(env, excluded, r);
    forall v, l | v in r.phases[i].frontier && l in Discovered(env, v) && !Excluded(excluded, l)
      ensures l in Flatten(r.phases[..i + 1]) || l in NextFrontier(r, i)
    {
      assert v in r.processed;
      assert l in r.visited;
    }
  }

  /** One more level keeps every level complete. */
  lemma AdvanceLayered<D>(env: Environment<D>, excluded: set<string>, q: Progress)
    requires Inv(env, excluded, q, []) && q.processed == Flatten(q.phases)
    requires Layered(env, excluded, q)
    ensures Layered(env, excluded, Advance(env, excluded, q))
  {
    AdvanceCompletesLevel(env, excluded, q);
    var r := Advance(env, excluded, q);
    forall i | 0 <= i < |r.phases|
      ensures LevelComplete(env, excluded, r, i)
    {
      if i < |q.phases| {
        AdvanceKeepsLevel(env, excluded, q, i);
      }
    }
  }

  /** From a runner that has processed nothing, every level of `depth`
      levels is complete. */
  lemma {:induction false} LevelsLayered<D>(env: Environment<D>, excluded: set<string>, p: Progress, depth: int)
    requires Inv(env, excluded, p, []) && p.phases == [] && p.processed == []
    ensures Layered(env, excluded, Levels(env, excluded, p, depth))
    decreases depth
  {
    if depth > 0 {
      LevelsLayered(env, excluded, p, depth - 1);
      LevelsInv(env, excluded, p, depth - 1);
      LevelsShape(env, excluded, p, depth - 1);
      AdvanceLayered(env, excluded, Levels(env, excluded, p, depth - 1));
    }
  }

  /** Completeness of every level, written out. */
  lemma LayeredLinks<D>(env: Environment<D>, excluded: set<string>, r: Progress)
    requires Layered(env, excluded, r)
    ensures forall i, v, l | 0 <= i < |r.phases| && v in r.phases[i].frontier && l in Discovered(env, v) && !Excluded(excluded, l) ::
        || l in Flatten(r.phases[..i + 1])
        || (i + 1 < |r.phases| && l in r.phases[i + 1].frontier)
        || (i + 1 == |r.phases| && l in r.nextPending)
  {
    forall i, v, l | 0 <= i < |r.phases| && v in r.phases[i].frontier && l in Discovered(env, v) && !Excluded(excluded, l)
      ensures || l in Flatten(r.phases[..i + 1])
              || (i + 1 < |r.phases| && l in r.phases[i + 1].frontier)
              || (i + 1 == |r.phases| && l in r.nextPending)
    {
      assert LevelComplete(env, excluded, r, i);
    }
  }

  // ---------------------------------------------------------------------
  // What one crawl promises

  /** The runner right after `download` has let the seed through. */
  function Seeded(seed: Address): Progress
  {
    Fresh.(visited := {seed}, nextPending := [seed])
  }

  lemma NoDupPrefix(s: seq<Address>, t: seq<Address>)
    requires NoDup(s + t)
    ensures NoDup(s)
  {
    forall x
      ensures multiset(s)[x] <= 1
    {
      assert multiset(s + t)[x] == multiset(s)[x] + multiset(t)[x];
    }
  }

  /** What the crawl invariant says about a runner whose level is done. */
  lemma InvSafety<D>(env: Environment<D>, excluded: set<string>, p: Progress)
    requires Inv(env, excluded, p, [])
    ensures NoDup(p.processed) && NoDup(p.downloaded)
    ensures forall u | u in p.downloaded :: u in p.visited
    ensures forall u | u in p.visited :: !Excluded(excluded, u)
    ensures forall u :: u in p.visited <==> u in p.processed || u in p.nextPending
    ensures forall ph | ph in p.phases :: ph.arrived == ph.parties == |ph.frontier| + 1
  {
    assert p.processed + [] + p.nextPending == p.processed + p.nextPending;
    NoDupPrefix(p.processed, p.nextPending);
    FetchedOfSpec(env, p.processed);
  }

  /** No address is handed to the download step twice, so none is
      downloaded twice; everything downloaded was visited; no visited
      address is excluded; `visited` is exactly the processed addresses and
      the frontier left over; and every barrier received as many arrivals as
      it had parties, one per address of its level plus the driver. */
  lemma CrawlSafety<D>(env: Environment<D>, excluded: set<string>, seed: Address, depth: int)
    ensures var r := Crawl(env, excluded, seed, depth);
      && NoDup(r.processed)
      && NoDup(r.downloaded)
      && (forall u | u in r.downloaded :: u in r.visited)
      && (forall u | u in r.visited :: !Excluded(excluded, u))
      && (forall u :: u in r.visited <==> u in r.processed || u in r.nextPending)
      && (forall ph | ph in r.phases :: ph.arrived == ph.parties == |ph.frontier| + 1)
  {
    CrawlInv(env, excluded, seed, depth);
    InvSafety(env, excluded, Crawl(env, excluded, seed, depth));
  }

  /** An address is downloaded exactly when it was processed and its page
      could be fetched, and it has an error entry exactly when it was
      processed and one of its stages failed, holding that stage's error. */
  lemma CrawlAccounting<D>(env: Environment<D>, excluded: set<string>, seed: Address, depth: int)
    ensures var r := Crawl(env, excluded, seed, depth);
      forall u ::
        && (u in r.downloaded <==> u in r.processed && Fetched(env, u))
        && (u in r.errors <==> u in r.processed && ErrorOf(env, u).Some?)
        && (u in r.errors ==> ErrorOf(env, u) == Some(r.errors[u]))
  {
    var r := Crawl(env, excluded, seed, depth);
    CrawlInv(env, excluded, seed, depth);
    FetchedOfSpec(env, r.processed);
    ErrorsOfSpec(env, r.processed);
  }

  /** The outcome of each path a processed address can take: a malformed
      address has only an error; a rejected download leaves no trace; a
      failed download has only an error; a page whose links cannot be
      extracted is both downloaded and in error; any other page is only
      downloaded. */
  lemma CrawlPaths<D>(env: Environment<D>, excluded: set<string>, seed: Address, depth: int)
    ensures var r := Crawl(env, excluded, seed, depth);
      forall u | u in r.processed ::
        && (env.hostOf(u).None? ==>
              u !in r.downloaded && u in r.errors && r.errors[u] == MalformedUrl)
        && (env.hostOf(u).Some? && !env.fetchAccepted(u) ==>
              u !in r.downloaded && u !in r.errors)
        && (env.hostOf(u).Some? && env.fetchAccepted(u) && env.fetch(u).None? ==>
              u !in r.downloaded && u in r.errors && r.errors[u] == FetchFailed)
        && (Fetched(env, u) && env.extractAccepted(u) && env.links(env.fetch(u).value).None? ==>
              u in r.downloaded && u in r.errors && r.errors[u] == ExtractFailed)
        && (Fetched(env, u) && !(env.extractAccepted(u) && env.links(env.fetch(u).value).None?) ==>
              u in r.downloaded && u !in r.errors)
  {
    CrawlAccounting(env, excluded, seed, depth);
  }

  /** Exactly `depth` levels run (none when the seed is excluded or `depth`
      is not positive, and then nothing is processed, downloaded or
      recorded); the seed is visited unless excluded; the first level is
      the seed alone; each later level holds only links of the previous
      level's pages; and the levels together are the processed addresses,
      so no address is in two levels or twice in one. */
  lemma CrawlLevels<D>(env: Environment<D>, excluded: set<string>, seed: Address, depth: int)
    ensures var r := Crawl(env, excluded, seed, depth);
      && |r.phases| == (if Excluded(excluded, seed) || depth <= 0 then 0 else depth)
      && (|r.phases| == 0 ==> r.processed == [] && Outcome(r) == CrawlResult([], map[]))
      && (seed in r.visited <==> !Excluded(excluded, seed))
      && (|r.phases| > 0 ==> r.phases[0].frontier == [seed])
      && (forall i | 0 < i < |r.phases| :: LinkedFrom(env, r.phases[i - 1].frontier, r.phases[i].frontier))
      && r.processed == Flatten(r.phases)
      && NoDup(Flatten(r.phases))
  {
    if Excluded(excluded, seed) {
      assert Crawl(env, excluded, seed, depth) == Fresh;
    } else {
      var r := Levels(env, excluded, Seeded(seed), depth);
      assert Crawl(env, excluded, seed, depth) == r;
      LevelsShape(env, excluded, Seeded(seed), depth);
      LevelsInv(env, excluded, Seeded(seed), depth);
      InvSafety(env, excluded, r);
      if depth > 0 {
        FlattenHolds(r.phases, 0);
        assert seed in r.phases[0].frontier;
      } else {
        assert r == Seeded(seed);
      }
    }
  }

  /** The converse of the levels being linked: every non-excluded link of a
      page of level `i` is in level `i` or an earlier one, or it is in level
      `i + 1` (the frontier left over, after the last level). So the levels
      are the breadth-first layers from the seed. */
  lemma CrawlLayers<D>(env: Environment<D>, excluded: set<string>, seed: Address, depth: int)
    ensures var r := Crawl(env, excluded, seed, depth);
      forall i, v, l | 0 <= i < |r.phases| && v in r.phases[i].frontier && l in Discovered(env, v) && !Excluded(excluded, l) ::
        || l in Flatten(r.phases[..i + 1])
        || (i + 1 < |r.phases| && l in r.phases[i + 1].frontier)
        || (i + 1 == |r.phases| && l in r.nextPending)
  {
    if !Excluded(excluded, seed) {
      var r := Levels(env, excluded, Seeded(seed), depth);
      assert Crawl(env, excluded, seed, depth) == r;
      assert Seeded(seed).processed + [] + Seeded(seed).nextPending == [seed];
      LevelsLayered(env, excluded, Seeded(seed), depth);
      LayeredLinks(env, excluded, r);
    }
  }

  /** Every link of a processed page that is not excluded was processed
      itself or waits in the frontier left over. */
  lemma CrawlClosed<D>(env: Environment<D>, excluded: set<string>, seed: Address, depth: int)
    ensures var r := Crawl(env, excluded, seed, depth);
      forall u, l | u in r.processed && l in Discovered(env, u) && !Excluded(excluded, l) ::
        l in r.processed || l in r.nextPending
  {
    CrawlInv(env, excluded, seed, depth);
    InvSafety(env, excluded, Crawl(env, excluded, seed, depth));
  }
}
