/**
 * The class `scraper` of scraper.class.php: its configuration fields and
 * fluent setters, `scrape()` and the parallel download loop
 * `downloadInParallel`.
 *
 * cURL is replaced by two oracles: `pick` chooses which active transfer
 * finishes on a pass of the outer loop, `outcome` gives what a transfer of
 * a link reports. The local disk is a `Disk`; the remote listings are a map.
 */
module Scraper {
  import opened PhpText
  import opened Optional
  import opened Filter
  import opened Settings
  import opened Discovery
  import opened Transfers
  import opened FileSystem

  /** `mb_strlen($link['save_path']) > 255`: a name the loop refuses. */
  predicate NameTooLong(l: Link)
  {
    |l.savePath| > 255
  }

  /** What `scrape()` hands back: the links in search mode, the results of the download loop otherwise. */
  datatype ScrapeResult = Found(links: seq<Link>) | Processed(results: seq<Result>)

  /** The results test mode produces for some links: one placeholder per link with an acceptable name, in queue order. */
  function TestResults(links: seq<Link>): (rs: seq<Result>)
    ensures |rs| <= |links|
  {
    if links == [] then []
    else
      var last := links[|links| - 1];
      var rs := TestResults(links[..|links| - 1]);
      if NameTooLong(last) then rs else rs + [Tested(last)]
  }

  /** Every test result is a placeholder for a link of the list whose name is acceptable. */
  lemma {:induction false} TestResultsFrom(links: seq<Link>)
    ensures forall i :: 0 <= i < |TestResults(links)| ==>
      TestResults(links)[i].Tested? && TestResults(links)[i].link in links && !NameTooLong(TestResults(links)[i].link)
    decreases |links|
  {
    if links != [] {
      var init := links[..|links| - 1];
      TestResultsFrom(init);
      assert forall l :: l in init ==> l in links;
    }
  }

  /** How many of the links have names that are too long. */
  function TooLongCount(links: seq<Link>): (n: nat)
    ensures n <= |links|
  {
    if links == [] then 0
    else TooLongCount(links[..|links| - 1]) + (if NameTooLong(links[|links| - 1]) then 1 else 0)
  }

  /** In test mode every link is either refused for its name or gets a successful placeholder. */
  lemma {:induction false} TestResultsAccount(links: seq<Link>)
    ensures |TestResults(links)| + TooLongCount(links) == |links|
    ensures SuccessCount(TestResults(links)) == |TestResults(links)|
    ensures FailedCount(TestResults(links)) == 0 && Bytes(TestResults(links)) == 0
    decreases |links|
  {
    if links != [] {
      var init := links[..|links| - 1];
      TestResultsAccount(init);
      if !NameTooLong(links[|links| - 1]) {
        CountsSnoc(TestResults(init), Tested(links[|links| - 1]));
      }
    }
  }

  /**
   * What one run of the download loop over `links` does, from statistics
   * `s0` and disk `d0` to results `rs`, statistics `s1` and disk `d1`.
   */
  predicate Downloaded(mode: string, links: seq<Link>, rs: seq<Result>, s0: Stats, s1: Stats, d0: map<string, nat>, d1: map<string, nat>)
  {
    // the counters move with the results only, bytes with the successful transfers only
    && s1.total == s0.total
    && s1.success == s0.success + SuccessCount(rs)
    && s1.failed == s0.failed + FailedCount(rs)
    && s1.bytesDownloaded == s0.bytesDownloaded + Bytes(rs)
    && s1.skipped >= s0.skipped
    // in download and test mode every link ends up as a result or as skipped
    && ((mode == "download" || mode == "test") ==> s1.skipped - s0.skipped + |rs| == |links|)
    && (mode != "download" && mode != "test" ==> rs == [])
    && (mode == "test" ==> rs == TestResults(links))
    // a result belongs to a link of the batch with an acceptable name
    && (forall i :: 0 <= i < |rs| ==> rs[i].link in links && !NameTooLong(rs[i].link))
    // a transfer is attempted once, never for a file that was already on disk
    && (forall i :: 0 <= i < |rs| ==> rs[i].Completed? ==> (mode == "download" && rs[i].retries == 0 && rs[i].link.savePath !in d0))
    // files already on disk are left as they were; new files are save paths of the batch
    && (forall p :: p in d0 ==> p in d1 && d1[p] == d0[p])
    && (forall p :: p in d1 && p !in d0 ==> exists i :: 0 <= i < |links| && links[i].savePath == p)
  }

  /** success + failed + skipped grows by the number of links processed in download or test mode. */
  lemma DownloadedAccounts(mode: string, links: seq<Link>, rs: seq<Result>, s0: Stats, s1: Stats, d0: map<string, nat>, d1: map<string, nat>)
    requires Downloaded(mode, links, rs, s0, s1, d0, d1)
    requires mode == "download" || mode == "test"
    ensures s1.success + s1.failed + s1.skipped == s0.success + s0.failed + s0.skipped + |links|
  {
    CountsPartition(rs);
  }

  /** In test mode nothing fails and nothing is downloaded; only too-long names are skipped. */
  lemma DownloadedTestMode(links: seq<Link>, rs: seq<Result>, s0: Stats, s1: Stats, d0: map<string, nat>, d1: map<string, nat>)
    requires Downloaded("test", links, rs, s0, s1, d0, d1)
    ensures s1.failed == s0.failed && s1.bytesDownloaded == s0.bytesDownloaded
    ensures s1.skipped == s0.skipped + TooLongCount(links)
    ensures s1.success == s0.success + |links| - TooLongCount(links)
  {
    TestResultsAccount(links);
  }

  /**
   * The loop invariant of `downloadInParallel`: `dequeued` have left the
   * queue, `active` are being transferred, `rs` are the results so far.
   */
  predicate InFlight(mode: string, dequeued: seq<Link>, active: seq<Link>, rs: seq<Result>, s0: Stats, s: Stats, d0: map<string, nat>, d: map<string, nat>)
  {
    && s.total == s0.total
    && s.success == s0.success + SuccessCount(rs)
    && s.failed == s0.failed + FailedCount(rs)
    && s.bytesDownloaded == s0.bytesDownloaded + Bytes(rs)
    && s.skipped >= s0.skipped
    && ((mode == "download" || mode == "test") ==> s.skipped - s0.skipped + |rs| + |active| == |dequeued|)
    && (mode != "download" && mode != "test" ==> rs == [])
    && (mode == "test" ==> rs == TestResults(dequeued))
    && (forall i :: 0 <= i < |rs| ==> rs[i].link in dequeued && !NameTooLong(rs[i].link))
    && (forall i :: 0 <= i < |rs| ==> rs[i].Completed? ==> (mode == "download" && rs[i].retries == 0 && rs[i].link.savePath !in d0))
    && (forall l :: l in active ==> l in dequeued && !NameTooLong(l) && l.savePath !in d0)
    && (forall p :: p in d0 ==> p in d && d[p] == d0[p])
    && (forall p :: p in d && p !in d0 ==> exists i :: 0 <= i < |dequeued| && dequeued[i].savePath == p)
  }

  lemma InFlightSkip(mode: string, dequeued: seq<Link>, link: Link, active: seq<Link>, rs: seq<Result>, s0: Stats, s: Stats, d0: map<string, nat>, d: map<string, nat>)
    requires InFlight(mode, dequeued, active, rs, s0, s, d0, d)
    requires NameTooLong(link) || (mode == "download" && link.savePath in d)
    ensures InFlight(mode, dequeued + [link], active, rs, s0, s.(skipped := s.skipped + 1), d0, d)
  {
    var dq := dequeued + [link];
    assert dq[..|dequeued|] == dequeued;
    assert forall l :: l in dequeued ==> l in dq;
    InFlightNewFiles(dequeued, dq, d0, d);
  }

  lemma InFlightDrop(mode: string, dequeued: seq<Link>, link: Link, rs: seq<Result>, s0: Stats, s: Stats, d0: map<string, nat>, d: map<string, nat>)
    requires InFlight(mode, dequeued, [], rs, s0, s, d0, d)
    requires mode != "download" && mode != "test"
    ensures InFlight(mode, dequeued + [link], [], rs, s0, s, d0, d)
  {
    InFlightNewFiles(dequeued, dequeued + [link], d0, d);
  }

  lemma InFlightStart(mode: string, dequeued: seq<Link>, link: Link, active: seq<Link>, rs: seq<Result>, s0: Stats, s: Stats, d0: map<string, nat>, d: map<string, nat>)
    requires InFlight(mode, dequeued, active, rs, s0, s, d0, d)
    requires mode == "download" && !NameTooLong(link) && link.savePath !in d
    ensures InFlight(mode, dequeued + [link], active + [link], rs, s0, s, d0, d[link.savePath := 0])
  {
    var dq := dequeued + [link];
    assert forall l :: l in dequeued ==> l in dq;
    assert dq[|dequeued|] == link;
    InFlightNewFiles(dequeued, dq, d0, d);
  }

  lemma InFlightTest(mode: string, dequeued: seq<Link>, link: Link, rs: seq<Result>, s0: Stats, s: Stats, d0: map<string, nat>, d: map<string, nat>)
    requires InFlight(mode, dequeued, [], rs, s0, s, d0, d)
    requires mode == "test" && !NameTooLong(link)
    ensures InFlight(mode, dequeued + [link], [], rs + [Tested(link)], s0, s.(success := s.success + 1), d0,
                     if link.savePath in d then d else d[link.savePath := 0])
  {
    var dq := dequeued + [link];
    assert dq[..|dequeued|] == dequeued;
    assert forall l :: l in dequeued ==> l in dq;
    assert dq[|dequeued|] == link;
    CountsSnoc(rs, Tested(link));
    InFlightNewFiles(dequeued, dq, d0, d);
  }

  lemma InFlightFinish(mode: string, dequeued: seq<Link>, active: seq<Link>, k: nat, o: Outcome, rs: seq<Result>, s0: Stats, s: Stats, d0: map<string, nat>, d: map<string, nat>)
    requires InFlight(mode, dequeued, active, rs, s0, s, d0, d)
    requires mode == "download" && k < |active|
    ensures var p := active[k].savePath;
      InFlight(mode, dequeued, active[..k] + active[k + 1..], rs + [Completed(active[k], o, 0)], s0,
               if Succeeded(o) then s.(success := s.success + 1, bytesDownloaded := s.bytesDownloaded + o.size)
               else s.(failed := s.failed + 1),
               d0, d[p := (if p in d then d[p] else 0) + o.size])
  {
    assert active[k] in active;
    CountsSnoc(rs, Completed(active[k], o, 0));
    assert forall l :: l in active[..k] + active[k + 1..] ==> l in active;
    assert active == active[..k] + [active[k]] + active[k + 1..];
  }

  lemma InFlightNewFiles(dequeued: seq<Link>, more: seq<Link>, d0: map<string, nat>, d: map<string, nat>)
    requires |more| >= |dequeued| && more[..|dequeued|] == dequeued
    requires forall p :: p in d && p !in d0 ==> exists i :: 0 <= i < |dequeued| && dequeued[i].savePath == p
    ensures forall p :: p in d && p !in d0 ==> exists i :: 0 <= i < |more| && more[i].savePath == p
  {
    forall p | p in d && p !in d0
      ensures exists i :: 0 <= i < |more| && more[i].savePath == p
    {
      var i :| 0 <= i < |dequeued| && dequeued[i].savePath == p;
      assert more[i] == dequeued[i];
    }
  }

  lemma InFlightDone(mode: string, links: seq<Link>, rs: seq<Result>, s0: Stats, s: Stats, d0: map<string, nat>, d: map<string, nat>)
    requires InFlight(mode, links, [], rs, s0, s, d0, d)
    ensures Downloaded(mode, links, rs, s0, s, d0, d)
  {
  }

  /** Shifting from the front of a queue leaves a suffix of it. */
  lemma ShiftedSuffix(dequeued0: seq<Link>, queue0: seq<Link>, dequeued: seq<Link>, queue: seq<Link>)
    requires dequeued0 + queue0 == dequeued + queue && |queue| <= |queue0|
    ensures queue == queue0[|queue0| - |queue|..]
  {
    var n := |queue0| - |queue|;
    forall i | 0 <= i < |queue| ensures queue[i] == queue0[n + i] {
      assert (dequeued + queue)[|dequeued| + i] == (dequeued0 + queue0)[|dequeued0| + n + i];
    }
  }

  class Scraper {
    var destinationRoot: string
    var cachePath: string
    var mode: string
    var toScrape: seq<Location>
    var excludePath: seq<string>
    var excludeFilename: seq<string>
    var search: seq<string>
    var fileNameProcessor: Option<string -> string>
    var randomLimit: int
    var maxConcurrentDownloads: int
    var maxRetries: int
    var retryDelay: int
    var connectionTimeout: int
    var transferTimeout: int
    var maxDownloadSpeed: int
    var stats: Stats

    /** The bounds the clamping setters keep. */
    predicate Valid()
      reads this
    {
      && 1 <= maxConcurrentDownloads <= 50
      && maxRetries >= 0
      && retryDelay >= 1
      && connectionTimeout >= 5
      && transferTimeout >= 10
      && maxDownloadSpeed >= 0
    }

    /** The property defaults. */
    constructor ()
      ensures Valid()
      ensures destinationRoot == "/tmp/scraper/" && cachePath == "/tmp/" && mode == "download"
      ensures toScrape == [] && excludePath == [] && excludeFilename == [] && search == []
      ensures fileNameProcessor == None && randomLimit == 0
      ensures maxConcurrentDownloads == 10 && maxRetries == 3 && retryDelay == 2
      ensures connectionTimeout == 30 && transferTimeout == 300 && maxDownloadSpeed == 0
      ensures stats == InitialStats
    {
      destinationRoot := "/tmp/scraper/";
      cachePath := "/tmp/";
      mode := "download";
      toScrape := [];
      excludePath := [];
      excludeFilename := [];
      search := [];
      fileNameProcessor := None;
      randomLimit := 0;
      maxConcurrentDownloads := 10;
      maxRetries := 3;
      retryDelay := 2;
      connectionTimeout := 30;
      transferTimeout := 300;
      maxDownloadSpeed := 0;
      stats := InitialStats;
    }

    /** `setDestinationRoot`: the path, with a slash appended unless it already ends in one. */
    method SetDestinationRoot(p: string)
      modifies this`destinationRoot
      ensures destinationRoot == EnsureTrailingSlash(p)
    {
      destinationRoot := EnsureTrailingSlash(p);
    }

    /** `setCachePath`: as `setDestinationRoot`, for the cache path. */
    method SetCachePath(p: string)
      modifies this`cachePath
      ensures cachePath == EnsureTrailingSlash(p)
    {
      cachePath := EnsureTrailingSlash(p);
    }

    /** `setMode`: any string is stored; only "download", "test" and "search" mean something. */
    method SetMode(m: string)
      modifies this`mode
      ensures mode == m
    {
      mode := m;
    }

    method SetFileNameProcessor(f: Option<string -> string>)
      modifies this`fileNameProcessor
      ensures fileNameProcessor == f
    {
      fileNameProcessor := f;
    }

    /** `setRandomLimit`: stored unclamped; a value of 0 or below turns the limit off. */
    method SetRandomLimit(n: int)
      modifies this`randomLimit
      ensures randomLimit == n
    {
      randomLimit := n;
    }

    /** `addLocation`: a given sub-directory gets a trailing slash; none (NULL) stays empty. */
    method AddLocation(url: string, location: Option<string>, mimeTypes: seq<string>)
      modifies this`toScrape
      ensures |toScrape| == |old(toScrape)| + 1 && toScrape[..|old(toScrape)|] == old(toScrape)
      ensures var added := toScrape[|toScrape| - 1];
        && added.scrapeUrl == url && added.wantedExtensions == mimeTypes
        && (location.None? ==> added.destinationSubDir == "")
        && (location.Some? ==> added.destinationSubDir == EnsureTrailingSlash(location.value))
    {
      var sub := if location.Some? then EnsureTrailingSlash(location.value) else "";
      toScrape := toScrape + [Location(url, sub, mimeTypes)];
      assert toScrape[..|old(toScrape)|] == old(toScrape);
    }

    /** `excludeInPath`: arrays are merged, a non-empty string is appended. */
    method ExcludeInPath(param: Param)
      modifies this`excludePath
      ensures excludePath == Accumulate(old(excludePath), param)
    {
      excludePath := Accumulate(excludePath, param);
    }

    /** `excludeInFilename`: arrays are merged, a non-empty string is appended. */
    method ExcludeInFilename(param: Param)
      modifies this`excludeFilename
      ensures excludeFilename == Accumulate(old(excludeFilename), param)
    {
      excludeFilename := Accumulate(excludeFilename, param);
    }

    /** `search`: the lower-cased terms are merged onto the search list. */
    method Search(param: Param)
      modifies this`search
      ensures search == old(search) + PrepareSearchTerms(param)
      ensures forall k :: |old(search)| <= k < |search| ==> ToLower(search[k]) == search[k]
    {
      search := search + PrepareSearchTerms(param);
    }

    /** `setMaxConcurrentDownloads`: clamped to [1, 50]. */
    method SetMaxConcurrentDownloads(n: int)
      requires Valid()
      modifies this`maxConcurrentDownloads
      ensures Valid()
      ensures maxConcurrentDownloads == ConcurrencyLimit(n)
    {
      maxConcurrentDownloads := ConcurrencyLimit(n);
    }

    /** `setMaxRetries`: never below 0 (the value is stored but nothing in this class retries). */
    method SetMaxRetries(n: int)
      requires Valid()
      modifies this`maxRetries
      ensures Valid()
      ensures maxRetries == AtLeast(0, n)
    {
      maxRetries := AtLeast(0, n);
    }

    /** `setRetryDelay`: never below 1 second. */
    method SetRetryDelay(n: int)
      requires Valid()
      modifies this`retryDelay
      ensures Valid()
      ensures retryDelay == AtLeast(1, n)
    {
      retryDelay := AtLeast(1, n);
    }

    /** `setConnectionTimeout`: never below 5 seconds. */
    method SetConnectionTimeout(n: int)
      requires Valid()
      modifies this`connectionTimeout
      ensures Valid()
      ensures connectionTimeout == AtLeast(5, n)
    {
      connectionTimeout := AtLeast(5, n);
    }

    /** `setTransferTimeout`: never below 10 seconds. */
    method SetTransferTimeout(n: int)
      requires Valid()
      modifies this`transferTimeout
      ensures Valid()
      ensures transferTimeout == AtLeast(10, n)
    {
      transferTimeout := AtLeast(10, n);
    }

    /** `setMaxDownloadSpeed`: never below 0 (0 is unlimited). */
    method SetMaxDownloadSpeed(n: int)
      requires Valid()
      modifies this`maxDownloadSpeed
      ensures Valid()
      ensures maxDownloadSpeed == AtLeast(0, n)
    {
      maxDownloadSpeed := AtLeast(0, n);
    }

    /** What the crawl reads from the configuration, with the given listings and the files on disk. */
    function CrawlContext(listing: map<string, seq<string>>, existing: set<string>): Context
      reads this
    {
      Context(Criteria(excludePath, excludeFilename, search), destinationRoot, fileNameProcessor, listing, existing)
    }

    /**
     * `scrape()`: discover the links, apply the random limit, then return the
     * links in search mode or run the download loop on them. The discovered
     * list is what `Discover` gives over the files on disk at the start.
     */
    method Scrape(listing: map<string, seq<string>>, disk: Disk, shuffle: seq<Link> -> seq<Link>, pick: nat -> nat, outcome: Link -> Outcome)
      returns (r: ScrapeResult)
      requires Valid()
      requires forall xs :: multiset(shuffle(xs)) == multiset(xs)
      modifies this`stats, disk
      ensures var found := Discover(CrawlContext(listing, old(disk.files).Keys), toScrape);
        var selected := RandomSelection(found, randomLimit, shuffle(found));
        && stats.total == |selected|
        && (mode == "search" ==> r == Found(selected) && disk.files == old(disk.files) && stats == old(stats).(total := |selected|))
        && (mode != "search" ==> r.Processed? && Downloaded(mode, selected, r.results, old(stats).(total := |selected|), stats, old(disk.files), disk.files))
    {
      var links := GetLinks(CrawlContext(listing, disk.files.Keys), toScrape);
      stats := stats.(total := |links|);
      if randomLimit > 0 && |links| > randomLimit {
        links := RandomSelection(links, randomLimit, shuffle(links));
        stats := stats.(total := |links|);
      }
      if mode == "search" {
        return Found(links);
      }
      var results: seq<Result>;
      results := DownloadInParallel(links, disk, pick, outcome);
      return Processed(results);
    }

    /**
     * `downloadInParallel($links)`: the queue is shifted into the active pool
     * while the pool is below `maxConcurrentDownloads`; then one active
     * transfer (chosen by `pick`) finishes with what `outcome` says of its
     * link.
     */
    method DownloadInParallel(links: seq<Link>, disk: Disk, pick: nat -> nat, outcome: Link -> Outcome)
      returns (results: seq<Result>)
      requires Valid()
      modifies this`stats, disk
      ensures Downloaded(mode, links, results, old(stats), stats, old(disk.files), disk.files)
    {
      var queue := links;
      var active: seq<Link> := [];
      results := [];
      ghost var dequeued: seq<Link> := [];
      var pass: nat := 0;
      while queue != [] || active != []
        invariant dequeued + queue == links
        invariant |active| <= maxConcurrentDownloads
        invariant mode != "download" ==> active == []
        invariant InFlight(mode, dequeued, active, results, old(stats), stats, old(disk.files), disk.files)
        decreases |queue|, |active|
      {
        ghost var queueBefore, activeBefore := queue, active;
        queue, active, results, dequeued := FillPool(links, queue, active, results, dequeued, old(stats), old(disk.files), disk);
        if active != [] {
          active, results := FinishOne(dequeued, active, results, pick(pass), outcome, old(stats), old(disk.files), disk);
        }
        pass := pass + 1;
      }
      assert dequeued == dequeued + queue == links;
      InFlightDone(mode, links, results, old(stats), stats, old(disk.files), disk.files);
    }

    /** The inner `while (count($active) < max && !empty($queue))` of `downloadInParallel`. */
    method FillPool(ghost links: seq<Link>, queue0: seq<Link>, active0: seq<Link>, results0: seq<Result>, ghost dequeued0: seq<Link>,
                    ghost s0: Stats, ghost d0: map<string, nat>, disk: Disk)
      returns (queue: seq<Link>, active: seq<Link>, results: seq<Result>, ghost dequeued: seq<Link>)
      requires Valid()
      requires dequeued0 + queue0 == links
      requires |active0| <= maxConcurrentDownloads
      requires mode != "download" ==> active0 == []
      requires InFlight(mode, dequeued0, active0, results0, s0, stats, d0, disk.files)
      modifies this`stats, disk
      ensures dequeued + queue == links
      ensures |active| <= maxConcurrentDownloads
      ensures mode != "download" ==> active == []
      ensures InFlight(mode, dequeued, active, results, s0, stats, d0, disk.files)
      ensures |queue| <= |queue0| && (|queue| == |queue0| ==> active == active0)
      ensures queue0 != [] && |active0| < maxConcurrentDownloads ==> |queue| < |queue0|
      ensures queue == queue0[|queue0| - |queue|..]
      ensures |active0| <= |active| && active[..|active0|] == active0
      ensures queue != [] ==> |active| == maxConcurrentDownloads
    {
      queue, active, results, dequeued := queue0, active0, results0, dequeued0;
      while |active| < maxConcurrentDownloads && queue != []
        invariant dequeued + queue == links
        invariant |active| <= maxConcurrentDownloads
        invariant mode != "download" ==> active == []
        invariant InFlight(mode, dequeued, active, results, s0, stats, d0, disk.files)
        invariant |queue| <= |queue0| && (|queue| == |queue0| ==> active == active0)
        invariant |active0| <= |active| && active[..|active0|] == active0
        invariant queue0 != [] && |active0| < maxConcurrentDownloads ==> |queue| < |queue0| || queue == queue0
        decreases |queue|
      {
        var link := queue[0];
        ghost var previous := dequeued;
        var rest := queue[1..];
        assert queue == [link] + rest;
        queue := rest;
        dequeued := dequeued + [link];
        assert dequeued + queue == previous + ([link] + rest);
        active, results := Admit(link, previous, active, results, s0, d0, disk);
      }
      ShiftedSuffix(dequeued0, queue0, dequeued, queue);
    }

    /** One shifted link: skipped, started, tested or dropped according to its name, the disk and the mode. */
    method Admit(link: Link, ghost dequeued: seq<Link>, active0: seq<Link>, results0: seq<Result>, ghost s0: Stats, ghost d0: map<string, nat>, disk: Disk)
      returns (active: seq<Link>, results: seq<Result>)
      requires mode != "download" ==> active0 == []
      requires InFlight(mode, dequeued, active0, results0, s0, stats, d0, disk.files)
      modifies this`stats, disk
      ensures InFlight(mode, dequeued + [link], active, results, s0, stats, d0, disk.files)
      ensures mode != "download" ==> active == []
      ensures active == active0 || active == active0 + [link]
      ensures active == active0 + [link] <==> mode == "download" && !NameTooLong(link) && link.savePath !in old(disk.files)
    {
      active, results := active0, results0;
      if NameTooLong(link) || (mode == "download" && link.savePath in disk.files) {
        InFlightSkip(mode, dequeued, link, active, results, s0, stats, d0, disk.files);
        stats := stats.(skipped := stats.skipped + 1);
      } else if mode == "download" {
        InFlightStart(mode, dequeued, link, active, results, s0, stats, d0, disk.files);
        disk.SetSize(link.savePath, 0);
        active := active + [link];
      } else if mode == "test" {
        InFlightTest(mode, dequeued, link, results, s0, stats, d0, disk.files);
        disk.Touch(link.savePath);
        results := results + [Tested(link)];
        stats := stats.(success := stats.success + 1);
      } else {
        InFlightDrop(mode, dequeued, link, results, s0, stats, d0, disk.files);
      }
    }

    /** One `CURLMSG_DONE` of `downloadInParallel`: the chosen transfer's record, counters and file. */
    method FinishOne(ghost dequeued: seq<Link>, active0: seq<Link>, results0: seq<Result>, choice: nat, outcome: Link -> Outcome,
                     ghost s0: Stats, ghost d0: map<string, nat>, disk: Disk)
      returns (active: seq<Link>, results: seq<Result>)
      requires active0 != [] && mode == "download"
      requires InFlight(mode, dequeued, active0, results0, s0, stats, d0, disk.files)
      modifies this`stats, disk
      ensures InFlight(mode, dequeued, active, results, s0, stats, d0, disk.files)
      ensures |active| == |active0| - 1
    {
      var k := choice % |active0|;
      var link := active0[k];
      var o := outcome(link);
      InFlightFinish(mode, dequeued, active0, k, o, results0, s0, stats, d0, disk.files);
      disk.Append(link.savePath, o.size);
      results := results0 + [Completed(link, o, 0)];
      if Succeeded(o) {
        stats := stats.(success := stats.success + 1, bytesDownloaded := stats.bytesDownloaded + o.size);
      } else {
        stats := stats.(failed := stats.failed + 1);
      }
      active := active0[..k] + active0[k + 1..];
    }
  }
}
