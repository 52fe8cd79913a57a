/**
 * The class `ScraperImproved` of scraper_improved.class.php: its setters,
 * `run()`, `processLinksInBatches`, the retrying `downloadInParallel`,
 * `handleDownloadComplete` and the resume decision of `createCurlHandle`.
 *
 * cURL is replaced by oracles indexed by the link and the attempt number
 * (0 for the first try, n for the n-th retry): `initOk` and `openOk` say
 * whether `curl_init` and `fopen` succeed, `outcome` what the transfer
 * reports; `pick` chooses which active transfer finishes on a pass.
 */
module ScraperImproved {
  import opened PhpText
  import opened Optional
  import opened Filter
  import opened Settings
  import opened Discovery
  import opened Transfers
  import opened FileSystem

  /** The three behaviours `downloadInParallel` distinguishes by `$this->mode`. */
  datatype Mode = Download | Test | Other

  function ModeOf(mode: string): (k: Mode)
    ensures k == Download <==> mode == "download"
    ensures k == Test <==> mode == "test"
  {
    if mode == "download" then Download else if mode == "test" then Test else Other
  }

  /** `array_chunk` size used by `run()`. */
  const BatchSize: nat := 500

  /** One entry of `$active`: the link and its `retry_count`. */
  datatype Entry = Entry(link: Link, retries: nat)

  /** A handle `createCurlHandle` made: whether the file was opened for appending, and `CURLOPT_RESUME_FROM`. */
  datatype Handle = Handle(append: bool, resumeFrom: nat)

  /** What `run()` hands back: the links in search mode, the results otherwise (an empty crawl gives no results). */
  datatype RunResult = Found(links: seq<Link>) | Processed(results: seq<Result>)

  /**
   * The resume decision of `createCurlHandle`: a file that exists with
   * positive size is appended to, resuming at its size; any other is
   * written from the start.
   */
  function OpenPlan(existingSize: nat): (h: Handle)
    ensures h.append <==> existingSize > 0
    ensures h.resumeFrom == (if existingSize > 0 then existingSize else 0)
  {
    if existingSize > 0 then Handle(true, existingSize) else Handle(false, 0)
  }

  /** Every handle creation succeeds. */
  ghost predicate AlwaysOpens(initOk: (Link, nat) -> bool, openOk: (Link, nat) -> bool)
  {
    forall l: Link, n: nat :: initOk(l, n) && openOk(l, n)
  }

  /** The test-mode results for some links: one placeholder each, in queue order. */
  function AllTested(links: seq<Link>): (rs: seq<Result>)
    ensures |rs| == |links|
  {
    if links == [] then [] else AllTested(links[..|links| - 1]) + [Tested(links[|links| - 1])]
  }

  /** The i-th test result is the placeholder for the i-th link. */
  lemma {:induction false} AllTestedIndex(links: seq<Link>)
    ensures forall i :: 0 <= i < |links| ==> AllTested(links)[i] == Tested(links[i])
  {
    if links != [] {
      var init := links[..|links| - 1];
      AllTestedIndex(init);
      forall i | 0 <= i < |links| ensures AllTested(links)[i] == Tested(links[i]) {
        if i < |init| { assert links[i] == init[i]; }
      }
    }
  }

  lemma AllTestedConcat(a: seq<Link>, b: seq<Link>)
    ensures AllTested(a + b) == AllTested(a) + AllTested(b)
  {
    AllTestedIndex(a);
    AllTestedIndex(b);
    AllTestedIndex(a + b);
    forall i | 0 <= i < |a + b| ensures AllTested(a + b)[i] == (AllTested(a) + AllTested(b))[i] {
      if i < |a| { assert (a + b)[i] == a[i]; } else { assert (a + b)[i] == b[i - |a|]; }
    }
  }

  /** Some link of the list is saved at `p`. */
  predicate SavedTo(links: seq<Link>, p: string)
  {
    exists i :: 0 <= i < |links| && links[i].savePath == p
  }

  /** The disk differs from `d0` at save paths of `links` only. */
  predicate DiskWithin(links: seq<Link>, d0: map<string, nat>, d: map<string, nat>)
  {
    && (forall p :: p in d0 && !SavedTo(links, p) ==> p in d && d[p] == d0[p])
    && (forall p :: p in d && p !in d0 ==> SavedTo(links, p))
  }

  /** A change at a save path of the list keeps the disk within the list. */
  lemma DiskWithinUpdate(links: seq<Link>, d0: map<string, nat>, d: map<string, nat>, d': map<string, nat>, p: string)
    requires DiskWithin(links, d0, d) && SavedTo(links, p)
    requires forall q :: q != p ==> (q in d' <==> q in d) && (q in d ==> d'[q] == d[q])
    ensures DiskWithin(links, d0, d')
  {
  }

  /** A longer list allows at least as much. */
  lemma DiskWithinGrow(links: seq<Link>, link: Link, d0: map<string, nat>, d: map<string, nat>)
    requires DiskWithin(links, d0, d)
    ensures DiskWithin(links + [link], d0, d)
    ensures SavedTo(links + [link], link.savePath)
  {
    var more := links + [link];
    assert more[|links|] == link;
    forall p | SavedTo(links, p) ensures SavedTo(more, p) {
      var i :| 0 <= i < |links| && links[i].savePath == p;
      assert more[i] == links[i];
    }
    forall p | SavedTo(more, p) && p != link.savePath ensures SavedTo(links, p) {
      var i :| 0 <= i < |more| && more[i].savePath == p;
      assert i < |links| && more[i] == links[i];
    }
  }

  /** Two changes of the disk, each within its list, are together within the concatenation. */
  lemma DiskWithinConcat(a: seq<Link>, b: seq<Link>, d0: map<string, nat>, d1: map<string, nat>, d2: map<string, nat>)
    requires DiskWithin(a, d0, d1) && DiskWithin(b, d1, d2)
    ensures DiskWithin(a + b, d0, d2)
  {
    forall p | SavedTo(a, p) ensures SavedTo(a + b, p) {
      var i :| 0 <= i < |a| && a[i].savePath == p;
      assert (a + b)[i] == a[i];
    }
    forall p | SavedTo(b, p) ensures SavedTo(a + b, p) {
      var i :| 0 <= i < |b| && b[i].savePath == p;
      assert (a + b)[|a| + i] == b[i];
    }
  }

  /** The link of each result, in order. */
  function LinksOf(rs: seq<Result>): (ls: seq<Link>)
    ensures |ls| == |rs| && forall i :: 0 <= i < |rs| ==> ls[i] == rs[i].link
  {
    seq(|rs|, i requires 0 <= i < |rs| => rs[i].link)
  }

  /** The link of each active entry, in order. */
  function EntryLinks(active: seq<Entry>): (ls: seq<Link>)
    ensures |ls| == |active| && forall i :: 0 <= i < |active| ==> ls[i] == active[i].link
  {
    seq(|active|, i requires 0 <= i < |active| => active[i].link)
  }

  lemma LinksOfConcat(a: seq<Result>, b: seq<Result>)
    ensures LinksOf(a + b) == LinksOf(a) + LinksOf(b)
  {
    assert forall i :: 0 <= i < |a + b| ==> LinksOf(a + b)[i] == (LinksOf(a) + LinksOf(b))[i];
  }

  lemma EntryLinksConcat(a: seq<Entry>, b: seq<Entry>)
    ensures EntryLinks(a + b) == EntryLinks(a) + EntryLinks(b)
  {
    assert forall i :: 0 <= i < |a + b| ==> EntryLinks(a + b)[i] == (EntryLinks(a) + EntryLinks(b))[i];
  }

  /** Taking entry k out of the pool takes its link out of the pool's links. */
  lemma EntryLinksRemove(active: seq<Entry>, k: nat)
    requires k < |active|
    ensures multiset(EntryLinks(active)) == multiset(EntryLinks(active[..k] + active[k + 1..])) + multiset{active[k].link}
  {
    assert active == active[..k] + [active[k]] + active[k + 1..];
    EntryLinksConcat(active[..k] + [active[k]], active[k + 1..]);
    EntryLinksConcat(active[..k], [active[k]]);
    EntryLinksConcat(active[..k], active[k + 1..]);
    assert EntryLinks([active[k]]) == [active[k].link];
  }

  /** Each dequeued link, as often as it was dequeued, has a final result, is still in flight, or was dropped. */
  ghost predicate Accounted(rs: seq<Result>, active: seq<Entry>, dropped: seq<Link>, dequeued: seq<Link>)
  {
    multiset(LinksOf(rs)) + multiset(EntryLinks(active)) + multiset(dropped) == multiset(dequeued)
  }

  lemma AccountedStart(rs: seq<Result>, active: seq<Entry>, dropped: seq<Link>, dequeued: seq<Link>, link: Link)
    requires Accounted(rs, active, dropped, dequeued)
    ensures Accounted(rs, active + [Entry(link, 0)], dropped, dequeued + [link])
  {
    EntryLinksConcat(active, [Entry(link, 0)]);
    assert EntryLinks([Entry(link, 0)]) == [link];
  }

  lemma AccountedDrop(rs: seq<Result>, active: seq<Entry>, dropped: seq<Link>, dequeued: seq<Link>, link: Link)
    requires Accounted(rs, active, dropped, dequeued)
    ensures Accounted(rs, active, dropped + [link], dequeued + [link])
  {
  }

  lemma AccountedFinal(rs: seq<Result>, active: seq<Entry>, dropped: seq<Link>, dequeued: seq<Link>, k: nat, r: Result)
    requires Accounted(rs, active, dropped, dequeued)
    requires k < |active| && r.link == active[k].link
    ensures Accounted(rs + [r], active[..k] + active[k + 1..], dropped, dequeued)
  {
    LinksOfConcat(rs, [r]);
    assert LinksOf([r]) == [r.link];
    EntryLinksRemove(active, k);
  }

  lemma AccountedRetry(rs: seq<Result>, active: seq<Entry>, dropped: seq<Link>, dequeued: seq<Link>, k: nat, reopened: bool)
    requires Accounted(rs, active, dropped, dequeued)
    requires k < |active|
    ensures var e := active[k];
      Accounted(rs, active[..k] + active[k + 1..] + (if reopened then [Entry(e.link, e.retries + 1)] else []),
                if reopened then dropped else dropped + [e.link], dequeued)
  {
    var e := active[k];
    var rest := active[..k] + active[k + 1..];
    EntryLinksRemove(active, k);
    if reopened {
      EntryLinksConcat(rest, [Entry(e.link, e.retries + 1)]);
      assert EntryLinks([Entry(e.link, e.retries + 1)]) == [e.link];
    } else {
      assert rest + [] == rest;
    }
  }

  lemma AccountedConcat(ra: seq<Result>, rb: seq<Result>, da: seq<Link>, db: seq<Link>, a: seq<Link>, b: seq<Link>)
    requires Accounted(ra, [], da, a) && Accounted(rb, [], db, b)
    ensures Accounted(ra + rb, [], da + db, a + b)
  {
    LinksOfConcat(ra, rb);
  }

  /**
   * What `downloadInParallel` (and a sequence of such runs) leaves behind,
   * from statistics `s0` and disk `d0`, for `links` with results `rs` and
   * the `dropped` links whose handle could not be created.
   */
  ghost predicate Settled(kind: Mode, maxRetries: int, links: seq<Link>, rs: seq<Result>, dropped: seq<Link>, s0: Stats, s: Stats, d0: map<string, nat>, d: map<string, nat>)
  {
    // total and skipped are never touched; success, failed and bytes move with the final results only
    && s.total == s0.total && s.skipped == s0.skipped
    && s.success == s0.success + SuccessCount(rs)
    && s.failed == s0.failed + FailedCount(rs)
    && s.bytesDownloaded == s0.bytesDownloaded + Bytes(rs)
    // download mode: each link has one final result or was dropped, and nothing else has either
    && (kind == Download ==> Accounted(rs, [], dropped, links))
    && (kind != Download ==> dropped == [])
    && (kind == Test ==> rs == AllTested(links))
    && (kind != Download && kind != Test ==> rs == [])
    && (forall i :: 0 <= i < |rs| ==> rs[i].link in links)
    // at most maxRetries retries, and a final failure used them all
    && (forall i :: 0 <= i < |rs| ==> rs[i].Completed? ==>
          (kind == Download && rs[i].retries <= maxRetries && (!rs[i].Success() ==> rs[i].retries == maxRetries)))
    && DiskWithin(links, d0, d)
  }

  /** Two runs one after the other settle the concatenation of their links (what `processLinksInBatches` relies on). */
  lemma SettledConcat(kind: Mode, maxRetries: int, a: seq<Link>, b: seq<Link>, ra: seq<Result>, rb: seq<Result>, da: seq<Link>, db: seq<Link>,
                      s0: Stats, s1: Stats, s2: Stats, d0: map<string, nat>, d1: map<string, nat>, d2: map<string, nat>)
    requires Settled(kind, maxRetries, a, ra, da, s0, s1, d0, d1)
    requires Settled(kind, maxRetries, b, rb, db, s1, s2, d1, d2)
    ensures Settled(kind, maxRetries, a + b, ra + rb, da + db, s0, s2, d0, d2)
  {
    CountsConcat(ra, rb);
    if kind == Download { AccountedConcat(ra, rb, da, db, a, b); }
    AllTestedConcat(a, b);
    DiskWithinConcat(a, b, d0, d1, d2);
    var rs := ra + rb;
    forall i | 0 <= i < |rs| ensures rs[i].link in a + b {
      if i < |ra| { assert rs[i] == ra[i]; } else { assert rs[i] == rb[i - |ra|]; }
    }
    forall i | 0 <= i < |rs| && rs[i].Completed?
      ensures kind == Download && rs[i].retries <= maxRetries && (!rs[i].Success() ==> rs[i].retries == maxRetries)
    {
      if i < |ra| { assert rs[i] == ra[i]; } else { assert rs[i] == rb[i - |ra|]; }
    }
  }

  /** One more batch settled after the first `b`. */
  lemma SettledBatch(kind: Mode, maxRetries: int, batches: seq<seq<Link>>, b: nat, ra: seq<Result>, rb: seq<Result>, da: seq<Link>, db: seq<Link>,
                     s0: Stats, s1: Stats, s2: Stats, d0: map<string, nat>, d1: map<string, nat>, d2: map<string, nat>)
    requires b < |batches|
    requires Settled(kind, maxRetries, Flatten(batches[..b]), ra, da, s0, s1, d0, d1)
    requires Settled(kind, maxRetries, batches[b], rb, db, s1, s2, d1, d2)
    ensures Settled(kind, maxRetries, Flatten(batches[..b + 1]), ra + rb, da + db, s0, s2, d0, d2)
  {
    SettledConcat(kind, maxRetries, Flatten(batches[..b]), batches[b], ra, rb, da, db, s0, s1, s2, d0, d1, d2);
    FlattenSnoc(batches[..b], batches[b]);
    assert batches[..b + 1] == batches[..b] + [batches[b]];
  }

  /** Every result of batch k is about a link of batch k. */
  predicate ResultsFrom(batches: seq<seq<Link>>, perBatch: seq<seq<Result>>)
  {
    |perBatch| == |batches| &&
    forall k, i :: 0 <= k < |perBatch| && 0 <= i < |perBatch[k]| ==> perBatch[k][i].link in batches[k]
  }

  lemma ResultsFromSnoc(batches: seq<seq<Link>>, b: nat, perBatch: seq<seq<Result>>, rs: seq<Result>)
    requires b < |batches| && ResultsFrom(batches[..b], perBatch)
    requires forall i :: 0 <= i < |rs| ==> rs[i].link in batches[b]
    ensures ResultsFrom(batches[..b + 1], perBatch + [rs])
  {
    var more: seq<seq<Result>> := perBatch + [rs];
    forall k: int, i: int | 0 <= k < |more| && 0 <= i < |more[k]| ensures more[k][i].link in batches[..b + 1][k] {
      if k < b { assert more[k] == perBatch[k]; }
    }
  }

  /** The loop step of `processLinksInBatches`: batch `b` settled after the first `b` extends every invariant by one batch. */
  lemma BatchStep(kind: Mode, maxRetries: int, batches: seq<seq<Link>>, b: nat, perBatch: seq<seq<Result>>, ra: seq<Result>, rb: seq<Result>,
                  da: seq<Link>, db: seq<Link>, s0: Stats, s1: Stats, s2: Stats, d0: map<string, nat>, d1: map<string, nat>, d2: map<string, nat>)
    requires b < |batches| && |perBatch| == b && ra == Flatten(perBatch)
    requires ResultsFrom(batches[..b], perBatch)
    requires Settled(kind, maxRetries, Flatten(batches[..b]), ra, da, s0, s1, d0, d1)
    requires Settled(kind, maxRetries, batches[b], rb, db, s1, s2, d1, d2)
    ensures |perBatch + [rb]| == b + 1 && ra + rb == Flatten(perBatch + [rb])
    ensures ResultsFrom(batches[..b + 1], perBatch + [rb])
    ensures Settled(kind, maxRetries, Flatten(batches[..b + 1]), ra + rb, da + db, s0, s2, d0, d2)
  {
    SettledBatch(kind, maxRetries, batches, b, ra, rb, da, db, s0, s1, s2, d0, d1, d2);
    FlattenSnoc(perBatch, rb);
    ResultsFromSnoc(batches, b, perBatch, rb);
  }

  /** Nothing done yet settles the empty list. */
  lemma SettledEmpty(kind: Mode, maxRetries: int, s: Stats, d: map<string, nat>)
    ensures Settled(kind, maxRetries, [], [], [], s, s, d, d)
  {
  }

  /** In download mode the results and the dropped links together are the links, each as often as it was queued. */
  lemma SettledOneEach(maxRetries: int, links: seq<Link>, rs: seq<Result>, dropped: seq<Link>, s0: Stats, s: Stats, d0: map<string, nat>, d: map<string, nat>)
    requires Settled(Download, maxRetries, links, rs, dropped, s0, s, d0, d)
    ensures multiset(LinksOf(rs)) + multiset(dropped) == multiset(links)
    ensures |rs| + |dropped| == |links|
  {
    assert EntryLinks([]) == [];
    assert |multiset(LinksOf(rs)) + multiset(dropped)| == |multiset(links)|;
  }

  /** In download mode success + failed grows by the number of links whose handle could be created. */
  lemma SettledAccounts(maxRetries: int, links: seq<Link>, rs: seq<Result>, dropped: seq<Link>, s0: Stats, s: Stats, d0: map<string, nat>, d: map<string, nat>)
    requires Settled(Download, maxRetries, links, rs, dropped, s0, s, d0, d)
    ensures s.success + s.failed + |dropped| == s0.success + s0.failed + |links|
    ensures s.skipped == s0.skipped
  {
    CountsPartition(rs);
    SettledOneEach(maxRetries, links, rs, dropped, s0, s, d0, d);
    assert |multiset(LinksOf(rs)) + multiset(dropped)| == |multiset(links)|;
  }

  /** The retry budget still held by active entries: maxRetries - retry_count + 1 attempts each. */
  function Budget(maxRetries: nat, active: seq<Entry>): nat
  {
    if active == [] then 0
    else (if active[0].retries <= maxRetries then maxRetries - active[0].retries + 1 else 0) + Budget(maxRetries, active[1..])
  }

  lemma {:induction false} BudgetConcat(maxRetries: nat, a: seq<Entry>, b: seq<Entry>)
    ensures Budget(maxRetries, a + b) == Budget(maxRetries, a) + Budget(maxRetries, b)
    decreases |a|
  {
    if a == [] {
      assert a + b == b;
    } else {
      assert (a + b)[1..] == a[1..] + b;
      BudgetConcat(maxRetries, a[1..], b);
    }
  }

  /** Removing entry k takes its share of the budget away. */
  lemma BudgetRemove(maxRetries: nat, active: seq<Entry>, k: nat)
    requires k < |active| && active[k].retries <= maxRetries
    ensures Budget(maxRetries, active[..k] + active[k + 1..]) == Budget(maxRetries, active) - (maxRetries - active[k].retries + 1)
  {
    assert active == active[..k] + ([active[k]] + active[k + 1..]);
    BudgetConcat(maxRetries, active[..k], [active[k]] + active[k + 1..]);
    BudgetConcat(maxRetries, [active[k]], active[k + 1..]);
    BudgetConcat(maxRetries, active[..k], active[k + 1..]);
  }

  /** A retry puts the entry back with one attempt fewer left, or drops it: the budget goes down either way. */
  lemma BudgetRetry(maxRetries: nat, active: seq<Entry>, k: nat, reopened: bool)
    requires k < |active| && active[k].retries < maxRetries
    ensures var e := active[k];
      var active' := active[..k] + active[k + 1..] + (if reopened then [Entry(e.link, e.retries + 1)] else []);
      |active'| <= |active| && Budget(maxRetries, active') < Budget(maxRetries, active)
  {
    var e := active[k];
    var rest := active[..k] + active[k + 1..];
    var again := Entry(e.link, e.retries + 1);
    BudgetRemove(maxRetries, active, k);
    BudgetConcat(maxRetries, rest, [again]);
    assert [again][1..] == [];
    assert Budget(maxRetries, [again]) == maxRetries - e.retries;
    assert rest + [] == rest;
  }

  /** The loop invariant of `downloadInParallel`: `Settled` for the dequeued links, with `active` still in flight. */
  ghost predicate Pending(kind: Mode, maxRetries: int, dequeued: seq<Link>, active: seq<Entry>, rs: seq<Result>, dropped: seq<Link>,
                    s0: Stats, s: Stats, d0: map<string, nat>, d: map<string, nat>)
  {
    && s.total == s0.total && s.skipped == s0.skipped
    && s.success == s0.success + SuccessCount(rs)
    && s.failed == s0.failed + FailedCount(rs)
    && s.bytesDownloaded == s0.bytesDownloaded + Bytes(rs)
    && (kind == Download ==> Accounted(rs, active, dropped, dequeued))
    && (kind != Download ==> dropped == [])
    && (kind == Test ==> rs == AllTested(dequeued))
    && (kind != Download && kind != Test ==> rs == [])
    && (kind != Download ==> active == [])
    && (forall i :: 0 <= i < |rs| ==> rs[i].link in dequeued)
    && (forall i :: 0 <= i < |rs| ==> rs[i].Completed? ==>
          (kind == Download && rs[i].retries <= maxRetries && (!rs[i].Success() ==> rs[i].retries == maxRetries)))
    && (forall e :: e in active ==> e.link in dequeued && e.retries <= maxRetries)
    && DiskWithin(dequeued, d0, d)
  }

  lemma PendingStart(kind: Mode, maxRetries: int, dequeued: seq<Link>, link: Link, active: seq<Entry>, rs: seq<Result>, dropped: seq<Link>,
                     s0: Stats, s: Stats, d0: map<string, nat>, d: map<string, nat>, d': map<string, nat>)
    requires Pending(kind, maxRetries, dequeued, active, rs, dropped, s0, s, d0, d)
    requires kind == Download && maxRetries >= 0
    requires d' == d || d' == d[link.savePath := 0]
    ensures Pending(kind, maxRetries, dequeued + [link], active + [Entry(link, 0)], rs, dropped, s0, s, d0, d')
  {
    var dq := dequeued + [link];
    assert forall l :: l in dequeued ==> l in dq;
    assert dq[|dequeued|] == link;
    AccountedStart(rs, active, dropped, dequeued, link);
    DiskWithinGrow(dequeued, link, d0, d);
    DiskWithinUpdate(dq, d0, d, d', link.savePath);
  }

  lemma PendingDrop(kind: Mode, maxRetries: int, dequeued: seq<Link>, link: Link, active: seq<Entry>, rs: seq<Result>, dropped: seq<Link>,
                    s0: Stats, s: Stats, d0: map<string, nat>, d: map<string, nat>)
    requires Pending(kind, maxRetries, dequeued, active, rs, dropped, s0, s, d0, d)
    requires kind != Test
    ensures Pending(kind, maxRetries, dequeued + [link], active, rs, if kind == Download then dropped + [link] else dropped, s0, s, d0, d)
  {
    var dq := dequeued + [link];
    assert forall l :: l in dequeued ==> l in dq;
    if kind == Download { AccountedDrop(rs, active, dropped, dequeued, link); }
    DiskWithinGrow(dequeued, link, d0, d);
  }

  lemma PendingTest(kind: Mode, maxRetries: int, dequeued: seq<Link>, link: Link, rs: seq<Result>, dropped: seq<Link>,
                    s0: Stats, s: Stats, d0: map<string, nat>, d: map<string, nat>)
    requires Pending(kind, maxRetries, dequeued, [], rs, dropped, s0, s, d0, d)
    requires kind == Test
    ensures Pending(kind, maxRetries, dequeued + [link], [], rs + [Tested(link)], dropped, s0, s.(success := s.success + 1), d0,
                    if link.savePath in d then d else d[link.savePath := 0])
  {
    var dq := dequeued + [link];
    assert dq[..|dequeued|] == dequeued;
    assert forall l :: l in dequeued ==> l in dq;
    assert dq[|dequeued|] == link;
    CountsSnoc(rs, Tested(link));
    DiskWithinGrow(dequeued, link, d0, d);
    DiskWithinUpdate(dq, d0, d, if link.savePath in d then d else d[link.savePath := 0], link.savePath);
  }

  /** A transfer that is final (success, or failure with no retry left) becomes a result. */
  lemma PendingFinal(kind: Mode, maxRetries: int, dequeued: seq<Link>, active: seq<Entry>, k: nat, o: Outcome, rs: seq<Result>, dropped: seq<Link>,
                     s0: Stats, s: Stats, s': Stats, d0: map<string, nat>, d: map<string, nat>, d': map<string, nat>)
    requires Pending(kind, maxRetries, dequeued, active, rs, dropped, s0, s, d0, d)
    requires kind == Download && k < |active|
    requires Succeeded(o) || active[k].retries >= maxRetries
    requires s' == if Succeeded(o) then s.(success := s.success + 1, bytesDownloaded := s.bytesDownloaded + o.size)
                   else s.(failed := s.failed + 1)
    requires forall q :: q != active[k].link.savePath ==> (q in d' <==> q in d) && (q in d ==> d'[q] == d[q])
    ensures Pending(kind, maxRetries, dequeued, active[..k] + active[k + 1..], rs + [Completed(active[k].link, o, active[k].retries)], dropped,
                    s0, s', d0, d')
  {
    var e := active[k];
    assert e in active;
    CountsSnoc(rs, Completed(e.link, o, e.retries));
    AccountedFinal(rs, active, dropped, dequeued, k, Completed(e.link, o, e.retries));
    assert forall x :: x in active[..k] + active[k + 1..] ==> x in active;
    assert active == active[..k] + [e] + active[k + 1..];
    assert SavedTo(dequeued, e.link.savePath) by {
      var i :| 0 <= i < |dequeued| && dequeued[i] == e.link;
    }
    DiskWithinUpdate(dequeued, d0, d, d', e.link.savePath);
  }

  /** A failed transfer with retries left goes back in flight with one more retry, or is dropped when no new handle can be made. */
  lemma PendingRetry(kind: Mode, maxRetries: int, dequeued: seq<Link>, active: seq<Entry>, k: nat, reopened: bool, rs: seq<Result>, dropped: seq<Link>,
                     s0: Stats, s: Stats, d0: map<string, nat>, d: map<string, nat>, d': map<string, nat>)
    requires Pending(kind, maxRetries, dequeued, active, rs, dropped, s0, s, d0, d)
    requires kind == Download && k < |active| && active[k].retries < maxRetries
    requires forall q :: q != active[k].link.savePath ==> (q in d' <==> q in d) && (q in d ==> d'[q] == d[q])
    ensures var e := active[k];
      Pending(kind, maxRetries, dequeued,
              active[..k] + active[k + 1..] + (if reopened then [Entry(e.link, e.retries + 1)] else []),
              rs, if reopened then dropped else dropped + [e.link], s0, s, d0, d')
  {
    var e := active[k];
    assert e in active;
    var rest := active[..k] + active[k + 1..];
    AccountedRetry(rs, active, dropped, dequeued, k, reopened);
    assert rest + [] == rest;
    assert forall x :: x in rest ==> x in active;
    assert active == active[..k] + [e] + active[k + 1..];
    assert SavedTo(dequeued, e.link.savePath) by {
      var i :| 0 <= i < |dequeued| && dequeued[i] == e.link;
    }
    DiskWithinUpdate(dequeued, d0, d, d', e.link.savePath);
  }

  class ScraperImproved {
    var destinationRoot: string
    var cachePath: string
    var mode: string
    var maxConcurrentDownloads: int
    var maxRetries: int
    var retryDelay: int
    var connectionTimeout: int
    var transferTimeout: int
    var maxDownloadSpeed: int
    var toScrape: seq<Location>
    var excludePath: seq<string>
    var excludeFilename: seq<string>
    var search: seq<string>
    var fileNameProcessor: Option<string -> string>
    var randomLimit: int
    var stats: Stats

    /** The bounds the clamping setters keep. */
    predicate Valid()
      reads this
    {
      && 1 <= maxConcurrentDownloads <= 50
      && maxRetries >= 0
      && connectionTimeout >= 5
      && transferTimeout >= 10
      && maxDownloadSpeed >= 0
    }

    /** The property defaults (`retryDelay` keeps 2: this class has no setter for it). */
    constructor ()
      ensures Valid()
      ensures destinationRoot == "/tmp/scraper/" && cachePath == "/tmp/" && mode == "download"
      ensures maxConcurrentDownloads == 10 && maxRetries == 3 && retryDelay == 2
      ensures connectionTimeout == 30 && transferTimeout == 300 && maxDownloadSpeed == 0
      ensures toScrape == [] && excludePath == [] && excludeFilename == [] && search == []
      ensures fileNameProcessor == None && randomLimit == 0
      ensures stats == InitialStats
    {
      destinationRoot := "/tmp/scraper/";
      cachePath := "/tmp/";
      mode := "download";
      maxConcurrentDownloads := 10;
      maxRetries := 3;
      retryDelay := 2;
      connectionTimeout := 30;
      transferTimeout := 300;
      maxDownloadSpeed := 0;
      toScrape := [];
      excludePath := [];
      excludeFilename := [];
      search := [];
      fileNameProcessor := None;
      randomLimit := 0;
      stats := InitialStats;
    }

    /** `setDestinationRoot`: trailing slashes trimmed, then exactly one added. */
    method SetDestinationRoot(p: string)
      modifies this`destinationRoot
      ensures destinationRoot == SingleTrailingSlash(p)
      ensures EndsInOneSlash(destinationRoot)
    {
      destinationRoot := SingleTrailingSlash(p);
    }

    /** `setCachePath`: trailing slashes trimmed, then exactly one added. */
    method SetCachePath(p: string)
      modifies this`cachePath
      ensures cachePath == SingleTrailingSlash(p)
      ensures EndsInOneSlash(cachePath)
    {
      cachePath := SingleTrailingSlash(p);
    }

    method SetMode(m: string)
      modifies this`mode
      ensures mode == m
    {
      mode := m;
    }

    /** `setMaxConcurrentDownloads`: clamped to [1, 50]. */
    method SetMaxConcurrentDownloads(n: int)
      requires Valid()
      modifies this`maxConcurrentDownloads
      ensures Valid()
      ensures maxConcurrentDownloads == ConcurrencyLimit(n)
    {
      maxConcurrentDownloads := ConcurrencyLimit(n);
    }

    /** `setMaxRetries`: never below 0. */
    method SetMaxRetries(n: int)
      requires Valid()
      modifies this`maxRetries
      ensures Valid()
      ensures maxRetries == AtLeast(0, n)
    {
      maxRetries := AtLeast(0, n);
    }

    /** `setConnectionTimeout`: never below 5 seconds. */
    method SetConnectionTimeout(n: int)
      requires Valid()
      modifies this`connectionTimeout
      ensures Valid()
      ensures connectionTimeout == AtLeast(5, n)
    {
      connectionTimeout := AtLeast(5, n);
    }

    /** `setTransferTimeout`: never below 10 seconds. */
    method SetTransferTimeout(n: int)
      requires Valid()
      modifies this`transferTimeout
      ensures Valid()
      ensures transferTimeout == AtLeast(10, n)
    {
      transferTimeout := AtLeast(10, n);
    }

    /** `setMaxDownloadSpeed`: never below 0 (0 is unlimited). */
    method SetMaxDownloadSpeed(n: int)
      requires Valid()
      modifies this`maxDownloadSpeed
      ensures Valid()
      ensures maxDownloadSpeed == AtLeast(0, n)
    {
      maxDownloadSpeed := AtLeast(0, n);
    }

    method SetFileNameProcessor(f: Option<string -> string>)
      modifies this`fileNameProcessor
      ensures fileNameProcessor == f
    {
      fileNameProcessor := f;
    }

    method SetRandomLimit(n: int)
      modifies this`randomLimit
      ensures randomLimit == n
    {
      randomLimit := n;
    }

    /** `addLocation`: a given sub-directory ends in exactly one slash; none (NULL) stays empty. */
    method AddLocation(url: string, location: Option<string>, mimeTypes: seq<string>)
      modifies this`toScrape
      ensures |toScrape| == |old(toScrape)| + 1 && toScrape[..|old(toScrape)|] == old(toScrape)
      ensures var added := toScrape[|toScrape| - 1];
        && added.scrapeUrl == url && added.wantedExtensions == mimeTypes
        && (location.None? ==> added.destinationSubDir == "")
        && (location.Some? ==> added.destinationSubDir == SingleTrailingSlash(location.value))
    {
      var sub := if location.Some? then SingleTrailingSlash(location.value) else "";
      toScrape := toScrape + [Location(url, sub, mimeTypes)];
      assert toScrape[..|old(toScrape)|] == old(toScrape);
    }

    method ExcludeInPath(param: Param)
      modifies this`excludePath
      ensures excludePath == Accumulate(old(excludePath), param)
    {
      excludePath := Accumulate(excludePath, param);
    }

    method ExcludeInFilename(param: Param)
      modifies this`excludeFilename
      ensures excludeFilename == Accumulate(old(excludeFilename), param)
    {
      excludeFilename := Accumulate(excludeFilename, param);
    }

    method Search(param: Param)
      modifies this`search
      ensures search == old(search) + PrepareSearchTerms(param)
      ensures forall k :: |old(search)| <= k < |search| ==> ToLower(search[k]) == search[k]
    {
      search := search + PrepareSearchTerms(param);
    }

    /** What the crawl reads from the configuration, with the given listings and the files on disk. */
    function CrawlContext(listing: map<string, seq<string>>, existing: set<string>): Context
      reads this
    {
      Context(Criteria(excludePath, excludeFilename, search), destinationRoot, fileNameProcessor, listing, existing)
    }

    /**
     * `run()`: discover the links; none found gives an empty result at once;
     * otherwise apply the random limit, then return the links in search mode
     * or process them in batches of 500.
     */
    method Run(listing: map<string, seq<string>>, disk: Disk, shuffle: seq<Link> -> seq<Link>, pick: nat -> nat,
               outcome: (Link, nat) -> Outcome, initOk: (Link, nat) -> bool, openOk: (Link, nat) -> bool)
      returns (r: RunResult, ghost dropped: seq<Link>)
      requires Valid()
      requires forall xs :: multiset(shuffle(xs)) == multiset(xs)
      modifies this`stats, disk
      ensures var found := Discover(CrawlContext(listing, old(disk.files).Keys), toScrape);
        var selected := RandomSelection(found, randomLimit, shuffle(found));
        && stats.total == |selected|
        && (found == [] ==> r == Processed([]) && disk.files == old(disk.files) && stats == old(stats).(total := 0))
        && (found != [] && mode == "search" ==> r == Found(selected) && disk.files == old(disk.files) && stats == old(stats).(total := |selected|))
        && (found != [] && mode != "search" ==>
              r.Processed? && Settled(ModeOf(mode), maxRetries, selected, r.results, dropped, old(stats).(total := |selected|), stats, old(disk.files), disk.files))
        && (AlwaysOpens(initOk, openOk) ==> dropped == [])
    {
      dropped := [];
      var links := GetLinks(CrawlContext(listing, disk.files.Keys), toScrape);
      stats := stats.(total := |links|);
      if links == [] {
        return Processed([]), [];
      }
      if randomLimit > 0 && |links| > randomLimit {
        links := RandomSelection(links, randomLimit, shuffle(links));
        stats := stats.(total := |links|);
      }
      if mode == "search" {
        return Found(links), [];
      }
      var results: seq<Result>;
      ghost var perBatch: seq<seq<Result>>;
      results, dropped, perBatch := ProcessLinksInBatches(links, BatchSize, disk, pick, outcome, initOk, openOk);
      return Processed(results), dropped;
    }

    /**
     * `processLinksInBatches($links, $batchSize)`: `downloadInParallel` on
     * each chunk in turn; the results are the batch results in batch order.
     */
    method ProcessLinksInBatches(links: seq<Link>, batchSize: nat, disk: Disk, pick: nat -> nat,
                                 outcome: (Link, nat) -> Outcome, initOk: (Link, nat) -> bool, openOk: (Link, nat) -> bool)
      returns (results: seq<Result>, ghost dropped: seq<Link>, ghost perBatch: seq<seq<Result>>)
      requires Valid() && batchSize > 0
      modifies this`stats, disk
      ensures |perBatch| == |Chunks(links, batchSize)| && results == Flatten(perBatch)
      ensures ResultsFrom(Chunks(links, batchSize), perBatch)
      ensures Settled(ModeOf(mode), maxRetries, links, results, dropped, old(stats), stats, old(disk.files), disk.files)
      ensures AlwaysOpens(initOk, openOk) ==> dropped == []
    {
      var batches := Chunks(links, batchSize);
      ChunksPartition(links, batchSize);
      results, dropped, perBatch := [], [], [];
      SettledEmpty(ModeOf(mode), maxRetries, stats, disk.files);
      for b := 0 to |batches|
        invariant |perBatch| == b && results == Flatten(perBatch)
        invariant ResultsFrom(batches[..b], perBatch)
        invariant Settled(ModeOf(mode), maxRetries, Flatten(batches[..b]), results, dropped, old(stats), stats, old(disk.files), disk.files)
        invariant AlwaysOpens(initOk, openOk) ==> dropped == []
      {
        ghost var s1, d1, r1 := stats, disk.files, results;
        var batchResults: seq<Result>;
        ghost var batchDropped: seq<Link>;
        batchResults, batchDropped := DownloadInParallel(batches[b], disk, pick, outcome, initOk, openOk);
        BatchStep(ModeOf(mode), maxRetries, batches, b, perBatch, results, batchResults, dropped, batchDropped,
                  old(stats), s1, stats, old(disk.files), d1, disk.files);
        results := results + batchResults;
        perBatch := perBatch + [batchResults];
        dropped := dropped + batchDropped;
      }
      assert batches[..|batches|] == batches;
    }

    /**
     * `downloadInParallel($batch)`: the queue is shifted into the active pool
     * while the pool is below `maxConcurrentDownloads`; then one active
     * transfer (chosen by `pick`) finishes. A failure with retries left is
     * put back in flight with a fresh handle; anything else is a final result.
     */
    method DownloadInParallel(links: seq<Link>, disk: Disk, pick: nat -> nat,
                              outcome: (Link, nat) -> Outcome, initOk: (Link, nat) -> bool, openOk: (Link, nat) -> bool)
      returns (results: seq<Result>, ghost dropped: seq<Link>)
      requires Valid()
      modifies this`stats, disk
      ensures Settled(ModeOf(mode), maxRetries, links, results, dropped, old(stats), stats, old(disk.files), disk.files)
      ensures AlwaysOpens(initOk, openOk) ==> dropped == []
    {
      var queue := links;
      var active: seq<Entry> := [];
      ghost var dequeued: seq<Link> := [];
      results, dropped := [], [];
      var pass: nat := 0;
      while queue != [] || active != []
        invariant dequeued + queue == links
        invariant |active| <= maxConcurrentDownloads
        invariant Pending(ModeOf(mode), maxRetries, dequeued, active, results, dropped, old(stats), stats, old(disk.files), disk.files)
        invariant AlwaysOpens(initOk, openOk) ==> dropped == []
        decreases |queue|, Budget(maxRetries, active)
      {
        ghost var queueBefore, activeBefore := queue, active;
        queue, active, results, dequeued, dropped :=
          FillPool(links, queue, active, results, dequeued, dropped, old(stats), old(disk.files), disk, initOk, openOk);
        if active != [] {
          active, results, dropped := FinishOne(dequeued, active, results, dropped, pick(pass), outcome, initOk, openOk, old(stats), old(disk.files), disk);
        }
        pass := pass + 1;
      }
      assert dequeued == dequeued + queue == links;
    }

    /** The inner `while (count($active) < max && !empty($queue))` of `downloadInParallel`. */
    method FillPool(ghost links: seq<Link>, queue0: seq<Link>, active0: seq<Entry>, results0: seq<Result>, ghost dequeued0: seq<Link>,
                    ghost dropped0: seq<Link>, ghost s0: Stats, ghost d0: map<string, nat>, disk: Disk,
                    initOk: (Link, nat) -> bool, openOk: (Link, nat) -> bool)
      returns (queue: seq<Link>, active: seq<Entry>, results: seq<Result>, ghost dequeued: seq<Link>, ghost dropped: seq<Link>)
      requires Valid()
      requires dequeued0 + queue0 == links && |active0| <= maxConcurrentDownloads
      requires Pending(ModeOf(mode), maxRetries, dequeued0, active0, results0, dropped0, s0, stats, d0, disk.files)
      requires AlwaysOpens(initOk, openOk) ==> dropped0 == []
      modifies this`stats, disk
      ensures dequeued + queue == links && |active| <= maxConcurrentDownloads
      ensures Pending(ModeOf(mode), maxRetries, dequeued, active, results, dropped, s0, stats, d0, disk.files)
      ensures AlwaysOpens(initOk, openOk) ==> dropped == []
      ensures |queue| <= |queue0| && (|queue| == |queue0| ==> active == active0)
      ensures queue0 != [] && |active0| < maxConcurrentDownloads ==> |queue| < |queue0|
    {
      queue, active, results, dequeued, dropped := queue0, active0, results0, dequeued0, dropped0;
      while |active| < maxConcurrentDownloads && queue != []
        invariant dequeued + queue == links && |active| <= maxConcurrentDownloads
        invariant Pending(ModeOf(mode), maxRetries, dequeued, active, results, dropped, s0, stats, d0, disk.files)
        invariant AlwaysOpens(initOk, openOk) ==> dropped == []
        invariant |queue| <= |queue0| && (|queue| == |queue0| ==> active == active0)
        invariant queue0 != [] && |active0| < maxConcurrentDownloads ==> |queue| < |queue0| || queue == queue0
        decreases |queue|
      {
        var link := queue[0];
        ghost var previous := dequeued;
        var rest := queue[1..];
        assert queue == [link] + rest;
        queue := rest;
        dequeued := dequeued + [link];
        assert dequeued + queue == previous + ([link] + rest);
        active, results, dropped := Admit(link, previous, active, results, dropped, s0, d0, disk, initOk, openOk);
      }
    }

    /** One shifted link: started, tested or dropped according to the mode. */
    method Admit(link: Link, ghost dequeued: seq<Link>, active0: seq<Entry>, results0: seq<Result>, ghost dropped0: seq<Link>,
                 ghost s0: Stats, ghost d0: map<string, nat>, disk: Disk, initOk: (Link, nat) -> bool, openOk: (Link, nat) -> bool)
      returns (active: seq<Entry>, results: seq<Result>, ghost dropped: seq<Link>)
      requires Valid()
      requires Pending(ModeOf(mode), maxRetries, dequeued, active0, results0, dropped0, s0, stats, d0, disk.files)
      requires AlwaysOpens(initOk, openOk) ==> dropped0 == []
      modifies this`stats, disk
      ensures Pending(ModeOf(mode), maxRetries, dequeued + [link], active, results, dropped, s0, stats, d0, disk.files)
      ensures AlwaysOpens(initOk, openOk) ==> dropped == []
      ensures |active| <= |active0| + 1
    {
      active, results, dropped := active0, results0, dropped0;
      if mode == "download" {
        ghost var files := disk.files;
        var h := CreateCurlHandle(link, 0, initOk, openOk, disk);
        if h.Some? {
          PendingStart(ModeOf(mode), maxRetries, dequeued, link, active, results, dropped, s0, stats, d0, files, disk.files);
          active := active + [Entry(link, 0)];
        } else {
          PendingDrop(ModeOf(mode), maxRetries, dequeued, link, active, results, dropped, s0, stats, d0, disk.files);
          dropped := dropped + [link];
        }
      } else if mode == "test" {
        PendingTest(ModeOf(mode), maxRetries, dequeued, link, results, dropped, s0, stats, d0, disk.files);
        disk.Touch(link.savePath);
        results := results + [Tested(link)];
        stats := stats.(success := stats.success + 1);
      } else {
        PendingDrop(ModeOf(mode), maxRetries, dequeued, link, active, results, dropped, s0, stats, d0, disk.files);
      }
    }

    /** One `CURLMSG_DONE` of `downloadInParallel`: the chosen transfer is handled, then retried or recorded. */
    method FinishOne(ghost dequeued: seq<Link>, active0: seq<Entry>, results0: seq<Result>, ghost dropped0: seq<Link>, choice: nat,
                     outcome: (Link, nat) -> Outcome, initOk: (Link, nat) -> bool, openOk: (Link, nat) -> bool,
                     ghost s0: Stats, ghost d0: map<string, nat>, disk: Disk)
      returns (active: seq<Entry>, results: seq<Result>, ghost dropped: seq<Link>)
      requires Valid() && active0 != [] && |active0| <= maxConcurrentDownloads
      requires Pending(ModeOf(mode), maxRetries, dequeued, active0, results0, dropped0, s0, stats, d0, disk.files)
      requires AlwaysOpens(initOk, openOk) ==> dropped0 == []
      modifies this`stats, disk
      ensures Pending(ModeOf(mode), maxRetries, dequeued, active, results, dropped, s0, stats, d0, disk.files)
      ensures AlwaysOpens(initOk, openOk) ==> dropped == []
      ensures |active| <= |active0| && Budget(maxRetries, active) < Budget(maxRetries, active0)
    {
      var k := choice % |active0|;
      var e := active0[k];
      assert e in active0;
      var o := outcome(e.link, e.retries);
      ghost var files, statsBefore := disk.files, stats;
      disk.Append(e.link.savePath, o.size);
      var result := HandleDownloadComplete(e, o, disk);
      BudgetRemove(maxRetries, active0, k);
      if !result.Success() && e.retries < maxRetries {
        assert disk.files == files - {e.link.savePath};
        active, dropped := Requeue(dequeued, active0, k, results0, dropped0, initOk, openOk, s0, d0, files, disk);
        results := results0;
      } else {
        Record(result);
        PendingFinal(ModeOf(mode), maxRetries, dequeued, active0, k, o, results0, dropped0, s0, statsBefore, stats, d0, files, disk.files);
        active := active0[..k] + active0[k + 1..];
        results := results0 + [result];
        dropped := dropped0;
      }
    }

    /** A failure with retries left: a new handle for attempt `retry_count + 1`, at the end of the pool, or the item is dropped. */
    method Requeue(ghost dequeued: seq<Link>, active0: seq<Entry>, k: nat, ghost results: seq<Result>, ghost dropped0: seq<Link>,
                   initOk: (Link, nat) -> bool, openOk: (Link, nat) -> bool,
                   ghost s0: Stats, ghost d0: map<string, nat>, ghost files: map<string, nat>, disk: Disk)
      returns (active: seq<Entry>, ghost dropped: seq<Link>)
      requires k < |active0| && active0[k].retries < maxRetries
      requires Pending(ModeOf(mode), maxRetries, dequeued, active0, results, dropped0, s0, stats, d0, files)
      requires mode == "download"
      requires disk.files == files - {active0[k].link.savePath}
      requires AlwaysOpens(initOk, openOk) ==> dropped0 == []
      modifies disk
      ensures Pending(ModeOf(mode), maxRetries, dequeued, active, results, dropped, s0, stats, d0, disk.files)
      ensures AlwaysOpens(initOk, openOk) ==> dropped == []
      ensures |active| <= |active0|
      ensures Budget(maxRetries, active) < Budget(maxRetries, active0)
    {
      var e := active0[k];
      var h := CreateCurlHandle(e.link, e.retries + 1, initOk, openOk, disk);
      PendingRetry(ModeOf(mode), maxRetries, dequeued, active0, k, h.Some?, results, dropped0, s0, stats, d0, files, disk.files);
      BudgetRetry(maxRetries, active0, k, h.Some?);
      active := active0[..k] + active0[k + 1..] + (if h.Some? then [Entry(e.link, e.retries + 1)] else []);
      dropped := if h.Some? then dropped0 else dropped0 + [e.link];
    }

    /** The counters of a final result: success or failed goes up by one. */
    method Record(result: Result)
      modifies this`stats
      ensures stats == if result.Success() then old(stats).(success := old(stats).success + 1) else old(stats).(failed := old(stats).failed + 1)
    {
      if result.Success() {
        stats := stats.(success := stats.success + 1);
      } else {
        stats := stats.(failed := stats.failed + 1);
      }
    }

    /**
     * `handleDownloadComplete`: the record of a finished transfer; bytes
     * are counted only on success, and on failure the file is deleted.
     */
    method HandleDownloadComplete(e: Entry, o: Outcome, disk: Disk) returns (result: Result)
      modifies this`stats, disk
      ensures result == Completed(e.link, o, e.retries)
      ensures result.Success() <==> o.curlOk && o.httpCode == 200
      ensures Succeeded(o) ==> stats == old(stats).(bytesDownloaded := old(stats).bytesDownloaded + o.size) && disk.files == old(disk.files)
      ensures !Succeeded(o) ==> stats == old(stats) && disk.files == old(disk.files) - {e.link.savePath}
    {
      result := Completed(e.link, o, e.retries);
      if Succeeded(o) {
        stats := stats.(bytesDownloaded := stats.bytesDownloaded + o.size);
      } else {
        disk.DeleteIfExists(e.link.savePath);
      }
    }

    /**
     * `createCurlHandle($url, $savePath)` for the given attempt: fails when
     * `curl_init` or `fopen` does; otherwise resumes an existing non-empty
     * file or creates/truncates it (`OpenPlan`).
     */
    method CreateCurlHandle(link: Link, attempt: nat, initOk: (Link, nat) -> bool, openOk: (Link, nat) -> bool, disk: Disk)
      returns (h: Option<Handle>)
      modifies disk
      ensures h.Some? <==> initOk(link, attempt) && openOk(link, attempt)
      ensures h.Some? ==> h.value == OpenPlan(old(disk.SizeOrZero(link.savePath)))
      ensures disk.files == if h.Some? && !h.value.append then old(disk.files)[link.savePath := 0] else old(disk.files)
    {
      if !initOk(link, attempt) {
        return None;
      }
      var existing := disk.SizeOrZero(link.savePath);
      var plan := OpenPlan(existing);
      if !openOk(link, attempt) {
        return None;
      }
      if !plan.append {
        disk.SetSize(link.savePath, 0);
      }
      return Some(plan);
    }
  }

  lemma FlattenSnoc<T>(xss: seq<seq<T>>, xs: seq<T>)
    ensures Flatten(xss + [xs]) == Flatten(xss) + xs
  {
    if xss != [] {
      assert (xss + [xs])[1..] == xss[1..] + [xs];
      FlattenSnoc(xss[1..], xs);
    }
  }
}
