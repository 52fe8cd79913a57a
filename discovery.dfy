/**
 * Link discovery `getLinks($locations, $log, $links)`, which is textually the
 * same in scraper.class.php:737-810 and scraper_improved.class.php:628-701.
 *
 * The listing fetch `curlGet` plus the anchor regex become a map from URL to
 * the sequence of hrefs on that page (an unknown URL has no hrefs); the
 * `file_exists` test becomes a set of existing paths.
 *
 * `ScanHrefs`/`ScanLocations` are the specification; the method
 * `GetLinksFrom` runs the same two `foreach` loops and the recursion, and is
 * proved to compute what the specification says.
 */
module Discovery {
  import opened PhpText
  import opened Optional
  import opened Sanitizer
  import opened Filter

  /** One entry of `$toScrape`: scrape_url, destination_sub_dir (NULL modelled as ""), mime_types_i_want. */
  datatype Location = Location(scrapeUrl: string, destinationSubDir: string, wantedExtensions: seq<string>)

  /** One discovered file: save_path, link, file_name, destination. */
  datatype Link = Link(savePath: string, link: string, fileName: string, destination: string)

  /** What a crawl reads: the filters, the destination root, the optional name post-processor, the remote listings and the existing files. */
  datatype Context = Context(
    criteria: Criteria,
    destinationRoot: string,
    processor: Option<string -> string>,
    listing: map<string, seq<string>>,
    existing: set<string>)

  /** The state `getLinks` threads through its loops: the visited log and the links found so far. */
  datatype Scan = Scan(log: seq<string>, links: seq<Link>)

  /** The hrefs of the page at a URL; a page that cannot be fetched has none. */
  function Fetch(listing: map<string, seq<string>>, url: string): (hrefs: seq<string>)
    ensures url !in listing ==> hrefs == []
  {
    if url in listing then listing[url] else []
  }

  /** `$href === '.' || $href === '..' || $href === '../'`. */
  predicate IsSelfOrParent(href: string)
  {
    href == "." || href == ".." || href == "../"
  }

  /** Make absolute: an href not starting with "http" becomes rtrim(url, '/') . '/' . ltrim(href, '/'). */
  function Absolute(url: string, href: string): (r: string)
    ensures StartsWith(href, "http") ==> r == href
    ensures !StartsWith(href, "http") ==> r == RTrim(url, '/') + "/" + LTrim(href, '/')
  {
    if StartsWith(href, "http") then href else RTrim(url, '/') + "/" + LTrim(href, '/')
  }

  /** `substr($href, -1) === '/'`: the href names a directory. */
  predicate IsDirHref(href: string)
  {
    href != [] && href[|href| - 1] == '/'
  }

  /** `end(explode('/', rtrim($href, '/')))`: the final path segment. */
  function LastSegment(href: string): (r: string)
    ensures '/' !in r
  {
    LastPiece(RTrim(href, '/'), '/')
  }

  /** The name a remote segment gets locally: `trim(sanitize(urldecode($segment)))`. */
  function LocalName(segment: string): (r: string)
    ensures Clean(r)
  {
    Trim(Sanitize(UrlDecode(segment)))
  }

  /** Applies the file name processor when one is set. */
  function ApplyProcessor(processor: Option<string -> string>, name: string): string
  {
    match processor
    case None => name
    case Some(f) => f(name)
  }

  /** The extension test of the file branch: empty wanted list, or the extension of the last segment is wanted. */
  predicate ExtensionWanted(wanted: seq<string>, href: string)
  {
    wanted == [] || PathExtension(LastSegment(href)) in wanted
  }

  /** The file branch: the link emitted for a file href, if the filters accept it and the file is not on disk yet. */
  function FileLink(ctx: Context, loc: Location, href: string): (r: seq<Link>)
    ensures |r| <= 1
    ensures forall l :: l in r ==>
      (l.link == href && l.savePath == l.destination + l.fileName
       && ShouldIncludeFile(ctx.criteria, href, l.fileName) && l.savePath !in ctx.existing)
  {
    var local := UrlDecode(ctx.destinationRoot + loc.destinationSubDir);
    var name := ApplyProcessor(ctx.processor, LocalName(LastSegment(href)));
    if ShouldIncludeFile(ctx.criteria, href, name) && local + name !in ctx.existing then
      [Link(local + name, href, name, local)]
    else []
  }

  /** The location a directory href is scraped as: its sanitized last segment appended to the sub-directory. */
  function SubLocation(loc: Location, href: string): Location
  {
    Location(href, loc.destinationSubDir + LocalName(LastSegment(href)) + "/", loc.wantedExtensions)
  }

  /** The directory branch of the loop recurses into an href. */
  predicate Recurses(ctx: Context, href: string, log: seq<string>)
  {
    IsDirHref(href) && !AnyOccurs(href, ctx.criteria.excludePath) && href !in log
  }

  /** How many listed pages the log does not hold yet: the measure that makes the recursion finite. */
  function Unvisited(listing: map<string, seq<string>>, log: seq<string>): nat
  {
    |listing.Keys - LogSet(log)|
  }

  function LogSet(log: seq<string>): (r: set<string>)
    ensures forall x :: x in r <==> x in log
  {
    set x | x in log
  }

  lemma SubsetCard(a: set<string>, b: set<string>)
    requires a <= b
    ensures |a| <= |b|
    ensures a < b ==> |a| < |b|
  {
    if a < b {
      assert exists x :: x in b && x !in a;
      var x :| x in b && x !in a;
      SubsetCard(a, b - {x});
    } else {
      assert a == b;
    }
  }

  lemma UnvisitedShrinks(listing: map<string, seq<string>>, bigger: seq<string>, smaller: seq<string>, href: string)
    requires forall x :: x in smaller ==> x in bigger
    ensures Unvisited(listing, bigger + [href]) <= Unvisited(listing, smaller)
    ensures href in listing && href !in bigger ==> Unvisited(listing, bigger + [href]) < Unvisited(listing, smaller)
  {
    var a := listing.Keys - LogSet(bigger + [href]);
    var b := listing.Keys - LogSet(bigger);
    var c := listing.Keys - LogSet(smaller);
    assert a <= b;
    assert b <= c;
    SubsetCard(a, b);
    SubsetCard(b, c);
    if href in listing && href !in bigger {
      assert href in b && href !in a;
      assert a < b;
    }
  }

  /**
   * The inner `foreach ($matches ...)` over the hrefs of one location, from
   * the given log and links. A directory recursion gets the log with the new
   * entry and its own copy: what it logs is not seen here afterwards.
   */
  function ScanHrefs(ctx: Context, loc: Location, hrefs: seq<string>, log: seq<string>, links: seq<Link>): (r: Scan)
    decreases Unvisited(ctx.listing, log), |hrefs|
  {
    if hrefs == [] then Scan(log, links)
    else if IsSelfOrParent(hrefs[0]) then ScanHrefs(ctx, loc, hrefs[1..], log, links)
    else
      var href := Absolute(loc.scrapeUrl, hrefs[0]);
      if IsDirHref(href) then
        if Recurses(ctx, href, log) then
          UnvisitedShrinks(ctx.listing, log, log, href);
          var inner := ScanHrefs(ctx, SubLocation(loc, href), Fetch(ctx.listing, href), log + [href], links);
          ScanHrefs(ctx, loc, hrefs[1..], log + [href], inner.links)
        else ScanHrefs(ctx, loc, hrefs[1..], log, links)
      else if ExtensionWanted(loc.wantedExtensions, href) then
        ScanHrefs(ctx, loc, hrefs[1..], log, links + FileLink(ctx, loc, href))
      else ScanHrefs(ctx, loc, hrefs[1..], log, links)
  }

  /** The outer `foreach ($locations as $var)`: each location's page is scanned with the log and links so far. */
  function ScanLocations(ctx: Context, locs: seq<Location>, log: seq<string>, links: seq<Link>): (r: Scan)
    decreases |locs|
  {
    if locs == [] then Scan(log, links)
    else
      var s := ScanHrefs(ctx, locs[0], Fetch(ctx.listing, locs[0].scrapeUrl), log, links);
      ScanLocations(ctx, locs[1..], s.log, s.links)
  }

  /** `getLinks($this->getLocations())`: what the top-level call returns. */
  function Discover(ctx: Context, locs: seq<Location>): seq<Link>
  {
    ScanLocations(ctx, locs, [], []).links
  }

  /** The number of hrefs on the pages of the given locations (part of the method's termination measure). */
  function PageHrefs(ctx: Context, locs: seq<Location>): nat
  {
    if locs == [] then 0 else |Fetch(ctx.listing, locs[0].scrapeUrl)| + PageHrefs(ctx, locs[1..])
  }

  lemma PageHrefsSuffix(ctx: Context, locs: seq<Location>, j: nat)
    requires j < |locs|
    ensures PageHrefs(ctx, locs) >= |Fetch(ctx.listing, locs[j].scrapeUrl)|
  {
    if j > 0 {
      PageHrefsSuffix(ctx, locs[1..], j - 1);
    }
  }

  /**
   * The imperative `getLinks`, outer loop: `foreach ($locations as $var)`,
   * each page scanned by `ScanPage` with the log and links so far.
   */
  method GetLinksFrom(ctx: Context, locations: seq<Location>, log0: seq<string>, links0: seq<Link>) returns (links: seq<Link>)
    ensures links == ScanLocations(ctx, locations, log0, links0).links
    decreases Unvisited(ctx.listing, log0), PageHrefs(ctx, locations), 2
  {
    ghost var goal := ScanLocations(ctx, locations, log0, links0);
    var log := log0;
    links := links0;
    var j := 0;
    while j < |locations|
      invariant 0 <= j <= |locations|
      invariant forall x :: x in log0 ==> x in log
      invariant Unvisited(ctx.listing, log) <= Unvisited(ctx.listing, log0)
      invariant ScanLocations(ctx, locations[j..], log, links) == goal
    {
      PageHrefsSuffix(ctx, locations, j);
      assert locations[j..][1..] == locations[j + 1..];
      ghost var s := ScanHrefs(ctx, locations[j], Fetch(ctx.listing, locations[j].scrapeUrl), log, links);
      assert ScanLocations(ctx, locations[j + 1..], s.log, s.links) == goal;
      log, links := ScanPage(ctx, locations[j], log, links);
      UnvisitedExtends(ctx.listing, log0, log);
      j := j + 1;
    }
  }

  lemma UnvisitedExtends(listing: map<string, seq<string>>, smaller: seq<string>, bigger: seq<string>)
    requires forall x :: x in smaller ==> x in bigger
    ensures Unvisited(listing, bigger) <= Unvisited(listing, smaller)
  {
    SubsetCard(listing.Keys - LogSet(bigger), listing.Keys - LogSet(smaller));
  }

  /**
   * The imperative `getLinks`, inner loop: `foreach ($matches as $match)` over
   * one page, each href handled by `ScanHref`.
   */
  method ScanPage(ctx: Context, loc: Location, log0: seq<string>, links0: seq<Link>) returns (log: seq<string>, links: seq<Link>)
    ensures Scan(log, links) == ScanHrefs(ctx, loc, Fetch(ctx.listing, loc.scrapeUrl), log0, links0)
    ensures forall x :: x in log0 ==> x in log
    decreases Unvisited(ctx.listing, log0), |Fetch(ctx.listing, loc.scrapeUrl)|, 1
  {
    var hrefs := Fetch(ctx.listing, loc.scrapeUrl);
    ghost var goal := ScanHrefs(ctx, loc, hrefs, log0, links0);
    log, links := log0, links0;
    var i := 0;
    while i < |hrefs|
      invariant 0 <= i <= |hrefs|
      invariant forall x :: x in log0 ==> x in log
      invariant ScanHrefs(ctx, loc, hrefs[i..], log, links) == goal
    {
      assert hrefs[i..][1..] == hrefs[i + 1..];
      UnvisitedExtends(ctx.listing, log0, log);
      log, links := ScanHref(ctx, loc, hrefs[i..], log, links);
      i := i + 1;
    }
  }

  /**
   * The loop body for the first of `hrefs`: skip "." and "..", recurse into a
   * directory that is neither excluded nor logged through `GetLinksFrom`, or
   * add the file link when its extension is wanted.
   */
  method ScanHref(ctx: Context, loc: Location, hrefs: seq<string>, log0: seq<string>, links0: seq<Link>) returns (log: seq<string>, links: seq<Link>)
    requires hrefs != []
    ensures ScanHrefs(ctx, loc, hrefs[1..], log, links) == ScanHrefs(ctx, loc, hrefs, log0, links0)
    ensures forall x :: x in log0 ==> x in log
    decreases Unvisited(ctx.listing, log0), 1, 0
  {
    log, links := log0, links0;
    var raw := hrefs[0];
    if !IsSelfOrParent(raw) {
      var href := Absolute(loc.scrapeUrl, raw);
      if IsDirHref(href) {
        var exclude := AnyOccurs(href, ctx.criteria.excludePath);
        if !exclude && href !in log {
          log, links := ScanDir(ctx, loc, hrefs, log, links);
        } else {
          ScanHrefsSkipStep(ctx, loc, hrefs, log, links);
        }
      } else {
        ScanHrefsFileStep(ctx, loc, hrefs, log, links);
        if ExtensionWanted(loc.wantedExtensions, href) {
          links := links + FileLink(ctx, loc, href);
        }
      }
    } else {
      ScanHrefsSkipStep(ctx, loc, hrefs, log, links);
    }
  }

  /** The directory branch: the href is logged and its page scanned as a location of its own. */
  method ScanDir(ctx: Context, loc: Location, hrefs: seq<string>, log0: seq<string>, links0: seq<Link>) returns (log: seq<string>, links: seq<Link>)
    requires hrefs != [] && !IsSelfOrParent(hrefs[0])
    requires Recurses(ctx, Absolute(loc.scrapeUrl, hrefs[0]), log0)
    ensures ScanHrefs(ctx, loc, hrefs[1..], log, links) == ScanHrefs(ctx, loc, hrefs, log0, links0)
    ensures forall x :: x in log0 ==> x in log
    decreases Unvisited(ctx.listing, log0), 0, 3
  {
    var href := Absolute(loc.scrapeUrl, hrefs[0]);
    ScanHrefsDirStep(ctx, loc, hrefs, log0, links0);
    UnvisitedShrinks(ctx.listing, log0, log0, href);
    log := log0 + [href];
    var sub := SubLocation(loc, href);
    assert [sub][1..] == [];
    assert href !in ctx.listing ==> PageHrefs(ctx, [sub]) == 0;
    ScanLocationsSingle(ctx, sub, log, links0);
    links := GetLinksFrom(ctx, [sub], log, links0);
  }

  /** A "." or ".." href, or a directory that is excluded or logged, is passed over. */
  lemma ScanHrefsSkipStep(ctx: Context, loc: Location, hrefs: seq<string>, log: seq<string>, links: seq<Link>)
    requires hrefs != []
    requires IsSelfOrParent(hrefs[0])
      || (IsDirHref(Absolute(loc.scrapeUrl, hrefs[0])) && !Recurses(ctx, Absolute(loc.scrapeUrl, hrefs[0]), log))
    ensures ScanHrefs(ctx, loc, hrefs, log, links) == ScanHrefs(ctx, loc, hrefs[1..], log, links)
  {
  }

  /** A directory href that is neither excluded nor logged is logged and scanned as a location of its own first. */
  lemma ScanHrefsDirStep(ctx: Context, loc: Location, hrefs: seq<string>, log: seq<string>, links: seq<Link>)
    requires hrefs != [] && !IsSelfOrParent(hrefs[0])
    requires IsDirHref(Absolute(loc.scrapeUrl, hrefs[0])) && Recurses(ctx, Absolute(loc.scrapeUrl, hrefs[0]), log)
    ensures var href := Absolute(loc.scrapeUrl, hrefs[0]);
      ScanHrefs(ctx, loc, hrefs, log, links)
        == ScanHrefs(ctx, loc, hrefs[1..], log + [href],
             ScanHrefs(ctx, SubLocation(loc, href), Fetch(ctx.listing, href), log + [href], links).links)
  {
  }

  /** Scanning a single location is scanning its page. */
  lemma ScanLocationsSingle(ctx: Context, loc: Location, log: seq<string>, links: seq<Link>)
    ensures ScanLocations(ctx, [loc], log, links) == ScanHrefs(ctx, loc, Fetch(ctx.listing, loc.scrapeUrl), log, links)
  {
    assert [loc][1..] == [];
  }

  /** One file href of a scan: the link it yields, if its extension is wanted, and the scan goes on. */
  lemma ScanHrefsFileStep(ctx: Context, loc: Location, hrefs: seq<string>, log: seq<string>, links: seq<Link>)
    requires hrefs != [] && !IsSelfOrParent(hrefs[0]) && !IsDirHref(Absolute(loc.scrapeUrl, hrefs[0]))
    ensures var href := Absolute(loc.scrapeUrl, hrefs[0]);
      ScanHrefs(ctx, loc, hrefs, log, links)
        == ScanHrefs(ctx, loc, hrefs[1..], log, if ExtensionWanted(loc.wantedExtensions, href) then links + FileLink(ctx, loc, href) else links)
  {
  }

  /** `getLinks($this->getLocations())` from an empty log and no links. */
  method GetLinks(ctx: Context, locations: seq<Location>) returns (links: seq<Link>)
    ensures links == Discover(ctx, locations)
    ensures forall l :: l in links ==> Emittable(ctx, l) && exists k :: 0 <= k < |locations| && ExtensionWanted(locations[k].wantedExtensions, l.link)
  {
    links := GetLinksFrom(ctx, locations, [], []);
    DiscoverEmitsEmittable(ctx, locations);
  }

  /** What every emitted link satisfies whatever location it came from. */
  predicate Emittable(ctx: Context, l: Link)
  {
    && ShouldIncludeFile(ctx.criteria, l.link, l.fileName)
    && l.savePath == l.destination + l.fileName
    && l.savePath !in ctx.existing
    && !IsDirHref(l.link)
  }

  /** `more` keeps `links` as a prefix and everything after it is emittable and has a wanted extension. */
  predicate GrowsBy(ctx: Context, wanted: seq<string>, links: seq<Link>, more: seq<Link>)
  {
    && |more| >= |links| && more[..|links|] == links
    && forall i :: |links| <= i < |more| ==> Accepted(ctx, wanted, more[i])
  }

  /** An emittable link whose extension is wanted. */
  predicate Accepted(ctx: Context, wanted: seq<string>, l: Link)
  {
    Emittable(ctx, l) && ExtensionWanted(wanted, l.link)
  }

  lemma GrowsByTrans(ctx: Context, wanted: seq<string>, a: seq<Link>, b: seq<Link>, c: seq<Link>)
    requires GrowsBy(ctx, wanted, a, b) && GrowsBy(ctx, wanted, b, c)
    ensures GrowsBy(ctx, wanted, a, c)
  {
    assert c[..|a|] == c[..|b|][..|a|];
    forall i | |a| <= i < |c|
      ensures Accepted(ctx, wanted, c[i])
    {
      if i < |b| {
        assert c[i] == c[..|b|][i];
      }
    }
  }

  /** The file branch only ever adds an accepted link. */
  lemma FileLinkGrows(ctx: Context, loc: Location, href: string, links: seq<Link>)
    requires !IsDirHref(href) && ExtensionWanted(loc.wantedExtensions, href)
    ensures GrowsBy(ctx, loc.wantedExtensions, links, links + FileLink(ctx, loc, href))
  {
    var added := FileLink(ctx, loc, href);
    if |added| > 0 {
      var l := added[0];
      assert l in added && l.link == href;
      assert Emittable(ctx, l);
    }
    GrowsByOne(ctx, loc.wantedExtensions, links, added);
  }

  /** Adding at most one accepted link grows the list. */
  lemma GrowsByOne(ctx: Context, wanted: seq<string>, links: seq<Link>, added: seq<Link>)
    requires |added| <= 1 && (added != [] ==> Accepted(ctx, wanted, added[0]))
    ensures GrowsBy(ctx, wanted, links, links + added)
  {
    var more := links + added;
    assert more[..|links|] == links;
    forall i | |links| <= i < |more|
      ensures Accepted(ctx, wanted, more[i])
    {
      assert more[i] == added[0];
    }
  }

  /** Every link added while scanning one location's hrefs passes the filters, is wanted by that location, and was not on disk. */
  lemma {:induction false} ScanHrefsEmits(ctx: Context, loc: Location, hrefs: seq<string>, log: seq<string>, links: seq<Link>)
    ensures GrowsBy(ctx, loc.wantedExtensions, links, ScanHrefs(ctx, loc, hrefs, log, links).links)
    decreases Unvisited(ctx.listing, log), |hrefs|
  {
    var r := ScanHrefs(ctx, loc, hrefs, log, links);
    if hrefs == [] {
      assert r.links == links;
    } else if IsSelfOrParent(hrefs[0]) {
      ScanHrefsEmits(ctx, loc, hrefs[1..], log, links);
    } else {
      var href := Absolute(loc.scrapeUrl, hrefs[0]);
      if IsDirHref(href) {
        if Recurses(ctx, href, log) {
          UnvisitedShrinks(ctx.listing, log, log, href);
          var sub := SubLocation(loc, href);
          var inner := ScanHrefs(ctx, sub, Fetch(ctx.listing, href), log + [href], links);
          assert r == ScanHrefs(ctx, loc, hrefs[1..], log + [href], inner.links);
          ScanHrefsEmits(ctx, sub, Fetch(ctx.listing, href), log + [href], links);
          ScanHrefsEmits(ctx, loc, hrefs[1..], log + [href], inner.links);
          GrowsByTrans(ctx, loc.wantedExtensions, links, inner.links, r.links);
        } else {
          ScanHrefsEmits(ctx, loc, hrefs[1..], log, links);
        }
      } else if ExtensionWanted(loc.wantedExtensions, href) {
        var more := links + FileLink(ctx, loc, href);
        assert r == ScanHrefs(ctx, loc, hrefs[1..], log, more);
        ScanHrefsEmits(ctx, loc, hrefs[1..], log, more);
        FileLinkGrows(ctx, loc, href, links);
        GrowsByTrans(ctx, loc.wantedExtensions, links, more, r.links);
      } else {
        ScanHrefsEmits(ctx, loc, hrefs[1..], log, links);
      }
    }
  }

  /** Every link a scan of several locations adds is emittable and wanted by one of those locations. */
  lemma {:induction false} ScanLocationsEmits(ctx: Context, locs: seq<Location>, log: seq<string>, links: seq<Link>)
    ensures var r := ScanLocations(ctx, locs, log, links);
      && |r.links| >= |links| && r.links[..|links|] == links
      && forall i :: |links| <= i < |r.links| ==>
           (Emittable(ctx, r.links[i]) && exists k :: 0 <= k < |locs| && ExtensionWanted(locs[k].wantedExtensions, r.links[i].link))
    decreases |locs|
  {
    if locs != [] {
      var s := ScanHrefs(ctx, locs[0], Fetch(ctx.listing, locs[0].scrapeUrl), log, links);
      ScanHrefsEmits(ctx, locs[0], Fetch(ctx.listing, locs[0].scrapeUrl), log, links);
      ScanLocationsEmits(ctx, locs[1..], s.log, s.links);
      var r := ScanLocations(ctx, locs[1..], s.log, s.links);
      assert r.links[..|links|] == s.links[..|links|];
      forall i | |links| <= i < |r.links|
        ensures Emittable(ctx, r.links[i]) && exists k :: 0 <= k < |locs| && ExtensionWanted(locs[k].wantedExtensions, r.links[i].link)
      {
        if i < |s.links| {
          assert r.links[i] == s.links[i];
          assert ExtensionWanted(locs[0].wantedExtensions, r.links[i].link);
        } else {
          var k :| 0 <= k < |locs[1..]| && ExtensionWanted(locs[1..][k].wantedExtensions, r.links[i].link);
          assert ExtensionWanted(locs[k + 1].wantedExtensions, r.links[i].link);
        }
      }
    }
  }

  /** `more` is `log` followed by directory hrefs of `page` that were free to recurse into when logged. */
  predicate LogGrowth(ctx: Context, page: seq<string>, log: seq<string>, more: seq<string>)
  {
    && |more| >= |log| && more[..|log|] == log
    && forall i :: |log| <= i < |more| ==> (Recurses(ctx, more[i], more[..i]) && more[i] in page)
  }

  /** The absolute forms of a page's hrefs. */
  function Resolved(loc: Location, hrefs: seq<string>): (r: seq<string>)
    ensures |r| == |hrefs| && forall k :: 0 <= k < |r| ==> r[k] == Absolute(loc.scrapeUrl, hrefs[k])
  {
    seq(|hrefs|, k requires 0 <= k < |hrefs| => Absolute(loc.scrapeUrl, hrefs[k]))
  }

  /**
   * The log a scan of one page returns: the given log followed by directory
   * hrefs of that very page (what a recursive call logs is not kept), each
   * free of excluded paths and absent from the log before it.
   */
  lemma {:induction false} ScanHrefsLog(ctx: Context, loc: Location, hrefs: seq<string>, log: seq<string>, links: seq<Link>)
    ensures LogGrowth(ctx, Resolved(loc, hrefs), log, ScanHrefs(ctx, loc, hrefs, log, links).log)
    decreases |hrefs|
  {
    var r := ScanHrefs(ctx, loc, hrefs, log, links);
    if hrefs == [] {
      assert r.log == log;
    } else {
      var href := Absolute(loc.scrapeUrl, hrefs[0]);
      var page := Resolved(loc, hrefs);
      var rest := Resolved(loc, hrefs[1..]);
      ResolvedTail(loc, hrefs);
      if !IsSelfOrParent(hrefs[0]) && Recurses(ctx, href, log) {
        ScanHrefsDirStep(ctx, loc, hrefs, log, links);
        var inner := ScanHrefs(ctx, SubLocation(loc, href), Fetch(ctx.listing, href), log + [href], links);
        ScanHrefsLog(ctx, loc, hrefs[1..], log + [href], inner.links);
        LogGrowthCons(ctx, page, rest, log, href, r.log);
      } else {
        ScanHrefsSkipLog(ctx, loc, hrefs, log, links);
        ScanHrefsLog(ctx, loc, hrefs[1..], log, links);
        LogGrowthWiden(ctx, page, rest, log, r.log);
      }
    }
  }

  /** The first resolved href heads the page, and the rest of the page is resolved from the rest. */
  lemma ResolvedTail(loc: Location, hrefs: seq<string>)
    requires hrefs != []
    ensures Resolved(loc, hrefs)[0] == Absolute(loc.scrapeUrl, hrefs[0])
    ensures forall x :: x in Resolved(loc, hrefs[1..]) ==> x in Resolved(loc, hrefs)
  {
    var page := Resolved(loc, hrefs);
    var rest := Resolved(loc, hrefs[1..]);
    forall x | x in rest ensures x in page {
      var k :| 0 <= k < |rest| && rest[k] == x;
      assert page[k + 1] == x;
    }
  }

  lemma LogGrowthWiden(ctx: Context, page: seq<string>, rest: seq<string>, log: seq<string>, more: seq<string>)
    requires forall x :: x in rest ==> x in page
    requires LogGrowth(ctx, rest, log, more)
    ensures LogGrowth(ctx, page, log, more)
  {
  }

  lemma LogGrowthCons(ctx: Context, page: seq<string>, rest: seq<string>, log: seq<string>, href: string, more: seq<string>)
    requires forall x :: x in rest ==> x in page
    requires href in page && Recurses(ctx, href, log)
    requires LogGrowth(ctx, rest, log + [href], more)
    ensures LogGrowth(ctx, page, log, more)
  {
    var log' := log + [href];
    assert more[..|log|] == more[..|log'|][..|log|];
    forall i | |log| <= i < |more|
      ensures Recurses(ctx, more[i], more[..i]) && more[i] in page
    {
      if i == |log| {
        assert more[i] == more[..|log'|][i];
        assert more[..i] == more[..|log'|][..i];
      }
    }
  }

  /** An href that is not recursed into leaves the log as it is. */
  lemma ScanHrefsSkipLog(ctx: Context, loc: Location, hrefs: seq<string>, log: seq<string>, links: seq<Link>)
    requires hrefs != []
    requires IsSelfOrParent(hrefs[0]) || !Recurses(ctx, Absolute(loc.scrapeUrl, hrefs[0]), log)
    ensures ScanHrefs(ctx, loc, hrefs, log, links).log == ScanHrefs(ctx, loc, hrefs[1..], log, links).log
  {
    var href := Absolute(loc.scrapeUrl, hrefs[0]);
    ScanLogIgnoresLinks(ctx, loc, hrefs[1..], log, links, links + FileLink(ctx, loc, href));
  }

  /** The log a scan returns does not depend on the links it starts from. */
  lemma {:induction false} ScanLogIgnoresLinks(ctx: Context, loc: Location, hrefs: seq<string>, log: seq<string>, a: seq<Link>, b: seq<Link>)
    ensures ScanHrefs(ctx, loc, hrefs, log, a).log == ScanHrefs(ctx, loc, hrefs, log, b).log
    decreases |hrefs|
  {
    if hrefs != [] {
      var href := Absolute(loc.scrapeUrl, hrefs[0]);
      if !IsSelfOrParent(hrefs[0]) && Recurses(ctx, href, log) {
        UnvisitedShrinks(ctx.listing, log, log, href);
        var ia := ScanHrefs(ctx, SubLocation(loc, href), Fetch(ctx.listing, href), log + [href], a);
        var ib := ScanHrefs(ctx, SubLocation(loc, href), Fetch(ctx.listing, href), log + [href], b);
        ScanLogIgnoresLinks(ctx, loc, hrefs[1..], log + [href], ia.links, ib.links);
      } else {
        var fa := if !IsSelfOrParent(hrefs[0]) && !IsDirHref(href) && ExtensionWanted(loc.wantedExtensions, href) then a + FileLink(ctx, loc, href) else a;
        var fb := if !IsSelfOrParent(hrefs[0]) && !IsDirHref(href) && ExtensionWanted(loc.wantedExtensions, href) then b + FileLink(ctx, loc, href) else b;
        ScanLogIgnoresLinks(ctx, loc, hrefs[1..], log, fa, fb);
      }
    }
  }

  /** Every discovered link is emittable and wanted by one of the configured locations. */
  lemma DiscoverEmitsEmittable(ctx: Context, locs: seq<Location>)
    ensures forall l :: l in Discover(ctx, locs) ==>
      (Emittable(ctx, l) && exists k :: 0 <= k < |locs| && ExtensionWanted(locs[k].wantedExtensions, l.link))
  {
    ScanLocationsEmits(ctx, locs, [], []);
    var r := Discover(ctx, locs);
    forall l | l in r
      ensures Emittable(ctx, l) && exists k :: 0 <= k < |locs| && ExtensionWanted(locs[k].wantedExtensions, l.link)
    {
      var i :| 0 <= i < |r| && r[i] == l;
    }
  }
}
