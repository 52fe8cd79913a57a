/**
 * The per-link loop at the top of scrape.php: names longer than 255
 * characters are skipped, redirects are followed until the `Location`
 * header is empty or points at the link itself, and the file is then
 * fetched in byte ranges until it is as long as the `content-length`
 * header says (or, in test mode, an empty "<save_path>.txt" is created).
 *
 * `get_headers` is the `headers` parameter and the number of bytes cURL
 * writes for a range request is the `chunk` parameter. Both loops need not
 * terminate (a redirect cycle, a server that sends nothing), so each runs
 * on a fuel bound and reports whether it settled.
 */
module ScrapeDownload {
  import opened Optional
  import opened Filter
  import opened FileSystem
  import ScrapeLinks

  /** `CACHE_PATH` as shipped. */
  const CachePath: string := "/path/to/cache-directory/"

  /** Longest save path the loop downloads to. */
  const MaxSavePath: nat := 255

  /** The two headers the loop reads: `Location` ("" when absent) and `content-length`. */
  datatype Headers = Headers(location: string, contentLength: Option<nat>)

  /** Where a loop stopped: the files on disk, and whether it settled within its fuel. */
  datatype Progress = Progress(files: map<string, nat>, done: bool)

  /** `file_exists($p) ? filesize($p) : 0`. */
  function Size(files: map<string, nat>, p: string): (n: nat)
    ensures p in files ==> n == files[p]
    ensures p !in files ==> n == 0
  {
    if p in files then files[p] else 0
  }

  // ------------------------------------------------------------ redirects

  /** The redirect loop stops here: `Location` is empty or names the current link. */
  predicate Settles(h: Headers, link: string)
  {
    PhpEmpty(h.location) || h.location == link
  }

  /**
   * `while (!empty(Location) && Location != link) { link = Location; ... }`
   * with at most `fuel` hops: the link it settles on, or None.
   */
  function Redirect(headers: string -> Headers, link: string, fuel: nat): (r: Option<string>)
    ensures r.Some? ==> Settles(headers(r.value), r.value)
    ensures Settles(headers(link), link) ==> r == Some(link)
    decreases fuel
  {
    if Settles(headers(link), link) then Some(link)
    else if fuel == 0 then None
    else Redirect(headers, headers(link).location, fuel - 1)
  }

  /** The settled link does not depend on the fuel, once there is enough. */
  lemma {:induction false} RedirectMoreFuel(headers: string -> Headers, link: string, fuel: nat, more: nat)
    requires Redirect(headers, link, fuel).Some?
    ensures Redirect(headers, link, fuel + more) == Redirect(headers, link, fuel)
    decreases fuel
  {
    if !Settles(headers(link), link) {
      RedirectMoreFuel(headers, headers(link).location, fuel - 1, more);
    }
  }

  /** Two links that redirect to each other keep the loop going for ever. */
  lemma {:induction false} RedirectCycle(headers: string -> Headers, a: string, b: string, fuel: nat)
    requires a != b && !PhpEmpty(a) && !PhpEmpty(b)
    requires headers(a).location == b && headers(b).location == a
    ensures Redirect(headers, a, fuel) == None
    ensures Redirect(headers, b, fuel) == None
    decreases fuel
  {
    if fuel > 0 {
      RedirectCycle(headers, a, b, fuel - 1);
    }
  }

  /** The redirect loop of scrape.php:59-65. */
  method FollowRedirects(headers: string -> Headers, link: string, fuel: nat) returns (r: Option<string>)
    ensures r == Redirect(headers, link, fuel)
  {
    var current := link;
    var header := headers(current);
    var f := fuel;
    while !Settles(header, current) && f > 0
      invariant header == headers(current)
      invariant Redirect(headers, current, f) == Redirect(headers, link, fuel)
      decreases f
    {
      current := header.location;
      header := headers(current);
      f := f - 1;
    }
    if Settles(header, current) {
      r := Some(current);
    } else {
      r := None;
    }
  }

  // -------------------------------------------------------- ranged download

  /** `CACHE_PATH . $file_name . '.tmp'`, the file cURL writes each range to. */
  function TmpPath(it: ScrapeLinks.Item): string
  {
    CachePath + it.fileName + ".tmp"
  }

  /** `$file_size < $content_length`: a missing length (NULL) compares as false, so nothing is fetched. */
  predicate Below(size: nat, contentLength: Option<nat>)
  {
    contentLength.Some? && size < contentLength.value
  }

  /**
   * One pass of the resume loop given the `got` bytes cURL wrote to the
   * temporary file (opened with 'w'): the first range (`file_size <= 0`)
   * is renamed onto the save path, a later one is appended to it and the
   * temporary file unlinked.
   */
  function Pass(files: map<string, nat>, it: ScrapeLinks.Item, got: nat): (r: map<string, nat>)
    ensures TmpPath(it) != it.savePath ==> TmpPath(it) !in r
    ensures Size(files, it.savePath) <= 0 ==> Size(r, it.savePath) == got
    ensures TmpPath(it) != it.savePath && Size(files, it.savePath) > 0 ==> Size(r, it.savePath) == Size(files, it.savePath) + got
    ensures forall q :: q != it.savePath && q != TmpPath(it) ==> (q in r <==> q in files)
    ensures forall q :: q != it.savePath && q != TmpPath(it) && q in files ==> r[q] == files[q]
  {
    var tmp := TmpPath(it);
    var withTmp := files[tmp := got];
    if Size(files, it.savePath) <= 0 then (withTmp - {tmp})[it.savePath := got]
    else withTmp[it.savePath := Size(withTmp, it.savePath) + got] - {tmp}
  }

  /**
   * `while ($file_size < $content_length) { ...; $file_size = filesize(...); }`
   * with at most `fuel` passes; `chunk(link, size)` is what the server sends
   * for the range starting at `size`.
   */
  function Resume(files: map<string, nat>, it: ScrapeLinks.Item, link: string, contentLength: Option<nat>,
                  chunk: (string, nat) -> nat, fuel: nat): (r: Progress)
    ensures r.done ==> !Below(Size(r.files, it.savePath), contentLength)
    ensures !r.done ==> fuel == 0 || Below(Size(r.files, it.savePath), contentLength)
    decreases fuel
  {
    var size := Size(files, it.savePath);
    if !Below(size, contentLength) then Progress(files, true)
    else if fuel == 0 then Progress(files, false)
    else Resume(Pass(files, it, chunk(link, size)), it, link, contentLength, chunk, fuel - 1)
  }

  /** A server that honours the range sends the rest of the file, and one pass completes it. */
  lemma RangeHonouredCompletes(files: map<string, nat>, it: ScrapeLinks.Item, link: string, contentLength: Option<nat>,
                               chunk: (string, nat) -> nat, fuel: nat)
    requires TmpPath(it) != it.savePath && fuel >= 1
    requires Below(Size(files, it.savePath), contentLength)
    requires chunk(link, Size(files, it.savePath)) == contentLength.value - Size(files, it.savePath)
    ensures Resume(files, it, link, contentLength, chunk, fuel).done
    ensures Size(Resume(files, it, link, contentLength, chunk, fuel).files, it.savePath) == contentLength.value
    ensures TmpPath(it) !in Resume(files, it, link, contentLength, chunk, fuel).files
  {
  }

  /**
   * A server that ignores the range and sends the whole file again when the
   * file is partly there: the whole file is appended, and the result is
   * longer than the content length.
   */
  lemma RangeIgnoredOvershoots(files: map<string, nat>, it: ScrapeLinks.Item, link: string, contentLength: Option<nat>,
                               chunk: (string, nat) -> nat, fuel: nat)
    requires TmpPath(it) != it.savePath && fuel >= 1
    requires 0 < Size(files, it.savePath) && Below(Size(files, it.savePath), contentLength)
    requires chunk(link, Size(files, it.savePath)) == contentLength.value
    ensures Resume(files, it, link, contentLength, chunk, fuel).done
    ensures Size(Resume(files, it, link, contentLength, chunk, fuel).files, it.savePath)
         == Size(files, it.savePath) + contentLength.value > contentLength.value
  {
  }

  /** A pass that brings no bytes leaves the loop where it was: no fuel is ever enough. */
  lemma {:induction false} EmptyRangeNeverCompletes(files: map<string, nat>, it: ScrapeLinks.Item, link: string,
                                                    contentLength: Option<nat>, chunk: (string, nat) -> nat, fuel: nat)
    requires TmpPath(it) != it.savePath
    requires Below(Size(files, it.savePath), contentLength)
    requires chunk(link, Size(files, it.savePath)) == 0
    ensures !Resume(files, it, link, contentLength, chunk, fuel).done
    decreases fuel
  {
    if fuel > 0 {
      var next := Pass(files, it, 0);
      assert Size(next, it.savePath) == Size(files, it.savePath);
      EmptyRangeNeverCompletes(next, it, link, contentLength, chunk, fuel - 1);
    }
  }

  /** Once bytes are on disk, resuming only ever adds to them. */
  lemma {:induction false} ResumeKeepsBytes(files: map<string, nat>, it: ScrapeLinks.Item, link: string,
                                            contentLength: Option<nat>, chunk: (string, nat) -> nat, fuel: nat)
    requires TmpPath(it) != it.savePath && Size(files, it.savePath) > 0
    ensures Size(Resume(files, it, link, contentLength, chunk, fuel).files, it.savePath) >= Size(files, it.savePath)
    decreases fuel
  {
    var size := Size(files, it.savePath);
    if Below(size, contentLength) && fuel > 0 {
      ResumeKeepsBytes(Pass(files, it, chunk(link, size)), it, link, contentLength, chunk, fuel - 1);
    }
  }

  /** The resume loop touches the save path and the temporary file and nothing else. */
  lemma {:induction false} ResumeKeepsOthers(files: map<string, nat>, it: ScrapeLinks.Item, link: string,
                                             contentLength: Option<nat>, chunk: (string, nat) -> nat, fuel: nat, q: string)
    requires q != it.savePath && q != TmpPath(it)
    ensures (q in Resume(files, it, link, contentLength, chunk, fuel).files <==> q in files)
    ensures q in files ==> Resume(files, it, link, contentLength, chunk, fuel).files[q] == files[q]
    decreases fuel
  {
    var size := Size(files, it.savePath);
    if Below(size, contentLength) && fuel > 0 {
      ResumeKeepsOthers(Pass(files, it, chunk(link, size)), it, link, contentLength, chunk, fuel - 1, q);
    }
  }

  /** The resume loop of scrape.php:83-127, on the disk. */
  method ResumeDownload(disk: Disk, it: ScrapeLinks.Item, link: string, contentLength: Option<nat>,
                        chunk: (string, nat) -> nat, fuel: nat) returns (done: bool)
    modifies disk
    ensures Progress(disk.files, done) == Resume(old(disk.files), it, link, contentLength, chunk, fuel)
  {
    var size := disk.SizeOrZero(it.savePath);
    var f := fuel;
    while Below(size, contentLength) && f > 0
      invariant size == Size(disk.files, it.savePath)
      invariant Resume(disk.files, it, link, contentLength, chunk, f) == Resume(old(disk.files), it, link, contentLength, chunk, fuel)
      decreases f
    {
      var got := chunk(link, size);
      ResumeStep(disk.files, it, link, contentLength, chunk, f);
      PassOnDisk(disk, it, size, got);
      size := disk.SizeOrZero(it.savePath);
      f := f - 1;
    }
    done := !Below(size, contentLength);
  }

  /** A file still short with fuel left takes one more pass. */
  lemma ResumeStep(files: map<string, nat>, it: ScrapeLinks.Item, link: string, contentLength: Option<nat>,
                   chunk: (string, nat) -> nat, fuel: nat)
    requires Below(Size(files, it.savePath), contentLength) && fuel > 0
    ensures Resume(files, it, link, contentLength, chunk, fuel)
         == Resume(Pass(files, it, chunk(link, Size(files, it.savePath))), it, link, contentLength, chunk, fuel - 1)
  {
  }

  /** One pass of the resume loop on the disk: fetch the range into the temporary file, then rename or append it. */
  method PassOnDisk(disk: Disk, it: ScrapeLinks.Item, size: nat, got: nat)
    requires size == Size(disk.files, it.savePath)
    modifies disk
    ensures disk.files == Pass(old(disk.files), it, got)
  {
    var tmp := TmpPath(it);
    disk.SetSize(tmp, got);
    if size <= 0 {
      disk.DeleteIfExists(tmp);
      disk.SetSize(it.savePath, got);
    } else {
      disk.Append(it.savePath, got);
      disk.DeleteIfExists(tmp);
    }
  }

  // ------------------------------------------------------------- the loop

  /** `fopen($p, "a")` and `fclose`: an empty file appears if there was none. */
  function Created(files: map<string, nat>, p: string): (r: map<string, nat>)
    ensures p in r && r.Keys == files.Keys + {p}
    ensures forall q :: q in files ==> r[q] == files[q]
  {
    if p in files then files else files[p := 0]
  }

  /**
   * One iteration of the loop over `$links`: the long-name skip, the
   * redirects, then the ranged download or, in test mode, the ".txt" marker.
   * `done == false` means one of the inner loops did not settle.
   */
  function Step(files: map<string, nat>, it: ScrapeLinks.Item, headers: string -> Headers, chunk: (string, nat) -> nat,
                testMode: bool, redirectFuel: nat, fuel: nat): (r: Progress)
    ensures |it.savePath| > MaxSavePath ==> r == Progress(files, true)
    ensures Redirect(headers, it.link, redirectFuel) == None && |it.savePath| <= MaxSavePath ==> r == Progress(files, false)
  {
    if |it.savePath| > MaxSavePath then Progress(files, true)
    else match Redirect(headers, it.link, redirectFuel)
      case None => Progress(files, false)
      case Some(link) =>
        if !testMode then Resume(files, it, link, headers(link).contentLength, chunk, fuel)
        else Progress(Created(files, it.savePath + ".txt"), true)
  }

  /** The whole loop: the items in order, stopping at the first that does not settle. */
  function Run(files: map<string, nat>, links: seq<ScrapeLinks.Item>, headers: string -> Headers, chunk: (string, nat) -> nat,
               testMode: bool, redirectFuel: nat, fuel: nat): Progress
    decreases |links|
  {
    if links == [] then Progress(files, true)
    else
      var p := Step(files, links[0], headers, chunk, testMode, redirectFuel, fuel);
      if !p.done then p else Run(p.files, links[1..], headers, chunk, testMode, redirectFuel, fuel)
  }

  /** The paths the iteration for one item may write: none for a skipped long name. */
  predicate MayTouch(it: ScrapeLinks.Item, q: string)
  {
    |it.savePath| <= MaxSavePath && (q == it.savePath || q == TmpPath(it) || q == it.savePath + ".txt")
  }

  /** A path no item may touch is left as it was. */
  lemma {:induction false} RunKeepsOthers(files: map<string, nat>, links: seq<ScrapeLinks.Item>, headers: string -> Headers,
                                          chunk: (string, nat) -> nat, testMode: bool, redirectFuel: nat, fuel: nat, q: string)
    requires forall k :: 0 <= k < |links| ==> !MayTouch(links[k], q)
    ensures (q in Run(files, links, headers, chunk, testMode, redirectFuel, fuel).files <==> q in files)
    ensures q in files ==> Run(files, links, headers, chunk, testMode, redirectFuel, fuel).files[q] == files[q]
    decreases |links|
  {
    if links != [] {
      var it := links[0];
      assert !MayTouch(it, q);
      var p := Step(files, it, headers, chunk, testMode, redirectFuel, fuel);
      if |it.savePath| <= MaxSavePath {
        var r := Redirect(headers, it.link, redirectFuel);
        if r.Some? && !testMode {
          ResumeKeepsOthers(files, it, r.value, headers(r.value).contentLength, chunk, fuel, q);
        }
      }
      if p.done {
        assert forall k :: 0 <= k < |links[1..]| ==> !MayTouch(links[1..][k], q) by {
          forall k | 0 <= k < |links[1..]| ensures !MayTouch(links[1..][k], q) {
            assert links[1..][k] == links[k + 1];
          }
        }
        RunKeepsOthers(p.files, links[1..], headers, chunk, testMode, redirectFuel, fuel, q);
      }
    }
  }

  /** In test mode no existing file changes, and every new file is the ".txt" marker of some item. */
  lemma {:induction false} TestModeOnlyMarks(files: map<string, nat>, links: seq<ScrapeLinks.Item>, headers: string -> Headers,
                                             chunk: (string, nat) -> nat, redirectFuel: nat, fuel: nat, q: string)
    ensures q in files ==>
              (q in Run(files, links, headers, chunk, true, redirectFuel, fuel).files
               && Run(files, links, headers, chunk, true, redirectFuel, fuel).files[q] == files[q])
    ensures q in Run(files, links, headers, chunk, true, redirectFuel, fuel).files && q !in files ==>
              exists k :: 0 <= k < |links| && q == links[k].savePath + ".txt"
    decreases |links|
  {
    if links != [] {
      var p := Step(files, links[0], headers, chunk, true, redirectFuel, fuel);
      if p.done {
        TestModeOnlyMarks(p.files, links[1..], headers, chunk, redirectFuel, fuel, q);
        var r := Run(files, links, headers, chunk, true, redirectFuel, fuel);
        if q in r.files && q !in files {
          if q in p.files {
            assert q == links[0].savePath + ".txt";
          } else {
            var k :| 0 <= k < |links[1..]| && q == links[1..][k].savePath + ".txt";
            assert links[1..][k] == links[k + 1];
          }
        }
      }
    }
  }

  /** A list whose every save path is too long leaves the disk alone. */
  lemma {:induction false} LongNamesSkipped(files: map<string, nat>, links: seq<ScrapeLinks.Item>, headers: string -> Headers,
                                            chunk: (string, nat) -> nat, testMode: bool, redirectFuel: nat, fuel: nat)
    requires forall k :: 0 <= k < |links| ==> |links[k].savePath| > MaxSavePath
    ensures Run(files, links, headers, chunk, testMode, redirectFuel, fuel) == Progress(files, true)
    decreases |links|
  {
    if links != [] {
      assert |links[0].savePath| > MaxSavePath;
      LongNamesSkipped(files, links[1..], headers, chunk, testMode, redirectFuel, fuel);
    }
  }

  /** One iteration of scrape.php:51-140, on the disk. */
  method DownloadOne(disk: Disk, it: ScrapeLinks.Item, headers: string -> Headers, chunk: (string, nat) -> nat,
                     testMode: bool, redirectFuel: nat, fuel: nat) returns (done: bool)
    modifies disk
    ensures Progress(disk.files, done) == Step(old(disk.files), it, headers, chunk, testMode, redirectFuel, fuel)
  {
    if |it.savePath| > MaxSavePath {
      return true;
    }
    var link := FollowRedirects(headers, it.link, redirectFuel);
    if link.None? {
      return false;
    }
    var contentLength := headers(link.value).contentLength;
    if !testMode {
      done := ResumeDownload(disk, it, link.value, contentLength, chunk, fuel);
    } else {
      disk.Touch(it.savePath + ".txt");
      done := true;
    }
  }

  /** The loop of scrape.php:50-141 over the links found. */
  method DownloadAll(disk: Disk, links: seq<ScrapeLinks.Item>, headers: string -> Headers, chunk: (string, nat) -> nat,
                     testMode: bool, redirectFuel: nat, fuel: nat) returns (finished: bool)
    modifies disk
    ensures Progress(disk.files, finished) == Run(old(disk.files), links, headers, chunk, testMode, redirectFuel, fuel)
  {
    var i := 0;
    while i < |links|
      invariant i <= |links|
      invariant Run(disk.files, links[i..], headers, chunk, testMode, redirectFuel, fuel)
             == Run(old(disk.files), links, headers, chunk, testMode, redirectFuel, fuel)
    {
      assert links[i..][0] == links[i] && links[i..][1..] == links[i + 1..];
      var done := DownloadOne(disk, links[i], headers, chunk, testMode, redirectFuel, fuel);
      if !done {
        return false;
      }
      i := i + 1;
    }
    finished := true;
  }

  /** scrape.php as a whole: discover the links of the configured sites, then fetch them. */
  method Script(w: ScrapeLinks.World, sites: seq<ScrapeLinks.Site>, disk: Disk, headers: string -> Headers,
                chunk: (string, nat) -> nat, testMode: bool, redirectFuel: nat, fuel: nat) returns (finished: bool)
    modifies disk
    ensures Progress(disk.files, finished)
         == Run(old(disk.files), ScrapeLinks.Scrape(w, sites), headers, chunk, testMode, redirectFuel, fuel)
  {
    var links := ScrapeLinks.ScrapeSites(w, sites);
    finished := DownloadAll(disk, links, headers, chunk, testMode, redirectFuel, fuel);
  }
}
