# Directory-listing scraper, modelled in Dafny

The PHP repository mirrors files from HTTP servers that serve plain
"index of" listings. This project models four of its sources:

- the fluent scraper class of `scraper.class.php`;
- its successor in `scraper_improved.class.php`, which adds retries,
  delete-on-failure, resume and batches;
- the older stand-alone script `scrape.php`;
- the extension counter of `howmanythings.php`.

The model keeps the source's structure:

- **Shared helpers.** Concepts the sources share are defined once:
  - `PhpText`: the PHP string primitives;
  - `Sanitizer`: `sanitize`;
  - `Filter`: `shouldIncludeFile` and `prepareSearchTerms`;
  - `Settings`: the setter normalisations;
  - `Transfers`: transfer results, statistics, the random limit and `array_chunk`;
  - `Discovery`: `getLinks`, textually the same in both classes;
  - `FileSystem`: a class `Disk` whose `files` map from path to size stands for the local disk.
- **The two classes.** `Scraper.Scraper` and `ScraperImproved.ScraperImproved`
  are Dafny classes. Their setters update fields. Their queue-driven download
  loops are `while` loops over a queue, an active pool, the results and the
  `stats` record, proved against predicates (`Scraper.Downloaded`, `ScraperImproved.Settled`)
  that state what a whole run leaves behind.
- **The script.** `ScrapeLinks` models the crawl of `scrape.php`.
  `ScrapeDownload` models its per-link download loop: the redirect loop and
  the byte-range resume loop.
- **The counter.** `HowManyThings` models `process_list`.

The network is replaced by parameters. A listing map gives the hrefs of each reachable page. Oracle functions decide:

- which active transfer finishes next;
- what it reports (cURL code, HTTP status, bytes);
- whether a handle or file can be opened;
- what `get_headers` returns;
- how many bytes one ranged request writes.

Files already on disk are a set of paths, or the `Disk` map.
Every imperative method is proved equal to a specification function, or to a
predicate of its inputs and old state, and the lemmas state the source's
properties about those functions.

## Model

| member | source | states |
|---|---|---|
| PhpText.Substr | scraper.class.php:930-933 | `mb_substr` from a start offset: the suffix from a non-negative start, the last `-start` characters for a negative one |
| PhpText.Right | scraper.class.php:930-933 | `right($s, n)` is a suffix of s: for positive n the last min(n, len) characters, for n ≤ 0 all but the first -n (nothing once -n reaches the length) |
| PhpText.Left | scraper.class.php:942-945 | `left($s, n)` for n ≥ 0 is the first min(n, len) characters; a negative n drops that many from the end |
| PhpText.RightOne | scrape.php:408-411 | `right($s, 1)` is the last character, or "" for "" |
| PhpText.LeftRightSplit | scrape.php:423-425 | `left($s, k) . right($s, len-k)` gives s back |
| PhpText.LowerChar | scraper.class.php:891-893 | `strtolower` maps A-Z to a-z and leaves every other character alone |
| PhpText.ToLower | scraper.class.php:891-893 | lower-casing keeps the length and maps each character by the ASCII rule |
| PhpText.ToLowerIdempotent | scraper.class.php:843 | lower-casing twice equals lower-casing once |
| PhpText.RTrim | scraper.class.php:755 | `rtrim($s, c)` is a prefix of s that does not end in c, and only copies of c were removed |
| PhpText.RTrimRemoved | scraper.class.php:755 | every character `rtrim` removed is a copy of the trimmed character |
| PhpText.LTrim | scraper.class.php:755 | `ltrim($s, c)` is a suffix of s that does not start with c, and only copies of c were removed |
| PhpText.LTrimSuffix | scraper.class.php:755 | `ltrim` returns a suffix of its input |
| PhpText.LTrimRemoved | scraper.class.php:755 | every character `ltrim` removed is a copy of the trimmed character |
| PhpText.TrimStart | scraper.class.php:879 | the leading trim characters are removed: the result is a suffix that starts with no trim character |
| PhpText.TrimEnd | scraper.class.php:879 | the trailing trim characters are removed: the result is a prefix that ends with no trim character |
| PhpText.TrimStartSuffix | scraper.class.php:879 | removing the leading trim characters leaves a suffix of the input |
| PhpText.TrimStartRemoved | scraper.class.php:879 | every character removed from the front is a trim character |
| PhpText.TrimEndRemoved | scraper.class.php:879 | every character removed from the end is a trim character |
| PhpText.TrimIsSlice | scraper.class.php:879 | `trim` returns a contiguous piece of its input with no trim character at either end |
| PhpText.TrimNoop | scraper.class.php:879 | a string with no trim character at either end is its own trim |
| PhpText.StartsWithContains | scraper.class.php:754 | a prefix is found by `strpos` |
| PhpText.ContainsInConcat | scraper.class.php:827 | a superstring contains whatever its part contains |
| PhpText.Explode | scraper.class.php:758 | `explode` gives at least one piece and no piece holds the delimiter; without the delimiter the string is the one piece, with it there are at least two |
| PhpText.ExplodePiecesFree | scraper.class.php:758 | no piece of `explode` holds the delimiter |
| PhpText.ExplodePieceFree | scraper.class.php:758 | any one piece of `explode` is free of the delimiter |
| PhpText.ExplodeCount | scraper.class.php:758 | without the delimiter `explode` gives the string as its one piece; with it, at least two pieces |
| PhpText.ExplodeLastSuffix | scraper.class.php:758-759 | the last piece of `explode` ends the input, with a delimiter just before it when it is shorter |
| PhpText.Implode | scrape.php:199 | `implode` of no pieces is "", and of one piece is that piece |
| PhpText.ImplodeHead | scrape.php:199 | joining a first piece and further pieces puts one delimiter between the first piece and the join of the rest |
| PhpText.ImplodeCons | scrape.php:199 | a character in front of the first piece is a character in front of the joined string |
| PhpText.ImplodeEnds | scrape.php:199 | `implode` ends with its last piece, preceded by the delimiter when there are several pieces |
| PhpText.ImplodeExplode | scrape.php:192-199 | joining with '/' what `explode('/')` split gives the string back |
| PhpText.ExplodeLast | scraper.class.php:758-759 | the last piece of `explode` is a suffix free of the delimiter, preceded by one when shorter than the input |
| PhpText.LastPiece | howmanythings.php:35-36 | `end(explode('.', $s))` is the suffix after the last '.', or the whole string when there is no '.' |
| PhpText.LastIndexOf | scraper.class.php:759 | `strrpos` gives -1 or an index in the string that holds the character |
| PhpText.LastIndexOfAfter | scraper.class.php:759 | no occurrence of the character follows the one `strrpos` returns |
| PhpText.LastPieceWhole | howmanythings.php:35-36 | without a '.' the last piece is the whole string; with one it is strictly shorter |
| PhpText.LastPieceUnique | howmanythings.php:35-36 | a delimiter-free suffix that is the whole string or follows a delimiter is the last piece, so the last piece is characterised exactly |
| PhpText.PathExtension | scraper.class.php:759 | `pathinfo(..., PATHINFO_EXTENSION)` is "" without a '.', otherwise the dot-free text after the last '.' |
| PhpText.HexValue | scrape.php:236 | -1 exactly for a character that is no hexadecimal digit in either case; otherwise the digit's value v in 0..15, with the character at index v of "0123456789abcdef" or of "0123456789ABCDEF" |
| PhpText.UrlDecode | scraper.class.php:788-789 | `urldecode` never lengthens its input, and input with no '%' or '+' is unchanged |
| Sanitizer.DropDisallowed | scraper.class.php:878 | the leading run of characters outside the allow-set is dropped, and what is left starts inside it |
| Sanitizer.DropDisallowedSuffix | scraper.class.php:878 | dropping the leading disallowed run leaves a suffix of the input |
| Sanitizer.ReplaceRuns | scraper.class.php:878 | first pass: only allowed characters and single spaces remain, the output is empty only for empty input, and it starts with a space exactly when the input starts outside the allow-set |
| Sanitizer.DropSpaces | scraper.class.php:879 | the leading run of spaces is dropped |
| Sanitizer.DropSpacesSuffix | scraper.class.php:879 | dropping the leading spaces leaves a suffix of the input |
| Sanitizer.DropSpacesKeepsAllowed | scraper.class.php:879 | a string of allowed characters and spaces stays one after its leading spaces are dropped |
| Sanitizer.Collapse | scraper.class.php:879 | second pass: no double space remains, nothing outside the allow-set or space is introduced, and a leading space stays exactly when there was one |
| Sanitizer.Sanitize | scraper.class.php:876-880 | the output holds only allowed characters and single spaces, and neither starts nor ends with a space |
| Sanitizer.TrimClean | scraper.class.php:879 | trimming a string of allowed characters and single spaces leaves a clean string |
| Sanitizer.SliceKeepsShape | scraper.class.php:879 | a contiguous piece of a string of allowed characters and single spaces is one too, so `trim` keeps that shape |
| Sanitizer.ReplaceRunsKeepsClean | scraper.class.php:878 | a clean string passes the first pass unchanged |
| Sanitizer.CollapseKeepsSingleSpaces | scraper.class.php:879 | a string without double spaces passes the second pass unchanged |
| Sanitizer.SanitizeCleanIsIdentity | scrape.php:260-266 | sanitizing a clean string returns it |
| Sanitizer.SanitizeIdempotent | scraper_improved.class.php:758-762 | sanitizing twice equals sanitizing once |
| Filter.AnyOccurs | scraper.class.php:826-830 | the `foreach`/`mb_strpos` scan finds a hit exactly when some needle occurs in the haystack |
| Filter.ShouldIncludeFileMeans | scraper.class.php:819-854 | accepted iff the name is not PHP-empty, no excluded path occurs in the href, no excluded filename occurs in the name, and, when search terms exist, one occurs in the lower-cased name |
| Filter.NoCriteriaAcceptsNonEmpty | scraper.class.php:821-823 | with no exclusions and no search terms every name that is not PHP-empty is accepted |
| Filter.SearchIsCaseInsensitive | scraper.class.php:840-851 | with no filename exclusions the case of the name does not change the decision |
| Filter.PrepareSearchTerms | scraper.class.php:888-894 | a string becomes a one-term list, an array is lower-cased term by term with its length kept |
| Settings.ConcurrencyLimit | scraper.class.php:311-315 | `max(1, min(50, n))` lies in [1, 50], keeps any n in range, and maps n < 1 to 1 and n > 50 to 50 |
| Settings.AtLeast | scraper.class.php:323-375 | `max(lo, n)` is never below lo, keeps n ≥ lo, and gives lo for n < lo |
| Settings.EnsureTrailingSlash | scraper.class.php:86-93 | the result ends in '/', only a missing slash is added, and a path ending in '/' is unchanged |
| Settings.EnsureTrailingSlashIdempotent | scraper.class.php:101-108 | applying the slash rule twice equals applying it once |
| Settings.EnsureTrailingSlashKeepsRuns | scraper.class.php:86-93 | "a//" keeps both slashes under the original rule |
| Settings.SingleTrailingSlash | scraper_improved.class.php:70-74 | `rtrim($p, '/') . '/'` ends in exactly one '/' |
| Settings.SingleTrailingSlashIgnoresRuns | scraper_improved.class.php:79-83 | the improved rule ignores how many slashes the input ended in |
| Settings.SingleTrailingSlashIdempotent | scraper_improved.class.php:70-74 | applying the improved rule twice equals applying it once |
| Settings.RTrimNoop | scraper_improved.class.php:72 | `rtrim` of a string not ending in the character is the string |
| Settings.Accumulate | scraper.class.php:181-189 | an array is merged onto the list, a non-empty string is appended, an empty string changes nothing |
| Transfers.SuccessCount | scraper.class.php:581-585 | the successes never outnumber the results |
| Transfers.FailedCount | scraper.class.php:581-585 | the failures never outnumber the results |
| Transfers.CountsPartition | scraper_improved.class.php:398-402 | every result is a success or a failure: the two counts add up to the number of results |
| Transfers.CountsSnoc | scraper.class.php:581-589 | appending a result adds one to the matching count and its bytes only on success |
| Transfers.CountsConcat | scraper_improved.class.php:293-308 | counts and bytes of concatenated result lists add up |
| Transfers.RandomSelection | scraper.class.php:442-447 | with a positive limit below the number of links exactly `limit` links remain, none more often than in the input; otherwise the links are unchanged |
| Transfers.ChunksPartition | scraper_improved.class.php:293 | `array_chunk` pieces concatenate to the input, none is empty, and all but the last hold exactly `size` links |
| Discovery.Fetch | scraper.class.php:740 | a page outside the listing has no hrefs |
| Discovery.Absolute | scraper.class.php:753-756 | an href starting with "http" is kept; any other becomes rtrim(url,'/') . '/' . ltrim(href,'/') |
| Discovery.LastSegment | scraper.class.php:758 | the final path segment of the href holds no '/' |
| Discovery.LocalName | scraper.class.php:789 | `trim(sanitize(urldecode(...)))` yields a clean name |
| Discovery.FileLink | scraper.class.php:787-805 | at most one link; an emitted link has `link == href`, `save_path == destination . file_name`, passes the filter and is not on disk |
| Discovery.LogSet | scraper.class.php:772 | the set of logged hrefs holds exactly the log's entries |
| Discovery.SubsetCard | scraper.class.php:772-783 | a subset is never larger |
| Discovery.UnvisitedShrinks | scraper.class.php:772-783 | logging a listed, unlogged directory strictly shrinks the number of unvisited pages, so the recursion ends |
| Discovery.UnvisitedExtends | scraper.class.php:772-783 | a larger log leaves no more unvisited pages |
| Discovery.PageHrefsSuffix | scraper.class.php:739-745 | the href count of a location list bounds that of any of its pages |
| Discovery.GetLinksFrom | scraper.class.php:737-810 | the two `foreach` loops with the recursion compute `ScanLocations` |
| Discovery.ScanPage | scraper.class.php:745-806 | one page's loop computes `ScanHrefs` and only appends to the log |
| Discovery.ScanHref | scraper.class.php:745-806 | one iteration of the page loop leaves a state from which the rest of the page scans to the whole page's result; the log only grows |
| Discovery.ScanDir | scraper.class.php:772-783 | the directory branch logs the href and recurses, and the rest of the page then scans to the whole page's result; the log only grows |
| Discovery.ScanHrefsSkipStep | scraper.class.php:748-783 | a ".", ".." href, or a directory that is excluded or already logged, contributes nothing to the scan |
| Discovery.ScanHrefsDirStep | scraper.class.php:772-783 | an unexcluded, unlogged directory is logged and its page scanned first; the rest of the page goes on with the extended log and the links found there |
| Discovery.ScanHrefsFileStep | scraper.class.php:787-805 | a file href adds its link when its extension is wanted (or the wanted list is empty), and the scan goes on with the next href |
| Discovery.ScanLocationsSingle | scraper.class.php:739-745 | scanning a single location is scanning the hrefs of its page |
| Discovery.GrowsByOne | scraper.class.php:798-803 | appending at most one accepted link is growth by accepted links |
| Discovery.ResolvedTail | scraper.class.php:753-756 | the first absolute href is that of the first href, and the later ones come from the later hrefs |
| Discovery.GetLinks | scraper_improved.class.php:628-701 | the top-level call returns `Discover`, and every link meets the emit conditions |
| Discovery.GrowsByTrans | scraper.class.php:798-803 | growth of the link list by accepted links composes |
| Discovery.FileLinkGrows | scraper.class.php:787-805 | the file branch appends only accepted links |
| Discovery.ScanHrefsEmits | scraper.class.php:745-806 | a page scan keeps the links so far as a prefix and adds only accepted links with a wanted extension |
| Discovery.ScanLocationsEmits | scraper.class.php:739-807 | each added link satisfies the filter, is not on disk, is no directory, and has an extension wanted by one of the locations |
| Discovery.Resolved | scraper.class.php:753-756 | the absolute href list has one entry per href, each its absolute form |
| Discovery.ScanHrefsLog | scraper.class.php:772-783 | the log a page scan returns is the old log followed only by directory hrefs of that page, each unexcluded and unlogged when logged; what a recursive call logs is not kept |
| Discovery.LogGrowthWiden | scraper.class.php:772-773 | log growth stays valid for a larger page |
| Discovery.LogGrowthCons | scraper.class.php:772-773 | one logged directory followed by further growth is growth |
| Discovery.ScanHrefsSkipLog | scraper.class.php:749-751 | a skipped href leaves the log as the rest of the page leaves it |
| Discovery.ScanLogIgnoresLinks | scraper.class.php:772-783 | the returned log does not depend on the links found so far |
| Discovery.DiscoverEmitsEmittable | scraper.class.php:787-804 | every discovered link passes `shouldIncludeFile`, has `save_path == destination . file_name`, was not on disk, and has an extension some location wants (or that location's list is empty) |
| FileSystem.Disk.constructor | scraper.class.php:797 | the disk starts with the given files |
| FileSystem.Disk.Touch | scraper.class.php:538 | `touch`: an absent path appears with size 0, an existing file is kept |
| FileSystem.Disk.DeleteIfExists | scraper_improved.class.php:449-451 | `if (file_exists) unlink`: the path is gone, nothing else changes |
| FileSystem.Disk.SetSize | scraper.class.php:627 | `fopen($p, 'wb')` and a write: the path holds exactly the new size |
| FileSystem.Disk.Append | scraper_improved.class.php:475 | 'ab' mode: the bytes are added to the existing size, or to 0 for a new file |
| FileSystem.Disk.SizeOrZero | scraper_improved.class.php:471 | `file_exists ? filesize : 0` |
| Scraper.TestResults | scraper.class.php:536-543 | test mode gives at most one result per link |
| Scraper.TestResultsFrom | scraper.class.php:506-543 | every test result is a test success for a link of the batch whose name is not too long |
| Scraper.TooLongCount | scraper.class.php:506-511 | the too-long names never outnumber the links |
| Scraper.TestResultsAccount | scraper.class.php:502-543 | test results plus too-long names are all links; every test result is a success with no bytes |
| Scraper.DownloadedAccounts | scraper.class.php:500-611 | in download or test mode success + failed + skipped grows by exactly the number of links |
| Scraper.DownloadedTestMode | scraper.class.php:536-543 | test mode adds no failures and no bytes, and skips exactly the too-long names |
| Scraper.InFlightSkip | scraper.class.php:506-523 | a skipped link leaves the loop invariant intact with one more skip |
| Scraper.InFlightDrop | scraper.class.php:502-544 | a link of any other mode is dropped without effect |
| Scraper.InFlightStart | scraper.class.php:527-534 | starting a transfer opens its file with size 0 and adds it to the pool |
| Scraper.InFlightTest | scraper.class.php:536-543 | test mode records a success and touches the file |
| Scraper.InFlightFinish | scraper.class.php:558-607 | a finished transfer is removed from the pool, recorded, and counted as success or failure, with its bytes only on success |
| Scraper.InFlightNewFiles | scraper.class.php:527 | every new file is the save path of a dequeued link |
| Scraper.InFlightDone | scraper.class.php:500-611 | with queue and pool empty the run satisfies `Downloaded` |
| Scraper.ShiftedSuffix | scraper.class.php:503 | shifting links off the front of a queue leaves a suffix of it |
| Scraper.Scraper.constructor | scraper.class.php:25-64 | the property defaults, which satisfy the clamp bounds |
| Scraper.Scraper.SetDestinationRoot | scraper.class.php:86-93 | the root gets a slash appended unless it ends in one |
| Scraper.Scraper.SetCachePath | scraper.class.php:101-108 | the cache path gets a slash appended unless it ends in one |
| Scraper.Scraper.SetMode | scraper.class.php:121-125 | the mode is stored as given |
| Scraper.Scraper.SetFileNameProcessor | scraper.class.php:134-138 | the processor is stored |
| Scraper.Scraper.SetRandomLimit | scraper.class.php:146-150 | the limit is stored unclamped |
| Scraper.Scraper.AddLocation | scraper.class.php:160-173 | one location is appended with the URL and extensions as given and the sub-directory slash-terminated, or "" for NULL |
| Scraper.Scraper.ExcludeInPath | scraper.class.php:181-189 | the path exclusions accumulate |
| Scraper.Scraper.ExcludeInFilename | scraper.class.php:197-205 | the filename exclusions accumulate |
| Scraper.Scraper.Search | scraper.class.php:213-218 | the lower-cased terms are appended |
| Scraper.Scraper.SetMaxConcurrentDownloads | scraper.class.php:311-315 | the concurrency becomes max(1, min(50, n)) |
| Scraper.Scraper.SetMaxRetries | scraper.class.php:323-327 | retries become max(0, n) |
| Scraper.Scraper.SetRetryDelay | scraper.class.php:335-339 | the delay becomes max(1, n) |
| Scraper.Scraper.SetConnectionTimeout | scraper.class.php:347-351 | the connection timeout becomes max(5, n) |
| Scraper.Scraper.SetTransferTimeout | scraper.class.php:359-363 | the transfer timeout becomes max(10, n) |
| Scraper.Scraper.SetMaxDownloadSpeed | scraper.class.php:371-375 | the speed cap becomes max(0, n) |
| Scraper.Scraper.Scrape | scraper.class.php:426-472 | `total` is the number of links after the random limit; search mode returns those links and touches nothing; other modes run the download loop on them |
| Scraper.Scraper.DownloadInParallel | scraper.class.php:485-615 | `Downloaded` holds: counters move only with results, every link is a result or a skip, and existing files are untouched |
| Scraper.Scraper.FillPool | scraper.class.php:502-544 | links leave the front of the queue in FIFO order (what remains is a suffix), the pool keeps its old entries as a prefix, never exceeds `maxConcurrentDownloads`, and is full whenever links are left; the loop invariant is kept |
| Scraper.Scraper.Admit | scraper.class.php:502-544 | one shifted link joins the pool exactly when the mode is download, its name is not too long and its file is not on disk; otherwise it is skipped, tested or dropped, and the loop invariant is kept |
| Scraper.Scraper.FinishOne | scraper.class.php:558-607 | one active transfer finishes and the loop invariant is kept |
| ScraperImproved.ModeOf | scraper_improved.class.php:335-352 | the mode string selects the download branch exactly for "download" and the test branch exactly for "test" |
| ScraperImproved.OpenPlan | scraper_improved.class.php:471-479 | a positive existing size means append with resume offset equal to that size; otherwise a truncating write from 0 |
| ScraperImproved.AllTested | scraper_improved.class.php:347-352 | test mode gives one result per link |
| ScraperImproved.AllTestedIndex | scraper_improved.class.php:347-352 | the i-th test result is the success placeholder for the i-th link, so the order is kept |
| ScraperImproved.AllTestedConcat | scraper_improved.class.php:293-308 | the test results of batches concatenate |
| ScraperImproved.DiskWithinUpdate | scraper_improved.class.php:471-484 | writing a batch's save path keeps the disk within bounds |
| ScraperImproved.DiskWithinGrow | scraper_improved.class.php:329-353 | the disk bound widens with the links |
| ScraperImproved.DiskWithinConcat | scraper_improved.class.php:293-308 | disk bounds of consecutive batches compose |
| ScraperImproved.SettledConcat | scraper_improved.class.php:290-309 | two runs one after the other settle the concatenation of their links, results and drops |
| ScraperImproved.SettledBatch | scraper_improved.class.php:297-306 | settling one more batch extends the settled prefix of batches |
| ScraperImproved.ResultsFromSnoc | scraper_improved.class.php:297-306 | the per-batch results grow batch by batch |
| ScraperImproved.SettledEmpty | scraper_improved.class.php:316-319 | an empty run settles nothing and changes nothing |
| ScraperImproved.SettledAccounts | scraper_improved.class.php:393-410 | in download mode success + failed + dropped grows by the number of links, and `skipped` never moves |
| ScraperImproved.SettledOneEach | scraper_improved.class.php:327-415 | in download mode the links of the final results plus the dropped links are the links, as a multiset: each link has exactly one final result or was dropped |
| ScraperImproved.LinksOf | scraper_improved.class.php:395 | the link of each final result, in order |
| ScraperImproved.EntryLinks | scraper_improved.class.php:340-345 | the link of each active entry, in order |
| ScraperImproved.LinksOfConcat | scraper_improved.class.php:302 | the links of merged result lists are the merged links |
| ScraperImproved.EntryLinksConcat | scraper_improved.class.php:390 | the links of a pool with entries added are the old links followed by the new |
| ScraperImproved.EntryLinksRemove | scraper_improved.class.php:392 | unsetting an entry takes exactly its link out of the pool's links, as a multiset |
| ScraperImproved.AccountedStart | scraper_improved.class.php:337-346 | a shifted link that gets a handle enters the pool, and the accounting of dequeued links still balances |
| ScraperImproved.AccountedDrop | scraper_improved.class.php:338 | a shifted link with no handle is counted as dropped, and the accounting still balances |
| ScraperImproved.AccountedFinal | scraper_improved.class.php:393-410 | a final result for an active entry moves its link from the pool to the results, and the accounting still balances |
| ScraperImproved.AccountedRetry | scraper_improved.class.php:377-392 | a retry keeps the entry's link in the pool, or moves it to the dropped links when no new handle opens, and the accounting still balances |
| ScraperImproved.AccountedConcat | scraper_improved.class.php:296-306 | two balanced runs with empty pools balance over the concatenation of their links, results and drops |
| ScraperImproved.BudgetConcat | scraper_improved.class.php:377-392 | the remaining retry budget of a pool adds up over its parts |
| ScraperImproved.BudgetRemove | scraper_improved.class.php:392 | removing an entry removes its remaining retries from the budget |
| ScraperImproved.BudgetRetry | scraper_improved.class.php:377-392 | a retry of an entry with retries left never grows the pool and strictly lowers the remaining retry budget, so the loop ends |
| ScraperImproved.PendingStart | scraper_improved.class.php:337-346 | starting a transfer adds an entry with retry count 0 and keeps the invariant |
| ScraperImproved.PendingDrop | scraper_improved.class.php:338 | a link whose handle cannot be created is dropped with no result and no counter change |
| ScraperImproved.PendingTest | scraper_improved.class.php:347-352 | test mode records a success and touches the file |
| ScraperImproved.PendingFinal | scraper_improved.class.php:393-410 | a final result is appended once and counted as success or failure |
| ScraperImproved.PendingRetry | scraper_improved.class.php:377-392 | a retry replaces the entry with its count plus one, or drops it when no handle can be created, and keeps the invariant |
| ScraperImproved.ScraperImproved.constructor | scraper_improved.class.php:19-52 | the property defaults, which satisfy the clamp bounds |
| ScraperImproved.ScraperImproved.SetDestinationRoot | scraper_improved.class.php:70-74 | the root ends in exactly one slash |
| ScraperImproved.ScraperImproved.SetCachePath | scraper_improved.class.php:79-83 | the cache path ends in exactly one slash |
| ScraperImproved.ScraperImproved.SetMode | scraper_improved.class.php:88-92 | the mode is stored as given |
| ScraperImproved.ScraperImproved.SetMaxConcurrentDownloads | scraper_improved.class.php:97-101 | the concurrency becomes max(1, min(50, n)) |
| ScraperImproved.ScraperImproved.SetMaxRetries | scraper_improved.class.php:106-110 | retries become max(0, n) |
| ScraperImproved.ScraperImproved.SetConnectionTimeout | scraper_improved.class.php:115-119 | the connection timeout becomes max(5, n) |
| ScraperImproved.ScraperImproved.SetTransferTimeout | scraper_improved.class.php:124-128 | the transfer timeout becomes max(10, n) |
| ScraperImproved.ScraperImproved.SetMaxDownloadSpeed | scraper_improved.class.php:133-137 | the speed cap becomes max(0, n) |
| ScraperImproved.ScraperImproved.SetFileNameProcessor | scraper_improved.class.php:142-146 | the processor is stored |
| ScraperImproved.ScraperImproved.SetRandomLimit | scraper_improved.class.php:151-155 | the limit is stored unclamped |
| ScraperImproved.ScraperImproved.AddLocation | scraper_improved.class.php:182-195 | one location is appended with the sub-directory ending in exactly one slash, or "" for NULL |
| ScraperImproved.ScraperImproved.ExcludeInPath | scraper_improved.class.php:200-208 | the path exclusions accumulate |
| ScraperImproved.ScraperImproved.ExcludeInFilename | scraper_improved.class.php:213-221 | the filename exclusions accumulate |
| ScraperImproved.ScraperImproved.Search | scraper_improved.class.php:226-231 | the lower-cased terms are appended |
| ScraperImproved.ScraperImproved.Run | scraper_improved.class.php:248-285 | no links found means an empty result with nothing touched; search mode returns the limited links; otherwise the batches settle the limited links (in download mode each has one final result or was dropped, as a multiset), and nothing is dropped when every handle opens |
| ScraperImproved.ScraperImproved.ProcessLinksInBatches | scraper_improved.class.php:290-309 | one result list per 500-link chunk, in batch order, their concatenation settling all links |
| ScraperImproved.ScraperImproved.DownloadInParallel | scraper_improved.class.php:314-419 | `Settled` holds: in download mode the final results and the dropped links are the links, as a multiset; at most maxRetries retries (a final failure used them all); counters move only with final results; `skipped` is untouched; test mode gives one success per link, in order |
| ScraperImproved.ScraperImproved.FillPool | scraper_improved.class.php:329-353 | the queue is shifted in FIFO order while the pool is below the bound |
| ScraperImproved.ScraperImproved.Admit | scraper_improved.class.php:333-352 | one dequeued link is started, dropped or test-touched, keeping the loop invariant |
| ScraperImproved.ScraperImproved.FinishOne | scraper_improved.class.php:367-411 | one active transfer completes and is retried or recorded, keeping the loop invariant |
| ScraperImproved.ScraperImproved.Requeue | scraper_improved.class.php:377-392 | a failed transfer with retries left gets a new handle with its count plus one, or is dropped |
| ScraperImproved.ScraperImproved.Record | scraper_improved.class.php:393-410 | a final result adds one to success or to failed, nothing else |
| ScraperImproved.ScraperImproved.HandleDownloadComplete | scraper_improved.class.php:424-458 | success iff cURL is OK and HTTP is exactly 200; bytes are added only then; on failure the save path is deleted |
| ScraperImproved.ScraperImproved.CreateCurlHandle | scraper_improved.class.php:463-520 | a handle exists iff init and open succeed; a positive existing size is appended to, otherwise the file is truncated to 0 |
| ScraperImproved.FlattenSnoc | scraper_improved.class.php:297-306 | flattening one more batch appends its results |
| ScraperImproved.BatchStep | scraper_improved.class.php:296-306 | one more settled batch extends the per-batch results, their concatenation and the settled prefix of batches by that batch |
| ScrapeLinks.IndexOf | scrape.php:178 | the first occurrence of the pattern at or after i, or the length when there is none |
| ScrapeLinks.IndexOfFound | scrape.php:178 | an index below the length is an occurrence, and no occurrence lies before it |
| ScrapeLinks.IndexOfIs | scrape.php:178 | an occurrence with none before it is what the search returns |
| ScrapeLinks.IndexOfIsFrom | scrape.php:178 | the same for a search starting at any index up to the occurrence |
| ScrapeLinks.IndexOfSamePrefix | scrape.php:178 | two strings agreeing up to the end of the first occurrence in one have it first at the same place |
| ScrapeLinks.OccursAtSamePrefix | scrape.php:178 | whether the pattern occurs at j depends only on the characters up to its end |
| ScrapeLinks.UpTo | scrape.php:178-179 | the prefix before the first stop character, which contains none |
| ScrapeLinks.UpToPrefix | scrape.php:178-179 | a stop-free prefix followed by a stop character is what `UpTo` returns |
| ScrapeLinks.ParseUrl | scrape.php:178-179 | `parse_url` puts no '/', '?' in the host and no '?', '#' in the path |
| ScrapeLinks.HostOf | scrape.php:179 | `scheme . '://' . host` always holds at least the "://" |
| ScrapeLinks.HostOfPrefix | scrape.php:178-179 | with a scheme, `$host` is the start of the page URL up to the end of its host; without "://" it is just "://" |
| ScrapeLinks.HostOfAt | scrape.php:178-179 | with the first "://" at i, `$host` is the first i characters, "://" and the parsed host |
| ScrapeLinks.SchemeHostPrefix | scrape.php:178-179 | scheme, "://" and the host read after it are one prefix of the URL |
| ScrapeLinks.NoSchemeHost | scrape.php:178-179 | without "://" the scheme and host are empty and `$host` is "://" |
| ScrapeLinks.ParseUrlAt | scrape.php:178 | with the first "://" at i, the scheme is the text before it and the host the text after it up to '/', '?' or '#' |
| ScrapeLinks.ParseSlashHref | scrape.php:178 | "://" followed by a root-relative href parses to an empty scheme and host |
| ScrapeLinks.ParseComposed | scrape.php:178-183 | a scheme, "://", a host and a root-relative href parse back into that scheme and host |
| ScrapeLinks.SchemeAtConcat | scrape.php:183-191 | replacing what follows the first "://" keeps that "://" first |
| ScrapeLinks.RemoveAll | scrape.php:186 | `str_replace($url, '', $href)` never lengthens the href |
| ScrapeLinks.RemoveAllAbsent | scrape.php:186 | without an occurrence the href is unchanged |
| ScrapeLinks.ResolveAsWritten | scrape.php:181-188 | as written: a root-relative href is appended to the host minus its last character |
| ScrapeLinks.Resolve | scrape.php:181-188 | corrected: a root-relative href is appended to the whole host; any other href loses occurrences of the page URL and is prefixed with it |
| ScrapeLinks.ResolveAbsent | scrape.php:186-188 | a relative href that does not contain the page URL is simply put after it |
| ScrapeLinks.HostTruncated | scrape.php:183 | the as-written resolution is one character shorter than the intended one and differs from it |
| ScrapeLinks.HostTruncatedExample | scrape.php:183 | `http://a.com/x/` with `/y.gif` resolves to `http://a.co/y.gif` as written |
| ScrapeLinks.ResolveKeepsHost | scrape.php:178-191 | the corrected resolution of a root-relative href keeps the page's scheme and host |
| ScrapeLinks.ParseNoScheme | scrape.php:178-191 | a page URL without "://" gives an empty scheme and host after resolution |
| ScrapeLinks.ParseWithScheme | scrape.php:178-191 | with "://" the resolved href parses to the page's scheme and host |
| ScrapeLinks.ResolvedSchemeAt | scrape.php:183 | the corrected root-relative href is the page's scheme, "://", host and href |
| ScrapeLinks.ResolvedIndex | scrape.php:191 | the resolved href has its "://" where the page URL has it |
| ScrapeLinks.Count | scrape.php:193-198 | the pieces still set never outnumber the slots |
| ScrapeLinks.Unset | scrape.php:195-196 | `unset` keeps the slot count and empties only the given index |
| ScrapeLinks.DotDotFrom | scrape.php:193-198 | the `for` loop from index i keeps the slot count and only empties slots |
| ScrapeLinks.CountAllSet | scrape.php:193 | with no key unset `count` is the number of pieces |
| ScrapeLinks.DotDotFromFirst | scrape.php:194-196 | the first ".." the loop reaches is unset, and so is the piece just before it |
| ScrapeLinks.DotDotFromRemoves | scrape.php:194-196 | a slot the loop empties held ".." or preceded one |
| ScrapeLinks.DotDot | scrape.php:193-198 | the `..` pass keeps the number of slots, and each slot is empty or holds its piece |
| ScrapeLinks.DotDotRemoves | scrape.php:194-196 | a piece is removed only if it is ".." or directly precedes a ".." |
| ScrapeLinks.DotDotFirst | scrape.php:193-196 | the converse on a fresh path: the first ".." piece and the piece before it are removed |
| ScrapeLinks.DotDotFromNoop | scrape.php:193-198 | without ".." the loop from i changes nothing |
| ScrapeLinks.DotDotNoop | scrape.php:193-198 | a path without ".." keeps every piece |
| ScrapeLinks.PresentWrap | scrape.php:199 | `implode` over an array without holes sees every piece |
| ScrapeLinks.Wrap | scrape.php:192 | the exploded pieces as an array with every key set, one per piece |
| ScrapeLinks.Present | scrape.php:199 | the pieces `implode` sees, one per set slot |
| ScrapeLinks.EndOf | scrape.php:236 | `end($pieces)` is the last set piece |
| ScrapeLinks.RemoveDotDots | scrape.php:193-198 | the in-place `for`/`unset` loop computes `DotDot` |
| ScrapeLinks.PresentSnoc | scrape.php:199 | appending a slot appends its piece when it is set |
| ScrapeLinks.DotDotExample | scrape.php:193-199 | `/a/b/../c` loses `b` and `..` and rebuilds to `/a/c` |
| ScrapeLinks.DotDotShrinkingBound | scrape.php:193-198 | `/a/../b/..` keeps the second ".." because `count($pieces)` shrinks after each unset |
| ScrapeLinks.ImplodeChars | scrape.php:199 | a character of a joined string is the delimiter or from a piece |
| ScrapeLinks.ContainsOne | scrape.php:207 | finding a one-character needle means the character is in the string |
| ScrapeLinks.PresentFrom | scrape.php:193-199 | every piece `implode` sees is one of the exploded pieces |
| ScrapeLinks.SortSkipNeverFires | scrape.php:206-209 | the rebuilt href never contains '?', so the sort-link skip never fires |
| ScrapeLinks.ExplodePiecesFrom | scrape.php:192 | a character of an exploded piece is a character of the input |
| ScrapeLinks.FileItem | scrape.php:231-246 | a file href yields at most one item |
| ScrapeLinks.ExtendsTrans | scrape.php:240-244 | growth by acceptable items composes |
| ScrapeLinks.FileItemExtends | scrape.php:231-246 | the file branch keeps earlier items and appends only acceptable ones: a wanted last-dot extension, a save path not on disk, saved under its clean name |
| ScrapeLinks.CrawlPageExtends | scrape.php:172-247 | a page's loop keeps earlier items and adds only acceptable ones, recursions included |
| ScrapeLinks.ScrapeEmits | scrape.php:153-251 | every item returned has the whole href's last-dot extension in some entry's wanted list, was not on disk, and is saved under its clean name |
| ScrapeLinks.EmitsJoin | scrape.php:153-251 | what the first site adds followed by what the remaining sites add meets the emit conditions for all sites |
| ScrapeLinks.EmptyWantedEmitsNothing | scrape.php:232 | with empty wanted lists nothing is returned |
| ScrapeLinks.ScrapePage | scrape.php:172-247 | the imperative page loop computes `CrawlPage` |
| ScrapeLinks.ScrapeHref | scrape.php:172-247 | one iteration of the page loop leaves a state from which the rest of the page crawls to the whole page's result |
| ScrapeLinks.ScrapeSites | scrape.php:153-251 | the outer loop computes `Scrape`, and every item meets the emit conditions |
| ScrapeDownload.Size | scrape.php:71-79 | `file_exists ? filesize : 0` |
| ScrapeDownload.Redirect | scrape.php:58-65 | a result settles its own headers (Location empty or the link itself); a link that already settles is returned at once |
| ScrapeDownload.RedirectMoreFuel | scrape.php:58-65 | once settled, more iterations change nothing |
| ScrapeDownload.RedirectCycle | scrape.php:58-65 | two links naming each other never settle, whatever the bound |
| ScrapeDownload.FollowRedirects | scrape.php:58-65 | the `while` loop computes `Redirect` |
| ScrapeDownload.Pass | scrape.php:83-116 | one pass: the tmp file is consumed, the first chunk replaces save_path, later chunks are appended to it, and no other path changes |
| ScrapeDownload.Resume | scrape.php:83-127 | finishing means the size reached content-length; not finishing means the size is still below it, or no pass was allowed |
| ScrapeDownload.ResumeStep | scrape.php:83-127 | a file still short of content-length with passes left takes one more pass |
| ScrapeDownload.RangeHonouredCompletes | scrape.php:83-127 | a server returning exactly the requested range finishes once enough passes are allowed |
| ScrapeDownload.RangeIgnoredOvershoots | scrape.php:103-115 | a server ignoring the range makes each appended pass add the whole file again |
| ScrapeDownload.EmptyRangeNeverCompletes | scrape.php:83-127 | a server that always sends nothing never finishes a file with content |
| ScrapeDownload.ResumeKeepsBytes | scrape.php:103-115 | once save_path has content it never shrinks |
| ScrapeDownload.ResumeKeepsOthers | scrape.php:83-127 | only save_path and the tmp file can change |
| ScrapeDownload.ResumeDownload | scrape.php:83-127 | the imperative loop over the disk computes `Resume` |
| ScrapeDownload.PassOnDisk | scrape.php:86-116 | one pass on the disk does what `Pass` says: the range goes to the tmp file, which then replaces or is appended to save_path |
| ScrapeDownload.Created | scrape.php:129-139 | `fopen($p, 'a')` creates p without touching other files |
| ScrapeDownload.Step | scrape.php:53-139 | a save path over 255 characters is skipped with nothing changed; a redirect that does not settle stops the script with nothing changed |
| ScrapeDownload.RunKeepsOthers | scrape.php:51-141 | the loop only touches the save paths, `.txt` marks and tmp files of its items |
| ScrapeDownload.TestModeOnlyMarks | scrape.php:129-139 | in test mode every existing file is kept and only `.txt` marks appear |
| ScrapeDownload.LongNamesSkipped | scrape.php:53-56 | a list of over-long names changes nothing |
| ScrapeDownload.DownloadOne | scrape.php:53-139 | the per-item body computes `Step` |
| ScrapeDownload.DownloadAll | scrape.php:51-141 | the `for` loop computes `Run` |
| ScrapeDownload.Script | scrape.php:51-141 | the script downloads what the crawl of its sites returns |
| HowManyThings.ArraySearch | howmanythings.php:37 | `array_search` gives the first index holding the value, and none exactly when the value is absent |
| HowManyThings.CountMime | howmanythings.php:35-36 | the items with a given extension never outnumber the list |
| HowManyThings.CountedIff | howmanythings.php:37 | an extension is counted iff it is listed and is not the first type |
| HowManyThings.PhpNeverCounted | howmanythings.php:52-62 | "php", index 0 of `get_types`, never gets a key |
| HowManyThings.TallyKeys | howmanythings.php:38-42 | every key is a listed type other than the first, with a count of at least 1 |
| HowManyThings.TallyCounts | howmanythings.php:37-42 | a counted type's count is the number of items with that extension, and a key exists iff that number is positive |
| HowManyThings.SumCountsBump | howmanythings.php:41-42 | raising one listed type's count by one raises the sum by one |
| HowManyThings.TypesDistinct | howmanythings.php:52-62 | no type is listed twice |
| HowManyThings.TotalIsSum | howmanythings.php:42-49 | 'Total Files' is the sum of the 'File Info' counts and never exceeds the number of items |
| HowManyThings.TotalIsSumFor | howmanythings.php:38-42 | the same for any type list without repetition |
| HowManyThings.SumCountsEmpty | howmanythings.php:33-34 | the counts of an empty 'File Info' add up to 0 |
| HowManyThings.ProcessList | howmanythings.php:30-50 | `process_list` computes `Tally` against `get_types()` |
| HowManyThings.CountByType | howmanythings.php:34-45 | the `foreach` updating `$storage` and `$total` computes `Tally` |

## Left out

- cURL, the network and DNS are parameters. The listing map stands for `curlGet`/`curl_get` plus the anchor regex or DOMDocument. Oracles stand for completions, handle creation and `get_headers`. Connection and transfer timeouts, low-speed abort, the bandwidth cap, SSL flags, user agent, share handles and `CURLOPT_FOLLOWLOCATION` are not modelled.
- Concurrency: each pass of the download loops finishes exactly one active transfer, chosen by the `pick` oracle. `curl_multi_info_read` can report several transfers per pass, or none, and the model does not capture that.
- Handle identity by `(int)$ch` is not modelled: the pool is a sequence and every handle is taken to be distinct.
- `shuffle` is a parameter: any function that returns a permutation of its input.
- Not modelled: logging, `echo`, progress callbacks (including the per-batch restart of the progress counter in scraper_improved.class.php), `printSummary`, the destructors, timing and speed figures, `sleep($retryDelay)`, `mkdir` of destination directories, `set_time_limit`/`ini_set`.
- Not modelled: the getters of both classes, `enableLogging` and `setProgressCallback`. They only read a field or configure output.
- `\w` in `sanitize` is ASCII letters, digits and '_'. PHP's Unicode word class under `/u` is wider.
- PhpText.UrlDecode: a `%XX` escape becomes the one character whose code is XX (its Latin-1 reading), not one byte of a UTF-8 sequence, because strings are sequences of characters. A multi-byte escape such as `%C3%A9` decodes to two characters, not to `é`.
- ScrapeLinks.Skipped: `strlen` at scrape.php:202 counts bytes, but the model compares character counts. The two agree only when both URLs are ASCII.
- `empty()` and `in_array` are modelled with strict string comparison, and `empty()` is also true for "0". PHP's loose comparison of numeric strings is not modelled.
- `parse_url`: only the scheme, host and path that scrape.php reads are modelled. Ports, user info, IPv6 hosts and malformed-URL `false` are left out.
- `get_headers` failure and array-valued headers are left out. So are the redirects `get_headers` follows itself.
- ScrapeDownload.Redirect: the `while` loop of scrape.php:58-65 need not end, so it runs under an iteration bound. Running out gives `None`, and the script then stops.
- ScrapeDownload.Resume: the resume loop of scrape.php:83-127 need not end, for example when the server sends nothing. It runs under an iteration bound, and running out reports the item as not done. When that happens, ScrapeDownload.Run stops the whole script rather than spinning.
- ScrapeDownload.Resume: the bytes one ranged request writes are an oracle indexed by link and current size. ScrapeDownload.RangeIgnoredOvershoots shows that a server ignoring `CURLOPT_RANGE` makes every appended pass add the whole file again.
- Transfers.ChunksPartition: does not state the number of chunks (`ceil(n / 500)`), only how the chunks are shaped.
- `parse_dir` and `scandir` in howmanythings.php are not modelled: `process_list` takes the list of paths as input.
- demo.php and demo_improved.php are usage examples, not part of this model. The `tar.gz` extension requested there can never match the last-dot rule of `pathinfo`.
- ScraperImproved.ScraperImproved.HandleDownloadComplete: deletes the save path on every failure, including one that will be retried. So a retry always restarts from size 0, and the resume branch of `createCurlHandle` only applies to files left by an earlier run.
- Discovery.GetLinks: emitted links are not de-duplicated by save path. Only the disk check runs, so two hrefs with the same sanitized name both produce a link.
- ScrapeLinks.CrawlPage: the log is passed by value into each recursion. A directory linked from two pages that are not on the same path is scanned twice.
- ScrapeLinks.Resolve: is the corrected resolution, and the crawl uses it. ScrapeLinks.ResolveAsWritten keeps the code as written; see Findings.

## Findings

| source | as written | input that shows it | evidently intended | confidence | as-written member | corrected member |
|---|---|---|---|---|---|---|
| scrape.php:183 | a root-relative href is appended to `left($host, strlen($host) - 1)`, which drops the last character of the host | page `http://a.com/x/` with href `/y.gif` resolves to `http://a.co/y.gif` | `http://a.com/y.gif`: the host kept whole | not executed | ScrapeLinks.ResolveAsWritten (ScrapeLinks.HostTruncated, ScrapeLinks.HostTruncatedExample) | ScrapeLinks.Resolve (ScrapeLinks.ResolveKeepsHost) |
