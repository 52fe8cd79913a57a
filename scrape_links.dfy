/**
 * Link discovery of the stand-alone script scrape.php: `scrape($vars,
 * $log, $links)` with its href resolution, the `..` removal pass over the
 * exploded path, the skip rules and the emission of files of interest.
 *
 * The page fetch and the anchor extraction are the `listing` map (a URL
 * not in it has no hrefs), the files on disk the `existing` set.
 */
module ScrapeLinks {
  import opened PhpText
  import opened Optional
  import opened Sanitizer
  import Discovery

  /** `DESTINATION_ROOT` as shipped. */
  const DestinationRoot: string := "/path/to/destination/"

  /** One entry of `$vars`: the page, where its files go, and the extensions wanted. */
  datatype Site = Site(scrapeUrl: string, destinationSubDir: string, mimeTypesIWant: seq<string>)

  /** One entry of the returned `$links`. */
  datatype Item = Item(savePath: string, link: string, fileName: string)

  /** The listings of the reachable pages and the files already on disk. */
  datatype World = World(listing: map<string, seq<string>>, existing: set<string>)

  // ---------------------------------------------------------------- parse_url

  /** The components of `parse_url` the script reads. */
  datatype UrlParts = UrlParts(scheme: string, host: string, path: string)

  /** The first index at or after `i` where `pat` occurs, or |s| when there is none. */
  function IndexOf(s: string, pat: string, i: nat): (r: nat)
    requires i <= |s|
    ensures i <= r <= |s|
    decreases |s| - i
  {
    if i == |s| then |s| else if OccursAt(s, pat, i) then i else IndexOf(s, pat, i + 1)
  }

  /** An index below |s| is an occurrence, and no occurrence comes before it. */
  lemma {:induction false} IndexOfFound(s: string, pat: string, i: nat)
    requires i <= |s|
    ensures IndexOf(s, pat, i) < |s| ==> OccursAt(s, pat, IndexOf(s, pat, i))
    ensures forall j :: i <= j < IndexOf(s, pat, i) ==> !OccursAt(s, pat, j)
    decreases |s| - i
  {
    if i < |s| && !OccursAt(s, pat, i) {
      IndexOfFound(s, pat, i + 1);
    }
  }

  /** The longest prefix holding none of the stop characters. */
  function UpTo(s: string, stops: set<char>): (r: string)
    ensures |r| <= |s| && r == s[..|r|]
    ensures forall c :: c in r ==> c !in stops
    ensures |r| < |s| ==> s[|r|] in stops
  {
    if s == [] || s[0] in stops then []
    else
      var rest := UpTo(s[1..], stops);
      assert [s[0]] + rest == s[..1 + |rest|];
      [s[0]] + rest
  }

  /** A stop-free prefix followed by a stop character (or nothing) is what `UpTo` takes. */
  lemma {:induction false} UpToPrefix(a: string, b: string, stops: set<char>)
    requires forall c :: c in a ==> c !in stops
    requires b == [] || b[0] in stops
    ensures UpTo(a + b, stops) == a
    decreases |a|
  {
    if a == [] {
      assert a + b == b;
    } else {
      assert (a + b)[1..] == a[1..] + b;
      assert a[0] in a;
      UpToPrefix(a[1..], b, stops);
    }
  }

  /**
   * `parse_url` for `scheme://host/path?query#fragment`: the scheme before
   * the first "://", the host up to the next '/', '?' or '#', the path up to
   * the next '?' or '#'. Without "://" all of it up to '?' or '#' is path.
   */
  function ParseUrl(s: string): (p: UrlParts)
    ensures '/' !in p.host && '?' !in p.host && '#' !in p.host
    ensures '?' !in p.path && '#' !in p.path
  {
    IndexOfFound(s, "://", 0);
    var i := IndexOf(s, "://", 0);
    if i == |s| then UrlParts("", "", UpTo(s, {'?', '#'}))
    else
      var host := UpTo(s[i + 3..], {'/', '?', '#'});
      UrlParts(s[..i], host, UpTo(s[i + 3 + |host|..], {'?', '#'}))
  }

  /** `$host['scheme'] . '://' . $host['host']`. */
  function HostOf(url: string): (r: string)
    ensures |r| >= 3
  {
    var p := ParseUrl(url);
    p.scheme + "://" + p.host
  }

  /** `str_replace($search, '', $subject)`: every occurrence, left to right, removed; an empty search changes nothing. */
  function RemoveAll(s: string, pat: string): (r: string)
    ensures |r| <= |s|
    decreases |s|
  {
    if pat == [] || |s| < |pat| then s
    else if s[..|pat|] == pat then RemoveAll(s[|pat|..], pat)
    else [s[0]] + RemoveAll(s[1..], pat)
  }

  /** A subject in which the search string does not occur comes back unchanged. */
  lemma {:induction false} RemoveAllAbsent(s: string, pat: string)
    requires !Contains(s, pat)
    ensures RemoveAll(s, pat) == s
    decreases |s|
  {
    if pat != [] && |s| >= |pat| {
      assert !OccursAt(s, pat, 0);
      assert s[..|pat|] != pat;
      assert !Contains(s[1..], pat) by {
        forall i | 0 <= i <= |s[1..]| ensures !OccursAt(s[1..], pat, i) {
          assert !OccursAt(s, pat, i + 1);
          if i + |pat| <= |s[1..]| {
            assert s[1..][i..i + |pat|] == s[i + 1..i + 1 + |pat|];
          }
        }
      }
      RemoveAllAbsent(s[1..], pat);
      assert s == [s[0]] + s[1..];
    }
  }

  // ------------------------------------------------------- href resolution

  /**
   * scrape.php:182-188 as written: a root-relative href is appended to
   * `left($host, strlen($host) - 1)`, which leaves the last character of
   * the host out; any other href loses every occurrence of the page URL
   * and is put after it.
   */
  function ResolveAsWritten(url: string, href: string): (r: string)
    ensures StartsWith(href, "/") ==> r == HostOf(url)[..|HostOf(url)| - 1] + href
  {
    var host := HostOf(url);
    if Left(href, 1) == "/" then Left(host, |host| - 1) + href
    else url + RemoveAll(href, url)
  }

  /** The resolution the rest of the model uses: a root-relative href goes after the whole scheme://host. */
  function Resolve(url: string, href: string): (r: string)
    ensures StartsWith(href, "/") ==> r == HostOf(url) + href
    ensures !StartsWith(href, "/") ==> r == url + RemoveAll(href, url)
  {
    if Left(href, 1) == "/" then HostOf(url) + href else url + RemoveAll(href, url)
  }

  /** A relative href that does not contain the page URL is simply put after it. */
  lemma ResolveAbsent(url: string, href: string)
    requires !StartsWith(href, "/") && !Contains(href, url)
    ensures Resolve(url, href) == url + href
  {
    RemoveAllAbsent(href, url);
  }

  /** The two differ on every root-relative href: the script's result is one character short. */
  lemma HostTruncated(url: string, href: string)
    requires StartsWith(href, "/")
    ensures |ResolveAsWritten(url, href)| == |Resolve(url, href)| - 1
    ensures ResolveAsWritten(url, href) != Resolve(url, href)
  {
  }

  /** The occurrence at i is the first one when none starts earlier. */
  lemma IndexOfIs(s: string, pat: string, i: nat)
    requires pat != [] && OccursAt(s, pat, i)
    requires forall j :: 0 <= j < i ==> !OccursAt(s, pat, j)
    ensures IndexOf(s, pat, 0) == i
  {
    IndexOfIsFrom(s, pat, 0, i);
  }

  /** The same, searching from k <= i. */
  lemma {:induction false} IndexOfIsFrom(s: string, pat: string, k: nat, i: nat)
    requires k <= i && OccursAt(s, pat, i)
    requires forall j :: k <= j < i ==> !OccursAt(s, pat, j)
    ensures IndexOf(s, pat, k) == i
    decreases i - k
  {
    if k < i {
      IndexOfIsFrom(s, pat, k + 1, i);
    }
  }

  /** The concrete case: on a page whose scheme and host are http://a.com, "/y.gif" becomes http://a.co/y.gif. */
  lemma HostTruncatedExample(url: string)
    requires HostOf(url) == "http://a.com"
    ensures ResolveAsWritten(url, "/y.gif") == "http://a.co/y.gif"
    ensures Resolve(url, "/y.gif") == "http://a.com/y.gif"
  {
    assert StartsWith("/y.gif", "/");
    assert HostOf(url)[..|HostOf(url)| - 1] == "http://a.co";
  }

  /** Two strings that agree up to the end of the first occurrence in one have it at the same place. */
  lemma IndexOfSamePrefix(a: string, b: string, pat: string, i: nat)
    requires pat != [] && i < |a| && IndexOf(a, pat, 0) == i
    requires i + |pat| <= |a| && i + |pat| <= |b| && a[..i + |pat|] == b[..i + |pat|]
    ensures IndexOf(b, pat, 0) == i
  {
    IndexOfFound(a, pat, 0);
    var n := i + |pat|;
    OccursAtSamePrefix(a, b, pat, i, n);
    forall j | 0 <= j < i ensures !OccursAt(b, pat, j) {
      OccursAtSamePrefix(a, b, pat, j, n);
    }
    IndexOfIs(b, pat, i);
  }

  /** Whether `pat` occurs at j depends only on the first n characters when it ends by n. */
  lemma OccursAtSamePrefix(a: string, b: string, pat: string, j: nat, n: nat)
    requires j + |pat| <= n <= |a| && n <= |b| && a[..n] == b[..n]
    ensures OccursAt(a, pat, j) <==> OccursAt(b, pat, j)
  {
    assert a[j..j + |pat|] == a[..n][j..j + |pat|];
    assert b[j..j + |pat|] == b[..n][j..j + |pat|];
  }

  /** With the corrected resolution, a root-relative href stays on the page's scheme and host. */
  lemma ResolveKeepsHost(url: string, href: string)
    requires StartsWith(href, "/")
    ensures ParseUrl(Resolve(url, href)).scheme == ParseUrl(url).scheme
    ensures ParseUrl(Resolve(url, href)).host == ParseUrl(url).host
  {
    var p := ParseUrl(url);
    if IndexOf(url, "://", 0) == |url| {
      ParseNoScheme(url, href);
    } else {
      ParseWithScheme(url, href);
    }
  }

  lemma ParseNoScheme(url: string, href: string)
    requires StartsWith(href, "/") && IndexOf(url, "://", 0) == |url|
    ensures ParseUrl(Resolve(url, href)) .scheme == [] && ParseUrl(Resolve(url, href)).host == []
    ensures ParseUrl(url).scheme == [] && ParseUrl(url).host == []
  {
    SlashFirst(href);
    NoSchemeHost(url);
    assert Resolve(url, href) == "://" + href;
    ParseSlashHref(href);
  }

  /** "://" followed by a root-relative href has an empty scheme and host. */
  lemma ParseSlashHref(href: string)
    requires href != [] && href[0] == '/'
    ensures ParseUrl("://" + href).scheme == [] && ParseUrl("://" + href).host == []
  {
    var r := [] + "://" + ([] + href);
    assert r == "://" + href;
    assert OccursAt(r, "://", 0) by {
      assert r[0..3] == "://";
    }
    IndexOfIs(r, "://", 0);
    ParseComposed([], [], href);
  }

  /** Without "://" the scheme and host are empty, and `$host` is just "://". */
  lemma NoSchemeHost(url: string)
    requires IndexOf(url, "://", 0) == |url|
    ensures ParseUrl(url).scheme == [] && ParseUrl(url).host == []
    ensures HostOf(url) == "://"
  {
  }

  lemma ParseWithScheme(url: string, href: string)
    requires StartsWith(href, "/") && IndexOf(url, "://", 0) < |url|
    ensures ParseUrl(Resolve(url, href)).scheme == ParseUrl(url).scheme
    ensures ParseUrl(Resolve(url, href)).host == ParseUrl(url).host
  {
    SlashFirst(href);
    var i := IndexOf(url, "://", 0);
    ResolvedSchemeAt(url, href);
    ResolvedIndex(url, href);
    ParseUrlAt(url, i);
    ParseComposed(url[..i], ParseUrl(url).host, href);
  }

  /** A root-relative href starts with '/'. */
  lemma SlashFirst(href: string)
    requires StartsWith(href, "/")
    ensures href[0] == '/'
  {
    assert href[..1] == "/";
  }

  /** A scheme, "://", a host and a root-relative href parse back into that scheme and host. */
  lemma ParseComposed(scheme: string, host: string, href: string)
    requires '/' !in host && '?' !in host && '#' !in host
    requires href != [] && href[0] == '/'
    requires IndexOf(scheme + "://" + (host + href), "://", 0) == |scheme|
    ensures ParseUrl(scheme + "://" + (host + href)).scheme == scheme
    ensures ParseUrl(scheme + "://" + (host + href)).host == host
  {
    SchemeSplit(scheme, host + href);
    ParseUrlAt(scheme + "://" + (host + href), |scheme|);
    assert forall c :: c in host ==> c !in {'/', '?', '#'};
    UpToPrefix(host, href, {'/', '?', '#'});
  }

  /** The two sides of a "://" put between a scheme and the rest. */
  lemma SchemeSplit(scheme: string, tail: string)
    ensures (scheme + "://" + tail)[..|scheme|] == scheme
    ensures (scheme + "://" + tail)[|scheme| + 3..] == tail
  {
  }

  /** What `parse_url` reads when the first "://" is at i. */
  lemma ParseUrlAt(s: string, i: nat)
    requires i < |s| && IndexOf(s, "://", 0) == i
    ensures i + 3 <= |s|
    ensures ParseUrl(s).scheme == s[..i]
    ensures ParseUrl(s).host == UpTo(s[i + 3..], {'/', '?', '#'})
  {
    IndexOfFound(s, "://", 0);
  }

  /** The resolved root-relative href is the page's scheme, "://", its host and the href. */
  lemma ResolvedSchemeAt(url: string, href: string)
    requires StartsWith(href, "/") && IndexOf(url, "://", 0) < |url|
    ensures Resolve(url, href) == url[..IndexOf(url, "://", 0)] + "://" + (ParseUrl(url).host + href)
  {
    var i := IndexOf(url, "://", 0);
    HostOfAt(url, i);
    Regroup(url[..i], "://", ParseUrl(url).host, href);
  }

  lemma Regroup(a: string, b: string, c: string, d: string)
    ensures a + b + c + d == a + b + (c + d)
  {
  }

  /** `$host` when the first "://" is at i. */
  lemma HostOfAt(url: string, i: nat)
    requires i < |url| && IndexOf(url, "://", 0) == i
    ensures HostOf(url) == url[..i] + "://" + ParseUrl(url).host
  {
    ParseUrlAt(url, i);
  }

  /** `$host` is the start of the page URL up to the end of its host, or just "://" when the URL has no scheme. */
  lemma HostOfPrefix(url: string)
    ensures IndexOf(url, "://", 0) < |url| ==> |HostOf(url)| <= |url| && HostOf(url) == url[..|HostOf(url)|]
    ensures IndexOf(url, "://", 0) == |url| ==> HostOf(url) == "://"
  {
    var i := IndexOf(url, "://", 0);
    if i < |url| {
      ParseUrlAt(url, i);
      HostOfAt(url, i);
      IndexOfFound(url, "://", 0);
      SchemeHostPrefix(url, i, ParseUrl(url).host);
    } else {
      NoSchemeHost(url);
    }
  }

  lemma SchemeHostPrefix(url: string, i: nat, host: string)
    requires i + 3 <= |url| && OccursAt(url, "://", i)
    requires host == UpTo(url[i + 3..], {'/', '?', '#'})
    ensures i + 3 + |host| <= |url| && url[..i] + "://" + host == url[..i + 3 + |host|]
  {
    var r := url[..i] + "://" + host;
    forall k | 0 <= k < |r| ensures r[k] == url[k] {
      if k < i {
      } else if k < i + 3 {
        assert url[i..i + 3][k - i] == url[k];
      } else {
        assert url[i + 3..][k - i - 3] == url[k];
      }
    }
  }

  /** The first "://" of the resolved href is where the page URL has it. */
  lemma ResolvedIndex(url: string, href: string)
    requires StartsWith(href, "/") && IndexOf(url, "://", 0) < |url|
    ensures IndexOf(Resolve(url, href), "://", 0) == IndexOf(url, "://", 0)
  {
    var i := IndexOf(url, "://", 0);
    var tail := ParseUrl(url).host + href;
    ResolvedSchemeAt(url, href);
    SchemeAtConcat(url, i, tail);
  }

  /** Keeping the scheme and "://" of a URL and replacing what follows keeps the first "://" in place. */
  lemma SchemeAtConcat(url: string, i: nat, tail: string)
    requires i < |url| && IndexOf(url, "://", 0) == i
    ensures IndexOf(url[..i] + "://" + tail, "://", 0) == i
  {
    var r := url[..i] + "://" + tail;
    IndexOfFound(url, "://", 0);
    assert r[..i + 3] == url[..i + 3] by {
      assert url[..i + 3] == url[..i] + url[i..i + 3];
    }
    IndexOfSamePrefix(url, r, "://", i);
  }

  // ----------------------------------------------------------- the `..` pass

  /** The exploded path as a PHP array that can have holes: `None` is an unset key. */
  function Wrap(pieces: seq<string>): (h: seq<Option<string>>)
    ensures |h| == |pieces| && forall j :: 0 <= j < |h| ==> h[j] == Some(pieces[j])
  {
    seq(|pieces|, j requires 0 <= j < |pieces| => Some(pieces[j]))
  }

  /** `count($pieces)`: the keys still set. */
  function Count(h: seq<Option<string>>): (n: nat)
    ensures n <= |h|
  {
    if h == [] then 0 else Count(h[..|h| - 1]) + (if h[|h| - 1].Some? then 1 else 0)
  }

  /** `unset($pieces[$k])`: nothing happens for a key that is not there. */
  function Unset(h: seq<Option<string>>, k: int): (r: seq<Option<string>>)
    ensures |r| == |h|
    ensures forall j :: 0 <= j < |h| ==> r[j] == (if j == k then None else h[j])
  {
    if 0 <= k < |h| then h[k := None] else h
  }

  /**
   * `for ($i = $from; $i < count($pieces); $i++) if ($pieces[$i] == '..')
   * { unset($pieces[$i - 1]); unset($pieces[$i]); }`. The bound is
   * re-read on every pass, so it shrinks as keys are unset.
   */
  function DotDotFrom(h: seq<Option<string>>, i: nat): (r: seq<Option<string>>)
    requires i <= |h|
    ensures |r| == |h|
    ensures forall j :: 0 <= j < |h| ==> r[j] == None || r[j] == h[j]
    decreases |h| - i
  {
    if i >= Count(h) then h
    else if h[i] == Some("..") then DotDotFrom(Unset(Unset(h, i - 1), i), i + 1)
    else DotDotFrom(h, i + 1)
  }

  /** A key the pass unsets held "..", or the key after it did. */
  lemma {:induction false} DotDotFromRemoves(h: seq<Option<string>>, i: nat, j: nat)
    requires i <= |h| && j < |h| && DotDotFrom(h, i)[j] == None && h[j] != None
    ensures h[j] == Some("..") || (j + 1 < |h| && h[j + 1] == Some(".."))
    decreases |h| - i
  {
    if i < Count(h) && h[i] == Some("..") {
      var h' := Unset(Unset(h, i - 1), i);
      assert DotDotFrom(h, i) == DotDotFrom(h', i + 1);
      if j != i && j != i - 1 {
        assert h'[j] == h[j];
        DotDotFromRemoves(h', i + 1, j);
        if j + 1 < |h| && h'[j + 1] == Some("..") {
          assert h[j + 1] == h'[j + 1];
        }
      }
    } else if i < Count(h) {
      assert DotDotFrom(h, i) == DotDotFrom(h, i + 1);
      DotDotFromRemoves(h, i + 1, j);
    }
  }

  /** The pass over a freshly exploded path: every key is unset or keeps its piece. */
  function DotDot(pieces: seq<string>): (r: seq<Option<string>>)
    ensures |r| == |pieces|
    ensures forall j :: 0 <= j < |r| ==> r[j] == None || r[j] == Some(pieces[j])
  {
    DotDotFrom(Wrap(pieces), 0)
  }

  /** Only a ".." piece and the piece just before a ".." are ever removed. */
  lemma DotDotRemoves(pieces: seq<string>, j: nat)
    requires j < |pieces| && DotDot(pieces)[j] == None
    ensures pieces[j] == ".." || (j + 1 < |pieces| && pieces[j + 1] == "..")
  {
    var h := Wrap(pieces);
    assert h[j] == Some(pieces[j]);
    DotDotFromRemoves(h, 0, j);
    if j + 1 < |pieces| {
      assert h[j + 1] == Some(pieces[j + 1]);
    }
  }

  /** With no key unset, `count` is the length. */
  lemma {:induction false} CountAllSet(h: seq<Option<string>>)
    requires forall k :: 0 <= k < |h| ==> h[k].Some?
    ensures Count(h) == |h|
  {
    if h != [] {
      CountAllSet(h[..|h| - 1]);
    }
  }

  /** The first ".." the pass reaches is unset, and so is the key just before it. */
  lemma {:induction false} DotDotFromFirst(h: seq<Option<string>>, i: nat, j: nat)
    requires i <= j < Count(h) && h[j] == Some("..")
    requires forall k :: i <= k < j ==> h[k] != Some("..")
    ensures DotDotFrom(h, i)[j] == None
    ensures j >= 1 ==> DotDotFrom(h, i)[j - 1] == None
    decreases j - i
  {
    if i < j {
      assert DotDotFrom(h, i) == DotDotFrom(h, i + 1);
      DotDotFromFirst(h, i + 1, j);
    } else {
      var h' := Unset(Unset(h, i - 1), i);
      assert DotDotFrom(h, i) == DotDotFrom(h', i + 1);
      assert h'[j] == None;
      if j >= 1 {
        assert h'[j - 1] == None;
      }
    }
  }

  /** On a fresh path the first ".." piece and the piece before it are removed. */
  lemma DotDotFirst(pieces: seq<string>, j: nat)
    requires j < |pieces| && pieces[j] == ".."
    requires forall k :: 0 <= k < j ==> pieces[k] != ".."
    ensures DotDot(pieces)[j] == None
    ensures j >= 1 ==> DotDot(pieces)[j - 1] == None
  {
    var h := Wrap(pieces);
    CountAllSet(h);
    DotDotFromFirst(h, 0, j);
  }

  /** A path with no ".." piece loses nothing. */
  lemma {:induction false} DotDotFromNoop(h: seq<Option<string>>, i: nat)
    requires i <= |h| && forall j :: 0 <= j < |h| ==> h[j] != Some("..")
    ensures DotDotFrom(h, i) == h
    decreases |h| - i
  {
    if i < Count(h) {
      DotDotFromNoop(h, i + 1);
    }
  }

  lemma DotDotNoop(pieces: seq<string>)
    requires forall j :: 0 <= j < |pieces| ==> pieces[j] != ".."
    ensures DotDot(pieces) == Wrap(pieces)
  {
    DotDotFromNoop(Wrap(pieces), 0);
  }

  /** Before the pass every piece is set. */
  lemma {:induction false} PresentWrap(pieces: seq<string>)
    ensures Present(Wrap(pieces)) == pieces && Count(Wrap(pieces)) == |pieces|
    decreases |pieces|
  {
    if pieces != [] {
      var n := |pieces| - 1;
      assert Wrap(pieces)[..n] == Wrap(pieces[..n]);
      PresentWrap(pieces[..n]);
      assert pieces == pieces[..n] + [pieces[n]];
    }
  }

  /** The values still set, in key order (what `implode` and `end` see). */
  function Present(h: seq<Option<string>>): (r: seq<string>)
    ensures |r| == Count(h)
  {
    if h == [] then []
    else Present(h[..|h| - 1]) + (if h[|h| - 1].Some? then [h[|h| - 1].value] else [])
  }

  /** `$pieces[$k]` on the array with holes; an unset key reads as NULL, which `urldecode` turns into "". */
  function KeyAt(h: seq<Option<string>>, k: int): string
  {
    if 0 <= k < |h| && h[k].Some? then h[k].value else ""
  }

  /** `end($pieces)`: the last value still set; on an empty array `false`, which `urldecode` turns into "". */
  function EndOf(h: seq<Option<string>>): (r: string)
    ensures Present(h) != [] ==> r == Present(h)[|Present(h)| - 1]
  {
    if Present(h) == [] then "" else Present(h)[|Present(h)| - 1]
  }

  /**
   * The imperative pass: keys are unset in place while the loop bound is
   * re-read, exactly the `DotDotFrom` recursion.
   */
  method RemoveDotDots(pieces: seq<string>) returns (h: seq<Option<string>>)
    ensures h == DotDot(pieces)
  {
    h := Wrap(pieces);
    var i := 0;
    while i < Count(h)
      invariant i <= |h| == |pieces|
      invariant DotDotFrom(h, i) == DotDot(pieces)
      decreases |h| - i
    {
      if h[i] == Some("..") {
        ghost var before := h;
        if i >= 1 {
          h := h[i - 1 := None];
        }
        h := h[i := None];
        assert h == Unset(Unset(before, i - 1), i);
      }
      i := i + 1;
    }
  }

  lemma PresentSnoc(h: seq<Option<string>>, x: Option<string>)
    ensures Present(h + [x]) == Present(h) + (if x.Some? then [x.value] else [])
  {
    assert (h + [x])[..|h|] == h;
  }

  /** "/a/b/../c" comes out as "/a/c": the ".." takes the piece before it along. */
  lemma DotDotExample(a: string, b: string, c: string)
    requires a != ".." && b != ".." && c != ".."
    ensures DotDot(["", a, b, "..", c]) == [Some(""), Some(a), None, None, Some(c)]
    ensures Present(DotDot(["", a, b, "..", c])) == ["", a, c]
  {
    var h0 := Wrap(["", a, b, "..", c]);
    PresentWrap(["", a, b, "..", c]);
    var q0: seq<Option<string>> := [];
    var q1 := q0 + [Some("")];
    var q2 := q1 + [Some(a)];
    var q3 := q2 + [None];
    var q4 := q3 + [None];
    var h1 := q4 + [Some(c)];
    PresentSnoc(q0, Some(""));
    PresentSnoc(q1, Some(a));
    PresentSnoc(q2, None);
    PresentSnoc(q3, None);
    PresentSnoc(q4, Some(c));
    assert Unset(Unset(h0, 2), 3) == h1;
    assert DotDotFrom(h0, 0) == DotDotFrom(h0, 1);
    assert DotDotFrom(h0, 1) == DotDotFrom(h0, 2);
    assert DotDotFrom(h0, 2) == DotDotFrom(h0, 3);
    assert DotDotFrom(h0, 3) == DotDotFrom(h1, 4) == h1;
  }

  /**
   * The shrinking bound: in "/a/../b/.." the first ".." unsets two keys,
   * `count` drops to 3, and the loop stops before the second "..", which
   * is left in the path ("/b/..").
   */
  lemma DotDotShrinkingBound(a: string, b: string)
    requires a != ".." && b != ".."
    ensures DotDot(["", a, "..", b, ".."]) == [Some(""), None, None, Some(b), Some("..")]
    ensures Present(DotDot(["", a, "..", b, ".."])) == ["", b, ".."]
  {
    var h0 := Wrap(["", a, "..", b, ".."]);
    PresentWrap(["", a, "..", b, ".."]);
    var q0: seq<Option<string>> := [];
    var q1 := q0 + [Some("")];
    var q2 := q1 + [None];
    var q3 := q2 + [None];
    var q4 := q3 + [Some(b)];
    var h1 := q4 + [Some("..")];
    PresentSnoc(q0, Some(""));
    PresentSnoc(q1, None);
    PresentSnoc(q2, None);
    PresentSnoc(q3, Some(b));
    PresentSnoc(q4, Some(".."));
    assert Unset(Unset(h0, 1), 2) == h1;
    assert DotDotFrom(h0, 0) == DotDotFrom(h0, 1);
    assert DotDotFrom(h0, 1) == DotDotFrom(h0, 2);
    assert DotDotFrom(h0, 2) == DotDotFrom(h1, 3) == h1;
  }

  // ------------------------------------------------------- one href, parsed

  /** The href after resolution, parsing and the `..` pass, with the pieces the branches read. */
  datatype Parsed = Parsed(href: string, pieces: seq<Option<string>>)

  /** `$parts['scheme'] . '://' . $parts['host'] . implode('/', $pieces)`. */
  function Rebuild(parts: UrlParts, h: seq<Option<string>>): string
  {
    parts.scheme + "://" + parts.host + Implode(Present(h), '/')
  }

  /** scrape.php:175-199 for one anchor. */
  function Normalize(url: string, raw: string): Parsed
  {
    var parts := ParseUrl(Resolve(url, raw));
    var h := DotDot(Explode(parts.path, '/'));
    Parsed(Rebuild(parts, h), h)
  }

  /** "skip if parent or higher" and "skip for sort links". */
  predicate Skipped(url: string, href: string)
  {
    |href| < |url| || Contains(href, "?")
  }

  /** What a joined list of pieces can hold: the delimiter or a character of one piece. */
  lemma {:induction false} ImplodeChars(pieces: seq<string>, d: char, c: char)
    requires c in Implode(pieces, d)
    ensures c == d || exists k :: 0 <= k < |pieces| && c in pieces[k]
    decreases |pieces|
  {
    if |pieces| > 1 {
      var rest := Implode(pieces[1..], d);
      assert Implode(pieces, d) == pieces[0] + [d] + rest;
      if c in rest {
        ImplodeChars(pieces[1..], d, c);
        if c != d {
          var k :| 0 <= k < |pieces[1..]| && c in pieces[1..][k];
          assert pieces[k + 1] == pieces[1..][k];
        }
      }
    }
  }

  lemma ContainsOne(s: string, c: char)
    requires Contains(s, [c])
    ensures c in s
  {
    var i :| 0 <= i <= |s| - 1 && OccursAt(s, [c], i);
    assert |[c]| == 1;
    assert s[i..i + 1] == [c];
    assert s[i] == c;
  }

  /** The pieces the `..` pass keeps come from the exploded path. */
  lemma PresentFrom(pieces: seq<string>, h: seq<Option<string>>, x: string)
    requires |h| == |pieces| && (forall j :: 0 <= j < |h| ==> h[j] == None || h[j] == Some(pieces[j]))
    requires x in Present(h)
    ensures x in pieces
  {
    if h != [] {
      var n := |h| - 1;
      if x in Present(h[..n]) {
        PresentFrom(pieces[..n], h[..n], x);
      } else {
        assert h[n] == Some(pieces[n]);
      }
    }
  }

  /**
   * The sort-link skip can never fire: the href is rebuilt from scheme,
   * host and path, and `parse_url` puts any '?' in the query, not in the
   * host or path (given a scheme free of '?', as any real scheme is).
   */
  lemma SortSkipNeverFires(url: string, raw: string)
    requires '?' !in ParseUrl(Resolve(url, raw)).scheme
    ensures !Contains(Normalize(url, raw).href, "?")
  {
    var parts := ParseUrl(Resolve(url, raw));
    var pieces := Explode(parts.path, '/');
    var h := DotDot(pieces);
    var joined := Implode(Present(h), '/');
    if Contains(Normalize(url, raw).href, "?") {
      ContainsOne(Normalize(url, raw).href, '?');
      assert '?' in joined;
      ImplodeChars(Present(h), '/', '?');
      var k :| 0 <= k < |Present(h)| && '?' in Present(h)[k];
      PresentFrom(pieces, h, Present(h)[k]);
      var m :| 0 <= m < |pieces| && pieces[m] == Present(h)[k];
      ExplodePiecesFrom(parts.path, '/', m, '?');
      assert false;
    }
  }

  /** A character of a piece of `explode` is a character of the input. */
  lemma {:induction false} ExplodePiecesFrom(s: string, d: char, m: nat, c: char)
    requires m < |Explode(s, d)| && c in Explode(s, d)[m]
    ensures c in s
    decreases |s|
  {
    if s != [] {
      var rest := Explode(s[1..], d);
      if s[0] == d {
        assert Explode(s, d) == [[]] + rest;
        assert m > 0 && Explode(s, d)[m] == rest[m - 1];
        ExplodePiecesFrom(s[1..], d, m - 1, c);
      } else if m == 0 {
        assert Explode(s, d)[0] == [s[0]] + rest[0];
        if c != s[0] {
          ExplodePiecesFrom(s[1..], d, 0, c);
        }
      } else {
        assert Explode(s, d)[m] == rest[m];
        ExplodePiecesFrom(s[1..], d, m, c);
      }
    }
  }

  // ----------------------------------------------------------- the branches

  /** The directory branch: `$href` with its second-last piece, sanitized, added to the sub-directory. */
  function SubSite(site: Site, p: Parsed): Site
  {
    Site(p.href, site.destinationSubDir + Discovery.LocalName(KeyAt(p.pieces, Count(p.pieces) - 2)) + "/", site.mimeTypesIWant)
  }

  /** `end(explode('.', $href))` in the wanted list (strict comparison assumed). */
  predicate Wanted(site: Site, href: string)
  {
    LastPiece(href, '.') in site.mimeTypesIWant
  }

  /** The file branch: the item for a wanted file that is not on disk yet. */
  function FileItem(w: World, site: Site, p: Parsed): (r: seq<Item>)
    ensures |r| <= 1
  {
    if Wanted(site, p.href) then
      var local := UrlDecode(DestinationRoot + site.destinationSubDir);
      var name := Discovery.LocalName(EndOf(p.pieces));
      if local + name !in w.existing then [Item(local + name, p.href, name)] else []
    else []
  }

  /** What every emitted item satisfies, whichever page of the crawl found it. */
  predicate ItemOk(w: World, wanted: seq<string>, it: Item)
  {
    && LastPiece(it.link, '.') in wanted
    && it.savePath !in w.existing
    && |it.fileName| <= |it.savePath| && it.savePath[|it.savePath| - |it.fileName|..] == it.fileName
    && Clean(it.fileName)
  }

  // --------------------------------------------------------------- scrape()

  /**
   * The `foreach ($page_links ...)` over one page. The log is the caller's:
   * a recursion gets it with the directory added, and nothing it logs comes
   * back, so the same directory is scanned again if it is linked twice.
   */
  function CrawlPage(w: World, site: Site, hrefs: seq<string>, log: seq<string>, links: seq<Item>): (r: seq<Item>)
    decreases Discovery.Unvisited(w.listing, log), |hrefs|
  {
    if hrefs == [] then links
    else
      var p := Normalize(site.scrapeUrl, hrefs[0]);
      if Skipped(site.scrapeUrl, p.href) then CrawlPage(w, site, hrefs[1..], log, links)
      else
        var afterDir :=
          if Right(p.href, 1) == "/" && p.href !in log then
            Discovery.UnvisitedShrinks(w.listing, log, log, p.href);
            CrawlPage(w, SubSite(site, p), Discovery.Fetch(w.listing, p.href), log + [p.href], links)
          else links;
        CrawlPage(w, site, hrefs[1..], log, afterDir + FileItem(w, site, p))
  }

  /** The outer `foreach ($vars as $var)`: each URL joins the log before its page is scanned. */
  function CrawlSites(w: World, sites: seq<Site>, log: seq<string>, links: seq<Item>): (r: seq<Item>)
    decreases |sites|
  {
    if sites == [] then links
    else
      var log' := log + [sites[0].scrapeUrl];
      CrawlSites(w, sites[1..], log', CrawlPage(w, sites[0], Discovery.Fetch(w.listing, sites[0].scrapeUrl), log', links))
  }

  /** `scrape($vars)`. */
  function Scrape(w: World, sites: seq<Site>): seq<Item>
  {
    CrawlSites(w, sites, [], [])
  }

  /** Links accumulated on one page keep what came before and add acceptable items only. */
  predicate Extends(w: World, wanted: seq<string>, links: seq<Item>, more: seq<Item>)
  {
    |links| <= |more| && more[..|links|] == links && forall i :: |links| <= i < |more| ==> ItemOk(w, wanted, more[i])
  }

  lemma ExtendsTrans(w: World, wanted: seq<string>, a: seq<Item>, b: seq<Item>, c: seq<Item>)
    requires Extends(w, wanted, a, b) && Extends(w, wanted, b, c)
    ensures Extends(w, wanted, a, c)
  {
    assert c[..|b|][..|a|] == c[..|a|];
  }

  lemma FileItemExtends(w: World, site: Site, p: Parsed, links: seq<Item>)
    ensures Extends(w, site.mimeTypesIWant, links, links + FileItem(w, site, p))
  {
    var more := links + FileItem(w, site, p);
    assert more[..|links|] == links;
    if FileItem(w, site, p) != [] {
      var local := UrlDecode(DestinationRoot + site.destinationSubDir);
      var name := Discovery.LocalName(EndOf(p.pieces));
      assert more[|links|] == Item(local + name, p.href, name);
      assert (local + name)[|local + name| - |name|..] == name;
    }
  }

  /** One page extends the links; a sub-directory keeps the page's wanted list. */
  lemma {:induction false} CrawlPageExtends(w: World, site: Site, hrefs: seq<string>, log: seq<string>, links: seq<Item>)
    ensures Extends(w, site.mimeTypesIWant, links, CrawlPage(w, site, hrefs, log, links))
    decreases Discovery.Unvisited(w.listing, log), |hrefs|
  {
    if hrefs != [] {
      var p := Normalize(site.scrapeUrl, hrefs[0]);
      if Skipped(site.scrapeUrl, p.href) {
        CrawlPageExtends(w, site, hrefs[1..], log, links);
      } else {
        var afterDir := links;
        if Right(p.href, 1) == "/" && p.href !in log {
          Discovery.UnvisitedShrinks(w.listing, log, log, p.href);
          afterDir := CrawlPage(w, SubSite(site, p), Discovery.Fetch(w.listing, p.href), log + [p.href], links);
          CrawlPageExtends(w, SubSite(site, p), Discovery.Fetch(w.listing, p.href), log + [p.href], links);
        }
        assert Extends(w, site.mimeTypesIWant, links, afterDir);
        FileItemExtends(w, site, p, afterDir);
        ExtendsTrans(w, site.mimeTypesIWant, links, afterDir, afterDir + FileItem(w, site, p));
        CrawlPageExtends(w, site, hrefs[1..], log, afterDir + FileItem(w, site, p));
        ExtendsTrans(w, site.mimeTypesIWant, links, afterDir + FileItem(w, site, p),
                     CrawlPage(w, site, hrefs[1..], log, afterDir + FileItem(w, site, p)));
      }
    }
  }

  /**
   * Every item `scrape` returns has a wanted extension (after the last '.'
   * of the whole href) of some entry of `$vars`, was not on disk, and is
   * saved under its sanitized name.
   */
  lemma {:induction false} ScrapeEmits(w: World, sites: seq<Site>, log: seq<string>, links: seq<Item>)
    ensures EmitsFor(w, sites, links, CrawlSites(w, sites, log, links))
    decreases |sites|
  {
    if sites == [] {
      assert links[..|links|] == links;
    } else {
      var log' := log + [sites[0].scrapeUrl];
      var mid := CrawlPage(w, sites[0], Discovery.Fetch(w.listing, sites[0].scrapeUrl), log', links);
      CrawlPageExtends(w, sites[0], Discovery.Fetch(w.listing, sites[0].scrapeUrl), log', links);
      ScrapeEmits(w, sites[1..], log', mid);
      EmitsJoin(w, sites, links, mid, CrawlSites(w, sites[1..], log', mid));
    }
  }

  /** `more` keeps `links` as a prefix and each item after it is acceptable to some site's wanted list. */
  predicate EmitsFor(w: World, sites: seq<Site>, links: seq<Item>, more: seq<Item>)
  {
    |links| <= |more| && more[..|links|] == links &&
    forall i :: |links| <= i < |more| ==> exists k :: 0 <= k < |sites| && ItemOk(w, sites[k].mimeTypesIWant, more[i])
  }

  /** What the first site adds followed by what the remaining sites add. */
  lemma EmitsJoin(w: World, sites: seq<Site>, links: seq<Item>, mid: seq<Item>, r: seq<Item>)
    requires sites != [] && Extends(w, sites[0].mimeTypesIWant, links, mid) && EmitsFor(w, sites[1..], mid, r)
    ensures EmitsFor(w, sites, links, r)
  {
    assert r[..|mid|][..|links|] == r[..|links|];
    forall i | |links| <= i < |r| ensures exists k :: 0 <= k < |sites| && ItemOk(w, sites[k].mimeTypesIWant, r[i]) {
      if i < |mid| {
        assert r[i] == mid[i];
        assert ItemOk(w, sites[0].mimeTypesIWant, r[i]);
      } else {
        var k :| 0 <= k < |sites[1..]| && ItemOk(w, sites[1..][k].mimeTypesIWant, r[i]);
        assert sites[1..][k] == sites[k + 1];
      }
    }
  }

  /** Unlike the classes, an empty wanted list emits nothing: with no extension wanted anywhere nothing is returned. */
  lemma EmptyWantedEmitsNothing(w: World, sites: seq<Site>)
    requires forall k :: 0 <= k < |sites| ==> sites[k].mimeTypesIWant == []
    ensures Scrape(w, sites) == []
  {
    ScrapeEmits(w, sites, [], []);
    var r := Scrape(w, sites);
    FirstIsMember(r);
    assert forall it :: it in r ==> exists s :: s in sites && ItemOk(w, s.mimeTypesIWant, it);
    assert forall s :: s in sites ==> s.mimeTypesIWant == [];
  }

  lemma FirstIsMember<T>(s: seq<T>)
    ensures s != [] ==> s[0] in s
  {
  }

  // ------------------------------------------------------ the imperative scan

  /** One page of `scrape()` as a loop, recursing into directories not in the log. */
  method ScrapePage(w: World, site: Site, hrefs: seq<string>, log: seq<string>, links0: seq<Item>) returns (links: seq<Item>)
    ensures links == CrawlPage(w, site, hrefs, log, links0)
    decreases Discovery.Unvisited(w.listing, log), |hrefs|, 1
  {
    ghost var goal := CrawlPage(w, site, hrefs, log, links0);
    links := links0;
    var i := 0;
    while i < |hrefs|
      invariant 0 <= i <= |hrefs|
      invariant CrawlPage(w, site, hrefs[i..], log, links) == goal
    {
      assert hrefs[i..][1..] == hrefs[i + 1..];
      links := ScrapeHref(w, site, hrefs[i..], log, links);
      i := i + 1;
    }
  }

  /**
   * The loop body for the first of `hrefs`: normalise it, skip it, or
   * descend into a directory not in the log and then offer it as a file.
   */
  method ScrapeHref(w: World, site: Site, hrefs: seq<string>, log: seq<string>, links0: seq<Item>) returns (links: seq<Item>)
    requires hrefs != []
    ensures CrawlPage(w, site, hrefs[1..], log, links) == CrawlPage(w, site, hrefs, log, links0)
    decreases Discovery.Unvisited(w.listing, log), |hrefs|, 0
  {
    var parts := ParseUrl(Resolve(site.scrapeUrl, hrefs[0]));
    var pieces := RemoveDotDots(Explode(parts.path, '/'));
    var href := Rebuild(parts, pieces);
    var p := Parsed(href, pieces);
    assert p == Normalize(site.scrapeUrl, hrefs[0]);
    links := links0;
    if !(|href| < |site.scrapeUrl| || Contains(href, "?")) {
      if Right(href, 1) == "/" && href !in log {
        Discovery.UnvisitedShrinks(w.listing, log, log, href);
        links := ScrapePage(w, SubSite(site, p), Discovery.Fetch(w.listing, href), log + [href], links);
      }
      links := links + FileItem(w, site, p);
    }
  }

  /** `scrape($vars, $log, $links)`: the outer loop, the log growing by each URL. */
  method ScrapeSites(w: World, sites: seq<Site>) returns (links: seq<Item>)
    ensures links == Scrape(w, sites)
    ensures forall i :: 0 <= i < |links| ==> exists k :: 0 <= k < |sites| && ItemOk(w, sites[k].mimeTypesIWant, links[i])
  {
    var log: seq<string> := [];
    links := [];
    var j := 0;
    while j < |sites|
      invariant 0 <= j <= |sites|
      invariant CrawlSites(w, sites[j..], log, links) == Scrape(w, sites)
    {
      assert sites[j..][1..] == sites[j + 1..];
      log := log + [sites[j].scrapeUrl];
      links := ScrapePage(w, sites[j], Discovery.Fetch(w.listing, sites[j].scrapeUrl), log, links);
      j := j + 1;
    }
    ScrapeEmits(w, sites, [], []);
  }
}
