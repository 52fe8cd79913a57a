/**
 * The filter engine shared by both scraper classes: `shouldIncludeFile`
 * (scraper.class.php:819-854, textually the same at
 * scraper_improved.class.php:706-741) and `prepareSearchTerms`.
 */
module Filter {
  import opened PhpText

  /** The exclusion and search lists a scraper has accumulated. */
  datatype Criteria = Criteria(excludePath: seq<string>, excludeFilename: seq<string>, search: seq<string>)

  /** A setter argument that PHP accepts either as one string or as an array of strings. */
  datatype Param = One(value: string) | Many(values: seq<string>)

  /** PHP's `empty()` on a string: true for "" and also for "0". */
  predicate PhpEmpty(s: string)
  {
    s == [] || s == "0"
  }

  /** The `foreach ($needles as $value) if (mb_strpos($haystack, $value) !== false)` scan. */
  function AnyOccurs(haystack: string, needles: seq<string>): (r: bool)
    ensures r <==> ContainsAny(haystack, needles)
    decreases |needles|
  {
    if needles == [] then false
    else if Contains(haystack, needles[0]) then true
    else
      var r := AnyOccurs(haystack, needles[1..]);
      assert r <==> ContainsAny(haystack, needles[1..]);
      assert ContainsAny(haystack, needles[1..]) ==> ContainsAny(haystack, needles) by {
        if ContainsAny(haystack, needles[1..]) {
          var k :| 0 <= k < |needles[1..]| && Contains(haystack, needles[1..][k]);
          assert Contains(haystack, needles[k + 1]);
        }
      }
      assert ContainsAny(haystack, needles) ==> ContainsAny(haystack, needles[1..]) by {
        if ContainsAny(haystack, needles) {
          var k :| 0 <= k < |needles| && Contains(haystack, needles[k]);
          assert k != 0;
          assert Contains(haystack, needles[1..][k - 1]);
        }
      }
      r
  }

  /**
   * `shouldIncludeFile($href, $fileName)`: reject an empty name, then an href
   * containing an excluded path, then a name containing an excluded filename;
   * with search terms, accept only a lower-cased name containing one of them.
   */
  predicate ShouldIncludeFile(c: Criteria, href: string, fileName: string)
  {
    if PhpEmpty(fileName) then false
    else if AnyOccurs(href, c.excludePath) then false
    else if AnyOccurs(fileName, c.excludeFilename) then false
    else if |c.search| > 0 && !AnyOccurs(ToLower(fileName), c.search) then false
    else true
  }

  /**
   * What the filter accepts: a non-empty name, an href containing no excluded
   * path, a name containing no excluded filename and, when there are search
   * terms, a lower-cased name containing at least one of them.
   */
  lemma ShouldIncludeFileMeans(c: Criteria, href: string, fileName: string)
    ensures ShouldIncludeFile(c, href, fileName) <==>
      (&& !PhpEmpty(fileName)
       && (forall k :: 0 <= k < |c.excludePath| ==> !Contains(href, c.excludePath[k]))
       && (forall k :: 0 <= k < |c.excludeFilename| ==> !Contains(fileName, c.excludeFilename[k]))
       && (|c.search| > 0 ==> exists k :: 0 <= k < |c.search| && Contains(ToLower(fileName), c.search[k])))
  {
  }

  /** With no exclusions and no search terms, every non-empty name is accepted. */
  lemma NoCriteriaAcceptsNonEmpty(href: string, fileName: string)
    requires !PhpEmpty(fileName)
    ensures ShouldIncludeFile(Criteria([], [], []), href, fileName)
  {
  }

  /** The search test is case-insensitive: when no filename exclusion applies, the case of the name does not matter. */
  lemma SearchIsCaseInsensitive(c: Criteria, href: string, fileName: string)
    requires c.excludeFilename == []
    ensures ShouldIncludeFile(c, href, fileName) == ShouldIncludeFile(c, href, ToLower(fileName))
  {
    ToLowerIdempotent(fileName);
    assert PhpEmpty(fileName) <==> PhpEmpty(ToLower(fileName)) by {
      assert |ToLower(fileName)| == |fileName|;
      if |fileName| == 1 {
        assert ToLower(fileName)[0] == LowerChar(fileName[0]);
      }
    }
  }

  /** `prepareSearchTerms($param)`: each term lower-cased; a single string becomes a one-term list. */
  function PrepareSearchTerms(param: Param): (r: seq<string>)
    ensures param.One? ==> r == [ToLower(param.value)]
    ensures param.Many? ==> |r| == |param.values| && forall k :: 0 <= k < |r| ==> r[k] == ToLower(param.values[k])
    ensures forall k :: 0 <= k < |r| ==> ToLower(r[k]) == r[k]
  {
    match param
    case One(s) => ToLowerIdempotent(s); [ToLower(s)]
    case Many(xs) =>
      var r := seq(|xs|, i requires 0 <= i < |xs| => ToLower(xs[i]));
      assert forall k :: 0 <= k < |r| ==> ToLower(r[k]) == r[k] by {
        forall k | 0 <= k < |r| ensures ToLower(r[k]) == r[k] { ToLowerIdempotent(xs[k]); }
      }
      r
  }
}
