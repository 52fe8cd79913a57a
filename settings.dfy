/**
 * The normalisations the fluent setters of both scraper classes apply to
 * their arguments: integer clamps, trailing-slash rules and the list
 * accumulation of the exclusion setters.
 */
module Settings {
  import opened PhpText
  import opened Filter

  /** `max(1, min(50, $count))`: the concurrency bound kept inside [1, 50]. */
  function ConcurrencyLimit(n: int): (r: int)
    ensures 1 <= r <= 50
    ensures 1 <= n <= 50 ==> r == n
    ensures n < 1 ==> r == 1
    ensures n > 50 ==> r == 50
  {
    if n > 50 then 50 else if n < 1 then 1 else n
  }

  /** `max($lo, $n)`: a value never below its floor, and any value at or above the floor kept as given. */
  function AtLeast(lo: int, n: int): (r: int)
    ensures r >= lo
    ensures n >= lo ==> r == n
    ensures n < lo ==> r == lo
  {
    if n < lo then lo else n
  }

  /** The path ends in a slash. */
  predicate EndsInSlash(p: string)
  {
    p != [] && p[|p| - 1] == '/'
  }

  /**
   * scraper.class.php: `if ($this->right($p, 1) !== '/') $p .= '/'`:
   * a slash is appended only when the last character is not one.
   */
  function EnsureTrailingSlash(p: string): (r: string)
    ensures EndsInSlash(r)
    ensures EndsInSlash(p) ==> r == p
    ensures !EndsInSlash(p) ==> r == p + "/"
  {
    RightOne(p);
    if Right(p, 1) != "/" then p + "/" else p
  }

  /** Applying the scraper.class.php rule twice is applying it once. */
  lemma EnsureTrailingSlashIdempotent(p: string)
    ensures EnsureTrailingSlash(EnsureTrailingSlash(p)) == EnsureTrailingSlash(p)
  {
  }

  /** The scraper.class.php rule keeps every slash already at the end: "a//" stays "a//". */
  lemma EnsureTrailingSlashKeepsRuns()
    ensures EnsureTrailingSlash("a//") == "a//"
  {
  }

  /** The path ends in exactly one slash. */
  predicate EndsInOneSlash(p: string)
  {
    EndsInSlash(p) && (|p| == 1 || p[|p| - 2] != '/')
  }

  /** scraper_improved.class.php: `rtrim($p, '/') . '/'`. */
  function SingleTrailingSlash(p: string): (r: string)
    ensures EndsInOneSlash(r)
    ensures r[..|r| - 1] == RTrim(p, '/')
  {
    RTrim(p, '/') + "/"
  }

  /** The improved rule ignores how many slashes the input ended in. */
  lemma {:induction false} SingleTrailingSlashIgnoresRuns(p: string)
    ensures SingleTrailingSlash(p + "/") == SingleTrailingSlash(p)
  {
    assert (p + "/")[..|p|] == p;
  }

  /** Applying the improved rule twice is applying it once. */
  lemma SingleTrailingSlashIdempotent(p: string)
    ensures SingleTrailingSlash(SingleTrailingSlash(p)) == SingleTrailingSlash(p)
  {
    SingleTrailingSlashIgnoresRuns(RTrim(p, '/'));
    RTrimNoop(RTrim(p, '/'));
  }

  lemma RTrimNoop(s: string)
    requires s == [] || s[|s| - 1] != '/'
    ensures RTrim(s, '/') == s
  {
  }

  /**
   * `excludeInPath`/`excludeInFilename`: an array argument is merged onto
   * the list; a single string is appended only when it is not empty.
   */
  function Accumulate(list: seq<string>, param: Param): (r: seq<string>)
    ensures param.Many? ==> r == list + param.values
    ensures param.One? && |param.value| > 0 ==> r == list + [param.value]
    ensures param.One? && |param.value| == 0 ==> r == list
    ensures |r| >= |list| && r[..|list|] == list
  {
    match param
    case Many(xs) => assert (list + xs)[..|list|] == list; list + xs
    case One(s) => if |s| > 0 then assert (list + [s])[..|list|] == list; list + [s] else list
  }
}
