/**
 * The path sanitizer `sanitize($string)`, identical in scraper.class.php,
 * scraper_improved.class.php and scrape.php:
 *   preg_replace('/[^\w\-()\&\#\%\[\]\'\.]+/u', ' ', $s), then
 *   trim(preg_replace('/  +/u', ' ', ...)).
 * The word class `\w` is modelled as ASCII letters, digits and '_'.
 */
module Sanitizer {
  import opened PhpText

  /** The allow-set: word characters, hyphen, parentheses, ampersand, hash, percent, brackets, apostrophe, period. */
  predicate Allowed(c: char)
  {
    ('a' <= c <= 'z') || ('A' <= c <= 'Z') || ('0' <= c <= '9') || c == '_'
    || c == '-' || c == '(' || c == ')' || c == '&' || c == '#' || c == '%'
    || c == '[' || c == ']' || c == '\'' || c == '.'
  }

  /** Every character is in the allow-set or is a space. */
  predicate OnlyAllowedOrSpace(t: string)
  {
    forall i :: 0 <= i < |t| ==> Allowed(t[i]) || t[i] == ' '
  }

  /** No two consecutive spaces. */
  predicate NoDoubleSpace(t: string)
  {
    forall i, j :: 0 <= i < |t| && 0 <= j < |t| && j == i + 1 ==> !(t[i] == ' ' && t[j] == ' ')
  }

  /** The shape of every sanitized string. */
  predicate Clean(t: string)
  {
    OnlyAllowedOrSpace(t) && NoDoubleSpace(t) && (t == [] || (t[0] != ' ' && t[|t| - 1] != ' '))
  }

  /** The leading run of characters outside the allow-set removed. */
  function DropDisallowed(s: string): (r: string)
    ensures |r| <= |s|
    ensures r == [] || Allowed(r[0])
    decreases |s|
  {
    if s != [] && !Allowed(s[0]) then DropDisallowed(s[1..]) else s
  }

  /** What `DropDisallowed` returns is a suffix of its input. */
  lemma {:induction false} DropDisallowedSuffix(s: string)
    ensures DropDisallowed(s) == s[|s| - |DropDisallowed(s)|..]
    decreases |s|
  {
    if s != [] && !Allowed(s[0]) {
      DropDisallowedSuffix(s[1..]);
    }
  }

  /** First pass: each maximal run of characters outside the allow-set becomes one space. */
  function ReplaceRuns(s: string): (r: string)
    ensures OnlyAllowedOrSpace(r)
    ensures NoDoubleSpace(r)
    ensures r != [] <==> s != []
    ensures s != [] ==> (r[0] == ' ' <==> !Allowed(s[0]))
    decreases |s|
  {
    if s == [] then []
    else if Allowed(s[0]) then [s[0]] + ReplaceRuns(s[1..])
    else [' '] + ReplaceRuns(DropDisallowed(s[1..]))
  }

  /** The leading run of spaces removed. */
  function DropSpaces(s: string): (r: string)
    ensures |r| <= |s|
    ensures r == [] || r[0] != ' '
    decreases |s|
  {
    if s != [] && s[0] == ' ' then DropSpaces(s[1..]) else s
  }

  /** What `DropSpaces` returns is a suffix of its input. */
  lemma {:induction false} DropSpacesSuffix(s: string)
    ensures DropSpaces(s) == s[|s| - |DropSpaces(s)|..]
    decreases |s|
  {
    if s != [] && s[0] == ' ' {
      DropSpacesSuffix(s[1..]);
    }
  }

  /** Second pass, `/  +/` to ' ': each run of two or more spaces becomes one space. */
  function Collapse(s: string): (r: string)
    ensures NoDoubleSpace(r)
    ensures OnlyAllowedOrSpace(s) ==> OnlyAllowedOrSpace(r)
    ensures r != [] <==> s != []
    ensures s != [] ==> (r[0] == ' ' <==> s[0] == ' ')
    decreases |s|
  {
    if s == [] then []
    else if s[0] == ' ' then
      DropSpacesKeepsAllowed(s[1..]);
      [' '] + Collapse(DropSpaces(s[1..]))
    else [s[0]] + Collapse(s[1..])
  }

  /** Dropping leading spaces keeps a string of allowed characters and spaces one. */
  lemma {:induction false} DropSpacesKeepsAllowed(s: string)
    ensures OnlyAllowedOrSpace(s) ==> OnlyAllowedOrSpace(DropSpaces(s))
    decreases |s|
  {
    if s != [] && s[0] == ' ' {
      DropSpacesKeepsAllowed(s[1..]);
      assert OnlyAllowedOrSpace(s) ==> OnlyAllowedOrSpace(s[1..]) by {
        if OnlyAllowedOrSpace(s) {
          forall i | 0 <= i < |s[1..]| ensures Allowed(s[1..][i]) || s[1..][i] == ' ' {
            assert s[1..][i] == s[i + 1];
          }
        }
      }
    }
  }

  /** `sanitize($string)`. */
  function Sanitize(s: string): (r: string)
    ensures Clean(r)
  {
    var t := Collapse(ReplaceRuns(s));
    TrimClean(t);
    Trim(t)
  }

  /** Trimming a string of allowed characters and single spaces leaves a clean string. */
  lemma TrimClean(t: string)
    requires OnlyAllowedOrSpace(t) && NoDoubleSpace(t)
    ensures Clean(Trim(t))
  {
    TrimIsSlice(t);
    var i, j :| 0 <= i <= j <= |t| && Trim(t) == t[i..j];
    SliceKeepsShape(t, i, j);
  }

  /** A piece of a string of allowed characters and single spaces is one too. */
  lemma SliceKeepsShape(t: string, i: nat, j: nat)
    requires i <= j <= |t|
    requires OnlyAllowedOrSpace(t) && NoDoubleSpace(t)
    ensures OnlyAllowedOrSpace(t[i..j]) && NoDoubleSpace(t[i..j])
  {
    var u := t[i..j];
    forall k | 0 <= k < |u| ensures Allowed(u[k]) || u[k] == ' ' {
      assert u[k] == t[i + k];
    }
    forall k, m | 0 <= k < |u| && 0 <= m < |u| && m == k + 1 ensures !(u[k] == ' ' && u[m] == ' ') {
      assert u[k] == t[i + k] && u[m] == t[i + m];
    }
  }

  /** Sanitizing ignores nothing but runs: a clean string passes through the first pass unchanged. */
  lemma {:induction false} ReplaceRunsKeepsClean(t: string)
    requires OnlyAllowedOrSpace(t) && NoDoubleSpace(t)
    ensures ReplaceRuns(t) == t
    decreases |t|
  {
    if t != [] {
      var u := t[1..];
      assert OnlyAllowedOrSpace(u) && NoDoubleSpace(u) by {
        assert forall k :: 0 <= k < |u| ==> u[k] == t[k + 1];
      }
      ReplaceRunsKeepsClean(u);
      if !Allowed(t[0]) {
        assert u == [] || Allowed(u[0]);
        assert DropDisallowed(u) == u;
      }
    }
  }

  /** A string without double spaces passes through the second pass unchanged. */
  lemma {:induction false} CollapseKeepsSingleSpaces(t: string)
    requires NoDoubleSpace(t)
    ensures Collapse(t) == t
    decreases |t|
  {
    if t != [] {
      var u := t[1..];
      assert NoDoubleSpace(u) by {
        assert forall k :: 0 <= k < |u| ==> u[k] == t[k + 1];
      }
      CollapseKeepsSingleSpaces(u);
      if t[0] == ' ' {
        assert DropSpaces(u) == u;
      }
    }
  }

  /** A clean string is its own sanitization. */
  lemma SanitizeCleanIsIdentity(t: string)
    requires Clean(t)
    ensures Sanitize(t) == t
  {
    ReplaceRunsKeepsClean(t);
    CollapseKeepsSingleSpaces(t);
    if t != [] {
      assert !IsTrimmed(t[0]) && !IsTrimmed(t[|t| - 1]);
    }
    TrimNoop(t);
  }

  /** Sanitizing twice equals sanitizing once. */
  lemma SanitizeIdempotent(s: string)
    ensures Sanitize(Sanitize(s)) == Sanitize(s)
  {
    SanitizeCleanIsIdentity(Sanitize(s));
  }
}
