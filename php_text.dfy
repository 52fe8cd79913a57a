/**
 * PHP string primitives the scraper relies on, stated over `string`
 * (a sequence of characters; PHP's multibyte functions count characters).
 * Semantics are those of PHP 8: `mb_substr` with a negative start counts
 * from the end, and `mb_strpos($h, '')` finds the empty needle at offset 0.
 */
module PhpText {

  /** `mb_substr($s, $start)`: the suffix from `start`; a negative start counts from the end. */
  function Substr(s: string, start: int): (r: string)
    ensures start >= 0 ==> r == (if start > |s| then [] else s[start..])
    ensures start < 0 ==> r == s[if |s| + start < 0 then 0 else |s| + start..]
  {
    if start < 0 then
      (if |s| + start < 0 then s else s[|s| + start..])
    else if start > |s| then []
    else s[start..]
  }

  /** `right($str, $count)`: `mb_substr($str, $count * -1)`. */
  function Right(s: string, count: int): (r: string)
    ensures count > 0 ==> |r| == (if count < |s| then count else |s|) && r == s[|s| - |r|..]
    ensures count <= 0 ==> |r| == (if -count < |s| then |s| + count else 0) && r == s[|s| - |r|..]
  {
    Substr(s, -count)
  }

  /** `left($str, $count)`: `mb_substr($str, 0, $count)`; a negative count leaves that many characters off the end. */
  function Left(s: string, count: int): (r: string)
    ensures count >= 0 ==> |r| == (if count < |s| then count else |s|)
    ensures count < 0 ==> |r| == (if |s| + count < 0 then 0 else |s| + count)
    ensures r == s[..|r|]
  {
    if count >= 0 then (if count < |s| then s[..count] else s)
    else (if |s| + count < 0 then [] else s[..|s| + count])
  }

  /** The last character of a non-empty string, as PHP code obtains it with `right($s, 1)`. */
  lemma RightOne(s: string)
    ensures Right(s, 1) == (if s == [] then [] else [s[|s| - 1]])
  {
  }

  /** `left` and `right` cut a string into two pieces that together give it back. */
  lemma LeftRightSplit(s: string, k: int)
    requires 0 <= k < |s|
    ensures Left(s, k) + Right(s, |s| - k) == s
  {
    assert Left(s, k) == s[..k];
    assert Right(s, |s| - k) == s[k..];
  }

  /** The needle occurs in the haystack starting at index i. */
  predicate OccursAt(haystack: string, needle: string, i: int)
  {
    0 <= i && i + |needle| <= |haystack| && haystack[i..i + |needle|] == needle
  }

  /** `mb_strpos($haystack, $needle) !== false` (PHP 8: an empty needle is found at 0). */
  predicate Contains(haystack: string, needle: string)
  {
    exists i | 0 <= i <= |haystack| - |needle| :: OccursAt(haystack, needle, i)
  }

  /** Whether any needle of the list occurs in the haystack (the `foreach ... mb_strpos` loops). */
  predicate ContainsAny(haystack: string, needles: seq<string>)
  {
    exists k :: 0 <= k < |needles| && Contains(haystack, needles[k])
  }

  /** `strpos($s, $prefix) === 0`: the string starts with the prefix. */
  predicate StartsWith(s: string, prefix: string)
  {
    |prefix| <= |s| && s[..|prefix|] == prefix
  }

  lemma StartsWithContains(s: string, prefix: string)
    requires StartsWith(s, prefix)
    ensures Contains(s, prefix)
  {
    assert OccursAt(s, prefix, 0);
  }

  /** A superstring contains whatever its part contains. */
  lemma ContainsInConcat(a: string, b: string, needle: string)
    requires Contains(b, needle)
    ensures Contains(a + b, needle)
  {
    var i :| 0 <= i <= |b| - |needle| && OccursAt(b, needle, i);
    assert (a + b)[|a| + i..|a| + i + |needle|] == b[i..i + |needle|];
    assert OccursAt(a + b, needle, |a| + i);
  }

  /** The ASCII lower-casing of `strtolower`. */
  function LowerChar(c: char): (r: char)
    ensures 'A' <= c <= 'Z' ==> 'a' <= r <= 'z' && r as int - c as int == 32
    ensures !('A' <= c <= 'Z') ==> r == c
  {
    if 'A' <= c <= 'Z' then (c as int + 32) as char else c
  }

  /** `strtolower($s)`: ASCII upper-case letters become lower case, nothing else changes. */
  function ToLower(s: string): (r: string)
    ensures |r| == |s|
    ensures forall i :: 0 <= i < |s| ==> r[i] == LowerChar(s[i])
  {
    seq(|s|, i requires 0 <= i < |s| => LowerChar(s[i]))
  }

  lemma ToLowerIdempotent(s: string)
    ensures ToLower(ToLower(s)) == ToLower(s)
  {
  }

  /** `rtrim($s, $c)`: all trailing copies of one character removed. */
  function RTrim(s: string, c: char): (r: string)
    ensures |r| <= |s| && r == s[..|r|]
    ensures r == [] || r[|r| - 1] != c
    decreases |s|
  {
    if s != [] && s[|s| - 1] == c then RTrim(s[..|s| - 1], c) else s
  }

  /** Everything `rtrim` removed is a copy of the character. */
  lemma {:induction false} RTrimRemoved(s: string, c: char)
    ensures forall i :: |RTrim(s, c)| <= i < |s| ==> s[i] == c
    decreases |s|
  {
    if s != [] && s[|s| - 1] == c {
      RTrimRemoved(s[..|s| - 1], c);
    }
  }

  /** `ltrim($s, $c)`: all leading copies of one character removed. */
  function LTrim(s: string, c: char): (r: string)
    ensures |r| <= |s|
    ensures r == [] || r[0] != c
    decreases |s|
  {
    if s != [] && s[0] == c then LTrim(s[1..], c) else s
  }

  /** What `LTrim` returns is a suffix of its input. */
  lemma {:induction false} LTrimSuffix(s: string, c: char)
    ensures LTrim(s, c) == s[|s| - |LTrim(s, c)|..]
    decreases |s|
  {
    if s != [] && s[0] == c {
      LTrimSuffix(s[1..], c);
    }
  }

  /** Everything `ltrim` removed is a copy of the character. */
  lemma {:induction false} LTrimRemoved(s: string, c: char)
    ensures forall i :: 0 <= i < |s| - |LTrim(s, c)| ==> s[i] == c
    decreases |s|
  {
    if s != [] && s[0] == c {
      LTrimRemoved(s[1..], c);
    }
  }

  /** The characters PHP's `trim` strips by default: " \t\n\r\0\x0B". */
  predicate IsTrimmed(c: char)
  {
    c == ' ' || c == '\t' || c == '\n' || c == '\r' || c == '\0' || c == 11 as char
  }

  /** Leading default-trim characters removed. */
  function TrimStart(s: string): (r: string)
    ensures |r| <= |s|
    ensures r == [] || !IsTrimmed(r[0])
    decreases |s|
  {
    if s != [] && IsTrimmed(s[0]) then TrimStart(s[1..]) else s
  }

  /** What `TrimStart` returns is a suffix of its input. */
  lemma {:induction false} TrimStartSuffix(s: string)
    ensures TrimStart(s) == s[|s| - |TrimStart(s)|..]
    decreases |s|
  {
    if s != [] && IsTrimmed(s[0]) {
      TrimStartSuffix(s[1..]);
    }
  }

  /** Everything removed from the front is a trim character. */
  lemma {:induction false} TrimStartRemoved(s: string)
    ensures forall i :: 0 <= i < |s| - |TrimStart(s)| ==> IsTrimmed(s[i])
    decreases |s|
  {
    if s != [] && IsTrimmed(s[0]) {
      TrimStartRemoved(s[1..]);
    }
  }

  /** Trailing default-trim characters removed. */
  function TrimEnd(s: string): (r: string)
    ensures |r| <= |s| && r == s[..|r|]
    ensures r == [] || !IsTrimmed(r[|r| - 1])
    decreases |s|
  {
    if s != [] && IsTrimmed(s[|s| - 1]) then TrimEnd(s[..|s| - 1]) else s
  }

  /** Everything removed from the end is a trim character. */
  lemma {:induction false} TrimEndRemoved(s: string)
    ensures forall i :: |TrimEnd(s)| <= i < |s| ==> IsTrimmed(s[i])
    decreases |s|
  {
    if s != [] && IsTrimmed(s[|s| - 1]) {
      TrimEndRemoved(s[..|s| - 1]);
    }
  }

  /** `trim($s)`: default-trim characters removed from both ends. */
  function Trim(s: string): (r: string)
  {
    TrimEnd(TrimStart(s))
  }

  /** `trim` returns a contiguous piece of its input that neither starts nor ends with a trim character. */
  lemma TrimIsSlice(s: string)
    ensures exists i, j :: 0 <= i <= j <= |s| && Trim(s) == s[i..j]
    ensures Trim(s) == [] || (!IsTrimmed(Trim(s)[0]) && !IsTrimmed(Trim(s)[|Trim(s)| - 1]))
  {
    var t := TrimStart(s);
    var u := TrimEnd(t);
    TrimStartSuffix(s);
    assert t == s[|s| - |t|..];
    assert u == t[..|u|];
    assert u == s[|s| - |t|..|s| - |t| + |u|];
  }

  /** A string with no trim character at either end is its own `trim`. */
  lemma TrimNoop(s: string)
    requires s == [] || (!IsTrimmed(s[0]) && !IsTrimmed(s[|s| - 1]))
    ensures Trim(s) == s
  {
  }

  /** `explode($d, $s)` for a one-character delimiter: the pieces between delimiters. */
  function Explode(s: string, d: char): (r: seq<string>)
    ensures |r| >= 1
    decreases |s|
  {
    if s == [] then [[]]
    else
      var rest := Explode(s[1..], d);
      assert s == [s[0]] + s[1..];
      if s[0] == d then [[]] + rest else [[s[0]] + rest[0]] + rest[1..]
  }

  /** No piece of `explode` holds the delimiter. */
  lemma {:induction false} ExplodePiecesFree(s: string, d: char)
    ensures forall k, i :: 0 <= k < |Explode(s, d)| && 0 <= i < |Explode(s, d)[k]| ==> Explode(s, d)[k][i] != d
    decreases |s|
  {
    if s != [] {
      var ps := Explode(s, d);
      var rest := Explode(s[1..], d);
      ExplodePiecesFree(s[1..], d);
      forall k, i | 0 <= k < |ps| && 0 <= i < |ps[k]| ensures ps[k][i] != d {
        if s[0] == d {
          assert ps == [[]] + rest;
          assert ps[k][i] == rest[k - 1][i];
        } else {
          assert ps == [[s[0]] + rest[0]] + rest[1..];
          if k == 0 {
            assert ps[0] == [s[0]] + rest[0];
            if i > 0 { assert ps[0][i] == rest[0][i - 1]; }
          } else {
            assert ps[k][i] == rest[k][i];
          }
        }
      }
    }
  }

  /** Without the delimiter the string is the one piece; with it there are at least two. */
  lemma {:induction false} ExplodeCount(s: string, d: char)
    ensures d !in s ==> Explode(s, d) == [s]
    ensures d in s ==> |Explode(s, d)| >= 2
    decreases |s|
  {
    if s != [] {
      ExplodeCount(s[1..], d);
      assert s == [s[0]] + s[1..];
      if d in s && s[0] != d {
        var i :| 0 <= i < |s| && s[i] == d;
        assert s[1..][i - 1] == d;
      }
    }
  }

  /** `implode($d, $pieces)`: the pieces joined by the delimiter. */
  function Implode(pieces: seq<string>, d: char): (r: string)
    ensures pieces == [] ==> r == []
    ensures |pieces| == 1 ==> r == pieces[0]
  {
    if pieces == [] then []
    else if |pieces| == 1 then pieces[0]
    else pieces[0] + [d] + Implode(pieces[1..], d)
  }

  /** Joining what `explode` split gives back the original string. */
  lemma {:induction false} ImplodeExplode(s: string, d: char)
    ensures Implode(Explode(s, d), d) == s
    decreases |s|
  {
    if s != [] {
      var rest := Explode(s[1..], d);
      ImplodeExplode(s[1..], d);
      if s[0] == d {
        assert Explode(s, d) == [[]] + rest;
        ImplodeHead([], rest, d);
      } else {
        ImplodeCons(s[0], rest, d);
      }
    }
  }

  lemma ImplodeHead(first: string, rest: seq<string>, d: char)
    requires rest != []
    ensures Implode([first] + rest, d) == first + [d] + Implode(rest, d)
  {
    assert ([first] + rest)[1..] == rest;
  }

  lemma ImplodeCons(c: char, rest: seq<string>, d: char)
    requires rest != []
    ensures Implode([[c] + rest[0]] + rest[1..], d) == [c] + Implode(rest, d)
  {
    var p := [[c] + rest[0]] + rest[1..];
    if |rest| == 1 {
      assert p == [[c] + rest[0]];
    } else {
      assert p[1..] == rest[1..];
      assert Implode(p, d) == [c] + rest[0] + [d] + Implode(rest[1..], d);
      assert Implode(rest, d) == rest[0] + [d] + Implode(rest[1..], d);
    }
  }

  /** The index of the last occurrence of `d` in `s`, or -1 when there is none (`strrpos`, with -1 for `false`). */
  function LastIndexOf(s: string, d: char): (r: int)
    ensures -1 <= r < |s|
    ensures r >= 0 ==> s[r] == d
    decreases |s|
  {
    if s == [] then -1
    else if s[|s| - 1] == d then |s| - 1
    else LastIndexOf(s[..|s| - 1], d)
  }

  /** No delimiter follows the last occurrence. */
  lemma {:induction false} LastIndexOfAfter(s: string, d: char)
    ensures forall j :: LastIndexOf(s, d) < j < |s| ==> s[j] != d
    decreases |s|
  {
    if s != [] && s[|s| - 1] != d {
      LastIndexOfAfter(s[..|s| - 1], d);
    }
  }

  /** `end(explode($d, $s))`: the text after the last delimiter, or the whole string. */
  function LastPiece(s: string, d: char): (r: string)
    ensures |r| <= |s| && r == s[|s| - |r|..]
    ensures d !in r
    ensures |r| < |s| ==> s[|s| - |r| - 1] == d
  {
    LastIndexOfAfter(s, d);
    var k := LastIndexOf(s, d);
    if k < 0 then s else s[k + 1..]
  }

  /** Without the delimiter the last piece is the whole string; with it, a proper suffix. */
  lemma LastPieceWhole(s: string, d: char)
    ensures d !in s ==> LastPiece(s, d) == s
    ensures d in s ==> |LastPiece(s, d)| < |s|
  {
    var r := LastPiece(s, d);
    if |r| == |s| {
      assert r == s;
    } else {
      assert s[|s| - |r| - 1] == d;
    }
  }

  /** A delimiter-free suffix that is the whole string or has a delimiter just before it is the last piece. */
  lemma LastPieceUnique(s: string, d: char, t: string)
    requires |t| <= |s| && t == s[|s| - |t|..] && (|t| < |s| ==> s[|s| - |t| - 1] == d)
    requires forall i :: 0 <= i < |t| ==> t[i] != d
    ensures LastPiece(s, d) == t
  {
  }

  /** The last piece of `explode` is what `LastPiece` gives. */
  lemma ExplodeLast(s: string, d: char)
    ensures Explode(s, d)[|Explode(s, d)| - 1] == LastPiece(s, d)
  {
    var ps := Explode(s, d);
    var e := ps[|ps| - 1];
    ExplodeLastSuffix(s, d);
    ExplodePieceFree(s, d, |ps| - 1);
    LastPieceUnique(s, d, e);
  }

  /** One piece of `explode`, free of the delimiter. */
  lemma ExplodePieceFree(s: string, d: char, k: nat)
    requires k < |Explode(s, d)|
    ensures forall i :: 0 <= i < |Explode(s, d)[k]| ==> Explode(s, d)[k][i] != d
  {
    ExplodePiecesFree(s, d);
  }

  /** `e` ends `s` and is all of it or has the delimiter just before it. */
  predicate EndsAfter(s: string, d: char, e: string)
  {
    |e| <= |s| && e == s[|s| - |e|..] && (|e| < |s| ==> s[|s| - |e| - 1] == d)
  }

  /** The last piece of `explode` is a suffix of the input, with a delimiter just before it when shorter. */
  lemma ExplodeLastSuffix(s: string, d: char)
    ensures var ps := Explode(s, d); EndsAfter(s, d, ps[|ps| - 1])
  {
    ImplodeExplode(s, d);
    ImplodeEnds(Explode(s, d), d);
  }

  /** `implode` ends with its last piece, preceded by the delimiter when there are several. */
  lemma {:induction false} ImplodeEnds(ps: seq<string>, d: char)
    requires ps != []
    ensures EndsAfter(Implode(ps, d), d, ps[|ps| - 1])
    decreases |ps|
  {
    if |ps| == 1 {
      assert ps[0][0..] == ps[0];
    } else {
      var a := ps[0] + [d];
      ImplodeEnds(ps[1..], d);
      assert ps[1..][|ps| - 2] == ps[|ps| - 1];
      EndsAfterConcat(a, Implode(ps[1..], d), d, ps[|ps| - 1]);
      assert Implode(ps, d) == a + Implode(ps[1..], d);
    }
  }

  /** What ends `b` ends `a + b`, and when it is all of `b` the delimiter closing `a` precedes it. */
  lemma EndsAfterConcat(a: string, b: string, d: char, e: string)
    requires EndsAfter(b, d, e) && a != [] && a[|a| - 1] == d
    ensures EndsAfter(a + b, d, e)
  {
    var c := a + b;
    assert c[|c| - |e|..] == b[|b| - |e|..];
    if |e| < |b| {
      assert c[|c| - |e| - 1] == b[|b| - |e| - 1];
    } else {
      assert c[|c| - |e| - 1] == a[|a| - 1];
    }
  }

  /** The extension `pathinfo($seg, PATHINFO_EXTENSION)` reports: the text after the last '.', or "" with no '.'. */
  function PathExtension(segment: string): (r: string)
    ensures '.' !in segment ==> r == []
    ensures '.' in segment ==> '.' !in r && |r| < |segment| && segment[|segment| - |r| - 1] == '.' && r == segment[|segment| - |r|..]
  {
    if '.' in segment then
      LastPiece(segment, '.')
    else []
  }

  /** The hexadecimal digits in value order, as `urldecode` accepts them in either case. */
  const LowerHexDigits := "0123456789abcdef"
  const UpperHexDigits := "0123456789ABCDEF"

  /** The value of a hexadecimal digit, if the character is one. */
  function HexValue(c: char): (r: int)
    ensures r == -1 <==> c !in LowerHexDigits && c !in UpperHexDigits
    ensures r != -1 ==> 0 <= r < 16 && (LowerHexDigits[r] == c || UpperHexDigits[r] == c)
  {
    if '0' <= c <= '9' then c as int - '0' as int
    else if 'a' <= c <= 'f' then c as int - 'a' as int + 10
    else if 'A' <= c <= 'F' then c as int - 'A' as int + 10
    else -1
  }

  /** `urldecode($s)`: '+' becomes a space and "%XY" with two hex digits becomes that character code; everything else is copied. */
  function UrlDecode(s: string): (r: string)
    ensures |r| <= |s|
    ensures ('%' !in s && '+' !in s) ==> r == s
    decreases |s|
  {
    if s == [] then []
    else if s[0] == '+' then [' '] + UrlDecode(s[1..])
    else if s[0] == '%' && |s| >= 3 && HexValue(s[1]) >= 0 && HexValue(s[2]) >= 0 then
      [(HexValue(s[1]) * 16 + HexValue(s[2])) as char] + UrlDecode(s[3..])
    else [s[0]] + UrlDecode(s[1..])
  }
}
