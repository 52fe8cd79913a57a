/**
 * howmanythings.php: `process_list` counts a list of paths by extension
 * against the fixed list of `get_types`. The extension test is
 * `if (array_search($mime, $types))`, which is false for index 0, so the
 * first type ("php") is never counted.
 */
module HowManyThings {
  import opened PhpText
  import opened Optional

  /** `get_types()`. */
  const Types: seq<string> := ["php", "inc", "module", "js", "jpg", "png", "gif", "sql"]

  /** The returned array, whose only keys are 'Total Files' and 'File Info'. */
  datatype Summary = Summary(total: nat, fileInfo: map<string, nat>)

  /** `array_search($x, $xs)`: the first index holding `x`, or None (`false`). */
  function ArraySearch(x: string, xs: seq<string>): (r: Option<nat>)
    ensures r.Some? ==> r.value < |xs| && xs[r.value] == x && forall j :: 0 <= j < r.value ==> xs[j] != x
    ensures r.None? <==> x !in xs
  {
    if xs == [] then None
    else if xs[0] == x then Some(0)
    else match ArraySearch(x, xs[1..])
      case None => None
      case Some(i) => Some(i + 1)
  }

  /** The condition of the `if`: a found index that is not 0. */
  predicate Counted(mime: string, types: seq<string>)
  {
    var i := ArraySearch(mime, types);
    i.Some? && i.value != 0
  }

  /** `end(explode('.', $item))`: the text after the last '.', or the whole item. */
  function Mime(item: string): string
  {
    LastPiece(item, '.')
  }

  /** What `$storage[$mime]` holds: the count, or 0 for an unset key. */
  function Get(info: map<string, nat>, k: string): nat
  {
    if k in info then info[k] else 0
  }

  /** One pass of the `foreach`: `if (empty(...)) $storage[$mime] = 0; $storage[$mime]++; $total++;`. */
  function Add(s: Summary, item: string, types: seq<string>): Summary
  {
    var mime := Mime(item);
    if Counted(mime, types) then
      var before := if mime in s.fileInfo && s.fileInfo[mime] != 0 then s.fileInfo[mime] else 0;
      Summary(s.total + 1, s.fileInfo[mime := before + 1])
    else s
  }

  /** `process_list($list)` on the items in order, against a type list (`get_types()` is `Types`). */
  function Tally(list: seq<string>, types: seq<string>): Summary
  {
    if list == [] then Summary(0, map[]) else Add(Tally(list[..|list| - 1], types), list[|list| - 1], types)
  }

  /** How many items of the list have the given extension. */
  function CountMime(list: seq<string>, t: string): (n: nat)
    ensures n <= |list|
  {
    if list == [] then 0
    else CountMime(list[..|list| - 1], t) + (if Mime(list[|list| - 1]) == t then 1 else 0)
  }

  /** An extension is counted exactly when it is a listed type other than the first. */
  lemma CountedIff(mime: string, types: seq<string>)
    ensures Counted(mime, types) <==> mime in types && mime != types[0]
  {
  }

  /** "php" is never counted: `array_search` finds it at index 0, which `if` reads as false. */
  lemma PhpNeverCounted(list: seq<string>)
    ensures "php" !in Tally(list, Types).fileInfo
  {
    TallyKeys(list, Types);
  }

  /** Every key is a counted type and every count is at least 1. */
  lemma {:induction false} TallyKeys(list: seq<string>, types: seq<string>)
    ensures forall k :: k in Tally(list, types).fileInfo ==> k in types && k != types[0] && Tally(list, types).fileInfo[k] >= 1
    decreases |list|
  {
    if list != [] {
      TallyKeys(list[..|list| - 1], types);
      CountedIff(Mime(list[|list| - 1]), types);
    }
  }

  /** The count of each counted type is the number of items with that extension; other types have no key. */
  lemma {:induction false} TallyCounts(list: seq<string>, types: seq<string>, t: string)
    ensures Counted(t, types) ==> Get(Tally(list, types).fileInfo, t) == CountMime(list, t)
    ensures !Counted(t, types) ==> t !in Tally(list, types).fileInfo
    ensures t in Tally(list, types).fileInfo <==> Counted(t, types) && CountMime(list, t) > 0
    decreases |list|
  {
    if list != [] {
      TallyCounts(list[..|list| - 1], types, t);
    }
  }

  /** The per-type counts of the listed types, added up. */
  function SumCounts(types: seq<string>, info: map<string, nat>): nat
  {
    if types == [] then 0 else Get(info, types[0]) + SumCounts(types[1..], info)
  }

  /** No type is listed twice. */
  predicate Distinct(xs: seq<string>)
  {
    forall i, j :: 0 <= i < j < |xs| ==> xs[i] != xs[j]
  }

  /** Raising one listed type's count by one raises the sum by one. */
  lemma {:induction false} SumCountsBump(types: seq<string>, info: map<string, nat>, m: string)
    requires Distinct(types)
    ensures SumCounts(types, info[m := Get(info, m) + 1]) == SumCounts(types, info) + (if m in types then 1 else 0)
    decreases |types|
  {
    if types != [] {
      assert Distinct(types[1..]) by {
        forall i, j | 0 <= i < j < |types[1..]| ensures types[1..][i] != types[1..][j] {
          assert types[1..][i] == types[i + 1] && types[1..][j] == types[j + 1];
        }
      }
      SumCountsBump(types[1..], info, m);
      if types[0] == m {
        assert m !in types[1..] by {
          forall i | 0 <= i < |types[1..]| ensures types[1..][i] != m {
            assert types[1..][i] == types[i + 1];
          }
        }
      } else {
        assert m in types ==> m in types[1..] by {
          if m in types {
            var i :| 0 <= i < |types| && types[i] == m;
            assert types[1..][i - 1] == m;
          }
        }
      }
    }
  }

  lemma TypesDistinct()
    ensures Distinct(Types)
  {
  }

  /** 'Total Files' is the sum of the counts in 'File Info', and never more than the number of items. */
  lemma TotalIsSum(list: seq<string>)
    ensures Tally(list, Types).total == SumCounts(Types, Tally(list, Types).fileInfo)
    ensures Tally(list, Types).total <= |list|
  {
    TypesDistinct();
    TotalIsSumFor(list, Types);
  }

  lemma {:induction false} TotalIsSumFor(list: seq<string>, types: seq<string>)
    requires Distinct(types)
    ensures Tally(list, types).total == SumCounts(types, Tally(list, types).fileInfo)
    ensures Tally(list, types).total <= |list|
    decreases |list|
  {
    if list != [] {
      var prefix := list[..|list| - 1];
      var s := Tally(prefix, types);
      TotalIsSumFor(prefix, types);
      var mime := Mime(list[|list| - 1]);
      assert Tally(list, types) == Add(s, list[|list| - 1], types);
      if Counted(mime, types) {
        CountedIff(mime, types);
        assert mime in types;
        SumCountsBump(types, s.fileInfo, mime);
        assert Tally(list, types).fileInfo == s.fileInfo[mime := Get(s.fileInfo, mime) + 1];
        assert Tally(list, types).total == s.total + 1;
      }
    } else {
      SumCountsEmpty(types);
    }
  }

  lemma {:induction false} SumCountsEmpty(types: seq<string>)
    ensures SumCounts(types, map[]) == 0
    decreases |types|
  {
    if types != [] {
      SumCountsEmpty(types[1..]);
    }
  }

  /** `process_list($list)`: the loop below against `get_types()`. */
  method ProcessList(list: seq<string>) returns (r: Summary)
    ensures r == Tally(list, Types)
  {
    r := CountByType(list, Types);
  }

  /** The `foreach` of process_list, updating `$storage` and `$total` in place. */
  method CountByType(list: seq<string>, types: seq<string>) returns (r: Summary)
    ensures r == Tally(list, types)
  {
    var storage: map<string, nat> := map[];
    var total: nat := 0;
    var i := 0;
    while i < |list|
      invariant i <= |list|
      invariant Summary(total, storage) == Tally(list[..i], types)
    {
      assert list[..i + 1][..i] == list[..i];
      assert Tally(list[..i + 1], types) == Add(Tally(list[..i], types), list[i], types);
      var item := list[i];
      var mime := Mime(item);
      if Counted(mime, types) {
        ghost var before := if mime in storage && storage[mime] != 0 then storage[mime] else 0;
        ghost var prior := storage;
        if mime !in storage || storage[mime] == 0 {
          storage := storage[mime := 0];
        }
        storage := storage[mime := storage[mime] + 1];
        assert storage == prior[mime := before + 1];
        total := total + 1;
      }
      i := i + 1;
    }
    assert list[..|list|] == list;
    r := Summary(total, storage);
  }
}
