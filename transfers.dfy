/**
 * What both download schedulers share: the outcome a finished transfer
 * reports, the result records they return, the statistics record, and the
 * random selection applied before downloading.
 */
module Transfers {
  import opened Discovery

  /** What cURL reports for a finished transfer: the result code was CURLE_OK, the HTTP status, the bytes received. */
  datatype Outcome = Outcome(curlOk: bool, httpCode: int, size: nat)

  /** `$info['result'] === CURLE_OK && $httpCode === 200`: any other status, 206 and 3xx included, is a failure. */
  predicate Succeeded(o: Outcome)
  {
    o.curlOk && o.httpCode == 200
  }

  /**
   * One entry of the results array: a test-mode placeholder, or a finished
   * transfer with its outcome and the number of retries it took.
   */
  datatype Result =
    | Tested(link: Link)
    | Completed(link: Link, outcome: Outcome, retries: nat)
  {
    /** The `success` field of the record. */
    predicate Success()
    {
      Tested? || Succeeded(outcome)
    }
  }

  /** The `$stats` array (the timing entries are not modelled). */
  datatype Stats = Stats(total: nat, success: nat, failed: nat, skipped: nat, bytesDownloaded: nat)

  /** The statistics a fresh scraper starts from. */
  const InitialStats := Stats(0, 0, 0, 0, 0)

  /** How many results report success. */
  function SuccessCount(rs: seq<Result>): (n: nat)
    ensures n <= |rs|
  {
    if rs == [] then 0 else SuccessCount(rs[..|rs| - 1]) + (if rs[|rs| - 1].Success() then 1 else 0)
  }

  /** How many results report failure. */
  function FailedCount(rs: seq<Result>): (n: nat)
    ensures n <= |rs|
  {
    if rs == [] then 0 else FailedCount(rs[..|rs| - 1]) + (if rs[|rs| - 1].Success() then 0 else 1)
  }

  /** The bytes of every successful transfer, added up (`bytes_downloaded`). */
  function Bytes(rs: seq<Result>): nat
  {
    if rs == [] then 0
    else
      var r := rs[|rs| - 1];
      Bytes(rs[..|rs| - 1]) + (if r.Completed? && Succeeded(r.outcome) then r.outcome.size else 0)
  }

  /** Every result either succeeded or failed. */
  lemma {:induction false} CountsPartition(rs: seq<Result>)
    ensures SuccessCount(rs) + FailedCount(rs) == |rs|
    decreases |rs|
  {
    if rs != [] {
      CountsPartition(rs[..|rs| - 1]);
    }
  }

  /** Appending one result adds its share to each count. */
  lemma CountsSnoc(rs: seq<Result>, r: Result)
    ensures SuccessCount(rs + [r]) == SuccessCount(rs) + (if r.Success() then 1 else 0)
    ensures FailedCount(rs + [r]) == FailedCount(rs) + (if r.Success() then 0 else 1)
    ensures Bytes(rs + [r]) == Bytes(rs) + (if r.Completed? && Succeeded(r.outcome) then r.outcome.size else 0)
  {
    assert (rs + [r])[..|rs|] == rs;
  }

  /** The counts of a concatenation are the sums of the counts of its parts. */
  lemma {:induction false} CountsConcat(a: seq<Result>, b: seq<Result>)
    ensures SuccessCount(a + b) == SuccessCount(a) + SuccessCount(b)
    ensures FailedCount(a + b) == FailedCount(a) + FailedCount(b)
    ensures Bytes(a + b) == Bytes(a) + Bytes(b)
    decreases |b|
  {
    if b == [] {
      assert a + b == a;
    } else {
      var b' := b[..|b| - 1];
      assert (a + b)[..|a + b| - 1] == a + b';
      assert (a + b)[|a + b| - 1] == b[|b| - 1];
      CountsConcat(a, b');
    }
  }

  /**
   * The random limit: with a positive limit below the number of links, the
   * shuffled list cut to the limit; otherwise the links as they are. The
   * shuffle is a parameter: any reordering of its input.
   */
  function RandomSelection(links: seq<Link>, limit: int, shuffled: seq<Link>): (r: seq<Link>)
    requires multiset(shuffled) == multiset(links)
    ensures limit > 0 && |links| > limit ==> |r| == limit
    ensures !(limit > 0 && |links| > limit) ==> r == links
    ensures multiset(r) <= multiset(links)
  {
    if limit > 0 && |links| > limit then
      assert |shuffled| == |links| by {
        assert |multiset(shuffled)| == |multiset(links)|;
      }
      assert shuffled == shuffled[..limit] + shuffled[limit..];
      shuffled[..limit]
    else links
  }

  /** `array_chunk($links, $size)`: consecutive pieces of `size` links, the last one possibly shorter. */
  function Chunks(links: seq<Link>, size: nat): (r: seq<seq<Link>>)
    requires size > 0
    decreases |links|
  {
    if |links| <= size then (if links == [] then [] else [links])
    else [links[..size]] + Chunks(links[size..], size)
  }

  /** The concatenation of a list of lists. */
  function Flatten<T>(xss: seq<seq<T>>): seq<T>
  {
    if xss == [] then [] else xss[0] + Flatten(xss[1..])
  }

  /**
   * The chunks put back together are the input, no chunk is empty, each
   * holds `size` links except possibly the last, which is never longer.
   */
  lemma {:induction false} ChunksPartition(links: seq<Link>, size: nat)
    requires size > 0
    ensures Flatten(Chunks(links, size)) == links
    ensures forall k :: 0 <= k < |Chunks(links, size)| ==> 0 < |Chunks(links, size)[k]| <= size
    ensures forall k :: 0 <= k < |Chunks(links, size)| - 1 ==> |Chunks(links, size)[k]| == size
    decreases |links|
  {
    if |links| > size {
      var rest := Chunks(links[size..], size);
      ChunksPartition(links[size..], size);
      var r := Chunks(links, size);
      assert r == [links[..size]] + rest;
      assert r[1..] == rest;
      assert links == links[..size] + links[size..];
      assert forall k :: 1 <= k < |r| ==> r[k] == rest[k - 1];
    } else if links != [] {
      var r := Chunks(links, size);
      assert r == [links];
      assert Flatten(r) == links + Flatten(r[1..]);
    }
  }
}
