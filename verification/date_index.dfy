/**
 * The date axis: the distinct timestamps of all kept records, sorted
 * ascending, and the inverse map from timestamp to position.
 */
module DateIndex {
  import opened Ingest

  predicate StrictlyIncreasing(s: seq<int>)
  {
    forall i, j :: 0 <= i < j < |s| ==> s[i] < s[j]
  }

  predicate Distinct(s: seq<int>)
  {
    forall i, j :: 0 <= i < j < |s| ==> s[i] != s[j]
  }

  /** The timestamps the records carry. */
  function Stamps(records: seq<Record>): set<int>
  {
    set i | 0 <= i < |records| :: records[i].dateTs
  }

  /** Insert a new value into a strictly increasing sequence, keeping it strictly increasing. */
  function InsertAscending(x: int, s: seq<int>): (r: seq<int>)
    requires StrictlyIncreasing(s) && x !in s
    ensures StrictlyIncreasing(r)
    ensures multiset(r) == multiset(s) + multiset{x}
  {
    if s == [] || x < s[0] then [x] + s
    else
      assert s == [s[0]] + s[1..];
      var t := InsertAscending(x, s[1..]);
      AboveHead(x, s, t);
      [s[0]] + t
  }

  lemma AboveHead(x: int, s: seq<int>, t: seq<int>)
    requires StrictlyIncreasing(s) && s != [] && x !in s && s[0] <= x
    requires multiset(t) == multiset(s[1..]) + multiset{x}
    ensures forall k :: 0 <= k < |t| ==> s[0] < t[k]
  {
    forall k | 0 <= k < |t|
      ensures s[0] < t[k]
    {
      assert t[k] in multiset(t);
      if t[k] != x {
        assert t[k] in multiset(s[1..]);
        var m :| 0 <= m < |s[1..]| && s[1..][m] == t[k];
        assert s[m + 1] == t[k];
      }
    }
  }

  /**
   * `Array.prototype.sort` with the comparator `a - b` on distinct timestamps:
   * ascending, a permutation of its input.
   */
  function SortAscending(s: seq<int>): (r: seq<int>)
    requires Distinct(s)
    ensures StrictlyIncreasing(r)
    ensures multiset(r) == multiset(s)
  {
    if s == [] then []
    else
      assert s == [s[0]] + s[1..];
      var t := SortAscending(s[1..]);
      assert s[0] !in multiset(s[1..]);
      InsertAscending(s[0], t)
  }

  /**
   * Two strictly increasing sequences with the same elements are equal: any
   * sort of the distinct timestamps yields the same date axis.
   */
  lemma {:induction false} SortedUnique(a: seq<int>, b: seq<int>)
    requires StrictlyIncreasing(a) && StrictlyIncreasing(b)
    requires forall x :: x in a <==> x in b
    ensures a == b
  {
    // A first element of either is an element of the other, so both are empty or neither is.
    if a != [] {
      assert a[0] in a;
      assert a[0] in b;
    }
    if b != [] {
      assert b[0] in b;
      assert b[0] in a;
    }
    if a != [] && b != [] {
      var j :| 0 <= j < |b| && b[j] == a[0];
      var k :| 0 <= k < |a| && a[k] == b[0];
      assert b[0] <= b[j] && a[0] <= a[k];
      forall x
        ensures x in a[1..] <==> x in b[1..]
      {
        if x in a[1..] {
          assert x in a && x != a[0];
        }
        if x in b[1..] {
          assert x in b && x != b[0];
        }
      }
      SortedUnique(a[1..], b[1..]);
      assert a == [a[0]] + a[1..] && b == [b[0]] + b[1..];
    }
  }

  /** The `new Set(records.map(r => r.dateTs))` step: each timestamp once. */
  method DistinctStamps(records: seq<Record>) returns (seen: seq<int>)
    ensures Distinct(seen)
    ensures forall t :: t in seen <==> t in Stamps(records)
  {
    seen := [];
    var i := 0;
    while i < |records|
      invariant 0 <= i <= |records|
      invariant Distinct(seen)
      invariant forall t :: t in seen <==> exists k :: 0 <= k < i && records[k].dateTs == t
    {
      if records[i].dateTs !in seen {
        seen := seen + [records[i].dateTs];
      }
      i := i + 1;
    }
  }

  /** The `dates.forEach((d, i) => dateIndexMap.set(d, i))` loop: the inverse of the date axis. */
  method IndexPositions(dates: seq<int>) returns (dateIndexMap: map<int, nat>)
    requires StrictlyIncreasing(dates)
    ensures forall i :: 0 <= i < |dates| ==> dates[i] in dateIndexMap && dateIndexMap[dates[i]] == i
    ensures forall t :: t in dateIndexMap ==> dateIndexMap[t] < |dates| && dates[dateIndexMap[t]] == t
  {
    dateIndexMap := map[];
    var i := 0;
    while i < |dates|
      invariant 0 <= i <= |dates|
      invariant forall k :: 0 <= k < i ==> dates[k] in dateIndexMap && dateIndexMap[dates[k]] == k
      invariant forall t :: t in dateIndexMap ==> dateIndexMap[t] < i && dates[dateIndexMap[t]] == t
    {
      dateIndexMap := dateIndexMap[dates[i] := i];
      i := i + 1;
    }
  }

  /**
   * Build `dates` and `dateIndexMap`: the dates are the distinct record
   * timestamps in strictly increasing order, the map sends each date to its
   * position and nothing else, and every record's timestamp has a position.
   */
  method BuildDateIndex(records: seq<Record>) returns (dates: seq<int>, dateIndexMap: map<int, nat>)
    ensures StrictlyIncreasing(dates)
    ensures forall t :: t in dates <==> t in Stamps(records)
    ensures forall i :: 0 <= i < |dates| ==> dates[i] in dateIndexMap && dateIndexMap[dates[i]] == i
    ensures forall t :: t in dateIndexMap ==> dateIndexMap[t] < |dates| && dates[dateIndexMap[t]] == t
    ensures forall k :: 0 <= k < |records| ==> records[k].dateTs in dateIndexMap
  {
    var seen := DistinctStamps(records);
    dates := SortAscending(seen);
    forall t
      ensures t in dates <==> t in Stamps(records)
    {
      assert t in dates <==> t in multiset(dates);
      assert t in seen <==> t in multiset(seen);
    }
    dateIndexMap := IndexPositions(dates);
    forall k | 0 <= k < |records|
      ensures records[k].dateTs in dateIndexMap
    {
      assert records[k].dateTs in Stamps(records);
      var i :| 0 <= i < |dates| && dates[i] == records[k].dateTs;
    }
  }
}
