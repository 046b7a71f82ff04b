/**
 * The query layer behind `updateForDate`: the dense per-location value
 * array, the per-country totals of positive values, and the top-N ranking.
 */
module Query {
  import opened Ingest
  import opened Aggregate

  // ---------------------------------------------------------------------------
  // Dense projection

  /**
   * The `values` array: one slot per location, holding the map's value for the
   * location's key, 0 where the map has none.
   */
  method ProjectValues(m: map<LocKey, int>, locKeyToIndex: map<LocKey, nat>, locations: seq<Location>)
    returns (values: array<int>)
    requires IndexesLocations(locKeyToIndex, locations)
    ensures fresh(values) && values.Length == |locations|
    ensures forall i :: 0 <= i < |locations| ==>
      values[i] == if locations[i].key in m then m[locations[i].key] else 0
  {
    values := new int[|locations|](_ => 0);
    var remaining := m.Keys;
    while remaining != {}
      invariant remaining <= m.Keys
      invariant forall i :: 0 <= i < |locations| ==>
        values[i] == if locations[i].key in m && locations[i].key !in remaining then m[locations[i].key] else 0
      decreases remaining
    {
      var key :| key in remaining;
      if key in locKeyToIndex {
        var i := locKeyToIndex[key];
        values[i] := m[key];
      }
      remaining := remaining - {key};
    }
  }

  // ---------------------------------------------------------------------------
  // Country totals

  /** One entry of the per-country statistics: a country label and its total. */
  datatype CountryTotal = CountryTotal(country: string, total: int)

  /** `country || "Unknown"`: an empty country name is counted under "Unknown". */
  function Label(country: string): (r: string)
    ensures r != ""
    ensures country != "" ==> r == country
    ensures country == "" ==> r == "Unknown"
  {
    if country == "" then "Unknown" else country
  }

  /** Location `i` has a positive value and is labelled `c`. */
  predicate Counts(vals: seq<int>, locations: seq<Location>, c: string, i: nat)
    requires i < |vals| && i < |locations|
  {
    Label(locations[i].country) == c && vals[i] > 0
  }

  /** The sum of the strictly positive values among the first `n` locations labelled `c`. */
  function PositiveSum(vals: seq<int>, locations: seq<Location>, c: string, n: nat): int
    requires n <= |vals| && n <= |locations|
  {
    if n == 0 then 0
    else PositiveSum(vals, locations, c, n - 1) + (if Counts(vals, locations, c, n - 1) then vals[n - 1] else 0)
  }

  /** The index of the first of the first `n` locations labelled `c` with a positive value, `n` if none. */
  function FirstPositive(vals: seq<int>, locations: seq<Location>, c: string, n: nat): (r: nat)
    requires n <= |vals| && n <= |locations|
    ensures r <= n
  {
    if n == 0 then 0
    else
      var before := FirstPositive(vals, locations, c, n - 1);
      if before < n - 1 then before
      else if Counts(vals, locations, c, n - 1) then n - 1
      else n
  }

  /**
   * The labels that have a positive value among the first `n` locations, in
   * the order they first received one.
   */
  function PositiveLabels(vals: seq<int>, locations: seq<Location>, n: nat): seq<string>
    requires n <= |vals| && n <= |locations|
  {
    if n == 0 then []
    else
      var labels := PositiveLabels(vals, locations, n - 1);
      var c := Label(locations[n - 1].country);
      if vals[n - 1] > 0 && c !in labels then labels + [c] else labels
  }

  /**
   * The country statistics after the first `n` locations, stated without the
   * loop: each positive label, in first-seen order, with its positive sum.
   */
  function CountryStats(vals: seq<int>, locations: seq<Location>, n: nat): seq<CountryTotal>
    requires n <= |vals| && n <= |locations|
  {
    var labels := PositiveLabels(vals, locations, n);
    seq(|labels|, j requires 0 <= j < |labels| => CountryTotal(labels[j], PositiveSum(vals, locations, labels[j], n)))
  }

  predicate HasCountry(stats: seq<CountryTotal>, c: string)
  {
    exists j :: 0 <= j < |stats| && stats[j].country == c
  }

  /** The position of `c` in the statistics, -1 when absent (`Map.get`). */
  function FindCountry(stats: seq<CountryTotal>, c: string): (j: int)
    ensures -1 <= j < |stats|
    ensures j == -1 <==> !HasCountry(stats, c)
    ensures j >= 0 ==> stats[j].country == c
  {
    if stats == [] then -1
    else if stats[|stats| - 1].country == c then |stats| - 1
    else FindCountry(stats[..|stats| - 1], c)
  }

  /** No country appears twice. */
  ghost predicate DistinctCountries(stats: seq<CountryTotal>)
  {
    forall j1, j2 :: 0 <= j1 < j2 < |stats| ==> stats[j1].country != stats[j2].country
  }

  /** Each entry holds its country's positive sum over the first `n` locations, and that sum is positive. */
  ghost predicate TotalsAfter(stats: seq<CountryTotal>, vals: seq<int>, locations: seq<Location>, n: nat)
    requires n <= |vals| && n <= |locations|
  {
    forall j :: 0 <= j < |stats| ==>
      stats[j].total == PositiveSum(vals, locations, stats[j].country, n) && stats[j].total > 0
  }

  /** Every label with a positive value among the first `n` locations has an entry. */
  ghost predicate CoversPositive(stats: seq<CountryTotal>, vals: seq<int>, locations: seq<Location>, n: nat)
    requires n <= |vals| && n <= |locations|
  {
    forall i :: 0 <= i < n && vals[i] > 0 ==> HasCountry(stats, Label(locations[i].country))
  }

  /** Entries stand in the order their countries first received a positive value. */
  ghost predicate FirstSeenOrder(stats: seq<CountryTotal>, vals: seq<int>, locations: seq<Location>, n: nat)
    requires n <= |vals| && n <= |locations|
  {
    && (forall j :: 0 <= j < |stats| ==> FirstPositive(vals, locations, stats[j].country, n) < n)
    && (forall j1, j2 :: 0 <= j1 < j2 < |stats| ==>
          FirstPositive(vals, locations, stats[j1].country, n) < FirstPositive(vals, locations, stats[j2].country, n))
  }

  // What the positive labels are

  /** A label is listed exactly when some location gave it a positive value. */
  lemma {:induction false} PositiveLabelsMember(vals: seq<int>, locations: seq<Location>, c: string, n: nat)
    requires n <= |vals| && n <= |locations|
    ensures c in PositiveLabels(vals, locations, n) <==> FirstPositive(vals, locations, c, n) < n
  {
    if n > 0 {
      PositiveLabelsMember(vals, locations, c, n - 1);
    }
  }

  /** No label is listed twice. */
  lemma {:induction false} PositiveLabelsDistinct(vals: seq<int>, locations: seq<Location>, n: nat)
    requires n <= |vals| && n <= |locations|
    ensures forall j1, j2 :: 0 <= j1 < j2 < |PositiveLabels(vals, locations, n)| ==>
      PositiveLabels(vals, locations, n)[j1] != PositiveLabels(vals, locations, n)[j2]
  {
    if n > 0 {
      PositiveLabelsDistinct(vals, locations, n - 1);
    }
  }

  /** The positive sum of a label is never negative, and is positive exactly when the label has a positive value. */
  lemma {:induction false} PositiveSumSign(vals: seq<int>, locations: seq<Location>, c: string, n: nat)
    requires n <= |vals| && n <= |locations|
    ensures PositiveSum(vals, locations, c, n) >= 0
    ensures PositiveSum(vals, locations, c, n) > 0 <==> FirstPositive(vals, locations, c, n) < n
  {
    if n > 0 {
      PositiveSumSign(vals, locations, c, n - 1);
    }
  }

  /** Labels are listed in the order of their first positive value. */
  lemma {:induction false} PositiveLabelsOrder(vals: seq<int>, locations: seq<Location>, n: nat)
    requires n <= |vals| && n <= |locations|
    ensures forall j :: 0 <= j < |PositiveLabels(vals, locations, n)| ==>
      FirstPositive(vals, locations, PositiveLabels(vals, locations, n)[j], n) < n
    ensures forall j1, j2 :: 0 <= j1 < j2 < |PositiveLabels(vals, locations, n)| ==>
      FirstPositive(vals, locations, PositiveLabels(vals, locations, n)[j1], n)
        < FirstPositive(vals, locations, PositiveLabels(vals, locations, n)[j2], n)
  {
    if n > 0 {
      var labels := PositiveLabels(vals, locations, n - 1);
      var c := Label(locations[n - 1].country);
      PositiveLabelsOrder(vals, locations, n - 1);
      forall j | 0 <= j < |labels|
        ensures FirstPositive(vals, locations, labels[j], n) == FirstPositive(vals, locations, labels[j], n - 1) < n - 1
      {
      }
      if vals[n - 1] > 0 && c !in labels {
        PositiveLabelsMember(vals, locations, c, n - 1);
        assert FirstPositive(vals, locations, c, n) == n - 1;
        assert PositiveLabels(vals, locations, n) == labels + [c];
      }
    }
  }

  // The loop against its definition

  /** A location without a positive value changes nothing. */
  lemma CountryStatsSkip(vals: seq<int>, locations: seq<Location>, n: nat)
    requires n < |vals| && n < |locations| && vals[n] <= 0
    ensures CountryStats(vals, locations, n + 1) == CountryStats(vals, locations, n)
  {
    var a := CountryStats(vals, locations, n + 1);
    var b := CountryStats(vals, locations, n);
    assert PositiveLabels(vals, locations, n + 1) == PositiveLabels(vals, locations, n);
    assert |a| == |b|;
    forall j | 0 <= j < |a|
      ensures a[j] == b[j]
    {
    }
  }

  /** The lookup finds exactly the listed labels, at their position in the list. */
  lemma FindCountryListed(vals: seq<int>, locations: seq<Location>, n: nat, c: string)
    requires n <= |vals| && n <= |locations|
    ensures FindCountry(CountryStats(vals, locations, n), c) >= 0 <==> c in PositiveLabels(vals, locations, n)
    ensures c in PositiveLabels(vals, locations, n) ==>
      PositiveLabels(vals, locations, n)[FindCountry(CountryStats(vals, locations, n), c)] == c
  {
    var labels := PositiveLabels(vals, locations, n);
    var stats := CountryStats(vals, locations, n);
    forall k | 0 <= k < |stats|
      ensures stats[k].country == labels[k]
    {
    }
    if c in labels {
      var k :| 0 <= k < |labels| && labels[k] == c;
      assert stats[k].country == c;
    }
  }

  /** A positive value for a label not yet listed appends an entry holding that value. */
  lemma CountryStatsNew(vals: seq<int>, locations: seq<Location>, n: nat)
    requires n < |vals| && n < |locations| && vals[n] > 0
    requires Label(locations[n].country) !in PositiveLabels(vals, locations, n)
    ensures CountryStats(vals, locations, n + 1)
      == CountryStats(vals, locations, n) + [CountryTotal(Label(locations[n].country), vals[n])]
  {
    var c := Label(locations[n].country);
    var labels := PositiveLabels(vals, locations, n);
    var a := CountryStats(vals, locations, n + 1);
    var b := CountryStats(vals, locations, n);
    PositiveLabelsMember(vals, locations, c, n);
    PositiveSumSign(vals, locations, c, n);
    assert PositiveSum(vals, locations, c, n) == 0;
    assert PositiveLabels(vals, locations, n + 1) == labels + [c];
    var e := b + [CountryTotal(c, vals[n])];
    assert |a| == |e|;
    forall j | 0 <= j < |a|
      ensures a[j] == e[j]
    {
      if j < |b| {
        assert a[j].country == labels[j] != c;
      }
    }
  }

  /** A positive value for the label listed at `j` adds to that entry and changes no other. */
  lemma CountryStatsAdd(vals: seq<int>, locations: seq<Location>, n: nat, j: nat)
    requires n < |vals| && n < |locations| && vals[n] > 0
    requires j < |PositiveLabels(vals, locations, n)| && PositiveLabels(vals, locations, n)[j] == Label(locations[n].country)
    ensures j < |CountryStats(vals, locations, n)|
    ensures CountryStats(vals, locations, n + 1)
      == CountryStats(vals, locations, n)[j := CountryTotal(Label(locations[n].country), CountryStats(vals, locations, n)[j].total + vals[n])]
  {
    var c := Label(locations[n].country);
    var labels := PositiveLabels(vals, locations, n);
    var a := CountryStats(vals, locations, n + 1);
    var b := CountryStats(vals, locations, n);
    PositiveLabelsDistinct(vals, locations, n);
    assert c in labels;
    assert PositiveLabels(vals, locations, n + 1) == labels;
    var e := b[j := CountryTotal(c, b[j].total + vals[n])];
    assert |a| == |e|;
    forall i | 0 <= i < |a|
      ensures a[i] == e[i]
    {
      if i != j {
        assert labels[i] != labels[j];
      }
    }
  }

  /**
   * `computeCountryStats`: one entry per country label that has a positive
   * value, holding the sum of its positive values, in the order the countries
   * first received a positive value (the insertion order of the `Map`).
   */
  method ComputeCountryStats(vals: seq<int>, locations: seq<Location>) returns (stats: seq<CountryTotal>)
    requires |vals| == |locations|
    ensures stats == CountryStats(vals, locations, |locations|)
  {
    stats := [];
    var i := 0;
    while i < |locations|
      invariant 0 <= i <= |locations|
      invariant stats == CountryStats(vals, locations, i)
    {
      var v := vals[i];
      if v > 0 {
        var c := Label(locations[i].country);
        var j := FindCountry(stats, c);
        FindCountryListed(vals, locations, i, c);
        if j < 0 {
          CountryStatsNew(vals, locations, i);
          stats := stats + [CountryTotal(c, v)];
        } else {
          CountryStatsAdd(vals, locations, i, j);
          stats := stats[j := CountryTotal(c, stats[j].total + v)];
        }
      } else {
        CountryStatsSkip(vals, locations, i);
      }
      i := i + 1;
    }
  }

  // What the statistics mean

  /** Each country appears once, with the positive sum of its locations, which is positive. */
  lemma CountryStatsTotals(vals: seq<int>, locations: seq<Location>, n: nat)
    requires n <= |vals| && n <= |locations|
    ensures DistinctCountries(CountryStats(vals, locations, n))
    ensures TotalsAfter(CountryStats(vals, locations, n), vals, locations, n)
  {
    var labels := PositiveLabels(vals, locations, n);
    var stats := CountryStats(vals, locations, n);
    PositiveLabelsDistinct(vals, locations, n);
    forall j | 0 <= j < |stats|
      ensures stats[j].total == PositiveSum(vals, locations, stats[j].country, n) && stats[j].total > 0
    {
      PositiveLabelsMember(vals, locations, labels[j], n);
      PositiveSumSign(vals, locations, labels[j], n);
    }
  }

  /** Every label with a positive value has an entry, and the entries follow first-seen order. */
  lemma CountryStatsCoverage(vals: seq<int>, locations: seq<Location>, n: nat)
    requires n <= |vals| && n <= |locations|
    ensures CoversPositive(CountryStats(vals, locations, n), vals, locations, n)
    ensures FirstSeenOrder(CountryStats(vals, locations, n), vals, locations, n)
  {
    var labels := PositiveLabels(vals, locations, n);
    var stats := CountryStats(vals, locations, n);
    forall i | 0 <= i < n && vals[i] > 0
      ensures HasCountry(stats, Label(locations[i].country))
    {
      var c := Label(locations[i].country);
      FirstPositiveAtMost(vals, locations, c, n, i);
      PositiveLabelsMember(vals, locations, c, n);
      var k :| 0 <= k < |labels| && labels[k] == c;
      assert stats[k].country == c;
    }
    PositiveLabelsOrder(vals, locations, n);
    forall j | 0 <= j < |stats|
      ensures stats[j].country == labels[j]
    {
    }
  }

  /** The first positive index of a label is no later than any of its positive locations. */
  lemma {:induction false} FirstPositiveAtMost(vals: seq<int>, locations: seq<Location>, c: string, n: nat, i: nat)
    requires i < n <= |vals| && n <= |locations| && Counts(vals, locations, c, i)
    ensures FirstPositive(vals, locations, c, n) <= i
  {
    if i < n - 1 {
      FirstPositiveAtMost(vals, locations, c, n - 1, i);
    }
  }

  /** No location before the first positive index of a label gives it a positive value. */
  lemma {:induction false} NotCountedBefore(vals: seq<int>, locations: seq<Location>, c: string, n: nat, i: nat)
    requires n <= |vals| && n <= |locations| && i < FirstPositive(vals, locations, c, n)
    ensures !Counts(vals, locations, c, i)
  {
    if i < n - 1 && FirstPositive(vals, locations, c, n - 1) > i {
      NotCountedBefore(vals, locations, c, n - 1, i);
    }
  }

  /** The statistics are empty exactly when no value is positive. */
  lemma CountryStatsEmpty(vals: seq<int>, locations: seq<Location>, n: nat)
    requires n <= |vals| && n <= |locations|
    ensures CountryStats(vals, locations, n) == [] <==> forall i :: 0 <= i < n ==> vals[i] <= 0
  {
    var labels := PositiveLabels(vals, locations, n);
    if labels == [] {
      forall i | 0 <= i < n
        ensures vals[i] <= 0
      {
        var c := Label(locations[i].country);
        PositiveLabelsMember(vals, locations, c, n);
        NotCountedBefore(vals, locations, c, n, i);
      }
    } else {
      PositiveLabelsMember(vals, locations, labels[0], n);
      var f := FirstPositive(vals, locations, labels[0], n);
      FirstPositiveCounts(vals, locations, labels[0], n);
      assert vals[f] > 0;
    }
  }

  /** The first positive index, when there is one, is a positive location with that label. */
  lemma {:induction false} FirstPositiveCounts(vals: seq<int>, locations: seq<Location>, c: string, n: nat)
    requires n <= |vals| && n <= |locations| && FirstPositive(vals, locations, c, n) < n
    ensures Counts(vals, locations, c, FirstPositive(vals, locations, c, n))
  {
    if FirstPositive(vals, locations, c, n - 1) < n - 1 {
      FirstPositiveCounts(vals, locations, c, n - 1);
    }
  }

  // ---------------------------------------------------------------------------
  // Ranking

  predicate NonIncreasing(s: seq<CountryTotal>)
  {
    forall i, j :: 0 <= i < j < |s| ==> s[i].total >= s[j].total
  }

  /** The entries with total `v`, in their order in `s`. */
  function WithTotal(s: seq<CountryTotal>, v: int): seq<CountryTotal>
  {
    if s == [] then [] else (if s[0].total == v then [s[0]] else []) + WithTotal(s[1..], v)
  }

  /** Insert `e` before the first entry whose total does not exceed its own. */
  function InsertByTotal(e: CountryTotal, s: seq<CountryTotal>): (r: seq<CountryTotal>)
    requires NonIncreasing(s)
    ensures NonIncreasing(r)
    ensures multiset(r) == multiset(s) + multiset{e}
    ensures |r| == |s| + 1 && (r[0] == e || (s != [] && r[0] == s[0]))
  {
    if s == [] || e.total >= s[0].total then
      [e] + s
    else
      var t := InsertByTotal(e, s[1..]);
      assert s == [s[0]] + s[1..];
      [s[0]] + t
  }

  /** Inserting `e` puts it in front of the entries with the same total: the insertion is stable. */
  lemma {:induction false} InsertByTotalStable(e: CountryTotal, s: seq<CountryTotal>, v: int)
    requires NonIncreasing(s)
    ensures WithTotal(InsertByTotal(e, s), v) == if e.total == v then [e] + WithTotal(s, v) else WithTotal(s, v)
  {
    var r := InsertByTotal(e, s);
    if s == [] || e.total >= s[0].total {
      assert r[1..] == s;
    } else {
      InsertByTotalStable(e, s[1..], v);
      assert r[1..] == InsertByTotal(e, s[1..]);
    }
  }

  /**
   * `arr.sort((a, b) => b[1] - a[1])`: the sort by total, largest first; the
   * result is a non-increasing permutation of its input.
   */
  function SortByTotal(s: seq<CountryTotal>): (r: seq<CountryTotal>)
    ensures NonIncreasing(r)
    ensures multiset(r) == multiset(s)
  {
    if s == [] then []
    else
      assert s == [s[0]] + s[1..];
      InsertByTotal(s[0], SortByTotal(s[1..]))
  }

  /** The sort is stable: the entries with any one total keep their relative order. */
  lemma {:induction false} SortByTotalStable(s: seq<CountryTotal>, v: int)
    ensures WithTotal(SortByTotal(s), v) == WithTotal(s, v)
  {
    if s != [] {
      SortByTotalStable(s[1..], v);
      InsertByTotalStable(s[0], SortByTotal(s[1..]), v);
    }
  }

  lemma {:induction false} WithTotalPrefix(s: seq<CountryTotal>, n: nat, v: int)
    requires n <= |s|
    ensures |WithTotal(s[..n], v)| <= |WithTotal(s, v)|
    ensures WithTotal(s[..n], v) == WithTotal(s, v)[..|WithTotal(s[..n], v)|]
  {
    if n > 0 {
      assert s[..n][1..] == s[1..][..n - 1];
      WithTotalPrefix(s[1..], n - 1, v);
    }
  }

  function Min(a: int, b: int): int
  {
    if a < b then a else b
  }

  /**
   * The top list (`arr.slice(0, Math.min(settings.topN, arr.length))` after
   * the sort): `min(topN, |stats|)` entries, non-increasing, drawn from the
   * statistics.
   */
  function TopCountries(stats: seq<CountryTotal>, topN: nat): (top: seq<CountryTotal>)
    ensures |top| == Min(topN, |stats|)
    ensures NonIncreasing(top)
    ensures multiset(top) <= multiset(stats)
  {
    var sorted := SortByTotal(stats);
    var n := Min(topN, |sorted|);
    assert sorted == sorted[..n] + sorted[n..];
    assert multiset(sorted) == multiset(sorted[..n]) + multiset(sorted[n..]);
    sorted[..n]
  }

  /** No entry left out of the top list has a larger total than an entry in it. */
  lemma TopCountriesDominates(stats: seq<CountryTotal>, topN: nat, x: CountryTotal, y: CountryTotal)
    requires x in TopCountries(stats, topN)
    requires y in stats && y !in TopCountries(stats, topN)
    ensures y.total <= x.total
  {
    var sorted := SortByTotal(stats);
    var top := TopCountries(stats, topN);
    var n := |top|;
    assert y in multiset(sorted);
    var i :| 0 <= i < n && top[i] == x;
    var j :| 0 <= j < |sorted| && sorted[j] == y;
    assert top == sorted[..n];
    forall k | 0 <= k < n
      ensures sorted[k] != y
    {
      assert sorted[k] == top[k];
    }
    assert sorted[i] == x;
  }

  /**
   * Ties keep insertion order: for every total, the top entries with that
   * total are the first ones with that total in the statistics.
   */
  lemma TopCountriesStable(stats: seq<CountryTotal>, topN: nat, v: int)
    ensures |WithTotal(TopCountries(stats, topN), v)| <= |WithTotal(stats, v)|
    ensures WithTotal(TopCountries(stats, topN), v)
         == WithTotal(stats, v)[..|WithTotal(TopCountries(stats, topN), v)|]
  {
    var sorted := SortByTotal(stats);
    WithTotalPrefix(sorted, Min(topN, |sorted|), v);
    SortByTotalStable(stats, v);
  }
}
