/**
 * `buildCumulativeAndDaily`: one left-to-right scan per location over the
 * date axis turns the sparse raw reports into a dense cumulative series (a
 * report replaces the running value, a missing report carries it forward)
 * and a daily series (the increase, clamped at 0).
 */
module Temporal {
  import opened Ingest

  /** The daily clamp `if (daily < 0) daily = 0`: the larger of 0 and `x`. */
  function Max0(x: int): (r: int)
    ensures r >= 0 && r >= x
    ensures r == 0 || r == x
  {
    if x < 0 then 0 else x
  }

  /** `prevCum` for location `k` after scanning the first `n` dates. */
  function Carry(raw: seq<map<LocKey, int>>, k: LocKey, n: nat): int
    requires n <= |raw|
  {
    if n == 0 then 0
    else if k in raw[n - 1] then raw[n - 1][k]
    else Carry(raw, k, n - 1)
  }

  /** The cumulative value of location `k` on date index `d`. */
  function Cumulative(raw: seq<map<LocKey, int>>, k: LocKey, d: nat): int
    requires d < |raw|
  {
    Carry(raw, k, d + 1)
  }

  /** The daily value of location `k` on date index `d`: the increase over the previous date, clamped at 0. */
  function Daily(raw: seq<map<LocKey, int>>, k: LocKey, d: nat): int
    requires d < |raw|
  {
    Max0(Carry(raw, k, d + 1) - Carry(raw, k, d))
  }

  /**
   * The matrices after scanning the locations `done`: each date has exactly
   * those keys, holding the carried value and its clamped increase.
   */
  ghost predicate Built(raw: seq<map<LocKey, int>>, cumulativeByDate: seq<map<LocKey, int>>,
                        dailyByDate: seq<map<LocKey, int>>, done: seq<LocKey>)
  {
    && |cumulativeByDate| == |raw| && |dailyByDate| == |raw|
    && (forall d, k :: 0 <= d < |raw| ==> (k in cumulativeByDate[d] <==> k in done) && (k in dailyByDate[d] <==> k in done))
    && (forall d, k :: 0 <= d < |raw| && k in done ==>
          && cumulativeByDate[d][k] == Cumulative(raw, k, d)
          && dailyByDate[d][k] == Daily(raw, k, d))
  }

  lemma BuiltStep(raw: seq<map<LocKey, int>>, cumulativeByDate: seq<map<LocKey, int>>,
                  dailyByDate: seq<map<LocKey, int>>, done: seq<LocKey>, key: LocKey,
                  cumulative': seq<map<LocKey, int>>, daily': seq<map<LocKey, int>>)
    requires Built(raw, cumulativeByDate, dailyByDate, done)
    requires |cumulative'| == |raw| && |daily'| == |raw|
    requires forall d :: 0 <= d < |raw| ==> cumulative'[d] == cumulativeByDate[d][key := Cumulative(raw, key, d)]
    requires forall d :: 0 <= d < |raw| ==>
      daily'[d] == dailyByDate[d][key := Daily(raw, key, d)]
    ensures Built(raw, cumulative', daily', done + [key])
  {
    forall d, k | 0 <= d < |raw|
      ensures (k in cumulative'[d] <==> k in done + [key]) && (k in daily'[d] <==> k in done + [key])
    {
      assert k in done + [key] <==> k in done || k == key;
    }
    forall d, k | 0 <= d < |raw| && k in done + [key]
      ensures cumulative'[d][k] == Cumulative(raw, k, d)
      ensures daily'[d][k] == Daily(raw, k, d)
    {
      if k != key {
        assert k in done;
      }
    }
  }

  /** The matrices read as the source's recurrence: replace on report, else carry; daily is the clamped increase. */
  lemma BuiltRecurrence(raw: seq<map<LocKey, int>>, cumulativeByDate: seq<map<LocKey, int>>,
                        dailyByDate: seq<map<LocKey, int>>, keys: seq<LocKey>, d: nat, k: LocKey)
    requires Built(raw, cumulativeByDate, dailyByDate, keys)
    requires d < |raw| && k in keys
    ensures cumulativeByDate[d][k] == if k in raw[d] then raw[d][k] else if d == 0 then 0 else cumulativeByDate[d - 1][k]
    ensures dailyByDate[d][k] == Max0(cumulativeByDate[d][k] - if d == 0 then 0 else cumulativeByDate[d - 1][k])
  {
    assert cumulativeByDate[d][k] == Cumulative(raw, k, d);
    if d > 0 {
      assert cumulativeByDate[d - 1][k] == Cumulative(raw, k, d - 1);
    }
  }

  /**
   * The inner loop for one location: every date's entry for `key` becomes the
   * carried value and its clamped increase; all other entries stay as they were.
   */
  method ScanLocation(key: LocKey, raw: seq<map<LocKey, int>>,
                      cumulativeByDate: seq<map<LocKey, int>>, dailyByDate: seq<map<LocKey, int>>)
    returns (cumulative': seq<map<LocKey, int>>, daily': seq<map<LocKey, int>>)
    requires |cumulativeByDate| == |raw| && |dailyByDate| == |raw|
    ensures |cumulative'| == |raw| && |daily'| == |raw|
    ensures forall d :: 0 <= d < |raw| ==> cumulative'[d] == cumulativeByDate[d][key := Cumulative(raw, key, d)]
    ensures forall d :: 0 <= d < |raw| ==>
      daily'[d] == dailyByDate[d][key := Daily(raw, key, d)]
  {
    cumulative', daily' := cumulativeByDate, dailyByDate;
    var prevCum := 0;
    var d := 0;
    while d < |raw|
      invariant 0 <= d <= |raw|
      invariant |cumulative'| == |raw| && |daily'| == |raw|
      invariant prevCum == Carry(raw, key, d)
      invariant forall e :: 0 <= e < d ==> cumulative'[e] == cumulativeByDate[e][key := Cumulative(raw, key, e)]
      invariant forall e :: 0 <= e < d ==>
        daily'[e] == dailyByDate[e][key := Daily(raw, key, e)]
      invariant forall e :: d <= e < |raw| ==> cumulative'[e] == cumulativeByDate[e] && daily'[e] == dailyByDate[e]
    {
      var rawMap := raw[d];
      var cum := if key in rawMap then rawMap[key] else prevCum;
      cumulative' := cumulative'[d := cumulative'[d][key := cum]];
      var daily := cum - prevCum;
      if daily < 0 {
        daily := 0;
      }
      daily' := daily'[d := daily'[d][key := daily]];
      prevCum := cum;
      d := d + 1;
    }
  }

  /**
   * Both matrices have an entry for every location on every date; a reported
   * value replaces the running value, an unreported date carries the previous
   * date's value forward (0 before the first date), and the daily value is the
   * increase over the previous date clamped at 0.
   */
  method BuildCumulativeAndDaily(keys: seq<LocKey>, raw: seq<map<LocKey, int>>)
    returns (cumulativeByDate: seq<map<LocKey, int>>, dailyByDate: seq<map<LocKey, int>>)
    ensures |cumulativeByDate| == |raw| && |dailyByDate| == |raw|
    ensures forall d, k :: 0 <= d < |raw| ==> (k in cumulativeByDate[d] <==> k in keys) && (k in dailyByDate[d] <==> k in keys)
    ensures forall d, k :: 0 <= d < |raw| && k in keys ==>
      cumulativeByDate[d][k] == if k in raw[d] then raw[d][k] else if d == 0 then 0 else cumulativeByDate[d - 1][k]
    ensures forall d, k :: 0 <= d < |raw| && k in keys ==>
      dailyByDate[d][k] == Max0(cumulativeByDate[d][k] - if d == 0 then 0 else cumulativeByDate[d - 1][k])
    ensures forall d, k :: 0 <= d < |raw| && k in keys ==> cumulativeByDate[d][k] == Cumulative(raw, k, d)
    ensures Built(raw, cumulativeByDate, dailyByDate, keys)
  {
    cumulativeByDate := seq(|raw|, _ => map[]);
    dailyByDate := seq(|raw|, _ => map[]);
    var i := 0;
    while i < |keys|
      invariant 0 <= i <= |keys|
      invariant Built(raw, cumulativeByDate, dailyByDate, keys[..i])
    {
      var cumulative', daily' := ScanLocation(keys[i], raw, cumulativeByDate, dailyByDate);
      BuiltStep(raw, cumulativeByDate, dailyByDate, keys[..i], keys[i], cumulative', daily');
      cumulativeByDate, dailyByDate := cumulative', daily';
      assert keys[..i + 1] == keys[..i] + [keys[i]];
      i := i + 1;
    }
    assert keys[..i] == keys;
    forall d, k | 0 <= d < |raw| && k in keys
      ensures cumulativeByDate[d][k] == if k in raw[d] then raw[d][k] else if d == 0 then 0 else cumulativeByDate[d - 1][k]
      ensures dailyByDate[d][k] == Max0(cumulativeByDate[d][k] - if d == 0 then 0 else cumulativeByDate[d - 1][k])
    {
      BuiltRecurrence(raw, cumulativeByDate, dailyByDate, keys, d, k);
    }
  }

  // ---------------------------------------------------------------------------
  // What the cumulative series means

  /**
   * The cumulative value after `n` dates is the last report among them, or 0
   * when the location has no report yet.
   */
  lemma {:induction false} CarryIsLastReport(raw: seq<map<LocKey, int>>, k: LocKey, n: nat, d: nat)
    requires d < n <= |raw|
    requires k in raw[d]
    requires forall e :: d < e < n ==> k !in raw[e]
    ensures Carry(raw, k, n) == raw[d][k]
  {
    if n - 1 > d {
      CarryIsLastReport(raw, k, n - 1, d);
    }
  }

  lemma {:induction false} CarryBeforeFirstReport(raw: seq<map<LocKey, int>>, k: LocKey, n: nat)
    requires n <= |raw|
    requires forall e :: 0 <= e < n ==> k !in raw[e]
    ensures Carry(raw, k, n) == 0
  {
    if n > 0 {
      CarryBeforeFirstReport(raw, k, n - 1);
    }
  }

  /** With no negative reports, no cumulative value is negative. */
  lemma {:induction false} CarryNonNegative(raw: seq<map<LocKey, int>>, k: LocKey, n: nat)
    requires n <= |raw|
    requires forall e :: 0 <= e < n && k in raw[e] ==> raw[e][k] >= 0
    ensures Carry(raw, k, n) >= 0
  {
    if n > 0 && k !in raw[n - 1] {
      CarryNonNegative(raw, k, n - 1);
    }
  }

  // ---------------------------------------------------------------------------
  // What the daily series means

  /** The sum of the daily values of location `k` over the first `n` dates. */
  function DailyTotal(raw: seq<map<LocKey, int>>, k: LocKey, n: nat): int
    requires n <= |raw|
  {
    if n == 0 then 0 else DailyTotal(raw, k, n - 1) + Max0(Carry(raw, k, n) - Carry(raw, k, n - 1))
  }

  /**
   * Clamping is lossy in one direction only: the daily values never add up to
   * less than the current cumulative value.
   */
  lemma {:induction false} DailyTotalAtLeastCumulative(raw: seq<map<LocKey, int>>, k: LocKey, n: nat)
    requires n <= |raw|
    ensures DailyTotal(raw, k, n) >= Carry(raw, k, n)
  {
    if n > 0 {
      DailyTotalAtLeastCumulative(raw, k, n - 1);
    }
  }

  /** Without downward corrections the daily values add up exactly to the cumulative value. */
  lemma {:induction false} DailyTotalExact(raw: seq<map<LocKey, int>>, k: LocKey, n: nat)
    requires n <= |raw|
    requires forall e :: 0 <= e < n ==> Carry(raw, k, e) <= Carry(raw, k, e + 1)
    ensures DailyTotal(raw, k, n) == Carry(raw, k, n)
  {
    if n > 0 {
      DailyTotalExact(raw, k, n - 1);
    }
  }

  /** Reports 100, (none), 150 give cumulative 100, 100, 150 and daily 100, 0, 50. */
  lemma ScenarioCarryForward(k: LocKey)
    ensures var raw := [map[k := 100], map[], map[k := 150]];
      && Carry(raw, k, 1) == 100 && Carry(raw, k, 2) == 100 && Carry(raw, k, 3) == 150
      && Max0(Carry(raw, k, 1) - Carry(raw, k, 0)) == 100
      && Max0(Carry(raw, k, 2) - Carry(raw, k, 1)) == 0
      && Max0(Carry(raw, k, 3) - Carry(raw, k, 2)) == 50
  {
  }

  /** Reports 100, 80 give cumulative 100, 80 and daily 100, 0: the correction is clamped. */
  lemma ScenarioCorrection(k: LocKey)
    ensures var raw := [map[k := 100], map[k := 80]];
      && Carry(raw, k, 1) == 100 && Carry(raw, k, 2) == 80
      && Max0(Carry(raw, k, 1) - Carry(raw, k, 0)) == 100
      && Max0(Carry(raw, k, 2) - Carry(raw, k, 1)) == 0
      && DailyTotal(raw, k, 2) == 100
  {
    var raw := [map[k := 100], map[k := 80]];
    assert DailyTotal(raw, k, 1) == 100;
  }
}
