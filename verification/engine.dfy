/**
 * The visualisation's global state and its commands: loading the data set,
 * showing the frame for a date index, stepping through the dates on a
 * timer, and the play / stop / restart state machine driven by the controls.
 * The timer itself is outside the model: a timer is a handle chosen by the
 * caller together with the period it was created with, and `Tick` is the
 * callback the caller runs each time an active timer fires.
 */
module Engine {
  import opened Wrappers
  import opened Ingest
  import opened DateIndex
  import opened Aggregate
  import opened Temporal
  import opened Query

  /** An active interval timer: the handle `setInterval` returned and its period. */
  datatype Timer = Timer(handle: nat, periodMs: nat)

  /** What one call of `updateForDate` shows: the dot values, the per-country totals and the ranking panel. */
  datatype Frame = Frame(values: seq<int>, stats: seq<CountryTotal>, top: seq<CountryTotal>)

  /** `Math.max(0, Math.min(index, n - 1))`. */
  function Clamp(index: int, n: nat): (r: int)
    requires n > 0
    ensures 0 <= r < n
    ensures 0 <= index < n ==> r == index
    ensures index < 0 ==> r == 0
    ensures index >= n ==> r == n - 1
  {
    if index < 0 then 0 else if index > n - 1 then n - 1 else index
  }

  /** The timer's step: the next date index, back to 0 past the last date. */
  function NextIndex(i: int, n: nat): (r: int)
    ensures i >= -1 ==> 0 <= r && (n > 0 ==> r < n)
    ensures 0 <= i < n - 1 ==> r == i + 1
    ensures i >= n - 1 ==> r == 0
  {
    if i + 1 >= n then 0 else i + 1
  }

  /** The date index after `k` timer steps from `i`. */
  function Advance(i: int, n: nat, k: nat): int
  {
    if k == 0 then i else NextIndex(Advance(i, n, k - 1), n)
  }

  /** Within one lap the timer steps through consecutive dates, wrapping once past the last. */
  lemma {:induction false} AdvanceLap(i: int, n: nat, k: nat)
    requires 0 <= i < n && k <= n
    ensures Advance(i, n, k) == if i + k < n then i + k else i + k - n
  {
    if k > 0 {
      AdvanceLap(i, n, k - 1);
    }
  }

  /** After as many steps as there are dates, playback is back at the date it started from. */
  lemma PlaybackCycles(i: int, n: nat)
    requires 0 <= i < n
    ensures Advance(i, n, n) == i
  {
    AdvanceLap(i, n, n);
  }

  /** Every date is shown within one lap, whatever date playback starts from. */
  lemma PlaybackVisitsAll(i: int, n: nat, j: int)
    requires 0 <= i < n && 0 <= j < n
    ensures exists k :: 0 <= k < n && Advance(i, n, k) == j
  {
    var k := if i <= j then j - i else j + n - i;
    AdvanceLap(i, n, k);
    assert Advance(i, n, k) == j;
  }

  /** Every location has an entry on every date of the built series. */
  lemma SeriesAt(raw: seq<map<LocKey, int>>, cumulativeByDate: seq<map<LocKey, int>>,
                 dailyByDate: seq<map<LocKey, int>>, locations: seq<Location>, d: nat, i: nat)
    requires Built(raw, cumulativeByDate, dailyByDate, LocationKeys(locations))
    requires d < |raw| && i < |locations|
    ensures locations[i].key in cumulativeByDate[d] && locations[i].key in dailyByDate[d]
    ensures cumulativeByDate[d][locations[i].key] == Cumulative(raw, locations[i].key, d)
    ensures dailyByDate[d][locations[i].key] == Daily(raw, locations[i].key, d)
  {
    var keys := LocationKeys(locations);
    assert keys[i] == locations[i].key;
    assert locations[i].key in keys;
  }

  /** The projection of the date's cumulative or daily map holds each location's value in that series. */
  lemma ProjectedSeries(raw: seq<map<LocKey, int>>, cumulativeByDate: seq<map<LocKey, int>>,
                        dailyByDate: seq<map<LocKey, int>>, locations: seq<Location>, d: nat, cumulative: bool,
                        m: map<LocKey, int>, vals: seq<int>)
    requires Built(raw, cumulativeByDate, dailyByDate, LocationKeys(locations))
    requires d < |raw| && |vals| == |locations|
    requires m == if cumulative then cumulativeByDate[d] else dailyByDate[d]
    requires forall i :: 0 <= i < |locations| ==> vals[i] == if locations[i].key in m then m[locations[i].key] else 0
    ensures forall i :: 0 <= i < |locations| ==>
      vals[i] == if cumulative then Cumulative(raw, locations[i].key, d) else Daily(raw, locations[i].key, d)
  {
    forall i | 0 <= i < |locations|
      ensures vals[i] == if cumulative then Cumulative(raw, locations[i].key, d) else Daily(raw, locations[i].key, d)
    {
      SeriesAt(raw, cumulativeByDate, dailyByDate, locations, d, i);
    }
  }

  /**
   * What loading establishes between the records and the tables built from
   * them: the ascending date axis and its inverse map, the raw sums, the
   * registered locations and their index, and both series.
   */
  ghost predicate DataConsistent(records: seq<Record>, dates: seq<int>, dateIndexMap: map<int, nat>,
                         rawValuesByDate: seq<map<LocKey, int>>, cumulativeByDate: seq<map<LocKey, int>>,
                         dailyByDate: seq<map<LocKey, int>>, locKeyToIndex: map<LocKey, nat>, locations: seq<Location>)
  {
    && StrictlyIncreasing(dates)
    && (forall t :: t in dates <==> t in Stamps(records))
    && (forall i :: 0 <= i < |dates| ==> dates[i] in dateIndexMap && dateIndexMap[dates[i]] == i)
    && (forall t :: t in dateIndexMap ==> dateIndexMap[t] < |dates| && dates[dateIndexMap[t]] == t)
    && RawSums(rawValuesByDate, dates, records)
    && locations == Registered(records)
    && IndexesLocations(locKeyToIndex, locations)
    && Built(rawValuesByDate, cumulativeByDate, dailyByDate, LocationKeys(locations))
  }

  class Engine {
    /** The records kept by ingestion, from which everything below is built. */
    ghost var records: seq<Record>

    var dates: seq<int>
    var dateIndexMap: map<int, nat>
    var rawValuesByDate: seq<map<LocKey, int>>
    var cumulativeByDate: seq<map<LocKey, int>>
    var dailyByDate: seq<map<LocKey, int>>
    var locKeyToIndex: map<LocKey, nat>
    var locations: seq<Location>

    var currentDateIndex: int
    var playInterval: Option<Timer>

    // The settings object's fields the commands read and write.
    var playing: bool
    var speedMs: nat
    var cumulative: bool
    var topN: nat

    ghost predicate Valid()
      reads this
    {
      && DataConsistent(records, dates, dateIndexMap, rawValuesByDate, cumulativeByDate, dailyByDate, locKeyToIndex, locations)
      && (if dates == [] then currentDateIndex == 0 else 0 <= currentDateIndex < |dates|)
      && (playing <==> playInterval.Some?)
      && (playInterval.Some? ==> playInterval.value.periodMs == speedMs)
    }

    /** The loaded data (records, date axis, sums, registry and series) is as it was. */
    twostate predicate SameData()
      reads this
    {
      && records == old(records) && dates == old(dates) && dateIndexMap == old(dateIndexMap)
      && rawValuesByDate == old(rawValuesByDate) && cumulativeByDate == old(cumulativeByDate)
      && dailyByDate == old(dailyByDate) && locKeyToIndex == old(locKeyToIndex) && locations == old(locations)
    }

    /** `loadCSV` on the data file's text, with the settings' initial values. */
    constructor Load(csv: string, locate: (string, string) -> Option<LocKey>, stamp: CsvDate -> int)
      ensures Valid()
      ensures records == KeptRecords(CsvLines(csv), |CsvLines(csv)|, RowParser(locate, stamp))
      ensures currentDateIndex == 0
      ensures playInterval == None && !playing
      ensures speedMs == 400 && !cumulative && topN == 10
    {
      var lines := CsvLines(csv);
      var rs := IngestRows(lines, RowParser(locate, stamp));
      var ds, dim := BuildDateIndex(rs);
      var raw, lk, locs := AggregateRecords(rs, ds, dim);
      var cum, daily := BuildCumulativeAndDaily(LocationKeys(locs), raw);
      records := rs;
      dates, dateIndexMap := ds, dim;
      rawValuesByDate, locKeyToIndex, locations := raw, lk, locs;
      cumulativeByDate, dailyByDate := cum, daily;
      currentDateIndex := 0;
      playInterval := None;
      playing := false;
      speedMs := 400;
      cumulative := false;
      topN := 10;
    }

    /**
     * The frame for date index `d`: each location's cumulative or daily value
     * on that date (whichever the mode selects), the positive totals per
     * country, and the first `topN` countries by total.
     */
    ghost predicate Shows(frame: Frame, d: nat)
      reads this
      requires d < |rawValuesByDate|
    {
      && |frame.values| == |locations|
      && (forall i :: 0 <= i < |locations| ==>
            frame.values[i] == (if cumulative then Cumulative(rawValuesByDate, locations[i].key, d)
                                else Daily(rawValuesByDate, locations[i].key, d)))
      && frame.stats == CountryStats(frame.values, locations, |locations|)
      && frame.top == TopCountries(frame.stats, topN)
    }

    /** The drawing half of `updateForDate`: project the series, total per country and rank. */
    method RenderFrame(d: nat) returns (frame: Frame)
      requires Built(rawValuesByDate, cumulativeByDate, dailyByDate, LocationKeys(locations))
      requires IndexesLocations(locKeyToIndex, locations)
      requires d < |rawValuesByDate|
      ensures Shows(frame, d)
    {
      var mapToUse := if cumulative then cumulativeByDate[d] else dailyByDate[d];
      var values := ProjectValues(mapToUse, locKeyToIndex, locations);
      var vals := values[..];
      assert forall i :: 0 <= i < |locations| ==> vals[i] == if locations[i].key in mapToUse then mapToUse[locations[i].key] else 0;
      ProjectedSeries(rawValuesByDate, cumulativeByDate, dailyByDate, locations, d, cumulative, mapToUse, vals);
      var stats := ComputeCountryStats(vals, locations);
      frame := Frame(vals, stats, TopCountries(stats, topN));
    }

    /**
     * `updateForDate`: nothing happens without dates; otherwise the clamped
     * index becomes current and the frame shows that date.
     */
    method UpdateForDate(index: int) returns (frame: Option<Frame>)
      requires Valid()
      modifies this
      ensures Valid()
      ensures SameData() && playInterval == old(playInterval) && playing == old(playing)
      ensures speedMs == old(speedMs) && cumulative == old(cumulative) && topN == old(topN)
      ensures dates == [] ==> frame == None && currentDateIndex == old(currentDateIndex)
      ensures dates != [] ==> currentDateIndex == Clamp(index, |dates|) && frame.Some? && Shows(frame.value, currentDateIndex)
    {
      if |dates| == 0 {
        return None;
      }
      currentDateIndex := Clamp(index, |dates|);
      var f := RenderFrame(currentDateIndex);
      frame := Some(f);
    }

    /** The interval callback: advance one date, wrapping to the first, and show it. */
    method Tick() returns (frame: Option<Frame>)
      requires Valid() && playInterval.Some?
      modifies this
      ensures Valid()
      ensures SameData() && playInterval == old(playInterval) && playing == old(playing)
      ensures speedMs == old(speedMs) && cumulative == old(cumulative) && topN == old(topN)
      ensures currentDateIndex == NextIndex(old(currentDateIndex), |dates|)
      ensures frame.Some? <==> dates != []
      ensures frame.Some? ==> 0 <= currentDateIndex < |rawValuesByDate| && Shows(frame.value, currentDateIndex)
    {
      currentDateIndex := NextIndex(currentDateIndex, |dates|);
      frame := UpdateForDate(currentDateIndex);
    }

    /** `startPlay`: with a timer already active nothing changes; otherwise a timer with the current speed starts. */
    method StartPlay(handle: nat)
      requires Valid()
      modifies this
      ensures Valid()
      ensures old(playInterval).Some? ==> playInterval == old(playInterval) && playing == old(playing)
      ensures old(playInterval).None? ==> playing && playInterval == Some(Timer(handle, speedMs))
      ensures SameData() && currentDateIndex == old(currentDateIndex) && speedMs == old(speedMs)
      ensures cumulative == old(cumulative) && topN == old(topN)
    {
      if playInterval.Some? {
        return;
      }
      playing := true;
      playInterval := Some(Timer(handle, speedMs));
    }

    /** `stopPlay`: playback is off and the active timer, if any, is the one cleared. */
    method StopPlay() returns (cleared: Option<Timer>)
      requires Valid()
      modifies this
      ensures Valid()
      ensures !playing && playInterval == None
      ensures cleared == old(playInterval)
      ensures SameData() && currentDateIndex == old(currentDateIndex) && speedMs == old(speedMs)
      ensures cumulative == old(cumulative) && topN == old(topN)
    {
      playing := false;
      cleared := playInterval;
      playInterval := None;
    }

    /** `restartPlay`: the old timer is cleared and a new one runs at the current speed, from the same date. */
    method RestartPlay(handle: nat) returns (cleared: Option<Timer>)
      requires Valid()
      modifies this
      ensures Valid()
      ensures playing && playInterval == Some(Timer(handle, speedMs))
      ensures cleared == old(playInterval)
      ensures SameData() && currentDateIndex == old(currentDateIndex) && speedMs == old(speedMs)
      ensures cumulative == old(cumulative) && topN == old(topN)
    {
      cleared := StopPlay();
      StartPlay(handle);
    }

    /** The play toggle: on starts playback, off stops it. */
    method SetPlaying(on: bool, handle: nat) returns (cleared: Option<Timer>)
      requires Valid()
      modifies this
      ensures Valid()
      ensures playing == on
      ensures on ==> cleared == None && playInterval == (if old(playInterval).Some? then old(playInterval) else Some(Timer(handle, speedMs)))
      ensures !on ==> cleared == old(playInterval) && playInterval == None
      ensures SameData() && currentDateIndex == old(currentDateIndex)
      ensures speedMs == old(speedMs) && cumulative == old(cumulative) && topN == old(topN)
    {
      if on {
        StartPlay(handle);
        cleared := None;
      } else {
        cleared := StopPlay();
      }
    }

    /** The speed control: the new period applies at once, through a restart, when playing. */
    method SetSpeed(ms: nat, handle: nat) returns (cleared: Option<Timer>)
      requires Valid()
      modifies this
      ensures Valid()
      ensures speedMs == ms && playing == old(playing)
      ensures old(playing) ==> playInterval == Some(Timer(handle, ms)) && cleared == old(playInterval)
      ensures !old(playing) ==> playInterval == None && cleared == None
      ensures SameData() && currentDateIndex == old(currentDateIndex)
      ensures cumulative == old(cumulative) && topN == old(topN)
    {
      if playing {
        cleared := StopPlay();
        speedMs := ms;
        StartPlay(handle);
      } else {
        speedMs := ms;
        cleared := None;
      }
    }

    /** The date slider: show the date at the slider's (floored) position. */
    method SelectDate(index: int) returns (frame: Option<Frame>)
      requires Valid()
      modifies this
      ensures Valid()
      ensures dates != [] ==> currentDateIndex == Clamp(index, |dates|) && frame.Some?
      ensures dates == [] ==> frame == None && currentDateIndex == old(currentDateIndex)
      ensures frame.Some? ==> 0 <= currentDateIndex < |rawValuesByDate| && Shows(frame.value, currentDateIndex)
      ensures SameData() && playInterval == old(playInterval) && playing == old(playing)
      ensures speedMs == old(speedMs) && cumulative == old(cumulative) && topN == old(topN)
    {
      frame := UpdateForDate(index);
    }

    /** The mode toggle: switch between cumulative and daily values and redraw the current date. */
    method SetCumulative(on: bool) returns (frame: Option<Frame>)
      requires Valid()
      modifies this
      ensures Valid()
      ensures cumulative == on && currentDateIndex == old(currentDateIndex)
      ensures frame.Some? <==> dates != []
      ensures frame.Some? ==> 0 <= currentDateIndex < |rawValuesByDate| && Shows(frame.value, currentDateIndex)
      ensures SameData() && playInterval == old(playInterval) && playing == old(playing)
      ensures speedMs == old(speedMs) && topN == old(topN)
    {
      cumulative := on;
      frame := UpdateForDate(currentDateIndex);
    }

    /** The Top N control: change the ranking length and redraw the current date. */
    method SetTopN(n: nat) returns (frame: Option<Frame>)
      requires Valid()
      modifies this
      ensures Valid()
      ensures topN == n && currentDateIndex == old(currentDateIndex)
      ensures frame.Some? <==> dates != []
      ensures frame.Some? ==> 0 <= currentDateIndex < |rawValuesByDate| && Shows(frame.value, currentDateIndex)
      ensures frame.Some? ==> |frame.value.top| == Min(n, |frame.value.stats|)
      ensures SameData() && playInterval == old(playInterval) && playing == old(playing)
      ensures speedMs == old(speedMs) && cumulative == old(cumulative)
    {
      topN := n;
      frame := UpdateForDate(currentDateIndex);
    }
  }
}
