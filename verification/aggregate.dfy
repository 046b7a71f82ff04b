/**
 * The second loop of the loader: per-date raw sums keyed by location
 * (`rawValuesByDate`) and the location registry (`locKeyToIndex`,
 * `locations`), both filled in record order.
 */
module Aggregate {
  import opened Ingest
  import opened DateIndex

  /** A registered location: the key it was registered under and the country of its first record. */
  datatype Location = Location(key: LocKey, country: string)

  predicate Matches(r: Record, ts: int, k: LocKey)
  {
    r.dateTs == ts && r.key == k
  }

  /** Some record reports location `k` on date `ts`. */
  predicate Reported(rs: seq<Record>, ts: int, k: LocKey)
  {
    exists i :: 0 <= i < |rs| && Matches(rs[i], ts, k)
  }

  /** The sum of the counts of all records for location `k` on date `ts`. */
  function ReportSum(rs: seq<Record>, ts: int, k: LocKey): int
  {
    if rs == [] then 0
    else ReportSum(rs[..|rs| - 1], ts, k) + (if Matches(rs[|rs| - 1], ts, k) then rs[|rs| - 1].confirmed else 0)
  }

  /** `k` is the key of some registered location. */
  predicate Registers(locs: seq<Location>, k: LocKey)
  {
    exists j :: 0 <= j < |locs| && locs[j].key == k
  }

  /**
   * The registry after the records `rs`: a record whose key is new appends a
   * location with that key and the record's country; a known key changes nothing.
   */
  function Registered(rs: seq<Record>): seq<Location>
  {
    if rs == [] then []
    else
      var prev := Registered(rs[..|rs| - 1]);
      var r := rs[|rs| - 1];
      if Registers(prev, r.key) then prev else prev + [Location(r.key, r.country)]
  }

  /** `rawValuesByDate` holds, per date, exactly the reported keys with their summed counts. */
  ghost predicate RawSums(raw: seq<map<LocKey, int>>, dates: seq<int>, rs: seq<Record>)
  {
    && |raw| == |dates|
    && (forall d, k :: 0 <= d < |dates| ==> (k in raw[d] <==> Reported(rs, dates[d], k)))
    && (forall d, k :: 0 <= d < |dates| && k in raw[d] ==> raw[d][k] == ReportSum(rs, dates[d], k))
  }

  /** `locKeyToIndex` and `locations` are inverse to each other. */
  ghost predicate IndexesLocations(locKeyToIndex: map<LocKey, nat>, locations: seq<Location>)
  {
    && (forall j :: 0 <= j < |locations| ==> locations[j].key in locKeyToIndex && locKeyToIndex[locations[j].key] == j)
    && (forall k :: k in locKeyToIndex ==> locKeyToIndex[k] < |locations| && locations[locKeyToIndex[k]].key == k)
  }

  lemma RawSumsStep(raw: seq<map<LocKey, int>>, dates: seq<int>, rs: seq<Record>, r: Record, di: nat)
    requires RawSums(raw, dates, rs)
    requires StrictlyIncreasing(dates)
    requires di < |dates| && dates[di] == r.dateTs
    ensures RawSums(raw[di := AddCount(raw[di], r.key, r.confirmed)], dates, rs + [r])
  {
    var rs' := rs + [r];
    assert rs'[..|rs'| - 1] == rs;
    var raw' := raw[di := AddCount(raw[di], r.key, r.confirmed)];
    forall d, k | 0 <= d < |dates|
      ensures k in raw'[d] <==> Reported(rs', dates[d], k)
      ensures k in raw'[d] ==> raw'[d][k] == ReportSum(rs', dates[d], k)
    {
      if Reported(rs, dates[d], k) {
        var i :| 0 <= i < |rs| && Matches(rs[i], dates[d], k);
        assert Matches(rs'[i], dates[d], k);
      }
      if Reported(rs', dates[d], k) && !Matches(r, dates[d], k) {
        var i :| 0 <= i < |rs'| && Matches(rs'[i], dates[d], k);
        assert i < |rs| && Matches(rs[i], dates[d], k);
      }
      if Matches(r, dates[d], k) {
        assert Matches(rs'[|rs|], dates[d], k);
        assert d == di;
        if k !in raw[di] {
          ReportSumUnreported(rs, dates[d], k);
        }
      }
    }
  }

  lemma RegistryStep(locKeyToIndex: map<LocKey, nat>, locations: seq<Location>, rs: seq<Record>, r: Record)
    requires IndexesLocations(locKeyToIndex, locations)
    requires |locKeyToIndex| == |locations|
    requires locations == Registered(rs)
    ensures r.key in locKeyToIndex <==> Registers(locations, r.key)
    ensures Registered(rs + [r]) ==
      if r.key in locKeyToIndex then locations else locations + [Location(r.key, r.country)]
    ensures r.key !in locKeyToIndex ==>
      var locs' := locations + [Location(r.key, r.country)];
      var m' := locKeyToIndex[r.key := |locations|];
      IndexesLocations(m', locs') && |m'| == |locs'|
  {
    var rs' := rs + [r];
    assert rs'[..|rs'| - 1] == rs;
    if Registers(locations, r.key) {
      var j :| 0 <= j < |locations| && locations[j].key == r.key;
    }
    if r.key !in locKeyToIndex {
      IndexExtends(locKeyToIndex, locations, r.key, r.country);
    }
  }

  /** Registering a new key under the next index keeps the index map inverse to the registry. */
  lemma IndexExtends(locKeyToIndex: map<LocKey, nat>, locations: seq<Location>, k: LocKey, country: string)
    requires IndexesLocations(locKeyToIndex, locations)
    requires |locKeyToIndex| == |locations| && k !in locKeyToIndex
    ensures IndexesLocations(locKeyToIndex[k := |locations|], locations + [Location(k, country)])
    ensures |locKeyToIndex[k := |locations|]| == |locations| + 1
  {
    var locs' := locations + [Location(k, country)];
    var m' := locKeyToIndex[k := |locations|];
    forall j | 0 <= j < |locs'|
      ensures locs'[j].key in m' && m'[locs'[j].key] == j
    {
      if j < |locations| {
        assert locs'[j] == locations[j];
      }
    }
  }

  /** The loader's state after the records `rs`: raw sums, registry, and the index map inverse to it. */
  ghost predicate Loaded(raw: seq<map<LocKey, int>>, locKeyToIndex: map<LocKey, nat>, locations: seq<Location>,
                         dates: seq<int>, rs: seq<Record>)
  {
    && RawSums(raw, dates, rs)
    && locations == Registered(rs)
    && IndexesLocations(locKeyToIndex, locations)
    && |locKeyToIndex| == |locations|
  }

  /** `map.set(key, (map.get(key) || 0) + confirmed)`. */
  function AddCount(m: map<LocKey, int>, k: LocKey, confirmed: int): (m': map<LocKey, int>)
    ensures m'.Keys == m.Keys + {k}
    ensures forall j :: j in m && j != k ==> m'[j] == m[j]
    ensures k in m ==> m'[k] - m[k] == confirmed
    ensures k !in m ==> m'[k] == confirmed
  {
    m[k := (if k in m then m[k] else 0) + confirmed]
  }

  lemma LoadedStep(raw: seq<map<LocKey, int>>, locKeyToIndex: map<LocKey, nat>, locations: seq<Location>,
                   dates: seq<int>, rs: seq<Record>, r: Record, di: nat)
    requires Loaded(raw, locKeyToIndex, locations, dates, rs)
    requires StrictlyIncreasing(dates)
    requires di < |dates| && dates[di] == r.dateTs
    ensures Loaded(raw[di := AddCount(raw[di], r.key, r.confirmed)],
                   if r.key in locKeyToIndex then locKeyToIndex else locKeyToIndex[r.key := |locations|],
                   if r.key in locKeyToIndex then locations else locations + [Location(r.key, r.country)],
                   dates, rs + [r])
  {
    RawSumsStep(raw, dates, rs, r, di);
    RegistryStep(locKeyToIndex, locations, rs, r);
  }

  /** One iteration of the record loop: add the count, register the key if new. */
  method AddRecord(raw: seq<map<LocKey, int>>, locKeyToIndex: map<LocKey, nat>, locations: seq<Location>,
                   dates: seq<int>, rs: seq<Record>, r: Record, di: nat)
    returns (raw': seq<map<LocKey, int>>, locKeyToIndex': map<LocKey, nat>, locations': seq<Location>)
    requires Loaded(raw, locKeyToIndex, locations, dates, rs)
    requires StrictlyIncreasing(dates)
    requires di < |dates| && dates[di] == r.dateTs
    ensures Loaded(raw', locKeyToIndex', locations', dates, rs + [r])
  {
    LoadedStep(raw, locKeyToIndex, locations, dates, rs, r, di);
    raw' := raw[di := AddCount(raw[di], r.key, r.confirmed)];
    if r.key in locKeyToIndex {
      locKeyToIndex', locations' := locKeyToIndex, locations;
    } else {
      locKeyToIndex' := locKeyToIndex[r.key := |locations|];
      locations' := locations + [Location(r.key, r.country)];
    }
  }

  /**
   * The record loop of the loader: adds each record's count into the raw sum
   * of its (date, key) pair and registers each new key under the next index.
   */
  method AggregateRecords(records: seq<Record>, dates: seq<int>, dateIndexMap: map<int, nat>)
    returns (rawValuesByDate: seq<map<LocKey, int>>, locKeyToIndex: map<LocKey, nat>, locations: seq<Location>)
    requires StrictlyIncreasing(dates)
    requires forall t :: t in dateIndexMap ==> dateIndexMap[t] < |dates| && dates[dateIndexMap[t]] == t
    requires forall k :: 0 <= k < |records| ==> records[k].dateTs in dateIndexMap
    ensures RawSums(rawValuesByDate, dates, records)
    ensures locations == Registered(records)
    ensures IndexesLocations(locKeyToIndex, locations)
    ensures |locKeyToIndex| == |locations|
  {
    rawValuesByDate := seq(|dates|, _ => map[]);
    locKeyToIndex := map[];
    locations := [];
    var i := 0;
    while i < |records|
      invariant 0 <= i <= |records|
      invariant Loaded(rawValuesByDate, locKeyToIndex, locations, dates, records[..i])
    {
      var r := records[i];
      rawValuesByDate, locKeyToIndex, locations :=
        AddRecord(rawValuesByDate, locKeyToIndex, locations, dates, records[..i], r, dateIndexMap[r.dateTs]);
      assert records[..i + 1] == records[..i] + [r];
      i := i + 1;
    }
    assert records[..i] == records;
  }

  // ---------------------------------------------------------------------------
  // Properties of the specification functions

  /** Sums add up over concatenation: the records after a prefix add their own counts to each cell. */
  lemma {:induction false} ReportSumAppend(a: seq<Record>, b: seq<Record>, ts: int, k: LocKey)
    ensures ReportSum(a + b, ts, k) == ReportSum(a, ts, k) + ReportSum(b, ts, k)
  {
    if b == [] {
      assert a + b == a;
    } else {
      assert (a + b)[..|a + b| - 1] == a + b[..|b| - 1];
      ReportSumAppend(a, b[..|b| - 1], ts, k);
    }
  }

  /** A (date, key) pair nobody reports sums to 0. */
  lemma {:induction false} ReportSumUnreported(rs: seq<Record>, ts: int, k: LocKey)
    requires !Reported(rs, ts, k)
    ensures ReportSum(rs, ts, k) == 0
  {
    if rs != [] {
      var p := rs[..|rs| - 1];
      assert !Matches(rs[|rs| - 1], ts, k);
      forall i | 0 <= i < |p|
        ensures !Matches(p[i], ts, k)
      {
        assert p[i] == rs[i];
      }
      ReportSumUnreported(p, ts, k);
    }
  }

  /** No two registered locations share a key. */
  lemma {:induction false} RegisteredDistinct(rs: seq<Record>)
    ensures forall i, j :: 0 <= i < j < |Registered(rs)| ==> Registered(rs)[i].key != Registered(rs)[j].key
  {
    if rs != [] {
      RegisteredDistinct(rs[..|rs| - 1]);
    }
  }

  /** A key is registered exactly when some record carries it. */
  lemma {:induction false} RegisteredCovers(rs: seq<Record>, k: LocKey)
    ensures Registers(Registered(rs), k) <==> exists i :: 0 <= i < |rs| && rs[i].key == k
  {
    if rs != [] {
      var p := rs[..|rs| - 1];
      RegisteredCovers(p, k);
      var prev := Registered(p);
      if Registers(Registered(rs), k) && rs[|rs| - 1].key != k {
        var j :| 0 <= j < |Registered(rs)| && Registered(rs)[j].key == k;
        assert Registers(prev, k) by {
          if !Registers(prev, rs[|rs| - 1].key) {
            assert j < |prev| && prev[j].key == k;
          }
        }
        var i :| 0 <= i < |p| && p[i].key == k;
        assert rs[i].key == k;
      }
      if exists i :: 0 <= i < |rs| && rs[i].key == k {
        var i :| 0 <= i < |rs| && rs[i].key == k;
        if i < |p| {
          assert p[i].key == k;
          var j :| 0 <= j < |prev| && prev[j].key == k;
          assert Registered(rs)[j].key == k;
        } else if !Registers(prev, k) {
          assert Registered(rs)[|prev|].key == k;
        } else {
          var j :| 0 <= j < |prev| && prev[j].key == k;
          assert Registered(rs)[j].key == k;
        }
      }
    }
  }

  /** Later records never change an entry already registered: the registry only grows at the end. */
  lemma {:induction false} RegisteredPrefix(rs: seq<Record>, n: nat)
    requires n <= |rs|
    ensures |Registered(rs[..n])| <= |Registered(rs)|
    ensures Registered(rs[..n]) == Registered(rs)[..|Registered(rs[..n])|]
  {
    if n < |rs| {
      var p := rs[..|rs| - 1];
      assert p[..n] == rs[..n];
      RegisteredPrefix(p, n);
    } else {
      assert rs[..n] == rs;
    }
  }

  /**
   * The first record with a given key registers it: its index is the number of
   * distinct keys seen before that record, and its country is that record's.
   */
  lemma {:induction false} RegisteredFirstSighting(rs: seq<Record>, p: nat)
    requires p < |rs|
    requires forall q :: 0 <= q < p ==> rs[q].key != rs[p].key
    ensures |Registered(rs[..p])| < |Registered(rs)|
    ensures Registered(rs)[|Registered(rs[..p])|] == Location(rs[p].key, rs[p].country)
  {
    var before := rs[..p];
    RegisteredCovers(before, rs[p].key);
    assert rs[..p + 1][..p] == before;
    assert !Registers(Registered(before), rs[p].key);
    assert Registered(rs[..p + 1]) == Registered(before) + [Location(rs[p].key, rs[p].country)];
    RegisteredPrefix(rs, p + 1);
  }

  /** The location keys in registration order, the order `locKeyToIndex` yields them. */
  function LocationKeys(locations: seq<Location>): (keys: seq<LocKey>)
    ensures |keys| == |locations|
    ensures forall i :: 0 <= i < |locations| ==> keys[i] == locations[i].key
  {
    seq(|locations|, i requires 0 <= i < |locations| => locations[i].key)
  }

  /**
   * `Array.from(locKeyToIndex.keys())`: the keys of the index map in insertion
   * order are exactly the registered keys, key number `i` having index `i`.
   */
  lemma LocationKeysOfIndex(locKeyToIndex: map<LocKey, nat>, locations: seq<Location>)
    requires IndexesLocations(locKeyToIndex, locations)
    ensures forall i :: 0 <= i < |LocationKeys(locations)| ==>
      LocationKeys(locations)[i] in locKeyToIndex && locKeyToIndex[LocationKeys(locations)[i]] == i
    ensures forall k :: k in locKeyToIndex <==> k in LocationKeys(locations)
  {
    var keys := LocationKeys(locations);
    forall k | k in locKeyToIndex
      ensures k in keys
    {
      assert keys[locKeyToIndex[k]] == k;
    }
  }
}
