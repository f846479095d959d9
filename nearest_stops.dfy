/** Nearest-stop selection: `createDistanceArray` builds one `BusStop` per catalog record with its
    distance from the reference point, `sortDistanceArray` orders them by distance, and
    `outputDistanceData` keeps the first `closestStopCount` of them. */
module NearestStops {
  import opened Wrappers
  import opened Records
  import opened Geometry
  import opened BusStops
  import StableSort

  /** `closestStopCount`. */
  const ClosestStopCount: nat := 20

  /** The keys a catalog record must have after its coordinates, in the order they are read. */
  const NameKeys: seq<string> := ["stop", "name_en", "name_tc", "name_sc"]

  /** The point distances are measured from: the last known location, or (0, 0) when there is
      none. */
  function ReferencePoint(location: Option<LatLon>): LatLon {
    if location.Some? then location.value else LatLon(0.0, 0.0)
  }

  /** `Float.parseFloat(text)`; `parseFloat` is the platform's partial reading of a decimal,
      `None` where it throws. */
  function Coordinate(text: string, parseFloat: string -> Option<real>): Result<real, Thrown>
  {
    match parseFloat(text)
    case Some(x) => Ok(x)
    case None => Err(NumberFormat(text))
  }

  /** One iteration of `createDistanceArray`: read and parse `lat` and `long`, compute the
      distance, and read the fields the setters copy. */
  function StopFromRecord(rec: Record, reference: LatLon, parseFloat: string -> Option<real>): (r: Result<StopFields, Thrown>)
    ensures "lat" !in rec ==> r == Err(JsonKeyNotFound("lat"))
    ensures "lat" in rec && parseFloat(rec["lat"]).None? ==> r == Err(NumberFormat(rec["lat"]))
    ensures "lat" in rec && parseFloat(rec["lat"]).Some? && "long" !in rec ==> r == Err(JsonKeyNotFound("long"))
    ensures "lat" in rec && parseFloat(rec["lat"]).Some? && "long" in rec && parseFloat(rec["long"]).None? ==>
      r == Err(NumberFormat(rec["long"]))
    ensures "lat" in rec && parseFloat(rec["lat"]).Some? && "long" in rec && parseFloat(rec["long"]).Some? ==>
      var stop := LatLon(parseFloat(rec["lat"]).value, parseFloat(rec["long"]).value);
      && (r.Ok? <==> FirstMissing(rec, NameKeys).None?)
      && (r.Err? ==> r.error == JsonKeyNotFound(FirstMissing(rec, NameKeys).value))
      && (r.Ok? ==> r.value == StopFields(rec["stop"], rec["name_en"], rec["name_tc"], rec["name_sc"],
            rec["lat"], rec["long"], SquaredDistance(reference, stop)))
  {
    var latText :- Get(rec, "lat");
    var lat :- Coordinate(latText, parseFloat);
    var lonText :- Get(rec, "long");
    var lon :- Coordinate(lonText, parseFloat);
    var stopID :- Get(rec, "stop");
    var nameEn :- Get(rec, "name_en");
    var nameTc :- Get(rec, "name_tc");
    var nameSc :- Get(rec, "name_sc");
    Ok(StopFields(stopID, nameEn, nameTc, nameSc, latText, lonText, SquaredDistance(reference, LatLon(lat, lon))))
  }

  /** `StopFromRecord` for a fixed location and parser, as a decoder. */
  function StopDecoder(location: Option<LatLon>, parseFloat: string -> Option<real>): Record -> Result<StopFields, Thrown> {
    rec => StopFromRecord(rec, ReferencePoint(location), parseFloat)
  }

  /** What `createDistanceArray` appends for `records`, and what it throws. */
  function DistanceEntries(records: seq<Record>, location: Option<LatLon>, parseFloat: string -> Option<real>): Collected<StopFields> {
    Collect(records, StopDecoder(location, parseFloat))
  }

  /** A record with the stop's own coordinates as location is at distance zero; with no location
      known, the distance is that from (0, 0). */
  lemma EntryDistance(rec: Record, location: Option<LatLon>, parseFloat: string -> Option<real>)
    requires StopFromRecord(rec, ReferencePoint(location), parseFloat).Ok?
    ensures var f := StopFromRecord(rec, ReferencePoint(location), parseFloat).value;
      var stop := LatLon(parseFloat(rec["lat"]).value, parseFloat(rec["long"]).value);
      && (location.None? ==> f.distance == SquaredDistance(LatLon(0.0, 0.0), stop))
      && (f.distance == 0.0 <==> ReferencePoint(location) == stop)
  {
    var stop := LatLon(parseFloat(rec["lat"]).value, parseFloat(rec["long"]).value);
    SquaredDistanceZeroIff(ReferencePoint(location), stop);
  }

  /** One iteration's `new BusStop()` and setter calls. */
  method NewBusStop(f: StopFields) returns (busStop: BusStop)
    ensures fresh(busStop) && busStop.Fields() == f
  {
    busStop := new BusStop();
    busStop.SetStopID(f.stopID);
    busStop.SetNameEn(f.nameEn);
    busStop.SetNameTc(f.nameTc);
    busStop.SetNameSc(f.nameSc);
    busStop.SetLat(f.lat);
    busStop.SetLon(f.lon);
    busStop.SetDistance(f.distance);
  }

  /** One iteration of `createDistanceArray`: the `BusStop` for the record at `i`, or what
      reading it throws. */
  method NextBusStop(listData: seq<Record>, i: nat, location: Option<LatLon>, parseFloat: string -> Option<real>,
                     ghost c: Collected<StopFields>)
    returns (r: Result<BusStop, Thrown>)
    requires c == DistanceEntries(listData, location, parseFloat) && i < |listData| && i <= |c.items|
    ensures r.Err? ==> |c.items| == i && c.failure == Some(r.error)
    ensures r.Ok? ==> i < |c.items| && fresh(r.value) && r.value.Fields() == c.items[i]
  {
    var entry := StopFromRecord(listData[i], ReferencePoint(location), parseFloat);
    CollectAt(listData, StopDecoder(location, parseFloat), i);
    if entry.Err? {
      return Err(entry.error);
    }
    var busStop := NewBusStop(entry.value);
    return Ok(busStop);
  }

  /** `createDistanceArray(distanceArray, listData)`: appends one new `BusStop` per record, in
      record order, until a record throws; the stops appended before that stay appended. */
  method CreateDistanceArray(distanceArray: seq<BusStop>, listData: seq<Record>, location: Option<LatLon>,
                             parseFloat: string -> Option<real>)
    returns (out: seq<BusStop>, thrown: Option<Thrown>)
    ensures var c := DistanceEntries(listData, location, parseFloat);
      && |out| == |distanceArray| + |c.items|
      && out[..|distanceArray|] == distanceArray
      && (forall i :: |distanceArray| <= i < |out| ==> fresh(out[i]) && out[i].Fields() == c.items[i - |distanceArray|])
      && (forall i, j :: |distanceArray| <= i < j < |out| ==> out[i] != out[j])
      && thrown == c.failure
  {
    ghost var c := DistanceEntries(listData, location, parseFloat);
    CollectLength(listData, StopDecoder(location, parseFloat));
    out, thrown := distanceArray, None;
    var i := 0;
    while i < |listData|
      invariant 0 <= i <= |c.items|
      invariant |out| == |distanceArray| + i && out[..|distanceArray|] == distanceArray
      invariant forall j :: |distanceArray| <= j < |out| ==> fresh(out[j])
      invariant forall j :: |distanceArray| <= j < |out| ==> out[j].Fields() == c.items[j - |distanceArray|]
      invariant forall j, k :: |distanceArray| <= j < k < |out| ==> out[j] != out[k]
    {
      var entry := NextBusStop(listData, i, location, parseFloat, c);
      if entry.Err? {
        thrown := Some(entry.error);
        return;
      }
      var busStop := entry.value;
      assert forall j :: 0 <= j < |out| ==> out[j] != busStop;
      out := out + [busStop];
      i := i + 1;
    }
  }

  /** The sort key: each stop's distance, as the comparator reads it when the sort runs. */
  function DistanceKey(list: seq<BusStop>): (key: BusStop -> real)
    reads list
    ensures forall b :: b in list ==> key(b) == b.distance
  {
    var snapshot := map b | b in list :: b.distance;
    b => if b in snapshot then snapshot[b] else 0.0
  }

  /** `sortDistanceArray`: `Collections.sort`, which is stable, with the comparator returning -1,
      0 or 1 as the first distance is below, equal to or above the second. The result is ordered
      by distance, a permutation of the list, and stops at equal distance keep their order. */
  function SortDistanceArray(list: seq<BusStop>): (r: seq<BusStop>)
    reads list
    ensures multiset(r) == multiset(list)
    ensures forall i, j :: 0 <= i < j < |r| ==> r[i].distance <= r[j].distance
    ensures forall k :: StableSort.WithKey(r, DistanceKey(list), k) == StableSort.WithKey(list, DistanceKey(list), k)
  {
    var r := StableSort.Sort(list, DistanceKey(list));
    assert forall i :: 0 <= i < |r| ==> r[i] in multiset(list);
    r
  }

  /** The distance of a field snapshot: the key the pure pipeline sorts by. */
  function Distance(f: StopFields): real {
    f.distance
  }

  const NoFields: StopFields := StopFields("", "", "", "", "", "", 0.0)

  /** Each stop's fields as they are now. */
  function FieldsOf(list: seq<BusStop>): (f: BusStop -> StopFields)
    reads list
    ensures forall b :: b in list ==> f(b) == b.Fields()
  {
    var snapshot := map b | b in list :: b.Fields();
    b => if b in snapshot then snapshot[b] else NoFields
  }

  /** The fields of the stops, in order. */
  function StopFieldsOf(stops: seq<BusStop>): (r: seq<StopFields>)
    reads stops
    ensures |r| == |stops| && forall i :: 0 <= i < |r| ==> r[i] == stops[i].Fields()
  {
    seq(|stops|, i requires 0 <= i < |stops| reads stops => stops[i].Fields())
  }

  /** Sorting the stops and then reading their fields is sorting their fields by distance. */
  lemma SortedFields(list: seq<BusStop>)
    ensures StableSort.MapSeq(SortDistanceArray(list), FieldsOf(list)) == StableSort.Sort(StableSort.MapSeq(list, FieldsOf(list)), Distance)
  {
    StableSort.SortMap(list, FieldsOf(list), DistanceKey(list), Distance);
  }

  /** Sorting keeps the stops: the same number, each from the list. */
  lemma SortedStops(list: seq<BusStop>)
    ensures var sorted := SortDistanceArray(list);
      |sorted| == |list| && forall i :: 0 <= i < |sorted| ==> sorted[i] in list
  {
    var sorted := SortDistanceArray(list);
    assert |sorted| == |multiset(sorted)| == |multiset(list)| == |list|;
    forall i | 0 <= i < |sorted| ensures sorted[i] in list {
      assert sorted[i] in multiset(list);
    }
  }

  /** The fields of the sorted stops are the stops' fields sorted by distance. */
  lemma SortedStopFields(list: seq<BusStop>, items: seq<StopFields>)
    requires StopFieldsOf(list) == items
    ensures StopFieldsOf(SortDistanceArray(list)) == StableSort.Sort(items, Distance)
  {
    var sorted := SortDistanceArray(list);
    var f := FieldsOf(list);
    assert StableSort.MapSeq(list, f) == items;
    SortedFields(list);
    SortedStops(list);
    forall i | 0 <= i < |sorted| ensures StopFieldsOf(sorted)[i] == StableSort.MapSeq(sorted, f)[i] {
      assert sorted[i] in list;
    }
  }

  /** The entries `outputDistanceData` keeps: the first `closestStopCount` in order of distance,
      or all of them when there are fewer. */
  function Nearest(entries: seq<StopFields>): (r: seq<StopFields>)
    ensures |r| == if |entries| < ClosestStopCount then |entries| else ClosestStopCount
    ensures StableSort.Sorted(r, Distance)
    ensures multiset(r) <= multiset(entries)
  {
    var sorted := StableSort.Sort(entries, Distance);
    assert |sorted| == |multiset(sorted)| == |multiset(entries)| == |entries|;
    var n := if |sorted| < ClosestStopCount then |sorted| else ClosestStopCount;
    assert sorted == sorted[..n] + sorted[n..];
    sorted[..n]
  }

  /** No stop left out is nearer than a stop kept. */
  lemma NearestAreNearest(entries: seq<StopFields>)
    ensures forall x, y :: x in Nearest(entries) && y in multiset(entries) - multiset(Nearest(entries)) ==>
      x.distance <= y.distance
  {
    var sorted := StableSort.Sort(entries, Distance);
    var n := |Nearest(entries)|;
    NearestRest(entries);
    forall x, y | x in Nearest(entries) && y in multiset(entries) - multiset(Nearest(entries))
      ensures x.distance <= y.distance
    {
      TopBelowRest(sorted, n, x, y);
    }
  }

  /** The entries kept are the front of the sorted entries, and those left out are the rest. */
  lemma NearestRest(entries: seq<StopFields>)
    ensures var sorted := StableSort.Sort(entries, Distance);
      var n := |Nearest(entries)|;
      && n <= |sorted| && StableSort.Sorted(sorted, Distance)
      && Nearest(entries) == sorted[..n]
      && multiset(entries) - multiset(Nearest(entries)) == multiset(sorted[n..])
  {
    var sorted := StableSort.Sort(entries, Distance);
    var n := |Nearest(entries)|;
    assert |sorted| == |multiset(sorted)| == |multiset(entries)| == |entries|;
    assert Nearest(entries) == sorted[..n];
    PrefixComplement(sorted, n);
  }

  /** What is left of a list's elements after its first `n` is the rest of the list. */
  lemma PrefixComplement<T>(s: seq<T>, n: nat)
    requires n <= |s|
    ensures multiset(s) - multiset(s[..n]) == multiset(s[n..])
  {
    assert s == s[..n] + s[n..];
  }

  lemma TopBelowRest(sorted: seq<StopFields>, n: nat, x: StopFields, y: StopFields)
    requires StableSort.Sorted(sorted, Distance) && n <= |sorted|
    requires x in sorted[..n] && y in sorted[n..]
    ensures x.distance <= y.distance
  {
    var i :| 0 <= i < n && sorted[..n][i] == x;
    var j :| 0 <= j < |sorted| - n && sorted[n..][j] == y;
    assert sorted[i] == x && sorted[n + j] == y;
    assert Distance(sorted[i]) <= Distance(sorted[n + j]);
  }

  /** `outputDistanceData(distanceArray, closestStop)`: appends `distanceArray.get(i)` for
      `i < closestStopCount` and shows `closestStop.get(i).toString()` for each; when the list is
      shorter, `get` throws after the whole list has been appended. */
  method OutputDistanceData(distanceArray: seq<BusStop>, closestStop: seq<BusStop>)
    returns (closest: seq<BusStop>, labels: seq<string>, thrown: Option<Thrown>)
    ensures var n := if |distanceArray| < ClosestStopCount then |distanceArray| else ClosestStopCount;
      && closest == closestStop + distanceArray[..n]
      && |labels| == n
      && (forall i :: 0 <= i < n ==> labels[i] == closest[i].ToString())
      && thrown == if |distanceArray| < ClosestStopCount then Some(IndexOutOfBounds(|distanceArray|, |distanceArray|)) else None
  {
    closest, labels, thrown := closestStop, [], None;
    var i := 0;
    while i < ClosestStopCount
      invariant 0 <= i <= ClosestStopCount && i <= |distanceArray|
      invariant closest == closestStop + distanceArray[..i]
      invariant |labels| == i && forall j :: 0 <= j < i ==> labels[j] == closest[j].ToString()
    {
      if i >= |distanceArray| {
        thrown := Some(IndexOutOfBounds(i, |distanceArray|));
        return;
      }
      closest := closest + [distanceArray[i]];
      assert distanceArray[..i + 1] == distanceArray[..i] + [distanceArray[i]];
      labels := labels + [closest[i].ToString()];
      i := i + 1;
    }
  }
}
