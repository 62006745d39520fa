/** GTFS-Realtime entity correlation and indexing (src/gtfsrt.js).

    The feed sends every train as two entities, `<id>_T` (its trip update)
    and `<id>_V` (its vehicle position). `ParseData` strips the suffix, merges
    both halves into one record per logical trip, drops the stop-time updates
    the feed marks SKIPPED, and indexes the result twice: `trips[tripId]` and
    `stops[stopId]` (the departures at each stop). The decoded protocol
    buffer is the input; `now` stands for the wall clock. */
module GtfsRt {
  import opened Util
  import opened JsText
  import opened PropertyOrder

  /** `TripUpdate.StopTimeUpdate.ScheduleRelationship.SKIPPED` of the
      GTFS Realtime reference. */
  const Skipped: int := 2

  const ParseFailed: Error := Error(5003, "Could not parse the MNR GTFS-RT feed")

  // ------------------------------------------------ decoded FeedMessage

  /** One `stop_time_update`; times are POSIX seconds, `None` when the
      event or its time is absent. `track` and `trainStatus` are the two
      fields of the agency's `status` extension. */
  datatype StopTimeUpdate = StopTimeUpdate(
    stopId: string,
    stopSequence: int,
    arrivalTime: Option<int>,
    departureTime: Option<int>,
    track: Option<string>,
    trainStatus: Option<string>,
    scheduleRelationship: int)

  datatype TripDescriptor = TripDescriptor(tripId: string, routeId: Option<string>, startDate: Option<string>)

  datatype TripUpdate = TripUpdate(trip: TripDescriptor, stopTimeUpdate: seq<StopTimeUpdate>)

  datatype LatLon = LatLon(latitude: real, longitude: real)

  datatype VehiclePosition = VehiclePosition(
    position: Option<LatLon>,
    currentStatus: Option<int>,
    stopId: Option<string>,
    timestamp: Option<int>)

  datatype FeedEntity = FeedEntity(id: string, tripUpdate: Option<TripUpdate>, vehicle: Option<VehiclePosition>)

  /** `headerTimestamp` is `header.timestamp`, `None` when the header or its
      timestamp is absent. */
  datatype FeedMessage = FeedMessage(headerTimestamp: Option<int>, entity: seq<FeedEntity>)

  // ------------------------------------------------------- parsed data

  /** Both halves of one logical trip, as far as the feed supplied them. */
  datatype Combined = Combined(id: string, tripUpdate: Option<TripUpdate>, vehicle: Option<VehiclePosition>)

  /** A kept stop of a trip; times in milliseconds. */
  datatype TripStop = TripStop(
    id: string,
    arrival: Option<int>,
    departure: Option<int>,
    track: Option<string>,
    status: Option<string>,
    sequence: int)

  /** One departure in the per-stop index. */
  datatype StopEntry = StopEntry(
    stopId: string,
    tripId: string,
    arrival: Option<int>,
    departure: Option<int>,
    track: Option<string>,
    status: Option<string>)

  datatype Vehicle = Vehicle(
    lat: Option<real>,
    lon: Option<real>,
    status: Option<int>,
    stop: Option<string>,
    updated: Option<int>)

  datatype TripRecord = TripRecord(
    id: string,
    date: Option<int>,
    route: Option<string>,
    destination: Option<string>,
    stops: seq<TripStop>,
    vehicle: Vehicle)

  datatype Parsed = Parsed(updated: int, trips: map<string, TripRecord>, stops: map<string, seq<StopEntry>>)

  // ------------------------------------------------------- conversions

  /** `_convertTimestamp`: seconds to milliseconds; an absent or zero
      timestamp is `undefined`, so a converted time is never falsy. */
  function ConvertTimestamp(ts: Option<int>): (r: Option<int>)
    ensures r.Some? <==> TruthyInt(ts)
    ensures r.Some? ==> r.value / 1000 == ts.value && r.value % 1000 == 0 && TruthyInt(r)
  {
    if TruthyInt(ts) then Some(ts.value * 1000) else None
  }

  /** `_convertDate`: the `parseInt` of a non-empty start date. `NaN` and
      `undefined` are both `None` here. */
  function ConvertDate(date: Option<string>): Option<int> {
    if TruthyString(date) then ParseInt(date.value) else None
  }

  /** A start date written as a decimal number converts back to that number. */
  lemma ConvertDateDecimal(n: int)
    ensures ConvertDate(Some(DecimalString(n))) == Some(n)
  {
    ParseIntDecimal(n);
    assert |NatDigits(if n < 0 then -n else n)| >= 1;
  }

  /** `updated`: the header timestamp in milliseconds, or the current time
      when the header has none. */
  function Updated(msg: FeedMessage, now: int): (r: int)
    ensures TruthyInt(msg.headerTimestamp) ==> r == msg.headerTimestamp.value * 1000
    ensures !TruthyInt(msg.headerTimestamp) ==> r == now
  {
    if TruthyInt(msg.headerTimestamp) then ConvertTimestamp(msg.headerTimestamp).value else now
  }

  // ------------------------------------------------ logical trip ids

  predicate HasSuffix(s: string, suffix: string) {
    |suffix| <= |s| && s[|s| - |suffix|..] == suffix
  }

  /** `s.replace(/suffix$/, "")` */
  function StripSuffix(s: string, suffix: string): (r: string)
    ensures HasSuffix(s, suffix) ==> r + suffix == s
    ensures !HasSuffix(s, suffix) ==> r == s
  {
    if HasSuffix(s, suffix) then s[..|s| - |suffix|] else s
  }

  /** The entity id with a trailing `_T` removed, then a trailing `_V`. */
  function LogicalId(id: string): string {
    StripSuffix(StripSuffix(id, "_T"), "_V")
  }

  predicate IsTripHalf(id: string) {
    HasSuffix(id, "_T")
  }

  predicate IsVehicleHalf(id: string) {
    HasSuffix(id, "_V")
  }

  /** The two halves of trip `x` share the logical id `x`, and no id is both
      halves. */
  lemma HalvesShareLogicalId(x: string)
    requires !HasSuffix(x, "_V")
    ensures LogicalId(x + "_T") == x && IsTripHalf(x + "_T") && !IsVehicleHalf(x + "_T")
    ensures LogicalId(x + "_V") == x && IsVehicleHalf(x + "_V") && !IsTripHalf(x + "_V")
  {
    var t, v := x + "_T", x + "_V";
    assert t[|t| - 2..] == "_T" && t[..|t| - 2] == x;
    assert v[|v| - 2..] == "_V" && v[..|v| - 2] == x;
  }

  // ------------------------------------------------- combining halves

  /** One iteration of the combining loop (lines 132-144). */
  function CombineStep(c: map<string, Combined>, e: FeedEntity): map<string, Combined> {
    var k := LogicalId(e.id);
    var base := if k in c then c[k] else Combined(k, None, None);
    var withTrip := if IsTripHalf(e.id) then base.(tripUpdate := e.tripUpdate) else base;
    var withVehicle := if IsVehicleHalf(e.id) then withTrip.(vehicle := e.vehicle) else withTrip;
    c[k := withVehicle]
  }

  /** The `combined` dictionary after the first |es| entities. */
  function CombineAll(es: seq<FeedEntity>): map<string, Combined> {
    if es == [] then map[] else CombineStep(CombineAll(es[..|es| - 1]), es[|es| - 1])
  }

  /** The keys of `combined` in the order they were added. */
  function FirstSeen(es: seq<FeedEntity>): seq<string> {
    if es == [] then []
    else
      var prev := es[..|es| - 1];
      var k := LogicalId(es[|es| - 1].id);
      FirstSeen(prev) + (if k in CombineAll(prev) then [] else [k])
  }

  ghost predicate Distinct(ks: seq<string>) {
    forall i, j :: 0 <= i < j < |ks| ==> ks[i] != ks[j]
  }

  /** `combined` has a record for the logical id of every entity ... */
  lemma {:induction false} CombineCovers(es: seq<FeedEntity>)
    ensures forall i :: 0 <= i < |es| ==> LogicalId(es[i].id) in CombineAll(es)
  {
    if es != [] {
      var prev := es[..|es| - 1];
      CombineCovers(prev);
      assert CombineAll(prev).Keys <= CombineAll(es).Keys;
      forall i | 0 <= i < |prev| ensures LogicalId(es[i].id) in CombineAll(es) {
        assert es[i] == prev[i];
      }
    }
  }

  /** ... and for nothing else ... */
  lemma {:induction false} CombineOnlyEntityIds(es: seq<FeedEntity>)
    ensures forall k :: k in CombineAll(es) ==> exists i :: 0 <= i < |es| && LogicalId(es[i].id) == k
  {
    if es != [] {
      var prev := es[..|es| - 1];
      var last := LogicalId(es[|es| - 1].id);
      CombineOnlyEntityIds(prev);
      forall k | k in CombineAll(es) ensures exists i :: 0 <= i < |es| && LogicalId(es[i].id) == k {
        if k == last {
          assert LogicalId(es[|es| - 1].id) == k;
        } else {
          assert k in CombineAll(prev);
          var i :| 0 <= i < |prev| && LogicalId(prev[i].id) == k;
          assert es[i] == prev[i];
        }
      }
    }
  }

  /** ... each record filed under its own id ... */
  lemma {:induction false} CombinedIds(es: seq<FeedEntity>)
    ensures forall k :: k in CombineAll(es) ==> CombineAll(es)[k].id == k
  {
    if es != [] {
      CombinedIds(es[..|es| - 1]);
    }
  }

  /** ... and the insertion order lists every id once. */
  lemma {:induction false} FirstSeenKeys(es: seq<FeedEntity>)
    ensures forall k :: k in FirstSeen(es) <==> k in CombineAll(es)
    ensures Distinct(FirstSeen(es))
  {
    if es != [] {
      FirstSeenKeys(es[..|es| - 1]);
    }
  }

  /** The trip-update half of the last entity of `es` sharing logical id `k`
      and ending in `_T` is at position `j`. */
  ghost predicate LastTripHalfAt(es: seq<FeedEntity>, k: string, j: int) {
    && 0 <= j < |es| && LogicalId(es[j].id) == k && IsTripHalf(es[j].id)
    && forall i :: j < i < |es| && LogicalId(es[i].id) == k ==> !IsTripHalf(es[i].id)
  }

  ghost predicate LastVehicleHalfAt(es: seq<FeedEntity>, k: string, j: int) {
    && 0 <= j < |es| && LogicalId(es[j].id) == k && IsVehicleHalf(es[j].id)
    && forall i :: j < i < |es| && LogicalId(es[i].id) == k ==> !IsVehicleHalf(es[i].id)
  }

  /** One step of the combining loop changes only the record of the
      entity's own logical id, and only the half the entity's suffix names. */
  lemma StepHalves(c: map<string, Combined>, e: FeedEntity, k: string)
    requires k in CombineStep(c, e)
    ensures var r := CombineStep(c, e)[k];
      && (if LogicalId(e.id) == k && IsTripHalf(e.id) then r.tripUpdate == e.tripUpdate
          else if k in c then r.tripUpdate == c[k].tripUpdate
          else r.tripUpdate.None?)
      && (if LogicalId(e.id) == k && IsVehicleHalf(e.id) then r.vehicle == e.vehicle
          else if k in c then r.vehicle == c[k].vehicle
          else r.vehicle.None?)
  {
  }

  /** An entity ending in `_T` sets only the trip-update half: the combined
      trip update is the one of the last such entity (even when that entity
      carries none), and absent when no entity of the trip ends in `_T`. */
  lemma {:induction false} CombinedTripUpdate(es: seq<FeedEntity>, k: string, j: int)
    requires k in CombineAll(es)
    ensures (forall i :: 0 <= i < |es| && LogicalId(es[i].id) == k ==> !IsTripHalf(es[i].id))
            ==> CombineAll(es)[k].tripUpdate.None?
    ensures LastTripHalfAt(es, k, j) ==> CombineAll(es)[k].tripUpdate == es[j].tripUpdate
  {
    var prev := es[..|es| - 1];
    var e := es[|es| - 1];
    assert CombineAll(es) == CombineStep(CombineAll(prev), e);
    StepHalves(CombineAll(prev), e, k);
    if LogicalId(e.id) == k && IsTripHalf(e.id) {
    } else if k in CombineAll(prev) {
      CombinedTripUpdate(prev, k, j);
      if LastTripHalfAt(es, k, j) {
        assert LogicalId(es[j].id) == k && IsTripHalf(es[j].id);
        assert j != |es| - 1;
        assert prev[j] == es[j];
        assert LastTripHalfAt(prev, k, j) by {
          forall i | j < i < |prev| && LogicalId(prev[i].id) == k ensures !IsTripHalf(prev[i].id) {
            assert prev[i] == es[i];
          }
        }
      }
      forall i | 0 <= i < |prev| && LogicalId(prev[i].id) == k ensures prev[i] == es[i] { }
    } else {
      CombineCovers(prev);
      assert !LastTripHalfAt(es, k, j) by {
        if 0 <= j < |prev| { assert prev[j] == es[j]; }
      }
    }
  }

  /** An entity ending in `_V` sets only the vehicle half, in the same
      last-one-wins way. */
  lemma {:induction false} CombinedVehicle(es: seq<FeedEntity>, k: string, j: int)
    requires k in CombineAll(es)
    ensures (forall i :: 0 <= i < |es| && LogicalId(es[i].id) == k ==> !IsVehicleHalf(es[i].id))
            ==> CombineAll(es)[k].vehicle.None?
    ensures LastVehicleHalfAt(es, k, j) ==> CombineAll(es)[k].vehicle == es[j].vehicle
  {
    var prev := es[..|es| - 1];
    var e := es[|es| - 1];
    assert CombineAll(es) == CombineStep(CombineAll(prev), e);
    StepHalves(CombineAll(prev), e, k);
    if LogicalId(e.id) == k && IsVehicleHalf(e.id) {
    } else if k in CombineAll(prev) {
      CombinedVehicle(prev, k, j);
      if LastVehicleHalfAt(es, k, j) {
        assert LogicalId(es[j].id) == k && IsVehicleHalf(es[j].id);
        assert j != |es| - 1;
        assert prev[j] == es[j];
        assert LastVehicleHalfAt(prev, k, j) by {
          forall i | j < i < |prev| && LogicalId(prev[i].id) == k ensures !IsVehicleHalf(prev[i].id) {
            assert prev[i] == es[i];
          }
        }
      }
      forall i | 0 <= i < |prev| && LogicalId(prev[i].id) == k ensures prev[i] == es[i] { }
    } else {
      CombineCovers(prev);
      assert !LastVehicleHalfAt(es, k, j) by {
        if 0 <= j < |prev| { assert prev[j] == es[j]; }
      }
    }
  }

  /** A trip-update entity `x_T` and a vehicle entity `x_V` end up in one
      combined record `x` holding both halves. */
  lemma PairedHalves(es: seq<FeedEntity>, x: string, i: int, j: int)
    requires !HasSuffix(x, "_V")
    requires 0 <= i < |es| && es[i].id == x + "_T"
    requires 0 <= j < |es| && es[j].id == x + "_V"
    requires forall n :: i < n < |es| && LogicalId(es[n].id) == x ==> !IsTripHalf(es[n].id)
    requires forall n :: j < n < |es| && LogicalId(es[n].id) == x ==> !IsVehicleHalf(es[n].id)
    ensures x in CombineAll(es)
    ensures CombineAll(es)[x] == Combined(x, es[i].tripUpdate, es[j].vehicle)
  {
    HalvesShareLogicalId(x);
    assert LastTripHalfAt(es, x, i);
    assert LastVehicleHalfAt(es, x, j);
    CombineCovers(es);
    assert x in CombineAll(es) by { assert LogicalId(es[i].id) == x; }
    CombinedIds(es);
    CombinedTripUpdate(es, x, i);
    CombinedVehicle(es, x, j);
    var c := CombineAll(es)[x];
    assert c.id == x && c.tripUpdate == es[i].tripUpdate && c.vehicle == es[j].vehicle;
  }

  // ------------------------------------------------------ trip records

  predicate NotSkipped(u: StopTimeUpdate) {
    u.scheduleRelationship != Skipped
  }

  function ToTripStop(u: StopTimeUpdate): TripStop {
    TripStop(u.stopId, ConvertTimestamp(u.arrivalTime), ConvertTimestamp(u.departureTime),
             u.track, u.trainStatus, u.stopSequence)
  }

  /** `trip_stops`: the kept updates, in feed order. */
  function KeptStops(us: seq<StopTimeUpdate>): (r: seq<TripStop>)
    ensures |r| <= |us|
  {
    if us == [] then []
    else
      var u := us[|us| - 1];
      KeptStops(us[..|us| - 1]) + (if NotSkipped(u) then [ToTripStop(u)] else [])
  }

  /** A trip stop is listed exactly when a kept update produced it; SKIPPED
      updates leave no trace. */
  lemma {:induction false} KeptStopsExactly(us: seq<StopTimeUpdate>)
    ensures forall t :: t in KeptStops(us) <==> exists i :: 0 <= i < |us| && NotSkipped(us[i]) && t == ToTripStop(us[i])
  {
    if us != [] {
      var prev := us[..|us| - 1];
      KeptStopsExactly(prev);
      assert forall i :: 0 <= i < |prev| ==> prev[i] == us[i];
      forall t | exists i :: 0 <= i < |us| && NotSkipped(us[i]) && t == ToTripStop(us[i])
        ensures t in KeptStops(us)
      {
        var i :| 0 <= i < |us| && NotSkipped(us[i]) && t == ToTripStop(us[i]);
        if i < |prev| { assert NotSkipped(prev[i]) && t == ToTripStop(prev[i]); }
      }
    }
  }

  /** The last trip stop comes from the last kept update, and there is none
      when every update was skipped. */
  lemma {:induction false} LastKeptStop(us: seq<StopTimeUpdate>, j: int)
    ensures (forall i :: 0 <= i < |us| ==> !NotSkipped(us[i])) ==> KeptStops(us) == []
    ensures 0 <= j < |us| && NotSkipped(us[j]) && (forall i :: j < i < |us| ==> !NotSkipped(us[i]))
            ==> KeptStops(us) != [] && KeptStops(us)[|KeptStops(us)| - 1] == ToTripStop(us[j])
  {
    if us != [] {
      var prev := us[..|us| - 1];
      assert forall i :: 0 <= i < |prev| ==> prev[i] == us[i];
      LastKeptStop(prev, j);
    }
  }

  function VehicleOf(v: Option<VehiclePosition>): Vehicle {
    match v
    case None => Vehicle(None, None, None, None, None)
    case Some(p) =>
      Vehicle(if p.position.Some? then Some(p.position.value.latitude) else None,
              if p.position.Some? then Some(p.position.value.longitude) else None,
              p.currentStatus, p.stopId, ConvertTimestamp(p.timestamp))
  }

  /** The `trips[tripId]` record built from a combined record (lines 150-217). */
  function TripRecordOf(tripId: string, c: Combined): TripRecord
    requires c.tripUpdate.Some?
  {
    var tu := c.tripUpdate.value;
    var stops := KeptStops(tu.stopTimeUpdate);
    TripRecord(tripId, ConvertDate(tu.trip.startDate), tu.trip.routeId,
               if stops == [] then None else Some(stops[|stops| - 1].id),
               stops, VehicleOf(c.vehicle))
  }

  /** The destination of a trip is the stop of its last kept update, or
      undefined when every update was skipped. */
  lemma DestinationIsLastKept(tripId: string, c: Combined, j: int)
    requires c.tripUpdate.Some?
    ensures var us := c.tripUpdate.value.stopTimeUpdate;
      (forall i :: 0 <= i < |us| ==> !NotSkipped(us[i])) ==> TripRecordOf(tripId, c).destination.None?
    ensures var us := c.tripUpdate.value.stopTimeUpdate;
      0 <= j < |us| && NotSkipped(us[j]) && (forall i :: j < i < |us| ==> !NotSkipped(us[i]))
      ==> TripRecordOf(tripId, c).destination == Some(us[j].stopId)
  {
    LastKeptStop(c.tripUpdate.value.stopTimeUpdate, j);
  }

  // ------------------------------------------------------ stop index

  function EntryOf(tripId: string, t: TripStop): StopEntry {
    StopEntry(t.id, tripId, t.arrival, t.departure, t.track, t.status)
  }

  /** `stops[e.stopId].push(e)`, creating the list on first use. */
  function Push(index: map<string, seq<StopEntry>>, e: StopEntry): map<string, seq<StopEntry>> {
    index[e.stopId := (if e.stopId in index then index[e.stopId] else []) + [e]]
  }

  /** The index after adding the departures of trip `tripId` at its stops. */
  function AddEntries(index: map<string, seq<StopEntry>>, tripId: string, stops: seq<TripStop>): map<string, seq<StopEntry>> {
    if stops == [] then index
    else Push(AddEntries(index, tripId, stops[..|stops| - 1]), EntryOf(tripId, stops[|stops| - 1]))
  }

  /** The index built from trip records visited in order. */
  function BuildIndex(recs: seq<TripRecord>): map<string, seq<StopEntry>> {
    if recs == [] then map[]
    else
      var r := recs[|recs| - 1];
      AddEntries(BuildIndex(recs[..|recs| - 1]), r.id, r.stops)
  }

  /** The departures of one trip, in the order of its stops. */
  function EntriesFor(tripId: string, stops: seq<TripStop>): (r: seq<StopEntry>)
    ensures |r| == |stops|
    ensures forall i :: 0 <= i < |stops| ==> r[i] == EntryOf(tripId, stops[i])
  {
    if stops == [] then []
    else EntriesFor(tripId, stops[..|stops| - 1]) + [EntryOf(tripId, stops[|stops| - 1])]
  }

  /** Every departure of every trip, in visiting order. */
  function AllEntries(recs: seq<TripRecord>): seq<StopEntry> {
    if recs == [] then []
    else
      var r := recs[|recs| - 1];
      AllEntries(recs[..|recs| - 1]) + EntriesFor(r.id, r.stops)
  }

  /** The departures of `es` at stop `s`, in order. */
  function EntriesAt(es: seq<StopEntry>, s: string): seq<StopEntry> {
    if es == [] then []
    else
      var e := es[|es| - 1];
      EntriesAt(es[..|es| - 1], s) + (if e.stopId == s then [e] else [])
  }

  /** `index` lists at each stop exactly the departures of `all` at that
      stop, in order, and has no key for a stop without departures. */
  ghost predicate Indexes(index: map<string, seq<StopEntry>>, all: seq<StopEntry>) {
    forall s :: (s in index <==> EntriesAt(all, s) != []) && (s in index ==> index[s] == EntriesAt(all, s))
  }

  lemma PushIndexes(index: map<string, seq<StopEntry>>, all: seq<StopEntry>, e: StopEntry)
    requires Indexes(index, all)
    ensures Indexes(Push(index, e), all + [e])
  {
    assert (all + [e])[..|all|] == all;
  }

  lemma {:induction false} AddEntriesIndexes(index: map<string, seq<StopEntry>>, all: seq<StopEntry>, tripId: string, stops: seq<TripStop>)
    requires Indexes(index, all)
    ensures Indexes(AddEntries(index, tripId, stops), all + EntriesFor(tripId, stops))
  {
    if stops == [] {
      assert all + [] == all;
    } else {
      var prev := stops[..|stops| - 1];
      AddEntriesIndexes(index, all, tripId, prev);
      PushIndexes(AddEntries(index, tripId, prev), all + EntriesFor(tripId, prev), EntryOf(tripId, stops[|stops| - 1]));
      assert all + EntriesFor(tripId, prev) + [EntryOf(tripId, stops[|stops| - 1])] == all + EntriesFor(tripId, stops);
    }
  }

  /** The per-stop index built by the parser lists, under each stop, exactly
      the departures of all trips at that stop, in visiting order; a stop
      with no kept update has no entry. Each kept update therefore yields
      one index entry, under its own stop. */
  lemma {:induction false} BuildIndexIsFilter(recs: seq<TripRecord>)
    ensures Indexes(BuildIndex(recs), AllEntries(recs))
  {
    if recs != [] {
      var r := recs[|recs| - 1];
      BuildIndexIsFilter(recs[..|recs| - 1]);
      AddEntriesIndexes(BuildIndex(recs[..|recs| - 1]), AllEntries(recs[..|recs| - 1]), r.id, r.stops);
    }
  }

  /** One departure per stop of each trip, and nothing else. */
  lemma {:induction false} AllEntriesExactly(recs: seq<TripRecord>)
    ensures forall e :: e in AllEntries(recs) <==>
      exists i, n :: 0 <= i < |recs| && 0 <= n < |recs[i].stops| && e == EntryOf(recs[i].id, recs[i].stops[n])
  {
    if recs != [] {
      var prev := recs[..|recs| - 1];
      var r := recs[|recs| - 1];
      AllEntriesExactly(prev);
      assert forall i :: 0 <= i < |prev| ==> prev[i] == recs[i];
      forall e | exists i, n :: 0 <= i < |recs| && 0 <= n < |recs[i].stops| && e == EntryOf(recs[i].id, recs[i].stops[n])
        ensures e in AllEntries(recs)
      {
        var i, n :| 0 <= i < |recs| && 0 <= n < |recs[i].stops| && e == EntryOf(recs[i].id, recs[i].stops[n]);
        if i < |prev| {
          assert e in AllEntries(prev);
        } else {
          assert EntriesFor(r.id, r.stops)[n] == e;
        }
      }
    }
  }

  lemma EntriesAtMember(es: seq<StopEntry>, s: string)
    ensures forall e :: e in EntriesAt(es, s) <==> e in es && e.stopId == s
  {
    if es != [] {
      EntriesAtMember(es[..|es| - 1], s);
      assert es == es[..|es| - 1] + [es[|es| - 1]];
    }
  }

  // ------------------------------------------------------------ parse

  /** The records of the given trips, in order. */
  function RecordsOf(order: seq<string>, combined: map<string, Combined>): (r: seq<TripRecord>)
    requires forall k :: k in order ==> k in combined && combined[k].tripUpdate.Some?
    ensures |r| == |order|
    ensures forall i :: 0 <= i < |order| ==> r[i] == TripRecordOf(order[i], combined[order[i]])
  {
    if order == [] then []
    else RecordsOf(order[..|order| - 1], combined) + [TripRecordOf(order[|order| - 1], combined[order[|order| - 1]])]
  }

  /** Some combined record lacks its trip-update half. */
  predicate MissingTripHalf(combined: map<string, Combined>) {
    exists k :: k in combined && combined[k].tripUpdate.None?
  }

  /** Visiting the combined records in `order`: the first record without a
      trip-update half fails the whole parse (line 157 dereferences it);
      otherwise both indexes are built. */
  function WalkSpec(combined: map<string, Combined>, order: seq<string>, updated: int): Result<Parsed>
    requires forall k :: k in order ==> k in combined
  {
    if exists k :: k in order && combined[k].tripUpdate.None? then Err(ParseFailed)
    else Ok(Parsed(updated, TripsOf(combined, order), BuildIndex(RecordsOf(order, combined))))
  }

  /** `trips`: the record of each visited trip under its id. */
  function TripsOf(combined: map<string, Combined>, order: seq<string>): map<string, TripRecord>
    requires forall k :: k in order ==> k in combined && combined[k].tripUpdate.Some?
  {
    map k | k in order :: TripRecordOf(k, combined[k])
  }

  /** The records of `combined`, in `Object.entries` order. */
  function VisitOrder(es: seq<FeedEntity>): seq<string> {
    EnumerationOrder(FirstSeen(es))
  }

  /** The visiting order lists exactly the combined records ... */
  lemma VisitOrderKeys(es: seq<FeedEntity>)
    ensures forall k :: k in VisitOrder(es) <==> k in CombineAll(es)
  {
    FirstSeenKeys(es);
    var keys := FirstSeen(es);
    EnumerationOrderIsPermutation(keys);
    var order := VisitOrder(es);
    forall k ensures k in order <==> k in CombineAll(es) {
      assert k in order <==> k in multiset(order);
      assert k in keys <==> k in multiset(keys);
    }
  }

  /** ... each once. */
  lemma VisitOrderDistinct(es: seq<FeedEntity>)
    ensures Distinct(VisitOrder(es))
  {
    FirstSeenKeys(es);
    var keys := FirstSeen(es);
    EnumerationOrderIsPermutation(keys);
    var order := VisitOrder(es);
    forall i, j | 0 <= i < j < |order| ensures order[i] != order[j] {
      if order[i] == order[j] {
        DistinctCount(keys, order[i]);
        CountTwo(order, i, j);
        assert false;
      }
    }
  }

  /** A key of a duplicate-free list occurs in it once. */
  lemma {:induction false} DistinctCount(ks: seq<string>, k: string)
    requires Distinct(ks)
    ensures multiset(ks)[k] <= 1
  {
    if ks != [] {
      var prev := ks[..|ks| - 1];
      assert ks == prev + [ks[|ks| - 1]];
      DistinctCount(prev, k);
      if ks[|ks| - 1] == k {
        assert k !in prev by {
          forall i | 0 <= i < |prev| ensures prev[i] != k { assert prev[i] == ks[i]; }
        }
      }
    }
  }

  lemma CountTwo(ks: seq<string>, i: int, j: int)
    requires 0 <= i < j < |ks| && ks[i] == ks[j]
    ensures multiset(ks)[ks[i]] >= 2
  {
    assert ks == ks[..i] + [ks[i]] + ks[i + 1..j] + [ks[j]] + ks[j + 1..];
  }

  /** What `_parseData` hands to its callback (lines 121-234). */
  function ParseSpec(msg: FeedMessage, now: int): Result<Parsed> {
    VisitOrderKeys(msg.entity);
    WalkSpec(CombineAll(msg.entity), VisitOrder(msg.entity), Updated(msg, now))
  }

  /** The parse fails, with code 5003, exactly when some logical trip has no
      entity ending in `_T`, or its last one carries no trip update. */
  lemma ParseFailsIffTripHalfMissing(msg: FeedMessage, now: int)
    ensures ParseSpec(msg, now).Err? <==> MissingTripHalf(CombineAll(msg.entity))
    ensures ParseSpec(msg, now).Err? ==> ParseSpec(msg, now).error == ParseFailed
  {
    VisitOrderKeys(msg.entity);
  }

  /** A successful parse has one trip record per logical trip of the feed,
      built from its combined halves, and its time is the feed's. */
  lemma ParsedTrips(msg: FeedMessage, now: int)
    requires ParseSpec(msg, now).Ok?
    ensures var p := ParseSpec(msg, now).value; var c := CombineAll(msg.entity);
      && p.updated == Updated(msg, now)
      && (forall k :: k in p.trips <==> exists i :: 0 <= i < |msg.entity| && LogicalId(msg.entity[i].id) == k)
      && (forall k :: k in p.trips ==> k in c && c[k].tripUpdate.Some? && p.trips[k] == TripRecordOf(k, c[k]) && p.trips[k].id == k)
  {
    var c := CombineAll(msg.entity);
    var order := VisitOrder(msg.entity);
    VisitOrderKeys(msg.entity);
    assert ParseSpec(msg, now) == WalkSpec(c, order, Updated(msg, now));
    WalkTrips(c, order, Updated(msg, now));
    var p := ParseSpec(msg, now).value;
    assert forall k :: k in p.trips <==> k in c;
    forall k ensures k in p.trips <==> exists i :: 0 <= i < |msg.entity| && LogicalId(msg.entity[i].id) == k {
      CombineCovers(msg.entity);
      CombineOnlyEntityIds(msg.entity);
    }
  }

  lemma WalkTrips(c: map<string, Combined>, order: seq<string>, updated: int)
    requires forall k :: k in order ==> k in c
    requires WalkSpec(c, order, updated).Ok?
    ensures var p := WalkSpec(c, order, updated).value;
      && p.updated == updated
      && (forall k :: k in p.trips <==> k in order)
      && (forall k :: k in p.trips ==> c[k].tripUpdate.Some? && p.trips[k] == TripRecordOf(k, c[k]) && p.trips[k].id == k)
  {
  }

  /** The per-stop index of a successful parse lists at each stop exactly
      the departures of all trips at that stop, in visiting order, and has
      no key for a stop no trip serves; each kept stop-time update thus
      yields one index entry, under its own stop. */
  lemma ParsedIndex(msg: FeedMessage, now: int)
    requires ParseSpec(msg, now).Ok?
    ensures forall k :: k in VisitOrder(msg.entity) ==> k in CombineAll(msg.entity) && CombineAll(msg.entity)[k].tripUpdate.Some?
    ensures Indexes(ParseSpec(msg, now).value.stops, AllEntries(RecordsOf(VisitOrder(msg.entity), CombineAll(msg.entity))))
  {
    var c := CombineAll(msg.entity);
    var order := VisitOrder(msg.entity);
    VisitOrderKeys(msg.entity);
    assert ParseSpec(msg, now) == WalkSpec(c, order, Updated(msg, now));
    BuildIndexIsFilter(RecordsOf(order, c));
  }

  /** Departure `e` is the record of one of the stops of its trip. */
  ghost predicate FromTrip(p: Parsed, e: StopEntry) {
    e.tripId in p.trips && exists t :: t in p.trips[e.tripId].stops && e == EntryOf(e.tripId, t)
  }

  /** Stop `t` of trip `k` has its departure in the per-stop index. */
  ghost predicate Indexed(p: Parsed, k: string, t: TripStop) {
    t.id in p.stops && EntryOf(k, t) in p.stops[t.id]
  }

  /** Every departure in the per-stop index is filed under its own stop and
      is the record of that stop in its trip. */
  lemma WalkEntriesFromTrips(c: map<string, Combined>, order: seq<string>, updated: int, p: Parsed)
    requires forall k :: k in order ==> k in c
    requires WalkSpec(c, order, updated) == Ok(p)
    ensures forall s, e :: s in p.stops && e in p.stops[s] ==> e.stopId == s && FromTrip(p, e)
  {
    var recs := RecordsOf(order, c);
    var all := AllEntries(recs);
    BuildIndexIsFilter(recs);
    AllEntriesExactly(recs);
    forall s, e | s in p.stops && e in p.stops[s]
      ensures e.stopId == s && FromTrip(p, e)
    {
      EntriesAtMember(all, s);
      assert e in all;
      var i, n :| 0 <= i < |recs| && 0 <= n < |recs[i].stops| && e == EntryOf(recs[i].id, recs[i].stops[n]);
      assert recs[i] == TripRecordOf(order[i], c[order[i]]);
      assert e.tripId == order[i] && order[i] in order;
      assert p.trips[e.tripId] == recs[i];
      assert recs[i].stops[n] in p.trips[e.tripId].stops;
    }
  }

  /** Every kept stop of every trip has its departure in the index. */
  lemma WalkTripsIndexed(c: map<string, Combined>, order: seq<string>, updated: int, p: Parsed)
    requires forall k :: k in order ==> k in c
    requires WalkSpec(c, order, updated) == Ok(p)
    ensures forall k, t :: k in p.trips && t in p.trips[k].stops ==> Indexed(p, k, t)
  {
    var recs := RecordsOf(order, c);
    var all := AllEntries(recs);
    BuildIndexIsFilter(recs);
    AllEntriesExactly(recs);
    forall k, t | k in p.trips && t in p.trips[k].stops
      ensures Indexed(p, k, t)
    {
      assert k in order;
      var i :| 0 <= i < |order| && order[i] == k;
      assert recs[i] == p.trips[k];
      var n :| 0 <= n < |recs[i].stops| && recs[i].stops[n] == t;
      assert EntryOf(k, t) in all;
      EntriesAtMember(all, t.id);
    }
  }

  lemma CombinePrefix(es: seq<FeedEntity>, i: int)
    requires 0 <= i < |es|
    ensures CombineAll(es[..i + 1]) == CombineStep(CombineAll(es[..i]), es[i])
    ensures var k := LogicalId(es[i].id);
      FirstSeen(es[..i + 1]) == FirstSeen(es[..i]) + (if k in CombineAll(es[..i]) then [] else [k])
  {
    assert es[..i + 1][..i] == es[..i];
  }

  /** The combining loop (lines 131-144). */
  method CombineEntities(entities: seq<FeedEntity>) returns (combined: map<string, Combined>, keys: seq<string>)
    ensures combined == CombineAll(entities)
    ensures keys == FirstSeen(entities)
  {
    combined := map[];
    keys := [];
    var i := 0;
    while i < |entities|
      invariant 0 <= i <= |entities|
      invariant combined == CombineAll(entities[..i])
      invariant keys == FirstSeen(entities[..i])
    {
      var entity := entities[i];
      var tripId := LogicalId(entity.id);
      var record := if tripId in combined then combined[tripId] else Combined(tripId, None, None);
      if tripId !in combined {
        keys := keys + [tripId];
      }
      if IsTripHalf(entity.id) {
        record := record.(tripUpdate := entity.tripUpdate);
      }
      if IsVehicleHalf(entity.id) {
        record := record.(vehicle := entity.vehicle);
      }
      CombinePrefix(entities, i);
      combined := combined[tripId := record];
      i := i + 1;
    }
    assert entities[..i] == entities;
  }

  lemma KeptStopsPrefix(us: seq<StopTimeUpdate>, j: int)
    requires 0 <= j < |us|
    ensures KeptStops(us[..j + 1]) == KeptStops(us[..j]) + (if NotSkipped(us[j]) then [ToTripStop(us[j])] else [])
  {
    assert us[..j + 1][..j] == us[..j];
  }

  lemma AddEntriesSnoc(index: map<string, seq<StopEntry>>, tripId: string, stops: seq<TripStop>, t: TripStop)
    ensures AddEntries(index, tripId, stops + [t]) == Push(AddEntries(index, tripId, stops), EntryOf(tripId, t))
  {
    assert (stops + [t])[..|stops|] == stops;
  }

  /** The stop-time loop of one trip (lines 169-209): the kept stops, and
      the per-stop index with this trip's departures appended. */
  method CollectStops(tripId: string, updates: seq<StopTimeUpdate>, index: map<string, seq<StopEntry>>)
    returns (tripStops: seq<TripStop>, stops: map<string, seq<StopEntry>>)
    ensures tripStops == KeptStops(updates)
    ensures stops == AddEntries(index, tripId, tripStops)
  {
    tripStops := [];
    stops := index;
    var j := 0;
    while j < |updates|
      invariant 0 <= j <= |updates|
      invariant tripStops == KeptStops(updates[..j])
      invariant stops == AddEntries(index, tripId, tripStops)
    {
      var u := updates[j];
      KeptStopsPrefix(updates, j);
      if u.scheduleRelationship != Skipped {
        var t := TripStop(u.stopId, ConvertTimestamp(u.arrivalTime), ConvertTimestamp(u.departureTime),
                          u.track, u.trainStatus, u.stopSequence);
        var list := if u.stopId in stops then stops[u.stopId] else [];
        AddEntriesSnoc(index, tripId, tripStops, t);
        tripStops := tripStops + [t];
        stops := stops[u.stopId := list + [EntryOf(tripId, t)]];
      }
      j := j + 1;
    }
    assert updates[..j] == updates;
  }

  /** The record of one combined trip (lines 151-216), and the per-stop
      index with its departures appended. */
  method BuildRecord(tripId: string, entity: Combined, index: map<string, seq<StopEntry>>)
    returns (record: TripRecord, stops: map<string, seq<StopEntry>>)
    requires entity.tripUpdate.Some?
    ensures record == TripRecordOf(tripId, entity)
    ensures stops == AddEntries(index, tripId, record.stops)
  {
    var vehicle := VehicleOf(entity.vehicle);
    var tripUpdate := entity.tripUpdate.value;
    var tripDate := ConvertDate(tripUpdate.trip.startDate);
    var tripStops;
    tripStops, stops := CollectStops(tripId, tripUpdate.stopTimeUpdate, index);
    var destination := if |tripStops| > 0 then Some(tripStops[|tripStops| - 1].id) else None;
    record := TripRecord(tripId, tripDate, tripUpdate.trip.routeId, destination, tripStops, vehicle);
  }

  /** The visiting loop (lines 150-217). */
  method Walk(combined: map<string, Combined>, order: seq<string>, updated: int) returns (r: Result<Parsed>)
    requires forall k :: k in order ==> k in combined
    ensures r == WalkSpec(combined, order, updated)
  {
    var stops: map<string, seq<StopEntry>> := map[];
    var trips: map<string, TripRecord> := map[];
    ghost var recs: seq<TripRecord> := [];
    var n := 0;
    while n < |order|
      invariant 0 <= n <= |order|
      invariant forall i :: 0 <= i < n ==> combined[order[i]].tripUpdate.Some?
      invariant trips == TripsOf(combined, order[..n])
      invariant recs == RecordsOf(order[..n], combined)
      invariant stops == BuildIndex(recs)
    {
      var tripId := order[n];
      var entity := combined[tripId];
      if entity.tripUpdate.None? {
        assert tripId in order && combined[tripId].tripUpdate.None?;
        return Err(ParseFailed);
      }
      var record;
      record, stops := BuildRecord(tripId, entity, stops);
      RecordsOfPrefix(combined, order, n);
      TripsOfPrefix(combined, order, n);
      trips := trips[tripId := record];
      BuildIndexSnoc(recs, record);
      recs := recs + [record];
      n := n + 1;
    }
    assert order[..n] == order;
    r := Ok(Parsed(updated, trips, stops));
  }

  lemma TripsOfPrefix(combined: map<string, Combined>, order: seq<string>, n: int)
    requires forall k :: k in order ==> k in combined
    requires 0 <= n < |order|
    requires forall i :: 0 <= i <= n ==> combined[order[i]].tripUpdate.Some?
    ensures TripsOf(combined, order[..n + 1])
            == TripsOf(combined, order[..n])[order[n] := TripRecordOf(order[n], combined[order[n]])]
  {
    assert forall k :: k in order[..n + 1] <==> k in order[..n] || k == order[n] by {
      assert order[..n + 1] == order[..n] + [order[n]];
    }
  }

  lemma RecordsOfPrefix(combined: map<string, Combined>, order: seq<string>, n: int)
    requires forall k :: k in order ==> k in combined
    requires 0 <= n < |order|
    requires forall i :: 0 <= i <= n ==> combined[order[i]].tripUpdate.Some?
    ensures forall k :: k in order[..n + 1] <==> k in order[..n] || k == order[n]
    ensures RecordsOf(order[..n + 1], combined)
            == RecordsOf(order[..n], combined) + [TripRecordOf(order[n], combined[order[n]])]
  {
    assert order[..n + 1] == order[..n] + [order[n]];
    assert order[..n + 1][..n] == order[..n];
  }

  lemma BuildIndexSnoc(recs: seq<TripRecord>, r: TripRecord)
    ensures BuildIndex(recs + [r]) == AddEntries(BuildIndex(recs), r.id, r.stops)
  {
    assert (recs + [r])[..|recs|] == recs;
  }

  /** `_parseData` (lines 121-234): combine the halves, then walk the
      combined records in `Object.entries` order. */
  method ParseData(msg: FeedMessage, now: int) returns (r: Result<Parsed>)
    ensures r == ParseSpec(msg, now)
  {
    var updated := if TruthyInt(msg.headerTimestamp) then msg.headerTimestamp.value * 1000 else now;
    var combined, keys := CombineEntities(msg.entity);
    var order := EnumerationOrder(keys);
    VisitOrderKeys(msg.entity);
    r := Walk(combined, order, updated);
  }
}
