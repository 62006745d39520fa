/** The station feed (src/feed.js): the departures the GTFS-Realtime data
    lists at one origin stop, each decorated with a status text, a delay
    and the position of its train, filtered to a time window and sorted.

    The static schedule database is a value (`Db`), its queries are map
    lookups, `now` and the time zone are inputs, and the sort order of
    departures is a key function supplied by the caller. */
module Feed {
  import opened Util
  import opened JsText
  import opened GtfsRt
  import opened GtfsRtCache

  /** How long after departure (s) a departed train is still shown. */
  const DepartedTime: int := 5 * 60
  /** How far ahead (s) departures are shown. */
  const MaxTime: int := 3 * 60 * 60

  const Unsupported: Error := Error(4007, "Unsupported Station")

  // -------------------------------------------------- schedule database

  /** A stop of the schedule; `statusId` `"-1"` means it has no real-time
      information. */
  datatype Stop = Stop(id: string, name: string, statusId: string)

  /** A scheduled stop time: the departure in seconds after midnight of the
      service day, and the position of the stop in its trip. */
  datatype StopTime = StopTime(departure: int, stopSequence: int)

  /** A scheduled trip and its stop times by stop id. */
  datatype Trip = Trip(id: string, stopTimes: map<string, StopTime>)

  datatype TripKey = TripKey(id: string, date: Option<int>)

  /** The schedule: stops by id, and trips by id and service date. */
  datatype Db = Db(stops: map<string, Stop>, trips: map<TripKey, Trip>)

  function GetStop(db: Db, id: string): (r: Option<Stop>)
    ensures r.Some? <==> id in db.stops
    ensures r.Some? ==> r.value == db.stops[id]
  {
    if id in db.stops then Some(db.stops[id]) else None
  }

  function GetTrip(db: Db, key: TripKey): (r: Option<Trip>)
    ensures r.Some? <==> key in db.trips
    ensures r.Some? ==> r.value == db.trips[key]
  {
    if key in db.trips then Some(db.trips[key]) else None
  }

  // ------------------------------------------------------------ times

  /** A date-time: an instant in milliseconds (from the real-time feed or
      the clock), or a scheduled time in seconds after midnight. */
  datatype Time = Instant(ms: int) | ScheduleTime(seconds: int)

  /** The clock (ms) and the zone offset (s) of local time. */
  datatype Env = Env(now: int, zone: int)

  /** `getTimeSeconds()`: seconds after local midnight. */
  function TimeSeconds(t: Time, zone: int): (r: int)
    ensures t.Instant? ==> 0 <= r < 86400
    ensures t.ScheduleTime? ==> r == t.seconds
  {
    match t
    case Instant(ms) => (ms / 1000 + zone) % 86400
    case ScheduleTime(s) => s
  }

  // ------------------------------------------------------- departures

  datatype Position = Position(lat: real, lon: real, description: string, updated: Time)

  datatype Status = Status(text: string, delay: int, estimated: Option<Time>, track: Option<string>, scheduled: bool)

  datatype Departure = Departure(
    scheduled: Option<Time>,
    destination: Option<Stop>,
    trip: Option<Trip>,
    status: Status,
    position: Option<Position>)

  datatype StationFeed = StationFeed(origin: Stop, updated: Time, departures: seq<Departure>)

  /** `departure.departure || departure.arrival`: the departure time when it
      is truthy, else the arrival time (ms; `None` is `undefined`). */
  function EventTime(e: StopEntry): (r: Option<int>)
    ensures TruthyInt(e.departure) ==> r == e.departure
    ensures !TruthyInt(e.departure) ==> r == e.arrival
  {
    if TruthyInt(e.departure) then e.departure else e.arrival
  }

  /** The estimated departure, defined only when the event time is truthy. */
  function Estimated(e: StopEntry): (r: Option<Time>)
    ensures r.Some? <==> TruthyInt(EventTime(e))
    ensures r.Some? ==> r.value == Instant(EventTime(e).value)
  {
    var t := EventTime(e);
    if TruthyInt(t) then Some(Instant(t.value)) else None
  }

  /** `vehicle?.stop || ""` */
  function VehicleStopId(v: Vehicle): (r: string)
    ensures TruthyString(v.stop) ==> r == v.stop.value
    ensures !TruthyString(v.stop) ==> r == ""
  {
    if TruthyString(v.stop) then v.stop.value else ""
  }

  /** The vehicle description, for a resolved vehicle stop and a
      `VehicleStopStatus` of 0 (INCOMING_AT), 1 (STOPPED_AT) or 2
      (IN_TRANSIT_TO). */
  function Description(vehicleStop: Option<Stop>, status: Option<int>): (r: Option<string>)
    ensures r.Some? <==> vehicleStop.Some? && status.Some? && 0 <= status.value <= 2
    ensures r.Some? && status == Some(0) ==> r.value == "Arriving at " + vehicleStop.value.name
    ensures r.Some? && status == Some(1) ==> r.value == "Stopped at " + vehicleStop.value.name
    ensures r.Some? && status == Some(2) ==> r.value == "In transit to " + vehicleStop.value.name
    ensures r.Some? ==> r.value != ""
  {
    if vehicleStop.None? then None
    else if status == Some(0) then Some("Arriving at " + vehicleStop.value.name)
    else if status == Some(1) then Some("Stopped at " + vehicleStop.value.name)
    else if status == Some(2) then Some("In transit to " + vehicleStop.value.name)
    else None
  }

  /** The scheduled departure: the trip's stop time at the origin when there
      is one, else the estimate itself. */
  function Scheduled(est: Option<Time>, trip: Option<Trip>, origin: Stop): (r: Option<Time>)
    ensures trip.Some? && origin.id in trip.value.stopTimes ==>
      r == Some(ScheduleTime(trip.value.stopTimes[origin.id].departure))
    ensures !(trip.Some? && origin.id in trip.value.stopTimes) ==> r == est
  {
    if trip.Some? && origin.id in trip.value.stopTimes then
      Some(ScheduleTime(trip.value.stopTimes[origin.id].departure))
    else est
  }

  /** Estimated minus scheduled, in seconds after midnight; 0 when either
      is missing. */
  function Delay(est: Option<Time>, sched: Option<Time>, zone: int): int {
    if est.Some? && sched.Some? then TimeSeconds(est.value, zone) - TimeSeconds(sched.value, zone) else 0
  }

  /** With no scheduled stop time the estimate is its own schedule, so the
      delay is 0. */
  lemma NoScheduleNoDelay(est: Option<Time>, trip: Option<Trip>, origin: Stop, zone: int)
    requires !(trip.Some? && origin.id in trip.value.stopTimes)
    ensures Delay(est, Scheduled(est, trip, origin), zone) == 0
  {
  }

  /** A delay against a stop time is the estimate's local time of day minus
      the scheduled seconds. */
  lemma DelayAgainstStopTime(ms: int, trip: Trip, origin: Stop, zone: int)
    requires origin.id in trip.stopTimes
    ensures Delay(Some(Instant(ms)), Scheduled(Some(Instant(ms)), Some(trip), origin), zone)
         == (ms / 1000 + zone) % 86400 - trip.stopTimes[origin.id].departure
  {
  }

  // ------------------------------------------------------- status label

  function LateLabel(delay: int): string {
    "Late " + DecimalString(delay / 60) + "m"
  }

  /** The status label chain: a label of its own (Arriving, Arrived,
      Departed, On Time) only when the feed gave no status text; in every
      other case `Late <minutes>m`, with the minutes rounded down. */
  function StatusLabel(feedStatus: Option<string>, atOrigin: bool, vehicleStatus: Option<int>,
                       vehicleSeq: Option<int>, originSeq: Option<int>, delay: int): string
  {
    if !TruthyString(feedStatus) && atOrigin && vehicleStatus == Some(0) then "Arriving"
    else if !TruthyString(feedStatus) && atOrigin && vehicleStatus == Some(1) then "Arrived"
    else if !TruthyString(feedStatus) && TruthyInt(vehicleSeq) && TruthyInt(originSeq)
            && vehicleSeq.value > originSeq.value then "Departed"
    else if !TruthyString(feedStatus) && delay < 60 then "On Time"
    else LateLabel(delay)
  }

  lemma LateLabelDistinct(delay: int)
    ensures LateLabel(delay) != "Arriving" && LateLabel(delay) != "Arrived"
    ensures LateLabel(delay) != "Departed" && LateLabel(delay) != "On Time"
    ensures LateLabel(delay) != "Scheduled"
    ensures LateLabel(delay)[..5] == "Late "
  {
    var l := LateLabel(delay);
    assert l[0] == 'L';
  }

  /** Which label the chain picks, each case in both directions. */
  lemma StatusLabelCases(feedStatus: Option<string>, atOrigin: bool, vehicleStatus: Option<int>,
                         vehicleSeq: Option<int>, originSeq: Option<int>, delay: int)
    ensures var l := StatusLabel(feedStatus, atOrigin, vehicleStatus, vehicleSeq, originSeq, delay);
      && (l == "Arriving" <==> !TruthyString(feedStatus) && atOrigin && vehicleStatus == Some(0))
      && (l == "Arrived" <==> !TruthyString(feedStatus) && atOrigin && vehicleStatus == Some(1))
      && (l == "Departed" <==> !TruthyString(feedStatus) && !(atOrigin && vehicleStatus in {Some(0), Some(1)})
                               && TruthyInt(vehicleSeq) && TruthyInt(originSeq) && vehicleSeq.value > originSeq.value)
      && (l == "On Time" <==> !TruthyString(feedStatus) && !(atOrigin && vehicleStatus in {Some(0), Some(1)})
                              && !(TruthyInt(vehicleSeq) && TruthyInt(originSeq) && vehicleSeq.value > originSeq.value)
                              && delay < 60)
      && (l != "Arriving" && l != "Arrived" && l != "Departed" && l != "On Time" ==> l == LateLabel(delay))
      && l != "Scheduled"
  {
    LateLabelDistinct(delay);
  }

  /** A non-empty status text from the feed is never shown: the chain
      replaces it with `Late <minutes>m`, whatever the delay. */
  lemma FeedStatusReplaced(feedStatus: Option<string>, atOrigin: bool, vehicleStatus: Option<int>,
                           vehicleSeq: Option<int>, originSeq: Option<int>, delay: int)
    requires TruthyString(feedStatus)
    ensures StatusLabel(feedStatus, atOrigin, vehicleStatus, vehicleSeq, originSeq, delay) == LateLabel(delay)
  {
  }

  /** `parseInt` of the label after "Late " gives back the minutes: the
      digits stop at the `m`. */
  lemma LateLabelMinutes(delay: int)
    ensures ParseInt(LateLabel(delay)[5..]) == Some(delay / 60)
  {
    var n := delay / 60;
    var s := DecimalString(n);
    assert LateLabel(delay)[5..] == s + "m";
    ParseIntDecimalThenLetter(n);
  }

  lemma ParseIntDecimalThenLetter(n: int)
    ensures ParseInt(DecimalString(n) + "m") == Some(n)
  {
    if n < 0 {
      var m: nat := -n;
      assert DecimalString(n) + "m" == "-" + (NatDigits(m) + "m");
      NegativeThenLetter(m);
    } else {
      assert DecimalString(n) + "m" == NatDigits(n) + "m";
      NaturalThenLetter(n);
    }
  }

  lemma NaturalThenLetter(m: nat)
    ensures ParseInt(NatDigits(m) + "m") == Some(m)
  {
    var ds := NatDigits(m);
    var t := ds + "m";
    ValueOfNatDigits(m);
    NumeralThenLetter(ds);
    assert t[0] == ds[0];
    DigitNotSpace(t[0]);
    NoLeadingSpace(t);
    assert Unsigned(t) == t by { assert IsDigit(t[0], 10); }
  }

  lemma NegativeThenLetter(m: nat)
    ensures ParseInt("-" + (NatDigits(m) + "m")) == Some(-(m as int))
  {
    var ds := NatDigits(m);
    var t := "-" + (ds + "m");
    ValueOfNatDigits(m);
    NumeralThenLetter(ds);
    assert t[0] == '-' && t[1..] == ds + "m";
    NoLeadingSpace(t);
    NegatedRun(t, m);
  }

  /** The unsigned part of a numeral followed by a letter reads as the numeral. */
  lemma NumeralThenLetter(ds: string)
    requires ds != [] && forall i :: 0 <= i < |ds| ==> IsDigit(ds[i], 10)
    ensures ParseUnsigned(ds + "m") == Some(Value(ds, 10))
  {
    var t := ds + "m";
    DigitsBeforeLetter(ds);
    assert !HexPrefix(t) by {
      if |ds| >= 2 { assert t[1] == ds[1] && IsDigit(ds[1], 10); } else { assert t[1] == 'm'; }
    }
  }

  /** The decimal digits of a numeral followed by a letter are the numeral. */
  lemma {:induction false} DigitsBeforeLetter(ds: string)
    requires forall i :: 0 <= i < |ds| ==> IsDigit(ds[i], 10)
    ensures DigitPrefix(ds + "m", 10) == ds
  {
    if ds == [] {
      assert [] + "m" == "m";
    } else {
      assert (ds + "m")[1..] == ds[1..] + "m";
      DigitsBeforeLetter(ds[1..]);
      assert [ds[0]] + ds[1..] == ds;
    }
  }

  // -------------------------------------------------------------- filter

  /** The display window: a departed train (or one that arrived at its
      final stop) is dropped once its time lies more than 5 minutes in the
      past, and every train more than 3 hours in the future. Both bounds
      are strict. `eventTime` `None` is `NaN`, which compares false. */
  predicate Dropped(recent: bool, eventTime: Option<int>, now: int) {
    eventTime.Some? &&
    ((recent && eventTime.value - now < -DepartedTime * 1000) || eventTime.value - now > MaxTime * 1000)
  }

  /** Kept exactly inside the window, both edges included. */
  lemma DroppedWindow(recent: bool, t: int, now: int)
    ensures !Dropped(recent, Some(t), now) <==>
      (now - 300000 <= t || !recent) && t <= now + 10800000
    ensures !Dropped(recent, Some(now - 300000), now) && !Dropped(recent, Some(now + 10800000), now)
    ensures Dropped(recent, Some(now + 10800001), now)
    ensures recent ==> Dropped(recent, Some(now - 300001), now)
    ensures !recent ==> !Dropped(recent, Some(now - 300001), now)
  {
  }

  /** The stored delay: the delay when it exceeds a minute, else 0. */
  function StoredDelay(delay: int): (r: int)
    ensures r >= 0 && (r == 0 || r > 60)
    ensures delay > 60 ==> r == delay
    ensures delay <= 60 ==> r == 0
  {
    if delay > 60 then delay else 0
  }

  /** A position exists only for a truthy latitude and longitude and a
      description. */
  function MakePosition(lat: Option<real>, lon: Option<real>, description: Option<string>, updated: Time): (r: Option<Position>)
    ensures r.Some? <==> TruthyReal(lat) && TruthyReal(lon) && TruthyString(description)
    ensures r.Some? ==> r.value == Position(lat.value, lon.value, description.value, updated)
  {
    if TruthyReal(lat) && TruthyReal(lon) && TruthyString(description) then
      Some(Position(lat.value, lon.value, description.value, updated))
    else None
  }

  // -------------------------------------------------- one departure

  /** What the lookups of one departure return. */
  datatype Lookups = Lookups(destination: Option<Stop>, trip: Option<Trip>, vehicleStop: Option<Stop>)

  function Resolve(db: Db, e: StopEntry, rec: TripRecord): (r: Lookups)
    ensures r.trip == GetTrip(db, TripKey(e.tripId, rec.date))
    ensures r.vehicleStop == GetStop(db, VehicleStopId(rec.vehicle))
    ensures rec.destination.None? ==> r.destination.None?
    ensures rec.destination.Some? ==> r.destination == GetStop(db, rec.destination.value)
  {
    Lookups(if rec.destination.Some? then GetStop(db, rec.destination.value) else None,
            GetTrip(db, TripKey(e.tripId, rec.date)),
            GetStop(db, VehicleStopId(rec.vehicle)))
  }

  /** The stop sequences read without a guard are there: a scheduled trip has
      a stop time at the origin, and at the vehicle stop when that resolved.
      Otherwise reading `stopSequence` throws. */
  predicate SequencesResolve(origin: Stop, l: Lookups) {
    l.trip.Some? ==>
      origin.id in l.trip.value.stopTimes &&
      (l.vehicleStop.Some? ==> l.vehicleStop.value.id in l.trip.value.stopTimes)
  }

  function OriginSeq(origin: Stop, l: Lookups): Option<int>
    requires SequencesResolve(origin, l)
  {
    if l.trip.Some? then Some(l.trip.value.stopTimes[origin.id].stopSequence) else None
  }

  function VehicleSeq(l: Lookups): Option<int>
    requires l.trip.Some? && l.vehicleStop.Some? ==> l.vehicleStop.value.id in l.trip.value.stopTimes
  {
    if l.vehicleStop.Some? && l.trip.Some? then Some(l.trip.value.stopTimes[l.vehicleStop.value.id].stopSequence) else None
  }

  /** The label of a departure whose lookups resolved. */
  function LabelOf(origin: Stop, e: StopEntry, rec: TripRecord, l: Lookups, zone: int): string
    requires SequencesResolve(origin, l)
  {
    var est := Estimated(e);
    StatusLabel(e.status, VehicleStopId(rec.vehicle) == origin.id, rec.vehicle.status,
                VehicleSeq(l), OriginSeq(origin, l), Delay(est, Scheduled(est, l.trip, origin), zone))
  }

  /** Whether the filter counts the departure as gone: departed, or arrived
      at its destination. */
  predicate Recent(origin: Stop, text: string, destination: Option<Stop>)
    requires text == "Arrived" ==> destination.Some?
  {
    text == "Departed" || (text == "Arrived" && origin.id == destination.value.id)
  }

  /** When the vehicle's position was reported: its timestamp when truthy,
      otherwise the current time. */
  function VehicleUpdated(v: Vehicle, now: int): (r: Time)
    ensures r.Instant?
    ensures TruthyInt(v.updated) ==> r.ms == v.updated.value
    ensures !TruthyInt(v.updated) ==> r.ms == now
  {
    if TruthyInt(v.updated) then Instant(v.updated.value) else Instant(now)
  }

  /** `_buildDeparture`: the departure listed at `origin` by the feed entry
      `e`, whose trip record is `rec`; `None` when it is filtered out or when
      building it throws (no trip record, a missing stop time, or an
      "Arrived" train without a destination stop). */
  function BuildDeparture(db: Db, origin: Stop, e: StopEntry, rec: Option<TripRecord>, env: Env): (r: Option<Departure>)
    ensures rec.None? ==> r.None?
    ensures r.Some? ==> var d := r.value;
      && SequencesResolve(origin, Resolve(db, e, rec.value))
      && d.trip == GetTrip(db, TripKey(e.tripId, rec.value.date))
      && d.status.delay >= 0 && (d.status.delay == 0 || d.status.delay > 60)
      && !d.status.scheduled
      && d.status.track == e.track
      && d.scheduled == Scheduled(Estimated(e), d.trip, origin)
      && d.status.estimated == (if Estimated(e).Some? then Estimated(e) else d.scheduled)
      && (d.position.Some? <==>
            TruthyReal(rec.value.vehicle.lat) && TruthyReal(rec.value.vehicle.lon)
            && Description(GetStop(db, VehicleStopId(rec.value.vehicle)), rec.value.vehicle.status).Some?)
      && (EventTime(e).None? || EventTime(e).value - env.now <= MaxTime * 1000)
      && d.destination == Resolve(db, e, rec.value).destination
      && d.status.text == LabelOf(origin, e, rec.value, Resolve(db, e, rec.value), env.zone)
      && d.status.delay == StoredDelay(Delay(Estimated(e), d.scheduled, env.zone))
      && d.position == MakePosition(rec.value.vehicle.lat, rec.value.vehicle.lon,
           Description(GetStop(db, VehicleStopId(rec.value.vehicle)), rec.value.vehicle.status),
           VehicleUpdated(rec.value.vehicle, env.now))
      && (d.status.text == "Departed" ==> EventTime(e).None? || EventTime(e).value - env.now >= -DepartedTime * 1000)
  {
    if rec.None? then None
    else
      var t := rec.value;
      var l := Resolve(db, e, t);
      if !SequencesResolve(origin, l) then None
      else
        var est := Estimated(e);
        var sched := Scheduled(est, l.trip, origin);
        var delay := Delay(est, sched, env.zone);
        var text := LabelOf(origin, e, t, l, env.zone);
        if text == "Arrived" && l.destination.None? then None
        else if Dropped(Recent(origin, text, l.destination), EventTime(e), env.now) then None
        else
          LateLabelDistinct(delay);
          var updated := VehicleUpdated(t.vehicle, env.now);
          var description := Description(l.vehicleStop, t.vehicle.status);
          Some(Departure(sched, l.destination, l.trip,
                         Status(text, StoredDelay(delay), if est.Some? then est else sched, e.track, text == "Scheduled"),
                         MakePosition(t.vehicle.lat, t.vehicle.lon, description, updated)))
  }

  /** Once the lookups and stop sequences resolve, a departure is dropped
      exactly when the window drops it, or when an arrived train has no
      destination stop to compare with. */
  lemma BuildDepartureDropped(db: Db, origin: Stop, e: StopEntry, rec: TripRecord, env: Env)
    requires SequencesResolve(origin, Resolve(db, e, rec))
    ensures var l := Resolve(db, e, rec);
      var text := LabelOf(origin, e, rec, l, env.zone);
      BuildDeparture(db, origin, e, Some(rec), env).None? <==>
        (text == "Arrived" && l.destination.None?) ||
        (!(text == "Arrived" && l.destination.None?) && Dropped(Recent(origin, text, l.destination), EventTime(e), env.now))
    ensures var l := Resolve(db, e, rec);
      BuildDeparture(db, origin, e, Some(rec), env).Some? ==>
        BuildDeparture(db, origin, e, Some(rec), env).value.status.text == LabelOf(origin, e, rec, l, env.zone)
  {
  }

  /** A departure that cannot resolve its stop sequences is not built. */
  lemma BuildDepartureNeedsStopTimes(db: Db, origin: Stop, e: StopEntry, rec: TripRecord, env: Env)
    requires !SequencesResolve(origin, Resolve(db, e, rec))
    ensures BuildDeparture(db, origin, e, Some(rec), env).None?
  {
  }

  // ------------------------------------------------------- the feed

  predicate SortedBy(s: seq<Departure>, key: Departure -> int) {
    forall p, q :: 0 <= p < q < |s| ==> key(s[p]) <= key(s[q])
  }

  /** The departures listed at `originId`: `data.stops[originId]`, or none. */
  function StopData(data: Parsed, originId: string): seq<StopEntry> {
    if originId in data.stops then data.stops[originId] else []
  }

  function TripOf(data: Parsed, e: StopEntry): Option<TripRecord> {
    if e.tripId in data.trips then Some(data.trips[e.tripId]) else None
  }

  /** One attempt per listed departure, in order. */
  function Attempts(db: Db, origin: Stop, data: Parsed, env: Env): (r: seq<Option<Departure>>)
    ensures |r| == |StopData(data, origin.id)|
    ensures forall i :: 0 <= i < |r| ==>
      r[i] == BuildDeparture(db, origin, StopData(data, origin.id)[i], TripOf(data, StopData(data, origin.id)[i]), env)
  {
    var entries := StopData(data, origin.id);
    seq(|entries|, i requires 0 <= i < |entries| => BuildDeparture(db, origin, entries[i], TripOf(data, entries[i]), env))
  }

  /** An origin the index does not list has an empty feed. */
  lemma UnlistedOriginIsEmpty(db: Db, origin: Stop, data: Parsed, env: Env)
    requires origin.id !in data.stops
    ensures Defined(Attempts(db, origin, data, env)) == []
  {
  }

  /** `_buildFeed`: build one departure per entry listed at the origin, keep
      the defined ones and sort them by `key`. */
  method BuildFeed(db: Db, origin: Stop, data: Parsed, env: Env, key: Departure -> int) returns (feed: StationFeed)
    ensures feed.origin == origin && feed.updated == Instant(data.updated)
    ensures SortedBy(feed.departures, key)
    ensures multiset(feed.departures) == multiset(Defined(Attempts(db, origin, data, env)))
    ensures |feed.departures| <= |StopData(data, origin.id)|
  {
    var stopData := StopData(data, origin.id);
    var p: seq<Option<Departure>> := [];
    var i := 0;
    while i < |stopData|
      invariant 0 <= i <= |stopData|
      invariant p == Attempts(db, origin, data, env)[..i]
    {
      var departure := stopData[i];
      p := p + [BuildDeparture(db, origin, departure, TripOf(data, departure), env)];
      i := i + 1;
    }
    assert p == Attempts(db, origin, data, env);
    var rtn := KeepDefined(p);
    var a := new Departure[|rtn|](k requires 0 <= k < |rtn| => rtn[k]);
    assert a[..] == rtn;
    SortByKey(a, key);
    feed := StationFeed(origin, Instant(data.updated), a[..]);
  }

  /** The loop that drops undefined departures, pushing the defined ones in order. */
  method KeepDefined(p: seq<Option<Departure>>) returns (rtn: seq<Departure>)
    ensures rtn == Defined(p)
  {
    rtn := [];
    var i := 0;
    while i < |p|
      invariant 0 <= i <= |p|
      invariant rtn == Defined(p[..i])
    {
      assert p[..i + 1] == p[..i] + [p[i]];
      DefinedSnoc(p[..i], p[i]);
      if p[i].Some? {
        rtn := rtn + [p[i].value];
      }
      i := i + 1;
    }
    assert p[..|p|] == p;
  }

  /** Insertion sort by `key`, in place. */
  method SortByKey(a: array<Departure>, key: Departure -> int)
    modifies a
    ensures SortedBy(a[..], key)
    ensures multiset(a[..]) == multiset(old(a[..]))
  {
    var i := 0;
    while i < a.Length
      invariant 0 <= i <= a.Length
      invariant SortedPrefix(a[..], i, key)
      invariant multiset(a[..]) == multiset(old(a[..]))
    {
      InsertLast(a, i, key);
      i := i + 1;
    }
    assert a[..] == a[..a.Length];
  }

  predicate SortedPrefix(s: seq<Departure>, n: int, key: Departure -> int)
    requires 0 <= n <= |s|
  {
    forall p, q :: 0 <= p < q < n ==> key(s[p]) <= key(s[q])
  }

  /** Moves `a[i]` down into the sorted prefix `a[..i]`. */
  method InsertLast(a: array<Departure>, i: int, key: Departure -> int)
    requires 0 <= i < a.Length && SortedPrefix(a[..], i, key)
    modifies a
    ensures SortedPrefix(a[..], i + 1, key)
    ensures multiset(a[..]) == multiset(old(a[..]))
  {
    var j := i;
    SinkStart(a[..], i, key);
    while j > 0 && key(a[j - 1]) > key(a[j])
      invariant 0 <= j <= i
      invariant Sinking(a[..], j, i, key)
      invariant multiset(a[..]) == multiset(old(a[..]))
    {
      SinkStep(a[..], j, i, key);
      Swap(a, j - 1, j);
      j := j - 1;
    }
    SinkDone(a[..], j, i, key);
  }

  method Swap(a: array<Departure>, x: int, y: int)
    requires 0 <= x < y < a.Length
    modifies a
    ensures a[..] == old(a[..])[x := old(a[y])][y := old(a[x])]
    ensures multiset(a[..]) == multiset(old(a[..]))
  {
    a[x], a[y] := a[y], a[x];
  }

  /** While `s[j]` sinks into `s[..i + 1]`: the other elements are in order
      and everything after `s[j]` has a larger key. */
  predicate Sinking(s: seq<Departure>, j: int, i: int, key: Departure -> int)
    requires 0 <= j <= i < |s|
  {
    && (forall p, q :: 0 <= p < q <= i && p != j && q != j ==> key(s[p]) <= key(s[q]))
    && (forall q :: j < q <= i ==> key(s[j]) < key(s[q]))
  }

  lemma SinkStart(s: seq<Departure>, i: int, key: Departure -> int)
    requires 0 <= i < |s| && SortedPrefix(s, i, key)
    ensures Sinking(s, i, i, key)
  {
  }

  lemma SinkStep(s: seq<Departure>, j: int, i: int, key: Departure -> int)
    requires 0 < j <= i < |s| && Sinking(s, j, i, key) && key(s[j - 1]) > key(s[j])
    ensures Sinking(s[j - 1 := s[j]][j := s[j - 1]], j - 1, i, key)
  {
    var t := s[j - 1 := s[j]][j := s[j - 1]];
    assert t[j - 1] == s[j] && t[j] == s[j - 1];
    assert forall k :: 0 <= k < |s| && k != j - 1 && k != j ==> t[k] == s[k];
  }

  lemma SinkDone(s: seq<Departure>, j: int, i: int, key: Departure -> int)
    requires 0 <= j <= i < |s| && Sinking(s, j, i, key)
    requires j == 0 || key(s[j - 1]) <= key(s[j])
    ensures SortedPrefix(s, i + 1, key)
  {
    forall p, q | 0 <= p < q <= i ensures key(s[p]) <= key(s[q]) {
      if q == j && p < j - 1 {
        assert key(s[p]) <= key(s[j - 1]);
      }
    }
  }

  /** `feed`: an origin without real-time information fails with 4007 and
      the feed is not consulted; otherwise the cached or fetched data is
      turned into the origin's station feed, and a data error is passed on. */
  method LoadFeed(cache: FeedCache, db: Db, origin: Stop, fetch: Fetched, env: Env, key: Departure -> int)
    returns (r: Result<StationFeed>, downloaded: bool)
    modifies cache
    ensures origin.statusId == "-1" ==> r == Err(Unsupported) && !downloaded && unchanged(cache)
    ensures origin.statusId != "-1" && old(cache.Lookup(env.now)).Some? ==> !downloaded && r.Ok?
    ensures origin.statusId != "-1" && old(cache.Lookup(env.now)).Some? ==> cache.entry == old(cache.entry)
    ensures origin.statusId != "-1" && old(cache.Lookup(env.now)).None? ==> downloaded
    ensures origin.statusId != "-1" && old(cache.Lookup(env.now)).None? && fetch.Decoded? && r.Ok? ==>
      cache.Lookup(env.now).Some? && ParseSpec(fetch.msg, env.now) == Ok(cache.Lookup(env.now).value)
    ensures r.Err? ==> cache.entry == old(cache.entry)
    ensures origin.statusId != "-1" && old(cache.Lookup(env.now)).None? && fetch.FetchFailed? ==> r == Err(fetch.error)
    ensures origin.statusId != "-1" && old(cache.Lookup(env.now)).None? && fetch.Decoded? ==>
      (r.Ok? <==> ParseSpec(fetch.msg, env.now).Ok?) && (r.Err? ==> r == Err(ParseSpec(fetch.msg, env.now).error))
    ensures r.Ok? ==> cache.Lookup(env.now).Some? && r.value.updated == Instant(cache.Lookup(env.now).value.updated)
    ensures r.Ok? ==> r.value.origin == origin && SortedBy(r.value.departures, key)
    ensures r.Ok? ==> multiset(r.value.departures) == multiset(Defined(Attempts(db, origin, cache.Lookup(env.now).value, env)))
  {
    if origin.statusId == "-1" {
      return Err(Unsupported), false;
    }
    var data;
    data, downloaded := cache.GetData(fetch, env.now);
    if data.Err? {
      return Err(data.error), downloaded;
    }
    var feed := BuildFeed(db, origin, data.value, env, key);
    r := Ok(feed);
  }
}
