# Real-time station feed and peak classifier of the LIRR agency module

This project models the three pieces of decision logic in the Long Island
Rail Road agency module, in Dafny.

- **GTFS-Realtime correlation** (`src/gtfsrt.js`). The feed sends every train
  as two entities: `<id>_T` holds its trip update and `<id>_V` its vehicle
  position. The module strips the suffix and merges both halves into one
  record per logical trip. It drops the stop-time updates marked `SKIPPED`
  (schedule relationship 2) and builds two indexes: trips by id, and
  departures by stop. A parsed feed is cached for 45 seconds.
- **Station feed** (`src/feed.js`). For one origin stop this builds one
  departure per indexed entry. Each departure gets:
  - a vehicle description;
  - a delay against the schedule;
  - a status label from an ordered chain;
  - a display-window filter;
  - a position.

  Failed or filtered departures are dropped and the rest are sorted.
- **Peak classifier** (`db-build/src/peak.js`). This combines three facts:
  - whether the trip stops in the City Terminal Zone;
  - a day-of-week code from the service calendar and its added dates, with
    holidays excluded;
  - whether the trip reaches a terminal inside a peak window.

  A small CSV reader supplies the holidays.

Layout:

| file | module | contents |
|---|---|---|
| `util.dfy` | `Util` | shared helpers: `Option` (JavaScript `undefined`), structured errors, truthiness, the drop-undefined idiom |
| `jstext.dfy` | `JsText` | `String.prototype.split` on one character and the global `parseInt`, as ECMAScript defines them |
| `calendar.dfy` | `Calendar` | the day of week of a `yyyymmdd` date in the proleptic Gregorian calendar |
| `property_order.dfy` | `PropertyOrder` | the order in which `Object.entries` visits a plain object's keys |
| `gtfsrt.dfy` | `GtfsRt` | decoded-feed types, the merge, the two indexes, and the imperative `ParseData` proved equal to its specification |
| `cache.dfy` | `GtfsRtCache` | the feed cache, as a class |
| `feed.dfy` | `Feed` | `BuildDeparture` as a function; `BuildFeed` (loops plus an in-place insertion sort) and `LoadFeed` as methods |
| `peak.dfy` | `Peak` | the day-of-week and peak-window loops as methods, the holiday list as a class, and the final combination |

How the source's inputs are modelled:

- The decoded protocol buffer, the database's query results, the holiday
  file's lines, the clock (`now`, in milliseconds) and the local time-zone
  offset are all parameters.
- The static schedule database is a value of maps.
- The comparator `Departure.sort` is a caller-supplied key function.

## Model

The specification functions appear through the lemmas and methods that state their properties, not as rows of their own:
- GTFS-Realtime: `GtfsRt.LogicalId`, `GtfsRt.CombineAll`, `GtfsRt.TripRecordOf` and `GtfsRt.ParseSpec`.
- The station feed: `Feed.Delay`, `Feed.StatusLabel` and `Feed.Dropped`.
- The peak classifier: `Peak.DowCode` and `Peak.IsPeakStop`.
- `parseInt`: `JsText.ParseInt`.

| member | source | states |
|---|---|---|
| JsText.Split | db-build/src/peak.js:295 | `line.split(',')` yields at least one piece, and no piece contains the separator |
| JsText.JoinSplit | db-build/src/peak.js:295 | joining the pieces of a split with the separator gives back the line |
| JsText.SplitJoin | db-build/src/peak.js:295 | splitting a joined row gives back its fields, provided no field contains the separator |
| JsText.TrimStart | db-build/src/peak.js:306 | `parseInt` skips exactly a prefix of ECMAScript white space, and what remains does not start with white space |
| JsText.DigitPrefix | db-build/src/peak.js:306 | the digits `parseInt` reads are the longest prefix of digits of the radix |
| JsText.ParseIntDecimal | src/gtfsrt.js:241-243 | `parseInt` of the decimal numeral of any integer, negative ones included, gives back that integer |
| JsText.ParseIntSkipsSpace | db-build/src/peak.js:306-307 | leading white space never changes what `parseInt` reads |
| Util.Defined | src/feed.js:76-82 | keeping only the defined results: at most as many as the input, each a defined input, and every defined input kept |
| Util.DefinedSnoc | src/feed.js:78-82 | pushing one more result appends its value exactly when it is defined, so the kept values stay in input order |
| Util.DefinedCounts | src/feed.js:78-82 | each value is kept exactly as many times as the input holds it defined |
| Calendar.DayNumberOfDate | db-build/src/peak.js:166 | a `yyyymmdd` number with month 1-12 and day 1-99 denotes the day count of its year, month and day |
| Calendar.DayOfWeek | db-build/src/peak.js:166 | the day of week of a date is one of 0 (Sunday) to 6 (Saturday) |
| Calendar.MonthLength | db-build/src/peak.js:166 | consecutive months start exactly one Gregorian month length apart, leap Februaries included |
| Calendar.NextDayCount | db-build/src/peak.js:166 | the next calendar date, across month ends, year ends and leap days, is exactly one day later |
| Calendar.NextDayNextWeekday | db-build/src/peak.js:166 | the yyyymmdd of the next calendar date falls on the next day of the week |
| Calendar.EpochWasThursday | db-build/src/peak.js:166 | 1970-01-01 was a Thursday |
| Calendar.LeapDay2000WasTuesday | db-build/src/peak.js:166 | 2000-02-29 was a Tuesday |
| Calendar.Weekend2024 | db-build/src/peak.js:166-167 | 2024-01-06 was a Saturday, so a weekend date; 2024-01-08 was a Monday, so not |
| PropertyOrder.SortIndices | src/gtfsrt.js:147 | the array-index keys are visited in ascending numeric order, as a permutation of those keys |
| PropertyOrder.EnumerationOrderIsPermutation | src/gtfsrt.js:147 | `Object.entries` visits every key exactly once: first the array indices in ascending order, then the other keys in insertion order |
| PropertyOrder.NoIndexKeysKeepInsertionOrder | src/gtfsrt.js:147 | an object with no array-index keys is visited in insertion order |
| GtfsRt.ConvertTimestamp | src/gtfsrt.js:237-239 | a timestamp is defined exactly when the input is truthy; it is then the input times 1000, so never falsy |
| GtfsRt.ConvertDateDecimal | src/gtfsrt.js:241-243 | a start date written as a decimal number converts to that number |
| GtfsRt.Updated | src/gtfsrt.js:123 | `updated` is the header timestamp in milliseconds, or the current time when the header has none |
| GtfsRt.StripSuffix | src/gtfsrt.js:134 | removing a trailing suffix gives the prefix when the suffix is there, and leaves the string unchanged when it is not |
| GtfsRt.HalvesShareLogicalId | src/gtfsrt.js:134-143 | `x_T` and `x_V` both have logical id `x`; one is only a trip half and the other only a vehicle half |
| GtfsRt.StepHalves | src/gtfsrt.js:135-143 | one entity changes only its own logical id's record: a `_T` entity replaces the trip update, a `_V` entity the vehicle, and a new record starts with both halves undefined |
| GtfsRt.CombineCovers | src/gtfsrt.js:131-137 | every entity's logical id has a combined record |
| GtfsRt.CombineOnlyEntityIds | src/gtfsrt.js:131-137 | every combined record belongs to the logical id of some entity |
| GtfsRt.CombinedIds | src/gtfsrt.js:136 | each combined record carries its own key as `id` |
| GtfsRt.FirstSeenKeys | src/gtfsrt.js:135-136 | the insertion order of `combined` lists each of its keys exactly once |
| GtfsRt.CombinedTripUpdate | src/gtfsrt.js:138-140 | a record's trip update comes from the last `_T` entity of its logical id, or is undefined when there is none |
| GtfsRt.CombinedVehicle | src/gtfsrt.js:141-143 | a record's vehicle comes from the last `_V` entity of its logical id, or is undefined when there is none |
| GtfsRt.PairedHalves | src/gtfsrt.js:131-144 | given the last `_T` and last `_V` entities of a trip, its record pairs exactly those two halves |
| GtfsRt.CombineEntities | src/gtfsrt.js:131-144 | the combining loop builds exactly the specified `combined` dictionary and its insertion order |
| GtfsRt.KeptStopsExactly | src/gtfsrt.js:176-186 | a trip's stop list holds exactly the converted updates that are not SKIPPED |
| GtfsRt.LastKeptStop | src/gtfsrt.js:203 | the last entry of a trip's stop list is the last update that was not SKIPPED; the list is empty when every update was skipped |
| GtfsRt.DestinationIsLastKept | src/gtfsrt.js:203-208 | a trip's destination is the stop of its last kept update, or undefined when none was kept |
| GtfsRt.CollectStops | src/gtfsrt.js:162-200 | the stop loop pushes the kept stops onto the trip, and each one as a departure onto its stop's list |
| GtfsRt.BuildRecord | src/gtfsrt.js:149-217 | the body of the loop over combined records builds the specified trip record and extends the stop index with its stops |
| GtfsRt.EntriesFor | src/gtfsrt.js:190-197 | every stop of a trip gives one departure that carries the logical trip id and the stop's times, track and status |
| GtfsRt.BuildIndexIsFilter | src/gtfsrt.js:189-197 | each stop's list is exactly the departures at that stop, in order; a stop no trip serves has no key |
| GtfsRt.AllEntriesExactly | src/gtfsrt.js:179-197 | the departures are exactly one per stop of each trip |
| GtfsRt.EntriesAtMember | src/gtfsrt.js:189-190 | a stop's list holds exactly the departures at that stop |
| GtfsRt.VisitOrderKeys | src/gtfsrt.js:147 | every combined record is visited |
| GtfsRt.VisitOrderDistinct | src/gtfsrt.js:147 | no combined record is visited twice |
| GtfsRt.Walk | src/gtfsrt.js:147-228 | the loop over combined records fails with 5003 at a record without its trip half, and otherwise returns both indexes as specified |
| GtfsRt.WalkTrips | src/gtfsrt.js:157-217 | a walk that does not fail keeps the update time and records exactly the visited ids, each with its trip-update half, as the record built from its halves |
| GtfsRt.ParseData | src/gtfsrt.js:121-234 | `_parseData` returns exactly the specified parse |
| GtfsRt.ParseFailsIffTripHalfMissing | src/gtfsrt.js:157-233 | the parse fails exactly when some logical trip lacks its trip-update half, and then with error 5003; otherwise no partial result is returned |
| GtfsRt.ParsedTrips | src/gtfsrt.js:123-228 | a successful parse has a trip record under every logical id of the feed and no other, each with its own id |
| GtfsRt.ParsedIndex | src/gtfsrt.js:189-197 | a successful parse's stop index lists, at each stop, the departures of all trips at that stop in visiting order |
| GtfsRt.WalkEntriesFromTrips | src/gtfsrt.js:189-197 | every departure in the stop index is filed under its own stop and is the record of that stop in its trip |
| GtfsRt.WalkTripsIndexed | src/gtfsrt.js:179-197 | every stop of every trip record has its departure in the stop index |
| GtfsRtCache.FeedCache.Lookup | src/gtfsrt.js:22-23 | a cache read gives the stored value exactly while its expiry time has not passed |
| GtfsRtCache.FeedCache.Put | src/gtfsrt.js:10-39 | a stored feed can be read for the next 45 000 ms and not after |
| GtfsRtCache.FeedCache.GetData | src/gtfsrt.js:19-49 | a live cached feed is returned without a download. Otherwise a download, decode or parse error is returned and nothing is stored, while a parsed feed is stored for 45 s and returned |
| Feed.GetStop | src/feed.js:118-125 | a stop lookup finds exactly the stops of the database |
| Feed.GetTrip | src/feed.js:121 | a trip lookup by id and service date finds exactly the trips of the database |
| Feed.TimeSeconds | src/feed.js:156 | an instant gives its seconds after local midnight, in 0..86399; a scheduled time gives its own seconds |
| Feed.EventTime | src/feed.js:113-115 | the departure time when it is truthy, otherwise the arrival time |
| Feed.Estimated | src/feed.js:113-115 | the estimate is defined exactly when the event time is truthy, and is then that instant |
| Feed.VehicleStopId | src/feed.js:124 | the vehicle's stop id when it is non-empty, otherwise the empty string |
| Feed.Description | src/feed.js:136-147 | a description exists exactly when the vehicle stop resolved and the status is 0, 1 or 2. It is then "Arriving at", "Stopped at" or "In transit to" followed by the stop's name, so never empty |
| Feed.Scheduled | src/feed.js:150-154 | the scheduled time is the trip's stop time at the origin when there is one, otherwise the estimate |
| Feed.NoScheduleNoDelay | src/feed.js:150-157 | without a scheduled stop time at the origin the delay is 0 |
| Feed.DelayAgainstStopTime | src/feed.js:150-157 | against a stop time, the delay is the estimate's local time of day minus the scheduled seconds |
| Feed.StatusLabelCases | src/feed.js:164-179 | which label the chain picks, each case as an if-and-only-if. "Arriving", "Arrived", "Departed" and "On Time" are possible only without a feed status; every other case gives `Late <minutes>m`; "Scheduled" never occurs |
| Feed.FeedStatusReplaced | src/feed.js:164-179 | a non-empty feed status text is always replaced by `Late <minutes>m` |
| Feed.LateLabelDistinct | src/feed.js:178 | a `Late` label starts with "Late " and is none of the other labels |
| Feed.LateLabelMinutes | src/feed.js:178 | `parseInt` of a `Late` label after "Late " gives back the delay in whole minutes, rounded down |
| Feed.DroppedWindow | src/feed.js:183-191 | a departure is kept exactly when its time is at most 3 hours ahead and, for a recent one, at most 5 minutes past. Both edges are kept; one millisecond beyond either is dropped |
| Feed.StoredDelay | src/feed.js:207 | the stored delay is never negative: the delay when it exceeds 60 s, otherwise 0, so exactly 60 s is stored as 0 |
| Feed.MakePosition | src/feed.js:194-202 | a position exists exactly when latitude, longitude and description are all truthy, and carries exactly those values |
| Feed.Resolve | src/feed.js:118-125 | the destination, trip and vehicle stop are the database lookups of the trip record's destination, the trip's id and date, and the vehicle stop id; a missing destination id resolves to nothing |
| Feed.BuildDeparture | src/feed.js:108-237 | no trip record means no departure. A built departure carries: the resolved destination stop and scheduled trip; the status label the chain gives; the stored delay of its estimate against its scheduled time (0 unless above 60); a false `scheduled` flag; the feed's track; the specified scheduled and estimated times; the position made from the vehicle's coordinates, its description and its report time (the current time when it has none). Its event time lies inside the display window |
| Feed.BuildDepartureDropped | src/feed.js:183-191 | once lookups and stop sequences resolve, a departure is dropped exactly when the window drops it or an arrived train has no destination stop |
| Feed.BuildDepartureNeedsStopTimes | src/feed.js:159-161 | a departure whose trip lacks a stop time at the origin or at the vehicle stop is not built |
| Feed.UnlistedOriginIsEmpty | src/feed.js:62 | an origin missing from the stop index has no departures |
| Feed.KeepDefined | src/feed.js:76-82 | the forward filter loop, pushing each defined departure, yields exactly the defined departures in order |
| Feed.InsertLast | src/feed.js:85 | inserting the next departure extends the sorted prefix by one, as a permutation |
| Feed.SortByKey | src/feed.js:85 | the in-place sort leaves the departures ordered by key and as a permutation of the input |
| Feed.BuildFeed | src/feed.js:59-96 | the feed is the origin, the update time, and the defined departures, one attempt per listed entry, sorted by key and as a permutation. There are never more departures than entries |
| Feed.LoadFeed | src/feed.js:26-48 | an origin with status id "-1" gets error 4007; the data is never fetched and the cache is untouched. For any other origin: a live cached feed is used as it is, with no download and the cache unchanged; a miss downloads, a failed fetch passes its error on, and a decoded message gives a feed exactly when its parse succeeds, with the fresh parse then cached, and otherwise the parse error. An error never changes the cache. A feed holds the origin, the update time, and the sorted defined departures of exactly that cached or freshly parsed data |
| Peak.StopsAtTerm | db-build/src/peak.js:101-103 | the trip stops at a terminal exactly when the count query succeeded with a count above 0 |
| Peak.TermCountPositive | db-build/src/peak.js:97-98 | the terminal count is positive exactly when some stop of the trip is one of the terminal ids 8, 12, 1, 2 and 15 |
| Peak.CalendarFlags | db-build/src/peak.js:138-146 | the weekday flag is set exactly when one of Monday to Friday is 1, and the weekend flag exactly when Saturday or Sunday is 1; no row sets neither |
| Peak.ExceptionFlagsExactly | db-build/src/peak.js:161-175 | after the added dates, a flag is set exactly when it was already set or some added date that is not a holiday falls on that kind of day |
| Peak.HolidaysChangeNothing | db-build/src/peak.js:165 | an added date that is a holiday changes neither flag |
| Peak.Finish | db-build/src/peak.js:189-202 | the code is 2 for both flags, 1 for weekday only, 0 for weekend only and -1 for neither, each as an if-and-only-if |
| Peak.DowCodeWeekday | db-build/src/peak.js:132-178 | the code lies in -1..2, and is above 0 exactly when the calendar query succeeded and the service runs on a weekday, by its calendar or by a non-holiday added date when that query succeeded |
| Peak.GetDowCode | db-build/src/peak.js:120-204 | `_getDOWCode`'s loop computes the specified code. A failed calendar query finishes with no flags, and a failed exception query with the calendar's flags |
| Peak.PeakWindowEdges | db-build/src/peak.js:231-264 | both ends of both windows are peak and one second outside is not; directions other than 0 and 1 are never peak |
| Peak.OperatesDuringPeak | db-build/src/peak.js:215-268 | true exactly when the query succeeded and some terminal stop time is inbound 6-10 AM or outbound 4-8 PM |
| Peak.ParamsOfExactly | db-build/src/peak.js:300-303 | a row's parameters are exactly its headers, each holding the field under its last column |
| Peak.BuildParams | db-build/src/peak.js:300-303 | the loop fills exactly the specified parameters |
| Peak.RowHolidays | db-build/src/peak.js:299-309 | a row adds one holiday exactly when its field count matches the header and its `peak` reads as 0; the holiday is the `parseInt` of its `date` |
| Peak.RowOfFields | db-build/src/peak.js:295-309 | for a row written by joining fields with commas, the holiday rule applies to those fields |
| Peak.HolidayList.OnLine | db-build/src/peak.js:294-311 | the first line becomes the (never empty) header; each later line adds the holidays of its row |
| Peak.HolidayList.ReadHolidays | db-build/src/peak.js:279-329 | a missing file adds nothing; otherwise the list grows by the holidays of every line after the header, in order |
| Peak.PeakCode | db-build/src/peak.js:36-78 | the result is 0, 1 or 2. It is above 0 exactly when the trip stops at a terminal, its code is above 0 and it runs in a peak window, and it is then the day-of-week code |
| Peak.Peak | db-build/src/peak.js:30-84 | `peak` reads the holidays, then answers 0, 1 or 2. The answer is above 0 exactly when all three conditions hold, and is then the day-of-week code |

## Left out

- The HTTPS download (`_updateData`, src/gtfsrt.js:58-91) and the protocol-buffer decoding (`_decodeData`, src/gtfsrt.js:100-112) are I/O and a foreign library. `GetData` takes their outcome as the `Fetched` input.
- The `memory-cache` package is modelled only by presence until expiry. Its timers and the deletion of an expired entry on read are not modelled.
- GtfsRtCache.FeedCache.GetData: the "no parsed data" 5003 branch (src/gtfsrt.js:42-44) is not modelled. A successful parse is always an object, so that branch cannot be reached.
- GtfsRt.ParseSpec: only the exception at line 157 (a record with no trip-update half) is modelled. The decoded-feed types here are total records, so the other dereferences in the `try` block cannot fail.
- GtfsRt.ConvertDate: a `NaN` date and an absent date are both `None`.
- GtfsRt.ParsedIndex: the claim that the total size of the per-stop index equals the number of kept updates is not stated as a sum over the map. The index is characterised stop by stop instead.
- Feed.BuildDeparture: an exception after line 118 happens inside a database callback and escapes the `try` block. The model drops the departure, as it does for the exceptions the `catch` handles. What follows in the source depends on the core library and is not modelled.
- JavaScript numbers are modelled as unbounded integers. The exponent notation of `String` from 1e21 and the rounding of `parseInt` above 2^53 are left out. Every value in the core stays far below 2^53: millisecond timestamps, yyyymmdd dates, delays and counts.
- Feed.TimeSeconds: `DateTime.getTimeSeconds` uses a fixed zone offset, with no daylight-saving changes. GTFS stop times are given as seconds, not as `HH:MM:SS` text.
- Feed.SortByKey: the comparator `Departure.sort` of the core library becomes an integer key. The stability of `Array.prototype.sort` among equal keys is not stated.
- The `StationFeed`, `Status` and `Position` constructors are plain records. `console.log` calls are left out.
- Feed.BuildFeed: the 5003 `catch` of `_buildFeed` (src/feed.js:93-95) is not modelled. Nothing in its `try` block can throw once the data is a parsed feed.
- One instant `now` stands for every clock reading: the cache read and store, the fallback `updated` time and the display-window filter each call `Date.now()` on their own in the source, so their few milliseconds of difference are not modelled.
- `Promise.all` and the ordering of asynchronous lookups (src/feed.js, lines 74 and 118-227) are concurrency, not logic.
- Peak.GetDowCode: `DateTime.createFromDate(date).getDateDOW()` is taken to be `Calendar.DayOfWeek`, the proleptic Gregorian weekday with JavaScript `Date` month and day rollover.
- Peak.OperatesDuringPeak: the arrival and departure times arrive as seconds after midnight. `DateTime.createFromTime`'s parsing of the time text is not modelled.
- The SQL text and the database (db-build/src/peak.js, lines 97-98, 127-129, 150-152 and 218-222) are replaced by their results, given as `Query` inputs. `TermCount` states what the count query counts.
- File access and `readline` (db-build/src/peak.js, lines 282-292 and 313-322) are left out. The file is given as its lines, or `None` when it does not exist.
- Keys that a plain JavaScript object treats specially, such as `__proto__`, are not modelled; every key is an ordinary own property here. This covers a CSV header (db-build/src/peak.js, lines 300-303), which has no effect on the `peak` and `date` parameters. It also covers an entity id such as `__proto___T`, whose logical id would name the prototype in `combined` and `trips` (src/gtfsrt.js, lines 135-136 and 204), and a stop id `__proto__` in `stops` (lines 189-190).
- `doc/js/lunr-data.js`, `src/config.js`, `src/index.js` and `db-build/src/postCompile.js` are generated data, configuration and database plumbing, and are not part of this model.
