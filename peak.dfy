/** The peak-hour classifier of the database build (db-build/src/peak.js).

    A trip is peak when it stops at a City Terminal Zone stop, runs on
    weekdays, and reaches the terminal inbound between 6 and 10 AM or leaves
    it outbound between 4 and 8 PM. The result is the trip's day-of-week
    code (1 weekdays only, 2 weekdays and weekends) for a peak trip and 0
    otherwise. The SQL queries are inputs: their rows, or a failure. The
    holiday table is given as the lines of its CSV file. */
module Peak {
  import opened Util
  import opened JsText
  import opened Calendar

  /** The City Terminal Zone stop ids. */
  const TermIds: seq<string> := ["8", "12", "1", "2", "15"]

  /** Peak windows, in seconds after midnight. */
  const SixAm: int := 21600
  const TenAm: int := 36000
  const FourPm: int := 57600
  const EightPm: int := 72000

  /** The outcome of a database query: its rows, or an error. */
  datatype Query<T> = Failed | Answer(rows: T)

  // ------------------------------------------------- stops at terminal

  /** `_tripStopsAtTerm`: the count row says the trip stops at a terminal
      only when it exists and its count is above 0. */
  function StopsAtTerm(count: Query<Option<int>>): (r: bool)
    ensures r <==> count.Answer? && count.rows.Some? && count.rows.value > 0
  {
    count.Answer? && TruthyInt(count.rows) && count.rows.value > 0
  }

  /** What the count query counts: the trip's stop times at terminal stops. */
  function TermCount(stopIds: seq<string>): (r: nat)
    ensures r <= |stopIds|
  {
    if stopIds == [] then 0
    else TermCount(stopIds[..|stopIds| - 1]) + (if stopIds[|stopIds| - 1] in TermIds then 1 else 0)
  }

  /** The count is positive exactly when some stop of the trip is a
      terminal stop. */
  lemma {:induction false} TermCountPositive(stopIds: seq<string>)
    ensures TermCount(stopIds) > 0 <==> exists i :: 0 <= i < |stopIds| && stopIds[i] in TermIds
  {
    if stopIds != [] {
      var init := stopIds[..|stopIds| - 1];
      TermCountPositive(init);
      if TermCount(stopIds) > 0 && stopIds[|stopIds| - 1] !in TermIds {
        var i :| 0 <= i < |init| && init[i] in TermIds;
        assert stopIds[i] == init[i];
      }
      if exists i :: 0 <= i < |stopIds| && stopIds[i] in TermIds {
        var i :| 0 <= i < |stopIds| && stopIds[i] in TermIds;
        if i < |init| {
          assert init[i] == stopIds[i];
        }
      }
    }
  }

  // --------------------------------------------------- day-of-week code

  /** The calendar flags of a service: 1 marks a day it runs on. */
  datatype CalendarRow = CalendarRow(
    monday: int, tuesday: int, wednesday: int, thursday: int, friday: int,
    saturday: int, sunday: int)

  datatype Flags = Flags(weekday: bool, weekend: bool)

  /** The flags the calendar row sets; no row sets none. */
  function CalendarFlags(row: Option<CalendarRow>): (f: Flags)
    ensures f.weekday <==> (row.Some? &&
      (row.value.monday == 1 || row.value.tuesday == 1 || row.value.wednesday == 1 ||
       row.value.thursday == 1 || row.value.friday == 1))
    ensures f.weekend <==> row.Some? && (row.value.saturday == 1 || row.value.sunday == 1)
  {
    match row
    case None => Flags(false, false)
    case Some(c) =>
      Flags(c.monday == 1 || c.tuesday == 1 || c.wednesday == 1 || c.thursday == 1 || c.friday == 1,
            c.saturday == 1 || c.sunday == 1)
  }

  /** `HOLIDAYS.includes(date)`; a `NaN` holiday (`None`) matches nothing. */
  predicate IsHoliday(date: int, holidays: seq<Option<int>>) {
    Some(date) in holidays
  }

  /** One added-service date: a holiday changes nothing, a Saturday or Sunday
      sets the weekend flag, any other day the weekday flag. */
  function ExceptionStep(f: Flags, date: int, holidays: seq<Option<int>>): Flags {
    if IsHoliday(date, holidays) then f
    else if IsWeekendDate(date) then f.(weekend := true)
    else f.(weekday := true)
  }

  /** The flags after the added-service dates, in order. */
  function ExceptionFlags(f: Flags, dates: seq<int>, holidays: seq<Option<int>>): Flags {
    if dates == [] then f
    else ExceptionStep(ExceptionFlags(f, dates[..|dates| - 1], holidays), dates[|dates| - 1], holidays)
  }

  /** A flag ends up set exactly when it was set already or some non-holiday
      added date falls on that kind of day. */
  lemma {:induction false} ExceptionFlagsExactly(f: Flags, dates: seq<int>, holidays: seq<Option<int>>)
    ensures ExceptionFlags(f, dates, holidays).weekday <==> f.weekday || AddsWeekday(dates, holidays)
    ensures ExceptionFlags(f, dates, holidays).weekend <==> f.weekend || AddsWeekend(dates, holidays)
  {
    if dates != [] {
      var init := dates[..|dates| - 1];
      ExceptionFlagsExactly(f, init, holidays);
      assert forall i :: 0 <= i < |init| ==> init[i] == dates[i];
    }
  }

  /** Some added date is a weekday that is not a holiday. */
  predicate AddsWeekday(dates: seq<int>, holidays: seq<Option<int>>) {
    exists i :: 0 <= i < |dates| && !IsHoliday(dates[i], holidays) && !IsWeekendDate(dates[i])
  }

  /** Some added date is a Saturday or Sunday that is not a holiday. */
  predicate AddsWeekend(dates: seq<int>, holidays: seq<Option<int>>) {
    exists i :: 0 <= i < |dates| && !IsHoliday(dates[i], holidays) && IsWeekendDate(dates[i])
  }

  /** Holiday dates can be left out of the added dates. */
  lemma {:induction false} HolidaysChangeNothing(f: Flags, dates: seq<int>, date: int, holidays: seq<Option<int>>)
    requires IsHoliday(date, holidays)
    ensures ExceptionFlags(f, dates + [date], holidays) == ExceptionFlags(f, dates, holidays)
  {
    assert (dates + [date])[..|dates|] == dates;
  }

  /** `_finish`: 2 for weekdays and weekends, 1 for weekdays only, 0 for
      weekends only, -1 for neither. */
  function Finish(f: Flags): (code: int)
    ensures code == 2 <==> f.weekday && f.weekend
    ensures code == 1 <==> f.weekday && !f.weekend
    ensures code == 0 <==> !f.weekday && f.weekend
    ensures code == -1 <==> !f.weekday && !f.weekend
  {
    if f.weekday && f.weekend then 2
    else if f.weekday && !f.weekend then 1
    else if f.weekend && !f.weekday then 0
    else -1
  }

  /** The code `_getDOWCode` reports: a failed calendar query finishes with
      no flags, a failed exception query with the calendar's flags. */
  function DowCode(calendar: Query<Option<CalendarRow>>, exceptions: Query<seq<int>>, holidays: seq<Option<int>>): int {
    if calendar.Failed? then Finish(Flags(false, false))
    else
      var f := CalendarFlags(calendar.rows);
      if exceptions.Failed? then Finish(f) else Finish(ExceptionFlags(f, exceptions.rows, holidays))
  }

  /** The code is above 0 exactly when the service runs on some weekday:
      by its calendar, or on an added date that is neither a holiday nor a
      weekend day (when that query succeeds). */
  lemma DowCodeWeekday(calendar: Query<Option<CalendarRow>>, exceptions: Query<seq<int>>, holidays: seq<Option<int>>)
    ensures -1 <= DowCode(calendar, exceptions, holidays) <= 2
    ensures DowCode(calendar, exceptions, holidays) > 0 <==>
      calendar.Answer? &&
      (CalendarFlags(calendar.rows).weekday || (exceptions.Answer? && AddsWeekday(exceptions.rows, holidays)))
  {
    if calendar.Answer? && exceptions.Answer? {
      ExceptionFlagsExactly(CalendarFlags(calendar.rows), exceptions.rows, holidays);
    }
  }

  /** `_getDOWCode`. */
  method GetDowCode(calendar: Query<Option<CalendarRow>>, exceptions: Query<seq<int>>, holidays: seq<Option<int>>)
    returns (code: int)
    ensures code == DowCode(calendar, exceptions, holidays)
  {
    var weekday := false;
    var weekend := false;
    if calendar.Failed? {
      return Finish(Flags(weekday, weekend));
    }
    if calendar.rows.Some? {
      var row := calendar.rows.value;
      if row.monday == 1 || row.tuesday == 1 || row.wednesday == 1 || row.thursday == 1 || row.friday == 1 {
        weekday := true;
      }
      if row.saturday == 1 || row.sunday == 1 {
        weekend := true;
      }
    }
    if exceptions.Failed? {
      return Finish(Flags(weekday, weekend));
    }
    var dates := exceptions.rows;
    var i := 0;
    while i < |dates|
      invariant 0 <= i <= |dates|
      invariant Flags(weekday, weekend) == ExceptionFlags(CalendarFlags(calendar.rows), dates[..i], holidays)
    {
      var date := dates[i];
      assert dates[..i + 1][..i] == dates[..i];
      if Some(date) !in holidays {
        if IsWeekendDate(date) {
          weekend := true;
        } else {
          weekday := true;
        }
      }
      i := i + 1;
    }
    assert dates[..i] == dates;
    code := Finish(Flags(weekday, weekend));
  }

  // ----------------------------------------------------------- peak rows

  /** A stop time of the trip at a terminal stop: the arrival and departure
      (seconds after midnight) and the trip's direction. */
  datatype TermStop = TermStop(arrival: int, departure: int, direction: Option<int>)

  /** Inbound (direction 1) trips arriving 6-10 AM and outbound (direction 0)
      trips leaving 4-8 PM are peak, both ends included. */
  predicate IsPeakStop(s: TermStop) {
    (s.direction == Some(1) && SixAm <= s.arrival <= TenAm) ||
    (s.direction == Some(0) && FourPm <= s.departure <= EightPm)
  }

  lemma PeakWindowEdges(a: int, d: int)
    ensures IsPeakStop(TermStop(SixAm, d, Some(1))) && IsPeakStop(TermStop(TenAm, d, Some(1)))
    ensures !IsPeakStop(TermStop(SixAm - 1, d, Some(1))) && !IsPeakStop(TermStop(TenAm + 1, d, Some(1)))
    ensures IsPeakStop(TermStop(a, FourPm, Some(0))) && IsPeakStop(TermStop(a, EightPm, Some(0)))
    ensures !IsPeakStop(TermStop(a, FourPm - 1, Some(0))) && !IsPeakStop(TermStop(a, EightPm + 1, Some(0)))
    ensures forall dir :: dir != Some(0) && dir != Some(1) ==> !IsPeakStop(TermStop(a, d, dir))
  {
  }

  /** `_operatesDuringPeak`: true as soon as one terminal stop time is peak;
      false when none is, or when the query fails. */
  method OperatesDuringPeak(rows: Query<seq<TermStop>>) returns (peak: bool)
    ensures peak <==> rows.Answer? && exists i :: 0 <= i < |rows.rows| && IsPeakStop(rows.rows[i])
  {
    if rows.Failed? {
      return false;
    }
    var stops := rows.rows;
    var i := 0;
    while i < |stops|
      invariant 0 <= i <= |stops|
      invariant forall k :: 0 <= k < i ==> !IsPeakStop(stops[k])
    {
      var s := stops[i];
      if s.direction == Some(1) {
        if s.arrival >= SixAm && s.arrival <= TenAm {
          return true;
        }
      } else if s.direction == Some(0) {
        if s.departure >= FourPm && s.departure <= EightPm {
          return true;
        }
      }
      i := i + 1;
    }
    return false;
  }

  // ------------------------------------------------------ holiday table

  /** The value of each header in a row; of two equal headers the later
      column wins. */
  function ParamsOf(headers: seq<string>, values: seq<string>): map<string, string>
    requires |values| == |headers|
  {
    if headers == [] then map[]
    else ParamsOf(headers[..|headers| - 1], values[..|values| - 1])[headers[|headers| - 1] := values[|values| - 1]]
  }

  /** A header names a parameter of the row, and its value is the field
      under its last occurrence. */
  lemma {:induction false} ParamsOfExactly(headers: seq<string>, values: seq<string>, name: string)
    requires |values| == |headers|
    ensures name in ParamsOf(headers, values) <==> name in headers
    ensures forall j :: LastIndexOf(headers, j, name) ==> ParamsOf(headers, values)[name] == values[j]
  {
    if headers != [] {
      var n := |headers| - 1;
      ParamsOfExactly(headers[..n], values[..n], name);
      assert headers == headers[..n] + [headers[n]];
      forall j | LastIndexOf(headers, j, name) && j < n
        ensures ParamsOf(headers, values)[name] == values[j]
      {
        assert headers[..n][j] == name && values[..n][j] == values[j];
        assert forall k :: j < k < n ==> headers[..n][k] != name;
      }
    }
  }

  /** `j` is the last column headed `name`. */
  predicate LastIndexOf(headers: seq<string>, j: int, name: string) {
    0 <= j < |headers| && headers[j] == name && forall k :: j < k < |headers| ==> headers[k] != name
  }

  /** The loop that fills `params`. */
  method BuildParams(headers: seq<string>, values: seq<string>) returns (params: map<string, string>)
    requires |values| == |headers|
    ensures params == ParamsOf(headers, values)
  {
    params := map[];
    var i := 0;
    while i < |values|
      invariant 0 <= i <= |values|
      invariant params == ParamsOf(headers[..i], values[..i])
    {
      assert headers[..i + 1][..i] == headers[..i] && values[..i + 1][..i] == values[..i];
      params := params[headers[i] := values[i]];
      i := i + 1;
    }
    assert headers[..i] == headers && values[..i] == values;
  }

  /** `parseInt(params[name])`; an absent parameter reads as `NaN`. */
  function Param(params: map<string, string>, name: string): Option<int> {
    if name in params then ParseInt(params[name]) else None
  }

  /** The holidays a data row adds: its `date` when its `peak` reads as 0,
      nothing for a row whose field count differs from the header. */
  function RowHolidays(headers: seq<string>, line: string): (r: seq<Option<int>>)
    ensures |r| <= 1
    ensures |r| == 1 <==> |Split(line, ',')| == |headers| && Param(ParamsOf(headers, Split(line, ',')), "peak") == Some(0)
    ensures |r| == 1 ==> r[0] == Param(ParamsOf(headers, Split(line, ',')), "date")
  {
    var values := Split(line, ',');
    if |values| != |headers| then []
    else
      var params := ParamsOf(headers, values);
      if Param(params, "peak") == Some(0) then [Param(params, "date")] else []
  }

  /** The holidays the first `n` lines of a file add: the first line is the
      header, every later line a possible row. */
  function HolidaysBefore(lines: seq<string>, n: int): seq<Option<int>>
    requires 0 <= n <= |lines|
  {
    if n <= 1 then []
    else HolidaysBefore(lines, n - 1) + RowHolidays(Split(lines[0], ','), lines[n - 1])
  }

  /** The holidays a whole file adds. */
  function FileHolidays(lines: seq<string>): seq<Option<int>> {
    HolidaysBefore(lines, |lines|)
  }

  /** The holiday list. The source keeps it in a module-level array that
      each read of the file appends to. */
  class HolidayList {
    var dates: seq<Option<int>>

    constructor()
      ensures dates == []
    {
      dates := [];
    }

    /** `_readHolidays`: a missing file adds nothing; otherwise each line,
        in order, goes through the line handler (the first one while no
        header has been read yet). */
    method ReadHolidays(file: Option<seq<string>>)
      modifies this
      ensures file.None? ==> dates == old(dates)
      ensures file.Some? ==> dates == old(dates) + FileHolidays(file.value)
    {
      if file.None? {
        return;
      }
      var lines := file.value;
      if lines == [] {
        return;
      }
      var headers := OnLine([], lines[0]);
      var n := 1;
      while n < |lines|
        invariant 1 <= n <= |lines|
        invariant headers == Split(lines[0], ',')
        invariant dates == old(dates) + HolidaysBefore(lines, n)
      {
        headers := OnLine(headers, lines[n]);
        n := n + 1;
      }
    }

    /** The `line` handler: the first line becomes the header (its split is
        never empty); a later line with as many fields as the header is a
        row, and a row whose `peak` reads as 0 adds its `date`. */
    method OnLine(headers: seq<string>, line: string) returns (newHeaders: seq<string>)
      modifies this
      ensures headers == [] ==> newHeaders == Split(line, ',') && newHeaders != [] && dates == old(dates)
      ensures headers != [] ==> newHeaders == headers && dates == old(dates) + RowHolidays(headers, line)
    {
      var values := Split(line, ',');
      newHeaders := headers;
      if |headers| == 0 {
        newHeaders := values;
      } else if |values| == |headers| {
        var params := BuildParams(headers, values);
        if Param(params, "peak") == Some(0) {
          dates := dates + [Param(params, "date")];
        }
      }
    }
  }

  /** A file made of a header and joined rows adds the date of each row
      whose peak field reads as 0. */
  lemma RowOfFields(headers: seq<string>, fields: seq<string>)
    requires |headers| >= 1 && |fields| == |headers|
    requires forall i :: 0 <= i < |fields| ==> ',' !in fields[i]
    ensures RowHolidays(headers, Join(fields, ',')) ==
      (if Param(ParamsOf(headers, fields), "peak") == Some(0) then [Param(ParamsOf(headers, fields), "date")] else [])
  {
    SplitJoin(fields, ',');
  }

  // ------------------------------------------------------------ peak

  /** The combination in `peak`: the day-of-week code when the trip stops at
      a terminal, runs on weekdays and is peak at a terminal; 0 otherwise. */
  function PeakCode(stopsAtTerm: bool, dow: int, operatesInPeak: bool): (r: int)
    requires -1 <= dow <= 2
    ensures r == 0 || r == 1 || r == 2
    ensures r > 0 <==> stopsAtTerm && dow > 0 && operatesInPeak
    ensures r > 0 ==> r == dow
  {
    if stopsAtTerm then
      if dow > 0 then (if operatesInPeak then dow else 0) else 0
    else 0
  }

  /** `peak`: read the holiday file, then classify the trip from the results
      of its three queries. */
  method Peak(table: HolidayList, file: Option<seq<string>>, count: Query<Option<int>>,
              calendar: Query<Option<CalendarRow>>, exceptions: Query<seq<int>>, termStops: Query<seq<TermStop>>)
    returns (code: int)
    modifies table
    ensures file.Some? ==> table.dates == old(table.dates) + FileHolidays(file.value)
    ensures file.None? ==> table.dates == old(table.dates)
    ensures code == 0 || code == 1 || code == 2
    ensures code > 0 <==>
      StopsAtTerm(count) && DowCode(calendar, exceptions, table.dates) > 0 &&
      termStops.Answer? && exists i :: 0 <= i < |termStops.rows| && IsPeakStop(termStops.rows[i])
    ensures code > 0 ==> code == DowCode(calendar, exceptions, table.dates)
  {
    table.ReadHolidays(file);
    if !StopsAtTerm(count) {
      return 0;
    }
    var dow := GetDowCode(calendar, exceptions, table.dates);
    DowCodeWeekday(calendar, exceptions, table.dates);
    if dow > 0 {
      var peak := OperatesDuringPeak(termStops);
      code := PeakCode(true, dow, peak);
    } else {
      code := 0;
    }
  }
}
