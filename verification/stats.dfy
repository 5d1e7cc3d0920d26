/**
 * The four report sections: `time_stats`, `station_stats`,
 * `trip_duration_stats` and `user_stats`, as the values they print.
 */
module Stats {
  import opened Results
  import opened Seqs
  import opened Text
  import opened Dataset
  import opened Filters
  import Loader

  /** Why a report section cannot be produced. */
  datatype StatsError =
    | EmptyFrame                      // `mode()[0]` of an empty column raises `KeyError`
    | MonthOutOfRange(month: Month)   // `months[m - 1]` raises `IndexError` past June

  // ----- columns -----

  function MonthColumn(ts: seq<Trip>): (c: seq<int>)
  {
    seq(|ts|, i requires 0 <= i < |ts| => ts[i].month as int)
  }

  function WeekdayColumn(ts: seq<Trip>): (c: seq<string>)
  {
    seq(|ts|, i requires 0 <= i < |ts| => ts[i].weekday)
  }

  function HourColumn(ts: seq<Trip>): (c: seq<int>)
  {
    seq(|ts|, i requires 0 <= i < |ts| => ts[i].hour as int)
  }

  function StartColumn(ts: seq<Trip>): (c: seq<string>)
  {
    seq(|ts|, i requires 0 <= i < |ts| => ts[i].startStation)
  }

  function EndColumn(ts: seq<Trip>): (c: seq<string>)
  {
    seq(|ts|, i requires 0 <= i < |ts| => ts[i].endStation)
  }

  /** The label of a journey: `start + " to " + end`. */
  function Journey(t: Trip): string
  {
    t.startStation + " to " + t.endStation
  }

  function JourneyColumn(ts: seq<Trip>): (c: seq<string>)
  {
    seq(|ts|, i requires 0 <= i < |ts| => Journey(ts[i]))
  }

  function UserTypeColumn(ts: seq<Trip>): (c: seq<string>)
  {
    seq(|ts|, i requires 0 <= i < |ts| => ts[i].userType)
  }

  /** The user types in the column are those of the rows' trips. */
  lemma UserTypesOfRows(rows: seq<Row>)
    ensures var c := UserTypeColumn(Trips(rows));
      (set i | 0 <= i < |c| :: c[i]) == set i | 0 <= i < |rows| :: rows[i].trip.userType
  {
    var c := UserTypeColumn(Trips(rows));
    assert forall i :: 0 <= i < |rows| ==> c[i] == rows[i].trip.userType;
  }

  /** The non-missing genders, in row order (pandas skips NaN). */
  function KnownGenders(ts: seq<Trip>): (c: seq<string>)
    ensures forall g :: g in c <==> exists i :: 0 <= i < |ts| && ts[i].gender == Some(g)
  {
    if |ts| == 0 then []
    else (if ts[0].gender.Some? then [ts[0].gender.value] else []) + KnownGenders(ts[1..])
  }

  /** The non-missing birth years, in row order (pandas skips NaN). */
  function KnownBirthYears(ts: seq<Trip>): (c: seq<int>)
    ensures forall y :: y in c <==> exists i :: 0 <= i < |ts| && ts[i].birthYear == Some(y)
  {
    if |ts| == 0 then []
    else (if ts[0].birthYear.Some? then [ts[0].birthYear.value] else []) + KnownBirthYears(ts[1..])
  }

  // ----- time_stats -----

  /** The three lines of `time_stats`; `month` is the ordinal, `monthName` what is printed. */
  datatype TimeReport = TimeReport(month: Month, monthName: string, weekday: string, hour: Hour)

  function TimeStats(f: Frame): (r: Result<TimeReport, StatsError>)
    ensures r == Err(EmptyFrame) <==> |f.rows| == 0
    ensures r.Err? && r.error.MonthOutOfRange? ==>
      r.error.month > 6 && IsMode(MonthColumn(Trips(f.rows)), r.error.month as int)
    ensures r.Ok? ==> IsMode(MonthColumn(Trips(f.rows)), r.value.month as int)
    ensures r.Ok? ==> r.value.month <= 6 && r.value.monthName == Title(Months[r.value.month - 1])
    ensures r.Ok? ==> IsMode(WeekdayColumn(Trips(f.rows)), r.value.weekday)
    ensures r.Ok? ==> IsMode(HourColumn(Trips(f.rows)), r.value.hour as int)
  {
    var ts := Trips(f.rows);
    match Mode(MonthColumn(ts))
    case None => Err(EmptyFrame)
    case Some(m) =>
      var month: Month := m;
      match Loader.MonthName(month)
      case None => Err(MonthOutOfRange(month))
      case Some(name) =>
        var weekday := Mode(WeekdayColumn(ts)).value;
        var hour: Hour := Mode(HourColumn(ts)).value;
        Ok(TimeReport(month, Title(name), weekday, hour))
  }

  /** A month that occurs strictly more often than any other is the one reported. */
  lemma DominantMonthReported(f: Frame, m: Month)
    requires m <= 6 && m as int in MonthColumn(Trips(f.rows))
    requires var c := MonthColumn(Trips(f.rows));
      forall i :: 0 <= i < |c| && c[i] != m as int ==> Count(c, c[i]) < Count(c, m as int)
    ensures TimeStats(f).Ok?
    ensures TimeStats(f).value.monthName == Title(Months[m - 1])
  {
    ModeOfStrictMaximum(MonthColumn(Trips(f.rows)), m as int);
  }

  /** After `load_data` with a month filter, a non-empty result reports the requested month. */
  lemma MonthFilterReportsMonth(table: Frame, month: string, day: string)
    requires month in Months
    requires exists i :: 0 <= i < |table.rows| && Loader.Selected(table.rows[i].trip, month, day)
    ensures var r := TimeStats(Loader.LoadData(table, month, day).value);
      r.Ok? && r.value.monthName == Title(month)
  {
    var f := Loader.LoadData(table, month, day).value;
    Loader.SomeSelectedLoadsNonEmpty(table, month, day);
    Loader.MonthFilterKeepsOneMonth(table, month, day);
    var m := Loader.MonthOrdinal(month).value;
    var c := MonthColumn(Trips(f.rows));
    assert c[0] == m as int;
    DominantMonthReported(f, m);
  }

  /** After `load_data` with a day filter, the weekday reported is the requested day in title case. */
  lemma DayFilterReportsDay(table: Frame, month: string, day: string)
    requires day != "all"
    requires month == "all" || month in Months
    ensures var r := TimeStats(Loader.LoadData(table, month, day).value);
      r.Ok? ==> r.value.weekday == Title(day)
  {
    var f := Loader.LoadData(table, month, day).value;
    var r := TimeStats(f);
    if r.Err? {
      return;
    }
    Loader.LoadDataSelects(table, month, day);
    var c := WeekdayColumn(Trips(f.rows));
    var k :| 0 <= k < |c| && c[k] == r.value.weekday;
    assert Loader.Selected(f.rows[k].trip, month, day);
  }

  // ----- station_stats -----

  /** The three lines of `station_stats`. */
  datatype StationReport = StationReport(start: string, end: string, journey: string)

  function StationStats(f: Frame): (r: Result<StationReport, StatsError>)
    ensures r.Err? <==> |f.rows| == 0
    ensures r.Err? ==> r.error == EmptyFrame
    ensures r.Ok? ==> IsMode(StartColumn(Trips(f.rows)), r.value.start)
    ensures r.Ok? ==> IsMode(EndColumn(Trips(f.rows)), r.value.end)
    ensures r.Ok? ==> IsMode(JourneyColumn(Trips(f.rows)), r.value.journey)
    ensures r.Ok? ==> exists i :: 0 <= i < |f.rows| && r.value.journey == Journey(f.rows[i].trip)
  {
    var ts := Trips(f.rows);
    if |ts| == 0 then Err(EmptyFrame)
    else
      var journey := Mode(JourneyColumn(ts)).value;
      ghost var i :| 0 <= i < |ts| && JourneyColumn(ts)[i] == journey;
      assert journey == Journey(f.rows[i].trip);
      Ok(StationReport(Mode(StartColumn(ts)).value, Mode(EndColumn(ts)).value, journey))
  }

  // ----- trip_duration_stats -----

  /** Sum of the trip durations, the reference for `TotalTravelTime`. */
  function SumDurations(ts: seq<Trip>): (total: int)
  {
    if |ts| == 0 then 0 else ts[0].duration + SumDurations(ts[1..])
  }

  lemma {:induction false} SumDurationsAppend(a: seq<Trip>, b: seq<Trip>)
    ensures SumDurations(a + b) == SumDurations(a) + SumDurations(b)
  {
    if |a| == 0 {
      assert a + b == b;
    } else {
      assert (a + b)[1..] == a[1..] + b;
      SumDurationsAppend(a[1..], b);
    }
  }

  /** `df['Trip Duration'].sum()`: one pass over the rows, accumulating. */
  method TotalTravelTime(f: Frame) returns (total: int)
    ensures total == SumDurations(Trips(f.rows))
  {
    total := 0;
    var i := 0;
    while i < |f.rows|
      invariant 0 <= i <= |f.rows|
      invariant total == SumDurations(Trips(f.rows)[..i])
    {
      var ts := Trips(f.rows);
      assert ts[..i + 1] == ts[..i] + [ts[i]];
      SumDurationsAppend(ts[..i], [ts[i]]);
      total := total + f.rows[i].trip.duration;
      i := i + 1;
    }
    assert Trips(f.rows)[..i] == Trips(f.rows);
  }

  /** The total splits over any month/day selection and its complement. */
  lemma {:induction false} SumDurationsSplit(ts: seq<Trip>, p: Trip -> bool, notP: Trip -> bool)
    requires forall t :: notP(t) == !p(t)
    ensures SumDurations(Filter(ts, p)) + SumDurations(Filter(ts, notP)) == SumDurations(ts)
  {
    if |ts| > 0 {
      SumDurationsSplit(ts[1..], p, notP);
      if p(ts[0]) {
        assert ([ts[0]] + Filter(ts[1..], p))[1..] == Filter(ts[1..], p);
      } else {
        assert ([ts[0]] + Filter(ts[1..], notP))[1..] == Filter(ts[1..], notP);
      }
    }
  }

  // ----- user_stats -----

  /** Earliest, most recent and most common birth year. */
  datatype BirthYears = BirthYears(earliest: int, latest: int, common: int)

  /**
   * What `user_stats` prints: user-type counts always; gender counts when the
   * columns exist; birth years when the columns exist and some year is known
   * (otherwise `int(NaN)` raises and the "no Gender / Birth year data" line is
   * printed instead).
   */
  datatype UserReport = UserReport(
    userTypes: map<string, nat>,
    genders: Option<map<string, nat>>,
    birthYears: Option<BirthYears>)

  /** `int(min())`, `int(max())`, `int(mode()[0])` of the known birth years; `None` when there are none. */
  function BirthYearStats(ys: seq<int>): (r: Option<BirthYears>)
    ensures r.Some? <==> |ys| > 0
    ensures r.Some? ==> r.value.earliest in ys && forall i :: 0 <= i < |ys| ==> r.value.earliest <= ys[i]
    ensures r.Some? ==> r.value.latest in ys && forall i :: 0 <= i < |ys| ==> ys[i] <= r.value.latest
    ensures r.Some? ==> IsMode(ys, r.value.common)
    ensures r.Some? ==> r.value.earliest <= r.value.common <= r.value.latest
  {
    if |ys| == 0 then None
    else Some(BirthYears(Min(ys), Max(ys), Mode(ys).value))
  }

  function UserStats(f: Frame): (r: UserReport)
    ensures var ts := Trips(f.rows);
      forall i :: 0 <= i < |ts| ==> ts[i].userType in r.userTypes
    ensures r.userTypes.Keys == set i | 0 <= i < |f.rows| :: f.rows[i].trip.userType
    ensures forall u :: u in r.userTypes ==> r.userTypes[u] == Count(UserTypeColumn(Trips(f.rows)), u)
    ensures r.genders.Some? <==> f.hasDemographics
    ensures r.genders.Some? ==>
      forall g :: g in r.genders.value ==> r.genders.value[g] == Count(KnownGenders(Trips(f.rows)), g)
    ensures r.genders.Some? ==> r.genders.value.Keys == set g | g in KnownGenders(Trips(f.rows))
    ensures r.birthYears.Some? <==> f.hasDemographics && |KnownBirthYears(Trips(f.rows))| > 0
    ensures r.birthYears.Some? ==> r.birthYears == BirthYearStats(KnownBirthYears(Trips(f.rows)))
  {
    var ts := Trips(f.rows);
    var userTypes := ValueCounts(UserTypeColumn(ts));
    UserTypesOfRows(f.rows);
    if !f.hasDemographics then UserReport(userTypes, None, None)
    else
      var genders := ValueCounts(KnownGenders(ts));
      ValuesAreElements(KnownGenders(ts));
      UserReport(userTypes, Some(genders), BirthYearStats(KnownBirthYears(ts)))
  }
}
