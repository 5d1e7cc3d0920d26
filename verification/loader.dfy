/** `load_data`: the month and day filters over a city's trip table. */
module Loader {
  import opened Results
  import opened Seqs
  import opened Text
  import opened Dataset
  import opened Filters

  /** `months.index(month) + 1`: the 1-based calendar ordinal of a month name. */
  function MonthOrdinal(name: string): (r: Option<Month>)
    ensures r.Some? <==> name in Months
    ensures r.Some? ==> r.value <= 6 && Months[r.value - 1] == name
  {
    match IndexOf(Months, name)
    case None => None
    case Some(i) => Some(i + 1)
  }

  /** `months[m - 1]`: the name the report prints for a month ordinal; `None` where Python raises `IndexError`. */
  function MonthName(m: Month): (r: Option<string>)
    ensures r.Some? <==> m <= 6
    ensures r.Some? ==> r.value in Months
  {
    if m <= 6 then Some(Months[m - 1]) else None
  }

  /** Ordinal and name are inverse on january..june. */
  lemma MonthNameRoundTrip()
    ensures forall name :: name in Months ==> MonthName(MonthOrdinal(name).value) == Some(name)
    ensures forall m: Month :: m <= 6 ==> MonthOrdinal(MonthName(m).value) == Some(m)
  {
    forall m: Month | m <= 6
      ensures MonthOrdinal(MonthName(m).value) == Some(m)
    {
      MonthsDistinct();
    }
  }

  lemma MonthsDistinct()
    ensures forall i, j :: 0 <= i < j < |Months| ==> Months[i] != Months[j]
  {
  }

  /** What `dt.day_name()` produces, Monday first. */
  const DayNames: seq<string> := ["Monday", "Tuesday", "Wednesday", "Thursday", "Friday", "Saturday", "Sunday"]

  /** `day.title()` of every accepted day answer other than "all" is the matching `day_name()`. */
  lemma DayTitlesAreDayNames()
    ensures forall i :: 0 <= i < |Days| ==> Title(Days[i]) == DayNames[i]
  {
    DayTitle("monday", "Monday");
    DayTitle("tuesday", "Tuesday");
    DayTitle("wednesday", "Wednesday");
    DayTitle("thursday", "Thursday");
    DayTitle("friday", "Friday");
    DayTitle("saturday", "Saturday");
    DayTitle("sunday", "Sunday");
  }

  lemma DayTitle(day: string, name: string)
    requires |day| > 0 && forall i :: 0 <= i < |day| ==> IsLower(day[i])
    requires name == [UpperChar(day[0])] + day[1..]
    ensures Title(day) == name
  {
    TitleOfLowerWord(day);
  }

  /** Why `load_data` fails: `months.index` raises `ValueError` for an unknown month name. */
  datatype LoadError = UnknownMonth(name: string)

  /** Trips starting in month ordinal `m` (`df['Start Time'].dt.month == month`). */
  function InMonth(m: int): (test: Trip -> bool)
  {
    (t: Trip) => t.month == m
  }

  /** Trips starting on the weekday called `dayName` (`dt.day_name() == day.title()`). */
  function OnDay(dayName: string): (test: Trip -> bool)
  {
    (t: Trip) => t.weekday == dayName
  }

  /**
   * `load_data` after the CSV has been read: filter by month unless "all",
   * then by day unless "all", then `reset_index(drop=True)`.
   */
  function LoadData(table: Frame, month: string, day: string): (r: Result<Frame, LoadError>)
    ensures r.Err? <==> month != "all" && month !in Months
    ensures r.Ok? ==> DenseIndex(r.value.rows) && r.value.hasDemographics == table.hasDemographics
    ensures r.Ok? ==> |r.value.rows| <= |table.rows|
  {
    if month != "all" && MonthOrdinal(month).None? then Err(UnknownMonth(month))
    else
      var byMonth := if month == "all" then table.rows
                     else Filter(table.rows, OnTrip(InMonth(MonthOrdinal(month).value)));
      var byDay := if day == "all" then byMonth
                   else Filter(byMonth, OnTrip(OnDay(Title(day))));
      Ok(Frame(ResetIndex(byDay), table.hasDemographics))
  }

  /**
   * The rows a month/day request asks for, stated by month name rather than
   * ordinal: the trip's month is named `month` and its weekday is `day` in title case.
   */
  predicate Selected(t: Trip, month: string, day: string)
  {
    MonthStep(month)(t) && DayStep(day)(t)
  }

  function Selection(month: string, day: string): (test: Trip -> bool)
  {
    (t: Trip) => Selected(t, month, day)
  }

  /** Comparing ordinals is comparing month names. */
  lemma InMonthByName(month: string, t: Trip)
    requires month in Months
    ensures InMonth(MonthOrdinal(month).value)(t) <==> t.month <= 6 && Months[t.month - 1] == month
  {
    MonthsDistinct();
  }

  /** The month step keeps exactly the trips whose month is named `month`. */
  function MonthStep(month: string): (test: Trip -> bool)
  {
    (t: Trip) => month == "all" || (t.month <= 6 && Months[t.month - 1] == month)
  }

  /** The day step keeps exactly the trips on weekday `day.title()`. */
  function DayStep(day: string): (test: Trip -> bool)
  {
    (t: Trip) => day == "all" || t.weekday == Title(day)
  }

  lemma TripsAfterMonth(rows: seq<Row>, month: string)
    requires month == "all" || month in Months
    ensures var byMonth := if month == "all" then rows
                           else Filter(rows, OnTrip(InMonth(MonthOrdinal(month).value)));
      Trips(byMonth) == Filter(Trips(rows), MonthStep(month))
  {
    if month == "all" {
      FilterAllKept(Trips(rows), MonthStep(month));
    } else {
      var pm := InMonth(MonthOrdinal(month).value);
      TripsOfFilter(rows, pm);
      forall t: Trip
        ensures pm(t) == MonthStep(month)(t)
      {
        InMonthByName(month, t);
      }
      FilterSamePredicate(Trips(rows), pm, MonthStep(month));
    }
  }

  lemma TripsAfterDay(rows: seq<Row>, day: string)
    ensures var byDay := if day == "all" then rows else Filter(rows, OnTrip(OnDay(Title(day))));
      Trips(byDay) == Filter(Trips(rows), DayStep(day))
  {
    if day == "all" {
      FilterAllKept(Trips(rows), DayStep(day));
    } else {
      TripsOfFilter(rows, OnDay(Title(day)));
      FilterSamePredicate(Trips(rows), OnDay(Title(day)), DayStep(day));
    }
  }

  /** The trips `load_data` returns are exactly the selected trips of the table, in table order. */
  lemma LoadedTrips(table: Frame, month: string, day: string)
    requires month == "all" || month in Months
    ensures Trips(LoadData(table, month, day).value.rows) == Filter(Trips(table.rows), Selection(month, day))
  {
    var ts := Trips(table.rows);
    var byMonth := if month == "all" then table.rows
                   else Filter(table.rows, OnTrip(InMonth(MonthOrdinal(month).value)));
    var byDay := if day == "all" then byMonth
                 else Filter(byMonth, OnTrip(OnDay(Title(day))));
    assert LoadData(table, month, day) == Ok(Frame(ResetIndex(byDay), table.hasDemographics));
    TripsAfterMonth(table.rows, month);
    TripsAfterDay(byMonth, day);
    assert Trips(byDay) == Filter(Filter(ts, MonthStep(month)), DayStep(day));
    FilterFilter(ts, MonthStep(month), DayStep(day), Selection(month, day));
  }

  /**
   * Every returned trip matches the request, every matching trip of the table is
   * returned as often as it occurs there, and the table order is kept.
   */
  lemma LoadDataSelects(table: Frame, month: string, day: string)
    requires month == "all" || month in Months
    ensures var out := LoadData(table, month, day).value.rows;
      forall i :: 0 <= i < |out| ==> Selected(out[i].trip, month, day)
    ensures var out := LoadData(table, month, day).value.rows;
      forall t :: Count(Trips(out), t) == if Selected(t, month, day) then Count(Trips(table.rows), t) else 0
    ensures IsSubsequence(Trips(LoadData(table, month, day).value.rows), Trips(table.rows))
  {
    var out := LoadData(table, month, day).value.rows;
    LoadedTrips(table, month, day);
    forall i | 0 <= i < |out|
      ensures Selected(out[i].trip, month, day)
    {
      assert out[i].trip == Trips(out)[i];
    }
    forall t
      ensures Count(Trips(out), t) == if Selected(t, month, day) then Count(Trips(table.rows), t) else 0
    {
      FilterCount(Trips(table.rows), Selection(month, day), t);
    }
    FilterIsSubsequence(Trips(table.rows), Selection(month, day));
  }

  /** A table with some selected trip loads to a non-empty frame. */
  lemma SomeSelectedLoadsNonEmpty(table: Frame, month: string, day: string)
    requires month == "all" || month in Months
    requires exists i :: 0 <= i < |table.rows| && Selected(table.rows[i].trip, month, day)
    ensures |LoadData(table, month, day).value.rows| > 0
  {
    var out := LoadData(table, month, day).value.rows;
    var j :| 0 <= j < |table.rows| && Selected(table.rows[j].trip, month, day);
    var t := table.rows[j].trip;
    assert Trips(table.rows)[j] == t;
    LoadDataSelects(table, month, day);
    assert Count(Trips(out), t) > 0;
  }

  /** After a month filter every trip starts in the requested month. */
  lemma MonthFilterKeepsOneMonth(table: Frame, month: string, day: string)
    requires month in Months
    ensures var out := LoadData(table, month, day).value.rows;
      forall i :: 0 <= i < |out| ==> out[i].trip.month == MonthOrdinal(month).value
  {
    var out := LoadData(table, month, day).value.rows;
    assert forall i :: 0 <= i < |out| ==> Selected(out[i].trip, month, day) by {
      LoadDataSelects(table, month, day);
    }
    forall i | 0 <= i < |out|
      ensures out[i].trip.month == MonthOrdinal(month).value
    {
      MonthOfSelected(out[i].trip, month, day);
    }
  }

  /** A trip selected by a month name starts in the month of that ordinal. */
  lemma MonthOfSelected(t: Trip, month: string, day: string)
    requires month in Months && Selected(t, month, day)
    ensures t.month == MonthOrdinal(month).value
  {
    assert MonthStep(month)(t);
    InMonthByName(month, t);
  }

  /** With month and day both "all", the table comes back whole, in order, densely re-indexed. */
  lemma LoadAllIsIdentity(table: Frame)
    ensures LoadData(table, "all", "all") == Ok(Frame(ResetIndex(table.rows), table.hasDemographics))
    ensures Trips(LoadData(table, "all", "all").value.rows) == Trips(table.rows)
  {
  }

  /** Filtering an already filtered frame by the same request returns it unchanged. */
  lemma LoadIdempotent(table: Frame, month: string, day: string)
    requires month == "all" || month in Months
    ensures var f := LoadData(table, month, day).value;
      LoadData(f, month, day) == Ok(f)
  {
    var f := LoadData(table, month, day).value;
    assert forall i :: 0 <= i < |f.rows| ==> Selected(f.rows[i].trip, month, day) by {
      LoadDataSelects(table, month, day);
    }
    var byMonth := if month == "all" then f.rows
                   else Filter(f.rows, OnTrip(InMonth(MonthOrdinal(month).value)));
    if month != "all" {
      forall i | 0 <= i < |f.rows|
        ensures OnTrip(InMonth(MonthOrdinal(month).value))(f.rows[i])
      {
        MonthOfSelected(f.rows[i].trip, month, day);
      }
      FilterAllKept(f.rows, OnTrip(InMonth(MonthOrdinal(month).value)));
    }
    assert byMonth == f.rows;
    if day != "all" {
      forall i | 0 <= i < |f.rows|
        ensures OnTrip(OnDay(Title(day)))(f.rows[i])
      {
        assert DayStep(day)(f.rows[i].trip);
      }
      FilterAllKept(f.rows, OnTrip(OnDay(Title(day))));
    }
    ResetIndexOfDense(f.rows);
  }
}
