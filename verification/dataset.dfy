/**
 * The in-memory trip table.  Timestamps arrive already decoded into the
 * calendar fields the script reads from them (`dt.month`, `dt.day_name()`,
 * `dt.hour`); a missing CSV cell is `None`.
 */
module Dataset {
  import opened Results
  import Seqs

  /** `dt.month` of a start time: 1 for January. */
  type Month = m: int | 1 <= m <= 12 witness 1

  /** `dt.hour` of a start time. */
  type Hour = h: int | 0 <= h <= 23 witness 0

  /** One CSV row: a bikeshare ride. */
  datatype Trip = Trip(
    month: Month,
    weekday: string,          // `dt.day_name()`, e.g. "Monday"
    hour: Hour,
    startStation: string,
    endStation: string,
    duration: int,            // "Trip Duration", seconds
    userType: string,
    gender: Option<string>,   // NaN or no such column: None
    birthYear: Option<int>)   // NaN or no such column: None

  /** A row together with its DataFrame index label. */
  datatype Row = Row(index: int, trip: Trip)

  /**
   * A loaded DataFrame.  `hasDemographics` records whether the file has the
   * "Gender" and "Birth Year" columns (the Washington file has neither).
   */
  datatype Frame = Frame(rows: seq<Row>, hasDemographics: bool)

  /** The trips of a row sequence, index labels dropped. */
  function Trips(rows: seq<Row>): (ts: seq<Trip>)
    ensures |ts| == |rows|
    ensures forall i :: 0 <= i < |rows| ==> ts[i] == rows[i].trip
  {
    seq(|rows|, i requires 0 <= i < |rows| => rows[i].trip)
  }

  /** Index labels are 0, 1, ..., n-1. */
  predicate DenseIndex(rows: seq<Row>)
  {
    forall i :: 0 <= i < |rows| ==> rows[i].index == i
  }

  /** `reset_index(drop=True)`: the same trips in the same order, labelled densely from 0. */
  function ResetIndex(rows: seq<Row>): (r: seq<Row>)
    ensures DenseIndex(r)
    ensures Trips(r) == Trips(rows)
  {
    seq(|rows|, i requires 0 <= i < |rows| => Row(i, rows[i].trip))
  }

  /** Resetting an already dense index changes nothing. */
  lemma ResetIndexOfDense(rows: seq<Row>)
    requires DenseIndex(rows)
    ensures ResetIndex(rows) == rows
  {
    assert forall i :: 0 <= i < |rows| ==> ResetIndex(rows)[i] == rows[i];
  }

  /** A condition on trips read as a boolean mask over rows. */
  function OnTrip(p: Trip -> bool): (rowTest: Row -> bool)
  {
    (row: Row) => p(row.trip)
  }

  /** Selecting rows by a condition on their trip, then dropping labels, selects those trips. */
  lemma {:induction false} TripsOfFilter(rows: seq<Row>, p: Trip -> bool)
    ensures Trips(Seqs.Filter(rows, OnTrip(p))) == Seqs.Filter(Trips(rows), p)
  {
    if |rows| > 0 {
      TripsOfFilter(rows[1..], p);
      assert Trips(rows)[1..] == Trips(rows[1..]);
      if p(rows[0].trip) {
        var rest := Seqs.Filter(rows[1..], OnTrip(p));
        assert Trips([rows[0]] + rest) == [rows[0].trip] + Trips(rest);
      }
    }
  }
}
