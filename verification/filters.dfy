/**
 * `get_filters`: the three validated prompts (city, month, day) and the
 * city-name-to-data-file convention.  The console is modelled as the
 * sequence of lines the user types, consumed left to right.
 */
module Filters {
  import opened Results
  import opened Text

  /** Accepted city answers (after lower-casing). "all" is not among them. */
  const Cities: seq<string> := ["chicago", "new york city", "washington"]

  /** The `CITY_DATA` table: city name to CSV file. */
  const CityData: map<string, string> :=
    map["chicago" := "chicago.csv",
        "new york city" := "new_york_city.csv",
        "washington" := "washington.csv"]

  /** The months the data covers, in calendar order. */
  const Months: seq<string> := ["january", "february", "march", "april", "may", "june"]

  const ValidMonthInput: seq<string> := Months + ["all"]

  const Days: seq<string> := ["monday", "tuesday", "wednesday", "thursday", "friday", "saturday", "sunday"]

  const ValidDayInput: seq<string> := Days + ["all"]

  /** The values `get_filters` returns. `city` is already renamed for the file system. */
  datatype FilterSpec = FilterSpec(city: string, month: string, day: string)

  /**
   * One prompt with its re-prompt loop: the answers are lower-cased and the first
   * one in `valid` is accepted.  Returns the accepted value and its position;
   * `None` when the input ends before a valid answer (Python raises `EOFError`).
   */
  function Prompt(answers: seq<string>, valid: seq<string>): (r: Option<(string, nat)>)
    ensures r.Some? ==> r.value.1 < |answers|
    ensures r.Some? ==> r.value.0 == Lower(answers[r.value.1]) && r.value.0 in valid
    ensures r.Some? ==> forall j :: 0 <= j < r.value.1 ==> Lower(answers[j]) !in valid
    ensures r.None? <==> forall j :: 0 <= j < |answers| ==> Lower(answers[j]) !in valid
  {
    if |answers| == 0 then None
    else if Lower(answers[0]) in valid then Some((Lower(answers[0]), 0))
    else match Prompt(answers[1..], valid)
      case None => None
      case Some((v, k)) => Some((v, k + 1))
  }

  /** `str.replace` of one character by another, everywhere. */
  function ReplaceChar(s: string, from: char, to: char): (r: string)
  {
    seq(|s|, i requires 0 <= i < |s| => if s[i] == from then to else s[i])
  }

  /** The city name as the data file knows it: only "new york city" has its spaces replaced. */
  function Rename(city: string): (r: string)
    ensures city == "new york city" ==> r == "new_york_city"
    ensures city != "new york city" ==> r == city
    ensures city in Cities ==> ' ' !in r
  {
    if city == "new york city" then ReplaceChar(city, ' ', '_') else city
  }

  /** The file `load_data` reads for a (renamed) city. */
  function FileName(city: string): (name: string)
  {
    city + ".csv"
  }

  /**
   * Position `i` holds the answer a prompt started at position `from` accepts:
   * it lies in `valid` after lower-casing and every answer before it since `from` does not.
   */
  predicate FirstValidAt(answers: seq<string>, from: nat, valid: seq<string>, i: nat)
  {
    && from <= i < |answers|
    && Lower(answers[i]) in valid
    && forall j :: from <= j < i ==> Lower(answers[j]) !in valid
  }

  /** Answers `i`, `j`, `k` are the ones the city, month and day prompts accept, in that order. */
  predicate AcceptedAt(answers: seq<string>, i: nat, j: nat, k: nat)
  {
    && FirstValidAt(answers, 0, Cities, i)
    && FirstValidAt(answers, i + 1, ValidMonthInput, j)
    && FirstValidAt(answers, j + 1, ValidDayInput, k)
  }

  /** A prompt started at position `from` accepts the first valid answer from there on. */
  lemma PromptFrom(answers: seq<string>, from: nat, valid: seq<string>)
    requires from <= |answers|
    ensures match Prompt(answers[from..], valid)
      case Some((v, k)) => FirstValidAt(answers, from, valid, from + k) && v == Lower(answers[from + k])
      case None => forall i: nat :: !FirstValidAt(answers, from, valid, i)
  {
    var rest := answers[from..];
    forall i: nat | FirstValidAt(answers, from, valid, i)
      ensures Prompt(rest, valid).Some?
    {
      assert rest[i - from] == answers[i];
    }
    match Prompt(rest, valid)
    case Some((v, k)) =>
      forall j | from <= j < from + k
        ensures Lower(answers[j]) !in valid
      {
        assert rest[j - from] == answers[j];
      }
    case None =>
  }

  /** Two prompts started at the same position accept the same answer. */
  lemma FirstValidUnique(answers: seq<string>, from: nat, valid: seq<string>, i: nat, i2: nat)
    requires FirstValidAt(answers, from, valid, i) && FirstValidAt(answers, from, valid, i2)
    ensures i == i2
  {
  }

  /** The accepted positions of the three prompts, when they exist, are unique. */
  lemma AcceptedUnique(answers: seq<string>, i: nat, j: nat, k: nat)
    requires AcceptedAt(answers, i, j, k)
    ensures forall i2: nat, j2: nat, k2: nat :: AcceptedAt(answers, i2, j2, k2) ==> i2 == i && j2 == j && k2 == k
  {
    forall i2: nat, j2: nat, k2: nat | AcceptedAt(answers, i2, j2, k2)
      ensures i2 == i && j2 == j && k2 == k
    {
      FirstValidUnique(answers, 0, Cities, i, i2);
      FirstValidUnique(answers, i + 1, ValidMonthInput, j, j2);
      FirstValidUnique(answers, j + 1, ValidDayInput, k, k2);
    }
  }

  /** When the month prompt (after the city accepted at `i`) finds no valid answer, nothing is accepted. */
  lemma NoMonthAccepted(answers: seq<string>, i: nat, from: nat)
    requires FirstValidAt(answers, 0, Cities, i) && from == i + 1
    requires forall j: nat :: !FirstValidAt(answers, from, ValidMonthInput, j)
    ensures forall i2: nat, j2: nat, k2: nat :: !AcceptedAt(answers, i2, j2, k2)
  {
    forall i2: nat, j2: nat, k2: nat | AcceptedAt(answers, i2, j2, k2)
      ensures false
    {
      FirstValidUnique(answers, 0, Cities, i, i2);
    }
  }

  /** When the day prompt (after the month accepted at `j`) finds no valid answer, nothing is accepted. */
  lemma NoDayAccepted(answers: seq<string>, i: nat, j: nat, from: nat)
    requires FirstValidAt(answers, 0, Cities, i) && FirstValidAt(answers, i + 1, ValidMonthInput, j)
    requires from == j + 1
    requires forall k: nat :: !FirstValidAt(answers, from, ValidDayInput, k)
    ensures forall i2: nat, j2: nat, k2: nat :: !AcceptedAt(answers, i2, j2, k2)
  {
    forall i2: nat, j2: nat, k2: nat | AcceptedAt(answers, i2, j2, k2)
      ensures false
    {
      FirstValidUnique(answers, 0, Cities, i, i2);
    }
  }

  /**
   * The three prompts in order: city, month, day.  Each prompt starts at the
   * answer after the one the previous prompt accepted; the result is the
   * positions of the three accepted answers.
   */
  function AcceptedPositions(answers: seq<string>): (r: Option<(nat, nat, nat)>)
    ensures r.Some? ==> AcceptedAt(answers, r.value.0, r.value.1, r.value.2)
    ensures r.None? ==> forall i: nat, j: nat, k: nat :: !AcceptedAt(answers, i, j, k)
  {
    assert answers[0..] == answers;
    PromptFrom(answers, 0, Cities);
    match Prompt(answers, Cities)
    case None => None
    case Some((_, i)) => AcceptedAfterCity(answers, i)
  }

  /** The month prompt, then the day prompt, once the city was accepted at position `i`. */
  function AcceptedAfterCity(answers: seq<string>, i: nat): (r: Option<(nat, nat, nat)>)
    requires FirstValidAt(answers, 0, Cities, i)
    ensures r.Some? ==> AcceptedAt(answers, r.value.0, r.value.1, r.value.2)
    ensures r.None? ==> forall i: nat, j: nat, k: nat :: !AcceptedAt(answers, i, j, k)
  {
    PromptFrom(answers, i + 1, ValidMonthInput);
    match Prompt(answers[i + 1..], ValidMonthInput)
    case None =>
      NoMonthAccepted(answers, i, i + 1);
      None
    case Some((_, dj)) => AcceptedAfterMonth(answers, i, i + 1 + dj)
  }

  /** The day prompt, once the city and the month were accepted at positions `i` and `j`. */
  function AcceptedAfterMonth(answers: seq<string>, i: nat, j: nat): (r: Option<(nat, nat, nat)>)
    requires FirstValidAt(answers, 0, Cities, i) && FirstValidAt(answers, i + 1, ValidMonthInput, j)
    ensures r.Some? ==> AcceptedAt(answers, r.value.0, r.value.1, r.value.2)
    ensures r.None? ==> forall i: nat, j: nat, k: nat :: !AcceptedAt(answers, i, j, k)
  {
    PromptFrom(answers, j + 1, ValidDayInput);
    match Prompt(answers[j + 1..], ValidDayInput)
    case None =>
      NoDayAccepted(answers, i, j, j + 1);
      None
    case Some((_, dk)) => Some((i, j, j + 1 + dk))
  }

  /** `get_filters`: the lower-cased accepted answers, with the city renamed. */
  function GetFilters(answers: seq<string>): (r: Option<FilterSpec>)
    ensures r.Some? <==> exists i: nat, j: nat, k: nat :: AcceptedAt(answers, i, j, k)
    ensures forall i: nat, j: nat, k: nat :: AcceptedAt(answers, i, j, k) ==>
      r == Some(FilterSpec(Rename(Lower(answers[i])), Lower(answers[j]), Lower(answers[k])))
    ensures r.Some? ==> exists c :: c in Cities && r.value.city == Rename(c)
    ensures r.Some? ==> r.value.city in ["chicago", "new_york_city", "washington"]
    ensures r.Some? ==> r.value.month in ValidMonthInput && IsLowerCase(r.value.month)
    ensures r.Some? ==> r.value.day in ValidDayInput && IsLowerCase(r.value.day)
    ensures r.Some? ==> FileName(r.value.city) in CityData.Values
  {
    match AcceptedPositions(answers)
    case None => None
    case Some((i, j, k)) =>
      AcceptedUnique(answers, i, j, k);
      CityFileAgrees();
      Some(FilterSpec(Rename(Lower(answers[i])), Lower(answers[j]), Lower(answers[k])))
  }

  /** Renaming and appending ".csv" yields exactly the `CITY_DATA` entry of each city. */
  lemma CityFileAgrees()
    ensures CityData.Keys == set c | c in Cities
    ensures forall c :: c in CityData ==> FileName(Rename(c)) == CityData[c]
    ensures forall c :: c in Cities ==> Rename(c) in ["chicago", "new_york_city", "washington"]
  {
    NewYorkRenamed();
    assert "new york city" != "chicago" && "new york city" != "washington";
    forall c | c in CityData
      ensures FileName(Rename(c)) == CityData[c]
    {
      assert c == "chicago" || c == "new york city" || c == "washington";
    }
    assert CityData.Keys == {"chicago", "new york city", "washington"};
  }

  lemma NewYorkRenamed()
    ensures Rename("new york city") == "new_york_city"
  {
  }

  /** Three valid answers in a row are accepted as typed, lower-cased, with the city renamed. */
  lemma ValidAnswersAccepted(city: string, month: string, day: string)
    requires Lower(city) in Cities && Lower(month) in ValidMonthInput && Lower(day) in ValidDayInput
    ensures GetFilters([city, month, day]) == Some(FilterSpec(Rename(Lower(city)), Lower(month), Lower(day)))
  {
    var a := [city, month, day];
    assert Prompt(a, Cities) == Some((Lower(city), 0));
    assert a[1..] == [month, day];
    assert Prompt([month, day], ValidMonthInput) == Some((Lower(month), 0));
    assert [month, day][1..] == [day];
    assert Prompt([day], ValidDayInput) == Some((Lower(day), 0));
  }
}
