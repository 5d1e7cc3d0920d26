# Bikeshare report script — a verified functional model

`bikeshare_2.py` is an interactive console script over US bikeshare trip data
(Chicago, New York City, Washington). It asks for a city, a month
(january–june or all) and a weekday (or all). It loads the city's CSV file and
keeps the trips of the requested month and day. It then prints the most
frequent travel times, the most popular stations and journey, the total trip
duration, and user demographics. On request it pages through the raw rows five
at a time.

This project models the sequential logic under the pandas calls as pure Dafny
functions over immutable data:

- `Results`: `Option` and `Result`.
- `Seqs`: occurrence counts, boolean-mask filtering, subsequences, modes,
  `value_counts`, min and max.
- `Text`: ASCII models of Python's `str.lower()` and `str.title()`.
- `Filters` (`get_filters`): prompts with re-prompt loops over a sequence of
  typed answers, the enumerated input sets, the city rename and `CITY_DATA`.
- `Dataset`: `Trip`, `Row` (a trip and its index label), `Frame` (rows plus
  whether the Gender/Birth Year columns exist), `reset_index(drop=True)`.
- `Loader` (`load_data`): month-name ordinals and the month and day filters.
- `Stats`: `time_stats`, `station_stats`, `trip_duration_stats` and
  `user_stats`, modelled as the values they print.
- `RawData` (`display_raw`): the five-row paginator, with the user's answers
  as an input sequence.

A trip carries its start time already decoded: `month` (1–12), `weekday` (the
`day_name()` string) and `hour` (0–23). A missing Gender or Birth Year cell (NaN) is `None`; the other columns are
assumed complete.
Where the script would raise, the model returns an error value:
- `mode()[0]` of an empty column → `EmptyFrame`.
- `months.index` of an unknown name → `UnknownMonth`.
- `months[m - 1]` past June → `MonthOutOfRange`.
- `input` at end of input → the `InputEnded` outcome, or `None` for a prompt.

## Model

| member | source | states |
|---|---|---|
| Filters.Prompt | bikeshare_2.py:19-21 | The accepted answer is the lower-cased form of the first typed answer that lies in the enumerated set; every earlier answer was rejected; there is no result exactly when no answer is valid. |
| Filters.GetFilters | bikeshare_2.py:8-43 | The filter is the lower-cased first valid city answer (renamed), then the first valid month answer after it, then the first valid day answer after that. There is no filter exactly when no such three answers exist. The city is a renamed enumerated city whose file is a `CITY_DATA` value; month and day are lower-case members of their enumerated sets, "all" included. |
| Filters.AcceptedPositions | bikeshare_2.py:19-40 | The three prompts run in order, each from the answer after the previous one's accepted answer. The positions returned are the accepted answers; there are none exactly when no three answers can be accepted. |
| Filters.AcceptedAfterCity | bikeshare_2.py:30-40 | Once a city is accepted, the month and day prompts accept the positions returned, or nothing can be accepted at all. |
| Filters.AcceptedAfterMonth | bikeshare_2.py:38-40 | Once city and month are accepted, the day prompt accepts the position returned, or nothing can be accepted at all. |
| Filters.PromptFrom | bikeshare_2.py:30-32 | A prompt started partway through the answers accepts the first valid answer from there on, and none exactly when there is none. |
| Filters.AcceptedUnique | bikeshare_2.py:19-40 | The positions of the answers the three prompts accept are unique. |
| Filters.Rename | bikeshare_2.py:23-24 | "new york city" becomes "new_york_city"; every other city is kept. No accepted city keeps a space. |
| Filters.ValidAnswersAccepted | bikeshare_2.py:19-40 | Three valid answers in a row yield exactly their lower-cased values, with the city renamed. |
| Filters.NewYorkRenamed | bikeshare_2.py:23-24 | "new york city" becomes "new_york_city". |
| Filters.CityFileAgrees | bikeshare_2.py:4-6 | The cities accepted at the prompt are exactly the `CITY_DATA` keys. For each of them, the renamed city plus ".csv" is exactly its `CITY_DATA` file. |
| Text.Lower | bikeshare_2.py:19 | The lower-cased answer has no upper-case letter, has the same length, and agrees with the input letter by letter up to case. |
| Text.LowerOfLowerCase | bikeshare_2.py:30 | Lower-casing an already lower-case string changes nothing, so lower-casing is idempotent. |
| Text.Title | bikeshare_2.py:67 | Title case keeps the length and changes only the case of letters: lower-casing the result gives the lower-cased input. |
| Text.TitleMarksWordStarts | bikeshare_2.py:82 | Non-letters are kept. A letter comes out upper-case exactly when no letter precedes it, and lower-case otherwise. |
| Text.TitleIdempotent | bikeshare_2.py:67 | Title-casing a title-cased string changes nothing. |
| Text.TitleOfLowerWord | bikeshare_2.py:67 | The title case of a lower-case word upper-cases its first letter and keeps the rest. |
| Loader.DayTitlesAreDayNames | bikeshare_2.py:67 | `day.title()` of each accepted day name is the `day_name()` string of that weekday. |
| Loader.MonthOrdinal | bikeshare_2.py:62-63 | A name has an ordinal exactly when it is one of january..june. The ordinal is at most 6 and is the 1-based position of the name. |
| Loader.MonthName | bikeshare_2.py:81-82 | An ordinal has a printable name exactly when it is at most 6; past June the list lookup fails. |
| Loader.MonthNameRoundTrip | bikeshare_2.py:62-63 | Name to ordinal to name is the identity on january..june, and so is ordinal to name to ordinal on 1..6. |
| Loader.LoadData | bikeshare_2.py:46-71 | Loading fails exactly when the month is neither "all" nor a known month name. On success the result is densely re-indexed, keeps the column set and has no more rows than the table. |
| Loader.LoadedTrips | bikeshare_2.py:61-69 | Month filter, then day filter, then re-index: the trips returned are exactly the table's trips that satisfy both requests, in table order. |
| Loader.LoadDataSelects | bikeshare_2.py:61-67 | Every returned trip is in the requested month (by name) and on weekday `day.title()`. Every matching trip comes back as often as it occurs in the table, and no other trip comes back. The result is an order-preserving subsequence of the table. |
| Loader.SomeSelectedLoadsNonEmpty | bikeshare_2.py:61-67 | If some trip of the table matches the request, the loaded frame is not empty. |
| Loader.MonthFilterKeepsOneMonth | bikeshare_2.py:61-64 | After a month filter, every trip's start month is the ordinal of the requested month name. |
| Loader.MonthOfSelected | bikeshare_2.py:61-64 | A trip selected by month name starts in the month whose ordinal that name has. |
| Loader.LoadAllIsIdentity | bikeshare_2.py:61-69 | With "all" for both month and day, the table comes back with the same trips in the same order, only re-indexed. |
| Loader.LoadIdempotent | bikeshare_2.py:61-69 | Loading a result again with the same month and day returns it unchanged. |
| Dataset.ResetIndex | bikeshare_2.py:69 | Re-indexing labels the rows 0..n-1 and keeps the trips and their order. |
| Dataset.ResetIndexOfDense | bikeshare_2.py:69 | Re-indexing an already dense frame is the identity. |
| Dataset.TripsOfFilter | bikeshare_2.py:64 | Masking rows by a condition on their trip, then dropping the labels, selects exactly the trips that satisfy the condition. |
| Seqs.IndexOf | bikeshare_2.py:63 | A value has a position exactly when it occurs. The position holds the value, and no earlier position does. |
| Seqs.Filter | bikeshare_2.py:64 | A boolean mask keeps no more elements than it is given, and every kept element satisfies the condition. |
| Seqs.FilterCount | bikeshare_2.py:64 | A mask keeps every occurrence of a value that satisfies it and none of a value that does not. |
| Seqs.FilterIsSubsequence | bikeshare_2.py:67 | Masking never reorders: the result is a subsequence of the input. |
| Seqs.FilterIdempotent | bikeshare_2.py:64 | Applying the same mask twice equals applying it once. |
| Seqs.FilterFilter | bikeshare_2.py:61-67 | The month mask followed by the day mask equals one mask by their conjunction. |
| Seqs.Mode | bikeshare_2.py:88 | An empty column has no mode. Otherwise the mode occurs in the column and no value occurs strictly more often. |
| Seqs.ModeOfStrictMaximum | bikeshare_2.py:101 | A value that occurs strictly more often than every other value is the mode. |
| Seqs.ValueCounts | bikeshare_2.py:138 | The counted values are exactly the distinct values of the column, each with its number of occurrences. |
| Seqs.Min | bikeshare_2.py:145 | The earliest year occurs in the column and is at most every entry. |
| Seqs.Max | bikeshare_2.py:146 | The most recent year occurs in the column and is at least every entry. |
| Stats.TimeStats | bikeshare_2.py:80-88 | On an empty frame the report fails. If the most common month is past June, the name lookup fails. Otherwise it reports a most-frequent month, weekday and hour, with the month printed as the title-cased name of that ordinal. |
| Stats.DominantMonthReported | bikeshare_2.py:82 | A month in january..june that occurs strictly more often than every other month is the month reported. |
| Stats.MonthFilterReportsMonth | bikeshare_2.py:61-64 | After a month filter on a table with some matching trip, the report succeeds and names the requested month as the most common month. |
| Stats.DayFilterReportsDay | bikeshare_2.py:85 | After a day filter, any weekday reported is the requested day in title case. |
| Stats.StationStats | bikeshare_2.py:100-108 | A non-empty frame reports a most-frequent start station, end station and "start to end" journey. The journey is the label of some trip. An empty frame fails. |
| Stats.TotalTravelTime | bikeshare_2.py:121 | The accumulated total equals the sum of all trip durations. |
| Stats.SumDurationsSplit | bikeshare_2.py:121 | The total duration of any selection plus that of its complement is the total of the whole frame. |
| Stats.BirthYearStats | bikeshare_2.py:145-147 | With known birth years, the report gives their minimum, maximum and a most-frequent year, with earliest ≤ most common ≤ most recent. Without any, there is no report. |
| Stats.UserStats | bikeshare_2.py:136-149 | The user types counted are exactly those of the trips, each with its number of occurrences. Gender counts exist exactly when the columns exist, and then count exactly the known genders. Birth-year statistics exist exactly when the columns exist and some year is known. |
| RawData.DisplayRaw | bikeshare_2.py:154-165 | An empty frame goes straight to the end message. Every page shown was asked for with "yes". The pages laid end to end are a prefix of the frame, five rows per page. The end message appears exactly when they cover the whole frame. |
| RawData.Paginate | bikeshare_2.py:156-165 | The pages are consecutive five-row windows starting at the cursor, each requested by a "yes" and each starting inside the frame. The end message appears exactly when the cursor has passed the last row. A decline stops at the first non-"yes" answer, and running out of answers stops only with rows left. |
| RawData.PagesAreWindows | bikeshare_2.py:163-164 | Page k is the slice `[cursor + 5k, cursor + 5k + 5)` of the frame, clipped at its end. |
| RawData.YesIsLowerYes | bikeshare_2.py:158-159 | An answer counts as "yes" exactly when its lower-case form is "yes". |
| RawData.Window | bikeshare_2.py:163 | A page holds at most five rows, and at least one while the cursor is inside the frame. |
| RawData.PagesContiguous | bikeshare_2.py:163-164 | The pages shown, laid end to end, are exactly the rows from the cursor on, without gap or overlap. |
| RawData.PagesDisjoint | bikeshare_2.py:163-164 | On a re-indexed frame, page k holds the rows labelled 5k, 5k+1, ...; no row is shown twice. |
| RawData.AlwaysYesShowsAll | bikeshare_2.py:157-165 | If every answer is "yes" and there are enough of them, exactly ceil(N/5) pages are shown. They cover the whole frame, and then the end message is printed. |
| RawData.EmptyFrameShowsNothing | bikeshare_2.py:157 | An empty frame shows no page and goes straight to the end message, whatever the answers. |
| RawData.PaginateRun | bikeshare_2.py:157-165 | If the first n answers are "yes" and each of those n pages starts inside the frame, the session shows exactly the first n windows. It then stops for the reason the loop gives: the cursor passed the last row, the answers ran out, or an answer was not "yes". |
| RawData.DisplayRawLoop | bikeshare_2.py:154-165 | The `while` loop as written, with its cursor advancing by five, shows the same pages and ends the same way as the paginator. |

## Left out

- Reading the CSV file and parsing the timestamps (`pd.read_csv`, `pd.to_datetime`, `dt.month`, `dt.day_name()`, `dt.hour`). These are library calls. A trip carries the decoded fields, and a load takes the table as a parameter. A missing file is therefore not modelled.
- Console output and prompts (`print`, the `input` text), the `main` restart loop and the `time.time()` timing lines. These are I/O and clock. Prompt answers are an input sequence.
- The mean trip duration and its two-decimal formatting: floating point.
- Text.Lower: models `str.lower()` on ASCII letters only; Unicode case mapping is not modelled.
- Text.Title: models `str.title()` with ASCII letters as the only cased characters.
- Seqs.Mode: the contract promises only a value of maximal count. The definition breaks a tie in favour of the value that occurs first in the column, while pandas sorts the tied modes and returns the smallest.
- Stats.TimeStats: because of that tie-break, a tie between a month up to June and a later month can fail in the model but not in the script. For the month column [7, 3], pandas reports March, while the model picks 7 and returns `MonthOutOfRange(7)`.
- Stats.TotalTravelTime: integers are unbounded; 64-bit overflow of the pandas sum is not modelled.
- Stats.BirthYearStats: birth years are whole numbers, so the `int(...)` truncation of the float column is the identity here.
- Stats.UserStats: `value_counts` ordering and layout are not modelled, only the counts.
- Missing (NaN) cells in the station, duration and user-type columns are not modelled. These fields are always present in a trip; pandas would skip a NaN in `mode`, `sum` and `value_counts`.
- The printed text of every report line is not modelled, only the values it shows.
