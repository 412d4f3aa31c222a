# electrack: the cheapest-window model

electrack answers `GET /time-slots?durations=1,3&moment_start=…&moment_end=…`.
For every requested duration it returns the cheapest run of consecutive hourly
electricity prices. Before it answers, it makes sure the prices of today are
stored: when no stored price falls on today, it fetches the day's prices from
the provider and persists them in one insert. This project models that core in
Dafny and proves what it promises.

The modules follow the source files:

- `Domain` (`domain.dfy`, from `src/domain.rs`): price points and price windows.
  - `PriceWindow::with_timezone` is modelled here.
  - The price provider is an object whose `fetch_prices` answer is fixed when it is created, with a count of the calls made to it.
- `WindowQuery` (`window_query.dfy`): the SQL window query of `src/price_repository.rs` as pure functions over a sequence of points. It follows the query's steps:
  1. keep the rows within `[start, end]`;
  2. order them by moment;
  3. give each row the frame of itself and the next `k` rows of its calendar date;
  4. compute the average, rounded to three decimals and rendered as text;
  5. return the one row that sorts first.
- `PriceText` (`price_text.dfy`): `round(…, 3)`, the text that `::varchar` gives a scale-3 numeric, and the byte-wise order that `ORDER BY` applies to that text under the C collation.
- `PriceRepository` (`price_repository.dfy`), the store behind the `PriceRepository` trait. It is a class whose fields are:
  - the provider table;
  - the `prices` rows, which `persist_prices` extends all at once or not at all.

  Its methods are the `persist_prices` batch insert, the per-duration loop of `fetch_optimal_price_window_of_window_for_durations`, and the date count of `has_prices_of_date`.
- `Http` (`http.dfy`, from `src/http.rs`), with the request-level pieces:
  - the duration-list parser `get_durations`;
  - `fetch_prices_of_today_from_provider`;
  - the availability gate and the projection of windows in `get_time_slots`.
- `Decimal` (`decimal.dfy`) and `Wrappers` (`wrappers.dfy`): decimal digit strings, and the `Option`, `Result` and `Outcome` types.

Modelling choices:

- An instant is a whole number of UTC seconds. An offset is a whole number of seconds in (-86400, 86400).
- The calendar date of a moment is its UTC day, `moment / 86400`.
- "Today" is a parameter of the handler.
- Prices are exact reals.
- The provider's answer is an input. So is the failure, if any, that the database reports for an insert.

Where the code leaves something open or differs from what it evidently means, the model follows the code:

- `LIMIT 1` has no tie-break. `Select` promises only that the chosen window is minimal, but its definition resolves a tie to the first minimal candidate in moment order, so the results of `WindowsFor`, `FetchOptimalWindows` and `GetTimeSlots` name that one.
- The loop over durations stops at the first duration that finds no row, and the whole call fails. Durations are not evaluated independently.
- An unknown provider name fails with the driver's "no rows" message wrapped in `PersistenceError`. There is no separate unknown-provider error.
- Rows are ordered by the text of the rounded average, not by its value, and `duration -= 1` wraps at `i32::MIN` in a release build. The query is modelled both as written (`AsWritten`) and as intended (`Intended`); the store and the handler use the query as written. See Findings.

## Model

| member | source | states |
|---|---|---|
| Domain.Day | src/price_repository.rs:117 | `moment::date` taken in UTC: the day number of an instant; `DayMonotone` states that later instants never fall on earlier days |
| Domain.ProviderError.Display | src/domain.rs:38-42 | the 500 body of a failed fetch: `failed to fetch prices: ` followed by the message, which the text ends with |
| Domain.WithTimezone | src/domain.rs:22-28 | both UTC instants are kept, both offsets become the new zone, the price text is copied |
| Domain.WithTimezoneKeepsSpan | src/domain.rs:24-25 | `ends_at - starts_at` is the same before and after, on the clock and on the wall |
| Domain.WithTimezoneLastWins | src/domain.rs:22-28 | projecting to `a` then `b` equals projecting to `b`; projecting twice to one zone is projecting once |
| Domain.WithTimezoneRoundTrip | src/domain.rs:22-28 | the wall clock moves by the offset, and projecting back to UTC recovers the original window |
| Domain.ElectricityPriceProvider.FetchPrices | src/domain.rs:31-36 | returns the provider's answer and counts one more call |
| Decimal.NatTextRoundTrip | src/http.rs:52 | reading the decimal rendering of a natural number back gives that number |
| PriceText.RoundToThousandths | src/price_repository.rs:113 | `round(x, 3)` is the nearest thousandth, with halves going away from zero |
| PriceText.NumericText | src/price_repository.rs:113 | the `::varchar` text has at least five characters with the point fourth from the end, and starts with `-` exactly for negative values |
| PriceText.NumericTextSpellsValue | src/price_repository.rs:113 | the text spells the value: after the optional sign, the integer digits times 1000 plus the three fraction digits read back as the absolute value in thousandths |
| PriceText.ThreeDigitsValue | src/price_repository.rs:113 | three rendered digits read back as their three-digit value |
| PriceText.TextLe | src/price_repository.rs:118 | the comparison `ORDER BY` applies to the varchar alias: code-point lexicographic order; `TextLeReflexive`, `TextLeTotal` and `TextLeTransitive` make it a total preorder, `TextOrderIsNumericBelowTen` and `TextOrderMisranksNegatives` relate it to the values |
| PriceText.TextLeReflexive | src/price_repository.rs:118 | the text order is reflexive |
| PriceText.TextLeTotal | src/price_repository.rs:118 | any two texts are comparable |
| PriceText.TextLeTransitive | src/price_repository.rs:118 | the text order is transitive |
| PriceText.TextOrderIsNumericBelowTen | src/price_repository.rs:113-118 | for rounded values in [0, 10) the text order is exactly the numeric order, in both directions |
| PriceText.TextOrderMisranksNegatives | src/price_repository.rs:113-118 | `-0.050` sorts strictly before `-0.100` |
| WindowQuery.Clamp | src/price_repository.rs:109 | `duration.clamp(0, 23)`: the result lies in the bounds, a value inside them is kept, and one below or above becomes the nearer bound |
| WindowQuery.Lookahead | src/price_repository.rs:106-109 | the number of following rows is at most 23; d ≤ 1 gives 0, d ≥ 24 gives 23, and d in 1..24 gives d - 1 |
| WindowQuery.WrappingDecrement | src/price_repository.rs:108 | `duration -= 1` in a release build; `WrappingDecrementIsTwosComplement` states it is `duration - 1` modulo 2^32 |
| WindowQuery.LookaheadWrapping | src/price_repository.rs:106-109 | the lookahead the source computes: `duration - 1` with `i32` wrap-around, clamped to 0..23; it stays within 23 |
| WindowQuery.WrappingDecrementIsTwosComplement | src/price_repository.rs:108 | the decrement is `duration - 1` modulo 2^32, i.e. two's-complement wrap-around |
| WindowQuery.LookaheadWrappingAgrees | src/price_repository.rs:106-109 | above `i32::MIN` the wrapping computation equals the intended one |
| WindowQuery.LookaheadWrapsAtMinimum | src/price_repository.rs:108 | at `i32::MIN` the wrapping computation gives 23 while the intended lookahead is 0 |
| WindowQuery.InRange | src/price_repository.rs:116 | exactly the points with `start <= moment <= end` are kept, both bounds inclusive |
| WindowQuery.InRangeKeepsMultiplicity | src/price_repository.rs:116 | each point in range occurs as often as among the stored points; each point out of range not at all |
| WindowQuery.InsertSorted | src/price_repository.rs:117 | inserting into moment-ordered rows keeps them ordered |
| WindowQuery.SortByMoment | src/price_repository.rs:117 | the rows are ordered by moment and are a permutation of the input |
| WindowQuery.RunEnd | src/price_repository.rs:117 | the rows from `i` up to the returned index share row `i`'s date, and the row after them, if any, has another date |
| WindowQuery.Frame | src/price_repository.rs:117 | a frame is 1 to k + 1 consecutive rows starting at its own row, all of its date; it is shorter only at the end of the date's rows |
| WindowQuery.Candidates | src/price_repository.rs:116-117 | one non-empty frame per row in range |
| WindowQuery.Mean | src/price_repository.rs:113 | `avg(prices.price) over price_window`: the sum of the frame's prices over their count; `MeanOfConstant` gives its value on a flat series |
| WindowQuery.RoundedMean | src/price_repository.rs:113 | `round(..., 3)` of that average in thousandths; `RoundToThousandths` bounds it |
| WindowQuery.WindowOf | src/price_repository.rs:112-114 | the select list of one row; `WindowOfSortedFrame` and `SingleRowWindow` state its start, end and price |
| WindowQuery.MaxMoment | src/price_repository.rs:114 | `max(moment)` is a moment of the frame and no moment of the frame exceeds it |
| WindowQuery.KeyLeTotal | src/price_repository.rs:118 | any two frames are comparable under either ordering |
| WindowQuery.KeyLeTransitive | src/price_repository.rs:118 | both orderings are transitive |
| WindowQuery.ArgMinIsMinimal | src/price_repository.rs:118-119 | the selected frame sorts no later than every candidate |
| WindowQuery.CheapestFrame | src/price_repository.rs:118-119 | a cheapest window is the row of a candidate that sorts no later than all others |
| WindowQuery.Select | src/price_repository.rs:118-119 | no row exactly when there are no candidates; otherwise the row of a candidate that sorts no later than every other |
| WindowQuery.SelectedFrame | src/price_repository.rs:118-119 | the returned row is the window of one of the candidates |
| WindowQuery.OptimalWindowAsWritten | src/price_repository.rs:111-120 | the query ordered by the text of the average: no row exactly when nothing is in range, else a text-minimal candidate's row |
| WindowQuery.OptimalWindow | src/price_repository.rs:111-120 | the query ordered by the value of the average: no row exactly when nothing is in range, else a window of least rounded average |
| WindowQuery.SortedFrameShape | src/price_repository.rs:117 | in moment-ordered rows a frame is ordered, and when it is short every later row is on a later date |
| WindowQuery.CandidateRowsInRange | src/price_repository.rs:116 | every row of every candidate is a stored point within `[start, end]` |
| WindowQuery.CandidateFrameShape | src/price_repository.rs:116-117 | each candidate starts at its own row and holds 1 to k + 1 in-range rows of one date in moment order; it is shorter only at the date's end |
| WindowQuery.OnDateOfRun | src/price_repository.rs:117 | the rows of a date from a row on are that row's run of same-date rows |
| WindowQuery.FrameIsPartitionWindow | src/price_repository.rs:117 | a frame is the first k + 1 rows, from its own row on, of its date's partition |
| WindowQuery.FrameTakesRun | src/price_repository.rs:117 | the frame is the first k + 1 rows of its row's same-date run, or the whole run when it is shorter |
| WindowQuery.WindowOfSortedFrame | src/price_repository.rs:112-114 | `starts_at` is the first row's moment and `ends_at` is the last row's moment plus 59m59s |
| WindowQuery.WindowForDuration | src/price_repository.rs:106-120 | the per-duration query under a reading; `ReadingsDifferInOrderOnly`, `WindowForDurationMissing`, `DurationOneIsOneHour` and, through `Select`, `IsCheapestWindow` state its meaning |
| WindowQuery.OptimalWindowWithinRange | src/price_repository.rs:111-120 | with any lookahead and either ordering (so also for the query as written): with a row in range a window is returned; it starts within `[start, end]`, ends at least 59m59s after its start and at most 59m59s after `end`, its last hour is on its first hour's date, and both ends are in UTC |
| WindowQuery.CandidateWindowWithinRange | src/price_repository.rs:112-117 | the same bounds for the window of every candidate row |
| WindowQuery.SumOfConstant | src/price_repository.rs:113 | the sum of a flat series is its length times the price |
| WindowQuery.MeanOfConstant | src/price_repository.rs:113 | the average of a flat series is its price |
| WindowQuery.FlatSeriesAverage | src/price_repository.rs:111-120 | over a flat series, with any lookahead and either ordering, a window is returned and its price is that price, rounded |
| WindowQuery.SingleRowWindow | src/price_repository.rs:112-114 | a one-row frame spans one hour and is priced at that hour's rounded price |
| WindowQuery.DurationOneIsOneHour | src/price_repository.rs:106-120 | for d ≤ 1 under either reading (as written, above `i32::MIN`): with a row in range a window is returned, and it is one stored hour in range, ends 59m59s after it starts and carries that hour's rounded price |
| WindowQuery.NoLookaheadBelowTwo | src/price_repository.rs:106-109 | a duration ≤ 1 takes no following rows, under either reading (as written, above `i32::MIN`) |
| WindowQuery.OneHourSelected | src/price_repository.rs:111-120 | with no following rows and either ordering, a row in range gives a window that is one stored hour in range at that hour's rounded price |
| WindowQuery.OneHourCandidate | src/price_repository.rs:112-117 | with lookahead 0 every candidate window is one stored hour in range at that hour's rounded price |
| WindowQuery.ReadingsDifferInOrderOnly | src/price_repository.rs:106-120 | above `i32::MIN` the two readings use the same lookahead `clamp(d - 1, 0, 23)` and differ only in ordering by text or by value |
| WindowQuery.KeyOrdersAgreeBelowTen | src/price_repository.rs:113-118 | for rounded averages in [0, 10) text order and value order agree |
| WindowQuery.AsWrittenIsCheapestBelowTen | src/price_repository.rs:113-119 | when every rounded average lies in [0, 10), the query as written returns a window of least average |
| WindowQuery.ThreeHourExample | src/price_repository.rs:111-120 | hours priced 0.30, 0.10, 0.50 with duration 2 give 00:00 to 01:59:59 at "0.200" under either ordering |
| WindowQuery.TextOrderPicksDearerWindow | src/price_repository.rs:113-119 | hours priced -0.05 and -0.10 with duration 1: the text order picks the first hour ("-0.050"), the value order the second ("-0.100") |
| PriceRepository.UniqueKeys | src/price_repository.rs:77-93 | the assumed unique key on (provider, moment); `PersistPrices` keeps it and `RepeatedBatchRejected` and `OtherProvidersNeverConflict` follow from it |
| PriceRepository.HasRowOn | src/http.rs:119-127 | `SELECT COUNT(*) ... WHERE moment::date = $1` compared with zero; `HasPricesOfDate`, `PricesOfDateAgree` and `PersistMakesDateAvailable` state it |
| PriceRepository.PersistError.Display | src/price_repository.rs:9-13 | the text of a failed persist: `the prices could not be persisted: ` followed by the message, which the text ends with |
| PriceRepository.Tagged | src/price_repository.rs:80-85 | the batch holds exactly the given prices, in order, each tagged with the provider's id |
| PriceRepository.PointsAt | src/price_repository.rs:111-116 | the query reads row `j` of the table as the point of row `j` |
| PriceRepository.PersistVerdict | src/price_repository.rs:68-93 | an unknown provider fails with the driver's "no rows" text, an empty batch with the syntax error; success exactly when the provider is known, the batch is non-empty, no (provider, moment) key repeats and the database reports no failure |
| PriceRepository.PricesOfDate | src/price_repository.rs:51-61 | exactly the stored points whose date is the given one |
| PriceRepository.PricesOfDateAgree | src/price_repository.rs:51-61 | the prices of a date are non-empty exactly when some stored row has that date |
| PriceRepository.PriceStore.HasPricesOfDate | src/http.rs:119-127 | true exactly when the count of rows on the date is positive, i.e. some row has that date |
| PriceRepository.PriceStore.PersistPrices | src/price_repository.rs:63-94 | returns the verdict; on success the table is the old rows plus every price tagged with the provider's id, on failure it is unchanged; the unique key is kept |
| PriceRepository.PriceStore.FetchOptimalWindows | src/price_repository.rs:97-133 | the loop's result is the as-written `WindowsFor`: each duration decremented with wrap-around, clamped, queried with text order, stopping at the first missing row |
| PriceRepository.Collect | src/price_repository.rs:122-131 | the `?` short-circuit and `windows.push(row)` of the loop; `CollectFails`, `CollectElements`, `CollectStops` and `CollectStep` state it |
| PriceRepository.WindowsFor | src/price_repository.rs:103-132 | the whole duration loop as a function; `WindowsForElements`, `WindowsForFails` and `WindowsForOne` state its meaning, and `FetchOptimalWindows` computes it |
| PriceRepository.CollectStep | src/price_repository.rs:122-131 | a found row extends the collected windows by one, at the end |
| PriceRepository.CollectStops | src/price_repository.rs:122-131 | after a run of found rows, the first missing one ends the whole call with the "no rows" text |
| PriceRepository.CollectFailureKept | src/price_repository.rs:122-131 | once a prefix of the durations has failed, the call fails the same way whatever follows |
| PriceRepository.AnswerAsWritten | src/price_repository.rs:103-127 | the loop's answer for a duration is the text-ordered query with the wrapped, clamped lookahead |
| PriceRepository.CollectOne | src/price_repository.rs:122-131 | a single answer is collected as a one-window list, or fails with the "no rows" text |
| PriceRepository.CollectFails | src/price_repository.rs:122-131 | collecting fails exactly when some answer is missing, and then with the "no rows" text |
| PriceRepository.CollectElements | src/price_repository.rs:122-131 | a successful collection holds one window per answer, in order, each that answer |
| PriceRepository.WindowForDurationMissing | src/price_repository.rs:111-127 | a duration finds no row exactly when no row is in range, under either reading |
| PriceRepository.WindowsForFails | src/price_repository.rs:103-132 | the call fails exactly when some duration is requested and no row is in range, and then with the driver's "no rows" text; there is no partial list |
| PriceRepository.WindowsForElements | src/price_repository.rs:103-132 | under either reading (so also as written): when rows are in range or no durations are asked, the call succeeds with one window per requested duration, in order, each the query's window for that duration |
| PriceRepository.WindowsForOne | src/price_repository.rs:103-132 | one duration gives the one-window list of its row, or the "no rows" failure |
| PriceRepository.StoreReturnsDearerHour | src/price_repository.rs:103-132 | for two hours priced -0.05 and -0.10 and `durations=1` the store returns the dearer first hour ("-0.050"), the intended query the second ("-0.100") |
| PriceRepository.TaggedSnoc | src/price_repository.rs:80-85 | pushing one more price appends one tagged row |
| PriceRepository.PersistStoresEveryPrice | src/price_repository.rs:77-93 | after the insert the table reads as the old points followed by the given prices, and every price is stored under the provider's id |
| PriceRepository.PointsAppend | src/price_repository.rs:111-116 | the points of two row blocks are the points of each, in order |
| PriceRepository.TaggedAt | src/price_repository.rs:80-85 | row `j` of the batch is price `j` with the provider's id |
| PriceRepository.DateAvailableFromBatch | src/price_repository.rs:77-93 | a date that only becomes available after an insert is the date of a price in the batch |
| PriceRepository.DateAvailableAfterBatch | src/price_repository.rs:77-93 | a date that was available, or that a price of the batch has, is available after the insert |
| PriceRepository.PersistMakesDateAvailable | src/price_repository.rs:77-93 | after an insert a date has prices exactly when it had before or a persisted price falls on it |
| PriceRepository.OtherProvidersNeverConflict | src/price_repository.rs:77-93 | prices with distinct moments never clash with other providers' rows, even at the same moments |
| PriceRepository.RepeatedBatchRejected | src/price_repository.rs:77-93 | persisting a batch that was already persisted fails with the duplicate-key error instead of overwriting |
| Http.GetDurations | src/http.rs:49-54 | `get_durations`; `GetDurationsConcat`, `GetDurationsPiece`, `GetDurationsBounds` and `GetDurationsRoundTrip` state its meaning |
| Http.Split | src/http.rs:51 | at least one piece, and no piece contains a comma |
| Http.ParseI32 | src/http.rs:52 | an accepted token is non-empty, starts with a digit or a sign, has only digits after that and ends in a digit |
| Http.ParseI32Value | src/http.rs:52 | a sign or none followed by one or more digits (leading zeros allowed) reads as its value exactly when that value is an `i32`, and is rejected otherwise |
| Http.ParseUnsigned | src/http.rs:52 | an unsigned digit string reads as its value exactly when it is at most `i32::MAX` |
| Http.ParseSigned | src/http.rs:52 | a `+` or `-` followed by digits reads as the signed value exactly when it is an `i32` |
| Http.ParseI32Examples | src/http.rs:52 | `+7` and `007` read as 7 and `-12` as -12 |
| Http.ParsedTokens | src/http.rs:52-53 | never more values than tokens |
| Http.SplitCount | src/http.rs:51 | there is one piece more than there are commas |
| Http.SplitComma | src/http.rs:51 | splitting `a,b` gives the pieces of `a` followed by those of `b` |
| Http.SplitNoComma | src/http.rs:51 | a string without a comma is one piece |
| Http.ParsedTokensAppend | src/http.rs:52-53 | parsing two token lists one after the other keeps their order |
| Http.GetDurationsBounds | src/http.rs:49-54 | `""` gives no durations, and there are never more than commas + 1 |
| Http.GetDurationsConcat | src/http.rs:49-54 | the durations of `a,b` are those of `a` followed by those of `b` |
| Http.GetDurationsPiece | src/http.rs:49-54 | a piece that is not an `i32` is dropped; one that is contributes its value |
| Http.ParseI32Rejects | src/http.rs:52 | the empty token, a lone sign and any token with a blank are rejected |
| Http.ParseI32RejectsOverflow | src/http.rs:52 | a number above `i32::MAX` is rejected |
| Http.ParseI32RoundTrip | src/http.rs:52 | the decimal rendering of any `i32` parses back to it |
| Http.IntTextHasNoComma | src/http.rs:51-52 | a rendered `i32` is a single piece |
| Http.GetDurationsRoundTrip | src/http.rs:49-54 | joining the renderings of any `i32` list with commas and parsing gives the list back |
| Http.Project | src/http.rs:108-113 | one projected window per window |
| Http.ProjectKeepsWindows | src/http.rs:108-113 | every projected window keeps its instants and price and is shown in the caller's offset |
| Http.FetchPricesOfTodayFromProvider | src/http.rs:130-158 | fetches once; a fetch error is returned as it is without persisting; otherwise persists exactly the fetched prices under the provider's name and returns them, or returns `FetchPrices` with the persistence error's text |
| Http.GetTimeSlots | src/http.rs:77-117 | with today's prices stored the provider is not called and the store is untouched; otherwise a failed fetch answers 500 with its text without persisting anything, and a failed persist answers 500 with its text; the reply is 200 exactly when the gate passed and every duration found a row, and then holds each duration's as-written window in `moment_start`'s offset |
| Http.TwoRequestsOneFetch | src/http.rs:81-94 | once a request has stored a price of today, a second request on that day does not call the provider again |

## Left out

- `src/tibber.rs` is not part of this model. It holds the provider's HTTP request, its JSON decoding and its RFC 3339 timestamp parsing. The provider's whole `fetch_prices` is one fixed answer in the model.
- `src/setup.rs`, `src/main.rs` and `src/nordpool.rs` are not part of this model. They hold configuration, pool creation, migrations, logging setup, start-up and an unused struct.
- `start_http_server` (`src/http.rs:26-39`) is left out because socket binding and routing are I/O.
- `Default for TimeslotParameters` (`src/http.rs:57-71`) is left out because it reads the wall clock and is not used by the query deserialisation.
- Deserialising the query string is left out. The parameters arrive already parsed, so an instant is given as UTC seconds plus an offset.
- `fetch_optimal_upcoming_window` (`src/price_repository.rs:135-159`) is left out because it is unfinished. It binds two values for three placeholders and returns an empty list on success.
- Prices are exact reals, not `f64`. The average is computed exactly and then rounded to three decimals.
- The database session's time zone and `Local::now()` are left out. A moment's date is its UTC day, and "today" is a parameter.
- Instants are whole seconds, so sub-second precision is left out.
- Errors while connecting to the database or reading from it are left out. `HasPricesOfDate` always answers, so the `unwrap` panic of `get_time_slots` cannot occur in the model.
- For the insert, what the database reports beyond the modelled cases is a parameter. The modelled cases are the unknown provider, the empty batch and the duplicate key.
- The `providers` table is a map from name to id. Names are therefore unique, and the `limit 1` among equal names is not modelled.
- The unique key on (provider, moment) is assumed; the migration that creates it is not part of this model.
- `PriceRepository.DuplicateKey` leaves out the constraint's name, which PostgreSQL appends to that message.
- `PriceRepository.SyntaxErrorAtEnd` models an empty batch. `push_values` then leaves nothing after `VALUES`.
- PriceRepository.PersistVerdict: an empty batch fails with the syntax error; a debug build of the query builder may instead stop on its own assertion that the batch is non-empty, before the query reaches the database. That panic is not modelled.
- PriceRepository.PricesOfDate: the source selects a `monetary_amount` column (`src/price_repository.rs:53`) while the insert and the window query use `price`; the model reads `price`, so the column mismatch, which would make the query fail, is not modelled.
- Text order is code-point order, i.e. the C collation. Under another collation of the database the findings below may change.
- WindowQuery.Select: among several minimal rows the database may return any one; the model returns the first minimal candidate in moment order, and the results of `PriceRepository.WindowsFor`, `PriceRepository.PriceStore.FetchOptimalWindows` and `Http.GetTimeSlots` name that one. The properties proved of the chosen window (minimal under `IsCheapestWindow`, within the range, one stored hour for d ≤ 1, the flat price) are proved of every candidate or every minimal one, so they hold whichever minimal row the database returns.
- WindowQuery.SortByMoment: rows sharing a moment, such as those of two providers, keep their stored order. The database leaves their order open.
- WindowQuery.Candidates: depends on that stable tie order. With rows sharing a moment, a frame may hold different rows than the database's frame, so the chosen window may differ. For example, take (m, 0.1), (m, 0.9) and (m + 3600, 0.1) with k = 1. In the stored order the frames average 0.5, 0.5 and 0.1, and only the hour at m + 3600 costs 0.1. With the tied rows the other way round they average 0.5, 0.1 and 0.1, and a two-hour window starting at m also costs 0.1. The contracts describe the stored order only.
- A debug build panics on the `duration -= 1` overflow. The model covers only the release-build wrap-around, in `LookaheadWrapping`, which the store and the handler use.
- WindowQuery.DurationOneIsOneHour: as written it excludes `i32::MIN`. There the source takes up to 24 rows; see Findings and `LookaheadWrapsAtMinimum`.
- Concurrency between requests is left out. Racing first requests may both fetch; the model is sequential.
- Logging (`info!`, `error!`, `#[instrument]`) is left out.
- PriceRepository.PriceStore.FetchOptimalWindows: states its result as `WindowsFor`. Its meaning (failure cases, one window per duration, each a minimal one under the text order) is stated by the `WindowsFor…` and `Collect…` lemmas beside it rather than repeated in the method's own contract.

## Findings

| source | as written | input that shows it | evidently intended | confidence | as-written member | corrected member |
|---|---|---|---|---|---|---|
| src/price_repository.rs:113-118 | `order by average_price` sorts the `::varchar` alias, i.e. the text of the rounded average | two hours of one day priced -0.05 and -0.10, duration 1: `"-0.050"` sorts before `"-0.100"`, so the dearer hour is returned | order by the numeric average, so the cheapest window is returned | not executed; proved in the model under the C collation | WindowQuery.TextOrderPicksDearerWindow, PriceRepository.StoreReturnsDearerHour | WindowQuery.OptimalWindow |
| src/price_repository.rs:108 | `duration -= 1` on an `i32` before clamping | duration `i32::MIN` (`?durations=-2147483648`): in a release build the subtraction wraps to `i32::MAX`, the clamp gives 23, and the smallest request gets a window of up to 24 hours (the frame is still cut at the end of the day's rows) | every duration ≤ 1 gives a one-hour window | not executed; a debug build panics instead | WindowQuery.LookaheadWrapsAtMinimum | WindowQuery.Lookahead |
