# IoT multizone dashboard: live history and command outcomes

This project models the logic of a single-page IoT dashboard (`app.py`). The
dashboard polls a real-time database for the latest snapshot of a node, keeps a
short in-memory history per node for its charts, and sends operator commands to
a Node-RED relay over HTTP. The model covers these parts:

- the per-node history table kept in the session and `push_history`. A push
  resolves the row's time, appends the row, re-sorts by time and trims to
  `HISTORY_POINTS` rows. This is the class `History.HistoryTable`. Its
  specification is the value-level function `Series.Appended`, and the lemmas
  in module `Series` are proved about that function. `push_history` does not
  remove duplicates: the script reruns on every refresh and pushes the latest
  reading each time, so a reading seen on k refreshes occupies k rows, and the
  history covers the last `HISTORY_POINTS` refreshes rather than the last
  `HISTORY_POINTS` distinct readings;
- `ms_to_datetime` and its fallback to the current time (`Snapshots`);
- the live-fetch gate: a missing or empty reading is not pushed
  (`Snapshots.ShouldPush`, `History.HistoryTable.Refresh`);
- the fan tile mapping (`Snapshots.FanLabel`);
- the outcome classification of `send_cmd` (`Commands`), with decimal rendering
  of the status code (`Decimal`).

Times are integer milliseconds since the epoch. Metrics are `Option<real>`,
where `None` is an absent key. The current time is a parameter (`now`).

`fb_get_last` (app.py:41-47) catches nothing: an exception from the read ends
that run of the script before any push. The model therefore has only two fetch
results, a reading or `None`.

## Model

| member | source | states |
|---|---|---|
| `History.HistoryTable.constructor` | app.py:101-102 | the session starts with an empty series for every known node, and the table invariant holds: every series is sorted by time and within capacity |
| `History.NewSession` | app.py:25-27 | a new session has the default capacity of 120 points and empty series for exactly "node1" and "node2" |
| `History.HistoryTable.Push` | app.py:105-121 | the pushed node's series becomes the appended, re-sorted and trimmed series; it is sorted and within capacity; every other node's series is unchanged; the invariant is kept |
| `History.HistoryTable.Refresh` | app.py:124-127 | a missing or empty reading leaves every series unchanged; a non-empty reading is pushed for the selected node |
| `HistoryScenarios.FirstReading` | app.py:105-121 | a reading with temperature 24.5, humidity 55 and ts 1700000000000 becomes one row at that timestamp with those metrics, whatever the clock says |
| `Snapshots.Representable` | app.py:71 | the range in which `fromtimestamp` succeeds: Python datetime's years 1 to 9999, in UTC milliseconds |
| `Snapshots.MsToTime` | app.py:67-73 | a time comes back exactly when the timestamp is present, numeric and within datetime's range, and it is that timestamp; otherwise `None` |
| `Snapshots.MakeRow` | app.py:108-115 | the row dict: the resolved time and the five metrics of the snapshot |
| `Snapshots.ResolveTime` | app.py:107 | the resolved time is the converted timestamp when there is one, and `now` exactly when the conversion fails |
| `Snapshots.MakeRowFields` | app.py:107-115 | the row's time is the snapshot's timestamp when it is usable and `now` otherwise; each of the five metrics is copied unchanged, with absent staying absent |
| `Snapshots.IsEmpty` | app.py:125-126 | the truth value of the snapshot dict: empty when it has no key at all |
| `Snapshots.ShouldPush` | app.py:125-126 | a push happens only for a reading that exists |
| `Snapshots.ShouldPushExactly` | app.py:125-127 | a push happens if and only if the reading exists and has at least one key |
| `Snapshots.FanLabel` | app.py:139-140 | "ON" if and only if the fan state is 1, "OFF" if and only if it is 0, and a dash if and only if it is absent or any other value |
| `Series.Insert` | app.py:117 | inserting a row into a sorted series gives a sorted series holding the old rows plus the new one |
| `Series.SortByTime` | app.py:117 | the re-sorted series is in ascending time order and is a permutation of its input |
| `Series.Trim` | app.py:119-120 | the corrected trim: the last `cap` rows when the series is longer, else the series; its length is `min(length, cap)` |
| `Series.TrimAsWritten` | app.py:119-120 | the trim exactly as written, for any integer setting: 0 keeps everything, a negative setting drops that many rows from the front |
| `Series.Appended` | app.py:116-120 | one push of a row onto a series: append, re-sort by time, trim to the capacity; the value `Push` stores |
| `Series.AppendedAsWritten` | app.py:116-120 | one push with the trim as written |
| `Series.PushAll` | app.py:105-121 | successive pushes of a list of rows, first to last, as repeated refreshes perform them |
| `Series.AppendedSorted` | app.py:116-117 | after a push the series is sorted by time, ascending |
| `Series.AppendedLength` | app.py:119-120 | after a push the series has `min(old length + 1, capacity)` rows, so never more than the capacity |
| `Series.AppendedKeepsAll` | app.py:116-117 | while old length + 1 is within capacity, nothing is dropped: the result is a permutation of the old series plus the new row |
| `Series.AppendedEvictsOldest` | app.py:116-120 | on overflow exactly `capacity` rows remain, all taken from the old rows and the new one, and every evicted row is no later than every kept row: eviction is by time, not by insertion order |
| `Series.SortSortedUnchanged` | app.py:117 | re-sorting an already sorted series leaves it unchanged |
| `Series.AppendedInOrder` | app.py:116-120 | a row no earlier than the rows of a sorted series is appended at the end and then trimmed |
| `Series.PushAllLength` | app.py:105-121 | after any number of pushes onto a series within capacity, the length is `min(start + pushes, capacity)` |
| `Series.PushAllInOrder` | app.py:116-120 | rows arriving in time order leave exactly the last `capacity` rows of the series plus the arrivals; 130 arrivals with capacity 120 evict exactly the first 10 |
| `Series.AppendedAboveFloor` | app.py:116-120 | a push onto a full series keeps only rows no earlier than any bound that every row of the series met |
| `Series.PushAllAboveFloor` | app.py:105-121 | once a series is full, no later sequence of pushes keeps a row earlier than a bound its rows all met: the oldest kept time never goes back |
| `Series.PushAllEvictsOldest` | app.py:105-121 | over any number of pushes in any time order, the remaining rows come from the start series and the arrivals, every evicted row is no later than every remaining row, and rows are evicted only once the series is full |
| `Series.RepeatedReadingKept` | app.py:116-117 | no deduplication: the same reading pushed twice onto a series with room for both is stored twice |
| `Series.TrimAsWrittenAgrees` | app.py:119-120 | for a positive `HISTORY_POINTS`, the trim as written keeps the last `HISTORY_POINTS` rows |
| `Series.ZeroCapacityGrows` | app.py:119-120 | as written, a `HISTORY_POINTS` of 0 bounds nothing: each push grows the series by one row |
| `Series.ZeroCapacityEmpty` | app.py:119-120 | with the corrected trim, a capacity of 0 keeps no rows |
| `Decimal.IntToString` | app.py:61-62 | Python's `str(int)` inside the two f-strings: a '-' for a negative number, then the decimal digits without leading zeros |
| `Decimal.ParseIntRoundTrip` | app.py:61-62 | the decimal rendering of a status code parses back to the same integer |
| `Decimal.IntToStringInjective` | app.py:61-62 | different status codes render differently |
| `Commands.Truncate` | app.py:62 | the shown body is a prefix of the body, of length `min(length, 200)` |
| `Commands.IsSuccess` | app.py:60 | the success test: the status is at least 200 and below 300 |
| `Commands.SuccessMessage` | app.py:61 | the success text "OK (<status>)" |
| `Commands.FailureMessage` | app.py:62 | the failure text "HTTP <status>: " followed by the first 200 characters of the body |
| `Commands.Classify` | app.py:58-64 | success if and only if the status is in [200, 300), with message "OK (<status>)"; any other status fails with "HTTP <status>: " and the truncated body; a transport error fails with its own text and never raises |
| `Commands.StatusRecoverable` | app.py:60-62 | the status code can be read back from the message of every HTTP outcome, success or failure |
| `Commands.OutcomeDistinguishesStatus` | app.py:60-62 | two HTTP responses with the same outcome had the same status code |
| `Commands.FailureMessageBounded` | app.py:62 | a failure message is 7 characters plus the status digits plus at most 200 body characters, and holds the whole body when it is that short |
| `Commands.NoContentSucceeds` | app.py:60-61 | a 204 response is a success with message "OK (204)" |
| `Commands.ServerErrorFails` | app.py:60-62 | a 500 response is a failure whose message is "HTTP 500: " followed by the truncated body |

## Left out

- Firebase initialisation and `fb_get_last` (app.py:33-47) are remote reads through an SDK. The value a read returns is the `fetched` parameter of `Refresh`.
- `requests.post` (app.py:59) is network I/O. Its result is the `Response` parameter of `Classify`. The request envelope `{node, payload}` (app.py:54-57) is JSON serialisation only and is not modelled.
- The command payloads built from widget values (app.py:163-193) are literal dicts with no logic.
- Snapshots.MsToTime: the model does not capture floating-point division, the local time zone or the platform. `fromtimestamp` (app.py:71) is limited by the platform's C `localtime()`, so where conversion succeeds depends on the platform. Some platforms accept only 1970 to 2038. On Windows, negative timestamps and times after the year 3000 raise, and `ms_to_datetime` then gives `None`: a `ts` of -1000 there is replaced by `now`, where the model keeps -1000.
- Snapshots.Representable fixes the range of a 64-bit Linux or macOS build: years 1 to 9999, measured in UTC, within about a day of the local offset. Sub-millisecond fractions are dropped.
- Snapshots.FanLabel: a boolean `fan_state` compares equal to 1 or 0 in Python. The model reads such a value as the number 1.0 or 0.0.
- Series.SortByTime is a stable sort. Pandas' default sort (quicksort) may put rows with equal times in any order. The eviction, bound and no-drop lemmas are stated so that they hold for any order of ties. The exact sequence `Push` stores fixes one such order.
- Series.SortSortedUnchanged holds for the model's stable sort. Pandas may permute distinct rows with equal times, so it meets this only up to the order of those rows.
- Series.AppendedInOrder is an exact sequence equality under the model's stable tie order. Pandas meets it only up to the order of distinct rows with equal times.
- Series.PushAllInOrder is an exact sequence equality under the model's stable tie order. Pandas meets it only up to the order of distinct rows with equal times.
- Series.Sorted orders rows by epoch milliseconds. The source sorts naive local datetimes from `fromtimestamp` and `now()` (app.py:71, app.py:107). In a time zone with daylight saving, readings in the hour repeated when clocks go back compare differently as local wall-clock times. A reading at the first 01:50 sorts after one twenty minutes later at the second 01:10, and on overflow the later one is evicted first. The model's order and eviction follow epoch time and so differ from the source there.
- `dropna(subset=["time"])` (app.py:117) is not modelled as a step. Every row has an integer time because of the fallback to `now`, so that call never removes a row.
- Pandas DataFrame mechanics (column types, index handling, the `.copy()`) are replaced by sequences of records.
- A key stored with a null value counts as absent. The database does not store nulls.
- `HistoryTable.constructor` requires a capacity of at least 1. The source accepts any integer; see Findings for 0. For a negative setting the as-written trim `Series.TrimAsWritten` drops that many rows from the front, and the class does not model that.
- The Streamlit UI, the metric tiles other than the fan, the charts, the "last update" caption and the debug expander (app.py:79-98, 129-198) are presentation.
- The sleep-and-rerun refresh loop (app.py:200-203) is timing and re-execution, not logic.
- Reading the configuration from the environment (app.py:17-27) is left out. The default capacity 120 and the node list are constants.

## Findings

| source | as written | input that shows it | evidently intended | confidence | as-written member | corrected member |
|---|---|---|---|---|---|---|
| app.py:119-120 | the trim slices with the negated setting, and a negated 0 is 0, so the slice keeps the whole frame | `HISTORY_POINTS=0` with a non-empty history: each push adds a row and nothing is ever removed | the history is bounded by `HISTORY_POINTS`, so a setting of 0 keeps no rows | low, not executed | `Series.ZeroCapacityGrows` | `Series.ZeroCapacityEmpty` |

The corrected trim is `Series.Trim`, which the history table uses. The bound
proved for it, `Series.AppendedLength`, holds for every capacity including 0.
`Series.TrimAsWrittenAgrees` shows that the two trims agree for every positive
setting.
