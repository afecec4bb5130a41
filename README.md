# signalbar: unread-count status records, verified model

signalbar is two small scripts for a status-bar widget. Both count the unread
text messages in Signal's local SQLite database and print one JSON record per
update, with three fields: `text`, `class` and `tooltip`.

- `signal_unread.py` is the one-shot script. It queries once and prints once.
- `signal_unread_watch.py` is the watching script.
  - It prints the current state at start-up.
  - It then re-queries and prints again when inotify reports a change to `db.sqlite` or one of its sidecar files (`db.sqlite-wal`, `db.sqlite-shm`).
  - It debounces on the leading edge with a one-second window. The clock is read before each re-query, and two readings that each lead to a printed line are at least 1.0 s apart. The first qualifying event in a window fires; later events in that window are dropped.
  - If the watcher cannot start or fails later, it prints one fallback record.

The model has five Dafny modules:

- `Decimal` (decimal.dfy) spells a natural number in decimal, as an f-string does, and parses it back.
- `Status` (status.dfy) holds the record and the formatter. Both scripts share the formatter; each passes its own click hint. `CountOf` reads the count back from a record.
- `StoreReader` (store_reader.dfy) computes the unread count.
  - The database is an oracle: a `Store` says whether the file exists and what the aggregate query would answer (`Rows(n)` or `Raised(SqliteError | OtherException)`).
  - The query function is the same in both scripts, so it is modelled once.
- `SignalUnread` (signal_unread.dfy) is the one-shot script: its hint, its formatter and its single emission.
- `SignalUnreadWatch` (signal_unread_watch.dfy) is the watching script.
  - `IsRelevant` is the event filter.
  - `Session` is the debounce state machine as a function over a sequence of events.
  - The class `Watcher` holds the `last_update` cell and the printed lines. `ProcessDefault` handles one event; `Loop` is the notifier loop.
  - `WatchWithInotify` covers start-up, the event loop and the two fallback paths, given as the datatype `WatchRun`. `RunScript` is the `--watch` dispatch.

Time is a real number of seconds, passed in with each event. The clock is read once per relevant event, after the name filter passes; the `time` of any other event is never used. Each event also carries the `Store` that a query at that moment would see. The initial record is stamped with the start time, because the script reads the clock right after printing it.

Two details of the code matter here:

- The one-shot script opens the database read-write (`sqlite3.connect(SIGNAL_DB_PATH, timeout=2.0)`, signal_unread.py:26), and the watching script opens it read-only (signal_unread_watch.py:27). Both become the same `Store`.
- `last_update` is set right after the start-up record is printed (signal_unread_watch.py:76-78). So the first event-triggered record also comes at least 1.0 s after it.

## Model

| member | source | states |
|---|---|---|
| `Decimal.ToDecimal` | signal_unread_watch.py:58 | the decimal spelling of a count is non-empty, all digits, has no leading zero, and is one character exactly when the count is below 10 |
| `Decimal.ParseToDecimal` | signal_unread_watch.py:58 | parsing the printed digits gives back the count |
| `Decimal.ToDecimalInjective` | signal_unread_watch.py:62 | different counts are printed differently |
| `Status.Noun` | signal_unread_watch.py:62 | the tooltip noun is the singular "message" exactly when the count is 1 |
| `Status.SummaryWording` | signal_unread_watch.py:55-62 | the first tooltip line is "No unread messages in Signal" for 0, "1 unread message in Signal" for 1, and "N unread messages in Signal" above 1 |
| `Status.Format` | signal_unread_watch.py:47-63 | class is `signal-read` iff the count is 0 and `signal-unread` iff it is at least 1; text is the default icon for 0, the bare unread icon for 1 and "icon count" above 1; the tooltip is the summary line followed by the click hint |
| `Status.TooltipEndsWithHint` | signal_unread_watch.py:55-62 | every tooltip ends with the click hint |
| `Status.CountOf` | signal_unread_watch.py:51-62 | reading a count back only succeeds on one of the two classes |
| `Status.FormatCountOf` | signal_unread_watch.py:51-62 | the displayed count can be read back from every formatted record |
| `Status.FormatInjective` | signal_unread_watch.py:47-63 | different counts never give the same record |
| `Status.TextHasDigitIff` | signal_unread_watch.py:58 | the text contains a digit exactly when the count is above 1 |
| `StoreReader.GetUnreadCount` | signal_unread_watch.py:21-45 | the count is at most 99; a missing database or a query error of either kind gives 0; a successful query gives min(rows, 99) |
| `StoreReader.MissingDbIgnoresQuery` | signal_unread_watch.py:23-24 | with the database file missing, the result is 0 whatever the query would answer |
| `StoreReader.ClampExact` | signal_unread_watch.py:37-39 | a row count up to 99 is shown as is; 99 or more is shown as 99 |
| `StoreReader.ClampMonotone` | signal_unread_watch.py:39 | more unread rows never show a smaller count |
| `SignalUnread.FormatOutput` | signal_unread.py:46-62 | the one-shot record is `signal-read` iff the count is 0, and its tooltip is the summary line followed by the two-line left/right-click hint |
| `SignalUnread.Run` | signal_unread.py:64-68 | the one-shot script prints exactly one record, the formatted result of its single query |
| `SignalUnread.RunShowsSafeCount` | signal_unread.py:20-44 | a missing database or failing query prints the read-state icon record; a successful query prints a record whose count reads back as min(rows, 99) |
| `SignalUnread.BacklogShownAsCap` | signal_unread.py:36-38 | 150 unread rows print as "icon 99" with the plural tooltip "99 unread messages in Signal" |
| `SignalUnreadWatch.FormatOutput` | signal_unread_watch.py:47-63 | the watch record is `signal-read` iff the count is 0, and its tooltip is the summary line followed by "Click to open Signal" |
| `SignalUnreadWatch.Emit` | signal_unread_watch.py:88-89 | the record printed after a query is `signal-read` iff the query's displayed count is 0 |
| `SignalUnreadWatch.IsRelevant` | signal_unread_watch.py:83-84 | an event is relevant iff it has a name that starts with `db.sqlite`; the empty-name and exact-name tests add nothing |
| `SignalUnreadWatch.Session` | signal_unread_watch.py:81-90 | the debounce never fires more often than there are events, and leaves `last_update` at the time of the last firing (or unchanged) |
| `SignalUnreadWatch.SessionFiresRelevant` | signal_unread_watch.py:83-84 | every event the debounce fires on is relevant: its name starts with `db.sqlite` |
| `SignalUnreadWatch.SessionSpaced` | signal_unread_watch.py:86-90 | every firing is at least 1.0 s after the previous firing, and the first after the starting `last_update` |
| `SignalUnreadWatch.SessionIgnoresIrrelevant` | signal_unread_watch.py:83-84 | dropping the events outside the `db.sqlite` family changes neither the firings nor `last_update` |
| `SignalUnreadWatch.DebounceTwoEvents` | signal_unread_watch.py:86-90 | of two relevant events, the first outside the window, the second fires iff it comes at least 1.0 s after the first |
| `SignalUnreadWatch.DroppedChangeInWindow` | signal_unread_watch.py:86-90 | with no later event, a change reported 0.5 s after a firing is not printed, and the last record shows the earlier state |
| `SignalUnreadWatch.Watcher.constructor` | signal_unread_watch.py:75-78 | start-up prints the initial record and then sets `last_update` to the start time |
| `SignalUnreadWatch.Watcher.OutputStatus` | signal_unread_watch.py:65-68 | printing appends the formatted record and nothing else |
| `SignalUnreadWatch.Watcher.ProcessDefault` | signal_unread_watch.py:81-90 | a relevant event at least 1.0 s after `last_update` appends the re-queried record and moves `last_update` to its time; any other event changes nothing; the clock readings that decide consecutive printed lines (taken before each query) stay at least 1.0 s apart |
| `SignalUnreadWatch.ReplaysStep` | signal_unread_watch.py:81-90 | handling one more event as the handler does keeps the printed lines, their times and `last_update` equal to those of the session over the longer prefix |
| `SignalUnreadWatch.Watcher.Loop` | signal_unread_watch.py:100-101 | the loop prints exactly the records of the events `Session` fires, in order, at those events' times, and ends with `last_update` as `Session` gives it |
| `SignalUnreadWatch.WatchTrace` | signal_unread_watch.py:70-109 | watch mode always prints at least one record |
| `SignalUnreadWatch.WatchWithInotify` | signal_unread_watch.py:70-109 | watch mode prints the start-up record, the records of the fired events and, after a failure, one fallback record; if the import fails it prints only one |
| `SignalUnreadWatch.RunScript` | signal_unread_watch.py:111-119 | `--watch` as the first argument runs watch mode; otherwise exactly one record is printed |
| `SignalUnreadWatch.FallbackEmitsOne` | signal_unread_watch.py:103-109 | an unavailable watcher prints exactly one record; a failure after start adds exactly one record after those already printed |
| `SignalUnreadWatch.RecordsDisplayable` | signal_unread_watch.py:86-90 | every record printed for a fired event reads back as a count from 0 to 99 |
| `SignalUnreadWatch.WatchTraceBounded` | signal_unread_watch.py:70-109 | every record watch mode prints, including the start-up and fallback records, reads back as a count from 0 to 99 |
| `SignalUnreadWatch.WatchTraceLength` | signal_unread_watch.py:81-109 | watch mode prints at most one record per relevant event, plus the start-up record and at most one fallback record |

## Left out

- The SQLite connection, its timeout and the SQL predicate (`read_status = 0 AND type IN (6, 7)`) are calls into an external schema. A `Store` value replaces them.
- Locating the database (`Path.home()`) and `exists()` are not modelled. A boolean in `Store` stands for the file check.
- pyinotify is not modelled: the watch manager, the event mask, `add_watch` and the internals of `notifier.loop()`. The loop is modelled over an explicit finite sequence of already-delivered events.
- `time.time()` is a parameter. An event's `time` is any real and nothing requires the times to increase, so a wall clock that jumps backward is covered. Floating-point rounding is not modelled.
- The time a query takes between the clock reading (signal_unread_watch.py:86) and the print (line 89) is not modelled. A query can wait up to the 2.0 s connection timeout, so after a slow query two printed lines can come closer together than 1.0 s. Only the clock readings that decide them are proved to be at least 1.0 s apart.
- `json.dumps`, `print`, flushing and the `stderr` diagnostics are not modelled. An emission appends a record to a sequence. The JSON escaping of the icon is not part of the model.
- A failure is modelled only between two events. An exception inside a handler, after it prints and before it updates `last_update`, is not modelled.
