# Discrete Logger, modelled in Dafny

Discrete Logger is an Android app. While the screen is on and the app is in the foreground, it
turns every finger contact into a *tap*:

- the start time;
- the duration;
- the highest ambient barometer reading seen while the finger was down;
- a free-text note.

Taps collect in a pending list. The send button trims the typed note, puts it on every pending
tap that has no note yet, and appends the list to `Download/DiscreteLogger/discreteLogs.csv`.
That file is found, or created, through the media store, and gets a header line when it is
empty. Once a day, on resume, the app copies the log to `Download/DiscreteLogger/Backups/`
under yesterday's date.

All of this lives in `MainActivity.kt`. The model has two layers:

- Value-level specifications in eight modules, each with lemmas about it:
  - `Text`: Kotlin's `trim()`.
  - `Decimal`: the decimal text of a `Long` and its parse.
  - `Taps`: the tap record and the labelling.
  - `Csv`: the header, the tap lines and the split that reads them back.
  - `Correlator`: the touch state machine and whole contacts.
  - `LogStore`: the media store's Downloads collection, the find-or-create of the log, and the
    append of the pending list.
  - `Backup`: the day gate and the copy.
  - `Wrappers`: `Option`.
- The class `Activity.Logger`, which holds the activity's mutable fields. Each handler is an
  imperative method proved against those specifications. The collection the handlers write to
  is the class `LogStore.ContentStore`.

What the handlers depend on from the outside world is passed in as parameters:

- the ambient reading current when a touch arrives;
- whether the screen is interactive;
- whether the activity is finishing;
- today's day number;
- the outcome of each content-resolver call:
  - whether the query for the log returns a cursor at all (`queryOk` for a write, `logQueryOk`
    for a backup check);
  - whether an insert returns a row (`insertOk`);
  - whether the size query returns a row (`sizeKnown`);
  - an output stream that opens, is null, or throws after accepting some number of lines
    (`Stream`).

## Model

| member | source | states |
|---|---|---|
| Text.TrimStart | app/src/main/java/com/example/discretelogger/MainActivity.kt:89 | the result is a suffix of the input, everything dropped is whitespace, and it starts with a non-blank |
| Text.TrimEnd | app/src/main/java/com/example/discretelogger/MainActivity.kt:89 | the result is a prefix of the input, everything dropped is whitespace, and it ends with a non-blank |
| Text.Trim | app/src/main/java/com/example/discretelogger/MainActivity.kt:89 | the trimmed note is no longer than the typed text and has no blank at either end |
| Text.TrimIsInnerSlice | app/src/main/java/com/example/discretelogger/MainActivity.kt:89 | the trimmed note is a contiguous slice of the typed text with no blank at either end |
| Text.TrimDropsOnlyBlanks | app/src/main/java/com/example/discretelogger/MainActivity.kt:89 | only whitespace lies before and after the slice that trimming keeps |
| Text.TrimEmptyIffBlank | app/src/main/java/com/example/discretelogger/MainActivity.kt:89-90 | the trimmed note is empty exactly when the typed text is all whitespace, so the send button acts only on text with a non-blank |
| Text.TrimIdempotent | app/src/main/java/com/example/discretelogger/MainActivity.kt:89 | trimming twice is trimming once |
| Decimal.NatToString | app/src/main/java/com/example/discretelogger/MainActivity.kt:274 | a non-negative number prints as a non-empty digit string with no leading zero |
| Decimal.DigitsValueOfNatToString | app/src/main/java/com/example/discretelogger/MainActivity.kt:274 | the printed digits denote the number |
| Decimal.IntToString | app/src/main/java/com/example/discretelogger/MainActivity.kt:274 | an integer field starts with a minus sign exactly when the value is negative, is digits otherwise, and never contains a comma |
| Decimal.IntToStringRoundTrip | app/src/main/java/com/example/discretelogger/MainActivity.kt:274 | parsing a printed integer gives it back |
| Decimal.IntToStringInjective | app/src/main/java/com/example/discretelogger/MainActivity.kt:274 | distinct integers print differently |
| Taps.Labelled | app/src/main/java/com/example/discretelogger/MainActivity.kt:92-93 | labelling one tap keeps its times and peak, leaves a tap that already has a note unchanged, and gives a tap without a note exactly the note sent |
| Taps.LabelUnlabeled | app/src/main/java/com/example/discretelogger/MainActivity.kt:92-93 | the labelled list has the same length, and every tap that already had a note is unchanged |
| Taps.LabelUnlabeledSpec | app/src/main/java/com/example/discretelogger/MainActivity.kt:92-93 | labelling keeps length, order, times and peaks, writes the note on exactly the taps without one, and leaves other notes alone |
| Taps.LabelUnlabeledLeavesNoneEmpty | app/src/main/java/com/example/discretelogger/MainActivity.kt:89-93 | after a non-empty note is sent, no pending tap is unlabelled |
| Taps.LabelUnlabeledIdempotent | app/src/main/java/com/example/discretelogger/MainActivity.kt:92-93 | a second note sent after the first changes nothing |
| Csv.SplitJoin | app/src/main/java/com/example/discretelogger/MainActivity.kt:274 | splitting comma-joined fields gives the fields back when none contains a comma |
| Csv.FormatTap | app/src/main/java/com/example/discretelogger/MainActivity.kt:274 | the note is the line's last field, after a comma, exactly as typed (no quoting); `Csv.TapLineStart` states how the line starts and `Csv.FormatTapRoundTrip` that it reads back as the tap |
| Csv.FormatTapRoundTrip | app/src/main/java/com/example/discretelogger/MainActivity.kt:274 | a tap line reads back as the tap when its note has no comma and no line break |
| Csv.TapLineStart | app/src/main/java/com/example/discretelogger/MainActivity.kt:274 | a tap line starts with the first character of the start time: a minus sign exactly when the start is negative, a digit otherwise |
| Csv.TapLineIsNotHeader | app/src/main/java/com/example/discretelogger/MainActivity.kt:266-275 | no tap line equals the header line |
| Csv.HeaderJoinsFields | app/src/main/java/com/example/discretelogger/MainActivity.kt:268 | the header line is the four column names joined by commas (the header constant itself is written out as a literal, and this lemma ties it to the column names) |
| Csv.HeaderIsNotATap | app/src/main/java/com/example/discretelogger/MainActivity.kt:268 | the header line does not read back as a tap |
| Csv.FormatTaps | app/src/main/java/com/example/discretelogger/MainActivity.kt:272-276 | one line per pending tap; `Csv.BlockRoundTrip` reads each back as its tap |
| Csv.Block | app/src/main/java/com/example/discretelogger/MainActivity.kt:266-276 | a write's lines number one per tap, plus a header line exactly when the file was empty, and begin with the header exactly then |
| Csv.BlockIsHeadAndLines | app/src/main/java/com/example/discretelogger/MainActivity.kt:266-276 | a write's lines are the optional header followed by the tap lines in list order |
| Csv.BlockRoundTrip | app/src/main/java/com/example/discretelogger/MainActivity.kt:266-276 | after the optional header, line i of a write reads back as pending tap i when the notes have no comma and no line break |
| Csv.BlockLineRoundTrip | app/src/main/java/com/example/discretelogger/MainActivity.kt:273-275 | one line of a write reads back as its tap |
| Correlator.MovedPeaks | app/src/main/java/com/example/discretelogger/MainActivity.kt:161-166 | a move gives every listed pointer a peak entry equal to the larger of its stored peak (the reading when it has none) and the reading, never lowers a peak, and leaves unlisted pointers unchanged |
| Correlator.MovedPeaksStep | app/src/main/java/com/example/discretelogger/MainActivity.kt:162-166 | handling one more listed pointer is one `maxOf` update of its entry |
| Correlator.Touch | app/src/main/java/com/example/discretelogger/MainActivity.kt:148-185 | a touch keeps the logging flag; it is ignored while logging is off; an unconsumed touch changes nothing; every open contact keeps a peak entry; only an up for an open contact appends to the pending list, and then exactly one tap with its start, duration and stored peak |
| Correlator.Stop | app/src/main/java/com/example/discretelogger/MainActivity.kt:134-137 | stopping turns logging off and forgets the open starts, keeping peaks and pending taps |
| Correlator.DisabledIgnoresTouches | app/src/main/java/com/example/discretelogger/MainActivity.kt:149 | while logging is off, a touch is not consumed and changes nothing |
| Correlator.DownOpensContact | app/src/main/java/com/example/discretelogger/MainActivity.kt:156-160 | a down (re)opens the pointer's contact with the current reading as its peak |
| Correlator.UpReportsStoredPeak | app/src/main/java/com/example/discretelogger/MainActivity.kt:169-178 | an up for an open contact appends one tap with the stored peak and closes the contact |
| Correlator.UpClosesContact | app/src/main/java/com/example/discretelogger/MainActivity.kt:169-178 | an up for a contact with a start and a peak appends one tap with that start, the duration and the stored peak, and removes both entries |
| Correlator.SpuriousUpAndCancelEmitNothing | app/src/main/java/com/example/discretelogger/MainActivity.kt:169-182 | an up with no start is not consumed and changes nothing; a cancel appends nothing and closes the contact |
| Correlator.PeakOver | app/src/main/java/com/example/discretelogger/MainActivity.kt:161-166 | the peak over a contact is at least the reading at its down and at least every reading of a move listing the pointer, and equals one of those readings |
| Correlator.StepKeepsContact | app/src/main/java/com/example/discretelogger/MainActivity.kt:155-183 | an input that leaves a pointer alone keeps its start, and raises its peak only on a move that lists it |
| Correlator.OpenContact | app/src/main/java/com/example/discretelogger/MainActivity.kt:156-166 | after a down and inputs that leave the pointer alone, its contact is open with the original start and the running peak |
| Correlator.ContactEmitsOneTap | app/src/main/java/com/example/discretelogger/MainActivity.kt:148-185 | a whole contact from down to up appends exactly one tap: start, up minus down, the largest of the readings at the down and at the moves that list the pointer, no note |
| LogStore.Find | app/src/main/java/com/example/discretelogger/MainActivity.kt:212-227 | the query returns the first row with that name and path, or none when no row has them |
| LogStore.FindSeesOnlyNames | app/src/main/java/com/example/discretelogger/MainActivity.kt:212-221 | the query's answer depends only on the rows' names and paths, not their contents |
| LogStore.FindInserted | app/src/main/java/com/example/discretelogger/MainActivity.kt:229-238 | after the insert, the query finds the new row |
| LogStore.Resolve | app/src/main/java/com/example/discretelogger/MainActivity.kt:199-239 | find-or-create: a log the query finds is returned unchanged; when the query finds none or returns no cursor, one empty row is inserted, or nothing when the insert returns null |
| LogStore.ResolveIsIdempotent | app/src/main/java/com/example/discretelogger/MainActivity.kt:199-239 | resolving the log again with a query that answers creates nothing and finds a matching row, the same one unless the first query returned no cursor while the log existed |
| LogStore.NullQueryDuplicatesLog | app/src/main/java/com/example/discretelogger/MainActivity.kt:220-238 | a query that returns no cursor while the log exists leads to a second, empty row with the log's name and path, and the write goes to that one |
| LogStore.ByteSize | app/src/main/java/com/example/discretelogger/MainActivity.kt:288-296 | a file's size is 0 exactly when it has no lines |
| LogStore.QueriedSize | app/src/main/java/com/example/discretelogger/MainActivity.kt:288-296 | the size query reads 0 exactly when it returns no row or the file is empty |
| LogStore.Appended | app/src/main/java/com/example/discretelogger/MainActivity.kt:263 | appending to one row keeps every row's name and path, extends that row's lines, and leaves the other rows alone |
| LogStore.AppendedConcat | app/src/main/java/com/example/discretelogger/MainActivity.kt:263-276 | appending nothing is no change; two appends to a row are one append of both |
| LogStore.Accepted | app/src/main/java/com/example/discretelogger/MainActivity.kt:261-284 | a stream that opens takes every line; one that throws takes exactly the lines before the throw, all of them when it throws after the last |
| LogStore.WritePending | app/src/main/java/com/example/discretelogger/MainActivity.kt:254-286 | a write only ever appends; it changes no row but the log's; the pending list is either kept or emptied, and emptied only when the log resolved and nothing was thrown |
| LogStore.WriteAppendsBlock | app/src/main/java/com/example/discretelogger/MainActivity.kt:263-281 | a write that goes through appends the header exactly when the log was empty, then one line per tap in order, and empties the list |
| LogStore.FailedWriteKeepsPending | app/src/main/java/com/example/discretelogger/MainActivity.kt:254-286 | when the log cannot be resolved or a write throws, every pending tap is kept |
| LogStore.NullStreamDropsPending | app/src/main/java/com/example/discretelogger/MainActivity.kt:263-281 | a null output stream writes nothing and still empties the pending list |
| LogStore.HeaderWrittenOnce | app/src/main/java/com/example/discretelogger/MainActivity.kt:266-276 | two successful writes starting with no log leave one header followed by both batches in order |
| LogStore.ContentStore.Query | app/src/main/java/com/example/discretelogger/MainActivity.kt:220-227 | no cursor gives no row; otherwise the cursor scan returns the first row with the name and path |
| LogStore.ContentStore.Insert | app/src/main/java/com/example/discretelogger/MainActivity.kt:238 | an insert adds one empty row at the end and returns it, or returns null and adds nothing |
| LogStore.ContentStore.AppendLine | app/src/main/java/com/example/discretelogger/MainActivity.kt:274-275 | one write and newline appends one line to the row |
| Backup.DayLabel | app/src/main/java/com/example/discretelogger/MainActivity.kt:298-301 | a day's label is non-empty |
| Backup.DayLabelInjective | app/src/main/java/com/example/discretelogger/MainActivity.kt:322 | distinct days have distinct labels, so comparing labels compares days |
| Backup.BackupName | app/src/main/java/com/example/discretelogger/MainActivity.kt:344 | a backup's name is the day's label followed by `.csv` |
| Backup.BackupNameInjective | app/src/main/java/com/example/discretelogger/MainActivity.kt:344 | backups of distinct days have distinct file names |
| Backup.StoredDate | app/src/main/java/com/example/discretelogger/MainActivity.kt:320 | the stored date is the preference's value, or empty when it was never set; `Backup.FirstCheckIsANewDay` shows that this empty default never equals a day's label |
| Backup.FirstCheckIsANewDay | app/src/main/java/com/example/discretelogger/MainActivity.kt:318-336 | with no date stored, a check is a new-day check whatever today is: today's label is stored, and the log is resolved and backed up under yesterday's name exactly when it resolves |
| Backup.FirstResumeBacksUpEmptyLog | app/src/main/java/com/example/discretelogger/MainActivity.kt:318-336 | the first resume after install, with no log and every store call succeeding, creates the empty log and then an empty backup named after yesterday |
| Backup.BackupCopy | app/src/main/java/com/example/discretelogger/MainActivity.kt:339-368 | a backup adds at most one row at the end, exactly when the log opens and the insert succeeds; the row is named after the day under the Backups path and holds a prefix of the log, or all of it when the copy completes |
| Backup.CheckAndBackup | app/src/main/java/com/example/discretelogger/MainActivity.kt:318-336 | after a check, the stored date is today's and the other preferences are unchanged; rows are only added, at most two; nothing happens when today's date was already stored; on a new day the log is resolved, and the backup of yesterday is made from it exactly when it resolves |
| Backup.SecondCheckSameDayIsNoop | app/src/main/java/com/example/discretelogger/MainActivity.kt:318-322 | a second check on the same day changes nothing |
| Backup.NewDayBacksUpYesterday | app/src/main/java/com/example/discretelogger/MainActivity.kt:318-336 | on a new day, with the log present, its query answered and every call succeeding, one row is added: a full copy of the log named after yesterday |
| Backup.RepeatedBackupsDuplicate | app/src/main/java/com/example/discretelogger/MainActivity.kt:350-357 | a backup never looks for an existing row, so two backups of one day leave two rows with the same name and path |
| Activity.Logger.constructor | app/src/main/java/com/example/discretelogger/MainActivity.kt:34-50 | a new activity has logging off, no open contact and no pending tap |
| Activity.Logger.CheckScreenState | app/src/main/java/com/example/discretelogger/MainActivity.kt:122-125 | logging follows whether the screen is interactive; nothing else changes |
| Activity.Logger.StartLoggingIfForeground | app/src/main/java/com/example/discretelogger/MainActivity.kt:312-316 | screen-on turns logging on unless the activity is finishing or destroyed |
| Activity.Logger.StopLogging | app/src/main/java/com/example/discretelogger/MainActivity.kt:134-137 | the fields become `Correlator.Stop` of the old ones |
| Activity.Logger.LogToCsv | app/src/main/java/com/example/discretelogger/MainActivity.kt:242-247 | one unlabelled tap is added at the end of the pending list |
| Activity.Logger.OnTouchEvent | app/src/main/java/com/example/discretelogger/MainActivity.kt:148-185 | the handler's return value and new fields are `Correlator.Touch` of the old fields; the pointer loop of a move is `Correlator.MovedPeaks`; every open contact keeps a peak entry |
| Activity.Logger.LabelPending | app/src/main/java/com/example/discretelogger/MainActivity.kt:92-93 | the in-place loop leaves the pending list equal to `Taps.LabelUnlabeled` of the old list |
| Activity.Logger.OnSend | app/src/main/java/com/example/discretelogger/MainActivity.kt:88-101 | a note that trims to nothing changes nothing; otherwise the store and the pending list become `LogStore.WritePending` of the labelled list |
| Activity.Logger.LabelAndWrite | app/src/main/java/com/example/discretelogger/MainActivity.kt:91-95 | labelling and writing leave the store and the pending list equal to `LogStore.WritePending` of the labelled list |
| Activity.Logger.GetFileUri | app/src/main/java/com/example/discretelogger/MainActivity.kt:199-239 | the handle and the store after the call are `LogStore.Resolve` of the old store |
| Activity.Logger.GetFileSize | app/src/main/java/com/example/discretelogger/MainActivity.kt:288-296 | the size is `LogStore.QueriedSize` of the row, so 0 exactly when there is no row or the file is empty |
| Activity.Logger.WritePendingTapsToCsv | app/src/main/java/com/example/discretelogger/MainActivity.kt:254-286 | the store and the pending list after the write are `LogStore.WritePending` of the old ones; the touch fields are unchanged |
| Activity.Logger.WriteBlock | app/src/main/java/com/example/discretelogger/MainActivity.kt:261-281 | the log gains the header and tap lines up to where the stream throws, and the write completes exactly when nothing is thrown |
| Activity.Logger.WriteTaps | app/src/main/java/com/example/discretelogger/MainActivity.kt:272-276 | the tap loop writes the taps' lines in order until the stream throws, as many as the stream accepts |
| Activity.Logger.CheckAndBackupLogs | app/src/main/java/com/example/discretelogger/MainActivity.kt:318-336 | the preferences and the store after the check are `Backup.CheckAndBackup` of the old ones |
| Activity.Logger.BackupLogFile | app/src/main/java/com/example/discretelogger/MainActivity.kt:339-368 | the line-by-line copy leaves the store equal to `Backup.BackupCopy` of the old store |

The model keeps three behaviours of the code that a reader might not expect:

- A move updates the peak of every pointer it lists. A listed pointer with no entry gets one,
  holding the current reading.
- An `IOException` during a write keeps the pending taps. The lines written before the throw
  stay in the file.
- An `openOutputStream` that returns null empties the pending list without writing anything.

## Left out

- The sensor listener, the screen broadcast receiver and the lifecycle callbacks are not
  modelled. The listener only stores the latest reading, which each touch receives as
  `ambient`. `onResume` calls `checkAndBackupLogs`, registers the receiver and the sensor
  listener, and calls `checkScreenState`. `onPause` unregisters the receiver and the sensor
  listener and calls `stopLogging`. `onDestroy` only shuts the executor down. The permission
  request that `onCreate` makes is left out too.
- The background executor is not modelled. Each write and each backup runs to completion
  when it is called. Interleaving with the UI thread, which touches `pendingTaps` without a
  lock, is not modelled.
- Only Android Q and later is modelled, where the query also matches the relative path. The
  query's trailing slash and the insert's missing one are taken to name the same directory.
  The pre-Q query, which matches on the name alone, is left out.
- The query returns the lowest matching row. The media store promises no order.
- An exception thrown by a query or an insert, outside the `try`, would crash the app. It is
  not modelled.
- The pressure is an integer. Kotlin prints a `Float` with a decimal point, and this text is
  not modelled.
- Times are integers with no 64-bit overflow. `convertEventTimeToTimestamp` is left out, and
  the start and up times are given directly.
- A date is a day number, and its label is the number in decimal. `SimpleDateFormat`,
  `Locale`, `Calendar` and the clock are left out. `DayLabelInjective` is the property that
  the `yyyy-MM-dd` labels share and that the day gate relies on.
- A file is a sequence of lines, and the failure points are whole lines. Byte-level partial
  writes, the buffering of the `BufferedWriter` and `flush` are not modelled. A throw at the
  flush or the close is a `Throws` after every line.
- `ByteSize` counts one byte per character. UTF-8 lengths are not modelled.
- The backup copy, `InputStream.copyTo`, is modelled as a line-by-line copy.
- A note containing a comma is written unquoted, so its line does not read back as four
  fields. A note containing a line break splits its line in the file in two. Lines are
  modelled as strings, not as a file split at line breaks, so `Csv.FormatTapRoundTrip` and
  `Csv.BlockRoundTrip` require notes with no comma and no line break.
- The media store may rename a new row whose display name and path clash with an existing
  one, for example by adding a number. The model keeps the name as given. So
  `Backup.RepeatedBackupsDuplicate` and `LogStore.NullQueryDuplicatesLog` hold for this
  abstract store only. On a device the second row may have another name.
- Clearing the text field after a send is a UI action and is left out.
- The `Log.e` calls on a failed resolve, a failed write and a failed backup are not modelled.
  They only write to the system log.
