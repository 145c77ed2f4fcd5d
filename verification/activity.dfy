/**
 * `MainActivity` with its platform glue removed: the fields the touch handler, the send
 * button and the background writes update, and one method per handler, each proved against
 * the value-level specification of its component.
 */
module Activity {
  import opened Wrappers
  import opened Text
  import opened Taps
  import opened Csv
  import opened Correlator
  import opened LogStore
  import opened Backup

  class Logger {
    var loggingEnabled: bool
    var touchStart: map<int, int>
    var peakPressure: map<int, int>
    var pendingTaps: seq<TapEvent>
    /** The app's `LogPrefs` shared preferences. */
    var prefs: map<string, string>
    /** The content resolver's view of the Downloads collection. */
    const store: ContentStore

    /** The touch state as a value. */
    function Touches(): State
      reads this
    {
      State(loggingEnabled, touchStart, peakPressure, pendingTaps)
    }

    /** Every open contact has a peak entry. */
    ghost predicate Valid()
      reads this
    {
      Consistent(Touches())
    }

    /** A fresh activity: logging off, no open contact, nothing pending; the store and preferences persist. */
    constructor(store: ContentStore, prefs: map<string, string>)
      ensures Valid()
      ensures Touches() == State(false, map[], map[], [])
      ensures this.store == store && this.prefs == prefs
    {
      loggingEnabled := false;
      touchStart := map[];
      peakPressure := map[];
      pendingTaps := [];
      this.prefs := prefs;
      this.store := store;
    }

    /** `checkScreenState`: logging follows whether the screen is interactive. */
    method CheckScreenState(interactive: bool)
      requires Valid()
      modifies this
      ensures Valid()
      ensures Touches() == old(Touches()).(enabled := interactive) && prefs == old(prefs)
    {
      loggingEnabled := interactive;
    }

    /** `startLoggingIfForeground`: screen on enables logging unless the activity is going away. */
    method StartLoggingIfForeground(finishingOrDestroyed: bool)
      requires Valid()
      modifies this
      ensures Valid()
      ensures Touches() == old(Touches()).(enabled := old(loggingEnabled) || !finishingOrDestroyed)
      ensures prefs == old(prefs)
    {
      if !finishingOrDestroyed {
        loggingEnabled := true;
      }
    }

    /** `stopLogging`: logging off, open start times dropped (peaks are kept). */
    method StopLogging()
      requires Valid()
      modifies this
      ensures Valid()
      ensures Touches() == Stop(old(Touches())) && prefs == old(prefs)
    {
      loggingEnabled := false;
      touchStart := map[];
    }

    /** `logToCsv`: a completed contact becomes an unlabelled tap at the end of the pending list. */
    method LogToCsv(startTime: int, duration: int, peak: int)
      modifies this`pendingTaps
      ensures pendingTaps == old(pendingTaps) + [TapEvent(startTime, duration, peak, "")]
    {
      pendingTaps := pendingTaps + [TapEvent(startTime, duration, peak, "")];
    }

    /** `onTouchEvent`, with the reading `currentAmbientPressure` held when the event arrives. */
    method OnTouchEvent(sig: Signal, ambient: int) returns (handled: bool)
      requires Valid()
      modifies this
      ensures Valid()
      ensures Reaction(handled, Touches()) == Touch(old(Touches()), sig, ambient)
      ensures prefs == old(prefs)
    {
      if !loggingEnabled {
        return false;
      }
      match sig {
      case Down(id, ts) =>
        touchStart := touchStart[id := ts];
        peakPressure := peakPressure[id := ambient];
      case Move(ids) =>
        var i := 0;
        while i < |ids|
          invariant 0 <= i <= |ids|
          invariant peakPressure == MovedPeaks(old(peakPressure), ids[..i], ambient)
          invariant touchStart == old(touchStart) && pendingTaps == old(pendingTaps)
          invariant loggingEnabled == old(loggingEnabled) && prefs == old(prefs)
        {
          var id := ids[i];
          var stored := if id in peakPressure then peakPressure[id] else ambient;
          MovedPeaksStep(old(peakPressure), ids, i, ambient);
          peakPressure := peakPressure[id := Max(stored, ambient)];
          i := i + 1;
        }
        assert ids[..i] == ids;
      case Up(id, ts) =>
        if id !in touchStart {
          return false;
        }
        var startTime := touchStart[id];
        var peak := if id in peakPressure then peakPressure[id] else ambient;
        LogToCsv(startTime, ts - startTime, peak);
        touchStart := touchStart - {id};
        peakPressure := peakPressure - {id};
      case Cancel(id) =>
        touchStart := touchStart - {id};
        peakPressure := peakPressure - {id};
      case Other =>
      }
      handled := true;
    }

    /** The `filter { ... }.forEach { ... }` of the send handler: the note goes onto every unlabelled tap. */
    method LabelPending(text: string)
      modifies this`pendingTaps
      ensures pendingTaps == LabelUnlabeled(old(pendingTaps), text)
    {
      var i := 0;
      while i < |pendingTaps|
        invariant 0 <= i <= |pendingTaps| == |old(pendingTaps)|
        invariant forall j :: 0 <= j < i ==> pendingTaps[j] == Labelled(old(pendingTaps)[j], text)
        invariant forall j :: i <= j < |pendingTaps| ==> pendingTaps[j] == old(pendingTaps)[j]
      {
        if pendingTaps[i].customText == "" {
          pendingTaps := pendingTaps[i := pendingTaps[i].(customText := text)];
        }
        i := i + 1;
      }
    }

    /**
     * The send button: a note that is blank once trimmed does nothing; otherwise the trimmed
     * note labels the unlabelled pending taps and the pending list is written out.
     */
    method OnSend(input: string, io: WriteIo)
      modifies this, store
      ensures Trim(input) == "" ==> pendingTaps == old(pendingTaps) && store.files == old(store.files)
      ensures Trim(input) != "" ==>
        Written(store.files, pendingTaps) == WritePending(old(store.files), LabelUnlabeled(old(pendingTaps), Trim(input)), io)
      ensures Touches() == old(Touches()).(pending := pendingTaps) && prefs == old(prefs)
    {
      var newText := Trim(input);
      if newText != "" {
        LabelAndWrite(newText, io);
      }
    }

    /** The non-blank branch of the send button: label the pending taps, then write them out. */
    method LabelAndWrite(text: string, io: WriteIo)
      modifies this, store
      ensures Written(store.files, pendingTaps) == WritePending(old(store.files), LabelUnlabeled(old(pendingTaps), text), io)
      ensures Touches() == old(Touches()).(pending := pendingTaps) && prefs == old(prefs)
    {
      ghost var files0 := store.files;
      LabelPending(text);
      ghost var labelled := pendingTaps;
      assert labelled == LabelUnlabeled(old(pendingTaps), text) && store.files == files0;
      WritePendingTapsToCsv(io);
      assert Written(store.files, pendingTaps) == WritePending(files0, labelled, io);
    }

    /** `getFileUri`: the log's row when the query finds one, else the row the insert creates (or none). */
    method GetFileUri(queryOk: bool, insertOk: bool) returns (uri: Option<nat>)
      modifies store
      ensures Resolved(uri, store.files) == Resolve(old(store.files), LogName, LogDir, queryOk, insertOk)
    {
      uri := store.Query(LogName, LogDir, queryOk);
      if uri.None? {
        uri := store.Insert(LogName, LogDir, insertOk);
      }
    }

    /** `getFileSize`: the size column of the row, 0 when the query returns no row. */
    method GetFileSize(uri: nat, queryOk: bool) returns (size: nat)
      ensures size == QueriedSize(store.files, uri, queryOk)
      ensures size == 0 <==> !queryOk || uri >= |store.files| || store.files[uri].lines == []
    {
      if queryOk && uri < |store.files| {
        size := ByteSize(store.files[uri].lines);
      } else {
        size := 0;
      }
    }

    /**
     * `writePendingTapsToCsv`, run to completion: each write may throw, which leaves the lines
     * written so far and keeps the pending list; the list is cleared only past the block.
     */
    method WritePendingTapsToCsv(io: WriteIo)
      modifies this, store
      ensures Written(store.files, pendingTaps) == WritePending(old(store.files), old(pendingTaps), io)
      ensures Touches() == old(Touches()).(pending := pendingTaps) && prefs == old(prefs)
    {
      var uri := GetFileUri(io.queryOk, io.insertOk);
      if uri.None? {
        return;
      }
      var h := uri.value;
      if io.stream.NullStream? {
        pendingTaps := [];
        return;
      }
      var size := GetFileSize(h, io.sizeKnown);
      var completed := WriteBlock(h, size == 0, io.stream);
      if completed {
        pendingTaps := [];
      }
    }

    /**
     * The `try` block of `writePendingTapsToCsv` once the stream is open: the header when the
     * file is empty, then one line per pending tap, each write possibly throwing; `completed`
     * is false when something was thrown (at a write, or at the flush and close after them).
     */
    method WriteBlock(h: nat, fileEmpty: bool, stream: Stream) returns (completed: bool)
      requires h < |store.files| && !stream.NullStream?
      modifies store
      ensures var block := Block(fileEmpty, pendingTaps);
        store.files == Appended(old(store.files), h, block[..Accepted(stream, |block|)])
      ensures completed == stream.Opened?
    {
      var taps := pendingTaps;
      ghost var base := store.files;
      ghost var head: seq<string> := if fileEmpty then [Header] else [];
      BlockIsHeadAndLines(fileEmpty, taps);
      AppendedConcat(base, h, [], []);
      var written := 0;
      if fileEmpty {
        if !Accepts(stream, written) {
          AppendedPrefix(base, h, [], head + FormatTaps(taps), 0);
          return false;
        }
        store.AppendLine(h, Header);
        written := 1;
      }
      var n := WriteTaps(h, taps, written, stream);
      AppendedPrefix(base, h, head, FormatTaps(taps), n);
      return stream.Opened?;
    }

    /**
     * The tap loop of `writePendingTapsToCsv`: format and write each tap in order, `start`
     * lines into the block, until the stream throws; `n` is how many taps got written.
     */
    method WriteTaps(h: nat, taps: seq<TapEvent>, start: nat, stream: Stream) returns (n: nat)
      requires h < |store.files| && !stream.NullStream?
      requires stream.Throws? ==> start <= stream.accepted
      modifies store
      ensures start + n == Accepted(stream, start + |taps|)
      ensures store.files == Appended(old(store.files), h, FormatTaps(taps)[..n])
    {
      ghost var base := store.files;
      ghost var lines := FormatTaps(taps);
      AppendedConcat(base, h, [], []);
      assert lines[..0] == [];
      n := 0;
      while n < |taps|
        invariant n <= |taps|
        invariant stream.Throws? ==> start + n <= stream.accepted
        invariant store.files == Appended(base, h, lines[..n])
      {
        if !Accepts(stream, start + n) {
          return;
        }
        AppendNext(base, h, lines, n);
        store.AppendLine(h, FormatTap(taps[n]));
        n := n + 1;
      }
    }

    /**
     * `checkAndBackupLogs` on day `today`: when the stored date is not today's, back up the
     * log under yesterday's name if it resolves, then store today's date.
     */
    method CheckAndBackupLogs(today: int, io: BackupIo)
      modifies this`prefs, store
      ensures Checked(prefs, store.files) == CheckAndBackup(old(prefs), today, old(store.files), io)
    {
      var lastBackupDate := StoredDate(prefs);
      var todayLabel := DayLabel(today);
      if lastBackupDate != todayLabel {
        var yesterday := today - 1;
        var logUri := GetFileUri(io.logQueryOk, io.logInsertOk);
        if logUri.Some? {
          BackupLogFile(logUri.value, yesterday, io);
        }
        prefs := prefs[LastBackupKey := todayLabel];
      }
    }

    /**
     * `backupLogFile`, run to completion: open the log, insert a new backup row (no lookup
     * first) and copy the log's lines into it until the copy throws.
     */
    method BackupLogFile(source: nat, backupDay: int, io: BackupIo)
      modifies store
      ensures store.files == BackupCopy(old(store.files), source, backupDay, io)
    {
      if !io.sourceOpens || source >= |store.files| {
        return;
      }
      var content := store.files[source].lines;
      var backupUri := store.Insert(BackupName(backupDay), BackupDir, io.backupInsertOk);
      if backupUri.None? || io.stream.NullStream? {
        return;
      }
      var dest := backupUri.value;
      ghost var base := store.files;
      AppendedConcat(base, dest, [], []);
      var i := 0;
      while i < |content|
        invariant 0 <= i <= |content|
        invariant io.stream.Throws? ==> i <= io.stream.accepted
        invariant dest < |base| && store.files == Appended(base, dest, content[..i])
      {
        if !Accepts(io.stream, i) {
          AppendedToInserted(old(store.files), BackupName(backupDay), BackupDir, content[..i]);
          return;
        }
        AppendNext(base, dest, content, i);
        store.AppendLine(dest, content[i]);
        i := i + 1;
      }
      assert content[..i] == content;
      AppendedToInserted(old(store.files), BackupName(backupDay), BackupDir, content);
    }
  }
}
