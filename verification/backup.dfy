/**
 * The once-a-day backup of `checkAndBackupLogs` and `backupLogFile`: dates are day numbers,
 * the `lastBackupDate` preference is the label of the day it was last set on, and the backup
 * is a freshly inserted copy of the log under the Backups path, named after yesterday.
 */
module Backup {
  import opened Wrappers
  import opened Decimal
  import opened LogStore

  /** The `yyyy-MM-dd` text of a day, modelled as the day number in decimal. */
  function DayLabel(day: int): (s: string)
    ensures s != []
  {
    IntToString(day)
  }

  /** Distinct days have distinct labels, so comparing labels compares days. */
  lemma DayLabelInjective(d1: int, d2: int)
    requires DayLabel(d1) == DayLabel(d2)
    ensures d1 == d2
  {
    IntToStringInjective(d1, d2);
  }

  /** `"$backupDate.csv"`: the day's label followed by the extension. */
  function BackupName(day: int): (name: string)
    ensures |name| == |DayLabel(day)| + 4
    ensures name[..|DayLabel(day)|] == DayLabel(day) && name[|DayLabel(day)|..] == ".csv"
  {
    DayLabel(day) + ".csv"
  }

  /** Backups of distinct days have distinct names. */
  lemma BackupNameInjective(d1: int, d2: int)
    requires BackupName(d1) == BackupName(d2)
    ensures d1 == d2
  {
    var a, b := DayLabel(d1), DayLabel(d2);
    assert |a| == |b|;
    assert a == BackupName(d1)[..|a|];
    DayLabelInjective(d1, d2);
  }

  const LastBackupKey: string := "lastBackupDate"

  /** `prefs.getString("lastBackupDate", "")`: the stored value, or "" when the key is absent. */
  function StoredDate(prefs: map<string, string>): (d: string)
    ensures LastBackupKey !in prefs ==> d == ""
    ensures LastBackupKey in prefs ==> d == prefs[LastBackupKey]
  {
    if LastBackupKey in prefs then prefs[LastBackupKey] else ""
  }

  /**
   * The outcomes of the store calls a backup check depends on: whether the query for the log
   * returns a cursor, the insert of a missing log,
   * `openInputStream` on the log (false also for an exception there), the insert of the backup
   * row, and the output stream of the copy.
   */
  datatype BackupIo = BackupIo(logQueryOk: bool, logInsertOk: bool, sourceOpens: bool, backupInsertOk: bool, stream: Stream)

  /**
   * `backupLogFile`: when the log opens and the insert succeeds, a new row named after `day`
   * under the Backups path, holding the log's lines up to where the copy stops. No existing
   * row is looked up or changed.
   */
  function BackupCopy(files: seq<FileEntry>, source: nat, day: int, io: BackupIo): (r: seq<FileEntry>)
    ensures files <= r && |r| <= |files| + 1
    ensures |r| == |files| + 1 <==> io.sourceOpens && source < |files| && io.backupInsertOk
    ensures |r| == |files| + 1 ==>
      && r[|files|].name == BackupName(day) && r[|files|].dir == BackupDir
      && r[|files|].lines <= files[source].lines
    ensures |r| == |files| + 1 && io.stream.Opened? ==> r[|files|].lines == files[source].lines
  {
    if !io.sourceOpens || source >= |files| || !io.backupInsertOk then files
    else
      var content := files[source].lines;
      var copied := if io.stream.NullStream? then [] else content[..Accepted(io.stream, |content|)];
      files + [FileEntry(BackupName(day), BackupDir, copied)]
  }

  /** The preferences and the collection after a check. */
  datatype Checked = Checked(prefs: map<string, string>, files: seq<FileEntry>)

  /**
   * `checkAndBackupLogs` on day `today`: nothing when the stored date is today's; otherwise
   * resolve the log (which may create it), back it up under yesterday's name when it resolves,
   * and store today's date whatever happened.
   */
  function CheckAndBackup(prefs: map<string, string>, today: int, files: seq<FileEntry>, io: BackupIo): (r: Checked)
    ensures StoredDate(r.prefs) == DayLabel(today)
    ensures r.prefs.Keys == prefs.Keys + {LastBackupKey}
    ensures forall k :: k in prefs && k != LastBackupKey ==> r.prefs[k] == prefs[k]
    ensures files <= r.files && |r.files| <= |files| + 2
    ensures StoredDate(prefs) == DayLabel(today) ==> r == Checked(prefs, files)
    ensures StoredDate(prefs) != DayLabel(today) ==>
      var res := Resolve(files, LogName, LogDir, io.logQueryOk, io.logInsertOk);
      && (res.handle.None? ==> r.files == res.files)
      && (res.handle.Some? ==> r.files == BackupCopy(res.files, res.handle.value, today - 1, io))
  {
    if StoredDate(prefs) == DayLabel(today) then Checked(prefs, files)
    else
      var res := Resolve(files, LogName, LogDir, io.logQueryOk, io.logInsertOk);
      var after := if res.handle.Some? then BackupCopy(res.files, res.handle.value, today - 1, io) else res.files;
      assert files <= res.files;
      Checked(prefs[LastBackupKey := DayLabel(today)], after)
  }

  /**
   * The first check ever, with no date stored, is a new-day check on every day: the default ""
   * is never a day's label. Today's label is stored, and the log is resolved and backed up under
   * yesterday's name when it resolves.
   */
  lemma FirstCheckIsANewDay(prefs: map<string, string>, today: int, files: seq<FileEntry>, io: BackupIo)
    requires LastBackupKey !in prefs
    ensures var r := CheckAndBackup(prefs, today, files, io);
      var res := Resolve(files, LogName, LogDir, io.logQueryOk, io.logInsertOk);
      && r.prefs == prefs[LastBackupKey := DayLabel(today)]
      && (res.handle.None? ==> r.files == res.files)
      && (res.handle.Some? ==> r.files == BackupCopy(res.files, res.handle.value, today - 1, io))
  {
    assert StoredDate(prefs) == "" != DayLabel(today);
  }

  /**
   * The first resume after install, with no log yet and every store call succeeding, creates
   * the empty log and then an empty backup of it named after yesterday.
   */
  lemma FirstResumeBacksUpEmptyLog(prefs: map<string, string>, today: int, files: seq<FileEntry>, io: BackupIo)
    requires LastBackupKey !in prefs && Find(files, LogName, LogDir).None?
    requires io.logInsertOk && io.sourceOpens && io.backupInsertOk
    ensures CheckAndBackup(prefs, today, files, io).files
      == files + [FileEntry(LogName, LogDir, []), FileEntry(BackupName(today - 1), BackupDir, [])]
  {
    FirstCheckIsANewDay(prefs, today, files, io);
    var res := Resolve(files, LogName, LogDir, io.logQueryOk, io.logInsertOk);
    assert res.handle == Some(|files|) && res.files[|files|].lines == [];
  }

  /** A second check on the same day changes neither the preferences nor the store. */
  lemma SecondCheckSameDayIsNoop(prefs: map<string, string>, today: int, files: seq<FileEntry>, io: BackupIo,
                                 later: seq<FileEntry>, io2: BackupIo)
    ensures var first := CheckAndBackup(prefs, today, files, io);
      CheckAndBackup(first.prefs, today, later, io2) == Checked(first.prefs, later)
  {
  }

  /**
   * The first check on a later day, with the log found and every store call succeeding, adds
   * exactly one row: a full copy of the log named after the day before `today`.
   */
  lemma NewDayBacksUpYesterday(prefs: map<string, string>, last: int, today: int, files: seq<FileEntry>, io: BackupIo)
    requires StoredDate(prefs) == DayLabel(last) && last != today
    requires Find(files, LogName, LogDir).Some? && io.logQueryOk
    requires io.sourceOpens && io.backupInsertOk && io.stream.Opened?
    ensures var r := CheckAndBackup(prefs, today, files, io);
      var log := Find(files, LogName, LogDir).value;
      r.files == files + [FileEntry(BackupName(today - 1), BackupDir, files[log].lines)]
  {
    if DayLabel(last) == DayLabel(today) {
      DayLabelInjective(last, today);
    }
  }

  /**
   * A backup never looks for an existing row: two backups for the same day leave two rows
   * with that name and path.
   */
  lemma RepeatedBackupsDuplicate(files: seq<FileEntry>, source: nat, day: int, io: BackupIo)
    requires io.sourceOpens && io.backupInsertOk && source < |files|
    ensures var r := BackupCopy(BackupCopy(files, source, day, io), source, day, io);
      && |r| == |files| + 2
      && Matches(r[|files|], BackupName(day), BackupDir)
      && Matches(r[|files| + 1], BackupName(day), BackupDir)
  {
  }
}
