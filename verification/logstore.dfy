/**
 * The Downloads collection of the media store as the logger sees it, and the append of the
 * pending taps to `discreteLogs.csv` (`getFileUri`, `getFileSize`, `writePendingTapsToCsv`).
 * A file is its display name, its relative path and its content as a sequence of
 * newline-terminated lines; its handle (the row id in its content URI) is its position in the
 * collection. Rows are never deleted, so a handle stays valid.
 */
module LogStore {
  import opened Wrappers
  import opened Taps
  import opened Csv

  datatype FileEntry = FileEntry(name: string, dir: string, lines: seq<string>)

  const LogName: string := "discreteLogs.csv"
  const LogDir: string := "Download/DiscreteLogger"
  const BackupDir: string := "Download/DiscreteLogger/Backups"

  predicate Matches(f: FileEntry, name: string, dir: string)
  {
    f.name == name && f.dir == dir
  }

  /** The query on display name and relative path: the first matching row, if any. */
  function Find(files: seq<FileEntry>, name: string, dir: string): (r: Option<nat>)
    ensures r.Some? ==> r.value < |files| && Matches(files[r.value], name, dir)
    ensures r.Some? ==> forall j :: 0 <= j < r.value ==> !Matches(files[j], name, dir)
    ensures r.None? ==> forall j :: 0 <= j < |files| ==> !Matches(files[j], name, dir)
  {
    if files == [] then None
    else
      match Find(files[..|files| - 1], name, dir)
      case Some(h) => Some(h)
      case None => if Matches(files[|files| - 1], name, dir) then Some(|files| - 1) else None
  }

  /** The query sees only names and paths: rows with the same names and paths answer alike. */
  lemma FindSeesOnlyNames(a: seq<FileEntry>, b: seq<FileEntry>, name: string, dir: string)
    requires |a| == |b|
    requires forall j :: 0 <= j < |a| ==> a[j].name == b[j].name && a[j].dir == b[j].dir
    ensures Find(a, name, dir) == Find(b, name, dir)
  {
    var fa, fb := Find(a, name, dir), Find(b, name, dir);
    if fa.Some? && fb.Some? {
      assert !(fa.value < fb.value) && !(fb.value < fa.value);
    }
  }

  /** After inserting the row for a name that had none, the query finds the new row. */
  lemma FindInserted(files: seq<FileEntry>, name: string, dir: string)
    requires Find(files, name, dir).None?
    ensures Find(files + [FileEntry(name, dir, [])], name, dir) == Some(|files|)
  {
    assert (files + [FileEntry(name, dir, [])])[..|files|] == files;
  }

  /** A resolved handle (`null` when the insert failed) and the collection afterwards. */
  datatype Resolved = Resolved(handle: Option<nat>, files: seq<FileEntry>)

  /**
   * Find-or-create. `queryOk` is false when the query returns no cursor at all. A row the
   * answered query finds is returned and nothing is created. Otherwise one empty row is
   * inserted when the insert succeeds (`insertOk`), and nothing when it returns null.
   */
  function Resolve(files: seq<FileEntry>, name: string, dir: string, queryOk: bool, insertOk: bool): (r: Resolved)
    ensures r.handle.Some? ==> r.handle.value < |r.files| && Matches(r.files[r.handle.value], name, dir)
    ensures queryOk && Find(files, name, dir).Some? ==> r == Resolved(Find(files, name, dir), files)
    ensures (!queryOk || Find(files, name, dir).None?) && insertOk ==>
      r == Resolved(Some(|files|), files + [FileEntry(name, dir, [])])
    ensures (!queryOk || Find(files, name, dir).None?) && !insertOk ==> r == Resolved(None, files)
  {
    var found := if queryOk then Find(files, name, dir) else None;
    match found
    case Some(h) => Resolved(Some(h), files)
    case None =>
      if insertOk then Resolved(Some(|files|), files + [FileEntry(name, dir, [])])
      else Resolved(None, files)
  }

  /**
   * A second resolution whose query answers creates nothing and returns a matching row; it
   * returns the very row of the first one unless that first query failed while a row existed.
   */
  lemma ResolveIsIdempotent(files: seq<FileEntry>, name: string, dir: string, q1: bool, ok1: bool, ok2: bool)
    requires Resolve(files, name, dir, q1, ok1).handle.Some?
    ensures var r := Resolve(files, name, dir, q1, ok1);
      var r2 := Resolve(r.files, name, dir, true, ok2);
      && r2.files == r.files && r2.handle.Some?
      && ((q1 || Find(files, name, dir).None?) ==> r2 == r)
  {
    var r := Resolve(files, name, dir, q1, ok1);
    if Find(files, name, dir).None? {
      FindInserted(files, name, dir);
    } else if !q1 {
      assert Matches(r.files[r.handle.value], name, dir);
    }
  }

  /**
   * When the query returns no cursor although the log exists, the insert still runs and a
   * second row with the log's name and path appears; the handle is the new, empty one.
   */
  lemma NullQueryDuplicatesLog(files: seq<FileEntry>, name: string, dir: string)
    requires Find(files, name, dir).Some?
    ensures var r := Resolve(files, name, dir, false, true);
      && r.handle == Some(|files|) && |r.files| == |files| + 1
      && Matches(r.files[Find(files, name, dir).value], name, dir)
      && Matches(r.files[|files|], name, dir) && r.files[|files|].lines == []
  {
  }

  /** The content length in bytes, one byte per character and one per line terminator. */
  function ByteSize(lines: seq<string>): (n: nat)
    ensures n == 0 <==> lines == []
  {
    if lines == [] then 0 else ByteSize(lines[..|lines| - 1]) + |lines[|lines| - 1]| + 1
  }

  /** `getFileSize`: the size column of the row, or 0 when the size query yields no row. */
  function QueriedSize(files: seq<FileEntry>, h: nat, queryOk: bool): (n: nat)
    ensures n == 0 <==> !queryOk || h >= |files| || files[h].lines == []
  {
    if queryOk && h < |files| then ByteSize(files[h].lines) else 0
  }

  /** The collection with `more` appended to the content of row `h`. */
  function Appended(files: seq<FileEntry>, h: nat, more: seq<string>): (r: seq<FileEntry>)
    requires h < |files|
    ensures |r| == |files|
    ensures r[h].name == files[h].name && r[h].dir == files[h].dir
    ensures r[h].lines == files[h].lines + more
    ensures forall j :: 0 <= j < |files| && j != h ==> r[j] == files[j]
  {
    files[h := files[h].(lines := files[h].lines + more)]
  }

  /** Appending nothing changes nothing; two appends to one row are one append of both. */
  lemma AppendedConcat(files: seq<FileEntry>, h: nat, a: seq<string>, b: seq<string>)
    requires h < |files|
    ensures Appended(files, h, []) == files
    ensures Appended(Appended(files, h, a), h, b) == Appended(files, h, a + b)
  {
    assert files[h].lines + [] == files[h].lines;
    assert files[h].lines + a + b == files[h].lines + (a + b);
  }

  /** Appending the next line of `lines` extends the appended prefix by one. */
  lemma AppendNext(files: seq<FileEntry>, h: nat, lines: seq<string>, n: nat)
    requires h < |files| && n < |lines|
    ensures Appended(Appended(files, h, lines[..n]), h, [lines[n]]) == Appended(files, h, lines[..n + 1])
  {
    assert lines[..n + 1] == lines[..n] + [lines[n]];
    AppendedConcat(files, h, lines[..n], [lines[n]]);
  }

  /** Appending `head` and then the first `n` lines of `tail` appends a prefix of `head + tail`. */
  lemma AppendedPrefix(files: seq<FileEntry>, h: nat, head: seq<string>, tail: seq<string>, n: nat)
    requires h < |files| && n <= |tail|
    ensures Appended(Appended(files, h, head), h, tail[..n]) == Appended(files, h, (head + tail)[..|head| + n])
  {
    PrefixOfConcat(head, tail, n);
    AppendedConcat(files, h, head, tail[..n]);
  }

  /** A prefix reaching past `a` into `b` is `a` followed by a prefix of `b`. */
  lemma PrefixOfConcat<T>(a: seq<T>, b: seq<T>, n: nat)
    requires n <= |b|
    ensures (a + b)[..|a| + n] == a + b[..n]
  {
  }

  /** Appending to a row just inserted empty is inserting it with that content. */
  lemma AppendedToInserted(files: seq<FileEntry>, name: string, dir: string, more: seq<string>)
    ensures Appended(files + [FileEntry(name, dir, [])], |files|, more) == files + [FileEntry(name, dir, more)]
  {
    assert [] + more == more;
  }

  /**
   * What the output stream does: it opens and takes every write; `openOutputStream` returns
   * null; or an `IOException` is thrown after `accepted` lines were written (at the open when
   * it is 0, at the flush or close when every line was taken).
   */
  datatype Stream = Opened | NullStream | Throws(accepted: nat)

  /** Whether the stream takes one more line after `written` lines. */
  predicate Accepts(s: Stream, written: nat)
  {
    s.Opened? || (s.Throws? && written < s.accepted)
  }

  /** How many of `n` lines a stream that opened takes before it throws. */
  function Accepted(s: Stream, n: nat): (k: nat)
    requires !s.NullStream?
    ensures k <= n
    ensures s.Opened? ==> k == n
    ensures s.Throws? ==> k == n || k == s.accepted
    ensures s.Throws? && s.accepted < n ==> k == s.accepted
  {
    if s.Throws? && s.accepted < n then s.accepted else n
  }

  /**
   * The outcomes of the store calls one write depends on: whether the query for the log returns
   * a cursor, whether the insert of a missing log returns a row, whether the size query yields
   * a row, and the output stream.
   */
  datatype WriteIo = WriteIo(queryOk: bool, insertOk: bool, sizeKnown: bool, stream: Stream)

  /** The collection and the pending list after a write. */
  datatype Written = Written(files: seq<FileEntry>, pending: seq<TapEvent>)

  /** Every row keeps its name, path and the content it had, which may only grow. */
  ghost predicate AppendOnly(before: seq<FileEntry>, after: seq<FileEntry>)
  {
    && |before| <= |after|
    && forall j :: 0 <= j < |before| ==>
      && after[j].name == before[j].name && after[j].dir == before[j].dir
      && before[j].lines <= after[j].lines
  }

  /**
   * `writePendingTapsToCsv`: resolve the log; with no handle keep everything; with a null stream
   * write nothing and clear the list; otherwise append the block (header iff the queried size
   * is 0, then one line per tap) up to where the stream throws, and clear the list only when
   * nothing was thrown.
   */
  function WritePending(files: seq<FileEntry>, pending: seq<TapEvent>, io: WriteIo): (r: Written)
    ensures AppendOnly(files, r.files) && |r.files| <= |files| + 1
    ensures r.pending == pending || r.pending == []
    ensures r.pending == [] && pending != [] ==>
      Resolve(files, LogName, LogDir, io.queryOk, io.insertOk).handle.Some? && !io.stream.Throws?
    ensures forall j :: 0 <= j < |files| && files[j] != r.files[j] ==> Matches(files[j], LogName, LogDir)
  {
    var res := Resolve(files, LogName, LogDir, io.queryOk, io.insertOk);
    match res.handle
    case None => Written(res.files, pending)
    case Some(h) =>
      if io.stream.NullStream? then Written(res.files, [])
      else
        var block := Block(QueriedSize(res.files, h, io.sizeKnown) == 0, pending);
        var taken := block[..Accepted(io.stream, |block|)];
        Written(Appended(res.files, h, taken), if io.stream.Opened? then [] else pending)
  }

  /**
   * A write that goes through appends to the log, and to no other row, the header exactly
   * when the log was empty and then one line per pending tap in list order; the list is emptied.
   */
  lemma WriteAppendsBlock(files: seq<FileEntry>, pending: seq<TapEvent>, queryOk: bool, insertOk: bool)
    requires Resolve(files, LogName, LogDir, queryOk, insertOk).handle.Some?
    ensures var res := Resolve(files, LogName, LogDir, queryOk, insertOk);
      var h := res.handle.value;
      var r := WritePending(files, pending, WriteIo(queryOk, insertOk, true, Opened));
      && r.pending == []
      && r.files == Appended(res.files, h, Block(res.files[h].lines == [], pending))
  {
    var res := Resolve(files, LogName, LogDir, queryOk, insertOk);
    var h := res.handle.value;
    var block := Block(QueriedSize(res.files, h, true) == 0, pending);
    assert block == Block(res.files[h].lines == [], pending);
    assert block[..Accepted(Opened, |block|)] == block;
  }

  /** A log that cannot be resolved, or a write that throws, keeps every pending tap. */
  lemma FailedWriteKeepsPending(files: seq<FileEntry>, pending: seq<TapEvent>, io: WriteIo)
    requires Resolve(files, LogName, LogDir, io.queryOk, io.insertOk).handle.None? || io.stream.Throws?
    ensures WritePending(files, pending, io).pending == pending
  {
  }

  /** A null output stream drops the pending taps without writing them. */
  lemma NullStreamDropsPending(files: seq<FileEntry>, pending: seq<TapEvent>, queryOk: bool, insertOk: bool, sizeKnown: bool)
    requires Resolve(files, LogName, LogDir, queryOk, insertOk).handle.Some?
    ensures WritePending(files, pending, WriteIo(queryOk, insertOk, sizeKnown, NullStream))
      == Written(Resolve(files, LogName, LogDir, queryOk, insertOk).files, [])
  {
  }

  /**
   * Two writes that go through, starting from a collection with no log: the log holds one
   * header, then the first batch, then the second.
   */
  lemma HeaderWrittenOnce(files: seq<FileEntry>, first: seq<TapEvent>, second: seq<TapEvent>, ok2: bool)
    requires Find(files, LogName, LogDir).None?
    ensures var r1 := WritePending(files, first, WriteIo(true, true, true, Opened));
      var r2 := WritePending(r1.files, second, WriteIo(true, ok2, true, Opened));
      && |r2.files| == |files| + 1
      && r2.files[|files|].lines == [Header] + FormatTaps(first) + FormatTaps(second)
  {
    var h := |files|;
    var created := files + [FileEntry(LogName, LogDir, [])];
    assert Resolve(files, LogName, LogDir, true, true) == Resolved(Some(h), created);
    FindInserted(files, LogName, LogDir);
    WriteAppendsBlock(files, first, true, true);
    var r1 := WritePending(files, first, WriteIo(true, true, true, Opened));
    assert r1.files == Appended(created, h, Block(true, first));
    assert r1.files[h].lines == [Header] + FormatTaps(first);
    FindSeesOnlyNames(created, r1.files, LogName, LogDir);
    assert Resolve(r1.files, LogName, LogDir, true, ok2) == Resolved(Some(h), r1.files);
    WriteAppendsBlock(r1.files, second, true, ok2);
    var r2 := WritePending(r1.files, second, WriteIo(true, ok2, true, Opened));
    assert r2.files == Appended(r1.files, h, Block(false, second));
    assert Block(false, second) == FormatTaps(second);
    assert r2.files[h].lines == ([Header] + FormatTaps(first)) + FormatTaps(second);
  }

  /** The external content store: the rows of the Downloads collection. */
  class ContentStore {
    var files: seq<FileEntry>

    constructor(files: seq<FileEntry>)
      ensures this.files == files
    {
      this.files := files;
    }

    /**
     * `query` with `moveToFirst`: no cursor (`ok` false) gives no row; otherwise the scan
     * returns the first row with that name and path.
     */
    method Query(name: string, dir: string, ok: bool) returns (h: Option<nat>)
      ensures ok ==> h == Find(files, name, dir)
      ensures !ok ==> h == None
    {
      if !ok {
        return None;
      }
      var i := 0;
      while i < |files|
        invariant 0 <= i <= |files|
        invariant forall j :: 0 <= j < i ==> !Matches(files[j], name, dir)
      {
        if Matches(files[i], name, dir) {
          return Some(i);
        }
        i := i + 1;
      }
      return None;
    }

    /** `insert`: a new empty row at the end, or null (`ok` false) and no change. */
    method Insert(name: string, dir: string, ok: bool) returns (h: Option<nat>)
      modifies this
      ensures ok ==> h == Some(|old(files)|) && files == old(files) + [FileEntry(name, dir, [])]
      ensures !ok ==> h == None && files == old(files)
    {
      if ok {
        h := Some(|files|);
        files := files + [FileEntry(name, dir, [])];
      } else {
        h := None;
      }
    }

    /** One `write` + `newLine` on an append stream to row `h`. */
    method AppendLine(h: nat, line: string)
      requires h < |files|
      modifies this
      ensures files == Appended(old(files), h, [line])
    {
      files := files[h := files[h].(lines := files[h].lines + [line])];
    }
  }
}
