/**
 * The CSV layout of the log: the header line, one comma-joined line per tap, and the
 * split that reads a line back into its fields.
 */
module Csv {
  import opened Wrappers
  import opened Decimal
  import opened Taps

  /**
   * The column names of the log, in the order the tap lines give their fields. The header line
   * below is the same text written out as one literal; `HeaderJoinsFields` proves the two agree.
   * Proofs that mention the header use the literal, which the verifier compares character by
   * character without unfolding `Join`.
   */
  const HeaderFields: seq<string> := ["StartTimestamp", "Duration(ms)", "PeakPressure", "CustomText"]

  /** The header line, `StartTimestamp,Duration(ms),PeakPressure,CustomText`. */
  const Header: string := "StartTimestamp" + "," + "Duration(ms)" + "," + "PeakPressure" + "," + "CustomText"

  /** The fields joined with `sep` between consecutive fields. */
  function Join(fields: seq<string>, sep: char): string
    requires fields != []
  {
    if |fields| == 1 then fields[0]
    else Join(fields[..|fields| - 1], sep) + [sep] + fields[|fields| - 1]
  }

  /** The fields of `s` between occurrences of `sep`; never empty (`""` splits into `[""]`). */
  function Split(s: string, sep: char): (r: seq<string>)
    ensures r != []
  {
    if s == [] then [""]
    else
      var init := Split(s[..|s| - 1], sep);
      var c := s[|s| - 1];
      if c == sep then init + [""]
      else init[..|init| - 1] + [init[|init| - 1] + [c]]
  }

  lemma {:induction false} SplitWithoutSeparator(s: string, sep: char)
    requires sep !in s
    ensures Split(s, sep) == [s]
  {
    if s != [] {
      SplitWithoutSeparator(s[..|s| - 1], sep);
      assert s[..|s| - 1] + [s[|s| - 1]] == s;
    }
  }

  lemma {:induction false} SplitAfterSeparator(a: string, b: string, sep: char)
    requires sep !in b
    ensures Split(a + [sep] + b, sep) == Split(a, sep) + [b]
  {
    var s := a + [sep] + b;
    if b == [] {
      assert s[..|s| - 1] == a;
    } else {
      var b' := b[..|b| - 1];
      assert s[..|s| - 1] == a + [sep] + b';
      SplitAfterSeparator(a, b', sep);
      assert b' + [b[|b| - 1]] == b;
    }
  }

  /** Splitting a join gives back the fields, as long as no field contains the separator. */
  lemma {:induction false} SplitJoin(fields: seq<string>, sep: char)
    requires fields != []
    requires forall i :: 0 <= i < |fields| ==> sep !in fields[i]
    ensures Split(Join(fields, sep), sep) == fields
  {
    if |fields| == 1 {
      SplitWithoutSeparator(fields[0], sep);
    } else {
      var init := fields[..|fields| - 1];
      SplitJoin(init, sep);
      SplitAfterSeparator(Join(init, sep), fields[|fields| - 1], sep);
      assert init + [fields[|fields| - 1]] == fields;
    }
  }

  /**
   * The line written for one tap: `start,duration,peak,text` (no quoting, no escaping). The
   * note is the last field, after a comma, exactly as typed.
   */
  function FormatTap(t: TapEvent): (line: string)
    ensures |line| > |t.customText| && line[|line| - |t.customText| - 1..] == [','] + t.customText
  {
    var fields := [IntToString(t.startTime), IntToString(t.duration), IntToString(t.peakPressure), t.customText];
    var head := Join(fields[..3], ',');
    assert Join(fields, ',') == head + [','] + t.customText;
    head + [','] + t.customText
  }

  /** A tap line starts with the start time's first character: a digit, or a minus sign for a negative time. */
  lemma TapLineStart(t: TapEvent)
    ensures var line := FormatTap(t);
      && line != [] && line[0] == IntToString(t.startTime)[0]
      && (line[0] == '-' <==> t.startTime < 0)
      && (t.startTime >= 0 ==> IsDigit(line[0]))
  {
    var fields := [IntToString(t.startTime), IntToString(t.duration), IntToString(t.peakPressure), t.customText];
    JoinStartsWithFirstField(fields, ',');
  }

  /** A note that fits in one CSV field of one line: no comma and no line break. */
  predicate OneField(text: string)
  {
    ',' !in text && '\n' !in text && '\r' !in text
  }

  /** Reads a log line back; `None` for a line that is not four fields with three numbers. */
  function ParseTap(line: string): Option<TapEvent>
  {
    var f := Split(line, ',');
    if |f| != 4 then None
    else
      match (ParseInt(f[0]), ParseInt(f[1]), ParseInt(f[2]))
      case (Some(start), Some(duration), Some(peak)) => Some(TapEvent(start, duration, peak, f[3]))
      case _ => None
  }

  /** A tap whose note fits in one field is read back exactly from its line. */
  lemma FormatTapRoundTrip(t: TapEvent)
    requires OneField(t.customText)
    ensures ParseTap(FormatTap(t)) == Some(t)
  {
    var fields := [IntToString(t.startTime), IntToString(t.duration), IntToString(t.peakPressure), t.customText];
    SplitJoin(fields, ',');
    IntToStringRoundTrip(t.startTime);
    IntToStringRoundTrip(t.duration);
    IntToStringRoundTrip(t.peakPressure);
  }

  lemma {:induction false} JoinStartsWithFirstField(fields: seq<string>, sep: char)
    requires fields != [] && fields[0] != []
    ensures Join(fields, sep) != [] && Join(fields, sep)[0] == fields[0][0]
  {
    if |fields| > 1 {
      JoinStartsWithFirstField(fields[..|fields| - 1], sep);
    }
  }

  /** No tap line equals the header: a tap line starts with a digit or a minus sign. */
  lemma TapLineIsNotHeader(t: TapEvent)
    ensures FormatTap(t) != Header
  {
    TapLineStart(t);
    assert Header[0] == 'S';
  }

  /** The header line is the column names joined with commas. */
  lemma HeaderJoinsFields()
    ensures Header == Join(HeaderFields, ',')
  {
    var f := HeaderFields;
    assert f[..4] == f;
    assert Join(f[..1], ',') == "StartTimestamp";
    assert f[..2][..1] == f[..1];
    assert Join(f[..2], ',') == "StartTimestamp" + "," + "Duration(ms)";
    assert f[..3][..2] == f[..2];
    assert Join(f[..3], ',') == "StartTimestamp" + "," + "Duration(ms)" + "," + "PeakPressure";
  }

  /** The header line does not read back as a tap. */
  lemma HeaderIsNotATap()
    ensures ParseTap(Header) == None
  {
    forall i | 0 <= i < |HeaderFields| ensures ',' !in HeaderFields[i] {
    }
    HeaderJoinsFields();
    SplitJoin(HeaderFields, ',');
    assert HeaderFields[0][0] == 'S';
  }

  /** One line per tap, in list order (`BlockRoundTrip` reads them back). */
  function FormatTaps(taps: seq<TapEvent>): (lines: seq<string>)
    ensures |lines| == |taps|
  {
    seq(|taps|, i requires 0 <= i < |taps| => FormatTap(taps[i]))
  }

  /** The lines of one write: the header when the file is empty, then every pending tap. */
  function Block(fileEmpty: bool, taps: seq<TapEvent>): (lines: seq<string>)
    ensures |lines| == |taps| + (if fileEmpty then 1 else 0)
    ensures fileEmpty <==> lines != [] && lines[0] == Header
  {
    var lines := (if fileEmpty then [Header] else []) + FormatTaps(taps);
    if taps == [] then lines else TapLineIsNotHeader(taps[0]); lines
  }

  /** A block is the optional header followed by the tap lines. */
  lemma BlockIsHeadAndLines(fileEmpty: bool, taps: seq<TapEvent>)
    ensures Block(fileEmpty, taps) == (if fileEmpty then [Header] else []) + FormatTaps(taps)
  {
  }

  /** Every tap line of a block reads back as the tap it was written for, in order. */
  lemma BlockRoundTrip(fileEmpty: bool, taps: seq<TapEvent>)
    requires forall i :: 0 <= i < |taps| ==> OneField(taps[i].customText)
    ensures var skip := if fileEmpty then 1 else 0;
      forall i :: 0 <= i < |taps| ==> ParseTap(Block(fileEmpty, taps)[skip + i]) == Some(taps[i])
  {
    forall i | 0 <= i < |taps| {
      BlockLineRoundTrip(fileEmpty, taps, i);
    }
  }

  /** One tap line of a block, read back. */
  lemma BlockLineRoundTrip(fileEmpty: bool, taps: seq<TapEvent>, i: nat)
    requires i < |taps| && OneField(taps[i].customText)
    ensures ParseTap(Block(fileEmpty, taps)[(if fileEmpty then 1 else 0) + i]) == Some(taps[i])
  {
    var head := if fileEmpty then [Header] else [];
    assert Block(fileEmpty, taps) == head + FormatTaps(taps);
    IndexPastHead(head, FormatTaps(taps), i);
    FormatTapRoundTrip(taps[i]);
  }

  lemma IndexPastHead<T>(head: seq<T>, tail: seq<T>, i: nat)
    requires i < |tail|
    ensures (head + tail)[|head| + i] == tail[i]
  {
  }
}
