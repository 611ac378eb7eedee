/**
 * Quoted CSV as written by the notes export: every field is enclosed in
 * double quotes and a double quote inside a field is written twice
 * (section 2, rules 5 to 7, of RFC 4180); records are separated by a single
 * line feed instead of the RFC's CRLF. The reader below accepts exactly this
 * dialect and is the inverse the round-trip lemmas are stated against.
 */
module Csv {
  import opened Wrappers
  import opened Strings

  /** `'"' + str(v).replace('"', '""') + '"'` */
  function Escape(v: string): string {
    "\"" + ReplaceAll(v, "\"", "\"\"") + "\""
  }

  function EscapeAll(fields: seq<string>): (r: seq<string>)
    ensures |r| == |fields|
  {
    if fields == [] then [] else [Escape(fields[0])] + EscapeAll(fields[1..])
  }

  /** One record: each field quoted, the fields separated by commas. */
  function FormatRecord(fields: seq<string>): string {
    Join(EscapeAll(fields), ",")
  }

  function FormatRecords(rows: seq<seq<string>>): (r: seq<string>)
    ensures |r| == |rows|
  {
    if rows == [] then [] else [FormatRecord(rows[0])] + FormatRecords(rows[1..])
  }

  /** A document: the records separated by line feeds. */
  function FormatDocument(rows: seq<seq<string>>): string {
    Join(FormatRecords(rows), "\n")
  }

  lemma {:induction false} EscapeAllAt(fields: seq<string>, i: nat)
    requires i < |fields|
    ensures EscapeAll(fields)[i] == Escape(fields[i])
  {
    if i > 0 {
      EscapeAllAt(fields[1..], i - 1);
    }
  }

  lemma {:induction false} FormatRecordsAt(rows: seq<seq<string>>, i: nat)
    requires i < |rows|
    ensures FormatRecords(rows)[i] == FormatRecord(rows[i])
  {
    if i > 0 {
      FormatRecordsAt(rows[1..], i - 1);
    }
  }

  lemma {:induction false} FormatRecordsAppend(rows: seq<seq<string>>, row: seq<string>)
    ensures FormatRecords(rows + [row]) == FormatRecords(rows) + [FormatRecord(row)]
  {
    if rows != [] {
      FormatRecordsAppend(rows[1..], row);
      assert (rows + [row])[1..] == rows[1..] + [row];
    }
  }

  // ---------------------------------------------------------------------------
  // the reader

  /**
   * Reads the body of a quoted field, after its opening quote: a doubled
   * quote stands for one quote, a single quote closes the field. Gives the
   * field and the text after the closing quote, or None when the field is
   * never closed.
   */
  function ReadQuoted(s: string, acc: string): (r: Option<(string, string)>)
    ensures r.Some? ==> |r.value.1| < |s|
    decreases |s|
  {
    if s == [] then None
    else if s[0] == '"' then
      if |s| > 1 && s[1] == '"' then ReadQuoted(s[2..], acc + ['"'])
      else Some((acc, s[1..]))
    else ReadQuoted(s[1..], acc + [s[0]])
  }

  /** Reads one quoted field from the front of `s`. */
  function ReadField(s: string): (r: Option<(string, string)>)
    ensures r.Some? ==> |r.value.1| < |s|
  {
    if s != [] && s[0] == '"' then ReadQuoted(s[1..], "") else None
  }

  /** Reads comma-separated quoted fields up to the end of a record. */
  function ReadRecord(s: string): (r: Option<(seq<string>, string)>)
    ensures r.Some? ==> |r.value.1| < |s| && |r.value.0| >= 1
    decreases |s|
  {
    match ReadField(s)
    case None => None
    case Some((f, rest)) =>
      if rest != [] && rest[0] == ',' then
        match ReadRecord(rest[1..])
        case None => None
        case Some((fs, rest')) => Some(([f] + fs, rest'))
      else Some(([f], rest))
  }

  /** Reads line-feed-separated records up to the end of the text. */
  function ReadDocument(s: string): Option<seq<seq<string>>>
    decreases |s|
  {
    match ReadRecord(s)
    case None => None
    case Some((fs, rest)) =>
      if rest == [] then Some([fs])
      else if rest[0] == '\n' then
        match ReadDocument(rest[1..])
        case None => None
        case Some(more) => Some([fs] + more)
      else None
  }

  // ---------------------------------------------------------------------------
  // round trips

  lemma {:induction false} ReadQuotedEscaped(v: string, rest: string, acc: string)
    requires rest == [] || rest[0] != '"'
    ensures ReadQuoted(ReplaceAll(v, "\"", "\"\"") + "\"" + rest, acc) == Some((acc + v, rest))
  {
    var s := ReplaceAll(v, "\"", "\"\"") + "\"" + rest;
    if v == [] {
      assert s == "\"" + rest;
      assert s[1..] == rest;
      assert acc + v == acc;
    } else if v[0] == '"' {
      assert v[..1] == "\"";
      ReadQuotedEscaped(v[1..], rest, acc + ['"']);
      assert s == "\"\"" + (ReplaceAll(v[1..], "\"", "\"\"") + "\"" + rest);
      assert s[2..] == ReplaceAll(v[1..], "\"", "\"\"") + "\"" + rest;
      assert acc + ['"'] + v[1..] == acc + v;
    } else {
      assert v[..1] != "\"";
      ReadQuotedEscaped(v[1..], rest, acc + [v[0]]);
      assert s == [v[0]] + (ReplaceAll(v[1..], "\"", "\"\"") + "\"" + rest);
      assert s[1..] == ReplaceAll(v[1..], "\"", "\"\"") + "\"" + rest;
      assert acc + [v[0]] + v[1..] == acc + v;
    }
  }

  /** Reading a quoted field gives back the value that was quoted. */
  lemma EscapeRoundTrip(v: string, rest: string)
    requires rest == [] || rest[0] != '"'
    ensures ReadField(Escape(v) + rest) == Some((v, rest))
  {
    ReadQuotedEscaped(v, rest, "");
    assert (Escape(v) + rest)[1..] == ReplaceAll(v, "\"", "\"\"") + "\"" + rest;
    assert "" + v == v;
  }

  /** Reading a formatted record gives back its fields and stops at its end. */
  lemma {:induction false} ReadRecordFormatted(fields: seq<string>, rest: string)
    requires |fields| >= 1
    requires rest == [] || (rest[0] != ',' && rest[0] != '"')
    ensures ReadRecord(FormatRecord(fields) + rest) == Some((fields, rest))
  {
    if |fields| == 1 {
      assert EscapeAll(fields) == [Escape(fields[0])];
      EscapeRoundTrip(fields[0], rest);
      assert [fields[0]] == fields;
    } else {
      var tail := FormatRecord(fields[1..]);
      assert EscapeAll(fields)[1..] == EscapeAll(fields[1..]);
      assert FormatRecord(fields) + rest == Escape(fields[0]) + ("," + (tail + rest));
      EscapeRoundTrip(fields[0], "," + (tail + rest));
      assert ("," + (tail + rest))[1..] == tail + rest;
      ReadRecordFormatted(fields[1..], rest);
      assert [fields[0]] + fields[1..] == fields;
    }
  }

  /** Reading a formatted document gives back its records. */
  lemma {:induction false} ReadDocumentFormatted(rows: seq<seq<string>>)
    requires |rows| >= 1
    requires forall i :: 0 <= i < |rows| ==> |rows[i]| >= 1
    ensures ReadDocument(FormatDocument(rows)) == Some(rows)
  {
    if |rows| == 1 {
      assert FormatRecords(rows) == [FormatRecord(rows[0])];
      ReadRecordFormatted(rows[0], "");
      assert [rows[0]] == rows;
      assert FormatRecord(rows[0]) + "" == FormatRecord(rows[0]);
    } else {
      var tail := FormatDocument(rows[1..]);
      assert FormatRecords(rows)[1..] == FormatRecords(rows[1..]);
      assert FormatDocument(rows) == FormatRecord(rows[0]) + ("\n" + tail);
      ReadRecordFormatted(rows[0], "\n" + tail);
      assert ("\n" + tail)[1..] == tail;
      ReadDocumentFormatted(rows[1..]);
      assert [rows[0]] + rows[1..] == rows;
    }
  }
}
