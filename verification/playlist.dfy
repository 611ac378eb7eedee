/**
 * The notes CSV export and the playlist CSV upload of the review backend.
 * The export writes one header line and one line per note, each field
 * quoted; the upload turns the rows of a playlist CSV into named items,
 * finding its columns by header name.
 */
module Playlist {
  import opened Wrappers
  import opened Strings
  import Csv
  import Seqs

  /** A note as the export receives it; a key the note lacks reads as "". */
  datatype Note = Note(shot: string, notes: string, transcription: string, summary: string)

  /** An item of an uploaded playlist. */
  datatype Item = Item(name: string, transcription: string, notes: string)

  // ---------------------------------------------------------------------------
  // export

  /**
   * The shot and version columns of an exported note: the stripped shot
   * name split at its first "/", or the whole name and an empty version
   * when it holds no "/".
   */
  function SplitShotVersion(shotName: string): (r: (string, string))
    ensures var name := Strip(shotName);
      if '/' in name then r.0 + "/" + r.1 == name && '/' !in r.0
      else r.0 == name && r.1 == ""
  {
    var name := Strip(shotName);
    if name != "" && '/' in name then SplitOnce(name, '/') else (name, "")
  }

  /** The configured column names, in the order of the header line. */
  function HeaderFields(shotField: string, versionField: string): seq<string> {
    [shotField, versionField, "notes", "transcription", "summary"]
  }

  /** `f'"{h}"'`: the header quotes a name without doubling its quotes. */
  function QuoteName(h: string): string {
    "\"" + h + "\""
  }

  function HeaderLine(shotField: string, versionField: string): string {
    Join([QuoteName(shotField), QuoteName(versionField), QuoteName("notes"),
          QuoteName("transcription"), QuoteName("summary")], ",")
  }

  /** The five values written for one note. */
  function NoteFields(n: Note): seq<string> {
    var sv := SplitShotVersion(n.shot);
    [sv.0, sv.1, n.notes, n.transcription, n.summary]
  }

  /** The fields of the notes, one record per note, in order. */
  function NoteRows(notes: seq<Note>): (r: seq<seq<string>>)
    ensures |r| == |notes| && forall i :: 0 <= i < |r| ==> |r[i]| == 5
  {
    if notes == [] then []
    else NoteRows(notes[..|notes| - 1]) + [NoteFields(notes[|notes| - 1])]
  }

  lemma NoteRowsStep(notes: seq<Note>, i: nat)
    requires i < |notes|
    ensures NoteRows(notes[..i + 1]) == NoteRows(notes[..i]) + [NoteFields(notes[i])]
  {
    assert notes[..i + 1][..i] == notes[..i];
  }

  lemma QuoteNameIsEscape(h: string)
    requires '"' !in h
    ensures Csv.Escape(h) == QuoteName(h)
  {
    forall i: nat | i <= |h|
      ensures !OccursAt(h, "\"", i)
    {
      if i + 1 <= |h| {
        assert h[i..i + 1][0] == h[i];
      }
    }
    ReplaceAbsent(h, "\"", "\"\"");
  }

  /** The exported text: the header line, then one quoted record per note, joined by line feeds. */
  function ExportContent(notes: seq<Note>, shotField: string, versionField: string): string {
    Join([HeaderLine(shotField, versionField)] + Csv.FormatRecords(NoteRows(notes)), "\n")
  }

  /** The notes export, building the lines one note at a time. */
  method ExportNotes(notes: seq<Note>, shotField: string, versionField: string) returns (content: string)
    ensures content == ExportContent(notes, shotField, versionField)
  {
    var header := HeaderLine(shotField, versionField);
    var lines := [header];
    for i := 0 to |notes|
      invariant lines == [header] + Csv.FormatRecords(NoteRows(notes[..i]))
    {
      var split := SplitShotVersion(notes[i].shot);
      var row := [Csv.Escape(split.0), Csv.Escape(split.1), Csv.Escape(notes[i].notes),
                  Csv.Escape(notes[i].transcription), Csv.Escape(notes[i].summary)];
      var line := Join(row, ",");
      RowIsFormatted(notes[i], row);
      NoteRowsStep(notes, i);
      Csv.FormatRecordsAppend(NoteRows(notes[..i]), NoteFields(notes[i]));
      ghost var done := Csv.FormatRecords(NoteRows(notes[..i]));
      assert lines + [line] == [header] + (done + [line]);
      lines := lines + [line];
    }
    assert notes[..|notes|] == notes;
    content := Join(lines, "\n");
  }

  lemma RowIsFormatted(n: Note, row: seq<string>)
    requires row == [Csv.Escape(SplitShotVersion(n.shot).0), Csv.Escape(SplitShotVersion(n.shot).1),
                     Csv.Escape(n.notes), Csv.Escape(n.transcription), Csv.Escape(n.summary)]
    ensures Join(row, ",") == Csv.FormatRecord(NoteFields(n))
  {
    forall i | 0 <= i < 5
      ensures Csv.EscapeAll(NoteFields(n))[i] == row[i]
    {
      Csv.EscapeAllAt(NoteFields(n), i);
    }
    assert Csv.EscapeAll(NoteFields(n)) == row;
  }

  lemma HeaderFormatted(shotField: string, versionField: string)
    requires '"' !in shotField && '"' !in versionField
    ensures Csv.FormatRecord(HeaderFields(shotField, versionField)) == HeaderLine(shotField, versionField)
  {
    var fields := HeaderFields(shotField, versionField);
    var quoted := [QuoteName(shotField), QuoteName(versionField), QuoteName("notes"),
                   QuoteName("transcription"), QuoteName("summary")];
    assert Csv.EscapeAll(fields) == quoted by {
      forall i | 0 <= i < 5
        ensures Csv.EscapeAll(fields)[i] == quoted[i]
      {
        Csv.EscapeAllAt(fields, i);
        QuoteNameIsEscape(fields[i]);
      }
    }
  }

  /**
   * Read back as CSV, an export gives the header names and then, for every
   * note in order, its five fields: shot, version, notes, transcription and
   * summary. (The header is quoted without doubling quotes, so this needs
   * header names without quotes.)
   */
  lemma ExportReadsBack(notes: seq<Note>, shotField: string, versionField: string)
    requires '"' !in shotField && '"' !in versionField
    ensures Csv.ReadDocument(ExportContent(notes, shotField, versionField))
         == Some([HeaderFields(shotField, versionField)] + NoteRows(notes))
  {
    var rows := [HeaderFields(shotField, versionField)] + NoteRows(notes);
    HeaderFormatted(shotField, versionField);
    assert rows[1..] == NoteRows(notes);
    Csv.ReadDocumentFormatted(rows);
  }

  // ---------------------------------------------------------------------------
  // upload

  /** The positions of the four columns the upload reads, if present. */
  datatype Columns = Columns(shot: Option<nat>, version: Option<nat>, transcription: Option<nat>, notes: Option<nat>)

  /** `xs.index(x)`, or None where Python raises ValueError. */
  function IndexOf(xs: seq<string>, x: string): (r: Option<nat>)
    ensures r.Some? ==> r.value < |xs| && xs[r.value] == x
                        && forall j :: 0 <= j < r.value ==> xs[j] != x
    ensures r.None? ==> x !in xs
  {
    if xs == [] then None
    else if xs[0] == x then Some(0)
    else match IndexOf(xs[1..], x)
      case None => None
      case Some(i) => Some(i + 1)
  }

  /** `[h.strip().lower() for h in row]` */
  function NormalizeHeader(row: seq<string>): seq<string> {
    seq(|row|, i requires 0 <= i < |row| => Lower(Strip(row[i])))
  }

  /**
   * The position of a column: the first header cell that, stripped and
   * lower-cased, equals the (lower-cased) name.
   */
  function Column(header: seq<string>, name: string): (r: Option<nat>)
    ensures r.Some? ==> r.value < |header| && Lower(Strip(header[r.value])) == name
                        && forall j :: 0 <= j < r.value ==> Lower(Strip(header[j])) != name
    ensures r.None? ==> forall j :: 0 <= j < |header| ==> Lower(Strip(header[j])) != name
  {
    var h := NormalizeHeader(header);
    var r := IndexOf(h, name);
    assert forall j :: 0 <= j < |header| ==> h[j] == Lower(Strip(header[j]));
    r
  }

  function ColumnsOf(header: seq<string>, shotField: string, versionField: string): Columns {
    Columns(Column(header, Lower(shotField)), Column(header, Lower(versionField)),
            Column(header, "transcription"), Column(header, "notes"))
  }

  /** The stripped cell of a column; "" when the column is missing or the row too short. */
  function Cell(row: seq<string>, col: Option<nat>): string {
    if col.Some? && |row| > col.value then Strip(row[col.value]) else ""
  }

  /**
   * The name of an uploaded item: "shot/version", else whichever of the two
   * is non-empty, else the stripped first cell of the row.
   */
  function ItemName(shot: string, version: string, first: string): string {
    if shot != "" && version != "" then shot + "/" + version
    else if shot != "" then shot
    else if version != "" then version
    else Strip(first)
  }

  /** The item a non-empty data row gives, if its name is not empty. */
  function RowItem(cols: Columns, row: seq<string>): Option<Item>
    requires row != []
  {
    var name := ItemName(Cell(row, cols.shot), Cell(row, cols.version), row[0]);
    if name == "" then None
    else Some(Item(name, Cell(row, cols.transcription), Cell(row, cols.notes)))
  }

  /** A row is skipped exactly when its shot, its version and its first cell are all blank. */
  lemma ItemNameEmpty(shot: string, version: string, first: string)
    ensures ItemName(shot, version, first) != "" <==> shot != "" || version != "" || !AllSpace(first)
  {
    StripSpec(first);
  }

  /** The item of one row, if it has one: none for an empty row or an empty name. */
  function RowItems(cols: Columns, row: seq<string>): (r: seq<Item>)
    ensures |r| <= 1 && forall i :: 0 <= i < |r| ==> r[i].name != ""
  {
    if row == [] then []
    else match RowItem(cols, row)
      case None => []
      case Some(it) => [it]
  }

  /** The items of the data rows, in row order. */
  function ItemsOf(cols: Columns, rows: seq<seq<string>>): seq<Item> {
    Seqs.FlatMap((row: seq<string>) => RowItems(cols, row), rows)
  }

  /**
   * The playlist upload over the rows of the CSV file. The first row is the
   * header; every later non-empty row with a non-empty item name gives one
   * item, in row order.
   */
  method UploadPlaylist(rows: seq<seq<string>>, shotField: string, versionField: string)
    returns (items: seq<Item>)
    requires rows == [] || rows[0] != [] || forall i :: 1 <= i < |rows| ==> rows[i] == []
    ensures rows == [] ==> items == []
    ensures rows != [] ==> items == ItemsOf(ColumnsOf(rows[0], shotField, versionField), rows[1..])
    ensures rows != [] && rows[0] == [] ==> items == []
    ensures forall it :: it in items ==> it.name != ""
    ensures |items| < |rows| || items == []
  {
    items := [];
    var cols := Columns(None, None, None, None);
    ghost var header := if rows == [] then Columns(None, None, None, None) else ColumnsOf(rows[0], shotField, versionField);
    for idx := 0 to |rows|
      invariant idx > 0 && rows[0] != [] ==> cols == header
      invariant idx > 0 ==> items == ItemsOf(header, rows[1..idx])
      invariant idx > 0 && rows[0] == [] ==> items == []
      invariant idx == 0 ==> items == []
    {
      var row := rows[idx];
      if idx > 0 {
        ItemsOfStep(header, rows, idx);
      } else {
        assert rows[1..1] == [];
      }
      if row == [] {
        continue;
      }
      if idx == 0 {
        cols := ColumnsOf(row, shotField, versionField);
        continue;
      }
      var itemName := ItemName(Cell(row, cols.shot), Cell(row, cols.version), row[0]);
      if itemName != "" {
        items := items + [Item(itemName, Cell(row, cols.transcription), Cell(row, cols.notes))];
      }
    }
    if rows != [] {
      assert rows[1..|rows|] == rows[1..];
      ItemsNamed(header, rows[1..]);
    }
  }

  lemma ItemsOfStep(cols: Columns, rows: seq<seq<string>>, idx: nat)
    requires 1 <= idx < |rows|
    ensures ItemsOf(cols, rows[1..idx + 1]) == ItemsOf(cols, rows[1..idx]) + RowItems(cols, rows[idx])
  {
    var xs := rows[1..];
    assert xs[..idx] == rows[1..idx + 1] && xs[..idx - 1] == rows[1..idx] && xs[idx - 1] == rows[idx];
    Seqs.FlatMapStep((row: seq<string>) => RowItems(cols, row), xs, idx - 1);
  }

  /** Every item has a non-empty name, and there are at most as many items as rows. */
  lemma ItemsNamed(cols: Columns, rows: seq<seq<string>>)
    ensures forall it :: it in ItemsOf(cols, rows) ==> it.name != ""
    ensures |ItemsOf(cols, rows)| <= |rows|
  {
    var f := (row: seq<string>) => RowItems(cols, row);
    forall it | it in ItemsOf(cols, rows)
      ensures it.name != ""
    {
      Seqs.FlatMapFrom(f, rows, it);
    }
    Seqs.FlatMapLength(f, rows);
  }

  /** Rows are read independently and in order: the items of two blocks of rows are concatenated. */
  lemma ItemsOfAppend(cols: Columns, a: seq<seq<string>>, b: seq<seq<string>>)
    ensures ItemsOf(cols, a + b) == ItemsOf(cols, a) + ItemsOf(cols, b)
  {
    Seqs.FlatMapAppend((row: seq<string>) => RowItems(cols, row), a, b);
  }

  /** A string splits at its first "/" in only one way. */
  lemma SplitAtFirstUnique(a: string, b: string, c: string, d: string)
    requires a + "/" + b == c + "/" + d && '/' !in a && '/' !in c
    ensures a == c && b == d
  {
    var x := a + "/" + b;
    assert x[|a|] == '/' && x[|c|] == '/';
    assert forall k :: 0 <= k < |a| ==> x[k] == a[k];
    assert forall k :: 0 <= k < |c| ==> x[k] == c[k];
    assert |a| == |c|;
    assert a == x[..|a|] && c == x[..|c|];
    assert b == x[|a| + 1..] && d == x[|c| + 1..];
  }

  /**
   * Upload and export agree on names: the export splits an item name built
   * from a stripped shot without "/" and a stripped version back into that
   * shot and version.
   */
  lemma ItemNameSplitsBack(shot: string, version: string, first: string)
    requires shot != "" && Trimmed(shot) && '/' !in shot
    requires Trimmed(version)
    ensures SplitShotVersion(ItemName(shot, version, first)) == (shot, version)
  {
    if version == "" {
      StripTrimmed(shot);
    } else {
      var name := shot + "/" + version;
      assert name[0] == shot[0] && name[|name| - 1] == version[|version| - 1];
      StripTrimmed(name);
      assert name[|shot|] == '/';
      var r := SplitShotVersion(name);
      SplitAtFirstUnique(r.0, r.1, shot, version);
    }
  }
}
