/**
 * Bookkeeping of the recording pipeline's command line tool: the
 * human-readable duration, where the output goes, which LLM provider serves
 * the requested model, and the rows for playlist versions the transcript
 * never mentioned.
 */
module GmeetPipeline {
  import opened Wrappers
  import opened Strings
  import Sorting

  // ---------------------------------------------------------------------------
  // format_duration

  function Hours(seconds: nat): nat {
    seconds / 3600
  }

  function Minutes(seconds: nat): nat {
    seconds % 3600 / 60
  }

  function Secs(seconds: nat): nat {
    seconds % 60
  }

  /** The three parts make up the whole, and minutes and seconds stay below sixty. */
  lemma DurationParts(seconds: nat)
    ensures Total(Hours(seconds), Minutes(seconds), Secs(seconds)) == seconds
    ensures Minutes(seconds) < 60 && Secs(seconds) < 60
    ensures Hours(seconds) > 0 <==> seconds >= 3600
    ensures Hours(seconds) == 0 ==> (Minutes(seconds) > 0 <==> seconds >= 60)
  {
    var h, r := seconds / 3600, seconds % 3600;
    assert seconds == 3600 * h + r && r < 3600;
    var m, s := r / 60, r % 60;
    assert r == 60 * m + s && s < 60;
    assert seconds == 60 * (60 * h + m) + s;
    assert seconds % 60 == s;
  }

  /** `format_duration` on whole seconds: "Xh Ym Zs", "Ym Zs" or "Zs". */
  function FormatDuration(seconds: nat): string {
    Render(Hours(seconds), Minutes(seconds), Secs(seconds))
  }

  /** The three shapes of the text, by which parts are non-zero. */
  function Render(hours: nat, minutes: nat, secs: nat): string {
    if hours > 0 then NatToString(hours) + "h " + NatToString(minutes) + "m " + NatToString(secs) + "s"
    else if minutes > 0 then NatToString(minutes) + "m " + NatToString(secs) + "s"
    else NatToString(secs) + "s"
  }

  /** A token of digits followed by `unit`. */
  function Amount(token: string, unit: char): Option<nat> {
    if |token| >= 2 && token[|token| - 1] == unit && AllDigits(token[..|token| - 1])
    then Some(ParseNat(token[..|token| - 1]))
    else None
  }

  /** Reading a duration back: one, two or three space-separated amounts in seconds, minutes and hours. */
  function ParseDuration(text: string): Option<nat> {
    ParseTokens(SplitOn(text, ' '))
  }

  /** The seconds in `h` hours, `m` minutes and `s` seconds. */
  function Total(h: nat, m: nat, s: nat): nat {
    h * 3600 + m * 60 + s
  }

  function ParseTokens(tokens: seq<string>): Option<nat> {
    if |tokens| == 3 then
      var h, m, s := Amount(tokens[0], 'h'), Amount(tokens[1], 'm'), Amount(tokens[2], 's');
      if h.Some? && m.Some? && s.Some? then Some(Total(h.value, m.value, s.value)) else None
    else if |tokens| == 2 then
      var m, s := Amount(tokens[0], 'm'), Amount(tokens[1], 's');
      if m.Some? && s.Some? then Some(Total(0, m.value, s.value)) else None
    else if |tokens| == 1 then
      Amount(tokens[0], 's')
    else None
  }

  predicate Numeral(a: string) {
    a != [] && AllDigits(a)
  }

  lemma AmountOf(a: string, unit: char)
    requires Numeral(a) && !IsDigit(unit) && unit != ' '
    ensures Amount(a + [unit], unit) == Some(ParseNat(a))
    ensures ' ' !in a + [unit]
  {
    var token := a + [unit];
    assert token[..|token| - 1] == a;
    assert forall i :: 0 <= i < |token| ==> IsDigit(token[i]) || token[i] == unit;
    assert forall i :: 0 <= i < |token| ==> token[i] != ' ';
  }

  lemma SplitTwo(y: string, z: string)
    requires ' ' !in y && ' ' !in z
    ensures SplitOn(y + " " + z, ' ') == [y, z]
  {
    SplitOnNoSeparator(z, ' ');
    SplitOnPrefix(y, z, ' ');
  }

  lemma SplitThree(x: string, y: string, z: string)
    requires ' ' !in x && ' ' !in y && ' ' !in z
    ensures SplitOn(x + " " + (y + " " + z), ' ') == [x, y, z]
  {
    SplitTwo(y, z);
    SplitOnPrefix(x, y + " " + z, ' ');
  }

  lemma ReadsBackHours(a: string, b: string, c: string)
    requires Numeral(a) && Numeral(b) && Numeral(c)
    ensures var text := a + "h " + b + "m " + c + "s";
      ParseDuration(text) == Some(Total(ParseNat(a), ParseNat(b), ParseNat(c))) && |SplitOn(text, ' ')| == 3
  {
    var x, y, z := a + "h", b + "m", c + "s";
    AmountOf(a, 'h');
    AmountOf(b, 'm');
    AmountOf(c, 's');
    assert a + "h " + b + "m " + c + "s" == x + " " + (y + " " + z) by {
      assert a + "h " == x + " ";
      assert b + "m " + c + "s" == y + " " + z;
    }
    SplitThree(x, y, z);
  }

  lemma ReadsBackMinutes(b: string, c: string)
    requires Numeral(b) && Numeral(c)
    ensures var text := b + "m " + c + "s";
      ParseDuration(text) == Some(Total(0, ParseNat(b), ParseNat(c))) && |SplitOn(text, ' ')| == 2
  {
    var y, z := b + "m", c + "s";
    AmountOf(b, 'm');
    AmountOf(c, 's');
    assert b + "m " + c + "s" == y + " " + z;
    SplitTwo(y, z);
  }

  lemma ReadsBackSeconds(c: string)
    requires Numeral(c)
    ensures var text := c + "s";
      ParseDuration(text) == Some(ParseNat(c)) && |SplitOn(text, ' ')| == 1
  {
    AmountOf(c, 's');
    SplitOnNoSeparator(c + "s", ' ');
  }

  /** Each shape reads back as the total of its parts, in as many tokens as it has parts. */
  lemma RenderReadsBack(h: nat, m: nat, s: nat)
    ensures ParseDuration(Render(h, m, s)) == Some(Total(h, m, s))
    ensures |SplitOn(Render(h, m, s), ' ')| == if h > 0 then 3 else if m > 0 then 2 else 1
  {
    var hs, ms, ss := NatToString(h), NatToString(m), NatToString(s);
    if h > 0 {
      ReadsBackHours(hs, ms, ss);
    } else if m > 0 {
      ReadsBackMinutes(ms, ss);
    } else {
      ReadsBackSeconds(ss);
    }
  }

  /**
   * The text names as many parts as the duration needs (three from an hour
   * on, two from a minute on, one below that), and reads back as the
   * duration.
   */
  lemma FormatDurationReadsBack(seconds: nat)
    ensures ParseDuration(FormatDuration(seconds)) == Some(seconds)
    ensures |SplitOn(FormatDuration(seconds), ' ')| == if seconds >= 3600 then 3 else if seconds >= 60 then 2 else 1
  {
    DurationParts(seconds);
    RenderReadsBack(Hours(seconds), Minutes(seconds), Secs(seconds));
  }

  // ---------------------------------------------------------------------------
  // where the output goes

  /** `os.path.basename`: the text after the last `/`. */
  function Basename(path: string): (r: string)
    ensures '/' !in r
  {
    if path == [] || path[|path| - 1] == '/' then []
    else Basename(path[..|path| - 1]) + [path[|path| - 1]]
  }

  function LastDot(name: string): (r: Option<nat>)
    ensures r.Some? ==> r.value < |name| && name[r.value] == '.' && '.' !in name[r.value + 1..]
    ensures r.None? ==> '.' !in name
  {
    if name == [] then None
    else if name[|name| - 1] == '.' then Some(|name| - 1)
    else
      var r := LastDot(name[..|name| - 1]);
      assert r.Some? ==> name[r.value + 1..] == name[..|name| - 1][r.value + 1..] + [name[|name| - 1]];
      r
  }

  predicate AllDots(s: string) {
    forall i :: 0 <= i < |s| ==> s[i] == '.'
  }

  /**
   * `os.path.splitext(name)[0]` on a name without `/`: the name up to its
   * last dot, unless only dots come before that dot (a hidden file), in
   * which case the whole name.
   */
  function Root(name: string): string {
    var d := LastDot(name);
    if d.None? || AllDots(name[..d.value]) then name else name[..d.value]
  }

  /** The name of the playlist file without its directory and extension. */
  function SgBasename(sgPlaylistCsv: string): string {
    Root(Basename(sgPlaylistCsv))
  }

  lemma {:induction false} BasenameAfterSlash(dir: string, name: string)
    requires '/' !in name
    ensures Basename(dir + "/" + name) == name
    decreases |name|
  {
    if name == [] {
      assert dir + "/" + name == dir + "/";
    } else {
      var p := dir + "/" + name;
      assert p[..|p| - 1] == dir + "/" + name[..|name| - 1];
      BasenameAfterSlash(dir, name[..|name| - 1]);
      assert name[..|name| - 1] + [name[|name| - 1]] == name;
    }
  }

  /** A tail without dots leaves the last dot where it was. */
  lemma {:induction false} LastDotAppend(name: string, tail: string)
    requires '.' !in tail
    ensures LastDot(name + tail) == LastDot(name)
    decreases |tail|
  {
    if tail == [] {
      assert name + tail == name;
    } else {
      var front := tail[..|tail| - 1];
      var whole := name + tail;
      assert whole[|whole| - 1] == tail[|tail| - 1] != '.';
      assert whole[..|whole| - 1] == name + front;
      assert '.' !in front by {
        assert forall i :: 0 <= i < |front| ==> front[i] == tail[i];
      }
      LastDotAppend(name, front);
    }
  }

  /**
   * The playlist `dir/stem.ext` gives `stem`, for any stem that is not only
   * dots and an extension without dots, such as `csv`.
   */
  lemma SgBasenameOfPlaylist(dir: string, stem: string, ext: string)
    requires '/' !in stem && '/' !in ext && '.' !in ext && !AllDots(stem)
    ensures SgBasename(dir + "/" + (stem + "." + ext)) == stem
  {
    var p := stem + ".";
    var name := p + ext;
    assert '/' !in name by {
      assert forall i :: 0 <= i < |p| ==> p[i] == (if i < |stem| then stem[i] else '.');
      assert forall i :: 0 <= i < |name| ==> name[i] == (if i < |p| then p[i] else ext[i - |p|]);
    }
    BasenameAfterSlash(dir, name);
    assert LastDot(p) == Some(|stem|);
    LastDotAppend(p, ext);
    assert name[..|stem|] == stem;
  }

  /** An option given on the command line with a non-empty value. */
  predicate Given(o: Option<string>) {
    o.Some? && o.value != ""
  }

  datatype PipelineError =
    | ProjectRequired       // "--project is required when --output is a directory path"
    | ModelNotFound(model: string)  // "Model '<model>' not found or provider not enabled"

  /** The resolved `args.output`, `output_is_dir` and `output_dir`. */
  datatype Outcome = Outcome(output: string, outputIsDir: bool, outputDir: Option<string>)

  /**
   * The output mode decision: without `--output` the result goes to
   * "<playlist name>_processed.csv"; a value ending in ".csv" is that file;
   * any other value is a directory, which needs `--project`.
   */
  method DecideOutput(output: Option<string>, project: Option<string>, sgPlaylistCsv: string)
    returns (r: Result<Outcome, PipelineError>)
    ensures !Given(output) ==> r == Success(Outcome(SgBasename(sgPlaylistCsv) + "_processed.csv", false, None))
    ensures Given(output) && EndsWith(output.value, ".csv") ==> r == Success(Outcome(output.value, false, None))
    ensures Given(output) && !EndsWith(output.value, ".csv") ==>
      r == if Given(project) then Success(Outcome(output.value, true, Some(output.value))) else Failure(ProjectRequired)
  {
    var outputIsDir := false;
    var outputDir: Option<string> := None;
    var sgBasename := SgBasename(sgPlaylistCsv);
    var out: string;
    if Given(output) {
      out := output.value;
      if !EndsWith(out, ".csv") {
        outputIsDir := true;
        outputDir := Some(out);
        if !Given(project) {
          return Failure(ProjectRequired);
        }
      }
    } else {
      out := sgBasename + "_processed.csv";
    }
    r := Success(Outcome(out, outputIsDir, outputDir));
  }

  // ---------------------------------------------------------------------------
  // which provider serves the model

  /** One configured LLM client: the model it serves and its provider ("" when disabled). */
  datatype Client = Client(model: string, provider: string)

  /** Client `i` is the first one serving `model`. */
  predicate FirstMatchAt(clients: seq<Client>, model: string, i: int) {
    0 <= i < |clients| && clients[i].model == model
    && forall j :: 0 <= j < i ==> clients[j].model != model
  }

  /**
   * Provider inference: the provider of the first client whose model is the
   * requested one; no such client, or one without a provider, is an error.
   */
  method InferProvider(clients: seq<Client>, model: string) returns (r: Result<string, PipelineError>)
    ensures r.Success? ==> exists i :: FirstMatchAt(clients, model, i) && r.value == clients[i].provider && r.value != ""
    ensures r.Failure? ==> r.error == ModelNotFound(model)
                            && forall i :: FirstMatchAt(clients, model, i) ==> clients[i].provider == ""
  {
    var provider: Option<string> := None;
    var i := 0;
    while i < |clients|
      invariant 0 <= i <= |clients|
      invariant forall j :: 0 <= j < i ==> clients[j].model != model
    {
      if clients[i].model == model {
        provider := Some(clients[i].provider);
        break;
      }
      i := i + 1;
    }
    if provider.None? || provider.value == "" {
      return Failure(ModelNotFound(model));
    }
    assert FirstMatchAt(clients, model, i);
    r := Success(provider.value);
  }

  // ---------------------------------------------------------------------------
  // rows for the versions the transcript never reached

  /** A CSV row or a ShotGrid record: column name to value. */
  type Record = map<string, string>

  /** The sort key: the version as a number when it is all digits, otherwise 0. */
  function SortKey(version: string): int {
    if version != [] && AllDigits(version) then ParseNat(version) else 0
  }

  /** `dict.get(key, default)` */
  function Get(rec: Record, key: string, default: string): string {
    if key in rec then rec[key] else default
  }

  /**
   * The row for one left-over version; a later key of the literal wins over
   * an earlier equal one. (A left-over version is always in the playlist data
   * and has notes: see `AppendRemainingRows`.)
   */
  function RemainingRow(sgData: map<string, Record>, version: string, versionColumn: string): Record {
    var rec := if version in sgData then sgData[version] else map[];
    map[]["shot" := Get(rec, "shot", "")][versionColumn := Get(rec, "jts", "")]["notes" := Get(rec, "notes", "")]
      ["conversation" := ""]["timestamp" := ""]["reference_versions" := ""]["version_id" := version]
  }

  /** The rows for versions taken in the given order. */
  function RemainingRows(sgData: map<string, Record>, versions: seq<string>, versionColumn: string): (r: seq<Record>)
    ensures |r| == |versions|
  {
    seq(|versions|, i requires 0 <= i < |versions| => RemainingRow(sgData, versions[i], versionColumn))
  }

  predicate Distinct(s: seq<string>) {
    forall i, j :: 0 <= i < j < |s| ==> s[i] != s[j]
  }

  /**
   * Appending the left-over versions: `remaining` is the set
   * `sg_data.keys() - processed` in its iteration order, sorted stably by
   * numeric key before the rows are built.
   */
  method AppendRemainingRows(outputRows: seq<Record>, sgData: map<string, Record>, processed: set<string>,
                             remaining: seq<string>, versionColumn: string) returns (rows: seq<Record>)
    requires forall v :: v in remaining ==> v in sgData && "notes" in sgData[v]
    requires forall v :: v in remaining <==> v in sgData && v !in processed
    requires Distinct(remaining)
    ensures rows == outputRows + RemainingRows(sgData, Sorting.SortBy(remaining, SortKey), versionColumn)
  {
    var sorted := Sorting.SortBy(remaining, SortKey);
    rows := outputRows;
    for i := 0 to |sorted|
      invariant rows == outputRows + RemainingRows(sgData, sorted[..i], versionColumn)
    {
      RemainingRowsStep(sgData, sorted, i, versionColumn);
      rows := rows + [RemainingRow(sgData, sorted[i], versionColumn)];
    }
    assert sorted[..|sorted|] == sorted;
  }

  lemma RemainingRowsStep(sgData: map<string, Record>, versions: seq<string>, i: nat, versionColumn: string)
    requires i < |versions|
    ensures RemainingRows(sgData, versions[..i + 1], versionColumn)
         == RemainingRows(sgData, versions[..i], versionColumn) + [RemainingRow(sgData, versions[i], versionColumn)]
  {
    var a := RemainingRows(sgData, versions[..i + 1], versionColumn);
    var b := RemainingRows(sgData, versions[..i], versionColumn) + [RemainingRow(sgData, versions[i], versionColumn)];
    assert forall k :: 0 <= k < |a| ==> a[k] == b[k];
  }

  /**
   * Each left-over row has empty conversation, timestamp and reference
   * versions, the playlist notes, and the version as `version_id`; shot and
   * version column carry the playlist's values unless a later column of the
   * same name overwrote them.
   */
  lemma RemainingRowFields(sgData: map<string, Record>, version: string, versionColumn: string)
    requires version in sgData && "notes" in sgData[version]
    ensures var row := RemainingRow(sgData, version, versionColumn);
      row.Keys == {"shot", versionColumn, "notes", "conversation", "timestamp", "reference_versions", "version_id"}
      && row["version_id"] == version
      && row["conversation"] == "" && row["timestamp"] == "" && row["reference_versions"] == ""
      && row["notes"] == sgData[version]["notes"]
      && (versionColumn != "shot" ==> row["shot"] == Get(sgData[version], "shot", ""))
      && ((versionColumn !in {"notes", "conversation", "timestamp", "reference_versions", "version_id"})
          ==> row[versionColumn] == Get(sgData[version], "jts", ""))
  {
  }

  /**
   * The left-over rows are exactly one per playlist version not yet
   * processed, in non-decreasing numeric order, versions with equal keys in
   * the order they were found.
   */
  lemma RemainingRowsOrdered(sgData: map<string, Record>, processed: set<string>, remaining: seq<string>,
                             versionColumn: string, k: int)
    requires forall v :: v in remaining <==> v in sgData && v !in processed
    requires Distinct(remaining)
    ensures var sorted := Sorting.SortBy(remaining, SortKey);
      var rows := RemainingRows(sgData, sorted, versionColumn);
      (forall v :: (exists i :: 0 <= i < |rows| && rows[i]["version_id"] == v) <==> v in sgData && v !in processed)
      && Distinct(sorted)
      && (forall i, j :: 0 <= i < j < |rows| ==> SortKey(rows[i]["version_id"]) <= SortKey(rows[j]["version_id"]))
      && Sorting.WithKey(sorted, SortKey, k) == Sorting.WithKey(remaining, SortKey, k)
  {
    var sorted := Sorting.SortBy(remaining, SortKey);
    SameMembers(remaining, sorted);
    RowIds(sgData, sorted, versionColumn);
    DistinctPermutation(remaining, sorted);
    Sorting.SortByStable(remaining, SortKey, k);
  }

  lemma SameMembers(a: seq<string>, b: seq<string>)
    requires multiset(a) == multiset(b)
    ensures forall v :: v in a <==> v in b
  {
    forall v ensures v in a <==> v in b {
      assert v in a <==> v in multiset(a);
      assert v in b <==> v in multiset(b);
    }
  }

  /** Row `i` carries version `i` as its `version_id`. */
  lemma RowIds(sgData: map<string, Record>, versions: seq<string>, versionColumn: string)
    ensures var rows := RemainingRows(sgData, versions, versionColumn);
      (forall i :: 0 <= i < |rows| ==> rows[i]["version_id"] == versions[i])
      && forall v :: (exists i :: 0 <= i < |rows| && rows[i]["version_id"] == v) <==> v in versions
  {
    var rows := RemainingRows(sgData, versions, versionColumn);
    forall i | 0 <= i < |rows| ensures rows[i]["version_id"] == versions[i] {
      assert rows[i] == RemainingRow(sgData, versions[i], versionColumn);
    }
    forall v ensures (exists i :: 0 <= i < |rows| && rows[i]["version_id"] == v) <==> v in versions {
      if v in versions {
        var i :| 0 <= i < |versions| && versions[i] == v;
        assert rows[i]["version_id"] == v;
      }
    }
  }

  /** A rearrangement of a list without repeats has none either. */
  lemma DistinctPermutation(a: seq<string>, b: seq<string>)
    requires Distinct(a) && multiset(a) == multiset(b)
    ensures Distinct(b)
  {
    forall i, j | 0 <= i < j < |b| ensures b[i] != b[j] {
      CopiesCounted(b, i, j);
      assert b[i] in multiset(b);
      DistinctCount(a, b[i]);
    }
  }

  lemma CopiesCounted(b: seq<string>, i: nat, j: nat)
    requires i < j < |b|
    ensures multiset(b)[b[i]] >= 1 + (if b[j] == b[i] then 1 else 0)
  {
    assert b == b[..i] + [b[i]] + b[i + 1..j] + [b[j]] + b[j + 1..];
  }

  lemma DistinctCount(a: seq<string>, v: string)
    requires Distinct(a) && v in a
    ensures multiset(a)[v] == 1
  {
    var i :| 0 <= i < |a| && a[i] == v;
    assert v !in a[..i] && v !in a[i + 1..] by {
      forall j | 0 <= j < i ensures a[..i][j] != v {
        assert a[..i][j] == a[j];
      }
      var post := a[i + 1..];
      forall k | 0 <= k < |post| ensures post[k] != v {
        assert post[k] == a[i + 1 + k];
      }
    }
    assert a == a[..i] + [v] + a[i + 1..];
    CountOne(a[..i], v, a[i + 1..]);
  }

  lemma CountOne(pre: seq<string>, v: string, post: seq<string>)
    requires v !in pre && v !in post
    ensures multiset(pre + [v] + post)[v] == 1
  {
    assert multiset(pre + [v] + post) == multiset(pre) + multiset{v} + multiset(post);
  }
}
