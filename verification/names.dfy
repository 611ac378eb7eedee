/**
 * The two label helpers of the transcript preparation script: a speaker's
 * initials and the shot identifier read from a review path.
 */
module NameFormats {
  import opened Strings

  function Min(a: nat, b: nat): nat {
    if a <= b then a else b
  }

  /**
   * `get_initials`: the upper-cased first letters of the first two words of
   * the name, one letter for a one-word name, nothing for a blank name.
   */
  function GetInitials(fullName: string): (r: string)
    ensures |r| == Min(|Words(fullName)|, 2)
    ensures forall i :: 0 <= i < |r| ==> r[i] == UpperChar(Words(fullName)[i][0])
  {
    var parts := Words(Strip(fullName));
    WordsStrip(fullName);
    if |parts| >= 2 then [UpperChar(parts[0][0]), UpperChar(parts[1][0])]
    else if |parts| == 1 then [UpperChar(parts[0][0])]
    else ""
  }

  /** A name has no initials exactly when it is empty or all whitespace. */
  lemma InitialsEmpty(fullName: string)
    ensures GetInitials(fullName) == "" <==> AllSpace(fullName)
  {
    WordsEmpty(fullName);
  }

  /** Words written out with single spaces give back the first letters of the first two. */
  lemma InitialsOfWords(ws: seq<string>)
    requires forall i :: 0 <= i < |ws| ==> ws[i] != [] && NoSpace(ws[i])
    ensures var r := GetInitials(Join(ws, " "));
      |r| == Min(|ws|, 2) && forall i :: 0 <= i < |r| ==> r[i] == UpperChar(ws[i][0])
  {
    var s := Join(ws, " ");
    WordsOfJoin(ws);
    assert Words(s) == ws;
  }

  /**
   * `extract_shot_id`: the second and third non-empty `/`-separated segments
   * of the stripped path, joined by `/`, or "N/A" when there are fewer than
   * three.
   */
  function ExtractShotId(path: string): (r: string)
    ensures r == "N/A" || '/' in r
  {
    var meaningful := NonEmpty(SplitOn(Strip(path), '/'));
    if |meaningful| >= 3 then
      var r := meaningful[1] + "/" + meaningful[2];
      assert r[|meaningful[1]|] == '/';
      r
    else "N/A"
  }

  /**
   * A path written as segments between slashes (empty segments standing for
   * leading, trailing or doubled slashes) gives its second and third
   * non-empty segments, or "N/A" when it has fewer than three.
   */
  lemma ShotIdOfSegments(segments: seq<string>)
    requires |segments| >= 1
    requires forall i :: 0 <= i < |segments| ==> '/' !in segments[i]
    requires Trimmed(Join(segments, "/"))
    ensures var named := NonEmpty(segments);
      ExtractShotId(Join(segments, "/"))
      == if |named| >= 3 then named[1] + "/" + named[2] else "N/A"
  {
    StripTrimmed(Join(segments, "/"));
    SplitOnJoin(segments, '/');
  }

  /** Surrounding whitespace does not change the shot identifier: the path is stripped first. */
  lemma ShotIdOfStripped(path: string)
    ensures ExtractShotId(path) == ExtractShotId(Strip(path))
  {
    StripSpec(path);
    StripTrimmed(Strip(path));
  }

  /**
   * Any path that strips to segments between slashes gives the second and
   * third non-empty segments, or "N/A" when it has fewer than three.
   */
  lemma ShotIdOfPath(path: string, segments: seq<string>)
    requires |segments| >= 1
    requires forall i :: 0 <= i < |segments| ==> '/' !in segments[i]
    requires Strip(path) == Join(segments, "/")
    ensures var named := NonEmpty(segments);
      ExtractShotId(path) == if |named| >= 3 then named[1] + "/" + named[2] else "N/A"
  {
    ShotIdOfStripped(path);
    StripSpec(path);
    ShotIdOfSegments(segments);
  }
}
