/**
 * The base of the LLM providers: prompt-template substitution, the default
 * `generate_note` that every concrete provider overrides, and the factory
 * that picks a provider from its configured name.
 */
module LlmProviderBase {
  import opened Wrappers
  import opened Strings

  // ---------------------------------------------------------------------------
  // template substitution

  /**
   * The replace-all passes of `_substitute_template`, in order: the spaced
   * and then the bare spelling of the transcript, context and notes
   * placeholders, each with its value.
   */
  function Passes(transcript: string, context: string, existingNotes: string): (r: seq<(string, string)>)
    ensures forall i :: 0 <= i < |r| ==> r[i].0 != []
  {
    [("{{ transcript }}", transcript), ("{{transcript}}", transcript),
     ("{{ context }}", context), ("{{context}}", context),
     ("{{ notes }}", existingNotes), ("{{notes}}", existingNotes)]
  }

  /** Runs the passes one after the other, each on the result of the one before. */
  function ApplyPasses(s: string, passes: seq<(string, string)>): string
    requires forall i :: 0 <= i < |passes| ==> passes[i].0 != []
    decreases |passes|
  {
    if passes == [] then s
    else ApplyPasses(ReplaceAll(s, passes[0].0, passes[0].1), passes[1..])
  }

  /** `_substitute_template` */
  function SubstituteTemplate(prompt: string, transcript: string, context: string, existingNotes: string): string {
    ApplyPasses(prompt, Passes(transcript, context, existingNotes))
  }

  /** The three values a template refers to. */
  datatype Field = Transcript | Context | Notes

  /** A placeholder: a field, written `{{ field }}` (spaced) or `{{field}}` (bare). */
  datatype Placeholder = Placeholder(field: Field, spaced: bool)

  function FieldName(f: Field): (r: string)
    ensures |r| >= 5 && '{' !in r && ' ' !in r
  {
    match f
    case Transcript => "transcript"
    case Context => "context"
    case Notes => "notes"
  }

  function Spelling(p: Placeholder): string {
    if p.spaced then "{{ " + FieldName(p.field) + " }}" else "{{" + FieldName(p.field) + "}}"
  }

  /** The position of the placeholder's pass in `SubstituteTemplate`. */
  function Rank(p: Placeholder): (r: nat)
    ensures r < 6
  {
    var base := match p.field case Transcript => 0 case Context => 2 case Notes => 4;
    if p.spaced then base else base + 1
  }

  /** The placeholder of the pass at position `k`. */
  function PassAt(k: nat): (p: Placeholder)
    requires k < 6
    ensures Rank(p) == k
  {
    var field := if k < 2 then Transcript else if k < 4 then Context else Notes;
    Placeholder(field, k % 2 == 0)
  }

  function ValueOf(p: Placeholder, transcript: string, context: string, existingNotes: string): string {
    match p.field
    case Transcript => transcript
    case Context => context
    case Notes => existingNotes
  }

  /** A prompt template, read as literal text and placeholders. */
  datatype Piece = Text(text: string) | Hole(placeholder: Placeholder)

  /** The template's literal text contains no brace. */
  predicate PlainText(pieces: seq<Piece>) {
    forall i :: 0 <= i < |pieces| && pieces[i].Text? ==> '{' !in pieces[i].text
  }

  /** The template written out: each placeholder in its spelling. */
  function Template(pieces: seq<Piece>): string {
    if pieces == [] then ""
    else (match pieces[0] case Text(s) => s case Hole(p) => Spelling(p)) + Template(pieces[1..])
  }

  /** The template filled in: each placeholder replaced by its value. */
  function Filled(pieces: seq<Piece>, transcript: string, context: string, existingNotes: string): string {
    if pieces == [] then ""
    else
      (match pieces[0] case Text(s) => s case Hole(p) => ValueOf(p, transcript, context, existingNotes))
      + Filled(pieces[1..], transcript, context, existingNotes)
  }

  /** The template after the first `k` passes: placeholders of rank below `k` filled, the others spelled. */
  function FilledBelow(pieces: seq<Piece>, k: nat, transcript: string, context: string, existingNotes: string): string {
    if pieces == [] then ""
    else
      (match pieces[0]
       case Text(s) => s
       case Hole(p) => if Rank(p) < k then ValueOf(p, transcript, context, existingNotes) else Spelling(p))
      + FilledBelow(pieces[1..], k, transcript, context, existingNotes)
  }

  lemma {:induction false} FilledBelowNone(pieces: seq<Piece>, t: string, c: string, n: string)
    ensures FilledBelow(pieces, 0, t, c, n) == Template(pieces)
  {
    if pieces != [] {
      FilledBelowNone(pieces[1..], t, c, n);
    }
  }

  lemma {:induction false} FilledBelowAll(pieces: seq<Piece>, t: string, c: string, n: string)
    ensures FilledBelow(pieces, 6, t, c, n) == Filled(pieces, t, c, n)
  {
    if pieces != [] {
      FilledBelowAll(pieces[1..], t, c, n);
    }
  }

  /** A replace-all pass copies a prefix in which no occurrence of the pattern starts. */
  lemma {:induction false} ReplaceKeepsPrefix(x: string, y: string, pat: string, rep: string)
    requires pat != []
    requires forall i :: 0 <= i < |x| ==> !OccursAt(x + y, pat, i)
    ensures ReplaceAll(x + y, pat, rep) == x + ReplaceAll(y, pat, rep)
    decreases |x|
  {
    if x == [] {
      assert x + y == y;
    } else if |x + y| >= |pat| {
      assert !OccursAt(x + y, pat, 0);
      assert (x + y)[1..] == x[1..] + y;
      NoOccurrenceShift(x, y, pat);
      ReplaceKeepsPrefix(x[1..], y, pat, rep);
      assert x + ReplaceAll(y, pat, rep) == [x[0]] + (x[1..] + ReplaceAll(y, pat, rep));
    }
  }

  /** No occurrence in the first `|x|` positions of `x + y` means none in the first `|x| - 1` of `x[1..] + y`. */
  lemma NoOccurrenceShift(x: string, y: string, pat: string)
    requires x != []
    requires forall i :: 0 <= i < |x| ==> !OccursAt(x + y, pat, i)
    ensures forall i :: 0 <= i < |x[1..]| ==> !OccursAt(x[1..] + y, pat, i)
  {
    forall i | 0 <= i < |x[1..]|
      ensures !OccursAt(x[1..] + y, pat, i)
    {
      assert 0 <= i + 1 < |x|;
      assert !OccursAt(x + y, pat, i + 1);
      if i + |pat| <= |x[1..] + y| {
        var a, b := x[1..] + y, x + y;
        assert a == b[1..];
        var sa, sb := a[i..i + |pat|], b[i + 1..i + 1 + |pat|];
        forall k | 0 <= k < |pat|
          ensures sa[k] == sb[k]
        {
          assert sa[k] == a[i + k] == b[i + 1 + k] == sb[k];
        }
        assert sa == sb;
      }
    }
  }

  /** A replace-all pass copies text that does not contain the pattern's first character. */
  lemma ReplaceKeepsPlain(x: string, y: string, pat: string, rep: string)
    requires pat != [] && pat[0] !in x
    ensures ReplaceAll(x + y, pat, rep) == x + ReplaceAll(y, pat, rep)
  {
    forall i | 0 <= i < |x|
      ensures !OccursAt(x + y, pat, i)
    {
      if i + |pat| <= |x + y| {
        assert (x + y)[i..i + |pat|][0] == x[i];
      }
    }
    ReplaceKeepsPrefix(x, y, pat, rep);
  }

  /** A replace-all pass replaces an occurrence at the front. */
  lemma ReplaceFront(y: string, pat: string, rep: string)
    requires pat != []
    ensures ReplaceAll(pat + y, pat, rep) == rep + ReplaceAll(y, pat, rep)
  {
    assert (pat + y)[..|pat|] == pat;
    assert (pat + y)[|pat|..] == y;
  }

  /** No character of a spelling after its two opening braces is a brace. */
  lemma SpellingShape(p: Placeholder)
    ensures var s := Spelling(p);
      |s| >= 9 && s[0] == '{' && s[1] == '{' && s[2] != '{'
      && (forall i :: 2 <= i < |s| ==> s[i] != '{')
      && (p.spaced ==> s[2] == ' ' && s[3] == FieldName(p.field)[0])
      && (!p.spaced ==> s[2] == FieldName(p.field)[0])
  {
    var name := FieldName(p.field);
    var s := Spelling(p);
    if p.spaced {
      assert s == "{{ " + name + " }}";
      forall i | 2 <= i < |s|
        ensures s[i] != '{'
      {
        if 3 <= i < 3 + |name| {
          assert s[i] == name[i - 3];
        }
      }
    } else {
      assert s == "{{" + name + "}}";
      forall i | 2 <= i < |s|
        ensures s[i] != '{'
      {
        if 2 <= i < 2 + |name| {
          assert s[i] == name[i - 2];
        }
      }
    }
  }

  /** A pass for one placeholder copies the spelling of any other. */
  lemma ReplaceKeepsOther(q: Placeholder, p: Placeholder, y: string, rep: string)
    requires q != p
    ensures ReplaceAll(Spelling(q) + y, Spelling(p), rep) == Spelling(q) + ReplaceAll(y, Spelling(p), rep)
  {
    var qs, ps := Spelling(q), Spelling(p);
    SpellingShape(q);
    SpellingShape(p);
    assert FieldName(q.field)[0] != FieldName(p.field)[0] || q.field == p.field;
    forall i | 0 <= i < |qs|
      ensures !OccursAt(qs + y, ps, i)
    {
      if i + |ps| <= |qs + y| {
        var w := (qs + y)[i..i + |ps|];
        if i == 0 {
          var k := if q.spaced && p.spaced then 3 else 2;
          assert w[k] == qs[k];
        } else if i == 1 {
          assert w[1] == qs[2];
        } else {
          assert w[0] == qs[i];
        }
      }
    }
    ReplaceKeepsPrefix(qs, y, ps, rep);
  }

  /** The pass at position `k` fills exactly the placeholders of rank `k`. */
  lemma {:induction false} PassStep(pieces: seq<Piece>, k: nat, t: string, c: string, n: string)
    requires k < 6 && PlainText(pieces)
    requires '{' !in t && '{' !in c && '{' !in n
    ensures var p := PassAt(k);
      ReplaceAll(FilledBelow(pieces, k, t, c, n), Spelling(p), ValueOf(p, t, c, n))
      == FilledBelow(pieces, k + 1, t, c, n)
  {
    if pieces != [] {
      var p := PassAt(k);
      var pat, rep := Spelling(p), ValueOf(p, t, c, n);
      SpellingShape(p);
      var rest := FilledBelow(pieces[1..], k, t, c, n);
      assert PlainText(pieces[1..]) by {
        forall i | 0 <= i < |pieces[1..]| && pieces[1..][i].Text?
          ensures '{' !in pieces[1..][i].text
        {
          assert pieces[1..][i] == pieces[i + 1];
        }
      }
      PassStep(pieces[1..], k, t, c, n);
      match pieces[0]
      case Text(s) =>
        assert pieces[0].Text?;
        ReplaceKeepsPlain(s, rest, pat, rep);
      case Hole(q) =>
        if Rank(q) < k {
          ReplaceKeepsPlain(ValueOf(q, t, c, n), rest, pat, rep);
        } else if Rank(q) == k {
          assert q == p;
          ReplaceFront(rest, pat, rep);
        } else {
          ReplaceKeepsOther(q, p, rest, rep);
        }
    }
  }

  lemma {:induction false} FilledPlain(pieces: seq<Piece>, t: string, c: string, n: string)
    requires PlainText(pieces)
    requires '{' !in t && '{' !in c && '{' !in n
    ensures '{' !in Filled(pieces, t, c, n)
  {
    if pieces != [] {
      assert PlainText(pieces[1..]) by {
        forall i | 0 <= i < |pieces[1..]| && pieces[1..][i].Text?
          ensures '{' !in pieces[1..][i].text
        {
          assert pieces[1..][i] == pieces[i + 1];
        }
      }
      FilledPlain(pieces[1..], t, c, n);
    }
  }

  /** The passes are those of the six placeholders, in rank order. */
  lemma PassesSpelled(t: string, c: string, n: string, k: nat)
    requires k < 6
    ensures Passes(t, c, n)[k] == (Spelling(PassAt(k)), ValueOf(PassAt(k), t, c, n))
  {
    if k == 0 {
      assert Spelling(PassAt(k)) == "{{ transcript }}";
    } else if k == 1 {
      assert Spelling(PassAt(k)) == "{{transcript}}";
    } else if k == 2 {
      assert Spelling(PassAt(k)) == "{{ context }}";
    } else if k == 3 {
      assert Spelling(PassAt(k)) == "{{context}}";
    } else if k == 4 {
      assert Spelling(PassAt(k)) == "{{ notes }}";
    } else {
      assert Spelling(PassAt(k)) == "{{notes}}";
    }
  }

  /** The passes from position `k` on turn the template after `k` passes into the filled template. */
  lemma {:induction false} PassesFrom(pieces: seq<Piece>, k: nat, t: string, c: string, n: string)
    requires k <= 6 && PlainText(pieces)
    requires '{' !in t && '{' !in c && '{' !in n
    ensures ApplyPasses(FilledBelow(pieces, k, t, c, n), Passes(t, c, n)[k..]) == Filled(pieces, t, c, n)
    decreases 6 - k
  {
    var passes := Passes(t, c, n);
    if k == 6 {
      assert passes[k..] == [];
      FilledBelowAll(pieces, t, c, n);
    } else {
      PassesSpelled(t, c, n, k);
      PassStep(pieces, k, t, c, n);
      PassesFrom(pieces, k + 1, t, c, n);
      assert passes[k..][0] == passes[k];
      assert passes[k..][1..] == passes[k + 1..];
    }
  }

  /**
   * Substitution fills every placeholder of a template, spaced or bare, with
   * its value, and leaves no placeholder behind, provided the template's
   * text and the values contain no brace.
   */
  lemma SubstituteFillsTemplate(pieces: seq<Piece>, transcript: string, context: string, existingNotes: string)
    requires PlainText(pieces)
    requires '{' !in transcript && '{' !in context && '{' !in existingNotes
    ensures SubstituteTemplate(Template(pieces), transcript, context, existingNotes)
         == Filled(pieces, transcript, context, existingNotes)
    ensures '{' !in SubstituteTemplate(Template(pieces), transcript, context, existingNotes)
  {
    FilledBelowNone(pieces, transcript, context, existingNotes);
    PassesFrom(pieces, 0, transcript, context, existingNotes);
    assert Passes(transcript, context, existingNotes)[0..] == Passes(transcript, context, existingNotes);
    FilledPlain(pieces, transcript, context, existingNotes);
  }

  /** Passes whose patterns do not occur in `s` leave it unchanged. */
  lemma {:induction false} ApplyAbsent(s: string, passes: seq<(string, string)>)
    requires forall i :: 0 <= i < |passes| ==> passes[i].0 != [] && !Contains(s, passes[i].0)
    ensures ApplyPasses(s, passes) == s
  {
    if passes != [] {
      ReplaceAbsent(s, passes[0].0, passes[0].1);
      ApplyAbsent(s, passes[1..]);
    }
  }

  /** A prompt in which none of the six spellings occurs comes back unchanged. */
  lemma SubstituteUnchanged(prompt: string, transcript: string, context: string, existingNotes: string)
    requires !Contains(prompt, "{{ transcript }}") && !Contains(prompt, "{{transcript}}")
    requires !Contains(prompt, "{{ context }}") && !Contains(prompt, "{{context}}")
    requires !Contains(prompt, "{{ notes }}") && !Contains(prompt, "{{notes}}")
    ensures SubstituteTemplate(prompt, transcript, context, existingNotes) == prompt
  {
    ApplyAbsent(prompt, Passes(transcript, context, existingNotes));
  }

  lemma TemplateCons(x: Piece, rest: seq<Piece>, t: string, c: string, n: string)
    ensures Template([x] + rest) == Template([x]) + Template(rest)
    ensures Filled([x] + rest, t, c, n) == Filled([x], t, c, n) + Filled(rest, t, c, n)
  {
    assert ([x] + rest)[1..] == rest;
    assert [x][1..] == [];
  }

  /** A template of text, placeholder, text, placeholder, text, placeholder. */
  function Alternating(x1: string, p1: Placeholder, x2: string, p2: Placeholder, x3: string, p3: Placeholder): (r: seq<Piece>)
    ensures '{' !in x1 && '{' !in x2 && '{' !in x3 ==> PlainText(r)
  {
    [Text(x1), Hole(p1), Text(x2), Hole(p2), Text(x3), Hole(p3)]
  }

  lemma AlternatingTemplate(x1: string, p1: Placeholder, x2: string, p2: Placeholder, x3: string, p3: Placeholder)
    ensures Template(Alternating(x1, p1, x2, p2, x3, p3))
         == x1 + (Spelling(p1) + (x2 + (Spelling(p2) + (x3 + Spelling(p3)))))
  {
    var q5 := [Hole(p3)];
    var q4 := [Text(x3)] + q5;
    var q3 := [Hole(p2)] + q4;
    var q2 := [Text(x2)] + q3;
    var q1 := [Hole(p1)] + q2;
    assert Alternating(x1, p1, x2, p2, x3, p3) == [Text(x1)] + q1;
    assert Template(q5) == Spelling(p3) by { assert q5[1..] == []; }
    assert Template(q4) == x3 + Template(q5) by { assert q4[1..] == q5; }
    assert Template(q3) == Spelling(p2) + Template(q4) by { assert q3[1..] == q4; }
    assert Template(q2) == x2 + Template(q3) by { assert q2[1..] == q3; }
    assert Template(q1) == Spelling(p1) + Template(q2) by { assert q1[1..] == q2; }
    assert ([Text(x1)] + q1)[1..] == q1;
  }

  lemma AlternatingFilled(x1: string, p1: Placeholder, x2: string, p2: Placeholder, x3: string, p3: Placeholder,
                          t: string, c: string, n: string)
    ensures Filled(Alternating(x1, p1, x2, p2, x3, p3), t, c, n)
         == x1 + (ValueOf(p1, t, c, n) + (x2 + (ValueOf(p2, t, c, n) + (x3 + ValueOf(p3, t, c, n)))))
  {
    var q5 := [Hole(p3)];
    var q4 := [Text(x3)] + q5;
    var q3 := [Hole(p2)] + q4;
    var q2 := [Text(x2)] + q3;
    var q1 := [Hole(p1)] + q2;
    assert Alternating(x1, p1, x2, p2, x3, p3) == [Text(x1)] + q1;
    assert Filled(q5, t, c, n) == ValueOf(p3, t, c, n) by { assert q5[1..] == []; }
    assert Filled(q4, t, c, n) == x3 + Filled(q5, t, c, n) by { assert q4[1..] == q5; }
    assert Filled(q3, t, c, n) == ValueOf(p2, t, c, n) + Filled(q4, t, c, n) by { assert q3[1..] == q4; }
    assert Filled(q2, t, c, n) == x2 + Filled(q3, t, c, n) by { assert q2[1..] == q3; }
    assert Filled(q1, t, c, n) == ValueOf(p1, t, c, n) + Filled(q2, t, c, n) by { assert q1[1..] == q2; }
    assert ([Text(x1)] + q1)[1..] == q1;
  }

  /** Substitution into a template of three texts and three placeholders. */
  lemma AlternatingSubstituted(x1: string, p1: Placeholder, x2: string, p2: Placeholder, x3: string, p3: Placeholder,
                               t: string, c: string, n: string)
    requires '{' !in x1 && '{' !in x2 && '{' !in x3
    requires '{' !in t && '{' !in c && '{' !in n
    ensures SubstituteTemplate(x1 + (Spelling(p1) + (x2 + (Spelling(p2) + (x3 + Spelling(p3))))), t, c, n)
         == x1 + (ValueOf(p1, t, c, n) + (x2 + (ValueOf(p2, t, c, n) + (x3 + ValueOf(p3, t, c, n)))))
  {
    AlternatingTemplate(x1, p1, x2, p2, x3, p3);
    AlternatingFilled(x1, p1, x2, p2, x3, p3, t, c, n);
    SubstituteFillsTemplate(Alternating(x1, p1, x2, p2, x3, p3), t, c, n);
  }

  /** The spaced placeholders are filled (the first template of the provider tests). */
  lemma SpacedPlaceholdersFilled()
    ensures SubstituteTemplate("Transcript: " + ("{{ transcript }}" + ("\nContext: " + ("{{ context }}" + ("\nNotes: " + "{{ notes }}")))),
                               "Hello world", "Version 1", "My notes")
         == "Transcript: " + ("Hello world" + ("\nContext: " + ("Version 1" + ("\nNotes: " + "My notes"))))
  {
    var t, c, n := "Hello world", "Version 1", "My notes";
    var p1, p2, p3 := Placeholder(Transcript, true), Placeholder(Context, true), Placeholder(Notes, true);
    PassesSpelled(t, c, n, 0);
    PassesSpelled(t, c, n, 2);
    PassesSpelled(t, c, n, 4);
    assert PassAt(0) == p1 && PassAt(2) == p2 && PassAt(4) == p3;
    AlternatingSubstituted("Transcript: ", p1, "\nContext: ", p2, "\nNotes: ", p3, t, c, n);
  }

  /** The bare placeholders are filled (the second template of the provider tests). */
  lemma BarePlaceholdersFilled()
    ensures SubstituteTemplate("{{transcript}}" + (" " + ("{{context}}" + (" " + "{{notes}}"))), "test", "ctx", "notes")
         == "test" + (" " + ("ctx" + (" " + "notes")))
  {
    var t, c, n := "test", "ctx", "notes";
    var p1, p2, p3 := Placeholder(Transcript, false), Placeholder(Context, false), Placeholder(Notes, false);
    PassesSpelled(t, c, n, 1);
    PassesSpelled(t, c, n, 3);
    PassesSpelled(t, c, n, 5);
    assert PassAt(1) == p1 && PassAt(3) == p2 && PassAt(5) == p3;
    AlternatingSubstituted("", p1, " ", p2, " ", p3, t, c, n);
    assert "" + ("{{transcript}}" + (" " + ("{{context}}" + (" " + "{{notes}}"))))
        == "{{transcript}}" + (" " + ("{{context}}" + (" " + "{{notes}}")));
    assert "" + ("test" + (" " + ("ctx" + (" " + "notes")))) == "test" + (" " + ("ctx" + (" " + "notes")));
  }

  /**
   * Values free of placeholder strings do not keep the result free of them:
   * a value can complete a placeholder with the prompt text that follows it.
   */
  lemma PlaceholderCompletedByValue()
    ensures SubstituteTemplate("{{notes}}}", "", "", "{{notes}") == "{{notes}}"
  {
    var s := "{{notes}}}";
    assert s[..9] == "{{notes}}";
    assert s[9..] == "}";
  }

  // ---------------------------------------------------------------------------
  // generate_note and the provider factory

  /** The errors the base class and the factory raise. */
  datatype ProviderError = NotImplemented | UnknownProvider(message: string)

  /** `LLMProviderBase.generate_note`: the base class raises NotImplementedError for every input. */
  function GenerateNote(prompt: string, transcript: string, context: string, existingNotes: string,
                        additionalInstructions: Option<string>): (r: Result<string, ProviderError>)
    ensures r == Failure(NotImplemented)
  {
    Failure(NotImplemented)
  }

  /** The providers the factory knows. */
  datatype ProviderKind = OpenAI | Gemini


  /**
   * `get_llm_provider` on the value of the LLM_PROVIDER environment variable
   * (None when it is unset): "openai" by default, "gemini" on request, and a
   * ValueError naming any other value.
   */
  function GetLlmProvider(configured: Option<string>): (r: Result<ProviderKind, ProviderError>)
    ensures r == Success(OpenAI) <==> configured == None || configured == Some("openai")
    ensures r == Success(Gemini) <==> configured == Some("gemini")
    ensures r.Failure? ==> configured.Some?
                           && r.error == UnknownProvider("Unknown LLM provider: " + configured.value)
  {
    var providerType := match configured case None => "openai" case Some(name) => name;
    if providerType == "openai" then Success(OpenAI)
    else if providerType == "gemini" then Success(Gemini)
    else Failure(UnknownProvider("Unknown LLM provider: " + providerType))
  }
}
