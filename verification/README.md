# dna note-assistant core, modelled in Dafny

This project models the small, deterministic record and text transformations of the
dna review-notes tooling, and proves properties about them:

- **Transcript preparation for the LLM.** Covers speaker initials, shot identifiers read
  from review paths, and the folding of turns that share speaker and timestamp. It also
  covers the review-marker timestamps with the two-digit year pivot and the cursor sweep
  that gives each turn its review. Next come the re-timing of turns against subtitle
  (WebVTT) segments and the per-review conversation rows.
- **The notes CSV export and the playlist CSV upload** of the review backend.
- **LLM provider base.** Prompt-template substitution of six placeholder spellings, the
  base `generate_note`, and the provider factory.
- **The recording pipeline's command line tool.** Covers the duration text, the output-mode
  decision, provider inference and the rows for playlist versions the transcript never
  mentioned.

Loops in the source are `method`s with loop invariants. Each is proved equal to a
specification function, and the properties the code promises are proved about that
function as lemmas. Python's `sorted` is modelled by a stable insertion sort (`Sorting.SortBy`).
Any two stable sorts by the same key agree, so this is exact. Times are whole microseconds
on the proleptic Gregorian time line (`ReviewTimes.Instant`).

Modules and files:

- `Wrappers` (wrappers.dfy): `Option` and `Result`.
- `Strings` (strings.dfy): strip, split, join, replace, case and decimal numerals.
- `Seqs` (seqs.dfy): a flat map.
- `Sorting` (sorting.dfy): the stable sort.
- `Csv` (csv.dfy): the quoted-CSV dialect and a reader for it.
- `NameFormats` (names.dfy).
- `Transcript` (transcript.dfy).
- `ReviewTimes` (review_times.dfy).
- `ReviewAssign` (review_assign.dfy).
- `VttAlign` (vtt_align.dfy).
- `ReviewDialogues` (review_dialogues.dfy).
- `Playlist` (playlist.dfy).
- `LlmProviderBase` (llm_provider_base.dfy).
- `GmeetPipeline` (gmeet_pipeline.dfy).

## Model

| member | source | states |
|---|---|---|
| NameFormats.GetInitials | experimental/spi/note_assistant/prep_llm_inputs.py:321-342 | the result has one letter per word of the name, at most two, each the upper-cased first letter of that word |
| NameFormats.InitialsEmpty | experimental/spi/note_assistant/prep_llm_inputs.py:329-342 | a name has no initials exactly when it is empty or all whitespace |
| NameFormats.InitialsOfWords | experimental/spi/note_assistant/prep_llm_inputs.py:324-342 | words written with single spaces give the upper-cased first letters of the first two words, or of the only word |
| NameFormats.ExtractShotId | experimental/spi/note_assistant/prep_llm_inputs.py:344-369 | the result is "N/A" or contains a "/" |
| NameFormats.ShotIdOfStripped | experimental/spi/note_assistant/prep_llm_inputs.py:363 | the identifier of a path is that of the path with surrounding whitespace stripped |
| NameFormats.ShotIdOfPath | experimental/spi/note_assistant/prep_llm_inputs.py:344-369 | any path that strips to "/"-separated segments gives its second and third non-empty segments joined by "/", or "N/A" with fewer than three |
| NameFormats.ShotIdOfSegments | experimental/spi/note_assistant/prep_llm_inputs.py:344-369 | a path written as "/"-separated segments gives its second and third non-empty segments joined by "/", or "N/A" with fewer than three |
| Transcript.AggregateTurns | experimental/spi/note_assistant/prep_llm_inputs.py:103-113 | the aggregation loop computes the left fold `Aggregate` of its merge step |
| Transcript.Aggregate | experimental/spi/note_assistant/prep_llm_inputs.py:103-113 | the aggregation is empty exactly when the input is |
| Transcript.AggregateSeparated | experimental/spi/note_assistant/prep_llm_inputs.py:103-113 | after aggregation no two neighbouring turns share speaker and timestamp, and there are no more turns than before |
| Transcript.Runs | experimental/spi/note_assistant/prep_llm_inputs.py:105-113 | the runs of same-slot turns are non-empty, and there are none only for no turns |
| Transcript.RunsConcat | experimental/spi/note_assistant/prep_llm_inputs.py:105-113 | the runs, concatenated, are the input turns in order |
| Transcript.RunsSeparated | experimental/spi/note_assistant/prep_llm_inputs.py:105-113 | every run has one speaker and one timestamp, and neighbouring runs differ in one of them |
| Transcript.AggregateIsCombinedRuns | experimental/spi/note_assistant/prep_llm_inputs.py:103-113 | the aggregation is the maximal runs, each one turn whose dialogue is the run's dialogues joined by single spaces |
| ReviewTimes.PivotYearRange | experimental/spi/note_assistant/prep_llm_inputs.py:141-146 | a two-digit year below 50 becomes 20yy, any other 19yy |
| ReviewTimes.Microseconds | experimental/spi/note_assistant/prep_llm_inputs.py:152 | the microsecond field is below one million |
| ReviewTimes.MicrosecondsFirstSix | experimental/spi/note_assistant/prep_llm_inputs.py:152 | only the first six digits of the fraction count |
| ReviewTimes.DaysInMonth | experimental/spi/note_assistant/prep_llm_inputs.py:149-153 | every month has 28 to 31 days |
| ReviewTimes.DaysBeforeMonthYear | experimental/spi/note_assistant/prep_llm_inputs.py:149-153 | the months of a year add up to its length under the leap-year rule |
| ReviewTimes.OrdinalMonotone | experimental/spi/note_assistant/prep_llm_inputs.py:149-153 | a later calendar day has a larger day number |
| ReviewTimes.InstantMonotone | experimental/spi/note_assistant/prep_llm_inputs.py:149-157 | the point in time orders valid dates as `datetime` compares them |
| ReviewTimes.TimeOfDay | experimental/spi/note_assistant/prep_llm_inputs.py:414 | hour below 24, minute and second below 60 |
| ReviewTimes.TimeOfDayOfInstant | experimental/spi/note_assistant/prep_llm_inputs.py:149-153 | the time of day read back from a date's point in time is the date's hour, minute and second |
| ReviewTimes.Clock | experimental/spi/note_assistant/prep_llm_inputs.py:414 | the clock text is eight characters long |
| ReviewTimes.ClockOfInstant | experimental/spi/note_assistant/prep_llm_inputs.py:414 | the text is HH:MM:SS, and its two-digit fields read back as the hour, minute and second of the date |
| ReviewTimes.DateOf | experimental/spi/note_assistant/prep_llm_inputs.py:139-153 | a marker's date has a year from 1950 to 2049 and a microsecond below one million |
| ReviewTimes.MarkerOf | experimental/spi/note_assistant/prep_llm_inputs.py:148-155 | a marker line yields a review exactly when its date and time are valid, and an error otherwise |
| ReviewTimes.Matched | experimental/spi/note_assistant/prep_llm_inputs.py:132-138 | the pattern-matching lines are at most as many as the lines |
| ReviewTimes.CollectedSpec | experimental/spi/note_assistant/prep_llm_inputs.py:132-155 | collection succeeds exactly when every matching line names a valid date, and then gives one marker per matching line, in file order |
| ReviewTimes.FailureStays | experimental/spi/note_assistant/prep_llm_inputs.py:132-155 | once a line fails, the whole file fails with that line's error |
| ReviewTimes.ParseReviewTimestamps | experimental/spi/note_assistant/prep_llm_inputs.py:118-157 | the method returns the first error, or the collected markers sorted by time |
| ReviewTimes.ParsedSorted | experimental/spi/note_assistant/prep_llm_inputs.py:157 | the result is sorted by time, is a permutation of the collected markers, and keeps ties in file order |
| ReviewAssign.Advance | experimental/spi/note_assistant/prep_llm_inputs.py:186-189 | the cursor never moves backwards, and it stops where the next marker is after the turn |
| ReviewAssign.AssignReviewsToTurns | experimental/spi/note_assistant/prep_llm_inputs.py:160-204 | the two-pointer loop computes the cursor-sweep specification `Assigned` |
| ReviewAssign.AdvanceCursor | experimental/spi/note_assistant/prep_llm_inputs.py:186-189 | the inner while-loop stops where the cursor function does: never behind where it started, and before the first later marker |
| ReviewAssign.AssignedKeepsTurns | experimental/spi/note_assistant/prep_llm_inputs.py:171-202 | same length; with no markers, the turns unchanged; otherwise each turn keeps timestamp, speaker and dialogue, and only its review changes |
| ReviewAssign.LastAtOrBefore | experimental/spi/note_assistant/prep_llm_inputs.py:182-195 | the index found is that of the last marker at or before the time, or 0 when all are after it |
| ReviewAssign.AdvanceFindsLast | experimental/spi/note_assistant/prep_llm_inputs.py:186-189 | on sorted markers the cursor, started at or before the answer, stops at the last marker at or before the time |
| ReviewAssign.LastMonotone | experimental/spi/note_assistant/prep_llm_inputs.py:182-195 | a later time never gets an earlier marker |
| ReviewAssign.AssignFromFindsLast | experimental/spi/note_assistant/prep_llm_inputs.py:185-202 | chronological turns each get the last marker at or before their time |
| ReviewAssign.AlignedThenAssigned | experimental/spi/note_assistant/prep_llm_inputs.py:441-448 | with a subtitle file, the re-timed turns each get the last sorted marker at or before their new time |
| ReviewAssign.UnorderedTurnsKeepLaterMarker | experimental/spi/note_assistant/prep_llm_inputs.py:186-190 | turns at 10 s then 0 s with markers at 0 s and 5 s: the second turn gets the 5 s marker, not the last one at or before it |
| ReviewAssign.AssignedIsLastAtOrBefore | experimental/spi/note_assistant/prep_llm_inputs.py:160-204 | with sorted markers and chronological turns, each turn gets the segment of the last shifted marker at or before it, else the first marker's |
| VttAlign.BestIsFirstMaximum | experimental/spi/note_assistant/prep_llm_inputs.py:279-296 | the window scan finds a segment exactly when one is eligible; the one found is in range, does not start before the last time, scores highest of all eligible ones, and is the first with that score |
| VttAlign.ScanWindow | experimental/spi/note_assistant/prep_llm_inputs.py:273-296 | the inner loop computes the window scan `Best` |
| VttAlign.Step | experimental/spi/note_assistant/prep_llm_inputs.py:298-310 | the cursor stays within the segments |
| VttAlign.StepForward | experimental/spi/note_assistant/prep_llm_inputs.py:298-317 | cursor and last time never go back; the cursor moves at most 20 segments; the turn's new time is meeting start plus the new last time; a chosen segment starts at that time; only the timestamp changes |
| VttAlign.AlignWithVtt | experimental/spi/note_assistant/prep_llm_inputs.py:255-319 | the alignment loop computes the right fold `AlignFrom` of the step from the initial state |
| VttAlign.AlignFromKeeps | experimental/spi/note_assistant/prep_llm_inputs.py:266-317 | from any state, the turns keep speaker, dialogue and review, never fall before the last time, and are chronological |
| VttAlign.AlignedChronological | experimental/spi/note_assistant/prep_llm_inputs.py:255-319 | one turn per turn, each keeping speaker, dialogue and review, none before the meeting start, and in non-decreasing time |
| ReviewDialogues.KeysDistinct | experimental/spi/note_assistant/prep_llm_inputs.py:387-397 | the group keys, in order of first appearance, have no repeats |
| ReviewDialogues.GroupByReview | experimental/spi/note_assistant/prep_llm_inputs.py:384-402 | the dictionary has a group per key in first-appearance order; each group holds the time of its first turn and the "initials:dialogue" lines of its turns in input order; an empty review counts as "unknown" |
| ReviewDialogues.AddToGroups | experimental/spi/note_assistant/prep_llm_inputs.py:388-402 | one turn's line goes to its review's group, which is opened with the turn's time if new; the order lists a review once, when it is first seen |
| ReviewDialogues.GroupedByReview | experimental/spi/note_assistant/prep_llm_inputs.py:387-397 | the dictionary built turn by turn has an entry exactly for each review seen, holding the time of its first turn and all its lines in order |
| ReviewDialogues.LinesOfAbsent | experimental/spi/note_assistant/prep_llm_inputs.py:392-402 | a key no turn has collects no lines |
| ReviewDialogues.KeysAreGroups | experimental/spi/note_assistant/prep_llm_inputs.py:387-397 | a key is a group exactly when some turn falls under it |
| ReviewDialogues.FirstTimeIsFirst | experimental/spi/note_assistant/prep_llm_inputs.py:392-397 | a group's time is that of the first turn in it |
| ReviewDialogues.EveryTurnOneLine | experimental/spi/note_assistant/prep_llm_inputs.py:399-402 | the groups hold exactly one line per turn |
| ReviewDialogues.ReviewDialogueRows | experimental/spi/note_assistant/prep_llm_inputs.py:371-417 | the rows written are the header, then the items sorted by first time, each as clock time, shot id and lines joined by line feeds |
| ReviewDialogues.WriteRows | experimental/spi/note_assistant/prep_llm_inputs.py:407-417 | the writing loop gives the header, then one row per item in order |
| ReviewDialogues.RowsOrdered | experimental/spi/note_assistant/prep_llm_inputs.py:409-411 | one row per review, in non-decreasing first time, a permutation of the groups, with ties in first-appearance order |
| Playlist.SplitShotVersion | experimental/spi/note_assistant_v2/backend/playlist.py:40-52 | with a "/": shot + "/" + version is the stripped name and the shot has no "/"; without one: the whole name and an empty version |
| Playlist.NoteRows | experimental/spi/note_assistant_v2/backend/playlist.py:58-65 | one record of five fields per note |
| Playlist.QuoteNameIsEscape | experimental/spi/note_assistant_v2/backend/playlist.py:35-36 | quoting a header name equals CSV escaping when it has no quote |
| Playlist.ExportNotes | experimental/spi/note_assistant_v2/backend/playlist.py:25-74 | the loop builds the header line, then one line per note, joined by line feeds |
| Playlist.RowIsFormatted | experimental/spi/note_assistant_v2/backend/playlist.py:55-65 | a data line is the quoted record of the note's five fields |
| Playlist.HeaderFormatted | experimental/spi/note_assistant_v2/backend/playlist.py:35-36 | the header line is the quoted record of the five configured names in order |
| Playlist.ExportReadsBack | experimental/spi/note_assistant_v2/backend/playlist.py:25-74 | read back as CSV, the export gives the header names and then, per note in order, shot, version, notes, transcription and summary |
| Playlist.IndexOf | experimental/spi/note_assistant_v2/backend/playlist.py:93-111 | the first position of the name, or none when the name is absent |
| Playlist.Column | experimental/spi/note_assistant_v2/backend/playlist.py:93-111 | the first header cell equal to the name after strip and lower-case, or none when no cell is |
| Playlist.ItemNameEmpty | experimental/spi/note_assistant_v2/backend/playlist.py:124-133 | a row gets no name exactly when shot and version are empty and the first cell is blank |
| Playlist.RowItems | experimental/spi/note_assistant_v2/backend/playlist.py:114-149 | a row gives at most one item, always named |
| Playlist.UploadPlaylist | experimental/spi/note_assistant_v2/backend/playlist.py:78-150 | the items are those of the data rows under the first row's columns, in row order, all named, fewer than the rows; an empty header row gives none |
| Playlist.ItemsNamed | experimental/spi/note_assistant_v2/backend/playlist.py:144-150 | every item has a non-empty name, and there are at most as many items as rows |
| Playlist.ItemsOfAppend | experimental/spi/note_assistant_v2/backend/playlist.py:89-150 | rows are read independently and in order |
| Playlist.ItemNameSplitsBack | experimental/spi/note_assistant_v2/backend/playlist.py:125-126 | the export splits an uploaded "shot/version" name back into that shot and version |
| Csv.EscapeRoundTrip | experimental/spi/note_assistant_v2/backend/playlist.py:55-56 | reading a quoted field gives back the value, with doubled quotes undone |
| Csv.ReadRecordFormatted | experimental/spi/note_assistant_v2/backend/playlist.py:65 | reading a record joined by commas gives back its fields and stops at its end |
| Csv.ReadDocumentFormatted | experimental/spi/note_assistant_v2/backend/playlist.py:67 | reading records joined by line feeds gives back the records |
| LlmProviderBase.PassStep | backend/src/dna/llm_providers/llm_provider_base.py:26-33 | each replace pass fills exactly the placeholders of its spelling and leaves the others |
| LlmProviderBase.PassesFrom | backend/src/dna/llm_providers/llm_provider_base.py:26-33 | the remaining passes complete a partly filled template |
| LlmProviderBase.SubstituteFillsTemplate | backend/src/dna/llm_providers/llm_provider_base.py:15-33 | with brace-free text and values, every spaced or bare placeholder gets its value and no placeholder is left |
| LlmProviderBase.SubstituteUnchanged | backend/src/dna/llm_providers/llm_provider_base.py:26-33 | a prompt with none of the six spellings comes back unchanged |
| LlmProviderBase.AlternatingSubstituted | backend/src/dna/llm_providers/llm_provider_base.py:26-33 | three texts and three placeholders are substituted in place |
| LlmProviderBase.SpacedPlaceholdersFilled | backend/tests/providers/test_gemini_provider.py:44-53 | the spaced placeholders get transcript, context and notes |
| LlmProviderBase.BarePlaceholdersFilled | backend/tests/providers/test_gemini_provider.py:55-64 | the bare placeholders are filled the same way |
| LlmProviderBase.PlaceholderCompletedByValue | backend/src/dna/llm_providers/llm_provider_base.py:27-32 | a placeholder-free value can still leave a placeholder in the result |
| LlmProviderBase.GenerateNote | backend/src/dna/llm_providers/llm_provider_base.py:35-55 | the base class fails with "not implemented" for every input |
| LlmProviderBase.GetLlmProvider | backend/src/dna/llm_providers/llm_provider_base.py:62-76 | OpenAI exactly when unset or "openai"; Gemini exactly for "gemini"; any other name is an error |
| GmeetPipeline.DurationParts | experimental/spi/note_assistant_v2/backend/tools/process_gmeet_recording.py:56-58 | hours·3600 + minutes·60 + seconds is the input with minutes and seconds below 60; hours are positive exactly from 3600 s; with no hours, minutes are positive exactly from 60 s |
| GmeetPipeline.RenderReadsBack | experimental/spi/note_assistant_v2/backend/tools/process_gmeet_recording.py:60-65 | each of the three shapes reads back as the total of its parts, in three, two or one tokens |
| GmeetPipeline.FormatDurationReadsBack | experimental/spi/note_assistant_v2/backend/tools/process_gmeet_recording.py:54-65 | the text has three parts from an hour on, two from a minute on, one below, and reads back as the duration |
| GmeetPipeline.SgBasenameOfPlaylist | experimental/spi/note_assistant_v2/backend/tools/process_gmeet_recording.py:131 | the playlist "dir/stem.ext" gives the name "stem", for an extension without dots such as "csv" and a stem that is not only dots |
| GmeetPipeline.DecideOutput | experimental/spi/note_assistant_v2/backend/tools/process_gmeet_recording.py:128-157 | without output, the file "<playlist name>_processed.csv"; with ".csv", that file; otherwise directory mode, or an error without a project |
| GmeetPipeline.InferProvider | experimental/spi/note_assistant_v2/backend/tools/process_gmeet_recording.py:159-170 | success gives the non-empty provider of the first client serving the model; failure names the model, and any first match has no provider |
| GmeetPipeline.AppendRemainingRows | experimental/spi/note_assistant_v2/backend/tools/process_gmeet_recording.py:288-299 | the rows so far, then one row per left-over version in stable numeric-key order |
| GmeetPipeline.RemainingRowFields | experimental/spi/note_assistant_v2/backend/tools/process_gmeet_recording.py:290-298 | each row has exactly the seven keys: the version as version_id; empty conversation, timestamp and reference_versions; the playlist notes; shot and version column from the playlist unless a later key of the same name overwrote them |
| GmeetPipeline.RemainingRowsOrdered | experimental/spi/note_assistant_v2/backend/tools/process_gmeet_recording.py:289-290 | the left-over rows are one per playlist version not processed, without repeats, in non-decreasing numeric key, ties in found order |
| Sorting.SortBy | experimental/spi/note_assistant/prep_llm_inputs.py:157 | `sorted` gives a sorted permutation of its input |
| Sorting.SortByStable | experimental/spi/note_assistant/prep_llm_inputs.py:410-411 | elements with the same key keep their relative order |

## Left out

- File and console I/O is left out. The prep script's functions take already-read lines or
  turns, and return the rows they write. The CSV writers (`csv.writer` with
  QUOTE_NONNUMERIC and CRLF, and `DictWriter`) are not modelled.
- The regular expressions, `strptime` and `strftime` are left out.
  - A review-marker line is given as its captured fields, or `None` when the pattern does
    not match.
  - The turn lines of `parse_gemini_transcript` are given as turns.
- `datetime`'s ValueError for an invalid date is a `Failure(DateOutOfRange)` result.
- `difflib.SequenceMatcher.ratio` and the 0.3 threshold are left out. The similarity is a
  natural-number-valued function parameter and the threshold a natural number on its
  scale. Floating point is not modelled.
- Transcript.AggregateTurns: the source appends to the dialogue of turn objects it was
  given, so it also changes the caller's turns. The model builds new values and does not
  capture that aliasing.
- Character classes are ASCII in the model where Python's are Unicode:
  - NameFormats.GetInitials: `str.upper` changes only ASCII letters. Python's full case
    mapping can give more than one character, as for 'ß', and is not modelled.
  - Playlist.Column and VttAlign.Score: `str.lower` changes only ASCII letters.
  - GmeetPipeline.SortKey: `str.isdigit` accepts ASCII digits only. Python's `isdigit` also
    accepts characters such as '²' that `int()` then rejects with ValueError; the source's
    sort fails there, and the model gives such a version the key 0 instead.
  - ReviewTimes.MarkerOf: the `\d` fields of a marker line are ASCII digits. Python's `\d`
    and `int()` accept every Unicode decimal digit.
- ReviewAssign.AssignedIsLastAtOrBefore: holds only for turns in non-decreasing time.
  The comment at `assign_reviews_to_turns` makes the promise for every turn, but the cursor
  never moves back, and without a subtitle file the turns come straight from the transcript
  with nothing ordering them. `UnorderedTurnsKeepLaterMarker` shows a turn getting a marker
  that comes after it. With a subtitle file the turns are re-timed first and come out in
  order, and `AlignedThenAssigned` states the promise for that path.
- Playlist.ExportNotes: a note's fields are the texts `str()` gives for its values. The
  model takes them as already rendered, so a JSON null shot ("None") or a numeric notes
  value ("3") is not modelled as a conversion.
- Playlist.UploadPlaylist: the source fails when the first row is empty and a later row is
  not, because the column positions are never set. The model requires that this does not
  happen.
- Playlist.ExportReadsBack: the header names are quoted without doubling their quotes, so
  the round trip is stated for header names without a quote.
- LlmProviderBase.SubstituteFillsTemplate: the claim "values without placeholders give a
  result without placeholders" is false. `PlaceholderCompletedByValue` exhibits a value
  that completes a placeholder with the text after it. The proved statement is instead
  that a brace-free template with brace-free values is filled completely.
- `LLMProviderBase.close` returns None and changes nothing, so there is nothing to state.
  The concrete providers' network calls and `DEFAULT_PROMPT` are not part of this model.
- Environment variables and command-line options are parameters.
  - An empty `--output` or `--project` counts as not given, as Python's truthiness has it.
  - An empty provider counts as none.
- GmeetPipeline.DecideOutput leaves out three things:
  - `os.makedirs`;
  - the exit done by `parser.error`, modelled as a `Failure(ProjectRequired)` result;
  - the printed list of available models on failure.
- GmeetPipeline.FormatDurationReadsBack: the duration is a whole number of seconds. The
  float input of `format_duration` is not modelled.
- GmeetPipeline.AppendRemainingRows: the iteration order of the set
  `sg_data.keys() - processed` is a parameter, `remaining`, because Python's set order is
  not specified. A left-over version whose record has no 'notes' raises KeyError in the
  source; the model requires the key for those versions only, since processed records are
  never read there.
- The Stage 1–4 orchestration of the pipeline tool, ShotGrid access, FastAPI routing and
  the Gemini and Ollama providers are not part of this model.
