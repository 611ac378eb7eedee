/**
 * Speaker turns of a meeting transcript and the folding of consecutive
 * turns that share speaker and timestamp into one turn. Timestamps are
 * whole microseconds on the proleptic Gregorian time line (see module
 * ReviewTimes); durations are differences of them.
 */
module Transcript {
  import opened Strings

  /** `SpeakerTurn`; an empty review segment stands for "no review". */
  datatype Turn = Turn(timestamp: int, speaker: string, dialogue: string, review: string)

  /** Turns in non-decreasing time. */
  predicate Chronological(turns: seq<Turn>) {
    forall i, j :: 0 <= i < j < |turns| ==> turns[i].timestamp <= turns[j].timestamp
  }

  /** The turns after the first of a chronological sequence are chronological and not before it. */
  lemma ChronologicalTail(turns: seq<Turn>)
    requires turns != [] && Chronological(turns)
    ensures Chronological(turns[1..])
    ensures forall k :: 0 <= k < |turns[1..]| ==> turns[0].timestamp <= turns[1..][k].timestamp
  {
    var rest := turns[1..];
    assert forall k :: 0 <= k < |rest| ==> rest[k] == turns[k + 1];
  }

  /** Two turns that the aggregation folds together. */
  predicate SameSlot(a: Turn, b: Turn) {
    a.speaker == b.speaker && a.timestamp == b.timestamp
  }

  /** One step of the aggregation: extend the last turn or start a new one. */
  function Merge(agg: seq<Turn>, t: Turn): (r: seq<Turn>)
    ensures r != []
  {
    if agg != [] && SameSlot(agg[|agg| - 1], t) then
      var last := agg[|agg| - 1];
      agg[..|agg| - 1] + [last.(dialogue := last.dialogue + " " + t.dialogue)]
    else agg + [t]
  }

  /** The aggregation of `turns`, built from the left as the loop builds it. */
  function Aggregate(turns: seq<Turn>): (r: seq<Turn>)
    ensures turns == [] <==> r == []
  {
    if turns == [] then [] else Merge(Aggregate(turns[..|turns| - 1]), turns[|turns| - 1])
  }

  /** The aggregation loop at the end of `parse_gemini_transcript`. */
  method AggregateTurns(turns: seq<Turn>) returns (aggregated: seq<Turn>)
    ensures aggregated == Aggregate(turns)
  {
    aggregated := [];
    for i := 0 to |turns|
      invariant aggregated == Aggregate(turns[..i])
    {
      var turn := turns[i];
      assert turns[..i + 1][..i] == turns[..i];
      if aggregated != [] && aggregated[|aggregated| - 1].speaker == turn.speaker
         && aggregated[|aggregated| - 1].timestamp == turn.timestamp {
        var last := aggregated[|aggregated| - 1];
        aggregated := aggregated[..|aggregated| - 1] + [last.(dialogue := last.dialogue + " " + turn.dialogue)];
      } else {
        aggregated := aggregated + [turn];
      }
    }
    assert turns[..|turns|] == turns;
  }

  // ---------------------------------------------------------------------------
  // what the aggregation computes

  /** No two neighbours share speaker and timestamp. */
  predicate NoAdjacentSameSlot(ts: seq<Turn>) {
    forall i :: 0 <= i < |ts| - 1 ==> !SameSlot(ts[i], ts[i + 1])
  }

  /** After aggregation no two neighbouring turns share speaker and timestamp, and there are no more turns than before. */
  lemma {:induction false} AggregateSeparated(turns: seq<Turn>)
    ensures NoAdjacentSameSlot(Aggregate(turns))
    ensures |Aggregate(turns)| <= |turns|
  {
    if turns != [] {
      var init := turns[..|turns| - 1];
      AggregateSeparated(init);
      var agg := Aggregate(init);
      var r := Aggregate(turns);
      var t := turns[|turns| - 1];
      if agg != [] && SameSlot(agg[|agg| - 1], t) {
        assert forall i :: 0 <= i < |agg| - 1 ==> r[i] == agg[i];
        assert SameSlot(r[|r| - 1], agg[|agg| - 1]);
      } else {
        assert forall i :: 0 <= i < |agg| ==> r[i] == agg[i];
      }
    }
  }

  /** The maximal runs of neighbouring turns that share speaker and timestamp, from the left. */
  function Runs(turns: seq<Turn>): (r: seq<seq<Turn>>)
    ensures turns == [] <==> r == []
    ensures forall i :: 0 <= i < |r| ==> r[i] != []
  {
    if turns == [] then []
    else
      var runs := Runs(turns[..|turns| - 1]);
      var t := turns[|turns| - 1];
      if runs != [] && SameSlot(runs[|runs| - 1][0], t) then runs[..|runs| - 1] + [runs[|runs| - 1] + [t]]
      else runs + [[t]]
  }

  function Concat(runs: seq<seq<Turn>>): seq<Turn> {
    if runs == [] then [] else Concat(runs[..|runs| - 1]) + runs[|runs| - 1]
  }

  function Dialogues(run: seq<Turn>): (r: seq<string>)
    ensures |r| == |run|
  {
    if run == [] then [] else Dialogues(run[..|run| - 1]) + [run[|run| - 1].dialogue]
  }

  /** A run as one turn: the first turn with the run's dialogues joined by spaces. */
  function Combine(run: seq<Turn>): Turn
    requires run != []
  {
    run[0].(dialogue := Join(Dialogues(run), " "))
  }

  function CombineAll(runs: seq<seq<Turn>>): (r: seq<Turn>)
    requires forall i :: 0 <= i < |runs| ==> runs[i] != []
    ensures |r| == |runs|
  {
    if runs == [] then [] else CombineAll(runs[..|runs| - 1]) + [Combine(runs[|runs| - 1])]
  }

  /** A run is a block of turns with one speaker and one timestamp. */
  predicate Uniform(run: seq<Turn>) {
    run != [] && forall i :: 0 <= i < |run| ==> SameSlot(run[0], run[i])
  }

  /** Together the runs are the turns, in order. */
  lemma {:induction false} RunsConcat(turns: seq<Turn>)
    ensures Concat(Runs(turns)) == turns
  {
    if turns != [] {
      var init := turns[..|turns| - 1];
      var t := turns[|turns| - 1];
      RunsConcat(init);
      var runs := Runs(init);
      var r := Runs(turns);
      if runs != [] && SameSlot(runs[|runs| - 1][0], t) {
        var last := runs[|runs| - 1];
        var front := runs[..|runs| - 1];
        assert r[..|r| - 1] == front;
        assert Concat(runs) == Concat(front) + last;
        assert Concat(r) == Concat(front) + (last + [t]);
      } else {
        assert r[..|r| - 1] == runs;
      }
      assert init + [t] == turns;
    }
  }

  /** Every run is uniform, and neighbouring runs differ in speaker or timestamp. */
  predicate Separated(runs: seq<seq<Turn>>) {
    (forall i :: 0 <= i < |runs| ==> Uniform(runs[i]))
    && (forall i :: 0 <= i < |runs| - 1 ==> !SameSlot(runs[i][0], runs[i + 1][0]))
  }

  lemma SeparatedExtend(runs: seq<seq<Turn>>, t: Turn)
    requires Separated(runs) && runs != [] && SameSlot(runs[|runs| - 1][0], t)
    ensures Separated(runs[..|runs| - 1] + [runs[|runs| - 1] + [t]])
  {
    var last := runs[|runs| - 1];
    var r := runs[..|runs| - 1] + [last + [t]];
    assert Uniform(last);
    assert forall i :: 0 <= i < |runs| - 1 ==> r[i] == runs[i];
    assert Uniform(last + [t]) by {
      forall i | 0 <= i < |last + [t]|
        ensures SameSlot((last + [t])[0], (last + [t])[i])
      {
        if i < |last| {
          assert (last + [t])[i] == last[i];
        }
      }
    }
    assert r[|r| - 1][0] == last[0];
  }

  lemma SeparatedAppend(runs: seq<seq<Turn>>, t: Turn)
    requires Separated(runs) && (runs == [] || !SameSlot(runs[|runs| - 1][0], t))
    ensures Separated(runs + [[t]])
  {
    var r := runs + [[t]];
    assert forall i :: 0 <= i < |runs| ==> r[i] == runs[i];
    assert Uniform([t]);
  }

  lemma {:induction false} RunsSeparated(turns: seq<Turn>)
    ensures Separated(Runs(turns))
  {
    if turns != [] {
      var init := turns[..|turns| - 1];
      var t := turns[|turns| - 1];
      RunsSeparated(init);
      var runs := Runs(init);
      if runs != [] && SameSlot(runs[|runs| - 1][0], t) {
        SeparatedExtend(runs, t);
      } else {
        SeparatedAppend(runs, t);
      }
    }
  }

  lemma {:induction false} JoinAppend(parts: seq<string>, x: string, sep: string)
    requires parts != []
    ensures Join(parts + [x], sep) == Join(parts, sep) + sep + x
    decreases |parts|
  {
    var longer := parts + [x];
    assert longer[0] == parts[0] && longer[1..] == parts[1..] + [x];
    if |parts| > 1 {
      JoinAppend(parts[1..], x, sep);
    }
  }

  /** Merging a turn into the combined runs extends the last run when the turn shares its slot. */
  lemma CombineExtend(front: seq<seq<Turn>>, last: seq<Turn>, t: Turn)
    requires forall i :: 0 <= i < |front| ==> front[i] != []
    requires last != [] && SameSlot(last[0], t)
    ensures Merge(CombineAll(front + [last]), t) == CombineAll(front + [last + [t]])
  {
    CombineAllSnoc(front, last);
    CombineAllSnoc(front, last + [t]);
    CombineLonger(last, t);
    var agg := CombineAll(front) + [Combine(last)];
    assert agg[|agg| - 1] == Combine(last) && agg[..|agg| - 1] == CombineAll(front);
  }

  lemma CombineAllSnoc(runs: seq<seq<Turn>>, run: seq<Turn>)
    requires forall i :: 0 <= i < |runs| ==> runs[i] != []
    requires run != []
    ensures CombineAll(runs + [run]) == CombineAll(runs) + [Combine(run)]
  {
    assert (runs + [run])[..|runs|] == runs;
  }

  /** Combining a run one turn longer adds that turn's dialogue after a space. */
  lemma CombineLonger(last: seq<Turn>, t: Turn)
    requires last != []
    ensures Combine(last + [t]) == Combine(last).(dialogue := Combine(last).dialogue + " " + t.dialogue)
  {
    assert Dialogues(last + [t]) == Dialogues(last) + [t.dialogue] by {
      assert (last + [t])[..|last|] == last;
    }
    JoinAppend(Dialogues(last), t.dialogue, " ");
    assert (last + [t])[0] == last[0];
  }

  /** Merging a turn into the combined runs starts a new run when the turn does not share the last run's slot. */
  lemma CombineNew(runs: seq<seq<Turn>>, t: Turn)
    requires forall i :: 0 <= i < |runs| ==> runs[i] != []
    requires runs == [] || !SameSlot(runs[|runs| - 1][0], t)
    ensures Merge(CombineAll(runs), t) == CombineAll(runs + [[t]])
  {
    var agg := CombineAll(runs);
    if agg != [] {
      assert agg[|agg| - 1] == Combine(runs[|runs| - 1]);
    }
    var nr := runs + [[t]];
    assert nr[..|nr| - 1] == runs;
    assert Dialogues([t]) == [t.dialogue] by {
      assert [t][..0] == [];
    }
  }

  /**
   * The aggregation is the runs, each turned into one turn whose dialogue is
   * the run's dialogues joined by single spaces.
   */
  lemma {:induction false} AggregateIsCombinedRuns(turns: seq<Turn>)
    ensures Aggregate(turns) == CombineAll(Runs(turns))
  {
    if turns != [] {
      var init := turns[..|turns| - 1];
      var t := turns[|turns| - 1];
      AggregateIsCombinedRuns(init);
      var runs := Runs(init);
      assert Aggregate(turns) == Merge(CombineAll(runs), t);
      if runs != [] && SameSlot(runs[|runs| - 1][0], t) {
        var front := runs[..|runs| - 1];
        assert runs == front + [runs[|runs| - 1]];
        CombineExtend(front, runs[|runs| - 1], t);
      } else {
        CombineNew(runs, t);
      }
    }
  }
}
