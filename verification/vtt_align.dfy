/**
 * Re-timing transcript turns from the segments of a subtitle (WebVTT) file:
 * each turn takes the start of the best-matching segment among the next
 * twenty, or keeps its own time, and time never runs backwards.
 */
module VttAlign {
  import opened Wrappers
  import opened Strings
  import opened Transcript

  /** `VttSegment`: start and end as offsets from the meeting start, and the text. */
  datatype VttSegment = VttSegment(start: int, end: int, text: string)

  /** How many segments from the cursor on are looked at for each turn. */
  const Window: nat := 20

  /**
   * The text similarity of the lower-cased dialogue and segment text, on a
   * scale of whole numbers (the ratio of matching characters times a fixed
   * factor); the acceptance threshold is on the same scale.
   */
  type Similarity = (string, string) -> nat

  function Score(similarity: Similarity, turn: Turn, segment: VttSegment): nat {
    similarity(Lower(turn.dialogue), Lower(segment.text))
  }

  /** A segment that would not move time backwards. */
  predicate Eligible(segment: VttSegment, last: int) {
    segment.start >= last
  }

  /**
   * The scan of segments `lo` to `hi - 1`: the best score so far (-1 before
   * any) and the index it was found at; a later segment replaces it only
   * with a strictly higher score.
   */
  function Best(segments: seq<VttSegment>, lo: nat, hi: nat, last: int, similarity: Similarity, turn: Turn): (r: (int, Option<nat>))
    requires lo <= hi <= |segments|
    decreases hi - lo
  {
    if hi == lo then (-1, None)
    else
      var (score, index) := Best(segments, lo, hi - 1, last, similarity, turn);
      if !Eligible(segments[hi - 1], last) then (score, index)
      else
        var s := Score(similarity, turn, segments[hi - 1]);
        if s > score then (s, Some(hi - 1)) else (score, index)
  }

  /**
   * The scan finds a segment exactly when one in range is eligible; the one
   * it finds is eligible, in range, scores highest of all eligible ones, and
   * is the first to score that much.
   */
  lemma {:induction false} BestIsFirstMaximum(segments: seq<VttSegment>, lo: nat, hi: nat, last: int, similarity: Similarity, turn: Turn)
    requires lo <= hi <= |segments|
    ensures var (score, index) := Best(segments, lo, hi, last, similarity, turn);
      (index.None? <==> forall j :: lo <= j < hi ==> !Eligible(segments[j], last))
      && (index.None? ==> score == -1)
      && (index.Some? ==>
            lo <= index.value < hi && Eligible(segments[index.value], last)
            && score == Score(similarity, turn, segments[index.value])
            && (forall j :: lo <= j < hi && Eligible(segments[j], last) ==> Score(similarity, turn, segments[j]) <= score)
            && (forall j :: lo <= j < index.value && Eligible(segments[j], last) ==> Score(similarity, turn, segments[j]) < score))
    decreases hi - lo
  {
    if hi > lo {
      BestIsFirstMaximum(segments, lo, hi - 1, last, similarity, turn);
    }
  }

  /** The inner loop of `align_with_vtt`: the scan of the window for the best match. */
  method ScanWindow(segments: seq<VttSegment>, lo: nat, hi: nat, last: int, similarity: Similarity, turn: Turn)
    returns (bestScore: int, best: Option<nat>)
    requires lo <= hi <= |segments|
    ensures (bestScore, best) == Best(segments, lo, hi, last, similarity, turn)
  {
    bestScore := -1;
    best := None;
    for j := lo to hi
      invariant (bestScore, best) == Best(segments, lo, j, last, similarity, turn)
    {
      var segment := segments[j];
      if segment.start < last {
        continue;
      }
      var score := Score(similarity, turn, segment);
      if score > bestScore {
        bestScore := score;
        best := Some(j);
      }
    }
  }

  /** The cursor into the segments and the last time given out, as offsets from the meeting start. */
  datatype State = State(vttIdx: nat, last: int)

  function Min(a: nat, b: nat): nat {
    if a <= b then a else b
  }

  /** One turn: its new time and the state for the next turn. */
  function Step(turn: Turn, segments: seq<VttSegment>, meetingStart: int, st: State,
                similarity: Similarity, threshold: nat): (r: (Turn, State))
    requires st.vttIdx <= |segments|
    ensures r.1.vttIdx <= |segments|
  {
    var (score, index) := Best(segments, st.vttIdx, Min(st.vttIdx + Window, |segments|), st.last, similarity, turn);
    var offset := turn.timestamp - meetingStart;
    if index.Some? && score > threshold then
      BestIsFirstMaximum(segments, st.vttIdx, Min(st.vttIdx + Window, |segments|), st.last, similarity, turn);
      var seg := segments[index.value];
      (turn.(timestamp := meetingStart + seg.start), State(index.value + 1, seg.start))
    else if offset < st.last then
      (turn.(timestamp := meetingStart + st.last), st)
    else
      (turn, State(st.vttIdx, offset))
  }

  /** The turns from here on, aligned from state `st`. */
  function AlignFrom(turns: seq<Turn>, segments: seq<VttSegment>, meetingStart: int, st: State,
                     similarity: Similarity, threshold: nat): (r: seq<Turn>)
    requires st.vttIdx <= |segments|
    ensures |r| == |turns|
    decreases |turns|
  {
    if turns == [] then []
    else
      var (t, next) := Step(turns[0], segments, meetingStart, st, similarity, threshold);
      [t] + AlignFrom(turns[1..], segments, meetingStart, next, similarity, threshold)
  }

  /** `align_with_vtt` */
  method AlignWithVtt(turns: seq<Turn>, segments: seq<VttSegment>, meetingStart: int,
                      similarity: Similarity, threshold: nat) returns (aligned: seq<Turn>)
    ensures aligned == AlignFrom(turns, segments, meetingStart, State(0, 0), similarity, threshold)
  {
    aligned := [];
    var lastAssigned := 0;
    var vttIdx: nat := 0;
    for i := 0 to |turns|
      invariant vttIdx <= |segments|
      invariant aligned + AlignFrom(turns[i..], segments, meetingStart, State(vttIdx, lastAssigned), similarity, threshold)
             == AlignFrom(turns, segments, meetingStart, State(0, 0), similarity, threshold)
    {
      ghost var st := State(vttIdx, lastAssigned);
      var t;
      t, vttIdx, lastAssigned := AlignTurn(turns[i], segments, meetingStart, vttIdx, lastAssigned, similarity, threshold);
      assert turns[i..][1..] == turns[i + 1..];
      ghost var rest := AlignFrom(turns[i + 1..], segments, meetingStart, State(vttIdx, lastAssigned), similarity, threshold);
      assert AlignFrom(turns[i..], segments, meetingStart, st, similarity, threshold) == [t] + rest;
      assert aligned + ([t] + rest) == (aligned + [t]) + rest;
      aligned := aligned + [t];
    }
    assert turns[|turns|..] == [];
  }

  /** The body of the loop over the turns: the turn's new time, the new cursor and the new last time. */
  method AlignTurn(turn: Turn, segments: seq<VttSegment>, meetingStart: int, vttIdx: nat, lastAssigned: int,
                   similarity: Similarity, threshold: nat)
    returns (t: Turn, nextIdx: nat, nextLast: int)
    requires vttIdx <= |segments|
    ensures (t, State(nextIdx, nextLast)) == Step(turn, segments, meetingStart, State(vttIdx, lastAssigned), similarity, threshold)
  {
    var turnOffset := turn.timestamp - meetingStart;
    var hi := Min(vttIdx + Window, |segments|);
    var bestScore, best := ScanWindow(segments, vttIdx, hi, lastAssigned, similarity, turn);
    var newTimestamp;
    nextIdx, nextLast := vttIdx, lastAssigned;
    if best.Some? && bestScore > threshold {
      BestIsFirstMaximum(segments, vttIdx, hi, lastAssigned, similarity, turn);
      newTimestamp := meetingStart + segments[best.value].start;
      nextLast := segments[best.value].start;
      nextIdx := best.value + 1;
    } else if turnOffset < lastAssigned {
      newTimestamp := meetingStart + lastAssigned;
    } else {
      newTimestamp := turn.timestamp;
      nextLast := turnOffset;
    }
    t := turn.(timestamp := newTimestamp);
  }

  // ---------------------------------------------------------------------------
  // what the alignment keeps

  /**
   * A step never moves the cursor or the last time back, looks at most
   * `Window` segments ahead, takes only a segment that does not start before
   * the last time, and gives the turn the new last time.
   */
  lemma StepForward(turn: Turn, segments: seq<VttSegment>, meetingStart: int, st: State,
                    similarity: Similarity, threshold: nat)
    requires st.vttIdx <= |segments|
    ensures var (t, next) := Step(turn, segments, meetingStart, st, similarity, threshold);
      st.vttIdx <= next.vttIdx <= st.vttIdx + Window
      && st.last <= next.last
      && t.timestamp == meetingStart + next.last
      && t == turn.(timestamp := t.timestamp)
      && (next.vttIdx > st.vttIdx ==> segments[next.vttIdx - 1].start == next.last)
  {
    BestIsFirstMaximum(segments, st.vttIdx, Min(st.vttIdx + Window, |segments|), st.last, similarity, turn);
  }

  /**
   * The aligned turns keep speaker, dialogue and review segment, and their
   * times never decrease and never fall before the last time of the state.
   */
  lemma {:induction false} AlignFromKeeps(turns: seq<Turn>, segments: seq<VttSegment>, meetingStart: int, st: State,
                                          similarity: Similarity, threshold: nat)
    requires st.vttIdx <= |segments|
    ensures var r := AlignFrom(turns, segments, meetingStart, st, similarity, threshold);
      (forall k :: 0 <= k < |turns| ==> r[k] == turns[k].(timestamp := r[k].timestamp))
      && (forall k :: 0 <= k < |turns| ==> meetingStart + st.last <= r[k].timestamp)
      && Chronological(r)
    decreases |turns|
  {
    if turns != [] {
      var (t, next) := Step(turns[0], segments, meetingStart, st, similarity, threshold);
      StepForward(turns[0], segments, meetingStart, st, similarity, threshold);
      var rest := AlignFrom(turns[1..], segments, meetingStart, next, similarity, threshold);
      AlignFromKeeps(turns[1..], segments, meetingStart, next, similarity, threshold);
      var r := AlignFrom(turns, segments, meetingStart, st, similarity, threshold);
      assert r == [t] + rest;
      assert forall k :: 1 <= k < |turns| ==> r[k] == rest[k - 1] && turns[k] == turns[1..][k - 1];
    }
  }

  /**
   * `align_with_vtt` returns one turn per turn, each with its speaker,
   * dialogue and review segment, in non-decreasing time and never before
   * the meeting start.
   */
  lemma AlignedChronological(turns: seq<Turn>, segments: seq<VttSegment>, meetingStart: int,
                             similarity: Similarity, threshold: nat)
    ensures var r := AlignFrom(turns, segments, meetingStart, State(0, 0), similarity, threshold);
      |r| == |turns|
      && (forall k :: 0 <= k < |turns| ==> r[k] == turns[k].(timestamp := r[k].timestamp))
      && (forall k :: 0 <= k < |turns| ==> meetingStart <= r[k].timestamp)
      && Chronological(r)
  {
    AlignFromKeeps(turns, segments, meetingStart, State(0, 0), similarity, threshold);
  }
}
