/**
 * Giving each speaker turn the review marker that was current at its time:
 * the markers are shifted so that the first one falls on the meeting start,
 * and a cursor walks forward through them as the turns go by.
 */
module ReviewAssign {
  import opened Transcript
  import opened ReviewTimes
  import VttAlign

  /** The markers moved by `offset`. */
  function Shifted(reviews: seq<Review>, offset: int): (r: seq<Review>)
    ensures |r| == |reviews|
    ensures forall i :: 0 <= i < |r| ==> r[i] == Review(reviews[i].time + offset, reviews[i].segment)
  {
    seq(|reviews|, i requires 0 <= i < |reviews| => Review(reviews[i].time + offset, reviews[i].segment))
  }

  /**
   * Where the cursor stops for a turn at time `t`: it moves on while the
   * next marker is not after `t`, so it never moves backwards.
   */
  function Advance(aligned: seq<Review>, idx: nat, t: int): (j: nat)
    requires idx < |aligned|
    ensures idx <= j < |aligned|
    ensures j + 1 == |aligned| || aligned[j + 1].time > t
    decreases |aligned| - idx
  {
    if idx + 1 < |aligned| && aligned[idx + 1].time <= t then Advance(aligned, idx + 1, t) else idx
  }

  /** The turns from here on, with the cursor at `idx`. */
  function AssignFrom(turns: seq<Turn>, aligned: seq<Review>, idx: nat): (r: seq<Turn>)
    requires idx < |aligned|
    ensures |r| == |turns|
    decreases |turns|
  {
    if turns == [] then []
    else
      var j := Advance(aligned, idx, turns[0].timestamp);
      [turns[0].(review := aligned[j].segment)] + AssignFrom(turns[1..], aligned, j)
  }

  /** What `assign_reviews_to_turns` returns. */
  function Assigned(turns: seq<Turn>, reviews: seq<Review>, meetingStart: int): (r: seq<Turn>)
  {
    if reviews == [] then turns
    else AssignFrom(turns, Shifted(reviews, meetingStart - reviews[0].time), 0)
  }

  /** `assign_reviews_to_turns` */
  method AssignReviewsToTurns(turns: seq<Turn>, reviews: seq<Review>, meetingStart: int) returns (updated: seq<Turn>)
    ensures updated == Assigned(turns, reviews, meetingStart)
  {
    if reviews == [] {
      return turns;
    }
    var timeOffset := meetingStart - reviews[0].time;
    var aligned := Shifted(reviews, timeOffset);
    var current := 0;
    updated := [];
    for i := 0 to |turns|
      invariant current < |aligned|
      invariant updated + AssignFrom(turns[i..], aligned, current) == Assigned(turns, reviews, meetingStart)
    {
      var turn := turns[i];
      ghost var start := current;
      current := AdvanceCursor(aligned, current, turn.timestamp);
      var review := aligned[current].segment;
      AssignFromStep(updated, turns, i, aligned, start);
      updated := updated + [turn.(review := review)];
    }
    assert turns[|turns|..] == [];
  }

  /** The inner loop of `assign_reviews_to_turns`: the cursor moves on while the next marker is not after `t`. */
  method AdvanceCursor(aligned: seq<Review>, idx: nat, t: int) returns (current: nat)
    requires idx < |aligned|
    ensures current == Advance(aligned, idx, t)
  {
    current := idx;
    while current + 1 < |aligned| && aligned[current + 1].time <= t
      invariant idx <= current < |aligned|
      invariant Advance(aligned, current, t) == Advance(aligned, idx, t)
      decreases |aligned| - current
    {
      current := current + 1;
    }
  }

  /**
   * After the turns before `i`, the turn at `i` gets the marker the cursor
   * moves to, and the turns after it go on from there.
   */
  lemma AssignFromStep(done: seq<Turn>, turns: seq<Turn>, i: nat, aligned: seq<Review>, idx: nat)
    requires i < |turns| && idx < |aligned|
    ensures var j := Advance(aligned, idx, turns[i].timestamp);
      done + AssignFrom(turns[i..], aligned, idx)
      == (done + [turns[i].(review := aligned[j].segment)]) + AssignFrom(turns[i + 1..], aligned, j)
  {
    var j := Advance(aligned, idx, turns[i].timestamp);
    assert turns[i..][1..] == turns[i + 1..];
    var t, rest := turns[i].(review := aligned[j].segment), AssignFrom(turns[i + 1..], aligned, j);
    assert AssignFrom(turns[i..], aligned, idx) == [t] + rest;
    assert done + ([t] + rest) == (done + [t]) + rest;
  }

  /** Only the review segment of a turn changes; with no markers nothing changes. */
  lemma {:induction false} AssignFromKeepsTurns(turns: seq<Turn>, aligned: seq<Review>, idx: nat)
    requires idx < |aligned|
    ensures forall k :: 0 <= k < |turns| ==>
      AssignFrom(turns, aligned, idx)[k] == turns[k].(review := AssignFrom(turns, aligned, idx)[k].review)
    decreases |turns|
  {
    if turns != [] {
      var j := Advance(aligned, idx, turns[0].timestamp);
      AssignFromKeepsTurns(turns[1..], aligned, j);
      var r := AssignFrom(turns, aligned, idx);
      assert forall k :: 1 <= k < |turns| ==> r[k] == AssignFrom(turns[1..], aligned, j)[k - 1] && turns[k] == turns[1..][k - 1];
    }
  }

  lemma AssignedKeepsTurns(turns: seq<Turn>, reviews: seq<Review>, meetingStart: int)
    ensures |Assigned(turns, reviews, meetingStart)| == |turns|
    ensures reviews == [] ==> Assigned(turns, reviews, meetingStart) == turns
    ensures forall k :: 0 <= k < |turns| ==>
      Assigned(turns, reviews, meetingStart)[k] == turns[k].(review := Assigned(turns, reviews, meetingStart)[k].review)
  {
    if reviews != [] {
      AssignFromKeepsTurns(turns, Shifted(reviews, meetingStart - reviews[0].time), 0);
    }
  }

  // ---------------------------------------------------------------------------
  // the reference: the last marker at or before the turn

  predicate SortedByTime(rs: seq<Review>) {
    forall i, j :: 0 <= i < j < |rs| ==> rs[i].time <= rs[j].time
  }

  /** The index of the last marker at or before `t`, or 0 when every marker is after `t`. */
  function LastAtOrBefore(aligned: seq<Review>, t: int): (j: nat)
    requires aligned != []
    ensures j < |aligned|
    ensures j == 0 || aligned[j].time <= t
    ensures forall k :: j < k < |aligned| ==> aligned[k].time > t
    decreases |aligned|
  {
    if |aligned| == 1 || aligned[|aligned| - 1].time <= t then |aligned| - 1
    else LastAtOrBefore(aligned[..|aligned| - 1], t)
  }

  /** On sorted markers the cursor, started at or before the answer, stops at the last marker at or before `t`. */
  lemma {:induction false} AdvanceFindsLast(aligned: seq<Review>, idx: nat, t: int)
    requires SortedByTime(aligned) && idx < |aligned| && idx <= LastAtOrBefore(aligned, t)
    ensures Advance(aligned, idx, t) == LastAtOrBefore(aligned, t)
    decreases |aligned| - idx
  {
    var last := LastAtOrBefore(aligned, t);
    if idx < last {
      assert aligned[idx + 1].time <= aligned[last].time <= t;
      AdvanceFindsLast(aligned, idx + 1, t);
    }
  }

  lemma LastMonotone(aligned: seq<Review>, t: int, t': int)
    requires SortedByTime(aligned) && aligned != [] && t <= t'
    ensures LastAtOrBefore(aligned, t) <= LastAtOrBefore(aligned, t')
  {
    var j := LastAtOrBefore(aligned, t);
    if j != 0 {
      assert aligned[j].time <= t';
    }
  }

  /**
   * For chronological turns from `i` on, with the cursor at the answer for
   * the turn before (or at 0), each turn gets the last marker at or before
   * its time.
   */
  lemma {:induction false} AssignFromFindsLast(turns: seq<Turn>, aligned: seq<Review>, idx: nat, lower: int)
    requires SortedByTime(aligned) && Chronological(turns) && idx < |aligned|
    requires idx == 0 || idx == LastAtOrBefore(aligned, lower)
    requires forall k :: 0 <= k < |turns| ==> lower <= turns[k].timestamp
    ensures forall k :: 0 <= k < |turns| ==>
      AssignFrom(turns, aligned, idx)[k].review == aligned[LastAtOrBefore(aligned, turns[k].timestamp)].segment
    decreases |turns|
  {
    if turns != [] {
      var t := turns[0].timestamp;
      if idx > 0 {
        LastMonotone(aligned, lower, t);
      }
      AdvanceFindsLast(aligned, idx, t);
      var j := Advance(aligned, idx, t);
      var rest := turns[1..];
      ChronologicalTail(turns);
      AssignFromFindsLast(rest, aligned, j, t);
      var r, rs := AssignFrom(turns, aligned, idx), AssignFrom(rest, aligned, j);
      assert r == [turns[0].(review := aligned[j].segment)] + rs;
      forall k | 0 <= k < |turns|
        ensures r[k].review == aligned[LastAtOrBefore(aligned, turns[k].timestamp)].segment
      {
        if k > 0 {
          assert r[k] == rs[k - 1] && rest[k - 1] == turns[k];
        }
      }
    }
  }

  /**
   * With sorted markers and chronological turns, each turn gets the segment
   * of the last marker whose shifted time is at or before the turn, or the
   * first marker's when all are after it.
   */
  lemma AssignedIsLastAtOrBefore(turns: seq<Turn>, reviews: seq<Review>, meetingStart: int)
    requires reviews != [] && SortedByTime(reviews) && Chronological(turns)
    ensures var aligned := Shifted(reviews, meetingStart - reviews[0].time);
      forall k :: 0 <= k < |turns| ==>
        Assigned(turns, reviews, meetingStart)[k].review
        == reviews[LastAtOrBefore(aligned, turns[k].timestamp)].segment
  {
    var aligned := Shifted(reviews, meetingStart - reviews[0].time);
    assert SortedByTime(aligned);
    if turns != [] {
      AssignFromFindsLast(turns, aligned, 0, turns[0].timestamp);
    }
  }

  /**
   * Without the chronological order the promise fails: after a turn at 10 s
   * the cursor stands on the marker at 5 s, and a following turn at 0 s gets
   * that marker although the one at 0 s is the last at or before it.
   */
  lemma UnorderedTurnsKeepLaterMarker()
    ensures var turns := [Turn(10, "A", "a", ""), Turn(0, "B", "b", "")];
      var reviews := [Review(0, "first"), Review(5, "second")];
      !Chronological(turns)
      && Assigned(turns, reviews, 0)[1].review == "second"
      && reviews[LastAtOrBefore(Shifted(reviews, 0), 0)].segment == "first"
  {
    var turns := [Turn(10, "A", "a", ""), Turn(0, "B", "b", "")];
    var reviews := [Review(0, "first"), Review(5, "second")];
    var aligned := Shifted(reviews, 0);
    assert aligned == reviews;
    assert Advance(aligned, 0, 10) == 1;
    assert Advance(aligned, 1, 0) == 1;
    assert turns[1..] == [Turn(0, "B", "b", "")];
    var rest := AssignFrom(turns[1..], aligned, 1);
    assert rest == [Turn(0, "B", "b", "second")] + AssignFrom([], aligned, 1);
    assert AssignFrom(turns, aligned, 0) == [Turn(10, "A", "a", "second")] + rest;
    assert Assigned(turns, reviews, 0) == AssignFrom(turns, aligned, 0);
    assert LastAtOrBefore(aligned[..1], 0) == 0;
    assert turns[0].timestamp > turns[1].timestamp;
  }

  /**
   * With a subtitle file the turns are re-timed before the markers are
   * assigned; the re-timed turns are in order, so each gets the last marker
   * at or before its new time.
   */
  lemma AlignedThenAssigned(turns: seq<Turn>, segments: seq<VttAlign.VttSegment>, meetingStart: int,
                            similarity: VttAlign.Similarity, threshold: nat, reviews: seq<Review>)
    requires reviews != [] && SortedByTime(reviews)
    ensures var aligned := VttAlign.AlignFrom(turns, segments, meetingStart, VttAlign.State(0, 0), similarity, threshold);
      var shifted := Shifted(reviews, meetingStart - reviews[0].time);
      forall k :: 0 <= k < |aligned| ==>
        Assigned(aligned, reviews, meetingStart)[k].review == reviews[LastAtOrBefore(shifted, aligned[k].timestamp)].segment
  {
    var aligned := VttAlign.AlignFrom(turns, segments, meetingStart, VttAlign.State(0, 0), similarity, threshold);
    VttAlign.AlignedChronological(turns, segments, meetingStart, similarity, threshold);
    AssignedIsLastAtOrBefore(aligned, reviews, meetingStart);
  }
}
