/**
 * The per-review summary of a meeting: the turns grouped by their review
 * segment, each group with the time of its first turn and the lines
 * "initials:dialogue" of all its turns, and the groups as rows in order of
 * that time.
 */
module ReviewDialogues {
  import opened Strings
  import Sorting
  import opened NameFormats
  import opened Transcript
  import opened ReviewTimes

  /** The group a turn belongs to; turns without a review go to "unknown". */
  function GroupKey(t: Turn): string {
    if t.review == "" then "unknown" else t.review
  }

  /** The line a turn contributes to its group. */
  function Line(t: Turn): string {
    GetInitials(t.speaker) + ":" + t.dialogue
  }

  /** The distinct group keys in order of first appearance. */
  function Keys(ts: seq<Turn>): seq<string> {
    if ts == [] then []
    else
      var ks := Keys(ts[..|ts| - 1]);
      var k := GroupKey(ts[|ts| - 1]);
      if k in ks then ks else ks + [k]
  }

  /** No review is listed twice. */
  lemma {:induction false} KeysDistinct(ts: seq<Turn>)
    ensures forall i, j :: 0 <= i < j < |Keys(ts)| ==> Keys(ts)[i] != Keys(ts)[j]
  {
    if ts != [] {
      var init := ts[..|ts| - 1];
      KeysDistinct(init);
      var ks, k := Keys(init), GroupKey(ts[|ts| - 1]);
      if k !in ks {
        var longer := ks + [k];
        assert Keys(ts) == longer;
        forall i, j | 0 <= i < j < |longer|
          ensures longer[i] != longer[j]
        {
          assert longer[i] == ks[i] && ks[i] in ks;
          if j < |ks| {
            assert longer[j] == ks[j];
          }
        }
      }
    }
  }

  /** The lines of the turns in group `k`, in transcript order. */
  function LinesOf(ts: seq<Turn>, k: string): seq<string> {
    if ts == [] then []
    else LinesOf(ts[..|ts| - 1], k) + (if GroupKey(ts[|ts| - 1]) == k then [Line(ts[|ts| - 1])] else [])
  }

  /** The time of the first turn in group `k`. */
  function FirstTime(ts: seq<Turn>, k: string): int
    requires k in Keys(ts)
  {
    var init := ts[..|ts| - 1];
    if k in Keys(init) then FirstTime(init, k) else ts[|ts| - 1].timestamp
  }

  /** What the grouping keeps for one review. */
  datatype Group = Group(timestamp: int, dialogues: seq<string>)

  /** The dictionary after one more turn: its group is opened if new, and gets the turn's line. */
  function AddTurn(g: map<string, Group>, t: Turn): map<string, Group> {
    var k := GroupKey(t);
    var g' := if k in g then g else g[k := Group(t.timestamp, [])];
    g'[k := g'[k].(dialogues := g'[k].dialogues + [Line(t)])]
  }

  /** The dictionary after the turns `ts`, built one turn at a time. */
  function Grouped(ts: seq<Turn>): map<string, Group> {
    if ts == [] then map[] else AddTurn(Grouped(ts[..|ts| - 1]), ts[|ts| - 1])
  }

  /**
   * The dictionary has one entry per review, holding the time of its first
   * turn and the lines of all its turns in transcript order.
   */
  lemma {:induction false} GroupedByReview(ts: seq<Turn>)
    ensures forall k :: k in Grouped(ts) <==> k in Keys(ts)
    ensures forall k :: k in Grouped(ts) ==> Grouped(ts)[k] == Group(FirstTime(ts, k), LinesOf(ts, k))
  {
    if ts != [] {
      var init := ts[..|ts| - 1];
      var t := ts[|ts| - 1];
      assert init + [t] == ts;
      GroupedByReview(init);
      if GroupKey(t) !in Keys(init) {
        LinesOfAbsent(init, GroupKey(t));
      }
      forall k
        ensures k in Grouped(ts) <==> k in Keys(ts)
        ensures k in Grouped(ts) ==> Grouped(ts)[k] == Group(FirstTime(ts, k), LinesOf(ts, k))
      {
        GroupsExtend(init, t, k);
      }
    }
  }

  /**
   * The grouping loop of `write_review_dialogues_csv`. `order` is the
   * insertion order of the dictionary, which is the order its items come out
   * in.
   */
  method GroupByReview(turns: seq<Turn>) returns (order: seq<string>, groups: map<string, Group>)
    ensures order == Keys(turns)
    ensures forall k :: k in groups <==> k in order
    ensures forall k :: k in groups ==> groups[k] == Group(FirstTime(turns, k), LinesOf(turns, k))
  {
    order := [];
    groups := map[];
    for i := 0 to |turns|
      invariant order == Keys(turns[..i])
      invariant groups == Grouped(turns[..i])
      invariant forall k :: k in groups <==> k in order
    {
      ghost var order0, groups0 := order, groups;
      order, groups := AddToGroups(order, groups, turns[i]);
      GroupingStep(turns, i, order0, groups0, order, groups);
    }
    assert turns[..|turns|] == turns;
    GroupedByReview(turns);
  }

  /** The grouping loop keeps its invariant over one more turn. */
  lemma GroupingStep(turns: seq<Turn>, i: nat, order: seq<string>, groups: map<string, Group>,
                     order': seq<string>, groups': map<string, Group>)
    requires i < |turns|
    requires order == Keys(turns[..i]) && groups == Grouped(turns[..i])
    requires forall k :: k in groups <==> k in order
    requires groups' == AddTurn(groups, turns[i])
    requires order' == if GroupKey(turns[i]) in groups then order else order + [GroupKey(turns[i])]
    ensures order' == Keys(turns[..i + 1]) && groups' == Grouped(turns[..i + 1])
    ensures forall k :: k in groups' <==> k in order'
  {
    PrefixStep(turns, i);
  }

  /** The keys and the dictionary after one more turn of a transcript. */
  lemma PrefixStep(ts: seq<Turn>, i: nat)
    requires i < |ts|
    ensures Keys(ts[..i + 1]) == if GroupKey(ts[i]) in Keys(ts[..i]) then Keys(ts[..i]) else Keys(ts[..i]) + [GroupKey(ts[i])]
    ensures Grouped(ts[..i + 1]) == AddTurn(Grouped(ts[..i]), ts[i])
  {
    assert ts[..i + 1][..i] == ts[..i];
  }

  /** The body of the grouping loop: the turn's line goes to its review's group, opened if new. */
  method AddToGroups(order: seq<string>, groups: map<string, Group>, turn: Turn)
    returns (order': seq<string>, groups': map<string, Group>)
    ensures groups' == AddTurn(groups, turn)
    ensures order' == if GroupKey(turn) in groups then order else order + [GroupKey(turn)]
  {
    var review := turn.review;
    if review == "" {
      review := "unknown";
    }
    order', groups' := order, groups;
    if review !in groups' {
      groups' := groups'[review := Group(turn.timestamp, [])];
      order' := order' + [review];
    }
    groups' := groups'[review := groups'[review].(dialogues := groups'[review].dialogues + [Line(turn)])];
  }

  /** What one more turn changes: its group's key, lines and first time. */
  lemma GroupsExtend(before: seq<Turn>, t: Turn, k: string)
    ensures Keys(before + [t]) == if GroupKey(t) in Keys(before) then Keys(before) else Keys(before) + [GroupKey(t)]
    ensures LinesOf(before + [t], k) == LinesOf(before, k) + (if GroupKey(t) == k then [Line(t)] else [])
    ensures k in Keys(before + [t]) ==> FirstTime(before + [t], k) == if k in Keys(before) then FirstTime(before, k) else t.timestamp
  {
    assert (before + [t])[..|before|] == before;
  }

  /** A key that no turn has collects no lines. */
  lemma {:induction false} LinesOfAbsent(ts: seq<Turn>, k: string)
    requires k !in Keys(ts)
    ensures LinesOf(ts, k) == []
  {
    if ts != [] {
      LinesOfAbsent(ts[..|ts| - 1], k);
    }
  }

  // ---------------------------------------------------------------------------
  // the grouping against the turns themselves

  /** The keys are exactly the groups of the turns. */
  lemma {:induction false} KeysAreGroups(ts: seq<Turn>, k: string)
    ensures k in Keys(ts) <==> exists i :: 0 <= i < |ts| && GroupKey(ts[i]) == k
  {
    if ts != [] {
      var init := ts[..|ts| - 1];
      KeysAreGroups(init, k);
      if exists i :: 0 <= i < |init| && GroupKey(init[i]) == k {
        var i :| 0 <= i < |init| && GroupKey(init[i]) == k;
        assert ts[i] == init[i];
      }
      if exists i :: 0 <= i < |ts| && GroupKey(ts[i]) == k {
        var i :| 0 <= i < |ts| && GroupKey(ts[i]) == k;
        if i < |init| {
          assert init[i] == ts[i];
        }
      }
    }
  }

  /** A group's time is that of the first turn in it. */
  lemma {:induction false} FirstTimeIsFirst(ts: seq<Turn>, k: string)
    requires k in Keys(ts)
    ensures exists i :: 0 <= i < |ts| && GroupKey(ts[i]) == k && FirstTime(ts, k) == ts[i].timestamp
                        && forall j :: 0 <= j < i ==> GroupKey(ts[j]) != k
  {
    var init := ts[..|ts| - 1];
    if k in Keys(init) {
      FirstTimeIsFirst(init, k);
      var i :| 0 <= i < |init| && GroupKey(init[i]) == k && FirstTime(init, k) == init[i].timestamp
               && forall j :: 0 <= j < i ==> GroupKey(init[j]) != k;
      assert forall j :: 0 <= j <= i ==> ts[j] == init[j];
    } else {
      KeysAreGroups(init, k);
      assert forall j :: 0 <= j < |init| ==> ts[j] == init[j];
    }
  }

  /** The number of lines in the groups `ks`. */
  function TotalLines(ts: seq<Turn>, ks: seq<string>): nat {
    if ks == [] then 0 else TotalLines(ts, ks[..|ks| - 1]) + |LinesOf(ts, ks[|ks| - 1])|
  }

  lemma {:induction false} TotalLinesStep(init: seq<Turn>, t: Turn, ks: seq<string>)
    requires forall i, j :: 0 <= i < j < |ks| ==> ks[i] != ks[j]
    ensures TotalLines(init + [t], ks) == TotalLines(init, ks) + (if GroupKey(t) in ks then 1 else 0)
  {
    if ks != [] {
      var front := ks[..|ks| - 1];
      TotalLinesStep(init, t, front);
      assert (init + [t])[..|init|] == init;
      assert GroupKey(t) in ks <==> GroupKey(t) in front || GroupKey(t) == ks[|ks| - 1];
    }
  }

  /** Every turn contributes exactly one line to exactly one group. */
  lemma {:induction false} EveryTurnOneLine(ts: seq<Turn>)
    ensures TotalLines(ts, Keys(ts)) == |ts|
  {
    if ts != [] {
      var init := ts[..|ts| - 1];
      var t := ts[|ts| - 1];
      assert init + [t] == ts;
      EveryTurnOneLine(init);
      var ks := Keys(init);
      KeysDistinct(init);
      TotalLinesStep(init, t, ks);
      if GroupKey(t) !in ks {
        LinesOfAbsent(init, GroupKey(t));
        assert (ks + [GroupKey(t)])[..|ks|] == ks;
      }
    }
  }

  // ---------------------------------------------------------------------------
  // the rows

  /** The dictionary's items, in insertion order. */
  function Items(turns: seq<Turn>): (r: seq<(string, Group)>)
    ensures |r| == |Keys(turns)|
  {
    var ks := Keys(turns);
    seq(|ks|, i requires 0 <= i < |ks| => (ks[i], Group(FirstTime(turns, ks[i]), LinesOf(turns, ks[i]))))
  }

  function ItemTime(item: (string, Group)): int {
    item.1.timestamp
  }

  const Header: seq<string> := ["timestamp", "shot/id", "conversation"]

  /** One row: the group's time of day, the shot read from the review path, the lines one per line. */
  function RowOf(item: (string, Group)): seq<string> {
    [Clock(item.1.timestamp), ExtractShotId(item.0), Join(item.1.dialogues, "\n")]
  }

  function RowsOf(items: seq<(string, Group)>): (r: seq<seq<string>>)
    ensures |r| == |items|
  {
    seq(|items|, i requires 0 <= i < |items| => RowOf(items[i]))
  }

  /** The rows after the header: the items sorted by time, ties in insertion order. */
  function Rows(turns: seq<Turn>): (r: seq<seq<string>>)
  {
    RowsOf(Sorting.SortBy(Items(turns), ItemTime))
  }

  /** The dictionary's items as the grouping loop leaves them. */
  lemma ItemsOfGrouping(turns: seq<Turn>, order: seq<string>, groups: map<string, Group>, items: seq<(string, Group)>)
    requires order == Keys(turns)
    requires forall k :: k in groups <==> k in order
    requires forall k :: k in groups ==> groups[k] == Group(FirstTime(turns, k), LinesOf(turns, k))
    requires |items| == |order| && forall i :: 0 <= i < |order| ==> items[i] == (order[i], groups[order[i]])
    ensures items == Items(turns)
  {
  }

  /** The rows `write_review_dialogues_csv` hands to the CSV writer, header first. */
  method ReviewDialogueRows(turns: seq<Turn>) returns (rows: seq<seq<string>>)
    ensures rows == [Header] + Rows(turns)
  {
    var order, groups := GroupByReview(turns);
    var items := seq(|order|, i requires 0 <= i < |order| => (order[i], groups[order[i]]));
    ItemsOfGrouping(turns, order, groups, items);
    var sorted := Sorting.SortBy(items, ItemTime);
    rows := WriteRows(sorted);
  }

  /** The writing loop: the header, then one row per item. */
  method WriteRows(sorted: seq<(string, Group)>) returns (rows: seq<seq<string>>)
    ensures rows == [Header] + RowsOf(sorted)
  {
    rows := [Header];
    for i := 0 to |sorted|
      invariant rows == [Header] + RowsOf(sorted[..i])
    {
      assert RowsOf(sorted[..i + 1]) == RowsOf(sorted[..i]) + [RowOf(sorted[i])];
      rows := rows + [RowOf(sorted[i])];
    }
    assert sorted[..|sorted|] == sorted;
  }

  /**
   * One row per review, in non-decreasing order of first time, each group's
   * items in the same relative order as the reviews first appear.
   */
  lemma RowsOrdered(turns: seq<Turn>, t: int)
    ensures var sorted := Sorting.SortBy(Items(turns), ItemTime);
      |Rows(turns)| == |Keys(turns)|
      && Sorting.SortedBy(sorted, ItemTime)
      && multiset(sorted) == multiset(Items(turns))
      && Sorting.WithKey(sorted, ItemTime, t) == Sorting.WithKey(Items(turns), ItemTime, t)
  {
    Sorting.SortByStable(Items(turns), ItemTime, t);
  }
}
