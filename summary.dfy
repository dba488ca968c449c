/** `prepare_weight_info` (main.py:65-73): the weight summary that the
    prompt embeds, first as a structured value, then rendered to text. */
module WeightSummary {
  import opened Options
  import opened Ledger
  import opened Chronology

  /** No history at all, or the current weight with the previous one when
      there is one. */
  datatype Summary = NoData | Latest(previous: Option<Weight>, current: Weight)

  const NO_WEIGHT_DATA := "No weight data available."
  const NO_PREVIOUS_WEIGHT := "No previous weight recorded."
  const PREVIOUS_LABEL := "**Previous Weight:** "
  const CURRENT_LABEL := " kg\n\n**Current Weight:** "
  const UNIT := " kg"

  /** The last two records of the history sorted by timestamp. */
  function Summarize(history: seq<Record>): (r: Summary)
    ensures r.NoData? <==> history == []
    ensures r.Latest? ==> (r.previous.Some? <==> |history| >= 2)
    ensures |history| == 1 ==> r == Latest(None, history[0].weight)
  {
    if history == [] then NoData
    else
      var sorted := SortByDate(history);
      assert |history| == 1 ==> sorted[0] == history[0] by {
        if |history| == 1 {
          assert sorted[0] in multiset(sorted);
          assert multiset(history) == multiset{history[0]};
        }
      }
      Latest(if |sorted| >= 2 then Some(sorted[|sorted| - 2].weight) else None, sorted[|sorted| - 1].weight)
  }

  /** A reference summary that does not sort: the current weight is the
      latest record's, the previous weight the latest one's among the rest. */
  function LatestTwo(history: seq<Record>): Summary
  {
    if history == [] then NoData
    else
      var i := LatestIndex(history);
      var rest := Without(history, i);
      Latest(if rest == [] then None else Some(rest[LatestIndex(rest)].weight), history[i].weight)
  }

  /** The summary taken from the sorted history is the reference summary. */
  lemma {:induction false} SummarizeIsLatestTwo(history: seq<Record>)
    ensures Summarize(history) == LatestTwo(history)
  {
    if history != [] {
      var i := LatestIndex(history);
      var rest := Without(history, i);
      SortPeelLatest(history, i);
      if rest != [] {
        SortPeelLatest(rest, LatestIndex(rest));
      }
    }
  }

  /** With two or more records, current is the weight of the record that is
      latest (the last inserted on a tie) and previous that of the record
      latest among the others, whatever order they were inserted in. */
  lemma {:induction false} LatestTwoRecords(history: seq<Record>, i: nat, j: nat)
    requires IsLatest(history, i)
    requires IsLatest(Without(history, i), j)
    ensures Summarize(history) == Latest(Some(Without(history, i)[j].weight), history[i].weight)
  {
    SortPeelLatest(history, i);
    SortPeelLatest(Without(history, i), j);
  }

  /** Insertion order matters only among records with equal timestamps. */
  lemma {:induction false} SummaryIgnoresInterleaving(s: seq<Record>, t: seq<Record>)
    requires forall d :: WithDate(s, d) == WithDate(t, d)
    ensures Summarize(s) == Summarize(t)
  {
    SortIgnoresInterleaving(s, t);
  }

  /** Two records, inserted in either order, with the earlier one's weight
      reported as previous and the later one's as current. */
  lemma {:induction false} TwoRecords(earlier: Record, later: Record)
    requires NotAfter(earlier.date, later.date) && earlier.date != later.date
    ensures Summarize([earlier, later]) == Latest(Some(earlier.weight), later.weight)
    ensures Summarize([later, earlier]) == Latest(Some(earlier.weight), later.weight)
  {
    NotAfterAntisymmetricStrict(earlier.date, later.date);
    assert [earlier, later][1..] == [later];
    assert [later, earlier][1..] == [earlier];
    assert SortByDate([later]) == [later];
    assert SortByDate([earlier]) == [earlier];
  }

  /** The text of a summary; `show` stands for Python's `str` of a weight. */
  function Render(summary: Summary, show: Weight -> string): (text: string)
    ensures text == NO_WEIGHT_DATA <==> summary.NoData?
    ensures summary.Latest? ==>
      var prev := if summary.previous.Some? then show(summary.previous.value) else NO_PREVIOUS_WEIGHT;
      var tail := CURRENT_LABEL + show(summary.current) + UNIT;
      && |text| == |PREVIOUS_LABEL| + |prev| + |tail|
      && text[..|PREVIOUS_LABEL|] == PREVIOUS_LABEL
      && text[|PREVIOUS_LABEL|..|PREVIOUS_LABEL| + |prev|] == prev
      && text[|PREVIOUS_LABEL| + |prev|..] == tail
  {
    match summary
    case NoData => NO_WEIGHT_DATA
    case Latest(previous, current) =>
      var prev := match previous case None => NO_PREVIOUS_WEIGHT case Some(w) => show(w);
      var text := PREVIOUS_LABEL + prev + CURRENT_LABEL + show(current) + UNIT;
      assert text[0] == '*' != NO_WEIGHT_DATA[0];
      text
  }

  /** `prepare_weight_info` itself. */
  function WeightInfo(history: seq<Record>, show: Weight -> string): (text: string)
    ensures text == NO_WEIGHT_DATA <==> history == []
    ensures |history| == 1 ==>
      text == PREVIOUS_LABEL + NO_PREVIOUS_WEIGHT + CURRENT_LABEL + show(history[0].weight) + UNIT
    ensures |history| >= 2 ==>
      var i := LatestIndex(history);
      var rest := Without(history, i);
      text == PREVIOUS_LABEL + show(rest[LatestIndex(rest)].weight) + CURRENT_LABEL + show(history[i].weight) + UNIT
  {
    SummarizeIsLatestTwo(history);
    Render(Summarize(history), show)
  }
}
