/**
 * The page-level state of the chart viewer: the list of chart descriptors
 * the completion callback fills and the index of the chart on show, moved
 * by the next/previous buttons.
 */
module Page {
  import opened Rows
  import opened Buckets
  import opened Charts
  import opened Navigation

  datatype Option<T> = None | Some(value: T)

  class Viewer {
    /** The chart descriptors, in navigation order. */
    var graphs: seq<Descriptor>
    /** The position of the chart on show. */
    var currentIndex: nat

    /** The index names a chart, or is 0 while no chart has been loaded. */
    ghost predicate Valid()
      reads this
    {
      if graphs == [] then currentIndex == 0 else currentIndex < |graphs|
    }

    /** The page starts with no charts and index 0. */
    constructor ()
      ensures graphs == [] && currentIndex == 0
      ensures Valid()
    {
      graphs := [];
      currentIndex := 0;
    }

    /** What `showGraph(currentIndex)` draws; `None` when there is no chart at that index, where the source fails. */
    function Shown(): (p: Option<Payload>)
      reads this
      ensures p.Some? <==> currentIndex < |graphs|
      ensures p.Some? ==> p.value.Kind() == graphs[currentIndex].Kind()
    {
      if currentIndex < |graphs| then Some(Render(graphs[currentIndex])) else None
    }

    /**
     * The completion callback: keeps the rows with a school, buckets them by
     * conference, averages each bucket, appends the five descriptors and
     * shows the chart at the current index.
     */
    method Complete(raw: seq<Row>) returns (shown: Option<Payload>)
      requires Valid()
      modifies this
      ensures graphs == old(graphs) + Graphs(raw)
      ensures currentIndex == old(currentIndex)
      ensures Valid()
      ensures shown == Shown() && shown.Some?
    {
      var data := FilterRows(raw);
      var schools := Schools(data);
      var tropes := Tropes;
      var order, groups := GroupByConference(data);
      AveragesOfSameBuckets(data, groups);
      var confAvg := Averages(order, groups);
      graphs := graphs + BuildGraphs(data, tropes, schools, confAvg);
      shown := Shown();
    }

    /** The "next" button: one chart further, wrapping round; nothing moves before the charts are loaded. */
    method Next() returns (shown: Option<Payload>)
      requires Valid()
      modifies this
      ensures graphs == old(graphs)
      ensures currentIndex == NextIndex(old(currentIndex), |graphs|)
      ensures Valid()
      ensures shown == Shown() && (shown.Some? <==> graphs != [])
    {
      currentIndex := NextIndex(currentIndex, |graphs|);
      shown := Shown();
    }

    /** The "previous" button: one chart back, wrapping round; nothing moves before the charts are loaded. */
    method Prev() returns (shown: Option<Payload>)
      requires Valid()
      modifies this
      ensures graphs == old(graphs)
      ensures currentIndex == PrevIndex(old(currentIndex), |graphs|)
      ensures Valid()
      ensures shown == Shown() && (shown.Some? <==> graphs != [])
    {
      currentIndex := PrevIndex(currentIndex, |graphs|);
      shown := Shown();
    }
  }

  /** Once loaded, the viewer cycles through exactly the five charts in their fixed order. */
  lemma LoadedViewerCycle(raw: seq<Row>, k: nat)
    ensures |Graphs(raw)| == 5
    ensures Advance(0, |Graphs(raw)|, k) < 5
    ensures Advance(0, |Graphs(raw)|, 5) == 0 && PrevIndex(0, |Graphs(raw)|) == 4
    ensures k < 5 ==> Graphs(raw)[Advance(0, |Graphs(raw)|, k)].Kind() == ChartOrder[k]
  {
    if k < 5 {
      AdvanceWithinRange(0, 5, k);
    }
    FullCycleReturns(0, 5);
  }
}
