/**
 * The five chart descriptors built once the rows are loaded, and the pure
 * payload each chart kind derives from its descriptor before handing it to
 * the plotting library: scatter columns, duration series per conference,
 * stacked 0/1 trope indicators, the bar of conference averages and the
 * trope co-occurrence matrix of the chord chart.
 */
module Charts {
  import opened Rows
  import opened Buckets

  datatype Kind = Scatter | DurationByConference | Stacked | Bar | Chord

  /** One entry of the `graphs` list (captions are static text and are not kept). */
  datatype Descriptor =
    | ScatterChart(values: seq<Row>, title: string)
    | DurationChart(values: seq<Row>, title: string)
    | StackedChart(values: seq<Row>, title: string, tropes: seq<string>, schools: seq<Cell>)
    | BarChart(averages: seq<Mean>, labels: seq<Cell>, title: string)
    | ChordChart(values: seq<Row>, tropes: seq<string>, title: string)
  {
    function Kind(): Kind
    {
      match this
      case ScatterChart(_, _) => Scatter
      case DurationChart(_, _) => DurationByConference
      case StackedChart(_, _, _, _) => Stacked
      case BarChart(_, _, _) => Bar
      case ChordChart(_, _, _) => Chord
    }
  }

  /** The navigation order of the charts. */
  const ChartOrder: seq<Kind> := [Scatter, DurationByConference, Stacked, Bar, Chord]

  /** `graphs.push(...)`: the five descriptors, in their fixed order, whatever the rows. */
  function BuildGraphs(data: seq<Row>, tropes: seq<string>, schools: seq<Cell>, confAvg: seq<ConfAvg>): (graphs: seq<Descriptor>)
    ensures |graphs| == |ChartOrder| && forall k :: 0 <= k < |graphs| ==> graphs[k].Kind() == ChartOrder[k]
    ensures graphs[0].ScatterChart? && graphs[0].values == data
    ensures graphs[1].DurationChart? && graphs[1].values == data
    ensures graphs[2].StackedChart? && graphs[2].values == data && graphs[2].schools == schools && graphs[2].tropes == tropes
    ensures graphs[4].ChordChart? && graphs[4].values == data && graphs[4].tropes == tropes
    ensures graphs[3].BarChart? && |graphs[3].labels| == |graphs[3].averages| == |confAvg|
    ensures forall k :: 0 <= k < |confAvg| ==>
      graphs[3].labels[k] == confAvg[k].conference && graphs[3].averages[k] == confAvg[k].avg
  {
    [ ScatterChart(data, "Tempo vs. Duration"),
      DurationChart(data, "Song Duration by Conference"),
      StackedChart(data, "Stacked Tropes by School", tropes, schools),
      BarChart(seq(|confAvg|, k requires 0 <= k < |confAvg| => confAvg[k].avg),
               seq(|confAvg|, k requires 0 <= k < |confAvg| => confAvg[k].conference),
               "Average Trope Count by Conference"),
      ChordChart(data, tropes, "Trope Relationships Chord Chart") ]
  }

  /** Everything the completion callback derives from the parsed rows. */
  function Graphs(raw: seq<Row>): (graphs: seq<Descriptor>)
    ensures |graphs| == |ChartOrder| && forall k :: 0 <= k < |graphs| ==> graphs[k].Kind() == ChartOrder[k]
    ensures graphs[0].ScatterChart? && graphs[1].DurationChart? && graphs[2].StackedChart? && graphs[3].BarChart? && graphs[4].ChordChart?
    ensures graphs[0].values == graphs[1].values == graphs[2].values == graphs[4].values
    ensures |graphs[0].values| <= |raw|
    ensures forall i :: 0 <= i < |graphs[0].values| ==> HasSchool(graphs[0].values[i])
    ensures graphs[2].tropes == graphs[4].tropes == Tropes
    ensures NoDup(graphs[3].labels)
    ensures forall i :: 0 <= i < |graphs[0].values| ==> ConfKey(graphs[0].values[i]) in graphs[3].labels
  {
    var data := FilterRows(raw);
    BarLabelsAreConferences(data);
    BuildGraphs(data, Tropes, Schools(data), Averages(Conferences(data), ConfMapOf(data)))
  }

  /** The bar chart's labels are the conference keys in first-seen order. */
  lemma BarLabelsAreConferences(data: seq<Row>)
    ensures BuildGraphs(data, Tropes, Schools(data), Averages(Conferences(data), ConfMapOf(data)))[3].labels == Conferences(data)
  {
    var ks := Conferences(data);
    var avgs := Averages(ks, ConfMapOf(data));
    var g := BuildGraphs(data, Tropes, Schools(data), avgs);
    var labels := g[3].labels;
    assert |labels| == |ks|;
    forall k | 0 <= k < |ks|
      ensures labels[k] == ks[k]
    {
      assert labels[k] == avgs[k].conference;
    }
    assert labels == ks;
  }

  /** The values of one field over the rows, in row order (`values.map(d => d.field)`). */
  function Column(rows: seq<Row>, field: string): (col: seq<Cell>)
    ensures |col| == |rows|
    ensures forall i :: 0 <= i < |rows| ==> col[i] == Get(rows[i], field)
  {
    if rows == [] then [] else Column(rows[..|rows| - 1], field) + [Get(rows[|rows| - 1], field)]
  }

  lemma {:induction false} ColumnAppend(a: seq<Row>, b: seq<Row>, field: string)
    ensures Column(a + b, field) == Column(a, field) + Column(b, field)
  {
    if b == [] {
      assert a + b == a;
    } else {
      assert (a + b)[..|a + b| - 1] == a + b[..|b| - 1];
      ColumnAppend(a, b[..|b| - 1], field);
    }
  }

  /** How often a value occurs in a column is the sum over the rows of its indicator. */
  lemma {:induction false} ColumnMultiplicity(s: seq<Row>, field: string, v: Cell, f: Row -> int)
    requires forall r :: f(r) == (if Get(r, field) == v then 1 else 0)
    ensures multiset(Column(s, field))[v] == SumOf(s, f)
  {
    if s != [] {
      var p := s[..|s| - 1];
      ColumnMultiplicity(p, field, v, f);
      assert Column(s, field) == Column(p, field) + [Get(s[|s| - 1], field)];
    }
  }

  /** One box of the duration chart: a conference and the durations of its rows. */
  datatype BoxTrace = BoxTrace(name: Cell, y: seq<Cell>)

  /** One layer of the stacked chart: the schools and a 0/1 indicator per school. */
  datatype BarTrace = BarTrace(x: seq<Cell>, y: seq<nat>, name: string)

  /** What each chart kind hands to the plotting library. */
  datatype Payload =
    | ScatterPlot(x: seq<Cell>, y: seq<Cell>, hover: seq<Cell>)
    | BoxPlot(boxes: seq<BoxTrace>)
    | StackedBars(bars: seq<BarTrace>)
    | BarPlot(labels: seq<Cell>, heights: seq<Mean>)
    | ChordLayout(matrix: seq<seq<nat>>, names: seq<string>)
  {
    function Kind(): Kind
    {
      match this
      case ScatterPlot(_, _, _) => Scatter
      case BoxPlot(_) => DurationByConference
      case StackedBars(_) => Stacked
      case BarPlot(_, _) => Bar
      case ChordLayout(_, _) => Chord
    }
  }

  /** One box per key of `ks`: the durations of that bucket's rows, in row order. */
  function DurationSeries(values: seq<Row>, ks: seq<Cell>): (boxes: seq<BoxTrace>)
    ensures |boxes| == |ks|
    ensures forall k :: 0 <= k < |ks| ==> boxes[k].name == ks[k] && |boxes[k].y| == |Group(values, ks[k])|
  {
    seq(|ks|, k requires 0 <= k < |ks| => BoxTrace(ks[k], Column(Group(values, ks[k]), "sec_duration")))
  }

  /** All durations of all boxes, box after box. */
  function AllDurations(boxes: seq<BoxTrace>): seq<Cell>
  {
    if boxes == [] then [] else AllDurations(boxes[..|boxes| - 1]) + boxes[|boxes| - 1].y
  }

  lemma {:induction false} AllDurationsOfBuckets(values: seq<Row>, ks: seq<Cell>)
    ensures AllDurations(DurationSeries(values, ks)) == Column(Flatten(ks, values), "sec_duration")
  {
    if ks != [] {
      var p, c := ks[..|ks| - 1], ks[|ks| - 1];
      var boxes := DurationSeries(values, ks);
      assert boxes[..|ks| - 1] == DurationSeries(values, p);
      AllDurationsOfBuckets(values, p);
      ColumnAppend(Flatten(p, values), Group(values, c), "sec_duration");
    }
  }

  /** The stacked layer of one trope: 1 where the school's field is "Yes", else 0. */
  function Indicators(values: seq<Row>, t: string): (ys: seq<nat>)
    ensures |ys| == |values|
    ensures forall j :: 0 <= j < |values| ==> ys[j] <= 1
  {
    seq(|values|, j requires 0 <= j < |values| => if IsYes(values[j], t) then 1 else 0)
  }

  function StackedTraces(values: seq<Row>, tropes: seq<string>, schools: seq<Cell>): (bars: seq<BarTrace>)
    ensures |bars| == |tropes|
  {
    seq(|tropes|, t requires 0 <= t < |tropes| => BarTrace(schools, Indicators(values, tropes[t]), tropes[t]))
  }

  /** The height of school j's stacked column: the sum of its indicator over all layers. */
  function ColumnTotal(bars: seq<BarTrace>, j: nat): nat
  {
    if bars == [] then 0
    else ColumnTotal(bars[..|bars| - 1], j) + (var y := bars[|bars| - 1].y; if j < |y| then y[j] else 0)
  }

  /** School j's stacked column is as high as the number of the given tropes its row marks "Yes". */
  lemma {:induction false} StackedColumnTotal(values: seq<Row>, tropes: seq<string>, schools: seq<Cell>, j: nat)
    requires j < |values|
    ensures ColumnTotal(StackedTraces(values, tropes, schools), j) == CountYes(values[j], tropes)
  {
    if tropes != [] {
      var p := tropes[..|tropes| - 1];
      var bars := StackedTraces(values, tropes, schools);
      assert bars[..|bars| - 1] == StackedTraces(values, p, schools);
      StackedColumnTotal(values, p, schools, j);
    }
  }

  /** The number of rows in which both `a` and `b` are "Yes". */
  function CoOccur(rows: seq<Row>, a: string, b: string): (n: nat)
    ensures n <= |rows|
  {
    if rows == [] then 0
    else CoOccur(rows[..|rows| - 1], a, b) + (if IsYes(rows[|rows| - 1], a) && IsYes(rows[|rows| - 1], b) then 1 else 0)
  }

  /** The number of rows in which `t` is "Yes". */
  function RowsWith(rows: seq<Row>, t: string): (n: nat)
    ensures n <= |rows|
  {
    if rows == [] then 0 else RowsWith(rows[..|rows| - 1], t) + (if IsYes(rows[|rows| - 1], t) then 1 else 0)
  }

  /** The chord matrix: cell (i, j) counts the rows with both tropes i and j. */
  function ChordMatrixOf(rows: seq<Row>, tropes: seq<string>): (m: seq<seq<nat>>)
    ensures |m| == |tropes|
    ensures forall i :: 0 <= i < |tropes| ==> |m[i]| == |tropes|
  {
    seq(|tropes|, i requires 0 <= i < |tropes| =>
      seq(|tropes|, j requires 0 <= j < |tropes| => CoOccur(rows, tropes[i], tropes[j])))
  }

  lemma {:induction false} CoOccurSymmetric(rows: seq<Row>, a: string, b: string)
    ensures CoOccur(rows, a, b) == CoOccur(rows, b, a)
  {
    if rows != [] {
      CoOccurSymmetric(rows[..|rows| - 1], a, b);
    }
  }

  lemma {:induction false} CoOccurWithItself(rows: seq<Row>, a: string)
    ensures CoOccur(rows, a, a) == RowsWith(rows, a)
  {
    if rows != [] {
      CoOccurWithItself(rows[..|rows| - 1], a);
    }
  }

  lemma {:induction false} CoOccurBounded(rows: seq<Row>, a: string, b: string)
    ensures CoOccur(rows, a, b) <= RowsWith(rows, a)
    ensures CoOccur(rows, a, b) <= RowsWith(rows, b)
  {
    if rows != [] {
      CoOccurBounded(rows[..|rows| - 1], a, b);
    }
  }

  /**
   * The chord matrix is square and symmetric, its diagonal counts the rows
   * with each trope, and no cell exceeds either of its diagonal entries,
   * which in turn do not exceed the number of rows.
   */
  lemma ChordMatrixProperties(rows: seq<Row>, tropes: seq<string>)
    ensures |ChordMatrixOf(rows, tropes)| == |tropes|
    ensures forall i, j :: 0 <= i < |tropes| && 0 <= j < |tropes| ==>
      var m := ChordMatrixOf(rows, tropes);
      && |m[i]| == |tropes|
      && m[i][j] == m[j][i]
      && m[i][i] == RowsWith(rows, tropes[i])
      && m[i][j] <= m[i][i] && m[i][j] <= m[j][j]
      && m[i][i] <= |rows|
  {
    var m := ChordMatrixOf(rows, tropes);
    forall i, j | 0 <= i < |tropes| && 0 <= j < |tropes|
      ensures m[i][j] == m[j][i] && m[i][i] == RowsWith(rows, tropes[i])
      ensures m[i][j] <= m[i][i] && m[i][j] <= m[j][j]
    {
      CoOccurSymmetric(rows, tropes[i], tropes[j]);
      CoOccurWithItself(rows, tropes[i]);
      CoOccurWithItself(rows, tropes[j]);
      CoOccurBounded(rows, tropes[i], tropes[j]);
    }
  }

  /** Adding one row adds its own co-occurrence to every count. */
  lemma CoOccurSnoc(rows: seq<Row>, d: Row, a: string, b: string)
    ensures CoOccur(rows + [d], a, b) == CoOccur(rows, a, b) + (if IsYes(d, a) && IsYes(d, b) then 1 else 0)
  {
    assert (rows + [d])[..|rows|] == rows;
  }

  /**
   * Fills the chord matrix the way the source does: a zero n x n matrix,
   * then for every row and every ordered pair (i, j) of tropes an increment
   * of cell (i, j) when both tropes are "Yes" in that row.
   */
  method ChordMatrix(values: seq<Row>, tropes: seq<string>) returns (matrix: array2<nat>)
    ensures fresh(matrix)
    ensures matrix.Length0 == |tropes| && matrix.Length1 == |tropes|
    ensures forall i, j :: 0 <= i < |tropes| && 0 <= j < |tropes| ==>
      matrix[i, j] == ChordMatrixOf(values, tropes)[i][j]
  {
    var n := |tropes|;
    matrix := new nat[n, n]((i, j) => 0);
    var r := 0;
    ghost var before: seq<Row> := [];
    while r < |values|
      invariant 0 <= r <= |values| && before == values[..r]
      invariant forall i, j :: 0 <= i < n && 0 <= j < n ==> matrix[i, j] == CoOccur(before, tropes[i], tropes[j])
    {
      var d := values[r];
      ghost var after := before + [d];
      var i := 0;
      while i < n
        invariant 0 <= i <= n
        invariant forall i', j :: 0 <= i' < n && 0 <= j < n ==>
          matrix[i', j] == CoOccur(if i' < i then after else before, tropes[i'], tropes[j])
      {
        var j := 0;
        while j < n
          invariant 0 <= j <= n
          invariant forall i', j' :: 0 <= i' < n && 0 <= j' < n ==>
            matrix[i', j'] == CoOccur(if i' < i || (i' == i && j' < j) then after else before, tropes[i'], tropes[j'])
        {
          CoOccurSnoc(before, d, tropes[i], tropes[j]);
          if IsYes(d, tropes[i]) && IsYes(d, tropes[j]) {
            matrix[i, j] := matrix[i, j] + 1;
          }
          j := j + 1;
        }
        i := i + 1;
      }
      assert values[..r + 1] == after;
      before := after;
      r := r + 1;
    }
    assert values[..r] == values;
  }

  /** `showGraph`'s dispatch: the payload a descriptor's kind derives, which is always of that same kind. */
  function Render(g: Descriptor): (p: Payload)
    ensures p.Kind() == g.Kind()
  {
    match g
    case ScatterChart(values, _) =>
      ScatterPlot(Column(values, "bpm"), Column(values, "sec_duration"), Column(values, "school"))
    case DurationChart(values, _) =>
      BoxPlot(DurationSeries(values, Conferences(values)))
    case StackedChart(values, _, tropes, schools) =>
      StackedBars(StackedTraces(values, tropes, schools))
    case BarChart(averages, labels, _) =>
      BarPlot(labels, averages)
    case ChordChart(values, tropes, _) =>
      ChordLayout(ChordMatrixOf(values, tropes), tropes)
  }

  /** The scatter plot has one point per retained row: bpm against duration, labelled by school. */
  lemma ScatterOnePointPerRow(raw: seq<Row>)
    ensures var p := Render(Graphs(raw)[0]); var data := FilterRows(raw);
      p.ScatterPlot? && |p.x| == |p.y| == |p.hover| == |data| &&
      forall i :: 0 <= i < |data| ==>
        p.x[i] == Get(data[i], "bpm") && p.y[i] == Get(data[i], "sec_duration") && Truthy(p.hover[i])
  {
    var data := FilterRows(raw);
    assert Graphs(raw)[0] == ScatterChart(data, "Tempo vs. Duration");
  }

  /** The duration chart has one box per conference bucket, without duplicates and in first-seen order. */
  lemma DurationSeriesNames(values: seq<Row>)
    ensures var p := Render(DurationChart(values, "")); var ks := ConfKeys(values);
      && p.BoxPlot? && |p.boxes| == |Conferences(values)|
      && (forall k :: 0 <= k < |p.boxes| ==> p.boxes[k].name == Conferences(values)[k] && p.boxes[k].name in ks)
      && (forall i, j :: 0 <= i < j < |p.boxes| ==>
            p.boxes[i].name != p.boxes[j].name && IndexOf(ks, p.boxes[i].name) < IndexOf(ks, p.boxes[j].name))
  {
    var ks, cs := ConfKeys(values), Conferences(values);
    var boxes := DurationSeries(values, cs);
    assert Render(DurationChart(values, "")) == BoxPlot(boxes);
    DistinctInFirstSeenOrder(ks);
    forall k | 0 <= k < |boxes|
      ensures boxes[k].name == cs[k] && boxes[k].name in ks
    {
    }
    forall i, j | 0 <= i < j < |boxes|
      ensures boxes[i].name != boxes[j].name && IndexOf(ks, boxes[i].name) < IndexOf(ks, boxes[j].name)
    {
      assert boxes[i].name == cs[i] && boxes[j].name == cs[j];
    }
  }

  /**
   * Concatenated, the duration series hold every row's duration exactly as
   * often as the rows do, so the series lengths sum to the row count.
   */
  lemma DurationSeriesPartition(values: seq<Row>)
    ensures var boxes := Render(DurationChart(values, "")).boxes;
      && multiset(AllDurations(boxes)) == multiset(Column(values, "sec_duration"))
      && |AllDurations(boxes)| == |values|
  {
    var ks := Conferences(values);
    var boxes := DurationSeries(values, ks);
    assert Render(DurationChart(values, "")).boxes == boxes;
    AllDurationsOfBuckets(values, ks);
    BucketOrderKeepsDurations(values);
    assert |multiset(AllDurations(boxes))| == |AllDurations(boxes)|;
  }

  /** Reordering the rows bucket by bucket keeps the multiset of their durations. */
  lemma BucketOrderKeepsDurations(values: seq<Row>)
    ensures multiset(Column(Flatten(Conferences(values), values), "sec_duration")) == multiset(Column(values, "sec_duration"))
  {
    var all := Flatten(Conferences(values), values);
    forall v
      ensures multiset(Column(all, "sec_duration"))[v] == multiset(Column(values, "sec_duration"))[v]
    {
      BucketOrderKeepsDuration(values, v);
    }
  }

  /** Each duration value occurs as often in the bucket-ordered rows as in the rows. */
  lemma BucketOrderKeepsDuration(values: seq<Row>, v: Cell)
    ensures multiset(Column(Flatten(Conferences(values), values), "sec_duration"))[v] == multiset(Column(values, "sec_duration"))[v]
  {
    var ks := Conferences(values);
    var all := Flatten(ks, values);
    var f: Row -> int := r => if Get(r, "sec_duration") == v then 1 else 0;
    ColumnMultiplicity(all, "sec_duration", v, f);
    ColumnMultiplicity(values, "sec_duration", v, f);
    FlattenPreservesSums(ks, values, f);
  }

  /** Row i's duration sits in the box of its own conference, after the durations of the earlier rows of that conference. */
  lemma DurationOfRowInItsBox(values: seq<Row>, i: nat)
    requires i < |values|
    ensures var ks := Conferences(values); var c := ConfKey(values[i]);
      c in ks &&
      var box := Render(DurationChart(values, "")).boxes[IndexOf(ks, c)];
      box.name == c &&
      |Group(values[..i], c)| < |box.y| &&
      box.y[|Group(values[..i], c)|] == Get(values[i], "sec_duration")
  {
    RowPositionInBucket(values, i);
  }

  /** The stacked payload of the descriptors: one layer per trope over the schools. */
  lemma RenderStacked(data: seq<Row>, tropes: seq<string>, schools: seq<Cell>, confAvg: seq<ConfAvg>)
    ensures Render(BuildGraphs(data, tropes, schools, confAvg)[2]) == StackedBars(StackedTraces(data, tropes, schools))
  {
    var g := BuildGraphs(data, tropes, schools, confAvg);
    assert g[2] == StackedChart(data, g[2].title, tropes, schools);
  }

  /** For every school, the stacked indicators summed over the nine tropes equal that row's trope count. */
  lemma StackedTotalsAreTropeCounts(raw: seq<Row>)
    ensures var p := Render(Graphs(raw)[2]); var data := FilterRows(raw);
      p.StackedBars? && |p.bars| == |Tropes| &&
      (forall t :: 0 <= t < |Tropes| ==> p.bars[t].name == Tropes[t] && p.bars[t].x == Schools(data) && |p.bars[t].y| == |data|) &&
      forall j :: 0 <= j < |data| ==> ColumnTotal(p.bars, j) == TropeCount(data[j])
  {
    var data := FilterRows(raw);
    var avgs := Averages(Conferences(data), ConfMapOf(data));
    assert Graphs(raw) == BuildGraphs(data, Tropes, Schools(data), avgs);
    RenderStacked(data, Tropes, Schools(data), avgs);
    var bars := StackedTraces(data, Tropes, Schools(data));
    forall j | 0 <= j < |data|
      ensures ColumnTotal(bars, j) == TropeCount(data[j])
    {
      StackedColumnTotal(data, Tropes, Schools(data), j);
    }
  }

  /** The bar payload lists the averages' conferences and means, index for index. */
  lemma RenderBar(data: seq<Row>, tropes: seq<string>, schools: seq<Cell>, confAvg: seq<ConfAvg>)
    ensures var p := Render(BuildGraphs(data, tropes, schools, confAvg)[3]);
      p.BarPlot? && |p.labels| == |p.heights| == |confAvg| &&
      forall k :: 0 <= k < |confAvg| ==> p.labels[k] == confAvg[k].conference && p.heights[k] == confAvg[k].avg
  {
    var g := BuildGraphs(data, tropes, schools, confAvg);
    assert Render(g[3]) == BarPlot(g[3].labels, g[3].averages);
  }

  /** The bar chart has one bar per conference bucket, in bucket order, whose height is that bucket's mean trope count. */
  lemma BarMatchesBuckets(raw: seq<Row>)
    ensures var p := Render(Graphs(raw)[3]); var data := FilterRows(raw); var ks := Conferences(data);
      p.BarPlot? && |p.labels| == |p.heights| == |ks| &&
      forall k :: 0 <= k < |ks| ==>
        p.labels[k] == ks[k] &&
        p.heights[k].count == |Group(data, ks[k])| > 0 &&
        p.heights[k].sum == SumOf(Group(data, ks[k]), TropeWeight)
  {
    var data := FilterRows(raw);
    var avgs := Averages(Conferences(data), ConfMapOf(data));
    assert Graphs(raw) == BuildGraphs(data, Tropes, Schools(data), avgs);
    RenderBar(data, Tropes, Schools(data), avgs);
    AveragesAreBucketMeans(data);
  }

  /** The box payload of the descriptors: one duration series per conference bucket. */
  lemma RenderBoxes(data: seq<Row>, tropes: seq<string>, schools: seq<Cell>, confAvg: seq<ConfAvg>)
    ensures Render(BuildGraphs(data, tropes, schools, confAvg)[1]) == BoxPlot(DurationSeries(data, Conferences(data)))
  {
    var g := BuildGraphs(data, tropes, schools, confAvg);
    assert g[1] == DurationChart(data, g[1].title);
  }

  /** The bar chart and the duration chart list the same conferences in the same order. */
  lemma BarAndBoxesAgree(raw: seq<Row>)
    ensures var bars := Render(Graphs(raw)[3]); var box := Render(Graphs(raw)[1]);
      bars.BarPlot? && box.BoxPlot? &&
      |bars.labels| == |box.boxes| && forall k :: 0 <= k < |box.boxes| ==> bars.labels[k] == box.boxes[k].name
  {
    var data := FilterRows(raw);
    var avgs := Averages(Conferences(data), ConfMapOf(data));
    assert Graphs(raw) == BuildGraphs(data, Tropes, Schools(data), avgs);
    RenderBar(data, Tropes, Schools(data), avgs);
    RenderBoxes(data, Tropes, Schools(data), avgs);
  }

  /** The chord payload of the descriptors: the co-occurrence matrix over the trope names. */
  lemma RenderChord(data: seq<Row>, tropes: seq<string>, schools: seq<Cell>, confAvg: seq<ConfAvg>)
    ensures Render(BuildGraphs(data, tropes, schools, confAvg)[4]) == ChordLayout(ChordMatrixOf(data, tropes), tropes)
  {
    var g := BuildGraphs(data, tropes, schools, confAvg);
    assert g[4] == ChordChart(data, tropes, g[4].title);
  }

  /** The chord chart of the loaded rows is a 9 x 9 matrix over the trope names with the matrix properties above. */
  lemma ChordOfLoadedRows(raw: seq<Row>)
    ensures var p := Render(Graphs(raw)[4]);
      p.ChordLayout? && p.names == Tropes && p.matrix == ChordMatrixOf(FilterRows(raw), Tropes) && |p.matrix| == 9
  {
    var data := FilterRows(raw);
    var avgs := Averages(Conferences(data), ConfMapOf(data));
    assert Graphs(raw) == BuildGraphs(data, Tropes, Schools(data), avgs);
    RenderChord(data, Tropes, Schools(data), avgs);
  }
}
