/**
 * A two-school table worked through the whole data pipeline: both schools
 * are in the Big Ten; A's song has "fight" and "victory", B's only "fight".
 */
module Scenario {
  import opened Rows
  import opened Buckets
  import opened Charts

  function SchoolA(): Row
  {
    map["school" := Text("A"), "conference" := Text("Big Ten"),
        "fight" := Text("Yes"), "victory" := Text("Yes"), "win_won" := Text("No"),
        "rah" := Text("No"), "nonsense" := Text("No"), "colors" := Text("No"),
        "men" := Text("No"), "opponents" := Text("No"), "spelling" := Text("No")]
  }

  function SchoolB(): Row
  {
    map["school" := Text("B"), "conference" := Text("Big Ten"),
        "fight" := Text("Yes"), "victory" := Text("No"), "win_won" := Text("No"),
        "rah" := Text("No"), "nonsense" := Text("No"), "colors" := Text("No"),
        "men" := Text("No"), "opponents" := Text("No"), "spelling" := Text("No")]
  }

  /** School A's song has two tropes, "fight" and "victory". */
  lemma TropeCountOfA()
    ensures TropeCount(SchoolA()) == 2
  {
    TropeCountIsCardinality(SchoolA());
    assert YesTropes(SchoolA()) == {"fight", "victory"};
  }

  /** School B's song has one trope, "fight". */
  lemma TropeCountOfB()
    ensures TropeCount(SchoolB()) == 1
  {
    TropeCountIsCardinality(SchoolB());
    assert YesTropes(SchoolB()) == {"fight"};
  }

  /** Both rows have a school and are kept; their counts are [2, 1]. */
  lemma TwoSchoolsKept()
    ensures FilterRows([SchoolA(), SchoolB()]) == [SchoolA(), SchoolB()]
    ensures TropeCounts([SchoolA(), SchoolB()]) == [2, 1]
  {
    var a, b := SchoolA(), SchoolB();
    var rows := [a, b];
    TropeCountOfA();
    TropeCountOfB();
    assert rows[..1] == [a];
  }

  /** Two rows with the same key give a single bucket key. */
  lemma TwoRowsOneKey(a: Row, b: Row, c: Cell)
    requires ConfKey(a) == c && ConfKey(b) == c
    ensures Conferences([a, b]) == [c]
  {
    assert [a, b][..1] == [a];
    assert ConfKeys([a]) == [c];
    assert ConfKeys([a, b]) == [c, c];
    assert Distinct([c]) == [c];
  }

  /** Two rows with the same key both fall into its bucket. */
  lemma TwoRowsOneGroup(a: Row, b: Row, c: Cell)
    requires ConfKey(a) == c && ConfKey(b) == c
    ensures Group([a, b], c) == [a, b]
  {
    assert [a, b][..1] == [a];
    assert Group([a], c) == [a];
  }

  /** Both rows fall into one Big Ten bucket. */
  lemma TwoSchoolsOneBucket()
    ensures Conferences([SchoolA(), SchoolB()]) == [Text("Big Ten")]
    ensures Group([SchoolA(), SchoolB()], Text("Big Ten")) == [SchoolA(), SchoolB()]
  {
    TwoRowsOneKey(SchoolA(), SchoolB(), Text("Big Ten"));
    TwoRowsOneGroup(SchoolA(), SchoolB(), Text("Big Ten"));
  }

  /** The entries of a dictionary holding one bucket: that bucket's key and mean. */
  lemma AveragesOfOne(c: Cell, groups: map<Cell, seq<nat>>)
    requires c in groups
    ensures Averages([c], groups) == [ConfAvg(c, Mean(Sum(groups[c]), |groups[c]|))]
  {
    var avgs := Averages([c], groups);
    assert avgs == [avgs[0]];
  }

  /** When every row shares one conference, the bar chart has one bar: the mean over all rows. */
  lemma SingleBucketAverage(rows: seq<Row>, c: Cell)
    requires Conferences(rows) == [c] && Group(rows, c) == rows
    ensures Averages(Conferences(rows), ConfMapOf(rows)) == [ConfAvg(c, Mean(Sum(TropeCounts(rows)), |rows|))]
  {
    var m := ConfMapOf(rows);
    assert c in m && m[c] == TropeCounts(rows) by {
      assert c in Conferences(rows);
    }
    AveragesOfOne(c, m);
  }

  lemma SumOfTwoAndOne()
    ensures Sum([2, 1]) == 3
  {
    assert [2, 1][..1] == [2] && [2][..0] == [];
  }

  /** The single bucket's mean trope count is 3/2. */
  lemma TwoSchoolsAverage()
    ensures Averages(Conferences([SchoolA(), SchoolB()]), ConfMapOf([SchoolA(), SchoolB()]))
      == [ConfAvg(Text("Big Ten"), Mean(3, 2))]
  {
    TwoSchoolsKept();
    TwoSchoolsOneBucket();
    SumOfTwoAndOne();
    SingleBucketAverage([SchoolA(), SchoolB()], Text("Big Ten"));
  }

  /** Fight and victory co-occur in one song; fight occurs in both. */
  lemma TwoSchoolsChord()
    ensures ChordMatrixOf([SchoolA(), SchoolB()], Tropes)[0][1] == 1
    ensures ChordMatrixOf([SchoolA(), SchoolB()], Tropes)[0][0] == 2
  {
    var a, b := SchoolA(), SchoolB();
    var rows := [a, b];
    assert rows[..1] == [a];
    assert CoOccur(rows, "fight", "victory") == 1;
    assert CoOccur(rows, "fight", "fight") == 2;
  }
}
