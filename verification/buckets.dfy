/**
 * Conference bucketing: each retained row falls into the bucket of its
 * conference (or "Unknown"), buckets are created in first-seen order, and
 * each bucket's average trope count is kept as an exact (sum, count) pair.
 */
module Buckets {
  import opened Rows

  /** `d.conference || 'Unknown'`: the bucket a row belongs to. */
  function ConfKey(d: Row): (k: Cell)
    ensures Truthy(k)
    ensures k == Text("Unknown") <==> !Truthy(Get(d, "conference")) || Get(d, "conference") == Text("Unknown")
    ensures k != Text("Unknown") ==> k == Get(d, "conference")
  {
    if Truthy(Get(d, "conference")) then Get(d, "conference") else Text("Unknown")
  }

  /** The bucket key of every row, in row order. */
  function ConfKeys(data: seq<Row>): (ks: seq<Cell>)
    ensures |ks| == |data|
    ensures forall i :: 0 <= i < |data| ==> ks[i] == ConfKey(data[i])
  {
    if data == [] then [] else ConfKeys(data[..|data| - 1]) + [ConfKey(data[|data| - 1])]
  }

  /** The distinct elements of `ks`, each kept where it first occurs. */
  function Distinct(ks: seq<Cell>): (r: seq<Cell>)
    ensures NoDup(r)
    ensures forall x :: x in r <==> x in ks
    ensures |r| <= |ks|
  {
    if ks == [] then []
    else
      var p, x := Distinct(ks[..|ks| - 1]), ks[|ks| - 1];
      assert forall y :: y in ks <==> y in ks[..|ks| - 1] || y == x by {
        assert ks == ks[..|ks| - 1] + [x];
      }
      if x in p then p else p + [x]
  }

  /** The position of the first occurrence of `x` in `ks`. */
  function IndexOf(ks: seq<Cell>, x: Cell): (k: nat)
    requires x in ks
    ensures k < |ks| && ks[k] == x
    ensures forall j :: 0 <= j < k ==> ks[j] != x
  {
    if ks[0] == x then 0 else 1 + IndexOf(ks[1..], x)
  }

  /** A prefix that already holds `x` fixes the position of its first occurrence. */
  lemma IndexOfInPrefix(p: seq<Cell>, q: seq<Cell>, x: Cell)
    requires x in p
    ensures IndexOf(p + q, x) == IndexOf(p, x)
  {
    var k' := IndexOf(p, x);
    assert (p + q)[k'] == x;
    assert forall j :: 0 <= j < k' ==> (p + q)[j] == p[j];
  }

  /** Distinct lists its elements in the order of their first occurrence in the input. */
  ghost predicate InFirstSeenOrder(ks: seq<Cell>)
  {
    forall i, j :: 0 <= i < j < |Distinct(ks)| ==> IndexOf(ks, Distinct(ks)[i]) < IndexOf(ks, Distinct(ks)[j])
  }

  lemma {:induction false} DistinctInFirstSeenOrder(ks: seq<Cell>)
    ensures InFirstSeenOrder(ks)
  {
    if ks != [] {
      var p, x := ks[..|ks| - 1], ks[|ks| - 1];
      DistinctInFirstSeenOrder(p);
      assert ks == p + [x];
      if x in Distinct(p) {
        FirstSeenRepeat(p, x);
      } else {
        FirstSeenNew(p, x);
      }
      assert InFirstSeenOrder(ks);
    }
  }

  /** Positions of keys already seen do not move when a key is appended. */
  lemma PositionsKept(p: seq<Cell>, x: Cell)
    ensures forall y :: y in Distinct(p) ==> IndexOf(p + [x], y) == IndexOf(p, y)
  {
    forall y | y in Distinct(p)
      ensures IndexOf(p + [x], y) == IndexOf(p, y)
    {
      IndexOfInPrefix(p, [x], y);
    }
  }

  lemma FirstSeenRepeat(p: seq<Cell>, x: Cell)
    requires p != [] && x in Distinct(p) && InFirstSeenOrder(p)
    ensures InFirstSeenOrder(p + [x])
  {
    var ks := p + [x];
    assert ks[..|ks| - 1] == p;
    assert Distinct(ks) == Distinct(p);
    PositionsKept(p, x);
  }

  /** A key not yet seen first occurs at the position where it is appended. */
  lemma IndexOfNew(p: seq<Cell>, x: Cell)
    requires x !in p
    ensures IndexOf(p + [x], x) == |p|
  {
    var ks := p + [x];
    assert forall j :: 0 <= j < |p| ==> ks[j] == p[j] && p[j] in p;
  }

  lemma FirstSeenNew(p: seq<Cell>, x: Cell)
    requires x !in Distinct(p) && InFirstSeenOrder(p)
    ensures InFirstSeenOrder(p + [x])
  {
    var ks := p + [x];
    assert ks[..|ks| - 1] == p;
    var r', r := Distinct(p), Distinct(ks);
    assert r == r' + [x];
    PositionsKept(p, x);
    IndexOfNew(p, x);
    forall i | 0 <= i < |r'|
      ensures IndexOf(ks, r[i]) == IndexOf(p, r'[i]) < |p|
    {
      assert r[i] == r'[i] && r'[i] in r';
    }
    forall i, j | 0 <= i < j < |r|
      ensures IndexOf(ks, r[i]) < IndexOf(ks, r[j])
    {
      if j == |r'| {
        assert r[j] == x;
      }
    }
  }

  /** The conference buckets of `data`, in first-seen order. */
  function Conferences(data: seq<Row>): (ks: seq<Cell>)
    ensures NoDup(ks)
    ensures forall i :: 0 <= i < |data| ==> ConfKey(data[i]) in ks
  {
    var ks := Distinct(ConfKeys(data));
    assert forall i :: 0 <= i < |data| ==> ConfKeys(data)[i] in ConfKeys(data);
    ks
  }

  /** Every bucket key is the key of some row. */
  lemma ConferenceHasRow(data: seq<Row>, c: Cell)
    requires c in Conferences(data)
    ensures exists i :: 0 <= i < |data| && ConfKey(data[i]) == c
  {
    var j :| 0 <= j < |ConfKeys(data)| && ConfKeys(data)[j] == c;
  }

  /** The rows whose bucket is `c`, in their original order. */
  function Group(data: seq<Row>, c: Cell): (g: seq<Row>)
    ensures |g| <= |data|
    ensures forall i :: 0 <= i < |g| ==> ConfKey(g[i]) == c
  {
    if data == [] then []
    else
      var last := data[|data| - 1];
      Group(data[..|data| - 1], c) + (if ConfKey(last) == c then [last] else [])
  }

  /** A bucket holds exactly the rows whose key it is. */
  lemma {:induction false} GroupMembers(data: seq<Row>, c: Cell)
    ensures forall d :: d in Group(data, c) <==> d in data && ConfKey(d) == c
  {
    if data != [] {
      var p := data[..|data| - 1];
      GroupMembers(p, c);
      assert data == p + [data[|data| - 1]];
    }
  }

  /** Grouping distributes over concatenation: a bucket keeps its rows in their original order. */
  lemma {:induction false} GroupAppend(a: seq<Row>, b: seq<Row>, c: Cell)
    ensures Group(a + b, c) == Group(a, c) + Group(b, c)
  {
    if b == [] {
      assert a + b == a;
    } else {
      var b' := b[..|b| - 1];
      assert (a + b)[..|a + b| - 1] == a + b';
      assert (a + b)[|a + b| - 1] == b[|b| - 1];
      GroupAppend(a, b', c);
    }
  }

  /** Row i sits in its own bucket right after the earlier rows of that bucket. */
  lemma RowPositionInBucket(data: seq<Row>, i: nat)
    requires i < |data|
    ensures |Group(data[..i], ConfKey(data[i]))| < |Group(data, ConfKey(data[i]))|
    ensures Group(data, ConfKey(data[i]))[|Group(data[..i], ConfKey(data[i]))|] == data[i]
  {
    var c := ConfKey(data[i]);
    assert data == data[..i] + ([data[i]] + data[i + 1..]);
    GroupAppend(data[..i], [data[i]] + data[i + 1..], c);
    GroupAppend([data[i]], data[i + 1..], c);
    assert [data[i]][..0] == [];
    assert Group([data[i]], c) == [data[i]];
  }

  /** Every bucket that exists holds at least one row. */
  lemma BucketsNonEmpty(data: seq<Row>)
    ensures forall k :: 0 <= k < |Conferences(data)| ==> |Group(data, Conferences(data)[k])| > 0
  {
    var ks := Conferences(data);
    forall k | 0 <= k < |ks|
      ensures |Group(data, ks[k])| > 0
    {
      assert ks[k] in ks;
      ConferenceHasRow(data, ks[k]);
      var i :| 0 <= i < |data| && ConfKey(data[i]) == ks[k];
      GroupMembers(data, ks[k]);
      assert data[i] in Group(data, ks[k]);
    }
  }

  /** The buckets named by `ks`, concatenated in the order of `ks`. */
  function Flatten(ks: seq<Cell>, data: seq<Row>): seq<Row>
  {
    if ks == [] then [] else Flatten(ks[..|ks| - 1], data) + Group(data, ks[|ks| - 1])
  }

  lemma {:induction false} FlattenOfNoRows(ks: seq<Cell>)
    ensures Flatten(ks, []) == []
  {
    if ks != [] {
      FlattenOfNoRows(ks[..|ks| - 1]);
    }
  }

  /** Adding one row adds its weight once to the buckets, when its key is among `ks`. */
  lemma {:induction false} FlattenStep(ks: seq<Cell>, data: seq<Row>, d: Row, f: Row -> int)
    requires NoDup(ks)
    ensures SumOf(Flatten(ks, data + [d]), f) == SumOf(Flatten(ks, data), f) + (if ConfKey(d) in ks then f(d) else 0)
  {
    if ks != [] {
      var p, c := ks[..|ks| - 1], ks[|ks| - 1];
      assert NoDup(p);
      assert ks == p + [c];
      assert c !in p;
      FlattenStep(p, data, d, f);
      assert (data + [d])[..|data|] == data;
      var gNew, gOld := Group(data + [d], c), Group(data, c);
      assert gNew == gOld + (if ConfKey(d) == c then [d] else []);
      SumOfAppend(Flatten(p, data + [d]), gNew, f);
      SumOfAppend(Flatten(p, data), gOld, f);
      SumOfAppend(gOld, if ConfKey(d) == c then [d] else [], f);
      assert SumOf([d], f) == f(d) by {
        assert [d][..0] == [];
      }
    }
  }

  /** Bucketing is a partition: any weight summed over the buckets equals the weight summed over the rows. */
  lemma {:induction false} FlattenPreservesSums(ks: seq<Cell>, data: seq<Row>, f: Row -> int)
    requires NoDup(ks)
    requires forall i :: 0 <= i < |data| ==> ConfKey(data[i]) in ks
    ensures SumOf(Flatten(ks, data), f) == SumOf(data, f)
  {
    if data == [] {
      FlattenOfNoRows(ks);
    } else {
      var q, d := data[..|data| - 1], data[|data| - 1];
      assert data == q + [d];
      FlattenPreservesSums(ks, q, f);
      FlattenStep(ks, q, d, f);
    }
  }

  /**
   * The conference buckets partition the rows: concatenated, they are a
   * permutation of the rows, so every row lies in exactly one bucket (the
   * one of its key) and the bucket sizes add up to the row count.
   */
  lemma BucketsPartitionRows(data: seq<Row>)
    ensures multiset(Flatten(Conferences(data), data)) == multiset(data)
    ensures |Flatten(Conferences(data), data)| == |data|
  {
    var ks := Conferences(data);
    var all := Flatten(ks, data);
    forall x
      ensures multiset(all)[x] == multiset(data)[x]
    {
      var f: Row -> int := r => if r == x then 1 else 0;
      MultiplicityIsSum(all, x, f);
      MultiplicityIsSum(data, x, f);
      FlattenPreservesSums(ks, data, f);
    }
    assert multiset(all) == multiset(data);
    assert |multiset(all)| == |all|;
  }

  /** An average kept exactly: the rational sum / count. */
  datatype Mean = Mean(sum: int, count: nat)

  /** One entry of `confAvg`. */
  datatype ConfAvg = ConfAvg(conference: Cell, avg: Mean)

  /** The dictionary `confMap` as it stands once every row has been pushed. */
  function ConfMapOf(data: seq<Row>): (m: map<Cell, seq<nat>>)
    ensures forall c :: c in m <==> c in Conferences(data)
  {
    map c | c in Conferences(data) :: TropeCounts(Group(data, c))
  }

  /**
   * Builds `confMap` the way the source does: one pass over the rows, a
   * bucket created the first time its key is seen, the row's trope count
   * pushed onto its bucket. `order` is the dictionary's insertion order.
   */
  method GroupByConference(data: seq<Row>) returns (order: seq<Cell>, groups: map<Cell, seq<nat>>)
    ensures order == Conferences(data)
    ensures forall c :: c in groups <==> c in order
    ensures forall c :: c in groups ==> groups[c] == TropeCounts(Group(data, c))
  {
    order, groups := [], map[];
    var i := 0;
    ghost var seen: seq<Row> := [];
    while i < |data|
      invariant 0 <= i <= |data|
      invariant seen == data[..i]
      invariant Pushed(seen, order, groups)
    {
      var d := data[i];
      var conf := ConfKey(d);
      assert data[..i + 1] == seen + [d];
      ghost var order0, groups0 := order, groups;
      if conf !in groups {
        groups := groups[conf := []];
        order := order + [conf];
      }
      ghost var groups1 := groups;
      groups := groups[conf := groups[conf] + [TropeCount(d)]];
      PushKeepsConfMap(seen, d, order0, groups0, order, groups1, groups);
      seen := seen + [d];
      i := i + 1;
    }
    assert seen == data;
  }

  /** `order` and `groups` are `confMap` after the rows `s` have been pushed. */
  ghost predicate Pushed(s: seq<Row>, order: seq<Cell>, groups: map<Cell, seq<nat>>)
  {
    && order == Distinct(ConfKeys(s))
    && (forall c :: c in groups <==> c in order)
    && (forall c :: c in groups ==> groups[c] == TropeCounts(Group(s, c)))
  }

  /** Pushing one more row onto its (possibly new) bucket keeps `Pushed`. */
  lemma PushKeepsConfMap(s: seq<Row>, d: Row, order: seq<Cell>, groups: map<Cell, seq<nat>>,
                         order': seq<Cell>, created: map<Cell, seq<nat>>, groups': map<Cell, seq<nat>>)
    requires Pushed(s, order, groups)
    requires order' == if ConfKey(d) in groups then order else order + [ConfKey(d)]
    requires created == if ConfKey(d) in groups then groups else groups[ConfKey(d) := []]
    requires groups' == created[ConfKey(d) := created[ConfKey(d)] + [TropeCount(d)]]
    ensures Pushed(s + [d], order', groups')
  {
    PushStep(s, d);
    if ConfKey(d) !in groups {
      GroupOfUnseenKey(s, ConfKey(d));
    }
    PushedBuckets(s, d, groups, created, groups');
  }

  lemma PushedBuckets(s: seq<Row>, d: Row, groups: map<Cell, seq<nat>>, created: map<Cell, seq<nat>>, groups': map<Cell, seq<nat>>)
    requires forall c :: c in groups ==> groups[c] == TropeCounts(Group(s, c))
    requires ConfKey(d) !in groups ==> Group(s, ConfKey(d)) == []
    requires created == if ConfKey(d) in groups then groups else groups[ConfKey(d) := []]
    requires groups' == created[ConfKey(d) := created[ConfKey(d)] + [TropeCount(d)]]
    ensures forall c :: c in groups' ==> groups'[c] == TropeCounts(Group(s + [d], c))
  {
    PushStep(s, d);
    forall c | c in groups'
      ensures groups'[c] == TropeCounts(Group(s + [d], c))
    {
      if c != ConfKey(d) {
        assert groups'[c] == groups[c];
      }
    }
  }

  /** A key no row carries has an empty bucket. */
  lemma {:induction false} GroupOfUnseenKey(s: seq<Row>, c: Cell)
    requires c !in Distinct(ConfKeys(s))
    ensures Group(s, c) == []
  {
    if s != [] {
      var p := s[..|s| - 1];
      assert ConfKeys(s) == ConfKeys(p) + [ConfKey(s[|s| - 1])];
      GroupOfUnseenKey(p, c);
    }
  }

  /** What one more row does to the key order and to the pushed trope counts. */
  lemma PushStep(s: seq<Row>, d: Row)
    ensures (s + [d])[..|s|] == s
    ensures Distinct(ConfKeys(s + [d])) ==
      (if ConfKey(d) in Distinct(ConfKeys(s)) then Distinct(ConfKeys(s)) else Distinct(ConfKeys(s)) + [ConfKey(d)])
    ensures forall c :: c != ConfKey(d) ==> Group(s + [d], c) == Group(s, c)
    ensures TropeCounts(Group(s + [d], ConfKey(d))) == TropeCounts(Group(s, ConfKey(d))) + [TropeCount(d)]
  {
    assert (s + [d])[..|s|] == s;
    PushKeys(s, d);
    PushCounts(s, d);
  }

  lemma PushKeys(s: seq<Row>, d: Row)
    ensures Distinct(ConfKeys(s + [d])) ==
      (if ConfKey(d) in Distinct(ConfKeys(s)) then Distinct(ConfKeys(s)) else Distinct(ConfKeys(s)) + [ConfKey(d)])
  {
    assert (s + [d])[..|s|] == s;
    var ks := ConfKeys(s + [d]);
    assert ks == ConfKeys(s) + [ConfKey(d)];
    assert ks[..|s|] == ConfKeys(s);
  }

  lemma PushCounts(s: seq<Row>, d: Row)
    ensures TropeCounts(Group(s + [d], ConfKey(d))) == TropeCounts(Group(s, ConfKey(d))) + [TropeCount(d)]
  {
    assert (s + [d])[..|s|] == s;
    var g := Group(s, ConfKey(d));
    assert Group(s + [d], ConfKey(d)) == g + [d];
    assert (g + [d])[..|g|] == g;
  }

  /** `Object.entries(confMap).map(...)`: one (conference, mean) entry per bucket, in insertion order. */
  function Averages(order: seq<Cell>, groups: map<Cell, seq<nat>>): (avgs: seq<ConfAvg>)
    requires forall c :: c in order ==> c in groups
    ensures |avgs| == |order|
    ensures forall k :: 0 <= k < |order| ==> avgs[k].conference == order[k]
  {
    seq(|order|, k requires 0 <= k < |order| => ConfAvg(order[k], Mean(Sum(groups[order[k]]), |groups[order[k]]|)))
  }

  /** The averages only read the buckets, so any dictionary holding the same buckets yields the same entries. */
  lemma AveragesOfSameBuckets(data: seq<Row>, groups: map<Cell, seq<nat>>)
    requires forall c :: c in groups <==> c in Conferences(data)
    requires forall c :: c in groups ==> groups[c] == TropeCounts(Group(data, c))
    ensures Averages(Conferences(data), groups) == Averages(Conferences(data), ConfMapOf(data))
  {
  }

  /** The sum of all bucket sums. */
  function TotalSum(avgs: seq<ConfAvg>): int
  {
    if avgs == [] then 0 else TotalSum(avgs[..|avgs| - 1]) + avgs[|avgs| - 1].avg.sum
  }

  /** The sum of all bucket sizes. */
  function TotalCount(avgs: seq<ConfAvg>): int
  {
    if avgs == [] then 0 else TotalCount(avgs[..|avgs| - 1]) + avgs[|avgs| - 1].avg.count
  }

  /** Each entry of confAvg is the mean of its bucket's trope counts, over a bucket that is never empty. */
  lemma AveragesAreBucketMeans(data: seq<Row>)
    ensures |Averages(Conferences(data), ConfMapOf(data))| == |Conferences(data)|
    ensures forall k :: 0 <= k < |Conferences(data)| ==>
      var e := Averages(Conferences(data), ConfMapOf(data))[k];
      e.conference == Conferences(data)[k] &&
      e.avg.count == |Group(data, e.conference)| > 0 &&
      e.avg.sum == SumOf(Group(data, e.conference), TropeWeight)
  {
    BucketsNonEmpty(data);
    forall c | c in Conferences(data)
      ensures Sum(TropeCounts(Group(data, c))) == SumOf(Group(data, c), TropeWeight)
    {
      SumOfTropeCounts(Group(data, c));
    }
  }

  /** The entries for `ks` are the entries for its prefix followed by the entry of its last bucket. */
  lemma AveragesSnoc(ks: seq<Cell>, groups: map<Cell, seq<nat>>)
    requires ks != []
    requires forall c :: c in ks ==> c in groups
    ensures forall c :: c in ks[..|ks| - 1] ==> c in groups
    ensures Averages(ks, groups)[..|ks| - 1] == Averages(ks[..|ks| - 1], groups)
  {
    assert forall c :: c in ks[..|ks| - 1] ==> c in ks;
  }

  lemma {:induction false} TotalSumOverBuckets(ks: seq<Cell>, data: seq<Row>, groups: map<Cell, seq<nat>>)
    requires forall c :: c in ks ==> c in groups && groups[c] == TropeCounts(Group(data, c))
    ensures TotalSum(Averages(ks, groups)) == SumOf(Flatten(ks, data), TropeWeight)
  {
    if ks != [] {
      var p, c := ks[..|ks| - 1], ks[|ks| - 1];
      var avgs := Averages(ks, groups);
      AveragesSnoc(ks, groups);
      TotalSumOverBuckets(p, data, groups);
      var g := Group(data, c);
      assert c in ks;
      assert avgs[|ks| - 1].avg.sum == Sum(TropeCounts(g));
      assert TotalSum(avgs) == TotalSum(Averages(p, groups)) + Sum(TropeCounts(g));
      assert Flatten(ks, data) == Flatten(p, data) + g;
      SumOfAppend(Flatten(p, data), g, TropeWeight);
      SumOfTropeCounts(g);
    }
  }

  lemma {:induction false} TotalCountOverBuckets(ks: seq<Cell>, data: seq<Row>, groups: map<Cell, seq<nat>>)
    requires forall c :: c in ks ==> c in groups && groups[c] == TropeCounts(Group(data, c))
    ensures TotalCount(Averages(ks, groups)) == |Flatten(ks, data)|
  {
    if ks != [] {
      var p, c := ks[..|ks| - 1], ks[|ks| - 1];
      var avgs := Averages(ks, groups);
      AveragesSnoc(ks, groups);
      TotalCountOverBuckets(p, data, groups);
      assert c in ks;
      assert avgs[|ks| - 1].avg.count == |Group(data, c)|;
      assert TotalCount(avgs) == TotalCount(Averages(p, groups)) + |Group(data, c)|;
      assert Flatten(ks, data) == Flatten(p, data) + Group(data, c);
    }
  }

  /**
   * The weighted-mean identity: the bucket sums add up to the sum of all
   * trope counts, and the bucket sizes to the number of rows; so the sum
   * over buckets of count * average is the overall total.
   */
  lemma WeightedMeanIdentity(data: seq<Row>)
    ensures TotalSum(Averages(Conferences(data), ConfMapOf(data))) == Sum(TropeCounts(data))
    ensures TotalCount(Averages(Conferences(data), ConfMapOf(data))) == |data|
  {
    var ks := Conferences(data);
    TotalSumOverBuckets(ks, data, ConfMapOf(data));
    TotalCountOverBuckets(ks, data, ConfMapOf(data));
    FlattenPreservesSums(ks, data, TropeWeight);
    SumOfTropeCounts(data);
    BucketsPartitionRows(data);
  }
}
