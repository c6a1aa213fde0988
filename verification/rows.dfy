/**
 * Rows of the fight-song table as the CSV parser hands them over, the
 * presence filter on `school`, and the rule that counts a row's tropes.
 */
module Rows {

  /** A field value after the parser's dynamic typing; `Undefined` stands for a field the row lacks. */
  datatype Cell = Undefined | Null | Text(s: string) | Num(n: int) | Flag(b: bool)

  /** One parsed record: header name to value. */
  type Row = map<string, Cell>

  function Get(d: Row, field: string): Cell
  {
    if field in d then d[field] else Undefined
  }

  /** JavaScript truthiness of a field value. */
  predicate Truthy(v: Cell)
  {
    match v
    case Undefined => false
    case Null => false
    case Text(s) => s != ""
    case Num(n) => n != 0
    case Flag(b) => b
  }

  predicate HasSchool(d: Row)
  {
    Truthy(Get(d, "school"))
  }

  predicate NoDup<T(==)>(s: seq<T>)
  {
    forall i, j :: 0 <= i < j < |s| ==> s[i] != s[j]
  }

  /** The nine trope columns, in the order every chart uses. */
  const Tropes: seq<string> :=
    ["fight", "victory", "win_won", "rah", "nonsense", "colors", "men", "opponents", "spelling"]

  /** A trope is present only when its field is exactly the string "Yes". */
  predicate IsYes(d: Row, t: string)
  {
    Get(d, t) == Text("Yes")
  }

  /** The rows that have a truthy `school`, in their original order. */
  function FilterRows(raw: seq<Row>): (data: seq<Row>)
    ensures |data| <= |raw|
    ensures forall i :: 0 <= i < |data| ==> HasSchool(data[i])
  {
    if raw == [] then []
    else
      var last := raw[|raw| - 1];
      FilterRows(raw[..|raw| - 1]) + (if HasSchool(last) then [last] else [])
  }

  /** A row is retained exactly when it is one of the input rows and has a school. */
  lemma {:induction false} FilterRowsMembers(raw: seq<Row>)
    ensures forall d :: d in FilterRows(raw) <==> d in raw && HasSchool(d)
  {
    if raw != [] {
      FilterRowsMembers(raw[..|raw| - 1]);
      assert raw == raw[..|raw| - 1] + [raw[|raw| - 1]];
    }
  }

  /** Filtering distributes over concatenation, so it keeps the relative order of the rows. */
  lemma {:induction false} FilterRowsAppend(a: seq<Row>, b: seq<Row>)
    ensures FilterRows(a + b) == FilterRows(a) + FilterRows(b)
  {
    if b == [] {
      assert a + b == a;
    } else {
      var b' := b[..|b| - 1];
      assert (a + b)[..|a + b| - 1] == a + b';
      assert (a + b)[|a + b| - 1] == b[|b| - 1];
      FilterRowsAppend(a, b');
    }
  }

  /** Rows that all have a school pass the filter unchanged; in particular filtering twice is filtering once. */
  lemma {:induction false} FilterRowsKeepsSchooled(s: seq<Row>)
    requires forall i :: 0 <= i < |s| ==> HasSchool(s[i])
    ensures FilterRows(s) == s
  {
    if s != [] {
      FilterRowsKeepsSchooled(s[..|s| - 1]);
      assert s[..|s| - 1] + [s[|s| - 1]] == s;
    }
  }

  lemma FilterRowsIdempotent(raw: seq<Row>)
    ensures FilterRows(FilterRows(raw)) == FilterRows(raw)
  {
    FilterRowsKeepsSchooled(FilterRows(raw));
  }

  /** The `school` column of the retained rows, index for index. */
  function Schools(data: seq<Row>): (schools: seq<Cell>)
    ensures |schools| == |data|
    ensures forall i :: 0 <= i < |data| ==> schools[i] == Get(data[i], "school")
  {
    seq(|data|, i requires 0 <= i < |data| => Get(data[i], "school"))
  }

  /** Every school label of the retained rows is a non-empty value. */
  lemma SchoolsOfRetainedRows(raw: seq<Row>)
    ensures |Schools(FilterRows(raw))| == |FilterRows(raw)|
    ensures forall i :: 0 <= i < |FilterRows(raw)| ==> Truthy(Schools(FilterRows(raw))[i])
  {
  }

  /** How many of the names `ts` are "Yes" in row `d`: a left fold adding one per hit. */
  function CountYes(d: Row, ts: seq<string>): (c: nat)
    ensures c <= |ts|
  {
    if ts == [] then 0
    else CountYes(d, ts[..|ts| - 1]) + (if IsYes(d, ts[|ts| - 1]) then 1 else 0)
  }

  function TropeCount(d: Row): (c: nat)
    ensures 0 <= c <= 9
  {
    CountYes(d, Tropes)
  }

  /** The tropes present in a row, as a set. */
  function YesTropes(d: Row): set<string>
  {
    set t | t in Tropes && IsYes(d, t)
  }

  /** Over distinct names, the fold counts exactly the names whose field is "Yes". */
  lemma {:induction false} CountYesIsCardinality(d: Row, ts: seq<string>)
    requires NoDup(ts)
    ensures CountYes(d, ts) == |set t | t in ts && IsYes(d, t)|
  {
    if ts != [] {
      var p, x := ts[..|ts| - 1], ts[|ts| - 1];
      assert NoDup(p);
      CountYesIsCardinality(d, p);
      var sp := set t | t in p && IsYes(d, t);
      var st := set t | t in ts && IsYes(d, t);
      assert ts == p + [x];
      assert x !in p;
      if IsYes(d, x) {
        assert st == sp + {x};
      } else {
        assert st == sp;
      }
    }
  }

  lemma TropesAreDistinct()
    ensures NoDup(Tropes)
  {
  }

  /** A row's trope count is the number of distinct trope names whose field is exactly "Yes"; a missing field never counts. */
  lemma TropeCountIsCardinality(d: Row)
    ensures TropeCount(d) == |YesTropes(d)|
    ensures TropeCount(d) <= |Tropes|
  {
    TropesAreDistinct();
    CountYesIsCardinality(d, Tropes);
  }

  /** Per-row trope counts, one per row, in row order. */
  function TropeCounts(data: seq<Row>): (tc: seq<nat>)
    ensures |tc| == |data|
    ensures forall i :: 0 <= i < |data| ==> tc[i] == TropeCount(data[i]) && tc[i] <= 9
  {
    if data == [] then []
    else TropeCounts(data[..|data| - 1]) + [TropeCount(data[|data| - 1])]
  }

  /** `reduce((a, b) => a + b, 0)` over a list of counts. */
  function Sum(xs: seq<nat>): (total: nat)
    ensures forall i :: 0 <= i < |xs| ==> xs[i] <= total
    ensures (forall i :: 0 <= i < |xs| ==> xs[i] <= 9) ==> total <= 9 * |xs|
  {
    if xs == [] then 0 else Sum(xs[..|xs| - 1]) + xs[|xs| - 1]
  }

  /** The sum of `f` over a sequence of rows. */
  function SumOf(rows: seq<Row>, f: Row -> int): int
  {
    if rows == [] then 0 else SumOf(rows[..|rows| - 1], f) + f(rows[|rows| - 1])
  }

  lemma {:induction false} SumOfAppend(a: seq<Row>, b: seq<Row>, f: Row -> int)
    ensures SumOf(a + b, f) == SumOf(a, f) + SumOf(b, f)
  {
    if b == [] {
      assert a + b == a;
    } else {
      assert (a + b)[..|a + b| - 1] == a + b[..|b| - 1];
      SumOfAppend(a, b[..|b| - 1], f);
    }
  }

  /** TropeCount as a weight for SumOf. */
  function TropeWeight(d: Row): int
  {
    TropeCount(d)
  }

  /** Summing the list of trope counts is summing TropeCount over the rows. */
  lemma {:induction false} SumOfTropeCounts(rows: seq<Row>)
    ensures Sum(TropeCounts(rows)) == SumOf(rows, TropeWeight)
  {
    if rows != [] {
      var p := rows[..|rows| - 1];
      SumOfTropeCounts(p);
      var tc := TropeCounts(rows);
      assert tc == TropeCounts(p) + [TropeCount(rows[|rows| - 1])];
      assert tc[..|tc| - 1] == TropeCounts(p);
      assert Sum(tc) == Sum(TropeCounts(p)) + TropeCount(rows[|rows| - 1]);
      assert SumOf(rows, TropeWeight) == SumOf(p, TropeWeight) + TropeCount(rows[|rows| - 1]);
    }
  }

  /** The multiplicity of a row in a sequence is the sum of its indicator. */
  lemma {:induction false} MultiplicityIsSum(s: seq<Row>, x: Row, f: Row -> int)
    requires forall r :: f(r) == (if r == x then 1 else 0)
    ensures multiset(s)[x] == SumOf(s, f)
  {
    if s != [] {
      MultiplicityIsSum(s[..|s| - 1], x, f);
      assert s == s[..|s| - 1] + [s[|s| - 1]];
    }
  }
}
