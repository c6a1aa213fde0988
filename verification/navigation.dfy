/**
 * The next/previous buttons of the chart viewer: the index arithmetic as
 * written, over JavaScript numbers, and the guarded index functions the
 * viewer uses.
 */
module Navigation {

  /** A JavaScript number, as far as the index arithmetic can reach: an integer or NaN. */
  datatype JsNumber = Finite(v: int) | NaN

  /** JavaScript `+`: NaN whenever an operand is NaN. */
  function JsAdd(a: JsNumber, b: JsNumber): (r: JsNumber)
    ensures r.Finite? <==> a.Finite? && b.Finite?
    ensures r.Finite? ==> r.v == a.v + b.v
  {
    if a.NaN? || b.NaN? then NaN else Finite(a.v + b.v)
  }

  /**
   * JavaScript `%`: the remainder of the division truncated toward zero, so
   * it takes the dividend's sign; NaN for a zero divisor or a NaN operand.
   */
  function JsRem(a: JsNumber, b: JsNumber): (r: JsNumber)
    ensures r.Finite? <==> a.Finite? && b.Finite? && b.v != 0
    ensures r.Finite? && a.v >= 0 ==> 0 <= r.v < (if b.v < 0 then -b.v else b.v)
    ensures r.Finite? && a.v < 0 ==> -(if b.v < 0 then -b.v else b.v) < r.v <= 0
    ensures r.Finite? && a.v >= 0 && b.v > 0 ==> r.v == a.v % b.v
  {
    if a.NaN? || b.NaN? || b.v == 0 then NaN
    else
      var m := if b.v < 0 then -b.v else b.v;
      if a.v >= 0 then Finite(a.v % m) else Finite(-((-a.v) % m))
  }

  /** The "next" click as written: `(currentIndex + 1) % graphs.length`. */
  function NextAsWritten(current: JsNumber, len: nat): (r: JsNumber)
    ensures r.Finite? <==> current.Finite? && len > 0
    ensures r.Finite? && current.v >= -1 ==> 0 <= r.v < len
  {
    JsRem(JsAdd(current, Finite(1)), Finite(len))
  }

  /** The "previous" click as written: `(currentIndex - 1 + graphs.length) % graphs.length`. */
  function PrevAsWritten(current: JsNumber, len: nat): (r: JsNumber)
    ensures r.Finite? <==> current.Finite? && len > 0
    ensures r.Finite? && current.v >= 1 - len ==> 0 <= r.v < len
  {
    JsRem(JsAdd(JsAdd(current, Finite(-1)), Finite(len)), Finite(len))
  }

  /** Before the rows have loaded the list of charts is empty, and either click turns the index into NaN. */
  lemma ClickBeforeLoadGivesNaN(i: int)
    ensures NextAsWritten(Finite(i), 0) == NaN
    ensures PrevAsWritten(Finite(i), 0) == NaN
  {
  }

  /** Once NaN, the index stays NaN whatever is clicked and however many charts are loaded later. */
  lemma NaNIsAbsorbing(len: nat)
    ensures NextAsWritten(NaN, len) == NaN
    ensures PrevAsWritten(NaN, len) == NaN
  {
  }

  /** A value below twice the modulus wraps at most once. */
  lemma WrapOnce(a: nat, n: nat)
    requires 0 < n && a < 2 * n
    ensures a % n == (if a < n then a else a - n)
  {
    if a >= n {
      assert a == 1 * n + (a - n);
    }
  }

  /** The next index: one further, wrapping to the first chart after the last; unchanged while there are no charts. */
  function NextIndex(i: nat, n: nat): (j: nat)
    ensures n == 0 ==> j == i
    ensures 0 < n ==> j < n
    ensures i < n ==> j == (if i + 1 == n then 0 else i + 1)
  {
    if n == 0 then i
    else if i < n then WrapOnce(i + 1, n); (i + 1) % n
    else (i + 1) % n
  }

  /** The previous index: one back, wrapping to the last chart before the first; unchanged while there are no charts. */
  function PrevIndex(i: nat, n: nat): (j: nat)
    ensures n == 0 ==> j == i
    ensures 0 < n ==> j < n
    ensures i < n ==> j == (if i == 0 then n - 1 else i - 1)
  {
    if n == 0 then i
    else if i < n then WrapOnce(i + n - 1, n); (i + n - 1) % n
    else (i + n - 1) % n
  }

  /** With charts loaded and a valid index, the written arithmetic computes exactly the guarded index functions. */
  lemma AsWrittenAgreesOnceLoaded(i: nat, n: nat)
    requires i < n
    ensures NextAsWritten(Finite(i), n) == Finite(NextIndex(i, n))
    ensures PrevAsWritten(Finite(i), n) == Finite(PrevIndex(i, n))
  {
  }

  /** Previous undoes next and next undoes previous. */
  lemma PrevUndoesNext(i: nat, n: nat)
    requires i < n || n == 0
    ensures PrevIndex(NextIndex(i, n), n) == i
    ensures NextIndex(PrevIndex(i, n), n) == i
  {
  }

  /** The index after `k` clicks on "next". */
  function Advance(i: nat, n: nat, k: nat): (j: nat)
    ensures 0 < n && (i < n || 0 < k) ==> j < n
  {
    if k == 0 then i
    else NextIndex(Advance(i, n, k - 1), n)
  }

  /** While the end is not reached, `k` clicks on "next" move the index `k` charts further. */
  lemma {:induction false} AdvanceWithinRange(i: nat, n: nat, k: nat)
    requires i + k < n
    ensures Advance(i, n, k) == i + k
  {
    if k > 0 {
      AdvanceWithinRange(i, n, k - 1);
    }
  }

  /** Clicking `a` times and then `b` times is clicking `a + b` times. */
  lemma {:induction false} AdvanceCompose(i: nat, n: nat, a: nat, b: nat)
    ensures Advance(i, n, a + b) == Advance(Advance(i, n, a), n, b)
  {
    if b > 0 {
      AdvanceCompose(i, n, a, b - 1);
      assert a + b - 1 == a + (b - 1);
    }
  }

  /** `n` clicks on "next" bring the viewer back to the chart it started on. */
  lemma FullCycleReturns(i: nat, n: nat)
    requires i < n
    ensures Advance(i, n, n) == i
  {
    var m := n - i;
    AdvanceWithinRange(i, n, m - 1);
    assert Advance(i, n, m) == 0;
    AdvanceCompose(i, n, m, i);
    assert m + i == n;
    if i > 0 {
      AdvanceWithinRange(0, n, i);
    }
  }
}
