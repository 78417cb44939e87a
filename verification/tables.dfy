/** The nearest-rank index choice of `create_percent_table`
    (src/tables.rs): five rows read straight out of the completion times at
    integer-divided positions, with no interpolation. Printing is not
    modelled; the rows are returned instead. */
module Tables {
  import opened Sorting
  import opened Arith

  /** The five reported rows: 50%, 75%, 90%, 95% and 100%. */
  datatype PercentRows = PercentRows(p50: nat, p75: nat, p90: nat, p95: nat, p100: nat)

  function Rows(r: PercentRows): seq<nat> {
    [r.p50, r.p75, r.p90, r.p95, r.p100]
  }

  /** The positions read for a slice of `total` elements, in row order. */
  function PercentIndices(total: nat): seq<int> {
    [total / 2, total * 3 / 4, total * 9 / 10, total * 95 / 100, total - 1]
  }

  /** For a non-empty slice every position is in bounds, and the positions
      never decrease from one row to the next. */
  lemma IndicesInRange(total: nat)
    requires total >= 1
    ensures forall k :: 0 <= k < 5 ==> 0 <= PercentIndices(total)[k] < total
    ensures forall k :: 0 <= k < 4 ==> PercentIndices(total)[k] <= PercentIndices(total)[k + 1]
  {
    var ix := PercentIndices(total);
    DivBelow(total, 1, 2);
    DivBelow(total, 3, 4);
    DivBelow(total, 9, 10);
    DivBelow(total, 95, 100);
    DivOrder(total, 1, 2, 3, 4);
    DivOrder(total, 3, 4, 9, 10);
    DivOrder(total, 9, 10, 95, 100);
    assert total / 2 == total * 1 / 2;
    assert ix[0] == total * 1 / 2;
    DivAtMostLast(total, 95, 100);
  }

  /** `total * a / b` is a valid position when `a < b`. */
  lemma DivBelow(total: nat, a: nat, b: nat)
    requires total >= 1 && 0 < a < b
    ensures 0 <= total * a / b < total
  {
    assert total * a < total * b;
    DivLess(total * a, total, b);
  }

  /** The largest scaled position is at most the last one. */
  lemma DivAtMostLast(total: nat, a: nat, b: nat)
    requires total >= 1 && 0 < a < b
    ensures total * a / b <= total - 1
  {
    DivBelow(total, a, b);
  }

  /** A smaller fraction never gives a later position: a/b <= c/d implies
      total*a/b <= total*c/d. */
  lemma DivOrder(total: nat, a: nat, b: nat, c: nat, d: nat)
    requires b > 0 && d > 0 && a * d <= c * b
    ensures total * a / b <= total * c / d
  {
    var q := total * a / b;
    DivFloor(total * a, b);
    ScaledChain(q, total, a, b, c, d);
    DivLowerBound(q, total * c, d);
  }

  /** From `q*b <= total*a` and `a/b <= c/d` follows `q*d <= total*c`. */
  lemma ScaledChain(q: nat, total: nat, a: nat, b: nat, c: nat, d: nat)
    requires b > 0 && q * b <= total * a && a * d <= c * b
    ensures q * d <= total * c
  {
    MulLe(q * b, total * a, d);
    MulLe(a * d, c * b, total);
    assert q * b * d == (q * d) * b;
    assert total * a * d == a * d * total;
    assert c * b * total == (total * c) * b;
    MulCancelLe(q * d, total * c, b);
  }

  /** `create_percent_table`: each row is the element at its position. The
      slice is neither sorted nor changed here; ordering is the caller's job.
      An empty slice would index out of bounds, so it is excluded. */
  function CreatePercentTable(completed: seq<nat>): (r: PercentRows)
    requires |completed| >= 1
    ensures forall k :: 0 <= k < 5 ==> Rows(r)[k] in completed
    ensures forall k :: 0 <= k < 5 ==> Rows(r)[k] == completed[PercentIndices(|completed|)[k]]
  {
    var total := |completed|;
    IndicesInRange(total);
    var ix := PercentIndices(total);
    PercentRows(completed[ix[0]], completed[ix[1]], completed[ix[2]], completed[ix[3]], completed[ix[4]])
  }

  /** On sorted input the rows never decrease, and the 100% row is the
      largest value. */
  lemma SortedRows(completed: seq<nat>)
    requires |completed| >= 1 && Sorted(completed)
    ensures forall k :: 0 <= k < 4 ==> Rows(CreatePercentTable(completed))[k] <= Rows(CreatePercentTable(completed))[k + 1]
    ensures forall i :: 0 <= i < |completed| ==> completed[i] <= CreatePercentTable(completed).p100
  {
    RowsAscend(completed);
    LastRowMax(completed);
  }

  /** The rows as the five positions read. */
  lemma RowsAt(completed: seq<nat>)
    requires |completed| >= 1
    ensures var t := CreatePercentTable(completed);
      var ix := PercentIndices(|completed|);
      && (forall k :: 0 <= k < 5 ==> 0 <= ix[k] < |completed|)
      && (forall k :: 0 <= k < 4 ==> ix[k] <= ix[k + 1])
      && t.p50 == completed[ix[0]] && t.p75 == completed[ix[1]] && t.p90 == completed[ix[2]]
      && t.p95 == completed[ix[3]] && t.p100 == completed[|completed| - 1]
  {
    IndicesInRange(|completed|);
  }

  lemma RowsAscend(completed: seq<nat>)
    requires |completed| >= 1 && Sorted(completed)
    ensures forall k :: 0 <= k < 4 ==> Rows(CreatePercentTable(completed))[k] <= Rows(CreatePercentTable(completed))[k + 1]
  {
    var t := CreatePercentTable(completed);
    var ix := PercentIndices(|completed|);
    RowsAt(completed);
    SortedAt(completed, ix[0], ix[1]);
    SortedAt(completed, ix[1], ix[2]);
    SortedAt(completed, ix[2], ix[3]);
    SortedAt(completed, ix[3], ix[4]);
    assert Rows(t) == [t.p50, t.p75, t.p90, t.p95, t.p100];
  }

  lemma LastRowMax(completed: seq<nat>)
    requires |completed| >= 1 && Sorted(completed)
    ensures forall i :: 0 <= i < |completed| ==> completed[i] <= CreatePercentTable(completed).p100
  {
    RowsAt(completed);
    forall i | 0 <= i < |completed| ensures completed[i] <= completed[|completed| - 1] {
      SortedAt(completed, i, |completed| - 1);
    }
  }

  lemma SortedAt(s: seq<nat>, i: int, j: int)
    requires Sorted(s) && 0 <= i <= j < |s|
    ensures s[i] <= s[j]
  {
  }

  /** The worked example: four samples give 30 for the median and 40 for the
      other rows. */
  lemma FourSamples()
    ensures CreatePercentTable([10, 20, 30, 40]) == PercentRows(30, 40, 40, 40, 40)
  {
    var s: seq<nat> := [10, 20, 30, 40];
    assert PercentIndices(4) == [2, 3, 3, 3, 3];
  }
}
