/** The row filter of `plot` (index.js line 95, dist/scatter.js line 89):
    keep, in order, the rows whose x and y accessors yield numbers. An
    accessor is already resolved to a function from a row to its value,
    `None` standing for NaN. */
module Rows {
  import opened Wrappers

  /** `!isNaN(getX(row)) && !isNaN(getY(row))`. */
  predicate Plottable<R>(row: R, getX: R -> Option<real>, getY: R -> Option<real>)
  {
    getX(row).Some? && getY(row).Some?
  }

  /** `input.filter(...)`. */
  function KeepPlottable<R>(rows: seq<R>, getX: R -> Option<real>, getY: R -> Option<real>): (kept: seq<R>)
    ensures |kept| <= |rows|
    ensures forall j :: 0 <= j < |kept| ==> Plottable(kept[j], getX, getY)
  {
    if |rows| == 0 then []
    else
      var rest := KeepPlottable(rows[1..], getX, getY);
      if Plottable(rows[0], getX, getY) then [rows[0]] + rest else rest
  }

  /** The positions of the plottable rows, in increasing order: an
      independent description of what the filter keeps. */
  function PlottableIndices<R>(rows: seq<R>, getX: R -> Option<real>, getY: R -> Option<real>): (idx: seq<nat>)
    ensures forall j :: 0 <= j < |idx| ==> idx[j] < |rows| && Plottable(rows[idx[j]], getX, getY)
    ensures forall j, l :: 0 <= j < l < |idx| ==> idx[j] < idx[l]
    ensures forall i :: 0 <= i < |rows| && Plottable(rows[i], getX, getY) ==> i in idx
  {
    if |rows| == 0 then []
    else
      var last := |rows| - 1;
      var front := PlottableIndices(rows[..last], getX, getY);
      assert forall i :: 0 <= i < last ==> rows[..last][i] == rows[i];
      if Plottable(rows[last], getX, getY) then front + [last] else front
  }

  /** Filtering a concatenation filters each part. */
  lemma {:induction false} KeepPlottableAppend<R>(a: seq<R>, b: seq<R>, getX: R -> Option<real>, getY: R -> Option<real>)
    ensures KeepPlottable(a + b, getX, getY) == KeepPlottable(a, getX, getY) + KeepPlottable(b, getX, getY)
  {
    if |a| == 0 {
      assert a + b == b;
    } else {
      assert (a + b)[1..] == a[1..] + b;
      KeepPlottableAppend(a[1..], b, getX, getY);
    }
  }

  /** The filtered rows are exactly the plottable rows, in their original
      order: the j-th kept row is the row at the j-th plottable position. */
  lemma {:induction false} KeepPlottableSelects<R>(rows: seq<R>, getX: R -> Option<real>, getY: R -> Option<real>)
    ensures var kept, idx := KeepPlottable(rows, getX, getY), PlottableIndices(rows, getX, getY);
            |kept| == |idx| && forall j :: 0 <= j < |kept| ==> kept[j] == rows[idx[j]]
  {
    if |rows| > 0 {
      var last := |rows| - 1;
      var front := rows[..last];
      KeepPlottableSelects(front, getX, getY);
      assert rows == front + [rows[last]];
      KeepPlottableAppend(front, [rows[last]], getX, getY);
      assert forall i :: 0 <= i < last ==> front[i] == rows[i];
    }
  }
}
