/** The helpers and data preparation of dist/scatter.js. Its `sum`,
    `mean`, `sd`, `pearson`, `leastSquares` and `quarterStops` and its row
    filter are the same expressions as in index.js (module Stats, Axes and
    Rows); its `round` has no sign handling, so `niceExtent` differs too. */
module DistScatter {
  import opened Wrappers
  import opened Stats
  import Axes
  import opened Rows

  /** `round(n, down)` of dist/scatter.js: zero stays zero, otherwise n is
      floored (down) or ceiled (up) at its own order of magnitude. For a
      negative n `Math.log` gives NaN, so n must not be negative. */
  function Round(n: real, down: bool): (r: real)
    requires 0.0 <= n
    ensures down ==> r <= n
    ensures !down ==> n <= r
    ensures 0.0 <= r && (r == 0.0) == (n == 0.0)
  {
    if n == 0.0 then 0.0 else Axes.Snap(n, down)
  }

  /** On its domain this `round` is the signed `round` of index.js. */
  lemma RoundAgrees(n: real, down: bool)
    requires 0.0 <= n
    ensures Round(n, down) == Axes.Round(n, down)
  {
  }

  /** A positive input becomes m · 10^k with k its order of magnitude and m
      an integer from 1 to 10, less than 10^k away from the input. */
  lemma RoundShape(n: real, down: bool)
    requires 0.0 < n
    ensures var p := Axes.Pow10(Axes.Oom(n));
            var m := Round(n, down) / p;
            m == m.Floor as real && 1.0 <= m <= 10.0 && Axes.Abs(Round(n, down) - n) < p
  {
    Axes.Pow10Step(Axes.Oom(n));
    Axes.SnapToShape(n, Axes.Pow10(Axes.Oom(n)), down);
  }

  /** `niceExtent` of dist/scatter.js. There is no extent of an empty array
      (undefined bounds), nor of one holding a negative value (its `round`
      of the minimum is NaN). */
  function NiceExtent(xs: seq<real>): (e: Option<Axes.Extent>)
    ensures e.Some? <==> |xs| > 0 && forall i :: 0 <= i < |xs| ==> 0.0 <= xs[i]
    ensures e.Some? ==> forall i :: 0 <= i < |xs| ==> e.value.lo <= xs[i] <= e.value.hi
  {
    if |xs| == 0 || Least(xs) < 0.0 then None
    else Some(Axes.Extent(Round(Least(xs), true), Round(Greatest(xs), false)))
  }

  /** Each bound of the extent of non-negative data is a round number next
      to the data: for a positive end value v, the bound is m · 10^k with k
      the order of magnitude of v and m an integer from 1 to 10, less than
      10^k beyond v; a zero end value gives a zero bound. */
  lemma NiceExtentTight(xs: seq<real>)
    requires |xs| > 0 && forall i :: 0 <= i < |xs| ==> 0.0 <= xs[i]
    ensures var e := NiceExtent(xs).value;
            var lo, hi := Least(xs), Greatest(xs);
            && e.lo <= lo && hi <= e.hi
            && (lo == 0.0 ==> e.lo == 0.0)
            && (hi == 0.0 ==> e.hi == 0.0)
            && (lo != 0.0 ==>
                  var p := Axes.Pow10(Axes.Oom(lo));
                  var m := e.lo / p;
                  m == m.Floor as real && 1.0 <= m <= 10.0 && lo - e.lo < p)
            && (hi != 0.0 ==>
                  var p := Axes.Pow10(Axes.Oom(hi));
                  var m := e.hi / p;
                  m == m.Floor as real && 1.0 <= m <= 10.0 && e.hi - hi < p)
  {
    if Least(xs) != 0.0 {
      RoundShape(Least(xs), true);
    }
    if Greatest(xs) != 0.0 {
      RoundShape(Greatest(xs), false);
    }
  }

  /** The values an accessor yields for rows that passed the filter. */
  function Resolve<R>(data: seq<R>, get: R -> Option<real>): (vs: seq<real>)
    requires forall j :: 0 <= j < |data| ==> get(data[j]).Some?
    ensures |vs| == |data|
    ensures forall j :: 0 <= j < |data| ==> vs[j] == get(data[j]).value
  {
    seq(|data|, j requires 0 <= j < |data| => get(data[j]).value)
  }

  /** An axis with its default extent and its gridline stops. */
  datatype Axis = Axis(extent: Axes.Extent, stops: seq<real>)

  /** The default axis over some values: `niceExtent`, then `quarterStops`. */
  function DefaultAxis(vs: seq<real>): (a: Option<Axis>)
    ensures a.Some? <==> NiceExtent(vs).Some?
    ensures a.Some? ==>
              && |a.value.stops| == 3
              && (forall i :: 0 <= i < |vs| ==> a.value.extent.lo <= vs[i] <= a.value.extent.hi)
              && (forall j :: 0 <= j < 3 ==> a.value.extent.lo <= a.value.stops[j] <= a.value.extent.hi)
    ensures a.Some? ==> a.value.extent == NiceExtent(vs).value
    ensures a.Some? ==> a.value.stops == Axes.QuarterStops(a.value.extent)
  {
    match NiceExtent(vs)
    case None => None
    case Some(e) => Some(Axis(e, Axes.QuarterStops(e)))
  }

  /** What `plot` computes before drawing, with the default extent and stop
      policies: the retained rows and the two axes. */
  datatype Layout<R> = Layout(data: seq<R>, x: Option<Axis>, y: Option<Axis>)

  /** Lines 89-94: filter the rows, then derive each axis from the values
      of the retained rows only. The retained rows are the filter's output
      (by `KeepPlottableSelects`, exactly the plottable rows, in order); an
      axis exists exactly when some row is retained and none of its values
      on that axis is negative. */
  function Prepare<R>(rows: seq<R>, getX: R -> Option<real>, getY: R -> Option<real>): (l: Layout<R>)
    ensures l.data == KeepPlottable(rows, getX, getY)
    ensures |l.data| <= |rows|
    ensures l.x.Some? <==> |l.data| > 0 && forall j :: 0 <= j < |l.data| ==> 0.0 <= getX(l.data[j]).value
    ensures l.y.Some? <==> |l.data| > 0 && forall j :: 0 <= j < |l.data| ==> 0.0 <= getY(l.data[j]).value
    ensures l.x.Some? ==> l.x.value.extent == NiceExtent(Resolve(l.data, getX)).value
    ensures l.y.Some? ==> l.y.value.extent == NiceExtent(Resolve(l.data, getY)).value
    ensures l.x.Some? ==> l.x.value.stops == Axes.QuarterStops(l.x.value.extent)
    ensures l.y.Some? ==> l.y.value.stops == Axes.QuarterStops(l.y.value.extent)
    ensures forall j :: 0 <= j < |l.data| ==> Plottable(l.data[j], getX, getY)
    ensures l.x.Some? ==> forall j :: 0 <= j < |l.data| ==>
              getX(l.data[j]).Some? && l.x.value.extent.lo <= getX(l.data[j]).value <= l.x.value.extent.hi
    ensures l.y.Some? ==> forall j :: 0 <= j < |l.data| ==>
              getY(l.data[j]).Some? && l.y.value.extent.lo <= getY(l.data[j]).value <= l.y.value.extent.hi
  {
    var data := KeepPlottable(rows, getX, getY);
    var xs := Resolve(data, getX);
    var ys := Resolve(data, getY);
    Layout(data, DefaultAxis(xs), DefaultAxis(ys))
  }

  /** The rows `plot` keeps are exactly the plottable rows, in their
      original order: the j-th retained row is the row at the j-th
      plottable position. */
  lemma PrepareSelects<R>(rows: seq<R>, getX: R -> Option<real>, getY: R -> Option<real>)
    ensures var data, idx := Prepare(rows, getX, getY).data, PlottableIndices(rows, getX, getY);
            |data| == |idx| && forall j :: 0 <= j < |data| ==> data[j] == rows[idx[j]]
  {
    KeepPlottableSelects(rows, getX, getY);
  }

  /** The trend line's end points, from the smallest to the largest x. */
  datatype Segment = Segment(x1: real, y1: real, x2: real, y2: real)

  /** The segment t spans the point (mx, my): mx lies within its x range
      and the point is collinear with its two ends. */
  predicate Spans(t: Segment, mx: real, my: real)
  {
    && t.x1 <= mx <= t.x2
    && (my - t.y1) * (t.x2 - t.x1) == (mx - t.x1) * (t.y2 - t.y1)
  }

  /** The segment of a line between x1 and x2 spans any point of that line
      whose x lies between them. */
  lemma SpansPoint(line: Line, x1: real, x2: real, mx: real)
    requires x1 <= mx <= x2
    ensures Spans(Segment(x1, line.At(x1), x2, line.At(x2)), mx, line.At(mx))
  {
    var b := line.slope;
    assert line.At(mx) - line.At(x1) == b * (mx - x1);
    assert line.At(x2) - line.At(x1) == b * (x2 - x1);
  }

  /** Lines 108-110: `p1` and `p2`, the fitted line evaluated at the least
      and greatest x. It exists exactly when the fit does; both ends lie on
      the fitted line, at the least and the greatest x, and the drawn
      segment spans the centroid (mean(xs), mean(ys)). */
  function TrendSegment(xs: seq<real>, ys: seq<real>, sqrt: real -> real): (s: Option<Segment>)
    requires |xs| == |ys|
    ensures s.Some? <==> LeastSquares(xs, ys, sqrt).Some?
    ensures s.Some? ==>
              && s.value.x1 in xs && s.value.x2 in xs
              && (forall i :: 0 <= i < |xs| ==> s.value.x1 <= xs[i] <= s.value.x2)
              && s.value.y1 == LeastSquares(xs, ys, sqrt).value.At(s.value.x1)
              && s.value.y2 == LeastSquares(xs, ys, sqrt).value.At(s.value.x2)
    ensures s.Some? ==> |xs| > 0 && Spans(s.value, Mean(xs).value, Mean(ys).value)
  {
    match LeastSquares(xs, ys, sqrt)
    case None => None
    case Some(line) =>
      MeanWithinBounds(xs);
      SpansPoint(line, Least(xs), Greatest(xs), Mean(xs).value);
      Some(Segment(Least(xs), line.At(Least(xs)), Greatest(xs), line.At(Greatest(xs))))
  }
}
