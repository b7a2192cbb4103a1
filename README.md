# Scatter-plot helpers, modelled in Dafny

The library draws an SVG scatter plot from an array of rows. Before any
drawing, it does three things:

- it keeps the rows whose x and y accessors give numbers;
- it picks each axis's bounds by rounding the data's minimum down and its
  maximum up at their own order of magnitude (`round`, `niceExtent`);
- it places gridlines at the quarter points of each extent
  (`quarterStops`).

It can also draw a least-squares trend line (`leastSquares`, built on
`sum`, `mean`, `sd` and `pearson`). This project models those pure helpers
as Dafny functions over exact reals and proves what they promise.

There are two versions of the helpers:

- index.js holds the source version. Its `round` is signed: it rounds the
  magnitude, swapping floor and ceiling for negative input, then restores
  the sign.
- dist/scatter.js holds the built bundle. It repeats `sum`, `mean`, `sd`,
  `pearson`, `leastSquares` and `quarterStops` expression for expression
  (dist/scatter.js:10-33, 53-55), and its row filter at line 89 is the one
  at index.js:95. Its `round` has no sign handling, so negative input is
  outside its domain (`Math.log` gives NaN there).

The shared helpers are modelled once (modules `Stats`, `Axes`, `Rows`).
Module `DistScatter` holds what differs in the bundle: its `round`, its
`niceExtent`, and the data preparation of its `plot` (lines 89-94 and
108-110). The main index.js `plot` cannot reach its filter: it reads an
undeclared `label` at index.js:91 first.

Modelling choices:

- JavaScript's NaN, `undefined` and the TypeError of an unseeded `reduce`
  on `[]` become `None` of an `Option`.
- A resolved accessor value is an `Option<real>`.
- `Math.sqrt` is a parameter `sqrt: real -> real`. Lemmas that need a real
  square root require `IsSqrt(sqrt)`.
- The order of magnitude is exact: `Oom(a)` is the unique integer k with
  10^k <= a < 10^(k+1).
- Negative input follows the code. Reading the rule as "round the
  magnitude, then restore the sign" would give -700 for round(-734, down).
  The code gives -800 (index.js:40-43): down on a negative number takes
  the ceiling of the magnitude, then negates. `Axes.RoundExamples` states
  the code's values.
- Horizontal data (all y equal, x varying) gets no trend line. Its
  least-squares line is y = mean(y), but the code's `pearson` is 0/0 there
  (index.js:15-18), so the slope is NaN. The model gives `None`
  (`Stats.HorizontalNoFit`, `Stats.LeastSquaresExists`).

Files:

- `wrappers.dfy`: `Option`.
- `real_facts.dfy`: small real-arithmetic lemmas used by the proofs.
- `stats.dfy`: the statistics helpers.
- `axes.dfy`: `round`, `niceExtent` and `quarterStops` of index.js.
- `rows.dfy`: the row filter.
- `dist_scatter.dfy`: what dist/scatter.js does differently.

## Model

| member | source | states |
|---|---|---|
| Stats.FoldSumIsSum | index.js:6-7 | folding `sum` from a seed gives the seed plus the sum of the rest |
| Stats.Reduce | index.js:6-7 | `reduce(sum)` is defined exactly for a non-empty array (empty throws) and equals Σ xs |
| Stats.Mean | index.js:7 | `mean` is defined exactly for a non-empty array, and mean · n == Σ xs |
| Stats.Least | index.js:48 | the minimum is an element of the array and is at most every element |
| Stats.Greatest | index.js:48 | the maximum is an element of the array and is at least every element |
| Stats.SumBounds | index.js:6 | values bounded by lo and hi give n·lo <= Σ <= n·hi |
| Stats.MeanBetween | index.js:7 | the mean stays within any bounds of the values |
| Stats.MeanWithinBounds | index.js:7 | min <= mean <= max on a non-empty array |
| Stats.SumNonNegative | index.js:6 | a sum of non-negative values is non-negative |
| Stats.SquaredDeviationsNonNegative | index.js:11 | Σ (x - mu)² >= 0 |
| Stats.Sd | index.js:9-12 | `sd` is defined exactly for a non-empty array |
| Stats.SdIsPopulation | index.js:9-12 | with a true root, sd >= 0 and sd² · n == Σ (x - mean)², so the divisor is n (population) |
| Stats.Pearson | index.js:14-21 | `pearson` has a value only for a non-empty array (zero denominator: none) |
| Stats.PearsonSymmetric | index.js:14-21 | pearson(xs, ys) == pearson(ys, xs) |
| Stats.PearsonSelf | index.js:14-21 | an array with non-zero spread correlates with itself exactly: pearson(xs, xs) == 1 |
| Stats.SqrtScale | index.js:11 | with a true root, sqrt(c²·v) == c·sqrt(v) for c, v >= 0 |
| Stats.LineWithSlope | index.js:26-27 | for any slope b, `a = mean(ys) - b·mean(xs)` gives a line with slope b through (mean xs, mean ys); it exists iff both arrays are non-empty |
| Stats.Slope | index.js:26 | the slope `pearson · sd(ys) / sd(xs)` exists only for non-empty data |
| Stats.LeastSquares | index.js:23-29 | the fitted line `a + b·x` passes through the centroid (mean xs, mean ys) |
| Stats.LeastSquaresExists | index.js:14-29 | with a true root and non-empty data, the fit exists iff neither Σ (x - mean xs)² nor Σ (y - mean ys)² is zero |
| Stats.HorizontalNoFit | index.js:14-29 | with a true root, the points (1,5), (2,5), (3,5) get no fit: `pearson` is 0/0 |
| Stats.ExactLinePearson | index.js:14-21 | the points (1,2), (2,4), (3,6) have correlation 1 |
| Stats.ExactLineSd | index.js:9-12 | sd of 2,4,6 is twice sd of 1,2,3, and neither is zero |
| Stats.ExactLineFit | index.js:23-29 | the points (1,2), (2,4), (3,6) are fitted by y = 2x |
| Axes.Pow10Order | index.js:38-41 | 10^k <= 10^j when k <= j |
| Axes.Oom | index.js:38 | the order of magnitude k of a > 0 satisfies 10^k <= a < 10^(k+1) |
| Axes.OomUnique | index.js:38 | any k with 10^k <= a < 10^(k+1) is Oom(a) |
| Axes.Ceil | index.js:41 | `Math.ceil`: x <= ceil(x) < x + 1 |
| Axes.Digit | index.js:40-41 | the leading digit taken down or up is an integer from 1 to 10 within 1 of the exact one |
| Axes.SnapTo | index.js:40-41 | `floor(a/p)·p` is at most a and `ceil(a/p)·p` at least a, and both are at least p |
| Axes.SnapToShape | index.js:40-41 | the snapped value is m·p with integer 1 <= m <= 10, less than p from a |
| Axes.Snap | index.js:37-41 | snapping a > 0 at its own order of magnitude k floors (down) or ceils (up), giving m·10^k with integer 1 <= m <= 10, less than 10^k from a |
| Axes.Round | index.js:34-45 | round(n, down) <= n <= round(n, up); the result is 0 iff n is 0 and keeps the sign of n |
| Axes.RoundNegate | index.js:40-43 | round(-n, d) == -round(n, !d) |
| Axes.RoundShape | index.js:38-43 | for n != 0 the result is m·10^k with k = Oom(\|n\|), integer 1 <= m <= 10, and \|round(n,d) - n\| < 10^k |
| Axes.RoundExamples | index.js:34-45 | 734 gives 700 and 800; 0.0734 gives 0.07 and 0.08; -734 gives -800 (down) and -700 (up); 0 gives 0 |
| Axes.NiceExtent | index.js:47-50 | defined exactly for non-empty data, and the extent contains every value |
| Axes.NiceExtentTight | index.js:47-50 | the bounds enclose the data and each is a round number next to the matching end: zero for a zero end, otherwise m·10^k with k = Oom(\|end\|), integer 1 <= m <= 10, less than 10^k beyond the data |
| Axes.QuarterStops | index.js:52-54 | three stops, evenly spaced from lo to hi, the middle one at (lo+hi)/2, non-decreasing and inside [lo, hi] when lo <= hi |
| Axes.QuarterStopsExample | index.js:52-54 | the extent [0, 100] gives stops 25, 50, 75 |
| Rows.KeepPlottable | index.js:95 | the filter keeps only rows with numeric x and y and is no longer than its input |
| Rows.PlottableIndices | index.js:95 | the positions of the plottable rows: increasing, in range, plottable, and every plottable position is listed |
| Rows.KeepPlottableAppend | index.js:95 | filtering a concatenation is concatenating the filtered parts |
| Rows.KeepPlottableSelects | index.js:95 | the j-th kept row is the row at the j-th plottable position: exactly the plottable rows, in order |
| DistScatter.Round | dist/scatter.js:38-46 | for n >= 0, round(n, down) <= n <= round(n, up), the result is non-negative, and 0 iff n is 0 |
| DistScatter.RoundAgrees | dist/scatter.js:38-46 | on n >= 0 it equals the signed `round` of index.js |
| DistScatter.RoundShape | dist/scatter.js:41-44 | for n > 0 the result is m·10^k with k = Oom(n), integer 1 <= m <= 10, less than 10^k from n |
| DistScatter.NiceExtent | dist/scatter.js:48-51 | defined exactly for non-empty, non-negative data, and then the extent contains every value |
| DistScatter.NiceExtentTight | dist/scatter.js:48-51 | on non-negative data, each bound is zero for a zero end, otherwise m·10^k with k = Oom(end), integer 1 <= m <= 10, less than 10^k beyond the data |
| DistScatter.Resolve | dist/scatter.js:91-92 | `data.map(getX)` on filtered rows: one value per row, the accessor's number |
| DistScatter.DefaultAxis | dist/scatter.js:91-94 | the default axis exists iff its extent does; its extent is `NiceExtent` of the values and holds every value, and its stops are the quarter stops of the extent, all three inside it |
| DistScatter.Prepare | dist/scatter.js:89-94 | the retained rows are the filter's output; each default axis exists iff some row is retained and none of its values on that axis is negative, and then its extent is `NiceExtent` of the retained rows' values on that axis, holding every one of them, and its stops are the quarter stops of that extent |
| DistScatter.PrepareSelects | dist/scatter.js:89 | the rows `plot` keeps are exactly the plottable rows, in their original order |
| DistScatter.SpansPoint | dist/scatter.js:108-110 | the segment of a line between x1 and x2 passes through its point at any x between them |
| DistScatter.TrendSegment | dist/scatter.js:108-110 | the segment exists iff the fit does; its ends are on the fitted line at the least and the greatest x, and it passes through the centroid (mean xs, mean ys) |

## Left out

- DOM building and serialisation (JSDOM, D3Node, the `append`/`attr`/`style` chains, `outerHTML`): presentation through foreign libraries.
- d3 scales (`scaleLinear`, `scaleSqrt`): library behaviour. `d3.extent`, `d3.min` and `d3.max` are modelled directly as `Stats.Least` and `Stats.Greatest`.
- Axes.Oom: the `+ 0.00000001` added to the logarithm is a floating-point workaround. The model uses the exact order of magnitude, so it differs from the code just below a power of ten. There the code's order of magnitude is one too high: `round(999.99999)` computes `Math.floor(0.99999999) · 1000 = 0`. In that band the code returns 0 for a non-zero input, which breaks the "0 iff n is 0" and "1 <= m" properties that `Axes.Round`, `Axes.RoundShape` and `DistScatter.RoundShape` prove of the exact model.
- Stats.Sd, Stats.Pearson: `Math.sqrt` and `Math.pow` on floats are not modelled; `sqrt` is a parameter. The contract of `Sd` says only when it has a value (exactly for non-empty data), and that of `Pearson` only that a value needs non-empty data. With a true root, `Stats.SdIsPopulation` gives the value of `sd` and `Stats.LeastSquaresExists` gives exactly when the fit exists. The model does not prove that the slope is cov/var.
- Stats.Pearson, Stats.Slope: a zero denominator gives NaN or an infinity in JavaScript. The model gives `None` and does not separate the two.
- Numbers are exact reals, not IEEE doubles: no rounding error, no infinities, no overflow.
- `parseFloat` and `isNaN` on row fields: a resolved accessor value is an `Option<real>`. `isNaN` keeps `Infinity`, which the reals cannot represent. `isNaN` also coerces its argument, so a function accessor that returns `null`, `''`, `true` or a numeric string passes `!isNaN` and its row is kept; an `Option<real>` accessor cannot express such values.
- The default formatters (`parseInt(d*100) + '%'`), title splitting, and layout offsets such as `paddingBottom` and label `dy`: float-to-string conversion and presentational arithmetic.
- Voronoi cells, an r² annotation, trend-line clipping and inverse evaluation: neither file implements them.
- The rest of `plot` in index.js: it reads an undeclared `label` (index.js:91) and throws a ReferenceError before the filter at line 95. The filter is modelled as intended logic. The rest of the pipeline is modelled from dist/scatter.js.
- `plot` in dist/scatter.js computes `p1` and `p2` (lines 108-110) whether or not `fitLine` is set. With no plottable row, `pearson([], [])` calls `reduce(sum)` on `[]`, which throws a TypeError. So the `None` that `DistScatter.TrendSegment` gives there means that the whole `plot` call throws, even when no trend line is drawn. The model does not represent that exception.
- DistScatter.Prepare: only the default extent and stop policies are modelled. At dist/scatter.js:91-94, `xExtent`, `yExtent`, `xStops` and `yStops` may also be a literal array, used as given, or a caller's own function; those overrides are not modelled.
