/** Statistics helpers shared by index.js and dist/scatter.js: `sum`,
    `mean`, `sd`, `pearson` and the `leastSquares` closure, plus the
    minimum and maximum that d3.min / d3.max / d3.extent compute.
    Numbers are exact reals; `Math.sqrt` is a parameter. */
module Stats {
  import opened Wrappers
  import opened RealFacts

  /** Σ xs, the reference definition of a sum. */
  function Sum(xs: seq<real>): (s: real)
  {
    if |xs| == 0 then 0.0 else xs[0] + Sum(xs[1..])
  }

  /** The left fold `acc + xs[0] + xs[1] + ...` that `reduce(sum)` performs. */
  function FoldSum(acc: real, xs: seq<real>): (s: real)
    decreases |xs|
  {
    if |xs| == 0 then acc else FoldSum(acc + xs[0], xs[1..])
  }

  lemma {:induction false} FoldSumIsSum(acc: real, xs: seq<real>)
    ensures FoldSum(acc, xs) == acc + Sum(xs)
    decreases |xs|
  {
    if |xs| > 0 {
      FoldSumIsSum(acc + xs[0], xs[1..]);
    }
  }

  /** `xs.reduce(sum)` without a seed: the first element starts the fold,
      and an empty array throws a TypeError (None). */
  function Reduce(xs: seq<real>): (r: Option<real>)
    ensures r.Some? <==> |xs| > 0
    ensures r.Some? ==> r.value == Sum(xs)
  {
    if |xs| == 0 then None
    else
      FoldSumIsSum(xs[0], xs[1..]);
      Some(FoldSum(xs[0], xs[1..]))
  }

  /** `mean`: the reduced sum divided by the length; fails on an empty array. */
  function Mean(xs: seq<real>): (m: Option<real>)
    ensures m.Some? <==> |xs| > 0
    ensures m.Some? ==> m.value * |xs| as real == Sum(xs)
  {
    match Reduce(xs)
    case None => None
    case Some(s) => Some(s / |xs| as real)
  }

  /** The smallest value (d3.min over a non-empty array). */
  function Least(xs: seq<real>): (m: real)
    requires |xs| > 0
    ensures m in xs
    ensures forall i :: 0 <= i < |xs| ==> m <= xs[i]
  {
    if |xs| == 1 then xs[0]
    else
      var rest := Least(xs[1..]);
      if xs[0] <= rest then xs[0] else rest
  }

  /** The largest value (d3.max over a non-empty array). */
  function Greatest(xs: seq<real>): (m: real)
    requires |xs| > 0
    ensures m in xs
    ensures forall i :: 0 <= i < |xs| ==> xs[i] <= m
  {
    if |xs| == 1 then xs[0]
    else
      var rest := Greatest(xs[1..]);
      if rest <= xs[0] then xs[0] else rest
  }

  lemma {:induction false} SumBounds(xs: seq<real>, lo: real, hi: real)
    requires forall i :: 0 <= i < |xs| ==> lo <= xs[i] <= hi
    ensures |xs| as real * lo <= Sum(xs) <= |xs| as real * hi
  {
    if |xs| > 0 {
      assert forall i :: 0 <= i < |xs| - 1 ==> xs[1..][i] == xs[i + 1];
      SumBounds(xs[1..], lo, hi);
      BoundsStep(|xs[1..]| as real, |xs| as real, lo, hi, xs[0], Sum(xs[1..]));
    }
  }

  /** The mean of a non-empty array lies within any bounds of its values. */
  lemma MeanBetween(xs: seq<real>, lo: real, hi: real)
    requires |xs| > 0
    requires forall i :: 0 <= i < |xs| ==> lo <= xs[i] <= hi
    ensures lo <= Mean(xs).value <= hi
  {
    SumBounds(xs, lo, hi);
    DivideBounds(Sum(xs), |xs| as real, Mean(xs).value, lo, hi);
  }

  /** The mean of a non-empty array lies between its minimum and maximum. */
  lemma MeanWithinBounds(xs: seq<real>)
    requires |xs| > 0
    ensures Least(xs) <= Mean(xs).value <= Greatest(xs)
  {
    MeanBetween(xs, Least(xs), Greatest(xs));
  }

  /** `(x - mu) * (x - mu)` for every x, as `sd` and `pearson` map it. */
  function SquaredDeviations(xs: seq<real>, mu: real): (d: seq<real>)
    ensures |d| == |xs|
  {
    seq(|xs|, i requires 0 <= i < |xs| => (xs[i] - mu) * (xs[i] - mu))
  }

  /** A sum of non-negative values is non-negative. */
  lemma {:induction false} SumNonNegative(xs: seq<real>)
    requires forall i :: 0 <= i < |xs| ==> 0.0 <= xs[i]
    ensures 0.0 <= Sum(xs)
  {
    if |xs| > 0 {
      assert forall i :: 0 <= i < |xs| - 1 ==> xs[1..][i] == xs[i + 1];
      SumNonNegative(xs[1..]);
    }
  }

  lemma SquaredDeviationsNonNegative(xs: seq<real>, mu: real)
    ensures 0.0 <= Sum(SquaredDeviations(xs, mu))
  {
    var d := SquaredDeviations(xs, mu);
    forall i | 0 <= i < |d|
      ensures 0.0 <= d[i]
    {
      SquareNonNegative(xs[i] - mu);
    }
    SumNonNegative(d);
  }

  /** `(x - mean(xs)) * (ys[i] - mean(ys))` for every index of xs. */
  function CrossDeviations(xs: seq<real>, ys: seq<real>, mx: real, my: real): (d: seq<real>)
    requires |xs| == |ys|
    ensures |d| == |xs|
  {
    seq(|xs|, i requires 0 <= i < |xs| => (xs[i] - mx) * (ys[i] - my))
  }

  /** A function that is a square root on the non-negative reals. */
  ghost predicate IsSqrt(sqrt: real -> real)
  {
    forall v :: 0.0 <= v ==> 0.0 <= sqrt(v) && sqrt(v) * sqrt(v) == v
  }

  /** `sd`: population standard deviation, sqrt(1/n · Σ (x - mu)²). */
  function Sd(xs: seq<real>, sqrt: real -> real): (r: Option<real>)
    ensures r.Some? <==> |xs| > 0
  {
    if |xs| == 0 then None
    else
      var mu := Mean(xs).value;
      Some(sqrt(1.0 / |xs| as real * Reduce(SquaredDeviations(xs, mu)).value))
  }

  lemma RootSquared(sqrt: real -> real, v: real)
    requires IsSqrt(sqrt) && 0.0 <= v
    ensures 0.0 <= sqrt(v) && sqrt(v) * sqrt(v) == v
  {
  }

  /** The radicand of `sd`: 1/n · Σ (x - mu)², as the source computes it. */
  lemma SdSquared(xs: seq<real>, sqrt: real -> real)
    requires |xs| > 0
    requires var v := 1.0 / |xs| as real * Reduce(SquaredDeviations(xs, Mean(xs).value)).value;
             0.0 <= sqrt(v) && sqrt(v) * sqrt(v) == v
    ensures var s := Sd(xs, sqrt).value;
            0.0 <= s && s * s * |xs| as real == Sum(SquaredDeviations(xs, Mean(xs).value))
  {
    var v := 1.0 / |xs| as real * Reduce(SquaredDeviations(xs, Mean(xs).value)).value;
    assert Sd(xs, sqrt).value == sqrt(v);
    ScaleBack(sqrt(v), |xs| as real, Reduce(SquaredDeviations(xs, Mean(xs).value)).value);
  }

  /** With a true square root, sd² · n is the sum of squared deviations:
      the divisor is the count n (population), not n - 1. */
  lemma SdIsPopulation(xs: seq<real>, sqrt: real -> real)
    requires IsSqrt(sqrt)
    requires |xs| > 0
    ensures Sd(xs, sqrt).Some?
    ensures var s := Sd(xs, sqrt).value;
            0.0 <= s && s * s * |xs| as real == Sum(SquaredDeviations(xs, Mean(xs).value))
  {
    var ss := Reduce(SquaredDeviations(xs, Mean(xs).value)).value;
    SquaredDeviationsNonNegative(xs, Mean(xs).value);
    NonNegativeOverCount(|xs| as real, ss);
    RootSquared(sqrt, 1.0 / |xs| as real * ss);
    SdSquared(xs, sqrt);
  }

  /** `pearson`: Σ (x - mx)(y - my) / (sqrt(Σ (x - mx)²) · sqrt(Σ (y - my)²)).
      An empty array throws (None); a zero denominator gives NaN or an
      infinity in JavaScript (None). */
  function Pearson(xs: seq<real>, ys: seq<real>, sqrt: real -> real): (r: Option<real>)
    requires |xs| == |ys|
    ensures r.Some? ==> |xs| > 0
  {
    if |xs| == 0 then None
    else
      var mx := Mean(xs).value;
      var my := Mean(ys).value;
      var num := Reduce(CrossDeviations(xs, ys, mx, my)).value;
      var den := sqrt(Reduce(SquaredDeviations(xs, mx)).value) * sqrt(Reduce(SquaredDeviations(ys, my)).value);
      if den == 0.0 then None else Some(num / den)
  }

  /** The correlation does not depend on the order of its arguments. */
  lemma PearsonSymmetric(xs: seq<real>, ys: seq<real>, sqrt: real -> real)
    requires |xs| == |ys|
    ensures Pearson(xs, ys, sqrt) == Pearson(ys, xs, sqrt)
  {
    if |xs| > 0 {
      var mx, my := Mean(xs).value, Mean(ys).value;
      assert CrossDeviations(xs, ys, mx, my) == CrossDeviations(ys, xs, my, mx);
      var sx, sy := sqrt(Sum(SquaredDeviations(xs, mx))), sqrt(Sum(SquaredDeviations(ys, my)));
      assert sx * sy == sy * sx;
    }
  }

  /** A non-constant array is perfectly correlated with itself. */
  lemma PearsonSelf(xs: seq<real>, sqrt: real -> real)
    requires IsSqrt(sqrt)
    requires |xs| > 0 && Sum(SquaredDeviations(xs, Mean(xs).value)) != 0.0
    ensures Pearson(xs, xs, sqrt) == Some(1.0)
  {
    var d := SquaredDeviations(xs, Mean(xs).value);
    assert CrossDeviations(xs, xs, Mean(xs).value, Mean(xs).value) == d;
    SquaredDeviationsNonNegative(xs, Mean(xs).value);
    RootSquared(sqrt, Sum(d));
    Quotient(Sum(d), Sum(d), 1.0);
    assert Pearson(xs, xs, sqrt).value == Sum(d) / (sqrt(Sum(d)) * sqrt(Sum(d)));
  }

  /** A straight line `intercept + slope · x`. */
  datatype Line = Line(intercept: real, slope: real)
  {
    function At(x: real): real
    {
      intercept + slope * x
    }
  }

  /** The line of the given slope through (mean(xs), mean(ys)):
      `a = mean(ys) - b · mean(xs)`. */
  function LineWithSlope(xs: seq<real>, ys: seq<real>, b: real): (r: Option<Line>)
    ensures r.Some? <==> |xs| > 0 && |ys| > 0
    ensures r.Some? ==> r.value.slope == b && r.value.At(Mean(xs).value) == Mean(ys).value
  {
    match (Mean(xs), Mean(ys))
    case (Some(mx), Some(my)) => Some(Line(my - b * mx, b))
    case _ => None
  }

  /** The slope `pearson · sd(ys) / sd(xs)`; None where JavaScript gets NaN
      or an infinity. */
  function Slope(xs: seq<real>, ys: seq<real>, sqrt: real -> real): (r: Option<real>)
    requires |xs| == |ys|
    ensures r.Some? ==> |xs| > 0
  {
    match (Pearson(xs, ys, sqrt), Sd(ys, sqrt), Sd(xs, sqrt))
    case (Some(p), Some(sy), Some(sx)) => if sx == 0.0 then None else Some(p * sy / sx)
    case _ => None
  }

  /** `leastSquares(xVals, yVals)`: the fitted line; the closure evaluates
      it as `a + b · x`. Whatever the slope, the line passes through the
      centroid (mean(xs), mean(ys)). */
  function LeastSquares(xs: seq<real>, ys: seq<real>, sqrt: real -> real): (r: Option<Line>)
    requires |xs| == |ys|
    ensures r.Some? ==> |xs| > 0 && r.value.At(Mean(xs).value) == Mean(ys).value
  {
    match Slope(xs, ys, sqrt)
    case None => None
    case Some(b) => LineWithSlope(xs, ys, b)
  }

  /** A true square root is zero exactly at zero. */
  lemma RootZero(sqrt: real -> real, v: real)
    requires IsSqrt(sqrt) && 0.0 <= v
    ensures (sqrt(v) == 0.0) == (v == 0.0)
  {
    RootSquared(sqrt, v);
    if v == 0.0 {
      ZeroProduct(sqrt(v), sqrt(v));
    }
  }

  /** The fit exists exactly when neither sum of squared deviations is zero,
      given that the roots the source takes vanish only at zero. */
  lemma FitExistsFromRoots(xs: seq<real>, ys: seq<real>, sqrt: real -> real)
    requires |xs| == |ys| && |xs| > 0
    requires var sx := Reduce(SquaredDeviations(xs, Mean(xs).value)).value;
             var sy := Reduce(SquaredDeviations(ys, Mean(ys).value)).value;
             && (sqrt(sx) == 0.0) == (sx == 0.0)
             && (sqrt(sy) == 0.0) == (sy == 0.0)
             && (sqrt(1.0 / |xs| as real * sx) == 0.0) == (sx == 0.0)
    ensures LeastSquares(xs, ys, sqrt).Some? <==>
              && Sum(SquaredDeviations(xs, Mean(xs).value)) != 0.0
              && Sum(SquaredDeviations(ys, Mean(ys).value)) != 0.0
  {
    ProductZero(sqrt(Reduce(SquaredDeviations(xs, Mean(xs).value)).value),
                sqrt(Reduce(SquaredDeviations(ys, Mean(ys).value)).value));
    assert Pearson(xs, ys, sqrt).Some? ==
           (sqrt(Reduce(SquaredDeviations(xs, Mean(xs).value)).value)
            * sqrt(Reduce(SquaredDeviations(ys, Mean(ys).value)).value) != 0.0);
    assert Sd(xs, sqrt).value == sqrt(1.0 / |xs| as real * Reduce(SquaredDeviations(xs, Mean(xs).value)).value);
  }

  /** With a true square root, the fitted line exists exactly when both
      arrays vary: a constant x or a constant y leaves `pearson` or the
      slope without a value (NaN in JavaScript). */
  lemma LeastSquaresExists(xs: seq<real>, ys: seq<real>, sqrt: real -> real)
    requires IsSqrt(sqrt)
    requires |xs| == |ys| && |xs| > 0
    ensures LeastSquares(xs, ys, sqrt).Some? <==>
              && Sum(SquaredDeviations(xs, Mean(xs).value)) != 0.0
              && Sum(SquaredDeviations(ys, Mean(ys).value)) != 0.0
  {
    SquaredDeviationsNonNegative(xs, Mean(xs).value);
    SquaredDeviationsNonNegative(ys, Mean(ys).value);
    var n := |xs| as real;
    NonNegativeOverCount(n, Reduce(SquaredDeviations(xs, Mean(xs).value)).value);
    OverCountZero(n, Reduce(SquaredDeviations(xs, Mean(xs).value)).value);
    RootZero(sqrt, Reduce(SquaredDeviations(xs, Mean(xs).value)).value);
    RootZero(sqrt, Reduce(SquaredDeviations(ys, Mean(ys).value)).value);
    RootZero(sqrt, 1.0 / |xs| as real * Reduce(SquaredDeviations(xs, Mean(xs).value)).value);
    FitExistsFromRoots(xs, ys, sqrt);
  }

  /** Horizontal data gets no fit: with y constant, `pearson` is 0/0. */
  lemma HorizontalNoFit(sqrt: real -> real)
    requires IsSqrt(sqrt)
    ensures LeastSquares([1.0, 2.0, 3.0], [5.0, 5.0, 5.0], sqrt).None?
  {
    var ys := [5.0, 5.0, 5.0];
    assert Mean(ys) == Some(5.0);
    assert SquaredDeviations(ys, 5.0) == [0.0, 0.0, 0.0];
    assert Sum([0.0, 0.0, 0.0]) == 0.0;
    RootZero(sqrt, 0.0);
    assert CrossDeviations([1.0, 2.0, 3.0], ys, Mean([1.0, 2.0, 3.0]).value, 5.0) == [0.0, 0.0, 0.0];
  }

  /** With a true square root, sqrt(c² · v) == c · sqrt(v) for c, v >= 0. */
  lemma SqrtScale(sqrt: real -> real, c: real, v: real)
    requires IsSqrt(sqrt)
    requires 0.0 <= c && 0.0 <= v
    ensures sqrt(c * c * v) == c * sqrt(v)
  {
    var s := sqrt(v);
    NonNegProduct(c, c);
    NonNegProduct(c * c, v);
    RootSquared(sqrt, c * c * v);
    RootSquared(sqrt, v);
    NonNegProduct(c, s);
    assert (c * s) * (c * s) == c * c * (s * s);
    EqualSquares(sqrt(c * c * v), c * s);
  }

  lemma ExactLinePearson(sqrt: real -> real)
    requires IsSqrt(sqrt)
    ensures Pearson([1.0, 2.0, 3.0], [2.0, 4.0, 6.0], sqrt) == Some(1.0)
  {
    var xs, ys := [1.0, 2.0, 3.0], [2.0, 4.0, 6.0];
    assert Mean(xs) == Some(2.0);
    assert Mean(ys) == Some(4.0);
    assert SquaredDeviations(xs, 2.0) == [1.0, 0.0, 1.0];
    assert SquaredDeviations(ys, 4.0) == [4.0, 0.0, 4.0];
    assert CrossDeviations(xs, ys, 2.0, 4.0) == [2.0, 0.0, 2.0];
    assert Sum([1.0, 0.0, 1.0]) == 2.0;
    assert Sum([4.0, 0.0, 4.0]) == 8.0;
    assert Sum([2.0, 0.0, 2.0]) == 4.0;
    RootSquared(sqrt, 2.0);
    SqrtScale(sqrt, 2.0, 2.0);
    assert sqrt(2.0) * sqrt(8.0) == 4.0;
    assert Pearson(xs, ys, sqrt).value == 4.0 / (sqrt(2.0) * sqrt(8.0));
    Quotient(4.0, sqrt(2.0) * sqrt(8.0), 1.0);
  }

  lemma ExactLineSd(sqrt: real -> real)
    requires IsSqrt(sqrt)
    ensures Sd([1.0, 2.0, 3.0], sqrt).Some? && Sd([1.0, 2.0, 3.0], sqrt).value != 0.0
    ensures Sd([2.0, 4.0, 6.0], sqrt) == Some(2.0 * Sd([1.0, 2.0, 3.0], sqrt).value)
  {
    var xs, ys := [1.0, 2.0, 3.0], [2.0, 4.0, 6.0];
    assert Mean(xs) == Some(2.0);
    assert Mean(ys) == Some(4.0);
    assert SquaredDeviations(xs, 2.0) == [1.0, 0.0, 1.0];
    assert SquaredDeviations(ys, 4.0) == [4.0, 0.0, 4.0];
    assert Sum([1.0, 0.0, 1.0]) == 2.0;
    assert Sum([4.0, 0.0, 4.0]) == 8.0;
    RootSquared(sqrt, 1.0 / 3.0 * 2.0);
    SqrtScale(sqrt, 2.0, 1.0 / 3.0 * 2.0);
    assert Sd(xs, sqrt) == Some(sqrt(1.0 / 3.0 * 2.0));
    assert Sd(ys, sqrt) == Some(sqrt(1.0 / 3.0 * 8.0));
  }

  /** The points (1, 2), (2, 4), (3, 6) are fitted by slope 2, intercept 0. */
  lemma ExactLineFit(sqrt: real -> real)
    requires IsSqrt(sqrt)
    ensures LeastSquares([1.0, 2.0, 3.0], [2.0, 4.0, 6.0], sqrt) == Some(Line(0.0, 2.0))
  {
    var xs, ys := [1.0, 2.0, 3.0], [2.0, 4.0, 6.0];
    ExactLinePearson(sqrt);
    ExactLineSd(sqrt);
    var sx := Sd(xs, sqrt).value;
    assert Slope(xs, ys, sqrt).value == 1.0 * (2.0 * sx) / sx;
    Quotient(1.0 * (2.0 * sx), sx, 2.0);
    assert Mean(xs) == Some(2.0);
    assert Mean(ys) == Some(4.0);
  }
}
