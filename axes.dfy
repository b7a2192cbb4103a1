/** Axis helpers of index.js: order-of-magnitude rounding (`round`), the
    default extent policy (`niceExtent`) and the default gridline policy
    (`quarterStops`). The order of magnitude is exact: Oom(a) is the
    integer k with 10^k <= a < 10^(k+1). */
module Axes {
  import opened Wrappers
  import opened Stats
  import opened RealFacts

  /** 10^k for every integer k, negative ones included. */
  function Pow10(k: int): (p: real)
    ensures 0.0 < p
    decreases if k < 0 then -k else k
  {
    if k == 0 then 1.0
    else if k > 0 then 10.0 * Pow10(k - 1)
    else Pow10(k + 1) / 10.0
  }

  lemma Pow10Step(k: int)
    ensures Pow10(k + 1) == 10.0 * Pow10(k)
  {
  }

  /** Powers of ten grow with the exponent. */
  lemma {:induction false} Pow10Order(k: int, j: int)
    ensures k <= j ==> Pow10(k) <= Pow10(j)
    decreases if k <= j then j - k else 0
  {
    if k < j {
      Pow10Step(j - 1);
      Pow10Order(k, j - 1);
    }
  }

  lemma ReciprocalShrinks(a: real)
    requires 0.0 < a
    ensures 0.0 <= 1.0 / (a * 10.0)
    ensures a < 0.1 ==> 1.0 / (a * 10.0) <= 1.0 / a - 1.0
  {
    var u := 1.0 / a;
    assert u * a == 1.0;
    assert 1.0 / (a * 10.0) == u / 10.0;
  }

  /** The order of magnitude of a positive number: the exponent of the
      largest power of ten not above it. */
  function Oom(a: real): (k: int)
    requires 0.0 < a
    ensures Pow10(k) <= a < Pow10(k + 1)
    decreases if a < 1.0 then 1 else 0, if a < 1.0 then 1.0 / a else a
  {
    if 10.0 <= a then
      var k := Oom(a / 10.0);
      Pow10Step(k);
      Pow10Step(k + 1);
      k + 1
    else if 1.0 <= a then
      0
    else
      ReciprocalShrinks(a);
      var k := Oom(a * 10.0);
      Pow10Step(k - 1);
      k - 1
  }

  /** Oom(a) is the only exponent that brackets a. */
  lemma OomUnique(a: real, k: int)
    requires 0.0 < a && Pow10(k) <= a < Pow10(k + 1)
    ensures Oom(a) == k
  {
    var j := Oom(a);
    Pow10Order(j + 1, k);
    Pow10Order(k + 1, j);
  }

  function Abs(x: real): (r: real)
    ensures 0.0 <= r && (r == x || r == -x)
  {
    if x < 0.0 then -x else x
  }

  /** `Math.ceil`: the least integer not below x. */
  function Ceil(x: real): (c: int)
    ensures x <= c as real < x + 1.0
  {
    -((-x).Floor)
  }

  /** A magnitude between 10^k and 10^(k+1) has a leading digit from 1 to 9. */
  lemma Leading(a: real, p: real)
    requires 0.0 < p <= a < 10.0 * p
    ensures 1.0 <= a / p < 10.0 && a / p * p == a
  {
    var q := a / p;
    assert q * p == a;
    ScaleLt(q, 1.0, p);
    ScaleLe(10.0, q, p);
  }

  /** How m · p relates to a = q · p when the integer m is compared with q. */
  lemma Scaled(q: real, p: real, a: real, m: int)
    requires 0.0 < p && q * p == a
    ensures 1 <= m ==> p <= m as real * p
    ensures m as real <= q ==> m as real * p <= a
    ensures q <= m as real ==> a <= m as real * p
  {
    ScaleLe(m as real, q, p);
    ScaleLe(q, m as real, p);
    ScaleLe(1.0, m as real, p);
  }

  /** The leading digit q in [1, 10) taken down (`Math.floor`) or up
      (`Math.ceil`): an integer from 1 to 10 within 1 of q on the chosen
      side. */
  function Digit(q: real, floorIt: bool): (m: int)
    requires 1.0 <= q < 10.0
    ensures 1 <= m <= 10
    ensures floorIt ==> m as real <= q < m as real + 1.0
    ensures !floorIt ==> q <= m as real < q + 1.0
  {
    if floorIt then q.Floor else Ceil(q)
  }

  /** a snapped to a whole multiple of p, the unit of its leading digit:
      `Math.floor(a / p) * p` when `floorIt`, else `Math.ceil(a / p) * p`. */
  function SnapTo(a: real, p: real, floorIt: bool): (r: real)
    requires 0.0 < p <= a < 10.0 * p
    ensures floorIt ==> r <= a
    ensures !floorIt ==> a <= r
    ensures p <= r
  {
    Leading(a, p);
    var m := Digit(a / p, floorIt);
    Scaled(a / p, p, a, m);
    m as real * p
  }

  /** A whole multiple r = m · p with 1 <= m <= 10, less than p away from a,
      has the shape Round promises. */
  lemma WholeMultiple(r: real, a: real, p: real, m: int)
    requires 0.0 < p && r == m as real * p && 1 <= m <= 10
    requires (r <= a < r + p) || (a <= r < a + p)
    ensures var k := r / p;
            k == k.Floor as real && 1.0 <= k <= 10.0 && Abs(r - a) < p
  {
    MulDiv(m as real, p);
  }

  /** The snapped value is an integer from 1 to 10 times p, and it is less
      than p away from a. */
  lemma SnapToShape(a: real, p: real, floorIt: bool)
    requires 0.0 < p <= a < 10.0 * p
    ensures var m := SnapTo(a, p, floorIt) / p;
            m == m.Floor as real && 1.0 <= m <= 10.0 && Abs(SnapTo(a, p, floorIt) - a) < p
  {
    Leading(a, p);
    var q := a / p;
    var m := Digit(q, floorIt);
    var r := SnapTo(a, p, floorIt);
    assert r == m as real * p;
    if floorIt {
      GapBelow(q, p, a, m as real);
    } else {
      GapAbove(q, p, a, m as real);
    }
    WholeMultiple(r, a, p, m);
  }

  /** Lines 40-41 on the magnitude a: snapped at its own order of magnitude
      k, the result is an integer from 1 to 10 times 10^k, less than 10^k
      from a, on the chosen side of a. */
  function Snap(a: real, floorIt: bool): (r: real)
    requires 0.0 < a
    ensures floorIt ==> r <= a
    ensures !floorIt ==> a <= r
    ensures 0.0 < r
    ensures var p := Pow10(Oom(a));
            var m := r / p;
            m == m.Floor as real && 1.0 <= m <= 10.0 && Abs(r - a) < p
  {
    Pow10Step(Oom(a));
    SnapToShape(a, Pow10(Oom(a)), floorIt);
    SnapTo(a, Pow10(Oom(a)), floorIt)
  }

  /** `round(n, down)` of index.js: zero stays zero; otherwise the magnitude
      is snapped (down for a positive n rounded down or a negative n rounded
      up, else up) and the sign is restored. The result is a signed floor
      (down) or ceiling (up) at the order of magnitude of |n|. */
  function Round(n: real, down: bool): (r: real)
    ensures down ==> r <= n
    ensures !down ==> n <= r
    ensures (r == 0.0) == (n == 0.0)
    ensures (r < 0.0) == (n < 0.0)
  {
    if n == 0.0 then 0.0
    else
      var r := Snap(Abs(n), (down && n > 0.0) || (!down && n < 0.0));
      if n < 0.0 then -1.0 * r else r
  }

  /** Rounding the negation in one direction is negating the rounding in
      the other. */
  lemma RoundNegate(n: real, down: bool)
    ensures Round(-n, down) == -Round(n, !down)
  {
  }

  /** A non-zero result is m · 10^k with k the order of magnitude of |n| and
      m an integer from 1 to 10, and it is less than 10^k away from n. */
  lemma RoundShape(n: real, down: bool)
    requires n != 0.0
    ensures var p := Pow10(Oom(Abs(n)));
            var m := Abs(Round(n, down)) / p;
            m == m.Floor as real && 1.0 <= m <= 10.0 && Abs(Round(n, down) - n) < p
  {
    var a := Abs(n);
    Pow10Step(Oom(a));
    SnapToShape(a, Pow10(Oom(a)), (down && n > 0.0) || (!down && n < 0.0));
  }

  /** The worked cases: 734 and 0.0734 both ways, a negative value and zero. */
  lemma RoundExamples()
    ensures Round(734.0, true) == 700.0 && Round(734.0, false) == 800.0
    ensures Round(0.0734, true) == 0.07 && Round(0.0734, false) == 0.08
    ensures Round(-734.0, true) == -800.0 && Round(-734.0, false) == -700.0
    ensures Round(0.0, true) == 0.0 && Round(0.0, false) == 0.0
  {
    assert Pow10(2) == 100.0 && Pow10(3) == 1000.0;
    OomUnique(734.0, 2);
    assert Pow10(-2) == 0.01 && Pow10(-1) == 0.1;
    OomUnique(0.0734, -2);
    assert (734.0 / 100.0).Floor == 7 && Ceil(734.0 / 100.0) == 8;
    assert (0.0734 / 0.01).Floor == 7 && Ceil(0.0734 / 0.01) == 8;
  }

  /** An axis domain `[lo, hi]`. */
  datatype Extent = Extent(lo: real, hi: real)

  /** `niceExtent`: the data's minimum rounded down and maximum rounded up.
      An empty array has no extent (d3.extent gives undefined bounds and
      `round` turns them into NaN). */
  function NiceExtent(xs: seq<real>): (e: Option<Extent>)
    ensures e.Some? <==> |xs| > 0
    ensures e.Some? ==> forall i :: 0 <= i < |xs| ==> e.value.lo <= xs[i] <= e.value.hi
  {
    if |xs| == 0 then None
    else Some(Extent(Round(Least(xs), true), Round(Greatest(xs), false)))
  }

  /** Each bound of the extent is a round number next to the data: for a
      non-zero end value v, the bound is m · 10^k with k the order of
      magnitude of |v| and m an integer from 1 to 10, less than 10^k beyond
      v; a zero end value gives a zero bound. */
  lemma NiceExtentTight(xs: seq<real>)
    requires |xs| > 0
    ensures var e := NiceExtent(xs).value;
            var lo, hi := Least(xs), Greatest(xs);
            && e.lo <= lo && hi <= e.hi
            && (lo == 0.0 ==> e.lo == 0.0)
            && (hi == 0.0 ==> e.hi == 0.0)
            && (lo != 0.0 ==>
                  var p := Pow10(Oom(Abs(lo)));
                  var m := Abs(e.lo) / p;
                  m == m.Floor as real && 1.0 <= m <= 10.0 && lo - e.lo < p)
            && (hi != 0.0 ==>
                  var p := Pow10(Oom(Abs(hi)));
                  var m := Abs(e.hi) / p;
                  m == m.Floor as real && 1.0 <= m <= 10.0 && e.hi - hi < p)
  {
    if Least(xs) != 0.0 {
      RoundShape(Least(xs), true);
    }
    if Greatest(xs) != 0.0 {
      RoundShape(Greatest(xs), false);
    }
  }

  const Quarters: seq<real> := [0.25, 0.5, 0.75]

  /** `quarterStops`: the points a quarter, half and three quarters of the
      way across the extent. */
  function QuarterStops(e: Extent): (stops: seq<real>)
    ensures |stops| == 3
    ensures stops[1] == (e.lo + e.hi) / 2.0
    ensures stops[0] - e.lo == stops[1] - stops[0] == stops[2] - stops[1] == e.hi - stops[2]
    ensures e.lo <= e.hi ==> e.lo <= stops[0] <= stops[1] <= stops[2] <= e.hi
  {
    seq(3, j requires 0 <= j < 3 => e.lo + Quarters[j] * (e.hi - e.lo))
  }

  lemma QuarterStopsExample()
    ensures QuarterStops(Extent(0.0, 100.0)) == [25.0, 50.0, 75.0]
  {
  }
}
