/**
  Rate/quality curve utilities of `ladder.py`: piecewise-linear interpolation of
  rate at a given quality (`_rate_at_quality`) and the Bjøntegaard-delta rate
  between two curves (`bd_rate`).

  Python floats are modelled as reals. `math.log` and `math.exp` are passed in
  as the parameters `ln` and `exp`: the model assumes nothing about them except
  where a lemma says so (`exp(0.0) == 1.0` for the identity lemma).
  `math.isclose(q1, q2)` is modelled as `q1 == q2`.
*/
module RateCurve {
  import opened Common

  /** A Python 2-tuple of numbers: `(bitrate, quality)` on input, `(quality, bitrate)` once sorted. */
  type Pair = (real, real)

  /** Python's `<=` on 2-tuples of numbers. */
  predicate PairLe(x: Pair, y: Pair)
  {
    x.0 < y.0 || (x.0 == y.0 && x.1 <= y.1)
  }

  /** Each pair is `<=` the next one. */
  predicate SortedPairs(s: seq<Pair>)
  {
    forall i | 0 < i < |s| :: PairLe(s[i - 1], s[i])
  }

  function InsertPair(x: Pair, s: seq<Pair>): (r: seq<Pair>)
    requires SortedPairs(s)
    ensures SortedPairs(r)
    ensures multiset(r) == multiset(s) + multiset{x}
    ensures |r| == |s| + 1 && (r[0] == x || (s != [] && r[0] == s[0]))
  {
    if s == [] || PairLe(x, s[0]) then [x] + s
    else
      var rest := InsertPair(x, s[1..]);
      assert s == [s[0]] + s[1..];
      [s[0]] + rest
  }

  /** Python's `sorted(...)` on a list of 2-tuples: ascending and a permutation of the input. */
  function SortPairs(s: seq<Pair>): (r: seq<Pair>)
    ensures SortedPairs(r)
    ensures multiset(r) == multiset(s)
    ensures |r| == |s|
  {
    if s == [] then []
    else
      assert s == [s[0]] + s[1..];
      InsertPair(s[0], SortPairs(s[1..]))
  }

  /** In a sorted list the first component never decreases from index `i` to index `j`. */
  lemma {:induction false} SortedQualityMonotone(s: seq<Pair>, i: nat, j: nat)
    requires SortedPairs(s) && i <= j < |s|
    ensures s[i].0 <= s[j].0
    decreases j - i
  {
    if i < j {
      SortedQualityMonotone(s, i, j - 1);
    }
  }

  /** `[(quality, bitrate) for bitrate, quality in curve]`. */
  function Swapped(curve: seq<Pair>): (r: seq<Pair>)
    ensures |r| == |curve|
    ensures forall i | 0 <= i < |curve| :: r[i] == (curve[i].1, curve[i].0)
  {
    seq(|curve|, i requires 0 <= i < |curve| => (curve[i].1, curve[i].0))
  }

  /** `sorted((quality, bitrate) for bitrate, quality in curve)`: the curve ordered by quality. */
  function QualityOrder(curve: seq<Pair>): (r: seq<Pair>)
    ensures SortedPairs(r) && |r| == |curve|
    ensures multiset(r) == multiset(Swapped(curve))
  {
    SortPairs(Swapped(curve))
  }

  function RMax(a: real, b: real): real { if a >= b then a else b }
  function RMin(a: real, b: real): real { if a <= b then a else b }

  /** Rate on the segment from `(q1, r1)` to `(q2, r2)` at quality `q`; the larger rate if `q1 == q2`. */
  function Interpolate(q1: real, r1: real, q2: real, r2: real, q: real): real
    requires q1 <= q <= q2
  {
    if q1 == q2 then RMax(r1, r2)
    else r1 + (q - q1) / (q2 - q1) * (r2 - r1)
  }

  /** The interpolated rate lies between the two bracketing rates. */
  lemma InterpolateBetween(q1: real, r1: real, q2: real, r2: real, q: real)
    requires q1 <= q <= q2
    ensures RMin(r1, r2) <= Interpolate(q1, r1, q2, r2, q) <= RMax(r1, r2)
  {
    if q1 != q2 {
      var t := (q - q1) / (q2 - q1);
      FractionInUnit(q - q1, q2 - q1);
      var d := r2 - r1;
      if d >= 0.0 {
        ScaleWithin(t, d);
      } else {
        ScaleWithin(t, -d);
        assert t * d == -(t * (-d));
      }
    }
  }

  lemma FractionInUnit(n: real, d: real)
    requires 0.0 <= n <= d && d > 0.0
    ensures 0.0 <= n / d <= 1.0
  {
    assert (n / d) * d == n;
  }

  lemma ScaleWithin(t: real, d: real)
    requires 0.0 <= t <= 1.0 && d >= 0.0
    ensures 0.0 <= t * d <= d
  {
    assert (1.0 - t) * d >= 0.0;
  }

  /** The `for idx in range(1, len(points))` scan of `_rate_at_quality`, from `idx` on. */
  function ScanBrackets(points: seq<Pair>, quality: real, idx: nat): real
    requires 1 <= idx <= |points|
    decreases |points| - idx
  {
    if idx == |points| then points[|points| - 1].1
    else if points[idx - 1].0 <= quality <= points[idx].0 then
      Interpolate(points[idx - 1].0, points[idx - 1].1, points[idx].0, points[idx].1, quality)
    else ScanBrackets(points, quality, idx + 1)
  }

  /** `_rate_at_quality(points, quality)` on `(quality, rate)` pairs. */
  function RateAt(points: seq<Pair>, quality: real): real
    requires |points| >= 1
  {
    if quality <= points[0].0 then points[0].1
    else if quality >= points[|points| - 1].0 then points[|points| - 1].1
    else ScanBrackets(points, quality, 1)
  }

  /** Every rate of `points` lies in `[lo, hi]`. */
  predicate RatesWithin(points: seq<Pair>, lo: real, hi: real)
  {
    forall i | 0 <= i < |points| :: lo <= points[i].1 <= hi
  }

  lemma {:induction false} ScanBracketsWithin(points: seq<Pair>, quality: real, idx: nat, lo: real, hi: real)
    requires 1 <= idx <= |points|
    requires RatesWithin(points, lo, hi)
    ensures lo <= ScanBrackets(points, quality, idx) <= hi
    decreases |points| - idx
  {
    if idx < |points| {
      if points[idx - 1].0 <= quality <= points[idx].0 {
        InterpolateBetween(points[idx - 1].0, points[idx - 1].1, points[idx].0, points[idx].1, quality);
      } else {
        ScanBracketsWithin(points, quality, idx + 1, lo, hi);
      }
    }
  }

  /** Interpolation never leaves the range of the curve's own rates. */
  lemma RateAtWithin(points: seq<Pair>, quality: real, lo: real, hi: real)
    requires |points| >= 1
    requires RatesWithin(points, lo, hi)
    ensures lo <= RateAt(points, quality) <= hi
  {
    if points[0].0 < quality < points[|points| - 1].0 {
      ScanBracketsWithin(points, quality, 1, lo, hi);
    }
  }

  lemma {:induction false} ScanFindsBracket(points: seq<Pair>, quality: real, idx: nat)
    requires 1 <= idx < |points|
    requires points[idx - 1].0 <= quality < points[|points| - 1].0
    ensures exists k | idx <= k < |points| ::
      && points[k - 1].0 <= quality <= points[k].0
      && ScanBrackets(points, quality, idx) == Interpolate(points[k - 1].0, points[k - 1].1, points[k].0, points[k].1, quality)
    decreases |points| - idx
  {
    if !(quality <= points[idx].0) {
      ScanFindsBracket(points, quality, idx + 1);
    }
  }

  /**
    Strictly inside its quality range the curve is interpolated between two
    consecutive samples that bracket the query (whether or not the samples are
    sorted), so the final `return points[-1][1]` of the scan is never reached;
    outside that range the first or the last rate is returned.
  */
  lemma RateAtBrackets(points: seq<Pair>, quality: real)
    requires |points| >= 1
    ensures quality <= points[0].0 ==> RateAt(points, quality) == points[0].1
    ensures points[0].0 < quality && points[|points| - 1].0 <= quality ==>
      RateAt(points, quality) == points[|points| - 1].1
    ensures points[0].0 < quality < points[|points| - 1].0 ==>
      exists k | 1 <= k < |points| ::
        && points[k - 1].0 <= quality <= points[k].0
        && RateAt(points, quality) == Interpolate(points[k - 1].0, points[k - 1].1, points[k].0, points[k].1, quality)
  {
    if points[0].0 < quality < points[|points| - 1].0 {
      ScanFindsBracket(points, quality, 1);
    }
  }

  /** `_rate_at_quality`: the loop with early returns, proved to compute `RateAt`. */
  method RateAtQuality(points: seq<Pair>, quality: real) returns (rate: real)
    requires |points| >= 1
    ensures rate == RateAt(points, quality)
  {
    if quality <= points[0].0 {
      return points[0].1;
    }
    if quality >= points[|points| - 1].0 {
      return points[|points| - 1].1;
    }
    var idx := 1;
    while idx < |points|
      invariant 1 <= idx <= |points|
      invariant ScanBrackets(points, quality, idx) == RateAt(points, quality)
    {
      var (q1, r1) := points[idx - 1];
      var (q2, r2) := points[idx];
      if q1 <= quality <= q2 {
        if q1 == q2 {
          return RMax(r1, r2);
        }
        var ratio := (quality - q1) / (q2 - q1);
        return r1 + ratio * (r2 - r1);
      }
      idx := idx + 1;
    }
    return points[|points| - 1].1;
  }

  /** Quality of evaluation point `idx`: `q_min + idx * step`. */
  function SampleQuality(qMin: real, step: real, idx: nat): real
  {
    qMin + idx as real * step
  }

  /** Trapezoid weight of evaluation point `idx` out of `samples + 1`. */
  function Weight(idx: nat, samples: nat): real
  {
    if idx == 0 || idx == samples then 0.5 else 1.0
  }

  /**
    The accumulation loop of `bd_rate` from evaluation point `idx` on, with
    `acc` accumulated so far; `None` as soon as an interpolated rate is not positive.
  */
  function Accumulate(aq: seq<Pair>, bq: seq<Pair>, qMin: real, step: real, samples: nat,
                      idx: nat, acc: real, ln: real -> real): Option<real>
    requires |aq| >= 1 && |bq| >= 1 && idx <= samples + 1
    decreases samples + 1 - idx
  {
    if idx == samples + 1 then Some(acc)
    else
      var quality := SampleQuality(qMin, step, idx);
      var rateA := RateAt(aq, quality);
      var rateB := RateAt(bq, quality);
      if rateA <= 0.0 || rateB <= 0.0 then None
      else Accumulate(aq, bq, qMin, step, samples, idx + 1,
                      acc + (ln(rateA) - ln(rateB)) * Weight(idx, samples), ln)
  }

  /** Lowest quality both curves reach. */
  function OverlapMin(aq: seq<Pair>, bq: seq<Pair>): real
    requires |aq| >= 1 && |bq| >= 1
  {
    RMax(aq[0].0, bq[0].0)
  }

  /** Highest quality both curves reach. */
  function OverlapMax(aq: seq<Pair>, bq: seq<Pair>): real
    requires |aq| >= 1 && |bq| >= 1
  {
    RMin(aq[|aq| - 1].0, bq[|bq| - 1].0)
  }

  /**
    `bd_rate(curve_a, curve_b, samples)` on `(bitrate, quality)` curves: the
    percentage rate change of A against B at matched quality, or `None`.
  */
  function BdRateOf(curveA: seq<Pair>, curveB: seq<Pair>, samples: nat,
                    ln: real -> real, exp: real -> real): Option<real>
    requires samples > 0
  {
    if |curveA| < 2 || |curveB| < 2 then None
    else BdRateOrdered(QualityOrder(curveA), QualityOrder(curveB), samples, ln, exp)
  }

  /** The BD-rate of two curves already listed as `(quality, bitrate)` in quality order. */
  function BdRateOrdered(aq: seq<Pair>, bq: seq<Pair>, samples: nat,
                         ln: real -> real, exp: real -> real): Option<real>
    requires samples > 0 && |aq| >= 1 && |bq| >= 1
  {
    var qMin := OverlapMin(aq, bq);
    var qMax := OverlapMax(aq, bq);
    if qMax <= qMin then None
    else
      match Accumulate(aq, bq, qMin, (qMax - qMin) / samples as real, samples, 0, 0.0, ln)
      case None => None
      case Some(acc) => Some((exp(acc / samples as real) - 1.0) * 100.0)
  }

  /** Every evaluation point from `idx` on has a positive rate on both curves. */
  predicate PositiveFrom(aq: seq<Pair>, bq: seq<Pair>, qMin: real, step: real, samples: nat, idx: nat)
    requires |aq| >= 1 && |bq| >= 1
  {
    forall k | idx <= k <= samples ::
      RateAt(aq, SampleQuality(qMin, step, k)) > 0.0 && RateAt(bq, SampleQuality(qMin, step, k)) > 0.0
  }

  lemma {:induction false} AccumulateDefined(aq: seq<Pair>, bq: seq<Pair>, qMin: real, step: real,
                                             samples: nat, idx: nat, acc: real, ln: real -> real)
    requires |aq| >= 1 && |bq| >= 1 && idx <= samples + 1
    ensures Accumulate(aq, bq, qMin, step, samples, idx, acc, ln).Some?
            <==> PositiveFrom(aq, bq, qMin, step, samples, idx)
    decreases samples + 1 - idx
  {
    if idx <= samples {
      var quality := SampleQuality(qMin, step, idx);
      var rateA := RateAt(aq, quality);
      var rateB := RateAt(bq, quality);
      if rateA > 0.0 && rateB > 0.0 {
        AccumulateDefined(aq, bq, qMin, step, samples, idx + 1,
                          acc + (ln(rateA) - ln(rateB)) * Weight(idx, samples), ln);
      }
    }
  }

  /**
    `bd_rate` is defined exactly when both curves have at least two points,
    their quality ranges overlap in more than one value, and every one of the
    `samples + 1` interpolated rates is positive on both curves.
  */
  lemma BdRateDefined(curveA: seq<Pair>, curveB: seq<Pair>, samples: nat,
                      ln: real -> real, exp: real -> real)
    requires samples > 0
    ensures BdRateOf(curveA, curveB, samples, ln, exp).Some? <==>
      && |curveA| >= 2 && |curveB| >= 2
      && var aq := QualityOrder(curveA);
         var bq := QualityOrder(curveB);
         var qMin := OverlapMin(aq, bq);
         var qMax := OverlapMax(aq, bq);
         && qMin < qMax
         && PositiveFrom(aq, bq, qMin, (qMax - qMin) / samples as real, samples, 0)
  {
    if |curveA| >= 2 && |curveB| >= 2 {
      var aq := QualityOrder(curveA);
      var bq := QualityOrder(curveB);
      var qMin := OverlapMin(aq, bq);
      var qMax := OverlapMax(aq, bq);
      AccumulateDefined(aq, bq, qMin, (qMax - qMin) / samples as real, samples, 0, 0.0, ln);
    }
  }

  /** Sorting by quality puts the least quality first and the greatest last. */
  lemma QualityOrderEnds(curve: seq<Pair>, i: nat)
    requires i < |curve|
    ensures QualityOrder(curve)[0].0 <= curve[i].1 <= QualityOrder(curve)[|curve| - 1].0
  {
    var q := QualityOrder(curve);
    assert Swapped(curve)[i] == (curve[i].1, curve[i].0);
    assert (curve[i].1, curve[i].0) in multiset(q);
    var k :| 0 <= k < |q| && q[k] == (curve[i].1, curve[i].0);
    SortedQualityMonotone(q, 0, k);
    SortedQualityMonotone(q, k, |q| - 1);
  }

  /** Sorting by quality keeps the rates of the curve, so positive rates stay positive. */
  lemma QualityOrderPositive(curve: seq<Pair>)
    requires forall i | 0 <= i < |curve| :: curve[i].0 > 0.0
    ensures forall k | 0 <= k < |curve| :: QualityOrder(curve)[k].1 > 0.0
  {
    var q := QualityOrder(curve);
    forall k | 0 <= k < |q| ensures q[k].1 > 0.0 {
      assert q[k] in multiset(Swapped(curve));
      var i :| 0 <= i < |curve| && Swapped(curve)[i] == q[k];
    }
  }

  /** The smallest rate of a non-empty `(quality, rate)` curve. */
  function LeastRate(points: seq<Pair>): (m: real)
    requires |points| >= 1
    ensures forall i | 0 <= i < |points| :: m <= points[i].1
    ensures exists i | 0 <= i < |points| :: m == points[i].1
  {
    if |points| == 1 then points[0].1
    else
      var rest := LeastRate(points[1..]);
      assert forall i | 1 <= i < |points| :: points[i] == points[1..][i - 1];
      RMin(points[0].1, rest)
  }

  /** The largest rate of a non-empty `(quality, rate)` curve. */
  function GreatestRate(points: seq<Pair>): (m: real)
    requires |points| >= 1
    ensures forall i | 0 <= i < |points| :: points[i].1 <= m
  {
    if |points| == 1 then points[0].1
    else
      var rest := GreatestRate(points[1..]);
      assert forall i | 1 <= i < |points| :: points[i] == points[1..][i - 1];
      RMax(points[0].1, rest)
  }

  lemma {:induction false} AccumulateSame(aq: seq<Pair>, qMin: real, step: real, samples: nat,
                                          idx: nat, ln: real -> real)
    requires |aq| >= 1 && idx <= samples + 1 && LeastRate(aq) > 0.0
    ensures Accumulate(aq, aq, qMin, step, samples, idx, 0.0, ln) == Some(0.0)
    decreases samples + 1 - idx
  {
    if idx <= samples {
      RateAtWithin(aq, SampleQuality(qMin, step, idx), LeastRate(aq), GreatestRate(aq));
      AccumulateSame(aq, qMin, step, samples, idx + 1, ln);
    }
  }

  /**
    `bd_rate(c, c) == 0` for a curve with positive rates and at least two
    distinct qualities, given only `exp(0) == 1`.
  */
  lemma BdRateIdentity(curve: seq<Pair>, samples: nat, ln: real -> real, exp: real -> real, i: nat, j: nat)
    requires samples > 0
    requires forall k | 0 <= k < |curve| :: curve[k].0 > 0.0
    requires i < |curve| && j < |curve| && curve[i].1 != curve[j].1
    requires exp(0.0) == 1.0
    ensures BdRateOf(curve, curve, samples, ln, exp) == Some(0.0)
  {
    SelfOverlap(curve, i, j);
    LeastRatePositive(curve);
    BdRateOfSelf(curve, samples, ln, exp);
    assert 0.0 / samples as real == 0.0;
  }

  /** Sampling an ordered curve against itself over the whole overlap sums to zero. */
  lemma SelfAccumulate(q: seq<Pair>, samples: nat, ln: real -> real)
    requires samples > 0 && |q| >= 1 && LeastRate(q) > 0.0
    ensures Accumulate(q, q, OverlapMin(q, q), (OverlapMax(q, q) - OverlapMin(q, q)) / samples as real,
                       samples, 0, 0.0, ln) == Some(0.0)
  {
    AccumulateSame(q, OverlapMin(q, q), (OverlapMax(q, q) - OverlapMin(q, q)) / samples as real, samples, 0, ln);
  }

  /** A curve whose rates are all positive has a positive least rate. */
  lemma LeastRatePositive(curve: seq<Pair>)
    requires |curve| >= 1 && forall k | 0 <= k < |curve| :: curve[k].0 > 0.0
    ensures LeastRate(QualityOrder(curve)) > 0.0
  {
    QualityOrderPositive(curve);
  }

  /** A curve that overlaps itself on a range of positive width has the BD-rate of a zero log-rate sum. */
  lemma BdRateOfSelf(curve: seq<Pair>, samples: nat, ln: real -> real, exp: real -> real)
    requires samples > 0 && |curve| >= 2
    requires var q := QualityOrder(curve); OverlapMin(q, q) < OverlapMax(q, q) && LeastRate(q) > 0.0
    ensures BdRateOf(curve, curve, samples, ln, exp) == Some((exp(0.0 / samples as real) - 1.0) * 100.0)
  {
    BdRateOrderedSelf(QualityOrder(curve), samples, ln, exp);
  }

  lemma BdRateOrderedSelf(q: seq<Pair>, samples: nat, ln: real -> real, exp: real -> real)
    requires samples > 0 && |q| >= 1
    requires OverlapMin(q, q) < OverlapMax(q, q) && LeastRate(q) > 0.0
    ensures BdRateOrdered(q, q, samples, ln, exp) == Some((exp(0.0 / samples as real) - 1.0) * 100.0)
  {
    SelfAccumulate(q, samples, ln);
    BdRateOrderedSum(q, q, samples, ln, exp, 0.0);
  }

  /** Over an overlap of positive width, the BD-rate is read off the log-rate sum. */
  lemma BdRateOrderedSum(aq: seq<Pair>, bq: seq<Pair>, samples: nat, ln: real -> real, exp: real -> real, acc: real)
    requires samples > 0 && |aq| >= 1 && |bq| >= 1
    requires OverlapMin(aq, bq) < OverlapMax(aq, bq)
    requires Accumulate(aq, bq, OverlapMin(aq, bq), (OverlapMax(aq, bq) - OverlapMin(aq, bq)) / samples as real,
                        samples, 0, 0.0, ln) == Some(acc)
    ensures BdRateOrdered(aq, bq, samples, ln, exp) == Some((exp(acc / samples as real) - 1.0) * 100.0)
  {
  }

  /** A curve with two distinct qualities overlaps itself on a range of positive width. */
  lemma SelfOverlap(curve: seq<Pair>, i: nat, j: nat)
    requires i < |curve| && j < |curve| && curve[i].1 != curve[j].1
    ensures |curve| >= 2
    ensures OverlapMin(QualityOrder(curve), QualityOrder(curve)) < OverlapMax(QualityOrder(curve), QualityOrder(curve))
  {
    QualityOrderEnds(curve, i);
    QualityOrderEnds(curve, j);
  }

  /** Curves whose quality ranges do not overlap, in either order, have no BD-rate. */
  lemma BdRateDisjoint(curveA: seq<Pair>, curveB: seq<Pair>, samples: nat, ln: real -> real, exp: real -> real)
    requires samples > 0
    requires || (forall i, j | 0 <= i < |curveA| && 0 <= j < |curveB| :: curveA[i].1 <= curveB[j].1)
             || (forall i, j | 0 <= i < |curveA| && 0 <= j < |curveB| :: curveB[j].1 <= curveA[i].1)
    ensures BdRateOf(curveA, curveB, samples, ln, exp) == None
  {
    if forall i, j | 0 <= i < |curveA| && 0 <= j < |curveB| :: curveA[i].1 <= curveB[j].1 {
      BdRateBelow(curveA, curveB, samples, ln, exp);
    } else {
      BdRateAbove(curveA, curveB, samples, ln, exp);
    }
  }

  /** `curveA` lies wholly at or below `curveB`: the overlap is empty. */
  lemma BdRateBelow(curveA: seq<Pair>, curveB: seq<Pair>, samples: nat, ln: real -> real, exp: real -> real)
    requires samples > 0
    requires forall i, j | 0 <= i < |curveA| && 0 <= j < |curveB| :: curveA[i].1 <= curveB[j].1
    ensures BdRateOf(curveA, curveB, samples, ln, exp) == None
  {
    if |curveA| >= 2 && |curveB| >= 2 {
      QualityOrderAttained(curveA, |curveA| - 1);
      QualityOrderAttained(curveB, 0);
    }
  }

  /** `curveA` lies wholly at or above `curveB`: the overlap is empty. */
  lemma BdRateAbove(curveA: seq<Pair>, curveB: seq<Pair>, samples: nat, ln: real -> real, exp: real -> real)
    requires samples > 0
    requires forall i, j | 0 <= i < |curveA| && 0 <= j < |curveB| :: curveB[j].1 <= curveA[i].1
    ensures BdRateOf(curveA, curveB, samples, ln, exp) == None
  {
    if |curveA| >= 2 && |curveB| >= 2 {
      QualityOrderAttained(curveA, 0);
      QualityOrderAttained(curveB, |curveB| - 1);
    }
  }

  /** Every quality of the ordered curve is the quality of some point of the curve. */
  lemma QualityOrderAttained(curve: seq<Pair>, k: nat)
    requires k < |curve|
    ensures exists i | 0 <= i < |curve| :: QualityOrder(curve)[k].0 == curve[i].1
  {
    var q := QualityOrder(curve);
    assert q[k] in multiset(Swapped(curve));
    var i :| 0 <= i < |curve| && Swapped(curve)[i] == q[k];
    assert q[k].0 == curve[i].1;
  }

  /**
    The `for idx in range(samples + 1)` loop of `bd_rate`: the trapezoid-weighted
    sum of log-rate differences, or `None` at the first non-positive rate.
  */
  method AccumulateLogDelta(aq: seq<Pair>, bq: seq<Pair>, qMin: real, step: real, samples: nat,
                            ln: real -> real) returns (total: Option<real>)
    requires |aq| >= 1 && |bq| >= 1
    ensures total == Accumulate(aq, bq, qMin, step, samples, 0, 0.0, ln)
  {
    var acc := 0.0;
    var idx := 0;
    while idx < samples + 1
      invariant 0 <= idx <= samples + 1
      invariant Accumulate(aq, bq, qMin, step, samples, idx, acc, ln)
                == Accumulate(aq, bq, qMin, step, samples, 0, 0.0, ln)
    {
      var quality := qMin + idx as real * step;
      assert quality == SampleQuality(qMin, step, idx);
      var rateA := RateAtQuality(aq, quality);
      var rateB := RateAtQuality(bq, quality);
      if rateA <= 0.0 || rateB <= 0.0 {
        return None;
      }
      var delta := ln(rateA) - ln(rateB);
      var weight := if idx == 0 || idx == samples then 0.5 else 1.0;
      assert weight == Weight(idx, samples);
      acc := acc + delta * weight;
      idx := idx + 1;
    }
    return Some(acc);
  }

  /** `bd_rate`, proved to compute `BdRateOf`. */
  method BdRate(curveA: seq<Pair>, curveB: seq<Pair>, samples: nat,
                ln: real -> real, exp: real -> real) returns (r: Option<real>)
    requires samples > 0
    ensures r == BdRateOf(curveA, curveB, samples, ln, exp)
  {
    if |curveA| < 2 || |curveB| < 2 {
      return None;
    }
    var aq := QualityOrder(curveA);
    var bq := QualityOrder(curveB);
    var qMin := RMax(aq[0].0, bq[0].0);
    var qMax := RMin(aq[|aq| - 1].0, bq[|bq| - 1].0);
    assert qMin == OverlapMin(aq, bq) && qMax == OverlapMax(aq, bq);
    if qMax <= qMin {
      return None;
    }
    var step := (qMax - qMin) / samples as real;
    var total := AccumulateLogDelta(aq, bq, qMin, step, samples, ln);
    if total.None? {
      return None;
    }
    var meanDelta := total.value / samples as real;
    return Some((exp(meanDelta) - 1.0) * 100.0);
  }
}
