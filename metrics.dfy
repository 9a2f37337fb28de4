/**
  Reading a libvmaf JSON log (`metrics.py`): the per-frame VMAF scores are
  collected, sorted and summarised as mean, minimum, maximum and 95th
  percentile; a log without frame scores falls back to its pooled summary.
  Scores are reals: rounding of Python floats is not modelled.
*/
module Metrics {
  import opened Common
  import opened Json

  datatype VmafMetrics = VmafMetrics(mean: real, minimum: real, maximum: real, p95: real, frameCount: nat)

  /** The two `MetricsError`s `parse_vmaf_payload` raises. */
  datatype MetricsError = NotAnObject | NoFrameValues

  // ---------------------------------------------------------------------------
  // Frame scores
  // ---------------------------------------------------------------------------

  /**
    The score one entry of `frames` contributes: the entry must be an object
    whose `metrics` is an object whose `vmaf` is a number.
  */
  function FrameValue(frame: Value): Option<real>
  {
    match frame
    case Object(fields) =>
      (match Get(fields, "metrics")
       case Object(metrics) => AsNumber(Get(metrics, "vmaf"))
       case _ => None)
    case _ => None
  }

  /** The entry libvmaf writes for a frame scored `score`. */
  function FrameJson(score: real): Value
  {
    Object(map["frameNum" := Int(0), "metrics" := Object(map["vmaf" := Float(score)])])
  }

  lemma FrameValueOfJson(score: real)
    ensures FrameValue(FrameJson(score)) == Some(score)
  {
  }

  /** An entry is skipped when it is not an object, or when its `metrics` or its score is missing or of the wrong kind. */
  lemma FrameValueSkips(frame: Value)
    ensures !frame.Object? ==> FrameValue(frame).None?
    ensures frame.Object? && !Get(frame.fields, "metrics").Object? ==> FrameValue(frame).None?
    ensures (frame.Object? && Get(frame.fields, "metrics").Object?
      && Get(Get(frame.fields, "metrics").fields, "vmaf").Str?) ==> FrameValue(frame).None?
  {
  }

  /** The scores of the first `|frames|` entries, in order, skipping the entries without one. */
  function FrameValues(frames: seq<Value>): (values: seq<real>)
    ensures |values| <= |frames|
  {
    if frames == [] then []
    else
      var init := FrameValues(frames[..|frames| - 1]);
      match FrameValue(frames[|frames| - 1])
      case Some(v) => init + [v]
      case None => init
  }

  /** A score is collected exactly when some entry carries it. */
  lemma {:induction false} FrameValuesMembers(frames: seq<Value>, x: real)
    ensures x in FrameValues(frames) <==> exists i | 0 <= i < |frames| :: FrameValue(frames[i]) == Some(x)
  {
    if frames != [] {
      var n := |frames| - 1;
      FrameValuesMembers(frames[..n], x);
      if exists i | 0 <= i < n :: FrameValue(frames[..n][i]) == Some(x) {
        var i :| 0 <= i < n && FrameValue(frames[..n][i]) == Some(x);
        assert frames[i] == frames[..n][i];
      }
      if exists i | 0 <= i < |frames| :: FrameValue(frames[i]) == Some(x) {
        var i :| 0 <= i < |frames| && FrameValue(frames[i]) == Some(x);
        if i < n {
          assert frames[..n][i] == frames[i];
        }
      }
    }
  }

  /** The log libvmaf writes for the scores `scores`, one entry per frame. */
  function FramesJson(scores: seq<real>): (frames: seq<Value>)
    ensures |frames| == |scores|
  {
    seq(|scores|, i requires 0 <= i < |scores| => FrameJson(scores[i]))
  }

  /** Reading the frames of a log back gives every score, in order. */
  lemma {:induction false} FrameValuesOfJson(scores: seq<real>)
    ensures FrameValues(FramesJson(scores)) == scores
  {
    if scores != [] {
      var n := |scores| - 1;
      assert FramesJson(scores)[..n] == FramesJson(scores[..n]);
      FrameValuesOfJson(scores[..n]);
      FrameValueOfJson(scores[n]);
      assert scores == scores[..n] + [scores[n]];
    }
  }

  /** `payload.get("frames", [])`, when it is a list; anything else yields no frames. */
  function PayloadFrames(fields: map<string, Value>): seq<Value>
  {
    match GetOr(fields, "frames", Array([]))
    case Array(items) => items
    case _ => []
  }

  // ---------------------------------------------------------------------------
  // Sorting and summing
  // ---------------------------------------------------------------------------

  predicate Sorted(s: seq<real>)
  {
    forall i, j | 0 <= i < j < |s| :: s[i] <= s[j]
  }

  function Insert(x: real, s: seq<real>): (r: seq<real>)
    ensures multiset(r) == multiset(s) + multiset{x}
  {
    if s == [] || x <= s[0] then [x] + s
    else
      assert s == [s[0]] + s[1..];
      [s[0]] + Insert(x, s[1..])
  }

  /** `values.sort()`: a permutation of the scores, in ascending order (`SortSorted`). */
  function Sort(s: seq<real>): (r: seq<real>)
    ensures multiset(r) == multiset(s)
  {
    if s == [] then []
    else
      assert s == [s[0]] + s[1..];
      Insert(s[0], Sort(s[1..]))
  }

  lemma SortedCons(x: real, s: seq<real>)
    requires Sorted(s) && forall k | 0 <= k < |s| :: x <= s[k]
    ensures Sorted([x] + s)
  {
    var r := [x] + s;
    forall i, j | 0 <= i < j < |r| ensures r[i] <= r[j] {
      assert r[j] == s[j - 1];
      if i > 0 {
        assert r[i] == s[i - 1];
      }
    }
  }

  lemma SortedTail(s: seq<real>)
    requires Sorted(s) && s != []
    ensures Sorted(s[1..]) && forall k | 0 <= k < |s| - 1 :: s[0] <= s[1..][k]
  {
    forall i, j | 0 <= i < j < |s| - 1 ensures s[1..][i] <= s[1..][j] {
      assert s[1..][i] == s[i + 1] && s[1..][j] == s[j + 1];
    }
  }

  lemma {:induction false} InsertSorted(x: real, s: seq<real>)
    requires Sorted(s)
    ensures Sorted(Insert(x, s))
  {
    if s == [] || x <= s[0] {
      SortedCons(x, s);
    } else {
      SortedTail(s);
      var rest := Insert(x, s[1..]);
      InsertSorted(x, s[1..]);
      forall k | 0 <= k < |rest| ensures s[0] <= rest[k] {
        var y := rest[k];
        assert y in multiset(rest);
        if y != x {
          assert y in multiset(s[1..]);
          var m :| 0 <= m < |s| - 1 && s[1..][m] == y;
        }
      }
      SortedCons(s[0], rest);
    }
  }

  lemma {:induction false} SortSorted(s: seq<real>)
    ensures Sorted(Sort(s))
  {
    if s != [] {
      SortSorted(s[1..]);
      InsertSorted(s[0], Sort(s[1..]));
    }
  }

  lemma SortedHeadLeast(s: seq<real>, y: real)
    requires Sorted(s) && y in multiset(s)
    ensures s[0] <= y
  {
    var i :| 0 <= i < |s| && s[i] == y;
  }

  /** Two ascending sequences with the same elements are the same sequence. */
  lemma {:induction false} SortedUnique(a: seq<real>, b: seq<real>)
    requires Sorted(a) && Sorted(b) && multiset(a) == multiset(b)
    ensures a == b
  {
    if a == [] {
      assert |b| == |multiset(b)| == 0;
    } else {
      assert |b| == |multiset(a)| > 0;
      var x, y := a[0], b[0];
      assert y in multiset(b) && x in multiset(a);
      SortedHeadLeast(a, y);
      SortedHeadLeast(b, x);
      assert a == [x] + a[1..] && b == [x] + b[1..];
      var ta, tb := multiset(a[1..]), multiset(b[1..]);
      assert multiset(a) == multiset{x} + ta && multiset(b) == multiset{x} + tb;
      forall z ensures ta[z] == tb[z] {
        assert multiset(a)[z] == multiset{x}[z] + ta[z];
        assert multiset(b)[z] == multiset{x}[z] + tb[z];
      }
      assert ta == tb;
      SortedTail(a);
      SortedTail(b);
      SortedUnique(a[1..], b[1..]);
    }
  }

  /** Any order of the same scores sorts to the same list. */
  lemma SortDeterminedByElements(s: seq<real>, t: seq<real>)
    requires multiset(s) == multiset(t)
    ensures Sort(s) == Sort(t)
  {
    SortSorted(s);
    SortSorted(t);
    SortedUnique(Sort(s), Sort(t));
  }

  /** `sum(values)`. */
  function Sum(s: seq<real>): real
  {
    if s == [] then 0.0 else s[0] + Sum(s[1..])
  }

  lemma {:induction false} SumInsert(x: real, s: seq<real>)
    ensures Sum(Insert(x, s)) == x + Sum(s)
  {
    if s != [] && x > s[0] {
      SumInsert(x, s[1..]);
    }
  }

  /** Sorting does not change the total. */
  lemma {:induction false} SumSort(s: seq<real>)
    ensures Sum(Sort(s)) == Sum(s)
  {
    if s != [] {
      SumSort(s[1..]);
      SumInsert(s[0], Sort(s[1..]));
    }
  }

  /** A total of `|s|` values between `lo` and `hi` lies between `|s| * lo` and `|s| * hi`. */
  lemma {:induction false} SumBounds(s: seq<real>, lo: real, hi: real)
    requires forall k | 0 <= k < |s| :: lo <= s[k] <= hi
    ensures |s| as real * lo <= Sum(s) <= |s| as real * hi
  {
    if s != [] {
      var m := (|s| - 1) as real;
      assert m * lo <= Sum(s[1..]) <= m * hi by {
        assert forall k | 0 <= k < |s| - 1 :: s[1..][k] == s[k + 1];
        SumBounds(s[1..], lo, hi);
      }
      assert lo <= s[0] <= hi;
      assert |s| as real * lo == lo + m * lo && |s| as real * hi == hi + m * hi;
    }
  }

  // ---------------------------------------------------------------------------
  // _percentile
  // ---------------------------------------------------------------------------

  /** The rank `(n - 1) * (p / 100)` of the `p`-th percentile among `n` values, in `[0, n - 1]` when `0 < p < 100`. */
  function Rank(n: nat, p: real): (index: real)
    requires n > 0 && 0.0 < p < 100.0
    ensures 0.0 <= index <= (n - 1) as real
    ensures n > 1 ==> index < (n - 1) as real
    ensures n == 1 ==> index == 0.0
  {
    var m := (n - 1) as real;
    var f := p / 100.0;
    assert 0.0 < f < 1.0;
    assert m * f <= m * 1.0;
    assert n > 1 ==> m * f < m * 1.0 by {
      if n > 1 {
        assert m > 0.0;
      }
    }
    m * f
  }

  /**
    Linear interpolation at a fractional `index`: the values at `int(index)`
    and the next index (clamped to the last), weighted by the fractional
    part. The index is not negative, so Python's `int()` truncation is `Floor`.
  */
  function Interpolate(s: seq<real>, index: real): real
    requires s != [] && 0.0 <= index <= (|s| - 1) as real
  {
    var lower := index.Floor;
    var upper := if lower + 1 < |s| - 1 then lower + 1 else |s| - 1;
    var weight := index - lower as real;
    s[lower] * (1.0 - weight) + s[upper] * weight
  }

  /**
    `_percentile(sorted_values, p)`: the first value for `p <= 0`, the last
    for `p >= 100`, and otherwise the interpolation at rank `(n - 1) * p / 100`.
    An empty list raises `ValueError`: `None`.
  */
  function Percentile(s: seq<real>, p: real): (r: Option<real>)
    ensures r.Some? <==> s != []
  {
    if s == [] then None
    else if p <= 0.0 then Some(s[0])
    else if p >= 100.0 then Some(s[|s| - 1])
    else Some(Interpolate(s, Rank(|s|, p)))
  }

  /** A weighted average of `a <= b` with weight in `[0, 1]` lies between them. */
  lemma ConvexBetween(a: real, b: real, w: real)
    requires a <= b && 0.0 <= w <= 1.0
    ensures a <= a * (1.0 - w) + b * w <= b
  {
    assert a * (1.0 - w) + b * w == a + (b - a) * w;
    assert (b - a) * w <= (b - a) * 1.0;
  }

  /** At a whole index the interpolation is the value there. */
  lemma InterpolateWhole(s: seq<real>, k: nat)
    requires k < |s|
    ensures Interpolate(s, k as real) == s[k]
  {
    assert (k as real).Floor == k;
  }

  /**
    On ascending values the interpolation lies between the value at
    `int(index)` and the next one; at the last index it is the last value.
  */
  lemma InterpolateBetween(s: seq<real>, index: real)
    requires s != [] && Sorted(s) && 0.0 <= index <= (|s| - 1) as real
    ensures var lower := index.Floor;
      && 0 <= lower < |s|
      && s[lower] <= Interpolate(s, index)
      && (lower + 1 < |s| ==> Interpolate(s, index) <= s[lower + 1])
      && (lower + 1 == |s| ==> Interpolate(s, index) == s[lower])
  {
    var lower := index.Floor;
    var weight := index - lower as real;
    if lower + 1 < |s| {
      ConvexBetween(s[lower], s[lower + 1], weight);
    } else {
      assert index == lower as real;
      InterpolateWhole(s, lower);
    }
  }

  lemma PercentileEdges(s: seq<real>, p: real)
    requires s != []
    ensures p <= 0.0 ==> Percentile(s, p) == Some(s[0])
    ensures p >= 100.0 ==> Percentile(s, p) == Some(s[|s| - 1])
    ensures |s| == 1 ==> Percentile(s, p) == Some(s[0])
  {
    if |s| == 1 && 0.0 < p < 100.0 {
      InterpolateWhole(s, 0);
    }
  }

  /** On ascending values any percentile lies between the smallest and the largest value. */
  lemma PercentileBounds(s: seq<real>, p: real)
    requires s != [] && Sorted(s)
    ensures s[0] <= Percentile(s, p).value <= s[|s| - 1]
  {
    if 0.0 < p < 100.0 {
      var index := Rank(|s|, p);
      InterpolateBetween(s, index);
      var lower := index.Floor;
      if lower + 1 < |s| {
        assert s[0] <= s[lower] && s[lower + 1] <= s[|s| - 1];
      } else {
        assert s[0] <= s[lower];
      }
    }
  }

  /** When the rank falls exactly on an index, the percentile is the value there. */
  lemma PercentileExactRank(s: seq<real>, p: real, k: nat)
    requires 0.0 < p < 100.0 && k < |s|
    requires (|s| - 1) as real * (p / 100.0) == k as real
    ensures Percentile(s, p) == Some(s[k])
  {
    InterpolateWhole(s, k);
  }

  // ---------------------------------------------------------------------------
  // parse_vmaf_payload
  // ---------------------------------------------------------------------------

  /** The summary of a non-empty ascending list of scores. */
  function Summary(sorted: seq<real>): VmafMetrics
    requires sorted != []
  {
    VmafMetrics(Sum(sorted) / |sorted| as real, sorted[0], sorted[|sorted| - 1],
                Percentile(sorted, 95.0).value, |sorted|)
  }

  /** `x or fallback` for an optional number: `None` and `0.0` are both falsy in Python. */
  function OrElse(x: Option<real>, fallback: real): (r: real)
    ensures x == Some(0.0) || x.None? ==> r == fallback
    ensures x.Some? && x.value != 0.0 ==> r == x.value
  {
    match x
    case Some(v) => if v != 0.0 then v else fallback
    case None => fallback
  }

  /** The pooled summary under `pooled_metrics.vmaf`, when mean, min and max are all numbers. */
  function Pooled(fields: map<string, Value>): Option<VmafMetrics>
  {
    match Get(fields, "pooled_metrics")
    case Object(pooled) =>
      (match Get(pooled, "vmaf")
       case Object(vmaf) =>
         (match (AsNumber(Get(vmaf, "mean")), AsNumber(Get(vmaf, "min")), AsNumber(Get(vmaf, "max")))
          case (Some(mean), Some(minimum), Some(maximum)) =>
            Some(VmafMetrics(mean, minimum, maximum, OrElse(AsNumber(Get(vmaf, "p95")), mean), 0))
          case _ => None)
       case _ => None)
    case _ => None
  }

  /** `parse_vmaf_payload(payload)`. */
  function VmafOf(payload: Value): Result<VmafMetrics, MetricsError>
  {
    match payload
    case Object(fields) =>
      var values := FrameValues(PayloadFrames(fields));
      if values != [] then Ok(Summary(Sort(values)))
      else
        (match Pooled(fields)
         case Some(m) => Ok(m)
         case None => Err(NoFrameValues))
    case _ => Err(NotAnObject)
  }

  /** The loop over `frames` followed by the summary, as `parse_vmaf_payload` runs it. */
  method ParseVmafPayload(payload: Value) returns (r: Result<VmafMetrics, MetricsError>)
    ensures r == VmafOf(payload)
  {
    if !payload.Object? {
      return Err(NotAnObject);
    }
    var frames := PayloadFrames(payload.fields);
    var values: seq<real> := [];
    for i := 0 to |frames|
      invariant values == FrameValues(frames[..i])
    {
      assert frames[..i + 1][..i] == frames[..i];
      var frame := frames[i];
      if frame.Object? {
        var metrics := Get(frame.fields, "metrics");
        if metrics.Object? {
          var value := AsNumber(Get(metrics.fields, "vmaf"));
          if value.Some? {
            values := values + [value.value];
          }
        }
      }
    }
    assert frames[..|frames|] == frames;
    if values == [] {
      match Pooled(payload.fields)
      case Some(m) => return Ok(m);
      case None => return Err(NoFrameValues);
    }
    values := Sort(values);
    var count := |values|;
    var p95 := Percentile(values, 95.0);
    r := Ok(VmafMetrics(Sum(values) / count as real, values[0], values[count - 1], p95.value, count));
  }

  /** A payload that is not an object is refused. */
  lemma VmafRejectsNonObject(payload: Value)
    requires !payload.Object?
    ensures VmafOf(payload) == Err(NotAnObject)
  {
  }

  /**
    The summary of ascending scores: its minimum and maximum bound every
    score, and the mean and the 95th percentile lie between them.
  */
  lemma SummaryBounds(sorted: seq<real>)
    requires sorted != [] && Sorted(sorted)
    ensures var m := Summary(sorted);
      && (forall k | 0 <= k < |sorted| :: m.minimum <= sorted[k] <= m.maximum)
      && m.minimum <= m.mean <= m.maximum
      && m.minimum <= m.p95 <= m.maximum
  {
    var n := |sorted|;
    var lo, hi := sorted[0], sorted[n - 1];
    assert forall k | 0 <= k < n :: lo <= sorted[k] <= hi;
    SumBounds(sorted, lo, hi);
    MeanBetween(Sum(sorted), n, lo, hi);
    PercentileBounds(sorted, 95.0);
  }

  /** The first and last of the sorted scores are scores, and bound all of them. */
  lemma SortEnds(values: seq<real>)
    requires values != []
    ensures var sorted := Sort(values);
      && |sorted| == |values|
      && sorted[0] in values && sorted[|sorted| - 1] in values
      && forall k | 0 <= k < |values| :: sorted[0] <= values[k] <= sorted[|sorted| - 1]
  {
    var sorted := Sort(values);
    SortSorted(values);
    var n := |sorted|;
    assert n == |multiset(values)| == |values|;
    var lo, hi := sorted[0], sorted[n - 1];
    assert lo in multiset(sorted) && hi in multiset(sorted);
    forall k | 0 <= k < |values| ensures lo <= values[k] <= hi {
      var v := values[k];
      assert v in multiset(sorted);
      var m :| 0 <= m < n && sorted[m] == v;
    }
  }

  /**
    With at least one frame score, the summary counts the scores, its minimum
    and maximum are the smallest and largest score, and both the mean and the
    95th percentile lie between them; the mean is the average of the scores.
  */
  lemma VmafFromFrames(fields: map<string, Value>)
    requires FrameValues(PayloadFrames(fields)) != []
    ensures var values := FrameValues(PayloadFrames(fields));
      var r := VmafOf(Object(fields));
      && r.Ok?
      && r.value.frameCount == |values|
      && r.value.minimum in values && r.value.maximum in values
      && (forall k | 0 <= k < |values| :: r.value.minimum <= values[k] <= r.value.maximum)
      && r.value.minimum <= r.value.mean <= r.value.maximum
      && r.value.minimum <= r.value.p95 <= r.value.maximum
      && r.value.mean == Sum(values) / |values| as real
  {
    var values := FrameValues(PayloadFrames(fields));
    SortEnds(values);
    SortSorted(values);
    SummaryBounds(Sort(values));
    SumSort(values);
  }

  lemma MeanBetween(total: real, n: nat, lo: real, hi: real)
    requires n > 0 && n as real * lo <= total <= n as real * hi
    ensures lo <= total / n as real <= hi
  {
    var m := total / n as real;
    assert m - lo == (total - n as real * lo) / n as real;
    assert hi - m == (n as real * hi - total) / n as real;
  }

  /** The summary depends only on which scores occur, not on the order of the frames. */
  lemma VmafFrameOrder(a: map<string, Value>, b: map<string, Value>)
    requires FrameValues(PayloadFrames(a)) != []
    requires multiset(FrameValues(PayloadFrames(a))) == multiset(FrameValues(PayloadFrames(b)))
    ensures VmafOf(Object(a)) == VmafOf(Object(b))
  {
    var va, vb := FrameValues(PayloadFrames(a)), FrameValues(PayloadFrames(b));
    assert |vb| == |multiset(vb)| > 0;
    SortDeterminedByElements(va, vb);
  }

  /**
    Without frame scores the pooled summary is used, with no frames counted;
    when it lacks a number among mean, min and max the payload is refused.
  */
  lemma VmafPooledFallback(fields: map<string, Value>)
    requires FrameValues(PayloadFrames(fields)) == []
    ensures VmafOf(Object(fields)).Ok? <==> Pooled(fields).Some?
    ensures VmafOf(Object(fields)).Ok? ==> VmafOf(Object(fields)).value.frameCount == 0
    ensures VmafOf(Object(fields)).Err? ==> VmafOf(Object(fields)).error == NoFrameValues
  {
  }

  /** The pooled block libvmaf writes. `p95` is optional. */
  function PooledJson(mean: real, minimum: real, maximum: real, p95: Option<real>): map<string, Value>
  {
    var vmaf := map["mean" := Float(mean), "min" := Float(minimum), "max" := Float(maximum)];
    var withP95 := if p95.Some? then vmaf["p95" := Float(p95.value)] else vmaf;
    map["pooled_metrics" := Object(map["vmaf" := Object(withP95)])]
  }

  /**
    A log with only a pooled block yields that block's numbers; a missing or
    zero `p95` falls back to the mean.
  */
  lemma VmafPooledOnly(mean: real, minimum: real, maximum: real, p95: Option<real>)
    ensures var r := VmafOf(Object(PooledJson(mean, minimum, maximum, p95)));
      && r.Ok?
      && r.value.mean == mean && r.value.minimum == minimum && r.value.maximum == maximum
      && r.value.frameCount == 0
      && (p95.None? || p95 == Some(0.0) ==> r.value.p95 == mean)
      && (p95.Some? && p95.value != 0.0 ==> r.value.p95 == p95.value)
  {
    var fields := PooledJson(mean, minimum, maximum, p95);
    assert "frames" !in fields;
    assert PayloadFrames(fields) == [];
  }

  /** A pooled block missing its mean is refused when there are no frame scores. */
  lemma VmafPooledIncomplete(fields: map<string, Value>)
    requires FrameValues(PayloadFrames(fields)) == []
    requires Get(fields, "pooled_metrics").Object?
    requires Get(Get(fields, "pooled_metrics").fields, "vmaf").Object?
    requires "mean" !in Get(Get(fields, "pooled_metrics").fields, "vmaf").fields
    ensures VmafOf(Object(fields)) == Err(NoFrameValues)
  {
  }
}
