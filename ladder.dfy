/**
  Ladder selection of `ladder.py`: one representative encode per bitrate,
  then the upper convex hull of those representatives in the
  (bitrate, VMAF) plane.

  Every loop of the Python code is a method proved equal to a specification
  function; what the selection promises is proved about those functions.
  `math.log` and `math.exp` are the parameters `ln` and `exp`,
  `float("inf")` is the `Infinite` score and `math.isclose` on scores is `==`.
*/
module Ladder {
  import opened Common
  import opened Strings
  import opened RateCurve

  /** One encode with its measured quality. */
  datatype RatedPoint = RatedPoint(pointId: string, bitrateKbps: int, vmaf: real)

  /** The chosen hull points, in increasing bitrate, and their ids. */
  datatype LadderSelection = LadderSelection(selectedIds: seq<string>, hullPoints: seq<RatedPoint>)

  datatype LadderError =
    | NoPoints             // `ValueError`: no rated point at all
    | NoNearBestCandidate  // `IndexError` from `sorted(near_best)[0]`: a negative tolerance empties a bucket

  /** A normalised BD-rate score: `abs(score)`, or `float("inf")` when there is none. */
  datatype Score = Finite(value: real) | Infinite

  const DefaultTieTolerance: real := 0.001
  const TieBreakSamples: nat := 200

  function RAbs(x: real): real { if x < 0.0 then -x else x }

  // ---------------------------------------------------------------------------
  // _cross and _upper_hull_indices
  // ---------------------------------------------------------------------------

  /** z-component of (b - a) x (c - a) with bitrate as x and VMAF as y. */
  function Cross(a: RatedPoint, b: RatedPoint, c: RatedPoint): real
  {
    (b.bitrateKbps - a.bitrateKbps) as real * (c.vmaf - a.vmaf)
    - (b.vmaf - a.vmaf) * (c.bitrateKbps - a.bitrateKbps) as real
  }

  /**
    For bitrates a < b < c, a negative cross product means a strict right turn:
    the quality gained per kbps from a to b is larger than from b to c.
  */
  lemma CrossRightTurn(a: RatedPoint, b: RatedPoint, c: RatedPoint)
    requires a.bitrateKbps < b.bitrateKbps < c.bitrateKbps
    ensures Cross(a, b, c) < 0.0 <==>
      (b.vmaf - a.vmaf) / (b.bitrateKbps - a.bitrateKbps) as real
      > (c.vmaf - b.vmaf) / (c.bitrateKbps - b.bitrateKbps) as real
  {
    var dx1 := (b.bitrateKbps - a.bitrateKbps) as real;
    var dx2 := (c.bitrateKbps - b.bitrateKbps) as real;
    var dy1 := b.vmaf - a.vmaf;
    var dy2 := c.vmaf - b.vmaf;
    assert Cross(a, b, c) == dx1 * dy2 - dy1 * dx2;
    var s1 := dy1 / dx1;
    var s2 := dy2 / dx2;
    assert dx1 > 0.0 && dx2 > 0.0;
    assert dy1 == s1 * dx1;
    assert dy2 == s2 * dx2;
    assert dx1 * dy2 - dy1 * dx2 == dx1 * dx2 * (s2 - s1);
    NegativeProduct(dx1 * dx2, s2 - s1);
  }

  lemma NegativeProduct(p: real, d: real)
    requires p > 0.0
    ensures p * d < 0.0 <==> d < 0.0
  {
    if d >= 0.0 {
      assert p * d >= 0.0;
    }
  }

  predicate ValidIndices(points: seq<RatedPoint>, hull: seq<nat>)
  {
    forall k | 0 <= k < |hull| :: hull[k] < |points|
  }

  predicate StrictlyIncreasing(s: seq<int>)
  {
    forall i, j | 0 <= i < j < |s| :: s[i] < s[j]
  }

  /** The hull points at positions `k`, `k + 1`, `k + 2` make a strict right turn. */
  predicate TurnsRightAt(points: seq<RatedPoint>, hull: seq<nat>, k: nat)
    requires ValidIndices(points, hull) && k + 2 < |hull|
  {
    Cross(points[hull[k]], points[hull[k + 1]], points[hull[k + 2]]) < 0.0
  }

  /** Every three consecutive hull points make a strict right turn. */
  predicate RightTurns(points: seq<RatedPoint>, hull: seq<nat>)
    requires ValidIndices(points, hull)
  {
    forall k: nat | k + 2 < |hull| :: TurnsRightAt(points, hull, k)
  }

  /** The inner `while` of the hull scan: pop the top while it does not turn right towards `points[idx]`. */
  function PopWhile(points: seq<RatedPoint>, hull: seq<nat>, idx: nat): (r: seq<nat>)
    requires idx < |points| && ValidIndices(points, hull)
    ensures |r| <= |hull| && r == hull[..|r|]
    ensures hull != [] ==> r != []
    ensures ValidIndices(points, r)
    decreases |hull|
  {
    if |hull| >= 2 && Cross(points[hull[|hull| - 2]], points[hull[|hull| - 1]], points[idx]) >= 0.0
    then PopWhile(points, hull[..|hull| - 1], idx)
    else hull
  }

  /** What is left after popping turns strictly right towards `points[idx]`. */
  lemma {:induction false} PopWhileTurnsRight(points: seq<RatedPoint>, hull: seq<nat>, idx: nat)
    requires idx < |points| && ValidIndices(points, hull)
    ensures var r := PopWhile(points, hull, idx);
      |r| >= 2 ==> Cross(points[r[|r| - 2]], points[r[|r| - 1]], points[idx]) < 0.0
    decreases |hull|
  {
    if |hull| >= 2 && Cross(points[hull[|hull| - 2]], points[hull[|hull| - 1]], points[idx]) >= 0.0 {
      PopWhileTurnsRight(points, hull[..|hull| - 1], idx);
    }
  }

  /** The hull after the `for` loop has visited the first `n` points. */
  function Scan(points: seq<RatedPoint>, n: nat): (hull: seq<nat>)
    requires n <= |points|
    ensures forall k | 0 <= k < |hull| :: hull[k] < n
  {
    if n == 0 then [] else PopWhile(points, Scan(points, n - 1), n - 1) + [n - 1]
  }

  function Range(n: nat): (r: seq<nat>)
    ensures |r| == n && forall k | 0 <= k < n :: r[k] == k
  {
    seq(n, k requires 0 <= k < n => k as nat)
  }

  /** `_upper_hull_indices`: all indices for at most two points, otherwise the scan. */
  function HullIndices(points: seq<RatedPoint>): (r: seq<nat>)
    ensures ValidIndices(points, r)
  {
    if |points| <= 2 then Range(|points|) else Scan(points, |points|)
  }

  lemma IncreasingAppend(s: seq<nat>, m: nat, x: nat)
    requires StrictlyIncreasing(s) && m <= |s|
    requires forall k | 0 <= k < |s| :: s[k] < x
    ensures StrictlyIncreasing(s[..m] + [x])
  {
    var h := s[..m] + [x];
    forall i, j | 0 <= i < j < |h|
      ensures h[i] < h[j]
    {
      assert h[i] == s[i];
      if j < m {
        assert h[j] == s[j];
      }
    }
  }

  /** One step of the scan: pop towards `points[idx]`, then push `idx`. */
  lemma ScanStep(points: seq<RatedPoint>, n: nat)
    requires 0 < n <= |points|
    ensures ValidIndices(points, Scan(points, n - 1))
    ensures Scan(points, n) == PopWhile(points, Scan(points, n - 1), n - 1) + [n - 1]
  {
  }

  /** Pushing `x`, above every element, on a non-empty prefix of increasing `prev` keeps it increasing, keeps the first element and ends at `x`. */
  lemma IncreasingStep(prev: seq<nat>, popped: seq<nat>, x: nat)
    requires StrictlyIncreasing(prev) && forall k | 0 <= k < |prev| :: prev[k] < x
    requires |popped| <= |prev| && popped == prev[..|popped|] && (prev != [] ==> popped != [])
    ensures StrictlyIncreasing(popped + [x])
    ensures |popped + [x]| >= 1 && (popped + [x])[|popped|] == x
    ensures (popped + [x])[0] == if prev == [] then x else prev[0]
  {
    IncreasingAppend(prev, |popped|, x);
  }

  lemma {:induction false} ScanIncreasing(points: seq<RatedPoint>, n: nat)
    requires n <= |points|
    ensures StrictlyIncreasing(Scan(points, n))
    ensures n > 0 ==> |Scan(points, n)| >= 1 && Scan(points, n)[0] == 0 && Scan(points, n)[|Scan(points, n)| - 1] == n - 1
  {
    if n > 0 {
      ScanIncreasing(points, n - 1);
      ScanStep(points, n);
      var prev := Scan(points, n - 1);
      IncreasingStep(prev, PopWhile(points, prev, n - 1), n - 1);
    }
  }

  lemma RightTurnsPrefix(points: seq<RatedPoint>, hull: seq<nat>, m: nat)
    requires ValidIndices(points, hull) && RightTurns(points, hull) && m <= |hull|
    ensures ValidIndices(points, hull[..m]) && RightTurns(points, hull[..m])
  {
    var p := hull[..m];
    forall k: nat | k + 2 < |p|
      ensures TurnsRightAt(points, p, k)
    {
      assert TurnsRightAt(points, hull, k);
      assert p[k] == hull[k] && p[k + 1] == hull[k + 1] && p[k + 2] == hull[k + 2];
    }
  }

  lemma RightTurnsAppend(points: seq<RatedPoint>, hull: seq<nat>, idx: nat)
    requires ValidIndices(points, hull) && RightTurns(points, hull) && idx < |points|
    requires |hull| >= 2 ==> Cross(points[hull[|hull| - 2]], points[hull[|hull| - 1]], points[idx]) < 0.0
    ensures ValidIndices(points, hull + [idx]) && RightTurns(points, hull + [idx])
  {
    var h := hull + [idx];
    forall k: nat | k + 2 < |h|
      ensures TurnsRightAt(points, h, k)
    {
      if k + 2 < |hull| {
        assert TurnsRightAt(points, hull, k);
        assert h[k] == hull[k] && h[k + 1] == hull[k + 1] && h[k + 2] == hull[k + 2];
      }
    }
  }

  lemma {:induction false} ScanTurnsRight(points: seq<RatedPoint>, n: nat)
    requires n <= |points|
    ensures RightTurns(points, Scan(points, n))
  {
    if n > 0 {
      ScanTurnsRight(points, n - 1);
      ScanTurnsStep(points, n);
    }
  }

  /** One step of the scan keeps every turn strictly right. */
  lemma ScanTurnsStep(points: seq<RatedPoint>, n: nat)
    requires 0 < n <= |points|
    requires RightTurns(points, Scan(points, n - 1))
    ensures RightTurns(points, Scan(points, n))
  {
    ScanStep(points, n);
    TurnsStep(points, Scan(points, n - 1), n - 1);
  }

  /** Popping towards `points[idx]` and pushing `idx` keeps every turn strictly right. */
  lemma TurnsStep(points: seq<RatedPoint>, prev: seq<nat>, idx: nat)
    requires idx < |points| && ValidIndices(points, prev) && RightTurns(points, prev)
    ensures ValidIndices(points, PopWhile(points, prev, idx) + [idx])
    ensures RightTurns(points, PopWhile(points, prev, idx) + [idx])
  {
    var popped := PopWhile(points, prev, idx);
    PopWhileTurnsRight(points, prev, idx);
    RightTurnsPrefix(points, prev, |popped|);
    RightTurnsAppend(points, popped, idx);
  }

  /**
    What `_upper_hull_indices` returns: all indices when there are at most two
    points; otherwise strictly increasing indices that start at the first point,
    end at the last, and turn strictly right at every kept middle point.
  */
  lemma HullShape(points: seq<RatedPoint>)
    ensures var hull := HullIndices(points);
      && (|points| <= 2 ==> hull == Range(|points|))
      && StrictlyIncreasing(hull)
      && (|points| > 0 ==> |hull| >= 1 && hull[0] == 0 && hull[|hull| - 1] == |points| - 1)
      && RightTurns(points, hull)
  {
    if |points| > 2 {
      ScanIncreasing(points, |points|);
      ScanTurnsRight(points, |points|);
    }
  }

  /** The inner `while` of `_upper_hull_indices`. */
  method PopNonRightTurns(points: seq<RatedPoint>, hull0: seq<nat>, idx: nat) returns (hull: seq<nat>)
    requires idx < |points| && ValidIndices(points, hull0)
    ensures hull == PopWhile(points, hull0, idx)
  {
    hull := hull0;
    while |hull| >= 2
      invariant ValidIndices(points, hull)
      invariant PopWhile(points, hull, idx) == PopWhile(points, hull0, idx)
      decreases |hull|
    {
      var a := points[hull[|hull| - 2]];
      var b := points[hull[|hull| - 1]];
      var cross := Cross(a, b, points[idx]);
      if cross < 0.0 {
        break;
      }
      hull := hull[..|hull| - 1];
    }
  }

  /** `_upper_hull_indices` as written. */
  method UpperHullIndices(points: seq<RatedPoint>) returns (hull: seq<nat>)
    ensures hull == HullIndices(points)
  {
    if |points| <= 2 {
      return Range(|points|);
    }
    hull := [];
    for idx := 0 to |points|
      invariant hull == Scan(points, idx)
    {
      ScanStep(points, idx + 1);
      hull := PopNonRightTurns(points, hull, idx);
      hull := hull + [idx];
    }
  }

  // ---------------------------------------------------------------------------
  // select_ladder: grouping by bitrate
  // ---------------------------------------------------------------------------

  predicate HasBitrate(points: seq<RatedPoint>, b: int)
  {
    exists p | p in points :: p.bitrateKbps == b
  }

  predicate Distinct(s: seq<int>)
  {
    forall i, j | 0 <= i < j < |s| :: s[i] != s[j]
  }

  /** Keys of `grouped` in insertion order: every bitrate of the input once, by first occurrence (`KeysMembers`). */
  function Keys(points: seq<RatedPoint>): seq<int>
  {
    if points == [] then []
    else
      var ks := Keys(points[..|points| - 1]);
      var b := points[|points| - 1].bitrateKbps;
      if b in ks then ks else ks + [b]
  }

  lemma {:induction false} KeysMembers(points: seq<RatedPoint>)
    ensures forall b :: b in Keys(points) <==> HasBitrate(points, b)
    ensures Distinct(Keys(points))
  {
    if points != [] {
      var init := points[..|points| - 1];
      var last := points[|points| - 1];
      assert points == init + [last];
      KeysMembers(init);
    }
  }

  /** `grouped[b]`: the points at bitrate `b`, in input order (`BucketMembers`). */
  function Bucket(points: seq<RatedPoint>, b: int): seq<RatedPoint>
  {
    if points == [] then []
    else
      var last := points[|points| - 1];
      Bucket(points[..|points| - 1], b) + (if last.bitrateKbps == b then [last] else [])
  }

  /** The bucket of `b` holds exactly the points at bitrate `b`. */
  lemma {:induction false} BucketMembers(points: seq<RatedPoint>, b: int)
    ensures forall p | p in Bucket(points, b) :: p in points && p.bitrateKbps == b
    ensures forall p | p in points && p.bitrateKbps == b :: p in Bucket(points, b)
    ensures Bucket(points, b) != [] <==> HasBitrate(points, b)
  {
    if points != [] {
      var init := points[..|points| - 1];
      var last := points[|points| - 1];
      assert points == init + [last];
      BucketMembers(init, b);
      var r := Bucket(points, b);
      if r != [] {
        assert r[0] in r;
      }
    }
  }

  /** `max(candidate.vmaf for candidate in bucket)`. */
  function MaxVmaf(bucket: seq<RatedPoint>): (m: real)
    requires bucket != []
    ensures forall p | p in bucket :: p.vmaf <= m
    ensures exists p | p in bucket :: p.vmaf == m
  {
    if |bucket| == 1 then bucket[0].vmaf
    else
      var rest := MaxVmaf(bucket[1..]);
      assert bucket == [bucket[0]] + bucket[1..];
      if bucket[0].vmaf >= rest then bucket[0].vmaf else rest
  }

  function InsertInt(x: int, s: seq<int>): (r: seq<int>)
    ensures multiset(r) == multiset(s) + multiset{x}
  {
    if s == [] || x <= s[0] then [x] + s
    else
      assert s == [s[0]] + s[1..];
      [s[0]] + InsertInt(x, s[1..])
  }

  /** Python's `sorted` on a list of integers: a permutation of the input, ascending (`SortIntsIncreasing`). */
  function SortInts(s: seq<int>): (r: seq<int>)
    ensures multiset(r) == multiset(s)
  {
    if s == [] then []
    else
      assert s == [s[0]] + s[1..];
      InsertInt(s[0], SortInts(s[1..]))
  }

  lemma IncreasingCons(x: int, s: seq<int>)
    requires StrictlyIncreasing(s) && forall k | 0 <= k < |s| :: x < s[k]
    ensures StrictlyIncreasing([x] + s)
  {
    var r := [x] + s;
    forall i, j | 0 <= i < j < |r| ensures r[i] < r[j] {
      assert r[j] == s[j - 1];
      if i > 0 {
        assert r[i] == s[i - 1];
      }
    }
  }

  lemma {:induction false} InsertIntIncreasing(x: int, s: seq<int>)
    requires StrictlyIncreasing(s) && x !in s
    ensures StrictlyIncreasing(InsertInt(x, s))
  {
    if s == [] || x <= s[0] {
      assert forall k | 0 <= k < |s| :: x < s[k] by {
        forall k | 0 <= k < |s| ensures x < s[k] {
          assert s[k] in s;
        }
      }
      IncreasingCons(x, s);
    } else {
      var rest := InsertInt(x, s[1..]);
      InsertIntIncreasing(x, s[1..]);
      assert forall k | 0 <= k < |rest| :: s[0] < rest[k] by {
        forall k | 0 <= k < |rest| ensures s[0] < rest[k] {
          assert rest[k] in multiset(rest);
          if rest[k] != x {
            assert rest[k] in s[1..];
          }
        }
      }
      IncreasingCons(s[0], rest);
    }
  }

  /** Sorting distinct integers gives them in strictly increasing order. */
  lemma {:induction false} SortIntsIncreasing(s: seq<int>)
    requires Distinct(s)
    ensures StrictlyIncreasing(SortInts(s))
  {
    if s != [] {
      var rest := SortInts(s[1..]);
      assert Distinct(s[1..]) by {
        forall i, j | 0 <= i < j < |s| - 1 ensures s[1..][i] != s[1..][j] {
          assert s[1..][i] == s[i + 1] && s[1..][j] == s[j + 1];
        }
      }
      SortIntsIncreasing(s[1..]);
      assert s[0] !in multiset(s[1..]);
      assert s[0] !in multiset(rest);
      InsertIntIncreasing(s[0], rest);
    }
  }

  /** `sorted(grouped.keys())`: every bitrate of the input exactly once, in increasing order. */
  function Bitrates(points: seq<RatedPoint>): (bs: seq<int>)
    ensures StrictlyIncreasing(bs)
    ensures forall b :: b in bs <==> HasBitrate(points, b)
  {
    var keys := Keys(points);
    var bs := SortInts(keys);
    KeysMembers(points);
    SortIntsIncreasing(keys);
    assert forall b :: b in bs <==> b in keys by {
      forall b ensures b in bs <==> b in keys {
        assert b in bs <==> b in multiset(bs);
        assert b in keys <==> b in multiset(keys);
      }
    }
    bs
  }

  /** `baseline`: the best VMAF at each bitrate. */
  function Baseline(points: seq<RatedPoint>): (baseline: map<int, real>)
  {
    map b | b in Bitrates(points) :: BucketMembers(points, b); MaxVmaf(Bucket(points, b))
  }

  // ---------------------------------------------------------------------------
  // select_ladder: one representative per bitrate
  // ---------------------------------------------------------------------------

  /** `[candidate for candidate in candidates if abs(candidate.vmaf - best_vmaf) <= tie_tolerance]`. */
  function NearBest(candidates: seq<RatedPoint>, best: real, tol: real): (r: seq<RatedPoint>)
    ensures forall c :: c in r <==> c in candidates && RAbs(c.vmaf - best) <= tol
    ensures tol < 0.0 ==> r == []
  {
    if candidates == [] then []
    else
      assert candidates == [candidates[0]] + candidates[1..];
      (if RAbs(candidates[0].vmaf - best) <= tol then [candidates[0]] else [])
      + NearBest(candidates[1..], best, tol)
  }

  /** `[(x, baseline[x]) for x in bitrates_sorted]`. */
  function BaseCurve(bitrates: seq<int>, baseline: map<int, real>): seq<Pair>
    requires forall i | 0 <= i < |bitrates| :: bitrates[i] in baseline
  {
    seq(|bitrates|, i requires 0 <= i < |bitrates| => (bitrates[i] as real, baseline[bitrates[i]]))
  }

  /** `s.index(x)`: the position of the first `x`. */
  function IndexOf(s: seq<int>, x: int): (i: nat)
    requires x in s
    ensures i < |s| && s[i] == x && x !in s[..i]
  {
    if s[0] == x then 0
    else
      var i := IndexOf(s[1..], x);
      assert s[1..][..i] == s[1..i + 1];
      1 + i
  }

  predicate ScoreLess(a: Score, b: Score)
  {
    match a
    case Infinite => false
    case Finite(x) => b.Infinite? || x < b.value
  }

  /** `abs(score) if score is not None else float("inf")`. */
  function Normalize(r: Option<real>): Score
  {
    if r.Some? then Finite(RAbs(r.value)) else Infinite
  }

  /** Score of a candidate: BD-rate of the baseline curve with its quality put at `pos`, against the baseline. */
  function CandidateScore(baseCurve: seq<Pair>, pos: nat, bitrate: int, candidate: RatedPoint,
                          ln: real -> real, exp: real -> real): Score
    requires pos < |baseCurve|
  {
    Normalize(BdRateOf(baseCurve[pos := (bitrate as real, candidate.vmaf)], baseCurve, TieBreakSamples, ln, exp))
  }

  /** `sorted(near_best, key=point_id)[0]`: the first candidate with the smallest id. */
  function LexMinById(nearBest: seq<RatedPoint>): (m: RatedPoint)
    requires nearBest != []
    ensures m in nearBest
    ensures forall c | c in nearBest :: !LexLess(c.pointId, m.pointId)
  {
    if |nearBest| == 1 then
      LexLessIrreflexive(nearBest[0].pointId);
      nearBest[0]
    else
      var head := nearBest[0];
      var rest := LexMinById(nearBest[1..]);
      assert nearBest == [head] + nearBest[1..];
      if LexLess(rest.pointId, head.pointId) then
        assert !LexLess(head.pointId, rest.pointId) by {
          LexLessAsymmetric(rest.pointId, head.pointId);
        }
        assert forall c | c in nearBest[1..] :: !LexLess(c.pointId, rest.pointId);
        rest
      else
        assert forall c | c in nearBest :: !LexLess(c.pointId, head.pointId) by {
          forall c | c in nearBest ensures !LexLess(c.pointId, head.pointId) {
            if c == head {
              LexLessIrreflexive(head.pointId);
            } else {
              LexNotLessTransitive(head.pointId, rest.pointId, c.pointId);
            }
          }
        }
        head
  }

  /**
    `sorted` is stable: among candidates sharing the smallest id, the first
    in list order is taken, so no candidate with that id comes before it.
  */
  lemma {:induction false} LexMinFirst(nearBest: seq<RatedPoint>)
    requires nearBest != []
    ensures forall i | 0 <= i < |nearBest| && nearBest[i].pointId == LexMinById(nearBest).pointId ::
      LexMinById(nearBest) in nearBest[..i + 1]
  {
    if |nearBest| > 1 {
      var head := nearBest[0];
      var tail := nearBest[1..];
      var rest := LexMinById(tail);
      LexMinFirst(tail);
      LexMinStep(nearBest);
      var m := LexMinById(nearBest);
      forall i | 0 <= i < |nearBest| && nearBest[i].pointId == m.pointId
        ensures m in nearBest[..i + 1]
      {
        if m == head {
          PrefixHasHead(nearBest, i);
        } else if i == 0 {
          LexLessIrreflexive(rest.pointId);
        } else {
          assert tail[i - 1] == nearBest[i];
          PrefixOfTail(nearBest, i, m);
        }
      }
    }
  }

  /** One unfolding of `LexMinById`: the head unless the rest's minimum has a smaller id. */
  lemma LexMinStep(nearBest: seq<RatedPoint>)
    requires |nearBest| > 1
    ensures var rest := LexMinById(nearBest[1..]);
      LexMinById(nearBest) == if LexLess(rest.pointId, nearBest[0].pointId) then rest else nearBest[0]
  {
  }

  lemma PrefixHasHead(s: seq<RatedPoint>, i: nat)
    requires i < |s|
    ensures s[0] in s[..i + 1]
  {
    assert s[..i + 1][0] == s[0];
  }

  lemma PrefixOfTail(s: seq<RatedPoint>, i: nat, x: RatedPoint)
    requires 0 < i < |s| && x in s[1..][..i]
    ensures x in s[..i + 1]
  {
    assert s[1..][..i] == s[..i + 1][1..];
  }

  /** The score of every near-best candidate, in order. */
  function Scores(baseCurve: seq<Pair>, pos: nat, bitrate: int, nearBest: seq<RatedPoint>,
                  ln: real -> real, exp: real -> real): (scores: seq<Score>)
    requires pos < |baseCurve|
    ensures |scores| == |nearBest|
  {
    seq(|nearBest|, j requires 0 <= j < |nearBest| => CandidateScore(baseCurve, pos, bitrate, nearBest[j], ln, exp))
  }

  /**
    The `for candidate in near_best` loop from position `i` on, with
    `scores[j]` the score of `nearBest[j]`: a candidate replaces the current
    best when its score is strictly smaller, or equal with a smaller id.
  */
  function TieScan(nearBest: seq<RatedPoint>, scores: seq<Score>, i: nat, best: RatedPoint, bestScore: Score): RatedPoint
    requires |scores| == |nearBest| && i <= |nearBest|
    decreases |nearBest| - i
  {
    if i == |nearBest| then best
    else
      var candidate := nearBest[i];
      if ScoreLess(scores[i], bestScore) || (scores[i] == bestScore && LexLess(candidate.pointId, best.pointId))
      then TieScan(nearBest, scores, i + 1, candidate, scores[i])
      else TieScan(nearBest, scores, i + 1, best, bestScore)
  }

  /** The representative of `bitrate`: the only near-best candidate, or the tie-break winner. */
  function Representative(candidates: seq<RatedPoint>, bitrates: seq<int>, baseline: map<int, real>,
                          bitrate: int, tol: real, ln: real -> real, exp: real -> real): Option<RatedPoint>
    requires bitrate in bitrates && bitrate in baseline
    requires forall i | 0 <= i < |bitrates| :: bitrates[i] in baseline
  {
    var nearBest := NearBest(candidates, baseline[bitrate], tol);
    if |nearBest| == 1 then Some(nearBest[0])
    else if nearBest == [] then None
    else
      var scores := Scores(BaseCurve(bitrates, baseline), IndexOf(bitrates, bitrate), bitrate, nearBest, ln, exp);
      Some(TieScan(nearBest, scores, 0, LexMinById(nearBest), Infinite))
  }

  /** The representative of the `k`-th smallest bitrate of `points`. */
  function RepresentativeAt(points: seq<RatedPoint>, tol: real, ln: real -> real, exp: real -> real, k: nat)
    : Option<RatedPoint>
    requires k < |Bitrates(points)|
  {
    var bs := Bitrates(points);
    Representative(Bucket(points, bs[k]), bs, Baseline(points), bs[k], tol, ln, exp)
  }

  /** The representative of every bitrate of `points`, lowest bitrate first. */
  function Choices(points: seq<RatedPoint>, tol: real, ln: real -> real, exp: real -> real)
    : seq<Option<RatedPoint>>
  {
    var bs := Bitrates(points);
    seq(|bs|, k requires 0 <= k < |bs| => RepresentativeAt(points, tol, ln, exp, k))
  }

  /**
    `selected_per_bitrate` after the first `n` choices, or `None` as soon as
    one of them is missing (the loop stops at the first such bitrate).
  */
  function Collect<T>(choices: seq<Option<T>>, n: nat): Option<seq<T>>
    requires n <= |choices|
  {
    if n == 0 then Some([])
    else match Collect(choices, n - 1)
      case None => None
      case Some(prefix) =>
        match choices[n - 1]
        case None => None
        case Some(w) => Some(prefix + [w])
  }

  predicate BitrateIncreasing(s: seq<RatedPoint>)
  {
    forall i, j | 0 <= i < j < |s| :: s[i].bitrateKbps < s[j].bitrateKbps
  }

  function InsertByBitrate(x: RatedPoint, s: seq<RatedPoint>): (r: seq<RatedPoint>)
    ensures multiset(r) == multiset(s) + multiset{x}
  {
    if s == [] || x.bitrateKbps <= s[0].bitrateKbps then [x] + s
    else
      assert s == [s[0]] + s[1..];
      [s[0]] + InsertByBitrate(x, s[1..])
  }

  /** `list.sort(key=bitrate_kbps)`: a stable insertion sort by bitrate. */
  function SortByBitrate(s: seq<RatedPoint>): (r: seq<RatedPoint>)
    ensures multiset(r) == multiset(s)
  {
    if s == [] then []
    else
      assert s == [s[0]] + s[1..];
      InsertByBitrate(s[0], SortByBitrate(s[1..]))
  }

  /** The sort leaves a list whose bitrates already increase strictly as it is. */
  lemma {:induction false} SortByBitrateIncreasing(s: seq<RatedPoint>)
    requires BitrateIncreasing(s)
    ensures SortByBitrate(s) == s
  {
    if s != [] {
      assert BitrateIncreasing(s[1..]) by {
        forall i, j | 0 <= i < j < |s| - 1 ensures s[1..][i].bitrateKbps < s[1..][j].bitrateKbps {
          assert s[1..][i] == s[i + 1] && s[1..][j] == s[j + 1];
        }
      }
      SortByBitrateIncreasing(s[1..]);
      assert s == [s[0]] + s[1..];
    }
  }

  /** `select_ladder` as a function of its inputs. */
  function Select(points: seq<RatedPoint>, tol: real, ln: real -> real, exp: real -> real)
    : Result<LadderSelection, LadderError>
  {
    if points == [] then Err(NoPoints)
    else match Collect(Choices(points, tol, ln, exp), |Bitrates(points)|)
      case None => Err(NoNearBestCandidate)
      case Some(reps) => Ok(Assemble(reps))
  }

  /** The end of `select_ladder`: sort the representatives by bitrate and keep their upper hull. */
  function Assemble(reps: seq<RatedPoint>): LadderSelection
  {
    var sorted := SortByBitrate(reps);
    var hull := Pick(sorted, HullIndices(sorted));
    LadderSelection(IdsOf(hull), hull)
  }

  /** `[point.point_id for point in hull_points]`. */
  function IdsOf(hull: seq<RatedPoint>): seq<string>
  {
    seq(|hull|, k requires 0 <= k < |hull| => hull[k].pointId)
  }

  /** Representatives already in increasing bitrate order are assembled without reordering. */
  lemma AssembleSorted(reps: seq<RatedPoint>)
    requires BitrateIncreasing(reps)
    ensures Assemble(reps) == LadderSelection(IdsOf(Pick(reps, HullIndices(reps))), Pick(reps, HullIndices(reps)))
  {
    SortByBitrateIncreasing(reps);
  }

  /** `[points[i] for i in indices]`. */
  function Pick(points: seq<RatedPoint>, indices: seq<nat>): (picked: seq<RatedPoint>)
    requires ValidIndices(points, indices)
  {
    seq(|indices|, k requires 0 <= k < |indices| => points[indices[k]])
  }

  /** The points picked along a right-turning index sequence turn right at every middle point. */
  lemma PickConcave(points: seq<RatedPoint>, indices: seq<nat>)
    requires ValidIndices(points, indices) && RightTurns(points, indices)
    ensures var hull := Pick(points, indices);
      forall k: nat | k + 2 < |hull| :: ConcaveAt(hull, k)
  {
    var hull := Pick(points, indices);
    forall k: nat | k + 2 < |hull|
      ensures ConcaveAt(hull, k)
    {
      assert TurnsRightAt(points, indices, k);
    }
  }

  /** The points picked along strictly increasing indices of a list with increasing bitrates have increasing bitrates. */
  lemma PickIncreasing(points: seq<RatedPoint>, indices: seq<nat>)
    requires ValidIndices(points, indices) && StrictlyIncreasing(indices) && BitrateIncreasing(points)
    ensures BitrateIncreasing(Pick(points, indices))
    ensures forall k | 0 <= k < |indices| :: Pick(points, indices)[k] in points
  {
    var hull := Pick(points, indices);
    forall i, j | 0 <= i < j < |hull|
      ensures hull[i].bitrateKbps < hull[j].bitrateKbps
    {
      assert indices[i] < indices[j];
    }
  }

  // ---------------------------------------------------------------------------
  // What select_ladder promises
  // ---------------------------------------------------------------------------

  /** A near-best set is empty exactly when the tolerance is negative. */
  lemma NearBestNonEmpty(bucket: seq<RatedPoint>, tol: real)
    requires bucket != []
    ensures NearBest(bucket, MaxVmaf(bucket), tol) != [] <==> tol >= 0.0
  {
    var nb := NearBest(bucket, MaxVmaf(bucket), tol);
    if tol >= 0.0 {
      var p :| p in bucket && p.vmaf == MaxVmaf(bucket);
      assert p in nb;
    }
  }

  /** Every bitrate of a non-empty input has a representative exactly when the tolerance is not negative. */
  lemma RepresentativeAtDefined(points: seq<RatedPoint>, tol: real, ln: real -> real, exp: real -> real, k: nat)
    requires k < |Bitrates(points)|
    ensures RepresentativeAt(points, tol, ln, exp, k).Some? <==> tol >= 0.0
  {
    var b := Bitrates(points)[k];
    assert b in Bitrates(points);
    BucketMembers(points, b);
    NearBestNonEmpty(Bucket(points, b), tol);
  }

  /** Once a choice is missing, every longer prefix fails too. */
  lemma {:induction false} CollectNonePersists<T>(choices: seq<Option<T>>, k: nat, n: nat)
    requires k <= n <= |choices| && Collect(choices, k).None?
    ensures Collect(choices, n).None?
    decreases n
  {
    if k < n {
      CollectNonePersists(choices, k, n - 1);
    }
  }

  /** One more choice extends the collected prefix, or ends the collection when it is missing. */
  lemma CollectStep<T>(choices: seq<Option<T>>, k: nat, prefix: seq<T>)
    requires k < |choices| && Collect(choices, k) == Some(prefix)
    ensures Collect(choices, k + 1) == if choices[k].Some? then Some(prefix + [choices[k].value]) else None
  {
  }

  /** `Collect` succeeds exactly when every one of the first `n` choices is present, and then lists them in order. */
  lemma {:induction false} CollectShape<T>(choices: seq<Option<T>>, n: nat)
    requires n <= |choices|
    ensures Collect(choices, n).Some? <==> forall k | 0 <= k < n :: choices[k].Some?
    ensures Collect(choices, n).Some? ==>
      |Collect(choices, n).value| == n && forall k | 0 <= k < n :: choices[k] == Some(Collect(choices, n).value[k])
  {
    if n > 0 {
      CollectShape(choices, n - 1);
    }
  }

  /**
    `select_ladder` fails with `ValueError` exactly on an empty input, and
    otherwise fails (`IndexError`) exactly when the tolerance is negative.
  */
  lemma SelectFails(points: seq<RatedPoint>, tol: real, ln: real -> real, exp: real -> real)
    ensures Select(points, tol, ln, exp) == Err(NoPoints) <==> points == []
    ensures Select(points, tol, ln, exp) == Err(NoNearBestCandidate) <==> points != [] && tol < 0.0
    ensures Select(points, tol, ln, exp).Ok? <==> points != [] && tol >= 0.0
  {
    if points != [] {
      assert points[0] in points;
      assert HasBitrate(points, points[0].bitrateKbps);
      var choices := Choices(points, tol, ln, exp);
      forall k | 0 <= k < |choices|
        ensures choices[k].Some? <==> tol >= 0.0
      {
        RepresentativeAtDefined(points, tol, ln, exp, k);
      }
      CollectShape(choices, |choices|);
    }
  }

  /**
    `w` wins the tie-break among `nearBest`, where `scores[j]` scores
    `nearBest[j]`: no candidate scores strictly better, and a candidate that
    scores the same has an id that is not smaller.
  */
  predicate WinsTieBreak(nearBest: seq<RatedPoint>, scores: seq<Score>, w: RatedPoint)
    requires |scores| == |nearBest|
  {
    forall i, j | 0 <= i < |nearBest| && 0 <= j < |nearBest| && nearBest[i] == w ::
      && !ScoreLess(scores[j], scores[i])
      && (scores[j] == scores[i] ==> !LexLess(nearBest[j].pointId, w.pointId))
  }

  /** The loop invariant of the tie-break (`best` sits at `bestAt`), carried to the end of the scan. */
  lemma {:induction false} TieScanWins(nearBest: seq<RatedPoint>, scores: seq<Score>, i: nat,
                                       best: RatedPoint, bestScore: Score, bestAt: nat)
    requires |scores| == |nearBest| && i <= |nearBest|
    requires forall a, b | 0 <= a < |nearBest| && 0 <= b < |nearBest| && nearBest[a] == nearBest[b] :: scores[a] == scores[b]
    requires bestAt < |nearBest| && nearBest[bestAt] == best
    requires forall j | 0 <= j < i :: !ScoreLess(scores[j], bestScore)
    requires bestScore.Finite? ==> scores[bestAt] == bestScore
    requires forall j | 0 <= j < i :: scores[j] == bestScore ==> !LexLess(nearBest[j].pointId, best.pointId)
    requires bestScore.Infinite? ==> forall j | 0 <= j < |nearBest| :: !LexLess(nearBest[j].pointId, best.pointId)
    ensures var w := TieScan(nearBest, scores, i, best, bestScore);
      w in nearBest && WinsTieBreak(nearBest, scores, w)
    decreases |nearBest| - i
  {
    if i < |nearBest| {
      var c := nearBest[i];
      var s := scores[i];
      if ScoreLess(s, bestScore) || (s == bestScore && LexLess(c.pointId, best.pointId)) {
        forall j | 0 <= j < i + 1 && scores[j] == s
          ensures !LexLess(nearBest[j].pointId, c.pointId)
        {
          if j == i {
            LexLessIrreflexive(c.pointId);
          } else {
            LexLessAsymmetric(c.pointId, best.pointId);
            LexNotLessTransitive(c.pointId, best.pointId, nearBest[j].pointId);
          }
        }
        TieScanWins(nearBest, scores, i + 1, c, s, i);
      } else {
        TieScanWins(nearBest, scores, i + 1, best, bestScore, bestAt);
      }
    }
  }

  /**
    The representative of a bitrate is a near-best candidate of its bucket and
    wins the tie-break: smallest score, then smallest id among equal scores.
  */
  lemma RepresentativeChoice(candidates: seq<RatedPoint>, bitrates: seq<int>, baseline: map<int, real>,
                             bitrate: int, tol: real, ln: real -> real, exp: real -> real)
    requires bitrate in bitrates && bitrate in baseline
    requires forall i | 0 <= i < |bitrates| :: bitrates[i] in baseline
    requires Representative(candidates, bitrates, baseline, bitrate, tol, ln, exp).Some?
    ensures var w := Representative(candidates, bitrates, baseline, bitrate, tol, ln, exp).value;
      var nearBest := NearBest(candidates, baseline[bitrate], tol);
      && w in candidates && RAbs(w.vmaf - baseline[bitrate]) <= tol
      && WinsTieBreak(nearBest, Scores(BaseCurve(bitrates, baseline), IndexOf(bitrates, bitrate), bitrate, nearBest, ln, exp), w)
  {
    var nearBest := NearBest(candidates, baseline[bitrate], tol);
    var scores := Scores(BaseCurve(bitrates, baseline), IndexOf(bitrates, bitrate), bitrate, nearBest, ln, exp);
    if |nearBest| == 1 {
      SingleWins(nearBest, scores);
    } else {
      assert forall a, b | 0 <= a < |nearBest| && 0 <= b < |nearBest| && nearBest[a] == nearBest[b] :: scores[a] == scores[b];
      var firstAt := LexMinAt(nearBest);
      TieScanWins(nearBest, scores, 0, LexMinById(nearBest), Infinite, firstAt);
    }
  }

  /** A lone near-best candidate wins the tie-break. */
  lemma SingleWins(nearBest: seq<RatedPoint>, scores: seq<Score>)
    requires |nearBest| == 1 && |scores| == 1
    ensures nearBest[0] in nearBest && WinsTieBreak(nearBest, scores, nearBest[0])
  {
    LexLessIrreflexive(nearBest[0].pointId);
  }

  /** Where the smallest id sits. */
  lemma LexMinAt(nearBest: seq<RatedPoint>) returns (k: nat)
    requires nearBest != []
    ensures k < |nearBest| && nearBest[k] == LexMinById(nearBest)
  {
    var first := LexMinById(nearBest);
    k :| k < |nearBest| && nearBest[k] == first;
  }

  /**
    The representative chosen for the `k`-th bitrate: a point of the input at
    that bitrate, within the tolerance of the best VMAF at that bitrate, and
    the tie-break winner among those near-best points.
  */
  lemma RepresentativeAtChoice(points: seq<RatedPoint>, tol: real, ln: real -> real, exp: real -> real, k: nat)
    requires k < |Bitrates(points)| && RepresentativeAt(points, tol, ln, exp, k).Some?
    ensures var w := RepresentativeAt(points, tol, ln, exp, k).value;
      var bs := Bitrates(points);
      var bucket := Bucket(points, bs[k]);
      && w in bucket && w in points && w.bitrateKbps == bs[k]
      && bucket != [] && RAbs(w.vmaf - MaxVmaf(bucket)) <= tol
      && var nearBest := NearBest(bucket, MaxVmaf(bucket), tol);
         WinsTieBreak(nearBest, Scores(BaseCurve(bs, Baseline(points)), k, bs[k], nearBest, ln, exp), w)
  {
    var bs := Bitrates(points);
    BaselineAt(points, k);
    IndexOfIncreasing(bs, k);
    RepresentativeChoice(Bucket(points, bs[k]), bs, Baseline(points), bs[k], tol, ln, exp);
  }

  /** The representative chosen for the `k`-th bitrate is a point of the input at that bitrate. */
  lemma RepresentativeAtMember(points: seq<RatedPoint>, tol: real, ln: real -> real, exp: real -> real, k: nat)
    requires k < |Bitrates(points)| && RepresentativeAt(points, tol, ln, exp, k).Some?
    ensures RepresentativeAt(points, tol, ln, exp, k).value in points
    ensures RepresentativeAt(points, tol, ln, exp, k).value.bitrateKbps == Bitrates(points)[k]
  {
    RepresentativeAtChoice(points, tol, ln, exp, k);
  }

  /**
    `p` is the best point at its bitrate, and every other point there that is
    within the tolerance of it has the same VMAF and a larger id.
  */
  predicate ClearlyBest(points: seq<RatedPoint>, tol: real, p: RatedPoint)
  {
    && p in points
    && forall q | q in points && q.bitrateKbps == p.bitrateKbps ::
         && q.vmaf <= p.vmaf
         && (q != p && p.vmaf - q.vmaf <= tol ==> q.vmaf == p.vmaf && LexLess(p.pointId, q.pointId))
  }

  /**
    A clearly best point represents its bitrate: its near-tied rivals score
    the same in the tie-break, whatever the logarithm, and lose on their ids.
  */
  lemma ClearWinner(points: seq<RatedPoint>, tol: real, ln: real -> real, exp: real -> real, k: nat, p: RatedPoint)
    requires k < |Bitrates(points)| && tol >= 0.0
    requires ClearlyBest(points, tol, p) && p.bitrateKbps == Bitrates(points)[k]
    ensures RepresentativeAt(points, tol, ln, exp, k) == Some(p)
  {
    var bs := Bitrates(points);
    BaselineAt(points, k);
    BucketBest(points, tol, p);
    ClearWinnerAmong(Bucket(points, bs[k]), bs, Baseline(points), bs[k], tol, ln, exp, p);
  }

  /** `ClearWinner` for one bucket of candidates and its baseline. */
  lemma ClearWinnerAmong(candidates: seq<RatedPoint>, bitrates: seq<int>, baseline: map<int, real>,
                         bitrate: int, tol: real, ln: real -> real, exp: real -> real, p: RatedPoint)
    requires bitrate in bitrates && bitrate in baseline
    requires forall i | 0 <= i < |bitrates| :: bitrates[i] in baseline
    requires tol >= 0.0 && p in candidates && baseline[bitrate] == p.vmaf
    requires forall q | q in candidates ::
      q.vmaf <= p.vmaf && (q != p && p.vmaf - q.vmaf <= tol ==> q.vmaf == p.vmaf && LexLess(p.pointId, q.pointId))
    ensures Representative(candidates, bitrates, baseline, bitrate, tol, ln, exp) == Some(p)
  {
    var nb := NearBest(candidates, p.vmaf, tol);
    assert p in nb;
    RepresentativeChoice(candidates, bitrates, baseline, bitrate, tol, ln, exp);
    var w := Representative(candidates, bitrates, baseline, bitrate, tol, ln, exp).value;
    assert w in nb;
    var i :| 0 <= i < |nb| && nb[i] == w;
    var j :| 0 <= j < |nb| && nb[j] == p;
    var scores := Scores(BaseCurve(bitrates, baseline), IndexOf(bitrates, bitrate), bitrate, nb, ln, exp);
    assert scores[i] == scores[j];
    TieWinnerUnique(nb, scores, i, j);
  }

  /** The bucket of a clearly best point holds it, has its VMAF as maximum, and holds only its rivals. */
  lemma BucketBest(points: seq<RatedPoint>, tol: real, p: RatedPoint)
    requires ClearlyBest(points, tol, p)
    ensures var bucket := Bucket(points, p.bitrateKbps);
      && p in bucket && MaxVmaf(bucket) == p.vmaf
      && forall q | q in bucket :: q in points && q.bitrateKbps == p.bitrateKbps
  {
    var bucket := Bucket(points, p.bitrateKbps);
    BucketMembers(points, p.bitrateKbps);
    var m := MaxVmaf(bucket);
    var top :| top in bucket && top.vmaf == m;
    assert top in points && top.bitrateKbps == p.bitrateKbps;
  }

  /**
    Of two near-best candidates with equal scores, the tie-break winner is
    not the one with the larger id.
  */
  lemma TieWinnerUnique(nearBest: seq<RatedPoint>, scores: seq<Score>, i: nat, j: nat)
    requires |scores| == |nearBest| && i < |nearBest| && j < |nearBest|
    requires WinsTieBreak(nearBest, scores, nearBest[i]) && scores[i] == scores[j]
    ensures !LexLess(nearBest[j].pointId, nearBest[i].pointId)
  {
  }

  /** The baseline holds every bitrate, and at the `k`-th one the best VMAF of its non-empty bucket. */
  lemma BaselineAt(points: seq<RatedPoint>, k: nat)
    requires k < |Bitrates(points)|
    ensures var bs := Bitrates(points);
      && (forall i | 0 <= i < |bs| :: bs[i] in Baseline(points))
      && Bucket(points, bs[k]) != []
      && Baseline(points)[bs[k]] == MaxVmaf(Bucket(points, bs[k]))
      && forall p | p in Bucket(points, bs[k]) :: p in points && p.bitrateKbps == bs[k]
  {
    var bs := Bitrates(points);
    assert forall i | 0 <= i < |bs| :: bs[i] in bs;
    BucketMembers(points, bs[k]);
  }

  /** The `k`-th choice is the representative of the `k`-th bitrate's bucket. */
  lemma ChoiceAt(points: seq<RatedPoint>, tol: real, ln: real -> real, exp: real -> real, k: nat)
    requires k < |Bitrates(points)|
    ensures var bs := Bitrates(points);
      && (forall i | 0 <= i < |bs| :: bs[i] in Baseline(points))
      && bs[k] in bs
      && Choices(points, tol, ln, exp)[k]
         == Representative(Bucket(points, bs[k]), bs, Baseline(points), bs[k], tol, ln, exp)
  {
    BaselineAt(points, k);
  }

  lemma IndexOfIncreasing(s: seq<int>, k: nat)
    requires StrictlyIncreasing(s) && k < |s|
    ensures IndexOf(s, s[k]) == k
  {
    var i := IndexOf(s, s[k]);
    assert i <= k ==> s[k] !in s[..k] || i == k;
  }

  /** The hull points at positions `k`, `k + 1`, `k + 2` make a strict right turn. */
  predicate ConcaveAt(hull: seq<RatedPoint>, k: nat)
    requires k + 2 < |hull|
  {
    Cross(hull[k], hull[k + 1], hull[k + 2]) < 0.0
  }

  /**
    What `Assemble` keeps of representatives whose bitrates increase
    strictly: the ids of the hull points in order, at least one point,
    strictly increasing bitrates, the first and the last representative,
    nothing but representatives, and a strict right turn at every middle point.
  */
  lemma AssembleShape(reps: seq<RatedPoint>)
    requires reps != [] && BitrateIncreasing(reps)
    ensures var sel := Assemble(reps);
      var hull := sel.hullPoints;
      && |sel.selectedIds| == |hull|
      && (forall k | 0 <= k < |hull| :: sel.selectedIds[k] == hull[k].pointId)
      && 1 <= |hull| <= |reps|
      && BitrateIncreasing(hull)
      && hull[0] == reps[0] && hull[|hull| - 1] == reps[|reps| - 1]
      && (forall k | 0 <= k < |hull| :: hull[k] in reps)
      && (forall k: nat | k + 2 < |hull| :: ConcaveAt(hull, k))
  {
    assert Assemble(reps).hullPoints == Pick(reps, HullIndices(reps)) by {
      SortByBitrateIncreasing(reps);
    }
    HullPick(reps);
  }

  /** The upper hull of a non-empty list with increasing bitrates, as points. */
  lemma HullPick(reps: seq<RatedPoint>)
    requires reps != [] && BitrateIncreasing(reps)
    ensures var hull := Pick(reps, HullIndices(reps));
      && 1 <= |hull| <= |reps|
      && BitrateIncreasing(hull)
      && hull[0] == reps[0] && hull[|hull| - 1] == reps[|reps| - 1]
      && (forall k | 0 <= k < |hull| :: hull[k] in reps)
      && (forall k: nat | k + 2 < |hull| :: ConcaveAt(hull, k))
  {
    HullShape(reps);
    var indices := HullIndices(reps);
    assert |indices| <= |reps| by {
      IncreasingBounded(indices, |reps|);
    }
    PickIncreasing(reps, indices);
    PickConcave(reps, indices);
  }

  /** The collected representatives are the choices, one for each bitrate. */
  lemma CollectedChoices(points: seq<RatedPoint>, tol: real, ln: real -> real, exp: real -> real,
                         reps: seq<RatedPoint>)
    requires Collect(Choices(points, tol, ln, exp), |Bitrates(points)|) == Some(reps)
    ensures |reps| == |Bitrates(points)|
    ensures forall k | 0 <= k < |reps| :: RepresentativeAt(points, tol, ln, exp, k) == Some(reps[k])
  {
    var choices := Choices(points, tol, ln, exp);
    CollectShape(choices, |choices|);
    forall k | 0 <= k < |reps|
      ensures RepresentativeAt(points, tol, ln, exp, k) == Some(reps[k])
    {
      assert choices[k] == RepresentativeAt(points, tol, ln, exp, k);
    }
  }

  /** The collected representatives carry the sorted bitrates, in order. */
  lemma CollectedBitrates(points: seq<RatedPoint>, tol: real, ln: real -> real, exp: real -> real,
                          reps: seq<RatedPoint>)
    requires Collect(Choices(points, tol, ln, exp), |Bitrates(points)|) == Some(reps)
    ensures |reps| == |Bitrates(points)|
    ensures forall k | 0 <= k < |reps| :: reps[k].bitrateKbps == Bitrates(points)[k]
  {
    CollectedChoices(points, tol, ln, exp, reps);
    forall k | 0 <= k < |reps|
      ensures reps[k].bitrateKbps == Bitrates(points)[k]
    {
      RepresentativeAtMember(points, tol, ln, exp, k);
    }
  }

  /** A successful selection assembles the collected representatives. */
  lemma SelectAssembles(points: seq<RatedPoint>, tol: real, ln: real -> real, exp: real -> real,
                        sel: LadderSelection)
    requires Select(points, tol, ln, exp) == Ok(sel)
    ensures points != []
    ensures Collect(Choices(points, tol, ln, exp), |Bitrates(points)|).Some?
    ensures sel == Assemble(Collect(Choices(points, tol, ln, exp), |Bitrates(points)|).value)
  {
  }

  /** `Assemble` over representatives that carry the bitrates `bs` in order. */
  lemma AssembleBitrates(reps: seq<RatedPoint>, bs: seq<int>)
    requires |reps| == |bs| > 0 && StrictlyIncreasing(bs)
    requires forall k | 0 <= k < |reps| :: reps[k].bitrateKbps == bs[k]
    ensures var sel := Assemble(reps);
      var hull := sel.hullPoints;
      && |sel.selectedIds| == |hull|
      && (forall k | 0 <= k < |hull| :: sel.selectedIds[k] == hull[k].pointId)
      && 1 <= |hull| <= |bs|
      && BitrateIncreasing(hull)
      && hull[0].bitrateKbps == bs[0] && hull[|hull| - 1].bitrateKbps == bs[|bs| - 1]
      && (forall k: nat | k + 2 < |hull| :: ConcaveAt(hull, k))
  {
    assert BitrateIncreasing(reps);
    AssembleShape(reps);
  }

  /** A non-empty input has at least one bitrate. */
  lemma BitratesNonEmpty(points: seq<RatedPoint>)
    requires points != []
    ensures |Bitrates(points)| > 0
  {
    assert points[0] in points && HasBitrate(points, points[0].bitrateKbps);
  }

  /**
    The shape of a successful selection: the ids of the hull points in order,
    at least one point, strictly increasing bitrates (so one point per
    bitrate at most) from the lowest bitrate of the input to the highest,
    and a strict right turn at every middle point.
  */
  lemma SelectionStructure(points: seq<RatedPoint>, tol: real, ln: real -> real, exp: real -> real,
                           sel: LadderSelection)
    requires Select(points, tol, ln, exp) == Ok(sel)
    ensures var hull := sel.hullPoints;
      var bs := Bitrates(points);
      && |sel.selectedIds| == |hull|
      && (forall k | 0 <= k < |hull| :: sel.selectedIds[k] == hull[k].pointId)
      && 1 <= |hull| <= |bs|
      && BitrateIncreasing(hull)
      && hull[0].bitrateKbps == bs[0] && hull[|hull| - 1].bitrateKbps == bs[|bs| - 1]
      && (forall k: nat | k + 2 < |hull| :: ConcaveAt(hull, k))
  {
    SelectAssembles(points, tol, ln, exp, sel);
    var reps := Collect(Choices(points, tol, ln, exp), |Bitrates(points)|).value;
    CollectedBitrates(points, tol, ln, exp, reps);
    BitratesNonEmpty(points);
    AssembleBitrates(reps, Bitrates(points));
  }

  /** Each hull point of `Assemble` is the representative at the position of its bitrate in `bs`. */
  lemma AssembleFrom(reps: seq<RatedPoint>, bs: seq<int>)
    requires |reps| == |bs| > 0 && StrictlyIncreasing(bs)
    requires forall k | 0 <= k < |reps| :: reps[k].bitrateKbps == bs[k]
    ensures var hull := Assemble(reps).hullPoints;
      forall k | 0 <= k < |hull| :: hull[k].bitrateKbps in bs && reps[IndexOf(bs, hull[k].bitrateKbps)] == hull[k]
  {
    assert BitrateIncreasing(reps);
    AssembleShape(reps);
    var hull := Assemble(reps).hullPoints;
    forall k | 0 <= k < |hull|
      ensures hull[k].bitrateKbps in bs && reps[IndexOf(bs, hull[k].bitrateKbps)] == hull[k]
    {
      var i :| 0 <= i < |reps| && reps[i] == hull[k];
      IndexOfIncreasing(bs, i);
    }
  }

  /** Every point of a successful selection is the representative chosen for its bitrate. */
  lemma SelectionRepresentatives(points: seq<RatedPoint>, tol: real, ln: real -> real, exp: real -> real,
                                 sel: LadderSelection)
    requires Select(points, tol, ln, exp) == Ok(sel)
    ensures var bs := Bitrates(points);
      forall k | 0 <= k < |sel.hullPoints| ::
        sel.hullPoints[k].bitrateKbps in bs
        && RepresentativeAt(points, tol, ln, exp, IndexOf(bs, sel.hullPoints[k].bitrateKbps)) == Some(sel.hullPoints[k])
  {
    SelectAssembles(points, tol, ln, exp, sel);
    var bs := Bitrates(points);
    var reps := Collect(Choices(points, tol, ln, exp), |bs|).value;
    assert |reps| == |bs| && forall k | 0 <= k < |reps| :: RepresentativeAt(points, tol, ln, exp, k) == Some(reps[k]) by {
      CollectedChoices(points, tol, ln, exp, reps);
    }
    assert forall k | 0 <= k < |reps| :: reps[k].bitrateKbps == bs[k] by {
      CollectedBitrates(points, tol, ln, exp, reps);
    }
    assert |bs| > 0 by {
      BitratesNonEmpty(points);
    }
    AssembleFrom(reps, bs);
    HullRepresentatives(points, tol, ln, exp, reps, sel.hullPoints);
  }

  /** Hull points drawn from the representatives at their bitrates' positions are those representatives. */
  lemma HullRepresentatives(points: seq<RatedPoint>, tol: real, ln: real -> real, exp: real -> real,
                            reps: seq<RatedPoint>, hull: seq<RatedPoint>)
    requires |reps| == |Bitrates(points)|
    requires forall k | 0 <= k < |reps| :: RepresentativeAt(points, tol, ln, exp, k) == Some(reps[k])
    requires forall k | 0 <= k < |hull| ::
      hull[k].bitrateKbps in Bitrates(points) && reps[IndexOf(Bitrates(points), hull[k].bitrateKbps)] == hull[k]
    ensures forall k | 0 <= k < |hull| ::
      hull[k].bitrateKbps in Bitrates(points)
      && RepresentativeAt(points, tol, ln, exp, IndexOf(Bitrates(points), hull[k].bitrateKbps)) == Some(hull[k])
  {
  }

  /**
    What a successful `select_ladder` returns: the ids of the hull points in
    order; at least one point; strictly increasing bitrates (so one point per
    bitrate at most), from the lowest bitrate of the input to the highest;
    each point the representative chosen for its bitrate; and a strict right
    turn at every middle point.
  */
  lemma SelectionShape(points: seq<RatedPoint>, tol: real, ln: real -> real, exp: real -> real,
                       sel: LadderSelection)
    requires Select(points, tol, ln, exp) == Ok(sel)
    ensures var hull := sel.hullPoints;
      var bs := Bitrates(points);
      && |sel.selectedIds| == |hull|
      && (forall k | 0 <= k < |hull| :: sel.selectedIds[k] == hull[k].pointId)
      && 1 <= |hull| <= |bs|
      && BitrateIncreasing(hull)
      && hull[0].bitrateKbps == bs[0] && hull[|hull| - 1].bitrateKbps == bs[|bs| - 1]
      && (forall k | 0 <= k < |hull| ::
            hull[k].bitrateKbps in bs
            && RepresentativeAt(points, tol, ln, exp, IndexOf(bs, hull[k].bitrateKbps)) == Some(hull[k]))
      && (forall k: nat | k + 2 < |hull| :: ConcaveAt(hull, k))
  {
    SelectionStructure(points, tol, ln, exp, sel);
    SelectionRepresentatives(points, tol, ln, exp, sel);
  }

  /** Strictly increasing indices below `n` number at most `n`. */
  lemma {:induction false} IncreasingBounded(s: seq<nat>, n: nat)
    requires StrictlyIncreasing(s) && forall k | 0 <= k < |s| :: s[k] < n
    ensures |s| <= n
  {
    if s != [] {
      var init := s[..|s| - 1];
      assert StrictlyIncreasing(init) by {
        forall i, j | 0 <= i < j < |init| ensures init[i] < init[j] {
          assert init[i] == s[i] && init[j] == s[j];
        }
      }
      IncreasingBounded(init, s[|s| - 1]);
    }
  }

  // ---------------------------------------------------------------------------
  // select_ladder as written
  // ---------------------------------------------------------------------------

  /** `grouped.setdefault(point.bitrate_kbps, []).append(point)` over all points; `keys` is the dict's key order. */
  lemma KeysStep(points: seq<RatedPoint>, i: nat)
    requires i < |points|
    ensures var ks := Keys(points[..i]);
      Keys(points[..i + 1]) == if points[i].bitrateKbps in ks then ks else ks + [points[i].bitrateKbps]
  {
    assert points[..i + 1][..i] == points[..i];
  }

  lemma BucketStep(points: seq<RatedPoint>, i: nat, b: int)
    requires i < |points|
    ensures Bucket(points[..i + 1], b) == Bucket(points[..i], b) + if points[i].bitrateKbps == b then [points[i]] else []
  {
    assert points[..i + 1][..i] == points[..i];
  }

  method GroupByBitrate(points: seq<RatedPoint>) returns (grouped: map<int, seq<RatedPoint>>, keys: seq<int>)
    ensures keys == Keys(points)
    ensures forall b :: b in grouped <==> b in keys
    ensures forall b | b in grouped :: grouped[b] == Bucket(points, b)
  {
    grouped := map[];
    keys := [];
    for i := 0 to |points|
      invariant keys == Keys(points[..i])
      invariant forall b :: b in grouped <==> b in keys
      invariant forall b | b in grouped :: grouped[b] == Bucket(points[..i], b)
    {
      var point := points[i];
      KeysStep(points, i);
      forall b {
        BucketStep(points, i, b);
      }
      if point.bitrateKbps in grouped {
        grouped := grouped[point.bitrateKbps := grouped[point.bitrateKbps] + [point]];
      } else {
        assert Bucket(points[..i], point.bitrateKbps) == [] by {
          KeysMembers(points[..i]);
          BucketMembers(points[..i], point.bitrateKbps);
        }
        grouped := grouped[point.bitrateKbps := [point]];
        keys := keys + [point.bitrateKbps];
      }
    }
    assert points[..|points|] == points;
  }

  /** `baseline[bitrate] = max(candidate.vmaf for candidate in grouped[bitrate])` for every bitrate. */
  method BaselineOf(grouped: map<int, seq<RatedPoint>>, bitratesSorted: seq<int>) returns (baseline: map<int, real>)
    requires forall i | 0 <= i < |bitratesSorted| :: bitratesSorted[i] in grouped && grouped[bitratesSorted[i]] != []
    ensures forall b :: b in baseline <==> b in bitratesSorted
    ensures forall b | b in baseline :: b in grouped && grouped[b] != [] && baseline[b] == MaxVmaf(grouped[b])
  {
    baseline := map[];
    for k := 0 to |bitratesSorted|
      invariant forall b :: b in baseline <==> b in bitratesSorted[..k]
      invariant forall b | b in baseline :: b in grouped && grouped[b] != [] && baseline[b] == MaxVmaf(grouped[b])
    {
      var bitrate := bitratesSorted[k];
      assert bitratesSorted[..k + 1] == bitratesSorted[..k] + [bitrate];
      baseline := baseline[bitrate := MaxVmaf(grouped[bitrate])];
    }
    assert bitratesSorted[..|bitratesSorted|] == bitratesSorted;
  }

  /** The tie-break loop over `near_best`. */
  method TieBreak(baseCurve: seq<Pair>, pos: nat, bitrate: int, nearBest: seq<RatedPoint>,
                  ln: real -> real, exp: real -> real) returns (best: RatedPoint)
    requires pos < |baseCurve| && nearBest != []
    ensures best == TieScan(nearBest, Scores(baseCurve, pos, bitrate, nearBest, ln, exp), 0, LexMinById(nearBest), Infinite)
  {
    ghost var scores := Scores(baseCurve, pos, bitrate, nearBest, ln, exp);
    best := LexMinById(nearBest);
    var bestScore := Infinite;
    for i := 0 to |nearBest|
      invariant TieScan(nearBest, scores, i, best, bestScore) == TieScan(nearBest, scores, 0, LexMinById(nearBest), Infinite)
    {
      var candidate := nearBest[i];
      var curve := baseCurve[pos := (bitrate as real, candidate.vmaf)];
      var score := BdRate(curve, baseCurve, TieBreakSamples, ln, exp);
      var normalized := if score.Some? then Finite(RAbs(score.value)) else Infinite;
      assert normalized == scores[i];
      if ScoreLess(normalized, bestScore) || (normalized == bestScore && LexLess(candidate.pointId, best.pointId)) {
        best := candidate;
        bestScore := normalized;
      }
    }
  }

  /** The body of the per-bitrate loop: the only near-best candidate, or the tie-break winner. */
  method PickRepresentative(candidates: seq<RatedPoint>, bitratesSorted: seq<int>, baseline: map<int, real>,
                            bitrate: int, tol: real, ln: real -> real, exp: real -> real)
    returns (r: Option<RatedPoint>)
    requires bitrate in bitratesSorted && bitrate in baseline
    requires forall i | 0 <= i < |bitratesSorted| :: bitratesSorted[i] in baseline
    ensures r == Representative(candidates, bitratesSorted, baseline, bitrate, tol, ln, exp)
  {
    var bestVmaf := baseline[bitrate];
    var nearBest := NearBest(candidates, bestVmaf, tol);
    if |nearBest| == 1 {
      return Some(nearBest[0]);
    }
    var baseCurve := BaseCurve(bitratesSorted, baseline);
    if nearBest == [] {
      return None;
    }
    var best := TieBreak(baseCurve, IndexOf(bitratesSorted, bitrate), bitrate, nearBest, ln, exp);
    return Some(best);
  }

  /** The representative of every bitrate of `bitrates`, read from the buckets in `grouped`. */
  function ChoicesOf(grouped: map<int, seq<RatedPoint>>, bitrates: seq<int>, baseline: map<int, real>,
                     tol: real, ln: real -> real, exp: real -> real): seq<Option<RatedPoint>>
    requires forall i | 0 <= i < |bitrates| :: bitrates[i] in grouped && bitrates[i] in baseline
  {
    seq(|bitrates|, k requires 0 <= k < |bitrates| =>
      Representative(grouped[bitrates[k]], bitrates, baseline, bitrates[k], tol, ln, exp))
  }

  /** With the buckets and the baseline of `points`, the loop makes the choices of `points`. */
  lemma ChoicesAgree(points: seq<RatedPoint>, grouped: map<int, seq<RatedPoint>>,
                     bitratesSorted: seq<int>, baseline: map<int, real>,
                     tol: real, ln: real -> real, exp: real -> real)
    requires bitratesSorted == Bitrates(points) && baseline == Baseline(points)
    requires forall i | 0 <= i < |bitratesSorted| ::
      bitratesSorted[i] in grouped && grouped[bitratesSorted[i]] == Bucket(points, bitratesSorted[i])
    ensures forall i | 0 <= i < |bitratesSorted| :: bitratesSorted[i] in baseline
    ensures ChoicesOf(grouped, bitratesSorted, baseline, tol, ln, exp) == Choices(points, tol, ln, exp)
  {
    if bitratesSorted != [] {
      BaselineAt(points, 0);
    }
    forall k | 0 <= k < |bitratesSorted|
      ensures ChoicesOf(grouped, bitratesSorted, baseline, tol, ln, exp)[k] == Choices(points, tol, ln, exp)[k]
    {
      ChoiceOfAt(points, grouped, bitratesSorted, baseline, tol, ln, exp, k);
    }
  }

  lemma ChoiceOfAt(points: seq<RatedPoint>, grouped: map<int, seq<RatedPoint>>,
                   bitratesSorted: seq<int>, baseline: map<int, real>,
                   tol: real, ln: real -> real, exp: real -> real, k: nat)
    requires bitratesSorted == Bitrates(points) && baseline == Baseline(points)
    requires forall i | 0 <= i < |bitratesSorted| ::
      bitratesSorted[i] in grouped && grouped[bitratesSorted[i]] == Bucket(points, bitratesSorted[i])
    requires forall i | 0 <= i < |bitratesSorted| :: bitratesSorted[i] in baseline
    requires k < |bitratesSorted|
    ensures ChoicesOf(grouped, bitratesSorted, baseline, tol, ln, exp)[k] == Choices(points, tol, ln, exp)[k]
  {
    ChoiceAt(points, tol, ln, exp, k);
  }

  /** The per-bitrate loop of `select_ladder`: one representative for each bitrate in increasing order. */
  method ChooseRepresentatives(grouped: map<int, seq<RatedPoint>>, bitratesSorted: seq<int>, baseline: map<int, real>,
                               tol: real, ln: real -> real, exp: real -> real)
    returns (selected: Option<seq<RatedPoint>>)
    requires forall i | 0 <= i < |bitratesSorted| :: bitratesSorted[i] in grouped && bitratesSorted[i] in baseline
    ensures selected == Collect(ChoicesOf(grouped, bitratesSorted, baseline, tol, ln, exp), |bitratesSorted|)
  {
    ghost var choices := ChoicesOf(grouped, bitratesSorted, baseline, tol, ln, exp);
    var chosen: seq<RatedPoint> := [];
    for k := 0 to |bitratesSorted|
      invariant Collect(choices, k) == Some(chosen)
    {
      var bitrate := bitratesSorted[k];
      assert bitrate in bitratesSorted;
      var rep := PickRepresentative(grouped[bitrate], bitratesSorted, baseline, bitrate, tol, ln, exp);
      CollectStep(choices, k, chosen);
      if rep.None? {
        CollectNonePersists(choices, k + 1, |bitratesSorted|);
        return None;
      }
      chosen := chosen + [rep.value];
    }
    return Some(chosen);
  }

  /** The end of `select_ladder` as written: sort in place, hull indices, then the two comprehensions. */
  method AssembleSelection(reps: seq<RatedPoint>) returns (selection: LadderSelection)
    ensures selection == Assemble(reps)
  {
    var selected := SortByBitrate(reps);
    var hullIndices := UpperHullIndices(selected);
    var hullPoints := seq(|hullIndices|, k requires 0 <= k < |hullIndices| => selected[hullIndices[k]]);
    var selectedIds := seq(|hullPoints|, k requires 0 <= k < |hullPoints| => hullPoints[k].pointId);
    return LadderSelection(selectedIds, hullPoints);
  }

  /** The first half of `select_ladder`: group by bitrate, sort the bitrates, compute the baseline. */
  method GroupAndBaseline(points: seq<RatedPoint>)
    returns (grouped: map<int, seq<RatedPoint>>, bitratesSorted: seq<int>, baseline: map<int, real>)
    ensures bitratesSorted == Bitrates(points) && baseline == Baseline(points)
    ensures forall i | 0 <= i < |bitratesSorted| ::
      bitratesSorted[i] in grouped && grouped[bitratesSorted[i]] == Bucket(points, bitratesSorted[i])
  {
    var keys;
    grouped, keys := GroupByBitrate(points);
    bitratesSorted := SortInts(keys);
    assert bitratesSorted == Bitrates(points);
    GroupedBuckets(points, grouped, bitratesSorted);
    baseline := BaselineOf(grouped, bitratesSorted);
    BaselineAgrees(points, grouped, bitratesSorted, baseline);
  }

  /** Every sorted bitrate has its non-empty bucket in `grouped`. */
  lemma GroupedBuckets(points: seq<RatedPoint>, grouped: map<int, seq<RatedPoint>>, bs: seq<int>)
    requires bs == Bitrates(points)
    requires forall b :: b in grouped <==> b in Keys(points)
    requires forall b | b in grouped :: grouped[b] == Bucket(points, b)
    ensures forall i | 0 <= i < |bs| ::
      bs[i] in grouped && grouped[bs[i]] == Bucket(points, bs[i]) && grouped[bs[i]] != []
  {
    KeysMembers(points);
    forall i | 0 <= i < |bs|
      ensures bs[i] in grouped && grouped[bs[i]] == Bucket(points, bs[i]) && grouped[bs[i]] != []
    {
      assert bs[i] in bs;
      BucketMembers(points, bs[i]);
    }
  }

  /** The maxima of the buckets of the sorted bitrates are the baseline of `points`. */
  lemma BaselineAgrees(points: seq<RatedPoint>, grouped: map<int, seq<RatedPoint>>, bs: seq<int>,
                       baseline: map<int, real>)
    requires bs == Bitrates(points)
    requires forall b | b in grouped :: grouped[b] == Bucket(points, b)
    requires forall b :: b in baseline <==> b in bs
    requires forall b | b in baseline :: b in grouped && grouped[b] != [] && baseline[b] == MaxVmaf(grouped[b])
    ensures baseline == Baseline(points)
  {
    BaselineSameKeys(points, bs, baseline);
    BaselineSameValues(points, grouped, baseline);
    MapsEqual(baseline, Baseline(points));
  }

  lemma MapsEqual(a: map<int, real>, b: map<int, real>)
    requires forall k :: k in a <==> k in b
    requires forall k | k in a && k in b :: a[k] == b[k]
    ensures a == b
  {
    forall k
      ensures k in a.Keys <==> k in b.Keys
    {
      assert k in a <==> k in b;
    }
    assert a.Keys == b.Keys;
    assert forall k | k in a :: a[k] == b[k];
  }

  lemma BaselineSameKeys(points: seq<RatedPoint>, bs: seq<int>, baseline: map<int, real>)
    requires bs == Bitrates(points)
    requires forall b :: b in baseline <==> b in bs
    ensures forall b :: b in baseline <==> b in Baseline(points)
  {
  }

  lemma BaselineSameValues(points: seq<RatedPoint>, grouped: map<int, seq<RatedPoint>>, baseline: map<int, real>)
    requires forall b | b in grouped :: grouped[b] == Bucket(points, b)
    requires forall b | b in baseline :: b in grouped && grouped[b] != [] && baseline[b] == MaxVmaf(grouped[b])
    ensures forall b | b in baseline && b in Baseline(points) :: baseline[b] == Baseline(points)[b]
  {
  }

  /** `select_ladder` as written. */
  method SelectLadder(points: seq<RatedPoint>, tieTolerance: real, ln: real -> real, exp: real -> real)
    returns (r: Result<LadderSelection, LadderError>)
    ensures r == Select(points, tieTolerance, ln, exp)
  {
    if |points| == 0 {
      return Err(NoPoints);
    }
    var grouped, bitratesSorted, baseline := GroupAndBaseline(points);
    ChoicesAgree(points, grouped, bitratesSorted, baseline, tieTolerance, ln, exp);
    var reps := ChooseRepresentatives(grouped, bitratesSorted, baseline, tieTolerance, ln, exp);
    if reps.None? {
      return Err(NoNearBestCandidate);
    }
    var selection := AssembleSelection(reps.value);
    return Ok(selection);
  }
}
