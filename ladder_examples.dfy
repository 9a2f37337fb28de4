/**
  The two worked examples of the ladder selection: a convex hull that drops
  a dominated point, and a tie between two equally good candidates at the
  same bitrate that goes to the smaller id.
*/
module LadderExamples {
  import opened Common
  import opened Strings
  import opened Ladder

  /** Two lists with the same elements are empty together. */
  lemma SameMembersEmpty(a: seq<int>, b: seq<int>)
    requires forall x :: x in a <==> x in b
    ensures a == [] <==> b == []
  {
    if a != [] {
      var x := a[0];
      assert x in a;
    }
    if b != [] {
      var x := b[0];
      assert x in b;
    }
  }

  lemma HeadLeast(s: seq<int>, i: nat)
    requires StrictlyIncreasing(s) && i < |s|
    ensures s[0] <= s[i]
  {
    if i > 0 {
      assert s[0] < s[i];
    }
  }

  /** The tail of a strictly increasing list is strictly increasing. */
  lemma TailIncreasing(a: seq<int>)
    requires StrictlyIncreasing(a) && a != []
    ensures StrictlyIncreasing(a[1..])
  {
    assert forall i, j | 0 <= i < j < |a| - 1 :: a[1..][i] == a[i + 1] && a[1..][j] == a[j + 1];
  }

  /** An element of the tail of a strictly increasing list is not its head. */
  lemma InTail(a: seq<int>, x: int)
    requires StrictlyIncreasing(a) && a != [] && x in a[1..]
    ensures x in a && x != a[0]
  {
    var i :| 0 <= i < |a[1..]| && a[1..][i] == x;
    assert a[0] < a[i + 1];
  }

  /** A non-head element of a list is in its tail. */
  lemma NotHead(a: seq<int>, x: int)
    requires x in a && x != a[0]
    ensures x in a[1..]
  {
    var i :| 0 <= i < |a| && a[i] == x;
    assert a[1..][i - 1] == x;
  }

  /** Two strictly increasing lists with the same elements have the same least element. */
  lemma SameHead(a: seq<int>, b: seq<int>)
    requires StrictlyIncreasing(a) && StrictlyIncreasing(b) && a != [] && b != []
    requires forall x :: x in a <==> x in b
    ensures a[0] == b[0]
  {
    var x, y := a[0], b[0];
    assert x in a && y in b;
    var j :| 0 <= j < |b| && b[j] == x;
    HeadLeast(b, j);
    var i :| 0 <= i < |a| && a[i] == y;
    HeadLeast(a, i);
  }

  /** Two strictly increasing lists with the same elements are equal. */
  lemma {:induction false} IncreasingUnique(a: seq<int>, b: seq<int>)
    requires StrictlyIncreasing(a) && StrictlyIncreasing(b)
    requires forall x :: x in a <==> x in b
    ensures a == b
    decreases |a|
  {
    SameMembersEmpty(a, b);
    if a != [] {
      SameHead(a, b);
      TailIncreasing(a);
      TailIncreasing(b);
      forall x
        ensures x in a[1..] <==> x in b[1..]
      {
        if x in a[1..] {
          InTail(a, x);
          NotHead(b, x);
        }
        if x in b[1..] {
          InTail(b, x);
          NotHead(a, x);
        }
      }
      IncreasingUnique(a[1..], b[1..]);
      assert a == [a[0]] + a[1..] && b == [b[0]] + b[1..];
    }
  }

  /** A selection whose every bitrate has a representative assembles those representatives. */
  lemma SelectFromRepresentatives(points: seq<RatedPoint>, tol: real, ln: real -> real, exp: real -> real,
                                  reps: seq<RatedPoint>)
    requires points != [] && |reps| == |Bitrates(points)|
    requires forall k | 0 <= k < |reps| :: RepresentativeAt(points, tol, ln, exp, k) == Some(reps[k])
    ensures Select(points, tol, ln, exp) == Ok(Assemble(reps))
  {
    CollectRepresentatives(points, tol, ln, exp, reps);
  }

  lemma CollectRepresentatives(points: seq<RatedPoint>, tol: real, ln: real -> real, exp: real -> real,
                               reps: seq<RatedPoint>)
    requires |reps| == |Bitrates(points)|
    requires forall k | 0 <= k < |reps| :: RepresentativeAt(points, tol, ln, exp, k) == Some(reps[k])
    ensures Collect(Choices(points, tol, ln, exp), |Bitrates(points)|) == Some(reps)
  {
    var choices := Choices(points, tol, ln, exp);
    assert forall k | 0 <= k < |choices| :: choices[k] == Some(reps[k]);
    CollectAll(choices, reps);
  }

  /** Choices that are all present collect to their values. */
  lemma CollectAll<T>(choices: seq<Option<T>>, values: seq<T>)
    requires |choices| == |values| && forall k | 0 <= k < |choices| :: choices[k] == Some(values[k])
    ensures Collect(choices, |choices|) == Some(values)
  {
    CollectShape(choices, |choices|);
    var collected := Collect(choices, |choices|).value;
    assert collected == values;
  }

  /** The bitrates of a list whose bitrates increase strictly are those bitrates, in order. */
  lemma BitratesOfIncreasing(points: seq<RatedPoint>)
    requires BitrateIncreasing(points)
    ensures Bitrates(points) == seq(|points|, k requires 0 <= k < |points| => points[k].bitrateKbps)
  {
    var s := seq(|points|, k requires 0 <= k < |points| => points[k].bitrateKbps);
    var bs := Bitrates(points);
    forall x
      ensures x in bs <==> x in s
    {
      if x in s {
        var k :| 0 <= k < |s| && s[k] == x;
        var p := points[k];
        assert p in points;
      }
      if HasBitrate(points, x) {
        var p :| p in points && p.bitrateKbps == x;
        var k :| 0 <= k < |points| && points[k] == p;
        assert s[k] == x;
      }
    }
    IncreasingUnique(bs, s);
  }

  /**
    An input with one point per bitrate, already in increasing bitrate
    order, and a tolerance that is not negative: every point is its own
    representative, and the selection is the upper hull of the input.
  */
  lemma SelectDistinctBitrates(points: seq<RatedPoint>, tol: real, ln: real -> real, exp: real -> real)
    requires points != [] && BitrateIncreasing(points) && tol >= 0.0
    ensures Select(points, tol, ln, exp) == Ok(Assemble(points))
  {
    OwnRepresentatives(points, tol, ln, exp);
    SelectFromRepresentatives(points, tol, ln, exp, points);
  }

  /** With one point per bitrate and a tolerance that is not negative, each point represents its own bitrate. */
  lemma OwnRepresentatives(points: seq<RatedPoint>, tol: real, ln: real -> real, exp: real -> real)
    requires BitrateIncreasing(points) && tol >= 0.0
    ensures |Bitrates(points)| == |points|
    ensures forall k | 0 <= k < |points| :: RepresentativeAt(points, tol, ln, exp, k) == Some(points[k])
  {
    BitratesOfIncreasing(points);
    forall k | 0 <= k < |points|
      ensures RepresentativeAt(points, tol, ln, exp, k) == Some(points[k])
    {
      OwnRepresentative(points, tol, ln, exp, k);
    }
  }

  lemma OwnRepresentative(points: seq<RatedPoint>, tol: real, ln: real -> real, exp: real -> real, k: nat)
    requires BitrateIncreasing(points) && tol >= 0.0
    requires k < |points| == |Bitrates(points)| && Bitrates(points)[k] == points[k].bitrateKbps
    ensures RepresentativeAt(points, tol, ln, exp, k) == Some(points[k])
  {
    RepresentativeAtDefined(points, tol, ln, exp, k);
    RepresentativeAtMember(points, tol, ln, exp, k);
    SameBitrateSame(points, RepresentativeAt(points, tol, ln, exp, k).value, k);
  }

  /** In a list whose bitrates increase strictly, a bitrate names one point. */
  lemma SameBitrateSame(points: seq<RatedPoint>, w: RatedPoint, k: nat)
    requires BitrateIncreasing(points) && k < |points|
    requires w in points && w.bitrateKbps == points[k].bitrateKbps
    ensures w == points[k]
  {
    var i :| 0 <= i < |points| && points[i] == w;
    assert points[i].bitrateKbps == points[k].bitrateKbps;
  }

  /** The four points of the convex-hull example, in input order. */
  predicate IsHullExample(points: seq<RatedPoint>)
  {
    && |points| == 4
    && points[0] == RatedPoint("p1", 500, 80.0) && points[1] == RatedPoint("p2", 1000, 90.0)
    && points[2] == RatedPoint("p3", 1500, 91.0) && points[3] == RatedPoint("p4", 2000, 94.0)
  }

  /** The scan keeps the first two points. */
  lemma ScanTwo(points: seq<RatedPoint>)
    requires |points| >= 2
    ensures Scan(points, 2) == [0, 1]
  {
    assert Scan(points, 1) == [0] by {
      assert PopWhile(points, [], 0) == [];
    }
    assert PopWhile(points, [0], 1) == [0];
  }

  /** The scan keeps the first three points when they turn strictly right. */
  lemma ScanThree(points: seq<RatedPoint>)
    requires |points| >= 3 && Cross(points[0], points[1], points[2]) < 0.0
    ensures Scan(points, 3) == [0, 1, 2]
  {
    ScanTwo(points);
    assert PopWhile(points, [0, 1], 2) == [0, 1];
  }

  /**
    The scan keeps the last point even when its quality is below its
    predecessor's: hull quality is not monotone in general.
  */
  lemma HullMayDescend()
    ensures var pts := [RatedPoint("x", 100, 50.0), RatedPoint("y", 200, 80.0), RatedPoint("z", 300, 60.0)];
      HullIndices(pts) == [0, 1, 2] && pts[2].vmaf < pts[1].vmaf
  {
    var pts := [RatedPoint("x", 100, 50.0), RatedPoint("y", 200, 80.0), RatedPoint("z", 300, 60.0)];
    DescendTurn(pts);
    ScanThree(pts);
  }

  lemma DescendTurn(pts: seq<RatedPoint>)
    requires pts == [RatedPoint("x", 100, 50.0), RatedPoint("y", 200, 80.0), RatedPoint("z", 300, 60.0)]
    ensures Cross(pts[0], pts[1], pts[2]) == -5000.0
  {
  }

  /**
    Four points where the third lies on or under the chord from the second to
    the fourth, and the rest turn strictly right: the third is dropped.
  */
  lemma HullOfFourDropsThird(points: seq<RatedPoint>)
    requires |points| == 4
    requires Cross(points[0], points[1], points[2]) < 0.0
    requires Cross(points[1], points[2], points[3]) >= 0.0
    requires Cross(points[0], points[1], points[3]) < 0.0
    ensures HullIndices(points) == [0, 1, 3]
  {
    ScanThree(points);
    assert PopWhile(points, [0, 1], 3) == [0, 1];
    assert PopWhile(points, [0, 1, 2], 3) == [0, 1];
  }

  lemma HullExampleHull(pts: seq<RatedPoint>)
    requires IsHullExample(pts)
    ensures HullIndices(pts) == [0, 1, 3]
  {
    assert Cross(pts[0], pts[1], pts[2]) == -4500.0;
    assert Cross(pts[1], pts[2], pts[3]) == 1000.0;
    assert Cross(pts[0], pts[1], pts[3]) == -8000.0;
    HullOfFourDropsThird(pts);
  }

  lemma HullExamplePick(pts: seq<RatedPoint>)
    requires IsHullExample(pts)
    ensures Pick(pts, [0, 1, 3]) == [pts[0], pts[1], pts[3]]
    ensures IdsOf([pts[0], pts[1], pts[3]]) == ["p1", "p2", "p4"]
  {
  }

  lemma HullExampleAssemble(pts: seq<RatedPoint>)
    requires IsHullExample(pts)
    ensures Assemble(pts) == LadderSelection(["p1", "p2", "p4"], [pts[0], pts[1], pts[3]])
  {
    assert BitrateIncreasing(pts);
    AssembleSorted(pts);
    HullExampleHull(pts);
    HullExamplePick(pts);
  }

  /**
    Four points at four bitrates: each is its own representative, and the
    upper hull drops `p3`, which lies under the chord from `p2` to `p4`.
  */
  lemma HullExampleSelection(pts: seq<RatedPoint>, ln: real -> real, exp: real -> real)
    requires IsHullExample(pts)
    ensures Select(pts, DefaultTieTolerance, ln, exp) == Ok(LadderSelection(["p1", "p2", "p4"], [pts[0], pts[1], pts[3]]))
  {
    assert BitrateIncreasing(pts);
    SelectDistinctBitrates(pts, DefaultTieTolerance, ln, exp);
    HullExampleAssemble(pts);
  }

  /** The bitrates of an input are the strictly increasing list of the bitrates it holds. */
  lemma BitratesAre(points: seq<RatedPoint>, bs: seq<int>)
    requires StrictlyIncreasing(bs)
    requires forall x :: HasBitrate(points, x) <==> x in bs
    ensures Bitrates(points) == bs
  {
    IncreasingUnique(Bitrates(points), bs);
  }

  /** The four points of the tie example: `c` and `b` share a bitrate and a score, in that input order. */
  predicate IsTieExample(points: seq<RatedPoint>)
  {
    && |points| == 4
    && points[0] == RatedPoint("a", 500, 75.0) && points[1] == RatedPoint("c", 1000, 85.0)
    && points[2] == RatedPoint("b", 1000, 85.0) && points[3] == RatedPoint("d", 1500, 90.0)
  }

  lemma TieExampleBitrates(pts: seq<RatedPoint>)
    requires IsTieExample(pts)
    ensures Bitrates(pts) == [500, 1000, 1500]
  {
    forall x
      ensures HasBitrate(pts, x) <==> x in [500, 1000, 1500]
    {
      var a, c, b, d := pts[0], pts[1], pts[2], pts[3];
      assert a in pts && c in pts && b in pts && d in pts;
      if HasBitrate(pts, x) {
        var p :| p in pts && p.bitrateKbps == x;
        assert p == a || p == c || p == b || p == d;
      }
    }
    BitratesAre(pts, [500, 1000, 1500]);
  }

  /** `a` and `d` are alone at their bitrates; `b` ties with `c` and has the smaller id. */
  lemma TieExampleClearlyBest(pts: seq<RatedPoint>)
    requires IsTieExample(pts)
    ensures ClearlyBest(pts, DefaultTieTolerance, pts[0])
    ensures ClearlyBest(pts, DefaultTieTolerance, pts[2])
    ensures ClearlyBest(pts, DefaultTieTolerance, pts[3])
  {
    var a, c, b, d := pts[0], pts[1], pts[2], pts[3];
    assert a in pts && b in pts && d in pts;
    assert LexLess(b.pointId, c.pointId);
    forall q | q in pts
      ensures q == a || q == c || q == b || q == d
    {
      var i :| 0 <= i < 4 && pts[i] == q;
    }
  }

  lemma TieExampleRepresentatives(pts: seq<RatedPoint>, ln: real -> real, exp: real -> real)
    requires IsTieExample(pts)
    ensures |Bitrates(pts)| == 3
    ensures forall k | 0 <= k < 3 :: RepresentativeAt(pts, DefaultTieTolerance, ln, exp, k) == Some([pts[0], pts[2], pts[3]][k])
  {
    TieExampleBitrates(pts);
    TieExampleClearlyBest(pts);
    var reps := [pts[0], pts[2], pts[3]];
    forall k | 0 <= k < 3
      ensures RepresentativeAt(pts, DefaultTieTolerance, ln, exp, k) == Some(reps[k])
    {
      ClearWinner(pts, DefaultTieTolerance, ln, exp, k, reps[k]);
    }
  }

  /** The representatives of the tie example, in bitrate order. */
  predicate IsTieRepresentatives(reps: seq<RatedPoint>)
  {
    && |reps| == 3
    && reps[0] == RatedPoint("a", 500, 75.0) && reps[1] == RatedPoint("b", 1000, 85.0)
    && reps[2] == RatedPoint("d", 1500, 90.0)
  }

  /** Three points that turn strictly right are all on the hull. */
  lemma HullOfThree(points: seq<RatedPoint>)
    requires |points| == 3 && Cross(points[0], points[1], points[2]) < 0.0
    ensures HullIndices(points) == [0, 1, 2]
  {
    ScanThree(points);
  }

  lemma TieExampleHull(reps: seq<RatedPoint>)
    requires IsTieRepresentatives(reps)
    ensures HullIndices(reps) == [0, 1, 2]
  {
    assert Cross(reps[0], reps[1], reps[2]) == -2500.0;
    HullOfThree(reps);
  }

  /** A list in bitrate order whose hull keeps every point is its own selection. */
  lemma AssembleWhole(reps: seq<RatedPoint>)
    requires BitrateIncreasing(reps) && HullIndices(reps) == Range(|reps|)
    ensures Assemble(reps) == LadderSelection(IdsOf(reps), reps)
  {
    AssembleSorted(reps);
    assert Pick(reps, Range(|reps|)) == reps;
  }

  lemma TieExampleAssemble(reps: seq<RatedPoint>)
    requires IsTieRepresentatives(reps)
    ensures Assemble(reps) == LadderSelection(["a", "b", "d"], reps)
  {
    assert BitrateIncreasing(reps);
    TieExampleHull(reps);
    assert Range(3) == [0, 1, 2];
    AssembleWhole(reps);
    assert IdsOf(reps) == ["a", "b", "d"];
  }

  /**
    `c` and `b` are equally good at 1000 kbps, so their tie-break scores are
    equal whatever the logarithm, and `b` is kept on its smaller id although
    `c` comes first in the input.
  */
  lemma TieExampleSelection(pts: seq<RatedPoint>, ln: real -> real, exp: real -> real)
    requires IsTieExample(pts)
    ensures Select(pts, DefaultTieTolerance, ln, exp) == Ok(LadderSelection(["a", "b", "d"], [pts[0], pts[2], pts[3]]))
  {
    TieExampleRepresentatives(pts, ln, exp);
    SelectFromRepresentatives(pts, DefaultTieTolerance, ln, exp, [pts[0], pts[2], pts[3]]);
    TieExampleAssemble([pts[0], pts[2], pts[3]]);
  }

  /** The tie example keeps `b` and not `c`. */
  lemma TieExampleKeepsB(pts: seq<RatedPoint>, ln: real -> real, exp: real -> real)
    requires IsTieExample(pts)
    ensures Select(pts, DefaultTieTolerance, ln, exp).Ok?
    ensures var ids := Select(pts, DefaultTieTolerance, ln, exp).value.selectedIds;
      "b" in ids && "c" !in ids
  {
    TieExampleSelection(pts, ln, exp);
    var ids: seq<string> := ["a", "b", "d"];
    assert ids[1] == "b";
    assert "c" != "a" && "c" != "b" && "c" != "d";
  }
}
