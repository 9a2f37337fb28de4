/**
  The JSON report `build_report` assembles after a ladder has been selected
  (`report.py`): the hull points, one segment per consecutive pair of hull
  points with the quality gained per kbps, and the caller's data passed
  through. The timestamp is a parameter: the clock is not modelled.
*/
module Report {
  import opened Common
  import opened Json
  import opened Ladder

  /** One `hull.segments` entry: the ids of the two ends and the VMAF gained per kbps between them. */
  datatype Segment = Segment(fromId: string, toId: string, slope: real)

  /** One `hull.points` entry. */
  datatype HullEntry = HullEntry(id: string, bitrateKbps: int, vmafMean: real)

  datatype Report = Report(
    generatedAt: string,
    sourcePath: string,
    sourceMetadata: map<string, Value>,
    points: seq<map<string, Value>>,
    selectedLadder: seq<string>,
    hullPoints: seq<HullEntry>,
    segments: seq<Segment>,
    runtime: map<string, Value>)

  /** The `ZeroDivisionError` of a slope between two hull points of the same bitrate. */
  datatype ReportError = EqualBitrates(fromId: string, toId: string)

  /** `list(zip(hull, hull[1:]))`: each hull point with its successor. */
  function Pairs(hull: seq<RatedPoint>): seq<(RatedPoint, RatedPoint)>
  {
    if |hull| < 2 then [] else [(hull[0], hull[1])] + Pairs(hull[1..])
  }

  /** The `k`-th pair is the `k`-th hull point and the one after it. */
  predicate PairAt(hull: seq<RatedPoint>, ps: seq<(RatedPoint, RatedPoint)>, k: int)
    requires 0 <= k < |ps|
  {
    k + 1 < |hull| && ps[k] == (hull[k], hull[k + 1])
  }

  /** `zip` stops with the shorter list: one pair fewer than there are hull points, each point with its successor. */
  lemma {:induction false} PairsShape(hull: seq<RatedPoint>)
    ensures |Pairs(hull)| == if hull == [] then 0 else |hull| - 1
    ensures forall k | 0 <= k < |Pairs(hull)| :: PairAt(hull, Pairs(hull), k)
  {
    if |hull| >= 2 {
      var tail := hull[1..];
      PairsShape(tail);
      var ps := Pairs(hull);
      forall k | 0 <= k < |ps|
        ensures PairAt(hull, ps, k)
      {
        if k > 0 {
          assert PairAt(tail, Pairs(tail), k - 1);
        }
      }
    }
  }

  /** Number of pairs `zip(hull, hull[1:])` yields. */
  function PairCount(hull: seq<RatedPoint>): (n: nat)
    ensures n == |Pairs(hull)|
  {
    PairsShape(hull);
    if hull == [] then 0 else |hull| - 1
  }

  /** The segment from `left` to `right`, or the division by zero when their bitrates are equal. */
  function SegmentOf(left: RatedPoint, right: RatedPoint): Result<Segment, ReportError>
  {
    if right.bitrateKbps == left.bitrateKbps then Err(EqualBitrates(left.pointId, right.pointId))
    else Ok(Segment(left.pointId, right.pointId,
                    (right.vmaf - left.vmaf) / (right.bitrateKbps - left.bitrateKbps) as real))
  }

  /** `hull_segments` after the first `n` pairs, or the first failing division. */
  function SegmentsUpTo(hull: seq<RatedPoint>, n: nat): Result<seq<Segment>, ReportError>
    requires n <= PairCount(hull)
  {
    if n == 0 then Ok([])
    else match SegmentsUpTo(hull, n - 1)
      case Err(e) => Err(e)
      case Ok(segments) =>
        (match SegmentOf(hull[n - 1], hull[n])
         case Err(e) => Err(e)
         case Ok(s) => Ok(segments + [s]))
  }

  function Segments(hull: seq<RatedPoint>): Result<seq<Segment>, ReportError>
  {
    SegmentsUpTo(hull, PairCount(hull))
  }

  /** Neighbouring hull points up to pair `n` have different bitrates. */
  predicate DistinctNeighbours(hull: seq<RatedPoint>, n: nat)
    requires n <= PairCount(hull)
  {
    forall i | 0 <= i < n :: hull[i].bitrateKbps != hull[i + 1].bitrateKbps
  }

  /** Segment `i` runs from hull point `i` to hull point `i + 1`, and its slope times the bitrate step is the VMAF step. */
  predicate SegmentJoins(hull: seq<RatedPoint>, segments: seq<Segment>, i: nat)
    requires i < |segments| && i + 1 < |hull|
  {
    && segments[i].fromId == hull[i].pointId
    && segments[i].toId == hull[i + 1].pointId
    && segments[i].slope * (hull[i + 1].bitrateKbps - hull[i].bitrateKbps) as real == hull[i + 1].vmaf - hull[i].vmaf
  }

  lemma SegmentOfJoins(left: RatedPoint, right: RatedPoint)
    requires left.bitrateKbps != right.bitrateKbps
    ensures SegmentOf(left, right).Ok?
    ensures var s := SegmentOf(left, right).value;
      s.slope * (right.bitrateKbps - left.bitrateKbps) as real == right.vmaf - left.vmaf
  {
    var d := (right.bitrateKbps - left.bitrateKbps) as real;
    var s := (right.vmaf - left.vmaf) / d;
    assert s * d == right.vmaf - left.vmaf;
  }

  /**
    The first `n` pairs give segments exactly when no pair has equal
    bitrates; then there are `n` segments and each joins its pair with the
    slope between them. Otherwise the first pair with equal bitrates is
    reported.
  */
  lemma {:induction false} SegmentsUpToShape(hull: seq<RatedPoint>, n: nat)
    requires n <= PairCount(hull)
    ensures SegmentsUpTo(hull, n).Ok? <==> DistinctNeighbours(hull, n)
    ensures SegmentsUpTo(hull, n).Ok? ==>
      var segments := SegmentsUpTo(hull, n).value;
      && |segments| == n
      && forall i | 0 <= i < n :: SegmentJoins(hull, segments, i)
    ensures SegmentsUpTo(hull, n).Err? ==>
      exists i | 0 <= i < n :: hull[i].bitrateKbps == hull[i + 1].bitrateKbps
        && SegmentsUpTo(hull, n).error == EqualBitrates(hull[i].pointId, hull[i + 1].pointId)
  {
    if n > 0 {
      SegmentsUpToShape(hull, n - 1);
      var prev := SegmentsUpTo(hull, n - 1);
      if prev.Ok? && hull[n - 1].bitrateKbps != hull[n].bitrateKbps {
        SegmentOfJoins(hull[n - 1], hull[n]);
        var segments := prev.value + [SegmentOf(hull[n - 1], hull[n]).value];
        forall i | 0 <= i < n ensures SegmentJoins(hull, segments, i) {
          if i < n - 1 {
            assert segments[i] == prev.value[i];
            assert SegmentJoins(hull, prev.value, i);
          }
        }
      }
    }
  }

  /** One segment per consecutive pair of hull points, each joining its pair, when no two neighbours share a bitrate. */
  lemma SegmentsShape(hull: seq<RatedPoint>)
    ensures Segments(hull).Ok? <==> DistinctNeighbours(hull, PairCount(hull))
    ensures Segments(hull).Ok? ==>
      && |Segments(hull).value| == PairCount(hull)
      && forall i | 0 <= i < PairCount(hull) :: SegmentJoins(hull, Segments(hull).value, i)
  {
    SegmentsUpToShape(hull, PairCount(hull));
  }

  /** On a hull whose bitrates increase and which turns right at every middle point, the slopes strictly decrease. */
  lemma SegmentsSlopesDecrease(hull: seq<RatedPoint>)
    requires BitrateIncreasing(hull)
    requires forall k: nat | k + 2 < |hull| :: ConcaveAt(hull, k)
    ensures Segments(hull).Ok?
    ensures var segments := Segments(hull).value;
      forall k | 0 <= k < |segments| - 1 :: segments[k].slope > segments[k + 1].slope
  {
    SegmentsShape(hull);
    var segments := Segments(hull).value;
    forall k | 0 <= k < |segments| - 1 ensures segments[k].slope > segments[k + 1].slope {
      var a, b, c := hull[k], hull[k + 1], hull[k + 2];
      assert ConcaveAt(hull, k);
      CrossRightTurn(a, b, c);
      assert SegmentJoins(hull, segments, k) && SegmentJoins(hull, segments, k + 1);
      SlopeIsQuotient(segments[k].slope, a, b);
      SlopeIsQuotient(segments[k + 1].slope, b, c);
    }
  }

  lemma SlopeIsQuotient(slope: real, left: RatedPoint, right: RatedPoint)
    requires left.bitrateKbps < right.bitrateKbps
    requires slope * (right.bitrateKbps - left.bitrateKbps) as real == right.vmaf - left.vmaf
    ensures slope == (right.vmaf - left.vmaf) / (right.bitrateKbps - left.bitrateKbps) as real
  {
  }

  /** `hull.points`: each hull point under its report keys, in hull order. */
  function HullEntries(hull: seq<RatedPoint>): (entries: seq<HullEntry>)
    ensures |entries| == |hull|
  {
    seq(|hull|, k requires 0 <= k < |hull| => HullEntry(hull[k].pointId, hull[k].bitrateKbps, hull[k].vmaf))
  }

  /** A hull entry read back as the rated point it was written from. */
  function EntryPoint(e: HullEntry): RatedPoint
  {
    RatedPoint(e.id, e.bitrateKbps, e.vmafMean)
  }

  /** The hull points can be read back from the report unchanged and in order. */
  lemma HullEntriesRoundTrip(hull: seq<RatedPoint>)
    ensures forall k | 0 <= k < |hull| :: EntryPoint(HullEntries(hull)[k]) == hull[k]
  {
  }

  /** `build_report(...)`, with `generated_at` given by the caller. */
  function ReportOf(generatedAt: string, sourcePath: string, sourceMetadata: map<string, Value>,
                    points: seq<map<string, Value>>, selection: LadderSelection, runtime: map<string, Value>)
    : Result<Report, ReportError>
  {
    match Segments(selection.hullPoints)
    case Err(e) => Err(e)
    case Ok(segments) =>
      Ok(Report(generatedAt, sourcePath, sourceMetadata, points, selection.selectedIds,
                HullEntries(selection.hullPoints), segments, runtime))
  }

  /** The segment loop and the report dictionary, as `build_report` runs them. */
  method BuildReport(generatedAt: string, sourcePath: string, sourceMetadata: map<string, Value>,
                     points: seq<map<string, Value>>, selection: LadderSelection, runtime: map<string, Value>)
    returns (r: Result<Report, ReportError>)
    ensures r == ReportOf(generatedAt, sourcePath, sourceMetadata, points, selection, runtime)
  {
    var hull := selection.hullPoints;
    var segments: seq<Segment> := [];
    var i := 0;
    while i < PairCount(hull)
      invariant i <= PairCount(hull)
      invariant SegmentsUpTo(hull, i) == Ok(segments)
    {
      var left, right := hull[i], hull[i + 1];
      if right.bitrateKbps == left.bitrateKbps {
        ErrPersists(hull, i + 1, PairCount(hull));
        return Err(EqualBitrates(left.pointId, right.pointId));
      }
      segments := segments + [Segment(left.pointId, right.pointId,
                                      (right.vmaf - left.vmaf) / (right.bitrateKbps - left.bitrateKbps) as real)];
      i := i + 1;
    }
    var entries: seq<HullEntry> := HullEntries(hull);
    r := Ok(Report(generatedAt, sourcePath, sourceMetadata, points, selection.selectedIds, entries, segments, runtime));
  }

  lemma {:induction false} ErrPersists(hull: seq<RatedPoint>, k: nat, n: nat)
    requires k <= n <= PairCount(hull) && SegmentsUpTo(hull, k).Err?
    ensures SegmentsUpTo(hull, n) == SegmentsUpTo(hull, k)
    decreases n - k
  {
    if k < n {
      ErrPersists(hull, k, n - 1);
    }
  }

  /**
    A report passes the caller's data through unchanged, lists the selected
    ids as the ladder, writes every hull point under its report keys, and
    has one segment per consecutive pair of hull points.
  */
  lemma ReportFields(generatedAt: string, sourcePath: string, sourceMetadata: map<string, Value>,
                     points: seq<map<string, Value>>, selection: LadderSelection, runtime: map<string, Value>)
    requires ReportOf(generatedAt, sourcePath, sourceMetadata, points, selection, runtime).Ok?
    ensures var report := ReportOf(generatedAt, sourcePath, sourceMetadata, points, selection, runtime).value;
      var hull := selection.hullPoints;
      && report.generatedAt == generatedAt
      && report.sourcePath == sourcePath && report.sourceMetadata == sourceMetadata
      && report.points == points && report.runtime == runtime
      && report.selectedLadder == selection.selectedIds
      && |report.hullPoints| == |hull|
      && (forall k | 0 <= k < |hull| :: EntryPoint(report.hullPoints[k]) == hull[k])
      && |report.segments| == PairCount(hull)
      && (forall i | 0 <= i < PairCount(hull) :: SegmentJoins(hull, report.segments, i))
  {
    SegmentsShape(selection.hullPoints);
  }

  /**
    Every successful ladder selection can be reported: its hull has one
    point per selected id, its segments' slopes strictly decrease, and the
    ladder in the report is the list of hull point ids.
  */
  lemma ReportOfSelection(points: seq<RatedPoint>, tol: real, ln: real -> real, exp: real -> real,
                          sel: LadderSelection, generatedAt: string, sourcePath: string,
                          sourceMetadata: map<string, Value>, rows: seq<map<string, Value>>, runtime: map<string, Value>)
    requires Select(points, tol, ln, exp) == Ok(sel)
    ensures var r := ReportOf(generatedAt, sourcePath, sourceMetadata, rows, sel, runtime);
      && r.Ok?
      && |r.value.segments| == |sel.hullPoints| - 1
      && (forall k | 0 <= k < |r.value.segments| - 1 :: r.value.segments[k].slope > r.value.segments[k + 1].slope)
      && |r.value.selectedLadder| == |r.value.hullPoints|
      && (forall k | 0 <= k < |r.value.hullPoints| :: r.value.selectedLadder[k] == r.value.hullPoints[k].id)
  {
    SelectionStructure(points, tol, ln, exp, sel);
    SegmentsSlopesDecrease(sel.hullPoints);
    SegmentsShape(sel.hullPoints);
  }
}
