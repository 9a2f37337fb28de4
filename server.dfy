/**
  The fallback rules of the compare server (`compare/server.py`): which
  resolution and frame rate an evaluation uses, and how a prepared file is
  registered under a token. The HTTP endpoints, the file preparation and
  the SHA-1 digest itself are not modelled; the digest is a parameter.
*/
module CompareServer {
  import opened Common
  import opened Strings
  import Config

  /** `PointAsset`: one encoded ladder point known to a compare session. */
  datatype PointAsset = PointAsset(pointId: string, codec: string, bitrateKbps: int, width: int, height: int,
                                   encodePath: Option<string>, vmafLogPath: Option<string>)

  /** `SessionIssue`: a problem found while loading a session. */
  datatype SessionIssue = SessionIssue(code: string, message: string, field: string, pointId: Option<string>)

  /** `CompareSession`: the state the server keeps for one report. */
  class CompareSession {
    var reportPath: string
    var sourcePath: Option<string>
    /** The `points` dict, as its entries in insertion order (the order its values are iterated in). */
    var points: seq<(string, PointAsset)>
    var evaluationResolution: Option<(int, int)>
    var evaluationFps: Option<string>
    var cacheDir: string
    var issues: seq<SessionIssue>
    var assetRegistry: map<string, string>

    /** A new session has no issues and no registered assets. */
    constructor(reportPath: string, sourcePath: Option<string>, points: seq<(string, PointAsset)>,
                evaluationResolution: Option<(int, int)>, evaluationFps: Option<string>, cacheDir: string)
      ensures this.reportPath == reportPath && this.sourcePath == sourcePath && this.points == points
      ensures this.evaluationResolution == evaluationResolution && this.evaluationFps == evaluationFps
      ensures this.cacheDir == cacheDir && issues == [] && assetRegistry == map[]
    {
      this.reportPath := reportPath;
      this.sourcePath := sourcePath;
      this.points := points;
      this.evaluationResolution := evaluationResolution;
      this.evaluationFps := evaluationFps;
      this.cacheDir := cacheDir;
      issues := [];
      assetRegistry := map[];
    }
  }

  /** The request failures: an HTTP error, or `max` over no points raising `ValueError`. */
  datatype ResolveError = HttpError(status: int, detail: string) | NoPoints

  const FormDetail: string := "evaluation_resolution must be <w>x<h>"
  const InvalidDetail: string := "Invalid evaluation_resolution"

  /** Python truthiness of an optional string: given and not empty. */
  predicate Truthy(s: Option<string>)
  {
    s.Some? && s.value != ""
  }

  // ---------------------------------------------------------------------------
  // _resolve_evaluation_resolution
  // ---------------------------------------------------------------------------

  /**
    Reading an override: stripped and lower-cased, split at its first `x`,
    both sides integers and both positive.
  */
  function ParseOverride(override: string): (r: Result<(int, int), ResolveError>)
    ensures r.Ok? ==> r.value.0 > 0 && r.value.1 > 0
    ensures r.Err? ==> r.error.HttpError? && r.error.status == 400
    ensures r == Err(HttpError(400, FormDetail)) <==> 'x' !in Lower(Strip(override))
  {
    ParseCleanedOverride(Lower(Strip(override)))
  }

  /** The override once stripped and lower-cased. */
  function ParseCleanedOverride(cleaned: string): (r: Result<(int, int), ResolveError>)
    ensures r.Ok? ==> r.value.0 > 0 && r.value.1 > 0
    ensures r.Err? ==> r.error.HttpError? && r.error.status == 400
    ensures r == Err(HttpError(400, FormDetail)) <==> 'x' !in cleaned
  {
    match Find(cleaned, 'x')
    case None => Err(HttpError(400, FormDetail))
    case Some(i) =>
      var width := ParseInt(cleaned[..i]);
      var height := ParseInt(cleaned[i + 1..]);
      if width.None? || height.None? then Err(HttpError(400, InvalidDetail))
      else if width.value <= 0 || height.value <= 0 then Err(HttpError(400, InvalidDetail))
      else Ok((width.value, height.value))
  }

  /** The widths of the points, in the dict's order. */
  function Widths(points: seq<(string, PointAsset)>): (ws: seq<int>)
    ensures |ws| == |points| && forall i | 0 <= i < |points| :: ws[i] == points[i].1.width
  {
    seq(|points|, i requires 0 <= i < |points| => points[i].1.width)
  }

  function Heights(points: seq<(string, PointAsset)>): (hs: seq<int>)
    ensures |hs| == |points| && forall i | 0 <= i < |points| :: hs[i] == points[i].1.height
  {
    seq(|points|, i requires 0 <= i < |points| => points[i].1.height)
  }

  /** The largest width and the largest height over the points, each taken on its own. */
  function LargestSize(points: seq<(string, PointAsset)>): (r: (int, int))
    requires |points| > 0
    ensures exists i | 0 <= i < |points| :: points[i].1.width == r.0
    ensures exists i | 0 <= i < |points| :: points[i].1.height == r.1
    ensures forall i | 0 <= i < |points| :: points[i].1.width <= r.0 && points[i].1.height <= r.1
  {
    var ws, hs := Widths(points), Heights(points);
    var width, height := MaxOf(ws), MaxOf(hs);
    assert exists i | 0 <= i < |points| :: points[i].1.width == width by {
      var i :| 0 <= i < |ws| && ws[i] == width;
    }
    assert exists i | 0 <= i < |points| :: points[i].1.height == height by {
      var i :| 0 <= i < |hs| && hs[i] == height;
    }
    (width, height)
  }

  /**
    `_resolve_evaluation_resolution`: a truthy override decides (or is
    rejected with a 400), else the session's own evaluation resolution,
    else the largest width and the largest height over all points, each
    taken on its own.
  */
  function ResolveEvaluationResolution(session: CompareSession, override: Option<string>)
    : (r: Result<(int, int), ResolveError>)
    reads session
    ensures Truthy(override) ==> r == ParseOverride(override.value)
    ensures r.Err? && r.error.HttpError? ==> Truthy(override)
    ensures !Truthy(override) && session.evaluationResolution.Some? ==> r == Ok(session.evaluationResolution.value)
    ensures !Truthy(override) && session.evaluationResolution.None? ==>
      (r == Err(NoPoints) <==> session.points == [])
    ensures !Truthy(override) && session.evaluationResolution.None? && r.Ok? ==>
      var points := session.points;
      && (exists i | 0 <= i < |points| :: points[i].1.width == r.value.0)
      && (exists i | 0 <= i < |points| :: points[i].1.height == r.value.1)
      && (forall i | 0 <= i < |points| :: points[i].1.width <= r.value.0 && points[i].1.height <= r.value.1)
  {
    if Truthy(override) then ParseOverride(override.value)
    else if session.evaluationResolution.Some? then Ok(session.evaluationResolution.value)
    else if session.points == [] then Err(NoPoints)
    else Ok(LargestSize(session.points))
  }

  /** A positive `"<w>x<h>"` override reads back as that resolution. */
  lemma OverrideRoundTrip(session: CompareSession, width: int, height: int)
    requires width > 0 && height > 0
    ensures ResolveEvaluationResolution(session, Some(Config.ResolutionText(width, height))) == Ok((width, height))
  {
    ParseOverrideRoundTrip(width, height);
  }

  lemma ParseOverrideRoundTrip(width: int, height: int)
    requires width > 0 && height > 0
    ensures ParseOverride(Config.ResolutionText(width, height)) == Ok((width, height))
  {
    Config.ResolutionTextClean(width, height);
    CleanedOverrideRoundTrip(width, height);
  }

  lemma CleanedOverrideRoundTrip(width: int, height: int)
    requires width > 0 && height > 0
    ensures ParseCleanedOverride(Config.ResolutionText(width, height)) == Ok((width, height))
  {
    var text := Config.ResolutionText(width, height);
    var w, h := IntToString(width), IntToString(height);
    assert text == w + "x" + h;
    assert Find(text, 'x') == Some(|w|) by {
      assert forall i | 0 <= i < |w| :: IsDigit(w[i]);
      FindAfter(w, h);
    }
    assert text[..|w|] == w && text[|w| + 1..] == h;
    IntRoundTrip(width);
    IntRoundTrip(height);
  }

  lemma FindAfter(w: string, h: string)
    requires 'x' !in w
    ensures Find(w + "x" + h, 'x') == Some(|w|)
  {
    var t := w + "x" + h;
    assert t[|w|] == 'x' && t[..|w|] == w;
  }

  /** An empty override is no override: `""` is falsy. */
  lemma EmptyOverride(session: CompareSession)
    ensures ResolveEvaluationResolution(session, Some("")) == ResolveEvaluationResolution(session, None)
  {
  }

  /** An override of spaces only is truthy, and is rejected for its form rather than falling back. */
  lemma BlankOverride(session: CompareSession)
    ensures ResolveEvaluationResolution(session, Some(" ")) == Err(HttpError(400, FormDetail))
  {
    ParseBlankOverride();
  }

  lemma ParseBlankOverride()
    ensures ParseOverride(" ") == Err(HttpError(400, FormDetail))
  {
    assert Lower(Strip(" ")) == [] by {
      StripBlank();
    }
  }

  lemma StripBlank()
    ensures Strip(" ") == []
  {
    assert IsSpace(" "[0]);
    assert StripLeading(" ") == StripLeading(" "[1..]);
  }

  /** Only the first `x` splits: `"1x2x3"` leaves `"2x3"` as the height, which is not an integer. */
  lemma OverrideSplitsAtFirstX(session: CompareSession)
    ensures ResolveEvaluationResolution(session, Some("1x2x3")) == Err(HttpError(400, InvalidDetail))
  {
    ParseOverrideTwoSeparators();
  }

  lemma ParseOverrideTwoSeparators()
    ensures ParseOverride("1x2x3") == Err(HttpError(400, InvalidDetail))
  {
    CleanSample();
    CleanedTwoSeparators();
  }

  lemma CleanSample()
    ensures Lower(Strip("1x2x3")) == "1x2x3"
  {
    Config.CleanText("1x2x3");
  }

  lemma CleanedTwoSeparators()
    ensures ParseCleanedOverride("1x2x3") == Err(HttpError(400, InvalidDetail))
  {
    FindSample();
    assert "1x2x3"[2..] == "2x3";
    HeightSample();
  }

  lemma FindSample()
    ensures Find("1x2x3", 'x') == Some(1)
  {
    var s := "1x2x3";
    assert s[0] != 'x' && s[1] == 'x' && s[..1] == "1";
  }

  lemma HeightSample()
    ensures ParseInt("2x3") == None
  {
    StripUnpadded("2x3");
    assert !AllDigits("2x3") by {
      assert !IsDigit("2x3"[1]);
    }
  }

  // ---------------------------------------------------------------------------
  // _resolve_evaluation_fps
  // ---------------------------------------------------------------------------

  /**
    `_resolve_evaluation_fps`: an override with text other than spaces,
    stripped; else the session's frame rate if it is set and not empty;
    else `"30"`. The result is never empty.
  */
  function ResolveEvaluationFps(session: CompareSession, override: Option<string>): (fps: string)
    reads session
    ensures fps != ""
    ensures override.Some? && Strip(override.value) != "" ==> fps == Strip(override.value)
    ensures !(override.Some? && Strip(override.value) != "") && Truthy(session.evaluationFps) ==>
      fps == session.evaluationFps.value
    ensures !(override.Some? && Strip(override.value) != "") && !Truthy(session.evaluationFps) ==> fps == "30"
  {
    if override.Some? && override.value != "" && Strip(override.value) != "" then Strip(override.value)
    else if Truthy(session.evaluationFps) then session.evaluationFps.value
    else "30"
  }

  /** An override of spaces only is no override. */
  lemma {:induction false} BlankFpsOverride(session: CompareSession, override: string)
    requires Strip(override) == ""
    ensures ResolveEvaluationFps(session, Some(override)) == ResolveEvaluationFps(session, None)
  {
  }

  /** An override is used without its surrounding spaces: stripping it first changes nothing. */
  lemma StrippedFpsOverride(session: CompareSession, override: string)
    ensures ResolveEvaluationFps(session, Some(Strip(override))) == ResolveEvaluationFps(session, Some(override))
  {
    StripIdempotent(override);
  }

  // ---------------------------------------------------------------------------
  // _register_asset
  // ---------------------------------------------------------------------------

  /** Python's `s[:n]`. */
  function Prefix(s: string, n: nat): (p: string)
    ensures |p| == if |s| < n then |s| else n
    ensures p == s[..|p|]
  {
    if |s| <= n then s else s[..n]
  }

  /** The token of a path: `asset_` and the first twelve characters of its digest. */
  function AssetToken(path: string, digest: string -> string): string
  {
    "asset_" + Prefix(digest(path), 12)
  }

  /** The registry after registering `path`. */
  function Registered(registry: map<string, string>, path: string, digest: string -> string): map<string, string>
  {
    registry[AssetToken(path, digest) := path]
  }

  /** `_register_asset`: map the path's token to the path and return the token. */
  method RegisterAsset(session: CompareSession, path: string, digest: string -> string) returns (token: string)
    modifies session`assetRegistry
    ensures token == AssetToken(path, digest)
    ensures session.assetRegistry == Registered(old(session.assetRegistry), path, digest)
  {
    var hexdigest := Prefix(digest(path), 12);
    token := "asset_" + hexdigest;
    session.assetRegistry := session.assetRegistry[token := path];
  }

  /**
    A token is `asset_` followed by the digest's first twelve characters
    (all of it when shorter), so equal digest prefixes give equal tokens.
  */
  lemma TokenShape(path: string, digest: string -> string)
    ensures var token := AssetToken(path, digest);
      var d := digest(path);
      && token[..6] == "asset_"
      && |token| == 6 + (if |d| < 12 then |d| else 12)
      && token[6..] == d[..|token| - 6]
  {
  }

  /**
    After registering, the token leads to the path, every other token
    still leads where it did, and no other token is added.
  */
  lemma RegisteredLookup(registry: map<string, string>, path: string, digest: string -> string)
    ensures var after := Registered(registry, path, digest);
      var token := AssetToken(path, digest);
      && token in after && after[token] == path
      && after.Keys == registry.Keys + {token}
      && forall k | k in registry && k != token :: after[k] == registry[k]
  {
  }

  /** Registering the same path again changes nothing. */
  lemma RegisterIdempotent(registry: map<string, string>, path: string, digest: string -> string)
    ensures Registered(Registered(registry, path, digest), path, digest) == Registered(registry, path, digest)
  {
  }
}
