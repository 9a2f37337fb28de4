# bitrate-ladder in Dafny

A model of the core of `bitrate_ladder`. The tool encodes a source video at
several (bitrate, resolution, codec) points. It scores every encode with
libvmaf and keeps the encodes on the upper convex hull of the
(bitrate, VMAF) plane as the bitrate ladder. This project models:

- `ladder.py` in two modules:
  - `Ladder` covers selecting the ladder. Points are grouped by bitrate and
    the best VMAF per bitrate becomes the baseline. Near-ties are broken by
    the smallest |BD-rate| against the baseline curve, then by the smaller
    point id. The winners are sorted by bitrate, and the monotone-chain scan
    keeps the upper hull.
  - `RateCurve` covers the Bjøntegaard-delta rate `bd_rate` and the
    piecewise-linear `_rate_at_quality`.
- `config.py` (module `Config`): validation of ladder points, of encoder
  settings with per-codec overrides, and of `"<w>x<h>"` resolution strings.
  It also covers the field-wise merge `EncodingConfig.resolve`.
- `metrics.py` (module `Metrics`): summarising a libvmaf JSON log as mean,
  minimum, maximum and 95th percentile. A log without frame scores falls
  back to the pooled block.
- `report.py` (module `Report`): the report dictionary, with one hull segment
  per consecutive pair of hull points and its slope.
- `encode.py` (module `Encode`): the ffmpeg argument list `encode_rendition`
  builds, and the container extension of each codec.
- `vmaf.py` (module `Vmaf`): the libvmaf filter options, the filter graph, and
  `_escape_filter_value`.
- `compare/server.py` (module `CompareServer`): the resolution and frame-rate
  fallbacks of the compare server, and asset-token registration.

Support modules:

- `Common` holds Option/Result and max.
- `Strings` holds Python's `str.strip`, `str.lower`, `str.split`, `int()`,
  `str()` on integers, `str.replace` on one character, and string ordering.
- `Json` holds the decoded JSON/YAML values the readers inspect with
  `isinstance` and `dict.get`.

Each loop of the Python code is a `method` with loop invariants. Each such
method is proved equal to a specification function, and the promised
properties are lemmas about those functions. This covers:

- `select_ladder`: grouping, baseline, tie scan, assembly;
- `_upper_hull_indices`, `bd_rate` and `_rate_at_quality`;
- `_parse_encoding` and `parse_vmaf_payload`;
- `build_report`;
- the `command.extend` steps of `encode_rendition`;
- the `filter_options` list of `compute_vmaf_metrics`.

The compare session is a class whose asset registry `_register_asset` updates
in place. Every exception the Python code raises is an `Err` value carrying
the error's kind.

## Model

| member | source | states |
|---|---|---|
| Common.MaxOf | src/bitrate_ladder/compare/server.py:229-230 | `max(...)` over a non-empty sequence is one of its elements and at least every element |
| Strings.Strip | src/bitrate_ladder/config.py:335 | `str.strip()` result is a contiguous slice of the input with only whitespace outside it, and it neither starts nor ends with whitespace |
| Strings.StripUnpadded | src/bitrate_ladder/config.py:335 | `strip()` leaves text that has no surrounding whitespace unchanged |
| Strings.Lower | src/bitrate_ladder/config.py:335 | `lower()` keeps the length and lower-cases each character on its own |
| Strings.Split | src/bitrate_ladder/config.py:336 | `split("x")` gives at least one part, and no part contains the separator |
| Strings.SplitJoin | src/bitrate_ladder/config.py:336 | joining the parts of `split` with the separator gives back the text |
| Strings.SplitCount | src/bitrate_ladder/config.py:336-337 | `split` gives one more part than there are separators |
| Strings.Find | src/bitrate_ladder/compare/server.py:216 | the first occurrence of a character, or none exactly when the character is absent |
| Strings.IntRoundTrip | src/bitrate_ladder/config.py:342-343 | `int(str(n)) == n` for every integer |
| Strings.NatToString | src/bitrate_ladder/encode.py:60 | the decimal text of a natural number is non-empty, all digits, and denotes the number |
| Strings.ReplaceCharAppend | src/bitrate_ladder/vmaf.py:88 | `str.replace` of one character distributes over concatenation |
| Strings.LexLessTotal | src/bitrate_ladder/ladder.py:49 | Python string `<` orders any two distinct ids one way or the other |
| Strings.LexLessTransitive | src/bitrate_ladder/ladder.py:58 | string `<` is transitive, so the id tie-break has a single winner |
| Strings.LexLessIrreflexive | src/bitrate_ladder/ladder.py:58 | no id is smaller than itself |
| Json.AsInt | src/bitrate_ladder/config.py:324 | `isinstance(value, int)` accepts integers and booleans (as 1 and 0) and nothing else |
| Json.AsNumber | src/bitrate_ladder/metrics.py:91-94 | `_as_float` accepts integers, booleans and floats, and returns their value |
| Json.GetOr | src/bitrate_ladder/metrics.py:36 | `dict.get(key, default)` is the stored value when the key is present and the default otherwise |
| RateCurve.SortPairs | src/bitrate_ladder/ladder.py:79-80 | `sorted` of pairs is ordered and a permutation of its input |
| RateCurve.QualityOrder | src/bitrate_ladder/ladder.py:79 | the `(quality, bitrate)` list is sorted and is a permutation of the swapped input pairs |
| RateCurve.QualityOrderEnds | src/bitrate_ladder/ladder.py:82-83 | every quality of a curve lies between the first and last entries of its sorted list |
| RateCurve.QualityOrderAttained | src/bitrate_ladder/ladder.py:79 | every sorted quality is the quality of some input pair |
| RateCurve.RateAtQuality | src/bitrate_ladder/ladder.py:102-116 | the interpolation loop returns what the clamp-or-interpolate specification gives |
| RateCurve.RateAtBrackets | src/bitrate_ladder/ladder.py:103-115 | the rate is clamped to the first or last rate outside the quality range; inside it interpolates between two bracketing points |
| RateCurve.InterpolateBetween | src/bitrate_ladder/ladder.py:111-115 | for a quality between two bracketing qualities, the interpolated rate lies between the two bracketing rates |
| RateCurve.RateAtWithin | src/bitrate_ladder/ladder.py:102-116 | for any quality, the rate lies within every pair of bounds that holds all of the curve's rates |
| RateCurve.AccumulateLogDelta | src/bitrate_ladder/ladder.py:87-97 | the `samples + 1`-point trapezoid loop computes the specified sum, or `None` at the first non-positive rate |
| RateCurve.AccumulateDefined | src/bitrate_ladder/ladder.py:89-94 | the sum is defined exactly when every grid point has positive rates on both curves |
| RateCurve.BdRate | src/bitrate_ladder/ladder.py:71-99 | `bd_rate` returns what its specification function gives |
| RateCurve.BdRateDefined | src/bitrate_ladder/ladder.py:76-94 | `bd_rate` is defined iff both curves have at least 2 points, the quality ranges overlap with positive width, and every grid rate is positive |
| RateCurve.BdRateDisjoint | src/bitrate_ladder/ladder.py:82-85 | curves whose quality ranges do not overlap, with either curve below the other, have no BD-rate |
| RateCurve.BdRateIdentity | src/bitrate_ladder/ladder.py:71-99 | `bd_rate(c, c) == 0` for a curve with positive rates and two distinct qualities, given only `exp(0) == 1` |
| RateCurve.AccumulateSame | src/bitrate_ladder/ladder.py:89-97 | the log-delta sum of a curve against itself is 0 |
| Ladder.CrossRightTurn | src/bitrate_ladder/ladder.py:136-139 | for increasing bitrates, `_cross < 0` iff the slope of the first segment exceeds the slope of the second |
| Ladder.PopWhileTurnsRight | src/bitrate_ladder/ladder.py:125-131 | after popping, the top two hull entries and the new point turn strictly right |
| Ladder.HullShape | src/bitrate_ladder/ladder.py:119-133 | ≤2 points give all indices; otherwise the indices strictly increase, start at 0, end at the last index, and every consecutive triple turns strictly right |
| Ladder.ScanIncreasing | src/bitrate_ladder/ladder.py:123-133 | the stack scan keeps strictly increasing indices that start at 0 and end at the last point |
| Ladder.ScanTurnsRight | src/bitrate_ladder/ladder.py:124-132 | every consecutive triple on the stack has `_cross < 0` |
| LadderExamples.HullMayDescend | src/bitrate_ladder/ladder.py:124-133 | the last point is always kept, so the hull can end with a lower VMAF: (100,50),(200,80),(300,60) keeps all three |
| Ladder.PopNonRightTurns | src/bitrate_ladder/ladder.py:125-131 | the pop loop computes its specification |
| Ladder.UpperHullIndices | src/bitrate_ladder/ladder.py:119-133 | `_upper_hull_indices` computes the specified hull |
| Ladder.GroupByBitrate | src/bitrate_ladder/ladder.py:25-27 | the `setdefault(...).append` loop maps each bitrate seen to its points in input order, with keys in first-seen order |
| Ladder.KeysMembers | src/bitrate_ladder/ladder.py:25-27 | the grouped keys are exactly the bitrates of the points, each once |
| Ladder.BucketMembers | src/bitrate_ladder/ladder.py:25-27 | a bitrate's bucket holds exactly the points with that bitrate, and is non-empty iff one exists |
| Ladder.Bitrates | src/bitrate_ladder/ladder.py:30 | `sorted(grouped.keys())` strictly increases and holds exactly the bitrates present |
| Ladder.BaselineOf | src/bitrate_ladder/ladder.py:32-34 | the baseline loop maps every bitrate to the maximum VMAF of its bucket |
| Ladder.MaxVmaf | src/bitrate_ladder/ladder.py:34 | the baseline VMAF is the VMAF of some candidate, and no candidate exceeds it |
| Ladder.NearBest | src/bitrate_ladder/ladder.py:39-43 | a candidate is near-best iff it is within `tie_tolerance` of the baseline; a negative tolerance keeps none |
| Ladder.NearBestNonEmpty | src/bitrate_ladder/ladder.py:39-45 | the near-best list is non-empty iff `tie_tolerance >= 0` |
| Ladder.LexMinById | src/bitrate_ladder/ladder.py:49 | `sorted(near_best, key=id)[0]` is a near-best candidate whose id no other is below |
| Ladder.LexMinFirst | src/bitrate_ladder/ladder.py:49 | `sorted` is stable: among candidates with the smallest id, the first in list order is taken |
| Ladder.TieBreak | src/bitrate_ladder/ladder.py:49-61 | the scoring loop returns the specified tie-scan winner |
| Ladder.TieScanWins | src/bitrate_ladder/ladder.py:52-61 | the scan's winner is a near-best candidate of minimal score, `None` scoring as +∞, and of the smallest id among equal scores |
| Ladder.TieWinnerUnique | src/bitrate_ladder/ladder.py:57-58 | no candidate with the winner's exact score has a smaller id |
| Ladder.PickRepresentative | src/bitrate_ladder/ladder.py:37-62 | one bitrate's pass of the loop returns the specified representative |
| Ladder.RepresentativeChoice | src/bitrate_ladder/ladder.py:37-62 | the representative is a candidate of its bucket, within tolerance of the baseline, and wins the tie-break |
| Ladder.RepresentativeAtChoice | src/bitrate_ladder/ladder.py:25-62 | the representative of the k-th bitrate is a point with that bitrate, within tolerance of its bucket's maximum, and wins the tie-break |
| Ladder.RepresentativeAtDefined | src/bitrate_ladder/ladder.py:39-49 | every bitrate has a representative iff `tie_tolerance >= 0` |
| Ladder.ClearWinner | src/bitrate_ladder/ladder.py:44-45 | a candidate that alone is best in its bucket (or ties only with larger ids) is the representative |
| Ladder.ChooseRepresentatives | src/bitrate_ladder/ladder.py:36-62 | the per-bitrate loop collects the specified representatives, or fails |
| Ladder.ChoicesAgree | src/bitrate_ladder/ladder.py:25-62 | the loop over the grouped dictionary chooses the representatives defined directly on the points |
| Ladder.CollectShape | src/bitrate_ladder/ladder.py:36-62 | collecting the per-bitrate choices succeeds iff every choice exists; then it keeps all of them in bitrate order |
| Ladder.SortByBitrateIncreasing | src/bitrate_ladder/ladder.py:64 | `.sort(key=bitrate)` leaves a list of strictly increasing bitrates unchanged |
| Ladder.AssembleSelection | src/bitrate_ladder/ladder.py:64-68 | sorting, hull and id extraction compute the specified selection |
| Ladder.HullPick | src/bitrate_ladder/ladder.py:65-66 | the hull points keep the first and last representatives, stay in increasing bitrate order, come from the representatives, and every inner point is strictly concave |
| Ladder.SelectLadder | src/bitrate_ladder/ladder.py:21-68 | `select_ladder` returns what the specification function gives |
| Ladder.SelectFails | src/bitrate_ladder/ladder.py:22-23 | the selection fails with the empty-input error iff there are no points, and with no near-best candidate iff the tolerance is negative |
| Ladder.SelectionShape | src/bitrate_ladder/ladder.py:64-68 | the selected ids are the hull ids in order; there is at most one hull point per bitrate; the ends are the lowest and highest bitrates; each hull point is its bitrate's representative; the hull is strictly concave |
| Ladder.SelectionRepresentatives | src/bitrate_ladder/ladder.py:62-66 | each hull point is the representative chosen for its bitrate |
| LadderExamples.SelectDistinctBitrates | src/bitrate_ladder/ladder.py:44-45 | with distinct bitrates every point represents itself, so the selection is the hull of the input |
| LadderExamples.HullExampleSelection | tests/test_ladder.py:6-14 | p1..p4 select `["p1", "p2", "p4"]` |
| LadderExamples.TieExampleRepresentatives | tests/test_ladder.py:24-30 | in the tie example, a, b and d represent their bitrates |
| LadderExamples.TieExampleSelection | tests/test_ladder.py:24-31 | the tie example selects `["a", "b", "d"]` |
| LadderExamples.TieExampleKeepsB | tests/test_ladder.py:31-33 | the tie example keeps "b" and not "c" |
| Config.CodecOf | src/bitrate_ladder/config.py:9-10 | a name is a codec iff it is "h264", "h265" or "av1", and the codec is named by it |
| Config.Resolve | src/bitrate_ladder/config.py:38-41 | without an override for the codec, `resolve` returns the defaults |
| Config.ResolveFields | src/bitrate_ladder/config.py:42-47 | with an override, each field comes from the override when set, else from the defaults |
| Config.ResolveEmptyOverride | src/bitrate_ladder/config.py:38-47 | an all-`None` override resolves to the defaults |
| Config.ResolveFullOverride | src/bitrate_ladder/config.py:42-47 | a fully set override resolves to itself |
| Config.ResolveIdempotent | src/bitrate_ladder/config.py:38-47 | resolving again over the resolved defaults changes nothing |
| Config.RequireString | src/bitrate_ladder/config.py:313-318 | accepts exactly a non-empty string, else raises "<path>.<key> must be a non-empty string" |
| Config.RequirePositiveInt | src/bitrate_ladder/config.py:321-326 | accepts exactly an integer above 0 (booleans count as integers), else raises "must be a positive integer" |
| Config.ParsePointAccepts | src/bitrate_ladder/config.py:164-180 | a point parses iff it is an object with positive integer bitrate/width/height and a known codec; the result holds those values |
| Config.ParsePointRoundTrip | src/bitrate_ladder/config.py:164-180 | a valid point written as an object parses back to itself |
| Config.ParsePointRejectsZeroBitrate | tests/test_config.py:43-59 | bitrate 0 is rejected with the bitrate error |
| Config.ParsePointRejectsVp9 | tests/test_config.py:62-78 | codec "vp9" is rejected with the codec error |
| Config.OptionalString | src/bitrate_ladder/config.py:212-217 | an unset setting gives `None`, a string gives itself, anything else raises "must be a string" |
| Config.OptionalPositiveInt | src/bitrate_ladder/config.py:218-219 | an unset keyint gives `None`, a positive integer gives itself, anything else raises |
| Config.ParseEncodingSettingsAccepts | src/bitrate_ladder/config.py:207-220 | settings parse iff preset/profile/pix_fmt are strings or unset and keyint is a positive integer or unset; each field of the result is unset exactly when the input is unset, and otherwise carries the given value |
| Config.ParseEncodingSettingsRoundTrip | src/bitrate_ladder/config.py:207-220 | valid settings written as an object parse back to themselves |
| Config.SettingsReadOnlyTheirKeys | src/bitrate_ladder/config.py:208-211 | only the four setting keys are read |
| Config.WithoutCodecKeys | src/bitrate_ladder/config.py:191 | the defaults object holds exactly the non-codec keys with their values |
| Config.ParseEncoding | src/bitrate_ladder/config.py:183-204 | the `per_codec` loop computes the specified result |
| Config.EncodingOfNull | src/bitrate_ladder/config.py:184-185 | `None` gives an empty encoding config |
| Config.EncodingWithoutCodecKeys | src/bitrate_ladder/config.py:203-204 | without codec keys, the whole object is the defaults and `per_codec` is empty |
| Config.EncodingWithCodecKeys | src/bitrate_ladder/config.py:189-201 | with a codec key, the non-codec keys are the defaults; a codec has an entry iff its key is set, and the entry is that object parsed |
| Config.PerCodecErrPersists | src/bitrate_ladder/config.py:194-200 | once a codec entry fails, the loop's result is that failure |
| Config.ParseResolution | src/bitrate_ladder/config.py:334-349 | a parsed resolution has a positive width and height |
| Config.ParseResolutionRoundTrip | src/bitrate_ladder/config.py:334-349 | `"<w>x<h>"` of a positive resolution parses back to `(w, h)` |
| Config.ParseResolutionNormalized | src/bitrate_ladder/config.py:335 | parsing a value equals parsing its stripped, lower-cased form |
| Config.ParseResolutionForm | src/bitrate_ladder/config.py:336-338 | the format error is raised iff the cleaned text does not hold exactly one "x" |
| Config.ParseResolutionNoSeparator | tests/test_config.py:101-118 | "foo" raises the format error |
| Config.ParseResolutionTwoSeparators | src/bitrate_ladder/config.py:336-338 | "1x2x3" raises the format error |
| Config.ParseResolutionPadded | tests/test_config.py:81-98 | " 1920X1080 " parses to (1920, 1080) |
| Metrics.FrameValueSkips | src/bitrate_ladder/metrics.py:38-45 | a frame that is not an object, lacks an object `metrics`, or has a string `vmaf` gives no value |
| Metrics.FrameValuesMembers | src/bitrate_ladder/metrics.py:37-46 | a value is collected iff some frame yields it |
| Metrics.FrameValuesOfJson | src/bitrate_ladder/metrics.py:37-46 | frames written from scores give back those scores in order |
| Metrics.ParseVmafPayload | src/bitrate_ladder/metrics.py:31-74 | the frame loop and in-place sort compute the specified metrics or error |
| Metrics.VmafRejectsNonObject | src/bitrate_ladder/metrics.py:32-33 | a non-object payload raises |
| Metrics.VmafFromFrames | src/bitrate_ladder/metrics.py:68-74 | with frame values: count is their number, min and max are values bounding all, mean = sum/count, and min ≤ mean, p95 ≤ max |
| Metrics.VmafFrameOrder | src/bitrate_ladder/metrics.py:68-74 | the summary depends only on the multiset of frame values, not their order |
| Metrics.VmafPooledFallback | src/bitrate_ladder/metrics.py:48-66 | without frame values the result is the pooled block when complete, with frame_count 0; otherwise it raises |
| Metrics.VmafPooledOnly | src/bitrate_ladder/metrics.py:53-64 | a complete pooled block gives its mean/min/max; p95 falls back to mean when missing or 0.0 |
| Metrics.VmafPooledIncomplete | src/bitrate_ladder/metrics.py:56-66 | a pooled block without a mean raises the no-frame-values error |
| Metrics.OrElse | src/bitrate_ladder/metrics.py:57 | `x or fallback` on a float: the fallback for `None` and 0.0, else `x` |
| Metrics.SortSorted | src/bitrate_ladder/metrics.py:68 | `values.sort()` orders the values |
| Metrics.Sort | src/bitrate_ladder/metrics.py:68 | `values.sort()` is a permutation |
| Metrics.SortedUnique | src/bitrate_ladder/metrics.py:68 | two sorted permutations of the same values are equal |
| Metrics.SumSort | src/bitrate_ladder/metrics.py:70 | sorting does not change the sum |
| Metrics.SumBounds | src/bitrate_ladder/metrics.py:70 | the sum of n values between lo and hi lies between n·lo and n·hi |
| Metrics.Rank | src/bitrate_ladder/metrics.py:84 | the percentile rank lies in [0, n-1], and below n-1 when n > 1 |
| Metrics.Percentile | src/bitrate_ladder/metrics.py:77-79 | `_percentile` is defined exactly on a non-empty list |
| Metrics.PercentileEdges | src/bitrate_ladder/metrics.py:80-83 | p ≤ 0 gives the first value, p ≥ 100 the last |
| Metrics.InterpolateBetween | src/bitrate_ladder/metrics.py:84-88 | on a sorted list, the result lies between the values at floor(rank) and the next index (clamped) |
| Metrics.PercentileBounds | src/bitrate_ladder/metrics.py:77-88 | on a sorted list every percentile lies between the minimum and the maximum |
| Metrics.PercentileExactRank | src/bitrate_ladder/metrics.py:84-88 | a whole-number rank k gives exactly the k-th value |
| Metrics.SummaryBounds | src/bitrate_ladder/metrics.py:69-74 | min ≤ mean ≤ max and min ≤ p95 ≤ max for sorted values |
| Report.PairCount | src/bitrate_ladder/report.py:65 | the number of segments the loop visits is the length of `zip(hull, hull[1:])` |
| Report.PairsShape | src/bitrate_ladder/report.py:65 | `zip(hull, hull[1:])` has `max(0, len(hull) - 1)` pairs, the k-th being hull point k and its successor |
| Report.SegmentOfJoins | src/bitrate_ladder/report.py:66-71 | a segment between different bitrates exists, and slope × Δbitrate = ΔVMAF |
| Report.SlopeIsQuotient | src/bitrate_ladder/report.py:70 | that slope is ΔVMAF / Δbitrate |
| Report.SegmentsShape | src/bitrate_ladder/report.py:64-72 | segments exist iff neighbouring hull bitrates differ; then there is one per pair, with segment i joining hull[i] and hull[i+1] |
| Report.SegmentsUpToShape | src/bitrate_ladder/report.py:64-72 | after n pairs: n segments that join their pairs, or the error of the first pair with equal bitrates |
| Report.SegmentsSlopesDecrease | src/bitrate_ladder/report.py:64-72 | along a strictly concave hull the segment slopes strictly decrease |
| Report.HullEntriesRoundTrip | src/bitrate_ladder/report.py:82-90 | `hull.points` entries map id, bitrate_kbps and vmaf_mean back to the hull points in order |
| Report.BuildReport | src/bitrate_ladder/report.py:57-94 | the segment loop computes the specified report |
| Report.ReportFields | src/bitrate_ladder/report.py:74-94 | timestamp, source path/metadata, points and runtime pass through; `selected_ladder` is the selection's ids; hull points and segments are as above |
| Report.ReportOfSelection | src/bitrate_ladder/report.py:64-94 | for a selection the ladder produced, the report has `len(hull) - 1` segments with strictly decreasing slopes, and the ladder ids are the hull ids |
| Encode.CodecLibraryInjective | src/bitrate_ladder/encode.py:14-18 | the three codecs use three different encoder libraries |
| Encode.OutputExtensionForCodec | src/bitrate_ladder/encode.py:20-28 | "mkv" iff av1, "mp4" iff h264 or h265 |
| Encode.FlagOfText | src/bitrate_ladder/encode.py:61-94 | each flag's text is read back as that flag |
| Encode.ParseFlatten | src/bitrate_ladder/encode.py:61-94 | the argument list of well-formed options reads back as those options, values rendered as text |
| Encode.LookupFound | src/bitrate_ladder/encode.py:61-94 | a flag's value is found iff the flag occurs with a value in the list |
| Encode.EncodeCommand | src/bitrate_ladder/encode.py:59-96 | the `extend`/`append` steps build the binary, then the options, then the destination |
| Encode.EncodeCommandShape | src/bitrate_ladder/encode.py:61-96 | the command starts with the binary, ends with the destination path, and its middle reads back as the options |
| Encode.EncodeRateControl | src/bitrate_ladder/encode.py:59-79 | `-i` is the source, `-vf` scales to width:height, `-c:v` is the codec library, `-b:v` and `-maxrate` are the same "<kbps>k", `-bufsize` is twice the bitrate, `-threads` is `max(1, threads)` |
| Encode.EncodeSpeed | src/bitrate_ladder/encode.py:82-87 | h264/h265 get `-preset`, defaulting to "medium"; av1 gets `-cpu-used`, defaulting to "6", plus `-row-mt 1`, and no `-preset` |
| Encode.EncodeOptionalFlags | src/bitrate_ladder/encode.py:89-94 | profile and pix_fmt appear iff truthy; keyint adds `-g` and `-keyint_min` with the same value iff truthy |
| Encode.AppendSpeed | src/bitrate_ladder/encode.py:82-87 | the preset step extends the command by the speed options |
| Encode.AppendProfile | src/bitrate_ladder/encode.py:89-90 | the profile step extends the command by the profile option |
| Encode.AppendPixFmt | src/bitrate_ladder/encode.py:91-92 | the pix_fmt step extends the command by the pix_fmt option |
| Encode.AppendKeyint | src/bitrate_ladder/encode.py:93-94 | the keyint step extends the command by `-g` and `-keyint_min` |
| Vmaf.EscapeFilterValuePerChar | src/bitrate_ladder/vmaf.py:88 | the three chained replaces equal escaping each character on its own; added backslashes are never re-escaped |
| Vmaf.EscapeSingle | src/bitrate_ladder/vmaf.py:88 | `\` becomes `\\`, `:` becomes `\:`, `'` becomes `\'`, every other character is unchanged |
| Vmaf.EscapeAppend | src/bitrate_ladder/vmaf.py:88 | escaping distributes over concatenation |
| Vmaf.EscapeRoundTrip | src/bitrate_ladder/vmaf.py:88 | removing the escapes gives back the original value |
| Vmaf.EscapeSealed | src/bitrate_ladder/vmaf.py:88 | an escaped value contains no unescaped `:` |
| Vmaf.BuildFilterOptions | src/bitrate_ladder/vmaf.py:45-52 | the `append`/`extend` steps build the specified option list |
| Vmaf.FilterOptionsLayout | src/bitrate_ladder/vmaf.py:45-52 | options are log_fmt, escaped log_path, `n_threads=max(1, threads)`, the escaped model path only when set, then the extras in order |
| Vmaf.SplitJoinOptions | src/bitrate_ladder/vmaf.py:57 | options without unescaped `:` joined with ':' split back into the same options |
| Vmaf.FilterGraphReads | src/bitrate_ladder/vmaf.py:54-58 | the graph starts with the scale/setpts/libvmaf head; its tail splits back into the options, and the log path reads back unescaped |
| CompareServer.CompareSession.constructor | src/bitrate_ladder/compare/models.py:29-38 | a session keeps the given report path, source, points, resolution, fps and cache directory, and starts with no issues and an empty asset registry |
| CompareServer.ParseOverride | src/bitrate_ladder/compare/server.py:212-224 | the cleaned override without "x" gives exactly the "<w>x<h>" 400 error; every other error is a 400; success is positive |
| CompareServer.ParseOverrideRoundTrip | src/bitrate_ladder/compare/server.py:212-224 | `"<w>x<h>"` of a positive resolution is read back as `(w, h)` |
| CompareServer.LargestSize | src/bitrate_ladder/compare/server.py:229-231 | width and height are each the maximum over all points, taken independently |
| CompareServer.ResolveEvaluationResolution | src/bitrate_ladder/compare/server.py:208-231 | a truthy override is parsed; else the session resolution; else the largest width and height, failing iff there are no points; 400 errors come only from an override |
| CompareServer.OverrideRoundTrip | src/bitrate_ladder/compare/server.py:212-224 | an override `"<w>x<h>"` resolves to `(w, h)` |
| CompareServer.EmptyOverride | src/bitrate_ladder/compare/server.py:212 | an empty override is the same as no override |
| CompareServer.BlankOverride | src/bitrate_ladder/compare/server.py:212-215 | a blank but non-empty override is truthy and fails with the "<w>x<h>" error |
| CompareServer.OverrideSplitsAtFirstX | src/bitrate_ladder/compare/server.py:216-221 | "1x2x3" splits at the first x, and "2x3" is not an integer |
| CompareServer.ResolveEvaluationFps | src/bitrate_ladder/compare/server.py:234-239 | the stripped override if non-blank, else the session fps if truthy, else "30"; never empty |
| CompareServer.BlankFpsOverride | src/bitrate_ladder/compare/server.py:235 | a blank override is the same as none |
| CompareServer.StrippedFpsOverride | src/bitrate_ladder/compare/server.py:235-236 | stripping the override first changes nothing |
| CompareServer.Prefix | src/bitrate_ladder/compare/server.py:243 | `s[:n]` is the first `min(n, len(s))` characters |
| CompareServer.RegisterAsset | src/bitrate_ladder/compare/server.py:242-246 | returns the token for the path, and maps that token to the path in the registry |
| CompareServer.TokenShape | src/bitrate_ladder/compare/server.py:243-244 | the token is "asset_" followed by the first 12 characters of the digest |
| CompareServer.RegisteredLookup | src/bitrate_ladder/compare/server.py:245 | the registry gains the token, mapped to the path, and every other entry is unchanged |
| CompareServer.RegisterIdempotent | src/bitrate_ladder/compare/server.py:242-246 | registering the same path twice leaves the registry as registering it once |

## Left out

- File, subprocess and clock effects are out of scope:
  - config, log and report file I/O (`load_config`, `_load_*`, `parse_vmaf_log`, `write_report`);
  - path resolution and existence checks;
  - running ffmpeg and ffprobe, and timing them;
  - `compare/preprocess.py`, `compare/session.py`, the compare-server endpoints and `_fps_to_float`;
  - `cli.py`, `compare/cli.py` and `plots.py`.
- External values are parameters:
  - The report's `generated_at` timestamp is the `generatedAt` parameter.
  - The SHA-1 digest of `_register_asset` is the `digest` parameter.
  - `math.log` and `math.exp` are the parameters `ln` and `exp`. The only property assumed of them is `exp(0) == 1`, and only where `bd_rate(c, c) == 0` is proved.
- Numeric modelling:
  - Python floats are reals, so rounding is not modelled.
  - `math.isclose` is exact equality, both in the tie-break and in `_rate_at_quality`. Two scores within isclose's relative tolerance that are not equal are therefore treated as different.
  - `float("inf")` is a separate `Infinite` score.
- RateCurve.BdRate: requires `samples > 0`. With `samples == 0` the Python code divides by zero, and no caller passes it.
- Python's `int()` is a decimal parser: optional surrounding whitespace, an optional sign, then digits. Underscore separators and non-ASCII digits are not accepted.
- `str.strip`, `str.lower` and string `<` work on ASCII whitespace and letters and on code-point order. Unicode case folding is not modelled.
- Config.RequirePositiveInt: a JSON `true` is accepted as a positive integer and carried on as the number 1. Python keeps the `bool`, so `encode.py` would render it as `True` (`"Truek"`, `scale=True:…`, `-g True`), where the model renders `1k`, `scale=1:…` and `-g 1`. `Config.OptionalPositiveInt` does the same for `keyint`.
- Config.ParseResolution: its contract states only that a parsed resolution is positive. The distinction between the non-integer and the non-positive error is kept in the function but is not stated as a lemma.
- `VALID_CODECS` is a Python set. `_parse_encoding` visits it in hash order, and the model fixes the order h264, h265, av1. This only decides which error is raised when two codec entries are both invalid.
- `sorted` and `list.sort` are modelled as functions proved to order and permute their input (insertion sort), not as in-place array updates.
- `CompareSession.points` is a dictionary. It is modelled as a sequence of (id, point) entries in insertion order; the resolution fallback only takes maxima over it.
- Encode: option values are kept structured (text, number, kilobits, scale filter, encoder) and rendered to the Python strings by `Encode.Render`. The lemmas state the flags' values in that structured form.
- Vmaf.SplitOptions reads only backslash escapes and ':' separators. ffmpeg's quoting with `'...'` and its filter-graph level of escaping are not modelled.
- `cli.py:145-154` passes `evaluation_width=`/`evaluation_height=` to `compute_vmaf_metrics`, whose parameters are `width`/`height`. That call is outside this model.
