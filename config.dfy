/**
  Validation of the user configuration in `config.py`: ladder points,
  encoder settings with per-codec overrides, and `"<width>x<height>"`
  resolution strings. The input is the JSON-like value the file loader
  returns; every `ConfigError` the Python code raises is an `Err` here.
*/
module Config {
  import opened Common
  import opened Strings
  import opened Json

  datatype Codec = H264 | H265 | Av1

  /**
    The codecs in the order the per-codec loop visits them. Python iterates
    the set `VALID_CODECS`, whose order is not fixed; this order decides only
    which of several bad entries is reported.
  */
  const AllCodecs: seq<Codec> := [H264, H265, Av1]

  function CodecName(c: Codec): string
  {
    match c
    case H264 => "h264"
    case H265 => "h265"
    case Av1 => "av1"
  }

  /** `name in VALID_CODECS`, and which codec it names. */
  function CodecOf(name: string): (r: Option<Codec>)
    ensures r.Some? <==> name == "h264" || name == "h265" || name == "av1"
    ensures r.Some? ==> CodecName(r.value) == name
  {
    if name == "h264" then Some(H264)
    else if name == "h265" then Some(H265)
    else if name == "av1" then Some(Av1)
    else None
  }

  lemma CodecNameRoundTrip(c: Codec)
    ensures CodecOf(CodecName(c)) == Some(c)
  {
  }

  datatype LadderPointConfig = LadderPointConfig(bitrateKbps: int, width: int, height: int, codec: Codec)

  /** Encoder settings; `None` means "not set here". */
  datatype CodecEncodingSettings = CodecEncodingSettings(
    preset: Option<string>, profile: Option<string>, pixFmt: Option<string>, keyint: Option<int>)

  const NoSettings: CodecEncodingSettings := CodecEncodingSettings(None, None, None, None)

  datatype EncodingConfig = EncodingConfig(defaults: CodecEncodingSettings, perCodec: map<Codec, CodecEncodingSettings>)

  /** The `ConfigError`s of the modelled readers, each with the dotted name of the offending field. */
  datatype ConfigError =
    | NotAnObject(field: string)
    | NotPositiveInt(field: string)
    | NotNonEmptyString(field: string)
    | UnknownCodec(field: string, codec: string)
    | NotAString(field: string)
    | BadResolutionFormat(field: string)
    | NonIntegerResolution(field: string)
    | NonPositiveResolution(field: string)

  // ---------------------------------------------------------------------------
  // EncodingConfig.resolve
  // ---------------------------------------------------------------------------

  /** `override if override is not None else default`. */
  function Overlay<T>(over: Option<T>, under: Option<T>): (r: Option<T>)
    ensures over.Some? ==> r == over
    ensures over.None? ==> r == under
  {
    if over.Some? then over else under
  }

  /** `EncodingConfig.resolve(codec)`: the codec's override laid field by field over the defaults. */
  function Resolve(cfg: EncodingConfig, codec: Codec): (r: CodecEncodingSettings)
    ensures codec !in cfg.perCodec ==> r == cfg.defaults
  {
    if codec !in cfg.perCodec then cfg.defaults
    else
      var over := cfg.perCodec[codec];
      CodecEncodingSettings(
        Overlay(over.preset, cfg.defaults.preset),
        Overlay(over.profile, cfg.defaults.profile),
        Overlay(over.pixFmt, cfg.defaults.pixFmt),
        Overlay(over.keyint, cfg.defaults.keyint))
  }

  /**
    Each resolved field comes from the override when the override sets it,
    and from the defaults otherwise; it is set exactly when one of them sets it.
  */
  lemma ResolveFields(cfg: EncodingConfig, codec: Codec)
    requires codec in cfg.perCodec
    ensures var r, over, d := Resolve(cfg, codec), cfg.perCodec[codec], cfg.defaults;
      && (r.preset == if over.preset.Some? then over.preset else d.preset)
      && (r.profile == if over.profile.Some? then over.profile else d.profile)
      && (r.pixFmt == if over.pixFmt.Some? then over.pixFmt else d.pixFmt)
      && (r.keyint == if over.keyint.Some? then over.keyint else d.keyint)
      && (r.preset.Some? <==> over.preset.Some? || d.preset.Some?)
      && (r.keyint.Some? <==> over.keyint.Some? || d.keyint.Some?)
  {
  }

  /** An override that sets nothing resolves to the defaults, exactly as no override does. */
  lemma ResolveEmptyOverride(cfg: EncodingConfig, codec: Codec)
    requires codec in cfg.perCodec && cfg.perCodec[codec] == NoSettings
    ensures Resolve(cfg, codec) == cfg.defaults
  {
  }

  /** An override that sets every field is taken whole. */
  lemma ResolveFullOverride(cfg: EncodingConfig, codec: Codec)
    requires codec in cfg.perCodec
    requires var o := cfg.perCodec[codec]; o.preset.Some? && o.profile.Some? && o.pixFmt.Some? && o.keyint.Some?
    ensures Resolve(cfg, codec) == cfg.perCodec[codec]
  {
  }

  /** Resolving again over the resolved settings changes nothing. */
  lemma ResolveIdempotent(cfg: EncodingConfig, codec: Codec)
    ensures Resolve(EncodingConfig(Resolve(cfg, codec), cfg.perCodec), codec) == Resolve(cfg, codec)
  {
  }

  // ---------------------------------------------------------------------------
  // _require_string, _require_positive_int
  // ---------------------------------------------------------------------------

  /** `f"{path}.{key}"`, or just `key` when there is no path. */
  function Qualified(path: string, key: string): string
  {
    (if path == "" then "" else path + ".") + key
  }

  /** `_require_string`: the value at `key` must be a non-empty string. */
  function RequireString(raw: map<string, Value>, key: string, path: string): (r: Result<string, ConfigError>)
    ensures r.Ok? <==> Get(raw, key).Str? && Get(raw, key).s != ""
    ensures r.Ok? ==> Get(raw, key) == Str(r.value) && r.value != ""
    ensures r.Err? ==> r.error == NotNonEmptyString(Qualified(path, key))
  {
    var value := Get(raw, key);
    if value.Str? && value.s != "" then Ok(value.s) else Err(NotNonEmptyString(Qualified(path, key)))
  }

  /**
    `_require_positive_int`: the value at `key` must be an `int` above 0.
    A JSON `true` is an `int` to Python and is accepted; the model carries
    it on as the number 1, where Python keeps the `bool` itself.
  */
  function RequirePositiveInt(raw: map<string, Value>, key: string, path: string): (r: Result<int, ConfigError>)
    ensures r.Ok? <==> AsInt(Get(raw, key)).Some? && AsInt(Get(raw, key)).value > 0
    ensures r.Ok? ==> r.value > 0 && AsInt(Get(raw, key)) == Some(r.value)
    ensures r.Err? ==> r.error == NotPositiveInt(Qualified(path, key))
  {
    var value := AsInt(Get(raw, key));
    if value.Some? && value.value > 0 then Ok(value.value) else Err(NotPositiveInt(Qualified(path, key)))
  }

  // ---------------------------------------------------------------------------
  // _parse_point
  // ---------------------------------------------------------------------------

  /** `f"ladder.points[{index}]"`. */
  function PointPath(index: nat): string
  {
    "ladder.points[" + NatToString(index) + "]"
  }

  /** `_parse_point(raw, index)`. */
  function ParsePoint(raw: Value, index: nat): Result<LadderPointConfig, ConfigError>
  {
    var path := PointPath(index);
    if !raw.Object? then Err(NotAnObject(path))
    else
      var bitrate := RequirePositiveInt(raw.fields, "bitrate_kbps", path);
      if bitrate.Err? then Err(bitrate.error)
      else
        var width := RequirePositiveInt(raw.fields, "width", path);
        if width.Err? then Err(width.error)
        else
          var height := RequirePositiveInt(raw.fields, "height", path);
          if height.Err? then Err(height.error)
          else
            var codec := RequireString(raw.fields, "codec", path);
            if codec.Err? then Err(codec.error)
            else match CodecOf(codec.value)
              case None => Err(UnknownCodec(path, codec.value))
              case Some(c) => Ok(LadderPointConfig(bitrate.value, width.value, height.value, c))
  }

  /** The object a valid point is written as in a configuration file. */
  function PointJson(p: LadderPointConfig): Value
  {
    Object(map["bitrate_kbps" := Int(p.bitrateKbps), "width" := Int(p.width), "height" := Int(p.height),
               "codec" := Str(CodecName(p.codec))])
  }

  /**
    A point is accepted exactly when it is an object whose bitrate, width and
    height are positive integers and whose codec is one of h264, h265, av1;
    the accepted point carries those values.
  */
  lemma ParsePointAccepts(raw: Value, index: nat)
    ensures ParsePoint(raw, index).Ok? <==>
      && raw.Object?
      && AsInt(Get(raw.fields, "bitrate_kbps")).Some? && AsInt(Get(raw.fields, "bitrate_kbps")).value > 0
      && AsInt(Get(raw.fields, "width")).Some? && AsInt(Get(raw.fields, "width")).value > 0
      && AsInt(Get(raw.fields, "height")).Some? && AsInt(Get(raw.fields, "height")).value > 0
      && Get(raw.fields, "codec").Str? && CodecOf(Get(raw.fields, "codec").s).Some?
    ensures ParsePoint(raw, index).Ok? ==>
      var p := ParsePoint(raw, index).value;
      && p.bitrateKbps > 0 && p.width > 0 && p.height > 0
      && AsInt(Get(raw.fields, "bitrate_kbps")) == Some(p.bitrateKbps)
      && AsInt(Get(raw.fields, "width")) == Some(p.width)
      && AsInt(Get(raw.fields, "height")) == Some(p.height)
      && Get(raw.fields, "codec") == Str(CodecName(p.codec))
  {
  }

  /** Writing a valid point out and reading it back gives the same point. */
  lemma ParsePointRoundTrip(p: LadderPointConfig, index: nat)
    requires p.bitrateKbps > 0 && p.width > 0 && p.height > 0
    ensures ParsePoint(PointJson(p), index) == Ok(p)
  {
    CodecNameRoundTrip(p.codec);
  }

  /** A zero bitrate is rejected, whatever the other fields hold. */
  lemma ParsePointRejectsZeroBitrate(raw: Value, index: nat)
    requires raw.Object? && Get(raw.fields, "bitrate_kbps") == Int(0)
    ensures ParsePoint(raw, index) == Err(NotPositiveInt(PointPath(index) + ".bitrate_kbps"))
  {
    var path := PointPath(index);
    assert path != "" by {
      assert path[0] == 'l';
    }
    assert Qualified(path, "bitrate_kbps") == path + ".bitrate_kbps";
  }

  /** A `"vp9"` codec is rejected even when every number is valid. */
  lemma ParsePointRejectsVp9(raw: Value, index: nat)
    requires raw.Object?
    requires Get(raw.fields, "bitrate_kbps") == Int(600) && Get(raw.fields, "width") == Int(640)
    requires Get(raw.fields, "height") == Int(360) && Get(raw.fields, "codec") == Str("vp9")
    ensures ParsePoint(raw, index) == Err(UnknownCodec(PointPath(index), "vp9"))
  {
  }

  // ---------------------------------------------------------------------------
  // _parse_encoding_settings
  // ---------------------------------------------------------------------------

  /** A setting that must be a string when present (`None` and a missing key both mean "not set"). */
  function OptionalString(raw: map<string, Value>, key: string, path: string): (r: Result<Option<string>, ConfigError>)
    ensures r.Ok? <==> Get(raw, key).Null? || Get(raw, key).Str?
    ensures r == Ok(None) <==> Get(raw, key).Null?
    ensures r.Ok? && r.value.Some? ==> Get(raw, key) == Str(r.value.value)
    ensures r.Err? ==> r.error == NotAString(Qualified(path, key))
  {
    match Get(raw, key)
    case Null => Ok(None)
    case Str(s) => Ok(Some(s))
    case _ => Err(NotAString(Qualified(path, key)))
  }

  /** `keyint`: when present, an `int` above 0. */
  function OptionalPositiveInt(raw: map<string, Value>, key: string, path: string): (r: Result<Option<int>, ConfigError>)
    ensures r.Ok? <==> Get(raw, key).Null? || (AsInt(Get(raw, key)).Some? && AsInt(Get(raw, key)).value > 0)
    ensures r == Ok(None) <==> Get(raw, key).Null?
    ensures r.Ok? && r.value.Some? ==> r.value.value > 0 && AsInt(Get(raw, key)) == r.value
    ensures r.Err? ==> r.error == NotPositiveInt(Qualified(path, key))
  {
    var value := Get(raw, key);
    if value.Null? then Ok(None)
    else if AsInt(value).Some? && AsInt(value).value > 0 then Ok(AsInt(value))
    else Err(NotPositiveInt(Qualified(path, key)))
  }

  /** `_parse_encoding_settings(raw, path)`: the four settings, checked in this order. */
  function ParseEncodingSettings(raw: map<string, Value>, path: string): Result<CodecEncodingSettings, ConfigError>
  {
    var preset := OptionalString(raw, "preset", path);
    var profile := OptionalString(raw, "profile", path);
    var pixFmt := OptionalString(raw, "pix_fmt", path);
    var keyint := OptionalPositiveInt(raw, "keyint", path);
    if preset.Err? then Err(preset.error)
    else if profile.Err? then Err(profile.error)
    else if pixFmt.Err? then Err(pixFmt.error)
    else if keyint.Err? then Err(keyint.error)
    else Ok(CodecEncodingSettings(preset.value, profile.value, pixFmt.value, keyint.value))
  }

  const SettingKeys: seq<string> := ["preset", "profile", "pix_fmt", "keyint"]

  /** Only the four setting keys are read: objects that agree on them parse alike. */
  lemma SettingsReadOnlyTheirKeys(a: map<string, Value>, b: map<string, Value>, path: string)
    requires forall key | key in SettingKeys :: Get(a, key) == Get(b, key)
    ensures ParseEncodingSettings(a, path) == ParseEncodingSettings(b, path)
  {
    assert SettingKeys[0] in SettingKeys && SettingKeys[1] in SettingKeys;
    assert SettingKeys[2] in SettingKeys && SettingKeys[3] in SettingKeys;
  }

  /**
    The settings are accepted exactly when preset, profile and pix_fmt are
    strings or unset and keyint is a positive integer or unset; the result
    holds what was given.
  */
  lemma ParseEncodingSettingsAccepts(raw: map<string, Value>, path: string)
    ensures ParseEncodingSettings(raw, path).Ok? <==>
      && (Get(raw, "preset").Null? || Get(raw, "preset").Str?)
      && (Get(raw, "profile").Null? || Get(raw, "profile").Str?)
      && (Get(raw, "pix_fmt").Null? || Get(raw, "pix_fmt").Str?)
      && (Get(raw, "keyint").Null? || (AsInt(Get(raw, "keyint")).Some? && AsInt(Get(raw, "keyint")).value > 0))
    ensures ParseEncodingSettings(raw, path).Ok? ==>
      var s := ParseEncodingSettings(raw, path).value;
      && (s.preset.None? <==> Get(raw, "preset").Null?)
      && (s.preset.Some? ==> Get(raw, "preset") == Str(s.preset.value))
      && (s.profile.None? <==> Get(raw, "profile").Null?)
      && (s.profile.Some? ==> Get(raw, "profile") == Str(s.profile.value))
      && (s.pixFmt.None? <==> Get(raw, "pix_fmt").Null?)
      && (s.pixFmt.Some? ==> Get(raw, "pix_fmt") == Str(s.pixFmt.value))
      && (s.keyint.None? <==> Get(raw, "keyint").Null?)
      && (s.keyint.Some? ==> s.keyint.value > 0 && AsInt(Get(raw, "keyint")) == s.keyint)
  {
  }

  function OptionalStringJson(s: Option<string>): Value
  {
    if s.Some? then Str(s.value) else Null
  }

  /** The object a settings record is written as (unset fields as `null`). */
  function SettingsJson(s: CodecEncodingSettings): map<string, Value>
  {
    map["preset" := OptionalStringJson(s.preset), "profile" := OptionalStringJson(s.profile),
        "pix_fmt" := OptionalStringJson(s.pixFmt), "keyint" := if s.keyint.Some? then Int(s.keyint.value) else Null]
  }

  /** Writing settings out and reading them back gives the same settings. */
  lemma ParseEncodingSettingsRoundTrip(s: CodecEncodingSettings, path: string)
    requires s.keyint.None? || s.keyint.value > 0
    ensures ParseEncodingSettings(SettingsJson(s), path) == Ok(s)
  {
  }

  // ---------------------------------------------------------------------------
  // _parse_encoding
  // ---------------------------------------------------------------------------

  /** `any(key in VALID_CODECS for key in raw)`. */
  predicate HasCodecKey(fields: map<string, Value>)
  {
    "h264" in fields || "h265" in fields || "av1" in fields
  }

  /** `{k: v for k, v in raw.items() if k not in VALID_CODECS}`. */
  function WithoutCodecKeys(fields: map<string, Value>): (r: map<string, Value>)
    ensures forall k :: k in r <==> k in fields && CodecOf(k).None?
    ensures forall k | k in r :: r[k] == fields[k]
  {
    map k | k in fields && CodecOf(k).None? :: fields[k]
  }

  function CodecPath(c: Codec): string
  {
    "encoding." + CodecName(c)
  }

  /** One pass of the per-codec loop: skip a missing entry, otherwise parse it into `perCodec`. */
  function AddCodec(fields: map<string, Value>, c: Codec, perCodec: map<Codec, CodecEncodingSettings>)
    : Result<map<Codec, CodecEncodingSettings>, ConfigError>
  {
    var entry := Get(fields, CodecName(c));
    if entry.Null? then Ok(perCodec)
    else if !entry.Object? then Err(NotAnObject(CodecPath(c)))
    else match ParseEncodingSettings(entry.fields, CodecPath(c))
      case Err(e) => Err(e)
      case Ok(s) => Ok(perCodec[c := s])
  }

  /** `per_codec` after the loop has visited the first `n` codecs, or the first error. */
  function PerCodec(fields: map<string, Value>, n: nat): Result<map<Codec, CodecEncodingSettings>, ConfigError>
    requires n <= |AllCodecs|
  {
    if n == 0 then Ok(map[])
    else match PerCodec(fields, n - 1)
      case Err(e) => Err(e)
      case Ok(m) => AddCodec(fields, AllCodecs[n - 1], m)
  }

  /** `_parse_encoding(raw)`. */
  function EncodingOf(raw: Value): Result<EncodingConfig, ConfigError>
  {
    if raw.Null? then Ok(EncodingConfig(NoSettings, map[]))
    else if !raw.Object? then Err(NotAnObject("encoding"))
    else if HasCodecKey(raw.fields) then
      match ParseEncodingSettings(WithoutCodecKeys(raw.fields), "encoding")
      case Err(e) => Err(e)
      case Ok(defaults) =>
        match PerCodec(raw.fields, |AllCodecs|)
        case Err(e) => Err(e)
        case Ok(perCodec) => Ok(EncodingConfig(defaults, perCodec))
    else
      match ParseEncodingSettings(raw.fields, "encoding")
      case Err(e) => Err(e)
      case Ok(defaults) => Ok(EncodingConfig(defaults, map[]))
  }

  /** `_parse_encoding` as written: the per-codec dictionary is filled in a loop. */
  method ParseEncoding(raw: Value) returns (r: Result<EncodingConfig, ConfigError>)
    ensures r == EncodingOf(raw)
  {
    if raw.Null? {
      return Ok(EncodingConfig(NoSettings, map[]));
    }
    if !raw.Object? {
      return Err(NotAnObject("encoding"));
    }
    if !HasCodecKey(raw.fields) {
      var defaults := ParseEncodingSettings(raw.fields, "encoding");
      if defaults.Err? {
        return Err(defaults.error);
      }
      return Ok(EncodingConfig(defaults.value, map[]));
    }
    var defaults := ParseEncodingSettings(WithoutCodecKeys(raw.fields), "encoding");
    if defaults.Err? {
      return Err(defaults.error);
    }
    var perCodec: map<Codec, CodecEncodingSettings> := map[];
    for k := 0 to |AllCodecs|
      invariant PerCodec(raw.fields, k) == Ok(perCodec)
    {
      var codec := AllCodecs[k];
      PerCodecStep(raw.fields, k, perCodec);
      var entry := Get(raw.fields, CodecName(codec));
      if entry.Null? {
        continue;
      }
      if !entry.Object? {
        PerCodecErrPersists(raw.fields, k + 1, |AllCodecs|);
        return Err(NotAnObject(CodecPath(codec)));
      }
      var settings := ParseEncodingSettings(entry.fields, CodecPath(codec));
      if settings.Err? {
        PerCodecErrPersists(raw.fields, k + 1, |AllCodecs|);
        return Err(settings.error);
      }
      perCodec := perCodec[codec := settings.value];
    }
    return Ok(EncodingConfig(defaults.value, perCodec));
  }

  /** One more pass of the loop adds the next codec to the map built so far. */
  lemma PerCodecStep(fields: map<string, Value>, k: nat, perCodec: map<Codec, CodecEncodingSettings>)
    requires k < |AllCodecs| && PerCodec(fields, k) == Ok(perCodec)
    ensures PerCodec(fields, k + 1) == AddCodec(fields, AllCodecs[k], perCodec)
  {
  }

  /** Once a codec entry fails, the loop's result is that failure. */
  lemma {:induction false} PerCodecErrPersists(fields: map<string, Value>, k: nat, n: nat)
    requires k <= n <= |AllCodecs| && PerCodec(fields, k).Err?
    ensures PerCodec(fields, n) == PerCodec(fields, k)
    decreases n
  {
    if k < n {
      PerCodecErrPersists(fields, k, n - 1);
    }
  }

  /**
    After the loop has visited the first `n` codecs, a codec has an entry in
    `per_codec` exactly when it was visited and its key holds a value other
    than `null`, and that entry is its parsed settings.
  */
  lemma {:induction false} PerCodecEntries(fields: map<string, Value>, n: nat)
    requires n <= |AllCodecs| && PerCodec(fields, n).Ok?
    ensures forall c :: c in PerCodec(fields, n).value <==> c in AllCodecs[..n] && !Get(fields, CodecName(c)).Null?
    ensures forall c | c in PerCodec(fields, n).value ::
      && Get(fields, CodecName(c)).Object?
      && ParseEncodingSettings(Get(fields, CodecName(c)).fields, CodecPath(c)) == Ok(PerCodec(fields, n).value[c])
  {
    if n > 0 {
      PerCodecEntries(fields, n - 1);
      assert AllCodecs[..n] == AllCodecs[..n - 1] + [AllCodecs[n - 1]];
    }
  }

  /** `None` gives the empty configuration. */
  lemma EncodingOfNull()
    ensures EncodingOf(Null) == Ok(EncodingConfig(NoSettings, map[]))
  {
  }

  /** Without any codec key, the whole object is the defaults and there is no override. */
  lemma EncodingWithoutCodecKeys(fields: map<string, Value>)
    requires !HasCodecKey(fields)
    ensures EncodingOf(Object(fields)).Ok? <==> ParseEncodingSettings(fields, "encoding").Ok?
    ensures EncodingOf(Object(fields)).Ok? ==>
      EncodingOf(Object(fields)).value == EncodingConfig(ParseEncodingSettings(fields, "encoding").value, map[])
  {
  }

  /**
    With a codec key, the other keys are the defaults (parsed as if the codec
    keys were not there) and every codec whose key holds a value gets an
    override parsed from that object, and no other codec does.
  */
  lemma EncodingWithCodecKeys(fields: map<string, Value>)
    requires HasCodecKey(fields) && EncodingOf(Object(fields)).Ok?
    ensures var cfg := EncodingOf(Object(fields)).value;
      && ParseEncodingSettings(fields, "encoding") == Ok(cfg.defaults)
      && (forall c :: c in cfg.perCodec <==> !Get(fields, CodecName(c)).Null?)
      && forall c | c in cfg.perCodec ::
           && Get(fields, CodecName(c)).Object?
           && ParseEncodingSettings(Get(fields, CodecName(c)).fields, CodecPath(c)) == Ok(cfg.perCodec[c])
  {
    var rest := WithoutCodecKeys(fields);
    forall key | key in SettingKeys
      ensures Get(rest, key) == Get(fields, key)
    {
    }
    SettingsReadOnlyTheirKeys(rest, fields, "encoding");
    PerCodecEntries(fields, |AllCodecs|);
    assert AllCodecs[..|AllCodecs|] == AllCodecs;
    forall c ensures c in AllCodecs {
      assert c == AllCodecs[0] || c == AllCodecs[1] || c == AllCodecs[2];
    }
  }

  // ---------------------------------------------------------------------------
  // parse_resolution_string
  // ---------------------------------------------------------------------------

  /** `parse_resolution_string(value, field_name)`: the text is stripped and lower-cased, then read. */
  function ParseResolution(value: string, fieldName: string): (r: Result<(int, int), ConfigError>)
    ensures r.Ok? ==> r.value.0 > 0 && r.value.1 > 0
  {
    ParseCleanedResolution(Lower(Strip(value)), fieldName)
  }

  /** Reading the stripped, lower-cased text: two integers around one `x`, both positive. */
  function ParseCleanedResolution(cleaned: string, fieldName: string): (r: Result<(int, int), ConfigError>)
    ensures r.Ok? ==> r.value.0 > 0 && r.value.1 > 0
  {
    var parts := Split(cleaned, 'x');
    if |parts| != 2 then Err(BadResolutionFormat(fieldName))
    else
      var width := ParseInt(parts[0]);
      var height := ParseInt(parts[1]);
      if width.None? || height.None? then Err(NonIntegerResolution(fieldName))
      else if width.value <= 0 || height.value <= 0 then Err(NonPositiveResolution(fieldName))
      else Ok((width.value, height.value))
  }

  /** The text `"<width>x<height>"` for two integers. */
  function ResolutionText(width: int, height: int): string
  {
    IntToString(width) + "x" + IntToString(height)
  }

  /** Printing a positive resolution and parsing it back gives the same resolution. */
  lemma ParseResolutionRoundTrip(width: int, height: int, fieldName: string)
    requires width > 0 && height > 0
    ensures ParseResolution(ResolutionText(width, height), fieldName) == Ok((width, height))
  {
    ResolutionTextClean(width, height);
    CleanedRoundTrip(width, height, fieldName);
  }

  lemma CleanedRoundTrip(width: int, height: int, fieldName: string)
    requires width > 0 && height > 0
    ensures ParseCleanedResolution(ResolutionText(width, height), fieldName) == Ok((width, height))
  {
    var w, h := IntToString(width), IntToString(height);
    SplitAround(w, h, 'x');
    assert ResolutionText(width, height) == w + ['x'] + h;
    IntRoundTrip(width);
    IntRoundTrip(height);
  }

  /** The printed resolution is already stripped and lower-case. */
  lemma ResolutionTextClean(width: int, height: int)
    requires width > 0 && height > 0
    ensures Lower(Strip(ResolutionText(width, height))) == ResolutionText(width, height)
  {
    var w, h := NatToString(width), NatToString(height);
    DigitsAroundX(w, h);
    assert ResolutionText(width, height) == w + "x" + h;
    CleanText(w + "x" + h);
  }

  /** Two runs of digits around an `x` have no space at their ends and no capital letter. */
  lemma DigitsAroundX(w: string, h: string)
    requires w != [] && h != [] && AllDigits(w) && AllDigits(h)
    ensures var text := w + "x" + h;
      text != [] && !IsSpace(text[0]) && !IsSpace(text[|text| - 1])
      && forall i | 0 <= i < |text| :: !('A' <= text[i] <= 'Z')
  {
    var text := w + "x" + h;
    forall i | 0 <= i < |text| ensures !('A' <= text[i] <= 'Z') {
      if i < |w| {
        assert text[i] == w[i];
      } else if i > |w| {
        assert text[i] == h[i - |w| - 1];
      }
    }
    assert text[0] == w[0] && text[|text| - 1] == h[|h| - 1];
  }

  /**
    Surrounding whitespace and letter case do not matter: the input is
    parsed exactly as its stripped, lower-cased form is.
  */
  lemma ParseResolutionNormalized(value: string, fieldName: string)
    ensures ParseResolution(value, fieldName) == ParseResolution(Lower(Strip(value)), fieldName)
  {
    CleanIdempotent(value);
  }

  /** Stripping and lower-casing a second time changes nothing. */
  lemma CleanIdempotent(value: string)
    ensures Lower(Strip(Lower(Strip(value)))) == Lower(Strip(value))
  {
    var s := Strip(value);
    var t := Lower(s);
    assert t == [] || (!IsSpace(t[0]) && !IsSpace(t[|t| - 1]));
    StripUnpadded(t);
    LowerIdempotent(s);
  }

  /**
    The input lacks the `<width>x<height>` form exactly when its stripped,
    lower-cased text does not hold exactly one `x`.
  */
  lemma ParseResolutionForm(value: string, fieldName: string)
    ensures ParseResolution(value, fieldName) == Err(BadResolutionFormat(fieldName))
            <==> CountChar(Lower(Strip(value)), 'x') != 1
  {
    SplitCount(Lower(Strip(value)), 'x');
  }

  /** `"foo"` is rejected for its form. */
  lemma ParseResolutionNoSeparator(fieldName: string)
    ensures ParseResolution("foo", fieldName) == Err(BadResolutionFormat(fieldName))
  {
    CleanFoo();
    NoSeparatorFoo(fieldName);
  }

  lemma CleanFoo()
    ensures Lower(Strip("foo")) == "foo"
  {
    CleanText("foo");
  }

  lemma NoSeparatorFoo(fieldName: string)
    ensures ParseCleanedResolution("foo", fieldName) == Err(BadResolutionFormat(fieldName))
  {
    SplitNoSeparator("foo", 'x');
  }

  /** `"1x2x3"` is rejected for its form. */
  lemma ParseResolutionTwoSeparators(fieldName: string)
    ensures ParseResolution("1x2x3", fieldName) == Err(BadResolutionFormat(fieldName))
  {
    assert Lower(Strip("1x2x3")) == "1x2x3" by {
      CleanText("1x2x3");
    }
    assert CountChar("1x2x3", 'x') == 2 by {
      TwoSeparatorsCount();
    }
    ParseResolutionForm("1x2x3", fieldName);
  }

  lemma TwoSeparatorsCount()
    ensures CountChar("1x2x3", 'x') == 2
  {
    assert "1x2x3"[1..] == "x2x3" && "x2x3"[1..] == "2x3" && "2x3"[1..] == "x3" && "x3"[1..] == "3";
    assert CountChar("3", 'x') == 0;
    assert CountChar("x3", 'x') == 1;
    assert CountChar("2x3", 'x') == 1;
    assert CountChar("x2x3", 'x') == 2;
  }

  /** `" 1920X1080 "` is read as 1920 by 1080. */
  lemma ParseResolutionPadded(fieldName: string)
    ensures ParseResolution(" 1920X1080 ", fieldName) == Ok((1920, 1080))
  {
    PaddedText();
    CleanedRoundTrip(1920, 1080, fieldName);
  }

  lemma PaddedText()
    ensures Lower(Strip(" 1920X1080 ")) == ResolutionText(1920, 1080)
  {
    StripText();
    LowerText();
    assert ResolutionText(1920, 1080) == "1920x1080" by {
      DecimalTexts();
      JoinedText();
    }
  }

  lemma JoinedText()
    ensures "1920" + "x" + "1080" == "1920x1080"
  {
  }

  lemma StripText()
    ensures Strip(" 1920X1080 ") == "1920X1080"
  {
    PaddedLiteral();
    StripPadded("1920X1080");
  }

  lemma PaddedLiteral()
    ensures [' '] + "1920X1080" + [' '] == " 1920X1080 "
  {
  }

  lemma DecimalTexts()
    ensures NatToString(1920) == "1920" && NatToString(1080) == "1080"
  {
    Text1920();
    Text1080();
  }

  lemma Text1920()
    ensures NatToString(1920) == "1920"
  {
    NumberText(1, 9);
    NumberText(19, 2);
    NumberText(192, 0);
    assert DigitChar(0) == '0' && DigitChar(1) == '1' && DigitChar(2) == '2' && DigitChar(9) == '9';
  }

  lemma Text1080()
    ensures NatToString(1080) == "1080"
  {
    NumberText(1, 0);
    NumberText(10, 8);
    NumberText(108, 0);
    assert DigitChar(0) == '0' && DigitChar(1) == '1' && DigitChar(8) == '8';
  }

  lemma LowerText()
    ensures Lower("1920X1080") == "1920x1080"
  {
    var r := Lower("1920X1080");
    assert |r| == 9;
    assert LowerChar('X') == 'x';
    assert forall i | 0 <= i < 9 :: r[i] == "1920x1080"[i];
  }

  /** The decimal text of `10 * n + d` is that of `n` followed by the digit `d`. */
  lemma NumberText(n: nat, d: nat)
    requires n > 0 && d < 10
    ensures NatToString(10 * n + d) == NatToString(n) + [DigitChar(d)]
  {
    var m := 10 * n + d;
    assert m / 10 == n && m % 10 == d;
  }

  /** A short text with no space at its ends and no capital letter is its own cleaned form. */
  lemma CleanText(s: string)
    requires s != [] && !IsSpace(s[0]) && !IsSpace(s[|s| - 1])
    requires forall i | 0 <= i < |s| :: !('A' <= s[i] <= 'Z')
    ensures Lower(Strip(s)) == s
  {
    StripUnpadded(s);
    LowerUnchanged(s);
  }

  // ---------------------------------------------------------------------------
  // String facts used above
  // ---------------------------------------------------------------------------

  /** One space on each side of an unpadded text is stripped. */
  lemma StripPadded(s: string)
    requires s != [] && !IsSpace(s[0]) && !IsSpace(s[|s| - 1])
    ensures Strip([' '] + s + [' ']) == s
  {
    var t := [' '] + s + [' '];
    assert t[1..] == s + [' '];
    assert StripLeading(t) == StripLeading(s + [' ']);
    assert StripLeading(s + [' ']) == s + [' '];
    assert (s + [' '])[..|s|] == s;
    assert StripTrailing(s + [' ']) == StripTrailing(s);
  }

  lemma LowerUnchanged(s: string)
    requires forall i | 0 <= i < |s| :: !('A' <= s[i] <= 'Z')
    ensures Lower(s) == s
  {
  }

  lemma LowerIdempotent(s: string)
    ensures Lower(Lower(s)) == Lower(s)
  {
    LowerUnchanged(Lower(s));
  }

  /** Splitting `a + [sep] + b` with no `sep` in `a` or `b` gives `[a, b]`. */
  lemma SplitAround(a: string, b: string, sep: char)
    requires sep !in a && sep !in b
    ensures Split(a + [sep] + b, sep) == [a, b]
  {
    var t := [sep] + b;
    assert t[0] == sep && t[1..] == b;
    SplitNoSeparator(b, sep);
    assert Split(t, sep) == ["", b];
    SplitPrefix(a, t, sep);
    assert a + "" == a;
    assert a + [sep] + b == a + t;
  }

  /** A prefix without the separator only extends the first part. */
  lemma {:induction false} SplitPrefix(a: string, t: string, sep: char)
    requires sep !in a
    ensures Split(a + t, sep) == [a + Split(t, sep)[0]] + Split(t, sep)[1..]
  {
    if a != [] {
      assert Split(a + t, sep) == [[a[0]] + Split(a[1..] + t, sep)[0]] + Split(a[1..] + t, sep)[1..] by {
        SliceAppend(a, t, 1);
        SplitHead(a + t, sep);
      }
      SplitPrefix(a[1..], t, sep);
      assert [a[0]] == a[..1];
      Rejoin(a, 1, Split(t, sep)[0]);
    } else {
      var parts := Split(t, sep);
      assert a + t == t && a + parts[0] == parts[0];
      assert [parts[0]] + parts[1..] == parts;
    }
  }
}
