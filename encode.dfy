/**
  The ffmpeg command line `encode_rendition` runs for one ladder point
  (`encode.py`), and the container each codec is written in. Running ffmpeg
  and timing it are not modelled; the command is.
*/
module Encode {
  import opened Common
  import opened Strings
  import opened Config

  /** `_CODEC_LIBRARY`: the ffmpeg encoder for each codec. */
  function CodecLibrary(c: Codec): string
  {
    match c
    case H264 => "libx264"
    case H265 => "libx265"
    case Av1 => "libaom-av1"
  }

  /** Different codecs use different encoders. */
  lemma CodecLibraryInjective(a: Codec, b: Codec)
    ensures CodecLibrary(a) == CodecLibrary(b) <==> a == b
  {
    if a != b {
      assert CodecLibrary(a)[4] != CodecLibrary(b)[4] || CodecLibrary(a)[6] != CodecLibrary(b)[6];
    }
  }

  /** `output_extension_for_codec`: AV1 goes in Matroska, H.264 and H.265 in MP4. */
  function OutputExtensionForCodec(c: Codec): (ext: string)
    ensures ext == "mkv" <==> c == Av1
    ensures ext == "mp4" <==> c != Av1
  {
    match c
    case H264 => "mp4"
    case H265 => "mp4"
    case Av1 => "mkv"
  }

  /** The ffmpeg options the encode command uses. */
  datatype Flag =
    | HideBanner | Overwrite | Input | NoAudio | VideoFilter | VideoCodec | VideoBitrate | MaxRate | BufSize
    | Threads | Preset | CpuUsed | RowMt | Profile | PixFmt | Gop | KeyintMin

  /** How each option is spelled on the command line. */
  function FlagText(f: Flag): string
  {
    match f
    case HideBanner => "-hide_banner"
    case Overwrite => "-y"
    case Input => "-i"
    case NoAudio => "-an"
    case VideoFilter => "-vf"
    case VideoCodec => "-c:v"
    case VideoBitrate => "-b:v"
    case MaxRate => "-maxrate"
    case BufSize => "-bufsize"
    case Threads => "-threads"
    case Preset => "-preset"
    case CpuUsed => "-cpu-used"
    case RowMt => "-row-mt"
    case Profile => "-profile:v"
    case PixFmt => "-pix_fmt"
    case Gop => "-g"
    case KeyintMin => "-keyint_min"
  }

  /** The options that take no value. */
  predicate IsSwitch(f: Flag)
  {
    f == HideBanner || f == Overwrite || f == NoAudio
  }

  /** Recognising an option from its spelling. */
  function FlagOf(text: string): (r: Option<Flag>)
    ensures r.Some? ==> FlagText(r.value) == text
  {
    if text == "-hide_banner" then Some(HideBanner)
    else if text == "-y" then Some(Overwrite)
    else if text == "-i" then Some(Input)
    else if text == "-an" then Some(NoAudio)
    else if text == "-vf" then Some(VideoFilter)
    else if text == "-c:v" then Some(VideoCodec)
    else if text == "-b:v" then Some(VideoBitrate)
    else if text == "-maxrate" then Some(MaxRate)
    else if text == "-bufsize" then Some(BufSize)
    else if text == "-threads" then Some(Threads)
    else if text == "-preset" then Some(Preset)
    else if text == "-cpu-used" then Some(CpuUsed)
    else if text == "-row-mt" then Some(RowMt)
    else if text == "-profile:v" then Some(Profile)
    else if text == "-pix_fmt" then Some(PixFmt)
    else if text == "-g" then Some(Gop)
    else if text == "-keyint_min" then Some(KeyintMin)
    else None
  }

  /** Every option is recognised from its spelling: no two options are spelled alike. */
  lemma FlagOfText(f: Flag)
    ensures FlagOf(FlagText(f)) == Some(f)
  {
  }

  /**
    The value given to an option, before it is written out: plain text,
    a count, a bitrate in kbit/s, a scale filter or a codec's encoder.
  */
  datatype OptionValue = Text(text: string) | Number(n: int) | Kilobits(kbps: int) | ScaleTo(width: int, height: int)
                       | Encoder(codec: Codec)

  /** How a value is written on the command line (`str(n)`, `f"{kbps}k"`, the scale filter, the encoder name). */
  function Render(v: OptionValue): string
  {
    match v
    case Text(t) => t
    case Number(n) => IntToString(n)
    case Kilobits(k) => IntToString(k) + "k"
    case ScaleTo(w, h) => "scale=" + IntToString(w) + ":" + IntToString(h) + ":flags=lanczos"
    case Encoder(c) => CodecLibrary(c)
  }

  /** One ffmpeg option: a bare switch, or an option followed by its value. */
  datatype CliOption = Switch(flag: Flag) | Valued(flag: Flag, value: OptionValue)

  /** The arguments one option stands for. */
  function Arguments(o: CliOption): seq<string>
  {
    match o
    case Switch(f) => [FlagText(f)]
    case Valued(f, v) => [FlagText(f), Render(v)]
  }

  /** An option as it reads back from the command line: its value becomes the text it was written as. */
  function Written(o: CliOption): CliOption
  {
    match o
    case Switch(f) => Switch(f)
    case Valued(f, v) => Valued(f, Text(Render(v)))
  }

  function AllWritten(opts: seq<CliOption>): seq<CliOption>
  {
    if opts == [] then [] else [Written(opts[0])] + AllWritten(opts[1..])
  }

  /** The arguments the options stand for, in order. */
  function Flatten(opts: seq<CliOption>): seq<string>
  {
    if opts == [] then [] else Arguments(opts[0]) + Flatten(opts[1..])
  }

  lemma {:induction false} FlattenAppend(a: seq<CliOption>, b: seq<CliOption>)
    ensures Flatten(a + b) == Flatten(a) + Flatten(b)
  {
    if a != [] {
      assert Flatten(a + b) == Arguments(a[0]) + Flatten(a[1..] + b) by {
        assert (a + b)[0] == a[0] && (a + b)[1..] == a[1..] + b;
        FlattenHead(a + b);
      }
      FlattenAppend(a[1..], b);
      FlattenHead(a);
      assert Arguments(a[0]) + (Flatten(a[1..]) + Flatten(b)) == (Arguments(a[0]) + Flatten(a[1..])) + Flatten(b);
    } else {
      assert a + b == b;
    }
  }

  lemma FlattenHead(opts: seq<CliOption>)
    requires opts != []
    ensures Flatten(opts) == Arguments(opts[0]) + Flatten(opts[1..])
  {
  }

  /** Switches are the options that take no value. */
  predicate WellFormed(opts: seq<CliOption>)
  {
    forall k | 0 <= k < |opts| :: (opts[k].Switch? <==> IsSwitch(opts[k].flag))
  }

  /**
    Reading arguments back into options, as ffmpeg does: a switch stands
    alone, any other option takes the next argument as its value.
  */
  function ParseOptions(args: seq<string>): Option<seq<CliOption>>
    decreases |args|
  {
    if args == [] then Some([])
    else match FlagOf(args[0])
      case None => None
      case Some(f) =>
        if IsSwitch(f) then
          (match ParseOptions(args[1..])
           case Some(rest) => Some([Switch(f)] + rest)
           case None => None)
        else if |args| == 1 then None
        else
          (match ParseOptions(args[2..])
           case Some(rest) => Some([Valued(f, Text(args[1]))] + rest)
           case None => None)
  }

  /**
    Flattened well-formed options read back as the same options, with
    each value as the text it was written as: the argument list is
    unambiguous.
  */
  lemma {:induction false} ParseFlatten(opts: seq<CliOption>)
    requires WellFormed(opts)
    ensures ParseOptions(Flatten(opts)) == Some(AllWritten(opts))
  {
    if opts != [] {
      assert WellFormed(opts[1..]) by {
        forall k | 0 <= k < |opts| - 1 ensures (opts[1..][k].Switch? <==> IsSwitch(opts[1..][k].flag)) {
          assert opts[1..][k] == opts[k + 1];
        }
      }
      ParseFlatten(opts[1..]);
      var args := Flatten(opts);
      assert opts[0].Switch? <==> IsSwitch(opts[0].flag);
      assert opts == [opts[0]] + opts[1..];
      FlagOfText(opts[0].flag);
      match opts[0]
      case Switch(f) =>
        assert args[1..] == Flatten(opts[1..]);
      case Valued(f, v) =>
        assert args[2..] == Flatten(opts[1..]);
    }
  }

  /** The value ffmpeg reads for option `f`: that of its first occurrence. */
  function Lookup(opts: seq<CliOption>, f: Flag): Option<OptionValue>
  {
    if opts == [] then None
    else if opts[0].Valued? && opts[0].flag == f then Some(opts[0].value)
    else Lookup(opts[1..], f)
  }

  /** An option is read exactly when it occurs with a value, and what is read is one of its values. */
  lemma {:induction false} LookupFound(opts: seq<CliOption>, f: Flag)
    ensures Lookup(opts, f).Some? ==> Valued(f, Lookup(opts, f).value) in opts
    ensures Lookup(opts, f).None? <==> forall k | 0 <= k < |opts| :: !(opts[k].Valued? && opts[k].flag == f)
  {
    if opts != [] {
      LookupFound(opts[1..], f);
      assert forall k | 1 <= k < |opts| :: opts[k] == opts[1..][k - 1];
      assert opts == [opts[0]] + opts[1..];
    }
  }

  lemma {:induction false} LookupAppend(a: seq<CliOption>, b: seq<CliOption>, f: Flag)
    ensures Lookup(a + b, f) == if Lookup(a, f).Some? then Lookup(a, f) else Lookup(b, f)
  {
    if a != [] {
      assert (a + b)[0] == a[0] && (a + b)[1..] == a[1..] + b;
      LookupAppend(a[1..], b, f);
    } else {
      assert a + b == b;
    }
  }

  /** Python truthiness of an optional string or integer: set and not empty or zero. */
  predicate TruthyString(s: Option<string>)
  {
    s.Some? && s.value != ""
  }

  predicate TruthyInt(i: Option<int>)
  {
    i.Some? && i.value != 0
  }

  /** `value or default`. */
  function OrDefault(s: Option<string>, default: string): (r: string)
    ensures TruthyString(s) ==> r == s.value
    ensures !TruthyString(s) ==> r == default
  {
    if TruthyString(s) then s.value else default
  }

  /** The options every encode gets, up to `-threads`. */
  function BaseOptions(sourcePath: string, point: LadderPointConfig, threads: int): seq<CliOption>
  {
    [Switch(HideBanner), Switch(Overwrite), Valued(Input, Text(sourcePath)), Switch(NoAudio),
     Valued(VideoFilter, ScaleTo(point.width, point.height)), Valued(VideoCodec, Encoder(point.codec)),
     Valued(VideoBitrate, Kilobits(point.bitrateKbps)), Valued(MaxRate, Kilobits(point.bitrateKbps)),
     Valued(BufSize, Kilobits(point.bitrateKbps * 2)), Valued(Threads, Number(Max(1, threads)))]
  }

  /** The speed option: `-preset` for the x264/x265 encoders, `-cpu-used` and row multithreading for libaom. */
  function SpeedOptions(codec: Codec, encoding: CodecEncodingSettings): seq<CliOption>
  {
    if codec == H264 || codec == H265 then [Valued(Preset, Text(OrDefault(encoding.preset, "medium")))]
    else [Valued(CpuUsed, Text(OrDefault(encoding.preset, "6"))), Valued(RowMt, Text("1"))]
  }

  /** `-profile:v`, only when the profile is set to something truthy. */
  function ProfileOptions(encoding: CodecEncodingSettings): seq<CliOption>
  {
    if TruthyString(encoding.profile) then [Valued(Profile, Text(encoding.profile.value))] else []
  }

  /** `-pix_fmt`, only when the pixel format is set to something truthy. */
  function PixFmtOptions(encoding: CodecEncodingSettings): seq<CliOption>
  {
    if TruthyString(encoding.pixFmt) then [Valued(PixFmt, Text(encoding.pixFmt.value))] else []
  }

  /** `-g` and `-keyint_min` with the same interval, only when the interval is set and not zero. */
  function KeyintOptions(encoding: CodecEncodingSettings): seq<CliOption>
  {
    if TruthyInt(encoding.keyint) then
      [Valued(Gop, Number(encoding.keyint.value)), Valued(KeyintMin, Number(encoding.keyint.value))]
    else []
  }

  function ExtraOptions(encoding: CodecEncodingSettings): seq<CliOption>
  {
    ProfileOptions(encoding) + PixFmtOptions(encoding) + KeyintOptions(encoding)
  }

  /** Every option between the ffmpeg binary and the destination path. */
  function EncodeOptions(sourcePath: string, point: LadderPointConfig, encoding: CodecEncodingSettings,
                         threads: int): seq<CliOption>
  {
    BaseOptions(sourcePath, point, threads) + SpeedOptions(point.codec, encoding) + ExtraOptions(encoding)
  }

  /** The command list of `encode_rendition`: the base options, the speed options, the optional flags, the destination. */
  method EncodeCommand(ffmpegBin: string, sourcePath: string, point: LadderPointConfig, destinationPath: string,
                       encoding: CodecEncodingSettings, threads: int) returns (command: seq<string>)
    ensures command == [ffmpegBin] + Flatten(EncodeOptions(sourcePath, point, encoding, threads)) + [destinationPath]
  {
    var base := BaseOptions(sourcePath, point, threads);
    command := [ffmpegBin] + Flatten(base);
    command := AppendSpeed(command, point.codec, encoding);
    command := AppendProfile(command, encoding);
    command := AppendPixFmt(command, encoding);
    command := AppendKeyint(command, encoding);
    command := command + [destinationPath];
    CommandOfParts(ffmpegBin, base, SpeedOptions(point.codec, encoding),
                   ProfileOptions(encoding), PixFmtOptions(encoding), KeyintOptions(encoding), destinationPath);
  }

  lemma FlattenPair(a: CliOption, b: CliOption)
    ensures Flatten([a]) == Arguments(a)
    ensures Flatten([a, b]) == Arguments(a) + Arguments(b)
  {
    assert [a][1..] == [];
    assert [a, b][1..] == [b];
    assert [b][1..] == [];
  }

  lemma Assoc(x: seq<string>, y: seq<string>, z: seq<string>)
    ensures x + (y + z) == x + y + z
  {
  }

  /** The arguments appended group by group are the arguments of all the groups together. */
  lemma CommandOfParts(bin: string, a: seq<CliOption>, b: seq<CliOption>, c: seq<CliOption>, d: seq<CliOption>,
                       e: seq<CliOption>, dest: string)
    ensures [bin] + Flatten(a) + Flatten(b) + Flatten(c) + Flatten(d) + Flatten(e) + [dest]
         == [bin] + Flatten(a + b + (c + d + e)) + [dest]
  {
    var fa, fb, fc, fd, fe := Flatten(a), Flatten(b), Flatten(c), Flatten(d), Flatten(e);
    FlattenAppend(c, d);
    FlattenAppend(c + d, e);
    FlattenAppend(a, b);
    FlattenAppend(a + b, c + d + e);
    var p := [bin] + fa + fb;
    calc {
      [bin] + Flatten(a + b + (c + d + e));
      [bin] + (fa + fb + (fc + fd + fe));
      { Assoc([bin], fa + fb, fc + fd + fe); }
      [bin] + (fa + fb) + (fc + fd + fe);
      { Assoc([bin], fa, fb); }
      p + (fc + fd + fe);
      { Assoc(p, fc + fd, fe); }
      p + (fc + fd) + fe;
      { Assoc(p, fc, fd); }
      p + fc + fd + fe;
    }
  }

  /** The `-preset` or `-cpu-used`/`-row-mt` extension. */
  method AppendSpeed(command: seq<string>, codec: Codec, encoding: CodecEncodingSettings) returns (extended: seq<string>)
    ensures extended == command + Flatten(SpeedOptions(codec, encoding))
  {
    if codec == H264 || codec == H265 {
      var preset := Valued(Preset, Text(OrDefault(encoding.preset, "medium")));
      extended := command + ["-preset", OrDefault(encoding.preset, "medium")];
      FlattenPair(preset, preset);
    } else {
      var cpuUsed, rowMt := Valued(CpuUsed, Text(OrDefault(encoding.preset, "6"))), Valued(RowMt, Text("1"));
      extended := command + ["-cpu-used", OrDefault(encoding.preset, "6"), "-row-mt", "1"];
      FlattenPair(cpuUsed, rowMt);
    }
  }

  method AppendProfile(command: seq<string>, encoding: CodecEncodingSettings) returns (extended: seq<string>)
    ensures extended == command + Flatten(ProfileOptions(encoding))
  {
    extended := command;
    if TruthyString(encoding.profile) {
      var profile := Valued(Profile, Text(encoding.profile.value));
      extended := extended + ["-profile:v", encoding.profile.value];
      FlattenPair(profile, profile);
    } else {
      assert command + [] == command;
    }
  }

  method AppendPixFmt(command: seq<string>, encoding: CodecEncodingSettings) returns (extended: seq<string>)
    ensures extended == command + Flatten(PixFmtOptions(encoding))
  {
    extended := command;
    if TruthyString(encoding.pixFmt) {
      var pixFmt := Valued(PixFmt, Text(encoding.pixFmt.value));
      extended := extended + ["-pix_fmt", encoding.pixFmt.value];
      FlattenPair(pixFmt, pixFmt);
    } else {
      assert command + [] == command;
    }
  }

  method AppendKeyint(command: seq<string>, encoding: CodecEncodingSettings) returns (extended: seq<string>)
    ensures extended == command + Flatten(KeyintOptions(encoding))
  {
    extended := command;
    if TruthyInt(encoding.keyint) {
      var k := IntToString(encoding.keyint.value);
      extended := extended + ["-g", k, "-keyint_min", k];
      FlattenPair(Valued(Gop, Number(encoding.keyint.value)), Valued(KeyintMin, Number(encoding.keyint.value)));
    } else {
      assert command + [] == command;
    }
  }

  // ---------------------------------------------------------------------------
  // What ffmpeg reads from the command
  // ---------------------------------------------------------------------------

  /** The three groups of options the command is built from. */
  datatype FlagGroup = BaseGroup | SpeedGroup | ExtraGroup

  function GroupOf(f: Flag): FlagGroup
  {
    match f
    case Preset => SpeedGroup
    case CpuUsed => SpeedGroup
    case RowMt => SpeedGroup
    case Profile => ExtraGroup
    case PixFmt => ExtraGroup
    case Gop => ExtraGroup
    case KeyintMin => ExtraGroup
    case _ => BaseGroup
  }

  /** Every option of `opts` belongs to group `g`, and only switches stand alone. */
  predicate InGroup(opts: seq<CliOption>, g: FlagGroup)
  {
    forall k | 0 <= k < |opts| :: GroupOf(opts[k].flag) == g && (opts[k].Switch? <==> IsSwitch(opts[k].flag))
  }

  lemma LookupOutside(opts: seq<CliOption>, f: Flag, g: FlagGroup)
    requires InGroup(opts, g) && GroupOf(f) != g
    ensures Lookup(opts, f) == None
  {
    LookupFound(opts, f);
  }

  /** The first occurrence of an option decides its value. */
  lemma {:induction false} LookupAt(opts: seq<CliOption>, i: nat, f: Flag)
    requires i < |opts| && opts[i].Valued? && opts[i].flag == f
    requires forall j | 0 <= j < i :: opts[j].flag != f
    ensures Lookup(opts, f) == Some(opts[i].value)
  {
    if i > 0 {
      assert opts[1..][i - 1] == opts[i];
      assert forall j | 0 <= j < i - 1 :: opts[1..][j] == opts[j + 1];
      LookupAt(opts[1..], i - 1, f);
    }
  }

  lemma ExtraGroupOf(encoding: CodecEncodingSettings)
    ensures InGroup(ExtraOptions(encoding), ExtraGroup)
  {
    var p, f, k := ProfileOptions(encoding), PixFmtOptions(encoding), KeyintOptions(encoding);
    assert InGroup(p, ExtraGroup) && InGroup(f, ExtraGroup) && InGroup(k, ExtraGroup);
    InGroupAppend(p, f, ExtraGroup);
    InGroupAppend(p + f, k, ExtraGroup);
  }

  /** Each group of options holds only options of that group, and only switches stand alone. */
  lemma Groups(sourcePath: string, point: LadderPointConfig, encoding: CodecEncodingSettings, threads: int)
    ensures InGroup(BaseOptions(sourcePath, point, threads), BaseGroup)
    ensures InGroup(SpeedOptions(point.codec, encoding), SpeedGroup)
    ensures InGroup(ExtraOptions(encoding), ExtraGroup)
  {
    ExtraGroupOf(encoding);
  }

  lemma InGroupAppend(a: seq<CliOption>, b: seq<CliOption>, g: FlagGroup)
    requires InGroup(a, g) && InGroup(b, g)
    ensures InGroup(a + b, g)
  {
    forall k | 0 <= k < |a + b| ensures GroupOf((a + b)[k].flag) == g && ((a + b)[k].Switch? <==> IsSwitch((a + b)[k].flag)) {
      if k >= |a| {
        assert (a + b)[k] == b[k - |a|];
      } else {
        assert (a + b)[k] == a[k];
      }
    }
  }

  /** The value of an option among all the options is its value in the group it belongs to. */
  lemma LookupGroups(sourcePath: string, point: LadderPointConfig, encoding: CodecEncodingSettings, threads: int,
                     f: Flag)
    ensures var opts := EncodeOptions(sourcePath, point, encoding, threads);
      && (GroupOf(f) == BaseGroup ==> Lookup(opts, f) == Lookup(BaseOptions(sourcePath, point, threads), f))
      && (GroupOf(f) == SpeedGroup ==> Lookup(opts, f) == Lookup(SpeedOptions(point.codec, encoding), f))
      && (GroupOf(f) == ExtraGroup ==> Lookup(opts, f) == Lookup(ExtraOptions(encoding), f))
  {
    var base := BaseOptions(sourcePath, point, threads);
    var speed, extra := SpeedOptions(point.codec, encoding), ExtraOptions(encoding);
    Groups(sourcePath, point, encoding, threads);
    LookupAppend(base + speed, extra, f);
    LookupAppend(base, speed, f);
    if GroupOf(f) != BaseGroup {
      LookupOutside(base, f, BaseGroup);
    }
    if GroupOf(f) != SpeedGroup {
      LookupOutside(speed, f, SpeedGroup);
    }
    if GroupOf(f) != ExtraGroup {
      LookupOutside(extra, f, ExtraGroup);
    }
  }

  /** A base option is read, from the whole command, as the value at its place among the base options. */
  lemma BaseLookup(sourcePath: string, point: LadderPointConfig, encoding: CodecEncodingSettings, threads: int, i: nat)
    requires 2 <= i < 10 && i != 3
    ensures var base := BaseOptions(sourcePath, point, threads);
      Lookup(EncodeOptions(sourcePath, point, encoding, threads), base[i].flag) == Some(base[i].value)
  {
    var base := BaseOptions(sourcePath, point, threads);
    var f := base[i].flag;
    assert forall j | 0 <= j < |base| && j != i :: base[j].flag != f;
    LookupGroups(sourcePath, point, encoding, threads, f);
    LookupAt(base, i, f);
  }

  /**
    The encode reads the source, scales to the point's size, uses the
    codec's encoder, targets the point's bitrate as both average and
    maximum rate with a buffer of twice the bitrate, and uses at least one
    thread.
  */
  lemma EncodeRateControl(sourcePath: string, point: LadderPointConfig, encoding: CodecEncodingSettings, threads: int)
    ensures var opts := EncodeOptions(sourcePath, point, encoding, threads);
      && Lookup(opts, Input) == Some(Text(sourcePath))
      && Lookup(opts, VideoFilter) == Some(ScaleTo(point.width, point.height))
      && Lookup(opts, VideoCodec) == Some(Encoder(point.codec))
      && Lookup(opts, VideoBitrate) == Some(Kilobits(point.bitrateKbps))
      && Lookup(opts, MaxRate) == Lookup(opts, VideoBitrate)
      && Lookup(opts, BufSize) == Some(Kilobits(2 * point.bitrateKbps))
      && Lookup(opts, Threads) == Some(Number(if threads < 1 then 1 else threads))
  {
    var opts, base := EncodeOptions(sourcePath, point, encoding, threads), BaseOptions(sourcePath, point, threads);
    assert Lookup(opts, Input) == Some(Text(sourcePath)) by {
      BaseLookup(sourcePath, point, encoding, threads, 2);
    }
    assert Lookup(opts, VideoFilter) == Some(ScaleTo(point.width, point.height)) by {
      BaseLookup(sourcePath, point, encoding, threads, 4);
    }
    assert Lookup(opts, VideoCodec) == Some(Encoder(point.codec)) by {
      BaseLookup(sourcePath, point, encoding, threads, 5);
    }
    assert Lookup(opts, VideoBitrate) == Some(Kilobits(point.bitrateKbps)) by {
      BaseLookup(sourcePath, point, encoding, threads, 6);
    }
    assert Lookup(opts, MaxRate) == Some(Kilobits(point.bitrateKbps)) by {
      BaseLookup(sourcePath, point, encoding, threads, 7);
    }
    assert Lookup(opts, BufSize) == Some(Kilobits(point.bitrateKbps * 2)) by {
      BaseLookup(sourcePath, point, encoding, threads, 8);
    }
    assert Lookup(opts, Threads) == Some(Number(Max(1, threads))) by {
      BaseLookup(sourcePath, point, encoding, threads, 9);
    }
    assert point.bitrateKbps * 2 == 2 * point.bitrateKbps;
  }

  /** The speed options, read on their own. */
  lemma SpeedLookups(codec: Codec, encoding: CodecEncodingSettings)
    ensures var speed := SpeedOptions(codec, encoding);
      && (codec != Av1 ==>
            && Lookup(speed, Preset) == Some(Text(OrDefault(encoding.preset, "medium")))
            && Lookup(speed, CpuUsed) == None && Lookup(speed, RowMt) == None)
      && (codec == Av1 ==>
            && Lookup(speed, CpuUsed) == Some(Text(OrDefault(encoding.preset, "6")))
            && Lookup(speed, RowMt) == Some(Text("1"))
            && Lookup(speed, Preset) == None)
  {
    var speed := SpeedOptions(codec, encoding);
    if codec == Av1 {
      LookupAt(speed, 1, RowMt);
      LookupFound(speed, Preset);
    } else {
      LookupFound(speed, CpuUsed);
      LookupFound(speed, RowMt);
    }
  }

  /**
    H.264 and H.265 get `-preset` (default `medium`) and no libaom options;
    AV1 gets `-cpu-used` (default `6`) and `-row-mt 1` and no `-preset`.
  */
  lemma EncodeSpeed(sourcePath: string, point: LadderPointConfig, encoding: CodecEncodingSettings, threads: int)
    ensures var opts := EncodeOptions(sourcePath, point, encoding, threads);
      && (point.codec != Av1 ==>
            && Lookup(opts, Preset) == Some(Text(if TruthyString(encoding.preset) then encoding.preset.value else "medium"))
            && Lookup(opts, CpuUsed) == None && Lookup(opts, RowMt) == None)
      && (point.codec == Av1 ==>
            && Lookup(opts, CpuUsed) == Some(Text(if TruthyString(encoding.preset) then encoding.preset.value else "6"))
            && Lookup(opts, RowMt) == Some(Text("1"))
            && Lookup(opts, Preset) == None)
  {
    LookupGroups(sourcePath, point, encoding, threads, Preset);
    LookupGroups(sourcePath, point, encoding, threads, CpuUsed);
    LookupGroups(sourcePath, point, encoding, threads, RowMt);
    SpeedLookups(point.codec, encoding);
  }

  /**
    `-profile:v` and `-pix_fmt` appear exactly when their setting is truthy,
    with its value; a truthy keyframe interval sets both `-g` and
    `-keyint_min` to it, and otherwise neither appears.
  */
  lemma EncodeOptionalFlags(sourcePath: string, point: LadderPointConfig, encoding: CodecEncodingSettings, threads: int)
    ensures var opts := EncodeOptions(sourcePath, point, encoding, threads);
      && Lookup(opts, Profile) == (if TruthyString(encoding.profile) then Some(Text(encoding.profile.value)) else None)
      && Lookup(opts, PixFmt) == (if TruthyString(encoding.pixFmt) then Some(Text(encoding.pixFmt.value)) else None)
      && Lookup(opts, Gop) == Lookup(opts, KeyintMin)
      && (Lookup(opts, Gop).Some? <==> TruthyInt(encoding.keyint))
      && (TruthyInt(encoding.keyint) ==> Lookup(opts, Gop) == Some(Number(encoding.keyint.value)))
  {
    LookupGroups(sourcePath, point, encoding, threads, Profile);
    LookupGroups(sourcePath, point, encoding, threads, PixFmt);
    LookupGroups(sourcePath, point, encoding, threads, Gop);
    LookupGroups(sourcePath, point, encoding, threads, KeyintMin);
    ExtraLookups(encoding);
  }

  /** Reading option `f` from the optional flags: the first of the three lists that holds it decides. */
  lemma ExtraLookup(encoding: CodecEncodingSettings, f: Flag)
    ensures Lookup(ExtraOptions(encoding), f)
         == if Lookup(ProfileOptions(encoding), f).Some? then Lookup(ProfileOptions(encoding), f)
            else if Lookup(PixFmtOptions(encoding), f).Some? then Lookup(PixFmtOptions(encoding), f)
            else Lookup(KeyintOptions(encoding), f)
  {
    var p, x, k := ProfileOptions(encoding), PixFmtOptions(encoding), KeyintOptions(encoding);
    LookupAppend(p + x, k, f);
    LookupAppend(p, x, f);
  }

  lemma ExtraLookups(encoding: CodecEncodingSettings)
    ensures var extra := ExtraOptions(encoding);
      && Lookup(extra, Profile) == (if TruthyString(encoding.profile) then Some(Text(encoding.profile.value)) else None)
      && Lookup(extra, PixFmt) == (if TruthyString(encoding.pixFmt) then Some(Text(encoding.pixFmt.value)) else None)
      && Lookup(extra, Gop) == Lookup(extra, KeyintMin)
      && (Lookup(extra, Gop).Some? <==> TruthyInt(encoding.keyint))
      && (TruthyInt(encoding.keyint) ==> Lookup(extra, Gop) == Some(Number(encoding.keyint.value)))
  {
    ExtraProfile(encoding);
    ExtraPixFmt(encoding);
    ExtraKeyint(encoding);
  }

  lemma ExtraProfile(encoding: CodecEncodingSettings)
    ensures Lookup(ExtraOptions(encoding), Profile)
         == if TruthyString(encoding.profile) then Some(Text(encoding.profile.value)) else None
  {
    ExtraLookup(encoding, Profile);
    LookupFound(PixFmtOptions(encoding), Profile);
    LookupFound(KeyintOptions(encoding), Profile);
  }

  lemma ExtraPixFmt(encoding: CodecEncodingSettings)
    ensures Lookup(ExtraOptions(encoding), PixFmt)
         == if TruthyString(encoding.pixFmt) then Some(Text(encoding.pixFmt.value)) else None
  {
    ExtraLookup(encoding, PixFmt);
    LookupFound(ProfileOptions(encoding), PixFmt);
    LookupFound(KeyintOptions(encoding), PixFmt);
  }

  lemma ExtraKeyint(encoding: CodecEncodingSettings)
    ensures var extra := ExtraOptions(encoding);
      && Lookup(extra, Gop) == Lookup(extra, KeyintMin)
      && (Lookup(extra, Gop).Some? <==> TruthyInt(encoding.keyint))
      && (TruthyInt(encoding.keyint) ==> Lookup(extra, Gop) == Some(Number(encoding.keyint.value)))
  {
    var k := KeyintOptions(encoding);
    ExtraLookup(encoding, Gop);
    ExtraLookup(encoding, KeyintMin);
    if TruthyInt(encoding.keyint) {
      LookupAt(k, 1, KeyintMin);
    }
  }

  /**
    The command starts with the ffmpeg binary and ends with the
    destination, and what lies between reads back as exactly the encode
    options.
  */
  lemma EncodeCommandShape(ffmpegBin: string, sourcePath: string, point: LadderPointConfig, destinationPath: string,
                           encoding: CodecEncodingSettings, threads: int)
    ensures var opts := EncodeOptions(sourcePath, point, encoding, threads);
      var command := [ffmpegBin] + Flatten(opts) + [destinationPath];
      && command[0] == ffmpegBin
      && command[|command| - 1] == destinationPath
      && ParseOptions(command[1..|command| - 1]) == Some(AllWritten(opts))
  {
    var opts := EncodeOptions(sourcePath, point, encoding, threads);
    var command := [ffmpegBin] + Flatten(opts) + [destinationPath];
    assert command[1..|command| - 1] == Flatten(opts);
    Groups(sourcePath, point, encoding, threads);
    var base := BaseOptions(sourcePath, point, threads);
    var speed, extra := SpeedOptions(point.codec, encoding), ExtraOptions(encoding);
    WellFormedAppend(base, speed, BaseGroup, SpeedGroup);
    WellFormedAppend(base + speed, extra, BaseGroup, ExtraGroup);
    ParseFlatten(opts);
  }

  lemma WellFormedAppend(a: seq<CliOption>, b: seq<CliOption>, g: FlagGroup, h: FlagGroup)
    requires WellFormed(a) && InGroup(b, h)
    ensures WellFormed(a + b)
  {
    forall k | 0 <= k < |a + b| ensures ((a + b)[k].Switch? <==> IsSwitch((a + b)[k].flag)) {
      if k >= |a| {
        assert (a + b)[k] == b[k - |a|];
      } else {
        assert (a + b)[k] == a[k];
      }
    }
  }
}
