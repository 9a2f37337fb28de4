/**
  The libvmaf filter `compute_vmaf_metrics` hands to ffmpeg (`vmaf.py`):
  the escaping of option values, the option list, and the filter graph.
  Running ffmpeg, timing it and reading the log are not modelled.
*/
module Vmaf {
  import opened Common
  import opened Strings

  // ---------------------------------------------------------------------------
  // _escape_filter_value
  // ---------------------------------------------------------------------------

  /** `_escape_filter_value`: backslashes doubled first, then `:` and `'` escaped, by three whole-text replaces. */
  function EscapeFilterValue(value: string): string
  {
    ReplaceChar(ReplaceChar(ReplaceChar(value, '\\', "\\\\"), ':', "\\:"), '\'', "\\'")
  }

  /** The characters the filter parser treats specially. */
  predicate IsSpecial(c: char)
  {
    c == '\\' || c == ':' || c == '\''
  }

  /** Escaping one character: a special character gets a backslash in front, any other stays. */
  function EscapeChar(c: char): string
  {
    if IsSpecial(c) then ['\\', c] else [c]
  }

  /** Escaping character by character. */
  function EscapeEach(s: string): string
  {
    if s == [] then [] else EscapeChar(s[0]) + EscapeEach(s[1..])
  }

  /** The three replaces distribute over concatenation. */
  lemma EscapeAppend(a: string, b: string)
    ensures EscapeFilterValue(a + b) == EscapeFilterValue(a) + EscapeFilterValue(b)
  {
    var a1, b1 := ReplaceChar(a, '\\', "\\\\"), ReplaceChar(b, '\\', "\\\\");
    ReplaceCharAppend(a, b, '\\', "\\\\");
    var a2, b2 := ReplaceChar(a1, ':', "\\:"), ReplaceChar(b1, ':', "\\:");
    ReplaceCharAppend(a1, b1, ':', "\\:");
    ReplaceCharAppend(a2, b2, '\'', "\\'");
  }

  /** On one character the three replaces give exactly that character's escape. */
  lemma EscapeSingle(c: char)
    ensures EscapeFilterValue([c]) == EscapeChar(c)
  {
    assert [c][1..] == [];
    var s1 := ReplaceChar([c], '\\', "\\\\");
    assert s1 == if c == '\\' then "\\\\" else [c];
    if c == '\\' {
      assert s1 == ['\\'] + ['\\'];
      ReplaceCharAppend(['\\'], ['\\'], ':', "\\:");
      ReplaceCharAppend(['\\'], ['\\'], '\'', "\\'");
    } else if c == ':' {
      var s2 := ReplaceChar(s1, ':', "\\:");
      assert s2 == ['\\'] + [':'];
      ReplaceCharAppend(['\\'], [':'], '\'', "\\'");
    } else if c == '\'' {
      var s2 := ReplaceChar(s1, ':', "\\:");
      assert s2 == [c];
      assert ReplaceChar(s2, '\'', "\\'") == "\\'" + ReplaceChar([], '\'', "\\'");
    }
  }

  /**
    Because backslashes are doubled before the other replaces, the chain
    is the same as escaping each character on its own: every backslash,
    `:` and `'` of the input gets one backslash in front, no backslash the
    escaping adds is escaped again, and every other character is kept.
  */
  lemma {:induction false} EscapeFilterValuePerChar(s: string)
    ensures EscapeFilterValue(s) == EscapeEach(s)
  {
    if s != [] {
      assert s == [s[0]] + s[1..];
      EscapeAppend([s[0]], s[1..]);
      EscapeSingle(s[0]);
      EscapeFilterValuePerChar(s[1..]);
    } else {
      assert EscapeFilterValue(s) == [];
    }
  }

  /** Reading an escaped text back: a backslash stands for the character after it. */
  function Unescape(s: string): string
  {
    if s == [] then []
    else if s[0] == '\\' && |s| >= 2 then [s[1]] + Unescape(s[2..])
    else [s[0]] + Unescape(s[1..])
  }

  lemma UnescapeChar(c: char, t: string)
    ensures Unescape(EscapeChar(c) + t) == [c] + Unescape(t)
  {
    var e := EscapeChar(c) + t;
    if IsSpecial(c) {
      assert e[0] == '\\' && e[1] == c && e[2..] == t;
    } else {
      assert e[0] == c && e[1..] == t;
    }
  }

  lemma {:induction false} UnescapeEach(s: string)
    ensures Unescape(EscapeEach(s)) == s
  {
    if s != [] {
      UnescapeChar(s[0], EscapeEach(s[1..]));
      UnescapeEach(s[1..]);
      assert s == [s[0]] + s[1..];
    }
  }

  /** Escaping loses nothing: unescaping gives back the original value. */
  lemma EscapeRoundTrip(value: string)
    ensures Unescape(EscapeFilterValue(value)) == value
  {
    EscapeFilterValuePerChar(value);
    UnescapeEach(value);
  }

  // ---------------------------------------------------------------------------
  // How libvmaf's option string is split
  // ---------------------------------------------------------------------------

  /**
    Splitting a filter's option string at its separators: a backslash
    keeps the character after it inside the current option, a bare `:`
    starts the next option.
  */
  function SplitOptions(s: string): (parts: seq<string>)
    ensures |parts| >= 1
  {
    if s == [] then [""]
    else if s[0] == '\\' && |s| >= 2 then
      var rest := SplitOptions(s[2..]);
      [s[..2] + rest[0]] + rest[1..]
    else if s[0] == ':' then [""] + SplitOptions(s[1..])
    else
      var rest := SplitOptions(s[1..]);
      [[s[0]] + rest[0]] + rest[1..]
  }

  /**
    A text that reads as one option wherever it is put: no bare `:` or
    `'`, and no backslash at its end waiting for a character.
  */
  predicate Sealed(o: string)
  {
    if o == [] then true
    else if o[0] == '\\' then |o| >= 2 && Sealed(o[2..])
    else !IsSpecial(o[0]) && Sealed(o[1..])
  }

  lemma {:induction false} SealedAppend(a: string, b: string)
    requires Sealed(a) && Sealed(b)
    ensures Sealed(a + b)
  {
    if a == [] {
      assert a + b == b;
    } else if a[0] == '\\' {
      assert (a + b)[0] == '\\' && (a + b)[2..] == a[2..] + b;
      SealedAppend(a[2..], b);
    } else {
      assert (a + b)[0] == a[0] && (a + b)[1..] == a[1..] + b;
      SealedAppend(a[1..], b);
    }
  }

  /** A text with no special character is sealed. */
  lemma {:induction false} PlainSealed(s: string)
    requires forall i | 0 <= i < |s| :: !IsSpecial(s[i])
    ensures Sealed(s)
  {
    if s != [] {
      assert forall i | 0 <= i < |s| - 1 :: s[1..][i] == s[i + 1];
      PlainSealed(s[1..]);
    }
  }

  /** Every escaped value is sealed: it can never split an option or open a quote. */
  lemma {:induction false} EscapeSealed(s: string)
    ensures Sealed(EscapeFilterValue(s))
  {
    EscapeFilterValuePerChar(s);
    EachSealed(s);
  }

  lemma {:induction false} EachSealed(s: string)
    ensures Sealed(EscapeEach(s))
  {
    if s != [] {
      EachSealed(s[1..]);
      var e := EscapeChar(s[0]);
      if IsSpecial(s[0]) {
        assert e[2..] == [];
      } else {
        assert e[1..] == [];
      }
      SealedAppend(e, EscapeEach(s[1..]));
    }
  }

  /** A sealed prefix only extends the first option. */
  lemma {:induction false} SplitSealedPrefix(a: string, t: string)
    requires Sealed(a)
    ensures SplitOptions(a + t) == [a + SplitOptions(t)[0]] + SplitOptions(t)[1..]
    decreases |a|, 1
  {
    var parts := SplitOptions(t);
    if a == [] {
      assert a + t == t && a + parts[0] == parts[0];
      assert [parts[0]] + parts[1..] == parts;
    } else if a[0] == '\\' {
      EscapedStep(a, t);
    } else {
      PlainStep(a, t);
    }
  }

  lemma {:induction false} EscapedStep(a: string, t: string)
    requires Sealed(a) && a != [] && a[0] == '\\'
    ensures SplitOptions(a + t) == [a + SplitOptions(t)[0]] + SplitOptions(t)[1..]
    decreases |a|, 0
  {
    var parts := SplitOptions(t);
    var s := a + t;
    assert SplitOptions(s) == [a[..2] + SplitOptions(a[2..] + t)[0]] + SplitOptions(a[2..] + t)[1..] by {
      SliceAppend(a, t, 2);
      SplitEscapedHead(s);
    }
    SplitSealedPrefix(a[2..], t);
    Rejoin(a, 2, parts[0]);
  }


  lemma SplitEscapedHead(s: string)
    requires |s| >= 2 && s[0] == '\\'
    ensures SplitOptions(s) == [s[..2] + SplitOptions(s[2..])[0]] + SplitOptions(s[2..])[1..]
  {
  }

  lemma SplitPlainHead(s: string)
    requires s != [] && s[0] != '\\' && s[0] != ':'
    ensures SplitOptions(s) == [[s[0]] + SplitOptions(s[1..])[0]] + SplitOptions(s[1..])[1..]
  {
  }

  lemma {:induction false} PlainStep(a: string, t: string)
    requires Sealed(a) && a != [] && a[0] != '\\'
    ensures SplitOptions(a + t) == [a + SplitOptions(t)[0]] + SplitOptions(t)[1..]
    decreases |a|, 0
  {
    var parts := SplitOptions(t);
    var s := a + t;
    assert SplitOptions(s) == [[a[0]] + SplitOptions(a[1..] + t)[0]] + SplitOptions(a[1..] + t)[1..] by {
      assert !IsSpecial(a[0]);
      SliceAppend(a, t, 1);
      SplitPlainHead(s);
    }
    SplitSealedPrefix(a[1..], t);
    assert [a[0]] == a[..1];
    Rejoin(a, 1, parts[0]);
  }

  /** Sealed options joined with `:` split back into exactly those options. */
  lemma {:induction false} SplitJoinOptions(opts: seq<string>)
    requires |opts| >= 1
    requires AllSealed(opts)
    ensures SplitOptions(Join(opts, ":")) == opts
  {
    if |opts| == 1 {
      SplitSealedPrefix(opts[0], "");
      assert opts[0] + "" == opts[0];
    } else {
      var rest := Join(opts[1..], ":");
      assert Join(opts, ":") == opts[0] + (":" + rest);
      SplitJoinOptions(opts[1..]);
      assert (":" + rest)[0] == ':' && (":" + rest)[1..] == rest;
      assert SplitOptions(":" + rest) == [""] + opts[1..];
      SplitSealedPrefix(opts[0], ":" + rest);
      assert opts[0] + "" == opts[0];
      assert opts == [opts[0]] + opts[1..];
    }
  }

  // ---------------------------------------------------------------------------
  // filter_options and filter_graph
  // ---------------------------------------------------------------------------

  /** The part of `VmafConfig` the filter is built from. */
  datatype VmafSettings = VmafSettings(modelPath: Option<string>, logFormat: string, extraFilterOptions: seq<string>)

  /** The libvmaf options: log format, escaped log path, thread count, the model when set, then the extras. */
  function FilterOptions(settings: VmafSettings, logPath: string, threads: int): seq<string>
  {
    HeadOptions(settings, logPath, threads) + ModelOption(settings) + settings.extraFilterOptions
  }

  /** The three options every run gets. */
  function HeadOptions(settings: VmafSettings, logPath: string, threads: int): seq<string>
  {
    ["log_fmt=" + settings.logFormat, "log_path=" + EscapeFilterValue(logPath), "n_threads=" + IntToString(Max(1, threads))]
  }

  /** The model option, when a model is set. */
  function ModelOption(settings: VmafSettings): seq<string>
  {
    if settings.modelPath.Some? then ["model=path=" + EscapeFilterValue(settings.modelPath.value)] else []
  }

  /** `filter_options`, built as the source builds it: three options, an append, an extend. */
  method BuildFilterOptions(settings: VmafSettings, logPath: string, threads: int) returns (options: seq<string>)
    ensures options == FilterOptions(settings, logPath, threads)
  {
    options := ["log_fmt=" + settings.logFormat, "log_path=" + EscapeFilterValue(logPath),
                "n_threads=" + IntToString(Max(1, threads))];
    if settings.modelPath.Some? {
      options := options + ["model=path=" + EscapeFilterValue(settings.modelPath.value)];
    }
    options := options + settings.extraFilterOptions;
  }

  /**
    The options come in the source's order: the log format, the escaped log
    path, at least one thread, the escaped model path exactly when a model
    is set, and then every extra option unchanged and in order.
  */
  lemma FilterOptionsLayout(settings: VmafSettings, logPath: string, threads: int)
    ensures var options := FilterOptions(settings, logPath, threads);
      var model := if settings.modelPath.Some? then 1 else 0;
      && |options| == 3 + model + |settings.extraFilterOptions|
      && options[0] == "log_fmt=" + settings.logFormat
      && options[1] == "log_path=" + EscapeFilterValue(logPath)
      && options[2] == "n_threads=" + IntToString(if threads < 1 then 1 else threads)
      && (settings.modelPath.Some? ==> options[3] == "model=path=" + EscapeFilterValue(settings.modelPath.value))
      && options[3 + model..] == settings.extraFilterOptions
  {
  }

  /** The filter graph: scale the reference, reset the distorted timestamps, compare with libvmaf. */
  function FilterGraph(width: int, height: int, options: seq<string>): string
  {
    GraphHead(width, height) + Join(options, ":")
  }

  /** Everything of the graph up to the libvmaf options. */
  function GraphHead(width: int, height: int): string
  {
    "[0:v]scale=" + IntToString(width) + ":" + IntToString(height) + ":flags=bicubic[ref];"
    + "[1:v]setpts=PTS-STARTPTS[dist];"
    + "[dist][ref]libvmaf="
  }

  /** A text with no special character other than what `prefix` adds is sealed once the value is escaped. */
  lemma PrefixedSealed(prefix: string, value: string)
    requires forall i | 0 <= i < |prefix| :: !IsSpecial(prefix[i])
    ensures Sealed(prefix + EscapeFilterValue(value))
  {
    PlainSealed(prefix);
    EscapeSealed(value);
    SealedAppend(prefix, EscapeFilterValue(value));
  }

  /** Each built-in option reads as one option whatever the paths hold; the log format and extras must be sealed. */
  lemma FilterOptionsSealed(settings: VmafSettings, logPath: string, threads: int)
    requires Sealed("log_fmt=" + settings.logFormat)
    requires AllSealed(settings.extraFilterOptions)
    ensures AllSealed(FilterOptions(settings, logPath, threads))
  {
    var head, model := HeadOptions(settings, logPath, threads), ModelOption(settings);
    HeadSealed(settings, logPath, threads);
    ModelSealed(settings);
    AllSealedAppend(head, model);
    AllSealedAppend(head + model, settings.extraFilterOptions);
  }

  lemma HeadSealed(settings: VmafSettings, logPath: string, threads: int)
    requires Sealed("log_fmt=" + settings.logFormat)
    ensures AllSealed(HeadOptions(settings, logPath, threads))
  {
    PrefixedSealed("log_path=", logPath);
    ThreadsSealed(threads);
  }

  lemma ModelSealed(settings: VmafSettings)
    ensures AllSealed(ModelOption(settings))
  {
    if settings.modelPath.Some? {
      PrefixedSealed("model=path=", settings.modelPath.value);
    }
  }

  lemma ThreadsSealed(threads: int)
    ensures Sealed("n_threads=" + IntToString(Max(1, threads)))
  {
    var n := IntToString(Max(1, threads));
    assert forall i | 0 <= i < |n| :: IsDigit(n[i]);
    PlainSealed("n_threads=" + n);
  }

  /** Every option of the list is sealed. */
  predicate AllSealed(opts: seq<string>)
  {
    forall k | 0 <= k < |opts| :: Sealed(opts[k])
  }

  lemma AllSealedAppend(a: seq<string>, b: seq<string>)
    requires AllSealed(a) && AllSealed(b)
    ensures AllSealed(a + b)
  {
    forall k | 0 <= k < |a + b| ensures Sealed((a + b)[k]) {
      if k < |a| {
        assert (a + b)[k] == a[k];
      } else {
        assert (a + b)[k] == b[k - |a|];
      }
    }
  }

  /**
    libvmaf reads the graph's options back as exactly the built options,
    and the log path it reads unescapes to the given path, whatever
    colons, quotes or backslashes the path holds.
  */
  lemma FilterGraphReads(settings: VmafSettings, logPath: string, threads: int, width: int, height: int)
    requires Sealed("log_fmt=" + settings.logFormat)
    requires AllSealed(settings.extraFilterOptions)
    ensures var options := FilterOptions(settings, logPath, threads);
      var graph := FilterGraph(width, height, options);
      var head := GraphHead(width, height);
      && |head| <= |graph| && graph[..|head|] == head
      && SplitOptions(graph[|head|..]) == options
      && Unescape(SplitOptions(graph[|head|..])[1][|"log_path="|..]) == logPath
  {
    var options := FilterOptions(settings, logPath, threads);
    var head := GraphHead(width, height);
    var graph := FilterGraph(width, height, options);
    assert graph[..|head|] == head && graph[|head|..] == Join(options, ":");
    FilterOptionsSealed(settings, logPath, threads);
    SplitJoinOptions(options);
    assert options[1][|"log_path="|..] == EscapeFilterValue(logPath);
    EscapeRoundTrip(logPath);
  }
}
