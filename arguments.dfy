/**
 * The command line of simcrop: the scan over `argv` in `main` and the check
 * of the mandatory arguments after it (simcrop.cpp, lines 129-194).
 *
 * The scan visits every token, `argv[0]` included. A token that does not
 * start with '-' is skipped, so the value after `-f`, `-s`, `-t` or `-g` is
 * visited too and is itself read as a flag when it starts with '-'.
 * Loading the source image is abstracted into "the source becomes set",
 * succeeding or failing as the `Images` value says.
 */
module Arguments {
  import opened Wrappers
  import opened Shapes
  import Geometry

  /** Where the image to crop comes from; `NoSource` is the empty `fromImg`. */
  datatype Source = NoSource | FromFile(path: string) | FromClipboard

  /** The local variables of `main` that the scan sets. */
  datatype Config = Config(
    source: Source,
    savePath: string,
    saveClipboard: bool,
    selectFromCenter: bool,
    showCrosshair: bool,
    title: string,
    geometry: Size)

  /** The values `main` starts from. */
  const Defaults := Config(NoSource, "", false, false, false, "SimCrop", NoGeometry)

  /** What loading an image would give: which paths hold a readable image, and whether the clipboard does. */
  datatype Images = Images(readable: set<string>, clipboardHasImage: bool)

  /** Why the program stops before the session starts. */
  datatype Halt =
    | NotEnoughParameters      // argc < 3
    | HelpRequested            // -h
    | MissingTitle             // -t as the last token
    | DuplicateSource          // a second -f or -fc
    | MissingSourcePath        // -f as the last token
    | SourceUnreadable         // the image of -f or -fc could not be read
    | DuplicateSink            // -s or -sc after a non-empty save path or -sc
    | MissingSavePath          // -s as the last token
    | UnknownParameter(token: string)
    | BadGeometry              // parseGeometry rejected the string
    | MandatoryMissing         // no source, or neither -sc nor a non-empty save path

  /**
   * The exit status of each halt. Every halt that prints the help text goes
   * through `exitHelp`, which exits with 0; only a bad geometry string and an
   * unreadable source exit with 1.
   */
  function ExitStatus(h: Halt): (status: int)
    ensures status == 0 || status == 1
    ensures status == 1 <==> h == BadGeometry || h == SourceUnreadable
  {
    match h
    case BadGeometry => 1
    case SourceUnreadable => 1
    case _ => 0
  }

  /**
   * The outcome of argument handling: the session runs with a configuration,
   * the program exits, or `-g` was the last token and `argv[argc]`, a null
   * pointer, is handed to `parseGeometry`: behaviour C leaves undefined.
   */
  datatype ArgsResult = Proceed(config: Config) | Exit(halt: Halt) | Undefined

  datatype StepResult = Continue(config: Config) | Stop(result: ArgsResult)

  predicate StartsWithDash(token: string) {
    |token| > 0 && token[0] == '-'
  }

  predicate HasSink(cfg: Config) {
    cfg.saveClipboard || cfg.savePath != ""
  }

  /** One pass of the scan's loop body over `argv[i]`. */
  function Step(argv: seq<string>, i: nat, cfg: Config, images: Images): StepResult
    requires i < |argv|
  {
    var token := argv[i];
    if !StartsWithDash(token) then Continue(cfg)
    else if token == "-h" then Stop(Exit(HelpRequested))
    else if token == "-c" || token == "--center" then Continue(cfg.(selectFromCenter := true))
    else if token == "-g" || token == "--geometry" then
      if |argv| <= i + 1 then Stop(Undefined)
      else match Geometry.Parse(argv[i + 1])
        case None => Stop(Exit(BadGeometry))
        case Some(size) => Continue(cfg.(geometry := size))
    else if token == "-x" || token == "--crosshair" then Continue(cfg)
    else if token == "-t" || token == "--title" then
      if |argv| <= i + 1 then Stop(Exit(MissingTitle))
      else Continue(cfg.(title := argv[i + 1]))
    else if token == "-f" then
      if cfg.source != NoSource then Stop(Exit(DuplicateSource))
      else if |argv| <= i + 1 then Stop(Exit(MissingSourcePath))
      else if argv[i + 1] !in images.readable then Stop(Exit(SourceUnreadable))
      else Continue(cfg.(source := FromFile(argv[i + 1])))
    else if token == "-s" then
      if HasSink(cfg) then Stop(Exit(DuplicateSink))
      else if |argv| <= i + 1 then Stop(Exit(MissingSavePath))
      else Continue(cfg.(savePath := argv[i + 1]))
    else if token == "-fc" then
      if cfg.source != NoSource then Stop(Exit(DuplicateSource))
      else if !images.clipboardHasImage then Stop(Exit(SourceUnreadable))
      else Continue(cfg.(source := FromClipboard))
    else if token == "-sc" then
      if HasSink(cfg) then Stop(Exit(DuplicateSink))
      else Continue(cfg.(saveClipboard := true))
    else Stop(Exit(UnknownParameter(token)))
  }

  /** The check after the loop: a source, and the clipboard or a non-empty save path. */
  function Finish(cfg: Config): (r: ArgsResult)
    ensures r.Proceed? <==> cfg.source != NoSource && (cfg.saveClipboard || cfg.savePath != "")
    ensures r.Proceed? ==> r.config == cfg
    ensures !r.Proceed? ==> r == Exit(MandatoryMissing) && ExitStatus(r.halt) == 0
  {
    if !HasSink(cfg) || cfg.source == NoSource then Exit(MandatoryMissing) else Proceed(cfg)
  }

  /** The scan from `argv[i]` on, starting from `cfg`. */
  function ScanFrom(argv: seq<string>, i: nat, cfg: Config, images: Images): ArgsResult
    requires i <= |argv|
    decreases |argv| - i
  {
    if i == |argv| then Finish(cfg)
    else match Step(argv, i, cfg, images)
      case Continue(next) => ScanFrom(argv, i + 1, next, images)
      case Stop(result) => result
  }

  /** What lines 129-194 of `main` decide. */
  function Validate(argv: seq<string>, images: Images): ArgsResult {
    if |argv| < 3 then Exit(NotEnoughParameters) else ScanFrom(argv, 0, Defaults, images)
  }

  /** Lines 129-194 of `main`: the `for` loop over `argv` updating the local flags. */
  method ValidateArgs(argv: seq<string>, images: Images) returns (r: ArgsResult)
    ensures r == Validate(argv, images)
  {
    var showCrosshair := false;
    var selectFromCenter := false;
    var source := NoSource;
    var saveClipboard := false;
    var savePath := "";
    var title := "SimCrop";
    var geometry := NoGeometry;

    if |argv| < 3 {
      return Exit(NotEnoughParameters);
    }

    for i := 0 to |argv|
      invariant Validate(argv, images)
             == ScanFrom(argv, i, Config(source, savePath, saveClipboard, selectFromCenter,
                                         showCrosshair, title, geometry), images)
    {
      var token := argv[i];
      if !StartsWithDash(token) {
        continue;
      }
      if token == "-h" {
        return Exit(HelpRequested);
      } else if token == "-c" || token == "--center" {
        selectFromCenter := true;
      } else if token == "-g" || token == "--geometry" {
        if |argv| <= i + 1 {
          return Undefined;
        }
        var parsed := Geometry.ParseGeometry(argv[i + 1]);
        if parsed.None? {
          return Exit(BadGeometry);
        }
        geometry := parsed.value;
      } else if token == "-x" || token == "--crosshair" {
      } else if token == "-t" || token == "--title" {
        if |argv| <= i + 1 {
          return Exit(MissingTitle);
        }
        title := argv[i + 1];
      } else if token == "-f" {
        if source != NoSource {
          return Exit(DuplicateSource);
        }
        if |argv| <= i + 1 {
          return Exit(MissingSourcePath);
        }
        if argv[i + 1] !in images.readable {
          return Exit(SourceUnreadable);
        }
        source := FromFile(argv[i + 1]);
      } else if token == "-s" {
        if savePath != "" || saveClipboard {
          return Exit(DuplicateSink);
        }
        if |argv| <= i + 1 {
          return Exit(MissingSavePath);
        }
        savePath := argv[i + 1];
      } else if token == "-fc" {
        if source != NoSource {
          return Exit(DuplicateSource);
        }
        if !images.clipboardHasImage {
          return Exit(SourceUnreadable);
        }
        source := FromClipboard;
      } else if token == "-sc" {
        if savePath != "" || saveClipboard {
          return Exit(DuplicateSink);
        }
        saveClipboard := true;
      } else {
        return Exit(UnknownParameter(token));
      }
    }

    if !(saveClipboard || savePath != "") || source == NoSource {
      return Exit(MandatoryMissing);
    }
    r := Proceed(Config(source, savePath, saveClipboard, selectFromCenter, showCrosshair, title, geometry));
  }

  // ---------------------------------------------------------------------------
  // What a run that gets past the checks has
  // ---------------------------------------------------------------------------

  /** A set source was loaded successfully. */
  predicate SourceLoaded(cfg: Config, images: Images) {
    match cfg.source
    case NoSource => true
    case FromFile(path) => path in images.readable
    case FromClipboard => images.clipboardHasImage
  }

  /** What every configuration of the scan keeps: at most one sink, no crosshair, a loaded source. */
  predicate ScanInvariant(cfg: Config, images: Images) {
    && !(cfg.saveClipboard && cfg.savePath != "")
    && !cfg.showCrosshair
    && SourceLoaded(cfg, images)
  }

  lemma {:induction false} ScanKeepsInvariant(argv: seq<string>, i: nat, cfg: Config, images: Images)
    requires i <= |argv| && ScanInvariant(cfg, images)
    ensures ScanFrom(argv, i, cfg, images).Proceed? ==>
      var c := ScanFrom(argv, i, cfg, images).config;
      ScanInvariant(c, images) && c.source != NoSource && HasSink(c)
    decreases |argv| - i
  {
    if i < |argv| {
      match Step(argv, i, cfg, images)
      case Continue(next) => ScanKeepsInvariant(argv, i + 1, next, images);
      case Stop(_) =>
    }
  }

  /**
   * A run that passes the checks had at least three arguments, loaded its source,
   * has exactly one sink (the clipboard, or a non-empty path), and never shows the
   * crosshair: `-x` is accepted but sets nothing.
   */
  lemma ProceedIsComplete(argv: seq<string>, images: Images)
    requires Validate(argv, images).Proceed?
    ensures var cfg := Validate(argv, images).config;
      && |argv| >= 3
      && cfg.source != NoSource && SourceLoaded(cfg, images)
      && (cfg.saveClipboard <==> cfg.savePath == "")
      && !cfg.showCrosshair
  {
    ScanKeepsInvariant(argv, 0, Defaults, images);
  }

  predicate IsSourceFlag(token: string) {
    token == "-f" || token == "-fc"
  }

  /** How many of `argv[..i]` are `-f` or `-fc`. */
  function SourceFlags(argv: seq<string>, i: nat): nat
    requires i <= |argv|
  {
    if i == 0 then 0 else SourceFlags(argv, i - 1) + (if IsSourceFlag(argv[i - 1]) then 1 else 0)
  }

  lemma {:induction false} ScanCountsSourceFlags(argv: seq<string>, i: nat, cfg: Config, images: Images)
    requires i <= |argv|
    requires SourceFlags(argv, i) <= 1
    requires cfg.source == NoSource <==> SourceFlags(argv, i) == 0
    ensures ScanFrom(argv, i, cfg, images).Proceed? ==> SourceFlags(argv, |argv|) == 1
    decreases |argv| - i
  {
    if i < |argv| {
      match Step(argv, i, cfg, images)
      case Continue(next) =>
        StepSetsSourceOnFlag(argv, i, cfg, images);
        assert SourceFlags(argv, i + 1) == SourceFlags(argv, i) + (if IsSourceFlag(argv[i]) then 1 else 0);
        ScanCountsSourceFlags(argv, i + 1, next, images);
      case Stop(_) =>
    }
  }

  /** One step sets the source exactly on `-f` or `-fc`, and only while none is set. */
  lemma StepSetsSourceOnFlag(argv: seq<string>, i: nat, cfg: Config, images: Images)
    requires i < |argv| && Step(argv, i, cfg, images).Continue?
    ensures IsSourceFlag(argv[i]) ==> cfg.source == NoSource && Step(argv, i, cfg, images).config.source != NoSource
    ensures !IsSourceFlag(argv[i]) ==> Step(argv, i, cfg, images).config.source == cfg.source
  {
  }

  /** A run passes the checks only if exactly one token of `argv` is `-f` or `-fc`. */
  lemma ProceedHasOneSourceFlag(argv: seq<string>, images: Images)
    requires Validate(argv, images).Proceed?
    ensures SourceFlags(argv, |argv|) == 1
  {
    ScanCountsSourceFlags(argv, 0, Defaults, images);
  }

  /** The flags the scan accepts without stopping. */
  predicate IsAcceptedFlag(token: string) {
    token in ["-c", "--center", "-g", "--geometry", "-x", "--crosshair", "-t", "--title",
              "-f", "-s", "-fc", "-sc"]
  }

  lemma {:induction false} ScanAcceptsOnlyKnownFlags(argv: seq<string>, i: nat, cfg: Config, images: Images)
    requires i <= |argv|
    ensures ScanFrom(argv, i, cfg, images).Proceed? ==>
      forall k :: i <= k < |argv| && StartsWithDash(argv[k]) ==> IsAcceptedFlag(argv[k])
    decreases |argv| - i
  {
    if i < |argv| {
      match Step(argv, i, cfg, images)
      case Continue(next) => ScanAcceptsOnlyKnownFlags(argv, i + 1, next, images);
      case Stop(_) =>
    }
  }

  /**
   * A run passes the checks only if every token that starts with '-' is a known
   * flag other than `-h`: an unknown one, or `-h`, stops the program.
   */
  lemma ProceedHasOnlyKnownFlags(argv: seq<string>, images: Images)
    requires Validate(argv, images).Proceed?
    ensures forall k :: 0 <= k < |argv| && StartsWithDash(argv[k]) ==> IsAcceptedFlag(argv[k])
  {
    ScanAcceptsOnlyKnownFlags(argv, 0, Defaults, images);
  }

  lemma {:induction false} ScanUndefinedAtEnd(argv: seq<string>, i: nat, cfg: Config, images: Images)
    requires i <= |argv|
    ensures ScanFrom(argv, i, cfg, images) == Undefined ==>
      |argv| > 0 && argv[|argv| - 1] in ["-g", "--geometry"]
    decreases |argv| - i
  {
    if i < |argv| {
      match Step(argv, i, cfg, images)
      case Continue(next) => ScanUndefinedAtEnd(argv, i + 1, next, images);
      case Stop(_) =>
    }
  }

  /** Undefined behaviour arises only from a `-g` or `--geometry` with no token after it. */
  lemma UndefinedOnlyFromTrailingGeometry(argv: seq<string>, images: Images)
    requires Validate(argv, images) == Undefined
    ensures |argv| > 0 && argv[|argv| - 1] in ["-g", "--geometry"]
  {
    ScanUndefinedAtEnd(argv, 0, Defaults, images);
  }

  /** The flags the scan reads a value after. */
  predicate TakesValue(token: string) {
    token in ["-f", "-s", "-t", "--title", "-g", "--geometry"]
  }

  lemma {:induction false} ScanRejectsTrailingValueFlag(argv: seq<string>, i: nat, cfg: Config, images: Images)
    requires i <= |argv|
    ensures ScanFrom(argv, i, cfg, images).Proceed? && i < |argv| ==> !TakesValue(argv[|argv| - 1])
    decreases |argv| - i
  {
    if i < |argv| {
      match Step(argv, i, cfg, images)
      case Continue(next) => ScanRejectsTrailingValueFlag(argv, i + 1, next, images);
      case Stop(_) =>
    }
  }

  /**
   * A run passes the checks only if its last token is not a flag that needs a value:
   * `-f`, `-s` and `-t` with nothing after them stop the program, and `-g` reads past `argv`.
   */
  lemma ProceedHasNoTrailingValueFlag(argv: seq<string>, images: Images)
    requires Validate(argv, images).Proceed?
    ensures !TakesValue(argv[|argv| - 1])
  {
    ScanRejectsTrailingValueFlag(argv, 0, Defaults, images);
  }

  // ---------------------------------------------------------------------------
  // Examples
  // ---------------------------------------------------------------------------

  /** Both `-f` and `-fc`: the second source flag stops the program with the help text, status 0. */
  lemma ExampleTwoSources(images: Images)
    requires "a.png" in images.readable
    ensures Validate(["simcrop", "-f", "a.png", "-fc", "-s", "out.png"], images) == Exit(DuplicateSource)
    ensures ExitStatus(DuplicateSource) == 0
  {
  }

  /** `-x` is accepted, yet the crosshair stays off. */
  lemma ExampleCrosshairIgnored(images: Images)
    requires images.clipboardHasImage
    ensures Validate(["simcrop", "-x", "-fc", "-sc"], images)
         == Proceed(Defaults.(source := FromClipboard, saveClipboard := true))
  {
  }

  /** The value after `-s` is itself read as a flag when it starts with '-'. */
  lemma ExampleValueReadAsFlag(images: Images)
    requires images.clipboardHasImage
    ensures Validate(["simcrop", "-fc", "-s", "-sc"], images) == Exit(DuplicateSink)
  {
  }

  /** `-g` as the last token reads past the end of `argv`. */
  lemma ExampleTrailingGeometry(images: Images)
    requires images.clipboardHasImage
    ensures Validate(["simcrop", "-fc", "-sc", "-g"], images) == Undefined
  {
  }

  /** `-h` exits 0; fewer than three arguments exit 0; a path-less `-f` exits 0. */
  lemma ExampleHelpExits(images: Images)
    ensures Validate(["simcrop", "-h", "-fc"], images) == Exit(HelpRequested)
    ensures Validate(["simcrop", "-fc"], images) == Exit(NotEnoughParameters)
    ensures Validate(["simcrop", "-sc", "-f"], images) == Exit(MissingSourcePath)
    ensures Validate(["simcrop", "-sc", "-k"], images) == Exit(UnknownParameter("-k"))
  {
  }

  /** `-t` and `-s` with nothing after them stop the program with the help text. */
  lemma ExampleMissingValues(images: Images)
    ensures Validate(["simcrop", "-c", "-t"], images) == Exit(MissingTitle)
    ensures Validate(["simcrop", "-c", "-s"], images) == Exit(MissingSavePath)
  {
  }

  /** Once a sink is set, a further `-s` or `-sc` stops the program, wherever it appears. */
  lemma SecondSinkStops(argv: seq<string>, i: nat, cfg: Config, images: Images)
    requires i < |argv| && argv[i] in ["-s", "-sc"] && HasSink(cfg)
    ensures ScanFrom(argv, i, cfg, images) == Exit(DuplicateSink)
  {
  }

  /** Once a source is set, a further `-f` or `-fc` stops the program, wherever it appears. */
  lemma SecondSourceStops(argv: seq<string>, i: nat, cfg: Config, images: Images)
    requires i < |argv| && IsSourceFlag(argv[i]) && cfg.source != NoSource
    ensures ScanFrom(argv, i, cfg, images) == Exit(DuplicateSource)
  {
  }

  /** `-g` followed by a string that parses sets the geometry and goes on with the next token. */
  lemma ScanGeometryFlag(argv: seq<string>, i: nat, cfg: Config, images: Images, size: Size)
    requires i + 1 < |argv| && argv[i] == "-g" && Geometry.Parse(argv[i + 1]) == Some(size)
    ensures ScanFrom(argv, i, cfg, images) == ScanFrom(argv, i + 1, cfg.(geometry := size), images)
  {
    assert Step(argv, i, cfg, images) == Continue(cfg.(geometry := size));
  }

  /** A token that does not start with `-` changes nothing. */
  lemma ScanSkip(argv: seq<string>, i: nat, cfg: Config, images: Images)
    requires i < |argv| && !StartsWithDash(argv[i])
    ensures ScanFrom(argv, i, cfg, images) == ScanFrom(argv, i + 1, cfg, images)
  {
  }

  /** `-f` with a readable path, while no source is set yet, sets the source. */
  lemma ScanFileFlag(argv: seq<string>, i: nat, cfg: Config, images: Images)
    requires i + 1 < |argv| && argv[i] == "-f" && cfg.source == NoSource
    requires argv[i + 1] in images.readable
    ensures ScanFrom(argv, i, cfg, images) == ScanFrom(argv, i + 1, cfg.(source := FromFile(argv[i + 1])), images)
  {
    assert Step(argv, i, cfg, images) == Continue(cfg.(source := FromFile(argv[i + 1])));
  }

  /** `-s` with a value, while no sink is set yet, sets the save path. */
  lemma ScanSaveFlag(argv: seq<string>, i: nat, cfg: Config, images: Images)
    requires i + 1 < |argv| && argv[i] == "-s" && !HasSink(cfg)
    ensures ScanFrom(argv, i, cfg, images) == ScanFrom(argv, i + 1, cfg.(savePath := argv[i + 1]), images)
  {
    assert Step(argv, i, cfg, images) == Continue(cfg.(savePath := argv[i + 1]));
  }
}
