/**
 * `main` as a whole: the argument checks, then the session, and how the
 * process ends.
 */
module Simcrop {
  import opened Wrappers
  import opened Shapes
  import opened Arguments
  import opened CropSession

  /** A crop handed to a sink: `saveImgToClipboard(cropped)` or `imwrite(savePath, cropped)`. */
  datatype Written = Written(sink: Sink, crop: Crop)

  /**
   * How a run of the program ends: with an exit status and what it wrote, if
   * anything; in behaviour C leaves undefined; or still waiting for the user.
   */
  datatype Outcome =
    | Finished(status: int, written: Option<Written>)
    | UndefinedBehaviour
    | StillWaiting

  /** What `main` does with `argv`, the images it can load, and the user's input. */
  function Program(argv: seq<string>, images: Images, selections: seq<Rect>, keys: seq<int>): Outcome {
    match Validate(argv, images)
    case Undefined => UndefinedBehaviour
    case Exit(h) => Finished(ExitStatus(h), None)
    case Proceed(cfg) =>
      match Run(cfg, selections, keys)
      case Cancelled => Finished(0, None)
      case Quit => Finished(0, None)
      case Saved(sink, crop) => Finished(0, Some(Written(sink, crop)))
      case Waiting => StillWaiting
  }

  /** `main`: validate the arguments, then run the session. */
  method SimCrop(argv: seq<string>, images: Images, selections: seq<Rect>, keys: seq<int>)
    returns (outcome: Outcome)
    ensures outcome == Program(argv, images, selections, keys)
  {
    var args := ValidateArgs(argv, images);
    match args {
      case Undefined =>
        return UndefinedBehaviour;
      case Exit(h) =>
        return Finished(ExitStatus(h), None);
      case Proceed(cfg) =>
        var end := RunSession(cfg, selections, keys);
        match end {
          case Cancelled => outcome := Finished(0, None);
          case Quit => outcome := Finished(0, None);
          case Saved(sink, crop) => outcome := Finished(0, Some(Written(sink, crop)));
          case Waiting => outcome := StillWaiting;
        }
    }
  }

  /**
   * Something is written only after the checks passed, and then to the one sink
   * given (the clipboard or a non-empty path), as a non-empty selection of the
   * image that was shown; the status is 0. The status is 1 only for a bad
   * geometry string or an unreadable source.
   */
  lemma WrittenOnlyToConfiguredSink(argv: seq<string>, images: Images, selections: seq<Rect>, keys: seq<int>)
    ensures var o := Program(argv, images, selections, keys);
      o.Finished? && o.written.Some? ==>
        && o.status == 0
        && Validate(argv, images).Proceed?
        && o.written.value.sink == SinkOf(Validate(argv, images).config)
        && (o.written.value.sink.Clipboard? || o.written.value.sink.path != "")
        && o.written.value.crop.image == Shown(Validate(argv, images).config)
        && o.written.value.crop.rect in selections
        && !o.written.value.crop.rect.IsEmpty()
    ensures var o := Program(argv, images, selections, keys);
      o.Finished? && o.status != 0 ==>
        o.status == 1 && Validate(argv, images) in {Exit(BadGeometry), Exit(SourceUnreadable)}
  {
    var args := Validate(argv, images);
    if args.Proceed? {
      ProceedIsComplete(argv, images);
      SavedIsShownCrop(args.config, selections, keys);
    }
  }

  /** A file source, no geometry: the selected rectangle of the original image is written to the path. */
  lemma ExampleFileToFile()
    ensures Program(["simcrop", "-f", "in.png", "-s", "out.png"], Images({"in.png"}, false),
                    [Rect(100, 100, 200, 150)], [115])
         == Finished(0, Some(Written(File("out.png"), Crop(Original, Rect(100, 100, 200, 150)))))
  {
  }

  /**
   * With a 960x540 geometry (as `-g 960x540` sets, see `Arguments.ScanGeometryFlag` and
   * `Geometry.ParseExampleHalfHd`) and a save path, the rectangle drawn on the preview is
   * written as a crop of the preview: nothing maps it back to the original image's
   * coordinates.
   */
  lemma ExampleResizedIsNotMapped(argv: seq<string>, images: Images, cfg: Config)
    requires Validate(argv, images) == Proceed(cfg)
    requires cfg.geometry == Size(960, 540) && cfg.savePath == "out.png"
    ensures Program(argv, images, [Rect(50, 50, 100, 75)], [115])
         == Finished(0, Some(Written(File("out.png"), Crop(Resized, Rect(50, 50, 100, 75)))))
  {
    ProceedIsComplete(argv, images);
    assert Run(cfg, [Rect(50, 50, 100, 75)], [115]) == Saved(File("out.png"), Crop(Resized, Rect(50, 50, 100, 75)));
    ProgramSaves(argv, images, [Rect(50, 50, 100, 75)], [115], cfg);
  }

  /** Accepted arguments and a session that saves give exit status 0 and the saved crop. */
  lemma ProgramSaves(argv: seq<string>, images: Images, selections: seq<Rect>, keys: seq<int>, cfg: Config)
    requires Validate(argv, images) == Proceed(cfg) && Run(cfg, selections, keys).Saved?
    ensures Program(argv, images, selections, keys)
         == Finished(0, Some(Written(Run(cfg, selections, keys).sink, Run(cfg, selections, keys).crop)))
  {
  }

  /** Cancel during selection, quit during review, and two sources: all exit 0 and write nothing. */
  lemma ExampleNothingWritten()
    ensures Program(["simcrop", "-fc", "-sc"], Images({}, true), [Rect(0, 0, 0, 0)], []) == Finished(0, None)
    ensures Program(["simcrop", "-fc", "-sc"], Images({}, true), [Rect(0, 0, 3, 3)], [113]) == Finished(0, None)
    ensures Program(["simcrop", "-fc", "-f", "in.png", "-sc"], Images({"in.png"}, true), [Rect(0, 0, 3, 3)], [115])
         == Finished(0, None)
  {
  }
}
