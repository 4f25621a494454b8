/**
 * The select/review/save loop at the end of `main` (simcrop.cpp, lines 196-229),
 * with the cancel exit of `getSelection` (lines 11-18).
 *
 * The user is modelled by two finite streams: the rectangles the selection
 * window returns, one per call, and the codes `waitKey` returns, one per
 * poll (-1 when no key was pressed). A crop is the rectangle and the image it
 * is cut from; pixels are not modelled. When a stream runs out before the
 * session ends, the session is still waiting for the user.
 */
module CropSession {
  import opened Wrappers
  import opened Shapes
  import opened Arguments

  /** The key codes the review step acts on. */
  const KeyRedo := 98   // 'b'
  const KeyQuit := 113  // 'q'
  const KeySave := 115  // 's'

  /** The image a selection is made on and cut from. */
  datatype Image = Original | Resized

  /** `fromImg(selection)` or `fromImgResized(selection)`, as a rectangle of that image. */
  datatype Crop = Crop(image: Image, rect: Rect)

  datatype Sink = Clipboard | File(path: string)

  datatype SessionEnd =
    | Cancelled                      // an empty selection: exit(0) in getSelection
    | Quit                           // 'q' in review: return 0, nothing saved
    | Saved(sink: Sink, crop: Crop)  // 's' in review: the crop goes to the sink
    | Waiting                        // the input ran out before the session ended

  /** `key` is a `uint8_t`: the code `waitKey` returns is kept modulo 2^8, so -1 becomes 255. */
  function KeyByte(code: int): (b: int)
    ensures 0 <= b < 256
    ensures 0 <= code < 256 ==> b == code
    ensures (b - code) % 256 == 0
  {
    code % 256
  }

  /** A key the review step stops polling at. */
  predicate Accepted(code: int) {
    var b := KeyByte(code);
    b == KeyQuit || b == KeySave || b == KeyRedo
  }

  /** The index of the first accepted code in `keys`, if there is one. */
  function NextAccepted(keys: seq<int>): (r: Option<nat>)
    ensures r.Some? ==> r.value < |keys| && Accepted(keys[r.value])
                        && forall j :: 0 <= j < r.value ==> !Accepted(keys[j])
    ensures r.None? ==> forall j :: 0 <= j < |keys| ==> !Accepted(keys[j])
  {
    if |keys| == 0 then None
    else if Accepted(keys[0]) then Some(0)
    else match NextAccepted(keys[1..])
      case None => None
      case Some(j) => Some(j + 1)
  }

  /** The image shown: the resized one exactly when a non-empty geometry was given. */
  function Shown(cfg: Config): Image {
    if cfg.geometry.IsEmpty() then Original else Resized
  }

  /** Where a save goes: the clipboard when `-sc` was given, the save path otherwise. */
  function SinkOf(cfg: Config): Sink {
    if cfg.saveClipboard then Clipboard else File(cfg.savePath)
  }

  /** How the session ends for the given selections and key codes. */
  function Run(cfg: Config, selections: seq<Rect>, keys: seq<int>): SessionEnd
    decreases |selections|
  {
    if |selections| == 0 then Waiting
    else if selections[0].IsEmpty() then Cancelled
    else match NextAccepted(keys)
      case None => Waiting
      case Some(j) =>
        var key := KeyByte(keys[j]);
        if key == KeyRedo then Run(cfg, selections[1..], keys[j + 1..])
        else if key == KeyQuit then Quit
        else Saved(SinkOf(cfg), Crop(Shown(cfg), selections[0]))
  }

  /**
   * The inner `do { key = waitKey(1); } while (key != 113 && key != 115 && key != 98);`,
   * polling from `keys[from]` on. When the codes run out first, `found` is false.
   */
  method PollKey(keys: seq<int>, from: nat) returns (found: bool, key: int, next: nat)
    requires from <= |keys|
    ensures found <==> NextAccepted(keys[from..]).Some?
    ensures found ==> from < next <= |keys|
                      && NextAccepted(keys[from..]) == Some(next - 1 - from)
                      && key == KeyByte(keys[next - 1])
  {
    next := from;
    if next == |keys| {
      return false, 0, next;
    }
    key := KeyByte(keys[next]);
    next := next + 1;
    while key != KeyQuit && key != KeySave && key != KeyRedo
      invariant from < next <= |keys|
      invariant key == KeyByte(keys[next - 1])
      invariant forall j :: from <= j < next - 1 ==> !Accepted(keys[j])
      decreases |keys| - next
    {
      if next == |keys| {
        assert forall j :: 0 <= j < |keys[from..]| ==> !Accepted(keys[from..][j]);
        return false, key, next;
      }
      key := KeyByte(keys[next]);
      next := next + 1;
    }
    found := true;
    NextAcceptedAt(keys[from..], next - 1 - from);
  }

  /** Lines 196-229 of `main`: `while (key == 98)` around the selection and the key poll. */
  method RunSession(cfg: Config, selections: seq<Rect>, keys: seq<int>) returns (end: SessionEnd)
    ensures end == Run(cfg, selections, keys)
  {
    var key := KeyRedo;
    var cropped := Crop(Original, Rect(0, 0, 0, 0));
    var s, k := 0, 0;
    while key == KeyRedo
      invariant 0 <= s <= |selections| && 0 <= k <= |keys|
      invariant key == KeyRedo ==> Run(cfg, selections, keys) == Run(cfg, selections[s..], keys[k..])
      invariant key == KeyQuit ==> Run(cfg, selections, keys) == Quit
      invariant key != KeyRedo && key != KeyQuit ==>
        key == KeySave && Run(cfg, selections, keys) == Saved(SinkOf(cfg), cropped)
      decreases |selections| - s
    {
      if s == |selections| {
        return Waiting;
      }
      var selection := selections[s];
      if selection.IsEmpty() {
        return Cancelled;
      }
      if cfg.geometry.IsEmpty() {
        cropped := Crop(Original, selection);
      } else {
        cropped := Crop(Resized, selection);
      }
      var found, next;
      found, key, next := PollKey(keys, k);
      if !found {
        return Waiting;
      }
      RunRound(cfg, selections[s..], keys[k..], next - 1 - k);
      assert keys[k..][next - k..] == keys[next..];
      assert selections[s..][1..] == selections[s + 1..];
      s, k := s + 1, next;
    }
    if key == KeyQuit {
      return Quit;
    }
    if cfg.geometry.IsEmpty() {
      if cfg.saveClipboard {
        end := Saved(Clipboard, cropped);
      } else {
        end := Saved(File(cfg.savePath), cropped);
      }
    } else {
      if cfg.saveClipboard {
        end := Saved(Clipboard, cropped);
      } else {
        end := Saved(File(cfg.savePath), cropped);
      }
    }
  }

  /** One round of `Run` with a non-empty selection and an accepted key. */
  lemma RunRound(cfg: Config, selections: seq<Rect>, keys: seq<int>, j: nat)
    requires |selections| > 0 && !selections[0].IsEmpty() && NextAccepted(keys) == Some(j)
    ensures j < |keys|
    ensures KeyByte(keys[j]) == KeyRedo ==> Run(cfg, selections, keys) == Run(cfg, selections[1..], keys[j + 1..])
    ensures KeyByte(keys[j]) == KeyQuit ==> Run(cfg, selections, keys) == Quit
    ensures KeyByte(keys[j]) != KeyRedo && KeyByte(keys[j]) != KeyQuit ==>
      Run(cfg, selections, keys) == Saved(SinkOf(cfg), Crop(Shown(cfg), selections[0]))
  {
  }

  /** The first accepted code is the one with no accepted code before it. */
  lemma NextAcceptedAt(keys: seq<int>, j: nat)
    requires j < |keys| && Accepted(keys[j])
    requires forall i :: 0 <= i < j ==> !Accepted(keys[i])
    ensures NextAccepted(keys) == Some(j)
  {
  }

  // ---------------------------------------------------------------------------
  // One round of the loop
  // ---------------------------------------------------------------------------

  /** An empty selection ends the whole session at once, before any key is read. */
  lemma CancelEndsSession(cfg: Config, r: Rect, selections: seq<Rect>, keys: seq<int>)
    requires r.IsEmpty()
    ensures Run(cfg, [r] + selections, keys) == Cancelled
  {
  }

  /** Redo throws the reviewed selection away: the session goes on as if it had not been made. */
  lemma RedoDiscardsSelection(cfg: Config, r: Rect, selections: seq<Rect>, keys: seq<int>, j: nat)
    requires !r.IsEmpty()
    requires NextAccepted(keys) == Some(j) && KeyByte(keys[j]) == KeyRedo
    ensures Run(cfg, [r] + selections, keys) == Run(cfg, selections, keys[j + 1..])
  {
    assert ([r] + selections)[1..] == selections;
  }

  /** Quit ends the session with nothing saved. */
  lemma QuitSavesNothing(cfg: Config, r: Rect, selections: seq<Rect>, keys: seq<int>, j: nat)
    requires !r.IsEmpty()
    requires NextAccepted(keys) == Some(j) && KeyByte(keys[j]) == KeyQuit
    ensures Run(cfg, [r] + selections, keys) == Quit
  {
  }

  /** Save hands the crop just reviewed to the configured sink. */
  lemma SaveSinksReviewed(cfg: Config, r: Rect, selections: seq<Rect>, keys: seq<int>, j: nat)
    requires !r.IsEmpty()
    requires NextAccepted(keys) == Some(j) && KeyByte(keys[j]) == KeySave
    ensures Run(cfg, [r] + selections, keys) == Saved(SinkOf(cfg), Crop(Shown(cfg), r))
  {
  }

  // ---------------------------------------------------------------------------
  // Whole sessions
  // ---------------------------------------------------------------------------

  /** A key other than 'q', 's' and 'b' (after the cut to 8 bits) changes nothing. */
  lemma {:induction false} IgnoredKeyIsSkipped(cfg: Config, selections: seq<Rect>, code: int, keys: seq<int>)
    requires !Accepted(code)
    ensures Run(cfg, selections, [code] + keys) == Run(cfg, selections, keys)
  {
    var ks := [code] + keys;
    assert ks[1..] == keys;
    if |selections| > 0 && !selections[0].IsEmpty() {
      match NextAccepted(keys)
      case None =>
      case Some(j) =>
        assert NextAccepted(ks) == Some(j + 1);
        assert ks[j + 2..] == keys[j + 1..];
    }
  }

  /** Selecting, redoing and selecting the same rectangle again ends like selecting it once. */
  lemma RedoSameSelection(cfg: Config, r: Rect, selections: seq<Rect>, keys: seq<int>)
    requires !r.IsEmpty()
    ensures Run(cfg, [r, r] + selections, [KeyRedo] + keys) == Run(cfg, [r] + selections, keys)
  {
    assert NextAccepted([KeyRedo] + keys) == Some(0);
    assert ([KeyRedo] + keys)[1..] == keys;
    assert ([r, r] + selections)[1..] == [r] + selections;
  }

  /**
   * A save hands over the configured sink and a crop of the image that was shown,
   * cut by one of the selections, which is not empty. The crop is never of the
   * original image when a geometry was given: the rectangle is not mapped back.
   */
  lemma {:induction false} SavedIsShownCrop(cfg: Config, selections: seq<Rect>, keys: seq<int>)
    ensures Run(cfg, selections, keys).Saved? ==>
      var e := Run(cfg, selections, keys);
      && e.sink == SinkOf(cfg)
      && e.crop.image == Shown(cfg)
      && e.crop.rect in selections
      && !e.crop.rect.IsEmpty()
    decreases |selections|
  {
    if |selections| > 0 && !selections[0].IsEmpty() {
      match NextAccepted(keys)
      case None =>
      case Some(j) =>
        if KeyByte(keys[j]) == KeyRedo {
          SavedIsShownCrop(cfg, selections[1..], keys[j + 1..]);
          var e := Run(cfg, selections[1..], keys[j + 1..]);
          if e.Saved? {
            assert e.crop.rect in selections;
          }
        }
    }
  }

  /** The crop `e` would hand over, cut from `image` instead. */
  function CutFrom(e: SessionEnd, image: Image): SessionEnd {
    if e.Saved? then Saved(e.sink, Crop(image, e.crop.rect)) else e
  }

  /**
   * Both geometry branches behave alike: the geometry decides only which image the
   * crop is cut from; when the session ends, the rectangle and the sink do not
   * depend on it.
   */
  lemma {:induction false} GeometryOnlyPicksImage(cfg: Config, g: Size, selections: seq<Rect>, keys: seq<int>)
    ensures Run(cfg.(geometry := g), selections, keys)
         == CutFrom(Run(cfg, selections, keys), Shown(cfg.(geometry := g)))
    decreases |selections|
  {
    if |selections| > 0 && !selections[0].IsEmpty() {
      match NextAccepted(keys)
      case None =>
      case Some(j) =>
        if KeyByte(keys[j]) == KeyRedo {
          GeometryOnlyPicksImage(cfg, g, selections[1..], keys[j + 1..]);
        }
    }
  }

  // ---------------------------------------------------------------------------
  // Examples
  // ---------------------------------------------------------------------------

  /** Without a geometry, a save writes the selected rectangle of the original image. */
  lemma ExampleSaveOriginal(cfg: Config)
    requires cfg.geometry == NoGeometry && !cfg.saveClipboard && cfg.savePath == "out.png"
    ensures Run(cfg, [Rect(100, 100, 200, 150)], [-1, 115])
         == Saved(File("out.png"), Crop(Original, Rect(100, 100, 200, 150)))
  {
  }

  /** With `-g 960x540`, the rectangle drawn on the preview is saved as a crop of the preview. */
  lemma ExampleSaveResized(cfg: Config)
    requires cfg.geometry == Size(960, 540) && cfg.saveClipboard
    ensures Run(cfg, [Rect(50, 50, 100, 75)], [115])
         == Saved(Clipboard, Crop(Resized, Rect(50, 50, 100, 75)))
  {
  }

  /** Cancelling the selection, and quitting after a review, save nothing. */
  lemma ExampleCancelAndQuit(cfg: Config)
    ensures Run(cfg, [Rect(10, 10, 0, 0)], [115]) == Cancelled
    ensures Run(cfg, [Rect(10, 10, 5, 5)], [97, 113, 115]) == Quit
  {
  }

  /** Redo, then a second selection that is saved; a code with extra high bits still reads as 's'. */
  lemma ExampleRedoThenSave(cfg: Config)
    requires cfg.geometry == NoGeometry && cfg.saveClipboard
    ensures Run(cfg, [Rect(1, 1, 4, 4), Rect(2, 2, 8, 8)], [98, 0x10073])
         == Saved(Clipboard, Crop(Original, Rect(2, 2, 8, 8)))
  {
    RedoDiscardsSelection(cfg, Rect(1, 1, 4, 4), [Rect(2, 2, 8, 8)], [98, 0x10073], 0);
    assert [98, 0x10073][1..] == [0x10073];
  }
}
