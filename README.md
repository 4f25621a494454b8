# simcrop, modelled in Dafny

simcrop is a small command-line image cropper. It needs a source image, from a
file (`-f PATH`) or the clipboard (`-fc`), and a sink, a file (`-s PATH`) or the
clipboard (`-sc`). It shows the image, optionally resized for display
(`-g WxH`), and lets the user drag out a rectangle. In review, `s` saves the crop,
`q` quits and `b` starts a new selection. An empty selection, from a cancel in the
selection window, ends the program at once.

The model covers the whole of `simcrop.cpp` except the calls into OpenCV and xclip and
the console output. Of the C library, `strlen`, `strcmp` and `atoi` are modelled; `exit`
becomes an outcome:

* `geometry.dfy` (module `Geometry`) has `searchChar` as a method with its
  specification function `FirstIndex`. It has C's `atoi` as a function: leading
  white space, one optional sign, then the leading digits. It has `parseGeometry`
  as a method that fills the two buffers in a loop, proved against the function
  `Parse`.
* `rescale.dfy` (module `Rescale`) has `calcOriginalRect`, with C++'s truncating
  `int` division written out (`Quot`).
* `arguments.dfy` (module `Arguments`) has the argument scan and the mandatory
  check in `main`, lines 129-194. The method `ValidateArgs` keeps the local
  variables of `main` and loops over `argv`. It is proved against the fold
  `ScanFrom`, which applies `Step` to one token at a time. Loading an image is
  reduced to "the source becomes set": an `Images` value says which paths hold a
  readable image and whether the clipboard holds one.
* `session.dfy` (module `CropSession`) has the `while (key == 98)` session loop,
  lines 196-229, and the cancel exit of `getSelection`. The user is two finite
  streams: the rectangles the selection window returns, and the codes `waitKey`
  returns. `RunSession` and its inner poll `PollKey` are loops proved against the
  recursive function `Run`.
* `simcrop.dfy` (module `Simcrop`) is `main` as a whole. `SimCrop` runs the
  argument checks and then the session. It is proved against `Program`, which
  gives the exit status and what was written, if anything.
* `shapes.dfy` holds OpenCV's `Size` and `Rect` as integer records, with
  `empty()` meaning a width or height of at most 0. `wrappers.dfy` holds
  `Option`.

Some of the code's behaviour differs from what a reader of its names and help text
would expect. The model follows the code:

* `exitHelp` (lines 98-116) serves `-h` and also every usage error, and it ends
  with `exit(0)`. So every usage error exits with status 0: too few arguments, a
  second source or sink, a missing value and an unknown flag. Only a bad geometry string
  (`parseGeometry`) and an unreadable source (`getImgFromFile`,
  `getImgFromClipboard`) exit with 1 (`Arguments.ExitStatus`).
* `parseGeometry` rejects only a missing `x` or an `x` at index 0. So `"800x"` is
  accepted as 800 by 0 (`Geometry.ParseExampleNoHeight`).
* The session saves exactly the crop it showed (lines 202-205 and 217-229). With
  `-g`, that is the rectangle drawn on the resized preview, cut from the preview.
  `calcOriginalRect` (lines 60-75) is defined but never called, so nothing is
  mapped back to the original image
  (`CropSession.SavedIsShownCrop`, `Simcrop.ExampleResizedIsNotMapped`).
  `calcOriginalRect` is still modelled and proved on its own.
* The return value of `imwrite` (lines 221 and 227) is not checked, so a write
  that `imwrite` reports as failed still ends with status 0.

Further behaviour the code has:

* Every token is scanned, `argv[0]` included. That includes the value after
  `-f`, `-s`, `-t` or `-g`, which is read as a flag when it starts with `-`.
* `-x` is accepted but sets nothing, so the crosshair is never shown.
* `-g` as the last token hands `argv[argc]`, a null pointer, to
  `parseGeometry`. The model's result for that is `Undefined`.
* `key` is a `uint8_t`, so a key code counts modulo 256.

## Model

| member | source | states |
|---|---|---|
| Geometry.FirstIndex | simcrop.cpp:52-58 | The result is in [-1, len). It is -1 exactly when `key` does not occur. Otherwise `str[r] == key` and no earlier position holds `key`. |
| Geometry.FirstIndexUnique | simcrop.cpp:52-58 | A position holding `key` with no earlier occurrence is the index found. |
| Geometry.SearchChar | simcrop.cpp:52-58 | The left-to-right scan with early return gives the first index of `key`, or -1. |
| Geometry.Atoi | simcrop.cpp:93-94 | C's `atoi`: leading white space is skipped, one `-` or `+` is read, then the leading digits. No digits give 0. Its properties are the `Atoi…` lemmas below. |
| Geometry.AtoiAfterSpaces | simcrop.cpp:93-94 | Leading white space in front of a string that does not start with white space does not change what `atoi` reads. |
| Geometry.AtoiOfSignStart | simcrop.cpp:93-94 | After a leading `-` or `+`, `atoi` reads the digits that follow, negated after `-`. |
| Geometry.AtoiOfSignedDigits | simcrop.cpp:93-94 | A sign followed by digits and then a non-digit or nothing reads as the digits' value, negated after `-`. |
| Geometry.AtoiOfSpacedNumber | simcrop.cpp:93-94 | For every run of white space `ws`, `n` and non-continuing `rest`, `atoi(ws + n + rest)` is n. |
| Geometry.AtoiOfSpacedSigned | simcrop.cpp:93-94 | For every run of white space `ws`, sign, `n` and non-continuing `rest`, `atoi(ws + sign + n + rest)` is n, or -n after `-`. |
| Geometry.AtoiOfSpacedSignedDigits | simcrop.cpp:93-94 | The same for any string of digits: white space, a sign and digits read as the digits' value, negated after `-`. |
| Geometry.AtoiOfNoDigits | simcrop.cpp:93-94 | White space followed by text that starts with neither a sign, a digit nor white space reads as 0. |
| Geometry.SkipSpacesOfPrefix | simcrop.cpp:93-94 | All of a run of white space in front of a non-space is skipped, and nothing else. |
| Geometry.AtoiExampleNegative | simcrop.cpp:93-94 | `" -12"` reads as -12. |
| Geometry.AtoiExamplePlus | simcrop.cpp:93-94 | `"+7x"` reads as 7. |
| Geometry.AtoiExampleNoDigits | simcrop.cpp:93-94 | `"abc"` reads as 0. |
| Geometry.SkipSpaces | simcrop.cpp:93-94 | `atoi`'s skip of leading white space leaves a suffix that does not start with white space. |
| Geometry.LeadingDigits | simcrop.cpp:93-94 | `atoi` reads the longest prefix of digits: the result is a prefix, is all digits, and stops at a non-digit. |
| Geometry.DigitsValueOfDecimal | simcrop.cpp:93-94 | The value of the digits of a decimal rendering is the number rendered. |
| Geometry.LeadingDigitsStop | simcrop.cpp:93-94 | The digits `atoi` reads end where the digit string ends, when a non-digit or nothing follows. |
| Geometry.AtoiOfUnsigned | simcrop.cpp:93-94 | A string that starts with a digit is read as the value of its leading digits. |
| Geometry.AtoiOfDecimal | simcrop.cpp:93-94 | `atoi` reads back a decimal number and ignores any non-digit text after it. |
| Geometry.AtoiOfDecimalAlone | simcrop.cpp:93-94 | `atoi` of a decimal rendering is the number. |
| Geometry.AtoiStopsAtSeparator | simcrop.cpp:93-94 | `atoi` stops at an `x`: for `<n>x<anything>` it gives n. |
| Geometry.Parse | simcrop.cpp:77-96 | The reference definition of `parseGeometry`: no result when the first `x` is missing or first, otherwise the `atoi` of the two sides. Its properties are `ParseFailsIff`, `ParseSplitsAtFirstSeparator` and `ParseRoundTrip`. |
| Geometry.ParseGeometry | simcrop.cpp:77-96 | Searching for the `x`, copying both sides into buffers and converting each gives `Parse` of the string, including the rejecting case. |
| Geometry.ParseFailsIff | simcrop.cpp:78-83 | Parsing fails exactly when there is no lower-case `x`, or the first character is `x`. |
| Geometry.ParseSplitsAtFirstSeparator | simcrop.cpp:84-95 | If the first `x` is at d > 0, the width is `atoi` of the text before it and the height is `atoi` of the text after it. |
| Geometry.ParseDecimalWidth | simcrop.cpp:84-95 | A decimal width before the first `x` is read back exactly, whatever follows. |
| Geometry.ParseRoundTrip | simcrop.cpp:77-96 | Writing a size as `<w>x<h>` and parsing it gives (w, h) back. |
| Geometry.ParseLaterSeparatorsGoToHeight | simcrop.cpp:84-95 | Text after a second `x` goes to the height's buffer, and `atoi` cuts it there. |
| Geometry.ParseExampleFull | simcrop.cpp:77-96 | `"800x600"` gives 800 by 600. |
| Geometry.ParseExampleHalfHd | simcrop.cpp:77-96 | `"960x540"` gives 960 by 540. |
| Geometry.ParseExampleNoHeight | simcrop.cpp:80-94 | `"800x"` is not rejected: it gives 800 by 0. |
| Geometry.ParseExampleTwoSeparators | simcrop.cpp:84-95 | `"1x2x3"` gives 1 by 2. |
| Geometry.ParseExamplesRejected | simcrop.cpp:78-83 | `"800X600"` (upper-case X) and `"x600"` are rejected. |
| Rescale.Quot | simcrop.cpp:69-70 | C++ `int` division. For a non-negative dividend and a positive divisor it is Euclidean division. |
| Rescale.QuotSelf | simcrop.cpp:69-70 | A side divided by itself gives the scale 1. |
| Rescale.CalcOriginalRect | simcrop.cpp:60-75 | Each field is multiplied by the integer quotient of the sizes. When the two sizes are equal, the rectangle comes back unchanged. |
| Rescale.CalcOriginalRectFits | simcrop.cpp:69-72 | A non-negative rectangle inside the resized canvas maps into the original canvas, because the scales are rounded down. |
| Rescale.FitsOneAxis | simcrop.cpp:69-72 | One axis of the fit: position and length times the floored scale stay within the original extent. |
| Rescale.CalcOriginalRectBelowExact | simcrop.cpp:69-72 | Each mapped field is at most the exact proportional value. It equals that value when the new extent divides the original one. |
| Rescale.BelowExactOneAxis | simcrop.cpp:69-72 | One field of the bound: `v * (o / n) * n <= v * o`, with equality when n divides o. |
| Rescale.CalcOriginalRectHalfScale | simcrop.cpp:60-75 | On a 960x540 preview of a 1920x1080 image, (50,50,100,75) maps to (100,100,200,150). |
| Arguments.ExitStatus | simcrop.cpp:98-116 | Every halt exits 0 or 1. It exits 1 exactly for a bad geometry string or an unreadable source. All other halts go through `exitHelp` and exit 0. |
| Arguments.Step | simcrop.cpp:134-187 | One pass of the `for` loop, a branch per flag in the order of the source: a new configuration, or a halt. Its properties are the `Scan…` lemmas. |
| Arguments.ScanFrom | simcrop.cpp:134-194 | The loop from `argv[i]` on, followed by the mandatory check. |
| Arguments.Finish | simcrop.cpp:191-194 | The mandatory check: the configuration goes on exactly when it has a source and the clipboard or a non-empty save path as sink; otherwise `MandatoryMissing`, which exits with status 0. |
| Arguments.Validate | simcrop.cpp:129-194 | The `argc < 3` check, then the scan from `argv[0]` with `main`'s initial values. Its properties are `ProceedIsComplete`, `ProceedHasOneSourceFlag`, `ProceedHasOnlyKnownFlags`, `ProceedHasNoTrailingValueFlag` and `UndefinedOnlyFromTrailingGeometry`. |
| Arguments.ValidateArgs | simcrop.cpp:129-194 | The `argc < 3` check, the `for` loop updating `main`'s locals, and the mandatory check together give `Validate`. |
| Arguments.ScanKeepsInvariant | simcrop.cpp:134-194 | The scan never sets both sinks and never turns the crosshair on, and a set source was loaded. A run that gets past the checks has a source and a sink. |
| Arguments.ProceedIsComplete | simcrop.cpp:129-194 | A run that gets past the checks has `argc >= 3` and a loaded source. It has exactly one sink: the clipboard, or else a non-empty save path. The crosshair stays off. |
| Arguments.StepSetsSourceOnFlag | simcrop.cpp:152-177 | One token sets the source exactly when it is `-f` or `-fc`, and only while no source is set. Any other token leaves the source alone. |
| Arguments.ScanCountsSourceFlags | simcrop.cpp:152-177 | The scan gets past the checks only if `-f` and `-fc` occur exactly once in total. |
| Arguments.ProceedHasOneSourceFlag | simcrop.cpp:152-177 | A run that gets past the checks has exactly one `-f` or `-fc` token. |
| Arguments.ScanAcceptsOnlyKnownFlags | simcrop.cpp:138-187 | The scan gets past the checks only if every token starting with `-` is one of the twelve accepted flags. |
| Arguments.ProceedHasOnlyKnownFlags | simcrop.cpp:138-187 | An unknown flag, or `-h`, anywhere in `argv` stops the program. |
| Arguments.ScanUndefinedAtEnd | simcrop.cpp:142-143 | The scan reads past `argv` only when the last token is `-g` or `--geometry`. |
| Arguments.UndefinedOnlyFromTrailingGeometry | simcrop.cpp:142-143 | Undefined behaviour comes only from a `-g` with nothing after it. |
| Arguments.ScanRejectsTrailingValueFlag | simcrop.cpp:142-170 | A scan that reaches the last token gets past the checks only if that token is not `-f`, `-s`, `-t`, `--title`, `-g` or `--geometry`. |
| Arguments.ProceedHasNoTrailingValueFlag | simcrop.cpp:142-170 | For every `argv`, a run that gets past the checks does not end with a flag that needs a value. |
| Arguments.ScanSkip | simcrop.cpp:135-137 | A token that does not start with `-` changes nothing. |
| Arguments.ScanGeometryFlag | simcrop.cpp:142-144 | `-g` followed by a string that parses sets the geometry, and the scan goes on. |
| Arguments.ScanFileFlag | simcrop.cpp:152-161 | `-f` with a readable path, while no source is set, sets the source to that file. |
| Arguments.ScanSaveFlag | simcrop.cpp:162-171 | `-s` with a following token, while no sink is set, sets the save path to that token. |
| Arguments.SecondSinkStops | simcrop.cpp:162-183 | Once the clipboard or a non-empty save path is set, another `-s` or `-sc` stops the program. |
| Arguments.SecondSourceStops | simcrop.cpp:152-177 | Once a source is set, another `-f` or `-fc` stops the program. |
| Arguments.ExampleTwoSources | simcrop.cpp:172-176 | `-f a.png -fc` stops with a duplicate source and status 0. |
| Arguments.ExampleCrosshairIgnored | simcrop.cpp:145 | `-x` is accepted, yet the configuration keeps the crosshair off. |
| Arguments.ExampleValueReadAsFlag | simcrop.cpp:162-183 | In `-s -sc`, the value `-sc` is scanned as a second sink flag. |
| Arguments.ExampleTrailingGeometry | simcrop.cpp:142-143 | A `-g` as the last token gives undefined behaviour. |
| Arguments.ExampleHelpExits | simcrop.cpp:129-187 | `-h`, fewer than three arguments, a path-less `-f` and an unknown flag each stop with their own halt. |
| Arguments.ExampleMissingValues | simcrop.cpp:146-171 | `-t` and `-s` as the last token stop the program. |
| CropSession.KeyByte | simcrop.cpp:196-210 | The code is kept modulo 256, as the `uint8_t key` holds it. Codes 0 to 255 are unchanged. |
| CropSession.NextAccepted | simcrop.cpp:208-210 | The first code that reads as `q`, `s` or `b`, with every earlier code ignored, or none when no code does. |
| CropSession.NextAcceptedAt | simcrop.cpp:208-210 | An accepted code with no accepted code before it is the one the poll stops at. |
| CropSession.PollKey | simcrop.cpp:208-210 | The `do`/`while` poll stops at the first accepted code and returns its 8-bit value. It reports when the codes run out. |
| CropSession.Shown | simcrop.cpp:200-206 | The image selected on and cut from: the resized one exactly when the geometry is not empty. |
| CropSession.SinkOf | simcrop.cpp:217-229 | The sink of a save: the clipboard after `-sc`, otherwise the save path. |
| CropSession.Run | simcrop.cpp:196-229 | The reference definition of the session over the two input streams. Its properties are the one-round lemmas, `SavedIsShownCrop` and `GeometryOnlyPicksImage`. |
| CropSession.RunSession | simcrop.cpp:196-229 | The `while (key == 98)` loop with both geometry branches ends as `Run` says: cancelled, quit, saved to the sink, or still waiting. |
| CropSession.RunRound | simcrop.cpp:199-211 | One pass: after a non-empty selection and an accepted key, `b` restarts on the remaining input, `q` quits and `s` saves the shown crop. |
| CropSession.CancelEndsSession | simcrop.cpp:11-16 | An empty selection ends the session at once, before any key is read. |
| CropSession.RedoDiscardsSelection | simcrop.cpp:199-211 | After `b`, the session goes on as if the reviewed selection had not been made. |
| CropSession.QuitSavesNothing | simcrop.cpp:213-215 | `q` in review ends the session with nothing saved. |
| CropSession.SaveSinksReviewed | simcrop.cpp:217-229 | `s` hands the crop just reviewed to the configured sink. |
| CropSession.IgnoredKeyIsSkipped | simcrop.cpp:208-210 | A code that is not `q`, `s` or `b` after the 8-bit cut changes nothing. |
| CropSession.RedoSameSelection | simcrop.cpp:199-211 | Selecting, pressing `b` and selecting the same rectangle again ends like selecting it once. |
| CropSession.SavedIsShownCrop | simcrop.cpp:196-229 | Whatever is saved goes to the configured sink. It is a non-empty rectangle from the selections, cut from the image that was shown, and never mapped back. |
| CropSession.GeometryOnlyPicksImage | simcrop.cpp:200-229 | Both geometry branches behave alike: the geometry decides only which image the crop is cut from, not how the session ends or where it saves. |
| CropSession.ExampleSaveOriginal | simcrop.cpp:200-222 | Without a geometry, a save writes the selected rectangle of the original image to the path. A -1 code (no key) before `s` is ignored. |
| CropSession.ExampleSaveResized | simcrop.cpp:203-225 | With a 960x540 geometry, the rectangle drawn on the preview is saved as a crop of the preview. |
| CropSession.ExampleCancelAndQuit | simcrop.cpp:11-215 | An empty selection cancels. `q` after an ignored key quits. |
| CropSession.ExampleRedoThenSave | simcrop.cpp:196-229 | `b` then a second selection and `s` saves the second selection. A code with high bits set still reads as `s`. |
| Simcrop.Program | simcrop.cpp:118-232 | The reference definition of `main`: the halt's exit status, undefined behaviour, or the session's end with what it wrote. Its property is `WrittenOnlyToConfiguredSink`. |
| Simcrop.SimCrop | simcrop.cpp:118-232 | `main` runs the argument checks and then the session, and ends as `Program` says. |
| Simcrop.WrittenOnlyToConfiguredSink | simcrop.cpp:118-232 | Something is written only after the checks pass, with status 0, to the one configured sink, as a non-empty selection of the shown image. A non-zero status means a bad geometry or an unreadable source. |
| Simcrop.ProgramSaves | simcrop.cpp:213-231 | Accepted arguments and a session that saves give status 0 and the saved crop. |
| Simcrop.ExampleFileToFile | simcrop.cpp:118-232 | `-f in.png -s out.png` then `s` writes the selected rectangle of the original image to `out.png`. |
| Simcrop.ExampleResizedIsNotMapped | simcrop.cpp:200-229 | With a 960x540 geometry, the written crop is the preview rectangle itself, not mapped to the original image. |
| Simcrop.ExampleNothingWritten | simcrop.cpp:11-215 | A cancel, a quit and a duplicate source each exit 0 and write nothing. |

## Left out

- OpenCV's user interface (`selectROI`, `imshow`, `waitKey`) is foreign code. The user is modelled as two finite input streams. When a stream runs out, the result is "still waiting".
- `selectROI` returns a `Rect2d` of doubles, and OpenCV rounds it when cropping. Selections are modelled as integer rectangles.
- Image decoding and encoding (`imread`, `imwrite`) and pixel contents are not modelled. A crop is the rectangle together with the image it is cut from. Whether a path or the clipboard holds a readable image is an input (`Arguments.Images`).
- `resize` (line 144) is OpenCV's floating-point interpolation and is not modelled. OpenCV rejects an empty source and a target size with a non-positive side. So `-g` before `-f`/`-fc`, or an accepted `"800x"`, makes the real program fail at that call, while the model goes on as if the preview had been made.
- The xclip `system()` calls and the `/tmp/from.png` and `/tmp/to.png` files are process and file I/O. They appear only as the `Clipboard` source and sink.
- The output is not modelled: `printRect`, the help text, the messages on `cout`/`cerr` and the `printf` at line 190.
- The X11 include is not modelled.
- Geometry.Atoi: reads an unbounded integer, so it does not model the undefined result of `atoi` on a value outside `int`.
- Geometry.ParseGeometry: models the buffers as the intended prefix and suffix. The source's `xstr`/`ystr` have no terminating NUL, and the zero-length `ystr` of `"800x"` is a variable-length array of size 0. In C, `atoi` may read past both.
- Rescale.CalcOriginalRect: its products are unbounded integers, so it does not model `int` overflow or the `double` round trip. The program never calls it.
- CropSession.KeyByte: models the `uint8_t` truncation (modulo 256) of `waitKey`'s result, not which codes a given platform returns.
- Simcrop.Program: a save path with no image extension OpenCV knows (`-s out`, `-s crop.xyz`) makes `imwrite` throw an exception that nothing catches, so the real program aborts instead of ending with status 0. The model does not capture this and gives status 0 with the crop written to that path.
- Arguments.ValidateArgs: `-g` as the last token is reported as `Undefined`. The model does not say what a null `argv[argc]` then does.
