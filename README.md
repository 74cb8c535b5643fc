# Screen translator core, modelled in Dafny

The screen translator is a desktop tool. The user selects a rectangle of the
screen (or presses a global hotkey). A background worker then grabs the
pixels, recognises the text in them, translates each recognised span, and
sends one result message back to the user interface. `ScreenCapture` also
defines a scrolling variant (the application never calls it) that grabs the
region several times while the page scrolls and stitches the pages into one
tall image, cutting away the band two consecutive pages share.

This project models the core of that pipeline and proves what it promises:

- `common.dfy` (module `Common`) holds the shared values: `Option`, images
  as rows of pixels, screen regions, and Python's `int()` of a float (`Trunc`,
  truncation toward zero).
- `text.dfy` (module `Text`) holds the Python string operations the core
  relies on: `strip`, `split`, `join`, ASCII `lower`/`upper` and `int()` of
  a decimal string. It proves their round trips.
- `stitcher.dfy` (module `Stitcher`) covers `ImageStitcher`: the two-image
  stitch with its template band, its search window and its threshold, and
  the left fold over a list of pages. The template matcher is an oracle that
  returns a best score and row, or fails.
- `capture.dfy` (module `Capture`) covers `ScreenCapture` as a class over its
  library handle, plus the scrolling capture loop. The grabs are an oracle
  indexed by grab number; the "nearly identical" test is an oracle on two
  images.
- `ocr.dfy` (module `Ocr`) covers the post-processing of the recognition
  backend's output: the triples, the joined text and the axis-aligned boxes. The
  constructor of `OCREngine` re-raises when the backend cannot be built; the
  worker's start-up models this as `Pipeline.Startup.ocrOk`, which leads to
  `init_error`.
- `translator.dfy` (module `Translation`) covers `Translator` as a class. Its
  start-up chooses between Gemini and Google, with Google as the backup. The
  translation path falls back from vision to text, from Gemini to Google,
  and from Google to the original text. The remote engines are oracles.
- `pipeline.dfy` (module `Pipeline`) covers `ProcessingPipeline` as a class.
  The command queue and the result queue are two sequences. The worker
  initialises its engines, then serves commands in order until a shutdown.
- `app.dfy` (module `App`) covers the hotkey string parser of `HotkeyWindow`,
  and the guard of `ScreenTranslatorApp` that turns a selection in logical
  pixels into a `process_region` command in physical pixels.

Three behaviours of the code are worth knowing before reading the proofs:

- For an upper image of fewer than 10 rows the template's slice start
  `h1 - search_h` is negative, and Python counts it from the end
  (src/stitcher.py:52). From 5 to 9 rows the template is the last `10 - h1`
  rows, not a band starting at row 0, while the cut still adds the full 10
  rows. `Stitcher.ShortTemplate` and `Stitcher.ShortUpperImageOvercuts`
  state this.
- The worker translates every recognised span on its own with
  `translate_batch` (src/pipeline.py:131-139) and puts no translation of the
  joined text in its result. `Pipeline.RegionEntries` states this.
- The worker loop recognises only `process_region` and `shutdown`
  (src/pipeline.py:189-198). Every other command, including the
  `reload_config` the application sends once the settings are saved
  (src/main.py:233), is taken off the queue and dropped. `Pipeline.OtherCommandIgnored` states this.

## Model

| member | source | states |
|---|---|---|
| Common.Trunc | src/main.py:266-269 | `int()` of a float truncates toward zero: for a non-negative value the result is the floor, for a negative one the ceiling, and it is always within 1 of the value |
| Text.StripIsTrimmedSlice | src/main.py:382 | `strip()` removes exactly the leading and the trailing white space: the result is a slice of the input with no white space at either end, and only white space is dropped |
| Text.BlankIffStripEmpty | src/translator.py:171 | a string is empty or all white space exactly when its strip is empty |
| Text.StripIdempotent | src/main.py:382 | stripping twice gives the same as stripping once |
| Text.Lower | src/main.py:394 | `lower()` keeps the length and lower-cases each ASCII capital, leaving every other character |
| Text.Upper | src/main.py:405-406 | `upper()` keeps the length and upper-cases each ASCII small letter, leaving every other character |
| Text.Split | src/main.py:382 | `split('+')` gives at least one piece, and no piece contains the separator |
| Text.JoinSplit | src/main.py:382 | joining the pieces of a split with the separator gives back the string |
| Text.SplitJoin | src/ocr_engine.py:83 | splitting a join of separator-free pieces gives back the pieces |
| Text.SplitAround | src/main.py:382 | a separator-free prefix followed by the separator is the first piece, and the rest splits on its own |
| Text.ParseIntMeaning | src/main.py:409 | `int()` succeeds exactly when the stripped string is a run of digits, or `+` or `-` followed by one; the value is the decimal value of the digits, negated after `-` |
| Text.ParseIntOfIntString | src/main.py:409 | `int()` gives back every integer from its decimal form: `int(str(n)) == n`, negative numbers included |
| Text.ParseDecimal | src/main.py:409 | `int()` of a non-empty string of decimal digits gives its decimal value |
| Stitcher.SearchHeight | src/stitcher.py:49-50 | the template height is `max(int(h1 * 0.2), 10)`: at least 10 and at least a fifth of the upper image, and equal to one of them |
| Stitcher.SliceStart | src/stitcher.py:52 | a Python slice start counts from the end when negative and is clamped to the sequence |
| Stitcher.StitchTwo | src/stitcher.py:35-118 | the stitched image starts with the whole upper image, ends with a suffix of the lower image, and is never taller than both stacked |
| Stitcher.TemplateIsBottomBand | src/stitcher.py:49-52 | for an upper image of 10 rows or more, the template is its bottom `max(h1 / 5, 10)` rows |
| Stitcher.ShortTemplate | src/stitcher.py:49-52 | below 10 rows the slice start wraps around: the template is the whole image (up to 5 rows), or from 5 to 9 rows the last `10 - h1` rows, starting at row `2*h1 - 10`; it is always shorter than `search_h` |
| Stitcher.MatchedStitch | src/stitcher.py:59-108 | for an upper image of any height, a match scoring above 0.8 at row `y` gives the upper image followed by the lower image from row `min(y + search_h, h2)` on, so the height is `h1 + h2` minus that cut |
| Stitcher.MatchedCutInWindow | src/stitcher.py:49-108 | for an upper image of 10 rows or more and a matcher whose match fits the search area, the cut `y + search_h` lies within the top half of the lower image and needs no clamping |
| Stitcher.MatchedKeepsLowerHalf | src/stitcher.py:55-108 | for an upper image of at least 10 rows and a matcher whose match lies inside the search area (the top half of the lower image), a trusted match keeps at least the bottom half of the lower image |
| Stitcher.UnmatchedStitch | src/stitcher.py:109-118 | a score of 0.8 or less, or a matcher that raises, stacks the two images unchanged |
| Stitcher.ShortUpperImageOvercuts | src/stitcher.py:49-105 | for an upper image of 7 rows the cut still adds the full `search_h` of 10 rows to the match row, so it skips rows the 3-row template never covered and keeps less than half of the lower image |
| Stitcher.StitchImages | src/stitcher.py:11-32 | the loop computes the left fold of the two-image stitch over the pages, `None` for no pages |
| Stitcher.StitchedSmallCases | src/stitcher.py:21-25 | no pages give `None`, and one page comes back unchanged |
| Stitcher.FoldKeepsFirstPage | src/stitcher.py:27-32 | the first page is an unchanged prefix of the stitched image, whose height lies between the first page's and the sum of all heights |
| Stitcher.FoldWithoutMatches | src/stitcher.py:27-32 | when no match is ever trusted, stitching is plain vertical stacking of all pages in order |
| Capture.ScreenCapture.constructor | src/capture.py:17-19 | a new capture object holds an open library handle |
| Capture.ScreenCapture.CaptureRegion | src/capture.py:21-56 | the result is the grab of exactly the requested rectangle, `None` when the grab fails |
| Capture.ScreenCapture.CaptureFullScreen | src/capture.py:58-83 | the monitor, 1 unless another is given, is looked up with Python indexing (negative numbers from the end), and a number outside the list gives `None` |
| Capture.ScreenCapture.Close | src/capture.py:178-181 | the handle is released |
| Capture.FocusPoint | src/capture.py:110-115 | the focus click lies inside a non-empty region, at most 50 pixels right of and below its corner |
| Capture.CaptureScrollingRegion | src/capture.py:85-164 | the method computes the scrolling capture: the pages the loop collects, stitched; `None` when the first grab fails; one plain grab when the stitcher cannot be imported |
| Capture.Collect | src/capture.py:128-154 | the loop keeps the pages already collected, unchanged and in front, and adds at most one page per remaining grab |
| Capture.CollectInOrder | src/capture.py:128-154 | every collected page is the matching successful grab, in grab order |
| Capture.CollectNoDoubleRepeat | src/capture.py:142-154 | the kept pages hold no chain of two similar steps: no page is similar to its predecessor while that predecessor is similar to its own, so the second similar page in a row ends the loop unkept |
| Capture.CollectStopReason | src/capture.py:134-154 | when fewer than the allowed pages are collected, the loop stopped on a failed grab or on a second similar page in a row |
| Capture.FirstGrabFails | src/capture.py:123-126 | a failed first grab makes the whole scrolling capture `None` |
| Capture.ScrollPagesSpec | src/capture.py:119-154 | the first page is the first grab, and at most `max(1, max_pages)` pages are collected |
| Capture.CollectFillsLimit | src/capture.py:134-154 | from any point of the loop, when every remaining grab succeeds and none is similar to the grab before it, every iteration the limit allows adds a page |
| Capture.NewContentFillsLimit | src/capture.py:119-154 | when every grab succeeds and none is similar to the grab before it, the scrolling capture collects exactly `max(1, max_pages)` pages |
| Ocr.DetectAndRecognize | src/ocr_engine.py:28-62 | an exception, `None` or an empty list gives no detections; otherwise there is one triple per backend entry, in order, with its box, text and score |
| Ocr.Texts | src/ocr_engine.py:80 | the texts of the detections, one per detection, in order |
| Ocr.GetTextOnly | src/ocr_engine.py:64-83 | the recognised texts joined with newlines, and `""` when nothing was recognised |
| Ocr.TextOnlyRoundTrip | src/ocr_engine.py:80-83 | splitting the joined text at newlines gives back each recognised text when none contains a newline |
| Ocr.SeqMin | src/ocr_engine.py:106-107 | `min` of the coordinates is at most each of them and is one of them |
| Ocr.SeqMax | src/ocr_engine.py:108-109 | `max` of the coordinates is at least each of them and is one of them |
| Ocr.BoxOf | src/ocr_engine.py:100-111 | the box of a polygon never has a negative width or height |
| Ocr.BoxIsTightHull | src/ocr_engine.py:100-111 | with whole-number corners the box contains every corner and each of its four sides touches one |
| Ocr.GetBoundingBoxes | src/ocr_engine.py:85-113 | one box per detection, in order, each the box of that detection's polygon; an empty polygon makes `min` raise |
| Translation.Translator.constructor | src/translator.py:14-40 | the engine type defaults to "google" and the prompt to the Vietnamese default, and then exactly one of the two engine initialisers runs |
| Translation.Translator.InitGemini | src/translator.py:58-137 | a failed Gemini import reverts to "google" and builds nothing; once the import succeeds Google is always built as the backup, then an empty key or a failed configuration reverts to "google", and otherwise the mode defaults to "vision" and the model is set |
| Translation.Translator.InitGoogleTranslate | src/translator.py:139-156 | the Google translator is set exactly when building it succeeds; outside backup use a success selects "google" and any outcome clears the Gemini model |
| Translation.Translator.TranslateBatch | src/translator.py:264-285 | one result per text, in order, each the translation of that text with no image and no prompt override |
| Translation.Translator.IsAvailable | src/translator.py:287-289 | `is_available()` holds exactly when a Gemini model or a Google translator is set |
| Translation.Translate | src/translator.py:158-183 | blank text, or no engine at all, comes back unchanged; otherwise `translate` never fails: its result is the input, Gemini's stripped answer to the text or image prompt, or Google's answer |
| Translation.TranslateWithGeminiVision | src/translator.py:185-230 | Gemini's stripped answer to the image prompt when there is one; without an answer, what the text path gives for the same text and prompt override; so always one of the engines' answers or the text |
| Translation.TranslateWithGemini | src/translator.py:232-254 | Gemini's stripped answer to the text prompt when there is one; a blocked, part-less or raising call gives what Google gives, so always an answer or the text |
| Translation.TranslateWithGoogle | src/translator.py:256-262 | Google's answer when the translator is set and answers; the text itself when the translator is missing or the call raises |
| Translation.GeminiFirstWhenSelected | src/translator.py:174-180 | with the engine type "gemini" and a model set, non-blank text gets the vision answer (vision mode with an image) when there is one, else Gemini's answer to the text prompt when there is one; only when both fail does Google answer |
| Translation.GeminiOnlyWhenSelected | src/translator.py:174-183 | unless the engine type is "gemini" with a model, the Gemini engines are never consulted, and Google answers whenever it is set |
| Translation.GeminiFallsBackToGoogle | src/translator.py:232-262 | a Gemini text call that is blocked, has no parts or raises falls back to Google, and a raising Google call gives back the text |
| Translation.VisionFallsBackToText | src/translator.py:176-230 | the vision path is taken only when there is an image in "vision" mode, and without an answer it gives what the text path gives |
| Translation.PromptShape | src/translator.py:212-237 | a prompt is the non-empty override or the configured prompt, then a blank line, then the text or the image note |
| Translation.InitialStateConsistent | src/translator.py:14-137 | after start-up an engine type of "gemini" always comes with a model and a mode |
| Translation.GeminiStartup | src/translator.py:58-137 | choosing Gemini keeps "gemini" exactly when the import, the key and the configuration all succeed; Google is built as backup whenever the import succeeds |
| Translation.StartupAvailability | src/translator.py:287-289 | `is_available()` after start-up holds exactly when some engine was built, given the configuration and which libraries work |
| Pipeline.SpanTranslations | src/pipeline.py:131-139 | each span gets exactly one translated text |
| Pipeline.RegionReply | src/pipeline.py:84-173 | the one message for a region is a result or an error; a result carries the requested region, one entry per recognised span, and needs a capture handle, a successful grab and a recognition engine; a failed grab gives "Failed to capture screen region" |
| Pipeline.ProcessingPipeline.constructor | src/pipeline.py:23-44 | a new worker is running with no engines, its command queue as given and no messages yet |
| Pipeline.ProcessingPipeline.InitializeEngines | src/pipeline.py:46-82 | the engines are built in order; the first failure puts one `init_error` and stops the worker, and success puts one `init_complete` with the translator's availability |
| Pipeline.ProcessingPipeline.ProcessRegion | src/pipeline.py:84-173 | exactly one message is put for the region: missing capture, failed grab, no text, missing translator or full result; nothing else changes |
| Pipeline.ProcessingPipeline.Run | src/pipeline.py:175-210 | a failed start-up puts only the `init_error` and serves nothing; otherwise the messages are `init_complete` followed by one per region request before the first shutdown, the commands up to that shutdown are taken, the worker stops exactly when there was a shutdown, and the capture handle is then closed |
| Pipeline.ProcessingPipeline.ServeCommands | src/pipeline.py:186-206 | the loop serves the queue in order until the first shutdown and leaves the rest queued |
| Pipeline.RegionEntries | src/pipeline.py:127-163 | a full result has one entry per span, in order, carrying its box, text and confidence, with the text's own translation, or the text itself with no engine |
| Pipeline.CaptureFailureSkipsRecognition | src/pipeline.py:99-104 | a failed grab gives "Failed to capture screen region", and the recognition backend is never consulted |
| Pipeline.EmptyRecognitionResult | src/pipeline.py:113-125 | no recognised text gives a result with no entries and zero translation time, whatever the translator |
| Pipeline.StopIndex | src/pipeline.py:195-198 | the position of the first shutdown, or the queue length when there is none |
| Pipeline.OneMessagePerRegion | src/pipeline.py:186-198 | every region request before the first shutdown gets exactly one message, and every message is a result or an error |
| Pipeline.ShutdownEndsService | src/pipeline.py:195-198 | commands after the first shutdown are never taken and change nothing that is put |
| Pipeline.OtherCommandIgnored | src/pipeline.py:189-198 | a command of any other type is taken off the queue and puts nothing |
| App.HotkeyParts | src/main.py:382 | one part per `+`-separated piece, each piece stripped |
| App.HotkeyWindow.constructor | src/main.py:361-374 | the window keeps the hotkey string and registers at once what the string describes, or nothing without a key |
| App.HotkeyWindow.RegisterHotkey | src/main.py:376-416 | the loop yields the OR of the modifier flags and the key of the last part that gives one, and nothing without a key |
| App.ModifiersNamed | src/main.py:384-402 | each modifier bit is set exactly when some part names that modifier case-insensitively, and no other bit is ever set |
| App.LastKeyWins | src/main.py:393-416 | the key is that of the last part giving one, and there is no hotkey exactly when no part gives a key |
| App.RepeatedPartHarmless | src/main.py:393-412 | repeating a part describes the same hotkey |
| App.SingleCharacterKey | src/main.py:405-406 | a one-character part is never a modifier, and its key is the character's upper-case code |
| App.FunctionKeyCode | src/main.py:407-410 | a part of `F` or `f` followed by one or two digits naming `n` is never a modifier and gives the key `0x70 + n - 1`, with no range check on `n` |
| App.BadFunctionKeyPart | src/main.py:407-412 | a part of two or more characters that names no modifier and starts with `f` or `F` gives a key exactly when it has at most three characters and `int()` accepts what follows the `f`; so a suffix `int()` rejects gives no key |
| App.CtrlJ | src/main.py:382-416 | "Ctrl+J" registers Control with the key 74 |
| App.CtrlShiftF5 | src/main.py:382-416 | "Ctrl+Shift+F5" registers Control and Shift with the key 0x74 |
| App.BadFunctionKeyIgnored | src/main.py:393-416 | the parts "Ctrl", "J", "Fx" still give Control with 'J' |
| App.ScreenTranslatorApp.OnRegionSelected | src/main.py:242-283 | a selection with a non-positive logical width or height puts nothing; any other puts exactly one `process_region` command with the region scaled by the pixel ratio and truncated |
| App.ScaledRegionNonEmpty | src/main.py:252-269 | with a pixel ratio of at least 1, a selection that passes the guard has a physical size at least its logical size, so at least 1 by 1 |
| App.GuardIsOnLogicalSize | src/main.py:252-269 | the guard looks only at the logical size: with a ratio of 0.5 a 1-by-1 selection passes and becomes a 0-by-0 physical region |

## Left out

- Pixel data, colour conversion, the mean-squared-error similarity test and the normalised cross-correlation are not modelled. They are oracles (`Capture.Similar`, `Stitcher.Matcher`), so floating-point image arithmetic stays outside.
- Stitcher.StitchTwo: an exception raised outside the matching call is not modelled. Such calls are the grey-scale conversions and the vertical stack of images of different widths.
- Capture.CaptureScrollingRegion: the generic `except` branch (an error from the mouse or keyboard library, or from stitching) is not modelled, and neither are the clicks, the key presses and the sleeps.
- Capture.ScreenCapture.CaptureRegion: the dropping of the alpha channel is not modelled, because the grab oracle returns the final image.
- `get_monitor_info` and the context-manager methods of `ScreenCapture` are not part of this model.
- Translation.Translator.InitGemini: the choice of Gemini model name is not modelled, because it has no effect the core can observe. The printed messages are also left out.
- Translation.TranslateWithGeminiVision: the image resize and colour conversion are inside the vision oracle.
- The remote engines are modelled as pure functions of their inputs. They are assumed to answer the same prompt the same way within one run.
- Text.Lower and Text.Upper cover ASCII letters only, and Text.Strip covers the white space of the ASCII and Latin-1 range (the C0 white space, the four information separators, NEL and NO-BREAK SPACE). Python's Unicode case mapping and the white space beyond that range are not modelled.
- Stitcher.SearchHeight and App.PhysicalRegion compute the float products `h1 * 0.2` and `x * device_pixel_ratio` exactly, in integers and in reals, before `int()`. Rounding of the double-precision product is not modelled. For `h1 * 0.2` it never changes the result, because the double nearest 0.2 lies above 0.2 and `h1 / 5` is exact when it is a whole number.
- Text.ParseInt: Unicode digits and digit-group underscores are not modelled. For the one- and two-character suffixes the hotkey parser passes, underscores cannot form a valid number.
- Configuration loading from `config.json` is not modelled: the configuration arrives as a value. JSON `null` values for present keys are not distinguished from missing keys.
- The multiprocessing queues are modelled as sequences and the worker runs sequentially. Queue polling, sleeps and the generic `except` of the loop are not modelled. With no shutdown queued, the model stops once the queue is empty. The real worker keeps polling and never reaches clean-up.
- Pipeline.ProcessingPipeline.ProcessRegion: the generic `except` branch is modelled only for a missing engine. The timings come from a clock oracle and are not measured.
- User-interface code outside the region guard and the hotkey parser is not modelled. That covers the Qt windows, the overlay, the tray, the settings dialog and the full-screen capture action, along with the `reload_config` and `shutdown` commands the interface puts.
- App.HotkeyWindow.RegisterHotkey: the calls into the Windows `RegisterHotKey` API, `nativeEvent` and the unregistering on close are foreign calls and are not modelled. The method returns what would be registered.
