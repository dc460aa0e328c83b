# Silica session capture: a verified model of the capture and GIF logic

`silica_session_capture.py` is a desktop tool that screenshots a running
match of the game Silica at a fixed interval. On each pass it:

- looks at the chat box and skips the pass while the player is typing;
- reads the match clock from the "CURRENT MATCH" banner with OCR;
- when the clock cannot be read, presses `m` to bring up the map overlay and reads the clock again;
- crops the map and saves it as `map_<n>_<MM>_<SS>.png` (or `map_<n>_unknown_time.png`);
- presses `m` again when it toggled the overlay on.

Afterwards, "Generate GIF" keeps the map frames, sorts them by the in-game time in their names and labels each frame with its `MM:SS` clock.

This project models the decision logic of that tool in Dafny, with OCR results, screen captures, key presses and file writes as abstract inputs and recorded effects. The modules are:

- `Text`: the pieces of Python's `str` the tool uses.
  - `isspace`, `strip()`, `split()`, `in`, `endswith`.
  - ASCII `lower()` and one-character `replace`.
  - `int()` and `str()` on decimal digits.
- `Ocr`: what the OCR engine hands back. This is either the recognised text or an error, which both recognisers catch.
- `TimerParser`: `extract_time`.
- `ChatDetector`: `extract_chat_status`.
- `Regions`: the chat, timer and map rectangles.
  - They are defined on a 1920x1080 reference screen.
  - They are scaled to the actual screen and truncated to integers.
- `FrameNames`: the debug and map file names and the `map_(\d+)_(\d+)_(\d+)\.png` matcher.
  - The matcher is shared by `get_sort_key` and the label regex, which match the same names.
- `CaptureLoop`: one pass of `take_screenshots` and a run of passes.
  - Each is a specification function over an effect trace, with properties proved about it.
  - The class `CaptureWorker` performs the passes step by step on its counter and effect log.
  - Its methods are proved to follow the specification.
- `GifAssembler`: the `generate_gif` filter, the `get_sort_key` sort and the per-frame labels.

`screenshot_count` is incremented at `silica_session_capture.py:342` on every pass outside chat: after a map crop that was empty (`:338-339`) as well as after a save that raised (`:336-337`). The model does the same (`CaptureLoop.PassOutsideChat`).

## Model

| member | source | states |
|---|---|---|
| Text.Strip | silica_session_capture.py:198 | `strip()` leaves nothing exactly of a blank text; what it leaves of any other text starts and ends with a non-space |
| Text.StripIsInfix | silica_session_capture.py:198 | `strip()` returns the slice of the text between a whitespace prefix and a whitespace suffix, and that slice has no whitespace at either end: all leading and trailing whitespace is cut, and nothing else |
| Text.Split | silica_session_capture.py:203 | `split()` returns non-empty words without whitespace, and returns no word exactly when the text is blank |
| Text.SplitJoined | silica_session_capture.py:203 | for any words laid out between whitespace gaps (non-empty between two words), `split()` returns exactly those words, in order |
| Text.SplitLayout | silica_session_capture.py:203 | every text is the words `split()` returns laid out between whitespace gaps, non-empty between two words |
| Text.SplitIff | silica_session_capture.py:203 | `split()` returns a list of words exactly when the text is those words laid out between whitespace gaps |
| Text.Lower | silica_session_capture.py:224 | `lower()` keeps the length, leaves no ASCII capital, turns each one into its small letter and keeps every other character |
| Text.LowerKeepsSpace | silica_session_capture.py:224 | lower-casing keeps whitespace exactly where it was |
| Text.LowerIdempotent | silica_session_capture.py:224 | lower-casing twice is lower-casing once |
| Text.ReplaceChar | silica_session_capture.py:210 | `replace(old, new)` of one character turns every `old` into `new`, keeps every other character, and leaves no `old` |
| Text.DigitsValue | silica_session_capture.py:386-387 | `int()` of a string of `n` ASCII digits is below `10^n` |
| Text.DigitsValueLeadingZero | silica_session_capture.py:386-387 | a leading zero does not change the value `int()` reads |
| Text.StripKeepsContains | silica_session_capture.py:198-201 | stripping does not change whether the text contains a word that starts and ends with a non-space |
| Text.StripSplitLast | silica_session_capture.py:198-203 | for text made of a prefix, a word and trailing blanks, the last element of `split()` of the stripped text is that word |
| Text.LastWordExists | silica_session_capture.py:203 | every text that is not blank can be written as a prefix ending in whitespace (or empty), a last word, and trailing whitespace |
| Text.NatToString | silica_session_capture.py:266 | `str(n)` is a non-empty digit string with no leading zero that `int()` reads back as `n` |
| TimerParser.ClockTimer | silica_session_capture.py:206-210 | a token yields a timer exactly when it matches `^\d{2,3}:\d{2}$` and its seconds are below 60; the timer is minutes, `_`, seconds, a valid file timer without `:` |
| TimerParser.ReplaceSeparator | silica_session_capture.py:210 | `replace(":", "_")` on a clock token keeps its minutes and seconds and yields a file timer |
| TimerParser.MarkerAfterStrip | silica_session_capture.py:198-203 | stripping does not change whether the banner is present; text with the banner has at least one word, so `split()[-1]` exists |
| TimerParser.ExtractTime | silica_session_capture.py:194-217 | a result implies that OCR succeeded and the text contains "CURRENT MATCH"; every result is a file timer with no `:` |
| TimerParser.ExtractTimeReadsLastWord | silica_session_capture.py:198-217 | for any text, with `tok` its last word: the result is `MM_SS` exactly when the text has the banner, `tok` matches the clock pattern and the seconds are below 60; otherwise there is none |
| TimerParser.ExtractTimeBlank | silica_session_capture.py:198-217 | blank or empty text never yields a timer |
| TimerParser.BannerThenWord | silica_session_capture.py:201-210 | for the banner followed by one word, the result is decided by that word alone |
| TimerParser.ExtractTimeExampleValid | silica_session_capture.py:201-210 | "CURRENT MATCH 12:34" gives `12_34` |
| TimerParser.ExtractTimeExampleSeconds | silica_session_capture.py:206-212 | "CURRENT MATCH 12:61" gives nothing (seconds of 60 or more) |
| TimerParser.ExtractTimeExampleShort | silica_session_capture.py:206 | "CURRENT MATCH 1:2" gives nothing (one-digit fields) |
| TimerParser.ExtractTimeExampleNoMarker | silica_session_capture.py:201-214 | "no marker here" gives nothing (no banner) |
| ChatDetector.ExtractChatStatus | silica_session_capture.py:219-237 | chat is active exactly when OCR succeeded and the text contains "team" or "all" in any mix of ASCII case; an OCR failure means no chat |
| ChatDetector.LowerContains | silica_session_capture.py:224-228 | a substring search of the lower-cased text for a lower-case word is a case-insensitive search |
| ChatDetector.LowerStripIsInfix | silica_session_capture.py:224 | `strip().lower()` is the slice of the lower-cased text between a whitespace prefix and a whitespace suffix, with no whitespace at either end |
| ChatDetector.LowerStripContains | silica_session_capture.py:224-228 | stripping and lower-casing, then searching, is a case-insensitive search of the raw text |
| ChatDetector.ChatExampleTeam | silica_session_capture.py:228-230 | "Team" is chat |
| ChatDetector.ChatExampleAll | silica_session_capture.py:228-230 | "ALL" is chat |
| ChatDetector.ChatExampleNone | silica_session_capture.py:228-237 | "nothing relevant" is not chat |
| Regions.ChatArea | silica_session_capture.py:254-259 | on a 1920x1080 screen the chat box is (20, 700, 75, 725) |
| Regions.TimeArea | silica_session_capture.py:279-282 | on a 1920x1080 screen the timer box is (300, 50, 600, 92) |
| Regions.MapArea | silica_session_capture.py:323-326 | on a 1920x1080 screen the map box is (638, 53, 1612, 1027) |
| Regions.Scale | silica_session_capture.py:255-258 | `int(k * size / reference)` is the floor of the exact quotient: `r * reference <= k * size < (r + 1) * reference` |
| Regions.ScaleMonotone | silica_session_capture.py:254-259 | scaling keeps the order of offsets |
| Regions.ScaleWithin | silica_session_capture.py:254-259 | an offset no larger than the reference size scales into the screen |
| Regions.ScaleSplit | silica_session_capture.py:324-325 | the scaled sum `638 + 974` is at least the sum of the scaled parts |
| Regions.RegionsInsideScreen | silica_session_capture.py:254-326 | for every screen size, the chat, timer and map boxes have left <= right and top <= bottom and lie inside the screen |
| Regions.ScaleAtMultiple | silica_session_capture.py:81-82 | on a screen `m` times the reference size, every offset scales to exactly `m` times itself |
| Regions.RegionsAtMultiple | silica_session_capture.py:254-326 | at the reference resolution and its integer multiples, the three boxes are the literal offsets times `m` |
| Regions.MapAreaNonEmpty | silica_session_capture.py:323-330 | the map crop has a positive width and height exactly when the screen is at least 2x2 pixels |
| Regions.EmptyMapCropEmptyChatCrop | silica_session_capture.py:254-330 | whenever the map crop is empty, the chat crop is empty too |
| FrameNames.ChatRegionName | silica_session_capture.py:266 | `chat_region_<n>.png` is a `.png` that the frame pattern never matches |
| FrameNames.TimeRegionName | silica_session_capture.py:288 | `time_region_<n>.png` is a `.png` that the frame pattern never matches |
| FrameNames.MapFileName | silica_session_capture.py:331 | `map_<n>_<timer>.png` starts with `map_` and ends with `.png`; what the pattern reads back from it is stated by `FrameNames.MapFileNameMatches` and `FrameNames.FrameIndexOfMapFileName` |
| FrameNames.MatchFrameName | silica_session_capture.py:382 | `re.match` of `map_(\d+)_(\d+)_(\d+)\.png`, shared with the label regex at `:403`; what it returns is stated by `FrameNames.MatchFrameNameIff` |
| FrameNames.DigitsThenIff | silica_session_capture.py:382 | one `(\d+)` and the literal after it match `d`, `sep`, `rest` exactly when `d` is a non-empty digit run and the text is `d + sep + rest` |
| FrameNames.MatchFrameNameComplete | silica_session_capture.py:382 | every name that starts with `map_<d>_<d>_<d>.png` is matched with those digit groups |
| FrameNames.MatchFrameNameSound | silica_session_capture.py:382 | the groups the matcher returns are digit runs, and their pattern starts the name |
| FrameNames.MatchFrameNameIff | silica_session_capture.py:382 | the matcher returns groups `f` exactly when they are digit runs and the name starts with their pattern |
| FrameNames.MapFileNameMatches | silica_session_capture.py:331 | a frame name written with a parsed timer is matched with its counter, minutes and seconds |
| FrameNames.UnknownTimeUnmatched | silica_session_capture.py:320-331 | a frame name written with `unknown_time` does not match the pattern |
| FrameNames.MapFileNameInjective | silica_session_capture.py:331 | two frame names are equal only for the same counter and the same timer |
| FrameNames.FrameIndexOfMapFileName | silica_session_capture.py:331 | the counter written into a frame name is read back from it, whatever the timer |
| CaptureLoop.ElapsedTime | silica_session_capture.py:285-320 | the frame timer is `unknown_time` exactly when both reads fail; otherwise it is a file timer: the first read when that succeeded, and the retry's read when only the retry succeeded |
| CaptureLoop.Iteration | silica_session_capture.py:250-353 | one pass of the loop: a chat pass or a capture pass; its effects and counter are stated by `CaptureLoop.ChatSkip` and `CaptureLoop.PassOutsideChat` |
| CaptureLoop.CapturePass | silica_session_capture.py:278-349 | a pass outside chat; its key order, writes and counter are stated by `CaptureLoop.KeystrokesPaired`, `CaptureLoop.MapSavedWhileOverlayOn` and `CaptureLoop.PassOutsideChat` |
| CaptureLoop.Run | silica_session_capture.py:243-353 | the passes of `take_screenshots` in order; its counter, keys and frames are stated by `CaptureLoop.RunCount`, `CaptureLoop.RunKeysBalanced`, `CaptureLoop.RunFramesNumbered` and `CaptureLoop.RunFramesDistinct` |
| CaptureLoop.ChatSkip | silica_session_capture.py:263-276 | a pass in chat presses no key, saves no map, leaves the counter alone and writes only `chat_region_<count+1>.png` |
| CaptureLoop.KeystrokesPaired | silica_session_capture.py:293-349 | outside chat, no key is pressed when the first clock read succeeds, and otherwise exactly `m` on and `m` off |
| CaptureLoop.MapSavedWhileOverlayOn | silica_session_capture.py:296-349 | before the save attempt the keys pressed are exactly the toggle on; when the overlay was toggled on, the toggle off comes last, after the attempt, even when the save raised |
| CaptureLoop.PassOutsideChat | silica_session_capture.py:283-342 | outside chat the counter rises by exactly one, whether or not the crop was empty or the save raised; `map_<count+1>_<timer>.png` is saved only for a non-empty crop whose save completes; the files written are the two debug crops and that frame |
| CaptureLoop.RunCount | silica_session_capture.py:243-342 | after any run, the counter has risen by the number of passes outside chat |
| CaptureLoop.RunKeysBalanced | silica_session_capture.py:243-349 | across any run the keys form whole press/release toggle pairs of `m`, an even number of toggles, so the overlay ends as it started |
| CaptureLoop.RunFramesNumbered | silica_session_capture.py:243-342 | the frames a run saves carry counters in (start, end], strictly increasing along the run |
| CaptureLoop.RunFramesDistinct | silica_session_capture.py:331-342 | no two frames saved in a run have the same name, so none overwrites another |
| CaptureLoop.CaptureWorker.constructor | silica_session_capture.py:152 | a session starts with the counter at zero and nothing done |
| CaptureLoop.CaptureWorker.Pass | silica_session_capture.py:250-353 | one pass appends exactly the effects of the `Iteration` specification and leaves the counter and saved frame it specifies |
| CaptureLoop.CaptureWorker.ResolveTimer | silica_session_capture.py:293-320 | the timer used is `ElapsedTime`; the overlay is toggled on and the screen recaptured exactly when the first read failed |
| CaptureLoop.CaptureWorker.SaveMapFrame | silica_session_capture.py:322-339 | the save is skipped for an empty crop, recorded as a failure when it raises, and otherwise yields the frame name |
| CaptureLoop.CaptureWorker.DeactivateMap | silica_session_capture.py:345-349 | `m` is pressed and released again exactly when this pass toggled the overlay on |
| CaptureLoop.CaptureWorker.TakeScreenshots | silica_session_capture.py:243-353 | the loop leaves exactly the effects and counter of the `Run` specification over its observations |
| GifAssembler.IsGifCandidate | silica_session_capture.py:372 | the filter `f.endswith('.png') and 'map_' in f and 'unknown_time' not in f`; which names pass is stated by `GifAssembler.Candidates` |
| GifAssembler.SortByKey | silica_session_capture.py:395 | `image_files.sort(key=get_sort_key)`; permutation, order and stability are stated by `GifAssembler.SortPermutes`, `GifAssembler.SortSorted` and `GifAssembler.SortStable` |
| GifAssembler.Labels | silica_session_capture.py:399-408 | the labels of the parsed names in list order; stated by `GifAssembler.LabelsEmpty` and `GifAssembler.FrameLabels` |
| GifAssembler.Candidates | silica_session_capture.py:370-373 | a listed name is kept exactly when it ends in `.png`, contains `map_` and does not contain `unknown_time`, as many times as it is listed |
| GifAssembler.SortKeyOf | silica_session_capture.py:381-392 | a name gets the infinite key exactly when it does not match the frame pattern |
| GifAssembler.KeyOfPattern | silica_session_capture.py:381-405 | a name that is the pattern of some digit groups sorts at minutes times 60 plus seconds and is labelled `minutes:seconds` |
| GifAssembler.SortPermutes | silica_session_capture.py:395 | the sort returns a permutation of the kept names |
| GifAssembler.SortSorted | silica_session_capture.py:395 | the sort returns the names in ascending key order |
| GifAssembler.SortStable | silica_session_capture.py:395 | names with equal keys keep their relative order |
| GifAssembler.UnmatchedLast | silica_session_capture.py:390-395 | after sorting, every name that does not parse comes after every name that does |
| GifAssembler.FrameLabel | silica_session_capture.py:403-408 | a name has no label exactly when it does not match the frame pattern |
| GifAssembler.LabelsEmpty | silica_session_capture.py:397-408 | there are no labels exactly when no kept name parses |
| GifAssembler.FrameLabels | silica_session_capture.py:397-408 | the per-frame loop collects the label of each parsed name, in order, skipping the rest |
| GifAssembler.GenerateGif | silica_session_capture.py:361-451 | there is no GIF without a session folder; "no images" exactly when no kept name parses; otherwise a GIF labelled by the sorted, parsed frames |
| GifAssembler.TimedFrameInGif | silica_session_capture.py:370-405 | a frame saved with timer `MM_SS` passes the filter, sorts at `MM * 60 + SS` and is labelled `MM:SS` |
| GifAssembler.UnknownFrameDropped | silica_session_capture.py:372 | a frame saved as `unknown_time` never reaches the GIF |
| GifAssembler.ClockLabel | silica_session_capture.py:210-405 | a clock token saved as `MM_SS` comes back from the name as the label equal to the token itself |
| GifAssembler.ClockTokenBecomesLabel | silica_session_capture.py:203-405 | end to end: when the banner's last word gives a timer, that word is a clock, and the frame saved under the timer is labelled with that word |
| GifAssembler.SortExample | silica_session_capture.py:381-408 | `map_1_02_05.png`, `map_2_01_59.png`, `map_3_10_00.png`, `map_4_bad.png` sort as frames 2, 1, 3, 4 and are labelled 01:59, 02:05, 10:00 |

## Left out

- The tkinter window, its widgets, the folder dialogs and the "open folder" button: user interface only.
- OpenCV preprocessing (`preprocess_image`) and the pytesseract calls: image numerics and a foreign OCR engine. Their output is an input to the model (`Ocr.OcrOutput`).
- Screen capture and the keyboard: they become recorded effects (`CaptureLoop.Effect`). The pictures themselves are not modelled, only which crop is saved under which name.
- The worker thread, the `is_running` flag, the initial delay and every `sleep`: concurrency and timing. A run is modelled as a finite sequence of passes, one per observation.
- The re-read of the interval field at the top of each pass: it only feeds the sleep.
- Writing the debug crops is modelled as always succeeding. In the source an exception there is not caught and would end the worker thread.
- Creating the session and debug folders and listing the session folder are left out. The listing is an input to `GifAssembler.Candidates`.
- Opening the frames, drawing the label, alpha compositing and GIF encoding (PIL) are left out. The GIF is represented by its ordered list of frame labels.
- The exception handler around the whole of `generate_gif` (a failing `Image.open` or GIF save) is not modelled.
- Regions.Scale: the screen scale factors are Python floats (`width / 1920`). The model uses the exact quotient rounded down, so float rounding at exact boundaries is not captured.
- Text.Split: its own ensures give only the shape of the parts; which words they are is stated by `Text.SplitIff`, `Text.SplitJoined` and `Text.SplitLayout`, and the last word by `Text.StripSplitLast`.
- Text.Lower: folds only ASCII `A`-`Z`; Python's `str.lower()` folds every Unicode upper-case letter.
- CaptureLoop.PassOutsideChat: its passes with an empty map crop have no counterpart in the source. An empty map crop implies an empty chat crop (`Regions.EmptyMapCropEmptyChatCrop`), and `preprocess_image` at `silica_session_capture.py:262`, outside any `try`, raises on an empty image and ends the worker before `:330`. The model does not model that crash; it lets such a pass go on to the size check.
- FrameNames.MatchFrameName: Python's `\d` accepts every Unicode decimal digit; the model accepts only ASCII `0`-`9`.
- TimerParser.ClockTimer: Python's `\d` accepts every Unicode decimal digit; the model accepts only ASCII `0`-`9`.
- ChatDetector.ExtractChatStatus: `str.lower()` folds every Unicode upper-case letter; the model folds only ASCII `A`-`Z`.
- GifAssembler.SortByKey: Python's `list.sort` (Timsort) is modelled by its specification, a stable insertion sort by key. Permutation, order and stability are proved about it.
- GifAssembler.ClockTokenBecomesLabel: states the label but not the sort key; the key is stated for the same frame by `GifAssembler.ClockLabel`.
