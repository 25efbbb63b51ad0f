# taptaphack core logic, modelled in Dafny

taptaphack is a pair of desktop scripts that watch a quiz on screen.
`index.py` polls a question counter by OCR and, on the fifth recognised
reading that differs from the last processed question (the readings need not
agree with each other, an unrecognised reading in between does not reset the
count, only a reading equal to the last question does), sends the question
and options to a Groq vision model;
`claude.py` does the same on a key press with the Anthropic API. Around the
screen capture, OCR and HTTP calls sit five pieces of deterministic logic,
and this project models them and proves what they do:

- **Answer-tag parsing** (`answer_tag.dfy`, module `AnswerTag`): the reply
  parser shared by `get_answer_from_groq` and `get_answer_from_claude`,
  which returns the stripped text between the first `<ANSWER>` and the first
  `</ANSWER>`. It computes `start = find("<ANSWER>") + 8` and then checks
  `start != -1`, a test that can never fail; so a reply without `<ANSWER>`
  is not rejected but sliced from index 7. The model keeps that behaviour
  and proves it, case by case, with Python's clamping slice.
- **Question-counter recognition** (`question_number.dfy`, `QuestionNumber`):
  spaces are removed, then `re.match(r'Q\d+0f\d+|Q\d+of\d+|Q\d+o0f\d+', text)`.
  The recogniser is written without backtracking and proved equivalent to a
  declarative statement of the regular expression matching some prefix.
- **Debouncing** (`debounce.dfy`, `Debounce`): the body of `main`'s polling
  loop as a step function over (`previous_question_number`,
  `consecutive_different_text_count`), its fold over a sequence of readings,
  and the loop itself as an imperative method proved equal to that fold.
- **Option matching** (`option_match.dfy`, `OptionMatch`): the first option
  whose lower-cased text contains the lower-cased answer, reported 1-based,
  and the decision made after a question fires (skip when an option read as
  empty, no answer, unmatched, chosen option).
- **Region calibration** (`selector.dfy`, `Selector`): the `ScreenSelector`
  class's `selections` list, which grows by one rectangle per mouse release
  and quits at 7 rectangles (`index.py`) or 6 (`claude.py`), and the
  unpacking of that list into question-number, title, image and answer
  regions.

`text.dfy` (`Text`) holds the Python string operations used above
(`str.find`, `in`, slicing, `strip`, `lower`), `wrappers.dfy` the `Option`
type standing for Python's `None`. The external services are parameters:
OCR readings are input strings, the model's reply is an input string (or,
for option matching, the answer already parsed from it), and the mouse
events are input coordinates.

## Model

| member | source | states |
|---|---|---|
| `Text.Find` | index.py:129-130 | `str.find`: -1 exactly when the marker occurs nowhere, otherwise an index where it occurs with no occurrence before it |
| `Text.Strip` | index.py:132 | `str.strip()`: the result is a contiguous piece of the input with only whitespace cut on either side, and it neither starts nor ends with whitespace |
| `Text.Slice` | index.py:132 | Python's `s[i:j]`: in-range bounds give `s[i..j]`, a reversed range gives the empty string, an end past the length stops at the end, a start before `-len` starts at 0, negative bounds count from the end, and an end before `-len` gives the empty string |
| `Text.Lower` | index.py:194 | `str.lower()`: the result has the input's length and each character is lower-cased on its own (A-Z mapped to a-z, everything else kept) |
| `AnswerTag.ExtractAnswer` | claude.py:96-102 | the parser returns None exactly when `</ANSWER>` is absent, whatever happens to `<ANSWER>`, because `find(...) + 8` is never -1 |
| `AnswerTag.ExtractBetweenMarkers` | index.py:129-132 | when the first `</ANSWER>` comes after the first `<ANSWER>`, the markers do not overlap and the result is the stripped text strictly between them |
| `AnswerTag.ExtractCloseBeforeOpen` | claude.py:97-100 | when the first `</ANSWER>` precedes the first `<ANSWER>`, the slice is reversed and the result is the empty string |
| `AnswerTag.ExtractWithoutOpenMarker` | index.py:129-132 | without `<ANSWER>` the reply is still accepted: the result is `content[7:end].strip()`, and the empty string when `</ANSWER>` starts at or before index 7 |
| `AnswerTag.MarkersDoNotOverlap` | index.py:129-130 | occurrences of the two markers never overlap, so "after" means at least 8 characters after |
| `AnswerTag.ExtractAcceptsMissingOpenMarker` | claude.py:97-102 | the reply `B</ANSWER>` has no `<ANSWER>`, yet parses to the empty answer instead of None |
| `AnswerTag.ExtractAnswerChecked` | claude.py:97-102 | the parser with the presence test on `<ANSWER>` itself: None exactly when either marker is absent, and the same result as the original whenever `<ANSWER>` is present |
| `AnswerTag.CheckedExtractBetweenMarkers` | index.py:129-132 | the checked parser returns the stripped text strictly between the first markers when the closing one follows the opening one |
| `QuestionNumber.RemoveSpaces` | index.py:167 | `replace(" ", "")`: no space remains, the result is no longer than the input, and a reading without spaces is unchanged |
| `QuestionNumber.RemoveSpacesKeepsOthers` | index.py:167 | every character other than a space is kept as often as it occurs and no character is added; a single character is dropped exactly when it is a space |
| `QuestionNumber.RemoveSpacesAppend` | index.py:167 | removing spaces works piece by piece: the result for `a + b` is the result for `a` followed by the result for `b`, so with the single-character case the kept characters stay in their order |
| `QuestionNumber.MatchesFormat` | index.py:168 | an accepted text is at least five characters long and starts with `Q` followed by a digit |
| `QuestionNumber.Recognised` | index.py:167-168 | an accepted reading is at least five characters long (its exact language is stated by `RecognisedIffPrefixMatch`) |
| `QuestionNumber.MatchesFormatIffPrefixMatch` | index.py:168 | the hand-written recogniser accepts a text exactly when some prefix of it is `Q`, digits, one of `0f`/`of`/`o0f`, digits |
| `QuestionNumber.RecognisedIffPrefixMatch` | index.py:167-168 | a reading is accepted exactly when, after removing spaces, the regular expression matches at its start |
| `QuestionNumber.MatchesFormatIgnoresSuffix` | index.py:168 | `re.match` is anchored at the start only: appending anything to an accepted text keeps it accepted |
| `QuestionNumber.RecognisedIgnoresSuffix` | index.py:167-168 | appending OCR noise to an accepted reading keeps it accepted |
| `QuestionNumber.DigitsEndAt` | index.py:168 | a run of digits after `Q` that is followed by a non-digit is exactly the run the recogniser scans, which fixes where each alternative's separator must start |
| `Debounce.StepCases` | index.py:167-208 | one iteration: an unrecognised reading changes nothing; a recognised reading equal (unstripped) to the last question resets the counter; a differing one increments it; the step fires exactly on a differing recognised reading with the counter at 4, and then leaves (reading, 0); the last question changes only when a step fires |
| `Debounce.StepKeepsCountBelowThreshold` | index.py:170-206 | a counter in 0..4 stays in 0..4 after any reading |
| `Debounce.RunKeepsCountBelowThreshold` | index.py:155-206 | from the initial state the counter stays in 0..4 over any sequence of readings |
| `Debounce.UnrecognisedReadingsChangeNothing` | index.py:167-208 | any run of unrecognised readings leaves the state as it was and processes nothing |
| `Debounce.PreviousIsLastProcessed` | index.py:203-204 | `previous_question_number` is always the last processed reading, or the initial one when nothing was processed |
| `Debounce.ProcessedAreRecognised` | index.py:167-174 | every processed reading passed the format check |
| `Debounce.ProcessedNeverRepeats` | index.py:169-204 | the same reading is never processed twice in a row, nor is the first one equal to the initial last question |
| `Debounce.DifferingReadingsCount` | index.py:170-172 | fewer than five recognised readings that differ from the last question only raise the counter, one per reading |
| `Debounce.FiveDifferingReadingsFire` | index.py:170-174 | from a reset counter, five recognised readings that differ from the last question process exactly the fifth, which becomes the last question |
| `Debounce.Poll` | index.py:155-210 | the imperative loop over a finite sequence of readings ends in the fold's state and processes the fold's readings, with the counter in 0..4 and no question processed twice in a row |
| `OptionMatch.MatchOption` | index.py:194 | the result is the least index whose lower-cased option contains the lower-cased answer, and None exactly when no option contains it |
| `OptionMatch.EmptyAnswerSelectsFirst` | index.py:194 | an empty answer is contained in every option, so the first option is chosen |
| `OptionMatch.Report` | index.py:187-201 | skipped exactly when some option was read as empty; otherwise no answer, unmatched when no option contains the answer, or the 1-based number of the first option that does |
| `OptionMatch.MissingOpenMarkerChoosesFirstOption` | index.py:129-197 | any reply without `<ANSWER>` whose first `</ANSWER>` starts at or before index 7 leads to option 1 being reported for any non-empty options, where the checked parser reports that no answer came back |
| `Selector.ScreenSelector.constructor` | index.py:32-34 | a new selector has start point (0, 0) and no selections |
| `Selector.ScreenSelector.OnPress` | index.py:36-38 | a press records the start point and leaves the selections unchanged |
| `Selector.ScreenSelector.OnRelease` | index.py:48-53 | a release appends exactly the rectangle from the start point to the release point, keeps the earlier ones, and signals quit exactly when the count reaches the limit |
| `Selector.Calibrate` | claude.py:44-54 | a fresh selector fed drags quits exactly when at least `limit` drags were made and returns the first `limit` rectangles in drawing order |
| `Selector.IndexRegionsOf` | index.py:162 | unpacking fails exactly below three selections; otherwise question number, title, image and answers concatenate back to the selections, with 4 answers for 7 selections |
| `Selector.ClaudeRegionsOf` | claude.py:127 | unpacking fails exactly below two selections; otherwise title, image and answers concatenate back to the selections, with 4 answers for 6 selections |
| `Selector.IndexCalibrationRoles` | index.py:48-53 | calibrating with the limit 7 and unpacking gives the first three drags as question number, title and image and the next four as answers |
| `Selector.ClaudeCalibrationRoles` | claude.py:44-49 | calibrating with the limit 6 and unpacking gives the first two drags as title and image and the next four as answers |

## Left out

- Window and canvas drawing in `ScreenSelector` (the red rectangle, drag feedback, full-screen window, `run`'s mainloop): GUI plumbing; only the press point and `selections` bookkeeping are modelled.
- Screen and window capture (`win32gui`, `WindowsCapture`, `ImageGrab`), OCR (`pytesseract`), PNG and base64 encoding: external libraries; OCR readings and the model's reply are inputs.
- The Groq and Anthropic requests and their prompt text: network clients; only the parsing of the returned text is modelled, and option matching takes the parsed answer as a parameter.
- Loading and saving `bounding_boxes_2.json`: file I/O; loaded selections of any length are covered by the unpacking functions' failure case.
- `keyboard.wait`, `time.sleep` and the `print` calls: input and timing side effects. claude.py's `main` is a loop of such calls around the parser and is not otherwise modelled.
- The module-level `capture_window_content(...)` and `exit()` in index.py, which stop `main` from ever running: the loop is modelled as if `main` ran.
- Debounce.Poll: models a finite prefix of the infinite `while True` loop; the per-iteration processing (captures, OCR, the request) is reduced to recording the fired reading.
- Float canvas coordinates truncated with `int()`: the model takes whole-pixel coordinates.
- Text.Strip, Text.Lower and QuestionNumber.IsDigit: Python's `str.strip`, `str.lower` and `\d` are Unicode-aware; the model covers ASCII whitespace (including the separators 28..31), ASCII letters and ASCII digits only.

## Findings

| source | as written | input that shows it | evidently intended | confidence | as-written member | corrected member |
|---|---|---|---|---|---|---|
| index.py:129-131 (same code at claude.py:97-99) | `start = find("<ANSWER>") + 8` is compared with -1, which it can never equal, so a reply without `<ANSWER>` is sliced from index 7 | the reply `B</ANSWER>` parses to the empty answer, which every option contains, so option 1 is reported | test the result of `find("<ANSWER>")` before adding 8, returning None when the opening marker is missing | high; not executed | `AnswerTag.ExtractAcceptsMissingOpenMarker` | `AnswerTag.ExtractAnswerChecked` |
