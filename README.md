# Car-wash entry attendant: a Dafny model

This project models the decision core of a prototype access gate for an automatic
car wash. A camera image of an arriving vehicle is sent to a hosted vision model.
The free-text reply is reduced to one of `ALLOW`, `DENY` or `REVIEW`. Every decision
is appended to an audit log. An `ALLOW` opens the entry barrier, which closes itself
after a delay. An operator can override any decision; the override is logged as
such and may open the barrier too.

Modules, one per source file:

- `Text` (`text.dfy`): the two string operations the classifier uses. `Lower` is
  `str.lower` over ASCII. `Contains` is the substring test `p in s`, written as a
  left-to-right scan and proved equal to "occurs at some index".
- `Analyzer` (`analyzer.dfy`, mmllm.py): the keyword classifier `ExtractDecision`,
  the decision labels, and `AnalysisOf`, the result record built around a reply.
- `EntryDecision` (`entry_decision.dfy`, decision.py): the class
  `EntryDecisionSystem`. Its log file is a `seq<LogEntry>` field that only ever
  grows by one record per call.
- `Barrier` (`barrier.dfy`, barriercontrol.py): the class `BarrierControl` with
  its `status` and a count of scheduled closes still pending. Its methods are tied
  to a pure state machine (`Step`, `Run`). Lemmas over that machine prove that an
  open barrier always has a close pending, and that opens are not de-duplicated.
- `Gate` (`gate.dfy`, main.py): the two request handlers as compositions of the
  above. The barrier opens exactly when the decision string is `"ALLOW"`.
- `Wrappers` (`wrappers.dfy`): `Option`.

Points where the code behaves differently from what a reader might expect, modelled as the code has them:

- Image capture has no sample-file fallback. `capture_image` returns `None` when
  the camera yields no frame, and the capture handler then answers with a 500 error.
- A second open does not reset the first timer. It adds another one, and the first
  timer still closes the barrier on time (`Barrier.OpenThenTimerCloses`).
- The override handler opens the barrier for the exact string `"ALLOW"` only.
  It does not check the decision string in any other way.

## Model

| member | source | states |
|---|---|---|
| `Text.Lower` | mmllm.py:53 | the lower-cased text has the same length, each character is the ASCII lower case of the original one, and no upper-case ASCII letter is left |
| `Text.LowerIdempotent` | mmllm.py:53 | lower-casing an already lower-cased text changes nothing |
| `Text.LowerAppend` | mmllm.py:53 | lower-casing distributes over concatenation |
| `Text.ContainsIffOccurs` | mmllm.py:56-58 | the scanning substring test succeeds exactly when the phrase occurs at some index of the text |
| `Text.ContainsAppendRight` | mmllm.py:56 | a phrase found in a text is still found after text is appended |
| `Text.ContainsAppendLeft` | mmllm.py:56 | a phrase found in a text is still found after text is prepended |
| `Analyzer.ParseLabel` | mmllm.py:57-62 | a string that parses as a decision is exactly that decision's label |
| `Analyzer.LabelRoundTrip` | mmllm.py:57-62 | each of DENY, ALLOW, REVIEW parses back to its own decision |
| `Analyzer.ExtractDecision` | mmllm.py:51-62 | DENY iff a deny phrase occurs in the lower-cased reply; ALLOW iff no deny phrase and some allow phrase occurs; REVIEW iff none of the six phrases occurs |
| `Analyzer.DenyPhraseDenies` | mmllm.py:56-57 | a reply containing any one of "not allowed", "should not be allowed", "no, " in any letter case is DENY |
| `Analyzer.AllowPhraseAllows` | mmllm.py:58-59 | a reply containing an allow phrase and none of the deny phrases is ALLOW |
| `Analyzer.DenyTakesPrecedence` | mmllm.py:56-59 | a reply mentioning both a deny and an allow phrase is DENY |
| `Analyzer.CaseInsensitive` | mmllm.py:53 | classifying a reply and classifying its lower-cased form give the same decision |
| `Analyzer.DenyStableUnderExtension` | mmllm.py:56-57 | a DENY reply stays DENY with any text added before or after it |
| `Analyzer.DenyPhraseAlone` | mmllm.py:56-57 | each deny phrase on its own is classified DENY |
| `Analyzer.DenyPhraseInContext` | mmllm.py:56-57 | any text around a deny phrase is classified DENY |
| `Analyzer.LacksLetterRulesOut` | mmllm.py:53-58 | a phrase containing a letter that the text lacks in both cases cannot occur in the lower-cased text |
| `Analyzer.ReviewWithoutKeyLetters` | mmllm.py:56-62 | a reply with no letter n, b or y in either case falls through to REVIEW |
| `Analyzer.YesWithoutLetterOAllows` | mmllm.py:56-59 | a reply containing "yes, " and no letter o is ALLOW, since every deny phrase contains an o |
| `Analyzer.ExampleDeny` | mmllm.py:56-57 | "The vehicle has a roof rack, so it is not allowed." is DENY |
| `Analyzer.ExampleTieBreak` | mmllm.py:56-58 | "Yes, it can be allowed, but actually it's not allowed due to a bike rack." is DENY |
| `Analyzer.ExampleReview` | mmllm.py:60-62 | "Hard to tell without a side view." is REVIEW |
| `Analyzer.ExampleAllow` | mmllm.py:58-59 | the short reply "Yes, fine." is ALLOW although its Y is upper case |
| `Analyzer.AllowNotStableUnderExtension` | mmllm.py:56-59 | unlike DENY, an ALLOW reply can be overturned by appending a deny phrase |
| `Analyzer.AnalysisOf` | mmllm.py:42-49 | the result carries the reply text unchanged, the clock reading, and a decision string that parses to the classifier's decision |
| `EntryDecision.OverrideAnalysis` | decision.py:34 | the override text starts with "MANUAL OVERRIDE by ", ends with the reason, and is exactly as long as prefix, operator id, ": " and reason together |
| `EntryDecision.OverrideReasonRecoverable` | decision.py:34 | given the operator id, the reason can be read back from the override text |
| `EntryDecision.OverrideAnalysisDistinguishesReasons` | decision.py:34 | one operator's overrides with different reasons have different texts |
| `EntryDecision.ExtendsTransitive` | decision.py:18-29 | extending the log by appends is transitive: a log that extends a second one, which extends a third, extends the third |
| `EntryDecision.EntryDecisionSystem.constructor` | decision.py:2-4 | a new system has the given log file name, default "car_wash_entries.log", and the records already in that file |
| `EntryDecision.EntryDecisionSystem.ProcessVehicle` | decision.py:6-14 | returns the analyzer's result unchanged and appends exactly one record. The record has the image path, the result's timestamp, decision and analysis, and no override flag. Earlier records are untouched |
| `EntryDecision.EntryDecisionSystem.LogDecision` | decision.py:16-25 | appends the automated record for the image and result, and nothing else |
| `EntryDecision.EntryDecisionSystem.OverrideDecision` | decision.py:27-39 | returns the new decision unchanged and appends exactly one record. The record has that decision, override set, and the analysis "MANUAL OVERRIDE by <operator>: <reason>". Earlier records are untouched |
| `EntryDecision.OverrideTwice` | decision.py:27-37 | two overrides of one image leave both records, in call order, after the earlier log, which stays a prefix of the new one |
| `Barrier.StepSafe` | barriercontrol.py:7-25 | open, close and a timer going off each keep "open implies a close is pending" |
| `Barrier.RunSafe` | barriercontrol.py:7-25 | any sequence of opens, closes and timers keeps "open implies a close is pending" |
| `Barrier.CloseIdempotent` | barriercontrol.py:15-19 | closing twice gives the same state as closing once |
| `Barrier.OpensAccumulate` | barriercontrol.py:7-13 | n opens leave the barrier open with n more closes pending, so repeated opens are not de-duplicated |
| `Barrier.TimersDrain` | barriercontrol.py:21-25 | from a safe state, once every pending timer has gone off the barrier is closed with nothing pending |
| `Barrier.OpenThenTimerCloses` | barriercontrol.py:5-25 | from the initial state, open then timer ends closed; open, open, timer ends closed with one timer still pending |
| `Barrier.BarrierControl.constructor` | barriercontrol.py:2-5 | a new barrier keeps the given port, default "/dev/ttyUSB0", is CLOSED and has no pending close |
| `Barrier.BarrierControl.OpenBarrier` | barriercontrol.py:7-13 | whatever the prior status, the barrier is OPEN afterwards and exactly one more close is pending |
| `Barrier.BarrierControl.CloseBarrier` | barriercontrol.py:15-19 | the barrier is CLOSED afterwards and the pending closes are unchanged |
| `Barrier.BarrierControl.ScheduleClose` | barriercontrol.py:21-25 | adds exactly one pending close and leaves the status as it was |
| `Barrier.BarrierControl.FireTimer` | barriercontrol.py:21-25 | when a close is pending, one is removed and the barrier is CLOSED; otherwise nothing changes |
| `Gate.JoinPath` | main.py:35 | an absolute name is kept as it is; a relative one follows the directory, with "/" between them exactly when the directory is non-empty and does not already end in "/" |
| `Gate.CapturePathInDirectory` | main.py:35 | a captured file name becomes "./captured_images/<name>" |
| `Gate.CaptureAndAnalyze` | main.py:27-48 | a missing or empty capture gives a 500 error with the log and barrier untouched. Otherwise exactly one automated record is logged for the joined path, and the response has the image, decision and analysis. The barrier opens iff the reply classifies as ALLOW |
| `Gate.Override` | main.py:50-65 | answers "success" with the given decision, logs exactly one override record, and opens the barrier iff the decision is exactly "ALLOW" |
| `Gate.CaptureAllowedVehicle` | main.py:38-42 | for a reply classified ALLOW, the log gains exactly one record with decision "ALLOW" and the barrier is OPEN when the handler returns |

## Left out

- The request to the hosted vision model (mmllm.py:8-40) is left out: client construction, prompt, base64 encoding of the image file and token budget. It is network I/O. The reply text is a parameter of `Gate.CaptureAndAnalyze`, and the analyzer's result is a parameter of `ProcessVehicle`. Transport and API errors, which propagate to the caller in the source, are not modelled.
- Clock reads (`time.time()`, mmllm.py:48 and decision.py:32) are left out; the timestamp is a `real` parameter. Neither file imports `time`, and decision.py does not import `json`, so the code as written would fail at those lines. The model assumes the evidently intended imports.
- JSON serialisation of log lines (decision.py:25, 37) is left out: a record is a datatype and the file is the sequence of its records. An automated record's missing `override` key is `override == false`. The file name is kept but never opened.
- `Text.Lower` lower-cases ASCII letters only, where Python's `str.lower` covers all of Unicode. All six phrases are ASCII and contain none of the letters i or k, the only ASCII letters that a non-ASCII character lower-cases into. So the classification agrees with Python's for every reply, but `Lower` itself differs on non-ASCII text.
- `threading.Timer` and its ten-second delay (barriercontrol.py:24-25) become a count of pending closes plus the `FireTimer` step. Real time, thread scheduling and races between timers are not modelled. The `print` calls (barriercontrol.py:10, 18) and the hardware port are console and device I/O.
- The camera (imagecapture.py) is left out as device I/O: its result is the `captured` parameter of `Gate.CaptureAndAnalyze`.
- Flask routing, request JSON parsing (a missing field raises in the source), `jsonify` and the index page (main.py:1-25, 53, 67-68) are left out as transport wiring.
