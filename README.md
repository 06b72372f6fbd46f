# Subtitle merge engine — a Dafny model

This project models the subtitle-handling core of a dubbing script
(`main.py`). The core has five parts:

- **The SubRip reader.** It walks the lines of a subtitle file and finds each
  cue: an all-digit index line, then a `HH:MM:SS,mmm --> HH:MM:SS,mmm` line,
  then text lines up to a blank line. It converts both clocks to
  milliseconds. It computes a window narrowed by a buffer on both sides. It
  writes the gap to each new cue back onto the cue before it.
- **The buffer step.** It copies the buffered window over the raw one.
- **The speaking rates.** Each entry gets a rate, in characters of
  translated text per second, and that rate's distance from the goal of 20.
- **The merge engine.** This is `combine_subtitles_advanced` with its nested
  `combine_single_pass`, `combine_with_next` and `combine_with_prev`.
  - It turns the cue dictionary into a list and ranks the entries by distance
    from the goal.
  - At the first rank whose gates are open, it fuses the entry at that
    position with its next or previous neighbour, then starts over.
  - It runs two such passes and numbers the result from 1 again.
- **The translated subtitle file.** It writes four lines per entry: number,
  timestamp line, translated text and a blank line.

Each module of the model follows one of these parts:

- `results.dfy`: the `Option` and `Result` wrappers. Every Python exception
  that aborts the script becomes an `Err` value.
- `py_text.dfy`: the Python string operations the core relies on:
  - `strip` and `isdigit`;
  - `int` of a digit string and `str` of a number;
  - the split of a timestamp line at `' --> '`.
- `srt_parse.dfy`: the reading loop. `ParseSrt` is a method, with the loop
  and its inner text loop. `ParseSrtSpec` is the recursive reading that
  specifies it. `ApplyBuffer` is the buffer step.
- `srt_round_trip.dfy`: what the reader makes of a file laid out as SubRip
  blocks. Every key comes in file order, with the cue its block states, and
  the gaps are back-patched.
- `speaking_rate.dfy`: the entry record and the rate formula.
  - `CalcListSpeakingRates` is the rate loop.
  - `PriorityOrder` is the stable descending sort.
- `merge_pass.dfy`: one pass of the merge engine.
  - `Decide` is one iteration of the `for` loop, with all of its gates.
  - `Sweep` is the loop up to its first fusion.
  - `Round` is one iteration of the `while` loop.
  - `Pass` is the whole pass.
  - `RunRound` and `CombineSinglePass` are the loops themselves, each proved
    equal to its function.
  - The lemmas state what a pass keeps: every timestamp line still splits at
    its separator, every gap but the last is set, every timestamp line still
    holds two clocks, and the weight is unchanged: the total length of the
    translated text plus one per entry. On a list whose timestamp lines all
    split and whose gaps are all set but the last, the only exception a pass
    can raise is a division by zero. A well-formed file (blocks numbered
    `1..n`, each once, with valid clocks and plain text) gives such a list.
  - `WrapAroundFusion` shows what rank 0 does with `entryListLocal[-1]`.
- `merge_engine.dfy`: the parts around the passes, and two lemmas over the
  whole pipeline.
  - The parts: building the entry list, the two passes, the numbering from 1,
    and the file written.
  - `OutputReadsBack` says what reading the written file back gives.
  - `RenderedFileMerges` says what combining a well-formed file the reader
    has read gives.

Python values are modelled as follows:

- Python integers are unbounded, as Dafny's `int` is.
- Rates are exact rationals (`real`).
- Strings are `seq<char>`.
- A file is a sequence of lines, each with its line terminator, as
  `readlines` returns them.
- The dictionary `combine_subtitles_advanced` returns,
  `dict(enumerate(entryList3, start=1))`, is represented by the list
  `entryList3` itself: `Numbered` proves that key `k` holds the list's
  element `k - 1`. The writer `WriteTranslatedSrt` therefore iterates over
  the list, with key `k` for element `k - 1`.

## Model

| member | source | states |
|---|---|---|
| SrtParse.ParseSrt | main.py:134-181 | The reading loop, with its inner text loop and the store of each cue, returns exactly what the line-by-line reading `ParseSrtSpec` gives: the cue dictionary, or the first `IndexError`, `ValueError` or `KeyError` it raises |
| SrtParse.ReadCueText | main.py:138-148 | The inner `while True` loop yields the first text line, joined by single spaces to every following non-blank stripped line before the first blank line or the end of the file |
| SrtParse.StoreParsedCue | main.py:151-181 | It raises `KeyError` exactly when the cue is not from the first line and no cue is stored under `str(int(line) - 1)`. Otherwise `line` joins the keys at the end if it is new and keeps its place if not. Its cue has the raw and buffered windows and the text, with gap 0 if it comes from the first line and the placeholder otherwise. The previous cue's gap becomes this cue's start minus that cue's end. Every other cue is unchanged |
| SrtParse.ParseFromWellParsed | main.py:134-181 | Every dictionary the reader builds has keys listed once, digit-only keys, timestamp lines that match the regex, and durations equal to end minus start, both raw and buffered |
| SrtParse.StoreCueWellParsed | main.py:151-181 | Storing one cue, including the back-patch, keeps the dictionary well formed |
| SrtParse.ApplyBuffer | main.py:365-369 | The buffer loop keeps the keys and their order, and replaces every cue by its buffered form: the buffered window when the buffer is positive, the cue unchanged otherwise |
| SrtParse.BufferedKeepsDurations | main.py:365-369 | After the buffer step, durations still equal end minus start; the gap, the text and the timestamp line are unchanged |
| SrtRoundTrip.TimeLineValue | main.py:153-160 | A timestamp line formatted from two valid clocks matches the regex, and its two fields convert to the clocks' milliseconds, including the end field, read to the end of the line |
| SrtRoundTrip.EndMsExact | main.py:153-160 | On a timestamp line with nothing after its second clock, the end-milliseconds conversion gives exactly that clock's value |
| SrtRoundTrip.ParseLaidOut | main.py:134-181 | Lines holding well-formed blocks at their offsets read without error into keys `1..n` in file order, each holding its block's clocks in ms, joined text, buffered window and back-patched gap |
| SrtRoundTrip.ParseRendered | main.py:134-181 | A rendered file of well-formed blocks reads as the expected cues: every block's key, clocks, text, buffered window and gap to the next block |
| SrtRoundTrip.ParseReadable | main.py:134-181 | The same holds for any file whose timestamp lines read as their clocks and whose text lines are plain, however the clocks are written |
| SpeakingRate.WithRate | main.py:359-361 | An entry's rate times its duration is its translated length times 1000, its distance is the absolute difference from the goal (zero exactly at the goal), and nothing else changes |
| SpeakingRate.CalcListSpeakingRates | main.py:355-362 | The rate loop fails with `ZeroDivisionError` exactly when some entry lasts 0 ms; otherwise it returns the list with every rate and distance written in and every other field kept |
| SpeakingRate.PriorityOrderSorted | main.py:205 | The priority order sorts by decreasing distance from the goal and is a permutation of the list |
| SpeakingRate.PriorityOrderStable | main.py:205 | The sort is stable: entries at the same distance come in list order |
| MergePass.PrevIndex | main.py:233 | `entryListLocal[i-1]` is entry `i-1`, or the last entry when `i` is 0 |
| MergePass.Fuse | main.py:245-251 | Fusing two entries raises `IndexError` exactly when the absorbed entry's timestamp line has no `' --> '`. Otherwise the result keeps the first entry's start, gap and other fields, takes the second's ends, recomputes both durations, joins both texts with a space, and splices the two timestamp lines |
| MergePass.CombineWithNext | main.py:244-252 | The entry at `i` absorbs the one at `i+1`, which is deleted; the list shrinks by one, and the entries before and after the pair are unchanged |
| MergePass.CombineWithPrev | main.py:254-262 | The entry at `i-1` absorbs the one at `i`. At `i = 0` the last entry absorbs the first and ends the list, and all other entries keep their order |
| MergePass.Decide | main.py:209-330 | One rank of the sweep. A candidate at the goal is skipped. `TypeError` occurs only for an unset gap in the next check, which is outside a `try`. A neighbour is chosen only through its gates (rate toward the goal, gap under 100, combined length within the maximum). With both open, the closer rate wins and a tie goes to the previous entry. With neither open, the rank is skipped. A single-entry list never fuses |
| MergePass.FusionGated | main.py:266-329 | A fusion the sweep chooses joins only a pair that passed the gates. The entry it leaves has at most `maxCharacters + 1` characters of translated text, because the joining space is not counted by the gate. Its gap is below 100 |
| MergePass.Sweep | main.py:209-330 | The sweep fuses at the first rank whose decision is not a skip, after skipping every earlier rank. It reports no fusion only when every rank skips, and fails only when some rank's decision fails |
| MergePass.Round | main.py:200-330 | One iteration of the `while` loop never empties the list. It restarts only after a fusion, which removes exactly one entry |
| MergePass.Pass | main.py:195-334 | A pass never grows or empties the list |
| MergePass.RunRound | main.py:200-330 | The rate, sort and `for` loop with its `break` and `reachedEndOfList` flag compute exactly one `Round` |
| MergePass.CombineSinglePass | main.py:195-334 | The `while not reachedEndOfList` loop computes exactly `Pass`, and its result has between 1 and the input's number of entries |
| MergePass.CombineKeeps | main.py:244-262 | Either fusion keeps three things: every timestamp line splittable, every gap but the last set, every timestamp line made of two clocks. It also keeps the weight: the total translated length plus one per entry, since each fusion adds one space and removes one entry |
| MergePass.RatesKeep | main.py:355-362 | Rating keeps the list's length and every entry's cue (so its timestamp line and gap) and translated text, and with them the three invariants and the weight |
| MergePass.PriorityOrderMembers | main.py:205 | The priority order has the list's length and holds only entries of the list |
| MergePass.SweepSafe | main.py:264-286 | On a list whose gaps are set, except possibly the last, the sweep raises no `TypeError` |
| MergePass.RoundKeeps | main.py:200-330 | A round keeps splittable timestamp lines, set gaps and two-clock timestamp lines, and it keeps the weight of the texts |
| MergePass.RoundSafe | main.py:200-330 | On a list with splittable lines and set gaps, a round can raise only `ZeroDivisionError` |
| MergePass.PassKeeps | main.py:195-334 | A whole pass keeps what every round keeps, and on such a list can raise only `ZeroDivisionError` |
| MergePass.WrapAroundFusion | main.py:232-262 | On two cues at equal distance from the goal whose gaps are both set and below 100 (the last cue's included, which the reader leaves unset in a file of two or more cues and only an earlier fusion can set), rank 0 sees the second cue as both neighbours and fuses with the previous entry. The pass ends with one entry that starts at 3 s, ends at 2 s, lasts -1 s, and has its texts reversed |
| MergeEngine.MakeEntry | main.py:192 | `int(key) - 1` is the original index when the stripped key is all digits; otherwise the result is `ValueError`. The cue and its translation are kept |
| MergeEngine.EntryList | main.py:190-193 | The dictionary becomes a list in key order with the cue and translation of each key, or `ValueError` exactly when some key is not an integer |
| MergeEngine.ToEntryList | main.py:190-193 | The loop over the dictionary's items computes exactly `EntryList` |
| MergeEngine.TwoPasses | main.py:340-341 | Two passes never grow or empty the list |
| MergeEngine.TwoPassesKeep | main.py:340-341 | On a list with splittable lines and set gaps, both passes raise only `ZeroDivisionError`, keep the weight (total translated length plus one per entry), and keep two-clock timestamp lines |
| MergeEngine.CombineAdvanced | main.py:185-344 | Combining a non-empty dictionary yields between 1 and as many entries as it had keys |
| MergeEngine.CombineSubtitlesAdvanced | main.py:185-344 | The function's body (building the list, then two passes) computes exactly `CombineAdvanced` |
| MergeEngine.Numbered | main.py:344 | `dict(enumerate(..., start=1))` has exactly the keys `1..n`, with the `k`-th entry under key `k` |
| MergeEngine.WriteTranslatedSrt | main.py:463-475 | The write loop emits, for keys `1..n` in order, the number, the timestamp line, the translated text and a blank line, which is four lines per entry |
| MergeEngine.RecordsLength | main.py:464-475 | The file written has four lines per entry |
| MergeEngine.RecordsRender | main.py:464-475 | The file written is the SubRip rendering of one block per entry, with that entry's timestamp line and translated text |
| MergeEngine.ParseRecords | main.py:464-475 | The file written reads back without error as one cue per entry |
| MergeEngine.OutputReadsBack | main.py:464-475 | When every timestamp line holds two clocks and every translated text is a plain line, reading the written file back gives keys `1..n`. Each key holds the entry's translated text and timestamp line, and its start and end in ms |
| MergeEngine.NumberedEntries | main.py:190-193 | A dictionary keyed `1..n` in order, with well-formed timestamp lines and every gap but the last set, becomes entries with original index `k` at position `k` that meet the preconditions of `TwoPassesKeep` |
| MergeEngine.ParsedEntries | main.py:190-193 | Reading a rendered file, then buffering it, gives a dictionary whose entry list builds without error, with original indices `0..n-1`, two-clock timestamp lines and set gaps |
| MergeEngine.RenderedFileMerges | main.py:185-344 | Combining the cues read from a rendered file and buffered can raise only `ZeroDivisionError`. Its result keeps the weight (total translated length plus one per entry) and has only two-clock timestamp lines |

## Left out

- Rounding: `calc_list_speaking_rates` rounds the rate and its distance to two decimals with floating point. The model uses exact rationals, with three consequences. Two rates the source rounds to the same value may be ranked apart here. A rate within 0.005 of 20 is rounded to 20.0 and skipped by the source (line 216), while the model may fuse it. And the `not nextDiff` / `not prevDiff` tests (lines 268-284) see a zero difference between two rounded rates that the model sees as non-zero.
- `calc_dict_speaking_rates` (lines 349-353) is not part of this model: `main.py` defines it but never calls it.
- File I/O: reading the subtitle file, writing the output file, creating folders and the `with open` scope are not modelled. The reader takes the file's lines as a parameter, and the writer returns the lines it would write.
- Configuration: the buffer and the maximum characters come from a configuration file and are parameters here.
- Translation: the translation service call and `translate_dictionary` are not modelled; the translated texts are a parameter, one per key in key order.
- Audio and external tools: text-to-speech, `ffprobe` and the audio assembly are not modelled.
- Printed output: the debug lines of lines 468-474 and every `print` (among them the "should not reach this point" branches, which only print and continue) are not modelled.
- Stored types: the reader stores its numbers as decimal strings and the engine reads them back with `int(...)`; the model stores the integers themselves.
- Lines: text containing a line break is kept as one line; the written file is modelled as a sequence of lines, so a fused text is never re-split into more lines.
- Digits: `str.isdigit`, `int()` and the `\d` of the timestamp pattern (line 125) are modelled for the ASCII digits `0`-`9` only (with surrounding whitespace for `int()`); Unicode digits, and the signs and underscores `int()` also accepts, are not modelled.
- MergePass.Pass: requires a non-empty list, because on an empty list `combine_single_pass` never sets `reachedEndOfList` and loops forever.
- MergeEngine.CombineAdvanced: requires a non-empty dictionary, for the same reason.
- Aliasing: the source writes `originalIndex` into the values of the input dictionary in place, and the list entries share those values until `calc_list_speaking_rates` deep-copies them; the model works on values and builds new entries, so that side effect on the input dictionary is not captured.
- MergeEngine.OutputReadsBack: requires every translated text to be a plain line, because a fused text such as `a + ' ' + b` can itself match the timestamp pattern or be blank, and then the written file reads back differently.
