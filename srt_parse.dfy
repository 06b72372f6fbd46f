/** The SubRip reader of the dubbing script: the loop that walks the lines of a
    subtitle file, recognises each cue (an all-digit index line followed by a
    `HH:MM:SS,mmm --> HH:MM:SS,mmm` line), joins its text lines, converts both
    timestamps to milliseconds, computes the buffered window and writes the gap
    to this cue back onto the previous one; and the step that then copies the
    buffered window over the raw one. */
module SrtParse {
  import opened Results
  import opened PyText

  /** The exceptions the reading loop can raise; each one aborts the script. */
  datatype ParseError =
    | IndexError  // an index line, or the timestamp line after it, is the last line
    | ValueError  // the end-milliseconds field of the timestamp line is not an integer
    | KeyError    // the back-patch looks up a previous key that was never stored

  /** One value of `subsDict`. `breakUntilNext` is `None` while it still holds the
      `''` placeholder it is created with. */
  datatype Cue = Cue(
    startMs: int, endMs: int, durationMs: int,
    text: string,
    breakUntilNext: Option<int>,
    timestampsLine: string,
    startMsBuffered: int, endMsBuffered: int, durationMsBuffered: int)

  /** `subsDict`: its keys in insertion order, and the value under each key. */
  datatype CueDict = CueDict(keys: seq<string>, cues: map<string, Cue>)

  const EmptyDict := CueDict([], map[])

  /** The keys are those of the map, each listed once. */
  ghost predicate ValidDict(d: CueDict) {
    && (forall i, j :: 0 <= i < j < |d.keys| ==> d.keys[i] != d.keys[j])
    && (forall key :: key in d.cues <==> key in d.keys)
  }

  /** Both durations of a cue are the differences of its boundaries. */
  predicate DurationsMatch(c: Cue) {
    c.durationMs == c.endMs - c.startMs && c.durationMsBuffered == c.endMsBuffered - c.startMsBuffered
  }

  /** What every dictionary the reader builds satisfies: string keys of digits,
      a timestamp line that matched the pattern, and consistent durations. */
  ghost predicate WellParsed(d: CueDict) {
    ValidDict(d) && forall key :: key in d.cues ==> GoodCue(key, d.cues[key])
  }

  /** One entry of a dictionary the reader builds. */
  predicate GoodCue(key: string, c: Cue) {
    IsDigits(key) && MatchesTimeLine(c.timestampsLine) && DurationsMatch(c)
  }

  // ---------------------------------------------------------------- timestamps

  /** `\d\d:\d\d:\d\d,\d\d\d` at position `p`. */
  predicate ClockAt(s: string, p: nat)
    requires p + 12 <= |s|
  {
    && IsDigitChar(s[p]) && IsDigitChar(s[p + 1]) && s[p + 2] == ':'
    && IsDigitChar(s[p + 3]) && IsDigitChar(s[p + 4]) && s[p + 5] == ':'
    && IsDigitChar(s[p + 6]) && IsDigitChar(s[p + 7]) && s[p + 8] == ','
    && IsDigitChar(s[p + 9]) && IsDigitChar(s[p + 10]) && IsDigitChar(s[p + 11])
  }

  /** `re.match(r'\d\d:\d\d:\d\d,\d\d\d --> \d\d:\d\d:\d\d,\d\d\d', s)`: the pattern
      at the start of `s`, whatever follows it. */
  predicate MatchesTimeLine(s: string) {
    |s| >= 29 && ClockAt(s, 0) && s[12..17] == Arrow && ClockAt(s, 17)
  }

  /** `int(hh) * 3600000 + int(mm) * 60000 + int(ss) * 1000 + int(mmm)` for the
      clock at position `p`. */
  function ClockMs(s: string, p: nat): int
    requires p + 12 <= |s| && ClockAt(s, p)
  {
    DigitsValue(s[p..p + 2]) * 3600000 + DigitsValue(s[p + 3..p + 5]) * 60000
      + DigitsValue(s[p + 6..p + 8]) * 1000 + DigitsValue(s[p + 9..p + 12])
  }

  /** Where the end-milliseconds field stops: `time[1]` ends at the next
      separator, `split(':')[2]` at the next colon, `split(',')[1]` at the next comma. */
  function MsFieldEnd(t: string, j: nat): (e: nat)
    requires j <= |t|
    ensures j <= e <= |t|
    decreases |t| - j
  {
    if j == |t| || t[j] == ',' || t[j] == ':' || ArrowAt(t, j) then j else MsFieldEnd(t, j + 1)
  }

  /** The end timestamp in milliseconds, or `None` where `int(...)` of the
      milliseconds field raises `ValueError`. */
  function EndMs(t: string): Option<int>
    requires MatchesTimeLine(t)
  {
    match PyInt(t[26..MsFieldEnd(t, 26)])
    case None => None
    case Some(ms) =>
      Some(DigitsValue(t[17..19]) * 3600000 + DigitsValue(t[20..22]) * 60000 + DigitsValue(t[23..25]) * 1000 + ms)
  }

  /** A line that matches the pattern still matches it once stripped. */
  lemma StripKeepsMatch(s: string)
    requires MatchesTimeLine(s)
    ensures MatchesTimeLine(Strip(s)) && Strip(s)[..29] == s[..29]
  {
    StripKeepsPrefix(s, 29);
    var t := Strip(s);
    assert forall i :: 0 <= i < 29 ==> t[i] == s[i] by {
      forall i | 0 <= i < 29 ensures t[i] == s[i] { assert t[..29][i] == s[..29][i]; }
    }
    assert t[12..17] == s[12..17];
  }

  // ---------------------------------------------------------------- cue text

  /** The lines the `count` loop appends: each following line that is not blank,
      stripped and preceded by a space, up to the first blank line or the end. */
  function MoreText(lines: seq<string>, j: nat): string
    requires j <= |lines|
    decreases |lines| - j
  {
    if j < |lines| && Strip(lines[j]) != "" then " " + Strip(lines[j]) + MoreText(lines, j + 1) else ""
  }

  /** The text of the cue whose index line is `ln`: the line after the timestamp
      line (blank or not) and then the lines `MoreText` appends. */
  function CueText(lines: seq<string>, ln: nat): string
    requires ln + 2 < |lines|
  {
    Strip(lines[ln + 2]) + MoreText(lines, ln + 3)
  }

  // ---------------------------------------------------------------- one line

  /** The value stored for a new cue (lines 151-176): raw boundaries, the
      buffered window, and the `''` placeholder for the gap. */
  function NewCue(t: string, text: string, start: int, end: int, buffer: int): (c: Cue)
    ensures DurationsMatch(c)
  {
    Cue(start, end, end - start, text, None, t,
        if buffer > 0 then start + buffer else start,
        if buffer > 0 then end - buffer else end,
        if buffer > 0 then (end - buffer) - (start + buffer) else end - start)
  }

  /** `d[key] = value`: a new key goes to the end, an existing one keeps its place. */
  function Put(d: CueDict, key: string, c: Cue): CueDict {
    CueDict(if key in d.cues then d.keys else d.keys + [key], d.cues[key := c])
  }

  /** A cue with its gap to the next cue set. */
  function WithGap(c: Cue, gap: int): Cue {
    c.(breakUntilNext := Some(gap))
  }

  /** `d[key]['break_until_next'] = gap` */
  function SetBreak(d: CueDict, key: string, gap: int): CueDict
    requires key in d.cues
  {
    CueDict(d.keys, d.cues[key := WithGap(d.cues[key], gap)])
  }

  /** One iteration of the reading loop, on line number `ln`. */
  function ParseLine(lines: seq<string>, ln: nat, d: CueDict, buffer: int): Result<CueDict, ParseError>
    requires ln < |lines|
  {
    var line := Strip(lines[ln]);
    if !IsDigits(line) then Ok(d)
    else if ln + 1 >= |lines| then Err(IndexError)
    else if !MatchesTimeLine(lines[ln + 1]) then Ok(d)
    else if ln + 2 >= |lines| then Err(IndexError)
    else
      StripKeepsMatch(lines[ln + 1]);
      var t := Strip(lines[ln + 1]);
      match EndMs(t)
      case None => Err(ValueError)
      case Some(end) => StoreCue(d, ln, line, t, CueText(lines, ln), ClockMs(t, 0), end, buffer)
  }

  /** Lines 151-181 once both timestamps are known: store the cue under `key`,
      then write the gap back onto the previous cue, or 0 onto the first one. */
  function StoreCue(d: CueDict, ln: nat, key: string, t: string, text: string, start: int, end: int, buffer: int)
    : Result<CueDict, ParseError>
    requires IsDigits(key)
  {
    var d1 := Put(d, key, NewCue(t, text, start, end, buffer));
    if ln > 0 then
      var prevKey := IntString(DigitsValue(key) - 1);
      if prevKey in d1.cues then Ok(SetBreak(d1, prevKey, start - d1.cues[prevKey].endMs))
      else Err(KeyError)
    else Ok(SetBreak(d1, key, 0))
  }

  /** The reading loop from line `ln` on, starting from dictionary `d`. */
  function ParseFrom(lines: seq<string>, ln: nat, d: CueDict, buffer: int): Result<CueDict, ParseError>
    decreases |lines| - ln
  {
    if ln >= |lines| then Ok(d)
    else
      match ParseLine(lines, ln, d, buffer)
      case Err(e) => Err(e)
      case Ok(d1) => ParseFrom(lines, ln + 1, d1, buffer)
  }

  lemma PutWellParsed(d: CueDict, key: string, c: Cue)
    requires WellParsed(d) && IsDigits(key) && MatchesTimeLine(c.timestampsLine) && DurationsMatch(c)
    ensures WellParsed(Put(d, key, c))
  {
    var d1 := Put(d, key, c);
    if key !in d.cues {
      forall i, j | 0 <= i < j < |d1.keys| ensures d1.keys[i] != d1.keys[j] {
        if j == |d.keys| {
          assert d.keys[i] in d.cues;
        }
      }
    }
  }

  lemma SetBreakWellParsed(d: CueDict, key: string, gap: int)
    requires WellParsed(d) && key in d.cues
    ensures WellParsed(SetBreak(d, key, gap))
  {
  }

  /** Each line of the loop keeps the dictionary well formed. */
  lemma ParseLineWellParsed(lines: seq<string>, ln: nat, d: CueDict, buffer: int)
    requires ln < |lines| && WellParsed(d)
    ensures ParseLine(lines, ln, d, buffer).Ok? ==> WellParsed(ParseLine(lines, ln, d, buffer).value)
  {
    var line := Strip(lines[ln]);
    if IsDigits(line) && ln + 2 < |lines| && MatchesTimeLine(lines[ln + 1]) {
      StripKeepsMatch(lines[ln + 1]);
      var t := Strip(lines[ln + 1]);
      if EndMs(t).Some? {
        StoreCueWellParsed(d, ln, line, t, CueText(lines, ln), ClockMs(t, 0), EndMs(t).value, buffer);
      }
    }
  }

  lemma StoreCueWellParsed(d: CueDict, ln: nat, key: string, t: string, text: string, start: int, end: int, buffer: int)
    requires WellParsed(d) && IsDigits(key) && MatchesTimeLine(t)
    ensures StoreCue(d, ln, key, t, text, start, end, buffer).Ok? ==> WellParsed(StoreCue(d, ln, key, t, text, start, end, buffer).value)
  {
    var c := NewCue(t, text, start, end, buffer);
    var d1 := Put(d, key, c);
    PutWellParsed(d, key, c);
    if ln > 0 {
      var prevKey := IntString(DigitsValue(key) - 1);
      if prevKey in d1.cues {
        var gap := start - d1.cues[prevKey].endMs;
        assert StoreCue(d, ln, key, t, text, start, end, buffer) == Ok(SetBreak(d1, prevKey, gap));
        SetBreakWellParsed(d1, prevKey, gap);
      }
    } else {
      assert StoreCue(d, ln, key, t, text, start, end, buffer) == Ok(SetBreak(d1, key, 0));
      SetBreakWellParsed(d1, key, 0);
    }
  }

  /** Every dictionary the loop produces is well formed. */
  lemma {:induction false} ParseFromWellParsed(lines: seq<string>, ln: nat, d: CueDict, buffer: int)
    requires WellParsed(d)
    ensures ParseFrom(lines, ln, d, buffer).Ok? ==> WellParsed(ParseFrom(lines, ln, d, buffer).value)
    decreases |lines| - ln
  {
    if ln < |lines| {
      ParseLineWellParsed(lines, ln, d, buffer);
      if ParseLine(lines, ln, d, buffer).Ok? {
        ParseFromWellParsed(lines, ln + 1, ParseLine(lines, ln, d, buffer).value, buffer);
      }
    }
  }

  /** The whole file: the dictionary `subsDict` holds after the loop, or the
      exception that stopped it. */
  function ParseSrtSpec(lines: seq<string>, buffer: int): Result<CueDict, ParseError> {
    ParseFrom(lines, 0, EmptyDict, buffer)
  }

  /** Lines 138-148: the first text line, then every following non-blank line
      after a space, up to a blank line or the end of the file. */
  method ReadCueText(lines: seq<string>, lineNum: nat) returns (lineWithSubtitleText: string)
    requires lineNum + 2 < |lines|
    ensures lineWithSubtitleText == CueText(lines, lineNum)
  {
    lineWithSubtitleText := Strip(lines[lineNum + 2]);
    var count := 3;
    while lineNum + count < |lines| && Strip(lines[lineNum + count]) != ""
      invariant 3 <= count && lineNum + count <= |lines|
      invariant lineWithSubtitleText + MoreText(lines, lineNum + count) == CueText(lines, lineNum)
      decreases |lines| - count
    {
      var next := Strip(lines[lineNum + count]);
      assert MoreText(lines, lineNum + count) == " " + next + MoreText(lines, lineNum + count + 1);
      lineWithSubtitleText := lineWithSubtitleText + " " + next;
      count := count + 1;
    }
  }

  /** `str(v - 1)` never names the key `line` whose value is `v`. */
  lemma PrevKeyDiffers(line: string, v: int)
    requires IsDigits(line) && v == DigitsValue(line)
    ensures IntString(v - 1) != line
  {
    if v > 0 {
      assert IntString(v - 1) == DecimalString(v - 1);
      DecimalStringOther(v - 1, line);
    } else {
      NegativeNotDigits(v - 1);
    }
  }

  /** Lines 151-181: store the new cue under `line` (a new key goes to the
      end), then write the gap back onto the cue under `str(int(line) - 1)`,
      which raises `KeyError` when there is none, or write 0 onto the cue
      just stored when it comes from the first line of the file. */
  method StoreParsedCue(subsDict: CueDict, lineNum: nat, line: string, lineWithTimestamps: string,
                        lineWithSubtitleText: string, startMs: int, endMs: int, buffer: int)
    returns (r: Result<CueDict, ParseError>)
    requires IsDigits(line)
    ensures var prevKey := IntString(DigitsValue(line) - 1);
      r.Err? <==> lineNum > 0 && prevKey !in subsDict.cues
    ensures r.Err? ==> r.error == KeyError
    ensures r.Ok? ==> r.value.keys == if line in subsDict.cues then subsDict.keys else subsDict.keys + [line]
    ensures r.Ok? ==> r.value.cues.Keys == subsDict.cues.Keys + {line}
    ensures r.Ok? ==> r.value.cues[line] == NewCue(lineWithTimestamps, lineWithSubtitleText, startMs, endMs, buffer)
                                              .(breakUntilNext := if lineNum == 0 then Some(0) else None)
    ensures var prevKey := IntString(DigitsValue(line) - 1);
      r.Ok? && lineNum > 0 ==>
        r.value.cues[prevKey] == subsDict.cues[prevKey].(breakUntilNext := Some(startMs - subsDict.cues[prevKey].endMs))
    ensures var prevKey := IntString(DigitsValue(line) - 1);
      r.Ok? ==> forall key :: key in subsDict.cues && key != line && (lineNum > 0 ==> key != prevKey) ==>
        r.value.cues[key] == subsDict.cues[key]
    ensures r == StoreCue(subsDict, lineNum, line, lineWithTimestamps, lineWithSubtitleText, startMs, endMs, buffer)
  {
    PrevKeyDiffers(line, DigitsValue(line));
    var d := Put(subsDict, line, NewCue(lineWithTimestamps, lineWithSubtitleText, startMs, endMs, buffer));
    if lineNum > 0 {
      var prevKey := IntString(DigitsValue(line) - 1);
      if prevKey !in d.cues {
        return Err(KeyError);
      }
      d := SetBreak(d, prevKey, startMs - d.cues[prevKey].endMs);
    } else {
      d := SetBreak(d, line, 0);
    }
    return Ok(d);
  }

  /** The reading loop of lines 134-181, with its inner `count` loop. */
  method ParseSrt(lines: seq<string>, buffer: int) returns (r: Result<CueDict, ParseError>)
    ensures r == ParseSrtSpec(lines, buffer)
  {
    var subsDict := EmptyDict;
    for lineNum := 0 to |lines|
      invariant ParseFrom(lines, lineNum, subsDict, buffer) == ParseSrtSpec(lines, buffer)
    {
      ghost var before := subsDict;
      var line := Strip(lines[lineNum]);
      if IsDigits(line) {
        if lineNum + 1 >= |lines| {
          return Err(IndexError);
        }
        if MatchesTimeLine(lines[lineNum + 1]) {
          if lineNum + 2 >= |lines| {
            return Err(IndexError);
          }
          StripKeepsMatch(lines[lineNum + 1]);
          var lineWithTimestamps := Strip(lines[lineNum + 1]);
          var lineWithSubtitleText := ReadCueText(lines, lineNum);
          var startMs := ClockMs(lineWithTimestamps, 0);
          var endMs := EndMs(lineWithTimestamps);
          if endMs.None? {
            return Err(ValueError);
          }
          assert ParseLine(lines, lineNum, before, buffer)
              == StoreCue(subsDict, lineNum, line, lineWithTimestamps, lineWithSubtitleText, startMs, endMs.value, buffer);
          var stored := StoreParsedCue(subsDict, lineNum, line, lineWithTimestamps, lineWithSubtitleText, startMs, endMs.value, buffer);
          if stored.Err? {
            return stored;
          }
          subsDict := stored.value;
        }
      }
      assert ParseLine(lines, lineNum, before, buffer) == Ok(subsDict);
    }
    return Ok(subsDict);
  }

  // ---------------------------------------------------------------- buffer step

  /** Lines 365-369 for one cue: with a positive buffer, the buffered window
      replaces the raw one; the gap keeps its unbuffered value. */
  function Buffered(c: Cue, buffer: int): Cue {
    if buffer > 0 then c.(startMs := c.startMsBuffered, endMs := c.endMsBuffered, durationMs := c.durationMsBuffered)
    else c
  }

  /** The buffer loop of lines 365-369 over every entry of `subsDict`. */
  method ApplyBuffer(d: CueDict, buffer: int) returns (r: CueDict)
    requires ValidDict(d)
    ensures r.keys == d.keys && r.cues.Keys == d.cues.Keys
    ensures forall key :: key in d.cues ==> r.cues[key] == Buffered(d.cues[key], buffer)
  {
    var cues := d.cues;
    for i := 0 to |d.keys|
      invariant cues.Keys == d.cues.Keys
      invariant forall j :: 0 <= j < i ==> cues[d.keys[j]] == Buffered(d.cues[d.keys[j]], buffer)
      invariant forall j :: i <= j < |d.keys| ==> cues[d.keys[j]] == d.cues[d.keys[j]]
    {
      var key := d.keys[i];
      var value := cues[key];
      if buffer > 0 {
        cues := cues[key := value.(startMs := value.startMsBuffered, endMs := value.endMsBuffered,
                                   durationMs := value.durationMsBuffered)];
      }
    }
    return CueDict(d.keys, cues);
  }

  /** Buffering keeps both durations equal to the differences of the boundaries
      and never touches the gap: that stays the unbuffered one. */
  lemma BufferedKeepsDurations(c: Cue, buffer: int)
    requires DurationsMatch(c)
    ensures DurationsMatch(Buffered(c, buffer))
    ensures Buffered(c, buffer).breakUntilNext == c.breakUntilNext
    ensures Buffered(c, buffer).text == c.text && Buffered(c, buffer).timestampsLine == c.timestampsLine
  {
  }
}
