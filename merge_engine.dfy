/** `combine_subtitles_advanced` (lines 185-344) and the translated subtitle
    file written from its result (lines 464-467, 475): the cue dictionary is
    turned into a list of entries, each remembering its position through the
    integer value of its key, two passes of the merge engine run on it, the
    result is numbered from 1 again, and each numbered entry is written as a
    block of four lines: its number, its timestamp line, its translated text
    and a blank line.

    The returned dictionary `dict(enumerate(entryList3, start=1))` is
    represented by the list of its values in key order: the value under key
    `k` is the list's element `k - 1` (`Numbered` says so). */
module MergeEngine {
  import opened Results
  import opened PyText
  import SrtParse
  import SrtRoundTrip
  import opened SpeakingRate
  import opened MergePass

  // ---------------------------------------------------------------- dictionary to list

  /** The entry made of the cue stored under `key` and its translation:
      `int(key) - 1` as its original index, which raises `ValueError` for a
      key that is not an integer. */
  function MakeEntry(key: string, c: SrtParse.Cue, translated: string): (r: Result<Entry, MergeError>)
    ensures r.Ok? <==> IsDigits(Strip(key))
    ensures r.Err? ==> r.error == ValueError
    ensures r.Ok? ==> r.value.cue == c && r.value.translatedText == translated
    ensures r.Ok? ==> r.value.originalIndex + 1 == DigitsValue(Strip(key))
  {
    match PyInt(key)
    case None => Err(ValueError)
    case Some(v) => Ok(Entry(c, translated, v - 1, 0.0, 0.0))
  }

  /** Every key of the dictionary is an integer string. */
  predicate IntegerKeys(keys: seq<string>) {
    forall k :: 0 <= k < |keys| ==> IsDigits(Strip(keys[k]))
  }

  /** The list that lines 189-192 build: one entry per key, in the
      dictionary's order, or the `ValueError` of the first key that is not an
      integer. `translations[k]` is the `translated_text` stored under the
      `k`-th key. */
  function EntryList(d: SrtParse.CueDict, translations: seq<string>): (r: Result<seq<Entry>, MergeError>)
    requires SrtParse.ValidDict(d) && |translations| == |d.keys|
    ensures r.Ok? <==> IntegerKeys(d.keys)
    ensures r.Err? ==> r.error == ValueError
    ensures r.Ok? ==> |r.value| == |d.keys| && forall k :: 0 <= k < |r.value| ==>
      && r.value[k].cue == d.cues[d.keys[k]]
      && r.value[k].translatedText == translations[k]
      && r.value[k].originalIndex + 1 == DigitsValue(Strip(d.keys[k]))
  {
    if IntegerKeys(d.keys) then
      Ok(seq(|d.keys|, k requires 0 <= k < |d.keys| => MakeEntry(d.keys[k], d.cues[d.keys[k]], translations[k]).value))
    else Err(ValueError)
  }

  /** Lines 189-192: the loop over `inputDict.items()` that gives each value
      its original index and appends it to `entryList`. */
  method ToEntryList(inputDict: SrtParse.CueDict, translations: seq<string>) returns (r: Result<seq<Entry>, MergeError>)
    requires SrtParse.ValidDict(inputDict) && |translations| == |inputDict.keys|
    ensures r == EntryList(inputDict, translations)
  {
    var entryList: seq<Entry> := [];
    for i := 0 to |inputDict.keys|
      invariant |entryList| == i
      invariant forall k :: 0 <= k < i ==>
        && MakeEntry(inputDict.keys[k], inputDict.cues[inputDict.keys[k]], translations[k]).Ok?
        && entryList[k] == MakeEntry(inputDict.keys[k], inputDict.cues[inputDict.keys[k]], translations[k]).value
    {
      var key := inputDict.keys[i];
      var value := MakeEntry(key, inputDict.cues[key], translations[i]);
      if value.Err? {
        return Err(value.error);
      }
      entryList := entryList + [value.value];
    }
    assert entryList == seq(|inputDict.keys|, k requires 0 <= k < |inputDict.keys| =>
      MakeEntry(inputDict.keys[k], inputDict.cues[inputDict.keys[k]], translations[k]).value);
    return Ok(entryList);
  }

  // ---------------------------------------------------------------- two passes

  /** What `combine_subtitles_advanced` returns: two passes of the merge
      engine over the entry list. An empty dictionary is excluded: on it the
      first pass never leaves its `while` loop. */
  function CombineAdvanced(d: SrtParse.CueDict, translations: seq<string>, maxChars: int): (r: Result<seq<Entry>, MergeError>)
    requires SrtParse.ValidDict(d) && |translations| == |d.keys| && |d.keys| > 0
    ensures r.Ok? ==> 0 < |r.value| <= |d.keys|
  {
    match EntryList(d, translations)
    case Err(e) => Err(e)
    case Ok(entryList) => TwoPasses(entryList, maxChars)
  }

  /** Lines 340-341: `combine_single_pass` on the entry list, then on its result. */
  function TwoPasses(entryList: seq<Entry>, maxChars: int): (r: Result<seq<Entry>, MergeError>)
    requires |entryList| > 0
    ensures r.Ok? ==> 0 < |r.value| <= |entryList|
  {
    match Pass(entryList, maxChars)
    case Err(e) => Err(e)
    case Ok(entryList2) => Pass(entryList2, maxChars)
  }

  /** Both passes keep the timestamp lines two clocks and the weight of the
      texts, and on a list whose lines split and whose gaps are set the only
      exception they can raise is the division by zero of an entry that lasts
      0 ms. */
  lemma TwoPassesKeep(entryList: seq<Entry>, maxChars: int)
    requires |entryList| > 0 && Arrowed(entryList) && GapsSet(entryList)
    ensures TwoPasses(entryList, maxChars).Err? ==> TwoPasses(entryList, maxChars).error == ZeroDivisionError
    ensures TwoPasses(entryList, maxChars).Ok? ==>
      && Weight(TwoPasses(entryList, maxChars).value) == Weight(entryList)
      && (Stamped(entryList) ==> Stamped(TwoPasses(entryList, maxChars).value))
  {
    PassKeeps(entryList, maxChars);
    if Pass(entryList, maxChars).Ok? {
      PassKeeps(Pass(entryList, maxChars).value, maxChars);
    }
  }

  /** Lines 185-341: build the list and run `combine_single_pass` twice. The
      numbering from 1 of line 344 is `Numbered`, applied to this result. */
  method CombineSubtitlesAdvanced(inputDict: SrtParse.CueDict, translations: seq<string>, maxCharacters: int)
    returns (r: Result<seq<Entry>, MergeError>)
    requires SrtParse.ValidDict(inputDict) && |translations| == |inputDict.keys| && |inputDict.keys| > 0
    ensures r == CombineAdvanced(inputDict, translations, maxCharacters)
    ensures r.Ok? ==> 0 < |r.value| <= |inputDict.keys|
  {
    var entryList := ToEntryList(inputDict, translations);
    if entryList.Err? {
      return Err(entryList.error);
    }
    var entryList2 := CombineSinglePass(entryList.value, maxCharacters);
    if entryList2.Err? {
      return Err(entryList2.error);
    }
    r := CombineSinglePass(entryList2.value, maxCharacters);
  }

  /** `dict(enumerate(entryList3, start=1))`: the entries under the keys
      `1` to `n`, in list order. */
  function Numbered(entries: seq<Entry>): (m: map<int, Entry>)
    ensures forall key :: key in m <==> 1 <= key <= |entries|
    ensures forall key :: 1 <= key <= |entries| ==> m[key] == entries[key - 1]
    decreases |entries|
  {
    if entries == [] then map[] else Numbered(entries[..|entries| - 1])[|entries| := entries[|entries| - 1]]
  }

  // ---------------------------------------------------------------- the file written

  /** Lines 464-467 and 475 for the entry under `key`: its number, its
      timestamp line, its translated text and a blank line, each ended by a
      line terminator. The debug lines of 468-474 are not written. */
  function RecordLines(key: nat, e: Entry): seq<string> {
    [DecimalString(key) + "\n", e.cue.timestampsLine + "\n", e.translatedText + "\n", "\n"]
  }

  /** The lines of the whole file: the records of the entries under keys `1`
      to `n`, in key order. */
  function Records(entries: seq<Entry>): seq<string>
    decreases |entries|
  {
    if entries == [] then []
    else Records(entries[..|entries| - 1]) + RecordLines(|entries|, entries[|entries| - 1])
  }

  /** Lines 463-475: the loop over the keys of the combined dictionary that
      writes one record per entry. */
  method WriteTranslatedSrt(combinedProcessedDict: seq<Entry>) returns (f: seq<string>)
    ensures f == Records(combinedProcessedDict)
    ensures |f| == 4 * |combinedProcessedDict|
  {
    f := [];
    for key := 1 to |combinedProcessedDict| + 1
      invariant f == Records(combinedProcessedDict[..key - 1])
    {
      var value := combinedProcessedDict[key - 1];
      f := f + [DecimalString(key) + "\n"];
      f := f + [value.cue.timestampsLine + "\n"];
      f := f + [value.translatedText + "\n"];
      f := f + ["\n"];
      assert combinedProcessedDict[..key][..key - 1] == combinedProcessedDict[..key - 1];
    }
    assert combinedProcessedDict[..|combinedProcessedDict|] == combinedProcessedDict;
    RecordsLength(combinedProcessedDict);
  }

  lemma {:induction false} RecordsLength(entries: seq<Entry>)
    ensures |Records(entries)| == 4 * |entries|
    decreases |entries|
  {
    if entries != [] {
      RecordsLength(entries[..|entries| - 1]);
    }
  }

  // ---------------------------------------------------------------- reading the file back

  /** The block a record states: a timestamp line whose clocks are read as
      plain milliseconds, and the translated text as its one text line. */
  function RecordBlock(e: Entry): SrtRoundTrip.SrtBlock
    requires SrtRoundTrip.WellFormedTimeLine(e.cue.timestampsLine)
  {
    var t := e.cue.timestampsLine;
    SrtRoundTrip.SrtBlock(SrtRoundTrip.Clock(0, 0, 0, SrtParse.ClockMs(t, 0)), SrtRoundTrip.Clock(0, 0, 0, SrtParse.ClockMs(t, 17)), t, [e.translatedText])
  }

  /** What the written file needs to be read back: timestamp lines of two
      clocks, and translated texts the reader keeps as they are. */
  predicate Writable(entries: seq<Entry>) {
    forall k :: 0 <= k < |entries| ==>
      SrtRoundTrip.WellFormedTimeLine(entries[k].cue.timestampsLine) && SrtRoundTrip.PlainLine(entries[k].translatedText)
  }

  function RecordBlocks(entries: seq<Entry>): (r: seq<SrtRoundTrip.SrtBlock>)
    requires Writable(entries)
    ensures |r| == |entries|
  {
    seq(|entries|, k requires 0 <= k < |entries| => RecordBlock(entries[k]))
  }

  /** A record is the block of its entry. */
  lemma RecordIsBlock(key: nat, e: Entry)
    requires SrtRoundTrip.WellFormedTimeLine(e.cue.timestampsLine)
    ensures RecordLines(key, e) == SrtRoundTrip.BlockLines(key, RecordBlock(e))
  {
    assert SrtRoundTrip.Terminated([e.translatedText]) == [e.translatedText + "\n"];
  }

  /** The records are a subtitle file in the layout the reader expects. */
  lemma {:induction false} RecordsRender(entries: seq<Entry>)
    requires Writable(entries)
    ensures Records(entries) == SrtRoundTrip.Render(RecordBlocks(entries))
    decreases |entries|
  {
    if entries != [] {
      var n := |entries|;
      var init, blocks := entries[..n - 1], RecordBlocks(entries);
      RecordsRender(init);
      assert blocks[..n - 1] == RecordBlocks(init);
      RecordIsBlock(n, entries[n - 1]);
      assert SrtRoundTrip.Render(blocks) == SrtRoundTrip.Render(blocks[..n - 1]) + SrtRoundTrip.BlockLines(n, blocks[n - 1]);
    }
  }

  /** A record reads back as its timestamp line and its text. */
  lemma RecordReads(e: Entry)
    requires SrtRoundTrip.WellFormedTimeLine(e.cue.timestampsLine) && SrtRoundTrip.PlainLine(e.translatedText)
    ensures SrtRoundTrip.ReadableBlock(RecordBlock(e))
  {
    SrtRoundTrip.EndMsExact(e.cue.timestampsLine);
  }

  /** Reading the written file yields the cues of its record blocks. */
  lemma ParseRecords(entries: seq<Entry>, buffer: int)
    requires Writable(entries)
    ensures SrtParse.ParseSrtSpec(Records(entries), buffer).Ok?
    ensures SrtRoundTrip.ParsedAs(SrtParse.ParseSrtSpec(Records(entries), buffer).value, RecordBlocks(entries), |entries|, buffer)
  {
    var blocks := RecordBlocks(entries);
    forall j | 0 <= j < |blocks| ensures SrtRoundTrip.ReadableBlock(blocks[j]) {
      RecordReads(entries[j]);
    }
    RecordsRender(entries);
    SrtRoundTrip.ParseReadable(blocks, buffer);
  }

  /** What the reader holds for the `k`-th record: the record's key, text,
      timestamp line and clocks. */
  lemma RecordCue(entries: seq<Entry>, buffer: int, d: SrtParse.CueDict, k: nat)
    requires Writable(entries) && k < |entries|
    requires SrtRoundTrip.ParsedAs(d, RecordBlocks(entries), |entries|, buffer)
    ensures d.keys[k] == DecimalString(k + 1) && d.keys[k] in d.cues
    ensures d.cues[d.keys[k]].text == entries[k].translatedText
    ensures d.cues[d.keys[k]].timestampsLine == entries[k].cue.timestampsLine
    ensures d.cues[d.keys[k]].startMs == SrtParse.ClockMs(entries[k].cue.timestampsLine, 0)
    ensures d.cues[d.keys[k]].endMs == SrtParse.ClockMs(entries[k].cue.timestampsLine, 17)
  {
    var blocks := RecordBlocks(entries);
    assert d.cues[d.keys[k]] == SrtRoundTrip.ExpectedCue(blocks, k, |blocks|, buffer);
    assert blocks[k].textLines == [entries[k].translatedText];
  }

  /** The written file is a subtitle file the reader of lines 134-181 reads
      back: one cue per entry, keyed `"1"` to `"n"` in order, each with the
      entry's timestamp line, its clocks in milliseconds, and the translated
      text as the cue's text. */
  lemma OutputReadsBack(entries: seq<Entry>, buffer: int)
    requires Writable(entries)
    ensures SrtParse.ParseSrtSpec(Records(entries), buffer).Ok?
    ensures var d := SrtParse.ParseSrtSpec(Records(entries), buffer).value;
      && |d.keys| == |entries|
      && forall k :: 0 <= k < |entries| ==>
        && d.keys[k] == DecimalString(k + 1)
        && d.keys[k] in d.cues
        && d.cues[d.keys[k]].text == entries[k].translatedText
        && d.cues[d.keys[k]].timestampsLine == entries[k].cue.timestampsLine
        && d.cues[d.keys[k]].startMs == SrtParse.ClockMs(entries[k].cue.timestampsLine, 0)
        && d.cues[d.keys[k]].endMs == SrtParse.ClockMs(entries[k].cue.timestampsLine, 17)
  {
    ParseRecords(entries, buffer);
    var d := SrtParse.ParseSrtSpec(Records(entries), buffer).value;
    forall k | 0 <= k < |entries|
      ensures d.keys[k] == DecimalString(k + 1) && d.keys[k] in d.cues
      ensures d.cues[d.keys[k]].text == entries[k].translatedText
      ensures d.cues[d.keys[k]].timestampsLine == entries[k].cue.timestampsLine
      ensures d.cues[d.keys[k]].startMs == SrtParse.ClockMs(entries[k].cue.timestampsLine, 0)
      ensures d.cues[d.keys[k]].endMs == SrtParse.ClockMs(entries[k].cue.timestampsLine, 17)
    {
      RecordCue(entries, buffer, d, k);
    }
  }

  // ---------------------------------------------------------------- from the reader to the file

  /** The key the reader gives the `k`-th cue of a numbered file is an
      integer string of value `k + 1`. */
  lemma KeyValue(k: nat)
    ensures IsDigits(Strip(DecimalString(k + 1))) && DigitsValue(Strip(DecimalString(k + 1))) == k + 1
  {
    DecimalStringValue(k + 1);
    StripIdentity(DecimalString(k + 1));
  }

  /** `d2` is `d` after the buffer step of lines 365-369. */
  ghost predicate BufferedFrom(d2: SrtParse.CueDict, d: SrtParse.CueDict, buffer: int) {
    && d2.keys == d.keys && d2.cues.Keys == d.cues.Keys
    && forall key :: key in d.cues ==> d2.cues[key] == SrtParse.Buffered(d.cues[key], buffer)
  }

  /** What the buffered dictionary of a well-formed file holds for its
      `k`-th cue: the key `k + 1`, the block's timestamp line, and a gap
      unless it is the last cue. */
  lemma ParsedCue(blocks: seq<SrtRoundTrip.SrtBlock>, buffer: int, d: SrtParse.CueDict, d2: SrtParse.CueDict, k: nat)
    requires SrtRoundTrip.WellFormedBlocks(blocks) && k < |blocks|
    requires SrtRoundTrip.ParsedAs(d, blocks, |blocks|, buffer) && BufferedFrom(d2, d, buffer)
    ensures d2.keys[k] == DecimalString(k + 1) && d2.keys[k] in d2.cues
    ensures SrtRoundTrip.WellFormedTimeLine(d2.cues[d2.keys[k]].timestampsLine)
    ensures k + 1 < |blocks| ==> d2.cues[d2.keys[k]].breakUntilNext.Some?
  {
    assert d.cues[d.keys[k]] == SrtRoundTrip.ExpectedCue(blocks, k, |blocks|, buffer);
    SrtRoundTrip.TimeLineValue(blocks[k].start, blocks[k].end);
  }

  /** A dictionary keyed `"1"` to `"n"` in order, whose timestamp lines are
      two clocks and whose cues but the last have their gaps. */
  ghost predicate NumberedDict(d: SrtParse.CueDict) {
    && SrtParse.ValidDict(d)
    && forall k :: 0 <= k < |d.keys| ==>
      && d.keys[k] == DecimalString(k + 1) && d.keys[k] in d.cues
      && SrtRoundTrip.WellFormedTimeLine(d.cues[d.keys[k]].timestampsLine)
      && (k + 1 < |d.keys| ==> d.cues[d.keys[k]].breakUntilNext.Some?)
  }

  /** Buffering keeps a dictionary's keys. */
  lemma BufferedValid(d: SrtParse.CueDict, d2: SrtParse.CueDict, buffer: int)
    requires SrtParse.ValidDict(d) && BufferedFrom(d2, d, buffer)
    ensures SrtParse.ValidDict(d2)
  {
  }

  /** Reading a well-formed file and buffering it gives such a dictionary. */
  lemma ParsedDict(blocks: seq<SrtRoundTrip.SrtBlock>, buffer: int, d: SrtParse.CueDict, d2: SrtParse.CueDict)
    requires SrtRoundTrip.WellFormedBlocks(blocks)
    requires SrtRoundTrip.ParsedAs(d, blocks, |blocks|, buffer) && BufferedFrom(d2, d, buffer)
    ensures NumberedDict(d2) && |d2.keys| == |blocks|
  {
    assert SrtParse.ValidDict(d);
    BufferedValid(d, d2, buffer);
    forall k | 0 <= k < |blocks|
      ensures d2.keys[k] == DecimalString(k + 1) && d2.keys[k] in d2.cues
      ensures SrtRoundTrip.WellFormedTimeLine(d2.cues[d2.keys[k]].timestampsLine)
      ensures k + 1 < |blocks| ==> d2.cues[d2.keys[k]].breakUntilNext.Some?
    {
      ParsedCue(blocks, buffer, d, d2, k);
    }
  }

  /** The entry list of such a dictionary: the original index of each entry
      is its position, every timestamp line is two clocks, and every entry
      but the last has its gap. */
  lemma NumberedEntries(d: SrtParse.CueDict, translations: seq<string>)
    requires NumberedDict(d) && |translations| == |d.keys|
    ensures EntryList(d, translations).Ok?
    ensures var entries := EntryList(d, translations).value;
      && |entries| == |d.keys|
      && (forall k :: 0 <= k < |entries| ==> entries[k].originalIndex == k)
      && Stamped(entries) && GapsSet(entries)
  {
    forall k | 0 <= k < |d.keys| ensures IsDigits(Strip(d.keys[k])) && DigitsValue(Strip(d.keys[k])) == k + 1 {
      KeyValue(k);
    }
  }

  /** The entry list made of a buffered well-formed file: the original index
      of each entry is its position, every timestamp line is two clocks, and
      every cue but the last has its gap. */
  lemma ParsedEntries(blocks: seq<SrtRoundTrip.SrtBlock>, buffer: int, d: SrtParse.CueDict, d2: SrtParse.CueDict, translations: seq<string>)
    requires SrtRoundTrip.WellFormedBlocks(blocks) && |translations| == |blocks|
    requires SrtParse.ParseSrtSpec(SrtRoundTrip.Render(blocks), buffer) == Ok(d)
    requires BufferedFrom(d2, d, buffer)
    ensures SrtParse.ValidDict(d2) && |d2.keys| == |blocks|
    ensures EntryList(d2, translations).Ok?
    ensures var entries := EntryList(d2, translations).value;
      && (forall k :: 0 <= k < |entries| ==> entries[k].originalIndex == k)
      && Stamped(entries) && GapsSet(entries)
  {
    SrtRoundTrip.ParseRendered(blocks, buffer);
    ParsedDict(blocks, buffer, d, d2);
    NumberedEntries(d2, translations);
  }

  /** A well-formed subtitle file, read, buffered and given one translation
      per cue, goes through both passes without any exception but the
      division by zero of a cue that lasts 0 ms; what comes out keeps
      timestamp lines of two clocks and the weight of the translated texts,
      so its records read back as soon as its texts are plain lines. */
  lemma RenderedFileMerges(blocks: seq<SrtRoundTrip.SrtBlock>, buffer: int, d: SrtParse.CueDict, d2: SrtParse.CueDict,
                           translations: seq<string>, maxChars: int)
    requires SrtRoundTrip.WellFormedBlocks(blocks) && 0 < |blocks| == |translations|
    requires SrtParse.ParseSrtSpec(SrtRoundTrip.Render(blocks), buffer) == Ok(d)
    requires BufferedFrom(d2, d, buffer)
    ensures SrtParse.ValidDict(d2) && |d2.keys| == |blocks|
    ensures CombineAdvanced(d2, translations, maxChars).Err? ==>
      CombineAdvanced(d2, translations, maxChars).error == ZeroDivisionError
    ensures CombineAdvanced(d2, translations, maxChars).Ok? ==>
      && Stamped(CombineAdvanced(d2, translations, maxChars).value)
      && Weight(CombineAdvanced(d2, translations, maxChars).value) == Weight(EntryList(d2, translations).value)
  {
    ParsedEntries(blocks, buffer, d, d2, translations);
    var entries := EntryList(d2, translations).value;
    forall k | 0 <= k < |entries| ensures HasArrow(entries[k].cue.timestampsLine) {
      StampedPieces(entries[k].cue.timestampsLine);
    }
    TwoPassesKeep(entries, maxChars);
  }
}
