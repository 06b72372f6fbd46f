/** What the reader makes of a well-formed subtitle file: the file is a list of
    blocks (an index line counting from 1, a timestamp line, one or more text
    lines and a blank line), and reading it yields one cue per block, keyed by
    its index, with the clock values in milliseconds, the text lines joined by
    spaces, and the gap to the next cue written back onto each cue. */
module SrtRoundTrip {
  import opened Results
  import opened PyText
  import opened SrtParse

  // ---------------------------------------------------------------- clocks

  /** A clock reading `HH:MM:SS,mmm`. */
  datatype Clock = Clock(h: nat, m: nat, s: nat, ms: nat)

  /** The fields fit their two, two, two and three digits. The reader does not
      ask minutes or seconds to be below 60, and neither does this. */
  predicate ValidClock(c: Clock) {
    c.h < 100 && c.m < 100 && c.s < 100 && c.ms < 1000
  }

  /** The instant a clock reading names, in milliseconds. */
  function Millis(c: Clock): nat {
    c.h * 3600000 + c.m * 60000 + c.s * 1000 + c.ms
  }

  /** `n` written with exactly `w` decimal digits: its last `w` digits,
      padded with zeros on the left. */
  function Padded(n: nat, w: nat): (s: string)
    ensures |s| == w && forall k :: 0 <= k < w ==> IsDigitChar(s[k])
    decreases w
  {
    if w == 0 then "" else Padded(n / 10, w - 1) + [DigitChar(n % 10)]
  }

  function Pow10(w: nat): nat {
    if w == 0 then 1 else 10 * Pow10(w - 1)
  }

  function FormatClock(c: Clock): string {
    Padded(c.h, 2) + ":" + Padded(c.m, 2) + ":" + Padded(c.s, 2) + "," + Padded(c.ms, 3)
  }

  /** The timestamp line of a cue running from `a` to `b`. */
  function TimeLine(a: Clock, b: Clock): string {
    FormatClock(a) + Arrow + FormatClock(b)
  }

  /** A timestamp line with nothing after the second clock. */
  predicate WellFormedTimeLine(t: string) {
    |t| == 29 && MatchesTimeLine(t)
  }

  /** A number below `10^w` written with `w` digits reads back as itself. */
  lemma {:induction false} PaddedValue(n: nat, w: nat)
    requires n < Pow10(w)
    ensures DigitsValue(Padded(n, w)) == n
    decreases w
  {
    if w > 0 {
      var s := Padded(n, w);
      assert n / 10 < Pow10(w - 1);
      PaddedValue(n / 10, w - 1);
      assert s[..w - 1] == Padded(n / 10, w - 1);
    }
  }

  /** The clock at position `p` is the clock that the twelve characters from
      `p` spell on their own. */
  lemma ClockAtSlice(s: string, p: nat)
    requires p + 12 <= |s|
    ensures ClockAt(s, p) == ClockAt(s[p..p + 12], 0)
    ensures ClockAt(s, p) ==> ClockMs(s, p) == ClockMs(s[p..p + 12], 0)
  {
    var u := s[p..p + 12];
    assert forall k :: 0 <= k < 12 ==> u[k] == s[p + k];
    assert u[0..2] == s[p..p + 2];
    assert u[3..5] == s[p + 3..p + 5];
    assert u[6..8] == s[p + 6..p + 8];
    assert u[9..12] == s[p + 9..p + 12];
  }

  /** A formatted clock reads back as the instant it names. */
  lemma FormatClockValue(c: Clock)
    requires ValidClock(c)
    ensures |FormatClock(c)| == 12 && ClockAt(FormatClock(c), 0)
    ensures ClockMs(FormatClock(c), 0) == Millis(c)
  {
    var u := FormatClock(c);
    assert u[0..2] == Padded(c.h, 2);
    assert u[3..5] == Padded(c.m, 2);
    assert u[6..8] == Padded(c.s, 2);
    assert u[9..12] == Padded(c.ms, 3);
    PaddedValue(c.h, 2);
    PaddedValue(c.m, 2);
    PaddedValue(c.s, 2);
    PaddedValue(c.ms, 3);
  }

  /** Lines 153-160 on a formatted line: each side converts to
      `h * 3600000 + m * 60000 + s * 1000 + mmm`. */
  lemma TimeLineValue(a: Clock, b: Clock)
    requires ValidClock(a) && ValidClock(b)
    ensures WellFormedTimeLine(TimeLine(a, b))
    ensures ClockMs(TimeLine(a, b), 0) == Millis(a) && ClockMs(TimeLine(a, b), 17) == Millis(b)
    ensures EndMs(TimeLine(a, b)) == Some(Millis(b))
  {
    FormatClockValue(a);
    FormatClockValue(b);
    ArrowJoin(FormatClock(a), FormatClock(b));
  }

  /** Two clocks joined by the arrow form a timestamp line that reads as them. */
  lemma ArrowJoin(u: string, v: string)
    requires |u| == 12 && ClockAt(u, 0) && |v| == 12 && ClockAt(v, 0)
    ensures WellFormedTimeLine(u + Arrow + v)
    ensures ClockMs(u + Arrow + v, 0) == ClockMs(u, 0) && ClockMs(u + Arrow + v, 17) == ClockMs(v, 0)
    ensures EndMs(u + Arrow + v) == Some(ClockMs(v, 0))
  {
    var t := u + Arrow + v;
    assert t[0..12] == u;
    assert t[12..17] == Arrow;
    assert t[17..29] == v;
    ClockAtSlice(t, 0);
    ClockAtSlice(t, 17);
    EndMsExact(t);
  }

  /** On a line with nothing after the second clock, the end field that lines
      156-157 reach by splitting reads the second clock in full. */
  lemma EndMsExact(t: string)
    requires WellFormedTimeLine(t)
    ensures EndMs(t) == Some(ClockMs(t, 17))
  {
    assert MsFieldEnd(t, 28) == 29;
    assert MsFieldEnd(t, 27) == 29;
    assert MsFieldEnd(t, 26) == 29;
    var u := t[26..29];
    StripIdentity(u);
    assert IsDigits(u);
  }

  // ---------------------------------------------------------------- files

  /** One cue as a file states it: its two clocks and its text lines. */
  datatype SrtBlock = SrtBlock(start: Clock, end: Clock, stamp: string, textLines: seq<string>)

  /** The timestamp line of a block. */
  function Stamp(b: SrtBlock): string {
    b.stamp
  }

  /** The clocks fit their fields and the timestamp line is the one they format to. */
  predicate ClocksValid(b: SrtBlock) {
    ValidClock(b.start) && ValidClock(b.end) && b.stamp == TimeLine(b.start, b.end)
  }

  /** The start and end that lines 153-160 read from a timestamp line with
      nothing after its second clock, in milliseconds. */
  function StampTimes(t: string): Option<(int, int)> {
    if WellFormedTimeLine(t) && EndMs(t).Some? then Some((ClockMs(t, 0), EndMs(t).value)) else None
  }

  /** The timestamp line reads as the block's two clocks. */
  predicate StampReads(b: SrtBlock) {
    StampTimes(b.stamp) == Some((Millis(b.start), Millis(b.end)))
  }

  /** A block with valid clocks has a timestamp line that reads as them. */
  lemma StampValue(b: SrtBlock)
    requires ClocksValid(b)
    ensures StampReads(b)
  {
    TimeLineValue(b.start, b.end);
  }

  /** A text line the reader keeps as it is: not blank, no surrounding
      whitespace, and not itself a timestamp line. */
  predicate PlainLine(l: string) {
    l != [] && !IsSpace(l[0]) && !IsSpace(l[|l| - 1]) && !MatchesTimeLine(l)
  }

  /** At least one text line, each kept as it is. */
  predicate TextReads(b: SrtBlock) {
    |b.textLines| > 0 && forall k :: 0 <= k < |b.textLines| ==> PlainLine(b.textLines[k])
  }

  /** Stripping a text line with its terminator gives the line back. */
  lemma TextLineStrip(b: SrtBlock, k: nat)
    requires TextReads(b) && k < |b.textLines|
    ensures Strip(b.textLines[k] + "\n") == b.textLines[k]
  {
    StripNewline(b.textLines[k]);
  }

  /** A block the reader reads back: its timestamp line as its clocks, its text lines as they are. */
  predicate ReadableBlock(b: SrtBlock) {
    StampReads(b) && TextReads(b)
  }

  predicate ReadableBlocks(blocks: seq<SrtBlock>) {
    forall j :: 0 <= j < |blocks| ==> ReadableBlock(blocks[j])
  }

  /** A block as a writer makes it: valid clocks formatted into its
      timestamp line, and plain text lines. */
  predicate WellFormedBlock(b: SrtBlock) {
    ClocksValid(b) && TextReads(b)
  }

  predicate WellFormedBlocks(blocks: seq<SrtBlock>) {
    forall j :: 0 <= j < |blocks| ==> WellFormedBlock(blocks[j])
  }

  /** Each line with its line terminator, as `readlines` returns it. */
  function Terminated(ls: seq<string>): (r: seq<string>)
    ensures |r| == |ls| && forall k :: 0 <= k < |ls| ==> r[k] == ls[k] + "\n"
  {
    if ls == [] then [] else [ls[0] + "\n"] + Terminated(ls[1..])
  }

  /** The lines of one block whose index is `index`. */
  function BlockLines(index: nat, b: SrtBlock): seq<string> {
    [DecimalString(index) + "\n", Stamp(b) + "\n"] + Terminated(b.textLines) + ["\n"]
  }

  /** The lines of a file holding `blocks`, numbered from 1. */
  function Render(blocks: seq<SrtBlock>): seq<string>
    decreases |blocks|
  {
    if blocks == [] then []
    else Render(blocks[..|blocks| - 1]) + BlockLines(|blocks|, blocks[|blocks| - 1])
  }

  /** Where block `j` begins in the file: after the lines of the blocks before it. */
  function Offset(blocks: seq<SrtBlock>, j: nat): nat
    requires j <= |blocks|
  {
    if j == 0 then 0 else Offset(blocks, j - 1) + |blocks[j - 1].textLines| + 3
  }

  /** The lines from `p` on are the lines of block `b` with index `index`. */
  predicate BlockIn(lines: seq<string>, p: nat, index: nat, b: SrtBlock) {
    p + |BlockLines(index, b)| <= |lines| && lines[p..p + |BlockLines(index, b)|] == BlockLines(index, b)
  }

  /** `BlockIn`, line by line. */
  predicate BlockContent(lines: seq<string>, p: nat, index: nat, b: SrtBlock) {
    var n := |b.textLines|;
    && p + n + 3 <= |lines|
    && lines[p] == DecimalString(index) + "\n"
    && lines[p + 1] == Stamp(b) + "\n"
    && (forall q :: p + 2 <= q < p + 2 + n ==> lines[q] == b.textLines[q - p - 2] + "\n")
    && lines[p + 2 + n] == "\n"
  }

  lemma BlockContentOf(lines: seq<string>, p: nat, index: nat, b: SrtBlock)
    requires BlockIn(lines, p, index, b)
    ensures BlockContent(lines, p, index, b)
  {
    var bl := BlockLines(index, b);
    var n := |b.textLines|;
    forall q | p <= q < p + n + 3 ensures lines[q] == bl[q - p] {
      assert lines[p..p + |bl|][q - p] == lines[q];
    }
    assert bl[0] == DecimalString(index) + "\n";
    assert bl[1] == Stamp(b) + "\n";
    assert bl[n + 2] == "\n";
  }

  /** The lines from the offset of block `j` on hold that block, with index `j + 1`. */
  predicate BlockInPlace(lines: seq<string>, blocks: seq<SrtBlock>, j: nat)
    requires j < |blocks|
  {
    BlockIn(lines, Offset(blocks, j), j + 1, blocks[j])
  }

  /** `lines` hold `blocks` one after the other, numbered from 1, and nothing else. */
  predicate LaidOut(lines: seq<string>, blocks: seq<SrtBlock>) {
    && |lines| == Offset(blocks, |blocks|)
    && forall j :: 0 <= j < |blocks| ==> BlockInPlace(lines, blocks, j)
  }

  /** Text lines joined with single spaces. */
  function JoinSpaced(ls: seq<string>): string {
    if ls == [] then "" else ls[0] + SpacedTail(ls[1..])
  }

  function SpacedTail(ls: seq<string>): string {
    if ls == [] then "" else " " + ls[0] + SpacedTail(ls[1..])
  }

  // ---------------------------------------------------------------- expected result

  /** The key of the `k`-th block (from 0): its index, counting from 1. */
  function Key(k: nat): string {
    DecimalString(k + 1)
  }

  /** The cue the reader holds for block `k` once it has read `j` blocks: its
      clocks in milliseconds, its text lines joined, the buffered window, and
      as gap the next block's start minus its own end; the last block read so
      far has no gap yet, except that the first block of the file is given 0
      when it is read. */
  function ExpectedCue(blocks: seq<SrtBlock>, k: nat, j: nat, buffer: int): Cue
    requires k < j <= |blocks|
  {
    var b := blocks[k];
    var start, end := Millis(b.start), Millis(b.end);
    Cue(start, end, end - start, JoinSpaced(b.textLines),
        if k + 1 < j then Some(Millis(blocks[k + 1].start) - end) else if k == 0 then Some(0) else None,
        Stamp(b),
        if buffer > 0 then start + buffer else start,
        if buffer > 0 then end - buffer else end,
        if buffer > 0 then (end - buffer) - (start + buffer) else end - start)
  }

  /** The keys of `d` are those of the first `j` blocks, in file order, each
      once, and they are exactly the keys its map holds. */
  ghost predicate KeyedUpTo(d: CueDict, j: nat) {
    && |d.keys| == j
    && (forall k :: 0 <= k < j ==> d.keys[k] == Key(k))
    && (forall a, b :: 0 <= a < b < j ==> d.keys[a] != d.keys[b])
    && (forall key :: key in d.cues <==> key in d.keys)
  }

  /** Under the key of each of the first `j` blocks, `d` holds the expected cue. */
  ghost predicate CuesAsExpected(d: CueDict, blocks: seq<SrtBlock>, j: nat, buffer: int)
    requires j <= |blocks| && |d.keys| == j
  {
    && (forall k :: 0 <= k < j ==> d.keys[k] in d.cues)
    && (forall k {:trigger ExpectedCue(blocks, k, j, buffer)} :: 0 <= k < j ==> d.cues[d.keys[k]] == ExpectedCue(blocks, k, j, buffer))
  }

  /** `d` is what the reader holds after the first `j` blocks: their keys, and
      under each the expected cue. */
  ghost predicate ParsedAs(d: CueDict, blocks: seq<SrtBlock>, j: nat, buffer: int)
    requires j <= |blocks|
  {
    KeyedUpTo(d, j) && CuesAsExpected(d, blocks, j, buffer)
  }

  // ---------------------------------------------------------------- one block

  /** What reading the index line of block `b` stores: lines 151-181 with the
      block's own timestamp line and text. */
  function StoreBlock(d: CueDict, ln: nat, index: nat, b: SrtBlock, buffer: int): Result<CueDict, ParseError> {
    StoreCue(d, ln, DecimalString(index), Stamp(b), JoinSpaced(b.textLines), Millis(b.start), Millis(b.end), buffer)
  }

  /** Reading the index line of a block stores its cue. */
  lemma IndexLine(lines: seq<string>, p: nat, index: nat, b: SrtBlock, d: CueDict, buffer: int)
    requires ReadableBlock(b) && BlockContent(lines, p, index, b)
    ensures ParseLine(lines, p, d, buffer) == StoreBlock(d, p, index, b, buffer)
  {
    var t := Stamp(b);
    assert lines[p + 2] == b.textLines[0] + "\n";
    StripNewline(DecimalString(index));
    StripNewline(t);
    TextLineStrip(b, 0);
    MatchesExtend(t, "\n");
    MoreTextBlock(lines, p, index, b, 1);
    assert b.textLines[1..] == b.textLines[1..][0..];
  }

  /** A timestamp line still matches with anything after it. */
  lemma MatchesExtend(t: string, x: string)
    requires MatchesTimeLine(t)
    ensures MatchesTimeLine(t + x)
  {
    var s := t + x;
    assert forall k :: 0 <= k < |t| ==> s[k] == t[k];
    assert s[12..17] == t[12..17];
  }

  /** A line terminator does not make a line match the timestamp pattern. */
  lemma MatchesNewline(l: string)
    requires !MatchesTimeLine(l)
    ensures !MatchesTimeLine(l + "\n")
  {
    var s := l + "\n";
    if |l| >= 29 {
      assert forall k :: 0 <= k < |l| ==> s[k] == l[k];
      assert s[12..17] == l[12..17];
    }
  }

  /** The text lines from the `k`-th on are what the `count` loop appends. */
  lemma {:induction false} MoreTextBlock(lines: seq<string>, p: nat, index: nat, b: SrtBlock, k: nat)
    requires TextReads(b) && BlockContent(lines, p, index, b) && 1 <= k <= |b.textLines|
    ensures MoreText(lines, p + 2 + k) == SpacedTail(b.textLines[k..])
    decreases |b.textLines| - k
  {
    if k == |b.textLines| {
      assert Strip("\n") == "";
      assert b.textLines[k..] == [];
    } else {
      assert lines[p + 2 + k] == b.textLines[k] + "\n";
      TextLineStrip(b, k);
      MoreTextBlock(lines, p, index, b, k + 1);
      assert b.textLines[k..][1..] == b.textLines[k + 1..];
    }
  }

  /** Line `q` does not start a cue: stripped, it is not a run of digits, or
      the line after it does not match the timestamp pattern. */
  predicate NotIndexLine(lines: seq<string>, q: nat) {
    q < |lines| && (!IsDigits(Strip(lines[q])) || (q + 1 < |lines| && !MatchesTimeLine(lines[q + 1])))
  }

  /** The reader passes over lines `i` to `q - 1` when none of them starts a cue. */
  lemma {:induction false} SkipLines(lines: seq<string>, i: nat, q: nat, d: CueDict, buffer: int)
    requires i <= q && forall l :: i <= l < q ==> NotIndexLine(lines, l)
    ensures ReadFrom(lines, i, d, buffer) == ReadFrom(lines, q, d, buffer)
    decreases q - i
  {
    if i < q {
      assert NotIndexLine(lines, i);
      SkipLines(lines, i + 1, q, d, buffer);
    }
  }

  /** No line of a block after its index line starts a cue. */
  lemma InertLine(lines: seq<string>, p: nat, index: nat, b: SrtBlock, k: nat)
    requires ReadableBlock(b) && BlockContent(lines, p, index, b) && 1 <= k < |b.textLines| + 3
    ensures NotIndexLine(lines, p + k)
  {
    var n := |b.textLines|;
    if k == 1 {
      StampLineInert(Stamp(b));
    } else if k < 2 + n {
      TextLineStrip(b, k - 2);
      if k + 1 < 2 + n {
        assert lines[p + k + 1] == b.textLines[k - 1] + "\n";
        MatchesNewline(b.textLines[k - 1]);
      }
    } else {
      assert Strip("\n") == "";
    }
  }

  /** A timestamp line is not a run of digits. */
  lemma StampLineInert(t: string)
    requires StampTimes(t).Some?
    ensures !IsDigits(Strip(t + "\n"))
  {
    StripNewline(t);
    assert !IsDigitChar(t[2]);
  }

  /** No line of a block after its index line starts a cue. */
  lemma InertLines(lines: seq<string>, p: nat, index: nat, b: SrtBlock)
    requires ReadableBlock(b) && BlockIn(lines, p, index, b)
    ensures forall l :: p + 1 <= l < p + |b.textLines| + 3 ==> NotIndexLine(lines, l)
  {
    BlockContentOf(lines, p, index, b);
    forall l | p + 1 <= l < p + |b.textLines| + 3 ensures NotIndexLine(lines, l) {
      InertLine(lines, p, index, b, l - p);
    }
  }

  /** The reading loop from line `p` on, starting from dictionary `d`. */
  ghost function ReadFrom(lines: seq<string>, p: nat, d: CueDict, buffer: int): Result<CueDict, ParseError> {
    ParseFrom(lines, p, d, buffer)
  }

  /** Reading one block: its cue is stored, and the reader resumes at line
      `q`, after the block. */
  lemma BlockStep(lines: seq<string>, p: nat, index: nat, b: SrtBlock, d: CueDict, q: nat, buffer: int)
    requires ReadableBlock(b) && BlockIn(lines, p, index, b) && StoreBlock(d, p, index, b, buffer).Ok?
    requires q == p + |b.textLines| + 3
    ensures ReadFrom(lines, p, d, buffer) == ReadFrom(lines, q, StoreBlock(d, p, index, b, buffer).value, buffer)
  {
    var e := StoreBlock(d, p, index, b, buffer).value;
    IndexLineRead(lines, p, index, b, d, buffer);
    InertLines(lines, p, index, b);
    SkipLines(lines, p + 1, q, e, buffer);
  }

  /** Reading the index line of a block, in lines that hold it, stores its cue
      and moves on to the next line. */
  lemma IndexLineRead(lines: seq<string>, p: nat, index: nat, b: SrtBlock, d: CueDict, buffer: int)
    requires ReadableBlock(b) && BlockIn(lines, p, index, b) && StoreBlock(d, p, index, b, buffer).Ok?
    ensures ReadFrom(lines, p, d, buffer) == ReadFrom(lines, p + 1, StoreBlock(d, p, index, b, buffer).value, buffer)
  {
    BlockContentOf(lines, p, index, b);
    IndexLine(lines, p, index, b, d, buffer);
  }

  // ---------------------------------------------------------------- the dictionary

  /** Storing block `j` after the first `j` blocks gives what the reader holds
      after `j + 1` blocks: a new key at the end, and the gap written back
      onto the previous block's cue (or 0 onto the first block's own cue). */
  lemma StoreStep(blocks: seq<SrtBlock>, j: nat, ln: nat, d: CueDict, buffer: int)
    requires j < |blocks| && ParsedAs(d, blocks, j, buffer)
    requires ln == 0 <==> j == 0
    ensures var r := StoreBlock(d, ln, j + 1, blocks[j], buffer);
      r.Ok? && ParsedAs(r.value, blocks, j + 1, buffer)
  {
    if j > 0 {
      StoreNextBlock(blocks, j, ln, d, buffer);
    } else {
      StoreFirstBlock(blocks, d, buffer);
    }
  }

  /** Storing a block after the first gives the previous block its gap. */
  lemma StoreNextBlock(blocks: seq<SrtBlock>, j: nat, ln: nat, d: CueDict, buffer: int)
    requires 0 < j < |blocks| && ParsedAs(d, blocks, j, buffer) && ln > 0
    ensures var r := StoreBlock(d, ln, j + 1, blocks[j], buffer);
      r.Ok? && ParsedAs(r.value, blocks, j + 1, buffer)
  {
    NextStored(d, ln, j, Stamp(blocks[j]), JoinSpaced(blocks[j].textLines), Millis(blocks[j].start), Millis(blocks[j].end), buffer);
    StoredCues(blocks, j, d, StoreBlock(d, ln, j + 1, blocks[j], buffer).value, buffer);
  }

  /** Storing the cue with index `j + 1` after `j` keyed cues: the keys grow
      by one, the cue of block `j - 1` gets its gap, the new cue is added,
      and the other cues stay. */
  lemma NextStored(d: CueDict, ln: nat, j: nat, t: string, text: string, start: int, end: int, buffer: int)
    requires 0 < j && ln > 0 && KeyedUpTo(d, j)
    ensures StoreCue(d, ln, DecimalString(j + 1), t, text, start, end, buffer).Ok?
    ensures KeyedUpTo(StoreCue(d, ln, DecimalString(j + 1), t, text, start, end, buffer).value, j + 1)
    ensures forall k :: 0 <= k < j - 1 ==>
      StoreCue(d, ln, DecimalString(j + 1), t, text, start, end, buffer).value.keys[k] in StoreCue(d, ln, DecimalString(j + 1), t, text, start, end, buffer).value.cues
      && StoreCue(d, ln, DecimalString(j + 1), t, text, start, end, buffer).value.cues[StoreCue(d, ln, DecimalString(j + 1), t, text, start, end, buffer).value.keys[k]] == d.cues[d.keys[k]]
    ensures StoreCue(d, ln, DecimalString(j + 1), t, text, start, end, buffer).value.keys[j - 1] in StoreCue(d, ln, DecimalString(j + 1), t, text, start, end, buffer).value.cues
    ensures StoreCue(d, ln, DecimalString(j + 1), t, text, start, end, buffer).value.cues[StoreCue(d, ln, DecimalString(j + 1), t, text, start, end, buffer).value.keys[j - 1]]
      == WithGap(d.cues[d.keys[j - 1]], start - d.cues[d.keys[j - 1]].endMs)
    ensures StoreCue(d, ln, DecimalString(j + 1), t, text, start, end, buffer).value.keys[j] in StoreCue(d, ln, DecimalString(j + 1), t, text, start, end, buffer).value.cues
    ensures StoreCue(d, ln, DecimalString(j + 1), t, text, start, end, buffer).value.cues[StoreCue(d, ln, DecimalString(j + 1), t, text, start, end, buffer).value.keys[j]]
      == NewCue(t, text, start, end, buffer)
  {
    KeyFresh(d, j);
    DecimalStringValue(j + 1);
    var prev := d.keys[j - 1];
    assert IntString(DigitsValue(DecimalString(j + 1)) - 1) == prev;
    assert prev in d.cues;
    StoreCueNext(d, ln, DecimalString(j + 1), prev, t, text, start, end, buffer);
    var e := StoreCue(d, ln, DecimalString(j + 1), t, text, start, end, buffer).value;
    KeyedAppend(d, j, e);
    forall k | 0 <= k < j - 1 ensures e.keys[k] in e.cues && e.cues[e.keys[k]] == d.cues[d.keys[k]] {
      assert d.keys[k] in d.cues && d.keys[k] != prev;
    }
  }

  /** Storing the first block of a file gives it gap 0. */
  lemma StoreFirstBlock(blocks: seq<SrtBlock>, d: CueDict, buffer: int)
    requires 0 < |blocks| && ParsedAs(d, blocks, 0, buffer)
    ensures var r := StoreBlock(d, 0, 1, blocks[0], buffer);
      r.Ok? && ParsedAs(r.value, blocks, 1, buffer)
  {
    var b := blocks[0];
    FirstStored(d, Stamp(b), JoinSpaced(b.textLines), Millis(b.start), Millis(b.end), buffer);
    var e := StoreBlock(d, 0, 1, b, buffer).value;
    assert e.cues[e.keys[0]] == ExpectedCue(blocks, 0, 1, buffer);
  }

  /** Storing the first cue: one key, whose cue has gap 0. */
  lemma FirstStored(d: CueDict, t: string, text: string, start: int, end: int, buffer: int)
    requires KeyedUpTo(d, 0)
    ensures var r := StoreCue(d, 0, DecimalString(1), t, text, start, end, buffer);
      r.Ok? && KeyedUpTo(r.value, 1)
    ensures var e := StoreCue(d, 0, DecimalString(1), t, text, start, end, buffer).value;
      e.keys[0] in e.cues && e.cues[e.keys[0]] == WithGap(NewCue(t, text, start, end, buffer), 0)
  {
    KeyFresh(d, 0);
    StoreCueFirst(d, DecimalString(1), t, text, start, end, buffer);
    KeyedAppend(d, 0, StoreCue(d, 0, DecimalString(1), t, text, start, end, buffer).value);
  }

  /** Lines 151-181 on a new key with the previous key present: the cue is
      added at the end, the previous cue gets the gap, and the others stay. */
  lemma StoreCueNext(d: CueDict, ln: nat, key: string, prevKey: string, t: string, text: string, start: int, end: int, buffer: int)
    requires IsDigits(key) && ln > 0
    requires IntString(DigitsValue(key) - 1) == prevKey && prevKey in d.cues && key !in d.cues
    ensures var r := StoreCue(d, ln, key, t, text, start, end, buffer);
      && r.Ok? && r.value.keys == d.keys + [key]
      && r.value.cues.Keys == d.cues.Keys + {key}
      && (forall x :: x in d.cues && x != prevKey ==> r.value.cues[x] == d.cues[x])
      && r.value.cues[prevKey] == WithGap(d.cues[prevKey], start - d.cues[prevKey].endMs)
      && r.value.cues[key] == NewCue(t, text, start, end, buffer)
  {
    var c := NewCue(t, text, start, end, buffer);
    StoreCuePatches(d, ln, key, prevKey, t, text, start, end, buffer);
    PatchedPut(d, key, c, prevKey, start - d.cues[prevKey].endMs);
  }

  /** With the previous key present, lines 151-181 put the cue, then patch the previous one. */
  lemma StoreCuePatches(d: CueDict, ln: nat, key: string, prevKey: string, t: string, text: string, start: int, end: int, buffer: int)
    requires IsDigits(key) && ln > 0
    requires IntString(DigitsValue(key) - 1) == prevKey && prevKey in d.cues && key !in d.cues
    ensures StoreCue(d, ln, key, t, text, start, end, buffer)
      == Ok(SetBreak(Put(d, key, NewCue(t, text, start, end, buffer)), prevKey, start - d.cues[prevKey].endMs))
  {
  }

  /** A new key put, then another key's cue patched. */
  lemma PatchedPut(d: CueDict, key: string, c: Cue, prevKey: string, gap: int)
    requires prevKey in d.cues && key !in d.cues
    ensures var e := SetBreak(Put(d, key, c), prevKey, gap);
      && e.keys == d.keys + [key]
      && e.cues.Keys == d.cues.Keys + {key}
      && (forall x :: x in d.cues && x != prevKey ==> e.cues[x] == d.cues[x])
      && e.cues[prevKey] == WithGap(d.cues[prevKey], gap)
      && e.cues[key] == c
  {
  }

  /** Lines 151-181 on the first line of the file: the cue is added with gap 0. */
  lemma StoreCueFirst(d: CueDict, key: string, t: string, text: string, start: int, end: int, buffer: int)
    requires IsDigits(key) && key !in d.cues
    ensures var r := StoreCue(d, 0, key, t, text, start, end, buffer);
      && r.Ok? && r.value.keys == d.keys + [key]
      && r.value.cues.Keys == d.cues.Keys + {key}
      && r.value.cues[key] == WithGap(NewCue(t, text, start, end, buffer), 0)
  {
  }

  /** The key of the next block is not yet in the dictionary. */
  lemma KeyFresh(d: CueDict, j: nat)
    requires KeyedUpTo(d, j)
    ensures Key(j) !in d.cues
  {
    forall k | 0 <= k < j ensures d.keys[k] != Key(j) {
      if Key(k) == Key(j) {
        DecimalStringInjective(k + 1, j + 1);
      }
    }
  }

  /** Appending the next block's key keeps the keys in order and distinct. */
  lemma KeyedAppend(d: CueDict, j: nat, d2: CueDict)
    requires KeyedUpTo(d, j) && Key(j) !in d.cues
    requires d2.keys == d.keys + [Key(j)] && d2.cues.Keys == d.cues.Keys + {Key(j)}
    ensures KeyedUpTo(d2, j + 1)
  {
    forall a, b | 0 <= a < b < j + 1 ensures d2.keys[a] != d2.keys[b] {
      if b == j {
        assert d.keys[a] in d.cues;
      }
    }
  }

  /** The cues after the back-patch of block `j > 0`. */
  lemma StoredCues(blocks: seq<SrtBlock>, j: nat, d: CueDict, d2: CueDict, buffer: int)
    requires 0 < j < |blocks| && |d.keys| == j && |d2.keys| == j + 1 && CuesAsExpected(d, blocks, j, buffer)
    requires forall k :: 0 <= k < j - 1 ==> d2.keys[k] in d2.cues && d2.cues[d2.keys[k]] == d.cues[d.keys[k]]
    requires d2.keys[j - 1] in d2.cues
    requires d2.cues[d2.keys[j - 1]] == WithGap(d.cues[d.keys[j - 1]], Millis(blocks[j].start) - d.cues[d.keys[j - 1]].endMs)
    requires d2.keys[j] in d2.cues
    requires d2.cues[d2.keys[j]] == NewCue(Stamp(blocks[j]), JoinSpaced(blocks[j].textLines), Millis(blocks[j].start), Millis(blocks[j].end), buffer)
    ensures CuesAsExpected(d2, blocks, j + 1, buffer)
  {
    SettledCues(blocks, j, d, d2, buffer);
    assert d.cues[d.keys[j - 1]] == ExpectedCue(blocks, j - 1, j, buffer);
    BackPatched(blocks, j, d.cues[d.keys[j - 1]], d2.cues[d2.keys[j - 1]], buffer);
    ExpectedNew(blocks, j, buffer);
    ThreeRanges(blocks, j, d2, buffer);
  }

  /** The expected cues after `j + 1` blocks, gathered from the settled ones,
      the back-patched one and the new one. */
  lemma ThreeRanges(blocks: seq<SrtBlock>, j: nat, d2: CueDict, buffer: int)
    requires 0 < j < |blocks| && |d2.keys| == j + 1
    requires forall k :: 0 <= k < j - 1 ==> d2.keys[k] in d2.cues && d2.cues[d2.keys[k]] == ExpectedCue(blocks, k, j + 1, buffer)
    requires d2.keys[j - 1] in d2.cues && d2.cues[d2.keys[j - 1]] == ExpectedCue(blocks, j - 1, j + 1, buffer)
    requires d2.keys[j] in d2.cues && d2.cues[d2.keys[j]] == ExpectedCue(blocks, j, j + 1, buffer)
    ensures CuesAsExpected(d2, blocks, j + 1, buffer)
  {
    forall k | 0 <= k < j + 1 ensures d2.cues[d2.keys[k]] == ExpectedCue(blocks, k, j + 1, buffer) {
      if k == j - 1 {
      } else if k == j {
      }
    }
  }

  /** The cue of block `j - 1` once block `j` is read: its gap written back. */
  lemma BackPatched(blocks: seq<SrtBlock>, j: nat, prev: Cue, patched: Cue, buffer: int)
    requires 0 < j < |blocks| && prev == ExpectedCue(blocks, j - 1, j, buffer)
    requires patched == WithGap(prev, Millis(blocks[j].start) - prev.endMs)
    ensures patched == ExpectedCue(blocks, j - 1, j + 1, buffer)
  {
    ExpectedBackPatch(blocks, j, buffer);
  }

  /** Cues whose successor was already read are unchanged and still as expected. */
  lemma SettledCues(blocks: seq<SrtBlock>, j: nat, d: CueDict, d2: CueDict, buffer: int)
    requires 0 < j < |blocks| && |d.keys| == j && |d2.keys| == j + 1 && CuesAsExpected(d, blocks, j, buffer)
    requires forall k :: 0 <= k < j - 1 ==> d2.keys[k] in d2.cues && d2.cues[d2.keys[k]] == d.cues[d.keys[k]]
    ensures forall k :: 0 <= k < j - 1 ==> d2.keys[k] in d2.cues && d2.cues[d2.keys[k]] == ExpectedCue(blocks, k, j + 1, buffer)
  {
    forall k | 0 <= k < j - 1 ensures d2.keys[k] in d2.cues && d2.cues[d2.keys[k]] == ExpectedCue(blocks, k, j + 1, buffer) {
      assert d.cues[d.keys[k]] == ExpectedCue(blocks, k, j, buffer);
      ExpectedSettled(blocks, k, j, buffer);
    }
  }

  /** A cue whose successor has been read keeps its gap. */
  lemma ExpectedSettled(blocks: seq<SrtBlock>, k: nat, j: nat, buffer: int)
    requires k + 1 < j < |blocks|
    ensures ExpectedCue(blocks, k, j, buffer) == ExpectedCue(blocks, k, j + 1, buffer)
  {
  }

  /** Reading block `j` gives block `j - 1` its gap. */
  lemma ExpectedBackPatch(blocks: seq<SrtBlock>, j: nat, buffer: int)
    requires 0 < j < |blocks|
    ensures var c := ExpectedCue(blocks, j - 1, j, buffer);
      ExpectedCue(blocks, j - 1, j + 1, buffer) == WithGap(c, Millis(blocks[j].start) - c.endMs)
  {
  }

  /** The cue of the block just read. */
  lemma ExpectedNew(blocks: seq<SrtBlock>, j: nat, buffer: int)
    requires 0 < j < |blocks|
    ensures var b := blocks[j];
      ExpectedCue(blocks, j, j + 1, buffer) == NewCue(Stamp(b), JoinSpaced(b.textLines), Millis(b.start), Millis(b.end), buffer)
  {
  }

  // ---------------------------------------------------------------- the file

  /** Storing block `j` gives what `ParsedAs` expects after `j + 1` blocks. */
  lemma BlockStored(blocks: seq<SrtBlock>, j: nat, d: CueDict, buffer: int)
    requires j < |blocks| && ParsedAs(d, blocks, j, buffer)
    ensures StoreBlock(d, Offset(blocks, j), j + 1, blocks[j], buffer).Ok?
    ensures ParsedAs(StoreBlock(d, Offset(blocks, j), j + 1, blocks[j], buffer).value, blocks, j + 1, buffer)
  {
    if j > 0 {
      assert Offset(blocks, j) >= 3;
    }
    StoreStep(blocks, j, Offset(blocks, j), d, buffer);
  }

  /** The next block begins after the three lines and the text lines of this one. */
  lemma OffsetNext(blocks: seq<SrtBlock>, j: nat)
    requires j < |blocks|
    ensures Offset(blocks, j) + |blocks[j].textLines| + 3 == Offset(blocks, j + 1)
  {
  }

  /** Reading from line `p` on with dictionary `d` ends with the whole file
      read as `ParsedAs` describes it. */
  ghost predicate ReadsAll(lines: seq<string>, blocks: seq<SrtBlock>, p: nat, d: CueDict, buffer: int) {
    var r := ReadFrom(lines, p, d, buffer);
    r.Ok? && ParsedAs(r.value, blocks, |blocks|, buffer)
  }

  /** From the start of block `j` on, the reader ends with the whole file read. */
  lemma {:induction false} ParseBlocks(lines: seq<string>, blocks: seq<SrtBlock>, j: nat, d: CueDict, buffer: int)
    requires ReadableBlocks(blocks) && LaidOut(lines, blocks)
    requires j <= |blocks| && ParsedAs(d, blocks, j, buffer)
    ensures ReadsAll(lines, blocks, Offset(blocks, j), d, buffer)
    decreases |blocks| - j
  {
    if j < |blocks| {
      assert BlockInPlace(lines, blocks, j) && ReadableBlock(blocks[j]);
      BlockStored(blocks, j, d, buffer);
      OffsetNext(blocks, j);
      BlockStep(lines, Offset(blocks, j), j + 1, blocks[j], d, Offset(blocks, j + 1), buffer);
      ParseBlocks(lines, blocks, j + 1, StoreBlock(d, Offset(blocks, j), j + 1, blocks[j], buffer).value, buffer);
    }
  }

  /** Reading lines that hold well-formed blocks succeeds, and yields one cue
      per block keyed `"1"`, `"2"`, ... in file order, each with its clocks in
      milliseconds, its text lines joined with spaces, its buffered window,
      and as gap the next cue's start minus its own end; the last cue keeps
      no gap, unless it is the only one, which gets 0. */
  lemma ParseLaidOut(lines: seq<string>, blocks: seq<SrtBlock>, buffer: int)
    requires WellFormedBlocks(blocks) && LaidOut(lines, blocks)
    ensures ParseSrtSpec(lines, buffer).Ok?
    ensures ParsedAs(ParseSrtSpec(lines, buffer).value, blocks, |blocks|, buffer)
  {
    forall j | 0 <= j < |blocks| ensures ReadableBlock(blocks[j]) {
      StampValue(blocks[j]);
    }
    ParseBlocks(lines, blocks, 0, EmptyDict, buffer);
  }

  /** The offsets of the first `j` blocks do not depend on the blocks after them. */
  lemma {:induction false} OffsetPrefix(blocks: seq<SrtBlock>, m: nat, j: nat)
    requires j <= m <= |blocks|
    ensures Offset(blocks[..m], j) == Offset(blocks, j)
    decreases j
  {
    if j > 0 {
      OffsetPrefix(blocks, m, j - 1);
    }
  }

  /** Lines that hold a block still hold it with more lines after them. */
  lemma BlockInExtend(lines: seq<string>, more: seq<string>, p: nat, index: nat, b: SrtBlock)
    requires BlockIn(lines, p, index, b)
    ensures BlockIn(lines + more, p, index, b)
  {
    var m := |BlockLines(index, b)|;
    assert (lines + more)[p..p + m] == lines[p..p + m];
  }

  /** The lines of one block hold that block. */
  lemma BlockInLines(pre: seq<string>, index: nat, b: SrtBlock)
    ensures BlockIn(pre + BlockLines(index, b), |pre|, index, b)
  {
    var bl := BlockLines(index, b);
    assert (pre + bl)[|pre|..|pre| + |bl|] == bl;
  }

  /** A rendered file holds its blocks, one after the other. */
  lemma {:induction false} RenderLaidOut(blocks: seq<SrtBlock>)
    ensures LaidOut(Render(blocks), blocks)
    decreases |blocks|
  {
    if blocks != [] {
      var n := |blocks|;
      var init, last := blocks[..n - 1], blocks[n - 1];
      RenderLaidOut(init);
      OffsetPrefix(blocks, n - 1, n - 1);
      var pre := Render(init);
      forall j | 0 <= j < n ensures BlockInPlace(Render(blocks), blocks, j) {
        if j < n - 1 {
          OffsetPrefix(blocks, n - 1, j);
          assert BlockInPlace(pre, init, j);
          BlockInExtend(pre, BlockLines(n, last), Offset(blocks, j), j + 1, blocks[j]);
        } else {
          BlockInLines(pre, n, last);
        }
      }
    }
  }

  /** Reading a well-formed file succeeds, and yields the cues `ParsedAs`
      describes, one per block. */
  lemma ParseRendered(blocks: seq<SrtBlock>, buffer: int)
    requires WellFormedBlocks(blocks)
    ensures ParseSrtSpec(Render(blocks), buffer).Ok?
    ensures ParsedAs(ParseSrtSpec(Render(blocks), buffer).value, blocks, |blocks|, buffer)
  {
    RenderLaidOut(blocks);
    ParseLaidOut(Render(blocks), blocks, buffer);
  }

  /** Reading a file of blocks that read back succeeds, whether or not their
      clocks were written by `TimeLine`, and yields the cues `ParsedAs`
      describes, one per block. */
  lemma ParseReadable(blocks: seq<SrtBlock>, buffer: int)
    requires ReadableBlocks(blocks)
    ensures ParseSrtSpec(Render(blocks), buffer).Ok?
    ensures ParsedAs(ParseSrtSpec(Render(blocks), buffer).value, blocks, |blocks|, buffer)
  {
    RenderLaidOut(blocks);
    ParseBlocks(Render(blocks), blocks, 0, EmptyDict, buffer);
  }
}
