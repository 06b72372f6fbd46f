/** One pass of the merge engine (`combine_single_pass`, lines 196-334): the
    rates are recomputed, the entries ranked by distance from the goal, and the
    ranks visited in order; at the first rank whose gates let an entry fuse with
    a neighbour, the two are fused and the pass starts over, and when a sweep
    fuses nothing, or fuses at the last rank, the pass ends.

    The rank `i` is used as a position in the list: the candidate whose rate
    drives the decision is the `i`-th of the priority order, but the entries
    fused are those at positions `i` and `i + 1`, or `i - 1` and `i`, where
    position `-1` is the last entry, as in Python. */
module MergePass {
  import opened Results
  import opened PyText
  import SrtParse
  import opened SpeakingRate
  import SrtRoundTrip

  /** `gapThreshold`: the largest gap, in milliseconds, that still lets two entries fuse. */
  const GapThreshold := 100

  /** What one rank of the sweep does. */
  datatype Choice = Skip | WithNext | WithPrev

  /** `entryListLocal[i - 1]`: position `-1` is the last entry. */
  function PrevIndex(i: nat, n: nat): (p: nat)
    requires i < n
    ensures p < n && (i > 0 ==> p == i - 1) && (i == 0 ==> p == n - 1)
  {
    if i == 0 then n - 1 else i - 1
  }

  // ---------------------------------------------------------------- fusing two entries

  /** What `combine_with_next` and `combine_with_prev` make of the earlier entry
      `a` of a pair when it absorbs `b`: it keeps its start, its gap and its
      other fields, takes `b`'s ends, recomputes both durations, joins both texts
      with a space, and splices its timestamp line's left side to `b`'s right side. */
  predicate Fused(a: Entry, b: Entry, s: Entry) {
    && s.cue.startMs == a.cue.startMs && s.cue.startMsBuffered == a.cue.startMsBuffered
    && s.cue.endMs == b.cue.endMs && s.cue.endMsBuffered == b.cue.endMsBuffered
    && SrtParse.DurationsMatch(s.cue)
    && s.cue.text == a.cue.text + " " + b.cue.text
    && s.translatedText == a.translatedText + " " + b.translatedText
    && s.cue.breakUntilNext == a.cue.breakUntilNext
    && s.originalIndex == a.originalIndex && s.charRate == a.charRate && s.charRateDiff == a.charRateDiff
    && HasArrow(s.cue.timestampsLine)
    && (HasArrow(b.cue.timestampsLine) ==>
          s.cue.timestampsLine == LeftPiece(a.cue.timestampsLine) + Arrow + RightPiece(b.cue.timestampsLine))
    && (HasArrow(a.cue.timestampsLine) && HasArrow(b.cue.timestampsLine) ==>
          LeftPiece(s.cue.timestampsLine) == LeftPiece(a.cue.timestampsLine)
          && RightPiece(s.cue.timestampsLine) == RightPiece(b.cue.timestampsLine))
  }

  /** The spliced timestamp line has a separator, and its pieces are the two
      pieces it was made of when the left line has one. */
  lemma SpliceLine(x: string, y: string)
    requires HasArrow(y)
    ensures var line := LeftPiece(x) + Arrow + RightPiece(y);
      && HasArrow(line)
      && (HasArrow(x) ==> LeftPiece(line) == LeftPiece(x) && RightPiece(line) == RightPiece(y))
  {
    var line := LeftPiece(x) + Arrow + RightPiece(y);
    assert line[|LeftPiece(x)|..|LeftPiece(x)| + 5] == Arrow;
    assert ArrowAt(line, |LeftPiece(x)|);
    if HasArrow(x) {
      SplicePieces(x, y);
    }
  }

  /** The field writes of lines 245-251 (and 255-261): `b.split(' --> ')[1]`
      raises `IndexError` when `b`'s timestamp line has no separator. */
  function Fuse(a: Entry, b: Entry): (r: Result<Entry, MergeError>)
    ensures r.Ok? <==> HasArrow(b.cue.timestampsLine)
    ensures r.Err? ==> r.error == IndexError
    ensures r.Ok? ==> Fused(a, b, r.value)
  {
    if HasArrow(b.cue.timestampsLine) then
      var line := LeftPiece(a.cue.timestampsLine) + Arrow + RightPiece(b.cue.timestampsLine);
      SpliceLine(a.cue.timestampsLine, b.cue.timestampsLine);
      Ok(a.(cue := a.cue.(text := a.cue.text + " " + b.cue.text,
                          endMs := b.cue.endMs,
                          endMsBuffered := b.cue.endMsBuffered,
                          durationMs := b.cue.endMs - a.cue.startMs,
                          durationMsBuffered := b.cue.endMsBuffered - a.cue.startMsBuffered,
                          timestampsLine := line),
            translatedText := a.translatedText + " " + b.translatedText))
    else
      Err(IndexError)
  }

  /** `del` of position `i`. */
  function Delete(s: seq<Entry>, i: nat): (r: seq<Entry>)
    requires i < |s|
    ensures |r| == |s| - 1
    ensures forall k :: 0 <= k < i ==> r[k] == s[k]
    ensures forall k :: i <= k < |r| ==> r[k] == s[k + 1]
  {
    s[..i] + s[i + 1..]
  }

  /** `combine_with_next` (lines 244-252): the entry at `i` absorbs the one
      after it, which is deleted; every other entry stays where it was. */
  function CombineWithNext(entries: seq<Entry>, i: nat): (r: Result<seq<Entry>, MergeError>)
    requires i + 1 < |entries|
    ensures r.Ok? <==> HasArrow(entries[i + 1].cue.timestampsLine)
    ensures r.Err? ==> r.error == IndexError
    ensures r.Ok? ==> |r.value| == |entries| - 1
    ensures r.Ok? ==> Fused(entries[i], entries[i + 1], r.value[i])
    ensures r.Ok? ==> r.value[..i] == entries[..i] && r.value[i + 1..] == entries[i + 2..]
  {
    match Fuse(entries[i], entries[i + 1])
    case Err(e) => Err(e)
    case Ok(s) => Ok(Delete(entries[i := s], i + 1))
  }

  /** `combine_with_prev` (lines 254-262): the entry at `i - 1` absorbs the one
      at `i`, which is deleted. At `i = 0` the entry before is the last one: the
      last entry absorbs the first, and the fused entry ends the list. */
  function CombineWithPrev(entries: seq<Entry>, i: nat): (r: Result<seq<Entry>, MergeError>)
    requires i < |entries|
    ensures r.Ok? <==> HasArrow(entries[i].cue.timestampsLine)
    ensures r.Err? ==> r.error == IndexError
    ensures r.Ok? ==> |r.value| == |entries| - 1
    ensures r.Ok? && i > 0 ==>
      && Fused(entries[i - 1], entries[i], r.value[i - 1])
      && r.value[..i - 1] == entries[..i - 1] && r.value[i..] == entries[i + 1..]
    ensures r.Ok? && i == 0 && |entries| > 1 ==>
      && Fused(entries[|entries| - 1], entries[0], r.value[|entries| - 2])
      && r.value[..|entries| - 2] == entries[1..|entries| - 1]
  {
    var p := PrevIndex(i, |entries|);
    match Fuse(entries[p], entries[i])
    case Err(e) => Err(e)
    case Ok(s) => Ok(Delete(entries[p := s], i))
  }

  /** The fusion a choice names. */
  function Combine(c: Choice, entries: seq<Entry>, i: nat): Result<seq<Entry>, MergeError>
    requires c != Skip && i < |entries| && (c == WithNext ==> i + 1 < |entries|)
  {
    if c == WithNext then CombineWithNext(entries, i) else CombineWithPrev(entries, i)
  }

  // ---------------------------------------------------------------- the gates

  /** The gap after `e` is a number below the threshold (the placeholder `''`
      is not: comparing it raises `TypeError`). */
  predicate CloseGap(e: Entry) {
    e.cue.breakUntilNext.Some? && e.cue.breakUntilNext.value < GapThreshold
  }

  /** The two translated texts together are at most `maxChars` long. */
  predicate FitsLength(a: Entry, b: Entry, maxChars: int) {
    |a.translatedText| + |b.translatedText| <= maxChars
  }

  /** A neighbour's rate lies on the far side of the candidate's from the
      goal's direction: lower for a candidate over the goal, higher for one
      under it. Equal rates never qualify. */
  predicate TowardGoal(rate: real, other: real) {
    if rate > Goal then other < rate else other > rate
  }

  /** Fusing the candidate at rank `i` with the next entry passes the gates. */
  predicate NextOpen(rated: seq<Entry>, i: nat, data: Entry, maxChars: int) {
    && i + 1 < |rated|
    && TowardGoal(data.charRate, rated[i + 1].charRate)
    && CloseGap(rated[i])
    && FitsLength(rated[i], rated[i + 1], maxChars)
  }

  /** Fusing the candidate at rank `i` with the previous entry passes the gates. */
  predicate PrevOpen(rated: seq<Entry>, i: nat, data: Entry, maxChars: int)
    requires i < |rated|
  {
    var p := PrevIndex(i, |rated|);
    && TowardGoal(data.charRate, rated[p].charRate)
    && CloseGap(rated[p])
    && FitsLength(rated[p], rated[i], maxChars)
  }

  /** Python's truth value of a rate difference: `None` and `0` are false. */
  predicate Truthy(diff: Option<real>) {
    diff.Some? && diff.value != 0.0
  }

  /** The test of lines 268 and 278 on the next entry, which is not inside a
      `try`: comparing the placeholder gap raises `TypeError`. */
  function NextCheck(rated: seq<Entry>, i: nat, nextDiff: Option<real>, over: bool, maxChars: int): Result<bool, MergeError>
    requires i < |rated| && (nextDiff.Some? ==> i + 1 < |rated|)
  {
    if !Truthy(nextDiff) || (if over then nextDiff.value < 0.0 else nextDiff.value > 0.0) then Ok(false)
    else match rated[i].cue.breakUntilNext
      case None => Err(TypeError)
      case Some(gap) =>
        Ok(!(gap >= GapThreshold) && !(|rated[i].translatedText| + |rated[i + 1].translatedText| > maxChars))
  }

  /** The test of lines 270-274 and 280-284 on the previous entry, inside a
      `try` that turns `TypeError` into "not considered". */
  function PrevCheck(rated: seq<Entry>, i: nat, prevDiff: real, over: bool, maxChars: int): bool
    requires i < |rated|
  {
    var p := PrevIndex(i, |rated|);
    if prevDiff == 0.0 || (if over then prevDiff < 0.0 else prevDiff > 0.0) then false
    else match rated[p].cue.breakUntilNext
      case None => false
      case Some(gap) => !(gap >= GapThreshold) && !(|rated[p].translatedText| + |rated[i].translatedText| > maxChars)
  }

  /** One iteration of the `for` loop of lines 209-330 at rank `i`, whose
      candidate is `data`: skip it, or fuse at position `i` with the next or
      the previous entry. A candidate exactly at the goal is skipped; a
      neighbour is taken only through its gates; when both are open, the one
      whose rate is closer to the candidate's wins, and a tie goes to the
      previous entry. */
  function Decide(rated: seq<Entry>, i: nat, data: Entry, maxChars: int): (r: Result<Choice, MergeError>)
    requires i < |rated|
    ensures data.charRate == Goal ==> r == Ok(Skip)
    ensures r.Err? ==> r.error == TypeError && i + 1 < |rated| && rated[i].cue.breakUntilNext.None?
    ensures r == Ok(WithNext) ==> NextOpen(rated, i, data, maxChars)
    ensures r == Ok(WithPrev) ==> PrevOpen(rated, i, data, maxChars)
    ensures r.Ok? && data.charRate != Goal ==>
      && (NextOpen(rated, i, data, maxChars) && !PrevOpen(rated, i, data, maxChars) ==> r.value == WithNext)
      && (!NextOpen(rated, i, data, maxChars) && PrevOpen(rated, i, data, maxChars) ==> r.value == WithPrev)
      && (!NextOpen(rated, i, data, maxChars) && !PrevOpen(rated, i, data, maxChars) ==> r.value == Skip)
      && (NextOpen(rated, i, data, maxChars) && PrevOpen(rated, i, data, maxChars) ==>
            r.value == if Abs(data.charRate - rated[i + 1].charRate) < Abs(data.charRate - rated[PrevIndex(i, |rated|)].charRate)
                       then WithNext else WithPrev)
    ensures |rated| == 1 && data == rated[0] ==> r == Ok(Skip)
  {
    if !(data.charRate > Goal || data.charRate < Goal) then Ok(Skip)
    else
      var over := data.charRate > Goal;
      var nextDiff := if i + 1 < |rated| then Some(data.charRate - rated[i + 1].charRate) else None;
      var prevDiff := data.charRate - rated[PrevIndex(i, |rated|)].charRate;
      match NextCheck(rated, i, nextDiff, over, maxChars)
      case Err(e) => Err(e)
      case Ok(considerNext) =>
        var considerPrev := PrevCheck(rated, i, prevDiff, over, maxChars);
        if considerNext && considerPrev then
          if over then Ok(if nextDiff.value < prevDiff then WithNext else WithPrev)
          else Ok(if nextDiff.value > prevDiff then WithNext else WithPrev)
        else if considerNext then Ok(WithNext)
        else if considerPrev then Ok(WithPrev)
        else Ok(Skip)
  }

  /** Where the entry a fusion leaves sits in the shorter list: at `i` after
      `combine_with_next`, at `i - 1` after `combine_with_prev`, and last when
      the first entry was fused into the last one. */
  function Survivor(c: Choice, i: nat, n: nat): (p: nat)
    requires c != Skip && i < n && 1 < n && (c == WithNext ==> i + 1 < n)
    ensures p < n - 1
  {
    if c == WithNext then i else if i > 0 then i - 1 else n - 2
  }

  /** A fusion the sweep chooses only joins a pair that passed its gates: the
      fused translation, two texts and the space between them, is at most one
      character over `maxCharacters` (the space is not counted by the gate),
      and the fused entry keeps a gap below the threshold. */
  lemma FusionGated(rated: seq<Entry>, i: nat, data: Entry, maxChars: int, c: Choice)
    requires i < |rated| && data in rated
    requires Decide(rated, i, data, maxChars) == Ok(c) && c != Skip
    ensures 1 < |rated| && (c == WithNext ==> i + 1 < |rated|)
    ensures Combine(c, rated, i).Ok? ==>
      var s := Combine(c, rated, i).value[Survivor(c, i, |rated|)];
      && |s.translatedText| <= maxChars + 1
      && CloseGap(s)
  {
    if Combine(c, rated, i).Ok? {
      var r := Combine(c, rated, i).value;
      if c == WithNext {
        assert Fused(rated[i], rated[i + 1], r[i]);
      } else if i > 0 {
        assert Fused(rated[i - 1], rated[i], r[i - 1]);
      } else {
        assert Fused(rated[|rated| - 1], rated[0], r[|rated| - 2]);
      }
    }
  }

  // ---------------------------------------------------------------- one pass

  /** How a sweep over the ranks ends: nothing to fuse, or the fusion `choice`
      at rank `rank`, where the `for` loop breaks. */
  datatype Outcome = NoFusion | FuseAt(choice: Choice, rank: nat)

  /** The decisions of the `for` loop of lines 209-330 from rank `i` on: the
      first rank whose decision is not a skip is where the loop fuses. */
  function Sweep(rated: seq<Entry>, order: seq<Entry>, i: nat, maxChars: int): (r: Result<Outcome, MergeError>)
    requires |order| == |rated| && i <= |rated|
    requires forall k :: 0 <= k < |order| ==> order[k] in rated
    ensures r == Ok(NoFusion) ==> forall k :: i <= k < |rated| ==> Decide(rated, k, order[k], maxChars) == Ok(Skip)
    ensures r.Ok? && r.value.FuseAt? ==>
      && i <= r.value.rank < |rated| && 1 < |rated|
      && (forall k :: i <= k < r.value.rank ==> Decide(rated, k, order[k], maxChars) == Ok(Skip))
      && Decide(rated, r.value.rank, order[r.value.rank], maxChars) == Ok(r.value.choice)
      && r.value.choice != Skip
    ensures r.Err? ==> exists k :: i <= k < |rated| && Decide(rated, k, order[k], maxChars).Err?
    decreases |rated| - i
  {
    if i == |rated| then Ok(NoFusion)
    else match Decide(rated, i, order[i], maxChars)
      case Err(e) => Err(e)
      case Ok(Skip) => Sweep(rated, order, i + 1, maxChars)
      case Ok(c) => Ok(FuseAt(c, i))
  }

  /** Every entry of the priority order is an entry of the list. */
  lemma PriorityOrderMembers(rated: seq<Entry>)
    ensures |PriorityOrder(rated)| == |rated|
    ensures forall k :: 0 <= k < |rated| ==> PriorityOrder(rated)[k] in rated
  {
    PriorityOrderSorted(rated);
    var order := PriorityOrder(rated);
    forall k | 0 <= k < |rated| ensures order[k] in rated {
      assert order[k] in multiset(order);
    }
  }

  /** What one round of the `while` loop leaves: the list, and whether the
      loop ends (`reachedEndOfList`) or starts over. */
  datatype Step = Finished(list: seq<Entry>) | Restart(list: seq<Entry>)

  /** One iteration of the `while` loop of lines 200-330: rate, rank, sweep,
      and fuse at the first rank that fuses. The loop ends when nothing fuses,
      or when the fusion is at the last rank (which already set
      `reachedEndOfList`); otherwise it starts over on a list one entry shorter. */
  function Round(entries: seq<Entry>, maxChars: int): (r: Result<Step, MergeError>)
    requires |entries| > 0
    ensures r.Ok? ==> 0 < |r.value.list| <= |entries|
    ensures r.Ok? && r.value.Restart? ==> |r.value.list| == |entries| - 1
  {
    match Rates(entries)
    case Err(e) => Err(e)
    case Ok(rated) =>
      var order := PriorityOrder(rated);
      PriorityOrderMembers(rated);
      match Sweep(rated, order, 0, maxChars)
      case Err(e) => Err(e)
      case Ok(NoFusion) => Ok(Finished(rated))
      case Ok(FuseAt(c, rank)) =>
        match Combine(c, rated, rank)
        case Err(e) => Err(e)
        case Ok(fused) => Ok(if rank == |rated| - 1 then Finished(fused) else Restart(fused))
  }

  /** `combine_single_pass`: rounds until one ends the loop. Every restart
      follows a fusion, which deletes one entry, so a pass never grows the list
      and never empties it. */
  function Pass(entries: seq<Entry>, maxChars: int): (r: Result<seq<Entry>, MergeError>)
    requires |entries| > 0
    ensures r.Ok? ==> 0 < |r.value| <= |entries|
    decreases |entries|
  {
    match Round(entries, maxChars)
    case Err(e) => Err(e)
    case Ok(Finished(list)) => Ok(list)
    case Ok(Restart(list)) => Pass(list, maxChars)
  }

  /** Lines 201-330: one iteration of the `while` loop. The `for` loop over
      the priority order sets `reachedEndOfList` at the last rank and breaks
      after the first fusion. */
  method RunRound(entryListLocal: seq<Entry>, maxChars: int) returns (r: Result<Step, MergeError>)
    requires |entryListLocal| > 0
    ensures r == Round(entryListLocal, maxChars)
  {
    var rates := CalcListSpeakingRates(entryListLocal);
    if rates.Err? {
      return Err(rates.error);
    }
    var rated := rates.value;
    var priorityOrderedList := PriorityOrder(rated);
    PriorityOrderMembers(rated);
    var n := |priorityOrderedList|;
    for i := 0 to n
      invariant Sweep(rated, priorityOrderedList, 0, maxChars) == Sweep(rated, priorityOrderedList, i, maxChars)
    {
      var reachedEndOfList := i == n - 1;
      var choice := Decide(rated, i, priorityOrderedList[i], maxChars);
      if choice.Err? {
        return Err(choice.error);
      }
      if choice.value != Skip {
        var combined := Combine(choice.value, rated, i);
        if combined.Err? {
          return Err(combined.error);
        }
        return Ok(if reachedEndOfList then Finished(combined.value) else Restart(combined.value));
      }
    }
    return Ok(Finished(rated));
  }

  /** Lines 196-334: the `while not reachedEndOfList` loop, which runs rounds
      on `entryListLocal` until one ends it. */
  method CombineSinglePass(entryList: seq<Entry>, maxChars: int) returns (r: Result<seq<Entry>, MergeError>)
    requires |entryList| > 0
    ensures r == Pass(entryList, maxChars)
    ensures r.Ok? ==> 0 < |r.value| <= |entryList|
  {
    var entryListLocal := entryList;
    var reachedEndOfList := false;
    while !reachedEndOfList
      invariant 0 < |entryListLocal| <= |entryList|
      invariant Pass(entryList, maxChars) == if reachedEndOfList then Ok(entryListLocal) else Pass(entryListLocal, maxChars)
      decreases |entryListLocal| + (if reachedEndOfList then 0 else 1)
    {
      var step := RunRound(entryListLocal, maxChars);
      if step.Err? {
        return Err(step.error);
      }
      entryListLocal := step.value.list;
      reachedEndOfList := step.value.Finished?;
    }
    return Ok(entryListLocal);
  }

  // ---------------------------------------------------------------- what a pass keeps

  /** Every timestamp line can be split at `' --> '`. */
  predicate Arrowed(entries: seq<Entry>) {
    forall k :: 0 <= k < |entries| ==> HasArrow(entries[k].cue.timestampsLine)
  }

  /** Only the last entry may still hold the placeholder gap. */
  predicate GapsSet(entries: seq<Entry>) {
    forall k :: 0 <= k < |entries| - 1 ==> entries[k].cue.breakUntilNext.Some?
  }

  /** Every timestamp line is exactly two clocks around the separator. */
  predicate Stamped(entries: seq<Entry>) {
    forall k :: 0 <= k < |entries| ==> SrtRoundTrip.WellFormedTimeLine(entries[k].cue.timestampsLine)
  }

  /** The translated text, counting one separator per entry: what fusing
      moves around but never adds to or loses. */
  function Weight(entries: seq<Entry>): nat {
    if entries == [] then 0 else |entries[0].translatedText| + 1 + Weight(entries[1..])
  }

  lemma {:induction false} WeightAppend(s: seq<Entry>, t: seq<Entry>)
    ensures Weight(s + t) == Weight(s) + Weight(t)
    decreases |s|
  {
    if s == [] {
      assert s + t == t;
    } else {
      assert (s + t)[0] == s[0] && (s + t)[1..] == s[1..] + t;
      WeightAppend(s[1..], t);
    }
  }

  lemma {:induction false} WeightSameTexts(s: seq<Entry>, t: seq<Entry>)
    requires |s| == |t| && forall k :: 0 <= k < |s| ==> s[k].translatedText == t[k].translatedText
    ensures Weight(s) == Weight(t)
    decreases |s|
  {
    if s != [] {
      WeightSameTexts(s[1..], t[1..]);
    }
  }

  /** No character of a clock is a space. */
  lemma ClockHasNoSpace(t: string, p: nat)
    requires p + 12 <= |t| && SrtParse.ClockAt(t, p)
    ensures forall j :: p <= j < p + 12 ==> t[j] != ' '
  {
    forall j | p <= j < p + 12 ensures t[j] != ' ' {
      var d := j - p;
      assert d == 0 || d == 1 || d == 2 || d == 3 || d == 4 || d == 5 || d == 6 || d == 7 || d == 8 || d == 9 || d == 10 || d == 11;
    }
  }

  /** A timestamp line of two clocks splits into the two clocks. */
  lemma StampedPieces(t: string)
    requires SrtRoundTrip.WellFormedTimeLine(t)
    ensures HasArrow(t) && LeftPiece(t) == t[..12] && RightPiece(t) == t[17..]
  {
    assert ArrowAt(t, 12) by { assert t[12..17] == Arrow; }
    ClockHasNoSpace(t, 0);
    ClockHasNoSpace(t, 17);
    forall j | 0 <= j < 12 ensures !ArrowAt(t, j) {
      assert t[j..j + 5][0] == t[j];
    }
    FindArrowFirst(t, 0, 12);
    forall j | 17 <= j ensures !ArrowAt(t, j) {
      if j + 5 <= |t| {
        assert t[j..j + 5][0] == t[j];
      }
    }
    FindArrowNone(t, 17);
  }

  /** The start clock of one timestamp line and the end clock of another,
      around the separator, make a timestamp line of two clocks. */
  lemma JoinClocks(x: string, y: string)
    requires SrtRoundTrip.WellFormedTimeLine(x) && SrtRoundTrip.WellFormedTimeLine(y)
    ensures var line := x[..12] + Arrow + y[17..];
      && SrtRoundTrip.WellFormedTimeLine(line)
      && SrtParse.ClockMs(line, 0) == SrtParse.ClockMs(x, 0)
      && SrtParse.ClockMs(line, 17) == SrtParse.ClockMs(y, 17)
  {
    var u, v := x[..12], y[17..];
    assert u == x[0..12] && v == y[17..29];
    SrtRoundTrip.ClockAtSlice(x, 0);
    SrtRoundTrip.ClockAtSlice(y, 17);
    SrtRoundTrip.ArrowJoin(u, v);
    assert SrtParse.ClockMs(u + Arrow + v, 0) == SrtParse.ClockMs(u, 0) == SrtParse.ClockMs(x, 0);
    assert SrtParse.ClockMs(u + Arrow + v, 17) == SrtParse.ClockMs(v, 0) == SrtParse.ClockMs(y, 17);
  }

  /** Splicing two timestamp lines of two clocks gives one of two clocks:
      the first line's start clock and the second line's end clock. */
  lemma StampedSplice(x: string, y: string)
    requires SrtRoundTrip.WellFormedTimeLine(x) && SrtRoundTrip.WellFormedTimeLine(y)
    ensures HasArrow(y)
    ensures var line := LeftPiece(x) + Arrow + RightPiece(y);
      && SrtRoundTrip.WellFormedTimeLine(line)
      && SrtParse.ClockMs(line, 0) == SrtParse.ClockMs(x, 0)
      && SrtParse.ClockMs(line, 17) == SrtParse.ClockMs(y, 17)
  {
    StampedPieces(x);
    StampedPieces(y);
    JoinClocks(x, y);
  }

  /** Replacing the pair at `i` and `i + 1` by one entry whose line is two
      clocks keeps every line two clocks. */
  lemma StampedFused(s: seq<Entry>, r: seq<Entry>, i: nat)
    requires i + 1 < |s| && |r| == |s| - 1
    requires r[..i] == s[..i] && r[i + 1..] == s[i + 2..]
    requires Stamped(s) && SrtRoundTrip.WellFormedTimeLine(r[i].cue.timestampsLine)
    ensures Stamped(r)
  {
    forall k | 0 <= k < |r| ensures SrtRoundTrip.WellFormedTimeLine(r[k].cue.timestampsLine) {
      if k < i {
        assert r[k] == r[..i][k] == s[..i][k] == s[k];
      } else if k > i {
        assert r[k] == r[i + 1..][k - i - 1] == s[i + 2..][k - i - 1] == s[k + 1];
      }
    }
  }

  /** Moving the first entry to the end, fused into a last entry whose line is
      two clocks, keeps every line two clocks. */
  lemma StampedWrapped(s: seq<Entry>, r: seq<Entry>)
    requires 1 < |s| && |r| == |s| - 1
    requires r[..|r| - 1] == s[1..|s| - 1]
    requires Stamped(s) && SrtRoundTrip.WellFormedTimeLine(r[|r| - 1].cue.timestampsLine)
    ensures Stamped(r)
  {
    forall k | 0 <= k < |r| - 1 ensures SrtRoundTrip.WellFormedTimeLine(r[k].cue.timestampsLine) {
      assert r[k] == r[..|r| - 1][k] == s[1..|s| - 1][k] == s[k + 1];
    }
  }

  /** Replacing the pair at `i` and `i + 1` by one entry whose text is theirs
      joined by a space keeps the weight. */
  lemma WeightFused(s: seq<Entry>, r: seq<Entry>, i: nat)
    requires i + 1 < |s| && |r| == |s| - 1
    requires r[..i] == s[..i] && r[i + 1..] == s[i + 2..]
    requires |r[i].translatedText| == |s[i].translatedText| + |s[i + 1].translatedText| + 1
    ensures Weight(r) == Weight(s)
  {
    assert s == s[..i] + s[i..];
    assert r == r[..i] + r[i..];
    WeightAppend(s[..i], s[i..]);
    WeightAppend(r[..i], r[i..]);
    assert s[i..][1..] == s[i + 1..] && s[i + 1..][1..] == s[i + 2..];
    assert r[i..][1..] == r[i + 1..];
  }

  /** The same, for the pair at `i - 1` and `i`. */
  lemma WeightFusedBefore(s: seq<Entry>, r: seq<Entry>, i: nat)
    requires 0 < i < |s| && |r| == |s| - 1
    requires r[..i - 1] == s[..i - 1] && r[i..] == s[i + 1..]
    requires |r[i - 1].translatedText| == |s[i - 1].translatedText| + |s[i].translatedText| + 1
    ensures Weight(r) == Weight(s)
  {
    WeightFused(s, r, i - 1);
  }

  /** Moving the first entry to the end, fused into the last, keeps the weight. */
  lemma WeightWrapped(s: seq<Entry>, r: seq<Entry>)
    requires 1 < |s| && |r| == |s| - 1
    requires r[..|r| - 1] == s[1..|s| - 1]
    requires |r[|r| - 1].translatedText| == |s[|s| - 1].translatedText| + |s[0].translatedText| + 1
    ensures Weight(r) == Weight(s)
  {
    var n := |s|;
    assert s[1..] == s[1..n - 1] + [s[n - 1]];
    WeightAppend(s[1..n - 1], [s[n - 1]]);
    assert r == r[..n - 2] + [r[n - 2]];
    WeightAppend(r[..n - 2], [r[n - 2]]);
  }

  /** Fusing with the next entry keeps every line splittable. */
  lemma NextArrowed(entries: seq<Entry>, i: nat)
    requires i + 1 < |entries| && CombineWithNext(entries, i).Ok? && Arrowed(entries)
    ensures Arrowed(CombineWithNext(entries, i).value)
  {
  }

  /** Fusing with the next entry keeps every gap but the last set. */
  lemma NextGaps(entries: seq<Entry>, i: nat)
    requires i + 1 < |entries| && CombineWithNext(entries, i).Ok? && GapsSet(entries)
    ensures GapsSet(CombineWithNext(entries, i).value)
  {
  }

  /** Fusing with the next entry keeps every line two clocks. */
  lemma NextStamped(entries: seq<Entry>, i: nat)
    requires i + 1 < |entries| && CombineWithNext(entries, i).Ok? && Stamped(entries)
    ensures Stamped(CombineWithNext(entries, i).value)
  {
    StampedSplice(entries[i].cue.timestampsLine, entries[i + 1].cue.timestampsLine);
    StampedFused(entries, CombineWithNext(entries, i).value, i);
  }

  lemma NextWeight(entries: seq<Entry>, i: nat)
    requires i + 1 < |entries| && CombineWithNext(entries, i).Ok?
    ensures Weight(CombineWithNext(entries, i).value) == Weight(entries)
  {
    WeightFused(entries, CombineWithNext(entries, i).value, i);
  }

  /** Fusing with the previous entry keeps every line splittable. */
  lemma PrevArrowed(entries: seq<Entry>, i: nat)
    requires i < |entries| && CombineWithPrev(entries, i).Ok? && Arrowed(entries)
    ensures Arrowed(CombineWithPrev(entries, i).value)
  {
  }

  /** Fusing with the previous entry keeps every gap but the last set. */
  lemma PrevGaps(entries: seq<Entry>, i: nat)
    requires i < |entries| && CombineWithPrev(entries, i).Ok? && GapsSet(entries)
    ensures GapsSet(CombineWithPrev(entries, i).value)
  {
  }

  /** Fusing with the previous entry keeps every line two clocks. */
  lemma PrevStamped(entries: seq<Entry>, i: nat)
    requires 1 < |entries| && i < |entries| && CombineWithPrev(entries, i).Ok? && Stamped(entries)
    ensures Stamped(CombineWithPrev(entries, i).value)
  {
    if i > 0 {
      InnerPrevStamped(entries, i);
    } else {
      WrappedPrevStamped(entries);
    }
  }

  lemma InnerPrevStamped(entries: seq<Entry>, i: nat)
    requires 0 < i < |entries| && CombineWithPrev(entries, i).Ok? && Stamped(entries)
    ensures Stamped(CombineWithPrev(entries, i).value)
  {
    StampedSplice(entries[i - 1].cue.timestampsLine, entries[i].cue.timestampsLine);
    StampedFused(entries, CombineWithPrev(entries, i).value, i - 1);
  }

  lemma WrappedPrevStamped(entries: seq<Entry>)
    requires 1 < |entries| && CombineWithPrev(entries, 0).Ok? && Stamped(entries)
    ensures Stamped(CombineWithPrev(entries, 0).value)
  {
    StampedSplice(entries[|entries| - 1].cue.timestampsLine, entries[0].cue.timestampsLine);
    StampedWrapped(entries, CombineWithPrev(entries, 0).value);
  }

  lemma PrevWeight(entries: seq<Entry>, i: nat)
    requires 1 < |entries| && i < |entries| && CombineWithPrev(entries, i).Ok?
    ensures Weight(CombineWithPrev(entries, i).value) == Weight(entries)
  {
    if i > 0 {
      InnerPrevWeight(entries, i);
    } else {
      WrappedPrevWeight(entries);
    }
  }

  lemma InnerPrevWeight(entries: seq<Entry>, i: nat)
    requires 0 < i < |entries| && CombineWithPrev(entries, i).Ok?
    ensures Weight(CombineWithPrev(entries, i).value) == Weight(entries)
  {
    WeightFusedBefore(entries, CombineWithPrev(entries, i).value, i);
  }

  lemma WrappedPrevWeight(entries: seq<Entry>)
    requires 1 < |entries| && CombineWithPrev(entries, 0).Ok?
    ensures Weight(CombineWithPrev(entries, 0).value) == Weight(entries)
  {
    WeightWrapped(entries, CombineWithPrev(entries, 0).value);
  }

  /** What holds of the list before any fusion holds of the list after it. */
  lemma CombineKeeps(c: Choice, entries: seq<Entry>, i: nat)
    requires c != Skip && 1 < |entries| && i < |entries| && (c == WithNext ==> i + 1 < |entries|)
    requires Combine(c, entries, i).Ok?
    ensures var r := Combine(c, entries, i).value;
      && (Arrowed(entries) ==> Arrowed(r))
      && (GapsSet(entries) ==> GapsSet(r))
      && (Stamped(entries) ==> Stamped(r))
      && Weight(r) == Weight(entries)
  {
    if c == WithNext {
      if Arrowed(entries) { NextArrowed(entries, i); }
      if GapsSet(entries) { NextGaps(entries, i); }
      if Stamped(entries) { NextStamped(entries, i); }
      NextWeight(entries, i);
    } else {
      if Arrowed(entries) { PrevArrowed(entries, i); }
      if GapsSet(entries) { PrevGaps(entries, i); }
      if Stamped(entries) { PrevStamped(entries, i); }
      PrevWeight(entries, i);
    }
  }

  /** Rating changes no cue (so no timestamp line or gap) and no translated text. */
  lemma RatesKeep(entries: seq<Entry>)
    requires Rates(entries).Ok?
    ensures var rated := Rates(entries).value;
      && |rated| == |entries|
      && (forall k :: 0 <= k < |rated| ==> rated[k].cue == entries[k].cue && rated[k].translatedText == entries[k].translatedText)
      && (Arrowed(entries) ==> Arrowed(rated))
      && (GapsSet(entries) ==> GapsSet(rated))
      && (Stamped(entries) ==> Stamped(rated))
      && Weight(rated) == Weight(entries)
  {
    WeightSameTexts(Rates(entries).value, entries);
  }

  /** On a list whose gaps are all set but the last, a sweep raises nothing. */
  lemma {:induction false} SweepSafe(rated: seq<Entry>, order: seq<Entry>, i: nat, maxChars: int)
    requires |order| == |rated| && i <= |rated|
    requires forall k :: 0 <= k < |order| ==> order[k] in rated
    requires GapsSet(rated)
    ensures Sweep(rated, order, i, maxChars).Ok?
    decreases |rated| - i
  {
    if i < |rated| {
      if Decide(rated, i, order[i], maxChars) == Ok(Skip) {
        SweepSafe(rated, order, i + 1, maxChars);
      }
    }
  }

  /** One round keeps every timestamp line splittable, every gap but the
      last set, every line of two clocks, and the weight of the texts. */
  lemma RoundKeeps(entries: seq<Entry>, maxChars: int)
    requires |entries| > 0
    ensures Round(entries, maxChars).Ok? ==>
      var r := Round(entries, maxChars).value.list;
      && (Arrowed(entries) ==> Arrowed(r))
      && (GapsSet(entries) ==> GapsSet(r))
      && (Stamped(entries) ==> Stamped(r))
      && Weight(r) == Weight(entries)
  {
    match Rates(entries)
    case Err(_) =>
    case Ok(rated) =>
      RatesKeep(entries);
      PriorityOrderMembers(rated);
      match Sweep(rated, PriorityOrder(rated), 0, maxChars)
      case Ok(FuseAt(c, rank)) =>
        if Combine(c, rated, rank).Ok? {
          CombineKeeps(c, rated, rank);
        }
      case _ =>
  }

  /** On a list whose lines split and whose gaps are set, the only exception
      a round can raise is the division by zero of an entry that lasts 0 ms. */
  lemma RoundSafe(entries: seq<Entry>, maxChars: int)
    requires |entries| > 0 && Arrowed(entries) && GapsSet(entries)
    ensures Round(entries, maxChars).Err? ==> Round(entries, maxChars).error == ZeroDivisionError
  {
    if Rates(entries).Ok? {
      var rated := Rates(entries).value;
      RatesKeep(entries);
      var order := PriorityOrder(rated);
      PriorityOrderMembers(rated);
      SweepSafe(rated, order, 0, maxChars);
    }
  }

  /** A pass keeps what every round keeps, and on a list whose lines split
      and whose gaps are set, the only exception it can raise is the division
      by zero of an entry that lasts 0 ms. */
  lemma {:induction false} PassKeeps(entries: seq<Entry>, maxChars: int)
    requires |entries| > 0
    ensures Pass(entries, maxChars).Ok? ==>
      var r := Pass(entries, maxChars).value;
      && (Arrowed(entries) ==> Arrowed(r))
      && (GapsSet(entries) ==> GapsSet(r))
      && (Stamped(entries) ==> Stamped(r))
      && Weight(r) == Weight(entries)
    ensures Pass(entries, maxChars).Err? && Arrowed(entries) && GapsSet(entries) ==>
      Pass(entries, maxChars).error == ZeroDivisionError
    decreases |entries|
  {
    RoundKeeps(entries, maxChars);
    if Arrowed(entries) && GapsSet(entries) {
      RoundSafe(entries, maxChars);
    }
    var step := Round(entries, maxChars);
    if step.Ok? && step.value.Restart? {
      PassKeeps(step.value.list, maxChars);
    }
  }

  // ---------------------------------------------------------------- the wrap at rank 0

  /** A cue from 1 s to 2 s whose translation `tx` is read too fast when it
      has 30 characters. */
  function FastCue(tx: string, lx: string): Entry {
    Entry(SrtParse.Cue(1000, 2000, 1000, "x", Some(50), lx, 1000, 2000, 1000), tx, 0, 0.0, 0.0)
  }

  /** A cue from 3 s to 4 s whose translation `ty` is read too slowly when it
      has 10 characters. */
  function SlowCue(ty: string, ly: string): Entry {
    Entry(SrtParse.Cue(3000, 4000, 1000, "y", Some(50), ly, 3000, 4000, 1000), ty, 1, 0.0, 0.0)
  }

  /** Two cues whose gaps are both set and below the threshold, the last
      cue's included (in a file of two or more cues the reader leaves the last
      gap unset; only an earlier fusion, such as one in the first pass, gives
      a last entry a set gap).
      With the two equally far from the goal, the first is ranked first; its
      previous entry is position `-1`, the second cue, which is as close in
      rate as the next one (the same cue), so the tie sends it to
      `combine_with_prev`: the second cue absorbs the first. The pass ends
      with one entry that starts at 3 s, ends at 2 s, lasts -1 s, and whose
      texts come in reverse order. */
  lemma WrapAroundFusion(tx: string, lx: string, ty: string, ly: string)
    requires |tx| == 30 && |ty| == 10 && HasArrow(lx)
    ensures Pass([FastCue(tx, lx), SlowCue(ty, ly)], 200).Ok?
    ensures var r := Pass([FastCue(tx, lx), SlowCue(ty, ly)], 200).value;
      && |r| == 1
      && r[0].cue.startMs == 3000 && r[0].cue.endMs == 2000 && r[0].cue.durationMs == -1000
      && r[0].cue.text == "y x"
      && r[0].translatedText == ty + " " + tx
  {
    var fused := WrapFirstRound(tx, lx, ty, ly);
    WrapSecondRound(fused);
  }

  /** The two cues rated: 30 and 10 characters per second, both 10 from the
      goal, so the stable sort keeps them in list order. */
  lemma WrapRated(tx: string, lx: string, ty: string, ly: string) returns (rated: seq<Entry>)
    requires |tx| == 30 && |ty| == 10
    ensures Rates([FastCue(tx, lx), SlowCue(ty, ly)]) == Ok(rated) && |rated| == 2
    ensures rated[0].charRate == 30.0 && rated[1].charRate == 10.0
    ensures rated[0].cue == FastCue(tx, lx).cue && rated[1].cue == SlowCue(ty, ly).cue
    ensures rated[0].translatedText == tx && rated[1].translatedText == ty
    ensures PriorityOrder(rated) == rated
  {
    rated := Rates([FastCue(tx, lx), SlowCue(ty, ly)]).value;
    assert rated[0].charRateDiff == 10.0 && rated[1].charRateDiff == 10.0;
    assert rated[..1] == [rated[0]];
    assert PriorityOrder(rated[..0]) == [];
    assert PriorityOrder(rated[..1]) == Insert(rated[0], []) == [rated[0]];
    assert Insert(rated[1], [rated[0]]) == [rated[0]] + Insert(rated[1], []) == rated;
  }

  /** The first cue, over the goal, finds both neighbours open, and they
      are one and the same cue: the tie goes to the previous one. */
  lemma WrapDecide(rated: seq<Entry>)
    requires |rated| == 2 && rated[0].charRate == 30.0 && rated[1].charRate == 10.0
    requires rated[0].cue.breakUntilNext == Some(50) && rated[1].cue.breakUntilNext == Some(50)
    requires |rated[0].translatedText| + |rated[1].translatedText| <= 200
    ensures Decide(rated, 0, rated[0], 200) == Ok(WithPrev)
  {
    assert NextCheck(rated, 0, Some(20.0), true, 200) == Ok(true);
    assert PrevCheck(rated, 0, 20.0, true, 200);
  }

  /** The first round fuses the first cue into the second and starts over. */
  lemma WrapFirstRound(tx: string, lx: string, ty: string, ly: string) returns (fused: seq<Entry>)
    requires |tx| == 30 && |ty| == 10 && HasArrow(lx)
    ensures Round([FastCue(tx, lx), SlowCue(ty, ly)], 200) == Ok(Restart(fused))
    ensures |fused| == 1
    ensures fused[0].cue.startMs == 3000 && fused[0].cue.endMs == 2000 && fused[0].cue.durationMs == -1000
    ensures fused[0].cue.text == "y x"
    ensures fused[0].translatedText == ty + " " + tx
  {
    var rated := WrapRated(tx, lx, ty, ly);
    WrapDecide(rated);
    assert Sweep(rated, rated, 0, 200) == Ok(FuseAt(WithPrev, 0));
    fused := CombineWithPrev(rated, 0).value;
  }

  /** A single entry is never fused: the second round ends the pass. */
  lemma WrapSecondRound(fused: seq<Entry>)
    requires |fused| == 1 && fused[0].cue.durationMs == -1000
    ensures Round(fused, 200) == Ok(Finished(Rates(fused).value))
    ensures Rates(fused).value[0].cue == fused[0].cue && Rates(fused).value[0].translatedText == fused[0].translatedText
  {
    var rated := Rates(fused).value;
    assert Decide(rated, 0, PriorityOrder(rated)[0], 200) == Ok(Skip) by {
      PriorityOrderMembers(rated);
    }
  }
}
