/** The speaking-rate model of the merge engine: one entry per subtitle, its
    rate in characters per second of translated text, the distance of that
    rate from the goal of 20, and the order in which a pass visits the entries
    (largest distance first, ties in list order). */
module SpeakingRate {
  import opened Results
  import SrtParse

  /** `charRateGoal`: the rate the merge engine steers towards. */
  const Goal: real := 20.0

  /** The exceptions the merge engine can raise; each one aborts the script. */
  datatype MergeError =
    | ZeroDivisionError  // an entry whose duration is 0 gets a rate
    | TypeError          // the placeholder gap `''` is compared with a number outside a `try`
    | IndexError         // a timestamp line to be spliced has no `' --> '`
    | ValueError         // a key of the input dictionary is not an integer

  /** One element of `entryList`: the value the reader stored for a cue, with
      the keys the engine adds to it. `charRate` and `charRateDiff` hold 0 until
      the first rate computation writes them; nothing reads them before. */
  datatype Entry = Entry(
    cue: SrtParse.Cue,
    translatedText: string,
    originalIndex: int,
    charRate: real,
    charRateDiff: real)

  function Abs(x: real): (r: real)
    ensures r >= 0.0 && (r == x || r == -x)
  {
    if x < 0.0 then -x else x
  }

  /** `len(translated_text) / (duration_ms / 1000)`: characters per second. */
  function CharRate(e: Entry): real
    requires e.cue.durationMs != 0
  {
    (|e.translatedText| as real) * 1000.0 / (e.cue.durationMs as real)
  }

  /** An entry with its rate and its distance from the goal written in. */
  function WithRate(e: Entry): (r: Entry)
    requires e.cue.durationMs != 0
    ensures r.cue == e.cue && r.translatedText == e.translatedText && r.originalIndex == e.originalIndex
    ensures r.charRate * (e.cue.durationMs as real) == (|e.translatedText| as real) * 1000.0
    ensures r.charRateDiff == Abs(r.charRate - Goal)
    ensures r.charRateDiff == 0.0 <==> r.charRate == Goal
  {
    e.(charRate := CharRate(e), charRateDiff := Abs(CharRate(e) - Goal))
  }

  predicate NoZeroDuration(entries: seq<Entry>) {
    forall k :: 0 <= k < |entries| ==> entries[k].cue.durationMs != 0
  }

  /** What `calc_list_speaking_rates` returns: a copy of the list with every
      rate written in, or the division by zero of the first entry that lasts 0 ms. */
  function Rates(entries: seq<Entry>): Result<seq<Entry>, MergeError> {
    if NoZeroDuration(entries) then Ok(seq(|entries|, k requires 0 <= k < |entries| => WithRate(entries[k])))
    else Err(ZeroDivisionError)
  }

  /** Lines 355-362: the loop over a copy of the list that writes each entry's
      rate and distance from the goal. */
  method CalcListSpeakingRates(inputList: seq<Entry>) returns (r: Result<seq<Entry>, MergeError>)
    ensures r.Ok? <==> forall k :: 0 <= k < |inputList| ==> inputList[k].cue.durationMs != 0
    ensures r.Err? ==> r.error == ZeroDivisionError
    ensures r.Ok? ==> |r.value| == |inputList|
    ensures r.Ok? ==> forall k :: 0 <= k < |inputList| ==>
      && r.value[k].cue == inputList[k].cue
      && r.value[k].translatedText == inputList[k].translatedText
      && r.value[k].originalIndex == inputList[k].originalIndex
      && r.value[k].charRate * (inputList[k].cue.durationMs as real) == (|inputList[k].translatedText| as real) * 1000.0
      && r.value[k].charRateDiff == Abs(r.value[k].charRate - Goal)
    ensures r == Rates(inputList)
  {
    var tempList := inputList;
    for i := 0 to |tempList|
      invariant |tempList| == |inputList|
      invariant forall k :: 0 <= k < i ==> inputList[k].cue.durationMs != 0 && tempList[k] == WithRate(inputList[k])
      invariant forall k :: i <= k < |tempList| ==> tempList[k] == inputList[k]
    {
      if tempList[i].cue.durationMs == 0 {
        return Err(ZeroDivisionError);
      }
      tempList := tempList[i := WithRate(tempList[i])];
    }
    assert tempList == seq(|inputList|, k requires 0 <= k < |inputList| => WithRate(inputList[k]));
    return Ok(tempList);
  }

  // ---------------------------------------------------------------- priority order

  /** `s` is ordered by decreasing distance from the goal. */
  predicate Descending(s: seq<Entry>) {
    forall a, b :: 0 <= a < b < |s| ==> s[a].charRateDiff >= s[b].charRateDiff
  }

  /** Places `x` after every entry at least as far from the goal. */
  function Insert(x: Entry, s: seq<Entry>): seq<Entry> {
    if s == [] || s[0].charRateDiff < x.charRateDiff then [x] + s
    else [s[0]] + Insert(x, s[1..])
  }

  /** `sorted(entryListLocal, key=itemgetter('char_rate_diff'), reverse=True)`:
      Python's sort is stable, also when reversed, so entries at the same
      distance keep their list order. */
  function PriorityOrder(entries: seq<Entry>): seq<Entry>
    decreases |entries|
  {
    if entries == [] then []
    else Insert(entries[|entries| - 1], PriorityOrder(entries[..|entries| - 1]))
  }

  /** The entries of `s` at distance `v` from the goal, in their order in `s`. */
  function AtDistance(s: seq<Entry>, v: real): seq<Entry> {
    if s == [] then []
    else (if s[0].charRateDiff == v then [s[0]] else []) + AtDistance(s[1..], v)
  }

  lemma {:induction false} InsertCount(x: Entry, s: seq<Entry>)
    ensures multiset(Insert(x, s)) == multiset(s) + multiset{x}
    decreases |s|
  {
    if s != [] && s[0].charRateDiff >= x.charRateDiff {
      InsertCount(x, s[1..]);
      assert s == [s[0]] + s[1..];
    }
  }

  lemma {:induction false} InsertSorted(x: Entry, s: seq<Entry>)
    requires Descending(s)
    ensures Descending(Insert(x, s))
    decreases |s|
  {
    if s != [] && s[0].charRateDiff >= x.charRateDiff {
      var t := Insert(x, s[1..]);
      InsertSorted(x, s[1..]);
      InsertCount(x, s[1..]);
      forall k | 0 <= k < |t| ensures s[0].charRateDiff >= t[k].charRateDiff {
        assert t[k] in multiset(t);
        if t[k] != x {
          assert t[k] in multiset(s[1..]);
          assert t[k] in s[1..];
        }
      }
    }
  }

  /** The priority order is a permutation of the list. */
  lemma {:induction false} PriorityOrderCount(entries: seq<Entry>)
    ensures multiset(PriorityOrder(entries)) == multiset(entries)
    ensures |PriorityOrder(entries)| == |entries|
    decreases |entries|
  {
    if entries != [] {
      var init, last := entries[..|entries| - 1], entries[|entries| - 1];
      PriorityOrderCount(init);
      InsertCount(last, PriorityOrder(init));
      assert entries == init + [last];
      assert multiset(entries) == multiset(init) + multiset{last};
      assert |PriorityOrder(entries)| == |multiset(PriorityOrder(entries))| == |multiset(entries)|;
    }
  }

  lemma {:induction false} PriorityOrderDescending(entries: seq<Entry>)
    ensures Descending(PriorityOrder(entries))
    decreases |entries|
  {
    if entries != [] {
      var init, last := entries[..|entries| - 1], entries[|entries| - 1];
      PriorityOrderDescending(init);
      InsertSorted(last, PriorityOrder(init));
    }
  }

  /** The priority order is sorted by decreasing distance and is a permutation
      of the list. */
  lemma PriorityOrderSorted(entries: seq<Entry>)
    ensures Descending(PriorityOrder(entries))
    ensures multiset(PriorityOrder(entries)) == multiset(entries)
    ensures |PriorityOrder(entries)| == |entries|
  {
    PriorityOrderDescending(entries);
    PriorityOrderCount(entries);
  }

  lemma {:induction false} AtDistanceAppend(s: seq<Entry>, t: seq<Entry>, v: real)
    ensures AtDistance(s + t, v) == AtDistance(s, v) + AtDistance(t, v)
    decreases |s|
  {
    if s != [] {
      assert (s + t)[0] == s[0] && (s + t)[1..] == s[1..] + t;
      AtDistanceAppend(s[1..], t, v);
    } else {
      assert s + t == t;
    }
  }

  lemma {:induction false} AtDistanceNone(s: seq<Entry>, v: real)
    requires forall k :: 0 <= k < |s| ==> s[k].charRateDiff < v
    ensures AtDistance(s, v) == []
    decreases |s|
  {
    if s != [] {
      AtDistanceNone(s[1..], v);
    }
  }

  lemma {:induction false} InsertAtDistance(x: Entry, s: seq<Entry>, v: real)
    requires Descending(s)
    ensures AtDistance(Insert(x, s), v) == AtDistance(s, v) + (if x.charRateDiff == v then [x] else [])
    decreases |s|
  {
    if s == [] || s[0].charRateDiff < x.charRateDiff {
      if x.charRateDiff == v {
        AtDistanceNone(s, v);
      }
      assert ([x] + s)[1..] == s;
    } else {
      InsertAtDistance(x, s[1..], v);
      assert ([s[0]] + Insert(x, s[1..]))[1..] == Insert(x, s[1..]);
    }
  }

  /** The sort is stable: the entries at any one distance from the goal come
      in the priority order exactly as they come in the list. */
  lemma {:induction false} PriorityOrderStable(entries: seq<Entry>, v: real)
    ensures AtDistance(PriorityOrder(entries), v) == AtDistance(entries, v)
    decreases |entries|
  {
    if entries != [] {
      var init, x := entries[..|entries| - 1], entries[|entries| - 1];
      PriorityOrderStable(init, v);
      PriorityOrderSorted(init);
      InsertAtDistance(x, PriorityOrder(init), v);
      assert entries == init + [x];
      AtDistanceAppend(init, [x], v);
    }
  }
}
