/** The pieces of Python's `str` and `int` behaviour that the subtitle pipeline
    relies on: `isspace`, `strip`, `isdigit`, `int(...)` of a digit string,
    `str(...)` of an integer, and `split(' --> ')`. Strings are `seq<char>`. */
module PyText {
  import opened Results

  /** `c.isspace()`: the characters Python treats as whitespace. */
  predicate IsSpace(c: char) {
    || c == ' '
    || ('\t' <= c <= '\r')
    || ('\U{1C}' <= c <= '\U{1F}')
    || c == '\U{85}' || c == '\U{A0}' || c == '\U{1680}'
    || ('\U{2000}' <= c <= '\U{200A}')
    || c == '\U{2028}' || c == '\U{2029}' || c == '\U{202F}'
    || c == '\U{205F}' || c == '\U{3000}'
  }

  /** `s.lstrip()` */
  function TrimLeft(s: string): string {
    if |s| > 0 && IsSpace(s[0]) then TrimLeft(s[1..]) else s
  }

  /** `s.rstrip()` */
  function TrimRight(s: string): string {
    if |s| > 0 && IsSpace(s[|s| - 1]) then TrimRight(s[..|s| - 1]) else s
  }

  /** `s.strip()`: whitespace removed from both ends. */
  function Strip(s: string): string {
    TrimRight(TrimLeft(s))
  }

  /** `lstrip` removes exactly the leading run of whitespace. */
  lemma {:induction false} TrimLeftSpec(s: string)
    ensures var r := TrimLeft(s);
      && |r| <= |s| && r == s[|s| - |r|..]
      && (r == [] || !IsSpace(r[0]))
      && forall k :: 0 <= k < |s| - |r| ==> IsSpace(s[k])
  {
    if |s| > 0 && IsSpace(s[0]) {
      TrimLeftSpec(s[1..]);
    }
  }

  /** `rstrip` removes exactly the trailing run of whitespace. */
  lemma {:induction false} TrimRightSpec(s: string)
    ensures var r := TrimRight(s);
      && |r| <= |s| && r == s[..|r|]
      && (r == [] || !IsSpace(r[|r| - 1]))
      && forall k :: |r| <= k < |s| ==> IsSpace(s[k])
  {
    if |s| > 0 && IsSpace(s[|s| - 1]) {
      TrimRightSpec(s[..|s| - 1]);
    }
  }

  /** `strip` keeps a slice of `s` that neither starts nor ends with whitespace,
      and everything it drops is whitespace. */
  lemma StripSpec(s: string)
    ensures var i, r := |s| - |TrimLeft(s)|, Strip(s);
      && 0 <= i <= i + |r| <= |s| && r == s[i..i + |r|]
      && (forall k :: 0 <= k < i ==> IsSpace(s[k]))
      && (forall k :: i + |r| <= k < |s| ==> IsSpace(s[k]))
    ensures Strip(s) == [] || (!IsSpace(Strip(s)[0]) && !IsSpace(Strip(s)[|Strip(s)| - 1]))
  {
    var l := TrimLeft(s);
    TrimLeftSpec(s);
    TrimRightSpec(l);
    var i := |s| - |l|;
    var r := Strip(s);
    assert l == s[i..];
    assert r == l[..|r|];
    assert r == s[i..i + |r|];
    forall k | i + |r| <= k < |s| ensures IsSpace(s[k]) {
      assert s[k] == l[k - i];
    }
    if r != [] {
      assert r[0] == l[0];
    }
  }

  /** A string whose first and last characters are not whitespace is its own
      strip. */
  lemma StripIdentity(s: string)
    requires s == [] || (!IsSpace(s[0]) && !IsSpace(s[|s| - 1]))
    ensures Strip(s) == s
  {
  }

  /** ... and so is that string with one line terminator after it. */
  lemma StripNewline(s: string)
    requires s == [] || (!IsSpace(s[0]) && !IsSpace(s[|s| - 1]))
    ensures Strip(s + "\n") == s
  {
    var t := s + "\n";
    if s == [] {
      assert TrimLeft(t) == [];
    } else {
      assert TrimLeft(t) == t;
      assert TrimRight(t) == TrimRight(s);
    }
  }

  /** Stripping a line that starts with a non-space keeps every character up to
      its last non-space one: in particular a prefix ending in a non-space. */
  lemma StripKeepsPrefix(s: string, k: nat)
    requires 0 < k <= |s| && !IsSpace(s[0]) && !IsSpace(s[k - 1])
    ensures k <= |Strip(s)| && Strip(s)[..k] == s[..k]
  {
    assert TrimLeft(s) == s;
    TrimRightSpec(s);
  }

  predicate IsDigitChar(c: char) {
    '0' <= c <= '9'
  }

  /** `s.isdigit()` for ASCII digits: non-empty and digits only. */
  predicate IsDigits(s: string) {
    |s| > 0 && forall k :: 0 <= k < |s| ==> IsDigitChar(s[k])
  }

  /** The decimal value of a string of digits (leading zeros allowed), as `int(s)`. */
  function DigitsValue(s: string): (v: nat)
    requires forall k :: 0 <= k < |s| ==> IsDigitChar(s[k])
  {
    if s == [] then 0
    else
      assert IsDigitChar(s[|s| - 1]);
      DigitsValue(s[..|s| - 1]) * 10 + (s[|s| - 1] as int - '0' as int)
  }

  function DigitChar(d: nat): (c: char)
    requires d < 10
    ensures IsDigitChar(c) && c as int - '0' as int == d
  {
    ('0' as int + d) as char
  }

  /** `str(n)` for a natural number. */
  function DecimalString(n: nat): (s: string)
    ensures IsDigits(s)
  {
    if n < 10 then [DigitChar(n)] else DecimalString(n / 10) + [DigitChar(n % 10)]
  }

  /** `int(str(n)) == n`: the decimal string is a run of digits, without a
      leading zero unless it is `"0"`, whose value is `n`. */
  lemma {:induction false} DecimalStringValue(n: nat)
    ensures IsDigits(DecimalString(n)) && DigitsValue(DecimalString(n)) == n
    ensures n > 0 ==> DecimalString(n)[0] != '0'
  {
    if n >= 10 {
      DecimalStringValue(n / 10);
      var s := DecimalString(n);
      assert s[..|s| - 1] == DecimalString(n / 10);
    }
  }

  /** Distinct numbers print as distinct strings. */
  lemma DecimalStringInjective(m: nat, n: nat)
    requires DecimalString(m) == DecimalString(n)
    ensures m == n
  {
    DecimalStringValue(m);
    DecimalStringValue(n);
  }

  /** `str(i)` for any integer. */
  function IntString(i: int): string {
    if i < 0 then "-" + DecimalString(-i) else DecimalString(i)
  }

  /** A negative number prints with a sign, so not as a run of digits. */
  lemma NegativeNotDigits(i: int)
    requires i < 0
    ensures !IsDigits(IntString(i))
  {
    assert IntString(i)[0] == '-';
  }

  /** A run of digits whose value is not `n` is not how `n` prints. */
  lemma DecimalStringOther(n: nat, s: string)
    requires IsDigits(s) && DigitsValue(s) != n
    ensures DecimalString(n) != s
  {
    DecimalStringValue(n);
  }

  /** `int(s)` on a string that, once stripped, is a run of digits; any other
      string raises `ValueError`, modelled as `None`. */
  function PyInt(s: string): (r: Option<int>)
    ensures r.Some? <==> IsDigits(Strip(s))
    ensures r.Some? ==> r.value == DigitsValue(Strip(s))
  {
    var u := Strip(s);
    if IsDigits(u) then Some(DigitsValue(u)) else None
  }

  /** The separator between the two timestamps of a cue. */
  const Arrow: string := " --> "

  predicate ArrowAt(s: string, k: nat) {
    k + 5 <= |s| && s[k..k + 5] == Arrow
  }

  /** The first occurrence of the separator at or after `from`. */
  function FindArrow(s: string, from: nat): (r: Option<nat>)
    ensures r.Some? ==> from <= r.value && ArrowAt(s, r.value)
    ensures forall j :: from <= j && (r.None? || j < r.value) ==> !ArrowAt(s, j)
    decreases |s| - from
  {
    if from + 5 > |s| then None
    else if ArrowAt(s, from) then Some(from)
    else FindArrow(s, from + 1)
  }

  predicate HasArrow(s: string) {
    FindArrow(s, 0).Some?
  }

  /** `s.split(' --> ')[0]`: everything before the first separator. */
  function LeftPiece(s: string): (r: string)
    ensures forall j :: ArrowAt(r, j) ==> ArrowAt(s, j)
    ensures HasArrow(s) ==> ArrowAt(s, |r|)
  {
    match FindArrow(s, 0)
    case None => s
    case Some(k) => s[..k]
  }

  /** `s.split(' --> ')[1]`: what lies between the first separator and the next. */
  function RightPiece(s: string): (r: string)
    requires HasArrow(s)
  {
    var k := FindArrow(s, 0).value;
    match FindArrow(s, k + 5)
    case None => s[k + 5..]
    case Some(m) => s[k + 5..m]
  }

  /** The left piece of a line with a separator contains no separator and does
      not end with the first four characters of one. */
  lemma LeftPieceClean(s: string)
    requires HasArrow(s)
    ensures forall j :: !ArrowAt(LeftPiece(s), j)
    ensures !(|LeftPiece(s)| >= 4 && LeftPiece(s)[|LeftPiece(s)| - 4..] == Arrow[..4])
  {
    var l := LeftPiece(s);
    var k := |l|;
    if k >= 4 && l[k - 4..] == Arrow[..4] {
      assert s[k - 4..k + 1] == Arrow;
      assert ArrowAt(s, k - 4);
      assert false;
    }
  }

  /** The right piece of a line with a separator contains no separator. */
  lemma RightPieceClean(s: string)
    requires HasArrow(s)
    ensures forall j :: !ArrowAt(RightPiece(s), j)
  {
    var k := FindArrow(s, 0).value;
    var m := match FindArrow(s, k + 5) case None => |s| case Some(m) => m;
    assert RightPiece(s) == s[k + 5..m];
    NoArrowBetween(s, k + 5, m);
  }

  /** A slice that starts at `from` and stops before the next separator holds none. */
  lemma NoArrowBetween(s: string, from: nat, m: nat)
    requires from <= m <= |s|
    requires forall j :: from <= j < m ==> !ArrowAt(s, j)
    ensures forall j :: !ArrowAt(s[from..m], j)
  {
    var r := s[from..m];
    forall j: nat | ArrowAt(r, j) ensures false {
      var a, b := s[from + j..from + j + 5], r[j..j + 5];
      assert forall t :: 0 <= t < 5 ==> a[t] == s[from + j + t];
      assert forall t :: 0 <= t < 5 ==> b[t] == r[j + t] == s[from + j + t];
      assert a == b;
      assert ArrowAt(s, from + j);
    }
  }

  /** In `l + Arrow + r`, the first separator is the one placed after `l`
      when `l` has none and does not end with the start of one. */
  lemma SpliceFirstArrow(l: string, r: string)
    requires forall j :: !ArrowAt(l, j)
    requires !(|l| >= 4 && l[|l| - 4..] == Arrow[..4])
    ensures FindArrow(l + Arrow + r, 0) == Some(|l|)
  {
    var line := l + Arrow + r;
    assert ArrowAt(line, |l|) by { assert line[|l|..|l| + 5] == Arrow; }
    forall j: nat | j < |l| ensures !ArrowAt(line, j) {
      if ArrowAt(line, j) {
        if j + 5 <= |l| {
          ArrowInsideLeft(l, r, j);
        } else {
          ArrowAcrossJoin(l, r, j);
        }
      }
    }
    FindArrowFirst(line, 0, |l|);
  }

  lemma ArrowInsideLeft(l: string, r: string, j: nat)
    requires j + 5 <= |l| && ArrowAt(l + Arrow + r, j)
    ensures ArrowAt(l, j)
  {
    var line := l + Arrow + r;
    var a, b := l[j..j + 5], line[j..j + 5];
    assert forall t :: 0 <= t < 5 ==> a[t] == l[j + t] == line[j + t] == b[t];
    assert a == b;
  }

  lemma ArrowAcrossJoin(l: string, r: string, j: nat)
    requires j < |l| < j + 5 && ArrowAt(l + Arrow + r, j)
    ensures |l| >= 4 && l[|l| - 4..] == Arrow[..4]
  {
    var line := l + Arrow + r;
    var d := |l| - j;
    assert line[|l|] == ' ';
    assert line[j..j + 5][d] == line[j + d];
    assert Arrow[d] == ' ';
    assert d == 4;
    var a, b := l[|l| - 4..], Arrow[..4];
    assert forall t :: 0 <= t < 4 ==> a[t] == line[j + t] == line[j..j + 5][t] == b[t];
    assert a == b;
  }

  /** After the separator that follows `l`, `l + Arrow + r` holds no further
      separator when `r` has none. */
  lemma SpliceNoSecondArrow(l: string, r: string)
    requires forall j :: !ArrowAt(r, j)
    ensures FindArrow(l + Arrow + r, |l| + 5).None?
  {
    var line := l + Arrow + r;
    forall j: nat | |l| + 5 <= j ensures !ArrowAt(line, j) {
      if ArrowAt(line, j) {
        var q := j - |l| - 5;
        assert line[j..j + 5] == r[q..q + 5];
        assert ArrowAt(r, q);
      }
    }
    FindArrowNone(line, |l| + 5);
  }

  /** Splicing the left piece of one timestamp line to the right piece of
      another with a separator gives a line whose pieces are exactly those two:
      `(a.split(' --> ')[0] + ' --> ' + b.split(' --> ')[1]).split(' --> ')`
      starts with `[a.split(...)[0], b.split(...)[1]]`. */
  lemma {:induction false} SplicePieces(a: string, b: string)
    requires HasArrow(a) && HasArrow(b)
    ensures var line := LeftPiece(a) + Arrow + RightPiece(b);
      HasArrow(line) && LeftPiece(line) == LeftPiece(a) && RightPiece(line) == RightPiece(b)
  {
    var l, r := LeftPiece(a), RightPiece(b);
    var line := l + Arrow + r;
    LeftPieceClean(a);
    RightPieceClean(b);
    SpliceFirstArrow(l, r);
    SpliceNoSecondArrow(l, r);
    assert line[..|l|] == l;
    assert line[|l| + 5..] == r;
  }

  lemma {:induction false} FindArrowFirst(s: string, from: nat, k: nat)
    requires from <= k && ArrowAt(s, k)
    requires forall j :: from <= j < k ==> !ArrowAt(s, j)
    ensures FindArrow(s, from) == Some(k)
    decreases k - from
  {
    if from < k {
      FindArrowFirst(s, from + 1, k);
    }
  }

  lemma {:induction false} FindArrowNone(s: string, from: nat)
    requires forall j :: from <= j ==> !ArrowAt(s, j)
    ensures FindArrow(s, from).None?
    decreases |s| - from
  {
    if from + 5 <= |s| {
      FindArrowNone(s, from + 1);
    }
  }
}
