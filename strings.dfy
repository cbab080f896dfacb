/**
 * The few Python `str` operations the genre tracker relies on:
 * `str.strip()`, `str.title()`, `int(str)` and `str(int)`.
 */
module PyStrings {
  import opened Wrappers

  // ---------------------------------------------------------------------
  // Whitespace and str.strip()
  // ---------------------------------------------------------------------

  /** Python's `str.isspace()`: the characters `str.strip()` discards. */
  predicate IsSpace(c: char) {
    || ('\t' <= c <= '\r')
    || ('\U{1C}' <= c <= ' ')
    || c == '\U{85}' || c == '\U{A0}' || c == '\U{1680}'
    || ('\U{2000}' <= c <= '\U{200A}')
    || c == '\U{2028}' || c == '\U{2029}' || c == '\U{202F}' || c == '\U{205F}' || c == '\U{3000}'
  }

  predicate AllSpace(s: string) { forall i | 0 <= i < |s| :: IsSpace(s[i]) }

  /** A string that `str.strip()` leaves as it is. */
  predicate IsStripped(s: string) {
    s == [] || (!IsSpace(s[0]) && !IsSpace(s[|s| - 1]))
  }

  /** `str.lstrip()`: drops the leading whitespace and nothing else. */
  function StripLeft(s: string): (r: string)
    ensures |r| <= |s| && r == s[|s| - |r|..]
    ensures forall i | 0 <= i < |s| - |r| :: IsSpace(s[i])
    ensures r == [] || !IsSpace(r[0])
  {
    if s != [] && IsSpace(s[0]) then StripLeft(s[1..]) else s
  }

  /** `str.rstrip()`: drops the trailing whitespace and nothing else. */
  function StripRight(s: string): (r: string)
    ensures |r| <= |s| && r == s[..|r|]
    ensures forall i | |r| <= i < |s| :: IsSpace(s[i])
    ensures r == [] || !IsSpace(r[|r| - 1])
  {
    if s != [] && IsSpace(s[|s| - 1]) then StripRight(s[..|s| - 1]) else s
  }

  /** `str.strip()`: the whitespace at both ends goes; a string without any there is returned as is. */
  function Strip(s: string): (r: string)
    ensures IsStripped(r)
    ensures IsStripped(s) ==> r == s
  {
    StripRight(StripLeft(s))
  }

  /** `s` is a run of whitespace, then `Strip(s)`, then another run of whitespace. */
  lemma {:induction false} StripIsInfix(s: string)
    ensures exists pre: string, post: string ::
      s == pre + Strip(s) + post && AllSpace(pre) && AllSpace(post)
  {
    var l, r := StripLeft(s), Strip(s);
    var n := |s| - |l|;
    LeadingRunIsSpace(s);
    TrailingRunIsSpace(l, r);
    SplitAt(s, n);
    SplitAt(l, |r|);
    AppendAssoc(s[..n], r, l[|r|..]);
    assert s == s[..n] + r + l[|r|..] && AllSpace(s[..n]) && AllSpace(l[|r|..]);
  }

  lemma SplitAt<T>(s: seq<T>, n: nat)
    requires n <= |s|
    ensures s == s[..n] + s[n..]
  {
  }

  lemma AppendAssoc<T>(a: seq<T>, b: seq<T>, c: seq<T>)
    ensures a + (b + c) == a + b + c
  {
  }

  lemma {:induction false} LeadingRunIsSpace(s: string)
    ensures AllSpace(s[..|s| - |StripLeft(s)|])
  {
    var n := |s| - |StripLeft(s)|;
    forall j | 0 <= j < n ensures IsSpace(s[..n][j]) {
      assert s[..n][j] == s[j];
    }
  }

  lemma {:induction false} TrailingRunIsSpace(l: string, r: string)
    requires r == StripRight(l)
    ensures AllSpace(l[|r|..])
  {
    forall j | 0 <= j < |l| - |r| ensures IsSpace(l[|r|..][j]) {
      assert l[|r|..][j] == l[|r| + j];
    }
  }

  lemma {:induction false} StripIdempotent(s: string)
    ensures Strip(Strip(s)) == Strip(s)
  {
  }

  // ---------------------------------------------------------------------
  // str.title() over ASCII letters
  // ---------------------------------------------------------------------

  predicate IsLower(c: char) { 'a' <= c <= 'z' }
  predicate IsUpper(c: char) { 'A' <= c <= 'Z' }
  /** A cased character, in the sense of `str.title()`. */
  predicate IsLetter(c: char) { IsLower(c) || IsUpper(c) }

  function ToUpper(c: char): char { if IsLower(c) then (c as int - 32) as char else c }
  function ToLower(c: char): char { if IsUpper(c) then (c as int + 32) as char else c }

  /** How `str.title()` rewrites one character, given whether the one before it is a letter. */
  function TitleChar(c: char, afterLetter: bool): char {
    if !IsLetter(c) then c else if afterLetter then ToLower(c) else ToUpper(c)
  }

  function TitleFrom(s: string, afterLetter: bool): (r: string)
    ensures |r| == |s|
    ensures |s| > 0 ==> r[0] == TitleChar(s[0], afterLetter)
    ensures forall i | 0 < i < |s| :: r[i] == TitleChar(s[i], IsLetter(s[i - 1]))
  {
    if s == [] then [] else [TitleChar(s[0], afterLetter)] + TitleFrom(s[1..], IsLetter(s[0]))
  }

  /**
   * `str.title()`: every letter that follows a letter is lower-cased, every
   * other letter is upper-cased, and every other character is kept.
   */
  function Title(s: string): (r: string)
    ensures |r| == |s|
    ensures forall i | 0 <= i < |s| :: r[i] == TitleChar(s[i], i > 0 && IsLetter(s[i - 1]))
  {
    TitleFrom(s, false)
  }

  lemma {:induction false} TitleCharFacts(c: char, afterLetter: bool)
    ensures IsLetter(TitleChar(c, afterLetter)) == IsLetter(c)
    ensures IsSpace(TitleChar(c, afterLetter)) == IsSpace(c)
    ensures TitleChar(TitleChar(c, afterLetter), afterLetter) == TitleChar(c, afterLetter)
  {
  }

  /** Title-casing twice is title-casing once. */
  lemma {:induction false} TitleIdempotent(s: string)
    ensures Title(Title(s)) == Title(s)
  {
    var t := Title(s);
    forall i | 0 <= i < |s|
      ensures Title(t)[i] == t[i]
    {
      var after := i > 0 && IsLetter(s[i - 1]);
      TitleCharFacts(s[i], after);
      if i > 0 {
        TitleCharFacts(s[i - 1], i > 1 && IsLetter(s[i - 2]));
      }
    }
  }

  /** Title-casing keeps a stripped string stripped: it never turns a space into a non-space or back. */
  lemma {:induction false} TitleKeepsStripped(s: string)
    requires IsStripped(s)
    ensures IsStripped(Title(s))
  {
    if s != [] {
      TitleCharFacts(s[0], false);
      TitleCharFacts(s[|s| - 1], |s| > 1 && IsLetter(s[|s| - 2]));
    }
  }

  // ---------------------------------------------------------------------
  // int(str) and str(int)
  // ---------------------------------------------------------------------

  predicate IsDigit(c: char) { '0' <= c <= '9' }

  predicate AllDigits(s: string) { forall i | 0 <= i < |s| :: IsDigit(s[i]) }

  /** The value of a decimal numeral, read from the left. */
  function DigitsValue(s: string): nat
    requires AllDigits(s)
  {
    if s == [] then 0 else DigitsValue(s[..|s| - 1]) * 10 + (s[|s| - 1] as int - '0' as int)
  }

  function ParseDigits(d: string): Option<nat> {
    if d != [] && AllDigits(d) then Some(DigitsValue(d)) else None
  }

  /**
   * The whitespace `int()` skips around a numeral. Beyond ASCII it is that of
   * `str.isspace()`, but of the ASCII characters only " \t\n\v\f\r" count:
   * the separators U+001C..U+001F, which `str.strip()` drops, are kept.
   */
  predicate IsIntSpace(c: char) {
    IsSpace(c) && !('\U{1C}' <= c <= '\U{1F}')
  }

  /** The leading whitespace `int()` skips. */
  function IntStripLeft(s: string): string {
    if s != [] && IsIntSpace(s[0]) then IntStripLeft(s[1..]) else s
  }

  /** The trailing whitespace `int()` skips. */
  function IntStripRight(s: string): string {
    if s != [] && IsIntSpace(s[|s| - 1]) then IntStripRight(s[..|s| - 1]) else s
  }

  /** `int()` skips only its whitespace at the front, and all of it. */
  lemma {:induction false} IntStripLeftFacts(s: string)
    ensures var r := IntStripLeft(s);
      && |r| <= |s| && r == s[|s| - |r|..]
      && (forall i | 0 <= i < |s| - |r| :: IsIntSpace(s[i]))
      && (r == [] || !IsIntSpace(r[0]))
  {
    if s != [] && IsIntSpace(s[0]) {
      var r := IntStripLeft(s[1..]);
      IntStripLeftFacts(s[1..]);
      assert s[1..][|s| - 1 - |r|..] == s[|s| - |r|..];
      forall i | 1 <= i < |s| - |r| ensures IsIntSpace(s[i]) {
        assert s[i] == s[1..][i - 1];
      }
    }
  }

  /** `int()` skips only its whitespace at the back, and all of it. */
  lemma {:induction false} IntStripRightFacts(s: string)
    ensures var r := IntStripRight(s);
      && |r| <= |s| && r == s[..|r|]
      && (forall i | |r| <= i < |s| :: IsIntSpace(s[i]))
      && (r == [] || !IsIntSpace(r[|r| - 1]))
    decreases |s|
  {
    if s != [] && IsIntSpace(s[|s| - 1]) {
      IntStripRightFacts(s[..|s| - 1]);
    }
  }

  /** What `int()` reads: `s` without the whitespace it skips at either end. */
  function IntStrip(s: string): string {
    IntStripRight(IntStripLeft(s))
  }

  /** `int()` finds nothing to skip around a string that `str.strip()` leaves as it is. */
  lemma {:induction false} IntStripKeepsStripped(s: string)
    requires IsStripped(s)
    ensures IntStrip(s) == s
  {
    if s != [] {
      assert !IsIntSpace(s[0]) && !IsIntSpace(s[|s| - 1]);
    }
    assert IntStripLeft(s) == s;
  }

  /**
   * `int(s)` for a string: the whitespace `int()` skips is ignored at both
   * ends, then an optional sign and at least one decimal digit; anything else
   * raises ValueError (None).
   */
  function ParseInt(s: string): Option<int> {
    ParseSigned(IntStrip(s))
  }

  /** An optional sign followed by at least one decimal digit, nothing else. */
  function ParseSigned(t: string): (r: Option<int>)
    ensures r.Some? <==> |t| > 0 && (AllDigits(t) || ((t[0] == '+' || t[0] == '-') && |t| > 1 && AllDigits(t[1..])))
    ensures r.Some? && r.value < 0 ==> t[0] == '-'
    ensures |t| > 0 && AllDigits(t) ==> r == Some(DigitsValue(t))
  {
    if |t| > 0 && (t[0] == '-' || t[0] == '+') then
      match ParseDigits(t[1..])
      case None => None
      case Some(n) => Some(if t[0] == '-' then -(n as int) else n as int)
    else
      match ParseDigits(t)
      case None => None
      case Some(n) => Some(n)
  }

  function DigitChar(d: nat): char
    requires d < 10
  {
    ('0' as int + d) as char
  }

  /** `str(n)` for a natural number: its decimal numeral, without leading zeros. */
  function FormatNat(n: nat): (r: string)
    ensures |r| > 0 && AllDigits(r)
    ensures r[0] == '0' ==> r == "0"
  {
    if n < 10 then [DigitChar(n)] else FormatNat(n / 10) + [DigitChar(n % 10)]
  }

  /** `str(n)` for an integer. */
  function FormatInt(n: int): (r: string)
    ensures |r| > 0 && (r[0] == '-' <==> n < 0)
    ensures AllDigits(if n < 0 then r[1..] else r) && (n < 0 ==> |r| > 1)
    ensures IsStripped(r)
  {
    if n < 0 then "-" + FormatNat(-n) else FormatNat(n)
  }

  lemma {:induction false} DigitsValueOfFormat(n: nat)
    ensures DigitsValue(FormatNat(n)) == n
  {
    if n >= 10 {
      var s := FormatNat(n);
      DigitsValueOfFormat(n / 10);
      assert s[..|s| - 1] == FormatNat(n / 10);
    }
  }

  /** `int(str(n)) == n`: a written count has no whitespace around it and reads back as the count. */
  lemma {:induction false} ParseFormatRoundTrip(n: int)
    ensures IsStripped(FormatInt(n)) && ParseSigned(FormatInt(n)) == Some(n)
    ensures ParseInt(FormatInt(n)) == Some(n)
  {
    if n < 0 {
      ParseNegativeFormat(n);
    } else {
      var s := FormatInt(n);
      assert IsStripped(s);
      DigitsValueOfFormat(n);
      assert ParseDigits(s) == Some(n);
      assert ParseSigned(s) == Some(n);
    }
  }

  /** The negative half of the round trip: `-` followed by the digits of `-n`. */
  lemma {:induction false} ParseNegativeFormat(n: int)
    requires n < 0
    ensures IsStripped(FormatInt(n)) && ParseSigned(FormatInt(n)) == Some(n)
    ensures ParseInt(FormatInt(n)) == Some(n)
  {
    var d := FormatNat(-n);
    DigitsValueOfFormat(-n);
    assert ParseDigits(d) == Some(-n);
    NegativeNumeralStripped(d);
    SignedNumeralValue(d);
  }

  /** A minus sign and digits carry no whitespace to strip, for `str.strip()` or for `int()`. */
  lemma {:induction false} NegativeNumeralStripped(d: string)
    requires d != [] && AllDigits(d)
    ensures IsStripped("-" + d) && Strip("-" + d) == "-" + d && IntStrip("-" + d) == "-" + d
  {
    var s := "-" + d;
    assert s[0] == '-' && s[|s| - 1] == d[|d| - 1];
    assert IsStripped(s);
    IntStripKeepsStripped(s);
  }

  /** A sign before a numeral: `+` keeps its value, `-` negates it. */
  lemma {:induction false} SignedNumeralValue(d: string)
    requires ParseDigits(d).Some?
    ensures ParseSigned("+" + d) == Some(ParseDigits(d).value as int)
    ensures ParseSigned("-" + d) == Some(-(ParseDigits(d).value as int))
  {
    assert ("+" + d)[0] == '+' && ("+" + d)[1..] == d;
    assert ("-" + d)[0] == '-' && ("-" + d)[1..] == d;
  }

  /** `int("")` raises ValueError, as does a string of whitespace only. */
  lemma {:induction false} ParseIntRejectsBlank(s: string)
    requires forall i | 0 <= i < |s| :: IsSpace(s[i])
    ensures ParseInt(s) == None
  {
    var t := IntStrip(s);
    IntStripIsInfix(s);
    if t != [] {
      assert t[|t| - 1] == s[|s| - |IntStripLeft(s)| + |t| - 1];
      assert !IsDigit(t[|t| - 1]);
    }
  }

  /** `s` is a run of the whitespace `int()` skips, then `IntStrip(s)`, then another such run. */
  lemma {:induction false} IntStripIsInfix(s: string)
    ensures var n, t := |s| - |IntStripLeft(s)|, IntStrip(s);
      && 0 <= n && n + |t| <= |s| && s[n..n + |t|] == t
      && (forall i | 0 <= i < n :: IsIntSpace(s[i]))
      && (forall i | n + |t| <= i < |s| :: IsIntSpace(s[i]))
      && (t == [] || (!IsIntSpace(t[0]) && !IsIntSpace(t[|t| - 1])))
  {
    var l := IntStripLeft(s);
    var n, t := |s| - |l|, IntStripRight(l);
    IntStripLeftFacts(s);
    IntStripRightFacts(l);
    if t != [] {
      assert t[0] == l[0];
    }
    assert l == s[n..];
    forall i | n + |t| <= i < |s| ensures IsIntSpace(s[i]) {
      assert s[i] == l[i - n];
    }
  }

  /** `lstrip` drops a run of whitespace that stands before a non-space character. */
  lemma {:induction false} StripLeftPadded(pre: string, x: string)
    requires AllSpace(pre) && (x == [] || !IsSpace(x[0]))
    ensures StripLeft(pre + x) == x
  {
    if pre != [] {
      assert (pre + x)[0] == pre[0] && (pre + x)[1..] == pre[1..] + x;
      StripLeftPadded(pre[1..], x);
    } else {
      assert pre + x == x;
    }
  }

  /** `rstrip` drops a run of whitespace that stands after a non-space character. */
  lemma {:induction false} StripRightPadded(x: string, post: string)
    requires AllSpace(post) && (x == [] || !IsSpace(x[|x| - 1]))
    ensures StripRight(x + post) == x
    decreases |post|
  {
    if post != [] {
      var p := post[..|post| - 1];
      assert (x + post)[|x + post| - 1] == post[|post| - 1];
      assert (x + post)[..|x + post| - 1] == x + p;
      StripRightPadded(x, p);
    } else {
      assert x + post == x;
    }
  }

  /** A stripped string between two runs of whitespace is what `str.strip()` gives back. */
  lemma {:induction false} StripPadded(pre: string, t: string, post: string)
    requires AllSpace(pre) && AllSpace(post) && IsStripped(t)
    ensures Strip(pre + (t + post)) == t
  {
    if t == [] {
      assert t + post == post;
      StripLeftPadded(pre + post, []);
      assert pre + post + [] == pre + post;
    } else {
      StripLeftPadded(pre, t + post);
      StripRightPadded(t, post);
    }
  }

  /**
   * Where what `int()` reads has no `str.isspace()` character at either end,
   * `str.strip()` removes exactly what `int()` skips.
   */
  lemma {:induction false} StripAgreesWithIntStrip(s: string)
    requires IsStripped(IntStrip(s))
    ensures Strip(s) == IntStrip(s)
  {
    var n, t := |s| - |IntStripLeft(s)|, IntStrip(s);
    IntStripIsInfix(s);
    var pre, post := s[..n], s[n + |t|..];
    assert s == pre + (t + post) by {
      assert s == s[..n] + (s[n..n + |t|] + s[n + |t|..]);
    }
    assert AllSpace(pre) && AllSpace(post);
    StripPadded(pre, t, post);
  }

  /** Where `int(s)` succeeds, `int(s.strip())` gives the same value. */
  lemma {:induction false} ParseIntIgnoresStrip(s: string)
    requires ParseInt(s).Some?
    ensures ParseInt(Strip(s)) == ParseInt(s)
  {
    var t := IntStrip(s);
    assert IsDigit(t[|t| - 1]) && (IsDigit(t[0]) || t[0] == '+' || t[0] == '-');
    StripAgreesWithIntStrip(s);
    IntStripKeepsStripped(t);
  }

  /** Without the separators U+001C..U+001F, `int(s)` and `int(s.strip())` agree. */
  lemma {:induction false} ParseIntWithoutSeparators(s: string)
    requires forall i | 0 <= i < |s| :: !('\U{1C}' <= s[i] <= '\U{1F}')
    ensures ParseInt(Strip(s)) == ParseInt(s)
  {
    var n, t := |s| - |IntStripLeft(s)|, IntStrip(s);
    IntStripIsInfix(s);
    if t != [] {
      assert t[0] == s[n] && t[|t| - 1] == s[n + |t| - 1];
    }
    StripAgreesWithIntStrip(s);
    IntStripKeepsStripped(Strip(s));
  }

  /** The separators U+001C..U+001F are not whitespace to `int()`: a string holding one is rejected. */
  lemma {:induction false} SeparatorRejected(s: string, i: nat)
    requires i < |s| && '\U{1C}' <= s[i] <= '\U{1F}'
    ensures ParseInt(s) == None
  {
    var n, t := |s| - |IntStripLeft(s)|, IntStrip(s);
    IntStripIsInfix(s);
    assert n <= i < n + |t|;
    var j := i - n;
    assert t[j] == s[i] && !IsDigit(t[j]);
    if j > 0 {
      assert t[1..][j - 1] == t[j];
    }
  }

  /**
   * `int()` skips less than `str.strip()` drops: with a separator such as
   * U+001C in front of a run of digits, `int(s.strip())` reads the digits,
   * while `int(s)` raises.
   */
  lemma {:induction false} SeparatorNotSkipped(c: char, d: string)
    requires '\U{1C}' <= c <= '\U{1F}' && d != [] && AllDigits(d)
    ensures Strip([c] + d) == d && ParseInt(Strip([c] + d)) == Some(DigitsValue(d))
    ensures ParseInt([c] + d) == None
  {
    var s := [c] + d;
    assert IsStripped(d) by {
      assert IsDigit(d[0]) && IsDigit(d[|d| - 1]);
    }
    assert Strip(s) == d by {
      StripLeftPadded([c], d);
      StripRightPadded(d, []);
      assert d + [] == d;
    }
    assert ParseInt(d) == Some(DigitsValue(d)) by {
      IntStripKeepsStripped(d);
    }
    SeparatorRejected(s, 0);
  }

  // ---------------------------------------------------------------------
  // int(x) for a float
  // ---------------------------------------------------------------------

  /** `int(x)` for a finite float: truncation toward zero. */
  function Truncate(x: real): (r: int)
    ensures 0.0 <= x ==> 0 <= r && r as real <= x < r as real + 1.0
    ensures x < 0.0 ==> r <= 0 && r as real - 1.0 < x <= r as real
  {
    if 0.0 <= x then x.Floor else -((-x).Floor)
  }
}
