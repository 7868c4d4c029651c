/** The Python string operations the manifest parsers and validators rely on:
    `str.split` with an explicit separator, `str.join`, `str.strip()`,
    `str.rstrip(ch)`, `startswith`/`endswith`, slicing with negative bounds,
    `str.isnumeric` and `int` on a numeric string.  Digits are the ASCII digits. */
module PyStr {

  /** The Python exceptions that escape the extractors' `except pydantic.ValidationError`. */
  datatype Fault = IndexError | UnboundLocalError

  datatype Option<T> = None | Some(value: T)

  // ---------------------------------------------------------------- characters

  predicate IsDigit(ch: char) { '0' <= ch <= '9' }

  predicate AllDigits(s: string) { forall i :: 0 <= i < |s| ==> IsDigit(s[i]) }

  /** `s.isnumeric()`: true only for a non-empty string of digits. */
  predicate IsNumeric(s: string) { |s| > 0 && AllDigits(s) }

  /** `ch.isspace()`: the characters `str.strip()` removes. */
  predicate IsSpace(ch: char) {
    || ('\t' <= ch <= '\r')
    || ('\U{1C}' <= ch <= ' ')
    || ch == '\U{85}' || ch == '\U{A0}' || ch == '\U{1680}'
    || ('\U{2000}' <= ch <= '\U{200A}')
    || ch == '\U{2028}' || ch == '\U{2029}' || ch == '\U{202F}' || ch == '\U{205F}' || ch == '\U{3000}'
  }

  // ---------------------------------------------------------------- prefixes, suffixes, slices

  predicate StartsWith(s: string, prefix: string) { |prefix| <= |s| && s[..|prefix|] == prefix }

  predicate EndsWith(s: string, suffix: string) { |suffix| <= |s| && s[|s| - |suffix|..] == suffix }

  /** A Python slice bound, negative values counted from the end, clamped to `0..n`. */
  function Bound(k: int, n: nat): (b: nat)
    ensures b <= n
    ensures 0 <= k <= n ==> b == k
    ensures -(n as int) <= k < 0 ==> b as int == n as int + k
    ensures k > n ==> b == n
    ensures k + n < 0 ==> b == 0
  {
    if k < 0 then (if k + n < 0 then 0 else k + n) else if k > n then n else k
  }

  /** `s[start:stop]`. */
  function Slice(s: string, start: int, stop: int): (r: string)
    ensures |r| <= |s|
  {
    var i, j := Bound(start, |s|), Bound(stop, |s|);
    if i < j then s[i..j] else ""
  }

  // ---------------------------------------------------------------- split and join

  /** `sep.join(parts)`. */
  function Join(parts: seq<string>, sep: char): string
  {
    if |parts| == 0 then ""
    else if |parts| == 1 then parts[0]
    else parts[0] + [sep] + Join(parts[1..], sep)
  }

  /** `s.split(sep)` for a one-character separator: never empty, no piece holds
      the separator, and joining the pieces gives `s` back. */
  function Split(s: string, sep: char): (parts: seq<string>)
    ensures |parts| >= 1
    ensures forall i :: 0 <= i < |parts| ==> sep !in parts[i]
    ensures Join(parts, sep) == s
    decreases |s|
  {
    if |s| == 0 then [""]
    else
      var rest := Split(s[1..], sep);
      if s[0] == sep then
        assert ([""] + rest)[1..] == rest;
        [""] + rest
      else
        assert s == [s[0]] + s[1..];
        [[s[0]] + rest[0]] + rest[1..]
  }

  /** `s.split(sep)[0]`. */
  function FirstToken(s: string, sep: char): (t: string)
    ensures sep !in t
  {
    Split(s, sep)[0]
  }

  /** `s.split(sep)[-1]`. */
  function LastToken(s: string, sep: char): (t: string)
    ensures sep !in t
  {
    var parts := Split(s, sep);
    parts[|parts| - 1]
  }

  lemma {:induction false} SplitWithoutSep(s: string, sep: char)
    requires sep !in s
    ensures Split(s, sep) == [s]
    decreases |s|
  {
    if |s| > 0 {
      assert sep !in s[1..] by { assert forall k :: 0 <= k < |s| - 1 ==> s[1..][k] == s[k + 1]; }
      SplitWithoutSep(s[1..], sep);
      assert s == [s[0]] + s[1..];
    }
  }

  lemma {:induction false} SplitAfterPiece(p: string, sep: char, t: string)
    requires sep !in p
    ensures Split(p + [sep] + t, sep) == [p] + Split(t, sep)
    decreases |p|
  {
    if |p| == 0 {
      assert p + [sep] + t == [sep] + t;
      assert ([sep] + t)[1..] == t;
    } else {
      var s := p + [sep] + t;
      assert s[1..] == p[1..] + [sep] + t;
      assert sep !in p[1..] by { assert forall k :: 0 <= k < |p| - 1 ==> p[1..][k] == p[k + 1]; }
      SplitAfterPiece(p[1..], sep, t);
      assert [p[0]] + p[1..] == p;
    }
  }

  /** Splitting text made of two, three or four separator-free pieces. */
  lemma SplitTwo(a: string, b: string, sep: char)
    requires sep !in a && sep !in b
    ensures Split(a + [sep] + b, sep) == [a, b]
  {
    SplitWithoutSep(b, sep);
    SplitAfterPiece(a, sep, b);
  }

  lemma SplitThree(a: string, b: string, c: string, sep: char)
    requires sep !in a && sep !in b && sep !in c
    ensures Split(a + [sep] + (b + [sep] + c), sep) == [a, b, c]
  {
    SplitTwo(b, c, sep);
    SplitAfterPiece(a, sep, b + [sep] + c);
  }

  lemma SplitFour(a: string, b: string, c: string, d: string, sep: char)
    requires sep !in a && sep !in b && sep !in c && sep !in d
    ensures Split(a + [sep] + (b + [sep] + (c + [sep] + d)), sep) == [a, b, c, d]
  {
    SplitThree(b, c, d, sep);
    SplitAfterPiece(a, sep, b + [sep] + (c + [sep] + d));
  }

  /** A prefix without the separator stays at the head of the first piece. */
  lemma {:induction false} FirstTokenAfterPiece(p: string, sep: char, t: string)
    requires sep !in p
    ensures FirstToken(p + t, sep) == p + FirstToken(t, sep)
    decreases |p|
  {
    if |p| == 0 {
      assert p + t == t;
    } else {
      var s := p + t;
      assert s[1..] == p[1..] + t;
      assert sep !in p[1..] by { assert forall k :: 0 <= k < |p| - 1 ==> p[1..][k] == p[k + 1]; }
      FirstTokenAfterPiece(p[1..], sep, t);
      assert [p[0]] + p[1..] == p;
    }
  }

  /** Splitting undoes joining pieces that do not hold the separator. */
  lemma {:induction false} SplitJoin(parts: seq<string>, sep: char)
    requires |parts| >= 1
    requires forall i :: 0 <= i < |parts| ==> sep !in parts[i]
    ensures Split(Join(parts, sep), sep) == parts
    decreases |parts|
  {
    if |parts| == 1 {
      SplitWithoutSep(parts[0], sep);
    } else {
      SplitJoin(parts[1..], sep);
      SplitAfterPiece(parts[0], sep, Join(parts[1..], sep));
      assert [parts[0]] + parts[1..] == parts;
    }
  }

  lemma {:induction false} JoinLast(parts: seq<string>, sep: char)
    requires |parts| >= 2
    ensures Join(parts, sep) == Join(parts[..|parts| - 1], sep) + [sep] + parts[|parts| - 1]
    decreases |parts|
  {
    if |parts| > 2 {
      JoinLast(parts[1..], sep);
      assert parts[1..][..|parts| - 2] == parts[..|parts| - 1][1..];
    }
  }

  /** `s.split(sep)` has a second piece exactly when `sep` occurs in `s`. */
  lemma SplitHasSecond(s: string, sep: char)
    ensures |Split(s, sep)| >= 2 <==> sep in s
  {
    if sep !in s {
      SplitWithoutSep(s, sep);
    }
  }

  /** The pieces after the first are the split of the text after the first separator. */
  lemma SplitTail(s: string, sep: char)
    requires sep in s
    ensures var head := FirstToken(s, sep);
      |head| < |s| && Split(s, sep)[1..] == Split(s[|head| + 1..], sep)
  {
    FirstTokenIsHead(s, sep);
    var head := FirstToken(s, sep);
    assert s == head + [sep] + s[|head| + 1..];
    SplitAfterPiece(head, sep, s[|head| + 1..]);
  }

  /** `s.split(sep)[-1]` is the text after the last separator (all of `s` if there is none). */
  lemma LastTokenIsTail(s: string, sep: char)
    ensures var t := LastToken(s, sep);
      && |t| <= |s| && s[|s| - |t|..] == t
      && (|t| == |s| <==> sep !in s)
      && (|t| < |s| ==> s[|s| - |t| - 1] == sep)
  {
    var parts := Split(s, sep);
    var t := parts[|parts| - 1];
    if |parts| == 1 {
    } else {
      JoinLast(parts, sep);
      var front := Join(parts[..|parts| - 1], sep);
      assert s == front + [sep] + t;
      assert s[|s| - |t|..] == t;
      assert s[|s| - |t| - 1] == sep;
      assert sep in s;
    }
  }

  /** `s.split(sep)[0]` is the text before the first separator (all of `s` if there is none). */
  lemma {:induction false} FirstTokenIsHead(s: string, sep: char)
    ensures var t := FirstToken(s, sep);
      && |t| <= |s| && s[..|t|] == t
      && (|t| == |s| <==> sep !in s)
      && (|t| < |s| ==> s[|t|] == sep)
    decreases |s|
  {
    if |s| > 0 && s[0] != sep {
      FirstTokenIsHead(s[1..], sep);
      var t' := FirstToken(s[1..], sep);
      assert FirstToken(s, sep) == [s[0]] + t';
      assert sep in s[1..] ==> sep in s;
      assert sep in s && s[0] != sep ==> sep in s[1..] by {
        if sep in s && s[0] != sep {
          var k :| 0 <= k < |s| && s[k] == sep;
          assert s[1..][k - 1] == sep;
        }
      }
    }
  }

  // ---------------------------------------------------------------- strip

  /** `s.lstrip()`. */
  function LStrip(s: string): (r: string)
    ensures |r| <= |s| && r == s[|s| - |r|..]
    ensures r == [] || !IsSpace(r[0])
    ensures forall i :: 0 <= i < |s| - |r| ==> IsSpace(s[i])
    decreases |s|
  {
    if |s| > 0 && IsSpace(s[0]) then LStrip(s[1..]) else s
  }

  /** `s.rstrip()`. */
  function RStrip(s: string): (r: string)
    ensures |r| <= |s| && r == s[..|r|]
    ensures r == [] || !IsSpace(r[|r| - 1])
    ensures forall i :: |r| <= i < |s| ==> IsSpace(s[i])
    decreases |s|
  {
    if |s| > 0 && IsSpace(s[|s| - 1]) then RStrip(s[..|s| - 1]) else s
  }

  /** `s.strip()`: leading and trailing whitespace removed, the middle kept. */
  function Strip(s: string): (r: string)
    ensures |r| <= |s|
    ensures r == [] || (!IsSpace(r[0]) && !IsSpace(r[|r| - 1]))
  {
    RStrip(LStrip(s))
  }

  /** What `strip()` keeps is the slice of `s` between its leading whitespace
      (which `lstrip()` removes) and its trailing whitespace. */
  lemma StripRemovesSpaces(s: string)
    ensures var r, k := Strip(s), |s| - |LStrip(s)|;
      && k + |r| <= |s| && r == s[k..k + |r|]
      && (forall i :: 0 <= i < k ==> IsSpace(s[i]))
      && (forall i :: k + |r| <= i < |s| ==> IsSpace(s[i]))
  {
    var l := LStrip(s);
    var r := RStrip(l);
    var k := |s| - |l|;
    assert r == s[k..k + |r|];
    forall i | k + |r| <= i < |s| ensures IsSpace(s[i]) { assert s[i] == l[i - k]; }
  }

  /** `s.rstrip(ch)`: every trailing `ch` removed. */
  function TrimEnd(s: string, ch: char): (r: string)
    ensures |r| <= |s| && r == s[..|r|]
    ensures r == [] || r[|r| - 1] != ch
    ensures forall i :: |r| <= i < |s| ==> s[i] == ch
    decreases |s|
  {
    if |s| > 0 && s[|s| - 1] == ch then TrimEnd(s[..|s| - 1], ch) else s
  }

  /** `rstrip(ch)` never reaches into a leading piece free of `ch`. */
  lemma {:induction false} TrimEndAfterPiece(p: string, t: string, ch: char)
    requires ch !in p
    ensures TrimEnd(p + t, ch) == p + TrimEnd(t, ch)
    decreases |t|
  {
    if |t| > 0 && t[|t| - 1] == ch {
      assert (p + t)[..|p + t| - 1] == p + t[..|t| - 1];
      TrimEndAfterPiece(p, t[..|t| - 1], ch);
    } else if |t| == 0 {
      assert p + t == p;
      assert p == [] || p[|p| - 1] != ch;
    } else {
      assert (p + t)[|p + t| - 1] == t[|t| - 1];
    }
  }

  // ---------------------------------------------------------------- numbers

  function DigitValue(ch: char): (d: nat)
    requires IsDigit(ch)
    ensures d < 10
  {
    ch as int - '0' as int
  }

  function DigitChar(d: nat): (ch: char)
    requires d < 10
    ensures IsDigit(ch) && DigitValue(ch) == d
  {
    ('0' as int + d) as char
  }

  function Pow10(n: nat): (p: nat)
    ensures p >= 1
  {
    if n == 0 then 1 else 10 * Pow10(n - 1)
  }

  /** `int(s)` for a string of digits (leading zeros allowed, as in Python). */
  function DigitsValue(s: string): (v: nat)
    requires AllDigits(s)
    ensures v < Pow10(|s|)
    decreases |s|
  {
    if |s| == 0 then 0
    else
      assert AllDigits(s[..|s| - 1]) by { assert forall k :: 0 <= k < |s| - 1 ==> s[..|s| - 1][k] == s[k]; }
      DigitsValue(s[..|s| - 1]) * 10 + DigitValue(s[|s| - 1])
  }

  /** `str(n)`: the decimal numeral of `n`, without leading zeros. */
  function Decimal(n: nat): (s: string)
    ensures IsNumeric(s)
    ensures |s| > 1 ==> s[0] != '0'
    decreases n
  {
    if n < 10 then [DigitChar(n)]
    else
      var front := Decimal(n / 10);
      var s := front + [DigitChar(n % 10)];
      assert s[0] == front[0];
      s
  }

  /** The numeral of `n` left-padded with zeros to `width` digits (strftime's `%Y`, `%m`, `%d`). */
  function Padded(n: nat, width: nat): (s: string)
    ensures |s| == width && AllDigits(s)
  {
    if width == 0 then ""
    else Padded(n / 10, width - 1) + [DigitChar(n % 10)]
  }

  /** `int(str(n)) == n`. */
  lemma {:induction false} DecimalValue(n: nat)
    ensures DigitsValue(Decimal(n)) == n
    decreases n
  {
    if n >= 10 {
      DecimalValue(n / 10);
      var s := Decimal(n);
      assert s[..|s| - 1] == Decimal(n / 10);
    }
  }

  /** Reading back a padded numeral gives the number, when it fits the width. */
  lemma {:induction false} PaddedValue(n: nat, width: nat)
    requires n < Pow10(width)
    ensures DigitsValue(Padded(n, width)) == n
    decreases width
  {
    if width > 0 {
      PaddedValue(n / 10, width - 1);
      var s := Padded(n, width);
      assert s[..|s| - 1] == Padded(n / 10, width - 1);
    }
  }

  /** Padding the value of a digit string to its own length gives the string back. */
  lemma {:induction false} PaddedDigits(s: string)
    requires AllDigits(s)
    ensures Padded(DigitsValue(s), |s|) == s
    decreases |s|
  {
    if |s| > 0 {
      var front := s[..|s| - 1];
      assert AllDigits(front) by { assert forall k :: 0 <= k < |front| ==> front[k] == s[k]; }
      PaddedDigits(front);
      var v := DigitsValue(s);
      assert v / 10 == DigitsValue(front);
      assert v % 10 == DigitValue(s[|s| - 1]);
      assert s == front + [s[|s| - 1]];
    }
  }
}
