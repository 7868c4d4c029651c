/** `datetime.strptime(v, "%Y%m%d")` followed by `.strftime("%Y%m%d")`.

    CPython's `strptime` turns the format into a regular expression in which
    `%Y` is `\d\d\d\d`, `%m` is `1[0-2]|0[1-9]|[1-9]` and `%d` is
    `3[01]|[12]\d|0[1-9]|[1-9]| [1-9]`.  It takes the first match the regex
    engine finds (alternatives tried left to right, backtracking into `%m` only
    when no `%d` alternative matches), raises "unconverted data remains" when
    that match does not cover the whole string, and raises again when the
    numbers are not a date of the proleptic Gregorian calendar with year >= 1. */
module Dates {
  import opened PyStr

  datatype Date = Date(year: nat, month: nat, day: nat)

  predicate IsLeapYear(y: nat) { y % 4 == 0 && (y % 100 != 0 || y % 400 == 0) }

  function DaysInMonth(y: nat, m: nat): (n: nat)
    requires 1 <= m <= 12
    ensures 28 <= n <= 31
  {
    if m == 2 then (if IsLeapYear(y) then 29 else 28)
    else if m == 4 || m == 6 || m == 9 || m == 11 then 30
    else 31
  }

  /** The dates `datetime.date` can represent. */
  predicate ValidDate(d: Date) {
    1 <= d.year <= 9999 && 1 <= d.month <= 12 && 1 <= d.day <= DaysInMonth(d.year, d.month)
  }

  /** A group the regex matched: how many characters it took and the number they denote. */
  datatype Group = Group(len: nat, value: nat)

  function Two(a: char, b: char): nat
    requires IsDigit(a) && IsDigit(b)
  {
    10 * DigitValue(a) + DigitValue(b)
  }

  /** The alternatives of `%m` that match at position `p`, in the order the regex tries them. */
  function MonthGroups(s: string, p: nat): (gs: seq<Group>)
    ensures |gs| <= 2
    ensures forall k :: 0 <= k < |gs| ==> 1 <= gs[k].value <= 12 && 1 <= gs[k].len <= 2 && p + gs[k].len <= |s|
  {
    var two :=
      if p + 1 < |s| && ((s[p] == '1' && '0' <= s[p + 1] <= '2') || (s[p] == '0' && '1' <= s[p + 1] <= '9'))
      then [Group(2, Two(s[p], s[p + 1]))] else [];
    var one := if p < |s| && '1' <= s[p] <= '9' then [Group(1, DigitValue(s[p]))] else [];
    two + one
  }

  /** The first alternative of `%d` that matches at position `p`. */
  function DayGroup(s: string, p: nat): (g: Option<Group>)
    ensures g.Some? ==> 1 <= g.value.value <= 31 && 1 <= g.value.len <= 2 && p + g.value.len <= |s|
  {
    if p + 1 < |s| && s[p] == '3' && (s[p + 1] == '0' || s[p + 1] == '1') then Some(Group(2, Two(s[p], s[p + 1])))
    else if p + 1 < |s| && (s[p] == '1' || s[p] == '2') && IsDigit(s[p + 1]) then Some(Group(2, Two(s[p], s[p + 1])))
    else if p + 1 < |s| && s[p] == '0' && '1' <= s[p + 1] <= '9' then Some(Group(2, Two(s[p], s[p + 1])))
    else if p < |s| && '1' <= s[p] <= '9' then Some(Group(1, DigitValue(s[p])))
    else if p + 1 < |s| && s[p] == ' ' && '1' <= s[p + 1] <= '9' then Some(Group(2, DigitValue(s[p + 1])))
    else None
  }

  /** The (month, day) groups of the first match, backtracking over the month alternatives. */
  function FirstMatch(s: string, months: seq<Group>): (r: Option<(Group, Group)>)
    ensures r.Some? ==> r.value.0 in months && DayGroup(s, 4 + r.value.0.len) == Some(r.value.1)
  {
    if |months| == 0 then None
    else match DayGroup(s, 4 + months[0].len)
      case Some(d) => Some((months[0], d))
      case None => FirstMatch(s, months[1..])
  }

  /** `datetime.strptime(s, "%Y%m%d")`, `None` where it raises `ValueError`. */
  function Strptime(s: string): (r: Option<Date>)
    ensures r.Some? ==> ValidDate(r.value)
  {
    if |s| < 4 || !AllDigits(s[..4]) then None
    else match FirstMatch(s, MonthGroups(s, 4))
      case None => None
      case Some((m, d)) =>
        if 4 + m.len + d.len != |s| then None
        else
          var date := Date(DigitsValue(s[..4]), m.value, d.value);
          if ValidDate(date) then Some(date) else None
  }

  /** `d.strftime("%Y%m%d")`, every field zero-padded. */
  function Strftime(d: Date): (s: string)
    ensures |s| == 8 && AllDigits(s)
  {
    Padded(d.year, 4) + Padded(d.month, 2) + Padded(d.day, 2)
  }

  /** The date an eight-digit string spells, field by field. */
  function Spelled(s: string): Date
    requires |s| == 8 && AllDigits(s)
  {
    Date(DigitsValue(s[..4]), Two(s[4], s[5]), Two(s[6], s[7]))
  }

  /** On eight digits, `strptime` accepts exactly the valid calendar dates and
      reads them field by field. */
  lemma EightDigits(s: string)
    requires |s| == 8 && AllDigits(s)
    ensures Strptime(s) == if ValidDate(Spelled(s)) then Some(Spelled(s)) else None
  {
    assert AllDigits(s[..4]);
    var months := MonthGroups(s, 4);
    var d := Spelled(s);
    match FirstMatch(s, months)
    case None =>
    case Some((m, g)) =>
      if m.len == 2 && g.len == 2 {
        assert m.value == Two(s[4], s[5]);
        assert g.value == Two(s[6], s[7]);
      }
  }

  /** Two-digit helpers: the value of a padded field and the field itself. */
  lemma PaddedTwo(n: nat)
    requires n < 100
    ensures var p := Padded(n, 2); Two(p[0], p[1]) == n
  {
    PaddedValue(n, 2);
    var p := Padded(n, 2);
    assert p[..1] == [p[0]];
    assert p[..1][..0] == [];
  }

  lemma TwoOfDigits(a: char, b: char)
    requires IsDigit(a) && IsDigit(b)
    ensures Padded(Two(a, b), 2) == [a, b]
  {
    var s := [a, b];
    PaddedDigits(s);
    assert s[..1] == [a];
    assert s[..1][..0] == [];
  }

  /** `strftime` renders a date as eight digits that spell that date. */
  lemma StrftimeSpells(d: Date)
    requires ValidDate(d)
    ensures Spelled(Strftime(d)) == d
  {
    var s := Strftime(d);
    var y, m, dd := Padded(d.year, 4), Padded(d.month, 2), Padded(d.day, 2);
    assert s[..4] == y;
    assert s[4..6] == m && s[6..8] == dd;
    PaddedValue(d.year, 4);
    PaddedTwo(d.month);
    PaddedTwo(d.day);
  }

  /** For eight digits that spell a valid date, `strftime` gives the digits back. */
  lemma SpelledRenders(s: string)
    requires |s| == 8 && AllDigits(s)
    ensures ValidDate(Spelled(s)) ==> Strftime(Spelled(s)) == s
  {
    var d := Spelled(s);
    if ValidDate(d) {
      assert AllDigits(s[..4]);
      PaddedDigits(s[..4]);
      TwoOfDigits(s[4], s[5]);
      TwoOfDigits(s[6], s[7]);
      assert s == s[..4] + [s[4], s[5]] + [s[6], s[7]];
    }
  }
}
