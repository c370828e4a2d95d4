/**
 * Calendar fields and the millisecond arithmetic shared by the relative-time
 * and date formatters. A `Date` is represented by what the formatters read
 * from it: its time value in milliseconds and its local calendar fields.
 */
module Calendar {
  import opened JsText

  const SecondMs: int := 1000
  const MinuteMs: int := 60 * SecondMs
  const HourMs: int := 60 * MinuteMs
  const DayMs: int := 24 * HourMs

  /** The local calendar fields of a valid `Date`: `getFullYear()`,
      `getMonth()` (0-based), `getDate()` and `getDay()` (0 for Sunday). */
  datatype CalendarDay = CalendarDay(year: int, monthIndex: int, day: int, weekday: int)

  predicate ValidDay(d: CalendarDay) {
    0 <= d.monthIndex < 12 && 1 <= d.day <= 31 && 0 <= d.weekday < 7
  }

  /** A parsed, valid `Date`: its time value and local calendar fields. */
  datatype Instant = Instant(ms: int, date: CalendarDay)

  /** The three-letter month table. */
  const MonthNames: seq<string> :=
    ["Jan", "Feb", "Mar", "Apr", "May", "Jun", "Jul", "Aug", "Sep", "Oct", "Nov", "Dec"]

  function MonthName(m: int): (name: string)
    requires 0 <= m < 12
    ensures |name| == 3 && name == MonthNames[m]
  {
    MonthNames[m]
  }

  const WeekdayNames: seq<string> := ["Sun", "Mon", "Tue", "Wed", "Thu", "Fri", "Sat"]

  /** The month table has no repeated entry. */
  lemma MonthNamesDistinct(m: int, n: int)
    requires 0 <= m < 12 && 0 <= n < 12 && MonthName(m) == MonthName(n)
    ensures m == n
  {
  }

  /** `n.toString().padStart(2, "0")` for a day of the month. */
  function Pad2(n: nat): (s: string)
    ensures |s| == (if n < 10 then 2 else |NatToString(n)|)
    ensures AllDigits(s) && ParseDigits(s) == n
  {
    ParseNatToString(n);
    var p := PadZero(NatToString(n), 2);
    if n < 10 then LeadingZero(NatToString(n)); p
    else assert p[|p| - |NatToString(n)|..] == p; p
  }

  /** A leading zero does not change the value of a digit string. */
  lemma LeadingZero(s: string)
    requires AllDigits(s) && |s| == 1
    ensures PadZero(s, 2) == "0" + s && AllDigits(PadZero(s, 2)) && ParseDigits(PadZero(s, 2)) == ParseDigits(s)
  {
    var p := PadZero(s, 2);
    assert p[1..] == s;
    assert p == "0" + s;
    assert ("0" + s)[..1] == "0";
    assert ParseDigits("0" + s) == ParseDigits(("0" + s)[..1]) * 10 + DigitValue(s[0]) by {
      assert ("0" + s)[..|"0" + s| - 1] == "0";
    }
    assert ParseDigits("0") == 0 by { assert "0"[..0] == ""; }
    assert ParseDigits(s) == DigitValue(s[0]) by { assert s[..0] == ""; }
  }

  /** The year as `Date.prototype.toDateString` writes it: at least four
      digits, with a `-` before years before year 0. */
  function YearText(y: int): (s: string)
    ensures y >= 0 ==> s == PadZero(NatToString(y), 4)
    ensures y < 0 ==> s == "-" + PadZero(NatToString(-y), 4)
  {
    if y >= 0 then PadZero(NatToString(y), 4) else "-" + PadZero(NatToString(-y), 4)
  }

  /** `Date.prototype.toDateString`: weekday, month, two-digit day and year,
      separated by single spaces. */
  function ToDateString(d: CalendarDay): (s: string)
    requires ValidDay(d)
  {
    Join(DateWords(d), ' ')
  }

  /** The four words of `toDateString`; none contains a space. */
  function DateWords(d: CalendarDay): (words: seq<string>)
    requires ValidDay(d)
    ensures |words| == 4 && forall i :: 0 <= i < 4 ==> ' ' !in words[i]
  {
    NamesHaveNoSpace(d.weekday, d.monthIndex);
    DigitsHaveNoSpace(Pad2(d.day));
    YearHasNoSpace(d.year);
    WordsOf(WeekdayNames[d.weekday], MonthName(d.monthIndex), Pad2(d.day), YearText(d.year))
  }

  function WordsOf(w: string, m: string, dd: string, y: string): (words: seq<string>)
    requires ' ' !in w && ' ' !in m && ' ' !in dd && ' ' !in y
    ensures |words| == 4 && forall i :: 0 <= i < 4 ==> ' ' !in words[i]
    ensures words == [w, m, dd, y]
  {
    [w, m, dd, y]
  }

  lemma NamesHaveNoSpace(w: int, m: int)
    requires 0 <= w < 7 && 0 <= m < 12
    ensures ' ' !in WeekdayNames[w] && ' ' !in MonthNames[m]
  {
  }

  lemma DigitsHaveNoSpace(s: string)
    requires AllDigits(s)
    ensures ' ' !in s
  {
  }

  lemma YearHasNoSpace(y: int)
    ensures ' ' !in YearText(y)
  {
    var p := PadZero(NatToString(if y >= 0 then y else -y), 4);
    DigitsHaveNoSpace(p);
    assert y < 0 ==> YearText(y) == "-" + p;
  }
}
