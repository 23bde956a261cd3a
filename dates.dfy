/**
  The "last updated" text of the published record: the day, a Norwegian month
  name taken from a fixed twelve-entry table, and the year. The clock reading
  itself is an input (day, month and year of the run).
*/
module Dates {
  import opened Wrappers

  /** The month-name table, January first. */
  const NorwegianMonths: seq<string> := [
    "januar", "februar", "mars", "april", "mai", "juni",
    "juli", "august", "september", "oktober", "november", "desember"
  ]

  /** The fixed lead-in of the text. */
  const Prefix: string := "Sist oppdatert: "

  /** A calendar date as the clock reports it. */
  datatype Date = Date(day: nat, month: int, year: nat)

  predicate IsDigit(c: char)
  {
    '0' <= c <= '9'
  }

  predicate AllDigits(s: string)
  {
    forall i :: 0 <= i < |s| ==> IsDigit(s[i])
  }

  function DigitChar(d: nat): (c: char)
    requires d < 10
    ensures IsDigit(c) && (c as int) - ('0' as int) == d
  {
    "0123456789"[d]
  }

  /** The value of a string of decimal digits, most significant first. */
  function DecimalValue(s: string): nat
    requires AllDigits(s)
  {
    if |s| == 0 then 0
    else DecimalValue(s[..|s| - 1]) * 10 + ((s[|s| - 1] as int) - ('0' as int))
  }

  /**
    How Python prints a non-negative integer: its decimal digits, with no
    leading zero except for zero itself.
  */
  function NatToDecimal(n: nat): (s: string)
    ensures |s| > 0 && AllDigits(s)
    ensures |s| == 1 || s[0] != '0'
  {
    if n < 10 then [DigitChar(n)] else NatToDecimal(n / 10) + [DigitChar(n % 10)]
  }

  /** Reading the printed digits back gives the number. */
  lemma {:induction false} DecimalRoundTrip(n: nat)
    ensures DecimalValue(NatToDecimal(n)) == n
  {
    var s := NatToDecimal(n);
    if n >= 10 {
      DecimalRoundTrip(n / 10);
      assert s[..|s| - 1] == NatToDecimal(n / 10);
    }
  }

  /** The name of a month, 1 being January. The clock only reports months 1 to 12. */
  function MonthName(month: int): (name: string)
    requires 1 <= month <= 12
    ensures name in NorwegianMonths
  {
    NorwegianMonths[month - 1]
  }

  /** Position of the first occurrence of x in xs. */
  function IndexOf<T(==)>(xs: seq<T>, x: T): (r: Option<nat>)
    ensures r.Some? ==> r.value < |xs| && xs[r.value] == x && x !in xs[..r.value]
    ensures r.None? ==> x !in xs
  {
    if |xs| == 0 then None
    else if xs[0] == x then Some(0)
    else match IndexOf(xs[1..], x)
      case None => None
      case Some(i) => assert xs[..i + 1] == [xs[0]] + xs[1..][..i]; Some(i + 1)
  }

  /** The month a name stands for, if it is one of the twelve. */
  function MonthNumber(name: string): (r: Option<int>)
    ensures r.Some? ==> 1 <= r.value <= 12 && MonthName(r.value) == name
    ensures r.None? ==> name !in NorwegianMonths
  {
    match IndexOf(NorwegianMonths, name)
    case None => None
    case Some(i) => Some(i + 1)
  }

  /** No two entries of the table share their length and third letter, so no two are equal. */
  lemma MonthNamesDistinct(a: int, b: int)
    requires 0 <= a < b < 12
    ensures NorwegianMonths[a] != NorwegianMonths[b]
  {
    var key := seq(12, i requires 0 <= i < 12 => (|NorwegianMonths[i]|, NorwegianMonths[i][2]));
    assert key == [(6, 'n'), (7, 'b'), (4, 'r'), (5, 'r'), (3, 'i'), (4, 'n'),
                   (4, 'l'), (6, 'g'), (9, 'p'), (7, 't'), (8, 'v'), (8, 's')];
    assert key[a] != key[b];
  }

  /** The twelve names are distinct, so a month name identifies its month. */
  lemma MonthRoundTrip(month: int)
    requires 1 <= month <= 12
    ensures MonthNumber(MonthName(month)) == Some(month)
  {
    var r := IndexOf(NorwegianMonths, MonthName(month));
    assert NorwegianMonths[month - 1] == MonthName(month);
    assert r.Some?;
    if r.value < month - 1 {
      MonthNamesDistinct(r.value, month - 1);
    }
  }

  /** The "last updated" text for a given date. */
  function LastUpdated(day: nat, month: int, year: nat): (s: string)
    requires 1 <= month <= 12
    ensures |Prefix| <= |s| && s[..|Prefix|] == Prefix
  {
    Prefix + NatToDecimal(day) + ". " + MonthName(month) + " " + NatToDecimal(year)
  }

  /** Reads a "last updated" text back into its date; the inverse of LastUpdated. */
  function ParseLastUpdated(s: string): Option<Date>
  {
    if |Prefix| <= |s| && s[..|Prefix|] == Prefix then ParseDayMonthYear(s[|Prefix|..]) else None
  }

  /** Reads "<day>. <month> <year>". */
  function ParseDayMonthYear(rest: string): Option<Date>
  {
    match IndexOf(rest, '.')
    case None => None
    case Some(i) =>
      var dayText, after := rest[..i], rest[i..];
      if |dayText| > 0 && AllDigits(dayText) && |after| >= 2 && after[..2] == ". "
      then ParseMonthYear(DecimalValue(dayText), after[2..])
      else None
  }

  /** Reads "<month> <year>" once the day is known. */
  function ParseMonthYear(day: nat, tail: string): Option<Date>
  {
    match IndexOf(tail, ' ')
    case None => None
    case Some(j) =>
      var monthText, yearText := tail[..j], tail[j + 1..];
      match MonthNumber(monthText)
      case None => None
      case Some(m) =>
        if |yearText| > 0 && AllDigits(yearText) then Some(Date(day, m, DecimalValue(yearText))) else None
  }

  /** A separator that does not occur in the text before it is found right where it was put. */
  lemma {:induction false} SeparatorFound<T>(a: seq<T>, c: T, b: seq<T>)
    requires c !in a
    ensures IndexOf(a + [c] + b, c) == Some(|a|)
  {
    assert (a + [c] + b)[|a|] == c;
  }

  lemma {:induction false} MonthYearRoundTrip(day: nat, month: int, year: nat)
    requires 1 <= month <= 12
    ensures ParseMonthYear(day, MonthName(month) + " " + NatToDecimal(year)) == Some(Date(day, month, year))
  {
    var m, y := MonthName(month), NatToDecimal(year);
    assert ' ' !in m by {
      assert forall i :: 0 <= i < 12 ==> ' ' !in NorwegianMonths[i];
    }
    assert m + " " + y == m + [' '] + y;
    SeparatorFound(m, ' ', y);
    var tail := m + [' '] + y;
    assert tail[..|m|] == m;
    assert tail[|m| + 1..] == y;
    MonthRoundTrip(month);
    DecimalRoundTrip(year);
  }

  /** A run of digits followed by ". " is read as the day, and the rest is left for the month and year. */
  lemma {:induction false} DayFound(d: string, rest: string)
    requires |d| > 0 && AllDigits(d)
    ensures ParseDayMonthYear(d + ". " + rest) == ParseMonthYear(DecimalValue(d), rest)
  {
    var text := d + ". " + rest;
    assert text == d + ['.'] + ([' '] + rest);
    SeparatorFound(d, '.', [' '] + rest);
    assert text[..|d|] == d;
    assert text[|d|..] == ". " + rest;
    assert (". " + rest)[2..] == rest;
  }

  lemma {:induction false} DayMonthYearRoundTrip(day: nat, month: int, year: nat)
    requires 1 <= month <= 12
    ensures ParseDayMonthYear(NatToDecimal(day) + ". " + MonthName(month) + " " + NatToDecimal(year)) == Some(Date(day, month, year))
  {
    var rest := MonthName(month) + " " + NatToDecimal(year);
    assert NatToDecimal(day) + ". " + MonthName(month) + " " + NatToDecimal(year) == NatToDecimal(day) + ". " + rest;
    DayFound(NatToDecimal(day), rest);
    DecimalRoundTrip(day);
    MonthYearRoundTrip(day, month, year);
  }

  /** The published date text determines the date it was made from. */
  lemma LastUpdatedRoundTrip(day: nat, month: int, year: nat)
    requires 1 <= month <= 12
    ensures ParseLastUpdated(LastUpdated(day, month, year)) == Some(Date(day, month, year))
  {
    var s := LastUpdated(day, month, year);
    assert s[|Prefix|..] == NatToDecimal(day) + ". " + MonthName(month) + " " + NatToDecimal(year);
    DayMonthYearRoundTrip(day, month, year);
  }
}
