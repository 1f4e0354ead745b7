/**
 * Calendar dates and the parser behind `date.fromisoformat`, restricted to the
 * complete calendar date in extended format `YYYY-MM-DD` (section 4.1.2.2 of
 * ISO 8601:2004), the one form every Python version accepts.
 */
module Calendar {
  import opened Wrappers

  /** A proleptic Gregorian date; only `IsValid` ones are ever produced. */
  datatype Date = Date(year: int, month: int, day: int)

  predicate IsLeapYear(year: int) {
    year % 4 == 0 && (year % 100 != 0 || year % 400 == 0)
  }

  function DaysInMonth(year: int, month: int): (n: int)
    requires 1 <= month <= 12
    ensures 28 <= n <= 31
    ensures month == 2 ==> n == (if IsLeapYear(year) then 29 else 28)
    ensures month != 2 ==> (n == 30 <==> month in {4, 6, 9, 11})
    ensures month != 2 ==> (n == 31 <==> month in {1, 3, 5, 7, 8, 10, 12})
  {
    if month == 2 then (if IsLeapYear(year) then 29 else 28)
    else if month == 4 || month == 6 || month == 9 || month == 11 then 30
    else 31
  }

  /** Python's `date` accepts years MINYEAR = 1 to MAXYEAR = 9999. */
  predicate IsValid(d: Date) {
    && 1 <= d.year <= 9999
    && 1 <= d.month <= 12
    && 1 <= d.day <= DaysInMonth(d.year, d.month)
  }

  /** A value of Python's `date` type: always a day that exists. */
  type ValidDate = d: Date | IsValid(d) witness Date(1, 1, 1)

  /** Date comparison: chronological, which for dates is lexicographic on (year, month, day). */
  predicate Le(a: Date, b: Date) {
    a.year < b.year
    || (a.year == b.year && a.month < b.month)
    || (a.year == b.year && a.month == b.month && a.day <= b.day)
  }

  lemma LeIsTotalOrder(a: Date, b: Date, c: Date)
    ensures Le(a, a)
    ensures Le(a, b) || Le(b, a)
    ensures Le(a, b) && Le(b, a) ==> a == b
    ensures Le(a, b) && Le(b, c) ==> Le(a, c)
  {
  }

  predicate IsDigit(c: char) {
    '0' <= c <= '9'
  }

  predicate AllDigits(s: string) {
    forall i :: 0 <= i < |s| ==> IsDigit(s[i])
  }

  function Pow10(n: nat): (p: nat)
    ensures p >= 1
  {
    if n == 0 then 1 else 10 * Pow10(n - 1)
  }

  /** The value of a string of decimal digits, most significant first. */
  function DecimalValue(s: string): (n: nat)
    requires AllDigits(s)
    ensures n < Pow10(|s|)
  {
    if s == [] then 0
    else DecimalValue(s[..|s| - 1]) * 10 + (s[|s| - 1] as int - '0' as int)
  }

  /** `n` written with exactly `width` decimal digits, zero-padded on the left. */
  function Decimal(n: nat, width: nat): (s: string)
    requires n < Pow10(width)
    ensures |s| == width && AllDigits(s)
  {
    if width == 0 then ""
    else Decimal(n / 10, width - 1) + [('0' as int + n % 10) as char]
  }

  lemma {:induction false} DecimalRoundTrip(n: nat, width: nat)
    requires n < Pow10(width)
    ensures DecimalValue(Decimal(n, width)) == n
  {
    if width > 0 {
      var s := Decimal(n, width);
      assert s[..|s| - 1] == Decimal(n / 10, width - 1);
      DecimalRoundTrip(n / 10, width - 1);
    }
  }

  lemma {:induction false} DecimalValueRoundTrip(s: string)
    requires AllDigits(s)
    ensures Decimal(DecimalValue(s), |s|) == s
  {
    if s != [] {
      var init := s[..|s| - 1];
      var digit := s[|s| - 1] as int - '0' as int;
      assert IsDigit(s[|s| - 1]);
      ShiftDigit(DecimalValue(init), digit);
      DecimalValueRoundTrip(init);
      assert s == init + [s[|s| - 1]];
    }
  }

  /** Appending a digit to a number shifts it one decimal place. */
  lemma ShiftDigit(n: nat, digit: int)
    requires 0 <= digit < 10
    ensures (n * 10 + digit) / 10 == n && (n * 10 + digit) % 10 == digit
  {
  }

  /** `YYYY-MM-DD`, as `date.isoformat` writes a date. */
  function FormatIsoDate(d: Date): (s: string)
    requires IsValid(d)
    ensures |s| == 10 && s[4] == '-' && s[7] == '-'
  {
    Decimal(d.year, 4) + "-" + Decimal(d.month, 2) + "-" + Decimal(d.day, 2)
  }

  /**
   * `date.fromisoformat` on the extended calendar-date form: exactly ten
   * characters, ASCII digits with `-` at positions 4 and 7, naming a date that
   * exists. Every other string is a `ValueError`, here `None`.
   */
  function ParseIsoDate(s: string): (r: Option<ValidDate>)
    ensures r.Some? ==> IsValid(r.value)
    ensures |s| != 10 ==> r.None?
  {
    if |s| == 10 && s[4] == '-' && s[7] == '-'
       && AllDigits(s[..4]) && AllDigits(s[5..7]) && AllDigits(s[8..])
    then
      var d := Date(DecimalValue(s[..4]), DecimalValue(s[5..7]), DecimalValue(s[8..]));
      if IsValid(d) then Some(d) else None
    else None
  }

  /** Every valid date survives formatting and parsing. */
  lemma FormatThenParse(d: Date)
    requires IsValid(d)
    ensures ParseIsoDate(FormatIsoDate(d)) == Some(d)
  {
    var s := FormatIsoDate(d);
    assert s[..4] == Decimal(d.year, 4);
    assert s[5..7] == Decimal(d.month, 2);
    assert s[8..] == Decimal(d.day, 2);
    DecimalRoundTrip(d.year, 4);
    DecimalRoundTrip(d.month, 2);
    DecimalRoundTrip(d.day, 2);
  }

  /** A string is accepted only if it is the canonical spelling of the date it yields. */
  lemma ParseThenFormat(s: string)
    requires ParseIsoDate(s).Some?
    ensures FormatIsoDate(ParseIsoDate(s).value) == s
  {
    var d := ParseIsoDate(s).value;
    DecimalValueRoundTrip(s[..4]);
    DecimalValueRoundTrip(s[5..7]);
    DecimalValueRoundTrip(s[8..]);
    assert s == s[..4] + "-" + s[5..7] + "-" + s[8..];
  }

  /** Hence parsing accepts exactly the canonical spellings of valid dates. */
  lemma ParseIsoDateExact(s: string, d: Date)
    requires IsValid(d)
    ensures ParseIsoDate(s) == Some(d) <==> FormatIsoDate(d) == s
  {
    if ParseIsoDate(s) == Some(d) {
      ParseThenFormat(s);
    }
    if FormatIsoDate(d) == s {
      FormatThenParse(d);
    }
  }
}
