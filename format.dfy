/** The rendering of a date-time under the pattern "MM/dd/yyyy @ h:mma" used by
    Event.toString: two-digit month and day, the year of the era in at least four
    digits, an unpadded 12-hour clock hour, two-digit minutes and AM/PM. */
module DateFormat {
  import opened DateTimes

  function DigitChar(n: int): (c: char)
    requires 0 <= n < 10
    ensures '0' <= c <= '9' && c as int - '0' as int == n
  {
    (48 + n) as char
  }

  /** The number a string of decimal digits denotes, read digit by digit; the reader
      the renderings below are checked against. */
  function DigitsValue(s: string): int
  {
    if s == [] then 0 else DigitsValue(s[..|s| - 1]) * 10 + (s[|s| - 1] as int - '0' as int)
  }

  /** Unpadded decimal text of a natural number (Java's default for `h`). */
  function DecimalText(n: nat): (s: string)
    ensures 1 <= |s|
    ensures n < 10 <==> |s| == 1
    ensures 10 <= n < 100 <==> |s| == 2
  {
    if n < 10 then [DigitChar(n)] else DecimalText(n / 10) + [DigitChar(n % 10)]
  }

  /** Zero-padded two-digit text (pattern letters MM, dd and mm). */
  function TwoDigits(n: int): (s: string)
    requires 0 <= n < 100
    ensures |s| == 2
  {
    [DigitChar(n / 10), DigitChar(n % 10)]
  }

  /** Zero-padded four-digit text. */
  function FourDigits(n: int): (s: string)
    requires 0 <= n < 10000
    ensures |s| == 4
  {
    [DigitChar(n / 1000), DigitChar(n / 100 % 10), DigitChar(n / 10 % 10), DigitChar(n % 10)]
  }

  /** Pattern letters yyyy: the year of the era (1 - year before year 1), padded to four
      digits, with a leading '+' once it needs more than four (sign style EXCEEDS_PAD). */
  function YearText(year: int): (s: string)
    ensures 1 <= year <= 9999 ==> s == FourDigits(year)
  {
    var yearOfEra := if year >= 1 then year else 1 - year;
    if yearOfEra < 10000 then FourDigits(yearOfEra) else "+" + DecimalText(yearOfEra)
  }

  /** Pattern letter h: the clock hour of the half-day, 1 to 12. */
  function ClockHour(hour: int): (h: int)
    requires 0 <= hour < 24
    ensures 1 <= h <= 12
  {
    if hour % 12 == 0 then 12 else hour % 12
  }

  /** Pattern letter a, in the English rendering. */
  function AmPm(hour: int): (s: string)
    ensures |s| == 2
  {
    if hour < 12 then "AM" else "PM"
  }

  /** The "MM/dd/yyyy" half of the pattern. */
  function DatePart(d: DateTime): (s: string)
    ensures 1 <= d.year <= 9999 ==> |s| == 10
  {
    TwoDigits(d.month) + "/" + TwoDigits(d.day) + "/" + YearText(d.year)
  }

  /** The "h:mma" half of the pattern. */
  function TimePart(d: DateTime): (s: string)
    ensures |s| == 5 + |DecimalText(ClockHour(d.hour))|
  {
    DecimalText(ClockHour(d.hour)) + ":" + TwoDigits(d.minute) + AmPm(d.hour)
  }

  /** `dateTime.format(DateTimeFormatter.ofPattern("MM/dd/yyyy @ h:mma"))`. */
  function FormatDateTime(d: DateTime): (s: string)
    ensures 1 <= d.year <= 9999 ==> |s| == 18 + |DecimalText(ClockHour(d.hour))|
  {
    DatePart(d) + " @ " + TimePart(d)
  }

  lemma TwoDigitsValue(n: int)
    requires 0 <= n < 100
    ensures DigitsValue(TwoDigits(n)) == n
  {
    var s := TwoDigits(n);
    assert s[..1][..0] == [];
    assert DigitsValue(s[..1]) == n / 10;
    assert DigitsValue(s) == DigitsValue(s[..1]) * 10 + n % 10;
  }

  lemma FourDigitsValue(n: int)
    requires 0 <= n < 10000
    ensures DigitsValue(FourDigits(n)) == n
  {
    var s := FourDigits(n);
    var q1, q2, q3 := n / 1000, n / 100, n / 10;
    assert q1 == q2 / 10 && q2 == q3 / 10;
    assert q2 == q1 * 10 + q2 % 10 && q3 == q2 * 10 + q3 % 10 && n == q3 * 10 + n % 10;
    assert s[..3][..2][..1][..0] == [];
    assert DigitsValue(s[..3][..2][..1]) == q1;
    assert DigitsValue(s[..3][..2]) == q2;
    assert DigitsValue(s[..3]) == q3;
  }

  lemma {:induction false} DecimalTextValue(n: nat)
    ensures DigitsValue(DecimalText(n)) == n
  {
    if n >= 10 {
      DecimalTextValue(n / 10);
      var s := DecimalText(n);
      assert s[..|s| - 1] == DecimalText(n / 10);
    } else {
      assert DecimalText(n)[..0] == [];
    }
  }

  /** Every character a rendering can hold: digits, the separators and the sign of a
      long year, and the letters of AM and PM. */
  const FormatAlphabet := "0123456789/ @:+APM"

  lemma {:induction false} DecimalTextDigits(n: nat)
    ensures forall c :: c in DecimalText(n) ==> '0' <= c <= '9'
  {
    if n >= 10 {
      DecimalTextDigits(n / 10);
    }
  }

  /** A digit is in the alphabet, at the index of its value. */
  lemma DigitInAlphabet(c: char)
    requires '0' <= c <= '9'
    ensures c in FormatAlphabet
  {
    assert FormatAlphabet[c as int - '0' as int] == c;
  }

  /** A rendering uses no character outside the alphabet. */
  lemma FormatCharacters(d: DateTime)
    ensures forall c :: c in FormatDateTime(d) ==> c in FormatAlphabet
  {
    var yearOfEra := if d.year >= 1 then d.year else 1 - d.year;
    DecimalTextDigits(ClockHour(d.hour));
    DecimalTextDigits(yearOfEra);
    forall c | c in FormatDateTime(d) ensures c in FormatAlphabet {
      if '0' <= c <= '9' {
        DigitInAlphabet(c);
      } else {
        assert c in "/ @:+APM";
      }
    }
  }

  /** Where each field sits in a rendering of a date-time with a four-digit year. */
  lemma FormatFields(d: DateTime)
    requires 1 <= d.year <= 9999
    ensures var s := FormatDateTime(d); var n := |s|;
      && s[0..2] == TwoDigits(d.month) && s[2] == '/'
      && s[3..5] == TwoDigits(d.day) && s[5] == '/'
      && s[6..10] == FourDigits(d.year) && s[10..13] == " @ "
      && s[13..n - 5] == DecimalText(ClockHour(d.hour)) && s[n - 5] == ':'
      && s[n - 4..n - 2] == TwoDigits(d.minute)
      && s[n - 2..] == AmPm(d.hour)
  {
    var h := DecimalText(ClockHour(d.hour));
    var s := FormatDateTime(d);
    var head := TwoDigits(d.month) + "/" + TwoDigits(d.day) + "/" + FourDigits(d.year) + " @ ";
    var tail := ":" + TwoDigits(d.minute) + AmPm(d.hour);
    assert |head| == 13 && |tail| == 5;
    assert DatePart(d) + " @ " == head;
    assert TimePart(d) == h + tail;
    assert s == head + h + tail;
    assert s[..13] == head;
    assert head[0..2] == TwoDigits(d.month) && head[3..5] == TwoDigits(d.day);
    assert head[6..10] == FourDigits(d.year) && head[10..13] == " @ ";
    assert s[13..|s| - 5] == h;
    assert s[|s| - 5..] == tail;
    assert tail[1..3] == TwoDigits(d.minute) && tail[3..] == AmPm(d.hour);
  }

  /** The 12-hour clock hour and the AM/PM marker together identify the hour of the day. */
  lemma ClockHourInjective(a: int, b: int)
    requires 0 <= a < 24 && 0 <= b < 24
    requires ClockHour(a) == ClockHour(b) && AmPm(a) == AmPm(b)
    ensures a == b
  {
  }

  /** Two date-times with four-digit years render differently: the rendered text
      determines the date-time, so a listing shows every event's time unambiguously. */
  lemma FormatInjective(a: DateTime, b: DateTime)
    requires 1 <= a.year <= 9999 && 1 <= b.year <= 9999
    requires FormatDateTime(a) == FormatDateTime(b)
    ensures a == b
  {
    var s := FormatDateTime(a);
    FormatFields(a);
    FormatFields(b);
    TwoDigitsValue(a.month); TwoDigitsValue(b.month);
    TwoDigitsValue(a.day); TwoDigitsValue(b.day);
    TwoDigitsValue(a.minute); TwoDigitsValue(b.minute);
    FourDigitsValue(a.year); FourDigitsValue(b.year);
    DecimalTextValue(ClockHour(a.hour)); DecimalTextValue(ClockHour(b.hour));
    ClockHourInjective(a.hour, b.hour);
  }

  /** Assembles the date half from the texts of its fields. */
  lemma DateFromParts(d: DateTime, month: string, day: string, year: string, text: string)
    requires TwoDigits(d.month) == month && TwoDigits(d.day) == day && YearText(d.year) == year
    requires month + "/" + day + "/" + year == text
    ensures DatePart(d) == text
  {
  }

  /** Assembles the time half from the texts of its fields. */
  lemma TimeFromParts(d: DateTime, hour: string, minute: string, marker: string, text: string)
    requires DecimalText(ClockHour(d.hour)) == hour && TwoDigits(d.minute) == minute && AmPm(d.hour) == marker
    requires hour + ":" + minute + marker == text
    ensures TimePart(d) == text
  {
  }

  lemma JoinParts(d: DateTime, date: string, time: string, text: string)
    requires DatePart(d) == date && TimePart(d) == time
    requires date + " @ " + time == text
    ensures FormatDateTime(d) == text
  {
  }

  /** The renderings the unit tests expect: 18:00 on 26 November 2016 reads "11/26/2016 @ 6:00PM". */
  lemma FormatSixPm()
    ensures FormatDateTime(LocalDateTime(2016, 11, 26, 18, 0)) == "11/26/2016 @ 6:00PM"
  {
    var d: DateTime := LocalDateTime(2016, 11, 26, 18, 0);
    assert DatePart(d) == "11/26/2016" by { DateFromParts(d, "11", "26", "2016", "11/26/2016"); }
    assert TimePart(d) == "6:00PM" by { TimeFromParts(d, "6", "00", "PM", "6:00PM"); }
    JoinParts(d, "11/26/2016", "6:00PM", "11/26/2016 @ 6:00PM");
  }

  /** The event unit test's date, 18:00 on 26 November 2015. */
  lemma FormatThanksgiving2015()
    ensures FormatDateTime(LocalDateTime(2015, 11, 26, 18, 0)) == "11/26/2015 @ 6:00PM"
  {
    var d: DateTime := LocalDateTime(2015, 11, 26, 18, 0);
    assert DatePart(d) == "11/26/2015" by { DateFromParts(d, "11", "26", "2015", "11/26/2015"); }
    assert TimePart(d) == "6:00PM" by { TimeFromParts(d, "6", "00", "PM", "6:00PM"); }
    JoinParts(d, "11/26/2015", "6:00PM", "11/26/2015 @ 6:00PM");
  }

  /** ... and 16:00 reads "11/26/2016 @ 4:00PM". */
  lemma FormatFourPm()
    ensures FormatDateTime(LocalDateTime(2016, 11, 26, 16, 0)) == "11/26/2016 @ 4:00PM"
  {
    var d: DateTime := LocalDateTime(2016, 11, 26, 16, 0);
    assert DatePart(d) == "11/26/2016" by { DateFromParts(d, "11", "26", "2016", "11/26/2016"); }
    assert TimePart(d) == "4:00PM" by { TimeFromParts(d, "4", "00", "PM", "4:00PM"); }
    JoinParts(d, "11/26/2016", "4:00PM", "11/26/2016 @ 4:00PM");
  }

  /** Twelve on the 12-hour clock is written with two digits. */
  lemma TwelveText()
    ensures DecimalText(12) == "12"
  {
    assert DecimalText(1) == "1";
    assert DecimalText(12) == DecimalText(1) + [DigitChar(2)];
  }

  /** Midnight shows as 12 on the 12-hour clock, with AM. */
  lemma FormatMidnight()
    ensures FormatDateTime(LocalDateTime(2016, 1, 5, 0, 7)) == "01/05/2016 @ 12:07AM"
  {
    var d: DateTime := LocalDateTime(2016, 1, 5, 0, 7);
    assert DatePart(d) == "01/05/2016" by { DateFromParts(d, "01", "05", "2016", "01/05/2016"); }
    assert TimePart(d) == "12:07AM" by { TwelveText(); TimeFromParts(d, "12", "07", "AM", "12:07AM"); }
    JoinParts(d, "01/05/2016", "12:07AM", "01/05/2016 @ 12:07AM");
  }

  /** Noon shows as 12 on the 12-hour clock, with PM. */
  lemma FormatNoon()
    ensures FormatDateTime(LocalDateTime(2016, 1, 5, 12, 30)) == "01/05/2016 @ 12:30PM"
  {
    var d: DateTime := LocalDateTime(2016, 1, 5, 12, 30);
    assert DatePart(d) == "01/05/2016" by { DateFromParts(d, "01", "05", "2016", "01/05/2016"); }
    assert TimePart(d) == "12:30PM" by { TwelveText(); TimeFromParts(d, "12", "30", "PM", "12:30PM"); }
    JoinParts(d, "01/05/2016", "12:30PM", "01/05/2016 @ 12:30PM");
  }
}
