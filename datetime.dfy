/** A model of the part of java.time.LocalDateTime the calendar relies on:
    minute-precision proleptic Gregorian date-times, their chronological order,
    and the calendar-aware steps plusDays, plusWeeks, plusMonths and plusYears. */
module DateTimes {

  /** The raw fields of a date-time; `DateTime` below keeps only the valid ones. */
  datatype LocalDateTime = LocalDateTime(year: int, month: int, day: int, hour: int, minute: int)

  /** Gregorian leap-year rule (identical to Java's for every year, negative ones included). */
  predicate IsLeapYear(year: int) {
    year % 4 == 0 && (year % 100 != 0 || year % 400 == 0)
  }

  function DaysInMonth(year: int, month: int): (n: int)
    ensures 28 <= n <= 31
    ensures n == 29 <==> month == 2 && IsLeapYear(year)
  {
    if month == 2 then (if IsLeapYear(year) then 29 else 28)
    else if month == 4 || month == 6 || month == 9 || month == 11 then 30
    else 31
  }

  predicate WellFormed(d: LocalDateTime) {
    && 1 <= d.month <= 12
    && 1 <= d.day <= DaysInMonth(d.year, d.month)
    && 0 <= d.hour < 24
    && 0 <= d.minute < 60
  }

  /** A value a LocalDateTime.of call would accept (seconds and nanoseconds are zero). */
  type DateTime = d: LocalDateTime | WellFormed(d) witness LocalDateTime(2000, 1, 1, 0, 0)

  /** The order `isBefore` compares by: lexicographic on (year, month, day, hour, minute). */
  predicate Lexicographic(a: DateTime, b: DateTime) {
    || a.year < b.year
    || (a.year == b.year && a.month < b.month)
    || (a.year == b.year && a.month == b.month && a.day < b.day)
    || (a.year == b.year && a.month == b.month && a.day == b.day && a.hour < b.hour)
    || (a.year == b.year && a.month == b.month && a.day == b.day && a.hour == b.hour && a.minute < b.minute)
  }

  /** A numbering of date-times that leaves gaps for short months but respects the order;
      it also serves as the termination measure of the recurrence loop. */
  function Rank(d: DateTime): int {
    d.year * 535680 + (d.month - 1) * 44640 + (d.day - 1) * 1440 + d.hour * 60 + d.minute
  }

  /** `a.isBefore(b)`, decided on the numbering; BeforeIsLexicographic shows that this is
      the lexicographic comparison. */
  predicate Before(a: DateTime, b: DateTime) {
    Rank(a) < Rank(b)
  }

  predicate NotAfter(a: DateTime, b: DateTime) {
    Before(a, b) || a == b
  }

  lemma BeforeIsLexicographic(a: DateTime, b: DateTime)
    ensures Before(a, b) <==> Lexicographic(a, b)
  {
  }

  /** The numbering is one-to-one on valid date-times. */
  lemma RankOrder(a: DateTime, b: DateTime)
    ensures Before(a, b) <==> Rank(a) < Rank(b)
    ensures a == b <==> Rank(a) == Rank(b)
  {
    BeforeIsLexicographic(a, b);
    BeforeIsLexicographic(b, a);
  }

  /** Before is a strict total order, so "not before" is "at or after". */
  lemma BeforeTotal(a: DateTime, b: DateTime)
    ensures !Before(a, b) <==> NotAfter(b, a)
    ensures !(Before(a, b) && Before(b, a))
  {
    RankOrder(a, b);
    RankOrder(b, a);
  }

  lemma BeforeTransitive(a: DateTime, b: DateTime, c: DateTime)
    requires Before(a, b) && Before(b, c)
    ensures Before(a, c)
  {
    RankOrder(a, b);
    RankOrder(b, c);
    RankOrder(a, c);
  }

  /** The day after `d` at the same time of day (LocalDate.plusDays(1)). */
  function NextDay(d: DateTime): (r: DateTime)
    ensures Before(d, r)
    ensures r.hour == d.hour && r.minute == d.minute
    ensures r.day == 1 <==> d.day == DaysInMonth(d.year, d.month)
  {
    if d.day < DaysInMonth(d.year, d.month) then d.(day := d.day + 1)
    else if d.month < 12 then d.(month := d.month + 1, day := 1)
    else d.(year := d.year + 1, month := 1, day := 1)
  }

  /** `d.plusDays(n)`. */
  function PlusDays(d: DateTime, n: nat): (r: DateTime)
    ensures r.hour == d.hour && r.minute == d.minute
    decreases n
  {
    if n == 0 then d
    else PlusDays(NextDay(d), n - 1)
  }

  /** Adding at least one day moves strictly later. */
  lemma {:induction false} PlusDaysLater(d: DateTime, n: nat)
    requires n > 0
    ensures Before(d, PlusDays(d, n))
    decreases n
  {
    if n > 1 {
      PlusDaysLater(NextDay(d), n - 1);
      BeforeTransitive(d, NextDay(d), PlusDays(d, n));
    }
  }

  /** `d.plusWeeks(n)`, which java.time defines as `d.plusDays(7 * n)`. */
  function PlusWeeks(d: DateTime, n: nat): (r: DateTime)
    ensures r.hour == d.hour && r.minute == d.minute
    ensures n > 0 ==> Before(d, r)
  {
    if n > 0 then PlusDaysLater(d, 7 * n); PlusDays(d, 7 * n) else PlusDays(d, 0)
  }

  /** The day-of-month clamped to the last valid day, as resolvePreviousValid does. */
  function ClampDay(year: int, month: int, day: int): (r: int)
    requires 1 <= month <= 12 && 1 <= day
    ensures 1 <= r <= DaysInMonth(year, month)
    ensures r == day || (day > DaysInMonth(year, month) && r == DaysInMonth(year, month))
  {
    if day <= DaysInMonth(year, month) then day else DaysInMonth(year, month)
  }

  /** `d.plusMonths(n)`: shifts the month count, keeps the time, clamps the day. */
  function PlusMonths(d: DateTime, n: nat): (r: DateTime)
    ensures r.year * 12 + r.month == d.year * 12 + d.month + n
    ensures r.day <= d.day && (r.day == d.day || r.day == DaysInMonth(r.year, r.month))
    ensures r.hour == d.hour && r.minute == d.minute
    ensures n > 0 ==> Before(d, r)
  {
    var count := d.year * 12 + (d.month - 1) + n;
    var year := count / 12;
    var month := count % 12 + 1;
    LocalDateTime(year, month, ClampDay(year, month, d.day), d.hour, d.minute)
  }

  /** `d.plusYears(n)`: shifts the year, keeps month and time, clamps 29 February. */
  function PlusYears(d: DateTime, n: int): (r: DateTime)
    ensures r.year == d.year + n && r.month == d.month
    ensures r.day == d.day || (d.month == 2 && d.day == 29 && r.day == 28 && !IsLeapYear(r.year))
    ensures r.hour == d.hour && r.minute == d.minute
    ensures n > 0 ==> Before(d, r)
  {
    LocalDateTime(d.year + n, d.month, ClampDay(d.year + n, d.month, d.day), d.hour, d.minute)
  }

  /** PlusDays splits over a sum of day counts. */
  lemma {:induction false} PlusDaysAdd(d: DateTime, a: nat, b: nat)
    ensures PlusDays(PlusDays(d, a), b) == PlusDays(d, a + b)
    decreases a
  {
    if a > 0 {
      PlusDaysAdd(NextDay(d), a - 1, b);
    }
  }

  /** Within one month, adding days only moves the day-of-month. */
  lemma {:induction false} PlusDaysInMonth(d: DateTime, n: nat)
    requires d.day + n <= DaysInMonth(d.year, d.month)
    ensures PlusDays(d, n) == d.(day := d.day + n)
    decreases n
  {
    if n > 0 {
      PlusDaysInMonth(NextDay(d), n - 1);
    }
  }

  /** From day `day` of a month, the first day of the next month is
      `n == DaysInMonth - day + 1` days away. */
  lemma PlusDaysToNextMonth(d: DateTime, n: nat)
    requires n == DaysInMonth(d.year, d.month) - d.day + 1
    ensures PlusDays(d, n) == (if d.month < 12 then d.(month := d.month + 1, day := 1)
                               else d.(year := d.year + 1, month := 1, day := 1))
  {
    PlusDaysInMonth(d, n - 1);
    PlusDaysSnoc(d, n);
  }

  /** One more day is the day after. */
  lemma {:induction false} PlusDaysSnoc(d: DateTime, n: nat)
    requires n > 0
    ensures PlusDays(d, n) == NextDay(PlusDays(d, n - 1))
    decreases n
  {
    if n > 1 {
      PlusDaysSnoc(NextDay(d), n - 1);
    }
  }
}
