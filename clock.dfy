/** The one piece of logic in the command-line front end: turning the hour and
    the "am"/"pm" marker a user typed into an hour of the 24-hour day. */
module CommandLine {
  import opened DateFormat

  /** The values of a Java `int`. */
  type Int32 = x: int | -0x8000_0000 <= x < 0x8000_0000

  /** Java's `int` addition result: the mathematical value taken modulo 2^32 into the
      signed range. */
  function Wrap32(x: int): (r: Int32)
    ensures (r - x) % 0x1_0000_0000 == 0
    ensures -0x8000_0000 <= x < 0x8000_0000 ==> r == x
  {
    (x + 0x8000_0000) % 0x1_0000_0000 - 0x8000_0000
  }

  /** `convert_hour_to_24hr_clock(hour, meridiem)`. For a 12-hour clock reading it is
      the inverse of the formatter's `h` and `a` fields; any other input comes back
      unchanged, except "pm" with an hour other than 12, which gains 12 in 32-bit
      arithmetic. */
  function ConvertHourTo24HrClock(hour: Int32, meridiem: string): (r: Int32)
    ensures 1 <= hour <= 12 && (meridiem == "am" || meridiem == "pm") ==>
              0 <= r < 24 && ClockHour(r) == hour && (r < 12 <==> meridiem == "am")
    ensures meridiem != "am" && meridiem != "pm" ==> r == hour
    ensures hour != 12 && meridiem != "pm" ==> r == hour
    ensures hour != 12 && meridiem == "pm" ==> r == Wrap32(hour + 12)
    ensures hour != 12 && meridiem == "pm" && hour < 0x8000_0000 - 12 ==> r == hour + 12
  {
    if meridiem == "pm" && hour == 12 then hour
    else if meridiem == "am" && hour == 12 then 0
    else if meridiem == "pm" then Wrap32(12 + hour)
    else hour
  }

  /** An hour the front end accepts (it parses any run of digits) for which the
      addition wraps around to a negative hour. */
  lemma ConvertWraps()
    ensures ConvertHourTo24HrClock(0x7FFF_FFFF, "pm") == -0x7FFF_FFF5
  {
  }

  /** The lower-case marker the front end accepts for a given hour of the day. */
  function Meridiem(hour: int): (m: string)
    ensures m == "am" || m == "pm"
  {
    if hour < 12 then "am" else "pm"
  }

  /** Reading back a rendered hour: every hour of the day is recovered from its
      12-hour clock value and its marker. */
  lemma ConvertRendered(hour: int)
    requires 0 <= hour < 24
    ensures ConvertHourTo24HrClock(ClockHour(hour), Meridiem(hour)) == hour
  {
    var r := ConvertHourTo24HrClock(ClockHour(hour), Meridiem(hour));
    ClockHourInjective(r, hour);
  }

  /** On 12-hour clock readings the conversion is one-to-one: distinct (hour, marker)
      pairs give distinct hours of the day. */
  lemma ConvertInjective(h1: int, m1: string, h2: int, m2: string)
    requires 1 <= h1 <= 12 && (m1 == "am" || m1 == "pm")
    requires 1 <= h2 <= 12 && (m2 == "am" || m2 == "pm")
    requires ConvertHourTo24HrClock(h1, m1) == ConvertHourTo24HrClock(h2, m2)
    ensures h1 == h2 && m1 == m2
  {
  }
}
