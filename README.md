# Command-line Java calendar: the event store, in Dafny

This project models the in-memory event store of a small command-line calendar written in
Java. It covers the class `Calendar`, the `Event` record it holds, and the one piece of logic
in the command-line front end that converts a 12-hour clock reading to a 24-hour one.

A calendar keeps two indices of the same `Event` objects:

- a hash index from the key (title, date-time) to the event;
- an ordered index from date-time to the event, kept in ascending order.

Every operation reads or changes these indices. Those operations are:

- a one-time add, guarded by a scheduling window from now to one year ahead;
- a recurring add, a do/while loop that steps by a day, a week, a month or a year;
- remove and find;
- three in-place updates (title, date-time, notes);
- the listing.

The model is split into modules that follow the program:

- `DateTimes` (datetime.dfy): the part of `java.time.LocalDateTime` the calendar uses. It
  covers minute-precision date-times, their order, and `plusDays`, `plusWeeks`, `plusMonths`
  and `plusYears`. The last two clamp the day of the month.
- `DateFormat` (format.dfy): the pattern `MM/dd/yyyy @ h:mma` in its English rendering.
- `CommandLine` (clock.dfy): `convert_hour_to_24hr_clock`, with Java's 32-bit `int` addition.
- `Events` (event.dfy): the class `Event`, with its three fields, getters and setters, and
  its fixed-width line. The title column is padded with spaces to 20 characters.
- `TimeIndex` (timeindex.dfy): the `TreeMap` of the ordered index, as a strictly ascending
  sequence of (date-time, event) slots. `Put` and `Remove` are proved against the map the
  sequence stands for.
- `Calendars` (calendar.dfy): the class `Calendar`. The two indices are fields that its
  methods reassign. Events are objects shared by both indices, so a setter on an event
  changes what the listing shows without touching the ordered index.
- `CalendarScenarios` (scenarios.dfy): the calendar unit tests stated as runs of the model,
  with the wall clock fixed at 10:00 on 29 November 2015.

Each Java exception becomes a `Fail` value with the same message kind. The wall clock
becomes a `now` parameter.

The recurring unit test expects 366 events. That holds for the clock the model fixes: the
test's start lies one hour after `now`, and the window runs to 29 November 2016
(`TestDailyCount`). It is not a general fact. A daily event that starts on 29 February 2016
gets 365 occurrences, because `plusYears(1)` clamps the end of the window to 28 February 2017
(a 29 February 2017 does not exist) and the loop stops before that end (`LeapDayDailyCount`).
The model follows the code here.

## Model

| member | source | states |
|---|---|---|
| DateTimes.BeforeIsLexicographic | src/com/navroopsingh/Calendar.java:53-54 | `isBefore` on date-times is the lexicographic order on (year, month, day, hour, minute) |
| DateTimes.BeforeTotal | src/com/navroopsingh/Calendar.java:53-54 | the order is strict and total, so `isAfter(t)` failing means "at or before t" |
| DateTimes.NextDay | src/com/navroopsingh/Calendar.java:93 | the next day is strictly later, keeps the time of day, and is the 1st exactly when the day was the last of its month |
| DateTimes.PlusDays | src/com/navroopsingh/Calendar.java:93 | `plusDays` keeps the hour and minute |
| DateTimes.PlusDaysLater | src/com/navroopsingh/Calendar.java:93-107 | adding one or more days gives a strictly later date-time |
| DateTimes.PlusDaysAdd | src/com/navroopsingh/Calendar.java:93 | `plusDays(a)` then `plusDays(b)` equals `plusDays(a + b)` |
| DateTimes.PlusWeeks | src/com/navroopsingh/Calendar.java:96 | `plusWeeks(n)` keeps the time of day and moves strictly later for n > 0 |
| DateTimes.PlusDaysToNextMonth | src/com/navroopsingh/Calendar.java:93 | from day d of a month, the days left in it plus one lead to the 1st of the next month (or of January) |
| DateTimes.ClampDay | src/com/navroopsingh/Calendar.java:99-102 | the clamped day is valid for the month, and is either the day itself or the month's last day when the day is too large |
| DateTimes.PlusMonths | src/com/navroopsingh/Calendar.java:99 | `plusMonths(n)` advances the month count by n, keeps the time, keeps the day or clamps it to the month's last day, and is later for n > 0 |
| DateTimes.PlusYears | src/com/navroopsingh/Calendar.java:102 | `plusYears(n)` shifts only the year, and changes the day only from 29 February to 28 February of a common year |
| DateFormat.DecimalText | src/com/navroopsingh/Event.java:52 | the unpadded number has one digit below 10 and two from 10 to 99 |
| DateFormat.TwoDigitsValue | src/com/navroopsingh/Event.java:52 | the two-digit fields `MM`, `dd` and `mm` read back to their value |
| DateFormat.FourDigitsValue | src/com/navroopsingh/Event.java:52 | the four-digit year `yyyy` reads back to its value |
| DateFormat.DecimalTextValue | src/com/navroopsingh/Event.java:52 | the unpadded hour `h` reads back to its value |
| DateFormat.YearText | src/com/navroopsingh/Event.java:52 | years 1 to 9999 print as exactly four digits |
| DateFormat.ClockHour | src/com/navroopsingh/Event.java:52 | the `h` field lies in 1..12 |
| DateFormat.FormatDateTime | src/com/navroopsingh/Event.java:52 | a rendering with a four-digit year is 18 characters plus the width of the hour |
| DateFormat.FormatFields | src/com/navroopsingh/Event.java:52 | month, '/', day, '/', year, " @ ", hour, ':', minutes and AM/PM sit at fixed positions of the rendering |
| DateFormat.ClockHourInjective | src/com/navroopsingh/Event.java:52 | the `h` and `a` fields together determine the hour of the day |
| DateFormat.FormatInjective | src/com/navroopsingh/Event.java:52 | two date-times with four-digit years render differently unless they are equal |
| DateFormat.FormatCharacters | src/com/navroopsingh/Event.java:52 | a rendering uses only digits and the characters "/ @:+APM" |
| DateFormat.FormatSixPm | src/com/navroopsingh/Event.java:52 | 26 November 2016 at 18:00 renders as "11/26/2016 @ 6:00PM" |
| DateFormat.FormatThanksgiving2015 | src/com/navroopsingh/tests/EventTest.java:25 | 26 November 2015 at 18:00 renders as "11/26/2015 @ 6:00PM" |
| DateFormat.FormatFourPm | src/com/navroopsingh/tests/CalendarTest.java:62 | 26 November 2016 at 16:00 renders as "11/26/2016 @ 4:00PM" |
| DateFormat.FormatMidnight | src/com/navroopsingh/Event.java:52 | 00:07 renders with clock hour 12 and "AM" |
| DateFormat.FormatNoon | src/com/navroopsingh/Event.java:52 | 12:30 renders with clock hour 12 and "PM" |
| CommandLine.ConvertHourTo24HrClock | src/com/navroopsingh/Main.java:304-314 | for 1..12 with "am"/"pm" the result is in 0..23, shows that clock hour, and is before noon exactly for "am"; any other marker, and "am" with an hour other than 12, leaves the hour unchanged; "pm" with an hour other than 12 adds 12 in 32-bit arithmetic, which is the plain sum unless it overflows |
| CommandLine.ConvertRendered | src/com/navroopsingh/Main.java:304-314 | converting the clock hour and marker of any hour of the day gives that hour back |
| CommandLine.ConvertInjective | src/com/navroopsingh/Main.java:304-314 | distinct clock readings (1..12 with "am" or "pm") give distinct hours |
| CommandLine.Wrap32 | src/com/navroopsingh/Main.java:310 | a 32-bit `int` sum: congruent to the true sum modulo 2^32, and equal to it when that lies in the `int` range |
| CommandLine.ConvertWraps | src/com/navroopsingh/Main.java:309-310 | the hour 2147483647 with "pm" wraps around to -2147483637 |
| Events.CreateEmptyString | src/com/navroopsingh/Event.java:63-65 | the result is exactly `count` spaces |
| Events.RenderLineColumns | src/com/navroopsingh/Event.java:48-57 | a line is the date, a pipe separator, the title padded with spaces to exactly 20 characters, the separator before "Notes: ", and the notes |
| Events.LineShowsFields | src/com/navroopsingh/Event.java:48-57 | a line contains its event's formatted date-time, title and notes |
| Events.LineCharacters | src/com/navroopsingh/Event.java:48-57 | every character of a line comes from the title, the notes, or the fixed characters of the date and separators |
| Events.RenderLineExample | src/com/navroopsingh/tests/EventTest.java:25 | the event test's expected line for title "Thanksgiving", date 26 November 2015 at 18:00 and its notes |
| Events.EightSpaces | src/com/navroopsingh/Event.java:55 | a 12-character title gets 8 spaces of padding |
| Events.RenderLine | src/com/navroopsingh/Event.java:48-57 | the text of an event's line from its three fields; its layout is stated by RenderLineColumns, LineShowsFields and LineCharacters |
| Events.Event.constructor | src/com/navroopsingh/Event.java:17-21 | the event stores title, date-time and notes verbatim |
| Events.Event.GetEventTitle | src/com/navroopsingh/Event.java:23-25 | returns the stored title |
| Events.Event.GetEventNotes | src/com/navroopsingh/Event.java:27-29 | returns the stored notes |
| Events.Event.GetEventDateTime | src/com/navroopsingh/Event.java:31-33 | returns the stored date-time |
| Events.Event.UpdateEventTitle | src/com/navroopsingh/Event.java:35-37 | sets the title and leaves date-time and notes unchanged |
| Events.Event.UpdateEventDateTime | src/com/navroopsingh/Event.java:39-41 | sets the date-time and leaves title and notes unchanged |
| Events.Event.UpdateEventNotes | src/com/navroopsingh/Event.java:43-45 | sets the notes and leaves title and date-time unchanged |
| Events.Event.ToString | src/com/navroopsingh/Event.java:48-57 | `toString()` renders the event's current fields with RenderLine, so a setter changes the line without any index changing |
| Events.EventCreationScenario | src/com/navroopsingh/tests/EventTest.java:17-26 | a new event answers its getters with what it was given and renders as the expected line (asserted in the body) |
| TimeIndex.Contents | src/com/navroopsingh/Calendar.java:36 | the map an ordered index stands for has exactly the slots' date-times as keys |
| TimeIndex.ContentsAt | src/com/navroopsingh/Calendar.java:36 | in an ascending index, the map at a slot's date-time is that slot's event |
| TimeIndex.Put | src/com/navroopsingh/Calendar.java:62 | `TreeMap.put` keeps the index ascending and adds no slot except the new one |
| TimeIndex.PutContents | src/com/navroopsingh/Calendar.java:62 | after `put(t, e)` the index stands for the old map updated at t with e |
| TimeIndex.PutLength | src/com/navroopsingh/Calendar.java:62 | `put` adds a slot exactly when t was not yet a key |
| TimeIndex.Remove | src/com/navroopsingh/Calendar.java:119 | `TreeMap.remove` keeps the index ascending and drops only the slot at t |
| TimeIndex.RemoveContents | src/com/navroopsingh/Calendar.java:119 | after `remove(t)` the index stands for the old map without t |
| TimeIndex.RemoveLength | src/com/navroopsingh/Calendar.java:119 | `remove` drops a slot exactly when t was a key |
| TimeIndex.Values | src/com/navroopsingh/Calendar.java:188 | `values()` lists the slots' events in index order |
| Calendars.CreateEventKey | src/com/navroopsingh/Calendar.java:194-196 | the key carries the title and the date-time |
| Calendars.CreateEventKeyInjective | src/com/navroopsingh/Calendar.java:23-24 | two keys are equal exactly when title and date-time both are |
| Calendars.WindowEnd | src/com/navroopsingh/Calendar.java:53 | the window's end, now plus one year, lies after now |
| Calendars.InWindow | src/com/navroopsingh/Calendar.java:53-56 | a date-time passes the guard exactly when now ≤ t ≤ now + 1 year |
| Calendars.IsValidCalendarDate | src/com/navroopsingh/Calendar.java:202-212 | passes exactly inside the closed window; otherwise fails with the out-of-window error |
| Calendars.ParseFrequency | src/com/navroopsingh/Calendar.java:91-105 | exactly the four strings "daily", "weekly", "monthly" and "yearly" select a step |
| Calendars.Step | src/com/navroopsingh/Calendar.java:91-103 | each step moves strictly later and keeps the time of day |
| Calendars.Occurrences | src/com/navroopsingh/Calendar.java:84-107 | the occurrences start with the first date-time |
| Calendars.OccurrencesCons | src/com/navroopsingh/Calendar.java:84-107 | the do/while puts t0 and repeats from the next step only while that step is before the end |
| Calendars.OccurrencesStep | src/com/navroopsingh/Calendar.java:91-103 | each occurrence is the previous one advanced by one step |
| Calendars.OccurrencesBeforeEnd | src/com/navroopsingh/Calendar.java:107 | every occurrence after the first is strictly before now + 1 year |
| Calendars.OccurrencesLast | src/com/navroopsingh/Calendar.java:107 | the loop stops because the step after the last occurrence is not before the end |
| Calendars.OccurrencesIncreasing | src/com/navroopsingh/Calendar.java:84-107 | the occurrences are strictly increasing |
| Calendars.DailyCount | src/com/navroopsingh/Calendar.java:93-107 | a daily recurrence has n occurrences when day n - 1 is before the end and day n is not |
| Calendars.RecurringDates | src/com/navroopsingh/Calendar.java:84-107 | the loop puts the first date-time, and with an unknown frequency only that one |
| Calendars.RecurringDatesDistinct | src/com/navroopsingh/Calendar.java:84-107 | the put date-times are increasing, hence distinct |
| Calendars.PutEachSlot | src/com/navroopsingh/Calendar.java:89 | a series of `put`s keeps the ordered index ascending |
| Calendars.PutEachAt | src/com/navroopsingh/Calendar.java:87 | after the loop, each occurrence's key maps to the event made for it |
| Calendars.PutEachKeeps | src/com/navroopsingh/Calendar.java:87 | keys of other titles or other times keep their events |
| Calendars.PutEachKeys | src/com/navroopsingh/Calendar.java:87 | the loop adds keys only for the title at the occurrences |
| Calendars.PutEachSlotAt | src/com/navroopsingh/Calendar.java:89 | after the loop, each occurrence's slot holds the event made for it |
| Calendars.PutEachSlotKeeps | src/com/navroopsingh/Calendar.java:89 | slots at other date-times keep their events |
| Calendars.PutEachSlotKeys | src/com/navroopsingh/Calendar.java:89 | the loop adds slots only at the occurrences |
| Calendars.PutEachSlotLength | src/com/navroopsingh/Calendar.java:89 | on free date-times the ordered index grows by one slot per occurrence |
| Calendars.PutEachSize | src/com/navroopsingh/Calendar.java:87 | starting empty, the hash index gets one key per occurrence |
| Calendars.Rendered | src/com/navroopsingh/Calendar.java:188-190 | one rendered line per event |
| Calendars.Joined | src/com/navroopsingh/Calendar.java:186-191 | the StringBuilder's content: each line followed by "\n"; LineInJoined states where each line sits |
| Calendars.Lines | src/com/navroopsingh/Calendar.java:186-191 | the body of the listing, the joined lines of the events; LinesSnoc states how each pass extends it |
| Calendars.RenderedAt | src/com/navroopsingh/Calendar.java:189 | line i is event i's `toString` |
| Calendars.LinesSnoc | src/com/navroopsingh/Calendar.java:188-190 | each loop pass appends the event's line and "\n" |
| Calendars.LineInJoined | src/com/navroopsingh/Calendar.java:188-190 | every line occurs in the joined text, followed by "\n" |
| Calendars.LineInListing | src/com/navroopsingh/Calendar.java:188-190 | every event's line occurs in the body of the listing, followed by "\n" |
| Calendars.ListingShowsEvent | src/com/navroopsingh/Calendar.java:185-192 | the listing contains each listed event's formatted date-time, title and notes |
| Calendars.Calendar.constructor | src/com/navroopsingh/Calendar.java:38-41 | a new calendar has two empty indices and satisfies the invariant |
| Calendars.Calendar.Valid | src/com/navroopsingh/Calendar.java:58-62 | the invariants every operation keeps: the ordered index is ascending, the event under (title, t) has that title and time, and the slot at t holds an event with time t |
| Calendars.Calendar.Store | src/com/navroopsingh/Calendar.java:58-62 | puts one fresh event with the given fields under its key in the hash index and at its date-time in the ordered index, and keeps the invariants |
| Calendars.Calendar.StoreNext | src/com/navroopsingh/Calendar.java:85-89 | one pass's two puts extend the bulk puts of the earlier passes by one more date-time and event |
| Calendars.Calendar.AddEvent | src/com/navroopsingh/Calendar.java:46-63 | outside the window, fails and changes nothing; inside, puts one fresh event with the three given fields under its key and at its date-time, replacing whatever held either |
| Calendars.Calendar.AddRecurringEvent | src/com/navroopsingh/Calendar.java:73-109 | only the first date-time is checked against the window; then one fresh event per occurrence is put into both indices; an unknown frequency fails only after the first put |
| Calendars.Calendar.AddInWindow | src/com/navroopsingh/Calendar.java:84-107 | the do/while puts the first occurrence before the frequency can fail, then every later occurrence |
| Calendars.Calendar.StoreOccurrences | src/com/navroopsingh/Calendar.java:84-107 | the loop passes after the first put each later occurrence into both indices, and the loop terminates |
| Calendars.Calendar.RemoveEvent | src/com/navroopsingh/Calendar.java:114-124 | a present key returns its event and is removed, and the slot at the date-time is cleared whatever event it holds; an absent key returns null and changes nothing |
| Calendars.Calendar.FindEvent | src/com/navroopsingh/Calendar.java:130-137 | returns the event under the key exactly when the key is present, otherwise null |
| Calendars.Calendar.UpdateEventTitle | src/com/navroopsingh/Calendar.java:139-152 | an absent key fails with no change; otherwise the same event, now retitled, moves to the new key, and the ordered index is untouched |
| Calendars.Calendar.UpdateEventDateTime | src/com/navroopsingh/Calendar.java:154-169 | an absent key, or a new time outside the window, fails with no change to either index or to the event; otherwise the same event gets the new time, its key moves, and its slot moves from the old time to the new one |
| Calendars.Calendar.UpdateEventNotes | src/com/navroopsingh/Calendar.java:171-179 | an absent key fails; otherwise only the event's notes change, and neither index changes |
| Calendars.Calendar.ToString | src/com/navroopsingh/Calendar.java:184-192 | the listing is "Upcoming events: \n" followed by each event's line and "\n", in index order |
| Calendars.ListedInOrder | src/com/navroopsingh/Calendar.java:184-192 | the listed events have strictly ascending date-times |
| Calendars.TreeEntryTime | src/com/navroopsingh/Calendar.java:58-62 | the slot at t holds an event whose time is t |
| CalendarScenarios.TestYear | src/com/navroopsingh/tests/CalendarTest.java:37-43 | 365 days after 29 November 2015 is 28 November 2016 |
| CalendarScenarios.TestDailyCount | src/com/navroopsingh/tests/CalendarTest.java:37-43 | with now at 10:00 on 29 November 2015, a daily event from 11:00 that day gets 366 occurrences |
| CalendarScenarios.LeapYear | src/com/navroopsingh/Calendar.java:93 | 364 days after 29 February 2016 is 27 February 2017 |
| CalendarScenarios.LeapDayDailyCount | src/com/navroopsingh/Calendar.java:79-107 | with now on 29 February 2016, the window ends on 28 February 2017 and a daily event from now gets 365 occurrences |
| CalendarScenarios.Thanksgiving | src/com/navroopsingh/tests/CalendarTest.java:47-48 | adding "Thanksgiving 2016" to a new calendar leaves exactly that one event in both indices |
| CalendarScenarios.ListingOfOne | src/com/navroopsingh/tests/CalendarTest.java:50 | the listing of a one-event calendar shows the event's date-time, title and notes, and holds no other characters than those and the fixed ones |
| CalendarScenarios.OneEventListing | src/com/navroopsingh/Calendar.java:185-192 | the same facts about the listing text of a one-slot index |
| CalendarScenarios.OldNotesGone | src/com/navroopsingh/tests/CalendarTest.java:75 | once the notes are replaced, the listing cannot contain the old notes: it has no 'G' |
| CalendarScenarios.ShowsFourPm | src/com/navroopsingh/tests/CalendarTest.java:62 | a listing with the rescheduled event contains "11/26/2016 @ 4:00PM" |
| CalendarScenarios.AddEventScenario | src/com/navroopsingh/tests/CalendarTest.java:24-30 | after one add each index has one entry, and the event is found with its notes (asserted in the body) |
| CalendarScenarios.AddInvalidEventScenario | src/com/navroopsingh/tests/CalendarTest.java:32-36 | a date-time in November 2017 fails with the out-of-window error and both indices stay empty (asserted in the body) |
| CalendarScenarios.AddRecurringEventScenario | src/com/navroopsingh/tests/CalendarTest.java:37-43 | the daily recurrence fills 366 entries in each index (asserted in the body) |
| CalendarScenarios.UpdateEventTitleScenario | src/com/navroopsingh/tests/CalendarTest.java:45-53 | after the retitle the listing contains "Turkey Day 2016", the new key is present and the old one absent (asserted in the body) |
| CalendarScenarios.UpdateEventDateTimeScenario | src/com/navroopsingh/tests/CalendarTest.java:55-67 | after the reschedule the listing contains "11/26/2016 @ 4:00PM", and both indices hold the event under the new time only (asserted in the body) |
| CalendarScenarios.UpdateEventNotesScenario | src/com/navroopsingh/tests/CalendarTest.java:69-76 | after the notes change the listing contains the new notes and not the old ones (asserted in the body) |
| CalendarScenarios.InvalidFrequencyScenario | src/com/navroopsingh/Calendar.java:84-105 | an unknown frequency fails, yet the first occurrence stays in both indices (asserted in the body) |
| CalendarScenarios.CollisionScenario | src/com/navroopsingh/Calendar.java:58-62 | two titles at one time both stay in the hash index while the ordered index keeps the later event; removing the earlier one then clears the shared slot (asserted in the body) |

## Left out

- Wall clock and time zones: both `addEvent` overloads read now in America/Los_Angeles, and `isValidCalendarDate` reads it in the system default zone. Every operation takes `now` as a parameter instead.
- Seconds and nanoseconds: date-times have minute precision. Event times come from the front end in whole minutes, but the clock reading `now` carries seconds and nanoseconds in Java, and the window tests compare against it. The model takes `now` on a whole minute too, so the edges of the window are modelled only for such a clock. For example, with a clock at 10:00:30 Java rejects 10:00 that day and also 10:01 a year later, and no minute-precision `now` rejects both.
- The command-line front end: the input loop, prompts, parsing and dispatch are interactive I/O.
- The debug output of `addEvent` (Calendar.java lines 49-50).
- `extractEventTitleFromKey`: it is private and never called.
- Thread safety: there is no concurrency in the store.
- `LocalDateTime.toString` inside the key: the key is the pair (title, date-time). The ISO rendering contains no ';', so string equality equals pair equality.
- Locales: only the English AM/PM rendering of the pattern is modelled.
- Events.RenderLine: a title's length is its number of Unicode code points, where Java's `length()` counts UTF-16 units. A title with characters outside the Basic Multilingual Plane therefore gets more padding in the model than in Java, and a title of 11 to 20 such characters renders in the model where Java throws on the negative padding count.
- Events.Event.ToString: it is a function, and it requires a title of at most 20 characters. For longer titles Java throws because the padding count is negative.
- Calendars.Calendar.ToString: it requires every listed title to fit the 20-character column, for the same reason.
- Calendars.Calendar.AddRecurringEvent: the do/while is a first pass followed by a `while` loop, and the frequency string is decided once before the loop rather than on every pass. The outcome is the same, because the string does not change.
- Calendars.Calendar.AddRecurringEvent: the events it creates are returned as a ghost sequence, so its contract can name them.
- The stale event test elsewhere in the repository builds an event from a string date-time, through a constructor that does not exist. The event test in tests/ builds "Thanksgiving 2016" but expects "Thanksgiving". The model checks that test's expected line for the title "Thanksgiving".
- The 366-event recurring test depends on the real date and on the gap between UTC−7 and Los Angeles time. It is stated only for one fixed clock (`TestDailyCount`), next to the leap-day case that yields 365 (`LeapDayDailyCount`).
