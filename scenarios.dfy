/** The calendar unit tests as concrete runs of the model, with the wall clock fixed
    at 10:00 on 29 November 2015 (the day the tests were written), and the day counts
    of two daily recurrences. */
module CalendarScenarios {
  import opened DateTimes
  import opened DateFormat
  import opened Events
  import opened TimeIndex
  import opened Calendars

  /** From the first of month `m`, `n` days on is the first of the next month. */
  lemma NextFirst(d: DateTime, a: nat, m: DateTime, n: nat, b: nat)
    requires PlusDays(d, a) == m && m.day == 1 && m.month < 12
    requires n == DaysInMonth(m.year, m.month) && b == a + n
    ensures PlusDays(d, b) == m.(month := m.month + 1)
  {
    PlusDaysToNextMonth(m, n);
    PlusDaysAdd(d, a, n);
    assert PlusDays(d, b) == PlusDays(m, n);
  }

  /** Two spans of days laid end to end. */
  lemma Join(d: DateTime, a: nat, m: DateTime, b: nat, e: DateTime, c: nat)
    requires PlusDays(d, a) == m && PlusDays(m, b) == e && c == a + b
    ensures PlusDays(d, c) == e
  {
    PlusDaysAdd(d, a, b);
    assert PlusDays(d, c) == PlusDays(m, b);
  }

  /** 1 March to 1 June: 31 + 30 + 31 days, in any year. */
  lemma Spring(m: DateTime)
    requires m.month == 3 && m.day == 1
    ensures PlusDays(m, 92) == m.(month := 6)
  {
    PlusDaysToNextMonth(m, 31);
    NextFirst(m, 31, m.(month := 4), 30, 61);
    NextFirst(m, 61, m.(month := 5), 31, 92);
  }

  /** 1 June to 1 September: 30 + 31 + 31 days, in any year. */
  lemma Summer(m: DateTime)
    requires m.month == 6 && m.day == 1
    ensures PlusDays(m, 92) == m.(month := 9)
  {
    PlusDaysToNextMonth(m, 30);
    NextFirst(m, 30, m.(month := 7), 31, 61);
    NextFirst(m, 61, m.(month := 8), 31, 92);
  }

  /** 1 September to 1 December: 30 + 31 + 30 days, in any year. */
  lemma Autumn(m: DateTime)
    requires m.month == 9 && m.day == 1
    ensures PlusDays(m, 91) == m.(month := 12)
  {
    PlusDaysToNextMonth(m, 30);
    NextFirst(m, 30, m.(month := 10), 31, 61);
    NextFirst(m, 61, m.(month := 11), 30, 91);
  }

  /** 29 November 2015 to 1 January 2016: 2 + 31 days. */
  lemma TestNewYear(d: DateTime)
    requires d.year == 2015 && d.month == 11 && d.day == 29
    ensures PlusDays(d, 33) == d.(year := 2016, month := 1, day := 1)
  {
    var m := d.(month := 12, day := 1);
    PlusDaysToNextMonth(d, 2);
    PlusDaysToNextMonth(m, 31);
    Join(d, 2, m, 31, m.(year := 2016, month := 1), 33);
  }

  /** 1 January to 1 March 2016: 31 + 29 days (a leap February). */
  lemma LeapJanuary(m: DateTime)
    requires m.year == 2016 && m.month == 1 && m.day == 1
    ensures PlusDays(m, 60) == m.(month := 3)
  {
    assert DaysInMonth(2016, 2) == 29;
    PlusDaysToNextMonth(m, 31);
    NextFirst(m, 31, m.(month := 2), 29, 60);
  }

  /** 29 November 2015 to 1 March 2016: 33 + 60 days. */
  lemma TestWinter(d: DateTime)
    requires d.year == 2015 && d.month == 11 && d.day == 29
    ensures PlusDays(d, 93) == d.(year := 2016, month := 3, day := 1)
  {
    var m := d.(year := 2016, month := 1, day := 1);
    TestNewYear(d);
    LeapJanuary(m);
    Join(d, 33, m, 60, m.(month := 3), 93);
  }

  /** 1 September to 28 November: 30 + 31 + 27 days, in any year. */
  lemma TestFall(m: DateTime)
    requires m.month == 9 && m.day == 1
    ensures PlusDays(m, 88) == m.(month := 11, day := 28)
  {
    PlusDaysToNextMonth(m, 30);
    NextFirst(m, 30, m.(month := 10), 31, 61);
    PlusDaysInMonth(m.(month := 11), 27);
    Join(m, 61, m.(month := 11), 27, m.(month := 11, day := 28), 88);
  }

  /** 365 days after 29 November 2015 is 28 November 2016 (the span contains
      29 February 2016). */
  lemma TestYear(d: DateTime)
    requires d.year == 2015 && d.month == 11 && d.day == 29
    ensures PlusDays(d, 365) == d.(year := 2016, day := 28)
  {
    var march := d.(year := 2016, month := 3, day := 1);
    TestWinter(d);
    Spring(march);
    Join(d, 93, march, 92, march.(month := 6), 185);
    Summer(march.(month := 6));
    Join(d, 185, march.(month := 6), 92, march.(month := 9), 277);
    TestFall(march.(month := 9));
    Join(d, 277, march.(month := 9), 88, march.(month := 11, day := 28), 365);
  }

  /** The recurring test: the test reads the clock at UTC-7, which on that day is one
      hour ahead of Los Angeles, so the first occurrence is 11:00 while "now" is 10:00.
      Daily steps stay strictly before 10:00 on 29 November 2016 for 366 occurrences. */
  lemma TestDailyCount(d: DateTime, now: DateTime)
    requires d == LocalDateTime(2015, 11, 29, 11, 0) && now == LocalDateTime(2015, 11, 29, 10, 0)
    ensures |RecurringDates(d, "daily", WindowEnd(now))| == 366
  {
    var end := WindowEnd(now);
    assert end == LocalDateTime(2016, 11, 29, 10, 0);
    TestYear(d);
    PlusDaysSnoc(d, 366);
    DailyCount(d, end, 366);
  }

  /** 1 December 2016 to 27 February 2017: 31 + 31 + 26 days. */
  lemma LeapWinter(m: DateTime)
    requires m.year == 2016 && m.month == 12 && m.day == 1
    ensures PlusDays(m, 88) == m.(year := 2017, month := 2, day := 27)
  {
    PlusDaysToNextMonth(m, 31);
    NextFirst(m, 31, m.(year := 2017, month := 1), 31, 62);
    PlusDaysInMonth(m.(year := 2017, month := 2), 26);
    Join(m, 62, m.(year := 2017, month := 2), 26, m.(year := 2017, month := 2, day := 27), 88);
  }

  /** 364 days after 29 February 2016 is 27 February 2017. */
  lemma LeapYear(d: DateTime)
    requires d.year == 2016 && d.month == 2 && d.day == 29
    ensures PlusDays(d, 364) == d.(year := 2017, day := 27)
  {
    var march := d.(month := 3, day := 1);
    PlusDaysToNextMonth(d, 1);
    Spring(march);
    Join(d, 1, march, 92, march.(month := 6), 93);
    Summer(march.(month := 6));
    Join(d, 93, march.(month := 6), 92, march.(month := 9), 185);
    Autumn(march.(month := 9));
    Join(d, 185, march.(month := 9), 91, march.(month := 12), 276);
    LeapWinter(march.(month := 12));
    Join(d, 276, march.(month := 12), 88, d.(year := 2017, day := 27), 364);
  }

  /** A daily event starting exactly at "now", some time on 29 February 2016: the window
      ends at that time on 28 February 2017 (plusYears clamps the day), so the occurrences
      are 29 February 2016 through 27 February 2017, 365 of them. */
  lemma LeapDayDailyCount(d: DateTime)
    requires d.year == 2016 && d.month == 2 && d.day == 29
    ensures WindowEnd(d) == d.(year := 2017, day := 28)
    ensures |RecurringDates(d, "daily", WindowEnd(d))| == 365
  {
    var end := WindowEnd(d);
    LeapYear(d);
    PlusDaysSnoc(d, 365);
    DailyCount(d, end, 365);
  }

  /** testAddEvent: one add fills one entry of each index, and the event is found. */
  method AddEventScenario() {
    var now: DateTime := LocalDateTime(2015, 11, 29, 10, 0);
    var t: DateTime := LocalDateTime(2016, 11, 26, 18, 0);
    var c := new Calendar();
    var r := c.AddEvent("Thanksgiving 2016", t, "Gather round and share the joy.", now);
    assert r == Pass;
    assert |c.eventsHashMap| == 1 && |c.eventsTreeMap| == 1;
    var e := c.FindEvent("Thanksgiving 2016", t);
    assert e != null && e.notes == "Gather round and share the joy.";
  }

  /** testAddInvalidEvent: a date-time past the window throws and adds nothing. */
  method AddInvalidEventScenario() {
    var now: DateTime := LocalDateTime(2015, 11, 29, 10, 0);
    var t: DateTime := LocalDateTime(2017, 11, 26, 18, 0);
    var c := new Calendar();
    var r := c.AddEvent("Thanksgiving 2017", t, "Gather round again and share the joy.", now);
    assert r == Fail(OutOfWindow);
    assert c.eventsHashMap == map[] && c.eventsTreeMap == [];
  }

  /** testAddRecurringEvent: 366 daily events, each in both indices. */
  method AddRecurringEventScenario() {
    var now: DateTime := LocalDateTime(2015, 11, 29, 10, 0);
    var t: DateTime := LocalDateTime(2015, 11, 29, 11, 0);
    var c := new Calendar();
    var r, created := c.AddRecurringEvent("Daily workout", t, "Getting in shape, one day at a time", "daily", now);
    assert r == Pass;
    ghost var dates := RecurringDates(t, "daily", WindowEnd(now));
    TestDailyCount(t, now);
    RecurringDatesDistinct(t, "daily", WindowEnd(now));
    PutEachSize("Daily workout", dates, created);
    PutEachSlotLength([], dates, created);
    assert |c.eventsHashMap| == 366 && |c.eventsTreeMap| == 366;
  }

  /** An unknown frequency throws, but only after the first occurrence is in both
      indices. */
  method InvalidFrequencyScenario() {
    var now: DateTime := LocalDateTime(2015, 11, 29, 10, 0);
    var t: DateTime := LocalDateTime(2015, 12, 24, 19, 0);
    var c := new Calendar();
    var r, created := c.AddRecurringEvent("Carols", t, "Every hour?", "hourly", now);
    assert r == Fail(InvalidRecurringType);
    assert |created| == 1 && c.eventsHashMap == map[CreateEventKey("Carols", t) := created[0]];
    assert c.eventsTreeMap == [Slot(t, created[0])];
  }

  /** Two titles at one date-time: both keys stay in the hash index, while the ordered
      index keeps only the later event. Removing the earlier one then clears the slot,
      although the slot holds the other event. */
  method CollisionScenario() {
    var now: DateTime := LocalDateTime(2015, 11, 29, 10, 0);
    var t: DateTime := LocalDateTime(2016, 11, 26, 18, 0);
    var c := new Calendar();
    var r := c.AddEvent("Dinner", t, "", now);
    var a := c.FindEvent("Dinner", t);
    r := c.AddEvent("Football", t, "", now);
    var b := c.FindEvent("Football", t);
    assert a != null && b != null && a != b;
    assert c.eventsHashMap[CreateEventKey("Dinner", t)] == a;
    assert c.eventsTreeMap == [Slot(t, b)];
    var gone := c.RemoveEvent("Dinner", t);
    assert gone == a && c.eventsTreeMap == [];
    assert CreateEventKey("Dinner", t) !in c.eventsHashMap;
    assert c.eventsHashMap[CreateEventKey("Football", t)] == b;
  }

  /** The state the update tests start from: a new calendar holding the one event
      "Thanksgiving 2016" at 18:00 on 26 November 2016 with the given notes. */
  method Thanksgiving(notes: string) returns (c: Calendar, e: Event)
    ensures fresh(c) && fresh(e) && c.Valid()
    ensures e.title == "Thanksgiving 2016" && e.dateTime == LocalDateTime(2016, 11, 26, 18, 0) && e.notes == notes
    ensures c.eventsHashMap == map[CreateEventKey("Thanksgiving 2016", LocalDateTime(2016, 11, 26, 18, 0)) := e]
    ensures c.eventsTreeMap == [Slot(LocalDateTime(2016, 11, 26, 18, 0), e)]
  {
    var now: DateTime := LocalDateTime(2015, 11, 29, 10, 0);
    var t: DateTime := LocalDateTime(2016, 11, 26, 18, 0);
    c := new Calendar();
    var r := c.AddEvent("Thanksgiving 2016", t, notes, now);
    e := c.eventsHashMap[CreateEventKey("Thanksgiving 2016", t)];
  }

  /** The listing of a calendar holding one event shows that event's date-time, title
      and notes, and holds no other characters than theirs, the header's and a line's. */
  method ListingOfOne(c: Calendar, e: Event) returns (s: string)
    requires c.eventsTreeMap == [Slot(e.dateTime, e)] && |e.title| <= TitleWidth
    ensures Contains(s, FormatDateTime(e.dateTime)) && Contains(s, e.title) && Contains(s, e.notes)
    ensures forall ch :: ch in s ==> ch in ListingHeader || ch in e.title || ch in e.notes || ch in LineAlphabet
  {
    s := c.ToString();
    OneEventListing(c.eventsTreeMap, e);
  }

  lemma OneEventListing(tree: seq<Slot>, e: Event)
    requires tree == [Slot(e.dateTime, e)] && |e.title| <= TitleWidth
    ensures var s := ListingHeader + Lines(Values(tree));
      Contains(s, FormatDateTime(e.dateTime)) && Contains(s, e.title) && Contains(s, e.notes)
    ensures forall ch :: ch in ListingHeader + Lines(Values(tree)) ==>
      ch in ListingHeader || ch in e.title || ch in e.notes || ch in LineAlphabet
  {
    var events := Values(tree);
    assert |events| == 1 && events[0] == e;
    ListingShowsEvent(events, 0);
    OneLineCharacters(events);
  }

  lemma OneLineCharacters(events: seq<Event>)
    requires |events| == 1 && |events[0].title| <= TitleWidth
    ensures var e := events[0];
      forall ch :: ch in ListingHeader + Lines(events) ==>
        ch in ListingHeader || ch in e.title || ch in e.notes || ch in LineAlphabet
  {
    var e := events[0];
    assert events[..0] == [];
    assert Rendered(events) == [e.ToString()];
    var line := e.ToString();
    assert Joined([line]) == line + "\n";
    LineCharacters(e.dateTime, e.title, e.notes);
    assert '\n' in ListingHeader;
  }

  /** No character of the notes-test listing is a capital G, which the old notes begin with. */
  lemma OldNotesGone(s: string, title: string, notes: string)
    requires forall ch :: ch in s ==> ch in ListingHeader || ch in title || ch in notes || ch in LineAlphabet
    requires title == "Thanksgiving 2016" && notes == BlackFriday
    ensures !Contains(s, "Gather round again and share the joy.")
  {
    HeaderLacksG();
    TitleLacksG();
    AlphabetLacksG();
    NotesLackG();
    assert "Gather round again and share the joy."[0] == 'G';
    Lacks(s, "Gather round again and share the joy.", 'G');
  }

  lemma HeaderLacksG() ensures 'G' !in ListingHeader {}
  lemma TitleLacksG() ensures 'G' !in "Thanksgiving 2016" {}
  lemma AlphabetLacksG() ensures 'G' !in LineAlphabet {}
  lemma NotesLackG() ensures 'G' !in BlackFriday {}

  /** The notes the notes test sets, written word by word. */
  const BlackFriday := "Black " + "Friday " + "has " + "turned " + "this " + "into " + "a " + "commercialized " + "holiday."

  /** testUpdateEventTitle: the listing shows the new title, and only the new key remains. */
  method UpdateEventTitleScenario() {
    var t: DateTime := LocalDateTime(2016, 11, 26, 18, 0);
    var c, e := Thanksgiving("Gather round again and share the joy.");
    var r := c.UpdateEventTitle("Thanksgiving 2016", t, "Turkey Day 2016");
    assert r == Pass && c.eventsTreeMap == [Slot(t, e)];
    var s := ListingOfOne(c, e);
    assert Contains(s, "Turkey Day 2016");
    assert CreateEventKey("Turkey Day 2016", t) in c.eventsHashMap;
    assert CreateEventKey("Thanksgiving 2016", t) !in c.eventsHashMap;
  }

  /** A listing that shows the date-time 16:00 on 26 November 2016 shows its text. */
  lemma ShowsFourPm(s: string)
    requires Contains(s, FormatDateTime(LocalDateTime(2016, 11, 26, 16, 0)))
    ensures Contains(s, "11/26/2016 @ 4:00PM")
  {
    FormatFourPm();
  }

  /** testUpdateEventDateTime: the listing shows the new time, and both indices hold the
      event under the new date-time only. */
  method UpdateEventDateTimeScenario() {
    var now: DateTime := LocalDateTime(2015, 11, 29, 10, 0);
    var t: DateTime := LocalDateTime(2016, 11, 26, 18, 0);
    var u: DateTime := LocalDateTime(2016, 11, 26, 16, 0);
    var c, e := Thanksgiving("Gather round again and share the joy.");
    var r := c.UpdateEventDateTime("Thanksgiving 2016", t, u, now);
    assert r == Pass && c.eventsTreeMap == [Slot(u, e)];
    assert u in c.TreeMap() && t !in c.TreeMap();
    assert CreateEventKey("Thanksgiving 2016", u) in c.eventsHashMap;
    assert CreateEventKey("Thanksgiving 2016", t) !in c.eventsHashMap;
    var s := ListingOfOne(c, e);
    ShowsFourPm(s);
  }

  /** testUpdateEventNotes: the listing shows the new notes and no longer the old ones. */
  method UpdateEventNotesScenario() {
    var t: DateTime := LocalDateTime(2016, 11, 26, 18, 0);
    var c, e := Thanksgiving("Gather round again and share the joy.");
    var r := c.UpdateEventNotes("Thanksgiving 2016", t, BlackFriday);
    assert r == Pass && c.eventsTreeMap == [Slot(t, e)];
    var s := ListingOfOne(c, e);
    assert Contains(s, BlackFriday);
    OldNotesGone(s, e.title, e.notes);
    assert !Contains(s, "Gather round again and share the joy.");
  }
}
