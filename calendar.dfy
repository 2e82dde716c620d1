/** The in-memory event store: a hash index from (title, date-time) to event and an
    ordered index from date-time to event, which the adding and removing operations
    update together, with the one-year scheduling window. */
module Calendars {
  import opened DateTimes
  import opened Events
  import opened TimeIndex
  import opened DateFormat

  /** CALENDAR_LENGTH: events may be scheduled up to this many years ahead. */
  const CalendarLength := 1

  /** The three ways an operation refuses; in the source each is an
      InputMismatchException carrying the message below. */
  datatype CalendarError = OutOfWindow | InvalidRecurringType | NoSuchEvent {
    function Message(): string {
      match this
      case OutOfWindow => "Event must be scheduled within one year from now."
      case InvalidRecurringType => "Invalid recurring type."
      case NoSuchEvent => "This event does not exist and cannot be updated."
    }
  }

  /** A void operation either returns normally or throws. */
  datatype Outcome = Pass | Fail(error: CalendarError)

  /** The identity of an event. The source's key is the string title + ";" + the ISO
      rendering of the date-time; that rendering has no ';', so two such strings are
      equal exactly when both components are, which is what this pair expresses. */
  datatype EventKey = EventKey(title: string, at: DateTime)

  /** `createEventKey(title, dateTime)`. */
  function CreateEventKey(title: string, dateTime: DateTime): (k: EventKey)
    ensures k.title == title && k.at == dateTime
  {
    EventKey(title, dateTime)
  }

  /** Two keys coincide exactly when title and date-time both do. */
  lemma CreateEventKeyInjective(a: string, t: DateTime, b: string, u: DateTime)
    ensures CreateEventKey(a, t) == CreateEventKey(b, u) <==> a == b && t == u
  {
  }

  /** `now.plusYears(CALENDAR_LENGTH)`, the last schedulable instant. */
  function WindowEnd(now: DateTime): (e: DateTime)
    ensures Before(now, e)
  {
    PlusYears(now, CalendarLength)
  }

  /** The guard of both addEvent overloads and of isValidCalendarDate, which reject
      when `now.plusYears(1).isBefore(t) || now.isAfter(t)`: the window is closed
      at both ends. */
  predicate InWindow(now: DateTime, t: DateTime)
    ensures InWindow(now, t) <==> NotAfter(now, t) && NotAfter(t, WindowEnd(now))
  {
    BeforeTotal(WindowEnd(now), t);
    BeforeTotal(t, now);
    !(Before(WindowEnd(now), t) || Before(t, now))
  }

  /** `isValidCalendarDate(t)`: true inside the window, an exception outside it. */
  function IsValidCalendarDate(now: DateTime, t: DateTime): (r: Outcome)
    ensures r == Pass <==> NotAfter(now, t) && NotAfter(t, WindowEnd(now))
    ensures r.Fail? ==> r.error == OutOfWindow
  {
    if InWindow(now, t) then Pass else Fail(OutOfWindow)
  }

  /** The recurrence frequencies the recurring addEvent knows. */
  datatype Frequency = Daily | Weekly | Monthly | Yearly

  /** The string switch of the recurring addEvent: a frequency for "daily", "weekly",
      "monthly" or "yearly" (exactly, case-sensitively), nothing for any other string. */
  function ParseFrequency(recurring: string): (f: Option<Frequency>)
    ensures f == Some(Daily) <==> recurring == "daily"
    ensures f == Some(Weekly) <==> recurring == "weekly"
    ensures f == Some(Monthly) <==> recurring == "monthly"
    ensures f == Some(Yearly) <==> recurring == "yearly"
  {
    if recurring == "daily" then Some(Daily)
    else if recurring == "weekly" then Some(Weekly)
    else if recurring == "monthly" then Some(Monthly)
    else if recurring == "yearly" then Some(Yearly)
    else None
  }

  /** The next occurrence: one day, week, month or year on, by the calendar rules of
      plusDays, plusWeeks, plusMonths and plusYears. */
  function Step(d: DateTime, f: Frequency): (r: DateTime)
    ensures Before(d, r)
    ensures r.hour == d.hour && r.minute == d.minute
  {
    match f
    case Daily => PlusDaysLater(d, 1); PlusDays(d, 1)
    case Weekly => PlusWeeks(d, 1)
    case Monthly => PlusMonths(d, 1)
    case Yearly => PlusYears(d, 1)
  }

  datatype Option<T> = None | Some(value: T)

  /** The date-times the recurrence loop visits from `d`: `d` itself unconditionally,
      then each step while the stepped value is strictly before `end`. */
  function Occurrences(d: DateTime, f: Frequency, end: DateTime): (r: seq<DateTime>)
    ensures |r| >= 1 && r[0] == d
    decreases Rank(end) - Rank(d)
  {
    var next := Step(d, f);
    if Before(next, end) then
      RankOrder(d, next);
      RankOrder(next, end);
      [d] + Occurrences(next, f, end)
    else
      [d]
  }

  /** One pass of the loop: the occurrences from `d` are `d` followed by those from
      the next step, if that is still before `end`. */
  lemma OccurrencesCons(d: DateTime, f: Frequency, end: DateTime)
    ensures Before(Step(d, f), end) ==> Occurrences(d, f, end) == [d] + Occurrences(Step(d, f), f, end)
    ensures !Before(Step(d, f), end) ==> Occurrences(d, f, end) == [d]
  {
  }

  /** The occurrences still to put once the loop has reached `d`: none at or past `end`. */
  function Remaining(d: DateTime, f: Frequency, end: DateTime): seq<DateTime> {
    if Before(d, end) then Occurrences(d, f, end) else []
  }

  /** One pass of the loop moves the first remaining occurrence to the put ones. */
  lemma OccurrencesAdvance(put: seq<DateTime>, d: DateTime, f: Frequency, end: DateTime, all: seq<DateTime>)
    requires Before(d, end) && put + Remaining(d, f, end) == all
    ensures put + [d] + Remaining(Step(d, f), f, end) == all
  {
    OccurrencesCons(d, f, end);
    if Before(Step(d, f), end) {
      AppendAssociates(put, [d], Occurrences(Step(d, f), f, end));
    } else {
      assert put + [d] + [] == put + [d];
    }
  }

  lemma AppendAssociates<T>(a: seq<T>, b: seq<T>, c: seq<T>)
    ensures a + b + c == a + (b + c)
  {
  }

  function Last(times: seq<DateTime>): DateTime
    requires times != []
  {
    times[|times| - 1]
  }

  /** Strictly increasing date-times. */
  predicate Increasing(times: seq<DateTime>) {
    forall i, j :: 0 <= i < j < |times| ==> Before(times[i], times[j])
  }

  /** Each occurrence is the step of the one before. */
  lemma {:induction false} OccurrencesStep(d: DateTime, f: Frequency, end: DateTime)
    ensures forall i :: 0 <= i < |Occurrences(d, f, end)| - 1 ==>
      Occurrences(d, f, end)[i + 1] == Step(Occurrences(d, f, end)[i], f)
    decreases Rank(end) - Rank(d)
  {
    var next := Step(d, f);
    if Before(next, end) {
      RankOrder(d, next);
      RankOrder(next, end);
      OccurrencesStep(next, f, end);
      var rest := Occurrences(next, f, end);
      var r := Occurrences(d, f, end);
      assert r == [d] + rest;
      forall i | 0 < i < |r| - 1 ensures r[i + 1] == Step(r[i], f) {
        assert r[i] == rest[i - 1] && r[i + 1] == rest[i];
        assert rest[(i - 1) + 1] == Step(rest[i - 1], f);
      }
    }
  }

  /** Every occurrence after the first is strictly before `end`. */
  lemma {:induction false} OccurrencesBeforeEnd(d: DateTime, f: Frequency, end: DateTime)
    ensures forall i :: 0 < i < |Occurrences(d, f, end)| ==> Before(Occurrences(d, f, end)[i], end)
    decreases Rank(end) - Rank(d)
  {
    var next := Step(d, f);
    if Before(next, end) {
      RankOrder(d, next);
      RankOrder(next, end);
      OccurrencesBeforeEnd(next, f, end);
      var rest := Occurrences(next, f, end);
      var r := Occurrences(d, f, end);
      assert r == [d] + rest;
      forall i | 1 < i < |r| ensures Before(r[i], end) {
        assert r[i] == rest[i - 1];
        assert Before(rest[i - 1], end);
      }
    }
  }

  /** The loop stops at the first step that is no longer before `end`. */
  lemma {:induction false} OccurrencesLast(d: DateTime, f: Frequency, end: DateTime)
    ensures !Before(Step(Last(Occurrences(d, f, end)), f), end)
    decreases Rank(end) - Rank(d)
  {
    var next := Step(d, f);
    OccurrencesCons(d, f, end);
    if Before(next, end) {
      RankOrder(d, next);
      RankOrder(next, end);
      OccurrencesLast(next, f, end);
      LastOfCons(d, Occurrences(next, f, end));
    }
  }

  lemma LastOfCons(d: DateTime, rest: seq<DateTime>)
    requires rest != []
    ensures Last([d] + rest) == Last(rest)
  {
  }

  /** An increasing sequence stays increasing with an earlier element in front. */
  lemma IncreasingCons(d: DateTime, rest: seq<DateTime>)
    requires Increasing(rest) && rest != [] && Before(d, rest[0])
    ensures Increasing([d] + rest)
  {
    var r := [d] + rest;
    forall i, j | 0 <= i < j < |r| ensures Before(r[i], r[j]) {
      assert r[j] == rest[j - 1];
      if i == 0 {
        if j > 1 {
          BeforeTransitive(d, rest[0], rest[j - 1]);
        }
      } else {
        assert r[i] == rest[i - 1];
      }
    }
  }

  /** The occurrences are strictly increasing. */
  lemma {:induction false} OccurrencesIncreasing(d: DateTime, f: Frequency, end: DateTime)
    ensures Increasing(Occurrences(d, f, end))
    decreases Rank(end) - Rank(d)
  {
    var next := Step(d, f);
    OccurrencesCons(d, f, end);
    if Before(next, end) {
      RankOrder(d, next);
      RankOrder(next, end);
      OccurrencesIncreasing(next, f, end);
      IncreasingCons(d, Occurrences(next, f, end));
    }
  }

  /** A daily recurrence from `d` has exactly `n` occurrences when the (n-1)-th day
      after `d` is still before `end` and the n-th is not. */
  lemma {:induction false} DailyCount(d: DateTime, end: DateTime, n: nat)
    requires n >= 1
    requires n == 1 || Before(PlusDays(d, n - 1), end)
    requires !Before(PlusDays(d, n), end)
    ensures |Occurrences(d, Daily, end)| == n
    decreases n
  {
    var e := PlusDays(d, 1);
    assert Step(d, Daily) == e;
    OccurrencesCons(d, Daily, end);
    if n > 1 {
      PlusDaysAdd(d, 1, n - 2);
      PlusDaysAdd(d, 1, n - 1);
      if n > 2 {
        PlusDaysLater(e, n - 2);
        BeforeTransitive(e, PlusDays(d, n - 1), end);
      }
      DailyCount(e, end, n - 1);
    }
  }

  /** What the recurring addEvent inserts: the occurrences for a known frequency, and
      only the first date-time otherwise, because the switch throws only after the
      first insertion. */
  function RecurringDates(d: DateTime, recurring: string, end: DateTime): (r: seq<DateTime>)
    ensures |r| >= 1 && r[0] == d
    ensures ParseFrequency(recurring).None? ==> r == [d]
  {
    match ParseFrequency(recurring)
    case Some(f) => Occurrences(d, f, end)
    case None => [d]
  }

  /** The inserted date-times are strictly increasing, hence pairwise distinct. */
  lemma RecurringDatesDistinct(d: DateTime, recurring: string, end: DateTime)
    ensures Increasing(RecurringDates(d, recurring, end))
    ensures Distinct(RecurringDates(d, recurring, end))
  {
    var r := RecurringDates(d, recurring, end);
    if ParseFrequency(recurring).Some? {
      OccurrencesIncreasing(d, ParseFrequency(recurring).value, end);
    }
    forall i, j | 0 <= i < j < |r| ensures r[i] != r[j] {
      BeforeTotal(r[i], r[j]);
    }
  }

  /** The hash index after putting `events[i]` under (title, times[i]) for each i in turn. */
  function PutEach(m: map<EventKey, Event>, title: string, times: seq<DateTime>, events: seq<Event>)
    : map<EventKey, Event>
    requires |times| == |events|
  {
    if times == [] then m
    else PutEach(m, title, times[..|times| - 1], events[..|events| - 1])
           [EventKey(title, times[|times| - 1]) := events[|events| - 1]]
  }

  /** The ordered index after putting `events[i]` at times[i] for each i in turn. */
  function PutEachSlot(s: seq<Slot>, times: seq<DateTime>, events: seq<Event>): (r: seq<Slot>)
    requires Ascending(s) && |times| == |events|
    ensures Ascending(r)
  {
    if times == [] then s
    else Put(PutEachSlot(s, times[..|times| - 1], events[..|events| - 1]), times[|times| - 1], events[|events| - 1])
  }

  /** One more put on top of a bulk put. */
  lemma PutEachSnoc(m: map<EventKey, Event>, title: string, times: seq<DateTime>, events: seq<Event>, t: DateTime, e: Event)
    requires |times| == |events|
    ensures PutEach(m, title, times + [t], events + [e]) == PutEach(m, title, times, events)[EventKey(title, t) := e]
  {
    assert (times + [t])[..|times|] == times && (events + [e])[..|events|] == events;
  }

  lemma PutEachSlotSnoc(s: seq<Slot>, times: seq<DateTime>, events: seq<Event>, t: DateTime, e: Event)
    requires Ascending(s) && |times| == |events|
    ensures PutEachSlot(s, times + [t], events + [e]) == Put(PutEachSlot(s, times, events), t, e)
  {
    assert (times + [t])[..|times|] == times && (events + [e])[..|events|] == events;
  }

  predicate Distinct(times: seq<DateTime>) {
    forall i, j :: 0 <= i < j < |times| ==> times[i] != times[j]
  }

  /** After the bulk put, each (title, times[i]) holds events[i] ... */
  lemma {:induction false} PutEachAt(m: map<EventKey, Event>, title: string, times: seq<DateTime>, events: seq<Event>)
    requires |times| == |events| && Distinct(times)
    ensures forall i :: 0 <= i < |times| ==>
      EventKey(title, times[i]) in PutEach(m, title, times, events) && PutEach(m, title, times, events)[EventKey(title, times[i])] == events[i]
  {
    if times != [] {
      var n := |times| - 1;
      PutEachAt(m, title, times[..n], events[..n]);
      forall i | 0 <= i < n ensures times[..n][i] == times[i] && events[..n][i] == events[i] && times[i] != times[n] {
      }
    }
  }

  /** ... every other key keeps its old event ... */
  lemma {:induction false} PutEachKeeps(m: map<EventKey, Event>, title: string, times: seq<DateTime>, events: seq<Event>)
    requires |times| == |events|
    ensures forall k :: k in m && !(k.title == title && k.at in times) ==>
      k in PutEach(m, title, times, events) && PutEach(m, title, times, events)[k] == m[k]
  {
    if times != [] {
      var n := |times| - 1;
      PutEachKeeps(m, title, times[..n], events[..n]);
      forall k | k in m && !(k.title == title && k.at in times)
        ensures k in PutEach(m, title, times, events) && PutEach(m, title, times, events)[k] == m[k]
      {
        assert !(k.title == title && k.at in times[..n]);
      }
    }
  }

  /** ... and no key other than those put appears. */
  lemma {:induction false} PutEachKeys(m: map<EventKey, Event>, title: string, times: seq<DateTime>, events: seq<Event>)
    requires |times| == |events|
    ensures forall k :: k in PutEach(m, title, times, events) ==> k in m || (k.title == title && k.at in times)
  {
    if times != [] {
      var n := |times| - 1;
      PutEachKeys(m, title, times[..n], events[..n]);
      forall k | k in PutEach(m, title, times, events) ensures k in m || (k.title == title && k.at in times) {
        if k != EventKey(title, times[n]) && k !in m {
          var i :| 0 <= i < n && times[..n][i] == k.at;
          assert times[i] == k.at;
        }
      }
    }
  }

  /** The bulk put onto the ordered index leaves each times[i] holding events[i]. */
  lemma {:induction false} PutEachSlotAt(s: seq<Slot>, times: seq<DateTime>, events: seq<Event>)
    requires Ascending(s) && |times| == |events| && Distinct(times)
    ensures forall i :: 0 <= i < |times| ==>
      times[i] in Contents(PutEachSlot(s, times, events)) && Contents(PutEachSlot(s, times, events))[times[i]] == events[i]
  {
    if times != [] {
      var n := |times| - 1;
      PutEachSlotAt(s, times[..n], events[..n]);
      var before := PutEachSlot(s, times[..n], events[..n]);
      PutContents(before, times[n], events[n]);
      var c := Contents(PutEachSlot(s, times, events));
      forall i | 0 <= i < n ensures times[i] in c && c[times[i]] == events[i] {
        assert times[..n][i] == times[i] && events[..n][i] == events[i];
        assert times[i] != times[n];
      }
    }
  }

  /** ... leaves every other date-time of the index holding its old event ... */
  lemma {:induction false} PutEachSlotKeeps(s: seq<Slot>, times: seq<DateTime>, events: seq<Event>)
    requires Ascending(s) && |times| == |events|
    ensures forall t :: t in Contents(s) && t !in times ==>
      t in Contents(PutEachSlot(s, times, events)) && Contents(PutEachSlot(s, times, events))[t] == Contents(s)[t]
  {
    if times != [] {
      var n := |times| - 1;
      PutEachSlotKeeps(s, times[..n], events[..n]);
      var before := PutEachSlot(s, times[..n], events[..n]);
      PutContents(before, times[n], events[n]);
      forall t | t in Contents(s) && t !in times
        ensures t in Contents(PutEachSlot(s, times, events)) && Contents(PutEachSlot(s, times, events))[t] == Contents(s)[t]
      {
        assert t !in times[..n] && t != times[n];
      }
    }
  }

  /** ... and adds no date-time other than those put. */
  lemma {:induction false} PutEachSlotKeys(s: seq<Slot>, times: seq<DateTime>, events: seq<Event>)
    requires Ascending(s) && |times| == |events|
    ensures forall t :: t in Contents(PutEachSlot(s, times, events)) ==> t in Contents(s) || t in times
  {
    if times != [] {
      var n := |times| - 1;
      PutEachSlotKeys(s, times[..n], events[..n]);
      var before := PutEachSlot(s, times[..n], events[..n]);
      PutContents(before, times[n], events[n]);
      forall t | t in Contents(PutEachSlot(s, times, events)) ensures t in Contents(s) || t in times {
        if t != times[n] && t in times[..n] {
          var i :| 0 <= i < n && times[..n][i] == t;
          assert times[i] == t;
        }
      }
    }
  }

  /** The bulk put of date-times new to the index adds one slot per date-time. */
  lemma {:induction false} PutEachSlotLength(s: seq<Slot>, times: seq<DateTime>, events: seq<Event>)
    requires Ascending(s) && |times| == |events| && Distinct(times)
    requires forall i :: 0 <= i < |times| ==> times[i] !in Times(s)
    ensures |PutEachSlot(s, times, events)| == |s| + |times|
  {
    if times != [] {
      var n := |times| - 1;
      PutEachSlotLength(s, times[..n], events[..n]);
      PutEachSlotKeys(s, times[..n], events[..n]);
      var before := PutEachSlot(s, times[..n], events[..n]);
      PutLength(before, times[n], events[n]);
      forall i | 0 <= i < n ensures times[..n][i] != times[n] {
      }
      assert times[n] !in Contents(before);
    }
  }

  /** The map after the bulk put onto an empty hash index has one key per date-time. */
  lemma {:induction false} PutEachSize(title: string, times: seq<DateTime>, events: seq<Event>)
    requires |times| == |events| && Distinct(times)
    ensures |PutEach(map[], title, times, events)| == |times|
  {
    if times != [] {
      var n := |times| - 1;
      PutEachSize(title, times[..n], events[..n]);
      PutEachKeys(map[], title, times[..n], events[..n]);
      forall i | 0 <= i < n ensures times[..n][i] != times[n] {
      }
      assert EventKey(title, times[n]) !in PutEach(map[], title, times[..n], events[..n]);
    }
  }

  /** The header of the listing. */
  const ListingHeader := "Upcoming events: \n"

  /** Lines of text, each followed by a newline. */
  function Joined(lines: seq<string>): string {
    if lines == [] then "" else Joined(lines[..|lines| - 1]) + lines[|lines| - 1] + "\n"
  }

  /** Every event's title fits the title column, so each can be rendered. */
  predicate Fits(events: seq<Event>)
    reads events
  {
    forall e :: e in events ==> |e.title| <= TitleWidth
  }

  lemma FitsPrefix(events: seq<Event>, n: int)
    requires Fits(events) && 0 <= n <= |events|
    ensures Fits(events[..n])
  {
    assert forall e :: e in events[..n] ==> e in events;
  }

  /** The line of each event, in order. */
  function Rendered(events: seq<Event>): (r: seq<string>)
    reads events
    requires Fits(events)
    ensures |r| == |events|
  {
    if events == [] then []
    else
      FitsPrefix(events, |events| - 1);
      Rendered(events[..|events| - 1]) + [events[|events| - 1].ToString()]
  }

  /** The i-th rendered line is the i-th event's line. */
  lemma {:induction false} RenderedAt(events: seq<Event>, i: int)
    requires Fits(events)
    requires 0 <= i < |events|
    ensures Rendered(events)[i] == events[i].ToString()
  {
    var n := |events| - 1;
    FitsPrefix(events, n);
    var init := Rendered(events[..n]);
    var last := events[n].ToString();
    assert Rendered(events) == init + [last];
    if i < n {
      RenderedAt(events[..n], i);
      assert events[..n][i] == events[i];
      assert (init + [last])[i] == init[i];
    } else {
      assert (init + [last])[n] == last;
    }
  }

  /** The body of the listing: each event's line followed by a newline, in order. */
  function Lines(events: seq<Event>): string
    reads events
    requires Fits(events)
  {
    Joined(Rendered(events))
  }

  /** Extending the listed prefix by one event appends that event's line. */
  lemma LinesSnoc(events: seq<Event>, i: int)
    requires Fits(events)
    requires 0 <= i < |events|
    ensures Lines(events[..i + 1]) == Lines(events[..i]) + events[i].ToString() + "\n"
  {
    var prefix := events[..i + 1];
    assert prefix[..i] == events[..i] && prefix[i] == events[i];
    assert Rendered(prefix) == Rendered(events[..i]) + [events[i].ToString()];
    var lines := Rendered(prefix);
    assert lines[..i] == Rendered(events[..i]);
  }

  /** Every line occurs in the joined text, followed by a newline. */
  lemma {:induction false} LineInJoined(lines: seq<string>, k: int) returns (offset: nat)
    requires 0 <= k < |lines|
    ensures offset + |lines[k]| < |Joined(lines)|
    ensures Joined(lines)[offset..offset + |lines[k]|] == lines[k]
    ensures Joined(lines)[offset + |lines[k]|] == '\n'
  {
    var n := |lines| - 1;
    var init := lines[..n];
    var front := Joined(init);
    var whole := front + lines[n] + "\n";
    assert Joined(lines) == whole;
    if k == n {
      offset := |front|;
      assert whole[offset..offset + |lines[n]|] == lines[n];
    } else {
      assert init[k] == lines[k];
      offset := LineInJoined(init, k);
      var len := |lines[k]|;
      assert whole[..|front|] == front;
      assert whole[offset..offset + len] == front[offset..offset + len];
      assert whole[offset + len] == front[offset + len];
    }
  }

  /** Every listed event's line occurs in the listing, followed by a newline. */
  lemma LineInListing(events: seq<Event>, k: int) returns (offset: nat)
    requires Fits(events)
    requires 0 <= k < |events|
    ensures offset + |events[k].ToString()| < |Lines(events)|
    ensures Lines(events)[offset..offset + |events[k].ToString()|] == events[k].ToString()
    ensures Lines(events)[offset + |events[k].ToString()|] == '\n'
  {
    RenderedAt(events, k);
    offset := LineInJoined(Rendered(events), k);
  }

  /** The listing shows the date, the title and the notes of every listed event. */
  lemma ListingShowsEvent(events: seq<Event>, k: int)
    requires Fits(events)
    requires 0 <= k < |events|
    ensures var s := ListingHeader + Lines(events);
      && Contains(s, FormatDateTime(events[k].dateTime))
      && Contains(s, events[k].title)
      && Contains(s, events[k].notes)
  {
    var e := events[k];
    var line := e.ToString();
    var body := Lines(events);
    var offset := LineInListing(events, k);
    ContainsSlice(body, offset, line);
    LineShowsFields(e.dateTime, e.title, e.notes);
    ContainsTransitive(body, line, FormatDateTime(e.dateTime));
    ContainsTransitive(body, line, e.title);
    ContainsTransitive(body, line, e.notes);
    ContainsAfter(ListingHeader, body, FormatDateTime(e.dateTime));
    ContainsAfter(ListingHeader, body, e.title);
    ContainsAfter(ListingHeader, body, e.notes);
  }

  /** `created[i]` is the event made for `times[i]`, with the given title and notes. */
  ghost predicate Made(created: seq<Event>, title: string, times: seq<DateTime>, notes: string)
    reads created
  {
    && |created| == |times|
    && forall i :: 0 <= i < |created| ==>
         created[i].title == title && created[i].dateTime == times[i] && created[i].notes == notes
  }

  lemma MadeSnoc(created: seq<Event>, title: string, times: seq<DateTime>, notes: string, e: Event, t: DateTime)
    requires Made(created, title, times, notes)
    requires e.title == title && e.dateTime == t && e.notes == notes
    ensures Made(created + [e], title, times + [t], notes)
  {
  }

  class Calendar {
    /** Key (title, date-time) to event, for single-event lookup. */
    var eventsHashMap: map<EventKey, Event>
    /** Date-time to event, in ascending order. */
    var eventsTreeMap: seq<Slot>

    ghost function Events(): set<Event>
      reads this
    {
      eventsHashMap.Values + set x | x in eventsTreeMap :: x.event
    }

    /** The invariants every operation keeps: the ordered index is ascending, the event
        under (title, t) has that title and time, and the event in slot t has time t. */
    ghost predicate Valid()
      reads this, Events()
    {
      && Ascending(eventsTreeMap)
      && (forall k :: k in eventsHashMap ==> eventsHashMap[k].title == k.title && eventsHashMap[k].dateTime == k.at)
      && (forall x :: x in eventsTreeMap ==> x.event.dateTime == x.at)
    }

    /** The ordered index as the map it stands for. */
    ghost function TreeMap(): map<DateTime, Event>
      reads this
      requires Ascending(eventsTreeMap)
    {
      Contents(eventsTreeMap)
    }

    /** The event a (title, date-time) operation acts on, if there is one. */
    ghost function Target(title: string, dateTime: DateTime): set<Event>
      reads this
    {
      var k := CreateEventKey(title, dateTime);
      if k in eventsHashMap then {eventsHashMap[k]} else {}
    }

    constructor ()
      ensures Valid()
      ensures eventsHashMap == map[] && eventsTreeMap == []
    {
      eventsHashMap := map[];
      eventsTreeMap := [];
    }

    /** The two puts every insertion makes: a fresh event under its key in the hash
        index and at its date-time in the ordered index. */
    method Store(title: string, dateTime: DateTime, notes: string) returns (event: Event)
      requires Valid()
      modifies this
      ensures Valid()
      ensures fresh(event) && event.title == title && event.dateTime == dateTime && event.notes == notes
      ensures eventsHashMap == old(eventsHashMap)[CreateEventKey(title, dateTime) := event]
      ensures eventsTreeMap == Put(old(eventsTreeMap), dateTime, event)
    {
      event := new Event(title, dateTime, notes);
      eventsHashMap := eventsHashMap[CreateEventKey(title, dateTime) := event];
      eventsTreeMap := Put(eventsTreeMap, dateTime, event);
    }

    /** Store, seen as extending a bulk put by one more date-time and event. */
    method StoreNext(title: string, t: DateTime, notes: string, ghost hash: map<EventKey, Event>,
                     ghost tree: seq<Slot>, ghost put: seq<DateTime>, ghost all: seq<Event>)
      returns (event: Event)
      requires Valid() && Ascending(tree)
      requires Made(all, title, put, notes)
      requires eventsHashMap == PutEach(hash, title, put, all)
      requires eventsTreeMap == PutEachSlot(tree, put, all)
      modifies this
      ensures Valid() && fresh(event)
      ensures Made(all + [event], title, put + [t], notes)
      ensures eventsHashMap == PutEach(hash, title, put + [t], all + [event])
      ensures eventsTreeMap == PutEachSlot(tree, put + [t], all + [event])
    {
      event := Store(title, t, notes);
      PutEachSnoc(hash, title, put, all, t, event);
      PutEachSlotSnoc(tree, put, all, t, event);
      MadeSnoc(all, title, put, notes, event, t);
    }

    /** A one-time event. Outside the window nothing changes; inside it a new event is
        put into both indices (replacing whatever held its key or its slot). */
    method AddEvent(title: string, dateTime: DateTime, notes: string, now: DateTime) returns (r: Outcome)
      requires Valid()
      modifies this
      ensures Valid()
      ensures r == (if InWindow(now, dateTime) then Pass else Fail(OutOfWindow))
      ensures r.Fail? ==> eventsHashMap == old(eventsHashMap) && eventsTreeMap == old(eventsTreeMap)
      ensures r.Pass? ==>
        var k := CreateEventKey(title, dateTime);
        && k in eventsHashMap
        && var e := eventsHashMap[k];
        && fresh(e) && e.title == title && e.dateTime == dateTime && e.notes == notes
        && eventsHashMap == old(eventsHashMap)[k := e]
        && eventsTreeMap == Put(old(eventsTreeMap), dateTime, e)
    {
      if Before(WindowEnd(now), dateTime) || Before(dateTime, now) {
        return Fail(OutOfWindow);
      }
      var event := Store(title, dateTime, notes);
      r := Pass;
    }

    /** A recurring event. Only the first date-time is checked against the window; then
        the do/while loop puts a fresh event at each occurrence. An unknown frequency is
        reported only after the first occurrence has been put. */
    method AddRecurringEvent(title: string, dateTime: DateTime, notes: string, recurring: string, now: DateTime)
      returns (r: Outcome, ghost created: seq<Event>)
      requires Valid()
      modifies this
      ensures Valid()
      ensures !InWindow(now, dateTime) ==>
        r == Fail(OutOfWindow) && eventsHashMap == old(eventsHashMap) && eventsTreeMap == old(eventsTreeMap)
      ensures InWindow(now, dateTime) ==>
        && r == (if ParseFrequency(recurring).Some? then Pass else Fail(InvalidRecurringType))
        && Made(created, title, RecurringDates(dateTime, recurring, WindowEnd(now)), notes)
        && (forall e :: e in created ==> fresh(e))
        && eventsHashMap == PutEach(old(eventsHashMap), title, RecurringDates(dateTime, recurring, WindowEnd(now)), created)
        && eventsTreeMap == PutEachSlot(old(eventsTreeMap), RecurringDates(dateTime, recurring, WindowEnd(now)), created)
    {
      var end := WindowEnd(now);
      if Before(end, dateTime) || Before(dateTime, now) {
        return Fail(OutOfWindow), [];
      }
      BeforeTotal(end, dateTime);
      r, created := AddInWindow(title, dateTime, notes, recurring, end);
    }

    /** The do/while of addEvent for a start date-time already checked to lie no later
        than `end`. The first pass puts before the switch can throw. */
    method AddInWindow(title: string, dateTime: DateTime, notes: string, recurring: string, end: DateTime)
      returns (r: Outcome, ghost created: seq<Event>)
      requires Valid() && NotAfter(dateTime, end)
      modifies this
      ensures Valid()
      ensures r == (if ParseFrequency(recurring).Some? then Pass else Fail(InvalidRecurringType))
      ensures Made(created, title, RecurringDates(dateTime, recurring, end), notes)
      ensures forall e :: e in created ==> fresh(e)
      ensures eventsHashMap == PutEach(old(eventsHashMap), title, RecurringDates(dateTime, recurring, end), created)
      ensures eventsTreeMap == PutEachSlot(old(eventsTreeMap), RecurringDates(dateTime, recurring, end), created)
    {
      var frequency := ParseFrequency(recurring);
      var first := StoreNext(title, dateTime, notes, old(eventsHashMap), old(eventsTreeMap), [], []);
      created := [first];
      assert [] + [first] == created && [] + [dateTime] == [dateTime];
      if frequency.None? {
        return Fail(InvalidRecurringType), created;
      }
      var f := frequency.value;
      assert RecurringDates(dateTime, recurring, end) == Occurrences(dateTime, f, end);
      OccurrencesCons(dateTime, f, end);
      var next := Step(dateTime, f);
      if Before(next, end) {
        RankOrder(dateTime, next);
        ghost var added := StoreOccurrences(title, next, notes, f, end, [dateTime], created, old(eventsHashMap), old(eventsTreeMap));
        created := created + added;
      }
      r := Pass;
    }

    /** The remaining passes of the do/while: puts a fresh event at `at` and at each
        later step before `end`, after the occurrences `done` already put (by events
        `created`) on top of the indices `hash` and `tree`. */
    method StoreOccurrences(title: string, at: DateTime, notes: string, f: Frequency, end: DateTime,
                            ghost done: seq<DateTime>, ghost created: seq<Event>,
                            ghost hash: map<EventKey, Event>, ghost tree: seq<Slot>)
      returns (ghost added: seq<Event>)
      requires Valid() && Ascending(tree) && Before(at, end)
      requires Made(created, title, done, notes)
      requires eventsHashMap == PutEach(hash, title, done, created)
      requires eventsTreeMap == PutEachSlot(tree, done, created)
      modifies this
      ensures Valid()
      ensures Made(created + added, title, done + Occurrences(at, f, end), notes)
      ensures forall e :: e in added ==> fresh(e)
      ensures eventsHashMap == PutEach(hash, title, done + Occurrences(at, f, end), created + added)
      ensures eventsTreeMap == PutEachSlot(tree, done + Occurrences(at, f, end), created + added)
    {
      var current := at;
      ghost var put := done;
      added := [];
      ghost var all := created;
      assert created + added == created;
      ghost var occurrences := done + Occurrences(at, f, end);
      while Before(current, end)
        invariant Valid()
        invariant put + Remaining(current, f, end) == occurrences
        invariant all == created + added
        invariant Made(all, title, put, notes)
        invariant forall e :: e in added ==> fresh(e)
        invariant eventsHashMap == PutEach(hash, title, put, all)
        invariant eventsTreeMap == PutEachSlot(tree, put, all)
        decreases Rank(end) - Rank(current)
      {
        var event := StoreNext(title, current, notes, hash, tree, put, all);
        AppendAssociates(created, added, [event]);
        OccurrencesAdvance(put, current, f, end, occurrences);
        put := put + [current];
        added := added + [event];
        all := all + [event];
        ghost var previous := current;
        current := Step(current, f);
        RankOrder(previous, current);
        RankOrder(previous, end);
      }
      assert put + [] == put;
    }

    /** Removes the event under (title, date-time) and clears the slot at that date-time,
        whichever event the slot holds; an absent key changes nothing and yields null. */
    method RemoveEvent(title: string, dateTime: DateTime) returns (r: Event?)
      requires Valid()
      modifies this
      ensures Valid()
      ensures var k := CreateEventKey(title, dateTime);
        if k in old(eventsHashMap) then
          && r == old(eventsHashMap[k])
          && eventsHashMap == old(eventsHashMap) - {k}
          && eventsTreeMap == Remove(old(eventsTreeMap), dateTime)
        else
          r == null && eventsHashMap == old(eventsHashMap) && eventsTreeMap == old(eventsTreeMap)
      ensures r != null ==> r.title == title && r.dateTime == dateTime
    {
      var key := CreateEventKey(title, dateTime);
      if key in eventsHashMap {
        var event := eventsHashMap[key];
        eventsHashMap := eventsHashMap - {key};
        eventsTreeMap := Remove(eventsTreeMap, dateTime);
        return event;
      } else {
        return null;
      }
    }

    /** The event under (title, date-time), or null. */
    method FindEvent(title: string, dateTime: DateTime) returns (r: Event?)
      requires Valid()
      ensures r != null <==> CreateEventKey(title, dateTime) in eventsHashMap
      ensures r != null ==> r == eventsHashMap[CreateEventKey(title, dateTime)]
      ensures r != null ==> r.title == title && r.dateTime == dateTime
    {
      var key := CreateEventKey(title, dateTime);
      if key in eventsHashMap {
        return eventsHashMap[key];
      } else {
        return null;
      }
    }

    /** Retitles the event under (title, date-time) and moves its hash entry to the new
        key; the ordered index is untouched. An absent key throws and changes nothing. */
    method UpdateEventTitle(title: string, dateTime: DateTime, updatedTitle: string) returns (r: Outcome)
      requires Valid()
      modifies this, Target(title, dateTime)
      ensures Valid()
      ensures eventsTreeMap == old(eventsTreeMap)
      ensures var k := CreateEventKey(title, dateTime);
        if k !in old(eventsHashMap) then
          r == Fail(NoSuchEvent) && eventsHashMap == old(eventsHashMap)
        else
          var e := old(eventsHashMap[k]);
          && r == Pass
          && e.title == updatedTitle && e.dateTime == dateTime && e.notes == old(e.notes)
          && eventsHashMap == (old(eventsHashMap) - {k})[CreateEventKey(updatedTitle, dateTime) := e]
    {
      var key := CreateEventKey(title, dateTime);
      if key !in eventsHashMap {
        return Fail(NoSuchEvent);
      }
      var event := eventsHashMap[key];
      event.UpdateEventTitle(updatedTitle);
      eventsHashMap := eventsHashMap - {key};
      eventsHashMap := eventsHashMap[CreateEventKey(updatedTitle, dateTime) := event];
      r := Pass;
    }

    /** Reschedules the event under (title, t) to u: its hash entry moves to (title, u)
        and the ordered index loses slot t and gains slot u. An absent key, or a u outside
        the window, throws and changes nothing. */
    method UpdateEventDateTime(title: string, currentDateTime: DateTime, updatedDateTime: DateTime, now: DateTime)
      returns (r: Outcome)
      requires Valid()
      modifies this, Target(title, currentDateTime)
      ensures Valid()
      ensures var k := CreateEventKey(title, currentDateTime);
        if k !in old(eventsHashMap) then
          r == Fail(NoSuchEvent) && eventsHashMap == old(eventsHashMap) && eventsTreeMap == old(eventsTreeMap)
        else if !InWindow(now, updatedDateTime) then
          && r == Fail(OutOfWindow) && eventsHashMap == old(eventsHashMap) && eventsTreeMap == old(eventsTreeMap)
          && var e := old(eventsHashMap[k]);
          && e.dateTime == currentDateTime && e.title == title && e.notes == old(e.notes)
        else
          var e := old(eventsHashMap[k]);
          && r == Pass
          && e.dateTime == updatedDateTime && e.title == title && e.notes == old(e.notes)
          && eventsHashMap == (old(eventsHashMap) - {k})[CreateEventKey(title, updatedDateTime) := e]
          && eventsTreeMap == Put(Remove(old(eventsTreeMap), currentDateTime), updatedDateTime, e)
    {
      var key := CreateEventKey(title, currentDateTime);
      if key !in eventsHashMap {
        return Fail(NoSuchEvent);
      }
      var valid := IsValidCalendarDate(now, updatedDateTime);
      if valid.Fail? {
        return valid;
      }
      var event := eventsHashMap[key];
      event.UpdateEventDateTime(updatedDateTime);
      eventsHashMap := eventsHashMap - {key};
      eventsHashMap := eventsHashMap[CreateEventKey(title, updatedDateTime) := event];
      eventsTreeMap := Remove(eventsTreeMap, currentDateTime);
      eventsTreeMap := Put(eventsTreeMap, updatedDateTime, event);
      r := Pass;
    }

    /** Replaces the notes of the event under (title, date-time); neither index changes.
        An absent key throws and changes nothing. */
    method UpdateEventNotes(title: string, dateTime: DateTime, eventNotes: string) returns (r: Outcome)
      requires Valid()
      modifies Target(title, dateTime)
      ensures Valid()
      ensures eventsHashMap == old(eventsHashMap) && eventsTreeMap == old(eventsTreeMap)
      ensures var k := CreateEventKey(title, dateTime);
        if k !in eventsHashMap then
          r == Fail(NoSuchEvent)
        else
          var e := eventsHashMap[k];
          r == Pass && e.notes == eventNotes && e.title == title && e.dateTime == dateTime
    {
      var key := CreateEventKey(title, dateTime);
      if key !in eventsHashMap {
        return Fail(NoSuchEvent);
      }
      var event := eventsHashMap[key];
      event.UpdateEventNotes(eventNotes);
      r := Pass;
    }

    /** `toString()`: the header, then one line per slot of the ordered index. */
    method ToString() returns (s: string)
      requires forall x :: x in eventsTreeMap ==> |x.event.title| <= TitleWidth
      ensures s == ListingHeader + Lines(Values(eventsTreeMap))
    {
      var events := Values(eventsTreeMap);
      assert Fits(events) by {
        forall e | e in events ensures |e.title| <= TitleWidth {
          var i :| 0 <= i < |events| && events[i] == e;
          assert eventsTreeMap[i] in eventsTreeMap;
        }
      }
      var body := "";
      var i := 0;
      assert events[..0] == [];
      while i < |events|
        invariant 0 <= i <= |events|
        invariant body == Lines(events[..i])
      {
        LinesSnoc(events, i);
        body := body + events[i].ToString() + "\n";
        i := i + 1;
      }
      assert events[..i] == events;
      s := ListingHeader + body;
    }
  }

  /** The listing shows events in strictly ascending order of their date-times. */
  lemma ListedInOrder(c: Calendar)
    requires c.Valid()
    ensures var events := Values(c.eventsTreeMap);
      forall i, j :: 0 <= i < j < |events| ==> Before(events[i].dateTime, events[j].dateTime)
  {
    var events := Values(c.eventsTreeMap);
    forall i, j | 0 <= i < j < |events| ensures Before(events[i].dateTime, events[j].dateTime) {
      assert c.eventsTreeMap[i] in c.eventsTreeMap && c.eventsTreeMap[j] in c.eventsTreeMap;
    }
  }

  /** The tree entry at t holds an event whose time is t. */
  lemma TreeEntryTime(c: Calendar, t: DateTime)
    requires c.Valid() && t in c.TreeMap()
    ensures c.TreeMap()[t].dateTime == t
  {
    var x :| x in c.eventsTreeMap && x.at == t;
    var i :| 0 <= i < |c.eventsTreeMap| && c.eventsTreeMap[i] == x;
    ContentsAt(c.eventsTreeMap, i);
  }
}
