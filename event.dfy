/** One scheduled occurrence: a mutable record of title, date-time and notes,
    with the fixed-width line the calendar listing prints for it. */
module Events {
  import opened DateTimes
  import opened DateFormat

  /** Width of the title column between the two pipes of a rendered line. */
  const TitleWidth := 20

  /** `createEmptyString(count)`: a string of `count` spaces. A negative count makes
      Java throw (no array of negative size), hence the natural-number parameter. */
  function CreateEmptyString(count: nat): (s: string)
    ensures |s| == count
    ensures forall i :: 0 <= i < |s| ==> s[i] == ' '
  {
    if count == 0 then "" else CreateEmptyString(count - 1) + " "
  }

  /** The text `Event.toString` produces for the given fields. It is defined only for
      titles of at most 20 characters: longer ones make the padding count negative. */
  function RenderLine(dateTime: DateTime, title: string, notes: string): string
    requires |title| <= TitleWidth
  {
    FormatDateTime(dateTime) + " | " + title + CreateEmptyString(TitleWidth - |title|)
      + " | Notes: " + notes
  }

  /** The layout of a rendered line: the date, " | ", the title space-padded to exactly
      20 characters, " | Notes: " and the notes verbatim. */
  lemma RenderLineColumns(dateTime: DateTime, title: string, notes: string)
    requires |title| <= TitleWidth
    ensures var s := RenderLine(dateTime, title, notes); var w := |FormatDateTime(dateTime)|;
      && |s| == w + 3 + TitleWidth + 10 + |notes|
      && s[..w] == FormatDateTime(dateTime)
      && s[w..w + 3] == " | "
      && s[w + 3..w + 3 + |title|] == title
      && (forall i :: w + 3 + |title| <= i < w + 3 + TitleWidth ==> s[i] == ' ')
      && s[w + 3 + TitleWidth..w + 13 + TitleWidth] == " | Notes: "
      && s[w + 13 + TitleWidth..] == notes
  {
    var date := FormatDateTime(dateTime);
    var column := title + CreateEmptyString(TitleWidth - |title|);
    var s := RenderLine(dateTime, title, notes);
    var w := |date|;
    assert s == date + " | " + column + " | Notes: " + notes;
    assert |column| == TitleWidth;
    assert s[w + 3..w + 3 + TitleWidth] == column;
    assert column[..|title|] == title;
    assert forall i :: w + 3 + |title| <= i < w + 3 + TitleWidth ==> s[i] == column[i - w - 3];
  }

  /** `part` occurs in `s` starting at index `o`. */
  predicate OccursAt(s: string, o: int, part: string) {
    0 <= o <= |s| - |part| && s[o..o + |part|] == part
  }

  /** `s.contains(part)`. */
  predicate Contains(s: string, part: string) {
    exists o :: 0 <= o <= |s| && OccursAt(s, o, part)
  }

  /** What occurs in a piece of a text occurs in the text. */
  lemma ContainsTransitive(s: string, piece: string, part: string)
    requires Contains(s, piece) && Contains(piece, part)
    ensures Contains(s, part)
  {
    var o :| 0 <= o <= |s| && OccursAt(s, o, piece);
    var p :| 0 <= p <= |piece| && OccursAt(piece, p, part);
    forall i | 0 <= i < |part| ensures s[o + p + i] == part[i] {
      assert s[o + p + i] == s[o..o + |piece|][p + i];
      assert part[i] == piece[p..p + |part|][i];
    }
    assert s[o + p..o + p + |part|] == part;
    assert OccursAt(s, o + p, part);
  }

  /** What occurs in a text still occurs after a prefix is put in front of it. */
  lemma ContainsAfter(prefix: string, s: string, part: string)
    requires Contains(s, part)
    ensures Contains(prefix + s, part)
  {
    var o :| 0 <= o <= |s| && OccursAt(s, o, part);
    assert (prefix + s)[|prefix| + o..|prefix| + o + |part|] == s[o..o + |part|];
    assert OccursAt(prefix + s, |prefix| + o, part);
  }

  /** A slice of a text occurs in it. */
  lemma ContainsSlice(s: string, o: int, part: string)
    requires 0 <= o <= |s| - |part| && s[o..o + |part|] == part
    ensures Contains(s, part)
  {
    assert OccursAt(s, o, part);
  }

  /** A rendered line shows the date, the title and the notes of its event. */
  lemma LineShowsFields(dateTime: DateTime, title: string, notes: string)
    requires |title| <= TitleWidth
    ensures var s := RenderLine(dateTime, title, notes);
      Contains(s, FormatDateTime(dateTime)) && Contains(s, title) && Contains(s, notes)
  {
    var s := RenderLine(dateTime, title, notes);
    var w := |FormatDateTime(dateTime)|;
    RenderLineColumns(dateTime, title, notes);
    ContainsSlice(s, 0, FormatDateTime(dateTime));
    ContainsSlice(s, w + 3, title);
    var n := w + 13 + TitleWidth;
    assert s[n..n + |notes|] == s[n..] == notes;
    ContainsSlice(s, n, notes);
  }

  /** The characters a line holds besides those of its title and notes. */
  const LineAlphabet := FormatAlphabet + " |Notes:"

  /** A rendered line is made of its title's and its notes' characters and the alphabet. */
  lemma LineCharacters(dateTime: DateTime, title: string, notes: string)
    requires |title| <= TitleWidth
    ensures forall c :: c in RenderLine(dateTime, title, notes) ==> c in title || c in notes || c in LineAlphabet
  {
    FormatCharacters(dateTime);
    var pad := CreateEmptyString(TitleWidth - |title|);
    assert forall c :: c in pad ==> c == ' ';
    assert ' ' in LineAlphabet;
    assert forall c :: c in " | " + " | Notes: " ==> c in LineAlphabet;
  }

  /** A text that lacks one of the characters of `part` does not contain `part`. */
  lemma Lacks(s: string, part: string, c: char)
    requires c in part && c !in s
    ensures !Contains(s, part)
  {
    var k :| 0 <= k < |part| && part[k] == c;
    forall o | 0 <= o <= |s| - |part| ensures !OccursAt(s, o, part) {
      assert s[o..o + |part|][k] == s[o + k];
      assert s[o + k] in s;
    }
  }

  lemma EightSpaces()
    ensures CreateEmptyString(8) == "        "
  {
    var pad := CreateEmptyString(8);
    assert forall i :: 0 <= i < 8 ==> pad[i] == "        "[i];
  }

  /** The line the event test expects. */
  lemma RenderLineExample()
    ensures RenderLine(LocalDateTime(2015, 11, 26, 18, 0), "Thanksgiving", "Gather round and give your thanks.")
         == "11/26/2015 @ 6:00PM | Thanksgiving         | Notes: Gather round and give your thanks."
  {
    var d: DateTime := LocalDateTime(2015, 11, 26, 18, 0);
    var title, notes := "Thanksgiving", "Gather round and give your thanks.";
    assert RenderLine(d, title, notes)
        == FormatDateTime(d) + " | " + title + CreateEmptyString(8) + " | Notes: " + notes;
    FormatThanksgiving2015();
    EightSpaces();
    ExampleLineParts();
  }

  lemma ExampleLineParts()
    ensures "11/26/2015 @ 6:00PM" + " | " + "Thanksgiving" + "        " + " | Notes: "
          + "Gather round and give your thanks."
         == "11/26/2015 @ 6:00PM | Thanksgiving         | Notes: Gather round and give your thanks."
  {
    ExampleHead();
    ExampleColumn();
    ExampleTail();
  }

  lemma ExampleHead()
    ensures "11/26/2015 @ 6:00PM" + " | " + "Thanksgiving" == "11/26/2015 @ 6:00PM | Thanksgiving"
  {
  }

  lemma ExampleColumn()
    ensures "11/26/2015 @ 6:00PM | Thanksgiving" + "        " + " | Notes: "
         == "11/26/2015 @ 6:00PM | Thanksgiving         | Notes: "
  {
  }

  lemma ExampleTail()
    ensures "11/26/2015 @ 6:00PM | Thanksgiving         | Notes: " + "Gather round and give your thanks."
         == "11/26/2015 @ 6:00PM | Thanksgiving         | Notes: Gather round and give your thanks."
  {
  }

  class Event {
    var title: string
    var dateTime: DateTime
    var notes: string

    /** Stores the three values verbatim. */
    constructor (title: string, dateTime: DateTime, notes: string)
      ensures this.title == title && this.dateTime == dateTime && this.notes == notes
    {
      this.title := title;
      this.notes := notes;
      this.dateTime := dateTime;
    }

    method GetEventTitle() returns (r: string)
      ensures r == title
    {
      r := title;
    }

    method GetEventNotes() returns (r: string)
      ensures r == notes
    {
      r := notes;
    }

    method GetEventDateTime() returns (r: DateTime)
      ensures r == dateTime
    {
      r := dateTime;
    }

    method UpdateEventTitle(newTitle: string)
      modifies this
      ensures title == newTitle && dateTime == old(dateTime) && notes == old(notes)
    {
      title := newTitle;
    }

    method UpdateEventDateTime(newDateTime: DateTime)
      modifies this
      ensures dateTime == newDateTime && title == old(title) && notes == old(notes)
    {
      dateTime := newDateTime;
    }

    method UpdateEventNotes(newNotes: string)
      modifies this
      ensures notes == newNotes && title == old(title) && dateTime == old(dateTime)
    {
      notes := newNotes;
    }

    /** `toString()`, the line of this event in a calendar listing. */
    function ToString(): string
      reads this
      requires |title| <= TitleWidth
    {
      RenderLine(dateTime, title, notes)
    }
  }

  /** The event unit test: a fresh event answers its getters with what it was given
      and renders as the expected line. */
  method EventCreationScenario()
  {
    var e := new Event("Thanksgiving", LocalDateTime(2015, 11, 26, 18, 0), "Gather round and give your thanks.");
    var t := e.GetEventTitle();
    var n := e.GetEventNotes();
    assert t == "Thanksgiving" && n == "Gather round and give your thanks.";
    RenderLineExample();
    assert e.ToString() == "11/26/2015 @ 6:00PM | Thanksgiving         | Notes: Gather round and give your thanks.";
  }
}
