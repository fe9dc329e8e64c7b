/** A worked schedule: the sheet row of a talk of Monday 7 January 2019 and the session it maps
    to, the day bucket of that talk and a second one, and the text that fills the first talk's
    slide. */
module Scenario {
  import opened Outcomes
  import opened Calendar
  import opened Timestamps
  import opened Text
  import opened Rows
  import opened Sessions
  import SchedParser
  import SessionsParser
  import SlidesGenerator

  const Intro: Session :=
    Session("Intro", ["John Doe", "Jane Roe"], DateTime(2019, 1, 7, 9, 0), DateTime(2019, 1, 7, 9, 45), "RoomA")

  const Keynote: Session :=
    Session("Keynote", [], DateTime(2019, 1, 7, 10, 0), DateTime(2019, 1, 7, 10, 45), "RoomB")

  /** The first talk as a row of the sheet: title, start and end stamps, lower-case speakers
      separated by `"; "` and the room, every other cell empty. */
  const IntroRow: Row :=
    Row([Some("Intro"), None, Some("1/07/2019 9:00 AM"), Some("1/07/2019 9:45 AM"),
         None, None, None, None, Some("john doe; jane roe"), None, None, None, None, Some("RoomA")])

  lemma JohnDoe()
    ensures SchedParser.SpeakerName("john doe") == "John Doe"
  {
    SchedParser.SpeakerNameSpec("john doe");
    assert StartsWord("john doe", 0) && StartsWord("john doe", 5);
  }

  lemma JaneRoe()
    ensures SchedParser.SpeakerName("jane roe") == "Jane Roe"
  {
    SchedParser.SpeakerNameSpec("jane roe");
    assert StartsWord("jane roe", 0) && StartsWord("jane roe", 5);
  }

  /** The row's speakers cell splits into two names, each capitalised word by word. */
  lemma IntroRowSpeakers()
    ensures SchedParser.MapToSpeakers(IntroRow) == ["John Doe", "Jane Roe"]
  {
    assert "john doe" + "; " + "jane roe" == "john doe; jane roe";
    SchedParser.TwoSpeakers(IntroRow, "john doe", "jane roe");
    JohnDoe();
    JaneRoe();
  }

  /** Any 14-cell row with the first talk's title and room, stamps that read as its hours and
      a speakers cell that reads as its speakers maps to it. */
  lemma MapsToIntro(row: Row, startText: string, endText: string)
    requires SchedParser.IsSessionRow(row)
    requires row.cells[SchedParser.TitleIndex] == Some(Intro.title)
    requires row.cells[SchedParser.RoomIndex] == Some(Intro.room)
    requires row.cells[SchedParser.StartTimeIndex] == Some(startText)
    requires row.cells[SchedParser.EndTimeIndex] == Some(endText)
    requires ParseStamp(startText) == Some(Intro.start)
    requires ParseStamp(endText) == Some(Intro.end)
    requires SchedParser.MapToSpeakers(row) == Intro.speakers
    ensures SchedParser.MapToSession(row) == Ok(Intro)
  {
    SchedParser.MapToSessionSpec(row);
  }

  /** The row has the session row's 14 cells, holding the first talk's title, room and stamps. */
  lemma IntroRowCells()
    ensures SchedParser.IsSessionRow(IntroRow)
    ensures IntroRow.cells[SchedParser.TitleIndex] == Some(Intro.title)
    ensures IntroRow.cells[SchedParser.RoomIndex] == Some(Intro.room)
    ensures IntroRow.cells[SchedParser.StartTimeIndex] == Some("1/07/2019 9:00 AM")
    ensures IntroRow.cells[SchedParser.EndTimeIndex] == Some("1/07/2019 9:45 AM")
  {
  }

  /** The row's stamps read as the first talk's hours. */
  lemma IntroStamps()
    ensures ParseStamp("1/07/2019 9:00 AM") == Some(Intro.start)
    ensures ParseStamp("1/07/2019 9:45 AM") == Some(Intro.end)
  {
    ParseExampleStamp();
    ParseExampleEndStamp();
  }

  /** The sheet row maps to the first talk. */
  lemma IntroRowMapsToIntro()
    ensures SchedParser.MapToSession(IntroRow) == Ok(Intro)
  {
    IntroRowCells();
    IntroStamps();
    IntroRowSpeakers();
    MapsToIntro(IntroRow, "1/07/2019 9:00 AM", "1/07/2019 9:45 AM");
  }

  /** Both talks fall on the Monday; the day's list puts the later talk first. */
  lemma ExampleBucket()
    ensures SessionsParser.Parse([Intro, Keynote]) == [DaySessions(Monday, [Keynote, Intro])]
  {
    ExampleDayIsMonday();
    assert DayInTheWeek(Intro) == Monday && DayInTheWeek(Keynote) == Monday;
    var g := SessionsParser.GroupByDay([Intro, Keynote]);
    assert [Intro, Keynote][..1] == [Intro];
    assert SessionsParser.GroupByDay([Intro]) == [DaySessions(Monday, [Intro])];
    assert SessionsParser.IndexOfDay([DaySessions(Monday, [Intro])], Monday) == 0;
    assert g == SessionsParser.AddToGroup(SessionsParser.GroupByDay([Intro]), Keynote);
    assert [Intro] + [Keynote] == [Intro, Keynote];
    assert SessionsParser.AddToGroup([DaySessions(Monday, [Intro])], Keynote) == [DaySessions(Monday, [Intro, Keynote])];
    assert SessionsParser.SessionComparator(Keynote, Intro) < 0;
    assert SessionsParser.SortSessions([Intro, Keynote]) == [Keynote, Intro];
  }

  /** The first talk's speakers and hours as they appear on its slide. */
  lemma ExampleSlideText()
    ensures SlidesGenerator.FormatSpeakers(Intro.speakers) == "John Doe & Jane Roe"
    ensures SlidesGenerator.FormatTime(Intro) == "09h00 - 09h45"
  {
  }
}
