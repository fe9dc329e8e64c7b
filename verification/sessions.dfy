/** The session model: one scheduled talk (`Session`, with its `Builder`) and the talks of one
    day of the week (`DaySessions`). */
module Sessions {
  import opened Outcomes
  import opened Calendar

  /** An immutable talk; every field is present (the Java constructor rejects `null`). No order
      between `start` and `end` is required. */
  datatype Session = Session(
    title: string,
    speakers: seq<string>,
    start: LocalDateTime,
    end: LocalDateTime,
    room: string)

  /** `new Session(title, speakers, start, end, room)`: a null argument is rejected, otherwise
      the accessors return exactly the arguments. */
  function NewSession(
    title: Option<string>,
    speakers: Option<seq<string>>,
    start: Option<LocalDateTime>,
    end: Option<LocalDateTime>,
    room: Option<string>): (r: Result<Session>)
    ensures r.Ok? <==> title.Some? && speakers.Some? && start.Some? && end.Some? && room.Some?
    ensures r.Err? ==> r.failure == NullPointer
    ensures r.Ok? ==>
              && r.value.title == title.value
              && r.value.speakers == speakers.value
              && r.value.start == start.value
              && r.value.end == end.value
              && r.value.room == room.value
  {
    if title.None? || speakers.None? || start.None? || end.None? || room.None? then Err(NullPointer)
    else Ok(Session(title.value, speakers.value, start.value, end.value, room.value))
  }

  /** `dayInTheWeek()`: the day of the week on which the session starts. */
  function DayInTheWeek(s: Session): DayOfWeek {
    DayOfWeekOf(s.start)
  }

  /** The day of the week depends on the start date only: not on the end, the start time or
      any other field. */
  lemma DayInTheWeekDependsOnStartDate(a: Session, b: Session)
    requires a.start.year == b.start.year && a.start.month == b.start.month && a.start.day == b.start.day
    ensures DayInTheWeek(a) == DayInTheWeek(b)
  {
  }

  /** A session starting on the calendar day after another falls on the next day of the week. */
  lemma DayInTheWeekOfNextDate(a: Session, b: Session)
    requires Tomorrow(a.start.year, a.start.month, a.start.day) == Date(b.start.year, b.start.month, b.start.day)
    ensures DayInTheWeek(b) == Succ(DayInTheWeek(a))
  {
    DayOfWeekTomorrow(a.start.year, a.start.month, a.start.day);
  }

  /** `Session.Builder`: every field starts unset (`null`). */
  datatype Builder = Builder(
    title: Option<string>,
    room: Option<string>,
    speakers: Option<seq<string>>,
    start: Option<LocalDateTime>,
    end: Option<LocalDateTime>)
  {
    function Title(t: Option<string>): Builder {
      this.(title := t)
    }

    function Room(r: Option<string>): Builder {
      this.(room := r)
    }

    function Speakers(s: Option<seq<string>>): Builder {
      this.(speakers := s)
    }

    function Start(s: Option<LocalDateTime>): Builder {
      this.(start := s)
    }

    function End(e: Option<LocalDateTime>): Builder {
      this.(end := e)
    }

    /** `build()`: the session made of the last value given to each setter; fails when any
        field was never set or was set to `null`. */
    function Build(): (r: Result<Session>)
      ensures r.Ok? <==> title.Some? && room.Some? && speakers.Some? && start.Some? && end.Some?
      ensures r.Ok? ==> r.value == Session(title.value, speakers.value, start.value, end.value, room.value)
    {
      NewSession(title, speakers, start, end, room)
    }
  }

  const EmptyBuilder: Builder := Builder(None, None, None, None, None)

  /** Each setter call replaces the earlier value of its own field only, so the built session
      carries the last value given to each setter, whatever the order of the calls. */
  lemma BuilderLastValueWins(b: Builder,
                             t1: Option<string>, t2: Option<string>,
                             r1: Option<string>, r2: Option<string>,
                             sp1: Option<seq<string>>, sp2: Option<seq<string>>,
                             st1: Option<LocalDateTime>, st2: Option<LocalDateTime>,
                             e1: Option<LocalDateTime>, e2: Option<LocalDateTime>)
    // A setter called twice keeps the second value.
    ensures b.Title(t1).Title(t2) == b.Title(t2)
    ensures b.Room(r1).Room(r2) == b.Room(r2)
    ensures b.Speakers(sp1).Speakers(sp2) == b.Speakers(sp2)
    ensures b.Start(st1).Start(st2) == b.Start(st2)
    ensures b.End(e1).End(e2) == b.End(e2)
    // Setters of different fields commute.
    ensures b.Title(t1).Room(r1) == b.Room(r1).Title(t1)
    ensures b.Title(t1).Speakers(sp1) == b.Speakers(sp1).Title(t1)
    ensures b.Title(t1).Start(st1) == b.Start(st1).Title(t1)
    ensures b.Title(t1).End(e1) == b.End(e1).Title(t1)
    ensures b.Room(r1).Speakers(sp1) == b.Speakers(sp1).Room(r1)
    ensures b.Room(r1).Start(st1) == b.Start(st1).Room(r1)
    ensures b.Room(r1).End(e1) == b.End(e1).Room(r1)
    ensures b.Speakers(sp1).Start(st1) == b.Start(st1).Speakers(sp1)
    ensures b.Speakers(sp1).End(e1) == b.End(e1).Speakers(sp1)
    ensures b.Start(st1).End(e1) == b.End(e1).Start(st1)
    ensures b.Title(t1).Room(r1).Speakers(sp1).Start(st1).End(e1)
         == b.End(e1).Start(st1).Speakers(sp1).Room(r1).Title(t1)
    // Building from a fresh builder gives the constructor's outcome on the values set.
    ensures EmptyBuilder.Title(t1).Speakers(sp1).Room(r1).Start(st1).End(e1).Build()
         == NewSession(t1, sp1, st1, e1, r1)
  {
  }

  /** The sessions of one day of the week, in the order given to the constructor. */
  datatype DaySessions = DaySessions(day: DayOfWeek, sessions: seq<Session>)

  /** `new DaySessions(day, sessions)`: rejects a null day or collection and keeps a copy of
      the collection's elements in their order. A value sequence cannot be changed later, so
      the copy is what the caller passed. */
  function NewDaySessions(day: Option<DayOfWeek>, sessions: Option<seq<Session>>): (r: Result<DaySessions>)
    ensures r.Ok? <==> day.Some? && sessions.Some?
    ensures r.Err? ==> r.failure == NullPointer
    ensures r.Ok? ==> r.value.day == day.value && r.value.sessions == sessions.value
  {
    if day.None? || sessions.None? then Err(NullPointer) else Ok(DaySessions(day.value, sessions.value))
  }
}
