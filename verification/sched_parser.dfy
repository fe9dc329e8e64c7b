/** Interpretation of the rows of the schedule sheet (`SchedParser`): which rows are sessions,
    and how a session row becomes a `Session`. The sheet fetch itself is not modelled: the
    pipeline starts from the rows it returned. */
module SchedParser {
  import opened Outcomes
  import opened Text
  import opened Calendar
  import opened Timestamps
  import opened Rows
  import opened Sessions

  const TitleIndex: nat := 0
  const StartTimeIndex: nat := 2
  const EndTimeIndex: nat := 3
  const SpeakersIndex: nat := 8
  const RoomIndex: nat := 13
  const SessionRowSize: nat := 14
  const SpeakersSeparator: string := "; "

  /** `isSessionRow`: a row is a session exactly when it has 14 cells; nothing else is checked. */
  predicate IsSessionRow(row: Row) {
    Size(row) == SessionRowSize
  }

  /** One speaker name: lower-cased, then every word capitalised. */
  function SpeakerName(token: string): string {
    Capitalize(Lower(token))
  }

  lemma WhitespaceIgnoresCase(c: char)
    ensures IsWhitespace(ToLower(c)) == IsWhitespace(c)
  {
  }

  /** A speaker name keeps the token's length; the first letter of each word is upper case and
      every other letter lower case. */
  lemma SpeakerNameSpec(token: string)
    ensures |SpeakerName(token)| == |token|
    ensures forall i :: 0 <= i < |token| ==>
              SpeakerName(token)[i] == if StartsWord(token, i) then ToTitle(ToLower(token[i])) else ToLower(token[i])
  {
    var lowered := Lower(token);
    CapitalizeSpec(lowered);
    forall i | 0 <= i < |token|
      ensures StartsWord(lowered, i) == StartsWord(token, i)
    {
      WhitespaceIgnoresCase(token[i]);
      if i > 0 {
        WhitespaceIgnoresCase(token[i - 1]);
      }
    }
  }

  /** Normalising a name twice changes nothing more. */
  lemma SpeakerNameIdempotent(token: string)
    ensures SpeakerName(SpeakerName(token)) == SpeakerName(token)
  {
    var once := SpeakerName(token);
    SpeakerNameSpec(token);
    SpeakerNameSpec(once);
    forall i | 0 <= i < |token|
      ensures StartsWord(once, i) == StartsWord(token, i)
    {
      WhitespaceIgnoresCase(token[i]);
      if i > 0 {
        WhitespaceIgnoresCase(token[i - 1]);
      }
    }
  }

  /** A name differs from its token only in letter case. */
  lemma SpeakerNameKeepsLetters(token: string)
    ensures Lower(SpeakerName(token)) == Lower(token)
  {
    SpeakerNameSpec(token);
  }

  /** `mapToSpeakers`: no speaker for a null cell; otherwise the pieces of the cell split on
      `"; "`, in order, each normalised with `SpeakerName`. */
  function MapToSpeakers(row: Row): (r: seq<string>)
    requires SpeakersIndex < Size(row)
    ensures row.cells[SpeakersIndex].None? ==> r == []
    ensures row.cells[SpeakersIndex].Some? ==>
              var pieces := Split(row.cells[SpeakersIndex].value, SpeakersSeparator);
              |r| == |pieces| && forall k :: 0 <= k < |r| ==> r[k] == SpeakerName(pieces[k])
  {
    match GetAsString(row, SpeakersIndex)
    case None => []
    case Some(text) =>
      var pieces := Split(text, SpeakersSeparator);
      seq(|pieces|, k requires 0 <= k < |pieces| => SpeakerName(pieces[k]))
  }

  /** Joining the speakers back with the separator gives the cell text up to letter case, when
      the cell does not end with a space. */
  lemma SpeakersRecoverCell(row: Row)
    requires SpeakersIndex < Size(row)
    requires row.cells[SpeakersIndex].Some?
    requires var text := row.cells[SpeakersIndex].value; |text| == 0 || text[|text| - 1] != ' '
    ensures Lower(Join(MapToSpeakers(row), SpeakersSeparator)) == Lower(row.cells[SpeakersIndex].value)
  {
    var text := row.cells[SpeakersIndex].value;
    var pieces := Split(text, SpeakersSeparator);
    var names := MapToSpeakers(row);
    JoinSplit(text, SpeakersSeparator);
    LowerJoin(names, SpeakersSeparator);
    LowerJoin(pieces, SpeakersSeparator);
    forall k | 0 <= k < |pieces|
      ensures Lower(names[k]) == Lower(pieces[k])
    {
      SpeakerNameKeepsLetters(pieces[k]);
    }
    assert seq(|names|, k requires 0 <= k < |names| => Lower(names[k]))
        == seq(|pieces|, k requires 0 <= k < |pieces| => Lower(pieces[k]));
  }

  /** A speakers cell holding two names separated by `"; "` yields exactly those two names,
      each normalised. */
  lemma TwoSpeakers(row: Row, first: string, second: string)
    requires SpeakersIndex < Size(row)
    requires row.cells[SpeakersIndex] == Some(first + SpeakersSeparator + second)
    requires |second| > 0
    requires forall i :: 0 <= i < |first| ==> first[i] != ';'
    requires forall i :: 0 <= i < |second| ==> second[i] != ';'
    ensures MapToSpeakers(row) == [SpeakerName(first), SpeakerName(second)]
  {
    SplitPair(first, second, SpeakersSeparator);
  }

  /** `mapToSession`: the builder fed with cells 0 (title), 8 (speakers), 13 (room), 2 (start)
      and 3 (end); reading the start, then the end, may fail to parse. */
  function MapToSession(row: Row): (r: Result<Session>)
    requires SessionRowSize <= Size(row)
    ensures r.Err? ==> r.failure.NullPointer? || r.failure.DateTimeParse?
  {
    var start :- GetAsLocalDateTime(row, StartTimeIndex);
    var end :- GetAsLocalDateTime(row, EndTimeIndex);
    EmptyBuilder
      .Title(GetAsString(row, TitleIndex))
      .Speakers(Some(MapToSpeakers(row)))
      .Room(GetAsString(row, RoomIndex))
      .Start(start)
      .End(end)
      .Build()
  }

  /** A session row maps title from cell 0, start from cell 2, end from cell 3, speakers from
      cell 8 and room from cell 13. An unparseable start (checked first) or end timestamp is a
      parse failure naming the cell text; otherwise a null title, start, end or room cell is a
      null failure. */
  lemma MapToSessionSpec(row: Row)
    requires SessionRowSize <= Size(row)
    ensures var r := MapToSession(row);
            && (row.cells[StartTimeIndex].Some? && ParseStamp(row.cells[StartTimeIndex].value).None? ==>
                  r == Err(DateTimeParse(row.cells[StartTimeIndex].value)))
            && (GetAsLocalDateTime(row, StartTimeIndex).Ok? &&
                row.cells[EndTimeIndex].Some? && ParseStamp(row.cells[EndTimeIndex].value).None? ==>
                  r == Err(DateTimeParse(row.cells[EndTimeIndex].value)))
            && (GetAsLocalDateTime(row, StartTimeIndex).Ok? && GetAsLocalDateTime(row, EndTimeIndex).Ok? &&
                (row.cells[TitleIndex].None? || row.cells[RoomIndex].None? ||
                 row.cells[StartTimeIndex].None? || row.cells[EndTimeIndex].None?) ==>
                  r == Err(NullPointer))
            && (r.Ok? <==>
                  && row.cells[TitleIndex].Some? && row.cells[RoomIndex].Some?
                  && row.cells[StartTimeIndex].Some? && ParseStamp(row.cells[StartTimeIndex].value).Some?
                  && row.cells[EndTimeIndex].Some? && ParseStamp(row.cells[EndTimeIndex].value).Some?)
            && (r.Ok? ==>
                  && r.value.title == row.cells[TitleIndex].value
                  && r.value.start == ParseStamp(row.cells[StartTimeIndex].value).value
                  && r.value.end == ParseStamp(row.cells[EndTimeIndex].value).value
                  && r.value.speakers == MapToSpeakers(row)
                  && r.value.room == row.cells[RoomIndex].value)
  {
  }

  /** The session rows, in input order (`filter(isSessionRow)`). */
  function SessionRows(rows: seq<Row>): (r: seq<Row>)
    ensures |r| <= |rows|
    ensures forall k :: 0 <= k < |r| ==> Size(r[k]) == SessionRowSize
  {
    if |rows| == 0 then []
    else (if IsSessionRow(rows[0]) then [rows[0]] else []) + SessionRows(rows[1..])
  }

  /** Filtering keeps the order of the rows it keeps: it distributes over concatenation. */
  lemma {:induction false} SessionRowsAppend(a: seq<Row>, b: seq<Row>)
    ensures SessionRows(a + b) == SessionRows(a) + SessionRows(b)
    decreases |a|
  {
    if |a| == 0 {
      assert a + b == b;
    } else {
      assert (a + b)[1..] == a[1..] + b;
      SessionRowsAppend(a[1..], b);
    }
  }

  /** A single row is kept exactly when it is a session row. */
  lemma SessionRowsSingle(row: Row)
    ensures SessionRows([row]) == if IsSessionRow(row) then [row] else []
  {
    assert [row][1..] == [];
  }

  /** Every one of the rows maps to a session. */
  predicate AllRowsMap(rows: seq<Row>)
    requires forall k :: 0 <= k < |rows| ==> SessionRowSize <= Size(rows[k])
  {
    forall k :: 0 <= k < |rows| ==> MapToSession(rows[k]).Ok?
  }

  /** The values of a sequence of outcomes in order, or the first failure among them: a stream
      mapped with a throwing function and then collected stops at the first exception. */
  function Collect<T>(results: seq<Result<T>>): (r: Result<seq<T>>)
    ensures r.Ok? <==> forall k :: 0 <= k < |results| ==> results[k].Ok?
    ensures r.Ok? ==> |r.value| == |results| && forall k :: 0 <= k < |results| ==> results[k] == Ok(r.value[k])
    ensures r.Err? ==>
              exists k :: 0 <= k < |results| && results[k] == Err(r.failure)
                           && forall j :: 0 <= j < k ==> results[j].Ok?
  {
    if |results| == 0 then Ok([])
    else
      match results[0]
      case Err(f) => Err(f)
      case Ok(first) =>
        assert forall k :: 0 <= k < |results| - 1 ==> results[1..][k] == results[k + 1];
        match Collect(results[1..])
        case Err(f) =>
          var k :| 0 <= k < |results| - 1 && results[1..][k] == Err(f)
                   && forall j :: 0 <= j < k ==> results[1..][j].Ok?;
          assert results[k + 1] == Err(f) && forall j :: 0 <= j < k + 1 ==> results[j].Ok?;
          Err(f)
        case Ok(rest) => Ok([first] + rest)
  }

  /** Maps rows of at least 14 cells in order; the first row that cannot be mapped makes the whole mapping
      fail with its failure (the Java stream throws at that row, having mapped the rows before it). */
  function MapAll(rows: seq<Row>): (r: Result<seq<Session>>)
    requires forall k :: 0 <= k < |rows| ==> SessionRowSize <= Size(rows[k])
    ensures r.Ok? <==> AllRowsMap(rows)
    ensures r.Ok? ==> |r.value| == |rows| && forall k :: 0 <= k < |rows| ==> Ok(r.value[k]) == MapToSession(rows[k])
    ensures r.Err? ==>
              exists k :: 0 <= k < |rows| && MapToSession(rows[k]) == Err(r.failure)
                           && forall j :: 0 <= j < k ==> MapToSession(rows[j]).Ok?
  {
    var results := seq(|rows|, k requires 0 <= k < |rows| => MapToSession(rows[k]));
    assert forall k :: 0 <= k < |rows| ==> results[k] == MapToSession(rows[k]);
    Collect(results)
  }

  /** `parseSessions` from the fetched rows (`filter(isSessionRow).map(mapToSession)`): rows
      that are not session rows are dropped silently; each session row, in order, becomes one
      session; the first session row that cannot be mapped makes the whole parse fail. */
  function ParseSessions(rows: seq<Row>): (r: Result<seq<Session>>)
    ensures r.Ok? <==> AllRowsMap(SessionRows(rows))
    ensures r.Ok? ==>
              && |r.value| == |SessionRows(rows)|
              && forall k :: 0 <= k < |r.value| ==> Ok(r.value[k]) == MapToSession(SessionRows(rows)[k])
    ensures r.Err? ==>
              exists k :: 0 <= k < |SessionRows(rows)| && MapToSession(SessionRows(rows)[k]) == Err(r.failure)
                           && forall j :: 0 <= j < k ==> MapToSession(SessionRows(rows)[j]).Ok?
  {
    MapAll(SessionRows(rows))
  }
}
