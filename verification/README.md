# snowcamp-signage: schedule to slides, modelled in Dafny

snowcamp-signage turns the conference schedule sheet into one Google Slides deck per day of the
week. This project models the pure core of that pipeline:

- **Reading a row of the sheet** (`Rows`). A row is a sequence of cells, and a cell is either
  absent (`null`) or text. A cell can be read as text, or as a date-time in the pattern
  `M/dd/yyyy h:mm a` (`Timestamps`, with the calendar arithmetic of `java.time` in `Calendar`).
- **Turning rows into sessions** (`SchedParser`, `Sessions`). A row of exactly 14 cells is a
  session row. It becomes a `Session` through the builder. The speakers cell is split on `"; "`,
  and each name is lower-cased and then capitalised word by word (`Text`).
- **Grouping sessions by day** (`SessionsParser`). Sessions are grouped by the day of the week
  they start on. Each day's list is sorted by the reversed comparator "start, then room", so the
  latest session comes first.
- **Generating one day's deck** (`SlidesGenerator`). The template deck is copied under the
  capitalised French day name. Its first slide is duplicated once per session and then deleted.
  Each duplicate then has its `{{ title }}`, `{{ room }}`, `{{ speakers }}` and `{{ hours }}`
  placeholders replaced.
- **A worked example** (`Scenario`). One sheet row of a Monday talk maps to that talk. That
  talk and a later one form a single Monday bucket, and the first talk's slide text is given.

Every call to Google Sheets, Drive or Slides is left out. The replies of those calls are
parameters of the model (`SlidesGenerator.Services`), and every reply that record can express
is covered. Java's `null` and thrown exceptions become `Option` and `Result` values (`Outcomes`).

`isSessionRow` (SchedParser.java:76-79) checks the size only. So a 14-cell row whose speakers
cell is null is kept, and its session has no speakers.

## Model

| member | source | states |
|---|---|---|
| `Rows.Size` | src/main/java/io/snowcamp/signage/gsuite/Row.java:33-35 | The size is the number of cells of the row. |
| `Rows.GetAsOptionalString` | src/main/java/io/snowcamp/signage/gsuite/Row.java:48-50 | A null cell reads as `None`; any other cell reads as its own text. |
| `Rows.GetAsString` | src/main/java/io/snowcamp/signage/gsuite/Row.java:37-39 | The result is null exactly when the cell is null; otherwise it is the cell's text. |
| `Rows.GetAsLocalDateTime` | src/main/java/io/snowcamp/signage/gsuite/Row.java:41-46 | Three outcomes. A null cell gives null. A cell that parses gives the parsed date-time. Any other text gives a parse failure carrying that text. |
| `Timestamps.ParseStamp` | src/main/java/io/snowcamp/signage/sched/SchedParser.java:38 | Specified by `Timestamps.ParseFormatStamp`, `Timestamps.ParseDateReads` and `Timestamps.ParseTimeReads`: every `M/dd/yyyy h:mm a` rendering reads back as its date-time. |
| `Timestamps.ParseFormatStamp` | src/main/java/io/snowcamp/signage/sched/SchedParser.java:38 | Round trip: for every date-time in years 1 to 9999, parsing its `M/dd/yyyy h:mm a` rendering gives back the same date-time. |
| `Timestamps.ResolveFormatted` | src/main/java/io/snowcamp/signage/sched/SchedParser.java:38 | Smart resolution of a date-time's own fields (its 12-hour clock hour plus the AM/PM flag) gives back that date-time. |
| `Timestamps.NumberReads` | src/main/java/io/snowcamp/signage/sched/SchedParser.java:38 | A numeric field with a width inside its bounds reads as the value of its digits, and reading stops at the first non-digit. |
| `Timestamps.ParseDateReads` | src/main/java/io/snowcamp/signage/sched/SchedParser.java:38 | The date part `M/dd/yyyy` reads the month, day and year from their digit runs and leaves the rest of the text. |
| `Timestamps.ParseTimeReads` | src/main/java/io/snowcamp/signage/sched/SchedParser.java:38 | The time part `h:mm a` reads the clock hour, the minute and the AM/PM marker when the marker ends the text. |
| `Timestamps.ParseExampleStamp` | src/main/java/io/snowcamp/signage/sched/SchedParser.java:38 | `1/07/2019 9:00 AM` reads as 7 January 2019 at 09:00. |
| `Timestamps.ParseExampleEndStamp` | src/main/java/io/snowcamp/signage/sched/SchedParser.java:38 | `1/07/2019 9:45 AM` reads as 7 January 2019 at 09:45. |
| `Timestamps.FormatExampleStamp` | src/main/java/io/snowcamp/signage/sched/SchedParser.java:38 | Any minute of the 9 o'clock morning hour of 7 January 2019 is written `1/07/2019 9:mm AM`: single-digit month and hour, two-digit day and minute. |
| `Timestamps.FormatHoursReadsBack` | src/main/java/io/snowcamp/signage/SlidesGenerator.java:52 | `HH'h'mm` is five characters: two digits that read back as the hour of the day, then `h`, then two digits that read back as the minute. |
| `Calendar.DayOfWeekTomorrow` | src/main/java/io/snowcamp/signage/session/Session.java:96-98 | The calendar day after any valid date falls on the next day of the week, across month and year ends. |
| `Calendar.EpochDayTomorrow` | src/main/java/io/snowcamp/signage/session/Session.java:96-98 | The day count behind the day of the week grows by exactly one from a date to the next. |
| `Calendar.ExampleDayIsMonday` | src/main/java/io/snowcamp/signage/session/Session.java:96-98 | 7 January 2019 was a Monday. |
| `Calendar.CompareToIsChronological` | src/main/java/io/snowcamp/signage/session/SessionsParser.java:49 | The sign of `LocalDateTime.compareTo` is chronological order: negative exactly when earlier, positive exactly when later, zero exactly when equal. |
| `Text.CapitalizeSpec` | src/main/java/io/snowcamp/signage/sched/SchedParser.java:96 | `WordUtils.capitalize` keeps the length. It title-cases exactly the characters that start a whitespace-delimited word and keeps all the others. |
| `Text.CapitalizeWord` | src/main/java/io/snowcamp/signage/SlidesGenerator.java:125 | A word with no whitespace is capitalised by title-casing its first character only. |
| `Text.SplitSpec` | src/main/java/io/snowcamp/signage/sched/SchedParser.java:94 | `String.split` gives the text itself when the separator does not occur. Otherwise it gives the pieces between occurrences, in order, with trailing empty pieces dropped. No piece contains the separator. |
| `Text.JoinSplit` | src/main/java/io/snowcamp/signage/sched/SchedParser.java:94 | Joining the split pieces with the separator restores the text, unless the text ends with the separator's last character. |
| `Text.SplitAllSingleIffAbsent` | src/main/java/io/snowcamp/signage/sched/SchedParser.java:94 | Splitting gives a single piece exactly when the separator does not occur. |
| `Text.LowerJoin` | src/main/java/io/snowcamp/signage/sched/SchedParser.java:96 | Lower-casing the joined text is the same as joining the lower-cased pieces with the lower-cased separator. |
| `Text.JoinPlacesParts` | src/main/java/io/snowcamp/signage/SlidesGenerator.java:163-165 | In a joined text, each part sits at its offset. Every part but the last is followed by the separator, and the last part ends the text. |
| `Text.CompareToIsLexicographic` | src/main/java/io/snowcamp/signage/session/SessionsParser.java:49 | The sign of `String.compareTo` is dictionary order: at most zero exactly when the first string comes first or the two are equal, zero exactly when they are equal, and the order is antisymmetric. |
| `Text.LexLeTotal` | src/main/java/io/snowcamp/signage/session/SessionsParser.java:49 | Any two strings are comparable in dictionary order. |
| `Text.LexLeTransitive` | src/main/java/io/snowcamp/signage/session/SessionsParser.java:49 | Dictionary order is transitive. |
| `Sessions.NewSession` | src/main/java/io/snowcamp/signage/session/Session.java:68-78 | Construction succeeds exactly when no argument is null, and then each accessor returns its argument. A null argument gives a null-pointer failure. |
| `Sessions.DayInTheWeek` | src/main/java/io/snowcamp/signage/session/Session.java:96-98 | Specified by `Sessions.DayInTheWeekDependsOnStartDate` and `Sessions.DayInTheWeekOfNextDate`: the day of the week of the start date. |
| `Sessions.DayInTheWeekDependsOnStartDate` | src/main/java/io/snowcamp/signage/session/Session.java:96-98 | The day in the week depends on the start date only. It does not depend on the start time, the end or any other field. |
| `Sessions.DayInTheWeekOfNextDate` | src/main/java/io/snowcamp/signage/session/Session.java:96-98 | A session starting on the calendar day after another's start falls on the next day of the week. |
| `Sessions.BuilderLastValueWins` | src/main/java/io/snowcamp/signage/session/Session.java:32-59 | Each of the five setters called twice keeps the second value. Each of the ten pairs of setters of different fields commutes, and so does the full reversal of all five. Building from a fresh builder gives the constructor's outcome on the values set. |
| `Sessions.NewDaySessions` | src/main/java/io/snowcamp/signage/session/DaySessions.java:28-31 | Construction succeeds exactly when neither the day nor the collection is null, and keeps both unchanged. A null argument gives a null-pointer failure. |
| `SchedParser.IsSessionRow` | src/main/java/io/snowcamp/signage/sched/SchedParser.java:76-79 | Specified by `SchedParser.SessionRowsSingle`: a row is a session row exactly when it has 14 cells, whatever the cells hold. |
| `SchedParser.SpeakerNameSpec` | src/main/java/io/snowcamp/signage/sched/SchedParser.java:96 | A speaker name keeps the token's length. The first letter of each word is title case, and every other character is lower-cased. |
| `SchedParser.SpeakerNameIdempotent` | src/main/java/io/snowcamp/signage/sched/SchedParser.java:96 | Normalising an already normalised name changes nothing. |
| `SchedParser.SpeakerNameKeepsLetters` | src/main/java/io/snowcamp/signage/sched/SchedParser.java:96 | A name differs from its token only in letter case. |
| `SchedParser.WhitespaceIgnoresCase` | src/main/java/io/snowcamp/signage/sched/SchedParser.java:96 | Lower-casing never turns a character into whitespace or out of it, so word starts survive lower-casing. |
| `SchedParser.MapToSpeakers` | src/main/java/io/snowcamp/signage/sched/SchedParser.java:92-98 | A null speakers cell gives no speakers. Otherwise there is one speaker per piece of the cell split on `"; "`, in order, each piece normalised. |
| `SchedParser.TwoSpeakers` | src/main/java/io/snowcamp/signage/sched/SchedParser.java:92-98 | A cell holding two names without `;` separated by `"; "` gives exactly those two names, normalised, in order. |
| `SchedParser.SpeakersRecoverCell` | src/main/java/io/snowcamp/signage/sched/SchedParser.java:92-98 | Inverse: joining the speakers with `"; "` gives the cell text back up to letter case, unless the cell ends with a space. |
| `SchedParser.MapToSession` | src/main/java/io/snowcamp/signage/sched/SchedParser.java:81-90 | Mapping a row fails only with a null-pointer failure or a date-time parse failure. |
| `SchedParser.MapToSessionSpec` | src/main/java/io/snowcamp/signage/sched/SchedParser.java:83-89 | A bad start text is reported as that text's parse failure. With a good start, a bad end text is reported as the end text's parse failure. When both stamps read but the title, room, start or end cell is null, the failure is a null pointer. The row maps exactly when the title and room are present and both times parse. The session then holds cell 0 as title, cell 13 as room, the parsed cells 2 and 3 as start and end, and the speakers of cell 8. |
| `SchedParser.SessionRows` | src/main/java/io/snowcamp/signage/sched/SchedParser.java:76-79 | Filtering keeps only rows of exactly 14 cells and never adds rows. |
| `SchedParser.SessionRowsSingle` | src/main/java/io/snowcamp/signage/sched/SchedParser.java:76-79 | A single row is kept exactly when it has 14 cells. |
| `SchedParser.SessionRowsAppend` | src/main/java/io/snowcamp/signage/sched/SchedParser.java:62 | Filtering distributes over concatenation, so the kept rows stay in input order. |
| `SchedParser.Collect` | src/main/java/io/snowcamp/signage/sched/SchedParser.java:63 | Collecting mapped outcomes succeeds exactly when every outcome does. The values then come in the same order. A failure is the failure of the first failing outcome, as when the stream stops at the first exception. |
| `SchedParser.MapAll` | src/main/java/io/snowcamp/signage/sched/SchedParser.java:63 | Mapping succeeds exactly when every row maps. The sessions then correspond one to one and in order to the rows. A failure is the failure of the first row that does not map. |
| `SchedParser.ParseSessions` | src/main/java/io/snowcamp/signage/sched/SchedParser.java:60-63 | Parsing succeeds exactly when every 14-cell row maps. The result is then one session per 14-cell row, in order. Otherwise the failure is that of the first 14-cell row that does not map. |
| `SessionsParser.SessionComparator` | src/main/java/io/snowcamp/signage/session/SessionsParser.java:48-50 | Specified by `SessionsParser.ComparatorOrder`: start, then room, reversed. |
| `SessionsParser.ComparatorOrder` | src/main/java/io/snowcamp/signage/session/SessionsParser.java:48-50 | The reversed comparator is at most zero exactly when the first session starts later, or at the same time in a room that sorts after or equal to the other's. It is zero exactly when start and room agree, and its sign is antisymmetric. |
| `SessionsParser.PrecedesTotal` | src/main/java/io/snowcamp/signage/session/SessionsParser.java:48-50 | Any two sessions are ordered one way or the other. |
| `SessionsParser.PrecedesTransitive` | src/main/java/io/snowcamp/signage/session/SessionsParser.java:48-50 | The order is transitive. |
| `SessionsParser.Insert` | src/main/java/io/snowcamp/signage/session/SessionsParser.java:46 | Inserting into a sorted list gives a sorted list that holds exactly the old elements and the new one. |
| `SessionsParser.SortSessions` | src/main/java/io/snowcamp/signage/session/SessionsParser.java:46 | Sorting gives a permutation of the input that is sorted latest-first under the comparator. |
| `SessionsParser.SortBucket` | src/main/java/io/snowcamp/signage/session/SessionsParser.java:45-47 | A day's bucket keeps its day, and its sessions become a sorted permutation of themselves. |
| `SessionsParser.SortBucketsKeepsDays` | src/main/java/io/snowcamp/signage/session/SessionsParser.java:41 | Sorting every bucket keeps the days distinct, keeps each day's position and keeps all the sessions. |
| `SessionsParser.OnDayCount` | src/main/java/io/snowcamp/signage/session/SessionsParser.java:40 | A session occurs among a day's sessions as often as in the whole input if it falls on that day, and never otherwise. |
| `SessionsParser.AddToGroupKeepsGroups` | src/main/java/io/snowcamp/signage/session/SessionsParser.java:40 | Invariant: one step of grouping turns the buckets of a sequence into the buckets of that sequence extended by one session. |
| `SessionsParser.GroupByDay` | src/main/java/io/snowcamp/signage/session/SessionsParser.java:40 | There are never more buckets than sessions. |
| `SessionsParser.GroupByDayGroups` | src/main/java/io/snowcamp/signage/session/SessionsParser.java:40 | Grouping gives buckets with distinct days. Each bucket is non-empty and holds exactly its day's sessions, in input order. A day has a bucket exactly when a session falls on it. Together the buckets hold the input. |
| `SessionsParser.Parse` | src/main/java/io/snowcamp/signage/session/SessionsParser.java:35-43 | There are never more day buckets than sessions. |
| `SessionsParser.ParseSpec` | src/main/java/io/snowcamp/signage/session/SessionsParser.java:35-43 | The result has one bucket per day present, with distinct days. Each bucket is non-empty, sorted and a permutation of its day's sessions. Together the buckets hold every session exactly as often as the input does. |
| `SessionsParser.SessionInItsBucket` | src/main/java/io/snowcamp/signage/session/SessionsParser.java:35-43 | Every input session lies in exactly one bucket, the one for its own day of the week. |
| `SessionsParser.ParseEmpty` | src/main/java/io/snowcamp/signage/session/SessionsParser.java:35-43 | No sessions give no buckets. |
| `SessionsParser.ParseSchedule` | src/main/java/io/snowcamp/signage/session/SessionsParser.java:37-42 | From the rows, the buckets are those of the parsed sessions exactly when parsing succeeds. Otherwise the failing row's failure is passed on unchanged. |
| `SessionsParser.ParseScheduleReadings` | src/main/java/io/snowcamp/signage/session/SessionsParser.java:37-39 | If every session row maps, reading the sessions as a throwing stream or as a `Try` gives the same buckets. Otherwise the first reading fails and the second gives no buckets at all, even for the rows that did map. |
| `SlidesGenerator.DuplicateSlidesBatch` | src/main/java/io/snowcamp/signage/SlidesGenerator.java:108-111 | The batch asks for one duplicate of the template slide per session, then deletes the template. |
| `SlidesGenerator.DuplicateSlidesBatchTargets` | src/main/java/io/snowcamp/signage/SlidesGenerator.java:148-154 | Every request of the batch targets the template slide. The batch deletes exactly once, at its end, and replaces no text. |
| `SlidesGenerator.DuplicatedObjectIds` | src/main/java/io/snowcamp/signage/SlidesGenerator.java:118-121 | There are never more new slide ids than replies. |
| `SlidesGenerator.DuplicatedObjectIdsMembers` | src/main/java/io/snowcamp/signage/SlidesGenerator.java:118-121 | An id is collected exactly when some reply reports it as a duplicated object. |
| `SlidesGenerator.DuplicatedObjectIdsAppend` | src/main/java/io/snowcamp/signage/SlidesGenerator.java:118-121 | Collecting ids distributes over concatenated replies, so ids stay in reply order. |
| `SlidesGenerator.DuplicatedObjectIdsOfEcho` | src/main/java/io/snowcamp/signage/SlidesGenerator.java:118-121 | Suppose the service answers each duplicate with a new id and the deletion with no duplicate. Then the collected ids are exactly those new ids, in order. |
| `SlidesGenerator.FormatSpeakers` | src/main/java/io/snowcamp/signage/SlidesGenerator.java:163-165 | Specified by `SlidesGenerator.FormatSpeakersPlacesNames` and `SlidesGenerator.FormatSpeakersExamples`: the speakers joined with `" & "`. |
| `SlidesGenerator.FormatSpeakersPlacesNames` | src/main/java/io/snowcamp/signage/SlidesGenerator.java:163-165 | Each speaker stands at its place in the text. Every speaker but the last is followed by `" & "`, and the last speaker ends the text. |
| `SlidesGenerator.FormatSpeakersExamples` | src/main/java/io/snowcamp/signage/SlidesGenerator.java:163-165 | No speakers give the empty text, and two speakers are joined as `A & B`. |
| `SlidesGenerator.FormatTime` | src/main/java/io/snowcamp/signage/SlidesGenerator.java:167-169 | Specified by `SlidesGenerator.FormatTimeReadsBack`: the start's and the end's hours joined with `" - "`. |
| `SlidesGenerator.FormatTimeReadsBack` | src/main/java/io/snowcamp/signage/SlidesGenerator.java:167-169 | The hours text is `HHhmm - HHhmm`. Its digits read back as the start's and the end's hour and minute. |
| `SlidesGenerator.ReplaceTextRequest` | src/main/java/io/snowcamp/signage/SlidesGenerator.java:156-161 | Specified by `SlidesGenerator.ReplaceTextRequests`: a case-sensitive replacement of one placeholder on one slide only. |
| `SlidesGenerator.ReplaceTextRequests` | src/main/java/io/snowcamp/signage/SlidesGenerator.java:98-103 | Each slide gets four case-sensitive replacements on that slide only: title, room, joined speakers and hours, in that order. |
| `SlidesGenerator.ReplaceRequests` | src/main/java/io/snowcamp/signage/SlidesGenerator.java:86-89 | Zipping stops at the shorter of slides and sessions: four requests per pair. |
| `SlidesGenerator.ReplaceRequestsAt` | src/main/java/io/snowcamp/signage/SlidesGenerator.java:86-89 | Request `j` replaces placeholder `j % 4` on slide `j / 4` with that placeholder's text for session `j / 4`. |
| `SlidesGenerator.PresentationName` | src/main/java/io/snowcamp/signage/SlidesGenerator.java:124-126 | Specified by `SlidesGenerator.PresentationNameCapitalizes` and `SlidesGenerator.PresentationNameInjective`: the capitalised French day name, distinct for each day. |
| `SlidesGenerator.PresentationNameCapitalizes` | src/main/java/io/snowcamp/signage/SlidesGenerator.java:124-126 | The deck name is the French day name with its first letter upper-cased and the rest kept. |
| `SlidesGenerator.FrenchDayNameIsLowerWord` | src/main/java/io/snowcamp/signage/SlidesGenerator.java:125 | Every French day name is a non-empty lower-case word without whitespace. |
| `SlidesGenerator.PresentationNameInjective` | src/main/java/io/snowcamp/signage/SlidesGenerator.java:124-126 | Two days get the same deck name exactly when they are the same day. |
| `SlidesGenerator.MondayDeckName` | src/main/java/io/snowcamp/signage/SlidesGenerator.java:124-126 | Monday's deck is named `Lundi`. |
| `SlidesGenerator.CopyPresentation` | src/main/java/io/snowcamp/signage/SlidesGenerator.java:128-138 | The copy's id exactly when the copy succeeded. A failed copy is swallowed and gives no id. |
| `SlidesGenerator.TemplateSlideId` | src/main/java/io/snowcamp/signage/SlidesGenerator.java:140-146 | The first slide's id exactly when the deck has slides. Otherwise it is an illegal-state failure naming the presentation id. |
| `SlidesGenerator.Generate` | src/main/java/io/snowcamp/signage/SlidesGenerator.java:73-81 | A run succeeds exactly when the deck has slides and both batch updates succeed. A failed `get` passes its failure on, an empty deck fails with the no-slide failure naming the copy's id, and a failed batch passes its failure on. On success the template is copied under the day's deck name. The `get` and both batches target the copy's id, which is present exactly when the copy succeeded. The first batch duplicates the first slide once per session and deletes it. The second batch fills the new slides from the sessions, four replacements per pair. |
| `SlidesGenerator.GenerateSlides` | src/main/java/io/snowcamp/signage/SlidesGenerator.java:66-71 | A null template id or day is rejected with a null-pointer failure. Otherwise the outcome is that of the run. |
| `SlidesGenerator.ReplaceBatchFillsSlides` | src/main/java/io/snowcamp/signage/SlidesGenerator.java:77-89 | On success the second batch has four requests for each new slide paired with a session. Request `j` replaces placeholder `j % 4` on new slide `j / 4` with that placeholder's text for session `j / 4`. |
| `SlidesGenerator.EverySessionGetsItsSlide` | src/main/java/io/snowcamp/signage/SlidesGenerator.java:73-96 | When every duplicate yields a new slide, each session of the day gets its own slide, with all four placeholders filled from that session. |
| `Scenario.IntroRowMapsToIntro` | src/main/java/io/snowcamp/signage/sched/SchedParser.java:81-98 | A 14-cell sheet row with title `Intro`, stamps `1/07/2019 9:00 AM` and `1/07/2019 9:45 AM`, speakers `john doe; jane roe` and room `RoomA` maps to the talk "Intro" by John Doe and Jane Roe, 09:00 to 09:45 in RoomA. |
| `Scenario.ExampleBucket` | src/main/java/io/snowcamp/signage/session/SessionsParser.java:35-43 | Two Monday talks of the schedule example form a single Monday bucket, with the later talk first. |
| `Scenario.ExampleSlideText` | src/main/java/io/snowcamp/signage/SlidesGenerator.java:163-169 | The example talk's slide reads `John Doe & Jane Roe` and `09h00 - 09h45`. |

## Left out

- Fetching the sheet (`Sessions!B9:O` through the Sheets API) is not modelled. Neither is the
  `IOException` fallback to an empty stream, which is I/O. The fetched rows are the model's input.
- The Drive copy, the Slides `get` and the two batch updates are external calls. Their replies
  are parameters (`SlidesGenerator.Services`). What the service does with a missing copy id is
  the service's behaviour and is not modelled.
- Application wiring, credentials and the command line are not modelled, because they are I/O
  and configuration.
- A `null` row list and a `null` formatter are not modelled. Value sequences cannot be null,
  and the formatter is a constant here.
- The defensive `List.copyOf` in `DaySessions` is not modelled, because value sequences cannot
  be changed after the fact.
- The builder's `build()` has no row of its own. Its outcome is stated through
  `Sessions.BuilderLastValueWins` and `Sessions.NewSession`.
- A duplicate reply whose object id is `null` is not modelled. Replies carry an id or no
  duplicate at all.
- A Drive copy that succeeds but returns a `null` id (`getId()` at SlidesGenerator.java:132) is not
  modelled. The copy reply is an id or a failure, and only a failed copy gives no id.
- `SlidesGenerator.GenerateSlides`: in Java a null argument throws before the `Try` is built.
  The model returns a null-pointer failure instead.
- `Text.CapitalizeSpec`: case mapping covers ASCII letters only. Java's full Unicode case
  tables, title case of digraphs and locale rules are not modelled.
- `SchedParser.SpeakerNameSpec`: lower-casing covers ASCII letters only, as in `Text`.
- `Text.CompareToIsLexicographic`: strings compare by code point, where Java compares UTF-16
  code units. The two differ only outside the Basic Multilingual Plane.
- `Timestamps.ParseFormatStamp`: the round trip covers years 1 to 9999. Signed years and years
  of more than four digits are not parsed (`yyyy` is read as exactly four digits). The AM/PM
  text is that of an English locale.
- `SessionsParser.ParseSpec`: the order of the day buckets (the order in which days first
  appear) is not claimed.
- `SessionsParser.SortSessions`: stability is not stated. A stable insertion sort is modelled,
  but only sortedness and permutation are proved.
- `SessionsParser.ParseSchedule`: the two sides of the `SessionRowParser` interface do not agree
  on what a failed row does. `SchedParser.parseSessions` (SchedParser.java:52-64) returns a
  `java.util.stream.Stream` that throws at the first row that fails to map. `SessionsParser.parse`
  (SessionsParser.java:37-39) calls `.toStream().flatMap(identity())` on the result, which fits a
  vavr `Try` or `Option` of sessions, where a failure gives no sessions at all. The model follows
  the throwing stream and passes the row's failure on. The other reading is
  `SessionsParser.ParseScheduleOrNothing`, and `SessionsParser.ParseScheduleReadings` relates the
  two. The `SessionRowParser` interface file is not part of this model.
