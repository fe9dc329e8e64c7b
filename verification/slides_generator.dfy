/** The slide-generation protocol of one day: copy the template deck, duplicate its first slide
    once per session and delete it, then fill each duplicate's placeholders with one session's
    text. The Drive and Slides services are not modelled: their replies are inputs. */
module SlidesGenerator {
  import opened Outcomes
  import opened Calendar
  import Text
  import Timestamps
  import opened Sessions

  // ---------------------------------------------------------------------------------------------
  // Constants and requests
  // ---------------------------------------------------------------------------------------------

  const TitleVariable: string := "{{ title }}"
  const RoomVariable: string := "{{ room }}"
  const SpeakersVariable: string := "{{ speakers }}"
  const HoursVariable: string := "{{ hours }}"
  const SpeakersSeparator: string := " & "

  /** The placeholders of a slide, in the order their requests are made. */
  const Variables: seq<string> := [TitleVariable, RoomVariable, SpeakersVariable, HoursVariable]

  /** A request of a Slides batch update. */
  datatype Request =
    | DuplicateObject(objectId: string)
    | DeleteObject(objectId: string)
    | ReplaceAllText(pageObjectIds: seq<string>, replaceText: string, containsText: string, matchCase: bool)

  /** One reply of a batch update: the new object's id for a duplicate-object request, `None`
      for any other request. */
  datatype Response = Response(duplicateObject: Option<string>)

  /** A slide of a presentation. */
  datatype Page = Page(objectId: string)

  // ---------------------------------------------------------------------------------------------
  // Duplicating the template slide
  // ---------------------------------------------------------------------------------------------

  /** `duplicateSlides`' batch: `n` duplicates of the template slide, then its deletion. */
  function DuplicateSlidesBatch(slideId: string, n: nat): (r: seq<Request>)
    ensures |r| == n + 1
    ensures forall k :: 0 <= k < n ==> r[k] == DuplicateObject(slideId)
    ensures r[n] == DeleteObject(slideId)
  {
    seq(n, _ => DuplicateObject(slideId)) + [DeleteObject(slideId)]
  }

  /** The batch deletes exactly once, at its end, and every request targets the template slide. */
  lemma DuplicateSlidesBatchTargets(slideId: string, n: nat)
    ensures var r := DuplicateSlidesBatch(slideId, n);
            && (forall k :: 0 <= k < |r| ==> (r[k].DeleteObject? <==> k == n))
            && (forall k :: 0 <= k < |r| ==> !r[k].ReplaceAllText? && r[k].objectId == slideId)
  {
    var r := DuplicateSlidesBatch(slideId, n);
    forall k | 0 <= k < |r|
      ensures (r[k].DeleteObject? <==> k == n) && !r[k].ReplaceAllText? && r[k].objectId == slideId
    {
      if k < n {
        assert r[k] == DuplicateObject(slideId);
      }
    }
  }

  /** The ids of the duplicated slides, in reply order; replies without a duplicate are skipped. */
  function DuplicatedObjectIds(replies: seq<Response>): (r: seq<string>)
    ensures |r| <= |replies|
  {
    if |replies| == 0 then []
    else
      (match replies[0].duplicateObject
       case Some(id) => [id]
       case None => [])
      + DuplicatedObjectIds(replies[1..])
  }

  /** Collecting ids distributes over concatenated replies. */
  lemma {:induction false} DuplicatedObjectIdsAppend(a: seq<Response>, b: seq<Response>)
    ensures DuplicatedObjectIds(a + b) == DuplicatedObjectIds(a) + DuplicatedObjectIds(b)
    decreases |a|
  {
    if |a| == 0 {
      assert a + b == b;
    } else {
      assert (a + b)[1..] == a[1..] + b;
      DuplicatedObjectIdsAppend(a[1..], b);
    }
  }

  /** An id is collected exactly when some reply carries it. */
  lemma {:induction false} DuplicatedObjectIdsMembers(replies: seq<Response>, id: string)
    ensures id in DuplicatedObjectIds(replies) <==> exists k :: 0 <= k < |replies| && replies[k].duplicateObject == Some(id)
    decreases |replies|
  {
    if |replies| > 0 {
      DuplicatedObjectIdsMembers(replies[1..], id);
      if id in DuplicatedObjectIds(replies[1..]) {
        var k :| 0 <= k < |replies[1..]| && replies[1..][k].duplicateObject == Some(id);
        assert replies[k + 1].duplicateObject == Some(id);
      }
      if exists k :: 0 <= k < |replies| && replies[k].duplicateObject == Some(id) {
        var k :| 0 <= k < |replies| && replies[k].duplicateObject == Some(id);
        if k > 0 {
          assert replies[1..][k - 1].duplicateObject == Some(id);
        }
      }
    }
  }

  /** The replies a service gives when it answers each duplicate request with a new id and the
      deletion with an empty reply. */
  function EchoReplies(ids: seq<string>): (r: seq<Response>)
    ensures |r| == |ids| + 1
  {
    seq(|ids|, k requires 0 <= k < |ids| => Response(Some(ids[k]))) + [Response(None)]
  }

  /** Such replies give back exactly the new ids, in order. */
  lemma {:induction false} DuplicatedObjectIdsOfEcho(ids: seq<string>)
    ensures DuplicatedObjectIds(EchoReplies(ids)) == ids
    decreases |ids|
  {
    var r := EchoReplies(ids);
    if |ids| == 0 {
      assert r == [Response(None)];
      assert DuplicatedObjectIds(r) == [] + DuplicatedObjectIds(r[1..]);
    } else {
      assert r[1..] == EchoReplies(ids[1..]);
      DuplicatedObjectIdsOfEcho(ids[1..]);
      assert ids == [ids[0]] + ids[1..];
    }
  }

  // ---------------------------------------------------------------------------------------------
  // Filling the placeholders
  // ---------------------------------------------------------------------------------------------

  /** `formatSpeakers`: the speakers joined with " & "; no speakers give the empty text. */
  function FormatSpeakers(speakers: seq<string>): string {
    Text.Join(speakers, SpeakersSeparator)
  }

  /** Each speaker stands at its place in the joined text, separated from the next by " & ". */
  lemma FormatSpeakersPlacesNames(speakers: seq<string>, k: nat)
    requires k < |speakers|
    ensures var t, o := FormatSpeakers(speakers), Text.PartOffset(speakers, SpeakersSeparator, k);
            && o + |speakers[k]| <= |t|
            && t[o..o + |speakers[k]|] == speakers[k]
            && (k + 1 < |speakers| ==> o + |speakers[k]| + 3 <= |t| && t[o + |speakers[k]|..o + |speakers[k]| + 3] == " & ")
            && (k + 1 == |speakers| ==> |t| == o + |speakers[k]|)
  {
    Text.JoinPlacesParts(speakers, SpeakersSeparator, k);
  }

  lemma FormatSpeakersExamples()
    ensures FormatSpeakers([]) == ""
    ensures FormatSpeakers(["John Doe", "Jane Roe"]) == "John Doe & Jane Roe"
  {
  }

  /** `formatTime`: start and end as 24-hour `HH'h'mm`, separated by " - ". */
  function FormatTime(s: Session): string {
    Timestamps.FormatHours(s.start) + " - " + Timestamps.FormatHours(s.end)
  }

  /** The hours text reads back as the start's and the end's hour and minute. */
  lemma FormatTimeReadsBack(s: Session)
    ensures var t := FormatTime(s);
            && |t| == 13 && t[2] == 'h' && t[5..8] == " - " && t[10] == 'h'
            && Timestamps.AllDigits(t[..2]) && Timestamps.Value(t[..2]) == s.start.hour
            && Timestamps.AllDigits(t[3..5]) && Timestamps.Value(t[3..5]) == s.start.minute
            && Timestamps.AllDigits(t[8..10]) && Timestamps.Value(t[8..10]) == s.end.hour
            && Timestamps.AllDigits(t[11..]) && Timestamps.Value(t[11..]) == s.end.minute
  {
    var a, b := Timestamps.FormatHours(s.start), Timestamps.FormatHours(s.end);
    Timestamps.FormatHoursReadsBack(s.start);
    Timestamps.FormatHoursReadsBack(s.end);
    var t := FormatTime(s);
    assert t[..2] == a[..2] && t[3..5] == a[3..];
    assert t[8..10] == b[..2] && t[11..] == b[3..];
  }

  /** `replaceTextRequest`: replace `variable`, matching case, on the one slide only. */
  function ReplaceTextRequest(slideId: string, variable: string, text: string): Request {
    ReplaceAllText([slideId], text, variable, true)
  }

  /** The text that replaces placeholder `k` (title, room, speakers, hours) for a session. */
  function FieldText(s: Session, k: nat): string
    requires k < 4
  {
    match k
    case 0 => s.title
    case 1 => s.room
    case 2 => FormatSpeakers(s.speakers)
    case _ => FormatTime(s)
  }

  /** `replaceTextRequests`: the four placeholder replacements of one slide. */
  function ReplaceTextRequests(slideId: string, s: Session): (r: seq<Request>)
    ensures |r| == 4
    ensures forall k :: 0 <= k < 4 ==> r[k] == ReplaceTextRequest(slideId, Variables[k], FieldText(s, k))
  {
    [ReplaceTextRequest(slideId, TitleVariable, s.title),
     ReplaceTextRequest(slideId, RoomVariable, s.room),
     ReplaceTextRequest(slideId, SpeakersVariable, FormatSpeakers(s.speakers)),
     ReplaceTextRequest(slideId, HoursVariable, FormatTime(s))]
  }

  function Min(a: nat, b: nat): nat {
    if a <= b then a else b
  }

  /** `slideIds.zipWith(sessions, replaceTextRequests)` flattened: the i-th slide gets the i-th
      session, and the longer of the two sequences is cut to the shorter. */
  function ReplaceRequests(slideIds: seq<string>, sessions: seq<Session>): (r: seq<Request>)
    ensures |r| == 4 * Min(|slideIds|, |sessions|)
  {
    if |slideIds| == 0 || |sessions| == 0 then []
    else ReplaceTextRequests(slideIds[0], sessions[0]) + ReplaceRequests(slideIds[1..], sessions[1..])
  }

  /** Request `j` replaces placeholder `j % 4` on slide `j / 4` with that placeholder's text for
      session `j / 4`, matching case and touching no other slide. */
  lemma {:induction false} ReplaceRequestsAt(slideIds: seq<string>, sessions: seq<Session>, j: nat)
    requires j < |ReplaceRequests(slideIds, sessions)|
    ensures j / 4 < |slideIds| && j / 4 < |sessions|
    ensures ReplaceRequests(slideIds, sessions)[j]
         == ReplaceAllText([slideIds[j / 4]], FieldText(sessions[j / 4], j % 4), Variables[j % 4], true)
    decreases |slideIds|
  {
    var head := ReplaceTextRequests(slideIds[0], sessions[0]);
    var rest := ReplaceRequests(slideIds[1..], sessions[1..]);
    assert ReplaceRequests(slideIds, sessions) == head + rest;
    if j < 4 {
      assert j / 4 == 0 && j % 4 == j;
      assert (head + rest)[j] == head[j];
    } else {
      assert (head + rest)[j] == rest[j - 4];
      ReplaceRequestsAt(slideIds[1..], sessions[1..], j - 4);
      assert (j - 4) / 4 == j / 4 - 1 && (j - 4) % 4 == j % 4;
      assert slideIds[1..][j / 4 - 1] == slideIds[j / 4];
      assert sessions[1..][j / 4 - 1] == sessions[j / 4];
    }
  }

  // ---------------------------------------------------------------------------------------------
  // The copy and its template slide
  // ---------------------------------------------------------------------------------------------

  /** `getDisplayName(FULL, FRENCH)` of a day of the week. */
  function FrenchDayName(d: DayOfWeek): string {
    match d
    case Monday => "lundi"
    case Tuesday => "mardi"
    case Wednesday => "mercredi"
    case Thursday => "jeudi"
    case Friday => "vendredi"
    case Saturday => "samedi"
    case Sunday => "dimanche"
  }

  /** `presentationName`: the capitalised French name of the day. */
  function PresentationName(d: DayOfWeek): string {
    Text.Capitalize(FrenchDayName(d))
  }

  /** The French day names are non-empty lower-case words. */
  lemma FrenchDayNameIsLowerWord(d: DayOfWeek)
    ensures var f := FrenchDayName(d);
            && |f| > 0
            && (forall i :: 0 <= i < |f| ==> Text.IsLower(f[i]))
            && (forall i :: 0 <= i < |f| ==> !Text.IsWhitespace(f[i]))
  {
  }

  /** Capitalisation upper-cases the first letter of the day's name and keeps the rest. */
  lemma PresentationNameCapitalizes(d: DayOfWeek)
    ensures var n, f := PresentationName(d), FrenchDayName(d);
            && |n| == |f| > 0 && Text.IsUpper(n[0]) && n[0] == Text.ToTitle(f[0]) && n[1..] == f[1..]
  {
    FrenchDayNameIsLowerWord(d);
    Text.CapitalizeWord(FrenchDayName(d));
  }

  /** Each day gets its own deck name. */
  lemma PresentationNameInjective(d: DayOfWeek, e: DayOfWeek)
    ensures PresentationName(d) == PresentationName(e) <==> d == e
  {
    if PresentationName(d) == PresentationName(e) {
      var f, g := FrenchDayName(d), FrenchDayName(e);
      PresentationNameCapitalizes(d);
      PresentationNameCapitalizes(e);
      FrenchDayNameIsLowerWord(d);
      FrenchDayNameIsLowerWord(e);
      assert f[0] == g[0];
      assert f == [f[0]] + f[1..] && g == [g[0]] + g[1..];
    }
  }

  /** The deck of the schedule example's Monday. */
  lemma MondayDeckName()
    ensures PresentationName(Monday) == "Lundi"
  {
    Text.CapitalizeWord("lundi");
  }

  /** `copyPresentation`: the copy's id, or `None` when the copy failed: the failure is
      swallowed, not reported. */
  function CopyPresentation(copyReply: Result<string>): (r: Option<string>)
    ensures r.Some? <==> copyReply.Ok?
    ensures r.Some? ==> r.value == copyReply.value
  {
    match copyReply
    case Ok(id) => Some(id)
    case Err(_) => None
  }

  /** `templateSlideId`: the id of the presentation's first slide; a presentation without
      slides fails the state check. */
  function TemplateSlideId(presentationId: Option<string>, slides: seq<Page>): (r: Result<string>)
    ensures r.Ok? <==> |slides| > 0
    ensures r.Ok? ==> r.value == slides[0].objectId
    ensures r.Err? ==> r.failure == NoSlides(presentationId)
  {
    if |slides| == 0 then Err(NoSlides(presentationId)) else Ok(slides[0].objectId)
  }

  // ---------------------------------------------------------------------------------------------
  // Generating one day's deck
  // ---------------------------------------------------------------------------------------------

  /** The services' replies for one run: the Drive copy, the copy's slides, the duplicate
      batch's replies and the replace batch's outcome. */
  datatype Services = Services(
    copy: Result<string>,
    slides: Result<seq<Page>>,
    duplicateReplies: Result<seq<Response>>,
    replaceDone: Result<bool>)

  /** What a successful run asked the services for, and the id it returned: the Drive copy of
      the template, then the `get` of the copy and both batch updates, each sent to the copy's
      id (`None` when the copy failed). */
  datatype Generated = Generated(
    copySource: string,
    copyName: string,
    presentationId: Option<string>,
    getTarget: Option<string>,
    duplicateTarget: Option<string>,
    duplicateBatch: seq<Request>,
    replaceTarget: Option<string>,
    replaceBatch: seq<Request>)

  /** `generate`: copy, find the template slide, duplicate it per session, fill the duplicates;
      the id returned is the copy's, `None` when the copy failed. The first call that fails
      ends the run with its failure. */
  function Generate(templateId: string, day: DaySessions, services: Services): (r: Result<Generated>)
    ensures r.Ok? <==> && services.slides.Ok? && |services.slides.value| > 0
                       && services.duplicateReplies.Ok? && services.replaceDone.Ok?
    ensures services.slides.Err? ==> r == Err(services.slides.failure)
    ensures services.slides.Ok? && |services.slides.value| == 0 ==> r == Err(NoSlides(CopyPresentation(services.copy)))
    ensures services.slides.Ok? && |services.slides.value| > 0 && services.duplicateReplies.Err? ==>
              r == Err(services.duplicateReplies.failure)
    ensures (&& services.slides.Ok? && |services.slides.value| > 0
             && services.duplicateReplies.Ok? && services.replaceDone.Err?) ==>
              r == Err(services.replaceDone.failure)
    ensures r.Ok? ==>
              && r.value.copySource == templateId
              && r.value.copyName == PresentationName(day.day)
              && (r.value.presentationId.Some? <==> services.copy.Ok?)
              && (services.copy.Ok? ==> r.value.presentationId == Some(services.copy.value))
              && r.value.getTarget == r.value.presentationId
              && r.value.duplicateTarget == r.value.presentationId
              && r.value.replaceTarget == r.value.presentationId
              && r.value.duplicateBatch == DuplicateSlidesBatch(services.slides.value[0].objectId, |day.sessions|)
              && r.value.replaceBatch == ReplaceRequests(DuplicatedObjectIds(services.duplicateReplies.value), day.sessions)
  {
    var name := PresentationName(day.day);
    var presentationId := CopyPresentation(services.copy);
    var slides :- services.slides;
    var templateSlide :- TemplateSlideId(presentationId, slides);
    var duplicateBatch := DuplicateSlidesBatch(templateSlide, |day.sessions|);
    var replies :- services.duplicateReplies;
    var slideIds := DuplicatedObjectIds(replies);
    var replaceBatch := ReplaceRequests(slideIds, day.sessions);
    var _ :- services.replaceDone;
    Ok(Generated(templateId, name, presentationId, presentationId, presentationId, duplicateBatch,
                 presentationId, replaceBatch))
  }

  /** `generateSlides`: null arguments are rejected; otherwise the run's outcome. */
  function GenerateSlides(templateId: Option<string>, day: Option<DaySessions>, services: Services): (r: Result<Generated>)
    ensures templateId.None? || day.None? ==> r == Err(NullPointer)
    ensures templateId.Some? && day.Some? ==> r == Generate(templateId.value, day.value, services)
  {
    if templateId.None? || day.None? then Err(NullPointer) else Generate(templateId.value, day.value, services)
  }

  /** Request `j` of a successful run's replace batch fills placeholder `j % 4` of the `j / 4`-th
      duplicated slide with session `j / 4`'s text, whatever the replies; the batch covers as
      many sessions as there are new slides, at most all of them. */
  lemma ReplaceBatchFillsSlides(templateId: string, day: DaySessions, services: Services, j: nat)
    requires Generate(templateId, day, services).Ok?
    ensures var ids := DuplicatedObjectIds(services.duplicateReplies.value);
            && |Generate(templateId, day, services).value.replaceBatch| == 4 * Min(|ids|, |day.sessions|)
            && (j < 4 * Min(|ids|, |day.sessions|) ==>
                  Generate(templateId, day, services).value.replaceBatch[j]
                  == ReplaceAllText([ids[j / 4]], FieldText(day.sessions[j / 4], j % 4), Variables[j % 4], true))
  {
    var ids := DuplicatedObjectIds(services.duplicateReplies.value);
    if j < 4 * Min(|ids|, |day.sessions|) {
      ReplaceRequestsAt(ids, day.sessions, j);
    }
  }

  /** When the service answers every duplicate with a new slide, every session of the day gets
      its own slide: request `j` fills placeholder `j % 4` of new slide `j / 4` with session
      `j / 4`'s text. */
  lemma EverySessionGetsItsSlide(templateId: string, day: DaySessions, services: Services, ids: seq<string>, j: nat)
    requires services.duplicateReplies == Ok(EchoReplies(ids)) && |ids| == |day.sessions|
    requires Generate(templateId, day, services).Ok?
    ensures |Generate(templateId, day, services).value.replaceBatch| == 4 * |day.sessions|
    ensures j < 4 * |day.sessions| ==>
              Generate(templateId, day, services).value.replaceBatch[j]
              == ReplaceAllText([ids[j / 4]], FieldText(day.sessions[j / 4], j % 4), Variables[j % 4], true)
  {
    DuplicatedObjectIdsOfEcho(ids);
    ReplaceBatchFillsSlides(templateId, day, services, j);
  }
}
