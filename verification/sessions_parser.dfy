/** Aggregation of the parsed sessions: grouping by day of the week (`groupBy`) and sorting each
    day's sessions with the reversed (start, room) comparator. */
module SessionsParser {
  import opened Outcomes
  import opened Calendar
  import Text
  import opened Rows
  import opened Sessions
  import SchedParser

  // ---------------------------------------------------------------------------------------------
  // The session order
  // ---------------------------------------------------------------------------------------------

  /** `comparing(Session::start).thenComparing(Session::room)`: the start comparison, and the
      room comparison when the starts are equal. */
  function StartThenRoom(a: Session, b: Session): int {
    var byStart := Calendar.CompareTo(a.start, b.start);
    if byStart != 0 then byStart else Text.CompareTo(a.room, b.room)
  }

  /** `sessionComparator()`: the same comparator `reversed()`. */
  function SessionComparator(a: Session, b: Session): int {
    StartThenRoom(b, a)
  }

  /** `a` may stand before `b` in a day's list: `a` starts later, or both start together and
      `a`'s room is equal to or after `b`'s in dictionary order. */
  predicate Precedes(a: Session, b: Session) {
    IsBefore(b.start, a.start) || (a.start == b.start && Text.LexLe(b.room, a.room))
  }

  /** The Java comparator orders sessions by `Precedes`, and calls two sessions equal exactly
      when they share their start and their room. */
  lemma ComparatorOrder(a: Session, b: Session)
    ensures SessionComparator(a, b) <= 0 <==> Precedes(a, b)
    ensures SessionComparator(a, b) == 0 <==> a.start == b.start && a.room == b.room
    ensures SessionComparator(a, b) < 0 <==> SessionComparator(b, a) > 0
  {
    CompareToIsChronological(b.start, a.start);
    Text.CompareToIsLexicographic(b.room, a.room);
  }

  lemma PrecedesTotal(a: Session, b: Session)
    ensures Precedes(a, b) || Precedes(b, a)
  {
    Text.LexLeTotal(a.room, b.room);
  }

  lemma PrecedesTransitive(a: Session, b: Session, c: Session)
    requires Precedes(a, b) && Precedes(b, c)
    ensures Precedes(a, c)
  {
    if a.start == b.start && b.start == c.start {
      Text.LexLeTransitive(c.room, b.room, a.room);
    }
  }

  // ---------------------------------------------------------------------------------------------
  // Sorting
  // ---------------------------------------------------------------------------------------------

  /** Every session precedes every later one: later starts first, and at equal starts rooms in
      reverse dictionary order. */
  predicate Sorted(s: seq<Session>) {
    forall i, j :: 0 <= i < j < |s| ==> Precedes(s[i], s[j])
  }

  predicate PrecedesAll(x: Session, s: seq<Session>) {
    forall j :: 0 <= j < |s| ==> Precedes(x, s[j])
  }

  lemma SortedCons(x: Session, s: seq<Session>)
    requires PrecedesAll(x, s) && Sorted(s)
    ensures Sorted([x] + s)
  {
    var r := [x] + s;
    forall i, j | 0 <= i < j < |r|
      ensures Precedes(r[i], r[j])
    {
      if i > 0 {
        assert r[i] == s[i - 1] && r[j] == s[j - 1];
      } else {
        assert r[j] == s[j - 1];
      }
    }
  }

  /** Putting `x` in front of a sorted list whose head it does not follow keeps it sorted. */
  lemma InsertFront(x: Session, s: seq<Session>)
    requires Sorted(s) && |s| > 0 && SessionComparator(x, s[0]) <= 0
    ensures Sorted([x] + s)
  {
    ComparatorOrder(x, s[0]);
    forall j | 0 <= j < |s|
      ensures Precedes(x, s[j])
    {
      if j > 0 {
        PrecedesTransitive(x, s[0], s[j]);
      }
    }
    SortedCons(x, s);
  }

  /** Keeping the head of a sorted list in front of a sorted list of its other elements and `x`
      keeps it sorted when the comparator puts `x` after the head. */
  lemma InsertBehind(x: Session, s: seq<Session>, rest: seq<Session>)
    requires Sorted(s) && |s| > 0 && SessionComparator(x, s[0]) > 0
    requires Sorted(rest) && multiset(rest) == multiset(s[1..]) + multiset{x}
    ensures Sorted([s[0]] + rest)
  {
    ComparatorOrder(x, s[0]);
    PrecedesTotal(x, s[0]);
    forall j | 0 <= j < |rest|
      ensures Precedes(s[0], rest[j])
    {
      assert rest[j] in multiset(rest);
      if rest[j] != x {
        assert rest[j] in multiset(s[1..]);
        var k :| 0 <= k < |s[1..]| && s[1..][k] == rest[j];
        assert s[k + 1] == rest[j];
      }
    }
    SortedCons(s[0], rest);
  }

  /** Inserts `x` before the first element it does not follow, so that it stays ahead of the
      elements it compares equal to. */
  function Insert(x: Session, s: seq<Session>): (r: seq<Session>)
    requires Sorted(s)
    ensures multiset(r) == multiset(s) + multiset{x}
    ensures Sorted(r)
    decreases |s|
  {
    if |s| == 0 then [x]
    else if SessionComparator(x, s[0]) <= 0 then
      InsertFront(x, s);
      [x] + s
    else
      var rest := Insert(x, s[1..]);
      assert s == [s[0]] + s[1..];
      InsertBehind(x, s, rest);
      [s[0]] + rest
  }

  /** `toList().sorted(sessionComparator())`: a sorted permutation of the sessions. Java's list
      sort is stable, and so is this insertion sort. */
  function SortSessions(s: seq<Session>): (r: seq<Session>)
    ensures multiset(r) == multiset(s)
    ensures |r| == |s|
    ensures Sorted(r)
  {
    if |s| == 0 then []
    else
      assert s == [s[0]] + s[1..];
      Insert(s[0], SortSessions(s[1..]))
  }

  // ---------------------------------------------------------------------------------------------
  // Grouping by day of the week
  // ---------------------------------------------------------------------------------------------

  /** The sessions falling on day `d`, in their order. */
  function OnDay(ss: seq<Session>, d: DayOfWeek): seq<Session> {
    if |ss| == 0 then []
    else
      var last := ss[|ss| - 1];
      OnDay(ss[..|ss| - 1], d) + (if DayInTheWeek(last) == d then [last] else [])
  }

  /** A session occurs among day `d`'s sessions as often as in all the sessions when it falls
      on `d`, and not at all otherwise. */
  lemma {:induction false} OnDayCount(ss: seq<Session>, d: DayOfWeek, x: Session)
    ensures multiset(OnDay(ss, d))[x] == if DayInTheWeek(x) == d then multiset(ss)[x] else 0
    decreases |ss|
  {
    if |ss| > 0 {
      var last := ss[|ss| - 1];
      assert ss == ss[..|ss| - 1] + [last];
      OnDayCount(ss[..|ss| - 1], d, x);
    }
  }

  /** The position of day `d`'s bucket, or the number of buckets when there is none. */
  function IndexOfDay(groups: seq<DaySessions>, d: DayOfWeek): (i: nat)
    ensures i <= |groups|
    ensures i < |groups| ==> groups[i].day == d
    ensures forall k :: 0 <= k < i ==> groups[k].day != d
  {
    if |groups| == 0 then 0
    else if groups[0].day == d then 0
    else 1 + IndexOfDay(groups[1..], d)
  }

  predicate DistinctDays(groups: seq<DaySessions>) {
    forall i, j :: 0 <= i < j < |groups| ==> groups[i].day != groups[j].day
  }

  /** All the sessions of all the buckets. */
  function AllSessions(groups: seq<DaySessions>): multiset<Session> {
    if |groups| == 0 then multiset{}
    else AllSessions(groups[..|groups| - 1]) + multiset(groups[|groups| - 1].sessions)
  }

  lemma AllSessionsAppend(groups: seq<DaySessions>, g: DaySessions)
    ensures AllSessions(groups + [g]) == AllSessions(groups) + multiset(g.sessions)
  {
    assert (groups + [g])[..|groups|] == groups;
  }

  /** Appending a session to one bucket adds it once to the union. */
  lemma {:induction false} AllSessionsAddTo(groups: seq<DaySessions>, i: nat, s: Session)
    requires i < |groups|
    ensures AllSessions(groups[i := groups[i].(sessions := groups[i].sessions + [s])])
         == AllSessions(groups) + multiset{s}
    decreases |groups|
  {
    var n := |groups|;
    var b := groups[i].(sessions := groups[i].sessions + [s]);
    var updated := groups[i := b];
    var front := groups[..n - 1];
    assert AllSessions(groups) == AllSessions(front) + multiset(groups[n - 1].sessions);
    if i == n - 1 {
      assert updated[..n - 1] == front;
      assert AllSessions(updated) == AllSessions(front) + multiset(b.sessions);
      assert multiset(b.sessions) == multiset(groups[i].sessions) + multiset{s};
    } else {
      var last := groups[n - 1];
      assert updated[..n - 1] == front[i := b];
      assert updated[n - 1] == last;
      assert front[i] == groups[i];
      AllSessionsAddTo(front, i, s);
      assert AllSessions(updated) == AllSessions(front[i := b]) + multiset(last.sessions);
    }
  }

  /** Buckets with the same sessions, up to order, hold the same sessions in all. */
  lemma {:induction false} AllSessionsPermuted(a: seq<DaySessions>, b: seq<DaySessions>)
    requires |a| == |b|
    requires forall i :: 0 <= i < |a| ==> multiset(a[i].sessions) == multiset(b[i].sessions)
    ensures AllSessions(a) == AllSessions(b)
    decreases |a|
  {
    if |a| > 0 {
      AllSessionsPermuted(a[..|a| - 1], b[..|b| - 1]);
    }
  }

  /** `groupBy`'s step for one session: append it to its day's bucket, or open a new bucket at
      the end when its day has none yet. */
  function AddToGroup(groups: seq<DaySessions>, s: Session): (r: seq<DaySessions>)
    ensures |groups| <= |r| <= |groups| + 1
  {
    var i := IndexOfDay(groups, DayInTheWeek(s));
    if i < |groups| then groups[i := groups[i].(sessions := groups[i].sessions + [s])]
    else groups + [DaySessions(DayInTheWeek(s), [s])]
  }

  /** Each bucket holds exactly its day's sessions, in their order. */
  predicate BucketsHoldTheirDays(groups: seq<DaySessions>, ss: seq<Session>) {
    forall i :: 0 <= i < |groups| ==> groups[i].sessions == OnDay(ss, groups[i].day)
  }

  predicate NoEmptyBucket(groups: seq<DaySessions>) {
    forall i :: 0 <= i < |groups| ==> |groups[i].sessions| > 0
  }

  /** A day has a bucket exactly when some session falls on it. */
  predicate BucketPerDayPresent(groups: seq<DaySessions>, ss: seq<Session>) {
    forall d :: IndexOfDay(groups, d) < |groups| <==> |OnDay(ss, d)| > 0
  }

  /** What `groupBy` promises about its buckets for the sessions `ss`. */
  predicate GroupsOf(groups: seq<DaySessions>, ss: seq<Session>) {
    && DistinctDays(groups)
    && BucketsHoldTheirDays(groups, ss)
    && NoEmptyBucket(groups)
    && BucketPerDayPresent(groups, ss)
    && AllSessions(groups) == multiset(ss)
  }

  lemma OnDaySnoc(ss: seq<Session>, s: Session, d: DayOfWeek)
    ensures OnDay(ss + [s], d) == OnDay(ss, d) + (if DayInTheWeek(s) == d then [s] else [])
  {
    assert (ss + [s])[..|ss|] == ss;
  }

  lemma AddToGroupKeepsDistinct(groups: seq<DaySessions>, s: Session)
    requires DistinctDays(groups)
    ensures DistinctDays(AddToGroup(groups, s))
  {
    var i := IndexOfDay(groups, DayInTheWeek(s));
    if i == |groups| {
      assert forall k :: 0 <= k < |groups| ==> groups[k].day != DayInTheWeek(s);
    }
  }

  lemma AddToGroupKeepsBuckets(groups: seq<DaySessions>, ss: seq<Session>, s: Session)
    requires DistinctDays(groups) && BucketsHoldTheirDays(groups, ss) && BucketPerDayPresent(groups, ss)
    ensures BucketsHoldTheirDays(AddToGroup(groups, s), ss + [s])
  {
    var day := DayInTheWeek(s);
    var i := IndexOfDay(groups, day);
    var r := AddToGroup(groups, s);
    forall k | 0 <= k < |r|
      ensures r[k].sessions == OnDay(ss + [s], r[k].day)
    {
      OnDaySnoc(ss, s, r[k].day);
      if k == i {
        if i == |groups| {
          assert |OnDay(ss, day)| == 0;
        }
      } else {
        assert r[k] == groups[k] && groups[k].day != day;
      }
    }
  }

  lemma AddToGroupKeepsDaysPresent(groups: seq<DaySessions>, ss: seq<Session>, s: Session)
    requires BucketPerDayPresent(groups, ss)
    ensures BucketPerDayPresent(AddToGroup(groups, s), ss + [s])
  {
    var day := DayInTheWeek(s);
    var i := IndexOfDay(groups, day);
    var r := AddToGroup(groups, s);
    forall d
      ensures IndexOfDay(r, d) < |r| <==> |OnDay(ss + [s], d)| > 0
    {
      OnDaySnoc(ss, s, d);
      if i < |groups| {
        IndexOfDayKeepsDays(groups, i, r[i], d);
      } else {
        IndexOfDayAppend(groups, r[|groups|], d);
      }
    }
  }

  lemma AddToGroupKeepsAll(groups: seq<DaySessions>, ss: seq<Session>, s: Session)
    requires AllSessions(groups) == multiset(ss)
    ensures AllSessions(AddToGroup(groups, s)) == multiset(ss + [s])
  {
    var i := IndexOfDay(groups, DayInTheWeek(s));
    var r := AddToGroup(groups, s);
    if i < |groups| {
      AllSessionsAddTo(groups, i, s);
    } else {
      AllSessionsAppend(groups, r[|groups|]);
    }
  }

  /** Adding one more session keeps the buckets those of the longer sequence. */
  lemma AddToGroupKeepsGroups(groups: seq<DaySessions>, front: seq<Session>, s: Session, ss: seq<Session>)
    requires GroupsOf(groups, front) && ss == front + [s]
    ensures GroupsOf(AddToGroup(groups, s), ss)
  {
    AddToGroupKeepsDistinct(groups, s);
    AddToGroupKeepsBuckets(groups, front, s);
    AddToGroupKeepsDaysPresent(groups, front, s);
    AddToGroupKeepsAll(groups, front, s);
  }

  /** Changing a bucket's sessions but not its day leaves every day's position alone. */
  lemma {:induction false} IndexOfDayKeepsDays(groups: seq<DaySessions>, i: nat, b: DaySessions, d: DayOfWeek)
    requires i < |groups| && b.day == groups[i].day
    ensures IndexOfDay(groups[i := b], d) == IndexOfDay(groups, d)
    decreases |groups|
  {
    if |groups| > 0 && groups[0].day != d && i > 0 {
      assert groups[i := b][1..] == groups[1..][i - 1 := b];
      IndexOfDayKeepsDays(groups[1..], i - 1, b, d);
    }
  }

  /** A bucket added at the end is found for its own day when no earlier bucket has it. */
  lemma {:induction false} IndexOfDayAppend(groups: seq<DaySessions>, g: DaySessions, d: DayOfWeek)
    ensures IndexOfDay(groups + [g], d) < |groups| + 1 <==> IndexOfDay(groups, d) < |groups| || d == g.day
    ensures IndexOfDay(groups, d) < |groups| ==> IndexOfDay(groups + [g], d) == IndexOfDay(groups, d)
    decreases |groups|
  {
    if |groups| > 0 && groups[0].day != d {
      assert (groups + [g])[1..] == groups[1..] + [g];
      IndexOfDayAppend(groups[1..], g, d);
    }
  }

  /** `groupBy(Session::dayInTheWeek)`: one bucket per day present, in the order the days first
      appear, each holding that day's sessions in their order. */
  function GroupByDay(ss: seq<Session>): (r: seq<DaySessions>)
    ensures |r| <= |ss|
  {
    if |ss| == 0 then [] else AddToGroup(GroupByDay(ss[..|ss| - 1]), ss[|ss| - 1])
  }

  /** The buckets are those `groupBy` promises. */
  lemma {:induction false} GroupByDayGroups(ss: seq<Session>)
    ensures GroupsOf(GroupByDay(ss), ss)
    decreases |ss|
  {
    if |ss| > 0 {
      var front := ss[..|ss| - 1];
      GroupByDayGroups(front);
      assert front + [ss[|ss| - 1]] == ss;
      AddToGroupKeepsGroups(GroupByDay(front), front, ss[|ss| - 1], ss);
    }
  }

  // ---------------------------------------------------------------------------------------------
  // Parsing into day buckets
  // ---------------------------------------------------------------------------------------------

  /** `mapToSession`: a bucket with its sessions sorted by `sessionComparator()`. */
  function SortBucket(g: DaySessions): (r: DaySessions)
    ensures r.day == g.day
    ensures multiset(r.sessions) == multiset(g.sessions) && |r.sessions| == |g.sessions|
    ensures Sorted(r.sessions)
  {
    DaySessions(g.day, SortSessions(g.sessions))
  }

  /** `map(this::mapToSession)` over the buckets. */
  function SortBuckets(groups: seq<DaySessions>): (r: seq<DaySessions>)
    ensures |r| == |groups|
    ensures forall i :: 0 <= i < |r| ==> r[i] == SortBucket(groups[i])
  {
    if |groups| == 0 then [] else [SortBucket(groups[0])] + SortBuckets(groups[1..])
  }

  /** Sorting the buckets keeps their days, hence their positions, and what they hold in all. */
  lemma SortBucketsKeepsDays(groups: seq<DaySessions>)
    ensures DistinctDays(groups) ==> DistinctDays(SortBuckets(groups))
    ensures forall d :: IndexOfDay(SortBuckets(groups), d) == IndexOfDay(groups, d)
    ensures AllSessions(SortBuckets(groups)) == AllSessions(groups)
  {
    var r := SortBuckets(groups);
    forall d
      ensures IndexOfDay(r, d) == IndexOfDay(groups, d)
    {
      IndexOfDaySameDays(r, groups, d);
    }
    AllSessionsPermuted(r, groups);
  }

  /** `parse`: the day buckets of the sessions, each sorted. */
  function Parse(ss: seq<Session>): (r: seq<DaySessions>)
    ensures |r| <= |ss|
  {
    SortBuckets(GroupByDay(ss))
  }

  /** One bucket per day on which some session falls, with distinct days; each bucket is
      non-empty, sorted, and holds exactly its day's sessions; together they hold every session
      exactly as often as the input does. */
  lemma ParseSpec(ss: seq<Session>)
    ensures var r := Parse(ss);
            && DistinctDays(r)
            && (forall i :: 0 <= i < |r| ==> Sorted(r[i].sessions) && |r[i].sessions| > 0)
            && (forall i :: 0 <= i < |r| ==> multiset(r[i].sessions) == multiset(OnDay(ss, r[i].day)))
            && (forall d :: IndexOfDay(r, d) < |r| <==> |OnDay(ss, d)| > 0)
            && AllSessions(r) == multiset(ss)
  {
    var groups := GroupByDay(ss);
    GroupByDayGroups(ss);
    SortBucketsKeepsDays(groups);
    var r := SortBuckets(groups);
    forall i | 0 <= i < |r|
      ensures Sorted(r[i].sessions) && |r[i].sessions| > 0
      ensures multiset(r[i].sessions) == multiset(OnDay(ss, r[i].day))
    {
      assert r[i] == SortBucket(groups[i]);
      assert groups[i].sessions == OnDay(ss, groups[i].day);
    }
  }

  lemma {:induction false} IndexOfDaySameDays(a: seq<DaySessions>, b: seq<DaySessions>, d: DayOfWeek)
    requires |a| == |b| && forall i :: 0 <= i < |a| ==> a[i].day == b[i].day
    ensures IndexOfDay(a, d) == IndexOfDay(b, d)
    decreases |a|
  {
    if |a| > 0 && a[0].day != d {
      IndexOfDaySameDays(a[1..], b[1..], d);
    }
  }

  /** Each session lies in exactly one bucket, the one of its own day of the week. */
  lemma SessionInItsBucket(ss: seq<Session>, x: Session)
    requires x in ss
    ensures var r := Parse(ss);
            var i := IndexOfDay(r, DayInTheWeek(x));
            && i < |r| && x in r[i].sessions
            && forall j :: 0 <= j < |r| && x in r[j].sessions ==> j == i
  {
    var r := Parse(ss);
    ParseSpec(ss);
    var d := DayInTheWeek(x);
    OnDayCount(ss, d, x);
    assert x in multiset(ss);
    var i := IndexOfDay(r, d);
    assert x in multiset(OnDay(ss, d));
    assert i < |r|;
    assert x in multiset(r[i].sessions);
    forall j | 0 <= j < |r| && x in r[j].sessions
      ensures j == i
    {
      OnDayCount(ss, r[j].day, x);
      assert x in multiset(r[j].sessions);
    }
  }

  /** No sessions, no buckets. */
  lemma ParseEmpty()
    ensures Parse([]) == []
  {
  }

  /** The whole aggregation from the schedule's rows, reading the sessions as a stream that
      throws at its first unmappable row: that row's failure is passed on. */
  function ParseSchedule(rows: seq<Row>): (r: Result<seq<DaySessions>>)
    ensures r.Ok? <==> SchedParser.ParseSessions(rows).Ok?
    ensures r.Ok? ==> r.value == Parse(SchedParser.ParseSessions(rows).value)
    ensures r.Err? ==> r.failure == SchedParser.ParseSessions(rows).failure
  {
    var ss :- SchedParser.ParseSessions(rows);
    Ok(Parse(ss))
  }

  /** The aggregation when the sessions arrive wrapped in a `Try` whose `toStream()` yields
      nothing on failure: a failed parse gives no buckets instead of an error. */
  function ParseScheduleOrNothing(rows: seq<Row>): seq<DaySessions> {
    match ParseSchedule(rows)
    case Ok(buckets) => buckets
    case Err(_) => []
  }

  /** The two readings agree whenever every session row maps; otherwise the second one loses
      the whole schedule, even the rows that did map. */
  lemma ParseScheduleReadings(rows: seq<Row>)
    ensures SchedParser.AllRowsMap(SchedParser.SessionRows(rows)) ==>
              ParseSchedule(rows) == Ok(ParseScheduleOrNothing(rows))
    ensures !SchedParser.AllRowsMap(SchedParser.SessionRows(rows)) ==>
              ParseSchedule(rows).Err? && ParseScheduleOrNothing(rows) == []
  {
  }
}
