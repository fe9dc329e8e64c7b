/** The two date-time patterns of the pipeline: schedule cells are read with
    `M/dd/yyyy h:mm a` (smart resolution, English AM/PM markers), and slide hours are
    written with `HH'h'mm`. */
module Timestamps {
  import opened Outcomes
  import opened Text
  import opened Calendar

  predicate IsDigit(c: char) {
    '0' <= c <= '9'
  }

  predicate AllDigits(s: string) {
    forall i :: 0 <= i < |s| ==> IsDigit(s[i])
  }

  function DigitValue(c: char): nat
    requires IsDigit(c)
  {
    c as int - '0' as int
  }

  function Digit(n: nat): (c: char)
    requires n < 10
    ensures IsDigit(c) && DigitValue(c) == n
  {
    ('0' as int + n) as char
  }

  /** The decimal value of a run of digits. */
  function Value(s: string): nat
    requires AllDigits(s)
  {
    if |s| == 0 then 0 else Value(s[..|s| - 1]) * 10 + DigitValue(s[|s| - 1])
  }

  /** Length of the longest run of digits at the start of `s`. */
  function LeadingDigits(s: string): (n: nat)
    ensures n <= |s|
    ensures AllDigits(s[..n])
    ensures n < |s| ==> !IsDigit(s[n])
  {
    if |s| > 0 && IsDigit(s[0]) then
      var n := 1 + LeadingDigits(s[1..]);
      assert s[..n] == [s[0]] + s[1..][..n - 1];
      n
    else 0
  }

  /** A number read from the text, and the text after it. */
  datatype Scan = Scan(value: nat, rest: string)

  /** A number field of `minWidth` to `maxWidth` digits, read greedily. */
  function Number(s: string, minWidth: nat, maxWidth: nat): Option<Scan> {
    var n := if LeadingDigits(s) < maxWidth then LeadingDigits(s) else maxWidth;
    if n < minWidth then None else Some(Scan(Value(s[..n]), s[n..]))
  }

  /** The literal `lit`, and the text after it. */
  function Literal(s: string, lit: string): Option<string> {
    if StartsWith(s, lit) then Some(s[|lit|..]) else None
  }

  /** The AM/PM marker, which must end the text: true for PM. */
  function Meridiem(s: string): Option<bool> {
    if s == "AM" then Some(false) else if s == "PM" then Some(true) else None
  }

  /** The fields of a timestamp before they are checked and combined. */
  datatype Fields = Fields(month: nat, day: nat, year: nat, clockHour: nat, minute: nat, pm: bool)

  /** The date part `M/dd/yyyy`: month of one or more digits (at most 19), day of exactly two,
      year of exactly four. */
  function ParseDate(s: string): Option<(nat, nat, nat, string)> {
    var month :- Number(s, 1, 19);
    var s1 :- Literal(month.rest, "/");
    var day :- Number(s1, 2, 2);
    var s2 :- Literal(day.rest, "/");
    var year :- Number(s2, 4, 4);
    Some((month.value, day.value, year.value, year.rest))
  }

  /** The time part `h:mm a`: clock hour of one or more digits (at most 19), minute of exactly
      two, then the marker, which must end the text. */
  function ParseTime(s: string): Option<(nat, nat, bool)> {
    var hour :- Number(s, 1, 19);
    var s1 :- Literal(hour.rest, ":");
    var minute :- Number(s1, 2, 2);
    var s2 :- Literal(minute.rest, " ");
    var pm :- Meridiem(s2);
    Some((hour.value, minute.value, pm))
  }

  /** Reads `M/dd/yyyy h:mm a`; the whole text must be consumed. */
  function ParseFields(s: string): Option<Fields> {
    var date :- ParseDate(s);
    var s1 :- Literal(date.3, " ");
    var time :- ParseTime(s1);
    Some(Fields(date.0, date.1, date.2, time.0, time.1, time.2))
  }

  /** Smart resolution: the month must be 1..12, the day 1..31 and is then capped at the
      month's length, the year of era must be positive, the clock hour 0..12 (12 counts as 0)
      and the minute 0..59. */
  function Resolve(f: Fields): Option<LocalDateTime> {
    if f.month < 1 || f.month > 12 || f.day < 1 || f.day > 31 || f.year < 1 || f.year > MaxYear
       || f.clockHour > 12 || f.minute > 59
    then None
    else
      var hour := (if f.pm then 12 else 0) + (if f.clockHour == 12 then 0 else f.clockHour);
      var last := DaysInMonth(f.year, f.month);
      var day := if f.day <= last then f.day else last;
      Some(DateTime(f.year, f.month, day, hour, f.minute))
  }

  /** `LocalDateTime.parse(s, ofPattern("M/dd/yyyy h:mm a"))`; None where Java throws
      `DateTimeParseException`. */
  function ParseStamp(s: string): Option<LocalDateTime> {
    var fields :- ParseFields(s);
    Resolve(fields)
  }

  // ---------------------------------------------------------------------------------------------
  // Writing numbers and timestamps
  // ---------------------------------------------------------------------------------------------

  /** A number below 100 in two digits, zero-padded. */
  function Pad2(n: nat): (r: string)
    requires n < 100
    ensures AllDigits(r) && |r| == 2 && Value(r) == n
  {
    var r := [Digit(n / 10), Digit(n % 10)];
    assert r[..1] == [r[0]] && r[..1][..0] == [];
    assert Value(r[..1]) == n / 10;
    r
  }

  /** Appending a digit multiplies the value by ten and adds the digit. */
  lemma ValueSnoc(s: string, c: char)
    requires AllDigits(s) && IsDigit(c)
    ensures AllDigits(s + [c]) && Value(s + [c]) == Value(s) * 10 + DigitValue(c)
  {
    assert (s + [c])[..|s|] == s;
  }

  /** A number below 10000 in four digits, zero-padded. */
  function Pad4(n: nat): (r: string)
    requires n < 10000
    ensures AllDigits(r) && |r| == 4 && Value(r) == n
  {
    var high, low := Pad2(n / 100), Pad2(n % 100);
    ValueSnoc(high, low[0]);
    ValueSnoc(high + [low[0]], low[1]);
    assert low == [low[0], low[1]];
    assert high + low == high + [low[0]] + [low[1]];
    assert Value(low[..1]) == DigitValue(low[0]) by {
      assert low[..1][..0] == [];
    }
    high + low
  }

  /** A number from 1 to 99 without padding. */
  function Unpadded(n: nat): (r: string)
    requires 1 <= n < 100
    ensures AllDigits(r) && 1 <= |r| <= 2 && Value(r) == n
  {
    if n < 10 then
      var r := [Digit(n)];
      assert r[..0] == [];
      r
    else Pad2(n)
  }

  /** The 12-hour clock hour of an hour of the day (`h`): 12 for midnight and noon. */
  function ClockHour(hour: int): int
    requires 0 <= hour < 24
  {
    if hour % 12 == 0 then 12 else hour % 12
  }

  /** A date-time in the pattern `M/dd/yyyy h:mm a`: the reference against which parsing is
      checked. */
  function FormatStamp(dt: LocalDateTime): string
    requires 1 <= dt.year <= 9999
  {
    Unpadded(dt.month) + ("/" + (Pad2(dt.day) + ("/" + (Pad4(dt.year) + (" " + (Unpadded(ClockHour(dt.hour))
      + (":" + (Pad2(dt.minute) + (" " + (if dt.hour < 12 then "AM" else "PM"))))))))))
  }

  lemma {:induction false} LeadingDigitsOf(digits: string, rest: string)
    requires AllDigits(digits)
    requires |rest| > 0 && !IsDigit(rest[0])
    ensures LeadingDigits(digits + rest) == |digits|
  {
    if |digits| > 0 {
      assert (digits + rest)[1..] == digits[1..] + rest;
      LeadingDigitsOf(digits[1..], rest);
    }
  }

  /** Reading a number field stops at the first non-digit. */
  lemma NumberReads(digits: string, rest: string, minWidth: nat, maxWidth: nat)
    requires AllDigits(digits) && minWidth <= |digits| <= maxWidth
    requires |rest| > 0 && !IsDigit(rest[0])
    ensures Number(digits + rest, minWidth, maxWidth) == Some(Scan(Value(digits), rest))
  {
    var s := digits + rest;
    LeadingDigitsOf(digits, rest);
    assert s[..|digits|] == digits;
    assert s[|digits|..] == rest;
  }

  lemma ParseDateReads(month: string, day: string, year: string, rest: string)
    requires AllDigits(month) && 1 <= |month| <= 19
    requires AllDigits(day) && |day| == 2
    requires AllDigits(year) && |year| == 4
    requires |rest| > 0 && !IsDigit(rest[0])
    ensures ParseDate(month + ("/" + (day + ("/" + (year + rest)))))
         == Some((Value(month), Value(day), Value(year), rest))
  {
    var r2 := year + rest;
    var r1 := day + ("/" + r2);
    NumberReads(month, "/" + r1, 1, 19);
    assert Literal("/" + r1, "/") == Some(r1);
    NumberReads(day, "/" + r2, 2, 2);
    assert Literal("/" + r2, "/") == Some(r2);
    NumberReads(year, rest, 4, 4);
  }

  lemma ParseTimeReads(hour: string, minute: string, marker: string)
    requires AllDigits(hour) && 1 <= |hour| <= 19
    requires AllDigits(minute) && |minute| == 2
    requires marker == "AM" || marker == "PM"
    ensures ParseTime(hour + (":" + (minute + (" " + marker))))
         == Some((Value(hour), Value(minute), marker == "PM"))
  {
    var r1 := minute + (" " + marker);
    NumberReads(hour, ":" + r1, 1, 19);
    assert Literal(":" + r1, ":") == Some(r1);
    NumberReads(minute, " " + marker, 2, 2);
    assert Literal(" " + marker, " ") == Some(marker);
  }

  /** Parsing a formatted timestamp gives back the date-time. */
  lemma ParseFormatStamp(dt: LocalDateTime)
    requires 1 <= dt.year <= 9999
    ensures ParseStamp(FormatStamp(dt)) == Some(dt)
  {
    var marker := if dt.hour < 12 then "AM" else "PM";
    var time := Unpadded(ClockHour(dt.hour)) + (":" + (Pad2(dt.minute) + (" " + marker)));
    ParseTimeReads(Unpadded(ClockHour(dt.hour)), Pad2(dt.minute), marker);
    ParseDateReads(Unpadded(dt.month), Pad2(dt.day), Pad4(dt.year), " " + time);
    assert Literal(" " + time, " ") == Some(time);
    var f := Fields(dt.month, dt.day, dt.year, ClockHour(dt.hour), dt.minute, dt.hour >= 12);
    var s := Unpadded(dt.month) + ("/" + (Pad2(dt.day) + ("/" + (Pad4(dt.year) + (" " + time)))));
    assert FormatStamp(dt) == s;
    assert ParseFields(s) == Some(f);
    ResolveFormatted(dt);
  }

  /** Resolving the fields of a date-time gives the date-time back. */
  lemma ResolveFormatted(dt: LocalDateTime)
    requires 1 <= dt.year
    ensures Resolve(Fields(dt.month, dt.day, dt.year, ClockHour(dt.hour), dt.minute, dt.hour >= 12)) == Some(dt)
  {
  }

  /** `format(ofPattern("HH'h'mm"))`: the hour of the day and the minute, each in two digits,
      separated by the letter h. */
  function FormatHours(dt: LocalDateTime): string {
    Pad2(dt.hour) + "h" + Pad2(dt.minute)
  }

  /** The written hours read back as the hour and minute of the date-time. */
  lemma FormatHoursReadsBack(dt: LocalDateTime)
    ensures var r := FormatHours(dt);
            && |r| == 5 && r[2] == 'h'
            && AllDigits(r[..2]) && Value(r[..2]) == dt.hour
            && AllDigits(r[3..]) && Value(r[3..]) == dt.minute
  {
    var r := FormatHours(dt);
    assert r[..2] == Pad2(dt.hour);
    assert r[3..] == Pad2(dt.minute);
  }

  /** The start time of the schedule example's first talk. */
  lemma ParseExampleStamp()
    ensures ParseStamp("1/07/2019 9:00 AM") == Some(DateTime(2019, 1, 7, 9, 0))
  {
    var dt: LocalDateTime := DateTime(2019, 1, 7, 9, 0);
    ExampleFieldTexts();
    FormatExampleStamp(dt, "00");
    assert FormatStamp(dt) == "1/07/2019 9:00 AM";
    ParseFormatStamp(dt);
  }

  /** The end time of the schedule example's first talk. */
  lemma ParseExampleEndStamp()
    ensures ParseStamp("1/07/2019 9:45 AM") == Some(DateTime(2019, 1, 7, 9, 45))
  {
    var dt: LocalDateTime := DateTime(2019, 1, 7, 9, 45);
    ExampleFieldTexts();
    FormatExampleStamp(dt, "45");
    assert FormatStamp(dt) == "1/07/2019 9:45 AM";
    ParseFormatStamp(dt);
  }

  /** The fields of the example stamps as they are written. */
  lemma ExampleFieldTexts()
    ensures Unpadded(1) == "1" && Unpadded(ClockHour(9)) == "9"
    ensures Pad2(7) == "07" && Pad2(0) == "00" && Pad2(45) == "45"
    ensures Pad4(2019) == "2019"
  {
    assert Pad2(20) == "20" && Pad2(19) == "19";
  }

  /** A morning of 7 January 2019 at nine, written with the given two minute digits. */
  lemma FormatExampleStamp(dt: LocalDateTime, minute: string)
    requires dt.year == 2019 && dt.month == 1 && dt.day == 7 && dt.hour == 9
    requires minute == Pad2(dt.minute)
    ensures FormatStamp(dt) == "1/07/2019 9:" + minute + " AM"
  {
    ExampleFieldTexts();
    assert FormatStamp(dt) == "1" + ("/" + ("07" + ("/" + ("2019" + (" " + ("9" + (":" + (minute + (" " + "AM")))))))));
  }
}
