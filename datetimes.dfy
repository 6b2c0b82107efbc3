/** Date-times as the blog reads them from a post's `published` header
    (`parse_datetime`, wanja.py:47-51): the format is chosen by looking for a
    lowercase 'm', then the text is read with `strptime`. */
module DateTimes {
  import opened Wrappers
  import opened Text

  /** A naive `datetime.datetime` value. */
  datatype DateTime = DateTime(year: int, month: int, day: int, hour: int, minute: int, second: int)

  predicate IsLeapYear(year: int) {
    year % 4 == 0 && (year % 100 != 0 || year % 400 == 0)
  }

  /** The length of a month in the proleptic Gregorian calendar `datetime` uses. */
  function DaysInMonth(year: int, month: int): (days: int)
    ensures 28 <= days <= 31
  {
    if month == 2 then (if IsLeapYear(year) then 29 else 28)
    else if month == 4 || month == 6 || month == 9 || month == 11 then 30
    else 31
  }

  /** The calendar: February has 29 days exactly in leap years, April, June,
      September and November 30, and the other months 31. */
  lemma DaysInMonthSpec(year: int, month: int)
    ensures month == 2 ==> (DaysInMonth(year, month) == 29 <==> IsLeapYear(year))
    ensures month == 2 ==> (DaysInMonth(year, month) == 28 <==> !IsLeapYear(year))
    ensures month in {4, 6, 9, 11} ==> DaysInMonth(year, month) == 30
    ensures month in {1, 3, 5, 7, 8, 10, 12} ==> DaysInMonth(year, month) == 31
  {
  }

  /** The field values the `datetime` constructor accepts (MINYEAR is 1, MAXYEAR 9999). */
  predicate Valid(dt: DateTime) {
    && 1 <= dt.year <= 9999
    && 1 <= dt.month <= 12
    && 1 <= dt.day <= DaysInMonth(dt.year, dt.month)
    && 0 <= dt.hour < 24
    && 0 <= dt.minute < 60
    && 0 <= dt.second < 60
  }

  /** Chronological order, as Python compares two naive datetimes. */
  predicate Before(a: DateTime, b: DateTime) {
    if a.year != b.year then a.year < b.year
    else if a.month != b.month then a.month < b.month
    else if a.day != b.day then a.day < b.day
    else if a.hour != b.hour then a.hour < b.hour
    else if a.minute != b.minute then a.minute < b.minute
    else a.second < b.second
  }

  /** d is "YYYY-MM-DD": a four-digit year, then a two-digit month and day. */
  predicate DateLayout(d: string) {
    |d| == 10 && AllDigits(d[0..4]) && d[4] == '-' && AllDigits(d[5..7]) && d[7] == '-' && AllDigits(d[8..10])
  }

  /** t is "HH:MM:SS", every field two digits wide. */
  predicate TimeLayout(t: string) {
    |t| == 8 && AllDigits(t[0..2]) && t[2] == ':' && AllDigits(t[3..5]) && t[5] == ':' && AllDigits(t[6..8])
  }

  /** s starts with "YYYY-MM-DD HH:MM:SS". */
  predicate Layout(s: string) {
    |s| >= 19 && DateLayout(s[..10]) && s[10] == ' ' && TimeLayout(s[11..19])
  }

  /** The hour field of a text with the layout, as written. */
  function HourField(s: string): nat
    requires Layout(s)
  {
    DigitsValue(s[11..19][0..2])
  }

  /** The date-time the fields of s spell, with the given 24-hour clock hour. */
  function Fields(s: string, hour: int): DateTime
    requires Layout(s)
  {
    var d, t := s[..10], s[11..19];
    DateTime(DigitsValue(d[0..4]), DigitsValue(d[5..7]), DigitsValue(d[8..10]),
             hour, DigitsValue(t[3..5]), DigitsValue(t[6..8]))
  }

  /** `datetime.strptime(s, '%Y-%m-%d %H:%M:%S')`; None stands for the ValueError. */
  function Parse24(s: string): Option<DateTime> {
    if |s| == 19 && Layout(s) && Valid(Fields(s, HourField(s))) then Some(Fields(s, HourField(s)))
    else None
  }

  /** The 24-hour clock hour of a 12-hour clock hour (1..12) and its half of
      the day, as `_strptime` converts `%I` with `%p`. */
  function ClockHour(hour12: int, pm: bool): int {
    if pm then (if hour12 == 12 then 12 else hour12 + 12)
    else (if hour12 == 12 then 0 else hour12)
  }

  /** `datetime.strptime(s, '%Y-%m-%d %I:%M:%S%p')`: `%I` accepts 01..12 and
      `%p` matches AM or PM in any letter case. */
  function Parse12(s: string): Option<DateTime> {
    if && |s| == 21 && Layout(s) && s[19] in "aApP" && s[20] in "mM"
       && 1 <= HourField(s) <= 12
       && Valid(Fields(s, ClockHour(HourField(s), s[19] in "pP")))
    then Some(Fields(s, ClockHour(HourField(s), s[19] in "pP")))
    else None
  }

  /** `parse_datetime(s)`: the 12-hour format exactly when s contains a
      lowercase 'm', the 24-hour format otherwise. A result is always a valid
      date-time, and it came from a 21-character text (with a meridiem
      marker) exactly when s holds an 'm'. */
  function ParseDateTime(s: string): (r: Option<DateTime>)
    ensures r.Some? ==> Valid(r.value)
    ensures r.Some? ==> ('m' in s <==> |s| == 21)
  {
    if 'm' in s then Parse12(s) else Parse24(s)
  }

  // ---------------------------------------------------------------------------
  // The texts Python itself writes for a date-time, used as partners of the parser.

  /** `str(dt)` / `dt.strftime('%Y-%m-%d %H:%M:%S')` for a valid dt. */
  function Format24(dt: DateTime): string
    requires Valid(dt)
  {
    Stamp(dt, dt.hour)
  }

  /** The 12-hour clock hour of a 24-hour clock hour. */
  function Hour12(hour: int): int {
    if hour % 12 == 0 then 12 else hour % 12
  }

  /** `dt.strftime('%Y-%m-%d %I:%M:%S%p')`, with the marker in upper case as
      `strftime` writes it, or in lower case. */
  function Format12(dt: DateTime, upperMarker: bool): string
    requires Valid(dt)
  {
    Stamp(dt, Hour12(dt.hour)) + Marker(dt.hour, upperMarker)
  }

  /** The `%p` text for an hour of the day. */
  function Marker(hour: int, upper: bool): string {
    if hour < 12 then (if upper then "AM" else "am") else (if upper then "PM" else "pm")
  }

  /** "YYYY-MM-DD HH:MM:SS" with the given clock hour: all of the 24-hour
      text, and the 12-hour text up to its marker. */
  function Stamp(dt: DateTime, hour: nat): (s: string)
    requires Valid(dt) && hour < 100
    ensures |s| == 19 && Layout(s)
    ensures Fields(s, HourField(s)) == dt.(hour := hour)
    ensures 'm' !in s
  {
    var date := DatePart(dt);
    var time := TimePart(hour, dt.minute, dt.second);
    var s := date + " " + time;
    SlicesOfJoin(date, " ", time);
    s
  }

  /** "YYYY-MM-DD" */
  function DatePart(dt: DateTime): (s: string)
    requires Valid(dt)
    ensures DateLayout(s)
    ensures DigitsValue(s[0..4]) == dt.year && DigitsValue(s[5..7]) == dt.month && DigitsValue(s[8..10]) == dt.day
    ensures 'm' !in s
  {
    var y, mo, d := Pad(dt.year, 4), Pad(dt.month, 2), Pad(dt.day, 2);
    var s := y + "-" + mo + "-" + d;
    assert s[0..4] == y && s[5..7] == mo && s[8..10] == d;
    NoDigit(y, 'm');
    NoDigit(mo, 'm');
    NoDigit(d, 'm');
    s
  }

  /** "HH:MM:SS" */
  function TimePart(hour: nat, minute: int, second: int): (s: string)
    requires hour < 100 && 0 <= minute < 60 && 0 <= second < 60
    ensures TimeLayout(s)
    ensures DigitsValue(s[0..2]) == hour && DigitsValue(s[3..5]) == minute && DigitsValue(s[6..8]) == second
    ensures 'm' !in s
  {
    var h, mi, se := Pad(hour, 2), Pad(minute, 2), Pad(second, 2);
    var s := h + ":" + mi + ":" + se;
    assert s[0..2] == h && s[3..5] == mi && s[6..8] == se;
    NoDigit(h, 'm');
    NoDigit(mi, 'm');
    NoDigit(se, 'm');
    s
  }

  /** The 24-hour text of any valid date-time reads back as that date-time. */
  lemma Format24RoundTrip(dt: DateTime)
    requires Valid(dt)
    ensures ParseDateTime(Format24(dt)) == Some(dt)
  {
  }

  /** Text after the first 19 characters does not change what the layout reads. */
  lemma LayoutExtends(t: string, tail: string)
    requires |t| == 19 && Layout(t)
    ensures Layout(t + tail)
    ensures HourField(t + tail) == HourField(t)
    ensures forall hour :: Fields(t + tail, hour) == Fields(t, hour)
  {
    var s := t + tail;
    assert s[..10] == t[..10] && s[11..19] == t[11..19];
  }

  /** The 12-hour clock hour and its marker give back the 24-hour clock hour. */
  lemma ClockHourOfHour12(hour: int)
    requires 0 <= hour < 24
    ensures 1 <= Hour12(hour) <= 12
    ensures ClockHour(Hour12(hour), hour >= 12) == hour
  {
  }

  /** The 12-hour text with a lowercase marker reads back as the same date-time. */
  lemma Format12LowerRoundTrip(dt: DateTime)
    requires Valid(dt)
    ensures ParseDateTime(Format12(dt, false)) == Some(dt)
  {
    var s := Format12(dt, false);
    Format12Reads(dt);
    assert s[20] == 'm';
  }

  /** The 12-hour format reads the 12-hour text of dt as dt. */
  lemma Format12Reads(dt: DateTime)
    requires Valid(dt)
    ensures |Format12(dt, false)| == 21 && Format12(dt, false)[20] == 'm'
    ensures Parse12(Format12(dt, false)) == Some(dt)
  {
    var t := Stamp(dt, Hour12(dt.hour));
    var marker := Marker(dt.hour, false);
    var s := t + marker;
    LayoutExtends(t, marker);
    ClockHourOfHour12(dt.hour);
    assert s[19] == marker[0] && s[20] == marker[1] == 'm';
    assert (s[19] in "pP") == (dt.hour >= 12);
    assert Fields(s, ClockHour(HourField(s), s[19] in "pP")) == dt;
  }

  /** What `strftime('%Y-%m-%d %I:%M:%S%p')` writes (an uppercase AM or PM)
      holds no lowercase 'm', so `parse_datetime` picks the 24-hour format and
      fails on it. */
  lemma UppercaseMeridiemRejected(dt: DateTime)
    requires Valid(dt)
    ensures ParseDateTime(Format12(dt, true)) == None
  {
    var s := Format12(dt, true);
    assert |s| == 21 && 'm' !in Marker(dt.hour, true);
  }

  // ---------------------------------------------------------------------------
  // The converse: what the parser accepts is a rendering of what it returns.

  /** The date the fields of a laid-out text spell is written back as the
      text's first 10 characters: each field has one fixed-width spelling. */
  lemma DatePartOfFields(s: string, hour: int)
    requires Layout(s) && Valid(Fields(s, hour))
    ensures DatePart(Fields(s, hour)) == s[..10]
  {
    var d := s[..10];
    PadOfDigits(d[0..4]);
    PadOfDigits(d[5..7]);
    PadOfDigits(d[8..10]);
    assert d == d[0..4] + "-" + d[5..7] + "-" + d[8..10];
  }

  /** Likewise the time of day, written with the hour field as it stands. */
  lemma TimePartOfFields(s: string, hour: int)
    requires Layout(s) && Valid(Fields(s, hour))
    ensures HourField(s) < 100
    ensures TimePart(HourField(s), Fields(s, hour).minute, Fields(s, hour).second) == s[11..19]
  {
    var t := s[11..19];
    DigitsBound(t[0..2]);
    PadOfDigits(t[0..2]);
    PadOfDigits(t[3..5]);
    PadOfDigits(t[6..8]);
    assert t == t[0..2] + ":" + t[3..5] + ":" + t[6..8];
  }

  /** The stamp of the date-time the fields of a laid-out text spell, with
      the hour field as it stands, is the text's first 19 characters. */
  lemma StampOfFields(s: string, hour: int)
    requires Layout(s) && Valid(Fields(s, hour))
    ensures HourField(s) < 100
    ensures Stamp(Fields(s, hour), HourField(s)) == s[..19]
  {
    var dt := Fields(s, hour);
    DatePartOfFields(s, hour);
    TimePartOfFields(s, hour);
    StampParts(dt, HourField(s));
    LayoutParts(s);
  }

  /** The stamp is the date, a space and the time. */
  lemma StampParts(dt: DateTime, h: nat)
    requires Valid(dt) && h < 100
    ensures Stamp(dt, h) == DatePart(dt) + " " + TimePart(h, dt.minute, dt.second)
  {
  }

  /** The first 19 characters of a laid-out text are its date, a space and its time. */
  lemma LayoutParts(s: string)
    requires Layout(s)
    ensures s[..19] == s[..10] + " " + s[11..19]
  {
    assert s[..19] == s[..10] + [s[10]] + s[11..19];
  }

  /** A 12-hour clock hour read with its marker and written back as a
      12-hour clock hour is the same hour. */
  lemma Hour12OfClockHour(hour12: int, pm: bool)
    requires 1 <= hour12 <= 12
    ensures Hour12(ClockHour(hour12, pm)) == hour12
    ensures ClockHour(hour12, pm) >= 12 <==> pm
  {
  }

  /** The text with its a/p letter in lower case: `%p` reads either case. */
  function LowerMeridiem(s: string): (t: string)
    ensures |t| == |s|
  {
    if |s| == 21 && s[19] == 'A' then s[19 := 'a']
    else if |s| == 21 && s[19] == 'P' then s[19 := 'p']
    else s
  }

  /** s is a rendering of the date-time dt in the format `parse_datetime`
      chooses for it: the 24-hour text when s holds no 'm', else the 12-hour
      text with a lowercase marker, up to the case of its a/p letter. */
  ghost predicate Renders(s: string, dt: DateTime) {
    Valid(dt) && (if 'm' in s then LowerMeridiem(s) == Format12(dt, false) else s == Format24(dt))
  }

  /** A text the 24-hour format accepts is the 24-hour text of its date-time. */
  lemma Parse24Renders(s: string)
    requires Parse24(s).Some?
    ensures s == Format24(Parse24(s).value)
  {
    StampOfFields(s, HourField(s));
    assert s == s[..19];
  }

  /** A text the 12-hour format accepts, with a lowercase 'm', is the
      12-hour text of its date-time up to the case of its a/p letter. */
  lemma Parse12Renders(s: string)
    requires Parse12(s).Some? && 'm' in s
    ensures LowerMeridiem(s) == Format12(Parse12(s).value, false)
  {
    var h := HourField(s);
    var pm := s[19] in "pP";
    var dt := Fields(s, ClockHour(h, pm));
    StampOfFields(s, ClockHour(h, pm));
    Hour12OfClockHour(h, pm);
    assert Stamp(dt, Hour12(dt.hour)) == s[..19];
    MeridiemParts(s);
    assert Marker(dt.hour, false) == if pm then "pm" else "am";
  }

  /** A 21-character text whose 'm' is not among its first 19 characters
      ends in its a/p letter and a lowercase 'm'. */
  lemma MeridiemParts(s: string)
    requires |s| == 21 && s[19] in "aApP" && 'm' in s && 'm' !in s[..19]
    ensures LowerMeridiem(s) == s[..19] + (if s[19] in "pP" then "pm" else "am")
  {
    assert s == s[..19] + [s[19], s[20]];
    assert s[20] == 'm';
  }

  /** A text `parse_datetime` accepts is a rendering of the date-time it returns. */
  lemma ParsedIsRendered(s: string)
    requires ParseDateTime(s).Some?
    ensures Renders(s, ParseDateTime(s).value)
  {
    if 'm' in s {
      Parse12Renders(s);
    } else {
      Parse24Renders(s);
    }
  }

  /** Lowering the a/p letter does not change what `parse_datetime` reads. */
  lemma LowerMeridiemParses(s: string)
    requires 'm' in s
    ensures 'm' in LowerMeridiem(s)
    ensures ParseDateTime(LowerMeridiem(s)) == ParseDateTime(s)
  {
    var t := LowerMeridiem(s);
    if t != s {
      assert t[..19] == s[..19] && t[20] == s[20];
      assert t[..10] == s[..10] && t[11..19] == s[11..19];
      var i :| 0 <= i < |s| && s[i] == 'm';
      assert t[i] == 'm';
    }
  }

  /** `parse_datetime` returns dt exactly when the text is a rendering of
      dt, so it rejects exactly the texts that render no valid date-time. */
  lemma ParseDateTimeIff(s: string, dt: DateTime)
    ensures ParseDateTime(s) == Some(dt) <==> Renders(s, dt)
  {
    if ParseDateTime(s) == Some(dt) {
      ParsedIsRendered(s);
    }
    if Renders(s, dt) {
      if 'm' in s {
        LowerMeridiemParses(s);
        Format12LowerRoundTrip(dt);
      } else {
        Format24RoundTrip(dt);
      }
    }
  }

  /** `parse_datetime` raises its ValueError exactly when the text renders no date-time. */
  lemma RejectedIff(s: string)
    ensures ParseDateTime(s).None? <==> forall dt :: !Renders(s, dt)
  {
    if ParseDateTime(s).Some? {
      ParsedIsRendered(s);
    }
    forall dt | Renders(s, dt)
      ensures ParseDateTime(s).Some?
    {
      ParseDateTimeIff(s, dt);
    }
  }
}
