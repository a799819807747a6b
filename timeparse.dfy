/**
 * Reference parsers for the two textual forms the core writes: an RFC 3339 date-time
 * (section 5.6 of RFC 3339) and the "Mon, 02 Jan 2006 15:04:05" layout, both read as UTC
 * Unix seconds. They are the inverses against which the formatters are checked.
 */
module TimeParse {
  import opened Common
  import opened Strconv
  import opened Calendar
  import opened GoTime

  /** The value of the `w` digits at position `i`, if they are all digits. */
  function Field(s: string, i: nat, w: nat): (r: Option<nat>)
    requires i + w <= |s|
    ensures r.Some? <==> AllDigits(s[i..i + w])
  {
    if AllDigits(s[i..i + w]) then Some(DigitsValue(s[i..i + w])) else None
  }

  /** The number of digits at the start of `s`. */
  function LeadingDigits(s: string): (n: nat)
    ensures n <= |s| && AllDigits(s[..n])
    ensures n < |s| ==> !IsDigit(s[n])
  {
    if s == [] || !IsDigit(s[0]) then 0
    else
      var n := 1 + LeadingDigits(s[1..]);
      assert forall i :: 1 <= i < n ==> s[..n][i] == s[1..][..n - 1][i - 1];
      n
  }

  /** time-secfrac = "." 1*DIGIT is optional; gives the text after it. */
  function SkipFraction(s: string): Option<string> {
    if |s| > 0 && s[0] == '.' then
      var n := LeadingDigits(s[1..]);
      if n == 0 then None else Some(s[1 + n..])
    else Some(s)
  }

  /** time-offset = "Z" / ("+" / "-") time-hour ":" time-minute, as seconds east of UTC. */
  function ZoneOffset(s: string): Option<int> {
    if s == "Z" || s == "z" then Some(0)
    else if |s| == 6 && (s[0] == '+' || s[0] == '-') && s[3] == ':' then
      var hour :- Field(s, 1, 2);
      var minute :- Field(s, 4, 2);
      if hour <= 23 && minute <= 59 then
        Some((if s[0] == '-' then -1 else 1) * (hour * 3600 + minute * 60))
      else None
    else None
  }

  /**
   * date-time = full-date ("T" / "t") partial-time time-offset, with full-date =
   * YYYY "-" MM "-" DD and partial-time = hh ":" mm ":" ss [time-secfrac]; the month, the
   * day within that month and the clock fields must be in range (a leap second "60" is
   * refused, as Go's own parser refuses it). The fraction is validated and dropped.
   */
  function ParseRFC3339(s: string): Option<int> {
    if |s| < 20 || s[4] != '-' || s[7] != '-' || (s[10] != 'T' && s[10] != 't')
       || s[13] != ':' || s[16] != ':' then None
    else
      var year, month, day := Field(s, 0, 4), Field(s, 5, 2), Field(s, 8, 2);
      var hour, minute, second := Field(s, 11, 2), Field(s, 14, 2), Field(s, 17, 2);
      var zone := SkipFraction(s[19..]);
      var offset := if zone.Some? then ZoneOffset(zone.value) else None;
      if year.None? || month.None? || day.None? || hour.None? || minute.None? || second.None? || offset.None? then None
      else
        var local := CivilSeconds(year.value, month.value, day.value, hour.value, minute.value, second.value);
        if local.None? then None else Some(local.value - offset.value)
  }

  /** The Unix second of a date and clock given field by field, when they are in range. */
  function CivilSeconds(year: int, month: int, day: int, hour: int, minute: int, second: int): (r: Option<int>)
    ensures r.Some? <==> Valid(Date(year, month, day)) && ValidClock(Clock(hour, minute, second))
  {
    if 1 <= month <= 12 && 1 <= day <= DaysInMonth(year, month) && ValidClock(Clock(hour, minute, second)) then
      Some(SecondsFromCivil(Date(year, month, day), Clock(hour, minute, second)))
    else None
  }

  /** The first position of `name` in `names`. */
  function IndexOf(names: seq<string>, name: string): (r: Option<nat>)
    ensures r.Some? ==> r.value < |names| && names[r.value] == name
    ensures name in names ==> r.Some?
  {
    if names == [] then None
    else if names[0] == name then Some(0)
    else match IndexOf(names[1..], name)
      case None => None
      case Some(i) => Some(i + 1)
  }

  /** "Mon, 02 Jan 2006 15:04:05" with a four-digit year; the weekday name is checked, not its value. */
  function ParseDayLayout(s: string): Option<int> {
    if |s| != 25 || s[3] != ',' || s[4] != ' ' || s[7] != ' ' || s[11] != ' ' || s[16] != ' '
       || s[19] != ':' || s[22] != ':' then None
    else
      var weekday, month := IndexOf(ShortDayNames, s[..3]), IndexOf(ShortMonthNames, s[8..11]);
      var day, year := Field(s, 5, 2), Field(s, 12, 4);
      var hour, minute, second := Field(s, 17, 2), Field(s, 20, 2), Field(s, 23, 2);
      if weekday.None? || month.None? || day.None? || year.None? || hour.None? || minute.None? || second.None? then None
      else CivilSeconds(year.value, month.value + 1, day.value, hour.value, minute.value, second.value)
  }

  /** 0000-01-01T00:00:00Z and 9999-12-31T23:59:59Z as Unix seconds. */
  const FirstFourDigitSecond := -62167219200
  const LastFourDigitSecond := 253402300799

  /**
   * Instants whose year an RFC 3339 full-date can hold (date-fullyear = 4DIGIT), as a range
   * of Unix seconds; FourDigitYearIsYearRange shows it is the years 0 to 9999.
   */
  predicate FourDigitYear(t: Time) {
    FirstFourDigitSecond <= t.sec <= LastFourDigitSecond
  }

  /** An instant lies in the four-digit range exactly when its UTC year is 0 to 9999. */
  lemma FourDigitYearIsYearRange(t: Time)
    ensures FourDigitYear(t) <==> 0 <= DateOf(t).year <= 9999
  {
    var d, n := DateOf(t), DayNumber(t);
    CivilRoundTrip(t);
    assert DaysFromCivil(d) == n;
    DayOfYearBounds(d);
    DaysBeforeYearStep(d.year);
    assert DaysBeforeYear(0) == -366 && DaysBeforeYear(10000) == 3652059;
    if d.year < 0 {
      DaysBeforeYearMonotone(d.year, 0);
    } else if d.year > 9999 {
      DaysBeforeYearMonotone(9999, d.year);
      DaysBeforeYearStep(9999);
    } else {
      if 0 < d.year {
        DaysBeforeYearMonotone(0, d.year);
        DaysBeforeYearStep(0);
      }
      if d.year < 9999 {
        DaysBeforeYearMonotone(d.year + 1, 10000);
      }
    }
  }

  /** ParseRFC3339 reads the fields of a 20-character "Z" text at their fixed positions. */
  lemma ParseRFC3339Fields(s: string, d: Date, c: Clock)
    requires |s| == 20 && s[4] == '-' && s[7] == '-' && s[10] == 'T' && s[13] == ':' && s[16] == ':'
    requires s[19..] == "Z"
    requires Valid(d) && ValidClock(c)
    requires Field(s, 0, 4) == Some(d.year) && Field(s, 5, 2) == Some(d.month) && Field(s, 8, 2) == Some(d.day)
    requires Field(s, 11, 2) == Some(c.hour) && Field(s, 14, 2) == Some(c.minute) && Field(s, 17, 2) == Some(c.second)
    ensures ParseRFC3339(s) == Some(SecondsFromCivil(d, c))
  {
    assert SkipFraction(s[19..]) == Some("Z");
    assert ZoneOffset("Z") == Some(0);
    assert CivilSeconds(d.year, d.month, d.day, c.hour, c.minute, c.second) == Some(SecondsFromCivil(d, c));
  }

  lemma RFC3339Slices(y: string, mo: string, da: string, h: string, mi: string, se: string)
    requires |y| == 4 && |mo| == 2 && |da| == 2 && |h| == 2 && |mi| == 2 && |se| == 2
    ensures var s := y + "-" + mo + "-" + da + "T" + h + ":" + mi + ":" + se + "Z";
            && |s| == 20 && s[4] == '-' && s[7] == '-' && s[10] == 'T' && s[13] == ':' && s[16] == ':'
            && s[0..4] == y && s[5..7] == mo && s[8..10] == da
            && s[11..13] == h && s[14..16] == mi && s[17..19] == se && s[19..] == "Z"
  {
    var s := y + "-" + mo + "-" + da + "T" + h + ":" + mi + ":" + se + "Z";
    var head := y + "-" + mo + "-" + da;
    var tail := "T" + h + ":" + mi + ":" + se + "Z";
    assert s == head + tail;
    assert |head| == 10 && |tail| == 10;
    assert head[..4] == y && head[5..7] == mo && head[8..10] == da && head[4] == '-' && head[7] == '-';
    assert tail[1..3] == h && tail[4..6] == mi && tail[7..9] == se && tail[9..] == "Z";
    assert tail[0] == 'T' && tail[3] == ':' && tail[6] == ':';
    SliceOfConcat(head, tail, 0, 4);
    SliceOfConcat(head, tail, 5, 7);
    SliceOfConcat(head, tail, 8, 10);
    SliceOfConcat(head, tail, 1, 3);
    SliceOfConcat(head, tail, 4, 6);
    SliceOfConcat(head, tail, 7, 9);
    SliceOfConcat(head, tail, 9, 10);
  }

  /**
   * Formatting an instant as RFC 3339 and parsing it back gives its Unix second, for every
   * instant whose year has four digits.
   */
  lemma RFC3339RoundTrip(t: Time)
    requires FourDigitYear(t)
    ensures |FormatRFC3339(t)| == 20
    ensures ParseRFC3339(FormatRFC3339(t)) == Some(t.sec)
  {
    FourDigitYearIsYearRange(t);
    var d := DateOf(t);
    var c := ClockOf(t);
    YearTextFourDigits(d.year);
    var y, mo, da := YearText(d.year), TwoDigits(d.month), TwoDigits(d.day);
    var h, mi, se := TwoDigits(c.hour), TwoDigits(c.minute), TwoDigits(c.second);
    var s := FormatRFC3339(t);
    assert s == y + "-" + mo + "-" + da + "T" + h + ":" + mi + ":" + se + "Z";
    RFC3339Slices(y, mo, da, h, mi, se);
    ParseRFC3339Fields(s, d, c);
    CivilRoundTrip(t);
  }

  lemma MonthNamesDistinct(i: nat, j: nat)
    requires i < 12 && j < 12 && ShortMonthNames[i] == ShortMonthNames[j]
    ensures i == j
  {
  }

  /** ParseDayLayout reads the fields at their fixed positions. */
  lemma ParseDayLayoutFields(s: string, d: Date, c: Clock)
    requires |s| == 25 && s[3] == ',' && s[4] == ' ' && s[7] == ' ' && s[11] == ' ' && s[16] == ' '
    requires s[19] == ':' && s[22] == ':'
    requires IndexOf(ShortDayNames, s[..3]).Some?
    requires Valid(d) && ValidClock(c)
    requires IndexOf(ShortMonthNames, s[8..11]) == Some(d.month - 1)
    requires Field(s, 5, 2) == Some(d.day) && Field(s, 12, 4) == Some(d.year)
    requires Field(s, 17, 2) == Some(c.hour) && Field(s, 20, 2) == Some(c.minute) && Field(s, 23, 2) == Some(c.second)
    ensures ParseDayLayout(s) == Some(SecondsFromCivil(d, c))
  {
    assert CivilSeconds(d.year, d.month, d.day, c.hour, c.minute, c.second) == Some(SecondsFromCivil(d, c));
  }

  /** Slices of a concatenation that fall inside one of its two parts. */
  lemma SliceOfConcat(a: string, b: string, i: nat, j: nat)
    ensures i <= j <= |a| ==> (a + b)[i..j] == a[i..j]
    ensures i <= j <= |b| ==> (a + b)[|a| + i..|a| + j] == b[i..j]
  {
    if i <= j <= |a| {
      assert forall k :: i <= k < j ==> (a + b)[k] == a[k];
    }
    if i <= j <= |b| {
      assert forall k :: i <= k < j ==> (a + b)[|a| + k] == b[k];
    }
  }

  lemma DayLayoutSlices(wd: string, da: string, mn: string, y: string, h: string, mi: string, se: string)
    requires |wd| == 3 && |mn| == 3 && |y| >= 4 && |da| == 2 && |h| == 2 && |mi| == 2 && |se| == 2
    ensures var s := wd + ", " + da + " " + mn + " " + y + " " + h + ":" + mi + ":" + se;
            && |s| == 21 + |y| && s[..3] == wd && s[3..5] == ", "
            && (|y| == 4 ==>
                 && s[3] == ',' && s[4] == ' ' && s[7] == ' ' && s[11] == ' ' && s[16] == ' '
                 && s[19] == ':' && s[22] == ':'
                 && s[5..7] == da && s[8..11] == mn && s[12..16] == y
                 && s[17..19] == h && s[20..22] == mi && s[23..25] == se)
  {
    var s := wd + ", " + da + " " + mn + " " + y + " " + h + ":" + mi + ":" + se;
    var head := wd + ", " + da + " " + mn + " ";
    var tail := y + " " + h + ":" + mi + ":" + se;
    assert s == head + tail;
    DayLayoutHead(wd, da, mn);
    SliceOfConcat(head, tail, 0, 3);
    SliceOfConcat(head, tail, 3, 5);
    if |y| == 4 {
      DayLayoutTail(y, h, mi, se);
      SliceOfConcat(head, tail, 5, 7);
      SliceOfConcat(head, tail, 8, 11);
      SliceOfConcat(head, tail, 0, 4);
      SliceOfConcat(head, tail, 8, 10);
      SliceOfConcat(head, tail, 11, 13);
    }
  }

  /** The weekday, day and month part of the layout, up to the space before the year. */
  lemma DayLayoutHead(wd: string, da: string, mn: string)
    requires |wd| == 3 && |mn| == 3 && |da| == 2
    ensures var head := wd + ", " + da + " " + mn + " ";
            && |head| == 12 && head[..3] == wd && head[3..5] == ", " && head[5..7] == da && head[8..11] == mn
            && head[3] == ',' && head[4] == ' ' && head[7] == ' ' && head[11] == ' '
  {
  }

  /** The year and clock part of the layout, for a four-character year. */
  lemma DayLayoutTail(y: string, h: string, mi: string, se: string)
    requires |y| == 4 && |h| == 2 && |mi| == 2 && |se| == 2
    ensures var tail := y + " " + h + ":" + mi + ":" + se;
            && |tail| == 13 && tail[..4] == y && tail[5..7] == h && tail[8..10] == mi && tail[11..13] == se
            && tail[4] == ' ' && tail[7] == ':' && tail[10] == ':'
  {
  }

  /** Whatever the year, the layout starts with the weekday name and ", ". */
  lemma DayLayoutShape(t: Time)
    ensures var s := FormatDayLayout(t);
            |s| >= 25 && s[..3] == ShortDayNames[WeekdayOf(t)] && s[3..5] == ", "
  {
    var d, c := DateOf(t), ClockOf(t);
    DayLayoutSlices(ShortDayNames[WeekdayOf(t)], TwoDigits(d.day), ShortMonthNames[d.month - 1], YearText(d.year),
                    TwoDigits(c.hour), TwoDigits(c.minute), TwoDigits(c.second));
  }

  lemma DayLayoutTextParses(weekday: int, d: Date, c: Clock)
    requires 0 <= weekday < 7 && Valid(d) && ValidClock(c) && 0 <= d.year <= 9999
    ensures |DayLayoutText(weekday, d, c)| == 25
    ensures ParseDayLayout(DayLayoutText(weekday, d, c)) == Some(SecondsFromCivil(d, c))
  {
    YearTextFourDigits(d.year);
    var wd, mn := ShortDayNames[weekday], ShortMonthNames[d.month - 1];
    var y, da := YearText(d.year), TwoDigits(d.day);
    var h, mi, se := TwoDigits(c.hour), TwoDigits(c.minute), TwoDigits(c.second);
    assert |wd| == 3 && |mn| == 3;
    DayLayoutSlices(wd, da, mn, y, h, mi, se);
    var s := DayLayoutText(weekday, d, c);
    assert s == wd + ", " + da + " " + mn + " " + y + " " + h + ":" + mi + ":" + se;
    var k := IndexOf(ShortMonthNames, mn);
    MonthNamesDistinct(k.value, d.month - 1);
    assert IndexOf(ShortDayNames, wd).Some?;
    ParseDayLayoutFields(s, d, c);
  }

  /**
   * Formatting an instant in the "Mon, 02 Jan 2006 15:04:05" layout and parsing it back
   * gives its Unix second, for every instant whose year has four digits.
   */
  lemma DayLayoutRoundTrip(t: Time)
    requires FourDigitYear(t)
    ensures |FormatDayLayout(t)| == 25
    ensures ParseDayLayout(FormatDayLayout(t)) == Some(t.sec)
  {
    FourDigitYearIsYearRange(t);
    DayLayoutTextParses(WeekdayOf(t), DateOf(t), ClockOf(t));
    CivilRoundTrip(t);
  }
}
