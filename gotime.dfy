/**
 * Go's `time.Time` as the server uses it: an instant with whole Unix seconds and
 * nanoseconds, shown in UTC, and the two layouts the core formats with.
 */
module GoTime {
  import opened Strconv
  import opened Calendar

  const SecondsPerDay := 86400

  type Nanos = n: int | 0 <= n < 1_000_000_000

  /** An instant: seconds since 1970-01-01T00:00:00Z and the nanoseconds within that second. */
  datatype Time = Time(sec: int, nsec: Nanos)

  /** Go's zero `time.Time`, January 1 of year 1, 00:00:00 UTC. */
  const ZeroTime := Time(-62135596800, 0)

  /** time.Unix(sec, 0). */
  function Unix(sec: int): Time {
    Time(sec, 0)
  }

  /** Time.Before: strictly earlier. */
  predicate Before(a: Time, b: Time) {
    a.sec < b.sec || (a.sec == b.sec && a.nsec < b.nsec)
  }

  /**
   * Before orders instants strictly and totally: never an instant before itself, transitive,
   * and of two different instants exactly one is before the other.
   */
  lemma BeforeOrder(a: Time, b: Time, c: Time)
    ensures !Before(a, a)
    ensures Before(a, b) && Before(b, c) ==> Before(a, c)
    ensures a != b <==> (Before(a, b) != Before(b, a))
  {
  }

  datatype Clock = Clock(hour: int, minute: int, second: int)

  predicate ValidClock(c: Clock) {
    0 <= c.hour < 24 && 0 <= c.minute < 60 && 0 <= c.second < 60
  }

  /** The day number (days since 1970-01-01) of an instant, in UTC. */
  function DayNumber(t: Time): int {
    t.sec / SecondsPerDay
  }

  /** Time.Date in UTC. */
  function DateOf(t: Time): (d: Date)
    ensures Valid(d)
  {
    CivilFromDays(DayNumber(t))
  }

  /** Time.Clock in UTC. */
  function ClockOf(t: Time): (c: Clock)
    ensures ValidClock(c)
  {
    var s := t.sec % SecondsPerDay;
    Clock(s / 3600, s % 3600 / 60, s % 60)
  }

  /** Time.Weekday in UTC: 0 is Sunday; 1970-01-01 was a Thursday. */
  function WeekdayOf(t: Time): (w: int)
    ensures 0 <= w < 7
  {
    (DayNumber(t) + 4) % 7
  }

  /** The Unix second of a civil date and clock in UTC (time.Date's arithmetic). */
  function SecondsFromCivil(d: Date, c: Clock): int
    requires 1 <= d.month <= 12
  {
    DaysFromCivil(d) * SecondsPerDay + c.hour * 3600 + c.minute * 60 + c.second
  }

  /** Reading an instant's date and clock back gives its Unix second. */
  lemma CivilRoundTrip(t: Time)
    ensures SecondsFromCivil(DateOf(t), ClockOf(t)) == t.sec
  {
    var s := t.sec % SecondsPerDay;
    assert s == (s / 3600) * 3600 + (s % 3600 / 60) * 60 + s % 60;
  }

  /**
   * Time.AddDate(0, 0, days) in UTC: the date's day field moves by `days`, time.Date
   * normalises it, and the clock and nanoseconds stay.
   */
  function AddDays(t: Time, days: int): (r: Time)
    ensures r.sec == t.sec + days * SecondsPerDay && r.nsec == t.nsec
  {
    var d := DateOf(t);
    CivilRoundTrip(t);
    Time(SecondsFromCivil(Date(d.year, d.month, d.day + days), ClockOf(t)), t.nsec)
  }

  // ---------------------------------------------------------------------------------------
  // Layouts

  const ShortDayNames: seq<string> := ["Sun", "Mon", "Tue", "Wed", "Thu", "Fri", "Sat"]
  const ShortMonthNames: seq<string> :=
    ["Jan", "Feb", "Mar", "Apr", "May", "Jun", "Jul", "Aug", "Sep", "Oct", "Nov", "Dec"]

  /** A two-digit field ("02", "15", "04", "05" in a layout). */
  function TwoDigits(n: int): (s: string)
    requires 0 <= n < 100
    ensures |s| == 2 && AllDigits(s) && DigitsValue(s) == n
  {
    FixedDigits(n, 2)
  }

  /** The "2006" field: at least four digits, with a '-' before negative years. */
  function YearText(year: int): string {
    PaddedDecimal(year, 4)
  }

  /** Time.Format(time.RFC3339) in UTC: "2006-01-02T15:04:05Z07:00", whose zone is "Z". */
  function FormatRFC3339(t: Time): (r: string)
    ensures |r| >= 20 && r[|r| - 10] == 'T' && r[|r| - 7] == ':' && r[|r| - 4] == ':' && r[|r| - 1] == 'Z'
  {
    var d := DateOf(t);
    var c := ClockOf(t);
    YearText(d.year) + "-" + TwoDigits(d.month) + "-" + TwoDigits(d.day)
      + "T" + TwoDigits(c.hour) + ":" + TwoDigits(c.minute) + ":" + TwoDigits(c.second) + "Z"
  }

  /** Time.Format("Mon, 02 Jan 2006 15:04:05") in UTC. */
  function FormatDayLayout(t: Time): (r: string)
    ensures |r| >= 25 && r[|r| - 9] == ' ' && r[|r| - 6] == ':' && r[|r| - 3] == ':'
  {
    DayLayoutText(WeekdayOf(t), DateOf(t), ClockOf(t))
  }

  function DayLayoutText(weekday: int, d: Date, c: Clock): (r: string)
    requires 0 <= weekday < 7 && Valid(d) && ValidClock(c)
    ensures |r| >= 25 && r[|r| - 9] == ' ' && r[|r| - 6] == ':' && r[|r| - 3] == ':'
  {
    var date := ShortDayNames[weekday] + ", " + TwoDigits(d.day) + " " + ShortMonthNames[d.month - 1]
                + " " + YearText(d.year);
    var clock := " " + TwoDigits(c.hour) + ":" + TwoDigits(c.minute) + ":" + TwoDigits(c.second);
    assert |clock| == 9 && clock[0] == ' ' && clock[3] == ':' && clock[6] == ':';
    date + clock
  }

  /** For the years 0 to 9999 the year field is exactly four digits with the year's value. */
  lemma YearTextFourDigits(year: int)
    requires 0 <= year <= 9999
    ensures YearText(year) == FixedDigits(year, 4)
    ensures |YearText(year)| == 4 && AllDigits(YearText(year)) && DigitsValue(YearText(year)) == year
  {
    assert Pow10(4) == 10000;
    DigitCountAtMost(year, 4);
    assert Pow10(4) == 10000;
  }
}
