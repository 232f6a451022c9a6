/** Naive UTC timestamps as whole seconds since 1970-01-01T00:00:00, the
    calendar fields Python's datetime derives from them, and the ISO-8601
    text that datetime.utcfromtimestamp(t).isoformat() produces. */
module Timestamps {
  import opened Common
  import Text

  type Timestamp = int

  /** datetime.combine(day, time(hour, minute)) for a day counted from
      1970-01-01. */
  function Combine(day: int, hour: int, minute: int): Timestamp {
    day * 86400 + hour * 3600 + minute * 60
  }

  /** The day a timestamp falls on, counted from 1970-01-01 (floor division,
      as datetime does for instants before 1970 as well). */
  function DayOf(t: Timestamp): int {
    t / 86400
  }

  /** datetime.hour */
  function HourOf(t: Timestamp): (h: int)
    ensures 0 <= h < 24
  {
    (t % 86400) / 3600
  }

  /** datetime.minute */
  function MinuteOf(t: Timestamp): (m: int)
    ensures 0 <= m < 60
  {
    (t % 3600) / 60
  }

  /** datetime.second */
  function SecondOf(t: Timestamp): (s: int)
    ensures 0 <= s < 60
  {
    t % 60
  }

  /** datetime.weekday(): Monday is 0; 1970-01-01 was a Thursday (3). */
  function WeekdayOf(t: Timestamp): (w: int)
    ensures 0 <= w < 7
  {
    (DayOf(t) + 3) % 7
  }

  lemma MulAtLeast(a: int, k: int)
    requires a >= 1 && k > 0
    ensures a * k >= k
  {
    if a > 1 {
      MulAtLeast(a - 1, k);
      assert a * k == (a - 1) * k + k;
    }
  }

  /** Euclidean division is unique: q * k + r with 0 <= r < k splits back
      into q and r. */
  lemma MulDivMod(q: int, k: int, r: int)
    requires 0 < k && 0 <= r < k
    ensures (q * k + r) / k == q && (q * k + r) % k == r
  {
    var n := q * k + r;
    var q', r' := n / k, n % k;
    assert n == q' * k + r';
    assert (q - q') * k == r' - r by {
      assert (q - q') * k == q * k - q' * k;
    }
    if q' < q {
      MulAtLeast(q - q', k);
    } else if q' > q {
      MulAtLeast(q' - q, k);
    }
  }

  /** Combine is inverted by the field accessors. */
  lemma CombineFields(day: int, hour: int, minute: int)
    requires 0 <= hour < 24 && 0 <= minute < 60
    ensures DayOf(Combine(day, hour, minute)) == day
    ensures HourOf(Combine(day, hour, minute)) == hour
    ensures MinuteOf(Combine(day, hour, minute)) == minute
    ensures SecondOf(Combine(day, hour, minute)) == 0
  {
    var t := Combine(day, hour, minute);
    var x := hour * 3600 + minute * 60;
    MulDivMod(day, 86400, x);
    MulDivMod(hour, 3600, minute * 60);
    assert t == (day * 24 + hour) * 3600 + minute * 60;
    MulDivMod(day * 24 + hour, 3600, minute * 60);
    MulDivMod(minute, 60, 0);
    assert t == (day * 1440 + hour * 60 + minute) * 60 + 0;
    MulDivMod(day * 1440 + hour * 60 + minute, 60, 0);
  }

  // ---------------------------------------------------------------------
  // Proleptic Gregorian calendar

  predicate IsLeap(y: int) {
    y % 4 == 0 && (y % 100 != 0 || y % 400 == 0)
  }

  function DaysInYear(y: int): int {
    if IsLeap(y) then 366 else 365
  }

  function DaysInMonth(y: int, m: int): (n: int)
    requires 1 <= m <= 12
    ensures 28 <= n <= 31
  {
    if m == 2 then (if IsLeap(y) then 29 else 28)
    else if m == 4 || m == 6 || m == 9 || m == 11 then 30
    else 31
  }

  /** Days in months 1 .. m-1 of year y. */
  function DaysBeforeMonth(y: int, m: int): int
    requires 1 <= m <= 13
  {
    if m == 1 then 0 else DaysBeforeMonth(y, m - 1) + DaysInMonth(y, m - 1)
  }

  lemma DaysBeforeMonthYear(y: int)
    ensures DaysBeforeMonth(y, 13) == DaysInYear(y)
  {
    var feb := DaysInMonth(y, 2);
    assert DaysBeforeMonth(y, 2) == 31;
    assert DaysBeforeMonth(y, 3) == 31 + feb;
    assert DaysBeforeMonth(y, 4) == 62 + feb;
    assert DaysBeforeMonth(y, 5) == 92 + feb;
    assert DaysBeforeMonth(y, 6) == 123 + feb;
    assert DaysBeforeMonth(y, 7) == 153 + feb;
    assert DaysBeforeMonth(y, 8) == 184 + feb;
    assert DaysBeforeMonth(y, 9) == 215 + feb;
    assert DaysBeforeMonth(y, 10) == 245 + feb;
    assert DaysBeforeMonth(y, 11) == 276 + feb;
    assert DaysBeforeMonth(y, 12) == 306 + feb;
    assert DaysBeforeMonth(y, 13) == 337 + feb;
  }

  /** Days from 1970-01-01 to January 1st of year y (negative before 1970). */
  function DaysBeforeYear(y: int): int
    decreases if y < 1970 then 1970 - y else y - 1970
  {
    if y == 1970 then 0
    else if y > 1970 then DaysBeforeYear(y - 1) + DaysInYear(y - 1)
    else DaysBeforeYear(y + 1) - DaysInYear(y)
  }

  lemma DaysBeforeNextYear(y: int)
    ensures DaysBeforeYear(y + 1) == DaysBeforeYear(y) + DaysInYear(y)
  {
  }

  datatype Date = Date(year: int, month: int, day: int)

  predicate ValidDate(d: Date) {
    1 <= d.month <= 12 && 1 <= d.day <= DaysInMonth(d.year, d.month)
  }

  /** The day number of a date, counted from 1970-01-01: the reference
      definition CivilFromDays is checked against. */
  function DaysFromCivil(d: Date): int
    requires ValidDate(d)
  {
    DaysBeforeYear(d.year) + DaysBeforeMonth(d.year, d.month) + d.day - 1
  }

  /** Splits an offset n from January 1st of year y into a year and the
      offset of the day inside it. */
  function YearSplit(n: int, y: int): (r: (int, int))
    ensures 0 <= r.1 < DaysInYear(r.0)
    ensures DaysBeforeYear(r.0) + r.1 == DaysBeforeYear(y) + n
    decreases n < 0, if n < 0 then -n else n
  {
    if n < 0 then
      DaysBeforeNextYear(y - 1);
      YearSplit(n + DaysInYear(y - 1), y - 1)
    else if n >= DaysInYear(y) then
      DaysBeforeNextYear(y);
      YearSplit(n - DaysInYear(y), y + 1)
    else (y, n)
  }

  /** Splits the offset k of a day from the first of month m into a month
      and a day of that month. */
  function MonthSplit(y: int, m: int, k: int): (r: (int, int))
    requires 1 <= m <= 12 && 0 <= k < DaysBeforeMonth(y, 13) - DaysBeforeMonth(y, m)
    ensures m <= r.0 <= 12 && 1 <= r.1 <= DaysInMonth(y, r.0)
    ensures DaysBeforeMonth(y, r.0) + r.1 - 1 == DaysBeforeMonth(y, m) + k
    decreases 12 - m
  {
    if k < DaysInMonth(y, m) then (m, k + 1)
    else MonthSplit(y, m + 1, k - DaysInMonth(y, m))
  }

  /** The calendar date of day number `days` (date.fromordinal shifted to
      1970-01-01); DaysFromCivil inverts it. */
  function CivilFromDays(days: int): (d: Date)
    ensures ValidDate(d) && DaysFromCivil(d) == days
  {
    var (y, k) := YearSplit(days, 1970);
    DaysBeforeMonthYear(y);
    var (m, dd) := MonthSplit(y, 1, k);
    Date(y, m, dd)
  }

  // ---------------------------------------------------------------------
  // isoformat()

  /** %0<width>d: zero-padded on the left to at least `width` digits. */
  function Pad(n: nat, width: nat): (r: string)
    ensures Text.AllDigits(r) && Text.DigitsValue(r) == n
    ensures |r| == if |Text.NatToString(n)| < width then width else |Text.NatToString(n)|
  {
    var s := Text.NatToString(n);
    var k := if |s| < width then width - |s| else 0;
    Text.DigitsValueLeadingZeros(k, s);
    seq(k, _ => '0') + s
  }

  /** A number below 10^width pads to exactly `width` digits. */
  lemma PadWidth(n: nat, width: nat)
    requires 1 <= width && n < Text.Pow10(width)
    ensures |Pad(n, width)| == width
  {
    Text.NatToStringShort(n, width);
  }

  /** The fields isoformat() prints, for an instant given in microseconds. */
  datatype DateTime = DateTime(date: Date, hour: int, minute: int, second: int, micro: int)

  function DateTimeOfMicros(us: int): (r: DateTime)
    ensures ValidDate(r.date)
    ensures 0 <= r.hour < 24 && 0 <= r.minute < 60 && 0 <= r.second < 60 && 0 <= r.micro < 1000000
    ensures (DaysFromCivil(r.date) * 86400 + r.hour * 3600 + r.minute * 60 + r.second) * 1000000 + r.micro == us
  {
    var t := us / 1000000;
    SecondsSplit(t);
    DateTime(CivilFromDays(DayOf(t)), HourOf(t), MinuteOf(t), SecondOf(t), us % 1000000)
  }

  /** A timestamp is the sum of its day, hour, minute and second. */
  lemma SecondsSplit(t: Timestamp)
    ensures t == DayOf(t) * 86400 + HourOf(t) * 3600 + MinuteOf(t) * 60 + SecondOf(t)
  {
    var a := t % 86400;
    var b := t % 3600;
    assert t == (t / 86400 * 24 + a / 3600) * 3600 + a % 3600;
    MulDivMod(t / 86400 * 24 + a / 3600, 3600, a % 3600);
    assert t == (t / 3600 * 60 + b / 60) * 60 + b % 60;
    MulDivMod(t / 3600 * 60 + b / 60, 60, b % 60);
  }

  /** A digit string that reads as n. */
  predicate Reads(s: string, n: int) {
    Text.AllDigits(s) && Text.DigitsValue(s) == n
  }

  /** s is the isoformat() text of dt: every field read back from its
      position gives the field's value. */
  predicate IsoText(s: string, dt: DateTime) {
    && |s| >= 19
    && Reads(s[0..4], dt.date.year) && s[4] == '-'
    && Reads(s[5..7], dt.date.month) && s[7] == '-'
    && Reads(s[8..10], dt.date.day) && s[10] == 'T'
    && Reads(s[11..13], dt.hour) && s[13] == ':'
    && Reads(s[14..16], dt.minute) && s[16] == ':'
    && Reads(s[17..19], dt.second)
    && (|s| == 19 <==> dt.micro == 0)
    && (|s| > 19 ==> |s| == 26 && s[19] == '.' && Reads(s[20..], dt.micro))
  }

  /** Where the pieces of a YYYY-MM-DDTHH:MM:SS text followed by a tail lie. */
  lemma IsoLayout(y: string, mo: string, d: string, h: string, mi: string, se: string, tail: string)
    requires |y| == 4 && |mo| == 2 && |d| == 2 && |h| == 2 && |mi| == 2 && |se| == 2
    ensures var s := y + "-" + mo + "-" + d + "T" + h + ":" + mi + ":" + se + tail;
            && |s| == 19 + |tail|
            && s[0..4] == y && s[4] == '-' && s[5..7] == mo && s[7] == '-' && s[8..10] == d && s[10] == 'T'
            && s[11..13] == h && s[13] == ':' && s[14..16] == mi && s[16] == ':' && s[17..19] == se
            && s[19..] == tail
  {
  }

  /** datetime.utcfromtimestamp(us / 10^6).isoformat():
      YYYY-MM-DDTHH:MM:SS, followed by .ffffff when the microsecond is not
      zero; years outside 1..9999 raise. */
  function IsoFormat(us: int): (r: Result<string>)
    ensures r.Raised? <==> !(1 <= DateTimeOfMicros(us).date.year <= 9999)
    ensures r.Raised? ==> r.error == DateOutOfRange
    ensures r.Ok? ==> |r.value| == (if us % 1000000 == 0 then 19 else 26)
    ensures r.Ok? ==> IsoText(r.value, DateTimeOfMicros(us))
  {
    var dt := DateTimeOfMicros(us);
    var d := dt.date;
    if !(1 <= d.year <= 9999) then Raised(DateOutOfRange)
    else
      PadWidth(d.year, 4);
      PadWidth(d.month, 2);
      PadWidth(d.day, 2);
      PadWidth(dt.hour, 2);
      PadWidth(dt.minute, 2);
      PadWidth(dt.second, 2);
      PadWidth(dt.micro, 6);
      var tail := if dt.micro == 0 then "" else "." + Pad(dt.micro, 6);
      assert tail != [] ==> tail[1..] == Pad(dt.micro, 6);
      IsoLayout(Pad(d.year, 4), Pad(d.month, 2), Pad(d.day, 2), Pad(dt.hour, 2), Pad(dt.minute, 2), Pad(dt.second, 2), tail);
      Ok(Pad(d.year, 4) + "-" + Pad(d.month, 2) + "-" + Pad(d.day, 2) + "T"
         + Pad(dt.hour, 2) + ":" + Pad(dt.minute, 2) + ":" + Pad(dt.second, 2) + tail)
  }

  // ---------------------------------------------------------------------
  // A worked instant: 1970-02-01T01:01:01.500000

  lemma ExampleFields(us: int)
    requires us == (86400 * 31 + 3661) * 1000000 + 500000
    ensures DateTimeOfMicros(us) == DateTime(Date(1970, 2, 1), 1, 1, 1, 500000)
  {
    var t := 86400 * 31 + 3661;
    MulDivMod(t, 1000000, 500000);
    CombineFields(31, 1, 1);
    assert t == Combine(31, 1, 1) + 1;
    assert DayOf(t) == 31 && HourOf(t) == 1 && MinuteOf(t) == 1 && SecondOf(t) == 1;
    assert YearSplit(31, 1970) == (1970, 31);
    assert MonthSplit(1970, 2, 0) == (2, 1);
    assert MonthSplit(1970, 1, 31) == (2, 1);
  }

  lemma PadOneDigit(n: nat)
    requires 1 <= n <= 9
    ensures Pad(n, 2) == ['0', Text.DigitChar(n)]
  {
  }

  /** The fields of the worked instant, zero-padded. */
  lemma PadExamples()
    ensures Pad(1970, 4) == "1970" && Pad(500000, 6) == "500000"
    ensures Pad(1, 2) == "01" && Pad(2, 2) == "02"
  {
    assert Text.NatToString(1970) == "1970";
    assert Text.NatToString(500000) == "500000";
    PadOneDigit(1);
    PadOneDigit(2);
  }

  /** Thirty-one days, one hour, one minute, one second and half a second
      after the epoch print as 1970-02-01T01:01:01.500000. */
  lemma IsoFormatExample(us: int)
    requires us == (86400 * 31 + 3661) * 1000000 + 500000
    ensures IsoFormat(us)
            == Ok("1970" + "-" + "02" + "-" + "01" + "T" + "01" + ":" + "01" + ":" + "01" + "." + "500000")
  {
    ExampleFields(us);
    PadExamples();
    var base := "1970" + "-" + "02" + "-" + "01" + "T" + "01" + ":" + "01" + ":" + "01";
    assert base + ("." + "500000") == base + "." + "500000";
  }
}
