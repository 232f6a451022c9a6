/** Deterministic cleaning and imputation of one raw telemetry record:
    timestamps, weather, passenger count, GPS position, route identifier and
    the derived delay. The stored passenger counts, today's UTC date and the
    general-purpose date parser are parameters. */
module Cleaning {
  import opened Common
  import opened Text
  import opened Timestamps
  import Statistics
  import Config

  // ---------------------------------------------------------------------
  // Records

  /** The payload as it arrives: free-form strings and optional numbers. */
  datatype RawRecord = RawRecord(
    routeId: string,
    scheduledTime: Option<string>,
    actualTime: Option<string>,
    weather: string,
    passengerCount: Option<int>,
    latitude: Option<real>,
    longitude: Option<real>)

  /** The record the pipeline stores and derives features from. */
  datatype CleanedRecord = CleanedRecord(
    routeId: string,
    scheduledTime: Option<Timestamp>,
    actualTime: Option<Timestamp>,
    weather: string,
    passengerCount: int,
    latitude: Option<real>,
    longitude: Option<real>,
    cleaned: bool,
    delayMinutes: Option<real>)

  // ---------------------------------------------------------------------
  // Time-only strings

  /** ^(\d{1,2}):(\d{2})$ giving the hour and minute groups. */
  function MatchColon(v: string): (m: Option<(nat, nat)>)
    ensures m.Some? ==> 4 <= |v| <= 5 && v[|v| - 3] == ':' && m.value.0 < 100 && m.value.1 < 100
  {
    if 4 <= |v| <= 5 && v[|v| - 3] == ':' && AllDigits(v[..|v| - 3]) && AllDigits(v[|v| - 2..])
    then
      SmallDigits(v[..|v| - 3]);
      SmallDigits(v[|v| - 2..]);
      Some((DigitsValue(v[..|v| - 3]), DigitsValue(v[|v| - 2..])))
    else None
  }

  /** ^(\d{1,2})(\d{2})$: the minute is always the last two digits, so the
      hour and minute are the number the digits spell, split at 100. */
  function MatchCompact(v: string): (m: Option<(nat, nat)>)
    ensures m.Some? ==> AllDigits(v) && m.value.0 < 100 && m.value.1 < 100
                        && m.value.0 * 100 + m.value.1 == DigitsValue(v)
  {
    if 3 <= |v| <= 4 && AllDigits(v)
    then
      SmallDigits(v[..|v| - 2]);
      SmallDigits(v[|v| - 2..]);
      SplitHundreds(v);
      Some((DigitsValue(v[..|v| - 2]), DigitsValue(v[|v| - 2..])))
    else None
  }

  datatype Meridiem = AM | PM

  /** ^(\d{1,2})[.:](\d{2})([AaPp][Mm])$ */
  function MatchAmPm(v: string): (m: Option<(nat, nat, Meridiem)>)
    ensures m.Some? ==> m.value.0 < 100 && m.value.1 < 100
    ensures m.Some? ==> 6 <= |v| <= 7 && (m.value.2 == PM <==> v[|v| - 2] in "Pp")
  {
    if && 6 <= |v| <= 7 && (v[|v| - 5] == '.' || v[|v| - 5] == ':')
       && AllDigits(v[..|v| - 5]) && AllDigits(v[|v| - 4..|v| - 2])
       && v[|v| - 2] in "AaPp" && v[|v| - 1] in "Mm"
    then
      SmallDigits(v[..|v| - 5]);
      SmallDigits(v[|v| - 4..|v| - 2]);
      Some((DigitsValue(v[..|v| - 5]), DigitsValue(v[|v| - 4..|v| - 2]),
            if v[|v| - 2] in "Aa" then AM else PM))
    else None
  }

  /** One or two digits are below 100. */
  lemma SmallDigits(s: string)
    requires |s| <= 2 && AllDigits(s)
    ensures DigitsValue(s) < 100
  {
    if |s| > 0 {
      assert DigitsValue(s[..|s| - 1]) < 10;
    }
  }

  /** The last two digits of a digit string are its value modulo 100. */
  lemma SplitHundreds(v: string)
    requires |v| >= 2 && AllDigits(v)
    ensures DigitsValue(v) == DigitsValue(v[..|v| - 2]) * 100 + DigitsValue(v[|v| - 2..])
  {
    var t := v[|v| - 2..];
    assert v[..|v| - 1][..|v| - 2] == v[..|v| - 2];
    assert t[..1] == [v[|v| - 2]] && t[..1][..0] == [];
  }

  /** The 12-hour adjustment: a PM hour other than 12 gains 12, 12 AM is 0.
      On the 12-hour clock this gives the same hour of a 24-hour day, in
      the morning for AM and from noon on for PM. */
  function To24Hour(hour: nat, m: Meridiem): (r: nat)
    ensures 1 <= hour <= 12 ==> r < 24 && r % 12 == hour % 12
    ensures 1 <= hour <= 12 ==> (r >= 12 <==> m.PM?)
  {
    if m == PM && hour != 12 then hour + 12
    else if m == AM && hour == 12 then 0
    else hour
  }

  /** datetime.combine(today, time(hour, minute)); time() raises ValueError
      for an hour above 23 or a minute above 59. */
  function AtTime(today: int, hour: nat, minute: nat): (r: Result<Option<Timestamp>>)
    ensures r.Ok? <==> hour <= 23 && minute <= 59
    ensures r.Raised? ==> r.error == ValueError
    ensures r.Ok? ==> r.value.Some? && DayOf(r.value.value) == today && HourOf(r.value.value) == hour
                      && MinuteOf(r.value.value) == minute && SecondOf(r.value.value) == 0
  {
    if hour <= 23 && minute <= 59 then
      CombineFields(today, hour, minute);
      Ok(Some(Combine(today, hour, minute)))
    else Raised(ValueError)
  }

  /** _parse_time_only: the three shapes are tried in the order colon,
      compact, am/pm; no match gives None. */
  function ParseTimeOnly(value: string, today: int): (r: Result<Option<Timestamp>>)
    ensures r.Raised? ==> r.error == ValueError
    ensures r == Ok(None) <==> (var v := Strip(value);
                                MatchColon(v).None? && MatchCompact(v).None? && MatchAmPm(v).None?)
    ensures r.Ok? && r.value.Some? ==> DayOf(r.value.value) == today && SecondOf(r.value.value) == 0
  {
    var v := Strip(value);
    if MatchColon(v).Some? then AtTime(today, MatchColon(v).value.0, MatchColon(v).value.1)
    else if MatchCompact(v).Some? then AtTime(today, MatchCompact(v).value.0, MatchCompact(v).value.1)
    else if MatchAmPm(v).Some? then
      var (h, m, mer) := MatchAmPm(v).value;
      AtTime(today, To24Hour(h, mer), m)
    else Ok(None)
  }

  /** The general-purpose parser's answer: a wall-clock time and, when the
      text named one, a UTC offset. */
  datatype ParsedDateTime = ParsedDateTime(wallClock: Timestamp, utcOffset: Option<int>)

  /** What dateutil.parser.parse does with a text: it returns a date-time,
      raises ValueError or TypeError (which parse_datetime catches), or
      raises OverflowError (which it does not catch). */
  datatype ParseOutcome = Parsed(dateTime: ParsedDateTime) | Unreadable | Overflow

  /** dateutil.parser.parse, uninterpreted. */
  type DateParser = string -> ParseOutcome

  /** parse_datetime: None and blank input give None; a time-only match wins
      (and its ValueError propagates, since it is not inside the try);
      otherwise the general parser's wall clock with the offset dropped, None
      when it cannot read the text, and its OverflowError propagates. */
  function ParseDateTime(value: Option<string>, today: int, parse: DateParser): (r: Result<Option<Timestamp>>)
    ensures value.None? ==> r == Ok(None)
    ensures value.Some? && Strip(value.value) == [] ==> r == Ok(None)
    ensures r.Raised? <==> value.Some? && Strip(value.value) != [] &&
                           (ParseTimeOnly(Strip(value.value), today).Raised?
                            || (ParseTimeOnly(Strip(value.value), today) == Ok(None) && parse(Strip(value.value)).Overflow?))
    ensures r.Raised? ==> r.error == ValueError || r.error == OverflowError
    ensures value.Some? && Strip(value.value) != [] && ParseTimeOnly(Strip(value.value), today).Ok? ==>
              var v := Strip(value.value);
              r == if ParseTimeOnly(v, today).value.Some? then ParseTimeOnly(v, today)
                   else if parse(v).Parsed? then Ok(Some(parse(v).dateTime.wallClock))
                   else if parse(v).Unreadable? then Ok(None)
                   else Raised(OverflowError)
  {
    if value.None? then Ok(None)
    else
      var v := Strip(value.value);
      if v == [] then Ok(None)
      else
        var timeOnly := ParseTimeOnly(v, today);
        if timeOnly.Raised? || timeOnly.value.Some? then timeOnly
        else
          match parse(v)
          case Parsed(dt) => Ok(Some(dt.wallClock))
          case Unreadable => Ok(None)
          case Overflow => Raised(OverflowError)
  }

  // ---------------------------------------------------------------------
  // Weather

  const TypoMap: map<string, string> :=
    map["clody" := "cloudy", "sun" := "sunny", "sunny" := "sunny", "sunny " := "sunny", "coudy" := "cloudy"]

  /** normalize_weather: strip, lower-case, correct known typos; anything
      not in the allowed list becomes "unknown". */
  function NormalizeWeather(value: string): (r: string)
    ensures r in Config.AllowedWeather || r == "unknown"
  {
    var normalized := Lower(Strip(value));
    var corrected := if normalized in TypoMap then TypoMap[normalized] else normalized;
    var sun := if Upper(corrected) == "SUN" then "sunny" else corrected;
    if sun !in Config.AllowedWeather then "unknown" else sun
  }

  // ---------------------------------------------------------------------
  // Passenger count

  const DefaultPassenger: int := 10

  /** _median_passenger: int() of the median of the stored counts, or 10
      when there are none. */
  function MedianPassenger(history: seq<int>): (r: int)
    ensures |history| == 0 ==> r == DefaultPassenger
    ensures (forall i | 0 <= i < |history| :: Config.MinPassenger <= history[i] <= Config.MaxPassenger) ==>
              Config.MinPassenger <= r <= Config.MaxPassenger
  {
    if |history| == 0 then DefaultPassenger
    else
      TruncatedMedianBounds(history, Config.MinPassenger, Config.MaxPassenger);
      Statistics.Truncate(Statistics.Median(history))
  }

  lemma TruncatedMedianBounds(history: seq<int>, lo: int, hi: int)
    requires |history| > 0
    ensures (forall i | 0 <= i < |history| :: lo <= history[i] <= hi) ==>
              lo <= Statistics.Truncate(Statistics.Median(history)) <= hi
  {
    if forall i | 0 <= i < |history| :: lo <= history[i] <= hi {
      Statistics.MedianBounds(history, lo, hi);
      Statistics.TruncateBounds(Statistics.Median(history), lo, hi);
    }
  }

  predicate InPassengerRange(n: int) {
    Config.MinPassenger <= n <= Config.MaxPassenger
  }

  /** _clean_passenger_count: an in-range count passes through; a missing
      or out-of-range one is replaced by the stored median. */
  function CleanPassengerCount(raw: Option<int>, history: seq<int>): (r: int)
    ensures raw.Some? && InPassengerRange(raw.value) ==> r == raw.value
    ensures raw.None? || !InPassengerRange(raw.value) ==> r == MedianPassenger(history)
    ensures (forall i | 0 <= i < |history| :: InPassengerRange(history[i])) ==> InPassengerRange(r)
  {
    if raw.None? || raw.value < Config.MinPassenger || raw.value > Config.MaxPassenger
    then MedianPassenger(history)
    else raw.value
  }

  // ---------------------------------------------------------------------
  // GPS

  /** _validate_gps: each coordinate is kept when inside its inclusive range
      and dropped otherwise, independently of the other. */
  function ValidateGps(lat: Option<real>, lon: Option<real>): (r: (Option<real>, Option<real>))
    ensures r.0.Some? <==> lat.Some? && -90.0 <= lat.value <= 90.0
    ensures r.1.Some? <==> lon.Some? && -180.0 <= lon.value <= 180.0
    ensures r.0.Some? ==> r.0 == lat
    ensures r.1.Some? ==> r.1 == lon
  {
    var validLat := if lat.Some? && -90.0 <= lat.value <= 90.0 then lat else None;
    var validLon := if lon.Some? && -180.0 <= lon.value <= 180.0 then lon else None;
    (validLat, validLon)
  }

  // ---------------------------------------------------------------------
  // Route

  /** The integer value of the first run of digits of a route id, 0 when
      there is none. */
  function RouteNumber(routeId: string): (n: nat)
    ensures (forall i | 0 <= i < |routeId| :: !IsDigit(routeId[i])) ==> n == 0
  {
    match FirstDigitRun(routeId)
    case None => 0
    case Some(d) => DigitsValue(d)
  }

  /** The first digit run of a route id is short enough for int(). */
  predicate RouteFits(routeId: string) {
    FirstDigitRun(routeId).None? || |FirstDigitRun(routeId).value| <= MaxStrDigits
  }

  /** _normalize_route: "R" followed by str(int(first digit run)); int()
      raises ValueError on a run longer than the digit limit. */
  function NormalizeRoute(routeId: string): (r: Result<string>)
    ensures r.Raised? <==> !RouteFits(routeId)
    ensures r.Raised? ==> r.error == ValueError
    ensures r.Ok? ==> var s := r.value;
      && |s| >= 2 && s[0] == 'R' && AllDigits(s[1..])
      && s[1..] == NatToString(RouteNumber(routeId))
      && |s[1..]| <= MaxStrDigits
  {
    match FirstDigitRun(routeId)
    case None => Ok("R0")
    case Some(d) =>
      if |d| > MaxStrDigits then Raised(ValueError)
      else
        DigitsRoundTripShort(d);
        Ok("R" + NatToString(DigitsValue(d)))
  }

  // ---------------------------------------------------------------------
  // Delay

  /** _compute_delay: minutes from scheduled to actual, when both are known. */
  function ComputeDelay(scheduled: Option<Timestamp>, actual: Option<Timestamp>): (r: Option<real>)
    ensures r.Some? <==> scheduled.Some? && actual.Some?
    ensures r.Some? ==> r.value * 60.0 == (actual.value - scheduled.value) as real
  {
    if scheduled.Some? && actual.Some? then Some((actual.value - scheduled.value) as real / 60.0)
    else None
  }

  // ---------------------------------------------------------------------
  // The whole record

  /** clean_record: every field cleaned on its own; the only exceptions that
      escape are those parse_datetime lets through. */
  function CleanRecord(raw: RawRecord, history: seq<int>, today: int, parse: DateParser): (r: Result<CleanedRecord>)
    ensures r.Raised? <==> ParseDateTime(raw.scheduledTime, today, parse).Raised?
                           || ParseDateTime(raw.actualTime, today, parse).Raised?
                           || NormalizeRoute(raw.routeId).Raised?
    ensures r.Raised? ==>
              r.error == (if ParseDateTime(raw.scheduledTime, today, parse).Raised?
                          then ParseDateTime(raw.scheduledTime, today, parse).error
                          else if ParseDateTime(raw.actualTime, today, parse).Raised?
                          then ParseDateTime(raw.actualTime, today, parse).error
                          else ValueError)
    ensures r.Ok? ==> var c := r.value;
      && c.cleaned
      && c.scheduledTime == ParseDateTime(raw.scheduledTime, today, parse).value
      && c.actualTime == ParseDateTime(raw.actualTime, today, parse).value
      && c.weather == NormalizeWeather(raw.weather)
      && (c.weather in Config.AllowedWeather || c.weather == "unknown")
      && c.passengerCount == CleanPassengerCount(raw.passengerCount, history)
      && c.routeId == NormalizeRoute(raw.routeId).value
      && (c.latitude, c.longitude) == ValidateGps(raw.latitude, raw.longitude)
      && c.delayMinutes == ComputeDelay(c.scheduledTime, c.actualTime)
      && (c.delayMinutes.Some? <==> c.scheduledTime.Some? && c.actualTime.Some?)
  {
    var scheduled := ParseDateTime(raw.scheduledTime, today, parse);
    if scheduled.Raised? then Raised(scheduled.error)
    else
      var actual := ParseDateTime(raw.actualTime, today, parse);
      if actual.Raised? then Raised(actual.error)
      else
        var (lat, lon) := ValidateGps(raw.latitude, raw.longitude);
        var route := NormalizeRoute(raw.routeId);
        if route.Raised? then Raised(route.error)
        else
          Ok(CleanedRecord(
            routeId := route.value,
            scheduledTime := scheduled.value,
            actualTime := actual.value,
            weather := NormalizeWeather(raw.weather),
            passengerCount := CleanPassengerCount(raw.passengerCount, history),
            latitude := lat,
            longitude := lon,
            cleaned := true,
            delayMinutes := ComputeDelay(scheduled.value, actual.value)))
  }

}
