/** Properties of the cleaning functions: the time-only shapes, the
    parse_datetime policy, weather and route normalisation, the passenger
    imputation, and whole records taken from the backend's tests. */
module CleaningProperties {
  import opened Common
  import opened Text
  import opened Timestamps
  import opened Cleaning
  import Statistics
  import Config

  /** The value of a two-digit string. */
  lemma TwoDigits(s: string)
    requires |s| == 2 && AllDigits(s)
    ensures DigitsValue(s) == 10 * DigitValue(s[0]) + DigitValue(s[1])
  {
    var p := s[..1];
    assert s[..|s| - 1] == p && p[..0] == [] && p[0] == s[0];
    assert DigitsValue(p) == DigitValue(s[0]);
  }

  // ---------------------------------------------------------------------
  // The time-only parser

  /** The three shapes never match the same string, so the order in which
      they are tried does not change the outcome. */
  lemma TimeShapesExclusive(v: string)
    ensures !(MatchColon(v).Some? && MatchCompact(v).Some?)
    ensures !(MatchColon(v).Some? && MatchAmPm(v).Some?)
    ensures !(MatchCompact(v).Some? && MatchAmPm(v).Some?)
  {
    if MatchColon(v).Some? {
      assert v[|v| - 2..][1] == v[|v| - 1];
      assert IsDigit(v[|v| - 1]) && !IsDigit(v[|v| - 3]);
    }
    if MatchCompact(v).Some? {
      assert IsDigit(v[|v| - 1]);
    }
    if MatchAmPm(v).Some? {
      assert v[|v| - 1] in "Mm";
      assert !IsDigit(v[|v| - 1]);
    }
  }

  /** HH:MM and H:MM give that time today, or raise when out of range. */
  lemma {:induction false} ColonShape(hh: string, mm: string, today: int)
    requires 1 <= |hh| <= 2 && |mm| == 2 && AllDigits(hh) && AllDigits(mm)
    ensures ParseTimeOnly(hh + ":" + mm, today) == AtTime(today, DigitsValue(hh), DigitsValue(mm))
  {
    var v := hh + ":" + mm;
    assert v[..|v| - 3] == hh && v[|v| - 2..] == mm && v[|v| - 3] == ':';
    TimeOnlyByColon(v, today, DigitsValue(hh), DigitsValue(mm));
  }

  /** HHMM and HMM: the last two digits are the minute. */
  lemma {:induction false} CompactShape(hh: string, mm: string, today: int)
    requires 1 <= |hh| <= 2 && |mm| == 2 && AllDigits(hh) && AllDigits(mm)
    ensures ParseTimeOnly(hh + mm, today) == AtTime(today, DigitsValue(hh), DigitsValue(mm))
  {
    var v := hh + mm;
    StripNoop(v);
    assert v[..|v| - 2] == hh && v[|v| - 2..] == mm;
    assert MatchColon(v).None? by { assert IsDigit(v[|v| - 3]); }
  }

  /** H.MMam, HH:MMPM and the like: the 12-hour adjustment, then time(). */
  lemma {:induction false} AmPmShape(hh: string, sep: char, mm: string, suffix: string, today: int)
    requires 1 <= |hh| <= 2 && |mm| == 2 && AllDigits(hh) && AllDigits(mm)
    requires sep == '.' || sep == ':'
    requires |suffix| == 2 && suffix[0] in "AaPp" && suffix[1] in "Mm"
    ensures ParseTimeOnly(hh + [sep] + mm + suffix, today)
            == AtTime(today, To24Hour(DigitsValue(hh), if suffix[0] in "Aa" then AM else PM), DigitsValue(mm))
  {
    var v := hh + [sep] + mm + suffix;
    StripNoop(v);
    assert v[..|v| - 5] == hh && v[|v| - 4..|v| - 2] == mm && v[|v| - 5] == sep;
    assert v[|v| - 2] == suffix[0] && v[|v| - 1] == suffix[1];
    TimeShapesExclusive(v);
    assert MatchCompact(v).None? by { assert !IsDigit(v[|v| - 1]); }
  }

  /** On the 12-hour clock (hours 1..12) the adjustment is the usual one:
      12 AM is midnight, 12 PM is noon. Hours above 12 are taken as they
      are with AM and pushed past 23 with PM, so time() raises. */
  lemma To24HourClock(h: nat)
    ensures 1 <= h <= 12 ==> To24Hour(h, AM) == h % 12 && To24Hour(h, PM) == h % 12 + 12
    ensures h > 12 ==> To24Hour(h, AM) == h && To24Hour(h, PM) > 23
    ensures To24Hour(0, AM) == 0 && To24Hour(0, PM) == 12
  {
  }

  /** A string the colon shape matches is read by that shape. */
  lemma TimeOnlyByColon(v: string, today: int, h: nat, m: nat)
    requires MatchColon(v) == Some((h, m))
    ensures ParseTimeOnly(v, today) == AtTime(today, h, m)
  {
    assert v[..|v| - 3][0] == v[0] && v[|v| - 2..][1] == v[|v| - 1];
    StripNoop(v);
  }

  /** A string the am/pm shape matches is read by that shape alone. */
  lemma TimeOnlyByAmPm(v: string, today: int, h: nat, m: nat, mer: Meridiem)
    requires MatchAmPm(v) == Some((h, m, mer))
    ensures ParseTimeOnly(v, today) == AtTime(today, To24Hour(h, mer), m)
  {
    assert v[..|v| - 5][0] == v[0];
    assert !IsSpace(v[|v| - 1]);
    StripNoop(v);
    TimeShapesExclusive(v);
    assert MatchCompact(v).None? by { assert !IsDigit(v[|v| - 1]); }
  }

  /** "8.45AM" is 08:45 today. */
  lemma TimeOnlyAmExample(v: string, today: int)
    requires v == "8.45AM"
    ensures ParseTimeOnly(v, today) == Ok(Some(Combine(today, 8, 45)))
  {
    assert MatchAmPm(v) == Some((8, 45, AM)) by {
      assert v[..|v| - 5] == "8" && v[|v| - 4..|v| - 2] == "45";
      assert DigitsValue("8") == 8;
      TwoDigits("45");
    }
    TimeOnlyByAmPm(v, today, 8, 45, AM);
    assert To24Hour(8, AM) == 8;
    assert AtTime(today, 8, 45) == Ok(Some(Combine(today, 8, 45)));
  }

  /** "12.05am" is five past midnight. */
  lemma TimeOnlyMidnightExample(v: string, today: int)
    requires v == "12.05am"
    ensures ParseTimeOnly(v, today) == Ok(Some(Combine(today, 0, 5)))
  {
    assert MatchAmPm(v) == Some((12, 5, AM)) by {
      assert v[..|v| - 5] == "12" && v[|v| - 4..|v| - 2] == "05";
      TwoDigits("12");
      TwoDigits("05");
    }
    TimeOnlyByAmPm(v, today, 12, 5, AM);
    assert To24Hour(12, AM) == 0;
    assert AtTime(today, 0, 5) == Ok(Some(Combine(today, 0, 5)));
  }

  /** "7:15PM" is 19:15. */
  lemma TimeOnlyPmExample(v: string, today: int)
    requires v == "7:15PM"
    ensures ParseTimeOnly(v, today) == Ok(Some(Combine(today, 19, 15)))
  {
    assert MatchAmPm(v) == Some((7, 15, PM)) by {
      assert v[..|v| - 5] == "7" && v[|v| - 4..|v| - 2] == "15";
      assert DigitsValue("7") == 7;
      TwoDigits("15");
    }
    TimeOnlyByAmPm(v, today, 7, 15, PM);
    assert To24Hour(7, PM) == 19;
    assert AtTime(today, 19, 15) == Ok(Some(Combine(today, 19, 15)));
  }

  /** "08:30" is 08:30 today. */
  lemma TimeOnlyColonExample(v: string, today: int)
    requires v == "08:30"
    ensures ParseTimeOnly(v, today) == Ok(Some(Combine(today, 8, 30)))
  {
    assert MatchColon(v) == Some((8, 30)) by {
      assert v[..|v| - 3] == "08" && v[|v| - 2..] == "30";
      TwoDigits("08");
      TwoDigits("30");
    }
    TimeOnlyByColon(v, today, 8, 30);
    assert AtTime(today, 8, 30) == Ok(Some(Combine(today, 8, 30)));
  }

  /** An hour past 23 or a minute past 59 in the colon shape makes time()
      raise. */
  lemma TimeOnlyOutOfRange(hh: string, mm: string, today: int)
    requires 1 <= |hh| <= 2 && |mm| == 2 && AllDigits(hh) && AllDigits(mm)
    requires DigitsValue(hh) > 23 || DigitsValue(mm) > 59
    ensures ParseTimeOnly(hh + ":" + mm, today) == Raised(ValueError)
  {
    ColonShape(hh, mm, today);
  }

  /** A colon-shaped text has no surrounding whitespace. */
  lemma ColonStripped(hh: string, mm: string)
    requires 1 <= |hh| && |mm| == 2 && AllDigits(hh) && AllDigits(mm)
    ensures Strip(hh + ":" + mm) == hh + ":" + mm
  {
    var v := hh + ":" + mm;
    assert v[0] == hh[0] && v[|v| - 1] == mm[1];
    StripNoop(v);
  }

  /** A stripped text on which the time-only parser raises makes
      parse_datetime raise the same error. */
  lemma ParseDateTimeRaises(v: string, today: int, parse: DateParser)
    requires v != [] && Strip(v) == v && ParseTimeOnly(v, today).Raised?
    ensures ParseDateTime(Some(v), today, parse) == Raised(ValueError)
  {
  }

  /** The same text given to parse_datetime: the error is not turned into
      None, and the general parser is never asked. */
  lemma ParseDateTimeOutOfRange(hh: string, mm: string, today: int, parse: DateParser)
    requires 1 <= |hh| <= 2 && |mm| == 2 && AllDigits(hh) && AllDigits(mm)
    requires DigitsValue(hh) > 23 || DigitsValue(mm) > 59
    ensures ParseDateTime(Some(hh + ":" + mm), today, parse) == Raised(ValueError)
  {
    TimeOnlyOutOfRange(hh, mm, today);
    ColonStripped(hh, mm);
    ParseDateTimeRaises(hh + ":" + mm, today, parse);
  }

  // ---------------------------------------------------------------------
  // parse_datetime

  /** Dropping tzinfo: only the wall clock the parser read matters, never
      the offset it found. */
  lemma ParseDateTimeIgnoresOffset(value: Option<string>, today: int, p1: DateParser, p2: DateParser)
    requires value.Some? ==> var v := Strip(value.value);
      && p1(v).Parsed? == p2(v).Parsed? && p1(v).Unreadable? == p2(v).Unreadable?
      && (p1(v).Parsed? ==> p1(v).dateTime.wallClock == p2(v).dateTime.wallClock)
    ensures ParseDateTime(value, today, p1) == ParseDateTime(value, today, p2)
  {
  }

  /** Text longer than seven characters after stripping has none of the
      three time-only shapes. */
  lemma TooLongForTimeOnly(v: string, today: int)
    requires |Strip(v)| > 7
    ensures ParseTimeOnly(v, today) == Ok(None)
  {
    var t := Strip(v);
    assert MatchColon(t).None?;
    assert MatchCompact(t).None?;
    assert MatchAmPm(t).None?;
  }

  /** Stripped text too long to be a time-only value goes to the general
      parser, whose three outcomes parse_datetime passes on. */
  lemma GeneralParserDecides(v: string, today: int, parse: DateParser)
    requires Strip(v) == v && |v| > 7
    ensures ParseDateTime(Some(v), today, parse)
            == match parse(v)
               case Parsed(dt) => Ok(Some(dt.wallClock))
               case Unreadable => Ok(None)
               case Overflow => Raised(OverflowError)
  {
    TooLongForTimeOnly(v, today);
  }

  /** Text that none of the three shapes matches and that the general
      parser rejects gives None; "not-a-time" is such a text. */
  lemma ParseDateTimeRejects(v: string, today: int, parse: DateParser)
    requires v == "not-a-time" && parse(v) == Unreadable
    ensures ParseDateTime(Some(v), today, parse) == Ok(None)
  {
    assert v[0] == 'n' && v[|v| - 1] == 'e' && |v| == 10;
    StripNoop(v);
    GeneralParserDecides(v, today, parse);
  }

  /** Text that none of the three shapes matches and on which the general
      parser raises OverflowError makes parse_datetime raise it too, since
      only ValueError and TypeError are caught; a twenty-digit number is
      such a text. */
  lemma ParseDateTimeOverflow(v: string, today: int, parse: DateParser)
    requires v == "99999999999999999999" && parse(v) == Overflow
    ensures ParseDateTime(Some(v), today, parse) == Raised(OverflowError)
  {
    assert v[0] == '9' && v[|v| - 1] == '9' && |v| == 20;
    StripNoop(v);
    GeneralParserDecides(v, today, parse);
  }

  /** parse_datetime strips the text and _parse_time_only strips it again;
      the second strip changes nothing. */
  lemma TimeOnlyRestrip(s: string, today: int)
    ensures ParseTimeOnly(Strip(s), today) == ParseTimeOnly(s, today)
  {
    StripIdempotent(s);
  }

  /** A blank string is no timestamp at all, whatever the parser says. */
  lemma ParseDateTimeBlank(s: string, today: int, parse: DateParser)
    requires forall i | 0 <= i < |s| :: IsSpace(s[i])
    ensures ParseDateTime(Some(s), today, parse) == Ok(None)
  {
  }

  /** A time-only text is read on today's date and never reaches the
      general parser. */
  lemma ParseDateTimeTimeOnly(s: string, today: int, p1: DateParser, p2: DateParser)
    requires Strip(s) != [] && ParseTimeOnly(Strip(s), today) != Ok(None)
    ensures ParseDateTime(Some(s), today, p1) == ParseDateTime(Some(s), today, p2)
    ensures ParseDateTime(Some(s), today, p1).Ok? ==>
              var t := ParseDateTime(Some(s), today, p1).value;
              t.Some? && DayOf(t.value) == today
  {
  }

  // ---------------------------------------------------------------------
  // normalize_weather

  lemma LowerNoUpper(s: string)
    ensures NoUpper(Lower(s))
  {
  }

  /** The only string without capitals whose upper case is "SUN" is "sun". */
  lemma UpperSun(n: string)
    requires NoUpper(n)
    ensures Upper(n) == "SUN" ==> n == "sun"
  {
    if Upper(n) == "SUN" {
      assert Upper(n)[0] == 'S' && Upper(n)[1] == 'U' && Upper(n)[2] == 'N';
      assert n[0] == 's' && n[1] == 'u' && n[2] == 'n';
    }
  }

  lemma AllowedNormalOne(w: string)
    requires |w| > 0 && NoUpper(w) && !IsSpace(w[0]) && !IsSpace(w[|w| - 1])
    requires w != "sun" && w != "clody" && w != "coudy"
    ensures Lower(Strip(w)) == w && Upper(w) != "SUN"
    ensures w in TypoMap ==> TypoMap[w] == w
  {
    StripNoop(w);
    LowerNoop(w);
    UpperSun(w);
  }

  /** The allowed values and "unknown" are fixed points of every step of
      normalize_weather. */
  lemma AllowedNormal(w: string)
    requires w in Config.AllowedWeather || w == "unknown"
    ensures Lower(Strip(w)) == w && Upper(w) != "SUN"
    ensures w in TypoMap ==> TypoMap[w] == w
  {
    if w == "sunny" { AllowedNormalOne("sunny"); }
    else if w == "cloudy" { AllowedNormalOne("cloudy"); }
    else if w == "rainy" { AllowedNormalOne("rainy"); }
    else if w == "snow" { AllowedNormalOne("snow"); }
    else if w == "clear" { AllowedNormalOne("clear"); }
    else if w == "fog" { AllowedNormalOne("fog"); }
    else { AllowedNormalOne("unknown"); }
  }

  /** Every value normalize_weather returns maps to itself. */
  lemma NormalizeWeatherIdempotent(value: string)
    ensures NormalizeWeather(NormalizeWeather(value)) == NormalizeWeather(value)
  {
    AllowedNormal(NormalizeWeather(value));
  }

  /** An allowed value is recognised whatever its case and surrounding
      whitespace. */
  lemma NormalizeWeatherAllowed(value: string, w: string)
    requires w in Config.AllowedWeather && Lower(Strip(value)) == w
    ensures NormalizeWeather(value) == w
  {
    AllowedNormal(w);
  }

  /** Every correction is "cloudy" or "sunny". */
  lemma TypoValues()
    ensures forall k | k in TypoMap :: TypoMap[k] == "cloudy" || TypoMap[k] == "sunny"
  {
  }

  /** The upper-case "SUN" test never fires on its own: a lower-cased text
      whose upper case is "SUN" is "sun", which the typo map already turned
      into "sunny". */
  lemma SunTestRedundant(value: string)
    ensures var n := Lower(Strip(value));
            var c := if n in TypoMap then TypoMap[n] else n;
            Upper(c) == "SUN" ==> c == "sunny"
  {
    var n := Lower(Strip(value));
    LowerNoUpper(Strip(value));
    UpperSun(n);
    if n in TypoMap {
      TypoValues();
      assert |TypoMap[n]| >= 5;
    }
  }

  /** A known typo, once stripped and lower-cased, becomes its correction. */
  lemma NormalizeWeatherTypo(value: string)
    requires Lower(Strip(value)) in TypoMap
    ensures NormalizeWeather(value) == TypoMap[Lower(Strip(value))]
  {
  }

  /** Everything that is neither allowed nor a known typo once stripped and
      lower-cased becomes "unknown"; with the two lemmas above this pins
      the function down. */
  lemma NormalizeWeatherUnknown(value: string)
    requires var n := Lower(Strip(value)); n !in Config.AllowedWeather && n !in TypoMap
    ensures NormalizeWeather(value) == "unknown"
  {
    SunTestRedundant(value);
  }

  /** The corrections the typo map makes. */
  lemma TypoEntries()
    ensures "clody" in TypoMap && TypoMap["clody"] == "cloudy"
    ensures "sun" in TypoMap && TypoMap["sun"] == "sunny"
  {
  }

  /** "hail" is neither an allowed value nor a known typo. */
  lemma HailUnlisted()
    ensures "hail" !in Config.AllowedWeather && "hail" !in TypoMap
  {
  }

  /** A string without spaces at either end and without capitals, once
      lower-cased, keeps only its lower-case letters. */
  lemma StrippedLower(v: string, n: string)
    requires |v| > 0 && !IsSpace(v[0]) && !IsSpace(v[|v| - 1])
    requires Lower(v) == n
    ensures Lower(Strip(v)) == n
  {
    StripNoop(v);
  }

  lemma WeatherTypoExample(v: string)
    requires v == "Clody"
    ensures NormalizeWeather(v) == "cloudy"
  {
    assert Lower(v) == "clody";
    StrippedLower(v, "clody");
    TypoEntries();
    NormalizeWeatherTypo(v);
  }

  lemma WeatherSunExample(v: string)
    requires v == "sun"
    ensures NormalizeWeather(v) == "sunny"
  {
    LowerNoop(v);
    StrippedLower(v, "sun");
    TypoEntries();
    NormalizeWeatherTypo(v);
  }

  lemma WeatherUnknownExample(v: string)
    requires v == "hail"
    ensures NormalizeWeather(v) == "unknown"
  {
    LowerNoop(v);
    StrippedLower(v, "hail");
    HailUnlisted();
    NormalizeWeatherUnknown(v);
  }

  // ---------------------------------------------------------------------
  // The passenger count

  /** The imputed value depends only on which counts are stored, not on the
      order the query returns them in. */
  lemma MedianPassengerOrderIndependent(a: seq<int>, b: seq<int>)
    requires multiset(a) == multiset(b)
    ensures MedianPassenger(a) == MedianPassenger(b)
  {
    if |a| > 0 {
      Statistics.MedianOrderIndependent(a, b);
    } else {
      assert |b| == |multiset(b)| == 0;
    }
  }

  /** A count outside 0..200 is replaced, here by the default of an empty
      store. */
  lemma PassengerOutOfRangeExample()
    ensures CleanPassengerCount(Some(250), []) == 10
    ensures CleanPassengerCount(Some(-5), []) == 10
  {
  }

  /** Even count: int() of the mean of the two middle values, 12.5 to 12. */
  lemma PassengerMedianEvenExample(h: seq<int>)
    requires h == [10, 15]
    ensures CleanPassengerCount(None, h) == 12
  {
    MedianPair(h);
    assert Statistics.Truncate(12.5) == 12;
  }

  lemma MedianPair(h: seq<int>)
    requires h == [10, 15]
    ensures Statistics.Median(h) == 12.5
  {
    SortPair(h);
    var s := Statistics.Sort(h);
    assert s[0] == 10 && s[1] == 15 && |s| == 2;
  }

  lemma SortPair(h: seq<int>)
    requires h == [10, 15]
    ensures Statistics.Sort(h) == h
  {
    var t := h[1..];
    assert t == [15] && t[1..] == [];
    assert Statistics.Sort(t) == Statistics.Insert(15, []) == [15];
    assert Statistics.Insert(10, [15]) == [10, 15];
  }

  // ---------------------------------------------------------------------
  // The route identifier

  /** The number in a canonical "R<n>" id is n. */
  lemma RouteNumberCanonical(n: nat)
    ensures FirstDigitRun("R" + NatToString(n)) == Some(NatToString(n))
    ensures RouteNumber("R" + NatToString(n)) == n
  {
    var s := "R" + NatToString(n);
    assert FirstDigitIndex(s) == 1 by {
      assert !IsDigit(s[0]) && s[1..] == NatToString(n);
    }
    assert s[1..] == NatToString(n);
    TakeDigitsAll(NatToString(n));
  }

  /** A normalised id normalises to itself: its digits are never over the
      limit, since str(int(run)) is no longer than the run. */
  lemma NormalizeRouteIdempotent(routeId: string)
    ensures NormalizeRoute(routeId).Ok? ==>
              NormalizeRoute(NormalizeRoute(routeId).value) == NormalizeRoute(routeId)
  {
    if NormalizeRoute(routeId).Ok? {
      var n := RouteNumber(routeId);
      RouteNumberCanonical(n);
      assert NormalizeRoute(routeId).value == "R" + NatToString(n);
    }
  }

  /** A route id made of digits only keeps its value, unless it is too long
      for int(). */
  lemma NormalizeRouteDigits(d: string)
    requires |d| > 0 && AllDigits(d)
    ensures NormalizeRoute(d)
            == if |d| <= MaxStrDigits then Ok("R" + NatToString(DigitsValue(d))) else Raised(ValueError)
  {
    assert FirstDigitIndex(d) == 0;
    assert d[0..] == d;
    TakeDigitsAll(d);
  }

  /** The first digit of a string is the one that no digit precedes. */
  lemma FirstDigitAt(s: string, k: nat)
    requires k < |s| && IsDigit(s[k]) && forall i | 0 <= i < k :: !IsDigit(s[i])
    ensures FirstDigitIndex(s) == k
  {
  }

  /** The route number is the value of the first digit run. */
  lemma RouteFromRun(routeId: string, d: string)
    requires FirstDigitRun(routeId) == Some(d)
    ensures NormalizeRoute(routeId)
            == if |d| <= MaxStrDigits then Ok("R" + NatToString(DigitsValue(d))) else Raised(ValueError)
  {
  }

  lemma RouteLeadingZeroExample(v: string)
    requires v == "Route-04"
    ensures NormalizeRoute(v) == Ok("R4")
  {
    FirstDigitAt(v, 6);
    var d := v[6..];
    assert d == "04";
    TakeDigitsAll(d);
    RouteFromRun(v, d);
    TwoDigits(d);
    assert "R" + NatToString(4) == "R4";
  }

  /** The leading digits of a string end at its first non-digit. */
  lemma TakeDigitsStop(s: string, k: nat)
    requires k < |s| && AllDigits(s[..k]) && !IsDigit(s[k])
    ensures TakeDigits(s) == s[..k]
  {
    var r := TakeDigits(s);
    assert forall i | 0 <= i < k :: IsDigit(s[i]) by {
      forall i | 0 <= i < k ensures IsDigit(s[i]) {
        assert s[..k][i] == s[i];
      }
    }
    assert forall i | 0 <= i < |r| :: r[i] == s[i];
  }

  lemma FirstRunOfExample(v: string)
    requires v == "R12 express 7"
    ensures FirstDigitRun(v) == Some("12")
  {
    FirstDigitAt(v, 1);
    var t := v[1..];
    assert t[..2] == "12" && !IsDigit(t[2]);
    TakeDigitsStop(t, 2);
  }

  lemma RouteFirstRunExample(v: string)
    requires v == "R12 express 7"
    ensures NormalizeRoute(v) == Ok("R12")
  {
    FirstRunOfExample(v);
    RouteFromRun(v, "12");
    TwoDigits("12");
    assert "R" + NatToString(12) == "R12";
  }

  lemma RouteNoDigitsExample(v: string)
    requires v == "express"
    ensures NormalizeRoute(v) == Ok("R0")
  {
    assert forall i | 0 <= i < |v| :: !IsDigit(v[i]);
  }

  /** A route id whose digit run is longer than int() accepts makes
      _normalize_route raise ValueError. */
  lemma RouteOverlong(v: string, k: nat)
    requires k > MaxStrDigits && v == "R" + seq(k, _ => '1')
    ensures NormalizeRoute(v) == Raised(ValueError)
  {
    var d := v[1..];
    assert d == seq(k, _ => '1');
    assert AllDigits(d);
    FirstDigitAt(v, 1);
    TakeDigitsAll(d);
    RouteFromRun(v, d);
  }

  // ---------------------------------------------------------------------
  // Whole records

  lemma ParseAmExample(v: Option<string>, today: int, parse: DateParser)
    requires v == Some("8.45AM")
    ensures ParseDateTime(v, today, parse) == Ok(Some(Combine(today, 8, 45)))
  {
    var t := v.value;
    assert Strip(t) == t by { StripNoop(t); }
    TimeOnlyAmExample(t, today);
  }

  /** A dated text matches none of the time-only shapes, so it is read by
      the general parser alone. */
  lemma ScheduledDateExample(v: Option<string>, today: int, parse: DateParser)
    requires v == Some("2025-12-07 08:30")
    ensures ParseDateTime(v, today, parse)
            == match parse(v.value)
               case Parsed(dt) => Ok(Some(dt.wallClock))
               case Unreadable => Ok(None)
               case Overflow => Raised(OverflowError)
  {
    var t := v.value;
    assert Strip(t) == t by { StripNoop(t); }
    assert |t| == 16;
    assert ParseTimeOnly(t, today) == Ok(None);
  }

  /** The ingest test payload: route "Route-04", a dated scheduled time,
      actual time "8.45AM", weather "Clody", 250 passengers, latitude 999
      and longitude 30, with no counts stored yet. */
  lemma IngestPayloadCleaned(raw: RawRecord, today: int, parse: DateParser)
    requires raw == RawRecord("Route-04", Some("2025-12-07 08:30"), Some("8.45AM"), "Clody", Some(250), Some(999.0), Some(30.0))
    ensures parse("2025-12-07 08:30").Overflow? ==> CleanRecord(raw, [], today, parse) == Raised(OverflowError)
    ensures var p := parse("2025-12-07 08:30");
            var scheduled := if p.Parsed? then Some(p.dateTime.wallClock) else None;
            var actual := Some(Combine(today, 8, 45));
            !p.Overflow? ==>
            CleanRecord(raw, [], today, parse)
            == Ok(CleanedRecord("R4", scheduled, actual, "cloudy", 10, None, Some(30.0), true,
                                ComputeDelay(scheduled, actual)))
  {
    ScheduledDateExample(raw.scheduledTime, today, parse);
    if !parse(raw.scheduledTime.value).Overflow? {
      ParseAmExample(raw.actualTime, today, parse);
      RouteLeadingZeroExample(raw.routeId);
      WeatherTypoExample(raw.weather);
      assert CleanPassengerCount(raw.passengerCount, []) == 10;
      assert ValidateGps(raw.latitude, raw.longitude) == (None, Some(30.0));
    }
  }

  /** A record without timestamps but with an overlong route number is
      refused with ValueError. */
  lemma OverlongRouteRecord(raw: RawRecord, today: int, parse: DateParser)
    requires raw == RawRecord("R" + seq(MaxStrDigits + 1, _ => '1'), None, None, "sunny", None, None, None)
    ensures CleanRecord(raw, [], today, parse) == Raised(ValueError)
  {
    RouteOverlong(raw.routeId, MaxStrDigits + 1);
  }

  /** "08:50" is 08:50 today. */
  lemma TimeOnlyColonLaterExample(v: string, today: int)
    requires v == "08:50"
    ensures ParseTimeOnly(v, today) == Ok(Some(Combine(today, 8, 50)))
  {
    assert MatchColon(v) == Some((8, 50)) by {
      assert v[..|v| - 3] == "08" && v[|v| - 2..] == "50";
      TwoDigits("08");
      TwoDigits("50");
    }
    TimeOnlyByColon(v, today, 8, 50);
    assert AtTime(today, 8, 50) == Ok(Some(Combine(today, 8, 50)));
  }

  lemma ParseScheduledExample(v: Option<string>, today: int, parse: DateParser)
    requires v == Some("08:30")
    ensures ParseDateTime(v, today, parse) == Ok(Some(Combine(today, 8, 30)))
  {
    var t := v.value;
    assert Strip(t) == t by { StripNoop(t); }
    TimeOnlyColonExample(t, today);
  }

  lemma ParseActualExample(v: Option<string>, today: int, parse: DateParser)
    requires v == Some("08:50")
    ensures ParseDateTime(v, today, parse) == Ok(Some(Combine(today, 8, 50)))
  {
    var t := v.value;
    assert Strip(t) == t by { StripNoop(t); }
    TimeOnlyColonLaterExample(t, today);
  }

  lemma TwentyMinutes(today: int)
    ensures ComputeDelay(Some(Combine(today, 8, 30)), Some(Combine(today, 8, 50))) == Some(20.0)
  {
    assert Combine(today, 8, 50) - Combine(today, 8, 30) == 1200;
  }

  /** A record scheduled at "08:30" that ran at "08:50" is twenty minutes
      late, whatever its other fields hold, unless its route number is too
      long for int(). */
  lemma DelayExample(raw: RawRecord, history: seq<int>, today: int, parse: DateParser)
    requires raw.scheduledTime == Some("08:30") && raw.actualTime == Some("08:50")
    ensures var r := CleanRecord(raw, history, today, parse);
            && (r.Raised? <==> !RouteFits(raw.routeId))
            && (r.Raised? ==> r.error == ValueError)
            && (r.Ok? ==> r.value.delayMinutes == Some(20.0))
  {
    ParseScheduledExample(raw.scheduledTime, today, parse);
    ParseActualExample(raw.actualTime, today, parse);
    TwentyMinutes(today);
  }
}
