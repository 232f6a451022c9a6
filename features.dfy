/** create_features: the single feature row derived from a cleaned record,
    with its keys sorted, as the one-row frame the predictor receives. */
module Features {
  import opened Common
  import opened Text
  import opened Timestamps
  import opened Frames
  import Cleaning
  import CleaningProperties
  import Config

  // ---------------------------------------------------------------------
  // Buckets

  /** _time_of_day: 5..11 morning, 12..17 afternoon, 18..22 evening, every
      other int night. */
  function TimeOfDay(hour: int): (r: string)
    ensures r == "morning" || r == "afternoon" || r == "evening" || r == "night"
  {
    if 5 <= hour <= 11 then "morning"
    else if 12 <= hour <= 17 then "afternoon"
    else if 18 <= hour <= 22 then "evening"
    else "night"
  }

  const Severity: map<string, int> :=
    map["sunny" := 0, "clear" := 0, "cloudy" := 1, "fog" := 1, "rainy" := 2, "snow" := 3, "unknown" := 1]

  /** _weather_severity: the severity of the re-normalised weather, 1 for a
      value the table does not list. */
  function WeatherSeverity(weather: string): (r: int)
    ensures 0 <= r <= 3
  {
    var n := Cleaning.NormalizeWeather(weather);
    if n in Severity then Severity[n] else 1
  }

  // ---------------------------------------------------------------------
  // Single features

  /** scheduled.hour, or 0 without a scheduled time. */
  function HourFeature(scheduled: Option<Timestamp>): (h: int)
    ensures 0 <= h < 24
  {
    if scheduled.Some? then HourOf(scheduled.value) else 0
  }

  /** scheduled.weekday(), or 0 without a scheduled time. */
  function DayFeature(scheduled: Option<Timestamp>): (d: int)
    ensures 0 <= d < 7
  {
    if scheduled.Some? then WeekdayOf(scheduled.value) else 0
  }

  /** `delay or 0.0`: an absent delay (and a zero one) reads as 0.0. */
  function DelayFeature(delay: Option<real>): (d: real)
    ensures delay.Some? ==> d == delay.value
    ensures delay.None? ==> d == 0.0
  {
    if delay.Some? then delay.value else 0.0
  }

  /** int(_normalize_route(route_id)[1:] or 0): the ValueError of an
      overlong digit run propagates; otherwise the digits after the "R"
      always parse, so this is the number the normalisation extracted. */
  function RouteNum(routeId: string): (r: Result<int>)
    ensures r.Raised? <==> !Cleaning.RouteFits(routeId)
    ensures r.Raised? ==> r.error == ValueError
    ensures r.Ok? ==> r.value == Cleaning.RouteNumber(routeId) && r.value >= 0
  {
    match Cleaning.NormalizeRoute(routeId)
    case Raised(e) => Raised(e)
    case Ok(s) =>
      var digits := s[1..];
      ParseNatToString(Cleaning.RouteNumber(routeId));
      Ok(ParseInt(digits).value)
  }

  /** A coordinate as the frame holds it: a float or None. */
  function Coordinate(c: Option<real>): Value {
    if c.Some? then RealV(c.value) else NoneV
  }

  // ---------------------------------------------------------------------
  // Sorting the items by key

  type Item = (string, Value)

  /** Keys in non-descending order, compared as Python compares str. */
  predicate KeysSorted(items: seq<Item>) {
    forall i | 0 <= i < |items| - 1 :: !StringLess(items[i + 1].0, items[i].0)
  }

  /** Keys in strictly ascending order. */
  predicate KeysAscending(items: seq<Item>) {
    forall i | 0 <= i < |items| - 1 :: StringLess(items[i].0, items[i + 1].0)
  }

  function InsertByKey(x: Item, s: seq<Item>): (r: seq<Item>)
    requires KeysSorted(s)
    ensures KeysSorted(r) && multiset(r) == multiset(s) + multiset{x}
    ensures |r| == |s| + 1 && (r[0] == x || (|s| > 0 && r[0] == s[0]))
  {
    if s == [] || !StringLess(s[0].0, x.0) then [x] + s
    else
      var t := InsertByKey(x, s[1..]);
      StringLessAsymmetric(s[0].0, x.0);
      assert s == [s[0]] + s[1..];
      [s[0]] + t
  }

  /** sorted(items): a permutation of the items with keys in order. */
  function SortByKey(items: seq<Item>): (r: seq<Item>)
    ensures KeysSorted(r) && multiset(r) == multiset(items) && |r| == |items|
  {
    if items == [] then []
    else
      assert items == [items[0]] + items[1..];
      InsertByKey(items[0], SortByKey(items[1..]))
  }

  /** Items whose keys already ascend are left as they are. */
  lemma {:induction false} SortByKeyAscending(items: seq<Item>)
    requires KeysAscending(items)
    ensures SortByKey(items) == items
  {
    if items != [] {
      assert KeysAscending(items[1..]);
      SortByKeyAscending(items[1..]);
      if |items| > 1 {
        StringLessAsymmetric(items[0].0, items[1].0);
      }
    }
  }

  predicate DistinctKeys(items: seq<Item>) {
    forall i, j | 0 <= i < j < |items| :: items[i].0 != items[j].0
  }

  lemma {:induction false} AscendingLess(items: seq<Item>, i: nat, j: nat)
    requires KeysAscending(items) && i < j < |items|
    ensures StringLess(items[i].0, items[j].0)
    decreases j - i
  {
    if j > i + 1 {
      AscendingLess(items, i + 1, j);
      StringLessTransitive(items[i].0, items[i + 1].0, items[j].0);
    }
  }

  lemma AscendingDistinct(items: seq<Item>)
    requires KeysAscending(items)
    ensures DistinctKeys(items)
  {
    forall i, j | 0 <= i < j < |items| ensures items[i].0 != items[j].0 {
      AscendingLess(items, i, j);
      StringLessIrreflexive(items[i].0);
    }
  }

  // ---------------------------------------------------------------------
  // The one-row frame

  function Keys(items: seq<Item>): (ks: seq<string>)
    ensures |ks| == |items| && forall i | 0 <= i < |items| :: ks[i] == items[i].0
  {
    seq(|items|, i requires 0 <= i < |items| => items[i].0)
  }

  /** The cells of pd.DataFrame([dict(items)]): each key holds its one value. */
  function ToCells(items: seq<Item>): (m: map<string, seq<Value>>)
    ensures forall k | k in m :: |m[k]| == 1 && k in Keys(items)
    ensures forall i | 0 <= i < |items| :: items[i].0 in m
  {
    if items == [] then map[]
    else
      var rest := ToCells(items[1..]);
      KeysTail(items);
      rest[items[0].0 := [items[0].1]]
  }

  /** The keys after the first are the keys of the tail. */
  lemma KeysTail(items: seq<Item>)
    requires |items| > 0
    ensures items[0].0 in Keys(items)
    ensures forall k | k in Keys(items[1..]) :: k in Keys(items)
    ensures forall i | 1 <= i < |items| :: items[i] == items[1..][i - 1]
  {
    assert Keys(items)[0] == items[0].0;
    forall k | k in Keys(items[1..]) ensures k in Keys(items) {
      var j :| 0 <= j < |items| - 1 && Keys(items[1..])[j] == k;
      assert Keys(items)[j + 1] == k;
    }
  }

  lemma {:induction false} ToCellsLookup(items: seq<Item>, i: nat)
    requires DistinctKeys(items) && i < |items|
    ensures ToCells(items)[items[i].0] == [items[i].1]
  {
    if i > 0 {
      assert items[1..][i - 1] == items[i];
      ToCellsLookup(items[1..], i - 1);
    }
  }

  /** pd.DataFrame([dict(items)]) for items with distinct keys. */
  function OneRow(items: seq<Item>): (f: Frame)
    requires DistinctKeys(items)
    ensures Valid(f) && f.height == 1 && f.columns == Keys(items)
    ensures forall i | 0 <= i < |items| :: f.cells[items[i].0] == [items[i].1]
  {
    forall i | 0 <= i < |items| ensures ToCells(items)[items[i].0] == [items[i].1] {
      ToCellsLookup(items, i);
    }
    Frame(Keys(items), ToCells(items), 1)
  }

  // ---------------------------------------------------------------------
  // create_features

  /** The ten feature names in ascending order. */
  const FeatureNames: seq<string> :=
    ["day_of_week", "delay_minutes_if_any", "hour_of_day", "is_weekend", "latitude",
     "longitude", "passenger_count", "route_num", "time_of_day", "weather_severity"]

  /** The feature values of a cleaned record, in the order of FeatureNames. */
  function FeatureValues(rec: Cleaning.CleanedRecord): (vs: seq<Value>)
    requires Cleaning.RouteFits(rec.routeId)
    ensures |vs| == 10 == |FeatureNames|
  {
    var hour := HourFeature(rec.scheduledTime);
    var day := DayFeature(rec.scheduledTime);
    [IntV(day),
     RealV(DelayFeature(rec.delayMinutes)),
     IntV(hour),
     IntV(if day >= 5 then 1 else 0),
     Coordinate(rec.latitude),
     Coordinate(rec.longitude),
     IntV(rec.passengerCount),
     IntV(RouteNum(rec.routeId).value),
     StrV(TimeOfDay(hour)),
     IntV(WeatherSeverity(rec.weather))]
  }

  lemma FeatureValuesListed(rec: Cleaning.CleanedRecord)
    requires Cleaning.RouteFits(rec.routeId)
    ensures var hour := HourFeature(rec.scheduledTime);
      var day := DayFeature(rec.scheduledTime);
      FeatureValues(rec)
      == [IntV(day), RealV(DelayFeature(rec.delayMinutes)), IntV(hour), IntV(if day >= 5 then 1 else 0),
          Coordinate(rec.latitude), Coordinate(rec.longitude), IntV(rec.passengerCount),
          IntV(Cleaning.RouteNumber(rec.routeId)), StrV(TimeOfDay(hour)), IntV(WeatherSeverity(rec.weather))]
  {
  }

  /** The feature dict of a cleaned record, in the order it is written. */
  function FeatureItems(rec: Cleaning.CleanedRecord): (items: seq<Item>)
    requires Cleaning.RouteFits(rec.routeId)
    ensures Keys(items) == FeatureNames
  {
    var vs := FeatureValues(rec);
    seq(|FeatureNames|, i requires 0 <= i < |FeatureNames| => (FeatureNames[i], vs[i]))
  }

  /** Two strings that differ in their first or second character are
      ordered by it. */
  lemma StringLessEarly(a: string, b: string)
    requires |a| > 1 && |b| > 1
    requires a[0] < b[0] || (a[0] == b[0] && a[1] < b[1])
    ensures StringLess(a, b)
  {
    if a[0] == b[0] {
      assert a[1..][0] == a[1] && b[1..][0] == b[1];
    }
  }

  /** The names are written in ascending order already. */
  lemma FeatureNamesOrdered(i: nat)
    requires i < |FeatureNames| - 1
    ensures StringLess(FeatureNames[i], FeatureNames[i + 1])
  {
    var a, b := FeatureNames[i], FeatureNames[i + 1];
    assert |a| > 1 && |b| > 1;
    if i == 0 || i == 4 {
      assert a[0] == b[0] && a[1] < b[1];
    } else {
      assert a[0] < b[0];
    }
    StringLessEarly(a, b);
  }

  lemma FeatureNamesAscending(items: seq<Item>)
    requires Keys(items) == FeatureNames
    ensures KeysAscending(items)
  {
    forall i | 0 <= i < |items| - 1 ensures StringLess(items[i].0, items[i + 1].0) {
      FeatureNamesOrdered(i);
    }
  }

  /** create_features: dict(sorted(features.items())) as a one-row frame;
      the ValueError re-normalising an overlong route id raises propagates. */
  function CreateFeatures(rec: Cleaning.CleanedRecord): (r: Result<Frame>)
    ensures r.Raised? <==> !Cleaning.RouteFits(rec.routeId)
    ensures r.Raised? ==> r.error == ValueError
    ensures r.Ok? ==> Valid(r.value) && r.value.height == 1 && r.value.columns == FeatureNames
  {
    var route := RouteNum(rec.routeId);
    if route.Raised? then Raised(route.error)
    else
      var items := FeatureItems(rec);
      FeatureNamesAscending(items);
      SortByKeyAscending(items);
      AscendingDistinct(items);
      Ok(OneRow(SortByKey(items)))
  }

  /** The route id of every record clean_record returns was normalised, so
      create_features never raises on it. */
  lemma CleanedRouteFits(raw: Cleaning.RawRecord, history: seq<int>, today: int, parse: Cleaning.DateParser)
    ensures var c := Cleaning.CleanRecord(raw, history, today, parse);
            c.Ok? ==> Cleaning.RouteFits(c.value.routeId) && CreateFeatures(c.value).Ok?
  {
    CleaningProperties.NormalizeRouteIdempotent(raw.routeId);
  }

  // ---------------------------------------------------------------------
  // Properties

  /** The four buckets partition the integers. */
  lemma TimeOfDayBuckets(hour: int)
    ensures TimeOfDay(hour) == "morning" <==> 5 <= hour <= 11
    ensures TimeOfDay(hour) == "afternoon" <==> 12 <= hour <= 17
    ensures TimeOfDay(hour) == "evening" <==> 18 <= hour <= 22
    ensures TimeOfDay(hour) == "night" <==> hour < 5 || hour > 22
  {
  }

  /** The severity table on the values normalize_weather can return: every
      one of them is listed, so the default 1 is never used. */
  lemma SeverityOfNormal(n: string)
    requires n in Config.AllowedWeather || n == "unknown"
    ensures n in Severity
    ensures Severity[n] == 0 <==> n == "sunny" || n == "clear"
    ensures Severity[n] == 1 <==> n == "cloudy" || n == "fog" || n == "unknown"
    ensures Severity[n] == 2 <==> n == "rainy"
    ensures Severity[n] == 3 <==> n == "snow"
  {
    if n == "sunny" { assert Severity[n] == 0; }
    else if n == "clear" { assert Severity[n] == 0; }
    else if n == "cloudy" { assert Severity[n] == 1; }
    else if n == "fog" { assert Severity[n] == 1; }
    else if n == "rainy" { assert Severity[n] == 2; }
    else if n == "snow" { assert Severity[n] == 3; }
    else { assert n == "unknown" && Severity[n] == 1; }
  }

  lemma WeatherSeverityTable(weather: string)
    ensures var n := Cleaning.NormalizeWeather(weather);
      && n in Severity
      && (WeatherSeverity(weather) == 0 <==> n == "sunny" || n == "clear")
      && (WeatherSeverity(weather) == 1 <==> n == "cloudy" || n == "fog" || n == "unknown")
      && (WeatherSeverity(weather) == 2 <==> n == "rainy")
      && (WeatherSeverity(weather) == 3 <==> n == "snow")
  {
    var n := Cleaning.NormalizeWeather(weather);
    SeverityOfNormal(n);
    assert WeatherSeverity(weather) == Severity[n];
  }

  /** Re-normalising makes case, whitespace and known typos irrelevant:
      an already cleaned weather value has the severity of its raw form. */
  lemma WeatherSeverityNormalised(weather: string)
    ensures WeatherSeverity(Cleaning.NormalizeWeather(weather)) == WeatherSeverity(weather)
  {
    CleaningProperties.NormalizeWeatherIdempotent(weather);
  }

  /** Each column of the frame holds the value computed under its name. */
  lemma CreateFeaturesCell(rec: Cleaning.CleanedRecord, i: nat)
    requires i < |FeatureNames|
    ensures CreateFeatures(rec).Ok? ==> CreateFeatures(rec).value.cells[FeatureNames[i]] == [FeatureValues(rec)[i]]
  {
    if Cleaning.RouteFits(rec.routeId) {
      var items := FeatureItems(rec);
      FeatureNamesAscending(items);
      SortByKeyAscending(items);
      AscendingDistinct(items);
      assert items[i] == (FeatureNames[i], FeatureValues(rec)[i]);
    }
  }

  /** A frame whose columns hold the feature values, named. */
  lemma NamedCells(f: Frame, vs: seq<Value>)
    requires |vs| == |FeatureNames|
    requires forall i | 0 <= i < |FeatureNames| :: FeatureNames[i] in f.cells && f.cells[FeatureNames[i]] == [vs[i]]
    ensures "day_of_week" in f.cells && f.cells["day_of_week"] == [vs[0]]
    ensures "delay_minutes_if_any" in f.cells && f.cells["delay_minutes_if_any"] == [vs[1]]
    ensures "hour_of_day" in f.cells && f.cells["hour_of_day"] == [vs[2]]
    ensures "is_weekend" in f.cells && f.cells["is_weekend"] == [vs[3]]
    ensures "latitude" in f.cells && f.cells["latitude"] == [vs[4]]
    ensures "longitude" in f.cells && f.cells["longitude"] == [vs[5]]
    ensures "passenger_count" in f.cells && f.cells["passenger_count"] == [vs[6]]
    ensures "route_num" in f.cells && f.cells["route_num"] == [vs[7]]
    ensures "time_of_day" in f.cells && f.cells["time_of_day"] == [vs[8]]
    ensures "weather_severity" in f.cells && f.cells["weather_severity"] == [vs[9]]
  {
    assert f.cells[FeatureNames[0]] == [vs[0]];
    assert f.cells[FeatureNames[1]] == [vs[1]];
    assert f.cells[FeatureNames[2]] == [vs[2]];
    assert f.cells[FeatureNames[3]] == [vs[3]];
    assert f.cells[FeatureNames[4]] == [vs[4]];
    assert f.cells[FeatureNames[5]] == [vs[5]];
    assert f.cells[FeatureNames[6]] == [vs[6]];
    assert f.cells[FeatureNames[7]] == [vs[7]];
    assert f.cells[FeatureNames[8]] == [vs[8]];
    assert f.cells[FeatureNames[9]] == [vs[9]];
  }

  /** The frame column by column: the record's own latitude, longitude and
      passenger count (absent coordinates as None), the delay or 0.0, the
      route number the normalisation extracted, and the calendar features
      of the scheduled time. */
  lemma CreateFeaturesRow(rec: Cleaning.CleanedRecord)
    ensures CreateFeatures(rec).Ok? ==>
      var f := CreateFeatures(rec).value;
      var hour := HourFeature(rec.scheduledTime);
      var day := DayFeature(rec.scheduledTime);
      && "day_of_week" in f.cells && f.cells["day_of_week"] == [IntV(day)]
      && "delay_minutes_if_any" in f.cells && f.cells["delay_minutes_if_any"] == [RealV(DelayFeature(rec.delayMinutes))]
      && "hour_of_day" in f.cells && f.cells["hour_of_day"] == [IntV(hour)]
      && "is_weekend" in f.cells && f.cells["is_weekend"] == [IntV(if day >= 5 then 1 else 0)]
      && "latitude" in f.cells && f.cells["latitude"] == [Coordinate(rec.latitude)]
      && "longitude" in f.cells && f.cells["longitude"] == [Coordinate(rec.longitude)]
      && "passenger_count" in f.cells && f.cells["passenger_count"] == [IntV(rec.passengerCount)]
      && "route_num" in f.cells && f.cells["route_num"] == [IntV(Cleaning.RouteNumber(rec.routeId))]
      && "time_of_day" in f.cells && f.cells["time_of_day"] == [StrV(TimeOfDay(hour))]
      && "weather_severity" in f.cells && f.cells["weather_severity"] == [IntV(WeatherSeverity(rec.weather))]
  {
    if Cleaning.RouteFits(rec.routeId) {
      FeatureCells(rec);
      NamedCells(CreateFeatures(rec).value, FeatureValues(rec));
      FeatureValuesListed(rec);
    }
  }

  /** Every column of the frame, as a whole. */
  lemma FeatureCells(rec: Cleaning.CleanedRecord)
    requires Cleaning.RouteFits(rec.routeId)
    ensures var f := CreateFeatures(rec).value;
            forall i | 0 <= i < |FeatureNames| :: FeatureNames[i] in f.cells && f.cells[FeatureNames[i]] == [FeatureValues(rec)[i]]
  {
    forall i | 0 <= i < |FeatureNames|
      ensures FeatureNames[i] in CreateFeatures(rec).value.cells
    {
      CreateFeaturesCell(rec, i);
    }
    forall i | 0 <= i < |FeatureNames|
      ensures CreateFeatures(rec).value.cells[FeatureNames[i]] == [FeatureValues(rec)[i]]
    {
      CreateFeaturesCell(rec, i);
    }
  }

  /** Without a scheduled time the hour and the weekday are 0, so the row
      is a weekday night. */
  lemma NoScheduledTime(rec: Cleaning.CleanedRecord)
    requires rec.scheduledTime.None?
    ensures CreateFeatures(rec).Ok? ==>
      var f := CreateFeatures(rec).value;
      && "hour_of_day" in f.cells && f.cells["hour_of_day"] == [IntV(0)]
      && "day_of_week" in f.cells && f.cells["day_of_week"] == [IntV(0)]
      && "is_weekend" in f.cells && f.cells["is_weekend"] == [IntV(0)]
      && "time_of_day" in f.cells && f.cells["time_of_day"] == [StrV("night")]
  {
    assert HourFeature(rec.scheduledTime) == 0 && DayFeature(rec.scheduledTime) == 0;
    assert TimeOfDay(0) == "night";
    CreateFeaturesRow(rec);
  }

  /** is_weekend is 1 exactly on Saturdays and Sundays (weekday 5 and 6),
      and 0 on the other days. */
  lemma IsWeekendExactly(rec: Cleaning.CleanedRecord)
    requires rec.scheduledTime.Some?
    ensures CreateFeatures(rec).Ok? ==>
      var f := CreateFeatures(rec).value;
      && "is_weekend" in f.cells
      && (f.cells["is_weekend"] == [IntV(1)] <==> WeekdayOf(rec.scheduledTime.value) >= 5)
      && (f.cells["is_weekend"] == [IntV(0)] <==> WeekdayOf(rec.scheduledTime.value) < 5)
  {
    CreateFeaturesRow(rec);
  }

  /** A canonical route id "R<n>" gives route_num n, when str(n) is within
      the digit limit. */
  lemma RouteNumCanonical(n: nat)
    ensures RouteNum("R" + NatToString(n))
            == if |NatToString(n)| <= MaxStrDigits then Ok(n) else Raised(ValueError)
  {
    CleaningProperties.RouteNumberCanonical(n);
  }
}
