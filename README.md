# Massar: cleaning, features and prediction dispatch, in Dafny

Massar takes transit telemetry records and cleans them one field at a time, then predicts their delay. The cleaning:

- parses timestamps, with time-only shapes read on today's date;
- normalises the weather to a fixed vocabulary;
- imputes a missing or out-of-range passenger count from the median of the stored counts;
- drops GPS coordinates that are out of range;
- rewrites route ids as `R<n>`;
- derives the delay in minutes.

`create_features` turns a cleaned record into a one-row frame with sorted column names. The model server holds at most one loaded artifact and its version string. It answers either with the artifact's output, clipped to [-60, 300], or with a rule-based baseline that starts from the training median of 61 minutes. The training script extracts route numbers and one-hot encodes the time of day.

The project is organised as follows:

- `common.dfy`: `Option`, `Result` and the exceptions the code raises.
- `text.dfy`: the `str` operations used: `strip`, `lower`, `upper`, `replace`, digit runs, `int()` of a `str`, and `str` ordering.
- `statistics.dfy`: `statistics.median` on ints, and `int()` of a float.
- `timestamps.dfy`: timestamps as integer seconds, and the calendar behind `weekday()` and `isoformat()`.
- `config.dfy`: the allowed weather values and the passenger range.
- `cleaning.dfy` and `cleaning_properties.dfy`: `backend/app/cleaning.py` and what is proved about it.
- `frames.dfy`: the part of pandas the code relies on: cells, column-major frames, and a mutable `Table`.
- `features.dfy`: `backend/app/feature_engineering.py`.
- `model_server.dfy`: `backend/app/model_server.py`, with `ModelServer` as a class holding the loaded model.
- `pipeline.dfy`: how the endpoints chain cleaning, features and the server.
- `train_model.dfy`: `extract_route_number` and `prepare_features` of `backend/train_model.py`.

The outside world comes in as parameters:

- the stored passenger counts (the database query);
- today's day number (`datetime.utcnow().date()`);
- `dateutil.parser.parse`, as an uninterpreted function from text to one of three outcomes: a wall clock with an optional offset, a caught `ValueError`/`TypeError`, or an uncaught `OverflowError`;
- for `load_model`: whether the file exists, what `joblib.load` made of it, and its mtime in microseconds.

Behaviour of the code that the proofs make explicit:

- `parse_datetime` can raise. A time-only text such as `"25:00"` or `"7.75pm"` matches a shape, and `time()` then raises `ValueError`. That call sits outside the `try`, so the error escapes `parse_datetime` and `clean_record`. The `try` around `dateutil.parser.parse` catches only `ValueError` and `TypeError`, so an `OverflowError` from it escapes too.
- `int()` refuses a decimal `str` of more than 4300 digits (CPython's default limit). A route id whose first digit run is longer than that makes `_normalize_route`, and with it `clean_record`, raise `ValueError` (`CleaningProperties.RouteOverlong`). `extract_route_number` catches the same error and gives 0 (`Training.ExtractOverlong`). A normalised id is never that long, so `create_features` never raises on a cleaned record (`Features.CleanedRouteFits`).
- On the rows `create_features` builds, severity runs sunny/clear 0, cloudy/fog/unknown 1, rainy 2, snow 3. So the baseline adds 20 only for snow and 10 only for rain (`Pipeline.SeverityAdjustment`).
- The baseline looks for `time_of_day_evening` and `time_of_day_afternoon` flags. `create_features` never produces those columns, so the time of day never changes the served baseline: it is 61, 71 or 81, minus 10 at the weekend (`Pipeline.BaselineOnFeatures`).
- The predict endpoint always takes the baseline path, so a sunny record yields 61 or 51 and never the dummy model's 0. `test_predict_with_dummy_model` expects 0 (`Pipeline.SunnyBaseline`).

## Model

| member | source | states |
|---|---|---|
| Cleaning.MatchColon | backend/app/cleaning.py:22 | a match is a 4- or 5-character text with the colon third from the end, and its hour and minute are below 100 |
| Cleaning.MatchCompact | backend/app/cleaning.py:23 | a match is all digits, its hour and minute are below 100, and hour * 100 + minute is the number the digits spell |
| Cleaning.MatchAmPm | backend/app/cleaning.py:24 | a match is 6 or 7 characters long, its hour and minute are below 100, and it is PM exactly when the suffix starts with P or p |
| Cleaning.To24Hour | backend/app/cleaning.py:35-38 | on hours 1..12 the result is a 24-hour hour with the same position on the 12-hour dial, from noon on exactly for PM |
| Cleaning.AtTime | backend/app/cleaning.py:28-42 | `datetime.combine(today, time(h, m))` succeeds exactly when h <= 23 and m <= 59, and then has today's date, that hour and minute, and second 0; otherwise it raises ValueError |
| Cleaning.ParseTimeOnly | backend/app/cleaning.py:18-43 | only ValueError can escape; the result is None exactly when none of the three shapes matches the stripped text; a parsed time lies on today's date at second 0 |
| Cleaning.ParseDateTime | backend/app/cleaning.py:46-63 | None and blank text give None; it raises exactly when the time-only parser raises on the stripped text, or none of the shapes matches and the general parser raises OverflowError; only ValueError and OverflowError escape; otherwise a time-only match wins, then the general parser's wall clock without its offset, then None when that parser raises ValueError or TypeError |
| Cleaning.NormalizeWeather | backend/app/cleaning.py:66-76 | the result is always one of the six allowed values or "unknown" |
| Cleaning.MedianPassenger | backend/app/cleaning.py:79-87 | 10 when no counts are stored; when every stored count is within 0..200, so is the imputed value |
| Cleaning.CleanPassengerCount | backend/app/cleaning.py:90-96 | an in-range count is kept, a missing or out-of-range one is replaced by the imputed median; the result is in range whenever the stored counts are |
| Cleaning.ValidateGps | backend/app/cleaning.py:99-107 | each coordinate is kept, unchanged, exactly when it is present and inside its inclusive range, independently of the other |
| Cleaning.RouteNumber | backend/app/cleaning.py:112-113 | a route id without digits has number 0 |
| Cleaning.NormalizeRoute | backend/app/cleaning.py:110-114 | raises ValueError exactly when the first digit run is longer than int() accepts; otherwise "R" followed by str() of the route number, a non-empty run of at most 4300 digits |
| Cleaning.ComputeDelay | backend/app/cleaning.py:117-121 | a delay exists exactly when both times do, and then 60 times the delay is the seconds from scheduled to actual |
| Cleaning.CleanRecord | backend/app/cleaning.py:124-151 | raises exactly when parsing either timestamp raises or the route id's digit run is too long for int(), with the scheduled time's error first, then the actual time's, then ValueError; otherwise every field is its own cleaner's result, cleaned is true, the weather is allowed or "unknown", the coordinates are exactly those `_validate_gps` keeps, and the delay is present exactly when both times are |
| CleaningProperties.TimeShapesExclusive | backend/app/cleaning.py:22-31 | no text matches two of the colon, compact and am/pm shapes, so the order they are tried in does not matter |
| CleaningProperties.ColonShape | backend/app/cleaning.py:22-28 | `H:MM` and `HH:MM` read as that hour and minute today, or raise |
| CleaningProperties.CompactShape | backend/app/cleaning.py:23-30 | `HMM` and `HHMM` read with the last two digits as the minute |
| CleaningProperties.AmPmShape | backend/app/cleaning.py:24-39 | `H.MMam`, `HH:MMPM` and the like read through the 12-hour adjustment, in either letter case |
| CleaningProperties.To24HourClock | backend/app/cleaning.py:35-38 | on hours 1..12 the adjustment is the usual clock (12 AM is 0, 12 PM is 12); AM leaves hours above 12 as they are and PM pushes them past 23 |
| CleaningProperties.TimeOnlyAmExample | backend/app/cleaning.py:31-42 | "8.45AM" is 08:45 today |
| CleaningProperties.TimeOnlyMidnightExample | backend/app/cleaning.py:37-38 | "12.05am" is 00:05 today |
| CleaningProperties.TimeOnlyPmExample | backend/app/cleaning.py:35-36 | "7:15PM" is 19:15 today |
| CleaningProperties.TimeOnlyColonExample | backend/app/tests/test_predict.py:34 | "08:30" is 08:30 today |
| CleaningProperties.TimeOnlyColonLaterExample | backend/app/tests/test_predict.py:35 | "08:50" is 08:50 today |
| CleaningProperties.TimeOnlyOutOfRange | backend/app/cleaning.py:28 | a colon-shaped time with hour above 23 or minute above 59 raises ValueError |
| CleaningProperties.ParseDateTimeOutOfRange | backend/app/cleaning.py:54-63 | that ValueError escapes parse_datetime instead of becoming None, whatever the general parser would say |
| CleaningProperties.ParseDateTimeIgnoresOffset | backend/app/cleaning.py:58-60 | two parsers that read the same wall clocks give the same result, whatever offsets they report |
| CleaningProperties.ParseDateTimeRejects | backend/app/cleaning.py:58-63 | "not-a-time", which the general parser rejects, gives None |
| CleaningProperties.GeneralParserDecides | backend/app/cleaning.py:54-63 | a stripped text too long for any time-only shape goes to the general parser: a reading gives its wall clock, a caught error None, an OverflowError escapes |
| CleaningProperties.ParseDateTimeOverflow | backend/app/cleaning.py:58-63 | a text matching no time-only shape on which the general parser raises OverflowError makes parse_datetime raise it, since the `except` names only ValueError and TypeError |
| CleaningProperties.TimeOnlyRestrip | backend/app/cleaning.py:20 | the second strip inside `_parse_time_only`, after parse_datetime has stripped, changes nothing |
| CleaningProperties.ParseDateTimeBlank | backend/app/cleaning.py:50-52 | an all-whitespace text gives None whatever the parser |
| CleaningProperties.ParseDateTimeTimeOnly | backend/app/cleaning.py:54-56 | a time-only text never reaches the general parser and, when it parses, falls on today's date |
| CleaningProperties.NormalizeWeatherIdempotent | backend/app/cleaning.py:66-76 | normalising a normalised value changes nothing |
| CleaningProperties.NormalizeWeatherAllowed | backend/app/cleaning.py:68-76 | an allowed value is recognised whatever its case and surrounding whitespace |
| CleaningProperties.SunTestRedundant | backend/app/cleaning.py:69-73 | on ASCII text, the upper-case "SUN" test can only ever see "sunny", because the typo map has already turned "sun" into it |
| CleaningProperties.NormalizeWeatherTypo | backend/app/cleaning.py:69-71 | a listed typo, once stripped and lower-cased, becomes its correction |
| CleaningProperties.NormalizeWeatherUnknown | backend/app/cleaning.py:74-75 | on ASCII text, everything neither allowed nor a listed typo becomes "unknown" |
| CleaningProperties.WeatherTypoExample | backend/app/tests/test_ingest.py:29 | "Clody" becomes "cloudy" |
| CleaningProperties.WeatherSunExample | backend/app/tests/test_predict.py:36 | "sun" becomes "sunny" |
| CleaningProperties.WeatherUnknownExample | backend/app/cleaning.py:74-75 | "hail" becomes "unknown" |
| CleaningProperties.MedianPassengerOrderIndependent | backend/app/cleaning.py:81-87 | the imputed count depends only on which counts are stored, not on their order |
| CleaningProperties.PassengerOutOfRangeExample | backend/app/cleaning.py:92-95 | 250 and -5 are replaced, by 10 on an empty store |
| CleaningProperties.PassengerMedianEvenExample | backend/app/cleaning.py:87 | with counts 10 and 15 stored, a missing count becomes int(12.5) = 12 |
| CleaningProperties.RouteNumberCanonical | backend/app/cleaning.py:112-113 | the first digit run of "R<n>" is str(n), and the number read from it is n |
| CleaningProperties.NormalizeRouteIdempotent | backend/app/cleaning.py:110-114 | normalising a normalised route id succeeds and changes nothing |
| CleaningProperties.NormalizeRouteDigits | backend/app/cleaning.py:110-114 | an all-digit id of at most 4300 digits becomes "R" followed by its value without leading zeros; a longer one raises ValueError |
| CleaningProperties.RouteLeadingZeroExample | backend/app/tests/test_ingest.py:26 | "Route-04" becomes "R4" |
| CleaningProperties.RouteFirstRunExample | backend/app/cleaning.py:112-113 | "R12 express 7" becomes "R12": only the first digit run counts |
| CleaningProperties.RouteNoDigitsExample | backend/app/cleaning.py:113 | "express" becomes "R0" |
| CleaningProperties.RouteOverlong | backend/app/cleaning.py:112-113 | "R" followed by more than 4300 digits raises ValueError |
| CleaningProperties.OverlongRouteRecord | backend/app/cleaning.py:136 | a record whose route id carries 4301 digits is refused with ValueError |
| CleaningProperties.ScheduledDateExample | backend/app/cleaning.py:54-63 | the dated text "2025-12-07 08:30" matches no time-only shape, so it is whatever the general parser reads, None when it cannot read it, or its OverflowError |
| CleaningProperties.IngestPayloadCleaned | backend/app/tests/test_ingest.py:24-41 | the ingest test payload cleans to route "R4", "cloudy", 10 passengers and no latitude. Longitude 30 is kept, the actual time is 08:45 today, the scheduled time is the general parser's reading of the dated text (None when it cannot read it), and the delay is derived from the two; should that parser raise OverflowError, the record raises it |
| CleaningProperties.DelayExample | backend/app/tests/test_predict.py:32-40 | a record scheduled at "08:30" that ran at "08:50" is cleaned with a delay of 20.0 minutes, whatever its other fields, unless its route number is too long for int(), which raises ValueError |
| Statistics.Sort | backend/app/cleaning.py:87 | the result is sorted and a permutation of the input |
| Statistics.SortedUnique | backend/app/cleaning.py:87 | two sorted sequences with the same elements are equal |
| Statistics.Median | backend/app/cleaning.py:87 | the median is at least one of the values and at most one of the values |
| Statistics.MedianOrderIndependent | backend/app/cleaning.py:87 | the median depends only on the multiset of values |
| Statistics.MedianBounds | backend/app/cleaning.py:87 | the median lies within any bounds every value respects |
| Statistics.Truncate | backend/app/cleaning.py:87 | int() of a float truncates toward zero |
| Features.TimeOfDay | backend/app/feature_engineering.py:11-19 | the bucket is one of "morning", "afternoon", "evening" and "night" |
| Features.TimeOfDayBuckets | backend/app/feature_engineering.py:11-19 | each of the four buckets is returned exactly for its hours, night covering everything outside 5..22 |
| Features.WeatherSeverity | backend/app/feature_engineering.py:22-25 | the severity is between 0 and 3 |
| Features.WeatherSeverityTable | backend/app/feature_engineering.py:22-25 | every normalised value is listed in the table, and the severity is 0, 1, 2 or 3 exactly for its listed weathers |
| Features.WeatherSeverityNormalised | backend/app/feature_engineering.py:25 | re-normalising a stored weather value does not change its severity |
| Features.HourFeature | backend/app/feature_engineering.py:32 | the hour is in 0..23 |
| Features.DayFeature | backend/app/feature_engineering.py:33 | the weekday is in 0..6 |
| Features.DelayFeature | backend/app/feature_engineering.py:31 | the delay when present, 0.0 otherwise |
| Features.RouteNum | backend/app/feature_engineering.py:44 | the ValueError of re-normalising an overlong route id propagates, exactly then; otherwise parsing the digits after "R" succeeds and gives the route number the normalisation extracted |
| Features.SortByKey | backend/app/feature_engineering.py:50 | `sorted(items)` keeps the items and puts the keys in order |
| Features.SortByKeyAscending | backend/app/feature_engineering.py:50 | sorting items whose keys already ascend leaves them unchanged |
| Features.CreateFeatures | backend/app/feature_engineering.py:28-52 | raises ValueError exactly when the route id's digit run is too long for int(); otherwise a valid one-row frame whose columns are the ten feature names in sorted order |
| Features.CleanedRouteFits | backend/app/feature_engineering.py:44 | the route id of every record clean_record returns fits, so create_features never raises on it |
| Features.CreateFeaturesRow | backend/app/feature_engineering.py:30-51 | each of the ten cells holds its feature: weekday, delay or 0.0, hour, weekend flag, coordinates or None, passenger count, route number, time bucket, severity |
| Features.NoScheduledTime | backend/app/feature_engineering.py:32-34 | without a scheduled time the row is hour 0, weekday 0, not a weekend, "night" |
| Features.IsWeekendExactly | backend/app/feature_engineering.py:33-34 | is_weekend is 1 exactly on weekdays 5 and 6, and 0 exactly on the others |
| Features.RouteNumCanonical | backend/app/feature_engineering.py:44 | the route_num of "R<n>" is n when str(n) has at most 4300 digits, and ValueError otherwise |
| Frames.Column | backend/train_model.py:28 | `df[key]` raises KeyError exactly when the column is missing, otherwise gives its values |
| Frames.WithColumn | backend/train_model.py:28 | `df[key] = values` replaces or appends that column and leaves every other column as it was |
| Frames.SelectColumns | backend/train_model.py:47 | `df[keys]` raises KeyError exactly when one of the keys is missing, otherwise has exactly those columns in that order with their values |
| Frames.Concat | backend/train_model.py:48 | `pd.concat(axis=1)` puts the columns of the second frame after those of the first, keeping all values |
| Frames.Table.Copy | backend/train_model.py:25 | the copy holds the same frame |
| Frames.Table.SetColumn | backend/train_model.py:28 | the table afterwards holds the frame with that column set |
| ModelServing.Clamp | backend/app/model_server.py:86 | the result is within the bounds, equal to x when x is, and the nearer bound otherwise |
| ModelServing.ClipAll | backend/app/model_server.py:86 | every value is clamped to [-60, 300], in place and order |
| ModelServing.ClipAllIdempotent | backend/app/model_server.py:86 | clipping twice is clipping once |
| ModelServing.WeatherAdjustment | backend/app/model_server.py:102-107 | +20 exactly for a severity equal to 3, +10 exactly for one equal to 2, 0 exactly otherwise, a missing severity having been read as 2 |
| ModelServing.TimeAdjustment | backend/app/model_server.py:110-113 | +15 exactly when the evening flag equals 1; otherwise +5 exactly when the afternoon flag does; 0 exactly when neither does |
| ModelServing.WeekendAdjustment | backend/app/model_server.py:117-118 | -10 exactly when the weekend flag equals 1, 0 otherwise |
| ModelServing.BaselineSum | backend/app/model_server.py:99-118 | the unclamped baseline of any row lies in [51, 96] |
| ModelServing.BaselineRow | backend/app/model_server.py:120-122 | the clamp to [0, 180] never changes that sum |
| ModelServing.Baseline | backend/app/model_server.py:96-124 | one baseline value per row, in row order |
| ModelServing.VersionOf | backend/app/model_server.py:56-57 | "v1" for a zero mtime; otherwise it raises exactly when the year falls outside 1..9999, and then with the date-range error; the text is 19 characters long, or 26 with microseconds, and reads back, field by field, as the mtime's date, time and microseconds |
| Timestamps.DateTimeOfMicros | backend/app/model_server.py:57 | the calendar date is valid, every field is in range, and the date's day number, the hour, minute, second and microsecond add back up to the instant |
| Timestamps.IsoFormat | backend/app/model_server.py:57 | raises, with the date-range error, exactly when the year is outside 1..9999; otherwise positions 0-3, 5-6, 8-9, 11-12, 14-15 and 17-18 are digits reading as year, month, day, hour, minute and second, separated by "-", "-", "T", ":" and ":", followed by "." and six digits reading as the microseconds exactly when those are not zero |
| ModelServing.VersionExamples | backend/app/model_server.py:57 | mtime 0 gives "v1", and 1970-02-01 01:01:01.5 gives "1970-02-01T01:01:01.500000" |
| ModelServing.DummyModel | backend/app/tests/test_predict.py:10-12 | the test artifact returns a zero for every row |
| ModelServing.DummyModelUnclipped | backend/app/model_server.py:86 | clipping the dummy's output leaves it unchanged |
| ModelServing.ModelServer.constructor | backend/app/model_server.py:35-37 | a new server holds no model |
| ModelServing.ModelServer.Loaded | backend/app/model_server.py:39-42 | true exactly when a model is held; ModelVersion's contract states that it is None exactly when Loaded is false |
| ModelServing.ModelServer.ModelVersion | backend/app/model_server.py:44-47 | the held model's version, None exactly when nothing is loaded |
| ModelServing.ModelServer.LoadModel | backend/app/model_server.py:49-58 | a missing file unloads the server; a failing load or version raises and leaves the server as it was; otherwise the artifact is held with its version |
| ModelServing.ModelServer.BaselinePredict | backend/app/model_server.py:90-124 | the loop returns the baseline of every row, in row order |
| ModelServing.ModelServer.Predict | backend/app/model_server.py:61-88 | unloaded raises ModelNotLoadedError; the baseline path gives the baseline, or IndexError on an empty frame when it logs the first value; otherwise the artifact's output clipped to [-60, 300], or its exception |
| Pipeline.NotAFeatureName | backend/app/model_server.py:110-113 | neither time-of-day flag the baseline reads is a feature name |
| Pipeline.SeverityAdjustment | backend/app/model_server.py:102-107 | on a create_features severity the weather adds 20 for snow, 10 for rain and nothing otherwise |
| Pipeline.BaselineOnFeatures | backend/app/model_server.py:96-122 | on a row create_features returns the baseline is 61 plus the weather adjustment, minus 10 at the weekend; the time of day plays no part |
| Pipeline.SunnyBaseline | backend/app/tests/test_predict.py:45-59 | a sunny record whose features can be built predicts 61 or 51 on the baseline path, never 0 |
| Pipeline.PredictEndpoint | backend/app/api/v1/predict.py:29-51 | unloaded is refused first; then a cleaning or create_features error propagates, and otherwise the answer is the baseline of the record's feature row; a loaded server answers exactly when the record cleans |
| Pipeline.ArtifactPrediction | backend/app/api/v1/ingest.py:45-48 | unloaded raises ModelNotLoadedError before anything else; otherwise a create_features error propagates, or the artifact's first value for the record's row, clipped, or its exception, or IndexError for an empty output |
| Training.ExtractRouteNumber | backend/train_model.py:14-20 | a non-str id gives 0; a str id whose 'R'-free, stripped rest int() rejects gives 0; one whose rest is a run of digits gives the value of those digits, or 0 when the run is longer than 4300 digits |
| Training.ExtractDigits | backend/train_model.py:18 | an id that is a run of digits once its 'R's are removed and the rest stripped gives the value of the digits, or 0 beyond 4300 digits |
| Training.ExtractPadded | backend/train_model.py:18 | the strip applies after the 'R' is removed: " R3 " gives 3 |
| Training.ExtractCanonical | backend/train_model.py:14-20 | "R<n>" gives n when str(n) has at most 4300 digits, and 0 otherwise |
| Training.ExtractNormalized | backend/train_model.py:14-20 | applied to a normalised route id, it recovers the number normalisation took from the raw id |
| Training.ExtractOverlong | backend/train_model.py:18-20 | "R" followed by 4301 digits makes int() raise ValueError, which is caught: 0 |
| Training.ExtractPrefixed | backend/train_model.py:15 | "R3" gives 3 |
| Training.ExtractEveryR | backend/train_model.py:18 | every 'R' is removed: "R1R2" gives 12 |
| Training.ExtractLowerCase | backend/train_model.py:18-20 | "r3" does not parse and gives 0 |
| Training.ExtractBare | backend/train_model.py:18-20 | "R" leaves nothing to parse and gives 0 |
| Training.ExtractNonString | backend/train_model.py:19-20 | a missing or numeric route id raises AttributeError and gives 0 |
| Training.InsertCategory | backend/train_model.py:44 | inserting keeps the categories strictly ascending and distinct, adding exactly the new one |
| Training.Categories | backend/train_model.py:44 | the categories are exactly the str values of the column, distinct and ascending |
| Training.DummyNames | backend/train_model.py:44 | one distinct "time_of_day_" name per category, in category order |
| Training.Indicator | backend/train_model.py:44 | true exactly in the rows holding the category |
| Training.Dummies | backend/train_model.py:44 | `get_dummies` gives one column per category, named with the prefix and in category order, holding that category's indicator |
| Training.RouteNums | backend/train_model.py:28 | each row's route number is extracted from its own route id |
| Training.TrainingColumnsNamed | backend/train_model.py:31-41 | the nine training columns are distinct, none carries the indicator prefix, and only the last is route_num |
| Training.DummyNamesApart | backend/train_model.py:44-48 | indicator columns never collide with training columns |
| Training.PreparedFrame | backend/train_model.py:22-50 | success needs route_id and time_of_day, and gives a valid frame of the input's height |
| Training.PrepareFeatures | backend/train_model.py:22-50 | the method's result, built on a copy, is the prepared frame, and the caller's table is not modified |
| Training.PreparedKeyError | backend/train_model.py:28-47 | raises, always KeyError, exactly when route_id, time_of_day or one of the eight input training columns is missing |
| Training.PreparedColumns | backend/train_model.py:31-48 | the columns are the nine training columns in their fixed order, then one indicator per category in ascending order |
| Training.PreparedValues | backend/train_model.py:28-47 | route_num holds each row's extracted number, and the other eight columns are the input's own |
| Training.PreparedIndicators | backend/train_model.py:44-48 | each indicator is true exactly in the rows holding its category, and every str value has its own indicator |

## Left out

- Logging, the database session and query, `joblib` loading and `os.path`: these are I/O. The stored counts, the file's existence, the load result and the mtime are parameters.
- Cleaning.ParseDateTime: `dateutil.parser.parse` is an uninterpreted parameter. Which texts it reads, and how, is not modelled; what is modelled is which of its outcomes `parse_datetime` catches.
- Cleaning.ParseDateTime: timestamps count whole seconds, while `dateutil` can return microseconds. The sub-second part of a parsed text is not modelled, so neither is its effect on the delay.
- Cleaning.ComputeDelay: `total_seconds() / 60.0` is float arithmetic; here it is exact real division, so float rounding is not modelled. The same holds for the delay Features.DelayFeature passes on.
- Cleaning.ValidateGps: coordinates are reals, so NaN and the infinities cannot be written. In Python every comparison with NaN is false, so a NaN coordinate would be dropped; that case is not modelled.
- `datetime.utcnow()`: the clock is the `today` parameter.
- ModelServing.VersionOf: the mtime is an integer count of microseconds. `os.path.getmtime` returns a float, and its rounding is not modelled.
- The digit limit of `int()` is CPython's default of 4300. Changing it with `sys.set_int_max_str_digits` or the `PYTHONINTMAXSTRDIGITS` environment variable, and interpreters older than 3.10.7 without the limit, are not modelled.
- Text functions: strings are treated as ASCII. `str.strip`, `lower`, `upper` and the `\d` of the regular expressions cover ASCII whitespace, letters and digits only. The Unicode cases are not modelled.
- Cleaning.CleanRecord: the passenger count arrives as an optional int, as the `RecordIn` schema validates it. The `int()` conversion failing inside its `try` is therefore not modelled.
- ModelServing.ModelServer.Predict: the artifact is a function from a frame to values or an exception. scikit-learn's regression itself is not modelled, and neither are floating-point rounding and numpy arrays (sequences of reals instead).
- Training.Categories: only `str` values of the time-of-day column become categories. A non-str, non-missing value (an int, say) would get a column from `get_dummies` but is treated as missing here.
- Training.Dummies: the indicator cells are bools, as pandas 2 writes them. Older pandas uses 0/1 integers.
- Frames.SelectColumns: the keys must be distinct. The code only selects the nine fixed training columns, which are.
- `main()` of `backend/train_model.py` (reading the CSV, fitting, scoring, saving) is not part of this model.
- The HTTP routers are not part of this model, beyond the two paths `Pipeline` follows. That leaves out status codes, persistence, background tasks and response shapes.
- The frontend is not part of this model.
- The mean and standard deviation constants of `model_server.py` are never used, so they are omitted.
