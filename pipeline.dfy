/** The pipeline end to end: a cleaned record's feature row handed to the
    prediction server, along the two paths the endpoints choose. */
module Pipeline {
  import opened Common
  import opened Frames
  import Cleaning
  import Features
  import opened ModelServing

  /** The one-hot time-of-day flags the baseline looks for are not among
      the feature names. */
  lemma NotAFeatureName(k: string)
    requires k == "time_of_day_evening" || k == "time_of_day_afternoon"
    ensures k !in Features.FeatureNames
  {
    assert |k| > |"time_of_day"|;
    assert k[..12] == "time_of_day_";
  }

  /** The baseline adjustment for a create_features severity: only snow
      (3) and rainy (2) move it. */
  lemma SeverityAdjustment(weather: string)
    ensures var n := Cleaning.NormalizeWeather(weather);
      WeatherAdjustment(IntV(Features.WeatherSeverity(weather)))
        == if n == "snow" then 20.0 else if n == "rainy" then 10.0 else 0.0
  {
    Features.WeatherSeverityTable(weather);
  }

  /** On a row built by create_features the baseline is 61, plus 20 for
      snow or 10 for rain, minus 10 on a weekend; the time of day never
      changes it, because the row has no evening or afternoon flag. */
  lemma BaselineOnFeatures(rec: Cleaning.CleanedRecord)
    ensures Features.CreateFeatures(rec).Ok? ==>
      var n := Cleaning.NormalizeWeather(rec.weather);
      var weekend := Features.DayFeature(rec.scheduledTime) >= 5;
      BaselineRow(Features.CreateFeatures(rec).value, 0)
        == 61.0 + (if n == "snow" then 20.0 else if n == "rainy" then 10.0 else 0.0)
                + (if weekend then -10.0 else 0.0)
  {
    Features.CreateFeaturesRow(rec);
    NotAFeatureName("time_of_day_evening");
    NotAFeatureName("time_of_day_afternoon");
    SeverityAdjustment(rec.weather);
  }

  /** A sunny record predicts 61 minutes, or 51 at the weekend, whatever
      artifact is loaded: never the 0 the dummy model would give. */
  lemma SunnyBaseline(rec: Cleaning.CleanedRecord)
    requires Cleaning.NormalizeWeather(rec.weather) == "sunny"
    ensures Features.CreateFeatures(rec).Ok? ==>
              BaselineRow(Features.CreateFeatures(rec).value, 0) == 61.0
              || BaselineRow(Features.CreateFeatures(rec).value, 0) == 51.0
  {
    BaselineOnFeatures(rec);
  }

  /** The predict endpoint: unloaded is refused before anything else, then
      the raw record is cleaned (a time-only value out of range, an
      overflowing date or an overlong route number raises), its features
      built and the first baseline value returned. A record that cleans
      always yields a prediction. */
  method PredictEndpoint(server: ModelServer, raw: Cleaning.RawRecord, history: seq<int>, today: int,
                         parse: Cleaning.DateParser) returns (r: Result<real>)
    ensures server.current.None? ==> r == Raised(ModelNotLoadedError)
    ensures server.current.Some? ==>
              r == match Cleaning.CleanRecord(raw, history, today, parse)
                   case Raised(e) => Raised(e)
                   case Ok(rec) =>
                     match Features.CreateFeatures(rec)
                     case Raised(e) => Raised(e)
                     case Ok(f) => Ok(BaselineRow(f, 0))
    ensures server.current.Some? ==> (r.Ok? <==> Cleaning.CleanRecord(raw, history, today, parse).Ok?)
  {
    if !server.Loaded() {
      return Raised(ModelNotLoadedError);
    }
    var cleaned := Cleaning.CleanRecord(raw, history, today, parse);
    if cleaned.Raised? {
      return Raised(cleaned.error);
    }
    Features.CleanedRouteFits(raw, history, today, parse);
    var features := Features.CreateFeatures(cleaned.value);
    // the row is never empty, so the baseline path cannot raise here
    var predictions := server.Predict(features.value, true);
    r := Ok(predictions.value[0]);
  }

  /** Ingestion and record updates: unloaded is checked first, then the
      artifact's first value for the record's feature row, clipped; the
      ValueError of create_features propagates and an empty output raises
      IndexError. */
  method ArtifactPrediction(server: ModelServer, rec: Cleaning.CleanedRecord) returns (r: Result<real>)
    ensures server.current.None? ==> r == Raised(ModelNotLoadedError)
    ensures server.current.Some? ==>
              r == match Features.CreateFeatures(rec)
                   case Raised(e) => Raised(e)
                   case Ok(f) =>
                     match server.current.value.model(f)
                     case Raised(e) => Raised(e)
                     case Ok(values) =>
                       if |values| == 0 then Raised(IndexError) else Ok(Clamp(values[0], -60.0, 300.0))
  {
    if !server.Loaded() {
      return Raised(ModelNotLoadedError);
    }
    var features := Features.CreateFeatures(rec);
    if features.Raised? {
      return Raised(features.error);
    }
    var predictions := server.Predict(features.value, false);
    if predictions.Raised? {
      return Raised(predictions.error);
    }
    if |predictions.value| == 0 {
      return Raised(IndexError);
    }
    r := Ok(predictions.value[0]);
  }
}
