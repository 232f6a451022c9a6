/** The prediction dispatcher: a server that holds at most one loaded
    artifact with its version string, and answers a prediction either from
    the artifact (clipped to a sane range) or from a fixed rule-based
    baseline. */
module ModelServing {
  import opened Common
  import opened Frames
  import Timestamps

  /** The median delay of the training data, where the baseline starts. */
  const TrainingDelayMedian: real := 61.0

  /** model.predict(df) of a loaded artifact: the values it returns, or the
      exception it raises. */
  type Artifact = Frame -> Result<seq<real>>

  datatype LoadedModel = LoadedModel(model: Artifact, version: string)

  // ---------------------------------------------------------------------
  // Clipping

  function Clamp(x: real, lo: real, hi: real): (r: real)
    requires lo <= hi
    ensures lo <= r <= hi
    ensures lo <= x <= hi ==> r == x
    ensures x < lo ==> r == lo
    ensures x > hi ==> r == hi
  {
    if x < lo then lo else if x > hi then hi else x
  }

  /** np.clip(predictions, -60.0, 300.0). */
  function ClipAll(s: seq<real>): (r: seq<real>)
    ensures |r| == |s|
    ensures forall i | 0 <= i < |r| :: r[i] == Clamp(s[i], -60.0, 300.0)
  {
    seq(|s|, i requires 0 <= i < |s| => Clamp(s[i], -60.0, 300.0))
  }

  // ---------------------------------------------------------------------
  // The baseline rule

  /** +20 for severity 3, +10 for severity 2, nothing otherwise. */
  function WeatherAdjustment(severity: Value): (r: real)
    ensures r == 20.0 <==> NumEq(severity, 3)
    ensures r == 10.0 <==> NumEq(severity, 2)
    ensures r == 0.0 <==> !NumEq(severity, 3) && !NumEq(severity, 2)
  {
    if NumEq(severity, 3) then 20.0 else if NumEq(severity, 2) then 10.0 else 0.0
  }

  /** +15 when the evening flag is 1, otherwise +5 when the afternoon flag
      is 1. */
  function TimeAdjustment(evening: Value, afternoon: Value): (r: real)
    ensures r == 15.0 <==> NumEq(evening, 1)
    ensures r == 5.0 <==> !NumEq(evening, 1) && NumEq(afternoon, 1)
    ensures r == 0.0 <==> !NumEq(evening, 1) && !NumEq(afternoon, 1)
  {
    if NumEq(evening, 1) then 15.0 else if NumEq(afternoon, 1) then 5.0 else 0.0
  }

  /** -10 when the weekend flag is 1. */
  function WeekendAdjustment(weekend: Value): (r: real)
    ensures r == -10.0 <==> NumEq(weekend, 1)
    ensures r == 0.0 <==> !NumEq(weekend, 1)
  {
    if NumEq(weekend, 1) then -10.0 else 0.0
  }

  /** The baseline before its clamp, for row i; a missing severity counts
      as 2, missing flags as 0. */
  function BaselineSum(f: Frame, i: nat): (r: real)
    requires Valid(f) && i < f.height
    ensures 51.0 <= r <= 96.0
  {
    TrainingDelayMedian
    + WeatherAdjustment(Get(f, i, "weather_severity", IntV(2)))
    + TimeAdjustment(Get(f, i, "time_of_day_evening", IntV(0)), Get(f, i, "time_of_day_afternoon", IntV(0)))
    + WeekendAdjustment(Get(f, i, "is_weekend", IntV(0)))
  }

  /** The baseline prediction of row i: max(0, min(180, sum)). The sum
      already lies in [51, 96], so the clamp never changes it. */
  function BaselineRow(f: Frame, i: nat): (r: real)
    requires Valid(f) && i < f.height
    ensures r == BaselineSum(f, i) && 51.0 <= r <= 96.0
  {
    Clamp(BaselineSum(f, i), 0.0, 180.0)
  }

  /** The baseline over all rows, in row order. */
  function Baseline(f: Frame): (p: seq<real>)
    requires Valid(f)
    ensures |p| == f.height && forall i | 0 <= i < f.height :: p[i] == BaselineRow(f, i)
  {
    seq(f.height, i requires 0 <= i < f.height => BaselineRow(f, i))
  }

  // ---------------------------------------------------------------------
  // Versions

  /** The version of an artifact whose file was modified at mtime
      (microseconds since the epoch): "v1" for 0, otherwise
      datetime.utcfromtimestamp(mtime).isoformat(), which raises outside
      years 1..9999. */
  function VersionOf(mtimeMicros: int): (r: Result<string>)
    ensures mtimeMicros == 0 ==> r == Ok("v1")
    ensures mtimeMicros != 0 ==>
              (r.Raised? <==> !(1 <= Timestamps.DateTimeOfMicros(mtimeMicros).date.year <= 9999))
    ensures mtimeMicros != 0 && r.Raised? ==> r.error == DateOutOfRange
    ensures mtimeMicros != 0 && r.Ok? ==> |r.value| == (if mtimeMicros % 1000000 == 0 then 19 else 26)
    ensures mtimeMicros != 0 && r.Ok? ==> Timestamps.IsoText(r.value, Timestamps.DateTimeOfMicros(mtimeMicros))
  {
    if mtimeMicros == 0 then Ok("v1") else Timestamps.IsoFormat(mtimeMicros)
  }

  /** An artifact's version: "v1" for a zero mtime, the ISO-8601 text of
      the mtime otherwise. */
  lemma VersionExamples(us: int)
    requires us == (86400 * 31 + 3661) * 1000000 + 500000
    ensures VersionOf(0) == Ok("v1")
    ensures VersionOf(us)
            == Ok("1970" + "-" + "02" + "-" + "01" + "T" + "01" + ":" + "01" + ":" + "01" + "." + "500000")
  {
    Timestamps.IsoFormatExample(us);
  }

  /** The artifact the tests install: a zero for every row. */
  function DummyModel(f: Frame): (r: Result<seq<real>>)
    ensures r.Ok? && |r.value| == f.height
    ensures forall i | 0 <= i < |r.value| :: r.value[i] == 0.0
  {
    Ok(seq(f.height, _ => 0.0))
  }

  /** Zeros lie inside [-60, 300], so clipping the dummy's output keeps it. */
  lemma {:induction false} DummyModelUnclipped(f: Frame)
    ensures ClipAll(DummyModel(f).value) == DummyModel(f).value
  {
    var zeros := DummyModel(f).value;
    assert forall i | 0 <= i < |zeros| :: ClipAll(zeros)[i] == zeros[i];
  }

  /** Clipping keeps every value already in range, so clipping twice is
      clipping once. */
  lemma ClipAllIdempotent(s: seq<real>)
    ensures ClipAll(ClipAll(s)) == ClipAll(s)
  {
  }

  // ---------------------------------------------------------------------
  // The server

  class ModelServer {
    /** None while no model is loaded. */
    var current: Option<LoadedModel>

    constructor ()
      ensures current == None
    {
      current := None;
    }

    /** The `loaded` property. */
    predicate Loaded()
      reads this
    {
      current.Some?
    }

    /** The `model_version` property: the version of the held model. */
    function ModelVersion(): (v: Option<string>)
      reads this
      ensures v.None? <==> !Loaded()
      ensures v.Some? ==> v.value == current.value.version
    {
      if current.Some? then Some(current.value.version) else None
    }

    /** load_model(path), given whether the file exists, what joblib.load
        makes of it, and its mtime. A missing file unloads the server; a
        failing load or version leaves it as it was, because the new model
        is only stored once both have succeeded. */
    method LoadModel(fileExists: bool, artifact: Result<Artifact>, mtimeMicros: int) returns (r: Result<()>)
      modifies this
      ensures !fileExists ==> r == Ok(()) && current == None
      ensures fileExists && artifact.Raised? ==> r == Raised(artifact.error) && current == old(current)
      ensures fileExists && artifact.Ok? && VersionOf(mtimeMicros).Raised? ==>
                r == Raised(VersionOf(mtimeMicros).error) && current == old(current)
      ensures fileExists && artifact.Ok? && VersionOf(mtimeMicros).Ok? ==>
                r == Ok(()) && current == Some(LoadedModel(artifact.value, VersionOf(mtimeMicros).value))
    {
      if !fileExists {
        current := None;
        return Ok(());
      }
      if artifact.Raised? {
        return Raised(artifact.error);
      }
      var version := VersionOf(mtimeMicros);
      if version.Raised? {
        return Raised(version.error);
      }
      current := Some(LoadedModel(artifact.value, version.value));
      r := Ok(());
    }

    /** _baseline_predict: one value per row, in row order. */
    method BaselinePredict(f: Frame) returns (predictions: seq<real>)
      requires Valid(f)
      ensures predictions == Baseline(f)
    {
      predictions := [];
      var i := 0;
      while i < f.height
        invariant 0 <= i <= f.height
        invariant |predictions| == i
        invariant forall k | 0 <= k < i :: predictions[k] == BaselineRow(f, k)
      {
        var baseDelay := TrainingDelayMedian;
        var severity := Get(f, i, "weather_severity", IntV(2));
        if NumEq(severity, 3) {
          baseDelay := baseDelay + 20.0;
        } else if NumEq(severity, 2) {
          baseDelay := baseDelay + 10.0;
        }
        if NumEq(Get(f, i, "time_of_day_evening", IntV(0)), 1) {
          baseDelay := baseDelay + 15.0;
        } else if NumEq(Get(f, i, "time_of_day_afternoon", IntV(0)), 1) {
          baseDelay := baseDelay + 5.0;
        }
        if NumEq(Get(f, i, "is_weekend", IntV(0)), 1) {
          baseDelay := baseDelay - 10.0;
        }
        var capped := if baseDelay < 180.0 then baseDelay else 180.0;
        baseDelay := if capped > 0.0 then capped else 0.0;
        predictions := predictions + [baseDelay];
        i := i + 1;
      }
    }

    /** predict(df, use_baseline): ModelNotLoadedError while unloaded; the
        baseline, which raises IndexError on an empty frame when it logs its
        first value; or the artifact's output clipped to [-60, 300]. */
    method Predict(f: Frame, useBaseline: bool) returns (r: Result<seq<real>>)
      requires Valid(f)
      ensures current.None? ==> r == Raised(ModelNotLoadedError)
      ensures current.Some? && useBaseline ==>
                r == if f.height == 0 then Raised(IndexError) else Ok(Baseline(f))
      ensures current.Some? && !useBaseline ==>
                r == match current.value.model(f)
                     case Raised(e) => Raised(e)
                     case Ok(values) => Ok(ClipAll(values))
    {
      if current.None? {
        return Raised(ModelNotLoadedError);
      }
      if useBaseline {
        var predictions := BaselinePredict(f);
        if |predictions| == 0 {
          return Raised(IndexError);
        }
        return Ok(predictions);
      }
      var output := current.value.model(f);
      if output.Raised? {
        return Raised(output.error);
      }
      r := Ok(ClipAll(output.value));
    }
  }
}
