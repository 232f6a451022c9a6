/** Shared wrappers: an optional value (Python's None) and the outcome of a
    call that may raise one of the exceptions the pipeline can raise. */
module Common {

  datatype Option<+T> = None | Some(value: T)

  /** The exceptions that escape the modelled code. */
  datatype Error =
    | ValueError          // datetime.time() with an hour or minute out of range
    | KeyError            // a DataFrame column that is not there
    | IndexError          // indexing an empty prediction array
    | ArtifactLoadError   // joblib.load failed
    | DateOutOfRange      // datetime.utcfromtimestamp outside years 1..9999
    | ModelNotLoadedError // prediction requested while no model is held
    | OverflowError       // dateutil's parser on a number too large for a date field

  /** Either a value or the exception that was raised instead. */
  datatype Result<+T> = Ok(value: T) | Raised(error: Error)
}
