/** Configuration constants of the backend. */
module Config {

  /** The weather values a cleaned record may carry besides "unknown". */
  const AllowedWeather: seq<string> := ["sunny", "cloudy", "rainy", "snow", "clear", "fog"]

  const MinPassenger: int := 0
  const MaxPassenger: int := 200
}
