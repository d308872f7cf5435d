/** The exceptions raised by main.py's handlers and the status each carries. */
module Errors {
  import opened Wrappers

  datatype Failure =
    | CooldownActive                             // update_weather: less than 15 minutes since the last refresh
    | NoCities                                   // update_weather: the table is empty
    | WeatherUnavailable(status: int, detail: string) // update_weather: a fetch failed; its status and detail are passed on
    | DuplicateName(name: string)                // add_city: the stripped name is taken (carries the name as submitted)
    | CityNotFound(id: int)                      // remove_city: no row with that id
    | NoDefaultCities                            // reset_cities_to_default: the default table is empty
    | DuplicateDefaultName                       // init_default_cities: commit violates the unique name column

  /** What the handler returns: done, or raised with a failure. */
  datatype Outcome = Ok | Err(failure: Failure)

  /**
   * The HTTP status of each HTTPException; None for the integrity error,
   * which is not an HTTPException.
   */
  function Status(f: Failure): Option<int> {
    match f
    case CooldownActive => Some(400)
    case NoCities => Some(400)
    case WeatherUnavailable(status, _) => Some(status)
    case DuplicateName(_) => Some(400)
    case CityNotFound(_) => Some(404)
    case NoDefaultCities => Some(500)
    case DuplicateDefaultName => None
  }
}
