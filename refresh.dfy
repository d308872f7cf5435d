/**
 * The refresh of main.py's `update_weather`: one fetch per city, and on
 * full success each city's own temperature with one shared timestamp.
 */
module Refresh {
  import opened Wrappers
  import opened Models
  import opened Cooldown

  /**
   * What one `fetch_weather` call yields: a number of degrees, as its
   * docstring promises, or the HTTPException it raises (503 for a non-200
   * response, 500 for a transport error or a response without the
   * temperature field).
   */
  datatype FetchOutcome = Fetched(temperature: real) | FetchFailed(status: int, detail: string)

  /** The coordinates passed to `fetch_weather`, one per city, in table order. */
  function Locations(cs: seq<City>): (ls: seq<(real, real)>)
    ensures |ls| == |cs|
    ensures forall i :: 0 <= i < |cs| ==> ls[i] == (cs[i].latitude, cs[i].longitude)
  {
    seq(|cs|, i requires 0 <= i < |cs| => (cs[i].latitude, cs[i].longitude))
  }

  predicate AllFetched(rs: seq<FetchOutcome>) {
    forall i :: 0 <= i < |rs| ==> rs[i].Fetched?
  }

  /** The list `asyncio.gather` returns when every fetch succeeded. */
  function Temperatures(rs: seq<FetchOutcome>): (ts: seq<real>)
    requires AllFetched(rs)
    ensures |ts| == |rs|
    ensures forall i :: 0 <= i < |rs| ==> rs[i] == Fetched(ts[i])
  {
    seq(|rs|, i requires 0 <= i < |rs| => rs[i].temperature)
  }

  /** The table after the write loop: city i takes temps[i], every city takes `at`. */
  function Refreshed(cs: seq<City>, temps: seq<real>, at: int): seq<City>
    requires |temps| == |cs|
  {
    seq(|cs|, i requires 0 <= i < |cs| => cs[i].(temperature := Some(temps[i]), updatedAt := Some(at)))
  }

  /** Row i keeps its key, name and coordinates and takes the i-th temperature and the shared timestamp. */
  lemma RefreshedRow(cs: seq<City>, temps: seq<real>, at: int, i: int)
    requires |temps| == |cs| && 0 <= i < |cs|
    ensures |Refreshed(cs, temps, at)| == |cs|
    ensures Refreshed(cs, temps, at)[i] == City(cs[i].id, cs[i].name, cs[i].latitude, cs[i].longitude, Some(temps[i]), Some(at))
  {
  }

  /** A refresh keeps every table invariant. */
  lemma RefreshedValid(cs: seq<City>, temps: seq<real>, at: int)
    requires CitiesValid(cs) && |temps| == |cs|
    ensures CitiesValid(Refreshed(cs, temps, at))
  {
  }

  /** Right after a refresh of a non-empty table the cooldown refuses for 900 seconds. */
  lemma RefreshLocksOut(cs: seq<City>, temps: seq<real>, at: int, later: int)
    requires |temps| == |cs| && cs != []
    requires later - at < CooldownSeconds
    ensures !CanRefresh(Refreshed(cs, temps, at), later)
  {
  }

  /** ... and from 900 seconds on it allows the next one. */
  lemma RefreshReopens(cs: seq<City>, temps: seq<real>, at: int, later: int)
    requires |temps| == |cs|
    requires later - at >= CooldownSeconds
    ensures CanRefresh(Refreshed(cs, temps, at), later)
  {
  }
}
