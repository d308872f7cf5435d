/**
 * Clients of the store: three cities (Paris, Berlin, Rome, never refreshed)
 * and what the handlers' contracts promise about them.
 */
module Scenario {
  import opened Wrappers
  import opened Models
  import opened Errors
  import opened Refresh
  import opened App

  method ThreeCities() returns (store: CityStore)
    ensures fresh(store) && store.Valid() && |store.cities| == 3
    ensures forall i :: 0 <= i < 3 ==> store.cities[i].temperature.None? && store.cities[i].updatedAt.None?
  {
    store := new CityStore();
    store.cities := [
      City(1, "Paris", 48.85, 2.35, None, None),
      City(2, "Berlin", 52.52, 13.4, None, None),
      City(3, "Rome", 41.9, 12.5, None, None)];
  }

  /** Berlin's fetch fails: the refresh reports it and no city changes. */
  method OneFailedFetch() {
    var store := ThreeCities();
    var before := store.cities;
    var r, requested := store.UpdateWeather(1000, 1002, [Fetched(10.0), FetchFailed(500, "timeout"), Fetched(20.0)]);
    assert FetchFailed(500, "timeout") == [Fetched(10.0), FetchFailed(500, "timeout"), Fetched(20.0)][1];
    assert r == Err(WeatherUnavailable(500, "timeout"));
    assert |requested| == 3 && store.cities == before;
  }

  /** All fetches succeed: each city has its own temperature and the shared timestamp; a second refresh is refused. */
  method RefreshThenRetry() {
    var store := ThreeCities();
    var r, requested := store.UpdateWeather(1000, 1002, [Fetched(10.0), Fetched(15.0), Fetched(20.0)]);
    assert r == Ok;
    assert store.cities[0].temperature == Some(10.0) && store.cities[1].temperature == Some(15.0);
    assert store.cities[2].temperature == Some(20.0);
    assert store.cities[0].updatedAt == store.cities[1].updatedAt == store.cities[2].updatedAt == Some(1002);
    var after := store.cities;
    r, requested := store.UpdateWeather(1500, 1501, [Fetched(11.0), Fetched(16.0), Fetched(21.0)]);
    assert !Cooldown.CanRefresh(after, 1500) by {
      Cooldown.OneRecentUpdateBlocksAll(after, 0, 1500);
    }
    assert r == Err(CooldownActive) && requested == [] && store.cities == after;
  }
}
