/**
 * The two tables as one store object, and main.py's handlers as methods
 * that change it. A handler that raises leaves both tables as they were
 * (its transaction is never committed); one that returns commits once.
 */
module App {
  import opened Wrappers
  import opened Text
  import opened Models
  import opened Errors
  import opened Cooldown
  import opened Refresh
  import opened Seeding
  import opened Editing

  /**
   * The loop of `init_default_cities` (the `db.add` calls before the
   * commit): each accepted row is staged with its stripped name and the
   * next key of the staged table, each other row is skipped.
   */
  method StageRows(rows: seq<CsvRow>) returns (staged: seq<DefaultCity>)
    ensures staged == Imported(rows)
  {
    staged := [];
    for i := 0 to |rows|
      invariant staged == Imported(rows[..i])
    {
      var row := rows[i];
      assert rows[..i + 1] == rows[..i] + [row];
      if RowAccepted(row) {
        NextIdOfSequential(DefaultIds(staged));
        staged := staged + [DefaultCity(NextId(DefaultIds(staged)), Strip(row.name), row.latitude.value, row.longitude.value)];
        ImportAppendsAccepted(rows[..i], row);
      } else {
        ImportSkipsRejected(rows[..i], row);
      }
    }
    assert rows[..|rows|] == rows;
  }

  class CityStore {
    /** The `cities` table, in row order. */
    var cities: seq<City>
    /** The `default_cities` table, in row order. */
    var defaults: seq<DefaultCity>

    ghost predicate Valid()
      reads this
    {
      CitiesValid(cities) && DefaultsValid(defaults)
    }

    /** A fresh database: both tables created and empty. */
    constructor ()
      ensures Valid() && cities == [] && defaults == []
    {
      cities := [];
      defaults := [];
    }

    /**
     * `init_default_cities`: when `default_cities` is empty, stage one row per
     * accepted CSV row and commit; a commit that would store one name twice
     * fails on the unique column and stores nothing. A non-empty table is
     * left alone, so a second call changes nothing.
     */
    method InitDefaultCities(rows: seq<CsvRow>) returns (r: Outcome)
      requires Valid()
      modifies this
      ensures Valid() && cities == old(cities)
      ensures old(defaults) != [] ==> r == Ok && defaults == old(defaults)
      ensures old(defaults) == [] && DefaultNamesDistinct(Imported(rows)) ==> r == Ok && defaults == Imported(rows)
      ensures old(defaults) == [] && !DefaultNamesDistinct(Imported(rows)) ==>
                r == Err(DuplicateDefaultName) && defaults == old(defaults)
    {
      if defaults != [] {
        return Ok;
      }
      var staged := StageRows(rows);
      if !DefaultNamesDistinct(staged) {
        return Err(DuplicateDefaultName);
      }
      ImportedValid(rows);
      defaults := staged;
      r := Ok;
    }

    /**
     * `reset_cities_to_default`: empty `cities` and copy every default city
     * into it with no temperature or timestamp; with no defaults it raises
     * 500 and the deletion is rolled back.
     */
    method ResetToDefault() returns (r: Outcome)
      requires Valid()
      modifies this
      ensures Valid() && defaults == old(defaults)
      ensures old(defaults) == [] ==> r == Err(NoDefaultCities) && Status(r.failure) == Some(500) && cities == old(cities)
      ensures old(defaults) != [] ==> r == Ok && cities == FromDefaults(defaults)
    {
      var table: seq<City> := [];
      var source := defaults;
      if source == [] {
        return Err(NoDefaultCities);
      }
      for i := 0 to |source|
        invariant defaults == old(defaults)
        invariant table == FromDefaults(source[..i])
      {
        var d := source[i];
        NextIdOfSequential(CityIds(table));
        table := table + [City(NextId(CityIds(table)), d.name, d.latitude, d.longitude, None, None)];
      }
      assert source[..|source|] == source;
      FromDefaultsValid(source);
      cities := table;
      r := Ok;
    }

    /**
     * `add_city`: refuse with 400 when the stripped name is taken; otherwise
     * insert one city with the stripped name, the given coordinates and no
     * weather data.
     */
    method AddCity(name: string, latitude: real, longitude: real) returns (r: Outcome)
      requires Valid()
      requires 1 <= |name| <= 50
      requires InRange(latitude, longitude)
      modifies this
      ensures Valid() && defaults == old(defaults)
      ensures NameTaken(old(cities), Strip(name)) ==> r == Err(DuplicateName(name)) && Status(r.failure) == Some(400) && cities == old(cities)
      ensures !NameTaken(old(cities), Strip(name)) ==>
                && r == Ok
                && cities == old(cities) + [NewCity(old(cities), name, latitude, longitude)]
                && |Strip(name)| <= 50
    {
      var key := Strip(name);
      if exists i :: 0 <= i < |cities| && cities[i].name == key {
        return Err(DuplicateName(name));
      }
      AddedValid(cities, name, latitude, longitude);
      cities := cities + [NewCity(cities, name, latitude, longitude)];
      r := Ok;
    }

    /** `remove_city`: 404 when no city has key `id`; otherwise delete that one row. */
    method RemoveCity(id: int) returns (r: Outcome)
      requires Valid()
      requires id >= 1
      modifies this
      ensures Valid() && defaults == old(defaults)
      ensures FindById(old(cities), id).None? ==> r == Err(CityNotFound(id)) && Status(r.failure) == Some(404) && cities == old(cities)
      ensures FindById(old(cities), id).Some? ==> r == Ok && cities == Without(old(cities), FindById(old(cities), id).value)
    {
      match FindById(cities, id)
      case None =>
        r := Err(CityNotFound(id));
      case Some(k) =>
        RemovedExactly(cities, id);
        cities := Without(cities, k);
        r := Ok;
    }

    /**
     * `update_weather`. `now` is the clock read by the cooldown check,
     * `writtenAt` the one read after the fetches; `responses[i]` is what the
     * fetch for city i yields. `requested` lists the fetches issued.
     * Refused by the cooldown or on an empty table: 400, nothing fetched,
     * nothing changed. Any failed fetch: that fetch's status and detail
     * (whichever failure the gather raises), nothing changed. Otherwise every
     * city takes its own temperature and the same timestamp.
     */
    method UpdateWeather(now: int, writtenAt: int, responses: seq<FetchOutcome>)
      returns (r: Outcome, requested: seq<(real, real)>)
      requires Valid()
      requires |responses| == |cities|
      modifies this
      ensures Valid() && defaults == old(defaults)
      ensures !CanRefresh(old(cities), now) ==>
                r == Err(CooldownActive) && Status(r.failure) == Some(400) && requested == [] && cities == old(cities)
      ensures CanRefresh(old(cities), now) && old(cities) == [] ==>
                r == Err(NoCities) && Status(r.failure) == Some(400) && requested == [] && cities == old(cities)
      ensures CanRefresh(old(cities), now) && old(cities) != [] ==> requested == Locations(old(cities))
      ensures CanRefresh(old(cities), now) && old(cities) != [] && !AllFetched(responses) ==>
                && cities == old(cities)
                && r.Err? && r.failure.WeatherUnavailable?
                && FetchFailed(r.failure.status, r.failure.detail) in responses
                && Status(r.failure) == Some(r.failure.status)
      ensures CanRefresh(old(cities), now) && old(cities) != [] && AllFetched(responses) ==>
                r == Ok && cities == Refreshed(old(cities), Temperatures(responses), writtenAt)
    {
      if !CanRefresh(cities, now) {
        return Err(CooldownActive), [];
      }
      if cities == [] {
        return Err(NoCities), [];
      }
      requested := Locations(cities);
      if exists k :: 0 <= k < |responses| && responses[k].FetchFailed? {
        var k :| 0 <= k < |responses| && responses[k].FetchFailed?;
        return Err(WeatherUnavailable(responses[k].status, responses[k].detail)), requested;
      }
      var temps := Temperatures(responses);
      ghost var before := cities;
      for i := 0 to |cities|
        invariant defaults == old(defaults)
        invariant |cities| == |before|
        invariant forall j :: 0 <= j < i ==> cities[j] == before[j].(temperature := Some(temps[j]), updatedAt := Some(writtenAt))
        invariant forall j :: i <= j < |cities| ==> cities[j] == before[j]
      {
        cities := cities[i := cities[i].(temperature := Some(temps[i]), updatedAt := Some(writtenAt))];
      }
      assert cities == Refreshed(before, temps, writtenAt);
      RefreshedValid(before, temps, writtenAt);
      r := Ok;
    }
  }
}

