# City weather store: a Dafny model

This is a model of the core of a small FastAPI application. The application keeps a table of cities and refreshes every city's current temperature from a weather service. The model covers:

- the two tables of `models.py`: `cities` (`City`) and `default_cities` (`DefaultCity`);
- the invariants the handlers keep on those tables;
- the refresh cooldown (`check_update_cooldown`);
- the refresh itself (`update_weather`);
- the handlers that change the tables: `add_city`, `remove_city`, `reset_cities_to_default`, and the row filter of `init_default_cities`.

Layout, one module per file:

- `wrappers.dfy` (`Wrappers`): `Option`, for nullable columns and parse results.
- `models.dfy` (`Models`): the record datatypes, the table invariants (`CitiesValid`, `DefaultsValid`) and SQLite's choice of the next primary key (`NextId`).
- `text.dfy` (`Text`): Python's `str.strip()` over the whitespace set of `str.isspace()`.
- `cooldown.dfy` (`Cooldown`): the newest `updated_at` and the 900-second gate.
- `errors.dfy` (`Errors`): the exceptions the handlers raise and their HTTP statuses.
- `refresh.dfy` (`Refresh`): fetch outcomes and the table after a successful refresh.
- `seeding.dfy` (`Seeding`): CSV rows, the import filter, and the table a reset builds.
- `editing.dfy` (`Editing`): the name lookup, the new row, the id lookup and removal.
- `app.dfy` (`App`): class `CityStore`. It holds both tables as `seq` fields. Its methods are the five handlers and change the tables in place.
- `scenario.dfy` (`Scenario`): verified client methods. They call the handlers on three cities (Paris, Berlin, Rome): a refresh with one failed fetch, a successful refresh, and an immediate retry. Their assertions follow from the handlers' contracts alone.

How the source's behaviour is represented:

- Timestamps are whole seconds. The clock is passed in as parameters. `update_weather` reads the clock twice: once in the cooldown check (main.py:179) and once before the write loop (main.py:301). So `UpdateWeather` takes two times, `now` and `writtenAt`.
- A weather fetch is an input value: `Fetched(temperature)` or `FetchFailed(status, detail)`. `responses[i]` is what the fetch for city i returns. `UpdateWeather` also returns `requested`, the coordinates it fetched, so that "no fetch was issued" can be stated.
- `asyncio.gather` raises whichever failure it sees first in time. The model picks a failing response nondeterministically. The contract only promises that the reported status and detail belong to some failed fetch.
- A handler that raises leaves both tables unchanged, because its transaction is never committed. A handler that returns commits once.
- Primary keys follow SQLite's rule for an `INTEGER PRIMARY KEY` column declared without the `AUTOINCREMENT` keyword, which is what SQLAlchemy emits here. The next key is one more than the largest key in use, or 1 in an empty table. So a reset, which first empties `cities`, numbers the copied defaults 1, 2, ….
- Committing two default rows with the same stripped name violates the unique `name` column. `InitDefaultCities` then returns `DuplicateDefaultName` and stores nothing.
- The table invariant (`CitiesValid`) says:
  - keys are positive and distinct;
  - names are distinct and already stripped;
  - coordinates are in range;
  - `temperature` is set exactly when `updated_at` is set.
- The routes' `Form`/`Path` validation becomes `requires` clauses:
  - `add_city`: a submitted name of 1 to 50 characters and coordinates in range;
  - `remove_city`: an id of at least 1.

Things the code does that a reader might not expect, which the model keeps:

- The code re-raises a failed fetch with the fetch's own status and detail (main.py:296-298). It does not map the failure to one fixed status.
- A successful refresh returns a redirect, not a count of updated cities.
- A submitted name made only of whitespace passes the `min_length=1` check, because that check runs before stripping. `add_city` then stores the empty name. The model does the same.

## Model

| member | source | states |
|---|---|---|
| Models.MaxOf | models.py:21 | the largest key in use bounds every key and is one of them, or 0 for an empty table |
| Models.NextId | models.py:21 | a newly inserted row's key is positive and larger than every key already in the table, so keys stay unique |
| Models.NextIdOfSequential | models.py:21 | in a table keyed 1..n the next row gets key n + 1 |
| Text.Strip | main.py:234 | the stripped name is a contiguous slice of the input, everything removed is whitespace, and the result has no whitespace at either end |
| Text.StrippedIsFixpoint | main.py:229-234 | strip leaves a string unchanged exactly when it has no whitespace at either end |
| Text.StripIdempotent | main.py:229-234 | stripping an already stripped name changes nothing, so the stored name is the name the duplicate check looked up |
| Text.StripPadded | main.py:229 | a stripped name with whitespace added around it strips back to itself |
| Cooldown.LatestUpdate | main.py:173-176 | the first row of the descending `updated_at` order is None exactly when no city has a timestamp; otherwise it is the timestamp of some city and no city's timestamp is newer |
| Cooldown.CanRefresh | main.py:173-181 | a refresh is allowed exactly when every city's timestamp is at least 900 seconds before `now`; an empty or never-refreshed table always allows it |
| Cooldown.CooldownBoundary | main.py:179-181 | the window reopens exactly 900 seconds after the newest update: allowed at 900, refused at 899 |
| Cooldown.OneRecentUpdateBlocksAll | main.py:173-181 | the cooldown is global: one city refreshed less than 900 seconds ago refuses the whole table |
| Cooldown.NewCityKeepsDecision | main.py:173-176 | adding a city that was never refreshed does not change the cooldown decision |
| Refresh.RefreshedRow | main.py:302-304 | after the write loop, city i keeps its key, name and coordinates, has the i-th temperature, and has the one shared timestamp |
| Refresh.RefreshedValid | main.py:301-306 | a successful refresh keeps every table invariant, including temperature and timestamp being set together |
| Refresh.RefreshLocksOut | main.py:301-304 | right after a refresh of a non-empty table, the cooldown refuses any refresh less than 900 seconds after the write time |
| Refresh.RefreshReopens | main.py:179-181 | 900 seconds or more after the write time a refresh is allowed again |
| App.CityStore.UpdateWeather | main.py:273-307 | cooldown refused: 400, nothing fetched, nothing changed. Empty table: 400, nothing fetched, nothing changed. Otherwise one fetch per city, in table order, with its coordinates (line 292). Any failed fetch: that fetch's status and detail, nothing changed. Otherwise each city takes its own gathered temperature (line 295) and all take the same timestamp |
| Seeding.AcceptedRows | main.py:104-125 | every kept row is valid and from the file, and every valid row of the file is kept |
| Seeding.AcceptedRowsCounts | main.py:104-125 | the import keeps exactly the valid rows: each as often as it occurs in the file, and no other row |
| Seeding.ImportSkipsRejected | main.py:123-125 | an invalid row is skipped without aborting: it stages nothing |
| Seeding.ImportAppendsAccepted | main.py:115-121 | a valid row stages exactly one default city at the end, with the stripped name, its coordinates and the next key |
| Seeding.ImportedFromAcceptedRows | main.py:104-121 | every staged default city comes from a valid row, and every valid row yields one |
| Seeding.ImportedValid | main.py:116-121 | when the stripped names are distinct, the staged table meets every invariant of `default_cities` |
| App.StageRows | main.py:104-121 | the import loop stages exactly the default table built from the valid rows, in file order, with stripped names and keys 1, 2, … |
| App.CityStore.InitDefaultCities | main.py:95-128 | a non-empty default table is left as it is (a second call changes nothing); otherwise the valid rows are committed, or nothing is if two of them share a name |
| Seeding.FromDefaultsRows | main.py:151-158 | the reset table lists the defaults in order with their names and coordinates, and with no temperature or timestamp |
| Seeding.FromDefaultsValid | main.py:151-158 | a reset from a valid default table gives a valid city table |
| Seeding.ResetAllowsRefresh | main.py:156-157 | after a reset, the cooldown allows a refresh at any time |
| App.CityStore.ResetToDefault | main.py:137-160 | with no defaults: 500 and the city table unchanged; otherwise the city table becomes exactly the reset table built from the defaults |
| Editing.AddedValid | main.py:229-238 | adding a city whose stripped name is free, with coordinates in range, keeps every table invariant: fresh key, unique name, no weather data |
| Editing.PaddedNameTaken | main.py:229-230 | a stored name submitted again with whitespace around it is rejected as a duplicate |
| App.CityStore.AddCity | main.py:220-239 | a taken stripped name: 400 and the table unchanged; otherwise exactly one city is appended, with the stripped name (at most 50 characters), the given coordinates and no temperature |
| Editing.FindById | main.py:252 | the lookup finds nothing exactly when no city has the key; otherwise it finds the first city with that key |
| Editing.RemovedExactly | main.py:252-258 | removing the city found for an id removes that city and keeps every other one and the invariants |
| App.CityStore.RemoveCity | main.py:245-258 | an unknown id: 404 and the table unchanged; otherwise exactly that row is deleted |

## Left out

- `fetch_weather` (main.py:50-86): the HTTP request, URL building, JSON decoding and the 10-second timeout are I/O. Each fetch is an input outcome. Its status mapping (503 for a non-200 response, 500 for a transport error or a missing field) is documented on `FetchOutcome`. It is not enforced.
- `asyncio.gather` concurrency: there is no interleaving. The unspecified choice of which failure is reported is the only trace of it. Sibling fetches that are still running after a failure are not modelled.
- SQLAlchemy engine, sessions and `get_db`: commit and rollback appear only as "the tables change on success and stay unchanged on error". Concurrent requests racing between a lookup and a commit are not modelled.
- CSV file handling in `init_default_cities`: opening the file, `csv.DictReader`, the `RuntimeError`s for a missing file or a malformed CSV, the `KeyError` for a missing column, and the logging. Rows arrive already parsed. A coordinate that `float()` rejects is `None`. NaN and infinities fail the range check in the source and are skipped, which the model gets by treating them as unparsed.
- FastAPI routing, `Form`/`Path` validation (kept only as `requires` clauses), redirects, templates and `read_index`.
- `startup_init` and `Base.metadata.create_all`. The `CityStore` constructor stands for freshly created empty tables.
- `datetime` precision: timestamps are whole seconds, not microseconds.
- Floating point: coordinates and temperatures are `real`. They are only compared and copied.
- FetchOutcome: `Fetched` always carries a number, as the docstring of `fetch_weather` promises (main.py:57-58). In the source, a JSON `null` in the temperature field would come back as `None` (main.py:81). Lines 303-304 would then store `temperature=None` with `updated_at` set. `RefreshedValid`'s rule that temperature and timestamp are set together relies on this assumption. Exceptions other than `aiohttp.ClientError` and `KeyError` (main.py:83-86) leave `update_weather` as exceptions that are not `HTTPException`s. They are not modelled.
- Errors.Status: the 400/404/500 statuses are fixed by this mapping. They appear in the handlers' contracts only through it.
- Models.CitiesValid: does not bound names to 50 characters. `String(50)` is not enforced by SQLite, and names imported from the CSV have no length check. The bound is proved only for names added by `add_city`.
- Text.Strip: covers the whitespace set of `str.isspace()`. There is no Unicode normalisation.
