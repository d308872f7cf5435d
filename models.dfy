/**
 * The two tables of models.py: `cities` (City) and `default_cities`
 * (DefaultCity), and the invariants every operation keeps on them.
 */
module Models {
  import opened Wrappers
  import opened Text

  /**
   * A row of `cities`. `temperature` is in degrees Celsius,
   * `updatedAt` is a timestamp in whole seconds; both are nullable.
   */
  datatype City = City(
    id: int,
    name: string,
    latitude: real,
    longitude: real,
    temperature: Option<real>,
    updatedAt: Option<int>)

  /** A row of `default_cities`: a name and coordinates, no weather data. */
  datatype DefaultCity = DefaultCity(id: int, name: string, latitude: real, longitude: real)

  predicate InRange(latitude: real, longitude: real) {
    -90.0 <= latitude <= 90.0 && -180.0 <= longitude <= 180.0
  }

  /**
   * What holds of each stored city: a positive primary key, a name with no
   * surrounding whitespace, coordinates in range, and a temperature that is
   * set exactly when its timestamp is (they are only ever written together).
   */
  predicate CityWellFormed(c: City) {
    && c.id >= 1
    && Stripped(c.name)
    && InRange(c.latitude, c.longitude)
    && (c.temperature.Some? <==> c.updatedAt.Some?)
  }

  /** The `cities` table: well-formed rows, unique `id`, unique `name`. */
  predicate CitiesValid(cs: seq<City>) {
    && (forall i :: 0 <= i < |cs| ==> CityWellFormed(cs[i]))
    && (forall i, j :: 0 <= i < j < |cs| ==> cs[i].id != cs[j].id && cs[i].name != cs[j].name)
  }

  predicate DefaultWellFormed(d: DefaultCity) {
    d.id >= 1 && Stripped(d.name) && InRange(d.latitude, d.longitude)
  }

  predicate DefaultNamesDistinct(ds: seq<DefaultCity>) {
    forall i, j :: 0 <= i < j < |ds| ==> ds[i].name != ds[j].name
  }

  /** The `default_cities` table: well-formed rows, unique `id`, unique `name`. */
  predicate DefaultsValid(ds: seq<DefaultCity>) {
    && (forall i :: 0 <= i < |ds| ==> DefaultWellFormed(ds[i]))
    && (forall i, j :: 0 <= i < j < |ds| ==> ds[i].id != ds[j].id)
    && DefaultNamesDistinct(ds)
  }

  /** The primary keys in use, in row order. */
  function CityIds(cs: seq<City>): seq<int> {
    seq(|cs|, i requires 0 <= i < |cs| => cs[i].id)
  }

  function DefaultIds(ds: seq<DefaultCity>): seq<int> {
    seq(|ds|, i requires 0 <= i < |ds| => ds[i].id)
  }

  /** The largest key in use, or 0 for an empty table. */
  function MaxOf(xs: seq<int>): (m: int)
    ensures m >= 0
    ensures forall i :: 0 <= i < |xs| ==> xs[i] <= m
    ensures m == 0 || exists i :: 0 <= i < |xs| && xs[i] == m
  {
    if xs == [] then 0
    else
      var rest := MaxOf(xs[..|xs| - 1]);
      if xs[|xs| - 1] > rest then xs[|xs| - 1] else rest
  }

  /**
   * The key SQLite gives the next inserted row of an INTEGER PRIMARY KEY
   * table declared without the AUTOINCREMENT keyword: one more than the
   * largest key in use, 1 in an empty table.
   */
  function NextId(ids: seq<int>): (id: int)
    ensures id >= 1
    ensures forall i :: 0 <= i < |ids| ==> ids[i] < id
  {
    MaxOf(ids) + 1
  }

  /** A table whose keys are 1, 2, ..., n gives n + 1 to its next row. */
  lemma NextIdOfSequential(ids: seq<int>)
    requires forall i :: 0 <= i < |ids| ==> ids[i] == i + 1
    ensures NextId(ids) == |ids| + 1
  {
  }
}
