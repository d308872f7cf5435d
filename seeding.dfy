/**
 * Filling the tables from defaults: main.py's `init_default_cities` (rows of
 * europe.csv into `default_cities`) and `reset_cities_to_default`
 * (`default_cities` copied into an emptied `cities`).
 */
module Seeding {
  import opened Wrappers
  import opened Text
  import opened Models
  import opened Cooldown

  /**
   * One row of europe.csv after `float()`: a coordinate is None when its
   * text does not parse (the ValueError the loop catches).
   */
  datatype CsvRow = CsvRow(name: string, latitude: Option<real>, longitude: Option<real>)

  /** A row the import keeps: both coordinates parse and are in range. */
  predicate RowAccepted(row: CsvRow) {
    row.latitude.Some? && row.longitude.Some? && InRange(row.latitude.value, row.longitude.value)
  }

  /** The accepted rows, in file order; the others are skipped. */
  function AcceptedRows(rows: seq<CsvRow>): (r: seq<CsvRow>)
    ensures |r| <= |rows|
    ensures forall k :: 0 <= k < |r| ==> RowAccepted(r[k]) && r[k] in rows
    ensures forall k :: 0 <= k < |rows| && RowAccepted(rows[k]) ==> rows[k] in r
  {
    if rows == [] then []
    else
      var rest := AcceptedRows(rows[..|rows| - 1]);
      var row := rows[|rows| - 1];
      assert forall k :: 0 <= k < |rows| - 1 ==> rows[..|rows| - 1][k] == rows[k];
      if RowAccepted(row) then rest + [row] else rest
  }

  /** Each accepted row is kept as often as the file holds it, and no other row is kept. */
  lemma {:induction false} AcceptedRowsCounts(rows: seq<CsvRow>)
    ensures forall x :: multiset(AcceptedRows(rows))[x] == if RowAccepted(x) then multiset(rows)[x] else 0
  {
    if rows != [] {
      var init := rows[..|rows| - 1];
      var row := rows[|rows| - 1];
      AcceptedRowsCounts(init);
      assert rows == init + [row];
      assert multiset(rows) == multiset(init) + multiset{row};
    }
  }

  /** The default table the import stages: accepted row j becomes key j + 1 with its name stripped. */
  function Imported(rows: seq<CsvRow>): seq<DefaultCity> {
    var acc := AcceptedRows(rows);
    seq(|acc|, j requires 0 <= j < |acc| =>
      DefaultCity(j + 1, Strip(acc[j].name), acc[j].latitude.value, acc[j].longitude.value))
  }

  /** A skipped row stages nothing. */
  lemma ImportSkipsRejected(rows: seq<CsvRow>, row: CsvRow)
    requires !RowAccepted(row)
    ensures Imported(rows + [row]) == Imported(rows)
  {
  }

  /** An accepted row stages exactly one default city at the end. */
  lemma ImportAppendsAccepted(rows: seq<CsvRow>, row: CsvRow)
    requires RowAccepted(row)
    ensures Imported(rows + [row])
            == Imported(rows) + [DefaultCity(|Imported(rows)| + 1, Strip(row.name), row.latitude.value, row.longitude.value)]
  {
    assert (rows + [row])[..|rows|] == rows;
  }

  /** `d` is what the import makes of `row`. */
  predicate MadeFrom(d: DefaultCity, row: CsvRow) {
    && RowAccepted(row)
    && d.name == Strip(row.name)
    && d.latitude == row.latitude.value
    && d.longitude == row.longitude.value
  }

  /** Every imported default comes from an accepted row, and every accepted row is imported. */
  lemma ImportedFromAcceptedRows(rows: seq<CsvRow>)
    ensures forall j :: 0 <= j < |Imported(rows)| ==> exists k :: 0 <= k < |rows| && MadeFrom(Imported(rows)[j], rows[k])
    ensures forall k :: 0 <= k < |rows| && RowAccepted(rows[k]) ==> exists j :: 0 <= j < |Imported(rows)| && MadeFrom(Imported(rows)[j], rows[k])
  {
    var acc := AcceptedRows(rows);
    var ds := Imported(rows);
    forall j | 0 <= j < |ds|
      ensures exists k :: 0 <= k < |rows| && MadeFrom(ds[j], rows[k])
    {
      var k :| 0 <= k < |rows| && rows[k] == acc[j];
      assert MadeFrom(ds[j], rows[k]);
    }
    forall k | 0 <= k < |rows| && RowAccepted(rows[k])
      ensures exists j :: 0 <= j < |ds| && MadeFrom(ds[j], rows[k])
    {
      var j :| 0 <= j < |acc| && acc[j] == rows[k];
      assert MadeFrom(ds[j], rows[k]);
    }
  }

  /** When the stripped names are distinct, the staged table satisfies every invariant of `default_cities`. */
  lemma ImportedValid(rows: seq<CsvRow>)
    requires DefaultNamesDistinct(Imported(rows))
    ensures DefaultsValid(Imported(rows))
  {
  }

  /**
   * The `cities` table reset builds: default i becomes key i + 1 (the table
   * was emptied first), same name and coordinates, no temperature, no timestamp.
   */
  function FromDefaults(ds: seq<DefaultCity>): seq<City> {
    seq(|ds|, i requires 0 <= i < |ds| => City(i + 1, ds[i].name, ds[i].latitude, ds[i].longitude, None, None))
  }

  /** A reset table lists the defaults in order, with no weather data. */
  lemma FromDefaultsRows(ds: seq<DefaultCity>)
    ensures |FromDefaults(ds)| == |ds|
    ensures forall i :: 0 <= i < |ds| ==>
              && FromDefaults(ds)[i].name == ds[i].name
              && FromDefaults(ds)[i].latitude == ds[i].latitude
              && FromDefaults(ds)[i].longitude == ds[i].longitude
              && FromDefaults(ds)[i].temperature.None?
              && FromDefaults(ds)[i].updatedAt.None?
  {
  }

  /** A reset from a valid default table gives a valid city table. */
  lemma FromDefaultsValid(ds: seq<DefaultCity>)
    requires DefaultsValid(ds)
    ensures CitiesValid(FromDefaults(ds))
  {
  }

  /** After a reset the cooldown allows a refresh at any time. */
  lemma ResetAllowsRefresh(ds: seq<DefaultCity>, now: int)
    ensures CanRefresh(FromDefaults(ds), now)
  {
  }
}
