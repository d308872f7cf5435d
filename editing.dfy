/** Adding and removing one city: main.py's `add_city` and `remove_city`. */
module Editing {
  import opened Wrappers
  import opened Text
  import opened Models

  /** Some city already carries `name` (the `filter(City.name == ...)` lookup). */
  predicate NameTaken(cs: seq<City>, name: string) {
    exists i :: 0 <= i < |cs| && cs[i].name == name
  }

  /** The row `add_city` inserts: the next key, the stripped name, no weather data. */
  function NewCity(cs: seq<City>, name: string, latitude: real, longitude: real): City {
    City(NextId(CityIds(cs)), Strip(name), latitude, longitude, None, None)
  }

  /** Adding a city whose stripped name is free and whose coordinates are in range keeps every table invariant. */
  lemma AddedValid(cs: seq<City>, name: string, latitude: real, longitude: real)
    requires CitiesValid(cs)
    requires InRange(latitude, longitude)
    requires !NameTaken(cs, Strip(name))
    ensures CitiesValid(cs + [NewCity(cs, name, latitude, longitude)])
  {
    assert forall i :: 0 <= i < |cs| ==> CityIds(cs)[i] == cs[i].id;
  }

  /** A stored name typed again with whitespace around it is still a duplicate. */
  lemma PaddedNameTaken(cs: seq<City>, i: int, pre: string, post: string)
    requires CitiesValid(cs) && 0 <= i < |cs|
    requires forall k :: 0 <= k < |pre| ==> IsSpace(pre[k])
    requires forall k :: 0 <= k < |post| ==> IsSpace(post[k])
    ensures NameTaken(cs, Strip(pre + cs[i].name + post))
  {
    StripPadded(pre, cs[i].name, post);
  }

  /** The first row with key `id` (the `filter(City.id == ...).first()` lookup). */
  function FindById(cs: seq<City>, id: int): (r: Option<nat>)
    ensures r.None? <==> forall i :: 0 <= i < |cs| ==> cs[i].id != id
    ensures r.Some? ==> r.value < |cs| && cs[r.value].id == id
    ensures r.Some? ==> forall i :: 0 <= i < r.value ==> cs[i].id != id
  {
    if cs == [] then None
    else if cs[0].id == id then Some(0)
    else
      match FindById(cs[1..], id)
      case None => None
      case Some(k) => Some(k + 1)
  }

  /** The table without row k. */
  function Without(cs: seq<City>, k: nat): (r: seq<City>)
    requires k < |cs|
  {
    cs[..k] + cs[k + 1..]
  }

  /**
   * Removing the row found for `id` removes exactly the city with that key:
   * every other city stays, in order, and the invariants still hold.
   */
  lemma RemovedExactly(cs: seq<City>, id: int)
    requires CitiesValid(cs) && FindById(cs, id).Some?
    ensures CitiesValid(Without(cs, FindById(cs, id).value))
    ensures |Without(cs, FindById(cs, id).value)| == |cs| - 1
    ensures forall c :: c in Without(cs, FindById(cs, id).value) <==> c in cs && c.id != id
  {
  }
}
